/** What the two PII migrations do to one row: encryption with a first blind index
    (`backend/alembic/versions/20231027_1200_encrypt_pii.py`), then blind indexes per
    organisation (`backend/alembic/versions/20231027_1400_rekey_blind_indexes.py`). */
module PiiRows {
  import opened Collections
  import opened Text

  /** A nullable text column. */
  type Cell = Option<string>

  datatype Column = Email | Name | Phone

  datatype Client = Client(org: Option<int>, email: Cell, name: Cell, phone: Cell, emailIndex: Cell)

  datatype Worker = Worker(org: Option<int>, email: Cell, name: Cell, phone: Cell, emailIndex: Cell, phoneIndex: Cell)

  const PREFIX := "gAAAA"

  /** The cipher, with the randomness that one run draws for the cell of a row; the MAC
      under the blind index key; `str.lower`; and `str` of an organisation id. */
  datatype Env = Env(
    encrypt: (int, Column, string) -> string, decrypt: string -> Option<string>,
    mac: string -> string, lower: string -> string, orgText: int -> string)

  /** Fernet: tokens start alike, are longer than the text, and decrypt to it. */
  ghost predicate Sound(env: Env) {
    forall id: int, c: Column, s: string :: s != "" ==>
      PREFIX <= env.encrypt(id, c, s) && env.decrypt(env.encrypt(id, c, s)) == Some(s) && |s| < |env.encrypt(id, c, s)|
  }

  ghost predicate Injective(mac: string -> string) {
    forall s: string, t: string :: mac(s) == mac(t) ==> s == t
  }

  /** Neither NULL nor empty. */
  predicate Truthy(cell: Cell) { cell.Some? && cell.value != "" }

  /** A cell that the migrations take for a token. */
  predicate Token(cell: Cell) { cell.Some? && PREFIX <= cell.value }

  function Normalize(env: Env, s: string): string {
    env.lower(Strip(s))
  }

  // ------------------------------------------------------------- the first migration

  function EncryptCell(env: Env, id: int, c: Column, cell: Cell): Cell {
    if Truthy(cell) then Some(env.encrypt(id, c, cell.value)) else cell
  }

  function BlindHash(env: Env, cell: Cell): Cell {
    if Truthy(cell) then Some(env.mac(Normalize(env, cell.value))) else None
  }

  function BackfillClient(env: Env, id: int, r: Client): Client {
    if Token(r.email) then r
    else Client(r.org, EncryptCell(env, id, Email, r.email), EncryptCell(env, id, Name, r.name),
                EncryptCell(env, id, Phone, r.phone), BlindHash(env, r.email))
  }

  function BackfillWorker(env: Env, id: int, r: Worker): Worker {
    if Token(r.email) then r
    else Worker(r.org, EncryptCell(env, id, Email, r.email), EncryptCell(env, id, Name, r.name),
                EncryptCell(env, id, Phone, r.phone), BlindHash(env, r.email), BlindHash(env, r.phone))
  }

  // ------------------------------------------------------------ the second migration

  datatype Decrypted = Text(cell: Cell) | Failed

  function DecryptValue(env: Env, cell: Cell): Decrypted {
    if !Truthy(cell) then Text(None)
    else if !Token(cell) then Text(cell)
    else match env.decrypt(cell.value) case Some(s) => Text(Some(s)) case None => Failed
  }

  /** The text that is hashed for an organisation. */
  function Payload(env: Env, org: Option<int>, s: string): string {
    match org
    case Some(o) => env.orgText(o) + (":" + Normalize(env, s))
    case None => Normalize(env, s)
  }

  function ComputeBlindHash(env: Env, cell: Cell, org: Option<int>): Cell {
    if Truthy(cell) then Some(env.mac(Payload(env, org, cell.value))) else None
  }

  /** None when decryption raises. A client without an email is skipped. */
  function RekeyClient(env: Env, r: Client): Option<Client> {
    if !Truthy(r.email) then Some(r)
    else
      match DecryptValue(env, r.email)
      case Text(email) => Some(r.(emailIndex := ComputeBlindHash(env, email, r.org)))
      case Failed => None
  }

  function RekeyWorker(env: Env, r: Worker): Option<Worker> {
    match DecryptValue(env, r.email)
    case Text(email) => (
      match DecryptValue(env, r.phone)
      case Text(phone) => Some(r.(emailIndex := ComputeBlindHash(env, email, r.org),
                                  phoneIndex := ComputeBlindHash(env, phone, r.org)))
      case Failed => None)
    case Failed => None
  }

  // ------------------------------------------------------------- what a row ends up as

  /** Encrypting a cell keeps what the second migration reads from it. */
  lemma EncryptedReadsSame(env: Env, id: int, c: Column, cell: Cell)
    requires Sound(env) && !Token(cell)
    ensures var reading := DecryptValue(env, EncryptCell(env, id, c, cell));
      reading == Text(if Truthy(cell) then cell else None)
    ensures Truthy(cell) ==> Token(EncryptCell(env, id, c, cell))
  {
  }

  /** After both migrations a client's email is encrypted, decrypts to the original, and
      is indexed by the MAC of organisation and normalised address; the other columns
      decrypt to the originals. */
  lemma ClientMigrated(env: Env, id: int, r: Client)
    requires Sound(env) && !Token(r.email)
    ensures var m := RekeyClient(env, BackfillClient(env, id, r));
      && m.Some? && m.value.org == r.org
      && (if Truthy(r.email)
          then Token(m.value.email) && env.decrypt(m.value.email.value) == Some(r.email.value)
               && m.value.emailIndex == Some(env.mac(Payload(env, r.org, r.email.value)))
          else m.value.email == r.email && m.value.emailIndex == None)
      && (Truthy(r.name) ==> env.decrypt(m.value.name.value) == Some(r.name.value))
      && (Truthy(r.phone) ==> env.decrypt(m.value.phone.value) == Some(r.phone.value))
  {
    EncryptedReadsSame(env, id, Email, r.email);
    hide Payload;
  }

  /** The same for a worker, whose phone is indexed too. */
  lemma WorkerMigrated(env: Env, id: int, r: Worker)
    requires Sound(env) && !Token(r.email) && !Token(r.phone)
    ensures var m := RekeyWorker(env, BackfillWorker(env, id, r));
      && m.Some? && m.value.org == r.org
      && DecryptValue(env, m.value.email) == Text(if Truthy(r.email) then r.email else None)
      && DecryptValue(env, m.value.phone) == Text(if Truthy(r.phone) then r.phone else None)
      && m.value.emailIndex == ComputeBlindHash(env, r.email, r.org)
      && m.value.phoneIndex == ComputeBlindHash(env, r.phone, r.org)
      && (Truthy(r.email) ==> Token(m.value.email)) && (Truthy(r.phone) ==> Token(m.value.phone))
  {
    EncryptedReadsSame(env, id, Email, r.email);
    EncryptedReadsSame(env, id, Phone, r.phone);
    hide Payload, Normalize;
  }

  /** A second encryption of a token differs from it, whatever the second run draws. */
  lemma TokensGrow(env: Env, again: Env, id: int, c: Column, cell: Cell)
    requires Sound(env) && Sound(again)
    ensures Truthy(cell) <==> EncryptCell(again, id, c, EncryptCell(env, id, c, cell)) != EncryptCell(env, id, c, cell)
  {
  }

  /** A second run of the backfill leaves a client as it is exactly when the client has
      an email, or has neither name nor phone: without an email nothing marks the row
      as done. */
  lemma ClientRerun(env: Env, again: Env, id: int, r: Client)
    requires Sound(env) && Sound(again)
    ensures var once := BackfillClient(env, id, r);
      BackfillClient(again, id, once) == once <==> Truthy(r.email) || (!Truthy(r.name) && !Truthy(r.phone))
  {
    TokensGrow(env, again, id, Name, r.name);
    TokensGrow(env, again, id, Phone, r.phone);
    if !Token(r.email) {
      EncryptedReadsSame(env, id, Email, r.email);
    }
  }

  /** The same for a worker. Its phone goes on reading as it did exactly when there is an
      email or no phone. */
  lemma WorkerRerun(env: Env, again: Env, id: int, r: Worker)
    requires Sound(env) && Sound(again) && env.decrypt == again.decrypt
    ensures var once := BackfillWorker(env, id, r);
      var twice := BackfillWorker(again, id, once);
      && (twice == once <==> Truthy(r.email) || (!Truthy(r.name) && !Truthy(r.phone)))
      && (DecryptValue(env, twice.phone) == DecryptValue(env, once.phone) <==> Truthy(r.email) || !Truthy(r.phone))
  {
    TokensGrow(env, again, id, Name, r.name);
    TokensGrow(env, again, id, Phone, r.phone);
    if !Token(r.email) {
      EncryptedReadsSame(env, id, Email, r.email);
    }
    PhoneReading(env, again, id, r.phone);
  }

  lemma PhoneReading(env: Env, again: Env, id: int, cell: Cell)
    requires Sound(env) && Sound(again) && env.decrypt == again.decrypt
    ensures var once := EncryptCell(env, id, Phone, cell);
      DecryptValue(env, EncryptCell(again, id, Phone, once)) == DecryptValue(env, once) <==> !Truthy(cell)
  {
    if Truthy(cell) {
      var s := cell.value;
      var t := env.encrypt(id, Phone, s);
      assert PREFIX <= t && |s| < |t| && env.decrypt(t) == Some(s);
      var u := again.encrypt(id, Phone, t);
      assert PREFIX <= u && again.decrypt(u) == Some(t);
    }
  }
}
