/** The second PII migration over the tables that the first one left: blind indexes per
    organisation, then a search for duplicates before the unique constraints. */
module PiiRekey {
  import opened Collections
  import opened PiiRows
  import opened PiiTables
  import opened PiiClients

  /** A row of the loop; a row that raises stays as it is. */
  function Step<R>(rekey: R -> Option<R>): (int, R) -> R {
    (id: int, r: R) => match rekey(r) case Some(r') => r' case None => r
  }

  /** The first n rows all decrypt. */
  ghost predicate AllReadable<R>(rekey: R -> Option<R>, ids: seq<int>, rows: map<int, R>, n: nat)
    requires Keyed(ids, rows) && n <= |ids|
  {
    n == 0 || (AllReadable(rekey, ids, rows, n - 1) && rekey(rows[ids[n - 1]]).Some?)
  }

  /** The loop over either table: page by page, committed by the session page by page. It
      raises at the first row that does not decrypt. */
  method RekeyTable<R>(rekey: R -> Option<R>, t: Table<R>, batchSize: nat)
      returns (ok: bool, ghost visited: nat, ghost batches: nat)
    requires t.Valid() && batchSize > 0
    modifies t
    ensures t.Valid() && visited <= |t.ids| && AllReadable(rekey, t.ids, old(t.rows), visited)
    ensures ok ==> visited == |t.ids| && t.rows == Mapped(t.ids, old(t.rows), Step(rekey), |t.ids|)
    ensures !ok ==> visited < |t.ids| && rekey(old(t.rows)[t.ids[visited]]).None?
    ensures !ok ==> Start(batches, batchSize) <= visited < Start(batches + 1, batchSize)
    ensures !ok ==> t.rows == Mapped(t.ids, old(t.rows), Step(rekey), Start(batches, batchSize))
  {
    hide Keyed;
    ghost var rows, f := t.rows, Step(rekey);
    var offset := 0;
    ok, visited, batches := true, 0, 0;
    while true
      invariant offset == Start(batches, batchSize) && visited == Reached(t.ids, offset)
      invariant t.Valid() && t.rows == Mapped(t.ids, rows, f, visited) && AllReadable(rekey, t.ids, rows, visited)
      decreases |t.ids| - offset
    {
      var page := Page(t.ids, t.rows, batchSize, offset);
      if |page| == 0 {
        break;
      }
      var before := t.rows;
      for k := 0 to |page|
        invariant offset + |page| <= |t.ids| && visited == offset + k
        invariant t.Valid() && t.rows == Mapped(t.ids, rows, f, visited) && AllReadable(rekey, t.ids, rows, visited)
      {
        PageRow(t.ids, rows, f, batchSize, offset, k);
        var (id, r) := page[k];
        var rekeyed := rekey(r);
        if rekeyed.None? {
          ok, t.rows := false, before;
          return;
        }
        t.Update(id, rekeyed.value);
        visited := visited + 1;
      }
      offset, batches := offset + batchSize, batches + 1;
    }
  }

  // ----------------------------------------------------------------------- duplicates

  /** Groups of more than one row, by organisation and blind index. NULL organisations
      form one group. */
  predicate DuplicateEmails(rows: map<int, Client>) {
    exists a, b :: a in rows && b in rows && a != b
      && rows[a].emailIndex.Some? && rows[a].org == rows[b].org && rows[a].emailIndex == rows[b].emailIndex
  }

  predicate DuplicatePhones(rows: map<int, Worker>) {
    exists a, b :: a in rows && b in rows && a != b
      && rows[a].phoneIndex.Some? && rows[a].org == rows[b].org && rows[a].phoneIndex == rows[b].phoneIndex
  }

  datatype Outcome = Migrated | ClientUnreadable | WorkerUnreadable | ClientDuplicates | WorkerDuplicates

  function ClientRekey(env: Env): Client -> Option<Client> {
    (r: Client) => RekeyClient(env, r)
  }

  function WorkerRekey(env: Env): Worker -> Option<Worker> {
    (r: Worker) => RekeyWorker(env, r)
  }

  /** `upgrade`. The duplicate checks see the rekeyed rows. */
  method Upgrade(env: Env, clients: Table<Client>, workers: Table<Worker>, batchSize: nat) returns (r: Outcome)
    requires clients.Valid() && workers.Valid() && batchSize > 0
    modifies clients, workers
    ensures clients.Valid() && workers.Valid()
    ensures r == ClientUnreadable <==> !AllReadable(ClientRekey(env), clients.ids, old(clients.rows), |clients.ids|)
    ensures r != ClientUnreadable ==>
      (r == WorkerUnreadable <==> !AllReadable(WorkerRekey(env), workers.ids, old(workers.rows), |workers.ids|))
    ensures r != ClientUnreadable ==> clients.rows == Mapped(clients.ids, old(clients.rows), Step(ClientRekey(env)), |clients.ids|)
    ensures !r.ClientUnreadable? && !r.WorkerUnreadable? ==>
      workers.rows == Mapped(workers.ids, old(workers.rows), Step(WorkerRekey(env)), |workers.ids|)
    ensures !r.ClientUnreadable? && !r.WorkerUnreadable? ==>
      r == if DuplicateEmails(clients.rows) then ClientDuplicates else if DuplicatePhones(workers.rows) then WorkerDuplicates else Migrated
  {
    ghost var clientRows, workerRows := clients.rows, workers.rows;
    hide Mapped, Step, RekeyClient, RekeyWorker, Keyed, AllReadable, Start;
    var ok, n, b := RekeyTable(ClientRekey(env), clients, batchSize);
    if !ok {
      OneUnreadable(ClientRekey(env), clients.ids, clientRows, |clients.ids|, n);
      return ClientUnreadable;
    }
    ok, n, b := RekeyTable(WorkerRekey(env), workers, batchSize);
    if !ok {
      OneUnreadable(WorkerRekey(env), workers.ids, workerRows, |workers.ids|, n);
      return WorkerUnreadable;
    }
    if DuplicateEmails(clients.rows) {
      return ClientDuplicates;
    }
    if DuplicatePhones(workers.rows) {
      return WorkerDuplicates;
    }
    return Migrated;
  }

  lemma {:induction false} OneUnreadable<R>(rekey: R -> Option<R>, ids: seq<int>, rows: map<int, R>, n: nat, k: nat)
    requires Keyed(ids, rows) && k < n <= |ids| && rekey(rows[ids[k]]).None?
    ensures !AllReadable(rekey, ids, rows, n)
    decreases n
  {
    if k < n - 1 {
      OneUnreadable(rekey, ids, rows, n - 1, k);
    }
  }

  // ------------------------------------------------------------------ both migrations

  /** The rows after backfill and rekey. */
  ghost function Both<R>(ids: seq<int>, rows: map<int, R>, backfill: (int, R) -> R, rekey: R -> Option<R>): map<int, R>
    requires Keyed(ids, rows)
  {
    StillKeyed(ids, rows, backfill, |ids|);
    Mapped(ids, Mapped(ids, rows, backfill, |ids|), Step(rekey), |ids|)
  }

  lemma BothAt<R>(ids: seq<int>, rows: map<int, R>, backfill: (int, R) -> R, rekey: R -> Option<R>, id: int)
    requires Keyed(ids, rows)
    ensures id in Both(ids, rows, backfill, rekey) <==> id in rows
    ensures id in rows ==> Both(ids, rows, backfill, rekey)[id] == Step(rekey)(id, backfill(id, rows[id]))
  {
    var once := Mapped(ids, rows, backfill, |ids|);
    StillKeyed(ids, rows, backfill, |ids|);
    MappedKeys(ids, once, Step(rekey), |ids|, id);
    if id in rows {
      var i :| 0 <= i < |ids| && ids[i] == id;
      MappedAt(ids, rows, backfill, |ids|, i);
      MappedAt(ids, once, Step(rekey), |ids|, i);
    }
  }

  /** No row raises in the rekey that the backfill has just encrypted. */
  lemma {:induction false} BackfilledIsReadable<R>(ids: seq<int>, rows: map<int, R>, backfill: (int, R) -> R, rekey: R -> Option<R>, n: nat)
    requires Keyed(ids, rows) && n <= |ids|
    requires forall id :: id in rows ==> rekey(backfill(id, rows[id])).Some?
    ensures Keyed(ids, Mapped(ids, rows, backfill, |ids|))
    ensures AllReadable(rekey, ids, Mapped(ids, rows, backfill, |ids|), n)
    decreases n
  {
    StillKeyed(ids, rows, backfill, |ids|);
    if n > 0 {
      BackfilledIsReadable(ids, rows, backfill, rekey, n - 1);
      MappedAt(ids, rows, backfill, |ids|, n - 1);
    }
  }

  lemma SamePayload(env: Env, org: Option<int>, s: string, t: string)
    requires Payload(env, org, s) == Payload(env, org, t)
    ensures Normalize(env, s) == Normalize(env, t)
  {
    hide Normalize;
    if org.Some? {
      var prefix, x, y := env.orgText(org.value), ":" + Normalize(env, s), ":" + Normalize(env, t);
      assert (prefix + x)[|prefix|..] == x && (prefix + y)[|prefix|..] == y;
      assert x[1..] == Normalize(env, s) && y[1..] == Normalize(env, t);
    }
  }

  lemma SameIndex(env: Env, org: Option<int>, s: Cell, t: Cell)
    requires Injective(env.mac)
    ensures ComputeBlindHash(env, s, org).Some? && ComputeBlindHash(env, s, org) == ComputeBlindHash(env, t, org)
      <==> Truthy(s) && Truthy(t) && Normalize(env, s.value) == Normalize(env, t.value)
  {
    if Truthy(s) && Truthy(t) {
      hide Normalize, Truthy;
      if Payload(env, org, s.value) == Payload(env, org, t.value) {
        SamePayload(env, org, s.value, t.value);
      }
    }
  }

  /** From a table not yet migrated: no client raises, and the duplicate check fires if
      and only if two clients of one organisation share an address. */
  lemma ClientsMigrated(env: Env, ids: seq<int>, rows: map<int, Client>)
    requires Keyed(ids, rows) && Sound(env) && Injective(env.mac)
    requires forall id :: id in rows ==> !Token(rows[id].email)
    ensures Keyed(ids, Mapped(ids, rows, ClientStep(env), |ids|))
    ensures AllReadable(ClientRekey(env), ids, Mapped(ids, rows, ClientStep(env), |ids|), |ids|)
    ensures DuplicateEmails(Both(ids, rows, ClientStep(env), ClientRekey(env)))
      <==> exists a, b :: a in rows && b in rows && a != b && rows[a].org == rows[b].org && SameAddress(env, rows[a], rows[b])
  {
    var final := Both(ids, rows, ClientStep(env), ClientRekey(env));
    forall id ensures id in final <==> id in rows {
      BothAt(ids, rows, ClientStep(env), ClientRekey(env), id);
    }
    forall id | id in rows
      ensures RekeyClient(env, BackfillClient(env, id, rows[id])).Some?
      ensures final[id].org == rows[id].org && final[id].emailIndex == ComputeBlindHash(env, rows[id].email, rows[id].org)
    {
      ClientMigrated(env, id, rows[id]);
      BothAt(ids, rows, ClientStep(env), ClientRekey(env), id);
    }
    BackfilledIsReadable(ids, rows, ClientStep(env), ClientRekey(env), |ids|);
    hide Sound, Injective, ComputeBlindHash, Normalize;
    forall a, b | a in rows && b in rows && rows[a].org == rows[b].org
      ensures SameAddress(env, rows[a], rows[b]) <==> final[a].emailIndex.Some? && final[a].emailIndex == final[b].emailIndex
    {
      SameIndex(env, rows[a].org, rows[a].email, rows[b].email);
    }
  }

  /** A client that survived the first unique index cannot fail the later check. */
  lemma BackfillRulesOutDuplicates(env: Env, ids: seq<int>, rows: map<int, Client>)
    requires Keyed(ids, rows) && Sound(env) && Injective(env.mac)
    requires forall id :: id in rows ==> !Token(rows[id].email) && rows[id].emailIndex == None
    requires AllFit(env, ids, rows, |ids|)
    ensures !DuplicateEmails(Both(ids, rows, ClientStep(env), ClientRekey(env)))
  {
    hide Sound, Injective, DuplicateEmails, Both, AllFit, AllReadable;
    SucceedsWhenAddressesDiffer(env, ids, rows);
    ClientsMigrated(env, ids, rows);
  }

  predicate SamePhone(env: Env, r: Worker, s: Worker) {
    Truthy(r.phone) && Truthy(s.phone) && Normalize(env, r.phone.value) == Normalize(env, s.phone.value)
  }

  /** From a table not yet migrated: no worker raises, and the duplicate check fires if
      and only if two workers of one organisation share a phone. */
  lemma WorkersMigrated(env: Env, ids: seq<int>, rows: map<int, Worker>)
    requires Keyed(ids, rows) && Sound(env) && Injective(env.mac)
    requires forall id :: id in rows ==> !Token(rows[id].email) && !Token(rows[id].phone)
    ensures Keyed(ids, Mapped(ids, rows, WorkerStep(env), |ids|))
    ensures AllReadable(WorkerRekey(env), ids, Mapped(ids, rows, WorkerStep(env), |ids|), |ids|)
    ensures DuplicatePhones(Both(ids, rows, WorkerStep(env), WorkerRekey(env)))
      <==> exists a, b :: a in rows && b in rows && a != b && rows[a].org == rows[b].org && SamePhone(env, rows[a], rows[b])
  {
    var final := Both(ids, rows, WorkerStep(env), WorkerRekey(env));
    forall id ensures id in final <==> id in rows {
      BothAt(ids, rows, WorkerStep(env), WorkerRekey(env), id);
    }
    forall id | id in rows
      ensures RekeyWorker(env, BackfillWorker(env, id, rows[id])).Some?
      ensures final[id].org == rows[id].org && final[id].phoneIndex == ComputeBlindHash(env, rows[id].phone, rows[id].org)
    {
      WorkerMigrated(env, id, rows[id]);
      BothAt(ids, rows, WorkerStep(env), WorkerRekey(env), id);
    }
    BackfilledIsReadable(ids, rows, WorkerStep(env), WorkerRekey(env), |ids|);
    hide Sound, Injective, ComputeBlindHash, Normalize;
    forall a, b | a in rows && b in rows && rows[a].org == rows[b].org
      ensures SamePhone(env, rows[a], rows[b]) <==> final[a].phoneIndex.Some? && final[a].phoneIndex == final[b].phoneIndex
    {
      SameIndex(env, rows[a].org, rows[a].phone, rows[b].phone);
    }
  }

  /** The whole client table after both migrations, whatever the batch sizes: every email
      is encrypted, decrypts to the original, and has its organisation's blind index. */
  lemma EveryClientMigrated(env: Env, ids: seq<int>, rows: map<int, Client>, id: int)
    requires Keyed(ids, rows) && Sound(env) && id in rows && !Token(rows[id].email)
    ensures var final, r := Both(ids, rows, ClientStep(env), ClientRekey(env)), rows[id];
      && id in final && final[id].org == r.org
      && final[id].emailIndex == ComputeBlindHash(env, r.email, r.org)
      && (Truthy(r.email) ==> Token(final[id].email) && env.decrypt(final[id].email.value) == Some(r.email.value))
      && (!Truthy(r.email) ==> final[id].email == r.email)
      && final[id].name == EncryptCell(env, id, Name, r.name) && final[id].phone == EncryptCell(env, id, Phone, r.phone)
  {
    BothAt(ids, rows, ClientStep(env), ClientRekey(env), id);
    ClientMigrated(env, id, rows[id]);
  }

  /** The whole worker table: email and phone read as before and have their
      organisation's blind indexes, and every text is encrypted. */
  lemma EveryWorkerMigrated(env: Env, ids: seq<int>, rows: map<int, Worker>, id: int)
    requires Keyed(ids, rows) && Sound(env) && id in rows && !Token(rows[id].email) && !Token(rows[id].phone)
    ensures var final, r := Both(ids, rows, WorkerStep(env), WorkerRekey(env)), rows[id];
      && id in final && final[id].org == r.org
      && DecryptValue(env, final[id].email) == Text(if Truthy(r.email) then r.email else None)
      && DecryptValue(env, final[id].phone) == Text(if Truthy(r.phone) then r.phone else None)
      && final[id].emailIndex == ComputeBlindHash(env, r.email, r.org)
      && final[id].phoneIndex == ComputeBlindHash(env, r.phone, r.org)
      && (Truthy(r.email) ==> Token(final[id].email)) && (Truthy(r.phone) ==> Token(final[id].phone))
      && final[id].name == EncryptCell(env, id, Name, r.name)
  {
    BothAt(ids, rows, WorkerStep(env), WorkerRekey(env), id);
    WorkerMigrated(env, id, rows[id]);
  }

  // ------------------------------------------------------------------- a second run

  /** A second backfill of the whole table goes through, and leaves it as it is if and
      only if every client has an email, or neither name nor phone. */
  lemma SecondBackfill(env: Env, again: Env, ids: seq<int>, rows: map<int, Client>)
    requires Keyed(ids, rows) && Sound(env) && Sound(again)
    ensures var once := Mapped(ids, rows, ClientStep(env), |ids|);
      && Keyed(ids, once) && AllFit(again, ids, once, |ids|)
      && (Mapped(ids, once, ClientStep(again), |ids|) == once <==>
            forall i :: 0 <= i < |ids| ==>
              Truthy(rows[ids[i]].email) || (!Truthy(rows[ids[i]].name) && !Truthy(rows[ids[i]].phone)))
  {
    var once := Mapped(ids, rows, ClientStep(env), |ids|);
    StillKeyed(ids, rows, ClientStep(env), |ids|);
    var twice := Mapped(ids, once, ClientStep(again), |ids|);
    SecondBackfillFits(env, again, ids, rows, |ids|);
    forall i | 0 <= i < |ids|
      ensures ids[i] in once && ids[i] in twice
      ensures twice[ids[i]] == once[ids[i]] <==>
        Truthy(rows[ids[i]].email) || (!Truthy(rows[ids[i]].name) && !Truthy(rows[ids[i]].phone))
    {
      MappedAt(ids, rows, ClientStep(env), |ids|, i);
      MappedAt(ids, once, ClientStep(again), |ids|, i);
      ClientRerun(env, again, ids[i], rows[ids[i]]);
    }
    hide Sound, Truthy, Mapped;
    SameRows(ids, once, twice, ClientStep(again));
  }

  /** The same for the workers, and what becomes of a phone. */
  lemma SecondWorkerBackfill(env: Env, again: Env, ids: seq<int>, rows: map<int, Worker>)
    requires Keyed(ids, rows) && Sound(env) && Sound(again) && env.decrypt == again.decrypt
    ensures var once := Mapped(ids, rows, WorkerStep(env), |ids|);
      && Keyed(ids, once)
      && (Mapped(ids, once, WorkerStep(again), |ids|) == once <==>
            forall i :: 0 <= i < |ids| ==>
              Truthy(rows[ids[i]].email) || (!Truthy(rows[ids[i]].name) && !Truthy(rows[ids[i]].phone)))
      && forall i :: 0 <= i < |ids| ==> PhoneKept(env, again, ids, rows, i)
  {
    var once := Mapped(ids, rows, WorkerStep(env), |ids|);
    StillKeyed(ids, rows, WorkerStep(env), |ids|);
    var twice := Mapped(ids, once, WorkerStep(again), |ids|);
    forall i | 0 <= i < |ids|
      ensures ids[i] in once && ids[i] in twice && PhoneKept(env, again, ids, rows, i)
      ensures twice[ids[i]] == once[ids[i]] <==>
        Truthy(rows[ids[i]].email) || (!Truthy(rows[ids[i]].name) && !Truthy(rows[ids[i]].phone))
    {
      MappedAt(ids, rows, WorkerStep(env), |ids|, i);
      MappedAt(ids, once, WorkerStep(again), |ids|, i);
      WorkerRerun(env, again, ids[i], rows[ids[i]]);
    }
    hide Sound, Truthy, Mapped, PhoneKept;
    SameRows(ids, once, twice, WorkerStep(again));
  }

  /** The phone in row i reads the same after one backfill and after two, exactly when
      there is an email or no phone. */
  ghost predicate PhoneKept(env: Env, again: Env, ids: seq<int>, rows: map<int, Worker>, i: nat)
    requires Keyed(ids, rows) && i < |ids|
  {
    StillKeyed(ids, rows, WorkerStep(env), |ids|);
    var once := Mapped(ids, rows, WorkerStep(env), |ids|);
    var twice := Mapped(ids, once, WorkerStep(again), |ids|);
    && ids[i] in once && ids[i] in twice
    && (DecryptValue(env, twice[ids[i]].phone) == DecryptValue(env, once[ids[i]].phone) <==>
          Truthy(rows[ids[i]].email) || !Truthy(rows[ids[i]].phone))
  }

  lemma SameRows<R>(ids: seq<int>, rows: map<int, R>, mapped: map<int, R>, f: (int, R) -> R)
    requires Keyed(ids, rows) && mapped == Mapped(ids, rows, f, |ids|)
    ensures Keyed(ids, mapped)
    ensures mapped == rows <==> forall i :: 0 <= i < |ids| ==> mapped[ids[i]] == rows[ids[i]]
  {
    StillKeyed(ids, rows, f, |ids|);
    if forall i :: 0 <= i < |ids| ==> mapped[ids[i]] == rows[ids[i]] {
      forall id ensures (id in mapped <==> id in rows) && (id in rows ==> mapped[id] == rows[id]) {
        MappedKeys(ids, rows, f, |ids|, id);
      }
    }
  }

  /** What is still written the second time has no blind index. */
  lemma {:induction false} SecondBackfillFits(env: Env, again: Env, ids: seq<int>, rows: map<int, Client>, n: nat)
    requires Keyed(ids, rows) && Sound(env) && n <= |ids|
    requires Keyed(ids, Mapped(ids, rows, ClientStep(env), |ids|))
    ensures AllFit(again, ids, Mapped(ids, rows, ClientStep(env), |ids|), n)
    decreases n
  {
    if n > 0 {
      SecondBackfillFits(env, again, ids, rows, n - 1);
      MappedAt(ids, rows, ClientStep(env), |ids|, n - 1);
      NoSecondIndex(env, again, ids[n - 1], rows[ids[n - 1]]);
      hide Mapped, Keyed, BackfillClient, BlindHash, Token;
    }
  }

  lemma NoSecondIndex(env: Env, again: Env, id: int, r: Client)
    requires Sound(env)
    ensures Token(BackfillClient(env, id, r).email) || BlindHash(again, BackfillClient(env, id, r).email) == None
  {
    if !Token(r.email) {
      EncryptedReadsSame(env, id, Email, r.email);
    }
  }
}
