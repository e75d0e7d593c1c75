/** The client backfill, whose blind index column is unique from the start. */
module PiiClients {
  import opened Collections
  import opened PiiRows
  import opened PiiTables

  function ClientStep(env: Env): (int, Client) -> Client {
    (id: int, r: Client) => BackfillClient(env, id, r)
  }

  /** Another row holds the blind index (NULLs never collide). */
  predicate Taken(rows: map<int, Client>, id: int, index: Cell) {
    index.Some? && exists other :: other in rows && other != id && rows[other].emailIndex == index
  }

  ghost predicate UniqueIndex(rows: map<int, Client>) {
    forall id :: id in rows ==> !Taken(rows, id, rows[id].emailIndex)
  }

  /** Row k passes the unique index when its turn comes. */
  ghost predicate Fits(env: Env, ids: seq<int>, rows: map<int, Client>, k: nat)
    requires Keyed(ids, rows) && k < |ids|
  {
    var r := rows[ids[k]];
    Token(r.email) || !Taken(Mapped(ids, rows, ClientStep(env), k), ids[k], BlindHash(env, r.email))
  }

  /** The first n rows all fit. */
  ghost predicate AllFit(env: Env, ids: seq<int>, rows: map<int, Client>, n: nat)
    requires Keyed(ids, rows) && n <= |ids|
  {
    n == 0 || (AllFit(env, ids, rows, n - 1) && Fits(env, ids, rows, n - 1))
  }

  /** What one row of the loop does, in terms of the rows done one by one. */
  lemma ClientRow(env: Env, ids: seq<int>, rows: map<int, Client>, n: nat)
    requires Keyed(ids, rows) && n < |ids|
    ensures var r, f, id := rows[ids[n]], ClientStep(env), ids[n];
      && (Token(r.email) ==> Mapped(ids, rows, f, n + 1) == Mapped(ids, rows, f, n))
      && (!Token(r.email) ==> Mapped(ids, rows, f, n + 1) == Mapped(ids, rows, f, n)[id :=
            Client(r.org, EncryptCell(env, id, Email, r.email), EncryptCell(env, id, Name, r.name),
                   EncryptCell(env, id, Phone, r.phone), BlindHash(env, r.email))])
      && (Fits(env, ids, rows, n) <==> Token(r.email) || !Taken(Mapped(ids, rows, f, n), id, BlindHash(env, r.email)))
  {
    hide Token, EncryptCell, BlindHash, Taken;
    if Token(rows[ids[n]].email) {
      SkippedRow(ids, rows, ClientStep(env), n);
    }
  }

  /** One batch: a transaction that is rolled back when an index is taken. */
  method BackfillClientBatch(env: Env, t: Table<Client>, page: seq<(int, Client)>, ghost rows: map<int, Client>,
                             ghost batchSize: nat, ghost offset: nat)
      returns (ok: bool, ghost visited: nat)
    requires t.Valid() && Keyed(t.ids, rows) && offset <= |t.ids| && t.rows == Mapped(t.ids, rows, ClientStep(env), offset)
    requires page == Page(t.ids, t.rows, batchSize, offset) && AllFit(env, t.ids, rows, offset)
    modifies t
    ensures t.Valid() && offset <= visited <= |t.ids| && AllFit(env, t.ids, rows, visited)
    ensures ok ==> visited == offset + |page| && t.rows == Mapped(t.ids, rows, ClientStep(env), visited)
    ensures !ok ==> visited < offset + |page| && !Fits(env, t.ids, rows, visited) && t.rows == old(t.rows)
  {
    hide Keyed, Token, EncryptCell, BlindHash, Taken, Mapped, BackfillClient;
    ghost var f := ClientStep(env);
    var before := t.rows;
    ok, visited := true, offset;
    for k := 0 to |page|
      invariant offset + |page| <= |t.ids| && ok && visited == offset + k
      invariant t.Valid() && t.rows == Mapped(t.ids, rows, f, visited) && AllFit(env, t.ids, rows, visited)
    {
      PageRow(t.ids, rows, f, batchSize, offset, k);
      ClientRow(env, t.ids, rows, visited);
      var (cid, r) := page[k];
      if !Token(r.email) {
        if Taken(t.rows, cid, BlindHash(env, r.email)) {
          ok := false;
          break;
        }
        t.Update(cid, Client(r.org, EncryptCell(env, cid, Email, r.email), EncryptCell(env, cid, Name, r.name),
                             EncryptCell(env, cid, Phone, r.phone), BlindHash(env, r.email)));
      }
      visited := visited + 1;
    }
    if !ok {
      t.rows := before;
    }
  }

  /** Whatever the batch size, every client is visited once, in order. The backfill fails
      at the first row whose blind index is taken; the session has committed the batches
      before. */
  method BackfillClientUsers(env: Env, t: Table<Client>, batchSize: nat)
      returns (ok: bool, ghost visited: nat, ghost batches: nat)
    requires t.Valid() && batchSize > 0
    modifies t
    ensures t.Valid() && visited <= |t.ids| && AllFit(env, t.ids, old(t.rows), visited)
    ensures ok ==> visited == |t.ids| && t.rows == Mapped(t.ids, old(t.rows), ClientStep(env), |t.ids|)
    ensures !ok ==> visited < |t.ids| && !Fits(env, t.ids, old(t.rows), visited)
    ensures !ok ==> Start(batches, batchSize) <= visited < Start(batches + 1, batchSize)
    ensures !ok ==> t.rows == Mapped(t.ids, old(t.rows), ClientStep(env), Start(batches, batchSize))
  {
    hide Keyed, Mapped, BackfillClient, Fits;
    ghost var rows, f := t.rows, ClientStep(env);
    MappedNone(t.ids, rows, f);
    var offset := 0;
    ok, visited, batches := true, 0, 0;
    while true
      invariant offset == Start(batches, batchSize) && visited == Reached(t.ids, offset)
      invariant t.Valid() && t.rows == Mapped(t.ids, rows, f, visited) && AllFit(env, t.ids, rows, visited)
      decreases |t.ids| - offset
    {
      var page := Page(t.ids, t.rows, batchSize, offset);
      if |page| == 0 {
        break;
      }
      ok, visited := BackfillClientBatch(env, t, page, rows, batchSize, offset);
      if !ok {
        return;
      }
      offset, batches := offset + batchSize, batches + 1;
    }
  }

  // ------------------------------------------------------------ when it goes through

  /** No blind index yet on rows that are not encrypted. */
  ghost predicate Unindexed(rows: map<int, Client>) {
    forall id :: id in rows ==> Token(rows[id].email) || rows[id].emailIndex == None
  }

  lemma {:induction false} FitsKeepsUnique(env: Env, ids: seq<int>, rows: map<int, Client>, n: nat)
    requires Keyed(ids, rows) && n <= |ids| && UniqueIndex(rows)
    requires AllFit(env, ids, rows, n)
    ensures UniqueIndex(Mapped(ids, rows, ClientStep(env), n))
    decreases n
  {
    if n > 0 {
      FitsKeepsUnique(env, ids, rows, n - 1);
      var before, id := Mapped(ids, rows, ClientStep(env), n - 1), ids[n - 1];
      MappedAt(ids, rows, ClientStep(env), n - 1, n - 1);
      if Token(rows[id].email) {
        SkippedRow(ids, rows, ClientStep(env), n - 1);
      } else {
        hide EncryptCell, BlindHash, Token, Keyed;
        UniqueUpdate(before, id, BackfillClient(env, id, rows[id]));
      }
    }
  }

  lemma UniqueUpdate(rows: map<int, Client>, id: int, r: Client)
    requires UniqueIndex(rows) && !Taken(rows, id, r.emailIndex)
    ensures UniqueIndex(rows[id := r])
  {
    var after := rows[id := r];
    forall a | a in after ensures !Taken(after, a, after[a].emailIndex) {
      if a != id {
        assert !Taken(rows, a, rows[a].emailIndex);
      }
    }
  }

  /** A row that does not fit leaves two equal indexes behind, had it been written. */
  lemma MisfitsStay(env: Env, ids: seq<int>, rows: map<int, Client>, k: nat)
    requires Keyed(ids, rows) && k < |ids| && Unindexed(rows) && !Fits(env, ids, rows, k)
    ensures !UniqueIndex(Mapped(ids, rows, ClientStep(env), |ids|))
  {
    var f := ClientStep(env);
    var before, after, id := Mapped(ids, rows, f, k), Mapped(ids, rows, f, |ids|), ids[k];
    var index := BlindHash(env, rows[id].email);
    var other :| other in before && other != id && before[other].emailIndex == index;
    MappedKeys(ids, rows, f, k, other);
    var i :| 0 <= i < |ids| && ids[i] == other;
    MappedAt(ids, rows, f, k, i);
    MappedAt(ids, rows, f, |ids|, i);
    MappedAt(ids, rows, f, |ids|, k);
    hide EncryptCell, BlindHash, Keyed, Mapped, Fits;
    assert after[other].emailIndex == index;
    assert Taken(after, id, after[id].emailIndex);
  }

  lemma {:induction false} MisfitsShow(env: Env, ids: seq<int>, rows: map<int, Client>, n: nat)
    requires Keyed(ids, rows) && n <= |ids| && Unindexed(rows) && !AllFit(env, ids, rows, n)
    ensures !UniqueIndex(Mapped(ids, rows, ClientStep(env), |ids|))
    decreases n
  {
    hide Keyed, Unindexed, UniqueIndex, Fits;
    if AllFit(env, ids, rows, n - 1) {
      MisfitsStay(env, ids, rows, n - 1);
    } else {
      MisfitsShow(env, ids, rows, n - 1);
    }
  }

  /** The backfill goes through exactly when its result satisfies the unique index: no
      intermediate state gets in the way. */
  lemma SucceedsWhenUnique(env: Env, ids: seq<int>, rows: map<int, Client>)
    requires Keyed(ids, rows) && Unindexed(rows) && UniqueIndex(rows)
    ensures AllFit(env, ids, rows, |ids|) <==> UniqueIndex(Mapped(ids, rows, ClientStep(env), |ids|))
  {
    hide AllFit, UniqueIndex, Unindexed;
    if AllFit(env, ids, rows, |ids|) {
      FitsKeepsUnique(env, ids, rows, |ids|);
    } else {
      MisfitsShow(env, ids, rows, |ids|);
    }
  }

  /** Two clients whose addresses agree after stripping and lower-casing, in one
      organisation or in two. */
  ghost predicate SameAddress(env: Env, r: Client, s: Client) {
    Truthy(r.email) && Truthy(s.email) && Normalize(env, r.email.value) == Normalize(env, s.email.value)
  }

  /** On a table not yet migrated, the backfill goes through if and only if no two clients
      share an address, whatever their organisations. */
  lemma SucceedsWhenAddressesDiffer(env: Env, ids: seq<int>, rows: map<int, Client>)
    requires Keyed(ids, rows) && Injective(env.mac)
    requires forall id :: id in rows ==> !Token(rows[id].email) && rows[id].emailIndex == None
    ensures AllFit(env, ids, rows, |ids|)
      <==> forall a, b :: a in rows && b in rows && a != b ==> !SameAddress(env, rows[a], rows[b])
  {
    SucceedsWhenUnique(env, ids, rows);
    var after := Mapped(ids, rows, ClientStep(env), |ids|);
    forall id | id in rows ensures id in after && after[id].emailIndex == BlindHash(env, rows[id].email) {
      var i :| 0 <= i < |ids| && ids[i] == id;
      MappedAt(ids, rows, ClientStep(env), |ids|, i);
    }
    forall a, b | a in rows && b in rows && a != b
      ensures SameAddress(env, rows[a], rows[b]) <==> after[a].emailIndex.Some? && after[a].emailIndex == after[b].emailIndex
    {
    }
    forall id ensures id in after <==> id in rows {
      MappedKeys(ids, rows, ClientStep(env), |ids|, id);
    }
  }
}
