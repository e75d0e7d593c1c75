/** The paginated loops of the two PII migrations over tables that they update in
    place, batch by batch. */
module PiiTables {
  import opened Collections
  import opened PiiRows

  /** Strictly ascending primary keys. */
  ghost predicate Ascending(ids: seq<int>) {
    forall i, j :: 0 <= i < j < |ids| ==> ids[i] < ids[j]
  }

  ghost predicate Keyed<R>(ids: seq<int>, rows: map<int, R>) {
    Ascending(ids) && (forall i :: 0 <= i < |ids| ==> ids[i] in rows) && (forall id :: id in rows ==> id in ids)
  }

  /** The rows of one page: what LIMIT and OFFSET select in the order of the key. */
  function Page<R>(ids: seq<int>, rows: map<int, R>, limit: nat, offset: nat): (page: seq<(int, R)>)
    requires Keyed(ids, rows)
    ensures |page| == if offset >= |ids| then 0 else if offset + limit <= |ids| then limit else |ids| - offset
    ensures forall k :: 0 <= k < |page| ==> offset + k < |ids| && page[k].0 == ids[offset + k] && page[k].1 == rows[ids[offset + k]]
  {
    var n := if offset >= |ids| then 0 else if offset + limit <= |ids| then limit else |ids| - offset;
    seq(n, k requires 0 <= k < n => (ids[offset + k], rows[ids[offset + k]]))
  }

  class Table<R> {
    const ids: seq<int>
    var rows: map<int, R>

    constructor (ids: seq<int>, rows: map<int, R>)
      requires Keyed(ids, rows)
      ensures this.ids == ids && this.rows == rows
    {
      this.ids, this.rows := ids, rows;
    }

    ghost predicate Valid()
      reads this
    {
      Keyed(ids, rows)
    }

    /** `UPDATE … WHERE id = …` */
    method Update(id: int, r: R)
      requires Valid() && id in ids
      modifies this
      ensures Valid() && rows == old(rows)[id := r]
    {
      rows := rows[id := r];
    }
  }

  // ----------------------------------------------------------- rows done one by one

  /** The rows after f has been applied to the first n, in the order of the key. */
  ghost function Mapped<R>(ids: seq<int>, rows: map<int, R>, f: (int, R) -> R, n: nat): map<int, R>
    requires n <= |ids| && Keyed(ids, rows)
  {
    if n == 0 then rows else Mapped(ids, rows, f, n - 1)[ids[n - 1] := f(ids[n - 1], rows[ids[n - 1]])]
  }

  lemma MappedNone<R>(ids: seq<int>, rows: map<int, R>, f: (int, R) -> R)
    requires Keyed(ids, rows)
    ensures Mapped(ids, rows, f, 0) == rows
  {
  }

  /** Each row is done once: position i holds f of the original row, or that row itself
      as long as it has not been reached. */
  lemma {:induction false} MappedAt<R>(ids: seq<int>, rows: map<int, R>, f: (int, R) -> R, n: nat, i: nat)
    requires Keyed(ids, rows) && n <= |ids| && i < |ids|
    ensures ids[i] in Mapped(ids, rows, f, n)
    ensures Mapped(ids, rows, f, n)[ids[i]] == if i < n then f(ids[i], rows[ids[i]]) else rows[ids[i]]
    decreases n
  {
    if n > 0 {
      MappedAt(ids, rows, f, n - 1, i);
      assert i != n - 1 ==> ids[i] != ids[n - 1];
    }
  }

  lemma {:induction false} MappedKeys<R>(ids: seq<int>, rows: map<int, R>, f: (int, R) -> R, n: nat, id: int)
    requires Keyed(ids, rows) && n <= |ids|
    ensures id in Mapped(ids, rows, f, n) <==> id in ids
    decreases n
  {
    if n > 0 {
      MappedKeys(ids, rows, f, n - 1, id);
    }
  }

  /** A row that f leaves alone need not be written. */
  lemma SkippedRow<R>(ids: seq<int>, rows: map<int, R>, f: (int, R) -> R, n: nat)
    requires Keyed(ids, rows) && n < |ids| && f(ids[n], rows[ids[n]]) == rows[ids[n]]
    ensures Mapped(ids, rows, f, n + 1) == Mapped(ids, rows, f, n)
  {
    MappedAt(ids, rows, f, n, n);
  }

  lemma {:induction false} StillKeyed<R>(ids: seq<int>, rows: map<int, R>, f: (int, R) -> R, n: nat)
    requires Keyed(ids, rows) && n <= |ids|
    ensures Keyed(ids, Mapped(ids, rows, f, n))
    decreases n
  {
    if n > 0 {
      StillKeyed(ids, rows, f, n - 1);
    }
  }

  /** A page holds rows that have not been reached yet. */
  lemma PageRow<R>(ids: seq<int>, rows: map<int, R>, f: (int, R) -> R, limit: nat, offset: nat, k: nat)
    requires Keyed(ids, rows) && offset <= |ids| && Keyed(ids, Mapped(ids, rows, f, offset))
    requires k < |Page(ids, Mapped(ids, rows, f, offset), limit, offset)|
    ensures offset + k < |ids|
    ensures Page(ids, Mapped(ids, rows, f, offset), limit, offset)[k] == (ids[offset + k], rows[ids[offset + k]])
  {
    MappedAt(ids, rows, f, offset, offset + k);
  }

  /** The offset after a number of batches. */
  function Start(batches: nat, batchSize: nat): nat {
    if batches == 0 then 0 else Start(batches - 1, batchSize) + batchSize
  }

  function Reached(ids: seq<int>, offset: nat): nat {
    if offset <= |ids| then offset else |ids|
  }

  // -------------------------------------------------------------- the worker backfill

  function WorkerStep(env: Env): (int, Worker) -> Worker {
    (id: int, r: Worker) => BackfillWorker(env, id, r)
  }

  /** What one row of the loop does, in terms of the rows done one by one. */
  lemma WorkerRow(env: Env, ids: seq<int>, rows: map<int, Worker>, n: nat)
    requires Keyed(ids, rows) && n < |ids|
    ensures var r, f, id := rows[ids[n]], WorkerStep(env), ids[n];
      && (Token(r.email) ==> Mapped(ids, rows, f, n + 1) == Mapped(ids, rows, f, n))
      && (!Token(r.email) ==> Mapped(ids, rows, f, n + 1) == Mapped(ids, rows, f, n)[id :=
            Worker(r.org, EncryptCell(env, id, Email, r.email), EncryptCell(env, id, Name, r.name),
                   EncryptCell(env, id, Phone, r.phone), BlindHash(env, r.email), BlindHash(env, r.phone))])
  {
    hide Token, EncryptCell, BlindHash;
    if Token(rows[ids[n]].email) {
      SkippedRow(ids, rows, WorkerStep(env), n);
    }
  }

  /** Whatever the batch size, every worker is visited once and encrypted once. */
  method BackfillWorkers(env: Env, t: Table<Worker>, batchSize: nat) returns (ghost visited: seq<int>)
    requires t.Valid() && batchSize > 0
    modifies t
    ensures t.Valid() && visited == t.ids
    ensures t.rows == Mapped(t.ids, old(t.rows), WorkerStep(env), |t.ids|)
  {
    hide Keyed, Token, EncryptCell, BlindHash, BackfillWorker, Mapped;
    ghost var rows, f := t.rows, WorkerStep(env);
    MappedNone(t.ids, rows, f);
    var offset := 0;
    visited := [];
    while true
      invariant t.Valid() && visited == t.ids[..Reached(t.ids, offset)]
      invariant t.rows == Mapped(t.ids, rows, f, Reached(t.ids, offset))
      decreases |t.ids| - offset
    {
      var page := Page(t.ids, t.rows, batchSize, offset);
      if |page| == 0 {
        break;
      }
      for k := 0 to |page|
        invariant offset + |page| <= |t.ids|
        invariant t.Valid() && visited == t.ids[..offset + k]
        invariant t.rows == Mapped(t.ids, rows, f, offset + k)
      {
        PageRow(t.ids, rows, f, batchSize, offset, k);
        var (wid, r) := page[k];
        WorkerRow(env, t.ids, rows, offset + k);
        visited := visited + [wid];
        if Token(r.email) {
          continue;
        }
        t.Update(wid, Worker(r.org, EncryptCell(env, wid, Email, r.email), EncryptCell(env, wid, Name, r.name),
                             EncryptCell(env, wid, Phone, r.phone), BlindHash(env, r.email), BlindHash(env, r.phone)));
      }
      offset := offset + batchSize;
    }
  }
}
