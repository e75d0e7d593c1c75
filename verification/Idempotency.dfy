/** `require_idempotency` as a protocol: requests race over the rows of one table,
    one SQL statement at a time, inside transactions that may commit or not. */
module Idempotency {
  import opened Collections
  import opened IdempotencyRecords

  /** The unique key of the table. */
  datatype Slot = Slot(org: string, key: string, endpoint: string)

  /** Where a request stands.
      Started: about to run `INSERT ... ON CONFLICT DO NOTHING`.
      Inserted: the insert has run; `claimed` is `rowcount == 1`.
      Working: holds the context. `row` is the record as its session sees it,
      `stored` says whether its insert has been committed, `work` whether the open
      transaction holds work of the endpoint.
      Finished: the handler has returned or the request was cut off, its session is
      closed. */
  datatype Request =
    | Rejected(response: Response)
    | Started(slot: Slot, hash: string)
    | Inserted(slot: Slot, hash: string, claimed: bool)
    | Working(slot: Slot, hash: string, row: Row, stored: bool, work: bool)
    | Answered(slot: Slot, hash: string, response: Response)
    | Finished(slot: Slot, hash: string)

  /** A call of `save_response` with what it stored. */
  datatype Save = Save(slot: Slot, id: nat, status: int, body: Option<Json>)

  /** `rows` are the committed rows. The last three fields are history: who committed
      the insert of each row, every save, and the committed work. */
  datatype State = State(
    rows: map<Slot, Row>,
    requests: map<nat, Request>,
    owner: map<Slot, nat>,
    saves: set<Save>,
    effects: seq<(Slot, nat)>)

  const INITIAL := State(map[], map[], map[], {}, [])

  datatype Step =
    | Arrive(id: nat, org: string, key: Option<string>, endpoint: string, hash: string)
    | Insert(id: nat)
    | Lookup(id: nat)
    | Abort(id: nat)
    | SaveResponse(id: nat, status: int, body: Option<Json>)
    | MarkFailed(id: nat)
    | Work(id: nat)
    | Commit(id: nat)
    | Rollback(id: nat)
    | Finish(id: nat)

  /** The request has an uncommitted row of its own for the slot: other inserts wait
      for its transaction. */
  predicate Holds(r: Request, slot: Slot) {
    || (r.Inserted? && r.claimed && r.slot == slot)
    || (r.Working? && !r.stored && r.slot == slot)
  }

  ghost predicate Locked(s: State, slot: Slot) {
    exists j :: j in s.requests && Holds(s.requests[j], slot)
  }

  ghost predicate Enabled(s: State, step: Step) {
    match step
    case Arrive(id, _, _, _, _) => id !in s.requests
    case Insert(id) => id in s.requests && s.requests[id].Started? &&
      (s.requests[id].slot in s.rows || !Locked(s, s.requests[id].slot))
    case Lookup(id) => id in s.requests && s.requests[id].Inserted? &&
      (s.requests[id].claimed || s.requests[id].slot in s.rows)
    case Abort(id) => id in s.requests && (s.requests[id].Started? || s.requests[id].Inserted?)
    case SaveResponse(id, _, _) => id in s.requests && s.requests[id].Working?
    case MarkFailed(id) => id in s.requests && s.requests[id].Working?
    case Work(id) => id in s.requests && s.requests[id].Working?
    case Commit(id) => id in s.requests && s.requests[id].Working?
    case Rollback(id) => id in s.requests && s.requests[id].Working? &&
      (s.requests[id].stored ==> s.requests[id].slot in s.rows)
    case Finish(id) => id in s.requests && s.requests[id].Working?
  }

  function Put(s: State, id: nat, r: Request): State {
    s.(requests := s.requests[id := r])
  }

  /** Select, compare fingerprints, then claim or replay. */
  function AfterLookup(r: Request, row: Row): Request
    requires r.Inserted?
  {
    if row.requestHash != r.hash then Answered(r.slot, r.hash, MISMATCH)
    else if r.claimed then Working(r.slot, r.hash, row, false, false)
    else Answered(r.slot, r.hash, BuildResponse(r.slot.key, row))
  }

  ghost function Next(s: State, step: Step): State
    requires Enabled(s, step)
  {
    match step
    case Arrive(id, org, key, endpoint, hash) =>
      if key == None || key.value == "" then Put(s, id, Rejected(KEY_REQUIRED))
      else Put(s, id, Started(Slot(org, key.value, endpoint), hash))
    case Insert(id) =>
      var r := s.requests[id];
      Put(s, id, Inserted(r.slot, r.hash, r.slot !in s.rows))
    case Lookup(id) =>
      var r := s.requests[id];
      Put(s, id, AfterLookup(r, if r.claimed then PendingRow(r.hash) else s.rows[r.slot]))
    case Abort(id) =>
      Put(s, id, Finished(s.requests[id].slot, s.requests[id].hash))
    case SaveResponse(id, status, body) =>
      var r := s.requests[id];
      Put(s, id, r.(row := Saved(r.row, status, body))).(
        saves := s.saves + {Save(r.slot, id, status, Storable(body))})
    case MarkFailed(id) =>
      Put(s, id, s.requests[id].(row := Failed(s.requests[id].row)))
    case Work(id) =>
      Put(s, id, s.requests[id].(work := true))
    case Commit(id) =>
      var r := s.requests[id];
      State(s.rows[r.slot := r.row], s.requests[id := r.(stored := true, work := false)],
            s.owner[r.slot := id], s.saves, if r.work then s.effects + [(r.slot, id)] else s.effects)
    case Rollback(id) =>
      var r := s.requests[id];
      Put(s, id, if r.stored then r.(row := s.rows[r.slot], work := false) else Finished(r.slot, r.hash))
    case Finish(id) =>
      Put(s, id, Finished(s.requests[id].slot, s.requests[id].hash))
  }

  ghost predicate Runs(s: State, steps: seq<Step>, s': State)
    decreases |steps|
  {
    if steps == [] then s == s'
    else Enabled(s, steps[0]) && Runs(Next(s, steps[0]), steps[1..], s')
  }

  // ------------------------------------------------------------------ invariant

  /** The row says only what its claimer put there. */
  predicate Written(s: State, slot: Slot, id: nat, row: Row) {
    || row == PendingRow(row.requestHash)
    || row == Failed(row)
    || Save(slot, id, row.status, row.body) in s.saves
  }

  ghost predicate RowsOwned(s: State) {
    && s.rows.Keys == s.owner.Keys
    && (forall slot :: slot in s.rows ==> s.owner[slot] in s.requests && OwnerState(s, slot, s.owner[slot]))
    && (forall e :: e in s.effects ==> e.0 in s.owner && s.owner[e.0] == e.1)
  }

  predicate OwnerState(s: State, slot: Slot, id: nat)
    requires slot in s.rows && id in s.requests
  {
    var r := s.requests[id];
    && ((r.Working? && r.stored) || r.Finished?)
    && r.slot == slot && r.hash == s.rows[slot].requestHash
    && Written(s, slot, id, s.rows[slot])
  }

  predicate RequestOk(s: State, id: nat)
    requires id in s.requests
  {
    var r := s.requests[id];
    match r
    case Rejected(response) => response == KEY_REQUIRED
    case Started(_, _) => true
    case Inserted(slot, _, claimed) =>
      if claimed then slot !in s.rows else slot in s.rows && slot in s.owner && s.owner[slot] != id
    case Working(slot, hash, row, stored, _) =>
      && row.requestHash == hash && Written(s, slot, id, row)
      && if stored then slot in s.owner && s.owner[slot] == id else slot !in s.rows
    case Answered(slot, hash, response) =>
      && slot in s.rows && slot in s.owner && s.owner[slot] != id
      && (response == MISMATCH <==> hash != s.rows[slot].requestHash)
      && (response.status < 400 ==> Save(slot, s.owner[slot], response.status, response.body) in s.saves)
    case Finished(_, _) => true
  }

  ghost predicate Inv(s: State) {
    && RowsOwned(s)
    && (forall id :: id in s.requests ==> RequestOk(s, id))
    && OneHolder(s)
  }

  /** At most one request at a time has an uncommitted row for a slot. */
  ghost predicate OneHolder(s: State) {
    forall i, j, slot | i in s.requests && j in s.requests && Holds(s.requests[i], slot) && Holds(s.requests[j], slot) ::
      i == j
  }

  lemma InitialInv()
    ensures Inv(INITIAL)
  {
  }

  /** A step that changes one request and may log a save, but commits nothing. */
  lemma PutKeepsInv(s: State, id: nat, r: Request, saves: set<Save>)
    requires Inv(s) && s.saves <= saves
    requires RequestOk(Put(s, id, r).(saves := saves), id)
    requires forall slot | slot in s.rows && s.owner[slot] == id ::
      ((r.Working? && r.stored) || r.Finished?) && r.slot == slot && r.hash == s.rows[slot].requestHash
    requires forall slot | Holds(r, slot) :: (id in s.requests && Holds(s.requests[id], slot)) || !Locked(s, slot)
    ensures Inv(Put(s, id, r).(saves := saves))
  {
    var s' := Put(s, id, r).(saves := saves);
    forall slot | slot in s'.rows ensures s'.owner[slot] in s'.requests && OwnerState(s', slot, s'.owner[slot]) {
      assert OwnerState(s, slot, s.owner[slot]);
    }
    forall j | j in s'.requests ensures RequestOk(s', j) {
      assert j != id ==> RequestOk(s, j);
    }
    forall i, j, slot | i in s'.requests && j in s'.requests && Holds(s'.requests[i], slot) && Holds(s'.requests[j], slot)
      ensures i == j
    {
    }
  }

  lemma CommitKeepsRows(s: State, id: nat)
    requires Inv(s) && Enabled(s, Commit(id))
    ensures RowsOwned(Next(s, Commit(id)))
  {
    var s', r := Next(s, Commit(id)), s.requests[id];
    assert RequestOk(s, id);
    forall slot | slot in s'.rows ensures s'.owner[slot] in s'.requests && OwnerState(s', slot, s'.owner[slot]) {
      assert slot != r.slot ==> OwnerState(s, slot, s.owner[slot]);
    }
  }

  lemma CommitKeepsRequest(s: State, id: nat, j: nat)
    requires Inv(s) && Enabled(s, Commit(id)) && j in s.requests
    ensures RequestOk(Next(s, Commit(id)), j)
  {
    var r := s.requests[id];
    assert RequestOk(s, id) && RequestOk(s, j);
    if j != id && r.slot !in s.rows {
      assert Holds(r, r.slot);
      assert !Holds(s.requests[j], r.slot);
    }
  }

  lemma CommitKeepsInv(s: State, id: nat)
    requires Inv(s) && Enabled(s, Commit(id))
    ensures Inv(Next(s, Commit(id)))
  {
    CommitKeepsRows(s, id);
    forall j | j in s.requests ensures RequestOk(Next(s, Commit(id)), j) {
      CommitKeepsRequest(s, id, j);
    }
  }

  lemma StepKeepsInv(s: State, step: Step)
    requires Inv(s) && Enabled(s, step)
    ensures Inv(Next(s, step))
  {
    var id := step.id;
    if id in s.requests {
      assert RequestOk(s, id);
    }
    if step.Commit? {
      CommitKeepsInv(s, id);
    } else {
      var s' := Next(s, step);
      PutKeepsInv(s, id, s'.requests[id], s'.saves);
      assert s' == Put(s, id, s'.requests[id]).(saves := s'.saves);
    }
  }

  // ------------------------------------------------------------------ every run

  lemma {:induction false} RunKeepsInv(s: State, steps: seq<Step>, s': State)
    requires Inv(s) && Runs(s, steps, s')
    ensures Inv(s')
    decreases |steps|
  {
    if steps != [] {
      StepKeepsInv(s, steps[0]);
      RunKeepsInv(Next(s, steps[0]), steps[1..], s');
    }
  }

  ghost predicate Reachable(s: State) {
    exists steps :: Runs(INITIAL, steps, s)
  }

  lemma ReachableInv(s: State)
    requires Reachable(s)
    ensures Inv(s)
  {
    var steps :| Runs(INITIAL, steps, s);
    InitialInv();
    RunKeepsInv(INITIAL, steps, s);
  }

  /** Of all requests for a slot at most one holds its context, and when the slot has
      a committed row it is the one that committed it. */
  lemma OneClaim(s: State, i: nat, j: nat)
    requires Reachable(s) && i in s.requests && j in s.requests
    requires s.requests[i].Working? && s.requests[j].Working? && s.requests[i].slot == s.requests[j].slot
    ensures i == j
    ensures s.requests[i].slot in s.rows ==> s.requests[i].slot in s.owner && s.owner[s.requests[i].slot] == i
  {
    ReachableInv(s);
    assert RequestOk(s, i) && RequestOk(s, j);
    if s.requests[i].slot !in s.rows {
      assert Holds(s.requests[i], s.requests[i].slot) && Holds(s.requests[j], s.requests[i].slot);
    }
  }

  /** All committed work for a slot was done by the request that claimed it. */
  lemma WorkedOnce(s: State, e: (Slot, nat), f: (Slot, nat))
    requires Reachable(s) && e in s.effects && f in s.effects && e.0 == f.0
    ensures e.1 == f.1 && e.0 in s.rows && e.0 in s.owner && s.owner[e.0] == e.1
  {
    ReachableInv(s);
  }

  /** `scalar_one` finds its row, whatever happened between insert and select. */
  lemma LookupFinds(s: State, id: nat)
    requires Reachable(s) && id in s.requests && s.requests[id].Inserted?
    ensures Enabled(s, Lookup(id))
    ensures s.requests[id].claimed ==> Next(s, Lookup(id)).requests[id].Working?
  {
    ReachableInv(s);
    assert RequestOk(s, id);
  }

  /** Committed rows stay, keep their fingerprint and their claimer, and nobody else
      writes them. */
  ghost predicate RowsKept(s: State, s': State) {
    forall slot | slot in s.rows ::
      && slot in s'.rows && slot in s.owner && slot in s'.owner
      && s'.rows[slot].requestHash == s.rows[slot].requestHash
      && s'.owner[slot] == s.owner[slot]
  }

  lemma StepKeepsRows(s: State, step: Step, slot: Slot)
    requires Inv(s) && Enabled(s, step)
    ensures RowsKept(s, Next(s, step))
    ensures slot in s.rows && Next(s, step).rows[slot] != s.rows[slot] ==> step == Commit(s.owner[slot])
    ensures slot !in s.rows && slot in Next(s, step).rows ==>
      step.Commit? && Holds(s.requests[step.id], slot) && Next(s, step).owner[slot] == step.id
  {
    if step.Commit? {
      assert RequestOk(s, step.id);
      forall x | x in s.rows ensures Next(s, step).rows[x].requestHash == s.rows[x].requestHash {
        assert OwnerState(s, x, s.owner[x]);
      }
    }
  }

  lemma {:induction false} RunKeepsRows(s: State, steps: seq<Step>, s': State)
    requires Inv(s) && Runs(s, steps, s')
    ensures RowsKept(s, s')
    decreases |steps|
  {
    if steps != [] {
      StepKeepsInv(s, steps[0]);
      if slot :| slot in s.rows {
        StepKeepsRows(s, steps[0], slot);
      }
      RunKeepsRows(Next(s, steps[0]), steps[1..], s');
    }
  }

  /** A fingerprint other than the committed one gets 409 and nothing else: such a
      request never holds the context. */
  lemma MismatchIsConflict(s: State, id: nat)
    requires Reachable(s) && id in s.requests && !s.requests[id].Rejected? && s.requests[id].slot in s.rows
    requires s.requests[id].hash != s.rows[s.requests[id].slot].requestHash
    ensures s.requests[id].Answered? ==> s.requests[id].response == MISMATCH
    ensures s.requests[id].Inserted? ==>
      Next(s, Lookup(id)) == Put(s, id, Answered(s.requests[id].slot, s.requests[id].hash, MISMATCH))
    ensures !s.requests[id].Working?
  {
    ReachableInv(s);
    var slot := s.requests[id].slot;
    assert RequestOk(s, id) && OwnerState(s, slot, s.owner[slot]);
    if s.requests[id].Inserted? {
      LookupFinds(s, id);
    }
  }

  /** A replay with a status below 400 repeats a status and body that the claimer, and
      not the request itself, passed to `save_response`. */
  lemma SuccessWasSaved(s: State, id: nat)
    requires Reachable(s) && id in s.requests && s.requests[id].Answered? && s.requests[id].response.status < 400
    ensures var r := s.requests[id];
      && r.slot in s.owner && s.owner[r.slot] != id
      && Save(r.slot, s.owner[r.slot], r.response.status, r.response.body) in s.saves
  {
    ReachableInv(s);
    assert RequestOk(s, id);
  }

  // ----------------------------------------------------- after the claimer is done

  /** The claimer of the row has returned. */
  ghost predicate Settled(s: State, slot: Slot) {
    slot in s.rows && slot in s.owner && s.owner[slot] in s.requests && s.requests[s.owner[slot]].Finished?
  }

  /** The answer that a settled row gives to a fingerprint. */
  function Verdict(slot: Slot, row: Row, hash: string): Response {
    if hash != row.requestHash then MISMATCH else BuildResponse(slot.key, row)
  }

  predicate AnsweredAt(s: State, id: nat, slot: Slot) {
    id in s.requests && s.requests[id].Answered? && s.requests[id].slot == slot
  }

  /** The claimer of the row commits nothing in these steps. */
  ghost predicate LeftAlone(s: State, steps: seq<Step>, slot: Slot) {
    && slot in s.rows && slot in s.owner
    && forall k :: 0 <= k < |steps| ==> steps[k] != Commit(s.owner[slot])
  }

  lemma QuietStep(s: State, step: Step, slot: Slot)
    requires Inv(s) && slot in s.rows && slot in s.owner && step != Commit(s.owner[slot]) && Enabled(s, step)
    ensures var t := Next(s, step);
      slot in t.rows && slot in t.owner && t.rows[slot] == s.rows[slot] && t.owner[slot] == s.owner[slot]
  {
    hide Inv;
    StepKeepsRows(s, step, slot);
  }

  lemma AnswerIsVerdict(s: State, step: Step, slot: Slot, id: nat)
    requires Inv(s) && slot in s.rows && Enabled(s, step) && (id in s.requests ==> !s.requests[id].Answered?)
    ensures AnsweredAt(Next(s, step), id, slot) ==>
      Next(s, step).requests[id].response == Verdict(slot, s.rows[slot], Next(s, step).requests[id].hash)
  {
    if AnsweredAt(Next(s, step), id, slot) {
      assert step == Lookup(id) && RequestOk(s, id);
    }
  }

  /** As long as the claimer does not commit again, the row does not change and every
      answer given for the slot is its verdict: the row's response for the same
      fingerprint, 409 for another. */
  lemma {:induction false} AnswersFollowRow(s: State, steps: seq<Step>, s': State, slot: Slot, id: nat)
    requires Inv(s) && LeftAlone(s, steps, slot) && Runs(s, steps, s')
    ensures slot in s'.rows && slot in s'.owner && s'.rows[slot] == s.rows[slot] && s'.owner[slot] == s.owner[slot]
    ensures (id in s.requests ==> !s.requests[id].Answered?) && AnsweredAt(s', id, slot) ==>
      s'.requests[id].response == Verdict(slot, s.rows[slot], s'.requests[id].hash)
    decreases |steps|
  {
    hide Inv, Enabled, Next, Verdict;
    if steps != [] {
      var t := Next(s, steps[0]);
      QuietStep(s, steps[0], slot);
      StepKeepsInv(s, steps[0]);
      AnswersFollowRow(t, steps[1..], s', slot, id);
      if (id in s.requests ==> !s.requests[id].Answered?) && id in t.requests && t.requests[id].Answered? {
        AnswerIsVerdict(s, steps[0], slot, id);
        AnsweredStays(t, steps[1..], s', id);
      }
    }
  }

  /** A claimer that has returned stays so. */
  lemma {:induction false} FinishedStays(s: State, steps: seq<Step>, s': State, id: nat)
    requires Runs(s, steps, s') && id in s.requests && s.requests[id].Finished?
    ensures id in s'.requests && s'.requests[id] == s.requests[id]
    ensures forall k :: 0 <= k < |steps| ==> steps[k] != Commit(id)
    decreases |steps|
  {
    if steps != [] {
      FinishedStays(Next(s, steps[0]), steps[1..], s', id);
    }
  }

  /** Once the claimer has returned this holds for ever. */
  lemma SettledForEver(s: State, steps: seq<Step>, s': State, slot: Slot, id: nat)
    requires Inv(s) && Settled(s, slot) && Runs(s, steps, s')
    ensures Settled(s', slot) && s'.rows[slot] == s.rows[slot]
    ensures (id in s.requests ==> !s.requests[id].Answered?) && AnsweredAt(s', id, slot) ==>
      s'.requests[id].response == Verdict(slot, s.rows[slot], s'.requests[id].hash)
  {
    hide Inv, Verdict;
    FinishedStays(s, steps, s', s.owner[slot]);
    AnswersFollowRow(s, steps, s', slot, id);
  }

  lemma {:induction false} AnsweredStays(s: State, steps: seq<Step>, s': State, id: nat)
    requires Runs(s, steps, s') && id in s.requests && s.requests[id].Answered?
    ensures id in s'.requests && s'.requests[id] == s.requests[id]
    decreases |steps|
  {
    if steps != [] {
      AnsweredStays(Next(s, steps[0]), steps[1..], s', id);
    }
  }

  /** A claimer whose transaction ends without a commit, even between its insert and its
      select, frees the slot: any request waiting for it can insert and becomes the
      claimer. */
  lemma AbortFreesSlot(s: State, id: nat, step: Step, waiting: nat)
    requires Reachable(s) && id in s.requests && !s.requests[id].Rejected? && Holds(s.requests[id], s.requests[id].slot)
    requires step == if s.requests[id].Inserted? then Abort(id) else if step.Rollback? then Rollback(id) else Finish(id)
    requires waiting in s.requests && s.requests[waiting].Started? && s.requests[waiting].slot == s.requests[id].slot
    ensures !Enabled(s, Insert(waiting))
    ensures Enabled(s, step) && Enabled(Next(s, step), Insert(waiting))
    ensures Next(Next(s, step), Insert(waiting)).requests[waiting] ==
      Inserted(s.requests[id].slot, s.requests[waiting].hash, true)
  {
    ReachableInv(s);
    var slot := s.requests[id].slot;
    assert RequestOk(s, id) && Holds(s.requests[id], slot);
    var t := Next(s, step);
    forall j | j in t.requests ensures !Holds(t.requests[j], slot) {
      assert j != id ==> !Holds(s.requests[j], slot);
    }
  }
}
