/** What a claimer leaves in its row, read off the steps it took, and what every later
    request is told. */
module IdempotencyReplay {
  import opened Collections
  import opened IdempotencyRecords
  import opened Idempotency

  /** Status and body of a record. */
  datatype Content = Content(status: int, body: Option<Json>)

  const PENDING := Content(STATUS_PENDING, None)
  const FAILED := Content(STATUS_FAILED, Some(FAILED_BODY))

  /** The record as the session of a claimer sees it, and as it was committed last. */
  datatype Life = Life(current: Content, stored: Option<Content>)

  const UNBORN := Life(PENDING, None)

  function ContentOf(row: Row): Content { Content(row.status, row.body) }

  /** The effect of a step on the record of request id. */
  function Lived(life: Life, step: Step, id: nat): Life {
    if step.id != id then life
    else
      match step
      case Lookup(_) => UNBORN
      case SaveResponse(_, status, body) => life.(current := Content(status, Storable(body)))
      case MarkFailed(_) => life.(current := FAILED)
      case Rollback(_) => if life.stored.Some? then life.(current := life.stored.value) else UNBORN
      case Commit(_) => life.(stored := Some(life.current))
      case _ => life
  }

  /** The effect of the first n steps. */
  function LifeOf(steps: seq<Step>, n: nat, id: nat): Life
    requires n <= |steps|
  {
    if n == 0 then UNBORN else Lived(LifeOf(steps, n - 1, id), steps[n - 1], id)
  }

  // -------------------------------------------------- the row is what was committed

  /** The life agrees with what the state says of request id. */
  ghost predicate Tracks(s: State, id: nat, life: Life) {
    && (id in s.requests && s.requests[id].Working? ==>
          ContentOf(s.requests[id].row) == life.current && (s.requests[id].stored <==> life.stored.Some?))
    && forall slot :: slot in s.rows && slot in s.owner && s.owner[slot] == id ==> life.stored == Some(ContentOf(s.rows[slot]))
  }

  lemma StepTracks(s: State, step: Step, id: nat, life: Life)
    requires Inv(s) && Enabled(s, step) && Tracks(s, id, life)
    ensures Tracks(Next(s, step), id, Lived(life, step, id))
  {
    var t, life' := Next(s, step), Lived(life, step, id);
    forall slot | slot in t.rows && slot in t.owner && t.owner[slot] == id
      ensures life'.stored == Some(ContentOf(t.rows[slot]))
    {
      OwnedTracks(s, step, id, life, slot);
    }
    if id in s.requests {
      assert RequestOk(s, id);
    }
  }

  lemma OwnedTracks(s: State, step: Step, id: nat, life: Life, slot: Slot)
    requires Inv(s) && Enabled(s, step) && Tracks(s, id, life)
    requires slot in Next(s, step).rows && slot in Next(s, step).owner && Next(s, step).owner[slot] == id
    ensures Lived(life, step, id).stored == Some(ContentOf(Next(s, step).rows[slot]))
  {
    StepKeepsRows(s, step, slot);
    if slot in s.rows {
      assert OwnerState(s, slot, s.owner[slot]);
    }
  }

  /** In every run a committed row holds what its claimer had made of it at its last
      commit: every save, failure mark and rollback counts, nothing else does. */
  lemma {:induction false} RowIsLived(steps: seq<Step>, s: State, slot: Slot)
    requires Runs(INITIAL, steps, s) && slot in s.rows
    ensures slot in s.owner && LifeOf(steps, |steps|, s.owner[slot]).stored == Some(ContentOf(s.rows[slot]))
  {
    ReachableInv(s);
    InitialInv();
    TracksFrom(INITIAL, steps, 0, s, s.owner[slot]);
  }

  lemma {:induction false} TracksFrom(r: State, steps: seq<Step>, n: nat, s: State, id: nat)
    requires n <= |steps| && Inv(r) && Runs(r, steps[n..], s) && Tracks(r, id, LifeOf(steps, n, id))
    ensures Tracks(s, id, LifeOf(steps, |steps|, id))
    decreases |steps| - n
  {
    hide Inv, Tracks, Lived;
    if n < |steps| {
      var step := steps[n..][0];
      StepKeepsInv(r, step);
      StepTracks(r, step, id, LifeOf(steps, n, id));
      assert steps[n..][1..] == steps[n + 1..];
      TracksFrom(Next(r, step), steps, n + 1, s, id);
    }
  }

  // ---------------------------------------------------------------- the write in force

  predicate Writes(step: Step, id: nat) {
    step.id == id && (step.SaveResponse? || step.MarkFailed?)
  }

  function Written(step: Step): Content
    requires step.SaveResponse? || step.MarkFailed?
  {
    if step.SaveResponse? then Content(step.status, Storable(step.body)) else FAILED
  }

  /** The write at i is not undone before position n: the claim is not taken anew, and
      every rollback finds a commit after the write. */
  ghost predicate Survives(steps: seq<Step>, id: nat, i: nat, n: nat)
    requires n <= |steps|
  {
    && i < n && Writes(steps[i], id)
    && (forall k :: i < k < n ==> steps[k] != Lookup(id))
    && (forall k :: i < k < n && steps[k] == Rollback(id) ==> CommitsBetween(steps, id, i, k))
  }

  ghost predicate CommitsBetween(steps: seq<Step>, id: nat, i: nat, k: nat) {
    exists j :: i < j < k && j < |steps| && steps[j] == Commit(id)
  }

  /** The last write that is not undone. */
  ghost predicate InForce(steps: seq<Step>, id: nat, i: nat, n: nat)
    requires n <= |steps|
  {
    Survives(steps, id, i, n) && forall k :: i < k < n ==> !Survives(steps, id, k, n)
  }

  lemma {:induction false} LastCommit(steps: seq<Step>, id: nat, n: nat) returns (j: nat)
    requires n <= |steps| && LifeOf(steps, n, id).stored.Some?
    ensures j < n && steps[j] == Commit(id) && LifeOf(steps, n, id).stored == Some(LifeOf(steps, j, id).current)
    ensures forall k :: j < k < n ==> steps[k] != Commit(id) && steps[k] != Lookup(id)
    decreases n
  {
    if steps[n - 1] == Commit(id) {
      j := n - 1;
    } else {
      j := LastCommit(steps, id, n - 1);
    }
  }

  lemma {:induction false} NothingStored(steps: seq<Step>, id: nat, n: nat, j: nat)
    requires j < n <= |steps| && LifeOf(steps, n, id).stored.None? && steps[j] == Commit(id)
    ensures exists k :: j < k < n && steps[k] == Lookup(id)
    decreases n
  {
    if steps[n - 1] != Lookup(id) && n - 1 > j {
      NothingStored(steps, id, n - 1, j);
    }
  }

  /** After a rollback the writes in force are those at the last commit. */
  lemma SurvivesRollback(steps: seq<Step>, id: nat, i: nat, j: nat, n: nat)
    requires j < n < |steps| && steps[j] == Commit(id) && steps[n] == Rollback(id)
    requires forall k :: j < k < n ==> steps[k] != Commit(id) && steps[k] != Lookup(id)
    ensures Survives(steps, id, i, n + 1) <==> Survives(steps, id, i, j)
  {
    if Survives(steps, id, i, j) {
      forall k | i < k < n + 1 && steps[k] == Rollback(id) ensures CommitsBetween(steps, id, i, k) {
        if k > j {
          assert i < j < k;
        }
      }
    }
    if Survives(steps, id, i, n + 1) {
      assert CommitsBetween(steps, id, i, n);
    }
  }

  /** A step that is no rollback, claim or write of the request changes nothing. */
  lemma SurvivesOther(steps: seq<Step>, id: nat, i: nat, n: nat)
    requires n < |steps| && steps[n] != Rollback(id) && steps[n] != Lookup(id) && i < n
    ensures Survives(steps, id, i, n + 1) <==> Survives(steps, id, i, n)
  {
  }

  lemma NoneSurvives(steps: seq<Step>, id: nat, i: nat, n: nat)
    requires n < |steps| && i <= n
    requires steps[n] == Lookup(id) || (steps[n] == Rollback(id) && LifeOf(steps, n, id).stored.None?)
    ensures !Survives(steps, id, i, n + 1)
  {
    if steps[n] == Rollback(id) && Survives(steps, id, i, n + 1) && i < n {
      var j :| i < j < n && steps[j] == Commit(id);
      NothingStored(steps, id, n, j);
    }
  }

  lemma SameInForce(steps: seq<Step>, id: nat, j: nat, n: nat)
    requires j <= n <= |steps| && forall i: nat :: Survives(steps, id, i, n) <==> Survives(steps, id, i, j)
    ensures forall i: nat :: InForce(steps, id, i, n) ==> InForce(steps, id, i, j)
  {
    forall i: nat | InForce(steps, id, i, n) ensures InForce(steps, id, i, j) {
      assert Survives(steps, id, i, n);
      forall k | i < k < j ensures !Survives(steps, id, k, j) {
        assert !Survives(steps, id, k, n);
      }
    }
  }

  /** The record holds the write in force; if there is none, it is pending. */
  lemma {:induction false} InForceExactly(steps: seq<Step>, id: nat, n: nat)
    requires n <= |steps|
    ensures forall i: nat :: InForce(steps, id, i, n) ==> LifeOf(steps, n, id).current == Written(steps[i])
    ensures (forall i: nat :: !Survives(steps, id, i, n)) ==> LifeOf(steps, n, id).current == PENDING
    decreases n
  {
    if n > 0 {
      var step, m := steps[n - 1], n - 1;
      if Writes(step, id) {
        assert Survives(steps, id, m, n);
      } else if step == Lookup(id) || (step == Rollback(id) && LifeOf(steps, m, id).stored.None?) {
        forall i: nat | i < n ensures !Survives(steps, id, i, n) {
          NoneSurvives(steps, id, i, m);
        }
      } else {
        var j := m;
        if step == Rollback(id) {
          j := LastCommit(steps, id, m);
        }
        InForceExactly(steps, id, j);
        forall i: nat ensures Survives(steps, id, i, n) <==> Survives(steps, id, i, j) {
          if step == Rollback(id) {
            SurvivesRollback(steps, id, i, j, m);
          } else if i < m {
            SurvivesOther(steps, id, i, m);
          }
        }
        SameInForce(steps, id, j, n);
      }
    }
  }

  // ------------------------------------------------------------------- final responses

  /** The step at j is the last commit of the claimer of the slot. */
  ghost predicate CommittedLast(steps: seq<Step>, id: nat, j: nat) {
    j < |steps| && steps[j] == Commit(id) && forall k :: j < k < |steps| ==> steps[k] != Commit(id)
  }

  /** In every run a committed row holds the write in force at its claimer's last commit,
      and is pending if there was none. */
  lemma RowIsWriteInForce(steps: seq<Step>, s: State, slot: Slot) returns (j: nat)
    requires Runs(INITIAL, steps, s) && slot in s.rows
    ensures slot in s.owner && CommittedLast(steps, s.owner[slot], j)
    ensures forall i: nat :: InForce(steps, s.owner[slot], i, j) ==> ContentOf(s.rows[slot]) == Written(steps[i])
    ensures (forall i: nat :: !Survives(steps, s.owner[slot], i, j)) ==> ContentOf(s.rows[slot]) == PENDING
  {
    hide Runs, Lived, Survives, Written;
    RowIsLived(steps, s, slot);
    j := LastCommit(steps, s.owner[slot], |steps|);
    InForceExactly(steps, s.owner[slot], j);
  }

  /** Once a claimer has saved a response and committed it, every later request for the
      slot gets exactly the status and the storable body that were saved, or 409 if its
      fingerprint is another; until the claimer itself commits again. */
  lemma FinalResponseIsReplayed(before: seq<Step>, s: State, i: nat, j: nat, steps: seq<Step>, s': State, slot: Slot, id: nat)
    requires Runs(INITIAL, before, s) && slot in s.rows && slot in s.owner
    requires CommittedLast(before, s.owner[slot], j) && InForce(before, s.owner[slot], i, j)
    requires before[i].SaveResponse? && before[i].status > 0
    requires Runs(s, steps, s') && LeftAlone(s, steps, slot)
    requires id !in s.requests && AnsweredAt(s', id, slot)
    ensures s'.requests[id].response ==
      if s'.requests[id].hash == s.rows[slot].requestHash
      then Response(before[i].status, Storable(before[i].body), false, Some(slot.key)) else MISMATCH
  {
    hide Runs, InForce, Storable, LeftAlone, AnsweredAt;
    assert Reachable(s);
    ReachableInv(s);
    var last := RowIsWriteInForce(before, s, slot);
    assert last == j;
    AnswersFollowRow(s, steps, s', slot, id);
  }

  // --------------------------------------------------------------------- left pending

  lemma {:induction false} LastSurvivor(steps: seq<Step>, id: nat, i: nat, n: nat, m: nat) returns (last: nat)
    requires i < m <= n <= |steps| && Survives(steps, id, i, n) && forall k :: m <= k < n ==> !Survives(steps, id, k, n)
    ensures InForce(steps, id, last, n)
    decreases m
  {
    hide Survives;
    if Survives(steps, id, m - 1, n) {
      last := m - 1;
    } else {
      last := LastSurvivor(steps, id, i, n, m - 1);
    }
  }

  /** A committed row is pending if and only if at its claimer's last commit no failure
      mark was in force and no save of another status. */
  lemma PendingExactly(steps: seq<Step>, s: State, slot: Slot) returns (j: nat)
    requires Runs(INITIAL, steps, s) && slot in s.rows
    ensures slot in s.owner && CommittedLast(steps, s.owner[slot], j)
    ensures s.rows[slot].status == STATUS_PENDING <==>
      forall i: nat :: InForce(steps, s.owner[slot], i, j) ==> steps[i].SaveResponse? && steps[i].status == STATUS_PENDING
  {
    j := RowIsWriteInForce(steps, s, slot);
    hide Runs;
    if i: nat :| Survives(steps, s.owner[slot], i, j) {
      var last := LastSurvivor(steps, s.owner[slot], i, j, j);
    }
  }

  /** Every later request with the key of a row that its claimer left pending is told to
      retry, or that its payload differs, and none is ever let through. */
  lemma PendingForEver(before: seq<Step>, s: State, steps: seq<Step>, s': State, slot: Slot, id: nat)
    requires Runs(INITIAL, before, s) && Settled(s, slot) && Runs(s, steps, s')
    requires id in s'.requests && !s'.requests[id].Rejected? && s'.requests[id].slot == slot
    requires forall i: nat, j: nat :: CommittedLast(before, s.owner[slot], j) && InForce(before, s.owner[slot], i, j) ==>
      before[i].SaveResponse? && before[i].status == STATUS_PENDING
    ensures id !in s.requests && s'.requests[id].Answered? ==>
      s'.requests[id].response ==
        if s'.requests[id].hash == s.rows[slot].requestHash then Response(CONFLICT_STATUS, None, true, Some(slot.key)) else MISMATCH
    ensures !s'.requests[id].Working?
  {
    hide Runs, InForce;
    assert Reachable(s);
    ReachableInv(s);
    var j := PendingExactly(before, s, slot);
    SettledForEver(s, steps, s', slot, id);
    RunKeepsInv(s, steps, s');
    assert RequestOk(s', id) && OwnerState(s', slot, s'.owner[slot]);
  }

  /** It happens: a handler that does its work, commits and then fails leaves committed
      work and a pending row. */
  lemma PendingHappens(org: string, key: string, endpoint: string, hash: string) returns (steps: seq<Step>, s: State)
    requires key != ""
    ensures var slot := Slot(org, key, endpoint);
      Runs(INITIAL, steps, s) && Settled(s, slot) && s.rows[slot] == PendingRow(hash) && s.effects == [(slot, 0)]
  {
    var slot, row := Slot(org, key, endpoint), PendingRow(hash);
    var claimed, worked := Alone(Working(slot, hash, row, false, false)), Alone(Working(slot, hash, row, false, true));
    var committed := Committed(slot, row, Working(slot, hash, row, true, false));
    s := Committed(slot, row, Finished(slot, hash));
    assert worked.rows[slot := row] == map[slot := row] && worked.owner[slot := 0] == map[slot := 0];
    assert Next(worked, Commit(0)) == committed && Next(committed, Finish(0)) == s;
    hide Next, Enabled;
    OneMore(committed, Finish(0), [], s, s);
    OneMore(worked, Commit(0), [Finish(0)], committed, s);
    Working0(slot, hash, row);
    OneMore(claimed, Work(0), [Commit(0)] + [Finish(0)], worked, s);
    steps := Claimed0(org, key, endpoint, hash, [Work(0)] + ([Commit(0)] + [Finish(0)]), s);
  }

  /** The one request of an otherwise empty table. */
  function Alone(r: Request): State {
    INITIAL.(requests := map[0 := r])
  }

  function Committed(slot: Slot, row: Row, r: Request): State {
    State(map[slot := row], map[0 := r], map[slot := 0], {}, [(slot, 0)])
  }

  lemma Working0(slot: Slot, hash: string, row: Row)
    ensures var s := Alone(Working(slot, hash, row, false, false));
      Enabled(s, Work(0)) && Next(s, Work(0)) == Alone(Working(slot, hash, row, false, true))
  {
  }

  lemma Claimed0(org: string, key: string, endpoint: string, hash: string, rest: seq<Step>, s: State) returns (steps: seq<Step>)
    requires key != ""
    requires Runs(Alone(Working(Slot(org, key, endpoint), hash, PendingRow(hash), false, false)), rest, s)
    ensures Runs(INITIAL, steps, s)
  {
    var slot := Slot(org, key, endpoint);
    var a, b, c := Alone(Started(slot, hash)), Alone(Inserted(slot, hash, true)), Alone(Working(slot, hash, PendingRow(hash), false, false));
    var arrive := Arrive(0, org, Some(key), endpoint, hash);
    assert Enabled(INITIAL, arrive) && Next(INITIAL, arrive) == a;
    assert Enabled(a, Insert(0)) && Next(a, Insert(0)) == b;
    assert Enabled(b, Lookup(0)) && Next(b, Lookup(0)) == c;
    hide Next, Enabled;
    OneMore(b, Lookup(0), rest, c, s);
    OneMore(a, Insert(0), [Lookup(0)] + rest, b, s);
    OneMore(INITIAL, arrive, [Insert(0)] + ([Lookup(0)] + rest), a, s);
    steps := [arrive] + ([Insert(0)] + ([Lookup(0)] + rest));
  }

  lemma OneMore(s: State, step: Step, rest: seq<Step>, t: State, u: State)
    requires Enabled(s, step) && t == Next(s, step) && Runs(t, rest, u)
    ensures Runs(s, [step] + rest, u)
  {
    hide Next, Enabled;
    assert ([step] + rest)[1..] == rest;
  }
}
