/** `require_idempotency` inside one database session, and its place in the protocol. */
module IdempotencySessions {
  import opened Collections
  import opened IdempotencyRecords
  import opened Idempotency

  /** The committed rows that the session sees, and its own inserts. */
  class Session {
    const committed: map<Slot, Row>
    var inserted: map<Slot, Row>

    constructor (committed: map<Slot, Row>)
      ensures this.committed == committed && inserted == map[]
    {
      this.committed, inserted := committed, map[];
    }

    /** `INSERT … ON CONFLICT DO NOTHING`, and its `rowcount`. */
    method InsertOrNothing(slot: Slot, row: Row) returns (rowcount: nat)
      modifies this
      ensures rowcount == if slot in committed || slot in old(inserted) then 0 else 1
      ensures inserted == if rowcount == 1 then old(inserted)[slot := row] else old(inserted)
    {
      rowcount := 0;
      if slot !in committed && slot !in inserted {
        inserted := inserted[slot := row];
        rowcount := 1;
      }
    }

    /** `scalar_one` */
    method SelectOne(slot: Slot) returns (row: Row)
      requires slot in committed || slot in inserted
      ensures row == if slot in inserted then inserted[slot] else committed[slot]
    {
      row := if slot in inserted then inserted[slot] else committed[slot];
    }
  }

  /** Where a request stands after the call, and what it has inserted. */
  method RequireIdempotency(session: Session, org: string, key: Option<string>, endpoint: string, hash: string)
      returns (r: Request)
    requires session.inserted == map[]
    modifies session
    ensures key == None || key == Some("") ==> r == Rejected(KEY_REQUIRED) && session.inserted == map[]
    ensures key.Some? && key.value != "" ==>
      var slot := Slot(org, key.value, endpoint);
      if slot !in session.committed
      then r == Working(slot, hash, PendingRow(hash), false, false) && session.inserted == map[slot := PendingRow(hash)]
      else r == Answered(slot, hash, Verdict(slot, session.committed[slot], hash)) && session.inserted == map[]
  {
    hide BuildResponse;
    if key.None? || key.value == "" {
      return Rejected(KEY_REQUIRED);
    }
    var slot := Slot(org, key.value, endpoint);
    var rowcount := session.InsertOrNothing(slot, PendingRow(hash));
    var claimed := rowcount == 1;
    var record := session.SelectOne(slot);
    if record.requestHash != hash {
      return Answered(slot, hash, MISMATCH);
    }
    if claimed {
      return Working(slot, hash, record, false, false);
    }
    return Answered(slot, hash, BuildResponse(key.value, record));
  }

  /** Whatever other requests do between its three steps, the protocol leads a request
      to one of the two results that the call has on the rows committed at its insert
      or at its lookup: it works on a slot that had no row when it inserted, or it has
      the verdict of the row that was there when it looked. */
  lemma CallIsTheProtocol(s: State, id: nat, steps: seq<Step>, t: State)
    requires Reachable(s) && id in s.requests && s.requests[id].Started? && Enabled(s, Insert(id))
    requires Runs(Next(s, Insert(id)), steps, t) && forall i :: 0 <= i < |steps| ==> steps[i].id != id
    ensures id in t.requests && Enabled(t, Lookup(id))
    ensures var r, after := s.requests[id], Next(t, Lookup(id)).requests[id];
      && (r.slot !in s.rows ==> after == Working(r.slot, r.hash, PendingRow(r.hash), false, false))
      && (r.slot in s.rows ==> r.slot in t.rows && after == Answered(r.slot, r.hash, Verdict(r.slot, t.rows[r.slot], r.hash)))
  {
    hide Inv, BuildResponse;
    var r, u := s.requests[id], Next(s, Insert(id));
    ReachableInv(s);
    StepKeepsInv(s, Insert(id));
    OthersLeaveAlone(u, steps, t, id);
    RunKeepsInv(u, steps, t);
    StillThere(t, id);
  }

  lemma StillThere(t: State, id: nat)
    requires Inv(t) && id in t.requests && t.requests[id].Inserted?
    ensures Enabled(t, Lookup(id)) && (t.requests[id].claimed <==> t.requests[id].slot !in t.rows)
  {
    assert RequestOk(t, id);
  }

  /** A request changes only in its own steps. */
  lemma {:induction false} OthersLeaveAlone(s: State, steps: seq<Step>, t: State, id: nat)
    requires Runs(s, steps, t) && id in s.requests && forall i :: 0 <= i < |steps| ==> steps[i].id != id
    ensures id in t.requests && t.requests[id] == s.requests[id]
    decreases |steps|
  {
    if steps != [] {
      assert steps[0].id != id;
      OthersLeaveAlone(Next(s, steps[0]), steps[1..], t, id);
    }
  }
}
