/** The exclusion constraint over active bookings of a team
    (`backend/alembic/versions/9d3e4f5a6b7c_booking_team_overlap_exclusion.py`). */
module TeamOverlap {
  import opened Collections
  import opened Sums

  datatype Status = Pending | Confirmed | Other(name: string)

  /** `startsAt` in microseconds. Organisation, team, start and duration are NOT NULL. */
  datatype Booking = Booking(org: int, team: int, startsAt: int, minutes: int, status: Status, archived: bool)

  type Bookings = map<string, Booking>

  const MICROSECONDS_PER_MINUTE := 60_000_000

  /** `bookings_add_minutes` */
  function AddMinutes(ts: int, minutes: int): int {
    ts + minutes * MICROSECONDS_PER_MINUTE
  }

  function EndsAt(b: Booking): int {
    AddMinutes(b.startsAt, b.minutes)
  }

  /** The rows that the constraint covers. */
  predicate Active(b: Booking) {
    (b.status == Pending || b.status == Confirmed) && !b.archived
  }

  /** `tstzrange(lower, upper, '[)')` refuses bounds in the wrong order. */
  predicate HasRange(b: Booking) {
    b.startsAt <= EndsAt(b)
  }

  /** `&&` on ranges: an empty range overlaps nothing. */
  predicate Overlaps(a: Booking, b: Booking) {
    a.startsAt < EndsAt(a) && b.startsAt < EndsAt(b) && a.startsAt < EndsAt(b) && b.startsAt < EndsAt(a)
  }

  predicate Conflicts(a: Booking, b: Booking) {
    Active(a) && Active(b) && a.org == b.org && a.team == b.team && Overlaps(a, b)
  }

  datatype Verdict = Admitted | RangeError | ExclusionViolation

  /** What the database answers when row id is written. */
  function Check(rows: Bookings, id: string, b: Booking): Verdict {
    if !Active(b) then Admitted
    else if !HasRange(b) then RangeError
    else if exists other :: other in rows && other != id && Conflicts(rows[other], b) then ExclusionViolation
    else Admitted
  }

  /** What ADD CONSTRAINT demands of the rows that are there. */
  ghost predicate Exclusive(rows: Bookings) {
    && (forall id :: id in rows && Active(rows[id]) ==> HasRange(rows[id]))
    && (forall a, b :: a in rows && b in rows && a != b ==> !Conflicts(rows[a], rows[b]))
  }

  // ------------------------------------------------------------------------ writes

  datatype Write =
    | Insert(id: string, booking: Booking)
    | Reschedule(id: string, startsAt: int, minutes: int)
    | Reassign(id: string, org: int, team: int)
    | SetStatus(id: string, status: Status)
    | SetArchived(id: string, archived: bool)
    | Delete(id: string)

  /** The row that a write stores, if it stores one. */
  function Stored(rows: Bookings, w: Write): Option<Booking> {
    match w
    case Insert(id, b) => if id in rows then None else Some(b)
    case Reschedule(id, s, m) => if id in rows then Some(rows[id].(startsAt := s, minutes := m)) else None
    case Reassign(id, o, t) => if id in rows then Some(rows[id].(org := o, team := t)) else None
    case SetStatus(id, s) => if id in rows then Some(rows[id].(status := s)) else None
    case SetArchived(id, a) => if id in rows then Some(rows[id].(archived := a)) else None
    case Delete(id) => None
  }

  /** A refused write changes nothing. */
  function Apply(rows: Bookings, w: Write): Bookings {
    if w.Delete? then rows - {w.id}
    else
      match Stored(rows, w)
      case Some(b) => if Check(rows, w.id, b) == Admitted then rows[w.id := b] else rows
      case None => rows
  }

  function Run(rows: Bookings, ws: seq<Write>): Bookings {
    if ws == [] then rows else Apply(Run(rows, ws[..|ws| - 1]), ws[|ws| - 1])
  }

  // ----------------------------------------------------------------------- theorems

  /** The half-open interval of the booking holds the instant t. */
  predicate Occupies(b: Booking, t: int) {
    b.startsAt <= t < EndsAt(b)
  }

  /** The range test finds exactly the bookings that share an instant. */
  lemma OverlapIsSharedInstant(a: Booking, b: Booking)
    ensures Overlaps(a, b) <==> exists t :: Occupies(a, t) && Occupies(b, t)
  {
    hide EndsAt;
    if Overlaps(a, b) {
      var t := if a.startsAt < b.startsAt then b.startsAt else a.startsAt;
      assert Occupies(a, t) && Occupies(b, t);
    }
  }

  /** A write is admitted if and only if the table satisfies the constraint afterwards. */
  lemma CheckIsExact(rows: Bookings, id: string, b: Booking)
    requires Exclusive(rows)
    ensures Check(rows, id, b) == Admitted <==> Exclusive(rows[id := b])
  {
    hide Overlaps, HasRange;
    var after := rows[id := b];
    if Check(rows, id, b) == Admitted {
      forall x, y | x in after && y in after && x != y ensures !Conflicts(after[x], after[y]) {
        if x == id {
          ConflictsBothWays(after[x], after[y]);
        }
      }
    } else if HasRange(b) {
      var other :| other in rows && other != id && Conflicts(rows[other], b);
      assert Conflicts(after[other], after[id]);
    } else {
      assert id in after && Active(after[id]);
    }
  }

  /** The rows of the first n ids. */
  function Taken(rows: Bookings, ids: seq<string>, n: nat): Bookings
    requires n <= |ids| && forall i :: 0 <= i < |ids| ==> ids[i] in rows
  {
    if n == 0 then map[] else Taken(rows, ids, n - 1)[ids[n - 1] := rows[ids[n - 1]]]
  }

  /** ADD CONSTRAINT fills its index row by row: the first n rows go in. */
  predicate Fills(rows: Bookings, ids: seq<string>, n: nat)
    requires n <= |ids| && forall i :: 0 <= i < |ids| ==> ids[i] in rows
  {
    n == 0 || (Fills(rows, ids, n - 1) && Check(Taken(rows, ids, n - 1), ids[n - 1], rows[ids[n - 1]]) == Admitted)
  }

  lemma {:induction false} TakenAt(rows: Bookings, ids: seq<string>, n: nat, id: string)
    requires n <= |ids| && forall i :: 0 <= i < |ids| ==> ids[i] in rows
    ensures id in Taken(rows, ids, n) <==> id in ids[..n]
    ensures id in Taken(rows, ids, n) ==> id in rows && Taken(rows, ids, n)[id] == rows[id]
    decreases n
  {
    if n > 0 {
      TakenAt(rows, ids, n - 1, id);
      assert ids[..n] == ids[..n - 1] + [ids[n - 1]];
    }
  }

  lemma {:induction false} FillsIsExclusive(rows: Bookings, ids: seq<string>, n: nat)
    requires n <= |ids| && forall i :: 0 <= i < |ids| ==> ids[i] in rows
    ensures Fills(rows, ids, n) <==> Exclusive(Taken(rows, ids, n))
    decreases n
  {
    if n > 0 {
      hide Check, Conflicts, Active, HasRange;
      FillsIsExclusive(rows, ids, n - 1);
      var before, after := Taken(rows, ids, n - 1), Taken(rows, ids, n);
      if Exclusive(before) {
        CheckIsExact(before, ids[n - 1], rows[ids[n - 1]]);
      } else if Exclusive(after) {
        forall id | id in before ensures id in after && after[id] == before[id] {
          TakenAt(rows, ids, n - 1, id);
        }
      }
    }
  }

  /** The constraint can be added, in whatever order the rows are read, if and only if
      the rows satisfy it. */
  lemma ValidationIsExact(rows: Bookings, ids: seq<string>)
    requires forall id :: id in rows <==> id in ids
    ensures (forall i :: 0 <= i < |ids| ==> ids[i] in rows) && (Fills(rows, ids, |ids|) <==> Exclusive(rows))
  {
    forall i | 0 <= i < |ids| ensures ids[i] in rows {
      assert ids[i] in ids;
    }
    FillsIsExclusive(rows, ids, |ids|);
    assert ids[..|ids|] == ids;
    forall id ensures (id in Taken(rows, ids, |ids|) <==> id in rows) && (id in rows ==> Taken(rows, ids, |ids|)[id] == rows[id]) {
      TakenAt(rows, ids, |ids|, id);
    }
    assert Taken(rows, ids, |ids|) == rows;
  }

  lemma ConflictsBothWays(a: Booking, b: Booking)
    ensures Conflicts(a, b) <==> Conflicts(b, a)
  {
  }

  lemma ApplyKeepsExclusive(rows: Bookings, w: Write)
    requires Exclusive(rows)
    ensures Exclusive(Apply(rows, w))
  {
    hide Conflicts, Active, HasRange, Check;
    var b := Stored(rows, w);
    if !w.Delete? && b.Some? {
      CheckIsExact(rows, w.id, b.value);
    }
  }

  /** Once the constraint is in place, every run of writes keeps it. */
  lemma {:induction false} RunKeepsExclusive(rows: Bookings, ws: seq<Write>)
    requires Exclusive(rows)
    ensures Exclusive(Run(rows, ws))
    decreases |ws|
  {
    hide Exclusive, Apply;
    if ws != [] {
      RunKeepsExclusive(rows, ws[..|ws| - 1]);
      ApplyKeepsExclusive(Run(rows, ws[..|ws| - 1]), ws[|ws| - 1]);
    }
  }

  // ---------------------------------------------------------------- time in a window

  function Min(a: int, b: int): int { if a <= b then a else b }

  function Max(a: int, b: int): int { if a <= b then b else a }

  /** The part of [s, e) inside [lo, hi). */
  function Cut(lo: int, hi: int, s: int, e: int): nat {
    Max(0, Min(e, hi) - Max(s, lo))
  }

  function Inside(lo: int, hi: int): Booking -> nat {
    (b: Booking) => Cut(lo, hi, b.startsAt, EndsAt(b))
  }

  ghost predicate Disjoint(bs: seq<Booking>) {
    forall i, j :: 0 <= i < j < |bs| ==> !Overlaps(bs[i], bs[j])
  }

  /** The window falls apart around a booking that another one does not meet. */
  lemma WindowSplits(lo: int, hi: int, a: Booking, b: Booking)
    requires lo <= hi && !Overlaps(a, b) && b.startsAt < EndsAt(b)
    ensures var s, e := Min(Max(b.startsAt, lo), hi), Min(Max(EndsAt(b), lo), hi);
      Inside(lo, hi)(a) == Inside(lo, s)(a) + Inside(e, hi)(a) && lo <= s <= e <= hi && Inside(lo, hi)(b) == e - s
  {
    hide EndsAt;
  }

  /** Disjoint bookings fill a window at most once. */
  lemma {:induction false} DisjointFit(bs: seq<Booking>, lo: int, hi: int)
    requires Disjoint(bs) && lo <= hi
    ensures Sum(bs, Inside(lo, hi)) <= hi - lo
    decreases |bs|
  {
    if bs != [] {
      var init, b := bs[..|bs| - 1], bs[|bs| - 1];
      hide EndsAt, Overlaps;
      if b.startsAt < EndsAt(b) {
        var s, e := Min(Max(b.startsAt, lo), hi), Min(Max(EndsAt(b), lo), hi);
        forall a | a in init ensures Inside(lo, hi)(a) == Inside(lo, s)(a) + Inside(e, hi)(a) {
          var i :| 0 <= i < |init| && init[i] == a;
          assert !Overlaps(bs[i], bs[|bs| - 1]);
          WindowSplits(lo, hi, a, b);
        }
        SumSplit(init, Inside(lo, hi), Inside(lo, s), Inside(e, hi));
        EmptyOrSplit(lo, hi, b);
        DisjointFit(init, lo, s);
        DisjointFit(init, e, hi);
      } else {
        DisjointFit(init, lo, hi);
      }
    }
  }

  lemma EmptyOrSplit(lo: int, hi: int, b: Booking)
    requires lo <= hi && b.startsAt < EndsAt(b)
    ensures var s, e := Min(Max(b.startsAt, lo), hi), Min(Max(EndsAt(b), lo), hi);
      lo <= s <= e <= hi && Inside(lo, hi)(b) == e - s
  {
    hide EndsAt;
  }

  function Rows(rows: Bookings, ids: seq<string>): (bs: seq<Booking>)
    requires forall i :: 0 <= i < |ids| ==> ids[i] in rows
    ensures |bs| == |ids| && forall i :: 0 <= i < |ids| ==> bs[i] == rows[ids[i]]
  {
    seq(|ids|, i requires 0 <= i < |ids| => rows[ids[i]])
  }

  /** After any run, the active bookings of a team fill any window at most once. */
  lemma TeamIsNeverDoubleBooked(rows: Bookings, ws: seq<Write>, org: int, team: int, ids: seq<string>, lo: int, hi: int)
    requires Exclusive(rows) && NoRepeats(ids) && lo <= hi
    requires var after := Run(rows, ws);
      forall i :: 0 <= i < |ids| ==> ids[i] in after && Active(after[ids[i]]) && after[ids[i]].org == org && after[ids[i]].team == team
    ensures Sum(Rows(Run(rows, ws), ids), Inside(lo, hi)) <= hi - lo
  {
    hide Active, Overlaps, Run;
    RunKeepsExclusive(rows, ws);
    var after := Run(rows, ws);
    var bs := Rows(after, ids);
    forall i, j | 0 <= i < j < |bs| ensures !Overlaps(bs[i], bs[j]) {
      assert ids[i] != ids[j];
      assert !Conflicts(after[ids[i]], after[ids[j]]);
    }
    DisjointFit(bs, lo, hi);
  }
}
