/** Making team names unique (`upgrade` in
    `backend/alembic/versions/0008_default_team_unique.py`). */
module TeamCleanup {

  type Teams = map<int, string>

  /** Which team a booking is for. */
  type Bookings = map<string, int>

  const DEFAULT_TEAM := "Default Team"

  ghost predicate IntegrityHolds(teams: Teams, bookings: Bookings) {
    forall b :: b in bookings ==> bookings[b] in teams
  }

  function Named(teams: Teams, name: string): set<int> {
    set id | id in teams && teams[id] == name
  }

  predicate IsLeast(s: set<int>, x: int) {
    x in s && forall y :: y in s ==> x <= y
  }

  lemma IsEmpty(s: set<int>)
    requires forall y :: y !in s
    ensures s == {}
  {
    assert forall y | y in s :: y in {};
  }

  lemma HasLeast(s: set<int>)
    requires s != {}
    ensures exists x :: IsLeast(s, x)
    decreases |s|
  {
    if forall y :: y !in s {
      IsEmpty(s);
    }
    var y :| y in s;
    var rest := s - {y};
    if rest == {} {
      assert s == {y} && IsLeast(s, y);
    } else {
      HasLeast(rest);
      var z :| IsLeast(rest, z);
      var x := if y <= z then y else z;
      forall w | w in s ensures x <= w {
        assert w != y ==> w in rest;
      }
      assert IsLeast(s, x);
    }
  }

  /** The first of `ORDER BY team_id`. */
  function Least(s: set<int>): (x: int)
    requires s != {}
    ensures IsLeast(s, x)
  {
    HasLeast(s);
    var x :| x in s && IsLeast(s, x);
    x
  }

  /** The team that keeps the name of a team. */
  function Keeper(teams: Teams, id: int): (x: int)
    requires id in teams
    ensures x in teams && teams[x] == teams[id] && x <= id
  {
    assert id in Named(teams, teams[id]);
    Least(Named(teams, teams[id]))
  }

  /** The teams left when the given names are done: of each such name the first. */
  function Cleaned(teams: Teams, done: set<string>): Teams {
    map id | id in teams && (teams[id] in done ==> Keeper(teams, id) == id) :: teams[id]
  }

  function Repointed(teams: Teams, bookings: Bookings, done: set<string>): Bookings
    requires IntegrityHolds(teams, bookings)
  {
    map b | b in bookings :: if teams[bookings[b]] in done then Keeper(teams, bookings[b]) else bookings[b]
  }

  ghost predicate Duplicated(teams: Teams, name: string) {
    exists a, b :: a in teams && b in teams && a != b && teams[a] == name && teams[b] == name
  }

  /** A name not done yet has all its teams, and their bookings. */
  lemma NotDoneYet(was: Teams, booked: Bookings, done: set<string>, name: string)
    requires IntegrityHolds(was, booked) && name !in done
    ensures Named(Cleaned(was, done), name) == Named(was, name)
    ensures forall b :: b in booked ==> (Repointed(was, booked, done)[b] in Named(was, name) <==> was[booked[b]] == name)
  {
  }

  lemma KeeperIsLeast(teams: Teams, id: int)
    requires id in teams
    ensures id in Named(teams, teams[id]) && Keeper(teams, id) == Least(Named(teams, teams[id]))
  {
  }

  lemma OneMoreDone(was: Teams, booked: Bookings, done: set<string>, name: string)
    requires IntegrityHolds(was, booked) && name !in done && Named(was, name) != {}
    ensures var keep := Least(Named(was, name));
      && Cleaned(was, done) - (Named(was, name) - {keep}) == Cleaned(was, done + {name})
      && (forall b :: b in booked ==>
            Repointed(was, booked, done + {name})[b] == if was[booked[b]] == name then keep else Repointed(was, booked, done)[b])
  {
    var keep := Least(Named(was, name));
    forall id | id in was && was[id] == name ensures Keeper(was, id) == keep {
      KeeperIsLeast(was, id);
    }
    hide Least, Keeper;
    assert Cleaned(was, done) - (Named(was, name) - {keep}) == Cleaned(was, done + {name});
  }

  // ------------------------------------------------------------- the result, at once

  /** Of every name the team with the least id. */
  function AllCleaned(teams: Teams): Teams {
    map id | id in teams && Keeper(teams, id) == id :: teams[id]
  }

  /** Every booking moves to the team that keeps the name of its team. */
  function AllRepointed(teams: Teams, bookings: Bookings): Bookings
    requires IntegrityHolds(teams, bookings)
  {
    map b | b in bookings :: Keeper(teams, bookings[b])
  }

  lemma OnlyTeamIsKeeper(teams: Teams, id: int)
    requires id in teams && !Duplicated(teams, teams[id])
    ensures Keeper(teams, id) == id
  {
  }

  /** Doing the duplicated names one by one does all names. */
  lemma AllDone(was: Teams, booked: Bookings, done: set<string>)
    requires IntegrityHolds(was, booked) && forall name :: name in done <==> Duplicated(was, name)
    ensures Cleaned(was, done) == AllCleaned(was) && Repointed(was, booked, done) == AllRepointed(was, booked)
  {
    forall id | id in was && was[id] !in done ensures Keeper(was, id) == id {
      OnlyTeamIsKeeper(was, id);
    }
    hide Keeper;
  }

  lemma KeeperIsKept(teams: Teams, id: int)
    requires id in teams
    ensures Keeper(teams, Keeper(teams, id)) == Keeper(teams, id)
    ensures Keeper(teams, id) in AllCleaned(teams) && AllCleaned(teams)[Keeper(teams, id)] == teams[id]
  {
    KeeperIsLeast(teams, id);
    KeeperIsLeast(teams, Keeper(teams, id));
  }

  /** A name is left if and only if there was a team with it. */
  lemma NamesKept(teams: Teams, name: string)
    ensures HasName(AllCleaned(teams), name) <==> HasName(teams, name)
  {
    if HasName(teams, name) {
      var id :| id in teams && teams[id] == name;
      KeeperIsKept(teams, id);
    }
  }

  predicate HasName(teams: Teams, name: string) {
    exists id :: id in teams && teams[id] == name
  }

  /** What `uq_teams_name` demands. */
  ghost predicate UniqueNames(teams: Teams) {
    forall a, b :: a in teams && b in teams && teams[a] == teams[b] ==> a == b
  }

  lemma CleanedIsUnique(teams: Teams)
    ensures UniqueNames(AllCleaned(teams))
  {
    var after := AllCleaned(teams);
    forall a, b | a in after && b in after && after[a] == after[b] ensures a == b {
      KeeperIsLeast(teams, a);
      KeeperIsLeast(teams, b);
    }
  }

  /** The migrated teams: the default team is added if there was none. */
  ghost predicate MigratedTeams(before: Teams, after: Teams) {
    if HasName(before, DEFAULT_TEAM) then after == AllCleaned(before)
    else exists id :: id !in AllCleaned(before) && after == AllCleaned(before)[id := DEFAULT_TEAM]
  }

  /** The unique constraint can be created, and every name is there, with the default
      one and no other. */
  lemma MigrationMakesNamesUnique(before: Teams, after: Teams)
    requires MigratedTeams(before, after)
    ensures UniqueNames(after)
    ensures forall name :: HasName(after, name) <==> HasName(before, name) || name == DEFAULT_TEAM
  {
    hide Keeper, AllCleaned;
    CleanedIsUnique(before);
    forall name ensures HasName(AllCleaned(before), name) <==> HasName(before, name) {
      NamesKept(before, name);
    }
    if !HasName(before, DEFAULT_TEAM) {
      var kept := AllCleaned(before);
      var id :| id !in kept && after == kept[id := DEFAULT_TEAM];
      assert !HasName(kept, DEFAULT_TEAM);
      forall name ensures HasName(after, name) <==> HasName(kept, name) || name == DEFAULT_TEAM {
        OneName(kept, id, name);
      }
    }
  }

  lemma OneName(teams: Teams, id: int, name: string)
    requires id !in teams
    ensures HasName(teams[id := DEFAULT_TEAM], name) <==> HasName(teams, name) || name == DEFAULT_TEAM
  {
    var after := teams[id := DEFAULT_TEAM];
    assert after[id] == DEFAULT_TEAM;
    if HasName(teams, name) {
      var x :| x in teams && teams[x] == name;
      assert x in after && after[x] == name;
    }
  }

  /** Every booking is there still, for an existing team of the same name. */
  lemma BookingsFollow(before: Teams, after: Teams, bookings: Bookings, b: string)
    requires IntegrityHolds(before, bookings) && MigratedTeams(before, after) && b in bookings
    ensures var moved := AllRepointed(before, bookings);
      && moved.Keys == bookings.Keys && moved[b] in after && after[moved[b]] == before[bookings[b]]
      && IntegrityHolds(after, moved)
  {
    forall c | c in bookings
      ensures Keeper(before, bookings[c]) in after && after[Keeper(before, bookings[c])] == before[bookings[c]]
    {
      KeeperIsKept(before, bookings[c]);
    }
    hide Keeper, AllCleaned;
  }

  /** Bookings of teams of one name end up with one team, those of two names with two. */
  lemma BookingsMeet(before: Teams, bookings: Bookings, b: string, c: string)
    requires IntegrityHolds(before, bookings) && b in bookings && c in bookings
    ensures AllRepointed(before, bookings)[b] == AllRepointed(before, bookings)[c] <==> before[bookings[b]] == before[bookings[c]]
  {
    KeeperIsLeast(before, bookings[b]);
    KeeperIsLeast(before, bookings[c]);
  }

  class Database {
    var teams: Teams
    var bookings: Bookings

    constructor (teams: Teams, bookings: Bookings)
      ensures this.teams == teams && this.bookings == bookings
    {
      this.teams, this.bookings := teams, bookings;
    }

    /** One pass of the loop: the first team of the name stays, its bookings follow. */
    method MergeNamed(name: string, ghost was: Teams, ghost booked: Bookings, ghost done: set<string>)
      requires IntegrityHolds(was, booked) && name !in done && Duplicated(was, name)
      requires teams == Cleaned(was, done) && bookings == Repointed(was, booked, done)
      modifies this
      ensures teams == Cleaned(was, done + {name}) && bookings == Repointed(was, booked, done + {name})
    {
      var named := Named(teams, name);
      NotDoneYet(was, booked, done, name);
      if named == {} {
        return;
      }
      OneMoreDone(was, booked, done, name);
      hide Cleaned, Repointed, Least;
      var keep := Least(named);
      var duplicates := named - {keep};
      if duplicates != {} {
        bookings := map b | b in bookings :: if bookings[b] in duplicates then keep else bookings[b];
        teams := teams - duplicates;
      }
    }

    /** Merge every duplicated name, in whatever order they were selected, then see to
        the default team. */
    method Upgrade(duplicateNames: seq<string>)
      requires IntegrityHolds(teams, bookings)
      requires forall name :: name in duplicateNames <==> Duplicated(teams, name)
      requires forall i, j :: 0 <= i < j < |duplicateNames| ==> duplicateNames[i] != duplicateNames[j]
      modifies this
      ensures bookings == AllRepointed(old(teams), old(bookings))
      ensures MigratedTeams(old(teams), teams)
    {
      ghost var was, booked, done := teams, bookings, {};
      assert teams == Cleaned(was, {}) && bookings == Repointed(was, booked, {});
      hide Cleaned, Repointed;
      for i := 0 to |duplicateNames|
        invariant teams == Cleaned(was, done) && bookings == Repointed(was, booked, done)
        invariant forall name :: name in done <==> name in duplicateNames[..i]
      {
        var name := duplicateNames[i];
        assert name in duplicateNames;
        MergeNamed(name, was, booked, done);
        done := done + {name};
      }
      assert duplicateNames[..|duplicateNames|] == duplicateNames;
      AllDone(was, booked, done);
      hide AllCleaned, AllRepointed, HasName;
      NamesKept(was, DEFAULT_TEAM);
      if !HasName(teams, DEFAULT_TEAM) {
        HasUnused(teams.Keys);
        var id :| id !in teams;
        teams := teams[id := DEFAULT_TEAM];
      }
    }
  }

  lemma HasUnused(ids: set<int>)
    ensures exists id :: id !in ids
  {
    var id := Above(ids);
    assert id !in ids;
  }

  lemma Above(ids: set<int>) returns (x: int)
    ensures forall id :: id in ids ==> id < x
    decreases |ids|
  {
    x := 0;
    if exists id :: id in ids {
      var id :| id in ids;
      var y := Above(ids - {id});
      x := if y <= id then id + 1 else y;
      forall z | z in ids ensures z < x {
        assert z != id ==> z in ids - {id};
      }
    }
  }
}
