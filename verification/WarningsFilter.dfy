/** Dropping allow-listed third-party warnings (`apply_noise_filter` and `is_high_risk`
    in `backend/scripts/warnings_audit.py`). */
module WarningsFilter {
  import opened Collections
  import opened Sums
  import opened Text
  import opened WarningsLog
  import opened WarningsAggregate

  /** What the filter calls: `str.lower`, and the case-insensitive search for a pattern,
      which has no answer when the pattern does not compile. */
  datatype Rules = Rules(lower: string -> string, search: (string, string) -> Option<bool>)

  const HIGH_RISK_CATEGORIES: set<string> :=
    {"PytestRemovedIn9Warning", "PytestDeprecationWarning", "SAWarning", "RemovedIn20Warning", "RuntimeWarning"}

  predicate UnclosedEventLoop(rules: Rules, message: string) {
    Contains(rules.lower(message), "unclosed event loop")
  }

  predicate IsHighRisk(rules: Rules, s: Signature) {
    || UnclosedEventLoop(rules, s.message)
    || (s.category in HIGH_RISK_CATEGORIES
        && (s.category == "RuntimeWarning" ==>
              Contains(rules.lower(s.message), "coroutine") || Contains(rules.lower(s.message), "never awaited")))
  }

  /** A signature that no allowlist drops. */
  predicate Protected(rules: Rules, s: Signature) {
    || UnclosedEventLoop(rules, s.message)
    || s.origin == Our
    || (s.category in HIGH_RISK_CATEGORIES
        && (s.category == "RuntimeWarning" ==> Contains(rules.lower(s.message), "coroutine")))
  }

  /** An entry without a pattern, or with one that does not compile, matches nothing. */
  predicate Matches(rules: Rules, pattern: string, s: Signature) {
    pattern != "" && rules.search(pattern, s.message).Some?
    && (rules.search(pattern, s.message).value || rules.search(pattern, s.moduleName) == Some(true))
  }

  predicate Dropped(rules: Rules, allowlist: seq<string>, s: Signature) {
    !Protected(rules, s) && exists pattern :: pattern in allowlist && Matches(rules, pattern, s)
  }

  /** What is kept of the first n signatures, in their order. */
  function Kept(rules: Rules, allowlist: seq<string>, d: Dict<string, Signature>, n: nat): Dict<string, Signature>
    requires d.Valid() && n <= |d.keys|
  {
    if n == 0 then EmptyDict()
    else
      assert d.keys[n - 1] in d.keys;
      var before, s := Kept(rules, allowlist, d, n - 1), d.at[d.keys[n - 1]];
      if Dropped(rules, allowlist, s) then before else before.Put(d.keys[n - 1], s)
  }

  function DroppedPart(rules: Rules, allowlist: seq<string>, f: Signature -> nat, s: Signature): nat {
    if Dropped(rules, allowlist, s) then f(s) else 0
  }

  /** f on what is dropped. */
  function Lost(rules: Rules, allowlist: seq<string>, f: Signature -> nat): Signature -> nat {
    s => DroppedPart(rules, allowlist, f, s)
  }

  /** Exactly the signatures that are not dropped stay, unchanged. */
  lemma {:induction false} KeptAt(rules: Rules, allowlist: seq<string>, d: Dict<string, Signature>, n: nat, id: string)
    requires d.Valid() && n <= |d.keys|
    ensures var kept := Kept(rules, allowlist, d, n);
      && (id in kept.at <==> id in d.keys[..n] && !Dropped(rules, allowlist, d.at[id]))
      && (id in kept.at ==> kept.at[id] == d.at[id])
    decreases n
  {
    hide Dropped;
    if n > 0 {
      KeptAt(rules, allowlist, d, n - 1, id);
      assert d.keys[..n] == d.keys[..n - 1] + [d.keys[n - 1]];
    }
  }

  lemma {:induction false} KeptValid(rules: Rules, allowlist: seq<string>, d: Dict<string, Signature>, n: nat)
    requires d.Valid() && n <= |d.keys|
    ensures Kept(rules, allowlist, d, n).Valid()
    decreases n
  {
    hide Dropped;
    if n > 0 {
      KeptValid(rules, allowlist, d, n - 1);
      Kept(rules, allowlist, d, n - 1).PutValid(d.keys[n - 1], d.at[d.keys[n - 1]]);
    }
  }

  lemma {:induction false} KeptKeys(rules: Rules, d: Dict<string, Signature>, n: nat)
    requires d.Valid() && n <= |d.keys|
    ensures Kept(rules, [], d, n).keys == d.keys[..n]
    decreases n
  {
    hide Dict.Valid, Protected, Matches;
    if n > 0 {
      KeptKeys(rules, d, n - 1);
      NotYet(rules, [], d, n);
      assert d.keys[..n] == d.keys[..n - 1] + [d.keys[n - 1]];
    }
  }

  /** An empty allowlist leaves the signatures as they are. */
  lemma KeptAll(rules: Rules, d: Dict<string, Signature>)
    requires d.Valid()
    ensures Kept(rules, [], d, |d.keys|) == d
  {
    var kept := Kept(rules, [], d, |d.keys|);
    KeptKeys(rules, d, |d.keys|);
    CutAtEnd(d.keys);
    forall id ensures (id in kept.at <==> id in d.at) && (id in d.at ==> kept.at[id] == d.at[id]) {
      KeptAt(rules, [], d, |d.keys|, id);
    }
    hide Kept;
    assert kept.at == d.at;
  }

  lemma NotYet(rules: Rules, allowlist: seq<string>, d: Dict<string, Signature>, n: nat)
    requires d.Valid() && 0 < n <= |d.keys|
    ensures d.keys[n - 1] !in Kept(rules, allowlist, d, n - 1).at
  {
    KeptAt(rules, allowlist, d, n - 1, d.keys[n - 1]);
  }

  /** Every measure splits into its value on what is kept and on what is dropped. */
  lemma {:induction false} KeptSum(rules: Rules, allowlist: seq<string>, d: Dict<string, Signature>, n: nat, f: Signature -> nat)
    requires d.Valid() && n <= |d.keys|
    ensures Sum(Vals(Kept(rules, allowlist, d, n)), f) + Sum(ValuesAt(d.keys[..n], d.at), Lost(rules, allowlist, f))
      == Sum(ValuesAt(d.keys[..n], d.at), f)
    decreases n
  {
    hide Dropped;
    if n > 0 {
      KeptSum(rules, allowlist, d, n - 1, f);
      NextValue(d, n);
      var id, init := d.keys[n - 1], ValuesAt(d.keys[..n - 1], d.at);
      var s := d.at[id];
      SumSnoc(init, s, f);
      SumSnoc(init, s, Lost(rules, allowlist, f));
      KeptValid(rules, allowlist, d, n - 1);
      NotYet(rules, allowlist, d, n);
      hide Dict.Valid;
      ValsPut(Kept(rules, allowlist, d, n - 1), id, s, f);
      hide ValuesAt, Sum, Vals, Dict.Put;
    }
  }

  lemma NextValue(d: Dict<string, Signature>, n: nat)
    requires d.Valid() && 0 < n <= |d.keys|
    ensures d.keys[n - 1] in d.at
    ensures ValuesAt(d.keys[..n], d.at) == ValuesAt(d.keys[..n - 1], d.at) + [d.at[d.keys[n - 1]]]
  {
    assert d.keys[n - 1] in d.keys;
    assert d.keys[..n][..n - 1] == d.keys[..n - 1];
  }

  lemma CutAtEnd<T>(s: seq<T>)
    ensures s[..|s|] == s
  {
  }

  /** One pass of the filter: the exemptions in order, then the allowlist. */
  method ShouldFilter(rules: Rules, allowlist: seq<string>, s: Signature) returns (shouldFilter: bool)
    ensures shouldFilter == Dropped(rules, allowlist, s)
  {
    hide UnclosedEventLoop, Contains;
    if UnclosedEventLoop(rules, s.message) {
      return false;
    }
    if s.origin == Our {
      return false;
    }
    if s.category in HIGH_RISK_CATEGORIES {
      if s.category != "RuntimeWarning" || Contains(rules.lower(s.message), "coroutine") {
        return false;
      }
    }
    shouldFilter := false;
    for k := 0 to |allowlist|
      invariant !shouldFilter && forall j :: 0 <= j < k ==> !Matches(rules, allowlist[j], s)
    {
      var pattern := allowlist[k];
      if pattern == "" {
        continue;
      }
      var inMessage := rules.search(pattern, s.message);
      if inMessage.None? {
        continue;
      }
      if inMessage.value {
        assert pattern in allowlist && Matches(rules, pattern, s);
        shouldFilter := true;
        break;
      }
      var inModule := rules.search(pattern, s.moduleName);
      if inModule.None? {
        continue;
      }
      if inModule.value {
        assert pattern in allowlist && Matches(rules, pattern, s);
        shouldFilter := true;
        break;
      }
    }
  }

  method ApplyNoiseFilter(rules: Rules, signatures: Dict<string, Signature>, allowlist: seq<string>)
      returns (filtered: Dict<string, Signature>, filteredCount: nat)
    requires signatures.Valid()
    ensures filtered.Valid() && filtered == Kept(rules, allowlist, signatures, |signatures.keys|)
    ensures filteredCount == Sum(Vals(signatures), Lost(rules, allowlist, Count))
  {
    hide Dropped, Sum, Dict.Valid, ValuesAt;
    if |allowlist| == 0 {
      KeptAll(rules, signatures);
      NothingLost(rules, Vals(signatures), Count);
      return signatures, 0;
    }
    filtered, filteredCount := EmptyDict(), 0;
    NothingYet(rules, allowlist, signatures);
    for i := 0 to |signatures.keys|
      invariant filtered == Kept(rules, allowlist, signatures, i)
      invariant filteredCount == Sum(ValuesAt(signatures.keys[..i], signatures.at), Lost(rules, allowlist, Count))
    {
      NextValue(signatures, i + 1);
      var s := signatures.at[signatures.keys[i]];
      SumSnoc(ValuesAt(signatures.keys[..i], signatures.at), s, Lost(rules, allowlist, Count));
      var shouldFilter := ShouldFilter(rules, allowlist, s);
      if shouldFilter {
        filteredCount := filteredCount + s.count;
      } else {
        filtered := filtered.Put(signatures.keys[i], s);
      }
    }
    KeptValid(rules, allowlist, signatures, |signatures.keys|);
    CutAtEnd(signatures.keys);
  }

  lemma NothingYet(rules: Rules, allowlist: seq<string>, d: Dict<string, Signature>)
    ensures Sum(ValuesAt(d.keys[..0], d.at), Lost(rules, allowlist, Count)) == 0
  {
    assert d.keys[..0] == [];
  }

  lemma {:induction false} NothingLost(rules: Rules, vs: seq<Signature>, f: Signature -> nat)
    ensures Sum(vs, Lost(rules, [], f)) == 0
    decreases |vs|
  {
    if vs != [] {
      NothingLost(rules, vs[..|vs| - 1], f);
    }
  }

  // -------------------------------------------------------------------- what is lost

  /** What is kept and what is dropped add up, for every measure of signatures. */
  lemma FilterConserves(rules: Rules, allowlist: seq<string>, d: Dict<string, Signature>, f: Signature -> nat)
    requires d.Valid()
    ensures Sum(Vals(Kept(rules, allowlist, d, |d.keys|)), f) + Sum(Vals(d), Lost(rules, allowlist, f)) == Sum(Vals(d), f)
  {
    hide Kept, Sum, ValuesAt, Dict.Valid, Lost;
    CutAtEnd(d.keys);
    KeptSum(rules, allowlist, d, |d.keys|, f);
  }

  /** What only protected signatures carry is not lost under any allowlist. */
  lemma {:induction false} ProtectedIsKept(rules: Rules, allowlist: seq<string>, vs: seq<Signature>, f: Signature -> nat)
    requires forall s: Signature :: s in vs && !Protected(rules, s) ==> f(s) == 0
    ensures Sum(vs, Lost(rules, allowlist, f)) == 0
    decreases |vs|
  {
    hide Protected;
    if vs != [] {
      ProtectedIsKept(rules, allowlist, vs[..|vs| - 1], f);
      assert vs[|vs| - 1] in vs;
    }
  }

  /** Where the code contradicts itself: a third-party `RuntimeWarning` that was never
      awaited but does not mention a coroutine is high-risk and can be dropped. */
  predicate Unguarded(rules: Rules, s: Signature) {
    && s.origin == ThirdParty && s.category == "RuntimeWarning" && !UnclosedEventLoop(rules, s.message)
    && Contains(rules.lower(s.message), "never awaited") && !Contains(rules.lower(s.message), "coroutine")
  }

  /** A high-risk signature is dropped exactly when it is of that kind and listed. */
  lemma HighRiskDropped(rules: Rules, allowlist: seq<string>, s: Signature)
    requires IsHighRisk(rules, s)
    ensures Dropped(rules, allowlist, s) <==> Unguarded(rules, s) && exists pattern :: pattern in allowlist && Matches(rules, pattern, s)
  {
    hide Contains, UnclosedEventLoop, Matches;
  }

  predicate HighRiskLost(rules: Rules, allowlist: seq<string>, s: Signature) {
    Unguarded(rules, s) && Dropped(rules, allowlist, s)
  }

  /** The high-risk count shrinks by exactly the unguarded signatures that are listed. */
  lemma HighRiskConserves(rules: Rules, allowlist: seq<string>, d: Dict<string, Signature>)
    requires d.Valid()
    ensures Sum(Vals(Kept(rules, allowlist, d, |d.keys|)), Where(s => IsHighRisk(rules, s)))
      + Sum(Vals(d), Where(s => HighRiskLost(rules, allowlist, s)))
      == Sum(Vals(d), Where(s => IsHighRisk(rules, s)))
  {
    var f, g := Where(s => IsHighRisk(rules, s)), Where(s => HighRiskLost(rules, allowlist, s));
    FilterConserves(rules, allowlist, d, f);
    forall s ensures Lost(rules, allowlist, f)(s) == g(s) {
      HighRiskPart(rules, allowlist, s);
    }
    SumSame(Vals(d), Lost(rules, allowlist, f), g);
  }

  lemma HighRiskPart(rules: Rules, allowlist: seq<string>, s: Signature)
    ensures IsHighRisk(rules, s) && Dropped(rules, allowlist, s) <==> HighRiskLost(rules, allowlist, s)
  {
    hide Contains, UnclosedEventLoop, Matches;
  }

  lemma ContainsSelf(s: string)
    ensures Contains(s, s)
  {
  }

  lemma {:induction false} LacksFirst(s: string, needle: string)
    requires needle != "" && needle[0] !in s
    ensures !Contains(s, needle)
    decreases |s|
  {
    if s != "" {
      LacksFirst(s[1..], needle);
    }
  }

  /** Such a signature exists: with an allowlist entry that matches it, it is high-risk
      and dropped. */
  lemma HighRiskCanBeDropped(s: Signature)
    requires s.origin == ThirdParty && s.category == "RuntimeWarning" && s.message == "never awaited"
    ensures var rules := Rules((t: string) => t, (pattern: string, text: string) => Some(true));
      IsHighRisk(rules, s) && Dropped(rules, [".*"], s)
  {
    var rules := Rules((t: string) => t, (pattern: string, text: string) => Some(true));
    hide Contains;
    ContainsSelf(s.message);
    LacksFirst(s.message, "coroutine");
    LacksFirst(s.message, "unclosed event loop");
    assert Unguarded(rules, s) && IsHighRisk(rules, s);
    assert ".*" in [".*"] && Matches(rules, ".*", s);
  }
}
