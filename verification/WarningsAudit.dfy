/** Totals and the CI gate (`build_audit_result` and `check_gate_conditions` in
    `backend/scripts/warnings_audit.py`). */
module WarningsAudit {
  import opened Collections
  import opened Sums
  import opened Ranking
  import opened Text
  import opened WarningsLog
  import G = WarningsAggregate
  import opened WarningsFilter

  type Signature = G.Signature

  const TOP_FILES := 20

  /** A name with its number of warnings. */
  type Entry = (string, nat)

  datatype AuditResult = AuditResult(
    total: nat, unique: nat, ours: nat, thirdParty: nat, highRisk: nat,
    categories: seq<Entry>, signatures: seq<Signature>, highRiskSignatures: seq<Signature>,
    topFiles: seq<Entry>, filteredNoise: nat)

  function CategoryOf(s: Signature): string { s.category }

  function FileOf(s: Signature): string { s.file }

  predicate IsOurs(s: Signature) { s.origin == Our }

  predicate IsThirdParty(s: Signature) { s.origin == ThirdParty }

  function Number(e: Entry): nat { e.1 }

  // ---------------------------------------------------------------------- tallies

  /** `counts[key(s)] += s.count` over the first n signatures. */
  function Tally(vs: seq<Signature>, key: Signature -> string, n: nat): Dict<string, nat>
    requires n <= |vs|
  {
    if n == 0 then EmptyDict() else Bump(Tally(vs, key, n - 1), key(vs[n - 1]), vs[n - 1].count)
  }

  method BuildTally(vs: seq<Signature>, key: Signature -> string) returns (counts: Dict<string, nat>)
    ensures counts == Tally(vs, key, |vs|)
  {
    counts := EmptyDict();
    for i := 0 to |vs|
      invariant counts == Tally(vs, key, i)
    {
      counts := Bump(counts, key(vs[i]), vs[i].count);
    }
  }

  predicate HasKey(key: Signature -> string, k: string, s: Signature) { key(s) == k }

  /** The count that the tally shows for a key. */
  function Shown(d: Dict<string, nat>, k: string): nat {
    if k in d.at then d.at[k] else 0
  }

  /** Every entry is the number of warnings with that key. */
  lemma {:induction false} TallyEntry(vs: seq<Signature>, key: Signature -> string, n: nat, k: string)
    requires n <= |vs|
    ensures Shown(Tally(vs, key, n), k) == Sum(vs[..n], G.Where(s => HasKey(key, k, s)))
    decreases n
  {
    if n > 0 {
      TallyEntry(vs, key, n - 1, k);
      assert vs[..n] == vs[..n - 1] + [vs[n - 1]];
      SumSnoc(vs[..n - 1], vs[n - 1], G.Where(s => HasKey(key, k, s)));
    }
  }

  /** A key has an entry if and only if a signature has the key. */
  lemma {:induction false} TallyKeys(vs: seq<Signature>, key: Signature -> string, n: nat, k: string)
    requires n <= |vs|
    ensures k in Tally(vs, key, n).at <==> exists i :: 0 <= i < n && key(vs[i]) == k
    decreases n
  {
    if n > 0 {
      TallyKeys(vs, key, n - 1, k);
    }
  }

  lemma {:induction false} TallyValid(vs: seq<Signature>, key: Signature -> string, n: nat)
    requires n <= |vs|
    ensures Tally(vs, key, n).Valid()
    decreases n
  {
    if n > 0 {
      TallyValid(vs, key, n - 1);
      var d, s := Tally(vs, key, n - 1), vs[n - 1];
      d.PutValid(key(s), Shown(d, key(s)) + s.count);
    }
  }

  /** The entries of a tally sum to the number of warnings. */
  lemma {:induction false} TallyTotal(vs: seq<Signature>, key: Signature -> string, n: nat)
    requires n <= |vs|
    ensures Sum(Vals(Tally(vs, key, n)), Identity) == Sum(vs[..n], G.Count)
    decreases n
  {
    hide Bump, Dict.Valid;
    if n > 0 {
      TallyTotal(vs, key, n - 1);
      TallyValid(vs, key, n - 1);
      BumpAdds(Tally(vs, key, n - 1), key(vs[n - 1]), vs[n - 1].count);
      assert vs[..n] == vs[..n - 1] + [vs[n - 1]];
      SumSnoc(vs[..n - 1], vs[n - 1], G.Count);
    }
  }

  /** `d.items()` */
  function ItemsAt(keys: seq<string>, at: map<string, nat>): seq<Entry> {
    if keys == [] then []
    else
      var init, k := ItemsAt(keys[..|keys| - 1], at), keys[|keys| - 1];
      if k in at then init + [(k, at[k])] else init
  }

  function Items(d: Dict<string, nat>): seq<Entry> {
    ItemsAt(d.keys, d.at)
  }

  lemma {:induction false} ItemsSum(keys: seq<string>, at: map<string, nat>)
    ensures Sum(ItemsAt(keys, at), Number) == Sum(ValuesAt(keys, at), Identity)
    decreases |keys|
  {
    if keys != [] {
      ItemsSum(keys[..|keys| - 1], at);
    }
  }

  // ------------------------------------------------------------------- the result

  function Chosen(vs: seq<Signature>, p: Signature -> bool): seq<Signature> {
    if vs == [] then []
    else
      var init, s := Chosen(vs[..|vs| - 1], p), vs[|vs| - 1];
      if p(s) then init + [s] else init
  }

  lemma {:induction false} ChosenSum(vs: seq<Signature>, p: Signature -> bool)
    ensures Sum(Chosen(vs, p), G.Count) == Sum(vs, G.Where(p))
    decreases |vs|
  {
    if vs != [] {
      ChosenSum(vs[..|vs| - 1], p);
    }
  }

  function Audit(rules: Rules, vs: seq<Signature>, filteredNoise: nat): AuditResult {
    AuditResult(
      Sum(vs, G.Count), |vs|, Sum(vs, G.Where(IsOurs)), Sum(vs, G.Where(IsThirdParty)),
      Sum(Chosen(vs, s => IsHighRisk(rules, s)), G.Count),
      Ranked(Items(Tally(vs, CategoryOf, |vs|)), Number),
      Ranked(vs, G.Count),
      Ranked(Chosen(vs, s => IsHighRisk(rules, s)), G.Count),
      G.Prefix(Ranked(Items(Tally(vs, FileOf, |vs|)), Number), TOP_FILES),
      filteredNoise)
  }

  /** The origins, the categories and the files each account for every warning. */
  lemma AuditAddsUp(rules: Rules, vs: seq<Signature>, filteredNoise: nat)
    ensures var r := Audit(rules, vs, filteredNoise);
      && r.ours + r.thirdParty == r.total
      && Sum(r.categories, Number) == r.total
      && Sum(Vals(Tally(vs, FileOf, |vs|)), Identity) == r.total
      && Sum(r.signatures, G.Count) == r.total
      && r.highRisk == Sum(r.highRiskSignatures, G.Count) == Sum(vs, G.Where(s => IsHighRisk(rules, s)))
  {
    hide Sum, Ranked, Tally, ItemsAt, ValuesAt, Chosen, IsHighRisk;
    SumSplit(vs, G.Count, G.Where(IsOurs), G.Where(IsThirdParty));
    var categories := Tally(vs, CategoryOf, |vs|);
    CutAtEnd(vs);
    TallyTotal(vs, CategoryOf, |vs|);
    TallyTotal(vs, FileOf, |vs|);
    RankedSum(Items(categories), Number, Number);
    ItemsSum(categories.keys, categories.at);
    RankedSum(vs, G.Count, G.Count);
    var highRisk := Chosen(vs, s => IsHighRisk(rules, s));
    RankedSum(highRisk, G.Count, G.Count);
    ChosenSum(vs, s => IsHighRisk(rules, s));
  }

  /** Every total accounts for the same warnings; the listed signatures are the given
      ones, those with most warnings first. */
  method BuildAuditResult(rules: Rules, signatures: Dict<string, Signature>, filteredNoise: nat) returns (r: AuditResult)
    ensures r == Audit(rules, Vals(signatures), filteredNoise)
    ensures r.total == Sum(Vals(signatures), G.Count) && r.filteredNoise == filteredNoise
    ensures r.ours + r.thirdParty == r.total && Sum(r.categories, Number) == r.total && Sum(r.signatures, G.Count) == r.total
    ensures r.highRisk == Sum(r.highRiskSignatures, G.Count) == Sum(Vals(signatures), G.Where(s => IsHighRisk(rules, s)))
    ensures multiset(r.signatures) == multiset(Vals(signatures)) && Descends(r.signatures, G.Count)
    ensures |r.topFiles| <= TOP_FILES && Sum(r.topFiles, Number) <= r.total
  {
    hide Ranked, Tally, ItemsAt, ValuesAt, Chosen, IsHighRisk, Sum;
    var vs := Vals(signatures);
    var total := Sum(vs, G.Count);
    var ours, thirdParty := Sum(vs, G.Where(IsOurs)), Sum(vs, G.Where(IsThirdParty));
    var categories := BuildTally(vs, CategoryOf);
    var highRisk := Chosen(vs, s => IsHighRisk(rules, s));
    var files := BuildTally(vs, FileOf);
    var topFiles := G.Prefix(Ranked(Items(files), Number), TOP_FILES);
    r := AuditResult(total, |vs|, ours, thirdParty, Sum(highRisk, G.Count), Ranked(Items(categories), Number),
                     Ranked(vs, G.Count), Ranked(highRisk, G.Count), topFiles, filteredNoise);
    AuditAddsUp(rules, vs, filteredNoise);
    RankedIsStable(vs, G.Count, 0);
    TopFilesSum(vs);
  }

  /** The top files have no more warnings than there are. */
  lemma TopFilesSum(vs: seq<Signature>)
    ensures Sum(G.Prefix(Ranked(Items(Tally(vs, FileOf, |vs|)), Number), TOP_FILES), Number) <= Sum(vs, G.Count)
  {
    hide Ranked, Tally, ItemsAt, ValuesAt, Sum;
    var files := Tally(vs, FileOf, |vs|);
    var all := Ranked(Items(files), Number);
    CutAtEnd(vs);
    TallyTotal(vs, FileOf, |vs|);
    RankedSum(Items(files), Number, Number);
    ItemsSum(files.keys, files.at);
    if |all| > TOP_FILES {
      assert all == all[..TOP_FILES] + all[TOP_FILES..];
      SumConcat(all[..TOP_FILES], all[TOP_FILES..], Number);
    }
  }

  /** No file that is left out of the top files has more warnings than one in them. */
  lemma TopFilesAreTop(rules: Rules, vs: seq<Signature>, filteredNoise: nat, i: nat, j: nat)
    requires var top, all := Audit(rules, vs, filteredNoise).topFiles, Ranked(Items(Tally(vs, FileOf, |vs|)), Number);
      i < |top| && |top| <= j < |all|
    ensures var top, all := Audit(rules, vs, filteredNoise).topFiles, Ranked(Items(Tally(vs, FileOf, |vs|)), Number);
      |top| == TOP_FILES && multiset(all) == multiset(Items(Tally(vs, FileOf, |vs|))) && top[i].1 >= all[j].1
  {
    hide Ranked, Tally, Items, Chosen, Sum;
    var files := Items(Tally(vs, FileOf, |vs|));
    RankedIsStable(files, Number, 0);
    assert Number(Ranked(files, Number)[i]) >= Number(Ranked(files, Number)[j]);
  }

  // --------------------------------------------------------------------- the gate

  function Removals(): set<string> {
    {"PytestRemovedIn9Warning", "PytestDeprecationWarning"}
  }

  predicate IsPytestRemoval(s: Signature) {
    s.category in Removals()
  }

  predicate IsUnawaited(rules: Rules, s: Signature) {
    s.category == "RuntimeWarning" && Contains(rules.lower(s.message), "coroutine")
  }

  predicate IsOurSqlAlchemy(s: Signature) {
    s.category in {"SAWarning", "RemovedIn20Warning"} && s.origin == Our
  }

  datatype Condition = PytestRemoval | Coroutine | SqlAlchemy

  function Title(c: Condition): string {
    match c
    case PytestRemoval => "PytestRemovedIn9Warning/PytestDeprecationWarning"
    case Coroutine => "RuntimeWarning (coroutine never awaited)"
    case SqlAlchemy => "SQLAlchemy warnings in our code"
  }

  function Failure(decimal: int -> string, c: Condition, n: nat): seq<string> {
    if n > 0 then [Title(c) + ": " + decimal(n) + " warnings"] else []
  }

  function Failures(rules: Rules, decimal: int -> string, signatures: seq<Signature>): seq<string> {
    Failure(decimal, PytestRemoval, Sum(signatures, G.Where(IsPytestRemoval)))
    + Failure(decimal, Coroutine, Sum(signatures, G.Where(s => IsUnawaited(rules, s))))
    + Failure(decimal, SqlAlchemy, Sum(signatures, G.Where(IsOurSqlAlchemy)))
  }

  method CheckGateConditions(rules: Rules, decimal: int -> string, r: AuditResult) returns (passed: bool, failures: seq<string>)
    ensures failures == Failures(rules, decimal, r.signatures) && (passed <==> failures == [])
  {
    failures := [];
    var pytestRemoved := Sum(r.signatures, G.Where(IsPytestRemoval));
    if pytestRemoved > 0 {
      failures := failures + [Title(PytestRemoval) + ": " + decimal(pytestRemoved) + " warnings"];
    }
    var unawaited := Sum(r.signatures, G.Where(s => IsUnawaited(rules, s)));
    if unawaited > 0 {
      failures := failures + [Title(Coroutine) + ": " + decimal(unawaited) + " warnings"];
    }
    var ours := Sum(r.signatures, G.Where(IsOurSqlAlchemy));
    if ours > 0 {
      failures := failures + [Title(SqlAlchemy) + ": " + decimal(ours) + " warnings"];
    }
    passed := |failures| == 0;
  }

  // --------------------------------------------------------------- the whole pipeline

  /** Group, filter, total. */
  function Report(env: G.Env, rules: Rules, warnings: seq<Warning>, allowlist: seq<string>): AuditResult {
    var d := G.Grouped(env, warnings, |warnings|);
    G.GroupedValid(env, warnings, |warnings|);
    Audit(rules, Vals(Kept(rules, allowlist, d, |d.keys|)), Sum(Vals(d), Lost(rules, allowlist, G.Count)))
  }

  method RunAudit(env: G.Env, rules: Rules, warnings: seq<Warning>, allowlist: seq<string>) returns (r: AuditResult)
    ensures r == Report(env, rules, warnings, allowlist)
    ensures r.total + r.filteredNoise == |warnings|
  {
    hide Audit, Kept, Sum, Vals, G.Grouped;
    var signatures := G.AggregateWarnings(env, warnings);
    var filtered, noise := ApplyNoiseFilter(rules, signatures, allowlist);
    r := BuildAuditResult(rules, filtered, noise);
    NoWarningIsLost(env, rules, warnings, allowlist);
  }

  /** Every parsed warning is in the total or in the filtered noise, once. */
  lemma NoWarningIsLost(env: G.Env, rules: Rules, warnings: seq<Warning>, allowlist: seq<string>)
    ensures var r := Report(env, rules, warnings, allowlist); r.total + r.filteredNoise == |warnings|
  {
    hide Kept, Sum, Vals, G.Grouped, Ranked, Tally, Chosen;
    var d := G.Grouped(env, warnings, |warnings|);
    G.GroupedValid(env, warnings, |warnings|);
    G.GroupsConserve(env, warnings, |warnings|);
    FilterConserves(rules, allowlist, d, G.Count);
  }

  /** A count over protected signatures comes out the same for every allowlist. */
  lemma GuardedCount(env: G.Env, rules: Rules, warnings: seq<Warning>, allowlist: seq<string>, p: Signature -> bool)
    requires forall s: Signature :: p(s) ==> Protected(rules, s)
    ensures Sum(Report(env, rules, warnings, allowlist).signatures, G.Where(p))
      == Sum(Vals(G.Grouped(env, warnings, |warnings|)), G.Where(p))
  {
    hide Kept, Sum, Vals, G.Grouped, Ranked, Tally, Chosen, Protected;
    var d := G.Grouped(env, warnings, |warnings|);
    G.GroupedValid(env, warnings, |warnings|);
    FilterConserves(rules, allowlist, d, G.Where(p));
    ProtectedIsKept(rules, allowlist, Vals(d), G.Where(p));
    RankedSum(Vals(Kept(rules, allowlist, d, |d.keys|)), G.Count, G.Where(p));
  }

  lemma GateIsGuarded(rules: Rules, s: Signature)
    ensures IsPytestRemoval(s) || IsUnawaited(rules, s) || IsOurSqlAlchemy(s) ==> Protected(rules, s)
  {
    hide Contains;
  }

  /** The gate fails with the same messages whatever the allowlist: those for the
      unfiltered signatures. */
  lemma GateIgnoresAllowlist(env: G.Env, rules: Rules, decimal: int -> string, warnings: seq<Warning>, allowlist: seq<string>)
    ensures Failures(rules, decimal, Report(env, rules, warnings, allowlist).signatures)
      == Failures(rules, decimal, Vals(G.Grouped(env, warnings, |warnings|)))
  {
    forall s ensures IsPytestRemoval(s) || IsUnawaited(rules, s) || IsOurSqlAlchemy(s) ==> Protected(rules, s) {
      GateIsGuarded(rules, s);
    }
    hide Report, Protected, Sum, Vals, G.Grouped, IsPytestRemoval, IsOurSqlAlchemy, IsUnawaited, Failure;
    GuardedCount(env, rules, warnings, allowlist, IsPytestRemoval);
    GuardedCount(env, rules, warnings, allowlist, s => IsUnawaited(rules, s));
    GuardedCount(env, rules, warnings, allowlist, IsOurSqlAlchemy);
  }

  lemma RemovalsCounted(env: G.Env, warnings: seq<Warning>)
    requires G.Injective(env.digest)
    requires forall w: Warning :: w in warnings ==> '|' !in w.category
    ensures Sum(Vals(G.Grouped(env, warnings, |warnings|)), G.Where(IsPytestRemoval)) == G.Having(warnings, Removals(), |warnings|)
  {
    hide G.Injective, G.Grouped, G.Having, G.SignatureId, Sum, Vals, Removals;
    G.CategoriesConserve(env, warnings, Removals(), |warnings|);
    SumSame(Vals(G.Grouped(env, warnings, |warnings|)), G.Where(IsPytestRemoval), G.Where(G.InCategories(Removals())));
  }

  /** From the log to the gate: with collision-free digests, the gate reports exactly
      the number of parsed pytest removal warnings, whatever the allowlist. */
  lemma GateSeesEveryRemoval(env: G.Env, rules: Rules, decimal: int -> string, warnings: seq<Warning>, allowlist: seq<string>)
    requires G.Injective(env.digest)
    requires forall w: Warning :: w in warnings ==> '|' !in w.category
    ensures Failure(decimal, PytestRemoval, G.Having(warnings, Removals(), |warnings|))
      <= Failures(rules, decimal, Report(env, rules, warnings, allowlist).signatures)
  {
    hide G.Injective, Report, Sum, Vals, G.Grouped, G.Having, Failure, Removals;
    GateIgnoresAllowlist(env, rules, decimal, warnings, allowlist);
    RemovalsCounted(env, warnings);
  }
}
