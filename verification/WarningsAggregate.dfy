/** Grouping parsed warnings by signature (`aggregate_warnings` in
    `backend/scripts/warnings_audit.py`). */
module WarningsAggregate {
  import opened Collections
  import opened Sums
  import opened WarningsLog

  /** What the grouping calls: the normalisation of messages, the decimal notation of a
      line number and the shortened hash of a signature key. */
  datatype Env = Env(normalize: string -> string, decimal: int -> string, digest: string -> string)

  datatype Signature = Signature(
    id: string, category: string, message: string, messageFull: string, file: string, line: int,
    moduleName: string, origin: Origin, count: nat, example: string, contexts: seq<string>)

  const MAX_CONTEXTS := 5

  function Prefix<T>(s: seq<T>, n: nat): seq<T> {
    if |s| <= n then s else s[..n]
  }

  function SignatureKey(env: Env, w: Warning): string {
    w.category + "|" + (env.normalize(w.message) + "|" + w.file + "|" + env.decimal(w.line))
  }

  function SignatureId(env: Env, w: Warning): string {
    env.digest(SignatureKey(env, w))
  }

  function NewSignature(env: Env, w: Warning): Signature {
    Signature(SignatureId(env, w), w.category, Prefix(env.normalize(w.message), 200), Prefix(w.rawText, 1000),
              w.file, w.line, w.moduleName, w.origin, 0, Prefix(w.rawText, 500), [])
  }

  function AddContext(contexts: seq<string>, context: string): seq<string> {
    if context != "" && context !in contexts && |contexts| < MAX_CONTEXTS then contexts + [context] else contexts
  }

  function Counted(s: Signature, w: Warning): Signature {
    s.(count := s.count + 1, contexts := AddContext(s.contexts, w.testContext))
  }

  function Tallied(env: Env, groups: Dict<string, Signature>, w: Warning): Dict<string, Signature> {
    var id := SignatureId(env, w);
    groups.Put(id, Counted(if id in groups.at then groups.at[id] else NewSignature(env, w), w))
  }

  lemma TalliedAt(env: Env, groups: Dict<string, Signature>, w: Warning, id: string)
    ensures var after := Tallied(env, groups, w);
      if SignatureId(env, w) == id
      then id in after.at && after.at[id] == Counted(if id in groups.at then groups.at[id] else NewSignature(env, w), w)
      else (id in after.at <==> id in groups.at) && (id in groups.at ==> after.at[id] == groups.at[id])
  {
    hide SignatureId, Counted, NewSignature;
  }

  /** The groups of the first n warnings. */
  function Grouped(env: Env, warnings: seq<Warning>, n: nat): (groups: Dict<string, Signature>)
    requires n <= |warnings|
  {
    if n == 0 then EmptyDict() else Tallied(env, Grouped(env, warnings, n - 1), warnings[n - 1])
  }

  lemma {:induction false} GroupedValid(env: Env, warnings: seq<Warning>, n: nat)
    requires n <= |warnings|
    ensures Grouped(env, warnings, n).Valid()
    decreases n
  {
    if n > 0 {
      hide SignatureId, Counted, NewSignature;
      GroupedValid(env, warnings, n - 1);
      var groups, w := Grouped(env, warnings, n - 1), warnings[n - 1];
      var id := SignatureId(env, w);
      groups.PutValid(id, Counted(if id in groups.at then groups.at[id] else NewSignature(env, w), w));
    }
  }

  /** A new signature is stored before it is counted; that comes to the same. */
  lemma StoredTwice(env: Env, groups: Dict<string, Signature>, w: Warning)
    ensures var id := SignatureId(env, w);
      var stored := if id in groups.at then groups else groups.Put(id, NewSignature(env, w));
      id in stored.at && stored.Put(id, Counted(stored.at[id], w)) == Tallied(env, groups, w)
  {
    hide SignatureId, NewSignature, AddContext;
    var id := SignatureId(env, w);
    if id !in groups.at {
      var a, b := NewSignature(env, w), Counted(NewSignature(env, w), w);
      assert groups.at[id := a][id := b] == groups.at[id := b];
    }
  }

  method AggregateWarnings(env: Env, warnings: seq<Warning>) returns (signatures: Dict<string, Signature>)
    ensures signatures.Valid()
    ensures signatures == Grouped(env, warnings, |warnings|)
  {
    hide SignatureId, NewSignature, Tallied;
    signatures := EmptyDict();
    for i := 0 to |warnings|
      invariant signatures == Grouped(env, warnings, i)
    {
      var w := warnings[i];
      var id := SignatureId(env, w);
      StoredTwice(env, signatures, w);
      if id !in signatures.at {
        signatures := signatures.Put(id, NewSignature(env, w));
      }
      var s := signatures.at[id];
      s := s.(count := s.count + 1);
      if w.testContext != "" && w.testContext !in s.contexts {
        if |s.contexts| < MAX_CONTEXTS {
          s := s.(contexts := s.contexts + [w.testContext]);
        }
      }
      signatures := signatures.Put(id, s);
    }
    GroupedValid(env, warnings, |warnings|);
  }

  // ------------------------------------------------------------- one group at a time

  /** How many of the first n warnings have the signature. */
  function CountOf(env: Env, warnings: seq<Warning>, id: string, n: nat): nat
    requires n <= |warnings|
  {
    if n == 0 then 0
    else CountOf(env, warnings, id, n - 1) + if SignatureId(env, warnings[n - 1]) == id then 1 else 0
  }

  /** The distinct test contexts of a signature, in order. */
  function ContextsOf(env: Env, warnings: seq<Warning>, id: string, n: nat): seq<string>
    requires n <= |warnings|
  {
    if n == 0 then []
    else
      var before, w := ContextsOf(env, warnings, id, n - 1), warnings[n - 1];
      if SignatureId(env, w) == id && w.testContext != "" && w.testContext !in before then before + [w.testContext] else before
  }

  /** Stopping at five contexts keeps the first five. */
  lemma FirstContexts(all: seq<string>, context: string)
    ensures AddContext(Prefix(all, MAX_CONTEXTS), context) ==
      Prefix(if context != "" && context !in all then all + [context] else all, MAX_CONTEXTS)
  {
    if |all| >= MAX_CONTEXTS {
      assert (all + [context])[..MAX_CONTEXTS] == all[..MAX_CONTEXTS];
    }
  }

  /** A signature is listed if and only if a warning has it, with the number of those
      warnings and the first five distinct tests they were seen in. */
  lemma {:induction false} GroupCounts(env: Env, warnings: seq<Warning>, id: string, n: nat)
    requires n <= |warnings|
    ensures var groups := Grouped(env, warnings, n);
      && (id in groups.at <==> CountOf(env, warnings, id, n) > 0)
      && (id in groups.at ==>
            && groups.at[id].count == CountOf(env, warnings, id, n)
            && groups.at[id].contexts == Prefix(ContextsOf(env, warnings, id, n), MAX_CONTEXTS))
      && (id !in groups.at ==> ContextsOf(env, warnings, id, n) == [])
    decreases n
  {
    if n > 0 {
      GroupCounts(env, warnings, id, n - 1);
      TalliedAt(env, Grouped(env, warnings, n - 1), warnings[n - 1], id);
      hide SignatureId, AddContext, Tallied, Prefix;
      FirstContexts(ContextsOf(env, warnings, id, n - 1), warnings[n - 1].testContext);
    }
  }

  /** The signature describes the warning, with its texts cut to their limits. */
  ghost predicate IsAbout(env: Env, s: Signature, w: Warning) {
    && s.id == SignatureId(env, w) && s.category == w.category && s.file == w.file && s.line == w.line
    && s.moduleName == w.moduleName && s.origin == w.origin
    && s.message <= env.normalize(w.message) && (|s.message| == 200 || s.message == env.normalize(w.message))
    && s.messageFull <= w.rawText && (|s.messageFull| == 1000 || s.messageFull == w.rawText)
    && s.example <= w.rawText && (|s.example| == 500 || s.example == w.rawText)
  }

  lemma NewIsAbout(env: Env, w: Warning)
    ensures IsAbout(env, NewSignature(env, w), w)
  {
  }

  /** The first warning with a signature supplies everything but count and contexts. */
  lemma {:induction false} GroupIsFirstSeen(env: Env, warnings: seq<Warning>, id: string, n: nat) returns (i: nat)
    requires n <= |warnings| && id in Grouped(env, warnings, n).at
    ensures i < n && SignatureId(env, warnings[i]) == id
    ensures forall j :: 0 <= j < i ==> SignatureId(env, warnings[j]) != id
    ensures var s := Grouped(env, warnings, n).at[id];
      s == NewSignature(env, warnings[i]).(count := s.count, contexts := s.contexts)
    ensures IsAbout(env, Grouped(env, warnings, n).at[id], warnings[i])
    decreases n
  {
    TalliedAt(env, Grouped(env, warnings, n - 1), warnings[n - 1], id);
    hide SignatureId, AddContext, NewSignature, Tallied;
    if id in Grouped(env, warnings, n - 1).at {
      i := GroupIsFirstSeen(env, warnings, id, n - 1);
    } else {
      i := n - 1;
      NewIsAbout(env, warnings[i]);
      forall j | 0 <= j < i ensures SignatureId(env, warnings[j]) != id {
        SeenIsListed(env, warnings, j, n - 1);
      }
      assert SignatureId(env, warnings[i]) == id;
    }
  }

  lemma {:induction false} SeenIsListed(env: Env, warnings: seq<Warning>, j: nat, n: nat)
    requires j < n <= |warnings|
    ensures SignatureId(env, warnings[j]) in Grouped(env, warnings, n).at
    decreases n
  {
    TalliedAt(env, Grouped(env, warnings, n - 1), warnings[n - 1], SignatureId(env, warnings[j]));
    hide SignatureId, Counted, NewSignature, Tallied;
    if j < n - 1 {
      SeenIsListed(env, warnings, j, n - 1);
    }
  }

  function Count(s: Signature): nat { s.count }

  /** The signature that a warning is counted under, as it stands afterwards. */
  function After(env: Env, groups: Dict<string, Signature>, w: Warning): Signature {
    var id := SignatureId(env, w);
    Counted(if id in groups.at then groups.at[id] else NewSignature(env, w), w)
  }

  lemma TalliedSum(env: Env, groups: Dict<string, Signature>, w: Warning, f: Signature -> nat)
    requires groups.Valid()
    ensures var id := SignatureId(env, w);
      Sum(Vals(Tallied(env, groups, w)), f) + (if id in groups.at then f(groups.at[id]) else 0)
      == Sum(Vals(groups), f) + f(After(env, groups, w))
  {
    hide SignatureId, Counted, NewSignature, Sum, Vals, Dict.Valid, Dict.Put;
    ValsPut(groups, SignatureId(env, w), After(env, groups, w), f);
  }

  /** No warning is lost and none is counted twice, even when digests collide. */
  lemma {:induction false} GroupsConserve(env: Env, warnings: seq<Warning>, n: nat)
    requires n <= |warnings|
    ensures Sum(Vals(Grouped(env, warnings, n)), Count) == n
    decreases n
  {
    if n > 0 {
      GroupsConserve(env, warnings, n - 1);
      GroupedValid(env, warnings, n - 1);
      TalliedSum(env, Grouped(env, warnings, n - 1), warnings[n - 1], Count);
      hide SignatureId, AddContext, Tallied, Sum, Vals, Dict.Valid;
    }
  }

  // -------------------------------------------------------------- what a key determines

  ghost predicate Injective(digest: string -> string) {
    forall a: string, b: string :: digest(a) == digest(b) ==> a == b
  }

  lemma {:induction false} BarSplits(a: string, b: string, x: string, y: string)
    requires '|' !in a && '|' !in b
    requires a + "|" + x == b + "|" + y
    ensures a == b && x == y
    decreases |a|
  {
    var s, t := a + "|" + x, b + "|" + y;
    assert s[|a|] == '|' && t[|b|] == '|';
    assert forall i :: 0 <= i < |a| ==> s[i] == a[i];
    assert forall i :: 0 <= i < |b| ==> t[i] == b[i];
    assert |a| == |b|;
    assert s[..|a|] == a && t[..|b|] == b;
    assert s[|a| + 1..] == x && t[|b| + 1..] == y;
  }

  /** Warnings of one signature have one category, whatever is in their files: the pattern
      for a category admits no bar. */
  lemma SameSignature(env: Env, v: Warning, w: Warning)
    requires Injective(env.digest) && SignatureId(env, v) == SignatureId(env, w)
    requires '|' !in v.category && '|' !in w.category
    ensures v.category == w.category
    ensures env.normalize(v.message) + "|" + v.file + "|" + env.decimal(v.line)
      == env.normalize(w.message) + "|" + w.file + "|" + env.decimal(w.line)
  {
    var x := env.normalize(v.message) + "|" + v.file + "|" + env.decimal(v.line);
    var y := env.normalize(w.message) + "|" + w.file + "|" + env.decimal(w.line);
    assert v.category + "|" + x == SignatureKey(env, v) && w.category + "|" + y == SignatureKey(env, w);
    BarSplits(v.category, w.category, x, y);
  }

  lemma {:induction false} LastBarSplits(a: string, b: string, x: string, y: string)
    requires '|' !in x && '|' !in y
    requires a + "|" + x == b + "|" + y
    ensures a == b && x == y
    decreases |x|
  {
    var s, t := a + "|" + x, b + "|" + y;
    assert s[|a|] == '|' && t[|b|] == '|';
    assert forall i :: |a| < i < |s| ==> s[i] == x[i - |a| - 1];
    assert forall i :: |b| < i < |t| ==> t[i] == y[i - |b| - 1];
    assert |a| == |b|;
    assert s[..|a|] == a && t[..|b|] == b;
    assert s[|a| + 1..] == x && t[|b| + 1..] == y;
  }

  /** What the patterns guarantee: neither a category nor a line number holds a bar. */
  predicate Parsed(env: Env, w: Warning) {
    '|' !in w.category && '|' !in env.decimal(w.line)
  }

  /** The file of v ends in that of w after a bar, and the message of w goes on with what
      is before it. */
  ghost predicate Absorbs(env: Env, v: Warning, w: Warning) {
    exists x: string :: v.file == x + "|" + w.file && env.normalize(w.message) == env.normalize(v.message) + "|" + x
  }

  /** What a signature determines, exactly: two warnings share it if and only if category
      and line agree, and message and file agree or one file absorbs a piece of the
      other's message at a bar. */
  lemma SharedSignature(env: Env, v: Warning, w: Warning)
    requires Injective(env.digest) && Parsed(env, v) && Parsed(env, w)
    ensures SignatureId(env, v) == SignatureId(env, w) <==>
      && v.category == w.category && env.decimal(v.line) == env.decimal(w.line)
      && ((v.file == w.file && env.normalize(v.message) == env.normalize(w.message)) || Absorbs(env, v, w) || Absorbs(env, w, v))
  {
    var m, n := env.normalize(v.message), env.normalize(w.message);
    if SignatureId(env, v) == SignatureId(env, w) {
      SameSignature(env, v, w);
      LastBarSplits(m + "|" + v.file, n + "|" + w.file, env.decimal(v.line), env.decimal(w.line));
      if |v.file| >= |w.file| {
        Absorbed(env, v, w);
      } else {
        Absorbed(env, w, v);
      }
    } else {
      assert !(m + "|" + v.file == n + "|" + w.file && v.category == w.category && env.decimal(v.line) == env.decimal(w.line));
      hide SignatureId, Injective, Parsed;
      if Absorbs(env, v, w) {
        AbsorbingIsSame(env, v, w);
      }
      if Absorbs(env, w, v) {
        AbsorbingIsSame(env, w, v);
      }
    }
  }

  lemma AbsorbingIsSame(env: Env, v: Warning, w: Warning)
    requires Absorbs(env, v, w)
    ensures env.normalize(v.message) + "|" + v.file == env.normalize(w.message) + "|" + w.file
  {
    var m := env.normalize(v.message);
    var x: string :| v.file == x + "|" + w.file && env.normalize(w.message) == m + "|" + x;
    assert m + "|" + (x + "|" + w.file) == m + "|" + x + "|" + w.file;
  }

  lemma Absorbed(env: Env, v: Warning, w: Warning)
    requires env.normalize(v.message) + "|" + v.file == env.normalize(w.message) + "|" + w.file
    requires |v.file| >= |w.file|
    ensures (v.file == w.file && env.normalize(v.message) == env.normalize(w.message)) || Absorbs(env, v, w)
  {
    var x := TwoSplits(env.normalize(v.message), v.file, env.normalize(w.message), w.file);
  }

  /** One text cut at two bars: the piece between them. */
  lemma TwoSplits(a: string, f: string, b: string, g: string) returns (x: string)
    requires a + "|" + f == b + "|" + g && |f| >= |g|
    ensures (a == b && f == g) || (f == x + "|" + g && b == a + "|" + x)
  {
    var s := a + "|" + f;
    assert |b| >= |a|;
    assert s[..|a|] == a && s[|a| + 1..] == f && s[|a|] == '|';
    assert s == b + "|" + g;
    assert s[..|b|] == b && s[|b| + 1..] == g && s[|b|] == '|';
    x := "";
    if |b| > |a| {
      x := Between(s, |a| + 1, |b|);
    }
  }

  lemma Between(s: string, p: nat, q: nat) returns (x: string)
    requires 1 <= p <= q < |s|
    ensures s[p..] == x + [s[q]] + s[q + 1..] && s[..q] == s[..p - 1] + [s[p - 1]] + x
  {
    x := s[p..q];
  }

  /** Files without bars are told apart. */
  lemma SignatureDetermines(env: Env, v: Warning, w: Warning)
    requires Injective(env.digest) && Parsed(env, v) && Parsed(env, w) && '|' !in v.file && '|' !in w.file
    ensures SignatureId(env, v) == SignatureId(env, w) <==>
      && v.category == w.category && env.normalize(v.message) == env.normalize(w.message)
      && v.file == w.file && env.decimal(v.line) == env.decimal(w.line)
  {
    hide SignatureId, Injective;
    SharedSignature(env, v, w);
    BarInAbsorbing(env, v, w);
    BarInAbsorbing(env, w, v);
  }

  lemma BarInAbsorbing(env: Env, v: Warning, w: Warning)
    ensures Absorbs(env, v, w) ==> '|' in v.file
  {
    if x: string :| v.file == x + "|" + w.file {
      assert v.file[|x|] == '|';
    }
  }

  /** A bar in a file name is enough for a collision. */
  lemma FilesCanCollide(env: Env, v: Warning, w: Warning, x: string)
    requires v.category == w.category && v.line == w.line && v.file == x + "|" + w.file
    requires env.normalize(w.message) == env.normalize(v.message) + "|" + x
    ensures v.file != w.file && SignatureId(env, v) == SignatureId(env, w)
  {
    AbsorbingIsSame(env, v, w);
    assert |v.file| > |w.file|;
  }

  /** The count of a signature that p accepts. */
  function Part(p: Signature -> bool, s: Signature): nat {
    if p(s) then s.count else 0
  }

  function Where(p: Signature -> bool): Signature -> nat {
    s => Part(p, s)
  }

  /** How many of the first n warnings have one of the categories. */
  function Having(warnings: seq<Warning>, categories: set<string>, n: nat): nat
    requires n <= |warnings|
  {
    if n == 0 then 0 else Having(warnings, categories, n - 1) + if warnings[n - 1].category in categories then 1 else 0
  }

  lemma GroupCategory(env: Env, warnings: seq<Warning>, n: nat)
    requires Injective(env.digest) && 0 < n <= |warnings|
    requires forall w: Warning :: w in warnings ==> '|' !in w.category
    ensures var groups, id := Grouped(env, warnings, n - 1), SignatureId(env, warnings[n - 1]);
      id in groups.at ==> groups.at[id].category == warnings[n - 1].category
  {
    hide SignatureId, Grouped;
    var groups, id := Grouped(env, warnings, n - 1), SignatureId(env, warnings[n - 1]);
    if id in groups.at {
      var i := GroupIsFirstSeen(env, warnings, id, n - 1);
      SameSignature(env, warnings[i], warnings[n - 1]);
    }
  }

  function InCategories(categories: set<string>): Signature -> bool {
    (s: Signature) => s.category in categories
  }

  lemma CountedPart(env: Env, groups: Dict<string, Signature>, w: Warning, categories: set<string>)
    requires var id := SignatureId(env, w); id in groups.at ==> groups.at[id].category == w.category
    ensures var id, f := SignatureId(env, w), Where(InCategories(categories));
      f(After(env, groups, w)) == (if id in groups.at then f(groups.at[id]) else 0) + if w.category in categories then 1 else 0
  {
    hide SignatureId, AddContext;
  }

  lemma TalliedCategory(env: Env, groups: Dict<string, Signature>, w: Warning, categories: set<string>)
    requires groups.Valid()
    requires var id := SignatureId(env, w); id in groups.at ==> groups.at[id].category == w.category
    ensures Sum(Vals(Tallied(env, groups, w)), Where(InCategories(categories)))
      == Sum(Vals(groups), Where(InCategories(categories))) + if w.category in categories then 1 else 0
  {
    hide *;
    TalliedSum(env, groups, w, Where(InCategories(categories)));
    CountedPart(env, groups, w, categories);
  }

  function InGroups(env: Env, warnings: seq<Warning>, categories: set<string>, n: nat): nat
    requires n <= |warnings|
  {
    Sum(Vals(Grouped(env, warnings, n)), Where(InCategories(categories)))
  }

  lemma NoGroups(env: Env, warnings: seq<Warning>, categories: set<string>)
    ensures InGroups(env, warnings, categories, 0) == 0
  {
  }

  lemma OneMoreGrouped(env: Env, warnings: seq<Warning>, categories: set<string>, n: nat)
    requires Injective(env.digest) && 0 < n <= |warnings|
    requires forall w: Warning :: w in warnings ==> '|' !in w.category
    ensures InGroups(env, warnings, categories, n)
      == InGroups(env, warnings, categories, n - 1) + if warnings[n - 1].category in categories then 1 else 0
  {
    hide Injective, SignatureId, Where, InCategories, Sum, Vals, Tallied, Dict.Valid;
    GroupedValid(env, warnings, n - 1);
    GroupCategory(env, warnings, n);
    TalliedCategory(env, Grouped(env, warnings, n - 1), warnings[n - 1], categories);
  }

  /** Without digest collisions the groups count the warnings of every category exactly. */
  lemma {:induction false} CategoriesConserve(env: Env, warnings: seq<Warning>, categories: set<string>, n: nat)
    requires Injective(env.digest) && n <= |warnings|
    requires forall w: Warning :: w in warnings ==> '|' !in w.category
    ensures InGroups(env, warnings, categories, n) == Having(warnings, categories, n)
    decreases n
  {
    hide Injective, InGroups;
    if n == 0 {
      NoGroups(env, warnings, categories);
    } else {
      CategoriesConserve(env, warnings, categories, n - 1);
      OneMoreGrouped(env, warnings, categories, n);
    }
  }
}
