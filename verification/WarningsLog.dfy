/** Reading warnings out of a pytest log (`parse_warnings_from_log` in
    `backend/scripts/warnings_audit.py`), from lines that the regular expressions
    have classified. */
module WarningsLog {
  import opened Collections
  import opened Text

  /** A line of the warnings summary, in the order the loop tests for: empty or a
      separator, the name of a test, the first line of a warning, or any other text.
      Texts come stripped, as the loop strips them. */
  datatype Line =
    | Skipped
    | TestName(test: string)
    | Start(file: string, line: int, category: string, message: string)
    | Other(text: string)

  /** The pattern of a warning line wants at least one character in either group. */
  predicate Matched(lines: seq<Line>) {
    forall l | l in lines && l.Start? :: l.file != "" && l.category != ""
  }

  datatype Origin = Our | ThirdParty

  datatype Warning = Warning(
    category: string, message: string, file: string, line: int,
    moduleName: string, origin: Origin, rawText: string, testContext: string)

  function DetermineOrigin(file: string): Origin {
    if file == "" || Contains(file, "site-packages") then ThirdParty
    else if Contains(file, "backend/app/") || Contains(file, "backend/tests/") || Contains(file, "app/")
            || Contains(file, "tests/") then Our
    else ThirdParty
  }

  /** `"\n".join(lines)` */
  function JoinLines(lines: seq<string>): string {
    if lines == [] then ""
    else if |lines| == 1 then lines[0]
    else JoinLines(lines[..|lines| - 1]) + "\n" + lines[|lines| - 1]
  }

  /** The warning that is emitted for a start line, its message lines and the test
      named at the time. `moduleOf` is `extract_module`. */
  function MakeWarning(moduleOf: string -> string, file: string, line: int, category: string,
                       messages: seq<string>, test: string): Warning
  {
    Warning(category, if messages == [] then "" else messages[0], file, line,
            moduleOf(file), DetermineOrigin(file), Strip(JoinLines(messages)), test)
  }

  // ------------------------------------------------------- segmentation, plainly

  /** The texts up to the next warning. */
  function Continuation(lines: seq<Line>): seq<string> {
    if lines == [] || lines[0].Start? then []
    else (if lines[0].Other? then [lines[0].text] else []) + Continuation(lines[1..])
  }

  /** The test named last before the next warning, or `current` if none is. */
  function ContextAtNext(lines: seq<Line>, current: string): string {
    if lines == [] || lines[0].Start? then current
    else ContextAtNext(lines[1..], if lines[0].TestName? then lines[0].test else current)
  }

  /** One warning per start line, with the texts that follow it. The test context is
      the one in force when the next warning begins. */
  function Segments(moduleOf: string -> string, lines: seq<Line>, current: string): seq<Warning> {
    if lines == [] then []
    else
      var l, rest := lines[0], lines[1..];
      if l.Start? then
        [MakeWarning(moduleOf, l.file, l.line, l.category, [l.message] + Continuation(rest), ContextAtNext(rest, current))]
        + Segments(moduleOf, rest, current)
      else Segments(moduleOf, rest, if l.TestName? then l.test else current)
  }

  /** The warning that is pending, if there is one. */
  function Pending(moduleOf: string -> string, file: string, line: int, category: string, messages: seq<string>,
                   test: string): seq<Warning>
  {
    if file != "" && category != "" then [MakeWarning(moduleOf, file, line, category, messages, test)] else []
  }

  /** What the loop still owes for the remaining lines. */
  ghost function Owed(moduleOf: string -> string, lines: seq<Line>, file: string, line: int, category: string,
                      messages: seq<string>, current: string): seq<Warning>
  {
    Pending(moduleOf, file, line, category, messages + Continuation(lines), ContextAtNext(lines, current))
    + Segments(moduleOf, lines, current)
  }

  /** Lines that do not start a warning move from the rest into the pending one. */
  lemma OwedBefore(moduleOf: string -> string, l: Line, rest: seq<Line>, file: string, line: int, category: string,
                   messages: seq<string>, current: string)
    requires !l.Start? && (file == "" <==> category == "")
    ensures Owed(moduleOf, [l] + rest, file, line, category, messages, current) ==
      Owed(moduleOf, rest, file, line, category,
           if l.Other? && category != "" then messages + [l.text] else messages,
           if l.TestName? then l.test else current)
  {
    hide MakeWarning;
    var lines := [l] + rest;
    assert lines[0] == l && lines[1..] == rest;
    if l.Other? {
      assert messages + ([l.text] + Continuation(rest)) == messages + [l.text] + Continuation(rest);
    } else {
      assert [] + Continuation(rest) == Continuation(rest);
    }
  }

  /** A line that starts a warning settles the pending one. */
  lemma OwedAtStart(moduleOf: string -> string, l: Line, rest: seq<Line>, file: string, line: int, category: string,
                    messages: seq<string>, current: string)
    requires l.Start? && l.file != "" && l.category != ""
    ensures Owed(moduleOf, [l] + rest, file, line, category, messages, current) ==
      Pending(moduleOf, file, line, category, messages, current)
      + Owed(moduleOf, rest, l.file, l.line, l.category, [l.message], current)
  {
    hide MakeWarning;
    var lines := [l] + rest;
    assert lines[0] == l && lines[1..] == rest;
    assert messages + [] == messages;
  }

  lemma OwedAtEnd(moduleOf: string -> string, file: string, line: int, category: string, messages: seq<string>, current: string)
    ensures Owed(moduleOf, [], file, line, category, messages, current) ==
      Pending(moduleOf, file, line, category, messages, current)
  {
    hide MakeWarning;
    assert messages + [] == messages;
  }

  /** The loop with one pending warning refines the segmentation. */
  method ParseSummary(moduleOf: string -> string, lines: seq<Line>) returns (warnings: seq<Warning>)
    requires Matched(lines)
    ensures warnings == Segments(moduleOf, lines, "")
  {
    hide MakeWarning, Owed, Segments;
    warnings := [];
    var file, line, category, messages, test := "", 0, "", [], "";
    NothingOwed(moduleOf, lines);
    for i := 0 to |lines|
      invariant file == "" <==> category == ""
      invariant warnings + Owed(moduleOf, lines[i..], file, line, category, messages, test) == Segments(moduleOf, lines, "")
    {
      var l := lines[i];
      assert lines[i..] == [l] + lines[i + 1..];
      if l.Start? {
        OwedAtStart(moduleOf, l, lines[i + 1..], file, line, category, messages, test);
      } else {
        OwedBefore(moduleOf, l, lines[i + 1..], file, line, category, messages, test);
      }
      match l {
        case Skipped =>
        case TestName(name) =>
          test := name;
        case Start(f, n, c, m) =>
          if file != "" && category != "" {
            warnings := warnings + [MakeWarning(moduleOf, file, line, category, messages, test)];
          }
          file, line, category, messages := f, n, c, [m];
        case Other(text) =>
          if category != "" {
            messages := messages + [text];
          }
      }
    }
    assert lines[|lines|..] == [];
    OwedAtEnd(moduleOf, file, line, category, messages, test);
    if file != "" && category != "" {
      warnings := warnings + [MakeWarning(moduleOf, file, line, category, messages, test)];
    }
  }

  lemma NothingOwed(moduleOf: string -> string, lines: seq<Line>)
    ensures Owed(moduleOf, lines, "", 0, "", [], "") == Segments(moduleOf, lines, "")
    ensures lines[0..] == lines
  {
  }

  // -------------------------------------------------------- what segmentation says

  /** The start lines, in order. */
  function Starts(lines: seq<Line>): seq<Line> {
    if lines == [] then []
    else (if lines[0].Start? then [lines[0]] else []) + Starts(lines[1..])
  }

  /** Exactly one warning per start line, in order, with its file, line, category and
      first message. */
  lemma {:induction false} OnePerStart(moduleOf: string -> string, lines: seq<Line>, current: string)
    ensures |Segments(moduleOf, lines, current)| == |Starts(lines)|
    ensures forall n :: 0 <= n < |Starts(lines)| ==>
      var w, l := Segments(moduleOf, lines, current)[n], Starts(lines)[n];
      l.Start? && w.file == l.file && w.line == l.line && w.category == l.category && w.message == l.message
    decreases |lines|
  {
    hide JoinLines, DetermineOrigin, Continuation, ContextAtNext;
    if lines != [] {
      OnePerStart(moduleOf, lines[1..], if lines[0].TestName? then lines[0].test else current);
    }
  }

  /** The test in force after the given lines. */
  function LastTest(lines: seq<Line>, current: string): string {
    if lines == [] then current
    else LastTest(lines[1..], if lines[0].TestName? then lines[0].test else current)
  }

  /** The warning of the start line at position i: its raw text is the message and the
      texts up to the next start line, its context the test in force at that line. */
  lemma {:induction false} SegmentAt(moduleOf: string -> string, lines: seq<Line>, current: string, i: nat)
    requires i < |lines| && lines[i].Start?
    ensures |Starts(lines[..i])| < |Segments(moduleOf, lines, current)|
    ensures var w := Segments(moduleOf, lines, current)[|Starts(lines[..i])|];
      && w.rawText == Strip(JoinLines([lines[i].message] + Continuation(lines[i + 1..])))
      && w.testContext == ContextAtNext(lines[i + 1..], LastTest(lines[..i], current))
    decreases |lines|
  {
    hide JoinLines, DetermineOrigin;
    if i == 0 {
      assert lines[..0] == [];
    } else {
      SegmentAt(moduleOf, lines[1..], if lines[0].TestName? then lines[0].test else current, i - 1);
      assert lines[..i][1..] == lines[1..][..i - 1];
      assert lines[1..][i..] == lines[i + 1..];
    }
  }

  /** The tests named before the next warning. */
  function TestsBeforeNext(lines: seq<Line>): seq<string> {
    if lines == [] || lines[0].Start? then []
    else (if lines[0].TestName? then [lines[0].test] else []) + TestsBeforeNext(lines[1..])
  }

  lemma {:induction false} ContextIsLastNamed(lines: seq<Line>, current: string)
    ensures var tests := TestsBeforeNext(lines);
      ContextAtNext(lines, current) == if tests == [] then current else tests[|tests| - 1]
    decreases |lines|
  {
    if lines != [] && !lines[0].Start? {
      ContextIsLastNamed(lines[1..], if lines[0].TestName? then lines[0].test else current);
    }
  }

  /** A warning is attributed to the test named before it exactly when no other test
      is the last one named between it and the next warning. */
  lemma AttributedWhen(moduleOf: string -> string, lines: seq<Line>, i: nat)
    requires i < |lines| && lines[i].Start? && |Starts(lines[..i])| < |Segments(moduleOf, lines, "")|
    ensures
      var tests, test := TestsBeforeNext(lines[i + 1..]), LastTest(lines[..i], "");
      Segments(moduleOf, lines, "")[|Starts(lines[..i])|].testContext == test
      <==> tests == [] || tests[|tests| - 1] == test
  {
    SegmentAt(moduleOf, lines, "", i);
    ContextIsLastNamed(lines[i + 1..], LastTest(lines[..i], ""));
  }

  /** It can go to the test that comes after it. */
  lemma AttributedToLaterTest(moduleOf: string -> string)
    ensures
      var lines := [TestName("tests/a.py::first"), Start("app/x.py", 1, "UserWarning", "m"), TestName("tests/b.py::second")];
      |Segments(moduleOf, lines, "")| == 1 && Segments(moduleOf, lines, "")[0].testContext == "tests/b.py::second"
  {
    var lines := [TestName("tests/a.py::first"), Start("app/x.py", 1, "UserWarning", "m"), TestName("tests/b.py::second")];
    assert lines[1..] == [lines[1], lines[2]] && lines[1..][1..] == [lines[2]] && [lines[2]][1..] == [];
  }

  // ------------------------------------------------------------------ the whole log

  /** A warning line anywhere in the log, with the offset of its match. */
  datatype Inline = Inline(start: nat, file: string, line: int, category: string, message: string)

  /** The summary section: where it starts and ends in the log, and its lines. */
  datatype Summary = Summary(start: nat, end: nat, lines: seq<Line>)

  predicate InSummary(summary: Option<Summary>, m: Inline) {
    summary.Some? && summary.value.start <= m.start <= summary.value.end
  }

  function InlineWarning(moduleOf: string -> string, m: Inline): Warning {
    Warning(m.category, m.message, m.file, m.line, moduleOf(m.file), DetermineOrigin(m.file), m.message, "")
  }

  function Outside(moduleOf: string -> string, summary: Option<Summary>, matches: seq<Inline>, n: nat): seq<Warning>
    requires n <= |matches|
  {
    if n == 0 then []
    else Outside(moduleOf, summary, matches, n - 1)
         + if InSummary(summary, matches[n - 1]) then [] else [InlineWarning(moduleOf, matches[n - 1])]
  }

  method ParseLog(moduleOf: string -> string, summary: Option<Summary>, matches: seq<Inline>) returns (warnings: seq<Warning>)
    requires summary.Some? ==> Matched(summary.value.lines)
    ensures warnings ==
      (if summary.Some? then Segments(moduleOf, summary.value.lines, "") else [])
      + Outside(moduleOf, summary, matches, |matches|)
  {
    hide InlineWarning, Segments;
    warnings := [];
    if summary.Some? {
      warnings := ParseSummary(moduleOf, summary.value.lines);
    }
    ghost var fromSummary := warnings;
    for i := 0 to |matches|
      invariant warnings == fromSummary + Outside(moduleOf, summary, matches, i)
    {
      if InSummary(summary, matches[i]) {
        continue;
      }
      warnings := warnings + [InlineWarning(moduleOf, matches[i])];
    }
  }
}
