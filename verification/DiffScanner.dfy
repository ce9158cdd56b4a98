/** Debt markers on the lines a diff adds (`tech_debt_budget.py`): the scanner, and when it
    sees exactly the added lines of a diff without context. ASCII letters and digits. */
module DiffScanner {
  import opened Options
  import opened Text
  import Decimal

  datatype Hit = Hit(file: string, line: nat, marker: string, text: string)

  const SKIP_FILES := ["backend/scripts/tech_debt_budget.py"]
  const EXTENSIONS := [".py", ".ts", ".tsx", ".js", ".jsx", ".md"]

  // ----- Markers in a line -----

  predicate IsWord(c: char) {
    'A' <= c <= 'Z' || 'a' <= c <= 'z' || Decimal.IsDigit(c) || c == '_'
  }

  function Upper(c: char): char {
    if 'a' <= c <= 'z' then (c as int - 32) as char else c
  }

  /** Whether `word` stands at position `i`, in any case and as a whole word. */
  predicate StandsAt(text: string, i: nat, word: string) {
    && i + |word| <= |text|
    && (forall k | 0 <= k < |word| :: Upper(text[i + k]) == word[k])
    && (i > 0 ==> !IsWord(text[i - 1]))
    && (i + |word| < |text| ==> !IsWord(text[i + |word|]))
  }

  function MatchAt(text: string, i: nat): Option<string> {
    if StandsAt(text, i, "TODO") then Some("TODO")
    else if StandsAt(text, i, "FIXME") then Some("FIXME")
    else if StandsAt(text, i, "HACK") then Some("HACK")
    else if StandsAt(text, i, "XXX") then Some("XXX")
    else None
  }

  /** Matches from position `i` on, each search going on after the last match. */
  function Markers(text: string, i: nat): seq<string>
    decreases |text| - i
  {
    if i >= |text| then []
    else
      match MatchAt(text, i)
      case Some(m) => [m] + Markers(text, i + |m|)
      case None => Markers(text, i + 1)
  }

  /** A marker at every position where one stands. */
  function AllMarkers(text: string, i: nat): seq<string>
    decreases |text| - i
  {
    if i >= |text| then []
    else (if MatchAt(text, i).Some? then [MatchAt(text, i).value] else []) + AllMarkers(text, i + 1)
  }

  lemma {:induction false} NoneInside(text: string, i: nat, j: nat)
    requires MatchAt(text, i).Some? && i < j <= i + |MatchAt(text, i).value|
    ensures AllMarkers(text, j) == AllMarkers(text, i + |MatchAt(text, i).value|)
    decreases i + |MatchAt(text, i).value| - j
  {
    var m := MatchAt(text, i).value;
    if j < i + |m| {
      assert Upper(text[i + (j - 1 - i)]) == m[j - 1 - i];
      assert IsWord(text[j - 1]);
      NoneInside(text, i, j + 1);
    }
  }

  /** Going on after each match skips none: markers are whole words and do not overlap. */
  lemma {:induction false} NoMarkerIsSkipped(text: string, i: nat)
    ensures Markers(text, i) == AllMarkers(text, i)
    decreases |text| - i
  {
    hide StandsAt;
    if i < |text| {
      match MatchAt(text, i)
      case Some(m) =>
        NoneInside(text, i, i + 1);
        NoMarkerIsSkipped(text, i + |m|);
      case None =>
        NoMarkerIsSkipped(text, i + 1);
    }
  }

  // ----- Markers, in terms of the characters -----

  /** One of the four markers stands at position `i`, in any case, and neither a letter nor a
      digit nor an underscore is next to it. */
  predicate IsMarkerAt(text: string, i: nat, marker: string) {
    && marker in ["TODO", "FIXME", "HACK", "XXX"] && i + |marker| <= |text|
    && (forall k | 0 <= k < |marker| :: text[i + k] == marker[k] || text[i + k] as int == marker[k] as int + 32)
    && (i > 0 ==> !InWord(text[i - 1]))
    && (i + |marker| < |text| ==> !InWord(text[i + |marker|]))
  }

  predicate InWord(c: char) {
    'A' <= c <= 'Z' || 'a' <= c <= 'z' || '0' <= c <= '9' || c == '_'
  }

  lemma UpperIff(c: char, d: char)
    requires 'A' <= d <= 'Z'
    ensures Upper(c) == d <==> c == d || c as int == d as int + 32
  {
  }

  lemma StandsIff(text: string, i: nat, marker: string)
    requires marker in ["TODO", "FIXME", "HACK", "XXX"]
    ensures StandsAt(text, i, marker) <==> IsMarkerAt(text, i, marker)
  {
    assert forall k | 0 <= k < |marker| :: 'A' <= marker[k] <= 'Z';
    if i + |marker| <= |text| {
      forall k | 0 <= k < |marker| ensures Upper(text[i + k]) == marker[k]
                                           <==> text[i + k] == marker[k] || text[i + k] as int == marker[k] as int + 32
      {
        UpperIff(text[i + k], marker[k]);
      }
    }
    hide Upper;
  }

  lemma MatchIff(text: string, i: nat, marker: string)
    ensures MatchAt(text, i) == Some(marker) <==> IsMarkerAt(text, i, marker)
  {
    StandsIff(text, i, "TODO");
    StandsIff(text, i, "FIXME");
    StandsIff(text, i, "HACK");
    StandsIff(text, i, "XXX");
    hide StandsAt;
    assert marker in ["TODO", "FIXME", "HACK", "XXX"]
      <==> marker == "TODO" || marker == "FIXME" || marker == "HACK" || marker == "XXX";
    if i < |text| {
      assert "TODO"[0] == 'T' && "FIXME"[0] == 'F' && "HACK"[0] == 'H' && "XXX"[0] == 'X';
    }
  }

  ghost predicate IsMarked(text: string, p: nat) {
    exists marker :: IsMarkerAt(text, p, marker)
  }

  /** The markers stand at these positions, in order, and from `i` on at no other. */
  ghost predicate StandExactly(text: string, i: nat, markers: seq<string>, at: seq<nat>) {
    && |at| == |markers|
    && (forall j | 0 <= j < |at| :: at[j] >= i && IsMarkerAt(text, at[j], markers[j]))
    && (forall j, k | 0 <= j < k < |at| :: at[j] < at[k])
    && forall p | i <= p < |text| && IsMarked(text, p) :: p in at
  }

  lemma OneMoreMarker(text: string, i: nat, marker: string, markers: seq<string>, at: seq<nat>)
    requires StandExactly(text, i + 1, markers, at) && IsMarkerAt(text, i, marker)
    ensures StandExactly(text, i, [marker] + markers, [i] + at)
  {
    hide IsMarkerAt, IsMarked;
    var all, names := [i] + at, [marker] + markers;
    forall j | 0 <= j < |all| ensures all[j] >= i && IsMarkerAt(text, all[j], names[j]) && (j > 0 ==> all[j] > i) {
      if j > 0 {
        assert all[j] == at[j - 1] && names[j] == markers[j - 1];
      }
    }
    forall j, k | 0 <= j < k < |all| ensures all[j] < all[k] {
      if j > 0 {
        assert all[j] == at[j - 1] && all[k] == at[k - 1];
      }
    }
    forall p | i <= p < |text| && IsMarked(text, p) ensures p in all {
      if p == i {
        assert all[0] == p;
      } else {
        var j :| 0 <= j < |at| && at[j] == p;
        assert all[j + 1] == p;
      }
    }
  }

  lemma NoMarkerHere(text: string, i: nat, markers: seq<string>, at: seq<nat>)
    requires StandExactly(text, i + 1, markers, at) && !IsMarked(text, i)
    ensures StandExactly(text, i, markers, at)
  {
    hide IsMarkerAt, IsMarked;
  }

  /** The markers found are those that stand in the text, each once and in order. */
  lemma {:induction false} MarkersStand(text: string, i: nat) returns (at: seq<nat>)
    ensures StandExactly(text, i, Markers(text, i), at)
    decreases |text| - i
  {
    hide *;
    if i >= |text| {
      NothingPastEnd(text, i);
      at := [];
    } else {
      at := MarkersStand(text, i + 1);
      MarkersStep(text, i);
      MarkedIff(text, i);
      if MatchAt(text, i).Some? {
        OneMoreMarker(text, i, MatchAt(text, i).value, Markers(text, i + 1), at);
        at := [i] + at;
      } else {
        NoMarkerHere(text, i, Markers(text, i + 1), at);
        assert [] + Markers(text, i + 1) == Markers(text, i + 1);
      }
    }
  }

  lemma MarkedIff(text: string, i: nat)
    ensures MatchAt(text, i).Some? <==> IsMarked(text, i)
    ensures MatchAt(text, i).Some? ==> IsMarkerAt(text, i, MatchAt(text, i).value)
  {
    hide MatchAt, IsMarkerAt;
    forall m ensures MatchAt(text, i) == Some(m) <==> IsMarkerAt(text, i, m) {
      MatchIff(text, i, m);
    }
  }

  lemma {:induction false} NothingPastEnd(text: string, i: nat)
    requires i >= |text|
    ensures StandExactly(text, i, Markers(text, i), [])
  {
  }

  lemma MarkersStep(text: string, i: nat)
    requires i < |text|
    ensures Markers(text, i) == (if MatchAt(text, i).Some? then [MatchAt(text, i).value] else []) + Markers(text, i + 1)
  {
    hide MatchAt;
    NoMarkerIsSkipped(text, i);
    NoMarkerIsSkipped(text, i + 1);
  }

  // ----- Which files -----

  /** The part after the last slash. */
  function BaseName(path: string): string {
    if path == "" then ""
    else if path[|path| - 1] == '/' then ""
    else BaseName(path[..|path| - 1]) + [path[|path| - 1]]
  }

  function SkipDots(s: string): string {
    if s != "" && s[0] == '.' then SkipDots(s[1..]) else s
  }

  /** From the last dot on, empty when there is none. */
  function FromLastDot(s: string): string {
    if '.' !in s then ""
    else if '.' in s[1..] then FromLastDot(s[1..])
    else s
  }

  /** `os.path.splitext`: leading dots of the file name do not count. */
  function Extension(path: string): string {
    FromLastDot(SkipDots(BaseName(path)))
  }

  predicate Tracked(path: string) {
    path !in SKIP_FILES && Extension(path) in EXTENSIONS
  }

  /** The path ends with the extension, and between the last slash and the extension something
      else than dots stands. */
  predicate HasExtension(path: string, extension: string) {
    var n := |path| - |extension|;
    && n >= 0 && path[n..] == extension
    && exists p | 0 <= p < n :: path[p] != '.' && '/' !in path[p..]
  }

  lemma {:induction false} BaseNameIs(path: string) returns (n: nat)
    ensures n <= |path| && BaseName(path) == path[n..] && '/' !in path[n..] && (n > 0 ==> path[n - 1] == '/')
  {
    if path == "" || path[|path| - 1] == '/' {
      n := |path|;
    } else {
      n := BaseNameIs(path[..|path| - 1]);
      assert path[n..] == path[..|path| - 1][n..] + [path[|path| - 1]];
    }
  }

  lemma {:induction false} SkipDotsIs(s: string) returns (d: nat)
    ensures d <= |s| && SkipDots(s) == s[d..] && (forall p | 0 <= p < d :: s[p] == '.') && (d < |s| ==> s[d] != '.')
  {
    if s != "" && s[0] == '.' {
      d := SkipDotsIs(s[1..]);
      d := d + 1;
      forall p | 0 <= p < d ensures s[p] == '.' {
        assert p > 0 ==> s[p] == s[1..][p - 1];
      }
    } else {
      d := 0;
    }
  }

  predicate EndsWith(s: string, suffix: string) {
    |suffix| <= |s| && s[|s| - |suffix|..] == suffix
  }

  lemma DotsOfEnd(s: string, extension: string)
    requires extension != "" && extension[0] == '.' && '.' !in extension[1..] && EndsWith(s, extension)
    ensures '.' in s && ('.' in s[1..] <==> |s| > |extension|)
  {
    assert s[|s| - |extension|] == '.';
    if |s| > |extension| {
      assert s[1..][|s| - |extension| - 1] == '.';
    } else {
      assert s == extension;
    }
  }

  lemma {:induction false} FromLastDotIff(s: string, extension: string)
    requires extension != "" && extension[0] == '.' && '.' !in extension[1..]
    ensures FromLastDot(s) == extension <==> EndsWith(s, extension)
  {
    if EndsWith(s, extension) {
      DotsOfEnd(s, extension);
    }
    if '.' in s && '.' in s[1..] {
      FromLastDotIff(s[1..], extension);
    }
  }

  /** The file name begins at `b`, and its first character that is no dot is at `c`. */
  predicate NameFrom(path: string, b: nat, c: nat) {
    && b <= c <= |path| && '/' !in path[b..] && (b > 0 ==> path[b - 1] == '/')
    && (forall p | b <= p < c :: path[p] == '.') && (c < |path| ==> path[c] != '.')
  }

  lemma EndAfterDots(path: string, b: nat, c: nat, extension: string)
    requires NameFrom(path, b, c) && extension != "" && extension[0] == '.' && EndsWith(path[c..], extension)
    ensures HasExtension(path, extension)
  {
    var n := |path| - |extension|;
    assert path[c..][n - c..] == path[n..];
    assert path[n] == '.' && path[c] != '.';
    assert forall q | 0 <= q < |path[c..]| :: path[c..][q] == path[b..][c - b + q];
  }

  lemma DotsBeforeEnd(path: string, b: nat, c: nat, extension: string)
    requires NameFrom(path, b, c) && HasExtension(path, extension)
    ensures EndsWith(path[c..], extension)
  {
    var n := |path| - |extension|;
    var p :| 0 <= p < n && path[p] != '.' && '/' !in path[p..];
    assert forall q | p <= q < |path| :: path[q] != '/' by {
      assert forall q | p <= q < |path| :: path[p..][q - p] == path[q];
    }
    assert path[c..][n - c..] == path[n..];
  }

  lemma HasExtensionIff(path: string, extension: string)
    requires extension != "" && extension[0] == '.' && '.' !in extension[1..]
    ensures Extension(path) == extension <==> HasExtension(path, extension)
  {
    var b := BaseNameIs(path);
    var name := path[b..];
    var d := SkipDotsIs(name);
    FromLastDotIff(name[d..], extension);
    hide BaseName, SkipDots, FromLastDot, EndsWith, HasExtension;
    assert name[d..] == path[b + d..];
    assert NameFrom(path, b, b + d) by {
      assert forall q | 0 <= q < |name| :: name[q] == path[b + q];
    }
    if EndsWith(path[b + d..], extension) {
      EndAfterDots(path, b, b + d, extension);
    }
    if HasExtension(path, extension) {
      DotsBeforeEnd(path, b, b + d, extension);
    }
  }

  /** A tracked file is one with a listed extension, but for the scanner itself. */
  lemma TrackedIff(path: string)
    ensures Tracked(path) <==>
      path != "backend/scripts/tech_debt_budget.py"
      && exists e | e in [".py", ".ts", ".tsx", ".js", ".jsx", ".md"] :: HasExtension(path, e)
  {
    forall e | e in [".py", ".ts", ".tsx", ".js", ".jsx", ".md"] ensures Extension(path) == e <==> HasExtension(path, e) {
      HasExtensionIff(path, e);
    }
    hide Extension, HasExtension;
  }

  // ----- The lines of a text -----

  /** The characters at which `str.splitlines` ends a line. */
  predicate IsBreak(c: char) {
    || 10 <= c as int <= 13
    || 28 <= c as int <= 30
    || c as int == 0x85
    || c as int == 0x2028
    || c as int == 0x2029
  }

  predicate Unbroken(s: string) {
    forall i | 0 <= i < |s| :: !IsBreak(s[i])
  }

  /** A carriage return and a line feed end a line together. */
  function BreakWidth(s: string): (n: nat)
    requires s != ""
    ensures 1 <= n <= |s|
  {
    if |s| > 1 && s[0] == '\r' && s[1] == '\n' then 2 else 1
  }

  /** The character put in front of the first line. */
  function InFront(c: char, lines: seq<string>): seq<string> {
    if lines == [] then [[c]] else [[c] + lines[0]] + lines[1..]
  }

  /** `str.splitlines`. A text decoded with universal line ends gives the same lines, as every
      carriage return is a break of its own or of one line feed. */
  function SplitLines(s: string): (lines: seq<string>)
    ensures lines == [] <==> s == ""
    decreases |s|
  {
    if s == "" then []
    else if IsBreak(s[0]) then [""] + SplitLines(s[BreakWidth(s)..])
    else InFront(s[0], SplitLines(s[1..]))
  }

  // ----- The scan -----

  /** The file being read, when it is tracked, and the number of its next line. */
  datatype Position = Position(file: Option<string>, line: Option<nat>)

  /** An added line looked at. */
  datatype Visit = Visit(file: string, line: nat, text: string)

  /** The number after the first `+` that is directly followed by a digit. */
  function NewStart(header: string): Option<nat> {
    if header == "" then None
    else if header[0] == '+' && |header| > 1 && Decimal.IsDigit(header[1]) then
      Some(Decimal.Value(header[1..][..Decimal.DigitRun(header[1..])]))
    else NewStart(header[1..])
  }

  predicate IsFileHeader(raw: string) {
    StartsWith(raw, "+++ b/")
  }

  predicate IsHunkHeader(raw: string) {
    !IsFileHeader(raw) && StartsWith(raw, "@@")
  }

  predicate IsAdded(raw: string) {
    StartsWith(raw, "+") && !StartsWith(raw, "+++")
  }

  function Step(at: Position, raw: string): Position {
    if IsFileHeader(raw) then at.(file := if Tracked(raw[6..]) then Some(raw[6..]) else None)
    else if IsHunkHeader(raw) then at.(line := NewStart(raw))
    else if at.file.Some? && at.line.Some? && (IsAdded(raw) || StartsWith(raw, " ")) then
      at.(line := Some(at.line.value + 1))
    else at
  }

  /** The added line this raw line is read as, if any. */
  function Visits(at: Position, raw: string): seq<Visit> {
    if at.file.Some? && IsAdded(raw)
    then [Visit(at.file.value, if at.line.Some? then at.line.value else 0, raw[1..])]
    else []
  }

  function After(at: Position, lines: seq<string>): Position
    decreases |lines|
  {
    if lines == [] then at else After(Step(at, lines[0]), lines[1..])
  }

  function Visited(at: Position, lines: seq<string>): seq<Visit>
    decreases |lines|
  {
    if lines == [] then [] else Visits(at, lines[0]) + Visited(Step(at, lines[0]), lines[1..])
  }

  function HitsFor(v: Visit, markers: seq<string>): (hits: seq<Hit>)
    ensures |hits| == |markers|
    ensures forall i | 0 <= i < |hits| ::
      && hits[i].file == v.file && hits[i].line == v.line && hits[i].marker == markers[i]
      && hits[i].text <= Strip(v.text) && |hits[i].text| == if |Strip(v.text)| < 120 then |Strip(v.text)| else 120
  {
    if markers == [] then []
    else
      var text := Strip(v.text);
      [Hit(v.file, v.line, markers[0], if |text| <= 120 then text else text[..120])] + HitsFor(v, markers[1..])
  }

  /** A hit for every marker of every line looked at, in order. */
  function Hits(visits: seq<Visit>): seq<Hit> {
    if visits == [] then []
    else HitsFor(visits[0], AllMarkers(visits[0].text, 0)) + Hits(visits[1..])
  }

  lemma {:induction false} HitsConcat(a: seq<Visit>, b: seq<Visit>)
    ensures Hits(a + b) == Hits(a) + Hits(b)
  {
    if a == [] {
      assert a + b == b;
    } else {
      assert (a + b)[1..] == a[1..] + b;
      HitsConcat(a[1..], b);
    }
  }

  lemma {:induction false} VisitedStep(done: seq<Visit>, at: Position, lines: seq<string>, i: nat)
    requires i < |lines|
    ensures done + Visited(at, lines[i..])
            == done + Visits(at, lines[i]) + Visited(Step(at, lines[i]), lines[i + 1..])
  {
    assert lines[i..][0] == lines[i] && lines[i..][1..] == lines[i + 1..];
  }

  const START := Position(None, None)

  lemma {:induction false} StepCases(at: Position, raw: string)
    ensures IsFileHeader(raw) ==>
              Visits(at, raw) == [] && Step(at, raw) == at.(file := if Tracked(raw[6..]) then Some(raw[6..]) else None)
    ensures IsHunkHeader(raw) ==> Visits(at, raw) == [] && Step(at, raw) == at.(line := NewStart(raw))
    ensures !IsFileHeader(raw) && !IsHunkHeader(raw) && at.file.None? ==> Visits(at, raw) == [] && Step(at, raw) == at
    ensures !IsFileHeader(raw) && !IsHunkHeader(raw) && at.file.Some? && !IsAdded(raw) ==>
              && Visits(at, raw) == []
              && Step(at, raw) == if StartsWith(raw, " ") && at.line.Some? then at.(line := Some(at.line.value + 1)) else at
    ensures !IsFileHeader(raw) && !IsHunkHeader(raw) && at.file.Some? && IsAdded(raw) ==>
              && raw != "" && Visits(at, raw) == [Visit(at.file.value, if at.line.Some? then at.line.value else 0, raw[1..])]
              && Step(at, raw) == if at.line.Some? then at.(line := Some(at.line.value + 1)) else at
    ensures StartsWith(raw, "-") ==> !StartsWith(raw, " ")
  {
    assert StartsWith(raw, "-") ==> raw[0] == '-';
    assert StartsWith(raw, "@@") ==> raw[0] == '@';
    hide Tracked, NewStart;
  }

  lemma KindsOfLine(raw: string)
    ensures IsFileHeader(raw) <==> StartsWith(raw, "+++ b/")
    ensures IsHunkHeader(raw) <==> !IsFileHeader(raw) && StartsWith(raw, "@@")
    ensures IsAdded(raw) <==> StartsWith(raw, "+") && !StartsWith(raw, "+++")
    ensures StartsWith(raw, "+++ b/") ==> |raw| >= 6
  {
  }

  /** `diff` is the output of `git diff`, none when that failed. */
  method ScanNewMarkersFromDiff(diff: Option<string>) returns (hits: seq<Hit>)
    ensures hits == if diff.Some? then Hits(Visited(START, SplitLines(diff.value))) else []
  {
    if diff.None? {
      return [];
    }
    var lines := SplitLines(diff.value);
    hits := [];
    var currentFile: Option<string> := None;
    var newLineNumber: Option<nat> := None;
    ghost var done: seq<Visit> := [];
    assert Hits([]) == [];
    for i := 0 to |lines|
      invariant hits == Hits(done)
      invariant Visited(START, lines) == done + Visited(Position(currentFile, newLineNumber), lines[i..])
    {
      hide *;
      var rawLine := lines[i];
      ghost var at := Position(currentFile, newLineNumber);
      ghost var visits := Visits(at, rawLine);
      VisitedStep(done, at, lines, i);
      HitsConcat(done, visits);
      StepCases(at, rawLine);
      KindsOfLine(rawLine);
      assert done + [] == done && hits + [] == hits;
      done := done + visits;
      if StartsWith(rawLine, "+++ b/") {
        var candidate := rawLine[6..];
        currentFile := if Tracked(candidate) then Some(candidate) else None;
        continue;
      }
      if StartsWith(rawLine, "@@") {
        newLineNumber := NewStart(rawLine);
        continue;
      }
      if currentFile.None? {
        continue;
      }
      if StartsWith(rawLine, "+") && !StartsWith(rawLine, "+++") {
        var text := rawLine[1..];
        var v := Visit(currentFile.value, if newLineNumber.Some? then newLineNumber.value else 0, text);
        HitsOfOne(v);
        hits := hits + HitsFor(v, Markers(text, 0));
        if newLineNumber.Some? {
          newLineNumber := Some(newLineNumber.value + 1);
        }
        continue;
      }
      if StartsWith(rawLine, "-") && !StartsWith(rawLine, "---") {
        continue;
      }
      if StartsWith(rawLine, " ") && newLineNumber.Some? {
        newLineNumber := Some(newLineNumber.value + 1);
      }
    }
    hide Hits;
    assert lines[|lines|..] == [];
    assert Visited(Position(currentFile, newLineNumber), []) == [] && done + [] == done;
  }

  lemma {:induction false} HitsOfOne(v: Visit)
    ensures Hits([v]) == HitsFor(v, Markers(v.text, 0))
  {
    NoMarkerIsSkipped(v.text, 0);
    assert [v][1..] == [];
  }

  lemma {:induction false} VisitedConcat(at: Position, a: seq<string>, b: seq<string>)
    ensures Visited(at, a + b) == Visited(at, a) + Visited(After(at, a), b)
    ensures After(at, a + b) == After(After(at, a), b)
    decreases |a|
  {
    if a == [] {
      assert a + b == b;
    } else {
      hide Step, Visits;
      assert (a + b)[1..] == a[1..] + b && (a + b)[0] == a[0];
      VisitedConcat(Step(at, a[0]), a[1..], b);
      var rest := Step(at, a[0]);
      assert Visits(at, a[0]) + (Visited(rest, a[1..]) + Visited(After(rest, a[1..]), b))
          == Visits(at, a[0]) + Visited(rest, a[1..]) + Visited(After(rest, a[1..]), b);
    }
  }

  // ----- Diffs without context -----

  datatype Hunk = Hunk(oldStart: nat, newStart: nat, removed: seq<string>, added: seq<string>, heading: string,
                       oldUnended: bool, newUnended: bool)

  /** A section of text changes, of a deletion, or without a body (binary, rename, mode). */
  datatype Kind = Changed | Deleted | Bodiless

  datatype Section = Section(kind: Kind, path: string, header: seq<string>, hunks: seq<Hunk>)

  const UNENDED := "\\ No newline at end of file"

  function Range(start: nat, count: nat): string {
    Decimal.Print(start) + (if count == 1 then "" else "," + Decimal.Print(count))
  }

  /** A hunk's header up to its heading, the nearest line above that opens a function. */
  function HunkRange(h: Hunk): string {
    ("@@ -" + Range(h.oldStart, |h.removed|) + " ") + ("+" + (Range(h.newStart, |h.added|) + " @@"))
  }

  function Prefixed(c: char, lines: seq<string>): seq<string> {
    if lines == [] then [] else [[c] + lines[0]] + Prefixed(c, lines[1..])
  }

  function Ending(unended: bool): seq<string> {
    if unended then [UNENDED] else []
  }

  function RemovedPart(h: Hunk): seq<string> {
    Prefixed('-', h.removed) + Ending(h.oldUnended)
  }

  function AddedPart(h: Hunk): seq<string> {
    Prefixed('+', h.added) + Ending(h.newUnended)
  }

  function PrintHunk(h: Hunk): seq<string> {
    [HunkRange(h) + h.heading] + (RemovedPart(h) + AddedPart(h))
  }

  function PrintHunks(hunks: seq<Hunk>): seq<string> {
    if hunks == [] then [] else PrintHunk(hunks[0]) + PrintHunks(hunks[1..])
  }

  /** A name with a space is followed by a tab. */
  function PathShown(path: string): string {
    path + (if ' ' in path then "\t" else "")
  }

  function NameLine(s: Section): seq<string> {
    match s.kind
    case Changed => ["+++ b/" + PathShown(s.path)]
    case Deleted => ["+++ /dev/null"]
    case Bodiless => []
  }

  function PrintSection(s: Section): seq<string> {
    s.header + (NameLine(s) + PrintHunks(s.hunks))
  }

  function PrintDiff(sections: seq<Section>): seq<string> {
    if sections == [] then [] else PrintSection(sections[0]) + PrintDiff(sections[1..])
  }

  /** Every printed line ends with a line feed. */
  function TextOf(lines: seq<string>): string {
    if lines == [] then "" else lines[0] + "\n" + TextOf(lines[1..])
  }

  function AddedLines(hunks: seq<Hunk>): seq<string> {
    if hunks == [] then [] else hunks[0].added + AddedLines(hunks[1..])
  }

  /** Neither a header nor a line of content. */
  predicate Inert(raw: string) {
    raw == "" || (raw[0] != '+' && raw[0] != '@' && raw[0] != ' ')
  }

  /** Header lines are inert and whole, and only changed text has added lines. Names that need
      quoting are not covered. Nothing is asked of the removed and added lines and the headings. */
  predicate WellFormed(s: Section) {
    && (forall l <- s.header :: Inert(l) && Unbroken(l))
    && (forall c <- s.path :: ' ' <= c <= '~' && c != '"' && c != '\\')
    && (!s.kind.Changed? ==> AddedLines(s.hunks) == [])
  }

  // ----- What was really added -----

  /** A line without the carriage return of its ending. */
  function LineText(l: string): string {
    if l != "" && l[|l| - 1] == '\r' then l[..|l| - 1] else l
  }

  function Numbered(file: string, line: nat, lines: seq<string>): seq<Visit>
    decreases |lines|
  {
    if lines == [] then [] else [Visit(file, line, LineText(lines[0]))] + Numbered(file, line + 1, lines[1..])
  }

  function TrueLines(file: string, hunks: seq<Hunk>): seq<Visit> {
    if hunks == [] then [] else Numbered(file, hunks[0].newStart, hunks[0].added) + TrueLines(file, hunks[1..])
  }

  /** The added lines of a tracked file, each with its number in the new file. */
  function TrueAdded(s: Section): seq<Visit> {
    if Tracked(s.path) then TrueLines(s.path, s.hunks) else []
  }

  function AllAdded(sections: seq<Section>): seq<Visit> {
    if sections == [] then [] else TrueAdded(sections[0]) + AllAdded(sections[1..])
  }

  // ----- How printed lines are split -----

  /** The raw lines a printed line is split into. */
  function Fragments(l: string): (raws: seq<string>)
    ensures raws != []
  {
    SplitLines(l + "\n")
  }

  function Raws(lines: seq<string>): seq<string> {
    if lines == [] then [] else Fragments(lines[0]) + Raws(lines[1..])
  }

  lemma InFrontConcat(c: char, a: seq<string>, b: seq<string>)
    requires a != []
    ensures InFront(c, a + b) == InFront(c, a) + b
  {
    assert (a + b)[1..] == a[1..] + b;
    assert [[c] + a[0]] + (a[1..] + b) == [[c] + a[0]] + a[1..] + b;
  }

  lemma Shift(l: string, rest: string, n: nat)
    requires n <= |l|
    ensures (l + "\n" + rest)[n..] == l[n..] + "\n" + rest
    ensures (l + "\n")[n..] == l[n..] + "\n"
    ensures (l + "\n" + rest)[|l| + 1..] == rest
    ensures (l + "\n")[|l| + 1..] == ""
  {
  }

  lemma {:induction false} SplitFirst(l: string, rest: string)
    ensures SplitLines(l + "\n" + rest) == Fragments(l) + SplitLines(rest)
    decreases |l|
  {
    hide InFront;
    var s, t := l + "\n" + rest, l + "\n";
    assert s[0] == t[0] && |t| > 1 ==> s[1] == t[1];
    if IsBreak(t[0]) {
      var w := BreakWidth(t);
      assert BreakWidth(s) == w;
      Shift(l, rest, if w <= |l| then w else 0);
      if w <= |l| {
        SplitFirst(l[w..], rest);
        assert [""] + (Fragments(l[w..]) + SplitLines(rest)) == [""] + Fragments(l[w..]) + SplitLines(rest);
      } else {
        assert [""] + [] == [""];
      }
    } else {
      Shift(l, rest, 1);
      SplitFirst(l[1..], rest);
      InFrontConcat(l[0], Fragments(l[1..]), SplitLines(rest));
    }
  }

  /** The scan sees the fragments of the printed lines. */
  lemma {:induction false} SplitText(lines: seq<string>)
    ensures SplitLines(TextOf(lines)) == Raws(lines)
  {
    if lines != [] {
      SplitFirst(lines[0], TextOf(lines[1..]));
      SplitText(lines[1..]);
    }
  }

  lemma {:induction false} RawsConcat(a: seq<string>, b: seq<string>)
    ensures Raws(a + b) == Raws(a) + Raws(b)
  {
    if a == [] {
      assert a + b == b;
    } else {
      hide Fragments;
      assert (a + b)[1..] == a[1..] + b;
      RawsConcat(a[1..], b);
    }
  }

  lemma {:induction false} SplitIsUnbroken(s: string)
    ensures forall r <- SplitLines(s) :: Unbroken(r)
    decreases |s|
  {
    if s != "" {
      if IsBreak(s[0]) {
        SplitIsUnbroken(s[BreakWidth(s)..]);
      } else {
        var rest := SplitLines(s[1..]);
        SplitIsUnbroken(s[1..]);
        forall r | r in SplitLines(s) ensures Unbroken(r) {
          if rest != [] && r == [s[0]] + rest[0] {
            assert Unbroken(rest[0]);
          } else if rest != [] {
            assert r in rest;
          }
        }
      }
    }
  }

  /** A prefix without a break stays in front of the first fragment. */
  lemma {:induction false} FragmentsPrefix(p: string, l: string)
    requires Unbroken(p)
    ensures Fragments(p + l) == [p + Fragments(l)[0]] + Fragments(l)[1..]
  {
    if p == "" {
      assert p + l == l && p + Fragments(l)[0] == Fragments(l)[0];
    } else {
      var q := p[1..];
      assert (p + l + "\n")[1..] == q + l + "\n";
      assert !IsBreak(p[0]);
      FragmentsPrefix(q, l);
      var f := Fragments(l);
      assert [p[0]] + (q + f[0]) == p + f[0];
      assert Fragments(p + l) == InFront(p[0], [q + f[0]] + f[1..]);
      assert ([q + f[0]] + f[1..])[1..] == f[1..];
    }
  }

  /** A line is read whole exactly when it holds no break before its ending. */
  lemma {:induction false} WholeLine(l: string)
    ensures Unbroken(LineText(l)) ==> Fragments(l) == [LineText(l)]
    ensures Fragments(l)[0] == LineText(l) ==> Unbroken(LineText(l))
  {
    SplitIsUnbroken(l + "\n");
    var x := LineText(l);
    if Unbroken(x) {
      assert x + "" == x;
      if x == l {
        FragmentsPrefix(x, "");
        EmptyLines();
      } else {
        assert l == x + "\r";
        FragmentsPrefix(x, "\r");
        EmptyLines();
      }
    }
  }

  lemma EmptyLines()
    ensures Fragments("") == [""] && Fragments("\r") == [""]
  {
    assert "" + "\n" == "\n" && "\n"[1..] == "";
    assert BreakWidth("\n") == 1;
    var t := "\r" + "\n";
    assert BreakWidth(t) == 2 && t[2..] == "";
  }

  // ----- Reading a hunk's header -----

  lemma {:induction false} NewStartSkips(a: string, b: string)
    requires '+' !in a
    ensures NewStart(a + b) == NewStart(b)
  {
    if a == "" {
      assert a + b == b;
    } else {
      assert (a + b)[1..] == a[1..] + b;
      NewStartSkips(a[1..], b);
    }
  }

  lemma {:induction false} NewStartReads(left: string, n: nat, tail: string)
    requires '+' !in left && (tail == "" || !Decimal.IsDigit(tail[0]))
    ensures NewStart(left + ("+" + (Decimal.Print(n) + tail))) == Some(n)
  {
    var digits := Decimal.Print(n);
    NewStartSkips(left, "+" + (digits + tail));
    assert ("+" + (digits + tail))[1..] == digits + tail;
    Decimal.DigitRunOf(digits, tail);
    assert (digits + tail)[..|digits|] == digits;
    Decimal.ValuePrint(n);
  }

  lemma DigitsArePlain(d: string)
    requires forall i | 0 <= i < |d| :: Decimal.IsDigit(d[i])
    ensures '+' !in d && Unbroken(d)
  {
  }

  lemma RangeIsPlain(start: nat, count: nat)
    ensures '+' !in Range(start, count) && Unbroken(Range(start, count))
  {
    DigitsArePlain(Decimal.Print(start));
    DigitsArePlain(Decimal.Print(count));
    hide Decimal.Print;
  }

  lemma UnbrokenConcat(a: string, b: string)
    requires Unbroken(a) && Unbroken(b)
    ensures Unbroken(a + b)
  {
  }

  lemma RangeIsUnbroken(h: Hunk)
    ensures Unbroken(HunkRange(h))
  {
    var before, after := Range(h.oldStart, |h.removed|), Range(h.newStart, |h.added|);
    RangeIsPlain(h.oldStart, |h.removed|);
    RangeIsPlain(h.newStart, |h.added|);
    assert Unbroken("@@ -") && Unbroken(" ") && Unbroken("+") && Unbroken(" @@");
    hide Range, Unbroken;
    UnbrokenConcat("@@ -", before);
    UnbrokenConcat("@@ -" + before, " ");
    UnbrokenConcat(after, " @@");
    UnbrokenConcat("+", after + " @@");
    UnbrokenConcat("@@ -" + before + " ", "+" + (after + " @@"));
  }

  lemma Regroup(left: string, plus: string, number: string, count: string, at: string, heading: string)
    ensures left + (plus + (number + count + at)) + heading == left + (plus + (number + (count + (at + heading))))
  {
  }

  /** The scanner reads a hunk's true first line from its header, whatever follows. */
  lemma {:induction false} HeaderGivesStart(h: Hunk, heading: string)
    ensures NewStart(HunkRange(h) + heading) == Some(h.newStart)
    ensures |HunkRange(h)| > 2 && StartsWith(HunkRange(h) + heading, "@@")
  {
    var left := "@@ -" + Range(h.oldStart, |h.removed|) + " ";
    var count := if |h.added| == 1 then "" else "," + Decimal.Print(|h.added|);
    RangeIsPlain(h.oldStart, |h.removed|);
    assert '+' !in left;
    assert count + (" @@" + heading) != "" && !Decimal.IsDigit((count + (" @@" + heading))[0]);
    assert left[0] == '@' && left[1] == '@';
    hide NewStart, Decimal.Print, Decimal.Value, Decimal.IsDigit;
    NewStartReads(left, h.newStart, count + (" @@" + heading));
    Regroup(left, "+", Decimal.Print(h.newStart), count, " @@", heading);
    assert (HunkRange(h) + heading)[..2] == "@@";
  }

  // ----- Reading in step -----

  /** What a printed line means: nothing, the file that follows if tracked, the number of the
      next line, or an added line. */
  datatype Role = Quiet | Names(file: Option<string>) | Starts(line: nat) | Adds(text: string)

  function Do(at: Position, role: Role): Position {
    match role
    case Quiet => at
    case Names(file) => at.(file := file)
    case Starts(line) => at.(line := Some(line))
    case Adds(_) => if at.file.Some? && at.line.Some? then at.(line := Some(at.line.value + 1)) else at
  }

  function See(at: Position, role: Role): seq<Visit> {
    if role.Adds? && at.file.Some?
    then [Visit(at.file.value, if at.line.Some? then at.line.value else 0, LineText(role.text))]
    else []
  }

  function DoAll(at: Position, roles: seq<Role>): Position
    decreases |roles|
  {
    if roles == [] then at else DoAll(Do(at, roles[0]), roles[1..])
  }

  function SeeAll(at: Position, roles: seq<Role>): seq<Visit>
    decreases |roles|
  {
    if roles == [] then [] else See(at, roles[0]) + SeeAll(Do(at, roles[0]), roles[1..])
  }

  predicate Still(at: Position, raws: seq<string>) {
    forall i | 0 <= i < |raws| :: Step(at, raws[i]) == at && Visits(at, raws[i]) == []
  }

  /** The first raw line does what the printed line means, and the others do nothing. */
  predicate LineInStep(at: Position, l: string, role: Role) {
    var raws := Fragments(l);
    && Step(at, raws[0]) == Do(at, role)
    && Visits(at, raws[0]) == See(at, role)
    && Still(Do(at, role), raws[1..])
  }

  /** At every raw line the scanner is where the diff is. */
  predicate InStep(at: Position, lines: seq<string>, roles: seq<Role>)
    requires |lines| == |roles|
    decreases |lines|
  {
    lines == [] || (LineInStep(at, lines[0], roles[0]) && InStep(Do(at, roles[0]), lines[1..], roles[1..]))
  }

  function Quiets(n: nat): (roles: seq<Role>)
    ensures |roles| == n
  {
    seq(n, _ => Quiet)
  }

  function Additions(lines: seq<string>): (roles: seq<Role>)
    ensures |roles| == |lines|
  {
    if lines == [] then [] else [Adds(lines[0])] + Additions(lines[1..])
  }

  function HunkRoles(h: Hunk): seq<Role> {
    [Starts(h.newStart)] + (Quiets(|RemovedPart(h)|) + (Additions(h.added) + Quiets(|Ending(h.newUnended)|)))
  }

  function HunksRoles(hunks: seq<Hunk>): seq<Role> {
    if hunks == [] then [] else HunkRoles(hunks[0]) + HunksRoles(hunks[1..])
  }

  function TrackedName(path: string): Option<string> {
    if Tracked(path) then Some(path) else None
  }

  function NameRoles(s: Section): (roles: seq<Role>)
    ensures |roles| == |NameLine(s)|
  {
    match s.kind
    case Changed => [Names(TrackedName(s.path))]
    case Deleted => [Quiet]
    case Bodiless => []
  }

  function Roles(s: Section): seq<Role> {
    Quiets(|s.header|) + (NameRoles(s) + HunksRoles(s.hunks))
  }

  lemma {:induction false} InStepConcat(at: Position, a: seq<string>, ra: seq<Role>, b: seq<string>, rb: seq<Role>)
    requires |a| == |ra| && |b| == |rb|
    ensures InStep(at, a + b, ra + rb) <==> InStep(at, a, ra) && InStep(DoAll(at, ra), b, rb)
    ensures DoAll(at, ra + rb) == DoAll(DoAll(at, ra), rb)
    decreases |a|
  {
    if a == [] {
      assert a + b == b && ra + rb == rb;
    } else {
      hide LineInStep, Do;
      assert (a + b)[1..] == a[1..] + b && (ra + rb)[1..] == ra[1..] + rb;
      InStepConcat(Do(at, ra[0]), a[1..], ra[1..], b, rb);
    }
  }

  lemma {:induction false} StillIsUnseen(at: Position, raws: seq<string>)
    requires Still(at, raws)
    ensures Visited(at, raws) == [] && After(at, raws) == at
    decreases |raws|
  {
    hide Step, Visits;
    if raws != [] {
      assert Step(at, raws[0]) == at;
      assert forall i | 0 <= i < |raws| - 1 :: raws[1..][i] == raws[i + 1];
      StillIsUnseen(at, raws[1..]);
    }
  }

  /** Reading in step shows exactly the added lines. */
  lemma {:induction false} InStepReads(at: Position, lines: seq<string>, roles: seq<Role>)
    requires |lines| == |roles| && InStep(at, lines, roles)
    ensures Visited(at, Raws(lines)) == SeeAll(at, roles)
    ensures After(at, Raws(lines)) == DoAll(at, roles)
    decreases |lines|
  {
    if lines != [] {
      hide Step, Visits, Do, See, Fragments, Still;
      var raws, next := Fragments(lines[0]), Do(at, roles[0]);
      StillIsUnseen(next, raws[1..]);
      assert See(at, roles[0]) + [] == See(at, roles[0]);
      VisitedConcat(at, raws, Raws(lines[1..]));
      InStepReads(next, lines[1..], roles[1..]);
    }
  }

  // ----- When reading is in step -----

  /** A raw line without effect here: the name the scanner has already, the number it has
      already, or no line of content. */
  predicate Idle(at: Position, raw: string) {
    if IsFileHeader(raw) then at.file == TrackedName(raw[6..])
    else if IsHunkHeader(raw) then at.line == NewStart(raw)
    else at.file.None? || (!IsAdded(raw) && (StartsWith(raw, " ") ==> at.line.None?))
  }

  predicate AllIdle(at: Position, raws: seq<string>) {
    forall i | 0 <= i < |raws| :: Idle(at, raws[i])
  }

  /** What follows the first break of the line does nothing. */
  predicate RestIdle(at: Position, l: string) {
    AllIdle(at, Fragments(l)[1..])
  }

  /** An added line of a tracked file must be whole and must not begin with two plus signs;
      one of another file must not read as a tracked file's name. */
  predicate AddedSteady(at: Position, l: string) {
    if at.file.Some? then Unbroken(LineText(l)) && !StartsWith(LineText(l), "++")
    else (StartsWith(Fragments(l)[0], "++ b/") ==> !Tracked(Fragments(l)[0][5..])) && RestIdle(at, l)
  }

  predicate HunkSteady(file: Option<string>, h: Hunk) {
    var at := Position(file, Some(h.newStart));
    && RestIdle(at, h.heading)
    && (forall i | 0 <= i < |h.removed| :: RestIdle(at, h.removed[i]))
    && (forall i | 0 <= i < |h.added| :: AddedSteady(at, h.added[i]))
  }

  /** The file the hunks of a section are of; a section without a name of its own leaves the
      scanner with the file before. */
  function FileOf(file: Option<string>, s: Section): Option<string> {
    if s.kind.Changed? then TrackedName(s.path) else file
  }

  predicate Steady(file: Option<string>, s: Section) {
    && (s.kind.Changed? && Tracked(s.path) ==> ' ' !in s.path)
    && forall i | 0 <= i < |s.hunks| :: HunkSteady(FileOf(file, s), s.hunks[i])
  }

  lemma IdleIsStill(at: Position, raw: string)
    ensures Idle(at, raw) <==> Step(at, raw) == at && Visits(at, raw) == []
  {
    StepCases(at, raw);
    KindsOfLine(raw);
    assert IsAdded(raw) ==> raw[0] == '+';
    assert StartsWith(raw, " ") ==> raw[0] == ' ';
    hide Tracked, NewStart, IsFileHeader, IsHunkHeader, IsAdded, Step, Visits;
  }

  lemma AllIdleIsStill(at: Position, raws: seq<string>)
    ensures AllIdle(at, raws) <==> Still(at, raws)
  {
    forall i | 0 <= i < |raws| ensures Idle(at, raws[i]) <==> Step(at, raws[i]) == at && Visits(at, raws[i]) == [] {
      IdleIsStill(at, raws[i]);
    }
    hide Idle, Step, Visits;
  }

  lemma InertIsIdle(at: Position, raw: string)
    requires Inert(raw)
    ensures Idle(at, raw) && Step(at, raw) == at && Visits(at, raw) == []
  {
    IdleIsStill(at, raw);
  }

  /** A line that is inert up to its first break is in step exactly when the rest is idle. */
  lemma InertInStep(at: Position, c: char, l: string)
    requires !IsBreak(c) && Inert([c])
    ensures LineInStep(at, [c] + l, Quiet) <==> RestIdle(at, l)
  {
    FragmentsPrefix([c], l);
    var raws := Fragments([c] + l);
    InertIsIdle(at, raws[0]);
    hide Step, Visits, Idle;
    assert raws[1..] == Fragments(l)[1..];
    AllIdleIsStill(at, Fragments(l)[1..]);
  }

  lemma {:induction false} DoQuiets(at: Position, n: nat)
    ensures DoAll(at, Quiets(n)) == at
    ensures SeeAll(at, Quiets(n)) == []
  {
    if n > 0 {
      assert Quiets(n)[1..] == Quiets(n - 1);
      DoQuiets(at, n - 1);
    }
  }

  lemma {:induction false} InertAreInStep(at: Position, lines: seq<string>)
    requires forall l <- lines :: Inert(l) && Unbroken(l)
    ensures InStep(at, lines, Quiets(|lines|))
  {
    if lines != [] {
      var l := lines[0];
      assert l in lines;
      FragmentsPrefix(l, "");
      EmptyLines();
      assert l + "" == l;
      InertIsIdle(at, l);
      hide Step, Visits;
      assert Fragments(l) == [l];
      assert LineInStep(at, l, Quiet);
      assert Quiets(|lines|)[1..] == Quiets(|lines| - 1);
      InertAreInStep(at, lines[1..]);
    }
  }

  lemma {:induction false} RemovedInStep(at: Position, lines: seq<string>)
    ensures |Prefixed('-', lines)| == |lines|
    ensures InStep(at, Prefixed('-', lines), Quiets(|lines|)) <==> forall i | 0 <= i < |lines| :: RestIdle(at, lines[i])
  {
    if lines != [] {
      InertInStep(at, '-', lines[0]);
      RemovedInStep(at, lines[1..]);
      hide LineInStep, RestIdle;
      assert Quiets(|lines|)[1..] == Quiets(|lines| - 1);
      assert Prefixed('-', lines)[1..] == Prefixed('-', lines[1..]);
      assert forall i | 0 < i < |lines| :: lines[i] == lines[1..][i - 1];
    }
  }

  lemma OtherFirst(raw: string, p: string)
    requires raw != "" && p != "" && raw[0] != p[0]
    ensures !StartsWith(raw, p)
  {
  }

  /** How an added line looks to the scanner. */
  lemma PlusThenPlus(l: string)
    ensures IsFileHeader(['+'] + l) <==> StartsWith(l, "++ b/")
    ensures StartsWith(l, "++ b/") ==> (['+'] + l)[6..] == l[5..] && StartsWith(l, "++")
    ensures !IsHunkHeader(['+'] + l)
    ensures IsAdded(['+'] + l) <==> !StartsWith(l, "++")
    ensures !StartsWith(['+'] + l, " ")
  {
    var raw := ['+'] + l;
    assert raw[0] == '+' && raw[1..] == l;
    OtherFirst(raw, "@@");
    OtherFirst(raw, " ");
    assert StartsWith(raw, "+++ b/") <==> |raw| >= 6 && raw[..6] == "+++ b/";
    assert StartsWith(l, "++ b/") <==> |l| >= 5 && l[..5] == "++ b/";
    assert StartsWith(raw, "+++") <==> |raw| >= 3 && raw[..3] == "+++";
    assert StartsWith(l, "++") <==> |l| >= 2 && l[..2] == "++";
    if |l| >= 5 {
      assert raw[..6] == ['+'] + l[..5];
      assert "+++ b/" == ['+'] + "++ b/";
      assert raw[..6][1..] == l[..5];
    }
    if |l| >= 2 {
      assert raw[..3] == ['+'] + l[..2];
      assert "+++" == ['+'] + "++";
      assert raw[..3][1..] == l[..2];
    }
    if StartsWith(l, "++ b/") {
      assert l[..2] == l[..5][..2];
    }
  }

  /** An added line's first fragment `f`, from the sign on. */
  lemma AddedFirst(at: Position, f: string, l: string)
    requires at.line.Some?
    ensures Step(at, ['+'] + f) == Do(at, Adds(l)) && Visits(at, ['+'] + f) == See(at, Adds(l))
            <==> if at.file.Some? then f == LineText(l) && !StartsWith(f, "++")
                 else StartsWith(f, "++ b/") ==> !Tracked(f[5..])
  {
    var raw := ['+'] + f;
    assert raw[1..] == f;
    PlusThenPlus(f);
    StepCases(at, raw);
    hide Tracked, NewStart, IsFileHeader, IsHunkHeader, IsAdded, Step, Visits, LineText;
  }

  lemma AddedInStep(at: Position, l: string)
    requires at.line.Some?
    ensures LineInStep(at, ['+'] + l, Adds(l)) <==> AddedSteady(at, l)
  {
    FragmentsPrefix(['+'], l);
    var raws := Fragments(['+'] + l);
    AddedFirst(at, Fragments(l)[0], l);
    WholeLine(l);
    var next := Do(at, Adds(l));
    assert at.file.None? ==> next == at;
    hide Step, Visits, Idle, Still, AllIdle, Do, See, LineText, StartsWith, Unbroken, Fragments;
    assert raws[1..] == Fragments(l)[1..];
    AllIdleIsStill(next, raws[1..]);
    if at.file.Some? && Fragments(l) == [LineText(l)] {
      NothingLeft(next, Fragments(l)[1..]);
    }
  }

  lemma NothingLeft(at: Position, raws: seq<string>)
    requires raws == []
    ensures AllIdle(at, raws)
  {
  }

  lemma {:induction false} AdditionsInStep(base: Position, at: Position, lines: seq<string>)
    requires at.line.Some? && base.line.Some? && base.file == at.file && (at.file.None? ==> at == base)
    ensures |Prefixed('+', lines)| == |lines|
    ensures InStep(at, Prefixed('+', lines), Additions(lines)) <==> forall i | 0 <= i < |lines| :: AddedSteady(base, lines[i])
    decreases |lines|
  {
    if lines != [] {
      AddedInStep(at, lines[0]);
      assert AddedSteady(base, lines[0]) == AddedSteady(at, lines[0]);
      hide LineInStep, AddedSteady;
      AdditionsInStep(base, Do(at, Adds(lines[0])), lines[1..]);
      assert Prefixed('+', lines)[1..] == Prefixed('+', lines[1..]);
      assert Additions(lines)[1..] == Additions(lines[1..]);
      assert forall i | 0 < i < |lines| :: lines[i] == lines[1..][i - 1];
    }
  }

  lemma {:induction false} AdditionsShow(at: Position, lines: seq<string>)
    requires at.line.Some?
    ensures SeeAll(at, Additions(lines)) == if at.file.Some? then Numbered(at.file.value, at.line.value, lines) else []
    ensures DoAll(at, Additions(lines)).file == at.file
    decreases |lines|
  {
    if lines == [] {
      assert Additions(lines) == [];
    } else {
      var next, rest := Do(at, Adds(lines[0])), Additions(lines[1..]);
      AdditionsShow(next, lines[1..]);
      hide LineText;
      assert ([Adds(lines[0])] + rest)[1..] == rest;
      assert SeeAll(at, [Adds(lines[0])] + rest) == See(at, Adds(lines[0])) + SeeAll(next, rest);
      assert DoAll(at, [Adds(lines[0])] + rest) == DoAll(next, rest);
    }
  }

  lemma {:induction false} SeeConcat(at: Position, a: seq<Role>, b: seq<Role>)
    ensures SeeAll(at, a + b) == SeeAll(at, a) + SeeAll(DoAll(at, a), b)
    ensures DoAll(at, a + b) == DoAll(DoAll(at, a), b)
    decreases |a|
  {
    if a == [] {
      assert a + b == b;
    } else {
      hide Do, See;
      assert (a + b)[1..] == a[1..] + b;
      SeeConcat(Do(at, a[0]), a[1..], b);
      var next := Do(at, a[0]);
      assert See(at, a[0]) + (SeeAll(next, a[1..]) + SeeAll(DoAll(next, a[1..]), b))
          == See(at, a[0]) + SeeAll(next, a[1..]) + SeeAll(DoAll(next, a[1..]), b);
    }
  }

  lemma HeaderInStep(at: Position, h: Hunk)
    ensures LineInStep(at, HunkRange(h) + h.heading, Starts(h.newStart))
            <==> RestIdle(Position(at.file, Some(h.newStart)), h.heading)
  {
    var raws := Fragments(HunkRange(h) + h.heading);
    RangeIsUnbroken(h);
    FragmentsPrefix(HunkRange(h), h.heading);
    HeaderGivesStart(h, Fragments(h.heading)[0]);
    StepCases(at, raws[0]);
    KindsOfLine(raws[0]);
    assert raws[0][0] == '@';
    OtherFirst(raws[0], "+++ b/");
    hide HunkRange, NewStart, Step, Visits, Idle, Fragments, IsFileHeader, IsHunkHeader, IsAdded, Tracked, StartsWith, Unbroken;
    assert raws[1..] == Fragments(h.heading)[1..];
    AllIdleIsStill(Position(at.file, Some(h.newStart)), raws[1..]);
  }

  lemma {:induction false} RemovedPartInStep(at: Position, h: Hunk)
    ensures InStep(at, RemovedPart(h), Quiets(|RemovedPart(h)|)) <==> forall i | 0 <= i < |h.removed| :: RestIdle(at, h.removed[i])
  {
    var ended := Ending(h.oldUnended);
    EndingInStep(at, h.oldUnended);
    DoQuiets(at, |h.removed|);
    hide InStep, RestIdle, DoAll, SeeAll, Ending, Prefixed;
    RemovedInStep(at, h.removed);
    assert Quiets(|RemovedPart(h)|) == Quiets(|h.removed|) + Quiets(|ended|);
    InStepConcat(at, Prefixed('-', h.removed), Quiets(|h.removed|), ended, Quiets(|ended|));
  }

  lemma {:induction false} AddedPartInStep(at: Position, h: Hunk)
    requires at.line.Some?
    ensures |AddedPart(h)| == |Additions(h.added) + Quiets(|Ending(h.newUnended)|)|
    ensures InStep(at, AddedPart(h), Additions(h.added) + Quiets(|Ending(h.newUnended)|))
            <==> forall i | 0 <= i < |h.added| :: AddedSteady(at, h.added[i])
  {
    var ended := Ending(h.newUnended);
    EndingInStep(DoAll(at, Additions(h.added)), h.newUnended);
    hide InStep, AddedSteady, DoAll, Ending, Prefixed, Additions, Quiets;
    AdditionsInStep(at, at, h.added);
    InStepConcat(at, Prefixed('+', h.added), Additions(h.added), ended, Quiets(|ended|));
  }

  lemma {:induction false} EndingInStep(at: Position, unended: bool)
    ensures InStep(at, Ending(unended), Quiets(|Ending(unended)|))
  {
    assert Unbroken(UNENDED);
    hide InStep;
    InertAreInStep(at, Ending(unended));
  }

  /** A hunk is read in step, from any line, exactly when it is steady. */
  lemma {:induction false} HunkInStep(at: Position, h: Hunk)
    ensures |PrintHunk(h)| == |HunkRoles(h)|
    ensures InStep(at, PrintHunk(h), HunkRoles(h)) <==> HunkSteady(at.file, h)
  {
    var start := Position(at.file, Some(h.newStart));
    var first, role := HunkRange(h) + h.heading, Starts(h.newStart);
    var removed, added := RemovedPart(h), AddedPart(h);
    var quiet, adds := Quiets(|removed|), Additions(h.added) + Quiets(|Ending(h.newUnended)|);
    HeaderInStep(at, h);
    RemovedPartInStep(start, h);
    AddedPartInStep(start, h);
    DoQuiets(start, |removed|);
    hide HunkRange, RemovedPart, AddedPart, LineInStep, AddedSteady, RestIdle;
    InStepConcat(start, removed, quiet, added, adds);
    assert PrintHunk(h)[0] == first && PrintHunk(h)[1..] == removed + added;
    assert HunkRoles(h)[0] == role && HunkRoles(h)[1..] == quiet + adds;
    assert Do(at, role) == start;
  }

  lemma {:induction false} HunkShows(at: Position, h: Hunk)
    ensures SeeAll(at, HunkRoles(h)) == if at.file.Some? then Numbered(at.file.value, h.newStart, h.added) else []
    ensures DoAll(at, HunkRoles(h)).file == at.file
  {
    var start := Position(at.file, Some(h.newStart));
    var removed, ended := |RemovedPart(h)|, |Ending(h.newUnended)|;
    var adds, after := Additions(h.added), DoAll(start, Additions(h.added));
    AdditionsShow(start, h.added);
    DoQuiets(start, removed);
    DoQuiets(after, ended);
    hide RemovedPart, Quiets, Additions, Numbered;
    SeeConcat(start, Quiets(removed), adds + Quiets(ended));
    SeeConcat(start, adds, Quiets(ended));
    assert HunkRoles(h)[0] == Starts(h.newStart) && HunkRoles(h)[1..] == Quiets(removed) + (adds + Quiets(ended));
    assert Do(at, Starts(h.newStart)) == start && See(at, Starts(h.newStart)) == [];
    assert DoAll(at, HunkRoles(h)) == after;
  }

  lemma {:induction false} HunksInStep(at: Position, hunks: seq<Hunk>)
    ensures |PrintHunks(hunks)| == |HunksRoles(hunks)|
    ensures InStep(at, PrintHunks(hunks), HunksRoles(hunks)) <==> forall i | 0 <= i < |hunks| :: HunkSteady(at.file, hunks[i])
    decreases |hunks|
  {
    if hunks != [] {
      hide PrintHunk, HunkRoles, HunkSteady, InStep;
      var after := DoAll(at, HunkRoles(hunks[0]));
      HunkInStep(at, hunks[0]);
      HunkShows(at, hunks[0]);
      HunksInStep(after, hunks[1..]);
      InStepConcat(at, PrintHunk(hunks[0]), HunkRoles(hunks[0]), PrintHunks(hunks[1..]), HunksRoles(hunks[1..]));
      assert forall i | 0 < i < |hunks| :: hunks[i] == hunks[1..][i - 1];
    }
  }

  lemma {:induction false} HunksShow(at: Position, hunks: seq<Hunk>)
    ensures SeeAll(at, HunksRoles(hunks)) == if at.file.Some? then TrueLines(at.file.value, hunks) else []
    decreases |hunks|
  {
    if hunks != [] {
      hide HunkRoles, Numbered;
      HunkShows(at, hunks[0]);
      SeeConcat(at, HunkRoles(hunks[0]), HunksRoles(hunks[1..]));
      HunksShow(DoAll(at, HunkRoles(hunks[0])), hunks[1..]);
    }
  }

  // ----- Sections -----

  lemma {:induction false} BaseNameEnd(path: string)
    ensures BaseName(path) == "" || (path != "" && BaseName(path)[|BaseName(path)| - 1] == path[|path| - 1])
  {
  }

  lemma {:induction false} SkipDotsEnd(s: string)
    ensures SkipDots(s) == "" || (s != "" && SkipDots(s)[|SkipDots(s)| - 1] == s[|s| - 1])
  {
    if s != "" && s[0] == '.' {
      SkipDotsEnd(s[1..]);
    }
  }

  lemma {:induction false} FromLastDotEnd(s: string)
    ensures FromLastDot(s) == "" || (s != "" && FromLastDot(s)[|FromLastDot(s)| - 1] == s[|s| - 1])
  {
    if '.' in s && '.' in s[1..] {
      FromLastDotEnd(s[1..]);
    }
  }

  /** The tab after a name with a space hides the file's extension. */
  lemma ShownIsTracked(path: string)
    ensures Tracked(PathShown(path)) <==> Tracked(path) && ' ' !in path
  {
    var shown := PathShown(path);
    if ' ' in path {
      BaseNameEnd(shown);
      SkipDotsEnd(BaseName(shown));
      FromLastDotEnd(SkipDots(BaseName(shown)));
      var e := Extension(shown);
      assert e == "" || e[|e| - 1] == '\t';
    } else {
      assert shown == path;
    }
  }

  /** The file the scanner takes the hunks of a section to be of. */
  function FileRead(at: Position, s: Section): Option<string> {
    if !s.kind.Changed? then at.file
    else if ' ' in s.path then None
    else TrackedName(s.path)
  }

  lemma OneLine(raw: string)
    requires Unbroken(raw)
    ensures Fragments(raw) == [raw] && Raws([raw]) == [raw]
  {
    EmptyLines();
    FragmentsPrefix(raw, "");
    hide Fragments;
    assert raw + "" == raw && [raw][1..] == [] && [raw] + [] == [raw];
  }

  lemma ShownIsUnbroken(path: string)
    requires forall c <- path :: ' ' <= c <= '~' && c != '"' && c != '\\'
    ensures Unbroken(PathShown(path))
  {
    forall i | 0 <= i < |path| ensures !IsBreak(path[i]) {
      assert path[i] in path;
    }
    assert Unbroken(path) && Unbroken("") && Unbroken("\t");
    UnbrokenConcat(path, if ' ' in path then "\t" else "");
  }

  lemma {:induction false} OneRead(at: Position, raw: string)
    ensures Visited(at, [raw]) == Visits(at, raw) && After(at, [raw]) == Step(at, raw)
  {
    hide Visits, Step;
    assert [raw][1..] == [];
    assert Visits(at, raw) + [] == Visits(at, raw);
  }

  lemma HeaderReads(at: Position, name: string)
    ensures Visits(at, "+++ b/" + name) == [] && Step(at, "+++ b/" + name) == at.(file := TrackedName(name))
  {
    var raw := "+++ b/" + name;
    assert raw[6..] == name && raw[..6] == "+++ b/" && raw[..3] == "+++";
    StepCases(at, raw);
    KindsOfLine(raw);
    hide Step, Visits, Tracked;
  }

  lemma NameIsUnbroken(name: string)
    requires Unbroken(name)
    ensures Unbroken("+++ b/" + name)
  {
    assert Unbroken("+++ b/");
    hide Unbroken;
    UnbrokenConcat("+++ b/", name);
  }

  lemma NoNameReads(at: Position)
    ensures Visits(at, "+++ /dev/null") == [] && Step(at, "+++ /dev/null") == at
    ensures Unbroken("+++ /dev/null")
  {
    var raw := "+++ /dev/null";
    assert raw[4] == '/' && raw[0] == '+' && raw[..3] == "+++";
    assert !StartsWith(raw, "+++ b/") by { assert "+++ b/"[4] == 'b'; }
    StepCases(at, raw);
    KindsOfLine(raw);
    OtherFirst(raw, "@@");
    OtherFirst(raw, " ");
    hide Step, Visits, Tracked, NewStart;
  }

  lemma ReadNameIs(at: Position, s: Section)
    requires WellFormed(s) && s.kind.Changed?
    ensures TrackedName(PathShown(s.path)) == FileRead(at, s) && Unbroken(PathShown(s.path))
  {
    ShownIsTracked(s.path);
    ShownIsUnbroken(s.path);
    hide Tracked;
    assert ' ' !in s.path ==> PathShown(s.path) == s.path;
  }

  lemma {:induction false} NameLineReads(at: Position, s: Section)
    requires WellFormed(s)
    ensures forall l <- NameLine(s) :: Fragments(l) == [l]
    ensures Raws(NameLine(s)) == NameLine(s)
    ensures Visited(at, NameLine(s)) == [] && After(at, NameLine(s)) == at.(file := FileRead(at, s))
  {
    hide WellFormed, Visits, Step, Visited, After, Raws, Fragments, TrackedName, PathShown;
    if s.kind.Changed? {
      var shown := PathShown(s.path);
      ReadNameIs(at, s);
      HeaderReads(at, shown);
      NameIsUnbroken(shown);
      OneLine("+++ b/" + shown);
      OneRead(at, "+++ b/" + shown);
    } else if s.kind.Deleted? {
      NoNameReads(at);
      OneLine("+++ /dev/null");
      OneRead(at, "+++ /dev/null");
    } else {
      NothingRead(at);
    }
  }

  lemma {:induction false} NothingRead(at: Position)
    ensures Raws([]) == [] && Visited(at, []) == [] && After(at, []) == at
  {
  }

  lemma {:induction false} OneInStep(at: Position, l: string, role: Role)
    requires Fragments(l) == [l]
    ensures InStep(at, [l], [role]) <==> Step(at, l) == Do(at, role) && Visits(at, l) == See(at, role)
    ensures DoAll(at, [role]) == Do(at, role) && SeeAll(at, [role]) == See(at, role)
  {
    hide Step, Visits, Do, See;
    assert [l][1..] == [] && [role][1..] == [];
    assert See(at, role) + [] == See(at, role);
  }

  lemma {:induction false} NameInStep(at: Position, s: Section)
    requires WellFormed(s)
    ensures InStep(at, NameLine(s), NameRoles(s)) <==> (s.kind.Changed? && Tracked(s.path) ==> ' ' !in s.path)
    ensures DoAll(at, NameRoles(s)) == at.(file := FileOf(at.file, s)) && SeeAll(at, NameRoles(s)) == []
  {
    if s.kind.Bodiless? {
      assert InStep(at, [], []);
    } else {
      hide WellFormed, Visits, Step, InStep, DoAll, SeeAll, Tracked, Fragments;
      NameLineReads(at, s);
      var l, role := NameLine(s)[0], NameRoles(s)[0];
      assert NameLine(s) == [l] && NameRoles(s) == [role];
      OneRead(at, l);
      OneInStep(at, l, role);
    }
  }

  lemma {:induction false} SectionParts(at: Position, s: Section)
    requires WellFormed(s)
    ensures |PrintSection(s)| == |Roles(s)|
    ensures InStep(at, s.header, Quiets(|s.header|))
    ensures DoAll(at, Quiets(|s.header|)) == at && SeeAll(at, Quiets(|s.header|)) == []
  {
    InertAreInStep(at, s.header);
    DoQuiets(at, |s.header|);
    HunksInStep(at, s.hunks);
  }

  /** A section is read in step, each raw line doing exactly what the printed line it comes
      from means, if and only if it is steady. */
  lemma {:induction false} SectionInStepIffSteady(at: Position, s: Section)
    requires WellFormed(s)
    ensures |PrintSection(s)| == |Roles(s)|
    ensures InStep(at, PrintSection(s), Roles(s)) <==> Steady(at.file, s)
  {
    var quiet, next := Quiets(|s.header|), at.(file := FileOf(at.file, s));
    SectionParts(at, s);
    NameInStep(at, s);
    HunksInStep(next, s.hunks);
    hide Quiets, NameLine, NameRoles, PrintHunks, HunksRoles, InStep, DoAll, HunkSteady, Tracked;
    InStepConcat(at, s.header, quiet, NameLine(s) + PrintHunks(s.hunks), NameRoles(s) + HunksRoles(s.hunks));
    InStepConcat(at, NameLine(s), NameRoles(s), PrintHunks(s.hunks), HunksRoles(s.hunks));
  }

  lemma {:induction false} NoLines(file: string, hunks: seq<Hunk>)
    requires AddedLines(hunks) == []
    ensures TrueLines(file, hunks) == []
  {
    if hunks != [] {
      NoLines(file, hunks[1..]);
    }
  }

  /** What a section means is what it truly adds. */
  lemma {:induction false} RolesShow(at: Position, s: Section)
    requires WellFormed(s)
    ensures SeeAll(at, Roles(s)) == TrueAdded(s)
  {
    var next := at.(file := FileOf(at.file, s));
    SectionParts(at, s);
    NameInStep(at, s);
    HunksShow(next, s.hunks);
    if !s.kind.Changed? {
      NoLines(if at.file.Some? then at.file.value else "", s.hunks);
      NoLines(s.path, s.hunks);
    }
    hide Quiets, NameRoles, HunksRoles, TrueLines, Tracked, DoAll, SeeAll, InStep, AddedLines;
    SeeConcat(at, Quiets(|s.header|), NameRoles(s) + HunksRoles(s.hunks));
    SeeConcat(at, NameRoles(s), HunksRoles(s.hunks));
  }

  lemma {:induction false} SteadyIsExact(at: Position, s: Section)
    requires WellFormed(s) && Steady(at.file, s)
    ensures Visited(at, Raws(PrintSection(s))) == TrueAdded(s)
  {
    SectionInStepIffSteady(at, s);
    RolesShow(at, s);
    hide *;
    InStepReads(at, PrintSection(s), Roles(s));
  }

  // ----- Exactly the added lines -----

  /** What follows a break in a heading or a removed line is neither a header nor content. */
  predicate Harmless(h: Hunk) {
    && (forall i | 1 <= i < |Fragments(h.heading)| :: Inert(Fragments(h.heading)[i]))
    && (forall k | 0 <= k < |h.removed| ::
          forall i | 1 <= i < |Fragments(h.removed[k])| :: Inert(Fragments(h.removed[k])[i]))
  }

  /** Added lines that are read whole and do not begin with two plus signs. */
  predicate Plain(lines: seq<string>) {
    forall i | 0 <= i < |lines| :: Unbroken(LineText(lines[i])) && !StartsWith(LineText(lines[i]), "++")
  }

  /** No raw line of these is taken for an added line of a tracked file. */
  predicate Unseen(raws: seq<string>, on: bool) {
    raws == []
    || (if IsFileHeader(raws[0]) then Unseen(raws[1..], Tracked(raws[0][6..]))
        else !(on && IsAdded(raws[0])) && Unseen(raws[1..], on))
  }

  predicate Adding(s: Section) {
    Tracked(s.path) && AddedLines(s.hunks) != []
  }

  /** What the scanner needs of a section: of a tracked file that adds something, a name
      without a space and plain added lines; of another, no raw line that is taken for an added
      line of the file the scanner is at. */
  predicate Readable(at: Position, s: Section) {
    if Adding(s) then ' ' !in s.path && Plain(AddedLines(s.hunks))
    else Unseen(Raws(PrintHunks(s.hunks)), FileRead(at, s).Some?)
  }

  predicate NamesTracked(raw: string) {
    IsFileHeader(raw) && Tracked(raw[6..])
  }

  /** The raw line at `h` is the last before `i` that names a file. */
  predicate NamedAt(raws: seq<string>, h: nat, i: nat) {
    && h < i <= |raws| && IsFileHeader(raws[h])
    && forall k | h < k < i :: !IsFileHeader(raws[k])
  }

  /** Before `i` the last file named, or without one the file the scanner is at, is tracked. */
  predicate TrackedAt(raws: seq<string>, i: nat, on: bool) {
    || (exists h | 0 <= h < i :: NamedAt(raws, h, i) && NamesTracked(raws[h]))
    || (on && i <= |raws| && forall k | 0 <= k < i :: !IsFileHeader(raws[k]))
  }

  lemma TrackedAtNext(raws: seq<string>, i: nat, on: bool)
    requires i < |raws| - 1
    ensures TrackedAt(raws, i + 1, on)
            <==> TrackedAt(raws[1..], i, if IsFileHeader(raws[0]) then NamesTracked(raws[0]) else on)
  {
    hide IsFileHeader, NamesTracked;
    var rest := raws[1..];
    assert forall k | 0 <= k < |rest| :: rest[k] == raws[k + 1];
    forall h | 0 <= h < i ensures NamedAt(raws, h + 1, i + 1) == NamedAt(rest, h, i) {
      assert NamedAt(rest, h, i) ==> forall k | h + 1 < k < i + 1 :: raws[k] == rest[k - 1];
    }
    if TrackedAt(raws, i + 1, on) && exists h | 0 <= h < i + 1 :: NamedAt(raws, h, i + 1) && NamesTracked(raws[h]) {
      var h :| 0 <= h < i + 1 && NamedAt(raws, h, i + 1) && NamesTracked(raws[h]);
      if h > 0 {
        assert NamedAt(rest, h - 1, i) && rest[h - 1] == raws[h];
      }
    }
    if exists h | 0 <= h < i :: NamedAt(rest, h, i) && NamesTracked(rest[h]) {
      var h :| 0 <= h < i && NamedAt(rest, h, i) && NamesTracked(rest[h]);
      assert NamedAt(raws, h + 1, i + 1) && raws[h + 1] == rest[h];
    }
    if IsFileHeader(raws[0]) && forall k | 0 <= k < i :: !IsFileHeader(rest[k]) {
      assert forall k | 0 < k < i + 1 :: raws[k] == rest[k - 1];
      assert NamedAt(raws, 0, i + 1);
    }
  }

  /** So a section that adds nothing to a tracked file is readable exactly when each raw line
      like an added one stands where no tracked file is named. */
  lemma {:induction false} UnseenIffNamed(raws: seq<string>, on: bool)
    ensures Unseen(raws, on) <==> forall i | 0 <= i < |raws| && IsAdded(raws[i]) :: !TrackedAt(raws, i, on)
    decreases |raws|
  {
    hide Tracked;
    if raws != [] {
      var next := if IsFileHeader(raws[0]) then Tracked(raws[0][6..]) else on;
      var rest := raws[1..];
      KindsOfLine(raws[0]);
      assert IsFileHeader(raws[0]) ==> raws[0][..6] == "+++ b/" && raws[0][..3] == "+++";
      UnseenIffNamed(rest, next);
      hide IsFileHeader, IsAdded;
      assert TrackedAt(raws, 0, on) == on;
      forall i | 0 <= i < |rest| ensures TrackedAt(raws, i + 1, on) == TrackedAt(rest, i, next) && rest[i] == raws[i + 1] {
        TrackedAtNext(raws, i, on);
      }
      hide TrackedAt;
      assert forall i | 0 < i < |raws| :: raws[i] == rest[i - 1];
    }
  }

  lemma {:induction false} UnseenIffNone(at: Position, raws: seq<string>)
    ensures Visited(at, raws) == [] <==> Unseen(raws, at.file.Some?)
    decreases |raws|
  {
    if raws != [] {
      StepCases(at, raws[0]);
      UnseenIffNone(Step(at, raws[0]), raws[1..]);
    }
  }

  /** Whatever is looked at is a whole line that does not begin with two plus signs. */
  lemma {:induction false} VisitsArePlain(at: Position, raws: seq<string>)
    requires forall i | 0 <= i < |raws| :: Unbroken(raws[i])
    ensures forall i | 0 <= i < |Visited(at, raws)| ::
              Unbroken(Visited(at, raws)[i].text) && !StartsWith(Visited(at, raws)[i].text, "++")
    decreases |raws|
  {
    if raws != [] {
      var raw := raws[0];
      hide Step;
      assert forall i | 0 <= i < |raws| - 1 :: raws[1..][i] == raws[i + 1];
      VisitsArePlain(Step(at, raw), raws[1..]);
      if IsAdded(raw) {
        assert raw[0] == '+';
        assert raw == ['+'] + raw[1..];
        PlusThenPlus(raw[1..]);
      }
    }
  }

  lemma {:induction false} RawsAreUnbroken(lines: seq<string>)
    ensures forall i | 0 <= i < |Raws(lines)| :: Unbroken(Raws(lines)[i])
  {
    if lines != [] {
      SplitIsUnbroken(lines[0] + "\n");
      RawsAreUnbroken(lines[1..]);
      hide Unbroken, Fragments;
      assert forall i | 0 <= i < |Fragments(lines[0])| :: Fragments(lines[0])[i] in SplitLines(lines[0] + "\n");
    }
  }

  lemma {:induction false} NumberedTexts(file: string, line: nat, lines: seq<string>)
    ensures |Numbered(file, line, lines)| == |lines|
    ensures forall i | 0 <= i < |lines| :: Numbered(file, line, lines)[i].text == LineText(lines[i])
    decreases |lines|
  {
    if lines != [] {
      hide LineText;
      NumberedTexts(file, line + 1, lines[1..]);
    }
  }

  lemma {:induction false} TrueLinesTexts(file: string, hunks: seq<Hunk>)
    ensures |TrueLines(file, hunks)| == |AddedLines(hunks)|
    ensures forall i | 0 <= i < |AddedLines(hunks)| :: TrueLines(file, hunks)[i].text == LineText(AddedLines(hunks)[i])
  {
    if hunks != [] {
      hide LineText;
      NumberedTexts(file, hunks[0].newStart, hunks[0].added);
      TrueLinesTexts(file, hunks[1..]);
    }
  }

  /** A section's header leads to its hunks, with the file the scanner takes them to be of. */
  lemma {:induction false} SectionReadsHunks(at: Position, s: Section)
    requires WellFormed(s)
    ensures Visited(at, Raws(PrintSection(s))) == Visited(at.(file := FileRead(at, s)), Raws(PrintHunks(s.hunks)))
  {
    var quiet := Quiets(|s.header|);
    SectionParts(at, s);
    NameLineReads(at, s);
    hide PrintHunks, NameLine, Visited, After, FileRead, WellFormed, Raws, InStep, Quiets;
    InStepReads(at, s.header, quiet);
    RawsConcat(s.header, NameLine(s) + PrintHunks(s.hunks));
    RawsConcat(NameLine(s), PrintHunks(s.hunks));
    VisitedConcat(at, Raws(s.header), Raws(NameLine(s)) + Raws(PrintHunks(s.hunks)));
    VisitedConcat(at, Raws(NameLine(s)), Raws(PrintHunks(s.hunks)));
  }

  lemma HarmlessIsIdle(at: Position, l: string)
    requires forall i | 1 <= i < |Fragments(l)| :: Inert(Fragments(l)[i])
    ensures RestIdle(at, l)
  {
    var raws := Fragments(l);
    forall i | 0 <= i < |raws[1..]| ensures Idle(at, raws[1..][i]) {
      assert Inert(raws[i + 1]);
      InertIsIdle(at, raws[i + 1]);
    }
  }

  lemma PlainIsSteady(at: Position, l: string)
    requires Unbroken(LineText(l)) && !StartsWith(LineText(l), "++")
    ensures AddedSteady(at, l)
  {
    WholeLine(l);
    PlusThenPlus(LineText(l));
  }

  lemma PlainHunkIsSteady(file: Option<string>, h: Hunk)
    requires Harmless(h) && Plain(h.added)
    ensures HunkSteady(file, h)
  {
    var at := Position(file, Some(h.newStart));
    HarmlessIsIdle(at, h.heading);
    forall i | 0 <= i < |h.removed| ensures RestIdle(at, h.removed[i]) {
      HarmlessIsIdle(at, h.removed[i]);
    }
    forall i | 0 <= i < |h.added| ensures AddedSteady(at, h.added[i]) {
      PlainIsSteady(at, h.added[i]);
    }
  }

  lemma {:induction false} PlainHunks(hunks: seq<Hunk>)
    requires Plain(AddedLines(hunks))
    ensures forall i | 0 <= i < |hunks| :: Plain(hunks[i].added)
  {
    if hunks != [] {
      hide LineText;
      var h, rest := hunks[0], AddedLines(hunks[1..]);
      assert forall i | 0 <= i < |h.added| :: h.added[i] == AddedLines(hunks)[i];
      assert forall i | 0 <= i < |rest| :: rest[i] == AddedLines(hunks)[|h.added| + i];
      PlainHunks(hunks[1..]);
      assert forall i | 0 < i < |hunks| :: hunks[i] == hunks[1..][i - 1];
    }
  }

  /** Plain hunks read as their lines, or as nothing when the scanner is at no file. */
  lemma {:induction false} PlainHunksRead(at: Position, hunks: seq<Hunk>)
    requires forall i | 0 <= i < |hunks| :: Harmless(hunks[i])
    requires Plain(AddedLines(hunks))
    ensures Visited(at, Raws(PrintHunks(hunks))) == if at.file.Some? then TrueLines(at.file.value, hunks) else []
  {
    PlainHunks(hunks);
    forall i | 0 <= i < |hunks| ensures HunkSteady(at.file, hunks[i]) {
      PlainHunkIsSteady(at.file, hunks[i]);
    }
    HunksInStep(at, hunks);
    HunksShow(at, hunks);
    hide *;
    InStepReads(at, PrintHunks(hunks), HunksRoles(hunks));
  }

  /** A section reads as exactly its added lines, in order and at their true numbers, if and
      only if it meets the scanner's conditions. When a tracked file adds lines, what follows
      a break in a heading or a removed line must be harmless: such a raw line that is taken
      for an added one and another that hides an added one could make up for each other. */
  lemma {:induction false} SectionIsExactIffReadable(at: Position, s: Section)
    requires WellFormed(s)
    requires Adding(s) ==> forall i | 0 <= i < |s.hunks| :: Harmless(s.hunks[i])
    ensures Visited(at, Raws(PrintSection(s))) == TrueAdded(s) <==> Readable(at, s)
  {
    hide PrintHunks, PrintSection, Visited, Tracked, Raws, Harmless, LineText;
    var added := AddedLines(s.hunks);
    var start := at.(file := FileRead(at, s));
    SectionReadsHunks(at, s);
    TrueLinesTexts(s.path, s.hunks);
    if !Adding(s) {
      UnseenIffNone(start, Raws(PrintHunks(s.hunks)));
    } else if Plain(added) {
      PlainHunksRead(start, s.hunks);
    } else {
      RawsAreUnbroken(PrintSection(s));
      VisitsArePlain(at, Raws(PrintSection(s)));
      var i :| 0 <= i < |added| && !(Unbroken(LineText(added[i])) && !StartsWith(LineText(added[i]), "++"));
      assert TrueAdded(s)[i].text == LineText(added[i]);
    }
  }

  // ----- Whole diffs -----

  function DiffRoles(sections: seq<Section>): seq<Role> {
    if sections == [] then [] else Roles(sections[0]) + DiffRoles(sections[1..])
  }

  predicate AllSteady(file: Option<string>, sections: seq<Section>)
    decreases |sections|
  {
    sections == [] || (Steady(file, sections[0]) && AllSteady(FileOf(file, sections[0]), sections[1..]))
  }

  lemma {:induction false} SectionLeaves(at: Position, s: Section)
    requires WellFormed(s)
    ensures DoAll(at, Roles(s)).file == FileOf(at.file, s)
  {
    SectionParts(at, s);
    NameInStep(at, s);
    hide Quiets, NameRoles, HunksRoles, DoAll, InStep, WellFormed;
    HunksLeave(at.(file := FileOf(at.file, s)), s.hunks);
    SeeConcat(at, Quiets(|s.header|), NameRoles(s) + HunksRoles(s.hunks));
    SeeConcat(at, NameRoles(s), HunksRoles(s.hunks));
  }

  lemma {:induction false} HunksLeave(at: Position, hunks: seq<Hunk>)
    ensures DoAll(at, HunksRoles(hunks)).file == at.file
    decreases |hunks|
  {
    if hunks != [] {
      hide HunkRoles;
      HunkShows(at, hunks[0]);
      SeeConcat(at, HunkRoles(hunks[0]), HunksRoles(hunks[1..]));
      HunksLeave(DoAll(at, HunkRoles(hunks[0])), hunks[1..]);
    }
  }

  /** A diff is read in step if and only if each section is steady where it stands, and then
      exactly the added lines are looked at. */
  lemma {:induction false} DiffInStepIffSteady(at: Position, sections: seq<Section>)
    requires forall i | 0 <= i < |sections| :: WellFormed(sections[i])
    ensures |PrintDiff(sections)| == |DiffRoles(sections)|
    ensures InStep(at, PrintDiff(sections), DiffRoles(sections)) <==> AllSteady(at.file, sections)
    ensures SeeAll(at, DiffRoles(sections)) == AllAdded(sections)
    decreases |sections|
  {
    if sections != [] {
      var s, rest := sections[0], sections[1..];
      hide PrintSection, Roles, Steady, WellFormed, InStep, DoAll, SeeAll, TrueAdded;
      assert forall i | 0 <= i < |rest| :: rest[i] == sections[i + 1];
      SectionInStepIffSteady(at, s);
      RolesShow(at, s);
      SectionLeaves(at, s);
      DiffInStepIffSteady(DoAll(at, Roles(s)), rest);
      InStepConcat(at, PrintSection(s), Roles(s), PrintDiff(rest), DiffRoles(rest));
      SeeConcat(at, Roles(s), DiffRoles(rest));
    }
  }

  /** The scanner shows the section as it is, wherever it stands. */
  predicate Shown(s: Section) {
    if s.kind.Changed? then
      || Steady(None, s)
      || ((Adding(s) ==> forall i | 0 <= i < |s.hunks| :: Harmless(s.hunks[i])) && Readable(START, s))
    else forall i | 0 <= i < |s.hunks| :: Harmless(s.hunks[i])
  }

  lemma {:induction false} ShownIsExact(at: Position, s: Section)
    requires WellFormed(s) && Shown(s)
    ensures Visited(at, Raws(PrintSection(s))) == TrueAdded(s)
  {
    hide PrintHunks, PrintSection, Raws, Visited, Harmless, Tracked;
    if !s.kind.Changed? {
      SectionReadsHunks(at, s);
      PlainHunksRead(at, s.hunks);
      NoLines(if at.file.Some? then at.file.value else "", s.hunks);
      NoLines(s.path, s.hunks);
    } else if Steady(None, s) {
      SteadyIsExact(at, s);
    } else {
      SectionIsExactIffReadable(at, s);
    }
  }

  lemma {:induction false} DiffReadsAsAdded(at: Position, sections: seq<Section>)
    requires forall i | 0 <= i < |sections| :: WellFormed(sections[i]) && Shown(sections[i])
    ensures Visited(at, Raws(PrintDiff(sections))) == AllAdded(sections)
    decreases |sections|
  {
    if sections != [] {
      var s, rest := sections[0], sections[1..];
      hide PrintSection, Visited, TrueAdded, Shown, WellFormed, After;
      assert forall i | 0 <= i < |rest| :: rest[i] == sections[i + 1];
      ShownIsExact(at, s);
      RawsConcat(PrintSection(s), PrintDiff(rest));
      VisitedConcat(at, Raws(PrintSection(s)), Raws(PrintDiff(rest)));
      DiffReadsAsAdded(After(at, Raws(PrintSection(s))), rest);
    } else {
      assert Visited(at, []) == [];
    }
  }

  /** The scan reports exactly each marker of each added line of the tracked files, in order,
      at its line in the new file: on a diff read in step, and on one whose sections are shown
      as they are. */
  lemma {:induction false} ScanIsExact(sections: seq<Section>)
    requires forall i | 0 <= i < |sections| :: WellFormed(sections[i])
    requires AllSteady(None, sections) || forall i | 0 <= i < |sections| :: Shown(sections[i])
    ensures Hits(Visited(START, SplitLines(TextOf(PrintDiff(sections))))) == Hits(AllAdded(sections))
  {
    SplitText(PrintDiff(sections));
    hide WellFormed, Shown, Steady, InStep, Visited, SplitLines, Raws;
    if AllSteady(None, sections) {
      DiffInStepIffSteady(START, sections);
      InStepReads(START, PrintDiff(sections), DiffRoles(sections));
    } else {
      DiffReadsAsAdded(START, sections);
    }
  }

  // ----- What goes wrong -----

  const FORM_FEED: char := '\U{0C}'

  lemma {:induction false} NumberedTwo(path: string, start: nat, a: string, b: string)
    ensures Numbered(path, start, [a, b]) == [Visit(path, start, LineText(a)), Visit(path, start + 1, LineText(b))]
  {
    hide LineText;
    assert [a, b][1..] == [b] && [b][1..] == [];
    assert Numbered(path, start + 1, [b]) == [Visit(path, start + 1, LineText(b))] + Numbered(path, start + 2, []);
  }

  /** A section of one hunk is read from its first number on. */
  lemma {:induction false} OneHunkRead(path: string, h: Hunk)
    requires Tracked(path) && ' ' !in path && forall c <- path :: '!' <= c <= '~' && c != '"' && c != '\\'
    requires h.heading == ""
    ensures var s := Section(Changed, path, [], [h]);
            && WellFormed(s)
            && TrueAdded(s) == Numbered(path, h.newStart, h.added)
            && Visited(START, Raws(PrintSection(s)))
               == Visited(Position(Some(path), Some(h.newStart)), Raws(RemovedPart(h) + AddedPart(h)))
  {
    var s := Section(Changed, path, [], [h]);
    assert [h][1..] == [];
    assert TrueLines(path, [h]) == Numbered(path, h.newStart, h.added) + TrueLines(path, []);
    SectionReadsHunks(START, s);
    var at, start := Position(Some(path), None), Position(Some(path), Some(h.newStart));
    var first := HunkRange(h) + h.heading;
    RangeIsUnbroken(h);
    hide Tracked, HunkRange, RemovedPart, AddedPart, Unbroken, TrueLines, Numbered, NewStart, Fragments;
    assert first == HunkRange(h);
    OneLine(first);
    HeaderGivesStart(h, "");
    StepCases(at, first);
    KindsOfLine(first);
    assert first[0] == '@';
    OtherFirst(first, "+++ b/");
    assert PrintHunks([h]) == PrintHunk(h) + [];
    assert PrintHunk(h) + [] == [first] + (RemovedPart(h) + AddedPart(h));
    RawsConcat([first], RemovedPart(h) + AddedPart(h));
    hide PrintHunks, PrintHunk, Raws, IsFileHeader, IsHunkHeader, StartsWith;
    VisitedConcat(at, [first], Raws(RemovedPart(h) + AddedPart(h)));
    assert [first][1..] == [];
    assert Visited(at, [first]) == [] && After(at, [first]) == start;
  }

  lemma ReadsOne(at: Position, f: string)
    requires !StartsWith(f, "++ b/")
    ensures Visits(at, ['+'] + f) == if at.file.Some? && !StartsWith(f, "++")
                                     then [Visit(at.file.value, if at.line.Some? then at.line.value else 0, f)] else []
    ensures Step(at, ['+'] + f) == if at.file.Some? && at.line.Some? && !StartsWith(f, "++")
                                   then at.(line := Some(at.line.value + 1)) else at
  {
    assert (['+'] + f)[1..] == f;
    PlusThenPlus(f);
    StepCases(at, ['+'] + f);
    KindsOfLine(['+'] + f);
    hide Step, Visits, IsFileHeader, IsHunkHeader, IsAdded, StartsWith;
  }

  lemma FragmentsBreak(a: string, c: char, l: string)
    requires Unbroken(a) && IsBreak(c) && c != '\r'
    ensures Fragments(a + [c] + l) == [a] + Fragments(l)
  {
    assert a + [c] + l == a + ([c] + l);
    FragmentsPrefix(a, [c] + l);
    assert ([c] + l + "\n")[1..] == l + "\n";
    assert ([""] + Fragments(l))[1..] == Fragments(l) && a + "" == a;
  }

  lemma {:induction false} VisitedTwo(at: Position, a: string, b: string)
    ensures Visited(at, [a, b]) == Visits(at, a) + Visits(Step(at, a), b)
    ensures Visited(at, [a]) == Visits(at, a)
  {
    assert [a, b][1..] == [b] && [b][1..] == [] && [a][1..] == [];
    assert Visited(Step(at, a), [b]) == Visits(Step(at, a), b) + [];
  }

  lemma UnbrokenIsText(l: string)
    requires Unbroken(l)
    ensures LineText(l) == l
  {
  }

  lemma AddedTwo(l: string, next: string, start: nat)
    ensures var h := Hunk(start, start, [], [l, next], "", false, false);
            Raws(RemovedPart(h) + AddedPart(h)) == Fragments(['+'] + l) + Fragments(['+'] + next)
  {
    var a, b := ['+'] + l, ['+'] + next;
    assert [l, next][1..] == [next] && [next][1..] == [] && [a, b][1..] == [b] && [b][1..] == [];
    assert Prefixed('+', [next]) == [b] + [];
    assert Prefixed('+', [l, next]) == [a, b];
    hide Fragments;
    assert Raws([b]) == Fragments(b) + [];
    assert Raws([a, b]) == Fragments(a) + Raws([b]);
    assert [] + ([a, b] + []) == [a, b] && [] + [] + ([a, b] + []) == [a, b];
  }

  lemma RemovedOne(l: string, start: nat)
    ensures var h := Hunk(start, start, [l], [], "", false, false);
            Raws(RemovedPart(h) + AddedPart(h)) == Fragments(['-'] + l)
  {
    var a := ['-'] + l;
    assert [a][1..] == [];
    PrefixedOne('-', l);
    hide Fragments;
    assert Raws([a]) == Fragments(a) + [];
    assert [a] + [] + ([] + []) == [a];
  }

  lemma UnbrokenSign(c: char, l: string)
    requires c in "+- " && Unbroken(l)
    ensures Unbroken([c] + l)
  {
  }

  lemma FormFeedBreaks()
    ensures IsBreak(FORM_FEED) && FORM_FEED != '\r'
  {
  }

  lemma RemovedIsIdle(at: Position, l: string)
    ensures Step(at, ['-'] + l) == at && Visits(at, ['-'] + l) == []
  {
    InertIsIdle(at, ['-'] + l);
  }

  lemma {:induction false} NumberedNone(path: string, start: nat)
    ensures Numbered(path, start, []) == []
  {
  }

  /** A tracked file's added line of two plus signs is passed over, and the next added line
      is reported one line too early. */
  lemma DoublePlusShifts(path: string, l: string, next: string, start: nat)
    requires Tracked(path) && ' ' !in path && forall c <- path :: '!' <= c <= '~' && c != '"' && c != '\\'
    requires Unbroken(l) && StartsWith(l, "++") && !StartsWith(l, "++ b/")
    requires Unbroken(next) && !StartsWith(next, "++")
    ensures var s := Section(Changed, path, [], [Hunk(start, start, [], [l, next], "", false, false)]);
            && WellFormed(s)
            && TrueAdded(s) == [Visit(path, start, l), Visit(path, start + 1, next)]
            && Visited(START, Raws(PrintSection(s))) == [Visit(path, start, next)]
  {
    hide *;
    var at := Position(Some(path), Some(start));
    OneHunkRead(path, Hunk(start, start, [], [l, next], "", false, false));
    UnbrokenSign('+', l);
    UnbrokenSign('+', next);
    PlusThenPlus(next);
    NumberedTwo(path, start, l, next);
    UnbrokenIsText(l);
    UnbrokenIsText(next);
    OneLine(['+'] + l);
    OneLine(['+'] + next);
    AddedTwo(l, next, start);
    assert [['+'] + l] + [['+'] + next] == [['+'] + l, ['+'] + next];
    ReadsOne(at, l);
    ReadsOne(at, next);
    VisitedTwo(at, ['+'] + l, ['+'] + next);
  }

  lemma {:induction false} VisitedThree(at: Position, a: string, b: string, c: string)
    ensures Visited(at, [a, b] + [c]) == Visits(at, a) + Visits(Step(at, a), b) + Visits(Step(Step(at, a), b), c)
  {
    hide Step, Visits;
    assert After(at, [a, b]) == Step(Step(at, a), b) by {
      assert [a, b][1..] == [b] && [b][1..] == [];
      assert After(Step(at, a), [b]) == After(Step(Step(at, a), b), []);
    }
    VisitedConcat(at, [a, b], [c]);
    VisitedTwo(at, a, b);
    VisitedTwo(Step(Step(at, a), b), c, c);
  }

  /** A line that looks like context. */
  lemma ContextCounts(at: Position, b: string)
    requires at.line.Some? && at.file.Some?
    ensures Visits(at, [' '] + b) == [] && Step(at, [' '] + b) == at.(line := Some(at.line.value + 1))
  {
    var raw := [' '] + b;
    assert raw[0] == ' ' && raw[..1] == " ";
    OtherFirst(raw, "+++ b/");
    OtherFirst(raw, "@@");
    OtherFirst(raw, "+");
    StepCases(at, raw);
    KindsOfLine(raw);
    hide Step, Visits;
  }

  /** An added line with a form feed is cut there, and when the rest looks like context the
      next added line is reported one line too late. */
  lemma FormFeedShifts(path: string, a: string, b: string, next: string, start: nat)
    requires Tracked(path) && ' ' !in path && forall c <- path :: '!' <= c <= '~' && c != '"' && c != '\\'
    requires Unbroken(a) && !StartsWith(a, "++") && Unbroken(b)
    requires Unbroken(next) && !StartsWith(next, "++")
    ensures var l := a + [FORM_FEED] + ([' '] + b);
            var s := Section(Changed, path, [], [Hunk(start, start, [], [l, next], "", false, false)]);
            && WellFormed(s)
            && TrueAdded(s) == [Visit(path, start, LineText(l)), Visit(path, start + 1, next)]
            && Visited(START, Raws(PrintSection(s))) == [Visit(path, start, a), Visit(path, start + 2, next)]
  {
    hide *;
    var at := Position(Some(path), Some(start));
    var l := a + [FORM_FEED] + ([' '] + b);
    OneHunkRead(path, Hunk(start, start, [], [l, next], "", false, false));
    FormFeedBreaks();
    UnbrokenSign('+', a);
    UnbrokenSign('+', next);
    UnbrokenSign(' ', b);
    PlusThenPlus(next);
    PlusThenPlus(a);
    NumberedTwo(path, start, l, next);
    UnbrokenIsText(next);
    assert ['+'] + l == ['+'] + a + [FORM_FEED] + ([' '] + b);
    FragmentsBreak(['+'] + a, FORM_FEED, [' '] + b);
    OneLine([' '] + b);
    OneLine(['+'] + next);
    AddedTwo(l, next, start);
    assert [['+'] + a] + [[' '] + b] == [['+'] + a, [' '] + b];
    ReadsOne(at, a);
    ContextCounts(at.(line := Some(start + 1)), b);
    ReadsOne(at.(line := Some(start + 2)), next);
    VisitedThree(at, ['+'] + a, [' '] + b, ['+'] + next);
  }

  /** What follows a form feed in a removed line can be reported as added. */
  lemma RemovedIsReported(path: string, a: string, text: string, start: nat)
    requires Tracked(path) && ' ' !in path && forall c <- path :: '!' <= c <= '~' && c != '"' && c != '\\'
    requires Unbroken(a) && Unbroken(text) && !StartsWith(text, "++")
    ensures var removed := a + [FORM_FEED] + (['+'] + text);
            var s := Section(Changed, path, [], [Hunk(start, start, [removed], [], "", false, false)]);
            && WellFormed(s)
            && TrueAdded(s) == []
            && Visited(START, Raws(PrintSection(s))) == [Visit(path, start, text)]
  {
    hide *;
    var at := Position(Some(path), Some(start));
    var l := a + [FORM_FEED] + (['+'] + text);
    OneHunkRead(path, Hunk(start, start, [l], [], "", false, false));
    FormFeedBreaks();
    UnbrokenSign('-', a);
    UnbrokenSign('+', text);
    PlusThenPlus(text);
    RemovedIsIdle(at, a);
    NumberedNone(path, start);
    assert ['-'] + l == ['-'] + a + [FORM_FEED] + (['+'] + text);
    FragmentsBreak(['-'] + a, FORM_FEED, ['+'] + text);
    OneLine(['+'] + text);
    RemovedOne(l, start);
    assert [['-'] + a] + [['+'] + text] == [['-'] + a, ['+'] + text];
    ReadsOne(at, text);
    VisitedTwo(at, ['-'] + a, ['+'] + text);
  }

  lemma {:induction false} PrefixedOne(c: char, l: string)
    ensures Prefixed(c, [l]) == [[c] + l]
  {
    assert [l][1..] == [];
  }

  lemma BothParts(l: string, added: string, start: nat)
    ensures var h := Hunk(start, start, [l], [added], "", false, false);
            Raws(RemovedPart(h) + AddedPart(h)) == Fragments(['-'] + l) + Fragments(['+'] + added)
  {
    var a, b := ['-'] + l, ['+'] + added;
    assert [a][1..] == [] && [b][1..] == [];
    PrefixedOne('-', l);
    PrefixedOne('+', added);
    hide Fragments, Prefixed;
    assert Raws([a]) == Fragments(a) + [] && Raws([b]) == Fragments(b) + [];
    RawsConcat([a], [b]);
    assert [a] + [] + ([b] + []) == [a] + [b];
  }

  lemma NotSteady(path: string, h: Hunk)
    requires Tracked(path) && |h.removed| == 1 && |Fragments(h.removed[0])| > 1 && IsAdded(Fragments(h.removed[0])[1])
    ensures !Steady(None, Section(Changed, path, [], [h]))
  {
    var raw := Fragments(h.removed[0])[1];
    assert raw[0] == '+';
    PlusThenPlus(raw[1..]);
    assert raw == ['+'] + raw[1..];
    hide Fragments, StartsWith, Tracked, IsAdded;
    assert !Idle(Position(Some(path), Some(h.newStart)), Fragments(h.removed[0])[1..][0]);
    assert !RestIdle(Position(Some(path), Some(h.newStart)), h.removed[0]);
    assert !HunkSteady(Some(path), [h][0]);
  }

  lemma {:induction false} NumberedOne(path: string, start: nat, l: string)
    ensures Numbered(path, start, [l]) == [Visit(path, start, LineText(l))]
  {
    hide LineText;
    assert [l][1..] == [];
    assert Numbered(path, start, [l]) == [Visit(path, start, LineText(l))] + [];
  }

  lemma CutInThree(sign: char, a: string, b: string, c: string)
    requires sign in "+- " && Unbroken(a) && Unbroken(b) && Unbroken(c)
    ensures Fragments([sign] + (a + [FORM_FEED] + (b + [FORM_FEED] + c))) == [[sign] + a, b] + [c]
    ensures Fragments(a + [FORM_FEED] + (b + [FORM_FEED] + c)) == [a, b] + [c]
  {
    FormFeedBreaks();
    UnbrokenSign(sign, a);
    hide *;
    OneLine(c);
    FragmentsBreak(b, FORM_FEED, c);
    FragmentsBreak(a, FORM_FEED, b + [FORM_FEED] + c);
    FragmentsBreak([sign] + a, FORM_FEED, b + [FORM_FEED] + c);
    assert [sign] + (a + [FORM_FEED] + (b + [FORM_FEED] + c)) == [sign] + a + [FORM_FEED] + (b + [FORM_FEED] + c);
    assert [a] + ([b] + [c]) == [a, b] + [c];
    assert [[sign] + a] + ([b] + [c]) == [[sign] + a, b] + [c];
  }

  lemma {:induction false} VisitedFour(at: Position, a: string, b: string, c: string, d: string)
    ensures Visited(at, [a, b] + [c] + [d])
            == Visits(at, a) + Visits(Step(at, a), b) + Visits(Step(Step(at, a), b), c)
               + Visits(Step(Step(Step(at, a), b), c), d)
  {
    hide Step, Visits;
    VisitedConcat(at, [a, b], [c] + [d]);
    assert After(at, [a, b]) == Step(Step(at, a), b) by {
      assert [a, b][1..] == [b] && [b][1..] == [];
      assert After(Step(at, a), [b]) == After(Step(Step(at, a), b), []);
    }
    VisitedTwo(at, a, b);
    assert [c] + [d] == [c, d] && [a, b] + [c] + [d] == [a, b] + ([c] + [d]);
    VisitedTwo(Step(Step(at, a), b), c, d);
  }

  /** Two such mistakes can make up for each other: a removed line holds a raw line like the
      added one and then one like the header of another file, behind which the added line is
      not seen. The section reads as what it adds, but out of step. */
  lemma MistakesCancel(path: string, a: string, text: string, other: string, start: nat)
    requires Tracked(path) && ' ' !in path && forall c <- path :: '!' <= c <= '~' && c != '"' && c != '\\'
    requires Unbroken(a) && Unbroken(text) && !StartsWith(text, "++")
    requires Unbroken(other) && !Tracked(other)
    ensures var removed := a + [FORM_FEED] + ((['+'] + text) + [FORM_FEED] + ("+++ b/" + other));
            var s := Section(Changed, path, [], [Hunk(start, start, [removed], [text], "", false, false)]);
            && WellFormed(s)
            && Visited(START, Raws(PrintSection(s))) == TrueAdded(s)
            && !Steady(None, s)
  {
    assert TrackedName(other) == None;
    hide *;
    var at := Position(Some(path), Some(start));
    var b, c := ['+'] + text, "+++ b/" + other;
    var l := a + [FORM_FEED] + (b + [FORM_FEED] + c);
    var h := Hunk(start, start, [l], [text], "", false, false);
    OneHunkRead(path, h);
    UnbrokenSign('+', text);
    NameIsUnbroken(other);
    PlusThenPlus(text);
    CutInThree('-', a, b, c);
    assert ([a, b] + [c])[1] == b;
    NotSteady(path, h);
    UnbrokenIsText(text);
    NumberedOne(path, start, text);
    OneLine(b);
    BothParts(l, text, start);
    RemovedIsIdle(at, a);
    ReadsOne(at, text);
    HeaderReads(at.(line := Some(start + 1)), other);
    ReadsOne(Position(None, Some(start + 1)), text);
    VisitedFour(at, ['-'] + a, b, c, b);
  }
}
