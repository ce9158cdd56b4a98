/** Lines of a generated contents page: `parse_toc_line` and the printing it undoes. */
module ContentsLine {
  import opened Decimal
  import opened Options
  import opened Text

  datatype Line = Line(number: Option<string>, title: string, page: Option<nat>)

  // ----- The regular expressions -----

  /** A character of a dotted leader. */
  predicate IsLeader(c: char) {
    c == '.' || c == '\U{2026}'
  }

  /** No two adjacent leader characters. */
  predicate NoLeaders(s: string) {
    forall i | 0 < i < |s| :: !LeaderPair(s, i)
  }

  predicate LeaderPair(s: string, i: nat)
    requires 0 < i < |s|
  {
    IsLeader(s[i - 1]) && IsLeader(s[i])
  }

  function LeaderRun(s: string): (n: nat)
    ensures n <= |s|
  {
    if s != "" && IsLeader(s[0]) then 1 + LeaderRun(s[1..]) else 0
  }

  /** Splits at runs of two or more leader characters. */
  function LeaderSplit(s: string): (parts: seq<string>)
    ensures parts != []
    decreases |s|
  {
    if s == "" then [""]
    else if LeaderRun(s) >= 2 then [""] + LeaderSplit(s[LeaderRun(s)..])
    else
      var rest := LeaderSplit(s[1..]);
      [[s[0]] + rest[0]] + rest[1..]
  }

  /** Length of the section number a string starts with: digits, then any number of
      dot-digits groups; 0 when there is none. */
  function NumberLength(s: string): (n: nat)
    ensures n <= |s|
    decreases |s|
  {
    var d := DigitRun(s);
    if d == 0 then 0
    else if d < |s| && s[d] == '.' && NumberLength(s[d + 1..]) > 0 then d + 1 + NumberLength(s[d + 1..])
    else d
  }

  predicate IsNumber(s: string) {
    s != "" && NumberLength(s) == |s|
  }

  predicate IsPage(s: string) {
    s != "" && AllDigits(s)
  }

  /** A section number, white space, and something more on the same line. */
  predicate HasNumberPrefix(title: string) {
    var n := NumberLength(title);
    var rest := LStrip(title[n..]);
    n > 0 && rest != "" && |rest| < |title| - n && '\n' !in rest
  }

  // ----- Parsing -----

  function NonBlank(parts: seq<string>): seq<string> {
    if parts == [] then []
    else (if Strip(parts[0]) != "" then [Strip(parts[0])] else []) + NonBlank(parts[1..])
  }

  function Fields(text: string): seq<string> {
    var tabbed := NonBlank(Split(text, '\t'));
    if |tabbed| < 2 then NonBlank(LeaderSplit(text)) else tabbed
  }

  /** The leading field as a number, if it is one, and what follows it. */
  function TakeNumber(fields: seq<string>): (Option<string>, seq<string>) {
    if fields != [] && IsNumber(fields[0]) then (Some(fields[0]), fields[1..]) else (None, fields)
  }

  /** The trailing field as a page, if it is one, and what precedes it. */
  function TakePage(fields: seq<string>): (Option<nat>, seq<string>) {
    if fields != [] && IsPage(fields[|fields| - 1])
    then (Some(Value(fields[|fields| - 1])), fields[..|fields| - 1])
    else (None, fields)
  }

  /** `parse_toc_line`. */
  function ParseTocLine(text: string): Line {
    var (number, rest) := TakeNumber(Fields(text));
    var (page, middle) := TakePage(rest);
    var title := Strip(Join(middle, " "));
    if number == None && HasNumberPrefix(title)
    then
      var n := NumberLength(title);
      Line(Some(title[..n]), Strip(LStrip(title[n..])), page)
    else Line(number, title, page)
  }

  // ----- Printing -----

  function PrintFields(line: Line): seq<string> {
    (if line.number.Some? then [line.number.value] else [])
    + [line.title]
    + (if line.page.Some? then [Print(line.page.value)] else [])
  }

  /** The line Word writes: number, title and page, joined by tabs. */
  function PrintTocLine(line: Line): string {
    Join(PrintFields(line), "\t")
  }

  /** What a line can hold: a section number, and a trimmed title without tabs. */
  predicate Printable(line: Line) {
    && (line.number.Some? ==> IsNumber(line.number.value))
    && line.title != "" && Trimmed(line.title) && '\t' !in line.title
  }

  /** The title cannot be taken for a number or a page, nor split at leaders. */
  predicate Unambiguous(line: Line) {
    && (line.number.None? ==> !IsNumber(line.title) && !HasNumberPrefix(line.title))
    && (line.page.None? && line.number.Some? ==> !IsPage(line.title))
    && (line.page.None? && line.number.None? ==> NoLeaders(line.title))
  }

  // ----- Facts about the pieces -----

  lemma {:induction false} NumberChars(s: string, i: nat)
    requires i < NumberLength(s)
    ensures IsDigit(s[i]) || (s[i] == '.' && 0 < i)
    decreases |s|
  {
    var d := DigitRun(s);
    if i < d {
      assert s[i] == s[..d][i];
    } else if i > d {
      NumberChars(s[d + 1..], i - d - 1);
    }
  }

  lemma NumberField(s: string)
    requires IsNumber(s)
    ensures s != "" && Trimmed(s) && '\t' !in s
  {
    forall i | 0 <= i < |s| ensures !IsSpace(s[i]) {
      NumberChars(s, i);
    }
  }

  lemma {:induction false} PageField(n: nat)
    ensures Print(n) != "" && Trimmed(Print(n)) && '\t' !in Print(n) && IsPage(Print(n))
    ensures Value(Print(n)) == n
  {
    assert forall c | c in Print(n) :: IsDigit(c);
    ValuePrint(n);
  }

  lemma {:induction false} NonBlankFixed(parts: seq<string>)
    requires forall p | p in parts :: p != "" && Trimmed(p)
    ensures NonBlank(parts) == parts
  {
    if parts != [] {
      assert parts[0] in parts && forall p | p in parts[1..] :: p in parts;
      StripTrims(parts[0]);
      NonBlankFixed(parts[1..]);
    }
  }

  /** A page is a number, and a string of digits is never split by leaders. */
  lemma PageIsNumber(s: string)
    requires IsPage(s)
    ensures IsNumber(s)
  {
    assert s + "" == s;
    DigitRunOf(s, "");
  }

  lemma {:induction false} LeaderSplitNone(s: string)
    requires NoLeaders(s)
    ensures LeaderSplit(s) == [s]
    decreases |s|
  {
    if s != "" {
      assert LeaderRun(s) < 2 by {
        if |s| > 1 && IsLeader(s[0]) {
          assert !LeaderPair(s, 1);
        }
      }
      assert NoLeaders(s[1..]) by {
        var t := s[1..];
        assert forall i | 0 < i < |t| :: t[i - 1] == s[i] && t[i] == s[i + 1];
        forall i | 0 < i < |t| ensures !LeaderPair(t, i) {
          assert !LeaderPair(s, i + 1);
        }
      }
      LeaderSplitNone(s[1..]);
      assert [s[0]] + s[1..] == s;
    }
  }

  lemma {:induction false} LeaderSplitPieces(s: string)
    ensures forall p | p in LeaderSplit(s) :: NoLeaders(p)
    ensures LeaderSplit(s)[0] == "" || (s != "" && LeaderSplit(s)[0][0] == s[0])
    ensures LeaderRun(s) >= 2 ==> LeaderSplit(s)[0] == ""
    decreases |s|
  {
    if s == "" {
    } else if LeaderRun(s) >= 2 {
      LeaderSplitPieces(s[LeaderRun(s)..]);
    } else {
      LeaderSplitPieces(s[1..]);
      var rest := LeaderSplit(s[1..]);
      var p := [s[0]] + rest[0];
      forall i | 0 < i < |p| ensures !LeaderPair(p, i) {
        if i == 1 {
          assert p[1] == s[1..][0];
        } else {
          assert p[i - 1] == rest[0][i - 2] && p[i] == rest[0][i - 1];
          assert rest[0] in rest && !LeaderPair(rest[0], i - 1);
        }
      }
    }
  }

  lemma NoLeadersSlice(s: string, lo: nat, hi: nat)
    requires NoLeaders(s) && lo <= hi <= |s|
    ensures NoLeaders(s[lo..hi])
  {
    var t := s[lo..hi];
    forall i | 0 < i < |t| ensures !LeaderPair(t, i) {
      assert t[i - 1] == s[lo + i - 1] && t[i] == s[lo + i];
      assert !LeaderPair(s, lo + i);
    }
  }

  lemma {:induction false} NoLeadersStrip(s: string)
    requires NoLeaders(s)
    ensures NoLeaders(Strip(s)) && NoLeaders(LStrip(s))
  {
    var lo, hi := StripMiddle(s);
    NoLeadersSlice(s, lo, hi);
    var n := LStripSuffix(s);
    NoLeadersSlice(s, n, |s|);
    assert s[n..|s|] == s[n..];
  }

  lemma {:induction false} NoLeadersNonBlank(parts: seq<string>)
    requires forall p | p in parts :: NoLeaders(p)
    ensures forall p | p in NonBlank(parts) :: NoLeaders(p)
  {
    if parts != [] {
      NoLeadersStrip(parts[0]);
      NoLeadersNonBlank(parts[1..]);
    }
  }

  lemma {:induction false} NoLeadersJoin(parts: seq<string>)
    requires forall p | p in parts :: NoLeaders(p)
    ensures NoLeaders(Join(parts, " "))
  {
    if |parts| > 1 {
      NoLeadersJoin(parts[1..]);
      var a, b := parts[0], Join(parts[1..], " ");
      var t := a + " " + b;
      forall i | 0 < i < |t| ensures !LeaderPair(t, i) {
        if i < |a| {
          assert a in parts && !LeaderPair(a, i);
        } else if i > |a| + 1 {
          var k := i - |a| - 1;
          assert t[i] == b[k] && t[i - 1] == b[k - 1];
          assert !LeaderPair(b, k);
        }
      }
    }
  }

  // ----- Parsing undoes printing -----

  lemma PrintedFields(line: Line)
    requires Printable(line)
    ensures NonBlank(Split(PrintTocLine(line), '\t')) == PrintFields(line)
  {
    var fields := PrintFields(line);
    if line.number.Some? {
      NumberField(line.number.value);
    }
    if line.page.Some? {
      PageField(line.page.value);
    }
    SplitJoin(fields, '\t');
    NonBlankFixed(fields);
  }

  /** Taking the title alone from a title-only line. */
  lemma TitleOnly(title: string)
    requires title != "" && Trimmed(title) && '\t' !in title
    ensures ParseTocLine(title) == Line(None, title, None) <==> Unambiguous(Line(None, title, None))
  {
    SplitNone(title, '\t');
    NonBlankFixed([title]);
    assert Fields(title) == NonBlank(LeaderSplit(title));
    StripTrims(title);
    if NoLeaders(title) {
      LeaderSplitNone(title);
      if IsPage(title) {
        PageIsNumber(title);
      }
    } else {
      ParsedTitleHasNoLeaders(title);
    }
  }

  /** The fields between number and page are fields. */
  lemma TakenAreFields(fields: seq<string>)
    ensures forall p | p in TakePage(TakeNumber(fields).1).1 :: p in fields
  {
    var rest := TakeNumber(fields).1;
    assert forall p | p in rest :: p in fields;
    assert forall p | p in TakePage(rest).1 :: p in rest;
  }

  /** What a title is cut down to has no leaders if it has none. */
  lemma {:induction false} CutHasNoLeaders(title: string)
    requires NoLeaders(title)
    ensures NoLeaders(Strip(LStrip(title[NumberLength(title)..])))
  {
    hide NoLeaders, NumberLength, Strip, LStrip;
    var n := NumberLength(title);
    NoLeadersSlice(title, n, |title|);
    assert title[n..|title|] == title[n..];
    NoLeadersStrip(title[n..]);
    NoLeadersStrip(LStrip(title[n..]));
  }

  lemma {:induction false} ParsedTitleHasNoLeaders(text: string)
    requires Fields(text) == NonBlank(LeaderSplit(text))
    ensures NoLeaders(ParseTocLine(text).title)
  {
    hide Fields, NonBlank, LeaderSplit, TakeNumber, TakePage, NoLeaders, NumberLength, Strip, LStrip, Join,
         HasNumberPrefix;
    LeaderSplitPieces(text);
    NoLeadersNonBlank(LeaderSplit(text));
    var middle := TakePage(TakeNumber(Fields(text)).1).1;
    TakenAreFields(Fields(text));
    NoLeadersJoin(middle);
    NoLeadersStrip(Join(middle, " "));
    CutHasNoLeaders(Strip(Join(middle, " ")));
  }

  /** Parsing a printed line gives the line back exactly when the line is
      unambiguous, for every number, title and page. A title on its own must hold no
      dotted leader, which the parser would split at. */
  lemma ParsePrint(line: Line)
    requires Printable(line)
    ensures ParseTocLine(PrintTocLine(line)) == line <==> Unambiguous(line)
  {
    hide Split, Strip, NumberLength, LStrip;
    PrintedFields(line);
    StripTrims(line.title);
    if line.number.Some? && line.page.Some? {
      PageField(line.page.value);
    } else if line.number.Some? {
      assert PrintFields(line) == [line.number.value, line.title];
    } else if line.page.Some? {
      PageField(line.page.value);
      assert PrintFields(line) == [line.title, Print(line.page.value)];
    } else {
      assert PrintTocLine(line) == line.title;
      TitleOnly(line.title);
    }
  }

  // ----- Lines edited by hand: dotted leaders instead of tabs -----

  predicate IsLeaderRun(dots: string) {
    |dots| >= 2 && forall i | 0 <= i < |dots| :: IsLeader(dots[i])
  }

  predicate Blanks(s: string) {
    forall i | 0 <= i < |s| :: s[i] == ' '
  }

  /** A leader between blanks; it must not touch a leader character of the title. */
  datatype Dots = Dots(before: string, run: string, after: string) {
    predicate Fits(title: string) {
      && Blanks(before) && IsLeaderRun(run) && Blanks(after)
      && (before == "" && title != "" ==> !IsLeader(title[|title| - 1]))
    }
  }

  /** Number and title as running text, a dotted leader, and the page. */
  function PrintDotted(line: Line, dots: Dots): string
    requires line.page.Some?
  {
    Label(line) + dots.before + dots.run + dots.after + Print(line.page.value)
  }

  function Label(line: Line): string {
    (if line.number.Some? then line.number.value + " " else "") + line.title
  }

  lemma {:induction false} NumberLengthOf(a: string, b: string)
    requires IsNumber(a) && (b == "" || (!IsDigit(b[0]) && b[0] != '.'))
    ensures NumberLength(a + b) == |a|
    decreases |a|
  {
    hide DigitRun, AllDigits, IsDigit;
    var d := DigitRun(a);
    assert d > 0;
    if d == |a| {
      assert a[..d] == a;
      DigitRunOf(a, b);
    } else {
      var t := a[d + 1..];
      assert a[d] == '.' && IsNumber(t);
      assert a[..d] + a[d..] + b == a + b;
      assert a[..d] + (a[d..] + b) == a + b;
      DigitRunOf(a[..d], a[d..] + b);
      assert (a + b)[d + 1..] == t + b;
      NumberLengthOf(t, b);
    }
  }

  lemma {:induction false} LeaderRunOf(dots: string, b: string)
    requires (forall i | 0 <= i < |dots| :: IsLeader(dots[i])) && (b == "" || !IsLeader(b[0]))
    ensures LeaderRun(dots + b) == |dots|
  {
    if dots == "" {
      assert dots + b == b;
    } else {
      assert (dots + b)[1..] == dots[1..] + b;
      LeaderRunOf(dots[1..], b);
    }
  }

  /** Text without leaders, then a leader: the text is the first piece. */
  lemma {:induction false} LeaderSplitAt(a: string, dots: string, b: string)
    requires NoLeaders(a) && (a == "" || !IsLeader(a[|a| - 1]))
    requires IsLeaderRun(dots) && NoLeaders(b) && (b == "" || !IsLeader(b[0]))
    ensures LeaderSplit(a + dots + b) == [a, b]
    decreases |a|
  {
    var s := a + dots + b;
    if a == "" {
      assert s == dots + b;
      LeaderRunOf(dots, b);
      assert s[|dots|..] == b;
      LeaderSplitNone(b);
    } else {
      assert s[1..] == a[1..] + dots + b;
      assert LeaderRun(s) < 2 by {
        if |a| > 1 {
          assert !LeaderPair(a, 1);
          assert s[1] == a[1];
        }
      }
      NoLeadersSlice(a, 1, |a|);
      assert a[1..|a|] == a[1..];
      LeaderSplitAt(a[1..], dots, b);
      assert [a[0]] + a[1..] == a;
    }
  }

  lemma NumberHasNoLeaders(s: string)
    requires IsNumber(s)
    ensures NoLeaders(s)
    decreases |s|
  {
    forall i | 0 < i < |s| ensures !LeaderPair(s, i) {
      NumberDots(s, i);
      NumberChars(s, i);
      NumberChars(s, i - 1);
    }
  }

  lemma {:induction false} NumberDots(s: string, i: nat)
    requires 0 < i < NumberLength(s)
    ensures IsDigit(s[i - 1]) || IsDigit(s[i])
    decreases |s|
  {
    var d := DigitRun(s);
    if i < d {
      assert s[i] == s[..d][i];
    } else if i == d {
      assert s[i - 1] == s[..d][i - 1];
    } else if i == d + 1 {
      NumberChars(s[d + 1..], 0);
    } else {
      NumberDots(s[d + 1..], i - d - 1);
    }
  }

  lemma LabelFacts(line: Line)
    requires Printable(line) && NoLeaders(line.title)
    ensures NoLeaders(Label(line)) && '\t' !in Label(line) && Trimmed(Label(line)) && Label(line) != ""
    ensures Label(line)[|Label(line)| - 1] == line.title[|line.title| - 1]
  {
    var text := Label(line);
    if line.number.Some? {
      var number := line.number.value;
      NumberField(number);
      NumberHasNoLeaders(number);
      forall i | 0 < i < |text| ensures !LeaderPair(text, i) {
        if i < |number| {
          assert !LeaderPair(number, i);
        } else if i > |number| + 1 {
          assert !LeaderPair(line.title, i - |number| - 1);
        }
      }
    } else {
      assert text == line.title;
    }
  }

  lemma StripPadded(a: string, s: string, b: string)
    requires Blanks(a) && Blanks(b) && s != "" && Trimmed(s)
    ensures Strip(a + s + b) == s
  {
    var t := a + s + b;
    var lo, hi := StripMiddle(t);
    assert t[|a|] == s[0] && t[|a| + |s| - 1] == s[|s| - 1];
    assert forall i | 0 <= i < |a| :: t[i] == ' ';
    assert forall i | |a| + |s| <= i < |t| :: t[i] == b[i - |a| - |s|] == ' ';
    assert lo == |a| && hi == |a| + |s|;
    assert t[|a|..|a| + |s|] == s;
  }

  lemma NoLeadersPadded(a: string, s: string, b: string)
    requires Blanks(a) && Blanks(b) && NoLeaders(s)
    ensures NoLeaders(a + s + b)
  {
    var t := a + s + b;
    forall i | 0 < i < |t| ensures !LeaderPair(t, i) {
      if |a| < i < |a| + |s| {
        assert !LeaderPair(s, i - |a|);
      } else if i <= |a| && 0 < |a| {
        assert t[i - 1] == ' ';
      } else if i >= |a| + |s| {
        assert t[i] == b[i - |a| - |s|];
      }
    }
  }

  lemma DottedFields(line: Line, dots: Dots)
    requires Printable(line) && line.page.Some? && NoLeaders(line.title) && dots.Fits(line.title)
    ensures Fields(PrintDotted(line, dots)) == [Label(line), Print(line.page.value)]
  {
    hide Label, Split, LeaderSplit, Strip;
    var text, page := Label(line), Print(line.page.value);
    var a, b := text + dots.before, dots.after + page;
    var whole := PrintDotted(line, dots);
    assert whole == a + dots.run + b;
    PageField(line.page.value);
    LabelFacts(line);
    assert '\t' !in whole;
    SplitNone(whole, '\t');
    assert Split(whole, '\t')[1..] == [];
    assert |NonBlank(Split(whole, '\t'))| < 2;
    NoLeadersPadded("", text, dots.before);
    assert "" + text + dots.before == a;
    PageHasNoLeaders(page);
    NoLeadersPadded(dots.after, page, "");
    assert dots.after + page + "" == b;
    assert !IsLeader(a[|a| - 1]) by {
      assert text[|text| - 1] == line.title[|line.title| - 1];
    }
    assert !IsLeader(b[0]) by { assert b[0] == ' ' || b[0] == page[0]; }
    LeaderSplitAt(a, dots.run, b);
    StripPadded("", text, dots.before);
    StripPadded(dots.after, page, "");
    assert [a, b][1..] == [b];
    assert NonBlank([b]) == [page];
  }

  lemma PageHasNoLeaders(page: string)
    requires IsPage(page)
    ensures NoLeaders(page)
  {
    forall i | 0 < i < |page| ensures !LeaderPair(page, i) {
      assert IsDigit(page[i]);
    }
  }

  lemma LabelNumber(line: Line)
    requires Printable(line) && line.number.Some?
    ensures NumberLength(Label(line)) == |line.number.value|
    ensures Label(line)[|line.number.value|..] == " " + line.title
    ensures LStrip(" " + line.title) == line.title
    ensures HasNumberPrefix(Label(line)) <==> '\n' !in line.title
  {
    var number := line.number.value;
    assert Label(line) == number + (" " + line.title);
    NumberLengthOf(number, " " + line.title);
    assert (" " + line.title)[1..] == line.title;
  }

  /** A hand-edited line with any dotted leader parses to its parts exactly when a
      numbered title is on one line and a bare title does not read as a number. */
  lemma ParseDotted(line: Line, dots: Dots)
    requires Printable(line) && line.page.Some? && NoLeaders(line.title) && dots.Fits(line.title)
    ensures ParseTocLine(PrintDotted(line, dots)) == line
      <==> if line.number.Some? then '\n' !in line.title
           else !IsNumber(line.title) && !HasNumberPrefix(line.title)
  {
    hide PrintDotted, Fields, Strip, NumberLength, LStrip;
    var fields := [Label(line), Print(line.page.value)];
    DottedFields(line, dots);
    PageField(line.page.value);
    LabelFacts(line);
    StripTrims(Label(line));
    StripTrims(line.title);
    assert fields[..1] == [Label(line)] && fields[1..][..0] == [];
    if line.number.Some? {
      LabelNumber(line);
      assert Label(line)[..|line.number.value|] == line.number.value;
    } else {
      assert Label(line) == line.title;
    }
  }

  /** A title on its own with dotted leaders does not survive. */
  lemma LeadersAreLost()
    ensures Printable(Line(None, "A..B", None))
    ensures ParseTocLine(PrintTocLine(Line(None, "A..B", None))) != Line(None, "A..B", None)
  {
    var line := Line(None, "A..B", None);
    assert '\t' !in line.title;
    assert !NoLeaders(line.title) by {
      assert LeaderPair(line.title, 2);
    }
    ParsePrint(line);
  }
}
