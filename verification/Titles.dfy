/** Comparing titles (`normalize_title`): what the normal form keeps of a title, in terms of
    its characters. */
module Titles {
  import opened ContentsLine
  import opened Decimal
  import opened HeadingIds
  import opened Text

  /** A leading number removed, then lower-case words. */
  function Normalize(value: string): string {
    var plain := Strip(value);
    var n := NumberLength(plain);
    var rest := LStrip(plain[n..]);
    StripChar(Collapse(if n > 0 && |rest| < |plain| - n then rest else plain, ' '), ' ')
  }

  /** `normalize_title`: leaders replaced by a blank first. */
  function NormalizeTitle(value: string): string {
    Normalize(Join(LeaderSplit(value), " "))
  }

  // ----- What titles have in common, in terms of the characters -----

  /** The character is a dot, or an ellipsis, next to another one. */
  predicate InLeader(v: string, p: nat)
    requires p < |v|
  {
    IsLeader(v[p]) && ((p > 0 && IsLeader(v[p - 1])) || (p + 1 < |v| && IsLeader(v[p + 1])))
  }

  /** The text with each character of a leader blanked out. */
  function Blanked(v: string): (b: string)
    ensures |b| == |v|
  {
    seq(|v|, p requires 0 <= p < |v| => if InLeader(v, p) then ' ' else v[p])
  }

  /** Digits, with single dots between them. */
  predicate SectionNumber(s: string) {
    && s != "" && IsDigit(s[0]) && IsDigit(s[|s| - 1])
    && (forall p | 0 <= p < |s| :: IsDigit(s[p]) || s[p] == '.')
    && forall p | 0 < p < |s| :: !(s[p - 1] == '.' && s[p] == '.')
  }

  /** After white space a section number stands from `i` to `k`, then white space, and
      something more. */
  predicate NumberSpan(b: string, i: nat, k: nat) {
    && i < k < |b|
    && (forall p | 0 <= p < i :: IsSpace(b[p]))
    && SectionNumber(b[i..k]) && IsSpace(b[k])
    && !AllSpace(b[k..])
  }

  predicate AllSpace(s: string) {
    forall p | 0 <= p < |s| :: IsSpace(s[p])
  }

  /** What is left of a text: all of it, or what follows its leading number. */
  ghost predicate Unnumbered(s: string, c: string) {
    || (exists i: nat, k: nat :: NumberSpan(s, i, k) && c == s[k..])
    || (c == s && forall i: nat, k: nat :: !NumberSpan(s, i, k))
  }

  /** The same of a title, with leaders counting as blanks before the number. */
  ghost predicate Compared(v: string, c: string) {
    || (exists i: nat, k: nat :: NumberSpan(Blanked(v), i, k) && c == v[k..])
    || (c == v && forall i: nat, k: nat :: !NumberSpan(Blanked(v), i, k))
  }

  /** Apart from leaders, a leading number, case and whatever is no ASCII letter or digit, the
      titles have the same words. */
  ghost predicate SameTitle(a: string, b: string) {
    exists c, d | Compared(a, c) && Compared(b, d) :: SameWords(c, d)
  }

  // ----- Leaders replaced by a blank -----

  function Spaced(v: string): string {
    Join(LeaderSplit(v), " ")
  }

  lemma {:induction false} LeaderRunIsLeaders(v: string)
    ensures forall p | 0 <= p < LeaderRun(v) :: IsLeader(v[p])
    ensures LeaderRun(v) < |v| ==> !IsLeader(v[LeaderRun(v)])
  {
    if v != "" && IsLeader(v[0]) {
      LeaderRunIsLeaders(v[1..]);
      forall p | 0 <= p < LeaderRun(v) ensures IsLeader(v[p]) {
        assert p > 0 ==> v[p] == v[1..][p - 1];
      }
    }
  }

  lemma {:induction false} JoinFirst(parts: seq<string>, sep: string)
    requires parts != []
    ensures Join([""] + parts, sep) == sep + Join(parts, sep)
    ensures forall c: char :: Join([[c] + parts[0]] + parts[1..], sep) == [c] + Join(parts, sep)
  {
    assert ([""] + parts)[1..] == parts && "" + sep == sep;
    forall c: char ensures Join([[c] + parts[0]] + parts[1..], sep) == [c] + Join(parts, sep) {
      assert ([[c] + parts[0]] + parts[1..])[1..] == parts[1..];
      if |parts| > 1 {
        assert [c] + parts[0] + sep + Join(parts[1..], sep) == [c] + (parts[0] + sep + Join(parts[1..], sep));
      }
    }
  }

  lemma {:induction false} SpacedStep(v: string)
    ensures v == "" ==> Spaced(v) == ""
    ensures LeaderRun(v) >= 2 ==> Spaced(v) == " " + Spaced(v[LeaderRun(v)..]) && Spaced(v)[0] == ' '
    ensures v != "" && LeaderRun(v) < 2 ==> Spaced(v) == [v[0]] + Spaced(v[1..])
  {
    if LeaderRun(v) >= 2 {
      JoinFirst(LeaderSplit(v[LeaderRun(v)..]), " ");
    } else if v != "" {
      JoinFirst(LeaderSplit(v[1..]), " ");
    }
  }

  lemma {:induction false} BlankedStep(v: string)
    ensures LeaderRun(v) >= 2 ==> Blanked(v)[LeaderRun(v)..] == Blanked(v[LeaderRun(v)..])
    ensures LeaderRun(v) >= 2 ==> forall p | 0 <= p < LeaderRun(v) :: Blanked(v)[p] == ' '
    ensures v != "" && LeaderRun(v) < 2 ==> Blanked(v) == [v[0]] + Blanked(v[1..])
  {
    LeaderRunIsLeaders(v);
    var r := LeaderRun(v);
    if r >= 2 {
      var t := v[r..];
      forall p | r <= p < |v| ensures Blanked(v)[p] == Blanked(t)[p - r] {
        assert v[p] == t[p - r];
        assert p > r ==> v[p - 1] == t[p - r - 1];
        assert p + 1 < |v| ==> v[p + 1] == t[p - r + 1];
      }
    } else if v != "" {
      var t := v[1..];
      assert IsLeader(v[0]) ==> r == 1;
      assert Blanked(v)[0] == v[0];
      forall p | 1 <= p < |v| ensures Blanked(v)[p] == Blanked(t)[p - 1] {
        assert v[p] == t[p - 1];
        assert p > 1 ==> v[p - 1] == t[p - 2];
        assert p + 1 < |v| ==> v[p + 1] == t[p];
      }
    }
  }

  // ----- Words do not see white space and leaders -----

  lemma SpaceIsJunk(c: char)
    requires IsSpace(c) || IsLeader(c)
    ensures Junk(c)
  {
  }

  lemma {:induction false} WordsBehind(s: string, t: string)
    requires forall p | 0 <= p < |t| :: Junk(t[p])
    ensures Words(s + t) == Words(s)
    decreases |s| + |t|
  {
    hide Junk;
    if s == "" {
      assert s + t == t;
      if t != "" {
        assert "" + t[1..] == t[1..];
        WordsBehind("", t[1..]);
      }
    } else {
      assert (s + t)[1..] == s[1..] + t;
      WordsBehind(s[1..], t);
      assert |s| > 1 ==> (s + t)[1] == s[1];
    }
  }

  lemma {:induction false} WordsAfter(s: string, t: string)
    requires forall p | 0 <= p < |s| :: Junk(s[p])
    ensures Words(s + t) == Words(t)
  {
    hide Junk;
    if s == "" {
      assert s + t == t;
    } else {
      assert (s + t)[1..] == s[1..] + t;
      WordsAfter(s[1..], t);
    }
  }

  lemma {:induction false} WordsOfStripped(s: string)
    ensures Words(LStrip(s)) == Words(s) && Words(RStrip(s)) == Words(s) && Words(Strip(s)) == Words(s)
  {
    forall t ensures Words(LStrip(t)) == Words(t) && Words(RStrip(t)) == Words(t) {
      var n := LStripSuffix(t);
      forall p | 0 <= p < n ensures Junk(t[..n][p]) {
        SpaceIsJunk(t[p]);
      }
      WordsAfter(t[..n], t[n..]);
      assert t[..n] + t[n..] == t;
      var m := RStripPrefix(t);
      forall p | 0 <= p < |t| - m ensures Junk(t[m..][p]) {
        SpaceIsJunk(t[m + p]);
      }
      WordsBehind(t[..m], t[m..]);
      assert t[..m] + t[m..] == t;
    }
  }

  /** Words of a text whose first character goes in front of the same words. */
  lemma {:induction false} WordsCons(c: char, s: string, t: string)
    requires Words(s) == Words(t)
    requires (s == "" || Junk(s[0])) <==> (t == "" || Junk(t[0]))
    ensures Words([c] + s) == Words([c] + t)
  {
    assert ([c] + s)[1..] == s && ([c] + t)[1..] == t;
  }

  lemma {:induction false} WordsOfSpaced(v: string)
    ensures Words(Spaced(v)) == Words(v)
    ensures (Spaced(v) == "" || Junk(Spaced(v)[0])) <==> (v == "" || Junk(v[0]))
    decreases |v|
  {
    SpacedStep(v);
    LeaderRunIsLeaders(v);
    var r := LeaderRun(v);
    if r >= 2 {
      var t := v[r..];
      WordsOfSpaced(t);
      SpaceIsJunk(v[0]);
      SpaceIsJunk(' ');
      forall p | 0 <= p < r ensures Junk(v[..r][p]) {
        SpaceIsJunk(v[p]);
      }
      hide Words, Junk, Spaced;
      WordsAfter(v[..r], t);
      assert v[..r] + t == v;
      WordsAfter(" ", Spaced(t));
    } else if v != "" {
      hide Junk, Spaced;
      WordsOfSpaced(v[1..]);
      WordsCons(v[0], Spaced(v[1..]), v[1..]);
      assert [v[0]] + v[1..] == v;
    }
  }

  // ----- Section numbers -----

  lemma {:induction false} DigitRunIsDigits(s: string)
    ensures forall p | 0 <= p < DigitRun(s) :: IsDigit(s[p])
  {
    forall p | 0 <= p < DigitRun(s) ensures IsDigit(s[p]) {
      assert s[..DigitRun(s)][p] == s[p];
    }
  }

  /** What the pattern of a section number matches as a whole. */
  lemma {:induction false} IsNumberIff(s: string)
    ensures IsNumber(s) <==> SectionNumber(s)
    decreases |s|
  {
    hide IsDigit;
    var d := DigitRun(s);
    DigitRunIsDigits(s);
    if 0 < d < |s| && s[d] == '.' {
      var t := s[d + 1..];
      IsNumberIff(t);
      SectionNumberParts(s, d);
    } else if d == |s| {
      assert '.' !in s || !IsDigit('.') by { assert !IsDigit('.') by { NoDigit(); } }
    }
  }

  lemma NoDigit()
    ensures !IsDigit('.') && forall c | IsSpace(c) :: !IsDigit(c)
  {
  }

  lemma SectionNumberParts(s: string, d: nat)
    requires 0 < d < |s| && s[d] == '.' && forall p | 0 <= p < d :: IsDigit(s[p])
    ensures SectionNumber(s) <==> SectionNumber(s[d + 1..])
  {
    NoDigit();
    hide IsDigit;
    var t := s[d + 1..];
    assert forall p | 0 <= p < |t| :: t[p] == s[d + 1 + p];
    if SectionNumber(s) {
      assert d + 1 < |s|;
      assert s[d + 1] != '.';
      forall p | 0 < p < |t| ensures !(t[p - 1] == '.' && t[p] == '.') {
        assert t[p - 1] == s[d + p] && t[p] == s[d + 1 + p];
      }
    }
    if SectionNumber(t) {
      forall p | 0 <= p < |s| ensures IsDigit(s[p]) || s[p] == '.' {
        if p > d {
          assert s[p] == t[p - d - 1];
        }
      }
      forall p | 0 < p < |s| ensures !(s[p - 1] == '.' && s[p] == '.') {
        if p > d + 1 {
          assert s[p] == t[p - d - 1] && s[p - 1] == t[p - d - 2];
        } else if p == d + 1 {
          assert s[p] == t[0];
        }
      }
    }
  }

  /** What a text's section number takes up is a section number. */
  lemma {:induction false} NumberPrefix(s: string)
    requires NumberLength(s) > 0
    ensures IsNumber(s[..NumberLength(s)])
    decreases |s|
  {
    hide IsDigit, AllDigits;
    var d, n := DigitRun(s), NumberLength(s);
    if n > d {
      var t := s[d + 1..];
      NumberPrefix(t);
      assert s[..n] == s[..d] + (['.'] + t[..n - d - 1]);
      DigitRunOf(s[..d], ['.'] + t[..n - d - 1]) by { assert !IsDigit('.') by { NoDigit(); } }
      assert s[..n][d + 1..] == t[..n - d - 1];
    } else {
      assert s[..d] + "" == s[..d];
      DigitRunOf(s[..d], "");
    }
  }

  // ----- A leading number, before and after stripping -----

  lemma SpanIsNoSpace(s: string, i: nat, k: nat)
    requires NumberSpan(s, i, k)
    ensures forall p | i <= p < k :: !IsSpace(s[p]) && !IsLeader(' ')
    ensures exists p | k < p < |s| :: !IsSpace(s[p])
  {
    NoDigit();
    hide IsDigit;
    forall p | i <= p < k ensures !IsSpace(s[p]) {
      assert s[i..k][p - i] == s[p];
      assert !IsSpace('.');
    }
    var p :| 0 <= p < |s[k..]| && !IsSpace(s[k..][p]);
    assert s[k..][p] == s[k + p];
  }

  /** What `NormalizeTitle` cuts off a stripped text, if it does. */
  predicate Cut(plain: string) {
    var n := NumberLength(plain);
    n > 0 && |LStrip(plain[n..])| < |plain| - n
  }

  lemma {:induction false} CutIff(plain: string)
    ensures Cut(plain) <==> var n := NumberLength(plain); 0 < n < |plain| && IsSpace(plain[n])
  {
    var n := NumberLength(plain);
    var m := LStripSuffix(plain[n..]);
  }

  lemma SpanIsCut(s: string, i: nat, k: nat)
    requires NumberSpan(s, i, k)
    ensures Cut(Strip(s)) && Words(Strip(s)[NumberLength(Strip(s))..]) == Words(s[k..])
  {
    var hi := StripKeepsSpan(s, i, k);
    hide *;
    var number, rest := s[i..k], s[k..hi];
    NumberCut(number, rest);
    assert number + rest == s[i..hi];
    forall p | 0 <= p < |s[hi..]| ensures Junk(s[hi..][p]) {
      SpaceIsJunk(s[hi + p]);
    }
    WordsBehind(rest, s[hi..]);
    assert rest + s[hi..] == s[k..];
  }

  lemma StripKeepsSpan(s: string, i: nat, k: nat) returns (hi: nat)
    requires NumberSpan(s, i, k)
    ensures k < hi <= |s| && Strip(s) == s[i..hi] && SectionNumber(s[i..k]) && IsSpace(s[k])
    ensures forall p | hi <= p < |s| :: IsSpace(s[p])
  {
    var lo, h := StripMiddle(s);
    hi := h;
    SpanIsNoSpace(s, i, k);
    hide IsSpace, Strip, SectionNumber;
  }

  lemma {:induction false} NumberCut(number: string, rest: string)
    requires SectionNumber(number) && rest != "" && IsSpace(rest[0])
    ensures NumberLength(number + rest) == |number| && Cut(number + rest)
    ensures (number + rest)[|number|..] == rest
  {
    IsNumberIff(number);
    assert !IsDigit(rest[0]) && rest[0] != '.';
    hide *;
    NumberLengthOf(number, rest);
    CutIff(number + rest);
    assert number != "" by { IsNumberNotEmpty(number); }
  }

  lemma IsNumberNotEmpty(s: string)
    requires IsNumber(s)
    ensures s != ""
  {
  }

  lemma CutIsSpan(s: string) returns (i: nat, k: nat)
    requires Cut(Strip(s))
    ensures NumberSpan(s, i, k)
  {
    var lo, hi := StripMiddle(s);
    var plain := Strip(s);
    var n := NumberLength(plain);
    CutIff(plain);
    i, k := lo, lo + n;
    NumberPrefix(plain);
    IsNumberIff(plain[..n]);
    assert plain[..n] == s[i..k] && plain[n] == s[k];
    assert s[k..][hi - 1 - k] == s[hi - 1];
  }

  // ----- A leading number, with leaders replaced and blanked -----

  /** Before the first blank neither replacing nor blanking leaders changes anything. */
  lemma {:induction false} UpToBlank(v: string, m: nat)
    requires || (m <= |Spaced(v)| && forall p | 0 <= p < m :: !IsSpace(Spaced(v)[p]))
             || (m <= |v| && forall p | 0 <= p < m :: !IsSpace(Blanked(v)[p]))
    ensures m <= |v| && Spaced(v) == v[..m] + Spaced(v[m..]) && Blanked(v) == v[..m] + Blanked(v[m..])
    decreases m
  {
    if m == 0 {
      assert v[0..] == v && "" + Spaced(v) == Spaced(v) && "" + Blanked(v) == Blanked(v);
    } else {
      SpacedStep(v);
      BlankedStep(v);
      assert IsSpace(' ');
      hide Spaced, Blanked, IsSpace;
      var t := v[1..];
      if m <= |Spaced(v)| && forall p | 0 <= p < m :: !IsSpace(Spaced(v)[p]) {
        assert !IsSpace(Spaced(v)[0]);
        forall p | 0 <= p < m - 1 ensures !IsSpace(Spaced(t)[p]) {
          assert Spaced(t)[p] == Spaced(v)[p + 1];
        }
      } else {
        assert !IsSpace(Blanked(v)[0]);
        forall p | 0 <= p < m - 1 ensures !IsSpace(Blanked(t)[p]) {
          assert Blanked(t)[p] == Blanked(v)[p + 1];
        }
      }
      UpToBlank(t, m - 1);
      InFront(v, m, Spaced(v[m..]));
      InFront(v, m, Blanked(v[m..]));
    }
  }

  lemma InFront(v: string, m: nat, s: string)
    requires 0 < m <= |v|
    ensures v[1..][m - 1..] == v[m..] && [v[0]] + (v[1..][..m - 1] + s) == v[..m] + s
  {
  }

  /** The first character, or the leader that starts here: one blank, or as many as it is long. */
  lemma FirstStep(v: string) returns (r: nat, front: string, gap: string)
    requires v != ""
    ensures 0 < r <= |v| && |front| == 1 && |gap| == r
    ensures Spaced(v) == front + Spaced(v[r..]) && Blanked(v) == gap + Blanked(v[r..])
    ensures AllSpace(front) <==> IsSpace(Spaced(v)[0])
    ensures AllSpace(gap) <==> IsSpace(Blanked(v)[0])
    ensures AllSpace(front) <==> AllSpace(gap)
  {
    SpacedStep(v);
    BlankedStep(v);
    assert IsSpace(' ');
    hide IsSpace;
    r := if LeaderRun(v) >= 2 then LeaderRun(v) else 1;
    front, gap := Spaced(v)[..1], Blanked(v)[..r];
  }

  lemma SpacesInFront(a: string, s: string)
    ensures AllSpace(a + s) <==> AllSpace(a) && AllSpace(s)
  {
    hide IsSpace;
    var t := a + s;
    assert forall p | 0 <= p < |a| :: t[p] == a[p];
    forall p | 0 <= p < |s| ensures t[|a| + p] == s[p] {
    }
    if AllSpace(t) {
      forall p | 0 <= p < |s| ensures IsSpace(s[p]) {
        assert t[|a| + p] == s[p];
      }
    }
  }

  /** Both agree on whether there is nothing but blanks. */
  lemma {:induction false} BlankTogether(v: string)
    ensures AllSpace(Spaced(v)) <==> AllSpace(Blanked(v))
    ensures (Spaced(v) != "" && IsSpace(Spaced(v)[0])) <==> (v != "" && IsSpace(Blanked(v)[0]))
    decreases |v|
  {
    if v == "" {
      SpacedStep(v);
      assert Spaced(v) == Blanked(v);
    } else {
      hide *;
      var r, front, gap := FirstStep(v);
      var t := v[r..];
      BlankTogether(t);
      SpacesInFront(front, Spaced(t));
      SpacesInFront(gap, Blanked(t));
    }
  }

  lemma SpanBehind(a: string, s: string, i: nat, k: nat)
    requires AllSpace(a)
    requires NumberSpan(s, i, k)
    ensures NumberSpan(a + s, |a| + i, |a| + k)
  {
    hide IsSpace, IsDigit, SectionNumber;
    var b, n := a + s, |a|;
    assert b[n + i..n + k] == s[i..k] && b[n + k..] == s[k..] && b[n + k] == s[k];
    forall p | 0 <= p < n + i ensures IsSpace(b[p]) {
      if p >= n {
        assert b[p] == s[p - n];
      }
    }
  }

  lemma SpanInside(a: string, s: string, i: nat, k: nat)
    requires AllSpace(a) && NumberSpan(a + s, i, k)
    ensures i >= |a| && NumberSpan(s, i - |a|, k - |a|)
  {
    var b, n := a + s, |a|;
    SpanIsNoSpace(b, i, k);
    hide IsSpace, IsDigit, SectionNumber;
    assert forall p | 0 <= p < n :: b[p] == a[p];
    assert b[i..k] == s[i - n..k - n] && b[k..] == s[k - n..] && b[k] == s[k - n];
    forall p | 0 <= p < i - n ensures IsSpace(s[p]) {
      assert s[p] == b[p + n];
    }
  }

  /** A number at the very front is there with leaders replaced and with leaders blanked, and
      the same words follow it. */
  lemma NumberStarts(v: string, k: nat)
    requires NumberSpan(Spaced(v), 0, k) || NumberSpan(Blanked(v), 0, k)
    ensures NumberSpan(Spaced(v), 0, k) && NumberSpan(Blanked(v), 0, k)
    ensures Words(Spaced(v)[k..]) == Words(v[k..])
  {
    if NumberSpan(Spaced(v), 0, k) {
      SpanIsNoSpace(Spaced(v), 0, k);
    } else {
      SpanIsNoSpace(Blanked(v), 0, k);
    }
    UpToBlank(v, k);
    var u := v[k..];
    BlankTogether(u);
    WordsOfSpaced(u);
    hide Spaced, Blanked, IsSpace, SectionNumber, AllSpace, Words;
    Parts(v[..k], Spaced(u));
    Parts(v[..k], Blanked(u));
  }

  lemma Parts(a: string, s: string)
    ensures (a + s)[0..|a|] == a && (a + s)[|a|..] == s
    ensures s != "" ==> (a + s)[|a|] == s[0]
  {
  }

  lemma SpanBounds(s: string, i: nat, k: nat)
    requires NumberSpan(s, i, k)
    ensures i < k < |s| && (i > 0 ==> IsSpace(s[0]))
  {
  }

  lemma {:induction false} SpanBlanked(v: string, i: nat, k: nat) returns (i': nat, k': nat)
    requires NumberSpan(Spaced(v), i, k)
    ensures NumberSpan(Blanked(v), i', k') && Words(Spaced(v)[k..]) == Words(v[k'..])
    decreases |v|
  {
    hide *;
    SpanBounds(Spaced(v), i, k);
    SpacedStep(v);
    if i == 0 {
      NumberStarts(v, k);
      i', k' := 0, k;
    } else {
      var r, front, gap := FirstStep(v);
      var t := v[r..];
      SpanInside(front, Spaced(t), i, k);
      i', k' := SpanBlanked(t, i - 1, k - 1);
      SpanBounds(Blanked(t), i', k');
      SpanBehind(gap, Blanked(t), i', k');
      Tails(front, Spaced(t), k - 1);
      TailOf(v, r, k');
      i', k' := i' + r, k' + r;
    }
  }

  lemma Tails(a: string, s: string, k: nat)
    requires k <= |s|
    ensures (a + s)[|a| + k..] == s[k..]
  {
  }

  lemma TailOf(v: string, r: nat, k: nat)
    requires r + k <= |v|
    ensures v[r..][k..] == v[r + k..]
  {
  }

  lemma {:induction false} SpanSpaced(v: string, i: nat, k: nat) returns (i': nat, k': nat)
    requires NumberSpan(Blanked(v), i, k)
    ensures NumberSpan(Spaced(v), i', k') && Words(Spaced(v)[k'..]) == Words(v[k..])
    decreases |v|
  {
    hide *;
    SpanBounds(Blanked(v), i, k);
    if i == 0 {
      NumberStarts(v, k);
      i', k' := 0, k;
    } else {
      var r, front, gap := FirstStep(v);
      var t := v[r..];
      SpanInside(gap, Blanked(t), i, k);
      i', k' := SpanSpaced(t, i - r, k - r);
      SpanBounds(Spaced(t), i', k');
      SpanBehind(front, Spaced(t), i', k');
      Tails(front, Spaced(t), k');
      TailOf(v, r, k - r);
      i', k' := i' + 1, k' + 1;
    }
  }

  // ----- What normalizing keeps -----

  /** The normal form of a text is the words of what is left of it, separated by single blanks. */
  lemma {:induction false} NormalizedIsWords(s: string, c: string)
    requires Unnumbered(s, c)
    ensures Normalize(s) == Join(Words(c), " ")
  {
    var plain := Strip(s);
    var n := NumberLength(plain);
    var rest := LStrip(plain[n..]);
    StrippedIsWords(rest, ' ');
    StrippedIsWords(plain, ' ');
    WordsOfStripped(plain[n..]);
    WordsOfStripped(s);
    hide Words, NumberSpan, NumberLength, LStrip, Strip, IsSpace;
    if i: nat, k: nat :| NumberSpan(s, i, k) && c == s[k..] {
      SpanIsCut(s, i, k);
    } else if Cut(plain) {
      var i, k := CutIsSpan(s);
    }
  }

  lemma SomethingLeft(s: string) returns (c: string)
    ensures Unnumbered(s, c)
  {
    c := s;
    if i: nat, k: nat :| NumberSpan(s, i, k) {
      c := s[k..];
    }
  }

  /** The same for a title. */
  lemma {:induction false} TitleIsWords(v: string, c: string)
    requires Compared(v, c)
    ensures NormalizeTitle(v) == Join(Words(c), " ")
  {
    hide Words, SectionNumber, AllSpace, IsSpace, Normalize;
    WordsOfSpaced(v);
    var d := Spaced(v);
    hide Spaced;
    if i: nat, k: nat :| NumberSpan(Blanked(v), i, k) && c == v[k..] {
      var i', k' := SpanSpaced(v, i, k);
      d := Spaced(v)[k'..];
    } else if i: nat, k: nat :| NumberSpan(Spaced(v), i, k) {
      var i', k' := SpanBlanked(v, i, k);
    }
    NormalizedIsWords(Spaced(v), d);
    assert NormalizeTitle(v) == Normalize(Spaced(v)) by { TitleIsSpaced(v); }
  }

  lemma TitleIsSpaced(v: string)
    ensures NormalizeTitle(v) == Normalize(Spaced(v))
  {
  }

  lemma {:induction false} SpaceFreeJoin(words: seq<string>, others: seq<string>)
    requires forall w | w in words + others :: ' ' !in w && w != ""
    ensures Join(words, " ") == Join(others, " ") <==> words == others
  {
    if words != [] && others != [] {
      SplitJoin(words, ' ');
      SplitJoin(others, ' ');
    } else {
      assert words != [] ==> words[0] in words + others;
      assert others != [] ==> others[0] in words + others;
    }
  }

  /** Two titles match exactly when, apart from leaders, a leading number, case and whatever
      is no ASCII letter or digit, they have the same words. */
  lemma TitlesMatchIff(a: string, b: string)
    ensures NormalizeTitle(a) == NormalizeTitle(b) <==> SameTitle(a, b)
  {
    hide NormalizeTitle, NumberSpan;
    forall c, d | Compared(a, c) && Compared(b, d)
      ensures NormalizeTitle(a) == NormalizeTitle(b) <==> SameWords(c, d)
    {
      TitleIsWords(a, c);
      TitleIsWords(b, d);
      hide Compared;
      WordsEqualIffSame(c, d);
      SpaceFreeJoin(Words(c), Words(d));
    }
    var c := SomethingCompared(a);
    var d := SomethingCompared(b);
  }

  lemma SomethingCompared(v: string) returns (c: string)
    ensures Compared(v, c)
  {
    c := v;
    if i: nat, k: nat :| NumberSpan(Blanked(v), i, k) {
      c := v[k..];
    }
  }
}
