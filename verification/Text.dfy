/** Python string operations used by several components: `strip`, `split` on one
    character, `join` and prefix tests, with the facts the proofs need. */
module Text {

  /** Whitespace as `str.strip` and the regular-expression class `\s` see it. */
  predicate IsSpace(c: char) {
    || '\t' <= c <= '\U{d}'
    || '\U{1c}' <= c <= ' '
    || c == '\U{85}' || c == '\U{a0}' || c == '\U{1680}' || c == '\U{2028}'
    || c == '\U{2029}' || c == '\U{202f}' || c == '\U{205f}' || c == '\U{3000}'
    || '\U{2000}' <= c <= '\U{200a}'
  }

  function LStrip(s: string): (r: string) {
    if s != [] && IsSpace(s[0]) then LStrip(s[1..]) else s
  }

  function RStrip(s: string): (r: string) {
    if s != [] && IsSpace(s[|s| - 1]) then RStrip(s[..|s| - 1]) else s
  }

  function Strip(s: string): (r: string) {
    RStrip(LStrip(s))
  }

  /** No whitespace at either end (the empty string is trimmed). */
  predicate Trimmed(s: string) {
    s != [] ==> !IsSpace(s[0]) && !IsSpace(s[|s| - 1])
  }

  lemma {:induction false} LStripSuffix(s: string) returns (n: nat)
    ensures n <= |s| && LStrip(s) == s[n..]
    ensures forall i | 0 <= i < n :: IsSpace(s[i])
    ensures n < |s| ==> !IsSpace(s[n])
  {
    if s != [] && IsSpace(s[0]) {
      var m := LStripSuffix(s[1..]);
      n := m + 1;
      assert s[1..][m..] == s[n..];
      forall i | 0 <= i < n ensures IsSpace(s[i]) {
        if i > 0 { assert s[i] == s[1..][i - 1]; }
      }
    } else {
      n := 0;
    }
  }

  lemma {:induction false} RStripPrefix(s: string) returns (n: nat)
    ensures n <= |s| && RStrip(s) == s[..n]
    ensures forall i | n <= i < |s| :: IsSpace(s[i])
    ensures n > 0 ==> !IsSpace(s[n - 1])
  {
    if s != [] && IsSpace(s[|s| - 1]) {
      n := RStripPrefix(s[..|s| - 1]);
      assert s[..|s| - 1][..n] == s[..n];
      forall i | n <= i < |s| ensures IsSpace(s[i]) {
        if i < |s| - 1 { assert s[i] == s[..|s| - 1][i]; }
      }
    } else {
      n := |s|;
    }
  }

  /** Stripping cuts a prefix and a suffix of whitespace and leaves a trimmed middle. */
  lemma StripMiddle(s: string) returns (lo: nat, hi: nat)
    ensures lo <= hi <= |s| && Strip(s) == s[lo..hi]
    ensures forall i | 0 <= i < lo :: IsSpace(s[i])
    ensures forall i | hi <= i < |s| :: IsSpace(s[i])
    ensures lo < hi ==> !IsSpace(s[lo]) && !IsSpace(s[hi - 1])
  {
    lo := LStripSuffix(s);
    var t := s[lo..];
    var n := RStripPrefix(t);
    hi := lo + n;
    assert t[..n] == s[lo..hi];
    forall i | hi <= i < |s| ensures IsSpace(s[i]) {
      assert s[i] == t[i - lo];
    }
    if lo < hi {
      assert t[n - 1] == s[hi - 1];
      assert s[lo] == t[0];
    }
  }

  lemma StripTrims(s: string)
    ensures Trimmed(Strip(s))
    ensures Trimmed(s) ==> Strip(s) == s
  {
    var lo, hi := StripMiddle(s);
    if s != [] && Trimmed(s) {
      assert lo == 0 && hi == |s|;
    }
  }

  /** `s` is `text` without the white space around it. */
  predicate IsStripped(s: string, text: string) {
    Trimmed(s) && exists lo, hi | 0 <= lo <= hi <= |text| ::
      s == text[lo..hi] && forall i | 0 <= i < |text| && !(lo <= i < hi) :: IsSpace(text[i])
  }

  lemma StripIff(s: string, text: string)
    ensures s == Strip(text) <==> IsStripped(s, text)
  {
    StripTrims(text);
    var lo, hi := StripMiddle(text);
    hide IsSpace, Strip;
    forall l, h | 0 <= l <= h <= |text| && s == text[l..h] && Trimmed(s)
      && forall i | 0 <= i < |text| && !(l <= i < h) :: IsSpace(text[i])
      ensures s == text[lo..hi]
    {
      if l < h {
        assert s[0] == text[l] && s[|s| - 1] == text[h - 1];
        assert lo == l && hi == h;
      } else {
        assert lo == hi;
      }
    }
    if s == Strip(text) {
      assert s == text[lo..hi];
    }
  }

  lemma {:induction false} RStripAppend(a: string, b: string)
    ensures RStrip(a + b) == if RStrip(b) == "" then RStrip(a) else a + RStrip(b)
  {
    if b == "" {
      assert a + b == a;
    } else if IsSpace(b[|b| - 1]) {
      assert (a + b)[..|a + b| - 1] == a + b[..|b| - 1];
      RStripAppend(a, b[..|b| - 1]);
    }
  }

  // ----- Case -----

  /** A character in lower case; ASCII letters only. */
  function Lower(c: char): char {
    if 'A' <= c <= 'Z' then ('a' as int + (c as int - 'A' as int)) as char else c
  }

  /** Python's `s.lower()`, on ASCII letters. */
  function LowerAll(s: string): (r: string)
    ensures |r| == |s| && forall i | 0 <= i < |s| :: r[i] == Lower(s[i])
  {
    seq(|s|, i requires 0 <= i < |s| => Lower(s[i]))
  }

  /** `c` is `d`, in lower case. */
  predicate LowerOf(c: char, d: char) {
    if 'A' <= d <= 'Z' then c as int == d as int + 32 else c == d
  }

  predicate IsLowerOf(w: string, s: string) {
    |w| == |s| && forall k | 0 <= k < |w| :: LowerOf(w[k], s[k])
  }

  lemma LowerIsLowerOf(c: char)
    ensures forall d :: LowerOf(d, c) <==> d == Lower(c)
  {
  }

  lemma LowerAllIff(w: string, s: string)
    ensures w == LowerAll(s) <==> IsLowerOf(w, s)
  {
    forall k | 0 <= k < |s| && k < |w| ensures LowerOf(w[k], s[k]) <==> w[k] == LowerAll(s)[k] {
      LowerIsLowerOf(s[k]);
    }
    hide LowerOf, Lower;
  }

  /** Two characters that differ at most in the case of an ASCII letter. */
  predicate SameLetter(c: char, d: char) {
    c == d || ('A' <= c <= 'Z' && d as int == c as int + 32) || ('A' <= d <= 'Z' && c as int == d as int + 32)
  }

  predicate SameButForCase(a: string, b: string) {
    |a| == |b| && forall k | 0 <= k < |a| :: SameLetter(a[k], b[k])
  }

  lemma LowerAllAgree(a: string, b: string)
    ensures LowerAll(a) == LowerAll(b) <==> SameButForCase(a, b)
  {
    forall k | 0 <= k < |a| && k < |b| ensures LowerAll(a)[k] == LowerAll(b)[k] <==> SameLetter(a[k], b[k]) {
    }
    hide Lower, SameLetter;
  }

  /** Python's `s.startswith(p)`. */
  predicate StartsWith(s: string, p: string) {
    p <= s
  }

  /** Python's `s.split(sep)` for a one-character separator. */
  function Split(s: string, sep: char): (parts: seq<string>)
    ensures parts != []
  {
    if s == [] then [[]]
    else if s[0] == sep then [[]] + Split(s[1..], sep)
    else
      var rest := Split(s[1..], sep);
      [[s[0]] + rest[0]] + rest[1..]
  }

  lemma {:induction false} SplitPieces(s: string, sep: char)
    ensures forall p | p in Split(s, sep) :: sep !in p
  {
    if s != [] {
      SplitPieces(s[1..], sep);
    }
  }

  /** Python's `sep.join(parts)`. */
  function Join(parts: seq<string>, sep: string): string {
    if parts == [] then []
    else if |parts| == 1 then parts[0]
    else parts[0] + sep + Join(parts[1..], sep)
  }

  lemma {:induction false} SplitNone(s: string, sep: char)
    requires sep !in s
    ensures Split(s, sep) == [s]
  {
    if s != [] {
      SplitNone(s[1..], sep);
      assert [s[0]] + s[1..] == s;
    }
  }

  lemma {:induction false} SplitFirst(a: string, b: string, sep: char)
    requires sep !in a
    ensures Split(a + [sep] + b, sep) == [a] + Split(b, sep)
  {
    var s := a + [sep] + b;
    if a == [] {
      assert s[1..] == b;
    } else {
      assert s[1..] == a[1..] + [sep] + b;
      SplitFirst(a[1..], b, sep);
      assert [a[0]] + a[1..] == a;
    }
  }

  /** Splitting undoes joining when no part holds the separator. */
  lemma {:induction false} SplitJoin(parts: seq<string>, sep: char)
    requires parts != [] && forall p | p in parts :: sep !in p
    ensures Split(Join(parts, [sep]), sep) == parts
  {
    if |parts| == 1 {
      SplitNone(parts[0], sep);
    } else {
      SplitJoin(parts[1..], sep);
      SplitFirst(parts[0], Join(parts[1..], [sep]), sep);
      assert [parts[0]] + parts[1..] == parts;
    }
  }

  /** Joining undoes splitting, always. */
  lemma {:induction false} JoinSplit(s: string, sep: char)
    ensures Join(Split(s, sep), [sep]) == s
  {
    if s != [] {
      JoinSplit(s[1..], sep);
      var rest := Split(s[1..], sep);
      if s[0] == sep {
        assert ([[]] + rest)[1..] == rest;
        assert [sep] + s[1..] == s;
      } else {
        var parts := [[s[0]] + rest[0]] + rest[1..];
        assert parts[1..] == rest[1..];
        assert [s[0]] + s[1..] == s;
        if |rest| > 1 {
          assert Join(rest, [sep]) == rest[0] + [sep] + Join(rest[1..], [sep]);
          assert [s[0]] + (rest[0] + [sep] + Join(rest[1..], [sep])) == ([s[0]] + rest[0]) + [sep] + Join(rest[1..], [sep]);
        }
      }
    }
  }

  /** The concatenation of a list of strings. */
  function Concat(parts: seq<string>): string {
    if parts == [] then [] else parts[0] + Concat(parts[1..])
  }

  lemma {:induction false} ConcatAppend(a: seq<string>, b: seq<string>)
    ensures Concat(a + b) == Concat(a) + Concat(b)
  {
    if a == [] {
      assert a + b == b;
    } else {
      ConcatAppend(a[1..], b);
      assert (a + b)[1..] == a[1..] + b && (a + b)[0] == a[0];
      assert a[0] + (Concat(a[1..]) + Concat(b)) == a[0] + Concat(a[1..]) + Concat(b);
    }
  }

  // ----- Stripping and splitting -----

  /** One more character in front of the parts. */
  function Ahead(c: char, sep: char, parts: seq<string>): seq<string>
    requires parts != []
  {
    if c == sep then [[]] + parts else [[c] + parts[0]] + parts[1..]
  }

  /** One more character at the end of the parts. */
  function Behind(parts: seq<string>, c: char, sep: char): seq<string>
    requires parts != []
  {
    if c == sep then parts + [[]] else parts[..|parts| - 1] + [parts[|parts| - 1] + [c]]
  }

  lemma {:induction false} SplitCons(c: char, s: string, sep: char)
    ensures Split([c] + s, sep) == Ahead(c, sep, Split(s, sep))
  {
    assert ([c] + s)[1..] == s;
  }

  lemma AheadConcat(c: char, sep: char, p: seq<string>, q: seq<string>)
    requires p != []
    ensures Ahead(c, sep, p + q) == Ahead(c, sep, p) + q
  {
    assert (p + q)[0] == p[0] && (p + q)[1..] == p[1..] + q;
  }

  lemma AheadBehind(c: char, sep: char, p: seq<string>, d: char)
    requires p != []
    ensures Ahead(c, sep, Behind(p, d, sep)) == Behind(Ahead(c, sep, p), d, sep)
  {
    var n := |p| - 1;
    if d == sep {
      AheadConcat(c, sep, p, [[]]);
    } else if n == 0 {
      assert [c] + (p[0] + [d]) == [c] + p[0] + [d];
    } else {
      assert p == p[..n] + [p[n]];
      AheadConcat(c, sep, p[..n], [p[n] + [d]]);
      AheadConcat(c, sep, p[..n], [p[n]]);
    }
  }

  /** Splitting a text cut at a separator. */
  lemma {:induction false} SplitAround(a: string, b: string, sep: char)
    ensures Split(a + [sep] + b, sep) == Split(a, sep) + Split(b, sep)
  {
    if a == [] {
      assert [] + [sep] + b == [sep] + b;
      SplitCons(sep, b, sep);
    } else {
      hide Split, Ahead;
      var t := a[1..];
      assert a + [sep] + b == [a[0]] + (t + [sep] + b) && a == [a[0]] + t;
      SplitAround(t, b, sep);
      SplitCons(a[0], t + [sep] + b, sep);
      SplitCons(a[0], t, sep);
      AheadConcat(a[0], sep, Split(t, sep), Split(b, sep));
    }
  }

  lemma {:induction false} SplitSnoc(s: string, c: char, sep: char)
    ensures Split(s + [c], sep) == Behind(Split(s, sep), c, sep)
  {
    if s == [] {
      SplitCons(c, [], sep);
      assert [] + [c] == [c] && [c] + [] == [c];
    } else {
      hide Split, Ahead, Behind;
      var t := s[1..];
      assert s + [c] == [s[0]] + (t + [c]) && s == [s[0]] + t;
      SplitSnoc(t, c, sep);
      SplitCons(s[0], t + [c], sep);
      SplitCons(s[0], t, sep);
      AheadBehind(s[0], sep, Split(t, sep), c);
    }
  }

  /** The lines of a text stripped on the left: blank lines go, the first other is stripped. */
  function LStripLines(lines: seq<string>): seq<string> {
    if lines == [] then []
    else if LStrip(lines[0]) == "" && |lines| > 1 then LStripLines(lines[1..])
    else [LStrip(lines[0])] + lines[1..]
  }

  function RStripLines(lines: seq<string>): seq<string> {
    if lines == [] then []
    else
      var n := |lines| - 1;
      if RStrip(lines[n]) == "" && n > 0 then RStripLines(lines[..n]) else lines[..n] + [RStrip(lines[n])]
  }

  lemma {:induction false} SplitLStrip(s: string)
    ensures Split(LStrip(s), '\n') == LStripLines(Split(s, '\n'))
  {
    if s != [] {
      var rest := Split(s[1..], '\n');
      SplitLStrip(s[1..]);
      if s[0] != '\n' && IsSpace(s[0]) {
        assert ([s[0]] + rest[0])[1..] == rest[0];
      }
    }
  }

  lemma {:induction false} SplitRStrip(s: string)
    ensures Split(RStrip(s), '\n') == RStripLines(Split(s, '\n'))
  {
    if s != [] {
      var n := |s| - 1;
      var c, parts := s[n], Split(s[..n], '\n');
      assert s[..n] + [c] == s;
      SplitRStrip(s[..n]);
      SplitSnoc(s[..n], c, '\n');
      var k := |parts| - 1;
      var lines := Split(s, '\n');
      if c == '\n' {
        assert lines[..|lines| - 1] == parts;
      } else {
        assert lines[..k] == parts[..k] && lines[k] == parts[k] + [c];
        assert lines[k][..|lines[k]| - 1] == parts[k];
        if !IsSpace(c) {
          assert lines == lines[..k] + [lines[k]];
        }
      }
    }
  }
}
