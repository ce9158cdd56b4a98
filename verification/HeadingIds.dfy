/** Stable heading ids (`_stable_id` and the loop that drives it in
    `extract_docx_structure`): slugs, occurrence counters, and exactly when the ids
    of a document are pairwise distinct. */
module HeadingIds {
  import opened Decimal
  import opened Text

  // ----- Slugs -----

  predicate IsSlugChar(c: char) {
    'a' <= c <= 'z' || '0' <= c <= '9'
  }

  function DropJunk(s: string): (r: string)
    ensures |r| <= |s|
  {
    if s != "" && !IsSlugChar(Lower(s[0])) then DropJunk(s[1..]) else s
  }

  /** Lower-cases `s` and turns every run of other characters into one `sep`. */
  function Collapse(s: string, sep: char): string
    decreases |s|
  {
    if s == "" then ""
    else if IsSlugChar(Lower(s[0])) then [Lower(s[0])] + Collapse(s[1..], sep)
    else [sep] + Collapse(DropJunk(s[1..]), sep)
  }

  /** Python's `s.strip(c)` for one character. */
  function StripChar(s: string, c: char): string
    decreases |s|
  {
    if s != "" && s[0] == c then StripChar(s[1..], c)
    else if s != "" && s[|s| - 1] == c then StripChar(s[..|s| - 1], c)
    else s
  }

  function Base(text: string): string {
    var slug := StripChar(Collapse(text, '-'), '-');
    "heading-" + (if slug == "" then "section" else slug)
  }

  function Bases(texts: seq<string>): seq<string> {
    seq(|texts|, i requires 0 <= i < |texts| => Base(texts[i]))
  }

  // ----- What a slug is -----

  predicate Junk(c: char) {
    !IsSlugChar(Lower(c))
  }

  predicate SlugWord(w: string) {
    w != "" && forall i | 0 <= i < |w| :: IsSlugChar(w[i])
  }

  /** The maximal runs of letters and digits, in lower case. */
  function Words(s: string): (words: seq<string>)
    ensures s != "" && !Junk(s[0]) ==> words != []
    ensures forall i | 0 <= i < |words| :: SlugWord(words[i])
  {
    if s == "" then []
    else if Junk(s[0]) then Words(s[1..])
    else if |s| == 1 || Junk(s[1]) then [[Lower(s[0])]] + Words(s[1..])
    else
      var rest := Words(s[1..]);
      assert SlugWord(rest[0]);
      [[Lower(s[0])] + rest[0]] + rest[1..]
  }

  lemma {:induction false} WordsAfterJunk(s: string)
    ensures Words(DropJunk(s)) == Words(s)
    ensures DropJunk(s) == "" || (!Junk(DropJunk(s)[0]) && DropJunk(s)[|DropJunk(s)| - 1] == s[|s| - 1])
    ensures DropJunk(s) == "" ==> Words(s) == []
  {
    if s != "" && Junk(s[0]) {
      WordsAfterJunk(s[1..]);
    }
  }

  lemma {:induction false} NoWordsAllJunk(s: string)
    requires s != "" && Words(s) == []
    ensures Junk(s[|s| - 1])
  {
    if |s| > 1 {
      NoWordsAllJunk(s[1..]);
    }
  }

  function Lead(s: string, sep: char): string {
    if s != "" && Junk(s[0]) then [sep] else ""
  }

  function Trail(s: string, sep: char): string {
    if s != "" && Words(s) != [] && Junk(s[|s| - 1]) then [sep] else ""
  }

  lemma {:induction false} JoinCons(w: string, words: seq<string>, sep: string)
    ensures Join([w] + words, sep) == if words == [] then w else w + sep + Join(words, sep)
  {
    assert ([w] + words)[1..] == words;
  }

  lemma Regroup(a: string, w: string, d: string, j: string)
    ensures (a + w) + d + j == a + (w + d + j)
  {
  }

  lemma {:induction false} JoinGrows(c: char, words: seq<string>, sep: string)
    requires words != []
    ensures Join([[c] + words[0]] + words[1..], sep) == [c] + Join(words, sep)
    ensures Join([[c]] + words, sep) == [c] + sep + Join(words, sep)
  {
    var w, rest := words[0], words[1..];
    assert [w] + rest == words;
    hide *;
    JoinCons([c] + w, rest, sep);
    JoinCons(w, rest, sep);
    JoinCons([c], words, sep);
    Regroup([c], w, sep, Join(rest, sep));
  }

  predicate Shaped(s: string, sep: char) {
    Collapse(s, sep) == Lead(s, sep) + Join(Words(s), [sep]) + Trail(s, sep)
  }

  lemma ShapedJunk(s: string, sep: char)
    requires s != "" && Junk(s[0]) && Shaped(DropJunk(s[1..]), sep)
    ensures Shaped(s, sep)
  {
    var u := DropJunk(s[1..]);
    WordsAfterJunk(s[1..]);
    hide IsSlugChar, Lower, Join, SlugWord, DropJunk;
    assert Collapse(s, sep) == [sep] + Collapse(u, sep);
    assert Trail(u, sep) == Trail(s, sep) && Words(u) == Words(s) && Lead(u, sep) == "" && Lead(s, sep) == [sep];
  }

  lemma ShapedWithin(s: string, sep: char)
    requires |s| > 1 && !Junk(s[0]) && !Junk(s[1]) && Shaped(s[1..], sep)
    ensures Shaped(s, sep)
  {
    var words := Words(s[1..]);
    hide IsSlugChar, Lower, Join, SlugWord;
    assert Collapse(s, sep) == [Lower(s[0])] + Collapse(s[1..], sep);
    assert Words(s) == [[Lower(s[0])] + words[0]] + words[1..];
    assert Trail(s[1..], sep) == Trail(s, sep) && Lead(s[1..], sep) == "" && Lead(s, sep) == "";
    JoinGrows(Lower(s[0]), words, [sep]);
  }

  lemma ShapedEnd(s: string, sep: char)
    requires s != "" && !Junk(s[0]) && (|s| > 1 ==> Junk(s[1])) && Shaped(s[1..], sep)
    ensures Shaped(s, sep)
  {
    var t := s[1..];
    var words := Words(t);
    assert Join([[Lower(s[0])]], [sep]) == [Lower(s[0])] && Join([], [sep]) == "";
    hide IsSlugChar, Lower, Join, SlugWord;
    assert Collapse(s, sep) == [Lower(s[0])] + Collapse(t, sep);
    assert Words(s) == [[Lower(s[0])]] + words && Lead(s, sep) == "";
    if words == [] {
      assert |s| > 1 ==> Junk(s[|s| - 1]) by {
        if |s| > 1 {
          NoWordsAllJunk(t);
        }
      }
    } else {
      assert Trail(t, sep) == Trail(s, sep) && Lead(t, sep) == [sep];
      JoinGrows(Lower(s[0]), words, [sep]);
    }
  }

  lemma {:induction false} CollapseShape(s: string, sep: char)
    ensures Shaped(s, sep)
    decreases |s|
  {
    if s == "" {
      assert Collapse("", sep) == "" && Join(Words(""), [sep]) == "";
    } else {
      hide *;
      if Junk(s[0]) {
        CollapseShape(DropJunk(s[1..]), sep);
        ShapedJunk(s, sep);
      } else {
        CollapseShape(s[1..], sep);
        if |s| > 1 && !Junk(s[1]) {
          ShapedWithin(s, sep);
        } else {
          ShapedEnd(s, sep);
        }
      }
    }
  }

  lemma {:induction false} JoinedEnds(words: seq<string>, sep: char)
    requires !IsSlugChar(sep) && words != [] && forall i | 0 <= i < |words| :: SlugWord(words[i])
    ensures var j := Join(words, [sep]); j != "" && j[0] != sep && j[|j| - 1] != sep
  {
    assert SlugWord(words[0]);
    if |words| > 1 {
      JoinedEnds(words[1..], sep);
    }
  }

  lemma {:induction false} StripOnce(lead: string, j: string, trail: string, sep: char)
    requires lead == "" || lead == [sep]
    requires trail == "" || trail == [sep]
    requires j != "" && j[0] != sep && j[|j| - 1] != sep
    ensures StripChar(lead + j + trail, sep) == j
  {
    var t := j + trail;
    assert t[0] == j[0] && StripChar(j, sep) == j;
    assert StripChar(t, sep) == j by {
      if trail == [sep] {
        assert t[|t| - 1] == sep && t[..|t| - 1] == j;
      } else {
        assert t == j;
      }
    }
    if lead == [sep] {
      assert (lead + j + trail)[0] == sep && (lead + j + trail)[1..] == t;
    } else {
      assert lead + j + trail == t;
    }
  }

  /** Collapsed and stripped, a text is its words joined by the separator. */
  lemma {:induction false} StrippedIsWords(text: string, sep: char)
    requires !IsSlugChar(sep)
    ensures StripChar(Collapse(text, sep), sep) == Join(Words(text), [sep])
  {
    CollapseShape(text, sep);
    var words := Words(text);
    if words != [] {
      JoinedEnds(words, sep);
      StripOnce(Lead(text, sep), Join(words, [sep]), Trail(text, sep), sep);
    } else {
      assert Collapse(text, sep) == Lead(text, sep) && Join(words, [sep]) == "";
      assert [sep][1..] == "";
    }
  }

  /** A heading's slug is its words in lower case joined by dashes, "section" without any. */
  lemma {:induction false} BaseIsWords(text: string)
    ensures Base(text) == "heading-" + (if Words(text) == [] then "section" else Join(Words(text), "-"))
  {
    StrippedIsWords(text, '-');
    if Words(text) != [] {
      JoinedEnds(Words(text), '-');
    } else {
      assert Join(Words(text), "-") == "";
    }
  }

  // ----- The words, in terms of the characters -----

  predicate LetterOrDigit(c: char) {
    'a' <= c <= 'z' || 'A' <= c <= 'Z' || '0' <= c <= '9'
  }

  /** A maximal run of ASCII letters and digits, from `a` up to `b`. */
  predicate IsRun(s: string, a: nat, b: nat) {
    && a < b <= |s|
    && (forall k | a <= k < b :: LetterOrDigit(s[k]))
    && (a > 0 ==> !LetterOrDigit(s[a - 1]))
    && (b < |s| ==> !LetterOrDigit(s[b]))
  }

  predicate AllRuns(s: string, spans: seq<(nat, nat)>) {
    forall i | 0 <= i < |spans| :: IsRun(s, spans[i].0, spans[i].1)
  }

  predicate InOrder(spans: seq<(nat, nat)>) {
    forall i, j | 0 <= i < j < |spans| :: spans[i].1 < spans[j].0
  }

  predicate Covered(spans: seq<(nat, nat)>, k: nat) {
    exists i | 0 <= i < |spans| :: spans[i].0 <= k < spans[i].1
  }

  /** All the runs, in order. */
  predicate AreRuns(s: string, spans: seq<(nat, nat)>) {
    && AllRuns(s, spans) && InOrder(spans)
    && forall k | 0 <= k < |s| && LetterOrDigit(s[k]) :: Covered(spans, k)
  }

  /** The words are these stretches of the text, in lower case. */
  predicate Spell(words: seq<string>, s: string, spans: seq<(nat, nat)>)
    requires AllRuns(s, spans)
  {
    |words| == |spans| && forall i | 0 <= i < |spans| :: IsLowerOf(words[i], s[spans[i].0..spans[i].1])
  }

  function Shifted(spans: seq<(nat, nat)>): (r: seq<(nat, nat)>)
    ensures |r| == |spans| && forall i | 0 <= i < |r| :: r[i] == (spans[i].0 + 1, spans[i].1 + 1)
  {
    seq(|spans|, i requires 0 <= i < |spans| => (spans[i].0 + 1, spans[i].1 + 1))
  }

  lemma RunShifts(s: string, a: nat, b: nat)
    requires s != "" && IsRun(s[1..], a, b) && (a == 0 ==> !LetterOrDigit(s[0]))
    ensures IsRun(s, a + 1, b + 1) && s[a + 1..b + 1] == s[1..][a..b]
  {
    hide LetterOrDigit;
    var t := s[1..];
    forall k | a + 1 <= k < b + 1 ensures LetterOrDigit(s[k]) {
      assert s[k] == t[k - 1];
    }
    forall k | 0 <= k < b - a ensures s[a + 1..b + 1][k] == t[a..b][k] {
      assert s[a + 1 + k] == t[a + k];
    }
    assert s[a + 1..b + 1] == t[a..b];
  }

  lemma CoverShifts(spans: seq<(nat, nat)>, k: nat)
    requires k > 0 && Covered(spans, k - 1)
    ensures Covered(Shifted(spans), k)
  {
    var i :| 0 <= i < |spans| && spans[i].0 <= k - 1 < spans[i].1;
    assert Shifted(spans)[i].0 <= k < Shifted(spans)[i].1;
  }

  lemma CoverFromAny(spans: seq<(nat, nat)>, more: seq<(nat, nat)>, k: nat)
    requires Covered(spans, k)
    ensures Covered(more + spans, k)
  {
    var i :| 0 <= i < |spans| && spans[i].0 <= k < spans[i].1;
    assert (more + spans)[|more| + i].0 <= k < (more + spans)[|more| + i].1;
  }

  /** The runs of the rest of a text, when none of them begins right after a letter. */
  lemma RunsShift(s: string, words: seq<string>, spans: seq<(nat, nat)>)
    requires s != "" && AreRuns(s[1..], spans) && Spell(words, s[1..], spans)
    requires LetterOrDigit(s[0]) ==> forall i | 0 <= i < |spans| :: spans[i].0 > 0
    ensures AllRuns(s, Shifted(spans)) && InOrder(Shifted(spans)) && Spell(words, s, Shifted(spans))
    ensures forall k | 0 < k < |s| && LetterOrDigit(s[k]) :: Covered(Shifted(spans), k)
  {
    hide LetterOrDigit, Covered;
    var shifted := Shifted(spans);
    forall i | 0 <= i < |spans|
      ensures IsRun(s, shifted[i].0, shifted[i].1) && IsLowerOf(words[i], s[shifted[i].0..shifted[i].1])
    {
      assert IsRun(s[1..], spans[i].0, spans[i].1);
      assert IsLowerOf(words[i], s[1..][spans[i].0..spans[i].1]);
      RunShifts(s, spans[i].0, spans[i].1);
    }
    hide IsRun, IsLowerOf;
    forall k | 0 < k < |s| && LetterOrDigit(s[k]) ensures Covered(shifted, k) {
      assert s[1..][k - 1] == s[k];
      CoverShifts(spans, k);
    }
  }

  /** A run in front of the others. */
  lemma RunInFront(s: string, b: nat, word: string, words: seq<string>, spans: seq<(nat, nat)>)
    requires IsRun(s, 0, b) && IsLowerOf(word, s[..b])
    requires AllRuns(s, spans) && InOrder(spans) && Spell(words, s, spans)
    requires spans != [] ==> b < spans[0].0
    requires forall k | b <= k < |s| && LetterOrDigit(s[k]) :: Covered(spans, k)
    ensures AreRuns(s, [(0, b)] + spans) && Spell([word] + words, s, [(0, b)] + spans)
  {
    var all := [(0, b)] + spans;
    assert s[0..b] == s[..b];
    forall i | 0 <= i < |all| ensures IsRun(s, all[i].0, all[i].1) && IsLowerOf(([word] + words)[i], s[all[i].0..all[i].1]) {
      if i > 0 {
        assert all[i] == spans[i - 1] && IsRun(s, spans[i - 1].0, spans[i - 1].1);
        assert IsLowerOf(words[i - 1], s[spans[i - 1].0..spans[i - 1].1]);
      }
    }
    hide LetterOrDigit, IsRun, IsLowerOf, Covered;
    assert InOrder(all) by {
      assert forall j | 0 <= j < |spans| :: b < spans[j].0 by {
        hide AllRuns;
        assert forall j | 0 < j < |spans| :: spans[0].1 < spans[j].0;
        RunIsNotEmpty(s, spans);
      }
    }
    forall k | 0 <= k < |s| && LetterOrDigit(s[k]) ensures Covered(all, k) {
      if k < b {
        CoveredByFirst(all, k);
      } else {
        CoverFromAny(spans, [(0, b)], k);
      }
    }
  }

  lemma RunIsNotEmpty(s: string, spans: seq<(nat, nat)>)
    requires AllRuns(s, spans)
    ensures forall j | 0 <= j < |spans| :: spans[j].0 < spans[j].1
  {
    forall j | 0 <= j < |spans| ensures spans[j].0 < spans[j].1 {
      assert IsRun(s, spans[j].0, spans[j].1);
    }
  }

  lemma CoveredByFirst(spans: seq<(nat, nat)>, k: nat)
    requires spans != [] && spans[0].0 <= k < spans[0].1
    ensures Covered(spans, k)
  {
  }

  /** A text that begins with a letter has a run from there. */
  lemma FirstRun(s: string, spans: seq<(nat, nat)>)
    requires s != "" && LetterOrDigit(s[0]) && AreRuns(s, spans)
    ensures spans != [] && spans[0].0 == 0 && forall i | 0 < i < |spans| :: spans[i].0 > 0
  {
    hide LetterOrDigit;
    RunIsNotEmpty(s, spans);
    var i :| 0 <= i < |spans| && spans[i].0 <= 0 < spans[i].1;
    assert forall j | 0 < j < |spans| :: spans[0].1 < spans[j].0;
  }

  /** The other runs are runs as well without the first. */
  lemma WithoutFirst(s: string, words: seq<string>, spans: seq<(nat, nat)>)
    requires AreRuns(s, spans) && Spell(words, s, spans) && spans != []
    ensures AllRuns(s, spans[1..]) && InOrder(spans[1..]) && Spell(words[1..], s, spans[1..])
    ensures forall k | spans[0].1 <= k < |s| && LetterOrDigit(s[k]) :: Covered(spans[1..], k)
  {
    hide LetterOrDigit;
    var rest := spans[1..];
    assert forall i | 0 <= i < |rest| :: rest[i] == spans[i + 1];
    forall i | 0 <= i < |rest| ensures IsRun(s, rest[i].0, rest[i].1) && IsLowerOf(words[1..][i], s[rest[i].0..rest[i].1]) {
      assert IsRun(s, spans[i + 1].0, spans[i + 1].1);
      assert IsLowerOf(words[i + 1], s[spans[i + 1].0..spans[i + 1].1]);
    }
    hide IsRun, IsLowerOf;
    forall k | spans[0].1 <= k < |s| && LetterOrDigit(s[k]) ensures Covered(rest, k) {
      assert Covered(spans, k);
      var i :| 0 <= i < |spans| && spans[i].0 <= k < spans[i].1;
      assert rest[i - 1].0 <= k < rest[i - 1].1;
    }
  }

  lemma RunsAfterJunk(s: string, words: seq<string>, spans: seq<(nat, nat)>)
    requires s != "" && !LetterOrDigit(s[0]) && AreRuns(s[1..], spans) && Spell(words, s[1..], spans)
    ensures AreRuns(s, Shifted(spans)) && Spell(words, s, Shifted(spans))
  {
    hide LetterOrDigit, AllRuns, InOrder, Spell;
    RunsShift(s, words, spans);
  }

  /** A word of one character in front. */
  lemma RunsAfterOne(s: string, c: char, words: seq<string>, spans: seq<(nat, nat)>)
    requires s != "" && LetterOrDigit(s[0]) && LowerOf(c, s[0]) && (|s| > 1 ==> !LetterOrDigit(s[1]))
    requires AreRuns(s[1..], spans) && Spell(words, s[1..], spans)
    ensures AreRuns(s, [(0, 1)] + Shifted(spans)) && Spell([[c]] + words, s, [(0, 1)] + Shifted(spans))
  {
    var t := s[1..];
    assert IsRun(s, 0, 1) && IsLowerOf([c], s[..1]);
    forall i | 0 <= i < |spans| ensures spans[i].0 > 0 {
      assert IsRun(t, spans[i].0, spans[i].1);
      assert LetterOrDigit(t[spans[i].0]);
    }
    hide LetterOrDigit, IsRun, IsLowerOf, Spell, AllRuns, InOrder;
    RunsShift(s, words, spans);
    RunInFront(s, 1, [c], words, Shifted(spans));
  }

  /** One more character in front of the first word. */
  lemma RunsGrow(s: string, c: char, words: seq<string>, spans: seq<(nat, nat)>)
    requires |s| > 1 && LetterOrDigit(s[0]) && LowerOf(c, s[0]) && LetterOrDigit(s[1])
    requires AreRuns(s[1..], spans) && Spell(words, s[1..], spans)
    ensures spans != []
    ensures AreRuns(s, [(0, spans[0].1 + 1)] + Shifted(spans[1..]))
    ensures Spell([[c] + words[0]] + words[1..], s, [(0, spans[0].1 + 1)] + Shifted(spans[1..]))
  {
    var t := s[1..];
    FirstRun(t, spans);
    var n, rest := spans[0].1, spans[1..];
    assert IsRun(t, 0, n) && IsLowerOf(words[0], t[0..n]);
    FirstRunGrows(s, c, words[0], n);
    WithoutFirst(t, words, spans);
    var shifted := Shifted(rest);
    forall i | 0 <= i < |rest| ensures rest[i].0 > n {
      assert rest[i] == spans[i + 1];
    }
    hide LetterOrDigit, IsLowerOf;
    forall i | 0 <= i < |rest|
      ensures IsRun(s, shifted[i].0, shifted[i].1) && s[shifted[i].0..shifted[i].1] == t[rest[i].0..rest[i].1]
    {
      RunShifts(s, rest[i].0, rest[i].1);
    }
    assert forall i | 0 <= i < |rest| :: IsLowerOf(words[1..][i], t[rest[i].0..rest[i].1]);
    hide IsRun, Covered;
    forall k | n + 1 <= k < |s| && LetterOrDigit(s[k]) ensures Covered(shifted, k) {
      assert t[k - 1] == s[k];
      CoverShifts(rest, k);
    }
    RunInFront(s, n + 1, [c] + words[0], words[1..], shifted);
  }

  lemma FirstRunGrows(s: string, c: char, word: string, n: nat)
    requires s != "" && LetterOrDigit(s[0]) && LowerOf(c, s[0])
    requires IsRun(s[1..], 0, n) && IsLowerOf(word, s[1..][0..n])
    ensures IsRun(s, 0, n + 1) && IsLowerOf([c] + word, s[..n + 1])
  {
    hide LetterOrDigit, LowerOf;
    var t := s[1..];
    forall k | 0 <= k < n + 1 ensures LetterOrDigit(s[k]) {
      if k > 0 {
        assert s[k] == t[k - 1];
      }
    }
    forall k | 0 <= k < n + 1 ensures LowerOf(([c] + word)[k], s[..n + 1][k]) {
      if k > 0 {
        assert t[0..n][k - 1] == s[k];
      }
    }
    assert n < |t| ==> t[n] == s[n + 1];
  }

  lemma JunkIsNoLetter(c: char)
    ensures Junk(c) <==> !LetterOrDigit(c)
    ensures LetterOrDigit(c) ==> LowerOf(Lower(c), c)
  {
  }

  /** The words are the maximal runs of ASCII letters and digits, in order and lower-cased. */
  lemma {:induction false} WordsAreRuns(s: string) returns (spans: seq<(nat, nat)>)
    ensures AreRuns(s, spans) && Spell(Words(s), s, spans)
  {
    if s == "" {
      spans := [];
    } else {
      JunkIsNoLetter(s[0]);
      if |s| > 1 {
        JunkIsNoLetter(s[1]);
      }
      hide AreRuns, Spell, AllRuns, LetterOrDigit, Lower, LowerOf, Junk;
      var rest := WordsAreRuns(s[1..]);
      assert AllRuns(s[1..], rest) by { RunsAreRuns(s[1..], rest); }
      if Junk(s[0]) {
        spans := Shifted(rest);
        RunsAfterJunk(s, Words(s[1..]), rest);
      } else if |s| == 1 || Junk(s[1]) {
        spans := [(0, 1)] + Shifted(rest);
        RunsAfterOne(s, Lower(s[0]), Words(s[1..]), rest);
      } else {
        RunsGrow(s, Lower(s[0]), Words(s[1..]), rest);
        spans := [(0, rest[0].1 + 1)] + Shifted(rest[1..]);
      }
    }
  }

  lemma RunsAreRuns(s: string, spans: seq<(nat, nat)>)
    requires AreRuns(s, spans)
    ensures AllRuns(s, spans)
  {
  }

  lemma NextRunNotLater(s: string, x: seq<(nat, nat)>, y: seq<(nat, nat)>, n: nat)
    requires AreRuns(s, x) && AreRuns(s, y) && n < |x| && n <= |y|
    requires forall i | 0 <= i < n :: x[i] == y[i]
    ensures n < |y| && y[n].0 <= x[n].0
  {
    RunIsNotEmpty(s, y);
    var a := x[n].0;
    assert IsRun(s, a, x[n].1);
    assert LetterOrDigit(s[a]);
    hide LetterOrDigit, AllRuns;
    assert Covered(y, a);
    var j :| 0 <= j < |y| && y[j].0 <= a < y[j].1;
    assert forall i | 0 <= i < n :: x[i].1 < x[n].0;
    assert forall i | n < i < |y| :: y[n].1 < y[i].0;
  }

  /** A text has one list of runs. */
  lemma {:induction false} RunsAgree(s: string, x: seq<(nat, nat)>, y: seq<(nat, nat)>, n: nat)
    requires AreRuns(s, x) && AreRuns(s, y) && n <= |x|
    ensures n <= |y| && forall i | 0 <= i < n :: x[i] == y[i]
  {
    if n > 0 {
      hide *;
      RunsAgree(s, x, y, n - 1);
      NextRunSame(s, x, y, n - 1);
    }
  }

  lemma NextRunSame(s: string, x: seq<(nat, nat)>, y: seq<(nat, nat)>, n: nat)
    requires AreRuns(s, x) && AreRuns(s, y) && n < |x| && n <= |y|
    requires forall i | 0 <= i < n :: x[i] == y[i]
    ensures n < |y| && x[n] == y[n]
  {
    hide *;
    NextRunNotLater(s, x, y, n);
    assert forall i | 0 <= i < n :: y[i] == x[i];
    NextRunNotLater(s, y, x, n);
    RunAt(s, x, n);
    RunAt(s, y, n);
    SameRun(s, x[n].0, x[n].1, y[n].1);
  }

  lemma RunAt(s: string, x: seq<(nat, nat)>, i: nat)
    requires AreRuns(s, x) && i < |x|
    ensures IsRun(s, x[i].0, x[i].1)
  {
  }

  lemma SameRun(s: string, a: nat, b: nat, c: nat)
    requires IsRun(s, a, b) && IsRun(s, a, c)
    ensures b == c
  {
    hide LetterOrDigit;
    assert b < |s| ==> !LetterOrDigit(s[b]);
    assert c < |s| ==> !LetterOrDigit(s[c]);
  }

  lemma RunsAreUnique(s: string, x: seq<(nat, nat)>, y: seq<(nat, nat)>)
    requires AreRuns(s, x) && AreRuns(s, y)
    ensures x == y
  {
    hide AreRuns;
    RunsAgree(s, x, y, |x|);
    RunsAgree(s, y, x, |y|);
  }

  /** The two texts have the same maximal runs of ASCII letters and digits, in order, but for
      case; what stands between the runs does not matter. */
  ghost predicate SameWords(a: string, b: string) {
    exists x: seq<(nat, nat)>, y: seq<(nat, nat)> | AreRuns(a, x) && AreRuns(b, y) :: SameTexts(a, x, b, y)
  }

  ghost predicate SameTexts(a: string, x: seq<(nat, nat)>, b: string, y: seq<(nat, nat)>)
    requires AreRuns(a, x) && AreRuns(b, y)
  {
    |x| == |y| && forall i | 0 <= i < |x| :: SameButForCase(a[x[i].0..x[i].1], b[y[i].0..y[i].1])
  }

  lemma SameLowerLetter(v: char, c: char, w: char, d: char)
    requires LowerOf(v, c) && LowerOf(w, d) && LetterOrDigit(c) && LetterOrDigit(d)
    ensures v == w <==> SameLetter(c, d)
  {
  }

  lemma SameLower(v: string, s: string, w: string, t: string)
    requires IsLowerOf(v, s) && IsLowerOf(w, t)
    requires (forall k | 0 <= k < |s| :: LetterOrDigit(s[k])) && (forall k | 0 <= k < |t| :: LetterOrDigit(t[k]))
    ensures v == w <==> SameButForCase(s, t)
  {
    hide LowerOf, LetterOrDigit, SameLetter;
    forall k | 0 <= k < |s| && k < |t| ensures v[k] == w[k] <==> SameLetter(s[k], t[k]) {
      SameLowerLetter(v[k], s[k], w[k], t[k]);
    }
  }

  /** Equal words are the same runs but for case. */
  lemma {:induction false} WordsEqualIffSame(a: string, b: string)
    ensures Words(a) == Words(b) <==> SameWords(a, b)
  {
    var x := WordsAreRuns(a);
    var y := WordsAreRuns(b);
    var v, w := Words(a), Words(b);
    hide Words, LetterOrDigit, IsLowerOf, SameButForCase;
    forall i | 0 <= i < |v| && i < |w|
      ensures v[i] == w[i] <==> SameButForCase(a[x[i].0..x[i].1], b[y[i].0..y[i].1])
    {
      assert IsLowerOf(v[i], a[x[i].0..x[i].1]) && IsLowerOf(w[i], b[y[i].0..y[i].1]);
      assert IsRun(a, x[i].0, x[i].1) && IsRun(b, y[i].0, y[i].1);
      SameLower(v[i], a[x[i].0..x[i].1], w[i], b[y[i].0..y[i].1]);
    }
    assert v == w <==> SameTexts(a, x, b, y);
    hide AreRuns, SameTexts;
    forall x', y' | AreRuns(a, x') && AreRuns(b, y') && SameTexts(a, x', b, y') ensures SameTexts(a, x, b, y) {
      RunsAreUnique(a, x, x');
      RunsAreUnique(b, y, y');
    }
  }

  // ----- Ids -----

  /** How often `b` occurs. */
  function Count(bases: seq<string>, b: string): nat {
    if bases == [] then 0
    else Count(bases[..|bases| - 1], b) + (if bases[|bases| - 1] == b then 1 else 0)
  }

  function Suffixed(base: string, k: nat): string {
    base + "-" + Print(k)
  }

  /** The id of the k-th occurrence of a base. */
  function Numbered(base: string, k: nat): string {
    if k == 1 then base else Suffixed(base, k)
  }

  function IdAt(bases: seq<string>, i: nat): string
    requires i < |bases|
  {
    Numbered(bases[i], Count(bases[..i + 1], bases[i]))
  }

  /** `_stable_id`: the counter of the text's base goes up by one, the id carries it
      from the second occurrence on, and no other counter moves. */
  method StableId(text: string, seen: map<string, nat>) returns (id: string, seen': map<string, nat>)
    ensures var n := (if Base(text) in seen then seen[Base(text)] else 0) + 1;
            id == Numbered(Base(text), n) && seen' == seen[Base(text) := n]
  {
    var slug := StripChar(Collapse(text, '-'), '-');
    if slug == "" {
      slug := "section";
    }
    var base := "heading-" + slug;
    seen' := seen[base := (if base in seen then seen[base] else 0) + 1];
    if seen'[base] == 1 {
      id := base;
    } else {
      id := base + "-" + Print(seen'[base]);
    }
  }

  /** The counters agree with the occurrences so far. */
  ghost predicate Counts(seen: map<string, nat>, bases: seq<string>) {
    forall b :: (if b in seen then seen[b] else 0) == Count(bases, b)
  }

  lemma {:induction false} CountsAt(seen: map<string, nat>, bases: seq<string>, b: string)
    requires Counts(seen, bases)
    ensures (if b in seen then seen[b] else 0) == Count(bases, b)
  {
  }

  lemma {:induction false} CountsStep(seen: map<string, nat>, bases: seq<string>, b: string)
    requires Counts(seen, bases)
    ensures Counts(seen[b := Count(bases, b) + 1], bases + [b])
  {
    assert (bases + [b])[..|bases|] == bases;
  }

  /** One more heading leaves the earlier ids alone. */
  lemma {:induction false} IdsPrefix(bases: seq<string>, b: string)
    ensures forall i | 0 <= i < |bases| :: IdAt(bases + [b], i) == IdAt(bases, i)
    ensures IdAt(bases + [b], |bases|) == Numbered(b, Count(bases, b) + 1)
  {
    var more := bases + [b];
    forall i | 0 <= i < |bases| ensures IdAt(more, i) == IdAt(bases, i) {
      assert more[..i + 1] == bases[..i + 1];
    }
    assert more[..|more|] == more && more[..|bases|] == bases;
  }

  // ----- When ids are distinct -----

  lemma {:induction false} CountStep(bases: seq<string>, b: string, i: nat)
    requires i < |bases|
    ensures Count(bases[..i + 1], b) == Count(bases[..i], b) + (if bases[i] == b then 1 else 0)
  {
    assert bases[..i + 1][..i] == bases[..i];
  }

  lemma {:induction false} CountMonotone(bases: seq<string>, b: string, i: nat, j: nat)
    requires i <= j <= |bases|
    ensures Count(bases[..i], b) <= Count(bases[..j], b)
    decreases j - i
  {
    if i < j {
      CountStep(bases, b, i);
      CountMonotone(bases, b, i + 1, j);
    }
  }

  /** Every occurrence number up to the total is reached somewhere. */
  lemma {:induction false} NthOccurrence(bases: seq<string>, b: string, k: nat) returns (p: nat)
    requires 1 <= k <= Count(bases, b)
    ensures p < |bases| && bases[p] == b && Count(bases[..p + 1], b) == k
    decreases |bases|
  {
    var n := |bases| - 1;
    assert bases[..n + 1] == bases;
    if bases[n] == b && Count(bases, b) == k {
      p := n;
    } else {
      p := NthOccurrence(bases[..n], b, k);
      assert bases[..n][..p + 1] == bases[..p + 1];
    }
  }

  lemma DashBeforeDigits(a: string, m: nat)
    ensures var s := Suffixed(a, m);
            |a| < |s| && s[|a|] == '-' && forall i | |a| < i < |s| :: IsDigit(s[i])
  {
    var s := Suffixed(a, m);
    assert forall i | |a| < i < |s| :: s[i] == Print(m)[i - |a| - 1];
  }

  lemma NumberedInjective(base: string, m: nat, n: nat)
    requires m >= 1 && n >= 1 && Numbered(base, m) == Numbered(base, n)
    ensures m == n
  {
    if m != 1 && n != 1 {
      SuffixedInjective(base, m, base, n);
    } else {
      assert |Suffixed(base, m)| > |base| && |Suffixed(base, n)| > |base|;
    }
  }

  /** The part after the last dash is the number, so a numbered id splits one way. */
  lemma SuffixedInjective(a: string, m: nat, b: string, n: nat)
    requires Suffixed(a, m) == Suffixed(b, n)
    ensures a == b && m == n
  {
    var s := Suffixed(a, m);
    DashBeforeDigits(a, m);
    DashBeforeDigits(b, n);
    assert a == s[..|a|] && b == s[..|b|];
    assert Print(m) == s[|a| + 1..] && Print(n) == s[|b| + 1..];
    PrintInjective(m, n);
  }

  /** No base is another base followed by an occurrence number that base reaches. */
  predicate NoClash(bases: seq<string>) {
    forall i, j, k: nat | 0 <= i < |bases| && 0 <= j < |bases| && 2 <= k <= Count(bases, bases[j]) ::
      bases[i] != Suffixed(bases[j], k)
  }

  predicate IdsDistinct(bases: seq<string>) {
    forall i, j | 0 <= i < j < |bases| :: IdAt(bases, i) != IdAt(bases, j)
  }

  lemma {:induction false} CountAt(bases: seq<string>, i: nat)
    requires i < |bases|
    ensures 1 <= Count(bases[..i + 1], bases[i]) <= Count(bases, bases[i])
  {
    CountStep(bases, bases[i], i);
    CountMonotone(bases, bases[i], i + 1, |bases|);
    assert bases[..|bases|] == bases;
  }

  lemma SameIdClashes(bases: seq<string>, i: nat, j: nat)
    requires i < j < |bases| && IdAt(bases, i) == IdAt(bases, j)
    ensures !NoClash(bases)
  {
    var ki, kj := Count(bases[..i + 1], bases[i]), Count(bases[..j + 1], bases[j]);
    CountAt(bases, i);
    CountAt(bases, j);
    if bases[i] == bases[j] {
      CountStep(bases, bases[i], j);
      CountMonotone(bases, bases[i], i + 1, j);
      NumberedInjective(bases[i], ki, kj);
      assert false;
    } else if ki == 1 {
      assert bases[i] == Suffixed(bases[j], kj);
    } else if kj == 1 {
      assert bases[j] == Suffixed(bases[i], ki);
    } else {
      SuffixedInjective(bases[i], ki, bases[j], kj);
    }
  }

  lemma ClashRepeatsId(bases: seq<string>, i: nat, j: nat, k: nat) returns (p: nat, q: nat)
    requires i < |bases| && j < |bases| && 2 <= k <= Count(bases, bases[j])
    requires bases[i] == Suffixed(bases[j], k)
    ensures p < |bases| && q < |bases| && p != q && IdAt(bases, p) == IdAt(bases, q)
  {
    CountAt(bases, i);
    p := NthOccurrence(bases, bases[i], 1);
    q := NthOccurrence(bases, bases[j], k);
    assert |bases[i]| > |bases[j]|;
  }

  /** Ids are pairwise distinct exactly when no base clashes with a numbered one. */
  lemma DistinctIffNoClash(bases: seq<string>)
    ensures IdsDistinct(bases) <==> NoClash(bases)
  {
    if !IdsDistinct(bases) {
      var i, j :| 0 <= i < j < |bases| && IdAt(bases, i) == IdAt(bases, j);
      SameIdClashes(bases, i, j);
    }
    if !NoClash(bases) {
      var i, j, k: nat :| 0 <= i < |bases| && 0 <= j < |bases| && 2 <= k <= Count(bases, bases[j])
        && bases[i] == Suffixed(bases[j], k);
      var p, q := ClashRepeatsId(bases, i, j, k);
      assert IdAt(bases, if p < q then p else q) == IdAt(bases, if p < q then q else p);
    }
  }

  lemma NotesBase()
    ensures Base("Notes") == "heading-notes"
  {
    assert Collapse("Notes", '-') == "notes";
  }

  lemma NumberedNotesBase()
    ensures Base("Notes 2") == "heading-notes-2"
  {
    assert Collapse("Notes 2", '-') == "notes-2";
  }

  lemma {:induction false} CountAppend(bases: seq<string>, last: string, b: string)
    ensures Count(bases + [last], b) == Count(bases, b) + (if last == b then 1 else 0)
  {
    assert (bases + [last])[..|bases|] == bases;
  }

  lemma {:induction false} CountPair(b: string, c: string)
    ensures Count([b] + [b] + [c], b) >= 2
  {
    CountAppend([], b, b);
    assert [] + [b] == [b];
    CountAppend([b], b, b);
    CountAppend([b] + [b], c, b);
  }

  lemma {:induction false} SecondOccurrenceClashes(bases: seq<string>, i: nat, j: nat)
    requires i < |bases| && j < |bases| && Count(bases, bases[j]) >= 2 && bases[i] == Suffixed(bases[j], 2)
    ensures !IdsDistinct(bases)
  {
    hide Suffixed, Count, IdsDistinct;
    DistinctIffNoClash(bases);
  }

  /** The ids are not always distinct: "Notes", "Notes", "Notes 2" collide. */
  lemma CollidingTitles()
    ensures !IdsDistinct(Bases(["Notes", "Notes", "Notes 2"]))
  {
    hide Base, Count, IdsDistinct;
    var bases := Bases(["Notes", "Notes", "Notes 2"]);
    NotesBase();
    NumberedNotesBase();
    CountPair("heading-notes", "heading-notes-2");
    assert bases == ["heading-notes"] + ["heading-notes"] + ["heading-notes-2"];
    assert Suffixed("heading-notes", 2) == "heading-notes-2";
    SecondOccurrenceClashes(bases, 2, 1);
  }
}
