/** Fitting messages to the model's context (`_fit_messages_to_context_window`) and
    cutting a stored conversation to a budget (`build_message_history`). */
module ContextWindow {
  import opened Options
  import opened Sequences

  /** A message, as the JSON text whose length is its estimate. */
  datatype Message = Message(serialized: string)

  const CHARS_PER_TOKEN := 4
  const SAFETY_MARGIN := 256

  function Max(a: int, b: int): int {
    if a >= b then a else b
  }

  /** The least number of tokens of four characters each that hold the text, at least one. */
  function Tokens(m: Message): (n: nat)
    ensures n >= 1 && |m.serialized| <= 4 * n && (n > 1 ==> 4 * (n - 1) < |m.serialized|)
  {
    Max(1, (|m.serialized| + CHARS_PER_TOKEN - 1) / CHARS_PER_TOKEN)
  }

  function Total(ms: seq<Message>): nat {
    if ms == [] then 0 else Total(ms[..|ms| - 1]) + Tokens(ms[|ms| - 1])
  }

  /** The window without a margin of 256, but never less than 512. */
  function Budget(numCtx: int): (budget: int)
    ensures budget >= 512 && budget >= numCtx - 256 && (budget > 512 ==> budget + 256 == numCtx)
  {
    Max(512, numCtx - SAFETY_MARGIN)
  }

  // ----- Trimming -----

  /** The positions of `ms` kept by the greedy pass from the end, given what is already
      spent: each message stays if it still fits. */
  function Kept(ms: seq<Message>, spent: nat, budget: int): (r: seq<nat>)
    ensures forall i | 0 <= i < |r| :: r[i] < |ms|
  {
    if ms == [] then []
    else
      var n := |ms| - 1;
      if spent + Tokens(ms[n]) > budget then Kept(ms[..n], spent, budget)
      else Kept(ms[..n], spent + Tokens(ms[n]), budget) + [n]
  }

  function Middle(ms: seq<Message>): seq<Message>
    requires ms != []
  {
    if |ms| == 1 then [] else ms[1..|ms| - 1]
  }

  /** The first message and, when there is another, the last: always kept. */
  function Edges(ms: seq<Message>): nat
    requires ms != []
  {
    Tokens(ms[0]) + if |ms| == 1 then 0 else Tokens(ms[|ms| - 1])
  }

  function Fitted(ms: seq<Message>, numCtx: int): seq<Message> {
    if ms == [] || Total(ms) <= Budget(numCtx) then ms
    else
      [ms[0]] + Pick(Middle(ms), Kept(Middle(ms), Edges(ms), Budget(numCtx)))
      + if |ms| == 1 then [] else [ms[|ms| - 1]]
  }

  /** The loop from the end: what fits is collected back to front. */
  method KeepMiddle(middle: seq<Message>, edges: nat, budget: int) returns (kept: seq<Message>)
    ensures kept == Pick(middle, Kept(middle, edges, budget))
  {
    hide Tokens;
    var keptReversed: seq<Message> := [];
    var runningTokens: nat := edges;
    var i := |middle|;
    ghost var all: seq<nat>, tail: seq<nat> := Kept(middle, edges, budget), [];
    assert middle[..i] == middle && all + [] == all;
    while i > 0
      invariant 0 <= i <= |middle|
      invariant forall j | 0 <= j < |tail| :: tail[j] < |middle|
      invariant all == Kept(middle[..i], runningTokens, budget) + tail
      invariant Reverse(keptReversed) == Pick(middle, tail)
    {
      i := i - 1;
      var message := middle[i];
      KeptStep(middle, i, runningTokens, budget, tail);
      var messageTokens := Tokens(message);
      if runningTokens + messageTokens > budget {
        continue;
      }
      ReverseAppend(keptReversed, message);
      PickCons(middle, i, tail);
      tail := [i] + tail;
      keptReversed := keptReversed + [message];
      runningTokens := runningTokens + messageTokens;
    }
    assert middle[..0] == [] && [] + tail == tail;
    kept := Reverse(keptReversed);
  }

  lemma KeptStep(ms: seq<Message>, i: nat, spent: nat, budget: int, tail: seq<nat>)
    requires i < |ms|
    ensures Kept(ms[..i + 1], spent, budget) + tail
      == if spent + Tokens(ms[i]) > budget then Kept(ms[..i], spent, budget) + tail
         else Kept(ms[..i], spent + Tokens(ms[i]), budget) + ([i] + tail)
  {
    assert ms[..i + 1][..i] == ms[..i];
  }

  lemma PickCons(ms: seq<Message>, i: nat, tail: seq<nat>)
    requires i < |ms| && forall j | 0 <= j < |tail| :: tail[j] < |ms|
    ensures Pick(ms, [i] + tail) == [ms[i]] + Pick(ms, tail)
  {
  }

  method FitMessages(messages: seq<Message>, numCtx: int) returns (fitted: seq<Message>)
    ensures fitted == Fitted(messages, numCtx)
  {
    hide Total, Kept, Tokens, Budget, Pick;
    if messages == [] {
      return [];
    }
    var promptBudget := Budget(numCtx);
    if Total(messages) <= promptBudget {
      return messages;
    }
    fitted := [messages[0]];
    var runningTokens := Tokens(messages[0]);
    var middle := messages[1..];
    if |messages| > 1 {
      middle := messages[1..|messages| - 1];
      runningTokens := runningTokens + Tokens(messages[|messages| - 1]);
    }
    assert |messages| == 1 ==> middle == [];
    assert middle == Middle(messages) && runningTokens == Edges(messages);
    var kept := KeepMiddle(middle, runningTokens, promptBudget);
    fitted := fitted + kept;
    assert fitted == [messages[0]] + Pick(Middle(messages), Kept(Middle(messages), Edges(messages), Budget(numCtx)));
    if |messages| > 1 {
      fitted := fitted + [messages[|messages| - 1]];
    } else {
      assert fitted + [] == fitted;
    }
  }

  function Reverse(ms: seq<Message>): seq<Message> {
    if ms == [] then [] else [ms[|ms| - 1]] + Reverse(ms[..|ms| - 1])
  }

  lemma {:induction false} ReverseAppend(ms: seq<Message>, m: Message)
    ensures Reverse(ms + [m]) == [m] + Reverse(ms)
  {
    assert (ms + [m])[..|ms|] == ms;
  }

  // ----- What trimming guarantees -----

  lemma {:induction false} TotalAppend(a: seq<Message>, b: seq<Message>)
    ensures Total(a + b) == Total(a) + Total(b)
  {
    if b == [] {
      assert a + b == a;
    } else {
      var n := |b| - 1;
      assert (a + b)[..|a + b| - 1] == a + b[..n];
      TotalAppend(a, b[..n]);
    }
  }

  lemma TotalOne(m: Message)
    ensures Total([m]) == Tokens(m)
  {
    assert [m][..0] == [];
  }

  predicate Increasing(s: seq<nat>) {
    forall i, j | 0 <= i < j < |s| :: s[i] < s[j]
  }

  lemma IncreasingAppend(s: seq<nat>, n: nat)
    requires Increasing(s) && forall i | 0 <= i < |s| :: s[i] < n
    ensures Increasing(s + [n])
  {
  }

  lemma IncreasingShifted(s: seq<nat>)
    requires Increasing(s)
    ensures Increasing([0] + Shifted(s))
  {
    var t := [0] + Shifted(s);
    forall i, j | 0 <= i < j < |t| ensures t[i] < t[j] {
      assert t[j] == s[j - 1] + 1;
      if i > 0 {
        assert t[i] == s[i - 1] + 1 && s[i - 1] < s[j - 1];
      }
    }
  }

  lemma {:induction false} KeptSorted(ms: seq<Message>, spent: nat, budget: int)
    ensures Increasing(Kept(ms, spent, budget))
  {
    hide Tokens;
    if ms != [] {
      var n := |ms| - 1;
      var before := if spent + Tokens(ms[n]) <= budget then spent + Tokens(ms[n]) else spent;
      KeptSorted(ms[..n], before, budget);
      var rest := Kept(ms[..n], before, budget);
      assert forall i | 0 <= i < |rest| :: rest[i] < n;
      IncreasingAppend(rest, n);
      assert Kept(ms, spent, budget) == if spent + Tokens(ms[n]) <= budget then rest + [n] else rest;
    }
  }

  /** What is spent at the end stays within the budget if it was, and every dropped
      message would have overflowed it. */
  lemma {:induction false} KeptTotals(ms: seq<Message>, spent: nat, budget: int)
    ensures spent + Total(Pick(ms, Kept(ms, spent, budget))) <= Max(spent, budget)
    ensures forall i | 0 <= i < |ms| && i !in Kept(ms, spent, budget) ::
      spent + Total(Pick(ms, Kept(ms, spent, budget))) + Tokens(ms[i]) > budget
  {
    hide Tokens, Total;
    if ms == [] {
      TotalNone();
    } else {
      var n := |ms| - 1;
      var fits := spent + Tokens(ms[n]) <= budget;
      var before := if fits then spent + Tokens(ms[n]) else spent;
      var rest := Kept(ms[..n], before, budget);
      KeptTotals(ms[..n], before, budget);
      assert Pick(ms[..n], rest) == Pick(ms, rest);
      if fits {
        assert Pick(ms, rest + [n]) == Pick(ms, rest) + [ms[n]];
        TotalAppend(Pick(ms, rest), [ms[n]]);
        TotalOne(ms[n]);
        assert Kept(ms, spent, budget) == rest + [n];
      } else {
        assert Kept(ms, spent, budget) == rest;
      }
      forall i | 0 <= i < |ms| && i !in Kept(ms, spent, budget)
        ensures spent + Total(Pick(ms, Kept(ms, spent, budget))) + Tokens(ms[i]) > budget
      {
        if i < n {
          assert i !in rest && ms[..n][i] == ms[i];
        }
      }
    }
  }

  /** A message is dropped because it does not fit in front of those kept behind it. */
  lemma {:induction false} DroppedBeforeLater(ms: seq<Message>, spent: nat, budget: int, i: nat) returns (c: nat)
    requires i < |ms| && i !in Kept(ms, spent, budget)
    ensures var kept := Kept(ms, spent, budget); c <= |kept| && Between(kept, c, i)
    ensures spent + Total(Pick(ms, Kept(ms, spent, budget)[c..])) + Tokens(ms[i]) > budget
  {
    hide Tokens, Total;
    var n := |ms| - 1;
    var fits := spent + Tokens(ms[n]) <= budget;
    var before := if fits then spent + Tokens(ms[n]) else spent;
    var rest := Kept(ms[..n], before, budget);
    assert Kept(ms, spent, budget) == if fits then rest + [n] else rest;
    if i == n {
      c := |rest|;
      TotalNone();
      assert Pick(ms, rest[c..]) == [];
    } else {
      c := DroppedBeforeLater(ms[..n], before, budget, i) by {
        assert i !in rest;
      }
      assert Pick(ms[..n], rest[c..]) == Pick(ms, rest[c..]);
      if fits {
        assert (rest + [n])[c..] == rest[c..] + [n];
        assert Pick(ms, rest[c..] + [n]) == Pick(ms, rest[c..]) + [ms[n]];
        TotalAppend(Pick(ms, rest[c..]), [ms[n]]);
        TotalOne(ms[n]);
      }
    }
  }

  /** The position would stand at place `c` of those kept. */
  predicate Between(kept: seq<nat>, c: nat, i: nat) {
    (forall j | 0 <= j < |kept| && j < c :: kept[j] < i) && forall j | c <= j < |kept| :: i < kept[j]
  }

  lemma TotalNone()
    ensures Total([]) == 0
  {
  }

  /** Positions of the middle as positions of the whole list. */
  function Shifted(kept: seq<nat>): (r: seq<nat>)
    ensures |r| == |kept| && forall i | 0 <= i < |r| :: r[i] == kept[i] + 1
  {
    seq(|kept|, i requires 0 <= i < |kept| => kept[i] + 1)
  }

  /** The positions of the whole list that trimming keeps. */
  function FittedPositions(ms: seq<Message>, numCtx: int): (r: seq<nat>)
    ensures forall i | 0 <= i < |r| :: r[i] < |ms|
  {
    if !Trims(ms, numCtx) then seq(|ms|, i => i)
    else if |ms| == 1 then [0]
    else [0] + Shifted(Kept(Middle(ms), Edges(ms), Budget(numCtx))) + [|ms| - 1]
  }

  predicate Trims(ms: seq<Message>, numCtx: int) {
    ms != [] && Total(ms) > Budget(numCtx)
  }

  lemma {:induction false} TotalOfFitted(ms: seq<Message>, numCtx: int)
    requires ms != [] && Total(ms) > Budget(numCtx)
    ensures Total(Fitted(ms, numCtx))
      == Edges(ms) + Total(Pick(Middle(ms), Kept(Middle(ms), Edges(ms), Budget(numCtx))))
  {
    var kept := Pick(Middle(ms), Kept(Middle(ms), Edges(ms), Budget(numCtx)));
    TotalOne(ms[0]);
    TotalOne(ms[|ms| - 1]);
    TotalAppend([ms[0]], kept);
    if |ms| > 1 {
      TotalAppend([ms[0]] + kept, [ms[|ms| - 1]]);
    } else {
      assert [ms[0]] + kept + [] == [ms[0]] + kept;
    }
  }

  lemma PickShifted(ms: seq<Message>, middle: seq<nat>)
    requires |ms| > 1 && forall i | 0 <= i < |middle| :: middle[i] < |ms| - 2
    ensures Pick(ms, Shifted(middle)) == Pick(Middle(ms), middle)
  {
  }

  lemma PickAll(ms: seq<Message>)
    ensures Pick(ms, seq(|ms|, i => i)) == ms
    ensures forall i | 0 <= i < |ms| :: Pick(ms, [i]) == [ms[i]]
  {
  }

  lemma FittedIsPick(ms: seq<Message>, numCtx: int)
    ensures Fitted(ms, numCtx) == Pick(ms, FittedPositions(ms, numCtx))
  {
    hide Total, Kept, Tokens, Budget, Pick, Shifted, Edges;
    PickAll(ms);
    if Trims(ms, numCtx) && |ms| > 1 {
      var middle := Kept(Middle(ms), Edges(ms), Budget(numCtx));
      PickShifted(ms, middle);
      PickConcat(ms, [0], Shifted(middle));
      PickConcat(ms, [0] + Shifted(middle), [|ms| - 1]);
    } else if Trims(ms, numCtx) {
      assert Kept(Middle(ms), Edges(ms), Budget(numCtx)) == [] by { NoMiddle(Edges(ms), Budget(numCtx)); }
    }
  }

  lemma PickConcat(ms: seq<Message>, a: seq<nat>, b: seq<nat>)
    requires (forall i | 0 <= i < |a| :: a[i] < |ms|) && (forall i | 0 <= i < |b| :: b[i] < |ms|)
    ensures Pick(ms, a + b) == Pick(ms, a) + Pick(ms, b)
  {
  }

  lemma {:induction false} NoMiddle(spent: nat, budget: int)
    ensures Kept([], spent, budget) == []
  {
  }

  lemma PositionsSorted(ms: seq<Message>, numCtx: int)
    ensures var kept := FittedPositions(ms, numCtx);
      && Increasing(kept)
      && (ms != [] ==> kept != [] && kept[0] == 0 && kept[|kept| - 1] == |ms| - 1)
  {
    hide Total, Kept, Tokens, Budget;
    if Trims(ms, numCtx) && |ms| > 1 {
      var middle := Kept(Middle(ms), Edges(ms), Budget(numCtx));
      KeptSorted(Middle(ms), Edges(ms), Budget(numCtx));
      IncreasingShifted(middle);
      IncreasingAppend([0] + Shifted(middle), |ms| - 1);
    }
  }

  /** A dropped message is one of the middle that did not fit. */
  lemma DroppedInMiddle(ms: seq<Message>, numCtx: int, i: nat)
    requires i < |ms| && i !in FittedPositions(ms, numCtx)
    ensures Trims(ms, numCtx) && 0 < i < |ms| - 1 && Middle(ms)[i - 1] == ms[i]
    ensures i - 1 !in Kept(Middle(ms), Edges(ms), Budget(numCtx))
  {
    hide Total, Kept, Tokens, Budget;
    PositionsSorted(ms, numCtx);
    AllKept(|ms|, i);
    if Trims(ms, numCtx) && |ms| > 1 {
      ShiftedMembers(Kept(Middle(ms), Edges(ms), Budget(numCtx)), i);
    }
  }

  lemma AllKept(n: nat, i: nat)
    requires i < n
    ensures i in seq(n, i => i)
  {
    assert seq(n, i => i)[i] == i;
  }

  lemma ShiftedMembers(kept: seq<nat>, i: nat)
    ensures i > 0 && i - 1 in kept ==> i in Shifted(kept)
  {
    if i > 0 && i - 1 in kept {
      var j :| 0 <= j < |kept| && kept[j] == i - 1;
      assert Shifted(kept)[j] == i;
    }
  }

  /** Trimming picks a subsequence that keeps the first and the last message; its
      total is within the larger of the budget and those two; and when it drops
      anything, no dropped message could be added back. */
  lemma FittedIsMaximal(ms: seq<Message>, numCtx: int)
    ensures var kept := FittedPositions(ms, numCtx);
      && Fitted(ms, numCtx) == Pick(ms, kept)
      && Increasing(kept)
      && (ms != [] ==> kept != [] && kept[0] == 0 && kept[|kept| - 1] == |ms| - 1)
      && (ms != [] ==> Total(Fitted(ms, numCtx)) <= Max(Budget(numCtx), Edges(ms)))
      && (forall i | 0 <= i < |ms| && i !in kept :: Total(Fitted(ms, numCtx)) + Tokens(ms[i]) > Budget(numCtx))
  {
    hide Total, Kept, Tokens, Budget, FittedPositions, Fitted, Edges;
    FittedIsPick(ms, numCtx);
    PositionsSorted(ms, numCtx);
    if Trims(ms, numCtx) {
      KeptTotals(Middle(ms), Edges(ms), Budget(numCtx));
      TotalOfFitted(ms, numCtx);
    } else {
      NotTrimmed(ms, numCtx);
    }
    forall i | 0 <= i < |ms| && i !in FittedPositions(ms, numCtx)
      ensures Total(Fitted(ms, numCtx)) + Tokens(ms[i]) > Budget(numCtx)
    {
      DroppedInMiddle(ms, numCtx, i);
    }
  }

  /** The most recent messages come first: a message is dropped exactly when it does not fit
      beside the first one and those kept behind it. */
  lemma NewestComeFirst(ms: seq<Message>, numCtx: int, i: nat) returns (c: nat)
    requires i < |ms| && i !in FittedPositions(ms, numCtx)
    ensures var kept := FittedPositions(ms, numCtx); 0 < c < |kept| && Between(kept, c, i)
    ensures Tokens(ms[0]) + Total(Pick(ms, FittedPositions(ms, numCtx)[c..])) + Tokens(ms[i]) > Budget(numCtx)
  {
    hide *;
    DroppedInMiddle(ms, numCtx, i);
    TrimmedPositions(ms, numCtx);
    var middle := Kept(Middle(ms), Edges(ms), Budget(numCtx));
    var b := DroppedBeforeLater(Middle(ms), Edges(ms), Budget(numCtx), i - 1);
    c := b + 1;
    PlaceInWhole(middle, b, |ms| - 1, i);
    LaterTotal(ms, middle[b..]);
  }

  lemma TrimmedPositions(ms: seq<Message>, numCtx: int)
    requires Trims(ms, numCtx) && |ms| > 1
    ensures FittedPositions(ms, numCtx) == [0] + Shifted(Kept(Middle(ms), Edges(ms), Budget(numCtx))) + [|ms| - 1]
    ensures |Middle(ms)| == |ms| - 2 && Edges(ms) == Tokens(ms[0]) + Tokens(ms[|ms| - 1])
  {
    hide Total, Kept, Tokens, Budget, Shifted;
  }

  lemma PlaceInWhole(middle: seq<nat>, b: nat, last: nat, i: nat)
    requires b <= |middle| && 0 < i < last && Between(middle, b, i - 1)
    ensures var kept := [0] + Shifted(middle) + [last];
      Between(kept, b + 1, i) && kept[b + 1..] == Shifted(middle[b..]) + [last]
  {
    var kept := [0] + Shifted(middle) + [last];
    assert forall j | 0 < j <= |middle| :: kept[j] == middle[j - 1] + 1;
  }

  lemma LaterTotal(ms: seq<Message>, later: seq<nat>)
    requires |ms| > 1 && forall i | 0 <= i < |later| :: later[i] < |ms| - 2
    ensures Total(Pick(ms, Shifted(later) + [|ms| - 1])) == Total(Pick(Middle(ms), later)) + Tokens(ms[|ms| - 1])
  {
    hide Total, Tokens;
    var last := |ms| - 1;
    PickConcat(ms, Shifted(later), [last]);
    PickShifted(ms, later);
    assert Pick(ms, [last]) == [ms[last]];
    TotalAppend(Pick(Middle(ms), later), [ms[last]]);
    TotalOne(ms[last]);
  }

  lemma NotTrimmed(ms: seq<Message>, numCtx: int)
    requires !Trims(ms, numCtx)
    ensures Fitted(ms, numCtx) == ms
  {
  }

  lemma {:induction false} NothingFits(ms: seq<Message>, spent: nat, budget: int)
    requires spent >= budget
    ensures Kept(ms, spent, budget) == []
  {
    if ms != [] {
      NothingFits(ms[..|ms| - 1], spent, budget);
    }
  }

  /** Trimming what was trimmed changes nothing. */
  lemma FittingTwice(ms: seq<Message>, numCtx: int)
    ensures Fitted(Fitted(ms, numCtx), numCtx) == Fitted(ms, numCtx)
  {
    var once, budget := Fitted(ms, numCtx), Budget(numCtx);
    if ms != [] && Total(ms) > budget && Total(once) > budget {
      TotalOfFitted(ms, numCtx);
      KeptTotals(Middle(ms), Edges(ms), budget);
      NothingFits(Middle(ms), Edges(ms), budget);
      assert once == [ms[0]] + if |ms| == 1 then [] else [ms[|ms| - 1]];
      NothingFits(Middle(once), Edges(once), budget);
      assert Pick(Middle(once), []) == [];
    }
  }

  // ----- History -----

  /** A stored message; no two of a conversation have the same id. */
  datatype Stored = Stored(id: nat, role: string, content: string)

  /** One entry of the history given to the model. */
  datatype Entry = Summary(text: string) | Said(message: Stored)

  const SUMMARY_PREFIX := "[Conversation summary so far]: "
  const FETCH_LIMIT := 100

  function Length(e: Entry): nat {
    match e
    case Summary(text) => |SUMMARY_PREFIX| + |text|
    case Said(m) => |m.content|
  }

  function Chars(entries: seq<Entry>): nat {
    if entries == [] then 0 else Length(entries[0]) + Chars(entries[1..])
  }

  function Entries(messages: seq<Stored>): (r: seq<Entry>)
    ensures |r| == |messages| && forall i | 0 <= i < |r| :: r[i] == Said(messages[i])
  {
    seq(|messages|, i requires 0 <= i < |messages| => Said(messages[i]))
  }

  /** `get_messages`: in order of creation, but only so many, counted from the oldest. */
  function Fetched(stored: seq<Stored>): seq<Stored> {
    if |stored| <= FETCH_LIMIT then stored else stored[..FETCH_LIMIT]
  }

  lemma {:induction false} CharsMonotone(es: seq<Entry>, j: nat, k: nat)
    requires j <= k <= |es|
    ensures Chars(es[k..]) <= Chars(es[j..])
    decreases k - j
  {
    if j < k {
      CharsMonotone(es, j + 1, k);
      assert es[j..][1..] == es[j + 1..];
    }
  }

  /** The compact form: a summary exists and the conversation is long. */
  predicate Summarized(messages: seq<Stored>, summary: string) {
    summary != "" && |messages| > 10
  }

  /** The longest run of most recent entries within the budget; none within a negative one. */
  predicate LongestSuffix(entries: seq<Entry>, budget: int, history: seq<Entry>) {
    exists k | 0 <= k <= |entries| ::
      && history == entries[k..] && (history == [] || Chars(history) <= budget)
      && forall j | 0 <= j < k :: Chars(entries[j..]) > budget
  }

  /** What is promised of a conversation's history: the summary and the last six messages of
      a long one, the longest recent run within a budget, or all of it when there is none
      (`maxTokens` zero). */
  predicate IsHistory(messages: seq<Stored>, summary: string, maxTokens: int, history: seq<Entry>) {
    if Summarized(messages, summary) then history == [Summary(summary)] + Entries(messages[|messages| - 6..])
    else if maxTokens == 0 then history == Entries(messages)
    else LongestSuffix(Entries(messages), maxTokens * CHARS_PER_TOKEN, history)
  }

  /** That promise of the oldest hundred messages: with a summary and more than ten of them, the
      summary and the last six. */
  predicate IsOfOldest(stored: seq<Stored>, summary: string, maxTokens: int, history: seq<Entry>) {
    var n := if |stored| < 100 then |stored| else 100;
    if summary != "" && n > 10 then history == [Summary(summary)] + Entries(stored[n - 6..n])
    else if maxTokens == 0 then history == Entries(stored[..n])
    else LongestSuffix(Entries(stored[..n]), 4 * maxTokens, history)
  }

  lemma FetchedAreOldest(stored: seq<Stored>, summary: string, maxTokens: int, history: seq<Entry>)
    requires IsHistory(Fetched(stored), summary, maxTokens, history)
    ensures IsOfOldest(stored, summary, maxTokens, history)
  {
    var messages := Fetched(stored);
    assert |messages| > 10 ==> messages[|messages| - 6..] == stored[|messages| - 6..|messages|];
    assert messages == stored[..|messages|];
    hide LongestSuffix;
  }

  lemma NothingLonger(entries: seq<Entry>, budget: int, k: nat)
    requires k <= |entries| && (k == |entries| || Chars(entries[k..]) <= budget)
    requires k > 0 ==> Chars(entries[k - 1..]) > budget
    ensures LongestSuffix(entries, budget, entries[k..])
  {
    hide Chars;
    forall j | 0 <= j < k ensures Chars(entries[j..]) > budget {
      CharsMonotone(entries, j, k - 1);
    }
  }

  /** `build_message_history`: that promise, but of the messages fetched. */
  method BuildMessageHistory(stored: seq<Stored>, summary: string, maxTokens: int) returns (history: seq<Entry>)
    ensures IsHistory(Fetched(stored), summary, maxTokens, history)
    ensures IsOfOldest(stored, summary, maxTokens, history)
  {
    forall h | IsHistory(Fetched(stored), summary, maxTokens, h) ensures IsOfOldest(stored, summary, maxTokens, h) {
      FetchedAreOldest(stored, summary, maxTokens, h);
    }
    hide IsOfOldest, Length, LongestSuffix;
    var messages := Fetched(stored);
    hide Fetched;
    if summary != "" && |messages| > 10 {
      return [Summary(summary)] + Entries(messages[|messages| - 6..]);
    }
    history := Entries(messages);
    if maxTokens != 0 && history != [] {
      var budget := maxTokens * CHARS_PER_TOKEN;
      var totalChars := 0;
      var keepFrom := |history|;
      var i := |history| - 1;
      while i >= 0
        invariant -1 <= i < |history| && keepFrom == i + 1
        invariant totalChars == Chars(history[keepFrom..])
        invariant keepFrom == |history| || totalChars <= budget
      {
        var msgChars := Length(history[i]);
        assert history[i..][1..] == history[i + 1..];
        if totalChars + msgChars > budget {
          break;
        }
        totalChars := totalChars + msgChars;
        keepFrom := i;
        i := i - 1;
      }
      NothingLonger(history, budget, keepFrom);
      history := history[keepFrom..];
    } else if maxTokens != 0 {
      assert history == Entries(messages)[0..];
      NothingLonger(history, maxTokens * CHARS_PER_TOKEN, 0);
    }
  }

  ghost predicate DistinctIds(stored: seq<Stored>) {
    forall i, j | 0 <= i < j < |stored| :: stored[i].id != stored[j].id
  }

  lemma LastAlone(entries: seq<Entry>)
    requires entries != []
    ensures Chars(entries[|entries| - 1..]) == Length(entries[|entries| - 1])
  {
    assert entries[|entries| - 1..][1..] == [];
  }

  /** The longest run is empty exactly when there is no message or the newest alone is too long. */
  lemma LongestSuffixEnds(entries: seq<Entry>, budget: int, history: seq<Entry>)
    requires LongestSuffix(entries, budget, history)
    ensures history == [] <==> entries == [] || Length(entries[|entries| - 1]) > budget
    ensures history != [] ==> history[|history| - 1] == entries[|entries| - 1]
  {
    var k :| 0 <= k <= |entries| && history == entries[k..] && (history == [] || Chars(history) <= budget)
             && forall j | 0 <= j < k :: Chars(entries[j..]) > budget;
    if entries != [] {
      var n := |entries| - 1;
      hide Chars, Length;
      LastAlone(entries);
      if k <= n {
        CharsMonotone(entries, k, n);
      }
    }
  }

  lemma LongestSuffixHoldsLast(entries: seq<Entry>, budget: int, history: seq<Entry>)
    requires LongestSuffix(entries, budget, history)
    ensures history == [] || entries[|entries| - 1] in history
  {
    LongestSuffixEnds(entries, budget, history);
    if history != [] {
      assert history[|history| - 1] in history;
    }
  }

  /** Whatever is built holds only fetched messages: of a longer conversation, never the newest. */
  lemma NewestIsForgotten(stored: seq<Stored>, summary: string, maxTokens: int, history: seq<Entry>)
    requires DistinctIds(stored) && |stored| > FETCH_LIMIT
    requires IsHistory(Fetched(stored), summary, maxTokens, history)
    ensures forall i | FETCH_LIMIT <= i < |stored| :: Said(stored[i]) !in history
  {
    var messages := Fetched(stored);
    forall e | e in history && e.Said?
      ensures e.message in messages
    {
      FromMessages(messages, summary, maxTokens, history, e);
    }
    forall i | FETCH_LIMIT <= i < |stored| ensures Said(stored[i]) !in history {
      assert forall j | 0 <= j < FETCH_LIMIT :: messages[j].id != stored[i].id;
    }
  }

  lemma FromMessages(messages: seq<Stored>, summary: string, maxTokens: int, history: seq<Entry>, e: Entry)
    requires IsHistory(messages, summary, maxTokens, history) && e in history && e.Said?
    ensures e.message in messages
  {
    assert e in Entries(messages) || (Summarized(messages, summary) && e in Entries(messages[|messages| - 6..]));
  }

  /** So the history is what is promised of the stored conversation exactly when that is not
      longer than the fetch, or nothing is kept anyway because, under a budget and without a
      summary, both the hundredth and the newest message are too long alone. */
  lemma HistoryIsRecentIff(stored: seq<Stored>, summary: string, maxTokens: int, history: seq<Entry>)
    requires DistinctIds(stored) && IsHistory(Fetched(stored), summary, maxTokens, history)
    ensures IsHistory(stored, summary, maxTokens, history) <==>
      || |stored| <= FETCH_LIMIT
      || (&& summary == "" && maxTokens != 0
          && |stored[FETCH_LIMIT - 1].content| > maxTokens * CHARS_PER_TOKEN
          && |stored[|stored| - 1].content| > maxTokens * CHARS_PER_TOKEN)
  {
    if |stored| > FETCH_LIMIT {
      var n, budget := |stored| - 1, maxTokens * CHARS_PER_TOKEN;
      NewestIsForgotten(stored, summary, maxTokens, history);
      if summary != "" {
        assert Entries(stored[|stored| - 6..])[5] == Said(stored[n]);
        assert ([Summary(summary)] + Entries(stored[|stored| - 6..]))[6] == Said(stored[n]);
      } else if maxTokens == 0 {
        assert Entries(stored)[n] == Said(stored[n]);
      } else {
        LongestSuffixEnds(Entries(Fetched(stored)), budget, history);
        if IsHistory(stored, summary, maxTokens, history) {
          LongestSuffixEnds(Entries(stored), budget, history);
          LongestSuffixHoldsLast(Entries(stored), budget, history);
        } else if history == [] && |stored[n].content| > budget {
          NothingFromTheEnd(Entries(stored), budget);
        }
      }
    }
  }

  lemma NothingFromTheEnd(entries: seq<Entry>, budget: int)
    requires entries != [] && Length(entries[|entries| - 1]) > budget
    ensures LongestSuffix(entries, budget, [])
  {
    var n := |entries| - 1;
    LastAlone(entries);
    forall j | 0 <= j < |entries| ensures Chars(entries[j..]) > budget {
      CharsMonotone(entries, j, n);
    }
    assert entries[|entries|..] == [];
  }

  /** The compact form is not cut to the budget: a history asked for within a budget
      is within it unless it is a summary that overflows it with the last six fetched. */
  lemma {:induction false} HistoryBudget(stored: seq<Stored>, summary: string, maxTokens: nat, history: seq<Entry>)
    requires maxTokens > 0 && IsHistory(Fetched(stored), summary, maxTokens, history)
    ensures Chars(history) <= maxTokens * CHARS_PER_TOKEN <==>
      (Summarized(stored, summary) ==>
        |SUMMARY_PREFIX| + |summary| + Chars(Entries(Fetched(stored)[|Fetched(stored)| - 6..]))
        <= maxTokens * CHARS_PER_TOKEN)
  {
    if Summarized(stored, summary) {
      assert history[1..] == Entries(Fetched(stored)[|Fetched(stored)| - 6..]);
    }
  }
}
