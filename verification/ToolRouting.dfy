/** Choosing the tools offered to the model: cosine similarity over exact reals, the
    ranking and cut of `embedding_route`, and the capped merge of
    `_select_relevant_tools_hybrid`. */
module ToolRouting {
  import opened Options
  import opened Sequences
  import opened StableSort
  import opened Text

  type Vector = seq<real>

  // ----- Cosine similarity -----

  /** The sum of products over the common length, as `zip` pairs them. */
  function Dot(a: Vector, b: Vector): real {
    if a == [] || b == [] then 0.0 else a[0] * b[0] + Dot(a[1..], b[1..])
  }

  function SumOfSquares(a: Vector): real {
    if a == [] then 0.0 else a[0] * a[0] + SumOfSquares(a[1..])
  }

  /** `r` is the square root of `x`. */
  predicate IsRoot(r: real, x: real) {
    r >= 0.0 && r * r == x
  }

  /** `_cosine_similarity`, given the two norms. */
  function Cosine(a: Vector, b: Vector, normA: real, normB: real): real {
    if normA == 0.0 || normB == 0.0 then 0.0 else Dot(a, b) / (normA * normB)
  }

  /** The dot product, one more pair at the end at a time; what is longer does not count. */
  lemma {:induction false} DotIsSum(a: Vector, b: Vector, x: real, y: real, rest: Vector)
    requires |a| == |b|
    ensures Dot([], []) == 0.0 && Dot(a + [x], b + [y]) == Dot(a, b) + x * y
    ensures Dot(a + rest, b) == Dot(a, b) == Dot(a, b + rest)
  {
    if a == [] {
      assert a + [x] == [x] && b + [y] == [y] && [x][1..] == [];
    } else {
      DotIsSum(a[1..], b[1..], x, y, rest);
      assert (a + [x])[1..] == a[1..] + [x] && (b + [y])[1..] == b[1..] + [y];
      assert (a + rest)[1..] == a[1..] + rest && (b + rest)[1..] == b[1..] + rest;
    }
  }

  lemma SquareNonNegative(x: real)
    ensures x * x >= 0.0
  {
  }

  lemma {:induction false} SumNonNegative(a: Vector)
    ensures SumOfSquares(a) >= 0.0
  {
    if a != [] {
      SumNonNegative(a[1..]);
      SquareNonNegative(a[0]);
    }
  }

  lemma ProductMonotone(x: real, y: real, z: real)
    requires x <= y && z >= 0.0
    ensures x * z <= y * z
  {
  }

  lemma ProductNonNegative(x: real, y: real)
    requires x >= 0.0 && y >= 0.0
    ensures x * y >= 0.0
  {
  }

  /** One more pair of coordinates keeps the inequality. */
  lemma CauchyStep(d: real, p: real, q: real, x: real, y: real)
    requires p >= 0.0 && q >= 0.0 && d * d <= p * q
    ensures (d + x * y) * (d + x * y) <= (p + x * x) * (q + y * y)
  {
    var u, v := p * (y * y), q * (x * x);
    SquareNonNegative(x);
    SquareNonNegative(y);
    ProductNonNegative(p, y * y);
    ProductNonNegative(q, x * x);
    var t := 2.0 * d * x * y;
    TwiceProduct(d, p, q, x, y);
    assert t <= u + v;
    assert (d + x * y) * (d + x * y) == d * d + t + (x * y) * (x * y);
    assert (p + x * x) * (q + y * y) == p * q + u + v + (x * x) * (y * y);
    assert (x * y) * (x * y) == (x * x) * (y * y);
  }

  lemma SquareOrder(t: real, s: real)
    requires s >= 0.0 && t * t <= s * s
    ensures -s <= t <= s
  {
    StrictSquares(s, t);
    StrictSquares(s, -t);
    assert (-t) * (-t) == t * t;
  }

  lemma StrictSquares(s: real, t: real)
    ensures 0.0 <= s < t ==> s * s < t * t
  {
    if 0.0 <= s < t {
      Scaled(t - s, t + s);
      assert (t - s) * (t + s) == t * t - s * s;
    }
  }

  lemma TwiceProduct(d: real, p: real, q: real, x: real, y: real)
    requires p >= 0.0 && q >= 0.0 && d * d <= p * q
    ensures 2.0 * d * x * y <= p * (y * y) + q * (x * x)
  {
    var u, v := p * (y * y), q * (x * x);
    SquareNonNegative(x);
    SquareNonNegative(y);
    ProductNonNegative(p, y * y);
    ProductNonNegative(q, x * x);
    var w := (x * x) * (y * y);
    ProductNonNegative(x * x, y * y);
    var t := 2.0 * d * x * y;
    assert t * t == 4.0 * ((d * d) * w);
    ProductMonotone(d * d, p * q, w);
    assert (p * q) * w == u * v;
    assert (u + v) * (u + v) - 4.0 * (u * v) == (u - v) * (u - v);
    SquareNonNegative(u - v);
    SquareOrder(t, u + v);
  }

  /** Cauchy-Schwarz, also when the vectors differ in length. */
  lemma {:induction false} CauchySchwarz(a: Vector, b: Vector)
    ensures Dot(a, b) * Dot(a, b) <= SumOfSquares(a) * SumOfSquares(b)
  {
    SumNonNegative(a);
    SumNonNegative(b);
    if a == [] || b == [] {
      ProductNonNegative(SumOfSquares(a), SumOfSquares(b));
    } else {
      SumNonNegative(a[1..]);
      SumNonNegative(b[1..]);
      CauchySchwarz(a[1..], b[1..]);
      CauchyStep(Dot(a[1..], b[1..]), SumOfSquares(a[1..]), SumOfSquares(b[1..]), a[0], b[0]);
    }
  }

  /** The similarity of any two vectors lies between -1 and 1. */
  lemma {:induction false} CosineBounded(a: Vector, b: Vector, normA: real, normB: real)
    requires IsRoot(normA, SumOfSquares(a)) && IsRoot(normB, SumOfSquares(b))
    ensures -1.0 <= Cosine(a, b, normA, normB) <= 1.0
  {
    if normA != 0.0 && normB != 0.0 {
      var d, n := Dot(a, b), normA * normB;
      CauchySchwarz(a, b);
      SquareOfProduct(normA, normB);
      ProductNonNegative(normA, normB);
      SquareOrder(d, n);
      QuotientBounded(d, n);
    }
  }

  lemma SquareOfProduct(x: real, y: real)
    ensures (x * y) * (x * y) == (x * x) * (y * y)
  {
  }

  lemma QuotientBounded(d: real, n: real)
    requires n > 0.0 && -n <= d <= n
    ensures -1.0 <= d / n <= 1.0
  {
    var r := d / n;
    assert r * n == d;
    Scaled(r - 1.0, n);
    Scaled(-1.0 - r, n);
    assert (r - 1.0) * n == d - n && (-1.0 - r) * n == -n - d;
  }

  lemma Scaled(x: real, n: real)
    requires n > 0.0
    ensures x > 0.0 ==> x * n > 0.0
  {
  }

  lemma {:induction false} DotSelf(a: Vector)
    ensures Dot(a, a) == SumOfSquares(a)
  {
    if a != [] {
      DotSelf(a[1..]);
    }
  }

  /** A vector that is not zero is as similar to itself as can be. */
  lemma {:induction false} CosineSelf(a: Vector, norm: real)
    requires IsRoot(norm, SumOfSquares(a)) && SumOfSquares(a) != 0.0
    ensures Cosine(a, a, norm, norm) == 1.0
  {
    DotSelf(a);
    SelfQuotient(SumOfSquares(a));
  }

  lemma SelfQuotient(x: real)
    requires x != 0.0
    ensures x / x == 1.0
  {
  }

  // ----- Ranking -----

  datatype Scored = Scored(name: string, score: real)

  /** Highest score first. */
  predicate ScoredLe(x: Scored, y: Scored) {
    x.score >= y.score
  }

  /** The sorted scores, the first `topK` of them, and of those the ones at or above
      the threshold. */
  function Route(scores: seq<Scored>, topK: nat, minScore: real): set<string> {
    var order := Order(scores, ScoredLe);
    set i | 0 <= i < |order| && i < topK && scores[order[i]].score >= minScore :: scores[order[i]].name
  }

  predicate DistinctNames(scores: seq<Scored>) {
    forall i, j | 0 <= i < j < |scores| :: scores[i].name != scores[j].name
  }

  /** The names of the first `k` ranked tools. */
  function FirstNames(scores: seq<Scored>, k: nat): set<string>
    requires k <= |scores|
  {
    var order := Order(scores, ScoredLe);
    set i | 0 <= i < k :: scores[order[i]].name
  }

  lemma NextNameIsNew(scores: seq<Scored>, k: nat)
    requires 0 < k <= |scores| && DistinctNames(scores)
    ensures scores[Order(scores, ScoredLe)[k - 1]].name !in FirstNames(scores, k - 1)
  {
    RankedByScore();
    OrderFacts(scores, ScoredLe);
    hide Order;
  }

  lemma {:induction false} FirstNamesSize(scores: seq<Scored>, k: nat)
    requires k <= |scores|
    ensures |FirstNames(scores, k)| <= k
    ensures DistinctNames(scores) ==> |FirstNames(scores, k)| == k
  {
    hide Order;
    if k > 0 {
      FirstNamesSize(scores, k - 1);
      var order := Order(scores, ScoredLe);
      assert FirstNames(scores, k) == FirstNames(scores, k - 1) + {scores[order[k - 1]].name};
      if DistinctNames(scores) {
        NextNameIsNew(scores, k);
      }
    }
  }

  lemma RankedByScore()
    ensures Preorder(ScoredLe)
  {
  }

  lemma SubsetSize<T>(a: set<T>, b: set<T>)
    requires a <= b
    ensures |a| <= |b|
  {
    assert b == a + (b - a);
  }

  lemma RouteSize(scores: seq<Scored>, topK: nat, minScore: real)
    ensures |Route(scores, topK, minScore)| <= topK
  {
    hide Order;
    var k := if topK < |scores| then topK else |scores|;
    FirstNamesSize(scores, k);
    var order := Order(scores, ScoredLe);
    forall name | name in Route(scores, topK, minScore) ensures name in FirstNames(scores, k) {
      var i :| 0 <= i < |order| && i < topK && scores[order[i]].score >= minScore && scores[order[i]].name == name;
    }
    SubsetSize(Route(scores, topK, minScore), FirstNames(scores, k));
  }

  /** A tool left out ranks behind the quota or is below the threshold. */
  lemma OmittedRanksLow(scores: seq<Scored>, topK: nat, minScore: real, q: nat)
    requires q < |scores| && scores[q].name !in Route(scores, topK, minScore) && scores[q].score >= minScore
    ensures topK < |scores|
    ensures forall i | 0 <= i < topK :: scores[Order(scores, ScoredLe)[i]].score >= scores[q].score
  {
    hide Order;
    var order := Order(scores, ScoredLe);
    RankedByScore();
    OrderFacts(scores, ScoredLe);
    var j := PlaceOf(scores, ScoredLe, q);
    assert j >= topK;
    forall i | 0 <= i < topK ensures scores[order[i]].score >= scores[q].score {
      assert i < j ==> Before(scores, ScoredLe, order[i], order[j]);
    }
  }

  /** Routing returns at most `topK` names, each of a tool at or above the threshold.
      With distinct names, when a tool at or above the threshold is left out, the quota
      is used up by tools that score at least as high. */
  lemma RouteSelectsTheBest(scores: seq<Scored>, topK: nat, minScore: real)
    ensures |Route(scores, topK, minScore)| <= topK
    ensures forall name | name in Route(scores, topK, minScore) ::
      exists p | 0 <= p < |scores| :: scores[p].name == name && scores[p].score >= minScore
    ensures DistinctNames(scores) ==>
      forall q | 0 <= q < |scores| && scores[q].score >= minScore && scores[q].name !in Route(scores, topK, minScore) ::
        && |Route(scores, topK, minScore)| == topK
        && forall p | 0 <= p < |scores| && scores[p].name in Route(scores, topK, minScore) :: scores[p].score >= scores[q].score
  {
    hide Order;
    RouteSize(scores, topK, minScore);
    var order := Order(scores, ScoredLe);
    if DistinctNames(scores) {
      forall q | 0 <= q < |scores| && scores[q].score >= minScore && scores[q].name !in Route(scores, topK, minScore)
        ensures |Route(scores, topK, minScore)| == topK
        ensures forall p | 0 <= p < |scores| && scores[p].name in Route(scores, topK, minScore) :: scores[p].score >= scores[q].score
      {
        OmittedRanksLow(scores, topK, minScore, q);
        FirstNamesSize(scores, topK);
        RouteIsFirst(scores, topK, minScore);
        forall p | 0 <= p < |scores| && scores[p].name in Route(scores, topK, minScore)
          ensures scores[p].score >= scores[q].score
        {
          var i :| 0 <= i < |order| && i < topK && scores[order[i]].score >= minScore && scores[order[i]].name == scores[p].name;
          assert order[i] == p;
        }
      }
    }
  }

  lemma RouteIsFirst(scores: seq<Scored>, topK: nat, minScore: real)
    requires topK <= |scores| && forall i | 0 <= i < topK :: scores[Order(scores, ScoredLe)[i]].score >= minScore
    ensures Route(scores, topK, minScore) == FirstNames(scores, topK)
  {
    hide Order;
  }

  /** The loop that scores every tool, the sort, and the cut. */
  method EmbeddingRoute(message: Vector, names: seq<string>, tools: seq<Vector>, similarity: (Vector, Vector) -> real,
                        topK: nat, minScore: real) returns (selected: set<string>)
    requires |names| == |tools|
    ensures selected == Route(seq(|tools|, i requires 0 <= i < |tools| => Scored(names[i], similarity(message, tools[i]))), topK, minScore)
  {
    hide Order;
    var scores: seq<Scored> := [];
    for i := 0 to |tools|
      invariant scores == seq(i, j requires 0 <= j < i => Scored(names[j], similarity(message, tools[j])))
    {
      scores := scores + [Scored(names[i], similarity(message, tools[i]))];
    }
    var order := Order(scores, ScoredLe);
    selected := {};
    var cut := if topK < |order| then topK else |order|;
    for i := 0 to cut
      invariant selected == set j | 0 <= j < i && scores[order[j]].score >= minScore :: scores[order[j]].name
    {
      if scores[order[i]].score >= minScore {
        selected := selected + {scores[order[i]].name};
      }
    }
  }

  // ----- The capped merge of keyword and embedding hits -----

  predicate Distinct(names: seq<string>) {
    forall i, j | 0 <= i < j < |names| :: names[i] != names[j]
  }

  /** `new` names not listed yet, in order. */
  function Fresh(listed: seq<string>, extra: seq<string>): seq<string>
    decreases |extra|
  {
    if extra == [] then []
    else if extra[0] in listed then Fresh(listed, extra[1..])
    else [extra[0]] + Fresh(listed + [extra[0]], extra[1..])
  }

  function Take(names: seq<string>, n: nat): seq<string> {
    if |names| <= n then names else names[..n]
  }

  /** The allowed names: everything when it fits, else the first `maxTools` of keyword
      hits, then the always-included ones, then embedding hits. The sequences list
      Python sets in whatever order they are iterated. */
  function Merged(keyword: seq<string>, info: seq<string>, embedding: seq<string>, maxTools: nat): set<string> {
    var all := set n | n in keyword + embedding + info;
    if |all| <= maxTools then all
    else
      var ordered := keyword + Fresh(keyword, info);
      set n | n in Take(ordered + Fresh(ordered, embedding), maxTools)
  }

  /** The loop form: embedding names are only listed while there is room. */
  method MergeCapped(keyword: seq<string>, info: seq<string>, embedding: seq<string>, maxTools: nat) returns (merged: set<string>)
    ensures merged == Merged(keyword, info, embedding, maxTools)
  {
    merged := set n | n in keyword + embedding + info;
    if |merged| > maxTools {
      var ordered := keyword;
      for i := 0 to |info|
        invariant ordered + Fresh(ordered, info[i..]) == keyword + Fresh(keyword, info)
      {
        assert info[i..][1..] == info[i + 1..];
        if info[i] !in ordered {
          assert ordered + ([info[i]] + Fresh(ordered + [info[i]], info[i + 1..])) == ordered + [info[i]] + Fresh(ordered + [info[i]], info[i + 1..]);
          ordered := ordered + [info[i]];
        }
      }
      assert ordered + [] == ordered;
      ghost var base := ordered;
      for i := 0 to |embedding|
        invariant Take(ordered + Fresh(ordered, embedding[i..]), maxTools) == Take(base + Fresh(base, embedding), maxTools)
      {
        assert embedding[i..][1..] == embedding[i + 1..];
        FullAlready(ordered, embedding[i..], embedding[i + 1..], maxTools);
        if embedding[i] !in ordered && |ordered| < maxTools {
          assert ordered + ([embedding[i]] + Fresh(ordered + [embedding[i]], embedding[i + 1..]))
            == ordered + [embedding[i]] + Fresh(ordered + [embedding[i]], embedding[i + 1..]);
          ordered := ordered + [embedding[i]];
        }
      }
      assert ordered + [] == ordered;
      merged := set n | n in Take(ordered, maxTools);
    }
  }

  lemma {:induction false} FullAlready(ordered: seq<string>, a: seq<string>, b: seq<string>, n: nat)
    ensures |ordered| >= n ==> Take(ordered + Fresh(ordered, a), n) == Take(ordered + Fresh(ordered, b), n)
  {
    if |ordered| >= n {
      assert Take(ordered + Fresh(ordered, a), n) == ordered[..n] || |ordered| == n;
      assert (ordered + Fresh(ordered, a))[..n] == ordered[..n] == (ordered + Fresh(ordered, b))[..n];
    }
  }

  lemma {:induction false} FreshFacts(listed: seq<string>, extra: seq<string>, x: string)
    ensures Distinct(listed) ==> Distinct(listed + Fresh(listed, extra))
    ensures x in listed + Fresh(listed, extra) <==> x in listed || x in extra
    decreases |extra|
  {
    if extra == [] {
      assert listed + [] == listed;
    } else if extra[0] in listed {
      FreshFacts(listed, extra[1..], x);
    } else {
      var more := listed + [extra[0]];
      FreshFacts(more, extra[1..], x);
      assert more + Fresh(more, extra[1..]) == listed + Fresh(listed, extra);
    }
  }

  lemma {:induction false} DistinctSize(names: seq<string>)
    requires Distinct(names)
    ensures |set n | n in names| == |names|
  {
    if names != [] {
      var rest := names[..|names| - 1];
      DistinctSize(rest);
      assert (set n | n in names) == (set n | n in rest) + {names[|names| - 1]};
    }
  }

  /** Everything that could be offered, keyword hits first. */
  function Ordered(keyword: seq<string>, info: seq<string>, embedding: seq<string>): seq<string> {
    var ordered := keyword + Fresh(keyword, info);
    ordered + Fresh(ordered, embedding)
  }

  lemma OrderedFacts(keyword: seq<string>, info: seq<string>, embedding: seq<string>)
    requires Distinct(keyword)
    ensures Distinct(Ordered(keyword, info, embedding)) && keyword <= Ordered(keyword, info, embedding)
    ensures (set n | n in Ordered(keyword, info, embedding)) == set n | n in keyword + embedding + info
  {
    hide Fresh;
    var ordered := keyword + Fresh(keyword, info);
    var all := Ordered(keyword, info, embedding);
    FreshFacts(keyword, info, "");
    FreshFacts(ordered, embedding, "");
    forall x ensures x in all <==> x in keyword + embedding + info {
      FreshFacts(keyword, info, x);
      FreshFacts(ordered, embedding, x);
    }
  }

  /** The tools whose names are allowed, or all of them when none is. */
  function Offered(tools: seq<string>, merged: set<string>): seq<string> {
    var selected := Allowed(tools, merged);
    if selected == [] then tools else selected
  }

  function Allowed(tools: seq<string>, merged: set<string>): seq<string> {
    if tools == [] then [] else (if tools[0] in merged then [tools[0]] else []) + Allowed(tools[1..], merged)
  }

  lemma {:induction false} AllowedFacts(tools: seq<string>, merged: set<string>, x: string)
    ensures x in Allowed(tools, merged) <==> x in tools && x in merged
    ensures Distinct(tools) ==> Distinct(Allowed(tools, merged))
  {
    if tools != [] {
      AllowedFacts(tools[1..], merged, x);
      AllowedFacts(tools[1..], merged, tools[0]);
      assert Distinct(tools) ==> tools[0] !in tools[1..];
    }
  }

  lemma MergedFacts(keyword: seq<string>, info: seq<string>, embedding: seq<string>, maxTools: nat)
    requires Distinct(keyword)
    ensures var all := Ordered(keyword, info, embedding);
      Distinct(all) && keyword <= all && Merged(keyword, info, embedding, maxTools) == set n | n in Take(all, maxTools)
  {
    hide Fresh;
    OrderedFacts(keyword, info, embedding);
    DistinctSize(Ordered(keyword, info, embedding));
  }

  /** When not everything fits, exactly the cap is used: keyword hits come first, in their
      order, then the tools that always belong, then embedding hits. */
  lemma MergeOrder(keyword: seq<string>, info: seq<string>, embedding: seq<string>, maxTools: nat)
    requires Distinct(keyword)
    ensures var merged, all := Merged(keyword, info, embedding, maxTools), set n | n in keyword + embedding + info;
      && merged <= all && |merged| == (if |all| <= maxTools then |all| else maxTools)
      && (forall i, j | 0 <= i < j < |keyword| && keyword[j] in merged :: keyword[i] in merged)
      && (forall n, k | n in merged && n !in keyword && k in keyword :: k in merged)
      && (forall n, k | n in merged && n !in keyword + info && k in keyword + info :: k in merged)
  {
    hide Merged, Fresh;
    MergedFacts(keyword, info, embedding, maxTools);
    OrderedFacts(keyword, info, embedding);
    var merged, all, first := Merged(keyword, info, embedding, maxTools), Ordered(keyword, info, embedding), keyword + Fresh(keyword, info);
    assert keyword <= first <= all;
    DistinctSize(all);
    DistinctSize(Take(all, maxTools));
    forall i, j | 0 <= i < j < |all| && all[j] in merged ensures all[i] in merged {
      EarlierIsTaken(all, maxTools, i, j);
    }
    forall n, k, some: seq<string> | some <= all && n in merged && n !in some && k in some ensures k in merged {
      var j :| 0 <= j < |all| && all[j] == n;
      var i :| 0 <= i < |some| && some[i] == k;
      assert forall l | 0 <= l < |some| :: some[l] == all[l];
      assert all[i] == k;
    }
    forall n ensures n in first <==> n in keyword + info {
      FreshFacts(keyword, info, n);
    }
  }

  lemma EarlierIsTaken(all: seq<string>, n: nat, i: nat, j: nat)
    requires Distinct(all) && i < j < |all| && all[j] in Take(all, n)
    ensures all[i] in Take(all, n)
  {
    var taken := Take(all, n);
    var k :| 0 <= k < |taken| && taken[k] == all[j];
    assert all[k] == all[j];
    assert taken[i] == all[i];
  }

  /** The merge never exceeds the cap, and keyword hits all survive it exactly when
      there are at most that many of them or everything fits. (The source says keyword
      matches always survive.) */
  lemma KeywordHitsSurvive(keyword: seq<string>, info: seq<string>, embedding: seq<string>, maxTools: nat)
    requires Distinct(keyword)
    ensures |Merged(keyword, info, embedding, maxTools)| <= maxTools
    ensures (forall n | n in keyword :: n in Merged(keyword, info, embedding, maxTools))
      <==> |keyword| <= maxTools
  {
    hide Merged, Ordered;
    var all := Ordered(keyword, info, embedding);
    MergedFacts(keyword, info, embedding, maxTools);
    var taken := Take(all, maxTools);
    assert Distinct(taken);
    DistinctSize(taken);
    if |keyword| <= maxTools {
      forall n | n in keyword ensures n in taken {
        var i :| 0 <= i < |keyword| && keyword[i] == n;
        assert taken[i] == n;
      }
    } else {
      assert keyword[maxTools] == all[maxTools] && keyword[maxTools] in keyword;
      assert keyword[maxTools] !in taken;
      assert keyword[maxTools] !in Merged(keyword, info, embedding, maxTools);
    }
  }

  lemma {:induction false} AllowedAreFound(tools: seq<string>, merged: set<string>)
    ensures Allowed(tools, merged) == FilterMap((n: string) => if n in merged then Some(n) else None, tools)
  {
    if tools != [] {
      AllowedAreFound(tools[1..], merged);
    }
  }

  /** Offered are, in the order of the tools, exactly those that are allowed; all of them when
      none is. */
  lemma OfferedInOrder(tools: seq<string>, merged: set<string>) returns (at: seq<nat>)
    ensures (forall i | 0 <= i < |at| :: at[i] < |tools|) && forall i, j | 0 <= i < j < |at| :: at[i] < at[j]
    ensures Offered(tools, merged) == Pick(tools, at)
    ensures forall k | 0 <= k < |tools| :: k in at <==> tools[k] in merged || forall n <- tools :: n !in merged
  {
    AllowedAreFound(tools, merged);
    at := FilterMapPositions((n: string) => if n in merged then Some(n) else None, tools);
    hide FilterMap, Allowed;
    if at == [] {
      at := seq(|tools|, i => i);
      assert Pick(tools, at) == tools;
      forall k | 0 <= k < |tools| ensures k in at {
        assert at[k] == k;
      }
    } else {
      assert Pick(tools, at) == Allowed(tools, merged);
      assert tools[at[0]] in tools && tools[at[0]] in merged;
    }
  }

  /** With distinct tool names and at least one keyword hit among them (the keyword
      stage always yields one), between one tool and the cap is offered. */
  lemma OfferIsBounded(tools: seq<string>, keyword: seq<string>, info: seq<string>, embedding: seq<string>, maxTools: nat)
    requires Distinct(tools) && Distinct(keyword) && maxTools >= 1
    requires keyword != [] && forall n | n in keyword :: n in tools
    ensures var offered := Offered(tools, Merged(keyword, info, embedding, maxTools));
      1 <= |offered| <= maxTools && forall n | n in offered :: n in tools && n in Merged(keyword, info, embedding, maxTools)
  {
    hide Merged, Ordered, Allowed;
    var merged := Merged(keyword, info, embedding, maxTools);
    MergedFacts(keyword, info, embedding, maxTools);
    KeywordHitsSurvive(keyword, info, embedding, maxTools);
    var all := Ordered(keyword, info, embedding);
    assert Take(all, maxTools)[0] == keyword[0];
    assert keyword[0] in merged;
    var selected := Allowed(tools, merged);
    AllowedFacts(tools, merged, keyword[0]);
    forall n | n in selected ensures n in tools && n in merged {
      AllowedFacts(tools, merged, n);
    }
    DistinctSize(selected);
    SubsetSize((set n | n in selected), merged);
  }

  // ----- A request with more keyword hits than fit -----

  const MAX_TOOLS := 22

  const DOCUMENT_TOOLS := [
    "search_documents", "get_document", "create_document", "edit_document", "delete_document",
    "search_public_documents", "get_document_content", "get_documents_by_status", "get_recent_documents"]

  const FEEDBACK_TOOLS := ["submit_feedback", "get_my_feedback"]

  const REVIEW_TOOLS := ["submit_review", "list_pending_reviews"]

  const VERSION_TOOLS := [
    "compare_versions", "get_document_history", "publish_document", "get_document_workflow",
    "list_scheduled_publishes", "get_version_details", "get_document_version_stats",
    "cancel_scheduled_publish", "list_unpublished_versions"]

  const INFO_TOOLS := ["get_my_profile", "get_my_permissions", "get_help"]

  predicate StandsAt(message: string, i: nat, word: string) {
    i + |word| <= |message| && forall k | 0 <= k < |word| :: Lower(message[i + k]) == word[k]
  }

  /** `re.search` for a plain word, in any case. */
  predicate Mentions(message: string, word: string) {
    exists i: nat | i <= |message| :: StandsAt(message, i, word)
  }

  /** Tools the keyword stage allows for certain: those of the patterns with the words
      "document" and "review", and the info tools. Other patterns only add to them. */
  function CertainTools(message: string): seq<string> {
    (if Mentions(message, "document") then DOCUMENT_TOOLS else [])
    + (if Mentions(message, "review") then FEEDBACK_TOOLS + REVIEW_TOOLS + VERSION_TOOLS else [])
    + INFO_TOOLS
  }

  lemma GroupsAreDistinct()
    ensures Distinct(DOCUMENT_TOOLS) && Distinct(FEEDBACK_TOOLS) && Distinct(REVIEW_TOOLS)
    ensures Distinct(VERSION_TOOLS) && Distinct(INFO_TOOLS)
  {
  }

  predicate Apart(a: seq<string>, b: seq<string>) {
    forall i, j | 0 <= i < |a| && 0 <= j < |b| :: a[i] != b[j]
  }

  lemma GroupsAreApart()
    ensures Apart(FEEDBACK_TOOLS, REVIEW_TOOLS) && Apart(FEEDBACK_TOOLS, VERSION_TOOLS) && Apart(REVIEW_TOOLS, VERSION_TOOLS)
    ensures Apart(DOCUMENT_TOOLS, FEEDBACK_TOOLS) && Apart(DOCUMENT_TOOLS, REVIEW_TOOLS) && Apart(DOCUMENT_TOOLS, VERSION_TOOLS)
    ensures Apart(DOCUMENT_TOOLS, INFO_TOOLS) && Apart(FEEDBACK_TOOLS, INFO_TOOLS)
    ensures Apart(REVIEW_TOOLS, INFO_TOOLS) && Apart(VERSION_TOOLS, INFO_TOOLS)
  {
  }

  lemma DistinctConcat(a: seq<string>, b: seq<string>)
    requires Distinct(a) && Distinct(b) && Apart(a, b)
    ensures Distinct(a + b)
    ensures forall c :: Apart(c, a) && Apart(c, b) ==> Apart(c, a + b)
    ensures forall c :: Apart(a, c) && Apart(b, c) ==> Apart(a + b, c)
  {
  }

  lemma CertainToolsAreMany(message: string)
    requires Mentions(message, "document") && Mentions(message, "review")
    ensures |CertainTools(message)| == 25 && Distinct(CertainTools(message))
  {
    GroupsAreDistinct();
    GroupsAreApart();
    hide Distinct, Apart, Mentions;
    var others := FEEDBACK_TOOLS + REVIEW_TOOLS + VERSION_TOOLS;
    DistinctConcat(FEEDBACK_TOOLS, REVIEW_TOOLS);
    DistinctConcat(FEEDBACK_TOOLS + REVIEW_TOOLS, VERSION_TOOLS);
    DistinctConcat(DOCUMENT_TOOLS, others);
    DistinctConcat(DOCUMENT_TOOLS + others, INFO_TOOLS);
  }

  /** Every message that speaks of a document and a review has more keyword hits than the cap,
      when the tools are on offer: one of the hits is cut, however the sets are iterated. */
  lemma ReviewOfADocumentLosesAHit(message: string, keyword: seq<string>, info: seq<string>, embedding: seq<string>)
    requires Mentions(message, "document") && Mentions(message, "review")
    requires Distinct(keyword) && forall n <- CertainTools(message) :: n in keyword
    ensures |keyword| > MAX_TOOLS
    ensures exists n <- keyword :: n !in Merged(keyword, info, embedding, MAX_TOOLS)
  {
    CertainToolsAreMany(message);
    var certain := CertainTools(message);
    hide Merged, CertainTools, Mentions;
    DistinctSize(certain);
    DistinctSize(keyword);
    SubsetSize(set n | n in certain, set n | n in keyword);
    KeywordHitsSurvive(keyword, info, embedding, MAX_TOOLS);
  }

  lemma SpeaksOfBoth()
    ensures Mentions("Review my document", "document") && Mentions("Review my document", "review")
  {
    var message := "Review my document";
    assert StandsAt(message, 0, "review") && StandsAt(message, 10, "document");
  }
}
