/** Picking values out of a sequence. */
module Sequences {
  import opened Options

  /** The values `f` finds, in order. */
  function FilterMap<A, B>(f: A -> Option<B>, xs: seq<A>): seq<B> {
    if xs == [] then []
    else (if f(xs[0]).Some? then [f(xs[0]).value] else []) + FilterMap(f, xs[1..])
  }

  lemma {:induction false} FilterMapConcat<A, B>(f: A -> Option<B>, xs: seq<A>, ys: seq<A>)
    ensures FilterMap(f, xs + ys) == FilterMap(f, xs) + FilterMap(f, ys)
  {
    if xs == [] {
      assert xs + ys == ys;
    } else {
      FilterMapConcat(f, xs[1..], ys);
      assert (xs + ys)[1..] == xs[1..] + ys && (xs + ys)[0] == xs[0];
      var first := if f(xs[0]).Some? then [f(xs[0]).value] else [];
      assert first + (FilterMap(f, xs[1..]) + FilterMap(f, ys)) == first + FilterMap(f, xs[1..]) + FilterMap(f, ys);
    }
  }

  lemma FilterMapOne<A, B>(f: A -> Option<B>, x: A)
    ensures FilterMap(f, [x]) == (if f(x).Some? then [f(x).value] else [])
    ensures FilterMap(f, []) == []
  {
    assert [x][1..] == [];
  }

  lemma {:induction false} FilterMapAppend<A, B>(f: A -> Option<B>, xs: seq<A>, x: A)
    ensures FilterMap(f, xs + [x]) == FilterMap(f, xs) + (if f(x).Some? then [f(x).value] else [])
  {
    FilterMapConcat(f, xs, [x]);
    assert [x][1..] == [];
  }

  /** Nothing is found where `f` finds nothing. */
  lemma {:induction false} FilterMapNone<A, B>(f: A -> Option<B>, xs: seq<A>)
    requires forall x | x in xs :: f(x) == None
    ensures FilterMap(f, xs) == []
  {
    if xs != [] {
      FilterMapNone(f, xs[1..]);
    }
  }

  /** What is found stands in the order of the sequence, and nothing that is found is missing. */
  lemma {:induction false} FilterMapPositions<A, B>(f: A -> Option<B>, xs: seq<A>) returns (ps: seq<nat>)
    ensures |ps| == |FilterMap(f, xs)|
    ensures forall i | 0 <= i < |ps| :: ps[i] < |xs| && f(xs[ps[i]]) == Some(FilterMap(f, xs)[i])
    ensures forall i, j | 0 <= i < j < |ps| :: ps[i] < ps[j]
    ensures forall k | 0 <= k < |xs| && f(xs[k]).Some? :: k in ps
  {
    if xs == [] {
      ps := [];
    } else {
      var n := |xs| - 1;
      assert xs == xs[..n] + [xs[n]];
      ps := FilterMapPositions(f, xs[..n]);
      FilterMapAppend(f, xs[..n], xs[n]);
      if f(xs[n]).Some? {
        ps := ps + [n];
      }
    }
  }

  /** `g` at every element. */
  function Map<A, B>(g: A -> B, xs: seq<A>): (ys: seq<B>)
    ensures |ys| == |xs| && forall i | 0 <= i < |xs| :: ys[i] == g(xs[i])
  {
    seq(|xs|, i requires 0 <= i < |xs| => g(xs[i]))
  }

  /** Where `f` finds something in every mapped element, it finds one value each. */
  lemma {:induction false} FilterMapMap<A, B, C>(f: B -> Option<C>, g: A -> B, h: A -> C, xs: seq<A>)
    requires forall x | x in xs :: f(g(x)) == Some(h(x))
    ensures FilterMap(f, Map(g, xs)) == Map(h, xs)
  {
    if xs != [] {
      FilterMapMap(f, g, h, xs[1..]);
      assert Map(g, xs)[1..] == Map(g, xs[1..]);
    }
  }

  /** Where `f` finds nothing at all, it finds nothing anywhere. */
  lemma {:induction false} FilterMapEmpty<A, B>(f: A -> Option<B>, xs: seq<A>)
    requires FilterMap(f, xs) == []
    ensures forall x | x in xs :: f(x) == None
  {
    if xs != [] {
      FilterMapEmpty(f, xs[1..]);
    }
  }

  /** Index of the first element that satisfies `p`, the length when there is none. */
  function First<T>(p: T -> bool, rows: seq<T>): (i: nat)
    ensures i <= |rows| && (i < |rows| ==> p(rows[i]))
    ensures forall j | 0 <= j < i :: !p(rows[j])
  {
    if rows == [] || p(rows[0]) then 0 else 1 + First(p, rows[1..])
  }

  /** The elements at these positions. */
  function Pick<T>(s: seq<T>, order: seq<nat>): (r: seq<T>)
    requires forall i | 0 <= i < |order| :: order[i] < |s|
    ensures |r| == |order| && forall i | 0 <= i < |r| :: r[i] == s[order[i]]
  {
    seq(|order|, i requires 0 <= i < |order| => s[order[i]])
  }
}
