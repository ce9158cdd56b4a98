/** Python's stable `list.sort`, as the order it puts positions in. */
module StableSort {
  import opened Sequences

  /** A total preorder: how a sort key compares. */
  ghost predicate Preorder<T(!new)>(le: (T, T) -> bool) {
    && (forall x, y :: le(x, y) || le(y, x))
    && (forall x, y, z :: le(x, y) && le(y, z) ==> le(x, z))
  }

  /** Strictly before: by key, and by position among equal keys. */
  predicate Before<T>(s: seq<T>, le: (T, T) -> bool, p: nat, q: nat)
    requires p < |s| && q < |s|
  {
    le(s[p], s[q]) && (le(s[q], s[p]) ==> p < q)
  }

  /** Inserts position `p` before the first one that does not have a smaller key. */
  function Insert<T>(s: seq<T>, le: (T, T) -> bool, p: nat, order: seq<nat>): (r: seq<nat>)
    requires p < |s| && forall i | 0 <= i < |order| :: order[i] < |s|
    ensures |r| == |order| + 1 && forall i | 0 <= i < |r| :: r[i] < |s|
  {
    if order == [] then [p]
    else if le(s[p], s[order[0]]) then [p] + order
    else [order[0]] + Insert(s, le, p, order[1..])
  }

  /** The positions from `from` on, sorted. */
  function OrderFrom<T>(s: seq<T>, le: (T, T) -> bool, from: nat): (r: seq<nat>)
    ensures |r| == if from <= |s| then |s| - from else 0
    ensures forall i | 0 <= i < |r| :: r[i] < |s|
    decreases |s| - from
  {
    if from >= |s| then [] else Insert(s, le, from, OrderFrom(s, le, from + 1))
  }

  function Order<T>(s: seq<T>, le: (T, T) -> bool): (r: seq<nat>)
    ensures |r| == |s|
    ensures forall i | 0 <= i < |r| :: r[i] < |s|
  {
    OrderFrom(s, le, 0)
  }

  function Sorted<T>(s: seq<T>, le: (T, T) -> bool): seq<T> {
    Pick(s, Order(s, le))
  }

  /** By key, then by position; so no position occurs twice. */
  ghost predicate InOrder<T>(s: seq<T>, le: (T, T) -> bool, order: seq<nat>)
    requires forall i | 0 <= i < |order| :: order[i] < |s|
  {
    forall i, j | 0 <= i < j < |order| :: Before(s, le, order[i], order[j])
  }

  lemma {:induction false} InsertMembers<T>(s: seq<T>, le: (T, T) -> bool, p: nat, order: seq<nat>, x: nat)
    requires p < |s| && forall i | 0 <= i < |order| :: order[i] < |s|
    ensures x in Insert(s, le, p, order) <==> x == p || x in order
  {
    if order != [] && !le(s[p], s[order[0]]) {
      InsertMembers(s, le, p, order[1..], x);
    }
  }

  lemma {:induction false} InsertInOrder<T(!new)>(s: seq<T>, le: (T, T) -> bool, p: nat, order: seq<nat>)
    requires Preorder(le) && p < |s| && forall i | 0 <= i < |order| :: p < order[i] < |s|
    requires InOrder(s, le, order)
    ensures InOrder(s, le, Insert(s, le, p, order))
  {
    if order == [] {
    } else if le(s[p], s[order[0]]) {
      var r := [p] + order;
      forall i, j | 0 <= i < j < |r| ensures Before(s, le, r[i], r[j]) {
        if i > 0 {
          assert r[i] == order[i - 1] && r[j] == order[j - 1];
        } else if j > 1 {
          assert Before(s, le, order[0], order[j - 1]);
        }
      }
    } else {
      var rest := order[1..];
      InsertInOrder(s, le, p, rest);
      var tail := Insert(s, le, p, rest);
      forall j | 0 <= j < |tail| ensures Before(s, le, order[0], tail[j]) {
        InsertMembers(s, le, p, rest, tail[j]);
        if tail[j] != p {
          var k :| 0 <= k < |rest| && rest[k] == tail[j];
          assert Before(s, le, order[0], order[k + 1]);
        }
      }
    }
  }

  lemma {:induction false} OrderMembers<T>(s: seq<T>, le: (T, T) -> bool, from: nat, x: nat)
    ensures x in OrderFrom(s, le, from) <==> from <= x < |s|
    decreases |s| - from
  {
    if from < |s| {
      OrderMembers(s, le, from + 1, x);
      InsertMembers(s, le, from, OrderFrom(s, le, from + 1), x);
    }
  }

  lemma {:induction false} OrderFromInOrder<T(!new)>(s: seq<T>, le: (T, T) -> bool, from: nat)
    requires Preorder(le)
    ensures InOrder(s, le, OrderFrom(s, le, from))
    decreases |s| - from
  {
    if from < |s| {
      var rest := OrderFrom(s, le, from + 1);
      OrderFromInOrder(s, le, from + 1);
      forall i | 0 <= i < |rest| ensures from < rest[i] {
        OrderMembers(s, le, from + 1, rest[i]);
      }
      InsertInOrder(s, le, from, rest);
    }
  }

  /** The order is a permutation of the positions, by key and then by position. */
  lemma OrderFacts<T(!new)>(s: seq<T>, le: (T, T) -> bool)
    requires Preorder(le)
    ensures InOrder(s, le, Order(s, le))
    ensures forall p | 0 <= p < |s| :: p in Order(s, le)
    ensures forall i, j | 0 <= i < j < |s| :: Order(s, le)[i] != Order(s, le)[j]
  {
    OrderFromInOrder(s, le, 0);
    forall p | 0 <= p < |s| ensures p in Order(s, le) {
      OrderMembers(s, le, 0, p);
    }
    var order := Order(s, le);
    assert forall i, j | 0 <= i < j < |order| :: Before(s, le, order[i], order[j]);
  }

  /** Where a position ends up. */
  lemma PlaceOf<T(!new)>(s: seq<T>, le: (T, T) -> bool, p: nat) returns (j: nat)
    requires p < |s|
    ensures j < |s| && Order(s, le)[j] == p
  {
    OrderMembers(s, le, 0, p);
    var order := Order(s, le);
    assert p in order;
    j :| 0 <= j < |order| && order[j] == p;
  }
}
