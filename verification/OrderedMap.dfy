/** A map that remembers insertion order, as JavaScript's `Map` does: setting an
    existing key keeps its place, deleting and setting again moves it to the end. */
module OrderedMap {

  datatype OMap<K(==), V> = OMap(keys: seq<K>, vals: map<K, V>) {
    /** `keys` lists the map's domain once each. */
    ghost predicate Valid() {
      Distinct(keys) && (set k | k in keys) == vals.Keys
    }

    function Delete(k: K): (m: OMap<K, V>)
      ensures Valid() ==> m.Valid()
      ensures m.vals == vals - {k}
    {
      WithoutMembers(keys, k);
      OMap(Without(keys, k), vals - {k})
    }

    function Set(k: K, v: V): (m: OMap<K, V>)
      ensures Valid() ==> m.Valid()
      ensures m.vals == vals[k := v]
    {
      OMap(if k in vals then keys else keys + [k], vals[k := v])
    }
  }

  ghost predicate Distinct<K>(s: seq<K>) {
    forall i, j | 0 <= i < j < |s| :: s[i] != s[j]
  }

  /** `s` without the occurrences of `k`. */
  function Without<K(==)>(s: seq<K>, k: K): seq<K> {
    if s == [] then []
    else (if s[0] == k then [] else [s[0]]) + Without(s[1..], k)
  }

  lemma {:induction false} WithoutMembers<K>(s: seq<K>, k: K)
    ensures forall x <- s :: x != k ==> x in Without(s, k)
    ensures forall x <- Without(s, k) :: x in s && x != k
    ensures Distinct(s) ==> Distinct(Without(s, k))
  {
    if s != [] {
      WithoutMembers(s[1..], k);
      assert forall x <- s :: x == s[0] || x in s[1..];
      if Distinct(s) {
        assert s[0] !in s[1..];
      }
    }
  }

  lemma {:induction false} WithoutAbsent<K>(s: seq<K>, k: K)
    requires k !in s
    ensures Without(s, k) == s
  {
    if s != [] {
      WithoutAbsent(s[1..], k);
      assert s == [s[0]] + s[1..];
    }
  }

  lemma {:induction false} WithoutAppend<K>(a: seq<K>, b: seq<K>, k: K)
    ensures Without(a + b, k) == Without(a, k) + Without(b, k)
  {
    if a == [] {
      assert a + b == b;
    } else {
      assert (a + b)[1..] == a[1..] + b;
      WithoutAppend(a[1..], b, k);
    }
  }

  /** Removing one of distinct elements shortens by one. */
  lemma {:induction false} WithoutLength<K>(s: seq<K>, k: K)
    requires Distinct(s)
    ensures |Without(s, k)| == if k in s then |s| - 1 else |s|
  {
    if k !in s {
      WithoutAbsent(s, k);
    } else if s[0] == k {
      assert k !in s[1..];
      WithoutAbsent(s[1..], k);
    } else {
      WithoutLength(s[1..], k);
    }
  }

  lemma {:induction false} WithoutFirst<K>(s: seq<K>)
    requires s != [] && Distinct(s)
    ensures Without(s, s[0]) == s[1..]
    ensures s[0] !in s[1..]
  {
    WithoutAbsent(s[1..], s[0]);
  }
}
