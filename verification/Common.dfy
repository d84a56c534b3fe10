/** Optional values, used for the source's zero times, nil pointers and error returns. */
module Common {
  datatype Option<+T> = None | Some(value: T)
}

/** Counting the values of a map that satisfy a predicate, one update at a time. */
module Counting {
  ghost function Matching<K, V>(m: map<K, V>, p: V -> bool): set<K> {
    set k | k in m && p(m[k])
  }

  ghost function Count<K, V>(m: map<K, V>, p: V -> bool): nat {
    |Matching(m, p)|
  }

  function Bit(b: bool): nat {
    if b then 1 else 0
  }

  lemma CountPut<K, V>(m: map<K, V>, k: K, v: V, p: V -> bool)
    ensures Count(m[k := v], p) == Count(m, p) - Bit(k in m && p(m[k])) + Bit(p(v))
  {
    var others := Matching(m, p) - {k};
    assert Matching(m, p) == if k in m && p(m[k]) then others + {k} else others;
    assert Matching(m[k := v], p) == if p(v) then others + {k} else others;
  }

  lemma CountDrop<K, V>(m: map<K, V>, k: K, p: V -> bool)
    ensures Count(m - {k}, p) == Count(m, p) - Bit(k in m && p(m[k]))
  {
    assert Matching(m - {k}, p) == Matching(m, p) - {k};
  }

  lemma CountAtMost<K, V>(m: map<K, V>, p: V -> bool)
    ensures Count(m, p) <= |m|
    ensures Count(m, p) == |m| <==> forall k :: k in m ==> p(m[k])
    ensures Count(m, p) == 0 <==> forall k :: k in m ==> !p(m[k])
  {
    Subset(Matching(m, p), m.Keys);
    assert Count(m, p) == |m| ==> Matching(m, p) == m.Keys;
    if exists k :: k in m && p(m[k]) {
      var k :| k in m && p(m[k]);
      assert k in Matching(m, p);
    } else {
      assert Matching(m, p) == {};
    }
    if forall k :: k in m ==> p(m[k]) {
      assert Matching(m, p) == m.Keys;
    }
  }

  /** When not everything matches, something does not. */
  lemma Exception<K, V>(m: map<K, V>, p: V -> bool) returns (k: K)
    requires Count(m, p) < |m|
    ensures k in m && !p(m[k])
  {
    CountAtMost(m, p);
    k :| k in m && !p(m[k]);
  }

  /** A nonempty set has an element to pick. */
  lemma Inhabited<T>(s: set<T>) returns (x: T)
    requires s != {}
    ensures x in s
  {
    x :| x in s;
  }

  /** A subset is no larger, and is everything when it is as large. */
  lemma Subset<T>(a: set<T>, b: set<T>)
    requires a <= b
    ensures |a| <= |b|
    ensures |a| == |b| ==> a == b
  {
    assert b == a + (b - a);
  }

  lemma DisjointUnionSize<T>(a: set<T>, b: set<T>)
    requires a !! b
    ensures |a + b| == |a| + |b|
  {
  }

  lemma RemainderSize<T>(a: set<T>, b: set<T>)
    requires b <= a
    ensures |a - b| == |a| - |b|
  {
    assert a == (a - b) + b;
  }

  lemma NothingLeftIff<T>(a: set<T>, b: set<T>)
    ensures a - b == {} <==> a <= b
  {
    if a - b == {} {
      forall x | x in a ensures x in b {
        assert x !in a - b;
      }
    }
  }
}
