/** Small facts about sequences and finite sets shared by the other modules. */
module Prelude {

  datatype Option<+T> = None | Some(value: T)

  ghost predicate Distinct<T>(s: seq<T>) {
    forall i, j :: 0 <= i < j < |s| ==> s[i] != s[j]
  }

  ghost function Elements<T>(s: seq<T>): set<T> {
    set x | x in s
  }

  ghost function Below(n: nat): (r: set<nat>)
    ensures forall w: nat :: w in r <==> w < n
    ensures |r| == n
  {
    if n == 0 then {} else Below(n - 1) + {n - 1}
  }

  lemma {:induction false} DistinctSize<T>(s: seq<T>)
    requires Distinct(s)
    ensures |Elements(s)| == |s|
  {
    if |s| == 0 {
    } else {
      var last := |s| - 1;
      DistinctSize(s[..last]);
      assert Elements(s) == Elements(s[..last]) + {s[last]};
    }
  }

  lemma SubsetSize<T>(a: set<T>, b: set<T>)
    requires a <= b
    ensures |a| <= |b|
    ensures |a| == |b| ==> a == b
  {
    assert b == a + (b - a);
  }

  /** The pigeonhole principle: a duplicate-free sequence of numbers below n has at
      most n elements, and it misses a number exactly when it is shorter than n. */
  lemma Pigeonhole(s: seq<nat>, n: nat)
    requires Distinct(s) && forall w :: w in s ==> w < n
    ensures |s| <= n
    ensures |s| == n <==> forall w: nat :: w < n ==> w in s
  {
    DistinctSize(s);
    SubsetSize(Elements(s), Below(n));
    if forall w: nat :: w < n ==> w in s {
      assert Elements(s) == Below(n);
    }
    if |s| == n {
      forall w: nat | w < n ensures w in s {
        assert w in Below(n);
      }
    }
  }

  lemma DistinctPush<T>(s: seq<T>, x: T)
    requires Distinct(s) && x !in s
    ensures Distinct(s + [x])
  {
  }

  lemma DistinctPop<T>(s: seq<T>)
    requires Distinct(s) && |s| > 0
    ensures Distinct(s[1..]) && s[0] !in s[1..]
    ensures forall x :: x in s <==> x == s[0] || x in s[1..]
  {
    assert s == [s[0]] + s[1..];
  }

  /** The keys of m that are bound to v. */
  ghost function At<K, V>(m: map<K, V>, v: V): set<K> {
    set k | k in m && m[k] == v
  }

  lemma AtUpdate<K, V>(m: map<K, V>, k: K, to: V, v: V)
    ensures At(m[k := to], v) == if to == v then At(m, v) + {k} else At(m, v) - {k}
    ensures |At(m[k := to], v)| ==
            |At(m, v)| + (if to == v && k !in At(m, v) then 1 else 0)
                       - (if to != v && k in At(m, v) then 1 else 0)
  {
    assert At(m[k := to], v) == if to == v then At(m, v) + {k} else At(m, v) - {k};
    if to == v && k in At(m, v) {
      assert At(m, v) + {k} == At(m, v);
    }
    if to != v && k !in At(m, v) {
      assert At(m, v) - {k} == At(m, v);
    }
  }
}
