/** Optional values, and sizes of sets and maps. */
module Collections {

  datatype Option<+T> = None | Some(value: T)

  lemma {:induction false} SubsetSize<K>(a: set<K>, b: set<K>)
    requires a <= b
    ensures |a| <= |b|
  {
    if a != {} {
      var x :| x in a;
      SubsetSize(a - {x}, b - {x});
    }
  }

  lemma KeysBound<K, V>(m: map<K, V>, n: map<K, V>)
    requires m.Keys <= n.Keys
    ensures |m| <= |n|
  {
    SubsetSize(m.Keys, n.Keys);
  }

  lemma AddOne<K, V>(m: map<K, V>, k: K, v: V)
    ensures |m[k := v]| <= |m| + 1
  {
    assert m[k := v].Keys == m.Keys + {k};
  }

  /** What holds at n and not at k > n stops holding somewhere in between. */
  lemma {:induction false} LastTime(p: nat -> bool, n: nat, k: nat) returns (i: nat)
    requires n < k && p(n) && !p(k)
    ensures n <= i < k && p(i) && !p(i + 1)
    decreases k
  {
    i := k - 1;
    if !p(i) {
      i := LastTime(p, n, i);
    }
  }
}
