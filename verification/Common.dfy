/** Small shared helpers. */
module Common {
  /** An optional value, used where the program has None. */
  datatype Option<+T> = None | Some(value: T)

  /** The next element when iterating a set or a dict's keys: any one left. */
  method AnyOf<T(==)>(left: set<T>) returns (x: T)
    requires left != {}
    ensures x in left
  {
    x :| x in left;
  }

  lemma DropOneMore<K, V>(m: map<K, V>, gone: set<K>, k: K)
    ensures (m - gone) - {k} == m - (gone + {k})
  {
  }

  /** m overwritten on keys by what f says. */
  ghost function Overwritten<K, V>(m: map<K, V>, keys: set<K>, f: map<K, V>): map<K, V>
    requires keys <= f.Keys
  {
    m + (map k | k in keys :: f[k])
  }

  lemma OverwriteOneMore<K, V>(m: map<K, V>, keys: set<K>, f: map<K, V>, k: K)
    requires keys <= f.Keys && k in f
    ensures Overwritten(m, keys, f)[k := f[k]] == Overwritten(m, keys + {k}, f)
  {
  }

  lemma OverwriteAll<K, V>(m: map<K, V>, f: map<K, V>)
    ensures Overwritten(m, f.Keys, f) == m + f
  {
  }

  lemma {:induction false} SmallerSubset<T>(s: set<T>, t: set<T>)
    requires s <= t
    ensures |s| <= |t|
  {
    if s != {} {
      var x :| x in s;
      SmallerSubset(s - {x}, t - {x});
    }
  }

  lemma Associates<T>(a: seq<T>, b: seq<T>, c: seq<T>)
    ensures a + (b + c) == a + b + c
  {
  }

  lemma Recombined<T>(a: seq<T>, s: seq<T>, n: nat)
    requires n <= |s|
    ensures a + s == a + s[..n] + s[n..]
  {
  }

  // ---- equality of maps keyed by int, one key at a time ----------------------------------------

  lemma Outside<T>(s: set<T>, t: set<T>) returns (x: T)
    requires !(s <= t)
    ensures x in s && x !in t
  {
    x :| x in s && x !in t;
  }

  lemma Differing<K, V>(m: map<K, V>, n: map<K, V>) returns (k: K)
    requires m.Keys == n.Keys && m != n
    ensures k in m && m[k] != n[k]
  {
    k :| k in m && m[k] != n[k];
  }

  lemma Subset(s: set<int>, t: set<int>)
    requires forall k: int :: k in s ==> k in t
    ensures s <= t
  {
    if !(s <= t) {
      var x := Outside(s, t);
    }
  }

  lemma MapsAgree<V>(m: map<int, V>, n: map<int, V>)
    requires forall k: int :: k in m <==> k in n
    requires forall k: int :: k in m ==> m[k] == n[k]
    ensures m == n
  {
    Subset(m.Keys, n.Keys);
    Subset(n.Keys, m.Keys);
    if m != n {
      var k := Differing(m, n);
    }
  }
}
