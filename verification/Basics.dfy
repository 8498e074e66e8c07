/** Small shared vocabulary: optional values and bytes. */
module Basics {
  datatype Option<+T> = None | Some(value: T)

  type Byte = b: int | 0 <= b < 256

  /** Whether `s` ends with `t`. */
  predicate EndsWith<T(==)>(s: seq<T>, t: seq<T>) {
    |t| <= |s| && s[|s| - |t|..] == t
  }

  /** A loop over a set that has not seen all of it has an element left to see. */
  lemma SomethingLeft<T>(all: set<T>, seen: set<T>) returns (x: T)
    requires seen <= all && seen != all
    ensures x in all && x !in seen
  {
    assert !(all <= seen);
    x :| x in all && x !in seen;
  }

  lemma OneKeyMore<K, V>(m: map<K, V>, k: K, v: V)
    requires k !in m
    ensures m[k := v].Keys == m.Keys + {k} && |m[k := v]| == |m| + 1
  {
  }

  lemma SliceOfRest<T>(s: seq<T>, i: nat, j: nat, k: nat)
    requires j <= k && i + k <= |s|
    ensures s[i..][j..k] == s[i + j..i + k]
  {
  }

  lemma Associative<T>(a: seq<T>, b: seq<T>, c: seq<T>)
    ensures a + b + c == a + (b + c)
  {
  }

  /** Two sequences that agree as a concatenation and in the length of their first parts agree in both parts. */
  lemma SplitEqual<T>(a: seq<T>, b: seq<T>, c: seq<T>, d: seq<T>)
    requires a + b == c + d
    requires |a| == |c| || |b| == |d|
    ensures a == c && b == d
  {
    assert |a| + |b| == |c| + |d|;
    assert a == (a + b)[..|a|] && c == (c + d)[..|c|];
    assert b == (a + b)[|a|..] && d == (c + d)[|c|..];
  }
}
