/** What several models need. */
module Basics {

  datatype Option<T> = None | Some(value: T)

  function Min(a: int, b: int): int { if a < b then a else b }

  function Max(a: int, b: int): int { if a < b then b else a }

  function Zeros(n: nat): (z: seq<int>)
    ensures |z| == n && forall i :: 0 <= i < n ==> z[i] == 0
  {
    seq(n, i => 0)
  }

  /** list_del of the first x. */
  function Del(s: seq<nat>, x: nat): (r: seq<nat>)
    ensures |r| == if x in s then |s| - 1 else |s|
    ensures x !in s ==> r == s
  {
    if s == [] then [] else if s[0] == x then s[1..] else [s[0]] + Del(s[1..], x)
  }

  function RemoveAt<T>(s: seq<T>, k: nat): (r: seq<T>)
    requires k < |s|
    ensures |r| == |s| - 1
  {
    s[..k] + s[k + 1..]
  }

  /** `a` is `b` with some elements left out; p says where each one stands. */
  ghost predicate Picks<T>(p: seq<nat>, a: seq<T>, b: seq<T>) {
    && |p| == |a| && (forall i :: 0 <= i < |p| ==> p[i] < |b| && b[p[i]] == a[i])
    && (forall i, j :: 0 <= i < j < |p| ==> p[i] < p[j])
  }

  ghost predicate Subseq<T>(a: seq<T>, b: seq<T>) {
    exists p: seq<nat> :: Picks(p, a, b)
  }

  lemma SubseqSelf<T>(a: seq<T>)
    ensures Subseq(a, a)
  {
    var p: seq<nat> := seq(|a|, i => i);
    assert Picks(p, a, a);
  }

  lemma SubseqMore<T>(a: seq<T>, b: seq<T>, x: T)
    requires Subseq(a, b)
    ensures Subseq(a, b + [x]) && Subseq(a + [x], b + [x])
  {
    var p: seq<nat> :| Picks(p, a, b);
    assert Picks(p, a, b + [x]) && Picks(p + [|b|], a + [x], b + [x]);
  }

  lemma SubseqLess<T>(a: seq<T>, b: seq<T>, k: nat)
    requires Subseq(a, b) && k < |a|
    ensures Subseq(RemoveAt(a, k), b)
  {
    var p: seq<nat> :| Picks(p, a, b);
    var a', p' := RemoveAt(a, k), RemoveAt(p, k);
    forall i | 0 <= i < |p'| ensures p'[i] == p[if i < k then i else i + 1] && a'[i] == a[if i < k then i else i + 1] { }
    assert Picks(p', a', b);
  }

  lemma SubseqCons<T>(a: seq<T>, b: seq<T>, x: T, taken: bool)
    requires Subseq(a, b)
    ensures Subseq(if taken then [x] + a else a, [x] + b)
  {
    var p: seq<nat> :| Picks(p, a, b);
    var p': seq<nat> := seq(|p|, i requires 0 <= i < |p| => p[i] + 1);
    assert Picks(p', a, [x] + b) && Picks([0] + p', [x] + a, [x] + b);
  }
}
