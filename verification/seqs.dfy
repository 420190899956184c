/** The array operations the pages use on their local lists: `splice(i, 1)` and `filter`. */
module Seqs {

  /** The position `Array.prototype.splice(start, 1)` acts on in a list of length `len`:
      a negative start counts from the end, and both ends are clamped. */
  function SpliceStart(len: nat, start: int): (k: nat)
    ensures k <= len
  {
    if start < 0 then (if len + start < 0 then 0 else len + start)
    else if start < len then start
    else len
  }

  /** `copy.splice(start, 1)` applied to a copy of `s`: removes at most one element. */
  function RemoveAt<T>(s: seq<T>, start: int): (r: seq<T>)
    ensures 0 <= start < |s| ==> |r| == |s| - 1
    ensures 0 <= start < |s| ==> forall j :: 0 <= j < start ==> r[j] == s[j]
    ensures 0 <= start < |s| ==> forall j :: start <= j < |r| ==> r[j] == s[j + 1]
    ensures start >= |s| ==> r == s
    ensures start < 0 && |s| > 0 ==> |r| == |s| - 1
    ensures start < 0 && |s| > 0 ==> forall j :: 0 <= j < |r| ==>
      r[j] == if j < SpliceStart(|s|, start) then s[j] else s[j + 1]
  {
    var k := SpliceStart(|s|, start);
    if k < |s| then s[..k] + s[k + 1..] else s
  }

  /** Pairs the elements of two lists of equal length, position by position. */
  function Zip<A, B>(a: seq<A>, b: seq<B>): (r: seq<(A, B)>)
    requires |a| == |b|
    ensures |r| == |a|
  {
    seq(|a|, i requires 0 <= i < |a| => (a[i], b[i]))
  }

  /** Removing the same position from two parallel lists keeps them parallel:
      the pairs that survive are exactly the pairs of the zipped list that survive. */
  lemma RemoveAtLockStep<A, B>(a: seq<A>, b: seq<B>, start: int)
    requires |a| == |b|
    ensures |RemoveAt(a, start)| == |RemoveAt(b, start)|
    ensures Zip(RemoveAt(a, start), RemoveAt(b, start)) == RemoveAt(Zip(a, b), start)
  {
    var k := SpliceStart(|a|, start);
    if k < |a| {
      var z := Zip(a, b);
      var lhs := Zip(RemoveAt(a, start), RemoveAt(b, start));
      var rhs := RemoveAt(z, start);
      assert |lhs| == |rhs|;
      forall j | 0 <= j < |lhs| ensures lhs[j] == rhs[j] {
        if j < k {
          assert rhs[j] == z[j];
        } else {
          assert rhs[j] == z[j + 1];
        }
      }
    }
  }

  /** `r` is `s` with some elements left out, the rest in their original order. */
  predicate IsSubsequence<T(==)>(r: seq<T>, s: seq<T>)
  {
    if |r| == 0 then true
    else if |s| == 0 then false
    else if r[0] == s[0] then IsSubsequence(r[1..], s[1..])
    else IsSubsequence(r, s[1..])
  }

  /** `s.filter(p)`. */
  function Filter<T(==,!new)>(s: seq<T>, p: T -> bool): (r: seq<T>)
    ensures forall k :: 0 <= k < |r| ==> p(r[k])
    ensures forall x :: multiset(r)[x] == if p(x) then multiset(s)[x] else 0
    ensures IsSubsequence(r, s)
  {
    if |s| == 0 then []
    else
      var rest := Filter(s[1..], p);
      assert s == [s[0]] + s[1..];
      assert multiset(s) == multiset{s[0]} + multiset(s[1..]);
      if p(s[0]) then
        var r := [s[0]] + rest;
        assert r[1..] == rest;
        r
      else
        rest
  }

  /** A filtered element comes from the list and passes the test; every element that
      passes the test is kept. */
  lemma FilterMembership<T(!new)>(s: seq<T>, p: T -> bool, x: T)
    ensures x in Filter(s, p) <==> x in s && p(x)
  {
    assert x in Filter(s, p) <==> multiset(Filter(s, p))[x] > 0;
    assert x in s <==> multiset(s)[x] > 0;
  }

  /** Filtering with a test every element passes keeps the sequence as it is. */
  lemma {:induction false} FilterAll<T(!new)>(s: seq<T>, p: T -> bool)
    requires forall k :: 0 <= k < |s| ==> p(s[k])
    ensures Filter(s, p) == s
  {
    if |s| > 0 {
      FilterAll(s[1..], p);
      assert s == [s[0]] + s[1..];
    }
  }

  /** Two tests that agree on every element filter alike. */
  lemma {:induction false} FilterExtensional<T(!new)>(s: seq<T>, p: T -> bool, q: T -> bool)
    requires forall x :: p(x) == q(x)
    ensures Filter(s, p) == Filter(s, q)
  {
    if |s| > 0 {
      FilterExtensional(s[1..], p, q);
    }
  }
}
