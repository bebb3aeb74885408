/** Generic sequence operations: filtering, reversal and the uniqueness
    facts that the table operations and the list helpers are built from. */
module Seqs {

  /** The elements of `s` that satisfy `p`, in their original order,
      like JavaScript's `Array.prototype.filter`. */
  function Filter<T>(s: seq<T>, p: T -> bool): (r: seq<T>)
    ensures |r| <= |s|
    ensures forall i :: 0 <= i < |r| ==> r[i] in s && p(r[i])
    ensures forall i :: 0 <= i < |s| && p(s[i]) ==> s[i] in r
  {
    if s == [] then [] else (if p(s[0]) then [s[0]] else []) + Filter(s[1..], p)
  }

  /** Filtering distributes over concatenation. */
  lemma {:induction false} FilterAppend<T>(s: seq<T>, t: seq<T>, p: T -> bool)
    ensures Filter(s + t, p) == Filter(s, p) + Filter(t, p)
  {
    if s == [] {
      assert s + t == t;
    } else {
      assert (s + t)[1..] == s[1..] + t;
      FilterAppend(s[1..], t, p);
    }
  }

  /** Filtering with a predicate no element meets gives the empty sequence. */
  lemma {:induction false} FilterNone<T>(s: seq<T>, p: T -> bool)
    requires forall i :: 0 <= i < |s| ==> !p(s[i])
    ensures Filter(s, p) == []
  {
    if s != [] {
      assert !p(s[0]);
      FilterNone(s[1..], p);
    }
  }

  /** Filtering with a predicate every element meets changes nothing. */
  lemma {:induction false} FilterAll<T>(s: seq<T>, p: T -> bool)
    requires forall i :: 0 <= i < |s| ==> p(s[i])
    ensures Filter(s, p) == s
  {
    if s != [] {
      assert p(s[0]);
      FilterAll(s[1..], p);
    }
  }

  /** Filtering by two predicates that agree on every element gives the same sequence. */
  lemma {:induction false} FilterCongruent<T>(s: seq<T>, p: T -> bool, q: T -> bool)
    requires forall i :: 0 <= i < |s| ==> p(s[i]) == q(s[i])
    ensures Filter(s, p) == Filter(s, q)
  {
    if s != [] {
      FilterCongruent(s[1..], p, q);
    }
  }

  /** What a filter keeps and what its complement keeps add up to the whole sequence. */
  lemma {:induction false} FilterComplementSize<T>(s: seq<T>, p: T -> bool, q: T -> bool)
    requires forall i :: 0 <= i < |s| ==> q(s[i]) == !p(s[i])
    ensures |Filter(s, p)| + |Filter(s, q)| == |s|
  {
    if s != [] {
      FilterComplementSize(s[1..], p, q);
    }
  }

  /** No two positions of `s` carry the same key. */
  ghost predicate Distinct<T, K>(s: seq<T>, key: T -> K)
  {
    forall i, j :: 0 <= i < j < |s| ==> key(s[i]) != key(s[j])
  }

  /** The tail of a sequence of distinct keys has distinct keys, none equal to the head's. */
  lemma DistinctTail<T, K>(s: seq<T>, key: T -> K)
    requires s != [] && Distinct(s, key)
    ensures Distinct(s[1..], key)
    ensures forall k :: 0 <= k < |s[1..]| ==> key(s[0]) != key(s[1..][k])
  {
    forall i, j | 0 <= i < j < |s[1..]| ensures key(s[1..][i]) != key(s[1..][j]) {
      assert s[1..][i] == s[i + 1] && s[1..][j] == s[j + 1];
    }
  }

  /** An element whose key no element of `r` has can be put in front of `r`. */
  lemma ConsDistinct<T, K>(x: T, r: seq<T>, key: T -> K)
    requires Distinct(r, key)
    requires forall j :: 0 <= j < |r| ==> key(x) != key(r[j])
    ensures Distinct([x] + r, key)
  {
    var xr := [x] + r;
    forall i, j | 0 <= i < j < |xr| ensures key(xr[i]) != key(xr[j]) {
      assert xr[j] == r[j - 1];
      if i > 0 {
        assert xr[i] == r[i - 1];
      }
    }
  }

  /** A filter of a sequence with distinct keys still has distinct keys. */
  lemma {:induction false} FilterDistinct<T, K>(s: seq<T>, p: T -> bool, key: T -> K)
    requires Distinct(s, key)
    ensures Distinct(Filter(s, p), key)
  {
    if s != [] {
      var tail := s[1..];
      DistinctTail(s, key);
      FilterDistinct(tail, p, key);
      var rest := Filter(tail, p);
      if p(s[0]) {
        assert Filter(s, p) == [s[0]] + rest;
        forall j | 0 <= j < |rest| ensures key(s[0]) != key(rest[j]) {
          var k :| 0 <= k < |tail| && tail[k] == rest[j];
        }
        ConsDistinct(s[0], rest, key);
      } else {
        assert Filter(s, p) == rest;
      }
    }
  }

  /** `s` read back to front. */
  function Reverse<T>(s: seq<T>): (r: seq<T>)
    ensures |r| == |s|
    ensures forall i :: 0 <= i < |s| ==> r[i] == s[|s| - 1 - i]
  {
    if s == [] then [] else Reverse(s[1..]) + [s[0]]
  }

  /** Reversing a sequence with one more element at the end puts that element first. */
  lemma ReverseSnoc<T>(s: seq<T>, x: T)
    ensures Reverse(s + [x]) == [x] + Reverse(s)
  {
    var l, r := Reverse(s + [x]), [x] + Reverse(s);
    forall i | 0 <= i < |l| ensures l[i] == r[i] {
      if i > 0 {
        assert l[i] == (s + [x])[|s| - i];
      }
    }
  }
}
