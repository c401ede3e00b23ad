/** Generic helpers over sequences shared by every component of the dashboard:
    an Option type for JavaScript's null, order-preserving filtering and counting. */
module Seqs {

  datatype Option<+T> = None | Some(value: T) {
    /** JavaScript's `x ?? d`: the value when present, the default otherwise. */
    function GetOr(default: T): T {
      match this
      case Some(v) => v
      case None => default
    }
  }

  function Max(a: int, b: int): int { if a < b then b else a }
  function Min(a: int, b: int): int { if a < b then a else b }
  function Abs(a: int): nat { if a < 0 then -a else a }
  function RealAbs(a: real): real { if a < 0.0 then -a else a }

  /** `Array.prototype.filter`: the elements satisfying `p`, in their original order. */
  function Filter<T>(s: seq<T>, p: T -> bool): (r: seq<T>)
    ensures |r| <= |s|
    ensures forall i :: 0 <= i < |r| ==> r[i] in s && p(r[i])
    ensures forall i :: 0 <= i < |s| && p(s[i]) ==> s[i] in r
  {
    if s == [] then [] else (if p(s[0]) then [s[0]] else []) + Filter(s[1..], p)
  }

  /** `Array.prototype.map`. */
  function Map<T, U>(s: seq<T>, f: T -> U): (r: seq<U>)
    ensures |r| == |s|
    ensures forall i :: 0 <= i < |s| ==> r[i] == f(s[i])
  {
    if s == [] then [] else [f(s[0])] + Map(s[1..], f)
  }

  lemma {:induction false} MapAppend<T, U>(s: seq<T>, t: seq<T>, f: T -> U)
    ensures Map(s + t, f) == Map(s, f) + Map(t, f)
  {
    if s == [] {
      assert s + t == t;
    } else {
      assert (s + t)[1..] == s[1..] + t;
      MapAppend(s[1..], t, f);
    }
  }

  /** The number of elements satisfying `p`. */
  function Count<T>(s: seq<T>, p: T -> bool): nat
  {
    if s == [] then 0 else (if p(s[0]) then 1 else 0) + Count(s[1..], p)
  }

  lemma {:induction false} CountAppend<T>(s: seq<T>, t: seq<T>, p: T -> bool)
    ensures Count(s + t, p) == Count(s, p) + Count(t, p)
  {
    if s == [] {
      assert s + t == t;
    } else {
      assert (s + t)[1..] == s[1..] + t;
      CountAppend(s[1..], t, p);
    }
  }

  /** No element is accepted: the count is zero. */
  lemma {:induction false} CountNone<T>(s: seq<T>, p: T -> bool)
    requires forall x :: x in s ==> !p(x)
    ensures Count(s, p) == 0
  {
    if s != [] {
      CountNone(s[1..], p);
    }
  }

  /** Every element is accepted: the count is the length. */
  lemma {:induction false} CountAll<T>(s: seq<T>, p: T -> bool)
    requires forall x :: x in s ==> p(x)
    ensures Count(s, p) == |s|
  {
    if s != [] {
      CountAll(s[1..], p);
    }
  }

  /** Filtering keeps exactly as many elements as the predicate accepts. */
  lemma {:induction false} FilterLength<T>(s: seq<T>, p: T -> bool)
    ensures |Filter(s, p)| == Count(s, p)
  {
    if s != [] { FilterLength(s[1..], p); }
  }

  lemma {:induction false} FilterAppend<T>(s: seq<T>, t: seq<T>, p: T -> bool)
    ensures Filter(s + t, p) == Filter(s, p) + Filter(t, p)
  {
    if s == [] {
      assert s + t == t;
    } else {
      assert (s + t)[1..] == s[1..] + t;
      FilterAppend(s[1..], t, p);
    }
  }

  /** A filter keeps every accepted element as often as it occurs and drops every
      other one. */
  lemma {:induction false} FilterMultiset<T>(s: seq<T>, p: T -> bool)
    ensures forall x :: multiset(Filter(s, p))[x] == if p(x) then multiset(s)[x] else 0
  {
    if s != [] {
      FilterMultiset(s[1..], p);
      assert s == [s[0]] + s[1..];
    }
  }

  /** Two successive filters are one filter by the conjunction: the order of the
      criteria does not affect the result. */
  lemma {:induction false} FilterFilter<T>(s: seq<T>, p: T -> bool, q: T -> bool, pq: T -> bool)
    requires forall x :: pq(x) == (p(x) && q(x))
    ensures Filter(Filter(s, p), q) == Filter(s, pq)
  {
    if s != [] {
      FilterFilter(s[1..], p, q, pq);
      var head := if p(s[0]) then [s[0]] else [];
      FilterAppend(head, Filter(s[1..], p), q);
      assert Filter(head, q) == (if pq(s[0]) then [s[0]] else []) by {
        if p(s[0]) { assert head[1..] == []; }
      }
    }
  }

  /** A filter that accepts every element returns the sequence itself. */
  lemma {:induction false} FilterAll<T>(s: seq<T>, p: T -> bool)
    requires forall i :: 0 <= i < |s| ==> p(s[i])
    ensures Filter(s, p) == s
  {
    if s != [] {
      FilterAll(s[1..], p);
    }
  }
}
