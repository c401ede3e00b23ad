/** Deterministic jitter for the map markers: `applyJitter` adds uniform noise in
    [-amount, amount) to every present coordinate using `mulberry32`, and
    `computeJitterAmount` scales that amount to the spacing of the coordinates
    (`medianPosDiff`). Arithmetic is over `real`; IEEE-754 rounding is not modelled. */
module Jitter {
  import opened Seqs
  import opened Prng

  /** A JavaScript value in a coordinate array: `null`, `NaN`, an infinity or a finite number. */
  datatype Num = Null | NaN | Infinite(negative: bool) | Finite(value: real)

  /** `v == null || isNaN(v)` is false: the value is shifted and consumes one draw. */
  predicate TakesDraw(v: Num) { !(v.Null? || v.NaN?) }

  /** `v + (r * 2 - 1) * amount`; an infinity stays the same infinity. */
  function Shift(v: Num, r: real, amount: real): (w: Num)
    requires TakesDraw(v) && 0.0 <= r < 1.0
    ensures v.Infinite? ==> w == v
    ensures v.Finite? ==> w.Finite? && v.value - RealAbs(amount) <= w.value <= v.value + RealAbs(amount)
  {
    NoiseBound(r, amount);
    match v
    case Finite(x) => Finite(x + (r * 2.0 - 1.0) * amount)
    case Infinite(neg) => Infinite(neg)
  }

  /** `values.map(...)` with the generator in state `state` before the first call. */
  function JitterFrom(values: seq<Num>, amount: real, state: Word): (r: seq<Num>)
    ensures |r| == |values|
  {
    if values == [] then []
    else if TakesDraw(values[0]) then
      var next := Advance(state);
      [Shift(values[0], Output(next), amount)] + JitterFrom(values[1..], amount, next)
    else [values[0]] + JitterFrom(values[1..], amount, state)
  }

  lemma NoiseBound(r: real, amount: real)
    requires 0.0 <= r < 1.0
    ensures -RealAbs(amount) <= (r * 2.0 - 1.0) * amount <= RealAbs(amount)
  {
    var u := r * 2.0 - 1.0;
    if amount >= 0.0 {
      ScaledUnit(u, amount);
    } else {
      ScaledUnit(u, -amount);
      assert u * amount == -(u * -amount);
    }
  }

  lemma ScaledUnit(u: real, a: real)
    requires -1.0 <= u <= 1.0 && 0.0 <= a
    ensures -a <= u * a <= a
  {
    NonNegativeProduct(1.0 - u, a);
    NonNegativeProduct(1.0 + u, a);
  }

  lemma NonNegativeProduct(x: real, y: real)
    requires x >= 0.0 && y >= 0.0
    ensures x * y >= 0.0
  {
  }

  /** `applyJitter(values, amount, seed)`. */
  function Jittered(values: seq<Num>, amount: real, seed: int): seq<Num>
  {
    JitterFrom(values, amount, ToUint32(seed))
  }

  /** The number of generator calls made before position `i`. */
  function DrawsBefore(values: seq<Num>, i: nat): nat
    requires i <= |values|
  {
    Count(values[..i], TakesDraw)
  }

  /** Calls are made one per shifted entry, in order: the entry at position `i` is
      shifted by the value of call number `k + 1`, where `k` entries before it were
      shifted; the other entries are copied. */
  lemma JitterFromAt(values: seq<Num>, amount: real, state: Word, i: nat)
    requires i < |values|
    ensures !TakesDraw(values[i]) ==> JitterFrom(values, amount, state)[i] == values[i]
    ensures TakesDraw(values[i]) ==> (JitterFrom(values, amount, state)[i]
         == Shift(values[i], Output(StateAfter(state, DrawsBefore(values, i) + 1)), amount))
  {
    if TakesDraw(values[i]) {
      JitterFromShifted(values, amount, state, i);
    } else {
      JitterFromKept(values, amount, state, i);
    }
  }

  lemma {:induction false} JitterFromKept(values: seq<Num>, amount: real, state: Word, i: nat)
    requires i < |values| && !TakesDraw(values[i])
    ensures JitterFrom(values, amount, state)[i] == values[i]
  {
    if i > 0 {
      JitterFromStep(values, amount, state, i);
      JitterFromKept(values[1..], amount, if TakesDraw(values[0]) then Advance(state) else state, i - 1);
    }
  }

  lemma {:induction false} JitterFromShifted(values: seq<Num>, amount: real, state: Word, i: nat)
    requires i < |values| && TakesDraw(values[i])
    ensures JitterFrom(values, amount, state)[i]
         == Shift(values[i], Output(StateAfter(state, DrawsBefore(values, i) + 1)), amount)
  {
    if i > 0 {
      var advanced := TakesDraw(values[0]);
      var next := if advanced then Advance(state) else state;
      JitterFromStep(values, amount, state, i);
      JitterFromShifted(values[1..], amount, next, i - 1);
      DrawsBeforeStep(values, i);
      StateAfterShift(state, DrawsBefore(values[1..], i - 1) + 1, advanced);
    }
  }

  lemma JitterFromStep(values: seq<Num>, amount: real, state: Word, i: nat)
    requires 0 < i < |values|
    ensures JitterFrom(values, amount, state)[i]
         == JitterFrom(values[1..], amount, if TakesDraw(values[0]) then Advance(state) else state)[i - 1]
  {
  }

  lemma DrawsBeforeStep(values: seq<Num>, i: nat)
    requires 0 < i <= |values|
    ensures DrawsBefore(values, i) == (if TakesDraw(values[0]) then 1 else 0) + DrawsBefore(values[1..], i - 1)
  {
    assert values[..i][1..] == values[1..][..i - 1];
  }

  lemma {:induction false} StateAfterShift(state: Word, k: nat, advanced: bool)
    ensures StateAfter(if advanced then Advance(state) else state, k)
         == StateAfter(state, if advanced then k + 1 else k)
  {
    if advanced && k > 0 {
      StateAfterShift(state, k - 1, advanced);
    }
  }

  /** The jitter of a seed-determined generator: a `null` or `NaN` passes through;
      any other entry is shifted by `r * 2 - 1` times `amount`, where `r` is the
      generator's value number `k + 1` and `k` entries before it were shifted, so a
      finite value moves by at most `|amount|` and an infinity stays put. */
  lemma JitteredAt(values: seq<Num>, amount: real, seed: int, i: nat)
    requires i < |values|
    ensures var r := Jittered(values, amount, seed);
      && |r| == |values|
      && (!TakesDraw(values[i]) ==> r[i] == values[i])
      && (TakesDraw(values[i]) ==>
            r[i] == Shift(values[i], Output(StateAfter(ToUint32(seed), DrawsBefore(values, i) + 1)), amount))
      && (values[i].Infinite? ==> r[i] == values[i])
      && (values[i].Finite? ==> (r[i].Finite?
            && values[i].value - RealAbs(amount) <= r[i].value <= values[i].value + RealAbs(amount)))
  {
    JitterFromAt(values, amount, ToUint32(seed), i);
  }

  /** `applyJitter`: one generator, one call per present value, in array order. */
  method ApplyJitter(values: seq<Num>, amount: real, seed: int) returns (out: seq<Num>)
    ensures out == Jittered(values, amount, seed)
  {
    var rng := new Mulberry32(ToUint32(seed));
    ghost var target := Jittered(values, amount, seed);
    out := [];
    var i := 0;
    assert values[0..] == values;
    while i < |values|
      invariant 0 <= i <= |values|
      invariant out + JitterFrom(values[i..], amount, rng.s) == target
    {
      var v := values[i];
      JitterStep(values, i, amount, rng.s, out, target);
      if v == Null || v == NaN {
        out := out + [v];
      } else {
        var r := rng.Next();
        out := out + [Shift(v, r, amount)];
      }
      i := i + 1;
    }
  }

  /** One turn of the loop of `applyJitter`: the entry at `i` is appended, shifted
      by the next draw when it takes one, and the rest follows from the new state. */
  lemma JitterStep(values: seq<Num>, i: nat, amount: real, state: Word, out: seq<Num>, target: seq<Num>)
    requires i < |values| && out + JitterFrom(values[i..], amount, state) == target
    ensures TakesDraw(values[i]) ==>
      out + [Shift(values[i], Output(Advance(state)), amount)] + JitterFrom(values[i + 1..], amount, Advance(state)) == target
    ensures !TakesDraw(values[i]) ==> out + [values[i]] + JitterFrom(values[i + 1..], amount, state) == target
  {
    assert values[i..] == [values[i]] + values[i + 1..];
    JitterFromCons(values[i], values[i + 1..], amount, state);
  }

  /** The first entry, then the rest with the generator advanced when the first
      entry took a draw. */
  lemma JitterFromCons(v: Num, rest: seq<Num>, amount: real, state: Word)
    ensures JitterFrom([v] + rest, amount, state)
         == if TakesDraw(v) then [Shift(v, Output(Advance(state)), amount)] + JitterFrom(rest, amount, Advance(state))
            else [v] + JitterFrom(rest, amount, state)
  {
    assert ([v] + rest)[1..] == rest;
  }

  // ---------------------------------------------------------------------------
  // medianPosDiff

  predicate StrictlyIncreasing(s: seq<real>)
  {
    forall i, j :: 0 <= i < j < |s| ==> s[i] < s[j]
  }

  predicate Ascending(s: seq<real>)
  {
    forall i, j :: 0 <= i < j < |s| ==> s[i] <= s[j]
  }

  /** `arr.filter(v => v != null && isFinite(v))`, as numbers. */
  function FiniteValues(arr: seq<Num>): seq<real>
  {
    if arr == [] then []
    else (if arr[0].Finite? then [arr[0].value] else []) + FiniteValues(arr[1..])
  }

  /** The finite values are exactly the numbers of the `Finite` entries. */
  lemma {:induction false} FiniteValuesSpec(arr: seq<Num>)
    ensures forall x :: x in FiniteValues(arr) <==> Finite(x) in arr
  {
    if arr != [] {
      FiniteValuesSpec(arr[1..]);
      assert forall v :: v in arr <==> v == arr[0] || v in arr[1..];
    }
  }

  /** Adds `x` to an ascending list of distinct values unless it is already there. */
  function InsertDistinct(x: real, s: seq<real>): seq<real>
  {
    if s == [] then [x]
    else if x < s[0] then [x] + s
    else if x == s[0] then s
    else [s[0]] + InsertDistinct(x, s[1..])
  }

  lemma ConsIncreasing(h: real, t: seq<real>)
    requires StrictlyIncreasing(t)
    requires forall k :: 0 <= k < |t| ==> h < t[k]
    ensures StrictlyIncreasing([h] + t)
  {
    var r := [h] + t;
    forall i, j | 0 <= i < j < |r|
      ensures r[i] < r[j]
    {
      assert r[j] == t[j - 1];
      if i > 0 {
        assert r[i] == t[i - 1];
      }
    }
  }

  lemma {:induction false} InsertDistinctMembers(x: real, s: seq<real>)
    ensures forall y :: y in InsertDistinct(x, s) <==> y == x || y in s
  {
    if s != [] && x > s[0] {
      InsertDistinctMembers(x, s[1..]);
      assert s == [s[0]] + s[1..];
      assert InsertDistinct(x, s) == [s[0]] + InsertDistinct(x, s[1..]);
    }
  }

  /** A strict lower bound of a strictly increasing list and of `x` bounds every
      element of a list made of them. */
  lemma StrictBoundKept(h: real, tail: seq<real>, x: real, t: seq<real>)
    requires StrictlyIncreasing([h] + tail) && h < x
    requires forall y :: y in t ==> y == x || y in tail
    ensures forall k :: 0 <= k < |t| ==> h < t[k]
  {
    forall k | 0 <= k < |t|
      ensures h < t[k]
    {
      assert t[k] in t;
      if t[k] != x {
        var m :| 0 <= m < |tail| && tail[m] == t[k];
        assert ([h] + tail)[0] == h && ([h] + tail)[m + 1] == tail[m];
      }
    }
  }

  lemma {:induction false} InsertDistinctSpec(x: real, s: seq<real>)
    requires StrictlyIncreasing(s)
    ensures StrictlyIncreasing(InsertDistinct(x, s))
    ensures forall y :: y in InsertDistinct(x, s) <==> y == x || y in s
  {
    InsertDistinctMembers(x, s);
    if s == [] {
    } else if x < s[0] {
      forall k | 0 <= k < |s|
        ensures x < s[k]
      {
        assert s[0] <= s[k];
      }
      ConsIncreasing(x, s);
    } else if x > s[0] {
      var tail := s[1..];
      assert StrictlyIncreasing(tail);
      var t := InsertDistinct(x, tail);
      InsertDistinctSpec(x, tail);
      assert s == [s[0]] + tail;
      StrictBoundKept(s[0], tail, x, t);
      ConsIncreasing(s[0], t);
    }
  }

  /** `[...new Set(xs)].sort((a, b) => a - b)`: the distinct values, ascending. */
  function SortDistinct(xs: seq<real>): seq<real>
  {
    if xs == [] then [] else InsertDistinct(xs[|xs| - 1], SortDistinct(xs[..|xs| - 1]))
  }

  lemma {:induction false} SortDistinctSpec(xs: seq<real>)
    ensures StrictlyIncreasing(SortDistinct(xs))
    ensures forall y :: y in SortDistinct(xs) <==> y in xs
  {
    if xs != [] {
      var init := xs[..|xs| - 1];
      SortDistinctSpec(init);
      InsertDistinctSpec(xs[|xs| - 1], SortDistinct(init));
      assert forall y :: y in xs <==> y == xs[|xs| - 1] || y in init by {
        assert xs == init + [xs[|xs| - 1]];
      }
    }
  }

  /** A strictly increasing list has as many elements as distinct values. */
  lemma {:induction false} DistinctCard(s: seq<real>)
    requires StrictlyIncreasing(s)
    ensures |set x | x in s| == |s|
  {
    if s != [] {
      DistinctCard(s[1..]);
      assert (set x | x in s) == {s[0]} + (set x | x in s[1..]) by {
        assert forall x :: x in s <==> x == s[0] || x in s[1..];
      }
      assert s[0] !in s[1..];
    }
  }

  /** The loop `for (i = 1; i < n; i++) { d = s[i] - s[i-1]; if (d > 0) diffs.push(d); }`. */
  function PositiveGaps(s: seq<real>): (r: seq<real>)
    ensures forall i :: 0 <= i < |r| ==> r[i] > 0.0
  {
    if |s| < 2 then []
    else
      var d := s[|s| - 1] - s[|s| - 2];
      PositiveGaps(s[..|s| - 1]) + (if d > 0.0 then [d] else [])
  }

  /** Over strictly increasing values every consecutive difference is positive,
      so there is one gap per neighbouring pair, each the difference of the pair. */
  lemma {:induction false} PositiveGapsSpec(s: seq<real>)
    requires StrictlyIncreasing(s) && |s| >= 1
    ensures |PositiveGaps(s)| == |s| - 1
    ensures forall i :: 0 <= i < |s| - 1 ==> PositiveGaps(s)[i] == s[i + 1] - s[i]
  {
    if |s| >= 2 {
      var init := s[..|s| - 1];
      assert StrictlyIncreasing(init);
      PositiveGapsSpec(init);
    }
  }

  /** Inserts `x` into a list after the leading elements not greater than it. */
  function InsertAscending(x: real, s: seq<real>): (r: seq<real>)
    ensures |r| == |s| + 1
  {
    if s == [] then [x]
    else if x < s[0] then [x] + s
    else [s[0]] + InsertAscending(x, s[1..])
  }

  lemma ConsAscending(h: real, t: seq<real>)
    requires Ascending(t)
    requires forall k :: 0 <= k < |t| ==> h <= t[k]
    ensures Ascending([h] + t)
  {
    var r := [h] + t;
    forall i, j | 0 <= i < j < |r|
      ensures r[i] <= r[j]
    {
      assert r[j] == t[j - 1];
      if i > 0 {
        assert r[i] == t[i - 1];
      }
    }
  }

  lemma {:induction false} InsertAscendingPerm(x: real, s: seq<real>)
    ensures multiset(InsertAscending(x, s)) == multiset(s) + multiset{x}
  {
    if s != [] && x >= s[0] {
      InsertAscendingPerm(x, s[1..]);
      assert s == [s[0]] + s[1..];
      assert InsertAscending(x, s) == [s[0]] + InsertAscending(x, s[1..]);
    }
  }

  lemma {:induction false} InsertAscendingSpec(x: real, s: seq<real>)
    requires Ascending(s)
    ensures Ascending(InsertAscending(x, s))
    ensures multiset(InsertAscending(x, s)) == multiset(s) + multiset{x}
  {
    InsertAscendingPerm(x, s);
    if s == [] {
    } else if x < s[0] {
      forall k | 0 <= k < |s|
        ensures x <= s[k]
      {
        assert s[0] <= s[k];
      }
      ConsAscending(x, s);
    } else {
      var tail := s[1..];
      assert Ascending(tail);
      var t := InsertAscending(x, tail);
      InsertAscendingSpec(x, tail);
      assert s == [s[0]] + tail;
      LowerBoundKept(s[0], tail, x, t);
      ConsAscending(s[0], t);
    }
  }

  /** A lower bound of a list and of `x` bounds any rearrangement of the list plus `x`. */
  lemma LowerBoundKept(h: real, tail: seq<real>, x: real, t: seq<real>)
    requires Ascending([h] + tail) && h <= x
    requires multiset(t) == multiset(tail) + multiset{x}
    ensures forall k :: 0 <= k < |t| ==> h <= t[k]
  {
    forall k | 0 <= k < |t|
      ensures h <= t[k]
    {
      assert t[k] in multiset(t);
      if t[k] != x {
        assert t[k] in multiset(tail);
        var m :| 0 <= m < |tail| && tail[m] == t[k];
        assert ([h] + tail)[0] == h && ([h] + tail)[m + 1] == tail[m];
      }
    }
  }

  /** `diffs.sort((a, b) => a - b)`. */
  function SortAscending(s: seq<real>): (r: seq<real>)
    ensures |r| == |s|
  {
    if s == [] then [] else InsertAscending(s[|s| - 1], SortAscending(s[..|s| - 1]))
  }

  lemma {:induction false} SortAscendingSpec(s: seq<real>)
    ensures Ascending(SortAscending(s))
    ensures multiset(SortAscending(s)) == multiset(s)
  {
    if s != [] {
      var init := s[..|s| - 1];
      SortAscendingSpec(init);
      InsertAscendingSpec(s[|s| - 1], SortAscending(init));
      assert s == init + [s[|s| - 1]];
    }
  }

  /** The middle element of an odd count, the mean of the middle two of an even count. */
  function Median(s: seq<real>): real
    requires |s| >= 1
  {
    var k := |s| / 2;
    if |s| % 2 == 1 then s[k] else (s[k - 1] + s[k]) / 2.0
  }

  /** The median of an ascending list lies between its first and last elements. */
  lemma MedianBounds(s: seq<real>)
    requires |s| >= 1 && Ascending(s)
    ensures s[0] <= Median(s) <= s[|s| - 1]
  {
  }

  /** The positive differences between consecutive distinct finite values. */
  function Gaps(arr: seq<Num>): seq<real>
  {
    PositiveGaps(SortDistinct(FiniteValues(arr)))
  }

  /** `medianPosDiff(arr)`, with `None` standing for `NaN`. */
  function MedianGap(arr: seq<Num>): (r: Option<real>)
    ensures r.Some? ==> r.value > 0.0
  {
    var sorted := SortDistinct(FiniteValues(arr));
    var diffs := PositiveGaps(sorted);
    if |sorted| < 2 || |diffs| == 0 then None
    else
      var ordered := SortAscending(diffs);
      SortAscendingSpec(diffs);
      MedianBounds(ordered);
      assert ordered[0] in multiset(diffs);
      Some(Median(ordered))
  }

  /** Sorting out the duplicates leaves one element per distinct value. */
  lemma DistinctCount(xs: seq<real>)
    ensures |SortDistinct(xs)| == |set x | x in xs|
  {
    var sorted := SortDistinct(xs);
    SortDistinctSpec(xs);
    var a := set x | x in xs;
    var b := set x | x in sorted;
    assert forall x :: x in a <==> x in b;
    assert a == b;
    DistinctCard(sorted);
  }

  /** The spacing is defined exactly when at least two distinct finite values exist,
      and then lies between the smallest and the largest gap between neighbouring
      distinct values. */
  lemma MedianGapSpec(arr: seq<Num>)
    ensures MedianGap(arr).None? <==> |set x | x in FiniteValues(arr)| < 2
    ensures MedianGap(arr).Some? ==> exists i :: 0 <= i < |Gaps(arr)| && Gaps(arr)[i] <= MedianGap(arr).value
    ensures MedianGap(arr).Some? ==> exists i :: 0 <= i < |Gaps(arr)| && Gaps(arr)[i] >= MedianGap(arr).value
  {
    var sorted := SortDistinct(FiniteValues(arr));
    DistinctCount(FiniteValues(arr));
    SortDistinctSpec(FiniteValues(arr));
    var diffs := PositiveGaps(sorted);
    if |sorted| >= 2 {
      PositiveGapsSpec(sorted);
      var ordered := SortAscending(diffs);
      SortAscendingSpec(diffs);
      MedianBounds(ordered);
      assert ordered[0] in multiset(diffs) && ordered[|ordered| - 1] in multiset(diffs);
      var lo :| 0 <= lo < |diffs| && diffs[lo] == ordered[0];
      var hi :| 0 <= hi < |diffs| && diffs[hi] == ordered[|ordered| - 1];
      assert diffs == Gaps(arr);
    }
  }

  /** The loop of `medianPosDiff` over consecutive values, keeping the positive differences. */
  method CollectGaps(sorted: seq<real>) returns (diffs: seq<real>)
    requires |sorted| >= 1
    ensures diffs == PositiveGaps(sorted)
  {
    diffs := [];
    var i := 1;
    while i < |sorted|
      invariant 1 <= i <= |sorted|
      invariant diffs == PositiveGaps(sorted[..i])
    {
      var d := sorted[i] - sorted[i - 1];
      assert sorted[..i + 1][..i] == sorted[..i];
      if d > 0.0 {
        diffs := diffs + [d];
      }
      i := i + 1;
    }
    assert sorted[..i] == sorted;
  }

  /** `medianPosDiff`: dedupe and sort, collect the positive consecutive differences
      in a loop, sort them and take their median. */
  method MedianPosDiff(arr: seq<Num>) returns (r: Option<real>)
    ensures r == MedianGap(arr)
  {
    var sorted := SortDistinct(FiniteValues(arr));
    if |sorted| < 2 {
      return None;
    }
    var diffs := CollectGaps(sorted);
    diffs := SortAscending(diffs);
    var m := |diffs| / 2;
    r := if |diffs| == 0 then None
         else if |diffs| % 2 == 1 then Some(diffs[m])
         else Some((diffs[m - 1] + diffs[m]) / 2.0);
  }

  // ---------------------------------------------------------------------------
  // computeJitterAmount

  /** The jitter unit when no spacing is usable. */
  const FALLBACK_BASE := 0.00001

  /** `[stepLon, stepLat].filter(v => isFinite(v) && v > 0)`, then their maximum or 1e-5. */
  function BaseUnit(stepLon: Option<real>, stepLat: Option<real>): (b: real)
    ensures b > 0.0
    ensures stepLon.Some? && stepLon.value > 0.0 ==> b >= stepLon.value
    ensures stepLat.Some? && stepLat.value > 0.0 ==> b >= stepLat.value
    ensures (stepLon.Some? && stepLon.value > 0.0) || (stepLat.Some? && stepLat.value > 0.0) ==>
      (stepLon.Some? && stepLon.value > 0.0 && b == stepLon.value) || (stepLat.Some? && stepLat.value > 0.0 && b == stepLat.value)
    ensures !(stepLon.Some? && stepLon.value > 0.0) && !(stepLat.Some? && stepLat.value > 0.0) ==> b == FALLBACK_BASE
  {
    var lonOk := stepLon.Some? && stepLon.value > 0.0;
    var latOk := stepLat.Some? && stepLat.value > 0.0;
    if lonOk && latOk then (if stepLon.value < stepLat.value then stepLat.value else stepLon.value)
    else if lonOk then stepLon.value
    else if latOk then stepLat.value
    else FALLBACK_BASE
  }

  /** The jitter amount for slider position `steps` and spacing unit `base`:
      a tenth of `base` per step. */
  function Scaled(steps: real, base: real): (amount: real)
    requires base > 0.0
    ensures steps == 0.0 <==> amount == 0.0
    ensures steps > 0.0 ==> amount > 0.0
    ensures steps < 0.0 ==> amount < 0.0
  {
    (steps / 10.0) * base
  }

  /** `computeJitterAmount`, with the slider position `steps` and the coordinate
      columns of the filtered rows as parameters. */
  method ComputeJitterAmount(steps: real, lats: seq<Num>, lons: seq<Num>) returns (amount: real)
    ensures amount == Scaled(steps, BaseUnit(MedianGap(lons), MedianGap(lats)))
  {
    if steps == 0.0 {
      return 0.0;
    }
    var stepLon := MedianPosDiff(lons);
    var stepLat := MedianPosDiff(lats);
    amount := Scaled(steps, BaseUnit(stepLon, stepLat));
  }
}
