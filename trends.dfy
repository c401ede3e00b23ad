/** The monthly trends chart of `updateTrendsChart`: the filtered rows counted per
    calendar month and status label, the Fatal and Nonfatal series in month order,
    and for each series a marker trace of the counts and a line trace of their
    LOESS smoothing. */
module Trends {
  import opened Seqs
  import opened Text
  import opened Dates
  import opened Records
  import opened Filters
  import opened Loess

  /** A value of `monthMap`: the first day of a month, a status label and the
      number of rows counted for them. */
  datatype Bucket = Bucket(month: CalendarDate, status: string, count: nat)

  /** The `monthMap` key `${mo.getTime()}_${r.statuslabel}`. */
  function Key(month: CalendarDate, status: string): string
  {
    IntToString(Millis(month)) + "_" + status
  }

  lemma NoUnderscore(i: int)
    ensures '_' !in IntToString(i)
  {
    var s := IntToString(i);
    if i < 0 {
      assert forall k :: 1 <= k < |s| ==> s[k] == NatToString(-i)[k - 1];
    }
  }

  lemma NatToStringInjective(a: nat, b: nat)
    requires NatToString(a) == NatToString(b)
    ensures a == b
  {
    NatToStringRoundTrip(a);
    NatToStringRoundTrip(b);
  }

  lemma IntToStringInjective(a: int, b: int)
    requires IntToString(a) == IntToString(b)
    ensures a == b
  {
    if a < 0 {
      assert b < 0;
      var x, y := NatToString(-a), NatToString(-b);
      assert "-" + x == "-" + y;
      DropSign(x, y);
      NatToStringInjective(-a, -b);
    } else {
      NatToStringInjective(a, b);
    }
  }

  lemma DropSign(x: string, y: string)
    requires "-" + x == "-" + y
    ensures x == y
  {
    assert x == ("-" + x)[1..];
    assert y == ("-" + y)[1..];
  }

  lemma CharAt(p: string, s: string, k: nat)
    requires k <= |p|
    ensures (p + "_" + s)[k] == if k < |p| then p[k] else '_'
  {
  }

  /** Text before the first `_` and text after it determine each other. */
  lemma SplitAtUnderscore(p1: string, s1: string, p2: string, s2: string)
    requires '_' !in p1 && '_' !in p2
    requires p1 + "_" + s1 == p2 + "_" + s2
    ensures p1 == p2 && s1 == s2
  {
    var t := p1 + "_" + s1;
    var m := Min(|p1|, |p2|);
    CharAt(p1, s1, m);
    CharAt(p2, s2, m);
    assert |p1| == |p2|;
    assert p1 == t[..|p1|] == p2;
    assert s1 == t[|p1| + 1..] == s2;
  }

  /** Two month buckets share a key exactly when they have the same month and the
      same status label. */
  lemma KeyInjective(m1: CalendarDate, s1: string, m2: CalendarDate, s2: string)
    requires m1.day == 1 && m2.day == 1
    ensures Key(m1, s1) == Key(m2, s2) <==> m1 == m2 && s1 == s2
  {
    if Key(m1, s1) == Key(m2, s2) {
      NoUnderscore(Millis(m1));
      NoUnderscore(Millis(m2));
      SplitAtUnderscore(IntToString(Millis(m1)), s1, IntToString(Millis(m2)), s2);
      IntToStringInjective(Millis(m1), Millis(m2));
      DayNumberMonotonic(m1, m2);
    }
  }

  /** What a `monthMap` key encodes: a month and a status label. By `KeyInjective`
      two rows get the same text key exactly when they agree on both, so the map is
      keyed here by the pair. */
  datatype Slot = Slot(month: CalendarDate, status: string)

  /** `monthMap`: its keys in the order they were first set, which is the order in
      which `Object.values` lists them (none of the text keys is an array index),
      and the count of each key. */
  datatype MonthMap = MonthMap(keys: seq<Slot>, counts: map<Slot, nat>)

  /** Rows whose date is present: every row the filter keeps. */
  predicate Dated(rows: seq<Decorated>)
  {
    forall k :: 0 <= k < |rows| ==> rows[k].row.date.Some?
  }

  /** `floorMonth(r._date)` with the row's status label. */
  function SlotOf(r: Record): (s: Slot)
    requires r.date.Some?
    ensures s.month.day == 1
  {
    Slot(FloorMonth(r.date.value), r.status)
  }

  /** One visit of the counting `forEach`: the bucket of the row's month and status
      is created at zero when missing, then the row is counted in it. */
  function Visit(mm: MonthMap, r: Record): MonthMap
    requires r.date.Some?
  {
    var key := SlotOf(r);
    if key in mm.counts then MonthMap(mm.keys, mm.counts[key := mm.counts[key] + 1])
    else MonthMap(mm.keys + [key], mm.counts[key := 1])
  }

  /** `monthMap` after counting `rows`. */
  function MonthBuckets(rows: seq<Decorated>): MonthMap
    requires Dated(rows)
  {
    if rows == [] then MonthMap([], map[])
    else Visit(MonthBuckets(rows[..|rows| - 1]), rows[|rows| - 1].row)
  }

  /** The number of rows dated in the given month with the given status label. */
  function InBucket(rows: seq<Decorated>, key: Slot): nat
    requires Dated(rows)
  {
    if rows == [] then 0
    else InBucket(rows[..|rows| - 1], key) + (if SlotOf(rows[|rows| - 1].row) == key then 1 else 0)
  }

  /** The keys are distinct and are exactly the keys with a count; every count is
      at least one and every key is the first day of a month. */
  ghost predicate WellFormed(mm: MonthMap)
  {
    && (forall i, j :: 0 <= i < j < |mm.keys| ==> mm.keys[i] != mm.keys[j])
    && (forall key :: key in mm.counts <==> key in mm.keys)
    && (forall key :: key in mm.counts ==> mm.counts[key] >= 1 && key.month.day == 1)
  }

  /** The month map is well formed; a key is present exactly when some row has
      that month and status, and its count is the number of such rows. */
  lemma {:induction false} MonthBucketsSpec(rows: seq<Decorated>)
    requires Dated(rows)
    ensures WellFormed(MonthBuckets(rows))
    ensures forall key :: key in MonthBuckets(rows).counts <==> InBucket(rows, key) >= 1
    ensures forall key :: key in MonthBuckets(rows).counts ==> MonthBuckets(rows).counts[key] == InBucket(rows, key)
  {
    if rows != [] {
      var init := rows[..|rows| - 1];
      MonthBucketsSpec(init);
      VisitSpec(MonthBuckets(init), rows[|rows| - 1].row);
      forall key
        ensures InBucket(rows, key) == InBucket(init, key) + (if SlotOf(rows[|rows| - 1].row) == key then 1 else 0)
      {
      }
    }
  }

  /** Counting a row keeps the map well formed and adds one to its key alone. */
  lemma VisitSpec(mm: MonthMap, r: Record)
    requires WellFormed(mm) && r.date.Some?
    ensures WellFormed(Visit(mm, r))
    ensures forall key :: key in Visit(mm, r).counts <==> key in mm.counts || key == SlotOf(r)
    ensures forall key :: key in Visit(mm, r).counts ==>
      Visit(mm, r).counts[key] == (if key in mm.counts then mm.counts[key] else 0) + (if key == SlotOf(r) then 1 else 0)
  {
    if SlotOf(r) !in mm.counts {
      VisitNewKey(mm, r);
    }
  }

  /** A new key goes at the end of the key order; the old keys stay distinct from it. */
  lemma VisitNewKey(mm: MonthMap, r: Record)
    requires WellFormed(mm) && r.date.Some? && SlotOf(r) !in mm.counts
    ensures forall i, j :: 0 <= i < j < |Visit(mm, r).keys| ==> Visit(mm, r).keys[i] != Visit(mm, r).keys[j]
  {
    var keys := mm.keys + [SlotOf(r)];
    forall i, j | 0 <= i < j < |keys|
      ensures keys[i] != keys[j]
    {
      if j == |mm.keys| {
        assert keys[i] == mm.keys[i] && keys[i] in mm.keys;
      } else {
        assert keys[i] == mm.keys[i] && keys[j] == mm.keys[j];
      }
    }
  }

  /** The counting `forEach`. */
  method CountByMonth(filtered: seq<Decorated>) returns (mm: MonthMap)
    requires Dated(filtered)
    ensures mm == MonthBuckets(filtered)
  {
    mm := MonthMap([], map[]);
    for i := 0 to |filtered|
      invariant mm == MonthBuckets(filtered[..i])
    {
      var r := filtered[i].row;
      assert filtered[..i + 1][..i] == filtered[..i];
      var key := Slot(FloorMonth(r.date.value), r.status);
      if key !in mm.counts {
        mm := MonthMap(mm.keys + [key], mm.counts[key := 0]);
      }
      mm := mm.(counts := mm.counts[key := mm.counts[key] + 1]);
    }
    assert filtered[..|filtered|] == filtered;
  }

  /** `Object.values(monthMap)`: one `{ month, status, count }` per key, in key
      order (in a well-formed map every key has a count). */
  function Values(mm: MonthMap): (vs: seq<Bucket>)
    ensures |vs| == |mm.keys|
  {
    seq(|mm.keys|, i requires 0 <= i < |mm.keys| =>
      Bucket(mm.keys[i].month, mm.keys[i].status, if mm.keys[i] in mm.counts then mm.counts[mm.keys[i]] else 0))
  }

  /** `v => v.status === status`. */
  function StatusIs(status: string): Bucket -> bool
  {
    (b: Bucket) => b.status == status
  }

  /** Month order of `(a, b) => a.month - b.month`. */
  predicate ByMonth(s: seq<Bucket>)
  {
    forall i, j :: 0 <= i < j < |s| ==> Millis(s[i].month) <= Millis(s[j].month)
  }

  function InsertByMonth(b: Bucket, s: seq<Bucket>): (r: seq<Bucket>)
    ensures |r| == |s| + 1
  {
    if s == [] || Millis(b.month) <= Millis(s[0].month) then [b] + s
    else [s[0]] + InsertByMonth(b, s[1..])
  }

  lemma {:induction false} InsertByMonthElements(b: Bucket, s: seq<Bucket>)
    ensures multiset(InsertByMonth(b, s)) == multiset(s) + multiset{b}
  {
    if s == [] || Millis(b.month) <= Millis(s[0].month) {
      assert InsertByMonth(b, s) == [b] + s;
    } else {
      var t := InsertByMonth(b, s[1..]);
      InsertByMonthElements(b, s[1..]);
      assert InsertByMonth(b, s) == [s[0]] + t;
      assert multiset(s) == multiset{s[0]} + multiset(s[1..]) by {
        assert s == [s[0]] + s[1..];
      }
    }
  }

  /** A lower bound on the months of `s` and of `b` bounds the months after insertion. */
  lemma {:induction false} InsertByMonthBound(b: Bucket, s: seq<Bucket>, m: int)
    requires m <= Millis(b.month)
    requires forall k :: 0 <= k < |s| ==> m <= Millis(s[k].month)
    ensures forall k :: 0 <= k < |InsertByMonth(b, s)| ==> m <= Millis(InsertByMonth(b, s)[k].month)
  {
    if s != [] && Millis(b.month) > Millis(s[0].month) {
      InsertByMonthBound(b, s[1..], m);
    }
  }

  /** A first element no later than the rest keeps a sorted sequence sorted. */
  lemma ByMonthCons(x: Bucket, t: seq<Bucket>)
    requires ByMonth(t)
    requires forall k :: 0 <= k < |t| ==> Millis(x.month) <= Millis(t[k].month)
    ensures ByMonth([x] + t)
  {
    var r := [x] + t;
    forall i, j | 0 <= i < j < |r|
      ensures Millis(r[i].month) <= Millis(r[j].month)
    {
      if i > 0 {
        assert r[i] == t[i - 1] && r[j] == t[j - 1];
      } else {
        assert r[j] == t[j - 1];
      }
    }
  }

  lemma {:induction false} InsertByMonthSorted(b: Bucket, s: seq<Bucket>)
    requires ByMonth(s)
    ensures ByMonth(InsertByMonth(b, s))
  {
    if s == [] || Millis(b.month) <= Millis(s[0].month) {
      ByMonthCons(b, s);
    } else {
      var t := InsertByMonth(b, s[1..]);
      InsertByMonthSorted(b, s[1..]);
      InsertByMonthBound(b, s[1..], Millis(s[0].month));
      ByMonthCons(s[0], t);
    }
  }

  /** `.sort((a, b) => a.month - b.month)`, a stable sort: an insertion sort that
      puts each element before the later ones of the same month. */
  function SortByMonth(s: seq<Bucket>): (r: seq<Bucket>)
    ensures |r| == |s|
  {
    if s == [] then [] else InsertByMonth(s[0], SortByMonth(s[1..]))
  }

  /** Sorting orders by month and keeps the elements. */
  lemma SortByMonthSpec(s: seq<Bucket>)
    ensures ByMonth(SortByMonth(s))
    ensures multiset(SortByMonth(s)) == multiset(s)
  {
    SortByMonthSorted(s);
    SortByMonthElements(s);
  }

  lemma {:induction false} SortByMonthSorted(s: seq<Bucket>)
    ensures ByMonth(SortByMonth(s))
  {
    if s != [] {
      SortByMonthSorted(s[1..]);
      InsertByMonthSorted(s[0], SortByMonth(s[1..]));
    }
  }

  lemma {:induction false} SortByMonthElements(s: seq<Bucket>)
    ensures multiset(SortByMonth(s)) == multiset(s)
  {
    if s != [] {
      var t := SortByMonth(s[1..]);
      SortByMonthElements(s[1..]);
      InsertByMonthElements(s[0], t);
      assert multiset(s) == multiset(s[1..]) + multiset{s[0]} by {
        assert s == [s[0]] + s[1..];
      }
    }
  }

  /** No two buckets share a month and status. */
  predicate DistinctSlots(s: seq<Bucket>)
  {
    forall i, j :: 0 <= i < j < |s| ==> Slot(s[i].month, s[i].status) != Slot(s[j].month, s[j].status)
  }

  lemma {:induction false} FilterDistinct(s: seq<Bucket>, p: Bucket -> bool)
    requires DistinctSlots(s)
    ensures DistinctSlots(Filter(s, p))
  {
    if s != [] {
      FilterDistinct(s[1..], p);
      var t := Filter(s[1..], p);
      if p(s[0]) {
        forall k | 0 <= k < |t|
          ensures Slot(s[0].month, s[0].status) != Slot(t[k].month, t[k].status)
        {
          var l :| 0 <= l < |s[1..]| && s[1..][l] == t[k];
          assert s[l + 1] == t[k];
        }
        DistinctCons(s[0], t);
      }
    }
  }

  lemma DistinctCons(x: Bucket, t: seq<Bucket>)
    requires DistinctSlots(t)
    requires forall k :: 0 <= k < |t| ==> Slot(x.month, x.status) != Slot(t[k].month, t[k].status)
    ensures DistinctSlots([x] + t)
  {
    var r := [x] + t;
    forall i, j | 0 <= i < j < |r|
      ensures Slot(r[i].month, r[i].status) != Slot(r[j].month, r[j].status)
    {
      if i > 0 {
        assert r[i] == t[i - 1] && r[j] == t[j - 1];
      } else {
        assert r[j] == t[j - 1];
      }
    }
  }

  lemma {:induction false} InsertByMonthDistinct(b: Bucket, s: seq<Bucket>)
    requires DistinctSlots(s)
    requires forall k :: 0 <= k < |s| ==> Slot(s[k].month, s[k].status) != Slot(b.month, b.status)
    ensures DistinctSlots(InsertByMonth(b, s))
  {
    if s != [] && Millis(b.month) > Millis(s[0].month) {
      var t := InsertByMonth(b, s[1..]);
      InsertByMonthDistinct(b, s[1..]);
      InsertedSlotsDiffer(s[0], b, s[1..]);
      DistinctCons(s[0], t);
    } else {
      DistinctCons(b, s);
    }
  }

  /** A bucket whose slot differs from that of `b` and of every bucket of `s`
      differs from every bucket after inserting `b` into `s`. */
  lemma InsertedSlotsDiffer(x: Bucket, b: Bucket, s: seq<Bucket>)
    requires Slot(x.month, x.status) != Slot(b.month, b.status)
    requires forall k :: 0 <= k < |s| ==> Slot(x.month, x.status) != Slot(s[k].month, s[k].status)
    ensures forall k :: 0 <= k < |InsertByMonth(b, s)| ==>
      Slot(x.month, x.status) != Slot(InsertByMonth(b, s)[k].month, InsertByMonth(b, s)[k].status)
  {
    var t := InsertByMonth(b, s);
    InsertByMonthElements(b, s);
    forall k | 0 <= k < |t|
      ensures Slot(x.month, x.status) != Slot(t[k].month, t[k].status)
    {
      assert t[k] in multiset(t);
      if t[k] != b {
        assert t[k] in multiset(s);
      }
    }
  }

  lemma {:induction false} SortByMonthDistinct(s: seq<Bucket>)
    requires DistinctSlots(s)
    ensures DistinctSlots(SortByMonth(s))
  {
    if s != [] {
      var t := SortByMonth(s[1..]);
      SortByMonthDistinct(s[1..]);
      SortByMonthSpec(s[1..]);
      forall k | 0 <= k < |t|
        ensures Slot(t[k].month, t[k].status) != Slot(s[0].month, s[0].status)
      {
        assert t[k] in multiset(s[1..]);
      }
      InsertByMonthDistinct(s[0], t);
    }
  }

  /** The series of one status label: its buckets, in month order. */
  function Series(rows: seq<Decorated>, status: string): seq<Bucket>
    requires Dated(rows)
  {
    SortByMonth(Filter(Values(MonthBuckets(rows)), StatusIs(status)))
  }

  /** The values of the month map: distinct months and statuses, each with the
      number of its rows, and a value for every month and status some row has. */
  lemma ValuesSpec(rows: seq<Decorated>)
    requires Dated(rows)
    ensures var vs := Values(MonthBuckets(rows));
      && DistinctSlots(vs)
      && (forall i :: 0 <= i < |vs| ==>
            vs[i].month.day == 1 && vs[i].count == InBucket(rows, Slot(vs[i].month, vs[i].status)) >= 1)
      && (forall k :: 0 <= k < |rows| ==> exists i :: 0 <= i < |vs| && Slot(vs[i].month, vs[i].status) == SlotOf(rows[k].row))
  {
    ValuesCounts(rows);
    MonthBucketsSpec(rows);
    var mm := MonthBuckets(rows);
    var vs := Values(mm);
    forall k | 0 <= k < |rows|
      ensures exists i :: 0 <= i < |vs| && Slot(vs[i].month, vs[i].status) == SlotOf(rows[k].row)
    {
      InBucketMember(rows, k);
      var i :| 0 <= i < |mm.keys| && mm.keys[i] == SlotOf(rows[k].row);
      assert Slot(vs[i].month, vs[i].status) == mm.keys[i];
    }
  }

  lemma ValuesCounts(rows: seq<Decorated>)
    requires Dated(rows)
    ensures var vs := Values(MonthBuckets(rows));
      && DistinctSlots(vs)
      && (forall i :: 0 <= i < |vs| ==>
            vs[i].month.day == 1 && vs[i].count == InBucket(rows, Slot(vs[i].month, vs[i].status)) >= 1)
  {
    MonthBucketsSpec(rows);
  }

  lemma {:induction false} InBucketMember(rows: seq<Decorated>, k: nat)
    requires Dated(rows) && k < |rows|
    ensures InBucket(rows, SlotOf(rows[k].row)) >= 1
  {
    if k < |rows| - 1 {
      InBucketMember(rows[..|rows| - 1], k);
    }
  }

  /** Sorted by month with no two buckets of one month and label: the months
      strictly increase. */
  lemma StrictlyIncreasing(ser: seq<Bucket>, status: string)
    requires ByMonth(ser) && DistinctSlots(ser)
    requires forall i :: 0 <= i < |ser| ==> ser[i].status == status && ser[i].month.day == 1
    ensures forall i, j :: 0 <= i < j < |ser| ==> Millis(ser[i].month) < Millis(ser[j].month)
  {
    forall i, j | 0 <= i < j < |ser|
      ensures Millis(ser[i].month) < Millis(ser[j].month)
    {
      DayNumberMonotonic(ser[i].month, ser[j].month);
    }
  }

  /** A series is in strictly increasing month order; each of its buckets has the
      series' label, starts a month and counts the rows of that month and label,
      at least one; and every row of the label has its month in the series. */
  lemma SeriesSpec(rows: seq<Decorated>, status: string)
    requires Dated(rows)
    ensures var ser := Series(rows, status);
      && (forall i, j :: 0 <= i < j < |ser| ==> Millis(ser[i].month) < Millis(ser[j].month))
      && (forall i :: 0 <= i < |ser| ==>
            ser[i].status == status && ser[i].month.day == 1
            && ser[i].count == InBucket(rows, Slot(ser[i].month, status)) >= 1)
      && (forall k :: 0 <= k < |rows| && rows[k].row.status == status ==>
            exists i :: 0 <= i < |ser| && ser[i].month == SlotOf(rows[k].row).month)
  {
    SeriesOrdered(rows, status);
    SeriesBuckets(rows, status);
    SeriesCovers(rows, status);
  }

  lemma SeriesOrdered(rows: seq<Decorated>, status: string)
    requires Dated(rows)
    ensures var ser := Series(rows, status);
      forall i, j :: 0 <= i < j < |ser| ==> Millis(ser[i].month) < Millis(ser[j].month)
  {
    var vs := Values(MonthBuckets(rows));
    var f := Filter(vs, StatusIs(status));
    var ser := Series(rows, status);
    assert DistinctSlots(vs) by { ValuesSpec(rows); }
    FilterDistinct(vs, StatusIs(status));
    SortByMonthDistinct(f);
    SortByMonthSpec(f);
    forall i | 0 <= i < |ser|
      ensures ser[i].status == status && ser[i].month.day == 1
    {
      assert ser[i] in multiset(f);
      ValuesMonth(rows, ser[i]);
    }
    StrictlyIncreasing(ser, status);
  }

  lemma ValuesMonth(rows: seq<Decorated>, b: Bucket)
    requires Dated(rows) && b in Values(MonthBuckets(rows))
    ensures b.month.day == 1
  {
    ValuesSpec(rows);
  }

  lemma SeriesBuckets(rows: seq<Decorated>, status: string)
    requires Dated(rows)
    ensures var ser := Series(rows, status);
      forall i :: 0 <= i < |ser| ==>
        ser[i].status == status && ser[i].month.day == 1
        && ser[i].count == InBucket(rows, Slot(ser[i].month, status)) >= 1
  {
    ValuesSpec(rows);
    var vs := Values(MonthBuckets(rows));
    var f := Filter(vs, StatusIs(status));
    var ser := Series(rows, status);
    SortByMonthElements(f);
    forall i | 0 <= i < |ser|
      ensures ser[i].status == status && ser[i].month.day == 1
        && ser[i].count == InBucket(rows, Slot(ser[i].month, status)) >= 1
    {
      assert ser[i] in multiset(f);
    }
  }

  lemma SeriesCovers(rows: seq<Decorated>, status: string)
    requires Dated(rows)
    ensures var ser := Series(rows, status);
      forall k :: 0 <= k < |rows| && rows[k].row.status == status ==>
        exists i :: 0 <= i < |ser| && ser[i].month == SlotOf(rows[k].row).month
  {
    ValuesSpec(rows);
    var vs := Values(MonthBuckets(rows));
    var f := Filter(vs, StatusIs(status));
    var ser := Series(rows, status);
    SortByMonthElements(f);
    forall k | 0 <= k < |rows| && rows[k].row.status == status
      ensures exists i :: 0 <= i < |ser| && ser[i].month == SlotOf(rows[k].row).month
    {
      var i :| 0 <= i < |vs| && Slot(vs[i].month, vs[i].status) == SlotOf(rows[k].row);
      assert vs[i] in f;
      assert vs[i] in multiset(ser);
    }
  }

  /** The sum of the counts. */
  function Total(s: seq<Bucket>): nat
  {
    if s == [] then 0 else s[0].count + Total(s[1..])
  }

  /** The number of rows with the given status label. */
  function StatusRows(rows: seq<Decorated>, status: string): nat
  {
    if rows == [] then 0
    else StatusRows(rows[..|rows| - 1], status) + (if rows[|rows| - 1].row.status == status then 1 else 0)
  }

  lemma {:induction false} TotalAppend(s: seq<Bucket>, t: seq<Bucket>)
    ensures Total(s + t) == Total(s) + Total(t)
  {
    if s == [] {
      assert s + t == t;
    } else {
      assert (s + t)[1..] == s[1..] + t;
      TotalAppend(s[1..], t);
    }
  }

  lemma {:induction false} TotalInsert(b: Bucket, s: seq<Bucket>)
    ensures Total(InsertByMonth(b, s)) == b.count + Total(s)
  {
    if s != [] && Millis(b.month) > Millis(s[0].month) {
      TotalInsert(b, s[1..]);
    }
  }

  lemma {:induction false} TotalSort(s: seq<Bucket>)
    ensures Total(SortByMonth(s)) == Total(s)
  {
    if s != [] {
      TotalSort(s[1..]);
      TotalInsert(s[0], SortByMonth(s[1..]));
    }
  }

  lemma FilterTotalAppend(s: seq<Bucket>, t: seq<Bucket>, status: string)
    ensures Total(Filter(s + t, StatusIs(status))) == Total(Filter(s, StatusIs(status))) + Total(Filter(t, StatusIs(status)))
  {
    FilterAppend(s, t, StatusIs(status));
    TotalAppend(Filter(s, StatusIs(status)), Filter(t, StatusIs(status)));
  }

  lemma FilterTotalSingle(b: Bucket, status: string)
    ensures Total(Filter([b], StatusIs(status))) == if b.status == status then b.count else 0
  {
    assert [b][1..] == [];
  }

  /** Replacing one bucket changes the total of a label by the difference of the two. */
  lemma FilterTotalUpdate(s: seq<Bucket>, j: nat, b: Bucket, status: string)
    requires j < |s|
    ensures Total(Filter(s[j := b], StatusIs(status))) + (if s[j].status == status then s[j].count else 0)
         == Total(Filter(s, StatusIs(status))) + (if b.status == status then b.count else 0)
  {
    assert s == s[..j] + [s[j]] + s[j + 1..];
    assert s[j := b] == s[..j] + [b] + s[j + 1..];
    FilterTotalAppend(s[..j] + [s[j]], s[j + 1..], status);
    FilterTotalAppend(s[..j], [s[j]], status);
    FilterTotalAppend(s[..j] + [b], s[j + 1..], status);
    FilterTotalAppend(s[..j], [b], status);
    FilterTotalSingle(s[j], status);
    FilterTotalSingle(b, status);
  }

  lemma ValuesVisitNew(mm: MonthMap, r: Record)
    requires WellFormed(mm) && r.date.Some? && SlotOf(r) !in mm.counts
    ensures Values(Visit(mm, r)) == Values(mm) + [Bucket(SlotOf(r).month, r.status, 1)]
  {
  }

  lemma ValuesVisitOld(mm: MonthMap, r: Record, j: nat)
    requires WellFormed(mm) && r.date.Some? && j < |mm.keys| && mm.keys[j] == SlotOf(r)
    ensures Values(Visit(mm, r)) == Values(mm)[j := Values(mm)[j].(count := Values(mm)[j].count + 1)]
  {
  }

  /** Counting one row adds one to the total of its label and nothing to others. */
  lemma VisitTotal(mm: MonthMap, r: Record, status: string)
    requires WellFormed(mm) && r.date.Some?
    ensures Total(Filter(Values(Visit(mm, r)), StatusIs(status)))
         == Total(Filter(Values(mm), StatusIs(status))) + (if r.status == status then 1 else 0)
  {
    var vs := Values(mm);
    if SlotOf(r) in mm.counts {
      var j :| 0 <= j < |mm.keys| && mm.keys[j] == SlotOf(r);
      var b := vs[j].(count := vs[j].count + 1);
      assert vs[j].status == r.status;
      ValuesVisitOld(mm, r, j);
      FilterTotalUpdate(vs, j, b, status);
    } else {
      var b := Bucket(SlotOf(r).month, r.status, 1);
      ValuesVisitNew(mm, r);
      FilterTotalAppend(vs, [b], status);
      FilterTotalSingle(b, status);
    }
  }

  lemma {:induction false} ValuesTotal(rows: seq<Decorated>, status: string)
    requires Dated(rows)
    ensures Total(Filter(Values(MonthBuckets(rows)), StatusIs(status))) == StatusRows(rows, status)
  {
    if rows != [] {
      var init := rows[..|rows| - 1];
      var r := rows[|rows| - 1].row;
      ValuesTotal(init, status);
      assert WellFormed(MonthBuckets(init)) by { MonthBucketsSpec(init); }
      VisitTotal(MonthBuckets(init), r, status);
    }
  }

  /** Every row of a label is counted exactly once in that label's series: its
      counts add up to the number of rows with the label, and it is empty exactly
      when there are none. */
  lemma SeriesTotal(rows: seq<Decorated>, status: string)
    requires Dated(rows)
    ensures Total(Series(rows, status)) == StatusRows(rows, status)
    ensures Series(rows, status) == [] <==> StatusRows(rows, status) == 0
  {
    MonthBucketsSpec(rows);
    var f := Filter(Values(MonthBuckets(rows)), StatusIs(status));
    ValuesTotal(rows, status);
    TotalSort(f);
    SeriesSpec(rows, status);
  }

  /** The rows the filter keeps are all dated, so the trend chart can floor each
      row's date to its month. */
  lemma FilteredDated(rows: seq<Record>, c: Criteria)
    ensures Dated(FilteredData(rows, c))
  {
    var d := Select(rows, c);
    forall k | 0 <= k < |FilteredData(rows, c)|
      ensures FilteredData(rows, c)[k].row.date.Some?
    {
      assert FilteredData(rows, c)[k].row == d[k];
    }
  }

  /** The bandwidth `makeTraces` passes to `loess`. */
  const TREND_BANDWIDTH := 0.75

  /** A scatter trace: the ISO dates, the values, the drawing mode and the name. */
  datatype Trace = Trace(x: seq<string>, y: seq<real>, mode: string, name: string)

  function DateLabels(pts: seq<Bucket>): seq<string>
  {
    Map(pts, (p: Bucket) => FmtDate(Some(p.month)))
  }

  function Stamps(pts: seq<Bucket>): seq<int>
  {
    Map(pts, (p: Bucket) => Millis(p.month))
  }

  function Counts(pts: seq<Bucket>): seq<real>
  {
    Map(pts, (p: Bucket) => p.count as real)
  }

  /** `${name} trend`. */
  function TrendName(name: string): string
  {
    name + " trend"
  }

  /** `makeTraces` as a value: nothing for an empty series, otherwise the markers of
      the counts and the dashed line of their LOESS smoothing over the time stamps. */
  function TracesFor(pts: seq<Bucket>, name: string): seq<Trace>
  {
    if pts == [] then []
    else
      [Trace(DateLabels(pts), Counts(pts), "markers", name),
       Trace(DateLabels(pts), Smoothed(Stamps(pts), Counts(pts), TREND_BANDWIDTH), "lines", TrendName(name))]
  }

  /** `makeTraces`. */
  method MakeTraces(pts: seq<Bucket>, name: string) returns (traces: seq<Trace>)
    ensures traces == TracesFor(pts, name)
  {
    if |pts| == 0 {
      traces := [];
    } else {
      var dates := Map(pts, (p: Bucket) => FmtDate(Some(p.month)));
      var xs := Map(pts, (p: Bucket) => Millis(p.month));
      var ys := Map(pts, (p: Bucket) => p.count as real);
      var smooth := Smooth(xs, ys, TREND_BANDWIDTH);
      traces := [Trace(dates, ys, "markers", name), Trace(dates, smooth[..], "lines", TrendName(name))];
    }
  }

  /** The traces for the status selector: the Fatal pair unless it is `Nonfatal`,
      then the Nonfatal pair unless it is `Fatal`. */
  function TrendTraces(rows: seq<Decorated>, status: string): seq<Trace>
    requires Dated(rows)
  {
    (if status != "Nonfatal" then TracesFor(Series(rows, "Fatal"), "Fatal") else [])
    + (if status != "Fatal" then TracesFor(Series(rows, "Nonfatal"), "Nonfatal") else [])
  }

  /** `updateTrendsChart` without the title and layout. */
  method UpdateTrendsChart(filtered: seq<Decorated>, status: string) returns (traces: seq<Trace>)
    requires Dated(filtered)
    ensures traces == TrendTraces(filtered, status)
  {
    var mm := CountByMonth(filtered);
    var values := Values(mm);
    var fatal := SortByMonth(Filter(values, StatusIs("Fatal")));
    var nonfatal := SortByMonth(Filter(values, StatusIs("Nonfatal")));
    assert fatal == Series(filtered, "Fatal");
    assert nonfatal == Series(filtered, "Nonfatal");
    ghost var first := if status != "Nonfatal" then TracesFor(fatal, "Fatal") else [];
    ghost var second := if status != "Fatal" then TracesFor(nonfatal, "Nonfatal") else [];
    assert TrendTraces(filtered, status) == first + second;
    traces := [];
    if status != "Nonfatal" {
      var t := MakeTraces(fatal, "Fatal");
      traces := traces + t;
    }
    assert traces == first;
    if status != "Fatal" {
      var t := MakeTraces(nonfatal, "Nonfatal");
      traces := traces + t;
    }
    assert traces == first + second;
  }

  /** For a non-empty series: the marker trace has one point per bucket, dated by
      the bucket's month in text that reads back to that month, with the bucket's
      count as its value; the trend line has a value for every point, is named
      after the series, and with fewer than three months repeats the counts. */
  lemma TracesForSpec(pts: seq<Bucket>, name: string)
    ensures TracesFor(pts, name) == [] <==> pts == []
    ensures pts != [] ==>
      var t := TracesFor(pts, name);
      && |t| == 2
      && t[0].mode == "markers" && t[0].name == name
      && t[1].mode == "lines" && t[1].name == TrendName(name)
      && t[0].x == t[1].x && |t[0].x| == |t[0].y| == |t[1].y| == |pts|
      && (forall i :: 0 <= i < |pts| ==> t[0].y[i] == pts[i].count as real)
      && (forall i :: 0 <= i < |pts| && pts[i].month.year >= 0 ==> ReadDate(t[0].x[i]) == Some(pts[i].month))
      && (|pts| < 3 ==> t[1].y == t[0].y)
  {
    if pts != [] {
      forall i | 0 <= i < |pts| && pts[i].month.year >= 0
        ensures ReadDate(DateLabels(pts)[i]) == Some(pts[i].month)
      {
        FmtDateRoundTrip(pts[i].month);
      }
    }
  }

  function Names(traces: seq<Trace>): seq<string>
  {
    Map(traces, (t: Trace) => t.name)
  }

  /** The chart shows the Fatal pair of traces exactly when the selector is not
      `Nonfatal` and some filtered row is Fatal, and the Nonfatal pair exactly when
      it is not `Fatal` and some row is Nonfatal, the Fatal pair first. */
  lemma TrendTracesSpec(rows: seq<Decorated>, status: string)
    requires Dated(rows)
    ensures Names(TrendTraces(rows, status))
      == (if status != "Nonfatal" && StatusRows(rows, "Fatal") > 0 then ["Fatal", TrendName("Fatal")] else [])
       + (if status != "Fatal" && StatusRows(rows, "Nonfatal") > 0 then ["Nonfatal", TrendName("Nonfatal")] else [])
  {
    var f := TracesFor(Series(rows, "Fatal"), "Fatal");
    var n := TracesFor(Series(rows, "Nonfatal"), "Nonfatal");
    SeriesPresent(rows, "Fatal");
    SeriesPresent(rows, "Nonfatal");
    var a := if status != "Nonfatal" then f else [];
    var b := if status != "Fatal" then n else [];
    assert TrendTraces(rows, status) == a + b;
    MapAppend(a, b, (t: Trace) => t.name);
  }

  /** The pair of traces of a label is drawn exactly when some row has the label. */
  lemma SeriesPresent(rows: seq<Decorated>, status: string)
    requires Dated(rows)
    ensures Names(TracesFor(Series(rows, status), status))
      == if StatusRows(rows, status) > 0 then [status, TrendName(status)] else []
  {
    SeriesTotal(rows, status);
    TracesNamed(Series(rows, status), status);
  }

  lemma TracesNamed(pts: seq<Bucket>, name: string)
    ensures Names(TracesFor(pts, name)) == if pts == [] then [] else [name, TrendName(name)]
  {
  }
}
