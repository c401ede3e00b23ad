/** The filter and aggregation engine: the criteria record that replaces the
    reads of the filter controls, the conjunctive row selection, the grouping
    pass that counts officers per incident over the selected rows, and the
    dashboard state that loading and filtering update. */
module Filters {
  import opened Seqs
  import opened Text
  import opened Dates
  import opened Records

  /** The selector values `getFilters` reads; `start` and `end` are always
      present because an empty or unparsable picker falls back to the default. */
  datatype Criteria = Criteria(start: CalendarDate, end: CalendarDate, state: string, agency: string, status: string)

  /** `getFilters` with the picker contents given as their parse results. */
  function MakeCriteria(start: Option<CalendarDate>, end: Option<CalendarDate>, state: string, agency: string, status: string): (c: Criteria)
    ensures start.None? ==> c.start == DATE_MIN
    ensures end.None? ==> c.end == DATE_MAX
    ensures start.Some? ==> c.start == start.value
    ensures end.Some? ==> c.end == end.value
  {
    Criteria(start.GetOr(DATE_MIN), end.GetOr(DATE_MAX), state, agency, status)
  }

  /** `r._date >= f.start`; a row without a date never passes. */
  predicate OnOrAfter(r: Record, start: CalendarDate)
  {
    r.date.Some? && DayNumber(r.date.value) >= DayNumber(start)
  }

  /** `r._date <= f.end`. */
  predicate OnOrBefore(r: Record, end: CalendarDate)
  {
    r.date.Some? && DayNumber(r.date.value) <= DayNumber(end)
  }

  predicate StateMatches(r: Record, state: string) { state == "National" || r.state == state }

  predicate AgencyMatches(r: Record, agency: string) { agency == "All" || r.agencyType == agency }

  /** Only the selector values `Fatal` and `Nonfatal` restrict the status. */
  predicate StatusMatches(r: Record, status: string)
  {
    (status == "Fatal" ==> r.status == "Fatal") && (status == "Nonfatal" ==> r.status == "Nonfatal")
  }

  /** The conjunction of all criteria. */
  predicate Matches(r: Record, c: Criteria)
  {
    OnOrAfter(r, c.start) && OnOrBefore(r, c.end) && StateMatches(r, c.state)
    && AgencyMatches(r, c.agency) && StatusMatches(r, c.status)
  }

  /** The filtered subset: the matching rows in their original order. */
  function Select(rows: seq<Record>, c: Criteria): seq<Record>
  {
    Filter(rows, r => Matches(r, c))
  }

  /** The rows kept are exactly the matching rows: every kept row matches, every
      matching row is kept, nothing else appears, and the order is that of `rows`. */
  lemma SelectSpec(rows: seq<Record>, c: Criteria)
    ensures forall r :: r in Select(rows, c) ==> r in rows && Matches(r, c)
    ensures forall r :: r in rows && Matches(r, c) ==> r in Select(rows, c)
    ensures |Select(rows, c)| == Count(rows, r => Matches(r, c))
    ensures forall r :: multiset(Select(rows, c))[r] == if Matches(r, c) then multiset(rows)[r] else 0
  {
    FilterLength(rows, r => Matches(r, c));
    FilterMultiset(rows, r => Matches(r, c));
  }

  /** The selection keeps the order of `rows`: selecting from two consecutive runs of
      rows is selecting from each in turn, and a single row is kept exactly when it
      matches. */
  lemma SelectOrder(rows1: seq<Record>, rows2: seq<Record>, c: Criteria)
    ensures Select(rows1 + rows2, c) == Select(rows1, c) + Select(rows2, c)
    ensures forall r :: Select([r], c) == if Matches(r, c) then [r] else []
  {
    FilterAppend(rows1, rows2, r => Matches(r, c));
    forall r
      ensures Select([r], c) == if Matches(r, c) then [r] else []
    {
      assert [r][1..] == [];
    }
  }

  /** The dates are compared as days: with the start after the end nothing is kept. */
  lemma EmptyRange(rows: seq<Record>, c: Criteria)
    requires Before(c.end, c.start)
    ensures Select(rows, c) == []
  {
    DayNumberMonotonic(c.end, c.start);
    FilterLength(rows, r => Matches(r, c));
    CountNone(rows, r => Matches(r, c));
  }

  /** With the default criteria, every row dated within the default range is kept. */
  lemma DefaultCriteriaKeepAll(rows: seq<Record>)
    requires forall r :: r in rows ==> r.date.Some? && !Before(r.date.value, DATE_MIN) && !Before(DATE_MAX, r.date.value)
    ensures Select(rows, MakeCriteria(None, None, "National", "All", "All")) == rows
  {
    var c := MakeCriteria(None, None, "National", "All", "All");
    forall k | 0 <= k < |rows|
      ensures Matches(rows[k], c)
    {
      var d := rows[k].date.value;
      assert rows[k] in rows;
      DayNumberMonotonic(d, DATE_MIN);
      DayNumberMonotonic(DATE_MIN, d);
      DayNumberMonotonic(d, DATE_MAX);
      DayNumberMonotonic(DATE_MAX, d);
    }
    FilterAll(rows, r => Matches(r, c));
  }

  /** The per-incident aggregate `{ total, fatal, nonfatal }`. */
  datatype Tally = Tally(total: nat, fatal: nat, nonfatal: nat)

  /** The number of rows of incident `id`. */
  function RowsOf(rows: seq<Record>, id: string): nat
  {
    if rows == [] then 0
    else RowsOf(rows[..|rows| - 1], id) + (if rows[|rows| - 1].incidentid == id then 1 else 0)
  }

  /** The number of rows of incident `id` with the given status label. */
  function RowsWithStatus(rows: seq<Record>, id: string, status: string): nat
  {
    if rows == [] then 0
    else
      var r := rows[|rows| - 1];
      RowsWithStatus(rows[..|rows| - 1], id, status) + (if r.incidentid == id && r.status == status then 1 else 0)
  }

  /** `agg` after the grouping pass has visited `rows`. */
  function Tallies(rows: seq<Record>): map<string, Tally>
  {
    if rows == [] then map[]
    else
      var agg := Tallies(rows[..|rows| - 1]);
      var r := rows[|rows| - 1];
      var t := if r.incidentid in agg then agg[r.incidentid] else Tally(0, 0, 0);
      agg[r.incidentid := Tally(t.total + 1,
                                t.fatal + (if r.status == "Fatal" then 1 else 0),
                                t.nonfatal + (if r.status == "Nonfatal" then 1 else 0))]
  }

  /** Each incident that has rows gets an entry holding the number of its rows and
      of its Fatal and Nonfatal rows; no other incident gets one. */
  lemma {:induction false} TalliesSpec(rows: seq<Record>, id: string)
    ensures id in Tallies(rows) <==> RowsOf(rows, id) >= 1
    ensures id in Tallies(rows) ==>
      Tallies(rows)[id] == Tally(RowsOf(rows, id), RowsWithStatus(rows, id, "Fatal"), RowsWithStatus(rows, id, "Nonfatal"))
  {
    if rows != [] {
      TalliesSpec(rows[..|rows| - 1], id);
      StatusesWithinTotal(rows[..|rows| - 1], id);
    }
  }

  /** Fatal and Nonfatal rows of an incident are among its rows, and they are disjoint. */
  lemma {:induction false} StatusesWithinTotal(rows: seq<Record>, id: string)
    ensures RowsWithStatus(rows, id, "Fatal") + RowsWithStatus(rows, id, "Nonfatal") <= RowsOf(rows, id)
  {
    if rows != [] {
      StatusesWithinTotal(rows[..|rows| - 1], id);
    }
  }

  /** A row with an incident identifier counts towards that incident. */
  lemma {:induction false} RowsOfMember(rows: seq<Record>, k: nat)
    requires k < |rows|
    ensures RowsOf(rows, rows[k].incidentid) >= 1
  {
    if k < |rows| - 1 {
      RowsOfMember(rows[..|rows| - 1], k);
    }
  }

  /** A filtered row with the aggregates of its incident attached. */
  datatype Decorated = Decorated(row: Record, totalOfficers: nat, totalFatal: nat, totalNonfatal: nat)

  /** `({ ...r, _totalofficers: agg[id]?.total ?? 1, ... })`. */
  function DecorateRow(r: Record, agg: map<string, Tally>): Decorated
  {
    if r.incidentid in agg then
      var t := agg[r.incidentid];
      Decorated(r, t.total, t.fatal, t.nonfatal)
    else Decorated(r, 1, 0, 0)
  }

  function Decorate(rows: seq<Record>, agg: map<string, Tally>): seq<Decorated>
  {
    Map(rows, r => DecorateRow(r, agg))
  }

  /** `filteredData` for the given rows and criteria. */
  function FilteredData(rows: seq<Record>, c: Criteria): seq<Decorated>
  {
    var d := Select(rows, c);
    Decorate(d, Tallies(d))
  }

  /** Every filtered row keeps its fields and in order; it carries the number of
      filtered rows of its incident (at least one, itself) and how many of those
      are Fatal and Nonfatal, which together are at most the total. */
  lemma FilteredDataSpec(rows: seq<Record>, c: Criteria, k: nat)
    requires k < |Select(rows, c)|
    ensures var d := Select(rows, c);
      var e := FilteredData(rows, c);
      var id := d[k].incidentid;
      && |e| == |d|
      && e[k].row == d[k]
      && e[k].totalOfficers == RowsOf(d, id) >= 1
      && e[k].totalFatal == RowsWithStatus(d, id, "Fatal")
      && e[k].totalNonfatal == RowsWithStatus(d, id, "Nonfatal")
      && e[k].totalFatal + e[k].totalNonfatal <= e[k].totalOfficers
  {
    var d := Select(rows, c);
    RowsOfMember(d, k);
    TalliesSpec(d, d[k].incidentid);
    StatusesWithinTotal(d, d[k].incidentid);
  }

  /** The aggregates count filtered rows only: rows the filter removes do not
      count, so an incident never has more filtered rows than rows in all. */
  lemma {:induction false} CountsOnlyFiltered(rows: seq<Record>, c: Criteria, id: string)
    ensures RowsOf(Select(rows, c), id) <= RowsOf(rows, id)
    ensures RowsOf(Select(rows, c), id) == RowsOfMatching(rows, c, id)
  {
    if rows != [] {
      var init := rows[..|rows| - 1];
      var last := rows[|rows| - 1];
      CountsOnlyFiltered(init, c, id);
      var tail := Filter([last], r => Matches(r, c));
      assert Select(rows, c) == Select(init, c) + tail by {
        assert rows == init + [last];
        FilterAppend(init, [last], r => Matches(r, c));
      }
      var here := if last.incidentid == id && Matches(last, c) then 1 else 0;
      assert RowsOf(tail, id) == here by {
        assert tail == if Matches(last, c) then [last] else [];
        assert [last][..0] == [];
      }
      RowsOfAppend(Select(init, c), tail, id);
    }
  }

  /** The number of rows of incident `id` that match the criteria. */
  function RowsOfMatching(rows: seq<Record>, c: Criteria, id: string): nat
  {
    if rows == [] then 0
    else
      var r := rows[|rows| - 1];
      RowsOfMatching(rows[..|rows| - 1], c, id) + (if r.incidentid == id && Matches(r, c) then 1 else 0)
  }

  lemma {:induction false} RowsOfAppend(s: seq<Record>, t: seq<Record>, id: string)
    ensures RowsOf(s + t, id) == RowsOf(s, id) + RowsOf(t, id)
    decreases |t|
  {
    if t == [] {
      assert s + t == s;
    } else {
      var u := s + t;
      assert u[..|u| - 1] == s + t[..|t| - 1];
      assert u[|u| - 1] == t[|t| - 1];
      RowsOfAppend(s, t[..|t| - 1], id);
      assert RowsOf(u, id) == RowsOf(u[..|u| - 1], id) + (if u[|u| - 1].incidentid == id then 1 else 0);
    }
  }

  /** `${n} case${n !== 1 ? 's' : ''} shown`, without thousands separators. */
  function CaseSummary(n: nat): string
  {
    NatToString(n) + (if n == 1 then " case shown" else " cases shown")
  }

  /** The summary names the count and uses the singular exactly for one case. */
  lemma CaseSummarySpec(n: nat)
    ensures var s := CaseSummary(n);
      var digits := NatToString(n);
      && s[..|digits|] == digits
      && DecimalValue(s[..|digits|]) == n
      && (n == 1 <==> s[|digits|..] == " case shown")
      && (n != 1 <==> s[|digits|..] == " cases shown")
  {
    NatToStringRoundTrip(n);
    var s := CaseSummary(n);
    var digits := NatToString(n);
    assert s[..|digits|] == digits;
    if n != 1 {
      assert s[|digits|..] == " cases shown";
    }
  }

  /** The dashboard's data state: `rawData`, `filteredData`, the state selector's
      options and the case-count text. */
  class Dashboard {
    var rawData: seq<Record>
    var filteredData: seq<Decorated>
    var states: seq<string>
    var caseCount: string

    constructor ()
      ensures rawData == [] && filteredData == [] && states == [] && caseCount == ""
    {
      rawData := [];
      filteredData := [];
      states := [];
      caseCount := "";
    }

    /** `loadData` once the tables have been read: the centroid lookup, the
        prepared rows, the state options, then a first filtering pass. */
    method LoadData(pfie: seq<Record>, centroids: seq<CentroidRow>, initial: Criteria)
      modifies this
      ensures rawData == LoadRows(pfie, centroids)
      ensures states == StateList(rawData)
      ensures filteredData == FilteredData(rawData, initial)
      ensures caseCount == CaseSummary(|filteredData|)
    {
      var centroidMap := BuildCentroidMap(centroids);
      rawData := Filter(Map(pfie, r => Resolve(r, centroidMap)), Parsed);
      states := StateList(rawData);
      RunFilters(initial);
    }

    /** `runFilters`: the filters applied one after another, then the grouping pass. */
    method RunFilters(f: Criteria)
      modifies this
      ensures rawData == old(rawData) && states == old(states)
      ensures filteredData == FilteredData(rawData, f)
      ensures caseCount == CaseSummary(|filteredData|)
    {
      var d := ApplyFilters(rawData, f);
      var agg := Aggregate(d);
      filteredData := Decorate(d, agg);
      caseCount := CaseSummary(|filteredData|);
    }
  }

  /** The filtering half of `runFilters`: each active control narrows the rows
      in turn, which keeps exactly the rows matching all of them. */
  method ApplyFilters(rows: seq<Record>, f: Criteria) returns (d: seq<Record>)
    ensures d == Select(rows, f)
  {
    d := rows;
    d := Filter(d, r => OnOrAfter(r, f.start));
    d := Filter(d, r => OnOrBefore(r, f.end));
    if f.state != "National" {
      d := Filter(d, (r: Record) => r.state == f.state);
    }
    if f.agency != "All" {
      d := Filter(d, (r: Record) => r.agencyType == f.agency);
    }
    if f.status == "Fatal" {
      d := Filter(d, (r: Record) => r.status == "Fatal");
    }
    if f.status == "Nonfatal" {
      d := Filter(d, (r: Record) => r.status == "Nonfatal");
    }
    StepwiseIsSelect(rows, f);
  }

  /** The grouping pass of `runFilters`: one visit per row, creating the entry of
      a new incident and incrementing its counters. */
  method Aggregate(d: seq<Record>) returns (agg: map<string, Tally>)
    ensures agg == Tallies(d)
  {
    agg := map[];
    for i := 0 to |d|
      invariant agg == Tallies(d[..i])
    {
      var id := d[i].incidentid;
      assert d[..i + 1][..i] == d[..i];
      if id !in agg {
        agg := agg[id := Tally(0, 0, 0)];
      }
      var t := agg[id];
      t := t.(total := t.total + 1);
      if d[i].status == "Fatal" {
        t := t.(fatal := t.fatal + 1);
      }
      if d[i].status == "Nonfatal" {
        t := t.(nonfatal := t.nonfatal + 1);
      }
      agg := agg[id := t];
    }
    assert d[..|d|] == d;
  }

  /** The chain of filters in `runFilters` keeps the same rows as the conjunction. */
  lemma StepwiseIsSelect(rows: seq<Record>, f: Criteria)
    ensures var d1 := Filter(rows, r => OnOrAfter(r, f.start));
      var d2 := Filter(d1, r => OnOrBefore(r, f.end));
      var d3 := if f.state != "National" then Filter(d2, (r: Record) => r.state == f.state) else d2;
      var d4 := if f.agency != "All" then Filter(d3, (r: Record) => r.agencyType == f.agency) else d3;
      var d5 := if f.status == "Fatal" then Filter(d4, (r: Record) => r.status == "Fatal") else d4;
      var d6 := if f.status == "Nonfatal" then Filter(d5, (r: Record) => r.status == "Nonfatal") else d5;
      d6 == Select(rows, f)
  {
    var p1 := (r: Record) => OnOrAfter(r, f.start);
    var p2 := (r: Record) => OnOrAfter(r, f.start) && OnOrBefore(r, f.end);
    var p3 := (r: Record) => OnOrAfter(r, f.start) && OnOrBefore(r, f.end) && StateMatches(r, f.state);
    var p4 := (r: Record) => OnOrAfter(r, f.start) && OnOrBefore(r, f.end) && StateMatches(r, f.state)
      && AgencyMatches(r, f.agency);
    var p5 := (r: Record) => OnOrAfter(r, f.start) && OnOrBefore(r, f.end) && StateMatches(r, f.state)
      && AgencyMatches(r, f.agency) && (f.status == "Fatal" ==> r.status == "Fatal");
    var d1 := Filter(rows, p1);
    var d2 := Filter(d1, r => OnOrBefore(r, f.end));
    FilterFilter(rows, p1, r => OnOrBefore(r, f.end), p2);
    assert d2 == Filter(rows, p2);
    var d3 := if f.state != "National" then Filter(d2, (r: Record) => r.state == f.state) else d2;
    if f.state != "National" {
      FilterFilter(rows, p2, (r: Record) => r.state == f.state, p3);
    } else {
      FilterSame(rows, p2, p3);
    }
    assert d3 == Filter(rows, p3);
    var d4 := if f.agency != "All" then Filter(d3, (r: Record) => r.agencyType == f.agency) else d3;
    if f.agency != "All" {
      FilterFilter(rows, p3, (r: Record) => r.agencyType == f.agency, p4);
    } else {
      FilterSame(rows, p3, p4);
    }
    assert d4 == Filter(rows, p4);
    var d5 := if f.status == "Fatal" then Filter(d4, (r: Record) => r.status == "Fatal") else d4;
    if f.status == "Fatal" {
      FilterFilter(rows, p4, (r: Record) => r.status == "Fatal", p5);
    } else {
      FilterSame(rows, p4, p5);
    }
    assert d5 == Filter(rows, p5);
    if f.status == "Nonfatal" {
      FilterFilter(rows, p5, (r: Record) => r.status == "Nonfatal", r => Matches(r, f));
    } else {
      FilterSame(rows, p5, r => Matches(r, f));
    }
  }

  lemma FilterSame<T>(s: seq<T>, p: T -> bool, q: T -> bool)
    requires forall x :: p(x) == q(x)
    ensures Filter(s, p) == Filter(s, q)
  {
    FilterFilter(s, p, x => true, q);
    FilterAll(Filter(s, p), x => true);
  }
}
