/** The bar chart of `updateBarChart`: Fatal and Nonfatal counts for the four
    agency types, zero-filled, and the choice of the bar traces by the status
    selector. */
module BarChart {
  import opened Seqs
  import opened Records
  import opened Filters

  const AGENCIES: seq<string> := ["Local", "Sheriff", "State", "Special"]

  /** `agg`: agency type, then status label, to a count. */
  type Table = map<string, map<string, nat>>

  /** The table after `agencies.forEach(a => { agg[a] = { Fatal: 0, Nonfatal: 0 }; })`. */
  function InitialTable(): Table
  {
    map a | a in AGENCIES :: map["Fatal" := 0, "Nonfatal" := 0]
  }

  /** One visit of the counting `forEach`: a row of a listed agency type adds one to
      its status cell, creating the cell for a status label not seen before; any
      other row leaves the table as it is. */
  function CountRow(agg: Table, r: Record): Table
  {
    if r.agencyType in agg then
      var cells := agg[r.agencyType];
      var before := if r.status in cells then cells[r.status] else 0;
      agg[r.agencyType := cells[r.status := before + 1]]
    else agg
  }

  /** The table after counting `rows`. */
  function BarCounts(rows: seq<Decorated>): Table
  {
    if rows == [] then InitialTable()
    else CountRow(BarCounts(rows[..|rows| - 1]), rows[|rows| - 1].row)
  }

  /** The number of rows with the given agency type and status label. */
  function Cell(rows: seq<Decorated>, agency: string, status: string): nat
  {
    if rows == [] then 0
    else
      var r := rows[|rows| - 1].row;
      Cell(rows[..|rows| - 1], agency, status) + (if r.agencyType == agency && r.status == status then 1 else 0)
  }

  /** The table has exactly the four agency types; each has the Fatal and Nonfatal
      cells and a cell for every other status label that occurs with it; and every
      cell holds the number of rows with that agency type and status. */
  lemma {:induction false} BarCountsSpec(rows: seq<Decorated>, agency: string, status: string)
    ensures agency in BarCounts(rows) <==> agency in AGENCIES
    ensures agency in AGENCIES ==>
      (status in BarCounts(rows)[agency] <==> status == "Fatal" || status == "Nonfatal" || Cell(rows, agency, status) >= 1)
    ensures agency in AGENCIES && status in BarCounts(rows)[agency] ==>
      BarCounts(rows)[agency][status] == Cell(rows, agency, status)
  {
    if rows != [] {
      BarCountsSpec(rows[..|rows| - 1], agency, status);
    }
  }

  /** The zero-filling `forEach` over the agency types. */
  method ZeroTable() returns (agg: Table)
    ensures agg == InitialTable()
  {
    agg := map[];
    for i := 0 to |AGENCIES|
      invariant agg == map a | a in AGENCIES[..i] :: map["Fatal" := 0, "Nonfatal" := 0]
    {
      agg := agg[AGENCIES[i] := map["Fatal" := 0, "Nonfatal" := 0]];
    }
    assert AGENCIES[..|AGENCIES|] == AGENCIES;
  }

  /** The counting pass: the zero-filled table, then one visit per row. */
  method AggregateBars(filtered: seq<Decorated>) returns (agg: Table)
    ensures agg == BarCounts(filtered)
  {
    agg := ZeroTable();
    for i := 0 to |filtered|
      invariant agg == BarCounts(filtered[..i])
    {
      var r := filtered[i].row;
      assert filtered[..i + 1][..i] == filtered[..i];
      if r.agencyType in agg {
        var cells := agg[r.agencyType];
        var before := if r.status in cells then cells[r.status] else 0;
        agg := agg[r.agencyType := cells[r.status := before + 1]];
      }
    }
    assert filtered[..|filtered|] == filtered;
  }

  /** A bar trace: the agency types and one count per agency type. */
  datatype BarTrace = BarTrace(x: seq<string>, y: seq<nat>, name: string)

  /** The tables the counting pass can produce have both status cells for each agency. */
  predicate HasStatusCells(agg: Table)
  {
    forall a :: a in AGENCIES ==> a in agg && "Fatal" in agg[a] && "Nonfatal" in agg[a]
  }

  /** `agencies.map(a => agg[a][status])`. */
  function Column(agg: Table, status: string): (ys: seq<nat>)
    requires HasStatusCells(agg) && (status == "Fatal" || status == "Nonfatal")
    ensures |ys| == |AGENCIES|
  {
    seq(|AGENCIES|, k requires 0 <= k < |AGENCIES| => agg[AGENCIES[k]][status])
  }

  /** The traces: the Fatal one unless the selector is `Nonfatal`, then the
      Nonfatal one unless the selector is `Fatal`. */
  function BarTraces(agg: Table, status: string): seq<BarTrace>
    requires HasStatusCells(agg)
  {
    (if status != "Nonfatal" then [BarTrace(AGENCIES, Column(agg, "Fatal"), "Fatal")] else [])
    + (if status != "Fatal" then [BarTrace(AGENCIES, Column(agg, "Nonfatal"), "Nonfatal")] else [])
  }

  lemma BarCountsHasStatusCells(rows: seq<Decorated>)
    ensures HasStatusCells(BarCounts(rows))
  {
    forall a | a in AGENCIES
      ensures a in BarCounts(rows) && "Fatal" in BarCounts(rows)[a] && "Nonfatal" in BarCounts(rows)[a]
    {
      BarCountsSpec(rows, a, "Fatal");
      BarCountsSpec(rows, a, "Nonfatal");
    }
  }

  /** `updateBarChart` without the layout: the counts, then the traces. */
  method UpdateBarChart(filtered: seq<Decorated>, status: string) returns (traces: seq<BarTrace>)
    ensures HasStatusCells(BarCounts(filtered)) && traces == BarTraces(BarCounts(filtered), status)
  {
    var agg := AggregateBars(filtered);
    BarCountsHasStatusCells(filtered);
    traces := [];
    if status != "Nonfatal" {
      var ys := seq(|AGENCIES|, k requires 0 <= k < |AGENCIES| => agg[AGENCIES[k]]["Fatal"]);
      traces := traces + [BarTrace(AGENCIES, ys, "Fatal")];
    }
    if status != "Fatal" {
      var ys := seq(|AGENCIES|, k requires 0 <= k < |AGENCIES| => agg[AGENCIES[k]]["Nonfatal"]);
      traces := traces + [BarTrace(AGENCIES, ys, "Nonfatal")];
    }
  }

  /** A Fatal trace is drawn exactly when the selector is not `Nonfatal`, a Nonfatal
      trace exactly when it is not `Fatal`; each trace lists the four agency types
      and, for each, the number of rows with that agency type and the trace's status
      (zero when there are none). */
  lemma BarTracesSpec(rows: seq<Decorated>, status: string)
    ensures HasStatusCells(BarCounts(rows))
    ensures var t := BarTraces(BarCounts(rows), status);
      && |t| == (if status == "Fatal" || status == "Nonfatal" then 1 else 2)
      && ((exists i :: 0 <= i < |t| && t[i].name == "Fatal") <==> status != "Nonfatal")
      && ((exists i :: 0 <= i < |t| && t[i].name == "Nonfatal") <==> status != "Fatal")
      && (forall i :: 0 <= i < |t| ==>
            t[i].x == AGENCIES && |t[i].y| == |AGENCIES|
            && forall k :: 0 <= k < |AGENCIES| ==> t[i].y[k] == Cell(rows, AGENCIES[k], t[i].name))
  {
    BarCountsHasStatusCells(rows);
    var agg := BarCounts(rows);
    var t := BarTraces(agg, status);
    BarTracesShape(agg, status);
    ColumnCells(rows, "Fatal");
    ColumnCells(rows, "Nonfatal");
    forall i | 0 <= i < |t|
      ensures forall k :: 0 <= k < |AGENCIES| ==> t[i].y[k] == Cell(rows, AGENCIES[k], t[i].name)
    {
      assert t[i].y == Column(agg, t[i].name);
    }
  }

  /** The traces of a table: which are drawn, and that each is its status's column. */
  lemma BarTracesShape(agg: Table, status: string)
    requires HasStatusCells(agg)
    ensures var t := BarTraces(agg, status);
      && |t| == (if status == "Fatal" || status == "Nonfatal" then 1 else 2)
      && ((exists i :: 0 <= i < |t| && t[i].name == "Fatal") <==> status != "Nonfatal")
      && ((exists i :: 0 <= i < |t| && t[i].name == "Nonfatal") <==> status != "Fatal")
      && (forall i :: 0 <= i < |t| ==>
            (t[i].name == "Fatal" || t[i].name == "Nonfatal")
            && t[i].x == AGENCIES && t[i].y == Column(agg, t[i].name))
  {
    var t := BarTraces(agg, status);
    var fatal := BarTrace(AGENCIES, Column(agg, "Fatal"), "Fatal");
    var nonfatal := BarTrace(AGENCIES, Column(agg, "Nonfatal"), "Nonfatal");
    if status == "Fatal" {
      assert t == [fatal] && t[0].name == "Fatal";
    } else if status == "Nonfatal" {
      assert t == [nonfatal] && t[0].name == "Nonfatal";
    } else {
      assert t == [fatal, nonfatal] && t[0].name == "Fatal" && t[1].name == "Nonfatal";
    }
  }

  /** A status column of the counted table holds the row count of each agency type. */
  lemma ColumnCells(rows: seq<Decorated>, name: string)
    requires name == "Fatal" || name == "Nonfatal"
    ensures HasStatusCells(BarCounts(rows))
    ensures forall k :: 0 <= k < |AGENCIES| ==> Column(BarCounts(rows), name)[k] == Cell(rows, AGENCIES[k], name)
  {
    BarCountsHasStatusCells(rows);
    forall k | 0 <= k < |AGENCIES|
      ensures Column(BarCounts(rows), name)[k] == Cell(rows, AGENCIES[k], name)
    {
      BarCountsSpec(rows, AGENCIES[k], name);
    }
  }
}
