/** The rows of the dashboard and their preparation at load time: the state
    centroid lookup, the coordinate fallback, the removal of rows whose date did
    not parse, and the sorted list of distinct states for the state selector.
    A row keeps the fields the analysis reads; its `date` is the result of
    parsing the `date` column (`_date`), absent when parsing failed. Empty
    numeric cells, which the CSV reader turns into `null`, are absent values. */
module Records {
  import opened Seqs
  import opened Text
  import opened Dates

  /** One officer-incident record. `incidentid` is kept as text: it is only ever
      compared and used as an object key. */
  datatype Record = Record(
    incidentid: string,
    date: Option<CalendarDate>,
    state: string,
    agencyType: string,
    status: string,
    latitude: Option<real>,
    longitude: Option<real>,
    sources: Option<string>)

  /** A row of the centroid table: `state`, `lat`, `long`. */
  datatype CentroidRow = CentroidRow(state: string, lat: Option<real>, long: Option<real>)

  /** A value of `centroidMap`: `{ lat, lng }`. */
  datatype Centroid = Centroid(lat: Option<real>, lng: Option<real>)

  /** `centroidMap` after `centroids.forEach(r => centroidMap[r.state] = ...)`
      over the given rows: a later row for the same state replaces an earlier one. */
  function CentroidMap(rows: seq<CentroidRow>): map<string, Centroid>
  {
    if rows == [] then map[]
    else
      var last := rows[|rows| - 1];
      CentroidMap(rows[..|rows| - 1])[last.state := Centroid(last.lat, last.long)]
  }

  /** A state has an entry exactly when some row names it, and the entry holds the
      coordinates of the last such row. */
  lemma {:induction false} CentroidMapSpec(rows: seq<CentroidRow>, state: string)
    ensures state in CentroidMap(rows) <==> exists k :: 0 <= k < |rows| && rows[k].state == state
    ensures forall k :: (0 <= k < |rows| && rows[k].state == state
                         && (forall l :: k < l < |rows| ==> rows[l].state != state))
                        ==> state in CentroidMap(rows) && CentroidMap(rows)[state] == Centroid(rows[k].lat, rows[k].long)
  {
    if rows != [] {
      var init := rows[..|rows| - 1];
      CentroidMapSpec(init, state);
      if state != rows[|rows| - 1].state {
        assert forall k :: 0 <= k < |init| ==> init[k] == rows[k];
      }
    }
  }

  /** The `forEach` that fills the lookup. */
  method BuildCentroidMap(centroids: seq<CentroidRow>) returns (m: map<string, Centroid>)
    ensures m == CentroidMap(centroids)
  {
    m := map[];
    for i := 0 to |centroids|
      invariant m == CentroidMap(centroids[..i])
    {
      var r := centroids[i];
      assert centroids[..i + 1][..i] == centroids[..i];
      m := m[r.state := Centroid(r.lat, r.long)];
    }
    assert centroids[..|centroids|] == centroids;
  }

  /** `own ?? fallback ?? null`. */
  function Coalesce(own: Option<real>, fallback: Option<real>): Option<real>
  {
    if own.Some? then own else fallback
  }

  /** The row after the load-time `map`: each coordinate falls back, on its own, to
      the state's centroid and then to nothing. */
  function Resolve(r: Record, centroids: map<string, Centroid>): (row: Record)
    ensures row.(latitude := r.latitude, longitude := r.longitude) == r
  {
    var c := if r.state in centroids then Some(centroids[r.state]) else None;
    r.(latitude := Coalesce(r.latitude, if c.Some? then c.value.lat else None),
       longitude := Coalesce(r.longitude, if c.Some? then c.value.lng else None))
  }

  /** A coordinate present in the row is kept; a missing one is the centroid of the
      last centroid row naming the state, or stays missing when no row names it. */
  lemma ResolveFromTable(r: Record, table: seq<CentroidRow>, k: nat)
    requires k < |table| && table[k].state == r.state
    requires forall l :: k < l < |table| ==> table[l].state != r.state
    ensures var row := Resolve(r, CentroidMap(table));
      && row.latitude == (if r.latitude.Some? then r.latitude else table[k].lat)
      && row.longitude == (if r.longitude.Some? then r.longitude else table[k].long)
  {
    CentroidMapSpec(table, r.state);
  }

  lemma ResolveWithoutCentroid(r: Record, table: seq<CentroidRow>)
    requires forall l :: 0 <= l < |table| ==> table[l].state != r.state
    ensures Resolve(r, CentroidMap(table)).latitude == r.latitude
    ensures Resolve(r, CentroidMap(table)).longitude == r.longitude
  {
    CentroidMapSpec(table, r.state);
  }

  predicate Parsed(r: Record) { r.date.Some? }

  /** `rawData`: the resolved rows whose date parsed, in file order. */
  function LoadRows(pfie: seq<Record>, table: seq<CentroidRow>): seq<Record>
  {
    var centroids := CentroidMap(table);
    Filter(Map(pfie, r => Resolve(r, centroids)), Parsed)
  }

  /** Every loaded row has a parsed date, every row of the table whose date parsed
      is loaded (with its coordinates resolved), and there are exactly as many
      loaded rows as rows whose date parsed. */
  lemma {:induction false} LoadRowsSpec(pfie: seq<Record>, table: seq<CentroidRow>)
    ensures |LoadRows(pfie, table)| == Count(pfie, Parsed)
    ensures forall r :: r in LoadRows(pfie, table) ==> Parsed(r)
    ensures forall k :: 0 <= k < |pfie| && Parsed(pfie[k]) ==> Resolve(pfie[k], CentroidMap(table)) in LoadRows(pfie, table)
    ensures forall r :: r in LoadRows(pfie, table) ==>
      exists k :: 0 <= k < |pfie| && Parsed(pfie[k]) && r == Resolve(pfie[k], CentroidMap(table))
  {
    var centroids := CentroidMap(table);
    var resolved := Map(pfie, r => Resolve(r, centroids));
    FilterLength(resolved, Parsed);
    ParsedCount(pfie, centroids);
    forall r | r in LoadRows(pfie, table)
      ensures exists k :: 0 <= k < |pfie| && Parsed(pfie[k]) && r == Resolve(pfie[k], centroids)
    {
      var k :| 0 <= k < |resolved| && resolved[k] == r;
      assert Parsed(pfie[k]);
    }
  }

  /** Loading keeps the file order: loading two consecutive runs of rows is loading
      each in turn, and a single row yields its resolved form exactly when its date
      parsed. */
  lemma LoadRowsOrder(pfie1: seq<Record>, pfie2: seq<Record>, table: seq<CentroidRow>)
    ensures LoadRows(pfie1 + pfie2, table) == LoadRows(pfie1, table) + LoadRows(pfie2, table)
    ensures forall r :: LoadRows([r], table) == if Parsed(r) then [Resolve(r, CentroidMap(table))] else []
  {
    var centroids := CentroidMap(table);
    var f := (r: Record) => Resolve(r, centroids);
    MapAppend(pfie1, pfie2, f);
    FilterAppend(Map(pfie1, f), Map(pfie2, f), Parsed);
    forall r
      ensures LoadRows([r], table) == if Parsed(r) then [Resolve(r, centroids)] else []
    {
      assert Map([r], f) == [Resolve(r, centroids)];
      assert [Resolve(r, centroids)][1..] == [];
    }
  }

  lemma {:induction false} ParsedCount(pfie: seq<Record>, centroids: map<string, Centroid>)
    ensures Count(Map(pfie, r => Resolve(r, centroids)), Parsed) == Count(pfie, Parsed)
  {
    if pfie != [] {
      ParsedCount(pfie[1..], centroids);
      assert Map(pfie, r => Resolve(r, centroids))[1..] == Map(pfie[1..], r => Resolve(r, centroids));
    }
  }

  /** The states of the rows, in row order. */
  function States(rows: seq<Record>): (r: seq<string>)
    ensures |r| == |rows| && forall k :: 0 <= k < |rows| ==> r[k] == rows[k].state
  {
    if rows == [] then [] else [rows[0].state] + States(rows[1..])
  }

  predicate StrictlySorted(s: seq<string>)
  {
    forall i, j :: 0 <= i < j < |s| ==> Less(s[i], s[j])
  }

  /** Adds a state to a sorted list of distinct states unless it is already there. */
  function InsertState(x: string, s: seq<string>): seq<string>
  {
    if s == [] then [x]
    else if x == s[0] then s
    else if Less(x, s[0]) then [x] + s
    else [s[0]] + InsertState(x, s[1..])
  }

  lemma {:induction false} InsertStateSpec(x: string, s: seq<string>)
    requires StrictlySorted(s)
    ensures StrictlySorted(InsertState(x, s))
    ensures forall y :: y in InsertState(x, s) <==> y == x || y in s
  {
    if s != [] {
      assert forall y :: y in s <==> y == s[0] || y in s[1..] by {
        assert s == [s[0]] + s[1..];
      }
      if x != s[0] {
        LessTotal(x, s[0]);
        if Less(x, s[0]) {
          forall k | 0 <= k < |s|
            ensures Less(x, s[k])
          {
            if k > 0 {
              LessTransitive(x, s[0], s[k]);
            }
          }
        } else {
          var t := InsertState(x, s[1..]);
          InsertStateSpec(x, s[1..]);
          forall k | 0 <= k < |t|
            ensures Less(s[0], t[k])
          {
            assert t[k] in t;
          }
        }
      }
    }
  }

  /** `[...new Set(rawData.map(r => r.state))].sort()`. */
  function StateList(rows: seq<Record>): seq<string>
  {
    if rows == [] then [] else InsertState(rows[|rows| - 1].state, StateList(rows[..|rows| - 1]))
  }

  /** The state list is sorted without repetition and names exactly the states of the rows. */
  lemma {:induction false} StateListSpec(rows: seq<Record>)
    ensures StrictlySorted(StateList(rows))
    ensures forall s :: s in StateList(rows) <==> s in States(rows)
  {
    if rows != [] {
      var init := rows[..|rows| - 1];
      StateListSpec(init);
      InsertStateSpec(rows[|rows| - 1].state, StateList(init));
      StatesSnoc(rows);
    }
  }

  /** The states of a non-empty table: those of all rows but the last, and the
      last row's. */
  lemma StatesSnoc(rows: seq<Record>)
    requires rows != []
    ensures forall s :: s in States(rows) <==> s == rows[|rows| - 1].state || s in States(rows[..|rows| - 1])
  {
    var init := rows[..|rows| - 1];
    forall s
      ensures s in States(rows) <==> s == rows[|rows| - 1].state || s in States(init)
    {
      if s in States(rows) {
        var k :| 0 <= k < |rows| && States(rows)[k] == s;
        if k < |rows| - 1 {
          assert States(init)[k] == s;
        }
      }
      if s in States(init) {
        var k :| 0 <= k < |init| && States(init)[k] == s;
        assert States(rows)[k] == s;
      }
      if s == rows[|rows| - 1].state {
        assert States(rows)[|rows| - 1] == s;
      }
    }
  }

  /** No state appears twice in the list. */
  lemma StateListDistinct(rows: seq<Record>, i: nat, j: nat)
    requires i < j < |StateList(rows)|
    ensures StateList(rows)[i] != StateList(rows)[j]
  {
    StateListSpec(rows);
    LessIrreflexive(StateList(rows)[i]);
  }
}
