/** The marker positions of `drawMapPoints`: the filtered rows that have both
    coordinates, their coordinates shifted by the seeded jitter when the jitter
    amount is positive. The slider value is the parameter `steps`; markers,
    popups, clustering and the map view are not part of this model. */
module MapPoints {
  import opened Seqs
  import opened Prng
  import opened Jitter
  import opened Records
  import opened Filters

  predicate Located(d: Decorated)
  {
    d.row.latitude.Some? && d.row.longitude.Some?
  }

  /** `pts`: the filtered rows with a latitude and a longitude, in order. */
  function Points(filtered: seq<Decorated>): seq<Decorated>
  {
    Filter(filtered, Located)
  }

  /** A coordinate as a JavaScript array holds it: a number, or `null`. */
  function AsNum(x: Option<real>): Num
  {
    if x.Some? then Finite(x.value) else Null
  }

  /** `rows.map(r => r.latitude)`. */
  function Lats(rows: seq<Decorated>): seq<Num>
  {
    Map(rows, (d: Decorated) => AsNum(d.row.latitude))
  }

  /** `rows.map(r => r.longitude)`. */
  function Lons(rows: seq<Decorated>): seq<Num>
  {
    Map(rows, (d: Decorated) => AsNum(d.row.longitude))
  }

  /** `Math.round(x)`: the nearest integer, a half rounded up. */
  function Round(x: real): int
  {
    (x + 0.5).Floor
  }

  /** The rounded value is within a half of `x`, a half below it excluded. */
  lemma RoundSpec(x: real)
    ensures x - 0.5 < Round(x) as real <= x + 0.5
  {
  }

  /** The seed of the latitude jitter; the longitude jitter uses the next one. */
  function JitterSeed(steps: real): int
  {
    Round(steps) + 1000
  }

  /** `computeJitterAmount()` over the coordinates of all filtered rows. */
  function Amount(steps: real, filtered: seq<Decorated>): real
  {
    Scaled(steps, BaseUnit(MedianGap(Lons(filtered)), MedianGap(Lats(filtered))))
  }

  /** The coordinate arrays handed to the markers. */
  datatype Positions = Positions(lats: seq<Num>, lons: seq<Num>)

  function MarkerPositions(filtered: seq<Decorated>, steps: real): Positions
  {
    var pts := Points(filtered);
    var amount := Amount(steps, filtered);
    var seed := JitterSeed(steps);
    if amount > 0.0 then Positions(Jittered(Lats(pts), amount, seed), Jittered(Lons(pts), amount, seed + 1))
    else Positions(Lats(pts), Lons(pts))
  }

  lemma PointsSpec(filtered: seq<Decorated>)
    ensures forall d :: d in Points(filtered) ==> Located(d)
    ensures forall d :: d in filtered && Located(d) ==> d in Points(filtered)
    ensures |Points(filtered)| == Count(filtered, Located)
  {
    FilterLength(filtered, Located);
  }

  /** Every point takes one draw, so point `i` takes draw `i + 1`. */
  lemma DrawsBeforePoint(pts: seq<Decorated>, i: nat)
    requires forall d :: d in pts ==> Located(d)
    requires i <= |pts|
    ensures DrawsBefore(Lats(pts), i) == i && DrawsBefore(Lons(pts), i) == i
  {
    var lats := Lats(pts)[..i];
    var lons := Lons(pts)[..i];
    forall v | v in lats
      ensures TakesDraw(v)
    {
      var k :| 0 <= k < |lats| && lats[k] == v;
      assert pts[k] in pts;
    }
    forall v | v in lons
      ensures TakesDraw(v)
    {
      var k :| 0 <= k < |lons| && lons[k] == v;
      assert pts[k] in pts;
    }
    CountAll(lats, TakesDraw);
    CountAll(lons, TakesDraw);
  }

  /** A present coordinate preceded by `i` present ones is shifted by value number
      `i + 1` and moves by at most the amount. */
  lemma JitteredPoint(values: seq<Num>, x: real, amount: real, seed: int, i: nat)
    requires i < |values| && values[i] == Finite(x) && DrawsBefore(values, i) == i && amount > 0.0
    ensures var w := Jittered(values, amount, seed)[i];
      && w == Shift(Finite(x), Output(StateAfter(ToUint32(seed), i + 1)), amount)
      && w.Finite? && x - amount <= w.value <= x + amount
  {
    JitteredAt(values, amount, seed, i);
  }

  /** One position per located row, in order. At slider position 0 (or below) the
      amount is not positive and the positions are the rows' own coordinates. At a positive position
      the amount is positive; the latitude of point `i` is shifted by value
      number `i + 1` of the generator seeded with the rounded slider value plus
      1000, the longitude by the same value of the generator seeded one higher,
      and neither moves by more than the amount. */
  lemma MarkerPositionsSpec(filtered: seq<Decorated>, steps: real, i: nat)
    requires i < |Points(filtered)|
    ensures var p := MarkerPositions(filtered, steps);
      var d := Points(filtered)[i];
      var amount := Amount(steps, filtered);
      && |p.lats| == |p.lons| == |Points(filtered)|
      && Located(d) && p.lats[i].Finite? && p.lons[i].Finite?
      && (steps <= 0.0 ==> p.lats[i].value == d.row.latitude.value && p.lons[i].value == d.row.longitude.value)
      && (steps > 0.0 ==>
            (amount > 0.0
             && p.lats[i] == Shift(Finite(d.row.latitude.value), Output(StateAfter(ToUint32(JitterSeed(steps)), i + 1)), amount)
             && p.lons[i] == Shift(Finite(d.row.longitude.value), Output(StateAfter(ToUint32(JitterSeed(steps) + 1), i + 1)), amount)))
      && d.row.latitude.value - RealAbs(amount) <= p.lats[i].value <= d.row.latitude.value + RealAbs(amount)
      && d.row.longitude.value - RealAbs(amount) <= p.lons[i].value <= d.row.longitude.value + RealAbs(amount)
  {
    var pts := Points(filtered);
    PointsSpec(filtered);
    assert pts[i] in pts;
    var amount := Amount(steps, filtered);
    var lat := pts[i].row.latitude.value;
    var lon := pts[i].row.longitude.value;
    assert Lats(pts)[i] == Finite(lat);
    assert Lons(pts)[i] == Finite(lon);
    if amount > 0.0 {
      DrawsBeforePoint(pts, i);
      JitteredPoint(Lats(pts), lat, amount, JitterSeed(steps), i);
      JitteredPoint(Lons(pts), lon, amount, JitterSeed(steps) + 1, i);
    }
  }

  /** `drawMapPoints` up to the markers: nothing is drawn without points;
      otherwise the amount, the seed, and the jitter of each coordinate array
      when the amount is positive. */
  method DrawMapPoints(filtered: seq<Decorated>, steps: real) returns (p: Positions)
    ensures p == MarkerPositions(filtered, steps)
  {
    var pts := Points(filtered);
    if |pts| == 0 {
      return Positions([], []);
    }
    var amount := ComputeJitterAmount(steps, Lats(filtered), Lons(filtered));
    var seed := Round(steps) + 1000;
    var rawLats := Lats(pts);
    var rawLons := Lons(pts);
    var lats := rawLats;
    var lons := rawLons;
    if amount > 0.0 {
      lats := ApplyJitter(rawLats, amount, seed);
      lons := ApplyJitter(rawLons, amount, seed + 1);
    }
    p := Positions(lats, lons);
  }
}
