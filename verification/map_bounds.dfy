/**
 * The bounding box of the observation map: the arithmetic of
 * `plot_observations_on_map` that chooses the corners handed to the map
 * projection.  Coordinates are exact reals.
 */
module MapBounds {

  datatype Point = Point(lat: real, lon: real)

  /** Lower-left and upper-right corners. */
  datatype Box = Box(llLat: real, urLat: real, llLon: real, urLon: real)


  function Min(xs: seq<real>): (m: real)
    requires |xs| > 0
    ensures m in xs
    ensures forall i :: 0 <= i < |xs| ==> m <= xs[i]
  {
    if |xs| == 1 then xs[0]
    else
      var rest := Min(xs[1..]);
      if xs[0] <= rest then xs[0] else rest
  }

  function Max(xs: seq<real>): (m: real)
    requires |xs| > 0
    ensures m in xs
    ensures forall i :: 0 <= i < |xs| ==> xs[i] <= m
  {
    if |xs| == 1 then xs[0]
    else
      var rest := Max(xs[1..]);
      if rest <= xs[0] then xs[0] else rest
  }

  function Lats(points: seq<Point>): (lats: seq<real>)
    ensures |lats| == |points| && forall i :: 0 <= i < |points| ==> lats[i] == points[i].lat
  {
    seq(|points|, i requires 0 <= i < |points| => points[i].lat)
  }

  function Lons(points: seq<Point>): (lons: seq<real>)
    ensures |lons| == |points| && forall i :: 0 <= i < |points| ==> lons[i] == points[i].lon
  {
    seq(|points|, i requires 0 <= i < |points| => points[i].lon)
  }

  /** `hi - lo or 0.1`: the difference, unless it is zero. */
  function Span(lo: real, hi: real): real
  {
    if hi - lo == 0.0 then 0.1 else hi - lo
  }

  /**
   * The padded box: a quarter of the latitude span added above and below,
   * four times that factor (the whole longitude span) left and right.
   * `main` stops before plotting when no observation was collected, so the
   * point list is never empty here.
   */
  function BoundingBox(points: seq<Point>): (b: Box)
    requires |points| > 0
    ensures b.llLat < b.urLat && b.llLon < b.urLon
    ensures forall p :: p in points ==> b.llLat < p.lat < b.urLat && b.llLon < p.lon < b.urLon
    ensures b == Corners(Min(Lats(points)), Max(Lats(points)), Min(Lons(points)), Max(Lons(points)))
  {
    var lats, lons := Lats(points), Lons(points);
    var minLat, maxLat := Min(lats), Max(lats);
    var minLon, maxLon := Min(lons), Max(lons);
    forall p | p in points
      ensures minLat <= p.lat <= maxLat && minLon <= p.lon <= maxLon
    {
      var i :| 0 <= i < |points| && points[i] == p;
      assert lats[i] == p.lat && lons[i] == p.lon;
    }
    Corners(minLat, maxLat, minLon, maxLon)
  }

  /**
   * The corners computed from the extreme coordinates: the box is centred on
   * the points' extent, a quarter of the latitude span taller than it at each
   * end and the whole longitude span wider than it at each side.
   */
  function Corners(minLat: real, maxLat: real, minLon: real, maxLon: real): (b: Box)
    ensures b.llLat + b.urLat == minLat + maxLat && b.llLon + b.urLon == minLon + maxLon
    ensures b.urLat - b.llLat == maxLat - minLat + Span(minLat, maxLat) / 2.0
    ensures b.urLon - b.llLon == maxLon - minLon + 2.0 * Span(minLon, maxLon)
  {
    var latDiff := Span(minLat, maxLat);
    var lonDiff := Span(minLon, maxLon);
    // padding_factor = 0.25; longitudes get four times it
    Box(minLat - latDiff * 0.25, maxLat + latDiff * 0.25,
        minLon - lonDiff * 0.25 * 4.0, maxLon + lonDiff * 0.25 * 4.0)
  }

  /** When all points share one latitude the box is 0.05 degrees tall, and centred on it. */
  lemma SameLatitude(points: seq<Point>, lat: real)
    requires |points| > 0
    requires forall p :: p in points ==> p.lat == lat
    ensures BoundingBox(points).urLat - BoundingBox(points).llLat == 0.05
    ensures BoundingBox(points).llLat + BoundingBox(points).urLat == 2.0 * lat
  {
    var lats := Lats(points);
    assert Min(lats) == lat by {
      var i :| 0 <= i < |lats| && lats[i] == Min(lats);
      assert points[i] in points;
    }
    assert Max(lats) == lat by {
      var i :| 0 <= i < |lats| && lats[i] == Max(lats);
      assert points[i] in points;
    }
  }
}
