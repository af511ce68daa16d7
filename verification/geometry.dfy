/**
 Planar coordinates and the axis-aligned bounding box that the flight-path
 generator folds out of a survey ring (components/map-view.tsx).
 Longitude and latitude are treated as flat Cartesian coordinates, exactly
 as the source does; they are exact reals here rather than IEEE doubles.
 */
module Geometry {
  import opened Wrappers

  /** A GeoJSON position `[lng, lat]`. */
  datatype Point = Point(lng: real, lat: real)

  /** The bounding box `{minLng, maxLng, minLat, maxLat}`. */
  datatype Box = Box(minLng: real, maxLng: real, minLat: real, maxLat: real)

  function Min(a: real, b: real): real { if a <= b then a else b }
  function Max(a: real, b: real): real { if a <= b then b else a }

  /** Minima never exceed maxima. */
  predicate WellFormed(b: Box) {
    b.minLng <= b.maxLng && b.minLat <= b.maxLat
  }

  predicate InBox(b: Box, p: Point) {
    b.minLng <= p.lng <= b.maxLng && b.minLat <= p.lat <= b.maxLat
  }

  /**
   One step of the reduce. The source seeds the fold with +Infinity for the
   minima and -Infinity for the maxima; `None` stands for that seed, and
   `Math.min(+Infinity, x) == x` makes its first step the degenerate box at
   the point itself.
   */
  function Include(acc: Option<Box>, p: Point): (r: Box)
    ensures InBox(r, p)
    ensures acc.None? ==> r == Box(p.lng, p.lng, p.lat, p.lat)
    ensures acc.Some? ==> r.minLng <= acc.value.minLng && acc.value.maxLng <= r.maxLng
    ensures acc.Some? ==> r.minLat <= acc.value.minLat && acc.value.maxLat <= r.maxLat
    // Each new bound is the coordinate or the previous bound, whichever is further out.
    ensures acc.Some? ==> r.minLng == Min(acc.value.minLng, p.lng) && r.maxLng == Max(acc.value.maxLng, p.lng)
    ensures acc.Some? ==> r.minLat == Min(acc.value.minLat, p.lat) && r.maxLat == Max(acc.value.maxLat, p.lat)
  {
    match acc
    case None => Box(p.lng, p.lng, p.lat, p.lat)
    case Some(b) => Box(Min(b.minLng, p.lng), Max(b.maxLng, p.lng), Min(b.minLat, p.lat), Max(b.maxLat, p.lat))
  }

  /**
   The bounds of a ring, folded left to right as `coordinates.reduce` does.
   `None` is the untouched seed, which only the empty ring produces.
   Every vertex lies in the box, and each of the four bounds is attained by
   some vertex.
   */
  function BoundsOf(ring: seq<Point>): (r: Option<Box>)
    ensures r.None? <==> |ring| == 0
    ensures r.Some? ==> WellFormed(r.value)
    ensures r.Some? ==> forall p :: p in ring ==> InBox(r.value, p)
    ensures r.Some? ==> exists p :: p in ring && p.lng == r.value.minLng
    ensures r.Some? ==> exists p :: p in ring && p.lng == r.value.maxLng
    ensures r.Some? ==> exists p :: p in ring && p.lat == r.value.minLat
    ensures r.Some? ==> exists p :: p in ring && p.lat == r.value.maxLat
  {
    if |ring| == 0 then None
    else
      var init := ring[..|ring| - 1];
      var last := ring[|ring| - 1];
      assert ring == init + [last];
      Some(Include(BoundsOf(init), last))
  }
}
