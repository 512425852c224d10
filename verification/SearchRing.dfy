// How wide the searched ring is against the distances on the map: a degree is 111 km of
// latitude, but only a part of that in longitude, the less the nearer the poles.
module SearchRing {
  import opened Options
  import opened Drivers

  // The square of the distance, for a degree of longitude worth k * 111 km.
  function SquaredKm(a: Location, b: Location, k: real): real {
    Square((a.lat - b.lat) * 111.0) + Square(Along(a.lng - b.lng, k))
  }

  function Square(x: real): (r: real)
    ensures r >= 0.0
  {
    x * x
  }

  // The distance from loc is the planar one, with the cosine of its latitude for k.
  ghost predicate Planar(distance: (Location, Location) -> real, loc: Location, k: real) {
    forall b :: distance(loc, b) >= 0.0 && Square(distance(loc, b)) == SquaredKm(loc, b, k)
  }

  function Query(cfg: Config, loc: Location, distance: (Location, Location) -> real): Search
    requires cfg.cell > 0.0
  {
    Search(loc, cfg.maxPickup, cfg.cell, NeighborRing(cfg), distance)
  }

  // Whatever the drivers, the search agrees with a scan of all of them.
  ghost predicate Wide(q: Search)
    requires q.cell > 0.0
  {
    forall s: Fleet, r :: OnTheMap(s) && Nearest(s, q, r) ==> NearestOfAll(s, q, r)
  }

  ghost predicate OnTheMap(s: Fleet) {
    forall d :: d in s.byId ==> ValidLocation(s.byId[d].location)
  }

  // The length of x degrees of longitude.
  function Along(x: real, k: real): real {
    x * 111.0 * k
  }

  // Where the n-th bucket begins.
  function Edge(n: int, cell: real): real {
    n as real * cell
  }

  // Due east (west) of the ring there still is a location in range.
  predicate EastGap(q: Search, k: real)
    requires q.cell > 0.0
  {
    var edge := Edge(BlockOf(q.loc, q.cell).lng + q.ring + 1, q.cell);
    edge <= 180.0 && Along(edge - q.loc.lng, k) <= q.max
  }

  predicate WestGap(q: Search, k: real)
    requires q.cell > 0.0
  {
    var edge := Edge(BlockOf(q.loc, q.cell).lng - q.ring, q.cell);
    edge > -180.0 && Along(q.loc.lng - edge, k) < q.max
  }

  // Where a location in range lies ----------------------------------------------------

  lemma SquareGrows(x: real, y: real)
    requires x >= 0.0 && y >= 0.0
    ensures x <= y <==> Square(x) <= Square(y)
  {
    var sum, gap := x + y, y - x;
    assert Square(y) - Square(x) == sum * gap;
    if x < y {
      assert sum * gap > 0.0;
    } else if x > y {
      assert sum * -gap > 0.0;
    }
  }

  lemma Grows(x: real, y: real, k: real)
    requires k >= 0.0
    ensures x <= y ==> x * k <= y * k
    ensures x < y && k > 0.0 ==> x * k < y * k
  {
    if x < y && k > 0.0 {
      assert (y - x) * k > 0.0;
    }
  }

  function Size(x: real): (r: real)
    ensures r >= 0.0
  {
    if x < 0.0 then -x else x
  }

  // Not farther than max only if neither side of the triangle is.
  lemma SidesInRange(q: Search, b: Location, k: real)
    requires Planar(q.distance, q.loc, k) && (q.distance)(q.loc, b) <= q.max
    ensures Size((q.loc.lat - b.lat) * 111.0) <= q.max && Size(Along(q.loc.lng - b.lng, k)) <= q.max
  {
    var d := (q.distance)(q.loc, b);
    var x, y := (q.loc.lat - b.lat) * 111.0, Along(q.loc.lng - b.lng, k);
    assert Square(x) == Square(Size(x)) && Square(y) == Square(Size(y));
    SquareGrows(Size(x), d);
    SquareGrows(Size(y), d);
  }

  // On the same latitude the distance is that along it.
  lemma SameLatitude(q: Search, lng: real, k: real)
    requires Planar(q.distance, q.loc, k) && k >= 0.0
    ensures (q.distance)(q.loc, Location(q.loc.lat, lng)) == Along(Size(q.loc.lng - lng), k)
  {
    var b := Location(q.loc.lat, lng);
    var y := Along(q.loc.lng - lng, k);
    var size := Along(Size(q.loc.lng - lng), k);
    LongerAlong(0.0, Size(q.loc.lng - lng), k);
    assert Square(y) == Square(size);
    SquareGrows((q.distance)(q.loc, b), size);
    SquareGrows(size, (q.distance)(q.loc, b));
  }

  lemma LongerAlong(x: real, y: real, k: real)
    requires k >= 0.0
    ensures Along(-x, k) == -Along(x, k)
    ensures x <= y ==> Along(x, k) <= Along(y, k)
    ensures x < y && k > 0.0 ==> Along(x, k) < Along(y, k)
  {
    var u, v := x * 111.0, y * 111.0;
    assert Along(x, k) == u * k && Along(y, k) == v * k;
    Grows(u, v, k);
    assert (-u) * k == -(u * k);
  }

  // A location lies in bucket n or a later one iff it is not before its beginning.
  lemma BucketBounds(x: real, cell: real, n: int)
    requires cell > 0.0
    ensures (x / cell).Floor >= n <==> x >= Edge(n, cell)
  {
    var y := x / cell;
    assert y * cell == x;
    if y >= n as real {
      Grows(n as real, y, cell);
    } else {
      Grows(y, n as real, cell);
    }
  }

  lemma EdgesApart(n: int, m: int, cell: real)
    ensures Edge(n + m, cell) == Edge(n, cell) + Edge(m, cell) && Edge(n - m, cell) == Edge(n, cell) - Edge(m, cell)
    ensures cell > 0.0 && m >= 0 ==> Edge(m, cell) >= 0.0
  {
  }

  // The ring is as wide as the greatest distance, in latitude.
  lemma RingSpans(cfg: Config)
    requires cfg.cell > 0.0
    ensures cfg.maxPickup <= Edge(NeighborRing(cfg), cfg.cell) * 111.0
    ensures cfg.maxPickup > 0.0 ==> NeighborRing(cfg) > 0
  {
    var y := cfg.maxPickup / (cfg.cell * 111.0);
    assert y * (cfg.cell * 111.0) == cfg.maxPickup;
    Grows(y, NeighborRing(cfg) as real, cfg.cell * 111.0);
  }

  // A location within n cells is within n buckets.
  lemma BucketsWithin(x: real, y: real, cell: real, n: int)
    requires cell > 0.0 && Size(x - y) <= Edge(n, cell)
    ensures -n <= (y / cell).Floor - (x / cell).Floor <= n
  {
    var b := (x / cell).Floor;
    BucketBounds(x, cell, b);
    BucketBounds(x, cell, b + 1);
    BucketBounds(y, cell, b - n);
    BucketBounds(y, cell, b + 1 + n);
    EdgesApart(b, n, cell);
    EdgesApart(b + 1, n, cell);
  }

  // In latitude the ring reaches every location in range.
  lemma LatitudeCovered(cfg: Config, q: Search, b: Location, k: real)
    requires cfg.cell > 0.0 && q == Query(cfg, q.loc, q.distance) && Planar(q.distance, q.loc, k)
    requires (q.distance)(q.loc, b) <= q.max
    ensures var c := BlockOf(q.loc, q.cell).lat; -q.ring <= BlockOf(b, q.cell).lat - c <= q.ring
  {
    SidesInRange(q, b, k);
    RingSpans(cfg);
    BucketsWithin(q.loc.lat, b.lat, q.cell, q.ring);
  }

  // In longitude it does if there is no gap.
  lemma LongitudeCovered(q: Search, b: Location, k: real)
    requires q.cell > 0.0 && q.max > 0.0 && k >= 0.0
    requires Planar(q.distance, q.loc, k) && (q.distance)(q.loc, b) <= q.max
    requires ValidLocation(b) && !EastGap(q, k) && !WestGap(q, k)
    ensures var c := BlockOf(q.loc, q.cell).lng; -q.ring <= BlockOf(b, q.cell).lng - c <= q.ring
  {
    SidesInRange(q, b, k);
    var c := BlockOf(q.loc, q.cell).lng;
    BucketBounds(b.lng, q.cell, c - q.ring);
    BucketBounds(b.lng, q.cell, c + q.ring + 1);
    LongerAlong(q.loc.lng - b.lng, 0.0, k);
    LongerAlong(Edge(c + q.ring + 1, q.cell) - q.loc.lng, b.lng - q.loc.lng, k);
    LongerAlong(q.loc.lng - Edge(c - q.ring, q.cell), q.loc.lng - b.lng, k);
    assert k == 0.0 ==> Along(q.loc.lng - Edge(c - q.ring, q.cell), k) == 0.0;
  }

  // A driver in range beyond the ring is not found, even if it is the only one.
  lemma MissedDriver(q: Search, b: Location)
    requires q.cell > 0.0 && ValidLocation(b) && (q.distance)(q.loc, b) <= q.max
    requires !Near(BlockOf(q.loc, q.cell), q.ring, BlockOf(b, q.cell))
    ensures !Wide(q)
  {
    var s := Fleet(map[0 := Driver(Available, b, BlockOf(b, q.cell))], map[BlockOf(b, q.cell) := {0}]);
    assert InRange(s, q, 0);
    assert OnTheMap(s) && Nearest(s, q, None) && !NearestOfAll(s, q, None);
  }

  lemma EastMisses(q: Search, k: real)
    requires q.cell > 0.0 && k >= 0.0 && ValidLocation(q.loc) && Planar(q.distance, q.loc, k)
    requires q.ring >= 0 && EastGap(q, k)
    ensures !Wide(q)
  {
    var c := BlockOf(q.loc, q.cell).lng;
    var east := Edge(c + q.ring + 1, q.cell);
    BucketBounds(q.loc.lng, q.cell, c + q.ring + 1);
    BucketBounds(east, q.cell, c + q.ring + 1);
    SameLatitude(q, east, k);
    MissedDriver(q, Location(q.loc.lat, east));
  }

  lemma WestMisses(q: Search, k: real)
    requires q.cell > 0.0 && q.max > 0.0 && k >= 0.0 && ValidLocation(q.loc) && Planar(q.distance, q.loc, k)
    requires q.ring >= 0 && WestGap(q, k)
    ensures !Wide(q)
  {
    var c := BlockOf(q.loc, q.cell).lng;
    var west := Edge(c - q.ring, q.cell);
    BucketBounds(q.loc.lng, q.cell, c - q.ring);
    var lng := Westward(q, west, k);
    BucketBounds(lng, q.cell, c - q.ring);
    SameLatitude(q, lng, k);
    MissedDriver(q, Location(q.loc.lat, lng));
  }

  // A longitude on the map, in range and west of the edge.
  function Westward(q: Search, west: real, k: real): (lng: real)
    requires 180.0 >= q.loc.lng >= west > -180.0 && k >= 0.0 && q.max > 0.0 && Along(q.loc.lng - west, k) < q.max
    ensures -180.0 <= lng < west && Along(q.loc.lng - lng, k) <= q.max
  {
    if Along(q.loc.lng + 180.0, k) <= q.max then -180.0
    else
      assert k > 0.0;
      var reach := q.max / (111.0 * k);
      assert Along(reach, k) == q.max by {
        assert reach * (111.0 * k) == q.max;
      }
      LongerAlong(reach, q.loc.lng - west, k);
      LongerAlong(q.loc.lng + 180.0, reach, k);
      q.loc.lng - reach
  }

  // For pickups up to the configured distance: the search agrees with a scan of all
  // drivers, whoever they are, iff there is no gap to the east or west.
  lemma RingWideIff(cfg: Config, loc: Location, distance: (Location, Location) -> real, k: real)
    requires cfg.cell > 0.0 && cfg.maxPickup > 0.0 && ValidLocation(loc) && k >= 0.0 && Planar(distance, loc, k)
    ensures var q := Query(cfg, loc, distance); Wide(q) <==> !EastGap(q, k) && !WestGap(q, k)
  {
    var q := Query(cfg, loc, distance);
    RingSpans(cfg);
    if EastGap(q, k) {
      EastMisses(q, k);
    } else if WestGap(q, k) {
      WestMisses(q, k);
    } else {
      forall s: Fleet, r | OnTheMap(s) && Nearest(s, q, r) ensures NearestOfAll(s, q, r) {
        forall d | InRange(s, q, d) ensures Candidate(s, q, d) {
          LatitudeCovered(cfg, q, s.byId[d].location, k);
          LongitudeCovered(q, s.byId[d].location, k);
        }
        RingSuffices(s, q, r);
      }
    }
  }

  // On the equator there never is one.
  lemma WideOnEquator(cfg: Config, loc: Location, distance: (Location, Location) -> real)
    requires cfg.cell > 0.0 && cfg.maxPickup > 0.0 && ValidLocation(loc) && Planar(distance, loc, 1.0)
    ensures Wide(Query(cfg, loc, distance))
  {
    var q := Query(cfg, loc, distance);
    RingSpans(cfg);
    var c := BlockOf(q.loc, q.cell).lng;
    BucketBounds(loc.lng, q.cell, c);
    BucketBounds(loc.lng, q.cell, c + 1);
    EdgesApart(c, q.ring, q.cell);
    EdgesApart(c + 1, q.ring, q.cell);
    assert Edge(c + q.ring + 1, q.cell) - loc.lng > Edge(q.ring, q.cell);
    RingWideIff(cfg, loc, distance, 1.0);
  }

  // With the default settings at 60 degrees north, where a degree of longitude is half
  // as long, a driver 3.33 km to the east is missed although 5 km are allowed.
  lemma NarrowInTheNorth(distance: (Location, Location) -> real, timeout: int)
    requires Planar(distance, Location(60.0, 0.0), 0.5)
    ensures distance(Location(60.0, 0.0), Location(60.0, 0.06)) == 3.33
    ensures !Wide(Query(Config(0.01, 5.0, timeout, 50.0, 12.0), Location(60.0, 0.0), distance))
  {
    var cfg := Config(0.01, 5.0, timeout, 50.0, 12.0);
    var q := Query(cfg, Location(60.0, 0.0), distance);
    SameLatitude(q, 0.06, 0.5);
    assert cfg.maxPickup / (cfg.cell * 111.0) == 5.0 / 1.11;
    assert NeighborRing(cfg) == 5;
    assert BlockOf(q.loc, q.cell).lng == 0;
    BucketBounds(0.06, q.cell, 6);
    MissedDriver(q, Location(60.0, 0.06));
  }
}
