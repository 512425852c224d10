// The store's methods over its two maps.
module DriverStore {
  import opened Options
  import opened Drivers

  class MemoryStore {
    const cfg: Config
    const distance: (Location, Location) -> real
    var byId: map<int, Driver>
    var blocks: map<Block, set<int>>

    ghost function View(): Fleet
      reads this
    {
      Fleet(byId, blocks)
    }

    ghost predicate Valid()
      reads this
    {
      cfg.cell > 0.0 && IndexExact(View(), cfg.cell)
    }

    constructor (cfg: Config, distance: (Location, Location) -> real)
      requires cfg.cell > 0.0
      ensures Valid() && View() == Fleet(map[], map[]) && this.cfg == cfg && this.distance == distance
    {
      this.cfg, this.distance := cfg, distance;
      byId, blocks := map[], map[];
    }

    method Register(d: int, l: Location) returns (error: Option<Error>)
      requires Valid()
      modifies this
      ensures Valid() && (View(), error) == Drivers.Register(old(View()), d, l, cfg.cell)
    {
      RegisteredExact(View(), d, l, cfg.cell);
      if !ValidLocation(l) {
        return Some(InvalidLocation);
      }
      if d in byId {
        return Some(DuplicateDriver);
      }
      byId := byId[d := Driver(Offline, l, BlockOf(l, cfg.cell))];
      return None;
    }

    method GoOnline(d: int) returns (error: Option<Error>)
      requires Valid()
      modifies this
      ensures Valid() && (View(), error) == Drivers.GoOnline(old(View()), d, cfg.cell)
    {
      if d !in byId {
        return Some(DriverNotFound);
      }
      match byId[d].status {
        case Available => return None;
        case Busy => return Some(InvalidStatusChange);
        case Offline =>
          ActivatedExact(View(), d, cfg.cell);
          byId := byId[d := byId[d].(status := Available, block := BlockOf(byId[d].location, cfg.cell))];
          AddAvailableDriver(d);
          return None;
      }
    }

    method GoOffline(d: int) returns (error: Option<Error>)
      requires Valid()
      modifies this
      ensures Valid() && (View(), error) == Drivers.GoOffline(old(View()), d)
    {
      if d !in byId {
        return Some(DriverNotFound);
      }
      match byId[d].status {
        case Offline => return None;
        case Busy => return Some(InvalidStatusChange);
        case Available =>
          DeactivatedExact(View(), d, Offline, cfg.cell);
          RemoveAvailableDriver(d);
          byId := byId[d := byId[d].(status := Offline)];
          return None;
      }
    }

    method Assign(d: int) returns (error: Option<Error>)
      requires Valid()
      modifies this
      ensures Valid() && (View(), error) == Drivers.Assign(old(View()), d)
    {
      if d !in byId {
        return Some(DriverNotFound);
      }
      match byId[d].status {
        case Busy => return None;
        case Offline => return Some(InvalidStatusChange);
        case Available =>
          DeactivatedExact(View(), d, Busy, cfg.cell);
          RemoveAvailableDriver(d);
          byId := byId[d := byId[d].(status := Busy)];
          return None;
      }
    }

    method Release(d: int) returns (error: Option<Error>)
      requires Valid()
      modifies this
      ensures Valid() && (View(), error) == Drivers.Release(old(View()), d, cfg.cell)
    {
      if d !in byId {
        return Some(DriverNotFound);
      }
      match byId[d].status {
        case Available => return None;
        case Offline => return Some(InvalidStatusChange);
        case Busy =>
          ActivatedExact(View(), d, cfg.cell);
          byId := byId[d := byId[d].(status := Available, block := BlockOf(byId[d].location, cfg.cell))];
          AddAvailableDriver(d);
          return None;
      }
    }

    method UpdateLocation(d: int, l: Location) returns (error: Option<Error>)
      requires Valid()
      modifies this
      ensures Valid() && (View(), error) == Drivers.UpdateLocation(old(View()), d, l, cfg.cell)
    {
      MovedExact(View(), d, l, cfg.cell);
      if !ValidLocation(l) {
        return Some(InvalidLocation);
      }
      if d !in byId {
        return Some(DriverNotFound);
      }
      if byId[d].status == Available {
        RemoveAvailableDriver(d);
      }
      byId := byId[d := byId[d].(location := l, block := BlockOf(l, cfg.cell))];
      if byId[d].status == Available {
        AddAvailableDriver(d);
      }
      return None;
    }

    method AddAvailableDriver(d: int)
      requires d in byId
      modifies this`blocks
      ensures blocks == AddAvailable(old(blocks), byId[d].block, d)
    {
      var b := byId[d].block;
      if b !in blocks {
        blocks := blocks[b := {}];
      }
      blocks := blocks[b := blocks[b] + {d}];
    }

    method RemoveAvailableDriver(d: int)
      requires d in byId
      modifies this`blocks
      ensures blocks == RemoveAvailable(old(blocks), byId[d].block, d)
    {
      var b := byId[d].block;
      if b !in blocks {
        return;
      }
      blocks := blocks[b := blocks[b] - {d}];
      if |blocks[b]| == 0 {
        blocks := blocks - {b};
      }
    }

    ghost function Query(loc: Location, max: real): Search
      reads this
      requires cfg.cell > 0.0
    {
      Search(loc, max, cfg.cell, NeighborRing(cfg), distance)
    }

    // The drivers indexed under the first blocks.
    ghost predicate Visited(visited: set<int>, blocks: seq<Block>)
      reads this
    {
      forall d :: d in visited <==> d in byId && byId[d].status == Available && byId[d].block in blocks
    }

    // The available drivers under one block, none if the block is not indexed.
    function At(b: Block): (ds: set<int>)
      reads this
    {
      if b in blocks then blocks[b] else {}
    }

    // An available driver within max, in a block of the searched square.
    ghost predicate Eligible(loc: Location, max: real, d: int)
      requires cfg.cell > 0.0
      reads this
    {
      && d in byId && byId[d].status == Available && distance(loc, byId[d].location) <= max
      && Near(BlockOf(loc, cfg.cell), NeighborRing(cfg), BlockOf(byId[d].location, cfg.cell))
    }

    // Driver e is no nearer to loc than d, and of two as near d has the smaller ID.
    ghost predicate NoNearer(loc: Location, d: int, e: int)
      reads this
      requires d in byId && e in byId
    {
      && distance(loc, byId[d].location) <= distance(loc, byId[e].location)
      && (distance(loc, byId[d].location) == distance(loc, byId[e].location) ==> d <= e)
    }

    // Distances that tie go to the smaller ID, so the order of a visit is immaterial.
    method FindNearestAvailable(loc: Location, max: real) returns (r: Option<(int, real)>, error: Option<Error>)
      requires Valid()
      ensures r.Some? <==> error.None?
      ensures error.Some? ==> error.value == if ValidLocation(loc) then NoDriverFound else InvalidLocation
      ensures !ValidLocation(loc) || max <= 0.0 ==> r.None?
      ensures ValidLocation(loc) && max > 0.0 ==> Nearest(View(), Query(loc, max), Who(r))
      ensures ValidLocation(loc) && max > 0.0 ==>
        (NearestOfAll(View(), Query(loc, max), Who(r)) <==> StragglersBeaten(View(), Query(loc, max)))
      ensures r.Some? ==> r.value.0 in byId && r.value.1 == distance(loc, byId[r.value.0].location)
      ensures r.Some? ==> Eligible(loc, max, r.value.0)
      ensures ValidLocation(loc) && max > 0.0 ==>
        forall e :: Eligible(loc, max, e) ==> r.Some? && NoNearer(loc, r.value.0, e)
    {
      if !ValidLocation(loc) {
        return None, Some(InvalidLocation);
      }
      if max <= 0.0 {
        return None, Some(NoDriverFound);
      }
      var around := NeighborBlocks(BlockOf(loc, cfg.cell), NeighborRing(cfg));
      ghost var visited: set<int> := {};
      r := None;
      for i := 0 to |around|
        invariant Visited(visited, around[..i]) && Leading(View(), Query(loc, max), visited, r)
      {
        assert around[..i + 1] == around[..i] + [around[i]];
        VisitBlock(visited, around[..i], around[i]);
        r := ScanBlock(around[i], loc, max, r, visited);
        visited := visited + At(around[i]);
      }
      assert around[..|around|] == around;
      LeadingIsNearest(loc, max, visited, around, r);
      RingSuffices(View(), Query(loc, max), Who(r));
      if r.None? {
        return None, Some(NoDriverFound);
      }
      return r, None;
    }

    lemma VisitBlock(visited: set<int>, done: seq<Block>, b: Block)
      requires Valid() && Visited(visited, done)
      ensures Visited(visited + At(b), done + [b])
    {
      forall d ensures d in At(b) <==> Listed(View(), b, d) {}
    }

    lemma LeadingIsNearest(loc: Location, max: real, visited: set<int>, around: seq<Block>, r: Option<(int, real)>)
      requires Valid() && Visited(visited, around) && Leading(View(), Query(loc, max), visited, r)
      requires forall b :: b in around <==> Near(BlockOf(loc, cfg.cell), NeighborRing(cfg), b)
      ensures Nearest(View(), Query(loc, max), Who(r))
    {
      var s, q := View(), Query(loc, max);
      forall d ensures Candidate(s, q, d) <==> d in visited && InRange(s, q, d) {}
    }

    // Up to `limit` drivers, nearest first.
    method FindNNearestAvailable(loc: Location, limit: int, max: real) returns (r: seq<int>, error: Option<Error>)
      requires Valid()
      ensures !ValidLocation(loc) ==> r == [] && error == Some(InvalidLocation)
      ensures ValidLocation(loc) && limit <= 0 ==> r == [] && error == None
      ensures ValidLocation(loc) && limit > 0 && max <= 0.0 ==> r == [] && error == Some(NoDriverFound)
      ensures ValidLocation(loc) && limit > 0 && max > 0.0 ==>
        NearestFew(View(), Query(loc, max), limit, r) && (error == if r == [] then Some(NoDriverFound) else None)
      ensures forall i :: 0 <= i < |r| ==> Eligible(loc, max, r[i])
      ensures |r| > 0 ==> |r| <= limit && forall i, j :: 0 <= i < j < |r| ==> r[i] != r[j] && NoNearer(loc, r[i], r[j])
      ensures ValidLocation(loc) && max > 0.0 && limit > 0 ==>
        forall e :: Eligible(loc, max, e) && e !in r ==>
          |r| == limit && forall i :: 0 <= i < |r| ==> NoNearer(loc, r[i], e)
    {
      if !ValidLocation(loc) {
        return [], Some(InvalidLocation);
      }
      if limit <= 0 {
        return [], None;
      }
      if max <= 0.0 {
        return [], Some(NoDriverFound);
      }
      var around := NeighborBlocks(BlockOf(loc, cfg.cell), NeighborRing(cfg));
      ghost var visited: set<int> := {};
      var candidates: seq<int> := [];
      for i := 0 to |around|
        invariant Visited(visited, around[..i]) && Lists(View(), Query(loc, max), visited, candidates)
      {
        assert around[..i + 1] == around[..i] + [around[i]];
        VisitBlock(visited, around[..i], around[i]);
        AtIsNew(visited, around, i);
        candidates := CollectBlock(around[i], loc, max, candidates, visited);
        visited := visited + At(around[i]);
      }
      assert around[..|around|] == around;
      ListsCandidates(loc, max, visited, around, candidates);
      SortedPrefix(View(), Query(loc, max), candidates, limit);
      if |candidates| == 0 {
        return [], Some(NoDriverFound);
      }
      var q := Search(loc, max, cfg.cell, NeighborRing(cfg), distance);
      var sorted := Sorted(Fleet(byId, blocks), q, candidates);
      return sorted[..if limit < |candidates| then limit else |candidates|], None;
    }

    lemma AtIsNew(visited: set<int>, around: seq<Block>, i: nat)
      requires Valid() && i < |around| && Visited(visited, around[..i])
      requires forall j, k :: 0 <= j < k < |around| ==> around[j] != around[k]
      ensures At(around[i]) !! visited
    {
      forall d | d in At(around[i]) ensures d !in visited {
        assert Listed(View(), around[i], d);
      }
    }

    lemma ListsCandidates(loc: Location, max: real, visited: set<int>, around: seq<Block>, candidates: seq<int>)
      requires Valid() && Visited(visited, around) && Lists(View(), Query(loc, max), visited, candidates)
      requires forall b :: b in around <==> Near(BlockOf(loc, cfg.cell), NeighborRing(cfg), b)
      ensures forall d :: d in candidates <==> Candidate(View(), Query(loc, max), d)
    {
      var s, q := View(), Query(loc, max);
      forall d ensures Candidate(s, q, d) <==> d in visited && InRange(s, q, d) {}
    }

    method CollectBlock(b: Block, loc: Location, max: real, candidates: seq<int>, ghost visited: set<int>)
      returns (r: seq<int>)
      requires Valid() && Lists(View(), Query(loc, max), visited, candidates) && At(b) !! visited
      ensures Lists(View(), Query(loc, max), visited + At(b), r)
    {
      r := candidates;
      var todo := At(b);
      while exists d :: d in todo
        invariant todo <= At(b) && Lists(View(), Query(loc, max), visited + (At(b) - todo), r)
        decreases |todo|
      {
        var d :| d in todo;
        assert Listed(View(), b, d);
        assert visited + (At(b) - (todo - {d})) == visited + (At(b) - todo) + {d};
        todo := todo - {d};
        if distance(loc, byId[d].location) <= max {
          r := r + [d];
        }
      }
      assert todo == {};
      assert At(b) - todo == At(b);
    }

    // The best so far, over the drivers of one block too.
    method ScanBlock(b: Block, loc: Location, max: real, best: Option<(int, real)>, ghost visited: set<int>)
      returns (r: Option<(int, real)>)
      requires Valid() && Leading(View(), Query(loc, max), visited, best)
      ensures Leading(View(), Query(loc, max), visited + At(b), r)
    {
      r := best;
      var todo := At(b);
      while exists d :: d in todo
        invariant todo <= At(b) && Leading(View(), Query(loc, max), visited + (At(b) - todo), r)
        decreases |todo|
      {
        var d :| d in todo;
        assert Listed(View(), b, d);
        assert visited + (At(b) - (todo - {d})) == visited + (At(b) - todo) + {d};
        todo := todo - {d};
        var km := distance(loc, byId[d].location);
        if km > max {
          continue;
        }
        if r.None? || km < r.value.1 || (km == r.value.1 && d < r.value.0) {
          r := Some((d, km));
        }
      }
      assert todo == {};
      assert At(b) - todo == At(b);
    }
  }

  // The visited drivers in range, each once.
  ghost predicate Lists(s: Fleet, q: Search, visited: set<int>, ids: seq<int>) {
    && Known(s, ids) && (forall i, j :: 0 <= i < j < |ids| ==> ids[i] != ids[j])
    && forall d :: d in ids <==> d in visited && InRange(s, q, d)
  }

  function Who(r: Option<(int, real)>): Option<int> {
    if r.None? then None else Some(r.value.0)
  }

  // The best driver in range among those visited.
  ghost predicate Leading(s: Fleet, q: Search, visited: set<int>, r: Option<(int, real)>) {
    match r
    case None => forall d :: d in visited ==> !InRange(s, q, d)
    case Some((d, km)) =>
      && d in visited && InRange(s, q, d) && km == Away(s, q, d)
      && forall e :: e in visited && InRange(s, q, e) && e != d ==> Before(s, q, d, e)
  }
}
