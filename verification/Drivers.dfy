// The driver store: three statuses, and a grid of blocks that indexes the drivers who
// are available.
module Drivers {
  import opened Options

  datatype Location = Location(lat: real, lng: real)

  datatype Block = Block(lat: int, lng: int)

  datatype Status = Offline | Available | Busy

  datatype Driver = Driver(status: Status, location: Location, block: Block)

  datatype Config = Config(cell: real, maxPickup: real, timeout: int, baseFare: real, farePerKm: real)

  datatype Fleet = Fleet(byId: map<int, Driver>, blocks: map<Block, set<int>>)

  datatype Error = DuplicateDriver | DriverNotFound | InvalidLocation | InvalidStatusChange | NoDriverFound

  // Geometry -----------------------------------------------------------------------

  predicate ValidLocation(l: Location) {
    -90.0 <= l.lat <= 90.0 && -180.0 <= l.lng <= 180.0
  }

  function BlockOf(l: Location, cell: real): Block
    requires cell > 0.0
  {
    Block((l.lat / cell).Floor, (l.lng / cell).Floor)
  }

  function NeighborRing(cfg: Config): int
    requires cfg.cell > 0.0
  {
    -((-(cfg.maxPickup / (cfg.cell * 111.0))).Floor)
  }

  predicate Near(c: Block, ring: int, b: Block) {
    -ring <= b.lat - c.lat <= ring && -ring <= b.lng - c.lng <= ring
  }

  // The blocks of the square around the centre, each once.
  method NeighborBlocks(c: Block, ring: int) returns (blocks: seq<Block>)
    ensures forall b :: b in blocks <==> Near(c, ring, b)
    ensures forall i, j :: 0 <= i < j < |blocks| ==> blocks[i] != blocks[j]
  {
    blocks := [];
    var lat := -ring;
    while lat <= ring
      invariant -ring <= lat && (ring >= 0 ==> lat <= ring + 1)
      invariant forall b :: b in blocks <==> Near(c, ring, b) && b.lat - c.lat < lat
      invariant forall i, j :: 0 <= i < j < |blocks| ==> blocks[i] != blocks[j]
    {
      var lng := -ring;
      while lng <= ring
        invariant -ring <= lng <= ring + 1
        invariant forall b :: b in blocks <==>
          Near(c, ring, b) && (b.lat - c.lat < lat || (b.lat - c.lat == lat && b.lng - c.lng < lng))
        invariant forall i, j :: 0 <= i < j < |blocks| ==> blocks[i] != blocks[j]
      {
        blocks := blocks + [Block(c.lat + lat, c.lng + lng)];
        lng := lng + 1;
      }
      lat := lat + 1;
    }
  }

  // The index -----------------------------------------------------------------------

  // The index holds exactly the available drivers, each under the block of its current
  // location, and no empty block.
  ghost predicate IndexExact(s: Fleet, cell: real)
    requires cell > 0.0
  {
    && (forall b :: b in s.blocks ==> s.blocks[b] != {})
    && (forall d :: d in s.byId ==> s.byId[d].block == BlockOf(s.byId[d].location, cell))
    && (forall b, d :: b in s.blocks && d in s.blocks[b] <==> Listed(s, b, d))
  }

  ghost predicate Listed(s: Fleet, b: Block, d: int) {
    d in s.byId && s.byId[d].status == Available && s.byId[d].block == b
  }

  function AddAvailable(blocks: map<Block, set<int>>, b: Block, d: int): map<Block, set<int>> {
    blocks[b := (if b in blocks then blocks[b] else {}) + {d}]
  }

  function RemoveAvailable(blocks: map<Block, set<int>>, b: Block, d: int): map<Block, set<int>> {
    if b !in blocks then blocks
    else if blocks[b] - {d} == {} then blocks - {b}
    else blocks[b := blocks[b] - {d}]
  }

  lemma RemoveExact(blocks: map<Block, set<int>>, c: Block, d: int, b: Block, e: int)
    ensures var r := RemoveAvailable(blocks, c, d);
      b in r && e in r[b] <==> b in blocks && e in blocks[b] && !(b == c && e == d)
  {
    if c in blocks && e in blocks[c] && e != d {
      assert e in blocks[c] - {d};
    }
  }

  // The operations -------------------------------------------------------------------

  function Register(s: Fleet, d: int, l: Location, cell: real): (Fleet, Option<Error>)
    requires cell > 0.0
  {
    if !ValidLocation(l) then (s, Some(InvalidLocation))
    else if d in s.byId then (s, Some(DuplicateDriver))
    else (s.(byId := s.byId[d := Driver(Offline, l, BlockOf(l, cell))]), None)
  }

  function GoOnline(s: Fleet, d: int, cell: real): (Fleet, Option<Error>)
    requires cell > 0.0
  {
    if d !in s.byId then (s, Some(DriverNotFound))
    else match s.byId[d].status
      case Available => (s, None)
      case Offline => (Activated(s, d, cell), None)
      case Busy => (s, Some(InvalidStatusChange))
  }

  // A driver becomes available where it stands.
  function Activated(s: Fleet, d: int, cell: real): Fleet
    requires cell > 0.0 && d in s.byId
  {
    var b := BlockOf(s.byId[d].location, cell);
    Fleet(s.byId[d := s.byId[d].(status := Available, block := b)], AddAvailable(s.blocks, b, d))
  }

  function Deactivated(s: Fleet, d: int, status: Status): Fleet
    requires d in s.byId
  {
    Fleet(s.byId[d := s.byId[d].(status := status)], RemoveAvailable(s.blocks, s.byId[d].block, d))
  }

  function GoOffline(s: Fleet, d: int): (Fleet, Option<Error>) {
    if d !in s.byId then (s, Some(DriverNotFound))
    else match s.byId[d].status
      case Offline => (s, None)
      case Available => (Deactivated(s, d, Offline), None)
      case Busy => (s, Some(InvalidStatusChange))
  }

  function Assign(s: Fleet, d: int): (Fleet, Option<Error>) {
    if d !in s.byId then (s, Some(DriverNotFound))
    else match s.byId[d].status
      case Busy => (s, None)
      case Available => (Deactivated(s, d, Busy), None)
      case Offline => (s, Some(InvalidStatusChange))
  }

  function Release(s: Fleet, d: int, cell: real): (Fleet, Option<Error>)
    requires cell > 0.0
  {
    if d !in s.byId then (s, Some(DriverNotFound))
    else match s.byId[d].status
      case Available => (s, None)
      case Busy => (Activated(s, d, cell), None)
      case Offline => (s, Some(InvalidStatusChange))
  }

  function UpdateLocation(s: Fleet, d: int, l: Location, cell: real): (Fleet, Option<Error>)
    requires cell > 0.0
  {
    if !ValidLocation(l) then (s, Some(InvalidLocation))
    else if d !in s.byId then (s, Some(DriverNotFound))
    else
      var v := s.byId[d];
      var b := BlockOf(l, cell);
      var moved := s.byId[d := v.(location := l, block := b)];
      if v.status == Available then (Fleet(moved, AddAvailable(RemoveAvailable(s.blocks, v.block, d), b, d)), None)
      else (Fleet(moved, s.blocks), None)
  }

  // Every operation keeps the index exact and touches only its own driver.
  ghost predicate Only(s: Fleet, t: Fleet, d: int) {
    && t.byId.Keys - {d} == s.byId.Keys - {d}
    && forall e :: e in s.byId && e != d ==> e in t.byId && t.byId[e] == s.byId[e]
  }

  lemma ActivatedExact(s: Fleet, d: int, cell: real)
    requires cell > 0.0 && IndexExact(s, cell) && d in s.byId && s.byId[d].status != Available
    ensures IndexExact(Activated(s, d, cell), cell) && Only(s, Activated(s, d, cell), d)
  {
    var t := Activated(s, d, cell);
    forall b, e ensures b in t.blocks && e in t.blocks[b] <==> Listed(t, b, e) {
      assert (b in s.blocks && e in s.blocks[b]) <==> Listed(s, b, e);
    }
  }

  lemma DeactivatedExact(s: Fleet, d: int, status: Status, cell: real)
    requires cell > 0.0 && IndexExact(s, cell) && d in s.byId && s.byId[d].status == Available && status != Available
    ensures IndexExact(Deactivated(s, d, status), cell) && Only(s, Deactivated(s, d, status), d)
  {
    var t := Deactivated(s, d, status);
    forall b, e ensures b in t.blocks && e in t.blocks[b] <==> Listed(t, b, e) {
      RemoveExact(s.blocks, s.byId[d].block, d, b, e);
      assert (b in s.blocks && e in s.blocks[b]) <==> Listed(s, b, e);
    }
  }

  lemma MovedExact(s: Fleet, d: int, l: Location, cell: real)
    requires cell > 0.0 && IndexExact(s, cell)
    ensures var t := UpdateLocation(s, d, l, cell).0; IndexExact(t, cell) && Only(s, t, d)
  {
    var t := UpdateLocation(s, d, l, cell).0;
    forall b, e ensures b in t.blocks && e in t.blocks[b] <==> Listed(t, b, e) {
      if d in s.byId {
        RemoveExact(s.blocks, s.byId[d].block, d, b, e);
      }
      assert (b in s.blocks && e in s.blocks[b]) <==> Listed(s, b, e);
    }
  }

  lemma OperationsKeepIndex(s: Fleet, d: int, l: Location, cell: real)
    requires cell > 0.0 && IndexExact(s, cell)
    ensures IndexExact(Register(s, d, l, cell).0, cell) && IndexExact(GoOnline(s, d, cell).0, cell)
    ensures IndexExact(GoOffline(s, d).0, cell) && IndexExact(Assign(s, d).0, cell)
    ensures IndexExact(Release(s, d, cell).0, cell) && IndexExact(UpdateLocation(s, d, l, cell).0, cell)
    ensures Only(s, Register(s, d, l, cell).0, d) && Only(s, GoOnline(s, d, cell).0, d)
    ensures Only(s, GoOffline(s, d).0, d) && Only(s, Assign(s, d).0, d)
    ensures Only(s, Release(s, d, cell).0, d) && Only(s, UpdateLocation(s, d, l, cell).0, d)
  {
    MovedExact(s, d, l, cell);
    if d in s.byId {
      if s.byId[d].status == Available {
        DeactivatedExact(s, d, Offline, cell);
        DeactivatedExact(s, d, Busy, cell);
      } else {
        ActivatedExact(s, d, cell);
      }
    }
    RegisteredExact(s, d, l, cell);
  }

  // An operation's result: done, with driver d in the given status and place, or refused
  // for a reason and nothing changed.
  predicate Leaves(r: (Fleet, Option<Error>), s: Fleet, d: int, ok: bool, status: Status, at: Location, why: Error) {
    if ok then r.1.None? && d in r.0.byId && r.0.byId[d].status == status && r.0.byId[d].location == at
    else r == (s, Some(why))
  }

  // Which operation is allowed in which status, and what it leads to.
  lemma Transitions(s: Fleet, d: int, l: Location, cell: real)
    requires cell > 0.0
    ensures var known := d in s.byId;
      var status := if known then s.byId[d].status else Offline;
      var at := if known then s.byId[d].location else l;
      var refusal := if known then InvalidStatusChange else DriverNotFound;
      && Leaves(GoOnline(s, d, cell), s, d, known && status != Busy, Available, at, refusal)
      && Leaves(GoOffline(s, d), s, d, known && status != Busy, Offline, at, refusal)
      && Leaves(Assign(s, d), s, d, known && status != Offline, Busy, at, refusal)
      && Leaves(Release(s, d, cell), s, d, known && status != Offline, Available, at, refusal)
      && Leaves(UpdateLocation(s, d, l, cell), s, d, ValidLocation(l) && known, status, l,
                if ValidLocation(l) then DriverNotFound else InvalidLocation)
      && Leaves(Register(s, d, l, cell), s, d, ValidLocation(l) && !known, Offline, l,
                if ValidLocation(l) then DuplicateDriver else InvalidLocation)
  {
  }

  lemma RegisteredExact(s: Fleet, d: int, l: Location, cell: real)
    requires cell > 0.0 && IndexExact(s, cell)
    ensures IndexExact(Register(s, d, l, cell).0, cell) && Only(s, Register(s, d, l, cell).0, d)
  {
    var t := Register(s, d, l, cell).0;
    forall b, e ensures b in t.blocks && e in t.blocks[b] <==> Listed(t, b, e) {
      assert (b in s.blocks && e in s.blocks[b]) <==> Listed(s, b, e);
    }
  }

  // Searching ------------------------------------------------------------------------

  datatype Search = Search(loc: Location, max: real, cell: real, ring: int, distance: (Location, Location) -> real)

  function Away(s: Fleet, q: Search, d: int): real
    requires d in s.byId
  {
    (q.distance)(q.loc, s.byId[d].location)
  }

  // The available drivers in range.
  ghost predicate InRange(s: Fleet, q: Search, d: int) {
    d in s.byId && s.byId[d].status == Available && Away(s, q, d) <= q.max
  }

  // Those whose block lies in the searched ring.
  ghost predicate Candidate(s: Fleet, q: Search, d: int)
    requires q.cell > 0.0
  {
    InRange(s, q, d) && Near(BlockOf(q.loc, q.cell), q.ring, BlockOf(s.byId[d].location, q.cell))
  }

  // d is nearer than e, or as near with the smaller ID.
  predicate Before(s: Fleet, q: Search, d: int, e: int)
    requires d in s.byId && e in s.byId
  {
    Away(s, q, d) < Away(s, q, e) || (Away(s, q, d) == Away(s, q, e) && d < e)
  }

  // The search's answer: none iff there is no candidate, else the first of them.
  ghost predicate Nearest(s: Fleet, q: Search, r: Option<int>)
    requires q.cell > 0.0
  {
    match r
    case None => forall d :: !Candidate(s, q, d)
    case Some(d) => Candidate(s, q, d) && forall e :: Candidate(s, q, e) && e != d ==> Before(s, q, d, e)
  }

  // The same over all drivers, without the index.
  ghost predicate NearestOfAll(s: Fleet, q: Search, r: Option<int>) {
    match r
    case None => forall d :: !InRange(s, q, d)
    case Some(d) => InRange(s, q, d) && forall e :: InRange(s, q, e) && e != d ==> Before(s, q, d, e)
  }

  // Every driver in range outside the ring comes after one inside it.
  ghost predicate StragglersBeaten(s: Fleet, q: Search)
    requires q.cell > 0.0
  {
    forall d :: InRange(s, q, d) && !Candidate(s, q, d) ==> Beaten(s, q, d)
  }

  ghost predicate Beaten(s: Fleet, q: Search, d: int)
    requires q.cell > 0.0 && d in s.byId
  {
    exists c :: Candidate(s, q, c) && Before(s, q, c, d)
  }

  // The search finds the first of all drivers in range iff no driver outside the ring
  // would come before those inside it.
  lemma RingSuffices(s: Fleet, q: Search, r: Option<int>)
    requires q.cell > 0.0 && Nearest(s, q, r)
    ensures NearestOfAll(s, q, r) <==> StragglersBeaten(s, q)
  {
    if StragglersBeaten(s, q) {
      forall e | InRange(s, q, e) && r != Some(e) ensures r.Some? && Before(s, q, r.value, e) {
        if !Candidate(s, q, e) {
          var c :| Candidate(s, q, c) && Before(s, q, c, e);
        }
      }
    } else {
      var d :| InRange(s, q, d) && !Candidate(s, q, d) && !Beaten(s, q, d);
    }
  }

  // The answer to a search for the `limit` nearest: in order, and nobody left out who
  // would come earlier.
  ghost predicate NearestFew(s: Fleet, q: Search, limit: int, r: seq<int>)
    requires q.cell > 0.0
  {
    && |r| <= limit
    && (forall i :: 0 <= i < |r| ==> Candidate(s, q, r[i]))
    && (forall i, j :: 0 <= i < j < |r| ==> Before(s, q, r[i], r[j]))
    && (forall e, i :: Candidate(s, q, e) && e !in r && 0 <= i < |r| ==> Before(s, q, r[i], e))
    && (forall e :: Candidate(s, q, e) && e !in r ==> |r| == limit)
  }

  // The nearest driver is the first of the few nearest.
  lemma FewStartsWithNearest(s: Fleet, q: Search, limit: int, r: seq<int>, one: Option<int>)
    requires q.cell > 0.0 && limit >= 1 && NearestFew(s, q, limit, r) && Nearest(s, q, one)
    ensures one == if r == [] then None else Some(r[0])
  {
    if r != [] {
      assert Candidate(s, q, r[0]);
      forall e | Candidate(s, q, e) && e != r[0] ensures Before(s, q, r[0], e) {
        if e in r {
          var i :| 0 <= i < |r| && r[i] == e;
        }
      }
    }
  }

  // Sorting by distance, then ID -----------------------------------------------------

  predicate Known(s: Fleet, ids: seq<int>) {
    forall i :: 0 <= i < |ids| ==> ids[i] in s.byId
  }

  ghost predicate Ordered(s: Fleet, q: Search, ids: seq<int>)
    requires Known(s, ids)
  {
    forall i, j :: 0 <= i < j < |ids| ==> Before(s, q, ids[i], ids[j])
  }

  function Insert(s: Fleet, q: Search, d: int, ids: seq<int>): (r: seq<int>)
    requires d in s.byId && Known(s, ids)
    ensures Known(s, r) && multiset(r) == multiset(ids) + multiset{d}
  {
    if ids == [] then [d]
    else if Before(s, q, d, ids[0]) then [d] + ids
    else
      assert ids == [ids[0]] + ids[1..];
      [ids[0]] + Insert(s, q, d, ids[1..])
  }

  function Sorted(s: Fleet, q: Search, ids: seq<int>): (r: seq<int>)
    requires Known(s, ids)
    ensures Known(s, r) && multiset(r) == multiset(ids) && |r| == |ids|
  {
    if ids == [] then []
    else
      assert ids == [ids[0]] + ids[1..];
      var r := Insert(s, q, ids[0], Sorted(s, q, ids[1..]));
      assert |multiset(r)| == |r|;
      r
  }

  lemma {:induction false} InsertOrdered(s: Fleet, q: Search, d: int, ids: seq<int>)
    requires d in s.byId && Known(s, ids) && Ordered(s, q, ids) && d !in ids
    ensures Ordered(s, q, Insert(s, q, d, ids))
  {
    if ids != [] && !Before(s, q, d, ids[0]) {
      var rest := Insert(s, q, d, ids[1..]);
      InsertOrdered(s, q, d, ids[1..]);
      forall j | 0 <= j < |rest| ensures Before(s, q, ids[0], rest[j]) {
        assert rest[j] in multiset(rest);
        assert rest[j] == d || rest[j] in ids[1..];
      }
    }
  }

  lemma {:induction false} SortedOrdered(s: Fleet, q: Search, ids: seq<int>)
    requires Known(s, ids) && forall i, j :: 0 <= i < j < |ids| ==> ids[i] != ids[j]
    ensures Ordered(s, q, Sorted(s, q, ids))
  {
    if ids != [] {
      var r := Sorted(s, q, ids[1..]);
      SortedOrdered(s, q, ids[1..]);
      assert ids[0] in r <==> ids[0] in multiset(ids[1..]);
      InsertOrdered(s, q, ids[0], r);
    }
  }

  // The first of the sorted candidates are the nearest few.
  lemma SortedPrefix(s: Fleet, q: Search, ids: seq<int>, limit: int)
    requires q.cell > 0.0 && Known(s, ids) && limit >= 0
    requires forall i, j :: 0 <= i < j < |ids| ==> ids[i] != ids[j]
    requires forall d :: d in ids <==> Candidate(s, q, d)
    ensures var n := if limit < |ids| then limit else |ids|;
      NearestFew(s, q, limit, Sorted(s, q, ids)[..n])
  {
    var all := Sorted(s, q, ids);
    SortedOrdered(s, q, ids);
    var n := if limit < |ids| then limit else |ids|;
    var r := all[..n];
    forall d ensures d in all <==> Candidate(s, q, d) {
      assert d in all <==> d in multiset(all);
      assert d in ids <==> d in multiset(ids);
    }
    forall e, i | Candidate(s, q, e) && e !in r && 0 <= i < |r| ensures Before(s, q, r[i], e) {
      var j :| 0 <= j < |all| && all[j] == e;
      assert j >= n;
    }
    forall i | 0 <= i < |r| ensures Candidate(s, q, r[i]) {
      assert all[i] in all;
    }
    assert n == |ids| ==> all == r;
  }
}
