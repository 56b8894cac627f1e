/** Connection routing between node sides: which sides a connection leaves and enters by,
    evenly spaced ports on those sides, the greedy assignment of ports to connections with a
    one-step lookahead, and the shape, stagger and arrow head of a drawn connection.
    The crossing test between two routes and the Euclidean distance are parameters. */
module Connections {
  import opened Geometry
  import opened Seqs
  import opened Components
  import Resources

  datatype EdgeSide = Top | Right | Bottom | Left

  datatype ConnectionShape = Straight | LShape | SShape

  /** A node's routing pins: its rectangle and the ports in use on each side. */
  datatype SidePins = SidePins(rect: Rect, top: seq<Pos>, right: seq<Pos>, bottom: seq<Pos>, left: seq<Pos>)

  /** A pool of free ports is kept per (entity, side). */
  type PoolKey = (Entity, EdgeSide)

  type Pools = map<PoolKey, seq<Pos>>

  /** A (from port, to port) choice for one connection. */
  type Assignment = (Pos, Pos)

  /** Chosen ports, keyed by (from entity, to entity). */
  type Assignments = map<(Entity, Entity), Assignment>

  /** What the crossing test sees of a routed connection: how it bends and where it ends. */
  datatype RouteSketch = RouteSketch(route: Resources.ManhattanRoute, fromPin: Pos, toPin: Pos)

  /** The crossing test between two routed connections, whose definition is not part of this model. */
  type CrossesFn = (RouteSketch, RouteSketch) -> bool

  /** The Euclidean distance between two points. */
  type DistFn = (Pos, Pos) -> real

  predicate AreSameEdgeSide(a: EdgeSide, b: EdgeSide) { a == b }

  predicate AreOppositeEdges(a: EdgeSide, b: EdgeSide)
  {
    (a == Top && b == Bottom) || (a == Bottom && b == Top) || (a == Left && b == Right) || (a == Right && b == Left)
  }

  /** The side across the node from `e`. */
  function Opposite(e: EdgeSide): (o: EdgeSide)
    ensures AreOppositeEdges(e, o) && !AreSameEdgeSide(e, o)
    ensures forall b :: AreOppositeEdges(e, b) <==> b == o
  {
    match e
    case Top => Bottom
    case Bottom => Top
    case Left => Right
    case Right => Left
  }

  /** The sides a connection leaves `from` and enters `to` by, from the offset between the
      centres: left/right when the horizontal offset is strictly larger, top/bottom otherwise
      (ties and coincident centres included). The two sides are always opposite. */
  function DetermineConnectionEdges(from: Rect, to: Rect): (r: (EdgeSide, EdgeSide))
    ensures AreOppositeEdges(r.0, r.1)
    ensures var dx, dy := Center(to).x - Center(from).x, Center(to).y - Center(from).y;
      ((r.0 == Left || r.0 == Right) <==> Abs(dx) > Abs(dy))
      && (r.0 == Right ==> dx > 0.0) && (r.0 == Left ==> dx < 0.0)
      && (r.0 == Bottom ==> dy > 0.0) && (r.0 == Top ==> dy <= 0.0)
  {
    var dx := Center(to).x - Center(from).x;
    var dy := Center(to).y - Center(from).y;
    if Abs(dx) > Abs(dy) then
      if dx > 0.0 then (Right, Left) else (Left, Right)
    else
      if dy > 0.0 then (Bottom, Top) else (Top, Bottom)
  }

  /** Reversing a connection reverses its sides, unless the centres coincide, where both
      directions get (Top, Bottom). */
  lemma DetermineEdgesReversed(a: Rect, b: Rect)
    ensures Center(a) != Center(b) ==>
      DetermineConnectionEdges(b, a) == (DetermineConnectionEdges(a, b).1, DetermineConnectionEdges(a, b).0)
    ensures Center(a) == Center(b) ==> DetermineConnectionEdges(a, b) == DetermineConnectionEdges(b, a) == (Top, Bottom)
  {
  }

  // ---------------------------------------------------------------------------------------
  // Ports along a side

  /** The length of side `side` of `r`. */
  function SideLength(r: Rect, side: EdgeSide): real
  {
    if side == Top || side == Bottom then Width(r) else Height(r)
  }

  /** The coordinate that varies along side `side`. */
  function AlongSide(p: Pos, side: EdgeSide): real
  {
    if side == Top || side == Bottom then p.x else p.y
  }

  /** The point on side `side` of `r` at distance `d` from its top or left end. */
  function PointAlong(r: Rect, side: EdgeSide, d: real): Pos
  {
    match side
    case Top => Pos(r.min.x + d, r.min.y)
    case Right => Pos(r.max.x, r.min.y + d)
    case Bottom => Pos(r.min.x + d, r.max.y)
    case Left => Pos(r.min.x, r.min.y + d)
  }

  /** Where port `i` of `count` sits: at fraction (i + 1) / (count + 1) of the side. */
  function Fraction(i: nat, count: nat): real
  {
    (i + 1) as real / (count + 1) as real
  }

  /** Port `i` of `count` evenly spaced ports: at fraction (i + 1) / (count + 1) of the side's
      length from its top or left end, so no port sits on a corner. */
  function PortAt(r: Rect, side: EdgeSide, count: nat, i: nat): Pos
  {
    PointAlong(r, side, Fraction(i, count) * SideLength(r, side))
  }

  /** `p` lies on side `side` of `r`. */
  predicate OnSide(p: Pos, r: Rect, side: EdgeSide)
  {
    match side
    case Top => p.y == r.min.y && r.min.x <= p.x <= r.max.x
    case Right => p.x == r.max.x && r.min.y <= p.y <= r.max.y
    case Bottom => p.y == r.max.y && r.min.x <= p.x <= r.max.x
    case Left => p.x == r.min.x && r.min.y <= p.y <= r.max.y
  }

  /** The start of side `side` along its varying coordinate. */
  function SideStart(r: Rect, side: EdgeSide): real
  {
    if side == Top || side == Bottom then r.min.x else r.min.y
  }

  /** The end of side `side` along its varying coordinate. */
  function SideEnd(r: Rect, side: EdgeSide): real
  {
    if side == Top || side == Bottom then r.max.x else r.max.y
  }

  lemma FractionsOrdered(i: nat, j: nat, count: nat)
    requires i < j < count
    ensures 0.0 < Fraction(i, count) < Fraction(j, count) < 1.0
  {
    QuotientsOrdered((i + 1) as real, (j + 1) as real, (count + 1) as real);
  }

  lemma FractionInUnitInterval(i: nat, count: nat)
    requires i < count
    ensures 0.0 < Fraction(i, count) < 1.0
  {
    QuotientsOrdered((i + 1) as real, (i + 1) as real + 0.5, (count + 1) as real);
  }

  /** For `0 < a < b < c`, the quotients `a / c < b / c` both lie strictly inside (0, 1). */
  lemma QuotientsOrdered(a: real, b: real, c: real)
    requires 0.0 < a < b < c
    ensures 0.0 < a / c < b / c < 1.0
  {
    var qa, qb := a / c, b / c;
    var gap, rest := qb - qa, 1.0 - qb;
    assert qa * c == a && qb * c == b;
    assert gap * c == b - a;
    assert rest * c == c - b;
    PositiveFactor(qa, c);
    PositiveFactor(gap, c);
    PositiveFactor(rest, c);
  }

  /** A product with a positive right factor is positive only when the left one is. */
  lemma PositiveFactor(x: real, c: real)
    requires 0.0 < c && 0.0 < x * c
    ensures 0.0 < x
  {
  }

  lemma ScaleWithin(t: real, len: real)
    requires 0.0 < t < 1.0 && 0.0 <= len
    ensures 0.0 <= t * len <= len
    ensures len > 0.0 ==> 0.0 < t * len < len
  {
  }

  lemma ScaleOrdered(s: real, t: real, len: real)
    requires s < t && 0.0 < len
    ensures s * len < t * len
  {
  }

  /** A point at a distance within the side's length lies on the side, strictly between the
      corners when the distance is strictly inside. */
  lemma PointAlongWithin(r: Rect, side: EdgeSide, d: real)
    requires r.min.x <= r.max.x && r.min.y <= r.max.y
    requires 0.0 <= d <= SideLength(r, side)
    ensures OnSide(PointAlong(r, side, d), r, side)
    ensures AlongSide(PointAlong(r, side, d), side) == SideStart(r, side) + d
    ensures 0.0 < d < SideLength(r, side) ==> SideStart(r, side) < AlongSide(PointAlong(r, side, d), side) < SideEnd(r, side)
  {
  }

  /** The point at fraction `t` of the side's length lies on the side, strictly between the
      corners when the side has positive length. */
  lemma ScaledPointWithin(r: Rect, side: EdgeSide, t: real)
    requires r.min.x <= r.max.x && r.min.y <= r.max.y
    requires 0.0 < t < 1.0
    ensures OnSide(PointAlong(r, side, t * SideLength(r, side)), r, side)
    ensures SideLength(r, side) > 0.0 ==>
      SideStart(r, side) < AlongSide(PointAlong(r, side, t * SideLength(r, side)), side) < SideEnd(r, side)
  {
    var len := SideLength(r, side);
    var d := t * len;
    ScaleWithin(t, len);
    assert 0.0 <= d <= len;
    if len > 0.0 {
      assert 0.0 < d < len;
    }
    PointAlongWithin(r, side, d);
  }

  /** Every port lies on its side of the rectangle, strictly between the two corners when
      the side has positive length. */
  lemma PortOnSide(r: Rect, side: EdgeSide, count: nat, i: nat)
    requires r.min.x <= r.max.x && r.min.y <= r.max.y
    requires i < count
    ensures OnSide(PortAt(r, side, count, i), r, side)
    ensures SideLength(r, side) > 0.0 ==>
      SideStart(r, side) < AlongSide(PortAt(r, side, count, i), side) < SideEnd(r, side)
  {
    FractionInUnitInterval(i, count);
    ScaledPointWithin(r, side, Fraction(i, count));
  }

  /** At a larger fraction of a side of positive length the point lies further along. */
  lemma ScaledPointsOrdered(r: Rect, side: EdgeSide, s: real, t: real)
    requires s < t && SideLength(r, side) > 0.0
    ensures AlongSide(PointAlong(r, side, s * SideLength(r, side)), side) < AlongSide(PointAlong(r, side, t * SideLength(r, side)), side)
  {
    ScaleOrdered(s, t, SideLength(r, side));
    AlongOffset(r, side, s * SideLength(r, side));
    AlongOffset(r, side, t * SideLength(r, side));
  }

  /** Along its side, the point at distance `d` is `d` past the side's start. */
  lemma AlongOffset(r: Rect, side: EdgeSide, d: real)
    ensures AlongSide(PointAlong(r, side, d), side) == SideStart(r, side) + d
  {
  }

  /** Along a side of positive length the ports are strictly increasing, so they are distinct. */
  lemma PortsOrdered(r: Rect, side: EdgeSide, count: nat, i: nat, j: nat)
    requires i < j < count && SideLength(r, side) > 0.0
    ensures AlongSide(PortAt(r, side, count, i), side) < AlongSide(PortAt(r, side, count, j), side)
  {
    FractionsOrdered(i, j, count);
    ScaledPointsOrdered(r, side, Fraction(i, count), Fraction(j, count));
  }

  /** A single port is the midpoint of the side, the same point as the side pin of the node's
      four-pin layout. */
  function SideMidpoint(r: Rect, side: EdgeSide): (p: Pos)
    ensures p == PortAt(r, side, 1, 0)
    ensures var pins := Resources.FromRect(r);
      p == match side case Top => pins.top case Right => pins.right case Bottom => pins.bottom case Left => pins.left
  {
    match side
    case Top => Pos(Center(r).x, r.min.y)
    case Right => Pos(r.max.x, Center(r).y)
    case Bottom => Pos(Center(r).x, r.max.y)
    case Left => Pos(r.min.x, Center(r).y)
  }

  /** `count` evenly spaced ports along side `side` of `r`: none for zero, the side's midpoint
      for one, and otherwise port `i` at fraction (i + 1) / (count + 1) along the side. */
  method GeneratePortsForEdge(r: Rect, side: EdgeSide, count: nat) returns (ports: seq<Pos>)
    ensures |ports| == count
    ensures forall i :: 0 <= i < count ==> ports[i] == PortAt(r, side, count, i)
  {
    if count == 0 {
      return [];
    }
    if count == 1 {
      return [SideMidpoint(r, side)];
    }
    ports := [];
    var i := 0;
    while i < count
      invariant 0 <= i <= count
      invariant |ports| == i
      invariant forall k :: 0 <= k < i ==> ports[k] == PortAt(r, side, count, k)
    {
      var t := (i + 1) as real / (count + 1) as real;
      var port := match side
        case Top => Pos(r.min.x + t * Width(r), r.min.y)
        case Right => Pos(r.max.x, r.min.y + t * Height(r))
        case Bottom => Pos(r.min.x + t * Width(r), r.max.y)
        case Left => Pos(r.min.x, r.min.y + t * Height(r));
      ports := ports + [port];
      i := i + 1;
    }
  }

  // ---------------------------------------------------------------------------------------
  // Port pools

  /** Both ends of `c` have routing pins. */
  predicate HasRects(c: Connection, rects: map<Entity, Rect>)
  {
    c.fromEntity in rects && c.toEntity in rects
  }

  function Edges(c: Connection, rects: map<Entity, Rect>): (EdgeSide, EdgeSide)
    requires HasRects(c, rects)
  {
    DetermineConnectionEdges(rects[c.fromEntity], rects[c.toEntity])
  }

  /** The pool a connection takes its from port out of. */
  function FromKey(c: Connection, rects: map<Entity, Rect>): PoolKey
    requires HasRects(c, rects)
  {
    (c.fromEntity, Edges(c, rects).0)
  }

  /** The pool a connection takes its to port out of. */
  function ToKey(c: Connection, rects: map<Entity, Rect>): PoolKey
    requires HasRects(c, rects)
  {
    (c.toEntity, Edges(c, rects).1)
  }

  predicate LeavesBy(c: Connection, rects: map<Entity, Rect>, k: PoolKey)
  {
    HasRects(c, rects) && FromKey(c, rects) == k
  }

  predicate EntersBy(c: Connection, rects: map<Entity, Rect>, k: PoolKey)
  {
    HasRects(c, rects) && ToKey(c, rects) == k
  }

  /** The connection ends of `c` landing on pool `k`: one if it leaves by it, one if it
      enters by it. */
  function Ends(c: Connection, rects: map<Entity, Rect>, k: PoolKey): nat
  {
    (if LeavesBy(c, rects, k) then 1 else 0) + (if EntersBy(c, rects, k) then 1 else 0)
  }

  /** How many connection ends land on the pool `k`. */
  function EdgeCount(conns: seq<Connection>, rects: map<Entity, Rect>, k: PoolKey): nat
  {
    if |conns| == 0 then 0 else EdgeCount(conns[..|conns| - 1], rects, k) + Ends(conns[|conns| - 1], rects, k)
  }

  /** Counts, per (entity, side), the connection ends landing there. */
  method CountEdgeEnds(conns: seq<Connection>, rects: map<Entity, Rect>) returns (counts: map<PoolKey, nat>)
    ensures forall k :: k in counts <==> EdgeCount(conns, rects, k) > 0
    ensures forall k :: k in counts ==> counts[k] == EdgeCount(conns, rects, k)
  {
    counts := map[];
    var i := 0;
    while i < |conns|
      invariant 0 <= i <= |conns|
      invariant forall k :: k in counts <==> EdgeCount(conns[..i], rects, k) > 0
      invariant forall k :: k in counts ==> counts[k] == EdgeCount(conns[..i], rects, k)
    {
      var c := conns[i];
      assert conns[..i + 1][..i] == conns[..i];
      if HasRects(c, rects) {
        var fk, tk := FromKey(c, rects), ToKey(c, rects);
        counts := counts[fk := (if fk in counts then counts[fk] else 0) + 1];
        counts := counts[tk := (if tk in counts then counts[tk] else 0) + 1];
      }
      i := i + 1;
    }
    assert conns[..i] == conns;
  }

  /** A pool end only counts when its entity has routing pins. */
  lemma {:induction false} CountedEntitiesHaveRects(conns: seq<Connection>, rects: map<Entity, Rect>, k: PoolKey)
    requires EdgeCount(conns, rects, k) > 0
    ensures k.0 in rects
  {
    if Ends(conns[|conns| - 1], rects, k) == 0 {
      CountedEntitiesHaveRects(conns[..|conns| - 1], rects, k);
    }
  }

  /** Builds one pool of free ports per (entity, side) that some connection end lands on,
      with exactly as many evenly spaced ports as connection ends landing there. */
  method InitializeAvailablePorts(conns: seq<Connection>, rects: map<Entity, Rect>) returns (pools: Pools)
    ensures forall k :: k in pools <==> EdgeCount(conns, rects, k) > 0
    ensures forall k :: k in pools ==>
      k.0 in rects && |pools[k]| == EdgeCount(conns, rects, k) &&
      forall i :: 0 <= i < |pools[k]| ==> pools[k][i] == PortAt(rects[k.0], k.1, |pools[k]|, i)
    ensures pools == InitialPools(conns, rects)
  {
    var counts := CountEdgeEnds(conns, rects);
    pools := map[];
    var todo := counts.Keys;
    while todo != {}
      invariant todo <= counts.Keys
      invariant forall k :: k in pools <==> k in counts && k !in todo
      invariant forall k :: k in pools ==>
        k.0 in rects && |pools[k]| == counts[k] &&
        forall i :: 0 <= i < |pools[k]| ==> pools[k][i] == PortAt(rects[k.0], k.1, |pools[k]|, i)
      decreases |todo|
    {
      var k :| k in todo;
      CountedEntitiesHaveRects(conns, rects, k);
      if k.0 in rects {
        var ports := GeneratePortsForEdge(rects[k.0], k.1, counts[k]);
        pools := pools[k := ports];
      }
      todo := todo - {k};
    }
    SamePools(pools, InitialPools(conns, rects));
  }

  /** Two pool maps with the same pools holding the same ports are equal. */
  lemma SamePools(a: Pools, b: Pools)
    requires a.Keys == b.Keys
    requires forall k :: k in a ==> a[k] == b[k]
    ensures a == b
  {
  }

  /** The pools `InitializeAvailablePorts` builds, as a map: one pool per (entity, side) with
      connection ends, holding that many evenly spaced ports. */
  ghost function InitialPools(conns: seq<Connection>, rects: map<Entity, Rect>): (pools: Pools)
    ensures forall k :: k in pools <==> EdgeCount(conns, rects, k) > 0
    ensures forall k :: k in pools ==>
      k.0 in rects && |pools[k]| == EdgeCount(conns, rects, k) &&
      forall i :: 0 <= i < |pools[k]| ==> pools[k][i] == PortAt(rects[k.0], k.1, |pools[k]|, i)
  {
    CountedKeysAreRouted(conns, rects);
    map k | k in RoutedKeys(rects) && EdgeCount(conns, rects, k) > 0 ::
      seq(EdgeCount(conns, rects, k), i requires 0 <= i => PortAt(rects[k.0], k.1, EdgeCount(conns, rects, k), i))
  }

  /** Every (entity, side) pair of an entity with routing pins. */
  function RoutedKeys(rects: map<Entity, Rect>): set<PoolKey>
  {
    set e, side | e in rects.Keys && side in AllSides :: (e, side)
  }

  const AllSides: set<EdgeSide> := {Top, Right, Bottom, Left}

  /** Connection ends only land on entities with routing pins. */
  lemma CountedKeysAreRouted(conns: seq<Connection>, rects: map<Entity, Rect>)
    ensures forall k :: EdgeCount(conns, rects, k) > 0 ==> k in RoutedKeys(rects)
  {
    forall k | EdgeCount(conns, rects, k) > 0
      ensures k in RoutedKeys(rects)
    {
      CountedEntitiesHaveRects(conns, rects, k);
      assert k.1 in AllSides by {
        match k.1
        case Top =>
        case Right =>
        case Bottom =>
        case Left =>
      }
      assert k == (k.0, k.1);
    }
  }

  /** How constrained a connection is when ports are handed out: fewer port combinations give
      a larger value, plus a small share of the centre distance. Zero without routing pins. */
  function CalculatePortConstraint(c: Connection, pools: Pools, rects: map<Entity, Rect>, dist: DistFn): (v: real)
    ensures !HasRects(c, rects) ==> v == 0.0
    ensures HasRects(c, rects) ==>
      var options := PoolSize(pools, FromKey(c, rects)) * PoolSize(pools, ToKey(c, rects));
      var d := dist(Center(rects[c.fromEntity]), Center(rects[c.toEntity]));
      v - d * 0.001 == 1.0 / (options as real + 1.0) && (d >= 0.0 ==> 0.0 < v <= 1.0 + d * 0.001)
  {
    if HasRects(c, rects) then
      var fromAvailable := PoolSize(pools, FromKey(c, rects));
      var toAvailable := PoolSize(pools, ToKey(c, rects));
      var constraint := 1.0 / ((fromAvailable * toAvailable) as real + 1.0);
      var distance := dist(Center(rects[c.fromEntity]), Center(rects[c.toEntity]));
      constraint + distance * 0.001
    else
      0.0
  }

  /** The number of free ports in pool `k`, zero for a pool that does not exist. */
  function PoolSize(pools: Pools, k: PoolKey): nat
  {
    if k in pools then |pools[k]| else 0
  }

  /** A connection whose pools offer more port combinations is less constrained. */
  lemma {:induction false} ConstraintFallsWithOptions(a: nat, b: nat)
    requires a <= b
    ensures 1.0 / (b as real + 1.0) <= 1.0 / (a as real + 1.0)
  {
    var x, y := a as real + 1.0, b as real + 1.0;
    assert 0.0 < x <= y;
  }

  /** The order the greedy assignment processes connections in: most constrained first. */
  function MostConstrainedFirst(pools: Pools, rects: map<Entity, Rect>, dist: DistFn): (Connection, Connection) -> bool
  {
    (a: Connection, b: Connection) =>
      CalculatePortConstraint(a, pools, rects, dist) >= CalculatePortConstraint(b, pools, rects, dist)
  }

  lemma MostConstrainedFirstIsTotalPreorder(pools: Pools, rects: map<Entity, Rect>, dist: DistFn)
    ensures TotalPreorder(MostConstrainedFirst(pools, rects, dist))
  {
  }

  // ---------------------------------------------------------------------------------------
  // Scoring a candidate assignment

  /** The trial route of an assignment, bending as given. */
  function Sketch(a: Assignment, route: Resources.ManhattanRoute): RouteSketch
  {
    RouteSketch(route, a.0, a.1)
  }

  function CrossCount(a: RouteSketch, b: RouteSketch, crosses: CrossesFn): nat
  {
    if crosses(a, b) then 1 else 0
  }

  /** Crossings of a candidate `a` with an existing assignment `e`: each bend order of `a` is
      checked against both bend orders of `e`, and the better bend order of `a` counts. */
  function MinCrossings(a: Assignment, e: Assignment, crosses: CrossesFn): (n: nat)
    ensures n <= 2
  {
    var h := CrossCount(Sketch(a, Resources.HorizontalFirst), Sketch(e, Resources.HorizontalFirst), crosses)
      + CrossCount(Sketch(a, Resources.HorizontalFirst), Sketch(e, Resources.VerticalFirst), crosses);
    var v := CrossCount(Sketch(a, Resources.VerticalFirst), Sketch(e, Resources.HorizontalFirst), crosses)
      + CrossCount(Sketch(a, Resources.VerticalFirst), Sketch(e, Resources.VerticalFirst), crosses);
    if v < h then v else h
  }

  /** The crossings of `a` summed over the existing assignments with keys in `keys`. The
      order of summation does not matter (`CrossingSumRemove`). */
  ghost function CrossingSum(a: Assignment, existing: Assignments, keys: set<(Entity, Entity)>, crosses: CrossesFn): real
    requires keys <= existing.Keys
    decreases keys
  {
    if keys == {} then 0.0
    else
      var k :| k in keys;
      MinCrossings(a, existing[k], crosses) as real + CrossingSum(a, existing, keys - {k}, crosses)
  }

  lemma {:induction false} CrossingSumRemove(a: Assignment, existing: Assignments, keys: set<(Entity, Entity)>, k: (Entity, Entity), crosses: CrossesFn)
    requires keys <= existing.Keys && k in keys
    ensures CrossingSum(a, existing, keys, crosses)
      == MinCrossings(a, existing[k], crosses) as real + CrossingSum(a, existing, keys - {k}, crosses)
    decreases keys
  {
    var j :| j in keys && CrossingSum(a, existing, keys, crosses)
      == MinCrossings(a, existing[j], crosses) as real + CrossingSum(a, existing, keys - {j}, crosses);
    if j != k {
      CrossingSumRemove(a, existing, keys - {j}, k, crosses);
      CrossingSumRemove(a, existing, keys - {k}, j, crosses);
      assert keys - {j} - {k} == keys - {k} - {j};
    }
  }

  /** Each existing assignment adds between zero and two crossings. */
  lemma {:induction false} CrossingSumBounds(a: Assignment, existing: Assignments, keys: set<(Entity, Entity)>, crosses: CrossesFn)
    requires keys <= existing.Keys
    ensures 0.0 <= CrossingSum(a, existing, keys, crosses) <= 2.0 * |keys| as real
    decreases keys
  {
    if keys != {} {
      var k :| k in keys;
      CrossingSumRemove(a, existing, keys, k, crosses);
      CrossingSumBounds(a, existing, keys - {k}, crosses);
    }
  }

  /** Port pairs (xs[i], ys[j]) among the first `j` of row `i` whose horizontal-first route
      the trial route `t` crosses. */
  function RowCrossings(t: RouteSketch, x: Pos, ys: seq<Pos>, j: nat, crosses: CrossesFn): (n: nat)
    requires j <= |ys|
    ensures n <= j
  {
    if j == 0 then 0
    else RowCrossings(t, x, ys, j - 1, crosses) + CrossCount(t, RouteSketch(Resources.HorizontalFirst, x, ys[j - 1]), crosses)
  }

  /** Crossed port pairs over the first `i` rows of `xs` × `ys`. */
  function PairCrossings(t: RouteSketch, xs: seq<Pos>, ys: seq<Pos>, i: nat, crosses: CrossesFn): (n: nat)
    requires i <= |xs|
    ensures n <= i * |ys|
  {
    if i == 0 then 0
    else
      var n := PairCrossings(t, xs, ys, i - 1, crosses) + RowCrossings(t, xs[i - 1], ys, |ys|, crosses);
      assert n <= (i - 1) * |ys| + |ys|;
      n
  }

  /** A part of a positive total is a share between 0 and 1. */
  lemma ShareOfTotal(part: nat, total: nat)
    requires 0 < total && part <= total
    ensures 0.0 <= part as real / total as real <= 1.0
  {
    var p, t := part as real, total as real;
    assert p / t * t == p;
  }

  /** The share of a later connection's port combinations that the trial route would cross;
      zero when it has no routing pins, when one of its pools is gone, or when a pool is empty. */
  function ConnectionImpact(t: RouteSketch, c: Connection, pools: Pools, rects: map<Entity, Rect>, crosses: CrossesFn): (v: real)
    ensures 0.0 <= v <= 1.0
  {
    if HasRects(c, rects) && FromKey(c, rects) in pools && ToKey(c, rects) in pools then
      var fromPorts, toPorts := pools[FromKey(c, rects)], pools[ToKey(c, rects)];
      var total := |fromPorts| * |toPorts|;
      if total > 0 then
        var crossing := PairCrossings(t, fromPorts, toPorts, |fromPorts|, crosses);
        ShareOfTotal(crossing, total);
        crossing as real / total as real
      else 0.0
    else 0.0
  }

  /** The impact of the trial route summed over the first `n` remaining connections. */
  function FutureImpact(a: Assignment, remaining: seq<Connection>, n: nat, pools: Pools, rects: map<Entity, Rect>, crosses: CrossesFn): (v: real)
    requires n <= |remaining|
    ensures 0.0 <= v <= n as real
  {
    if n == 0 then 0.0
    else
      FutureImpact(a, remaining, n - 1, pools, rects, crosses)
      + ConnectionImpact(Sketch(a, Resources.HorizontalFirst), remaining[n - 1], pools, rects, crosses)
  }

  /** Lookahead: for every connection still to be assigned, the share of its current port
      combinations that the horizontal-first route of `a` would cross, summed. */
  method EstimateFutureImpact(a: Assignment, remaining: seq<Connection>, pools: Pools, rects: map<Entity, Rect>, crosses: CrossesFn)
    returns (impact: real)
    ensures impact == FutureImpact(a, remaining, |remaining|, pools, rects, crosses)
  {
    impact := 0.0;
    var t := Sketch(a, Resources.HorizontalFirst);
    var n := 0;
    while n < |remaining|
      invariant 0 <= n <= |remaining|
      invariant impact == FutureImpact(a, remaining, n, pools, rects, crosses)
    {
      var c := remaining[n];
      if HasRects(c, rects) && FromKey(c, rects) in pools && ToKey(c, rects) in pools {
        var fromPorts, toPorts := pools[FromKey(c, rects)], pools[ToKey(c, rects)];
        var crossingOptions := 0;
        var totalOptions := |fromPorts| * |toPorts|;
        var i := 0;
        while i < |fromPorts|
          invariant 0 <= i <= |fromPorts|
          invariant crossingOptions == PairCrossings(t, fromPorts, toPorts, i, crosses)
        {
          var j := 0;
          var rowStart := crossingOptions;
          while j < |toPorts|
            invariant 0 <= j <= |toPorts|
            invariant crossingOptions == rowStart + RowCrossings(t, fromPorts[i], toPorts, j, crosses)
          {
            if crosses(t, RouteSketch(Resources.HorizontalFirst, fromPorts[i], toPorts[j])) {
              crossingOptions := crossingOptions + 1;
            }
            j := j + 1;
          }
          i := i + 1;
        }
        if totalOptions > 0 {
          impact := impact + crossingOptions as real / totalOptions as real;
        }
      }
      n := n + 1;
    }
  }

  /** The score of a candidate assignment (lower is better): crossings with the existing
      assignments, half the lookahead impact, and a very small share of its length. */
  ghost function Score(a: Assignment, existing: Assignments, remaining: seq<Connection>, pools: Pools,
                       rects: map<Entity, Rect>, crosses: CrossesFn, dist: DistFn): real
  {
    CrossingSum(a, existing, existing.Keys, crosses)
      + FutureImpact(a, remaining, |remaining|, pools, rects, crosses) * 0.5
      + dist(a.0, a.1) * 0.0001
  }

  /** The score is the length penalty plus between zero and two crossings per existing
      assignment plus at most half a unit per remaining connection. */
  lemma ScoreBounds(a: Assignment, existing: Assignments, remaining: seq<Connection>, pools: Pools,
                    rects: map<Entity, Rect>, crosses: CrossesFn, dist: DistFn)
    ensures var s := Score(a, existing, remaining, pools, rects, crosses, dist) - dist(a.0, a.1) * 0.0001;
      0.0 <= s <= 2.0 * |existing.Keys| as real + 0.5 * |remaining| as real
  {
    CrossingSumBounds(a, existing, existing.Keys, crosses);
  }

  /** The crossings of candidate `a` with one existing assignment `e`, as `MinCrossings`. */
  method CountPairCrossings(a: Assignment, e: Assignment, crosses: CrossesFn) returns (n: nat)
    ensures n == MinCrossings(a, e, crosses)
  {
    var hRoute, vRoute := Sketch(a, Resources.HorizontalFirst), Sketch(a, Resources.VerticalFirst);
    var eh, ev := Sketch(e, Resources.HorizontalFirst), Sketch(e, Resources.VerticalFirst);
    var hCrossings := (if crosses(hRoute, eh) then 1 else 0) + (if crosses(hRoute, ev) then 1 else 0);
    var vCrossings := (if crosses(vRoute, eh) then 1 else 0) + (if crosses(vRoute, ev) then 1 else 0);
    n := if vCrossings < hCrossings then vCrossings else hCrossings;
  }

  method ScorePortAssignment(a: Assignment, existing: Assignments, remaining: seq<Connection>, pools: Pools,
                             rects: map<Entity, Rect>, crosses: CrossesFn, dist: DistFn)
    returns (score: real)
    ensures score == Score(a, existing, remaining, pools, rects, crosses, dist)
  {
    score := 0.0;
    var todo := existing.Keys;
    while todo != {}
      invariant todo <= existing.Keys
      invariant score == CrossingSum(a, existing, existing.Keys - todo, crosses)
      decreases |todo|
    {
      var k :| k in todo;
      var crossings := CountPairCrossings(a, existing[k], crosses);
      CrossingSumRemove(a, existing, existing.Keys - (todo - {k}), k, crosses);
      assert existing.Keys - (todo - {k}) - {k} == existing.Keys - todo;
      score := score + crossings as real;
      todo := todo - {k};
    }
    assert existing.Keys - todo == existing.Keys;
    var futureImpact := EstimateFutureImpact(a, remaining, pools, rects, crosses);
    score := score + futureImpact * 0.5;
    score := score + dist(a.0, a.1) * 0.0001;
  }

  /** The score of every candidate pair, for stating which pair the search picks. */
  ghost function ScoreOf(existing: Assignments, remaining: seq<Connection>, pools: Pools,
                         rects: map<Entity, Rect>, crosses: CrossesFn, dist: DistFn): (Pos, Pos) -> real
  {
    (f: Pos, t: Pos) => Score((f, t), existing, remaining, pools, rects, crosses, dist)
  }

  /** Both pools of `c` exist and have a free port. */
  predicate HasCandidates(c: Connection, pools: Pools, rects: map<Entity, Rect>)
  {
    HasRects(c, rects) && FromKey(c, rects) in pools && ToKey(c, rects) in pools
    && |pools[FromKey(c, rects)]| > 0 && |pools[ToKey(c, rects)]| > 0
  }

  /** Tries every (from-port, to-port) pair in nested-loop order and keeps the first one of
      lowest score: a later pair replaces it only when strictly better. */
  method BestPortPair(fromPorts: seq<Pos>, toPorts: seq<Pos>, existing: Assignments, remaining: seq<Connection>,
                      pools: Pools, rects: map<Entity, Rect>, crosses: CrossesFn, dist: DistFn)
    returns (best: Option<Assignment>, ghost bi: int, ghost bj: int)
    ensures best.None? <==> |fromPorts| == 0 || |toPorts| == 0
    ensures best.Some? ==>
      IsFirstMinPair(fromPorts, toPorts, ScoreOf(existing, remaining, pools, rects, crosses, dist), bi, bj)
      && best.value == (fromPorts[bi], toPorts[bj])
  {
    ghost var score := ScoreOf(existing, remaining, pools, rects, crosses, dist);
    best := None;
    bi, bj := 0, 0;
    var bestScore: real := 0.0;
    var i := 0;
    while i < |fromPorts|
      invariant 0 <= i <= |fromPorts|
      invariant best.None? <==> i == 0 || |toPorts| == 0
      invariant best.Some? ==>
        FirstMinUpTo(fromPorts, toPorts, score, bi, bj, i, 0)
        && best.value == (fromPorts[bi], toPorts[bj]) && bestScore == score(fromPorts[bi], toPorts[bj])
    {
      best, bestScore, bi, bj := ScanRow(fromPorts, toPorts, i, best, bestScore, bi, bj, existing, remaining, pools, rects, crosses, dist);
      if best.Some? {
        FirstMinUpToNextRow(fromPorts, toPorts, score, bi, bj, i);
      }
      i := i + 1;
    }
  }

  /** The inner loop of `BestPortPair`: tries the pairs of row `i` in order, keeping the first
      pair of lowest score seen so far. */
  method ScanRow(fromPorts: seq<Pos>, toPorts: seq<Pos>, i: nat, best0: Option<Assignment>, bestScore0: real,
                 ghost bi0: int, ghost bj0: int, existing: Assignments, remaining: seq<Connection>,
                 pools: Pools, rects: map<Entity, Rect>, crosses: CrossesFn, dist: DistFn)
    returns (best: Option<Assignment>, bestScore: real, ghost bi: int, ghost bj: int)
    requires i < |fromPorts|
    requires best0.None? <==> i == 0 || |toPorts| == 0
    requires best0.Some? ==>
      FirstMinUpTo(fromPorts, toPorts, ScoreOf(existing, remaining, pools, rects, crosses, dist), bi0, bj0, i, 0)
      && best0.value == (fromPorts[bi0], toPorts[bj0])
      && bestScore0 == ScoreOf(existing, remaining, pools, rects, crosses, dist)(fromPorts[bi0], toPorts[bj0])
    ensures best.None? <==> |toPorts| == 0
    ensures best.Some? ==>
      FirstMinUpTo(fromPorts, toPorts, ScoreOf(existing, remaining, pools, rects, crosses, dist), bi, bj, i, |toPorts|)
      && best.value == (fromPorts[bi], toPorts[bj])
      && bestScore == ScoreOf(existing, remaining, pools, rects, crosses, dist)(fromPorts[bi], toPorts[bj])
  {
    ghost var score := ScoreOf(existing, remaining, pools, rects, crosses, dist);
    best, bestScore, bi, bj := best0, bestScore0, bi0, bj0;
    var j := 0;
    while j < |toPorts|
      invariant 0 <= j <= |toPorts|
      invariant best.None? <==> (i == 0 || |toPorts| == 0) && j == 0
      invariant best.Some? ==>
        FirstMinUpTo(fromPorts, toPorts, score, bi, bj, i, j)
        && best.value == (fromPorts[bi], toPorts[bj]) && bestScore == score(fromPorts[bi], toPorts[bj])
    {
      best, bestScore, bi, bj := ConsiderPair(fromPorts, toPorts, i, j, best, bestScore, bi, bj, existing, remaining, pools, rects, crosses, dist);
      j := j + 1;
    }
  }

  /** One step of the search: the pair `(i, j)` becomes the best when it is the first pair
      tried or strictly better than the best so far. */
  method ConsiderPair(fromPorts: seq<Pos>, toPorts: seq<Pos>, i: nat, j: nat, best0: Option<Assignment>, bestScore0: real,
                      ghost bi0: int, ghost bj0: int, existing: Assignments, remaining: seq<Connection>,
                      pools: Pools, rects: map<Entity, Rect>, crosses: CrossesFn, dist: DistFn)
    returns (best: Option<Assignment>, bestScore: real, ghost bi: int, ghost bj: int)
    requires i < |fromPorts| && j < |toPorts|
    requires best0.None? ==> i == 0 && j == 0
    requires best0.Some? ==>
      FirstMinUpTo(fromPorts, toPorts, ScoreOf(existing, remaining, pools, rects, crosses, dist), bi0, bj0, i, j)
      && best0.value == (fromPorts[bi0], toPorts[bj0])
      && bestScore0 == ScoreOf(existing, remaining, pools, rects, crosses, dist)(fromPorts[bi0], toPorts[bj0])
    ensures best.Some?
    ensures FirstMinUpTo(fromPorts, toPorts, ScoreOf(existing, remaining, pools, rects, crosses, dist), bi, bj, i, j + 1)
    ensures best.value == (fromPorts[bi], toPorts[bj])
    ensures bestScore == ScoreOf(existing, remaining, pools, rects, crosses, dist)(fromPorts[bi], toPorts[bj])
  {
    ghost var score := ScoreOf(existing, remaining, pools, rects, crosses, dist);
    var s := ScorePortAssignment((fromPorts[i], toPorts[j]), existing, remaining, pools, rects, crosses, dist);
    assert s == score(fromPorts[i], toPorts[j]);
    best, bestScore, bi, bj := best0, bestScore0, bi0, bj0;
    if best.None? {
      FirstMinUpToFirst(fromPorts, toPorts, score);
      best, bestScore := Some((fromPorts[i], toPorts[j])), s;
      bi, bj := i, j;
    } else {
      FirstMinUpToStep(fromPorts, toPorts, score, bi, bj, i, j);
      if s < bestScore {
        best, bestScore := Some((fromPorts[i], toPorts[j])), s;
        bi, bj := i, j;
      }
    }
  }

  /** The best pair of ports for `c` from its current pools (see `BestPortPair`). Nothing is
      found when an entity has no routing pins, a pool is missing, or a pool is empty. */
  method FindBestPortAssignment(c: Connection, pools: Pools, existing: Assignments, remaining: seq<Connection>,
                                rects: map<Entity, Rect>, crosses: CrossesFn, dist: DistFn)
    returns (best: Option<Assignment>, ghost bi: int, ghost bj: int)
    ensures best.Some? <==> HasCandidates(c, pools, rects)
    ensures best.Some? ==>
      var fromPorts, toPorts := pools[FromKey(c, rects)], pools[ToKey(c, rects)];
      IsFirstMinPair(fromPorts, toPorts, ScoreOf(existing, remaining, pools, rects, crosses, dist), bi, bj)
      && best.value == (fromPorts[bi], toPorts[bj])
  {
    bi, bj := 0, 0;
    if !HasRects(c, rects) || FromKey(c, rects) !in pools || ToKey(c, rects) !in pools {
      best := None;
      return;
    }
    best, bi, bj := BestPortPair(pools[FromKey(c, rects)], pools[ToKey(c, rects)], existing, remaining, pools, rects, crosses, dist);
  }

  // ---------------------------------------------------------------------------------------
  // Committing assignments

  /** A port is kept in a pool after `q` was committed unless it lies within 1 of `q` on
      both axes. */
  predicate Far(p: Pos, q: Pos)
  {
    Abs(p.x - q.x) > 1.0 || Abs(p.y - q.y) > 1.0
  }

  /** The ports a pool keeps once `q` was committed. */
  function FarFrom(q: Pos): Pos -> bool
  {
    p => Far(p, q)
  }

  lemma FarIsSymmetricAndIrreflexive(p: Pos, q: Pos)
    ensures Far(p, q) <==> Far(q, p)
    ensures !Far(q, q)
  {
  }

  /** `ports.retain(|p| Far(p, committed))`. */
  method RetainFar(ports: seq<Pos>, committed: Pos) returns (kept: seq<Pos>)
    ensures kept == Filter(ports, FarFrom(committed))
    ensures forall p :: p in kept ==> p in ports && Far(p, committed)
    ensures committed !in kept
  {
    kept := [];
    var i := 0;
    while i < |ports|
      invariant 0 <= i <= |ports|
      invariant kept == Filter(ports[..i], FarFrom(committed))
    {
      FilterAppend(ports[..i], [ports[i]], FarFrom(committed));
      assert ports[..i + 1] == ports[..i] + [ports[i]];
      if Far(ports[i], committed) {
        kept := kept + [ports[i]];
      }
      i := i + 1;
    }
    assert ports[..i] == ports;
    FarIsSymmetricAndIrreflexive(committed, committed);
  }

  /** A connection leaves and enters by different pools, since the two sides are opposite. */
  lemma FromAndToPoolsDiffer(c: Connection, rects: map<Entity, Rect>)
    requires HasRects(c, rects)
    ensures FromKey(c, rects) != ToKey(c, rects)
  {
    assert AreOppositeEdges(Edges(c, rects).0, Edges(c, rects).1);
  }

  /** Retains, in the pool `k` only, the ports not within 1 of `committed` on both axes. */
  method RetainInPool(pools: Pools, k: PoolKey, committed: Pos) returns (out: Pools)
    ensures out.Keys == pools.Keys
    ensures forall j :: j in out && j != k ==> out[j] == pools[j]
    ensures k in out ==> out[k] == Filter(pools[k], FarFrom(committed))
    ensures forall j, p :: j in out && p in out[j] ==> p in pools[j]
    ensures out == if k in pools then pools[k := Filter(pools[k], FarFrom(committed))] else pools
  {
    out := pools;
    if k in pools {
      var kept := RetainFar(pools[k], committed);
      out := pools[k := kept];
    }
  }

  /** The pools once the ports of `a` are committed for `c`: the connection's from pool keeps
      the ports far from the from port, its to pool those far from the to port. */
  function UsedPortsRemoved(pools: Pools, a: Assignment, c: Connection, rects: map<Entity, Rect>): Pools
  {
    if !HasRects(c, rects) then pools
    else
      var fk, tk := FromKey(c, rects), ToKey(c, rects);
      var afterFrom := if fk in pools then pools[fk := Filter(pools[fk], FarFrom(a.0))] else pools;
      if tk in afterFrom then afterFrom[tk := Filter(afterFrom[tk], FarFrom(a.1))] else afterFrom
  }

  /** Removes the committed ports from the connection's two pools: each of them keeps, in
      order, exactly its ports that are not within 1 of the committed port on both axes. No
      pool is added or dropped, and the other pools are untouched. */
  method RemoveUsedPorts(pools: Pools, a: Assignment, c: Connection, rects: map<Entity, Rect>) returns (out: Pools)
    ensures out.Keys == pools.Keys
    ensures forall k, p :: k in out && p in out[k] ==> p in pools[k]
    ensures !HasRects(c, rects) ==> out == pools
    ensures HasRects(c, rects) ==>
      var fk, tk := FromKey(c, rects), ToKey(c, rects);
      (forall k :: k in out && k != fk && k != tk ==> out[k] == pools[k])
      && (fk in out ==> out[fk] == Filter(pools[fk], FarFrom(a.0)))
      && (tk in out ==> out[tk] == Filter(pools[tk], FarFrom(a.1)))
    ensures out == UsedPortsRemoved(pools, a, c, rects)
  {
    out := pools;
    if HasRects(c, rects) {
      FromAndToPoolsDiffer(c, rects);
      var afterFrom := RetainInPool(pools, FromKey(c, rects), a.0);
      out := RetainInPool(afterFrom, ToKey(c, rects), a.1);
    }
  }

  /** A committed assignment: the connection, and the port taken from each of its pools. */
  datatype Commit = Commit(conn: Connection, fromKey: PoolKey, fromPort: Pos, toKey: PoolKey, toPort: Pos)

  /** Assignments are keyed by the (source, target) entity pair. */
  function PairKey(c: Connection): (Entity, Entity)
  {
    (c.fromEntity, c.toEntity)
  }

  /** The assignment map after the commits of `log`, in order: each commit writes the entry
      of its entity pair, overwriting an earlier commit between the same two entities. */
  function AssignmentsOf(log: seq<Commit>): Assignments
  {
    if |log| == 0 then map[]
    else
      var last := log[|log| - 1];
      AssignmentsOf(log[..|log| - 1])[PairKey(last.conn) := (last.fromPort, last.toPort)]
  }

  /** An entity pair has an assignment exactly when some commit was for that pair. */
  lemma {:induction false} AssignedPairs(log: seq<Commit>, k: (Entity, Entity))
    ensures k in AssignmentsOf(log) <==> exists n :: 0 <= n < |log| && PairKey(log[n].conn) == k
  {
    if |log| > 0 {
      var init := log[..|log| - 1];
      AssignedPairs(init, k);
      if k in AssignmentsOf(init) {
        var n :| 0 <= n < |init| && PairKey(init[n].conn) == k;
        assert log[n] == init[n];
      }
      if exists n :: 0 <= n < |log| && PairKey(log[n].conn) == k {
        var n :| 0 <= n < |log| && PairKey(log[n].conn) == k;
        if n < |init| {
          assert init[n] == log[n];
        }
      }
    }
  }

  /** The assignment of a pair is its last commit: an earlier commit between the same two
      entities is lost from the map (its ports stay removed from the pools). */
  lemma {:induction false} LastCommitWins(log: seq<Commit>, n: nat)
    requires n < |log|
    requires forall m :: n < m < |log| ==> PairKey(log[m].conn) != PairKey(log[n].conn)
    ensures PairKey(log[n].conn) in AssignmentsOf(log)
    ensures AssignmentsOf(log)[PairKey(log[n].conn)] == (log[n].fromPort, log[n].toPort)
  {
    if n < |log| - 1 {
      var init := log[..|log| - 1];
      assert init[n] == log[n];
      forall m | n < m < |init|
        ensures PairKey(init[m].conn) != PairKey(init[n].conn)
      {
        assert init[m] == log[m];
      }
      LastCommitWins(init, n);
    }
  }

  /** The ports taken by the commits of `log`, each with the pool it came from, in order. */
  function Uses(log: seq<Commit>): (u: seq<(PoolKey, Pos)>)
    ensures |u| == 2 * |log|
  {
    if |log| == 0 then []
    else
      var last := log[|log| - 1];
      Uses(log[..|log| - 1]) + [(last.fromKey, last.fromPort), (last.toKey, last.toPort)]
  }

  /** No port was taken twice from one pool: each port taken lies more than 1 away, on some
      axis, from every port taken earlier from the same pool. */
  ghost predicate NoPortReused(log: seq<Commit>)
  {
    var u := Uses(log);
    forall m, n :: 0 <= m < n < |u| && u[m].0 == u[n].0 ==> Far(u[n].1, u[m].1)
  }

  /** Every port left in a pool is clear of every port already taken from that pool. */
  ghost predicate PoolsAvoid(pools: Pools, u: seq<(PoolKey, Pos)>)
  {
    forall n, p :: 0 <= n < |u| && u[n].0 in pools && p in pools[u[n].0] ==> Far(p, u[n].1)
  }

  /** Every pool holds only ports of the same pool at the start. */
  ghost predicate PoolsWithin(pools: Pools, initial: Pools)
  {
    pools.Keys == initial.Keys && forall k, p :: k in pools && p in pools[k] ==> p in initial[k]
  }

  /** Committing a pair drawn from the current pools keeps every invariant of the loop. */
  lemma CommitKeepsInvariants(log: seq<Commit>, pools: Pools, initial: Pools, out: Pools, cm: Commit)
    requires NoPortReused(log) && PoolsAvoid(pools, Uses(log)) && PoolsWithin(pools, initial)
    requires forall n :: 0 <= n < |Uses(log)| ==> Uses(log)[n].0 in initial && Uses(log)[n].1 in initial[Uses(log)[n].0]
    requires cm.fromKey != cm.toKey
    requires cm.fromKey in pools && cm.fromPort in pools[cm.fromKey]
    requires cm.toKey in pools && cm.toPort in pools[cm.toKey]
    requires out.Keys == pools.Keys && forall k, p :: k in out && p in out[k] ==> p in pools[k]
    requires forall p :: p in out[cm.fromKey] ==> Far(p, cm.fromPort)
    requires forall p :: p in out[cm.toKey] ==> Far(p, cm.toPort)
    ensures var log' := log + [cm];
      NoPortReused(log') && PoolsAvoid(out, Uses(log')) && PoolsWithin(out, initial)
      && forall n :: 0 <= n < |Uses(log')| ==> Uses(log')[n].0 in initial && Uses(log')[n].1 in initial[Uses(log')[n].0]
  {
    var log' := log + [cm];
    assert log'[..|log'| - 1] == log;
    var u, u' := Uses(log), Uses(log');
    assert u' == u + [(cm.fromKey, cm.fromPort), (cm.toKey, cm.toPort)];
    forall m, n | 0 <= m < n < |u'| && u'[m].0 == u'[n].0
      ensures Far(u'[n].1, u'[m].1)
    {
      if n >= |u| && m < |u| {
        assert u'[m] == u[m];
      }
    }
  }

  /** What the greedy loop keeps: the map is the fold of the commits, each commit is for a
      routable connection of `conns` and takes its ports from that connection's pools, every
      port taken comes from the initial pools, no port is taken twice from one pool, and the
      pools only lose ports. */
  ghost predicate AssignInvariant(conns: seq<Connection>, rects: map<Entity, Rect>, initial: Pools,
                                  pools: Pools, assignments: Assignments, log: seq<Commit>)
  {
    && assignments == AssignmentsOf(log)
    && (forall n :: 0 <= n < |log| ==>
          log[n].conn in conns && HasRects(log[n].conn, rects)
          && log[n].fromKey == FromKey(log[n].conn, rects) && log[n].toKey == ToKey(log[n].conn, rects))
    && (forall n :: 0 <= n < |Uses(log)| ==> Uses(log)[n].0 in initial && Uses(log)[n].1 in initial[Uses(log)[n].0])
    && NoPortReused(log) && PoolsAvoid(pools, Uses(log)) && PoolsWithin(pools, initial)
  }

  /** The commit the greedy loop makes for `c` when both its pools have free ports: the first
      pair of lowest score over the current pools, given the assignments so far and the
      connections still to come. */
  ghost function BestCommit(c: Connection, remaining: seq<Connection>, pools: Pools, assignments: Assignments,
                            rects: map<Entity, Rect>, crosses: CrossesFn, dist: DistFn): (cm: Commit)
    requires HasCandidates(c, pools, rects)
    ensures cm.conn == c && cm.fromKey == FromKey(c, rects) && cm.toKey == ToKey(c, rects)
    ensures cm.fromPort in pools[cm.fromKey] && cm.toPort in pools[cm.toKey]
  {
    var fk, tk := FromKey(c, rects), ToKey(c, rects);
    var ij := FirstMinPairOf(pools[fk], pools[tk], ScoreOf(assignments, remaining, pools, rects, crosses, dist));
    Commit(c, fk, pools[fk][ij.0], tk, pools[tk][ij.1])
  }

  /** The greedy loop as a fold over the connections in the order taken: a connection whose
      two pools both have free ports commits its best pair, which is recorded under its entity
      pair and removed from the pools before the next connection; any other connection is
      skipped. Returns the final assignments and the commits, in order. */
  ghost function Greedy(order: seq<Connection>, pools: Pools, assignments: Assignments,
                        rects: map<Entity, Rect>, crosses: CrossesFn, dist: DistFn): (Assignments, seq<Commit>)
    decreases |order|
  {
    if |order| == 0 then (assignments, [])
    else
      var c := order[0];
      if HasCandidates(c, pools, rects) then
        var cm := BestCommit(c, order[1..], pools, assignments, rects, crosses, dist);
        var a := (cm.fromPort, cm.toPort);
        var rest := Greedy(order[1..], UsedPortsRemoved(pools, a, c, rects), assignments[PairKey(c) := a], rects, crosses, dist);
        (rest.0, [cm] + rest.1)
      else Greedy(order[1..], pools, assignments, rects, crosses, dist)
  }

  /** The whole lookahead assignment: the greedy fold over the connections sorted most
      constrained first, starting from the initial pools and no assignments. */
  ghost function Lookahead(conns: seq<Connection>, rects: map<Entity, Rect>, crosses: CrossesFn, dist: DistFn): (Assignments, seq<Commit>)
  {
    var initial := InitialPools(conns, rects);
    Greedy(SortBy(conns, MostConstrainedFirst(initial, rects, dist)), initial, map[], rects, crosses, dist)
  }

  /** The fold over the suffix from `i`, taken apart into its first round and the rest. */
  lemma GreedyFrom(order: seq<Connection>, i: nat, pools: Pools, assignments: Assignments,
                   rects: map<Entity, Rect>, crosses: CrossesFn, dist: DistFn)
    requires i < |order|
    ensures Greedy(order[i..], pools, assignments, rects, crosses, dist) ==
      if HasCandidates(order[i], pools, rects) then
        var cm := BestCommit(order[i], order[i + 1..], pools, assignments, rects, crosses, dist);
        var a := (cm.fromPort, cm.toPort);
        var rest := Greedy(order[i + 1..], UsedPortsRemoved(pools, a, order[i], rects), assignments[PairKey(order[i]) := a], rects, crosses, dist);
        (rest.0, [cm] + rest.1)
      else Greedy(order[i + 1..], pools, assignments, rects, crosses, dist)
  {
    assert order[i..][0] == order[i] && order[i..][1..] == order[i + 1..];
  }

  /** One round of the greedy loop, for connection `c` with the connections after it. */
  method AssignOne(c: Connection, remaining: seq<Connection>, pools: Pools, assignments: Assignments,
                   rects: map<Entity, Rect>, crosses: CrossesFn, dist: DistFn,
                   ghost conns: seq<Connection>, ghost initial: Pools, ghost log: seq<Commit>)
    returns (pools': Pools, assignments': Assignments, ghost log': seq<Commit>)
    requires c in conns
    requires AssignInvariant(conns, rects, initial, pools, assignments, log)
    ensures AssignInvariant(conns, rects, initial, pools', assignments', log')
    ensures !HasCandidates(c, pools, rects) ==> pools' == pools && assignments' == assignments && log' == log
    ensures HasCandidates(c, pools, rects) ==>
      var cm := BestCommit(c, remaining, pools, assignments, rects, crosses, dist);
      log' == log + [cm] && assignments' == assignments[PairKey(c) := (cm.fromPort, cm.toPort)]
      && pools' == UsedPortsRemoved(pools, (cm.fromPort, cm.toPort), c, rects)
  {
    pools', assignments', log' := pools, assignments, log;
    var best, bi, bj := FindBestPortAssignment(c, pools, assignments, remaining, rects, crosses, dist);
    if best.Some? {
      var fk, tk := FromKey(c, rects), ToKey(c, rects);
      FromAndToPoolsDiffer(c, rects);
      assert best.value.0 in pools[fk] && best.value.1 in pools[tk];
      var cm := Commit(c, fk, best.value.0, tk, best.value.1);
      ghost var ij := FirstMinPairOf(pools[fk], pools[tk], ScoreOf(assignments, remaining, pools, rects, crosses, dist));
      FirstMinPairUnique(pools[fk], pools[tk], ScoreOf(assignments, remaining, pools, rects, crosses, dist), bi, bj, ij.0, ij.1);
      assert cm == BestCommit(c, remaining, pools, assignments, rects, crosses, dist);
      assignments' := assignments[PairKey(c) := best.value];
      pools' := RemoveUsedPorts(pools, best.value, c, rects);
      AssignStep(conns, rects, initial, pools, assignments, log, cm, pools');
      log' := log + [cm];
    }
  }

  /** Committing a pair drawn from the connection's own pools, and removing what is near it
      from those pools, keeps the loop's invariant. */
  lemma AssignStep(conns: seq<Connection>, rects: map<Entity, Rect>, initial: Pools, pools: Pools,
                   assignments: Assignments, log: seq<Commit>, cm: Commit, out: Pools)
    requires AssignInvariant(conns, rects, initial, pools, assignments, log)
    requires cm.conn in conns && HasRects(cm.conn, rects)
    requires cm.fromKey == FromKey(cm.conn, rects) && cm.toKey == ToKey(cm.conn, rects)
    requires cm.fromKey in pools && cm.fromPort in pools[cm.fromKey]
    requires cm.toKey in pools && cm.toPort in pools[cm.toKey]
    requires out.Keys == pools.Keys && forall k, p :: k in out && p in out[k] ==> p in pools[k]
    requires forall p :: p in out[cm.fromKey] ==> Far(p, cm.fromPort)
    requires forall p :: p in out[cm.toKey] ==> Far(p, cm.toPort)
    ensures AssignInvariant(conns, rects, initial, out, assignments[PairKey(cm.conn) := (cm.fromPort, cm.toPort)], log + [cm])
  {
    FromAndToPoolsDiffer(cm.conn, rects);
    CommitKeepsInvariants(log, pools, initial, out, cm);
    var log' := log + [cm];
    assert log'[..|log|] == log;
    forall n | 0 <= n < |log'|
      ensures log'[n].conn in conns && HasRects(log'[n].conn, rects)
        && log'[n].fromKey == FromKey(log'[n].conn, rects) && log'[n].toKey == ToKey(log'[n].conn, rects)
    {
      if n < |log| {
        assert log'[n] == log[n];
      }
    }
  }

  /** The greedy loop of the lookahead assignment: connections are taken most constrained
      first (by their constraint over the initial pools); each gets the best pair of its
      current pools, which is recorded under its entity pair and removed from the pools.
      Returns the assignments, the order used, and (as a ghost) the commits made. */
  method AssignPorts(conns: seq<Connection>, rects: map<Entity, Rect>, crosses: CrossesFn, dist: DistFn)
    returns (assignments: Assignments, initial: Pools, order: seq<Connection>, ghost log: seq<Commit>)
    ensures initial == InitialPools(conns, rects)
    ensures order == SortBy(conns, MostConstrainedFirst(initial, rects, dist))
    ensures (assignments, log) == Lookahead(conns, rects, crosses, dist)
    ensures assignments == AssignmentsOf(log)
    ensures |log| <= |conns|
    ensures forall n :: 0 <= n < |log| ==>
      log[n].conn in conns && HasRects(log[n].conn, rects)
      && log[n].fromKey == FromKey(log[n].conn, rects) && log[n].toKey == ToKey(log[n].conn, rects)
    ensures forall n :: 0 <= n < |Uses(log)| ==>
      Uses(log)[n].0 in initial && Uses(log)[n].1 in initial[Uses(log)[n].0]
    ensures NoPortReused(log)
  {
    initial := InitializeAvailablePorts(conns, rects);
    order := SortBy(conns, MostConstrainedFirst(initial, rects, dist));
    var pools;
    assignments, pools, log := AssignInOrder(conns, order, initial, rects, crosses, dist);
  }

  /** The loop of `AssignPorts` over the connections in the order taken, starting from the
      initial pools and no assignments; also returns the pools left over. */
  method AssignInOrder(conns: seq<Connection>, order: seq<Connection>, initial: Pools,
                       rects: map<Entity, Rect>, crosses: CrossesFn, dist: DistFn)
    returns (assignments: Assignments, pools: Pools, ghost log: seq<Commit>)
    requires multiset(order) == multiset(conns)
    ensures (assignments, log) == Greedy(order, initial, map[], rects, crosses, dist)
    ensures AssignInvariant(conns, rects, initial, pools, assignments, log)
    ensures |log| <= |order|
  {
    pools := initial;
    assignments := map[];
    log := [];
    ghost var result := Greedy(order, initial, map[], rects, crosses, dist);
    GreedyStarts(result, order, pools, rects, crosses, dist);
    var i := 0;
    while i < |order|
      invariant 0 <= i <= |order|
      invariant |log| <= i
      invariant AssignInvariant(conns, rects, initial, pools, assignments, log)
      invariant GreedyRemains(result, order, i, pools, assignments, log, rects, crosses, dist)
    {
      assert order[i] in multiset(conns);
      ghost var pools0, assignments0, log0 := pools, assignments, log;
      pools, assignments, log := AssignOne(order[i], order[i + 1..], pools, assignments, rects, crosses, dist, conns, initial, log);
      GreedyAdvance(result, order, i, pools0, assignments0, log0, pools, assignments, log, rects, crosses, dist);
      i := i + 1;
    }
    GreedyEnds(result, order, pools, assignments, log, rects, crosses, dist);
  }

  /** Before the first round, the whole fold is still to come. */
  lemma GreedyStarts(result: (Assignments, seq<Commit>), order: seq<Connection>, initial: Pools,
                     rects: map<Entity, Rect>, crosses: CrossesFn, dist: DistFn)
    requires result == Greedy(order, initial, map[], rects, crosses, dist)
    ensures GreedyRemains(result, order, 0, initial, map[], [], rects, crosses, dist)
  {
    assert order[0..] == order;
    assert [] + result.1 == result.1;
  }

  /** After the last round nothing is left to come: the loop's state is the fold's result. */
  lemma GreedyEnds(result: (Assignments, seq<Commit>), order: seq<Connection>, pools: Pools,
                   assignments: Assignments, log: seq<Commit>,
                   rects: map<Entity, Rect>, crosses: CrossesFn, dist: DistFn)
    requires GreedyRemains(result, order, |order|, pools, assignments, log, rects, crosses, dist)
    ensures result == (assignments, log)
  {
    assert order[|order|..] == [];
    assert log + [] == log;
  }

  /** The loop's link to the fold: what is still to come from position `i` on, appended to
      the commits made so far, is the whole lookahead result. */
  ghost predicate GreedyRemains(result: (Assignments, seq<Commit>), order: seq<Connection>, i: nat,
                                pools: Pools, assignments: Assignments, log: seq<Commit>,
                                rects: map<Entity, Rect>, crosses: CrossesFn, dist: DistFn)
    requires i <= |order|
  {
    var rest := Greedy(order[i..], pools, assignments, rects, crosses, dist);
    result == (rest.0, log + rest.1)
  }

  /** A round made as `AssignOne` promises keeps the loop's link to the fold. */
  lemma GreedyAdvance(result: (Assignments, seq<Commit>), order: seq<Connection>, i: nat,
                      pools: Pools, assignments: Assignments, log: seq<Commit>,
                      pools': Pools, assignments': Assignments, log': seq<Commit>,
                      rects: map<Entity, Rect>, crosses: CrossesFn, dist: DistFn)
    requires i < |order|
    requires GreedyRemains(result, order, i, pools, assignments, log, rects, crosses, dist)
    requires !HasCandidates(order[i], pools, rects) ==> pools' == pools && assignments' == assignments && log' == log
    requires HasCandidates(order[i], pools, rects) ==>
      var cm := BestCommit(order[i], order[i + 1..], pools, assignments, rects, crosses, dist);
      log' == log + [cm] && assignments' == assignments[PairKey(order[i]) := (cm.fromPort, cm.toPort)]
      && pools' == UsedPortsRemoved(pools, (cm.fromPort, cm.toPort), order[i], rects)
    ensures GreedyRemains(result, order, i + 1, pools', assignments', log', rects, crosses, dist)
  {
    GreedyFrom(order, i, pools, assignments, rects, crosses, dist);
    if HasCandidates(order[i], pools, rects) {
      var cm := BestCommit(order[i], order[i + 1..], pools, assignments, rects, crosses, dist);
      var rest := Greedy(order[i + 1..], pools', assignments', rects, crosses, dist);
      assert log + ([cm] + rest.1) == log' + rest.1;
    }
  }

  // ---------------------------------------------------------------------------------------
  // Writing the assignments back to the pin cache

  function SideOf(pins: SidePins, side: EdgeSide): seq<Pos>
  {
    match side
    case Top => pins.top
    case Right => pins.right
    case Bottom => pins.bottom
    case Left => pins.left
  }

  /** `pins` with the ports of `side` replaced by `ports`; the rect and the other sides stay. */
  function WithSide(pins: SidePins, side: EdgeSide, ports: seq<Pos>): (q: SidePins)
    ensures q.rect == pins.rect && SideOf(q, side) == ports
    ensures forall s :: s != side ==> SideOf(q, s) == SideOf(pins, s)
  {
    match side
    case Top => pins.(top := ports)
    case Right => pins.(right := ports)
    case Bottom => pins.(bottom := ports)
    case Left => pins.(left := ports)
  }

  /** `pins` with `p` added at the end of pool `k` (created empty when missing). */
  function AddPort(g: Pools, k: PoolKey, p: Pos): (r: Pools)
    ensures r.Keys == g.Keys + {k}
    ensures r[k] == (if k in g then g[k] else []) + [p]
    ensures forall j :: j in g && j != k ==> r[j] == g[j]
  {
    g[k := (if k in g then g[k] else []) + [p]]
  }

  /** The assigned ports grouped by the pool they sit on: for each connection in order that
      has an assignment and routing pins, its from-port joins its from-pool and its to-port its
      to-pool. */
  function Grouped(assignments: Assignments, conns: seq<Connection>, rects: map<Entity, Rect>): Pools
  {
    if |conns| == 0 then map[]
    else
      var g := Grouped(assignments, conns[..|conns| - 1], rects);
      var c := conns[|conns| - 1];
      if PairKey(c) in assignments && HasRects(c, rects) then
        AddPort(AddPort(g, FromKey(c, rects), assignments[PairKey(c)].0), ToKey(c, rects), assignments[PairKey(c)].1)
      else g
  }

  /** Every grouped port is the assigned from-port of a connection leaving by that pool or the
      assigned to-port of one entering by it. */
  lemma {:induction false} GroupedPortsAreAssigned(assignments: Assignments, conns: seq<Connection>, rects: map<Entity, Rect>, k: PoolKey, p: Pos)
    requires k in Grouped(assignments, conns, rects) && p in Grouped(assignments, conns, rects)[k]
    ensures exists n ::
      && 0 <= n < |conns| && PairKey(conns[n]) in assignments && HasRects(conns[n], rects)
      && ((FromKey(conns[n], rects) == k && assignments[PairKey(conns[n])].0 == p) ||
          (ToKey(conns[n], rects) == k && assignments[PairKey(conns[n])].1 == p))
  {
    var init := conns[..|conns| - 1];
    var g := Grouped(assignments, init, rects);
    var c := conns[|conns| - 1];
    if k in g && p in g[k] {
      GroupedPortsAreAssigned(assignments, init, rects, k, p);
      var n :| 0 <= n < |init| && PairKey(init[n]) in assignments && HasRects(init[n], rects) &&
        ((FromKey(init[n], rects) == k && assignments[PairKey(init[n])].0 == p) ||
         (ToKey(init[n], rects) == k && assignments[PairKey(init[n])].1 == p));
      assert conns[n] == init[n];
    } else {
      assert conns[|conns| - 1] == c;
    }
  }

  /** Groups the assigned ports by pool, connection by connection. */
  method GroupAssignedPorts(assignments: Assignments, conns: seq<Connection>, rects: map<Entity, Rect>) returns (g: Pools)
    ensures g == Grouped(assignments, conns, rects)
  {
    g := map[];
    var i := 0;
    while i < |conns|
      invariant 0 <= i <= |conns|
      invariant g == Grouped(assignments, conns[..i], rects)
    {
      var c := conns[i];
      assert conns[..i + 1][..i] == conns[..i];
      if PairKey(c) in assignments && HasRects(c, rects) {
        var a := assignments[PairKey(c)];
        var fk, tk := FromKey(c, rects), ToKey(c, rects);
        g := g[fk := (if fk in g then g[fk] else []) + [a.0]];
        g := g[tk := (if tk in g then g[tk] else []) + [a.1]];
      }
      i := i + 1;
    }
    assert conns[..i] == conns;
  }

  /** The order ports of a side are listed in: along x for top and bottom, along y for left
      and right. */
  function AlongSideLe(side: EdgeSide): (Pos, Pos) -> bool
  {
    (a: Pos, b: Pos) => if side == Top || side == Bottom then a.x <= b.x else a.y <= b.y
  }

  lemma AlongSideLeIsTotalPreorder(side: EdgeSide)
    ensures TotalPreorder(AlongSideLe(side))
  {
  }

  /** The ports of one side as stored in the cache: sorted along the side, then with
      consecutive repeats dropped. */
  function Normalize(ports: seq<Pos>, side: EdgeSide): seq<Pos>
  {
    Dedup(SortBy(ports, AlongSideLe(side)))
  }

  /** The stored ports are ordered along the side, have no two equal neighbours, and are
      exactly the grouped ports (each kept at least once). */
  lemma NormalizeProperties(ports: seq<Pos>, side: EdgeSide)
    ensures SortedBy(Normalize(ports, side), AlongSideLe(side))
    ensures forall i :: 0 <= i < |Normalize(ports, side)| - 1 ==> Normalize(ports, side)[i] != Normalize(ports, side)[i + 1]
    ensures forall p :: p in Normalize(ports, side) <==> p in ports
    ensures |Normalize(ports, side)| <= |ports|
  {
    var sorted := SortBy(ports, AlongSideLe(side));
    AlongSideLeIsTotalPreorder(side);
    SortBySorted(ports, AlongSideLe(side));
    DedupKeepsSorted(sorted, AlongSideLe(side));
    DedupNoAdjacentRepeats(sorted);
    forall p
      ensures p in Normalize(ports, side) <==> p in ports
    {
      assert p in sorted <==> p in multiset(sorted);
      assert p in ports <==> p in multiset(ports);
    }
  }

  /** The pins after storing every grouped side, normalized, in the nodes that have pins. */
  method StoreGrouped(before: map<Entity, SidePins>, g: Pools) returns (pins: map<Entity, SidePins>)
    ensures pins.Keys == before.Keys
    ensures forall e :: e in pins ==> pins[e].rect == before[e].rect
    ensures forall e, side :: e in pins ==>
      SideOf(pins[e], side) == (if (e, side) in g then Normalize(g[(e, side)], side) else SideOf(before[e], side))
  {
    pins := before;
    var todo := g.Keys;
    while todo != {}
      invariant todo <= g.Keys
      invariant pins.Keys == before.Keys
      invariant forall e :: e in pins ==> pins[e].rect == before[e].rect
      invariant forall e, side :: e in pins ==>
        SideOf(pins[e], side) == (if (e, side) in g && (e, side) !in todo then Normalize(g[(e, side)], side) else SideOf(before[e], side))
      decreases |todo|
    {
      var k :| k in todo;
      if k.0 in pins {
        pins := pins[k.0 := WithSide(pins[k.0], k.1, Normalize(g[k], k.1))];
      }
      todo := todo - {k};
    }
  }

  /** `pins` is `before` with every grouped side stored, normalized, in the nodes that have
      pins: the same nodes and rects, and every other side as it was. */
  ghost predicate StoredGrouped(pins: map<Entity, SidePins>, before: map<Entity, SidePins>, g: Pools)
  {
    pins.Keys == before.Keys
    && (forall e :: e in pins ==> pins[e].rect == before[e].rect)
    && (forall e, side :: e in pins ==>
          SideOf(pins[e], side) == (if (e, side) in g then Normalize(g[(e, side)], side) else SideOf(before[e], side)))
  }

  /** The rectangle of every node with routing pins. */
  function RectsOf(pins: map<Entity, SidePins>): (r: map<Entity, Rect>)
    ensures r.Keys == pins.Keys
    ensures forall e :: e in r ==> r[e] == pins[e].rect
  {
    map e | e in pins :: pins[e].rect
  }

  /** A connection that does not start at the initial-state pin. */
  predicate IsRegular(c: Connection)
  {
    c.fromPinIndex != UsizeMax
  }

  /** Where the routing pins of each node are and which ports each of its sides offers. */
  class PinPositionCache {
    var edgePins: map<Entity, SidePins>

    constructor()
      ensures edgePins == map[]
    {
      edgePins := map[];
    }

    function Rects(): (r: map<Entity, Rect>)
      reads this
      ensures r == RectsOf(edgePins)
    {
      RectsOf(edgePins)
    }

    /** Replaces, for every (node, side) that received assigned ports, the side's ports by
        those ports sorted along the side without consecutive repeats. Other sides, the rects
        and the set of nodes stay as they were. */
    method UpdatePinCacheWithAssignments(assignments: Assignments, conns: seq<Connection>)
      modifies this
      ensures StoredGrouped(edgePins, old(edgePins), Grouped(assignments, conns, RectsOf(old(edgePins))))
    {
      var g := GroupAssignedPorts(assignments, conns, Rects());
      edgePins := StoreGrouped(edgePins, g);
    }

    /** Hands out ports to `conns` greedily with lookahead (see `AssignPorts`) using the
        current node rects, then writes the assigned ports back to the cache. */
    method AssignPortsWithLookahead(conns: seq<Connection>, crosses: CrossesFn, dist: DistFn)
      returns (assignments: Assignments, ghost log: seq<Commit>)
      modifies this
      ensures (assignments, log) == Lookahead(conns, RectsOf(old(edgePins)), crosses, dist)
      ensures assignments == AssignmentsOf(log) && NoPortReused(log)
      ensures forall n :: 0 <= n < |log| ==> log[n].conn in conns && HasRects(log[n].conn, RectsOf(old(edgePins)))
      ensures StoredGrouped(edgePins, old(edgePins), Grouped(assignments, conns, RectsOf(old(edgePins))))
    {
      var initial, order;
      assignments, initial, order, log := AssignPorts(conns, Rects(), crosses, dist);
      UpdatePinCacheWithAssignments(assignments, conns);
    }

    /** Port distribution for one frame: connections from the initial-state pin (pin index
        `usize::MAX`) are routed separately and take no part; with no other connection nothing
        is assigned and the cache is left alone, otherwise the regular connections get the
        lookahead assignment and the cache is updated with it. */
    method DistributePortsForConnections(conns: seq<Connection>, crosses: CrossesFn, dist: DistFn)
      returns (assignments: Assignments)
      modifies this
      ensures forall k :: k in assignments ==> exists c :: c in conns && c.fromPinIndex != UsizeMax && PairKey(c) == k
      ensures (forall c :: c in conns ==> c.fromPinIndex == UsizeMax) ==> assignments == map[] && edgePins == old(edgePins)
      ensures var regular := Filter(conns, IsRegular);
        |regular| > 0 ==>
          assignments == Lookahead(regular, RectsOf(old(edgePins)), crosses, dist).0 &&
          StoredGrouped(edgePins, old(edgePins), Grouped(assignments, regular, RectsOf(old(edgePins))))
      ensures edgePins.Keys == old(edgePins).Keys
    {
      var regular := Filter(conns, IsRegular);
      if |regular| == 0 {
        return map[];
      }
      assert regular[0] in conns;
      ghost var log;
      assignments, log := AssignPortsWithLookahead(regular, crosses, dist);
      forall k | k in assignments
        ensures exists c :: c in conns && c.fromPinIndex != UsizeMax && PairKey(c) == k
      {
        AssignedPairs(log, k);
        var n :| 0 <= n < |log| && PairKey(log[n].conn) == k;
        assert log[n].conn in regular;
      }
    }
  }

  // ---------------------------------------------------------------------------------------
  // Routing decisions and the arrow head

  /** The parts of an already routed connection the routing decisions look at. */
  datatype RoutedConnection = RoutedConnection(fromEdge: EdgeSide, toEdge: EdgeSide, fromPin: Pos, toPin: Pos)

  /** Existing routes between the same pair of sides that start or end within 50 of this one. */
  function ParallelCount(existing: seq<RoutedConnection>, fromPin: Pos, toPin: Pos, fromEdge: EdgeSide, toEdge: EdgeSide, dist: DistFn): nat
  {
    Count(existing, (r: RoutedConnection) =>
      r.fromEdge == fromEdge && r.toEdge == toEdge && (dist(r.fromPin, fromPin) < 50.0 || dist(r.toPin, toPin) < 50.0))
  }

  /** The shape of a connection. A straight line when the pins are within 20 of each other on
      one axis and the sides are opposite. Otherwise the L-shape test is evaluated but its
      outcome is disabled, and both remaining branches give an S-shape: an L-shape is never
      chosen. */
  function DetermineRoutingStrategy(existing: seq<RoutedConnection>, fromPin: Pos, toPin: Pos,
                                    fromEdge: EdgeSide, toEdge: EdgeSide, dist: DistFn): (shape: ConnectionShape)
    ensures shape != LShape
    ensures shape == Straight <==> (Abs(toPin.y - fromPin.y) < 20.0 || Abs(toPin.x - fromPin.x) < 20.0) && AreOppositeEdges(fromEdge, toEdge)
    ensures shape == SShape <==> !(Abs(toPin.y - fromPin.y) < 20.0 || Abs(toPin.x - fromPin.x) < 20.0) || !AreOppositeEdges(fromEdge, toEdge)
  {
    var dx, dy := toPin.x - fromPin.x, toPin.y - fromPin.y;
    var distance := dist(fromPin, toPin);
    var isHorizontallyAligned := Abs(dy) < 20.0;
    var isVerticallyAligned := Abs(dx) < 20.0;
    var isDirectOpposite := AreOppositeEdges(fromEdge, toEdge);
    if (isHorizontallyAligned || isVerticallyAligned) && isDirectOpposite then Straight
    else
      var lShapeHasGoodSegments := Abs(dx) > 40.0 && Abs(dy) > 40.0;
      var needsSShape := distance < 80.0 || AreSameEdgeSide(fromEdge, toEdge) || !lShapeHasGoodSegments;
      var parallelCount := ParallelCount(existing, fromPin, toPin, fromEdge, toEdge, dist);
      if needsSShape || parallelCount > 1 then SShape else SShape
  }

  /** An existing route between the same pair of sides whose two pins both lie within 100 of
      this connection's. */
  function SimilarRoute(fromPin: Pos, toPin: Pos, fromEdge: EdgeSide, toEdge: EdgeSide, dist: DistFn): RoutedConnection -> bool
  {
    (r: RoutedConnection) =>
      r.fromEdge == fromEdge && r.toEdge == toEdge && dist(r.fromPin, fromPin) < 100.0 && dist(r.toPin, toPin) < 100.0
  }

  /** How far the bends of a connection are moved to keep it off parallel ones: 15 per similar
      existing route. */
  function CalculateStaggerOffset(existing: seq<RoutedConnection>, fromPin: Pos, toPin: Pos,
                                  fromEdge: EdgeSide, toEdge: EdgeSide, dist: DistFn): (offset: real)
    ensures 0.0 <= offset <= 15.0 * |existing| as real
    ensures offset == 0.0 <==> forall i :: 0 <= i < |existing| ==> !SimilarRoute(fromPin, toPin, fromEdge, toEdge, dist)(existing[i])
  {
    Count(existing, SimilarRoute(fromPin, toPin, fromEdge, toEdge, dist)) as real * 15.0
  }

  /** Each further route raises the offset by 15 if it is similar and leaves it otherwise, so
      routes drawn later are staggered further out. */
  lemma StaggerOffsetAppend(existing: seq<RoutedConnection>, r: RoutedConnection, fromPin: Pos, toPin: Pos,
                            fromEdge: EdgeSide, toEdge: EdgeSide, dist: DistFn)
    ensures CalculateStaggerOffset(existing + [r], fromPin, toPin, fromEdge, toEdge, dist)
      == CalculateStaggerOffset(existing, fromPin, toPin, fromEdge, toEdge, dist)
         + (if SimilarRoute(fromPin, toPin, fromEdge, toEdge, dist)(r) then 15.0 else 0.0)
  {
    CountAppend(existing, [r], SimilarRoute(fromPin, toPin, fromEdge, toEdge, dist));
  }

  /** The arrow head's size. */
  const ArrowSize: real := 8.0

  /** The unit vector pointing out of a node through `side`. */
  function OutwardNormal(side: EdgeSide): Vec2
  {
    match side
    case Top => Vec2(0.0, -1.0)
    case Right => Vec2(1.0, 0.0)
    case Bottom => Vec2(0.0, 1.0)
    case Left => Vec2(-1.0, 0.0)
  }

  /** The triangle drawn where a connection enters its target through `side`: its tip is the
      target pin, and its base is centred 8 outside the side, 8 long and parallel to the
      side, so the arrow points into the node. */
  function ArrowHead(toPin: Pos, side: EdgeSide): (pts: seq<Pos>)
    ensures |pts| == 3 && pts[0] == toPin
    ensures Pos((pts[1].x + pts[2].x) / 2.0, (pts[1].y + pts[2].y) / 2.0) == Add(toPin, Scale(OutwardNormal(side), ArrowSize))
    ensures DistSq(pts[1], pts[2]) == ArrowSize * ArrowSize
    ensures var base, n := Diff(pts[2], pts[1]), OutwardNormal(side); base.x * n.x + base.y * n.y == 0.0
  {
    var half := ArrowSize / 2.0;
    var pts := match side
      case Top => [toPin, Pos(toPin.x - half, toPin.y - ArrowSize), Pos(toPin.x + half, toPin.y - ArrowSize)]
      case Right => [toPin, Pos(toPin.x + ArrowSize, toPin.y - half), Pos(toPin.x + ArrowSize, toPin.y + half)]
      case Bottom => [toPin, Pos(toPin.x - half, toPin.y + ArrowSize), Pos(toPin.x + half, toPin.y + ArrowSize)]
      case Left => [toPin, Pos(toPin.x - ArrowSize, toPin.y - half), Pos(toPin.x - ArrowSize, toPin.y + half)];
    AxisDistSq(pts[1], pts[2], ArrowSize);
    pts
  }

  /** When the pin is on the side of the target's rect, the base of the arrow lies strictly
      outside the rect on that side. */
  lemma ArrowBaseOutsideNode(r: Rect, toPin: Pos, side: EdgeSide)
    requires OnSide(toPin, r, side)
    ensures var pts := ArrowHead(toPin, side);
      match side
      case Top => pts[1].y < r.min.y && pts[2].y < r.min.y
      case Right => pts[1].x > r.max.x && pts[2].x > r.max.x
      case Bottom => pts[1].y > r.max.y && pts[2].y > r.max.y
      case Left => pts[1].x < r.min.x && pts[2].x < r.min.x
  {
  }
}
