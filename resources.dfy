/** Editor resources: the four side pins of a node, the pin choice for a connection, and the
    timers that flash a connection when its transition fires. */
module Resources {
  import opened Geometry
  import opened Seqs

  /** One attachment point in the middle of each side of a node. */
  datatype EdgePins = EdgePins(top: Pos, right: Pos, bottom: Pos, left: Pos)

  datatype ManhattanRoute = HorizontalFirst | VerticalFirst

  /** The pins in the order the searches visit them: top, right, bottom, left. */
  function AllPins(e: EdgePins): seq<Pos>
  {
    [e.top, e.right, e.bottom, e.left]
  }

  /** Places each pin halfway along its side of `r`: on the side, and as far from one end of
      the side as from the other. */
  function FromRect(r: Rect): (e: EdgePins)
    ensures e.top.y == r.min.y && e.bottom.y == r.max.y && e.left.x == r.min.x && e.right.x == r.max.x
    ensures DistSq(e.top, r.min) == DistSq(e.top, Pos(r.max.x, r.min.y))
    ensures DistSq(e.bottom, Pos(r.min.x, r.max.y)) == DistSq(e.bottom, r.max)
    ensures DistSq(e.left, r.min) == DistSq(e.left, Pos(r.min.x, r.max.y))
    ensures DistSq(e.right, Pos(r.max.x, r.min.y)) == DistSq(e.right, r.max)
  {
    var c := Center(r);
    EdgePins(Pos(c.x, r.min.y), Pos(r.max.x, c.y), Pos(c.x, r.max.y), Pos(r.min.x, c.y))
  }

  /** The pair of pins, one on each node, at the smallest distance; among equally close pairs
      the first in top/right/bottom/left order wins. Distances are compared squared, which
      orders pairs the same way. */
  method GetClosestPins(from: EdgePins, to: EdgePins) returns (pins: (Pos, Pos), ghost bi: int, ghost bj: int)
    ensures IsFirstMinPair(AllPins(from), AllPins(to), DistSq, bi, bj)
    ensures pins == (AllPins(from)[bi], AllPins(to)[bj])
  {
    var best;
    best, bi, bj := ArgMinPair(AllPins(from), AllPins(to), DistSq);
    pins := best.value;
  }

  /** The point the pins surround: halfway between the left and right pins horizontally and
      between the top and bottom pins vertically. */
  function PinsCenter(e: EdgePins): Pos
  {
    Pos((e.left.x + e.right.x) / 2.0, (e.top.y + e.bottom.y) / 2.0)
  }

  /** The face of the target a connection enters by, from the direction `(dx, dy)` from the
      source centre to the target centre: along the dominant axis, the face turned towards the
      source. A tie between the axes counts as vertical. */
  function ApproachFace(target: EdgePins, dx: real, dy: real): (r: (Pos, ManhattanRoute))
    ensures r.1 == HorizontalFirst <==> Abs(dx) > Abs(dy)
    ensures r.0 in AllPins(target)
    ensures r.1 == HorizontalFirst ==> r.0 == (if dx > 0.0 then target.left else target.right)
    ensures r.1 == VerticalFirst ==> r.0 == (if dy > 0.0 then target.top else target.bottom)
  {
    if Abs(dx) > Abs(dy) then
      if dx > 0.0 then (target.left, HorizontalFirst) else (target.right, HorizontalFirst)
    else
      if dy > 0.0 then (target.top, VerticalFirst) else (target.bottom, VerticalFirst)
  }

  /** For pins laid out on a rectangle, the face `ApproachFace` picks lies on the half of the
      target nearer the source along the dominant axis. */
  lemma ApproachFaceLooksTowardSource(r: Rect, dx: real, dy: real)
    requires r.min.x <= r.max.x && r.min.y <= r.max.y
    ensures var face := ApproachFace(FromRect(r), dx, dy).0; var c := Center(r);
      (Abs(dx) > Abs(dy) && dx > 0.0 ==> face.x <= c.x) &&
      (Abs(dx) > Abs(dy) && dx <= 0.0 ==> face.x >= c.x) &&
      (Abs(dx) <= Abs(dy) && dy > 0.0 ==> face.y <= c.y) &&
      (Abs(dx) <= Abs(dy) && dy <= 0.0 ==> face.y >= c.y)
  {
  }

  /** Chooses the source pin, target pin and routing for a connection. When the centres nearly
      coincide (less than 1 apart on both axes) it falls back to the closest pair with
      horizontal-first routing. Otherwise the source pin is the first of its four pins closest
      to the target centre, and the target pin and routing come from `ApproachFace`. */
  method GetOptimalConnectionPins(source: EdgePins, target: EdgePins) returns (fromPin: Pos, toPin: Pos, route: ManhattanRoute)
    ensures var dx, dy := PinsCenter(target).x - PinsCenter(source).x, PinsCenter(target).y - PinsCenter(source).y;
      if Abs(dx) < 1.0 && Abs(dy) < 1.0 then
        route == HorizontalFirst &&
        exists bi, bj :: IsFirstMinPair(AllPins(source), AllPins(target), DistSq, bi, bj)
          && fromPin == AllPins(source)[bi] && toPin == AllPins(target)[bj]
      else
        (exists b :: IsFirstMin(AllPins(source), p => DistSq(p, PinsCenter(target)), b) && fromPin == AllPins(source)[b])
        && (toPin, route) == ApproachFace(target, dx, dy)
  {
    var sourceCenter := PinsCenter(source);
    var targetCenter := PinsCenter(target);
    var dx := targetCenter.x - sourceCenter.x;
    var dy := targetCenter.y - sourceCenter.y;
    if Abs(dx) < 1.0 && Abs(dy) < 1.0 {
      var pins, bi, bj := GetClosestPins(source, target);
      fromPin, toPin, route := pins.0, pins.1, HorizontalFirst;
      return;
    }
    var best, b := ArgMin(AllPins(source), p => DistSq(p, targetCenter));
    fromPin := best.value;
    toPin, route := ApproachFace(target, dx, dy).0, ApproachFace(target, dx, dy).1;
  }

  /** How long a connection stays highlighted after its transition fires, in seconds. */
  const AnimationDuration: real := 0.25

  /** Per-connection countdown timers, keyed by (source, target). */
  class ConnectionAnimations {
    var activeAnimations: map<(Entity, Entity), real>

    /** Every running timer is still counting: more than zero and at most the full duration. */
    ghost predicate Valid()
      reads this
    {
      forall k :: k in activeAnimations ==> 0.0 < activeAnimations[k] <= AnimationDuration
    }

    constructor()
      ensures activeAnimations == map[] && Valid()
    {
      activeAnimations := map[];
    }

    /** Starts (or restarts) the highlight of a connection with a full timer. */
    method StartAnimation(source: Entity, target: Entity)
      modifies this
      ensures activeAnimations == old(activeAnimations)[(source, target) := AnimationDuration]
      ensures old(Valid()) ==> Valid()
      ensures IsAnimated(source, target)
    {
      activeAnimations := activeAnimations[(source, target) := AnimationDuration];
    }

    /** Advances every timer by `delta`; the timers that reach zero or less are removed and
        reported, each exactly once, and the rest keep their decremented value. */
    method Update(delta: real) returns (completed: seq<(Entity, Entity)>)
      modifies this
      ensures activeAnimations ==
        map k | k in old(activeAnimations) && old(activeAnimations)[k] - delta > 0.0 :: old(activeAnimations)[k] - delta
      ensures forall k :: k in completed <==> k in old(activeAnimations) && old(activeAnimations)[k] - delta <= 0.0
      ensures forall i, j :: 0 <= i < j < |completed| ==> completed[i] != completed[j]
      ensures forall k :: k in completed ==> k !in activeAnimations
      ensures forall k :: k in activeAnimations ==> activeAnimations[k] > 0.0
      ensures delta >= 0.0 && old(Valid()) ==> Valid()
    {
      var before := activeAnimations;
      var kept: map<(Entity, Entity), real> := map[];
      completed := [];
      var todo := before.Keys;
      while todo != {}
        invariant todo <= before.Keys
        invariant kept == map k | k in before && k !in todo && before[k] - delta > 0.0 :: before[k] - delta
        invariant forall k :: k in completed <==> k in before && k !in todo && before[k] - delta <= 0.0
        invariant forall i, j :: 0 <= i < j < |completed| ==> completed[i] != completed[j]
        decreases |todo|
      {
        var k :| k in todo;
        var timer := before[k] - delta;
        if timer <= 0.0 {
          completed := completed + [k];
        } else {
          kept := kept[k := timer];
        }
        todo := todo - {k};
      }
      activeAnimations := kept;
    }

    /** How far the highlight has faded: 0 when just started, approaching 1 at the end. */
    function GetAnimationProgress(source: Entity, target: Entity): (p: Option<real>)
      reads this
      ensures p.Some? <==> IsAnimated(source, target)
      ensures p.Some? ==> p.value == 1.0 - activeAnimations[(source, target)] / AnimationDuration
      ensures Valid() && p.Some? ==> 0.0 <= p.value < 1.0
    {
      if (source, target) in activeAnimations then Some(1.0 - activeAnimations[(source, target)] / AnimationDuration)
      else None
    }

    predicate IsAnimated(source: Entity, target: Entity)
      reads this
    {
      (source, target) in activeAnimations
    }
  }
}
