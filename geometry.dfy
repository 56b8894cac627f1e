/** Points, vectors and axis-aligned rectangles as the editor uses them (egui's Pos2, Vec2
    and Rect), with coordinates as reals. Entities are opaque identifiers. */
module Geometry {

  /** An ECS entity identifier. */
  type Entity = nat

  datatype Option<T> = None | Some(value: T)

  /** The outcome of code that can panic, such as slicing a string with its start past its end. */
  datatype Result<T> = Ok(value: T) | Panic

  datatype Pos = Pos(x: real, y: real)

  datatype Vec2 = Vec2(x: real, y: real)

  /** An axis-aligned rectangle given by its minimum (top-left) and maximum (bottom-right) corners. */
  datatype Rect = Rect(min: Pos, max: Pos)

  const ZeroVec := Vec2(0.0, 0.0)

  function Abs(v: real): real { if v < 0.0 then -v else v }

  function Max(a: real, b: real): real { if a < b then b else a }

  function Min(a: real, b: real): real { if a < b then a else b }

  function Add(p: Pos, v: Vec2): Pos { Pos(p.x + v.x, p.y + v.y) }

  function Sub(p: Pos, v: Vec2): Pos { Pos(p.x - v.x, p.y - v.y) }

  /** The vector from `b` to `a` (egui's `Pos2 - Pos2`). */
  function Diff(a: Pos, b: Pos): Vec2 { Vec2(a.x - b.x, a.y - b.y) }

  function Scale(v: Vec2, k: real): Vec2 { Vec2(v.x * k, v.y * k) }

  function VAdd(a: Vec2, b: Vec2): Vec2 { Vec2(a.x + b.x, a.y + b.y) }

  function Neg(v: Vec2): Vec2 { Vec2(-v.x, -v.y) }

  /** Squared Euclidean distance; orders pairs of points the same way as the distance does. */
  function DistSq(a: Pos, b: Pos): real
  {
    (a.x - b.x) * (a.x - b.x) + (a.y - b.y) * (a.y - b.y)
  }

  /** Two points `len` apart along one axis are `len` apart. */
  lemma AxisDistSq(a: Pos, b: Pos, len: real)
    requires (b.x - a.x == len && a.y == b.y) || (a.x == b.x && b.y - a.y == len)
    ensures DistSq(a, b) == len * len
  {
    if a.y == b.y {
      assert a.x - b.x == -len;
    } else {
      assert a.y - b.y == -len;
    }
  }

  function FromMinSize(min: Pos, size: Vec2): Rect { Rect(min, Pos(min.x + size.x, min.y + size.y)) }

  function Width(r: Rect): real { r.max.x - r.min.x }

  function Height(r: Rect): real { r.max.y - r.min.y }

  function Center(r: Rect): Pos { Pos((r.min.x + r.max.x) / 2.0, (r.min.y + r.max.y) / 2.0) }

  /** The point halfway between the centres of two rectangles. */
  function Midpoint(a: Rect, b: Rect): Pos
  {
    Pos((Center(a).x + Center(b).x) / 2.0, (Center(a).y + Center(b).y) / 2.0)
  }
}
