/**
 Shared value types of the floor-plan reconstruction engine: the wall
 segments and bounding rectangles that the vision front-end hands over, the
 scene items the normaliser produces, and small numeric helpers standing for
 `Math.abs`, `Math.min` and `Math.max`.
 */
module Geometry {

  datatype Option<+T> = None | Some(value: T)

  /** A detected line segment in image pixels (HoughLinesP yields integers).
      `length` is the Euclidean length computed with `Math.sqrt`; the engine
      never inspects it and only carries it along. */
  datatype Wall = Wall(x1: int, y1: int, x2: int, y2: int, length: real)

  /** An axis-aligned bounding rectangle: top-left corner, width and height. */
  datatype Rect = Rect(x: int, y: int, width: int, height: int)

  /** The fields of an item that the normaliser leaves untouched (`...rest`). */
  datatype Extra = Length(length: real) | Box(rect: Rect)

  /** An item with two endpoint-style corners in real coordinates. */
  datatype Item = Item(x1: real, y1: real, x2: real, y2: real, extra: Extra)

  datatype Point = Point(x: real, y: real)

  datatype Size = Size(width: real, height: real)

  /** An axis-aligned box given by its extreme coordinates. */
  datatype Bounds = Bounds(minX: real, minY: real, maxX: real, maxY: real)

  function Abs(n: int): (r: nat)
    ensures r == n || r == -n
  {
    if n < 0 then -n else n
  }

  /** `Math.abs(a - b) < tol`, written as the two linear bounds it means. */
  predicate Close(a: int, b: int, tol: int)
  {
    -tol < a - b < tol
  }

  /** The linear form agrees with the absolute-value test. */
  lemma CloseIsAbsBelow(a: int, b: int, tol: int)
    ensures Close(a, b, tol) <==> Abs(a - b) < tol
  {
  }

  function Min(a: real, b: real): (r: real)
    ensures r <= a && r <= b && (r == a || r == b)
  {
    if a <= b then a else b
  }

  function Max(a: real, b: real): (r: real)
    ensures r >= a && r >= b && (r == a || r == b)
  {
    if a >= b then a else b
  }

  /** A wall as the normaliser sees it: its endpoints, with its length as the rest. */
  function WallItem(w: Wall): Item
  {
    Item(w.x1 as real, w.y1 as real, w.x2 as real, w.y2 as real, Length(w.length))
  }

  /** A door or window in corner form: top-left and bottom-right corners,
      with the rectangle itself as the rest. */
  function OpeningItem(r: Rect): Item
  {
    Item(r.x as real, r.y as real, (r.x + r.width) as real, (r.y + r.height) as real, Box(r))
  }

  function WallItems(ws: seq<Wall>): (r: seq<Item>)
    ensures |r| == |ws| && forall k :: 0 <= k < |ws| ==> r[k] == WallItem(ws[k])
  {
    seq(|ws|, k requires 0 <= k < |ws| => WallItem(ws[k]))
  }

  function OpeningItems(rs: seq<Rect>): (r: seq<Item>)
    ensures |r| == |rs| && forall k :: 0 <= k < |rs| ==> r[k] == OpeningItem(rs[k])
  {
    seq(|rs|, k requires 0 <= k < |rs| => OpeningItem(rs[k]))
  }

  /** Every corner coordinate of every item lies inside `b`. */
  predicate Encloses(b: Bounds, items: seq<Item>)
  {
    forall it :: it in items ==>
      b.minX <= it.x1 <= b.maxX && b.minX <= it.x2 <= b.maxX &&
      b.minY <= it.y1 <= b.maxY && b.minY <= it.y2 <= b.maxY
  }

  /** Each of the four extremes of `b` is a coordinate of some item. */
  predicate Attained(b: Bounds, items: seq<Item>)
  {
    (exists it :: it in items && (it.x1 == b.minX || it.x2 == b.minX)) &&
    (exists it :: it in items && (it.y1 == b.minY || it.y2 == b.minY)) &&
    (exists it :: it in items && (it.x1 == b.maxX || it.x2 == b.maxX)) &&
    (exists it :: it in items && (it.y1 == b.maxY || it.y2 == b.maxY))
  }

  /** A box that encloses the items and whose extremes are attained is unique:
      it is the tight bounding box. */
  lemma TightBoundsUnique(b1: Bounds, b2: Bounds, items: seq<Item>)
    requires Encloses(b1, items) && Attained(b1, items)
    requires Encloses(b2, items) && Attained(b2, items)
    ensures b1 == b2
  {
  }
}
