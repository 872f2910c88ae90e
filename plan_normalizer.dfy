/**
 The plan normaliser (`centerFloorPlan`). It takes the bounding box of every
 corner of every wall, door and window, moves its midpoint to the origin,
 scales by 4 and flips the y axis (image rows grow downward, the scene's y
 grows upward). Every field besides the corners is carried through
 untouched. Coordinates are exact rationals.

 `BoundsOf` and `Normalize` are the specification; `CenterFloorPlan` is the
 program (a loop accumulating the bounds, then a map), proved equal to it.
 */
module PlanNormalizer {
  import opened Geometry

  const Scale: real := 4.0

  datatype FloorPlan = FloorPlan(
    walls: seq<Item>,
    doors: seq<Item>,
    windows: seq<Item>,
    center: Point,      // in image units
    dimensions: Size)   // in scene units

  /** `updateBounds` for one item. None is the box before any item, whose
      extremes the source keeps at plus and minus infinity. */
  function UpdateBounds(acc: Option<Bounds>, it: Item): Bounds
  {
    match acc
    case None =>
      Bounds(Min(it.x1, it.x2), Min(it.y1, it.y2), Max(it.x1, it.x2), Max(it.y1, it.y2))
    case Some(b) =>
      Bounds(Min(b.minX, Min(it.x1, it.x2)), Min(b.minY, Min(it.y1, it.y2)),
             Max(b.maxX, Max(it.x1, it.x2)), Max(b.maxY, Max(it.y1, it.y2)))
  }

  /** The bounds after `updateBounds` has seen every item in turn; None for
      no items. */
  function BoundsOf(items: seq<Item>): (b: Option<Bounds>)
    ensures b.None? <==> items == []
    decreases |items|
  {
    if items == [] then None
    else Some(UpdateBounds(BoundsOf(items[..|items| - 1]), items[|items| - 1]))
  }

  /** The accumulated bounds are the tight bounding box: every corner lies
      inside, and each extreme is a corner of some item. */
  lemma {:induction false} BoundsOfTight(items: seq<Item>)
    requires items != []
    ensures Encloses(BoundsOf(items).value, items) && Attained(BoundsOf(items).value, items)
    decreases |items|
  {
    var front := items[..|items| - 1];
    var last := items[|items| - 1];
    assert items == front + [last];
    if front == [] {
      FirstBoundsTight(last);
    } else {
      BoundsOfTight(front);
      UpdateBoundsTight(front, last, BoundsOf(front).value);
    }
  }

  /** The box of a single item is tight. */
  lemma FirstBoundsTight(it: Item)
    ensures Encloses(UpdateBounds(None, it), [it]) && Attained(UpdateBounds(None, it), [it])
  {
    assert it in [it];
  }

  /** Extending a tight box by one item gives the tight box of the longer list. */
  lemma UpdateBoundsTight(front: seq<Item>, last: Item, f: Bounds)
    requires Encloses(f, front) && Attained(f, front)
    ensures Encloses(UpdateBounds(Some(f), last), front + [last])
    ensures Attained(UpdateBounds(Some(f), last), front + [last])
  {
    var items := front + [last];
    var b := UpdateBounds(Some(f), last);
    assert last in items;
    forall it | it in items
      ensures b.minX <= it.x1 <= b.maxX && b.minX <= it.x2 <= b.maxX
      ensures b.minY <= it.y1 <= b.maxY && b.minY <= it.y2 <= b.maxY
    {
      if it != last {
        assert it in front;
      }
    }
    var i1 :| i1 in front && (i1.x1 == f.minX || i1.x2 == f.minX);
    var i2 :| i2 in front && (i2.y1 == f.minY || i2.y2 == f.minY);
    var i3 :| i3 in front && (i3.x1 == f.maxX || i3.x2 == f.maxX);
    var i4 :| i4 in front && (i4.y1 == f.maxY || i4.y2 == f.maxY);
    assert i1 in items && i2 in items && i3 in items && i4 in items;
  }

  /** `transformItem`: centre, scale, flip y; keep the rest. */
  function Transform(it: Item, c: Point): Item
  {
    Item((it.x1 - c.x) * Scale, -(it.y1 - c.y) * Scale,
         (it.x2 - c.x) * Scale, -(it.y2 - c.y) * Scale, it.extra)
  }

  /** The inverse of `Transform`: back from scene to image coordinates. */
  function Restore(it: Item, c: Point): Item
  {
    Item(it.x1 / Scale + c.x, c.y - it.y1 / Scale,
         it.x2 / Scale + c.x, c.y - it.y2 / Scale, it.extra)
  }

  lemma RestoreTransform(it: Item, c: Point)
    ensures Restore(Transform(it, c), c) == it
  {
  }

  function TransformAll(items: seq<Item>, c: Point): (r: seq<Item>)
    ensures |r| == |items| && forall k :: 0 <= k < |items| ==> r[k] == Transform(items[k], c)
  {
    seq(|items|, k requires 0 <= k < |items| => Transform(items[k], c))
  }

  lemma TransformAllAppend(a: seq<Item>, b: seq<Item>, c: Point)
    ensures TransformAll(a + b, c) == TransformAll(a, c) + TransformAll(b, c)
  {
  }

  function CenterOf(b: Bounds): Point
  {
    Point((b.minX + b.maxX) / 2.0, (b.minY + b.maxY) / 2.0)
  }

  function DimensionsOf(b: Bounds): Size
  {
    Size((b.maxX - b.minX) * Scale, (b.maxY - b.minY) * Scale)
  }

  /** The plan for the given items; None when there are no items at all
      (the source then produces infinite and NaN values). */
  function Normalize(walls: seq<Item>, doors: seq<Item>, windows: seq<Item>): (r: Option<FloorPlan>)
    ensures r.None? <==> walls + doors + windows == []
  {
    match BoundsOf(walls + doors + windows)
    case None => None
    case Some(b) =>
      var c := CenterOf(b);
      Some(FloorPlan(TransformAll(walls, c), TransformAll(doors, c), TransformAll(windows, c),
                     c, DimensionsOf(b)))
  }

  method CenterFloorPlan(walls: seq<Item>, doors: seq<Item>, windows: seq<Item>)
    returns (plan: Option<FloorPlan>)
    ensures plan == Normalize(walls, doors, windows)
  {
    var all := walls + doors + windows;
    var bounds: Option<Bounds> := None;
    var k := 0;
    while k < |all|
      invariant 0 <= k <= |all|
      invariant bounds == BoundsOf(all[..k])
    {
      assert all[..k + 1][..k] == all[..k];
      bounds := Some(UpdateBounds(bounds, all[k]));
      k := k + 1;
    }
    assert all[..k] == all;
    match bounds
    case None =>
      plan := None;
    case Some(b) =>
      var center := CenterOf(b);
      plan := Some(FloorPlan(TransformAll(walls, center), TransformAll(doors, center),
                             TransformAll(windows, center), center, DimensionsOf(b)));
  }

  // Properties of the normaliser

  /** Within the image box each transformed corner lies within half the
      plan's dimensions of the origin, and the box's sides map to the ends. */
  lemma TransformCentred(b: Bounds, it: Item)
    requires b.minX <= it.x1 <= b.maxX && b.minX <= it.x2 <= b.maxX
    requires b.minY <= it.y1 <= b.maxY && b.minY <= it.y2 <= b.maxY
    ensures Encloses(HalfBox(DimensionsOf(b)), [Transform(it, CenterOf(b))])
    ensures it.x1 == b.minX ==> Transform(it, CenterOf(b)).x1 == -DimensionsOf(b).width / 2.0
    ensures it.x2 == b.minX ==> Transform(it, CenterOf(b)).x2 == -DimensionsOf(b).width / 2.0
    ensures it.x1 == b.maxX ==> Transform(it, CenterOf(b)).x1 == DimensionsOf(b).width / 2.0
    ensures it.x2 == b.maxX ==> Transform(it, CenterOf(b)).x2 == DimensionsOf(b).width / 2.0
    ensures it.y1 == b.maxY ==> Transform(it, CenterOf(b)).y1 == -DimensionsOf(b).height / 2.0
    ensures it.y2 == b.maxY ==> Transform(it, CenterOf(b)).y2 == -DimensionsOf(b).height / 2.0
    ensures it.y1 == b.minY ==> Transform(it, CenterOf(b)).y1 == DimensionsOf(b).height / 2.0
    ensures it.y2 == b.minY ==> Transform(it, CenterOf(b)).y2 == DimensionsOf(b).height / 2.0
  {
    var o := Transform(it, CenterOf(b));
    forall t | t in [o]
      ensures HalfBox(DimensionsOf(b)).minX <= t.x1 <= HalfBox(DimensionsOf(b)).maxX
    {
    }
  }

  /** The box of the given size centred on the origin. */
  function HalfBox(d: Size): Bounds
  {
    Bounds(-d.width / 2.0, -d.height / 2.0, d.width / 2.0, d.height / 2.0)
  }

  /** All items of a plan, in the order the source collects them. */
  function PlanItems(p: FloorPlan): seq<Item>
  {
    p.walls + p.doors + p.windows
  }

  /** Transforming items enclosed by `b` gives items enclosed by the box of
      `b`'s scaled size centred on the origin. */
  lemma TransformAllEnclosed(items: seq<Item>, b: Bounds)
    requires Encloses(b, items)
    ensures Encloses(HalfBox(DimensionsOf(b)), TransformAll(items, CenterOf(b)))
  {
    var c := CenterOf(b);
    var out := TransformAll(items, c);
    var box := HalfBox(DimensionsOf(b));
    forall o | o in out
      ensures box.minX <= o.x1 <= box.maxX && box.minX <= o.x2 <= box.maxX
      ensures box.minY <= o.y1 <= box.maxY && box.minY <= o.y2 <= box.maxY
    {
      var k :| 0 <= k < |out| && out[k] == o;
      assert items[k] in items;
      TransformCentred(b, items[k]);
      assert o in [Transform(items[k], c)];
    }
  }

  /** The image of an item that reaches an extreme of `b` reaches the
      corresponding end of the centred box (the y axis flipped). */
  lemma TransformedExtreme(items: seq<Item>, b: Bounds, it: Item)
    requires Encloses(b, items) && it in items
    ensures var o := Transform(it, CenterOf(b)); var box := HalfBox(DimensionsOf(b));
      o in TransformAll(items, CenterOf(b)) &&
      ((it.x1 == b.minX || it.x2 == b.minX) ==> (o.x1 == box.minX || o.x2 == box.minX)) &&
      ((it.x1 == b.maxX || it.x2 == b.maxX) ==> (o.x1 == box.maxX || o.x2 == box.maxX)) &&
      ((it.y1 == b.maxY || it.y2 == b.maxY) ==> (o.y1 == box.minY || o.y2 == box.minY)) &&
      ((it.y1 == b.minY || it.y2 == b.minY) ==> (o.y1 == box.maxY || o.y2 == box.maxY))
  {
    var k :| 0 <= k < |items| && items[k] == it;
    assert TransformAll(items, CenterOf(b))[k] == Transform(it, CenterOf(b));
    TransformCentred(b, it);
  }

  /** Transforming items whose tight box is `b` gives items whose tight box
      is the box of `b`'s scaled size centred on the origin. */
  lemma TransformAllCentred(items: seq<Item>, b: Bounds)
    requires Encloses(b, items) && Attained(b, items)
    ensures Encloses(HalfBox(DimensionsOf(b)), TransformAll(items, CenterOf(b)))
    ensures Attained(HalfBox(DimensionsOf(b)), TransformAll(items, CenterOf(b)))
  {
    TransformAllEnclosed(items, b);
    var i1 :| i1 in items && (i1.x1 == b.minX || i1.x2 == b.minX);
    var i2 :| i2 in items && (i2.y1 == b.minY || i2.y2 == b.minY);
    var i3 :| i3 in items && (i3.x1 == b.maxX || i3.x2 == b.maxX);
    var i4 :| i4 in items && (i4.y1 == b.maxY || i4.y2 == b.maxY);
    TransformedExtreme(items, b, i1);
    TransformedExtreme(items, b, i2);
    TransformedExtreme(items, b, i3);
    TransformedExtreme(items, b, i4);
  }

  /** Every transformed item is recovered by `Restore`. */
  lemma RestoreAll(items: seq<Item>, c: Point)
    ensures forall k :: 0 <= k < |items| ==> Restore(TransformAll(items, c)[k], c) == items[k]
  {
    forall k | 0 <= k < |items| ensures Restore(TransformAll(items, c)[k], c) == items[k] {
      RestoreTransform(items[k], c);
    }
  }

  /** A box that is not inverted has non-negative scaled dimensions. */
  lemma DimensionsNonNegative(b: Bounds)
    requires b.minX <= b.maxX && b.minY <= b.maxY
    ensures DimensionsOf(b).width >= 0.0 && DimensionsOf(b).height >= 0.0
  {
  }

  /** Each list keeps its length and order; every item is recovered from
      its image by `Restore` with the stored centre, so only the corners
      change and the rest is carried through; the dimensions are
      non-negative. */
  lemma NormalizeShape(walls: seq<Item>, doors: seq<Item>, windows: seq<Item>)
    requires walls + doors + windows != []
    ensures var r := Normalize(walls, doors, windows);
      r.Some? &&
      |r.value.walls| == |walls| && |r.value.doors| == |doors| && |r.value.windows| == |windows| &&
      (forall k :: 0 <= k < |walls| ==> Restore(r.value.walls[k], r.value.center) == walls[k]) &&
      (forall k :: 0 <= k < |doors| ==> Restore(r.value.doors[k], r.value.center) == doors[k]) &&
      (forall k :: 0 <= k < |windows| ==> Restore(r.value.windows[k], r.value.center) == windows[k]) &&
      r.value.dimensions.width >= 0.0 && r.value.dimensions.height >= 0.0
  {
    var all := walls + doors + windows;
    BoundsOfTight(all);
    var b := BoundsOf(all).value;
    assert all[0] in all;
    DimensionsNonNegative(b);
    var c := CenterOf(b);
    assert Normalize(walls, doors, windows).value ==
      FloorPlan(TransformAll(walls, c), TransformAll(doors, c), TransformAll(windows, c), c, DimensionsOf(b));
    RestoreAll(walls, c);
    RestoreAll(doors, c);
    RestoreAll(windows, c);
  }

  /** For any box that the corners of all items fill exactly, the centre
      is that box's midpoint and the dimensions are its sides times four. */
  lemma NormalizeBox(walls: seq<Item>, doors: seq<Item>, windows: seq<Item>, bb: Bounds)
    requires Encloses(bb, walls + doors + windows) && Attained(bb, walls + doors + windows)
    ensures Normalize(walls, doors, windows).Some?
    ensures var p := Normalize(walls, doors, windows).value;
      p.center == Point((bb.minX + bb.maxX) / 2.0, (bb.minY + bb.maxY) / 2.0) &&
      p.dimensions == Size((bb.maxX - bb.minX) * 4.0, (bb.maxY - bb.minY) * 4.0)
  {
    BoundsOfIsTight(walls + doors + windows, bb);
    NormalizeOfBounds(walls, doors, windows);
    BoxArithmetic(bb);
  }

  /** The centre and the dimensions of a box, written out. */
  lemma BoxArithmetic(b: Bounds)
    ensures CenterOf(b) == Point((b.minX + b.maxX) / 2.0, (b.minY + b.maxY) / 2.0)
    ensures DimensionsOf(b) == Size((b.maxX - b.minX) * 4.0, (b.maxY - b.minY) * 4.0)
  {
  }

  /** Any box that the items fill exactly is their accumulated box. */
  lemma BoundsOfIsTight(items: seq<Item>, bb: Bounds)
    requires Encloses(bb, items) && Attained(bb, items)
    ensures BoundsOf(items) == Some(bb)
  {
    var w :| w in items && (w.x1 == bb.minX || w.x2 == bb.minX);
    BoundsOfTight(items);
    TightBoundsUnique(BoundsOf(items).value, bb, items);
  }

  /** `Normalize` on items whose accumulated box is known. */
  lemma NormalizeOfBounds(walls: seq<Item>, doors: seq<Item>, windows: seq<Item>)
    requires walls + doors + windows != []
    ensures var b := BoundsOf(walls + doors + windows).value;
      Normalize(walls, doors, windows).Some? &&
      Normalize(walls, doors, windows).value.center == CenterOf(b) &&
      Normalize(walls, doors, windows).value.dimensions == DimensionsOf(b)
  {
  }

  /** After normalisation the corners of all items fill exactly the box of
      the plan's dimensions centred on the origin: every transformed
      coordinate lies within half the width (height) of zero, and both
      ends are reached. */
  lemma NormalizeCentred(walls: seq<Item>, doors: seq<Item>, windows: seq<Item>)
    requires walls + doors + windows != []
    ensures Normalize(walls, doors, windows).Some?
    ensures var p := Normalize(walls, doors, windows).value;
      Encloses(HalfBox(p.dimensions), PlanItems(p)) && Attained(HalfBox(p.dimensions), PlanItems(p))
  {
    var all := walls + doors + windows;
    BoundsOfTight(all);
    var b := BoundsOf(all).value;
    var c := CenterOf(b);
    TransformAllAppend(walls, doors, c);
    TransformAllAppend(walls + doors, windows, c);
    TransformAllCentred(all, b);
  }

  /** The normalised square from (0,0) to (100,100): centre (50,50),
      dimensions 400 by 400, corners at plus and minus 200. */
  lemma NormalizeSquare()
    ensures var walls := [Item(0.0, 0.0, 100.0, 0.0, Length(100.0)),
                          Item(100.0, 0.0, 100.0, 100.0, Length(100.0)),
                          Item(100.0, 100.0, 0.0, 100.0, Length(100.0)),
                          Item(0.0, 100.0, 0.0, 0.0, Length(100.0))];
      var r := Normalize(walls, [], []);
      r.Some? && r.value.center == Point(50.0, 50.0) && r.value.dimensions == Size(400.0, 400.0) &&
      r.value.walls[0] == Item(-200.0, 200.0, 200.0, 200.0, Length(100.0)) &&
      r.value.walls[1] == Item(200.0, 200.0, 200.0, -200.0, Length(100.0)) &&
      r.value.walls[2] == Item(200.0, -200.0, -200.0, -200.0, Length(100.0)) &&
      r.value.walls[3] == Item(-200.0, -200.0, -200.0, 200.0, Length(100.0))
  {
    var walls := [Item(0.0, 0.0, 100.0, 0.0, Length(100.0)),
                  Item(100.0, 0.0, 100.0, 100.0, Length(100.0)),
                  Item(100.0, 100.0, 0.0, 100.0, Length(100.0)),
                  Item(0.0, 100.0, 0.0, 0.0, Length(100.0))];
    var all := walls + [] + [];
    assert all == walls;
    assert all[..1] == [walls[0]] && all[..2][..1] == all[..1] && all[..3][..2] == all[..2];
    assert BoundsOf(all[..1]) == Some(Bounds(0.0, 0.0, 100.0, 0.0));
    assert BoundsOf(all[..2]) == Some(Bounds(0.0, 0.0, 100.0, 100.0));
    assert BoundsOf(all[..3]) == Some(Bounds(0.0, 0.0, 100.0, 100.0));
    assert BoundsOf(all) == Some(Bounds(0.0, 0.0, 100.0, 100.0));
  }

  function Shift(it: Item, dx: real, dy: real): Item
  {
    Item(it.x1 + dx, it.y1 + dy, it.x2 + dx, it.y2 + dy, it.extra)
  }

  function ShiftAll(items: seq<Item>, dx: real, dy: real): (r: seq<Item>)
    ensures |r| == |items| && forall k :: 0 <= k < |items| ==> r[k] == Shift(items[k], dx, dy)
  {
    seq(|items|, k requires 0 <= k < |items| => Shift(items[k], dx, dy))
  }

  function ShiftBounds(b: Bounds, dx: real, dy: real): Bounds
  {
    Bounds(b.minX + dx, b.minY + dy, b.maxX + dx, b.maxY + dy)
  }

  lemma ShiftAllAppend(a: seq<Item>, b: seq<Item>, dx: real, dy: real)
    ensures ShiftAll(a + b, dx, dy) == ShiftAll(a, dx, dy) + ShiftAll(b, dx, dy)
  {
  }

  /** One `updateBounds` step commutes with moving the image. */
  lemma UpdateBoundsShift(acc: Option<Bounds>, it: Item, dx: real, dy: real)
    ensures UpdateBounds(if acc.None? then None else Some(ShiftBounds(acc.value, dx, dy)), Shift(it, dx, dy)) ==
            ShiftBounds(UpdateBounds(acc, it), dx, dy)
  {
  }

  /** Accumulating the bounds of moved items gives the moved bounds. */
  lemma {:induction false} BoundsOfShift(items: seq<Item>, dx: real, dy: real)
    ensures BoundsOf(ShiftAll(items, dx, dy)) ==
            if items == [] then None else Some(ShiftBounds(BoundsOf(items).value, dx, dy))
    decreases |items|
  {
    if items != [] {
      var front := items[..|items| - 1];
      var moved := ShiftAll(items, dx, dy);
      assert moved[..|items| - 1] == ShiftAll(front, dx, dy);
      BoundsOfShift(front, dx, dy);
      UpdateBoundsShift(BoundsOf(front), items[|items| - 1], dx, dy);
      assert BoundsOf(moved) == Some(UpdateBounds(BoundsOf(ShiftAll(front, dx, dy)), moved[|items| - 1]));
    }
  }

  lemma ShiftTransform(items: seq<Item>, b: Bounds, dx: real, dy: real)
    ensures TransformAll(ShiftAll(items, dx, dy), CenterOf(ShiftBounds(b, dx, dy))) ==
            TransformAll(items, CenterOf(b))
  {
  }

  /** Moving the whole image moves only the centre: the normalised items
      and the dimensions stay the same. */
  lemma NormalizeShift(walls: seq<Item>, doors: seq<Item>, windows: seq<Item>, dx: real, dy: real)
    requires walls + doors + windows != []
    ensures var p := Normalize(walls, doors, windows);
      var q := Normalize(ShiftAll(walls, dx, dy), ShiftAll(doors, dx, dy), ShiftAll(windows, dx, dy));
      p.Some? && q.Some? &&
      q.value.center == Point(p.value.center.x + dx, p.value.center.y + dy) &&
      q.value.dimensions == p.value.dimensions &&
      q.value.walls == p.value.walls && q.value.doors == p.value.doors && q.value.windows == p.value.windows
  {
    var all := walls + doors + windows;
    ShiftAllAppend(walls, doors, dx, dy);
    ShiftAllAppend(walls + doors, windows, dx, dy);
    BoundsOfShift(all, dx, dy);
    var b := BoundsOf(all).value;
    ShiftTransform(walls, b, dx, dy);
    ShiftTransform(doors, b, dx, dy);
    ShiftTransform(windows, b, dx, dy);
  }
}
