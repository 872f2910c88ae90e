/**
 The placement arithmetic of the 3D scene builder that consumes a plan: the
 bounding box of the walls (`getBoundingBox`, per coordinate a `Math.min` or
 `Math.max` over a spread), the floor plane's size (`createFloor`) and the
 midpoint at which each wall is placed (`addRectangle`). Scene objects,
 textures and angles are not modelled.
 */
module SceneLayout {
  import opened Geometry
  import opened PlanNormalizer

  /** `Math.min(...s)` for a non-empty spread. */
  function SeqMin(s: seq<real>): (m: real)
    requires |s| > 0
    ensures m in s && forall k :: 0 <= k < |s| ==> m <= s[k]
  {
    if |s| == 1 then s[0] else Min(SeqMin(s[..|s| - 1]), s[|s| - 1])
  }

  /** `Math.max(...s)` for a non-empty spread. */
  function SeqMax(s: seq<real>): (m: real)
    requires |s| > 0
    ensures m in s && forall k :: 0 <= k < |s| ==> s[k] <= m
  {
    if |s| == 1 then s[0] else Max(SeqMax(s[..|s| - 1]), s[|s| - 1])
  }

  function LowX(walls: seq<Item>): (r: seq<real>)
    ensures |r| == |walls| && forall k :: 0 <= k < |walls| ==> r[k] == Min(walls[k].x1, walls[k].x2)
  {
    seq(|walls|, k requires 0 <= k < |walls| => Min(walls[k].x1, walls[k].x2))
  }

  function HighX(walls: seq<Item>): (r: seq<real>)
    ensures |r| == |walls| && forall k :: 0 <= k < |walls| ==> r[k] == Max(walls[k].x1, walls[k].x2)
  {
    seq(|walls|, k requires 0 <= k < |walls| => Max(walls[k].x1, walls[k].x2))
  }

  function LowY(walls: seq<Item>): (r: seq<real>)
    ensures |r| == |walls| && forall k :: 0 <= k < |walls| ==> r[k] == Min(walls[k].y1, walls[k].y2)
  {
    seq(|walls|, k requires 0 <= k < |walls| => Min(walls[k].y1, walls[k].y2))
  }

  function HighY(walls: seq<Item>): (r: seq<real>)
    ensures |r| == |walls| && forall k :: 0 <= k < |walls| ==> r[k] == Max(walls[k].y1, walls[k].y2)
  {
    seq(|walls|, k requires 0 <= k < |walls| => Max(walls[k].y1, walls[k].y2))
  }

  /** The bounding box of the walls' endpoints; None for no walls, where
      the empty spreads give plus and minus infinity in the source. Each
      extreme bounds every wall's endpoints and is an endpoint of some wall. */
  function GetBoundingBox(walls: seq<Item>): (b: Option<Bounds>)
    ensures b.None? <==> walls == []
    ensures b.Some? ==> Encloses(b.value, walls) && Attained(b.value, walls)
  {
    if walls == [] then None
    else
      var b := Bounds(SeqMin(LowX(walls)), SeqMin(LowY(walls)), SeqMax(HighX(walls)), SeqMax(HighY(walls)));
      BoundingBoxTight(walls, b);
      Some(b)
  }

  lemma BoundingBoxTight(walls: seq<Item>, b: Bounds)
    requires walls != []
    requires b == Bounds(SeqMin(LowX(walls)), SeqMin(LowY(walls)), SeqMax(HighX(walls)), SeqMax(HighY(walls)))
    ensures Encloses(b, walls) && Attained(b, walls)
  {
    forall it | it in walls
      ensures b.minX <= it.x1 <= b.maxX && b.minX <= it.x2 <= b.maxX
      ensures b.minY <= it.y1 <= b.maxY && b.minY <= it.y2 <= b.maxY
    {
      var k :| 0 <= k < |walls| && walls[k] == it;
      assert LowX(walls)[k] <= it.x1 && HighX(walls)[k] >= it.x1;
    }
    var k1 :| 0 <= k1 < |walls| && LowX(walls)[k1] == b.minX;
    var k2 :| 0 <= k2 < |walls| && LowY(walls)[k2] == b.minY;
    var k3 :| 0 <= k3 < |walls| && HighX(walls)[k3] == b.maxX;
    var k4 :| 0 <= k4 < |walls| && HighY(walls)[k4] == b.maxY;
    assert walls[k1] in walls && walls[k2] in walls && walls[k3] in walls && walls[k4] in walls;
  }

  /** The size of the floor plane laid over a box. */
  function FloorOf(b: Bounds): Size
  {
    Size(b.maxX - b.minX, b.maxY - b.minY)
  }

  /** `createFloor`: the floor plane spans the walls' bounding box, so its
      width and height are non-negative. */
  function FloorSize(walls: seq<Item>): (s: Option<Size>)
    ensures s.Some? <==> walls != []
    ensures s.Some? ==> s.value.width >= 0.0 && s.value.height >= 0.0
  {
    match GetBoundingBox(walls)
    case None => None
    case Some(b) =>
      assert walls[0] in walls;
      Some(FloorOf(b))
  }

  /** The point at which `addRectangle` places a wall: it lies within the
      wall's own x and y ranges. */
  function Midpoint(w: Item): (p: Point)
    ensures Min(w.x1, w.x2) <= p.x <= Max(w.x1, w.x2)
    ensures Min(w.y1, w.y2) <= p.y <= Max(w.y1, w.y2)
  {
    Point((w.x1 + w.x2) / 2.0, (w.y1 + w.y2) / 2.0)
  }

  /** Every wall's midpoint lies inside the walls' bounding box. */
  lemma MidpointInBox(walls: seq<Item>, w: Item)
    requires w in walls
    ensures GetBoundingBox(walls).Some?
    ensures var b := GetBoundingBox(walls).value;
      b.minX <= Midpoint(w).x <= b.maxX && b.minY <= Midpoint(w).y <= b.maxY
  {
    var p := Midpoint(w);
  }

  /** The scene builder's multi-pass box and the normaliser's one-pass
      accumulation compute the same box. */
  lemma BoundingBoxAgrees(walls: seq<Item>)
    ensures GetBoundingBox(walls) == BoundsOf(walls)
  {
    if walls != [] {
      BoundsOfTight(walls);
      TightBoundsUnique(GetBoundingBox(walls).value, BoundsOf(walls).value, walls);
    }
  }

  /** Walls that fill a box exactly have that box as their bounding box. */
  lemma BoundingBoxOfTight(walls: seq<Item>, box: Bounds)
    requires walls != [] && Encloses(box, walls) && Attained(box, walls)
    ensures GetBoundingBox(walls) == Some(box)
  {
    TightBoundsUnique(GetBoundingBox(walls).value, box, walls);
  }

  /** A plan of walls alone holds just its walls. */
  lemma WallsOnlyPlan(walls: seq<Item>)
    requires walls != []
    ensures Normalize(walls, [], []).Some?
    ensures var p := Normalize(walls, [], []).value; PlanItems(p) == p.walls && p.walls != []
  {
    assert walls + [] + [] == walls;
    var p := Normalize(walls, [], []).value;
    assert p.doors == [] && p.windows == [];
    assert |p.walls| == |walls|;
  }

  /** For a plan without doors and windows the walls' bounding box is the box
      of the plan's dimensions centred on the origin. */
  lemma CentredWallsBox(walls: seq<Item>)
    requires walls != []
    ensures Normalize(walls, [], []).Some?
    ensures var p := Normalize(walls, [], []).value;
      GetBoundingBox(p.walls) == Some(HalfBox(p.dimensions))
  {
    WallsOnlyPlan(walls);
    NormalizeCentred(walls, [], []);
    var p := Normalize(walls, [], []).value;
    BoundingBoxOfTight(p.walls, HalfBox(p.dimensions));
  }

  /** Walls whose box is centred on the origin give a floor of that box's size. */
  lemma FloorOfCentredBox(walls: seq<Item>, d: Size)
    requires GetBoundingBox(walls) == Some(HalfBox(d))
    ensures FloorSize(walls) == Some(d)
  {
    assert FloorOf(HalfBox(d)) == d;
  }

  /** For a plan without doors and windows the walls' bounding box is
      symmetric about the origin and the floor has exactly the plan's
      dimensions. */
  lemma CentredFloorMatchesPlan(walls: seq<Item>)
    requires walls != []
    ensures Normalize(walls, [], []).Some?
    ensures var p := Normalize(walls, [], []).value;
      var b := GetBoundingBox(p.walls);
      b.Some? &&
      b.value.minX == -b.value.maxX && b.value.minY == -b.value.maxY &&
      FloorSize(p.walls) == Some(p.dimensions)
  {
    CentredWallsBox(walls);
    var p := Normalize(walls, [], []).value;
    FloorOfCentredBox(p.walls, p.dimensions);
  }
}
