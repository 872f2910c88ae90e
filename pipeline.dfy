/**
 The reconstruction pipeline around the three components: the
 `floorPlanData` record that the detection steps fill in place, the
 contour loop of `detectContours` that pushes classified rectangles onto it,
 and `processFloorPlanData`, which overwrites its walls with the resolved
 ones and returns the normalised plan.
 */
module Pipeline {
  import opened Geometry
  import opened WallResolver
  import opened OpeningClassifier
  import opened PlanNormalizer

  /** What `processFloorPlanData` returns for the given detections. Doors and
      windows enter the normaliser in corner form. */
  function ProcessFloorPlan(walls: seq<Wall>, doors: seq<Rect>, windows: seq<Rect>): Option<FloorPlan>
  {
    Normalize(WallItems(Resolve(walls)), OpeningItems(doors), OpeningItems(windows))
  }

  /** A plan exists exactly when something was detected. */
  lemma ProcessPlanExists(walls: seq<Wall>, doors: seq<Rect>, windows: seq<Rect>)
    ensures ProcessFloorPlan(walls, doors, windows).Some? <==> walls != [] || doors != [] || windows != []
  {
    var ws := WallItems(Resolve(walls));
    ResolveNonEmpty(walls);
    assert ws + OpeningItems(doors) + OpeningItems(windows) == [] <==>
           ws == [] && doors == [] && windows == [];
  }

  /** End to end, the plan holds no more walls than were detected, each the
      image of one detected wall taken whole, never a blend of several. */
  lemma ProcessSelectsWalls(walls: seq<Wall>, doors: seq<Rect>, windows: seq<Rect>)
    requires ProcessFloorPlan(walls, doors, windows).Some?
    ensures var p := ProcessFloorPlan(walls, doors, windows).value;
      |p.walls| <= |walls| &&
      forall k :: 0 <= k < |p.walls| ==> Restore(p.walls[k], p.center) in WallItems(walls)
  {
    var kept := Resolve(walls);
    var ws := WallItems(kept);
    var ds := OpeningItems(doors);
    var ns := OpeningItems(windows);
    assert ws + ds + ns != [];
    ResolveSelects(walls);
    NormalizeShape(ws, ds, ns);
    var p := ProcessFloorPlan(walls, doors, windows).value;
    assert p == Normalize(ws, ds, ns).value;
    forall k | 0 <= k < |p.walls|
      ensures Restore(p.walls[k], p.center) in WallItems(walls)
    {
      assert kept[k] in kept;
      var j :| 0 <= j < |walls| && walls[j] == kept[k];
      assert Restore(p.walls[k], p.center) == ws[k] == WallItems(walls)[j];
    }
  }

  /** End to end, the plan holds one item per detected door and per detected
      window, in order, each the image of that opening's corners, with the
      rectangle itself carried along. */
  lemma ProcessKeepsOpenings(walls: seq<Wall>, doors: seq<Rect>, windows: seq<Rect>)
    requires ProcessFloorPlan(walls, doors, windows).Some?
    ensures var p := ProcessFloorPlan(walls, doors, windows).value;
      |p.doors| == |doors| && |p.windows| == |windows| &&
      (forall k :: 0 <= k < |doors| ==> Restore(p.doors[k], p.center) == OpeningItem(doors[k])) &&
      (forall k :: 0 <= k < |windows| ==> Restore(p.windows[k], p.center) == OpeningItem(windows[k]))
  {
    NormalizeShape(WallItems(Resolve(walls)), OpeningItems(doors), OpeningItems(windows));
  }

  /** The detections of one image, filled in by the detection steps. */
  class FloorPlanData {
    var walls: seq<Wall>
    var doors: seq<Rect>
    var windows: seq<Rect>

    /** The record as it stands after `detectWalls` has pushed the detected
        segments and before any rectangle is classified. */
    constructor (lines: seq<Wall>)
      ensures walls == lines && doors == [] && windows == []
    {
      walls := lines;
      doors := [];
      windows := [];
    }

    /** The classification loop of `detectContours` over the contours'
        bounding rectangles: windows first, then doors, the rest dropped. */
    method DetectContours(rects: seq<Rect>)
      modifies this
      ensures walls == old(walls)
      ensures windows == old(windows) + Windows(rects)
      ensures doors == old(doors) + Doors(rects)
    {
      var i := 0;
      while i < |rects|
        invariant 0 <= i <= |rects|
        invariant walls == old(walls)
        invariant windows == old(windows) + Windows(rects[..i])
        invariant doors == old(doors) + Doors(rects[..i])
      {
        assert rects[..i + 1][..i] == rects[..i];
        var rect := rects[i];
        if 30 < rect.width < 100 && 10 < rect.height < 50 {
          windows := windows + [rect];
        } else if 50 < rect.width < 200 && 10 < rect.height < 80 {
          doors := doors + [rect];
        }
        i := i + 1;
      }
      assert rects[..i] == rects;
    }

    /** `processFloorPlanData`: replaces the walls by the resolved ones, then
        centres the plan. */
    method ProcessFloorPlanData() returns (plan: Option<FloorPlan>)
      modifies this`walls
      ensures walls == Resolve(old(walls))
      ensures plan == ProcessFloorPlan(old(walls), doors, windows)
    {
      walls := FilterInnerEdges(walls);
      plan := CenterFloorPlan(WallItems(walls), OpeningItems(doors), OpeningItems(windows));
    }
  }
}
