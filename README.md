# Floor-plan reconstruction engine of Planto3D, in Dafny

Planto3D turns a scanned floor plan into a 3D scene. Its reconstruction
engine takes the line segments and bounding rectangles found in the image,
and then:

1. collapses the double edges of each wall into one interior wall
   (`filterInnerEdges`);
2. sorts rectangles into windows and doors by size (the band test in
   `detectContours`);
3. centres, scales and flips the result into scene coordinates
   (`centerFloorPlan`);
4. composes the three (`processFloorPlanData`).

The scene builder is modelled only where it reads the plan back: its wall
bounding box, its floor size and its wall midpoints.

Modules, one per component:

- `Geometry` (geometry.dfy): segments, rectangles and scene items, plus the
  bounding-box predicates `Encloses` and `Attained`.
- `WallResolver` (wall_resolver.dfy): `Resolve` is the specification of the
  one-pass grouping as a function. `FilterInnerEdges` is the program with the
  `used` array and the nested loops, and it is proved equal to `Resolve`.
- `OpeningClassifier` (opening_classifier.dfy): `Classify` and
  `Classified`, with the lemmas on priority, partition and order.
- `PlanNormalizer` (plan_normalizer.dfy): `BoundsOf` and `Normalize` are the
  specification. `CenterFloorPlan` is the bounds-accumulating loop, then the
  map, and it is proved equal to `Normalize`.
- `Pipeline` (pipeline.dfy): the `floorPlanData` object as the class
  `FloorPlanData`. Its `DetectContours` loop pushes onto `windows` and
  `doors`. Its `ProcessFloorPlanData` overwrites `walls` and returns the plan.
- `SceneLayout` (scene_layout.dfy): `getBoundingBox`, the floor size and the
  wall midpoint from threejsProcessing.js.

Wall coordinates are integers, as the line detector returns them. Normalised
coordinates are exact rationals (`real`), because the centre can be a
half-integer. A wall's `length` is computed with a square root in the source.
Here it is an opaque field that the normaliser carries through unchanged.

Where the model departs from the code:

- In the source, `centerFloorPlan` reads `x1, y1, x2, y2` from doors and
  windows. But those are stored as `{x, y, width, height}`, so in JavaScript
  every bound, the centre and every coordinate become NaN as soon as a door
  or window exists. The model gives each opening the corner form
  `(x, y)-(x+width, y+height)` and keeps the rectangle as the carried-through
  rest (`OpeningItem`).
- With no items at all, the source leaves the bounds at plus and minus
  infinity. `Normalize` returns `None` there instead.
- An empty `getBoundingBox` spread gives plus and minus infinity in the
  source. `GetBoundingBox` returns `None` there instead.

## Model

| member | source | states |
|---|---|---|
| WallResolver.Resolve | opencvProcessing.js:186-248 | the walls `filterInnerEdges` returns, as a function: one pass over the leaders, one kept segment per group |
| WallResolver.FilterInnerEdges | opencvProcessing.js:186-248 | the loop with the `used` array returns exactly `Resolve(walls)` |
| WallResolver.IsHorizontal | opencvProcessing.js:191 | `isHorizontal`: the two ends' y coordinates differ by less than 5 |
| WallResolver.IsVertical | opencvProcessing.js:192 | `isVertical`: the two ends' x coordinates differ by less than 5 |
| WallResolver.JoinsHorizontally | opencvProcessing.js:205-211 | the horizontal grouping test: both segments horizontal, and `x1`, `x2` and `y1` each within 20 |
| WallResolver.JoinsVertically | opencvProcessing.js:217-223 | the vertical grouping test: both segments vertical, and `y1`, `y2` and `x1` each within 20 |
| WallResolver.Key | opencvProcessing.js:236-240 | the sort comparator as a key: `y1` when the leader is horizontal, `-x1` otherwise, so ascending key is the comparator's order |
| WallResolver.Representative | opencvProcessing.js:230-243 | the kept segment is a member of the group, is the leader of a one-member group, and has a key no greater than any member's |
| OpeningClassifier.Windows | opencvProcessing.js:96-101 | the rectangles pushed onto `windows`: those classified as windows, in order |
| OpeningClassifier.Doors | opencvProcessing.js:115-120 | the rectangles pushed onto `doors`: those classified as doors, in order |
| PlanNormalizer.CenterOf | opencvProcessing.js:161-162 | `centerX` and `centerY`: the midpoint of the bounds |
| PlanNormalizer.DimensionsOf | opencvProcessing.js:179-182 | `dimensions`: the bounds' width and height times the scale factor 4 |
| PlanNormalizer.TransformAll | opencvProcessing.js:175-177 | `map(transformItem)`: same length, and position k holds `Transform` of input k |
| SceneLayout.FloorOf | threejsProcessing.js:206-207 | the floor's width and height: `maxX - minX` and `maxY - minY` of the box |
| WallResolver.GatherGroup | opencvProcessing.js:197-228 | the inner loop's group is the leader followed by each later unused joining segment, pushed once per test it passes (twice when it passes both); exactly those positions are marked used |
| Geometry.CloseIsAbsBelow | opencvProcessing.js:191-192 | the linear test `-t < a - b < t` used for every distance comparison holds exactly when `Math.abs(a - b) < t` |
| WallResolver.Visit | opencvProcessing.js:205-227 | looking at an unused segment only appends to the group (once per test passed), never changes what was there, and adds nothing but that segment |
| WallResolver.GroupUpTo | opencvProcessing.js:197-228 | a group under construction is never empty and starts with its leader |
| WallResolver.KeepInterior | opencvProcessing.js:230-243 | a one-member group keeps that member; otherwise the interior member is kept; in both cases this is `Representative(group)` |
| WallResolver.InteriorIndex | opencvProcessing.js:233-242 | the kept member has the least key (least `y1` when the leader is horizontal, greatest `x1` otherwise); every earlier member's key is strictly greater, so ties go to the earliest member, as with a stable sort |
| WallResolver.InteriorMember | opencvProcessing.js:233-242 | the scan that stands for `group.sort` plus `group[0]` returns the first member with the least key |
| WallResolver.ResolveSelects | opencvProcessing.js:186-248 | the output is no longer than the input, and every output segment is an input segment, verbatim |
| WallResolver.ResolveUngrouped | opencvProcessing.js:201-231 | if no later segment passes the grouping test against an earlier one, the output equals the input, in order |
| WallResolver.ResolveIdentityIff | opencvProcessing.js:194-244 | output equals input exactly when no pair groups; otherwise the output is strictly shorter |
| WallResolver.ResolveFromShrinks | opencvProcessing.js:194-244 | a joining pair among the free positions makes the output shorter than the number of free positions |
| WallResolver.ObliqueKept | opencvProcessing.js:191-231 | a segment with both spans at least 5 joins no group and leads none, and it always appears in the output |
| WallResolver.ResolvePair | opencvProcessing.js:201-242 | two segments that join resolve to the one with the strictly smaller key (else the first); two that do not join are both kept, in order |
| WallResolver.ResolveExample | opencvProcessing.js:230-242 | (0,10)-(100,10) and (0,14)-(100,14) resolve to (0,10)-(100,10) |
| WallResolver.ResolveNonEmpty | opencvProcessing.js:194-231 | some segment is kept exactly when there is any segment |
| OpeningClassifier.Classify | opencvProcessing.js:90-128 | the band test: window when 30 < width < 100 and 10 < height < 50, else door when 50 < width < 200 and 10 < height < 80, else dropped |
| OpeningClassifier.ClassifiedMembership | opencvProcessing.js:90-128 | a rectangle is in a list exactly when it is an input and is classified as that list's kind |
| OpeningClassifier.ClassifyPartition | opencvProcessing.js:90-128 | the window band has priority, so a rectangle in it is a window and never a door; one outside it but in the door band is a door and never a window; one in neither band is dropped |
| OpeningClassifier.ClassifiedCount | opencvProcessing.js:87-129 | a list holds every copy of a rectangle of its kind, as many as the input has, and no copy of a rectangle of another kind |
| OpeningClassifier.ClassifiedShare | opencvProcessing.js:87-129 | the multisets of windows, doors and dropped rectangles add up to the input's multiset |
| OpeningClassifier.ClassifiedInOrder | opencvProcessing.js:96-120 | each list is a subsequence of the input (verbatim, in input order) |
| OpeningClassifier.ClassifiedAppend | opencvProcessing.js:87-129 | classifying a concatenation concatenates the classifications |
| OpeningClassifier.ClassifyExamples | opencvProcessing.js:90-114 | 40x20 is a window; 150x40 is a door; 60x20 lies in both bands and is a window; 250x40 is dropped |
| Pipeline.FloorPlanData.constructor | opencvProcessing.js:26-27 | the record starts with the detected walls and no doors or windows |
| Pipeline.FloorPlanData.DetectContours | opencvProcessing.js:87-129 | the loop appends `Windows(rects)` to `windows` and `Doors(rects)` to `doors`, and leaves `walls` alone |
| Pipeline.FloorPlanData.ProcessFloorPlanData | opencvProcessing.js:250-256 | `walls` becomes `Resolve(old walls)` and the returned plan is `ProcessFloorPlan` of the old walls and the openings |
| Pipeline.ProcessFloorPlan | opencvProcessing.js:250-256 | what `processFloorPlanData` returns: the normalised plan of the resolved walls and the openings |
| Pipeline.ProcessPlanExists | opencvProcessing.js:250-256 | a plan results exactly when some wall, door or window was detected |
| Pipeline.ProcessSelectsWalls | opencvProcessing.js:250-256 | the plan has at most as many walls as were detected; each one, restored to image coordinates, is a detected wall taken whole |
| Pipeline.ProcessKeepsOpenings | opencvProcessing.js:250-256 | one plan item per door and per window, in order; each restores to that opening's corners, with the rectangle carried along |
| PlanNormalizer.CenterFloorPlan | opencvProcessing.js:142-184 | the `updateBounds` loop followed by the `transformItem` map returns exactly `Normalize(walls, doors, windows)` |
| PlanNormalizer.BoundsOf | opencvProcessing.js:145-159 | the accumulated bounds are absent (the plus and minus infinity start) exactly when there are no items |
| PlanNormalizer.Normalize | opencvProcessing.js:142-184 | a plan results exactly when there is at least one item |
| PlanNormalizer.UpdateBounds | opencvProcessing.js:150-155 | one `updateBounds` step: each extreme becomes the min or max of itself and the item's two corresponding coordinates |
| PlanNormalizer.Transform | opencvProcessing.js:166-172 | `transformItem`: subtract the centre, scale by 4, negate y, keep the rest |
| PlanNormalizer.BoundsOfTight | opencvProcessing.js:150-159 | the accumulated bounds contain every corner of every item, and each extreme is a corner of some item |
| PlanNormalizer.RestoreTransform | opencvProcessing.js:166-172 | `transformItem` is inverted by unscaling, un-flipping y and adding back the centre, and it keeps every other field |
| PlanNormalizer.NormalizeShape | opencvProcessing.js:166-182 | walls, doors and windows keep their lengths and order; each item restores, with the stored centre, to its input, so only the corners change; the dimensions are non-negative |
| PlanNormalizer.NormalizeBox | opencvProcessing.js:161-182 | for any box that the corners of all items fill exactly (every corner inside, every extreme reached), the plan's centre is that box's midpoint and its dimensions are the box's sides times 4 |
| PlanNormalizer.NormalizeCentred | opencvProcessing.js:161-182 | every transformed x lies in [-width/2, width/2] and every y in [-height/2, height/2], and all four ends are reached |
| PlanNormalizer.NormalizeSquare | opencvProcessing.js:150-182 | the four walls of the square (0,0)-(100,100) give centre (50,50), dimensions 400x400, and each wall's image has corners at plus and minus 200, with y flipped |
| PlanNormalizer.NormalizeShift | opencvProcessing.js:161-182 | translating every input by (dx,dy) translates the centre only; the transformed items and the dimensions are unchanged |
| SceneLayout.SeqMin | threejsProcessing.js:196-198 | `Math.min` over a spread is an element that is at most every element |
| SceneLayout.SeqMax | threejsProcessing.js:197-199 | `Math.max` over a spread is an element that is at least every element |
| SceneLayout.GetBoundingBox | threejsProcessing.js:195-202 | for non-empty walls, each of minX, minY, maxX, maxY bounds every wall's endpoints and is an endpoint of some wall |
| SceneLayout.FloorSize | threejsProcessing.js:204-207 | for non-empty walls the floor's width and height are non-negative |
| SceneLayout.Midpoint | threejsProcessing.js:241-242 | a wall's midpoint lies within that wall's own x and y ranges |
| SceneLayout.MidpointInBox | threejsProcessing.js:241-242 | every wall's midpoint lies inside the walls' bounding box |
| SceneLayout.BoundingBoxAgrees | threejsProcessing.js:195-202 | the scene builder's per-coordinate box equals the normaliser's one-pass bounds over the same walls |
| SceneLayout.CentredWallsBox | threejsProcessing.js:195-202 | for a normalised walls-only plan, the walls' box is the box of the plan's dimensions centred on the origin |
| SceneLayout.CentredFloorMatchesPlan | threejsProcessing.js:204-207 | for a normalised walls-only plan, minX = -maxX and minY = -maxY, and the floor's width and height equal the plan's dimensions |

## Left out

- Image processing in opencvProcessing.js is not modelled. This covers
  grayscale, threshold, edge, line and contour detection and the bounding
  rectangles. The segments and rectangles they produce are the model's
  inputs.
- The drawing of detected lines and rectangles, the canvas, the spinner,
  the timer and `cleanup` are not modelled. They are side effects with no
  bearing on the plan.
- A wall's length comes from a square root, a floating-point computation.
  The model carries it as an opaque value.
- WallResolver.InteriorMember: does not reorder `group`. The source sorts the
  group in place and then reads only `group[0]`. The model scans for the
  member a stable sort puts first, so the rest of the sorted order is not
  modelled.
- `console.log` of the filtered walls is left out. It is output only.
- PlanNormalizer.Normalize: doors and windows in corner form are a divergence
  from the code, which reads corner fields that openings lack and so yields
  NaN. Empty input gives `None` rather than infinite bounds.
- SceneLayout.GetBoundingBox: an empty wall list gives `None` rather than
  plus and minus infinity.
- Scale linearity is not proved: enlarging all inputs by k > 0 enlarges the
  centre and dimensions by k. The `Min`/`Max` step of `updateBounds` under
  multiplication by a variable k needs nonlinear real reasoning that Dafny
  does not close. Translation invariance is proved instead
  (`NormalizeShift`).
- IEEE floating point is not modelled. The coordinates are integers or
  exact rationals, and NaN and infinities are not represented.
- The rest of threejsProcessing.js is not modelled: the scene, cameras,
  zoom, pinch, dragging, lighting, textures and the wall angle (`atan2`).
  This is rendering and event handling.
- uiProcessing.js is not part of this model. It is DOM, file and storage
  plumbing.
