/**
 The interior wall resolver (`filterInnerEdges`). Raster wall detection
 reports each physical wall as a small cluster of near-identical parallel
 segments. One pass over the segments, with a `used` array excluding those
 already absorbed, forms a group around each unused leader and keeps exactly
 one input segment of the group, unchanged: the one with the least `y1` when
 the leader is horizontal, the one with the greatest `x1` otherwise.

 `Resolve` is the specification of the pass as a function;
 `FilterInnerEdges` is the loop program, proved equal to it.
 */
module WallResolver {
  import opened Geometry

  /** Grouping distance, in image pixels. */
  const Threshold: int := 20
  /** Orientation tolerance, in image pixels. */
  const OrientationTolerance: int := 5

  predicate IsHorizontal(w: Wall)
  {
    Close(w.y1, w.y2, OrientationTolerance)
  }

  predicate IsVertical(w: Wall)
  {
    Close(w.x1, w.x2, OrientationTolerance)
  }

  /** Both horizontal, spanning about the same run at about the same height. */
  predicate JoinsHorizontally(current: Wall, other: Wall)
  {
    IsHorizontal(current) && IsHorizontal(other) &&
    Close(current.x1, other.x1, Threshold) &&
    Close(current.x2, other.x2, Threshold) &&
    Close(current.y1, other.y1, Threshold)
  }

  /** Both vertical, spanning about the same run at about the same abscissa. */
  predicate JoinsVertically(current: Wall, other: Wall)
  {
    IsVertical(current) && IsVertical(other) &&
    Close(current.y1, other.y1, Threshold) &&
    Close(current.y2, other.y2, Threshold) &&
    Close(current.x1, other.x1, Threshold)
  }

  /** `other` joins the group led by `current`. */
  predicate Joins(current: Wall, other: Wall)
  {
    JoinsHorizontally(current, other) || JoinsVertically(current, other)
  }

  /** The group after the inner loop has looked at an unused `other`: it is
      pushed once per test it passes, so twice when it passes both (the
      second test does not look at `used` again). */
  function Visit(group: seq<Wall>, current: Wall, other: Wall): (g: seq<Wall>)
    ensures |group| <= |g| && forall k :: 0 <= k < |group| ==> g[k] == group[k]
    ensures forall w :: w in g ==> w in group || w == other
    ensures |g| == |group| + (if JoinsHorizontally(current, other) then 1 else 0) +
                             (if JoinsVertically(current, other) then 1 else 0)
  {
    var afterHorizontal := if JoinsHorizontally(current, other) then group + [other] else group;
    if JoinsVertically(current, other) then afterHorizontal + [other] else afterHorizontal
  }

  /** The group led by `current` once the inner loop has visited positions
      lo .. hi-1 with the flags `used`. */
  function GroupUpTo(walls: seq<Wall>, current: Wall, lo: nat, hi: nat, used: seq<bool>): (g: seq<Wall>)
    requires |used| == |walls| && hi <= |walls|
    ensures |g| > 0 && g[0] == current
    decreases hi
  {
    if hi <= lo then [current]
    else
      var g := GroupUpTo(walls, current, lo, hi - 1, used);
      if used[hi - 1] then g else Visit(g, current, walls[hi - 1])
  }

  /** The `used` flags after the inner loop has visited positions lo .. hi-1. */
  function Mark(walls: seq<Wall>, current: Wall, lo: nat, hi: nat, used: seq<bool>): (r: seq<bool>)
    requires |used| == |walls|
    ensures |r| == |used|
  {
    seq(|used|, k requires 0 <= k < |used| => used[k] || (lo <= k < hi && Joins(current, walls[k])))
  }

  /** The sort key: a stable ascending sort on it puts the interior member first. */
  function Key(w: Wall, horizontal: bool): int
  {
    if horizontal then w.y1 else -w.x1
  }

  /** The position of the interior member of a group: the earliest member
      with the least key, i.e. the least `y1` for a horizontal group and the
      greatest `x1` for a vertical one. It is the member a stable sort by the
      key moves to the front. */
  function InteriorIndex(group: seq<Wall>, horizontal: bool): (k: nat)
    requires |group| > 0
    ensures k < |group|
    ensures forall m :: 0 <= m < |group| ==> Key(group[k], horizontal) <= Key(group[m], horizontal)
    ensures forall m :: 0 <= m < k ==> Key(group[m], horizontal) > Key(group[k], horizontal)
  {
    if |group| == 1 then 0
    else
      var k := InteriorIndex(group[..|group| - 1], horizontal);
      if Key(group[|group| - 1], horizontal) < Key(group[k], horizontal) then |group| - 1 else k
  }

  /** The first-least position is unique: any index with the contract of
      `InteriorIndex` is that index. */
  lemma InteriorIndexUnique(group: seq<Wall>, horizontal: bool, k: nat)
    requires k < |group|
    requires forall m :: 0 <= m < |group| ==> Key(group[k], horizontal) <= Key(group[m], horizontal)
    requires forall m :: 0 <= m < k ==> Key(group[m], horizontal) > Key(group[k], horizontal)
    ensures k == InteriorIndex(group, horizontal)
  {
  }

  /** The group formed around the unused leader at position i. */
  function GroupAt(walls: seq<Wall>, i: nat, used: seq<bool>): (g: seq<Wall>)
    requires |used| == |walls| && i < |walls|
    ensures |g| > 0 && g[0] == walls[i]
  {
    GroupUpTo(walls, walls[i], i + 1, |walls|, used[i := true])
  }

  /** The segment kept for a group. */
  function Representative(group: seq<Wall>): (r: Wall)
    requires |group| > 0
    ensures r in group
    ensures |group| == 1 ==> r == group[0]
    ensures forall m :: 0 <= m < |group| ==>
      Key(r, IsHorizontal(group[0])) <= Key(group[m], IsHorizontal(group[0]))
  {
    group[InteriorIndex(group, IsHorizontal(group[0]))]
  }

  /** The outer loop from position i on, with the flags `used`. */
  function ResolveFrom(walls: seq<Wall>, i: nat, used: seq<bool>): seq<Wall>
    requires |used| == |walls|
    decreases |walls| - i
  {
    if i >= |walls| then []
    else if used[i] then ResolveFrom(walls, i + 1, used)
    else
      [Representative(GroupAt(walls, i, used))] +
      ResolveFrom(walls, i + 1, Mark(walls, walls[i], i + 1, |walls|, used[i := true]))
  }

  /** The walls that `filterInnerEdges` returns. */
  function Resolve(walls: seq<Wall>): seq<Wall>
  {
    ResolveFrom(walls, 0, seq(|walls|, _ => false))
  }

  /** The selection done by `group.sort(...)` followed by `group[0]`. */
  method InteriorMember(group: seq<Wall>, horizontal: bool) returns (best: nat)
    requires |group| > 0
    ensures best == InteriorIndex(group, horizontal)
  {
    best := 0;
    var m := 1;
    while m < |group|
      invariant 1 <= m <= |group|
      invariant best == InteriorIndex(group[..m], horizontal)
    {
      assert group[..m + 1][..m] == group[..m];
      assert InteriorIndex(group[..m + 1], horizontal) ==
        if Key(group[m], horizontal) < Key(group[best], horizontal) then m else best;
      if Key(group[m], horizontal) < Key(group[best], horizontal) {
        best := m;
      }
      m := m + 1;
    }
    assert group[..m] == group;
  }

  /** The inner loop of `filterInnerEdges`: gathers the group led by
      position i and marks its members used. */
  method GatherGroup(walls: seq<Wall>, used: array<bool>, i: nat) returns (group: seq<Wall>)
    requires used.Length == |walls| && i < |walls|
    modifies used
    ensures group == GroupAt(walls, i, old(used[..]))
    ensures used[..] == Mark(walls, walls[i], i + 1, |walls|, old(used[..])[i := true])
  {
    var n := |walls|;
    var current := walls[i];
    group := [current];
    used[i] := true;
    ghost var start := used[..];
    assert start == old(used[..])[i := true];
    var j := i + 1;
    while j < n
      invariant i + 1 <= j <= n && used.Length == n
      invariant group == GroupUpTo(walls, current, i + 1, j, start)
      invariant forall k :: 0 <= k < n ==>
        used[k] == (start[k] || (i + 1 <= k < j && Joins(current, walls[k])))
    {
      assert used[j] == start[j];
      if !used[j] {
        var other := walls[j];
        if JoinsHorizontally(current, other) {
          group := group + [other];
          used[j] := true;
        }
        if JoinsVertically(current, other) {
          group := group + [other];
          used[j] := true;
        }
      }
      j := j + 1;
    }
    assert used[..] == Mark(walls, current, i + 1, n, start);
  }

  /** One step of the outer loop at an unused leader: the kept segment
      moves from the rest of the pass to the output. */
  lemma ResolveFromStep(walls: seq<Wall>, i: nat, used: seq<bool>, grouped: seq<Wall>)
    requires |used| == |walls| && i < |walls| && !used[i]
    ensures grouped + ResolveFrom(walls, i, used) ==
            (grouped + [Representative(GroupAt(walls, i, used))]) +
            ResolveFrom(walls, i + 1, Mark(walls, walls[i], i + 1, |walls|, used[i := true]))
  {
    var kept := Representative(GroupAt(walls, i, used));
    var rest := ResolveFrom(walls, i + 1, Mark(walls, walls[i], i + 1, |walls|, used[i := true]));
    assert (grouped + [kept]) + rest == grouped + ([kept] + rest);
  }

  /** The segment kept for a gathered group: the only member, or the
      interior one. */
  method KeepInterior(group: seq<Wall>) returns (kept: Wall)
    requires |group| > 0
    ensures kept == Representative(group)
  {
    if |group| == 1 {
      kept := group[0];
    } else {
      var horizontal := IsHorizontal(group[0]);
      var best := InteriorMember(group, horizontal);
      kept := group[best];
    }
  }

  /** `filterInnerEdges`: one pass with a `used` array, keeping one segment
      per group. */
  method FilterInnerEdges(walls: seq<Wall>) returns (grouped: seq<Wall>)
    ensures grouped == Resolve(walls)
  {
    var n := |walls|;
    var used := new bool[n](_ => false);
    assert used[..] == seq(|walls|, _ => false);
    grouped := [];
    var i := 0;
    while i < n
      invariant 0 <= i <= n && used.Length == n
      invariant grouped + ResolveFrom(walls, i, used[..]) == Resolve(walls)
    {
      if !used[i] {
        ghost var before := used[..];
        var group := GatherGroup(walls, used, i);
        var kept := KeepInterior(group);
        ResolveFromStep(walls, i, before, grouped);
        grouped := grouped + [kept];
      }
      i := i + 1;
    }
  }

  // Properties of the resolver

  /** Every member of the group other than its leader is one of the walls
      at positions lo .. hi-1. */
  lemma {:induction false} GroupDrawnFrom(walls: seq<Wall>, current: Wall, lo: nat, hi: nat, used: seq<bool>)
    requires |used| == |walls| && lo <= hi <= |walls|
    ensures forall w :: w in GroupUpTo(walls, current, lo, hi, used) ==> w == current || w in walls[lo..hi]
    decreases hi
  {
    if lo < hi {
      GroupDrawnFrom(walls, current, lo, hi - 1, used);
      assert walls[hi - 1] == walls[lo..hi][hi - 1 - lo];
      forall w | w in walls[lo..hi - 1] ensures w in walls[lo..hi] {
        var p :| 0 <= p < hi - 1 - lo && walls[lo..hi - 1][p] == w;
        assert walls[lo..hi][p] == w;
      }
    }
  }

  /** A leader that no wall among lo .. hi-1 joins stays alone. */
  lemma {:induction false} GroupNone(walls: seq<Wall>, current: Wall, lo: nat, hi: nat, used: seq<bool>)
    requires |used| == |walls| && hi <= |walls|
    requires forall p :: lo <= p < hi ==> !Joins(current, walls[p])
    ensures GroupUpTo(walls, current, lo, hi, used) == [current]
    decreases hi
  {
    if lo < hi {
      GroupNone(walls, current, lo, hi - 1, used);
    }
  }

  lemma {:induction false} ResolveFromSelects(walls: seq<Wall>, i: nat, used: seq<bool>)
    requires |used| == |walls| && i <= |walls|
    ensures |ResolveFrom(walls, i, used)| <= |walls| - i
    ensures forall w :: w in ResolveFrom(walls, i, used) ==> w in walls[i..]
    decreases |walls| - i
  {
    if i < |walls| {
      var n := |walls|;
      var r := ResolveFrom(walls, i, used);
      if used[i] {
        ResolveFromSelects(walls, i + 1, used);
        assert r == ResolveFrom(walls, i + 1, used);
        forall w | w in r ensures w in walls[i..] {
          assert w in walls[i + 1..];
          var p :| 0 <= p < n - i - 1 && walls[i + 1..][p] == w;
          assert walls[i..][p + 1] == w;
        }
      } else {
        var g := GroupAt(walls, i, used);
        var next := Mark(walls, walls[i], i + 1, n, used[i := true]);
        ResolveFromSelects(walls, i + 1, next);
        GroupDrawnFrom(walls, walls[i], i + 1, n, used[i := true]);
        assert r == [Representative(g)] + ResolveFrom(walls, i + 1, next);
        assert walls[i..] == [walls[i]] + walls[i + 1..];
        assert Representative(g) in g;
        forall w | w in r ensures w in walls[i..] {
          if w != Representative(g) {
            assert w in ResolveFrom(walls, i + 1, next);
          }
        }
      }
    }
  }

  /** The resolver never returns more segments than it was given, and every
      segment it returns is one of its inputs, verbatim: a selection, never a
      merge. */
  lemma ResolveSelects(walls: seq<Wall>)
    ensures |Resolve(walls)| <= |walls|
    ensures forall w :: w in Resolve(walls) ==> w in walls
  {
    ResolveFromSelects(walls, 0, seq(|walls|, _ => false));
    assert walls[0..] == walls;
  }

  /** No wall joins the group of an earlier wall. */
  predicate NoneJoin(walls: seq<Wall>)
  {
    forall a, b :: 0 <= a < b < |walls| ==> !Joins(walls[a], walls[b])
  }

  lemma {:induction false} ResolveFromUngrouped(walls: seq<Wall>, i: nat, used: seq<bool>)
    requires |used| == |walls| && i <= |walls| && NoneJoin(walls)
    requires forall k :: i <= k < |walls| ==> !used[k]
    ensures ResolveFrom(walls, i, used) == walls[i..]
    decreases |walls| - i
  {
    if i < |walls| {
      var n := |walls|;
      GroupNone(walls, walls[i], i + 1, n, used[i := true]);
      var g := GroupAt(walls, i, used);
      assert g == [walls[i]];
      var next := Mark(walls, walls[i], i + 1, n, used[i := true]);
      ResolveFromUngrouped(walls, i + 1, next);
      assert walls[i..] == [walls[i]] + walls[i + 1..];
    }
  }

  /** When no pair of segments passes the grouping test, the resolver returns
      its input unchanged, in the same order. */
  lemma ResolveUngrouped(walls: seq<Wall>)
    requires NoneJoin(walls)
    ensures Resolve(walls) == walls
  {
    ResolveFromUngrouped(walls, 0, seq(|walls|, _ => false));
    assert walls[0..] == walls;
  }

  /** Neither horizontal nor vertical. */
  predicate IsOblique(w: Wall)
  {
    !IsHorizontal(w) && !IsVertical(w)
  }

  lemma {:induction false} ObliqueKeptFrom(walls: seq<Wall>, i: nat, used: seq<bool>, k: nat)
    requires |used| == |walls| && i <= k < |walls|
    requires IsOblique(walls[k]) && !used[k]
    ensures walls[k] in ResolveFrom(walls, i, used)
    decreases k - i
  {
    var n := |walls|;
    if i == k {
      GroupNone(walls, walls[k], k + 1, n, used[k := true]);
      assert GroupAt(walls, k, used) == [walls[k]];
    } else if used[i] {
      ObliqueKeptFrom(walls, i + 1, used, k);
    } else {
      var next := Mark(walls, walls[i], i + 1, n, used[i := true]);
      assert !next[k];
      ObliqueKeptFrom(walls, i + 1, next, k);
    }
  }

  /** A segment that is neither horizontal nor vertical is never grouped with
      anything, and always appears in the output. */
  lemma ObliqueKept(walls: seq<Wall>, k: nat)
    requires k < |walls| && IsOblique(walls[k])
    ensures forall w :: !Joins(w, walls[k]) && !Joins(walls[k], w)
    ensures walls[k] in Resolve(walls)
  {
    ObliqueKeptFrom(walls, 0, seq(|walls|, _ => false), k);
  }

  /** Two segments: if the second joins the first, the one kept is the
      interior one (the second only when its key is strictly smaller, so a
      tie keeps the first); otherwise both are kept, in order. */
  lemma ResolvePair(a: Wall, b: Wall)
    ensures Resolve([a, b]) ==
      if Joins(a, b) then
        [if Key(b, IsHorizontal(a)) < Key(a, IsHorizontal(a)) then b else a]
      else [a, b]
  {
    var walls := [a, b];
    var none := seq(2, _ => false);
    var g := GroupAt(walls, 0, none);
    assert GroupUpTo(walls, a, 1, 1, none[0 := true]) == [a];
    assert g == Visit([a], a, b);
    var next := Mark(walls, a, 1, 2, none[0 := true]);
    assert next[1] == Joins(a, b);
    if Joins(a, b) {
      var h := IsHorizontal(a);
      var k := if Key(b, h) < Key(a, h) then 1 else 0;
      InteriorIndexUnique(g, h, k);
      assert ResolveFrom(walls, 1, next) == [];
    } else {
      assert g == [a];
      assert ResolveFrom(walls, 1, next) == [b] + ResolveFrom(walls, 2, next);
    }
  }

  /** Two detections of the same horizontal wall, four pixels apart, resolve
      to the upper one. */
  lemma ResolveExample()
    ensures Resolve([Wall(0, 10, 100, 10, 100.0), Wall(0, 14, 100, 14, 100.0)]) ==
            [Wall(0, 10, 100, 10, 100.0)]
  {
    ResolvePair(Wall(0, 10, 100, 10, 100.0), Wall(0, 14, 100, 14, 100.0));
  }

  /** The number of positions from i on that are not yet used. */
  function Free(used: seq<bool>, i: nat): nat
    decreases |used| - i
  {
    if i >= |used| then 0 else (if used[i] then 0 else 1) + Free(used, i + 1)
  }

  /** Marking more positions frees fewer; strictly fewer when a free
      position gets marked. */
  lemma {:induction false} FreeShrinks(used: seq<bool>, more: seq<bool>, i: nat)
    requires |more| == |used|
    requires forall k :: i <= k < |used| && used[k] ==> more[k]
    ensures Free(more, i) <= Free(used, i)
    ensures (exists k :: i <= k < |used| && !used[k] && more[k]) ==> Free(more, i) < Free(used, i)
    decreases |used| - i
  {
    if i < |used| {
      FreeShrinks(used, more, i + 1);
      if exists k :: i <= k < |used| && !used[k] && more[k] {
        var k :| i <= k < |used| && !used[k] && more[k];
        if k != i {
          assert i + 1 <= k;
        }
      }
    }
  }

  lemma {:induction false} FreeNone(n: nat, i: nat)
    ensures Free(seq(n, _ => false), i) == if i <= n then n - i else 0
    decreases n - i
  {
    if i < n {
      FreeNone(n, i + 1);
    }
  }

  /** Each kept segment uses up at least one free position. */
  lemma {:induction false} ResolveFromBound(walls: seq<Wall>, i: nat, used: seq<bool>)
    requires |used| == |walls|
    ensures |ResolveFrom(walls, i, used)| <= Free(used, i)
    decreases |walls| - i
  {
    var n := |walls|;
    if i < n {
      if used[i] {
        ResolveFromBound(walls, i + 1, used);
      } else {
        var next := Mark(walls, walls[i], i + 1, n, used[i := true]);
        ResolveFromBound(walls, i + 1, next);
        FreeShrinks(used, next, i + 1);
      }
    }
  }

  /** Two free positions a < b from i on whose walls pass the grouping test. */
  predicate FreePairJoins(walls: seq<Wall>, used: seq<bool>, i: nat, a: nat, b: nat)
    requires |used| == |walls|
  {
    i <= a < b < |walls| && !used[a] && !used[b] && Joins(walls[a], walls[b])
  }

  /** A joining pair among the free positions makes the output strictly
      shorter than the number of free positions. */
  lemma {:induction false} ResolveFromShrinks(walls: seq<Wall>, i: nat, used: seq<bool>, a: nat, b: nat)
    requires |used| == |walls| && FreePairJoins(walls, used, i, a, b)
    ensures |ResolveFrom(walls, i, used)| < Free(used, i)
    decreases |walls| - i
  {
    var n := |walls|;
    if used[i] {
      ResolveFromShrinks(walls, i + 1, used, a, b);
    } else {
      var next := Mark(walls, walls[i], i + 1, n, used[i := true]);
      ResolveFromBound(walls, i + 1, next);
      if exists k :: i + 1 <= k < n && !used[k] && Joins(walls[i], walls[k]) {
        var k :| i + 1 <= k < n && !used[k] && Joins(walls[i], walls[k]);
        assert next[k];
        FreeShrinks(used, next, i + 1);
      } else {
        assert a != i;
        assert !next[a] && !next[b];
        ResolveFromShrinks(walls, i + 1, next, a, b);
        FreeShrinks(used, next, i + 1);
      }
    }
  }

  /** The resolver returns its input unchanged exactly when no pair of
      segments passes the grouping test; otherwise it returns fewer. */
  lemma ResolveIdentityIff(walls: seq<Wall>)
    ensures Resolve(walls) == walls <==> NoneJoin(walls)
    ensures !NoneJoin(walls) ==> |Resolve(walls)| < |walls|
  {
    var none := seq(|walls|, _ => false);
    FreeNone(|walls|, 0);
    if NoneJoin(walls) {
      ResolveUngrouped(walls);
    } else {
      var a, b :| 0 <= a < b < |walls| && Joins(walls[a], walls[b]);
      assert FreePairJoins(walls, none, 0, a, b);
      ResolveFromShrinks(walls, 0, none, a, b);
    }
  }

  /** Some segment is kept whenever there is a segment at all: the first is
      always a group leader. */
  lemma ResolveNonEmpty(walls: seq<Wall>)
    ensures Resolve(walls) == [] <==> walls == []
  {
  }
}
