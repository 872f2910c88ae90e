/**
 The opening classifier: the size-band test that `detectContours` applies to
 each contour's bounding rectangle. The window band is tested first, so a
 rectangle in both bands is a window; a rectangle in neither band is dropped.
 Classified rectangles are kept verbatim and in input order.
 */
module OpeningClassifier {
  import opened Geometry

  datatype Kind = Window | Door

  predicate InWindowBand(r: Rect)
  {
    30 < r.width < 100 && 10 < r.height < 50
  }

  predicate InDoorBand(r: Rect)
  {
    50 < r.width < 200 && 10 < r.height < 80
  }

  /** The kind a rectangle is classified as, or None when it is dropped. */
  function Classify(r: Rect): Option<Kind>
  {
    if InWindowBand(r) then Some(Window)
    else if InDoorBand(r) then Some(Door)
    else None
  }

  /** The rectangles of `rects`, in order, whose classification is `c`. */
  function Classified(rects: seq<Rect>, c: Option<Kind>): seq<Rect>
    decreases |rects|
  {
    if rects == [] then []
    else
      var last := rects[|rects| - 1];
      Classified(rects[..|rects| - 1], c) + (if Classify(last) == c then [last] else [])
  }

  function Windows(rects: seq<Rect>): seq<Rect>
  {
    Classified(rects, Some(Window))
  }

  function Doors(rects: seq<Rect>): seq<Rect>
  {
    Classified(rects, Some(Door))
  }

  /** `s` is `t` with some elements deleted. */
  predicate IsSubsequence(s: seq<Rect>, t: seq<Rect>)
    decreases |t|
  {
    s == [] ||
    (t != [] &&
     ((s[|s| - 1] == t[|t| - 1] && IsSubsequence(s[..|s| - 1], t[..|t| - 1])) ||
      IsSubsequence(s, t[..|t| - 1])))
  }

  /** Classifying a concatenation classifies each part. */
  lemma {:induction false} ClassifiedAppend(a: seq<Rect>, b: seq<Rect>, c: Option<Kind>)
    ensures Classified(a + b, c) == Classified(a, c) + Classified(b, c)
    decreases |b|
  {
    if b != [] {
      var ab := a + b;
      assert ab[..|ab| - 1] == a + b[..|b| - 1];
      assert ab[|ab| - 1] == b[|b| - 1];
      ClassifiedAppend(a, b[..|b| - 1], c);
    } else {
      assert a + b == a;
    }
  }

  /** A rectangle is in a list exactly when it is among the inputs and is
      classified as that list's kind. */
  lemma {:induction false} ClassifiedMembership(rects: seq<Rect>, c: Option<Kind>, r: Rect)
    ensures r in Classified(rects, c) <==> r in rects && Classify(r) == c
    decreases |rects|
  {
    if rects != [] {
      var front := rects[..|rects| - 1];
      ClassifiedMembership(front, c, r);
      assert rects == front + [rects[|rects| - 1]];
    }
  }

  /** The window band has priority: a rectangle in it is a window and never
      a door, even when it also lies in the door band; a rectangle outside
      the window band but inside the door band is a door; a rectangle in
      neither band is dropped. No rectangle is in both lists. */
  lemma ClassifyPartition(rects: seq<Rect>, r: Rect)
    requires r in rects
    ensures InWindowBand(r) ==> r in Windows(rects) && r !in Doors(rects)
    ensures !InWindowBand(r) && InDoorBand(r) ==> r in Doors(rects) && r !in Windows(rects)
    ensures !InWindowBand(r) && !InDoorBand(r) ==> r !in Windows(rects) && r !in Doors(rects)
  {
    ClassifiedMembership(rects, Some(Window), r);
    ClassifiedMembership(rects, Some(Door), r);
  }

  /** A list holds every copy of the rectangles of its kind and no copy of
      any other. */
  lemma {:induction false} ClassifiedCount(rects: seq<Rect>, c: Option<Kind>, r: Rect)
    ensures multiset(Classified(rects, c))[r] == if Classify(r) == c then multiset(rects)[r] else 0
    decreases |rects|
  {
    if rects != [] {
      var front := rects[..|rects| - 1];
      ClassifiedCount(front, c, r);
      assert rects == front + [rects[|rects| - 1]];
    }
  }

  /** Every input lands in exactly one of windows, doors and dropped, as
      many times as it occurs. */
  lemma ClassifiedShare(rects: seq<Rect>)
    ensures multiset(Windows(rects)) + multiset(Doors(rects)) + multiset(Classified(rects, None)) ==
            multiset(rects)
  {
    forall r ensures (multiset(Windows(rects)) + multiset(Doors(rects)) + multiset(Classified(rects, None)))[r] ==
                     multiset(rects)[r]
    {
      ClassifiedCount(rects, Some(Window), r);
      ClassifiedCount(rects, Some(Door), r);
      ClassifiedCount(rects, None, r);
    }
  }

  /** Each list keeps the relative input order of its rectangles. */
  lemma {:induction false} ClassifiedInOrder(rects: seq<Rect>, c: Option<Kind>)
    ensures IsSubsequence(Classified(rects, c), rects)
    decreases |rects|
  {
    if rects != [] {
      var front := rects[..|rects| - 1];
      var rest := Classified(front, c);
      ClassifiedInOrder(front, c);
      var last := rects[|rects| - 1];
      if Classify(last) == c {
        var s := rest + [last];
        assert s[..|s| - 1] == rest;
      } else if rest != [] {
        assert Classified(rects, c) == rest;
      }
    }
  }

  lemma ClassifyExamples()
    ensures Classify(Rect(10, 10, 40, 20)) == Some(Window)
    ensures Classify(Rect(0, 0, 150, 40)) == Some(Door)
    ensures Classify(Rect(0, 0, 60, 20)) == Some(Window) && InDoorBand(Rect(0, 0, 60, 20))
    ensures Classify(Rect(0, 0, 250, 40)) == None
  {
  }
}
