/**
  The containment classifier shared by main.py and tagged.py, and the area
  tally of DAPI_count.py, stated over the values OpenCV hands back.

  A contour is what `cv.findContours` traces, together with the measures the
  scripts ask of it: `cv.contourArea` and the moments `m00`, `m10`, `m01` of
  `cv.moments`. These are inputs here, not computed. The boundary-inclusive
  test `cv.pointPolygonTest(cr, point, False) >= 0` is an oracle `test` that
  returns the library's sign (+1 inside, 0 on the edge, -1 outside); the
  comparison `>= 0` is the scripts' own and is modelled as written.
*/
module Contours {
  import opened Counting

  datatype Point = Point(x: int, y: int)

  datatype Contour = Contour(points: seq<Point>, area: real, m00: real, m10: real, m01: real)

  /** The blue (marker) and red (reference) contour lists extracted from one image. */
  datatype Channels = Channels(blue: seq<Contour>, red: seq<Contour>)

  /** `cv.pointPolygonTest(contour, point, False)`: its sign places the point. */
  type PolygonTest = (Contour, Point) -> int

  /** Contours of area at or below this are noise (`if area <= 5: continue`). */
  const NoiseFloor: real := 5.0

  /** Python's `int(x)` on a float: truncation toward zero. */
  function Trunc(r: real): (t: int)
    ensures 0.0 <= r ==> t as real <= r < t as real + 1.0
    ensures r < 0.0 ==> t as real - 1.0 < r <= t as real
    ensures (t as real) * (t as real) <= r * r
  {
    if r >= 0.0 then r.Floor else -((-r).Floor)
  }

  /** `(int(M["m10"] / M["m00"]), int(M["m01"] / M["m00"]))`. */
  function Centroid(c: Contour): Point
    requires c.m00 != 0.0
  {
    Point(Trunc(c.m10 / c.m00), Trunc(c.m01 / c.m00))
  }

  /** `cv.pointPolygonTest(cr, point, False) >= 0`: inside or on the boundary. */
  predicate OnOrInside(test: PolygonTest, cr: Contour, p: Point) {
    test(cr, p) >= 0
  }

  /** `any(cv.pointPolygonTest(cr, point, False) >= 0 for cr in contours_r)`. */
  function AnyOnOrInside(red: seq<Contour>, p: Point, test: PolygonTest): (b: bool)
    ensures b <==> exists i :: 0 <= i < |red| && OnOrInside(test, red[i], p)
  {
    if red == [] then false
    else OnOrInside(test, red[0], p) || AnyOnOrInside(red[1..], p, test)
  }

  /** A blue contour that passes both guards of the loop (area, then `m00`). */
  predicate Survives(c: Contour) {
    c.area > NoiseFloor && c.m00 != 0.0
  }

  /** A surviving blue contour whose centroid is on or inside some red contour. */
  predicate IsValidMarker(c: Contour, red: seq<Contour>, test: PolygonTest) {
    Survives(c) && AnyOnOrInside(red, Centroid(c), test)
  }

  /** A contour whose area is strictly above `minArea` (`if area > 5:`). */
  predicate Exceeds(c: Contour, minArea: real) {
    c.area > minArea
  }

  /** The pair `count = [valid, total]` of main.py. */
  datatype Tally = Tally(valid: nat, total: nat)

  /** `IsValidMarker` against fixed red contours, as a test on one blue contour. */
  function ValidTest(red: seq<Contour>, test: PolygonTest): Contour -> bool {
    c => IsValidMarker(c, red, test)
  }

  /** `Exceeds` for a fixed threshold, as a test on one contour. */
  function AboveTest(minArea: real): Contour -> bool {
    c => Exceeds(c, minArea)
  }

  /** How many blue contours the loop evaluates (`count[1]`). */
  function SurvivorCount(blue: seq<Contour>): nat {
    CountIf(blue, Survives)
  }

  /** How many blue contours the loop accepts (`count[0]`, tagged.py's `count`). */
  function ValidCount(blue: seq<Contour>, red: seq<Contour>, test: PolygonTest): nat {
    CountIf(blue, ValidTest(red, test))
  }

  /** How many contours have area above `minArea` (DAPI_count.py, test.py). */
  function AboveCount(cs: seq<Contour>, minArea: real): nat {
    CountIf(cs, AboveTest(minArea))
  }

  /** The tally main.py returns for one image: valid never exceeds total, total never exceeds the input. */
  function Classify(blue: seq<Contour>, red: seq<Contour>, test: PolygonTest): (t: Tally)
    ensures t.valid <= t.total <= |blue|
  {
    CountIfMonotone(blue, ValidTest(red, test), Survives);
    Tally(ValidCount(blue, red, test), SurvivorCount(blue))
  }

  /** The counts are the sizes of the sets of qualifying positions. */
  lemma ClassifyByPositions(blue: seq<Contour>, red: seq<Contour>, test: PolygonTest)
    ensures Classify(blue, red, test).valid
         == |set i | 0 <= i < |blue| && IsValidMarker(blue[i], red, test)|
    ensures Classify(blue, red, test).total == |set i | 0 <= i < |blue| && Survives(blue[i])|
  {
    var p := ValidTest(red, test);
    CountIfIsCardinality(blue, p);
    assert Positions(blue, p) == set i | 0 <= i < |blue| && IsValidMarker(blue[i], red, test);
    CountIfIsCardinality(blue, Survives);
    assert Positions(blue, Survives) == set i | 0 <= i < |blue| && Survives(blue[i]);
  }

  /** A blue contour of area at most 5 or with `m00 == 0`, wherever it sits, adds to neither counter. */
  lemma DegenerateIgnored(pre: seq<Contour>, c: Contour, post: seq<Contour>, red: seq<Contour>, test: PolygonTest)
    requires c.area <= NoiseFloor || c.m00 == 0.0
    ensures Classify(pre + [c] + post, red, test) == Classify(pre + post, red, test)
  {
    var p := ValidTest(red, test);
    CountIfAppend(pre + [c], post, p);
    CountIfAppend(pre, [c], p);
    CountIfAppend(pre, post, p);
    CountIfAppend(pre + [c], post, Survives);
    CountIfAppend(pre, [c], Survives);
    CountIfAppend(pre, post, Survives);
    assert [c][..0] == [];
  }

  /** With no red contours nothing is valid (`any` over nothing is False); total is unaffected. */
  lemma NoReferenceNoneValid(blue: seq<Contour>, test: PolygonTest)
    ensures Classify(blue, [], test) == Tally(0, SurvivorCount(blue))
  {
    CountIfMonotone(blue, ValidTest([], test), c => false);
    assert CountIf(blue, c => false) == 0 by {
      CountIfIsCardinality(blue, c => false);
      assert Positions(blue, c => false) == {};
    }
  }

  /** More red contours never make fewer blue contours valid (an OR over the reference set). */
  lemma MoreReferencesMoreValid(blue: seq<Contour>, red: seq<Contour>, red': seq<Contour>, test: PolygonTest)
    requires forall r :: r in red ==> r in red'
    ensures ValidCount(blue, red, test) <= ValidCount(blue, red', test)
    ensures Classify(blue, red, test).total == Classify(blue, red', test).total
  {
    forall c | c in blue && IsValidMarker(c, red, test) ensures IsValidMarker(c, red', test) {
      var i :| 0 <= i < |red| && OnOrInside(test, red[i], Centroid(c));
      assert red[i] in red;
      var j :| 0 <= j < |red'| && red'[j] == red[i];
    }
    CountIfMonotone(blue, ValidTest(red, test), ValidTest(red', test));
  }

  /** Only which red contours are present matters, not their order or repetition. */
  lemma ReferenceSetOnly(blue: seq<Contour>, red: seq<Contour>, red': seq<Contour>, test: PolygonTest)
    requires forall r :: r in red <==> r in red'
    ensures Classify(blue, red, test) == Classify(blue, red', test)
  {
    MoreReferencesMoreValid(blue, red, red', test);
    MoreReferencesMoreValid(blue, red', red, test);
  }

  /** A centroid exactly on a red boundary (test result 0) makes a surviving marker valid. */
  lemma BoundaryIsInside(c: Contour, red: seq<Contour>, k: nat, test: PolygonTest)
    requires Survives(c) && k < |red|
    requires test(red[k], Centroid(c)) == 0
    ensures Classify([c], red, test) == Tally(1, 1)
  {
    assert [c][..0] == [];
    assert OnOrInside(test, red[k], Centroid(c));
  }

  /** A surviving marker whose centroid is strictly outside every red contour is counted but not valid. */
  lemma OutsideIsInvalid(c: Contour, red: seq<Contour>, test: PolygonTest)
    requires Survives(c)
    requires forall r :: r in red ==> test(r, Centroid(c)) < 0
    ensures Classify([c], red, test) == Tally(0, 1)
  {
    assert [c][..0] == [];
  }

  /** main.py's total never exceeds DAPI_count.py's count on the same list: it also drops `m00 == 0`. */
  lemma SurvivorsWithinAboveCount(blue: seq<Contour>)
    ensures SurvivorCount(blue) <= AboveCount(blue, NoiseFloor)
  {
    CountIfMonotone(blue, Survives, AboveTest(NoiseFloor));
  }

  /** The area tally counts exactly the positions with area strictly above the threshold. */
  lemma AboveCountByPositions(cs: seq<Contour>, minArea: real)
    ensures AboveCount(cs, minArea) == |set i | 0 <= i < |cs| && cs[i].area > minArea|
  {
    var p := AboveTest(minArea);
    CountIfIsCardinality(cs, p);
    assert Positions(cs, p) == set i | 0 <= i < |cs| && cs[i].area > minArea;
  }

  /**
    One contour, wherever it sits, adds one to the area tally exactly when its
    area is strictly above the threshold; its moments play no part.
  */
  lemma AboveCountOne(pre: seq<Contour>, c: Contour, post: seq<Contour>, minArea: real)
    ensures AboveCount(pre + [c] + post, minArea) == AboveCount(pre + post, minArea) + (if c.area > minArea then 1 else 0)
  {
    var p := AboveTest(minArea);
    CountIfAppend(pre + [c], post, p);
    CountIfAppend(pre, [c], p);
    CountIfAppend(pre, post, p);
    assert [c][..0] == [];
  }
}
