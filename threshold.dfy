/**
 * The last stages of canny.go: maxPixelValue, doublethreshold, getAdjacentPixels and
 * edgeTracking. doublethreshold and edgeTracking change the grid in place, so here the
 * grid is an array2; the coordinate sets of the mapset library become set<Point>.
 */
module Threshold {
  import opened Pixels
  import Gradient

  /** The grid held by `a`, row by row. */
  ghost function GridOf(a: array2<GrayPixel>): (g: seq<seq<GrayPixel>>)
    reads a
    ensures |g| == a.Length0 && forall y :: 0 <= y < |g| ==> |g[y]| == a.Length1
    ensures forall y, x :: 0 <= y < a.Length0 && 0 <= x < a.Length1 ==> g[y][x] == a[y, x]
  {
    seq(a.Length0, y requires 0 <= y < a.Length0 reads a =>
      seq(a.Length1, x requires 0 <= x < a.Length1 reads a => a[y, x]))
  }

  /** `m` is the largest intensity of `g`, or 0 when every intensity is below it (an empty grid). */
  ghost predicate IsMaxIntensity(g: seq<seq<GrayPixel>>, m: int)
  {
    && (forall y, x :: 0 <= y < |g| && 0 <= x < |g[y]| ==> g[y][x].y <= m)
    && (m == 0 || exists y, x :: 0 <= y < |g| && 0 <= x < |g[y]| && g[y][x].y == m)
  }

  /** maxPixelValue: the largest intensity of the grid, starting from 0. */
  method MaxPixelValue(pixels: seq<seq<GrayPixel>>) returns (max: byte)
    requires Rectangular(pixels)
    ensures forall y, x :: 0 <= y < |pixels| && 0 <= x < |pixels[y]| ==> pixels[y][x].y <= max
    ensures max == 0 || exists y, x :: 0 <= y < |pixels| && 0 <= x < |pixels[y]| && pixels[y][x].y == max
  {
    max := 0;
    for y := 0 to |pixels|
      invariant forall i, j :: 0 <= i < y && 0 <= j < |pixels[i]| ==> pixels[i][j].y <= max
      invariant max == 0 || exists i, j :: 0 <= i < |pixels| && 0 <= j < |pixels[i]| && pixels[i][j].y == max
    {
      for x := 0 to |pixels[0]|
        invariant forall i, j :: 0 <= i < y && 0 <= j < |pixels[i]| ==> pixels[i][j].y <= max
        invariant forall j :: 0 <= j < x ==> pixels[y][j].y <= max
        invariant max == 0 || exists i, j :: 0 <= i < |pixels| && 0 <= j < |pixels[i]| && pixels[i][j].y == max
      {
        var pixVal := pixels[y][x].y;
        if pixVal > max {
          max := pixVal;
        }
      }
    }
  }

  /** Two characterisations of the maximum agree: there is only one. */
  lemma MaxIntensityUnique(g: seq<seq<GrayPixel>>, m1: int, m2: int)
    requires IsMaxIntensity(g, m1) && IsMaxIntensity(g, m2) && m1 >= 0 && m2 >= 0
    ensures m1 == m2
  {
  }

  /** Intensity strictly above the high threshold. */
  predicate IsStrong(v: byte, high: real)
  {
    v as real > high
  }

  /** Intensity strictly between the two thresholds. */
  predicate IsWeak(v: byte, high: real, low: real)
  {
    high > v as real && v as real > low
  }

  /** Coordinates of the strong pixels of `g` (rows of the first row's length). */
  function StrongPoints(g: seq<seq<GrayPixel>>, high: real): set<Point>
    requires Rectangular(g)
  {
    set y, x | 0 <= y < |g| && 0 <= x < Width(g) && IsStrong(g[y][x].y, high) :: Point(x, y)
  }

  /** Coordinates of the weak pixels of `g`. */
  function WeakPoints(g: seq<seq<GrayPixel>>, high: real, low: real): set<Point>
    requires Rectangular(g)
  {
    set y, x | 0 <= y < |g| && 0 <= x < Width(g) && IsWeak(g[y][x].y, high, low) :: Point(x, y)
  }

  /** A pixel after doublethreshold: strong and weak ones kept, every other one blackened. */
  function ThresholdPixel(p: GrayPixel, high: real, low: real): GrayPixel
  {
    if IsStrong(p.y, high) || IsWeak(p.y, high, low) then p else p.(y := 0)
  }

  /** The grid after doublethreshold. */
  function Thresholded(g: seq<seq<GrayPixel>>, high: real, low: real): seq<seq<GrayPixel>>
  {
    seq(|g|, y requires 0 <= y < |g| => seq(|g[y]|, x requires 0 <= x < |g[y]| => ThresholdPixel(g[y][x], high, low)))
  }

  /** Row-major visiting order: (x, y) comes before column `col` of row `row`. */
  predicate Before(p: Point, row: int, col: int)
  {
    p.y < row || (p.y == row && p.x < col)
  }

  /**
   * doublethreshold: returns the strong and the weak coordinates and, in place, sets the
   * intensity of every other pixel to 0.
   */
  method DoubleThreshold(pixels: array2<GrayPixel>, high: real, low: real) returns (strong: set<Point>, weak: set<Point>)
    modifies pixels
    ensures strong == StrongPoints(old(GridOf(pixels)), high)
    ensures weak == WeakPoints(old(GridOf(pixels)), high, low)
    ensures GridOf(pixels) == Thresholded(old(GridOf(pixels)), high, low)
  {
    ghost var g: seq<seq<GrayPixel>> := GridOf(pixels);
    strong, weak := {}, {};
    for y := 0 to pixels.Length0
      invariant forall p: Point :: p in strong <==> InGrid(p, pixels.Length0, pixels.Length1) && Before(p, y, 0) && IsStrong(g[p.y][p.x].y, high)
      invariant forall p: Point :: p in weak <==> InGrid(p, pixels.Length0, pixels.Length1) && Before(p, y, 0) && IsWeak(g[p.y][p.x].y, high, low)
      invariant forall i, j :: 0 <= i < pixels.Length0 && 0 <= j < pixels.Length1 ==>
        pixels[i, j] == if Before(Point(j, i), y, 0) then ThresholdPixel(g[i][j], high, low) else g[i][j]
    {
      for x := 0 to pixels.Length1
        invariant forall p: Point :: p in strong <==> InGrid(p, pixels.Length0, pixels.Length1) && Before(p, y, x) && IsStrong(g[p.y][p.x].y, high)
        invariant forall p: Point :: p in weak <==> InGrid(p, pixels.Length0, pixels.Length1) && Before(p, y, x) && IsWeak(g[p.y][p.x].y, high, low)
        invariant forall i, j :: 0 <= i < pixels.Length0 && 0 <= j < pixels.Length1 ==>
          pixels[i, j] == if Before(Point(j, i), y, x) then ThresholdPixel(g[i][j], high, low) else g[i][j]
      {
        var pixVal := pixels[y, x].y;
        if pixVal as real > high {
          strong := strong + {Point(x, y)};
        } else if high > pixVal as real && pixVal as real > low {
          weak := weak + {Point(x, y)};
        } else {
          pixels[y, x] := pixels[y, x].(y := 0);
        }
      }
    }
    ThresholdOutcome(g, GridOf(pixels), high, low, strong, weak);
  }

  /** What the loops of doublethreshold establish, restated as the three results. */
  lemma ThresholdOutcome(g: seq<seq<GrayPixel>>, after: seq<seq<GrayPixel>>, high: real, low: real,
                         strong: set<Point>, weak: set<Point>)
    requires Rectangular(g) && |after| == |g|
    requires forall i :: 0 <= i < |g| ==> |after[i]| == Width(g)
    requires forall p: Point :: p in strong <==> InGrid(p, |g|, Width(g)) && IsStrong(g[p.y][p.x].y, high)
    requires forall p: Point :: p in weak <==> InGrid(p, |g|, Width(g)) && IsWeak(g[p.y][p.x].y, high, low)
    requires forall i, j :: 0 <= i < |g| && 0 <= j < Width(g) ==> after[i][j] == ThresholdPixel(g[i][j], high, low)
    ensures after == Thresholded(g, high, low)
    ensures strong == StrongPoints(g, high) && weak == WeakPoints(g, high, low)
  {
    var want := Thresholded(g, high, low);
    forall i | 0 <= i < |g|
      ensures after[i] == want[i]
    {
      assert forall j :: 0 <= j < Width(g) ==> after[i][j] == want[i][j];
    }
    forall p ensures p in strong <==> p in StrongPoints(g, high) {
      if p in strong {
        assert p == Point(p.x, p.y);
      }
    }
    forall p ensures p in weak <==> p in WeakPoints(g, high, low) {
      if p in weak {
        assert p == Point(p.x, p.y);
      }
    }
  }

  /**
   * The classification of doublethreshold: a coordinate is strong exactly when its
   * intensity is above `high`, weak exactly when it is strictly between `low` and `high`,
   * never both; an intensity equal to `high` is neither and is blackened, and so is every
   * other unclassified pixel, while opacity is never touched.
   */
  lemma {:induction false} ThresholdClassification(g: seq<seq<GrayPixel>>, high: real, low: real, p: Point)
    requires Rectangular(g) && InGrid(p, |g|, Width(g))
    ensures p in StrongPoints(g, high) <==> g[p.y][p.x].y as real > high
    ensures p in WeakPoints(g, high, low) <==> low < g[p.y][p.x].y as real < high
    ensures !(p in StrongPoints(g, high) && p in WeakPoints(g, high, low))
    ensures g[p.y][p.x].y as real == high ==> p !in StrongPoints(g, high) + WeakPoints(g, high, low)
    ensures var t := Thresholded(g, high, low)[p.y][p.x];
      && t.a == g[p.y][p.x].a
      && (p in StrongPoints(g, high) + WeakPoints(g, high, low) ==> t == g[p.y][p.x])
      && (p !in StrongPoints(g, high) + WeakPoints(g, high, low) ==> t.y == 0)
  {
    assert |g[p.y]| == Width(g);
    if g[p.y][p.x].y as real > high {
      assert Point(p.x, p.y) in StrongPoints(g, high);
    }
    if low < g[p.y][p.x].y as real < high {
      assert Point(p.x, p.y) in WeakPoints(g, high, low);
    }
  }

  /** The strong and weak sets hold only coordinates inside the grid. */
  lemma ThresholdSetsInGrid(g: seq<seq<GrayPixel>>, high: real, low: real)
    requires Rectangular(g)
    ensures forall p :: p in StrongPoints(g, high) + WeakPoints(g, high, low) ==> InGrid(p, |g|, Width(g))
  {
  }

  /**
   * The coordinates getAdjacentPixels adds, read off its loops: rows from max(0, y-1)
   * up to but excluding min(height, y+1), columns likewise, both different from the centre.
   */
  function Adjacent(height: int, width: int, x: int, y: int): set<Point>
  {
    set i, j | (if y - 1 > 0 then y - 1 else 0) <= i < (if height < y + 1 then height else y + 1)
            && (if x - 1 > 0 then x - 1 else 0) <= j < (if width < x + 1 then width else x + 1)
            && i != y && j != x :: Point(j, i)
  }

  /** getAdjacentPixels over a grid of `height` rows and `width` columns. */
  method AdjacentPixels(height: int, width: int, x: int, y: int) returns (result: set<Point>)
    ensures result == Adjacent(height, width, x, y)
  {
    result := {};
    var minX := if x - 1 > 0 then x - 1 else 0;
    var minY := if y - 1 > 0 then y - 1 else 0;
    var maxX := if width < x + 1 then width else x + 1;
    var maxY := if height < y + 1 then height else y + 1;
    var i := minY;
    while i < maxY
      invariant forall p :: p in result <==> p in Adjacent(height, width, x, y) && p.y < i
    {
      var j := minX;
      while j < maxX
        invariant forall p :: p in result <==> p in Adjacent(height, width, x, y) && (p.y < i || (p.y == i && p.x < j))
      {
        if i != y && j != x {
          result := result + {Point(j, i)};
        }
        j := j + 1;
      }
      i := i + 1;
    }
  }

  /** The eight neighbours of (x, y) that lie inside the grid, as the doc comment of getAdjacentPixels describes them. */
  function Neighbours8(height: int, width: int, x: int, y: int): set<Point>
  {
    set i, j | y - 1 <= i <= y + 1 && x - 1 <= j <= x + 1 && (i, j) != (y, x) && 0 <= i < height && 0 <= j < width :: Point(j, i)
  }

  /**
   * getAdjacentPixels returns at most one coordinate, the upper-left diagonal
   * neighbour, and only when it exists; the other neighbours are never returned.
   */
  lemma AdjacentIsUpperLeftOnly(height: int, width: int, x: int, y: int)
    requires InGrid(Point(x, y), height, width)
    ensures Adjacent(height, width, x, y) == if x >= 1 && y >= 1 then {Point(x - 1, y - 1)} else {}
    ensures Adjacent(height, width, x, y) <= Neighbours8(height, width, x, y)
  {
    if x >= 1 && y >= 1 {
      assert Point(x - 1, y - 1) in Adjacent(height, width, x, y);
      assert Point(x - 1, y - 1) in Neighbours8(height, width, x, y);
    }
  }

  /** The corner (0, 0) of a grid of at least 2 x 2 has three neighbours, but getAdjacentPixels returns none. */
  lemma CornerHasNoAdjacentPixels(height: int, width: int)
    requires height >= 2 && width >= 2
    ensures Adjacent(height, width, 0, 0) == {}
    ensures Neighbours8(height, width, 0, 0) == {Point(1, 0), Point(0, 1), Point(1, 1)}
  {
    AdjacentIsUpperLeftOnly(height, width, 0, 0);
    var n := Neighbours8(height, width, 0, 0);
    assert Point(1, 0) in n && Point(0, 1) in n && Point(1, 1) in n;
    forall p | p in n ensures p == Point(1, 0) || p == Point(0, 1) || p == Point(1, 1) {
    }
  }

  /** One step of edgeTracking: the visited weak coordinate joins `strong` if one of its adjacent pixels is in it. */
  function TrackStep(height: int, width: int, strong: set<Point>, p: Point): set<Point>
  {
    if Adjacent(height, width, p.x, p.y) * strong != {} then strong + {p} else strong
  }

  /** The strong set after edgeTracking has visited the weak coordinates in `order`. */
  function Track(height: int, width: int, strong: set<Point>, order: seq<Point>): set<Point>
  {
    if |order| == 0 then strong
    else TrackStep(height, width, Track(height, width, strong, order[..|order| - 1]), order[|order| - 1])
  }

  /** No coordinate occurs twice. */
  predicate Distinct(s: seq<Point>)
  {
    forall i, j :: 0 <= i < j < |s| ==> s[i] != s[j]
  }

  /**
   * edgeTracking: visits the weak coordinates in some order (the set's iteration order,
   * returned as `order`), adds each to the strong set when one of its adjacent pixels is
   * strong at that moment, and blackens every weak pixel in place.
   */
  method EdgeTracking(pixels: array2<GrayPixel>, strong: set<Point>, weak: set<Point>)
    returns (strongOut: set<Point>, ghost order: seq<Point>)
    requires forall p :: p in weak ==> InGrid(p, pixels.Length0, pixels.Length1)
    modifies pixels
    ensures Distinct(order) && |order| == |weak| && forall p :: p in weak <==> p in order
    ensures strongOut == Track(pixels.Length0, pixels.Length1, strong, order)
    ensures forall y, x :: 0 <= y < pixels.Length0 && 0 <= x < pixels.Length1 ==>
      pixels[y, x] == if Point(x, y) in weak then old(pixels[y, x]).(y := 0) else old(pixels[y, x])
  {
    strongOut := strong;
    order := [];
    var remaining := weak;
    while remaining != {}
      invariant remaining <= weak
      invariant Distinct(order) && |order| + |remaining| == |weak|
      invariant forall p :: p in weak <==> p in order || p in remaining
      invariant forall p :: p in order ==> p !in remaining
      invariant strongOut == Track(pixels.Length0, pixels.Length1, strong, order)
      invariant forall y, x :: 0 <= y < pixels.Length0 && 0 <= x < pixels.Length1 ==>
        pixels[y, x] == if Point(x, y) in order then old(pixels[y, x]).(y := 0) else old(pixels[y, x])
      decreases remaining
    {
      var weakPoint :| weakPoint in remaining;
      var neighbours := AdjacentPixels(pixels.Length0, pixels.Length1, weakPoint.x, weakPoint.y);
      if strongOut * neighbours != {} {
        strongOut := strongOut + {weakPoint};
      }
      var x, y := weakPoint.x, weakPoint.y;
      pixels[y, x] := pixels[y, x].(y := 0);
      assert (order + [weakPoint])[..|order|] == order;
      order := order + [weakPoint];
      remaining := remaining - {weakPoint};
    }
  }

  /** edgeTracking only adds: it keeps every strong coordinate and adds only visited ones. */
  lemma {:induction false} TrackBounds(height: int, width: int, strong: set<Point>, order: seq<Point>)
    ensures strong <= Track(height, width, strong, order)
    ensures forall p :: p in Track(height, width, strong, order) ==> p in strong || p in order
  {
    if |order| > 0 {
      TrackBounds(height, width, strong, order[..|order| - 1]);
    }
  }

  /**
   * A visited coordinate that was not strong before ends up strong exactly when one of
   * its adjacent pixels was strong at the moment it was visited.
   */
  lemma {:induction false} TrackPromotion(height: int, width: int, strong: set<Point>, order: seq<Point>, k: nat)
    requires Distinct(order) && k < |order| && order[k] !in strong
    ensures order[k] in Track(height, width, strong, order) <==>
      Adjacent(height, width, order[k].x, order[k].y) * Track(height, width, strong, order[..k]) != {}
  {
    var n := |order| - 1;
    if k == n {
      assert order[..|order| - 1] == order[..k];
      TrackBounds(height, width, strong, order[..k]);
      assert order[k] !in order[..k];
    } else {
      assert order[..n][k] == order[k] && order[..n][..k] == order[..k];
      assert Distinct(order[..n]);
      TrackPromotion(height, width, strong, order[..n], k);
    }
  }

  /**
   * The result of edgeTracking depends on the visiting order: with (0, 0) strong and
   * (1, 1), (2, 2) weak, (2, 2) is promoted when (1, 1) is visited first and not otherwise.
   * A promoted weak coordinate can therefore promote another one in the same pass.
   */
  lemma TrackDependsOnOrder()
    ensures Point(2, 2) in Track(3, 3, {Point(0, 0)}, [Point(1, 1), Point(2, 2)])
    ensures Point(2, 2) !in Track(3, 3, {Point(0, 0)}, [Point(2, 2), Point(1, 1)])
  {
    AdjacentIsUpperLeftOnly(3, 3, 1, 1);
    AdjacentIsUpperLeftOnly(3, 3, 2, 2);
    var first := [Point(1, 1), Point(2, 2)];
    assert first[..1] == [Point(1, 1)] && first[..1][..0] == [];
    var second := [Point(2, 2), Point(1, 1)];
    assert second[..1] == [Point(2, 2)] && second[..1][..0] == [];
  }

  /**
   * doublethreshold followed by the blackening of every weak pixel in edgeTracking
   * leaves a pixel's intensity exactly when it is above the high threshold, whether or
   * not edge tracking promotes it; opacity is unchanged.
   */
  lemma WeakPixelsEndBlack(g: seq<seq<GrayPixel>>, high: real, low: real, p: Point)
    requires Rectangular(g) && InGrid(p, |g|, Width(g))
    ensures var t := Thresholded(g, high, low)[p.y][p.x];
      var final := if p in WeakPoints(g, high, low) then t.(y := 0) else t;
      final == if IsStrong(g[p.y][p.x].y, high) then g[p.y][p.x] else g[p.y][p.x].(y := 0)
  {
    ThresholdClassification(g, high, low, p);
  }

  /** A new grid holding `g`. */
  method ToArray(g: seq<seq<GrayPixel>>) returns (a: array2<GrayPixel>)
    requires Rectangular(g)
    ensures fresh(a) && a.Length0 == |g| && a.Length1 == Width(g) && GridOf(a) == g
  {
    a := new GrayPixel[|g|, Width(g)]((y, x) requires 0 <= y < |g| && 0 <= x < Width(g) => g[y][x]);
    ghost var after := GridOf(a);
    forall y | 0 <= y < |g|
      ensures after[y] == g[y]
    {
      assert forall x :: 0 <= x < Width(g) ==> after[y][x] == g[y][x];
    }
  }

  /**
   * What the last three stages leave behind for the grid `g` with maximum intensity
   * `max`: the strong set lies between the strong coordinates and the strong and weak
   * ones, and a pixel keeps its intensity exactly when it is above the high threshold.
   */
  ghost predicate EdgeMap(g: seq<seq<GrayPixel>>, out: array2<GrayPixel>, minRatio: real, maxRatio: real, max: int, strong: set<Point>)
    requires Rectangular(g)
    reads out
  {
    var high, low := maxRatio * max as real, minRatio * max as real;
    && IsMaxIntensity(g, max)
    && out.Length0 == |g| && out.Length1 == Width(g)
    && StrongPoints(g, high) <= strong <= StrongPoints(g, high) + WeakPoints(g, high, low)
    && forall y, x :: 0 <= y < |g| && 0 <= x < Width(g) ==>
         out[y, x] == if IsStrong(g[y][x].y, high) then g[y][x] else g[y][x].(y := 0)
  }

  /**
   * The end of CannyEdgeDetect: thresholds scaled from the maximum intensity, double
   * threshold and edge tracking on one grid. Weak pixels are blackened even when edge
   * tracking promotes them.
   */
  method ThresholdAndTrack(g: seq<seq<GrayPixel>>, minRatio: real, maxRatio: real)
    returns (pixels: array2<GrayPixel>, ghost max: int, ghost strong: set<Point>)
    requires Rectangular(g)
    ensures fresh(pixels) && EdgeMap(g, pixels, minRatio, maxRatio, max, strong)
  {
    var m := MaxPixelValue(g);
    max := m;
    var high := maxRatio * m as real;
    var low := minRatio * m as real;
    pixels := ToArray(g);
    var s, w := DoubleThreshold(pixels, high, low);
    ThresholdSetsInGrid(g, high, low);
    ghost var thresholded: seq<seq<GrayPixel>> := GridOf(pixels);
    ghost var order;
    strong, order := EdgeTracking(pixels, s, w);
    TrackBounds(pixels.Length0, pixels.Length1, s, order);
    forall y, x | 0 <= y < |g| && 0 <= x < Width(g)
      ensures pixels[y, x] == if IsStrong(g[y][x].y, high) then g[y][x] else g[y][x].(y := 0)
    {
      assert pixels[y, x] == if Point(x, y) in w then thresholded[y][x].(y := 0) else thresholded[y][x];
      WeakPixelsEndBlack(g, high, low, Point(x, y));
    }
  }

  /**
   * CannyEdgeDetect from the gradient stage on: non-maximum suppression, then
   * ThresholdAndTrack on the suppressed grid; a failure of the suppression is passed on.
   */
  method EdgeDetectAfterGradient(magnitudes: seq<seq<GrayPixel>>, directions: seq<seq<real>>, minRatio: real, maxRatio: real)
    returns (r: Result<array2<GrayPixel>>, ghost max: int, ghost strong: set<Point>)
    requires Rectangular(magnitudes) && Rectangular(directions)
    ensures r.Err? <==> Gradient.NonMaxSuppressed(magnitudes, directions).Err?
    ensures r.Err? ==> r.error == Gradient.NonMaxSuppressed(magnitudes, directions).error
    ensures r.Ok? ==> fresh(r.value)
    ensures r.Ok? ==> EdgeMap(Gradient.NonMaxSuppressed(magnitudes, directions).value, r.value, minRatio, maxRatio, max, strong)
  {
    var suppressed := Gradient.NonMaximumSuppression(magnitudes, directions);
    if suppressed.Err? {
      return Err(suppressed.error), 0, {};
    }
    var pixels;
    pixels, max, strong := ThresholdAndTrack(suppressed.value, minRatio, maxRatio);
    return Ok(pixels), max, strong;
  }
}
