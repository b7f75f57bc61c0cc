/** The marker editing of the pill counter: a click on the canvas removes the
    first marker within the click radius, or else adds a marker where the
    click landed. The displayed count is the number of markers. */
module PillCounter {
  import opened ImageProcessingService

  /** A marker is hit when the click lies strictly inside radius 20 of it.
      The distance is compared squared: sqrt(d) < 20 exactly when d < 400,
      for d >= 0. */
  function Near(p: Point, x: real, y: real): (r: bool)
    ensures r ==> -20.0 < p.x - x < 20.0 && -20.0 < p.y - y < 20.0
    ensures p.x == x && p.y == y ==> r
  {
    SquareBelow(p.x - x, p.y - y);
    SquareBelow(p.y - y, p.x - x);
    (p.x - x) * (p.x - x) + (p.y - y) * (p.y - y) < 400.0
  }

  /** A squared distance under 400 keeps each offset under 20. */
  lemma SquareBelow(a: real, b: real)
    ensures a * a + b * b < 400.0 ==> -20.0 < a < 20.0
  {
    assert b * b >= 0.0;
    if a >= 20.0 {
      assert a * a >= 20.0 * a >= 400.0;
    } else if a <= -20.0 {
      assert a * a >= -20.0 * a >= 400.0;
    }
  }

  /** The index of the first marker hit by the click, or -1 if none is. */
  function FindNear(points: seq<Point>, x: real, y: real): (r: int)
    ensures -1 <= r < |points|
    ensures r >= 0 ==> Near(points[r], x, y) && forall j :: 0 <= j < r ==> !Near(points[j], x, y)
    ensures r == -1 <==> forall j :: 0 <= j < |points| ==> !Near(points[j], x, y)
  {
    if |points| == 0 then -1
    else if Near(points[0], x, y) then 0
    else
      var r := FindNear(points[1..], x, y);
      if r < 0 then -1 else r + 1
  }

  /** The marker list after a click at (x, y) in canvas coordinates. */
  function ToggleMarker(points: seq<Point>, x: real, y: real): (r: seq<Point>)
    ensures FindNear(points, x, y) >= 0 ==>
      var k := FindNear(points, x, y);
      |r| == |points| - 1 && r[..k] == points[..k] && r[k..] == points[k + 1..]
    ensures FindNear(points, x, y) == -1 ==> r == points + [Point(x, y)]
  {
    var k := FindNear(points, x, y);
    if k >= 0 then points[..k] + points[k + 1..] else points + [Point(x, y)]
  }

  /** Where a click lands on the canvas: its offset inside the element,
      scaled from the element's displayed size to the canvas's own size. */
  function ClickPosition(clientX: real, clientY: real, left: real, top: real,
                         canvasWidth: real, canvasHeight: real,
                         rectWidth: real, rectHeight: real): (r: (real, real))
    requires rectWidth != 0.0 && rectHeight != 0.0
    ensures r.0 * rectWidth == (clientX - left) * canvasWidth
    ensures r.1 * rectHeight == (clientY - top) * canvasHeight
  {
    var scaleX := canvasWidth / rectWidth;
    var scaleY := canvasHeight / rectHeight;
    ((clientX - left) * scaleX, (clientY - top) * scaleY)
  }

  class PillCounter {
    var points: seq<Point>

    constructor()
      ensures points == []
    {
      points := [];
    }

    /** A newly loaded image starts with no markers. */
    method HandleImageLoaded()
      modifies this
      ensures points == []
    {
      points := [];
    }

    /** A click at client coordinates on the canvas element, which sits at
        (left, top) and is displayed rectWidth by rectHeight. */
    method HandleCanvasClick(clientX: real, clientY: real, left: real, top: real,
                             canvasWidth: real, canvasHeight: real,
                             rectWidth: real, rectHeight: real)
      requires rectWidth != 0.0 && rectHeight != 0.0
      modifies this
      ensures var (x, y) := ClickPosition(clientX, clientY, left, top, canvasWidth, canvasHeight, rectWidth, rectHeight);
        points == ToggleMarker(old(points), x, y)
    {
      var (x, y) := ClickPosition(clientX, clientY, left, top, canvasWidth, canvasHeight, rectWidth, rectHeight);
      var existingPointIndex := FindNear(points, x, y);
      if existingPointIndex >= 0 {
        var newPoints := points;
        newPoints := newPoints[..existingPointIndex] + newPoints[existingPointIndex + 1..];
        points := newPoints;
      } else {
        points := points + [Point(x, y)];
      }
    }
  }

  // ---------------------------------------------------------------------------
  // Properties of a click

  /** When some marker is hit, the first one hit is the one removed and the
      others keep their order. */
  lemma ToggleRemovesFirstNear(points: seq<Point>, x: real, y: real, k: nat)
    requires k < |points| && Near(points[k], x, y)
    requires forall j :: 0 <= j < k ==> !Near(points[j], x, y)
    ensures ToggleMarker(points, x, y) == points[..k] + points[k + 1..]
  {
    var r := ToggleMarker(points, x, y);
    assert FindNear(points, x, y) == k;
    assert r == r[..k] + r[k..];
  }

  /** When no marker is hit, the click is appended and the rest is kept. */
  lemma ToggleAppendsWhenClear(points: seq<Point>, x: real, y: real)
    requires forall j :: 0 <= j < |points| ==> !Near(points[j], x, y)
    ensures ToggleMarker(points, x, y) == points + [Point(x, y)]
  {
  }

  /** Every click changes the count by exactly one. */
  lemma ToggleChangesCount(points: seq<Point>, x: real, y: real)
    ensures |ToggleMarker(points, x, y)| == |points| + 1
         || |ToggleMarker(points, x, y)| == |points| - 1
  {
  }

  /** A click that adds a marker, repeated at the same spot, takes it away
      again: the new marker is hit and no earlier one is. */
  lemma ToggleTwiceRestores(points: seq<Point>, x: real, y: real)
    requires forall j :: 0 <= j < |points| ==> !Near(points[j], x, y)
    ensures ToggleMarker(ToggleMarker(points, x, y), x, y) == points
  {
    var added := points + [Point(x, y)];
    assert Near(added[|points|], x, y);
    ToggleRemovesFirstNear(added, x, y, |points|);
    assert added[..|points|] == points;
  }

  /** A click that removes the only marker near it, repeated at the same
      point, puts a marker at the click point at the end of the list in
      place of the removed one. */
  lemma ToggleTwiceReplaces(points: seq<Point>, x: real, y: real, k: nat)
    requires k < |points| && Near(points[k], x, y)
    requires forall j :: 0 <= j < |points| && j != k ==> !Near(points[j], x, y)
    ensures ToggleMarker(ToggleMarker(points, x, y), x, y)
         == points[..k] + points[k + 1..] + [Point(x, y)]
  {
    ToggleRemovesFirstNear(points, x, y, k);
    var removed := points[..k] + points[k + 1..];
    forall j | 0 <= j < |removed|
      ensures !Near(removed[j], x, y)
    {
      if j < k {
        assert removed[j] == points[j];
      } else {
        assert removed[j] == points[j + 1];
      }
    }
  }

  /** The click position scaled back to the element gives the client
      coordinates again. */
  lemma ClickPositionInverse(clientX: real, clientY: real, left: real, top: real,
                             canvasWidth: real, canvasHeight: real,
                             rectWidth: real, rectHeight: real)
    requires rectWidth != 0.0 && rectHeight != 0.0
    requires canvasWidth != 0.0 && canvasHeight != 0.0
    ensures var (x, y) := ClickPosition(clientX, clientY, left, top, canvasWidth, canvasHeight, rectWidth, rectHeight);
      left + x * (rectWidth / canvasWidth) == clientX && top + y * (rectHeight / canvasHeight) == clientY
  {
    var (x, y) := ClickPosition(clientX, clientY, left, top, canvasWidth, canvasHeight, rectWidth, rectHeight);
    assert x * (rectWidth / canvasWidth) == (x * rectWidth) / canvasWidth;
    assert y * (rectHeight / canvasHeight) == (y * rectHeight) / canvasHeight;
  }
}
