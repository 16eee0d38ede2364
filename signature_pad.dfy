/** The signature canvas. Mouse input drives a two-state machine held in the
    module-level flag `isDrawing`: mouse-down starts drawing, mouse-move
    draws only while drawing, mouse-up or mouse-out stops. Each draw call
    strokes a line from the canvas path's current point to the new point and
    then restarts the path at the new point. The clear button erases the
    pixels and leaves the flag and the path alone. Touch events are forwarded
    as the corresponding mouse events, so they reach the same three handlers. */
module SignaturePad {
  import opened Common

  /** A point in the canvas's own 400 by 200 coordinate space (already rescaled). */
  datatype Point = Point(x: real, y: real)

  /** One stroked line, as `lineTo` followed by `stroke` paints it. */
  datatype Segment = Segment(from: Point, to: Point)

  /** What one `draw` paints: a line from the path's current point, or nothing
      when the path is empty (`lineTo` on an empty path only moves to the point). */
  function StrokeTo(pen: Option<Point>, p: Point): (r: seq<Segment>)
    ensures |r| <= 1
    ensures r != [] <==> pen.Some?
    ensures r != [] ==> r[0].from == pen.value && r[0].to == p
  {
    match pen
    case None => []
    case Some(q) => [Segment(q, p)]
  }

  /** The lines a gesture through `pts` paints: one between each consecutive pair. */
  function Polyline(pts: seq<Point>): (r: seq<Segment>)
    ensures |r| == if |pts| <= 1 then 0 else |pts| - 1
    ensures forall k :: 0 <= k < |r| ==> r[k] == Segment(pts[k], pts[k + 1])
  {
    if |pts| <= 1 then [] else seq(|pts| - 1, k requires 0 <= k < |pts| - 1 => Segment(pts[k], pts[k + 1]))
  }

  class Pad {
    /** The module-level `isDrawing` flag. */
    var isDrawing: bool
    /** The current point of the 2D context's path, if it has one. */
    var pen: Option<Point>
    /** The lines painted on the canvas since it was last cleared. */
    var ink: seq<Segment>

    /** Drawing and the path having a current point go together. */
    ghost predicate Valid()
      reads this
    {
      isDrawing <==> pen.Some?
    }

    constructor ()
      ensures Valid()
      ensures !isDrawing && pen == None && ink == []
    {
      isDrawing := false;
      pen := None;
      ink := [];
    }

    /** `startDrawing(e)`: sets the flag, then draws at the mouse position. */
    method StartDrawing(p: Point)
      requires Valid()
      modifies this
      ensures Valid()
      ensures isDrawing && pen == Some(p)
      ensures ink == old(ink) + StrokeTo(old(pen), p)
      ensures !old(isDrawing) ==> ink == old(ink)
    {
      isDrawing := true;
      Draw(p);
    }

    /** `draw(e)`: nothing at all unless drawing; otherwise strokes to `p` and moves the path to `p`. */
    method Draw(p: Point)
      modifies this
      ensures old(Valid()) ==> Valid()
      ensures isDrawing == old(isDrawing)
      ensures !old(isDrawing) ==> pen == old(pen) && ink == old(ink)
      ensures old(isDrawing) ==> pen == Some(p) && ink == old(ink) + StrokeTo(old(pen), p)
    {
      if !isDrawing {
        return;
      }
      ink := ink + StrokeTo(pen, p);
      pen := Some(p);
    }

    /** `stopDrawing()`: clears the flag and empties the path; the painted lines stay. */
    method StopDrawing()
      modifies this
      ensures Valid()
      ensures !isDrawing && pen == None && ink == old(ink)
    {
      isDrawing := false;
      pen := None;
    }

    /** The clear button: `clearRect` over the whole canvas. The flag and the path are untouched. */
    method Clear()
      requires Valid()
      modifies this
      ensures Valid()
      ensures ink == [] && isDrawing == old(isDrawing) && pen == old(pen)
    {
      ink := [];
    }

    /** A whole gesture: mouse-down at `pts[0]`, a move to each later point,
        then mouse-up. Started from rest, it paints exactly the polyline
        through its points and leaves the pad at rest. */
    method Gesture(pts: seq<Point>)
      requires Valid() && !isDrawing
      requires |pts| >= 1
      modifies this
      ensures Valid() && !isDrawing
      ensures ink == old(ink) + Polyline(pts)
    {
      StartDrawing(pts[0]);
      var i := 1;
      while i < |pts|
        invariant 1 <= i <= |pts|
        invariant isDrawing && pen == Some(pts[i - 1])
        invariant ink == old(ink) + Polyline(pts[..i])
      {
        Draw(pts[i]);
        assert Polyline(pts[..i + 1]) == Polyline(pts[..i]) + [Segment(pts[i - 1], pts[i])];
        i := i + 1;
      }
      assert pts[..i] == pts;
      StopDrawing();
    }
  }
}
