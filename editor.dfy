/**
 * The frame editor: mapping a pointer position on the displayed canvas to the
 * canvas's internal pixel grid, the freehand stroke captured between
 * mouse-down and mouse-up, the display-to-video scale factors, and the
 * half-second tolerance when syncing the video element to the shared time.
 */
module Editor {
  import opened Wrappers
  import opened Types

  /** A bounding client rectangle: where the element is drawn, in CSS pixels. */
  datatype Rect = Rect(left: real, top: real, width: real, height: real)

  /** The element's default intrinsic size before it is sized to the video (HTML canvas default). */
  const DefaultCanvasWidth: real := 300.0
  const DefaultCanvasHeight: real := 150.0

  /** The largest drift between the video element and the shared time that is left alone. */
  const SyncTolerance: real := 0.5

  // ---------------------------------------------------------------------------
  // Coordinate mapping
  // ---------------------------------------------------------------------------

  /**
   * `getCanvasCoordinates`: the offset inside the displayed rectangle, stretched
   * by the ratio of internal size to displayed size on each axis. The left/top
   * edges land on 0 and the right/bottom edges on the internal width/height.
   */
  function CanvasCoordinates(clientX: real, clientY: real, rect: Rect, canvasWidth: real, canvasHeight: real): (p: Point)
    requires rect.width > 0.0 && rect.height > 0.0
    ensures p.x * rect.width == (clientX - rect.left) * canvasWidth
    ensures p.y * rect.height == (clientY - rect.top) * canvasHeight
    ensures clientX == rect.left ==> p.x == 0.0
    ensures clientY == rect.top ==> p.y == 0.0
    ensures clientX == rect.left + rect.width ==> p.x == canvasWidth
    ensures clientY == rect.top + rect.height ==> p.y == canvasHeight
  {
    var relativeX := clientX - rect.left;
    var relativeY := clientY - rect.top;
    Point(relativeX * (canvasWidth / rect.width), relativeY * (canvasHeight / rect.height))
  }

  /** Where a point of the internal grid is shown on screen: the inverse of `CanvasCoordinates`. */
  function ScreenPosition(p: Point, rect: Rect, canvasWidth: real, canvasHeight: real): (q: Point)
    requires canvasWidth > 0.0 && canvasHeight > 0.0
  {
    Point(rect.left + p.x * (rect.width / canvasWidth), rect.top + p.y * (rect.height / canvasHeight))
  }

  /** Pointing at where a canvas point is shown recovers that point. */
  lemma CanvasOfScreen(p: Point, rect: Rect, canvasWidth: real, canvasHeight: real)
    requires rect.width > 0.0 && rect.height > 0.0 && canvasWidth > 0.0 && canvasHeight > 0.0
    ensures var q := ScreenPosition(p, rect, canvasWidth, canvasHeight);
            CanvasCoordinates(q.x, q.y, rect, canvasWidth, canvasHeight) == p
  {
    var q := ScreenPosition(p, rect, canvasWidth, canvasHeight);
    var r := CanvasCoordinates(q.x, q.y, rect, canvasWidth, canvasHeight);
    assert q.x - rect.left == p.x * (rect.width / canvasWidth);
    assert r.x == p.x * (rect.width / canvasWidth) * (canvasWidth / rect.width);
    assert (rect.width / canvasWidth) * (canvasWidth / rect.width) == 1.0;
    assert q.y - rect.top == p.y * (rect.height / canvasHeight);
    assert r.y == p.y * (rect.height / canvasHeight) * (canvasHeight / rect.height);
    assert (rect.height / canvasHeight) * (canvasHeight / rect.height) == 1.0;
  }

  /** Showing the mapped point of a pointer position gives back that position. */
  lemma ScreenOfCanvas(clientX: real, clientY: real, rect: Rect, canvasWidth: real, canvasHeight: real)
    requires rect.width > 0.0 && rect.height > 0.0 && canvasWidth > 0.0 && canvasHeight > 0.0
    ensures var p := CanvasCoordinates(clientX, clientY, rect, canvasWidth, canvasHeight);
            ScreenPosition(p, rect, canvasWidth, canvasHeight) == Point(clientX, clientY)
  {
    var p := CanvasCoordinates(clientX, clientY, rect, canvasWidth, canvasHeight);
    assert p.x * (rect.width / canvasWidth) == (clientX - rect.left) * (canvasWidth / rect.width) * (rect.width / canvasWidth);
    assert (canvasWidth / rect.width) * (rect.width / canvasWidth) == 1.0;
    assert p.y * (rect.height / canvasHeight) == (clientY - rect.top) * (canvasHeight / rect.height) * (rect.height / canvasHeight);
    assert (canvasHeight / rect.height) * (rect.height / canvasHeight) == 1.0;
  }

  /** The centre of the displayed rectangle is the centre of the internal grid, at any display size. */
  lemma CentreMapsToCentre(rect: Rect, canvasWidth: real, canvasHeight: real)
    requires rect.width > 0.0 && rect.height > 0.0
    ensures CanvasCoordinates(rect.left + rect.width / 2.0, rect.top + rect.height / 2.0, rect, canvasWidth, canvasHeight)
            == Point(canvasWidth / 2.0, canvasHeight / 2.0)
  {
    var p := CanvasCoordinates(rect.left + rect.width / 2.0, rect.top + rect.height / 2.0, rect, canvasWidth, canvasHeight);
    assert p.x * rect.width == (rect.width / 2.0) * canvasWidth;
    assert p.y * rect.height == (rect.height / 2.0) * canvasHeight;
  }

  /** A 1920x1080 video shown at 320x180 or at full size: the centre click lands on (960, 540). */
  lemma CentreExamples(left: real, top: real)
    ensures CanvasCoordinates(left + 160.0, top + 90.0, Rect(left, top, 320.0, 180.0), 1920.0, 1080.0) == Point(960.0, 540.0)
    ensures CanvasCoordinates(left + 960.0, top + 540.0, Rect(left, top, 1920.0, 1080.0), 1920.0, 1080.0) == Point(960.0, 540.0)
  {
    CentreMapsToCentre(Rect(left, top, 320.0, 180.0), 1920.0, 1080.0);
    CentreMapsToCentre(Rect(left, top, 1920.0, 1080.0), 1920.0, 1080.0);
  }

  // ---------------------------------------------------------------------------
  // Scale factors and video sync
  // ---------------------------------------------------------------------------

  /**
   * `updateCanvasScale`: video pixels per displayed pixel on each axis, adopted
   * only when the video and its display box both have non-zero sizes.
   */
  function ScaleFor(previous: Point, videoWidth: nat, videoHeight: nat, displayWidth: nat, displayHeight: nat): (s: Point)
    ensures videoWidth == 0 || videoHeight == 0 || displayWidth == 0 || displayHeight == 0 ==> s == previous
    ensures videoWidth != 0 && videoHeight != 0 && displayWidth != 0 && displayHeight != 0 ==>
              s.x * displayWidth as real == videoWidth as real && s.y * displayHeight as real == videoHeight as real
  {
    if videoWidth != 0 && videoHeight != 0 && displayWidth != 0 && displayHeight != 0
    then Point(videoWidth as real / displayWidth as real, videoHeight as real / displayHeight as real)
    else previous
  }

  /** A video shown at its own size has scale 1 on both axes. */
  lemma UnscaledDisplay(previous: Point, width: nat, height: nat)
    requires width > 0 && height > 0
    ensures ScaleFor(previous, width, height, width, height) == Point(1.0, 1.0)
  {
  }

  function Abs(x: real): real {
    if x < 0.0 then -x else x
  }

  /**
   * The video position after the sync effect: overwritten with the shared time
   * only when the two differ by more than half a second.
   */
  function SyncedPosition(videoTime: real, currentTime: real): (r: real)
    ensures Abs(r - currentTime) <= SyncTolerance
    ensures Abs(videoTime - currentTime) <= SyncTolerance ==> r == videoTime
    ensures Abs(videoTime - currentTime) > SyncTolerance ==> r == currentTime
  {
    if Abs(videoTime - currentTime) > SyncTolerance then currentTime else videoTime
  }

  /** Syncing twice to the same time changes nothing the second time. */
  lemma SyncIdempotent(videoTime: real, currentTime: real)
    ensures SyncedPosition(SyncedPosition(videoTime, currentTime), currentTime) == SyncedPosition(videoTime, currentTime)
  {
  }

  // ---------------------------------------------------------------------------
  // The component's mutable state
  // ---------------------------------------------------------------------------

  /**
   * One mounted editor: the drawing flag and point buffer kept in refs, the
   * scale state, the canvas's internal size and the video element's position.
   * `strokeStart` records, for the proof only, the point the current stroke began at.
   */
  class EditorView {
    var isDrawing: bool
    var points: seq<Point>
    var canvasScale: Point
    var canvasWidth: real
    var canvasHeight: real
    var videoTime: real
    ghost var strokeStart: Point

    /** While a stroke is in progress the buffer holds its mouse-down point first. */
    ghost predicate Valid()
      reads this
    {
      isDrawing ==> |points| >= 1 && points[0] == strokeStart
    }

    constructor ()
      ensures Valid()
      ensures !isDrawing && points == [] && canvasScale == Point(1.0, 1.0)
      ensures canvasWidth == DefaultCanvasWidth && canvasHeight == DefaultCanvasHeight && videoTime == 0.0
    {
      isDrawing := false;
      points := [];
      canvasScale := Point(1.0, 1.0);
      canvasWidth := DefaultCanvasWidth;
      canvasHeight := DefaultCanvasHeight;
      videoTime := 0.0;
      strokeStart := Point(0.0, 0.0);
    }

    /** `setCanvasSize`: the internal grid takes the video's own dimensions. */
    method SetCanvasSize(videoWidth: nat, videoHeight: nat)
      requires Valid()
      modifies this`canvasWidth, this`canvasHeight
      ensures Valid()
      ensures canvasWidth == videoWidth as real && canvasHeight == videoHeight as real
    {
      canvasWidth := videoWidth as real;
      canvasHeight := videoHeight as real;
    }

    /** `handleMouseDown`: start a stroke holding only the mapped pointer position. */
    method MouseDown(clientX: real, clientY: real, rect: Rect)
      requires Valid() && rect.width > 0.0 && rect.height > 0.0
      modifies this`isDrawing, this`points, this`strokeStart
      ensures Valid()
      ensures isDrawing
      ensures points == [CanvasCoordinates(clientX, clientY, rect, canvasWidth, canvasHeight)]
      ensures strokeStart == points[0]
    {
      isDrawing := true;
      var p := CanvasCoordinates(clientX, clientY, rect, canvasWidth, canvasHeight);
      points := [p];
      strokeStart := p;
    }

    /** `handleMouseMove`: while drawing, append exactly one mapped point; otherwise nothing. */
    method MouseMove(clientX: real, clientY: real, rect: Rect)
      requires Valid() && rect.width > 0.0 && rect.height > 0.0
      modifies this`points
      ensures Valid()
      ensures old(isDrawing) ==> points == old(points) + [CanvasCoordinates(clientX, clientY, rect, canvasWidth, canvasHeight)]
      ensures !old(isDrawing) ==> points == old(points)
    {
      if !isDrawing {
        return;
      }
      var p := CanvasCoordinates(clientX, clientY, rect, canvasWidth, canvasHeight);
      points := points + [p];
    }

    /**
     * `handleMouseUp` (also bound to mouse-leave): a stroke in progress ends and
     * its points are emitted once, beginning with the mouse-down point; with no
     * stroke in progress nothing is emitted and nothing changes.
     */
    method MouseUp() returns (emitted: Option<seq<Point>>)
      requires Valid()
      modifies this`isDrawing
      ensures Valid()
      ensures !isDrawing
      ensures old(isDrawing) ==> emitted == Some(points) && |points| >= 1 && points[0] == strokeStart
      ensures !old(isDrawing) ==> emitted == None
    {
      if isDrawing {
        isDrawing := false;
        emitted := Some(points);
      } else {
        emitted := None;
      }
    }

    /** `updateCanvasScale` for the measured video and display sizes. */
    method UpdateCanvasScale(videoWidth: nat, videoHeight: nat, displayWidth: nat, displayHeight: nat)
      requires Valid()
      modifies this`canvasScale
      ensures Valid()
      ensures canvasScale == ScaleFor(old(canvasScale), videoWidth, videoHeight, displayWidth, displayHeight)
    {
      if videoWidth != 0 && videoHeight != 0 && displayWidth != 0 && displayHeight != 0 {
        canvasScale := Point(videoWidth as real / displayWidth as real, videoHeight as real / displayHeight as real);
      }
    }

    /** The sync effect for a new shared time. */
    method SyncVideo(currentTime: real)
      requires Valid()
      modifies this`videoTime
      ensures Valid()
      ensures videoTime == SyncedPosition(old(videoTime), currentTime)
    {
      if Abs(videoTime - currentTime) > SyncTolerance {
        videoTime := currentTime;
      }
    }
  }

  /**
   * A full gesture: mouse-down, two moves and mouse-up emit exactly the three
   * mapped points in drawing order.
   */
  method StrokeExample(rect: Rect, x0: real, y0: real, x1: real, y1: real, x2: real, y2: real)
    returns (emitted: Option<seq<Point>>)
    requires rect.width > 0.0 && rect.height > 0.0
    ensures emitted == Some([CanvasCoordinates(x0, y0, rect, DefaultCanvasWidth, DefaultCanvasHeight),
                             CanvasCoordinates(x1, y1, rect, DefaultCanvasWidth, DefaultCanvasHeight),
                             CanvasCoordinates(x2, y2, rect, DefaultCanvasWidth, DefaultCanvasHeight)])
  {
    var view := new EditorView();
    ghost var p0 := CanvasCoordinates(x0, y0, rect, DefaultCanvasWidth, DefaultCanvasHeight);
    ghost var p1 := CanvasCoordinates(x1, y1, rect, DefaultCanvasWidth, DefaultCanvasHeight);
    ghost var p2 := CanvasCoordinates(x2, y2, rect, DefaultCanvasWidth, DefaultCanvasHeight);
    view.MouseDown(x0, y0, rect);
    assert view.points == [p0] && view.isDrawing;
    view.MouseMove(x1, y1, rect);
    assert view.points == [p0, p1];
    view.MouseMove(x2, y2, rect);
    assert view.points == [p0, p1, p2];
    emitted := view.MouseUp();
  }
}
