/**
 * The rectangle selection of segmentacion2/main.cpp: the mouse callback's
 * state (button held, anchor corner p1, moving corner p2), its event
 * transitions, the rectangle derived from the two corners, and
 * `arreglar_bordes`, which is meant to keep that rectangle inside the image.
 */
module Selection {
  import opened Ints

  datatype Point = Point(x: int, y: int)

  /** cv::Rect: top-left corner and extent. */
  datatype Rect = Rect(x: int, y: int, width: int, height: int)

  datatype MouseEvent = LButtonDown | LButtonUp | MouseMove | OtherEvent

  /** One call of the callback: the event and the cursor position. */
  datatype Input = Input(event: MouseEvent, x: int, y: int)

  /** The globals `clicked`, `p1` and `p2`. */
  datatype MouseState = MouseState(clicked: bool, p1: Point, p2: Point)

  const Initial: MouseState := MouseState(false, Point(0, 0), Point(0, 0))

  /** The `switch` of the callback. */
  function Step(s: MouseState, e: MouseEvent, x: int, y: int): (t: MouseState)
    ensures t.clicked <==> e == LButtonDown || (s.clicked && e != LButtonUp)
    ensures t.p1 != s.p1 ==> e == LButtonDown
    ensures t.p2 != s.p2 ==> t.p2 == Point(x, y)
    ensures e == OtherEvent || (e == MouseMove && !s.clicked) ==> t == s
  {
    match e
    case LButtonDown => MouseState(true, Point(x, y), Point(x, y))
    case LButtonUp => MouseState(false, s.p1, Point(x, y))
    case MouseMove => if s.clicked then s.(p2 := Point(x, y)) else s
    case OtherEvent => s
  }

  /** The rectangle derived from the two corners after every event. */
  function Normalize(p1: Point, p2: Point): (r: Rect)
    ensures r.x == Min(p1.x, p2.x) && r.width == Abs(p1.x - p2.x) && r.width >= 0
    ensures r.y == Min(p1.y, p2.y) && r.height == Abs(p1.y - p2.y) && r.height >= 0
    ensures r.x <= p1.x <= r.x + r.width && r.x <= p2.x <= r.x + r.width
    ensures r.y <= p1.y <= r.y + r.height && r.y <= p2.y <= r.y + r.height
  {
    var x := if p1.x > p2.x then p2.x else p1.x;
    var w := if p1.x > p2.x then p1.x - p2.x else p2.x - p1.x;
    var y := if p1.y > p2.y then p2.y else p1.y;
    var h := if p1.y > p2.y then p1.y - p2.y else p2.y - p1.y;
    Rect(x, y, w, h)
  }

  /** The rectangle does not depend on which corner is the anchor. */
  lemma NormalizeSymmetric(p1: Point, p2: Point)
    ensures Normalize(p1, p2) == Normalize(p2, p1)
  {
  }

  /** Pressing the button starts an empty selection at the cursor. */
  lemma ButtonDownStartsEmptySelection(s: MouseState, x: int, y: int)
    ensures var t := Step(s, LButtonDown, x, y);
      t.clicked && t.p1 == Point(x, y) && Normalize(t.p1, t.p2) == Rect(x, y, 0, 0)
  {
  }

  /** Releasing the button fixes the moving corner and keeps the anchor. */
  lemma ButtonUpFixesCorner(s: MouseState, x: int, y: int)
    ensures var t := Step(s, LButtonUp, x, y);
      !t.clicked && t.p1 == s.p1 && t.p2 == Point(x, y)
  {
  }

  /** Replaying the callback over a trace of inputs. The anchor only ever
      moves to where the button was pressed. */
  function Run(s: MouseState, inputs: seq<Input>): (t: MouseState)
    ensures t.p1 == s.p1 ||
      exists i :: 0 <= i < |inputs| && inputs[i].event == LButtonDown && t.p1 == Point(inputs[i].x, inputs[i].y)
    decreases |inputs|
  {
    if |inputs| == 0 then s
    else Run(Step(s, inputs[0].event, inputs[0].x, inputs[0].y), inputs[1..])
  }

  predicate AllMoves(inputs: seq<Input>) {
    forall i :: 0 <= i < |inputs| ==> inputs[i].event == MouseMove
  }

  /** While the button is held, moves only drag the second corner: the
      anchor stays and the corner ends at the last position. */
  lemma {:induction false} DragKeepsAnchor(s: MouseState, moves: seq<Input>)
    requires s.clicked && AllMoves(moves)
    ensures Run(s, moves).clicked && Run(s, moves).p1 == s.p1
    ensures Run(s, moves).p2 == if |moves| == 0 then s.p2 else Point(moves[|moves| - 1].x, moves[|moves| - 1].y)
    decreases |moves|
  {
    if |moves| > 0 {
      DragKeepsAnchor(Step(s, MouseMove, moves[0].x, moves[0].y), moves[1..]);
    }
  }

  /** A press, any drag and a release select the rectangle spanned by the
      press and release positions, from any starting state. */
  lemma DragSelectsSpannedRectangle(s: MouseState, down: Point, moves: seq<Input>, up: Point)
    requires AllMoves(moves)
    ensures var t := Run(s, [Input(LButtonDown, down.x, down.y)] + moves + [Input(LButtonUp, up.x, up.y)]);
      !t.clicked && Normalize(t.p1, t.p2) == Normalize(down, up)
  {
    var pressed := Step(s, LButtonDown, down.x, down.y);
    DragKeepsAnchor(pressed, moves);
    RunConcat(s, [Input(LButtonDown, down.x, down.y)], moves + [Input(LButtonUp, up.x, up.y)]);
    RunConcat(pressed, moves, [Input(LButtonUp, up.x, up.y)]);
    assert [Input(LButtonDown, down.x, down.y)] + moves + [Input(LButtonUp, up.x, up.y)]
        == [Input(LButtonDown, down.x, down.y)] + (moves + [Input(LButtonUp, up.x, up.y)]);
  }

  lemma {:induction false} RunConcat(s: MouseState, a: seq<Input>, b: seq<Input>)
    ensures Run(s, a + b) == Run(Run(s, a), b)
    decreases |a|
  {
    if |a| > 0 {
      assert (a + b)[0] == a[0] && (a + b)[1..] == a[1..] + b;
      RunConcat(Step(s, a[0].event, a[0].x, a[0].y), a[1..], b);
    } else {
      assert a + b == b;
    }
  }

  /** `arreglar_bordes` as written: width and height are clipped against the
      unclamped corner, and only then is the corner clamped to zero. */
  function ArreglarBordes(r: Rect, cols: int, rows: int): (c: Rect)
    ensures c.width <= r.width && c.height <= r.height
    ensures c.x == Max(r.x, 0) && c.y == Max(r.y, 0)
    ensures r.x >= 0 ==> c.x + c.width <= cols
    ensures r.y >= 0 ==> c.y + c.height <= rows
  {
    var w := if r.width > cols - r.x then cols - r.x else r.width;
    var h := if r.height > rows - r.y then rows - r.y else r.height;
    var x := if r.x < 0 then 0 else r.x;
    var y := if r.y < 0 then 0 else r.y;
    Rect(x, y, w, h)
  }

  /** A drag that starts left of a 100 x 100 image and ends inside it leaves
      a rectangle reaching column 105 after `arreglar_bordes`, where the
      intersection with the image stops at column 95. */
  lemma ArreglarBordesCanLeaveImage()
    ensures var t := Run(Initial, [Input(LButtonDown, -10, 5), Input(LButtonUp, 95, 40)]);
      var r := Normalize(t.p1, t.p2);
      && ArreglarBordes(r, 100, 100) == Rect(0, 5, 105, 35)
      && ArreglarBordes(r, 100, 100).x + ArreglarBordes(r, 100, 100).width > 100
      && ClipToImage(r, 100, 100) == Rect(0, 5, 95, 35)
  {
    var t := Run(Initial, [Input(LButtonDown, -10, 5), Input(LButtonUp, 95, 40)]);
    assert [Input(LButtonDown, -10, 5), Input(LButtonUp, 95, 40)][1..] == [Input(LButtonUp, 95, 40)];
    assert t == MouseState(false, Point(-10, 5), Point(95, 40));
  }

  /** A rectangle starting right of the image gets a negative width. */
  lemma ArreglarBordesCanGoNegative()
    ensures ArreglarBordes(Rect(120, 10, 5, 5), 100, 100).width < 0
  {
  }

  predicate Contains(r: Rect, px: int, py: int) {
    r.x <= px < r.x + r.width && r.y <= py < r.y + r.height
  }

  predicate InImage(px: int, py: int, cols: int, rows: int) {
    0 <= px < cols && 0 <= py < rows
  }

  /** The intended clamp: the rectangle intersected with the image, in the
      manner of `cv::Rect::operator&` (an empty intersection is Rect()). */
  function ClipToImage(r: Rect, cols: nat, rows: nat): (c: Rect)
    ensures 0 <= c.x && 0 <= c.y && 0 <= c.width && 0 <= c.height
    ensures c.x + c.width <= cols && c.y + c.height <= rows
    ensures forall px, py :: Contains(c, px, py) <==> Contains(r, px, py) && InImage(px, py, cols, rows)
  {
    var x1 := Max(r.x, 0);
    var y1 := Max(r.y, 0);
    var w := Min(r.x + r.width, cols) - x1;
    var h := Min(r.y + r.height, rows) - y1;
    if w <= 0 || h <= 0 then Rect(0, 0, 0, 0) else Rect(x1, y1, w, h)
  }

  /** For a non-empty rectangle whose corner lies inside the image, the
      intended clamp and `arreglar_bordes` agree: the code only goes wrong
      for corners outside the image. */
  lemma ClipAgreesWhenCornerInside(r: Rect, cols: nat, rows: nat)
    requires 0 <= r.x < cols && 0 <= r.y < rows && r.width > 0 && r.height > 0
    ensures ClipToImage(r, cols, rows) == ArreglarBordes(r, cols, rows)
  {
  }

  /** With a non-negative corner, `arreglar_bordes` does keep the rectangle
      inside the image, covering exactly its pixels that lie in the image. */
  lemma ArreglarBordesExactWhenCornerNonNegative(r: Rect, cols: int, rows: int)
    ensures var c := ArreglarBordes(r, cols, rows);
      r.x >= 0 && r.y >= 0 && r.width >= 0 && r.height >= 0 ==>
        forall px, py :: Contains(c, px, py) <==> Contains(r, px, py) && InImage(px, py, cols, rows)
  {
  }

  /** The callback as written: apply the event, derive the rectangle from the
      corners, and let `dibujar` pass it through `arreglar_bordes`. The corner
      is never negative, and the rectangle is the selection's part of the
      image only when the selection starts at a non-negative corner. */
  function OnMouse(s: MouseState, input: Input, cols: nat, rows: nat): (result: (MouseState, Rect))
    ensures result.0 == Step(s, input.event, input.x, input.y)
    ensures var n := Normalize(result.0.p1, result.0.p2); var c := result.1;
      && c.x == Max(n.x, 0) && c.y == Max(n.y, 0)
      && c.width <= n.width && c.height <= n.height
    ensures var n := Normalize(result.0.p1, result.0.p2); var c := result.1;
      n.x >= 0 && n.y >= 0 ==>
        && c.x + c.width <= cols && c.y + c.height <= rows
        && forall px, py :: Contains(c, px, py) <==> Contains(n, px, py) && InImage(px, py, cols, rows)
  {
    var t := Step(s, input.event, input.x, input.y);
    var n := Normalize(t.p1, t.p2);
    ArreglarBordesExactWhenCornerNonNegative(n, cols, rows);
    (t, ArreglarBordes(n, cols, rows))
  }

  /** The callback as intended: the drawn rectangle is the selection
      intersected with the image, whatever the corners. */
  function OnMouseIntended(s: MouseState, input: Input, cols: nat, rows: nat): (result: (MouseState, Rect))
    ensures result.0 == Step(s, input.event, input.x, input.y)
    ensures var c := result.1; 0 <= c.x && c.x + c.width <= cols && 0 <= c.y && c.y + c.height <= rows
    ensures forall px, py :: Contains(result.1, px, py) <==>
      Contains(Normalize(result.0.p1, result.0.p2), px, py) && InImage(px, py, cols, rows)
  {
    var t := Step(s, input.event, input.x, input.y);
    (t, ClipToImage(Normalize(t.p1, t.p2), cols, rows))
  }

  /** The release of a drag from (-10, 5) to (95, 40) on a 100 x 100 image:
      the program draws Rect(0, 5, 105, 35), past column 100, where the
      intended callback draws Rect(0, 5, 95, 35). */
  lemma OnMouseCanLeaveImage()
    ensures var pressed := Step(Initial, LButtonDown, -10, 5);
      && OnMouse(pressed, Input(LButtonUp, 95, 40), 100, 100).1 == Rect(0, 5, 105, 35)
      && OnMouseIntended(pressed, Input(LButtonUp, 95, 40), 100, 100).1 == Rect(0, 5, 95, 35)
  {
  }

  /** Once a selection starts at a non-negative corner, the program's
      callback and the intended one draw the same pixels. */
  lemma OnMouseAgreesWithIntended(s: MouseState, input: Input, cols: nat, rows: nat)
    requires var t := Step(s, input.event, input.x, input.y);
      Normalize(t.p1, t.p2).x >= 0 && Normalize(t.p1, t.p2).y >= 0
    ensures var a := OnMouse(s, input, cols, rows).1;
      var b := OnMouseIntended(s, input, cols, rows).1;
      forall px, py :: Contains(a, px, py) <==> Contains(b, px, py)
  {
  }
}
