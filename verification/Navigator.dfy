/** The drag state machine of the navigator and scrollbar. */
module Navigator {
  import opened Wrappers
  import opened Reals

  /** Numbers from the first of these to below the second are written without an exponent, and so is
      zero (section 9.8.1 of ECMA-262 edition 5.1). */
  const LEAST_PLAIN := 0.000001
  const LEAST_LARGE := 1_000_000_000_000_000_000_000

  function RaisedDigit(v: real): (d: int)
    requires 0.0 < v < 10.0
    ensures 1 <= d <= 9
    decreases 10.0 / v
  {
    if v >= 1.0 then v.Floor
    else
      Raised(v);
      RaisedDigit(10.0 * v)
  }

  lemma Raised(v: real)
    requires 0.0 < v < 1.0
    ensures 10.0 / v - 10.0 / (10.0 * v) >= 1.0 && 10.0 / v > 0.0
  {
    var q := 1.0 / v;
    assert q * v == 1.0;
    assert q > 1.0;
    assert (10.0 * q) * v == 10.0 && q * (10.0 * v) == 10.0;
    assert 10.0 / v == 10.0 * q && 10.0 / (10.0 * v) == q;
  }

  function Power(k: nat): real {
    if k == 0 then 1.0 else 10.0 * Power(k - 1)
  }

  function Shifted(v: real, k: nat): real {
    v * Power(k)
  }

  lemma ShiftedMore(v: real, k: nat)
    ensures Shifted(10.0 * v, k) == Shifted(v, k + 1) && Shifted(v, 0) == v
  {
    MovePoint(v, Power(k));
  }

  lemma MovePoint(v: real, p: real)
    ensures (10.0 * v) * p == v * (10.0 * p)
  {
  }

  /** The digit is the whole part of the number with its point moved behind its first digit. */
  lemma {:induction false} RaisedDigitIs(v: real) returns (k: nat)
    requires 0.0 < v < 10.0
    ensures 1.0 <= Shifted(v, k) < 10.0 && RaisedDigit(v) == Shifted(v, k).Floor
    decreases 10.0 / v
  {
    hide Shifted;
    ShiftedMore(v, 0);
    if v >= 1.0 {
      k := 0;
    } else {
      Raised(v);
      k := RaisedDigitIs(10.0 * v);
      ShiftedMore(v, k);
      k := k + 1;
    }
  }

  function LoweredDigit(v: real): (d: int)
    requires v >= 1.0
    ensures 1 <= d <= 9
    decreases v
  {
    if v < 10.0 then v.Floor else LoweredDigit(v / 10.0)
  }

  /** The first digit of a number written with an exponent. */
  function LeadingDigit(v: real): (d: int)
    requires v > 0.0
    ensures 1 <= d <= 9
  {
    if v < 1.0 then RaisedDigit(v) else LoweredDigit(v)
  }

  /** `pInt` of a number that is not negative reads its text up to the point: it drops the fraction, and
      the exponent too. */
  function ParsePositive(v: real): int
    requires v >= 0.0
  {
    if v == 0.0 || LEAST_PLAIN <= v < LEAST_LARGE as real then v.Floor else LeadingDigit(v)
  }

  function ParseInt(v: real): int {
    if v < 0.0 then -ParsePositive(-v) else ParsePositive(v)
  }

  function LesserInt(a: int, b: int): int {
    if b < a then b else a
  }

  function Abs(v: int): int {
    if v < 0 then -v else v
  }

  /** The pixel window that a call to `setExtremes` is made for. */
  datatype Request = Request(left: real, right: real)

  /** The mouse events, in chart pixels, and a redraw of the chart with a new pixel window. */
  datatype Event =
    | Down(chartX: int, chartY: int)
    | Move(moveX: int)
    | Up
    | Redraw(pxMin: real, pxMax: real)

  /** What does not change during a run. */
  datatype Geometry = Geometry(top: int, height: int, scrollbarHeight: int, navigatorLeft: int, navigatorWidth: int,
                               scrollbarEnabled: bool, handleSensitivity: int)

  predicate Sound(g: Geometry) {
    g.navigatorLeft >= 0 && 0 <= g.navigatorWidth < LEAST_LARGE && g.scrollbarHeight >= 0
  }

  /** The fields of the scroller and the variables of its closure. `grabbedCenter` is the pixel
      where the window was grabbed; zero counts as not grabbed, like null. */
  datatype State = State(zoomedMin: int, zoomedMax: int, range: int, grabbedLeft: bool, grabbedRight: bool,
                         grabbedCenter: int, otherHandlePos: int, dragOffset: int, hasDragged: bool)

  predicate InRange(g: Geometry, s: State) {
    0 <= s.zoomedMin <= s.zoomedMax <= g.navigatorWidth && s.range == s.zoomedMax - s.zoomedMin
  }

  /** While a handle is dragged, the other one's place is on the navigator too. */
  predicate Consistent(g: Geometry, s: State) {
    && InRange(g, s)
    && (s.grabbedLeft || s.grabbedRight ==> 0 <= s.otherHandlePos <= g.navigatorWidth)
  }

  // ----- the steps as functions

  /** `render`: the handles may cross. Their pixels are compared before they are read. */
  function Rendered(s: State, pxMin: real, pxMax: real): State {
    var zoomedMin, zoomedMax := ParseInt(Min(pxMin, pxMax)), ParseInt(Max(pxMin, pxMax));
    s.(zoomedMin := zoomedMin, zoomedMax := zoomedMax, range := zoomedMax - zoomedMin)
  }

  /** Where a press on the shaded areas, the track or a button asks the window to start. */
  function ClickTarget(g: Geometry, s: State, chartX: int, isOnNavigator: bool): real {
    var scrollerLeft := g.navigatorLeft - g.scrollbarHeight;
    var scrollerWidth := g.navigatorWidth + 2 * g.scrollbarHeight;
    if isOnNavigator then (chartX - g.navigatorLeft) as real - s.range as real / 2.0
    else if chartX < g.navigatorLeft then (s.zoomedMin - LesserInt(10, s.range)) as real
    else if chartX > scrollerLeft + scrollerWidth - g.scrollbarHeight then (s.zoomedMin + LesserInt(10, s.range)) as real
    else if chartX < g.navigatorLeft + s.zoomedMin then (s.zoomedMin - s.range) as real
    else s.zoomedMax as real
  }

  /** That target, held inside the navigator. */
  function HeldTarget(g: Geometry, s: State, left: real): real {
    if left < 0.0 then 0.0
    else if left + s.range as real > g.navigatorWidth as real then (g.navigatorWidth - s.range) as real
    else left
  }

  function Pressed(g: Geometry, s: State, chartX: int, chartY: int): (State, Option<Request>) {
    var isOnNavigator := !g.scrollbarEnabled || chartY < g.top + g.height;
    if !(chartY > g.top && chartY < g.top + g.height + g.scrollbarHeight) then (s, None)
    else if isOnNavigator && Abs(chartX - s.zoomedMin - g.navigatorLeft) < g.handleSensitivity then
      (s.(grabbedLeft := true, otherHandlePos := s.zoomedMax), None)
    else if isOnNavigator && Abs(chartX - s.zoomedMax - g.navigatorLeft) < g.handleSensitivity then
      (s.(grabbedRight := true, otherHandlePos := s.zoomedMin), None)
    else if chartX > g.navigatorLeft + s.zoomedMin && chartX < g.navigatorLeft + s.zoomedMax then
      (s.(grabbedCenter := chartX, dragOffset := chartX - s.zoomedMin), None)
    else if chartX > g.navigatorLeft - g.scrollbarHeight && chartX < g.navigatorLeft + g.navigatorWidth + g.scrollbarHeight then
      var left := HeldTarget(g, s, ClickTarget(g, s, chartX, isOnNavigator));
      (s, if left != s.zoomedMin as real then Some(Request(left, left + s.range as real)) else None)
    else (s, None)
  }

  function HeldMouse(g: Geometry, chartX: int): int {
    if chartX < g.navigatorLeft then g.navigatorLeft
    else if chartX > g.navigatorLeft + g.navigatorWidth then g.navigatorLeft + g.navigatorWidth
    else chartX
  }

  function HeldCenter(g: Geometry, s: State, chartX: int): int {
    if chartX < s.dragOffset then s.dragOffset
    else if chartX > g.navigatorWidth + s.dragOffset - s.range then g.navigatorWidth + s.dragOffset - s.range
    else chartX
  }

  function Moved(g: Geometry, s: State, moveX: int): State {
    var chartX := HeldMouse(g, moveX);
    if s.grabbedLeft then
      Rendered(s.(hasDragged := true), (chartX - g.navigatorLeft) as real, s.otherHandlePos as real)
    else if s.grabbedRight then
      Rendered(s.(hasDragged := true), s.otherHandlePos as real, (chartX - g.navigatorLeft) as real)
    else if s.grabbedCenter != 0 then
      var start := HeldCenter(g, s, chartX) - s.dragOffset;
      Rendered(s.(hasDragged := true), start as real, (start + s.range) as real)
    else s
  }

  function Released(s: State): (State, Option<Request>) {
    (s.(grabbedLeft := false, grabbedRight := false, grabbedCenter := 0, hasDragged := false, dragOffset := 0),
     if s.hasDragged then Some(Request(s.zoomedMin as real, s.zoomedMax as real)) else None)
  }

  function Step(g: Geometry, s: State, e: Event): (State, Option<Request>) {
    match e
    case Down(x, y) => Pressed(g, s, x, y)
    case Move(x) => (Moved(g, s, x), None)
    case Up => Released(s)
    case Redraw(pxMin, pxMax) => (Rendered(s, pxMin, pxMax), None)
  }

  function Run(g: Geometry, s: State, events: seq<Event>): State {
    if events == [] then s else Step(g, Run(g, s, events[..|events| - 1]), events[|events| - 1]).0
  }

  // ----- the code

  class Scroller {
    const geometry: Geometry
    var zoomedMin: int
    var zoomedMax: int
    var range: int
    var grabbedLeft: bool
    var grabbedRight: bool
    var grabbedCenter: int
    var otherHandlePos: int
    var dragOffset: int
    var hasDragged: bool
    /** The windows asked of the base axis so far. */
    var requests: seq<Request>

    function Now(): State
      reads this
    {
      State(zoomedMin, zoomedMax, range, grabbedLeft, grabbedRight, grabbedCenter, otherHandlePos, dragOffset, hasDragged)
    }

    constructor (geometry: Geometry, pxMin: real, pxMax: real)
      ensures this.geometry == geometry && requests == []
      ensures Now() == Rendered(State(0, 0, 0, false, false, 0, 0, 0, false), pxMin, pxMax)
    {
      this.geometry := geometry;
      var low, high := ParseInt(Min(pxMin, pxMax)), ParseInt(Max(pxMin, pxMax));
      zoomedMin, zoomedMax, range := low, high, high - low;
      grabbedLeft, grabbedRight, grabbedCenter := false, false, 0;
      otherHandlePos, dragOffset, hasDragged := 0, 0, false;
      requests := [];
    }

    /** The arithmetic of `render`. */
    method Render(pxMin: real, pxMax: real)
      modifies this
      ensures Now() == Rendered(old(Now()), pxMin, pxMax) && requests == old(requests)
    {
      zoomedMin := ParseInt(Min(pxMin, pxMax));
      zoomedMax := ParseInt(Max(pxMin, pxMax));
      range := zoomedMax - zoomedMin;
    }

    method MouseDown(chartX: int, chartY: int)
      modifies this
      ensures Now() == Pressed(geometry, old(Now()), chartX, chartY).0
      ensures requests == old(requests) + Asked(Pressed(geometry, old(Now()), chartX, chartY).1)
    {
      var g := geometry;
      var scrollerLeft, scrollerWidth := g.navigatorLeft - g.scrollbarHeight, g.navigatorWidth + 2 * g.scrollbarHeight;
      if chartY > g.top && chartY < g.top + g.height + g.scrollbarHeight {
        var isOnNavigator := !g.scrollbarEnabled || chartY < g.top + g.height;
        if isOnNavigator && Abs(chartX - zoomedMin - g.navigatorLeft) < g.handleSensitivity {
          grabbedLeft := true;
          otherHandlePos := zoomedMax;
        } else if isOnNavigator && Abs(chartX - zoomedMax - g.navigatorLeft) < g.handleSensitivity {
          grabbedRight := true;
          otherHandlePos := zoomedMin;
        } else if chartX > g.navigatorLeft + zoomedMin && chartX < g.navigatorLeft + zoomedMax {
          grabbedCenter := chartX;
          dragOffset := chartX - zoomedMin;
        } else if chartX > scrollerLeft && chartX < scrollerLeft + scrollerWidth {
          var left: real;
          if isOnNavigator {
            left := (chartX - g.navigatorLeft) as real - range as real / 2.0;
          } else if chartX < g.navigatorLeft {
            left := (zoomedMin - LesserInt(10, range)) as real;
          } else if chartX > scrollerLeft + scrollerWidth - g.scrollbarHeight {
            left := (zoomedMin + LesserInt(10, range)) as real;
          } else {
            left := if chartX < g.navigatorLeft + zoomedMin then (zoomedMin - range) as real else zoomedMax as real;
          }
          if left < 0.0 {
            left := 0.0;
          } else if left + range as real > g.navigatorWidth as real {
            left := (g.navigatorWidth - range) as real;
          }
          if left != zoomedMin as real {
            requests := requests + [Request(left, left + range as real)];
          }
        }
      }
    }

    method MouseMove(moveX: int)
      modifies this
      ensures Now() == Moved(geometry, old(Now()), moveX) && requests == old(requests)
    {
      hide Rendered;
      var g := geometry;
      var scrollerLeft, scrollerWidth := g.navigatorLeft - g.scrollbarHeight, g.navigatorWidth + 2 * g.scrollbarHeight;
      var chartX := moveX;
      if chartX < g.navigatorLeft {
        chartX := g.navigatorLeft;
      } else if chartX > scrollerLeft + scrollerWidth - g.scrollbarHeight {
        chartX := scrollerLeft + scrollerWidth - g.scrollbarHeight;
      }
      if grabbedLeft {
        hasDragged := true;
        Render((chartX - g.navigatorLeft) as real, otherHandlePos as real);
      } else if grabbedRight {
        hasDragged := true;
        Render(otherHandlePos as real, (chartX - g.navigatorLeft) as real);
      } else if grabbedCenter != 0 {
        hasDragged := true;
        if chartX < dragOffset {
          chartX := dragOffset;
        } else if chartX > g.navigatorWidth + dragOffset - range {
          chartX := g.navigatorWidth + dragOffset - range;
        }
        Render((chartX - dragOffset) as real, (chartX - dragOffset + range) as real);
      }
    }

    method MouseUp()
      modifies this
      ensures Now() == Released(old(Now())).0 && requests == old(requests) + Asked(Released(old(Now())).1)
    {
      if hasDragged {
        requests := requests + [Request(zoomedMin as real, zoomedMax as real)];
      }
      grabbedLeft, grabbedRight, grabbedCenter, hasDragged, dragOffset := false, false, 0, false, 0;
    }

    /** Any sequence of events. */
    method Handle(events: seq<Event>)
      modifies this
      ensures Now() == Run(geometry, old(Now()), events)
      ensures Sound(geometry) && Consistent(geometry, old(Now())) && AllOnNavigator(geometry, events) && AllRead(geometry, events)
              ==> Consistent(geometry, Now())
    {
      ghost var start := Now();
      for i := 0 to |events|
        invariant Now() == Run(geometry, start, events[..i])
      {
        assert events[..i + 1][..i] == events[..i];
        match events[i] {
          case Down(x, y) => MouseDown(x, y);
          case Move(x) => MouseMove(x);
          case Up => MouseUp();
          case Redraw(pxMin, pxMax) => Render(pxMin, pxMax);
        }
      }
      assert events[..|events|] == events;
      if Sound(geometry) && Consistent(geometry, start) && AllOnNavigator(geometry, events) && AllRead(geometry, events) {
        RunStaysInRange(geometry, start, events);
      }
    }
  }

  function Asked(r: Option<Request>): seq<Request> {
    match r case Some(q) => [q] case None => []
  }

  // ----- what every run keeps

  /** A redraw shows a window of the navigator. */
  predicate OnNavigator(g: Geometry, e: Event) {
    e.Redraw? ==> 0.0 <= e.pxMin <= g.navigatorWidth as real && 0.0 <= e.pxMax <= g.navigatorWidth as real
  }

  ghost predicate AllOnNavigator(g: Geometry, events: seq<Event>) {
    forall i | 0 <= i < |events| :: OnNavigator(g, events[i])
  }

  /** What a caller can check of two pixels on the navigator: one that is written with an exponent must
      have a first digit that fits below what is read of the other, or below the width. */
  predicate PixelsAreRead(g: Geometry, pxMin: real, pxMax: real) {
    var low, high := Min(pxMin, pxMax), Max(pxMin, pxMax);
    && (0.0 < low < LEAST_PLAIN ==> LeadingDigit(low) <= ParseInt(high))
    && (0.0 < high < LEAST_PLAIN ==> LeadingDigit(high) <= g.navigatorWidth)
  }

  predicate IsRead(g: Geometry, e: Event) {
    e.Redraw? ==> PixelsAreRead(g, e.pxMin, e.pxMax)
  }

  predicate AllRead(g: Geometry, events: seq<Event>) {
    forall i | 0 <= i < |events| :: IsRead(g, events[i])
  }

  /** A redraw of a window of the navigator stays on it exactly when its pixels are read as they are. */
  lemma RedrawInRange(g: Geometry, s: State, pxMin: real, pxMax: real)
    requires Sound(g) && 0.0 <= pxMin <= g.navigatorWidth as real && 0.0 <= pxMax <= g.navigatorWidth as real
    ensures InRange(g, Rendered(s, pxMin, pxMax)) <==> PixelsAreRead(g, pxMin, pxMax)
  {
    hide LeadingDigit;
    var low, high, w := Min(pxMin, pxMax), Max(pxMin, pxMax), g.navigatorWidth as real;
    assert 0.0 <= low <= high <= w < LEAST_LARGE as real;
    FloorOrder(low, high);
    FloorOrder(high, w);
    assert w.Floor == g.navigatorWidth;
  }

  lemma FloorOrder(a: real, b: real)
    requires a <= b
    ensures a.Floor <= b.Floor
  {
  }

  /** A year on 800 pixels, and a window that starts three milliseconds after it: the lesser pixel is
      written 7.6e-8 and read as 7, the greater is read as 2. */
  lemma TinyPixelLeavesRange(g: Geometry, s: State)
    requires g.navigatorWidth == 800
    ensures var t := Rendered(s, 0.000_000_076, 2.19);
            t.zoomedMin == 7 && t.zoomedMax == 2 && t.range == -5 && !InRange(g, t)
  {
    assert RaisedDigit(7.6) == 7;
    assert RaisedDigit(0.76) == 7;
    assert RaisedDigit(0.076) == 7;
    assert RaisedDigit(0.007_6) == 7;
    assert RaisedDigit(0.000_76) == 7;
    assert RaisedDigit(0.000_076) == 7;
    assert RaisedDigit(0.000_007_6) == 7;
    assert RaisedDigit(0.000_000_76) == 7;
    assert RaisedDigit(0.000_000_076) == 7;
  }

  lemma ParseWhole(n: int)
    requires -LEAST_LARGE < n < LEAST_LARGE
    ensures ParseInt(n as real) == n
  {
    assert n >= 1 || n == 0 || -n >= 1;
    assert (n as real).Floor == n && (-(n as real)).Floor == -n;
  }

  /** Dragging a handle leaves the window between the mouse and the other handle, also after they cross. */
  lemma HandlesMayCross(g: Geometry, s: State, moveX: int)
    requires Sound(g) && Consistent(g, s) && (s.grabbedLeft || s.grabbedRight)
    ensures var t, x := Moved(g, s, moveX), HeldMouse(g, moveX) - g.navigatorLeft;
            && 0 <= x <= g.navigatorWidth
            && t.zoomedMin == LesserInt(x, s.otherHandlePos)
            && t.zoomedMax == x + s.otherHandlePos - LesserInt(x, s.otherHandlePos)
  {
    ParseWhole(HeldMouse(g, moveX) - g.navigatorLeft);
    ParseWhole(s.otherHandlePos);
  }

  /** A centre drag moves the window without changing its width or leaving the navigator; inside
      the navigator it follows the mouse. */
  lemma CenterKeepsWidth(g: Geometry, s: State, moveX: int)
    requires Sound(g) && Consistent(g, s) && !s.grabbedLeft && !s.grabbedRight && s.grabbedCenter != 0
    ensures var t := Moved(g, s, moveX);
            && InRange(g, t) && t.range == s.range
            && (0 <= HeldMouse(g, moveX) - s.dragOffset <= g.navigatorWidth - s.range ==>
                t.zoomedMin == HeldMouse(g, moveX) - s.dragOffset)
  {
    var start := HeldCenter(g, s, HeldMouse(g, moveX)) - s.dragOffset;
    ParseWhole(start);
    ParseWhole(start + s.range);
  }

  /** A click on the track, a button or a shaded area asks for a window of the present width, inside
      the navigator and different from the present one. */
  lemma ClickKeepsWidth(g: Geometry, s: State, chartX: int, chartY: int)
    requires Sound(g) && Consistent(g, s)
    ensures var (t, r) := Pressed(g, s, chartX, chartY);
            r.Some? ==>
            && t == s
            && r.value.right - r.value.left == s.range as real
            && 0.0 <= r.value.left && r.value.right <= g.navigatorWidth as real
            && r.value.left != s.zoomedMin as real
            && (r.value.left == 0.0 || r.value.left >= 0.5)
  {
    hide ClickTarget, HeldTarget;
    TargetIsHeld(g, s, chartX, !g.scrollbarEnabled || chartY < g.top + g.height);
  }

  /** A click asks for a whole or a half pixel. */
  lemma TargetIsHeld(g: Geometry, s: State, chartX: int, isOnNavigator: bool)
    requires Consistent(g, s)
    ensures var left := HeldTarget(g, s, ClickTarget(g, s, chartX, isOnNavigator));
            && 0.0 <= left && left + s.range as real <= g.navigatorWidth as real
            && (left == 0.0 || left >= 0.5)
  {
    hide ClickTarget;
    var h := TwiceTarget(g, s, chartX, isOnNavigator);
  }

  lemma TwiceTarget(g: Geometry, s: State, chartX: int, isOnNavigator: bool) returns (h: int)
    ensures ClickTarget(g, s, chartX, isOnNavigator) * 2.0 == h as real
  {
    var half := s.range as real / 2.0;
    assert half * 2.0 == s.range as real;
    var scrollerEnd := g.navigatorLeft + g.navigatorWidth;
    h := if isOnNavigator then 2 * (chartX - g.navigatorLeft) - s.range
         else if chartX < g.navigatorLeft then 2 * (s.zoomedMin - LesserInt(10, s.range))
         else if chartX > scrollerEnd then 2 * (s.zoomedMin + LesserInt(10, s.range))
         else if chartX < g.navigatorLeft + s.zoomedMin then 2 * (s.zoomedMin - s.range)
         else 2 * s.zoomedMax;
  }

  /** When the chart answers that request, the scroller shows the same width again, although half
      pixels are dropped. */
  lemma AnsweredClickKeepsWidth(g: Geometry, s: State, chartX: int, chartY: int)
    requires Sound(g) && Consistent(g, s)
    ensures var (t, r) := Pressed(g, s, chartX, chartY);
            r.Some? ==> Rendered(t, r.value.left, r.value.right).range == s.range
  {
    hide Pressed;
    ClickKeepsWidth(g, s, chartX, chartY);
    var (t, r) := Pressed(g, s, chartX, chartY);
    if r.Some? {
      ParseShift(r.value.left, s.range);
    }
  }

  lemma ParseShift(a: real, n: int)
    requires (a == 0.0 || a >= LEAST_PLAIN) && n >= 0 && a + n as real < LEAST_LARGE as real
    ensures ParseInt(a + n as real) == ParseInt(a) + n
  {
  }

  /** From an in-range state only a redraw whose pixels are not read as they are leaves the range. */
  lemma StepStaysInRange(g: Geometry, s: State, e: Event)
    requires Sound(g) && Consistent(g, s) && OnNavigator(g, e)
    ensures Consistent(g, Step(g, s, e).0) <==> IsRead(g, e)
  {
    hide ParseInt, LeadingDigit;
    match e
    case Down(x, y) =>
    case Move(x) =>
      if s.grabbedLeft || s.grabbedRight {
        HandlesMayCross(g, s, x);
      } else if s.grabbedCenter != 0 {
        CenterKeepsWidth(g, s, x);
      }
    case Up =>
    case Redraw(pxMin, pxMax) => RedrawInRange(g, s, pxMin, pxMax);
  }

  /** The state is in range after each of the events. */
  ghost predicate StaysInRange(g: Geometry, s: State, events: seq<Event>) {
    forall n | 0 <= n <= |events| :: Consistent(g, Run(g, s, events[..n]))
  }

  /** From an in-range state a sequence of events stays in range throughout exactly when the pixels of all
      its redraws are read as they are. */
  lemma {:induction false} RunStaysInRange(g: Geometry, s: State, events: seq<Event>)
    requires Sound(g) && Consistent(g, s) && AllOnNavigator(g, events)
    ensures StaysInRange(g, s, events) <==> AllRead(g, events)
    ensures AllRead(g, events) ==> Consistent(g, Run(g, s, events))
  {
    hide Step, Consistent, IsRead, OnNavigator;
    assert events[..0] == [] && events[..|events|] == events;
    if events != [] {
      var front, last := events[..|events| - 1], events[|events| - 1];
      RunStaysInRange(g, s, front);
      assert forall n | 0 <= n < |events| :: events[..n] == front[..n];
      assert events == front + [last];
      if StaysInRange(g, s, front) {
        assert front[..|front|] == front;
        StepStaysInRange(g, Run(g, s, front), last);
      } else {
        var n :| 0 <= n <= |front| && !Consistent(g, Run(g, s, front[..n]));
        assert events[..n] == front[..n];
      }
    }
  }

  // ----- whole gestures

  predicate Grabbed(s: State) {
    s.grabbedLeft || s.grabbedRight || s.grabbedCenter != 0
  }

  predicate AllMoves(events: seq<Event>) {
    forall i | 0 <= i < |events| :: events[i].Move?
  }

  /** A second move makes up for the first one. */
  lemma LastMoveCounts(g: Geometry, s: State, x: int, y: int)
    requires Sound(g) && Consistent(g, s) && Grabbed(s)
    ensures Moved(g, Moved(g, s, x), y) == Moved(g, s, y)
  {
    hide LeadingDigit, ParseInt;
    var t := Moved(g, s, x);
    StepStaysInRange(g, s, Move(x));
    if s.grabbedLeft || s.grabbedRight {
      HandlesMayCross(g, s, y);
      HandlesMayCross(g, t, y);
    } else {
      CenterKeepsWidth(g, s, x);
    }
  }

  /** A drag of any length shows what a single move to its last place would. */
  lemma {:induction false} OnlyLastMoveCounts(g: Geometry, s: State, moves: seq<Event>)
    requires Sound(g) && Consistent(g, s) && Grabbed(s) && AllMoves(moves) && moves != []
    ensures Run(g, s, moves) == Moved(g, s, moves[|moves| - 1].moveX)
  {
    var x := moves[|moves| - 1].moveX;
    var front := moves[..|moves| - 1];
    if front != [] {
      OnlyLastMoveCounts(g, s, front);
      LastMoveCounts(g, s, front[|front| - 1].moveX, x);
    }
  }

  /** Pressing inside the window, moving and letting go asks for a window of exactly the same width,
      inside the navigator, and leaves nothing grabbed. */
  lemma CenterDragKeepsWidth(g: Geometry, s: State, chartX: int, chartY: int, moves: seq<Event>)
    requires Sound(g) && Consistent(g, s) && !Grabbed(s) && AllMoves(moves) && moves != []
    requires Pressed(g, s, chartX, chartY).0.grabbedCenter != 0
    ensures var (t, r) := Released(Run(g, Pressed(g, s, chartX, chartY).0, moves));
            && !Grabbed(t) && Consistent(g, t)
            && r.Some? && r.value.right - r.value.left == s.range as real
            && 0.0 <= r.value.left && r.value.right <= g.navigatorWidth as real
  {
    hide Moved, Run;
    var pressed, x := Pressed(g, s, chartX, chartY).0, moves[|moves| - 1].moveX;
    OnlyLastMoveCounts(g, pressed, moves);
    CenterKeepsWidth(g, pressed, x);
    MoveIsDrag(g, pressed, x);
  }

  /** Dragging a handle asks for the window between its last place and the other handle. */
  lemma HandleDragKeepsOther(g: Geometry, s: State, chartX: int, chartY: int, moves: seq<Event>)
    requires Sound(g) && Consistent(g, s) && !Grabbed(s) && AllMoves(moves) && moves != []
    requires var pressed := Pressed(g, s, chartX, chartY).0; pressed.grabbedLeft || pressed.grabbedRight
    ensures var pressed := Pressed(g, s, chartX, chartY).0;
            var (t, r) := Released(Run(g, pressed, moves));
            var x := HeldMouse(g, moves[|moves| - 1].moveX) - g.navigatorLeft;
            var other := if pressed.grabbedLeft then s.zoomedMax else s.zoomedMin;
            && !Grabbed(t) && Consistent(g, t)
            && r == Some(Request(LesserInt(x, other) as real, (x + other - LesserInt(x, other)) as real))
  {
    hide Moved, Run;
    var pressed, x := Pressed(g, s, chartX, chartY).0, moves[|moves| - 1].moveX;
    assert Consistent(g, pressed);
    OnlyLastMoveCounts(g, pressed, moves);
    HandlesMayCross(g, pressed, x);
    StepStaysInRange(g, pressed, Move(x));
    MoveIsDrag(g, pressed, x);
  }

  lemma MoveIsDrag(g: Geometry, s: State, x: int)
    requires Grabbed(s)
    ensures Moved(g, s, x).hasDragged
  {
  }

  // ----- where a press counts

  /** Is the press on the navigator itself rather than on the scrollbar below it? */
  predicate OnBand(g: Geometry, chartY: int) {
    g.top < chartY < g.top + g.height + g.scrollbarHeight && (!g.scrollbarEnabled || chartY < g.top + g.height)
  }

  predicate OnScrollbar(g: Geometry, chartY: int) {
    g.scrollbarEnabled && g.top < chartY && g.top + g.height <= chartY < g.top + g.height + g.scrollbarHeight
  }

  /** A press off both changes nothing and asks for nothing. */
  lemma PressOutside(g: Geometry, s: State, chartX: int, chartY: int)
    requires !OnBand(g, chartY) && !OnScrollbar(g, chartY)
    ensures Pressed(g, s, chartX, chartY) == (s, None)
  {
  }

  /** A press on the navigator grabs the left handle if it is near, else the right one if that is near, else
      the window if it is inside; the handles cannot be grabbed on the scrollbar, the window can. */
  lemma PressGrabs(g: Geometry, s: State, chartX: int, chartY: int)
    requires OnBand(g, chartY) || OnScrollbar(g, chartY)
    ensures var (t, r) := Pressed(g, s, chartX, chartY);
            var x := chartX - g.navigatorLeft;
            var nearLeft := OnBand(g, chartY) && -g.handleSensitivity < x - s.zoomedMin < g.handleSensitivity;
            var nearRight := OnBand(g, chartY) && -g.handleSensitivity < x - s.zoomedMax < g.handleSensitivity;
            && (nearLeft ==> r == None && t == s.(grabbedLeft := true, otherHandlePos := s.zoomedMax))
            && (!nearLeft && nearRight ==> r == None && t == s.(grabbedRight := true, otherHandlePos := s.zoomedMin))
            && (!nearLeft && !nearRight && s.zoomedMin < x < s.zoomedMax ==>
                  r == None && t == s.(grabbedCenter := chartX, dragOffset := chartX - s.zoomedMin))
            && (!nearLeft && !nearRight && !(s.zoomedMin < x < s.zoomedMax) ==> t == s)
  {
    hide ClickTarget, HeldTarget;
  }

  /** A click on a shaded area of the navigator centres the window on it where it fits, and otherwise puts it
      at the edge. */
  lemma ClickCenters(g: Geometry, s: State, chartX: int, chartY: int)
    requires Sound(g) && Consistent(g, s) && OnBand(g, chartY) && Pressed(g, s, chartX, chartY).1.Some?
    ensures var r, x := Pressed(g, s, chartX, chartY).1.value, chartX - g.navigatorLeft;
            && (2 * x < s.range ==> r.left == 0.0)
            && (2 * x + s.range > 2 * g.navigatorWidth ==> r.right == g.navigatorWidth as real)
            && (s.range <= 2 * x <= 2 * g.navigatorWidth - s.range ==> r.left + r.right == 2.0 * x as real)
  {
  }

  /** On the scrollbar the buttons move the window by ten pixels or its width, whichever is less, and the track
      moves it by its width, towards the click and no farther than the edge; a click on the very start of the
      window moves it to the right. */
  lemma ClickScrolls(g: Geometry, s: State, chartX: int, chartY: int)
    requires Sound(g) && Consistent(g, s) && OnScrollbar(g, chartY) && Pressed(g, s, chartX, chartY).1.Some?
    ensures var r, x := Pressed(g, s, chartX, chartY).1.value, chartX - g.navigatorLeft;
            var step := if s.range < 10 then s.range else 10;
            r.left ==
            (if x < 0 then AtLeast(s.zoomedMin - step, 0)
             else if x > g.navigatorWidth then AtMost(s.zoomedMin + step, g.navigatorWidth - s.range)
             else if x < s.zoomedMin then AtLeast(s.zoomedMin - s.range, 0)
             else AtMost(s.zoomedMin + s.range, g.navigatorWidth - s.range)) as real
  {
  }

  function AtLeast(v: int, low: int): int {
    if v < low then low else v
  }

  function AtMost(v: int, high: int): int {
    if v > high then high else v
  }

  /** Moving the mouse with nothing grabbed shows nothing new, and letting go without a drag asks for nothing. */
  lemma NoDragNoRequest(g: Geometry, s: State, chartX: int, chartY: int, moveX: int)
    requires !s.hasDragged
    ensures !Grabbed(s) ==> Moved(g, s, moveX) == s
    ensures Released(Pressed(g, s, chartX, chartY).0).1 == None
    ensures !Grabbed(Released(s).0) && Released(s).0.zoomedMin == s.zoomedMin && Released(s).0.zoomedMax == s.zoomedMax
  {
    hide ClickTarget, HeldTarget;
  }
}
