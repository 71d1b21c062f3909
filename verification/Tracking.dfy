/** Spot tracking, pat/tracking.cpp: the quantised camera window around a spot, the choice of the spot that is
    most like the last one, and the integral controller with its limits. */
module Tracking {
  import opened Basics
  import Calibration
  import LeastSquares
  import Mirror
  import PixelGrouping

  const TRACK_MIN_SPOT_LIMIT := 25
  const TRACK_WINDOW_SIZE_TOLERANCE := 10
  const TRACK_CONTROL_I := 8.0
  const TRACK_CONTROL_MAX_TS := 0.05
  const CALIB_FSM_MAX_DELTA := 0.003

  function Abs(x: real): real { if x < 0.0 then -x else x }

  // ---- the window ----

  class AOI {
    var x: int
    var y: int
    var w: int
    var h: int
  }

  /** One axis of a window. */
  datatype Span = Span(start: int, size: int)

  /** The remainder as C has it: with the sign of the dividend. */
  function CRemainder(a: int, q: nat): int requires q > 0 { if a >= 0 then a % q else -((-a) % q) }

  /** Move the start down to a multiple of q, cut what lies below 0, and round the size up. */
  function Quantised(start: int, size: int, q: nat): Span
    requires q > 0
  {
    var s := if start >= 0 then Span(start - start % q, size + start % q) else Span(0, size + start);
    var r := CRemainder(s.size, q);
    Span(s.start, if r != 0 then s.size + (q - r) else s.size)
  }

  /** The quantised window is aligned, covers what was asked for on the canvas, and exceeds it by less than a
      step on either side; on a canvas of whole steps it sticks out exactly when what was asked for does. */
  lemma QuantisedCovers(start: int, size: int, q: nat, canvas: nat)
    requires q > 0 && start + size > 0 && size > 0 && canvas % q == 0
    ensures var s, wanted := Quantised(start, size, q), if start >= 0 then start else 0;
            && s.start % q == 0 && s.size % q == 0 && s.size > 0
            && 0 <= s.start <= wanted < s.start + q
            && start + size <= s.start + s.size < start + size + q
            && (s.start + s.size <= canvas <==> start + size <= canvas)
  {
    if start >= 0 {
      AlignsDown(start, q);
      RoundsUp(start - start % q, size + start % q, q, canvas);
    } else {
      RoundsUp(0, size + start, q, canvas);
    }
  }

  lemma AlignsDown(start: nat, q: nat)
    requires q > 0
    ensures start - start % q >= 0 && (start - start % q) % q == 0
  {
    Quotient(start - start % q, q, start / q, 0);
    AtLeast(q, start / q);
  }

  lemma AtLeast(q: nat, k: nat)
    ensures q * k >= 0
  {}

  lemma RoundsUp(start: int, size: int, q: nat, canvas: nat)
    requires q > 0 && start % q == 0 && canvas % q == 0 && size > 0
    ensures var up := if size % q != 0 then size + (q - size % q) else size;
            up % q == 0 && size <= up < size + q && (start + up <= canvas <==> start + size <= canvas)
  {
    var a, b, c, r := start / q, size / q, canvas / q, size % q;
    var lower, limit := q * (a + b), q * c;
    assert start == q * a && size == q * b + r && canvas == limit;
    SumOfMultiples(q, a, b);
    if r != 0 {
      RoundedMultiple(size, q, b, r);
      Gap(q, a + b, c);
      NotBelow(q, c, a + b);
      BeyondTheRest(lower, r, q, limit);
    }
  }

  lemma SumOfMultiples(q: nat, a: int, b: int)
    ensures q * (a + b) == q * a + q * b
  {}

  lemma BeyondTheRest(lower: int, r: nat, q: nat, limit: int)
    requires 0 < r < q && (limit <= lower || limit >= lower + q)
    ensures lower + q <= limit <==> lower + r <= limit
  {}

  lemma NotBelow(q: nat, low: int, high: int)
    ensures low <= high ==> q * low <= q * high
  {
    if low <= high {
      MulMono(low, high, q);
    }
  }

  lemma RoundedMultiple(size: int, q: nat, b: int, r: nat)
    requires r < q && size == q * b + r
    ensures (size + (q - r)) % q == 0
  {
    assert q * (b + 1) == q * b + q;
    Quotient(size + (q - r), q, b + 1, 0);
  }

  /** The spot is so far from both ends of a frame's axis. */
  predicate Clear(spot: real, size: int, margin: real) { margin <= spot <= size as real - margin }

  /** The window may stay: it is about as large as wanted, and the spot is well inside. */
  predicate Fits(spotX: real, spotY: real, spotWidth: real, w: int, h: int) {
    var margin := if spotWidth > 25.0 then spotWidth else 25.0;
    && spotWidth + 10.0 <= w as real <= spotWidth + 90.0 && spotWidth + 10.0 <= h as real <= spotWidth + 90.0
    && Clear(spotX, w, margin) && Clear(spotY, h, margin)
  }

  /** The side of the square that is asked for. */
  function Side(spotWidth: real): int { Truncate(spotWidth + 2.0 * TRACK_MIN_SPOT_LIMIT as real) }

  /** Where the square starts, on one axis. */
  function SquareStart(frameStart: int, spot: real, side: int): int {
    Truncate(frameStart as real + spot - (side / 2) as real)
  }

  lemma SquareOnCanvas(frameStart: int, spot: real, spotWidth: real)
    requires frameStart >= 0 && spot >= 0.0 && spotWidth >= 0.0
    ensures Side(spotWidth) >= 50 && SquareStart(frameStart, spot, Side(spotWidth)) + Side(spotWidth) > 0
  {
    var side := Side(spotWidth);
    var v := frameStart as real + spot - (side / 2) as real;
    assert v >= -(side / 2) as real;
    if v < 0.0 {
      assert -v <= (side / 2) as real;
      assert (-v).Floor <= side / 2;
    }
  }

  /** One axis of the new window: aligned, around all of the square that is not cut by the canvas, beyond the canvas
      exactly when the square is, with the spot well inside, and not too large. */
  predicate NewSpan(s: Span, frameStart: int, spot: real, spotWidth: real, q: nat, canvas: nat)
    requires q > 0
  {
    var side := Side(spotWidth);
    var start := SquareStart(frameStart, spot, side);
    && s == Quantised(start, side, q) && s.start % q == 0 && s.size % q == 0
    && 0 <= s.start <= (if start >= 0 then start else 0) && start + side <= s.start + s.size
    && (s.start + s.size <= canvas <==> start + side <= canvas)
    && HoldsSpot(s, frameStart as real + spot, spotWidth, q)
  }

  lemma SpotInside(frameStart: int, spot: real, spotWidth: real, q: nat, canvas: nat)
    requires frameStart >= 0 && spot >= 0.0 && spotWidth >= 0.0 && 0 < q <= 16 && canvas % q == 0
    ensures var side := Side(spotWidth);
            NewSpan(Quantised(SquareStart(frameStart, spot, side), side, q), frameStart, spot, spotWidth, q, canvas)
  {
    var side := Side(spotWidth);
    var start := SquareStart(frameStart, spot, side);
    var v := frameStart as real + spot - (side / 2) as real;
    SquareOnCanvas(frameStart, spot, spotWidth);
    QuantisedCovers(start, side, q, canvas);
    assert spotWidth + 49.0 < side as real <= spotWidth + 50.0;
    assert v - 1.0 < start as real < v + 1.0 && (v >= 0.0 ==> start as real <= v);
    hide Quantised, SquareStart, Side;
    SquareAround(start, side, v, spotWidth);
  }

  /** A span around a spot: its room on both sides, unless it starts at 0, and its size. */
  predicate HoldsSpot(s: Span, spot: real, spotWidth: real, q: nat) {
    && s.start >= 0 && (s.start == 0 || spot - s.start as real > spotWidth / 2.0 + 23.0)
    && (s.start + s.size) as real - spot > spotWidth / 2.0 + 22.0
    && s.size as real <= spotWidth + 50.0 + (2 * q - 2) as real
  }

  lemma SquareAround(start: int, side: int, v: real, spotWidth: real)
    requires spotWidth + 49.0 < side as real <= spotWidth + 50.0
    requires v - 1.0 < start as real < v + 1.0 && (v >= 0.0 ==> start as real <= v)
    ensures var spot := v + (side / 2) as real;
            && (start > 0 ==> spot - start as real > spotWidth / 2.0 + 23.0)
            && (start + side) as real - spot > spotWidth / 2.0 + 22.0
  {}

  /** One axis: quantise with step q, as the code does step by step. */
  method QuantiseAxis(start: int, size: int, q: nat) returns (s: int, n: int)
    requires q > 0
    ensures Span(s, n) == Quantised(start, size, q)
  {
    s, n := start, size;
    if s >= 0 {
      var temp := s % q;
      s := s - temp;
      n := n + temp;
    } else {
      n := n + s;
      s := 0;
    }
    if CRemainder(n, q) != 0 {
      n := n + (q - CRemainder(n, q));
    }
  }

  /** The spot sits badly in the window, or the window has the wrong size. */
  method NeedsUpdate(spotX: real, spotY: real, spotWidth: real, window: AOI) returns (needed: bool)
    ensures needed <==> !Fits(spotX, spotY, spotWidth, window.w, window.h)
  {
    var limit := if spotWidth > TRACK_MIN_SPOT_LIMIT as real then spotWidth else TRACK_MIN_SPOT_LIMIT as real;
    var wanted := spotWidth + 2.0 * TRACK_MIN_SPOT_LIMIT as real;
    needed :=
      || Abs(window.w as real - wanted) > (30 + TRACK_WINDOW_SIZE_TOLERANCE) as real
      || Abs(window.h as real - wanted) > (30 + TRACK_WINDOW_SIZE_TOLERANCE) as real
      || spotX < limit || spotX > window.w as real - limit
      || spotY < limit || spotY > window.h as real - limit;
  }

  /** Update the window around a spot of a frame, if it needs it. */
  method UpdateTrackingWindow(frameX: int, frameY: int, spotX: real, spotY: real, spotWidth: real, window: AOI)
    requires frameX >= 0 && frameY >= 0 && spotX >= 0.0 && spotY >= 0.0 && spotWidth >= 0.0
    modifies window
    ensures Fits(spotX, spotY, spotWidth, old(window.w), old(window.h)) ==> unchanged(window)
    ensures !Fits(spotX, spotY, spotWidth, old(window.w), old(window.h)) ==>
              && NewSpan(Span(window.x, window.w), frameX, spotX, spotWidth, 16, CAMERA_WIDTH)
              && NewSpan(Span(window.y, window.h), frameY, spotY, spotWidth, 8, CAMERA_HEIGHT)
  {
    var needed := NeedsUpdate(spotX, spotY, spotWidth, window);
    hide Fits, NewSpan, Quantised;
    if needed {
      var width := Truncate(spotWidth + 2.0 * TRACK_MIN_SPOT_LIMIT as real);
      var height := width;
      var x := Truncate(frameX as real + spotX - (width / 2) as real);
      var y := Truncate(frameY as real + spotY - (height / 2) as real);
      SpotInside(frameX, spotX, spotWidth, 16, CAMERA_WIDTH);
      SpotInside(frameY, spotY, spotWidth, 8, CAMERA_HEIGHT);
      x, width := QuantiseAxis(x, width, 16);
      y, height := QuantiseAxis(y, height, 8);
      if x != window.x || y != window.y || height != window.h || width != window.w {
        window.x := x;
        window.y := y;
        window.w := width;
        window.h := height;
      }
    }
  }

  /** The same spot on the next frame, taken with the updated window, leaves the window as the first frame made it. */
  method UpdatesSettle(spotX: real, spotY: real, spotWidth: real, window: AOI) returns (x: Span, y: Span)
    requires window.x >= 0 && window.y >= 0 && spotX >= 0.0 && spotY >= 0.0 && spotWidth >= 0.0
    modifies window
    ensures Fits(spotX, spotY, spotWidth, old(window.w), old(window.h)) ==>
              x == Span(old(window.x), old(window.w)) && y == Span(old(window.y), old(window.h))
    ensures !Fits(spotX, spotY, spotWidth, old(window.w), old(window.h)) ==>
              && NewSpan(x, old(window.x), spotX, spotWidth, 16, CAMERA_WIDTH)
              && NewSpan(y, old(window.y), spotY, spotWidth, 8, CAMERA_HEIGHT)
    ensures Span(window.x, window.w) == x && Span(window.y, window.h) == y
  {
    hide NewSpan, Fits;
    ghost var stays := Fits(spotX, spotY, spotWidth, window.w, window.h);
    var frameX, frameY := window.x, window.y;
    UpdateTrackingWindow(frameX, frameY, spotX, spotY, spotWidth, window);
    x, y := Span(window.x, window.w), Span(window.y, window.h);
    if !stays {
      NotBehind(x, frameX, spotX, spotWidth, 16, CAMERA_WIDTH);
      NotBehind(y, frameY, spotY, spotWidth, 8, CAMERA_HEIGHT);
    }
    UpdateTrackingWindow(x.start, y.start, frameX as real + spotX - x.start as real,
                         frameY as real + spotY - y.start as real, spotWidth, window);
    if !stays && !Fits(frameX as real + spotX - x.start as real, frameY as real + spotY - y.start as real, spotWidth,
                       x.size, y.size) {
      OneNewSpan(x, Span(window.x, window.w), frameX, spotX, spotWidth, 16, CAMERA_WIDTH);
      OneNewSpan(y, Span(window.y, window.h), frameY, spotY, spotWidth, 8, CAMERA_HEIGHT);
    }
  }

  /** The new window does not start behind the spot. */
  lemma NotBehind(s: Span, frameStart: int, spot: real, spotWidth: real, q: nat, canvas: nat)
    requires q > 0 && NewSpan(s, frameStart, spot, spotWidth, q, canvas)
    requires frameStart >= 0 && spot >= 0.0 && spotWidth >= 0.0
    ensures s.start >= 0 && frameStart as real + spot - s.start as real >= 0.0
  {
    hide Quantised, SquareStart, Side;
  }

  lemma OneNewSpan(s: Span, t: Span, frameStart: int, spot: real, spotWidth: real, q: nat, canvas: nat)
    requires q > 0 && NewSpan(s, frameStart, spot, spotWidth, q, canvas)
    requires NewSpan(t, s.start, frameStart as real + spot - s.start as real, spotWidth, q, canvas)
    ensures s == t
  {
    hide Quantised, Side, HoldsSpot, Truncate;
  }

  // ---- the spot most like the last ----

  const FAR := 10000000000.0

  function Offset(a: nat, b: nat): real { Abs((a as int - b as int) as real) }

  /** How unlike the last spot a group of a frame is: in position, and unless the last spot's size is unknown, in size
      and half brightness. */
  function Difference(frameX: int, frameY: int, g: PixelGrouping.Group, last: PixelGrouping.Group): real {
    var moved := Abs(frameX as real + g.x - last.x) + Abs(frameY as real + g.y - last.y);
    if last.pixelCount == 0 then moved
    else moved + Offset(g.pixelCount, last.pixelCount) + Offset(g.valueMax / 2, last.valueMax / 2)
  }

  /** A group that looks like the last spot, at the same place. */
  predicate LooksLike(frameX: int, frameY: int, g: PixelGrouping.Group, last: PixelGrouping.Group) {
    && frameX as real + g.x == last.x && frameY as real + g.y == last.y
    && (last.pixelCount > 0 ==> g.pixelCount == last.pixelCount && g.valueMax / 2 == last.valueMax / 2)
  }

  lemma NoDifference(frameX: int, frameY: int, g: PixelGrouping.Group, last: PixelGrouping.Group)
    ensures Difference(frameX, frameY, g, last) >= 0.0
    ensures Difference(frameX, frameY, g, last) == 0.0 <==> LooksLike(frameX, frameY, g, last)
  {}

  /** A group elsewhere, larger and brighter than the last spot, differs by what it moved on both axes, by its pixels
      more, and by half the brightness more; where no size is known, only by what it moved. */
  lemma DifferenceAddsUp(frameX: int, frameY: int, g: PixelGrouping.Group, last: PixelGrouping.Group, dx: real,
                         dy: real, pixels: nat, halves: nat)
    requires dx >= 0.0 && dy >= 0.0 && g.pixelCount == last.pixelCount + pixels
    requires g.valueMax / 2 == last.valueMax / 2 + halves
    requires frameX as real + g.x == last.x + dx || frameX as real + g.x == last.x - dx
    requires frameY as real + g.y == last.y + dy || frameY as real + g.y == last.y - dy
    ensures Difference(frameX, frameY, g, last) ==
            dx + dy + if last.pixelCount > 0 then pixels as real + halves as real else 0.0
  {}

  /** The group most like the last spot, the first of several; a difference of 1e10 or more does not count. The last
      spot is found again exactly when it is there. */
  method FindSpotCandidate(frameX: int, frameY: int, groups: seq<PixelGrouping.Group>, last: PixelGrouping.Group)
    returns (candidate: nat, least: real)
    ensures 0.0 <= least <= FAR
    ensures forall i | 0 <= i < |groups| :: least <= Difference(frameX, frameY, groups[i], last) || least == FAR
    ensures least < FAR ==>
              && candidate < |groups| && Difference(frameX, frameY, groups[candidate], last) == least
              && (forall i | 0 <= i < candidate :: least < Difference(frameX, frameY, groups[i], last))
    ensures least == FAR ==>
              candidate == 0 && forall i | 0 <= i < |groups| :: Difference(frameX, frameY, groups[i], last) >= FAR
    ensures least == 0.0 <==> exists i | 0 <= i < |groups| :: LooksLike(frameX, frameY, groups[i], last)
  {
    hide Difference, LooksLike;
    candidate, least := 0, FAR;
    for i := 0 to |groups|
      invariant 0.0 <= least <= FAR
      invariant forall j | 0 <= j < i :: least <= Difference(frameX, frameY, groups[j], last)
      invariant least == FAR ==> candidate == 0
      invariant least < FAR ==>
                  && candidate < i && Difference(frameX, frameY, groups[candidate], last) == least
                  && forall j | 0 <= j < candidate :: least < Difference(frameX, frameY, groups[j], last)
    {
      NoDifference(frameX, frameY, groups[i], last);
      var difference := Difference(frameX, frameY, groups[i], last);
      if difference < least {
        least := difference;
        candidate := i;
      }
    }
    forall i | 0 <= i < |groups|
      ensures Difference(frameX, frameY, groups[i], last) >= 0.0
      ensures Difference(frameX, frameY, groups[i], last) == 0.0 <==> LooksLike(frameX, frameY, groups[i], last)
    {
      NoDifference(frameX, frameY, groups[i], last);
    }
  }

  // ---- the controller ----

  /** The integral step of one axis. */
  function Integral(error: real, elapsed: real): real {
    error * (if elapsed > TRACK_CONTROL_MAX_TS then TRACK_CONTROL_MAX_TS else elapsed) * TRACK_CONTROL_I
  }

  /** One axis of the controller: the step, limited upwards, and the limited action. */
  function Controlled(action: real, error: real, elapsed: real): real {
    var step := Integral(error, elapsed);
    Clamp(action + if step > CALIB_FSM_MAX_DELTA then CALIB_FSM_MAX_DELTA else step)
  }

  class Tracking {
    var actionX: real
    var actionY: real
    var lastUpdate: real

    constructor ()
      ensures actionX == 0.0 && actionY == 0.0 && lastUpdate == 0.0
    {
      actionX, actionY, lastUpdate := 0.0, 0.0, 0.0;
    }

    /** Point where the calibration says, whatever that is; the mirror limits it. */
    method ControlOpenLoop(c: Calibration.Calibration, fsm: Mirror.FSM, x: real, y: real, now: real,
                           replies: seq<Mirror.Reply>)
      requires fsm.Valid() && |replies| == 12
      modifies this, fsm
      ensures Calibration.Exact(c.TheAffine(), [LeastSquares.Pair(x, y, actionX, actionY)]) && lastUpdate == now
      ensures Commanded(fsm, actionX, actionY)
      ensures old(fsm.Settled()) && Mirror.AllAcknowledged(replies) ==> fsm.Settled()
    {
      actionX, actionY := c.AffineTransform(x, y);
      fsm.SetNormalizedAngles(actionX, actionY, replies);
      lastUpdate := now;
    }

    /** The mirror driver was last commanded to a position. */
    static predicate Commanded(fsm: Mirror.FSM, x: real, y: real)
      reads fsm
    {
      fsm.Valid() && fsm.oldX == Mirror.Code(x) && fsm.oldY == Mirror.Code(y)
    }

    /** One axis of anti-windup. */
    static method AntiWindup(action: real, delta: real) returns (r: real)
      ensures r == Clamp(action + delta)
    {
      r := action;
      if Abs(action + delta) > 1.0 {
        if action + delta > 1.0 {
          r := 1.0;
        } else if action + delta < -1.0 {
          r := -1.0;
        }
      } else {
        r := action + delta;
      }
    }

    /** The error over the time that passed, as far as it is let count. */
    static method Delta(error: real, diff: real) returns (d: real)
      ensures d == Integral(error, diff)
    {
      var ts := if diff > TRACK_CONTROL_MAX_TS then TRACK_CONTROL_MAX_TS else diff;
      d := error * ts * TRACK_CONTROL_I;
    }

    /** Integrate the errors on the mirror, and command it; the actions are in range afterwards, whatever they were. */
    method Control(c: Calibration.Calibration, fsm: Mirror.FSM, x: real, y: real, spX: real, spY: real, now: real,
                   replies: seq<Mirror.Reply>)
      requires fsm.Valid() && |replies| == 12
      modifies this, fsm
      ensures var f, elapsed := c.TheSensitivity(), now - old(lastUpdate);
              && actionX == Controlled(old(actionX), Calibration.ImageX(f, spX - x, spY - y), elapsed)
              && actionY == Controlled(old(actionY), Calibration.ImageY(f, spX - x, spY - y), elapsed)
      ensures -1.0 <= actionX <= 1.0 && -1.0 <= actionY <= 1.0 && lastUpdate == now
      ensures Commanded(fsm, actionX, actionY)
      ensures old(fsm.Settled()) && Mirror.AllAcknowledged(replies) ==> fsm.Settled()
    {
      var diff := now - lastUpdate;
      var ex, ey := c.TransformDelta(spX - x, spY - y);
      assert Calibration.Exact(c.TheSensitivity(), [LeastSquares.Pair(spX - x, spY - y, ex, ey)]);
      Calibration.ImageOf(c.TheSensitivity(), spX - x, spY - y, ex, ey);
      hide Integral, Calibration.Exact, Calibration.ImageX, Calibration.ImageY, Mirror.Code, Mirror.AllAcknowledged;
      hide Mirror.OldThenNew, Mirror.GotsOf, Mirror.Moved;
      var dx := Delta(ex, diff);
      var dy := Delta(ey, diff);
      if dx > CALIB_FSM_MAX_DELTA { dx := CALIB_FSM_MAX_DELTA; }
      if dy > CALIB_FSM_MAX_DELTA { dy := CALIB_FSM_MAX_DELTA; }
      actionX := AntiWindup(actionX, dx);
      actionY := AntiWindup(actionY, dy);
      fsm.SetNormalizedAngles(actionX, actionY, replies);
      lastUpdate := now;
    }
  }

  /** One step towards a target: never past it, and strictly closer but not there whenever time has passed. */
  predicate Approaches(action: real, target: real, next: real, elapsed: real) {
    && (if action <= target then action <= next <= target else target <= next <= action)
    && (elapsed > 0.0 && action != target ==> next != action && next != target)
  }

  /** A controller whose error is the way that is left never overshoots. */
  lemma NoOvershoot(action: real, target: real, elapsed: real)
    requires -1.0 <= action <= 1.0 && -1.0 <= target <= 1.0 && elapsed >= 0.0
    ensures Approaches(action, target, Controlled(action, target - action, elapsed), elapsed)
  {
    var error := target - action;
    StepIsPart(error, elapsed);
    hide Integral;
    LimitedStep(action, error, Integral(error, elapsed));
  }

  function Part(whole: real, factor: real): real { whole * factor }

  /** An integral step is at most two fifths of the error. */
  lemma StepIsPart(error: real, elapsed: real)
    requires elapsed >= 0.0
    ensures var step := Integral(error, elapsed);
            && (error > 0.0 ==> 0.0 <= step < error) && (error < 0.0 ==> error < step <= 0.0)
            && (error == 0.0 ==> step == 0.0) && (elapsed > 0.0 && error != 0.0 ==> step != 0.0)
  {
    var ts := if elapsed > TRACK_CONTROL_MAX_TS then TRACK_CONTROL_MAX_TS else elapsed;
    var gain := 8.0 * ts;
    assert Integral(error, elapsed) == Part(error, gain) by {
      assert error * ts * 8.0 == error * (8.0 * ts);
    }
    hide Integral, Part;
    PartOf(error, gain);
  }

  lemma PartOf(whole: real, factor: real)
    requires 0.0 <= factor < 1.0
    ensures whole > 0.0 ==> 0.0 <= Part(whole, factor) < whole && (factor > 0.0 ==> Part(whole, factor) > 0.0)
    ensures whole < 0.0 ==> whole < Part(whole, factor) <= 0.0 && (factor > 0.0 ==> Part(whole, factor) < 0.0)
    ensures whole == 0.0 ==> Part(whole, factor) == 0.0
  {
    if whole > 0.0 {
      PartOfPositive(whole, factor);
    } else if whole < 0.0 {
      PartOfPositive(-whole, factor);
      assert Part(-whole, factor) == -Part(whole, factor);
    }
  }

  lemma PartOfPositive(whole: real, factor: real)
    requires whole > 0.0 && 0.0 <= factor < 1.0
    ensures 0.0 <= Part(whole, factor) < whole && (factor > 0.0 ==> Part(whole, factor) > 0.0)
  {
    LeastSquares.ProductPositive(whole, 1.0 - factor);
    assert whole * (1.0 - factor) == whole - Part(whole, factor);
    if factor > 0.0 {
      LeastSquares.ProductPositive(whole, factor);
    } else {
      assert whole * 0.0 == 0.0;
    }
  }

  /** A step that is part of the way, limited upwards, stays part of the way. */
  lemma LimitedStep(action: real, error: real, step: real)
    requires -1.0 <= action <= 1.0 && -1.0 <= action + error <= 1.0
    requires (error >= 0.0 ==> 0.0 <= step <= error) && (error < 0.0 ==> error < step <= 0.0)
    ensures var next := Clamp(action + if step > CALIB_FSM_MAX_DELTA then CALIB_FSM_MAX_DELTA else step);
            && (if error >= 0.0 then action <= next <= action + error else action + error < next <= action)
            && (next == action <==> step == 0.0) && (0.0 <= step < error ==> next < action + error)
  {}

  lemma ErrorIsTheWayLeft(m: Calibration.Affine, x: real, y: real, spX: real, spY: real)
    ensures var f := Calibration.LinearPart(m);
            && Calibration.ImageX(f, spX - x, spY - y) == Calibration.ImageX(m, spX, spY) - Calibration.ImageX(m, x, y)
            && Calibration.ImageY(f, spX - x, spY - y) == Calibration.ImageY(m, spX, spY) - Calibration.ImageY(m, x, y)
  {
    Calibration.MissOfStep(m, LeastSquares.Pair(spX, spY, 0.0, 0.0), LeastSquares.Pair(x, y, 0.0, 0.0));
  }

  predicate OnMirror(m: Calibration.Affine, x: real, y: real) {
    -1.0 <= Calibration.ImageX(m, x, y) <= 1.0 && -1.0 <= Calibration.ImageY(m, x, y) <= 1.0
  }

  /** With a calibration from exactly mapped points, and the mirror where the map says for the spot, the controller
      approaches on both axes the position that the map says for the set point, and never overshoots. */
  lemma ControlApproaches(m: Calibration.Affine, x: real, y: real, spX: real, spY: real, elapsed: real)
    requires OnMirror(m, x, y) && OnMirror(m, spX, spY) && elapsed >= 0.0
    ensures var f, ax, ay := Calibration.LinearPart(m), Calibration.ImageX(m, x, y), Calibration.ImageY(m, x, y);
            var nextX := Controlled(ax, Calibration.ImageX(f, spX - x, spY - y), elapsed);
            var nextY := Controlled(ay, Calibration.ImageY(f, spX - x, spY - y), elapsed);
            && Approaches(ax, Calibration.ImageX(m, spX, spY), nextX, elapsed)
            && Approaches(ay, Calibration.ImageY(m, spX, spY), nextY, elapsed)
  {
    ErrorIsTheWayLeft(m, x, y, spX, spY);
    hide Controlled, Approaches, Calibration.ImageX, Calibration.ImageY;
    NoOvershoot(Calibration.ImageX(m, x, y), Calibration.ImageX(m, spX, spY), elapsed);
    NoOvershoot(Calibration.ImageY(m, x, y), Calibration.ImageY(m, spX, spY), elapsed);
  }

  /** The step limit only works upwards: from an action in range, one call moves it by at most the limit exactly
      when the step down that was asked for, cut at the end of the range, does. */
  lemma StepLimit(action: real, error: real, elapsed: real)
    requires -1.0 <= action <= 1.0
    ensures var next := Controlled(action, error, elapsed);
            && next - action <= CALIB_FSM_MAX_DELTA
            && (next - action >= -CALIB_FSM_MAX_DELTA <==>
                  Integral(error, elapsed) >= -CALIB_FSM_MAX_DELTA || action + 1.0 <= CALIB_FSM_MAX_DELTA)
  {}

  /** A single step can cross the whole range downwards: with 100 pixels to a unit, a spot that is 500 pixels off. */
  method StepDownUnlimited(f: Mirror.Fpga, setup: seq<Mirror.Reply>, replies: seq<Mirror.Reply>)
    returns (before: real, after: real)
    requires |setup| == 24 && |replies| == 12
    ensures before == 1.0 && after == -1.0
  {
    var c := new Calibration.Calibration();
    c.s00, c.s11 := 0.01, 0.01;
    var fsm := new Mirror.FSM(f, setup);
    var t := new Tracking();
    t.actionX := 1.0;
    before := t.actionX;
    t.Control(c, fsm, 1500.0, 1000.0, 1000.0, 1000.0, 1.0, replies);
    after := t.actionX;
  }

  /** A spot near the right edge of the sensor: the window sticks out of it. */
  method WindowSticksOut() returns (right: int)
    ensures right > CAMERA_WIDTH
  {
    var window := new AOI;
    window.x, window.y, window.w, window.h := 0, 0, CAMERA_WIDTH, CAMERA_HEIGHT;
    UpdateTrackingWindow(2500, 900, 70.0, 100.0, 10.0, window);
    assert Side(10.0) == 60 && SquareStart(2500, 70.0, 60) == 2540;
    right := window.x + window.w;
  }

  // ---- many steps ----

  /** One axis after steps at these intervals towards a target, with the error the way that is left. */
  function Steps(action: real, target: real, times: seq<real>): real {
    if times == [] then action
    else
      var last := Steps(action, target, times[..|times| - 1]);
      Controlled(last, target - last, times[|times| - 1])
  }

  function Distance(a: real, b: real): real { Abs(a - b) }

  /** What every step of at least h gains outside of eps. */
  function Progress(h: real, eps: real): real {
    var gained := Part(eps, 8.0 * if h > TRACK_CONTROL_MAX_TS then TRACK_CONTROL_MAX_TS else h);
    if gained > CALIB_FSM_MAX_DELTA then CALIB_FSM_MAX_DELTA else gained
  }

  lemma PartMonotone(a: real, b: real, f: real, g: real)
    requires 0.0 <= a <= b && 0.0 <= f <= g
    ensures Part(a, f) <= Part(b, g)
  {
    assert a * f <= b * f;
    assert b * f <= b * g;
  }

  lemma IntegralIsPart(error: real, elapsed: real)
    ensures var ts := if elapsed > TRACK_CONTROL_MAX_TS then TRACK_CONTROL_MAX_TS else elapsed;
            Integral(error, elapsed) == Part(error, 8.0 * ts) && Integral(-error, elapsed) == -Integral(error, elapsed)
  {
    var ts := if elapsed > TRACK_CONTROL_MAX_TS then TRACK_CONTROL_MAX_TS else elapsed;
    assert error * ts * 8.0 == error * (8.0 * ts);
    assert (-error) * ts * 8.0 == -(error * ts * 8.0);
  }

  lemma StepGains(error: real, elapsed: real, h: real, eps: real)
    requires 0.0 < h <= elapsed && 0.0 < eps
    ensures error >= eps ==>
              Integral(error, elapsed) >= Progress(h, eps) || Integral(error, elapsed) > CALIB_FSM_MAX_DELTA
    ensures error <= -eps ==> Integral(error, elapsed) <= -Progress(h, eps)
  {
    var ts := if elapsed > TRACK_CONTROL_MAX_TS then TRACK_CONTROL_MAX_TS else elapsed;
    var least := if h > TRACK_CONTROL_MAX_TS then TRACK_CONTROL_MAX_TS else h;
    IntegralIsPart(error, elapsed);
    IntegralIsPart(-error, elapsed);
    if error >= eps {
      PartMonotone(eps, error, 8.0 * least, 8.0 * ts);
    } else if error <= -eps {
      PartMonotone(eps, -error, 8.0 * least, 8.0 * ts);
    }
    hide Part, Integral;
  }

  /** A step comes closer by the progress, or the target is within eps. */
  lemma StepShrinks(action: real, target: real, elapsed: real, h: real, eps: real)
    requires -1.0 <= action <= 1.0 && -1.0 <= target <= 1.0 && 0.0 < h <= elapsed && 0.0 < eps
    ensures var next := Controlled(action, target - action, elapsed);
            && -1.0 <= next <= 1.0
            && (Distance(next, target) <= eps || Distance(next, target) <= Distance(action, target) - Progress(h, eps))
  {
    NoOvershoot(action, target, elapsed);
    StepGains(target - action, elapsed, h, eps);
    hide Integral, Progress;
  }

  lemma {:induction false} StepsShrink(action: real, target: real, times: seq<real>, h: real, eps: real)
    requires -1.0 <= action <= 1.0 && -1.0 <= target <= 1.0 && 0.0 < h && 0.0 < eps
    requires forall i | 0 <= i < |times| :: times[i] >= h
    ensures var last := Steps(action, target, times);
            && -1.0 <= last <= 1.0
            && (Distance(last, target) <= eps ||
                Distance(last, target) <= Distance(action, target) - |times| as real * Progress(h, eps))
  {
    hide Controlled, Progress, Distance;
    if times == [] {
      assert 0.0 * Progress(h, eps) == 0.0;
    } else {
      var n := |times| - 1;
      StepsShrink(action, target, times[..n], h, eps);
      StepShrinks(Steps(action, target, times[..n]), target, times[n], h, eps);
      OneStepMore(n, Progress(h, eps));
      StaysClose(Steps(action, target, times[..n]), target, times[n], eps);
    }
  }

  lemma OneStepMore(n: nat, p: real)
    ensures (n + 1) as real * p == n as real * p + p
  {}

  lemma StaysClose(action: real, target: real, elapsed: real, eps: real)
    requires -1.0 <= action <= 1.0 && -1.0 <= target <= 1.0 && elapsed >= 0.0
    ensures Distance(Controlled(action, target - action, elapsed), target) <= Distance(action, target)
  {
    NoOvershoot(action, target, elapsed);
    hide Controlled;
  }

  /** So many steps, at intervals of at least h, come as close to the target as one likes, from wherever. */
  lemma Converges(target: real, h: real, eps: real) returns (n: nat)
    requires -1.0 <= target <= 1.0 && 0.0 < h && 0.0 < eps
    ensures forall action, times: seq<real> |
              -1.0 <= action <= 1.0 && |times| >= n && (forall i | 0 <= i < |times| :: times[i] >= h) ::
              Distance(Steps(action, target, times), target) <= eps
  {
    var p := Progress(h, eps);
    ProgressPositive(h, eps);
    n := (2.0 / p).Floor + 1;
    EnoughSteps(n, p);
    forall action, times: seq<real> |
      -1.0 <= action <= 1.0 && |times| >= n && (forall i | 0 <= i < |times| :: times[i] >= h)
      ensures Distance(Steps(action, target, times), target) <= eps
    {
      hide Steps, Progress, Distance;
      ManySteps(action, target, times, h, eps, n);
    }
  }

  lemma ManySteps(action: real, target: real, times: seq<real>, h: real, eps: real, n: nat)
    requires -1.0 <= action <= 1.0 && -1.0 <= target <= 1.0 && 0.0 < h && 0.0 < eps
    requires Progress(h, eps) > 0.0 && n as real * Progress(h, eps) >= 2.0
    requires |times| >= n && forall i | 0 <= i < |times| :: times[i] >= h
    ensures Distance(Steps(action, target, times), target) <= eps
  {
    hide Steps, Progress;
    var last, p := Steps(action, target, times), Progress(h, eps);
    StepsShrink(action, target, times, h, eps);
    MoreSteps(n, |times|, p);
    AtMostTwoApart(action, target);
    hide Distance;
    var gained := |times| as real * p;
    assert gained >= 2.0;
    assert Distance(last, target) <= eps || Distance(last, target) <= Distance(action, target) - gained;
    assert Distance(last, target) <= eps;
  }

  lemma AtMostTwoApart(action: real, target: real)
    requires -1.0 <= action <= 1.0 && -1.0 <= target <= 1.0
    ensures Distance(action, target) <= 2.0
  {}

  lemma ProgressPositive(h: real, eps: real)
    requires 0.0 < h && 0.0 < eps
    ensures Progress(h, eps) > 0.0
  {
    var factor := 8.0 * if h > TRACK_CONTROL_MAX_TS then TRACK_CONTROL_MAX_TS else h;
    assert factor > 0.0;
    LeastSquares.ProductPositive(eps, factor);
    assert Part(eps, factor) > 0.0;
  }

  lemma EnoughSteps(n: nat, p: real)
    requires p > 0.0 && n == (2.0 / p).Floor + 1
    ensures n as real * p >= 2.0
  {
    var q := 2.0 / p;
    assert q * p == 2.0;
    assert (n as real - q) * p >= 0.0;
  }

  lemma MoreSteps(n: nat, m: nat, p: real)
    requires p > 0.0 && n <= m
    ensures m as real * p >= n as real * p
  {
    assert (m - n) as real * p >= 0.0;
  }
}
