/** What every run of the pointing process keeps, for any commands, frames, FPGA answers and clock. */
module PatRuns {
  import opened PatMachine

  // ---- runs ----

  /** What one turn of either loop is given: the active loop takes its part. */
  datatype Turn = Turn(command: StandbyCommand, input: MainInput)

  function TurnStep(s: State, t: Turn): State {
    if !s.mode.operational then s
    else if s.mode.standby then StandbyStep(s, t.command, t.input.clock.check)
    else MainStep(s, t.input)
  }

  function RunFrom(s: State, turns: seq<Turn>): State {
    if turns == [] then s else TurnStep(RunFrom(s, turns[..|turns| - 1]), turns[|turns| - 1])
  }

  /** The clock never goes back. */
  predicate Ticking(turns: seq<Turn>) {
    && (forall k | 0 <= k < |turns| :: var c := turns[k].input.clock; 0.0 <= c.start <= c.stamp <= c.check)
    && (forall k | 0 < k < |turns| :: turns[k - 1].input.clock.check <= turns[k].input.clock.start)
  }

  /** The primary loop: Standby and main loops in turn, until the process ends or the input does. */
  method Process(p: Pat, turns: seq<Turn>)
    modifies p
    ensures p.View() == RunFrom(old(p.View()), turns)
  {
    hide StandbyStep, MainStep;
    ghost var start := p.View();
    var n := 0;
    while p.mode.operational && n < |turns|
      invariant n <= |turns| && p.View() == RunFrom(start, turns[..n])
      decreases |turns| - n, 1
    {
      ghost var m := n;
      while p.mode.standby && p.mode.operational && n < |turns|
        invariant m <= n <= |turns| && p.View() == RunFrom(start, turns[..n])
        invariant n == m ==> p.mode.operational
        decreases |turns| - n
      {
        p.StandbyTurn(turns[n].command, turns[n].input.clock.check);
        assert turns[..n + 1][..n] == turns[..n];
        n := n + 1;
      }
      while p.mode.operational && !p.mode.standby && n < |turns|
        invariant m <= n <= |turns| && p.View() == RunFrom(start, turns[..n])
        invariant n == m ==> p.mode.operational && !p.mode.standby
        decreases |turns| - n
      {
        p.MainTurn(turns[n].input);
        assert turns[..n + 1][..n] == turns[..n];
        n := n + 1;
      }
    }
    OverStays(start, turns, n);
    assert turns[..|turns|] == turns;
  }

  /** Once over, the process does nothing more. */
  lemma {:induction false} OverStays(s: State, turns: seq<Turn>, n: nat)
    requires n <= |turns| && (n == |turns| || !RunFrom(s, turns[..n]).mode.operational)
    ensures RunFrom(s, turns) == RunFrom(s, turns[..n])
    decreases |turns|
  {
    hide StandbyStep, MainStep;
    if n == |turns| {
      assert turns[..n] == turns;
    } else {
      var more := turns[..|turns| - 1];
      assert more[..n] == turns[..n];
      OverStays(s, more, n);
    }
  }

  // ---- what a history must respect ----

  /** The last answer about the calibration laser. */
  datatype LaserState = Unknown | On | Off

  function LastLaser(h: History): LaserState {
    match h
    case Begin => Unknown
    case Then(before, LaserCommand(on, done)) => if !done then Unknown else if on then On else Off
    case Then(before, _) => LastLaser(before)
  }

  predicate WasCalibrated(h: History) {
    h.Then? && ((h.event.Calibrated? && h.event.success) || WasCalibrated(h.before))
  }

  predicate HeaterJustConfirmed(h: History) {
    h.Then? && (h.event == HeaterRead(true) || h.event == HeaterWrite(true))
  }

  /** Evidence of where a spot is: a frame, or for the calibration spot also a calibration. */
  predicate Shows(e: Event, spot: Spot) {
    (e.Seen? && e.which == spot) || (spot == Calib && e.Calibrated? && e.success)
  }

  function TimeOf(e: Event): real { if e.Seen? then e.seenAt else if e.Calibrated? then e.at else 0.0 }

  predicate EverShown(h: History, spot: Spot) { h.Then? && (Shows(h.event, spot) || EverShown(h.before, spot)) }

  /** The spot was last shown at time u or before. */
  predicate ShownUpTo(h: History, spot: Spot, u: real) {
    h.Then? ==> (Shows(h.event, spot) ==> TimeOf(h.event) <= u) && ShownUpTo(h.before, spot, u)
  }

  /** For more than three seconds before t, nothing has shown the spot. */
  predicate SilentBefore(h: History, spot: Spot, t: real) {
    h.Then? ==> (Shows(h.event, spot) ==> t - TimeOf(h.event) > 3.0) && SilentBefore(h.before, spot, t)
  }

  /** What may be done after a history:
      - the mirror is steered by pixel positions only after a successful calibration;
      - the beacon is looked for only with the calibration laser confirmed off, and the calibration spot
        only with it confirmed on;
      - the laser is commanded on only right after its heater was confirmed on;
      - a spot is given up only when it had been shown, and not for more than three seconds. */
  predicate Allowed(h: History, e: Event) {
    match e
    case Control => WasCalibrated(h)
    case ControlOpenLoop => WasCalibrated(h)
    case Acquire => LastLaser(h) == Off
    case Capture(spot) => LastLaser(h) == if spot == Beacon then Off else On
    case Calibrated(_, _) => LastLaser(h) == On
    case LaserCommand(on, _) => on ==> HeaterJustConfirmed(h)
    case GivenUp(spot, t) => EverShown(h, spot) && SilentBefore(h, spot, t)
    case _ => true
  }

  predicate Safe(h: History) { h.Then? ==> Allowed(h.before, h.event) && Safe(h.before) }

  predicate Within(part: History, h: History) { part == h || (h.Then? && Within(part, h.before)) }

  lemma {:induction false} SafeEverywhere(h: History, before: History, e: Event)
    requires Safe(h) && Within(Then(before, e), h)
    ensures Allowed(before, e)
    decreases h
  {
    if h != Then(before, e) {
      SafeEverywhere(h.before, before, e);
    }
  }

  lemma {:induction false} LaterShown(h: History, spot: Spot, u: real, v: real)
    requires ShownUpTo(h, spot, u) && u <= v
    ensures ShownUpTo(h, spot, v)
    decreases h
  {
    if h.Then? {
      LaterShown(h.before, spot, u, v);
    }
  }

  lemma {:induction false} Silence(h: History, spot: Spot, u: real, t: real)
    requires ShownUpTo(h, spot, u) && t - u > 3.0
    ensures SilentBefore(h, spot, t)
    decreases h
  {
    if h.Then? {
      Silence(h.before, spot, u, t);
    }
  }

  // ---- the invariant ----

  /** What is known of a history that the laser and the tests do not change. */
  ghost predicate SameKnowledge(h: History, g: History) {
    (Safe(h) ==> Safe(g)) && WasCalibrated(h) == WasCalibrated(g) &&
    (forall spot :: EverShown(h, spot) == EverShown(g, spot)) &&
    (forall spot, u :: ShownUpTo(h, spot, u) == ShownUpTo(g, spot, u))
  }

  /** One more event. */
  lemma Append(h: History, e: Event)
    ensures Safe(Then(h, e)) <==> Safe(h) && Allowed(h, e)
    ensures WasCalibrated(Then(h, e)) <==> (e.Calibrated? && e.success) || WasCalibrated(h)
    ensures forall spot :: EverShown(Then(h, e), spot) <==> Shows(e, spot) || EverShown(h, spot)
    ensures forall spot, u :: ShownUpTo(Then(h, e), spot, u) <==>
            (Shows(e, spot) ==> TimeOf(e) <= u) && ShownUpTo(h, spot, u)
    ensures !e.LaserCommand? ==> LastLaser(Then(h, e)) == LastLaser(h)
  {}

  lemma LaserOnKeeps(h: History, a: Answers)
    ensures SameKnowledge(h, LaserOn(h, a)) && (LaserIsOn(a) ==> LastLaser(LaserOn(h, a)) == On)
  {
    var read := Then(h, HeaterRead(a.heaterIsOn));
    assert SameKnowledge(h, read);
    var heated := if a.heaterIsOn then read else Then(read, HeaterWrite(a.heaterWritten));
    assert SameKnowledge(read, heated);
  }

  lemma LaserOffKeeps(h: History, off: bool)
    ensures SameKnowledge(h, LaserOff(h, off)) && (off ==> LastLaser(LaserOff(h, off)) == Off)
  {}

  lemma LaserTestKeeps(h: History, t: LaserTest)
    ensures SameKnowledge(h, LaserTested(h, t))
  {
    hide LaserOn, LaserOff;
    LaserOnKeeps(h, t.on);
    LaserOffKeeps(LaserOn(h, t.on), t.off);
  }

  predicate CalibTimed(s: State) { s.know.haveCalib || ShownUpTo(s.history, Calib, s.know.startCalibLoss) }

  predicate BeaconTimed(s: State) {
    EverShown(s.history, Beacon) && (s.know.haveBeacon || ShownUpTo(s.history, Beacon, s.know.startBeaconLoss))
  }

  predicate ClosedLoop(p: Phase) { p.ClInit? || p.ClBeacon? || p.ClCalib? }

  predicate PhaseHolds(s: State) {
    var p, bcn, open := s.mode.phase, s.options.bcnAlignment, s.options.openLoop;
    && (p.Acquisition? || p.OpenLoop? ==> (WasCalibrated(s.history) || bcn) && (!open ==> CalibTimed(s)))
    && (ClosedLoop(p) ==> WasCalibrated(s.history) && !open && CalibTimed(s))
    && (p.OpenLoop? || ClosedLoop(p) ==> BeaconTimed(s))
  }

  predicate Invariant(s: State, now: real) {
    && Safe(s.history)
    && (s.options.bcnAlignment ==> s.options.openLoop)
    && (s.know.haveCalib ==> WasCalibrated(s.history))
    && ShownUpTo(s.history, Beacon, now) && ShownUpTo(s.history, Calib, now)
    && (!s.mode.standby ==> PhaseHolds(s))
  }

  lemma {:induction false} CalibratedIsShown(h: History)
    ensures WasCalibrated(h) ==> EverShown(h, Calib)
    decreases h
  {
    if h.Then? {
      CalibratedIsShown(h.before);
    }
  }

  // ---- every step keeps it ----

  lemma SelfTestKeeps(s: State, a: SelfTestAnswers, at: real)
    requires Invariant(s, at) && s.mode.standby
    ensures Invariant(SelfTestStep(s, a, at), at)
  {
    hide LaserOn, LaserTested, LaserRounds, Safe, WasCalibrated, EverShown, ShownUpTo, LastLaser;
    var next := SelfTestStep(s, a, at);
    if !a.fpga {
      Append(s.history, next.history.event);
    } else {
      var tested := LaserTestHistory(s.history, a);
      LaserTestHistoryKeeps(s.history, a);
      LaserOnKeeps(tested, a.fsmLaser);
      var moved := LaserOn(tested, a.fsmLaser);
      Append(moved, Calibrated(a.calibrates, at));
      Append(next.history.before, next.history.event);
    }
  }

  lemma LaserTestHistoryKeeps(h: History, a: SelfTestAnswers)
    ensures SameKnowledge(h, LaserTestHistory(h, a))
  {
    hide LaserOn, LaserTested, Safe, WasCalibrated, EverShown, ShownUpTo, LastLaser;
    var lit := LaserOn(Then(h, Center), a.first);
    Append(h, Center);
    LaserOnKeeps(Then(h, Center), a.first);
    LaserTestKeeps(lit, a.one);
    LaserTestKeeps(LaserTested(lit, a.one), a.two);
  }

  lemma StandbyKeeps(s: State, c: StandbyCommand, at: real)
    requires Invariant(s, at) && s.mode.standby
    ensures Invariant(StandbyStep(s, c, at), at)
  {
    hide LaserOn, LaserTested, SelfTestStep, Safe, WasCalibrated, EverShown, ShownUpTo, LastLaser;
    match c
    case CalibTest(laser, calibrates) =>
      LaserOnKeeps(s.history, laser);
      Append(LaserOn(s.history, laser), Calibrated(calibrates, at));
    case FsmTest(laser) => LaserOnKeeps(s.history, laser);
    case CalibLaserTest(one, two) =>
      Append(s.history, Center);
      LaserTestKeeps(Then(s.history, Center), one);
      LaserTestKeeps(LaserTested(Then(s.history, Center), one), two);
    case SelfTest(answers) => SelfTestKeeps(s, answers, at);
    case TxAlign => Append(s.history, ControlOpenLoop);
    case UpdateFsm => Append(s.history, ControlOpenLoop);
    case _ =>
  }

  predicate InOrder(c: Clock) { c.start <= c.stamp <= c.check }

  /** All that was shown is not later than the reading of the clock. */
  lemma Now(s: State, was: real, now: real)
    requires Invariant(s, was) && was <= now
    ensures Invariant(s, now)
  {
    LaterShown(s.history, Beacon, was, now);
    LaterShown(s.history, Calib, was, now);
  }

  lemma CalibrationKeeps(s: State, i: MainInput)
    requires Invariant(s, i.clock.start) && !s.mode.standby && s.mode.phase.Calibration? && InOrder(i.clock)
    ensures Invariant(CalibrationStep(s, i), i.clock.check)
  {
    Now(s, i.clock.start, i.clock.check);
    hide LaserOn, Safe, WasCalibrated, EverShown, ShownUpTo, LastLaser;
    LaserOnKeeps(s.history, i.laser);
    Append(LaserOn(s.history, i.laser), Calibrated(i.calibrates, i.clock.check));
  }

  lemma AcquisitionKeeps(s: State, i: MainInput)
    requires Invariant(s, i.clock.start) && !s.mode.standby && s.mode.phase.Acquisition? && InOrder(i.clock)
    ensures Invariant(AcquisitionStep(s, i), i.clock.check)
  {
    Now(s, i.clock.start, i.clock.check);
    hide LaserOff, Safe, WasCalibrated, EverShown, ShownUpTo, LastLaser;
    LaserOffKeeps(s.history, i.off);
    var dark, seen := LaserOff(s.history, i.off), Seen(Beacon, i.clock.check);
    Append(dark, Acquire);
    Append(Then(dark, Acquire), seen);
    Append(Then(Then(dark, Acquire), seen), ControlOpenLoop);
  }

  /** After a beacon frame: what is known and when it was last shown. */
  lemma BeaconFrameKeeps(s: State, i: MainInput, missingFrameCounts: bool)
    requires Invariant(s, i.clock.start) && !s.mode.standby && InOrder(i.clock) && BeaconTimed(s)
    ensures var h, k := BeaconFrame(s.history, i), BeaconLooked(s.know, i, missingFrameCounts);
            && Safe(h) && WasCalibrated(h) == WasCalibrated(s.history) && EverShown(h, Beacon)
            && (forall u :: ShownUpTo(h, Calib, u) == ShownUpTo(s.history, Calib, u))
            && ShownUpTo(h, Beacon, i.clock.check)
            && (k.haveBeacon || ShownUpTo(h, Beacon, k.startBeaconLoss))
            && k.haveCalib == s.know.haveCalib && k.startCalibLoss == s.know.startCalibLoss
  {
    hide LaserOff, Safe, WasCalibrated, EverShown, ShownUpTo, LastLaser;
    LaserOffKeeps(s.history, i.off);
    LaterShown(s.history, Beacon, i.clock.start, i.clock.stamp);
    LaterShown(s.history, Beacon, i.clock.start, i.clock.check);
    var dark := LaserOff(s.history, i.off);
    Append(dark, Capture(Beacon));
    Append(Then(dark, Capture(Beacon)), Seen(Beacon, i.clock.check));
  }

  /** A timeout only gives up what has been silent for long enough. */
  lemma GivingUp(h: History, spot: Spot, loss: real, check: real)
    requires Safe(h) && EverShown(h, spot) && ShownUpTo(h, spot, loss) && check - loss > 3.0
    ensures Safe(Then(h, GivenUp(spot, check)))
  {
    Silence(h, spot, loss, check);
  }

  lemma ClBeaconKeeps(s: State, i: MainInput)
    requires Invariant(s, i.clock.start) && !s.mode.standby && InOrder(i.clock) && s.mode.phase.ClBeacon?
    ensures Invariant(ClBeaconStep(s, i), i.clock.check)
  {
    LaterShown(s.history, Calib, i.clock.start, i.clock.check);
    BeaconFrameKeeps(s, i, false);
    hide BeaconFrame, BeaconLooked, Safe, WasCalibrated, EverShown, ShownUpTo;
    var know, h := BeaconLooked(s.know, i, false), BeaconFrame(s.history, i);
    Append(h, GivenUp(Beacon, i.clock.check));
    if BeaconTimeout(know, i.clock) {
      GivingUp(h, Beacon, know.startBeaconLoss, i.clock.check);
    }
  }

  /** After a frame of the calibration spot. */
  lemma CalibFrameKeeps(s: State, i: MainInput)
    requires Invariant(s, i.clock.start) && InOrder(i.clock) && WasCalibrated(s.history) && CalibTimed(s)
    requires BeaconTimed(s)
    ensures var h, k := CalibFrame(s.history, i), CalibLooked(s.know, i);
            && Safe(h) && WasCalibrated(h) && EverShown(h, Beacon) && EverShown(h, Calib)
            && (forall u :: ShownUpTo(h, Beacon, u) == ShownUpTo(s.history, Beacon, u))
            && ShownUpTo(h, Calib, i.clock.check)
            && (k.haveCalib || ShownUpTo(h, Calib, k.startCalibLoss))
            && k.haveBeacon == s.know.haveBeacon && k.startBeaconLoss == s.know.startBeaconLoss
  {
    hide LaserOn, Safe, WasCalibrated, EverShown, ShownUpTo, LastLaser;
    LaserOnKeeps(s.history, i.laser);
    LaterShown(s.history, Calib, i.clock.start, i.clock.stamp);
    LaterShown(s.history, Calib, i.clock.start, i.clock.check);
    CalibratedIsShown(s.history);
    var lit := LaserOn(s.history, i.laser);
    var framed, seen := Then(lit, Capture(Calib)), Seen(Calib, i.clock.check);
    Append(lit, Capture(Calib));
    Append(framed, seen);
    Append(Then(framed, seen), Control);
  }

  lemma ClCalibKeeps(s: State, i: MainInput)
    requires Invariant(s, i.clock.start) && !s.mode.standby && InOrder(i.clock) && s.mode.phase.ClCalib?
    ensures Invariant(ClCalibStep(s, i), i.clock.check)
  {
    LaterShown(s.history, Beacon, i.clock.start, i.clock.check);
    CalibFrameKeeps(s, i);
    hide CalibFrame, CalibLooked, CalibSeen, Safe, WasCalibrated, EverShown, ShownUpTo;
    var know, h := CalibLooked(s.know, i), CalibFrame(s.history, i);
    Append(h, GivenUp(Calib, i.clock.check));
    if CalibTimeout(know, i.clock) {
      GivingUp(h, Calib, know.startCalibLoss, i.clock.check);
    }
  }

  lemma OpenLoopKeeps(s: State, i: MainInput)
    requires Invariant(s, i.clock.start) && !s.mode.standby && InOrder(i.clock) && s.mode.phase.OpenLoop?
    ensures Invariant(OpenLoopStep(s, i), i.clock.check)
  {
    LaterShown(s.history, Calib, i.clock.start, i.clock.check);
    BeaconFrameKeeps(s, i, true);
    hide BeaconFrame, BeaconLooked, BeaconSeen, Safe, WasCalibrated, EverShown, ShownUpTo;
    var know := BeaconLooked(s.know, i, true);
    var h := ThenIf(BeaconFrame(s.history, i), BeaconSeen(i) && !s.options.bcnAlignment, ControlOpenLoop);
    Append(BeaconFrame(s.history, i), ControlOpenLoop);
    Append(h, GivenUp(Beacon, i.clock.check));
    if BeaconTimeout(know, i.clock) {
      GivingUp(h, Beacon, know.startBeaconLoss, i.clock.check);
    }
  }

  lemma PhaseKeeps(s: State, i: MainInput)
    requires Invariant(s, i.clock.start) && !s.mode.standby && InOrder(i.clock)
    ensures Invariant(PhaseStep(s, i), i.clock.check)
  {
    hide CalibrationStep, AcquisitionStep, ClBeaconStep, ClCalibStep, OpenLoopStep;
    hide Safe, WasCalibrated, EverShown, ShownUpTo;
    match s.mode.phase
    case Calibration => CalibrationKeeps(s, i);
    case Acquisition => AcquisitionKeeps(s, i);
    case ClBeacon => ClBeaconKeeps(s, i);
    case ClCalib => ClCalibKeeps(s, i);
    case OpenLoop => OpenLoopKeeps(s, i);
    case ClInit => Now(s, i.clock.start, i.clock.check);
    case StaticPoint =>
      Now(s, i.clock.start, i.clock.check);
      Append(s.history, ControlOpenLoop);
      Append(s.history, Center);
  }

  lemma MainKeeps(s: State, i: MainInput)
    requires Invariant(s, i.clock.start) && !s.mode.standby && InOrder(i.clock)
    ensures Invariant(MainStep(s, i), i.clock.check)
  {
    Now(s, i.clock.start, i.clock.check);
    hide PhaseStep, Safe, WasCalibrated, EverShown, ShownUpTo;
    PhaseKeeps(OffsetsUpdated(s, i), i);
  }

  lemma TurnKeeps(s: State, t: Turn, was: real)
    requires Invariant(s, was) && was <= t.input.clock.start && InOrder(t.input.clock)
    ensures Invariant(TurnStep(s, t), t.input.clock.check)
  {
    hide StandbyStep, MainStep, Invariant;
    Now(s, was, t.input.clock.start);
    Now(s, was, t.input.clock.check);
    if s.mode.operational {
      if s.mode.standby {
        StandbyKeeps(s, t.command, t.input.clock.check);
      } else {
        MainKeeps(s, t.input);
      }
    }
  }

  function LastReading(turns: seq<Turn>): real {
    if turns == [] then 0.0 else turns[|turns| - 1].input.clock.check
  }

  /** The theorem: on every run, everything done is allowed by what was done before. */
  lemma {:induction false} RunsAreSafe(staticPoint: bool, turns: seq<Turn>)
    requires Ticking(turns)
    ensures Invariant(RunFrom(Initial(staticPoint), turns), LastReading(turns))
    ensures Safe(RunFrom(Initial(staticPoint), turns).history)
    decreases |turns|
  {
    hide TurnStep;
    if turns != [] {
      var n := |turns| - 1;
      RunsAreSafe(staticPoint, turns[..n]);
      hide Invariant;
      TurnKeeps(RunFrom(Initial(staticPoint), turns[..n]), turns[n], LastReading(turns[..n]));
      assert Safe(RunFrom(Initial(staticPoint), turns).history) by {
        InvariantIsSafe(RunFrom(Initial(staticPoint), turns), turns[n].input.clock.check);
      }
    }
  }

  lemma InvariantIsSafe(s: State, now: real)
    requires Invariant(s, now)
    ensures Safe(s.history)
  {}

  /** Whatever is done on a run, whenever it is done, is allowed by what was done before it. */
  lemma EverythingAllowed(staticPoint: bool, turns: seq<Turn>, before: History, e: Event)
    requires Ticking(turns) && Within(Then(before, e), RunFrom(Initial(staticPoint), turns).history)
    ensures Allowed(before, e)
  {
    RunsAreSafe(staticPoint, turns);
    SafeEverywhere(RunFrom(Initial(staticPoint), turns).history, before, e);
  }

  // ---- how long a spot had been known ----

  predicate Knows(s: State, spot: Spot) { if spot == Beacon then s.know.haveBeacon else s.know.haveCalib }

  function LossOf(s: State, spot: Spot): real {
    if spot == Beacon then s.know.startBeaconLoss else s.know.startCalibLoss
  }

  /** The start of the last turn at whose beginning the spot was known. */
  function LastKnown(staticPoint: bool, turns: seq<Turn>, spot: Spot): real {
    if turns == [] then 0.0
    else
      var n := |turns| - 1;
      if Knows(RunFrom(Initial(staticPoint), turns[..n]), spot) then turns[n].input.clock.start
      else LastKnown(staticPoint, turns[..n], spot)
  }

  /** Where the loss timer of the spot is looked at, now or later, before the spot is known again. */
  predicate Timing(s: State, spot: Spot) {
    var p := s.mode.phase;
    !s.mode.standby &&
    if spot == Beacon then p.OpenLoop? || ClosedLoop(p)
    else !s.options.openLoop && (p.Acquisition? || p.OpenLoop? || ClosedLoop(p))
  }

  lemma TimerStep(s: State, t: Turn, spot: Spot, held: real)
    requires Invariant(s, t.input.clock.start) && InOrder(t.input.clock) && held <= t.input.clock.start
    requires Timing(s, spot) && !Knows(s, spot) ==> held <= LossOf(s, spot)
    ensures var next, now := TurnStep(s, t), if Knows(s, spot) then t.input.clock.start else held;
            Timing(next, spot) && !Knows(next, spot) ==> now <= LossOf(next, spot)
  {
    if s.mode.operational {
      if s.mode.standby {
        TimerStandby(s, t.command, t.input.clock.check, spot);
      } else {
        OpenLoopIsOpen(s, t.input.clock.start);
        TimerMain(s, t.input, spot, held);
      }
    }
    hide Invariant, MainStep, StandbyStep, Timing, Knows, LossOf;
  }

  lemma TimerStandby(s: State, c: StandbyCommand, at: real, spot: Spot)
    requires s.mode.standby
    ensures Timing(StandbyStep(s, c, at), spot) ==> Knows(StandbyStep(s, c, at), spot)
  {
    hide LaserOn, LaserTested;
  }

  lemma OpenLoopIsOpen(s: State, now: real)
    requires Invariant(s, now) && !s.mode.standby
    ensures ClosedLoop(s.mode.phase) ==> !s.options.openLoop
  {}

  /** The spot was last known before its loss was stamped, if its timer may be looked at. */
  predicate Stamped(s: State, spot: Spot, held: real) { Timing(s, spot) && !Knows(s, spot) ==> held <= LossOf(s, spot) }

  predicate StaysStamped(s: State, next: State, i: MainInput, spot: Spot, held: real) {
    Stamped(next, spot, if Knows(s, spot) then i.clock.start else held)
  }

  lemma TimerMain(s: State, i: MainInput, spot: Spot, held: real)
    requires InOrder(i.clock) && held <= i.clock.start && !s.mode.standby
    requires ClosedLoop(s.mode.phase) ==> !s.options.openLoop
    requires Stamped(s, spot, held)
    ensures StaysStamped(s, MainStep(s, i), i, spot, held)
  {
    hide PhaseStep;
    TimerPhase(OffsetsUpdated(s, i), i, spot, held);
  }

  lemma TimerPhase(s: State, i: MainInput, spot: Spot, held: real)
    requires InOrder(i.clock) && held <= i.clock.start && !s.mode.standby
    requires ClosedLoop(s.mode.phase) ==> !s.options.openLoop
    requires Stamped(s, spot, held)
    ensures StaysStamped(s, PhaseStep(s, i), i, spot, held)
  {
    hide CalibrationStep, AcquisitionStep, ClBeaconStep, ClCalibStep, OpenLoopStep;
    match s.mode.phase
    case ClBeacon => TimerClBeacon(s, i, spot, held);
    case ClCalib => TimerClCalib(s, i, spot, held);
    case OpenLoop => TimerOpenLoop(s, i, spot, held);
    case Acquisition => TimerAcquisition(s, i, spot, held);
    case Calibration => TimerCalibration(s, i, spot, held);
    case _ =>
  }

  lemma TimerClBeacon(s: State, i: MainInput, spot: Spot, held: real)
    requires s.mode.phase.ClBeacon? && InOrder(i.clock) && held <= i.clock.start && !s.mode.standby
    requires !s.options.openLoop
    requires Stamped(s, spot, held)
    ensures StaysStamped(s, ClBeaconStep(s, i), i, spot, held)
  {
    hide BeaconFrame, BeaconSeen;
  }

  lemma TimerClCalib(s: State, i: MainInput, spot: Spot, held: real)
    requires s.mode.phase.ClCalib? && InOrder(i.clock) && held <= i.clock.start && !s.mode.standby
    requires !s.options.openLoop
    requires Stamped(s, spot, held)
    ensures StaysStamped(s, ClCalibStep(s, i), i, spot, held)
  {
    hide CalibFrame, CalibSeen, CalibVanished;
  }

  lemma TimerOpenLoop(s: State, i: MainInput, spot: Spot, held: real)
    requires s.mode.phase.OpenLoop? && InOrder(i.clock) && held <= i.clock.start && !s.mode.standby
    requires Stamped(s, spot, held)
    ensures StaysStamped(s, OpenLoopStep(s, i), i, spot, held)
  {
    hide BeaconFrame, BeaconSeen;
  }

  lemma TimerAcquisition(s: State, i: MainInput, spot: Spot, held: real)
    requires s.mode.phase.Acquisition? && InOrder(i.clock) && held <= i.clock.start && !s.mode.standby
    requires Stamped(s, spot, held)
    ensures StaysStamped(s, AcquisitionStep(s, i), i, spot, held)
  {
    hide LaserOff;
  }

  lemma TimerCalibration(s: State, i: MainInput, spot: Spot, held: real)
    requires s.mode.phase.Calibration? && !s.mode.standby
    ensures StaysStamped(s, CalibrationStep(s, i), i, spot, held)
  {
    hide LaserOn, LaserIsOn;
  }

  lemma {:induction false} TimersRun(staticPoint: bool, turns: seq<Turn>, spot: Spot)
    requires Ticking(turns)
    ensures var s, held := RunFrom(Initial(staticPoint), turns), LastKnown(staticPoint, turns, spot);
            && (Timing(s, spot) && !Knows(s, spot) ==> held <= LossOf(s, spot))
            && held <= if turns == [] then 0.0 else turns[|turns| - 1].input.clock.start
    decreases |turns|
  {
    hide TurnStep, Timing, Knows, LossOf;
    if turns == [] {
      NoTimerAtFirst(staticPoint, spot);
    } else {
      var n := |turns| - 1;
      var s, t := RunFrom(Initial(staticPoint), turns[..n]), turns[n];
      var was := if n == 0 then 0.0 else turns[n - 1].input.clock.check;
      RunsAreSafe(staticPoint, turns[..n]);
      hide Invariant;
      TimersRun(staticPoint, turns[..n], spot);
      Now(s, was, t.input.clock.start);
      TimerStep(s, t, spot, LastKnown(staticPoint, turns[..n], spot));
    }
  }

  lemma NoTimerAtFirst(staticPoint: bool, spot: Spot)
    ensures !Timing(Initial(staticPoint), spot)
  {}

  lemma {:induction false} LastKnownIsLast(staticPoint: bool, turns: seq<Turn>, spot: Spot, j: nat)
    requires Ticking(turns) && j < |turns| && Knows(RunFrom(Initial(staticPoint), turns[..j]), spot)
    ensures turns[j].input.clock.start <= LastKnown(staticPoint, turns, spot)
    decreases |turns|
  {
    hide RunFrom, Knows;
    var n := |turns| - 1;
    if j < n {
      assert turns[..n][..j] == turns[..j];
      LastKnownIsLast(staticPoint, turns[..n], spot, j);
      Later(turns, j, n);
    }
  }

  lemma {:induction false} Later(turns: seq<Turn>, j: nat, n: nat)
    requires Ticking(turns) && j <= n < |turns|
    ensures turns[j].input.clock.start <= turns[n].input.clock.start
  {
    if j < n {
      Later(turns, j, n - 1);
    }
  }

  /** The timeouts: tracking the beacon falls back to acquisition, tracking the calibration spot to open loop. */
  predicate FallsBack(s: State, next: State, spot: Spot) {
    s.mode.operational && !s.mode.standby &&
    if spot == Beacon then (s.mode.phase == ClBeacon || s.mode.phase == OpenLoop) && next.mode.phase == Acquisition
    else s.mode.phase == ClCalib && next.mode.phase == OpenLoop
  }

  /** A timeout comes more than three seconds after every turn that began with the spot known. */
  lemma FallsBackLate(staticPoint: bool, turns: seq<Turn>, t: Turn, spot: Spot, j: nat)
    requires Ticking(turns + [t]) && j <= |turns| && Knows(RunFrom(Initial(staticPoint), (turns + [t])[..j]), spot)
    requires FallsBack(RunFrom(Initial(staticPoint), turns), RunFrom(Initial(staticPoint), turns + [t]), spot)
    ensures t.input.clock.check - (turns + [t])[j].input.clock.start > 3.0
  {
    hide Timing, Knows, FallsBack, LossOf, TurnStep;
    var n, all := |turns|, turns + [t];
    var s := RunFrom(Initial(staticPoint), turns);
    assert all[..n] == turns;
    PrefixTicks(turns, t);
    LastKnownIsLast(staticPoint, all, spot, j);
    RunsAreSafe(staticPoint, turns);
    TimersRun(staticPoint, turns, spot);
    LastKnownStep(staticPoint, turns, t, spot);
    assert ClosedLoop(s.mode.phase) && !s.mode.standby ==> !s.options.openLoop;
    hide RunFrom, LastKnown, Invariant, Ticking;
    GivesUpLate(s, t, spot, LastKnown(staticPoint, turns, spot));
  }

  lemma PrefixTicks(turns: seq<Turn>, t: Turn)
    requires Ticking(turns + [t])
    ensures Ticking(turns) && InOrder(t.input.clock)
  {
    var all := turns + [t];
    assert InOrder(all[|turns|].input.clock);
    assert forall k | 0 <= k < |turns| :: all[k] == turns[k];
    assert forall k | 0 < k < |turns| :: all[k - 1].input.clock.check <= all[k].input.clock.start;
  }

  lemma LastKnownStep(staticPoint: bool, turns: seq<Turn>, t: Turn, spot: Spot)
    ensures LastKnown(staticPoint, turns + [t], spot) ==
            if Knows(RunFrom(Initial(staticPoint), turns), spot) then t.input.clock.start
            else LastKnown(staticPoint, turns, spot)
  {
    assert (turns + [t])[..|turns|] == turns;
  }

  lemma GivesUpLate(s: State, t: Turn, spot: Spot, held: real)
    requires InOrder(t.input.clock) && FallsBack(s, TurnStep(s, t), spot)
    requires ClosedLoop(s.mode.phase) && !s.mode.standby ==> !s.options.openLoop
    requires Timing(s, spot) && !Knows(s, spot) ==> held <= LossOf(s, spot)
    ensures t.input.clock.check - (if Knows(s, spot) then t.input.clock.start else held) > 3.0
  {
    hide LaserOn, Accepted, Bright, LaserIsOn, BeaconFrame, CalibFrame;
  }

  // ---- flags that nothing clears ----

  lemma {:induction false} OptionsStay(s: State, turns: seq<Turn>)
    ensures s.options.openLoop ==> RunFrom(s, turns).options.openLoop
    ensures s.options.bcnAlignment ==> RunFrom(s, turns).options.bcnAlignment
    decreases |turns|
  {
    if turns != [] {
      var n := |turns| - 1;
      OptionsStay(s, turns[..n]);
      OptionsStep(RunFrom(s, turns[..n]), turns[n]);
    }
  }

  lemma OptionsStep(s: State, t: Turn)
    ensures s.options.openLoop ==> TurnStep(s, t).options.openLoop
    ensures s.options.bcnAlignment ==> TurnStep(s, t).options.bcnAlignment
  {
    hide LaserOn, LaserOff, LaserTested, PhaseStep;
    PhaseKeepsOptions(OffsetsUpdated(s, t.input), t.input);
  }

  lemma PhaseKeepsOptions(s: State, i: MainInput)
    ensures PhaseStep(s, i).options == s.options
  {
    hide LaserOn, LaserOff, BeaconFrame, CalibFrame, BeaconLooked, CalibLooked, BeaconSeen, CalibSeen, LaserIsOn,
        BeaconTimeout, CalibTimeout;
  }

  lemma {:induction false} RunsCompose(s: State, a: seq<Turn>, b: seq<Turn>)
    ensures RunFrom(s, a + b) == RunFrom(RunFrom(s, a), b)
    decreases |b|
  {
    hide TurnStep;
    if b == [] {
      assert a + b == a;
    } else {
      var n := |b| - 1;
      assert (a + b)[..|a + b| - 1] == a + b[..n];
      RunsCompose(s, a, b[..n]);
    }
  }

  /** Once aligned to a beacon, the process never again tracks in closed loop, whatever it is commanded. */
  lemma AlignmentSticks(staticPoint: bool, turns: seq<Turn>, more: seq<Turn>)
    requires Ticking(turns + more) && RunFrom(Initial(staticPoint), turns).options.bcnAlignment
    ensures var s := RunFrom(Initial(staticPoint), turns + more);
            s.options.bcnAlignment && s.options.openLoop && (!s.mode.standby ==> !ClosedLoop(s.mode.phase))
  {
    RunsCompose(Initial(staticPoint), turns, more);
    OptionsStay(RunFrom(Initial(staticPoint), turns), more);
    RunsAreSafe(staticPoint, turns + more);
  }
}
