/** What the pointing process does, and not only what it may do: when it moves the mirror, that a calibration spot it
    sees is a spot it steers by, and that a spot it has lost is given up in time. Stated on what the outside answers.
    */
module PatActions {
  import opened PatMachine
  import opened PatRuns

  // ---- what the outside shows ----

  /** The laser's heater is on, or could be put on, and the laser took the command. */
  predicate Lit(a: Answers) { (a.heaterIsOn || a.heaterWritten) && a.laserWritten }

  /** A frame with a spot above a brightness. */
  predicate SpotOn(k: Look, brightness: int) {
    k.Frame? && k.brightest > brightness && k.groups > 0 && k.spotIndex >= 0 && k.valueMax > brightness
  }

  /** The spot is shown in a turn that looks for it, close to where it was. */
  predicate Shown(i: MainInput, spot: Spot) {
    match spot
    case Beacon => i.off && SpotOn(i.look, 200) && i.look.difference < 500.0
    case Calib => Lit(i.laser) && SpotOn(i.look, 100) && i.look.difference < 500.0
  }

  /** The main loop takes a turn, and nothing ends it. */
  predicate Turns(s: State, i: MainInput) {
    && s.mode.operational && !s.mode.standby && !s.mode.endPat && !s.mode.endProcess
    && !i.stop && i.command != EndPatCommand && i.command != EndProcessCommand
  }

  // ---- when the mirror is moved ----

  function Count(h: History, e: Event): nat {
    if h.Begin? then 0 else Count(h.before, e) + if h.event == e then 1 else 0
  }

  /** A step of the controller: in closed loop, with the calibration spot in sight. */
  predicate Controls(s: State, t: Turn) { Turns(s, t.input) && s.mode.phase == ClCalib && Shown(t.input, Calib) }

  /** The mirror is set from pixel positions: by the commands for it once calibrated; when the beacon is acquired, or
      seen in open loop, unless aligning to it; for a static point once calibrated, at first and at every dither step
      but the first. */
  predicate Steers(s: State, t: Turn) {
    var i := t.input;
    if s.mode.standby then s.mode.operational && (t.command == TxAlign || t.command == UpdateFsm) && s.know.haveCalib
    else
      Turns(s, i) &&
      match s.mode.phase
      case Acquisition => i.off && i.acquired == Found && !s.options.bcnAlignment
      case OpenLoop => Shown(i, Beacon) && !s.options.bcnAlignment
      case StaticPoint =>
        s.know.haveCalib &&
        (!s.pointing.staticDone ||
         (s.options.ditheringOn && i.ditherDue && !i.offsetsDue && s.pointing.ditherCount > 0))
      case _ => false
  }

  /** The mirror is centred: by the tests, and by a static point without a calibration. */
  predicate Centres(s: State, t: Turn) {
    if s.mode.standby then
      s.mode.operational && (t.command.CalibLaserTest? || (t.command.SelfTest? && t.command.answers.fpga))
    else Turns(s, t.input) && s.mode.phase == StaticPoint && !s.know.haveCalib && !s.pointing.staticDone
  }

  predicate Moves(s: State, t: Turn, e: Event) {
    (e == Control && Controls(s, t)) || (e == ControlOpenLoop && Steers(s, t)) || (e == Center && Centres(s, t))
  }

  predicate IsMove(e: Event) { e == Control || e == ControlOpenLoop || e == Center }

  lemma LaserOnMovesNothing(h: History, a: Answers, e: Event)
    requires IsMove(e)
    ensures Count(LaserOn(h, a), e) == Count(h, e)
  {
    var read := Then(h, HeaterRead(a.heaterIsOn));
    assert Count(read, e) == Count(h, e);
    assert Count(Then(read, HeaterWrite(a.heaterWritten)), e) == Count(h, e);
  }

  lemma FramesMoveNothing(h: History, i: MainInput, e: Event)
    requires IsMove(e)
    ensures Count(BeaconFrame(h, i), e) == Count(h, e)
    ensures Count(CalibFrame(h, i), e) == Count(h, e) + if e == Control && Shown(i, Calib) then 1 else 0
  {
    var dark, lit, at := LaserOff(h, i.off), LaserOn(h, i.laser), i.clock.check;
    LaserOnMovesNothing(h, i.laser, e);
    hide LaserOn;
    OneMore(h, LaserCommand(false, i.off), e);
    OneMore(dark, Capture(Beacon), e);
    OneMore(Then(dark, Capture(Beacon)), Seen(Beacon, at), e);
    OneMore(lit, Capture(Calib), e);
    OneMore(Then(lit, Capture(Calib)), Seen(Calib, at), e);
    OneMore(Then(Then(lit, Capture(Calib)), Seen(Calib, at)), Control, e);
    hide Count;
  }

  lemma OneMore(h: History, done: Event, e: Event)
    ensures Count(Then(h, done), e) == Count(h, e) + if done == e then 1 else 0
  {}

  lemma LaserTestMovesNothing(h: History, t: LaserTest, e: Event)
    requires IsMove(e)
    ensures Count(LaserTested(h, t), e) == Count(h, e)
  {
    LaserOnMovesNothing(h, t.on, e);
    hide LaserOn;
  }

  /** One turn moves the mirror in each way once, or not at all. */
  lemma MovesInTurn(s: State, t: Turn, e: Event)
    requires IsMove(e)
    ensures Count(TurnStep(s, t).history, e) == Count(s.history, e) + if Moves(s, t, e) then 1 else 0
  {
    if s.mode.operational {
      if s.mode.standby {
        MovesInStandby(s, t, e);
      } else {
        MovesInMain(s, t, e);
      }
    }
    hide StandbyStep, MainStep;
  }

  lemma MovesInStandby(s: State, t: Turn, e: Event)
    requires IsMove(e) && s.mode.standby && s.mode.operational
    ensures Count(StandbyStep(s, t.command, t.input.clock.check).history, e) ==
            Count(s.history, e) + if Moves(s, t, e) then 1 else 0
  {
    hide LaserOn, LaserTested, SelfTestStep;
    match t.command
    case CalibTest(laser, calibrates) => LaserOnMovesNothing(s.history, laser, e);
    case FsmTest(laser) => LaserOnMovesNothing(s.history, laser, e);
    case CalibLaserTest(one, two) =>
      LaserTestMovesNothing(Then(s.history, Center), one, e);
      LaserTestMovesNothing(LaserTested(Then(s.history, Center), one), two, e);
    case SelfTest(answers) => MovesInSelfTest(s, answers, t.input.clock.check, e);
    case _ =>
  }

  lemma MovesInSelfTest(s: State, a: SelfTestAnswers, at: real, e: Event)
    requires IsMove(e)
    ensures Count(SelfTestStep(s, a, at).history, e) == Count(s.history, e) + if e == Center && a.fpga then 1 else 0
  {
    hide LaserOn, LaserTested, LaserRounds;
    var lit := LaserOn(Then(s.history, Center), a.first);
    LaserOnMovesNothing(Then(s.history, Center), a.first, e);
    LaserTestMovesNothing(lit, a.one, e);
    LaserTestMovesNothing(LaserTested(lit, a.one), a.two, e);
    LaserOnMovesNothing(LaserTestHistory(s.history, a), a.fsmLaser, e);
  }

  lemma MovesInMain(s: State, t: Turn, e: Event)
    requires IsMove(e) && s.mode.operational && !s.mode.standby
    ensures Count(MainStep(s, t.input).history, e) == Count(s.history, e) + if Moves(s, t, e) then 1 else 0
  {
    hide PhaseStep, OffsetsUpdated;
    if Turns(s, t.input) {
      MovesInPhase(s, t, e);
    }
  }

  lemma MovesInPhase(s: State, t: Turn, e: Event)
    requires IsMove(e) && Turns(s, t.input)
    ensures Count(PhaseStep(OffsetsUpdated(s, t.input), t.input).history, e) ==
            Count(s.history, e) + if Moves(s, t, e) then 1 else 0
  {
    var i, now := t.input, OffsetsUpdated(s, t.input);
    hide CalibrationStep, AcquisitionStep, ClBeaconStep, ClCalibStep, OpenLoopStep, StaticPointStep, Count, Shown;
    match s.mode.phase
    case Acquisition => MovesInAcquisition(now, i, e);
    case Calibration => MovesInCalibration(now, i, e);
    case ClBeacon => MovesInClosedLoop(now, i, e);
    case ClCalib => MovesInClosedLoop(now, i, e);
    case OpenLoop => MovesInOpenLoop(now, i, e);
    case StaticPoint => MovesInStaticPoint(now, i, e);
    case ClInit =>
  }

  lemma MovesInCalibration(s: State, i: MainInput, e: Event)
    requires IsMove(e)
    ensures Count(CalibrationStep(s, i).history, e) == Count(s.history, e)
  {
    hide LaserOn;
    LaserOnMovesNothing(s.history, i.laser, e);
  }

  lemma MovesInClosedLoop(s: State, i: MainInput, e: Event)
    requires IsMove(e)
    ensures Count(ClBeaconStep(s, i).history, e) == Count(s.history, e)
    ensures Count(ClCalibStep(s, i).history, e) ==
            Count(s.history, e) + if e == Control && Shown(i, Calib) then 1 else 0
  {
    hide BeaconFrame, CalibFrame, BeaconLooked, CalibLooked, CalibSeen, Shown;
    FramesMoveNothing(s.history, i, e);
  }

  lemma MovesInOpenLoop(s: State, i: MainInput, e: Event)
    requires IsMove(e)
    ensures Count(OpenLoopStep(s, i).history, e) ==
            Count(s.history, e) +
            if e == ControlOpenLoop && Shown(i, Beacon) && !s.options.bcnAlignment then 1 else 0
  {
    var h, lost := BeaconFrame(s.history, i), GivenUp(Beacon, i.clock.check);
    FramesMoveNothing(s.history, i, e);
    OneMore(h, ControlOpenLoop, e);
    OneMore(h, lost, e);
    OneMore(Then(h, ControlOpenLoop), lost, e);
    assert BeaconSeen(i) <==> Shown(i, Beacon);
    hide BeaconFrame, BeaconLooked, BeaconSeen, Shown, Count;
  }

  lemma MovesInStaticPoint(s: State, i: MainInput, e: Event)
    requires IsMove(e)
    ensures Count(StaticPointStep(s, i).history, e) ==
            Count(s.history, e) +
            if s.pointing.staticDone then
              (if e == ControlOpenLoop && s.know.haveCalib && s.options.ditheringOn && i.ditherDue &&
                  s.pointing.ditherCount > 0 then 1 else 0)
            else if e == (if s.know.haveCalib then ControlOpenLoop else Center) then 1 else 0
  {}

  lemma MovesInAcquisition(s: State, i: MainInput, e: Event)
    requires IsMove(e)
    ensures Count(AcquisitionStep(s, i).history, e) ==
            Count(s.history, e) +
            if e == ControlOpenLoop && i.off && i.acquired == Found && !s.options.bcnAlignment then 1 else 0
  {
    var dark, seen := LaserOff(s.history, i.off), Seen(Beacon, i.clock.check);
    OneMore(s.history, LaserCommand(false, i.off), e);
    OneMore(dark, Acquire, e);
    OneMore(Then(dark, Acquire), seen, e);
    OneMore(Then(Then(dark, Acquire), seen), ControlOpenLoop, e);
    hide Count;
  }

  /** The turns of a run that move the mirror in a way. */
  function Moving(s: State, turns: seq<Turn>, e: Event): nat {
    if turns == [] then 0
    else
      var n := |turns| - 1;
      Moving(s, turns[..n], e) + if Moves(RunFrom(s, turns[..n]), turns[n], e) then 1 else 0
  }

  /** The theorem: on every run, from every state, the mirror is moved exactly when it should be. */
  lemma {:induction false} MovesExactly(s: State, turns: seq<Turn>, e: Event)
    requires IsMove(e)
    ensures Count(RunFrom(s, turns).history, e) == Count(s.history, e) + Moving(s, turns, e)
    decreases |turns|
  {
    hide TurnStep, Moves;
    if turns != [] {
      var n := |turns| - 1;
      MovesExactly(s, turns[..n], e);
      MovesInTurn(RunFrom(s, turns[..n]), turns[n], e);
    }
  }

  // ---- what follows on a spot ----

  predicate EndsWithCalib(h: History) { h.Then? && h.event.Seen? && h.event.which == Calib }

  /** The last thing done was to take a frame for the spot, or to acquire the beacon. */
  predicate JustLooked(h: History, spot: Spot) {
    h.Then? && (h.event == Capture(spot) || (h.event == Acquire && spot == Beacon))
  }

  /** Each sight of the calibration spot is followed by a step of the controller, and no step comes otherwise; each spot
      is seen on a frame just taken for it. */
  predicate Followed(h: History) {
    h.Then? ==>
      && (h.event == Control <==> EndsWithCalib(h.before))
      && (h.event.Seen? ==> JustLooked(h.before, h.event.which))
      && Followed(h.before)
  }

  /** Nothing seen is left without its step. */
  predicate Answered(h: History) { Followed(h) && !EndsWithCalib(h) }

  lemma LaserOnAnswered(h: History, a: Answers)
    requires Answered(h)
    ensures Answered(LaserOn(h, a))
  {
    var read := Then(h, HeaterRead(a.heaterIsOn));
    assert Answered(read);
    assert Answered(Then(read, HeaterWrite(a.heaterWritten)));
  }

  lemma LaserTestAnswered(h: History, t: LaserTest)
    requires Answered(h)
    ensures Answered(LaserTested(h, t))
  {
    LaserOnAnswered(h, t.on);
    hide LaserOn;
  }

  lemma SelfTestAnswered(s: State, a: SelfTestAnswers, at: real)
    requires Answered(s.history)
    ensures Answered(SelfTestStep(s, a, at).history)
  {
    hide LaserOn, LaserTested, LaserRounds;
    if a.fpga {
      var lit := LaserOn(Then(s.history, Center), a.first);
      LaserOnAnswered(Then(s.history, Center), a.first);
      LaserTestAnswered(lit, a.one);
      LaserTestAnswered(LaserTested(lit, a.one), a.two);
      var tested := LaserTestHistory(s.history, a);
      LaserOnAnswered(tested, a.fsmLaser);
      AnotherEvent(LaserOn(tested, a.fsmLaser), Calibrated(a.calibrates, at));
      var next := SelfTestStep(s, a, at);
      AnotherEvent(next.history.before, next.history.event);
      hide Answered, LaserTestHistory;
    }
  }

  /** Anything else may be done when nothing is left to answer. */
  lemma AnotherEvent(h: History, e: Event)
    requires Answered(h) && e != Control && (e.Seen? ==> e.which == Beacon && JustLooked(h, Beacon))
    ensures Answered(Then(h, e))
  {}

  lemma FramesAnswered(h: History, i: MainInput)
    requires Answered(h)
    ensures Answered(BeaconFrame(h, i)) && Answered(CalibFrame(h, i))
  {
    var dark, lit, at := LaserOff(h, i.off), LaserOn(h, i.laser), i.clock.check;
    LaserOnAnswered(h, i.laser);
    SeenOnFrame(i);
    hide LaserOn, Answered, CalibSeen, BeaconSeen;
    AnotherEvent(h, LaserCommand(false, i.off));
    AnotherEvent(dark, Capture(Beacon));
    AnotherEvent(Then(dark, Capture(Beacon)), Seen(Beacon, at));
    AnotherEvent(lit, Capture(Calib));
    SeenAndControlled(Then(lit, Capture(Calib)), at);
  }

  lemma SeenOnFrame(i: MainInput)
    ensures (BeaconSeen(i) ==> i.off) && (CalibSeen(i) ==> LaserIsOn(i.laser))
  {}

  lemma SeenAndControlled(h: History, at: real)
    requires Answered(h) && JustLooked(h, Calib)
    ensures Answered(Then(Then(h, Seen(Calib, at)), Control))
  {}

  lemma TurnAnswered(s: State, t: Turn)
    requires Answered(s.history)
    ensures Answered(TurnStep(s, t).history)
  {
    if s.mode.operational {
      if s.mode.standby {
        StandbyAnswered(s, t.command, t.input.clock.check);
      } else {
        MainAnswered(s, t.input);
      }
    }
    hide StandbyStep, MainStep;
  }

  lemma StandbyAnswered(s: State, c: StandbyCommand, at: real)
    requires Answered(s.history)
    ensures Answered(StandbyStep(s, c, at).history)
  {
    hide LaserOn, LaserTested, SelfTestStep;
    match c
    case CalibTest(laser, calibrates) => LaserOnAnswered(s.history, laser);
    case FsmTest(laser) => LaserOnAnswered(s.history, laser);
    case CalibLaserTest(one, two) =>
      LaserTestAnswered(Then(s.history, Center), one);
      LaserTestAnswered(LaserTested(Then(s.history, Center), one), two);
    case SelfTest(answers) => SelfTestAnswered(s, answers, at);
    case _ =>
  }

  lemma MainAnswered(s: State, i: MainInput)
    requires Answered(s.history)
    ensures Answered(MainStep(s, i).history)
  {
    hide PhaseStep;
    PhaseAnswered(OffsetsUpdated(s, i), i);
  }

  lemma PhaseAnswered(s: State, i: MainInput)
    requires Answered(s.history)
    ensures Answered(PhaseStep(s, i).history)
  {
    LaserOnAnswered(s.history, i.laser);
    FramesAnswered(s.history, i);
    hide LaserOn, BeaconFrame, CalibFrame, BeaconLooked, CalibLooked, BeaconSeen, CalibSeen, AcquisitionStep;
    if s.mode.phase == Acquisition {
      AcquisitionAnswered(s, i);
    }
  }

  lemma AcquisitionAnswered(s: State, i: MainInput)
    requires Answered(s.history)
    ensures Answered(AcquisitionStep(s, i).history)
  {
    var dark, seen := LaserOff(s.history, i.off), Seen(Beacon, i.clock.check);
    AnotherEvent(s.history, LaserCommand(false, i.off));
    AnotherEvent(dark, Acquire);
    AnotherEvent(Then(dark, Acquire), seen);
    AnotherEvent(Then(Then(dark, Acquire), seen), ControlOpenLoop);
    hide Answered;
  }

  /** On every run from the start, each sight of the calibration spot is followed at once by a step of the controller,
      and there is no other step. */
  lemma {:induction false} SightsAreFollowed(staticPoint: bool, turns: seq<Turn>)
    ensures Answered(RunFrom(Initial(staticPoint), turns).history)
    decreases |turns|
  {
    hide TurnStep;
    if turns != [] {
      SightsAreFollowed(staticPoint, turns[..|turns| - 1]);
      TurnAnswered(RunFrom(Initial(staticPoint), turns[..|turns| - 1]), turns[|turns| - 1]);
    }
  }

  // ---- given up in time ----

  /** The phases that look for a spot with its timer running. */
  predicate Looks(s: State, spot: Spot) {
    if spot == Beacon then s.mode.phase == ClBeacon || s.mode.phase == OpenLoop else s.mode.phase == ClCalib
  }

  /** A tracking turn that does not see the spot. */
  predicate Misses(s: State, t: Turn, spot: Spot) {
    && Turns(s, t.input) && (s.mode.phase == ClBeacon || s.mode.phase == ClCalib || s.mode.phase == OpenLoop)
    && (Looks(s, spot) ==> !Shown(t.input, spot))
  }

  /** The turn that loses a known spot: in closed loop not by a missing frame of the beacon, and not by a calibration
      spot that is only too far away. */
  predicate Loses(s: State, t: Turn, spot: Spot) {
    var i := t.input;
    && Turns(s, i) && Knows(s, spot) && Looks(s, spot)
    && match spot
       case Beacon => !Shown(i, Beacon) && (i.off && i.look.NoFrame? ==> s.mode.phase == OpenLoop)
       case Calib => !(Lit(i.laser) && SpotOn(i.look, 100))
  }

  lemma MissStep(s: State, t: Turn, spot: Spot)
    requires Misses(s, t, spot) && !Knows(s, spot)
    ensures !Knows(TurnStep(s, t), spot) && LossOf(TurnStep(s, t), spot) == LossOf(s, spot)
    ensures Looks(s, spot) ==> (FallsBack(s, TurnStep(s, t), spot) <==> t.input.clock.check - LossOf(s, spot) > 3.0)
  {
    hide LaserOn, BeaconFrame, CalibFrame;
  }

  lemma LossStep(s: State, t: Turn, spot: Spot)
    requires Loses(s, t, spot)
    ensures !Knows(TurnStep(s, t), spot) && LossOf(TurnStep(s, t), spot) == t.input.clock.stamp
    ensures FallsBack(s, TurnStep(s, t), spot) <==> t.input.clock.check - t.input.clock.stamp > 3.0
  {
    hide LaserOn, BeaconFrame, CalibFrame;
  }

  predicate MissesThroughout(s: State, turns: seq<Turn>, spot: Spot) {
    forall k | 0 <= k < |turns| :: Misses(RunFrom(s, turns[..k]), turns[k], spot)
  }

  lemma {:induction false} StaysLost(s: State, turns: seq<Turn>, spot: Spot)
    requires !Knows(s, spot) && MissesThroughout(s, turns, spot)
    ensures var last := RunFrom(s, turns); !Knows(last, spot) && LossOf(last, spot) == LossOf(s, spot)
    decreases |turns|
  {
    hide TurnStep, Misses, Knows, LossOf;
    if turns != [] {
      var before := turns[..|turns| - 1];
      assert forall k | 0 <= k < |before| :: before[..k] == turns[..k] && before[k] == turns[k];
      StaysLost(s, before, spot);
      MissStep(RunFrom(s, before), turns[|turns| - 1], spot);
    }
  }

  /** The theorem: a spot that was lost in one turn and is missed in all that follow is given up by a turn that looks
      for it exactly when that turn's clock shows more than three seconds since the loss. */
  lemma GivenUpExactly(s: State, loss: Turn, missed: seq<Turn>, t: Turn, spot: Spot)
    requires Loses(s, loss, spot)
    requires MissesThroughout(TurnStep(s, loss), missed + [t], spot)
    requires Looks(RunFrom(TurnStep(s, loss), missed), spot)
    ensures var last := RunFrom(TurnStep(s, loss), missed);
            FallsBack(last, TurnStep(last, t), spot) <==> t.input.clock.check - loss.input.clock.stamp > 3.0
  {
    hide TurnStep, Misses, Knows, LossOf, Loses, FallsBack;
    var all, lost := missed + [t], TurnStep(s, loss);
    LossStep(s, loss, spot);
    assert all[..|missed|] == missed && all[|missed|] == t;
    assert forall k | 0 <= k < |missed| :: all[..k] == missed[..k] && all[k] == missed[k];
    StaysLost(lost, missed, spot);
    MissStep(RunFrom(lost, missed), t, spot);
  }

  // ---- where a turn leads ----

  /** A turn gives a spot up: it does not show it, and the loss, of this turn or an earlier one, is too long ago. */
  predicate GivesUp(s: State, t: Turn, spot: Spot) {
    Looks(s, spot) && !Shown(t.input, spot) &&
    if Knows(s, spot) then Loses(s, t, spot) && t.input.clock.check - t.input.clock.stamp > 3.0
    else t.input.clock.check - LossOf(s, spot) > 3.0
  }

  function StartsIn(s: State, flag: int): Phase {
    if flag == 0xFFFF && s.know.haveCalib then Acquisition else if flag == 0xFFFF || flag == 0xAAAA then Calibration
    else s.mode.phase
  }

  /** The phase after a turn. */
  function LeadsTo(s: State, t: Turn): Phase {
    var i := t.input;
    if s.mode.standby then
      match t.command
      case StartPat(flag) => StartsIn(s, flag)
      case StartPatOpenLoop(flag) => StartsIn(s, flag)
      case StartPatBusFeedback(flag) => StartsIn(s, flag)
      case StartPatOpenLoopBusFeedback(flag) => StartsIn(s, flag)
      case StartPatStaticPoint => StaticPoint
      case BcnAlign => Acquisition
      case _ => s.mode.phase
    else if !Turns(s, i) then s.mode.phase
    else
      match s.mode.phase
      case Calibration => if Lit(i.laser) && i.calibrates then Acquisition else Calibration
      case Acquisition =>
        if i.off && i.acquired == Found then if s.options.openLoop then OpenLoop else ClInit else Acquisition
      case ClInit => ClBeacon
      case ClBeacon => if GivesUp(s, t, Beacon) then Acquisition else ClCalib
      case ClCalib => if GivesUp(s, t, Calib) then OpenLoop else ClBeacon
      case OpenLoop => if GivesUp(s, t, Beacon) then Acquisition else OpenLoop
      case StaticPoint => StaticPoint
  }

  predicate RoundPasses(r: LaserTest) { Lit(r.on) && r.seenOn && r.off && r.seenDark }

  /** The laser passes the self test; a laser that does not come on is as good as it was the last time it did. */
  predicate LaserPasses(s: State, a: SelfTestAnswers) {
    a.fpga && if Lit(a.first) then RoundPasses(a.one) && RoundPasses(a.two) else s.tests.laserRounds == 2
  }

  /** A self test gets as far as a calibration. */
  predicate TestCalibrates(s: State, a: SelfTestAnswers) {
    LaserPasses(s, a) && Lit(a.fsmLaser) && a.fsmMoves && a.calibrates
  }

  /** A spot is known after a turn. */
  predicate WillKnow(s: State, t: Turn, spot: Spot) {
    var i := t.input;
    if s.mode.standby then
      if spot == Beacon then s.know.haveBeacon
      else
        match t.command
        case CalibTest(laser, calibrates) => if Lit(laser) then calibrates else s.know.haveCalib
        case SelfTest(answers) => s.know.haveCalib || TestCalibrates(s, answers)
        case _ => s.know.haveCalib
    else if !Turns(s, i) then Knows(s, spot)
    else if Looks(s, spot) then Shown(i, spot) || (Knows(s, spot) && !Loses(s, t, spot))
    else if spot == Calib && s.mode.phase == Calibration then Lit(i.laser) && i.calibrates
    else if spot == Beacon && s.mode.phase == Acquisition then
      i.off && (i.acquired == Found || (i.acquired != NotFound && s.know.haveBeacon))
    else Knows(s, spot)
  }

  /** The theorem: where every turn leads, and what is known after it. */
  lemma TurnExactly(s: State, t: Turn, spot: Spot)
    requires s.mode.operational
    ensures TurnStep(s, t).mode.phase == LeadsTo(s, t)
    ensures Knows(TurnStep(s, t), spot) <==> WillKnow(s, t, spot)
  {
    if s.mode.standby {
      StandbyExactly(s, t, spot);
    } else if Turns(s, t.input) {
      PhaseExactly(s, t, spot);
    }
    hide PhaseStep, StandbyStep, Loses, GivesUp, Shown;
  }

  lemma StandbyExactly(s: State, t: Turn, spot: Spot)
    requires s.mode.standby && s.mode.operational
    ensures var next := StandbyStep(s, t.command, t.input.clock.check);
            next.mode.phase == LeadsTo(s, t) && (Knows(next, spot) <==> WillKnow(s, t, spot))
  {
    hide LaserOn, LaserTested, SelfTestStep, TestCalibrates;
    match t.command
    case SelfTest(answers) => SelfTestKnows(s, answers, t.input.clock.check);
    case _ =>
  }

  lemma SelfTestKnows(s: State, a: SelfTestAnswers, at: real)
    ensures var next := SelfTestStep(s, a, at);
            && next.mode == s.mode && next.options == s.options && next.know.haveBeacon == s.know.haveBeacon
            && (next.know.haveCalib <==> s.know.haveCalib || TestCalibrates(s, a))
  {
    hide LaserOn, LaserTestHistory;
  }

  lemma PhaseExactly(s: State, t: Turn, spot: Spot)
    requires Turns(s, t.input)
    ensures var next := PhaseStep(OffsetsUpdated(s, t.input), t.input);
            next.mode.phase == LeadsTo(s, t) && (Knows(next, spot) <==> WillKnow(s, t, spot))
  {
    hide LaserOn, LaserOff, ClBeaconStep, ClCalibStep, OpenLoopStep, GivesUp, Shown, Loses;
    var now := OffsetsUpdated(s, t.input);
    match s.mode.phase
    case ClBeacon => ClosedLoopExactly(s, now, t, spot);
    case ClCalib => ClosedLoopExactly(s, now, t, spot);
    case OpenLoop => OpenLoopExactly(s, now, t, spot);
    case _ =>
  }

  predicate Leads(s: State, next: State, t: Turn, spot: Spot, lost: Phase, kept: Phase, looked: Spot) {
    && next.mode.phase == (if GivesUp(s, t, looked) then lost else kept)
    && (Knows(next, spot) <==>
          if spot == looked then Shown(t.input, spot) || (Knows(s, spot) && !Loses(s, t, spot)) else Knows(s, spot))
  }

  lemma ClosedLoopExactly(s: State, now: State, t: Turn, spot: Spot)
    requires Turns(s, t.input) && now == OffsetsUpdated(s, t.input)
    ensures s.mode.phase == ClBeacon ==> Leads(s, ClBeaconStep(now, t.input), t, spot, Acquisition, ClCalib, Beacon)
    ensures s.mode.phase == ClCalib ==> Leads(s, ClCalibStep(now, t.input), t, spot, OpenLoop, ClBeacon, Calib)
  {
    hide LaserOn, BeaconFrame, CalibFrame;
  }

  lemma OpenLoopExactly(s: State, now: State, t: Turn, spot: Spot)
    requires Turns(s, t.input) && now == OffsetsUpdated(s, t.input) && s.mode.phase == OpenLoop
    ensures Leads(s, OpenLoopStep(now, t.input), t, spot, Acquisition, OpenLoop, Beacon)
  {
    hide LaserOn, BeaconFrame;
  }

  /** A turn that counts a dither step: one is due with dithering on, and the spot steered by is in sight, or a static
      point is held with a calibration. */
  predicate Dithers(s: State, t: Turn) {
    var i := t.input;
    Turns(s, i) && s.options.ditheringOn && i.ditherDue &&
    match s.mode.phase
    case ClCalib => Shown(i, Calib)
    case OpenLoop => Shown(i, Beacon)
    case StaticPoint => s.pointing.staticDone && s.know.haveCalib
    case _ => false
  }

  /** The dither steps counted since the offsets were last updated with dithering on, and whether a static point has
      ever been set. */
  lemma PointingExactly(s: State, t: Turn)
    requires s.mode.operational && !s.mode.standby
    ensures var was := if Turns(s, t.input) && t.input.offsetsDue && s.options.ditheringOn then 0
                       else s.pointing.ditherCount;
            TurnStep(s, t).pointing.ditherCount == was + if Dithers(s, t) then 1 else 0
    ensures TurnStep(s, t).pointing.staticDone <==>
              s.pointing.staticDone || (Turns(s, t.input) && s.mode.phase == StaticPoint)
  {
    hide LaserOn, LaserOff, BeaconFrame, CalibFrame, BeaconLooked, CalibLooked, BeaconTimeout, CalibTimeout;
  }

  /** A self test passes as a whole exactly when all its parts do, and then counts as passed for good; else it is a
      failure, unless one has passed before. */
  lemma SelfTestExactly(s: State, a: SelfTestAnswers, at: real)
    ensures var passes, next := TestCalibrates(s, a) && a.withinTolerance, SelfTestStep(s, a, at);
            && (next.history.event.Report? && (next.history.event.calibration == Pass <==> passes))
            && (next.history.event.fsm == Pass <==> LaserPasses(s, a) && Lit(a.fsmLaser) && a.fsmMoves)
            && (next.history.event.laser == Pass <==> LaserPasses(s, a))
            && (next.tests.passed <==> s.tests.passed || passes)
            && (next.tests.failed <==> s.tests.failed || !(s.tests.passed || passes))
  {
    hide LaserOn, LaserTestHistory;
  }

  // ---- what is asked of laser, camera and calibration ----

  datatype Kind = LaserAsked | LaserOut | FrameTaken | CalibrationRun

  predicate IsA(e: Event, k: Kind) {
    match k
    case LaserAsked => e.HeaterRead?
    case LaserOut => e.LaserCommand? && !e.on
    case FrameTaken => e.Capture?
    case CalibrationRun => e.Calibrated?
  }

  function Tally(h: History, k: Kind): nat {
    if h.Begin? then 0 else Tally(h.before, k) + if IsA(h.event, k) then 1 else 0
  }

  function If(b: bool): nat { if b then 1 else 0 }

  function OutInRound(r: LaserTest): nat { If(Lit(r.on) && r.seenOn) }

  /** How often a Standby command asks: a self test lights the laser for two rounds only when it comes on at all, and
      for the mirror only when it has passed. */
  function StandbyAsks(s: State, c: StandbyCommand, k: Kind): nat {
    match c
    case CalibTest(laser, _) =>
      if k == LaserAsked then 1 else if k == CalibrationRun then If(Lit(laser)) else 0
    case FsmTest(_) => If(k == LaserAsked)
    case CalibLaserTest(one, two) =>
      if k == LaserAsked then 2 else if k == LaserOut then OutInRound(one) + OutInRound(two) else 0
    case SelfTest(a) =>
      if !a.fpga then 0
      else if k == LaserAsked then 1 + (if Lit(a.first) then 2 else 0) + If(LaserPasses(s, a))
      else if k == LaserOut then if Lit(a.first) then OutInRound(a.one) + OutInRound(a.two) else 0
      else if k == CalibrationRun then If(LaserPasses(s, a) && Lit(a.fsmLaser) && a.fsmMoves)
      else 0
    case _ => 0
  }

  /** How often a turn of the main loop asks: each phase that looks sets the laser for it first, and takes its frame or
      calibrates only when that is confirmed. */
  function MainAsks(p: Phase, i: MainInput, k: Kind): nat {
    match p
    case Calibration => if k == LaserAsked then 1 else if k == CalibrationRun then If(Lit(i.laser)) else 0
    case Acquisition => If(k == LaserOut)
    case ClBeacon => if k == LaserOut then 1 else if k == FrameTaken then If(i.off) else 0
    case ClCalib => if k == LaserAsked then 1 else if k == FrameTaken then If(Lit(i.laser)) else 0
    case OpenLoop => if k == LaserOut then 1 else if k == FrameTaken then If(i.off) else 0
    case _ => 0
  }

  function Asks(s: State, t: Turn, k: Kind): nat {
    if s.mode.standby then if s.mode.operational then StandbyAsks(s, t.command, k) else 0
    else if Turns(s, t.input) then MainAsks(s.mode.phase, t.input, k) else 0
  }

  lemma OneAsked(h: History, e: Event, k: Kind)
    ensures Tally(Then(h, e), k) == Tally(h, k) + If(IsA(e, k))
  {}

  lemma LaserOnAsks(h: History, a: Answers, k: Kind)
    ensures Tally(LaserOn(h, a), k) == Tally(h, k) + If(k == LaserAsked)
  {
    var read := Then(h, HeaterRead(a.heaterIsOn));
    OneAsked(h, HeaterRead(a.heaterIsOn), k);
    OneAsked(read, HeaterWrite(a.heaterWritten), k);
    OneAsked(read, LaserCommand(true, a.laserWritten), k);
    OneAsked(Then(read, HeaterWrite(a.heaterWritten)), LaserCommand(true, a.laserWritten), k);
    hide Tally;
  }

  lemma LaserTestAsks(h: History, r: LaserTest, k: Kind)
    ensures Tally(LaserTested(h, r), k) ==
            Tally(h, k) + if k == LaserAsked then 1 else if k == LaserOut then OutInRound(r) else 0
  {
    LaserOnAsks(h, r.on, k);
    OneAsked(LaserOn(h, r.on), LaserCommand(false, r.off), k);
    hide Tally, LaserOn;
  }

  lemma SelfTestAsks(s: State, a: SelfTestAnswers, at: real, k: Kind)
    ensures Tally(SelfTestStep(s, a, at).history, k) == Tally(s.history, k) + StandbyAsks(s, SelfTest(a), k)
  {
    var next, tested := SelfTestStep(s, a, at), LaserTestHistory(s.history, a);
    LaserRoundsAsk(s.history, a, k);
    LaserOnAsks(tested, a.fsmLaser, k);
    OneAsked(next.history.before, next.history.event, k);
    OneAsked(LaserOn(tested, a.fsmLaser), Calibrated(a.calibrates, at), k);
    SelfTestExactly(s, a, at);
    hide Tally, LaserOn, LaserTestHistory, OutInRound;
  }

  lemma LaserRoundsAsk(h: History, a: SelfTestAnswers, k: Kind)
    ensures Tally(LaserTestHistory(h, a), k) ==
            Tally(h, k) +
            if k == LaserAsked then 1 + (if Lit(a.first) then 2 else 0)
            else if k == LaserOut && Lit(a.first) then OutInRound(a.one) + OutInRound(a.two) else 0
  {
    var lit := LaserOn(Then(h, Center), a.first);
    OneAsked(h, Center, k);
    LaserOnAsks(Then(h, Center), a.first, k);
    LaserTestAsks(lit, a.one, k);
    LaserTestAsks(LaserTested(lit, a.one), a.two, k);
    hide Tally, LaserOn, LaserTested, OutInRound;
  }

  lemma StandbyAsksExactly(s: State, c: StandbyCommand, at: real, k: Kind)
    ensures Tally(StandbyStep(s, c, at).history, k) == Tally(s.history, k) + StandbyAsks(s, c, k)
  {
    match c
    case CalibTest(laser, calibrates) =>
      LaserOnAsks(s.history, laser, k);
      OneAsked(LaserOn(s.history, laser), Calibrated(calibrates, at), k);
      hide Tally, LaserOn;
    case FsmTest(laser) =>
      LaserOnAsks(s.history, laser, k);
      hide Tally, LaserOn;
    case CalibLaserTest(one, two) =>
      OneAsked(s.history, Center, k);
      LaserTestAsks(Then(s.history, Center), one, k);
      LaserTestAsks(LaserTested(Then(s.history, Center), one), two, k);
      hide Tally, LaserTested;
    case SelfTest(a) =>
      SelfTestAsks(s, a, at, k);
      hide Tally, SelfTestStep, StandbyAsks;
    case _ =>
      OneAsked(s.history, ControlOpenLoop, k);
      hide Tally;
  }

  lemma FramesAsk(h: History, i: MainInput, k: Kind)
    ensures Tally(BeaconFrame(h, i), k) == Tally(h, k) + MainAsks(ClBeacon, i, k)
    ensures Tally(CalibFrame(h, i), k) == Tally(h, k) + MainAsks(ClCalib, i, k)
  {
    var dark, lit, at := LaserOff(h, i.off), LaserOn(h, i.laser), i.clock.check;
    LaserOnAsks(h, i.laser, k);
    SeenOnFrame(i);
    hide LaserOn, Tally, CalibSeen, BeaconSeen;
    OneAsked(h, LaserCommand(false, i.off), k);
    OneAsked(dark, Capture(Beacon), k);
    OneAsked(Then(dark, Capture(Beacon)), Seen(Beacon, at), k);
    OneAsked(lit, Capture(Calib), k);
    OneAsked(Then(lit, Capture(Calib)), Seen(Calib, at), k);
    OneAsked(Then(Then(lit, Capture(Calib)), Seen(Calib, at)), Control, k);
  }

  lemma PhaseAsks(s: State, i: MainInput, k: Kind)
    ensures Tally(PhaseStep(s, i).history, k) == Tally(s.history, k) + MainAsks(s.mode.phase, i, k)
  {
    var h, at := s.history, i.clock.check;
    var beacon, calib, lit, dark := BeaconFrame(h, i), CalibFrame(h, i), LaserOn(h, i.laser), LaserOff(h, i.off);
    FramesAsk(h, i, k);
    LaserOnAsks(h, i.laser, k);
    hide LaserOn, Tally, BeaconFrame, CalibFrame, BeaconLooked, CalibLooked, CalibSeen, BeaconSeen;
    match s.mode.phase
    case Calibration => OneAsked(lit, Calibrated(i.calibrates, at), k);
    case Acquisition =>
      OneAsked(h, LaserCommand(false, i.off), k);
      OneAsked(dark, Acquire, k);
      OneAsked(Then(dark, Acquire), Seen(Beacon, at), k);
      OneAsked(Then(Then(dark, Acquire), Seen(Beacon, at)), ControlOpenLoop, k);
    case ClBeacon => OneAsked(beacon, GivenUp(Beacon, at), k);
    case ClCalib => OneAsked(calib, GivenUp(Calib, at), k);
    case OpenLoop =>
      OneAsked(beacon, ControlOpenLoop, k);
      OneAsked(beacon, GivenUp(Beacon, at), k);
      OneAsked(Then(beacon, ControlOpenLoop), GivenUp(Beacon, at), k);
    case StaticPoint =>
      OneAsked(h, ControlOpenLoop, k);
      OneAsked(h, Center, k);
    case ClInit =>
  }

  lemma AsksInTurn(s: State, t: Turn, k: Kind)
    ensures Tally(TurnStep(s, t).history, k) == Tally(s.history, k) + Asks(s, t, k)
  {
    if s.mode.standby {
      StandbyAsksExactly(s, t.command, t.input.clock.check, k);
    } else if Turns(s, t.input) {
      PhaseAsks(OffsetsUpdated(s, t.input), t.input, k);
    }
    hide StandbyStep, PhaseStep, StandbyAsks, MainAsks, Tally;
  }

  function Asking(s: State, turns: seq<Turn>, k: Kind): nat {
    if turns == [] then 0
    else
      var n := |turns| - 1;
      Asking(s, turns[..n], k) + Asks(RunFrom(s, turns[..n]), turns[n], k)
  }

  /** On every run, laser, camera and calibration are asked exactly as often as phases and commands call for it. */
  lemma {:induction false} AsksExactly(s: State, turns: seq<Turn>, k: Kind)
    ensures Tally(RunFrom(s, turns).history, k) == Tally(s.history, k) + Asking(s, turns, k)
    decreases |turns|
  {
    hide TurnStep, Asks;
    if turns != [] {
      var n := |turns| - 1;
      AsksExactly(s, turns[..n], k);
      AsksInTurn(RunFrom(s, turns[..n]), turns[n], k);
    }
  }

  // ---- flags ----

  datatype Flag = OpenLoopFlag | AlignmentFlag | FeedbackFlag | DitherFlag

  predicate IsSet(o: Options, f: Flag) {
    match f
    case OpenLoopFlag => o.openLoop
    case AlignmentFlag => o.bcnAlignment
    case FeedbackFlag => o.sendBusFeedback
    case DitherFlag => o.ditheringOn
  }

  /** The Standby commands that set a flag. */
  predicate Sets(c: StandbyCommand, f: Flag) {
    match c
    case StartPatOpenLoop(flag) => f == OpenLoopFlag && (flag == 0xFFFF || flag == 0xAAAA)
    case StartPatBusFeedback(flag) => f == FeedbackFlag && (flag == 0xFFFF || flag == 0xAAAA)
    case StartPatOpenLoopBusFeedback(flag) =>
      (f == OpenLoopFlag || f == FeedbackFlag) && (flag == 0xFFFF || flag == 0xAAAA)
    case BcnAlign => f == OpenLoopFlag || f == AlignmentFlag
    case EnableDither => f == DitherFlag
    case _ => false
  }

  predicate SetsNow(s: State, t: Turn, f: Flag) { s.mode.operational && s.mode.standby && Sets(t.command, f) }

  lemma FlagStep(s: State, t: Turn, f: Flag)
    ensures IsSet(TurnStep(s, t).options, f) <==> IsSet(s.options, f) || SetsNow(s, t, f)
  {
    if s.mode.standby {
      StandbySets(s, t.command, t.input.clock.check, f);
    } else {
      MainKeepsOptions(s, t.input);
    }
    hide StandbyStep, MainStep;
  }

  lemma StandbySets(s: State, c: StandbyCommand, at: real, f: Flag)
    ensures IsSet(StandbyStep(s, c, at).options, f) <==> IsSet(s.options, f) || Sets(c, f)
  {
    hide LaserOn, LaserTested, SelfTestStep, TestCalibrates;
    match c
    case SelfTest(answers) => SelfTestKnows(s, answers, at);
    case _ =>
  }

  lemma MainKeepsOptions(s: State, i: MainInput)
    ensures MainStep(s, i).options == s.options
  {
    hide PhaseStep;
    PhaseKeepsOptions(OffsetsUpdated(s, i), i);
  }

  /** A flag is set on a run exactly when a command for it was taken in Standby; nothing clears it. */
  lemma {:induction false} FlagsExactly(s: State, turns: seq<Turn>, f: Flag)
    ensures IsSet(RunFrom(s, turns).options, f) <==>
              IsSet(s.options, f) || exists k | 0 <= k < |turns| :: SetsNow(RunFrom(s, turns[..k]), turns[k], f)
    decreases |turns|
  {
    hide TurnStep, SetsNow, IsSet;
    if turns != [] {
      var n := |turns| - 1;
      var before := turns[..n];
      FlagsExactly(s, before, f);
      FlagStep(RunFrom(s, before), turns[n], f);
      assert forall k | 0 <= k < n :: before[..k] == turns[..k] && before[k] == turns[k];
    }
  }
}
