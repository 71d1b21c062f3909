/** The pointing process of pat/main.cpp: Standby commands, the seven phases of the main loop, the
    calibration laser, the sticky flags and the loss timers. Each branch of the code is an imperative
    method, proved against a compact step on states. */
module PatMachine {
  const PERIOD_BEACON_LOSS := 3.0
  const PERIOD_CALIB_LOSS := 3.0
  const TRACK_ACQUISITION_BRIGHTNESS := 200
  const CALIB_MIN_BRIGHTNESS := 100
  const TRACK_MAX_SPOT_DIFFERENCE := 500.0
  const SKIP_CALIB_FLAG := 0xFFFF
  const DO_CALIB_FLAG := 0xAAAA

  datatype Phase = Calibration | Acquisition | ClInit | ClBeacon | ClCalib | OpenLoop | StaticPoint

  /** Where the process is, and what may take it out of the main loop. */
  datatype Mode = Mode(operational: bool, standby: bool, phase: Phase, endPat: bool, endProcess: bool)

  /** Flags that commands set and nothing clears. */
  datatype Options = Options(openLoop: bool, bcnAlignment: bool, sendBusFeedback: bool, ditheringOn: bool)

  /** Which spots are known, and when one was last lost. */
  datatype Knowledge = Knowledge(haveCalib: bool, haveBeacon: bool, startBeaconLoss: real, startCalibLoss: real)

  datatype Tests = Tests(laserRounds: nat, passed: bool, failed: bool)

  datatype Pointing = Pointing(staticDone: bool, ditherCount: nat)

  datatype State = State(mode: Mode, options: Options, know: Knowledge, tests: Tests, pointing: Pointing,
                         history: History)

  // ---- what the process does to the outside ----

  datatype Spot = Beacon | Calib
  datatype TestResult = Pass | Fail | Null

  datatype Event =
    | HeaterRead(isOn: bool)
    | HeaterWrite(acknowledged: bool)
    | LaserCommand(on: bool, done: bool)
    | Calibrated(success: bool, at: real)      // calibration.run
    | Acquire                                  // track.runAcquisition
    | Capture(spot: Spot)                      // a frame requested in a tracking phase
    | Seen(which: Spot, seenAt: real)          // a spot accepted as beacon or calibration spot
    | GivenUp(lost: Spot, givenUpAt: real)     // a loss timeout that changes the phase
    | Center                                   // fsm.setNormalizedAngles(0, 0)
    | ControlOpenLoop
    | Control
    | Report(laser: TestResult, fsm: TestResult, calibration: TestResult)

  /** Everything done so far, the latest last. */
  datatype History = Begin | Then(before: History, event: Event)

  // ---- what the outside answers ----

  /** The FPGA answers that laserOn may ask for. */
  datatype Answers = Answers(heaterIsOn: bool, heaterWritten: bool, laserWritten: bool)

  /** A camera frame, as the tracking phases look at it. */
  datatype Look = NoFrame | Frame(brightest: int, groups: int, spotIndex: int, valueMax: int, difference: real)

  datatype Acquired = Found | NotFound | EndPatReceived | EndProcessReceived

  datatype LaserTest = LaserTest(on: Answers, seenOn: bool, off: bool, seenDark: bool)

  datatype SelfTestAnswers = SelfTestAnswers(fpga: bool, first: Answers, one: LaserTest, two: LaserTest,
                                             fsmLaser: Answers, fsmMoves: bool, calibrates: bool, withinTolerance: bool)

  datatype StandbyCommand =
    | Nothing
    | Stop
    | StartPat(flag: int)
    | StartPatOpenLoop(flag: int)
    | StartPatStaticPoint
    | StartPatBusFeedback(flag: int)
    | StartPatOpenLoopBusFeedback(flag: int)
    | CalibTest(laser: Answers, calibrates: bool)
    | CalibLaserTest(one: LaserTest, two: LaserTest)
    | FsmTest(laser: Answers)
    | BcnAlign
    | TxAlign
    | UpdateFsm
    | EnableDither
    | SelfTest(answers: SelfTestAnswers)
    | EndProcess
    | Other

  datatype MainCommand = NoCommand | EndPatCommand | EndProcessCommand | OtherCommand

  /** Clock readings of one iteration: at its start, at a loss stamp, at a timeout check. What is shown during
      an iteration is dated by its last reading, the latest that it can have been. */
  datatype Clock = Clock(start: real, stamp: real, check: real)

  datatype MainInput = MainInput(stop: bool, command: MainCommand, offsetsDue: bool, clock: Clock,
                                 laser: Answers, off: bool, calibrates: bool, acquired: Acquired, look: Look,
                                 ditherDue: bool)

  // ---- the calibration laser ----

  predicate HeaterConfirmed(a: Answers) { a.heaterIsOn || a.heaterWritten }

  predicate LaserIsOn(a: Answers) { HeaterConfirmed(a) && a.laserWritten }

  function LaserOn(h: History, a: Answers): History {
    var read := Then(h, HeaterRead(a.heaterIsOn));
    var heated := if a.heaterIsOn then read else Then(read, HeaterWrite(a.heaterWritten));
    if HeaterConfirmed(a) then Then(heated, LaserCommand(true, a.laserWritten)) else heated
  }

  function LaserOff(h: History, off: bool): History { Then(h, LaserCommand(false, off)) }

  function LaserTested(h: History, t: LaserTest): History {
    if LaserIsOn(t.on) && t.seenOn then LaserOff(LaserOn(h, t.on), t.off) else LaserOn(h, t.on)
  }

  predicate LaserTestPassed(t: LaserTest) { LaserIsOn(t.on) && t.seenOn && t.off && t.seenDark }

  // ---- frames ----

  /** A frame whose best spot is bright enough. */
  predicate Bright(k: Look, threshold: int) {
    k.Frame? && k.brightest > threshold && k.groups > 0 && k.spotIndex >= 0 && k.valueMax > threshold
  }

  /** A frame whose best spot is bright enough and close to the last one. */
  predicate Accepted(k: Look, threshold: int) { Bright(k, threshold) && k.difference < TRACK_MAX_SPOT_DIFFERENCE }

  // ---- one step ----

  function Initial(staticPoint: bool): State {
    State(Mode(true, !staticPoint, if staticPoint then StaticPoint else Calibration, false, false),
          Options(false, false, false, false), Knowledge(false, false, 0.0, 0.0), Tests(0, false, false),
          Pointing(false, 0), Begin)
  }

  /** The process is over. */
  function Ended(m: Mode): Mode { m.(operational := false, standby := true) }

  function Enter(m: Mode, phase: Phase): Mode { m.(standby := false, phase := phase, endPat := false) }

  function InPhase(s: State, phase: Phase): State { s.(mode := s.mode.(phase := phase)) }

  predicate KnownFlag(flag: int) { flag == SKIP_CALIB_FLAG || flag == DO_CALIB_FLAG }

  function Start(s: State, flag: int, openLoop: bool, feedback: bool): State {
    if !KnownFlag(flag) then s
    else
      s.(mode := Enter(s.mode, if flag == SKIP_CALIB_FLAG && s.know.haveCalib then Acquisition else Calibration),
         options := s.options.(openLoop := s.options.openLoop || openLoop,
                               sendBusFeedback := s.options.sendBusFeedback || feedback))
  }

  function Did(s: State, e: Event): State { s.(history := Then(s.history, e)) }

  function DidIf(s: State, b: bool, e: Event): State { if b then Did(s, e) else s }

  function ThenIf(h: History, b: bool, e: Event): History { if b then Then(h, e) else h }

  /** The rounds of the laser test that passed: only counted afresh when the laser comes on. */
  function LaserRounds(t: Tests, a: SelfTestAnswers): nat {
    if LaserIsOn(a.first) then (if LaserTestPassed(a.one) then 1 else 0) + (if LaserTestPassed(a.two) then 1 else 0)
    else t.laserRounds
  }

  function LaserTestHistory(h: History, a: SelfTestAnswers): History {
    var lit := LaserOn(Then(h, Center), a.first);
    if LaserIsOn(a.first) then LaserTested(LaserTested(lit, a.one), a.two) else lit
  }

  function FsmResult(laser: TestResult, a: SelfTestAnswers): TestResult {
    if laser != Pass || !LaserIsOn(a.fsmLaser) then Null else if a.fsmMoves then Pass else Fail
  }

  function CalibrationResult(fsm: TestResult, a: SelfTestAnswers): TestResult {
    if fsm != Pass then Null else if a.calibrates && a.withinTolerance then Pass else Fail
  }

  function TestsAfter(t: Tests, rounds: nat, passedNow: bool): Tests {
    Tests(rounds, t.passed || passedNow, t.failed || !(t.passed || passedNow))
  }

  function SelfTestStep(s: State, a: SelfTestAnswers, at: real): State {
    if !a.fpga then Did(s.(tests := TestsAfter(s.tests, s.tests.laserRounds, false)), Report(Null, Null, Null))
    else
      var rounds := LaserRounds(s.tests, a);
      var laser := if rounds == 2 then Pass else Fail;
      var fsm := FsmResult(laser, a);
      var calibration := CalibrationResult(fsm, a);
      var tested := LaserTestHistory(s.history, a);
      var moved := if laser == Pass then LaserOn(tested, a.fsmLaser) else tested;
      s.(tests := TestsAfter(s.tests, rounds, calibration == Pass),
         know := if fsm == Pass && a.calibrates then s.know.(haveCalib := true) else s.know,
         history := Then(ThenIf(moved, fsm == Pass, Calibrated(a.calibrates, at)), Report(laser, fsm, calibration)))
  }

  function CalibTestStep(s: State, laser: Answers, calibrates: bool, at: real): State {
    var lit := s.(history := LaserOn(s.history, laser));
    if LaserIsOn(laser) then Did(lit.(know := s.know.(haveCalib := calibrates)), Calibrated(calibrates, at)) else lit
  }

  function StandbyStep(s: State, c: StandbyCommand, at: real): State {
    match c
    case Nothing => s
    case Other => s
    case Stop => s.(mode := Ended(s.mode).(endPat := false))
    case EndProcess => s.(mode := Ended(s.mode).(endPat := false))
    case StartPat(flag) => Start(s, flag, false, false)
    case StartPatOpenLoop(flag) => Start(s, flag, true, false)
    case StartPatBusFeedback(flag) => Start(s, flag, false, true)
    case StartPatOpenLoopBusFeedback(flag) => Start(s, flag, true, true)
    case StartPatStaticPoint => s.(mode := Enter(s.mode, StaticPoint))
    case BcnAlign =>
      s.(mode := Enter(s.mode, Acquisition),
         options := s.options.(bcnAlignment := true, openLoop := true))
    case CalibTest(laser, calibrates) => CalibTestStep(s, laser, calibrates, at)
    case CalibLaserTest(one, two) => s.(history := LaserTested(LaserTested(Then(s.history, Center), one), two))
    case FsmTest(laser) => s.(history := LaserOn(s.history, laser))
    case TxAlign => DidIf(s, s.know.haveCalib, ControlOpenLoop)
    case UpdateFsm => DidIf(s, s.know.haveCalib, ControlOpenLoop)
    case EnableDither => s.(options := s.options.(ditheringOn := true))
    case SelfTest(answers) => SelfTestStep(s, answers, at)
  }

  function CalibrationStep(s: State, i: MainInput): State {
    if LaserIsOn(i.laser) then
      InPhase(s, if i.calibrates then Acquisition else Calibration).(know := s.know.(haveCalib := i.calibrates),
        history := Then(LaserOn(s.history, i.laser), Calibrated(i.calibrates, i.clock.check)))
    else s.(know := s.know.(haveCalib := false), history := LaserOn(s.history, i.laser))
  }

  function AcquisitionStep(s: State, i: MainInput): State {
    var unseen, dark := s.know.(haveBeacon := false), LaserOff(s.history, i.off);
    if !i.off then s.(know := unseen, history := dark)
    else
      var tried := s.(history := Then(dark, Acquire));
      match i.acquired
      case NotFound => tried.(know := unseen)
      case EndPatReceived => tried.(mode := s.mode.(endPat := true))
      case EndProcessReceived => tried.(mode := s.mode.(endProcess := true, operational := false))
      case Found =>
        InPhase(s, if s.options.openLoop then OpenLoop else ClInit).(know := s.know.(haveBeacon := true),
          history := ThenIf(Then(tried.history, Seen(Beacon, i.clock.check)), !s.options.bcnAlignment, ControlOpenLoop))
  }

  function BeaconLost(k: Knowledge, stamp: real): Knowledge {
    if k.haveBeacon then k.(haveBeacon := false, startBeaconLoss := stamp) else k
  }

  function CalibLost(k: Knowledge, stamp: real): Knowledge {
    if k.haveCalib then k.(haveCalib := false, startCalibLoss := stamp) else k
  }

  predicate BeaconTimeout(k: Knowledge, c: Clock) { !k.haveBeacon && c.check - k.startBeaconLoss > PERIOD_BEACON_LOSS }

  predicate CalibTimeout(k: Knowledge, c: Clock) { !k.haveCalib && c.check - k.startCalibLoss > PERIOD_CALIB_LOSS }

  predicate BeaconSeen(i: MainInput) { i.off && Accepted(i.look, TRACK_ACQUISITION_BRIGHTNESS) }

  predicate CalibSeen(i: MainInput) { LaserIsOn(i.laser) && Accepted(i.look, CALIB_MIN_BRIGHTNESS) }

  predicate CalibVanished(i: MainInput) { !(LaserIsOn(i.laser) && Bright(i.look, CALIB_MIN_BRIGHTNESS)) }

  /** Knowledge after a look at the beacon; a missing frame counts as a loss only in open loop. */
  function BeaconLooked(k: Knowledge, i: MainInput, missingFrameCounts: bool): Knowledge {
    if BeaconSeen(i) then k.(haveBeacon := true)
    else if i.off && i.look.NoFrame? && !missingFrameCounts then k
    else BeaconLost(k, i.clock.stamp)
  }

  function CalibLooked(k: Knowledge, i: MainInput): Knowledge {
    if CalibSeen(i) then k.(haveCalib := true) else if CalibVanished(i) then CalibLost(k, i.clock.stamp) else k
  }

  /** The laser off, a frame, and what is seen on it. */
  function BeaconFrame(h: History, i: MainInput): History {
    ThenIf(ThenIf(LaserOff(h, i.off), i.off, Capture(Beacon)), BeaconSeen(i), Seen(Beacon, i.clock.check))
  }

  function CalibFrame(h: History, i: MainInput): History {
    var framed := ThenIf(LaserOn(h, i.laser), LaserIsOn(i.laser), Capture(Calib));
    if CalibSeen(i) then Then(Then(framed, Seen(Calib, i.clock.check)), Control) else framed
  }

  /** A chance to dither. */
  function Dithered(s: State, i: MainInput): State {
    if s.options.ditheringOn && i.ditherDue then
      s.(pointing := s.pointing.(ditherCount := s.pointing.ditherCount + 1))
    else s
  }

  function ClBeaconStep(s: State, i: MainInput): State {
    var know, history := BeaconLooked(s.know, i, false), BeaconFrame(s.history, i);
    var gaveUp := BeaconTimeout(know, i.clock);
    InPhase(s, if gaveUp then Acquisition else ClCalib).(
      know := know, history := ThenIf(history, gaveUp, GivenUp(Beacon, i.clock.check)))
  }

  function ClCalibStep(s: State, i: MainInput): State {
    var know, history := CalibLooked(s.know, i), CalibFrame(s.history, i);
    var gaveUp := CalibTimeout(know, i.clock);
    InPhase(if CalibSeen(i) then Dithered(s, i) else s, if gaveUp then OpenLoop else ClBeacon).(
      know := know, history := ThenIf(history, gaveUp, GivenUp(Calib, i.clock.check)))
  }

  function OpenLoopStep(s: State, i: MainInput): State {
    var know := BeaconLooked(s.know, i, true);
    var history := ThenIf(BeaconFrame(s.history, i), BeaconSeen(i) && !s.options.bcnAlignment, ControlOpenLoop);
    var gaveUp := BeaconTimeout(know, i.clock);
    InPhase(if BeaconSeen(i) then Dithered(s, i) else s, if gaveUp then Acquisition else OpenLoop).(
      know := know, history := ThenIf(history, gaveUp, GivenUp(Beacon, i.clock.check)))
  }

  function StaticPointStep(s: State, i: MainInput): State {
    if !s.pointing.staticDone then
      Did(s, if s.know.haveCalib then ControlOpenLoop else Center).(pointing := s.pointing.(staticDone := true))
    else if s.know.haveCalib then
      Dithered(DidIf(s, s.options.ditheringOn && i.ditherDue && s.pointing.ditherCount != 0, ControlOpenLoop), i)
    else s
  }

  function PhaseStep(s: State, i: MainInput): State {
    match s.mode.phase
    case Calibration => CalibrationStep(s, i)
    case Acquisition => AcquisitionStep(s, i)
    case ClInit => InPhase(s, ClBeacon)
    case ClBeacon => ClBeaconStep(s, i)
    case ClCalib => ClCalibStep(s, i)
    case OpenLoop => OpenLoopStep(s, i)
    case StaticPoint => StaticPointStep(s, i)
  }

  /** The mode after the commands that end the main loop; the loop goes on when it stays the same. */
  function CommandTaken(m: Mode, i: MainInput): Mode {
    if i.stop || i.command.EndProcessCommand? then Ended(m)
    else if i.command.EndPatCommand? || m.endPat then m.(standby := true)
    else if m.endProcess then Ended(m)
    else m
  }

  function OffsetsUpdated(s: State, i: MainInput): State {
    if i.offsetsDue && s.options.ditheringOn then s.(pointing := s.pointing.(ditherCount := 0)) else s
  }

  function MainStep(s: State, i: MainInput): State {
    var mode := CommandTaken(s.mode, i);
    if mode.standby then s.(mode := mode)
    else
      var next := PhaseStep(OffsetsUpdated(s, i), i);
      if next.mode.operational then next else next.(mode := Ended(next.mode))
  }

  // ---- the process ----

  class Pat {
    var mode: Mode
    var options: Options
    var know: Knowledge
    var tests: Tests
    var pointing: Pointing
    var history: History

    function View(): State reads this { State(mode, options, know, tests, pointing, history) }

    /** The start of the process; `staticPoint` when the camera never came up and the command to
        point the mirror straight arrived instead. */
    constructor (staticPoint: bool)
      ensures View() == Initial(staticPoint)
    {
      mode := Mode(true, true, Calibration, false, false);
      options, know := Options(false, false, false, false), Knowledge(false, false, 0.0, 0.0);
      tests, pointing, history := Tests(0, false, false), Pointing(false, 0), Begin;
      new;
      if staticPoint {
        mode := mode.(phase := StaticPoint, standby := false);
      }
    }

    /** Switch the laser on, after its heater. */
    method SwitchLaserOn(a: Answers) returns (on: bool)
      modifies this`history
      ensures on == LaserIsOn(a) && history == LaserOn(old(history), a)
    {
      history := Then(history, HeaterRead(a.heaterIsOn));
      if a.heaterIsOn {
        history := Then(history, LaserCommand(true, a.laserWritten));
        return a.laserWritten;
      } else {
        history := Then(history, HeaterWrite(a.heaterWritten));
        if a.heaterWritten {
          history := Then(history, LaserCommand(true, a.laserWritten));
          return a.laserWritten;
        } else {
          return false;
        }
      }
    }

    method SwitchLaserOff(written: bool) returns (off: bool)
      modifies this`history
      ensures off == written && history == LaserOff(old(history), written)
    {
      history := Then(history, LaserCommand(false, written));
      return written;
    }

    /** One round of the on/off test. */
    method TestLaser(t: LaserTest) returns (passed: bool)
      modifies this`history
      ensures passed == LaserTestPassed(t) && history == LaserTested(old(history), t)
    {
      hide LaserOn;
      passed := false;
      var on := SwitchLaserOn(t.on);
      if on {
        if t.seenOn {
          var off := SwitchLaserOff(t.off);
          if off {
            if t.seenDark {
              passed := true;
            }
          }
        }
      }
    }

    // -- Standby --

    method StartMain(flag: int)
      modifies this`mode
      ensures mode == if !KnownFlag(flag) then old(mode)
                      else
                        var skips := flag == SKIP_CALIB_FLAG && know.haveCalib;
                        old(mode).(standby := false, phase := if skips then Acquisition else Calibration)
    {
      if flag == SKIP_CALIB_FLAG {
        if know.haveCalib {
          mode := mode.(phase := Acquisition);
        } else {
          mode := mode.(phase := Calibration);
        }
        mode := mode.(standby := false);
      } else if flag == DO_CALIB_FLAG {
        mode := mode.(phase := Calibration);
        mode := mode.(standby := false);
      }
    }

    method RunLaserTest(a: SelfTestAnswers)
      modifies this`history, this`tests
      ensures history == LaserTestHistory(old(history), a)
      ensures tests == old(tests).(laserRounds := LaserRounds(old(tests), a))
    {
      hide LaserOn, LaserTested, LaserTestPassed, LaserIsOn;
      history := Then(history, Center);
      var on := SwitchLaserOn(a.first);
      if on {
        tests := tests.(laserRounds := 0);
        var one := TestLaser(a.one);
        if one {
          tests := tests.(laserRounds := tests.laserRounds + 1);
        }
        var two := TestLaser(a.two);
        if two {
          tests := tests.(laserRounds := tests.laserRounds + 1);
        }
      }
    }

    method RunSelfTest(a: SelfTestAnswers, at: real)
      modifies this`history, this`tests, this`know
      ensures View() == SelfTestStep(old(View()), a, at)
    {
      hide LaserOn, LaserTestHistory, LaserRounds, LaserIsOn;
      var laserResult, fsmResult, calibrationResult := Null, Null, Null;
      if a.fpga {
        RunLaserTest(a);
        if tests.laserRounds == 2 { laserResult := Pass; } else { laserResult := Fail; }
        if laserResult == Pass {
          var on := SwitchLaserOn(a.fsmLaser);
          if on {
            if a.fsmMoves { fsmResult := Pass; } else { fsmResult := Fail; }
          } else {
            fsmResult := Null;
          }
          if fsmResult == Pass {
            history := Then(history, Calibrated(a.calibrates, at));
            calibrationResult := Fail;
            if a.calibrates {
              know := know.(haveCalib := true);
              if a.withinTolerance {
                calibrationResult := Pass;
                tests := tests.(passed := true);
              }
            }
          }
        }
      }
      if !tests.passed {
        tests := tests.(failed := true);
      }
      history := Then(history, Report(laserResult, fsmResult, calibrationResult));
    }

    method RunCalibTest(laser: Answers, calibrates: bool, at: real)
      modifies this`history, this`know
      ensures View() == CalibTestStep(old(View()), laser, calibrates, at)
    {
      hide LaserOn, LaserIsOn;
      var on := SwitchLaserOn(laser);
      if on {
        history := Then(history, Calibrated(calibrates, at));
        if calibrates {
          know := know.(haveCalib := true);
        } else {
          know := know.(haveCalib := false);
        }
      }
    }

    /** The command switch of the Standby loop. */
    method StandbyCommandSwitch(c: StandbyCommand, at: real)
      requires mode.standby && mode.operational && !c.Stop?
      modifies this
      ensures View() == StandbyStep(old(View()), c, at).(mode := mode)
      ensures mode == match c
                      case EndProcess => old(mode).(standby := false, operational := false)
                      case _ => StandbyStep(old(View()), c, at).mode.(endPat := old(mode.endPat))
    {
      hide LaserOn, LaserTested, LaserIsOn, SelfTestStep, CalibTestStep;
      match c {
        case Nothing =>
        case StartPat(flag) =>
          StartMain(flag);
        case StartPatOpenLoop(flag) =>
          if KnownFlag(flag) { options := options.(openLoop := true); }
          StartMain(flag);
        case StartPatStaticPoint =>
          mode := mode.(phase := StaticPoint);
          mode := mode.(standby := false);
        case StartPatBusFeedback(flag) =>
          if KnownFlag(flag) { options := options.(sendBusFeedback := true); }
          StartMain(flag);
        case StartPatOpenLoopBusFeedback(flag) =>
          if KnownFlag(flag) {
            options := options.(openLoop := true);
            options := options.(sendBusFeedback := true);
          }
          StartMain(flag);
        case CalibTest(laser, calibrates) =>
          RunCalibTest(laser, calibrates, at);
        case CalibLaserTest(one, two) =>
          history := Then(history, Center);
          var _ := TestLaser(one);
          var _ := TestLaser(two);
        case FsmTest(laser) =>
          var _ := SwitchLaserOn(laser);
        case BcnAlign =>
          mode := mode.(phase := Acquisition);
          options := options.(bcnAlignment := true);
          options := options.(openLoop := true);
          mode := mode.(standby := false);
        case TxAlign =>
          if know.haveCalib { history := Then(history, ControlOpenLoop); }
        case UpdateFsm =>
          if know.haveCalib { history := Then(history, ControlOpenLoop); }
        case EnableDither =>
          options := options.(ditheringOn := true);
        case SelfTest(answers) =>
          RunSelfTest(answers, at);
        case EndProcess =>
          mode := mode.(standby := false);
          mode := mode.(operational := false);
        case Other =>
      }
    }

    /** One turn of the Standby loop, and the way out of it. */
    method StandbyTurn(c: StandbyCommand, at: real)
      requires mode.standby && mode.operational
      modifies this
      ensures View() == StandbyStep(old(View()), c, at)
    {
      hide LaserOn, LaserTested, LaserIsOn;
      var left := false;
      if c.Stop? {
        mode := mode.(operational := false);
        left := true;
      } else {
        StandbyCommandSwitch(c, at);
        left := !mode.standby;
      }
      if left {
        mode := mode.(endPat := false);
        if !mode.operational {
          mode := mode.(standby := true);
        }
      }
    }

    // -- the phases --

    method RunCalibration(i: MainInput)
      requires mode.phase == Calibration
      modifies this
      ensures View() == CalibrationStep(old(View()), i)
    {
      hide LaserOn, LaserIsOn;
      var on := SwitchLaserOn(i.laser);
      if on {
        history := Then(history, Calibrated(i.calibrates, i.clock.check));
        if i.calibrates {
          know := know.(haveCalib := true);
          mode := mode.(phase := Acquisition);
        } else {
          know := know.(haveCalib := false);
          mode := mode.(phase := Calibration);
        }
      } else {
        know := know.(haveCalib := false);
        mode := mode.(phase := Calibration);
      }
    }

    method RunAcquisition(i: MainInput)
      requires mode.phase == Acquisition
      modifies this
      ensures View() == AcquisitionStep(old(View()), i)
    {
      var off := SwitchLaserOff(i.off);
      if off {
        history := Then(history, Acquire);
        if i.acquired == Found {
          know := know.(haveBeacon := true);
          history := Then(history, Seen(Beacon, i.clock.check));
          if !options.bcnAlignment {
            history := Then(history, ControlOpenLoop);
          }
          if options.openLoop {
            mode := mode.(phase := OpenLoop);
          } else {
            mode := mode.(phase := ClInit);
          }
        } else {
          if i.acquired == EndPatReceived {
            mode := mode.(endPat := true);
          } else if i.acquired == EndProcessReceived {
            mode := mode.(endProcess := true);
            mode := mode.(operational := false);
          } else {
            know := know.(haveBeacon := false);
            mode := mode.(phase := Acquisition);
          }
        }
      } else {
        know := know.(haveBeacon := false);
        mode := mode.(phase := Acquisition);
      }
    }

    /** The beacon is not where it was: start the timer, unless it runs. */
    method LoseBeacon(stamp: real)
      modifies this`know
      ensures know == BeaconLost(old(know), stamp)
    {
      if know.haveBeacon {
        know := know.(haveBeacon := false);
        know := know.(startBeaconLoss := stamp);
      }
    }

    method LoseCalib(stamp: real)
      modifies this`know
      ensures know == CalibLost(old(know), stamp)
    {
      if know.haveCalib {
        know := know.(haveCalib := false);
        know := know.(startCalibLoss := stamp);
      }
    }

    /** A frame of the beacon, between two frames of the calibration spot. */
    method TrackBeacon(i: MainInput)
      modifies this`history, this`know
      ensures know == BeaconLooked(old(know), i, false) && history == BeaconFrame(old(history), i)
    {
      hide BeaconLost;
      var off := SwitchLaserOff(i.off);
      if off {
        history := Then(history, Capture(Beacon));
        if i.look.Frame? {
          if i.look.brightest > TRACK_ACQUISITION_BRIGHTNESS {
            if i.look.groups > 0 {
              if i.look.spotIndex >= 0 {
                if i.look.valueMax > TRACK_ACQUISITION_BRIGHTNESS {
                  if i.look.difference < TRACK_MAX_SPOT_DIFFERENCE {
                    know := know.(haveBeacon := true);
                    history := Then(history, Seen(Beacon, i.clock.check));
                  } else {
                    LoseBeacon(i.clock.stamp);
                  }
                } else {
                  LoseBeacon(i.clock.stamp);
                }
              } else {
                LoseBeacon(i.clock.stamp);
              }
            } else {
              LoseBeacon(i.clock.stamp);
            }
          } else {
            LoseBeacon(i.clock.stamp);
          }
        }
      } else {
        LoseBeacon(i.clock.stamp);
      }
    }

    method RunClBeacon(i: MainInput)
      modifies this
      ensures View() == ClBeaconStep(old(View()), i)
    {
      hide BeaconLooked, BeaconFrame;
      TrackBeacon(i);
      mode := mode.(phase := ClCalib);
      if !know.haveBeacon {
        if i.clock.check - know.startBeaconLoss > PERIOD_BEACON_LOSS {
          mode := mode.(phase := Acquisition);
          history := Then(history, GivenUp(Beacon, i.clock.check));
        }
      }
    }

    method Dither(i: MainInput)
      modifies this`pointing
      ensures View() == Dithered(old(View()), i)
    {
      if options.ditheringOn {
        if i.ditherDue {
          pointing := pointing.(ditherCount := pointing.ditherCount + 1);
        }
      }
    }

    /** A frame of the calibration spot, and control towards the set point. */
    method TrackCalib(i: MainInput)
      modifies this`history, this`know, this`pointing
      ensures know == CalibLooked(old(know), i) && history == CalibFrame(old(history), i)
      ensures pointing == if CalibSeen(i) then Dithered(old(View()), i).pointing else old(pointing)
    {
      hide LaserOn, LaserIsOn, CalibLost;
      var on := SwitchLaserOn(i.laser);
      if on {
        history := Then(history, Capture(Calib));
        if i.look.Frame? {
          if i.look.brightest > CALIB_MIN_BRIGHTNESS {
            if i.look.groups > 0 {
              if i.look.spotIndex >= 0 {
                if i.look.valueMax > CALIB_MIN_BRIGHTNESS {
                  if i.look.difference < TRACK_MAX_SPOT_DIFFERENCE {
                    know := know.(haveCalib := true);
                    history := Then(Then(history, Seen(Calib, i.clock.check)), Control);
                    Dither(i);
                  }
                } else {
                  LoseCalib(i.clock.stamp);
                }
              } else {
                LoseCalib(i.clock.stamp);
              }
            } else {
              LoseCalib(i.clock.stamp);
            }
          } else {
            LoseCalib(i.clock.stamp);
          }
        } else {
          LoseCalib(i.clock.stamp);
        }
      } else {
        LoseCalib(i.clock.stamp);
      }
    }

    method RunClCalib(i: MainInput)
      modifies this
      ensures View() == ClCalibStep(old(View()), i)
    {
      hide CalibLooked, CalibFrame, CalibSeen;
      TrackCalib(i);
      mode := mode.(phase := ClBeacon);
      if !know.haveCalib {
        if i.clock.check - know.startCalibLoss > PERIOD_CALIB_LOSS {
          mode := mode.(phase := OpenLoop);
          history := Then(history, GivenUp(Calib, i.clock.check));
        }
      }
    }

    /** A frame of the beacon, and pointing from it alone. */
    method TrackOpenLoop(i: MainInput)
      modifies this`history, this`know, this`pointing
      ensures know == BeaconLooked(old(know), i, true)
      ensures history == ThenIf(BeaconFrame(old(history), i), BeaconSeen(i) && !options.bcnAlignment, ControlOpenLoop)
      ensures pointing == if BeaconSeen(i) then Dithered(old(View()), i).pointing else old(pointing)
    {
      hide BeaconLost;
      var off := SwitchLaserOff(i.off);
      if off {
        history := Then(history, Capture(Beacon));
        if i.look.Frame? {
          if i.look.brightest > TRACK_ACQUISITION_BRIGHTNESS {
            if i.look.groups > 0 {
              if i.look.spotIndex >= 0 {
                if i.look.valueMax > TRACK_ACQUISITION_BRIGHTNESS {
                  if i.look.difference < TRACK_MAX_SPOT_DIFFERENCE {
                    know := know.(haveBeacon := true);
                    history := Then(history, Seen(Beacon, i.clock.check));
                    if !options.bcnAlignment {
                      history := Then(history, ControlOpenLoop);
                    }
                    Dither(i);
                  } else {
                    LoseBeacon(i.clock.stamp);
                  }
                } else {
                  LoseBeacon(i.clock.stamp);
                }
              } else {
                LoseBeacon(i.clock.stamp);
              }
            } else {
              LoseBeacon(i.clock.stamp);
            }
          } else {
            LoseBeacon(i.clock.stamp);
          }
        } else {
          LoseBeacon(i.clock.stamp);
        }
      } else {
        LoseBeacon(i.clock.stamp);
      }
    }

    method RunOpenLoop(i: MainInput)
      requires mode.phase == OpenLoop
      modifies this
      ensures View() == OpenLoopStep(old(View()), i)
    {
      hide BeaconLooked, BeaconFrame, BeaconSeen;
      TrackOpenLoop(i);
      if !know.haveBeacon {
        if i.clock.check - know.startBeaconLoss > PERIOD_BEACON_LOSS {
          mode := mode.(phase := Acquisition);
          history := Then(history, GivenUp(Beacon, i.clock.check));
        }
      }
    }

    method RunStaticPoint(i: MainInput)
      modifies this
      ensures View() == StaticPointStep(old(View()), i)
    {
      if !pointing.staticDone {
        if know.haveCalib {
          history := Then(history, ControlOpenLoop);
        } else {
          history := Then(history, Center);
        }
        pointing := pointing.(staticDone := true);
      } else {
        if know.haveCalib {
          if options.ditheringOn {
            if i.ditherDue {
              if pointing.ditherCount != 0 {
                history := Then(history, ControlOpenLoop);
              }
              pointing := pointing.(ditherCount := pointing.ditherCount + 1);
            }
          }
        }
      }
    }

    /** The commands that end the main loop, from the control port or from inside acquisition. */
    method TakeCommand(i: MainInput) returns (broke: bool)
      requires mode.operational && !mode.standby
      modifies this`mode
      ensures broke <==> CommandTaken(old(mode), i).standby
      ensures mode == CommandTaken(old(mode), i).(standby := false)
    {
      if i.stop {
        mode := mode.(operational := false);
        return true;
      }
      if i.command == EndPatCommand {
        return true;
      } else if i.command == EndProcessCommand {
        mode := mode.(operational := false);
        return true;
      }
      if mode.endPat {
        return true;
      } else if mode.endProcess {
        mode := mode.(operational := false);
        return true;
      }
      return false;
    }

    method RunPhase(i: MainInput)
      modifies this
      ensures View() == PhaseStep(old(View()), i)
    {
      hide CalibrationStep, AcquisitionStep, ClBeaconStep, ClCalibStep, OpenLoopStep, StaticPointStep;
      match mode.phase {
        case Calibration => RunCalibration(i);
        case Acquisition => RunAcquisition(i);
        case ClInit => mode := mode.(phase := ClBeacon);
        case ClBeacon => RunClBeacon(i);
        case ClCalib => RunClCalib(i);
        case OpenLoop => RunOpenLoop(i);
        case StaticPoint => RunStaticPoint(i);
      }
    }

    /** One turn of the main loop. */
    method MainTurn(i: MainInput)
      requires mode.operational && !mode.standby
      modifies this
      ensures View() == MainStep(old(View()), i)
    {
      hide PhaseStep;
      var broke := TakeCommand(i);
      if !broke {
        if i.offsetsDue {
          if options.ditheringOn {
            pointing := pointing.(ditherCount := 0);
          }
        }
        RunPhase(i);
      }
      if broke || !mode.operational {
        mode := mode.(standby := true);
      }
    }
  }
}
