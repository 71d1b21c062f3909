/** Where the pointing process does less than one would expect of it, and exactly when. */
module PatLimits {
  import opened PatMachine
  import opened PatRuns

  /** Nothing takes the process out of its main loop in this turn. */
  predicate Stays(i: MainInput) { !i.stop && !i.command.EndPatCommand? && !i.command.EndProcessCommand? }

  // ---- what the beacon timer misses ----

  predicate Tracking(s: State) {
    && s.mode.operational && !s.mode.standby && !s.mode.endPat && !s.mode.endProcess
    && s.know.haveBeacon && s.know.haveCalib
  }

  /** Nothing counts as a loss in this turn of closed-loop tracking. Where the beacon is due, a missing frame is as
      good as a frame with the beacon; where the calibration spot is due, it has to be there. */
  predicate Unlost(i: MainInput, beaconDue: bool) {
    Stays(i) && if beaconDue then BeaconSeen(i) || (i.off && i.look.NoFrame?) else !CalibVanished(i)
  }

  lemma SeenIsThere(i: MainInput)
    ensures CalibSeen(i) ==> !CalibVanished(i)
  {}

  lemma TrackingStep(s: State, t: Turn)
    requires Tracking(s) && (s.mode.phase == ClBeacon || s.mode.phase == ClCalib)
    ensures Tracking(TurnStep(s, t)) <==> Unlost(t.input, s.mode.phase == ClBeacon)
    ensures Tracking(TurnStep(s, t)) ==>
              TurnStep(s, t).mode.phase == if s.mode.phase == ClBeacon then ClCalib else ClBeacon
  {
    hide LaserOn, LaserIsOn, Accepted, Bright, BeaconFrame, CalibFrame, CalibSeen, CalibVanished, BeaconSeen;
    SeenIsThere(t.input);
  }

  ghost predicate TracksThroughout(s: State, turns: seq<Turn>) {
    forall m | 0 <= m <= |turns| :: Tracking(RunFrom(s, turns[..m]))
  }

  /** Nothing counts as a loss, with the beacon due first. */
  predicate UnlostThroughout(turns: seq<Turn>) {
    forall k | 0 <= k < |turns| :: Unlost(turns[k].input, k % 2 == 0)
  }

  lemma TracksOnce(s: State, turns: seq<Turn>)
    requires turns != []
    ensures TracksThroughout(s, turns) <==>
            TracksThroughout(s, turns[..|turns| - 1]) && Tracking(RunFrom(s, turns))
  {
    hide RunFrom, Tracking;
    var before := turns[..|turns| - 1];
    assert turns[..|turns|] == turns;
    assert forall m | 0 <= m < |turns| :: before[..m] == turns[..m];
  }

  lemma UnlostOnce(turns: seq<Turn>)
    requires turns != []
    ensures var n := |turns| - 1;
            UnlostThroughout(turns) <==> UnlostThroughout(turns[..n]) && Unlost(turns[n].input, n % 2 == 0)
  {
    hide Unlost;
    assert forall k | 0 <= k < |turns| - 1 :: turns[..|turns| - 1][k] == turns[k];
  }

  /** Closed-loop tracking goes on, with both spots taken for known and no loss timer running, exactly while the
      calibration spot stays and each beacon turn either sees the beacon or gets no frame at all. */
  lemma {:induction false} TracksOnExactly(s: State, turns: seq<Turn>)
    requires Tracking(s) && s.mode.phase == ClBeacon
    ensures TracksThroughout(s, turns) <==> UnlostThroughout(turns)
    ensures TracksThroughout(s, turns) ==>
              RunFrom(s, turns).mode.phase == if |turns| % 2 == 0 then ClBeacon else ClCalib
    decreases |turns|
  {
    hide TurnStep, Tracking, Unlost;
    if turns == [] {
    } else {
      var before := turns[..|turns| - 1];
      TracksOnExactly(s, before);
      TracksOnce(s, turns);
      UnlostOnce(turns);
      assert before[..|before|] == before;
      if TracksThroughout(s, before) {
        assert Tracking(RunFrom(s, before[..|before|]));
        TrackingStep(RunFrom(s, before), turns[|turns| - 1]);
      }
      hide TracksThroughout, UnlostThroughout;
    }
  }

  // ---- an outage ----

  const LIT := Answers(true, true, true)
  const SPOT := Frame(255, 1, 0, 255, 0.0)

  /** Nothing is asked of the process, everything works, and the turn lasts no time. */
  function Plain(at: real): MainInput {
    MainInput(false, NoCommand, false, Clock(at, at, at), LIT, true, true, Found, SPOT, false)
  }

  function MainTurnAt(k: nat): Turn { Turn(Nothing, Plain(k as real)) }

  function CommandAt(c: StandbyCommand, k: nat): Turn { Turn(c, Plain(k as real)) }

  /** A start with calibration, acquisition and the way into tracking, one turn a second. */
  function StartUp(): seq<Turn> {
    [CommandAt(StartPat(DO_CALIB_FLAG), 0), MainTurnAt(1), MainTurnAt(2), MainTurnAt(3)]
  }

  /** Turn k of an outage: the calibration spot where it is due, no frame where the beacon is. */
  function OutageTurn(k: nat): Turn {
    var plain := Plain((k + 4) as real);
    Turn(Nothing, if k % 2 == 0 then plain.(look := NoFrame) else plain)
  }

  function OutageTurns(n: nat): (turns: seq<Turn>) { seq(n, k requires 0 <= k => OutageTurn(k)) }

  lemma OneMore(s: State, turns: seq<Turn>, k: nat)
    requires k < |turns|
    ensures RunFrom(s, turns[..k + 1]) == TurnStep(RunFrom(s, turns[..k]), turns[k])
  {
    hide TurnStep;
    assert turns[..k + 1][..k] == turns[..k];
  }

  lemma StartsUp()
    ensures var s := RunFrom(Initial(false), StartUp());
            Tracking(s) && s.mode.phase == ClBeacon && ShownUpTo(s.history, Beacon, 2.0)
  {
    var all, s := StartUp(), Initial(false);
    forall k | 0 <= k < 4
      ensures RunFrom(s, all[..k + 1]) == TurnStep(RunFrom(s, all[..k]), all[k])
    {
      OneMore(s, all, k);
    }
    assert all[..0] == [] && all[..4] == all;
    assert RunFrom(s, all[..0]) == s;
    hide RunFrom;
    var one := TurnStep(s, all[0]);
    assert one.mode.phase == Calibration && !one.mode.standby && one.history == Begin;
    var two := TurnStep(one, all[1]);
    assert two.mode.phase == Acquisition && !two.mode.standby && two.know.haveCalib;
    assert ShownUpTo(two.history, Beacon, 2.0);
    var three := TurnStep(two, all[2]);
    assert three.mode.phase == ClInit && three.know.haveBeacon;
  }

  /** So an outage of the camera in all beacon turns is never noticed: the beacon was last seen in the third second,
      and still the process tracks it after any number of seconds. */
  lemma {:induction false} OutageUnnoticed(n: nat)
    ensures Ticking(StartUp() + OutageTurns(n))
    ensures var s := RunFrom(Initial(false), StartUp() + OutageTurns(n));
            Tracking(s) && (n % 2 == 0 ==> s.mode.phase == ClBeacon) && ShownUpTo(s.history, Beacon, 2.0)
  {
    hide TurnStep, Tracking, Unlost;
    var s, turns := RunFrom(Initial(false), StartUp()), OutageTurns(n);
    StartsUp();
    forall k | 0 <= k < n
      ensures Unlost(turns[k].input, k % 2 == 0)
    {
      OutageTurnUnlost(k);
    }
    TracksOnExactly(s, turns);
    RunsCompose(Initial(false), StartUp(), turns);
    assert turns[..n] == turns;
    assert Tracking(RunFrom(s, turns[..n]));
    NothingShown(s, n);
  }

  lemma OutageTurnUnlost(k: nat)
    ensures Unlost(OutageTurn(k).input, k % 2 == 0)
  {}

  /** An outage shows no beacon. */
  lemma {:induction false} NothingShown(s: State, n: nat)
    requires Tracking(s) && s.mode.phase == ClBeacon && ShownUpTo(s.history, Beacon, 2.0)
    ensures ShownUpTo(RunFrom(s, OutageTurns(n)).history, Beacon, 2.0)
  {
    hide TurnStep, Tracking, Unlost, ShownUpTo;
    if n == 0 {
    } else {
      var before := OutageTurns(n - 1);
      NothingShown(s, n - 1);
      assert OutageTurns(n)[..n - 1] == before;
      forall k | 0 <= k < n - 1
        ensures Unlost(before[k].input, k % 2 == 0)
      {
        OutageTurnUnlost(k);
      }
      TracksOnExactly(s, before);
      assert before[..n - 1] == before;
      assert Tracking(RunFrom(s, before[..n - 1]));
      OutageShowsNothing(RunFrom(s, before), n - 1);
    }
  }

  lemma OutageShowsNothing(s: State, k: nat)
    requires Tracking(s) && s.mode.phase == if k % 2 == 0 then ClBeacon else ClCalib
    requires ShownUpTo(s.history, Beacon, 2.0)
    ensures ShownUpTo(TurnStep(s, OutageTurn(k)).history, Beacon, 2.0)
  {
    var i := OutageTurn(k).input;
    LaserOnKeeps(s.history, i.laser);
    LaserOffKeeps(s.history, i.off);
    hide LaserOn, LaserOff, LaserIsOn;
    Append(LaserOff(s.history, i.off), Capture(Beacon));
    var lit, seen := LaserOn(s.history, i.laser), Seen(Calib, i.clock.check);
    Append(lit, Capture(Calib));
    Append(Then(lit, Capture(Calib)), seen);
    Append(Then(Then(lit, Capture(Calib)), seen), Control);
    hide ShownUpTo;
  }

  // ---- a static point is only set once ----

  function Events(h: History): nat { if h == Begin then 0 else Events(h.before) + 1 }

  predicate DitherTime(i: MainInput) { i.ditherDue && !i.offsetsDue }

  /** The dither counter is not zero: since the last update of the offsets there was a time to dither. */
  predicate Primed(before: bool, turns: seq<Turn>) {
    if turns == [] then before
    else
      var i := turns[|turns| - 1].input;
      i.ditherDue || (!i.offsetsDue && Primed(before, turns[..|turns| - 1]))
  }

  /** A static-point start that leaves the mirror alone for all these turns: a static point was set before, and no
      dither step is due. */
  predicate LeavesMirror(s: State, turns: seq<Turn>) {
    || turns == [] || s.mode.endProcess
    || (s.pointing.staticDone &&
        (s.know.haveCalib && s.options.ditheringOn ==>
           forall k | 0 <= k < |turns| ::
             DitherTime(turns[k].input) ==> !Primed(s.pointing.ditherCount != 0, turns[..k])))
  }

  /** What holds in the turns after a static-point start. */
  predicate AtStaticPoint(s: State, turns: seq<Turn>, after: State) {
    && after.mode == Enter(s.mode, StaticPoint) && after.know == s.know && after.options == s.options
    && Events(s.history) <= Events(after.history)
    && after.pointing.staticDone == (turns != [] || s.pointing.staticDone)
    && (s.pointing.staticDone && s.know.haveCalib && s.options.ditheringOn ==>
          ((after.pointing.ditherCount != 0) == Primed(s.pointing.ditherCount != 0, turns)))
  }

  lemma StaticTurn(s: State, i: MainInput)
    requires s.mode.operational && !s.mode.standby && !s.mode.endPat && !s.mode.endProcess
    requires s.mode.phase == StaticPoint && Stays(i)
    ensures var next, dithers := MainStep(s, i), s.know.haveCalib && s.options.ditheringOn;
            && next.mode == s.mode && next.know == s.know && next.options == s.options && next.pointing.staticDone
            && (next.history == s.history || Events(next.history) == Events(s.history) + 1)
            && (next.history != s.history <==>
                  !s.pointing.staticDone || (dithers && DitherTime(i) && s.pointing.ditherCount != 0))
            && (s.pointing.staticDone && dithers ==>
                  ((next.pointing.ditherCount != 0) ==
                   (i.ditherDue || (!i.offsetsDue && s.pointing.ditherCount != 0))))
  {
    assert Events(Then(s.history, Center)) == Events(Then(s.history, ControlOpenLoop)) == Events(s.history) + 1;
  }

  /** A static-point start sends nothing to the mirror, for as long as it lasts, exactly when a static point was set
      before and no dither step is due with calibration and dithering on. */
  lemma {:induction false} SilentStartExactly(s: State, start: Turn, turns: seq<Turn>)
    requires s.mode.operational && s.mode.standby
    requires start.command == StartPatStaticPoint && forall t | t in turns :: Stays(t.input)
    ensures RunFrom(s, [start] + turns).history == s.history <==> LeavesMirror(s, turns)
    ensures !s.mode.endProcess ==> AtStaticPoint(s, turns, RunFrom(s, [start] + turns))
    decreases |turns|
  {
    hide StandbyStep, MainStep;
    var n, all := |turns|, [start] + turns;
    if n == 0 {
      assert all[..0] == [];
      StartsStatic(s, start);
    } else if s.mode.endProcess {
      assert all[..1] == [start] + [] && all[..2][..1] == all[..1];
      SilentStartExactly(s, start, []);
      StartsStatic(s, start);
      EndsAtOnce(s, start, turns[0]);
      OverStays(s, all, 2);
    } else {
      var before, i := turns[..n - 1], turns[n - 1].input;
      assert all[..n] == [start] + before;
      SilentStartExactly(s, start, before);
      StaticTurn(RunFrom(s, [start] + before), i);
      LeavesMirrorStep(s, turns);
    }
  }

  lemma StartsStatic(s: State, start: Turn)
    requires s.mode.operational && s.mode.standby && start.command == StartPatStaticPoint
    ensures TurnStep(s, start) == s.(mode := Enter(s.mode, StaticPoint))
  {
    hide MainStep;
  }

  lemma EndsAtOnce(s: State, start: Turn, t: Turn)
    requires s.mode.operational && s.mode.standby && s.mode.endProcess
    requires start.command == StartPatStaticPoint && Stays(t.input)
    ensures var next := TurnStep(TurnStep(s, start), t);
            next.history == s.history && !next.mode.operational
  {
    hide PhaseStep;
  }

  lemma LeavesMirrorStep(s: State, turns: seq<Turn>)
    requires turns != [] && !s.mode.endProcess
    ensures var n := |turns| - 1;
            LeavesMirror(s, turns) <==>
              LeavesMirror(s, turns[..n]) && s.pointing.staticDone &&
              (s.know.haveCalib && s.options.ditheringOn ==>
                 (DitherTime(turns[n].input) ==> !Primed(s.pointing.ditherCount != 0, turns[..n])))
  {
    hide Primed, DitherTime;
    var n := |turns| - 1;
    assert forall k | 0 <= k < n :: turns[..n][..k] == turns[..k] && turns[..n][k] == turns[k];
  }

  /** A session at a static point, then one that calibrates and points at a beacon, then a static-point start. */
  function Sessions(): seq<Turn> {
    [CommandAt(StartPatStaticPoint, 0), MainTurnAt(1), EndPatAt(2),
     CommandAt(StartPat(DO_CALIB_FLAG), 3), MainTurnAt(4), MainTurnAt(5), EndPatAt(6)]
  }

  function EndPatAt(k: nat): Turn { Turn(Nothing, Plain(k as real).(command := EndPatCommand)) }

  /** Between the sessions and in the second one, nothing but a static point was set. */
  predicate PlainAt(s: State, standby: bool, phase: Phase) {
    && s.mode == Mode(true, standby, phase, false, false) && s.pointing.staticDone
    && !s.options.openLoop && !s.options.bcnAlignment && !s.options.ditheringOn
  }

  lemma FirstSession()
    ensures PlainAt(RunFrom(Initial(false), Sessions()[..3]), true, StaticPoint)
  {
    var all, s := Sessions(), Initial(false);
    forall k | 0 <= k < 3
      ensures RunFrom(s, all[..k + 1]) == TurnStep(RunFrom(s, all[..k]), all[k])
    {
      OneMore(s, all, k);
    }
    assert all[..0] == [];
    assert RunFrom(s, all[..0]) == s;
    hide RunFrom;
    var one := TurnStep(s, all[0]);
    assert one.mode.phase == StaticPoint && !one.mode.standby;
    var two := TurnStep(one, all[1]);
    assert two.pointing.staticDone && !two.mode.standby;
  }

  /** What the second session leaves: the mirror steered to where the beacon was. */
  predicate LeftSteered(s: State) {
    && s.mode.operational && s.mode.standby && !s.mode.endPat && !s.mode.endProcess
    && s.pointing.staticDone && s.know.haveCalib && !s.options.ditheringOn
    && s.history.Then? && s.history.event == ControlOpenLoop
  }

  lemma StartsCalibration(s: State, k: nat)
    requires PlainAt(s, true, StaticPoint)
    ensures PlainAt(TurnStep(s, CommandAt(StartPat(DO_CALIB_FLAG), k)), false, Calibration)
  {
    hide LaserOn, LaserOff;
  }

  lemma Calibrates(s: State, k: nat)
    requires PlainAt(s, false, Calibration)
    ensures PlainAt(TurnStep(s, MainTurnAt(k)), false, Acquisition) && TurnStep(s, MainTurnAt(k)).know.haveCalib
  {
    hide LaserOn, LaserOff;
  }

  lemma Acquires(s: State, k: nat)
    requires PlainAt(s, false, Acquisition) && s.know.haveCalib
    ensures var next := TurnStep(s, MainTurnAt(k));
            && PlainAt(next, false, ClInit) && next.know.haveCalib
            && next.history.Then? && next.history.event == ControlOpenLoop
  {
    hide LaserOn, LaserOff;
  }

  lemma EndsSession(s: State, k: nat)
    requires PlainAt(s, false, s.mode.phase)
    ensures TurnStep(s, EndPatAt(k)) == s.(mode := s.mode.(standby := true))
  {
    hide PhaseStep;
  }

  lemma SecondSession()
    ensures LeftSteered(RunFrom(Initial(false), Sessions()))
  {
    var all, s := Sessions(), Initial(false);
    FirstSession();
    forall k | 3 <= k < 7
      ensures RunFrom(s, all[..k + 1]) == TurnStep(RunFrom(s, all[..k]), all[k])
    {
      OneMore(s, all, k);
    }
    assert all[..7] == all;
    hide RunFrom, TurnStep;
    StartsCalibration(RunFrom(s, all[..3]), 3);
    Calibrates(RunFrom(s, all[..4]), 4);
    Acquires(RunFrom(s, all[..5]), 5);
    EndsSession(RunFrom(s, all[..6]), 6);
  }

  /** So a process that pointed at a beacon and is then told to point straight leaves its mirror where the beacon was,
      however long it stays at the static point. */
  lemma SecondStaticPointIsSilent(start: Turn, turns: seq<Turn>)
    requires start.command == StartPatStaticPoint && forall t | t in turns :: Stays(t.input)
    ensures var s := RunFrom(Initial(false), Sessions());
            var after := RunFrom(Initial(false), Sessions() + ([start] + turns));
            LeftSteered(s) && after.mode.phase == StaticPoint && !after.mode.standby && after.history == s.history
  {
    SecondSession();
    SilentStartExactly(RunFrom(Initial(false), Sessions()), start, turns);
    RunsCompose(Initial(false), Sessions(), [start] + turns);
    hide RunFrom;
  }

  // ---- the self test's stale count ----

  /** The self test reports a passed laser exactly when both rounds pass with the laser on, or when the laser
      does not come on and the last test that had it on counted two. */
  lemma LaserPassExactly(s: State, a: SelfTestAnswers, at: real)
    requires a.fpga
    ensures SelfTestStep(s, a, at).history.event.laser == Pass <==>
              if LaserIsOn(a.first) then LaserTestPassed(a.one) && LaserTestPassed(a.two) else s.tests.laserRounds == 2
  {
    hide LaserOn, LaserTested;
  }

  /** So a pass can be reported with the laser never on. */
  lemma StalePass(at: real)
    ensures var on, off := Answers(true, true, true), Answers(true, true, false);
            var good := LaserTest(on, true, true, true);
            var first := SelfTestAnswers(true, on, good, good, on, true, true, true);
            var second := SelfTestAnswers(true, off, good, good, off, true, true, true);
            SelfTestStep(SelfTestStep(Initial(false), first, at), second, at).history.event.laser == Pass
  {
    hide LaserOn, LaserTested;
    var on, off := Answers(true, true, true), Answers(true, true, false);
    var good := LaserTest(on, true, true, true);
    var s := SelfTestStep(Initial(false), SelfTestAnswers(true, on, good, good, on, true, true, true), at);
    assert s.tests.laserRounds == 2;
    LaserPassExactly(s, SelfTestAnswers(true, off, good, good, off, true, true, true), at);
  }
}
