/** The command load balancer: lib/ipc_loadbalancer.py, commandhandler/router.py and the worker loop of
    commandhandler/commandhandler.py. A worker says it is ready, is sent one command, processes it, and says so
    again; the router relays commands in the order they arrive. An empty command is dropped without a word, and
    costs its worker. No process crashes. */
module LoadBalancer {
  import opened Basics

  type Worker = nat
  type Job = seq<int>

  /** What happened, the latest last. */
  datatype Event = Ready(w: Worker) | Dispatched(to: Worker, job: Job)

  // ---- what a log says ----

  /** The commands sent to a worker, in order. */
  function SentTo(log: seq<Event>, w: Worker): seq<Job> {
    if log == [] then []
    else
      var e := log[|log| - 1];
      SentTo(log[..|log| - 1], w) + if e.Dispatched? && e.to == w then [e.job] else []
  }

  /** All commands sent, in order. */
  function AllSent(log: seq<Event>): seq<Job> {
    if log == [] then []
    else
      var e := log[|log| - 1];
      AllSent(log[..|log| - 1]) + if e.Dispatched? then [e.job] else []
  }

  predicate Concerns(e: Event, w: Worker) { if e.Ready? then e.w == w else e.to == w }

  /** The last that was heard of the worker is that it is ready. */
  predicate IsReady(log: seq<Event>, w: Worker) {
    log != [] &&
    var e := log[|log| - 1];
    if Concerns(e, w) then e.Ready? else IsReady(log[..|log| - 1], w)
  }

  /** A worker may say it is ready when it was not, and be sent a command when it was. */
  predicate MayFollow(log: seq<Event>, e: Event) {
    if e.Ready? then !IsReady(log, e.w) else IsReady(log, e.to)
  }

  /** Every command went to a worker that had declared itself ready since its last command. */
  predicate Alternates(log: seq<Event>) {
    log == [] || (Alternates(log[..|log| - 1]) && MayFollow(log[..|log| - 1], log[|log| - 1]))
  }

  lemma LogSnoc(log: seq<Event>, e: Event)
    ensures AllSent(log + [e]) == AllSent(log) + if e.Dispatched? then [e.job] else []
    ensures forall w :: SentTo(log + [e], w) == SentTo(log, w) + if e.Dispatched? && e.to == w then [e.job] else []
    ensures forall w :: IsReady(log + [e], w) <==> if Concerns(e, w) then e.Ready? else IsReady(log, w)
    ensures Alternates(log + [e]) <==> Alternates(log) && MayFollow(log, e)
  {
    assert (log + [e])[..|log|] == log;
  }

  // ---- the system ----

  class System {
    var started: set<Worker>
    var ready: seq<Worker>            // ready messages that wait at the router
    var inbox: map<Worker, Job>       // commands on the way to their worker
    var processing: map<Worker, Job>
    var stuck: set<Worker>            // workers that took an empty command
    var waiting: seq<Job>             // commands that arrived and are not relayed yet
    var arrived: seq<Job>             // all commands that ever arrived
    var finished: map<Worker, seq<Job>>  // what each worker has done, in order
    var log: seq<Event>

    /** Every started worker that is not stuck holds exactly one token: a ready message, a command on its way, or one
        in its hands. */
    predicate OneToken(w: Worker) reads this {
      && !(w in inbox && w in processing) && (w in stuck ==> w !in inbox && w !in processing)
      && (w in ready <==> w in started && w !in inbox && w !in processing && w !in stuck)
      && (w in inbox || w in processing || w in stuck ==> w in started)
    }

    function Done(w: Worker): seq<Job> reads this { if w in finished then finished[w] else [] }

    function InHands(w: Worker): seq<Job> reads this {
      if w in processing then [processing[w]] else if w in stuck then [[]] else []
    }

    /** What a worker was sent is what it has done, is doing or has dropped, and is about to get; it does no empty
        command. */
    predicate Accounted(w: Worker) reads this {
      && SentTo(log, w) == Done(w) + InHands(w) + (if w in inbox then [inbox[w]] else [])
      && [] !in Done(w) && (w in processing ==> processing[w] != [])
    }

    ghost predicate Valid() reads this {
      && (forall w :: OneToken(w) && Accounted(w) && (w in ready <==> IsReady(log, w)))
      && (forall i, j | 0 <= i < j < |ready| :: ready[i] != ready[j])
      && arrived == AllSent(log) + waiting && Alternates(log)
    }

    function AtRouter(): Router reads this { Router(ready, waiting, log) }

    constructor ()
      ensures Valid() && started == {} && ready == [] && waiting == [] && arrived == [] && log == [] && stuck == {}
    {
      started, ready, inbox, processing, stuck := {}, [], map[], map[], {};
      waiting, arrived, finished, log := [], [], map[], [];
    }

    /** The message that a worker has nothing to do; its place among other workers' messages is up to the sockets. */
    method SendReady(w: Worker, place: nat)
      requires w !in ready && w !in inbox && w !in processing && !IsReady(log, w) && place <= |ready|
      modifies this`ready, this`log
      ensures ready == old(ready)[..place] + [w] + old(ready)[place..] && log == old(log) + [Ready(w)]
    {
      ready := ready[..place] + [w] + ready[place..];
      log := log + [Ready(w)];
    }

    /** A worker starts, and declares itself ready. */
    method Start(w: Worker, place: nat) returns (ok: bool)
      requires Valid() && place <= |ready|
      modifies this
      ensures Valid() && arrived == old(arrived) && stuck == old(stuck)
      ensures ok <==> w !in old(started)
      ensures ok ==>
                && started == old(started) + {w} && log == old(log) + [Ready(w)] && waiting == old(waiting)
                && ready == old(ready)[..place] + [w] + old(ready)[place..]
      ensures !ok ==> unchanged(this)
    {
      hide IsReady, SentTo, AllSent, Alternates;
      if w in started {
        return false;
      }
      assert OneToken(w);
      LogSnoc(log, Ready(w));
      InsertedAt(ready, w, place);
      started := started + {w};
      SendReady(w, place);
      forall v ensures OneToken(v) && Accounted(v) && (v in ready <==> IsReady(log, v)) {
        assert old(OneToken(v)) && old(Accounted(v));
      }
      return true;
    }

    /** A command arrives for the router. */
    method Arrive(job: Job)
      requires Valid()
      modifies this`waiting, this`arrived
      ensures Valid() && arrived == old(arrived) + [job] && waiting == old(waiting) + [job]
    {
      hide IsReady, SentTo, AllSent, Alternates;
      waiting := waiting + [job];
      arrived := arrived + [job];
      forall v ensures OneToken(v) && Accounted(v) && (v in ready <==> IsReady(log, v)) {
        assert old(OneToken(v)) && old(Accounted(v));
      }
    }

    /** Send one command to the worker whose ready message comes first; blocked without one. */
    method SendRequest(payload: Job) returns (blocked: bool)
      requires Valid() && waiting != [] && payload == waiting[0]
      modifies this`ready, this`inbox, this`waiting, this`log
      ensures Valid() && (blocked <==> old(ready) == [])
      ensures blocked ==> unchanged(this)
      ensures !blocked ==>
                && waiting == old(waiting)[1..] && ready == old(ready)[1..]
                && inbox == old(inbox)[old(ready)[0] := payload]
                && log == old(log) + [Dispatched(old(ready)[0], payload)]
    {
      hide IsReady, SentTo, AllSent, Alternates;
      if ready == [] {
        return true;
      }
      var address := ready[0];
      assert OneToken(address) && Accounted(address);
      LogSnoc(log, Dispatched(address, payload));
      assert ready == [address] + ready[1..];
      ready := ready[1..];
      inbox := inbox[address := payload];
      log := log + [Dispatched(address, payload)];
      waiting := waiting[1..];
      forall v ensures OneToken(v) && Accounted(v) && (v in ready <==> IsReady(log, v)) {
        assert old(OneToken(v)) && old(Accounted(v));
      }
      return false;
    }

    /** A worker looks for a command; None when there is none within its timeout. An empty one looks like none to it,
        so that it neither works nor says that it is ready. */
    method PollRequest(w: Worker) returns (workload: Option<Job>)
      requires Valid()
      modifies this`inbox, this`processing, this`stuck
      ensures Valid()
      ensures workload == if w in old(inbox) then Some(old(inbox)[w]) else None
      ensures workload == None ==> unchanged(this)
      ensures workload.Some? ==> inbox == old(inbox) - {w}
      ensures workload.Some? && workload.value != [] ==>
                processing == old(processing)[w := workload.value] && stuck == old(stuck)
      ensures workload == Some([]) ==> processing == old(processing) && stuck == old(stuck) + {w}
    {
      hide IsReady, SentTo, AllSent, Alternates;
      if w !in inbox {
        return None;
      }
      assert OneToken(w) && Accounted(w);
      workload := Some(inbox[w]);
      if workload.value != [] {
        processing := processing[w := inbox[w]];
      } else {
        stuck := stuck + {w};
      }
      inbox := inbox - {w};
      forall v
        ensures OneToken(v) && Accounted(v) && (v in ready <==> IsReady(log, v))
      {
        assert old(OneToken(v)) && old(Accounted(v));
      }
    }

    /** A worker is done with its command, and declares itself ready. */
    method Finish(w: Worker, place: nat) returns (ok: bool)
      requires Valid() && place <= |ready|
      modifies this
      ensures Valid() && arrived == old(arrived) && stuck == old(stuck)
      ensures ok <==> w in old(processing)
      ensures !ok ==> unchanged(this)
      ensures ok ==>
                && Done(w) == old(Done(w)) + [old(processing)[w]] && log == old(log) + [Ready(w)]
                && ready == old(ready)[..place] + [w] + old(ready)[place..] && waiting == old(waiting)
    {
      hide IsReady, SentTo, AllSent, Alternates;
      if w !in processing {
        return false;
      }
      assert OneToken(w) && Accounted(w);
      LogSnoc(log, Ready(w));
      InsertedAt(ready, w, place);
      finished := finished[w := Done(w) + [processing[w]]];
      processing := processing - {w};
      SendReady(w, place);
      forall v ensures OneToken(v) && Accounted(v) && (v in ready <==> IsReady(log, v)) {
        assert old(OneToken(v)) && old(Accounted(v));
      }
      return true;
    }
  }

  lemma InsertedAt(ready: seq<Worker>, w: Worker, place: nat)
    requires place <= |ready| && w !in ready && forall i, j | 0 <= i < j < |ready| :: ready[i] != ready[j]
    ensures var more := ready[..place] + [w] + ready[place..];
            && (forall v :: v in more <==> v == w || v in ready)
            && (forall i, j | 0 <= i < j < |more| :: more[i] != more[j])
  {
    var more := ready[..place] + [w] + ready[place..];
    assert forall v :: v in ready <==> v in ready[..place] || v in ready[place..] by {
      assert ready == ready[..place] + ready[place..];
    }
    forall i, j | 0 <= i < j < |more| ensures more[i] != more[j] {
      var p, q := if i <= place then i else i - 1, if j <= place then j else j - 1;
      if i == place {
        assert more[i] == w && more[j] == ready[q];
      } else if j == place {
        assert more[j] == w && more[i] == ready[p];
      } else {
        assert more[i] == ready[p] && more[j] == ready[q];
      }
    }
  }

  // ---- consequences ----

  /** The router is only blocked while every worker has a command or is stuck. */
  lemma BlockedMeansBusy(s: System)
    requires s.Valid() && s.ready == []
    ensures forall w | w in s.started :: w in s.inbox || w in s.processing || w in s.stuck
  {
    forall w | w in s.started
      ensures w in s.inbox || w in s.processing || w in s.stuck
    {
      assert s.OneToken(w);
    }
  }

  /** A worker is stuck exactly when it was sent an empty command that is not still on its way; without one among the
      commands that arrived, no worker ever is. */
  lemma StuckIff(s: System, w: Worker)
    requires s.Valid()
    ensures w in s.stuck <==> w !in s.inbox && [] in SentTo(s.log, w)
    ensures [] !in s.arrived ==> w !in s.stuck
  {
    assert s.OneToken(w) && s.Accounted(w);
    SentToMembers(s.log, w);
    hide SentTo, AllSent, Alternates, IsReady;
    assert w in s.stuck ==> [] in s.InHands(w);
    assert w !in s.stuck ==> [] !in s.InHands(w);
  }

  lemma {:induction false} SentToMembers(log: seq<Event>, w: Worker)
    ensures |SentTo(log, w)| <= |AllSent(log)|
    ensures forall j | j in SentTo(log, w) :: j in AllSent(log)
  {
    if log != [] {
      SentToMembers(log[..|log| - 1], w);
    }
  }

  // ---- any interleaving ----

  datatype Action =
    | StartWorker(s: Worker, startPlace: nat)
    | Command(job: Job)
    | Relay
    | Poll(p: Worker)
    | FinishWorker(f: Worker, finishPlace: nat)

  /** What the router has: ready messages, commands, and what it did. */
  datatype Router = Router(ready: seq<Worker>, waiting: seq<Job>, log: seq<Event>)

  /** What an action does at the router. A relay sends the oldest command to the first ready worker whenever there are
      both, and nothing else is sent. */
  predicate Took(r: Router, a: Action, next: Router) {
    match a
    case Command(job) => next == r.(waiting := r.waiting + [job])
    case Relay =>
      if r.waiting != [] && r.ready != [] then
        next == Router(r.ready[1..], r.waiting[1..], r.log + [Dispatched(r.ready[0], r.waiting[0])])
      else next == r
    case Poll(_) => next == r
    case StartWorker(w, _) => next == r || SaysReady(r, w, next)
    case FinishWorker(w, _) => next == r || SaysReady(r, w, next)
  }

  /** One more ready message, somewhere among the others. */
  predicate SaysReady(r: Router, w: Worker, next: Router) {
    next.waiting == r.waiting && next.log == r.log + [Ready(w)] &&
    exists place | 0 <= place <= |r.ready| :: next.ready == r.ready[..place] + [w] + r.ready[place..]
  }

  predicate Trace(actions: seq<Action>, trace: seq<Router>) {
    |trace| == |actions| + 1 && forall n | 0 <= n < |actions| :: Took(trace[n], actions[n], trace[n + 1])
  }

  /** Any interleaving of starts, arrivals, relays, polls and ends: all commands ever sent are the first that
      arrived, in order, each to one worker that was ready for it, no worker's command is lost, and a worker that is
      stuck stays so. The trace is what the router had before and after every action. */
  method Play(s: System, actions: seq<Action>) returns (trace: seq<Router>)
    requires s.Valid()
    modifies s
    ensures s.Valid() && old(s.arrived) <= s.arrived && old(s.stuck) <= s.stuck
    ensures AllSent(s.log) <= s.arrived && Alternates(s.log)
    ensures Trace(actions, trace) && trace[0] == old(s.AtRouter()) && trace[|actions|] == s.AtRouter()
  {
    hide IsReady, SentTo, AllSent, Alternates, Took;
    trace := [s.AtRouter()];
    for n := 0 to |actions|
      invariant s.Valid() && old(s.arrived) <= s.arrived && old(s.stuck) <= s.stuck
      invariant |trace| == n + 1 && trace[0] == old(s.AtRouter()) && trace[n] == s.AtRouter()
      invariant forall m | 0 <= m < n :: Took(trace[m], actions[m], trace[m + 1])
    {
      Act(s, actions[n]);
      trace := trace + [s.AtRouter()];
    }
  }

  method Act(s: System, a: Action)
    requires s.Valid()
    modifies s
    ensures s.Valid() && old(s.arrived) <= s.arrived && old(s.stuck) <= s.stuck
    ensures Took(old(s.AtRouter()), a, s.AtRouter())
  {
    hide IsReady, SentTo, AllSent, Alternates;
    match a {
      case StartWorker(w, place) => var _ := s.Start(w, if place <= |s.ready| then place else |s.ready|);
      case Command(job) => s.Arrive(job);
      case Relay =>
        if s.waiting != [] {
          var _ := s.SendRequest(s.waiting[0]);
        }
      case Poll(w) => var _ := s.PollRequest(w);
      case FinishWorker(w, place) => var _ := s.Finish(w, if place <= |s.ready| then place else |s.ready|);
    }
  }

  /** As many relays in a row as commands wait leave no command beside a ready worker: all that can be sent have been,
      in order. */
  lemma {:induction false} RelaysDeliver(actions: seq<Action>, trace: seq<Router>, n: nat)
    requires Trace(actions, trace) && forall i | 0 <= i < |actions| :: actions[i] == Relay
    requires n == |actions| >= |trace[0].waiting|
    ensures var first, last := trace[0], trace[n];
            var k := if |first.waiting| <= |first.ready| then |first.waiting| else |first.ready|;
            && last.waiting == first.waiting[k..] && last.ready == first.ready[k..]
            && AllSent(last.log) == AllSent(first.log) + first.waiting[..k]
    decreases n
  {
    hide Alternates, SentTo, IsReady, AllSent;
    if n > 0 {
      var first, next := trace[0], trace[1];
      assert Took(first, actions[0], next);
      if first.waiting != [] && first.ready != [] {
        RelaysDeliver(actions[1..], trace[1..], n - 1);
        LogSnoc(first.log, Dispatched(first.ready[0], first.waiting[0]));
      } else {
        NothingToRelay(actions, trace, n);
      }
    } else {
      assert trace[0].waiting == [];
    }
  }

  lemma {:induction false} NothingToRelay(actions: seq<Action>, trace: seq<Router>, n: nat)
    requires Trace(actions, trace) && n <= |actions| && forall i | 0 <= i < |actions| :: actions[i] == Relay
    requires trace[0].waiting == [] || trace[0].ready == []
    ensures trace[n] == trace[0]
  {
    if n > 0 {
      NothingToRelay(actions, trace, n - 1);
      assert Took(trace[n - 1], actions[n - 1], trace[n]);
    }
  }

  /** One worker and one empty command: the worker stays stuck, and nobody is ready ever after. */
  method EmptyCommandSticks() returns (s: System)
    ensures s.Valid() && s.started == {0} && s.stuck == {0} && s.ready == []
  {
    hide IsReady, SentTo, AllSent, Alternates;
    s := new System();
    var started := s.Start(0, 0);
    var empty: Job := [];
    s.Arrive(empty);
    assert s.waiting[0] == empty;
    var blocked := s.SendRequest(empty);
    var workload := s.PollRequest(0);
    assert workload == Some(empty);
  }
}
