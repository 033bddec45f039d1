/** What the steps of the event loop do to its records: bytes on the wire and answers are only ever added, the
    request counters count the answers, and draining ends with every reply written. */
module LoopHistory {
  import opened Bytes
  import opened HttpSyntax
  import opened EventLoop
  import opened LoopSafety
  import Framing

  // --- Counting answers ------------------------------------------------------------------------------

  function CountOf(answers: seq<Answer>, v: Verdict): nat
  {
    if answers == [] then 0
    else CountOf(answers[..|answers| - 1], v) + if answers[|answers| - 1].verdict == v then 1 else 0
  }

  /** The answers of verdict `v` on all connections. */
  function Tally(all: seq<Conn>, v: Verdict): nat
  {
    if all == [] then 0 else Tally(all[..|all| - 1], v) + CountOf(all[|all| - 1].answers, v)
  }

  lemma CountOfAppend(answers: seq<Answer>, a: Answer, v: Verdict)
    ensures CountOf(answers + [a], v) == CountOf(answers, v) + if a.verdict == v then 1 else 0
  {
    assert (answers + [a])[..|answers|] == answers;
  }

  lemma {:induction false} TallyUpdate(all: seq<Conn>, id: nat, c: Conn, v: Verdict)
    requires id < |all|
    ensures Tally(all[id := c], v) == Tally(all, v) - CountOf(all[id].answers, v) + CountOf(c.answers, v)
  {
    hide CountOf;
    var n := |all| - 1;
    if id == n {
      assert all[id := c][..n] == all[..n];
    } else {
      assert all[id := c][..n] == all[..n][id := c];
      TallyUpdate(all[..n], id, c, v);
    }
  }

  lemma {:induction false} TallySame(all: seq<Conn>, other: seq<Conn>, v: Verdict)
    requires |all| == |other| && forall id | 0 <= id < |all| :: other[id].answers == all[id].answers
    ensures Tally(all, v) == Tally(other, v)
  {
    hide CountOf;
    if all != [] {
      TallySame(all[..|all| - 1], other[..|all| - 1], v);
    }
  }

  /** The request counters count the answers: `requests_total` those of all verdicts, `rate_limited_total` the
      429s and `load_shed_total` the 503s. */
  predicate Balanced(s: State)
  {
    && s.limited == Tally(s.all, Limited)
    && s.shed == Tally(s.all, Shed)
    && s.requests == s.limited + s.shed + Tally(s.all, Dispatched)
  }

  // --- What a step may change ------------------------------------------------------------------------------

  /** Nothing written or answered is taken back, and nothing is added to a closed connection, which stays closed. */
  predicate Grown(c: Conn, d: Conn)
  {
    && d.fd == c.fd && c.wire <= d.wire && c.answers <= d.answers && c.history <= d.history
    && (!c.open ==> !d.open && d.wire == c.wire && d.answers == c.answers && d.history == c.history)
  }

  predicate Steady(s: State, t: State)
  {
    && |s.all| <= |t.all|
    && (forall id | 0 <= id < |s.all| :: Grown(s.all[id], t.all[id]))
    && (Balanced(s) ==> Balanced(t))
    && (s.draining ==> t.draining) && (s.stopRequested ==> t.stopRequested)
  }

  /** Handling an event neither ends the batch nor the loop, unless the program crashes. */
  predicate SameLoop(s: State, t: State)
  {
    || (t.phase == s.phase && t.running == s.running && t.ending == s.ending)
    || (t.phase == Stopped && !t.running && t.ending == Crashed)
  }

  lemma SteadyThen(s: State, t: State, u: State)
    requires Steady(s, t) && Steady(t, u)
    ensures Steady(s, u)
  {
    hide Balanced;
    forall id | 0 <= id < |s.all|
      ensures Grown(s.all[id], u.all[id])
    {
      assert Grown(s.all[id], t.all[id]) && Grown(t.all[id], u.all[id]);
    }
  }

  /** Changes that leave the answers and the counters alone. */
  lemma Quiet(s: State, t: State)
    requires |s.all| == |t.all| && forall id | 0 <= id < |s.all| :: Grown(s.all[id], t.all[id])
    requires forall id | 0 <= id < |s.all| :: t.all[id].answers == s.all[id].answers
    requires t.requests == s.requests && t.limited == s.limited && t.shed == s.shed
    requires (s.draining ==> t.draining) && (s.stopRequested ==> t.stopRequested)
    ensures Steady(s, t)
  {
    hide Tally;
    TallySame(s.all, t.all, Limited);
    TallySame(s.all, t.all, Shed);
    TallySame(s.all, t.all, Dispatched);
  }

  /** Changing one connection without answering anything. */
  lemma OneQuiet(s: State, id: nat, c: Conn, t: State)
    requires id < |s.all| && t.all == s.all[id := c] && Grown(s.all[id], c) && c.answers == s.all[id].answers
    requires t.requests == s.requests && t.limited == s.limited && t.shed == s.shed
    requires t.draining == s.draining && t.stopRequested == s.stopRequested
    ensures Steady(s, t)
  {
    hide Grown, Steady;
    forall i | 0 <= i < |s.all|
      ensures Grown(s.all[i], t.all[i]) && t.all[i].answers == s.all[i].answers
    {
      GrownRefl(s.all[i]);
    }
    Quiet(s, t);
  }

  lemma GrownRefl(c: Conn)
    ensures Grown(c, c)
  {
  }

  lemma SteadyRefl(s: State)
    ensures Steady(s, s)
  {
  }

  lemma CloseSteady(s: State, fd: int)
    ensures Steady(s, Close(s, fd)) && SameLoop(s, Close(s, fd)) && |Close(s, fd).all| == |s.all|
  {
    hide Steady, Balanced;
    SteadyRefl(s);
    match Owner(s, fd)
    case None =>
    case Some(id) => OneQuiet(s, id, s.all[id].(open := false, interest := Disabled), Close(s, fd));
  }

  lemma RearmSteady(s: State, fd: int, direction: Direction, refused: set<int>)
    ensures var t := Rearm(s, fd, direction, refused);
            Steady(s, t) && SameLoop(s, t) && |t.all| == |s.all|
  {
    hide Steady, Balanced, Close;
    SteadyRefl(s);
    CloseSteady(s, fd);
    match Owner(s, fd)
    case None =>
    case Some(id) =>
      if fd !in refused {
        OneQuiet(s, id, s.all[id].(interest := Armed(direction)), Rearm(s, fd, direction, refused));
      }
  }

  /** Answering one request of connection `id`, and counting it. */
  lemma AnswerSteady(s: State, t: State, id: nat, c: Conn, a: Answer)
    requires id < |s.all| && s.all[id].open
    requires t.all == s.all[id := c] && Grown(s.all[id], c) && c.answers == s.all[id].answers + [a]
    requires t.requests == s.requests + 1 && t.draining == s.draining && t.stopRequested == s.stopRequested
    requires t.limited == s.limited + (if a.verdict == Limited then 1 else 0)
    requires t.shed == s.shed + (if a.verdict == Shed then 1 else 0)
    ensures Steady(s, t)
  {
    hide Tally, CountOf;
    forall v: Verdict
      ensures Tally(t.all, v) == Tally(s.all, v) + if a.verdict == v then 1 else 0
    {
      TallyUpdate(s.all, id, c, v);
      CountOfAppend(s.all[id].answers, a, v);
    }
    forall i | 0 <= i < |s.all|
      ensures Grown(s.all[i], t.all[i])
    {
      GrownRefl(s.all[i]);
    }
  }

  // --- The loop's handlers --------------------------------------------------------------------------------

  lemma TakenGrown(c: Conn, used: nat, request: Request, v: Verdict, d: Conn)
    requires c.open && used <= |c.buffer|
    requires var t := Taken(c, used, request, v);
             d.fd == t.fd && d.wire == t.wire && d.answers == t.answers && d.history == t.history
    ensures Grown(c, d) && d.answers == c.answers + [Answer(request, v)]
  {
  }

  lemma RejectSteady(cfg: Config, s: State, fd: int, id: nat, used: nat, request: Request, v: Verdict,
                     refused: set<int>, limited: nat, shed: nat)
    requires id < |s.all| && s.all[id].open && used <= |s.all[id].buffer|
    requires (v == Limited && limited == s.limited + 1 && shed == s.shed)
          || (v == Shed && limited == s.limited && shed == s.shed + 1)
    ensures var t := Reject(cfg, s.(requests := s.requests + 1, limited := limited, shed := shed), fd, id, used,
                            request, v, refused);
            Steady(s, t) && SameLoop(s, t) && |t.all| == |s.all|
  {
    var c := Taken(s.all[id], used, request, v);
    var d := c.(unsent := Reply(cfg, id, |c.answers| - 1, Answer(request, v)));
    TakenGrown(s.all[id], used, request, v, d);
    hide Steady, Grown, Taken, Rearm;
    var u := Update(s.(requests := s.requests + 1, limited := limited, shed := shed), id, d);
    AnswerSteady(s, u, id, d, Answer(request, v));
    RearmSteady(u, fd, Write, refused);
    SteadyThen(s, u, Rearm(u, fd, Write, refused));
  }

  lemma DispatchSteady(s: State, fd: int, id: nat, used: nat, request: Request, now: int)
    requires id < |s.all| && s.all[id].open && used <= |s.all[id].buffer|
    ensures var t := Dispatch(s.(requests := s.requests + 1), fd, id, used, request, now);
            Steady(s, t) && SameLoop(s, t) && |t.all| == |s.all|
  {
    var d := Taken(s.all[id], used, request, Dispatched).(working := true, since := now);
    TakenGrown(s.all[id], used, request, Dispatched, d);
    hide Steady, Grown, Taken;
    AnswerSteady(s, Dispatch(s.(requests := s.requests + 1), fd, id, used, request, now), id, d,
                 Answer(request, Dispatched));
  }

  lemma CrashSteady(s: State)
    ensures Steady(s, Crash(s)) && SameLoop(s, Crash(s)) && |Crash(s).all| == |s.all|
  {
    hide Steady;
    Quiet(s, Crash(s));
  }

  lemma DispatchNextSteady(cfg: Config, s: State, fd: int, id: nat, env: Env)
    requires id < |s.all| && s.all[id].open
    ensures var t := DispatchNext(cfg, s, fd, id, env);
            Steady(s, t) && SameLoop(s, t) && |t.all| == |s.all|
  {
    hide Parse, Steady, Rearm, Close, Reject, Dispatch;
    SteadyRefl(s);
    if !s.all[id].processing {
      match Parse(s.all[id].buffer)
      case Incomplete => RearmSteady(s, fd, Read, env.refused);
      case Failed => CloseSteady(s, fd);
      case Overrun => CrashSteady(s);
      case Complete(used, request) =>
        if env.limits {
          RejectSteady(cfg, s, fd, id, used, request, Limited, env.refused, s.limited + 1, s.shed);
          assert s.(requests := s.requests + 1, limited := s.limited + 1)
              == s.(requests := s.requests + 1, limited := s.limited + 1, shed := s.shed);
        } else if cfg.maxHandlers > 0 && s.inFlight >= cfg.maxHandlers {
          RejectSteady(cfg, s, fd, id, used, request, Shed, env.refused, s.limited, s.shed + 1);
          assert s.(requests := s.requests + 1, shed := s.shed + 1)
              == s.(requests := s.requests + 1, limited := s.limited, shed := s.shed + 1);
        } else {
          DispatchSteady(s, fd, id, used, request, env.now);
        }
    }
  }

  lemma ClientDataSteady(cfg: Config, s: State, fd: int, env: Env)
    ensures var t := ClientData(cfg, s, fd, env);
            Steady(s, t) && SameLoop(s, t) && |t.all| == |s.all|
  {
    hide Steady, Close, DispatchNext, Received, Owner;
    SteadyRefl(s);
    CloseSteady(s, fd);
    match Owner(s, fd)
    case None =>
    case Some(id) =>
      if s.all[id].open {
        match Received(env.recv, cfg.capacity - |s.all[id].buffer|)
        case WouldBlock => DispatchNextSteady(cfg, s, fd, id, env);
        case Data(chunk) =>
          var u := Update(s, id, Arrived(s.all[id], chunk, env.now));
          OneQuiet(s, id, Arrived(s.all[id], chunk, env.now), u);
          DispatchNextSteady(cfg, u, fd, id, env);
          SteadyThen(s, u, DispatchNext(cfg, u, fd, id, env));
        case _ =>
      }
  }

  /** Writing, and what follows it. */
  lemma WrittenSteady(s: State, id: nat, n: nat, touched: bool, now: int)
    requires id < |s.all| && s.all[id].open
    ensures var c := Written(s.all[id], n, touched, now);
            && c.open && Steady(s, Update(s, id, c)) && SameLoop(s, Update(s, id, c))
            && Steady(s, Update(s, id, c.(processing := false, activity := now)))
            && SameLoop(s, Update(s, id, c.(processing := false, activity := now)))
  {
    hide Steady;
    var c := Written(s.all[id], n, touched, now);
    OneQuiet(s, id, c, Update(s, id, c));
    OneQuiet(s, id, c.(processing := false, activity := now), Update(s, id, c.(processing := false, activity := now)));
  }

  lemma SameLoopThen(s: State, t: State, u: State)
    requires SameLoop(s, t) && SameLoop(t, u)
    ensures SameLoop(s, u)
  {
  }

  lemma AfterWriteSteady(cfg: Config, s: State, fd: int, id: nat, n: nat, touched: bool, env: Env)
    requires id < |s.all| && s.all[id].open
    ensures var t := AfterWrite(cfg, s, fd, id, Written(s.all[id], n, touched, env.now), env);
            Steady(s, t) && SameLoop(s, t) && |t.all| == |s.all|
  {
    hide Steady, Close, Rearm, DispatchNext, SameLoop, Written;
    WrittenSteady(s, id, n, touched, env.now);
    var c := Written(s.all[id], n, touched, env.now);
    var d := c.(processing := false, activity := env.now);
    var t := AfterWrite(cfg, s, fd, id, c, env);
    var u := Update(s, id, if c.unsent == "" && !s.draining then d else c);
    if c.unsent != "" {
      RearmSteady(u, fd, Write, env.refused);
    } else if s.draining {
      CloseSteady(u, fd);
    } else {
      DispatchNextSteady(cfg, u, fd, id, env);
    }
    SteadyThen(s, u, t);
    SameLoopThen(s, u, t);
  }

  lemma WriteReadySteady(cfg: Config, s: State, fd: int, env: Env)
    ensures var t := WriteReady(cfg, s, fd, env);
            Steady(s, t) && SameLoop(s, t) && |t.all| == |s.all|
  {
    hide Steady, Close, AfterWrite, Owner, SameLoop, Written;
    SteadyRefl(s);
    SameLoopRefl(s);
    CloseSteady(s, fd);
    match Owner(s, fd)
    case None =>
    case Some(id) =>
      if s.all[id].open {
        match env.sent
        case Sent(n, touched) => AfterWriteSteady(cfg, s, fd, id, n, touched, env);
        case SendError(n) =>
          WrittenSteady(s, id, n, false, env.now);
          var u := Update(s, id, Written(s.all[id], n, false, env.now));
          CloseSteady(u, fd);
          SteadyThen(s, u, Close(u, fd));
          SameLoopThen(s, u, Close(u, fd));
      }
  }

  lemma SameLoopRefl(s: State)
    ensures SameLoop(s, s)
  {
  }

  lemma DeliverSteady(cfg: Config, s: State, t: Task, refused: set<int>)
    ensures var u := Deliver(cfg, s, t, refused);
            Steady(s, u) && SameLoop(s, u) && |u.all| == |s.all|
  {
    hide Steady, Rearm, Owner;
    SteadyRefl(s);
    match Owner(s, t.fd)
    case None =>
    case Some(id) =>
      if id == t.id && s.all[id].open {
        var c := s.all[id].(working := false, unsent := cfg.handler(id, t.index, t.request));
        var u := Update(s, id, c);
        OneQuiet(s, id, c, u);
        RearmSteady(u, t.fd, Write, refused);
        SteadyThen(s, u, Rearm(u, t.fd, Write, refused));
      }
  }

  lemma {:induction false} DeliverAllSteady(cfg: Config, s: State, ready: seq<Task>, refused: set<int>)
    ensures var u := DeliverAll(cfg, s, ready, refused);
            Steady(s, u) && SameLoop(s, u) && |u.all| == |s.all|
    decreases |ready|
  {
    hide Steady, Deliver;
    SteadyRefl(s);
    if ready != [] {
      var t := Deliver(cfg, s, ready[0], refused);
      DeliverSteady(cfg, s, ready[0], refused);
      DeliverAllSteady(cfg, t, ready[1..], refused);
      SteadyThen(s, t, DeliverAll(cfg, t, ready[1..], refused));
    }
  }

  lemma AcceptSteady(s: State, fd: int, now: int)
    ensures Steady(s, Accept(s, fd, now)) && SameLoop(s, Accept(s, fd, now))
  {
    var t := Accept(s, fd, now);
    forall v: Verdict
      ensures Tally(t.all, v) == Tally(s.all, v)
    {
      assert t.all[..|t.all| - 1] == s.all;
    }
    forall i | 0 <= i < |s.all|
      ensures Grown(s.all[i], t.all[i])
    {
      GrownRefl(s.all[i]);
    }
  }

  lemma {:induction false} AcceptAllSteady(s: State, fds: seq<int>, now: int)
    ensures Steady(s, AcceptAll(s, fds, now)) && SameLoop(s, AcceptAll(s, fds, now))
    decreases |fds|
  {
    hide Steady, Accept;
    SteadyRefl(s);
    if fds != [] {
      var t := Accept(s, fds[0], now);
      AcceptSteady(s, fds[0], now);
      AcceptAllSteady(t, fds[1..], now);
      SteadyThen(s, t, AcceptAll(t, fds[1..], now));
    }
  }

  lemma HandleSteady(cfg: Config, s: State, env: Env)
    requires s.batch != []
    ensures var t := Handle(cfg, s, env);
            Steady(s, t) && SameLoop(s, t) && (!s.batch[0].Incoming? ==> |t.all| == |s.all|)
  {
    hide Steady, Close, ClientData, WriteReady, DeliverAll, AcceptAll;
    var t := s.(batch := s.batch[1..]);
    var u := t.(pipe := false, completed := []);
    SameLog(s, t);
    SameLog(s, u);
    match s.batch[0]
    case Wakeup =>
      DeliverAllSteady(cfg, u, s.completed, env.refused);
      SteadyThen(s, u, DeliverAll(cfg, u, s.completed, env.refused));
    case Incoming =>
      AcceptAllSteady(t, env.accepted, env.now);
      SteadyThen(s, t, AcceptAll(t, env.accepted, env.now));
    case Client(fd, _, kind) =>
      match kind {
        case Hangup =>
          CloseSteady(t, fd);
          SteadyThen(s, t, Close(t, fd));
        case Readable =>
          ClientDataSteady(cfg, t, fd, env);
          SteadyThen(s, t, ClientData(cfg, t, fd, env));
        case Writable =>
          WriteReadySteady(cfg, t, fd, env);
          SteadyThen(s, t, WriteReady(cfg, t, fd, env));
      }
  }

  lemma SameLog(s: State, t: State)
    requires t.all == s.all && t.requests == s.requests && t.limited == s.limited && t.shed == s.shed
    requires (s.draining ==> t.draining) && (s.stopRequested ==> t.stopRequested)
    ensures Steady(s, t)
  {
    forall i | 0 <= i < |s.all|
      ensures Grown(s.all[i], t.all[i])
    {
      GrownRefl(s.all[i]);
    }
  }

  // --- Every step -------------------------------------------------------------------------------------------

  lemma SweepSteady(cfg: Config, s: State, now: int, sent: nat -> nat)
    ensures Steady(s, Sweep(cfg, s, now, sent))
  {
    hide Balanced, FateOf, Steady;
    var t := Sweep(cfg, s, now, sent);
    forall i | 0 <= i < |s.all|
      ensures Grown(s.all[i], t.all[i]) && t.all[i].answers == s.all[i].answers
    {
      SweptCloses(cfg, s, i, now, sent);
    }
    hide Sweep;
    SweepCounters(cfg, s, now, sent);
    Quiet(s, t);
  }

  lemma SweepCounters(cfg: Config, s: State, now: int, sent: nat -> nat)
    ensures var t := Sweep(cfg, s, now, sent);
            && |t.all| == |s.all| && t.draining == s.draining
            && t.requests == s.requests && t.limited == s.limited && t.shed == s.shed
  {
  }

  lemma EndBatchSteady(cfg: Config, s: State, now: int, sent: nat -> nat)
    ensures var t := EndBatch(cfg, s, now, sent);
            Steady(s, t) && |t.all| == |s.all|
  {
    hide Steady, Sweep, DrainEnds;
    var t := BeginDrain(cfg, s, now);
    SameLog(s, t);
    SweepSteady(cfg, t, now, sent);
    SweepCounters(cfg, t, now, sent);
    var u := if t.draining || Elapsed(now, t.lastSweep) >= 1 then Sweep(cfg, t, now, sent) else t;
    SteadyThen(s, t, Sweep(cfg, t, now, sent));
    SameLog(u, EndBatch(cfg, s, now, sent));
    SteadyThen(s, u, EndBatch(cfg, s, now, sent));
  }

  lemma ReportSteady(s: State, events: seq<Event>)
    ensures Steady(s, Report(s, events)) && |Report(s, events).all| == |s.all|
  {
    hide Steady, Reported;
    Quiet(s, Report(s, events));
  }

  lemma DropAllSteady(s: State)
    ensures Steady(s, DropAll(s)) && |DropAll(s).all| == |s.all|
  {
    hide Steady;
    Quiet(s, DropAll(s));
  }

  /** Every step of every run only adds to the records, keeps the counters equal to the answers counted, accepts
      connections only for an event of the listening socket, and never leaves draining. */
  lemma StepSteady(cfg: Config, s: State, step: Step)
    requires Enabled(cfg, s, step)
    ensures var t := Apply(cfg, s, step);
            && Steady(s, t)
            && (!(step.HandleEvent? && s.batch[0].Incoming?) ==> |t.all| == |s.all|)
  {
    hide Steady, Handle, EndBatch, Report, DropAll, Pollable, Unused;
    match step
    case Poll(events) => ReportSteady(s, events);
    case HandleEvent(env) => HandleSteady(cfg, s, env);
    case Finish(now, sent) => EndBatchSteady(cfg, s, now, sent);
    case TearDown => DropAllSteady(s);
    case _ => SameLog(s, Apply(cfg, s, step));
  }

  lemma {:induction false} RunSteady(cfg: Config, s: State, steps: seq<Step>)
    requires Runs(cfg, s, steps)
    ensures Steady(s, After(cfg, s, steps))
    decreases |steps|
  {
    hide Steady, Enabled, Apply;
    SteadyRefl(s);
    if steps != [] {
      var t := Apply(cfg, s, steps[0]);
      StepSteady(cfg, s, steps[0]);
      RunSteady(cfg, t, steps[1..]);
      SteadyThen(s, t, After(cfg, t, steps[1..]));
    }
  }

  // --- Draining ---------------------------------------------------------------------------------------------

  lemma DrainingAcceptsNone(cfg: Config, s: State, step: Step)
    requires Core(cfg, s, -1, []) && Enabled(cfg, s, step) && s.draining
    ensures |Apply(cfg, s, step).all| == |s.all| && Apply(cfg, s, step).draining
  {
    hide ConnsOk, MapOk, WorkOk, BatchOk, CoverOk, Apply, Balanced;
    StepSteady(cfg, s, step);
    assert step.HandleEvent? ==> s.batch[0] in s.batch;
  }

  /** Once draining has begun no connection is accepted any more, for the rest of the run. */
  lemma {:induction false} NoAcceptAfterDraining(cfg: Config, s: State, steps: seq<Step>)
    requires Core(cfg, s, -1, []) && Runs(cfg, s, steps) && cfg.Valid() && s.draining
    ensures |After(cfg, s, steps).all| == |s.all| && After(cfg, s, steps).draining
    decreases |steps|
  {
    hide Core, Enabled, Apply;
    if steps != [] {
      DrainingAcceptsNone(cfg, s, steps[0]);
      StepKeeps(cfg, s, steps[0]);
      NoAcceptAfterDraining(cfg, Apply(cfg, s, steps[0]), steps[1..]);
    }
  }

  /** The loop runs until it has an ending; a clean ending leaves no open connection with work in flight. */
  predicate EndingOk(s: State)
  {
    && (s.running <==> s.ending == Going)
    && (s.phase == Serving ==> s.running)
    && (s.ending == Clean ==> s.draining && forall id | 0 <= id < |s.all| :: s.all[id].open ==> !HasWork(s.all[id]))
  }

  lemma NoWorkLeft(s: State, id: nat)
    requires MapOk(s.all, s.conns) && !WorkInFlight(s) && id < |s.all| && s.all[id].open
    ensures !HasWork(s.all[id])
  {
    hide HasWork;
    assert s.all[id].fd in s.conns;
  }

  lemma EndedOk(cfg: Config, s: State, now: int)
    requires MapOk(s.all, s.conns) && s.running && s.ending == Going && s.phase == Serving
    ensures EndingOk(Ended(s, DrainEnds(s, now)))
  {
    hide HasWork, WorkInFlight, MapOk;
    var t := Ended(s, DrainEnds(s, now));
    if t.ending == Clean {
      forall id | 0 <= id < |t.all| && t.all[id].open
        ensures !HasWork(t.all[id])
      {
        NoWorkLeft(s, id);
      }
    }
  }

  lemma SweepLoop(cfg: Config, s: State, now: int, sent: nat -> nat)
    ensures var t := Sweep(cfg, s, now, sent);
            t.phase == s.phase && t.running == s.running && t.ending == s.ending
  {
  }

  lemma EndBatchEnding(cfg: Config, s: State, now: int, sent: nat -> nat)
    requires MapOk(s.all, s.conns) && EndingOk(s) && s.phase == Serving
    ensures EndingOk(EndBatch(cfg, s, now, sent))
  {
    hide HasWork, WorkInFlight, MapOk, Sweep, DrainEnds;
    var t := BeginDrain(cfg, s, now);
    SweepMap(cfg, t, now, sent);
    SweepLoop(cfg, t, now, sent);
    var u := if t.draining || Elapsed(now, t.lastSweep) >= 1 then Sweep(cfg, t, now, sent) else t;
    EndedOk(cfg, u, now);
  }

  lemma StepEnding(cfg: Config, s: State, step: Step)
    requires Core(cfg, s, -1, []) && Enabled(cfg, s, step) && EndingOk(s)
    ensures EndingOk(Apply(cfg, s, step))
  {
    hide ConnsOk, WorkOk, BatchOk, CoverOk, MapOk, Handle, EndBatch, Pollable, Unused, Reported;
    match step
    case HandleEvent(env) => HandleSteady(cfg, s, env);
    case Finish(now, sent) => EndBatchEnding(cfg, s, now, sent);
    case _ =>
  }

  lemma {:induction false} RunEnding(cfg: Config, s: State, steps: seq<Step>)
    requires Core(cfg, s, -1, []) && Runs(cfg, s, steps) && cfg.Valid() && EndingOk(s)
    ensures EndingOk(After(cfg, s, steps))
    decreases |steps|
  {
    hide Core, Enabled, Apply, EndingOk;
    if steps != [] {
      StepEnding(cfg, s, steps[0]);
      StepKeeps(cfg, s, steps[0]);
      RunEnding(cfg, Apply(cfg, s, steps[0]), steps[1..]);
    }
  }
}
