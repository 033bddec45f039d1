/** What the handling of one event does to the connection it is of, and to the others. */
module LoopEvents {
  import opened Bytes
  import opened HttpSyntax
  import opened EventLoop
  import opened LoopSafety

  /** Parsing the buffer of the connection writes outside it. */
  predicate Overruns(s: State, id: nat)
  {
    id < |s.all| && Parse(s.all[id].buffer).Overrun?
  }

  /** Only connection `id` has changed, and nothing was written to it; or the program has crashed over its buffer. */
  predicate Confined(s: State, t: State, id: nat)
  {
    && |t.all| == |s.all| && (id < |s.all| ==> t.all[id].wire == s.all[id].wire)
    && if t.ending == Crashed then t.batch == [] && t.phase == Stopped && Overruns(t, id)
       else t.batch == s.batch && forall i | 0 <= i < |s.all| && i != id :: t.all[i] == s.all[i]
  }

  lemma CloseConfined(s: State, fd: int, id: nat)
    requires s.ending != Crashed && id < |s.all| && (Owner(s, fd).Some? ==> Owner(s, fd) == Some(id))
    ensures Confined(s, Close(s, fd), id) && Close(s, fd).ending == s.ending
  {
  }

  lemma RearmConfined(s: State, fd: int, id: nat, direction: Direction, refused: set<int>)
    requires s.ending != Crashed && id < |s.all| && (Owner(s, fd).Some? ==> Owner(s, fd) == Some(id))
    ensures Confined(s, Rearm(s, fd, direction, refused), id)
  {
    CloseConfined(s, fd, id);
    hide Close;
  }

  lemma ConfinedThen(s: State, t: State, u: State, id: nat)
    requires Confined(s, t, id) && Confined(t, u, id) && t.ending != Crashed
    ensures Confined(s, u, id)
  {
  }

  lemma UpdateConfined(s: State, id: nat, c: Conn)
    requires s.ending != Crashed && id < |s.all| && c.wire == s.all[id].wire
    ensures Confined(s, Update(s, id, c), id)
  {
  }

  lemma RejectConfined(cfg: Config, s: State, fd: int, id: nat, used: nat, request: Request, verdict: Verdict,
                       refused: set<int>)
    requires s.ending != Crashed && id < |s.all| && used <= |s.all[id].buffer| && Owner(s, fd) == Some(id)
    ensures Confined(s, Reject(cfg, s, fd, id, used, request, verdict, refused), id)
  {
    var c := Taken(s.all[id], used, request, verdict);
    var d := c.(unsent := Reply(cfg, id, |c.answers| - 1, Answer(request, verdict)));
    UpdateConfined(s, id, d);
    RearmConfined(Update(s, id, d), fd, id, Write, refused);
    hide Taken, Rearm;
    ConfinedThen(s, Update(s, id, d), Reject(cfg, s, fd, id, used, request, verdict, refused), id);
  }

  lemma DispatchConfined(s: State, fd: int, id: nat, used: nat, request: Request, now: int)
    requires s.ending != Crashed && id < |s.all| && used <= |s.all[id].buffer|
    ensures Confined(s, Dispatch(s, fd, id, used, request, now), id)
  {
  }

  lemma CountersConfined(s: State, t: State, id: nat, a: nat, b: nat, c: nat)
    requires Confined(s.(requests := a, limited := b, shed := c), t, id)
    ensures Confined(s, t, id)
  {
  }

  lemma {:induction false} DispatchNextConfined(cfg: Config, s: State, fd: int, id: nat, env: Env)
    requires s.ending != Crashed && id < |s.all| && Owner(s, fd) == Some(id)
    ensures Confined(s, DispatchNext(cfg, s, fd, id, env), id)
  {
    hide Parse, Close, Rearm, Reject, Dispatch, Confined;
    var t := DispatchNext(cfg, s, fd, id, env);
    if s.all[id].processing {
      NothingChanged(s, id);
    } else {
      match Parse(s.all[id].buffer)
      case Incomplete => RearmConfined(s, fd, id, Read, env.refused);
      case Failed => CloseConfined(s, fd, id);
      case Overrun => CrashConfined(s, id);
      case Complete(used, request) =>
        if env.limits {
          var u := s.(requests := s.requests + 1, limited := s.limited + 1, shed := s.shed);
          RejectConfined(cfg, u, fd, id, used, request, Limited, env.refused);
          CountersConfined(s, t, id, s.requests + 1, s.limited + 1, s.shed);
        } else if cfg.maxHandlers > 0 && s.inFlight >= cfg.maxHandlers {
          var u := s.(requests := s.requests + 1, limited := s.limited, shed := s.shed + 1);
          RejectConfined(cfg, u, fd, id, used, request, Shed, env.refused);
          CountersConfined(s, t, id, s.requests + 1, s.limited, s.shed + 1);
        } else {
          var u := s.(requests := s.requests + 1, limited := s.limited, shed := s.shed);
          DispatchConfined(u, fd, id, used, request, env.now);
          CountersConfined(s, t, id, s.requests + 1, s.limited, s.shed);
        }
    }
  }

  lemma NothingChanged(s: State, id: nat)
    requires s.ending != Crashed
    ensures Confined(s, s, id)
  {
  }

  lemma CrashConfined(s: State, id: nat)
    requires Overruns(s, id)
    ensures Confined(s, Crash(s), id)
  {
  }

  // --- What an event leaves -------------------------------------------------------------------------------

  /** The event of a descriptor's connection is being handled: it is disabled, has no task, and waits for what the
      event reports. */
  predicate OnEvent(cfg: Config, s: State, fd: int, kind: Kind)
  {
    && s.ending != Crashed && fd in s.conns
    && var id := s.conns[fd];
       && Core(cfg, s, id, []) && id < |s.all| && s.all[id].fd == fd && Waiting(s.all[id])
       && (kind == Readable ==> !s.all[id].processing)
       && (kind == Writable ==> s.all[id].processing)
  }

  /** The invariant holds again between events; the connection is closed, armed, or with exactly one task; to its
      wire a part of what it was owed has been added; and no other connection has changed, unless the program has
      crashed. */
  predicate Settled(cfg: Config, s: State, t: State, id: nat)
  {
    && Core(cfg, t, -1, []) && id < |s.all| == |t.all|
    && !Waiting(t.all[id])
    && s.all[id].wire <= t.all[id].wire <= s.all[id].wire + s.all[id].unsent
    && (t.ending != Crashed ==> forall i | 0 <= i < |s.all| && i != id :: t.all[i] == s.all[i])
  }

  /** With no event of its own left, the connection does not wait for one. */
  lemma NotWaiting(cfg: Config, s: State, t: State, id: nat)
    requires Core(cfg, s, id, []) && Core(cfg, t, -1, []) && id < |t.all|
    requires t.batch == s.batch || t.batch == []
    ensures !Waiting(t.all[id])
  {
    hide ConnsOk, MapOk, WorkOk, LoopOk;
    assert !Reported(t.batch, id);
  }

  lemma ConfinedSettles(cfg: Config, s: State, u: State, t: State, id: nat)
    requires Core(cfg, s, id, []) && Core(cfg, t, -1, []) && id < |s.all| == |u.all| && u.batch == s.batch
    requires forall i | 0 <= i < |s.all| && i != id :: u.all[i] == s.all[i]
    requires s.all[id].wire <= u.all[id].wire <= s.all[id].wire + s.all[id].unsent
    requires Confined(u, t, id)
    ensures Settled(cfg, s, t, id)
  {
    hide Core, Waiting;
    NotWaiting(cfg, s, t, id);
  }

  lemma UpdateSettles(cfg: Config, s: State, c: Conn, t: State, id: nat)
    requires Core(cfg, s, id, []) && Core(cfg, t, -1, []) && id < |s.all|
    requires s.all[id].wire <= c.wire <= s.all[id].wire + s.all[id].unsent
    requires Confined(Update(s, id, c), t, id)
    ensures Settled(cfg, s, t, id)
  {
    hide Core, Confined, Settled;
    ConfinedSettles(cfg, s, Update(s, id, c), t, id);
  }

  lemma {:induction false} ReadConfined(cfg: Config, s: State, fd: int, id: nat, env: Env)
    requires s.ending != Crashed && id < |s.all| && s.all[id].open && Owner(s, fd) == Some(id)
    ensures Confined(s, ClientData(cfg, s, fd, env), id)
  {
    hide Close, DispatchNext, Received, Confined, Arrived;
    var got := Received(env.recv, cfg.capacity - |s.all[id].buffer|);
    if got.PeerClosed? || got.RecvError? {
      CloseConfined(s, fd, id);
    } else {
      var u := Fed(s, id, got, env.now);
      FedConfined(s, id, got, env.now);
      DispatchNextConfined(cfg, u, fd, id, env);
      ConfinedThen(s, u, DispatchNext(cfg, u, fd, id, env), id);
    }
  }

  lemma FedConfined(s: State, id: nat, got: Recv, now: int)
    requires s.ending != Crashed && id < |s.all|
    ensures Confined(s, Fed(s, id, got, now), id)
  {
  }

  /** A readable event settles its connection. */
  lemma {:induction false} ReadSettles(cfg: Config, s: State, fd: int, env: Env)
    requires cfg.Valid() && OnEvent(cfg, s, fd, Readable)
    ensures Settled(cfg, s, ClientData(cfg, s, fd, env), s.conns[fd])
  {
    var id := s.conns[fd];
    ClientDataLands(cfg, s, id, env);
    hide Core, Settled, ClientData, Confined;
    ReadConfined(cfg, s, fd, id, env);
    ConfinedSettles(cfg, s, s, ClientData(cfg, s, fd, env), id);
  }

  lemma WrittenWire(c: Conn, n: nat, touched: bool, now: int)
    ensures var d := Written(c, n, touched, now);
            c.wire <= d.wire <= c.wire + c.unsent
  {
    var d := Written(c, n, touched, now);
    assert d.wire + d.unsent == c.wire + c.unsent;
  }

  lemma AfterWriteConfined(cfg: Config, s: State, fd: int, id: nat, c: Conn, env: Env)
    requires s.ending != Crashed && id < |s.all| && Owner(s, fd) == Some(id)
    ensures Confined(Update(s, id, c), AfterWrite(cfg, s, fd, id, c, env), id)
  {
    hide Close, Rearm, DispatchNext, Confined;
    var u, d := Update(s, id, c), c.(processing := false, activity := env.now);
    if c.unsent != "" {
      RearmConfined(u, fd, id, Write, env.refused);
    } else if s.draining {
      CloseConfined(u, fd, id);
    } else {
      var v := Update(s, id, d);
      assert Update(u, id, d) == v by {
        assert s.all[id := c][id := d] == s.all[id := d];
      }
      UpdateConfined(u, id, d);
      DispatchNextConfined(cfg, v, fd, id, env);
      ConfinedThen(u, v, DispatchNext(cfg, v, fd, id, env), id);
    }
  }

  lemma {:induction false} WriteConfined(cfg: Config, s: State, fd: int, id: nat, env: Env, c: Conn)
    requires s.ending != Crashed && id < |s.all| && s.all[id].open && Owner(s, fd) == Some(id)
    requires c == Written(s.all[id], env.sent.n, env.sent.Sent? && env.sent.touched, env.now)
    ensures Confined(Update(s, id, c), WriteReady(cfg, s, fd, env), id)
  {
    hide Close, AfterWrite, Confined, Written;
    if env.sent.SendError? {
      CloseConfined(Update(s, id, c), fd, id);
    } else {
      AfterWriteConfined(cfg, s, fd, id, c, env);
    }
  }

  /** So does a writable one, however much was written and whether or not the write failed. */
  lemma {:induction false} WriteSettles(cfg: Config, s: State, fd: int, env: Env)
    requires cfg.Valid() && OnEvent(cfg, s, fd, Writable)
    ensures Settled(cfg, s, WriteReady(cfg, s, fd, env), s.conns[fd])
  {
    var id := s.conns[fd];
    WriteReadyLands(cfg, s, id, env);
    var c := Written(s.all[id], env.sent.n, env.sent.Sent? && env.sent.touched, env.now);
    WrittenWire(s.all[id], env.sent.n, env.sent.Sent? && env.sent.touched, env.now);
    hide Core, Settled, WriteReady, Confined, Written, Update;
    WriteConfined(cfg, s, fd, id, env, c);
    UpdateSettles(cfg, s, c, WriteReady(cfg, s, fd, env), id);
  }

  // --- Crashes ----------------------------------------------------------------------------------------------

  /** A crashed program has stopped, over the buffer of some connection. */
  predicate CrashOk(s: State)
  {
    s.ending == Crashed ==> s.phase == Stopped && exists id :: 0 <= id < |s.all| && Overruns(s, id)
  }

  lemma RearmGoing(s: State, fd: int, direction: Direction, refused: set<int>)
    ensures Close(s, fd).ending == s.ending && Rearm(s, fd, direction, refused).ending == s.ending
  {
  }

  lemma DeliverGoing(cfg: Config, s: State, t: Task, refused: set<int>)
    ensures Deliver(cfg, s, t, refused).ending == s.ending
  {
    hide Rearm;
    match Owner(s, t.fd)
    case None =>
    case Some(id) =>
      if id == t.id && s.all[id].open {
        var c := s.all[id].(working := false, unsent := cfg.handler(id, t.index, t.request));
        RearmGoing(Update(s, id, c), t.fd, Write, refused);
      }
  }

  lemma {:induction false} DeliverAllGoing(cfg: Config, s: State, ready: seq<Task>, refused: set<int>)
    ensures DeliverAll(cfg, s, ready, refused).ending == s.ending
    decreases |ready|
  {
    hide Deliver;
    if ready != [] {
      DeliverGoing(cfg, s, ready[0], refused);
      DeliverAllGoing(cfg, Deliver(cfg, s, ready[0], refused), ready[1..], refused);
    }
  }

  lemma {:induction false} AcceptAllGoing(s: State, fds: seq<int>, now: int)
    ensures AcceptAll(s, fds, now).ending == s.ending
    decreases |fds|
  {
    if fds != [] {
      AcceptAllGoing(Accept(s, fds[0], now), fds[1..], now);
    }
  }

  lemma ConfinedCrash(s: State, t: State, id: nat)
    requires Confined(s, t, id)
    ensures CrashOk(t)
  {
    hide Parse;
    assert t.ending == Crashed ==> Overruns(t, id);
  }

  lemma {:induction false} ClientCrash(cfg: Config, s: State, fd: int, env: Env)
    requires s.ending != Crashed
    ensures CrashOk(ClientData(cfg, s, fd, env)) && CrashOk(WriteReady(cfg, s, fd, env))
  {
    RearmGoing(s, fd, Read, {});
    if Owner(s, fd).Some? && s.all[Owner(s, fd).value].open {
      var id := Owner(s, fd).value;
      var c := Written(s.all[id], env.sent.n, env.sent.Sent? && env.sent.touched, env.now);
      hide Owner, ClientData, WriteReady, CrashOk, Confined, Update, Written;
      ReadConfined(cfg, s, fd, id, env);
      ConfinedCrash(s, ClientData(cfg, s, fd, env), id);
      WriteConfined(cfg, s, fd, id, env, c);
      ConfinedCrash(Update(s, id, c), WriteReady(cfg, s, fd, env), id);
    } else {
      hide Close, ReadNext, WriteNext;
    }
  }

  lemma {:induction false} HandleCrash(cfg: Config, s: State, env: Env)
    requires s.batch != [] && s.ending != Crashed
    ensures CrashOk(Handle(cfg, s, env))
  {
    hide Close, ClientData, WriteReady, DeliverAll, AcceptAll, Overruns;
    var t := s.(batch := s.batch[1..]);
    match s.batch[0]
    case Wakeup => DeliverAllGoing(cfg, t.(pipe := false, completed := []), t.completed, env.refused);
    case Incoming => AcceptAllGoing(t, env.accepted, env.now);
    case Client(fd, _, _) =>
      RearmGoing(t, fd, Read, {});
      ClientCrash(cfg, t, fd, env);
  }

  lemma {:induction false} StepCrash(cfg: Config, s: State, step: Step)
    requires Enabled(cfg, s, step) && CrashOk(s)
    ensures CrashOk(Apply(cfg, s, step))
  {
    hide Handle, Pollable, Unused, Sweep, Reported, Parse;
    if step.HandleEvent? {
      HandleCrash(cfg, s, step.env);
    } else if s.ending == Crashed {
      var id :| 0 <= id < |s.all| && Overruns(s, id);
      assert Apply(cfg, s, step).all == s.all;
      assert Overruns(Apply(cfg, s, step), id);
    } else if step.Finish? {
      EndBatchGoing(cfg, s, step.now, step.sent);
    }
  }

  lemma EndBatchGoing(cfg: Config, s: State, now: int, sent: nat -> nat)
    requires s.ending != Crashed
    ensures EndBatch(cfg, s, now, sent).ending != Crashed
  {
    hide WorkInFlight;
  }

  lemma {:induction false} RunCrash(cfg: Config, s: State, steps: seq<Step>)
    requires Runs(cfg, s, steps) && CrashOk(s)
    ensures CrashOk(After(cfg, s, steps))
    decreases |steps|
  {
    hide CrashOk, Enabled, Apply;
    if steps != [] {
      StepCrash(cfg, s, steps[0]);
      RunCrash(cfg, Apply(cfg, s, steps[0]), steps[1..]);
    }
  }
}
