/** What every run of the event loop keeps. */
module LoopSafety {
  import opened Bytes
  import opened HttpSyntax
  import opened EventLoop
  import Framing

  // --- What one connection has done ------------------------------------------------------------------

  /** The replies to the requests answered so far, each in full, in order. */
  function Replies(cfg: Config, id: nat, answers: seq<Answer>): string
  {
    if answers == [] then ""
    else
      var n := |answers| - 1;
      Replies(cfg, id, answers[..n]) + Reply(cfg, id, n, answers[n])
  }

  function Requests(answers: seq<Answer>): seq<Request>
  {
    seq(|answers|, i requires 0 <= i < |answers| => answers[i].request)
  }

  function Parsed(c: Conn): Framing.Session
  {
    Framing.Run(Framing.Session("", [], false), c.history)
  }

  /** What was taken out of the buffer is what parsing the received bytes step by step takes out. */
  predicate SessionOk(c: Conn)
  {
    if c.open then Parsed(c) == Framing.Session(c.buffer, Requests(c.answers), false)
    else Parsed(c).served == Requests(c.answers)
  }

  /** After `front` was written, at most a part of `notice` was. */
  predicate EndsIn(wire: string, front: string, notice: string)
  {
    front <= wire && wire[|front|..] <= notice
  }

  /** The bytes on the wire of a connection. */
  predicate WireOk(cfg: Config, id: nat, c: Conn)
  {
    var replies := Replies(cfg, id, c.answers);
    if !c.open then
      || c.wire <= replies
      || EndsIn(c.wire, replies, REQUEST_TIMEOUT)
      || (c.answers != [] && EndsIn(c.wire, Replies(cfg, id, c.answers[..|c.answers| - 1]), GATEWAY_TIMEOUT))
    else if !c.processing then c.wire == replies
    else if c.working then c.answers != [] && c.wire == Replies(cfg, id, c.answers[..|c.answers| - 1])
    else c.wire + c.unsent == replies
  }

  /** The flags of an open connection agree with its registration. */
  predicate ModeOk(c: Conn)
  {
    c.open ==>
      && (c.working ==> c.processing && c.interest == Disabled)
      && (c.unsent != "" <==> c.processing && !c.working)
      && (c.interest == Armed(Read) ==> !c.processing)
      && (c.interest == Armed(Write) ==> c.processing)
  }

  predicate ConnOk(cfg: Config, id: nat, c: Conn)
  {
    ModeOk(c) && WireOk(cfg, id, c) && SessionOk(c)
  }

  // --- The parts of the invariant ----------------------------------------------------------------------

  predicate ConnsOk(cfg: Config, all: seq<Conn>)
  {
    forall id | 0 <= id < |all| :: ConnOk(cfg, id, all[id])
  }

  /** The map holds exactly the open connections, each under its own descriptor. */
  predicate MapOk(all: seq<Conn>, conns: map<int, nat>)
  {
    && (forall fd | fd in conns :: conns[fd] < |all| && all[conns[fd]].open && all[conns[fd]].fd == fd)
    && (forall id | 0 <= id < |all| :: all[id].open ==> all[id].fd in conns && conns[all[id].fd] == id)
  }

  /** Every task that is queued, being handled or completed. */
  function Work(s: State): multiset<Task>
  {
    multiset(s.queue) + multiset(s.handling) + multiset(s.completed)
  }

  /** The task of a connection's latest request. */
  function TaskOf(id: nat, c: Conn): Task
    requires c.answers != []
  {
    Task(c.fd, id, |c.answers| - 1, c.answers[|c.answers| - 1].request)
  }

  predicate TaskOk(all: seq<Conn>, t: Task)
  {
    && t.id < |all|
    && var c := all[t.id];
       && c.answers != [] && t == TaskOf(t.id, c)
       && c.answers[|c.answers| - 1].verdict == Dispatched
       && (c.open ==> c.working)
  }

  predicate HasTask(id: nat, c: Conn, work: multiset<Task>)
  {
    c.answers != [] && TaskOf(id, c) in work
  }

  /** A connection has at most one task, that of its latest request; an open one has one while it is working. */
  predicate WorkOk(all: seq<Conn>, work: multiset<Task>)
  {
    && (forall t | t in work :: TaskOk(all, t) && work[t] == 1)
    && (forall id | 0 <= id < |all| :: all[id].open && all[id].working ==> HasTask(id, all[id], work))
  }

  /** The event of an open connection that is disabled and not working, and that waits for what it reports. */
  predicate EventOk(all: seq<Conn>, e: Event)
  {
    e.Client? ==>
      && e.id < |all| && all[e.id].fd == e.fd
      && all[e.id].open && all[e.id].interest == Disabled && !all[e.id].working
      && (e.kind == Readable ==> !all[e.id].processing)
      && (e.kind == Writable ==> all[e.id].processing)
  }

  /** No event of the batch is stale, none is of the connection `loose`, and no two have the same source. */
  predicate BatchOk(all: seq<Conn>, batch: seq<Event>, loose: int)
  {
    && (forall i | 0 <= i < |batch| :: EventOk(all, batch[i]))
    && (forall i | 0 <= i < |batch| :: batch[i].Client? ==> batch[i].id != loose)
    && (forall i, j | 0 <= i < j < |batch| :: !SameSource(batch[i], batch[j]))
  }

  /** An open connection that is not armed is with a worker or has its event in the batch; only `loose`, whose
      event is being handled, is neither. */
  predicate CoverOk(all: seq<Conn>, batch: seq<Event>, loose: int)
  {
    forall id | 0 <= id < |all| :: Waiting(all[id]) && id != loose ==> Reported(batch, id)
  }

  predicate Waiting(c: Conn) { c.open && c.interest == Disabled && !c.working }

  predicate LoopOk(cfg: Config, s: State)
  {
    && (s.phase == Polling ==> s.batch == [])
    && (s.draining ==> !s.listening)
    && (s.pipe ==> s.edge || Wakeup in s.batch)
    && (s.completed != [] ==> s.pipe || s.pushed > 0)
    && s.inFlight == |s.queue| + |s.handling| + s.pushed + s.leaving
    && (cfg.maxHandlers > 0 ==> s.inFlight <= cfg.maxHandlers)
    && s.accepted == |s.all|
    && (s.phase != Stopped ==> s.active == |s.conns|)
    && (Incoming in s.batch ==> s.listening)
  }

  /** The invariant while the event of connection `loose` is being handled (-1: between events) and the
      completions `taken` have been taken out of the completion queue. */
  predicate Core(cfg: Config, s: State, loose: int, taken: seq<Task>)
  {
    && ConnsOk(cfg, s.all)
    && MapOk(s.all, s.conns)
    && WorkOk(s.all, Work(s) + multiset(taken))
    && BatchOk(s.all, s.batch, loose)
    && CoverOk(s.all, s.batch, loose)
    && LoopOk(cfg, s)
  }

  // --- Where handling an event can end ------------------------------------------------------------------

  /** Replacing a waiting connection without a task keeps the tasks of the others. */
  lemma WorkUpdate(all: seq<Conn>, work: multiset<Task>, id: nat, c: Conn)
    requires WorkOk(all, work) && id < |all| && Waiting(all[id])
    requires c.open ==> !c.working
    ensures WorkOk(all[id := c], work)
  {
    forall t | t in work
      ensures TaskOk(all[id := c], t) && work[t] == 1
    {
      assert TaskOk(all, t);
    }
  }

  lemma BatchUpdate(all: seq<Conn>, batch: seq<Event>, id: nat, c: Conn)
    requires BatchOk(all, batch, id) && CoverOk(all, batch, id) && id < |all|
    ensures BatchOk(all[id := c], batch, id) && CoverOk(all[id := c], batch, id)
    ensures !Waiting(c) ==> BatchOk(all[id := c], batch, -1) && CoverOk(all[id := c], batch, -1)
  {
    hide SameSource, Reported;
  }

  lemma MapUpdate(all: seq<Conn>, conns: map<int, nat>, id: nat, c: Conn)
    requires MapOk(all, conns) && id < |all| && all[id].open && c.open && c.fd == all[id].fd
    ensures MapOk(all[id := c], conns)
  {
  }

  lemma MapClose(all: seq<Conn>, conns: map<int, nat>, id: nat, c: Conn)
    requires MapOk(all, conns) && id < |all| && all[id].open && !c.open
    ensures MapOk(all[id := c], conns - {all[id].fd}) && |conns - {all[id].fd}| == |conns| - 1
  {
    assert conns.Keys == (conns - {all[id].fd}).Keys + {all[id].fd};
  }

  lemma OneConn(cfg: Config, all: seq<Conn>, id: nat)
    requires ConnsOk(cfg, all) && id < |all|
    ensures ConnOk(cfg, id, all[id])
  {
  }

  lemma OwnerIs(s: State, id: nat)
    requires MapOk(s.all, s.conns) && id < |s.all| && s.all[id].open
    ensures Owner(s, s.all[id].fd) == Some(id)
  {
  }

  lemma LoopUpdate(cfg: Config, s: State, id: nat, c: Conn)
    requires LoopOk(cfg, s) && id < |s.all|
    ensures LoopOk(cfg, Update(s, id, c)) && Work(Update(s, id, c)) == Work(s)
  {
  }

  /** The parts of the invariant after only the connection whose event is being handled has changed. */
  lemma Replaced(cfg: Config, s: State, id: nat, c: Conn, loose: int, taken: seq<Task>)
    requires id < |s.all| && LoopOk(cfg, s)
    requires ConnsOk(cfg, s.all[id := c]) && MapOk(s.all[id := c], s.conns)
    requires WorkOk(s.all[id := c], Work(s) + multiset(taken))
    requires BatchOk(s.all[id := c], s.batch, loose) && CoverOk(s.all[id := c], s.batch, loose)
    ensures Core(cfg, Update(s, id, c), loose, taken)
  {
    LoopUpdate(cfg, s, id, c);
    hide LoopOk, ConnsOk, MapOk, WorkOk, BatchOk, CoverOk, Work;
  }

  /** Changing only the connection whose event is being handled. */
  lemma UpdateKeeps(cfg: Config, s: State, id: nat, c: Conn, taken: seq<Task>)
    requires Core(cfg, s, id, taken) && id < |s.all| && Waiting(s.all[id])
    requires c.open && !c.working && c.fd == s.all[id].fd && ConnOk(cfg, id, c)
    ensures Core(cfg, Update(s, id, c), if Waiting(c) then id else -1, taken)
  {
    hide ConnOk, LoopOk, Work;
    WorkUpdate(s.all, Work(s) + multiset(taken), id, c);
    BatchUpdate(s.all, s.batch, id, c);
    MapUpdate(s.all, s.conns, id, c);
    hide WorkOk, BatchOk, CoverOk, MapOk;
    assert ConnsOk(cfg, s.all[id := c]);
    Replaced(cfg, s, id, c, if Waiting(c) then id else -1, taken);
  }

  function Closed(c: Conn): Conn { c.(open := false, interest := Disabled) }

  /** A connection can be closed at any point of writing its replies. */
  lemma ClosedOk(cfg: Config, id: nat, c: Conn)
    requires c.open && WireOk(cfg, id, c) && SessionOk(c)
    ensures ConnOk(cfg, id, Closed(c))
  {
    hide Framing.Run, Requests, Reply;
  }

  lemma CloseIs(s: State, id: nat, c: Conn)
    requires MapOk(s.all, s.conns) && id < |s.all| && s.all[id].open && c.open && c.fd == s.all[id].fd
    ensures Close(Update(s, id, c), c.fd)
         == s.(all := s.all[id := Closed(c)], conns := s.conns - {c.fd}, active := s.active - 1)
  {
    OwnerIs(s, id);
    hide MapOk;
    assert s.all[id := c][id := Closed(c)] == s.all[id := Closed(c)];
  }

  lemma LoopClose(cfg: Config, s: State, all: seq<Conn>, conns: map<int, nat>)
    requires LoopOk(cfg, s) && |all| == |s.all| && |conns| == |s.conns| - 1
    ensures var t := s.(all := all, conns := conns, active := s.active - 1);
            LoopOk(cfg, t) && Work(t) == Work(s)
  {
  }

  lemma {:induction false} CloseLands(cfg: Config, s: State, id: nat, c: Conn, taken: seq<Task>)
    requires Core(cfg, s, id, taken) && id < |s.all| && Waiting(s.all[id])
    requires c.open && c.fd == s.all[id].fd && WireOk(cfg, id, c) && SessionOk(c)
    ensures Core(cfg, Close(Update(s, id, c), c.fd), -1, taken)
  {
    hide WireOk, SessionOk, ConnOk, LoopOk, Work;
    var all := s.all[id := Closed(c)];
    ClosedOk(cfg, id, c);
    assert ConnsOk(cfg, all);
    WorkUpdate(s.all, Work(s) + multiset(taken), id, Closed(c));
    BatchUpdate(s.all, s.batch, id, Closed(c));
    MapClose(s.all, s.conns, id, Closed(c));
    CloseIs(s, id, c);
    LoopClose(cfg, s, all, s.conns - {c.fd});
    hide ConnsOk, WorkOk, BatchOk, CoverOk, MapOk, Close, Update;
  }

  lemma RearmIs(s: State, id: nat, c: Conn, direction: Direction, refused: set<int>)
    requires MapOk(s.all, s.conns) && id < |s.all| && s.all[id].open && c.open && c.fd == s.all[id].fd
    ensures Rearm(Update(s, id, c), c.fd, direction, refused)
         == if c.fd in refused then Close(Update(s, id, c), c.fd)
            else Update(s, id, c.(interest := Armed(direction)))
  {
    OwnerIs(s, id);
    hide MapOk, Close;
    assert s.all[id := c][id := c.(interest := Armed(direction))] == s.all[id := c.(interest := Armed(direction))];
  }

  lemma {:induction false} RearmLands(cfg: Config, s: State, id: nat, c: Conn, direction: Direction, refused: set<int>, taken: seq<Task>)
    requires Core(cfg, s, id, taken) && id < |s.all| && Waiting(s.all[id])
    requires Waiting(c) && c.fd == s.all[id].fd && ConnOk(cfg, id, c)
    requires direction == Write <==> c.processing
    ensures Core(cfg, Rearm(Update(s, id, c), c.fd, direction, refused), -1, taken)
  {
    hide ConnsOk, LoopOk, MapOk, WorkOk, BatchOk, CoverOk, Close, Rearm, Update;
    RearmIs(s, id, c, direction, refused);
    if c.fd in refused {
      CloseLands(cfg, s, id, c, taken);
    } else {
      ArmedOk(cfg, id, c, direction);
      UpdateKeeps(cfg, s, id, c.(interest := Armed(direction)), taken);
    }
  }

  lemma ArmedOk(cfg: Config, id: nat, c: Conn, direction: Direction)
    requires c.open && !c.working && ConnOk(cfg, id, c)
    requires direction == Write <==> c.processing
    ensures ConnOk(cfg, id, c.(interest := Armed(direction)))
  {
    hide Framing.Run, Requests, Reply;
  }

  // --- Serving the next request ---------------------------------------------------------------------------

  lemma {:induction false} RunAppend(c: Framing.Session, steps: seq<Framing.Step>, step: Framing.Step)
    ensures Framing.Run(c, steps + [step]) == Framing.Next(Framing.Run(c, steps), step)
    decreases |steps|
  {
    hide Framing.Next;
    if steps == [] {
      assert Framing.Run(c, [step]) == Framing.Run(Framing.Next(c, step), []);
    } else {
      assert (steps + [step])[1..] == steps[1..] + [step];
      RunAppend(Framing.Next(c, steps[0]), steps[1..], step);
    }
  }

  lemma RequestsAppend(answers: seq<Answer>, a: Answer)
    ensures Requests(answers + [a]) == Requests(answers) + [a.request]
  {
  }

  /** Taking a request out of the buffer is serving it. */
  lemma TakenSession(c: Conn, verdict: Verdict)
    requires c.open && SessionOk(c) && Parse(c.buffer).Complete?
    ensures SessionOk(Taken(c, Parse(c.buffer).used, Parse(c.buffer).request, verdict))
  {
    hide Parse, Framing.Run, Requests;
    RunAppend(Framing.Session("", [], false), c.history, Framing.Serve);
    RequestsAppend(c.answers, Answer(Parse(c.buffer).request, verdict));
  }

  lemma ArrivedOk(cfg: Config, id: nat, c: Conn, chunk: string, now: int)
    requires c.open && ConnOk(cfg, id, c)
    ensures ConnOk(cfg, id, Arrived(c, chunk, now))
  {
    hide Framing.Run, Requests, Replies;
    RunAppend(Framing.Session("", [], false), c.history, Framing.Arrive(chunk));
  }

  lemma RepliesAppend(cfg: Config, id: nat, answers: seq<Answer>, a: Answer)
    ensures Replies(cfg, id, answers + [a]) == Replies(cfg, id, answers) + Reply(cfg, id, |answers|, a)
  {
    assert (answers + [a])[..|answers|] == answers;
  }

  /** A request the loop answers itself has its reply pending after all earlier ones. */
  lemma RejectedOk(cfg: Config, id: nat, c: Conn, verdict: Verdict)
    requires cfg.Valid() && verdict != Dispatched
    requires Waiting(c) && !c.processing && ConnOk(cfg, id, c) && Parse(c.buffer).Complete?
    ensures var p := Parse(c.buffer);
            var d := Taken(c, p.used, p.request, verdict);
            ConnOk(cfg, id, d.(unsent := Reply(cfg, id, |d.answers| - 1, Answer(p.request, verdict))))
  {
    hide Parse, Requests, Framing.Run, Replies;
    TakenSession(c, verdict);
    RepliesAppend(cfg, id, c.answers, Answer(Parse(c.buffer).request, verdict));
  }

  /** A request handed to a worker leaves all earlier replies written. */
  lemma DispatchedOk(cfg: Config, id: nat, c: Conn, now: int)
    requires Waiting(c) && !c.processing && ConnOk(cfg, id, c) && Parse(c.buffer).Complete?
    ensures var p := Parse(c.buffer);
            ConnOk(cfg, id, Taken(c, p.used, p.request, Dispatched).(working := true, since := now))
  {
    hide Parse, Requests, Framing.Run, Replies;
    TakenSession(c, Dispatched);
    var d := Taken(c, Parse(c.buffer).used, Parse(c.buffer).request, Dispatched);
    assert d.answers[..|d.answers| - 1] == c.answers;
  }

  /** Handing the task of a connection to the workers. */
  lemma WorkEnqueue(all: seq<Conn>, work: multiset<Task>, id: nat, c: Conn)
    requires WorkOk(all, work) && id < |all| && Waiting(all[id])
    requires c.working && c.answers != [] && c.answers[|c.answers| - 1].verdict == Dispatched
    ensures WorkOk(all[id := c], work + multiset{TaskOf(id, c)})
  {
    var t := TaskOf(id, c);
    forall u | u in work
      ensures TaskOk(all[id := c], u) && work[u] == 1 && u != t
    {
      assert TaskOk(all, u);
    }
    assert HasTask(id, c, work + multiset{t});
    forall i | 0 <= i < |all| && i != id && all[i].open && all[i].working
      ensures HasTask(i, all[i], work + multiset{t})
    {
      assert HasTask(i, all[i], work);
    }
  }

  lemma LoopEnqueue(cfg: Config, s: State, id: nat, c: Conn, t: Task)
    requires LoopOk(cfg, s) && id < |s.all| && (cfg.maxHandlers > 0 ==> s.inFlight < cfg.maxHandlers)
    ensures var u := Update(s, id, c).(queue := s.queue + [t], inFlight := s.inFlight + 1);
            LoopOk(cfg, u) && Work(u) == Work(s) + multiset{t}
  {
  }

  lemma {:induction false} DispatchLands(cfg: Config, s: State, id: nat, now: int)
    requires Core(cfg, s, id, []) && id < |s.all| && Waiting(s.all[id])
    requires !s.all[id].processing && Parse(s.all[id].buffer).Complete?
    requires cfg.maxHandlers > 0 ==> s.inFlight < cfg.maxHandlers
    ensures var p := Parse(s.all[id].buffer);
            Core(cfg, Dispatch(s, s.all[id].fd, id, p.used, p.request, now), -1, [])
  {
    hide Parse, ConnOk, LoopOk, Work;
    var p := Parse(s.all[id].buffer);
    var c := Taken(s.all[id], p.used, p.request, Dispatched).(working := true, since := now);
    var t := TaskOf(id, c);
    DispatchedOk(cfg, id, s.all[id], now);
    assert ConnsOk(cfg, s.all[id := c]);
    WorkEnqueue(s.all, Work(s) + multiset([]), id, c);
    BatchUpdate(s.all, s.batch, id, c);
    MapUpdate(s.all, s.conns, id, c);
    LoopEnqueue(cfg, s, id, c, t);
    hide ConnsOk, WorkOk, BatchOk, CoverOk, MapOk;
    assert Work(s) + multiset([]) + multiset{t} == Work(s) + multiset{t} + multiset([]);
  }

  /** The request counters are no part of it. */
  lemma CountersFree(cfg: Config, s: State, loose: int, a: nat, b: nat, c: nat)
    requires Core(cfg, s, loose, [])
    ensures Core(cfg, s.(requests := a, limited := b, shed := c), loose, [])
  {
    hide ConnsOk, WorkOk, BatchOk, CoverOk, MapOk;
  }

  lemma {:induction false} RejectLands(cfg: Config, s: State, id: nat, verdict: Verdict, refused: set<int>)
    requires Core(cfg, s, id, []) && id < |s.all| && Waiting(s.all[id]) && cfg.Valid() && verdict != Dispatched
    requires !s.all[id].processing && Parse(s.all[id].buffer).Complete?
    ensures var p := Parse(s.all[id].buffer);
            Core(cfg, Reject(cfg, s, s.all[id].fd, id, p.used, p.request, verdict, refused), -1, [])
  {
    hide Parse, ConnsOk, LoopOk, WorkOk, BatchOk, CoverOk, MapOk, Rearm, Update;
    OneConn(cfg, s.all, id);
    var p := Parse(s.all[id].buffer);
    RejectedOk(cfg, id, s.all[id], verdict);
    var c := Taken(s.all[id], p.used, p.request, verdict);
    hide ConnOk;
    RearmLands(cfg, s, id, c.(unsent := Reply(cfg, id, |c.answers| - 1, Answer(p.request, verdict))), Write, refused, []);
  }

  /** A complete request is answered by the loop or handed to a worker. */
  lemma {:induction false} TakeLands(cfg: Config, s: State, id: nat, env: Env)
    requires Core(cfg, s, id, []) && id < |s.all| && Waiting(s.all[id]) && cfg.Valid()
    requires !s.all[id].processing && Parse(s.all[id].buffer).Complete?
    ensures Core(cfg, DispatchNext(cfg, s, s.all[id].fd, id, env), -1, [])
  {
    hide Parse, ConnsOk, LoopOk, WorkOk, BatchOk, CoverOk, MapOk, Rearm, Close, Reject, Dispatch, Core, ConnOk;
    var n := s.requests + 1;
    if env.limits {
      CountersFree(cfg, s, id, n, s.limited + 1, s.shed);
      RejectLands(cfg, s.(requests := n, limited := s.limited + 1, shed := s.shed), id, Limited, env.refused);
    } else if cfg.maxHandlers > 0 && s.inFlight >= cfg.maxHandlers {
      CountersFree(cfg, s, id, n, s.limited, s.shed + 1);
      RejectLands(cfg, s.(requests := n, limited := s.limited, shed := s.shed + 1), id, Shed, env.refused);
    } else {
      CountersFree(cfg, s, id, n, s.limited, s.shed);
      DispatchLands(cfg, s.(requests := n, limited := s.limited, shed := s.shed), id, env.now);
    }
  }

  lemma AllClosedOk(cfg: Config, all: seq<Conn>)
    requires ConnsOk(cfg, all)
    ensures ConnsOk(cfg, AllClosed(all))
  {
    forall id | 0 <= id < |all|
      ensures ConnOk(cfg, id, AllClosed(all)[id])
    {
      OneConn(cfg, all, id);
      ConnParts(cfg, id, all[id]);
      hide WireOk, SessionOk;
      if all[id].open {
        ClosedOk(cfg, id, all[id]);
      } else {
        DisabledOk(cfg, id, all[id]);
      }
    }
  }

  lemma DisabledOk(cfg: Config, id: nat, c: Conn)
    requires ConnOk(cfg, id, c)
    ensures ConnOk(cfg, id, c.(interest := Disabled))
  {
    hide Framing.Run, Requests, Replies;
  }

  /** What is left of a crashed program is in order: every wire ends in its own replies. */
  lemma CrashLands(cfg: Config, s: State, loose: int)
    requires Core(cfg, s, loose, [])
    ensures Core(cfg, Crash(s), -1, [])
  {
    AllClosedOk(cfg, s.all);
    hide ConnsOk, ConnOk, SameSource;
  }

  /** `DispatchNext` ends the handling of the event. */
  lemma {:induction false} DispatchNextLands(cfg: Config, s: State, id: nat, env: Env)
    requires Core(cfg, s, id, []) && id < |s.all| && Waiting(s.all[id]) && cfg.Valid()
    requires !s.all[id].processing
    ensures Core(cfg, DispatchNext(cfg, s, s.all[id].fd, id, env), -1, [])
  {
    hide Parse, ConnsOk, LoopOk, WorkOk, BatchOk, CoverOk, MapOk, Rearm, Close, Reject, Dispatch, Core, ConnOk;
    var c := s.all[id];
    if Parse(c.buffer).Complete? {
      TakeLands(cfg, s, id, env);
    } else {
      CorePart(cfg, s, id, []);
      OneConn(cfg, s.all, id);
      ConnParts(cfg, id, c);
      Unchanged(s, id);
      if Parse(c.buffer).Failed? {
        CloseLands(cfg, s, id, c, []);
      } else if Parse(c.buffer).Overrun? {
        CrashLands(cfg, s, id);
      } else {
        RearmLands(cfg, s, id, c, Read, env.refused, []);
      }
    }
  }

  lemma Unchanged(s: State, id: nat)
    requires id < |s.all|
    ensures Update(s, id, s.all[id]) == s
  {
    assert s.all[id := s.all[id]] == s.all;
  }

  lemma CorePart(cfg: Config, s: State, loose: int, taken: seq<Task>)
    requires Core(cfg, s, loose, taken)
    ensures ConnsOk(cfg, s.all) && MapOk(s.all, s.conns)
  {
  }

  lemma ConnParts(cfg: Config, id: nat, c: Conn)
    requires ConnOk(cfg, id, c)
    ensures ModeOk(c) && WireOk(cfg, id, c) && SessionOk(c)
  {
  }

  // --- Readable and writable sockets ------------------------------------------------------------------------

  lemma {:induction false} ClientDataLands(cfg: Config, s: State, id: nat, env: Env)
    requires Core(cfg, s, id, []) && id < |s.all| && Waiting(s.all[id]) && cfg.Valid()
    requires !s.all[id].processing
    ensures Core(cfg, ClientData(cfg, s, s.all[id].fd, env), -1, [])
  {
    hide ConnsOk, LoopOk, WorkOk, BatchOk, CoverOk, MapOk, Close, DispatchNext, Core, ConnOk, Owner;
    var c := s.all[id];
    CorePart(cfg, s, id, []);
    OneConn(cfg, s.all, id);
    ConnParts(cfg, id, c);
    OwnerIs(s, id);
    Unchanged(s, id);
    match Received(env.recv, cfg.capacity - |c.buffer|)
    case PeerClosed => CloseLands(cfg, s, id, c, []);
    case RecvError => CloseLands(cfg, s, id, c, []);
    case WouldBlock => DispatchNextLands(cfg, s, id, env);
    case Data(chunk) =>
      ArrivedOk(cfg, id, c, chunk, env.now);
      UpdateKeeps(cfg, s, id, Arrived(c, chunk, env.now), []);
      DispatchNextLands(cfg, Update(s, id, Arrived(c, chunk, env.now)), id, env);
  }

  /** Writing moves bytes from the unsent part to the wire. */
  lemma WrittenOk(cfg: Config, id: nat, c: Conn, n: nat, touched: bool, now: int)
    requires Waiting(c) && c.processing && ConnOk(cfg, id, c)
    ensures var d := Written(c, n, touched, now);
            && WireOk(cfg, id, d) && SessionOk(d)
            && (d.unsent != "" ==> ConnOk(cfg, id, d))
            && (d.unsent == "" ==> ConnOk(cfg, id, d.(processing := false, activity := now)))
  {
    hide Framing.Run, Requests, Replies;
    var d := Written(c, n, touched, now);
    assert d.wire + d.unsent == c.wire + c.unsent;
  }

  lemma {:induction false} WriteReadyLands(cfg: Config, s: State, id: nat, env: Env)
    requires Core(cfg, s, id, []) && id < |s.all| && Waiting(s.all[id]) && cfg.Valid()
    requires s.all[id].processing
    ensures Core(cfg, WriteReady(cfg, s, s.all[id].fd, env), -1, [])
  {
    hide ConnsOk, LoopOk, WorkOk, BatchOk, CoverOk, MapOk, Close, Rearm, DispatchNext, Core, ConnOk, Owner;
    var c := s.all[id];
    CorePart(cfg, s, id, []);
    OneConn(cfg, s.all, id);
    ConnParts(cfg, id, c);
    OwnerIs(s, id);
    match env.sent
    case SendError(n) =>
      WrittenOk(cfg, id, c, n, false, env.now);
      CloseLands(cfg, s, id, Written(c, n, false, env.now), []);
    case Sent(n, touched) =>
      WrittenOk(cfg, id, c, n, touched, env.now);
      var d := Written(c, n, touched, env.now);
      if d.unsent != "" {
        RearmLands(cfg, s, id, d, Write, env.refused, []);
      } else if s.draining {
        CloseLands(cfg, s, id, d, []);
      } else {
        var e := d.(processing := false, activity := env.now);
        UpdateKeeps(cfg, s, id, e, []);
        assert Update(s, id, e).all[id] == e;
        DispatchNextLands(cfg, Update(s, id, e), id, env);
      }
  }

  // --- Completions ------------------------------------------------------------------------------------------

  /** Taking a working connection's task off the completions leaves it waiting, with no event in the batch. */
  lemma WorkDeliver(all: seq<Conn>, work: multiset<Task>, t: Task, c: Conn)
    requires WorkOk(all, work + multiset{t}) && t.id < |all| && !c.working
    ensures all[t.id].open ==> WorkOk(all[t.id := c], work)
    ensures !all[t.id].open ==> WorkOk(all, work)
  {
    var both := work + multiset{t};
    assert t in both && both[t] == 1;
    assert TaskOk(all, t);
    forall u | u in work
      ensures u.id != t.id && TaskOk(all, u) && work[u] == 1
    {
      assert u in both && TaskOk(all, u) && both[u] == work[u] + (multiset{t})[u];
    }
    forall i | 0 <= i < |all| && i != t.id && all[i].open && all[i].working
      ensures HasTask(i, all[i], work)
    {
      assert HasTask(i, all[i], both);
    }
  }

  lemma BatchLoosen(all: seq<Conn>, batch: seq<Event>, id: nat, c: Conn)
    requires BatchOk(all, batch, -1) && CoverOk(all, batch, -1) && id < |all| && all[id].working
    ensures BatchOk(all[id := c], batch, id) && CoverOk(all[id := c], batch, id)
  {
    hide SameSource, Reported;
    forall i | 0 <= i < |batch|
      ensures EventOk(all[id := c], batch[i]) && (batch[i].Client? ==> batch[i].id != id)
    {
      assert EventOk(all, batch[i]);
    }
  }

  lemma DeliveredOk(cfg: Config, id: nat, c: Conn)
    requires cfg.Valid() && c.open && c.working && ConnOk(cfg, id, c)
    requires c.answers != [] && c.answers[|c.answers| - 1].verdict == Dispatched
    ensures var t := TaskOf(id, c);
            ConnOk(cfg, id, c.(working := false, unsent := cfg.handler(id, t.index, t.request)))
  {
    hide Framing.Run, Requests;
  }

  /** Taking a completion leaves its open connection with its reply pending and waiting for what happens next. */
  lemma {:induction false} TakenUp(cfg: Config, s: State, t: Task, rest: seq<Task>, d: Conn)
    requires Core(cfg, s, -1, [t] + rest) && cfg.Valid() && t.id < |s.all| && s.all[t.id].open
    requires d == s.all[t.id].(working := false, unsent := cfg.handler(t.id, t.index, t.request))
    ensures Core(cfg, Update(s, t.id, d), t.id, rest) && ConnOk(cfg, t.id, d) && d.processing && Waiting(d)
  {
    hide LoopOk, ConnOk, Work, MapOk, BatchOk, CoverOk;
    var work := Work(s) + multiset(rest);
    assert Work(s) + multiset([t] + rest) == work + multiset{t};
    TaskIsOk(s.all, work, t);
    OneConn(cfg, s.all, t.id);
    ConnParts(cfg, t.id, s.all[t.id]);
    WorkDeliver(s.all, work, t, d);
    DeliveredOk(cfg, t.id, s.all[t.id]);
    BatchLoosen(s.all, s.batch, t.id, d);
    MapUpdate(s.all, s.conns, t.id, d);
    assert ConnsOk(cfg, s.all[t.id := d]);
    hide ConnsOk, WorkOk;
    Replaced(cfg, s, t.id, d, t.id, rest);
  }

  /** One of a connection that is closed leaves everything as it is. */
  lemma Dropped(cfg: Config, s: State, t: Task, rest: seq<Task>)
    requires Core(cfg, s, -1, [t] + rest)
    ensures t.id < |s.all| && t.fd == s.all[t.id].fd
    ensures !s.all[t.id].open ==> Core(cfg, s, -1, rest)
  {
    hide LoopOk, ConnsOk, Work, MapOk, BatchOk, CoverOk;
    var work := Work(s) + multiset(rest);
    assert Work(s) + multiset([t] + rest) == work + multiset{t};
    TaskIsOk(s.all, work, t);
    WorkDeliver(s.all, work, t, s.all[t.id].(working := false));
  }

  /** A completion is delivered to the open connection it belongs to, or dropped. */
  lemma {:induction false} DeliverKeeps(cfg: Config, s: State, ready: seq<Task>, refused: set<int>)
    requires ready != [] && Core(cfg, s, -1, ready) && cfg.Valid()
    ensures Core(cfg, Deliver(cfg, s, ready[0], refused), -1, ready[1..])
  {
    hide Rearm, Owner, ConnOk;
    var t, rest := ready[0], ready[1..];
    assert ready == [t] + rest;
    Dropped(cfg, s, t, rest);
    CorePart(cfg, s, -1, ready);
    hide Core;
    if s.all[t.id].open {
      OwnerIs(s, t.id);
      var d := s.all[t.id].(working := false, unsent := cfg.handler(t.id, t.index, t.request));
      TakenUp(cfg, s, t, rest, d);
      hide MapOk;
      var u := Update(s, t.id, d);
      Unchanged(u, t.id);
      RearmLands(cfg, u, t.id, d, Write, refused, rest);
    } else {
      NotOwner(s, t);
    }
  }

  lemma TaskIsOk(all: seq<Conn>, work: multiset<Task>, t: Task)
    requires WorkOk(all, work + multiset{t})
    ensures TaskOk(all, t)
  {
    assert t in work + multiset{t};
  }

  /** No late reply reaches another connection: the owner of the descriptor of a closed connection is another. */
  lemma NotOwner(s: State, t: Task)
    requires MapOk(s.all, s.conns) && t.id < |s.all| && !s.all[t.id].open
    ensures Owner(s, t.fd) != Some(t.id)
  {
  }

  lemma {:induction false} DeliverAllKeeps(cfg: Config, s: State, ready: seq<Task>, refused: set<int>)
    requires Core(cfg, s, -1, ready) && cfg.Valid()
    ensures Core(cfg, DeliverAll(cfg, s, ready, refused), -1, [])
    decreases |ready|
  {
    hide Core, Deliver;
    if ready != [] {
      DeliverKeeps(cfg, s, ready, refused);
      DeliverAllKeeps(cfg, Deliver(cfg, s, ready[0], refused), ready[1..], refused);
    }
  }

  // --- The events of a batch ----------------------------------------------------------------------------------

  lemma LoopPop(cfg: Config, s: State)
    requires LoopOk(cfg, s) && s.batch != [] && s.phase == Serving
    ensures !s.batch[0].Wakeup? ==> LoopOk(cfg, s.(batch := s.batch[1..]))
    ensures LoopOk(cfg, s.(batch := s.batch[1..], pipe := false, completed := []))
  {
    assert s.batch == [s.batch[0]] + s.batch[1..];
  }

  lemma BatchPop(all: seq<Conn>, batch: seq<Event>)
    requires BatchOk(all, batch, -1) && CoverOk(all, batch, -1) && batch != []
    ensures var loose: int := if batch[0].Client? then batch[0].id else -1;
            BatchOk(all, batch[1..], loose) && CoverOk(all, batch[1..], loose)
  {
    var rest := batch[1..];
    var loose: int := if batch[0].Client? then batch[0].id else -1;
    forall i | 0 <= i < |rest|
      ensures EventOk(all, rest[i]) && (rest[i].Client? ==> rest[i].id != loose)
    {
      assert rest[i] == batch[i + 1] && !SameSource(batch[0], batch[i + 1]);
      assert EventOk(all, batch[0]) && EventOk(all, batch[i + 1]);
    }
    forall i, j | 0 <= i < j < |rest|
      ensures !SameSource(rest[i], rest[j])
    {
      assert rest[i] == batch[i + 1] && rest[j] == batch[j + 1];
    }
    forall id | 0 <= id < |all| && Waiting(all[id]) && id != loose
      ensures Reported(rest, id)
    {
      assert Reported(batch, id);
      var i :| 0 <= i < |batch| && batch[i].Client? && batch[i].id == id;
      assert rest[i - 1] == batch[i];
    }
  }

  lemma {:induction false} HandleKeeps(cfg: Config, s: State, env: Env)
    requires Core(cfg, s, -1, []) && cfg.Valid() && s.phase == Serving && s.batch != []
    requires s.batch[0].Incoming? ==> Unused(s, env.accepted)
    ensures Core(cfg, Handle(cfg, s, env), -1, [])
  {
    hide ConnsOk, WorkOk, CoverOk, MapOk, LoopOk, Close, WriteReady, ClientData, DeliverAll, AcceptAll, ConnOk;
    var t, e := s.(batch := s.batch[1..]), s.batch[0];
    LoopPop(cfg, s);
    BatchPop(s.all, s.batch);
    assert EventOk(s.all, e);
    hide BatchOk;
    match e
    case Wakeup =>
      var u := s.(batch := s.batch[1..], pipe := false, completed := []);
      assert Work(u) + multiset(s.completed) == Work(s) + multiset([]);
      assert Core(cfg, u, -1, s.completed);
      DeliverAllKeeps(cfg, u, s.completed, env.refused);
    case Incoming =>
      assert Core(cfg, t, -1, []);
      AcceptAllKeeps(cfg, t, env.accepted, env.now);
    case Client(fd, id, kind) =>
      assert Core(cfg, t, id, []);
      hide Core;
      match kind
      case Hangup =>
        CorePart(cfg, t, id, []);
        OneConn(cfg, t.all, id);
        ConnParts(cfg, id, t.all[id]);
        Unchanged(t, id);
        CloseLands(cfg, t, id, t.all[id], []);
      case Readable => ClientDataLands(cfg, t, id, env);
      case Writable => WriteReadyLands(cfg, t, id, env);
  }

  // --- Accepting ------------------------------------------------------------------------------------------------

  lemma FreshOk(cfg: Config, id: nat, fd: int, now: int)
    ensures ConnOk(cfg, id, Fresh(fd, now))
  {
  }

  lemma {:induction false} AcceptKeeps(cfg: Config, s: State, fd: int, now: int)
    requires Core(cfg, s, -1, []) && fd !in s.conns
    ensures Core(cfg, Accept(s, fd, now), -1, [])
  {
    hide Reported, SameSource, ConnOk;
    var c, all := Fresh(fd, now), s.all + [Fresh(fd, now)];
    FreshOk(cfg, |s.all|, fd, now);
    assert ConnsOk(cfg, all);
    AcceptMap(s.all, s.conns, c);
    AcceptWork(s.all, Work(s) + multiset([]), c);
    AcceptBatch(s.all, s.batch, c);
    hide ConnsOk, MapOk, WorkOk, BatchOk, CoverOk;
    assert Work(Accept(s, fd, now)) == Work(s);
  }

  lemma AcceptMap(all: seq<Conn>, conns: map<int, nat>, c: Conn)
    requires MapOk(all, conns) && c.fd !in conns && c.open
    ensures MapOk(all + [c], conns[c.fd := |all|]) && |conns[c.fd := |all|]| == |conns| + 1
  {
    assert conns[c.fd := |all|].Keys == conns.Keys + {c.fd};
  }

  lemma AcceptWork(all: seq<Conn>, work: multiset<Task>, c: Conn)
    requires WorkOk(all, work) && !c.working
    ensures WorkOk(all + [c], work)
  {
    forall t | t in work
      ensures TaskOk(all + [c], t) && work[t] == 1
    {
      assert TaskOk(all, t);
    }
  }

  lemma AcceptBatch(all: seq<Conn>, batch: seq<Event>, c: Conn)
    requires BatchOk(all, batch, -1) && CoverOk(all, batch, -1) && c.interest != Disabled
    ensures BatchOk(all + [c], batch, -1) && CoverOk(all + [c], batch, -1)
  {
    hide SameSource, Reported;
    forall i | 0 <= i < |batch|
      ensures EventOk(all + [c], batch[i])
    {
      assert EventOk(all, batch[i]);
    }
  }

  lemma {:induction false} AcceptAllKeeps(cfg: Config, s: State, fds: seq<int>, now: int)
    requires Core(cfg, s, -1, []) && Unused(s, fds)
    ensures Core(cfg, AcceptAll(s, fds, now), -1, [])
    decreases |fds|
  {
    hide Core;
    if fds != [] {
      AcceptKeeps(cfg, s, fds[0], now);
      forall i | 0 <= i < |fds[1..]|
        ensures fds[1..][i] !in Accept(s, fds[0], now).conns
      {
        assert fds[1..][i] == fds[i + 1] && fds[0] != fds[i + 1];
      }
      AcceptAllKeeps(cfg, Accept(s, fds[0], now), fds[1..], now);
    }
  }

  // --- Polling --------------------------------------------------------------------------------------------------

  lemma ReportBatch(s: State, events: seq<Event>)
    requires BatchOk(s.all, [], -1) && CoverOk(s.all, [], -1) && MapOk(s.all, s.conns) && Pollable(s, events)
    requires forall id | 0 <= id < |s.all| :: ModeOk(s.all[id])
    ensures BatchOk(Report(s, events).all, events, -1) && CoverOk(Report(s, events).all, events, -1)
  {
    hide SameSource;
    var all := Report(s, events).all;
    forall i | 0 <= i < |events|
      ensures EventOk(all, events[i])
    {
      assert Reportable(s, events[i]);
      if events[i].Client? {
        assert Reported(events, events[i].id);
        assert ModeOk(s.all[events[i].id]);
      }
    }
    forall id | 0 <= id < |all| && Waiting(all[id])
      ensures Reported(events, id)
    {
      var before := Waiting(s.all[id]);
      assert before || Reported(events, id);
    }
  }

  lemma {:induction false} ReportKeeps(cfg: Config, s: State, events: seq<Event>)
    requires Core(cfg, s, -1, []) && s.phase == Polling && Pollable(s, events)
    ensures Core(cfg, Report(s, events), -1, [])
  {
    hide ConnOk, Reported, SameSource;
    var t := Report(s, events);
    forall id | 0 <= id < |s.all|
      ensures ModeOk(s.all[id]) && ConnOk(cfg, id, t.all[id])
    {
      OneConn(cfg, s.all, id);
      ConnParts(cfg, id, s.all[id]);
      DisabledOk(cfg, id, s.all[id]);
    }
    ReportBatch(s, events);
    ReportMapWork(s, events);
    ReportLoop(cfg, s, events);
    hide MapOk, WorkOk, BatchOk, CoverOk, LoopOk;
  }

  lemma ReportMapWork(s: State, events: seq<Event>)
    requires MapOk(s.all, s.conns) && WorkOk(s.all, Work(s) + multiset([]))
    ensures MapOk(Report(s, events).all, s.conns)
    ensures WorkOk(Report(s, events).all, Work(Report(s, events)) + multiset([]))
  {
    hide Reported;
    var all, work := Report(s, events).all, Work(s) + multiset([]);
    assert Work(Report(s, events)) == Work(s);
    forall t | t in work
      ensures TaskOk(all, t) && work[t] == 1
    {
      assert TaskOk(s.all, t);
    }
    forall id | 0 <= id < |all| && all[id].open && all[id].working
      ensures HasTask(id, all[id], work)
    {
      assert HasTask(id, s.all[id], work);
    }
  }

  lemma ReportLoop(cfg: Config, s: State, events: seq<Event>)
    requires LoopOk(cfg, s) && s.phase == Polling && Pollable(s, events)
    ensures LoopOk(cfg, Report(s, events))
  {
    hide Reported, SameSource;
    assert Incoming in events ==> s.listening by {
      if Incoming in events {
        var i :| 0 <= i < |events| && events[i] == Incoming;
        assert Reportable(s, events[i]);
      }
    }
  }

  // --- Timeouts ---------------------------------------------------------------------------------------------------

  /** A connection dropped by the sweep ends in whole replies and a part of its notice, or just inside a reply. */
  lemma ExpiredOk(cfg: Config, id: nat, c: Conn, now: int, n: nat)
    requires c.open && ConnOk(cfg, id, c) && FateOf(cfg, c, now) != Keep
    ensures ConnOk(cfg, id, Expire(c, FateOf(cfg, c, now), n))
  {
    hide Framing.Run, Requests, Elapsed, REQUEST_TIMEOUT, GATEWAY_TIMEOUT, Reply;
    var fate := FateOf(cfg, c, now);
    var notice, d := Notice(fate), Expire(c, fate, n);
    var part := if n <= |notice| then notice[..n] else notice;
    assert d.wire == c.wire + part && d.wire[|c.wire|..] == part;
  }

  lemma SweepMap(cfg: Config, s: State, now: int, sent: nat -> nat)
    requires MapOk(s.all, s.conns)
    ensures var t := Sweep(cfg, s, now, sent);
            MapOk(t.all, t.conns)
  {
    hide FateOf, Expire;
    var t := Sweep(cfg, s, now, sent);
    forall fd | fd in t.conns
      ensures t.conns[fd] < |t.all| && t.all[t.conns[fd]].open && t.all[t.conns[fd]].fd == fd
    {
      assert fd in s.conns && t.conns[fd] == s.conns[fd];
    }
    forall id | 0 <= id < |t.all| && t.all[id].open
      ensures t.all[id].fd in t.conns && t.conns[t.all[id].fd] == id
    {
      SweptCloses(cfg, s, id, now, sent);
    }
  }

  lemma SweptCloses(cfg: Config, s: State, id: nat, now: int, sent: nat -> nat)
    requires id < |s.all|
    ensures var c := Sweep(cfg, s, now, sent).all[id];
            if Swept(cfg, s, id, now) then c == Expire(s.all[id], FateOf(cfg, s.all[id], now), sent(id)) && !c.open
            else c == s.all[id]
  {
  }

  lemma SweepShape(cfg: Config, s: State, now: int, sent: nat -> nat)
    ensures var t := Sweep(cfg, s, now, sent); |t.all| == |s.all| && Work(t) == Work(s)
  {
    hide FateOf, Expire, Swept;
  }

  lemma SweepWork(cfg: Config, s: State, now: int, sent: nat -> nat)
    requires WorkOk(s.all, Work(s) + multiset([]))
    ensures var t := Sweep(cfg, s, now, sent);
            WorkOk(t.all, Work(t) + multiset([]))
  {
    SweepShape(cfg, s, now, sent);
    hide FateOf, Sweep, Swept, Work, Notice;
    var u, work := Sweep(cfg, s, now, sent), Work(s) + multiset([]);
    forall t | t in work
      ensures TaskOk(u.all, t) && work[t] == 1
    {
      assert TaskOk(s.all, t);
      SweptCloses(cfg, s, t.id, now, sent);
    }
    forall id | 0 <= id < |u.all| && u.all[id].open && u.all[id].working
      ensures HasTask(id, u.all[id], work)
    {
      SweptCloses(cfg, s, id, now, sent);
      assert HasTask(id, s.all[id], work);
    }
  }

  lemma SweepBatch(cfg: Config, s: State, now: int, sent: nat -> nat)
    requires CoverOk(s.all, [], -1)
    ensures var t := Sweep(cfg, s, now, sent);
            BatchOk(t.all, [], -1) && CoverOk(t.all, [], -1)
  {
    hide FateOf, Expire, Sweep;
    forall id | 0 <= id < |Sweep(cfg, s, now, sent).all|
      ensures !Waiting(Sweep(cfg, s, now, sent).all[id])
    {
      SweepLength(cfg, s, now, sent);
      SweptCloses(cfg, s, id, now, sent);
    }
  }

  lemma SweepLength(cfg: Config, s: State, now: int, sent: nat -> nat)
    ensures |Sweep(cfg, s, now, sent).all| == |s.all|
  {
  }

  lemma {:induction false} SweepKeeps(cfg: Config, s: State, now: int, sent: nat -> nat)
    requires Core(cfg, s, -1, []) && s.batch == []
    ensures Core(cfg, Sweep(cfg, s, now, sent), -1, [])
  {
    var t := Sweep(cfg, s, now, sent);
    forall id | 0 <= id < |s.all|
      ensures ConnOk(cfg, id, t.all[id])
    {
      hide ConnOk, FateOf, Expire;
      OneConn(cfg, s.all, id);
      SweptCloses(cfg, s, id, now, sent);
      if Swept(cfg, s, id, now) {
        ExpiredOk(cfg, id, s.all[id], now, sent(id));
      }
    }
    hide ConnOk;
    assert ConnsOk(cfg, t.all);
    SweepMap(cfg, s, now, sent);
    SweepWork(cfg, s, now, sent);
    SweepBatch(cfg, s, now, sent);
    hide ConnsOk, MapOk, WorkOk, BatchOk, CoverOk, Swept;
  }

  lemma {:induction false} EndBatchKeeps(cfg: Config, s: State, now: int, sent: nat -> nat)
    requires Core(cfg, s, -1, []) && s.batch == [] && s.phase == Serving
    ensures Core(cfg, EndBatch(cfg, s, now, sent), -1, [])
  {
    hide ConnsOk, MapOk, WorkOk, BatchOk, CoverOk, Sweep, DrainEnds, Ended;
    var t := BeginDrain(cfg, s, now);
    assert Core(cfg, t, -1, []);
    hide Core;
    SweepKeeps(cfg, t, now, sent);
    SweepPhase(cfg, t, now, sent);
    var u := if t.draining || Elapsed(now, t.lastSweep) >= 1 then Sweep(cfg, t, now, sent) else t;
    assert Core(cfg, u, -1, []);
    EndedKeeps(cfg, u, DrainEnds(u, now));
  }

  lemma SweepPhase(cfg: Config, s: State, now: int, sent: nat -> nat)
    ensures var t := Sweep(cfg, s, now, sent);
            t.phase == s.phase && t.batch == s.batch && t.draining == s.draining && t.listening == s.listening
            && |t.all| == |s.all|
  {
  }

  /** Steps that leave the connections and the tasks alone. */
  lemma Framed(cfg: Config, s: State, t: State)
    requires Core(cfg, s, -1, []) && LoopOk(cfg, t)
    requires t.all == s.all && t.conns == s.conns && t.batch == s.batch && Work(t) == Work(s)
    ensures Core(cfg, t, -1, [])
  {
    hide ConnsOk, MapOk, WorkOk, BatchOk, CoverOk, Work, LoopOk;
  }

  lemma EndedKeeps(cfg: Config, s: State, ending: Ending)
    requires Core(cfg, s, -1, []) && s.batch == [] && s.phase == Serving
    ensures Core(cfg, Ended(s, ending), -1, [])
  {
    hide ConnsOk, MapOk, WorkOk, BatchOk, CoverOk;
  }

  // --- Workers, stop requests and the end -------------------------------------------------------------------------

  predicate Backstage(step: Step)
  {
    step.TakeTask? || step.Push? || step.Notify? || step.Leave? || step.RequestStop? || step.PollFails?
  }

  lemma BackstageLoop(cfg: Config, s: State, step: Step)
    requires LoopOk(cfg, s) && Enabled(cfg, s, step) && Backstage(step)
    ensures LoopOk(cfg, Apply(cfg, s, step))
  {
  }

  lemma MoveOne(q: seq<Task>, k: nat)
    requires k < |q|
    ensures multiset(q) == multiset(Without(q, k)) + multiset([q[k]])
  {
    assert q == q[..k] + [q[k]] + q[k + 1..];
  }

  lemma PushWork(s: State, k: nat, t: State)
    requires k < |s.handling| && t.queue == s.queue
    requires t.handling == Without(s.handling, k) && t.completed == s.completed + [s.handling[k]]
    ensures Work(t) == Work(s)
  {
    MoveOne(s.handling, k);
    hide Without;
  }

  lemma TakeWork(s: State, t: State)
    requires s.queue != [] && t.completed == s.completed
    requires t.queue == s.queue[1..] && t.handling == s.handling + [s.queue[0]]
    ensures Work(t) == Work(s)
  {
    MoveOne(s.queue, 0);
    assert s.queue[1..] == Without(s.queue, 0);
  }

  lemma BackstageWork(cfg: Config, s: State, step: Step)
    requires Enabled(cfg, s, step) && Backstage(step)
    ensures Work(Apply(cfg, s, step)) == Work(s)
  {
    hide Pollable, Unused, Without, Handle, EndBatch, Report, DropAll, Work;
    var t := Apply(cfg, s, step);
    if step.TakeTask? {
      TakeWork(s, t);
    } else if step.Push? {
      PushWork(s, step.k, t);
    } else {
      SameWork(s, t);
    }
  }

  lemma BackstageFrame(cfg: Config, s: State, step: Step)
    requires Enabled(cfg, s, step) && Backstage(step)
    ensures var t := Apply(cfg, s, step); t.all == s.all && t.conns == s.conns && t.batch == s.batch
  {
    hide Pollable, Unused, Without, Handle, EndBatch, Report, DropAll;
  }

  lemma {:induction false} WorkerKeeps(cfg: Config, s: State, step: Step)
    requires Core(cfg, s, -1, []) && Enabled(cfg, s, step) && Backstage(step)
    ensures Core(cfg, Apply(cfg, s, step), -1, [])
  {
    hide ConnsOk, MapOk, WorkOk, BatchOk, CoverOk, LoopOk, Work, Pollable, Unused;
    BackstageLoop(cfg, s, step);
    BackstageWork(cfg, s, step);
    BackstageFrame(cfg, s, step);
    hide Apply, Enabled, Backstage;
    Framed(cfg, s, Apply(cfg, s, step));
  }

  lemma DropAllWork(s: State)
    requires WorkOk(s.all, Work(s) + multiset([]))
    ensures WorkOk(DropAll(s).all, Work(DropAll(s)) + multiset([]))
  {
    var t, work := DropAll(s), Work(s) + multiset([]);
    SameWork(s, t);
    hide Work;
    forall u | u in work
      ensures TaskOk(t.all, u) && work[u] == 1
    {
      assert TaskOk(s.all, u);
    }
  }

  lemma {:induction false} DropAllKeeps(cfg: Config, s: State)
    requires Core(cfg, s, -1, []) && s.phase == Polling
    ensures Core(cfg, DropAll(s), -1, [])
  {
    AllClosedOk(cfg, s.all);
    DropAllWork(s);
    hide ConnsOk, WorkOk, Work;
  }

  lemma SameWork(s: State, t: State)
    requires s.queue == t.queue && s.handling == t.handling && s.completed == t.completed
    ensures Work(s) == Work(t)
  {
  }

  // --- Every run ----------------------------------------------------------------------------------------------------

  lemma {:induction false} StepKeeps(cfg: Config, s: State, step: Step)
    requires Core(cfg, s, -1, []) && Enabled(cfg, s, step) && cfg.Valid()
    ensures Core(cfg, Apply(cfg, s, step), -1, [])
  {
    hide Core, Handle, EndBatch, Report, DropAll, Pollable, Signal, Without;
    match step
    case Poll(events) => ReportKeeps(cfg, s, events);
    case HandleEvent(env) => HandleKeeps(cfg, s, env);
    case Finish(now, sent) => EndBatchKeeps(cfg, s, now, sent);
    case TearDown => DropAllKeeps(cfg, s);
    case _ => WorkerKeeps(cfg, s, step);
  }

  predicate Runs(cfg: Config, s: State, steps: seq<Step>)
    decreases |steps|
  {
    steps != [] ==> Enabled(cfg, s, steps[0]) && Runs(cfg, Apply(cfg, s, steps[0]), steps[1..])
  }

  function After(cfg: Config, s: State, steps: seq<Step>): State
    requires Runs(cfg, s, steps)
    decreases |steps|
  {
    if steps == [] then s else After(cfg, Apply(cfg, s, steps[0]), steps[1..])
  }

  /** One more step of a run. */
  lemma {:induction false} RunsThen(cfg: Config, s: State, steps: seq<Step>, step: Step)
    requires Runs(cfg, s, steps) && Enabled(cfg, After(cfg, s, steps), step)
    ensures Runs(cfg, s, steps + [step])
    ensures After(cfg, s, steps + [step]) == Apply(cfg, After(cfg, s, steps), step)
    decreases |steps|
  {
    hide Enabled, Apply;
    if steps == [] {
      assert [] + [step] == [step];
      assert [step][1..] == [];
    } else {
      assert (steps + [step])[1..] == steps[1..] + [step];
      RunsThen(cfg, Apply(cfg, s, steps[0]), steps[1..], step);
    }
  }

  lemma StartOk(cfg: Config, now: int)
    ensures Core(cfg, Start(now), -1, [])
  {
  }

  lemma {:induction false} RunKeeps(cfg: Config, s: State, steps: seq<Step>)
    requires Core(cfg, s, -1, []) && Runs(cfg, s, steps) && cfg.Valid()
    ensures Core(cfg, After(cfg, s, steps), -1, [])
    decreases |steps|
  {
    hide Core, Enabled, Apply;
    if steps != [] {
      StepKeeps(cfg, s, steps[0]);
      RunKeeps(cfg, Apply(cfg, s, steps[0]), steps[1..]);
    }
  }
}
