/** What one step of the loop makes of each connection, stated over the parser, the environment and the state before it:
    what keeps a connection open, how its next request is answered, and the only ways it is closed. */
module LoopOutcomes {
  import opened Bytes
  import opened HttpSyntax
  import opened EventLoop
  import opened LoopSafety
  import opened LoopHistory
  import opened LoopTheorems
  import Framing

  // --- One connection replaced --------------------------------------------------------------------------

  /** The connection after an attempt to arm it. */
  function ArmedFor(c: Conn, direction: Direction, refused: set<int>): (d: Conn)
    ensures d.open == (c.open && c.fd !in refused)
  {
    if c.fd in refused then c.(open := false, interest := Disabled) else c.(interest := Armed(direction))
  }

  /** The state with connection `id` as `c`; a closed one leaves the map. */
  function Became(s: State, id: nat, c: Conn): State
    requires id < |s.all|
  {
    if c.open then s.(all := s.all[id := c])
    else s.(all := s.all[id := c], conns := s.conns - {c.fd}, active := s.active - 1)
  }

  /** How the loop decides about a request that is complete. */
  function Decision(cfg: Config, s: State, env: Env): Verdict
  {
    if env.limits then Limited
    else if cfg.maxHandlers > 0 && s.inFlight >= cfg.maxHandlers then Shed
    else Dispatched
  }

  /** The connection `c` when the first request of its buffer has been taken. */
  function WithAnswer(c: Conn, used: nat, request: Request, verdict: Verdict): Conn
    requires used <= |c.buffer|
  {
    c.(buffer := c.buffer[used..], processing := true, history := c.history + [Framing.Serve],
       answers := c.answers + [Answer(request, verdict)])
  }

  /** The counters after a request with the verdict, and the queue with the task of one for a handler. */
  function Counted(s: State, verdict: Verdict, task: Task): (u: State)
    ensures u.all == s.all && u.conns == s.conns
    ensures u.queue == s.queue + (if verdict == Dispatched then [task] else [])
    ensures u.inFlight == s.inFlight + if verdict == Dispatched then 1 else 0
  {
    match verdict
    case Limited => s.(requests := s.requests + 1, limited := s.limited + 1)
    case Shed => s.(requests := s.requests + 1, shed := s.shed + 1)
    case Dispatched => s.(requests := s.requests + 1, inFlight := s.inFlight + 1, queue := s.queue + [task])
  }

  /** A connection whose request is answered at once waits to write the answer; another waits for its worker. */
  function Replied(cfg: Config, d: Conn, verdict: Verdict, env: Env): (e: Conn)
    ensures e.open == (d.open && (verdict == Dispatched || d.fd !in env.refused))
  {
    match verdict
    case Limited => ArmedFor(d.(unsent := cfg.tooMany), Write, env.refused)
    case Shed => ArmedFor(d.(unsent := cfg.unavailable), Write, env.refused)
    case Dispatched => d.(working := true, since := env.now)
  }

  /** What becomes of a request that is complete. */
  predicate Answered(cfg: Config, s: State, id: nat, c: Conn, used: nat, request: Request, env: Env, t: State)
    requires id < |s.all| && used <= |c.buffer|
  {
    var verdict := Decision(cfg, s, env);
    t == Became(Counted(s, verdict, Task(c.fd, id, |c.answers|, request)), id,
                Replied(cfg, WithAnswer(c, used, request, verdict), verdict, env))
  }

  /** What becomes of an idle connection `c` by what its buffer holds: it waits for the rest of a request, is closed
      over one that is refused, or its next request is answered. */
  predicate Served(cfg: Config, s: State, id: nat, c: Conn, env: Env, t: State)
    requires id < |s.all|
  {
    match Parse(c.buffer)
    case Incomplete => t == Became(s, id, ArmedFor(c, Read, env.refused))
    case Failed => t == Became(s, id, c.(open := false, interest := Disabled))
    case Overrun => AllLost(s, t)
    case Complete(used, request) => used <= |c.buffer| && Answered(cfg, s, id, c, used, request, env, t)
  }

  /** The program has crashed. */
  predicate AllLost(s: State, t: State)
  {
    t.ending == Crashed && t.phase == Stopped && |t.all| == |s.all| && forall i | 0 <= i < |t.all| :: !t.all[i].open
  }

  lemma CloseBecame(s: State, id: nat, c: Conn)
    requires MapOk(s.all, s.conns) && id < |s.all| && s.all[id].open && c.open && c.fd == s.all[id].fd
    ensures Close(Update(s, id, c), c.fd) == Became(s, id, c.(open := false, interest := Disabled))
  {
    hide MapOk, Close;
    CloseIs(s, id, c);
  }

  lemma RearmBecame(s: State, id: nat, c: Conn, direction: Direction, refused: set<int>)
    requires MapOk(s.all, s.conns) && id < |s.all| && s.all[id].open && c.open && c.fd == s.all[id].fd
    ensures Rearm(Update(s, id, c), c.fd, direction, refused) == Became(s, id, ArmedFor(c, direction, refused))
  {
    hide MapOk, Close, Rearm;
    RearmIs(s, id, c, direction, refused);
    CloseBecame(s, id, c);
  }

  lemma RejectBecame(cfg: Config, s: State, id: nat, c: Conn, used: nat, request: Request, verdict: Verdict,
                     refused: set<int>)
    requires MapOk(s.all, s.conns) && id < |s.all| && s.all[id].open && c.open && c.fd == s.all[id].fd
    requires used <= |c.buffer| && verdict != Dispatched
    ensures Reject(cfg, Update(s, id, c), c.fd, id, used, request, verdict, refused)
         == Became(s, id, ArmedFor(WithAnswer(c, used, request, verdict)
                                   .(unsent := if verdict == Limited then cfg.tooMany else cfg.unavailable), Write, refused))
  {
    hide MapOk, Rearm, Became, ArmedFor;
    var d := WithAnswer(c, used, request, verdict).(unsent := if verdict == Limited then cfg.tooMany else cfg.unavailable);
    assert s.all[id := c][id := d] == s.all[id := d];
    RearmBecame(s, id, d, Write, refused);
  }

  lemma NextServes(cfg: Config, s: State, id: nat, c: Conn, env: Env)
    requires MapOk(s.all, s.conns) && id < |s.all| && s.all[id].open
    requires c.open && c.fd == s.all[id].fd && !c.processing
    ensures Served(cfg, s, id, c, env, DispatchNext(cfg, Update(s, id, c), c.fd, id, env))
  {
    hide MapOk, Parse, Close, Rearm, Became, ArmedFor;
    match Parse(c.buffer)
    case Incomplete => RearmBecame(s, id, c, Read, env.refused);
    case Failed => CloseBecame(s, id, c);
    case Overrun =>
    case Complete(used, request) =>
      hide DispatchNext, Served;
      TakenServes(cfg, s, id, c, used, request, env);
  }

  lemma TakenServes(cfg: Config, s: State, id: nat, c: Conn, used: nat, request: Request, env: Env)
    requires MapOk(s.all, s.conns) && id < |s.all| && s.all[id].open
    requires c.open && c.fd == s.all[id].fd && !c.processing && Parse(c.buffer) == Outcome.Complete(used, request)
    ensures Served(cfg, s, id, c, env, DispatchNext(cfg, Update(s, id, c), c.fd, id, env))
  {
    ParseUses(c.buffer);
    hide MapOk, Parse, Became, ArmedFor, WithAnswer, Answered, DispatchNext;
    if env.limits {
      LimitedServes(cfg, s, id, c, used, request, env);
    } else if cfg.maxHandlers > 0 && s.inFlight >= cfg.maxHandlers {
      ShedServes(cfg, s, id, c, used, request, env);
    } else {
      DispatchServes(cfg, s, id, c, used, request, env);
    }
  }

  lemma LimitedServes(cfg: Config, s: State, id: nat, c: Conn, used: nat, request: Request, env: Env)
    requires MapOk(s.all, s.conns) && id < |s.all| && s.all[id].open && c.open && c.fd == s.all[id].fd && !c.processing
    requires Parse(c.buffer) == Outcome.Complete(used, request) && used <= |c.buffer| && env.limits
    ensures Answered(cfg, s, id, c, used, request, env, DispatchNext(cfg, Update(s, id, c), c.fd, id, env))
  {
    hide MapOk, Parse, Reject, Became, ArmedFor, WithAnswer;
    RejectBecame(cfg, s.(requests := s.requests + 1, limited := s.limited + 1), id, c, used, request, Limited,
                 env.refused);
  }

  lemma ShedServes(cfg: Config, s: State, id: nat, c: Conn, used: nat, request: Request, env: Env)
    requires MapOk(s.all, s.conns) && id < |s.all| && s.all[id].open && c.open && c.fd == s.all[id].fd && !c.processing
    requires Parse(c.buffer) == Outcome.Complete(used, request) && used <= |c.buffer|
    requires !env.limits && cfg.maxHandlers > 0 && s.inFlight >= cfg.maxHandlers
    ensures Answered(cfg, s, id, c, used, request, env, DispatchNext(cfg, Update(s, id, c), c.fd, id, env))
  {
    hide MapOk, Parse, Reject, Became, ArmedFor, WithAnswer;
    RejectBecame(cfg, s.(requests := s.requests + 1, shed := s.shed + 1), id, c, used, request, Shed, env.refused);
  }

  lemma DispatchServes(cfg: Config, s: State, id: nat, c: Conn, used: nat, request: Request, env: Env)
    requires id < |s.all| && c.open && !c.processing
    requires Parse(c.buffer) == Outcome.Complete(used, request) && used <= |c.buffer|
    requires !env.limits && !(cfg.maxHandlers > 0 && s.inFlight >= cfg.maxHandlers)
    ensures Answered(cfg, s, id, c, used, request, env, DispatchNext(cfg, Update(s, id, c), c.fd, id, env))
  {
    hide Parse, Dispatch, Became, WithAnswer;
    DispatchBecame(s, id, c, used, request, env.now);
  }

  lemma ParseUses(s: string)
    ensures Parse(s).Complete? ==> Parse(s).used <= |s|
  {
  }

  lemma DispatchBecame(s: State, id: nat, c: Conn, used: nat, request: Request, now: int)
    requires id < |s.all| && c.open && used <= |c.buffer|
    ensures Dispatch(Update(s, id, c).(requests := s.requests + 1), c.fd, id, used, request, now)
         == Became(s.(requests := s.requests + 1, inFlight := s.inFlight + 1,
                      queue := s.queue + [Task(c.fd, id, |c.answers|, request)]), id,
                   WithAnswer(c, used, request, Dispatched).(working := true, since := now))
  {
    var d := WithAnswer(c, used, request, Dispatched).(working := true, since := now);
    assert s.all[id := c][id := d] == s.all[id := d];
  }

  // --- Events of a connection ---------------------------------------------------------------------------

  /** The first event of the batch is of the open connection `id`. */
  predicate EventOf(s: State, id: nat, kind: Kind)
  {
    s.batch != [] && s.batch[0].Client? && s.batch[0].id == id && s.batch[0].kind == kind && id < |s.all|
  }

  lemma EventIs(cfg: Config, s: State, id: nat, kind: Kind)
    requires Core(cfg, s, -1, []) && EventOf(s, id, kind)
    ensures var c := s.all[id];
            && c.open && c.interest == Disabled && !c.working && s.batch[0].fd == c.fd && Owner(s, c.fd) == Some(id)
            && MapOk(s.all, s.conns) && (kind == Readable ==> !c.processing) && (kind == Writable ==> c.processing)
  {
    hide ConnsOk, MapOk, WorkOk, CoverOk, LoopOk;
    assert EventOk(s.all, s.batch[0]);
    OwnerIs(s, id);
  }

  /** The bytes a read delivers into a buffer with room; None where it ends the connection. */
  function Delivered(recv: Recv, room: int): Option<string>
  {
    if room <= 0 then None
    else
      match recv
      case Data(chunk) => if chunk == "" then None else if |chunk| <= room then Some(chunk) else Some(chunk[..room])
      case WouldBlock => Some("")
      case PeerClosed => None
      case RecvError => None
  }

  /** The connection with what was read. */
  function Fuller(c: Conn, bytes: string, now: int): Conn
  {
    if bytes == "" then c
    else c.(buffer := c.buffer + bytes, history := c.history + [Framing.Arrive(bytes)], activity := now)
  }

  /** What a readable event of `id` leads to: what it delivers decides, and then what the parser makes of the buffer. */
  predicate ReadTo(cfg: Config, s: State, id: nat, env: Env, t: State)
    requires id < |s.all|
  {
    var c := s.all[id];
    match Delivered(env.recv, cfg.capacity - |c.buffer|)
    case None => t == Became(s, id, c.(open := false, interest := Disabled))
    case Some(bytes) => Served(cfg, s, id, Fuller(c, bytes, env.now), env, t)
  }

  lemma ReadLeads(cfg: Config, s: State, id: nat, env: Env)
    requires MapOk(s.all, s.conns) && id < |s.all| && s.all[id].open && !s.all[id].processing
    ensures ReadTo(cfg, s, id, env, ClientData(cfg, s, s.all[id].fd, env))
  {
    OwnerIs(s, id);
    Unchanged(s, id);
    var c, room := s.all[id], cfg.capacity - |s.all[id].buffer|;
    DeliveredIs(s, id, env.recv, room, env.now);
    hide MapOk, Owner, DispatchNext, Close, Became, Served, Delivered, Received, Fed, Update;
    CloseBecame(s, id, c);
    match Delivered(env.recv, room)
    case None =>
    case Some(bytes) =>
      FullerKeeps(c, bytes, env.now);
      hide Fuller;
      NextServes(cfg, s, id, Fuller(c, bytes, env.now), env);
  }

  lemma FullerKeeps(c: Conn, bytes: string, now: int)
    ensures var d := Fuller(c, bytes, now); d.open == c.open && d.fd == c.fd && d.processing == c.processing
  {
  }

  lemma DeliveredIs(s: State, id: nat, recv: Recv, room: int, now: int)
    requires id < |s.all|
    ensures var got := Received(recv, room);
            match Delivered(recv, room)
            case None => got.PeerClosed? || got.RecvError?
            case Some(bytes) =>
              !got.PeerClosed? && !got.RecvError? && Fed(s, id, got, now) == Update(s, id, Fuller(s.all[id], bytes, now))
  {
    Unchanged(s, id);
  }

  /** The connection when `n` bytes more of its reply are on the wire. */
  function Longer(c: Conn, n: nat): Conn
  {
    if n <= |c.unsent| then c.(wire := c.wire + c.unsent[..n], unsent := c.unsent[n..])
    else c.(wire := c.wire + c.unsent, unsent := "")
  }

  lemma LongerIs(c: Conn, n: nat, touched: bool, now: int)
    ensures Written(c, n, touched, now) == Longer(c, n).(activity := if touched then now else c.activity)
  {
  }

  /** What a writable event of `id` leads to: how much of the reply is out decides, and after a whole reply the next
      request. */
  predicate WriteTo(cfg: Config, s: State, id: nat, env: Env, t: State)
    requires id < |s.all|
  {
    var d := Longer(s.all[id], env.sent.n);
    match env.sent
    case SendError(_) => t == Became(s, id, d.(open := false, interest := Disabled))
    case Sent(_, touched) =>
      var e := d.(activity := if touched then env.now else d.activity);
      if d.unsent != "" then t == Became(s, id, ArmedFor(e, Write, env.refused))
      else if s.draining then t == Became(s, id, e.(open := false, interest := Disabled))
      else Served(cfg, s, id, d.(processing := false, activity := env.now), env, t)
  }

  lemma WriteLeads(cfg: Config, s: State, id: nat, env: Env)
    requires MapOk(s.all, s.conns) && id < |s.all| && s.all[id].open && s.all[id].processing
    ensures WriteTo(cfg, s, id, env, WriteReady(cfg, s, s.all[id].fd, env))
  {
    OwnerIs(s, id);
    LongerIs(s.all[id], env.sent.n, env.sent.Sent? && env.sent.touched, env.now);
    hide MapOk, Owner, DispatchNext, Close, Rearm, Became, Served, ArmedFor, Written;
    var d := Written(s.all[id], env.sent.n, env.sent.Sent? && env.sent.touched, env.now);
    var e := d.(processing := false, activity := env.now);
    CloseBecame(s, id, d);
    RearmBecame(s, id, d, Write, env.refused);
    NextServes(cfg, s, id, e, env);
  }

  /** The state in which the first event of the batch is handled. */
  function Popped(s: State): State
    requires s.batch != []
  {
    s.(batch := s.batch[1..])
  }

  lemma Handled(cfg: Config, s: State, id: nat, kind: Kind, env: Env)
    requires EventOf(s, id, kind) && Enabled(cfg, s, HandleEvent(env))
    ensures var t, fd := Apply(cfg, s, HandleEvent(env)), s.batch[0].fd;
            t == match kind
                 case Hangup => Close(Popped(s), fd)
                 case Readable => ClientData(cfg, Popped(s), fd, env)
                 case Writable => WriteReady(cfg, Popped(s), fd, env)
  {
    hide Close, ClientData, WriteReady;
  }

  lemma ReadableEvent(cfg: Config, s: State, id: nat, env: Env)
    requires Core(cfg, s, -1, []) && EventOf(s, id, Readable) && Enabled(cfg, s, HandleEvent(env))
    ensures ReadTo(cfg, Popped(s), id, env, Apply(cfg, s, HandleEvent(env)))
  {
    EventIs(cfg, s, id, Readable);
    Handled(cfg, s, id, Readable, env);
    hide Core, MapOk, ClientData, ReadTo, Owner, Apply, Enabled;
    ReadLeads(cfg, Popped(s), id, env);
  }

  lemma WritableEvent(cfg: Config, s: State, id: nat, env: Env)
    requires Core(cfg, s, -1, []) && EventOf(s, id, Writable) && Enabled(cfg, s, HandleEvent(env))
    ensures WriteTo(cfg, Popped(s), id, env, Apply(cfg, s, HandleEvent(env)))
  {
    EventIs(cfg, s, id, Writable);
    Handled(cfg, s, id, Writable, env);
    hide Core, MapOk, WriteReady, WriteTo, Owner, Apply, Enabled;
    WriteLeads(cfg, Popped(s), id, env);
  }

  /** A hang-up closes the connection. */
  lemma HangupEvent(cfg: Config, s: State, id: nat, env: Env)
    requires Core(cfg, s, -1, []) && EventOf(s, id, Hangup) && Enabled(cfg, s, HandleEvent(env))
    ensures Apply(cfg, s, HandleEvent(env)) == Became(Popped(s), id, s.all[id].(open := false, interest := Disabled))
  {
    EventIs(cfg, s, id, Hangup);
    Handled(cfg, s, id, Hangup, env);
    hide Core, MapOk, Close, Became, Owner, Apply, Enabled;
    var t := Popped(s);
    Unchanged(t, id);
    CloseBecame(t, id, t.all[id]);
  }

  // --- Plainly ---------------------------------------------------------------------------------------------

  /** Part of a request leaves its connection open, armed for reading, with all bytes it has received. */
  lemma PartialRequestWaits(cfg: Config, s: State, id: nat, env: Env, chunk: string)
    requires Core(cfg, s, -1, []) && EventOf(s, id, Readable) && Enabled(cfg, s, HandleEvent(env))
    requires env.recv == Data(chunk) && 0 < |chunk| <= cfg.capacity - |s.all[id].buffer|
    requires Parse(s.all[id].buffer + chunk) == Incomplete && s.all[id].fd !in env.refused
    ensures var c, t := s.all[id], Apply(cfg, s, HandleEvent(env));
            && t.all == s.all[id := c.(interest := Armed(Read), buffer := c.buffer + chunk, activity := env.now,
                                       history := c.history + [Framing.Arrive(chunk)])]
            && t.all[id].open && t.conns == s.conns && t.queue == s.queue
  {
    EventIs(cfg, s, id, Readable);
    hide Core, MapOk, Parse, Apply, Enabled;
    ReadableEvent(cfg, s, id, env);
  }

  /** After a whole reply an idle client's connection stays open, armed for reading. */
  lemma KeepsAlive(cfg: Config, s: State, id: nat, env: Env)
    requires Core(cfg, s, -1, []) && EventOf(s, id, Writable) && Enabled(cfg, s, HandleEvent(env))
    requires env.sent.Sent? && env.sent.n >= |s.all[id].unsent| && !s.draining
    requires Parse(s.all[id].buffer) == Incomplete && s.all[id].fd !in env.refused
    ensures var c, t := s.all[id], Apply(cfg, s, HandleEvent(env));
            && t.all == s.all[id := c.(interest := Armed(Read), wire := c.wire + c.unsent, unsent := "",
                                       processing := false, activity := env.now)]
            && t.all[id].open && t.conns == s.conns && t.queue == s.queue
  {
    EventIs(cfg, s, id, Writable);
    hide Core, MapOk, Parse, Apply, Enabled;
    WritableEvent(cfg, s, id, env);
    AllWritten(s.all[id], env.sent.n);
    hide Longer;
  }

  lemma AllWritten(c: Conn, n: nat)
    requires n >= |c.unsent|
    ensures Longer(c, n) == c.(wire := c.wire + c.unsent, unsent := "")
  {
    assert c.unsent[..|c.unsent|] == c.unsent && c.unsent[|c.unsent|..] == "";
  }

  /** A request the parser refuses closes its connection. */
  lemma RefusedRequestCloses(cfg: Config, s: State, id: nat, env: Env, chunk: string)
    requires Core(cfg, s, -1, []) && EventOf(s, id, Readable) && Enabled(cfg, s, HandleEvent(env))
    requires env.recv == Data(chunk) && 0 < |chunk| <= cfg.capacity - |s.all[id].buffer|
    requires Parse(s.all[id].buffer + chunk) == Failed
    ensures var c, t := s.all[id], Apply(cfg, s, HandleEvent(env));
            && t.all == s.all[id := c.(open := false, buffer := c.buffer + chunk, activity := env.now,
                                       history := c.history + [Framing.Arrive(chunk)])]
            && t.conns == s.conns - {c.fd} && t.queue == s.queue
  {
    EventIs(cfg, s, id, Readable);
    hide Core, MapOk, Parse, Apply, Enabled;
    ReadableEvent(cfg, s, id, env);
  }

  /** The chunk completes a request, which the connection `c` is answered. */
  predicate Completes(cfg: Config, s: State, id: nat, env: Env, chunk: string)
  {
    && EventOf(s, id, Readable) && Enabled(cfg, s, HandleEvent(env))
    && env.recv == Data(chunk) && 0 < |chunk| <= cfg.capacity - |s.all[id].buffer|
    && Parse(s.all[id].buffer + chunk).Complete?
  }

  lemma CompletesIs(cfg: Config, s: State, id: nat, env: Env, chunk: string)
    requires Core(cfg, s, -1, []) && Completes(cfg, s, id, env, chunk)
    ensures var c := s.all[id];
            var parsed := Parse(c.buffer + chunk);
            c.open && parsed.used <= |c.buffer + chunk| &&
            var d, task := Fuller(c, chunk, env.now), Task(c.fd, id, |c.answers|, parsed.request);
            var verdict, t := Decision(cfg, s, env), Apply(cfg, s, HandleEvent(env));
            && |t.all| == |s.all|
            && t.all[id] == Replied(cfg, WithAnswer(d, parsed.used, parsed.request, verdict), verdict, env)
            && t.queue == s.queue + (if verdict == Dispatched then [task] else [])
            && t.inFlight == s.inFlight + if verdict == Dispatched then 1 else 0
  {
    EventIs(cfg, s, id, Readable);
    hide Core, MapOk, Parse, Apply, Enabled, Answered;
    ReadableEvent(cfg, s, id, env);
    var parsed := Parse(s.all[id].buffer + chunk);
    AnsweredFields(cfg, s, id, Fuller(s.all[id], chunk, env.now), parsed.used, parsed.request, env,
                   Apply(cfg, s, HandleEvent(env)));
  }

  lemma AnsweredFields(cfg: Config, s: State, id: nat, c: Conn, used: nat, request: Request, env: Env, t: State)
    requires s.batch != [] && id < |s.all| && used <= |c.buffer| && Answered(cfg, Popped(s), id, c, used, request, env, t)
    ensures var verdict, task := Decision(cfg, s, env), Task(c.fd, id, |c.answers|, request);
            && |t.all| == |s.all| && t.all[id] == Replied(cfg, WithAnswer(c, used, request, verdict), verdict, env)
            && t.queue == s.queue + (if verdict == Dispatched then [task] else [])
            && t.inFlight == s.inFlight + if verdict == Dispatched then 1 else 0
  {
    var verdict, task := Decision(cfg, s, env), Task(c.fd, id, |c.answers|, request);
    BecameFields(Counted(Popped(s), verdict, task), id,
                 Replied(cfg, WithAnswer(c, used, request, verdict), verdict, env));
    assert Decision(cfg, Popped(s), env) == verdict;
    hide Replied, WithAnswer, Counted, Became, Decision;
  }

  lemma BecameFields(s: State, id: nat, c: Conn)
    requires id < |s.all|
    ensures var t := Became(s, id, c); t.all == s.all[id := c] && t.queue == s.queue && t.inFlight == s.inFlight
  {
  }

  /** A client the limiter refuses is answered 429, which is written before anything else happens. */
  lemma LimitedRequest(cfg: Config, s: State, id: nat, env: Env, chunk: string)
    requires Core(cfg, s, -1, []) && Completes(cfg, s, id, env, chunk) && env.limits
    ensures var c, t := s.all[id], Apply(cfg, s, HandleEvent(env));
            var parsed := Parse(c.buffer + chunk);
            id < |t.all| && parsed.used <= |c.buffer + chunk| &&
            var d := t.all[id];
            && d.buffer == (c.buffer + chunk)[parsed.used..]
            && d.answers == c.answers + [Answer(parsed.request, Limited)] && d.unsent == cfg.tooMany
            && d.open == (c.fd !in env.refused) && (d.open ==> d.interest == Armed(Write)) && t.queue == s.queue
  {
    hide Core, Parse, Apply;
    CompletesIs(cfg, s, id, env, chunk);
    hide Completes;
  }

  /** Where the cap on handlers is reached it is answered 503. */
  lemma ShedRequest(cfg: Config, s: State, id: nat, env: Env, chunk: string)
    requires Core(cfg, s, -1, []) && Completes(cfg, s, id, env, chunk)
    requires !env.limits && cfg.maxHandlers > 0 && s.inFlight >= cfg.maxHandlers
    ensures var c, t := s.all[id], Apply(cfg, s, HandleEvent(env));
            var parsed := Parse(c.buffer + chunk);
            id < |t.all| && parsed.used <= |c.buffer + chunk| &&
            var d := t.all[id];
            && d.buffer == (c.buffer + chunk)[parsed.used..]
            && d.answers == c.answers + [Answer(parsed.request, Shed)] && d.unsent == cfg.unavailable
            && d.open == (c.fd !in env.refused) && (d.open ==> d.interest == Armed(Write)) && t.queue == s.queue
  {
    hide Core, Parse, Apply;
    CompletesIs(cfg, s, id, env, chunk);
    hide Completes;
  }

  /** Any other is queued for a worker, once. */
  lemma DispatchedRequest(cfg: Config, s: State, id: nat, env: Env, chunk: string)
    requires Core(cfg, s, -1, []) && Completes(cfg, s, id, env, chunk)
    requires !env.limits && !(cfg.maxHandlers > 0 && s.inFlight >= cfg.maxHandlers)
    ensures var c, t := s.all[id], Apply(cfg, s, HandleEvent(env));
            var parsed := Parse(c.buffer + chunk);
            id < |t.all| && parsed.used <= |c.buffer + chunk| &&
            var d := t.all[id];
            && d.buffer == (c.buffer + chunk)[parsed.used..]
            && d.answers == c.answers + [Answer(parsed.request, Dispatched)]
            && d.open && d.working && d.since == env.now
            && t.queue == s.queue + [Task(c.fd, id, |c.answers|, parsed.request)] && t.inFlight == s.inFlight + 1
  {
    hide Core, Parse, Apply;
    CompletesIs(cfg, s, id, env, chunk);
    hide Completes;
  }

  // --- New connections and finished handlers ------------------------------------------------------------------

  lemma {:induction false} AcceptAllIs(s: State, fds: seq<int>, now: int)
    requires Unused(s, fds)
    ensures var t := AcceptAll(s, fds, now);
            && |t.all| == |s.all| + |fds| && t.all[..|s.all|] == s.all
            && (forall k | 0 <= k < |fds| ::
                  && t.all[|s.all| + k] == Conn(fds[k], true, Armed(Read), "", false, false, 0, now, "", [], [], "")
                  && fds[k] in t.conns && t.conns[fds[k]] == |s.all| + k)
            && (forall fd | fd in s.conns :: fd in t.conns && t.conns[fd] == s.conns[fd])
            && t.completed == s.completed
    decreases |fds|
  {
    if fds != [] {
      var u, rest := Accept(s, fds[0], now), fds[1..];
      assert forall k | 0 <= k < |rest| :: rest[k] == fds[k + 1];
      AcceptAllIs(u, rest, now);
      var t := AcceptAll(u, rest, now);
      hide AcceptAll;
      assert t.all[..|u.all|] == u.all;
      assert t.all[|s.all|] == t.all[..|u.all|][|s.all|];
      assert t.all[..|s.all|] == t.all[..|u.all|][..|s.all|];
      forall k | 0 < k < |fds|
        ensures t.all[|s.all| + k] == Conn(fds[k], true, Armed(Read), "", false, false, 0, now, "", [], [], "")
        ensures fds[k] in t.conns && t.conns[fds[k]] == |s.all| + k
      {
        assert fds[k] == rest[k - 1] && |u.all| + (k - 1) == |s.all| + k;
      }
    }
  }

  /** Every accepted descriptor gets an idle connection of its own, armed for reading; the others stay as they are. */
  lemma IncomingEvent(cfg: Config, s: State, env: Env)
    requires Enabled(cfg, s, HandleEvent(env)) && s.batch[0].Incoming?
    ensures var t, fds := Apply(cfg, s, HandleEvent(env)), env.accepted;
            && |t.all| == |s.all| + |fds| && t.all[..|s.all|] == s.all
            && (forall k | 0 <= k < |fds| ::
                  && t.all[|s.all| + k] == Conn(fds[k], true, Armed(Read), "", false, false, 0, env.now, "", [], [], "")
                  && fds[k] in t.conns && t.conns[fds[k]] == |s.all| + k)
            && (forall fd | fd in s.conns :: fd in t.conns && t.conns[fd] == s.conns[fd])
  {
    hide AcceptAll;
    AcceptAllIs(Popped(s), env.accepted, env.now);
  }

  /** A connection with the response of its handler. */
  function WithReply(cfg: Config, c: Conn, t: Task): Conn
  {
    c.(working := false, unsent := cfg.handler(t.id, t.index, t.request))
  }

  lemma DeliverBecame(cfg: Config, s: State, t: Task, refused: set<int>)
    requires MapOk(s.all, s.conns) && t.id < |s.all| && s.all[t.id].open && t.fd == s.all[t.id].fd
    ensures Deliver(cfg, s, t, refused) == Became(s, t.id, ArmedFor(WithReply(cfg, s.all[t.id], t), Write, refused))
  {
    OwnerIs(s, t.id);
    hide MapOk, Rearm, Owner;
    RearmBecame(s, t.id, WithReply(cfg, s.all[t.id], t), Write, refused);
  }

  /** The completions of a batch, one connection at a time. */
  lemma {:induction false} DeliverAllIs(cfg: Config, s: State, ready: seq<Task>, refused: set<int>, id: nat, t: Task)
    requires cfg.Valid() && Core(cfg, s, -1, ready) && id < |s.all| && s.all[id].open && t in ready && t.id == id
    ensures var u := DeliverAll(cfg, s, ready, refused);
            id < |u.all| && u.all[id] == ArmedFor(WithReply(cfg, s.all[id], t), Write, refused)
    decreases |ready|
  {
    var first, rest := ready[0], ready[1..];
    CorePart(cfg, s, -1, ready);
    DeliverKeeps(cfg, s, ready, refused);
    FirstTaskOk(cfg, s, ready);
    hide Deliver, Core, MapOk, ArmedFor, WithReply;
    var u := Deliver(cfg, s, first, refused);
    if first.id == id {
      OneTask(cfg, s, ready, t);
      DeliveredFirst(cfg, s, first, refused);
      hide TaskOk;
      DeliveredRest(cfg, u, rest, id);
      LateRepliesDropped(cfg, u, rest, refused, id);
    } else {
      hide TaskOk;
      DeliverTouches(cfg, s, first, refused, id);
      assert t in rest;
      DeliverAllIs(cfg, u, rest, refused, id, t);
    }
  }

  lemma DeliveredFirst(cfg: Config, s: State, t: Task, refused: set<int>)
    requires MapOk(s.all, s.conns) && TaskOk(s.all, t) && s.all[t.id].open
    ensures var u := Deliver(cfg, s, t, refused);
            && |u.all| == |s.all| && u.all[t.id] == ArmedFor(WithReply(cfg, s.all[t.id], t), Write, refused)
            && !u.all[t.id].working
  {
    hide MapOk, Deliver;
    DeliverBecame(cfg, s, t, refused);
  }

  lemma FirstTaskOk(cfg: Config, s: State, ready: seq<Task>)
    requires Core(cfg, s, -1, ready)
    ensures forall t | t in ready :: TaskOk(s.all, t)
  {
    hide ConnsOk, MapOk, BatchOk, CoverOk, LoopOk, TaskOk;
    forall t | t in ready
      ensures TaskOk(s.all, t)
    {
      assert t in Work(s) + multiset(ready);
    }
  }

  lemma OneTask(cfg: Config, s: State, ready: seq<Task>, t: Task)
    requires Core(cfg, s, -1, ready) && t in ready && ready[0].id == t.id
    ensures ready[0] == t
  {
    hide ConnsOk, MapOk, BatchOk, CoverOk, LoopOk;
    FirstTaskOk(cfg, s, ready);
    assert TaskOk(s.all, ready[0]) && TaskOk(s.all, t);
  }

  lemma DeliveredRest(cfg: Config, s: State, ready: seq<Task>, id: nat)
    requires Core(cfg, s, -1, ready) && id < |s.all| && (s.all[id].open ==> !s.all[id].working)
    ensures !s.all[id].open || forall t | t in ready :: t.id != id
  {
    hide ConnsOk, MapOk, BatchOk, CoverOk, LoopOk, Core;
    FirstTaskOk(cfg, s, ready);
    forall t | t in ready && s.all[id].open
      ensures t.id != id
    {
      assert TaskOk(s.all, t);
    }
  }

  lemma {:induction false} DeliverAllShape(cfg: Config, s: State, ready: seq<Task>, refused: set<int>)
    ensures var u := DeliverAll(cfg, s, ready, refused);
            |u.all| == |s.all| && u.completed == s.completed && u.pipe == s.pipe
    decreases |ready|
  {
    if ready != [] {
      DeliverShape(cfg, s, ready[0], refused);
      hide Deliver;
      DeliverAllShape(cfg, Deliver(cfg, s, ready[0], refused), ready[1..], refused);
    }
  }

  lemma DeliverShape(cfg: Config, s: State, t: Task, refused: set<int>)
    ensures var u := Deliver(cfg, s, t, refused);
            |u.all| == |s.all| && u.completed == s.completed && u.pipe == s.pipe
  {
    hide Rearm;
    match Owner(s, t.fd)
    case None =>
    case Some(id) =>
      if id == t.id && s.all[id].open {
        RearmShape(Update(s, id, s.all[id].(working := false, unsent := cfg.handler(id, t.index, t.request))), t.fd, refused);
      }
  }

  lemma RearmShape(s: State, fd: int, refused: set<int>)
    ensures var u := Rearm(s, fd, Write, refused);
            |u.all| == |s.all| && u.completed == s.completed && u.pipe == s.pipe
  {
    CloseShape(s, fd);
    hide Close;
  }

  lemma CloseShape(s: State, fd: int)
    ensures var u := Close(s, fd);
            |u.all| == |s.all| && u.completed == s.completed && u.pipe == s.pipe
  {
    hide Owner;
    match Owner(s, fd)
    case None =>
    case Some(id) =>
      var u := Update(s, id, s.all[id].(open := false, interest := Disabled));
      assert |u.all| == |s.all| && u.completed == s.completed && u.pipe == s.pipe;
  }

  /** A wake-up: each open connection with a finished handler gets its response and is armed for writing, and no other
      changes. */
  lemma WakeupEvent(cfg: Config, s: State, env: Env, id: nat)
    requires cfg.Valid() && Core(cfg, s, -1, []) && Enabled(cfg, s, HandleEvent(env)) && s.batch[0].Wakeup?
    requires id < |s.all|
    ensures var u := Apply(cfg, s, HandleEvent(env));
            && |u.all| == |s.all| && u.completed == [] && !u.pipe
            && (forall t | t in s.completed && t.id == id && s.all[id].open ::
                  u.all[id] == ArmedFor(s.all[id].(working := false, unsent := cfg.handler(t.id, t.index, t.request)),
                                        Write, env.refused))
            && (!s.all[id].open || (forall t | t in s.completed :: t.id != id) ==> u.all[id] == s.all[id])
  {
    var v := Popped(s).(pipe := false, completed := []);
    WokenCore(cfg, s);
    DeliverAllShape(cfg, v, s.completed, env.refused);
    hide Core, DeliverAll, ArmedFor;
    forall t | t in s.completed && t.id == id && s.all[id].open
      ensures DeliverAll(cfg, v, s.completed, env.refused).all[id]
           == ArmedFor(s.all[id].(working := false, unsent := cfg.handler(t.id, t.index, t.request)), Write, env.refused)
    {
      DeliverAllIs(cfg, v, s.completed, env.refused, id, t);
    }
    if !s.all[id].open || (forall t | t in s.completed :: t.id != id) {
      LateRepliesDropped(cfg, v, s.completed, env.refused, id);
    }
  }

  /** The invariant when the completions have been taken out. */
  lemma WokenCore(cfg: Config, s: State)
    requires Core(cfg, s, -1, []) && s.batch != [] && s.batch[0].Wakeup? && s.phase == Serving
    ensures Core(cfg, Popped(s).(pipe := false, completed := []), -1, s.completed)
  {
    hide ConnsOk, WorkOk, BatchOk, CoverOk, MapOk, LoopOk;
    LoopPop(cfg, s);
    BatchPop(s.all, s.batch);
    var u := Popped(s).(pipe := false, completed := []);
    assert Work(u) + multiset(s.completed) == Work(s) + multiset([]);
  }

  // --- The only ways a connection is closed ----------------------------------------------------------------------

  /** Serving what the buffer of `c` holds closes it: a refused request, or re-arming that fails. */
  predicate ServingCloses(cfg: Config, s: State, c: Conn, env: Env)
  {
    match Parse(c.buffer)
    case Incomplete => c.fd in env.refused
    case Failed => true
    case Overrun => false
    case Complete(_, _) => Decision(cfg, s, env) != Dispatched && c.fd in env.refused
  }

  /** The buffer that an event parses, if it comes to that. */
  function NextParsed(cfg: Config, s: State, env: Env): Option<Conn>
  {
    if s.batch == [] || !s.batch[0].Client? || s.batch[0].id >= |s.all| then None
    else
      var c := s.all[s.batch[0].id];
      match s.batch[0].kind
      case Hangup => None
      case Readable =>
        (match Delivered(env.recv, cfg.capacity - |c.buffer|)
         case None => None
         case Some(bytes) => Some(Fuller(c, bytes, env.now)))
      case Writable =>
        if env.sent.SendError? || env.sent.n < |c.unsent| || s.draining then None
        else Some(Longer(c, env.sent.n).(processing := false, activity := env.now))
  }

  /** The parser writes outside that buffer. */
  predicate NextOverruns(cfg: Config, s: State, env: Env)
  {
    var next := NextParsed(cfg, s, env);
    next.Some? && Parse(next.value.buffer).Overrun?
  }

  /** A hang-up, the peer's end or an error of a read or a write, the end of a reply while draining, a refused request,
      or re-arming that fails. */
  predicate EventCloses(cfg: Config, s: State, c: Conn, kind: Kind, env: Env)
  {
    match kind
    case Hangup => true
    case Readable =>
      (match Delivered(env.recv, cfg.capacity - |c.buffer|)
       case None => true
       case Some(bytes) => ServingCloses(cfg, s, Fuller(c, bytes, env.now), env))
    case Writable =>
      || env.sent.SendError?
      || (env.sent.n < |c.unsent| && c.fd in env.refused)
      || (env.sent.n >= |c.unsent| && (s.draining || ServingCloses(cfg, s, Longer(c, env.sent.n), env)))
  }

  /** Why a step closes an open connection; `Overrun` takes all of them with it. */
  predicate Reason(cfg: Config, s: State, step: Step, id: nat)
    requires id < |s.all|
  {
    var c := s.all[id];
    match step
    case HandleEvent(env) =>
      && s.batch != []
      && (match s.batch[0]
          case Client(_, i, kind) =>
            NextOverruns(cfg, s, env) || (i == id && EventCloses(cfg, s, c, kind, env))
          case Wakeup => c.fd in env.refused && exists t | t in s.completed :: t.id == id
          case Incoming => false)
    case Finish(now, _) => SweepDue(s, now) && Overdue(cfg, c, now)
    case TearDown => true
    case _ => false
  }

  /** Whether the end of a batch looks at the timeouts: while draining, or a second after it last did. */
  predicate SweepDue(s: State, now: int)
  {
    s.draining || s.stopRequested || now - s.lastSweep >= 1000
  }

  // --- The end of a batch ------------------------------------------------------------------------------------------

  lemma SweepDueIs(s: State, now: int)
    ensures Elapsed(now, s.lastSweep) >= 1 <==> now - s.lastSweep >= 1000
  {
  }

  /** The state after the decision to drain, spelled out. */
  lemma DrainBegins(cfg: Config, s: State, now: int)
    ensures var t := BeginDrain(cfg, s, now);
            && t.draining == (s.draining || s.stopRequested)
            && t == s.(draining := t.draining, listening := t.listening, deadline := t.deadline)
            && (t.draining && !s.draining ==> !t.listening && t.deadline == now + 1000 * cfg.grace)
            && (t.draining == s.draining ==> t.listening == s.listening && t.deadline == s.deadline)
  {
  }

  lemma SweepFrame(cfg: Config, s: State, now: int, sent: nat -> nat)
    ensures var t := Sweep(cfg, s, now, sent);
            |t.all| == |s.all| && t == s.(all := t.all, conns := t.conns, active := t.active, lastSweep := now)
  {
  }

  lemma EndBatchDrains(cfg: Config, s: State, now: int, sent: nat -> nat)
    ensures var t := EndBatch(cfg, s, now, sent);
            && t.draining == (s.draining || s.stopRequested)
            && (t.draining && !s.draining ==> !t.listening && t.deadline == now + 1000 * cfg.grace)
            && (t.draining == s.draining ==> t.listening == s.listening && t.deadline == s.deadline)
            && |t.all| == |s.all|
  {
    DrainBegins(cfg, s, now);
    SweepFrame(cfg, BeginDrain(cfg, s, now), now, sent);
    hide BeginDrain, Sweep, DrainEnds;
  }

  /** A stop request starts the drain: the end of the batch stops accepting and sets the deadline. */
  lemma StopIsActedOn(cfg: Config, s: State, now: int, sent: nat -> nat)
    requires Enabled(cfg, s, Finish(now, sent))
    ensures var t := Apply(cfg, s, Finish(now, sent));
            && t.draining == (s.draining || s.stopRequested)
            && (t.draining && !s.draining ==> !t.listening && t.deadline == now + 1000 * cfg.grace)
            && (t.draining == s.draining ==> t.listening == s.listening && t.deadline == s.deadline)
            && |t.all| == |s.all|
  {
    EndBatchDrains(cfg, s, now, sent);
    hide EndBatch;
  }

  predicate InHand(c: Conn) { c.open && (c.processing || c.unsent != "") }

  lemma InHandIs(s: State)
    requires MapOk(s.all, s.conns)
    ensures WorkInFlight(s) <==> exists id | 0 <= id < |s.all| :: InHand(s.all[id])
  {
    if WorkInFlight(s) {
      var fd :| fd in s.conns && s.conns[fd] < |s.all| && HasWork(s.all[s.conns[fd]]);
      assert InHand(s.all[s.conns[fd]]);
    }
    if id :| 0 <= id < |s.all| && InHand(s.all[id]) {
      assert s.all[id].fd in s.conns && s.conns[s.all[id].fd] == id;
      assert HasWork(s.all[s.conns[s.all[id].fd]]);
    }
  }

  /** While draining, the loop ends exactly when no open connection has a request or a reply in hand, or the deadline
      has come; otherwise it goes on. */
  lemma DrainDecides(cfg: Config, s: State, now: int, sent: nat -> nat)
    requires Core(cfg, s, -1, []) && EndingOk(s) && Enabled(cfg, s, Finish(now, sent))
    ensures var t := Apply(cfg, s, Finish(now, sent));
            var inHand := exists id | 0 <= id < |t.all| :: InHand(t.all[id]);
            && t.ending == (if !t.draining then Going
                            else if !inHand then Clean
                            else if now >= t.deadline then Expired
                            else Going)
            && t.running == (t.ending == Going) && t.phase == Polling
  {
    CorePart(cfg, s, -1, []);
    DrainBegins(cfg, s, now);
    var b := BeginDrain(cfg, s, now);
    SweepFrame(cfg, b, now, sent);
    SweepMap(cfg, b, now, sent);
    hide BeginDrain, Sweep, WorkInFlight, Core, MapOk, InHand;
    var u := if b.draining || Elapsed(now, b.lastSweep) >= 1 then Sweep(cfg, b, now, sent) else b;
    InHandIs(u);
    assert Apply(cfg, s, Finish(now, sent)).all == u.all;
  }

  /** While draining, or a second after it last did, it closes every overdue connection after at most its notice, and
      no other. */
  lemma {:induction false} TimeoutsEnforced(cfg: Config, s: State, now: int, sent: nat -> nat, id: nat)
    requires Core(cfg, s, -1, []) && Enabled(cfg, s, Finish(now, sent)) && id < |s.all| && s.all[id].open
    ensures var t := Apply(cfg, s, Finish(now, sent));
            && t.lastSweep == (if SweepDue(s, now) then now else s.lastSweep) && id < |t.all|
            && var c, d := s.all[id], t.all[id];
               if SweepDue(s, now) && Overdue(cfg, c, now) then
                 !d.open && c.wire <= d.wire && d.wire[|c.wire|..] <= Told(c) && d.answers == c.answers
               else d == c
  {
    DrainBegins(cfg, s, now);
    SweepDueIs(s, now);
    var b := BeginDrain(cfg, s, now);
    DrainingCore(cfg, s, b);
    SweepFrame(cfg, b, now, sent);
    hide BeginDrain, Sweep, WorkInFlight, Core, Overdue, Told, Elapsed;
    if SweepDue(s, now) {
      SweepClosesTheOverdue(cfg, b, now, sent, id);
    }
  }

  lemma DrainingCore(cfg: Config, s: State, t: State)
    requires Core(cfg, s, -1, []) && s.batch == []
    requires t == s.(draining := t.draining, listening := t.listening, deadline := t.deadline)
    requires t.draining ==> !t.listening
    ensures Core(cfg, t, -1, [])
  {
    hide ConnsOk, MapOk, WorkOk, BatchOk, CoverOk;
    assert Work(t) == Work(s);
  }

  // --- Closed for a reason -----------------------------------------------------------------------------------------

  /** Of the connections only `i` has changed, and is open or not. */
  predicate OneChanged(s: State, t: State, i: nat, open: bool)
  {
    i < |s.all| == |t.all| && t.all[i].open == open && forall k | 0 <= k < |t.all| && k != i :: t.all[k] == s.all[k]
  }

  lemma BecameChanged(s: State, i: nat, c: Conn)
    requires i < |s.all|
    ensures OneChanged(s, Became(s, i, c), i, c.open)
  {
  }

  lemma AnsweredChanged(cfg: Config, s: State, i: nat, c: Conn, used: nat, request: Request, env: Env, t: State)
    requires i < |s.all| && used <= |c.buffer| && c.open && Answered(cfg, s, i, c, used, request, env, t)
    ensures OneChanged(s, t, i, Decision(cfg, s, env) == Dispatched || c.fd !in env.refused)
  {
    var verdict := Decision(cfg, s, env);
    WithAnswerKeeps(c, used, request, verdict);
    hide Became, WithAnswer, Counted, Replied;
    BecameChanged(Counted(s, verdict, Task(c.fd, i, |c.answers|, request)), i,
                  Replied(cfg, WithAnswer(c, used, request, verdict), verdict, env));
  }

  lemma WithAnswerKeeps(c: Conn, used: nat, request: Request, verdict: Verdict)
    requires used <= |c.buffer|
    ensures var d := WithAnswer(c, used, request, verdict); d.open == c.open && d.fd == c.fd
  {
  }

  lemma ServedOpen(cfg: Config, s: State, i: nat, c: Conn, env: Env, t: State)
    requires i < |s.all| && c.open && Served(cfg, s, i, c, env, t)
    ensures if Parse(c.buffer).Overrun? then AllLost(s, t) else OneChanged(s, t, i, !ServingCloses(cfg, s, c, env))
  {
    hide Parse, Became, Answered, OneChanged, AllLost;
    match Parse(c.buffer)
    case Incomplete => BecameChanged(s, i, ArmedFor(c, Read, env.refused));
    case Failed => BecameChanged(s, i, c.(open := false, interest := Disabled));
    case Overrun =>
    case Complete(used, request) => AnsweredChanged(cfg, s, i, c, used, request, env, t);
  }

  /** Connection `id`, open before, is closed exactly if `closed`. */
  predicate Shut(s: State, t: State, id: nat, closed: bool)
  {
    id < |s.all| == |t.all| && (!t.all[id].open <==> closed)
  }

  predicate ReadOverruns(c: Conn, got: Option<string>, now: int)
  {
    got.Some? && Parse(Fuller(c, got.value, now).buffer).Overrun?
  }

  lemma ReadCloses(cfg: Config, s: State, c: Conn, env: Env)
    ensures var got := Delivered(env.recv, cfg.capacity - |c.buffer|);
            EventCloses(cfg, s, c, Readable, env) <==> got.None? || ServingCloses(cfg, s, Fuller(c, got.value, env.now), env)
  {
    hide ServingCloses, Fuller, Delivered;
  }

  lemma ReadOpen(cfg: Config, s: State, i: nat, env: Env, t: State, id: nat)
    requires i < |s.all| && id < |s.all| && s.all[i].open && s.all[id].open && ReadTo(cfg, s, i, env, t)
    ensures var got := Delivered(env.recv, cfg.capacity - |s.all[i].buffer|);
            Shut(s, t, id, ReadOverruns(s.all[i], got, env.now) || (i == id && EventCloses(cfg, s, s.all[i], Readable, env)))
  {
    hide OneChanged, AllLost, Parse, Served, Fuller, Delivered, ServingCloses, EventCloses, Shut, Became;
    var c := s.all[i];
    var got := Delivered(env.recv, cfg.capacity - |c.buffer|);
    ReadCloses(cfg, s, c, env);
    if got.Some? {
      var d := Fuller(c, got.value, env.now);
      FullerKeeps(c, got.value, env.now);
      ServedOpen(cfg, s, i, d, env, t);
      ServingOverrun(cfg, s, d, env);
      if Parse(d.buffer).Overrun? {
        LostOpen(s, t, id);
      } else {
        ChangedOpen(s, t, i, !ServingCloses(cfg, s, d, env), id);
      }
    } else {
      BecameChanged(s, i, c.(open := false, interest := Disabled));
      ChangedOpen(s, t, i, false, id);
    }
  }

  lemma LostOpen(s: State, t: State, id: nat)
    requires AllLost(s, t) && id < |s.all|
    ensures Shut(s, t, id, true)
  {
  }

  lemma ServingOverrun(cfg: Config, s: State, c: Conn, env: Env)
    ensures Parse(c.buffer).Overrun? ==> !ServingCloses(cfg, s, c, env)
  {
    hide Parse;
  }

  lemma SameServing(cfg: Config, s: State, c: Conn, d: Conn, env: Env)
    requires c.buffer == d.buffer && c.fd == d.fd
    ensures ServingCloses(cfg, s, c, env) == ServingCloses(cfg, s, d, env)
  {
    hide Parse;
  }

  lemma LongerParts(c: Conn, n: nat)
    ensures var d := Longer(c, n);
            d.buffer == c.buffer && d.fd == c.fd && d.open == c.open && (d.unsent != "" <==> n < |c.unsent|)
  {
  }

  lemma WriteOpen(cfg: Config, s: State, i: nat, env: Env, t: State, id: nat)
    requires i < |s.all| && id < |s.all| && s.all[i].open && s.all[id].open && WriteTo(cfg, s, i, env, t)
    ensures var c := s.all[i];
            Shut(s, t, id, (env.sent.Sent? && env.sent.n >= |c.unsent| && !s.draining && Parse(c.buffer).Overrun?)
                           || (i == id && EventCloses(cfg, s, c, Writable, env)))
  {
    var c, d := s.all[i], Longer(s.all[i], env.sent.n);
    LongerParts(c, env.sent.n);
    if env.sent.Sent? && env.sent.n >= |c.unsent| && !s.draining {
      var e := d.(processing := false, activity := env.now);
      SameServing(cfg, s, d, e, env);
      ServingOverrun(cfg, s, e, env);
      hide Parse, Served, Longer, ServingCloses, Became;
      ServedOpen(cfg, s, i, e, env, t);
    } else {
      hide Parse, Served, Longer, ServingCloses, OneChanged, WriteTo;
      WriteStays(cfg, s, i, env, t);
      hide EventCloses;
      ChangedOpen(s, t, i, !EventCloses(cfg, s, c, Writable, env), id);
    }
  }

  lemma ChangedOpen(s: State, t: State, i: nat, open: bool, id: nat)
    requires OneChanged(s, t, i, open) && id < |s.all| && s.all[id].open
    ensures Shut(s, t, id, i == id && !open)
  {
  }

  lemma WriteStays(cfg: Config, s: State, i: nat, env: Env, t: State)
    requires i < |s.all| && s.all[i].open && WriteTo(cfg, s, i, env, t)
    requires env.sent.SendError? || env.sent.n < |s.all[i].unsent| || s.draining
    ensures OneChanged(s, t, i, !EventCloses(cfg, s, s.all[i], Writable, env))
  {
    var d := Longer(s.all[i], env.sent.n);
    LongerParts(s.all[i], env.sent.n);
    hide Parse, Served, Longer, ServingCloses, Became, OneChanged;
    var w := d.(activity := if env.sent.Sent? && env.sent.touched then env.now else d.activity);
    BecameChanged(s, i, ArmedFor(w, Write, env.refused));
    BecameChanged(s, i, w.(open := false, interest := Disabled));
    BecameChanged(s, i, d.(open := false, interest := Disabled));
  }

  /** The same in the state before the event was taken off the batch. */
  lemma EventClosesPopped(cfg: Config, s: State, c: Conn, kind: Kind, env: Env)
    requires s.batch != []
    ensures EventCloses(cfg, Popped(s), c, kind, env) == EventCloses(cfg, s, c, kind, env)
  {
    hide Parse, Delivered, Longer;
  }

  lemma ClientReason(cfg: Config, s: State, env: Env, id: nat)
    requires Core(cfg, s, -1, []) && Enabled(cfg, s, HandleEvent(env)) && s.batch[0].Client?
    requires id < |s.all| && s.all[id].open
    ensures var t := Apply(cfg, s, HandleEvent(env));
            |t.all| == |s.all| && (!t.all[id].open <==> Reason(cfg, s, HandleEvent(env), id))
  {
    var i, kind := s.batch[0].id, s.batch[0].kind;
    ClientId(cfg, s);
    EventIs(cfg, s, i, kind);
    hide Core, MapOk, Reason;
    match kind
    case Hangup => HangupReason(cfg, s, i, env, id);
    case Readable => ReadReason(cfg, s, i, env, id);
    case Writable => WriteReason(cfg, s, i, env, id);
  }

  lemma HangupReason(cfg: Config, s: State, i: nat, env: Env, id: nat)
    requires Core(cfg, s, -1, []) && EventOf(s, i, Hangup) && Enabled(cfg, s, HandleEvent(env))
    requires id < |s.all| && s.all[id].open && s.all[i].open
    ensures var t := Apply(cfg, s, HandleEvent(env));
            |t.all| == |s.all| && (!t.all[id].open <==> Reason(cfg, s, HandleEvent(env), id))
  {
    HangupCloses(cfg, s, s.all[i], env);
    HangupEvent(cfg, s, i, env);
    BecameChanged(Popped(s), i, s.all[i].(open := false, interest := Disabled));
    ReasonOf(cfg, s, i, Hangup, env, id);
    assert !NextOverruns(cfg, s, env);
    hide Core, Apply, Became, EventCloses, Enabled, Reason, NextOverruns;
  }

  lemma ReadReason(cfg: Config, s: State, i: nat, env: Env, id: nat)
    requires Core(cfg, s, -1, []) && EventOf(s, i, Readable) && Enabled(cfg, s, HandleEvent(env))
    requires id < |s.all| && s.all[id].open && s.all[i].open
    ensures var t := Apply(cfg, s, HandleEvent(env));
            |t.all| == |s.all| && (!t.all[id].open <==> Reason(cfg, s, HandleEvent(env), id))
  {
    ReadableEvent(cfg, s, i, env);
    ReasonOf(cfg, s, i, Readable, env, id);
    hide Core, Apply, Enabled, Reason, ReadTo;
    ReadReasonOf(cfg, s, i, env, Apply(cfg, s, HandleEvent(env)), id);
  }

  lemma ReadReasonOf(cfg: Config, s: State, i: nat, env: Env, t: State, id: nat)
    requires EventOf(s, i, Readable) && id < |s.all| && s.all[id].open && s.all[i].open
    requires ReadTo(cfg, Popped(s), i, env, t)
    ensures Shut(s, t, id, NextOverruns(cfg, s, env) || (i == id && EventCloses(cfg, s, s.all[id], Readable, env)))
  {
    hide ReadTo, Delivered, ReadOverruns, EventCloses, NextOverruns, Shut, Parse;
    var c := s.all[i];
    EventClosesPopped(cfg, s, c, Readable, env);
    NextOfRead(cfg, s, i, env);
    ReadOpen(cfg, Popped(s), i, env, t, id);
    ShutPopped(s, t, id, NextOverruns(cfg, s, env) || (i == id && EventCloses(cfg, s, c, Readable, env)));
  }

  lemma ShutPopped(s: State, t: State, id: nat, closed: bool)
    requires s.batch != []
    ensures Shut(Popped(s), t, id, closed) <==> Shut(s, t, id, closed)
  {
  }

  lemma WriteReason(cfg: Config, s: State, i: nat, env: Env, id: nat)
    requires Core(cfg, s, -1, []) && EventOf(s, i, Writable) && Enabled(cfg, s, HandleEvent(env))
    requires id < |s.all| && s.all[id].open && s.all[i].open
    ensures var t := Apply(cfg, s, HandleEvent(env));
            |t.all| == |s.all| && (!t.all[id].open <==> Reason(cfg, s, HandleEvent(env), id))
  {
    EventClosesPopped(cfg, s, s.all[i], Writable, env);
    LongerParts(s.all[i], env.sent.n);
    WritableEvent(cfg, s, i, env);
    NextOfWrite(cfg, s, i, env);
    ReasonOf(cfg, s, i, Writable, env, id);
    hide Core, Apply, Parse, WriteTo, Longer, EventCloses, Enabled, NextOverruns, Reason;
    WriteOpen(cfg, Popped(s), i, env, Apply(cfg, s, HandleEvent(env)), id);
  }

  lemma ReasonOf(cfg: Config, s: State, i: nat, kind: Kind, env: Env, id: nat)
    requires EventOf(s, i, kind) && id < |s.all|
    ensures Reason(cfg, s, HandleEvent(env), id)
       <==> NextOverruns(cfg, s, env) || (i == id && EventCloses(cfg, s, s.all[id], kind, env))
  {
    hide NextOverruns, EventCloses;
  }

  lemma NextOfRead(cfg: Config, s: State, i: nat, env: Env)
    requires EventOf(s, i, Readable)
    ensures NextOverruns(cfg, s, env)
         == ReadOverruns(s.all[i], Delivered(env.recv, cfg.capacity - |s.all[i].buffer|), env.now)
  {
    hide Delivered, Fuller, Parse;
  }

  lemma NextOfWrite(cfg: Config, s: State, i: nat, env: Env)
    requires EventOf(s, i, Writable)
    ensures NextOverruns(cfg, s, env)
       <==> env.sent.Sent? && env.sent.n >= |s.all[i].unsent| && !s.draining && Parse(s.all[i].buffer).Overrun?
  {
    LongerParts(s.all[i], env.sent.n);
    hide Longer, Parse;
  }

  lemma HangupCloses(cfg: Config, s: State, c: Conn, env: Env)
    ensures EventCloses(cfg, s, c, Hangup, env)
  {
  }

  lemma ClientId(cfg: Config, s: State)
    requires Core(cfg, s, -1, []) && s.batch != [] && s.batch[0].Client?
    ensures s.batch[0].id < |s.all| && EventOf(s, s.batch[0].id, s.batch[0].kind)
  {
    hide ConnsOk, MapOk, WorkOk, CoverOk, LoopOk;
    assert EventOk(s.all, s.batch[0]);
  }

  /** One step closes an open connection exactly for a reason of the list. */
  lemma {:induction false} ClosedForReasonIff(cfg: Config, s: State, step: Step, id: nat)
    requires cfg.Valid() && Core(cfg, s, -1, []) && Enabled(cfg, s, step) && id < |s.all| && s.all[id].open
    ensures id < |Apply(cfg, s, step).all|
    ensures !Apply(cfg, s, step).all[id].open <==> Reason(cfg, s, step, id)
  {
    match step
    case HandleEvent(env) => HandledReason(cfg, s, env, id);
    case Finish(now, sent) =>
      hide Core, Apply, Overdue, SweepDue;
      TimeoutsEnforced(cfg, s, now, sent, id);
    case _ =>
      hide Core, Pollable, Handle, EndBatch;
  }

  lemma HandledReason(cfg: Config, s: State, env: Env, id: nat)
    requires cfg.Valid() && Core(cfg, s, -1, []) && Enabled(cfg, s, HandleEvent(env)) && id < |s.all| && s.all[id].open
    ensures id < |Apply(cfg, s, HandleEvent(env)).all|
    ensures !Apply(cfg, s, HandleEvent(env)).all[id].open <==> Reason(cfg, s, HandleEvent(env), id)
  {
    hide Core, Apply, EventCloses, NextOverruns;
    match s.batch[0]
    case Client(_, _, _) => ClientReason(cfg, s, env, id);
    case Wakeup => WakeupEvent(cfg, s, env, id);
    case Incoming =>
      IncomingEvent(cfg, s, env);
      var t := Apply(cfg, s, HandleEvent(env));
      assert t.all[id] == t.all[..|s.all|][id];
  }

  /** So over a whole run: a connection that is no longer open was closed by one step, for such a reason. */
  lemma {:induction false} ClosedOnlyForReason(cfg: Config, s: State, steps: seq<Step>, id: nat)
    returns (k: nat)
    requires cfg.Valid() && Core(cfg, s, -1, []) && Runs(cfg, s, steps) && id < |s.all| && s.all[id].open
    requires id >= |After(cfg, s, steps).all| || !After(cfg, s, steps).all[id].open
    ensures k < |steps| && Runs(cfg, s, steps[..k])
    ensures var u := After(cfg, s, steps[..k]);
            id < |u.all| && u.all[id].open && Reason(cfg, u, steps[k], id)
    decreases |steps|
  {
    hide Core, Enabled, Apply, Reason;
    if steps == [] {
      assert false;
    }
    var t := Apply(cfg, s, steps[0]);
    ClosedForReasonIff(cfg, s, steps[0], id);
    StepKeeps(cfg, s, steps[0]);
    if t.all[id].open {
      var j := ClosedOnlyForReason(cfg, t, steps[1..], id);
      k := j + 1;
      assert steps[..k][1..] == steps[1..][..j] && steps[..k][0] == steps[0] && steps[k] == steps[1..][j];
    } else {
      k := 0;
      assert steps[..0] == [];
    }
  }

  // --- Runs after a stop request --------------------------------------------------------------------------------------

  /** Once a stop was requested, no connection is accepted after the next end of a batch. */
  lemma StopsAccepting(cfg: Config, s: State, now: int, sent: nat -> nat, steps: seq<Step>)
    requires cfg.Valid() && Core(cfg, s, -1, []) && s.stopRequested && Enabled(cfg, s, Finish(now, sent))
    requires Runs(cfg, Apply(cfg, s, Finish(now, sent)), steps)
    ensures var t := After(cfg, Apply(cfg, s, Finish(now, sent)), steps);
            |t.all| == |s.all| && t.draining
  {
    hide Core, Enabled, Apply, Runs, After;
    StopIsActedOn(cfg, s, now, sent);
    StepKeeps(cfg, s, Finish(now, sent));
    NoAcceptAfterDraining(cfg, Apply(cfg, s, Finish(now, sent)), steps);
  }

  /** A stop request is not forgotten. */
  lemma {:induction false} StopRemembered(cfg: Config, s: State, steps: seq<Step>)
    requires cfg.Valid() && Core(cfg, s, -1, []) && Runs(cfg, s, steps) && s.stopRequested
    ensures After(cfg, s, steps).stopRequested
    decreases |steps|
  {
    hide Core, Enabled, Apply;
    if steps != [] {
      StepKeeps(cfg, s, steps[0]);
      StopStays(cfg, s, steps[0]);
      StopRemembered(cfg, Apply(cfg, s, steps[0]), steps[1..]);
    }
  }

  lemma StopStays(cfg: Config, s: State, step: Step)
    requires Core(cfg, s, -1, []) && Enabled(cfg, s, step) && s.stopRequested
    ensures Apply(cfg, s, step).stopRequested
  {
    hide Core, Apply, Enabled;
    StepSteady(cfg, s, step);
  }

  /** In a run from the start, an end of a batch at or past the deadline of a drain ends the loop. */
  lemma DeadlineEndsLoop(cfg: Config, start: int, steps: seq<Step>, now: int, sent: nat -> nat)
    requires cfg.Valid() && Runs(cfg, Start(start), steps)
    requires Enabled(cfg, After(cfg, Start(start), steps), Finish(now, sent))
    requires After(cfg, Start(start), steps).draining && now >= After(cfg, Start(start), steps).deadline
    ensures !Apply(cfg, After(cfg, Start(start), steps), Finish(now, sent)).running
  {
    var s := After(cfg, Start(start), steps);
    Reachable(cfg, start, steps);
    StartOk(cfg, start);
    assert EndingOk(Start(start));
    RunEnding(cfg, Start(start), steps);
    hide Core, Enabled, Apply, Runs, After, EndingOk;
    StopIsActedOn(cfg, s, now, sent);
    DrainDecides(cfg, s, now, sent);
  }
}
