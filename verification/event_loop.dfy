/** The event loop and its workers as steps on one state: the loop thread polls, handles one event of the batch
    at a time and ends the batch with timeouts and draining; workers take tasks from the queue and push
    completions; any interleaving of these steps is a run. What the kernel, the clock, the peer and the handlers
    decide is a parameter of a step. */
module EventLoop {
  import opened Bytes
  import opened HttpSyntax
  import Framing

  // --- Entities -------------------------------------------------------------------------------------

  /** How a request was answered: by the rate limiter (429), by load shedding (503), or by a handler. */
  datatype Verdict = Limited | Shed | Dispatched

  datatype Answer = Answer(request: Request, verdict: Verdict)

  datatype Direction = Read | Write

  /** The one-shot registration of a descriptor: armed for one direction, or disabled until re-armed. */
  datatype Interest = Armed(direction: Direction) | Disabled

  /** A connection. `history`, `answers` and `wire` record what was received and parsed, which requests were
      taken and how each is answered, and what was written to the socket. */
  datatype Conn = Conn(
    fd: int,
    open: bool,
    interest: Interest,
    buffer: string,
    processing: bool,
    working: bool,
    since: int,
    activity: int,
    unsent: string,
    history: seq<Framing.Step>,
    answers: seq<Answer>,
    wire: string)

  /** What a worker gets, and what it hands back: the descriptor, the connection it was, and the request. */
  datatype Task = Task(fd: int, id: nat, index: nat, request: Request)

  /** An event of one `epoll_wait`. The loop sees only `fd`; `id` is the connection that was registered when
      the kernel reported it. */
  datatype Event = Wakeup | Incoming | Client(fd: int, id: nat, kind: Kind)

  datatype Kind = Readable | Writable | Hangup

  datatype Phase = Polling | Serving | Stopped

  datatype Ending = Going | Clean | Expired | Broken | Crashed

  datatype Config = Config(
    capacity: nat,
    maxHandlers: nat,
    readTimeout: int,
    writeTimeout: int,
    idleTimeout: int,
    handlerTimeout: int,
    grace: int,
    workers: nat,
    /** The bytes a handler's response to request `index` of connection `id` is written as. */
    handler: (nat, nat, Request) -> string,
    tooMany: string,
    unavailable: string)
  {
    /** A written response is never empty: it has a status line. */
    ghost predicate Valid()
    {
      && tooMany != "" && unavailable != ""
      && forall id: nat, index: nat, request: Request :: handler(id, index, request) != ""
    }
  }

  const REQUEST_TIMEOUT := "HTTP/1.1 408 Request Timeout\r\nConnection: close\r\nContent-Length: 0\r\n\r\n"
  const GATEWAY_TIMEOUT := "HTTP/1.1 504 Gateway Timeout\r\nConnection: close\r\nContent-Length: 0\r\n\r\n"

  datatype State = State(
    /** Every connection accepted so far; its position is its identity. */
    all: seq<Conn>,
    /** `connections_`: the connection that owns each descriptor. */
    conns: map<int, nat>,
    queue: seq<Task>,
    /** Workers running a handler, workers that have pushed their completion but not yet signalled the loop, and
        workers that have signalled but not yet left the guard that counts them. */
    handling: seq<Task>,
    pushed: nat,
    leaving: nat,
    completed: seq<Task>,
    /** The wake-up pipe holds a byte; the kernel has an edge to report for it. */
    pipe: bool,
    edge: bool,
    batch: seq<Event>,
    phase: Phase,
    running: bool,
    ending: Ending,
    listening: bool,
    stopRequested: bool,
    draining: bool,
    deadline: int,
    lastSweep: int,
    accepted: nat,
    active: int,
    requests: nat,
    limited: nat,
    shed: nat,
    inFlight: int)

  function Start(now: int): State
  {
    State([], map[], [], [], 0, 0, [], false, false, [], Polling, true, Going, true, false, false, 0, now,
          0, 0, 0, 0, 0, 0)
  }

  function Fresh(fd: int, now: int): Conn
  {
    Conn(fd, true, Armed(Read), "", false, false, 0, now, "", [], [], "")
  }

  // --- Outcomes the environment decides ----------------------------------------------------------------

  datatype Recv = Data(chunk: string) | PeerClosed | WouldBlock | RecvError

  /** How many bytes one `write_data` put on the wire, and whether it came to its end or failed after them. */
  datatype SendResult = Sent(n: nat, touched: bool) | SendError(n: nat)

  /** What happens around the handling of one event: the time, the result of `recv` and of the sends, whether
      the limiter refuses the client, the descriptors whose re-arming fails, and the accepted descriptors. */
  datatype Env = Env(now: int, recv: Recv, sent: SendResult, limits: bool, refused: set<int>, accepted: seq<int>)

  // --- The loop's handlers ------------------------------------------------------------------------------

  function Update(s: State, id: nat, c: Conn): State
    requires id < |s.all|
  {
    s.(all := s.all[id := c])
  }

  /** The connection that owns a descriptor. */
  function Owner(s: State, fd: int): (r: Option<nat>)
    ensures r.Some? ==> r.value < |s.all|
  {
    if fd in s.conns && s.conns[fd] < |s.all| then Some(s.conns[fd]) else None
  }

  function Close(s: State, fd: int): State
  {
    match Owner(s, fd)
    case None => s
    case Some(id) =>
      Update(s, id, s.all[id].(open := false, interest := Disabled))
      .(conns := s.conns - {fd}, active := s.active - 1)
  }

  function Rearm(s: State, fd: int, direction: Direction, refused: set<int>): State
  {
    match Owner(s, fd)
    case None => s
    case Some(id) =>
      if fd in refused then Close(s, fd) else Update(s, id, s.all[id].(interest := Armed(direction)))
  }

  function Reply(cfg: Config, id: nat, index: nat, a: Answer): string
  {
    match a.verdict
    case Limited => cfg.tooMany
    case Shed => cfg.unavailable
    case Dispatched => cfg.handler(id, index, a.request)
  }

  /** The connection after its next request has been parsed out of its buffer. */
  function Taken(c: Conn, used: nat, request: Request, verdict: Verdict): (c': Conn)
    requires used <= |c.buffer|
    ensures |c'.answers| > 0
  {
    c.(buffer := c.buffer[used..], processing := true,
       history := c.history + [Framing.Serve], answers := c.answers + [Answer(request, verdict)])
  }

  /** A request answered by the loop itself, with 429 or 503. */
  function Reject(cfg: Config, s: State, fd: int, id: nat, used: nat, request: Request, verdict: Verdict,
                  refused: set<int>): State
    requires id < |s.all| && used <= |s.all[id].buffer|
  {
    var c := Taken(s.all[id], used, request, verdict);
    var unsent := Reply(cfg, id, |c.answers| - 1, Answer(request, verdict));
    Rearm(Update(s, id, c.(unsent := unsent)), fd, Write, refused)
  }

  function Dispatch(s: State, fd: int, id: nat, used: nat, request: Request, now: int): State
    requires id < |s.all| && used <= |s.all[id].buffer|
  {
    var c := Taken(s.all[id], used, request, Dispatched);
    Update(s, id, c.(working := true, since := now))
    .(queue := s.queue + [Task(fd, id, |c.answers| - 1, request)], inFlight := s.inFlight + 1)
  }

  function AllClosed(all: seq<Conn>): seq<Conn>
  {
    seq(|all|, id requires 0 <= id < |all| => all[id].(open := false, interest := Disabled))
  }

  /** The program does not survive a write outside the buffer: with it go its sockets, its queues and its workers. */
  function Crash(s: State): State
  {
    s.(all := AllClosed(s.all), conns := map[], queue := [], handling := [], pushed := 0, leaving := 0,
       completed := [], pipe := false, edge := false, batch := [], phase := Stopped, running := false,
       ending := Crashed, listening := false, inFlight := 0)
  }

  /** `dispatch_next`. */
  function DispatchNext(cfg: Config, s: State, fd: int, id: nat, env: Env): State
    requires id < |s.all|
  {
    var c := s.all[id];
    if c.processing then s
    else
      match Parse(c.buffer)
      case Incomplete => Rearm(s, fd, Read, env.refused)
      case Failed => Close(s, fd)
      case Overrun => Crash(s)
      case Complete(used, request) =>
        if env.limits then
          var t := s.(requests := s.requests + 1, limited := s.limited + 1);
          Reject(cfg, t, fd, id, used, request, Limited, env.refused)
        else if cfg.maxHandlers > 0 && s.inFlight >= cfg.maxHandlers then
          var t := s.(requests := s.requests + 1, shed := s.shed + 1);
          Reject(cfg, t, fd, id, used, request, Shed, env.refused)
        else
          Dispatch(s.(requests := s.requests + 1), fd, id, used, request, env.now)
  }

  /** What `recv` can deliver into a buffer with `room` bytes left; a full buffer reads as a closed peer. */
  function Received(recv: Recv, room: int): Recv
  {
    if room <= 0 then PeerClosed
    else
      match recv
      case Data(chunk) => if chunk == "" then PeerClosed else Data(if |chunk| <= room then chunk else chunk[..room])
      case _ => recv
  }

  /** The connection after `chunk` was read. */
  function Arrived(c: Conn, chunk: string, now: int): (c': Conn)
    ensures c'.open == c.open
  {
    c.(buffer := c.buffer + chunk, history := c.history + [Framing.Arrive(chunk)], activity := now)
  }

  /** Connection `id` after a read. */
  function Fed(s: State, id: nat, got: Recv, now: int): (t: State)
    requires id < |s.all|
    ensures |t.all| == |s.all|
  {
    if got.Data? then Update(s, id, Arrived(s.all[id], got.chunk, now)) else s
  }

  /** What `handle_client_data` does with an open connection. */
  function ReadNext(cfg: Config, s: State, fd: int, id: nat, env: Env): State
    requires id < |s.all|
  {
    var got := Received(env.recv, cfg.capacity - |s.all[id].buffer|);
    if got.PeerClosed? || got.RecvError? then Close(s, fd)
    else DispatchNext(cfg, Fed(s, id, got, env.now), fd, id, env)
  }

  /** `handle_client_data`. */
  function ClientData(cfg: Config, s: State, fd: int, env: Env): State
  {
    match Owner(s, fd)
    case None => s
    case Some(id) => if s.all[id].open then ReadNext(cfg, s, fd, id, env) else Close(s, fd)
  }

  /** The connection after a write of at most `n` of its unsent bytes. */
  function Written(c: Conn, n: nat, touched: bool, now: int): (c': Conn)
    ensures c'.open == c.open
  {
    var k := if n <= |c.unsent| then n else |c.unsent|;
    c.(wire := c.wire + c.unsent[..k], unsent := c.unsent[k..], activity := if touched then now else c.activity)
  }

  /** The second half of `handle_write_ready`, `c` being the connection after the write. */
  function AfterWrite(cfg: Config, s: State, fd: int, id: nat, c: Conn, env: Env): State
    requires id < |s.all|
  {
    if c.unsent != "" then Rearm(Update(s, id, c), fd, Write, env.refused)
    else if s.draining then Close(Update(s, id, c), fd)
    else DispatchNext(cfg, Update(s, id, c.(processing := false, activity := env.now)), fd, id, env)
  }

  /** What `handle_write_ready` does with an open connection. */
  function WriteNext(cfg: Config, s: State, fd: int, id: nat, env: Env): State
    requires id < |s.all|
  {
    match env.sent
    case SendError(n) => Close(Update(s, id, Written(s.all[id], n, false, env.now)), fd)
    case Sent(n, touched) => AfterWrite(cfg, s, fd, id, Written(s.all[id], n, touched, env.now), env)
  }

  /** `handle_write_ready`. */
  function WriteReady(cfg: Config, s: State, fd: int, env: Env): State
  {
    match Owner(s, fd)
    case None => s
    case Some(id) => if s.all[id].open then WriteNext(cfg, s, fd, id, env) else Close(s, fd)
  }

  /** One completion: dropped unless its connection still owns its descriptor. */
  function Deliver(cfg: Config, s: State, t: Task, refused: set<int>): State
  {
    match Owner(s, t.fd)
    case None => s
    case Some(id) =>
      if id != t.id || !s.all[id].open then s
      else
        var c := s.all[id].(working := false, unsent := cfg.handler(id, t.index, t.request));
        Rearm(Update(s, id, c), t.fd, Write, refused)
  }

  function DeliverAll(cfg: Config, s: State, ready: seq<Task>, refused: set<int>): State
    decreases |ready|
  {
    if ready == [] then s else DeliverAll(cfg, Deliver(cfg, s, ready[0], refused), ready[1..], refused)
  }

  /** `drain_wakeup`, then `process_completions`. */
  function Wake(cfg: Config, s: State, refused: set<int>): State
  {
    DeliverAll(cfg, s.(pipe := false, completed := []), s.completed, refused)
  }

  function Accept(s: State, fd: int, now: int): State
  {
    s.(all := s.all + [Fresh(fd, now)], conns := s.conns[fd := |s.all|],
       accepted := s.accepted + 1, active := s.active + 1)
  }

  /** `handle_new_connection`. */
  function AcceptAll(s: State, fds: seq<int>, now: int): State
    decreases |fds|
  {
    if fds == [] then s else AcceptAll(Accept(s, fds[0], now), fds[1..], now)
  }

  /** One event of the batch. */
  function Handle(cfg: Config, s: State, env: Env): State
    requires s.batch != []
  {
    var t := s.(batch := s.batch[1..]);
    match s.batch[0]
    case Wakeup => Wake(cfg, t, env.refused)
    case Incoming => AcceptAll(t, env.accepted, env.now)
    case Client(fd, _, Hangup) => Close(t, fd)
    case Client(fd, _, Readable) => ClientData(cfg, t, fd, env)
    case Client(fd, _, Writable) => WriteReady(cfg, t, fd, env)
  }

  // --- The end of a batch ---------------------------------------------------------------------------------

  /** Whole seconds from `t` to `now`, times being in milliseconds. */
  function Elapsed(now: int, t: int): int { (now - t) / 1000 }

  /** What the timeout sweep does with a connection: nothing, 408 or 504 before closing it, or just closing. */
  datatype Fate = Keep | Late408 | Late504 | Drop

  function FateOf(cfg: Config, c: Conn, now: int): Fate
  {
    var idle := Elapsed(now, c.activity);
    if c.working then
      if cfg.handlerTimeout > 0 && Elapsed(now, c.since) > cfg.handlerTimeout then Late504 else Keep
    else if c.unsent != "" then
      if cfg.writeTimeout > 0 && idle > cfg.writeTimeout then Drop else Keep
    else if c.processing then Keep
    else if c.buffer != "" then
      if cfg.readTimeout > 0 && idle > cfg.readTimeout then Late408 else Keep
    else
      if cfg.idleTimeout > 0 && idle > cfg.idleTimeout then Drop else Keep
  }

  function Notice(fate: Fate): string
  {
    match fate
    case Late408 => REQUEST_TIMEOUT
    case Late504 => GATEWAY_TIMEOUT
    case _ => ""
  }

  /** A connection closed by the sweep, after at most `n` bytes of its notice were sent. */
  function Expire(c: Conn, fate: Fate, n: nat): Conn
  {
    var notice := Notice(fate);
    c.(open := false, interest := Disabled, wire := c.wire + if n <= |notice| then notice[..n] else notice)
  }

  /** The connections the sweep closes. */
  predicate Swept(cfg: Config, s: State, id: nat, now: int)
    requires id < |s.all|
  {
    s.all[id].open && FateOf(cfg, s.all[id], now) != Keep
  }

  /** `enforce_timeouts`; `sent` says how much of each notice the socket took. */
  function Sweep(cfg: Config, s: State, now: int, sent: nat -> nat): State
  {
    var all := seq(|s.all|, id requires 0 <= id < |s.all| =>
      if Swept(cfg, s, id, now) then Expire(s.all[id], FateOf(cfg, s.all[id], now), sent(id)) else s.all[id]);
    var conns := map fd | fd in s.conns && !(s.conns[fd] < |s.all| && Swept(cfg, s, s.conns[fd], now)) :: s.conns[fd];
    s.(all := all, conns := conns, active := s.active - (|s.conns| - |conns|), lastSweep := now)
  }

  predicate HasWork(c: Conn) { c.processing || c.unsent != "" }

  predicate WorkInFlight(s: State)
  {
    exists fd | fd in s.conns :: s.conns[fd] < |s.all| && HasWork(s.all[s.conns[fd]])
  }

  function BeginDrain(cfg: Config, s: State, now: int): State
  {
    if !s.draining && s.stopRequested then
      s.(draining := true, listening := false, deadline := now + 1000 * cfg.grace)
    else s
  }

  /** Whether a draining loop ends: with no work in flight, or at the deadline. */
  function DrainEnds(s: State, now: int): Ending
  {
    if !s.draining then s.ending
    else if !WorkInFlight(s) then Clean
    else if now >= s.deadline then Expired
    else s.ending
  }

  /** What `run` does once the batch is handled. */
  function EndBatch(cfg: Config, s: State, now: int, sent: nat -> nat): State
  {
    var t := BeginDrain(cfg, s, now);
    var u := if t.draining || Elapsed(now, t.lastSweep) >= 1 then Sweep(cfg, t, now, sent) else t;
    Ended(u, DrainEnds(u, now))
  }

  function Ended(s: State, ending: Ending): State
  {
    s.(phase := Polling, ending := ending, running := s.running && ending == Going)
  }

  // --- Steps ----------------------------------------------------------------------------------------------

  datatype Step =
    | Poll(events: seq<Event>)
    | PollFails
    | HandleEvent(env: Env)
    | Finish(now: int, sent: nat -> nat)
    | TearDown
    | TakeTask
    | Push(k: nat)
    | Notify(full: bool)
    | Leave
    | RequestStop(full: bool)

  predicate Reportable(s: State, e: Event)
  {
    match e
    case Wakeup => s.edge
    case Incoming => s.listening
    case Client(fd, id, kind) =>
      && fd in s.conns && s.conns[fd] == id && id < |s.all| && s.all[id].interest.Armed?
      && (kind == Readable ==> s.all[id].interest == Armed(Read))
      && (kind == Writable ==> s.all[id].interest == Armed(Write))
  }

  /** What one `epoll_wait` may report: distinct sources that are ready to be reported. */
  predicate Pollable(s: State, events: seq<Event>)
  {
    && (forall i | 0 <= i < |events| :: Reportable(s, events[i]))
    && (forall i, j | 0 <= i < j < |events| :: !SameSource(events[i], events[j]))
  }

  predicate SameSource(d: Event, e: Event)
  {
    d == e || (d.Client? && e.Client? && d.fd == e.fd)
  }

  predicate Reported(events: seq<Event>, id: nat)
  {
    exists i | 0 <= i < |events| :: events[i].Client? && events[i].id == id
  }

  /** `accept` returns descriptors that are not open. */
  predicate Unused(s: State, fds: seq<int>)
  {
    && (forall i | 0 <= i < |fds| :: fds[i] !in s.conns)
    && (forall i, j | 0 <= i < j < |fds| :: fds[i] != fds[j])
  }

  predicate Enabled(cfg: Config, s: State, step: Step)
  {
    match step
    case Poll(events) => s.phase == Polling && s.running && Pollable(s, events)
    case PollFails => s.phase == Polling && s.running
    case HandleEvent(env) =>
      s.phase == Serving && s.batch != [] && (s.batch[0].Incoming? ==> Unused(s, env.accepted))
    case Finish(_, _) => s.phase == Serving && s.batch == []
    case TearDown => s.phase == Polling && !s.running
    case TakeTask => s.queue != [] && |s.handling| + s.pushed + s.leaving < cfg.workers
    case Push(k) => k < |s.handling|
    case Notify(full) => s.pushed > 0 && (full ==> s.pipe)
    case Leave => s.leaving > 0
    case RequestStop(full) => s.ending != Crashed && (full ==> s.pipe)
  }

  /** `notify_event_loop`: a full pipe already holds a byte. */
  function Signal(s: State, full: bool): State
  {
    if full then s else s.(pipe := true, edge := true)
  }

  function Without<T>(q: seq<T>, k: nat): seq<T>
    requires k < |q|
  {
    q[..k] + q[k + 1..]
  }

  /** `epoll_wait` disables what it reports. */
  function Disarmed(all: seq<Conn>, events: seq<Event>): seq<Conn>
  {
    seq(|all|, id requires 0 <= id < |all| =>
      if Reported(events, id) then all[id].(interest := Disabled) else all[id])
  }

  function Report(s: State, events: seq<Event>): State
  {
    s.(all := Disarmed(s.all, events), batch := events, edge := s.edge && Wakeup !in events, phase := Serving)
  }

  /** The end of `run`: every connection still open is dropped. */
  function DropAll(s: State): State
  {
    s.(all := AllClosed(s.all), conns := map[], listening := false, phase := Stopped)
  }

  function Apply(cfg: Config, s: State, step: Step): State
    requires Enabled(cfg, s, step)
  {
    match step
    case Poll(events) => Report(s, events)
    case PollFails => s.(running := false, ending := Broken)
    case HandleEvent(env) => Handle(cfg, s, env)
    case Finish(now, sent) => EndBatch(cfg, s, now, sent)
    case TearDown => DropAll(s)
    case TakeTask => s.(queue := s.queue[1..], handling := s.handling + [s.queue[0]])
    case Push(k) =>
      s.(handling := Without(s.handling, k), completed := s.completed + [s.handling[k]], pushed := s.pushed + 1)
    case Notify(full) => Signal(s.(pushed := s.pushed - 1, leaving := s.leaving + 1), full)
    case Leave => s.(leaving := s.leaving - 1, inFlight := s.inFlight - 1)
    case RequestStop(full) => Signal(s.(stopRequested := true), full)
  }
}
