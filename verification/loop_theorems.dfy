/** The promises of the server, for every reachable state of the event loop. */
module LoopTheorems {
  import opened Bytes
  import opened HttpSyntax
  import opened EventLoop
  import opened LoopSafety
  import opened LoopHistory
  import opened LoopEvents
  import ChunkSizes
  import Framing

  /** Every state some run reaches satisfies the invariant. */
  lemma {:induction false} Reachable(cfg: Config, now: int, steps: seq<Step>)
    requires cfg.Valid() && Runs(cfg, Start(now), steps)
    ensures Core(cfg, After(cfg, Start(now), steps), -1, [])
  {
    hide Core, Runs, After, Start;
    StartOk(cfg, now);
    RunKeeps(cfg, Start(now), steps);
  }

  // --- No connection is forgotten or served twice ------------------------------------------------------

  function TasksOf(tasks: seq<Task>, id: nat): nat
  {
    if tasks == [] then 0 else (if tasks[0].id == id then 1 else 0) + TasksOf(tasks[1..], id)
  }

  function EventsOf(events: seq<Event>, id: nat): nat
  {
    if events == [] then 0
    else (if events[0].Client? && events[0].id == id then 1 else 0) + EventsOf(events[1..], id)
  }

  lemma {:induction false} TasksOfIs(tasks: seq<Task>, t: Task)
    requires forall u | u in tasks :: u.id == t.id ==> u == t
    ensures TasksOf(tasks, t.id) == multiset(tasks)[t]
  {
    if tasks != [] {
      assert tasks == [tasks[0]] + tasks[1..];
      assert tasks[0] in tasks;
      TasksOfIs(tasks[1..], t);
    }
  }

  lemma {:induction false} NoTasksOf(tasks: seq<Task>, id: nat)
    requires forall u | u in tasks :: u.id != id
    ensures TasksOf(tasks, id) == 0
  {
    if tasks != [] {
      assert tasks[0] in tasks;
      NoTasksOf(tasks[1..], id);
    }
  }

  lemma OnlyFirst(events: seq<Event>, id: nat)
    requires events != [] && !Reported(events[1..], id)
    ensures Reported(events, id) <==> events[0].Client? && events[0].id == id
  {
    forall i | 0 < i < |events|
      ensures !(events[i].Client? && events[i].id == id)
    {
      assert events[1..][i - 1] == events[i];
    }
  }

  lemma {:induction false} EventsOfIs(events: seq<Event>, id: nat)
    requires forall i, j | 0 <= i < j < |events| ::
               !(events[i].Client? && events[j].Client? && events[i].id == id && events[j].id == id)
    ensures EventsOf(events, id) == if Reported(events, id) then 1 else 0
  {
    if events != [] {
      var rest := events[1..];
      forall i, j | 0 <= i < j < |rest|
        ensures !(rest[i].Client? && rest[j].Client? && rest[i].id == id && rest[j].id == id)
      {
        assert rest[i] == events[i + 1] && rest[j] == events[j + 1];
      }
      EventsOfIs(rest, id);
      if Reported(rest, id) {
        var i :| 0 <= i < |rest| && rest[i].Client? && rest[i].id == id;
        assert events[i + 1] == rest[i] && events[0 + 1 + i].id == id;
      } else {
        OnlyFirst(events, id);
      }
    }
  }

  /** How many tasks and completions refer to a connection. */
  function References(s: State, id: nat): nat
  {
    TasksOf(s.queue, id) + TasksOf(s.handling, id) + TasksOf(s.completed, id)
  }

  /** What an open connection waits for: bytes to read; room to write its reply; its worker; or the loop, which
      has its event in the batch. */
  datatype Mode = ForRead | ForWrite | ForWorker | ForLoop

  predicate InMode(s: State, id: nat, mode: Mode)
    requires id < |s.all|
  {
    var c := s.all[id];
    match mode
    case ForRead =>
      c.interest == Armed(Read) && !c.processing && References(s, id) == 0 && EventsOf(s.batch, id) == 0
    case ForWrite =>
      c.interest == Armed(Write) && c.processing && c.unsent != "" && References(s, id) == 0
      && EventsOf(s.batch, id) == 0
    case ForWorker =>
      c.interest == Disabled && c.processing && c.unsent == "" && References(s, id) == 1 && EventsOf(s.batch, id) == 0
    case ForLoop => c.interest == Disabled && References(s, id) == 0 && EventsOf(s.batch, id) == 1
  }

  lemma ReferencesOf(s: State, id: nat)
    requires WorkOk(s.all, Work(s) + multiset([])) && id < |s.all|
    ensures References(s, id) <= 1
    ensures s.all[id].open ==> References(s, id) == if s.all[id].working then 1 else 0
  {
    var work := Work(s) + multiset([]);
    forall u | u in s.queue || u in s.handling || u in s.completed
      ensures TaskOk(s.all, u) && work[u] == 1
    {
      assert u in work;
    }
    var c := s.all[id];
    hide Work, TaskOf;
    if c.answers != [] && TaskOf(id, c) in work {
      var t := TaskOf(id, c);
      assert TaskOk(s.all, t) && t.id == id;
      TasksOfIs(s.queue, t);
      TasksOfIs(s.handling, t);
      TasksOfIs(s.completed, t);
      WorkCount(s, t);
    } else {
      NoTask(s, id);
    }
  }

  lemma WorkCount(s: State, t: Task)
    ensures (Work(s) + multiset([]))[t] == multiset(s.queue)[t] + multiset(s.handling)[t] + multiset(s.completed)[t]
  {
  }

  lemma NoTask(s: State, id: nat)
    requires WorkOk(s.all, Work(s) + multiset([])) && id < |s.all| && !HasTask(id, s.all[id], Work(s) + multiset([]))
    ensures References(s, id) == 0 && !(s.all[id].open && s.all[id].working)
  {
    forall u | u in s.queue || u in s.handling || u in s.completed
      ensures u.id != id
    {
      assert u in Work(s) + multiset([]);
      assert TaskOk(s.all, u);
    }
    NoTasksOf(s.queue, id);
    NoTasksOf(s.handling, id);
    NoTasksOf(s.completed, id);
  }

  lemma EventsOfConn(all: seq<Conn>, batch: seq<Event>, id: nat)
    requires BatchOk(all, batch, -1) && CoverOk(all, batch, -1) && id < |all|
    ensures EventsOf(batch, id) == if Waiting(all[id]) then 1 else 0
  {
    forall i, j | 0 <= i < j < |batch|
      ensures !(batch[i].Client? && batch[j].Client? && batch[i].id == id && batch[j].id == id)
    {
      assert EventOk(all, batch[i]) && EventOk(all, batch[j]) && !SameSource(batch[i], batch[j]);
    }
    EventsOfIs(batch, id);
    if Reported(batch, id) {
      var i :| 0 <= i < |batch| && batch[i].Client? && batch[i].id == id;
      assert EventOk(all, batch[i]);
    }
  }

  function ModeOf(c: Conn): Mode
  {
    if c.interest == Armed(Read) then ForRead
    else if c.interest == Armed(Write) then ForWrite
    else if c.working then ForWorker
    else ForLoop
  }

  lemma ModeIs(s: State, id: nat, mode: Mode)
    requires id < |s.all| && s.all[id].open && ModeOk(s.all[id])
    requires References(s, id) == if s.all[id].working then 1 else 0
    requires EventsOf(s.batch, id) == if Waiting(s.all[id]) then 1 else 0
    ensures InMode(s, id, mode) <==> mode == ModeOf(s.all[id])
  {
    hide References, EventsOf;
    match s.all[id].interest
    case Disabled =>
    case Armed(Read) =>
    case Armed(Write) =>
  }

  /** In every reachable state each open connection is in exactly one mode, so it is neither forgotten nor
      served twice, and any connection is referred to by at most one task or completion. */
  lemma {:induction false} ExactlyOneMode(cfg: Config, now: int, steps: seq<Step>, id: nat)
    requires cfg.Valid() && Runs(cfg, Start(now), steps)
    ensures var s := After(cfg, Start(now), steps);
            id < |s.all| ==>
              && References(s, id) <= 1
              && (s.all[id].open ==> forall mode :: InMode(s, id, mode) <==> mode == ModeOf(s.all[id]))
  {
    Reachable(cfg, now, steps);
    var s := After(cfg, Start(now), steps);
    hide Runs, After, Start, LoopOk, MapOk, Work, WorkOk, BatchOk, CoverOk, References, EventsOf, InMode, ModeOf;
    if id < |s.all| {
      OneConn(cfg, s.all, id);
      ConnParts(cfg, id, s.all[id]);
      ReferencesOf(s, id);
      EventsOfConn(s.all, s.batch, id);
      hide Core, ConnsOk, ConnOk, SessionOk, WireOk;
      if s.all[id].open {
        forall mode: Mode
          ensures InMode(s, id, mode) <==> mode == ModeOf(s.all[id])
        {
          ModeIs(s, id, mode);
        }
      }
    }
  }

  // --- The bytes on the wire -----------------------------------------------------------------------------

  /** On every connection the bytes written are the full replies to its own first requests in order, and then
      at most a part of the next reply, or, once it is closed, a part of one 408 or 504; and its requests are
      the first ones of the stream it received, however the stream was cut. */
  lemma {:induction false} OwnRepliesInOrder(cfg: Config, now: int, steps: seq<Step>, id: nat)
    requires cfg.Valid() && Runs(cfg, Start(now), steps)
    ensures var s := After(cfg, Start(now), steps);
            id < |s.all| ==>
              var c := s.all[id];
              && WireOk(cfg, id, c)
              && (Framing.ClearOfLimit(Framing.Arrived(c.history)) ==>
                    Requests(c.answers) <= Framing.ReadStream(Framing.Arrived(c.history)).requests)
  {
    hide Core, Runs, After, Start, Framing.ClearOfLimit, WireOk;
    Reachable(cfg, now, steps);
    var s := After(cfg, Start(now), steps);
    CorePart(cfg, s, -1, []);
    if id < |s.all| {
      OneConn(cfg, s.all, id);
      ConnParts(cfg, id, s.all[id]);
      TakenFromStream(s.all[id]);
    }
  }

  lemma TakenFromStream(c: Conn)
    requires SessionOk(c)
    ensures Framing.ClearOfLimit(Framing.Arrived(c.history)) ==>
              Requests(c.answers) <= Framing.ReadStream(Framing.Arrived(c.history)).requests
  {
    hide Framing.ClearOfLimit, Framing.Run, Requests, Framing.ReadStream;
    var stream := Framing.Arrived(c.history);
    assert stream + "" == stream;
    if Framing.ClearOfLimit(stream) {
      Framing.FragmentationIndependence(c.history, "");
    }
  }

  lemma CloseOthers(s: State, fd: int, i: nat)
    requires i < |s.all| && Owner(s, fd) != Some(i)
    ensures i < |Close(s, fd).all| && Close(s, fd).all[i] == s.all[i]
  {
  }

  lemma RearmOthers(s: State, fd: int, direction: Direction, refused: set<int>, i: nat)
    requires i < |s.all| && Owner(s, fd) != Some(i)
    ensures i < |Rearm(s, fd, direction, refused).all| && Rearm(s, fd, direction, refused).all[i] == s.all[i]
  {
    CloseOthers(s, fd, i);
    hide Close;
  }

  /** Delivering one completion changes no connection but its own, and that only while it is open. */
  lemma DeliverTouches(cfg: Config, s: State, t: Task, refused: set<int>, id: nat)
    requires id < |s.all| && (id != t.id || !s.all[id].open)
    ensures id < |Deliver(cfg, s, t, refused).all| && Deliver(cfg, s, t, refused).all[id] == s.all[id]
  {
    hide Rearm;
    if Owner(s, t.fd) == Some(t.id) && s.all[t.id].open {
      var c := s.all[t.id].(working := false, unsent := cfg.handler(t.id, t.index, t.request));
      RearmOthers(Update(s, t.id, c), t.fd, Write, refused, id);
    }
  }

  /** No late reply reaches a connection: whatever completions are waiting, one that is closed, or has none among
      them, stays as it is, even when it holds a descriptor that some completion was meant for. */
  lemma {:induction false} LateRepliesDropped(cfg: Config, s: State, ready: seq<Task>, refused: set<int>, id: nat)
    requires cfg.Valid() && Core(cfg, s, -1, ready) && id < |s.all|
    requires !s.all[id].open || forall t | t in ready :: t.id != id
    ensures id < |DeliverAll(cfg, s, ready, refused).all| && DeliverAll(cfg, s, ready, refused).all[id] == s.all[id]
    decreases |ready|
  {
    hide Deliver, Core;
    if ready != [] {
      assert ready[0] in ready;
      DeliverKeeps(cfg, s, ready, refused);
      DeliverTouches(cfg, s, ready[0], refused, id);
      LateRepliesDropped(cfg, Deliver(cfg, s, ready[0], refused), ready[1..], refused, id);
    }
  }

  // --- Timeouts -----------------------------------------------------------------------------------------

  /** More than `limit` whole seconds have passed since a time in milliseconds; a limit of 0 is none. */
  predicate Past(limit: int, since: int, now: int)
  {
    limit > 0 && now - since >= 1000 * (limit + 1)
  }

  lemma PastIs(limit: int, since: int, now: int)
    ensures Past(limit, since, now) <==> limit > 0 && Elapsed(now, since) > limit
  {
  }

  /** A connection is past the deadline of what it waits for: its worker, room to write, the rest of a request,
      or a next request. */
  predicate Overdue(cfg: Config, c: Conn, now: int)
  {
    match ModeOf(c)
    case ForWorker => Past(cfg.handlerTimeout, c.since, now)
    case ForWrite => Past(cfg.writeTimeout, c.activity, now)
    case ForRead =>
      if c.buffer != "" then Past(cfg.readTimeout, c.activity, now) else Past(cfg.idleTimeout, c.activity, now)
    case ForLoop => false
  }

  /** What an overdue connection is told: 504 when its worker is late, 408 when its request is, otherwise nothing. */
  function Told(c: Conn): string
  {
    if ModeOf(c) == ForWorker then GATEWAY_TIMEOUT
    else if ModeOf(c) == ForRead && c.buffer != "" then REQUEST_TIMEOUT
    else ""
  }

  lemma FateIs(cfg: Config, c: Conn, now: int)
    requires c.open && ModeOk(c) && !Waiting(c)
    ensures FateOf(cfg, c, now) != Keep <==> Overdue(cfg, c, now)
    ensures FateOf(cfg, c, now) != Keep ==> Notice(FateOf(cfg, c, now)) == Told(c)
  {
    PastIs(cfg.handlerTimeout, c.since, now);
    PastIs(cfg.writeTimeout, c.activity, now);
    PastIs(cfg.readTimeout, c.activity, now);
    PastIs(cfg.idleTimeout, c.activity, now);
    hide Elapsed, Past, REQUEST_TIMEOUT, GATEWAY_TIMEOUT;
    match c.interest
    case Disabled =>
    case Armed(Read) =>
    case Armed(Write) =>
  }

  /** At the end of a batch the sweep closes exactly the overdue connections, after at most their notice. */
  lemma {:induction false} SweepClosesTheOverdue(cfg: Config, s: State, now: int, sent: nat -> nat, id: nat)
    requires Core(cfg, s, -1, []) && s.batch == [] && id < |s.all| && s.all[id].open
    ensures var c, d := s.all[id], Sweep(cfg, s, now, sent).all[id];
            if Overdue(cfg, c, now) then
              !d.open && c.wire <= d.wire && d.wire[|c.wire|..] <= Told(c) && d.answers == c.answers
            else d == c
  {
    CorePart(cfg, s, -1, []);
    OneConn(cfg, s.all, id);
    ConnParts(cfg, id, s.all[id]);
    var c := s.all[id];
    assert !Waiting(c) by {
      assert !Reported(s.batch, id);
    }
    FateIs(cfg, c, now);
    SweptCloses(cfg, s, id, now, sent);
    hide Core, MapOk, ConnsOk, FateOf, Overdue, Told, Sweep, Notice, WireOk, SessionOk, ModeOk;
  }

  // --- Metrics ----------------------------------------------------------------------------------------------

  /** In every reachable state the in-flight gauge counts the queued tasks and the busy workers and stays within
      a positive cap; every request counted was limited, shed or dispatched; and while the loop runs the gauge of
      active connections is the size of the map. */
  lemma {:induction false} MetricsExact(cfg: Config, now: int, steps: seq<Step>)
    requires cfg.Valid() && Runs(cfg, Start(now), steps)
    ensures var s := After(cfg, Start(now), steps);
            && s.inFlight == |s.queue| + |s.handling| + s.pushed + s.leaving
            && (cfg.maxHandlers > 0 ==> s.inFlight <= cfg.maxHandlers)
            && s.requests == s.limited + s.shed + Tally(s.all, Dispatched)
            && s.limited == Tally(s.all, Limited) && s.shed == Tally(s.all, Shed)
            && s.accepted == |s.all|
            && (s.phase != Stopped ==> s.active == |s.conns|)
  {
    Reachable(cfg, now, steps);
    RunSteady(cfg, Start(now), steps);
    assert Balanced(Start(now));
    hide Runs, After, ConnsOk, MapOk, WorkOk, BatchOk, CoverOk, Tally;
  }

  /** A completion is never stranded: while one waits, the kernel has an edge of the wake-up pipe to report, or
      the batch still holds its event, or a worker is about to signal. */
  lemma {:induction false} CompletionsAreSignalled(cfg: Config, now: int, steps: seq<Step>)
    requires cfg.Valid() && Runs(cfg, Start(now), steps)
    ensures var s := After(cfg, Start(now), steps);
            s.completed != [] ==> s.edge || Wakeup in s.batch || s.pushed > 0
  {
    Reachable(cfg, now, steps);
    hide Runs, After, ConnsOk, MapOk, WorkOk, BatchOk, CoverOk;
  }

  /** When the loop ended because no work was in flight, every connection still open had the replies to all its
      requests written in full. */
  lemma {:induction false} CleanDrain(cfg: Config, now: int, steps: seq<Step>, id: nat)
    requires cfg.Valid() && Runs(cfg, Start(now), steps)
    ensures var s := After(cfg, Start(now), steps);
            s.ending == Clean && id < |s.all| && s.all[id].open ==>
              s.all[id].wire == Replies(cfg, id, s.all[id].answers)
  {
    Reachable(cfg, now, steps);
    StartOk(cfg, now);
    assert EndingOk(Start(now));
    RunEnding(cfg, Start(now), steps);
    var s := After(cfg, Start(now), steps);
    hide Runs, After, MapOk, WorkOk, BatchOk, CoverOk, LoopOk, SessionOk, Replies;
    if id < |s.all| {
      OneConn(cfg, s.all, id);
    }
  }

  /** The program crashes only over a connection whose buffer the parser overruns; so never while no buffer holds 16
      hexadecimal digits in a row. */
  lemma {:induction false} CrashesOnlyOnOverrun(cfg: Config, now: int, steps: seq<Step>)
    requires cfg.Valid() && Runs(cfg, Start(now), steps)
    ensures var s := After(cfg, Start(now), steps);
            && (s.ending == Crashed ==> exists id :: 0 <= id < |s.all| && Overruns(s, id))
            && ((forall id | 0 <= id < |s.all| :: ChunkSizes.NoLongNumber(s.all[id].buffer)) ==> s.ending != Crashed)
  {
    hide Runs, After, Parse, ChunkSizes.NoLongNumber;
    RunCrash(cfg, Start(now), steps);
    var s := After(cfg, Start(now), steps);
    forall id | 0 <= id < |s.all| && ChunkSizes.NoLongNumber(s.all[id].buffer)
      ensures !Overruns(s, id)
    {
      ChunkSizes.ShortSizesAreExact(s.all[id].buffer);
    }
  }

  /** Records are only added to: over any run the bytes on a wire, and the answers, grow at their end, and a
      closed connection's stay as they are. */
  lemma {:induction false} RecordsOnlyGrow(cfg: Config, s: State, steps: seq<Step>, id: nat)
    requires Runs(cfg, s, steps) && id < |s.all|
    ensures id < |After(cfg, s, steps).all| && Grown(s.all[id], After(cfg, s, steps).all[id])
  {
    RunSteady(cfg, s, steps);
    hide Balanced, Runs, After, Grown;
  }
}
