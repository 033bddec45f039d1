/** The server as an object that holds its connections, with their buffers and sockets, and whose methods change
    their fields step by step. It refines the state machine of `EventLoop`: whatever the sockets take and the
    handlers return, each turn of the loop is one of its steps. */
module Servers {
  import opened Bytes
  import opened HttpSyntax
  import opened HttpParsing
  import opened HttpRequests
  import opened HttpResponses
  import opened EventLoop
  import opened LoopSafety
  import opened LoopEvents
  import opened LoopTheorems
  import opened Channels
  import opened ConnectionTables
  import Connections
  import LoopOutcomes

  /** What a worker gets: a task, and the request object that holds its request. */
  datatype Job = Job(task: Task, request: HttpRequest)

  function JobTasks(jobs: seq<Job>): (tasks: seq<Task>)
    ensures |tasks| == |jobs|
  {
    seq(|jobs|, i requires 0 <= i < |jobs| => jobs[i].task)
  }

  /** Each job's request owns its bytes, and is among `objects` with them. */
  ghost predicate Owning(jobs: seq<Job>, objects: set<object>)
    reads objects
  {
    forall j | j in jobs ::
      j.request in objects && j.request.ownedStorage != null && j.request.ownedStorage in objects
      && j.request.Owns(j.task.request)
  }

  lemma MoreJobs(jobs: seq<Job>, job: Job)
    ensures JobTasks(jobs + [job]) == JobTasks(jobs) + [job.task]
  {
  }

  lemma LessJobs(jobs: seq<Job>, k: nat)
    requires k < |jobs|
    ensures JobTasks(Without(jobs, k)) == Without(JobTasks(jobs), k) && JobTasks(jobs[1..]) == JobTasks(jobs)[1..]
  {
  }

  /** What a worker hands back: its task, and the response with what it is serialised to. */
  datatype Finished = Finished(task: Task, response: HttpResponse, headers: string, disk: Option<string>)

  function Tasks(done: seq<Finished>): (tasks: seq<Task>)
    ensures |tasks| == |done|
  {
    seq(|done|, i requires 0 <= i < |done| => done[i].task)
  }

  class Server {
    const cfg: Config
    const table: ConnectionTable
    var queue: seq<Job>
    var handling: seq<Job>
    var pushed: nat
    var leaving: nat
    var completed: seq<Finished>
    var pipe: bool
    var edge: bool
    var batch: seq<Event>
    var phase: Phase
    var running: bool
    var ending: Ending
    var listening: bool
    var stopRequested: bool
    var draining: bool
    var deadline: int
    var lastSweep: int
    var requests: nat
    var limited: nat
    var shed: nat
    var inFlight: int
    /** The program has not crashed. */
    var alive: bool
    /** The objects handed to workers. */
    ghost var handed: set<object>

    /** The state of the state machine. */
    ghost function Now(): State
      reads this, table
    {
      State(table.all, table.connections, JobTasks(queue), JobTasks(handling), pushed, leaving, Tasks(completed),
            pipe, edge, batch, phase, running, ending, listening, stopRequested, draining, deadline, lastSweep,
            table.accepted, table.active, requests, limited, shed, inFlight)
    }

    /** The connections are as the state says, and the server is not one of their parts. */
    ghost predicate Ready(loose: int)
      reads table, table.objects
    {
      table.Valid(loose) && this !in table.objects && cfg.capacity == Connections.READ_BUFFER_SIZE
    }

    /** The state after a step; one that does not survive it has crashed. */
    ghost function StateAfter(survives: bool): State
      reads this, table
    {
      if survives then Now() else EventLoop.Crash(Now())
    }

    /** Once the program has crashed, nothing is left of its memory and its sockets. */
    ghost function Machine(): State
      reads this, table
    {
      StateAfter(alive)
    }

    /** The loop does not touch the objects of the workers. */
    ghost predicate Apart()
      reads `queue, `handling, `handed, handed, table`objects
    {
      && handed !! table.objects && this !in handed && table !in handed
      && Owning(queue, handed) && Owning(handling, handed)
    }

    /** A finished response is what the handler answers to its task. */
    ghost predicate Serialises(f: Finished)
      reads f.response, table`objects
    {
      && f.response !in table.objects
      && WrittenAs(f.response, f.headers, f.disk, cfg.handler(f.task.id, f.task.index, f.task.request))
    }

    constructor (cfg: Config, now: int)
      requires cfg.capacity == Connections.READ_BUFFER_SIZE
      ensures this.cfg == cfg && alive && Now() == Start(now) && Sound()
    {
      this.cfg := cfg;
      table := new ConnectionTable();
      queue, handling, completed, batch := [], [], [], [];
      pushed, leaving, pipe, edge, phase, running, ending := 0, 0, false, false, Polling, true, Going;
      listening, stopRequested, draining, deadline, lastSweep := true, false, false, 0, now;
      requests, limited, shed, inFlight := 0, 0, 0, 0;
      alive, handed := true, {};
    }

    // --- One connection, in the state machine --------------------------------------------------------------

    /** Close the connection that owns a descriptor; `loose` is that connection if its parser has failed. */
    method CloseConnection(fd: int, ghost loose: int)
      requires Ready(loose)
      requires loose >= 0 ==> fd in table.connections && table.connections[fd] == loose
                              && table.channels[loose].View() == table.all[loose]
      modifies table`all, table`connections, table`active, table.objects
      ensures Ready(-1) && Now() == Close(old(Now()), fd)
    {
      hide Matches, Tasks, JobTasks, Close;
      hide Channel.View;
      table.CloseConnection(fd, loose, Now());
    }

    method RearmFor(fd: int, direction: Direction, refused: set<int>)
      requires Ready(-1)
      modifies table`all, table`connections, table`active, table.objects
      ensures Ready(-1) && Now() == Rearm(old(Now()), fd, direction, refused)
    {
      hide Matches, Tasks, JobTasks, Rearm;
      table.RearmFor(fd, direction, refused, Now());
    }

    method RejectRequest(fd: int, id: nat, used: nat, ghost request: Request, verdict: Verdict, refused: set<int>)
      requires Ready(id) && id < |table.channels| && table.Parsed(id, used, request) && verdict != Dispatched
      modifies table`all, table`connections, table`active, table.objects
      ensures Ready(-1) && used <= |old(table.all)[id].buffer|
      ensures Now() == Reject(cfg, old(Now()), fd, id, used, request, verdict, refused)
    {
      hide Matches, Tasks, JobTasks, Reject;
      hide Channel.View;
      hide Channel.Ahead;
      hide Channel.Holds;
      table.RejectRequest(cfg, fd, id, used, request, verdict, refused, Now());
    }

    /** The request takes its bytes with it, and the flags of a request in flight are set. */
    method TakeOver(fd: int, id: nat, used: nat, ghost request: Request, now: int) returns (job: Job)
      requires Ready(id) && id < |table.channels| && table.Parsed(id, used, request)
      modifies table`all, table.objects, table.channels[id].io.request
      ensures Ready(-1) && used <= |old(table.all)[id].buffer|
      ensures var c := Taken(old(table.all)[id], used, request, Dispatched);
              && Now() == Update(old(Now()), id, c.(working := true, since := now))
              && job.task == Task(fd, id, |c.answers| - 1, request)
      ensures job.request.Owns(request) && fresh(job.request) && fresh(job.request.ownedStorage)
    {
      hide Matches, Tasks, JobTasks;
      hide Channel.View;
      hide Channel.Repr;
      hide Channel.Ahead;
      hide Channel.Holds;
      var taken := table.Take(id, used, request, now);
      var index := table.LastAnswer(id);
      job := Job(Task(fd, id, index, taken.ValueIn(taken.ownedStorage[..])), taken);
    }

    method Enqueue(job: Job)
      requires Apart() && job.request.Owns(job.task.request)
      requires {job.request, job.request.ownedStorage} !! table.objects + {this, table}
      modifies `queue, `inFlight, `handed
      ensures Now() == old(Now()).(queue := old(JobTasks(queue)) + [job.task], inFlight := old(inFlight) + 1)
      ensures Apart()
    {
      var storage: array<char> := job.request.ownedStorage;
      MoreJobs(queue, job);
      hide Tasks, JobTasks;
      hide HttpRequest.Owns;
      inFlight := inFlight + 1;
      queue := queue + [job];
      handed := handed + {job.request, storage};
    }

    /** The counters of requests, after one with the verdict. */
    ghost function Counted(s: State, verdict: Verdict): State
    {
      match verdict
      case Limited => s.(requests := s.requests + 1, limited := s.limited + 1)
      case Shed => s.(requests := s.requests + 1, shed := s.shed + 1)
      case Dispatched => s.(requests := s.requests + 1)
    }

    method Count(verdict: Verdict)
      modifies `requests, `limited, `shed
      ensures Now() == Counted(old(Now()), verdict)
    {
      hide Tasks, JobTasks;
      requests := requests + 1;
      match verdict
      case Limited => limited := limited + 1;
      case Shed => shed := shed + 1;
      case Dispatched =>
    }

    // --- The next request of a connection ------------------------------------------------------------------

    method EnqueueHandler(fd: int, id: nat, used: nat, ghost request: Request, now: int)
      requires Apart() && (id < |table.channels| ==> table.channels[id].io.request !in handed)
      requires Ready(id) && id < |table.channels| && table.Parsed(id, used, request)
      modifies `queue, `handed, `inFlight, table`all, table.objects, table.channels[id].io.request
      ensures Apart()
      ensures Ready(-1) && used <= |old(table.all)[id].buffer|
      ensures Now() == Dispatch(old(Now()), fd, id, used, request, now)
    {
      ghost var s := Now();
      hide Owning, Matches;
      hide Channel.View;
      hide Channel.Repr;
      hide Channel.Ahead;
      hide Channel.Holds;
      hide Taken;
      var job := TakeOver(fd, id, used, request, now);
      Enqueue(job);
    }

    /** How `dispatch_next` deals with a parsed request. */
    lemma AnswerIs(s: State, fd: int, id: nat, used: nat, request: Request, env: Env, verdict: Verdict)
      requires id < |s.all| && !s.all[id].processing && Parse(s.all[id].buffer) == Outcome.Complete(used, request)
      requires verdict == if env.limits then Limited
                          else if cfg.maxHandlers > 0 && s.inFlight >= cfg.maxHandlers then Shed else Dispatched
      ensures used <= |s.all[id].buffer|
      ensures DispatchNext(cfg, s, fd, id, env)
           == if verdict == Dispatched then Dispatch(Counted(s, verdict), fd, id, used, request, env.now)
              else Reject(cfg, Counted(s, verdict), fd, id, used, request, verdict, env.refused)
    {
      hide Parse, Reject, Dispatch;
    }

    /** A parsed request is counted, and answered at once or handed to a worker. */
    method AnswerNext(fd: int, id: nat, used: nat, ghost request: Request, env: Env)
      requires Apart() && (id < |table.channels| ==> table.channels[id].io.request !in handed)
      requires Ready(id) && id < |table.channels| && table.Parsed(id, used, request) && !table.all[id].processing
      requires Parse(table.all[id].buffer) == Outcome.Complete(used, request)
      modifies `queue, `handed, `inFlight, `requests, `limited, `shed, table`all, table`connections, table`active
      modifies table.objects, table.channels[id].io.request
      ensures Apart()
      ensures Ready(-1) && Now() == DispatchNext(cfg, old(Now()), fd, id, env)
    {
      ghost var s := Now();
      hide Owning, Matches, Parse, Reject, Dispatch, DispatchNext, Server.Counted;
      hide Channel.View;
      hide Channel.Repr;
      hide Channel.Ahead;
      hide Channel.Holds;
      var verdict := if env.limits then Limited
                     else if cfg.maxHandlers > 0 && inFlight >= cfg.maxHandlers then Shed
                     else Dispatched;
      AnswerIs(s, fd, id, used, request, env, verdict);
      Count(verdict);
      if verdict == Dispatched {
        EnqueueHandler(fd, id, used, request, env.now);
      } else {
        RejectRequest(fd, id, used, request, verdict, env.refused);
      }
    }

    // --- `dispatch_next` ------------------------------------------------------------------------------------

    /** No request has been parsed: the parser needs more, has failed, or has left the buffer. */
    method NoRequest(fd: int, id: nat, env: Env) returns (survives: bool)
      requires fd in table.connections && table.connections[fd] == id && id < |table.channels| == |table.all|
      requires this !in table.objects && cfg.capacity == Connections.READ_BUFFER_SIZE
      requires !table.all[id].processing
      requires match Parse(table.all[id].buffer)
               case Incomplete => Ready(-1) && table.channels[id].Clear()
               case Failed => Ready(id) && table.channels[id].io.parser.state == ERROR
                              && table.channels[id].View() == table.all[id]
               case Overrun => table.channels[id].io.parser.state == OVERRUN
               case Complete(_, _) => false
      modifies table`all, table`connections, table`active, table.objects
      ensures survives ==> Ready(-1)
      ensures StateAfter(survives) == DispatchNext(cfg, old(Now()), fd, id, env)
    {
      hide Matches, Parse, Rearm, Close, EventLoop.Crash;
      hide Channel.View;
      if table.channels[id].io.parser.state == ERROR {
        CloseConnection(fd, id);
      } else if table.channels[id].io.parser.state == OVERRUN {
        return false;
      } else {
        RearmFor(fd, Read, env.refused);
      }
      return true;
    }

    /** `dispatch_next`. */
    method ServeNext(fd: int, id: nat, env: Env) returns (survives: bool)
      requires Apart()
      requires Ready(-1) && fd in table.connections && table.connections[fd] == id && id < |table.all|
      requires table.all[id].open
      modifies `queue, `handed, `inFlight, `requests, `limited, `shed
      modifies table`all, table`connections, table`active, table.objects
      ensures Apart()
      ensures survives ==> Ready(-1)
      ensures StateAfter(survives) == DispatchNext(cfg, old(Now()), fd, id, env)
    {
      hide Owning, Matches, Parse, Tasks, JobTasks, EventLoop.Crash;
      hide Channel.View;
      hide Channel.Ahead;
      hide Channel.Holds;
      var busy := table.IsProcessing(id);
      if busy {
        return true;
      }
      ghost var outcome := Parse(table.all[id].buffer);
      var ok, consumed := table.Next(id);
      hide DispatchNext;
      if ok {
        AnswerNext(fd, id, consumed, outcome.request, env);
        survives := true;
      } else {
        survives := NoRequest(fd, id, env);
      }
    }

    // --- Readable and writable sockets ---------------------------------------------------------------------

    /** Where the invariant holds with the descriptor's event in hand, the step settles its connection. */
    ghost predicate Settles(before: State, fd: int, kind: Kind, after: State)
    {
      cfg.Valid() && OnEvent(cfg, before, fd, kind) ==> Settled(cfg, before, after, before.conns[fd])
    }

    lemma ReadProperty(s: State, fd: int, env: Env)
      ensures Settles(s, fd, Readable, ClientData(cfg, s, fd, env))
    {
      hide OnEvent, Settled, ClientData;
      if cfg.Valid() && OnEvent(cfg, s, fd, Readable) {
        ReadSettles(cfg, s, fd, env);
      }
    }

    lemma WriteProperty(s: State, fd: int, env: Env)
      ensures Settles(s, fd, Writable, WriteReady(cfg, s, fd, env))
    {
      hide OnEvent, Settled, WriteReady;
      if cfg.Valid() && OnEvent(cfg, s, fd, Writable) {
        WriteSettles(cfg, s, fd, env);
      }
    }

    /** How both handlers begin: find the connection of the descriptor; one that is closed is dropped. */
    method OpenOwner(fd: int) returns (id: Option<nat>)
      requires Ready(-1)
      modifies table`all, table`connections, table`active, table.objects
      ensures Ready(-1)
      ensures match id
              case Some(i) => Owner(old(Now()), fd) == id && i < |table.all| && table.all[i].open && Now() == old(Now())
              case None => (Owner(old(Now()), fd) == None && Now() == old(Now()))
                           || (var i := Owner(old(Now()), fd);
                               i.Some? && !old(Now()).all[i.value].open && Now() == Close(old(Now()), fd))
    {
      hide Matches, Close;
      if fd !in table.connections || table.connections[fd] >= |table.channels| {
        return None;
      }
      var open := table.IsOpen(table.connections[fd]);
      if !open {
        CloseConnection(fd, -1);
        return None;
      }
      return Some(table.connections[fd]);
    }

    method Receive(id: nat, r: Recv, now: int) returns (n: int)
      requires Ready(-1) && id < |table.all|
      modifies table`all, table.objects
      ensures Ready(-1) && table.all[id].open == old(table.all)[id].open
      ensures var got := Received(r, cfg.capacity - |old(table.all)[id].buffer|);
              && (n == 0 || n == -1 <==> got.PeerClosed? || got.RecvError?)
              && Now() == Fed(old(Now()), id, got, now)
    {
      hide Matches, Tasks, JobTasks, Received;
      n := table.Receive(id, r, now);
    }

    /** `handle_client_data` on an open connection. */
    method ReadAndServe(fd: int, id: nat, env: Env) returns (survives: bool)
      requires Apart()
      requires Ready(-1) && fd in table.connections && table.connections[fd] == id && id < |table.all|
      requires table.all[id].open
      modifies `queue, `handed, `inFlight, `requests, `limited, `shed
      modifies table`all, table`connections, table`active, table.objects
      ensures Apart()
      ensures survives ==> Ready(-1)
      ensures StateAfter(survives) == ReadNext(cfg, old(Now()), fd, id, env)
    {
      hide Close, DispatchNext, EventLoop.Crash, Received, Arrived;
      var n := Receive(id, env.recv, env.now);
      survives := true;
      if n == 0 || n == -1 {
        CloseConnection(fd, -1);
      } else {
        survives := ServeNext(fd, id, env);
      }
    }

    /** `handle_client_data`. */
    method HandleClientData(fd: int, env: Env) returns (survives: bool)
      requires Apart()
      requires Ready(-1)
      modifies `queue, `handed, `inFlight, `requests, `limited, `shed
      modifies table`all, table`connections, table`active, table.objects
      ensures Apart()
      ensures survives ==> Ready(-1)
      ensures StateAfter(survives) == ClientData(cfg, old(Now()), fd, env)
      ensures Settles(old(Now()), fd, Readable, StateAfter(survives))
    {
      hide Server.Settles;
      hide Owning, Matches, Close, ReadNext, EventLoop.Crash;
      survives := true;
      var owner := OpenOwner(fd);
      if owner.Some? {
        survives := ReadAndServe(fd, owner.value, env);
      }
      ReadProperty(old(Now()), fd, env);
    }

    method Flush(id: nat, now: int) returns (failed: bool, ghost sent: SendResult)
      requires Ready(-1) && id < |table.all|
      modifies table`all, table.objects
      ensures Ready(-1) && (failed <==> sent.SendError?)
      ensures var c := Written(old(table.all)[id], sent.n, sent.Sent? && sent.touched, now);
              Now() == Update(old(Now()), id, c) && table.all[id] == c
    {
      hide Matches, Tasks, JobTasks, Written;
      failed, sent := table.Flush(id, now);
    }

    method Rest(id: nat, now: int)
      requires Ready(-1) && id < |table.all| && table.all[id].unsent == ""
      modifies table`all, table.objects
      ensures Ready(-1)
      ensures Now() == Update(old(Now()), id, old(table.all)[id].(processing := false, activity := now))
      ensures table.all[id].open == old(table.all)[id].open
    {
      hide Matches, Tasks, JobTasks;
      table.Rest(id, now);
    }

    /** The second half of `handle_write_ready`. */
    method FinishWrite(fd: int, id: nat, env: Env) returns (survives: bool)
      requires Apart()
      requires Ready(-1) && fd in table.connections && table.connections[fd] == id && id < |table.all|
      requires table.all[id].open
      modifies `queue, `handed, `inFlight, `requests, `limited, `shed
      modifies table`all, table`connections, table`active, table.objects
      ensures Apart()
      ensures survives ==> Ready(-1)
      ensures StateAfter(survives) == AfterWrite(cfg, old(Now()), fd, id, old(table.all)[id], env)
    {
      ghost var s := Now();
      Unchanged(s, id);
      hide Tasks, JobTasks, Owning, Matches, Close, Rearm, DispatchNext, EventLoop.Crash;
      var more := table.HasData(id);
      survives := true;
      if more {
        RearmFor(fd, Write, env.refused);
      } else if draining {
        CloseConnection(fd, -1);
      } else {
        Rest(id, env.now);
        survives := ServeNext(fd, id, env);
      }
    }

    /** `handle_write_ready` on an open connection; `sent` is what the socket made of the write. */
    method WriteAndServe(fd: int, id: nat, env: Env) returns (survives: bool, ghost sent: SendResult)
      requires Apart()
      requires Ready(-1) && fd in table.connections && table.connections[fd] == id && id < |table.all|
      requires table.all[id].open
      modifies `queue, `handed, `inFlight, `requests, `limited, `shed
      modifies table`all, table`connections, table`active, table.objects
      ensures Apart()
      ensures survives ==> Ready(-1)
      ensures StateAfter(survives) == WriteNext(cfg, old(Now()), fd, id, env.(sent := sent))
    {
      hide Owning, Matches, Close, AfterWrite, EventLoop.Crash, Written;
      ghost var s := Now();
      var failed;
      survives := true;
      failed, sent := Flush(id, env.now);
      if failed {
        CloseConnection(fd, -1);
      } else {
        AfterUpdate(s, fd, id, table.all[id], env, sent);
        survives := FinishWrite(fd, id, env);
      }
    }

    /** `handle_write_ready`. */
    method HandleWriteReady(fd: int, env: Env) returns (survives: bool, ghost sent: SendResult)
      requires Apart()
      requires Ready(-1)
      modifies `queue, `handed, `inFlight, `requests, `limited, `shed
      modifies table`all, table`connections, table`active, table.objects
      ensures Apart()
      ensures survives ==> Ready(-1)
      ensures StateAfter(survives) == WriteReady(cfg, old(Now()), fd, env.(sent := sent))
      ensures Settles(old(Now()), fd, Writable, StateAfter(survives))
    {
      hide Server.Settles;
      hide Owning, Matches, Close, WriteNext, EventLoop.Crash;
      survives, sent := true, env.sent;
      var owner := OpenOwner(fd);
      if owner.Some? {
        survives, sent := WriteAndServe(fd, owner.value, env);
      }
      WriteProperty(old(Now()), fd, env.(sent := sent));
    }

    lemma AfterUpdate(s: State, fd: int, id: nat, c: Conn, env: Env, sent: SendResult)
      requires id < |s.all|
      ensures AfterWrite(cfg, Update(s, id, c), fd, id, c, env) == AfterWrite(cfg, s, fd, id, c, env.(sent := sent))
    {
      hide Close, Rearm, Parse;
      UpdateTwice(s, id, c, c);
      UpdateTwice(s, id, c, c.(processing := false, activity := env.now));
      hide Update;
    }

    // --- Completions ---------------------------------------------------------------------------------------

    /** Every response that waits for the loop is one a handler has given. */
    ghost predicate AllSerialise(done: seq<Finished>)
      reads set f | f in done :: f.response, table`objects
    {
      forall f | f in done :: Serialises(f)
    }

    /** One completion, unless its connection no longer owns its descriptor. */
    method Complete(item: Finished, refused: set<int>)
      requires Ready(-1) && Serialises(item)
      modifies table`all, table`connections, table`active, table.objects
      ensures Ready(-1) && Now() == Deliver(cfg, old(Now()), item.task, refused)
    {
      hide Matches, Rearm;
      var t := item.task;
      if t.fd !in table.connections || table.connections[t.fd] != t.id || t.id >= |table.channels| {
        return;
      }
      var open := table.IsOpen(t.id);
      if !open {
        return;
      }
      SetResponse(t.id, item);
      RearmFor(t.fd, Write, refused);
    }

    method SetResponse(id: nat, item: Finished)
      requires Ready(-1) && Serialises(item) && id < |table.all|
      modifies table`all, table.objects
      ensures Ready(-1)
      ensures var reply := cfg.handler(item.task.id, item.task.index, item.task.request);
              Now() == Update(old(Now()), id, old(table.all)[id].(working := false, unsent := reply))
    {
      hide Matches, Tasks, JobTasks, WrittenAs;
      table.Deliver(id, item.response, item.headers, item.disk,
                    cfg.handler(item.task.id, item.task.index, item.task.request));
    }

    /** `drain_wakeup`, and the completions swapped out. */
    method SwapCompleted() returns (ready: seq<Finished>)
      modifies `pipe, `completed
      ensures ready == old(completed) && completed == []
      ensures Now() == old(Now()).(pipe := false, completed := [])
    {
      pipe := false;
      ready := completed;
      completed := [];
    }

    lemma RestSerialise(ready: seq<Finished>)
      requires ready != [] && AllSerialise(ready)
      ensures Serialises(ready[0]) && AllSerialise(ready[1..]) && Tasks(ready)[1..] == Tasks(ready[1..])
    {
      hide WrittenAs;
      assert forall f | f in ready[1..] :: f in ready;
    }

    /** `drain_wakeup`, then the completions one by one. */
    method ProcessCompletions(refused: set<int>)
      requires Ready(-1) && AllSerialise(completed)
      modifies `pipe, `completed, table`all, table`connections, table`active, table.objects
      ensures Ready(-1) && completed == [] && Now() == Wake(cfg, old(Now()), refused)
    {
      hide Matches, Deliver, WrittenAs;
      var ready := SwapCompleted();
      while ready != []
        invariant Ready(-1) && completed == [] && AllSerialise(ready)
        invariant table.objects == old(table.objects)
        invariant DeliverAll(cfg, Now(), Tasks(ready), refused) == Wake(cfg, old(Now()), refused)
        decreases |ready|
      {
        RestSerialise(ready);
        hide Tasks, JobTasks;
        Complete(ready[0], refused);
        ready := ready[1..];
      }
    }

    // --- One event -----------------------------------------------------------------------------------------

    method NextEvent() returns (e: Event)
      requires batch != []
      modifies `batch
      ensures e == old(batch)[0] && Now() == old(Now()).(batch := old(batch)[1..])
    {
      hide Tasks, JobTasks;
      e := batch[0];
      batch := batch[1..];
    }

    method AcceptConnections(fds: seq<int>, now: int)
      requires Ready(-1)
      modifies table
      ensures Ready(-1) && fresh(table.objects - old(table.objects)) && Now() == AcceptAll(old(Now()), fds, now)
    {
      hide Matches, Tasks, JobTasks, AcceptAll;
      table.HandleNewConnections(fds, now, Now());
    }

    /** An event of a client's descriptor. */
    method HandleClient(fd: int, kind: Kind, env: Env) returns (survives: bool, ghost sent: SendResult)
      requires Apart()
      requires Ready(-1)
      modifies `queue, `handed, `inFlight, `requests, `limited, `shed
      modifies table`all, table`connections, table`active, table.objects
      ensures Apart()
      ensures survives ==> Ready(-1)
      ensures StateAfter(survives) == match kind
                                 case Hangup => Close(old(Now()), fd)
                                 case Readable => ClientData(cfg, old(Now()), fd, env.(sent := sent))
                                 case Writable => WriteReady(cfg, old(Now()), fd, env.(sent := sent))
    {
      hide Owning, Matches, Close, ClientData, WriteReady, EventLoop.Crash;
      survives, sent := true, env.sent;
      match kind
      case Hangup => CloseConnection(fd, -1);
      case Readable => survives := HandleClientData(fd, env);
      case Writable => survives, sent := HandleWriteReady(fd, env);
    }

    /** If the program does not survive it, it has crashed. */
    method ServeClient(fd: int, kind: Kind, env: Env) returns (ghost sent: SendResult)
      requires alive && Ready(-1) && AllSerialise(completed) && Apart()
      modifies `alive, `queue, `handed, `inFlight, `requests, `limited, `shed
      modifies table`all, table`connections, table`active, table.objects
      ensures alive ==> Ready(-1) && AllSerialise(completed) && Apart()
      ensures Machine() == match kind
                           case Hangup => Close(old(Now()), fd)
                           case Readable => ClientData(cfg, old(Now()), fd, env.(sent := sent))
                           case Writable => WriteReady(cfg, old(Now()), fd, env.(sent := sent))
    {
      hide Owning, Matches, Close, ClientData, WriteReady, EventLoop.Crash, WrittenAs, Tasks, JobTasks;
      alive, sent := HandleClient(fd, kind, env);
    }

    /** One event of the batch; `sent` is what the socket made of a write. */
    method HandleOne(env: Env) returns (ghost sent: SendResult)
      requires alive && batch != [] && Ready(-1) && AllSerialise(completed) && ending != Crashed && Apart()
      modifies this, table, table.objects
      ensures Machine() == Handle(cfg, old(Now()), env.(sent := sent))
      ensures alive ==> Ready(-1) && AllSerialise(completed) && ending != Crashed && Apart()
    {
      hide Owning, Matches, Wake, AcceptAll, Close, ClientData, WriteReady, EventLoop.Crash, WrittenAs;
      sent := env.sent;
      var e := NextEvent();
      match e
      case Wakeup => ProcessCompletions(env.refused);
      case Incoming => AcceptConnections(env.accepted, env.now);
      case Client(fd, _, kind) =>
        sent := ServeClient(fd, kind, env);
    }

    // --- The end of a batch --------------------------------------------------------------------------------

    method StopAccepting()
      modifies `listening
      ensures !listening
    {
      listening := false;
    }

    method StartDraining(now: int)
      modifies `draining, `listening, `deadline
      ensures Now() == BeginDrain(cfg, old(Now()), now)
    {
      hide Tasks, JobTasks;
      if !draining && stopRequested {
        draining := true;
        StopAccepting();
        deadline := now + 1000 * cfg.grace;
      }
    }

    /** `enforce_timeouts`; `sent` is what the sockets took of the notices. */
    method EnforceTimeouts(now: int, walk: map<int, nat> -> seq<int>) returns (ghost sent: nat -> nat)
      requires Ready(-1) && MapOk(table.all, table.connections) && Walks(walk)
      modifies `lastSweep, table`all, table`connections, table`active, table.objects
      ensures Ready(-1) && Now() == Sweep(cfg, old(Now()), now, sent)
    {
      hide Matches, Tasks, JobTasks, Sweep, MapOk, Walks;
      sent := table.EnforceTimeouts(cfg, now, walk, Now());
      lastSweep := now;
    }

    /** Whether the drain is complete or its time is over. */
    method CheckDrained(now: int, walk: map<int, nat> -> seq<int>)
      requires Ready(-1) && MapOk(table.all, table.connections) && Walks(walk) && ending != Crashed
      modifies `ending
      ensures ending == DrainEnds(old(Now()), now) && ending != Crashed
    {
      hide Matches, Tasks, JobTasks, WorkInFlight, MapOk, Walks;
      if draining {
        var work := table.AnyWork(walk, Now());
        if !work {
          ending := Clean;
        } else if now >= deadline {
          ending := Expired;
        }
      }
    }

    method EndTurn()
      modifies `running, `phase
      ensures Now() == old(Now()).(running := old(running) && ending == Going, phase := Polling)
    {
      hide Tasks, JobTasks;
      running := running && ending == Going;
      phase := Polling;
    }

    /** Leave the loop if so. */
    method LeaveIfDrained(now: int, walk: map<int, nat> -> seq<int>)
      requires Ready(-1) && MapOk(table.all, table.connections) && Walks(walk) && ending != Crashed
      modifies `ending, `running, `phase
      ensures Now() == Ended(old(Now()), DrainEnds(old(Now()), now)) && ending != Crashed
    {
      hide Matches, Tasks, JobTasks, DrainEnds, MapOk, Walks;
      CheckDrained(now, walk);
      EndTurn();
    }

    /** Timeouts keep the map in order. */
    lemma MapKept(s: State, now: int, sent: nat -> nat)
      requires MapOk(s.all, s.conns)
      ensures MapOk(Sweep(cfg, s, now, sent).all, Sweep(cfg, s, now, sent).conns)
    {
      hide Sweep, MapOk;
      SweepMap(cfg, s, now, sent);
    }

    /** The end of one turn of `run`: draining, timeouts, and whether the loop ends. */
    method FinishBatch(now: int, walk: map<int, nat> -> seq<int>) returns (ghost sent: nat -> nat)
      requires Ready(-1) && MapOk(table.all, table.connections) && Walks(walk) && ending != Crashed
      modifies `draining, `listening, `deadline, `lastSweep, `ending, `running, `phase
      modifies table`all, table`connections, table`active, table.objects
      ensures Ready(-1) && ending != Crashed && Now() == EndBatch(cfg, old(Now()), now, sent)
      ensures draining == (old(draining) || old(stopRequested))
      ensures draining && !old(draining) ==> !listening && deadline == now + 1000 * cfg.grace
    {
      sent := FinishTurn(now, walk);
      LoopOutcomes.EndBatchDrains(cfg, old(Now()), now, sent);
      hide EndBatch;
    }

    method FinishTurn(now: int, walk: map<int, nat> -> seq<int>) returns (ghost sent: nat -> nat)
      requires Ready(-1) && MapOk(table.all, table.connections) && Walks(walk) && ending != Crashed
      modifies `draining, `listening, `deadline, `lastSweep, `ending, `running, `phase
      modifies table`all, table`connections, table`active, table.objects
      ensures Ready(-1) && ending != Crashed && Now() == EndBatch(cfg, old(Now()), now, sent)
    {
      hide Owning, Matches, Sweep, DrainEnds, MapOk, Ended, Walks;
      sent := id => 0;
      StartDraining(now);
      if draining || Elapsed(now, lastSweep) >= 1 {
        ghost var s := Now();
        sent := EnforceTimeouts(now, walk);
        MapKept(s, now, sent);
      }
      LeaveIfDrained(now, walk);
    }

    // --- The other steps -----------------------------------------------------------------------------------

    /** `epoll_wait`: the one-shot registrations it reports are disabled. */
    method ReportEvents(events: seq<Event>)
      requires Ready(-1)
      modifies `batch, `edge, `phase, table`all, table.objects
      ensures Ready(-1) && Now() == Report(old(Now()), events)
    {
      hide Matches, Tasks, JobTasks, Disarmed;
      table.Disarm(events);
      batch := events;
      edge := edge && Wakeup !in events;
      phase := Serving;
    }

    /** The end of `run`: every connection still open is dropped. */
    method TearDownLoop()
      requires Ready(-1)
      modifies `listening, `phase, table`all, table`connections, table.objects
      ensures Ready(-1) && Now() == DropAll(old(Now()))
    {
      hide Matches, Tasks, JobTasks, AllClosed;
      table.Clear();
      listening := false;
      phase := Stopped;
    }

    /** A worker pops the oldest task. */
    method TakeTask()
      requires queue != []
      modifies `queue, `handling
      ensures old(Apart()) ==> Apart()
      ensures var tasks := old(JobTasks(queue));
              Now() == old(Now()).(queue := tasks[1..], handling := old(JobTasks(handling)) + [tasks[0]])
    {
      LessJobs(queue, 0);
      MoreJobs(handling, queue[0]);
      hide Tasks, JobTasks;
      hide HttpRequest.Owns;
      handling := handling + [queue[0]];
      queue := queue[1..];
    }

    /** A worker whose handler has returned hands the response over. */
    method PushCompletion(k: nat, response: HttpResponse, headers: string, disk: Option<string>)
      requires k < |handling|
      modifies `handling, `completed, `pushed
      ensures old(Apart()) ==> Apart()
      ensures completed == old(completed) + [Finished(old(handling)[k].task, response, headers, disk)]
      ensures var tasks := old(JobTasks(handling));
              Now() == old(Now()).(handling := Without(tasks, k), pushed := old(pushed) + 1,
                                   completed := old(Tasks(completed)) + [tasks[k]])
    {
      LessJobs(handling, k);
      hide JobTasks;
      hide HttpRequest.Owns;
      completed := completed + [Finished(handling[k].task, response, headers, disk)];
      handling := Without(handling, k);
      pushed := pushed + 1;
    }

    /** `notify_event_loop`: one byte into the pipe, unless it is full. */
    method NotifyEventLoop(full: bool)
      modifies `pipe, `edge
      ensures Now() == Signal(old(Now()), full)
    {
      if !full {
        pipe, edge := true, true;
      }
    }

    /** A worker signals the completion it has pushed. */
    method SignalCompletion(full: bool)
      requires pushed > 0
      modifies `pushed, `leaving, `pipe, `edge
      ensures Now() == Signal(old(Now().(pushed := pushed - 1, leaving := leaving + 1)), full)
    {
      hide Signal;
      pushed := pushed - 1;
      leaving := leaving + 1;
      NotifyEventLoop(full);
    }

    /** The guard of a worker's task goes out of scope. */
    method LeaveHandler()
      requires leaving > 0
      modifies `leaving, `inFlight
      ensures Now() == old(Now().(leaving := leaving - 1, inFlight := inFlight - 1))
    {
      leaving := leaving - 1;
      inFlight := inFlight - 1;
    }

    method RequestStop(full: bool)
      modifies `stopRequested, `pipe, `edge
      ensures Now() == Signal(old(Now().(stopRequested := true)), full)
    {
      hide Signal;
      stopRequested := true;
      NotifyEventLoop(full);
    }

    method PollFailed()
      modifies `running, `ending
      ensures Now() == old(Now().(running := false, ending := Broken)) && ending == Broken
    {
      running := false;
      ending := Broken;
    }

    // --- Any step ------------------------------------------------------------------------------------------

    /** Unless the program has crashed, the connections, the responses and the requests of the workers are in order. */
    ghost predicate Sound()
      reads this, table, table.objects, handed, set f | f in completed :: f.response
    {
      alive ==> ending != Crashed && Ready(-1) && AllSerialise(completed) && Apart()
    }

    /** Nothing happens after a crash. */
    lemma CrashIsFinal(step: Step)
      requires Enabled(cfg, Machine(), step)
      ensures alive
    {
    }

    /** A worker hands over what its handler has answered. */
    method Push(k: nat, response: HttpResponse, headers: string, disk: Option<string>)
      requires Sound() && alive && k < |handling|
      requires Serialises(Finished(handling[k].task, response, headers, disk))
      modifies `handling, `completed, `pushed
      ensures Sound() && alive && Now() == Apply(cfg, old(Now()), Step.Push(k))
    {
      hide Matches, Without, WrittenAs;
      PushCompletion(k, response, headers, disk);
    }

    /** Another step of a worker, or of the thread that asks the server to stop. */
    method Backstage(step: Step)
      requires Enabled(cfg, Now(), step)
      requires step.TakeTask? || step.Notify? || step.Leave? || step.RequestStop?
      modifies `queue, `handling, `pushed, `leaving, `inFlight, `stopRequested, `pipe, `edge
      ensures old(Apart()) ==> Apart()
      ensures Now() == Apply(cfg, old(Now()), step)
    {
      hide Tasks, JobTasks, Signal, Owning;
      match step
      case TakeTask => TakeTask();
      case Notify(full) => SignalCompletion(full);
      case Leave => LeaveHandler();
      case RequestStop(full) => RequestStop(full);
    }

    /** They leave the connections and the responses alone. */
    method OffLoop(step: Step)
      requires Sound() && alive && Enabled(cfg, Now(), step)
      requires step.TakeTask? || step.Notify? || step.Leave? || step.RequestStop?
      modifies `queue, `handling, `pushed, `leaving, `inFlight, `stopRequested, `pipe, `edge
      ensures Sound() && alive && Now() == Apply(cfg, old(Now()), step)
    {
      hide Owning, Matches, Apply, WrittenAs;
      Backstage(step);
    }

    /** A step of the loop's own thread between two batches. */
    method Outside(step: Step)
      requires Sound() && alive && Enabled(cfg, Now(), step) && (step.Poll? || step.PollFails? || step.TearDown?)
      modifies this, table, table.objects
      ensures Sound() && alive && Now() == Apply(cfg, old(Now()), step)
    {
      hide Owning, Matches, Pollable, Report, DropAll, WrittenAs;
      match step
      case Poll(events) => ReportEvents(events);
      case PollFails => PollFailed();
      case TearDown => TearDownLoop();
    }

    /** A step of it within a batch; `taken` is that step with what the sockets made of it. */
    method Inside(step: Step, walk: map<int, nat> -> seq<int>) returns (ghost taken: Step)
      requires Sound() && alive && Enabled(cfg, Now(), step) && (step.HandleEvent? || step.Finish?)
      requires MapOk(table.all, table.connections) && Walks(walk)
      modifies this, table, table.objects
      ensures Sound() && SameButSockets(step, taken)
      ensures Enabled(cfg, old(Now()), taken) && Machine() == Apply(cfg, old(Now()), taken)
    {
      hide Tasks, JobTasks, Owning, Matches, Unused, Handle, EndBatch, WrittenAs, MapOk, Walks;
      if step.HandleEvent? {
        ghost var sent := HandleOne(step.env);
        taken := HandleEvent(step.env.(sent := sent));
      } else {
        ghost var sent := FinishBatch(step.now, walk);
        taken := Finish(step.now, sent);
      }
    }

    /** Any enabled step, by whichever thread: whatever the sockets take, it is a step of the state machine, and the
        invariant is kept. */
    method Turn(step: Step, walk: map<int, nat> -> seq<int>, response: HttpResponse, headers: string,
                disk: Option<string>)
      returns (ghost taken: Step)
      requires cfg.Valid() && Core(cfg, Machine(), -1, []) && Sound() && Enabled(cfg, Machine(), step) && Walks(walk)
      requires step.Push? ==> Serialises(Finished(handling[step.k].task, response, headers, disk))
      modifies this, table, table.objects
      ensures Core(cfg, Machine(), -1, []) && Sound() && SameButSockets(step, taken)
      ensures Enabled(cfg, old(Machine()), taken) && Machine() == Apply(cfg, old(Machine()), taken)
    {
      CorePart(cfg, Machine(), -1, []);
      CrashIsFinal(step);
      hide Core, Apply, MapOk, Walks, SameButSockets;
      hide Server.Sound;
      taken := step;
      if step.HandleEvent? || step.Finish? {
        taken := Inside(step, walk);
      } else {
        SameStep(step);
        if step.Poll? || step.PollFails? || step.TearDown? {
          Outside(step);
        } else if step.Push? {
          Push(step.k, response, headers, disk);
        } else {
          OffLoop(step);
        }
      }
      StepKeeps(cfg, old(Machine()), taken);
    }

    /** The server has come here from its start by `steps`. */
    ghost predicate CameBy(start: int, steps: seq<Step>)
      reads this, table
    {
      Runs(cfg, Start(start), steps) && Machine() == After(cfg, Start(start), steps)
    }

    /** How many jobs and completions the server holds for a connection. */
    ghost function Held(id: nat): nat
      reads this
    {
      TasksOf(JobTasks(queue), id) + TasksOf(JobTasks(handling), id) + TasksOf(Tasks(completed), id)
    }

    /** What a connection waits for, by its flags, its unsent bytes, and what the server holds for it. */
    ghost predicate Waits(id: nat, mode: Mode)
      reads this, table, table.channels, if id < |table.channels| then table.channels[id].Repr() else {}
    {
      id < |table.channels| && table.channels[id].Valid() &&
      var ch := table.channels[id];
      match mode
      case ForRead => ch.interest == Armed(Read) && !ch.processing && Held(id) == 0 && EventsOf(batch, id) == 0
      case ForWrite =>
        ch.interest == Armed(Write) && ch.processing && ch.io.Unsent() != "" && Held(id) == 0
        && EventsOf(batch, id) == 0
      case ForWorker =>
        ch.interest == Disabled && ch.processing && ch.io.Unsent() == "" && Held(id) == 1 && EventsOf(batch, id) == 0
      case ForLoop => ch.interest == Disabled && Held(id) == 0 && EventsOf(batch, id) == 1
    }

    /** The bytes on the socket are whole replies to the connection's own requests in order, then a part of the next or
        of one notice; and an open connection waits in exactly one way. */
    ghost predicate Served(id: nat)
      reads this, table, table.channels, if id < |table.channels| then table.channels[id].Repr() else {}
    {
      id < |table.channels| && table.channels[id].Valid() &&
      var c := table.channels[id].View();
      && WireOk(cfg, id, c) && Held(id) <= 1
      && (c.open ==> forall mode :: Waits(id, mode) <==> mode == ModeOf(c))
    }

    /** The task is the latest request of its connection, which is to be answered by a handler; and the request object
        owns that request, in memory no connection has. */
    ghost predicate RightJob(j: Job)
      reads table, table.channels, j.request, j.request.ownedStorage
    {
      var t := j.task;
      t.id < |table.channels| &&
      var ch := table.channels[t.id];
      && ch.answers != [] && t == Task(ch.fd, t.id, |ch.answers| - 1, ch.answers[|ch.answers| - 1].request)
      && ch.answers[|ch.answers| - 1].verdict == Dispatched && (ch.open ==> ch.working)
      && j.request.Owns(t.request) && j.request !in table.objects && j.request.ownedStorage !in table.objects
    }

    /** So every run of the server is a run of the state machine, and the real connections are as its theorems say. */
    method Continue(step: Step, walk: map<int, nat> -> seq<int>, response: HttpResponse, headers: string,
                    disk: Option<string>, ghost start: int, ghost steps: seq<Step>)
      returns (ghost taken: Step)
      requires cfg.Valid() && CameBy(start, steps) && Sound() && Enabled(cfg, Machine(), step) && Walks(walk)
      requires step.Push? ==> Serialises(Finished(handling[step.k].task, response, headers, disk))
      modifies this, table, table.objects
      ensures SameButSockets(step, taken) && CameBy(start, steps + [taken]) && Sound()
      ensures alive ==> forall id | 0 <= id < |table.channels| :: Served(id)
      ensures alive ==> forall j | j in queue + handling :: RightJob(j)
    {
      StartOk(cfg, start);
      RunKeeps(cfg, Start(start), steps);
      hide Core, Enabled, Runs, After, Walks, SameButSockets, Owning, Matches;
      hide Server.Served;
      hide Server.RightJob;
      taken := Turn(step, walk, response, headers, disk);
      RunsThen(cfg, Start(start), steps, taken);
      if alive {
        AllServed(start, steps + [taken]);
        JobsRight();
      }
    }

    lemma AllServed(start: int, steps: seq<Step>)
      requires cfg.Valid() && CameBy(start, steps) && alive && Ready(-1)
      ensures forall id | 0 <= id < |table.channels| :: Served(id)
    {
      hide Runs, After, Matches;
      hide Server.Served;
      forall id | 0 <= id < |table.channels|
        ensures Served(id)
      {
        OneServed(start, steps, id);
      }
    }

    lemma OneServed(start: int, steps: seq<Step>, id: nat)
      requires cfg.Valid() && CameBy(start, steps) && alive && Ready(-1) && id < |table.channels|
      ensures Served(id)
    {
      ExactlyOneMode(cfg, start, steps, id);
      OwnRepliesInOrder(cfg, start, steps, id);
      hide Runs, After, WireOk, TasksOf, EventsOf, Tasks, JobTasks, ModeOf;
      assert Matches(table.channels[id], table.all[id], false);
      forall mode
        ensures Waits(id, mode) <==> InMode(Now(), id, mode)
      {
      }
    }

    lemma JobsRight()
      requires Ready(-1) && Core(cfg, Now(), -1, []) && Apart()
      ensures forall j | j in queue + handling :: RightJob(j)
    {
      hide BatchOk, CoverOk, LoopOk, ConnsOk, MapOk;
      hide HttpRequest.Owns;
      forall j | j in queue + handling
        ensures RightJob(j)
      {
        TaskRight(j);
      }
    }

    lemma TaskRight(j: Job)
      requires Ready(-1) && Core(cfg, Now(), -1, []) && Apart() && (j in queue || j in handling)
      ensures RightJob(j)
    {
      hide BatchOk, CoverOk, LoopOk, ConnsOk, MapOk;
      hide HttpRequest.Owns;
      var t := j.task;
      assert t in JobTasks(queue) || t in JobTasks(handling) by {
        if i :| 0 <= i < |queue| && queue[i] == j {
          assert JobTasks(queue)[i] == t;
        } else {
          var k :| 0 <= k < |handling| && handling[k] == j;
          assert JobTasks(handling)[k] == t;
        }
      }
      assert t in Work(Now()) + multiset([]);
      assert TaskOk(table.all, t);
      assert Matches(table.channels[t.id], table.all[t.id], false);
    }
  }

  /** The two steps differ at most in what the sockets made of them. */
  ghost predicate SameButSockets(step: Step, taken: Step)
  {
    match step
    case HandleEvent(env) => taken.HandleEvent? && taken.env == env.(sent := taken.env.sent)
    case Finish(now, _) => taken.Finish? && taken.now == now
    case _ => taken == step
  }

  lemma SameStep(step: Step)
    ensures SameButSockets(step, step)
  {
  }

  lemma UpdateTwice(s: State, id: nat, c: Conn, d: Conn)
    requires id < |s.all|
    ensures Update(Update(s, id, c), id, d) == Update(s, id, d)
  {
    assert s.all[id := c][id := d] == s.all[id := d];
  }
}
