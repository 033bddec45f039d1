/** The connections of a server, each with its own buffers and socket, and the map from descriptors to them, against
    the values the event loop's state machine has for them. */
module ConnectionTables {
  import opened Bytes
  import opened HttpSyntax
  import opened HttpParsing
  import opened HttpRequests
  import opened HttpResponses
  import opened EventLoop
  import opened LoopSafety
  import opened Channels
  import Connections

  /** The connection is as `c` says, with a parser that can go on if it is open; a loose one is only in order. */
  ghost predicate Matches(ch: Channel, c: Conn, loose: bool)
    reads ch.Repr()
  {
    ch.Valid() && (!loose ==> ch.View() == c && (c.open ==> ch.Clear()))
  }

  /** The connections swept so far, when those under the descriptors `done` have been closed. */
  ghost function SweptSo(cfg: Config, s: State, now: int, sent: nat -> nat, done: set<int>): State
  {
    var all := seq(|s.all|, id requires 0 <= id < |s.all| =>
      if s.all[id].open && s.all[id].fd in done then Expire(s.all[id], FateOf(cfg, s.all[id], now), sent(id))
      else s.all[id]);
    s.(all := all, conns := s.conns - done, active := s.active - |done|)
  }

  /** The descriptors the sweep has to close. */
  ghost predicate Due(cfg: Config, s: State, now: int, fd: int)
  {
    fd in s.conns && s.conns[fd] < |s.all| && Swept(cfg, s, s.conns[fd], now)
  }

  lemma SweptAll(cfg: Config, s: State, now: int, sent: nat -> nat, done: set<int>)
    requires MapOk(s.all, s.conns)
    requires forall fd :: fd in done <==> Due(cfg, s, now, fd)
    ensures SweptSo(cfg, s, now, sent, done).(lastSweep := now) == Sweep(cfg, s, now, sent)
  {
    hide FateOf, Expire;
    var t, u := SweptSo(cfg, s, now, sent, done), Sweep(cfg, s, now, sent);
    SweptConns(cfg, s, now, sent, done);
    forall fd | fd in done
      ensures fd in s.conns
    {
      assert Due(cfg, s, now, fd);
    }
    assert u.conns == s.conns - done by {
      SweptMap(cfg, s, now, sent, done);
    }
    SweptCount(s.conns, done, u.conns);
  }

  lemma SweptConns(cfg: Config, s: State, now: int, sent: nat -> nat, done: set<int>)
    requires MapOk(s.all, s.conns)
    requires forall fd :: fd in done <==> Due(cfg, s, now, fd)
    ensures SweptSo(cfg, s, now, sent, done).all == Sweep(cfg, s, now, sent).all
  {
    hide FateOf, Expire;
    var t, u := SweptSo(cfg, s, now, sent, done), Sweep(cfg, s, now, sent);
    forall id | 0 <= id < |s.all|
      ensures t.all[id] == u.all[id]
    {
      SweptCloses(cfg, s, id, now, sent);
      SweptSoAt(cfg, s, now, sent, done, id);
      hide Sweep, SweptSo;
      var fd := s.all[id].fd;
      if s.all[id].open {
        assert fd in s.conns && s.conns[fd] == id;
        assert Due(cfg, s, now, fd) <==> Swept(cfg, s, id, now);
      }
    }
  }

  lemma SweptMap(cfg: Config, s: State, now: int, sent: nat -> nat, done: set<int>)
    requires MapOk(s.all, s.conns)
    requires forall fd :: fd in done <==> Due(cfg, s, now, fd)
    ensures Sweep(cfg, s, now, sent).conns == s.conns - done
  {
    hide Swept, Expire;
    var conns := Sweep(cfg, s, now, sent).conns;
    forall fd
      ensures fd in conns <==> fd in s.conns - done
      ensures fd in conns ==> conns[fd] == s.conns[fd]
    {
      assert fd in s.conns ==> s.conns[fd] < |s.all|;
    }
  }

  lemma SweptSoAt(cfg: Config, s: State, now: int, sent: nat -> nat, done: set<int>, id: nat)
    requires id < |s.all|
    ensures SweptSo(cfg, s, now, sent, done).all[id]
         == if s.all[id].open && s.all[id].fd in done then Expire(s.all[id], FateOf(cfg, s.all[id], now), sent(id))
            else s.all[id]
  {
  }

  lemma SweptCount(conns: map<int, nat>, done: set<int>, left: map<int, nat>)
    requires done <= conns.Keys
    requires left == conns - done
    ensures |done| == |conns| - |left|
  {
    assert left.Keys == conns.Keys - done;
    assert conns.Keys == left.Keys + done && left.Keys !! done;
  }

  /** Closing one more of the due connections. */
  lemma SweptStep(cfg: Config, s: State, now: int, sent: nat -> nat, done: set<int>, fd: int)
    requires MapOk(s.all, s.conns) && Due(cfg, s, now, fd) && fd !in done && done <= s.conns.Keys
    ensures var id, t := s.conns[fd], SweptSo(cfg, s, now, sent, done);
            && fd in t.conns && t.conns[fd] == id && id < |t.all| && t.all[id] == s.all[id]
            && SweptSo(cfg, s, now, sent, done + {fd})
            == t.(all := t.all[id := Expire(s.all[id], FateOf(cfg, s.all[id], now), sent(id))],
                  conns := t.conns - {fd}, active := t.active - 1)
  {
    hide FateOf, Expire;
    var id, t, u := s.conns[fd], SweptSo(cfg, s, now, sent, done), SweptSo(cfg, s, now, sent, done + {fd});
    assert s.all[id].fd == fd;
    forall i | 0 <= i < |s.all|
      ensures u.all[i] == if i == id then Expire(s.all[id], FateOf(cfg, s.all[id], now), sent(id)) else t.all[i]
    {
      SweptSoAt(cfg, s, now, sent, done, i);
      SweptSoAt(cfg, s, now, sent, done + {fd}, i);
      assert s.all[i].open && s.all[i].fd == fd ==> i == id;
    }
    assert |done + {fd}| == |done| + 1;
    assert u.conns == t.conns - {fd};
    assert u.all == t.all[id := u.all[id]];
  }

  function With(sent: nat -> nat, id: nat, n: nat): nat -> nat
  {
    i => if i == id then n else sent(i)
  }

  /** How much of its notice one more connection took says nothing about those closed before. */
  lemma SentElsewhere(cfg: Config, s: State, now: int, sent: nat -> nat, done: set<int>, fd: int, n: nat)
    requires MapOk(s.all, s.conns) && fd in s.conns && fd !in done
    ensures SweptSo(cfg, s, now, With(sent, s.conns[fd], n), done) == SweptSo(cfg, s, now, sent, done)
  {
    hide FateOf, Expire;
    var t, u := SweptSo(cfg, s, now, With(sent, s.conns[fd], n), done), SweptSo(cfg, s, now, sent, done);
    assert t.all == u.all;
  }

  /** One more of the due connections, whose socket took `n` bytes of its notice. */
  lemma SweptNext(cfg: Config, s: State, now: int, sent: nat -> nat, done: set<int>, fd: int, n: nat)
    requires MapOk(s.all, s.conns) && Due(cfg, s, now, fd) && fd !in done && done <= s.conns.Keys
    ensures var id, t := s.conns[fd], SweptSo(cfg, s, now, sent, done);
            && fd in t.conns && t.conns[fd] == id && id < |t.all| && t.all[id] == s.all[id]
            && SweptSo(cfg, s, now, With(sent, id, n), done + {fd})
            == t.(all := t.all[id := Expire(s.all[id], FateOf(cfg, s.all[id], now), n)],
                  conns := t.conns - {fd}, active := t.active - 1)
  {
    hide FateOf, Expire, SweptSo, MapOk;
    SweptStep(cfg, s, now, With(sent, s.conns[fd], n), done, fd);
    SentElsewhere(cfg, s, now, sent, done, fd, n);
  }

  lemma SweptNone(cfg: Config, s: State, now: int, sent: nat -> nat)
    ensures SweptSo(cfg, s, now, sent, {}) == s
  {
    hide FateOf, Expire;
    assert SweptSo(cfg, s, now, sent, {}).all == s.all;
    assert SweptSo(cfg, s, now, sent, {}).conns == s.conns;
  }

  predicate Distinct(fds: seq<int>)
  {
    forall i, j | 0 <= i < j < |fds| :: fds[i] != fds[j]
  }

  /** The sweep of `s` at `now` deals with descriptor `fd` as `fate` says. */
  ghost predicate DueFor(cfg: Config, s: State, now: int, fd: int, fate: Fate)
  {
    Due(cfg, s, now, fd) && FateOf(cfg, s.all[s.conns[fd]], now) == fate
  }

  /** `fds` lists, each once, the descriptors among `seen` that meet `fate`. */
  ghost predicate Collected(cfg: Config, s: State, now: int, fds: seq<int>, fate: Fate, seen: set<int>)
  {
    Distinct(fds) && forall fd :: fd in fds <==> fd in seen && DueFor(cfg, s, now, fd, fate)
  }

  lemma CollectOne(cfg: Config, s: State, now: int, fds: seq<int>, fate: Fate, seen: set<int>, fd: int)
    requires MapOk(s.all, s.conns) && fd in s.conns && fd !in seen && fate != Keep
    requires Collected(cfg, s, now, fds, fate, seen)
    ensures var mine := FateOf(cfg, s.all[s.conns[fd]], now) == fate;
            Collected(cfg, s, now, if mine then fds + [fd] else fds, fate, seen + {fd})
  {
    hide FateOf;
  }

  lemma AllDue(cfg: Config, s: State, now: int, late: seq<int>, later: seq<int>, rest: seq<int>)
    requires Collected(cfg, s, now, late, Late408, s.conns.Keys)
    requires Collected(cfg, s, now, later, Late504, s.conns.Keys)
    requires Collected(cfg, s, now, rest, Drop, s.conns.Keys)
    ensures forall fd :: fd in late || fd in later || fd in rest <==> Due(cfg, s, now, fd)
    ensures forall fd | fd in later :: fd !in late
    ensures forall fd | fd in rest :: fd !in late && fd !in later
  {
    hide FateOf, Distinct;
    forall fd
      ensures fd in late || fd in later || fd in rest <==> Due(cfg, s, now, fd)
    {
      if Due(cfg, s, now, fd) {
        match FateOf(cfg, s.all[s.conns[fd]], now)
        case Late408 => assert DueFor(cfg, s, now, fd, Late408);
        case Late504 => assert DueFor(cfg, s, now, fd, Late504);
        case Drop => assert DueFor(cfg, s, now, fd, Drop);
        case Keep =>
      }
    }
  }

  /** `walk` gives the order in which a hash map of the given content is walked. */
  ghost predicate Walks(walk: map<int, nat> -> seq<int>)
  {
    forall m: map<int, nat> :: Distinct(walk(m)) && Enumerates(walk(m), m)
  }

  ghost predicate Enumerates(order: seq<int>, m: map<int, nat>)
  {
    forall fd :: fd in order <==> fd in m
  }

  class ConnectionTable {
    /** Every connection accepted so far, and its state in the state machine. */
    var channels: seq<Channel>
    ghost var all: seq<Conn>
    ghost var objects: set<object>
    /** `connections_`, and the two counters of connections. */
    var connections: map<int, nat>
    var accepted: nat
    var active: int

    ghost predicate Valid(loose: int)
      reads `channels, `all, `objects, objects
    {
      && |channels| == |all| && -1 <= loose < |all| && this !in objects
      && (forall i, j | 0 <= i < j < |channels| :: channels[i].Repr() !! channels[j].Repr())
      && (forall i | 0 <= i < |channels| :: channels[i].Repr() <= objects)
      && (forall i | 0 <= i < |channels| :: Matches(channels[i], all[i], i == loose))
    }

    /** A request has been parsed off connection `id`, which is loose until it is taken. */
    ghost predicate Parsed(id: nat, used: nat, request: Request)
      requires id < |channels|
      reads `channels, `all, `objects, objects, channels[id].Repr(), channels[id].io.request
    {
      && Valid(id) && channels[id].Clear() && used <= |all[id].buffer|
      && channels[id].Ahead(all[id], used) && channels[id].Holds(used, request)
    }

    /** The state `s` with the connections of the table. */
    ghost function In(s: State): State
      reads this
    {
      s.(all := all, conns := connections, accepted := accepted, active := active)
    }

    constructor ()
      ensures Valid(-1) && all == [] && objects == {} && connections == map[] && accepted == 0 && active == 0
    {
      channels, all, objects := [], [], {};
      connections, accepted, active := map[], 0, 0;
    }

    // --- Looking at a connection ---------------------------------------------------------------------------

    method IsOpen(id: nat) returns (open: bool)
      requires Valid(-1) && id < |all|
      ensures open == all[id].open
    {
      assert channels[id].View() == all[id];
      open := channels[id].open;
    }

    method IsProcessing(id: nat) returns (processing: bool)
      requires Valid(-1) && id < |all|
      ensures processing == all[id].processing
    {
      assert channels[id].View() == all[id];
      processing := channels[id].processing;
    }

    method HasData(id: nat) returns (pending: bool)
      requires Valid(-1) && id < |all|
      ensures pending <==> all[id].unsent != ""
    {
      assert channels[id].View() == all[id];
      pending := channels[id].HasData();
    }

    method LastAnswer(id: nat) returns (index: nat)
      requires Valid(-1) && id < |all| && all[id].answers != []
      ensures index == |all[id].answers| - 1
    {
      assert channels[id].View() == all[id];
      index := |channels[id].answers| - 1;
    }

    method Busy(id: nat) returns (busy: bool)
      requires Valid(-1) && id < |all|
      ensures busy <==> HasWork(all[id])
    {
      assert channels[id].View() == all[id];
      busy := channels[id].Busy();
    }

    method Fate(id: nat, cfg: Config, now: int) returns (fate: Fate)
      requires Valid(-1) && id < |all|
      ensures fate == FateOf(cfg, all[id], now)
    {
      hide FateOf;
      assert channels[id].View() == all[id];
      fate := channels[id].Fate(cfg, now);
    }

    // --- Changing one -----------------------------------------------------------------------------------------

    /** Close a connection; `loose` is that connection if its parser has failed. */
    method Close(id: nat, ghost loose: int)
      requires Valid(loose) && id < |all|
      requires loose >= 0 ==> id == loose && channels[id].View() == all[id]
      modifies `all, objects
      ensures Valid(-1) && all == old(all)[id := old(all)[id].(open := false, interest := Disabled)]
    {
      hide Channel.Repr;
      hide Channel.View;
      var ch := channels[id];
      assert ch.View() == all[id];
      ch.Close();
      all := all[id := ch.View()];
    }

    method Arm(id: nat, direction: Direction)
      requires Valid(-1) && id < |all|
      modifies `all, objects
      ensures Valid(-1) && all == old(all)[id := old(all)[id].(interest := Armed(direction))]
    {
      hide Channel.Repr;
      hide Channel.View;
      var ch := channels[id];
      assert ch.View() == all[id];
      ch.Arm(direction);
      all := all[id := ch.View()];
    }

    method Disable(id: nat)
      requires Valid(-1) && id < |all|
      modifies `all, objects
      ensures Valid(-1) && all == old(all)[id := old(all)[id].(interest := Disabled)]
    {
      hide Channel.Repr;
      hide Channel.View;
      var ch := channels[id];
      assert ch.View() == all[id];
      ch.Disable();
      all := all[id := ch.View()];
    }

    method Receive(id: nat, r: Recv, now: int) returns (n: int)
      requires Valid(-1) && id < |all|
      modifies `all, objects
      ensures Valid(-1)
      ensures var c := old(all)[id];
              match Received(r, Connections.READ_BUFFER_SIZE - |c.buffer|)
              case PeerClosed => n == 0 && all == old(all)
              case RecvError => n == -1 && all == old(all)
              case WouldBlock => n == -2 && all == old(all)
              case Data(chunk) => n > 0 && all == old(all)[id := Arrived(c, chunk, now)]
    {
      hide Channel.Repr;
      hide Channel.View;
      hide Received, Arrived;
      var ch := channels[id];
      assert ch.View() == all[id];
      n := ch.Receive(r, now);
      assert all[id := all[id]] == all;
      all := all[id := ch.View()];
    }

    /** Parse the next request of a connection. If that ends with a request, or the parser fails, the connection is
        loose until it is taken, or the connection closed. */
    method Next(id: nat) returns (ok: bool, consumed: nat)
      requires Valid(-1) && id < |all| && all[id].open
      modifies objects
      ensures var ch := channels[id];
              match Parse(all[id].buffer)
              case Incomplete => !ok && Valid(-1) && ch.Clear()
              case Failed => !ok && Valid(id) && ch.io.parser.state == ERROR && ch.View() == all[id]
              case Overrun => !ok && ch.io.parser.state == OVERRUN
              case Complete(used, request) =>
                ok && consumed == used && Parsed(id, used, request) && fresh(ch.io.request)
    {
      hide Channel.Repr;
      hide Channel.View;
      hide Channel.Holds;
      hide Channel.Ahead;
      hide Parse;
      var ch := channels[id];
      assert ch.View() == all[id] && ch.Clear();
      ok, consumed := ch.Next();
    }

    /** Drop the request from the buffer: the loop answers it itself. */
    method Skip(id: nat, consumed: nat, ghost value: Request, verdict: Verdict)
      requires id < |channels| && Parsed(id, consumed, value)
      modifies `all, objects
      ensures Valid(-1) && consumed <= |old(all)[id].buffer|
      ensures all == old(all)[id := Taken(old(all)[id], consumed, value, verdict)]
    {
      hide Channel.Repr;
      hide Channel.View;
      hide Channel.Holds;
      hide Taken;
      var ch := channels[id];
      ch.Skip(all[id], consumed, value, verdict);
      all := all[id := ch.View()];
    }

    /** Hand the request over. */
    method Take(id: nat, consumed: nat, ghost value: Request, now: int) returns (taken: HttpRequest)
      requires id < |channels| && Parsed(id, consumed, value)
      modifies `all, objects, channels[id].io.request
      ensures Valid(-1) && consumed <= |old(all)[id].buffer|
      ensures taken.Owns(value) && fresh(taken) && fresh(taken.ownedStorage)
      ensures all == old(all)[id := Taken(old(all)[id], consumed, value, Dispatched).(working := true, since := now)]
    {
      hide Channel.View;
      hide Channel.Holds;
      hide HttpRequest.Owns;
      hide Taken;
      var ch := channels[id];
      taken := ch.Take(all[id], consumed, value, now);
      all := all[id := ch.View()];
    }

    method SetReply(id: nat, response: HttpResponse, headers: string, disk: Option<string>, ghost reply: string)
      requires Valid(-1) && id < |all| && WrittenAs(response, headers, disk, reply)
      modifies `all, objects
      ensures Valid(-1) && all == old(all)[id := old(all)[id].(unsent := reply)]
    {
      hide Channel.Repr;
      hide Channel.View;
      hide WrittenAs;
      var ch := channels[id];
      assert ch.View() == all[id];
      ch.SetReply(response, headers, disk, reply);
      all := all[id := ch.View()];
    }

    method Deliver(id: nat, response: HttpResponse, headers: string, disk: Option<string>, ghost reply: string)
      requires Valid(-1) && id < |all| && WrittenAs(response, headers, disk, reply)
      modifies `all, objects
      ensures Valid(-1) && all == old(all)[id := old(all)[id].(working := false, unsent := reply)]
    {
      hide Channel.Repr;
      hide Channel.View;
      hide WrittenAs;
      var ch := channels[id];
      assert ch.View() == all[id];
      ch.Deliver(response, headers, disk, reply);
      all := all[id := ch.View()];
    }

    method Flush(id: nat, now: int) returns (failed: bool, ghost sent: SendResult)
      requires Valid(-1) && id < |all|
      modifies `all, objects
      ensures Valid(-1) && (failed <==> sent.SendError?)
      ensures all == old(all)[id := Written(old(all)[id], sent.n, sent.Sent? && sent.touched, now)]
    {
      hide Channel.Repr;
      hide Channel.View;
      hide Written;
      var ch := channels[id];
      assert ch.View() == all[id];
      failed, sent := ch.Flush(now);
      all := all[id := ch.View()];
    }

    method Rest(id: nat, now: int)
      requires Valid(-1) && id < |all| && all[id].unsent == ""
      modifies `all, objects
      ensures Valid(-1) && all == old(all)[id := old(all)[id].(processing := false, activity := now)]
    {
      hide Channel.Repr;
      hide Channel.View;
      var ch := channels[id];
      assert ch.View() == all[id];
      ch.Rest(now);
      all := all[id := ch.View()];
    }

    // --- By descriptor -------------------------------------------------------------------------------------------

    method Forget(fd: int)
      modifies `connections, `active
      ensures connections == old(connections) - {fd} && active == old(active) - 1
    {
      connections := connections - {fd};
      active := active - 1;
    }

    /** Close the connection that owns a descriptor; `loose` is that connection if its parser has failed. */
    method CloseConnection(fd: int, ghost loose: int, ghost s: State)
      requires Valid(loose) && s == In(s)
      requires loose >= 0 ==> fd in connections && connections[fd] == loose && channels[loose].View() == all[loose]
      modifies `all, `connections, `active, objects
      ensures Valid(-1) && In(s) == EventLoop.Close(s, fd)
    {
      hide Matches;
      hide Channel.View;
      if fd !in connections || connections[fd] >= |channels| {
        return;
      }
      var id := connections[fd];
      Forget(fd);
      Close(id, loose);
    }

    method RearmFor(fd: int, direction: Direction, refused: set<int>, ghost s: State)
      requires Valid(-1) && s == In(s)
      modifies `all, `connections, `active, objects
      ensures Valid(-1) && In(s) == Rearm(s, fd, direction, refused)
    {
      if fd in connections && connections[fd] < |channels| {
        if fd in refused {
          CloseConnection(fd, -1, s);
        } else {
          Arm(connections[fd], direction);
        }
      }
    }

    /** A request the loop answers itself: `consume`, `processing_`, and the response. */
    method RejectRequest(cfg: Config, fd: int, id: nat, used: nat, ghost request: Request, verdict: Verdict,
                         refused: set<int>, ghost s: State)
      requires id < |channels| && Parsed(id, used, request) && verdict != Dispatched && s == In(s)
      modifies `all, `connections, `active, objects
      ensures Valid(-1) && used <= |s.all[id].buffer|
      ensures In(s) == Reject(cfg, s, fd, id, used, request, verdict, refused)
    {
      hide Rearm, Taken, Matches;
      hide Channel.View;
      Answer(id, used, request, verdict, if verdict == Limited then cfg.tooMany else cfg.unavailable);
      RearmFor(fd, Write, refused, In(s));
    }

    method Answer(id: nat, used: nat, ghost request: Request, verdict: Verdict, reply: string)
      requires id < |channels| && Parsed(id, used, request)
      modifies `all, objects
      ensures Valid(-1) && used <= |old(all)[id].buffer|
      ensures all == old(all)[id := Taken(old(all)[id], used, request, verdict).(unsent := reply)]
    {
      hide Taken, Matches;
      hide Channel.View;
      hide Channel.Repr;
      Skip(id, used, request, verdict);
      var res := new HttpResponse();
      assert reply + "" == reply;
      SetReply(id, res, reply, None, reply);
    }

    /** Send the notice of the sweep, and close. */
    method Expire(id: nat, fate: Fate) returns (ghost n: nat)
      requires Valid(-1) && id < |all|
      modifies `all, objects
      ensures Valid(-1) && all == old(all)[id := EventLoop.Expire(old(all)[id], fate, n)]
    {
      hide Channel.Repr;
      hide Channel.View;
      hide Notice;
      var ch := channels[id];
      assert ch.View() == all[id];
      n := ch.SendNotice(Notice(fate));
      ch.Close();
      all := all[id := ch.View()];
    }

    // --- All of them --------------------------------------------------------------------------------------------

    /** A new connection takes the next identity. */
    method Register(fd: int, now: int)
      requires Valid(-1)
      modifies `channels, `all, `objects
      ensures Valid(-1) && fresh(objects - old(objects)) && all == old(all) + [Fresh(fd, now)]
    {
      hide Channel.Repr;
      hide Channel.View;
      hide Fresh;
      var ch := new Channel(fd, now);
      channels := channels + [ch];
      objects := objects + ch.Repr();
      all := all + [ch.View()];
    }

    method AcceptOne(fd: int, now: int, ghost s: State)
      requires Valid(-1) && s == In(s)
      modifies this
      ensures Valid(-1) && fresh(objects - old(objects)) && In(s) == Accept(s, fd, now)
    {
      hide Fresh;
      connections := connections[fd := |channels|];
      accepted := accepted + 1;
      active := active + 1;
      Register(fd, now);
    }

    method HandleNewConnections(fds: seq<int>, now: int, ghost s: State)
      requires Valid(-1) && s == In(s)
      modifies this
      ensures Valid(-1) && fresh(objects - old(objects)) && In(s) == AcceptAll(s, fds, now)
    {
      hide Accept;
      var rest := fds;
      while rest != []
        invariant Valid(-1) && fresh(objects - old(objects))
        invariant AcceptAll(In(s), rest, now) == AcceptAll(s, fds, now)
        decreases |rest|
      {
        AcceptOne(rest[0], now, In(s));
        rest := rest[1..];
      }
    }

    /** The kernel disables the registrations it reports. */
    method Disarm(events: seq<Event>)
      requires Valid(-1)
      modifies `all, objects
      ensures Valid(-1) && all == Disarmed(old(all), events)
    {
      hide Channel.Repr;
      hide Channel.View;
      hide Reported;
      ghost var before := all;
      for i := 0 to |channels|
        invariant Valid(-1) && |all| == |before| && channels == old(channels)
        invariant forall k | 0 <= k < i :: all[k] == Disarmed(before, events)[k]
        invariant forall k | i <= k < |all| :: all[k] == before[k]
      {
        if Reported(events, i) {
          Disable(i);
        }
      }
    }

    method CloseAll()
      requires Valid(-1)
      modifies `all, objects
      ensures Valid(-1) && all == AllClosed(old(all))
    {
      hide Channel.Repr;
      hide Channel.View;
      ghost var before := all;
      for i := 0 to |channels|
        invariant Valid(-1) && |all| == |before| && channels == old(channels)
        invariant forall k | 0 <= k < i :: all[k] == AllClosed(before)[k]
        invariant forall k | i <= k < |all| :: all[k] == before[k]
      {
        Close(i, -1);
      }
    }

    /** `connections_.clear()`. */
    method Clear()
      requires Valid(-1)
      modifies `all, `connections, objects
      ensures Valid(-1) && all == AllClosed(old(all)) && connections == map[]
    {
      hide AllClosed;
      CloseAll();
      connections := map[];
    }

    // --- Timeouts ---------------------------------------------------------------------------------------------

    /** `send_minimal_response`, of which the socket takes `n` bytes, and `close_connection`. */
    method ExpireOne(fd: int, fate: Fate, ghost s: State) returns (ghost n: nat)
      requires Valid(-1) && s == In(s) && fd in connections && connections[fd] < |all|
      modifies `all, `connections, `active, objects
      ensures Valid(-1)
      ensures var id := s.conns[fd];
              In(s) == s.(all := s.all[id := EventLoop.Expire(s.all[id], fate, n)], conns := s.conns - {fd},
                          active := s.active - 1)
    {
      hide Matches;
      hide Channel.View;
      n := Expire(connections[fd], fate);
      Forget(fd);
    }

    method ExpireEach(cfg: Config, fds: seq<int>, fate: Fate, now: int, ghost s: State, ghost sent: nat -> nat,
                      ghost done: set<int>)
      returns (ghost sent': nat -> nat, ghost closed: set<int>)
      requires Valid(-1) && MapOk(s.all, s.conns) && done <= s.conns.Keys
      requires In(s) == SweptSo(cfg, s, now, sent, done)
      requires Collected(cfg, s, now, fds, fate, s.conns.Keys) && forall fd | fd in fds :: fd !in done
      modifies `all, `connections, `active, objects
      ensures Valid(-1) && In(s) == SweptSo(cfg, s, now, sent', closed) && closed <= s.conns.Keys
      ensures forall fd :: fd in closed <==> fd in done || fd in fds
    {
      hide FateOf, EventLoop.Expire, SweptSo, MapOk, Matches, With, Swept;
      hide Channel.View;
      sent', closed := sent, done;
      for i := 0 to |fds|
        invariant Valid(-1)
        invariant closed <= s.conns.Keys && forall fd :: fd in closed <==> fd in done || fd in fds[..i]
        invariant In(s) == SweptSo(cfg, s, now, sent', closed)
      {
        var fd := fds[i];
        assert fd !in fds[..i];
        assert DueFor(cfg, s, now, fd, fate);
        SweptStep(cfg, s, now, sent', closed, fd);
        ghost var n := ExpireOne(fd, fate, In(s));
        SweptNext(cfg, s, now, sent', closed, fd, n);
        sent' := With(sent', s.conns[fd], n);
        closed := closed + {fd};
        assert fds[..i + 1] == fds[..i] + [fd];
      }
      assert fds[..|fds|] == fds;
    }

    method Collect(cfg: Config, now: int, walk: map<int, nat> -> seq<int>, ghost s: State)
      returns (readTimeouts: seq<int>, handlerTimeouts: seq<int>, plainCloses: seq<int>)
      requires Valid(-1) && s == In(s) && MapOk(all, connections) && Walks(walk)
      ensures Collected(cfg, s, now, readTimeouts, Late408, connections.Keys)
      ensures Collected(cfg, s, now, handlerTimeouts, Late504, connections.Keys)
      ensures Collected(cfg, s, now, plainCloses, Drop, connections.Keys)
    {
      hide FateOf, MapOk, Due, Matches;
      readTimeouts, handlerTimeouts, plainCloses := [], [], [];
      var order := walk(connections);
      assert Enumerates(order, connections);
      ghost var seen := {};
      for i := 0 to |order|
        invariant forall fd :: fd in seen <==> fd in order[..i]
        invariant Collected(cfg, s, now, readTimeouts, Late408, seen)
        invariant Collected(cfg, s, now, handlerTimeouts, Late504, seen)
        invariant Collected(cfg, s, now, plainCloses, Drop, seen)
      {
        hide Collected;
        var fd := order[i];
        assert fd in order && fd !in order[..i] && order[..i + 1] == order[..i] + [fd];
        IndexOk(all, connections, fd);
        CollectOne(cfg, s, now, readTimeouts, Late408, seen, fd);
        CollectOne(cfg, s, now, handlerTimeouts, Late504, seen, fd);
        CollectOne(cfg, s, now, plainCloses, Drop, seen, fd);
        seen := seen + {fd};
        var fate := Fate(connections[fd], cfg, now);
        match fate
        case Late408 => readTimeouts := readTimeouts + [fd];
        case Late504 => handlerTimeouts := handlerTimeouts + [fd];
        case Drop => plainCloses := plainCloses + [fd];
        case Keep =>
      }
      assert order[..|order|] == order;
    }

    /** `enforce_timeouts`: collect first, close after; `sent` is what the sockets took of the notices. */
    method EnforceTimeouts(cfg: Config, now: int, walk: map<int, nat> -> seq<int>, ghost s: State)
      returns (ghost sent: nat -> nat)
      requires Valid(-1) && s == In(s) && MapOk(all, connections) && Walks(walk)
      modifies `all, `connections, `active, objects
      ensures Valid(-1) && In(s).(lastSweep := now) == Sweep(cfg, s, now, sent)
    {
      hide FateOf, SweptSo, Sweep, MapOk, Collected, Due, Walks, Matches;
      var readTimeouts, handlerTimeouts, plainCloses := Collect(cfg, now, walk, s);
      ghost var done: set<int> := {};
      sent := i => 0;
      SweptNone(cfg, s, now, sent);
      AllDue(cfg, s, now, readTimeouts, handlerTimeouts, plainCloses);
      sent, done := ExpireEach(cfg, readTimeouts, Late408, now, s, sent, done);
      sent, done := ExpireEach(cfg, handlerTimeouts, Late504, now, s, sent, done);
      sent, done := ExpireEach(cfg, plainCloses, Drop, now, s, sent, done);
      SweptAll(cfg, s, now, sent, done);
    }

    /** Whether any connection still has a request or a response in hand. */
    method AnyWork(walk: map<int, nat> -> seq<int>, ghost s: State) returns (found: bool)
      requires Valid(-1) && s == In(s) && MapOk(all, connections) && Walks(walk)
      ensures found <==> WorkInFlight(s)
    {
      hide Matches;
      var order := walk(connections);
      assert Enumerates(order, connections);
      for i := 0 to |order|
        invariant forall k | 0 <= k < i ::
          order[k] in connections && connections[order[k]] < |all| && !HasWork(all[connections[order[k]]])
      {
        hide MapOk, HasWork;
        assert order[i] in order;
        IndexOk(all, connections, order[i]);
        var busy := Busy(connections[order[i]]);
        if busy {
          return true;
        }
      }
      return false;
    }
  }

  lemma IndexOk(all: seq<Conn>, conns: map<int, nat>, fd: int)
    requires MapOk(all, conns) && fd in conns
    ensures conns[fd] < |all| && all[conns[fd]].open && all[conns[fd]].fd == fd
  {
  }
}
