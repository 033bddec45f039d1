/** One connection of the server: a `Connection` with its buffers and its socket, and the flags the event loop keeps
    with it. Each operation of the loop on it is shown to do to the value `View` what the event loop's functions do
    to a `Conn`. */
module Channels {
  import opened Bytes
  import opened HttpSyntax
  import opened HttpRequests
  import opened HttpParsing
  import opened HttpResponses
  import opened EventLoop
  import Connections
  import Framing

  /** The result of `recv` as `read_data` sees it. */
  function FromKernel(r: Recv): Connections.Recv
  {
    match r
    case Data(chunk) => Connections.Data(chunk)
    case PeerClosed => Connections.Closed
    case WouldBlock => Connections.Blocked
    case RecvError => Connections.Broken
  }

  /** The response, with its serialised header block, is written as `reply`. */
  ghost predicate WrittenAs(response: HttpResponse, headers: string, disk: Option<string>, reply: string)
    reads response
  {
    && response.fileOffset >= 0
    && (disk.Some? ==> response.fileOffset <= |disk.value| && response.fileOffset + response.fileLength <= |disk.value|)
    && headers + Connections.Connection.BodyOf(response, disk) == reply
  }

  class Channel {
    const fd: int
    const io: Connections.Connection
    var open: bool
    var interest: Interest
    var processing: bool
    var working: bool
    var since: int
    var activity: int
    /** The records of what was received and answered; the program does not keep them. */
    var history: seq<Framing.Step>
    var answers: seq<Answer>

    ghost function Repr(): (objects: set<object>)
      ensures this in objects
    {
      {this, io, io.readBuffer, io.parser, io.socket}
    }

    ghost predicate Valid()
      reads Repr()
    {
      io.Valid() && io.FileIntact()
    }

    /** The connection as the event loop's state machine knows it. */
    ghost function View(): Conn
      reads Repr()
      requires Valid()
    {
      Conn(fd, open, interest, io.Pending(), processing, working, since, activity, io.Unsent(), history, answers,
           io.socket.wire)
    }

    /** The parser can go on. */
    ghost predicate Clear()
      reads Repr()
    {
      io.Clear()
    }

    constructor (fd: int, now: int)
      ensures Valid() && Clear() && View() == Fresh(fd, now) && fresh(Repr())
    {
      var socket := new Connections.Socket();
      this.fd := fd;
      io := new Connections.Connection(socket);
      open, interest, processing, working, since, activity := true, Armed(Read), false, false, 0, now;
      history, answers := [], [];
    }

    // --- Flags ------------------------------------------------------------------------------------------

    /** `Connection::close_connection`. */
    method Close()
      requires Valid()
      modifies `open, `interest
      ensures Valid() && View() == old(View()).(open := false, interest := Disabled)
    {
      open, interest := false, Disabled;
    }

    method Arm(direction: Direction)
      requires Valid()
      modifies `interest
      ensures Valid() && View() == old(View()).(interest := Armed(direction))
    {
      interest := Armed(direction);
    }

    method Disable()
      requires Valid()
      modifies `interest
      ensures Valid() && View() == old(View()).(interest := Disabled)
    {
      interest := Disabled;
    }

    // --- Reading ----------------------------------------------------------------------------------------

    /** `read_data`: `r` is what `recv` returns, cut to the free part of the buffer. */
    method Receive(r: Recv, now: int) returns (n: int)
      requires Valid()
      modifies Repr()
      ensures Valid() && Clear() == old(Clear())
      ensures var c := old(View());
              match Received(r, Connections.READ_BUFFER_SIZE - |c.buffer|)
              case PeerClosed => n == 0 && View() == c
              case RecvError => n == -1 && View() == c
              case WouldBlock => n == -2 && View() == c
              case Data(chunk) => n > 0 && View() == Arrived(c, chunk, now)
    {
      var got := Received(r, Connections.READ_BUFFER_SIZE - io.fill);
      n := io.ReadData(FromKernel(got));
      if n > 0 {
        history := history + [Framing.Arrive(got.chunk)];
        activity := now;
      }
    }

    // --- Requests ---------------------------------------------------------------------------------------

    /** Of the connection `c` only the bytes of the request being taken, the first `used`, have changed. */
    ghost predicate Ahead(c: Conn, used: nat)
      reads Repr()
      requires Valid()
    {
      && View() == c.(buffer := io.Pending())
      && used <= |c.buffer| == |io.Pending()| && io.Pending()[used..] == c.buffer[used..]
    }

    /** The current request has been parsed out of the first `used` bytes and denotes `value`. */
    ghost predicate Holds(used: nat, value: Request)
      reads Repr(), io.request
      requires Valid()
    {
      && used <= io.fill && io.request.ownedStorage == null
      && io.request.Inside(io.readBuffer, used, io.readBuffer[..])
      && io.request.ValueIn(io.readBuffer[..]) == value
    }

    /** `parse_next`. */
    method Next() returns (ok: bool, consumed: nat)
      requires Valid() && Clear()
      modifies Repr()
      ensures Valid() && fresh(io.request)
      ensures var c := old(View());
              match Parse(c.buffer)
              case Incomplete => !ok && Clear() && View() == c
              case Failed => !ok && io.parser.state == ERROR && View() == c
              case Overrun => !ok && io.parser.state == OVERRUN
              case Complete(used, request) =>
                ok && Clear() && consumed == used && Ahead(c, used) && Holds(used, request)
    {
      hide Parse, HttpRequest.Inside, HttpRequest.ValueIn;
      EmptyBuffer();
      assert io.fill == 0 ==> io.Pending() == "";
      ok, consumed := io.ParseNext();
    }

    static lemma EmptyBuffer()
      ensures Parse("") == Incomplete
    {
    }

    /** A request that is not handed over: `consume`, and the flag. */
    method Skip(ghost c: Conn, consumed: nat, ghost value: Request, verdict: Verdict)
      requires Valid() && Ahead(c, consumed) && Holds(consumed, value)
      modifies Repr()
      ensures Valid() && Clear() == old(Clear())
      ensures View() == Taken(c, consumed, value, verdict)
    {
      hide HttpRequest.Inside, HttpRequest.ValueIn;
      var request := io.request.ValueIn(io.readBuffer[..]);
      io.Consume(consumed);
      processing := true;
      answers := answers + [Answer(request, verdict)];
      history := history + [Framing.Serve];
    }

    /** How a request is handed to a worker: it takes its bytes with it, and the connection is marked. */
    method Take(ghost c: Conn, consumed: nat, ghost value: Request, now: int) returns (taken: HttpRequest)
      requires Valid() && Ahead(c, consumed) && Holds(consumed, value)
      modifies Repr(), io.request
      ensures Valid() && Clear() == old(Clear()) && taken.Owns(value) && fresh(taken) && fresh(taken.ownedStorage)
      ensures View() == Taken(c, consumed, value, Dispatched).(working := true, since := now)
    {
      hide HttpRequest.Inside, HttpRequest.ValueIn, HttpRequest.Owns;
      answers := answers + [Answer(io.request.ValueIn(io.readBuffer[..]), Dispatched)];
      history := history + [Framing.Serve];
      taken := io.TakeRequest(consumed, value);
      processing, working, since := true, true, now;
    }

    // --- Responses --------------------------------------------------------------------------------------

    /** `set_response_content`. */
    method SetReply(response: HttpResponse, headers: string, disk: Option<string>, ghost reply: string)
      requires Valid() && WrittenAs(response, headers, disk, reply)
      modifies Repr()
      ensures Valid() && Clear() == old(Clear()) && View() == old(View()).(unsent := reply)
    {
      io.SetResponseContent(response, headers, disk);
    }

    /** The response of a finished handler. */
    method Deliver(response: HttpResponse, headers: string, disk: Option<string>, ghost reply: string)
      requires Valid() && WrittenAs(response, headers, disk, reply)
      modifies Repr()
      ensures Valid() && Clear() == old(Clear()) && View() == old(View()).(working := false, unsent := reply)
    {
      working := false;
      SetReply(response, headers, disk, reply);
    }

    /** `write_data`: `sent` is what the socket made of it. */
    method Flush(now: int) returns (failed: bool, ghost sent: SendResult)
      requires Valid()
      modifies Repr()
      ensures Valid() && Clear() == old(Clear()) && (failed <==> sent.SendError?)
      ensures View() == Written(old(View()), sent.n, sent.Sent? && sent.touched, now)
      ensures !io.socket.short ==> View().unsent == ""
    {
      hide Written;
      ghost var c := View();
      var result, touched := io.WriteData();
      failed := result == Connections.IO_ERROR;
      touched := touched && !failed;
      if touched {
        activity := now;
      }
      ghost var n: nat := |io.socket.wire| - |c.wire|;
      sent := if failed then SendError(n) else Sent(n, touched);
      OnWire(c, View(), touched, now);
    }

    /** What is added to the wire comes off the front of what is owed. */
    static lemma OnWire(c: Conn, d: Conn, touched: bool, now: int)
      requires c.wire <= d.wire && d.wire + d.unsent == c.wire + c.unsent
      requires d == c.(wire := d.wire, unsent := d.unsent, activity := if touched then now else c.activity)
      ensures d == Written(c, |d.wire| - |c.wire|, touched, now)
    {
      var n := |d.wire| - |c.wire|;
      assert (c.wire + c.unsent)[|c.wire|..] == c.unsent;
      assert (d.wire + d.unsent)[..|d.wire|] == d.wire && (d.wire + d.unsent)[|d.wire|..] == d.unsent;
    }

    method HasData() returns (pending: bool)
      requires Valid()
      ensures pending <==> View().unsent != ""
    {
      pending := io.HasDataToWrite();
    }

    /** A response has been written: forget it. */
    method Rest(now: int)
      requires Valid() && View().unsent == ""
      modifies Repr()
      ensures Valid() && Clear() == old(Clear()) && View() == old(View()).(processing := false, activity := now)
    {
      io.ClearResponseState();
      processing, activity := false, now;
    }

    /** `send_minimal_response`: the socket takes the first `n` bytes of the notice, if it takes any. */
    method SendNotice(notice: string) returns (ghost n: nat)
      requires Valid()
      modifies Repr()
      ensures Valid() && Clear() == old(Clear()) && n <= |notice|
      ensures View() == old(View()).(wire := old(View()).wire + notice[..n])
    {
      n := 0;
      if notice != "" {
        var k := io.socket.Send(notice);
        n := if k > 0 then k else 0;
      }
    }

    // --- What the sweep and the drain look at ------------------------------------------------------------

    method Fate(cfg: Config, now: int) returns (fate: Fate)
      requires Valid()
      ensures fate == FateOf(cfg, View(), now)
    {
      hide Elapsed;
      if working {
        return if cfg.handlerTimeout > 0 && Elapsed(now, since) > cfg.handlerTimeout then Late504 else Keep;
      }
      var idle := Elapsed(now, activity);
      var pending := HasData();
      if pending {
        return if cfg.writeTimeout > 0 && idle > cfg.writeTimeout then Drop else Keep;
      }
      if processing {
        return Keep;
      }
      if io.fill > 0 {
        return if cfg.readTimeout > 0 && idle > cfg.readTimeout then Late408 else Keep;
      }
      return if cfg.idleTimeout > 0 && idle > cfg.idleTimeout then Drop else Keep;
    }

    method Busy() returns (busy: bool)
      requires Valid()
      ensures busy <==> HasWork(View())
    {
      var pending := HasData();
      busy := processing || pending;
    }
  }
}
