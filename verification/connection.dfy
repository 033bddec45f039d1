/** `Connection`: the read side that frames requests out of a fixed buffer, and the write side that puts one
    response on the socket under arbitrary partial sends. */
module Connections {
  import opened Bytes
  import opened Numerals
  import opened HttpSyntax
  import opened HttpRequests
  import opened HttpParsing
  import opened HttpResponses
  import opened Validators
  import Framing

  const READ_BUFFER_SIZE: nat := 1024 * 1024
  const FILE_SEND_CHUNK: nat := 256 * 1024

  const WOULD_BLOCK: int := -1
  const IO_ERROR: int := -2

  /** The peer's end of a plaintext socket: `wire` is every byte accepted so far. How much a call accepts, and
      whether it would block or fail, is arbitrary; `short` says whether one has ever accepted less than offered. */
  class Socket {
    ghost var wire: string
    ghost var short: bool

    constructor ()
      ensures wire == "" && !short
    {
      wire, short := "", false;
    }

    method Send(data: string) returns (n: int)
      requires data != ""
      modifies this
      ensures n == WOULD_BLOCK || n == IO_ERROR || 0 < n <= |data|
      ensures wire == old(wire) + (if n > 0 then data[..n] else "")
      ensures short <==> old(short) || n != |data|
    {
      var k: int := *;
      n := if k == IO_ERROR || 0 < k <= |data| then k else WOULD_BLOCK;
      short := short || n != |data|;
      wire := wire + (if n > 0 then data[..n] else "");
    }

    /** `sendfile`: 0 when the file has no byte at `off` (any more). */
    method SendFile(file: string, off: nat, count: nat) returns (n: int)
      requires count > 0
      modifies this
      ensures n == WOULD_BLOCK || n == IO_ERROR || n == 0 || (0 < n <= count && off + n <= |file|)
      ensures n == 0 ==> |file| <= off
      ensures wire == old(wire) + (if n > 0 then file[off..off + n] else "")
      ensures short <==> old(short) || n != count
    {
      var k: int := *;
      n := if off >= |file| && k == 0 then 0
      else if k == IO_ERROR || (0 < k <= count && off + k <= |file|) then k
      else WOULD_BLOCK;
      short := short || n != count;
      wire := wire + (if n > 0 then file[off..off + n] else "");
    }
  }

  /** The bytes of a file from `from` up to `to`, as far as the file reaches. */
  function Part(file: string, from: nat, to: nat): string
  {
    if from <= to <= |file| then file[from..to] else if from <= to && from <= |file| then file[from..] else ""
  }

  lemma PartSplit(file: string, from: nat, mid: nat, to: nat)
    requires from <= mid <= to && mid <= |file|
    ensures Part(file, from, to) == file[from..mid] + Part(file, mid, to)
  {
  }

  /** Moving a chunk from what is owed to the wire keeps the whole. */
  lemma Moved(wire: string, chunk: string, rest: string)
    ensures wire + (chunk + rest) == (wire + chunk) + rest
    ensures wire <= wire + chunk
  {
  }

  lemma NoPart(file: string, from: nat)
    ensures Part(file, from, from) == ""
  {
  }

  datatype Recv = Data(chunk: string) | Closed | Blocked | Broken

  class Connection {
    const socket: Socket
    const readBuffer: array<char>
    var fill: nat
    const parser: HttpParser
    var request: HttpRequest

    var rawHeaders: string
    var headersSent: bool
    var writeBody: string
    var writeBodyOffset: nat
    var file: Option<string>
    var fileOffset: nat
    var fileRemaining: nat
    var headOnly: bool

    constructor (socket: Socket)
      ensures Valid() && this.socket == socket && Pending() == "" && Unsent() == "" && FileIntact() && Clear()
      ensures fresh(readBuffer) && fresh(parser) && fresh(request)
    {
      this.socket := socket;
      readBuffer := new char[READ_BUFFER_SIZE];
      fill := 0;
      parser := new HttpParser();
      request := new HttpRequest();
      rawHeaders, headersSent, writeBody, writeBodyOffset := "", false, "", 0;
      file, fileOffset, fileRemaining, headOnly := None, 0, 0, false;
    }

    ghost predicate Valid()
      reads this
    {
      && readBuffer.Length == READ_BUFFER_SIZE && fill <= READ_BUFFER_SIZE
      && writeBodyOffset <= |writeBody|
      && (file.Some? ==> writeBody == "")
      && (headersSent ==> rawHeaders == "")
    }

    // --- Write side -------------------------------------------------------------------------------

    /** The body bytes of the current response that are not on the wire yet. */
    ghost function UnsentBody(): string
      reads this
      requires writeBodyOffset <= |writeBody|
    {
      if headOnly then ""
      else if file.Some? then Part(file.value, fileOffset, fileOffset + fileRemaining)
      else writeBody[writeBodyOffset..]
    }

    /** Everything of the current response that is not on the wire yet. */
    ghost function Unsent(): string
      reads this
      requires writeBodyOffset <= |writeBody|
    {
      rawHeaders + UnsentBody()
    }

    /** The open file still holds every byte the response announced. */
    ghost predicate FileIntact()
      reads this
    {
      file.Some? ==> fileOffset + fileRemaining <= |file.value|
    }

    method ClearResponseState()
      requires Valid()
      modifies `rawHeaders, `headersSent, `writeBody, `writeBodyOffset, `file, `fileOffset, `fileRemaining, `headOnly
      ensures Valid() && Unsent() == "" && file == None && !headersSent && !headOnly
      ensures writeBody == "" && rawHeaders == ""
    {
      headersSent, rawHeaders, writeBody, writeBodyOffset, headOnly := false, "", "", 0, false;
      file, fileOffset, fileRemaining := None, 0, 0;
    }

    /** The body a response puts behind its headers. `disk` is what its file contains, if it can be disk. */
    static ghost function BodyOf(response: HttpResponse, disk: Option<string>): string
      reads response
    {
      if response.headOnly then ""
      else
        match response.content
        case Text(text) => text
        case File(_) =>
          if disk.None? || response.fileOffset < 0 then ""
          else if response.fileLength < 0 then Part(disk.value, response.fileOffset, |disk.value|)
          else Part(disk.value, response.fileOffset, response.fileOffset + response.fileLength)
    }

    /** `set_response_content`. `headers` is the serialised header block. */
    method SetResponseContent(response: HttpResponse, headers: string, disk: Option<string>)
      requires Valid() && response.fileOffset >= 0
      modifies `rawHeaders, `headersSent, `writeBody, `writeBodyOffset, `file, `fileOffset, `fileRemaining, `headOnly
      ensures Valid() && Unsent() == headers + BodyOf(response, disk)
      ensures response.headOnly ==> Unsent() == headers
      ensures response.content.Text? && !response.headOnly ==> Unsent() == headers + response.content.text
      ensures response.content.File? && !response.headOnly && disk.Some? ==>
                var offset, length, size := response.fileOffset, response.fileLength, |disk.value|;
                && (length < 0 && offset <= size ==> Unsent() == headers + disk.value[offset..])
                && (0 <= length && offset + length <= size ==> Unsent() == headers + disk.value[offset..offset + length])
      ensures (disk.Some? ==> response.fileOffset <= |disk.value|
                              && response.fileOffset + response.fileLength <= |disk.value|) ==> FileIntact()
    {
      ClearResponseState();
      rawHeaders := headers;
      headOnly := response.headOnly;
      match response.content {
        case File(_) =>
          file := disk;
          if file.None? {
            fileRemaining := 0;
            return;
          }
          fileOffset := response.fileOffset;
          var length := response.fileLength;
          if length < 0 {
            length := |file.value| - fileOffset;
            if length < 0 {
              length := 0;
            }
          }
          fileRemaining := length;
        case Text(text) =>
          writeBody := text;
      }
    }

    method HasDataToWrite() returns (pending: bool)
      requires Valid()
      ensures FileIntact() ==> (pending <==> Unsent() != "")
      ensures !pending ==> Unsent() == ""
    {
      if rawHeaders != "" {
        return true;
      }
      if headOnly {
        return false;
      }
      if file.Some? && fileRemaining > 0 {
        return true;
      }
      return writeBodyOffset < |writeBody|;
    }

    /** What the peer has received, followed by what the current response still owes it. */
    ghost function Promised(): string
      reads this, socket
      requires writeBodyOffset <= |writeBody|
    {
      socket.wire + Unsent()
    }

    /** `write_data` on a plaintext socket. Whatever the calls accept, the bytes that go out are the next bytes
        of the response, each once, and what is left is the rest. `touched` says whether it came to its end, where
        it updates the time of the last activity. */
    method WriteData() returns (result: int, touched: bool)
      requires Valid()
      modifies this, socket
      ensures Valid() && fill == old(fill) && request == old(request)
      ensures old(socket.wire) <= socket.wire && Promised() == old(Promised())
      ensures result == IO_ERROR || result == |socket.wire| - |old(socket.wire)|
      ensures old(FileIntact()) ==> FileIntact()
      ensures old(socket.short) ==> socket.short
      ensures result == IO_ERROR ==> socket.short
      ensures old(FileIntact()) && !socket.short ==> Unsent() == ""
    {
      hide Part;
      result, touched := 0, false;
      if !headersSent {
        result := SendHeaders();
        if result == IO_ERROR || rawHeaders != "" {
          return;
        }
        headersSent := true;
      }
      if headOnly {
        return result, true;
      }
      assert Unsent() == UnsentBody();
      var more;
      if file.Some? {
        more, touched := SendFileBody();
      } else {
        more, touched := SendTextBody();
      }
      assert Unsent() == UnsentBody();
      result := if more == IO_ERROR then IO_ERROR else result + more;
    }

    /** The first part of `write_data`: send the headers and drop what was accepted. */
    method SendHeaders() returns (result: int)
      requires Valid() && !headersSent
      modifies `rawHeaders, socket
      ensures Valid()
      ensures old(socket.wire) <= socket.wire && Promised() == old(Promised())
      ensures result == IO_ERROR || result == |socket.wire| - |old(socket.wire)|
      ensures old(socket.short) ==> socket.short
      ensures !socket.short ==> rawHeaders == "" && result != IO_ERROR
    {
      hide Part;
      ghost var body, wire := UnsentBody(), socket.wire;
      result := 0;
      if rawHeaders != "" {
        var n := socket.Send(rawHeaders);
        if n == WOULD_BLOCK {
          return 0;
        }
        if n == IO_ERROR {
          return IO_ERROR;
        }
        ghost var head, rest := rawHeaders[..n], rawHeaders[n..];
        assert rawHeaders == head + rest;
        assert rawHeaders + body == head + (rest + body);
        Moved(wire, head, rest + body);
        result := n;
        rawHeaders := rawHeaders[n..];
        assert UnsentBody() == body && Unsent() == rest + body;
      }
    }

    /** The last part of `write_data`: the in-memory body from its offset on. */
    method SendTextBody() returns (result: int, touched: bool)
      requires Valid() && file.None? && !headOnly
      modifies `writeBodyOffset, socket
      ensures Valid()
      ensures old(socket.wire) <= socket.wire && socket.wire + UnsentBody() == old(socket.wire + UnsentBody())
      ensures result == IO_ERROR || result == |socket.wire| - |old(socket.wire)|
      ensures old(socket.short) ==> socket.short
      ensures result == IO_ERROR ==> socket.short
      ensures !socket.short ==> UnsentBody() == ""
    {
      result, touched := 0, true;
      if writeBodyOffset < |writeBody| {
        ghost var wire := socket.wire;
        var rest := writeBody[writeBodyOffset..];
        var n := socket.Send(rest);
        if n == WOULD_BLOCK {
          return 0, false;
        }
        if n == IO_ERROR {
          return IO_ERROR, false;
        }
        ghost var left := rest[n..];
        assert rest == rest[..n] + left && writeBody[writeBodyOffset + n..] == left;
        Moved(wire, rest[..n], left);
        writeBodyOffset := writeBodyOffset + n;
        result := n;
        assert UnsentBody() == left;
      }
    }

    /** The `sendfile` loop of `write_data`. */
    method SendFileBody() returns (result: int, touched: bool)
      requires Valid() && file.Some? && !headOnly
      modifies `file, `fileOffset, `fileRemaining, socket
      ensures Valid()
      ensures old(socket.wire) <= socket.wire && socket.wire + UnsentBody() == old(socket.wire + UnsentBody())
      ensures result == IO_ERROR || result == |socket.wire| - |old(socket.wire)|
      ensures old(FileIntact()) ==> FileIntact()
      ensures old(socket.short) ==> socket.short
      ensures result == IO_ERROR ==> socket.short
      ensures old(FileIntact()) && !socket.short ==> UnsentBody() == ""
    {
      hide Part;
      result, touched := 0, true;
      ghost var end := fileOffset + fileRemaining;
      while fileRemaining > 0
        invariant file == old(file) && fileOffset + fileRemaining == end
        invariant old(socket.wire) <= socket.wire
        invariant socket.wire + UnsentBody() == old(socket.wire + UnsentBody())
        invariant result == |socket.wire| - |old(socket.wire)|
        invariant old(socket.short) ==> socket.short
        decreases fileRemaining
      {
        ghost var wire := socket.wire;
        var count := if fileRemaining < FILE_SEND_CHUNK then fileRemaining else FILE_SEND_CHUNK;
        var n := socket.SendFile(file.value, fileOffset, count);
        if n == WOULD_BLOCK {
          return result, false;
        }
        if n == 0 {
          break;
        }
        if n == IO_ERROR {
          return IO_ERROR, false;
        }
        PartSplit(file.value, fileOffset, fileOffset + n, end);
        Moved(wire, file.value[fileOffset..fileOffset + n], Part(file.value, fileOffset + n, end));
        fileOffset := fileOffset + n;
        fileRemaining := fileRemaining - n;
        result := result + n;
      }
      if fileRemaining == 0 {
        NoPart(file.value, fileOffset);
        file := None;
      }
    }

    /** Write events until nothing is pending, an error occurs, or `calls` of them were handled: the peer always
        has a prefix of what it was promised, and all of it exactly when nothing is pending. */
    method Deliver(calls: nat) returns (failed: bool, pending: bool)
      requires Valid() && FileIntact()
      modifies this, socket
      ensures Valid()
      ensures old(socket.wire) <= socket.wire <= old(Promised())
      ensures pending <==> socket.wire != old(Promised())
      ensures calls > 0 && !socket.short ==> !pending
    {
      failed := false;
      pending := HasDataToWrite();
      for i := 0 to calls
        invariant Valid() && FileIntact()
        invariant old(socket.wire) <= socket.wire && Promised() == old(Promised())
        invariant pending <==> Unsent() != ""
        invariant i > 0 && !socket.short ==> !pending
        invariant failed ==> socket.short
      {
        if !pending || failed {
          break;
        }
        var result, _ := WriteData();
        failed := result == IO_ERROR;
        pending := HasDataToWrite();
      }
    }

    // --- Read side --------------------------------------------------------------------------------

    /** The bytes received and not consumed. */
    ghost function Pending(): string
      reads this, readBuffer
      requires fill <= readBuffer.Length
    {
      readBuffer[..fill]
    }

    /** `read_data`: `r` is what `recv` returns for the free part of the buffer. */
    method ReadData(r: Recv) returns (n: int)
      requires Valid()
      requires fill < READ_BUFFER_SIZE && r.Data? ==> 0 < |r.chunk| <= READ_BUFFER_SIZE - fill
      modifies `fill, readBuffer
      ensures Valid()
      ensures n == if old(fill) == READ_BUFFER_SIZE then 0
                   else match r { case Data(chunk) => |chunk| case Closed => 0 case Blocked => -2 case Broken => -1 }
      ensures Pending() == old(Pending()) + (if n > 0 then r.chunk else "")
    {
      var available := READ_BUFFER_SIZE - fill;
      if available == 0 {
        return 0;
      }
      match r {
        case Data(chunk) =>
          forall i | 0 <= i < |chunk| {
            readBuffer[fill + i] := chunk[i];
          }
          fill := fill + |chunk|;
          return |chunk|;
        case Closed => return 0;
        case Blocked => return -2;
        case Broken => return -1;
      }
    }

    /** `parse_next`: parse the whole buffer from a clean state into a fresh request. */
    method ParseNext() returns (ok: bool, consumed: nat)
      requires Valid()
      modifies parser, readBuffer, `request
      ensures Valid() && fresh(request)
      ensures var outcome := old(Parse(Pending()));
              && (ok <==> outcome.Complete?)
              && (if fill == 0 then parser.state == old(parser.state)
                  else (parser.state == ERROR <==> outcome.Failed?) && (parser.state == OVERRUN <==> outcome.Overrun?))
              && (ok ==> consumed == outcome.used <= fill
                         && request.ownedStorage == null
                         && request.Inside(readBuffer, consumed, readBuffer[..])
                         && request.ValueIn(readBuffer[..]) == outcome.request)
      ensures forall i | 0 <= i < READ_BUFFER_SIZE && parser.state != OVERRUN && (!ok || consumed <= i) ::
                readBuffer[i] == old(readBuffer[i])
    {
      hide FromStart, HttpRequest.Inside, HttpRequest.ValueIn;
      request := new HttpRequest();
      if fill == 0 {
        NothingToParse();
        return false, 0;
      }
      parser.Reset();
      ok, consumed := parser.ParseRequest(readBuffer, fill, request);
    }

    static lemma SameTail(s: string, t: string, k: nat)
      requires k <= |s| == |t| && forall i | k <= i < |s| :: s[i] == t[i]
      ensures s[k..] == t[k..]
    {
    }

    static lemma NothingToParse()
      ensures Parse("") == Incomplete
    {
    }

    /** `consume`. */
    method Consume(n: nat)
      requires Valid()
      modifies `fill, readBuffer
      ensures Valid()
      ensures Pending() == (if n <= old(fill) then old(Pending())[n..] else "")
    {
      if n == 0 {
        return;
      }
      if n >= fill {
        fill := 0;
        return;
      }
      Memmove(readBuffer, 0, n, fill - n);
      fill := fill - n;
    }

    /** How `dispatch_next` takes a parsed request: move it out, make it own its bytes, drop them from the
        buffer. */
    method TakeRequest(consumed: nat, ghost value: Request) returns (taken: HttpRequest)
      requires Valid() && consumed <= fill && request.ownedStorage == null
      requires request.Inside(readBuffer, consumed, readBuffer[..])
      requires request.ValueIn(readBuffer[..]) == value
      modifies `fill, readBuffer, request
      ensures Valid() && fresh(taken) && fresh(taken.ownedStorage)
      ensures taken.Owns(value)
      ensures Pending() == old(Pending())[consumed..]
    {
      hide HttpRequest.Inside, HttpRequest.ValueIn;
      taken := new HttpRequest();
      taken.MoveFrom(request, readBuffer, consumed, value);
      taken.MakeOwned(readBuffer, consumed);
      Consume(consumed);
    }

    /** The parser can go on. */
    ghost predicate Clear()
      reads parser
    {
      parser.state != ERROR && parser.state != OVERRUN
    }

    /** Serve what is buffered, one request at a time, until more bytes are needed, the parser fails, or it
        overruns the buffer. */
    method ServeBuffered(ghost future: string, ghost stream: string, ghost before: seq<Request>)
      returns (requests: seq<HttpRequest>, ghost served: seq<Request>, failed: bool)
      requires Valid() && Clear()
      requires Framing.Faithful(Framing.Session(Pending(), before, false), future, stream)
      requires Framing.ClearOfLimit(Pending() + future)
      modifies this, readBuffer, parser, request
      ensures Valid() && (request == old(request) || fresh(request))
      ensures |requests| == |served|
      ensures parser.state != OVERRUN ==>
                forall i | 0 <= i < |requests| ::
                  fresh(requests[i]) && requests[i] != request && fresh(requests[i].ownedStorage)
                  && requests[i].Owns(served[i])
      ensures failed ==> Framing.ReadStream(stream) == Framing.Reading(before + served, true)
      ensures !failed ==>
                && Clear() && Parse(Pending()) == Incomplete
                && Framing.Faithful(Framing.Session(Pending(), before + served, false), future, stream)
                && Framing.ClearOfLimit(Pending() + future)
                && (old(Framing.Fits(Pending() + future, READ_BUFFER_SIZE))
                    ==> Framing.Fits(Pending() + future, READ_BUFFER_SIZE))
    {
      hide FromStart, HttpRequest.Inside, HttpRequest.ValueIn, HttpRequest.Owns;
      hide Parse, Framing.Faithful, Framing.ClearOfLimit, Framing.ReadStream, Framing.Fits;
      requests, served := [], [];
      assert before + served == before;
      while true
        invariant Valid() && Clear() && (request == old(request) || fresh(request))
        invariant |requests| == |served|
        invariant forall i | 0 <= i < |requests| ::
                    fresh(requests[i]) && requests[i] != request && fresh(requests[i].ownedStorage)
                    && requests[i].Owns(served[i])
        invariant Framing.Faithful(Framing.Session(Pending(), before + served, false), future, stream)
        invariant Framing.ClearOfLimit(Pending() + future)
        invariant old(Framing.Fits(Pending() + future, READ_BUFFER_SIZE))
                  ==> Framing.Fits(Pending() + future, READ_BUFFER_SIZE)
        decreases fill
      {
        ghost var c := Framing.Session(Pending(), before + served, false);
        Framing.NextFaithful(c, Framing.Serve, future, stream);
        Framing.FitsAfter(Pending(), future, READ_BUFFER_SIZE);
        NothingToParse();
        assert fill == 0 ==> Pending() == "";
        var ok, consumed := ParseNext();
        if !ok && (parser.state == ERROR || parser.state == OVERRUN) {
          Framing.ClosedFaithful(Framing.Next(c, Framing.Serve), future, stream);
          return requests, served, true;
        }
        if !ok {
          assert Pending() == c.pending;
          return requests, served, false;
        }
        assert parser.state != OVERRUN;
        SameTail(Pending(), c.pending, consumed);
        var taken := TakeRequest(consumed, Parse(c.pending).request);
        requests, served := requests + [taken], served + [Parse(c.pending).request];
        assert before + served == c.served + [Parse(c.pending).request];
      }
    }

    /** A readable event: `chunk` arrives, then everything complete is served. */
    method HandleReadable(chunk: string, ghost future: string, ghost stream: string, ghost before: seq<Request>)
      returns (requests: seq<HttpRequest>, ghost served: seq<Request>, failed: bool)
      requires Valid() && Clear() && 0 < |chunk| <= READ_BUFFER_SIZE - fill
      requires OnTrack(before, chunk + future, stream)
      modifies this, readBuffer, parser, request
      ensures Valid() && (request == old(request) || fresh(request))
      ensures |requests| == |served|
      ensures parser.state != OVERRUN ==>
                forall i | 0 <= i < |requests| ::
                  fresh(requests[i]) && requests[i] != request && fresh(requests[i].ownedStorage)
                  && requests[i].Owns(served[i])
      ensures failed ==> Framing.ReadStream(stream) == Framing.Reading(before + served, true)
      ensures !failed ==> Clear() && OnTrack(before + served, future, stream)
    {
      hide Parse, Framing.Faithful, Framing.ClearOfLimit, Framing.Fits, Framing.ReadStream, HttpRequest.Owns;
      ghost var pending := Pending();
      assert pending + (chunk + future) == (pending + chunk) + future;
      Framing.ArriveFaithful(pending, chunk, before, future, stream);
      var n := ReadData(Data(chunk));
      requests, served, failed := ServeBuffered(future, stream, before);
    }

    /** The requests served so far and what the buffer and the rest of the stream hold are the whole stream, and
        nothing complete is waiting. */
    ghost predicate OnTrack(served: seq<Request>, future: string, stream: string)
      reads this, readBuffer
      requires fill <= readBuffer.Length
    {
      && Parse(Pending()) == Incomplete
      && Framing.Faithful(Framing.Session(Pending(), served, false), future, stream)
      && Framing.ClearOfLimit(Pending() + future)
      && (Framing.Fits(stream, READ_BUFFER_SIZE) ==> Framing.Fits(Pending() + future, READ_BUFFER_SIZE))
    }

    /** The life of a connection that receives `stream`, cut into reads of arbitrary size: the requests taken off
        it are the requests of the stream in order, however it was cut, and each still denotes its own bytes
        after everything that happened to the buffer since, short of a write outside it. */
    method ServeStream(stream: string) returns (requests: seq<HttpRequest>, ghost served: seq<Request>, closed: bool)
      requires Valid() && fill == 0 && Clear()
      requires Framing.ClearOfLimit(stream)
      modifies this, readBuffer, parser, request
      ensures |requests| == |served|
      ensures parser.state != OVERRUN ==> forall i | 0 <= i < |requests| :: requests[i].Owns(served[i])
      ensures Framing.Fits(stream, READ_BUFFER_SIZE) ==> Framing.ReadStream(stream).requests == served
      ensures !closed ==> Framing.ReadStream(stream) == Framing.Reading(served, false)
    {
      hide Parse, Framing.Faithful, Framing.ClearOfLimit, Framing.Fits, Framing.ReadStream, HttpRequest.Owns;
      requests, served, closed := [], [], false;
      var rest := stream;
      assert Pending() == "" && "" + stream == stream;
      Framing.FaithfulAtStart(stream);
      NothingToParse();
      while rest != ""
        invariant Valid() && Clear() && (request == old(request) || fresh(request))
        invariant |requests| == |served|
        invariant forall i | 0 <= i < |requests| ::
                    fresh(requests[i]) && requests[i] != request && fresh(requests[i].ownedStorage)
                    && requests[i].Owns(served[i])
        invariant OnTrack(served, rest, stream)
        decreases |rest|
      {
        var n: nat := *;
        n := if 0 < n <= |rest| then n else |rest|;
        n := if n <= READ_BUFFER_SIZE - fill then n else READ_BUFFER_SIZE - fill;
        if n == 0 {
          Framing.FullBufferServedAll(Pending(), served, rest, stream, READ_BUFFER_SIZE);
          return requests, served, true;
        }
        assert rest == rest[..n] + rest[n..];
        var more, values, failed := HandleReadable(rest[..n], rest[n..], stream, served);
        rest := rest[n..];
        requests, served := requests + more, served + values;
        if failed {
          return requests, served, true;
        }
      }
      Framing.NothingMore(Pending(), served, stream);
    }
  }

  /** `body` is the part of the file from `start` on that consists of exactly the selected positions. */
  ghost predicate SelectedFrom(body: string, disk: string, spec: RangeSpec, start: nat)
  {
    && start + |body| <= |disk| && body == disk[start..start + |body|]
    && forall i :: Selects(spec, |disk|, i) <==> start <= i < start + |body|
  }

  /** What a GET of a file is to receive behind its headers: the bytes its range selects. */
  ghost predicate SelectedBytes(body: string, disk: string, spec: RangeSpec)
  {
    exists start: nat :: SelectedFrom(body, disk, spec, start)
  }

  /** Of a Range header as it is printed: the last `n` bytes, the bytes from `a` to `b`, or from `a` on. */
  ghost predicate PrintedBytes(body: string, disk: string, range: string)
  {
    && (forall n: nat | n < TWO_63 && range == "bytes=-" + Decimal(n) :: body == disk[|disk| - Least(n, |disk|)..])
    && (forall a: nat, b: nat | a < TWO_63 && b < TWO_63 && range == "bytes=" + Decimal(a) + "-" + Decimal(b) ::
          body == if a <= b && a < |disk| then disk[a..Least(b + 1, |disk|)] else "")
    && (forall a: nat | a < TWO_63 && range == "bytes=" + Decimal(a) + "-" ::
          body == if a < |disk| then disk[a..] else "")
    && (!("bytes=" <= range) || ',' in range || '-' !in range ==> body == disk)
  }

  lemma SelectedIs(body: string, disk: string, spec: RangeSpec, from: int, to: int)
    requires SelectedBytes(body, disk, spec)
    requires forall i :: Selects(spec, |disk|, i) <==> from <= i < to
    ensures from < to ==> 0 <= from && to <= |disk| && body == disk[from..to]
    ensures to <= from ==> body == ""
  {
    var start: nat :| SelectedFrom(body, disk, spec, start);
    assert body != "" ==> Selects(spec, |disk|, start) && Selects(spec, |disk|, start + |body| - 1);
    if from < to {
      assert Selects(spec, |disk|, from) && Selects(spec, |disk|, to - 1);
      assert start == from && start + |body| == to;
    }
  }

  lemma PrintedSelected(body: string, disk: string, range: string)
    requires SelectedBytes(body, disk, ReadRange(Some(range), Stoll))
    ensures PrintedBytes(body, disk, range)
  {
    hide ReadRange, Decimal, SelectedBytes;
    PrintedForms(range);
    forall n: nat | n < TWO_63 && range == "bytes=-" + Decimal(n)
      ensures body == disk[|disk| - Least(n, |disk|)..]
    {
      SelectedIs(body, disk, Suffix(n), |disk| - Least(n, |disk|), |disk|);
    }
    forall a: nat, b: nat | a < TWO_63 && b < TWO_63 && range == "bytes=" + Decimal(a) + "-" + Decimal(b)
      ensures body == if a <= b && a < |disk| then disk[a..Least(b + 1, |disk|)] else ""
    {
      SelectedIs(body, disk, Interval(a, Some(b)), a, Least(b + 1, |disk|));
    }
    forall a: nat | a < TWO_63 && range == "bytes=" + Decimal(a) + "-"
      ensures body == if a < |disk| then disk[a..] else ""
    {
      SelectedIs(body, disk, Interval(a, None), a, |disk|);
    }
    if !("bytes=" <= range) || ',' in range || '-' !in range {
      NoSingleRange(range);
      SelectedIs(body, disk, Whole, 0, |disk|);
    }
  }

  /** A GET of a file from handler to wire. When nothing is pending any more the peer has received the headers
      and then exactly the bytes the range selects, as many as Content-Length announced. */
  method ServeFile(conn: Connection, range: Option<string>, disk: string, mtime: int, printDate: int -> string,
                   readDate: string -> int, headers: string, calls: nat)
    returns (res: HttpResponse, pending: bool)
    requires conn.Valid() && |disk| < TWO_63
    modifies conn, conn.socket
    ensures conn.Valid()
    ensures res.status == (if ReadRange(range, Stoll) == Whole then OK
                           else if SelectsSome(ReadRange(range, Stoll), |disk|) then PARTIAL_CONTENT
                           else RANGE_NOT_SATISFIABLE)
    ensures exists body ::
              && old(conn.socket.wire) <= conn.socket.wire <= old(conn.socket.wire) + (headers + body)
              && (pending <==> conn.socket.wire != old(conn.socket.wire) + (headers + body))
              && SelectedBytes(body, disk, ReadRange(range, Stoll))
              && (if range.Some? then PrintedBytes(body, disk, range.value) else body == disk)
              && res.Says("Content-Length", Decimal(|body|))
    ensures calls > 0 && !conn.socket.short ==> !pending
  {
    hide ReadRange, Decimal, Part, PrintedBytes, Connection.Unsent;
    res := new HttpResponse();
    res.SetFile("file", "application/octet-stream", Some(|disk|));
    ApplyHttpSemantics(GET, range, Conditions(None, None), Some(FileStat(|disk|, mtime)), printDate, readDate, res);
    FileBody(res, disk, ReadRange(range, Stoll));
    conn.SetResponseContent(res, headers, Some(disk));
    ghost var body := Connection.BodyOf(res, Some(disk));
    assert conn.Promised() == old(conn.socket.wire) + (headers + body);
    if range.Some? {
      PrintedSelected(body, disk, range.value);
    } else {
      WholeFile(body, disk);
    }
    var failed;
    failed, pending := conn.Deliver(calls);
  }

  lemma WholeFile(body: string, disk: string)
    requires SelectedBytes(body, disk, ReadRange(None, Stoll))
    ensures body == disk
  {
    SelectedIs(body, disk, Whole, 0, |disk|);
  }

  lemma FileBody(res: HttpResponse, disk: string, spec: RangeSpec)
    requires res.content.File?
    requires exists fields: map<string, string> ::
               "Content-Length" in fields && fields["Content-Length"] == Decimal(|disk|)
               && res.AnswersRange(spec, |disk|, OK, fields, false)
    ensures var body := Connection.BodyOf(res, Some(disk));
            SelectedBytes(body, disk, spec) && res.Says("Content-Length", Decimal(|body|))
    ensures 0 <= res.fileOffset && res.fileOffset <= |disk| && res.fileOffset + res.fileLength <= |disk|
  {
    hide Decimal;
    var body := Connection.BodyOf(res, Some(disk));
    if spec == Whole {
      assert SelectedFrom(body, disk, spec, 0);
    } else if SelectsSome(spec, |disk|) {
      assert Selects(spec, |disk|, res.fileOffset + res.fileLength - 1);
      assert SelectedFrom(body, disk, spec, res.fileOffset);
    } else {
      assert SelectedFrom(body, disk, spec, 0);
    }
  }
}
