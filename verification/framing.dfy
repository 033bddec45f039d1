/** Request framing does not depend on how the stream is cut into reads. */
module Framing {
  import opened Bytes
  import opened Numerals
  import opened HttpSyntax

  // --- Every stage of the parser only ever looks at the bytes it has decided on --------------------

  lemma {:induction false} TrailersPrefix(s: string, u: string, pos: nat)
    requires s <= u
    ensures TrailersEnd(s, pos).Some? ==> TrailersEnd(u, pos) == TrailersEnd(s, pos)
    ensures TrailersEnd(u, pos).Some? && TrailersEnd(u, pos).value <= |s|
            ==> TrailersEnd(s, pos) == TrailersEnd(u, pos)
    decreases |u| - pos
  {
    hide Find;
    FindPrefix(s, u, CRLF, pos);
    var e := Find(u, CRLF, pos);
    if e.Some? && e.value != pos {
      TrailersPrefix(s, u, e.value + 2);
    }
  }

  ghost predicate ScansAgree(a: Scan, b: Scan, length: nat)
  {
    && (a != More ==> b == a)
    && (b.Done? && b.end <= length ==> a == b)
  }

  lemma SizeLinePrefix(s: string, u: string, pos: nat)
    requires s <= u
    ensures SizeLineAt(s, pos) == NoLine || SizeLineAt(s, pos) == SizeLineAt(u, pos)
    ensures SizeLineAt(u, pos).SizeLine? && SizeLineAt(u, pos).data <= |s|
            ==> SizeLineAt(s, pos) == SizeLineAt(u, pos)
  {
    hide Find, ChunkSize;
    FindPrefix(s, u, CRLF, pos);
    var e := Find(u, CRLF, pos);
    if e.Some? && e.value + 2 <= |s| {
      assert s[pos..e.value] == u[pos..e.value];
    }
  }

  lemma {:induction false} SpillPrefix(s: string, u: string, pos: nat, total: nat)
    requires s <= u
    ensures ScansAgree(ScanAfterSpill(s, pos, total), ScanAfterSpill(u, pos, total), |s|)
    decreases |u| - pos
  {
    hide Find, SizeLineAt, TrailersEnd, Size64;
    SizeLinePrefix(s, u, pos);
    match SizeLineAt(u, pos)
    case NoLine =>
    case BadLine =>
    case SizeLine(data, size) =>
      if size == 0 {
        TrailersPrefix(s, u, data);
      } else if data + Size64(size + 2) <= |s| {
        SpillPrefix(s, u, data + Size64(size + 2), Size64(total + size));
      }
  }

  lemma {:induction false} ScanPrefix(s: string, u: string, pos: nat, body: string)
    requires s <= u
    ensures ScansAgree(ScanChunks(s, pos, body), ScanChunks(u, pos, body), |s|)
    decreases |u| - pos
  {
    hide Find, SizeLineAt, TrailersEnd, Size64;
    SizeLinePrefix(s, u, pos);
    match SizeLineAt(u, pos)
    case NoLine =>
    case BadLine =>
    case SizeLine(data, size) =>
      if size == 0 {
        TrailersPrefix(s, u, data);
      } else if data + Size64(size + 2) <= |s| {
        if size + 2 < TWO_64 {
          assert s[data..data + size] == u[data..data + size];
          ScanPrefix(s, u, data + size + 2, body + u[data..data + size]);
        } else {
          SpillPrefix(s, u, data + Size64(size + 2), Size64(|body| + size));
        }
      }
  }

  ghost predicate OutcomesAgree(a: Outcome, b: Outcome, length: nat)
  {
    && (a != Incomplete ==> b == a)
    && (b.Complete? && b.used <= length ==> a == b)
  }

  lemma FromBodyPrefix(s: string, u: string, pos: nat, head: Head, headers: map<string, string>)
    requires s <= u && pos <= |s|
    ensures OutcomesAgree(FromBody(s, pos, head, headers), FromBody(u, pos, head, headers), |s|)
  {
    hide FramingOf, ScanChunks;
    match FramingOf(headers)
    case Sized(n) =>
      if pos + n <= |s| {
        assert s[pos..pos + n] == u[pos..pos + n];
      }
    case Chunked => ScanPrefix(s, u, pos, "");
    case _ =>
  }

  lemma {:induction false} FromHeadersPrefix(s: string, u: string, pos: nat, head: Head, headers: map<string, string>)
    requires s <= u
    ensures OutcomesAgree(FromHeaders(s, pos, head, headers), FromHeaders(u, pos, head, headers), |s|)
    decreases |u| - pos
  {
    hide Find, ParseHeaderLine, FromBody;
    FindPrefix(s, u, CRLF, pos);
    var e := Find(u, CRLF, pos);
    if e.None? || e.value + 2 > |s| {
      assert FromHeaders(s, pos, head, headers) == Incomplete;
    } else if e.value == pos {
      FromBodyPrefix(s, u, pos + 2, head, headers);
    } else {
      assert s[pos..e.value] == u[pos..e.value];
      match ParseHeaderLine(u[pos..e.value])
      case None =>
      case Some((key, value)) => FromHeadersPrefix(s, u, e.value + 2, head, headers[key := value]);
    }
  }

  lemma FromStartPrefix(s: string, u: string)
    requires s <= u
    ensures OutcomesAgree(FromStart(s), FromStart(u), |s|)
  {
    hide Find, ParseRequestLine, FromHeaders;
    FindPrefix(s, u, CRLF, 0);
    var e := Find(u, CRLF, 0);
    if e.Some? && e.value + 2 <= |s| {
      assert s[..e.value] == u[..e.value];
      var head := ParseRequestLine(u[..e.value]);
      if head.Some? {
        FromHeadersPrefix(s, u, e.value + 2, head.value, map[]);
      }
    }
  }

  // --- The header guard ---------------------------------------------------------------------------

  lemma BlankIsTwoLineEnds(s: string, i: nat)
    ensures OccursAt(s, BLANK_LINE, i) <==> OccursAt(s, CRLF, i) && OccursAt(s, CRLF, i + 2)
  {
    if 0 <= i && i + 4 <= |s| {
      assert s[i..i + 4] == s[i..i + 2] + s[i + 2..i + 4];
      assert BLANK_LINE[..2] == CRLF && BLANK_LINE[2..] == CRLF;
      assert s[i..i + 4][..2] == s[i..i + 2] && s[i..i + 4][2..] == s[i + 2..i + 4];
    }
  }

  /** Lines end exactly at the occurrences of CRLF, so the empty line that ends the headers is the first
      blank line of the buffer. */
  lemma {:induction false} HeadersEndAtBlankLine(s: string, pos: nat, head: Head, headers: map<string, string>)
    requires 2 <= pos && OccursAt(s, CRLF, pos - 2)
    requires forall i | 0 <= i < pos - 2 :: !OccursAt(s, BLANK_LINE, i)
    ensures var outcome := FromHeaders(s, pos, head, headers);
            && (outcome.Complete? || outcome.Overrun? ==> Find(s, BLANK_LINE, 0).Some?)
            && (outcome.Complete? ==> Find(s, BLANK_LINE, 0).value + 4 <= outcome.used)
    decreases |s| - pos
  {
    hide Find, ParseHeaderLine, FromBody;
    var e := Find(s, CRLF, pos);
    FindSpec(s, CRLF, pos);
    if e.Some? {
      if e.value == pos {
        BlankIsTwoLineEnds(s, pos - 2);
        FindIs(s, BLANK_LINE, 0, pos - 2);
      } else {
        forall i | 0 <= i < e.value
          ensures !OccursAt(s, BLANK_LINE, i)
        {
          BlankIsTwoLineEnds(s, i);
          assert i == pos - 1 ==> s[pos - 2..pos][1] == s[i];
        }
        var line := ParseHeaderLine(s[pos..e.value]);
        if line.Some? {
          HeadersEndAtBlankLine(s, e.value + 2, head, headers[line.value.0 := line.value.1]);
        }
      }
    }
  }

  lemma CompleteHasBlankLine(s: string)
    requires FromStart(s).Complete? || FromStart(s).Overrun?
    ensures Find(s, BLANK_LINE, 0).Some?
    ensures FromStart(s).Complete? ==> Find(s, BLANK_LINE, 0).value + 4 <= FromStart(s).used
  {
    hide Find, ParseRequestLine, FromHeaders;
    var e := Find(s, CRLF, 0).value;
    FindSpec(s, CRLF, 0);
    forall i | 0 <= i < e
      ensures !OccursAt(s, BLANK_LINE, i)
    {
      BlankIsTwoLineEnds(s, i);
    }
    HeadersEndAtBlankLine(s, e + 2, ParseRequestLine(s[..e]).value, map[]);
  }

  /** The guard refuses `s` only because the blank line of its extension `u` has not arrived yet. */
  predicate RefusedTooEarly(s: string, u: string)
  {
    && |s| > MAX_HEADER_BYTES
    && Find(s, BLANK_LINE, 0).None?
    && Find(u, BLANK_LINE, 0).Some?
    && Find(u, BLANK_LINE, 0).value <= MAX_HEADER_BYTES
  }

  /** What a prefix of the stream says about the stream. */
  lemma ParsePrefix(s: string, u: string)
    requires s <= u
    ensures Parse(s).Complete? ==> Parse(u) == Parse(s)
    ensures Parse(u).Complete? && Parse(u).used <= |s| ==> Parse(s) == Parse(u)
    ensures Parse(s).Failed? ==> Parse(u).Failed? || RefusedTooEarly(s, u)
    ensures Parse(s).Overrun? ==> Parse(u).Overrun?
  {
    hide Find, FromStart;
    FromStartPrefix(s, u);
    FindPrefix(s, u, BLANK_LINE, 0);
    if FromStart(s).Complete? || FromStart(s).Overrun? {
      CompleteHasBlankLine(s);
    }
    if FromStart(u).Complete? {
      CompleteHasBlankLine(u);
    }
  }

  /** A request is recognised on exactly the byte that completes it: on no shorter read, and in the same way
      on every longer one. */
  lemma RecognisedOnItsLastByte(u: string, k: nat)
    requires k <= |u| && Parse(u).Complete?
    ensures Parse(u[..k]).Complete? <==> Parse(u).used <= k
    ensures Parse(u).used <= k ==> Parse(u[..k]) == Parse(u)
  {
    hide Parse;
    ParsePrefix(u[..k], u);
  }

  /** A stream whose first request is acceptable has a prefix the parser refuses exactly when its header
      block ends within the last three bytes below the limit. */
  lemma {:induction false} RefusedOnShortRead(u: string)
    requires Parse(u).Complete?
    ensures Find(u, BLANK_LINE, 0).Some?
    ensures (exists k: nat | k <= |u| :: Parse(u[..k]).Failed?)
            <==> Find(u, BLANK_LINE, 0).value > MAX_HEADER_BYTES - 3
  {
    hide Find, FromStart;
    CompleteHasBlankLine(u);
    var end := Find(u, BLANK_LINE, 0).value;
    if end > MAX_HEADER_BYTES - 3 {
      var s := u[..end + 3];
      FindPrefix(s, u, BLANK_LINE, 0);
      assert Parse(u[..end + 3]).Failed?;
    }
    forall k: nat | k <= |u| && Parse(u[..k]).Failed?
      ensures end > MAX_HEADER_BYTES - 3
    {
      ParsePrefix(u[..k], u);
      FindPrefix(u[..k], u, BLANK_LINE, 0);
    }
  }

  // --- Streams ------------------------------------------------------------------------------------

  /** All requests of a stream in order, and whether what follows them ends the reading: the parser refuses it,
      or decoding it leaves the buffer. */
  datatype Reading = Reading(requests: seq<Request>, ended: bool)

  function ReadStream(s: string): Reading
    decreases |s|
  {
    match Parse(s)
    case Incomplete => Reading([], false)
    case Failed => Reading([], true)
    case Overrun => Reading([], true)
    case Complete(used, request) =>
      var rest := ReadStream(s[used..]);
      Reading([request] + rest.requests, rest.ended)
  }

  /** No header block of the stream ends within the last three bytes below the limit. */
  predicate ClearOfLimit(s: string)
    decreases |s|
  {
    && (Find(s, BLANK_LINE, 0).Some?
        ==> !(MAX_HEADER_BYTES - 3 < Find(s, BLANK_LINE, 0).value <= MAX_HEADER_BYTES))
    && (Parse(s).Complete? ==> ClearOfLimit(s[Parse(s).used..]))
  }

  /** Every request of the stream fits in `capacity` bytes. */
  predicate Fits(s: string, capacity: nat)
    decreases |s|
  {
    Parse(s).Complete? ==> Parse(s).used <= capacity && Fits(s[Parse(s).used..], capacity)
  }

  /** One connection: a read appends to the buffer; serving parses the whole buffer from a clean state and
      drops what a complete request used. A parse error closes the connection, and so does a write outside the
      buffer, with the whole program. */
  datatype Session = Session(pending: string, served: seq<Request>, closed: bool)

  datatype Step = Arrive(chunk: string) | Serve

  function Next(c: Session, step: Step): Session
  {
    if c.closed then c
    else
      match step
      case Arrive(chunk) => c.(pending := c.pending + chunk)
      case Serve =>
        match Parse(c.pending)
        case Incomplete => c
        case Failed => c.(closed := true)
        case Overrun => c.(closed := true)
        case Complete(used, request) => c.(pending := c.pending[used..], served := c.served + [request])
  }

  function Run(c: Session, steps: seq<Step>): Session
    decreases |steps|
  {
    if steps == [] then c else Run(Next(c, steps[0]), steps[1..])
  }

  /** The bytes a list of steps delivers. */
  function Arrived(steps: seq<Step>): string
  {
    if steps == [] then ""
    else (if steps[0].Arrive? then steps[0].chunk else "") + Arrived(steps[1..])
  }

  /** What the session has served, followed by what its buffer and the bytes still to come contain, is what
      the whole stream contains. */
  ghost predicate Faithful(c: Session, future: string, stream: string)
  {
    var rest := ReadStream(c.pending + future);
    && ReadStream(stream) == Reading(c.served + rest.requests, rest.ended)
    && (c.closed ==> rest == Reading([], true))
  }

  lemma NextFaithful(c: Session, step: Step, future: string, stream: string)
    requires step.Serve? && !c.closed
    requires Faithful(c, future, stream) && ClearOfLimit(c.pending + future)
    ensures Faithful(Next(c, step), future, stream)
    ensures ClearOfLimit(Next(c, step).pending + future)
  {
    hide Find, FromStart;
    var u := c.pending + future;
    ParsePrefix(c.pending, u);
    if Parse(c.pending).Failed? {
      FindPrefix(c.pending, u, BLANK_LINE, 0);
      assert Parse(u).Failed?;
    } else if Parse(c.pending).Complete? {
      var used, request := Parse(c.pending).used, Parse(c.pending).request;
      assert u[used..] == c.pending[used..] + future;
      var rest := ReadStream(u[used..]);
      assert ReadStream(u) == Reading([request] + rest.requests, rest.ended);
      assert (c.served + [request]) + rest.requests == c.served + ([request] + rest.requests);
    }
  }

  lemma ClosedFaithful(c: Session, future: string, stream: string)
    requires c.closed && Faithful(c, future, stream)
    ensures ReadStream(stream) == Reading(c.served, true)
  {
    assert c.served + [] == c.served;
  }

  lemma {:induction false} RunFaithful(c: Session, steps: seq<Step>, future: string, stream: string)
    requires Faithful(c, Arrived(steps) + future, stream)
    requires !c.closed ==> ClearOfLimit(c.pending + (Arrived(steps) + future))
    ensures !Run(c, steps).closed ==> Faithful(Run(c, steps), future, stream)
    ensures Run(c, steps).closed ==> ReadStream(stream) == Reading(Run(c, steps).served, true)
    decreases |steps|
  {
    hide Parse;
    if c.closed {
      ClosedFaithful(c, Arrived(steps) + future, stream);
      RunClosed(c, steps);
    } else if steps == [] {
      assert Arrived(steps) + future == future;
    } else {
      var rest := Arrived(steps[1..]) + future;
      if steps[0].Serve? {
        assert Arrived(steps) + future == rest;
        NextFaithful(c, steps[0], rest, stream);
      } else {
        assert c.pending + (Arrived(steps) + future) == Next(c, steps[0]).pending + rest;
      }
      RunFaithful(Next(c, steps[0]), steps[1..], future, stream);
    }
  }

  lemma {:induction false} RunClosed(c: Session, steps: seq<Step>)
    requires c.closed
    ensures Run(c, steps) == c
    decreases |steps|
  {
    if steps != [] {
      RunClosed(c, steps[1..]);
    }
  }

  /** The main theorem: for every way of cutting the stream into reads and interleaving them with serving, an
      open session has served a prefix of the stream's requests and still holds the others, and a session
      that was closed has served every request the stream holds. */
  lemma FragmentationIndependence(steps: seq<Step>, future: string)
    requires ClearOfLimit(Arrived(steps) + future)
    ensures var c := Run(Session("", [], false), steps);
            var stream := Arrived(steps) + future;
            && (!c.closed ==> ReadStream(stream).requests
                                == c.served + ReadStream(c.pending + future).requests)
            && (c.closed ==> ReadStream(stream) == Reading(c.served, true))
  {
    hide Parse, ClearOfLimit;
    var stream := Arrived(steps) + future;
    var c := Session("", [], false);
    assert c.pending + stream == stream;
    assert c.served + ReadStream(stream).requests == ReadStream(stream).requests;
    RunFaithful(c, steps, future, stream);
  }

  /** Two sessions that received the same bytes and have nothing more to serve have served the same requests. */
  lemma {:induction false} SameRequestsHoweverCut(a: seq<Step>, b: seq<Step>)
    requires Arrived(a) == Arrived(b) && ClearOfLimit(Arrived(a))
    requires Next(Run(Session("", [], false), a), Serve) == Run(Session("", [], false), a)
    requires Next(Run(Session("", [], false), b), Serve) == Run(Session("", [], false), b)
    ensures Run(Session("", [], false), a).served == Run(Session("", [], false), b).served
    ensures Run(Session("", [], false), a).closed == Run(Session("", [], false), b).closed
  {
    hide Parse, ClearOfLimit;
    Drained(a);
    Drained(b);
  }

  lemma Drained(steps: seq<Step>)
    requires ClearOfLimit(Arrived(steps))
    requires Next(Run(Session("", [], false), steps), Serve) == Run(Session("", [], false), steps)
    ensures var c := Run(Session("", [], false), steps);
            ReadStream(Arrived(steps)) == Reading(c.served, c.closed)
  {
    hide Parse, ClearOfLimit;
    var stream := Arrived(steps);
    var c := Session("", [], false);
    assert stream + "" == stream && c.pending + stream == stream;
    assert c.served + ReadStream(stream).requests == ReadStream(stream).requests;
    RunFaithful(c, steps, "", stream);
    var end := Run(c, steps);
    assert end.pending + "" == end.pending;
    if !end.closed {
      assert !Parse(end.pending).Complete? by {
        assert Parse(end.pending).Complete? ==> |Next(end, Serve).served| == |end.served| + 1;
      }
      assert end.served + [] == end.served;
    }
  }

  /** A full read buffer always yields a request while the stream's requests fit in it, so a read never finds
      the buffer full for want of a longer one. */
  lemma {:induction false} NeverStuck(pending: string, future: string, capacity: nat)
    requires Fits(pending + future, capacity) && capacity <= |pending|
    requires Parse(pending + future).Complete?
    ensures Parse(pending) == Parse(pending + future)
  {
    hide Parse;
    ParsePrefix(pending, pending + future);
  }

  /** Serving a request leaves a stream whose remaining requests still fit. */
  lemma FitsAfter(pending: string, future: string, capacity: nat)
    ensures Fits(pending + future, capacity) && Parse(pending).Complete? ==>
              Fits(pending[Parse(pending).used..] + future, capacity)
  {
    hide Parse;
    ParsePrefix(pending, pending + future);
    if Parse(pending).Complete? {
      var used := Parse(pending).used;
      assert (pending + future)[used..] == pending[used..] + future;
    }
  }

  lemma FaithfulAtStart(stream: string)
    ensures Faithful(Session("", [], false), stream, stream)
  {
    hide ReadStream;
    assert "" + stream == stream;
    assert [] + ReadStream(stream).requests == ReadStream(stream).requests;
  }

  lemma ArriveFaithful(pending: string, chunk: string, served: seq<Request>, future: string, stream: string)
    requires Faithful(Session(pending, served, false), chunk + future, stream)
    ensures Faithful(Session(pending + chunk, served, false), future, stream)
  {
    hide ReadStream;
    assert pending + (chunk + future) == (pending + chunk) + future;
  }

  lemma NothingMore(pending: string, served: seq<Request>, stream: string)
    requires Faithful(Session(pending, served, false), "", stream) && Parse(pending) == Incomplete
    ensures ReadStream(stream) == Reading(served, false)
  {
    hide Parse;
    assert pending + "" == pending && served + [] == served;
  }

  lemma FullBufferServedAll(pending: string, served: seq<Request>, future: string, stream: string, capacity: nat)
    requires Faithful(Session(pending, served, false), future, stream) && Parse(pending) == Incomplete
    requires capacity <= |pending|
    ensures Fits(pending + future, capacity) ==> ReadStream(stream).requests == served
  {
    hide Parse;
    if Fits(pending + future, capacity) {
      if Parse(pending + future).Complete? {
        NeverStuck(pending, future, capacity);
      }
      assert served + [] == served;
    }
  }
}
