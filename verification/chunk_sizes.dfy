/** Chunk sizes of more than 64 bits: the scan of a chunked body in natural numbers, exactly when the program,
    which computes in a `size_t`, does the same, and inputs on which it does not. */
module ChunkSizes {
  import opened Bytes
  import opened Numerals
  import opened HttpSyntax
  import opened Chunked
  import opened RequestText
  import Framing

  // --- The scan in natural numbers ------------------------------------------------------------------

  /** The chunk-size line at `pos`, with the size it says. */
  function WrittenLineAt(s: string, pos: nat): (r: SizeLine)
    ensures r.SizeLine? ==> pos + 2 <= r.data <= |s|
  {
    match Find(s, CRLF, pos)
    case None => NoLine
    case Some(eol) =>
      match WrittenSize(s[pos..eol])
      case None => BadLine
      case Some(v) => SizeLine(eol + 2, v)
  }

  lemma LineWraps(s: string, pos: nat)
    ensures SizeLineAt(s, pos)
         == match WrittenLineAt(s, pos) { case SizeLine(data, v) => SizeLine(data, Size64(v)) case line => line }
  {
    hide Find, WrittenSize;
  }

  /** What section 4.1 of RFC 7230 makes of a body, within the limit on its length: a size is the number that is
      written. */
  function ScanExact(s: string, pos: nat, body: string): (r: Scan)
    ensures r.Done? ==> pos < r.end <= |s|
    ensures !r.Spills?
    decreases |s| - pos
  {
    match WrittenLineAt(s, pos)
    case NoLine => More
    case BadLine => Bad
    case SizeLine(data, v) =>
      if v == 0 then
        match TrailersEnd(s, data)
        case None => More
        case Some(end) => Done(end, body)
      else if |body| + v > MAX_BODY_BYTES then Bad
      else if |s| - data < v + 2 then More
      else ScanExact(s, data + v + 2, body + s[data..data + v])
  }

  /** The program takes a size beyond the limit for an acceptable one: its low 64 bits are 0, or the total they
      make is within the limit. */
  predicate Misread(total: nat, v: nat)
  {
    total + v > MAX_BODY_BYTES && (Size64(v) == 0 || Size64(total + v) <= MAX_BODY_BYTES)
  }

  /** The end of the first size line reached that is misread. */
  function MisreadAt(s: string, pos: nat, body: string): (r: Option<nat>)
    ensures r.Some? ==> pos < r.value <= |s|
    decreases |s| - pos
  {
    match WrittenLineAt(s, pos)
    case NoLine => None
    case BadLine => None
    case SizeLine(data, v) =>
      if v == 0 then None
      else if |body| + v > MAX_BODY_BYTES then (if Misread(|body|, v) then Some(data) else None)
      else if |s| - data < v + 2 then None
      else MisreadAt(s, data + v + 2, body + s[data..data + v])
  }

  // --- When the program computes it -------------------------------------------------------------------

  lemma {:induction false} ExactWithoutMisread(s: string, pos: nat, body: string)
    requires MisreadAt(s, pos, body).None?
    ensures ScanChunks(s, pos, body) == ScanExact(s, pos, body)
    decreases |s| - pos
  {
    hide WrittenLineAt, SizeLineAt, TrailersEnd, Size64;
    LineWraps(s, pos);
    match WrittenLineAt(s, pos)
    case NoLine =>
    case BadLine =>
    case SizeLine(data, v) =>
      WrapOnce(v, |body|);
      if v > 0 && |body| + v <= MAX_BODY_BYTES && v + 2 <= |s| - data {
        ExactWithoutMisread(s, data + v + 2, body + s[data..data + v]);
      }
  }

  lemma WrittenLinePrefix(s: string, k: nat, pos: nat)
    requires k <= |s|
    ensures WrittenLineAt(s[..k], pos) == NoLine || WrittenLineAt(s[..k], pos) == WrittenLineAt(s, pos)
    ensures WrittenLineAt(s, pos).SizeLine? && WrittenLineAt(s, pos).data <= k
            ==> WrittenLineAt(s[..k], pos) == WrittenLineAt(s, pos)
  {
    hide Find, WrittenSize;
    FindPrefix(s[..k], s, CRLF, pos);
    var e := Find(s, CRLF, pos);
    if e.Some? && e.value + 2 <= k {
      assert s[..k][pos..e.value] == s[pos..e.value];
    }
  }

  /** A prefix misreads what the whole does, as soon as it holds the line. */
  lemma {:induction false} MisreadPrefix(s: string, k: nat, pos: nat, body: string)
    requires k <= |s|
    ensures var at := MisreadAt(s, pos, body);
            MisreadAt(s[..k], pos, body) == if at.Some? && at.value <= k then at else None
    decreases |s| - pos
  {
    hide WrittenLineAt, Misread;
    WrittenLinePrefix(s, k, pos);
    match WrittenLineAt(s, pos)
    case NoLine =>
    case BadLine =>
    case SizeLine(data, v) =>
      if v > 0 && |body| + v <= MAX_BODY_BYTES && data + v + 2 <= |s| {
        if data + v + 2 <= k {
          assert s[..k][data..data + v] == s[data..data + v];
        }
        MisreadPrefix(s, k, data + v + 2, body + s[data..data + v]);
      }
  }

  lemma NoTrailers(s: string)
    ensures TrailersEnd(s, |s|) == None
  {
  }

  /** Once the misread line has arrived the body is refused in natural numbers, and the program waits for more. */
  lemma {:induction false} MisreadShows(s: string, pos: nat, body: string)
    requires MisreadAt(s, pos, body).Some?
    ensures ScanExact(s, pos, body) == Bad
    ensures MisreadAt(s, pos, body).value == |s| ==> ScanChunks(s, pos, body) == More
    decreases |s| - pos
  {
    hide WrittenLineAt, SizeLineAt, TrailersEnd, Size64;
    LineWraps(s, pos);
    NoTrailers(s);
    var line := WrittenLineAt(s, pos);
    var data, v := line.data, line.size;
    WrapOnce(v, |body|);
    if |body| + v <= MAX_BODY_BYTES {
      MisreadShows(s, data + v + 2, body + s[data..data + v]);
    } else {
      NothingAfterSpill(s, data, Size64(|body| + v));
    }
  }

  lemma NothingAfterSpill(s: string, pos: nat, total: nat)
    ensures pos == |s| ==> ScanAfterSpill(s, pos, total) == More
  {
  }

  /** The exact condition: on every prefix of what arrives the program finds what the natural scan finds, if and
      only if no size line the natural scan reaches is misread. */
  lemma {:induction false} ExactIff(s: string, pos: nat, body: string)
    ensures (forall k: nat | k <= |s| :: ScanChunks(s[..k], pos, body) == ScanExact(s[..k], pos, body))
            <==> MisreadAt(s, pos, body).None?
  {
    hide ScanChunks, ScanExact, MisreadAt;
    var at := MisreadAt(s, pos, body);
    if at.Some? {
      var k := at.value;
      MisreadPrefix(s, k, pos, body);
      MisreadShows(s[..k], pos, body);
      assert ScanChunks(s[..k], pos, body) != ScanExact(s[..k], pos, body);
    } else {
      forall k: nat | k <= |s|
        ensures ScanChunks(s[..k], pos, body) == ScanExact(s[..k], pos, body)
      {
        MisreadPrefix(s, k, pos, body);
        ExactWithoutMisread(s[..k], pos, body);
      }
    }
  }

  /** On one buffer alone the two also agree when the program, after misreading a size, refuses the body for
      something else. */
  lemma {:induction false} SameAnswerIff(s: string, pos: nat, body: string)
    ensures ScanChunks(s, pos, body) == ScanExact(s, pos, body)
            <==> MisreadAt(s, pos, body).None? || ScanChunks(s, pos, body) == Bad
  {
    hide ScanChunks, ScanExact, MisreadAt;
    if MisreadAt(s, pos, body).None? {
      ExactWithoutMisread(s, pos, body);
    } else {
      MisreadShows(s, pos, body);
    }
  }

  // --- Whole requests -----------------------------------------------------------------------------------

  /** Where a body starts, and what stands before it. */
  datatype BodyStart = BodyStart(pos: nat, head: Head, headers: map<string, string>)

  function BodyInHeaders(s: string, pos: nat, head: Head, headers: map<string, string>): (r: Option<BodyStart>)
    ensures r.Some? ==> pos + 2 <= r.value.pos <= |s|
    decreases |s| - pos
  {
    match Find(s, CRLF, pos)
    case None => None
    case Some(eol) =>
      if eol == pos then Some(BodyStart(pos + 2, head, headers))
      else
        match ParseHeaderLine(s[pos..eol])
        case None => None
        case Some((key, value)) => BodyInHeaders(s, eol + 2, head, headers[key := value])
  }

  /** The chunked body of the buffer, if it has one and its header block is within the limit. */
  function ChunkedBody(s: string): (r: Option<BodyStart>)
    ensures r.Some? ==> 0 < r.value.pos <= |s|
  {
    match Find(s, CRLF, 0)
    case None => None
    case Some(eol) =>
      match ParseRequestLine(s[..eol])
      case None => None
      case Some(head) =>
        match BodyInHeaders(s, eol + 2, head, map[])
        case None => None
        case Some(b) =>
          if FramingOf(b.headers) == HttpSyntax.Framing.Chunked && !HeaderTooLong(s) then Some(b) else None
  }

  function Decoded(scan: Scan, b: BodyStart): Outcome
  {
    match scan
    case More => Incomplete
    case Bad => Failed
    case Done(end, body) => Complete(end, Request(b.head, b.headers, body))
    case Spills => Overrun
  }

  /** `Parse`, with chunk sizes in natural numbers. */
  function ParseExact(s: string): (r: Outcome)
    ensures r.Complete? ==> 0 < r.used <= |s|
  {
    match ChunkedBody(s)
    case None => Parse(s)
    case Some(b) => Decoded(ScanExact(s, b.pos, ""), b)
  }

  /** The end of the first misread size line of the buffer. */
  function FirstMisread(s: string): Option<nat>
  {
    match ChunkedBody(s)
    case None => None
    case Some(b) => MisreadAt(s, b.pos, "")
  }

  lemma {:induction false} HeadersToBody(s: string, pos: nat, head: Head, headers: map<string, string>)
    ensures var b := BodyInHeaders(s, pos, head, headers);
            b.Some? ==> FromHeaders(s, pos, head, headers) == FromBody(s, b.value.pos, b.value.head, b.value.headers)
    decreases |s| - pos
  {
    hide Find, ParseHeaderLine, FromBody;
    var e := Find(s, CRLF, pos);
    if e.Some? && e.value != pos && ParseHeaderLine(s[pos..e.value]).Some? {
      var (key, value) := ParseHeaderLine(s[pos..e.value]).value;
      HeadersToBody(s, e.value + 2, head, headers[key := value]);
    }
  }

  lemma ParseChunked(s: string)
    requires ChunkedBody(s).Some?
    ensures var b := ChunkedBody(s).value;
            Parse(s) == Decoded(ScanChunks(s, b.pos, ""), b)
  {
    hide Find, ParseRequestLine, FramingOf, FromHeaders, BodyInHeaders, ScanChunks;
    var eol := Find(s, CRLF, 0).value;
    HeadersToBody(s, eol + 2, ParseRequestLine(s[..eol]).value, map[]);
  }

  lemma {:induction false} BodyInPrefix(s: string, k: nat, pos: nat, head: Head, headers: map<string, string>)
    requires k <= |s|
    ensures var b := BodyInHeaders(s, pos, head, headers);
            BodyInHeaders(s[..k], pos, head, headers) == if b.Some? && b.value.pos <= k then b else None
    decreases |s| - pos
  {
    hide Find, ParseHeaderLine;
    FindPrefix(s[..k], s, CRLF, pos);
    var e := Find(s, CRLF, pos);
    if e.Some? && e.value != pos {
      if e.value + 2 <= k {
        assert s[..k][pos..e.value] == s[pos..e.value];
      }
      if ParseHeaderLine(s[pos..e.value]).Some? {
        var (key, value) := ParseHeaderLine(s[pos..e.value]).value;
        BodyInPrefix(s, k, e.value + 2, head, headers[key := value]);
      }
    }
  }

  /** A body starts behind the first blank line. */
  lemma {:induction false} BlankBeforeBody(s: string, pos: nat, head: Head, headers: map<string, string>)
    requires 2 <= pos && OccursAt(s, CRLF, pos - 2)
    ensures var b := BodyInHeaders(s, pos, head, headers);
            b.Some? ==> OccursAt(s, BLANK_LINE, b.value.pos - 4)
    decreases |s| - pos
  {
    hide Find, ParseHeaderLine;
    FindSpec(s, CRLF, pos);
    var e := Find(s, CRLF, pos);
    if e.Some? {
      if e.value == pos {
        Framing.BlankIsTwoLineEnds(s, pos - 2);
      } else if ParseHeaderLine(s[pos..e.value]).Some? {
        var (key, value) := ParseHeaderLine(s[pos..e.value]).value;
        BlankBeforeBody(s, e.value + 2, head, headers[key := value]);
      }
    }
  }

  /** From the byte before its body on, the header block is measured as in the whole buffer. */
  lemma GuardOfPrefix(s: string, k: nat, i: nat)
    requires k <= |s| && i + 4 <= k && OccursAt(s, BLANK_LINE, i)
    ensures HeaderTooLong(s[..k]) == HeaderTooLong(s)
  {
    hide Find;
    FindPrefix(s[..k], s, BLANK_LINE, 0);
    FindSpec(s, BLANK_LINE, 0);
  }

  lemma BodyOfPrefix(s: string, k: nat)
    requires k <= |s|
    ensures var b := ChunkedBody(s);
            ChunkedBody(s[..k]) == if b.Some? && b.value.pos <= k then b else None
  {
    hide Find, OccursAt, ParseRequestLine, FramingOf, BodyInHeaders, HeaderTooLong;
    FindPrefix(s[..k], s, CRLF, 0);
    var e := Find(s, CRLF, 0);
    if e.Some? {
      var eol := e.value;
      if eol + 2 <= k {
        assert s[..k][..eol] == s[..eol];
      }
      if ParseRequestLine(s[..eol]).Some? {
        var head := ParseRequestLine(s[..eol]).value;
        BodyInPrefix(s, k, eol + 2, head, map[]);
        FindSpec(s, CRLF, 0);
        BlankBeforeBody(s, eol + 2, head, map[]);
        var b := BodyInHeaders(s, eol + 2, head, map[]);
        if b.Some? && b.value.pos <= k {
          assert b.value.pos >= 4;
          GuardOfPrefix(s, k, b.value.pos - 4);
        }
      }
    }
  }

  /** The exact condition on requests: whatever part of the buffer has arrived, the program's answer is the one
      in natural numbers, if and only if no size line is misread. */
  lemma {:induction false} ParseExactIff(s: string)
    ensures (forall k: nat | k <= |s| :: Parse(s[..k]) == ParseExact(s[..k])) <==> FirstMisread(s).None?
  {
    hide Parse, ChunkedBody, ScanChunks, ScanExact, MisreadAt;
    var b := ChunkedBody(s);
    forall k: nat | k <= |s| && (b.None? || k < b.value.pos)
      ensures Parse(s[..k]) == ParseExact(s[..k])
    {
      BodyOfPrefix(s, k);
    }
    if b.Some? {
      forall k: nat | b.value.pos <= k <= |s|
        ensures Parse(s[..k]) == ParseExact(s[..k])
            <==> ScanChunks(s[..k], b.value.pos, "") == ScanExact(s[..k], b.value.pos, "")
      {
        BodyOfPrefix(s, k);
        ParseChunked(s[..k]);
      }
      PrefixesFrom(s, b.value.pos);
      ExactIff(s, b.value.pos, "");
    }
  }

  lemma PrefixesFrom(s: string, pos: nat)
    requires pos <= |s|
    ensures forall k: nat | k < pos :: ScanChunks(s[..k], pos, "") == ScanExact(s[..k], pos, "")
  {
    hide TrailersEnd, Size64;
  }

  lemma {:induction false} ExactRequest(s: string)
    requires FirstMisread(s).None?
    ensures Parse(s) == ParseExact(s)
  {
    hide Parse, ParseExact, FirstMisread;
    ParseExactIff(s);
    assert s[..|s|] == s;
  }

  // --- Sizes of at most 15 digits -------------------------------------------------------------------------

  predicate AllHex(s: string)
  {
    forall i | 0 <= i < |s| :: HexDigit(s[i]).Some?
  }

  /** Nowhere do 16 hexadecimal digits stand next to each other. */
  ghost predicate NoLongNumber(s: string)
  {
    forall i, j | 0 <= i && i + 16 == j <= |s| :: !AllHex(s[i..j])
  }

  function Power16(n: nat): nat
  {
    if n == 0 then 1 else 16 * Power16(n - 1)
  }

  lemma {:induction false} DigitsBound(token: string)
    ensures HexValue(token).Some? ==> AllHex(token) && HexValue(token).value < Power16(|token|)
  {
    hide HexDigit;
    if token != "" {
      DigitsBound(token[..|token| - 1]);
      assert token == token[..|token| - 1] + [token[|token| - 1]];
    }
  }

  lemma {:induction false} PowerBound(n: nat)
    requires n <= 15
    ensures Power16(n) <= Power16(15) == 0x1000_0000_0000_0000
    decreases 15 - n
  {
    if n < 15 {
      PowerBound(n + 1);
    }
  }

  /** The digits of a size stand at the start of its line. */
  lemma {:induction false} TrimPrefix(token: string)
    ensures TrimRight(token) <= token
  {
    if token != "" {
      TrimPrefix(token[..|token| - 1]);
    }
  }

  /** Every size line the natural scan reaches has at most 15 digits. */
  predicate ShortSizes(s: string, pos: nat, body: string)
    decreases |s| - pos
  {
    match WrittenLineAt(s, pos)
    case NoLine => true
    case BadLine => true
    case SizeLine(data, v) =>
      && |SizeToken(s[pos..data - 2])| <= 15
      && (v > 0 && |body| + v <= MAX_BODY_BYTES && data + v + 2 <= |s| ==>
            ShortSizes(s, data + v + 2, body + s[data..data + v]))
  }

  lemma ShortSize(s: string, pos: nat)
    requires WrittenLineAt(s, pos).SizeLine? && |SizeToken(s[pos..WrittenLineAt(s, pos).data - 2])| <= 15
    ensures WrittenLineAt(s, pos).size < 0x1000_0000_0000_0000
  {
    hide Find, SizeToken, HexValue, AllHex, Power16;
    var token := SizeToken(s[pos..Find(s, CRLF, pos).value]);
    DigitsBound(token);
    PowerBound(|token|);
  }

  lemma {:induction false} ShortSizesAreRead(s: string, pos: nat, body: string)
    requires ShortSizes(s, pos, body) && |body| <= MAX_BODY_BYTES
    ensures MisreadAt(s, pos, body).None?
    decreases |s| - pos
  {
    hide WrittenLineAt, SizeToken;
    var line := WrittenLineAt(s, pos);
    if line.SizeLine? {
      ShortSize(s, pos);
      var data, v := line.data, line.size;
      if v > 0 && |body| + v <= MAX_BODY_BYTES && data + v + 2 <= |s| {
        ShortSizesAreRead(s, data + v + 2, body + s[data..data + v]);
      }
    }
  }

  lemma ShortToken(s: string, pos: nat)
    requires NoLongNumber(s) && WrittenLineAt(s, pos).SizeLine?
    ensures |SizeToken(s[pos..WrittenLineAt(s, pos).data - 2])| <= 15
  {
    hide Find, TrimRight, HexValue, AllHex, Power16;
    var line := s[pos..Find(s, CRLF, pos).value];
    var token := SizeToken(line);
    TrimPrefix(match Find(line, ";", 0) case None => line case Some(semi) => line[..semi]);
    assert token <= line;
    DigitsBound(token);
    if |token| >= 16 {
      assert s[pos..pos + 16] == token[..16];
      FirstHex(token);
      assert false;
    }
  }

  lemma FirstHex(token: string)
    requires AllHex(token) && |token| >= 16
    ensures AllHex(token[..16])
  {
  }

  lemma {:induction false} NoLongSizes(s: string, pos: nat, body: string)
    requires NoLongNumber(s)
    ensures ShortSizes(s, pos, body)
    decreases |s| - pos
  {
    hide NoLongNumber, WrittenLineAt, SizeToken;
    var line := WrittenLineAt(s, pos);
    if line.SizeLine? {
      ShortToken(s, pos);
      var data, v := line.data, line.size;
      if v > 0 && |body| + v <= MAX_BODY_BYTES && data + v + 2 <= |s| {
        NoLongSizes(s, data + v + 2, body + s[data..data + v]);
      }
    }
  }

  /** The requests of a stream, with chunk sizes in natural numbers. */
  function ReadStreamExact(s: string): Framing.Reading
    decreases |s|
  {
    match ParseExact(s)
    case Incomplete => Framing.Reading([], false)
    case Failed => Framing.Reading([], true)
    case Overrun => Framing.Reading([], true)
    case Complete(used, request) =>
      var rest := ReadStreamExact(s[used..]);
      Framing.Reading([request] + rest.requests, rest.ended)
  }

  lemma NoLongNumberAfter(s: string, used: nat)
    requires NoLongNumber(s) && used <= |s|
    ensures NoLongNumber(s[used..])
  {
    hide AllHex;
    var t := s[used..];
    forall i, j | 0 <= i && i + 16 == j <= |t|
      ensures !AllHex(t[i..j])
    {
      assert t[i..j] == s[used + i..used + j];
    }
  }

  /** A stream in which no 16 hexadecimal digits stand next to each other is read as in natural numbers: the same
      requests, the same end, and no write outside the buffer. */
  lemma {:induction false} ShortSizesAreExact(s: string)
    requires NoLongNumber(s)
    ensures Parse(s) == ParseExact(s) && !Parse(s).Overrun?
    ensures Framing.ReadStream(s) == ReadStreamExact(s)
    decreases |s|
  {
    hide Parse, ParseExact, ChunkedBody, NoLongNumber;
    ShortRequest(s);
    if Parse(s).Complete? {
      NoLongNumberAfter(s, Parse(s).used);
      ShortSizesAreExact(s[Parse(s).used..]);
    }
  }

  lemma {:induction false} ShortRequest(s: string)
    requires NoLongNumber(s)
    ensures Parse(s) == ParseExact(s) && !Parse(s).Overrun?
  {
    hide Parse, ChunkedBody, NoLongNumber, ShortSizes, ScanExact, MisreadAt;
    if ChunkedBody(s).Some? {
      NoLongSizes(s, ChunkedBody(s).value.pos, "");
      ShortSizesAreRead(s, ChunkedBody(s).value.pos, "");
    }
    ExactRequest(s);
    OnlyChunkedOverruns(s);
  }

  lemma {:induction false} OverrunInHeaders(s: string, pos: nat, head: Head, headers: map<string, string>)
    requires FromHeaders(s, pos, head, headers).Overrun?
    ensures var b := BodyInHeaders(s, pos, head, headers);
            b.Some? && FramingOf(b.value.headers) == HttpSyntax.Framing.Chunked
    decreases |s| - pos
  {
    hide Find, ParseHeaderLine, FramingOf, ScanChunks;
    var e := Find(s, CRLF, pos).value;
    if e != pos {
      var (key, value) := ParseHeaderLine(s[pos..e]).value;
      OverrunInHeaders(s, e + 2, head, headers[key := value]);
    }
  }

  lemma OnlyChunkedOverruns(s: string)
    ensures Parse(s).Overrun? ==> ChunkedBody(s).Some?
  {
    hide Find, ParseRequestLine, FramingOf, FromHeaders, BodyInHeaders, HeaderTooLong;
    if Parse(s).Overrun? {
      var eol := Find(s, CRLF, 0).value;
      OverrunInHeaders(s, eol + 2, ParseRequestLine(s[..eol]).value, map[]);
    }
  }

  // --- Inputs on which they differ ----------------------------------------------------------------------

  /** A chunk, then a size line: where the scan stands behind that line. */
  lemma AfterFirst(s: string, pos: nat, c: Chunk, size: SizeText, v: nat, rest: string)
    requires c.data != "" && c.size.Valid(|c.data|) && |c.data| <= MAX_BODY_BYTES
    requires size.Valid(v) && StandsAt(s, pos, c.size.Line() + CRLF + (c.data + (CRLF + (size.Line() + CRLF + rest))))
    ensures var next := pos + |c.size.Line()| + 2 + |c.data| + 2;
            var data := next + |size.Line()| + 2;
            && WrittenLineAt(s, next) == SizeLine(data, v) && StandsAt(s, data, rest)
            && ScanChunks(s, pos, "") == ScanChunks(s, next, c.data)
            && ScanExact(s, pos, "") == ScanExact(s, next, c.data)
  {
    hide SizeLineAt, WrittenLineAt, ScanChunks, StandsAt;
    hide SizeText.Line;
    hide SizeText.Valid;
    var more := size.Line() + CRLF + rest;
    var next := pos + |c.size.Line()| + 2 + |c.data| + 2;
    ReadChunk(s, pos, c, CRLF, more, "");
    assert "" + c.data == c.data;
    ReadWrittenLine(s, next, size, v, rest);
    ReadWrittenLine(s, pos, c.size, |c.data|, c.data + (CRLF + more));
    var data := pos + |c.size.Line()| + 2;
    StandsSplit(s, data, c.data, CRLF + more);
    assert StandsAt(s, next, more);
    StandsInside(s, data, c.data);
    StandsInside(s, next, more);
  }

  lemma StandsInside(s: string, pos: nat, text: string)
    requires StandsAt(s, pos, text)
    ensures pos + |text| <= |s| && s[pos..pos + |text|] == text
  {
  }

  lemma ReadWrittenLine(s: string, pos: nat, t: SizeText, size: nat, rest: string)
    requires t.Valid(size) && StandsAt(s, pos, t.Line() + CRLF + rest)
    ensures WrittenLineAt(s, pos) == SizeLine(pos + |t.Line()| + 2, size)
    ensures StandsAt(s, pos + |t.Line()| + 2, rest)
  {
    hide Find, WrittenSize;
    SizeTextLine(t, size);
    assert t.Line() + CRLF + rest == t.Line() + (CRLF + rest);
    StandsSplit(s, pos, t.Line(), CRLF + rest);
    StandsSplit(s, pos + |t.Line()|, CRLF, rest);
    LineAt(s, pos, t.Line());
  }

  /** A body of one chunk of at least two bytes and a size line that says 2^64 - 2. */
  function HugeBody(c: Chunk, size: SizeText, last: SizeText, trailers: seq<string>): string
  {
    c.size.Line() + CRLF + (c.data + (CRLF + (size.Line() + CRLF + (last.Line() + CRLF + EncodeTrailers(trailers)))))
  }

  /** The step over the huge chunk is empty and the total it makes is smaller, so pass 1 finds the body complete
      and pass 2 moves 2^64 - 2 bytes. In natural numbers the body is refused. */
  lemma {:induction false} HugeChunkSpills(s: string, pos: nat, c: Chunk, size: SizeText, last: SizeText, trailers: seq<string>)
    requires 2 <= |c.data| <= MAX_BODY_BYTES && c.size.Valid(|c.data|)
    requires size.Valid(TWO_64 - 2) && last.Valid(0) && ValidTrailers(trailers)
    requires StandsAt(s, pos, HugeBody(c, size, last, trailers))
    ensures ScanChunks(s, pos, "") == Spills && ScanExact(s, pos, "") == Bad
  {
    hide WrittenLineAt, SizeLineAt, EncodeTrailers, ValidTrailers, StandsAt, TrailersEnd;
    hide SizeText.Line;
    hide SizeText.Valid;
    var rest := last.Line() + CRLF + EncodeTrailers(trailers);
    AfterFirst(s, pos, c, size, TWO_64 - 2, rest);
    var next := pos + |c.size.Line()| + 2 + |c.data| + 2;
    var data := next + |size.Line()| + 2;
    LineWraps(s, next);
    ReadSizeLine(s, data, last, 0, EncodeTrailers(trailers));
    ReadTrailers(s, data + |last.Line()| + 2, trailers);
    assert Size64(|c.data| + (TWO_64 - 2)) == |c.data| - 2 && Size64(TWO_64 - 2 + 2) == 0;
    assert ScanAfterSpill(s, data, |c.data| - 2) == Spills;
  }

  /** So every request with such a body is one the program does not survive, whatever follows it. */
  lemma {:induction false} HugeChunkOverruns(start: Start, fields: seq<Field>, c: Chunk, size: SizeText, last: SizeText,
                          trailers: seq<string>, after: string)
    requires ValidHead(start, fields) && SaysChunked(fields) && LastValue(fields, LENGTH) == None
    requires 2 <= |c.data| <= MAX_BODY_BYTES && c.size.Valid(|c.data|)
    requires size.Valid(TWO_64 - 2) && last.Valid(0) && ValidTrailers(trailers)
    ensures Parse(HeadText(start, fields) + (HugeBody(c, size, last, trailers) + after)) == Overrun
  {
    FramingIs(fields);
    hide Parse, FramingOf, HeadText, HeadOf, FieldMap, ValidHead, HugeBody, ScanChunks, ValidTrailers, SaysChunked, LastValue;
    hide SizeText.Valid;
    var head, body := HeadText(start, fields), HugeBody(c, size, last, trailers);
    HeadRoundTrip(start, fields, body + after);
    assert (head + (body + after))[|head|..|head| + |body|] == body;
    HugeChunkSpills(head + (body + after), |head|, c, size, last, trailers);
  }

  /** The last chunk ends the scan. */
  lemma AtLastChunk(s: string, pos: nat, last: SizeText, trailers: seq<string>, body: string)
    requires last.Valid(0) && ValidTrailers(trailers)
    requires StandsAt(s, pos, last.Line() + CRLF + EncodeTrailers(trailers))
    ensures ScanChunks(s, pos, body).Done? && ScanChunks(s, pos, body).body == body
  {
    hide SizeLineAt, EncodeTrailers, ValidTrailers, TrailersEnd, StandsAt;
    hide SizeText.Line;
    hide SizeText.Valid;
    ReadSizeLine(s, pos, last, 0, EncodeTrailers(trailers));
    ReadTrailers(s, pos + |last.Line()| + 2, trailers);
  }

  /** A size of 2^64 and the length of the data is taken for that length. */
  lemma {:induction false} LongSizeAccepted(s: string, pos: nat, data: string, size: SizeText, last: SizeText,
                                            trailers: seq<string>)
    requires 1 <= |data| <= MAX_BODY_BYTES && size.Valid(TWO_64 + |data|) && last.Valid(0) && ValidTrailers(trailers)
    requires StandsAt(s, pos, size.Line() + CRLF + (data + (CRLF + (last.Line() + CRLF + EncodeTrailers(trailers)))))
    ensures ScanChunks(s, pos, "").Done? && ScanChunks(s, pos, "").body == data && ScanExact(s, pos, "") == Bad
  {
    hide WrittenLineAt, SizeLineAt, EncodeTrailers, ValidTrailers, TrailersEnd, StandsAt;
    hide SizeText.Line;
    hide SizeText.Valid;
    var rest := last.Line() + CRLF + EncodeTrailers(trailers);
    ReadWrittenLine(s, pos, size, TWO_64 + |data|, data + (CRLF + rest));
    LineWraps(s, pos);
    var from := pos + |size.Line()| + 2;
    StandsSplit(s, from, data, CRLF + rest);
    StandsSplit(s, from + |data|, CRLF, rest);
    StandsInside(s, from, data);
    StandsInside(s, from + |data|, CRLF);
    AtLastChunk(s, from + |data| + 2, last, trailers, data);
    assert Size64(TWO_64 + |data|) == |data|;
    assert "" + data == data;
  }

  lemma {:induction false} AppendDigit(token: string, v: nat, c: char)
    requires HexValue(token) == Some(v) && HexDigit(c).Some?
    ensures HexValue(token + [c]) == Some(v * 16 + HexDigit(c).value)
  {
    assert (token + [c])[..|token|] == token;
  }

  function Run(c: char, n: nat): (r: string)
    ensures |r| == n && forall i | 0 <= i < n :: r[i] == c
  {
    if n == 0 then "" else Run(c, n - 1) + [c]
  }

  lemma {:induction false} AllFs(n: nat)
    ensures HexValue(Run('f', n)) == Some(Power16(n) - 1)
  {
    if n > 0 {
      assert HexDigit('f') == Some(15);
      hide HexValue, HexDigit;
      AllFs(n - 1);
      var p := Power16(n - 1);
      assert Power16(n) == 16 * p && Run('f', n) == Run('f', n - 1) + ['f'];
      hide Power16, Run;
      AppendDigit(Run('f', n - 1), p - 1, 'f');
    }
  }

  lemma {:induction false} OneAndZeros(n: nat)
    ensures HexValue("1" + Run('0', n)) == Some(Power16(n))
  {
    if n == 0 {
      AppendDigit("", 0, '1');
      assert "1" + Run('0', 0) == "" + ['1'];
    } else {
      assert HexDigit('0') == Some(0);
      hide HexValue, HexDigit;
      OneAndZeros(n - 1);
      var p := Power16(n - 1);
      assert Power16(n) == 16 * p && Run('0', n) == Run('0', n - 1) + ['0'];
      hide Power16, Run;
      var front := "1" + Run('0', n - 1);
      AppendDigit(front, p, '0');
      assert "1" + (Run('0', n - 1) + ['0']) == front + ['0'];
    }
  }

  /** The sizes that follow, as they are written. */
  lemma SizesWritten()
    ensures HexValue("0") == Some(0) && HexValue("5") == Some(5)
    ensures HexValue("fffffffffffffffe") == Some(TWO_64 - 2)
    ensures HexValue("10000000000000005") == Some(TWO_64 + 5)
  {
    AppendDigit("", 0, '0');
    AppendDigit("", 0, '5');
    assert "" + ['0'] == "0" && "" + ['5'] == "5";
    AllFs(15);
    OneAndZeros(15);
    hide HexValue, Power16;
    PowerBound(15);
    assert Run('f', 15) == "fffffffffffffff" && "1" + Run('0', 15) == "1000000000000000";
    AppendDigit("fffffffffffffff", 0xfff_ffff_ffff_ffff, 'e');
    AppendDigit("1000000000000000", 0x1000_0000_0000_0000, '5');
    assert "fffffffffffffff" + ['e'] == "fffffffffffffffe" && "1000000000000000" + ['5'] == "10000000000000005";
  }

  lemma PlainLine(digits: string)
    ensures SizeText(digits, "", "").Line() == digits
  {
  }

  lemma WholeStands(s: string)
    ensures StandsAt(s, 0, s)
  {
  }

  const POST_LINE := "POST / HTTP/1.1"
  const CHUNKED_LINE := "Transfer-Encoding: chunked"

  lemma WrittenStart(start: Start)
    requires start == Start(POST, Target("/", None), "HTTP/1.1")
    ensures ValidStart(start) && StartLine(start) == POST_LINE && |POST_LINE| == 15
  {
    assert MethodText(POST) == "POST";
  }

  lemma WrittenField(f: Field)
    requires f == Field("Transfer-Encoding", " ", "chunked")
    ensures f.Valid() && f.Line() == CHUNKED_LINE && |CHUNKED_LINE| == 26
    ensures SaysChunked([f]) && LastValue([f], LENGTH) == None
  {
    FindIs("chunked", "chunked", 0, 0);
    assert [f][1..] == [] && LastValue([], ENCODING) == None && LastValue([], LENGTH) == None;
    assert ENCODING != LENGTH;
  }

  lemma WrittenHead(start: Start, f: Field)
    requires start == Start(POST, Target("/", None), "HTTP/1.1") && f == Field("Transfer-Encoding", " ", "chunked")
    ensures ValidHead(start, [f]) && HeadText(start, [f]) == POST_LINE + CRLF + (CHUNKED_LINE + CRLF + CRLF)
  {
    WrittenStart(start);
    WrittenField(f);
    hide ValidStart, StartLine, SaysChunked, LastValue, POST_LINE, CHUNKED_LINE;
    hide Field.Valid;
    hide Field.Line;
    assert FieldsText([f]) == CHUNKED_LINE + CRLF + CRLF;
  }

  /** Such a request as it is written: a chunk `hello`, and one of 2^64 - 2 bytes. */
  lemma HugeChunkWritten(after: string)
    ensures Parse(POST_LINE + CRLF + (CHUNKED_LINE + CRLF + CRLF)
                  + ("5" + CRLF + ("hello" + (CRLF + ("fffffffffffffffe" + CRLF + ("0" + CRLF + CRLF)))) + after))
         == Overrun
  {
    SizesWritten();
    PlainLine("5");
    PlainLine("fffffffffffffffe");
    PlainLine("0");
    var start, f := Start(POST, Target("/", None), "HTTP/1.1"), Field("Transfer-Encoding", " ", "chunked");
    WrittenHead(start, f);
    WrittenField(f);
    hide Parse, HexValue, ValidHead, HeadText, SaysChunked, LastValue, FieldMap, POST_LINE, CHUNKED_LINE;
    hide SizeText.Line;
    HugeChunkOverruns(start, [f], Chunk(SizeText("5", "", ""), "hello"), SizeText("fffffffffffffffe", "", ""),
                      SizeText("0", "", ""), [], after);
  }

  /** And `hello` in a chunk of 2^64 + 5 bytes. */
  lemma LongSizeWritten()
    ensures ScanChunks("10000000000000005" + CRLF + ("hello" + (CRLF + ("0" + CRLF + CRLF))), 0, "").Done?
    ensures ScanChunks("10000000000000005" + CRLF + ("hello" + (CRLF + ("0" + CRLF + CRLF))), 0, "").body == "hello"
  {
    SizesWritten();
    PlainLine("10000000000000005");
    PlainLine("0");
    hide ScanChunks, HexValue, StandsAt;
    hide SizeText.Line;
    WholeStands("10000000000000005" + CRLF + ("hello" + (CRLF + ("0" + CRLF + CRLF))));
    LongSizeAccepted("10000000000000005" + CRLF + ("hello" + (CRLF + ("0" + CRLF + CRLF))), 0, "hello",
                     SizeText("10000000000000005", "", ""), SizeText("0", "", ""), []);
  }
}
