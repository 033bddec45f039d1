/** What `HttpParser` computes from the bytes of a whole buffer, as a function: the request and the number of
    bytes it occupies, or that more bytes are needed, or that the parser is in its error state, or that decoding
    the body writes outside the buffer. */
module HttpSyntax {
  import opened Bytes
  import opened Numerals

  const MAX_HEADER_BYTES: nat := 64 * 1024
  const MAX_BODY_BYTES: nat := 8 * 1024 * 1024

  datatype Method = GET | POST | PUT | DELETE | PATCH | HEAD | OPTIONS | UNKNOWN

  datatype Head = Head(verb: Method, path: string, query: map<string, string>, version: string)

  datatype Request = Request(head: Head, headers: map<string, string>, body: string)

  datatype Outcome = Incomplete | Failed | Complete(used: nat, request: Request) | Overrun

  // --- Request line ------------------------------------------------------------------------------

  function MethodOf(s: string): Method
  {
    if s == "GET" then GET
    else if s == "POST" then POST
    else if s == "PUT" then PUT
    else if s == "DELETE" then DELETE
    else if s == "PATCH" then PATCH
    else if s == "HEAD" then HEAD
    else if s == "OPTIONS" then OPTIONS
    else UNKNOWN
  }

  /** The pairs of a query string from position `start`, added to `found` in order. */
  function ParseQuery(q: string, start: nat, found: map<string, string>): map<string, string>
    decreases |q| - start
  {
    if start >= |q| then found
    else
      match Find(q, "=", start)
      case None => found[q[start..] := ""]
      case Some(eq) =>
        match Find(q, "&", eq + 1)
        case None => found[q[start..eq] := q[eq + 1..]]
        case Some(amp) => ParseQuery(q, amp + 1, found[q[start..eq] := q[eq + 1..amp]])
  }

  /** A request target: its path, and the pairs of its query string. */
  function SplitTarget(target: string): (string, map<string, string>)
  {
    match Find(target, "?", 0)
    case None => (target, map[])
    case Some(mark) => (target[..mark], ParseQuery(target[mark + 1..], 0, map[]))
  }

  function ParseRequestLine(line: string): Option<Head>
  {
    match Find(line, " ", 0)
    case None => None
    case Some(first) =>
      match Find(line, " ", first + 1)
      case None => None
      case Some(second) =>
        var verb := MethodOf(line[..first]);
        if verb == UNKNOWN then None
        else
          var (path, query) := SplitTarget(line[first + 1..second]);
          Some(Head(verb, path, query, line[second + 1..]))
  }

  // --- Headers -----------------------------------------------------------------------------------

  function ParseHeaderLine(line: string): Option<(string, string)>
  {
    match Find(line, ":", 0)
    case None => None
    case Some(colon) =>
      var value := line[colon + 1..];
      Some((line[..colon], value[SpacesEnd(value, 0)..]))
  }

  datatype Framing = NoBody | Sized(n: nat) | Chunked | Rejected

  /** How the headers delimit the body. */
  function FramingOf(headers: map<string, string>): Framing
  {
    var chunked := "Transfer-Encoding" in headers && Has(headers["Transfer-Encoding"], "chunked");
    if chunked && "Content-Length" in headers then Rejected
    else if chunked then Chunked
    else if "Content-Length" in headers then
      match Stoul(headers["Content-Length"])
      case None => Rejected
      case Some(n) => if n > MAX_BODY_BYTES then Rejected else if n > 0 then Sized(n) else NoBody
    else NoBody
  }

  // --- Chunked bodies ----------------------------------------------------------------------------

  function HexDigit(c: char): (d: Option<nat>)
    ensures d.Some? ==> d.value < 16
  {
    if '0' <= c <= '9' then Some(c as nat - '0' as nat)
    else if 'a' <= c <= 'f' then Some(c as nat - 'a' as nat + 10)
    else if 'A' <= c <= 'F' then Some(c as nat - 'A' as nat + 10)
    else None
  }

  function HexValue(token: string): Option<nat>
  {
    if token == "" then Some(0)
    else
      match (HexValue(token[..|token| - 1]), HexDigit(token[|token| - 1]))
      case (Some(v), Some(d)) => Some(v * 16 + d)
      case _ => None
  }

  /** `token` without trailing blanks and tabs. */
  function TrimRight(token: string): (r: string)
    ensures |r| <= |token|
  {
    if token != "" && (token[|token| - 1] == ' ' || token[|token| - 1] == '\t')
    then TrimRight(token[..|token| - 1]) else token
  }

  /** The size token of a chunk-size line. */
  function SizeToken(line: string): string
  {
    TrimRight(match Find(line, ";", 0) case None => line case Some(semi) => line[..semi])
  }

  /** The size a line says. */
  function WrittenSize(line: string): Option<nat>
  {
    var token := SizeToken(line);
    if token == "" then None else HexValue(token)
  }

  /** What a `size_t` holds after arithmetic whose natural result is `n`: its low 64 bits. */
  function Size64(n: nat): (r: nat)
    ensures r < TWO_64
    ensures n < TWO_64 ==> r == n
  {
    n % TWO_64
  }

  /** Wrapping as one goes along is wrapping at the end. */
  lemma WrapOnce(n: nat, k: nat)
    ensures Size64(Size64(n) + k) == Size64(n + k)
    ensures Size64(Size64(n) * 16 + k) == Size64(n * 16 + k)
  {
    var q := n / TWO_64;
    assert n == q * TWO_64 + Size64(n);
    SameRest(Size64(n) + k, q);
    SameRest(Size64(n) * 16 + k, q * 16);
  }

  lemma {:induction false} SameRest(n: nat, q: nat)
    ensures Size64(n + q * TWO_64) == Size64(n)
  {
    if q > 0 {
      SameRest(n, q - 1);
      assert (n + (q - 1) * TWO_64) + TWO_64 == n + q * TWO_64;
    }
  }

  /** `parse_chunk_size`: the size a line says, as a `size_t` holds it. */
  function ChunkSize(line: string): (r: Option<nat>)
    ensures r.Some? ==> r.value < TWO_64
  {
    match WrittenSize(line)
    case None => None
    case Some(v) => Some(Size64(v))
  }

  /** The end of the trailer section that starts at `pos`: just past its blank line. */
  function TrailersEnd(s: string, pos: nat): (r: Option<nat>)
    ensures r.Some? ==> pos + 2 <= r.value <= |s|
    decreases |s| - pos
  {
    match Find(s, CRLF, pos)
    case None => None
    case Some(e) => if e == pos then Some(pos + 2) else TrailersEnd(s, e + 2)
  }

  datatype SizeLine = NoLine | BadLine | SizeLine(data: nat, size: nat)

  /** The chunk-size line at `pos`: where the bytes after it start, and the size it announces. */
  function SizeLineAt(s: string, pos: nat): (r: SizeLine)
    ensures r.SizeLine? ==> pos + 2 <= r.data <= |s|
  {
    match Find(s, CRLF, pos)
    case None => NoLine
    case Some(eol) =>
      match ChunkSize(s[pos..eol])
      case None => BadLine
      case Some(size) => SizeLine(eol + 2, size)
  }

  /** What pass 1 of `parse_chunked_body` finds. In the last case it takes the body for complete, but pass 2 moves
      a chunk that reaches outside the buffer. */
  datatype Scan = More | Bad | Done(end: nat, body: string) | Spills

  /** Pass 1 of `parse_chunked_body` from position `pos`, with `body` decoded so far. The decoded total and the
      step over a chunk and its line end are computed in a `size_t`. */
  function ScanChunks(s: string, pos: nat, body: string): (r: Scan)
    ensures r.Done? ==> pos < r.end <= |s|
    decreases |s| - pos
  {
    match SizeLineAt(s, pos)
    case NoLine => More
    case BadLine => Bad
    case SizeLine(data, size) =>
      if size == 0 then
        match TrailersEnd(s, data)
        case None => More
        case Some(end) => Done(end, body)
      else if Size64(|body| + size) > MAX_BODY_BYTES then Bad
      else if |s| - data < Size64(size + 2) then More
      else if size + 2 < TWO_64 then ScanChunks(s, data + size + 2, body + s[data..data + size])
      else ScanAfterSpill(s, data + Size64(size + 2), Size64(|body| + size))
  }

  /** The same loop after a chunk whose size only passed because `size + 2` wrapped to 0 or 1. */
  function ScanAfterSpill(s: string, pos: nat, total: nat): (r: Scan)
    ensures !r.Done?
    decreases |s| - pos
  {
    match SizeLineAt(s, pos)
    case NoLine => More
    case BadLine => Bad
    case SizeLine(data, size) =>
      if size == 0 then (if TrailersEnd(s, data).None? then More else Spills)
      else if Size64(total + size) > MAX_BODY_BYTES then Bad
      else if |s| - data < Size64(size + 2) then More
      else ScanAfterSpill(s, data + Size64(size + 2), Size64(total + size))
  }

  // --- Whole requests ----------------------------------------------------------------------------

  function FromBody(s: string, pos: nat, head: Head, headers: map<string, string>): (r: Outcome)
    requires pos <= |s|
    ensures r.Complete? ==> pos <= r.used <= |s|
  {
    match FramingOf(headers)
    case Rejected => Failed
    case NoBody => Complete(pos, Request(head, headers, ""))
    case Sized(n) =>
      if |s| - pos < n then Incomplete else Complete(pos + n, Request(head, headers, s[pos..pos + n]))
    case Chunked =>
      match ScanChunks(s, pos, "")
      case More => Incomplete
      case Bad => Failed
      case Done(end, body) => Complete(end, Request(head, headers, body))
      case Spills => Overrun
  }

  function FromHeaders(s: string, pos: nat, head: Head, headers: map<string, string>): (r: Outcome)
    ensures r.Complete? ==> pos + 2 <= r.used <= |s|
    decreases |s| - pos
  {
    match Find(s, CRLF, pos)
    case None => Incomplete
    case Some(eol) =>
      if eol == pos then FromBody(s, pos + 2, head, headers)
      else
        match ParseHeaderLine(s[pos..eol])
        case None => Failed
        case Some((key, value)) => FromHeaders(s, eol + 2, head, headers[key := value])
  }

  function FromStart(s: string): (r: Outcome)
    ensures r.Complete? ==> 0 < r.used <= |s|
  {
    match Find(s, CRLF, 0)
    case None => Incomplete
    case Some(eol) =>
      match ParseRequestLine(s[..eol])
      case None => Failed
      case Some(head) => FromHeaders(s, eol + 2, head, map[])
  }

  /** The guard on the header block: up to the blank line, or the whole buffer while there is none. */
  predicate HeaderTooLong(s: string)
  {
    match Find(s, BLANK_LINE, 0)
    case None => |s| > MAX_HEADER_BYTES
    case Some(end) => end > MAX_HEADER_BYTES
  }

  /** `parse_request` on the buffer `s`, from a freshly reset parser. */
  function Parse(s: string): (r: Outcome)
    ensures r.Complete? ==> 0 < r.used <= |s|
  {
    if HeaderTooLong(s) then Failed else FromStart(s)
  }
}
