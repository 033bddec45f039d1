/** `HttpParser`: the state machine over the read buffer, with views into it and chunked bodies compacted in
    place, proved to compute `HttpSyntax.Parse`. Sizes are computed as in a 64-bit `size_t`. */
module HttpParsing {
  import opened Bytes
  import opened Numerals
  import opened HttpSyntax
  import opened HttpRequests

  /** The states of the parser, and OVERRUN: a `memmove` has left the buffer and nothing is known any more. */
  datatype ParsingState = REQUEST_LINE | HEADERS | BODY | COMPLETE | ERROR | OVERRUN

  /** `std::memmove` within one buffer. */
  method Memmove(buf: array<char>, to: nat, from: nat, n: nat)
    requires to + n <= buf.Length && from + n <= buf.Length
    modifies buf
    ensures forall i | 0 <= i < buf.Length ::
              buf[i] == if to <= i < to + n then old(buf[from + (i - to)]) else old(buf[i])
  {
    forall i | 0 <= i < n {
      buf[to + i] := buf[from + i];
    }
  }

  /** The two strings have the same bytes from position `from` on. */
  ghost predicate SameFrom(s: string, t: string, from: nat)
  {
    |s| == |t| && forall i | from <= i < |s| :: s[i] == t[i]
  }

  /** Searching from `from` on only looks at the bytes from there on. */
  lemma {:induction false} FindSameFrom(s: string, t: string, needle: string, from: nat)
    requires SameFrom(s, t, from)
    ensures Find(s, needle, from) == Find(t, needle, from)
    decreases |s| - from
  {
    if from + |needle| <= |s| {
      assert s[from..from + |needle|] == t[from..from + |needle|];
      if from < |s| {
        FindSameFrom(s, t, needle, from + 1);
      }
    }
  }

  lemma SliceSameFrom(s: string, t: string, from: nat, i: nat, j: nat)
    requires SameFrom(s, t, from) && from <= i <= j <= |s|
    ensures s[i..j] == t[i..j]
  {
  }

  lemma SizeLineSameFrom(s: string, t: string, pos: nat)
    requires SameFrom(s, t, pos)
    ensures SizeLineAt(s, pos) == SizeLineAt(t, pos)
  {
    hide Find, ChunkSize;
    FindSameFrom(s, t, CRLF, pos);
    var e := Find(s, CRLF, pos);
    if e.Some? {
      assert s[pos..e.value] == t[pos..e.value];
    }
  }

  /** A part of a view's text is the text of the narrower view. */
  lemma PartText(buf: array<char>, base: nat, text: string, i: nat, j: nat)
    requires base + |text| <= buf.Length && text == buf[base..base + |text|] && i <= j <= |text|
    ensures At(buf, base + i, j - i).TextIn(buf[..]) == text[i..j]
    ensures buf[base + i..base + j] == text[i..j]
  {
    var memory := buf[..];
    assert text == memory[base..base + |text|];
    assert memory[base + i..base + i + (j - i)] == text[i..j];
  }

  /** `table[key] = value` on views of `buf` files the text of the value under the text of the key. */
  method AssignEntry(table: Table, key: View, value: View, buf: array<char>, ghost limit: nat)
    returns (table': Table)
    requires limit <= buf.Length && TableInside(table, buf, limit, buf[..])
    requires key.Inside(buf, limit) && value.Inside(buf, limit)
    ensures TableInside(table', buf, limit, buf[..])
    ensures Contents(table', buf[..])
            == Contents(table, buf[..])[key.TextIn(buf[..]) := value.TextIn(buf[..])]
  {
    hide TableInside, Contents;
    ghost var k := key.TextIn(buf[..]);
    assert key.Text() == k;
    ghost var e := Entry(if k in table then table[k].key else key, value);
    assert EntryInside(e, k, buf, limit, buf[..]) by {
      KnownEntry(table, k, buf, limit);
    }
    AssignInside(table, e, k, buf, limit);
    AssignContents(table, e, k, buf[..]);
    table' := Assign(table, key, value);
  }

  lemma TableGrows(table: Table, buf: array<char>, limit: nat, limit': nat)
    requires limit <= limit' && TableInside(table, buf, limit, buf[..])
    ensures TableInside(table, buf, limit', buf[..])
  {
    hide View.TextIn;
    forall k | k in table
      ensures EntryInside(table[k], k, buf, limit', buf[..])
    {
      assert EntryInside(table[k], k, buf, limit, buf[..]);
    }
  }

  lemma RequestGrows(request: HttpRequest, buf: array<char>, limit: nat, limit': nat)
    requires limit <= limit' && request.Inside(buf, limit, buf[..])
    ensures request.Inside(buf, limit', buf[..])
  {
    TableGrows(request.headers, buf, limit, limit');
    TableGrows(request.queryParams, buf, limit, limit');
  }

  lemma LineHead(line: string, first: nat, second: nat)
    requires Find(line, " ", 0) == Some(first) && Find(line, " ", first + 1) == Some(second)
    requires MethodOf(line[..first]) != UNKNOWN
    ensures ParseRequestLine(line)
            == Some(Head(MethodOf(line[..first]), SplitTarget(line[first + 1..second]).0,
                         SplitTarget(line[first + 1..second]).1, line[second + 1..]))
  {
    hide Find, MethodOf, SplitTarget;
  }

  lemma LineRefused(line: string)
    ensures Find(line, " ", 0) == None ==> ParseRequestLine(line) == None
    ensures Find(line, " ", 0).Some? && Find(line, " ", Find(line, " ", 0).value + 1) == None
            ==> ParseRequestLine(line) == None
    ensures Find(line, " ", 0).Some? && MethodOf(line[..Find(line, " ", 0).value]) == UNKNOWN
            ==> ParseRequestLine(line) == None
  {
    hide Find, MethodOf, SplitTarget;
  }

  lemma VersionText(buf: array<char>, line: string, second: nat)
    requires |line| <= buf.Length && line == buf[..|line|] && second < |line|
    ensures At(buf, second + 1, |line| - (second + 1)).TextIn(buf[..]) == line[second + 1..]
  {
    hide View.TextIn;
    PartText(buf, 0, line, second + 1, |line|);
    assert line[second + 1..|line|] == line[second + 1..];
  }

  lemma NothingLeft(s: string, head: Head, headers: map<string, string>)
    ensures s == "" ==> FromStart(s) == Incomplete
    ensures FromHeaders(s, |s|, head, headers) == Incomplete
    ensures FramingOf(headers).Chunked? || (FramingOf(headers).Sized? && FramingOf(headers).n > 0)
            ==> FromBody(s, |s|, head, headers) == Incomplete
  {
    hide FramingOf;
  }

  lemma NoMoreLines(s: string, pos: nat, head: Head, headers: map<string, string>)
    ensures Find(s, CRLF, pos) == None ==> FromHeaders(s, pos, head, headers) == Incomplete
  {
  }

  lemma EmptyBody(request: HttpRequest, buf: array<char>)
    requires request.body == Null
    ensures request.ValueIn(buf[..])
            == Request(request.HeadIn(buf[..]), Contents(request.headers, buf[..]), "")
  {
  }

  /** Decoding the body changed bytes behind the header block only, so everything before it still reads the
      same. */
  lemma BodyDone(request: HttpRequest, buf: array<char>, from: nat, pos: nat, before: string)
    requires from <= pos <= buf.Length == |before|
    requires request.path.Inside(buf, from) && request.version.Inside(buf, from)
    requires TableInside(request.headers, buf, from, before) && TableInside(request.queryParams, buf, from, before)
    requires request.body.At? && request.body.buf == buf
    requires request.body.off == from && from + request.body.len <= pos
    requires forall i | 0 <= i < from :: buf[i] == before[i]
    ensures request.Inside(buf, pos, buf[..])
    ensures request.HeadIn(buf[..]) == request.HeadIn(before)
    ensures Contents(request.headers, buf[..]) == Contents(request.headers, before)
  {
    hide TableInside, Contents;
    hide View.TextIn;
    assert buf[..][..from] == before[..from];
    SameText(request.path, buf, from, before, buf[..]);
    SameText(request.version, buf, from, before, buf[..]);
    SameContents(request.headers, buf, from, before, buf[..]);
    SameContents(request.queryParams, buf, from, before, buf[..]);
    TableGrows(request.headers, buf, from, pos);
    TableGrows(request.queryParams, buf, from, pos);
  }

  lemma HeaderText(table: Table, name: string, buf: array<char>, limit: nat)
    requires limit <= buf.Length && TableInside(table, buf, limit, buf[..])
    ensures name in table <==> name in Contents(table, buf[..])
    ensures name in table ==> table[name].value.Text() == Contents(table, buf[..])[name]
  {
    KnownEntry(table, name, buf, limit);
    hide TableInside;
  }

  lemma EmptyTable(buf: array<char>, limit: nat)
    ensures TableInside(map[], buf, limit, buf[..]) && Contents(map[], buf[..]) == map[]
    ensures Elsewhere(0).TextIn(buf[..]) == ""
  {
  }

  lemma KnownEntry(table: Table, k: string, buf: array<char>, limit: nat)
    requires TableInside(table, buf, limit, buf[..])
    ensures k in table ==> EntryInside(table[k], k, buf, limit, buf[..])
  {
  }

  lemma AssignInside(table: Table, e: Entry, k: string, buf: array<char>, limit: nat)
    requires TableInside(table, buf, limit, buf[..]) && EntryInside(e, k, buf, limit, buf[..])
    ensures TableInside(table[k := e], buf, limit, buf[..])
  {
    hide EntryInside;
  }

  lemma AssignContents(table: Table, e: Entry, k: string, memory: string)
    ensures Contents(table[k := e], memory) == Contents(table, memory)[k := e.value.TextIn(memory)]
  {
    hide View.TextIn;
  }

  lemma QueryStep(q: string, start: nat, found: map<string, string>)
    requires start < |q|
    ensures ParseQuery(q, start, found) ==
            match Find(q, "=", start)
            case None => found[q[start..] := ""]
            case Some(eq) =>
              match Find(q, "&", eq + 1)
              case None => found[q[start..eq] := q[eq + 1..]]
              case Some(amp) => ParseQuery(q, amp + 1, found[q[start..eq] := q[eq + 1..amp]])
  {
  }

  lemma QueryEnd(q: string, found: map<string, string>)
    ensures ParseQuery(q, |q|, found) == found
  {
  }

  /** Where a body that pass 1 took for complete goes on, read off a buffer that agrees with the original from
      `pos` on. */
  lemma NextChunk(s: string, t: string, pos: nat, body: string)
    requires SameFrom(s, t, pos) && (ScanChunks(s, pos, body).Done? || ScanChunks(s, pos, body).Spills?)
    ensures SizeLineAt(t, pos).SizeLine?
    ensures var data, size, scan := SizeLineAt(t, pos).data, SizeLineAt(t, pos).size, ScanChunks(s, pos, body);
            && (size == 0 ==> TrailersEnd(t, data).Some? && scan == Done(TrailersEnd(t, data).value, body))
            && (0 < size < TWO_64 - 2 ==>
                  data + size + 2 <= |s| && scan == ScanChunks(s, data + size + 2, body + s[data..data + size]))
            && (TWO_64 - 2 <= size ==> scan == Spills)
  {
    hide SizeLineAt, TrailersEnd;
    SizeLineSameFrom(s, t, pos);
    var data := SizeLineAt(s, pos).data;
    TrailersSameFrom(s, t, data);
  }

  lemma {:induction false} TrailersSameFrom(s: string, t: string, pos: nat)
    requires SameFrom(s, t, pos)
    ensures TrailersEnd(s, pos) == TrailersEnd(t, pos)
    decreases |s| - pos
  {
    hide Find;
    FindSameFrom(s, t, CRLF, pos);
    var e := Find(s, CRLF, pos);
    if e.Some? && e.value != pos {
      TrailersSameFrom(s, t, e.value + 2);
    }
  }

  lemma {:induction false} NotHex(token: string, i: nat)
    requires i < |token| && HexDigit(token[i]).None?
    ensures HexValue(token).None?
    decreases |token|
  {
    if i < |token| - 1 {
      NotHex(token[..|token| - 1], i);
    }
  }

  lemma NoDigits()
    ensures HexValue("") == Some(0) && Size64(0) == 0
  {
  }

  lemma OneDigit(token: string, i: nat)
    requires i < |token| && HexValue(token[..i]).Some? && HexDigit(token[i]).Some?
    ensures HexValue(token[..i + 1]) == Some(HexValue(token[..i]).value * 16 + HexDigit(token[i]).value)
  {
    hide HexDigit;
    assert token[..i + 1][..i] == token[..i];
  }

  class HttpParser {
    var state: ParsingState
    var bodyExpectedLength: nat
    var isChunked: bool

    constructor ()
      ensures Clean()
    {
      state, bodyExpectedLength, isChunked := REQUEST_LINE, 0, false;
    }

    ghost predicate Clean()
      reads this
    {
      state == REQUEST_LINE && bodyExpectedLength == 0 && !isChunked
    }

    method Reset()
      modifies this
      ensures Clean()
    {
      state, bodyExpectedLength, isChunked := REQUEST_LINE, 0, false;
    }

    // --- Request line -----------------------------------------------------------------------------

    /** The loop of `parse_query_parameters` over the query string q = buf[base..base + len]. */
    static method ParseQueryString(buf: array<char>, base: nat, len: nat) returns (table: Table)
      requires base + len <= buf.Length
      ensures TableInside(table, buf, base + len, buf[..])
      ensures Contents(table, buf[..]) == ParseQuery(buf[base..base + len], 0, map[])
    {
      hide Find, TableInside, Contents, ParseQuery;
      hide View.TextIn;
      var q := buf[base..base + len];
      table := map[];
      EmptyTable(buf, base + len);
      var start := 0;
      while start < len
        invariant start <= len
        invariant TableInside(table, buf, base + len, buf[..])
        invariant ParseQuery(q, start, Contents(table, buf[..])) == ParseQuery(q, 0, map[])
      {
        QueryStep(q, start, Contents(table, buf[..]));
        var eq := Find(q, "=", start);
        if eq.None? {
          PartText(buf, base, q, start, len);
          assert q[start..len] == q[start..];
          table := AssignEntry(table, At(buf, base + start, len - start), Elsewhere(0), buf, base + len);
          return;
        }
        var amp := Find(q, "&", eq.value + 1);
        var end := if amp.Some? then amp.value else len;
        PartText(buf, base, q, start, eq.value);
        PartText(buf, base, q, eq.value + 1, end);
        table := AssignEntry(table, At(buf, base + start, eq.value - start),
                             At(buf, base + eq.value + 1, end - (eq.value + 1)), buf, base + len);
        if amp.None? {
          assert q[eq.value + 1..] == q[eq.value + 1..end];
          return;
        }
        start := end + 1;
      }
      QueryEnd(q, Contents(table, buf[..]));
    }

    /** `parse_query_parameters`: split the target at buf[off..off + len] into path and query. */
    method ParseQueryParameters(buf: array<char>, off: nat, len: nat, request: HttpRequest)
      requires off + len <= buf.Length
      requires request.queryParams == map[]
      modifies request`path, request`queryParams
      ensures request.path.Inside(buf, off + len)
      ensures TableInside(request.queryParams, buf, off + len, buf[..])
      ensures request.path.TextIn(buf[..]) == SplitTarget(buf[off..off + len]).0
      ensures Contents(request.queryParams, buf[..]) == SplitTarget(buf[off..off + len]).1
    {
      hide Find, TableInside, Contents, ParseQuery;
      hide View.TextIn;
      var target := buf[off..off + len];
      EmptyTable(buf, off + len);
      var mark := Find(target, "?", 0);
      var end := if mark.Some? then mark.value else len;
      request.path := At(buf, off, end);
      PartText(buf, off, target, 0, end);
      assert target[0..end] == target[..end] && target[..len] == target;
      if mark.Some? {
        assert target[end + 1..] == buf[off + end + 1..off + len];
        request.queryParams := ParseQueryString(buf, off + end + 1, len - (end + 1));
      }
    }

    /** `parse_request_line`. */
    method ParseRequestLine(buf: array<char>, fill: nat, request: HttpRequest) returns (ok: bool, pos: nat)
      requires fill <= buf.Length && state == REQUEST_LINE && request.Blank()
      modifies this, request
      ensures isChunked == old(isChunked) && bodyExpectedLength == old(bodyExpectedLength)
      ensures var s := buf[..fill];
              match Find(s, CRLF, 0)
              case None => !ok && pos == 0 && state == REQUEST_LINE && request.Blank()
              case Some(eol) =>
                match HttpSyntax.ParseRequestLine(s[..eol])
                case None => !ok && state == ERROR
                case Some(head) =>
                  && ok && pos == eol + 2 && state == HEADERS
                  && request.HeadIn(buf[..]) == head
                  && request.Inside(buf, pos, buf[..])
                  && request.headers == map[] && request.body == Null && request.ownedStorage == null
    {
      hide Find, MethodOf, SplitTarget, TableInside, Contents, HttpSyntax.ParseRequestLine;
      hide View.TextIn;
      var s := buf[..fill];
      var eol := Find(s, CRLF, 0);
      if eol.None? {
        return false, 0;
      }
      var line := s[..eol.value];
      pos := eol.value + 2;
      var first := Find(line, " ", 0);
      var second := if first.Some? then Find(line, " ", first.value + 1) else None;
      LineRefused(line);
      if first.None? || second.None? {
        state := ERROR;
        return false, pos;
      }
      request.version := At(buf, second.value + 1, |line| - (second.value + 1));
      request.verb := MethodOf(line[..first.value]);
      if request.verb == UNKNOWN {
        state := ERROR;
        return false, pos;
      }
      var from := first.value + 1;
      PartText(buf, 0, line, from, second.value);
      ParseQueryParameters(buf, from, second.value - from, request);
      EmptyTable(buf, pos);
      TableGrows(request.queryParams, buf, second.value, pos);
      VersionText(buf, line, second.value);
      LineHead(line, first.value, second.value);
      state := HEADERS;
      return true, pos;
    }

    /** One header line, buf[start..end]: the text before the first colon, and after it without leading white
        space. */
    static method ParseHeader(buf: array<char>, start: nat, end: nat, request: HttpRequest) returns (ok: bool)
      requires start <= end <= buf.Length
      requires TableInside(request.headers, buf, end, buf[..])
      modifies request`headers
      ensures TableInside(request.headers, buf, end, buf[..])
      ensures match ParseHeaderLine(buf[start..end])
              case None => !ok
              case Some((key, value)) =>
                ok && Contents(request.headers, buf[..]) == old(Contents(request.headers, buf[..]))[key := value]
    {
      hide Find, TableInside, Contents;
      hide View.TextIn;
      var line := buf[start..end];
      var colon := Find(line, ":", 0);
      if colon.None? {
        return false;
      }
      var value := line[colon.value + 1..];
      var valueStart := 0;
      while valueStart < |value| && IsSpace(value[valueStart])
        invariant valueStart <= |value|
        invariant SpacesEnd(value, valueStart) == SpacesEnd(value, 0)
      {
        valueStart := valueStart + 1;
      }
      var from := colon.value + 1 + valueStart;
      PartText(buf, start, line, 0, colon.value);
      PartText(buf, start, line, from, |line|);
      assert line[0..colon.value] == line[..colon.value];
      assert line[from..|line|] == value[valueStart..];
      request.headers := AssignEntry(request.headers, At(buf, start, colon.value),
                                     At(buf, start + from, |line| - from), buf, end);
      return true;
    }

    /** The end of the headers: choose the framing of the body, or refuse the request. */
    method FrameBody(buf: array<char>, request: HttpRequest, ghost limit: nat) returns (ok: bool)
      requires state == HEADERS && !isChunked && bodyExpectedLength == 0
      requires limit <= buf.Length && TableInside(request.headers, buf, limit, buf[..])
      modifies this
      ensures match FramingOf(Contents(request.headers, buf[..]))
              case Rejected => !ok && state == ERROR
              case NoBody => ok && state == COMPLETE
              case Sized(n) => ok && state == BODY && !isChunked && bodyExpectedLength == n && n > 0
              case Chunked => ok && state == BODY && isChunked
      ensures var h := Contents(request.headers, buf[..]);
              var chunked := "Transfer-Encoding" in h && Has(h["Transfer-Encoding"], "chunked");
              && (chunked ==> (ok <==> "Content-Length" !in h) && (ok ==> state == BODY && isChunked))
              && (!chunked && "Content-Length" !in h ==> ok && state == COMPLETE)
              && (!chunked && "Content-Length" in h ==>
                    var n := Stoul(h["Content-Length"]);
                    && (ok <==> n.Some? && n.value <= MAX_BODY_BYTES)
                    && (ok ==> bodyExpectedLength == n.value && state == if n.value > 0 then BODY else COMPLETE))
    {
      hide Find, ReadNumeral, Has, Stoul, Contents, TableInside;
      HeaderText(request.headers, "Content-Length", buf, limit);
      HeaderText(request.headers, "Transfer-Encoding", buf, limit);
      var chunked := "Transfer-Encoding" in request.headers
                     && Has(request.headers["Transfer-Encoding"].value.Text(), "chunked");
      if chunked && "Content-Length" in request.headers {
        state := ERROR;
        return false;
      }
      if chunked {
        isChunked, state := true, BODY;
        return true;
      }
      if "Content-Length" in request.headers {
        var n := Stoul(request.headers["Content-Length"].value.Text());
        if n.None? {
          state := ERROR;
          return false;
        }
        bodyExpectedLength := n.value;
        if bodyExpectedLength > MAX_BODY_BYTES {
          state := ERROR;
          return false;
        }
      }
      state := if bodyExpectedLength > 0 then BODY else COMPLETE;
      return true;
    }

    /** `parse_headers`: file every complete header line, and at the empty line decide how the body is framed. */
    method ParseHeaders(buf: array<char>, fill: nat, from: nat, request: HttpRequest, ghost head: Head)
      returns (ok: bool, pos: nat)
      requires from <= fill <= buf.Length
      requires state == HEADERS && !isChunked && bodyExpectedLength == 0
      requires request.Inside(buf, from, buf[..]) && request.HeadIn(buf[..]) == head
      requires request.body == Null
      modifies this, request`headers
      ensures from <= pos <= fill && (ok ==> from < pos)
      ensures request.Inside(buf, pos, buf[..]) && request.HeadIn(buf[..]) == head
      ensures var s, before := buf[..fill], old(Contents(request.headers, buf[..]));
              var headers := Contents(request.headers, buf[..]);
              match state
              case ERROR => !ok && FromHeaders(s, from, head, before) == Failed
              case HEADERS =>
                && !ok && !isChunked && bodyExpectedLength == 0 && Find(s, CRLF, pos) == None
                && FromHeaders(s, from, head, before) == FromHeaders(s, pos, head, headers)
              case BODY =>
                && ok && FromHeaders(s, from, head, before) == FromBody(s, pos, head, headers)
                && FramingOf(headers) == (if isChunked then Framing.Chunked else Sized(bodyExpectedLength))
                && (isChunked || bodyExpectedLength > 0)
              case COMPLETE =>
                ok && FromHeaders(s, from, head, before) == Complete(pos, Request(head, headers, ""))
              case _ => false
    {
      hide Find, FramingOf, ScanChunks, ParseHeaderLine, TableInside, Contents;
      hide View.TextIn;
      var s := buf[..fill];
      pos := from;
      while true
        invariant from <= pos <= fill
        invariant state == HEADERS && !isChunked && bodyExpectedLength == 0
        invariant request.Inside(buf, pos, buf[..]) && request.HeadIn(buf[..]) == head
        invariant FromHeaders(s, from, head, old(Contents(request.headers, buf[..])))
                  == FromHeaders(s, pos, head, Contents(request.headers, buf[..]))
        decreases fill - pos
      {
        var eol := Find(s, CRLF, pos);
        if eol.None? {
          return false, pos;
        }
        var start, end := pos, eol.value;
        pos := end + 2;
        RequestGrows(request, buf, start, end);
        RequestGrows(request, buf, end, pos);
        if start == end {
          ok := FrameBody(buf, request, pos);
          return;
        }
        PartText(buf, 0, s, start, end);
        TableGrows(request.headers, buf, start, end);
        var good := ParseHeader(buf, start, end, request);
        TableGrows(request.headers, buf, end, pos);
        if !good {
          state := ERROR;
          return false, pos;
        }
      }
    }

    // --- Bodies -----------------------------------------------------------------------------------

    /** The first part of `parse_chunk_size`: cut off the extension and the blanks before it. */
    static method TrimToken(line: string) returns (token: string)
      ensures token == SizeToken(line)
    {
      hide Find;
      var semi := Find(line, ";", 0);
      token := if semi.Some? then line[..semi.value] else line;
      var n: nat := |token|;
      assert token[..n] == token;
      while n > 0 && (token[n - 1] == ' ' || token[n - 1] == '\t')
        invariant n <= |token|
        invariant TrimRight(token[..n]) == TrimRight(token)
      {
        assert token[..n][..n - 1] == token[..n - 1];
        n := n - 1;
      }
      token := token[..n];
    }

    /** `parse_chunk_size` on a size line. */
    static method ParseChunkSize(line: string) returns (size: Option<nat>)
      ensures size == ChunkSize(line)
    {
      hide SizeToken, HexDigit, HexValue, Size64;
      var token := TrimToken(line);
      if token == "" {
        return None;
      }
      var out: nat := 0;
      NoDigits();
      for i := 0 to |token|
        invariant token[..0] == "" && HexValue(token[..i]).Some? && out == Size64(HexValue(token[..i]).value)
      {
        var d := HexDigit(token[i]);
        if d.None? {
          NotHex(token, i);
          return None;
        }
        OneDigit(token, i);
        WrapOnce(HexValue(token[..i]).value, d.value);
        out := Size64(out * 16 + d.value);
      }
      assert token[..|token|] == token;
      return Some(out);
    }

    /** How both passes read the next size line. */
    static method ReadSizeLine(s: string, pos: nat) returns (line: SizeLine)
      ensures line == SizeLineAt(s, pos)
    {
      hide Find, ChunkSize;
      var eol := Find(s, CRLF, pos);
      if eol.None? {
        return NoLine;
      }
      var size := ParseChunkSize(s[pos..eol.value]);
      return if size.None? then BadLine else SizeLine(eol.value + 2, size.value);
    }

    /** The loop over trailer lines that both passes run after the last chunk. */
    static method SkipTrailers(buf: array<char>, fill: nat, from: nat) returns (end: Option<nat>)
      requires fill <= buf.Length
      ensures end == TrailersEnd(buf[..fill], from)
    {
      hide Find;
      var scan := from;
      while true
        invariant TrailersEnd(buf[..fill], scan) == TrailersEnd(buf[..fill], from)
        decreases fill - scan
      {
        var e := Find(buf[..fill], CRLF, scan);
        if e.None? {
          return None;
        }
        if e.value == scan {
          return Some(scan + 2);
        }
        scan := e.value + 2;
      }
    }

    /** Pass 1 of `parse_chunked_body`: look for the end of the body without touching the buffer. */
    method ScanChunkedBody(buf: array<char>, fill: nat, from: nat) returns (complete: bool)
      requires fill <= buf.Length
      modifies `state
      ensures var scan := ScanChunks(buf[..fill], from, "");
              && complete == (scan.Done? || scan.Spills?)
              && state == (if scan.Bad? then ERROR else old(state))
    {
      hide SizeLineAt, TrailersEnd, Size64;
      var s := buf[..fill];
      var scan: nat, decodedTotal: nat := from, 0;
      ghost var body, spilled := "", false;
      while true
        invariant state == old(state)
        invariant !spilled ==> decodedTotal == Size64(|body|)
        invariant ScanChunks(s, from, "")
               == if spilled then ScanAfterSpill(s, scan, decodedTotal) else ScanChunks(s, scan, body)
        decreases fill - scan
      {
        var line := ReadSizeLine(s, scan);
        if line.NoLine? {
          return false;
        }
        if line.BadLine? {
          state := ERROR;
          return false;
        }
        var data, size := line.data, line.size;
        if size == 0 {
          var end := SkipTrailers(buf, fill, data);
          return end.Some?;
        }
        WrapOnce(|body|, size);
        decodedTotal := Size64(decodedTotal + size);
        if decodedTotal > MAX_BODY_BYTES {
          state := ERROR;
          return false;
        }
        if fill - data < Size64(size + 2) {
          return false;
        }
        spilled := spilled || size + 2 >= TWO_64;
        body := if spilled then body else body + s[data..data + size];
        scan := data + Size64(size + 2);
      }
    }

    /** Append the data of one chunk to the decoded bytes. */
    static method MoveChunk(buf: array<char>, from: nat, out: nat, data: nat, size: nat)
      requires from + out <= data && data + size <= buf.Length
      modifies buf
      ensures buf[from..from + out + size] == old(buf[from..from + out]) + old(buf[data..data + size])
      ensures forall i | 0 <= i < from || data + size <= i < buf.Length :: buf[i] == old(buf[i])
    {
      Memmove(buf, from + out, data, size);
      ghost var moved := buf[from..from + out + size];
      ghost var expected := old(buf[from..from + out]) + old(buf[data..data + size]);
      forall k | 0 <= k < |moved|
        ensures moved[k] == expected[k]
      {
        assert moved[k] == buf[from + k];
      }
    }

    /** The same, where the bytes from `cur` on are still those of `s`. */
    static method MoveNext(buf: array<char>, from: nat, out: nat, data: nat, size: nat,
                           ghost fill: nat, ghost s: string, ghost body: string, ghost cur: nat)
      requires from + out <= cur <= data && data + size <= fill <= buf.Length
      requires SameFrom(s, buf[..fill], cur) && buf[from..from + out] == body
      modifies buf
      ensures buf[from..from + out + size] == body + s[data..data + size]
      ensures forall i | 0 <= i < from || data + size <= i < buf.Length :: buf[i] == old(buf[i])
    {
      SliceSameFrom(s, buf[..fill], cur, data, data + size);
      assert buf[data..data + size] == buf[..fill][data..data + size];
      MoveChunk(buf, from, out, data, size);
    }

    /** Pass 2 of `parse_chunked_body`: move the data of every chunk down to the front of the body. The next
        byte to write never passes the next byte to read. All moves stay within the buffer exactly when no size
        wrapped around in the step over its chunk; `within` is false at the first move that does not. */
    static method CompactChunkedBody(buf: array<char>, fill: nat, from: nat)
      returns (out: nat, cur: nat, within: bool)
      requires from <= fill <= buf.Length < TWO_63
      requires ScanChunks(buf[..fill], from, "").Done? || ScanChunks(buf[..fill], from, "").Spills?
      modifies buf
      ensures var scan := old(ScanChunks(buf[..fill], from, ""));
              && (within <==> scan.Done?)
              && (within ==> cur == scan.end && from + out <= cur <= fill
                             && buf[from..from + out] == scan.body)
      ensures forall i | 0 <= i < from || cur <= i < buf.Length :: buf[i] == old(buf[i])
    {
      hide SizeLineAt, TrailersEnd, ScanChunks;
      ghost var s := buf[..fill];
      out, cur := 0, from;
      ghost var body := "";
      while true
        invariant from + out <= cur <= fill
        invariant ScanChunks(s, cur, body) == ScanChunks(s, from, "")
        invariant buf[from..from + out] == body
        invariant forall i | 0 <= i < from || cur <= i < buf.Length :: buf[i] == old(buf[i])
        decreases fill - cur
      {
        NextChunk(s, buf[..fill], cur, body);
        var line := ReadSizeLine(buf[..fill], cur);
        var data, size := line.data, line.size;
        if size == 0 {
          var end := SkipTrailers(buf, fill, data);
          cur := end.value;
          return out, cur, true;
        }
        if data + size > buf.Length {
          return out, cur, false;
        }
        MoveNext(buf, from, out, data, size, fill, s, body, cur);
        body := body + s[data..data + size];
        out := out + size;
        cur := data + size + 2;
      }
    }

    /** `parse_chunked_body`: an incomplete or erroneous body leaves the buffer alone; a complete one leaves its
        decoding at the front of the body and changes nothing before or after the bytes it consumes. */
    method ParseChunkedBody(buf: array<char>, fill: nat, from: nat, request: HttpRequest)
      returns (ok: bool, pos: nat)
      requires from <= fill <= buf.Length < TWO_63 && state == BODY
      modifies `state, buf, request`body
      ensures var scan := old(ScanChunks(buf[..fill], from, ""));
              && (scan.More? ==> !ok && pos == from && state == BODY)
              && (scan.Bad? ==> !ok && pos == from && state == ERROR)
              && (scan.Spills? ==> !ok && state == OVERRUN)
              && (scan.Done? ==> ok && pos == scan.end && state == COMPLETE
                                 && request.body == At(buf, from, |scan.body|)
                                 && from + |scan.body| <= pos <= fill
                                 && buf[from..from + |scan.body|] == scan.body)
              && (!ok ==> request.body == old(request.body))
      ensures forall i | 0 <= i < buf.Length && state != OVERRUN && (!ok || i < from || pos <= i) ::
                buf[i] == old(buf[i])
    {
      hide ScanChunks;
      ok := ScanChunkedBody(buf, fill, from);
      pos := from;
      if ok {
        var out, within;
        out, pos, within := CompactChunkedBody(buf, fill, from);
        if !within {
          state := OVERRUN;
          return false, pos;
        }
        request.body := At(buf, from, out);
        state := COMPLETE;
      }
    }

    /** `parse_body`. */
    method ParseBody(buf: array<char>, fill: nat, from: nat, request: HttpRequest,
                     ghost head: Head, ghost headers: map<string, string>)
      returns (ok: bool, pos: nat)
      requires from <= fill <= buf.Length < TWO_63 && state == BODY
      requires FramingOf(headers) == (if isChunked then Framing.Chunked else Sized(bodyExpectedLength))
      requires isChunked || bodyExpectedLength > 0
      modifies `state, buf, request`body
      ensures var outcome := old(FromBody(buf[..fill], from, head, headers));
              && (outcome.Incomplete? ==> !ok && pos == from && state == BODY)
              && (outcome.Failed? ==> !ok && pos == from && state == ERROR)
              && (outcome.Overrun? ==> !ok && state == OVERRUN)
              && (outcome.Complete? ==>
                    ok && state == COMPLETE && pos == outcome.used && from < pos <= fill
                    && request.body.At? && request.body.buf == buf
                    && from == request.body.off && from + request.body.len <= pos
                    && outcome.request == Request(head, headers, request.body.TextIn(buf[..])))
              && (!ok ==> request.body == old(request.body))
      ensures forall i | 0 <= i < buf.Length && state != OVERRUN && (!ok || i < from || pos <= i) ::
                buf[i] == old(buf[i])
    {
      hide ScanChunks, FramingOf;
      if isChunked {
        ok, pos := ParseChunkedBody(buf, fill, from, request);
        if ok {
          assert buf[..][from..from + request.body.len] == buf[from..from + request.body.len];
        }
        return;
      }
      if fill - from < bodyExpectedLength {
        return false, from;
      }
      request.body := At(buf, from, bodyExpectedLength);
      PartText(buf, 0, buf[..fill], from, from + bodyExpectedLength);
      state := COMPLETE;
      return true, from + bodyExpectedLength;
    }

    /** `parse_request` from a clean parser on the bytes buf[..fill], into a blank request. No object of the
        program is as large as 2^63 bytes. */
    method ParseRequest(buf: array<char>, fill: nat, request: HttpRequest) returns (ok: bool, processed: nat)
      requires fill <= buf.Length < TWO_63 && Clean() && request.Blank()
      modifies this, request, buf
      ensures var outcome := old(Parse(buf[..fill]));
              && (ok <==> outcome.Complete?)
              && (state == ERROR <==> outcome.Failed?)
              && (state == OVERRUN <==> outcome.Overrun?)
              && (ok ==> processed == outcome.used <= fill
                         && request.Inside(buf, processed, buf[..])
                         && request.ValueIn(buf[..]) == outcome.request
                         && request.ownedStorage == null)
      ensures forall i | 0 <= i < buf.Length && state != OVERRUN && (!ok || processed <= i) ::
                buf[i] == old(buf[i])
    {
      hide Find, FromHeaders, FromBody, TableInside, Contents;
      hide View.TextIn;
      var s := buf[..fill];
      var pos := 0;
      processed := 0;
      var headerEnd := Find(s, BLANK_LINE, 0);
      var headerSpan := if headerEnd.Some? then headerEnd.value else fill;
      if headerSpan > MAX_HEADER_BYTES {
        state := ERROR;
        return false, 0;
      }
      ok := false;
      ghost var head := Head(UNKNOWN, "", map[], "");
      while state != COMPLETE && state != ERROR && pos < fill
        invariant processed == pos <= fill
        invariant state != ERROR && state != OVERRUN && Progress(buf, fill, pos, request, s, head)
        invariant forall i | 0 <= i < buf.Length && (state != COMPLETE || pos <= i) :: buf[i] == old(buf[i])
        decreases fill - pos
      {
        var stepComplete;
        stepComplete, pos, head := Step(buf, fill, pos, request, s, head);
        if state == ERROR || state == OVERRUN {
          return false, processed;
        }
        var consumed := pos - processed;
        processed := processed + consumed;
        if !stepComplete && consumed == 0 {
          return false, processed;
        }
      }
      NothingLeft(s, head, Contents(request.headers, buf[..]));
      ok := state == COMPLETE;
    }

    /** One turn of the loop: the parser of the current state. */
    method Step(buf: array<char>, fill: nat, from: nat, request: HttpRequest, ghost s: string, ghost before: Head)
      returns (stepComplete: bool, pos: nat, ghost head: Head)
      requires fill <= buf.Length < TWO_63 && state != COMPLETE && state != ERROR && state != OVERRUN
      requires Progress(buf, fill, from, request, s, before)
      modifies this, request, buf
      ensures state == ERROR ==> !stepComplete && Parse(s) == Failed
      ensures state == OVERRUN ==> !stepComplete && Parse(s) == Overrun
      ensures state != ERROR && state != OVERRUN ==>
                && Progress(buf, fill, pos, request, s, head)
                && from <= pos && (stepComplete ==> from < pos)
                && (!stepComplete && pos == from ==> Parse(s) == Incomplete && state != COMPLETE)
      ensures forall i | 0 <= i < buf.Length && state != OVERRUN && (state != COMPLETE || pos <= i) ::
                buf[i] == old(buf[i])
    {
      hide Find, FromHeaders, FromBody, TableInside, Contents, Parse;
      hide View.TextIn;
      head := before;
      match state {
        case REQUEST_LINE =>
          stepComplete, pos := ParseRequestLine(buf, fill, request);
          EmptyTable(buf, 0);
          if stepComplete {
            head := request.HeadIn(buf[..]);
          }
        case HEADERS =>
          stepComplete, pos := ParseHeaders(buf, fill, from, request, head);
          NoMoreLines(s, pos, head, Contents(request.headers, buf[..]));
          EmptyBody(request, buf);
        case BODY =>
          ghost var headers := Contents(request.headers, buf[..]);
          stepComplete, pos := ParseBody(buf, fill, from, request, head, headers);
          if stepComplete {
            BodyDone(request, buf, from, pos, old(buf[..]));
          } else if state == OVERRUN {
            assert FromBody(s, from, head, headers) == Overrun;
          } else {
            assert buf[..] == old(buf[..]) && buf[..fill] == old(buf[..fill]);
          }
      }
    }

    /** What the fields say about the outcome of the whole parse, between two steps. */
    ghost predicate Progress(buf: array<char>, fill: nat, pos: nat, request: HttpRequest, s: string, head: Head)
      requires fill <= buf.Length
      reads this, request, buf
    {
      && pos <= fill == |s|
      && request.ownedStorage == null
      && (state != COMPLETE ==> buf[..fill] == s)
      && (state.REQUEST_LINE? ==> pos == 0 && Clean() && request.Blank() && Parse(s) == FromStart(s))
      && (state == HEADERS || state == BODY || state == COMPLETE ==> request.Inside(buf, pos, buf[..]))
      && (state == HEADERS || state == BODY ==> request.body == Null && request.HeadIn(buf[..]) == head)
      && (state == HEADERS ==> !isChunked && bodyExpectedLength == 0
                               && Parse(s) == FromHeaders(s, pos, head, Contents(request.headers, buf[..])))
      && (state == BODY ==>
            && var headers := Contents(request.headers, buf[..]);
            && Parse(s) == FromBody(s, pos, head, headers)
            && FramingOf(headers) == (if isChunked then Framing.Chunked else Sized(bodyExpectedLength))
            && (isChunked || bodyExpectedLength > 0))
      && (state == COMPLETE ==> Parse(s) == Complete(pos, request.ValueIn(buf[..])))
    }
  }
}
