/** Chunked bodies: what section 4.1 of RFC 7230 allows a sender to write is read back as its data. */
module Chunked {
  import opened Bytes
  import opened Numerals
  import opened HttpSyntax

  /** A line holds no line end of its own. */
  ghost predicate NoLineEnd(line: string)
  {
    forall i :: !OccursAt(line, CRLF, i)
  }

  /** The search for CRLF stops at the end of the line it starts in. */
  lemma LineAt(s: string, pos: nat, line: string)
    requires NoLineEnd(line)
    requires pos + |line| + 2 <= |s|
    requires s[pos..pos + |line|] == line && s[pos + |line|..pos + |line| + 2] == CRLF
    ensures Find(s, CRLF, pos) == Some(pos + |line|)
  {
    hide Find;
    var end := pos + |line|;
    OccursCrlf(s[end..end + 2], 0);
    assert s[end] == s[end..end + 2][0] && s[end + 1] == s[end..end + 2][1];
    OccursCrlf(s, end);
    forall j | pos <= j < end
      ensures !OccursAt(s, CRLF, j)
    {
      OccursCrlf(s, j);
      OccursCrlf(line, j - pos);
      assert line[j - pos] == s[j];
      assert j + 1 < end ==> line[j + 1 - pos] == s[j + 1];
    }
    FindIs(s, CRLF, pos, end);
  }

  // --- The size line ------------------------------------------------------------------------------

  predicate IsBlank(c: char) { c == ' ' || c == '\t' }

  /** A chunk-size line: hexadecimal digits, blanks, and a chunk extension that is empty or starts with ';'. */
  datatype SizeText = SizeText(digits: string, blanks: string, extension: string)
  {
    function Line(): string { digits + blanks + extension }

    ghost predicate Valid(size: nat)
    {
      && digits != "" && HexValue(digits) == Some(size)
      && (forall i | 0 <= i < |blanks| :: IsBlank(blanks[i]))
      && (extension == "" || extension[0] == ';')
      && NoLineEnd(extension)
    }
  }

  lemma {:induction false} HexDigits(token: string, i: nat)
    requires HexValue(token).Some? && i < |token|
    ensures HexDigit(token[i]).Some?
  {
    if i < |token| - 1 {
      HexDigits(token[..|token| - 1], i);
    }
  }

  lemma {:induction false} TrimBlanks(digits: string, blanks: string)
    requires digits != "" && HexValue(digits).Some?
    requires forall i | 0 <= i < |blanks| :: IsBlank(blanks[i])
    ensures TrimRight(digits + blanks) == digits
    decreases |blanks|
  {
    hide HexValue;
    var s := digits + blanks;
    if blanks == "" {
      HexDigits(digits, |digits| - 1);
      assert s == digits;
    } else {
      var b := blanks[..|blanks| - 1];
      assert s[..|s| - 1] == digits + b;
      assert s[|s| - 1] == blanks[|blanks| - 1];
      TrimBlanks(digits, b);
    }
  }

  lemma SizeTextLine(t: SizeText, size: nat)
    requires t.Valid(size)
    ensures NoLineEnd(t.Line()) && WrittenSize(t.Line()) == Some(size)
  {
    hide Find, HexValue, TrimRight;
    var line := t.Line();
    var n := |t.digits| + |t.blanks|;
    forall i | 0 <= i < n
      ensures line[i] != '\r' && line[i] != ';'
    {
      if i < |t.digits| {
        HexDigits(t.digits, i);
      }
    }
    forall i
      ensures !OccursAt(line, CRLF, i)
    {
      if 0 <= i <= |line| - 2 {
        if i < n {
          assert line[i..i + 2][0] == line[i];
        } else {
          assert !OccursAt(t.extension, CRLF, i - n);
          assert line[i..i + 2] == t.extension[i - n..i - n + 2];
        }
      }
    }
    if t.extension == "" {
      FindCharNone(line, ';', 0);
      assert line == t.digits + t.blanks;
    } else {
      FindChar(line, ';', 0, n);
      assert line[..n] == t.digits + t.blanks;
    }
    TrimBlanks(t.digits, t.blanks);
  }

  // --- Encoding -----------------------------------------------------------------------------------

  datatype Chunk = Chunk(size: SizeText, data: string)

  ghost predicate ValidChunks(chunks: seq<Chunk>)
  {
    forall i | 0 <= i < |chunks| :: chunks[i].data != "" && chunks[i].size.Valid(|chunks[i].data|)
  }

  ghost predicate ValidTrailers(trailers: seq<string>)
  {
    forall i | 0 <= i < |trailers| :: trailers[i] != "" && NoLineEnd(trailers[i])
  }

  function EncodeTrailers(trailers: seq<string>): string
  {
    if trailers == [] then CRLF else trailers[0] + CRLF + EncodeTrailers(trailers[1..])
  }

  function EncodeBody(chunks: seq<Chunk>, last: SizeText, trailers: seq<string>): string
  {
    if chunks == [] then last.Line() + CRLF + EncodeTrailers(trailers)
    else chunks[0].size.Line() + CRLF + chunks[0].data + CRLF + EncodeBody(chunks[1..], last, trailers)
  }

  function Content(chunks: seq<Chunk>): string
  {
    if chunks == [] then "" else chunks[0].data + Content(chunks[1..])
  }

  // --- Round trip ---------------------------------------------------------------------------------

  predicate StandsAt(s: string, pos: nat, text: string)
  {
    pos + |text| <= |s| && s[pos..pos + |text|] == text
  }

  lemma StandsSplit(s: string, pos: nat, a: string, b: string)
    requires StandsAt(s, pos, a + b)
    ensures StandsAt(s, pos, a) && StandsAt(s, pos + |a|, b)
  {
    assert s[pos..pos + |a + b|][..|a|] == a;
    assert s[pos..pos + |a + b|][|a|..] == b;
    assert s[pos..pos + |a|] == s[pos..pos + |a + b|][..|a|];
    assert s[pos + |a|..pos + |a| + |b|] == s[pos..pos + |a + b|][|a|..];
  }

  lemma {:induction false} ReadTrailers(s: string, pos: nat, trailers: seq<string>)
    requires ValidTrailers(trailers) && StandsAt(s, pos, EncodeTrailers(trailers))
    ensures TrailersEnd(s, pos) == Some(pos + |EncodeTrailers(trailers)|)
    decreases |trailers|
  {
    hide Find;
    if trailers == [] {
      LineAt(s, pos, "");
    } else {
      var line, rest := trailers[0], EncodeTrailers(trailers[1..]);
      assert EncodeTrailers(trailers) == line + (CRLF + rest);
      StandsSplit(s, pos, line, CRLF + rest);
      StandsSplit(s, pos + |line|, CRLF, rest);
      LineAt(s, pos, line);
      ReadTrailers(s, pos + |line| + 2, trailers[1..]);
    }
  }

  lemma ReadSizeLine(s: string, pos: nat, t: SizeText, size: nat, rest: string)
    requires t.Valid(size) && size < TWO_64 && StandsAt(s, pos, t.Line() + CRLF + rest)
    ensures SizeLineAt(s, pos) == SizeLine(pos + |t.Line()| + 2, size)
    ensures StandsAt(s, pos + |t.Line()| + 2, rest)
  {
    hide Find, WrittenSize;
    SizeTextLine(t, size);
    assert t.Line() + CRLF + rest == t.Line() + (CRLF + rest);
    StandsSplit(s, pos, t.Line(), CRLF + rest);
    StandsSplit(s, pos + |t.Line()|, CRLF, rest);
    LineAt(s, pos, t.Line());
  }

  /** One chunk is read and leaves the scan where the next one starts: the two bytes behind its data are skipped
      whatever they are. */
  lemma ReadChunk(s: string, pos: nat, c: Chunk, end: string, rest: string, body: string)
    requires c.data != "" && c.size.Valid(|c.data|) && |body| + |c.data| <= MAX_BODY_BYTES && |end| == 2
    requires StandsAt(s, pos, c.size.Line() + CRLF + (c.data + (end + rest)))
    ensures var next := pos + |c.size.Line()| + 2 + |c.data| + 2;
            StandsAt(s, next, rest) && ScanChunks(s, pos, body) == ScanChunks(s, next, body + c.data)
  {
    hide SizeLineAt, TrailersEnd;
    hide SizeText.Line;
    hide SizeText.Valid;
    ReadSizeLine(s, pos, c.size, |c.data|, c.data + (end + rest));
    var data := pos + |c.size.Line()| + 2;
    StandsSplit(s, data, c.data, end + rest);
    StandsSplit(s, data + |c.data|, end, rest);
  }

  lemma {:induction false} ReadChunks(s: string, pos: nat, chunks: seq<Chunk>, last: SizeText,
                                      trailers: seq<string>, body: string)
    requires ValidChunks(chunks) && last.Valid(0) && ValidTrailers(trailers)
    requires StandsAt(s, pos, EncodeBody(chunks, last, trailers))
    requires |body| + |Content(chunks)| <= MAX_BODY_BYTES
    ensures ScanChunks(s, pos, body)
            == Done(pos + |EncodeBody(chunks, last, trailers)|, body + Content(chunks))
    decreases |chunks|
  {
    hide SizeLineAt, TrailersEnd, ValidTrailers, EncodeTrailers, StandsAt;
    hide SizeText.Line;
    hide SizeText.Valid;
    if chunks == [] {
      ReadSizeLine(s, pos, last, 0, EncodeTrailers(trailers));
      ReadTrailers(s, pos + |last.Line()| + 2, trailers);
      assert body + Content(chunks) == body;
    } else {
      hide ScanChunks;
      var c, rest := chunks[0], EncodeBody(chunks[1..], last, trailers);
      assert EncodeBody(chunks, last, trailers) == c.size.Line() + CRLF + (c.data + (CRLF + rest));
      ReadChunk(s, pos, c, CRLF, rest, body);
      assert (body + c.data) + Content(chunks[1..]) == body + Content(chunks);
      ReadChunks(s, pos + |c.size.Line()| + 2 + |c.data| + 2, chunks[1..], last, trailers, body + c.data);
    }
  }

  /** The round trip: any encoding of non-empty chunks, with any extensions and trailer lines, decodes to the
      concatenation of the chunks and ends exactly where the encoding ends, whatever bytes follow. */
  lemma {:induction false} ChunkedRoundTrip(chunks: seq<Chunk>, last: SizeText, trailers: seq<string>, after: string)
    requires ValidChunks(chunks) && last.Valid(0) && ValidTrailers(trailers)
    requires |Content(chunks)| <= MAX_BODY_BYTES
    ensures var text := EncodeBody(chunks, last, trailers);
            ScanChunks(text + after, 0, "") == Done(|text|, Content(chunks))
  {
    hide ScanChunks, EncodeBody, ValidChunks, ValidTrailers;
    var text := EncodeBody(chunks, last, trailers);
    assert (text + after)[0..0 + |text|] == text;
    ReadChunks(text + after, 0, chunks, last, trailers, "");
    assert "" + Content(chunks) == Content(chunks);
  }

  /** An encoding of more than the limit is refused. */
  lemma {:induction false} TooMuchContent(s: string, pos: nat, chunks: seq<Chunk>, last: SizeText,
                                          trailers: seq<string>, body: string)
    requires ValidChunks(chunks) && StandsAt(s, pos, EncodeBody(chunks, last, trailers)) && |s| < TWO_63
    requires |body| <= MAX_BODY_BYTES < |body| + |Content(chunks)|
    ensures ScanChunks(s, pos, body) == Bad
    decreases |chunks|
  {
    hide SizeLineAt, TrailersEnd, ScanChunks;
    hide SizeText.Line;
    hide SizeText.Valid;
    var c, rest := chunks[0], EncodeBody(chunks[1..], last, trailers);
    assert EncodeBody(chunks, last, trailers) == c.size.Line() + CRLF + (c.data + (CRLF + rest));
    if |body| + |c.data| <= MAX_BODY_BYTES {
      ReadChunk(s, pos, c, CRLF, rest, body);
      assert |(body + c.data)| + |Content(chunks[1..])| == |body| + |Content(chunks)|;
      TooMuchContent(s, pos + |c.size.Line()| + 2 + |c.data| + 2, chunks[1..], last, trailers, body + c.data);
    } else {
      TooLargeChunk(s, pos, c, rest, body);
    }
  }

  lemma TooLargeChunk(s: string, pos: nat, c: Chunk, rest: string, body: string)
    requires c.data != "" && c.size.Valid(|c.data|) && |s| < TWO_63
    requires StandsAt(s, pos, c.size.Line() + CRLF + (c.data + (CRLF + rest)))
    requires |body| <= MAX_BODY_BYTES < |body| + |c.data|
    ensures ScanChunks(s, pos, body) == Bad
  {
    hide SizeLineAt, TrailersEnd;
    hide SizeText.Line;
    hide SizeText.Valid;
    assert |c.data| < |s|;
    ReadSizeLine(s, pos, c.size, |c.data|, c.data + (CRLF + rest));
  }

  // --- Which lines are size lines -------------------------------------------------------------------

  predicate IsHex(c: char) { '0' <= c <= '9' || 'a' <= c <= 'f' || 'A' <= c <= 'F' }

  lemma {:induction false} HexValueIff(token: string)
    ensures HexValue(token).Some? <==> forall i | 0 <= i < |token| :: IsHex(token[i])
  {
    if token != "" {
      HexValueIff(token[..|token| - 1]);
    }
  }

  /** Digits of either case have the same value. */
  lemma {:induction false} HexAnyCase(s: string, t: string)
    requires |s| == |t|
    requires forall i | 0 <= i < |s| :: s[i] == t[i] || ('a' <= s[i] <= 'f' && t[i] as int == s[i] as int - 32)
    ensures HexValue(s) == HexValue(t)
  {
    if s != "" {
      HexAnyCase(s[..|s| - 1], t[..|t| - 1]);
    }
  }

  lemma {:induction false} TrimmedBlanks(token: string)
    ensures TrimRight(token) <= token
    ensures forall i | |TrimRight(token)| <= i < |token| :: IsBlank(token[i])
  {
    if token != "" && IsBlank(token[|token| - 1]) {
      TrimmedBlanks(token[..|token| - 1]);
    }
  }

  ghost predicate IsSizeLine(line: string)
  {
    exists t: SizeText, size: nat :: t.Valid(size) && t.Line() == line
  }

  /** A size is read off exactly the lines of hexadecimal digits, blanks and an extension. */
  lemma SizeLineIff(line: string)
    requires NoLineEnd(line)
    ensures ChunkSize(line).Some? <==> IsSizeLine(line)
  {
    if IsSizeLine(line) {
      var t: SizeText, size: nat :| t.Valid(size) && t.Line() == line;
      hide WrittenSize;
      SizeTextLine(t, size);
    }
    if ChunkSize(line).Some? {
      SizeTextOf(line);
    }
  }

  lemma SizeTextOf(line: string)
    requires NoLineEnd(line) && ChunkSize(line).Some?
    ensures IsSizeLine(line)
  {
    var semi := Find(line, ";", 0);
    var end := if semi.Some? then semi.value else |line|;
    FindSpec(line, ";", 0);
    OccursChar(line, ';', end);
    hide Find, HexValue, TrimRight, OccursAt, NoLineEnd;
    var front := line[..end];
    assert front == if semi.Some? then line[..semi.value] else line;
    var digits := TrimRight(front);
    TrimmedBlanks(front);
    var t := SizeText(digits, front[|digits|..], line[end..]);
    LineTail(line, end);
    Rejoin(line, |digits|, end);
    assert t.Valid(HexValue(digits).value);
  }

  lemma Rejoin(line: string, k: nat, end: nat)
    requires k <= end <= |line|
    ensures line[..end][..k] + line[..end][k..] + line[end..] == line
  {
  }

  lemma LineTail(line: string, k: nat)
    requires NoLineEnd(line) && k <= |line|
    ensures NoLineEnd(line[k..])
  {
    forall i
      ensures !OccursAt(line[k..], CRLF, i)
    {
      if 0 <= i <= |line| - k - 2 {
        assert !OccursAt(line, CRLF, k + i);
        assert line[k..][i..i + 2] == line[k + i..k + i + 2];
      }
    }
  }

  /** Any other line is refused. */
  lemma BadSizeLine(s: string, pos: nat, line: string, body: string)
    requires NoLineEnd(line) && !IsSizeLine(line) && StandsAt(s, pos, line + CRLF)
    ensures ScanChunks(s, pos, body) == Bad
  {
    hide Find, IsSizeLine, ChunkSize;
    SizeLineIff(line);
    StandsSplit(s, pos, line, CRLF);
    LineAt(s, pos, line);
  }

  // --- Printing sizes -------------------------------------------------------------------------------

  function HexText(n: nat): string
  {
    var d := n % 16;
    var c := if d < 10 then '0' + d as char else 'a' + (d - 10) as char;
    if n < 16 then [c] else HexText(n / 16) + [c]
  }

  /** Every size can be written. */
  lemma {:induction false} HexTextRoundTrip(n: nat)
    ensures HexText(n) != "" && HexValue(HexText(n)) == Some(n)
  {
    var t := HexText(n);
    if n < 16 {
      assert t[..|t| - 1] == "";
    } else {
      HexTextRoundTrip(n / 16);
      assert t[..|t| - 1] == HexText(n / 16);
    }
  }
}
