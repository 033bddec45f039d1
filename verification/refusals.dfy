/** What the parser refuses: start lines, fields and heads that are not as section 3 of RFC 7230 has them or are too
    long. */
module Refusals {
  import opened Bytes
  import opened Numerals
  import opened HttpSyntax
  import opened Chunked
  import opened RequestText

  // --- Start lines ------------------------------------------------------------------------------------

  function StartText(verb: Method, target: string, version: string): string
  {
    MethodText(verb) + " " + target + " " + version
  }

  /** A known method, a target without a space, and anything behind it. */
  ghost predicate IsStart(line: string)
  {
    exists verb: Method, target, version ::
      verb != UNKNOWN && Free(target, ' ') && line == StartText(verb, target, version)
  }

  lemma MethodIs(s: string)
    ensures MethodOf(s) != UNKNOWN ==> MethodText(MethodOf(s)) == s
  {
  }

  lemma StartParts(verb: Method, target: string, version: string)
    requires verb != UNKNOWN && Free(target, ' ')
    ensures var line, first := StartText(verb, target, version), |MethodText(verb)|;
            && Find(line, " ", 0) == Some(first) && MethodOf(line[..first]) == verb
            && Find(line, " ", first + 1) == Some(first + 1 + |target|)
  {
    hide Find, MethodOf, MethodText;
    MethodRead(verb);
    var line, first := StartText(verb, target, version), |MethodText(verb)|;
    assert line[..first] == MethodText(verb) && line[first + 1..first + 1 + |target|] == target;
    FindChar(line, ' ', 0, first);
    FindChar(line, ' ', first + 1, first + 1 + |target|);
  }

  /** A line is refused exactly when it is no start line. */
  lemma StartRefusedIff(line: string)
    ensures ParseRequestLine(line).None? <==> !IsStart(line)
  {
    hide Find, MethodOf, MethodText, SplitTarget;
    if IsStart(line) {
      var verb: Method, target, version :|
        verb != UNKNOWN && Free(target, ' ') && line == StartText(verb, target, version);
      StartParts(verb, target, version);
    }
    if ParseRequestLine(line).Some? {
      var first := Find(line, " ", 0).value;
      var second := Find(line, " ", first + 1).value;
      FindSpec(line, " ", 0);
      FindSpec(line, " ", first + 1);
      OccursChar(line, ' ', first);
      OccursChar(line, ' ', second);
      var verb, target, version := MethodOf(line[..first]), line[first + 1..second], line[second + 1..];
      MethodIs(line[..first]);
      forall i | 0 <= i < |target|
        ensures target[i] != ' '
      {
        OccursChar(line, ' ', first + 1 + i);
      }
      assert line == StartText(verb, target, version);
    }
  }

  /** A buffer whose first line is no start line is refused. */
  lemma BadStart(line: string, rest: string)
    requires NoLineEnd(line) && !IsStart(line)
    ensures Parse(line + CRLF + rest) == Failed
  {
    hide Find, ParseRequestLine, NoLineEnd, IsStart;
    StartRefusedIff(line);
    var s := line + CRLF + rest;
    FirstLine(line, rest);
    LineAt(s, 0, line);
  }

  // --- Fields ---------------------------------------------------------------------------------------------

  lemma FieldRefusedIff(line: string)
    ensures ParseHeaderLine(line).None? <==> Free(line, ':')
  {
    hide Find;
    FindSpec(line, ":", 0);
    forall i
      ensures OccursAt(line, ":", i) <==> 0 <= i < |line| && line[i] == ':'
    {
      OccursChar(line, ':', i);
    }
  }

  function FieldLines(fields: seq<Field>): string
  {
    if fields == [] then "" else fields[0].Line() + CRLF + FieldLines(fields[1..])
  }

  lemma {:induction false} BadFieldAfter(s: string, pos: nat, fields: seq<Field>, line: string, head: Head,
                                         found: map<string, string>)
    requires forall f | f in fields :: f.Valid()
    requires NoLineEnd(line) && line != "" && Free(line, ':')
    requires StandsAt(s, pos, FieldLines(fields) + (line + CRLF))
    ensures FromHeaders(s, pos, head, found) == Failed
    decreases |fields|
  {
    hide Find, FromBody, ParseHeaderLine, NoLineEnd;
    hide Field.Valid;
    hide Field.Line;
    if fields == [] {
      assert FieldLines(fields) + (line + CRLF) == line + CRLF;
      StandsSplit(s, pos, line, CRLF);
      LineAt(s, pos, line);
      FieldRefusedIff(line);
    } else {
      var f, rest := fields[0], FieldLines(fields[1..]) + (line + CRLF);
      assert f in fields;
      ReadField(f);
      LineFree(f.Line());
      assert FieldLines(fields) + (line + CRLF) == f.Line() + (CRLF + rest);
      StandsSplit(s, pos, f.Line(), CRLF + rest);
      StandsSplit(s, pos + |f.Line()|, CRLF, rest);
      LineAt(s, pos, f.Line());
      BadFieldAfter(s, pos + |f.Line()| + 2, fields[1..], line, head, found[f.name := f.value]);
    }
  }

  /** A line of the header block without a colon, after any fields, refuses the request. */
  lemma BadField(start: Start, fields: seq<Field>, line: string, after: string)
    requires ValidStart(start) && (forall f | f in fields :: f.Valid())
    requires NoLineEnd(line) && line != "" && Free(line, ':')
    ensures Parse(StartLine(start) + CRLF + FieldLines(fields) + line + CRLF + after) == Failed
  {
    hide Find, FromHeaders, ParseRequestLine, StartLine, FieldLines, HeaderTooLong, NoLineEnd;
    hide Field.Valid;
    var first, rest := StartLine(start), FieldLines(fields) + (line + CRLF);
    var s := first + CRLF + FieldLines(fields) + line + CRLF + after;
    ReadStartLine(start);
    hide ValidStart;
    LineFree(first);
    assert s == first + CRLF + rest + after;
    assert s == first + CRLF + (rest + after);
    FirstLine(first, rest + after);
    LineAt(s, 0, first);
    assert s[|first| + 2..|first| + 2 + |rest|] == rest;
    BadFieldAfter(s, |first| + 2, fields, line, HeadOf(start), map[]);
  }

  // --- Size --------------------------------------------------------------------------------------------------

  /** A head longer than the limit is refused, whatever follows. */
  lemma LongHeadRefused(start: Start, fields: seq<Field>, after: string)
    requires ValidStart(start) && (forall f | f in fields :: f.Valid())
    requires |HeadText(start, fields)| - 4 > MAX_HEADER_BYTES
    ensures Parse(HeadText(start, fields) + after) == Failed
  {
    hide Find, FromStart, HeadText, HeaderTooLong;
    HeadEnds(start, fields, after);
  }

  lemma ChunkedScan(start: Start, fields: seq<Field>, after: string)
    requires ValidHead(start, fields) && SaysChunked(fields) && LastValue(fields, LENGTH) == None
    ensures var s, pos := HeadText(start, fields) + after, |HeadText(start, fields)|;
            ScanChunks(s, pos, "") == Bad ==> Parse(s) == Failed
  {
    FramingIs(fields);
    hide Parse, FramingOf, HeadText, HeadOf, FieldMap, ValidHead, ScanChunks, SaysChunked, LastValue;
    HeadRoundTrip(start, fields, after);
  }

  /** So is a chunked body of more than the limit. */
  lemma LongBodyRefused(start: Start, fields: seq<Field>, chunks: seq<Chunk>, last: SizeText, trailers: seq<string>,
                        after: string)
    requires ValidHead(start, fields) && SaysChunked(fields) && LastValue(fields, LENGTH) == None
    requires ValidChunks(chunks) && |Content(chunks)| > MAX_BODY_BYTES
    requires |HeadText(start, fields) + (EncodeBody(chunks, last, trailers) + after)| < TWO_63
    ensures Parse(HeadText(start, fields) + (EncodeBody(chunks, last, trailers) + after)) == Failed
  {
    hide Parse, HeadText, ValidHead, ScanChunks, EncodeBody, Content, ValidChunks, SaysChunked, LastValue;
    var head, body := HeadText(start, fields), EncodeBody(chunks, last, trailers);
    ChunkedScan(start, fields, body + after);
    assert (head + (body + after))[|head|..|head| + |body|] == body;
    TooMuchContent(head + (body + after), |head|, chunks, last, trailers, "");
  }

  /** And a body that does not begin with a size line. */
  lemma BadSizeRefused(start: Start, fields: seq<Field>, line: string, after: string)
    requires ValidHead(start, fields) && SaysChunked(fields) && LastValue(fields, LENGTH) == None
    requires NoLineEnd(line) && !IsSizeLine(line)
    ensures Parse(HeadText(start, fields) + (line + CRLF + after)) == Failed
  {
    hide Parse, HeadText, ValidHead, ScanChunks, SaysChunked, LastValue, NoLineEnd, IsSizeLine;
    var head, text := HeadText(start, fields), line + CRLF;
    ChunkedScan(start, fields, text + after);
    assert (head + (text + after))[|head|..|head| + |text|] == text;
    BadSizeLine(head + (text + after), |head|, line, "");
  }
}
