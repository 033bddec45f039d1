/** Printing a request, and what the parser reads back: every part of the request line, every header field, and the
    body in each of its framings. */
module RequestText {
  import opened Bytes
  import opened Numerals
  import opened HttpSyntax
  import opened Chunked
  import Framing

  // --- The request target -----------------------------------------------------------------------------

  /** A name and a value of the query. */
  datatype Pair = Pair(name: string, value: string)

  /** A path, and the query after a question mark if there is one. */
  datatype Target = Target(path: string, query: Option<seq<Pair>>)

  function QueryText(pairs: seq<Pair>): string
    decreases |pairs|, 0
  {
    if pairs == [] then "" else pairs[0].name + "=" + pairs[0].value + MoreText(pairs[1..])
  }

  function MoreText(pairs: seq<Pair>): string
    decreases |pairs|, 1
  {
    if pairs == [] then "" else "&" + QueryText(pairs)
  }

  /** A later pair of the same name replaces an earlier one. */
  function QueryMap(pairs: seq<Pair>, found: map<string, string>): map<string, string>
  {
    if pairs == [] then found else QueryMap(pairs[1..], found[pairs[0].name := pairs[0].value])
  }

  function TargetText(t: Target): string
  {
    t.path + match t.query case None => "" case Some(pairs) => "?" + QueryText(pairs)
  }

  predicate ValidPair(p: Pair) { Free(p.name, '=') && Free(p.value, '&') }

  lemma ReadName(q: string, start: nat, p: Pair, more: string)
    requires ValidPair(p) && start <= |q| && q[start..] == p.name + "=" + p.value + more
    ensures Find(q, "=", start) == Some(start + |p.name|) && q[start..start + |p.name|] == p.name
    ensures q[start + |p.name| + 1..] == p.value + more
  {
    hide Find;
    var rest, eq := q[start..], start + |p.name|;
    assert q[start..eq] == rest[..|p.name|] == p.name;
    assert q[eq] == rest[|p.name|] == '=';
    assert q[eq + 1..] == rest[|p.name| + 1..] == p.value + more;
    FindChar(q, '=', start, eq);
  }

  lemma ReadValue(q: string, from: nat, value: string, more: string)
    requires Free(value, '&') && from <= |q| && q[from..] == value + more && (more == "" || more[0] == '&')
    ensures more == "" ==> Find(q, "&", from) == None && q[from..] == value
    ensures more != "" ==>
              var amp := from + |value|;
              Find(q, "&", from) == Some(amp) && q[from..amp] == value && q[amp + 1..] == more[1..]
  {
    hide Find;
    var rest := q[from..];
    assert forall i | 0 <= i < |rest| :: q[from + i] == rest[i];
    if more == "" {
      assert rest == value;
      FindCharNone(q, '&', from);
    } else {
      assert rest[..|value|] == value && rest[|value|] == '&' && rest[|value| + 1..] == more[1..];
      FindChar(q, '&', from, from + |value|);
    }
  }

  lemma QueryStep(q: string, start: nat, eq: nat, found: map<string, string>)
    requires start < |q| && Find(q, "=", start) == Some(eq)
    ensures Find(q, "&", eq + 1) == None ==> ParseQuery(q, start, found) == found[q[start..eq] := q[eq + 1..]]
    ensures Find(q, "&", eq + 1).Some? ==>
              var amp := Find(q, "&", eq + 1).value;
              ParseQuery(q, start, found) == ParseQuery(q, amp + 1, found[q[start..eq] := q[eq + 1..amp]])
  {
    hide Find;
  }

  lemma ReadPair(q: string, start: nat, p: Pair, more: string, found: map<string, string>)
    requires ValidPair(p) && start <= |q| && q[start..] == p.name + "=" + p.value + more
    requires more == "" || more[0] == '&'
    ensures more == "" ==> ParseQuery(q, start, found) == found[p.name := p.value]
    ensures more != "" ==>
              var next := start + |p.name| + 1 + |p.value| + 1;
              next <= |q| && q[next..] == more[1..]
              && ParseQuery(q, start, found) == ParseQuery(q, next, found[p.name := p.value])
  {
    hide Find, ParseQuery;
    PairParts(p);
    var eq := start + |p.name|;
    ReadName(q, start, p, more);
    ReadValue(q, eq + 1, p.value, more);
    assert |q[start..]| > 0;
    QueryStep(q, start, eq, found);
  }

  lemma {:induction false} ReadQuery(q: string, start: nat, pairs: seq<Pair>, found: map<string, string>)
    requires start <= |q| && q[start..] == QueryText(pairs) && forall p | p in pairs :: ValidPair(p)
    ensures ParseQuery(q, start, found) == QueryMap(pairs, found)
    decreases |pairs|
  {
    if pairs != [] {
      var p, rest := pairs[0], pairs[1..];
      assert p in pairs;
      QueryParts(pairs);
      hide Find, ParseQuery, ValidPair, QueryText, MoreText;
      ReadPair(q, start, p, MoreText(rest), found);
      if rest != [] {
        ReadQuery(q, start + |p.name| + 1 + |p.value| + 1, rest, found[p.name := p.value]);
      }
    }
  }

  lemma QueryParts(pairs: seq<Pair>)
    requires pairs != []
    ensures QueryText(pairs) == pairs[0].name + "=" + pairs[0].value + MoreText(pairs[1..])
    ensures pairs[1..] == [] ==> MoreText(pairs[1..]) == ""
    ensures pairs[1..] != [] ==>
              MoreText(pairs[1..]) != "" && MoreText(pairs[1..])[0] == '&' && MoreText(pairs[1..])[1..] == QueryText(pairs[1..])
  {
  }

  /** The pairs, each with an ampersand behind it, and a name without a value. */
  function NameLast(pairs: seq<Pair>, name: string): string
  {
    if pairs == [] then name else pairs[0].name + "=" + pairs[0].value + "&" + NameLast(pairs[1..], name)
  }

  /** A last name without an equals sign has an empty value. */
  lemma {:induction false} ReadNameLast(q: string, start: nat, pairs: seq<Pair>, name: string, found: map<string, string>)
    requires start <= |q| && q[start..] == NameLast(pairs, name) && forall p | p in pairs :: ValidPair(p)
    requires name != "" && Free(name, '=')
    ensures ParseQuery(q, start, found) == QueryMap(pairs, found)[name := ""]
    decreases |pairs|
  {
    hide Find, ValidPair;
    if pairs == [] {
      assert forall i | start <= i < |q| :: q[i] == name[i - start];
      FindCharNone(q, '=', start);
      assert |q[start..]| > 0;
    } else {
      var p, rest := pairs[0], NameLast(pairs[1..], name);
      assert p in pairs;
      assert q[start..] == p.name + "=" + p.value + ("&" + rest);
      ReadPair(q, start, p, "&" + rest, found);
      assert ("&" + rest)[1..] == rest;
      hide ParseQuery;
      ReadNameLast(q, start + |p.name| + 1 + |p.value| + 1, pairs[1..], name, found[p.name := p.value]);
    }
  }

  lemma PairParts(p: Pair)
    requires ValidPair(p)
    ensures Free(p.value, '&')
  {
  }

  predicate ValidTarget(t: Target)
  {
    Free(t.path, '?') && (t.query.Some? ==> forall p | p in t.query.value :: ValidPair(p))
  }

  /** The pairs of the query, and the path before it, are read back. */
  lemma ReadTarget(t: Target)
    requires ValidTarget(t)
    ensures SplitTarget(TargetText(t)) == (t.path, if t.query.None? then map[] else QueryMap(t.query.value, map[]))
  {
    hide Find, QueryMap, QueryText, ParseQuery;
    var text, n := TargetText(t), |t.path|;
    match t.query
    case None =>
      assert text == t.path;
      FindCharNone(text, '?', 0);
    case Some(pairs) =>
      assert text[..n] == t.path && text[n] == '?' && text[n + 1..] == QueryText(pairs);
      FindChar(text, '?', 0, n);
      assert QueryText(pairs)[0..] == QueryText(pairs);
      ReadQuery(QueryText(pairs), 0, pairs, map[]);
  }

  // --- The request line -----------------------------------------------------------------------------------

  function MethodText(verb: Method): string
  {
    match verb
    case GET => "GET"
    case POST => "POST"
    case PUT => "PUT"
    case DELETE => "DELETE"
    case PATCH => "PATCH"
    case HEAD => "HEAD"
    case OPTIONS => "OPTIONS"
    case UNKNOWN => ""
  }

  datatype Start = Start(verb: Method, target: Target, version: string)

  function StartLine(s: Start): string
  {
    MethodText(s.verb) + " " + TargetText(s.target) + " " + s.version
  }

  function HeadOf(s: Start): Head
  {
    Head(s.verb, s.target.path,
         if s.target.query.None? then map[] else QueryMap(s.target.query.value, map[]), s.version)
  }

  predicate ValidStart(s: Start)
  {
    && s.verb != UNKNOWN && ValidTarget(s.target) && Free(TargetText(s.target), ' ')
    && Free(TargetText(s.target), '\r') && Free(s.version, '\r')
  }

  lemma MethodRead(verb: Method)
    ensures verb != UNKNOWN ==> MethodOf(MethodText(verb)) == verb
    ensures Free(MethodText(verb), ' ') && Free(MethodText(verb), '\r')
  {
  }

  lemma ReadStartLine(s: Start)
    requires ValidStart(s)
    ensures ParseRequestLine(StartLine(s)) == Some(HeadOf(s))
    ensures Free(StartLine(s), '\r')
  {
    hide Find, MethodText, TargetText, MethodOf, SplitTarget, ValidTarget;
    MethodRead(s.verb);
    ReadTarget(s.target);
    var line, verb, target := StartLine(s), MethodText(s.verb), TargetText(s.target);
    var first := |verb|;
    var second := first + 1 + |target|;
    assert line[..first] == verb && line[first + 1..second] == target && line[second + 1..] == s.version;
    FindChar(line, ' ', 0, first);
    FindChar(line, ' ', first + 1, second);
  }

  // --- Header fields --------------------------------------------------------------------------------------

  /** A field line: a name, a colon, optional white space, and a value. */
  datatype Field = Field(name: string, pad: string, value: string) {
    function Line(): string { name + ":" + pad + value }

    predicate Valid()
    {
      && Free(name, ':') && Free(name, '\r') && Free(pad, '\r') && Free(value, '\r')
      && (forall i | 0 <= i < |pad| :: IsSpace(pad[i])) && (value != "" ==> !IsSpace(value[0]))
    }
  }

  function FieldMap(fields: seq<Field>, found: map<string, string>): map<string, string>
  {
    if fields == [] then found else FieldMap(fields[1..], found[fields[0].name := fields[0].value])
  }

  function FieldsText(fields: seq<Field>): string
  {
    if fields == [] then CRLF else fields[0].Line() + CRLF + FieldsText(fields[1..])
  }

  lemma {:induction false} SpacesEndAt(s: string, i: nat, end: nat)
    requires i <= end <= |s| && (forall k | i <= k < end :: IsSpace(s[k])) && (end < |s| ==> !IsSpace(s[end]))
    ensures SpacesEnd(s, i) == end
    decreases end - i
  {
    if i < end {
      SpacesEndAt(s, i + 1, end);
    }
  }

  lemma FieldParts(f: Field)
    requires f.Valid()
    ensures var line, n := f.Line(), |f.name|;
            && |line| > n && line[n] == ':' && line[..n] == f.name && line[n + 1..] == f.pad + f.value
            && (forall i | 0 <= i < n :: line[i] != ':') && Free(line, '\r')
  {
  }

  lemma ReadField(f: Field)
    requires f.Valid()
    ensures ParseHeaderLine(f.Line()) == Some((f.name, f.value)) && Free(f.Line(), '\r') && f.Line() != ""
  {
    hide Find, IsSpace, Free;
    FieldParts(f);
    var line, value := f.Line(), f.pad + f.value;
    SpacesEndAt(value, 0, |f.pad|);
    assert value[|f.pad|..] == f.value;
    hide Field.Line;
    hide Field.Valid;
    FindChar(line, ':', 0, |f.name|);
  }

  lemma LineFree(line: string)
    requires Free(line, '\r')
    ensures NoLineEnd(line)
  {
    forall i
      ensures !OccursAt(line, CRLF, i)
    {
      OccursCrlf(line, i);
    }
  }

  /** The header block is read field by field, up to its empty line. */
  lemma {:induction false} ReadFields(s: string, pos: nat, fields: seq<Field>, head: Head, found: map<string, string>)
    requires StandsAt(s, pos, FieldsText(fields)) && forall f | f in fields :: f.Valid()
    ensures FromHeaders(s, pos, head, found)
         == FromBody(s, pos + |FieldsText(fields)|, head, FieldMap(fields, found))
    decreases |fields|
  {
    hide Find, FromBody, ParseHeaderLine, NoLineEnd;
    hide Field.Valid;
    hide Field.Line;
    if fields == [] {
      LineFree("");
      LineAt(s, pos, "");
    } else {
      var f, rest := fields[0], FieldsText(fields[1..]);
      assert f in fields;
      ReadField(f);
      LineFree(f.Line());
      assert FieldsText(fields) == f.Line() + (CRLF + rest);
      StandsSplit(s, pos, f.Line(), CRLF + rest);
      StandsSplit(s, pos + |f.Line()|, CRLF, rest);
      LineAt(s, pos, f.Line());
      ReadFields(s, pos + |f.Line()| + 2, fields[1..], head, found[f.name := f.value]);
    }
  }

  // --- The header guard -------------------------------------------------------------------------------------

  /** No blank line begins inside a line, nor at its end when another line follows. */
  lemma NoBlankInLine(s: string, pos: nat, line: string, i: nat)
    requires StandsAt(s, pos, line + CRLF) && Free(line, '\r') && pos <= i < pos + |line| + 2
    requires i == pos + |line| && i + 2 < |s| ==> s[i + 2] != '\r'
    ensures !OccursAt(s, BLANK_LINE, i)
  {
    Framing.BlankIsTwoLineEnds(s, i);
    OccursCrlf(s, i);
    OccursCrlf(s, i + 2);
    hide OccursAt;
    assert s[i] == (line + CRLF)[i - pos] by {
      assert s[pos..pos + |line + CRLF|][i - pos] == s[i];
    }
  }

  /** Up to the end of the last field there is no blank line. */
  lemma {:induction false} NoBlankLine(s: string, pos: nat, fields: seq<Field>, i: nat)
    requires StandsAt(s, pos, FieldsText(fields)) && forall f | f in fields :: f.Valid()
    requires pos <= i < pos + |FieldsText(fields)| - 4
    ensures !OccursAt(s, BLANK_LINE, i)
    decreases |fields|
  {
    hide OccursAt, ParseHeaderLine;
    hide Field.Valid;
    hide Field.Line;
    if fields != [] {
      var f, rest := fields[0], FieldsText(fields[1..]);
      assert f in fields;
      ReadField(f);
      var line := f.Line();
      assert FieldsText(fields) == line + CRLF + rest;
      StandsSplit(s, pos, line + CRLF, rest);
      var next := pos + |line| + 2;
      if i >= next {
        NoBlankLine(s, next, fields[1..], i);
      } else {
        FirstOfFields(s, next, fields[1..]);
        FieldsEnd(fields[1..]);
        hide FieldsText, StandsAt;
        NoBlankInLine(s, pos, line, i);
      }
    }
  }

  /** Unless it is the empty line, the next line does not start with a carriage return. */
  lemma FirstOfFields(s: string, pos: nat, fields: seq<Field>)
    requires StandsAt(s, pos, FieldsText(fields)) && forall f | f in fields :: f.Valid()
    ensures fields != [] ==> pos < |s| && s[pos] != '\r'
  {
    if fields != [] {
      assert fields[0] in fields;
      ReadField(fields[0]);
      hide Field.Valid;
      hide ParseHeaderLine;
      var line := fields[0].Line();
      assert FieldsText(fields)[0] == line[0];
      assert s[pos..pos + |FieldsText(fields)|][0] == s[pos];
    }
  }

  // --- Whole requests -----------------------------------------------------------------------------------------

  function HeadText(start: Start, fields: seq<Field>): string
  {
    StartLine(start) + CRLF + FieldsText(fields)
  }

  predicate ValidHead(start: Start, fields: seq<Field>)
  {
    ValidStart(start) && (forall f | f in fields :: f.Valid()) && |HeadText(start, fields)| - 4 <= MAX_HEADER_BYTES
  }

  lemma FieldsEnd(fields: seq<Field>)
    ensures |FieldsText(fields)| >= 2 && FieldsText(fields)[|FieldsText(fields)| - 2..] == CRLF
    ensures fields == [] ==> FieldsText(fields) == CRLF
    ensures fields != [] ==> |FieldsText(fields)| >= 4 && FieldsText(fields)[|FieldsText(fields)| - 4..] == BLANK_LINE
  {
    if fields != [] {
      var rest := FieldsText(fields[1..]);
      FieldsEnd(fields[1..]);
      assert FieldsText(fields) == fields[0].Line() + (CRLF + rest);
      if |fields| == 1 {
        assert FieldsText(fields[1..]) == CRLF;
      }
    }
  }

  /** The blank line of the head is the first of the buffer, so the guard measures the head. */
  lemma HeadEnds(start: Start, fields: seq<Field>, after: string)
    requires ValidStart(start) && forall f | f in fields :: f.Valid()
    ensures |HeadText(start, fields)| >= 4
    ensures Find(HeadText(start, fields) + after, BLANK_LINE, 0) == Some(|HeadText(start, fields)| - 4)
    ensures HeaderTooLong(HeadText(start, fields) + after) <==> |HeadText(start, fields)| - 4 > MAX_HEADER_BYTES
  {
    hide Find, OccursAt, StartLine, FieldsText;
    hide Field.Valid;
    var line, text := StartLine(start), HeadText(start, fields);
    var s := text + after;
    ReadStartLine(start);
    hide ParseRequestLine, ValidStart;
    FieldsEnd(fields);
    var end := |text| - 4;
    var pos := |line| + 2;
    assert s[pos..pos + |FieldsText(fields)|] == FieldsText(fields);
    assert s[0..|line + CRLF|] == line + CRLF;
    assert text == line + CRLF + FieldsText(fields);
    BlankAt(s, line, fields, end);
    forall i | 0 <= i < end
      ensures !OccursAt(s, BLANK_LINE, i)
    {
      if i >= pos {
        NoBlankLine(s, pos, fields, i);
      } else {
        FirstOfFields(s, pos, fields);
        NoBlankInLine(s, 0, line, i);
      }
    }
    FindIs(s, BLANK_LINE, 0, end);
  }

  lemma BlankAt(s: string, line: string, fields: seq<Field>, end: int)
    requires StandsAt(s, 0, line + CRLF + FieldsText(fields)) && end == |line| + 2 + |FieldsText(fields)| - 4
    ensures 0 <= end && OccursAt(s, BLANK_LINE, end)
  {
    FieldsEnd(fields);
    var text := line + CRLF + FieldsText(fields);
    if fields == [] {
      assert text[end..] == CRLF + CRLF;
    } else {
      hide FieldsText;
      assert text[end..] == FieldsText(fields)[|FieldsText(fields)| - 4..];
    }
    assert s[0..|text|] == text && s[end..end + 4] == text[end..end + 4] == text[end..];
  }

  lemma FirstLine(line: string, rest: string)
    ensures var s := line + CRLF + rest;
            s[0..|line|] == line && s[..|line|] == line && s[|line|..|line| + 2] == CRLF && s[|line| + 2..] == rest
  {
  }

  /** Whatever bytes follow, the head is read back and the body is what its fields say. */
  lemma {:induction false} HeadRoundTrip(start: Start, fields: seq<Field>, after: string)
    requires ValidHead(start, fields)
    ensures var text := HeadText(start, fields);
            Parse(text + after) == FromBody(text + after, |text|, HeadOf(start), FieldMap(fields, map[]))
  {
    hide Find, FromHeaders, FromBody, ParseRequestLine, StartLine, FieldsText, HeaderTooLong, NoLineEnd;
    hide Field.Valid;
    var line, text := StartLine(start), HeadText(start, fields);
    var s := text + after;
    HeadEnds(start, fields, after);
    ReadStartLine(start);
    hide ValidStart;
    LineFree(line);
    assert s == line + CRLF + (FieldsText(fields) + after);
    FirstLine(line, FieldsText(fields) + after);
    LineAt(s, 0, line);
    assert s[|line| + 2..|line| + 2 + |FieldsText(fields)|] == FieldsText(fields);
    ReadFields(s, |line| + 2, fields, HeadOf(start), map[]);
  }

  // --- How the fields delimit the body -----------------------------------------------------------------------

  /** The value of the last field of a name. */
  function LastValue(fields: seq<Field>, name: string): Option<string>
  {
    if fields == [] then None
    else
      match LastValue(fields[1..], name)
      case Some(value) => Some(value)
      case None => if fields[0].name == name then Some(fields[0].value) else None
  }

  lemma {:induction false} FieldMapIs(fields: seq<Field>, found: map<string, string>, name: string)
    ensures var all := FieldMap(fields, found);
            match LastValue(fields, name)
            case Some(value) => name in all && all[name] == value
            case None => (name in all <==> name in found) && (name in found ==> all[name] == found[name])
  {
    if fields != [] {
      FieldMapIs(fields[1..], found[fields[0].name := fields[0].value], name);
    }
  }

  const LENGTH := "Content-Length"
  const ENCODING := "Transfer-Encoding"

  /** The transfer encoding holds `chunked`. */
  predicate SaysChunked(fields: seq<Field>)
  {
    var value := LastValue(fields, ENCODING);
    value.Some? && Has(value.value, "chunked")
  }

  /** The length the fields announce, as a number; a body without one is empty. */
  predicate Announces(fields: seq<Field>, n: nat)
  {
    match LastValue(fields, LENGTH)
    case Some(value) => Stoul(value) == Some(n)
    case None => n == 0
  }

  lemma FramingIs(fields: seq<Field>)
    ensures var framing, length := FramingOf(FieldMap(fields, map[])), LastValue(fields, LENGTH);
            && (SaysChunked(fields) ==> framing == if length.Some? then Rejected else HttpSyntax.Framing.Chunked)
            && (!SaysChunked(fields) && length.Some? && Stoul(length.value).None? ==> framing == Rejected)
            && (forall n: nat | !SaysChunked(fields) && Announces(fields, n) ::
                  framing == if n > MAX_BODY_BYTES then Rejected else if n > 0 then Sized(n) else NoBody)
  {
    hide Stoul, Has, FieldMap, LastValue;
    FieldMapIs(fields, map[], LENGTH);
    FieldMapIs(fields, map[], ENCODING);
  }

  /** A request whose last length field is a number from 1 to the limit is complete exactly when so many bytes have
      followed the head; these are its body. */
  lemma SizedBody(start: Start, fields: seq<Field>, n: nat, after: string)
    requires ValidHead(start, fields) && !SaysChunked(fields) && Announces(fields, n) && 0 < n <= MAX_BODY_BYTES
    ensures var text := HeadText(start, fields);
            Parse(text + after) == if |after| < n then Incomplete
                                   else Complete(|text| + n, Request(HeadOf(start), FieldMap(fields, map[]), after[..n]))
  {
    hide Parse, FramingOf, HeadText, HeadOf, FieldMap, ValidHead, LastValue, Stoul, Has;
    FramingIs(fields);
    HeadRoundTrip(start, fields, after);
    var text := HeadText(start, fields);
    assert |after| >= n ==> (text + after)[|text|..|text| + n] == after[..n];
  }

  /** A length of 0, or none, is an empty body. */
  lemma EmptyBody(start: Start, fields: seq<Field>, after: string)
    requires ValidHead(start, fields) && !SaysChunked(fields) && Announces(fields, 0)
    ensures var text := HeadText(start, fields);
            Parse(text + after) == Complete(|text|, Request(HeadOf(start), FieldMap(fields, map[]), ""))
  {
    hide Parse, FramingOf, HeadText, HeadOf, FieldMap, ValidHead, LastValue, Stoul, Has;
    FramingIs(fields);
    HeadRoundTrip(start, fields, after);
  }

  /** A length beyond the limit, or one that is no number, is refused; so is one next to chunks. */
  predicate Undeliverable(fields: seq<Field>)
  {
    match LastValue(fields, LENGTH)
    case None => false
    case Some(value) => SaysChunked(fields) || Stoul(value).None? || Stoul(value).value > MAX_BODY_BYTES
  }

  lemma RefusedBody(start: Start, fields: seq<Field>, after: string)
    requires ValidHead(start, fields) && Undeliverable(fields)
    ensures Parse(HeadText(start, fields) + after) == Failed
  {
    hide Parse, FramingOf, HeadText, HeadOf, FieldMap, ValidHead, LastValue, Stoul, Has;
    FramingIs(fields);
    var n := Stoul(LastValue(fields, LENGTH).value);
    assert n.Some? ==> Announces(fields, n.value);
    HeadRoundTrip(start, fields, after);
  }

  /** Printed lengths announce their number, and texts without a digit none; a negative length is never deliverable. */
  lemma LengthText(value: string)
    ensures forall n: nat | 0 < n < TWO_63 && value == "-" + Decimal(n) ::
              Stoul(value).Some? && Stoul(value).value > MAX_BODY_BYTES
    ensures forall n: nat | n < TWO_64 && value == Decimal(n) :: Stoul(value) == Some(n)
    ensures forall n: nat | n >= TWO_64 && value == Decimal(n) :: Stoul(value).None?
    ensures (forall i | 0 <= i < |value| :: !IsDigit(value[i])) ==> Stoul(value).None?
  {
    hide Decimal, SpacesEnd, DecimalValue;
    forall n: nat | value == Decimal(n)
      ensures n < TWO_64 ==> Stoul(value) == Some(n)
      ensures n >= TWO_64 ==> Stoul(value).None?
    {
      ReadDecimal(n);
    }
    forall n: nat | 0 < n < TWO_63 && value == "-" + Decimal(n)
      ensures Stoul(value).Some? && Stoul(value).value > MAX_BODY_BYTES
    {
      ReadMinus(n);
    }
  }

  // --- Names in another case -------------------------------------------------------------------------------------

  function Lower(c: char): char { if 'A' <= c <= 'Z' then (c as int + 32) as char else c }

  /** Equal but for the case of letters, as field names are in section 3.2 of RFC 7230. */
  predicate SameName(a: string, b: string)
  {
    |a| == |b| && forall i | 0 <= i < |a| :: Lower(a[i]) == Lower(b[i])
  }

  lemma {:induction false} OneLength(fields: seq<Field>, k: nat)
    requires k < |fields| && SameName(fields[k].name, LENGTH)
    requires forall i | 0 <= i < |fields| && i != k :: !SameName(fields[i].name, LENGTH)
    ensures LastValue(fields, LENGTH) == if fields[k].name == LENGTH then Some(fields[k].value) else None
    decreases |fields|
  {
    if k > 0 {
      assert !SameName(fields[0].name, LENGTH);
      forall i | 0 <= i < |fields[1..]| && i != k - 1
        ensures !SameName(fields[1..][i].name, LENGTH)
      {
        assert fields[1..][i] == fields[i + 1];
      }
      OneLength(fields[1..], k - 1);
    } else {
      forall f | f in fields[1..]
        ensures f.name != LENGTH
      {
        var i :| 0 < i < |fields| && fields[i] == f;
      }
      Unnamed(fields[1..], LENGTH);
    }
  }

  lemma {:induction false} Unnamed(fields: seq<Field>, name: string)
    requires forall f | f in fields :: f.name != name
    ensures LastValue(fields, name) == None
  {
    if fields != [] {
      assert fields[0] in fields;
      Unnamed(fields[1..], name);
    }
  }

  /** A field of that name is read as the length of the body exactly when it is spelled as the program spells it. */
  lemma LengthSpellingIff(start: Start, fields: seq<Field>, k: nat, n: nat, after: string)
    requires ValidHead(start, fields) && !SaysChunked(fields)
    requires k < |fields| && SameName(fields[k].name, LENGTH) && Stoul(fields[k].value) == Some(n)
    requires forall i | 0 <= i < |fields| && i != k :: !SameName(fields[i].name, LENGTH)
    requires 0 < n <= MAX_BODY_BYTES && n <= |after|
    ensures Parse(HeadText(start, fields) + after)
            == Complete(|HeadText(start, fields)| + n, Request(HeadOf(start), FieldMap(fields, map[]), after[..n]))
       <==> fields[k].name == LENGTH
  {
    hide Parse, HeadText, HeadOf, FieldMap, ValidHead, LastValue, Stoul, Has, SameName, SaysChunked;
    OneLength(fields, k);
    if fields[k].name == LENGTH {
      SizedBody(start, fields, n, after);
    } else {
      EmptyBody(start, fields, after);
    }
  }

  // --- Requests and their bodies ----------------------------------------------------------------------------------

  /** A printed request with a length-delimited body, or none, is read back in full, whatever bytes follow. */
  lemma {:induction false} RequestRoundTrip(start: Start, fields: seq<Field>, body: string, after: string)
    requires ValidHead(start, fields) && !SaysChunked(fields) && Announces(fields, |body|) && |body| <= MAX_BODY_BYTES
    ensures var text := HeadText(start, fields) + body;
            Parse(text + after) == Complete(|text|, Request(HeadOf(start), FieldMap(fields, map[]), body))
  {
    hide Parse, HeadText, HeadOf, FieldMap, ValidHead, SaysChunked, Announces;
    var head := HeadText(start, fields);
    assert head + (body + after) == head + body + after;
    if body == "" {
      EmptyBody(start, fields, body + after);
    } else {
      SizedBody(start, fields, |body|, body + after);
      assert (body + after)[..|body|] == body;
    }
  }

  /** A printed request with a chunked body likewise. */
  lemma {:induction false} ChunkedRequestRoundTrip(start: Start, fields: seq<Field>, chunks: seq<Chunk>, last: SizeText,
                                trailers: seq<string>, after: string)
    requires ValidHead(start, fields) && SaysChunked(fields) && LastValue(fields, LENGTH) == None
    requires ValidChunks(chunks) && last.Valid(0) && ValidTrailers(trailers) && |Content(chunks)| <= MAX_BODY_BYTES
    ensures var text := HeadText(start, fields) + EncodeBody(chunks, last, trailers);
            Parse(text + after)
            == Complete(|text|, Request(HeadOf(start), FieldMap(fields, map[]), Content(chunks)))
  {
    FramingIs(fields);
    hide Parse, FramingOf, HeadText, HeadOf, FieldMap, ValidHead, ScanChunks, EncodeBody, Content, ValidChunks;
    hide SaysChunked, LastValue;
    var head, body := HeadText(start, fields), EncodeBody(chunks, last, trailers);
    HeadRoundTrip(start, fields, body + after);
    assert head + (body + after) == head + body + after;
    assert (head + body + after)[|head|..|head| + |body|] == body;
    ReadChunks(head + body + after, |head|, chunks, last, trailers, "");
    assert "" + Content(chunks) == Content(chunks);
  }
}
