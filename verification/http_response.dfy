/** `HttpResponse` and the request-driven semantics of file responses: HEAD, conditional requests and ranges. */
module HttpResponses {
  import opened Bytes
  import opened Numerals
  import opened HttpSyntax
  import opened Validators

  const OK: nat := 200
  const PARTIAL_CONTENT: nat := 206
  const NOT_MODIFIED: nat := 304
  const RANGE_NOT_SATISFIABLE: nat := 416

  datatype Content = Text(text: string) | File(path: string)

  /** The Content-Range of positions `first` to `last` of `size`. */
  function PartOf(first: nat, last: nat, size: nat): string
  {
    "bytes " + Decimal(first) + "-" + Decimal(last) + "/" + Decimal(size)
  }

  function Least(a: int, b: int): int { if a < b then a else b }

  class HttpResponse {
    var status: nat
    var headers: map<string, string>
    var content: Content
    var fileOffset: int
    var fileLength: int
    var headOnly: bool

    constructor ()
      ensures status == OK && content == Text("") && fileOffset == 0 && fileLength == -1 && !headOnly
    {
      status := OK;
      headers := map["Server" := "Oreshnek/1.0.0", "Connection" := "keep-alive"];
      content, fileOffset, fileLength, headOnly := Text(""), 0, -1, false;
    }

    /** `file`: `size` is the file's size when it can be found out. */
    method SetFile(path: string, contentType: string, size: Option<nat>)
      modifies this
      ensures content == File(path)
      ensures size.Some? ==> "Content-Length" in headers && headers["Content-Length"] == Decimal(size.value)
      ensures unchanged(`status) && unchanged(`fileOffset) && unchanged(`fileLength) && unchanged(`headOnly)
    {
      content := File(path);
      headers := headers["Content-Type" := contentType];
      if size.Some? {
        headers := headers["Content-Length" := Decimal(size.value)];
      }
    }

    /** The two headers that say which part of a file is sent. */
    method SetPart(range: string, length: nat)
      modifies `headers
      ensures Says("Content-Range", range) && Says("Content-Length", Decimal(length)) && KeepsRest(old(headers))
    {
      hide Decimal;
      headers := headers["Content-Range" := range]["Content-Length" := Decimal(length)];
    }

    ghost predicate KeepsRest(before: map<string, string>)
      reads `headers
    {
      forall name | name in before && name != "Content-Range" && name != "Content-Length" :: Says(name, before[name])
    }

    /** The headers of a file that do not depend on what is sent of it. */
    method SetValidators(etag: string, date: string)
      modifies `headers
      ensures Validated(etag, date)
      ensures "Content-Length" in old(headers) ==> Says("Content-Length", old(headers)["Content-Length"])
    {
      FieldNames();
      headers := headers["Accept-Ranges" := "bytes"]["ETag" := etag]["Last-Modified" := date];
    }

    ghost predicate Validated(etag: string, date: string)
      reads `headers
    {
      Says("Accept-Ranges", "bytes") && Says("ETag", etag) && Says("Last-Modified", date)
    }

    lemma StaysValidated(before: map<string, string>, etag: string, date: string)
      requires KeepsRest(before) && "Accept-Ranges" in before && "ETag" in before && "Last-Modified" in before
      requires before["Accept-Ranges"] == "bytes" && before["ETag"] == etag && before["Last-Modified"] == date
      ensures Validated(etag, date)
    {
      FieldNames();
    }

    method SetNotModified()
      modifies this
      ensures status == NOT_MODIFIED && SendsNothing() && content == old(content)
      ensures forall etag, date :: old(Validated(etag, date)) ==> Validated(etag, date)
    {
      hide Decimal;
      FieldNames();
      status := NOT_MODIFIED;
      headers := headers["Content-Length" := Decimal(0)];
      headOnly := true;
      SetFileRange(0, 0);
    }

    /** The value of a header, if it is set. */
    ghost predicate Says(name: string, value: string)
      reads `headers
    {
      name in headers && headers[name] == value
    }

    ghost predicate SendsNothing()
      reads this
    {
      headOnly && fileOffset == fileLength == 0 && Says("Content-Length", Decimal(0))
    }

    /** The response to a range of a file of `size` bytes: from status `before` and headers `fields`. */
    ghost predicate AnswersRange(spec: RangeSpec, size: nat, before: nat, fields: map<string, string>, head: bool)
      reads this
    {
      if spec == Whole then
        && status == before && headOnly == head && fileOffset == 0 && fileLength == size
        && ("Content-Length" in fields ==> Says("Content-Length", fields["Content-Length"]))
      else if SelectsSome(spec, size) then
        && status == PARTIAL_CONTENT && headOnly == head && 0 <= fileOffset && 0 < fileLength
        && (forall i :: Selects(spec, size, i) <==> fileOffset <= i < fileOffset + fileLength)
        && Says("Content-Length", Decimal(fileLength))
        && Says("Content-Range", PartOf(fileOffset, fileOffset + fileLength - 1, size))
      else
        && status == RANGE_NOT_SATISFIABLE && SendsNothing()
        && Says("Content-Range", "bytes */" + Decimal(size))
    }

    /** 206 with positions `first` to `last` of a file of `size` bytes, or 416 if there are none. */
    ghost predicate SendsPart(first: int, last: int, size: nat, head: bool)
      reads this
    {
      if 0 <= first <= last then
        && status == PARTIAL_CONTENT && headOnly == head && fileOffset == first && fileLength == last - first + 1
        && Says("Content-Range", "bytes " + Decimal(first) + "-" + Decimal(last) + "/" + Decimal(size))
        && Says("Content-Length", Decimal(last - first + 1))
      else
        && status == RANGE_NOT_SATISFIABLE && SendsNothing()
        && Says("Content-Range", "bytes */" + Decimal(size))
    }

    /** What is answered to a Range header as it is printed: the last `n` bytes, the bytes from `a` to `b`, or from `a`
        on; and the whole file where it is no single range in bytes. */
    ghost predicate AnswersPrinted(range: string, size: nat, before: nat, head: bool)
      reads this
    {
      && (forall n: nat | n < TWO_63 && range == "bytes=-" + Decimal(n) ::
            SendsPart(size - Least(n, size), size - 1, size, head))
      && (forall a: nat, b: nat | a < TWO_63 && b < TWO_63 && range == "bytes=" + Decimal(a) + "-" + Decimal(b) ::
            SendsPart(a, Least(b, size - 1), size, head))
      && (forall a: nat | a < TWO_63 && range == "bytes=" + Decimal(a) + "-" :: SendsPart(a, size - 1, size, head))
      && (!("bytes=" <= range) || ',' in range || '-' !in range ==>
            status == before && headOnly == head && fileOffset == 0 && fileLength == size)
    }

    method SetFileRange(offset: int, length: int)
      modifies `fileOffset, `fileLength
      ensures fileOffset == offset && fileLength == length
    {
      fileOffset, fileLength := offset, length;
    }
  }

  // --- Ranges -------------------------------------------------------------------------------------

  /** What a Range header asks for: nothing this server serves in parts, the bytes from `first` on (up to
      `last`), the final `count` bytes, or something it cannot read. */
  datatype RangeSpec = Whole | Interval(first: int, last: Option<int>) | Suffix(count: int) | Unreadable

  const BYTES_UNIT := "bytes="

  /** The part of a Range header after "bytes=", if it is a single range. */
  function SingleRange(header: string): Option<(string, string)>
  {
    if !(BYTES_UNIT <= header) || Has(header, ",") then None
    else
      var r := header[|BYTES_UNIT|..];
      match Find(r, "-", 0)
      case None => None
      case Some(dash) => Some((r[..dash], r[dash + 1..]))
  }

  /** The two ends of a range, read with a number reader that gives None where it throws. */
  function RangeEnds(first: string, last: string, number: string -> Option<int>): RangeSpec
  {
    if first != "" then
      if number(first).None? || (last != "" && number(last).None?) then Unreadable
      else Interval(number(first).value, if last == "" then None else number(last))
    else if last != "" then
      if number(last).None? then Unreadable else Suffix(number(last).value)
    else Unreadable
  }

  function ReadRange(header: Option<string>, number: string -> Option<int>): RangeSpec
  {
    if header.None? then Whole
    else
      match SingleRange(header.value)
      case None => Whole
      case Some((first, last)) => RangeEnds(first, last, number)
  }

  /** Position `i` of a file of `size` bytes is one the range names: for a valid range as in section 2.1 of RFC 7233,
      for one the server cannot read none. */
  predicate Selects(spec: RangeSpec, size: int, i: int)
  {
    && 0 <= i < size
    && match spec
       case Whole => true
       case Interval(first, last) => first <= i && (last.Some? ==> i <= last.value)
       case Suffix(count) => size - count <= i
       case Unreadable => false
  }

  ghost predicate SelectsSome(spec: RangeSpec, size: int)
  {
    exists i :: Selects(spec, size, i)
  }

  /** A number without a minus sign is not negative. */
  lemma NoMinusNotNegative(s: string)
    requires '-' !in s && Stoll(s).Some?
    ensures Stoll(s).value >= 0
  {
    hide SpacesEnd, DigitsEnd, DecimalValue;
  }

  /** `apply_http_semantics`. `stat` is what the file system reports of the file, `asked` and `range` the conditional
      headers and the Range header of the request; `printDate` and `readDate` print and read the time of a file. */
  method ApplyHttpSemantics(verb: Method, range: Option<string>, asked: Conditions, stat: Option<FileStat>,
                            printDate: int -> string, readDate: string -> int, res: HttpResponse)
    requires stat.Some? ==> stat.value.size < TWO_63
    modifies res
    ensures res.content == old(res.content)
    ensures old(res.content).Text? || stat.None? ==>
              && res.headOnly == (old(res.headOnly) || verb == HEAD) && res.headers == old(res.headers)
              && unchanged(res`status) && unchanged(res`fileOffset) && unchanged(res`fileLength)
    ensures old(res.content).File? && stat.Some? ==>
              res.Validated(Etag(stat.value), printDate(stat.value.mtime))
    ensures old(res.content).File? && stat.Some? && NotModified(verb, asked, stat.value, readDate) ==>
              res.status == NOT_MODIFIED && res.SendsNothing()
    ensures old(res.content).File? && stat.Some? && !NotModified(verb, asked, stat.value, readDate) ==>
              && res.AnswersRange(ReadRange(range, Stoll), stat.value.size, old(res.status), old(res.headers),
                                  old(res.headOnly) || verb == HEAD)
              && (range.Some? ==> res.AnswersPrinted(range.value, stat.value.size, old(res.status),
                                                     old(res.headOnly) || verb == HEAD))
  {
    hide HttpResponse.AnswersRange;
    hide HttpResponse.AnswersPrinted;
    hide HttpResponse.Validated;
    hide HttpResponse.KeepsRest;
    hide Etag, NotModified, ReadRange;
    if verb == HEAD {
      res.headOnly := true;
    }
    if res.content.Text? || stat.None? {
      return;
    }
    var etag, date := Etag(stat.value), printDate(stat.value.mtime);
    res.SetValidators(etag, date);
    var notModified := Compare(asked, stat.value, etag, readDate);
    MatchIsNotModified(verb, asked, stat.value, readDate, notModified);
    if (verb == GET || verb == HEAD) && notModified {
      res.SetNotModified();
      return;
    }
    ghost var before := res.headers;
    WhatIsValidated(res, etag, date);
    ApplyRange(range, stat.value.size, res, old(res.headers));
    res.StaysValidated(before, etag, date);
  }

  lemma WhatIsValidated(res: HttpResponse, etag: string, date: string)
    requires res.Validated(etag, date)
    ensures "Accept-Ranges" in res.headers && "ETag" in res.headers && "Last-Modified" in res.headers
    ensures res.headers["Accept-Ranges"] == "bytes" && res.headers["ETag"] == etag && res.headers["Last-Modified"] == date
  {
  }

  lemma FieldNames()
    ensures "ETag" != "Content-Range" && "ETag" != "Content-Length" && "ETag" != "Last-Modified"
    ensures "Last-Modified" != "Content-Range" && "Last-Modified" != "Content-Length"
    ensures "Accept-Ranges" != "Content-Range" && "Accept-Ranges" != "Content-Length"
    ensures "Accept-Ranges" != "Last-Modified" && "Accept-Ranges" != "ETag"
  {
    assert "Last-Modified"[0] == 'L' && "Content-Range"[0] == 'C' && "Accept-Ranges"[0] == 'A';
  }

  // --- Headers as they are printed ------------------------------------------------------------------

  lemma HasChar(s: string, c: char)
    ensures Has(s, [c]) <==> c in s
  {
    hide Find;
    FindSpec(s, [c], 0);
    forall i
      ensures OccursAt(s, [c], i) <==> 0 <= i < |s| && s[i] == c
    {
      OccursChar(s, c, i);
    }
  }

  lemma DecimalPlain(n: nat)
    ensures Decimal(n) != "" && ',' !in Decimal(n) && '-' !in Decimal(n)
  {
    hide Decimal;
  }

  /** A header that is printed with a dash between two texts is read as these. */
  lemma PrintedRange(first: string, last: string)
    requires '-' !in first && ',' !in first && ',' !in last
    ensures SingleRange("bytes=" + first + "-" + last) == Some((first, last))
  {
    hide Find, Has;
    var header, r := "bytes=" + first + "-" + last, first + "-" + last;
    assert header == "bytes=" + r && header[6..] == r;
    HasChar(header, ',');
    FindChar(r, '-', 0, |first|);
    assert r[..|first|] == first && r[|first| + 1..] == last;
  }

  lemma PrintedForms(range: string)
    ensures forall n: nat | n < TWO_63 && range == "bytes=-" + Decimal(n) :: ReadRange(Some(range), Stoll) == Suffix(n)
    ensures forall a: nat, b: nat | a < TWO_63 && b < TWO_63 && range == "bytes=" + Decimal(a) + "-" + Decimal(b) ::
              ReadRange(Some(range), Stoll) == Interval(a, Some(b))
    ensures forall a: nat | a < TWO_63 && range == "bytes=" + Decimal(a) + "-" ::
              ReadRange(Some(range), Stoll) == Interval(a, None)
  {
    hide Decimal, SingleRange, Stoll;
    forall n: nat | n < TWO_63 && range == "bytes=-" + Decimal(n)
      ensures ReadRange(Some(range), Stoll) == Suffix(n)
    {
      DecimalPlain(n);
      ReadDecimal(n);
      PrintedRange("", Decimal(n));
      assert range == "bytes=" + "" + "-" + Decimal(n);
    }
    forall a: nat, b: nat | a < TWO_63 && b < TWO_63 && range == "bytes=" + Decimal(a) + "-" + Decimal(b)
      ensures ReadRange(Some(range), Stoll) == Interval(a, Some(b))
    {
      DecimalPlain(a);
      DecimalPlain(b);
      ReadDecimal(a);
      ReadDecimal(b);
      PrintedRange(Decimal(a), Decimal(b));
    }
    forall a: nat | a < TWO_63 && range == "bytes=" + Decimal(a) + "-"
      ensures ReadRange(Some(range), Stoll) == Interval(a, None)
    {
      DecimalPlain(a);
      ReadDecimal(a);
      PrintedRange(Decimal(a), "");
      assert range == "bytes=" + Decimal(a) + "-" + "";
    }
  }

  lemma NoSingleRange(range: string)
    requires !("bytes=" <= range) || ',' in range || '-' !in range
    ensures ReadRange(Some(range), Stoll) == Whole
  {
    hide Find, Has;
    HasChar(range, ',');
    if "bytes=" <= range && '-' !in range {
      FindCharNone(range[6..], '-', 0);
    }
  }

  /** Naming exactly the positions `first` to `last`. */
  lemma PartIs(spec: RangeSpec, first: int, last: int, size: nat, res: HttpResponse, before: nat,
               fields: map<string, string>, head: bool)
    requires res.AnswersRange(spec, size, before, fields, head) && spec != Whole && 0 <= first && last < size
    requires forall i :: Selects(spec, size, i) <==> first <= i <= last
    ensures res.SendsPart(first, last, size, head)
  {
    hide Decimal;
    if first <= last {
      assert Selects(spec, size, first) && Selects(spec, size, last);
      assert Selects(spec, size, res.fileOffset) && Selects(spec, size, res.fileOffset + res.fileLength - 1);
      assert !Selects(spec, size, res.fileOffset - 1) && !Selects(spec, size, res.fileOffset + res.fileLength);
      hide Selects;
    }
  }

  lemma PrintedAnswered(range: string, size: nat, res: HttpResponse, before: nat, fields: map<string, string>, head: bool)
    requires res.AnswersRange(ReadRange(Some(range), Stoll), size, before, fields, head)
    ensures res.AnswersPrinted(range, size, before, head)
  {
    hide Decimal, ReadRange;
    hide HttpResponse.SendsPart;
    PrintedForms(range);
    forall n: nat | n < TWO_63 && range == "bytes=-" + Decimal(n)
      ensures res.SendsPart(size - Least(n, size), size - 1, size, head)
    {
      PartIs(Suffix(n), size - Least(n, size), size - 1, size, res, before, fields, head);
    }
    forall a: nat, b: nat | a < TWO_63 && b < TWO_63 && range == "bytes=" + Decimal(a) + "-" + Decimal(b)
      ensures res.SendsPart(a, Least(b, size - 1), size, head)
    {
      PartIs(Interval(a, Some(b)), a, Least(b, size - 1), size, res, before, fields, head);
    }
    forall a: nat | a < TWO_63 && range == "bytes=" + Decimal(a) + "-"
      ensures res.SendsPart(a, size - 1, size, head)
    {
      PartIs(Interval(a, None), a, size - 1, size, res, before, fields, head);
    }
    if !("bytes=" <= range) || ',' in range || '-' !in range {
      NoSingleRange(range);
    }
  }

  // --- Answering a range ----------------------------------------------------------------------------

  /** The range part of `apply_http_semantics`: 206 with exactly the selected bytes when a single range selects
      some, 416 and none when it selects none or cannot be read, and the whole file when the header is no single
      range in bytes. */
  method ApplyRange(range: Option<string>, size: nat, res: HttpResponse, ghost before: map<string, string>)
    requires size < TWO_63 && ("Content-Length" in before ==> res.Says("Content-Length", before["Content-Length"]))
    modifies res
    ensures res.content == old(res.content)
    ensures res.KeepsRest(old(res.headers))
    ensures res.AnswersRange(ReadRange(range, Stoll), size, old(res.status), before, old(res.headOnly))
    ensures range.Some? ==> res.AnswersPrinted(range.value, size, old(res.status), old(res.headOnly))
  {
    SendRange(range, size, res, before);
    if range.Some? {
      PrintedAnswered(range.value, size, res, old(res.status), before, old(res.headOnly));
    }
  }

  method SendRange(range: Option<string>, size: nat, res: HttpResponse, ghost before: map<string, string>)
    requires size < TWO_63 && ("Content-Length" in before ==> res.Says("Content-Length", before["Content-Length"]))
    modifies res
    ensures res.content == old(res.content)
    ensures res.KeepsRest(old(res.headers))
    ensures res.AnswersRange(ReadRange(range, Stoll), size, old(res.status), before, old(res.headOnly))
  {
    hide Decimal, PartOf, Stoll, SingleRange, SelectsSome, Selects;
    hide HttpResponse.KeepsRest;
    KeepsAll(res);
    ghost var spec := ReadRange(range, Stoll);
    var parts := if range.Some? then SingleRange(range.value) else None;
    if parts.None? {
      res.SetFileRange(0, size);
      return;
    }
    var (first, last) := parts.value;
    NoMinusInFirst(range.value);
    var ok, start, end := SelectRange(first, last, size);
    assert SelectsSome(spec, size) <==> ok by {
      OneSelected(spec, size, ok, start, end);
    }
    if !ok {
      res.status := RANGE_NOT_SATISFIABLE;
      res.SetPart("bytes */" + Decimal(size), 0);
      res.headOnly := true;
      res.SetFileRange(0, 0);
      return;
    }
    var length := end - start + 1;
    res.status := PARTIAL_CONTENT;
    res.SetPart(PartOf(start, end, size), length);
    res.SetFileRange(start, length);
  }

  lemma KeepsAll(res: HttpResponse)
    ensures res.KeepsRest(res.headers)
  {
  }

  lemma OneSelected(spec: RangeSpec, size: int, ok: bool, start: int, end: int)
    requires ok ==> start <= end
    requires forall i :: Selects(spec, size, i) <==> ok && start <= i <= end
    ensures SelectsSome(spec, size) <==> ok
  {
    hide Selects;
    assert ok ==> Selects(spec, size, start);
  }

  lemma NoMinusInFirst(header: string)
    requires SingleRange(header).Some?
    ensures '-' !in SingleRange(header).value.0
  {
    hide Find, Has;
    var r := header[|BYTES_UNIT|..];
    FindSpec(r, "-", 0);
    forall i | 0 <= i < Find(r, "-", 0).value
      ensures r[i] != '-'
    {
      OccursChar(r, '-', i);
    }
  }

  /** The first and last position that the two ends of a range select in a file of `size` bytes. */
  method SelectRange(first: string, last: string, size: int) returns (ok: bool, start: int, end: int)
    requires 0 <= size < TWO_63 && '-' !in first
    ensures ok ==> 0 <= start <= end < size
    ensures forall i :: Selects(RangeEnds(first, last, Stoll), size, i) <==> ok && start <= i <= end
  {
    hide ReadSigned;
    start, end := 0, size - 1;
    ok := size > 0;
    if first != "" {
      var v := Stoll(first);
      if v.None? {
        return false, 0, 0;
      }
      NoMinusNotNegative(first);
      start := v.value;
      if last != "" {
        var w := Stoll(last);
        if w.None? {
          return false, 0, 0;
        }
        end := w.value;
      }
    } else if last != "" {
      var w := Stoll(last);
      if w.None? {
        return false, 0, 0;
      }
      if w.value <= 0 {
        ok := false;
      } else {
        start := if w.value >= size then 0 else size - w.value;
      }
    } else {
      ok := false;
    }
    if ok {
      if end >= size {
        end := size - 1;
      }
      if start < 0 || start > end {
        ok := false;
      }
    }
  }

  // --- Ranges that are not valid --------------------------------------------------------------------

  /** Neither end is given, or one is no number, or the last comes before the first. Section 2.1 of RFC 7233 has a
      server ignore a header with such a range. */
  predicate Invalid(first: string, last: string)
  {
    || (first == "" && last == "")
    || (first != "" && Stoll(first).None?)
    || (last != "" && Stoll(last).None?)
    || (first != "" && last != "" && Stoll(last).value < Stoll(first).value)
  }

  /** This one answers it with 416. */
  lemma InvalidRangeIsRefused(header: string, first: string, last: string, size: nat, res: HttpResponse,
                              before: nat, fields: map<string, string>, head: bool)
    requires SingleRange(header) == Some((first, last)) && Invalid(first, last)
    ensures res.AnswersRange(ReadRange(Some(header), Stoll), size, before, fields, head) ==>
              res.status == RANGE_NOT_SATISFIABLE && res.SendsNothing()
  {
    hide Decimal, Stoll, SingleRange;
    assert ReadRange(Some(header), Stoll) != Whole;
  }

  // --- Numbers that do not fit --------------------------------------------------------------------

  /** The number a text starts with, of any size. */
  function AnyNumber(s: string): Option<int>
  {
    match ReadNumeral(s)
    case None => None
    case Some(n) => Some(if n.negative then 0 - n.magnitude else n.magnitude)
  }

  /** A number of the header is too large for `std::stoll`. */
  predicate Overflows(header: string)
  {
    match SingleRange(header)
    case None => false
    case Some((first, last)) =>
      || (first != "" && AnyNumber(first).Some? && Stoll(first).None?)
      || (last != "" && AnyNumber(last).Some? && Stoll(last).None?)
  }

  /** The range the server answers is the range the header names exactly when no number in it is too large, or
      when it selects nothing anyway. */
  lemma AnsweredRangeIsNamedRange(header: string, size: nat)
    requires size < TWO_63
    ensures (forall i :: Selects(ReadRange(Some(header), Stoll), size, i)
                         <==> Selects(ReadRange(Some(header), AnyNumber), size, i))
            <==> !Overflows(header) || !SelectsSome(ReadRange(Some(header), AnyNumber), size)
  {
    hide SingleRange, ReadNumeral;
    var served, named := ReadRange(Some(header), Stoll), ReadRange(Some(header), AnyNumber);
    if Overflows(header) {
      assert served == Unreadable;
      if SelectsSome(named, size) {
        var i :| Selects(named, size, i);
        assert !Selects(served, size, i);
      }
    } else {
      assert served == named;
    }
  }

  /** An end of 2^63 or more names the whole file, which the server then refuses to send. */
  lemma OversizedEndIsRefused(end: nat, size: nat, res: HttpResponse, before: nat, fields: map<string, string>,
                              head: bool)
    requires end >= TWO_63 > size
    ensures var header := "bytes=0-" + Decimal(end);
            var served, named := ReadRange(Some(header), Stoll), ReadRange(Some(header), AnyNumber);
            && (forall i :: Selects(named, size, i) <==> 0 <= i < size)
            && !SelectsSome(served, size)
            && (res.AnswersRange(served, size, before, fields, head) ==>
                  res.status == RANGE_NOT_SATISFIABLE && res.SendsNothing())
  {
    hide Decimal;
    OversizedEnd(end);
  }

  lemma OversizedEnd(end: nat)
    requires end >= TWO_63
    ensures var header := "bytes=0-" + Decimal(end);
            && ReadRange(Some(header), Stoll) == Unreadable
            && ReadRange(Some(header), AnyNumber) == Interval(0, Some(end))
  {
    hide Decimal, ReadNumeral, Find;
    var header, last := "bytes=0-" + Decimal(end), Decimal(end);
    var r := header[6..];
    assert r == "0-" + last;
    assert forall i | 8 <= i < |header| :: header[i] == last[i - 8];
    FindCharNone(header, ',', 0);
    FindChar(r, '-', 0, 1);
    assert r[..1] == "0" && r[2..] == last;
    assert SingleRange(header) == Some(("0", last));
    ReadDecimal(end);
    ReadZero();
  }

  lemma ReadZero()
    ensures ReadNumeral("0") == Some(Numeral(false, 0))
  {
    assert Decimal(0) == "0";
    ReadDecimal(0);
  }
}
