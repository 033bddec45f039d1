/** Conditional requests: the validators of a file, and when a client's copy of it is still good. */
module Validators {
  import opened Bytes
  import opened Numerals
  import opened HttpSyntax
  import opened Chunked

  /** What `stat` reports of a file. */
  datatype FileStat = FileStat(size: nat, mtime: int)

  /** The conditional headers of a request. */
  datatype Conditions = Conditions(ifNoneMatch: Option<string>, ifModifiedSince: Option<string>)

  /** The conversion of a C integer to `unsigned long long`. */
  function Unsigned64(n: int): nat { n % TWO_64 }

  function TagText(stat: FileStat): string
  {
    HexText(Unsigned64(stat.size)) + "-" + HexText(Unsigned64(stat.mtime))
  }

  /** `make_etag`. */
  function Etag(stat: FileStat): string
  {
    "\"" + TagText(stat) + "\""
  }

  /** Whether a request for the file is answered 304. `readDate` is `parse_http_date`, with -1 for no date. */
  predicate NotModified(verb: Method, asked: Conditions, stat: FileStat, readDate: string -> int)
  {
    && (verb == GET || verb == HEAD)
    && match asked.ifNoneMatch
       case Some(tags) => tags == "*" || Has(tags, Etag(stat))
       case None =>
         asked.ifModifiedSince.Some?
         && var since := readDate(asked.ifModifiedSince.value);
            since != -1 && stat.mtime <= since
  }

  /** Its comparison, whatever the method; If-None-Match takes precedence. */
  method Compare(asked: Conditions, stat: FileStat, etag: string, readDate: string -> int) returns (same: bool)
    requires etag == Etag(stat)
    ensures same <==> NotModified(GET, asked, stat, readDate)
  {
    hide Has, Etag;
    same := false;
    if asked.ifNoneMatch.Some? {
      same := asked.ifNoneMatch.value == "*" || Has(asked.ifNoneMatch.value, etag);
    } else if asked.ifModifiedSince.Some? {
      var since := readDate(asked.ifModifiedSince.value);
      same := since != -1 && stat.mtime <= since;
    }
  }

  /** Only GET and HEAD are conditional. */
  lemma MatchIsNotModified(verb: Method, asked: Conditions, stat: FileStat, readDate: string -> int, same: bool)
    requires same <==> NotModified(GET, asked, stat, readDate)
    ensures NotModified(verb, asked, stat, readDate) <==> (verb == GET || verb == HEAD) && same
  {
    hide Has, Etag;
  }

  // --- Lists of entity tags -------------------------------------------------------------------------

  /** An entity tag, section 2.3 of RFC 7232. */
  datatype Tag = Tag(weak: bool, text: string)
  {
    function Lead(): string { if weak then "W/" else "" }

    function Text(): string { Lead() + "\"" + text + "\"" }
  }

  function MoreTags(tags: seq<Tag>): string
  {
    if tags == [] then "" else ", " + tags[0].Text() + MoreTags(tags[1..])
  }

  /** The tags of an If-None-Match header, section 3.2 of RFC 7232. */
  function TagList(tags: seq<Tag>): string
    requires tags != []
  {
    tags[0].Text() + MoreTags(tags[1..])
  }

  lemma HasIs(s: string, needle: string)
    ensures Has(s, needle) <==> exists i :: OccursAt(s, needle, i)
  {
    hide Find;
    FindSpec(s, needle, 0);
    forall i | OccursAt(s, needle, i)
      ensures 0 <= i
    {
    }
  }

  /** A quoted text stands at the quote of the first tag, or after that tag. */
  lemma QuotedAt(lead: string, text: string, rest: string, o: string, i: int)
    requires Free(lead, '"') && Free(text, '"') && Free(o, '"') && o != "" && o[0] != ','
    requires rest == "" || rest[0] == ','
    ensures var s, n := lead + "\"" + text + "\"" + rest, |lead| + |text| + 2;
            OccursAt(s, "\"" + o + "\"", i)
            <==> (i == |lead| && o == text) || (n <= i && OccursAt(rest, "\"" + o + "\"", i - n))
  {
    var s, needle := lead + "\"" + text + "\"" + rest, "\"" + o + "\"";
    var n := |lead| + |text| + 2;
    assert s[n..] == rest;
    if n <= i <= |s| - |needle| {
      assert s[n..][i - n..i - n + |needle|] == s[i..i + |needle|];
    }
    if OccursAt(s, needle, i) && i < n {
      hide OccursAt;
      OccursChars(s, needle, i, 0);
      OccursChars(s, needle, i, 1);
      OccursChars(s, needle, i, |o| + 1);
      assert rest != "" ==> s[n] == rest[0];
      assert i == |lead|;
      SameQuoted(s, lead, text, rest, o);
    }
    if i == |lead| && o == text {
      assert s[|lead|..|lead| + |needle|] == needle;
    }
  }

  lemma SameQuoted(s: string, lead: string, text: string, rest: string, o: string)
    requires s == lead + "\"" + text + "\"" + rest && Free(text, '"') && Free(o, '"')
    requires OccursAt(s, "\"" + o + "\"", |lead|)
    ensures o == text
  {
    var needle, from := "\"" + o + "\"", |lead| + 1;
    forall k | 0 <= k <= |o|
      ensures s[from + k] == if k < |o| then o[k] else '"'
    {
      OccursChars(s, needle, |lead|, k + 1);
    }
    hide OccursAt;
    assert forall k | 0 <= k < |text| :: s[from + k] == text[k];
    assert s[from + |text|] == '"' && s[from + |o|] == '"';
    if |text| < |o| {
      assert false;
    }
    if |o| < |text| {
      assert false;
    }
    assert forall k | 0 <= k < |o| :: o[k] == s[from + k] == text[k];
  }

  lemma FirstTag(lead: string, text: string, rest: string, o: string)
    requires Free(lead, '"') && Free(text, '"') && Free(o, '"') && o != "" && o[0] != ','
    requires rest == "" || rest[0] == ','
    ensures var s, needle := lead + "\"" + text + "\"" + rest, "\"" + o + "\"";
            Has(s, needle) <==> o == text || Has(rest, needle)
  {
    hide OccursAt, Has;
    var s, needle, n := lead + "\"" + text + "\"" + rest, "\"" + o + "\"", |lead| + |text| + 2;
    HasIs(s, needle);
    HasIs(rest, needle);
    forall i: int
      ensures OccursAt(s, needle, i) <==> (i == |lead| && o == text) || (n <= i && OccursAt(rest, needle, i - n))
    {
      QuotedAt(lead, text, rest, o, i);
    }
    if Has(s, needle) {
      var i :| OccursAt(s, needle, i);
      assert i == |lead| || OccursAt(rest, needle, i - n);
    }
    if o == text {
      assert OccursAt(s, needle, |lead|);
    }
    if Has(rest, needle) {
      var j :| OccursAt(rest, needle, j);
      OccursNotBefore(rest, needle, j);
      assert OccursAt(s, needle, n + j);
    }
  }

  lemma OccursNotBefore(s: string, needle: string, i: int)
    requires OccursAt(s, needle, i)
    ensures 0 <= i
  {
  }

  lemma {:induction false} SomeTag(tags: seq<Tag>, o: string)
    requires (forall t | t in tags :: Free(t.text, '"')) && Free(o, '"') && o != "" && o[0] != ','
    ensures Has(MoreTags(tags), "\"" + o + "\"") <==> exists t | t in tags :: t.text == o
    ensures MoreTags(tags) == "" || MoreTags(tags)[0] == ','
  {
    hide Has;
    if tags == [] {
      HasIs("", "\"" + o + "\"");
    } else {
      var t, rest := tags[0], MoreTags(tags[1..]);
      assert t in tags;
      SomeTag(tags[1..], o);
      FirstTag(", " + t.Lead(), t.text, rest, o);
      assert MoreTags(tags) == (", " + t.Lead()) + "\"" + t.text + "\"" + rest;
      assert tags == [t] + tags[1..];
    }
  }

  // --- The file's own tag -----------------------------------------------------------------------------

  lemma {:induction false} HexTextDigits(n: nat)
    ensures HexText(n) != "" && forall i | 0 <= i < |HexText(n)| :: HexDigit(HexText(n)[i]).Some?
  {
    if n >= 16 {
      HexTextDigits(n / 16);
    }
  }

  lemma TagTextShape(stat: FileStat)
    ensures Free(TagText(stat), '"') && TagText(stat) != "" && TagText(stat)[0] != ','
  {
    HexTextDigits(Unsigned64(stat.size));
    HexTextDigits(Unsigned64(stat.mtime));
    hide HexText;
  }

  /** Files of the same tag have the same size and time, as far as 64 bits tell. */
  lemma TagTextTells(s: FileStat, t: FileStat)
    ensures TagText(s) == TagText(t)
       <==> Unsigned64(s.size) == Unsigned64(t.size) && Unsigned64(s.mtime) == Unsigned64(t.mtime)
  {
    var a, b, c, d := Unsigned64(s.size), Unsigned64(s.mtime), Unsigned64(t.size), Unsigned64(t.mtime);
    HexTextDigits(a);
    HexTextDigits(c);
    HexTextRoundTrip(a);
    HexTextRoundTrip(b);
    HexTextRoundTrip(c);
    HexTextRoundTrip(d);
    hide HexText, HexValue, Unsigned64;
    if TagText(s) == TagText(t) {
      var m, n := |HexText(a)|, |HexText(c)|;
      assert TagText(s)[m] == '-' && TagText(t)[n] == '-';
      if m < n {
        assert false;
      }
      if n < m {
        assert false;
      }
      assert TagText(s)[..m] == HexText(a) && TagText(t)[..m] == HexText(c);
      assert TagText(s)[m + 1..] == HexText(b) && TagText(t)[m + 1..] == HexText(d);
    }
  }

  /** Any list of tags, weak or strong, is answered 304 exactly when one of them is the file's. */
  lemma ListedIff(verb: Method, tags: seq<Tag>, since: Option<string>, stat: FileStat, readDate: string -> int)
    requires tags != [] && forall t | t in tags :: Free(t.text, '"')
    ensures NotModified(verb, Conditions(Some(TagList(tags)), since), stat, readDate)
       <==> (verb == GET || verb == HEAD) && exists t | t in tags :: t.text == TagText(stat)
  {
    hide Has;
    var t, rest, o := tags[0], MoreTags(tags[1..]), TagText(stat);
    TagTextShape(stat);
    hide TagText;
    assert t in tags;
    SomeTag(tags[1..], o);
    FirstTag(t.Lead(), t.text, rest, o);
    assert TagList(tags) == t.Lead() + "\"" + t.text + "\"" + rest;
    assert tags == [t] + tags[1..];
    assert TagList(tags)[|t.Lead()|] == '"';
  }

  /** A client that sends back the tag it was given for the file as it was is answered 304 exactly when size and
      time are still the same, as far as 64 bits tell. */
  lemma OwnTagIff(was: FileStat, since: Option<string>, stat: FileStat, readDate: string -> int)
    ensures NotModified(GET, Conditions(Some(Etag(was)), since), stat, readDate)
       <==> Unsigned64(was.size) == Unsigned64(stat.size) && Unsigned64(was.mtime) == Unsigned64(stat.mtime)
  {
    var t := Tag(false, TagText(was));
    TagTextShape(was);
    TagTextTells(was, stat);
    hide NotModified, TagText, Unsigned64;
    assert TagList([t]) == Etag(was) by {
      assert [t][1..] == [];
    }
    ListedIff(GET, [t], since, stat, readDate);
    assert t in [t];
  }

  /** Without entity tags, a client that sends back a date is answered 304 exactly when the file has not changed since;
      `printed` is a text that reads as the time `since`. */
  lemma DatedIff(verb: Method, printed: string, since: int, stat: FileStat, readDate: string -> int)
    requires readDate(printed) == since && since >= 0
    ensures NotModified(verb, Conditions(None, Some(printed)), stat, readDate)
       <==> (verb == GET || verb == HEAD) && stat.mtime <= since
  {
  }

  /** Nothing else makes a difference: other methods are never answered 304, nor is a request without conditions, and a
      tag that does not match is not outweighed by a date. */
  lemma Unconditional(verb: Method, asked: Conditions, stat: FileStat, readDate: string -> int)
    ensures verb != GET && verb != HEAD ==> !NotModified(verb, asked, stat, readDate)
    ensures asked == Conditions(None, None) ==> !NotModified(verb, asked, stat, readDate)
    ensures asked.ifNoneMatch == Some("*") ==> (NotModified(verb, asked, stat, readDate) <==> verb == GET || verb == HEAD)
    ensures asked.ifNoneMatch.Some? ==>
              NotModified(verb, asked, stat, readDate)
              == NotModified(verb, asked.(ifModifiedSince := None), stat, readDate)
  {
  }
}
