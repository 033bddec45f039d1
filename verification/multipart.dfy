/** multipart/form-data bodies, section 5.1 of RFC 2046. */
module Multipart {
  import opened Bytes

  /** A part: its fields, and its content as a slice of the body. */
  datatype Part = Part(fields: Fields, start: nat, end: nat)

  datatype Fields = Fields(name: string, filename: string, contentType: string)

  const NO_FIELDS := Fields("", "", "")
  const DISPOSITION := "content-disposition:"
  const TYPE := "content-type:"

  // --- The headers of a part ------------------------------------------------------------------------

  function Lower(c: char): char
  {
    if 'A' <= c <= 'Z' then (c as int + 32) as char else c
  }

  predicate PrefixIgnoringCase(s: string, prefix: string)
  {
    |prefix| <= |s| && forall i | 0 <= i < |prefix| :: Lower(s[i]) == Lower(prefix[i])
  }

  method IEqualsPrefix(s: string, prefix: string) returns (r: bool)
    ensures r <==> PrefixIgnoringCase(s, prefix)
  {
    if |s| < |prefix| {
      return false;
    }
    for i := 0 to |prefix|
      invariant forall k | 0 <= k < i :: Lower(s[k]) == Lower(prefix[k])
    {
      if Lower(s[i]) != Lower(prefix[i]) {
        return false;
      }
    }
    return true;
  }

  /** The value of `attr="value"` in a line; empty when there is none. */
  function QuotedAttr(line: string, attr: string): string
  {
    match Find(line, attr + "=\"", 0)
    case None => ""
    case Some(p) =>
      var from := p + |attr| + 2;
      match Find(line, "\"", from)
      case None => ""
      case Some(end) => line[from..end]
  }

  // --- Which attribute is read --------------------------------------------------------------------------

  /** An attribute of a disposition line, as it is written there. */
  datatype Attr = Attr(key: string, value: string)
  {
    function Text(): string { "; " + key + "=\"" + value + "\"" }
  }

  function AttrsText(attrs: seq<Attr>): string
  {
    if attrs == [] then "" else attrs[0].Text() + AttrsText(attrs[1..])
  }

  predicate Quoteless(attrs: seq<Attr>)
  {
    forall a | a in attrs :: Free(a.key, '"') && Free(a.value, '"')
  }

  predicate Ends(s: string, end: string)
  {
    |end| <= |s| && s[|s| - |end|..] == end
  }

  /** What a search for `attr="` reads: the value of the first attribute whose key ends in `attr`, unless the value
      of an earlier one ends in `attr=`; then what stands between its closing quote and the next quote. */
  function Read(attrs: seq<Attr>, attr: string): string
  {
    if attrs == [] then ""
    else if Ends(attrs[0].key, attr) then attrs[0].value
    else if Ends(attrs[0].value, attr + "=") then (if |attrs| > 1 then "; " + attrs[1].key + "=" else "")
    else Read(attrs[1..], attr)
  }

  /** The line has a quote at `e`, and `attr=` before it. */
  predicate HitAt(s: string, attr: string, e: int)
  {
    0 <= e < |s| && s[e] == '"' && Ends(s[..e], attr + "=")
  }

  lemma HitIs(s: string, attr: string, e: int)
    ensures HitAt(s, attr, e) <==> OccursAt(s, attr + "=\"", e - |attr| - 1)
  {
    var i, before := e - |attr| - 1, attr + "=";
    assert attr + "=\"" == before + "\"";
    if 0 <= i && e < |s| {
      assert s[i..e + 1] == s[i..e] + [s[e]];
      assert s[..e][i..] == s[i..e];
      assert (before + "\"")[..|before|] == before && (before + "\"")[|before|] == '"';
    }
  }

  /** The search stops at the first such quote. */
  lemma FirstHit(s: string, attr: string, e: nat)
    requires HitAt(s, attr, e) && forall d | 0 <= d < e :: !HitAt(s, attr, d)
    ensures Find(s, attr + "=\"", 0) == Some(e - |attr| - 1)
  {
    hide HitAt, OccursAt, Find, Ends;
    HitIs(s, attr, e);
    var i := e - |attr| - 1;
    forall j | 0 <= j < i
      ensures !OccursAt(s, attr + "=\"", j)
    {
      HitIs(s, attr, j + |attr| + 1);
    }
    assert 0 <= i by {
      OccursStarts(s, attr + "=\"", i);
    }
    FindIs(s, attr + "=\"", 0, i);
  }

  lemma OccursStarts(s: string, needle: string, i: int)
    requires OccursAt(s, needle, i)
    ensures 0 <= i
  {
  }

  lemma NoHit(s: string, attr: string)
    requires forall d | 0 <= d < |s| :: !HitAt(s, attr, d)
    ensures QuotedAttr(s, attr) == ""
  {
    hide HitAt, OccursAt, Find;
    FindSpec(s, attr + "=\"", 0);
    var p := Find(s, attr + "=\"", 0);
    if p.Some? {
      HitIs(s, attr, p.value + |attr| + 1);
    }
  }

  /** The text read is what stands between that quote and the next. */
  lemma ReadFrom(s: string, attr: string, e: nat, end: nat)
    requires HitAt(s, attr, e) && forall d | 0 <= d < e :: !HitAt(s, attr, d)
    requires e < end <= |s| && (end < |s| ==> s[end] == '"') && forall i | e < i < end :: s[i] != '"'
    ensures QuotedAttr(s, attr) == if end < |s| then s[e + 1..end] else ""
  {
    FirstHit(s, attr, e);
    hide HitAt, Find;
    if end < |s| {
      FindChar(s, '"', e + 1, end);
    } else {
      FindCharNone(s, '"', e + 1);
    }
  }

  /** Where the parts of the next attribute stand. */
  lemma AttrAt(s: string, pos: nat, attrs: seq<Attr>)
    requires pos <= |s| && s[pos..] == AttrsText(attrs) && attrs != []
    ensures var a := attrs[0];
            var open := pos + 3 + |a.key|;
            var close := open + 1 + |a.value|;
            && close < |s| && s[open] == s[close] == '"' && s[open - 1] == '='
            && s[pos] == ';' && s[pos + 1] == ' ' && s[pos + 2..open - 1] == a.key && s[open + 1..close] == a.value
            && s[close + 1..] == AttrsText(attrs[1..])
  {
    var a := attrs[0];
    var rest := AttrsText(attrs[1..]);
    var open := 3 + |a.key|;
    var close := open + 1 + |a.value|;
    TextShape(a, rest);
    hide AttrsText, Attr.Text;
    var text := s[pos..];
    assert text == a.Text() + rest;
    assert text[0] == s[pos] && text[1] == s[pos + 1] && text[open] == s[pos + open] && text[close] == s[pos + close]
        && text[open - 1] == s[pos + open - 1];
    assert s[pos + 2..pos + open - 1] == text[2..open - 1];
    assert s[pos + open + 1..pos + close] == text[open + 1..close];
    assert s[pos + close + 1..] == text[close + 1..];
  }

  lemma TextShape(a: Attr, rest: string)
    ensures var text, open := a.Text() + rest, 3 + |a.key|;
            var close := open + 1 + |a.value|;
            && close < |text| && text[open] == text[close] == '"' && text[open - 1] == '='
            && text[0] == ';' && text[1] == ' ' && text[2..open - 1] == a.key && text[open + 1..close] == a.value
            && text[close + 1..] == rest
  {
  }

  /** The quote that opens a value is a hit exactly when the key ends in `attr`. */
  lemma HitAtOpen(s: string, pos: nat, key: string, attr: string)
    requires Free(attr, ' ') && pos + 3 + |key| < |s| && s[pos + 1] == ' ' && s[pos + 2..pos + 2 + |key|] == key
    requires s[pos + 2 + |key|] == '=' && s[pos + 3 + |key|] == '"'
    ensures HitAt(s, attr, pos + 3 + |key|) <==> Ends(key, attr)
  {
    var open, n := pos + 3 + |key|, |attr|;
    var front := s[..open];
    if n + 1 <= open {
      assert front[open - n - 1..] == s[open - n - 1..open - 1] + "=";
      assert (attr + "=")[..n] == attr;
      if n <= |key| {
        assert s[open - n - 1..open - 1] == key[|key| - n..];
      } else {
        assert s[open - n - 1..open - 1][n - |key| - 1] == ' ';
      }
    }
  }

  /** The one that closes it, exactly when the value ends in `attr=`. */
  lemma HitAtClose(s: string, open: nat, value: string, attr: string)
    requires Free(attr, '"') && open + 1 + |value| < |s| && s[open] == '"'
    requires s[open + 1..open + 1 + |value|] == value && s[open + 1 + |value|] == '"'
    ensures HitAt(s, attr, open + 1 + |value|) <==> Ends(value, attr + "=")
  {
    var close, before := open + 1 + |value|, attr + "=";
    if |before| <= close {
      if |before| <= |value| {
        assert s[..close][close - |before|..] == value[|value| - |before|..];
      } else {
        assert s[..close][close - |before|..][|before| - |value| - 1] == '"';
        assert Free(before, '"');
      }
    }
  }

  lemma {:induction false} ReadAt(s: string, pos: nat, attrs: seq<Attr>, attr: string)
    requires pos <= |s| && s[pos..] == AttrsText(attrs) && Quoteless(attrs)
    requires Free(attr, '"') && Free(attr, ' ')
    requires forall d | 0 <= d < pos :: !HitAt(s, attr, d)
    ensures QuotedAttr(s, attr) == Read(attrs, attr)
    decreases |attrs|
  {
    hide HitAt, QuotedAttr, Ends;
    if attrs == [] {
      NoHit(s, attr);
    } else {
      AttrAt(s, pos, attrs);
      var a := attrs[0];
      var open := pos + 3 + |a.key|;
      var close := open + 1 + |a.value|;
      Between(s, pos, a, open, close);
      HitAtOpen(s, pos, a.key, attr);
      HitAtClose(s, open, a.value, attr);
      NoQuoteNoHit(s, attr);
      if Ends(a.key, attr) {
        ReadFrom(s, attr, open, close);
      } else if Ends(a.value, attr + "=") {
        AfterClose(s, close, attrs[1..], attr);
      } else {
        ReadAt(s, close + 1, attrs[1..], attr);
      }
    }
  }

  lemma Between(s: string, pos: nat, a: Attr, open: nat, close: nat)
    requires open == pos + 3 + |a.key| && close == open + 1 + |a.value| < |s|
    requires s[pos] == ';' && s[pos + 1] == ' ' && s[open - 1] == '='
    requires s[pos + 2..open - 1] == a.key && s[open + 1..close] == a.value && Free(a.key, '"') && Free(a.value, '"')
    ensures forall d | pos <= d < close && d != open :: s[d] != '"'
  {
    forall d | pos <= d < close && d != open
      ensures s[d] != '"'
    {
      if pos + 2 <= d < open - 1 {
        assert s[d] == a.key[d - pos - 2];
      } else if open < d {
        assert s[d] == a.value[d - open - 1];
      }
    }
  }

  lemma NoQuoteNoHit(s: string, attr: string)
    ensures forall d | 0 <= d < |s| && s[d] != '"' :: !HitAt(s, attr, d)
  {
  }

  lemma AfterClose(s: string, close: nat, rest: seq<Attr>, attr: string)
    requires close < |s| && s[close + 1..] == AttrsText(rest) && Quoteless(rest)
    requires HitAt(s, attr, close) && forall d | 0 <= d < close :: !HitAt(s, attr, d)
    ensures QuotedAttr(s, attr) == if rest == [] then "" else "; " + rest[0].key + "="
  {
    hide HitAt, QuotedAttr;
    if rest == [] {
      ReadFrom(s, attr, close, |s|);
    } else {
      hide AttrsText, Free;
      var open := KeyBetween(s, close + 1, rest);
      ReadFrom(s, attr, close, open);
    }
  }

  /** Up to the quote that opens the next value stands its key. */
  lemma KeyBetween(s: string, pos: nat, attrs: seq<Attr>) returns (open: nat)
    requires pos <= |s| && s[pos..] == AttrsText(attrs) && attrs != [] && Quoteless(attrs)
    ensures pos < open < |s| && s[open] == '"' && s[pos..open] == "; " + attrs[0].key + "="
    ensures forall d | pos <= d < open :: s[d] != '"'
  {
    hide AttrsText, Attr.Text, Free;
    AttrAt(s, pos, attrs);
    var a := attrs[0];
    open := pos + 3 + |a.key|;
    Between(s, pos, a, open, open + 1 + |a.value|);
    assert s[pos..open] == "; " + a.key + "=";
  }

  /** What is read off any line of attributes. */
  lemma {:induction false} QuotedAttrIs(front: string, attrs: seq<Attr>, attr: string)
    requires Free(front, '"') && Quoteless(attrs) && Free(attr, '"') && Free(attr, ' ')
    ensures QuotedAttr(front + AttrsText(attrs), attr) == Read(attrs, attr)
  {
    var s := front + AttrsText(attrs);
    assert forall d | 0 <= d < |front| :: s[d] == front[d];
    assert s[|front|..] == AttrsText(attrs);
    hide HitAt, Read, QuotedAttr, AttrsText;
    NoQuoteNoHit(s, attr);
    ReadAt(s, |front|, attrs, attr);
  }

  /** The value of the first attribute whose key ends in `attr`. */
  function FirstEnding(attrs: seq<Attr>, attr: string): string
  {
    if attrs == [] then "" else if Ends(attrs[0].key, attr) then attrs[0].value else FirstEnding(attrs[1..], attr)
  }

  /** The value of the attribute `attr`. */
  function Named(attrs: seq<Attr>, attr: string): string
  {
    if attrs == [] then "" else if attrs[0].key == attr then attrs[0].value else Named(attrs[1..], attr)
  }

  function Keys(attrs: seq<Attr>): seq<string>
  {
    if attrs == [] then [] else [attrs[0].key] + Keys(attrs[1..])
  }

  /** Values without a quote that do not end in an equals sign. */
  predicate PlainValues(attrs: seq<Attr>)
  {
    forall a | a in attrs :: Free(a.value, '"') && !Ends(a.value, "=")
  }

  predicate Writable(front: string, keys: seq<string>, attr: string)
  {
    Free(front, '"') && Free(attr, '"') && Free(attr, ' ') && forall k | k in keys :: Free(k, '"')
  }

  /** What is read off the line is the value of the attribute asked for. */
  predicate ReadRight(front: string, attrs: seq<Attr>, attr: string)
  {
    QuotedAttr(front + AttrsText(attrs), attr) == Named(attrs, attr)
  }

  lemma WritableAttrs(front: string, attrs: seq<Attr>, attr: string)
    requires Writable(front, Keys(attrs), attr) && forall a | a in attrs :: Free(a.value, '"')
    ensures Quoteless(attrs)
  {
    hide Free;
    KeysAre(attrs);
    forall a | a in attrs
      ensures Free(a.key, '"')
    {
      assert a.key in Keys(attrs);
    }
  }

  lemma {:induction false} KeysAre(attrs: seq<Attr>)
    ensures |Keys(attrs)| == |attrs| && forall i | 0 <= i < |attrs| :: Keys(attrs)[i] == attrs[i].key
  {
    if attrs != [] {
      KeysAre(attrs[1..]);
    }
  }

  lemma EndsInEquals(value: string, attr: string)
    ensures Ends(value, attr + "=") ==> Ends(value, "=")
  {
    if Ends(value, attr + "=") {
      assert value[|value| - 1] == value[|value| - |attr| - 1..][|attr|];
    }
  }

  lemma {:induction false} ReadsFirstEnding(attrs: seq<Attr>, attr: string)
    requires PlainValues(attrs)
    ensures Read(attrs, attr) == FirstEnding(attrs, attr)
  {
    if attrs != [] {
      assert attrs[0] in attrs;
      EndsInEquals(attrs[0].value, attr);
      ReadsFirstEnding(attrs[1..], attr);
    }
  }

  /** On plain values the line is read right exactly when the first key that ends in `attr` carries the value of the
      attribute `attr`. */
  lemma ReadRightIff(front: string, attrs: seq<Attr>, attr: string)
    requires Writable(front, Keys(attrs), attr) && PlainValues(attrs)
    ensures QuotedAttr(front + AttrsText(attrs), attr) == FirstEnding(attrs, attr)
    ensures ReadRight(front, attrs, attr) <==> FirstEnding(attrs, attr) == Named(attrs, attr)
  {
    hide Ends, QuotedAttr, AttrsText, FirstEnding, Named, Read;
    WritableAttrs(front, attrs, attr);
    QuotedAttrIs(front, attrs, attr);
    ReadsFirstEnding(attrs, attr);
  }

  /** No other key that ends in `attr` stands before the key `attr`. */
  predicate OwnKeyFirst(keys: seq<string>, attr: string)
  {
    forall i | 0 <= i < |keys| && Ends(keys[i], attr) :: attr in keys[..i + 1]
  }

  lemma OwnKeyFirstTail(keys: seq<string>, attr: string)
    requires keys != []
    ensures OwnKeyFirst(keys, attr) <==>
            keys[0] == attr || (!Ends(keys[0], attr) && OwnKeyFirst(keys[1..], attr))
  {
    var rest := keys[1..];
    assert keys[..1] == [keys[0]];
    assert Ends(attr, attr);
    assert forall i | 0 < i < |keys| :: keys[..i + 1] == [keys[0]] + rest[..i];
    if OwnKeyFirst(keys, attr) && keys[0] != attr {
      forall i | 0 <= i < |rest| && Ends(rest[i], attr)
        ensures attr in rest[..i + 1]
      {
        assert keys[i + 1] == rest[i] && keys[..i + 2] == [keys[0]] + rest[..i + 1];
      }
    }
  }

  lemma {:induction false} OwnKeyFirstReads(attrs: seq<Attr>, attr: string)
    requires OwnKeyFirst(Keys(attrs), attr)
    ensures FirstEnding(attrs, attr) == Named(attrs, attr)
  {
    if attrs != [] {
      OwnKeyFirstTail(Keys(attrs), attr);
      assert Keys(attrs)[1..] == Keys(attrs[1..]);
      if attrs[0].key == attr {
        assert Ends(attr, attr);
      } else {
        OwnKeyFirstReads(attrs[1..], attr);
      }
    }
  }

  /** The attributes with these keys, all empty. */
  function Empty(keys: seq<string>): seq<Attr>
  {
    if keys == [] then [] else [Attr(keys[0], "")] + Empty(keys[1..])
  }

  lemma {:induction false} EmptyNamed(keys: seq<string>, attr: string)
    ensures Keys(Empty(keys)) == keys && Named(Empty(keys), attr) == "" && PlainValues(Empty(keys))
  {
    if keys != [] {
      EmptyNamed(keys[1..], attr);
    }
  }

  /** Otherwise another key that ends in `attr` can carry a value of its own. */
  lemma {:induction false} OtherKeyReads(keys: seq<string>, attr: string) returns (attrs: seq<Attr>)
    requires !OwnKeyFirst(keys, attr)
    ensures Keys(attrs) == keys && PlainValues(attrs)
    ensures FirstEnding(attrs, attr) == "x" && Named(attrs, attr) == ""
  {
    hide Ends, PlainValues;
    OwnKeyFirstTail(keys, attr);
    hide OwnKeyFirst;
    if Ends(keys[0], attr) {
      EmptyNamed(keys[1..], attr);
      attrs := OneMore(keys[0], "x", Empty(keys[1..]), attr);
    } else {
      attrs := OtherKeyReads(keys[1..], attr);
      attrs := OneMore(keys[0], "", attrs, attr);
    }
  }

  lemma OneMore(key: string, value: string, rest: seq<Attr>, attr: string) returns (attrs: seq<Attr>)
    requires PlainValues(rest) && key != attr && (value == "x" || value == "")
    ensures attrs == [Attr(key, value)] + rest && attrs[1..] == rest && Keys(attrs) == [key] + Keys(rest)
    ensures PlainValues(attrs)
  {
    attrs := [Attr(key, value)] + rest;
    assert Free(value, '"') && !Ends(value, "=");
  }

  /** Lines with these keys are read right whatever their plain values exactly when the key `attr` stands before
      every other key that ends in it. */
  lemma OwnKeyFirstIff(front: string, keys: seq<string>, attr: string)
    requires Writable(front, keys, attr)
    ensures (forall attrs | Keys(attrs) == keys && PlainValues(attrs) :: ReadRight(front, attrs, attr))
            <==> OwnKeyFirst(keys, attr)
  {
    hide OwnKeyFirst, ReadRight, Writable, FirstEnding, Named, PlainValues;
    forall attrs | Keys(attrs) == keys && PlainValues(attrs)
      ensures ReadRight(front, attrs, attr) <==> FirstEnding(attrs, attr) == Named(attrs, attr)
      ensures OwnKeyFirst(keys, attr) ==> ReadRight(front, attrs, attr)
    {
      ReadRightIff(front, attrs, attr);
      if OwnKeyFirst(keys, attr) {
        OwnKeyFirstReads(attrs, attr);
      }
    }
    if !OwnKeyFirst(keys, attr) {
      var attrs := OtherKeyReads(keys, attr);
      assert !ReadRight(front, attrs, attr);
    }
  }

  /** With values that may end in an equals sign, only the first place is safe. */
  predicate OwnKeyAtFront(keys: seq<string>, attr: string)
  {
    keys == [] || keys[0] == attr || (|keys| == 1 && !Ends(keys[0], attr))
  }

  lemma AtFrontReads(attrs: seq<Attr>, attr: string)
    requires OwnKeyAtFront(Keys(attrs), attr)
    ensures Read(attrs, attr) == Named(attrs, attr)
  {
    KeysAre(attrs);
    if attrs != [] {
      assert Ends(attr, attr);
      if |attrs| == 1 {
        assert attrs[1..] == [];
      }
    }
  }

  lemma NotAtFront(keys: seq<string>, attr: string) returns (attrs: seq<Attr>)
    requires !OwnKeyAtFront(keys, attr) && Free(attr, '"')
    ensures Keys(attrs) == keys && forall a | a in attrs :: Free(a.value, '"')
    ensures Read(attrs, attr) != Named(attrs, attr)
  {
    hide Free;
    var value := if Ends(keys[0], attr) then "x" else attr + "=";
    EmptyNamed(keys[1..], attr);
    KeysAre(Empty(keys[1..]));
    attrs := [Attr(keys[0], value)] + Empty(keys[1..]);
    assert attrs[1..] == Empty(keys[1..]);
    assert Ends(attr + "=", attr + "=");
    assert Free("x", '"') && Free(attr + "=", '"') by {
      FreeEquals(attr);
    }
  }

  lemma FreeEquals(attr: string)
    requires Free(attr, '"')
    ensures Free("x", '"') && Free(attr + "=", '"')
  {
  }

  /** Lines with these keys are read right whatever their values exactly when the key `attr` stands first, or there is
      one attribute, whose key does not end in it. */
  lemma OwnKeyAtFrontIff(front: string, keys: seq<string>, attr: string)
    requires Writable(front, keys, attr)
    ensures (forall attrs | Keys(attrs) == keys && Quoteless(attrs) :: ReadRight(front, attrs, attr))
            <==> OwnKeyAtFront(keys, attr)
  {
    hide OwnKeyAtFront, Named, Read, Quoteless, QuotedAttr, AttrsText, Ends, Free;
    forall attrs | Keys(attrs) == keys && Quoteless(attrs)
      ensures ReadRight(front, attrs, attr) <==> Read(attrs, attr) == Named(attrs, attr)
      ensures OwnKeyAtFront(keys, attr) ==> ReadRight(front, attrs, attr)
    {
      QuotedAttrIs(front, attrs, attr);
      if OwnKeyAtFront(keys, attr) {
        AtFrontReads(attrs, attr);
      }
    }
    if !OwnKeyAtFront(keys, attr) {
      var attrs := NotAtFront(keys, attr);
      WritableAttrs(front, attrs, attr);
      assert !ReadRight(front, attrs, attr);
    }
  }

  /** A value after the first `attr="` of a line is read, whatever stands before `attr` on its side of the quote. */
  lemma FirstQuoted(front: string, attr: string, value: string, rest: string)
    requires Free(front, '"') && Free(attr, '"') && Free(value, '"')
    ensures QuotedAttr(front + attr + "=\"" + value + "\"" + rest, attr) == value
  {
    hide Find, OccursAt;
    var before := front + attr + "=";
    var s := before + "\"" + value + "\"" + rest;
    var e := |before|;
    assert front + attr + "=\"" + value + "\"" + rest == s;
    assert s[..e] == before && before[|front|..] == attr + "=";
    assert s[e + 1..e + 1 + |value|] == value;
    assert forall d | 0 <= d < e :: s[d] == before[d];
    NoQuoteNoHit(s, attr);
    ReadFrom(s, attr, e, e + 1 + |value|);
  }

  /** A part whose file name stands before its name is named after its file. */
  lemma FilenameFirst(front: string, file: string, name: string)
    requires Free(front, '"') && Free(file, '"')
    ensures QuotedAttr(front + "filename=\"" + file + "\"; name=\"" + name + "\"", "name") == file
  {
    hide QuotedAttr;
    var rest := "; name=\"" + name + "\"";
    FirstQuoted(front + "file", "name", file, rest);
    assert "file" + "name" + "=\"" == "filename=\"";
    assert front + "filename=\"" + file + "\"; name=\"" + name + "\""
        == front + "file" + "name" + "=\"" + file + "\"" + rest;
  }

  predicate Blank(c: char) { c == ' ' || c == '\t' }

  function TrimLeft(s: string): string
  {
    if s != "" && Blank(s[0]) then TrimLeft(s[1..]) else s
  }

  function TrimRight(s: string): string
  {
    if s != "" && (Blank(s[|s| - 1]) || s[|s| - 1] == '\r') then TrimRight(s[..|s| - 1]) else s
  }

  lemma {:induction false} TrimLeftIs(s: string)
    ensures var t := TrimLeft(s);
            && |t| <= |s| && t == s[|s| - |t|..] && (forall i | 0 <= i < |s| - |t| :: s[i] == ' ' || s[i] == '\t')
            && (t != "" ==> t[0] != ' ' && t[0] != '\t')
  {
    if s != "" && Blank(s[0]) {
      var rest := s[1..];
      TrimLeftIs(rest);
      var t := TrimLeft(rest);
      assert TrimLeft(s) == t && s[|s| - |t|..] == rest[|rest| - |t|..];
      hide TrimLeft;
      assert forall i | 0 < i < |s| - |t| :: s[i] == rest[i - 1];
    }
  }

  lemma {:induction false} TrimRightIs(s: string)
    ensures var t := TrimRight(s);
            && t <= s && (forall i | |t| <= i < |s| :: s[i] == ' ' || s[i] == '\t' || s[i] == '\r')
            && (t != "" ==> t[|t| - 1] != ' ' && t[|t| - 1] != '\t' && t[|t| - 1] != '\r')
  {
    if s != "" && (Blank(s[|s| - 1]) || s[|s| - 1] == '\r') {
      TrimRightIs(s[..|s| - 1]);
    }
  }

  /** The text without the blanks before and behind it, and without carriage returns behind it. */
  ghost predicate Trims(s: string, t: string)
  {
    exists i, j | 0 <= i <= j <= |s| ::
      && t == s[i..j] && (forall k | 0 <= k < i :: s[k] == ' ' || s[k] == '\t')
      && (forall k | j <= k < |s| :: s[k] == ' ' || s[k] == '\t' || s[k] == '\r')
      && (t != "" ==> t[0] != ' ' && t[0] != '\t')
      && (t != "" ==> t[|t| - 1] != ' ' && t[|t| - 1] != '\t' && t[|t| - 1] != '\r')
  }

  lemma TrimmedIs(s: string)
    ensures Trims(s, TrimRight(TrimLeft(s)))
  {
    var u := TrimLeft(s);
    var t := TrimRight(u);
    TrimLeftIs(s);
    TrimRightIs(u);
    hide TrimLeft, TrimRight;
    var i := |s| - |u|;
    assert t == s[i..i + |t|];
    assert forall k | i + |t| <= k < |s| :: s[k] == u[k - i];
    assert t != "" ==> t[0] == u[0];
  }

  method Trim(s: string) returns (t: string)
    ensures t == TrimRight(TrimLeft(s)) && Trims(s, t)
  {
    TrimmedIs(s);
    hide Trims;
    t := s;
    while t != "" && Blank(t[0])
      invariant TrimLeft(t) == TrimLeft(s)
      decreases |t|
    {
      t := t[1..];
    }
    while t != "" && (Blank(t[|t| - 1]) || t[|t| - 1] == '\r')
      invariant TrimRight(t) == TrimRight(TrimLeft(s))
      decreases |t|
    {
      t := t[..|t| - 1];
    }
  }

  /** The fields after one more header line. */
  function OneLine(f: Fields, line: string): Fields
  {
    if PrefixIgnoringCase(line, DISPOSITION) then
      f.(name := QuotedAttr(line, "name"), filename := QuotedAttr(line, "filename"))
    else if PrefixIgnoringCase(line, TYPE) then f.(contentType := TrimRight(TrimLeft(line[|TYPE|..])))
    else f
  }

  function HeaderFields(headers: string, pos: nat, f: Fields): Fields
    decreases |headers| - pos
  {
    if pos >= |headers| then f
    else
      match Find(headers, CRLF, pos)
      case None => OneLine(f, headers[pos..])
      case Some(eol) => HeaderFields(headers, eol + 2, OneLine(f, headers[pos..eol]))
  }

  method ParsePartHeaders(headers: string) returns (f: Fields)
    ensures f == HeaderFields(headers, 0, NO_FIELDS)
  {
    hide Find, QuotedAttr, PrefixIgnoringCase, TrimLeft, TrimRight;
    f := NO_FIELDS;
    var pos := 0;
    while pos < |headers|
      invariant HeaderFields(headers, pos, f) == HeaderFields(headers, 0, NO_FIELDS)
      decreases |headers| - pos
    {
      var eol := Find(headers, CRLF, pos);
      var line := if eol.None? then headers[pos..] else headers[pos..eol.value];
      var disposition := IEqualsPrefix(line, DISPOSITION);
      if disposition {
        f := f.(name := QuotedAttr(line, "name"), filename := QuotedAttr(line, "filename"));
      } else {
        var contentType := IEqualsPrefix(line, TYPE);
        if contentType {
          PrefixFits(line, TYPE);
          var t := Trim(line[|TYPE|..]);
          f := f.(contentType := t);
        }
      }
      if eol.None? {
        break;
      }
      pos := eol.value + 2;
    }
  }

  lemma PrefixFits(s: string, prefix: string)
    requires PrefixIgnoringCase(s, prefix)
    ensures |prefix| <= |s|
  {
  }

  function JoinLines(lines: seq<string>): string
  {
    if lines == [] then "" else if |lines| == 1 then lines[0] else lines[0] + CRLF + JoinLines(lines[1..])
  }

  /** The fields after some header lines: later lines of a name replace what earlier ones said. */
  function AllLines(lines: seq<string>, f: Fields): Fields
  {
    if lines == [] then f else AllLines(lines[1..], OneLine(f, lines[0]))
  }

  /** The header block is taken apart into its lines. */
  lemma {:induction false} LinesRead(headers: string, pos: nat, lines: seq<string>, f: Fields)
    requires pos <= |headers| && headers[pos..] == JoinLines(lines)
    requires forall l | l in lines :: l != "" && Free(l, '\r')
    ensures HeaderFields(headers, pos, f) == AllLines(lines, f)
    decreases |lines|
  {
    hide Find, OneLine;
    if lines != [] {
      var l := lines[0];
      assert l in lines;
      if |lines| == 1 {
        assert lines[1..] == [];
        NoCrlf(l, 0);
        FindShift(headers, CRLF, pos, 0);
        LastLine(headers, pos, f);
      } else {
        var eol := pos + |l|;
        assert headers[pos..][..|l|] == l && headers[pos..][|l|..|l| + 2] == CRLF;
        assert headers[eol] == headers[pos..][|l|] && headers[eol + 1] == headers[pos..][|l| + 1];
        assert forall i | pos <= i < eol :: headers[i] == l[i - pos];
        FindCrlfAt(headers, pos, eol);
        assert headers[eol + 2..] == headers[pos..][|l| + 2..] == JoinLines(lines[1..]);
        assert headers[pos..eol] == l;
        assert forall m | m in lines[1..] :: m in lines;
        LinesRead(headers, eol + 2, lines[1..], OneLine(f, l));
      }
    }
  }

  // --- The boundary -------------------------------------------------------------------------------------

  const BOUNDARY := "boundary="

  predicate EndsBoundary(c: char) { c == ';' || c == ' ' || c == '\t' || c == '\r' || c == '\n' }

  /** `find_first_of`: the text up to the first character that ends a boundary. */
  function UpToEnd(s: string): string
  {
    if s == "" || EndsBoundary(s[0]) then "" else [s[0]] + UpToEnd(s[1..])
  }

  /** `boundary_from_content_type`. */
  function BoundaryOf(contentType: string): string
  {
    match Find(contentType, BOUNDARY, 0)
    case None => ""
    case Some(p) =>
      var b := contentType[p + |BOUNDARY|..];
      if b != "" && b[0] == '"' then
        match Find(b[1..], "\"", 0)
        case None => b[1..]
        case Some(end) => b[1..][..end]
      else UpToEnd(b)
  }

  lemma {:induction false} UpToEndIs(b: string, rest: string)
    requires (forall i | 0 <= i < |b| :: !EndsBoundary(b[i])) && (rest == "" || EndsBoundary(rest[0]))
    ensures UpToEnd(b + rest) == b
  {
    if b != "" {
      assert (b + rest)[1..] == b[1..] + rest;
      UpToEndIs(b[1..], rest);
    } else {
      assert b + rest == rest;
    }
  }

  /** A boundary is read off the media type, quoted or not, whatever parameters follow. */
  lemma BoundaryRead(front: string, b: string, rest: string)
    requires forall k | 0 <= k < |front| :: !OccursAt(front + BOUNDARY, BOUNDARY, k)
    ensures b != "" && b[0] != '"' && (forall i | 0 <= i < |b| :: !EndsBoundary(b[i])) && (rest == "" || EndsBoundary(rest[0])) ==>
              BoundaryOf(front + BOUNDARY + b + rest) == b
    ensures Free(b, '"') ==> BoundaryOf(front + BOUNDARY + "\"" + b + "\"" + rest) == b
  {
    hide Find;
    BoundaryThere(front, b + rest);
    assert front + BOUNDARY + b + rest == front + BOUNDARY + (b + rest);
    if b != "" && (forall i | 0 <= i < |b| :: !EndsBoundary(b[i])) && (rest == "" || EndsBoundary(rest[0])) {
      UpToEndIs(b, rest);
    }
    var quoted := "\"" + b + "\"" + rest;
    BoundaryThere(front, quoted);
    assert front + BOUNDARY + "\"" + b + "\"" + rest == front + BOUNDARY + quoted;
    if Free(b, '"') {
      var text := quoted[1..];
      assert text == b + "\"" + rest;
      FindChar(text, '"', 0, |b|);
      assert text[..|b|] == b;
    }
  }

  lemma BoundaryThere(front: string, after: string)
    requires forall k | 0 <= k < |front| :: !OccursAt(front + BOUNDARY, BOUNDARY, k)
    ensures Find(front + BOUNDARY + after, BOUNDARY, 0) == Some(|front|)
    ensures (front + BOUNDARY + after)[|front| + |BOUNDARY|..] == after
  {
    hide OccursAt;
    var s, u := front + BOUNDARY, front + BOUNDARY + after;
    forall k | 0 <= k < |front|
      ensures !OccursAt(u, BOUNDARY, k)
    {
      OccursInPrefix(s, u, BOUNDARY, k);
    }
    ThereAfter(front, BOUNDARY, after);
    FindIs(u, BOUNDARY, 0, |front|);
  }

  lemma ThereAfter(front: string, needle: string, after: string)
    ensures OccursAt(front + needle + after, needle, |front|)
  {
    assert (front + needle + after)[|front|..|front| + |needle|] == needle;
  }

  // --- The body -----------------------------------------------------------------------------------------

  /** The part after a delimiter that ends at `pos`, if one begins there; `next` is CRLF and the delimiter. */
  function PartAt(body: string, pos: nat, next: string): (r: Option<Part>)
    ensures r.Some? ==> pos < r.value.start <= r.value.end <= |body| - |next|
  {
    if pos + 2 > |body| || body[pos..pos + 2] != CRLF then None
    else
      match Find(body, BLANK_LINE, pos + 2)
      case None => None
      case Some(headersEnd) =>
        match Find(body, next, headersEnd + 4)
        case None => None
        case Some(end) =>
          Some(Part(HeaderFields(body[pos + 2..headersEnd], 0, NO_FIELDS), headersEnd + 4, end))
  }

  /** The parts from `pos` on; a part without a name is skipped. */
  function PartsFrom(body: string, pos: nat, next: string): seq<Part>
    decreases |body| - pos
  {
    match PartAt(body, pos, next)
    case None => []
    case Some(p) => (if p.fields.name != "" then [p] else []) + PartsFrom(body, p.end + |next|, next)
  }

  function Parts(body: string, boundary: string): seq<Part>
  {
    if boundary == "" then []
    else
      match Find(body, "--" + boundary, 0)
      case None => []
      case Some(start) => PartsFrom(body, start + 2 + |boundary|, CRLF + "--" + boundary)
  }

  /** The checks of one turn of the loop; None where it stops. */
  method NextPart(body: string, pos: nat, next: string) returns (p: Option<Part>)
    requires pos <= |body|
    ensures p == PartAt(body, pos, next)
  {
    hide Find, HeaderFields;
    if pos + 2 > |body| {
      return None;
    }
    if body[pos] == '-' && body[pos + 1] == '-' {
      assert body[pos..pos + 2][0] == '-';
      return None;
    }
    if body[pos..pos + 2] != CRLF {
      return None;
    }
    var headersEnd := Find(body, BLANK_LINE, pos + 2);
    if headersEnd.None? {
      return None;
    }
    var end := Find(body, next, headersEnd.value + 4);
    if end.None? {
      return None;
    }
    var fields := ParsePartHeaders(body[pos + 2..headersEnd.value]);
    return Some(Part(fields, headersEnd.value + 4, end.value));
  }

  method Parse(body: string, boundary: string) returns (parts: seq<Part>)
    ensures parts == Parts(body, boundary)
  {
    hide Find, PartAt;
    parts := [];
    if boundary == "" {
      return;
    }
    var delim := "--" + boundary;
    var next := CRLF + delim;
    assert next == CRLF + "--" + boundary;
    var first := Find(body, delim, 0);
    if first.None? {
      return;
    }
    var pos := first.value + |delim|;
    while true
      invariant pos <= |body|
      invariant parts + PartsFrom(body, pos, next) == Parts(body, boundary)
      decreases |body| - pos
    {
      var p := NextPart(body, pos, next);
      if p.None? {
        break;
      }
      if p.value.fields.name != "" {
        parts := parts + [p.value];
      }
      pos := p.value.end + |next|;
    }
  }

  // --- Any input --------------------------------------------------------------------------------------------

  /** A slice of the body that ends at the first delimiter after its start. */
  predicate Delimited(body: string, next: string, p: Part)
  {
    && p.start <= p.end <= |body| - |next| && OccursAt(body, next, p.end)
    && forall k | p.start <= k < p.end :: !OccursAt(body, next, k)
  }

  /** Named slices of the body, in order and a delimiter apart. */
  predicate Ordered(body: string, pos: nat, next: string, parts: seq<Part>)
  {
    && (forall i | 0 <= i < |parts| :: pos <= parts[i].start && Delimited(body, next, parts[i])
                                       && parts[i].fields.name != "")
    && (forall i, j | 0 <= i < j < |parts| :: parts[i].end + |next| <= parts[j].start)
  }

  lemma PartDelimited(body: string, pos: nat, next: string)
    requires PartAt(body, pos, next).Some?
    ensures Delimited(body, next, PartAt(body, pos, next).value)
  {
    hide Find, HeaderFields, OccursAt;
    FindSpec(body, next, PartAt(body, pos, next).value.start);
  }

  lemma OrderedCons(body: string, pos: nat, next: string, p: Part, rest: seq<Part>)
    requires pos <= p.start && Delimited(body, next, p) && Ordered(body, p.end + |next|, next, rest)
    ensures p.fields.name != "" ==> Ordered(body, pos, next, [p] + rest)
    ensures Ordered(body, pos, next, rest)
  {
    hide OccursAt;
  }

  lemma {:induction false} PartsOrdered(body: string, pos: nat, next: string)
    ensures Ordered(body, pos, next, PartsFrom(body, pos, next))
    decreases |body| - pos
  {
    hide PartAt, Delimited, Ordered;
    match PartAt(body, pos, next)
    case None => OrderedNone(body, pos, next);
    case Some(p) =>
      PartDelimited(body, pos, next);
      PartsOrdered(body, p.end + |next|, next);
      OrderedCons(body, pos, next, p, PartsFrom(body, p.end + |next|, next));
      assert [] + PartsFrom(body, p.end + |next|, next) == PartsFrom(body, p.end + |next|, next);
  }

  lemma OrderedNone(body: string, pos: nat, next: string)
    ensures Ordered(body, pos, next, [])
  {
  }

  /** On any input the contents are disjoint slices of the body in order, none holding the delimiter. */
  lemma {:induction false} ContentsAreSlices(body: string, boundary: string)
    ensures Ordered(body, 0, CRLF + "--" + boundary, Parts(body, boundary))
  {
    hide Find, PartsFrom, Ordered;
    var next := CRLF + "--" + boundary;
    OrderedNone(body, 0, next);
    if boundary != "" && Find(body, "--" + boundary, 0).Some? {
      var pos := Find(body, "--" + boundary, 0).value + 2 + |boundary|;
      PartsOrdered(body, pos, next);
      OrderedEarlier(body, pos, next, PartsFrom(body, pos, next));
    }
  }

  lemma OrderedEarlier(body: string, pos: nat, next: string, parts: seq<Part>)
    requires Ordered(body, pos, next, parts)
    ensures Ordered(body, 0, next, parts)
  {
    hide Delimited;
  }

  // --- Round trip ---------------------------------------------------------------------------------------------

  /** A part to be printed. */
  datatype Entry = Entry(fields: Fields, content: string)

  const FORM_DATA := "Content-Disposition: form-data"

  function Attributes(f: Fields): seq<Attr>
  {
    [Attr("name", f.name)] + if f.filename == "" then [] else [Attr("filename", f.filename)]
  }

  function DispositionLine(f: Fields): string
  {
    FORM_DATA + AttrsText(Attributes(f))
  }

  function TypeLine(f: Fields): string { "Content-Type: " + f.contentType }

  function Headers(f: Fields): string
  {
    DispositionLine(f) + if f.contentType == "" then "" else CRLF + TypeLine(f)
  }

  function PrintFrom(entries: seq<Entry>, next: string, epilogue: string): string
  {
    if entries == [] then "--" + epilogue
    else
      CRLF + Headers(entries[0].fields) + BLANK_LINE + entries[0].content + next
      + PrintFrom(entries[1..], next, epilogue)
  }

  function Print(entries: seq<Entry>, boundary: string, epilogue: string): string
  {
    "--" + boundary + PrintFrom(entries, CRLF + "--" + boundary, epilogue)
  }

  /** Neither end of a media type is white space. */
  predicate Trimmed(s: string) { s != "" ==> !Blank(s[0]) && !Blank(s[|s| - 1]) }

  predicate PrintableFields(f: Fields)
  {
    && f.name != "" && Free(f.name, '"') && Free(f.name, '=') && Free(f.name, '\r')
    && Free(f.filename, '"') && Free(f.filename, '\r')
    && Free(f.contentType, '\r') && Trimmed(f.contentType)
  }

  predicate Printable(e: Entry, next: string)
  {
    PrintableFields(e.fields) && forall k | 0 <= k < |e.content| :: !OccursAt(e.content, next, k)
  }

  lemma FormDataShape()
    ensures |FORM_DATA| == 30 && Free(FORM_DATA, '"') && Free(FORM_DATA, '\r')
  {
  }

  lemma AttributesRead(f: Fields)
    requires PrintableFields(f)
    ensures Read(Attributes(f), "name") == f.name && Read(Attributes(f), "filename") == f.filename
  {
    var attrs := Attributes(f);
    EndsInEquals(f.name, "filename");
    assert f.name[|f.name| - 1..] != "=" by {
      assert f.name[|f.name| - 1..][0] == f.name[|f.name| - 1];
    }
    assert Ends("name", "name") && Ends("filename", "filename");
    if f.filename != "" {
      assert attrs[1..] == [Attr("filename", f.filename)];
    } else {
      assert attrs[1..] == [];
    }
  }

  lemma LineRead(f: Fields)
    requires PrintableFields(f)
    ensures QuotedAttr(DispositionLine(f), "name") == f.name
    ensures QuotedAttr(DispositionLine(f), "filename") == f.filename
  {
    hide QuotedAttr, AttrsText, Read, FORM_DATA;
    FormDataShape();
    AttributesRead(f);
    QuotedAttrIs(FORM_DATA, Attributes(f), "name");
    QuotedAttrIs(FORM_DATA, Attributes(f), "filename");
  }

  // --- The lines of a printed header block -----------------------------------------------------------------------

  lemma FreeAppend(s: string, t: string, c: char)
    requires Free(s, c) && Free(t, c)
    ensures Free(s + t, c)
  {
  }

  lemma AttrFree(a: Attr)
    requires Free(a.key, '\r') && Free(a.value, '\r')
    ensures Free(a.Text(), '\r')
  {
  }

  lemma DispositionFree(f: Fields)
    requires PrintableFields(f)
    ensures Free(DispositionLine(f), '\r') && |DispositionLine(f)| > 30 && DispositionLine(f)[..30] == FORM_DATA
  {
    hide FORM_DATA, Free, AttrsText;
    FormDataShape();
    Keywords();
    AttrsFree(Attributes(f));
    FreeAppend(FORM_DATA, AttrsText(Attributes(f)), '\r');
    assert |AttrsText(Attributes(f))| > 0 by {
      AttrAt(AttrsText(Attributes(f)), 0, Attributes(f));
    }
  }

  lemma {:induction false} AttrsFree(attrs: seq<Attr>)
    requires forall a | a in attrs :: Free(a.key, '\r') && Free(a.value, '\r')
    ensures Free(AttrsText(attrs), '\r')
  {
    hide Free;
    if attrs == [] {
      Keywords();
    } else {
      assert attrs[0] in attrs;
      AttrFree(attrs[0]);
      AttrsFree(attrs[1..]);
      FreeAppend(attrs[0].Text(), AttrsText(attrs[1..]), '\r');
    }
  }

  lemma Keywords()
    ensures Free("", '\r') && Free("name", '\r') && Free("filename", '\r')
  {
  }

  lemma DispositionRead(f: Fields, before: Fields)
    requires PrintableFields(f)
    ensures OneLine(before, DispositionLine(f)) == Fields(f.name, f.filename, before.contentType)
  {
    LineRead(f);
    DispositionFree(f);
    DispositionPrefix();
    hide QuotedAttr, FORM_DATA, DispositionLine, Free;
    var line := DispositionLine(f);
    forall i | 0 <= i < |DISPOSITION|
      ensures Lower(line[i]) == Lower(DISPOSITION[i])
    {
      assert line[i] == line[..30][i];
    }
  }

  lemma DispositionPrefix()
    ensures |DISPOSITION| == 20 && PrefixIgnoringCase(FORM_DATA, DISPOSITION)
  {
  }

  lemma {:induction false} TrimKeeps(s: string)
    requires Trimmed(s) && Free(s, '\r')
    ensures TrimRight(TrimLeft(" " + s)) == s
  {
    assert (" " + s)[1..] == s;
    assert TrimLeft(" " + s) == TrimLeft(s) == s;
  }

  lemma TypeRead(f: Fields, before: Fields)
    requires PrintableFields(f)
    ensures OneLine(before, TypeLine(f)) == before.(contentType := f.contentType)
    ensures Free(TypeLine(f), '\r') && |TypeLine(f)| >= 14 && TypeLine(f)[0] == 'C'
  {
    TypePrefix();
    TrimKeeps(f.contentType);
    var line := TypeLine(f);
    assert line[8] == 'T' && DISPOSITION[8] == 'd';
    assert line[|TYPE|..] == " " + f.contentType;
    forall i | 0 <= i < |TYPE|
      ensures Lower(line[i]) == Lower(TYPE[i])
    {
      assert line[i] == "Content-Type: "[i];
    }
  }

  lemma TypePrefix()
    ensures |TYPE| == 13 && PrefixIgnoringCase("Content-Type: ", TYPE) && Free("Content-Type: ", '\r')
  {
  }

  lemma FindCrlfAt(s: string, from: nat, eol: nat)
    requires from <= eol && eol + 2 <= |s| && s[eol] == '\r' && s[eol + 1] == '\n'
    requires forall i | from <= i < eol :: s[i] != '\r'
    ensures Find(s, CRLF, from) == Some(eol)
  {
    hide Find, OccursAt;
    forall i | from <= i <= eol
      ensures OccursAt(s, CRLF, i) <==> i == eol
    {
      OccursCrlf(s, i);
    }
    FindIs(s, CRLF, from, eol);
  }

  lemma NoCrlf(s: string, from: nat)
    requires Free(s, '\r')
    ensures Find(s, CRLF, from) == None
  {
    hide Find, OccursAt;
    forall i: int | 0 <= i
      ensures !OccursAt(s, CRLF, i)
    {
      OccursCrlf(s, i);
    }
    FindSpec(s, CRLF, from);
  }

  /** The fields are read back from the printed header block. */
  lemma HeadersRead(f: Fields)
    requires PrintableFields(f)
    ensures HeaderFields(Headers(f), 0, NO_FIELDS) == f
  {
    hide Find, OneLine, DispositionLine, TypeLine;
    var first, second := DispositionLine(f), TypeLine(f);
    DispositionFree(f);
    DispositionRead(f, NO_FIELDS);
    if f.contentType == "" {
      NoCrlf(first, 0);
      assert Headers(f) == first && first[0..] == first;
      LastLine(first, 0, NO_FIELDS);
    } else {
      var h := Headers(f);
      var named := Fields(f.name, f.filename, "");
      TypeRead(f, named);
      assert h == first + CRLF + second;
      FindCrlfAt(h, 0, |first|);
      assert h[0..|first|] == first && h[|first| + 2..] == second;
      NoCrlf(second, 0);
      FindShift(h, CRLF, |first| + 2, 0);
      LastLine(h, |first| + 2, named);
    }
  }

  lemma LastLine(h: string, pos: nat, f: Fields)
    requires pos < |h| && Find(h, CRLF, pos) == None
    ensures HeaderFields(h, pos, f) == OneLine(f, h[pos..])
  {
  }

  /** In a printed header block carriage returns stand only before a second line, which starts with a letter. */
  lemma HeadersShape(f: Fields)
    requires PrintableFields(f)
    ensures var n := |DispositionLine(f)|;
            && n <= |Headers(f)|
            && (forall i | 0 <= i < |Headers(f)| && Headers(f)[i] == '\r' :: i == n && i + 2 < |Headers(f)| && Headers(f)[i + 2] != '\r')
  {
    hide DispositionLine, TypeLine;
    DispositionFree(f);
    TypeRead(f, NO_FIELDS);
    hide OneLine;
  }

  /** The printed header block ends at the first blank line. */
  lemma HeadersEnd(f: Fields, rest: string)
    requires PrintableFields(f)
    ensures Find(CRLF + Headers(f) + BLANK_LINE + rest, BLANK_LINE, 2) == Some(2 + |Headers(f)|)
  {
    hide Find, OccursAt, Headers;
    HeadersShape(f);
    var h := Headers(f);
    var text := CRLF + h + BLANK_LINE + rest;
    forall j | 2 <= j < 2 + |h|
      ensures !OccursAt(text, BLANK_LINE, j)
    {
      OccursChars(text, BLANK_LINE, j, 0);
      OccursChars(text, BLANK_LINE, j, 2);
      assert text[j] == h[j - 2];
      assert h[j - 2] == '\r' ==> text[j + 2] == h[j];
    }
    BlankThere(CRLF + h, rest);
    FindIs(text, BLANK_LINE, 2, 2 + |h|);
  }

  lemma BlankThere(front: string, rest: string)
    ensures OccursAt(front + BLANK_LINE + rest, BLANK_LINE, |front|)
  {
    assert (front + BLANK_LINE + rest)[|front|..|front| + 4] == BLANK_LINE;
  }

  /** A content without the delimiter ends at the first delimiter after its start. */
  lemma ContentEnd(content: string, next: string, rest: string)
    requires |next| > 0 && next[0] == '\r' && (forall i | 0 < i < |next| :: next[i] != '\r')
    requires forall k | 0 <= k < |content| :: !OccursAt(content, next, k)
    ensures Find(content + next + rest, next, 0) == Some(|content|)
  {
    hide Find;
    var text, n := content + next + rest, |content|;
    forall k | 0 <= k < n
      ensures !OccursAt(text, next, k)
    {
      if k + |next| <= n {
        assert text[k..k + |next|] == content[k..k + |next|] && !OccursAt(content, next, k);
      } else {
        OccursChars(text, next, k, n - k);
        assert text[n] == next[0];
      }
    }
    assert text[n..n + |next|] == next;
    FindIs(text, next, 0, n);
  }

  predicate IsDelimiter(next: string)
  {
    |next| > 0 && next[0] == '\r' && forall i | 0 < i < |next| :: next[i] != '\r'
  }

  /** One printed part, read at its place in a body. */
  lemma PartRead(body: string, pos: nat, next: string, e: Entry, rest: string)
    requires IsDelimiter(next) && Printable(e, next) && pos <= |body|
    requires body[pos..] == CRLF + Headers(e.fields) + BLANK_LINE + e.content + next + rest
    ensures var start := pos + 2 + |Headers(e.fields)| + 4;
            && PartAt(body, pos, next) == Some(Part(e.fields, start, start + |e.content|))
            && start + |e.content| + |next| <= |body|
            && body[start..start + |e.content|] == e.content
            && body[start + |e.content| + |next|..] == rest
  {
    hide Find, OccursAt, HeaderFields, PrintableFields, Headers;
    var h := Headers(e.fields);
    var text := body[pos..];
    var tail := e.content + next + rest;
    var start := 2 + |h| + 4;
    assert text == CRLF + h + BLANK_LINE + tail;
    HeadersEnd(e.fields, tail);
    FindShift(body, BLANK_LINE, pos, 2);
    assert text[start..] == tail;
    ContentEnd(e.content, next, rest);
    FindShift(text, next, start, 0);
    FindShift(body, next, pos, start);
    HeadersRead(e.fields);
    assert text[..2] == CRLF && text[2..2 + |h|] == h;
    assert body[pos..pos + 2] == CRLF && body[pos + 2..pos + 2 + |h|] == h;
    assert tail[..|e.content|] == e.content && tail[|e.content| + |next|..] == rest;
    assert body[pos + start..] == tail;
    assert body[pos + start..pos + start + |e.content|] == e.content;
  }

  /** `parts` are the entries, found in `body`. */
  predicate Reads(body: string, parts: seq<Part>, entries: seq<Entry>)
  {
    && |parts| == |entries|
    && forall i | 0 <= i < |parts| ::
         parts[i].fields == entries[i].fields && parts[i].start <= parts[i].end <= |body|
         && body[parts[i].start..parts[i].end] == entries[i].content
  }

  lemma {:induction false} PrintedRead(body: string, pos: nat, next: string, entries: seq<Entry>, epilogue: string)
    requires IsDelimiter(next) && pos <= |body| && body[pos..] == PrintFrom(entries, next, epilogue)
    requires forall e | e in entries :: Printable(e, next)
    ensures Reads(body, PartsFrom(body, pos, next), entries)
    decreases |entries|
  {
    hide PartAt, Printable, Headers;
    if entries == [] {
      Finished(body, pos, next, epilogue);
    } else {
      var e, rest := entries[0], PrintFrom(entries[1..], next, epilogue);
      assert e in entries;
      PartRead(body, pos, next, e, rest);
      var start := pos + 2 + |Headers(e.fields)| + 4;
      PrintedRead(body, start + |e.content| + |next|, next, entries[1..], epilogue);
      NamedEntry(e, next);
    }
  }

  lemma NamedEntry(e: Entry, next: string)
    requires Printable(e, next)
    ensures e.fields.name != ""
  {
  }

  lemma Finished(body: string, pos: nat, next: string, epilogue: string)
    requires pos <= |body| && body[pos..] == "--" + epilogue
    ensures PartAt(body, pos, next) == None
  {
    assert body[pos..][0] == '-';
    assert body[pos..pos + 2][0] == '-';
  }

  /** Parsing a printed body gives back its parts, in order, whatever stands before the first delimiter and behind the
      last one. */
  lemma RoundTrip(preamble: string, entries: seq<Entry>, boundary: string, epilogue: string)
    requires boundary != "" && Free(boundary, '\r')
    requires forall e | e in entries :: Printable(e, CRLF + "--" + boundary)
    requires forall k | 0 <= k < |preamble| :: !OccursAt(preamble + ("--" + boundary), "--" + boundary, k)
    ensures var body := preamble + Print(entries, boundary, epilogue);
            Reads(body, Parts(body, boundary), entries)
  {
    hide Find, OccursAt, PrintFrom, PartsFrom, Printable, Reads;
    var next, delim := CRLF + "--" + boundary, "--" + boundary;
    var body, after := preamble + Print(entries, boundary, epilogue), PrintFrom(entries, next, epilogue);
    assert body == preamble + delim + after;
    forall k | 0 <= k < |preamble|
      ensures !OccursAt(body, delim, k)
    {
      OccursInPrefix(preamble + delim, body, delim, k);
    }
    ThereAfter(preamble, delim, after);
    FindIs(body, delim, 0, |preamble|);
    assert body[|preamble| + |delim|..] == after;
    PrintedRead(body, |preamble| + |delim|, next, entries, epilogue);
  }
}
