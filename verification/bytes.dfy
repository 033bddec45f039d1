/** Byte strings, first-occurrence search and the numeral readers the C++ standard library supplies.
    A byte string is a `string`; every statement here holds for arbitrary characters, so in particular
    for octets. */
module Bytes {

  datatype Option<+T> = None | Some(value: T)

  const CRLF := "\r\n"
  const BLANK_LINE := "\r\n\r\n"

  predicate OccursAt(s: string, needle: string, i: int)
  {
    0 <= i <= |s| - |needle| && s[i..i + |needle|] == needle
  }

  /** `std::string_view::find`: the first occurrence at or after `from` (see `FindSpec`). */
  function Find(s: string, needle: string, from: nat): (r: Option<nat>)
    ensures r.Some? ==> from <= r.value <= |s| - |needle|
    decreases |s| - from
  {
    if from + |needle| > |s| then None
    else if s[from..from + |needle|] == needle then Some(from)
    else Find(s, needle, from + 1)
  }

  lemma {:induction false} FindSpec(s: string, needle: string, from: nat)
    ensures Find(s, needle, from).Some? ==> OccursAt(s, needle, Find(s, needle, from).value)
    ensures forall i | from <= i && (Find(s, needle, from).Some? ==> i < Find(s, needle, from).value)
              :: !OccursAt(s, needle, i)
    decreases |s| - from
  {
    if from + |needle| <= |s| {
      FindSpec(s, needle, from + 1);
    }
  }

  /** The first occurrence is found. */
  lemma FindIs(s: string, needle: string, from: nat, i: nat)
    requires from <= i && OccursAt(s, needle, i)
    requires forall j | from <= j < i :: !OccursAt(s, needle, j)
    ensures Find(s, needle, from) == Some(i)
  {
    FindSpec(s, needle, from);
  }

  lemma OccursCrlf(s: string, i: int)
    ensures OccursAt(s, CRLF, i) <==> 0 <= i < |s| - 1 && s[i] == '\r' && s[i + 1] == '\n'
  {
    if 0 <= i < |s| - 1 {
      assert s[i..i + 2] == [s[i], s[i + 1]];
    }
  }

  lemma OccursInPrefix(s: string, u: string, needle: string, i: int)
    requires s <= u && i <= |s| - |needle|
    ensures OccursAt(s, needle, i) <==> OccursAt(u, needle, i)
  {
    if 0 <= i {
      assert s[i..i + |needle|] == u[i..i + |needle|];
    }
  }

  /** A first occurrence stays the first occurrence when bytes are appended, and is already the first
      occurrence in every prefix that contains it. */
  lemma FindPrefix(s: string, u: string, needle: string, from: nat)
    requires s <= u
    ensures Find(s, needle, from).Some? ==> Find(u, needle, from) == Find(s, needle, from)
    ensures Find(u, needle, from).Some? && Find(u, needle, from).value + |needle| <= |s|
            ==> Find(s, needle, from) == Find(u, needle, from)
  {
    FindSpec(s, needle, from);
    FindSpec(u, needle, from);
    forall i | i <= |s| - |needle|
      ensures OccursAt(s, needle, i) <==> OccursAt(u, needle, i)
    {
      OccursInPrefix(s, u, needle, i);
    }
  }

  predicate Has(s: string, needle: string)
  {
    Find(s, needle, 0).Some?
  }

  lemma OccursChar(s: string, c: char, i: int)
    ensures OccursAt(s, [c], i) <==> 0 <= i < |s| && s[i] == c
  {
    if 0 <= i < |s| {
      assert s[i..i + 1] == [s[i]];
    }
  }

  /** Searching for one character finds nothing before the first place that character stands. */
  lemma FindChar(s: string, c: char, from: nat, i: nat)
    requires from <= i < |s| && s[i] == c
    requires forall j | from <= j < i :: s[j] != c
    ensures Find(s, [c], from) == Some(i)
  {
    forall j | from <= j <= i
      ensures OccursAt(s, [c], j) <==> j == i
    {
      OccursChar(s, c, j);
    }
    FindIs(s, [c], from, i);
  }

  lemma FindCharNone(s: string, c: char, from: nat)
    requires forall j | from <= j < |s| :: s[j] != c
    ensures Find(s, [c], from) == None
  {
    forall j | from <= j
      ensures !OccursAt(s, [c], j)
    {
      OccursChar(s, c, j);
    }
    FindSpec(s, [c], from);
  }

  /** Searching the rest of a string. */
  lemma FindShift(s: string, needle: string, from: nat, k: nat)
    requires from <= |s|
    ensures Find(s[from..], needle, k).None? ==> Find(s, needle, from + k) == None
    ensures Find(s[from..], needle, k).Some? ==> Find(s, needle, from + k) == Some(from + Find(s[from..], needle, k).value)
  {
    hide Find;
    var rest := s[from..];
    FindSpec(rest, needle, k);
    FindSpec(s, needle, from + k);
    forall i: int | 0 <= i
      ensures OccursAt(rest, needle, i) <==> OccursAt(s, needle, from + i)
    {
      if i + |needle| <= |rest| {
        assert rest[i..i + |needle|] == s[from + i..from + i + |needle|];
      }
    }
    if Find(s, needle, from + k).Some? {
      var i := Find(s, needle, from + k).value - from;
      FindIs(rest, needle, k, i);
    }
  }

  /** An occurrence agrees with the needle at each place. */
  lemma OccursChars(s: string, needle: string, i: int, k: int)
    requires 0 <= k < |needle|
    ensures OccursAt(s, needle, i) ==> 0 <= i + k < |s| && s[i + k] == needle[k]
  {
    if OccursAt(s, needle, i) {
      assert s[i..i + |needle|][k] == needle[k];
    }
  }

  predicate Free(s: string, c: char) { forall i | 0 <= i < |s| :: s[i] != c }
}
