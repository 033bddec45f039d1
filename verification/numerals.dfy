/** Decimal printing (`std::to_string`) and the lenient readers `std::stoul`, `std::stoll`, `std::stoi`. */
module Numerals {
  import opened Bytes

  predicate IsDigit(c: char) { '0' <= c <= '9' }

  predicate IsSpace(c: char) { c == ' ' || '\t' <= c <= '\r' }

  function DigitOf(n: nat): char
    requires n < 10
  {
    '0' + n as char
  }

  predicate AllDigits(s: string)
  {
    forall i | 0 <= i < |s| :: IsDigit(s[i])
  }

  function DecimalValue(s: string): nat
    requires AllDigits(s)
  {
    if s == "" then 0
    else DecimalValue(s[..|s| - 1]) * 10 + (s[|s| - 1] as int - '0' as int)
  }

  /** `std::to_string` of a non-negative integer. */
  function Decimal(n: nat): (s: string)
    ensures s != "" && AllDigits(s)
  {
    if n < 10 then [DigitOf(n)] else Decimal(n / 10) + [DigitOf(n % 10)]
  }

  lemma {:induction false} DecimalRoundTrip(n: nat)
    ensures DecimalValue(Decimal(n)) == n
  {
    if n < 10 {
      assert [DigitOf(n)][..0] == "";
    } else {
      DecimalRoundTrip(n / 10);
      assert Decimal(n)[..|Decimal(n)| - 1] == Decimal(n / 10);
    }
  }

  /** What `strtol` sees: leading white space, an optional sign, then at least one digit. */
  datatype Numeral = Numeral(negative: bool, magnitude: nat)

  function SpacesEnd(s: string, i: nat): (j: nat)
    requires i <= |s|
    ensures i <= j <= |s|
    ensures forall k | i <= k < j :: IsSpace(s[k])
    ensures j < |s| ==> !IsSpace(s[j])
    decreases |s| - i
  {
    if i < |s| && IsSpace(s[i]) then SpacesEnd(s, i + 1) else i
  }

  function DigitsEnd(s: string, i: nat): (j: nat)
    requires i <= |s|
    ensures i <= j <= |s|
    ensures AllDigits(s[i..j])
    ensures j < |s| ==> !IsDigit(s[j])
    decreases |s| - i
  {
    if i < |s| && IsDigit(s[i]) then DigitsEnd(s, i + 1) else i
  }

  function ReadNumeral(s: string): Option<Numeral>
  {
    var i := SpacesEnd(s, 0);
    var signed := i < |s| && (s[i] == '-' || s[i] == '+');
    var j := if signed then i + 1 else i;
    var k := DigitsEnd(s, j);
    if j == k then None else Some(Numeral(signed && s[i] == '-', DecimalValue(s[j..k])))
  }

  const TWO_64: int := 0x1_0000_0000_0000_0000
  const TWO_63: int := 0x8000_0000_0000_0000
  const TWO_31: int := 0x8000_0000

  /** `std::stoul`: None where it throws; a minus sign negates modulo 2^64. */
  function Stoul(s: string): (r: Option<nat>)
    ensures r.Some? ==> r.value < TWO_64
  {
    match ReadNumeral(s)
    case None => None
    case Some(n) =>
      if n.magnitude >= TWO_64 then None
      else if n.negative then Some((TWO_64 - n.magnitude) % TWO_64)
      else Some(n.magnitude)
  }

  /** A signed reader of width 2 * `bound`: None where it throws. */
  function ReadSigned(s: string, bound: int): (r: Option<int>)
    ensures r.Some? ==> -bound <= r.value < bound
  {
    match ReadNumeral(s)
    case None => None
    case Some(n) =>
      var v: int := if n.negative then 0 - n.magnitude else n.magnitude;
      if -bound <= v < bound then Some(v) else None
  }

  function Stoll(s: string): Option<int> { ReadSigned(s, TWO_63) }

  function Stoi(s: string): Option<int> { ReadSigned(s, TWO_31) }

  lemma {:induction false} DigitsEndAll(s: string, i: nat)
    requires i <= |s| && AllDigits(s)
    ensures DigitsEnd(s, i) == |s|
    decreases |s| - i
  {
    if i < |s| {
      DigitsEndAll(s, i + 1);
    }
  }

  /** A printed number behind a minus sign. */
  lemma ReadMinus(n: nat)
    ensures ReadNumeral("-" + Decimal(n)) == Some(Numeral(true, n))
  {
    var d, s := Decimal(n), "-" + Decimal(n);
    DecimalRoundTrip(n);
    assert forall i | 1 <= i < |s| :: s[i] == d[i - 1];
    assert s[1..] == d;
    DigitsEndFrom(s, 1);
    assert s[1..|s|] == d;
  }

  lemma {:induction false} DigitsEndFrom(s: string, i: nat)
    requires i <= |s| && AllDigits(s[i..])
    ensures DigitsEnd(s, i) == |s|
    decreases |s| - i
  {
    if i < |s| {
      assert s[i..][0] == s[i];
      assert s[i + 1..] == s[i..][1..];
      DigitsEndFrom(s, i + 1);
    }
  }

  /** Reading back a printed number: the readers invert `std::to_string` on their whole range. */
  lemma ReadDecimal(n: nat)
    ensures ReadNumeral(Decimal(n)) == Some(Numeral(false, n))
    ensures n < TWO_64 ==> Stoul(Decimal(n)) == Some(n)
    ensures n < TWO_63 ==> Stoll(Decimal(n)) == Some(n)
    ensures n < TWO_31 ==> Stoi(Decimal(n)) == Some(n)
  {
    var s := Decimal(n);
    DecimalRoundTrip(n);
    DigitsEndAll(s, 0);
    assert IsDigit(s[0]);
    assert s[0..|s|] == s;
  }
}
