/** base64url without padding, section 5 of RFC 4648, computed with wrapping 32-bit accumulators. */
module Base64Url {
  import opened Bytes

  const UPPER := "ABCDEFGHIJKLMNOPQRSTUVWXYZ"
  const LOWER := "abcdefghijklmnopqrstuvwxyz"
  const OTHER := "0123456789-_"
  const ALPHABET := UPPER + LOWER + OTHER

  predicate Octets(s: string)
  {
    forall i | 0 <= i < |s| :: s[i] as int < 256
  }

  /** The symbol of a 6-bit value, and the value of a symbol. */
  function Symbol(i: nat): char
    requires i < 64
  {
    if i < 26 then 'A' + i as char
    else if i < 52 then 'a' + (i - 26) as char
    else if i < 62 then '0' + (i - 52) as char
    else if i == 62 then '-'
    else '_'
  }

  function ValueOf(c: char): (r: Option<nat>)
    ensures r.Some? ==> r.value < 64 && Symbol(r.value) == c
  {
    if 'A' <= c <= 'Z' then Some(c as nat - 'A' as nat)
    else if 'a' <= c <= 'z' then Some(c as nat - 'a' as nat + 26)
    else if '0' <= c <= '9' then Some(c as nat - '0' as nat + 52)
    else if c == '-' then Some(62)
    else if c == '_' then Some(63)
    else None
  }

  lemma Upper(i: nat)
    requires i < 26
    ensures |UPPER| == 26 && UPPER[i] == 'A' + i as char
  {
  }

  lemma Lower(i: nat)
    requires i < 26
    ensures |LOWER| == 26 && LOWER[i] == 'a' + i as char
  {
  }

  /** The literal alphabet of the program is the table `Symbol` describes, and `ValueOf` is its inverse. */
  lemma AlphabetIsSymbols(i: nat)
    requires i < 64
    ensures |ALPHABET| == 64 && ALPHABET[i] == Symbol(i) && ValueOf(ALPHABET[i]) == Some(i)
  {
    hide UPPER, LOWER;
    Upper(i % 26);
    Lower(i % 26);
    if i < 26 {
      assert ALPHABET[i] == UPPER[i];
    } else if i < 52 {
      Lower(i - 26);
      assert ALPHABET[i] == LOWER[i - 26];
    } else {
      assert ALPHABET[i] == OTHER[i - 52];
    }
  }

  // --- The encoding, by groups of three octets ------------------------------------------------------

  /** The four sextets of three octets: each takes its bits from one octet or from two neighbours. */
  function First(a: nat): (r: nat)
    requires a < 256
    ensures r < 64
  {
    a / 4
  }

  function Second(a: nat, b: nat): (r: nat)
    requires a < 256 && b < 256
    ensures r < 64
  {
    a % 4 * 16 + b / 16
  }

  function Third(b: nat, c: nat): (r: nat)
    requires b < 256 && c < 256
    ensures r < 64
  {
    b % 16 * 4 + c / 64
  }

  function Fourth(c: nat): (r: nat)
    requires c < 256
    ensures r < 64
  {
    c % 64
  }

  function Group(a: nat, b: nat, c: nat): (g: string)
    requires a < 256 && b < 256 && c < 256
    ensures |g| == 4
  {
    [Symbol(First(a)), Symbol(Second(a, b)), Symbol(Third(b, c)), Symbol(Fourth(c))]
  }

  function Encoding(s: string): string
    requires Octets(s)
  {
    if |s| == 0 then ""
    else if |s| == 1 then [Symbol(First(s[0] as nat)), Symbol(Second(s[0] as nat, 0))]
    else if |s| == 2 then
      [Symbol(First(s[0] as nat)), Symbol(Second(s[0] as nat, s[1] as nat)), Symbol(Third(s[1] as nat, 0))]
    else Group(s[0] as nat, s[1] as nat, s[2] as nat) + Encoding(s[3..])
  }

  predicate Symbols(t: string)
  {
    forall i | 0 <= i < |t| :: ValueOf(t[i]).Some?
  }

  /** The three octets of four sextets. */
  function Octet1(w: nat, x: nat): char
    requires w < 64 && x < 64
  {
    (w * 4 + x / 16) as char
  }

  function Octet2(x: nat, y: nat): char
    requires x < 64 && y < 64
  {
    (x % 16 * 16 + y / 4) as char
  }

  function Octet3(y: nat, z: nat): char
    requires y < 64 && z < 64
  {
    (y % 4 * 64 + z) as char
  }

  function Value(c: char): (r: nat)
    requires ValueOf(c).Some?
    ensures r < 64
  {
    ValueOf(c).value
  }

  /** The octets of a string of symbols, by groups of four. */
  function Decoding(t: string): string
    requires Symbols(t)
  {
    if |t| < 2 then ""
    else if |t| == 2 then [Octet1(Value(t[0]), Value(t[1]))]
    else if |t| == 3 then [Octet1(Value(t[0]), Value(t[1])), Octet2(Value(t[1]), Value(t[2]))]
    else
      [Octet1(Value(t[0]), Value(t[1])), Octet2(Value(t[1]), Value(t[2])), Octet3(Value(t[2]), Value(t[3]))]
      + Decoding(t[4..])
  }

  /** The symbols before the first character that is none. */
  function SymbolPrefix(t: string): (p: string)
    ensures Symbols(p) && p <= t
  {
    if t == "" || ValueOf(t[0]).None? then "" else [t[0]] + SymbolPrefix(t[1..])
  }

  lemma SymbolHasValue(i: nat)
    requires i < 64
    ensures ValueOf(Symbol(i)) == Some(i)
  {
  }

  lemma AllSymbols()
    ensures forall i: nat | i < 64 :: ValueOf(Symbol(i)) == Some(i)
  {
    forall i: nat | i < 64
      ensures ValueOf(Symbol(i)) == Some(i)
    {
      SymbolHasValue(i);
    }
  }

  /** ceil(4n/3) symbols of the alphabet. */
  lemma {:induction false} EncodingShape(s: string)
    requires Octets(s)
    ensures |Encoding(s)| == (4 * |s| + 2) / 3 && Symbols(Encoding(s))
  {
    hide Symbol, ValueOf, First, Second, Third, Fourth;
    AllSymbols();
    if |s| >= 3 {
      EncodingShape(s[3..]);
    }
  }

  /** The sextets of three octets, put together again. */
  lemma Regroup(a: nat, b: nat, c: nat)
    requires a < 256 && b < 256 && c < 256
    ensures Octet1(First(a), Second(a, b)) as nat == a
    ensures Octet2(Second(a, b), Third(b, c)) as nat == b
    ensures Octet3(Third(b, c), Fourth(c)) as nat == c
  {
    assert (a % 4 * 16 + b / 16) / 16 == a % 4 && (a % 4 * 16 + b / 16) % 16 == b / 16;
    assert (b % 16 * 4 + c / 64) / 4 == b % 16 && (b % 16 * 4 + c / 64) % 4 == c / 64;
  }

  lemma {:induction false} DecodingInvertsEncoding(s: string)
    requires Octets(s)
    ensures Symbols(Encoding(s)) && Decoding(Encoding(s)) == s
  {
    hide Symbol, ValueOf, First, Second, Third, Fourth, Octet1, Octet2, Octet3;
    EncodingShape(s);
    AllSymbols();
    if |s| >= 3 {
      var t := s[3..];
      DecodingInvertsEncoding(t);
      Regroup(s[0] as nat, s[1] as nat, s[2] as nat);
      assert Encoding(s)[4..] == Encoding(t);
      assert s == [s[0], s[1], s[2]] + t;
    } else if |s| == 2 {
      Regroup(s[0] as nat, s[1] as nat, 0);
    } else if |s| == 1 {
      Regroup(s[0] as nat, 0, 0);
    }
  }

  // --- The bits of an encoding ----------------------------------------------------------------------

  /** The number that the values of some symbols are the digits of, to base 64, the first most significant. */
  function Number64(t: string): nat
    requires Symbols(t)
  {
    if t == "" then 0 else Number64(t[..|t| - 1]) * 64 + Value(t[|t| - 1])
  }

  function Number256(s: string): nat
  {
    if s == "" then 0 else Number256(s[..|s| - 1]) * 256 + s[|s| - 1] as nat
  }

  /** What each group of symbols stands for. */
  lemma GroupBits(a: nat, b: nat, c: nat)
    requires a < 256 && b < 256 && c < 256
    ensures First(a) * 262144 + Second(a, b) * 4096 + Third(b, c) * 64 + Fourth(c) == a * 65536 + b * 256 + c
    ensures First(a) * 4096 + Second(a, b) * 64 + Third(b, 0) == (a * 256 + b) * 4
    ensures First(a) * 64 + Second(a, 0) == a * 16
  {
    assert a == a / 4 * 4 + a % 4 && b == b / 16 * 16 + b % 16 && c == c / 64 * 64 + c % 64;
  }

  lemma NumberOfFour(t: string)
    requires |t| == 4 && Symbols(t)
    ensures Number64(t) == Value(t[0]) * 262144 + Value(t[1]) * 4096 + Value(t[2]) * 64 + Value(t[3])
  {
    hide Value, ValueOf;
    NumberOfThree(t[..3]);
  }

  lemma NumberOfThree(t: string)
    requires |t| == 3 && Symbols(t)
    ensures Number64(t) == Value(t[0]) * 4096 + Value(t[1]) * 64 + Value(t[2])
  {
    hide Value, ValueOf;
    NumberOfTwo(t[..2]);
  }

  lemma NumberOfTwo(t: string)
    requires |t| == 2 && Symbols(t)
    ensures Number64(t) == Value(t[0]) * 64 + Value(t[1])
  {
    hide Value, ValueOf;
    assert t[..1][..0] == "";
    assert Number64(t[..1]) == Value(t[0]);
  }

  lemma OctetsNumber(s: string)
    requires 1 <= |s| <= 3
    ensures |s| == 1 ==> Number256(s) == s[0] as nat
    ensures |s| == 2 ==> Number256(s) == s[0] as nat * 256 + s[1] as nat
    ensures |s| == 3 ==> Number256(s) == s[0] as nat * 65536 + s[1] as nat * 256 + s[2] as nat
  {
    assert Number256(s[..1]) == s[0] as nat by {
      assert s[..1][..0] == "";
    }
    if |s| >= 2 {
      assert s[..2][..1] == s[..1];
    }
    if |s| == 3 {
      assert s[..3] == s;
    }
  }

  /** Every group of up to three octets is encoded by its bits, the first octet most significant, filled up with zeros
      to whole symbols. */
  lemma {:induction false} EncodedBits(s: string, k: nat)
    requires Octets(s) && 3 * k < |s|
    ensures var octets := if 3 * k + 3 <= |s| then s[3 * k..3 * k + 3] else s[3 * k..];
            var t, n := Encoding(s), if |octets| == 3 then 4 else |octets| + 1;
            && 4 * k + n <= |t| && Symbols(t[4 * k..4 * k + n])
            && Number64(t[4 * k..4 * k + n])
            == Number256(octets) * (if |octets| == 3 then 1 else if |octets| == 2 then 4 else 16)
  {
    hide Number64, Number256, Group, ValueOf, Encoding;
    EncodingTail(s, k);
    var rest := s[3 * k..];
    FirstGroup(rest);
    var n := if |rest| >= 3 then 4 else |rest| + 1;
    assert Encoding(s)[4 * k..][..n] == Encoding(s)[4 * k..4 * k + n];
    if |rest| >= 3 {
      assert rest[..3] == s[3 * k..3 * k + 3];
    }
  }

  lemma {:induction false} EncodingTail(s: string, k: nat)
    requires Octets(s) && 3 * k <= |s|
    ensures 4 * k <= |Encoding(s)| && Encoding(s)[4 * k..] == Encoding(s[3 * k..])
    decreases k
  {
    hide Symbol, First, Second, Third, Fourth;
    if k == 0 {
      assert s[0..] == s;
    } else {
      EncodingTail(s[3..], k - 1);
      assert s[3..][3 * (k - 1)..] == s[3 * k..];
      assert Encoding(s)[4..] == Encoding(s[3..]);
      assert Encoding(s)[4 * k..] == Encoding(s)[4..][4 * (k - 1)..];
    }
  }

  lemma FirstGroup(s: string)
    requires Octets(s) && s != ""
    ensures var octets := if 3 <= |s| then s[..3] else s;
            var t, n := Encoding(s), if |octets| == 3 then 4 else |octets| + 1;
            && n <= |t| && Symbols(t[..n])
            && Number64(t[..n]) == Number256(octets) * (if |octets| == 3 then 1 else if |octets| == 2 then 4 else 16)
  {
    EncodingShape(s);
    AllSymbols();
    var octets := if 3 <= |s| then s[..3] else s;
    var t := Encoding(s);
    OctetsNumber(octets);
    hide Symbol, ValueOf, First, Second, Third, Fourth, Number64, Number256;
    if |s| >= 3 {
      GroupBits(s[0] as nat, s[1] as nat, s[2] as nat);
      assert t[..4] == Group(s[0] as nat, s[1] as nat, s[2] as nat);
      NumberOfFour(t[..4]);
    } else if |s| == 2 {
      GroupBits(s[0] as nat, s[1] as nat, 0);
      assert t[..3] == t;
      NumberOfThree(t);
    } else {
      GroupBits(s[0] as nat, 0, 0);
      assert t[..2] == t;
      NumberOfTwo(t);
    }
  }

  // --- 32-bit arithmetic ----------------------------------------------------------------------------

  const TWO_32: int := 0x1_0000_0000

  /** The value of a two's complement `int` after an operation whose unbounded result is `x`. */
  function Wrap32(x: int): int
  {
    (x + TWO_32 / 2) % TWO_32 - TWO_32 / 2
  }

  predicate IsInt32(v: int) { -TWO_32 / 2 <= v < TWO_32 / 2 }

  function Pow2(k: nat): (p: nat)
    ensures p > 0
  {
    if k == 0 then 1 else 2 * Pow2(k - 1)
  }

  /** `v << k`, and `v >> k` with the sign kept. */
  function Shl(v: int, k: nat): int { Wrap32(v * Pow2(k)) }

  function Shr(v: int, k: nat): int { v / Pow2(k) }

  lemma Powers()
    ensures Pow2(0) == 1 && Pow2(2) == 4 && Pow2(4) == 16 && Pow2(6) == 64 && Pow2(8) == 256
  {
    assert Pow2(2) == 4;
    assert Pow2(4) == 16;
    assert Pow2(6) == 64;
  }

  /** Wrapping subtracts a multiple of 2 to the 32. */
  lemma WrapIs(x: int) returns (k: int)
    ensures Wrap32(x) == x - TWO_32 * k && IsInt32(Wrap32(x))
  {
    k := (x + TWO_32 / 2) / TWO_32;
  }

  lemma Remainder(x: int, q: int, r: nat)
    requires x == 4096 * q + r && r < 4096
    ensures x % 4096 == r
  {
  }

  /** An accumulator shifted by the width of `c`, with `c` added, is an `int` whose low twelve bits are those
      of the old accumulator and of `c`, whatever was lost at the top. */
  lemma {:induction false} ShiftIn(v: int, c: int, k: nat)
    requires k == 8 || k == 6
    requires 0 <= c < (if k == 8 then 256 else 64)
    ensures IsInt32(Shl(v, k) + c)
    ensures k == 8 ==> (Shl(v, k) + c) % 4096 == v % 16 * 256 + c
    ensures k == 6 ==> (Shl(v, k) + c) % 4096 == v % 64 * 64 + c
  {
    Powers();
    hide Pow2;
    if k == 8 {
      ShiftInOctet(v, c);
    } else {
      ShiftInSextet(v, c);
    }
  }

  lemma ShiftInOctet(v: int, c: int)
    requires 0 <= c < 256
    ensures IsInt32(Wrap32(v * 256) + c) && (Wrap32(v * 256) + c) % 4096 == v % 16 * 256 + c
  {
    hide Wrap32;
    var k := WrapIs(v * 256);
    Remainder(Wrap32(v * 256) + c, v / 16 - 1048576 * k, v % 16 * 256 + c);
  }

  lemma ShiftInSextet(v: int, c: int)
    requires 0 <= c < 64
    ensures IsInt32(Wrap32(v * 64) + c) && (Wrap32(v * 64) + c) % 4096 == v % 64 * 64 + c
  {
    hide Wrap32;
    var k := WrapIs(v * 64);
    Remainder(Wrap32(v * 64) + c, v / 64 - 1048576 * k, v % 64 * 64 + c);
  }

  lemma Multiples(m: nat, d: int)
    ensures d >= 1 ==> m * d >= m
    ensures d <= -1 ==> m * d <= 0 - m
  {
    assert m * d == m * (d - 1) + m == m * (d + 1) - m;
  }

  lemma DivMod(x: int, m: nat, q: int, r: nat)
    requires r < m && x == m * q + r
    ensures x / m == q && x % m == r
  {
    Multiples(m, x / m - q);
    assert m * (x / m - q) == r - x % m;
  }

  /** The bits taken out of a value whose low twelve bits are the four of `h` and the eight of `c`. */
  lemma Sextet(v: int, h: nat, c: nat, k: nat)
    requires h < 16 && c < 256 && v % 4096 == h * 256 + c
    requires k == 0 || k == 2 || k == 4 || k == 6
    ensures k == 2 ==> Shr(v, k) % 64 == c / 4
    ensures k == 4 ==> Shr(v, k) % 64 == h % 4 * 16 + c / 16
    ensures k == 6 ==> Shr(v, k) % 64 == h * 4 + c / 64
    ensures k == 0 ==> Shr(v, k) % 64 == c % 64
  {
    Powers();
    hide Pow2;
    var q := v / 4096;
    if k == 2 {
      TakeBits(v, 4, 64, 16 * q + h, c / 4, c % 4);
    } else if k == 4 {
      TakeBits(v, 16, 64, 4 * q + h / 4, h % 4 * 16 + c / 16, c % 16);
    } else if k == 6 {
      TakeBits(v, 64, 64, q, h * 4 + c / 64, c % 64);
    } else {
      TakeBits(v, 1, 64, 64 * q + h * 4 + c / 64, c % 64, 0);
    }
  }

  /** The bits taken out of a value whose low twelve bits are the sextets `s` and `d`. */
  lemma Octet(v: int, s: nat, d: nat, k: nat)
    requires s < 64 && d < 64 && v % 4096 == s * 64 + d
    requires k == 0 || k == 2 || k == 4
    ensures k == 4 ==> Shr(v, k) % 256 == s * 4 + d / 16
    ensures k == 2 ==> Shr(v, k) % 256 == s % 16 * 16 + d / 4
    ensures k == 0 ==> Shr(v, k) % 256 == s % 4 * 64 + d
  {
    Powers();
    hide Pow2;
    var q := v / 4096;
    if k == 4 {
      TakeBits(v, 16, 256, q, s * 4 + d / 16, d % 16);
    } else if k == 2 {
      TakeBits(v, 4, 256, 4 * q + s / 16, s % 16 * 16 + d / 4, d % 4);
    } else {
      TakeBits(v, 1, 256, 16 * q + s / 4, s % 4 * 64 + d, 0);
    }
  }

  /** The `n`-valued digit `r` of `v` above the `m`-valued digit `e`. */
  lemma TakeBits(v: int, m: nat, n: nat, q: int, r: nat, e: nat)
    requires e < m && r < n && v == m * (n * q + r) + e
    ensures v / m % n == r
  {
    DivMod(v, m, n * q + r, e);
    DivMod(n * q + r, n, q, r);
  }

  // --- The encoder ----------------------------------------------------------------------------------

  /** The sextets that are complete after `s`: `Encoding` without its last, padded symbol. */
  function Sextets(s: string): string
    requires Octets(s)
  {
    if |s| == 0 then ""
    else if |s| == 1 then [Symbol(First(s[0] as nat))]
    else if |s| == 2 then [Symbol(First(s[0] as nat)), Symbol(Second(s[0] as nat, s[1] as nat))]
    else Group(s[0] as nat, s[1] as nat, s[2] as nat) + Sextets(s[3..])
  }

  /** What the octet `c` completes after the octets `s`. */
  function Completed(s: string, c: nat): string
    requires Octets(s) && c < 256
  {
    if |s| % 3 == 0 then [Symbol(First(c))]
    else if |s| % 3 == 1 then [Symbol(Second(s[|s| - 1] as nat, c))]
    else [Symbol(Third(s[|s| - 1] as nat, c)), Symbol(Fourth(c))]
  }

  function LastSymbol(s: string): string
    requires Octets(s)
  {
    if |s| % 3 == 0 then ""
    else if |s| % 3 == 1 then [Symbol(Second(s[|s| - 1] as nat, 0))]
    else [Symbol(Third(s[|s| - 1] as nat, 0))]
  }

  lemma {:induction false} SextetsGrow(s: string, c: char)
    requires Octets(s) && c as nat < 256
    ensures Sextets(s + [c]) == Sextets(s) + Completed(s, c as nat)
  {
    hide Symbol, First, Second, Third, Fourth;
    if |s| >= 3 {
      assert (s + [c])[3..] == s[3..] + [c];
      SextetsGrow(s[3..], c);
    } else if |s| == 2 {
      assert (s + [c])[3..] == "";
    }
  }

  lemma {:induction false} EncodingIsSextets(s: string)
    requires Octets(s)
    ensures Encoding(s) == Sextets(s) + LastSymbol(s)
  {
    hide Symbol, First, Second, Third, Fourth;
    if |s| >= 3 {
      EncodingIsSextets(s[3..]);
    }
  }

  /** The symbols the inner loop of the encoder pushes from bit position `valb` on. */
  function Drained(val: int, valb: int): string
    decreases valb + 6
  {
    if valb < 0 then "" else [Symbol(Shr(val, valb) % 64)] + Drained(val, valb - 6)
  }

  lemma DrainedIsCompleted(s: string, h: nat, c: nat, val: int)
    requires Octets(s) && h < 16 && c < 256 && val % 4096 == h * 256 + c
    requires |s| % 3 != 0 ==> h == s[|s| - 1] as nat % 16
    ensures Drained(val, 2 * (|s| % 3) + 2) == Completed(s, c)
  {
    hide Symbol, Shr;
    Sextet(val, h, c, 2 * (|s| % 3) + 2);
    if |s| % 3 != 0 {
      LastBits(s[|s| - 1] as nat, h);
    }
    if |s| % 3 == 2 {
      Sextet(val, h, c, 0);
      assert Drained(val, 0) == [Symbol(Shr(val, 0) % 64)] + Drained(val, -6);
    }
  }

  lemma OctetOnTop(v: int, h: nat, c: nat)
    requires c < 256 && v % 4096 == h * 256 + c
    ensures v % 16 == c % 16
  {
    DivMod(v, 16, 256 * (v / 4096) + 16 * h + c / 16, c % 16);
  }

  /** The inner loop: it pushes the symbols that are complete from bit position `start` on. */
  method Drain(val: int, start: int) returns (symbols: string, valb: int)
    requires start >= -6
    ensures symbols == Drained(val, start)
    ensures -6 <= valb < 0 && (start - valb) % 6 == 0
  {
    hide Symbol, Shr;
    symbols, valb := "", start;
    while valb >= 0
      invariant valb >= -6 && (start - valb) % 6 == 0
      invariant symbols + Drained(val, valb) == Drained(val, start)
    {
      AlphabetIsSymbols(Shr(val, valb) % 64);
      symbols := symbols + [ALPHABET[Shr(val, valb) % 64]];
      valb := valb - 6;
    }
  }

  method Encode(input: string) returns (encoded: string)
    requires Octets(input)
    ensures encoded == Encoding(input)
  {
    hide Symbol, Shr, Shl, Sextets, IsInt32, Encoding, Completed, Drained, ALPHABET;
    encoded := "";
    SextetsOfNothing();
    var val, valb := 0, -6;
    for i := 0 to |input|
      invariant valb == 2 * (i % 3) - 6
      invariant i % 3 != 0 ==> val % 16 == input[i - 1] as nat % 16
      invariant encoded == Sextets(input[..i])
    {
      var c := input[i] as nat;
      ghost var s, h := input[..i], val % 16;
      ShiftIn(val, c, 8);
      val := Shl(val, 8) + c;
      valb := valb + 8;
      OctetOnTop(val, h, c);
      DrainedIsCompleted(s, h, c, val);
      SextetsGrow(s, input[i]);
      assert input[..i + 1] == s + [input[i]];
      var symbols;
      symbols, valb := Drain(val, valb);
      encoded := encoded + symbols;
    }
    assert input[..|input|] == input;
    EncodingIsSextets(input);
    if valb > -6 {
      ShiftIn(val, 0, 8);
      var bits := Shr(Shl(val, 8), valb + 8) % 64;
      LastBits(input[|input| - 1] as nat, val % 16);
      Sextet(Shl(val, 8), val % 16, 0, valb + 8);
      AlphabetIsSymbols(bits);
      encoded := encoded + [ALPHABET[bits]];
    }
  }

  lemma SextetsOfNothing()
    ensures Sextets("") == ""
  {
  }

  lemma LastBits(last: nat, h: nat)
    requires h == last % 16
    ensures h % 4 == last % 4
  {
    DivMod(last, 4, last / 16 * 4 + h / 4, h % 4);
  }

  // --- The decoder ----------------------------------------------------------------------------------

  /** What the symbol of value `d` completes after the symbols `t`. */
  function CompletedOctet(t: string, d: nat): string
    requires Symbols(t) && d < 64
  {
    if |t| % 4 == 0 then ""
    else if |t| % 4 == 1 then [Octet1(Value(t[|t| - 1]), d)]
    else if |t| % 4 == 2 then [Octet2(Value(t[|t| - 1]), d)]
    else [Octet3(Value(t[|t| - 1]), d)]
  }

  lemma {:induction false} DecodingGrows(t: string, c: char)
    requires Symbols(t) && ValueOf(c).Some?
    ensures Symbols(t + [c]) && Decoding(t + [c]) == Decoding(t) + CompletedOctet(t, Value(c))
  {
    hide ValueOf, Value, Octet1, Octet2, Octet3;
    if |t| >= 4 {
      assert (t + [c])[4..] == t[4..] + [c];
      assert CompletedOctet(t, Value(c)) == CompletedOctet(t[4..], Value(c));
      hide CompletedOctet;
      DecodingGrows(t[4..], c);
    } else if |t| == 3 {
      assert (t + [c])[4..] == "";
    }
  }

  lemma {:induction false} SymbolPrefixStops(t: string, i: nat)
    requires i <= |t| && Symbols(t[..i])
    requires i < |t| ==> ValueOf(t[i]).None?
    ensures SymbolPrefix(t) == t[..i]
  {
    hide ValueOf;
    if i > 0 {
      assert t[..i][0] == t[0];
      assert t[1..][..i - 1] == t[..i][1..];
      SymbolPrefixStops(t[1..], i - 1);
    }
  }

  /** The bit position the decoder is at after `n` symbols. */
  function Position(n: nat): int
  {
    if n % 4 == 0 then -8 else -2 * (n % 4)
  }

  lemma OctetReady(t: string, last: nat, d: nat, val: int)
    requires Symbols(t) && last < 64 && d < 64 && val % 4096 == last * 64 + d
    requires |t| % 4 != 0 ==> last == Value(t[|t| - 1])
    ensures Position(|t| + 1) == if |t| % 4 == 0 then Position(|t|) + 6 else Position(|t|) - 2
    ensures CompletedOctet(t, d) == if |t| % 4 == 0 then "" else [(Shr(val, Position(|t|) + 6) % 256) as char]
  {
    hide Value, ValueOf, Shr;
    if |t| % 4 != 0 {
      Octet(val, last, d, Position(|t|) + 6);
    }
  }

  /** One more symbol of the input, in an accumulator that holds the symbol before it. */
  lemma DecodeStep(input: string, i: nat, before: int, val: int)
    requires i < |input| && Symbols(input[..i]) && ValueOf(input[i]).Some?
    requires i % 4 != 0 ==> before % 64 == Value(input[i - 1])
    requires val == Shl(before, 6) + Value(input[i])
    ensures val % 64 == Value(input[i]) && Symbols(input[..i + 1])
    ensures Position(i + 1) == if i % 4 == 0 then Position(i) + 6 else Position(i) - 2
    ensures Decoding(input[..i + 1])
         == Decoding(input[..i]) + if i % 4 == 0 then "" else [(Shr(val, Position(i) + 6) % 256) as char]
  {
    hide ValueOf, Value, Shr, Shl, CompletedOctet, Decoding, IsInt32;
    var t, d := input[..i], Value(input[i]);
    ShiftIn(before, d, 6);
    SymbolOnTop(val, before % 64, d);
    OctetReady(t, before % 64, d, val);
    DecodingGrows(t, input[i]);
    assert input[..i + 1] == t + [input[i]];
  }

  /** The decoder stops at padding or at the first character outside the alphabet, and decodes what is before. */
  method Decode(input: string) returns (decoded: string)
    ensures decoded == Decoding(SymbolPrefix(input))
  {
    decoded := "";
    var val, valb, i := 0, -8, 0;
    while i < |input|
      invariant 0 <= i <= |input| && Symbols(input[..i])
      invariant valb == Position(i)
      invariant i % 4 != 0 ==> val % 64 == Value(input[i - 1])
      invariant decoded == Decoding(input[..i])
    {
      Padding();
      hide ValueOf, Shr, Shl, SymbolPrefix, Decoding;
      if input[i] == '=' || ValueOf(input[i]).None? {
        break;
      }
      ghost var before := val;
      val := Shl(val, 6) + Value(input[i]);
      valb := valb + 6;
      DecodeStep(input, i, before, val);
      if valb >= 0 {
        decoded := decoded + [(Shr(val, valb) % 256) as char];
        valb := valb - 8;
      }
      i := i + 1;
    }
    SymbolPrefixStops(input, i);
  }

  lemma Padding()
    ensures ValueOf('=').None?
  {
  }

  lemma SymbolOnTop(v: int, last: nat, d: nat)
    requires d < 64 && v % 4096 == last * 64 + d
    ensures v % 64 == d
  {
    DivMod(v, 64, 64 * (v / 4096) + last, d);
  }

  /** Decoding what was encoded gives the octets back, for every string of octets. */
  lemma {:induction false} RoundTrip(s: string)
    requires Octets(s)
    ensures Decoding(SymbolPrefix(Encoding(s))) == s
  {
    hide Symbol, ValueOf, Decoding, SymbolPrefix, Encoding;
    DecodingInvertsEncoding(s);
    var t := Encoding(s);
    SymbolPrefixStops(t, |t|);
    assert t[..|t|] == t;
  }
}
