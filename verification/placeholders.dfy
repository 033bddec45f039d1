/** Translating `?` placeholders to `$1, $2, ...`, outside string literals only. */
module Placeholders {
  import opened Bytes
  import opened Numerals

  // --- What it means ------------------------------------------------------------------------------------

  function Quotes(s: string): nat
  {
    if s == "" then 0 else Quotes(s[..|s| - 1]) + if s[|s| - 1] == '\'' then 1 else 0
  }

  /** A place lies outside every literal when an even number of quotes precedes it; a doubled quote inside a
      literal leaves and enters it again. */
  predicate Outside(s: string, i: nat)
    requires i <= |s|
  {
    Quotes(s[..i]) % 2 == 0
  }

  predicate IsPlaceholder(s: string, i: nat)
    requires i < |s|
  {
    s[i] == '?' && Outside(s, i)
  }

  /** The placeholders among the first `i` characters. */
  function Count(s: string, i: nat): nat
    requires i <= |s|
  {
    if i == 0 then 0 else Count(s, i - 1) + if IsPlaceholder(s, i - 1) then 1 else 0
  }

  /** What the character at `i` becomes. */
  function Piece(s: string, i: nat): string
    requires i < |s|
  {
    if IsPlaceholder(s, i) then "$" + Decimal(Count(s, i) + 1) else [s[i]]
  }

  /** The translation of the first `i` characters. */
  function Rendered(s: string, i: nat): string
    requires i <= |s|
  {
    if i == 0 then "" else Rendered(s, i - 1) + Piece(s, i - 1)
  }

  function Translation(s: string): string { Rendered(s, |s|) }

  // --- The loop -----------------------------------------------------------------------------------------

  lemma QuotesStep(s: string, i: nat)
    requires i < |s|
    ensures Quotes(s[..i + 1]) == Quotes(s[..i]) + if s[i] == '\'' then 1 else 0
  {
    assert s[..i + 1][..i] == s[..i];
  }

  /** What one character adds, by where it stands. */
  lemma OneStep(sql: string, i: nat)
    requires i < |sql|
    ensures Outside(sql, i + 1) == if sql[i] == '\'' then !Outside(sql, i) else Outside(sql, i)
    ensures sql[i] == '?' && Outside(sql, i) ==>
              Count(sql, i + 1) == Count(sql, i) + 1
              && Rendered(sql, i + 1) == Rendered(sql, i) + "$" + Decimal(Count(sql, i + 1))
    ensures !(sql[i] == '?' && Outside(sql, i)) ==>
              Count(sql, i + 1) == Count(sql, i) && Rendered(sql, i + 1) == Rendered(sql, i) + [sql[i]]
  {
    QuotesStep(sql, i);
    hide Quotes, Decimal;
  }

  method ToPgPlaceholders(sql: string) returns (out: string)
    ensures out == Translation(sql)
  {
    out := "";
    var n, inString, i := 0, false, 0;
    QuotesOfNothing();
    assert sql[..0] == "";
    while i < |sql|
      invariant 0 <= i <= |sql|
      invariant out == Rendered(sql, i) && n == Count(sql, i) && inString == !Outside(sql, i)
    {
      hide Rendered, Count, Outside, Decimal;
      var c := sql[i];
      OneStep(sql, i);
      if inString {
        out := out + [c];
        if c == '\'' {
          if i + 1 < |sql| && sql[i + 1] == '\'' {
            OneStep(sql, i + 1);
            out := out + ['\''];
            i := i + 1;
          } else {
            inString := false;
          }
        }
      } else if c == '\'' {
        inString := true;
        out := out + [c];
      } else if c == '?' {
        out := out + "$";
        n := n + 1;
        out := out + Decimal(n);
      } else {
        out := out + [c];
      }
      i := i + 1;
    }
  }

  lemma QuotesOfNothing()
    ensures Quotes("") == 0
  {
  }

  // --- What the translation keeps ---------------------------------------------------------------------------

  /** The literals: the characters inside them, and all quotes. */
  function Literals(s: string): string
  {
    if s == "" then ""
    else
      var n := |s| - 1;
      Literals(s[..n]) + if s[n] == '\'' || !Outside(s, n) then [s[n]] else ""
  }

  predicate NoPlaceholders(s: string)
  {
    forall j: nat | j < |s| :: !IsPlaceholder(s, j)
  }

  lemma OneMore(s: string, c: char)
    ensures Quotes(s + [c]) == Quotes(s) + if c == '\'' then 1 else 0
    ensures Literals(s + [c]) == Literals(s) + if c == '\'' || Quotes(s) % 2 != 0 then [c] else ""
    ensures NoPlaceholders(s + [c]) <==> NoPlaceholders(s) && !(c == '?' && Quotes(s) % 2 == 0)
  {
    var t := s + [c];
    assert t[..|s|] == s;
    forall j: nat | j < |s|
      ensures IsPlaceholder(t, j) <==> IsPlaceholder(s, j)
    {
      assert t[..j] == s[..j];
    }
    assert IsPlaceholder(t, |s|) <==> c == '?' && Quotes(s) % 2 == 0;
  }

  /** Text without quotes or question marks, outside literals. */
  lemma {:induction false} PlainText(s: string, t: string)
    requires Free(t, '\'') && Free(t, '?') && Quotes(s) % 2 == 0
    ensures Quotes(s + t) == Quotes(s) && Literals(s + t) == Literals(s)
    ensures NoPlaceholders(s + t) <==> NoPlaceholders(s)
  {
    hide Quotes, Literals, NoPlaceholders;
    if t == "" {
      assert s + t == s;
    } else {
      var n := |t| - 1;
      PlainText(s, t[..n]);
      OneMore(s + t[..n], t[n]);
      assert s + t == s + t[..n] + [t[n]];
      assert Literals(s + t[..n]) + "" == Literals(s + t[..n]);
    }
  }

  lemma NumberIsPlain(n: nat)
    ensures Free("$" + Decimal(n), '\'') && Free("$" + Decimal(n), '?')
  {
    hide Decimal;
    forall i | 0 <= i < |Decimal(n)|
      ensures IsDigit(Decimal(n)[i])
    {
    }
  }

  /** The literals are untouched and no placeholder is left, for every prefix of the text. */
  lemma {:induction false} RenderedKeeps(s: string, i: nat)
    requires i <= |s|
    ensures Quotes(Rendered(s, i)) == Quotes(s[..i])
    ensures Literals(Rendered(s, i)) == Literals(s[..i])
    ensures NoPlaceholders(Rendered(s, i))
  {
    hide Quotes, Literals, NoPlaceholders, Decimal;
    if i == 0 {
      assert s[..0] == "";
      NothingLeft();
    } else {
      var k := i - 1;
      RenderedKeeps(s, k);
      OneMore(s[..k], s[k]);
      assert s[..i] == s[..k] + [s[k]];
      if IsPlaceholder(s, k) {
        NumberIsPlain(Count(s, k) + 1);
        PlainText(Rendered(s, k), Piece(s, k));
        assert Literals(s[..k]) + "" == Literals(s[..k]);
      } else {
        OneMore(Rendered(s, k), s[k]);
      }
    }
  }

  lemma NothingLeft()
    ensures NoPlaceholders("") && Literals("") == "" && Quotes("") == 0
  {
  }

  lemma {:induction false} NothingToRender(s: string, i: nat)
    requires NoPlaceholders(s) && i <= |s|
    ensures Rendered(s, i) == s[..i]
  {
    if i > 0 {
      NothingToRender(s, i - 1);
      assert s[..i] == s[..i - 1] + [s[i - 1]];
    }
  }

  /** Literals are untouched, no placeholder remains, and translating twice is translating once. */
  lemma TranslationKeepsMeaning(s: string)
    ensures Literals(Translation(s)) == Literals(s)
    ensures NoPlaceholders(Translation(s))
    ensures Translation(Translation(s)) == Translation(s)
  {
    hide Literals, NoPlaceholders, Rendered;
    RenderedKeeps(s, |s|);
    assert s[..|s|] == s;
    var t := Translation(s);
    NothingToRender(t, |t|);
    assert t[..|t|] == t;
  }

  /** The placeholders are numbered from 1 in order and everything else is copied: at each place the whole
      translation continues the translation of what is before with `$k` for the k-th placeholder, and with the
      character itself otherwise. */
  lemma PlaceholdersAreNumbered(s: string, i: nat)
    requires i < |s|
    ensures IsPlaceholder(s, i) ==> Rendered(s, i) + "$" + Decimal(Count(s, i) + 1) <= Translation(s)
    ensures !IsPlaceholder(s, i) ==> Rendered(s, i) + [s[i]] <= Translation(s)
  {
    RenderedGrows(s, i + 1, |s|);
    hide Decimal, IsPlaceholder, Count;
    assert Rendered(s, i) + ("$" + Decimal(Count(s, i) + 1)) == Rendered(s, i) + "$" + Decimal(Count(s, i) + 1);
  }

  lemma {:induction false} RenderedGrows(s: string, i: nat, j: nat)
    requires i <= j <= |s|
    ensures Rendered(s, i) <= Rendered(s, j)
    decreases j
  {
    hide Piece;
    if i < j {
      RenderedGrows(s, i, j - 1);
    }
  }
}
