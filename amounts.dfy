/** Amount texts as the program reads them from cells and user input.

    Amounts are whole cents (`int`), never floating point. `Parse` is the
    model of `float(...)` restricted to plain decimals with at most two
    fractional digits; `Render` is the text a written amount has in its cell.
    `IsBlank` is the test `not s.strip()`. Whitespace is the ASCII whitespace
    that `str.strip()` removes. */
module Amounts {

  import opened Wrappers

  predicate IsSpace(c: char)
  {
    ('\t' <= c <= '\r') || ('\U{1C}' <= c <= '\U{1F}') || c == ' '
  }

  /** The number of whitespace characters `s` starts with. */
  function LeadingSpaces(s: string): (k: nat)
    ensures k <= |s|
    ensures forall i :: 0 <= i < k ==> IsSpace(s[i])
    ensures k < |s| ==> !IsSpace(s[k])
    decreases |s|
  {
    if s != [] && IsSpace(s[0]) then 1 + LeadingSpaces(s[1..]) else 0
  }

  /** `s` with leading whitespace removed. */
  function TrimStart(s: string): string
  {
    s[LeadingSpaces(s)..]
  }

  /** `s` with trailing whitespace removed. */
  function TrimEnd(s: string): (r: string)
    decreases |s|
  {
    if s != [] && IsSpace(s[|s| - 1]) then TrimEnd(s[..|s| - 1]) else s
  }

  /** `str.strip()` with no arguments. */
  function Strip(s: string): string
  {
    TrimEnd(TrimStart(s))
  }

  /** A cell is blank when nothing is left of it after `strip()`. */
  predicate IsBlank(s: string)
  {
    Strip(s) == []
  }

  lemma {:induction false} TrimEndEmpty(s: string)
    ensures TrimEnd(s) == [] <==> forall i :: 0 <= i < |s| ==> IsSpace(s[i])
    decreases |s|
  {
    if s != [] && IsSpace(s[|s| - 1]) {
      TrimEndEmpty(s[..|s| - 1]);
      assert forall i :: 0 <= i < |s| - 1 ==> s[..|s| - 1][i] == s[i];
    }
  }

  /** Blankness in the sense of `strip()` is exactly "every character is whitespace". */
  lemma BlankIffAllSpace(s: string)
    ensures IsBlank(s) <==> forall i :: 0 <= i < |s| ==> IsSpace(s[i])
  {
    var k := LeadingSpaces(s);
    TrimEndEmpty(s[k..]);
    assert forall i :: k <= i < |s| ==> s[k..][i - k] == s[i];
    if TrimStart(s) != [] {
      assert !IsSpace(s[k]);
    }
  }

  predicate IsDigit(c: char)
  {
    '0' <= c <= '9'
  }

  predicate AllDigits(s: string)
  {
    forall i :: 0 <= i < |s| ==> IsDigit(s[i])
  }

  function Digit(d: nat): (c: char)
    requires d < 10
  {
    ('0' as int + d) as char
  }

  /** The value of a string of decimal digits, most significant first. */
  function DigitsValue(s: string): nat
    requires AllDigits(s)
    decreases |s|
  {
    if s == [] then 0 else DigitsValue(s[..|s| - 1]) * 10 + (s[|s| - 1] as int - '0' as int)
  }

  /** The position of the first '.' in `s`, or `|s|` when it has none. */
  function DotIndex(s: string): (k: nat)
    ensures k <= |s|
    ensures k < |s| ==> s[k] == '.'
    ensures forall i :: 0 <= i < k ==> s[i] != '.'
  {
    if s == [] || s[0] == '.' then 0 else 1 + DotIndex(s[1..])
  }

  lemma {:induction false} DotIndexAt(s: string, k: nat)
    requires k < |s| && s[k] == '.'
    requires forall i :: 0 <= i < k ==> s[i] != '.'
    ensures DotIndex(s) == k
  {
    if k > 0 {
      DotIndexAt(s[1..], k - 1);
    }
  }

  /** The cents of a fractional part of at most two digits. */
  function FractionCents(f: string): nat
    requires AllDigits(f) && |f| <= 2
  {
    if |f| == 0 then 0
    else if |f| == 1 then DigitsValue(f) * 10
    else DigitsValue(f)
  }

  /** An unsigned decimal: digits, optionally a '.' and up to two more digits,
      with at least one digit in all ("7", "7.", "7.5", ".25"). */
  function ParseUnsigned(u: string): Option<nat>
  {
    var k := DotIndex(u);
    var whole := u[..k];
    var frac := if k < |u| then u[k + 1..] else [];
    if AllDigits(whole) && AllDigits(frac) && |whole| + |frac| > 0 && |frac| <= 2 then
      Some(DigitsValue(whole) * 100 + FractionCents(frac))
    else
      None
  }

  /** The amount in cents that `float(s)` reads, for plain decimal texts;
      `None` where the text is not one. */
  function Parse(s: string): (r: Option<int>)
    ensures IsBlank(s) ==> r.None?
  {
    var t := Strip(s);
    if |t| > 0 && (t[0] == '-' || t[0] == '+') then
      match ParseUnsigned(t[1..])
      case None => None
      case Some(n) => var v: int := if t[0] == '-' then -(n as int) else n; Some(v)
    else
      match ParseUnsigned(t)
      case None => None
      case Some(n) => Some(n)
  }

  /** The decimal digits of `n`, most significant first, without leading zeros. */
  function NatDigits(n: nat): (s: string)
    ensures AllDigits(s) && |s| > 0
    decreases n
  {
    if n < 10 then [Digit(n)] else NatDigits(n / 10) + [Digit(n % 10)]
  }

  /** The text of amount `a` in its cell: an optional '-', whole units, '.', two digits. */
  function Render(a: int): string
  {
    (if a < 0 then "-" else "") + RenderUnsigned(if a < 0 then -a else a)
  }

  lemma {:induction false} NatDigitsValue(n: nat)
    ensures DigitsValue(NatDigits(n)) == n
    decreases n
  {
    if n >= 10 {
      NatDigitsValue(n / 10);
      var s := NatDigits(n);
      assert s[..|s| - 1] == NatDigits(n / 10);
    }
  }

  /** The unsigned part of a rendered amount: whole units, '.', two digits. */
  function RenderUnsigned(m: nat): string
  {
    NatDigits(m / 100) + "." + [Digit(m % 100 / 10), Digit(m % 10)]
  }

  lemma ParseRenderUnsigned(m: nat)
    ensures ParseUnsigned(RenderUnsigned(m)) == Some(m)
  {
    var d := NatDigits(m / 100);
    var f := [Digit(m % 100 / 10), Digit(m % 10)];
    var u := RenderUnsigned(m);
    assert u == d + "." + f;
    assert forall i :: 0 <= i < |d| ==> u[i] == d[i];
    DotIndexAt(u, |d|);
    assert u[..|d|] == d;
    assert u[|d| + 1..] == f;
    NatDigitsValue(m / 100);
    TwoDigitsValue(m % 100 / 10, m % 10);
  }

  /** Two digits read as a number below 100. */
  lemma TwoDigitsValue(hi: nat, lo: nat)
    requires hi < 10 && lo < 10
    ensures AllDigits([Digit(hi), Digit(lo)])
    ensures DigitsValue([Digit(hi), Digit(lo)]) == hi * 10 + lo
  {
    var f := [Digit(hi), Digit(lo)];
    assert f[..1] == [Digit(hi)];
    assert [Digit(hi)][..0] == [];
    assert DigitsValue([Digit(hi)]) == hi;
    assert DigitsValue(f) == DigitsValue(f[..1]) * 10 + lo;
  }

  /** Reading back a rendered amount gives the amount. */
  lemma ParseRender(a: int)
    ensures Parse(Render(a)) == Some(a)
  {
    var m := if a < 0 then -a else a;
    var u := RenderUnsigned(m);
    var s := Render(a);
    assert s == (if a < 0 then "-" else "") + u;
    assert s[0] == '-' || IsDigit(s[0]);
    assert IsDigit(s[|s| - 1]);
    assert TrimStart(s) == s;
    assert TrimEnd(s) == s;
    ParseRenderUnsigned(m);
    if a < 0 {
      assert s[1..] == u;
    } else {
      assert s == u;
    }
  }

  /** A rendered amount is never blank, so a reload never skips it. */
  lemma RenderNotBlank(a: int)
    ensures !IsBlank(Render(a))
  {
    var s := Render(a);
    BlankIffAllSpace(s);
    assert !IsSpace(s[|s| - 1]);
  }

  /** The integer `int(s)` reads from a plain decimal text: surrounding
      whitespace, an optional sign, then one or more digits; `None` otherwise. */
  function ParseInt(s: string): (r: Option<int>)
    ensures IsBlank(s) ==> r.None?
  {
    var t := Strip(s);
    var u := if |t| > 0 && (t[0] == '-' || t[0] == '+') then t[1..] else t;
    if |u| > 0 && AllDigits(u) then
      var n: int := DigitsValue(u);
      Some(if t[0] == '-' then -n else n)
    else
      None
  }

  /** The decimal text of an integer: an optional '-' and its digits. */
  function IntText(n: int): string
  {
    (if n < 0 then "-" else "") + NatDigits(if n < 0 then -n else n)
  }

  /** Reading back the text of an integer gives the integer. */
  lemma ParseIntText(n: int)
    ensures ParseInt(IntText(n)) == Some(n)
  {
    var m := if n < 0 then -n else n;
    var d := NatDigits(m);
    var s := IntText(n);
    assert s[0] == '-' || IsDigit(s[0]);
    assert IsDigit(s[|s| - 1]);
    assert TrimStart(s) == s;
    assert TrimEnd(s) == s;
    NatDigitsValue(m);
    if n < 0 {
      assert s[1..] == d;
    } else {
      assert s == d;
    }
  }

  /** A text `int()` reads as `n` reads as `n` whole units when read as an amount. */
  lemma ParseIntIsWholeAmount(s: string)
    requires ParseInt(s).Some?
    ensures Parse(s) == Some(ParseInt(s).value * 100)
  {
    var t := Strip(s);
    var signed := t[0] == '-' || t[0] == '+';
    var u := if signed then t[1..] else t;
    WholeUnsigned(u);
  }

  /** Digits alone, without a '.', read as that many whole units. */
  lemma WholeUnsigned(u: string)
    requires |u| > 0 && AllDigits(u)
    ensures ParseUnsigned(u) == Some(DigitsValue(u) * 100)
  {
    assert forall i :: 0 <= i < |u| ==> u[i] != '.';
    assert DotIndex(u) == |u|;
    assert u[..|u|] == u;
  }

}
