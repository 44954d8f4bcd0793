/**
 * The number-to-text and text-to-number conversions of JavaScript used by the
 * modelled code: `Number.prototype.toString`, `toLocaleString` with en-US digit
 * grouping, and `parseInt` without a radix. Numbers are integers here.
 */
module Numbers {
  import opened Wrappers
  import opened Text

  predicate IsDigit(c: char) {
    '0' <= c <= '9'
  }

  function DigitChar(d: nat): (c: char)
    requires d < 10
    ensures IsDigit(c) && c as int - '0' as int == d
  {
    ('0' as int + d) as char
  }

  /** `n.toString()` for a non-negative integer: decimal digits without leading zeros. */
  function NatToString(n: nat): (r: string)
    ensures |r| >= 1
    ensures forall i :: 0 <= i < |r| ==> IsDigit(r[i])
    ensures r[0] == '0' ==> n == 0
  {
    if n < 10 then [DigitChar(n)] else NatToString(n / 10) + [DigitChar(n % 10)]
  }

  /** `n.toString()` for an integer. */
  function IntToString(n: int): (r: string) {
    if n < 0 then "-" + NatToString(-n) else NatToString(n)
  }

  // ---------------------------------------------------------------------------
  // en-US grouping, as `toLocaleString()` prints an integer.

  /** The three digits of `r`, with leading zeros. */
  function Pad3(r: nat): (s: string)
    requires r < 1000
    ensures |s| == 3 && ',' !in s
  {
    [DigitChar(r / 100), DigitChar(r / 10 % 10), DigitChar(r % 10)]
  }

  /** `n.toLocaleString('en-US')` for a non-negative integer: a comma between groups of three digits. */
  function NatGrouped(n: nat): (r: string)
    ensures |r| >= 1 && IsDigit(r[0])
  {
    if n < 1000 then NatToString(n) else NatGrouped(n / 1000) + "," + Pad3(n % 1000)
  }

  /** `n.toLocaleString('en-US')` for an integer. */
  function Grouped(n: int): (r: string)
    ensures |r| >= 1 && (r[0] == '-' <==> n < 0)
  {
    if n < 0 then "-" + NatGrouped(-n) else NatGrouped(n)
  }

  /** `s` with every comma removed. */
  function RemoveCommas(s: string): (r: string)
    ensures ',' !in r
  {
    if s == [] then []
    else RemoveCommas(s[..|s| - 1]) + (if s[|s| - 1] == ',' then [] else [s[|s| - 1]])
  }

  lemma {:induction false} RemoveCommasAppend(a: string, b: string)
    ensures RemoveCommas(a + b) == RemoveCommas(a) + RemoveCommas(b)
    decreases |b|
  {
    if b == [] {
      assert a + b == a;
    } else {
      RemoveCommasAppend(a, b[..|b| - 1]);
      assert (a + b)[..|a + b| - 1] == a + b[..|b| - 1];
      assert (a + b)[|a + b| - 1] == b[|b| - 1];
    }
  }

  lemma {:induction false} RemoveCommasNone(s: string)
    requires ',' !in s
    ensures RemoveCommas(s) == s
    decreases |s|
  {
    if s != [] {
      RemoveCommasNone(s[..|s| - 1]);
    }
  }

  lemma ThousandsDigits(n: nat)
    requires n >= 1000
    ensures n / 10 >= 10 && n / 100 >= 10
    ensures n / 10 / 10 == n / 100 && n / 100 / 10 == n / 1000
    ensures n % 10 == n % 1000 % 10
    ensures n / 10 % 10 == n % 1000 / 10 % 10
    ensures n / 100 % 10 == n % 1000 / 100
  {
    var q, r := n / 1000, n % 1000;
    var a, b, c := r / 100, r / 10 % 10, r % 10;
    assert r == 100 * a + 10 * b + c;
    assert n == 1000 * q + 100 * a + 10 * b + c;
    assert n / 10 == 100 * q + 10 * a + b;
    assert n / 100 == 10 * q + a;
  }

  /** The last three digits of a number of at least four digits are the digits of its remainder by 1000. */
  lemma NatToStringThousands(n: nat)
    requires n >= 1000
    ensures NatToString(n) == NatToString(n / 1000) + Pad3(n % 1000)
  {
    ThousandsDigits(n);
    var r := n % 1000;
    assert NatToString(n) == NatToString(n / 10) + [DigitChar(r % 10)];
    assert NatToString(n / 10) == NatToString(n / 100) + [DigitChar(r / 10 % 10)];
    assert NatToString(n / 100) == NatToString(n / 1000) + [DigitChar(r / 100)];
  }

  /** Dropping the commas of `head,p` when `p` has none. */
  lemma RemoveCommasAroundComma(head: string, p: string)
    requires ',' !in p
    ensures RemoveCommas(head + "," + p) == RemoveCommas(head) + p
  {
    var withComma := head + ",";
    assert RemoveCommas(",") == [] by { assert ","[..0] == []; }
    RemoveCommasAppend(head, ",");
    assert RemoveCommas(withComma) == RemoveCommas(head);
    RemoveCommasAppend(withComma, p);
    RemoveCommasNone(p);
  }

  /** Deleting the grouping commas gives back the plain decimal digits. */
  lemma {:induction false} GroupedDigits(n: nat)
    ensures RemoveCommas(NatGrouped(n)) == NatToString(n)
    decreases n
  {
    if n < 1000 {
      RemoveCommasNone(NatToString(n));
    } else {
      var head, p := NatGrouped(n / 1000), Pad3(n % 1000);
      assert NatGrouped(n) == head + "," + p;
      GroupedDigits(n / 1000);
      RemoveCommasAroundComma(head, p);
      NatToStringThousands(n);
    }
  }

  /** The same for a signed integer: the locale form with its commas dropped is `toString()`. */
  lemma SignedGroupedDigits(n: int)
    ensures RemoveCommas(Grouped(n)) == IntToString(n)
  {
    GroupedDigits(if n < 0 then -n else n);
    if n < 0 {
      RemoveCommasMinus(NatGrouped(-n));
    }
  }

  /** Every character of `g` is a decimal digit. */
  predicate AllDigits(g: string) {
    forall j :: 0 <= j < |g| ==> IsDigit(g[j])
  }

  /** A number below 1000 is written with one to three digits. */
  lemma ShortNatToString(n: nat)
    requires n < 1000
    ensures 1 <= |NatToString(n)| <= 3
  {
    if n >= 10 {
      assert NatToString(n) == NatToString(n / 10) + [DigitChar(n % 10)];
      if n >= 100 {
        assert NatToString(n / 10) == NatToString(n / 100) + [DigitChar(n / 10 % 10)];
      }
    }
  }

  /**
   * The en-US group layout: a first group of one to three digits, then groups of exactly
   * three digits.
   */
  predicate ThousandsGroups(groups: seq<string>) {
    |groups| >= 1 && 1 <= |groups[0]| <= 3
    && (forall i :: 1 <= i < |groups| ==> |groups[i]| == 3)
    && (forall i :: 0 <= i < |groups| ==> AllDigits(groups[i]))
  }

  /** Appending a group of three digits keeps the layout and the first group. */
  lemma ThousandsGroupsAppend(groups: seq<string>, p: string)
    requires ThousandsGroups(groups) && |p| == 3 && AllDigits(p)
    ensures ThousandsGroups(groups + [p]) && (groups + [p])[0] == groups[0]
  {
  }

  /**
   * The groups between the commas of the en-US form have the en-US layout, and the first
   * one starts with `0` only for the number 0.
   */
  lemma {:induction false} NatGroupedShape(n: nat)
    ensures ThousandsGroups(Split(NatGrouped(n), ','))
    ensures Split(NatGrouped(n), ',')[0][0] == '0' ==> n == 0
    decreases n
  {
    if n < 1000 {
      ShortNatToString(n);
      SplitNoSeparator(NatToString(n), ',');
    } else {
      var prev := Split(NatGrouped(n / 1000), ',');
      var p := Pad3(n % 1000);
      NatGroupedShape(n / 1000);
      SplitAfterSeparator(NatGrouped(n / 1000), ',', p);
      assert NatGrouped(n) == NatGrouped(n / 1000) + [','] + p;
      ThousandsGroupsAppend(prev, p);
    }
  }

  /** A minus sign in front of the en-US form joins its first group. */
  lemma MinusJoinsFirstGroup(m: nat)
    ensures var groups := Split(NatGrouped(m), ',');
      Split("-" + NatGrouped(m), ',') == ["-" + groups[0]] + groups[1..]
  {
    assert ',' !in "-";
    SplitPrefix("-", NatGrouped(m), ',');
  }

  /**
   * The groups of a signed amount: those of its magnitude, which have the en-US layout, with
   * the minus sign leading the first group.
   */
  lemma GroupedShape(n: int)
    ensures ThousandsGroups(Split(NatGrouped(if n < 0 then -n else n), ','))
    ensures var magnitude := Split(NatGrouped(if n < 0 then -n else n), ',');
      Split(Grouped(n), ',') == [(if n < 0 then "-" else "") + magnitude[0]] + magnitude[1..]
  {
    NatGroupedShape(if n < 0 then -n else n);
    if n < 0 {
      MinusJoinsFirstGroup(-n);
    } else {
      var magnitude := Split(NatGrouped(n), ',');
      assert "" + magnitude[0] == magnitude[0];
      assert magnitude == [magnitude[0]] + magnitude[1..];
    }
  }

  lemma RemoveCommasMinus(g: string)
    ensures RemoveCommas("-" + g) == "-" + RemoveCommas(g)
  {
    RemoveCommasAppend("-", g);
    RemoveCommasNone("-");
  }

  // ---------------------------------------------------------------------------
  // parseInt(s) with no radix argument.

  /** The value of a hexadecimal digit of either case, if `c` is one. */
  function HexDigitValue(c: char): (r: Option<nat>) {
    if '0' <= c <= '9' then Some(c as int - '0' as int)
    else if 'a' <= c <= 'f' then Some(c as int - 'a' as int + 10)
    else if 'A' <= c <= 'F' then Some(c as int - 'A' as int + 10)
    else None
  }

  predicate IsRadixDigit(c: char, radix: nat) {
    HexDigitValue(c).Some? && HexDigitValue(c).value < radix
  }

  /** The longest prefix of `s` made of digits in `radix`. */
  function LeadingDigits(s: string, radix: nat): (r: string)
    ensures |r| <= |s| && r == s[..|r|]
    ensures forall i :: 0 <= i < |r| ==> IsRadixDigit(r[i], radix)
    ensures |r| < |s| ==> !IsRadixDigit(s[|r|], radix)
  {
    if s != [] && IsRadixDigit(s[0], radix) then [s[0]] + LeadingDigits(s[1..], radix) else []
  }

  /** The number that a string of digits denotes in `radix`, most significant digit first. */
  function DigitsValue(ds: string, radix: nat): (r: nat) {
    if ds == [] then 0
    else DigitsValue(ds[..|ds| - 1], radix) * radix + HexDigitValue(ds[|ds| - 1]).GetOr(0)
  }

  /**
   * The digits after the sign: hexadecimal after a `0x`/`0X` prefix, decimal otherwise,
   * up to the first character that is not a digit; `None` when there is no digit.
   */
  function ParseMagnitude(u: string): (r: Option<nat>) {
    var hex := |u| >= 2 && u[0] == '0' && (u[1] == 'x' || u[1] == 'X');
    var radix := if hex then 16 else 10;
    var z := LeadingDigits(if hex then u[2..] else u, radix);
    if z == [] then None else Some(DigitsValue(z, radix))
  }

  /** The sign JavaScript reads before the digits, and the text after it. */
  function ApplySign(t: string, magnitude: Option<nat>): (r: Option<int>) {
    match magnitude
    case None => None
    case Some(m) => var v: int := m; if |t| > 0 && t[0] == '-' then Some(-v) else Some(v)
  }

  function AfterSign(t: string): (r: string) {
    if |t| > 0 && (t[0] == '-' || t[0] == '+') then t[1..] else t
  }

  /**
   * `parseInt(s)`: skip leading whitespace, take an optional sign, then read the magnitude.
   * `None` is JavaScript's `NaN`, the result when no digit is read.
   */
  function ParseInt(s: string): (r: Option<int>)
    ensures TrimStart(s) == [] ==> r.None?
    ensures r.Some? && r.value < 0 ==> TrimStart(s)[0] == '-'
  {
    var t := TrimStart(s);
    ApplySign(t, ParseMagnitude(AfterSign(t)))
  }

  lemma {:induction false} LeadingDecimalDigits(ds: string, rest: string)
    requires forall i :: 0 <= i < |ds| ==> IsDigit(ds[i])
    requires rest == [] || !IsDigit(rest[0])
    ensures LeadingDigits(ds + rest, 10) == ds
    decreases |ds|
  {
    if ds == [] {
      assert ds + rest == rest;
    } else {
      LeadingDecimalDigits(ds[1..], rest);
      assert (ds + rest)[1..] == ds[1..] + rest;
    }
  }

  lemma {:induction false} DecimalValue(n: nat)
    ensures DigitsValue(NatToString(n), 10) == n
    decreases n
  {
    if n >= 10 {
      DecimalValue(n / 10);
      var s := NatToString(n);
      assert s[..|s| - 1] == NatToString(n / 10);
    }
  }

  lemma MagnitudeOfDecimal(m: nat, rest: string)
    requires rest == [] || (!IsDigit(rest[0]) && rest[0] != 'x' && rest[0] != 'X')
    ensures ParseMagnitude(NatToString(m) + rest) == Some(m)
  {
    var digits := NatToString(m);
    var u := digits + rest;
    assert !(|u| >= 2 && u[0] == '0' && (u[1] == 'x' || u[1] == 'X')) by {
      if |u| >= 2 && u[0] == '0' {
        assert m == 0 && |digits| == 1 && u[1] == rest[0];
      }
    }
    LeadingDecimalDigits(digits, rest);
    DecimalValue(m);
  }

  lemma ParseNegativeToString(n: int, rest: string)
    requires n < 0
    requires rest == [] || (!IsDigit(rest[0]) && rest[0] != 'x' && rest[0] != 'X')
    ensures ParseInt(IntToString(n) + rest) == Some(n)
  {
    var u := NatToString(-n) + rest;
    assert IntToString(n) + rest == "-" + u;
    MagnitudeOfDecimal(-n, rest);
    SignedText(u, -n);
  }

  /** A text that starts with a minus sign is read as the negated magnitude after it. */
  lemma SignedText(u: string, m: nat)
    requires ParseMagnitude(u) == Some(m)
    ensures ParseInt("-" + u) == Some(-(m as int))
  {
    var s := "-" + u;
    assert s[0] == '-' && !IsWhitespace(s[0]);
    assert TrimStart(s) == s;
    assert s[1..] == u;
  }

  lemma ParseNonNegativeToString(m: nat, rest: string)
    requires rest == [] || (!IsDigit(rest[0]) && rest[0] != 'x' && rest[0] != 'X')
    ensures ParseInt(IntToString(m) + rest) == Some(m)
  {
    var u := NatToString(m) + rest;
    assert IntToString(m) + rest == u;
    assert IsDigit(u[0]);
    MagnitudeOfDecimal(m, rest);
    UnsignedText(u, m);
  }

  /** A text that starts with a digit is read as its magnitude. */
  lemma UnsignedText(u: string, m: nat)
    requires u != [] && IsDigit(u[0])
    requires ParseMagnitude(u) == Some(m)
    ensures ParseInt(u) == Some(m)
  {
    assert !IsWhitespace(u[0]);
    assert TrimStart(u) == u;
    assert AfterSign(u) == u;
  }

  /**
   * `parseInt` reads back what `toString()` wrote, whatever text follows, so long as that
   * text does not continue the number (a digit) or turn a lone `0` into a hex prefix.
   */
  lemma ParseIntToString(n: int, rest: string)
    requires rest == [] || (!IsDigit(rest[0]) && rest[0] != 'x' && rest[0] != 'X')
    ensures ParseInt(IntToString(n) + rest) == Some(n)
  {
    if n < 0 {
      ParseNegativeToString(n, rest);
    } else {
      ParseNonNegativeToString(n, rest);
    }
  }
}
