/** Cell quoting shared by the two CSV encoders: `"` + value with quotes doubled + `"`. */
module Csv {
  import Text

  /** `value.replace(/"/g, '""')`. */
  function DoubleQuotes(s: string): (r: string)
    ensures |r| >= |s|
  {
    if s == [] then []
    else (if s[0] == '"' then "\"\"" else [s[0]]) + DoubleQuotes(s[1..])
  }

  /** `"${value.replace(/"/g, '""')}"`. */
  function Quote(s: string): (r: string) {
    "\"" + DoubleQuotes(s) + "\""
  }

  /** The cell as written: quoted when `needsQuotes`, bare otherwise. */
  function EscapeIf(s: string, needsQuotes: bool): (r: string) {
    if needsQuotes then Quote(s) else s
  }

  /** Reads a doubled-quote body back: each `""` becomes `"`. */
  function UndoubleQuotes(t: string): (r: string)
    decreases |t|
  {
    if t == [] then []
    else if t[0] == '"' && |t| >= 2 && t[1] == '"' then "\"" + UndoubleQuotes(t[2..])
    else [t[0]] + UndoubleQuotes(t[1..])
  }

  /** Reads a cell back: a cell in quotes loses them and its doubled quotes; any other cell is its own text. */
  function Unescape(cell: string): (r: string) {
    if |cell| >= 2 && cell[0] == '"' && cell[|cell| - 1] == '"' then UndoubleQuotes(cell[1..|cell| - 1])
    else cell
  }

  lemma {:induction false} UndoubleDoubled(s: string)
    ensures UndoubleQuotes(DoubleQuotes(s)) == s
  {
    if s != [] {
      UndoubleDoubled(s[1..]);
      var rest := DoubleQuotes(s[1..]);
      if s[0] == '"' {
        assert ("\"\"" + rest)[2..] == rest;
      } else {
        assert ([s[0]] + rest)[1..] == rest;
      }
      assert s == [s[0]] + s[1..];
    }
  }

  /** Quoting is undone by reading the cell back. */
  lemma UnescapeQuote(s: string)
    ensures Unescape(Quote(s)) == s
  {
    var q := Quote(s);
    assert q[1..|q| - 1] == DoubleQuotes(s);
    UndoubleDoubled(s);
  }

  /** Every quote of a doubled body stands next to another quote. */
  lemma {:induction false} DoubledQuotesPaired(s: string, i: int)
    requires 0 <= i < |DoubleQuotes(s)| && DoubleQuotes(s)[i] == '"'
    ensures (i + 1 < |DoubleQuotes(s)| && DoubleQuotes(s)[i + 1] == '"') || (i > 0 && DoubleQuotes(s)[i - 1] == '"')
  {
    var head := if s[0] == '"' then "\"\"" else [s[0]];
    var rest := DoubleQuotes(s[1..]);
    assert DoubleQuotes(s) == head + rest;
    if i >= |head| {
      DoubledQuotesPaired(s[1..], i - |head|);
    }
  }

  /** The number of double quotes in `t`. */
  function QuoteCount(t: string): (n: nat)
    ensures n <= |t|
  {
    if t == [] then 0 else (if t[0] == '"' then 1 else 0) + QuoteCount(t[1..])
  }

  lemma {:induction false} QuoteCountAppend(a: string, b: string)
    ensures QuoteCount(a + b) == QuoteCount(a) + QuoteCount(b)
  {
    if a == [] {
      assert a + b == b;
    } else {
      QuoteCountAppend(a[1..], b);
      assert (a + b)[1..] == a[1..] + b;
    }
  }

  lemma PrefixQuoteCount(head: string, rest: string, k: int)
    requires |head| <= k <= |head| + |rest|
    ensures QuoteCount((head + rest)[..k]) == QuoteCount(head) + QuoteCount(rest[..k - |head|])
  {
    assert (head + rest)[..k] == head + rest[..k - |head|];
    QuoteCountAppend(head, rest[..k - |head|]);
  }

  /** Putting one character, or a pair of quotes, before `rest` keeps its quote runs even. */
  lemma EvenRunsPrepend(head: string, rest: string)
    requires QuoteCount(head) % 2 == 0 && (|head| == 1 || (|head| == 2 && head[0] == '"' && head[1] == '"'))
    requires QuoteCount(rest) % 2 == 0
    requires forall k :: 0 <= k < |rest| && rest[k] != '"' ==> QuoteCount(rest[..k]) % 2 == 0
    ensures QuoteCount(head + rest) % 2 == 0
    ensures forall k :: 0 <= k < |head + rest| && (head + rest)[k] != '"' ==> QuoteCount((head + rest)[..k]) % 2 == 0
  {
    QuoteCountAppend(head, rest);
    var t := head + rest;
    forall k | 0 <= k < |t| && t[k] != '"'
      ensures QuoteCount(t[..k]) % 2 == 0
    {
      if k < |head| {
        assert t[..k] == [];
      } else {
        assert rest[k - |head|] == t[k];
        PrefixQuoteCount(head, rest, k);
      }
    }
  }

  /**
   * Quotes of a doubled body come in runs of even length: an even number of them precedes
   * every other character, and the body holds an even number in all.
   */
  lemma {:induction false} DoubledQuotesEven(s: string)
    ensures QuoteCount(DoubleQuotes(s)) % 2 == 0
    ensures forall k :: 0 <= k < |DoubleQuotes(s)| && DoubleQuotes(s)[k] != '"' ==>
      QuoteCount(DoubleQuotes(s)[..k]) % 2 == 0
  {
    if s != [] {
      var head := if s[0] == '"' then "\"\"" else [s[0]];
      DoubledQuotesEven(s[1..]);
      if s[0] == '"' {
        assert QuoteCount(head) == 2 by { assert head[1..][1..] == []; }
      } else {
        assert QuoteCount(head) == 0 by { assert head[1..] == []; }
      }
      EvenRunsPrepend(head, DoubleQuotes(s[1..]));
    }
  }

  /** Quoting adds no character other than quotes. */
  lemma {:induction false} DoubleQuotesChars(s: string, c: char)
    requires c != '"'
    ensures c in DoubleQuotes(s) <==> c in s
  {
    if s != [] {
      DoubleQuotesChars(s[1..], c);
      assert s == [s[0]] + s[1..];
    }
  }

  /** A bare cell without quotes comes back unchanged. */
  lemma UnescapeBare(s: string)
    requires '"' !in s
    ensures Unescape(s) == s
  {
    if |s| >= 2 {
      assert s[0] in s;
    }
  }
}
