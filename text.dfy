/**
 * String operations of JavaScript that the modelled code relies on:
 * `toLowerCase`, `includes`, `trim`, `split` on one character and `join`.
 */
module Text {

  /** Lower-cases an ASCII letter and leaves every other character alone. */
  function LowerChar(c: char): (r: char) {
    if 'A' <= c <= 'Z' then (c as int + 32) as char else c
  }

  /** `s.toLowerCase()`, restricted to ASCII letters. */
  function Lower(s: string): (r: string)
    ensures |r| == |s|
    ensures forall i :: 0 <= i < |s| ==> r[i] == LowerChar(s[i])
  {
    if s == [] then [] else Lower(s[..|s| - 1]) + [LowerChar(s[|s| - 1])]
  }

  /** Lower-casing twice is lower-casing once. */
  lemma LowerIdempotent(s: string)
    ensures Lower(Lower(s)) == Lower(s)
  {
    assert forall i :: 0 <= i < |s| ==> LowerChar(LowerChar(s[i])) == LowerChar(s[i]);
  }

  predicate StartsWith(s: string, prefix: string) {
    |prefix| <= |s| && s[..|prefix|] == prefix
  }

  /** `needle` occurs in `hay` starting at index `i`. */
  predicate OccursAt(hay: string, needle: string, i: int) {
    0 <= i && i + |needle| <= |hay| && hay[i..i + |needle|] == needle
  }

  /** `needle` occurs somewhere in `hay`. */
  ghost predicate IsSubstring(needle: string, hay: string) {
    exists i :: OccursAt(hay, needle, i)
  }

  /** `hay.includes(needle)`, computed by trying every start position in turn. */
  predicate Contains(hay: string, needle: string)
    decreases |hay|
  {
    StartsWith(hay, needle) || (|hay| > 0 && Contains(hay[1..], needle))
  }

  /** The search agrees with the definition of a substring. */
  lemma ContainsIffOccurs(hay: string, needle: string)
    ensures Contains(hay, needle) <==> IsSubstring(needle, hay)
  {
    if Contains(hay, needle) {
      ContainsOccurs(hay, needle);
    }
    if IsSubstring(needle, hay) {
      var i :| OccursAt(hay, needle, i);
      OccursContains(hay, needle, i);
    }
  }

  /** What the search finds is an occurrence. */
  lemma {:induction false} ContainsOccurs(hay: string, needle: string)
    requires Contains(hay, needle)
    ensures IsSubstring(needle, hay)
    decreases |hay|
  {
    if StartsWith(hay, needle) {
      assert hay[0..|needle|] == hay[..|needle|];
      assert OccursAt(hay, needle, 0);
    } else {
      ContainsOccurs(hay[1..], needle);
      var j :| OccursAt(hay[1..], needle, j);
      assert hay[1..][j..j + |needle|] == hay[j + 1..j + 1 + |needle|];
      assert OccursAt(hay, needle, j + 1);
    }
  }

  /** The search finds every occurrence. */
  lemma {:induction false} OccursContains(hay: string, needle: string, i: int)
    requires OccursAt(hay, needle, i)
    ensures Contains(hay, needle)
    decreases i
  {
    if i == 0 {
      assert hay[0..|needle|] == hay[..|needle|];
    } else {
      assert hay[1..][i - 1..i - 1 + |needle|] == hay[i..i + |needle|];
      OccursContains(hay[1..], needle, i - 1);
    }
  }

  /** Searching for a one-character string is testing membership of that character. */
  lemma {:induction false} ContainsChar(s: string, c: char)
    ensures Contains(s, [c]) <==> c in s
  {
    ContainsIffOccurs(s, [c]);
    if c in s {
      var i :| 0 <= i < |s| && s[i] == c;
      assert s[i..i + 1] == [c];
      assert OccursAt(s, [c], i);
    }
    if IsSubstring([c], s) {
      var i :| OccursAt(s, [c], i);
      assert s[i..i + 1][0] == s[i];
    }
  }

  /** The characters `String.prototype.trim` removes: JavaScript's WhiteSpace and LineTerminator. */
  predicate IsWhitespace(c: char) {
    c == '\t' || c == '\n' || c == '\U{B}' || c == '\U{C}' || c == '\r' || c == ' '
    || c == '\U{A0}' || c == '\U{1680}' || ('\U{2000}' <= c <= '\U{200A}')
    || c == '\U{2028}' || c == '\U{2029}' || c == '\U{202F}' || c == '\U{205F}'
    || c == '\U{3000}' || c == '\U{FEFF}'
  }

  function TrimStart(s: string): (r: string)
    ensures |r| <= |s|
    ensures r == [] || !IsWhitespace(r[0])
    ensures r == s[|s| - |r|..]
  {
    if |s| > 0 && IsWhitespace(s[0]) then TrimStart(s[1..]) else s
  }

  function TrimEnd(s: string): (r: string)
    ensures |r| <= |s|
    ensures r == [] || !IsWhitespace(r[|r| - 1])
    ensures r == s[..|r|]
  {
    if |s| > 0 && IsWhitespace(s[|s| - 1]) then TrimEnd(s[..|s| - 1]) else s
  }

  /** `s.trim()`: drops leading and trailing whitespace. */
  function Trim(s: string): (r: string)
    ensures |r| <= |s|
    ensures r == [] || (!IsWhitespace(r[0]) && !IsWhitespace(r[|r| - 1]))
    ensures IsSubstring(r, s)
  {
    var t := TrimStart(s);
    assert OccursAt(s, TrimEnd(t), |s| - |t|) by {
      assert s[|s| - |t|..][..|TrimEnd(t)|] == s[|s| - |t|..|s| - |t| + |TrimEnd(t)|];
    }
    TrimEnd(t)
  }

  /** A string that neither starts nor ends with whitespace is its own trim. */
  lemma TrimUntouched(s: string)
    requires s == [] || (!IsWhitespace(s[0]) && !IsWhitespace(s[|s| - 1]))
    ensures Trim(s) == s
  {
  }

  predicate AllWhitespace(s: string) {
    forall i :: 0 <= i < |s| ==> IsWhitespace(s[i])
  }

  lemma {:induction false} TrimStartEmptyIffBlank(s: string)
    ensures TrimStart(s) == [] <==> AllWhitespace(s)
    decreases |s|
  {
    if |s| > 0 && IsWhitespace(s[0]) {
      TrimStartEmptyIffBlank(s[1..]);
      assert AllWhitespace(s) <==> AllWhitespace(s[1..]) by {
        if AllWhitespace(s[1..]) {
          forall i | 0 < i < |s| ensures IsWhitespace(s[i]) { assert s[i] == s[1..][i - 1]; }
        }
      }
    }
  }

  lemma {:induction false} TrimEndKeepsFirst(s: string)
    requires |s| > 0 && !IsWhitespace(s[0])
    ensures TrimEnd(s) != []
    decreases |s|
  {
    if IsWhitespace(s[|s| - 1]) {
      TrimEndKeepsFirst(s[..|s| - 1]);
    }
  }

  /** `line.trim()` is falsy exactly when the line holds nothing but whitespace. */
  lemma TrimEmptyIffBlank(s: string)
    ensures Trim(s) == [] <==> AllWhitespace(s)
  {
    TrimStartEmptyIffBlank(s);
    if TrimStart(s) != [] {
      TrimEndKeepsFirst(TrimStart(s));
    }
  }

  /** `parts.join(sep)`. */
  function Join(sep: string, parts: seq<string>): (r: string)
    decreases |parts|
  {
    if |parts| == 0 then ""
    else if |parts| == 1 then parts[0]
    else Join(sep, parts[..|parts| - 1]) + sep + parts[|parts| - 1]
  }

  /** A prefix without the separator becomes the start of the first piece. */
  lemma {:induction false} SplitPrefix(q: string, s: string, c: char)
    requires c !in q
    ensures Split(q + s, c) == [q + Split(s, c)[0]] + Split(s, c)[1..]
    decreases |s|
  {
    if s == [] {
      assert q + s == q && q + "" == q;
      SplitNoSeparator(q, c);
    } else {
      SplitPrefix(q, s[..|s| - 1], c);
      if s[|s| - 1] == c {
        SplitPrefixAtSeparator(q, s, c);
      } else {
        SplitPrefixInPiece(q, s, c);
      }
    }
  }

  /** The step of `SplitPrefix` when the last character is the separator. */
  lemma SplitPrefixAtSeparator(q: string, s: string, c: char)
    requires s != [] && s[|s| - 1] == c
    requires Split(q + s[..|s| - 1], c) == [q + Split(s[..|s| - 1], c)[0]] + Split(s[..|s| - 1], c)[1..]
    ensures Split(q + s, c) == [q + Split(s, c)[0]] + Split(s, c)[1..]
  {
    var t := Split(s[..|s| - 1], c);
    assert (q + s)[..|q + s| - 1] == q + s[..|s| - 1];
    assert (t + [""])[1..] == t[1..] + [""];
  }

  /** The step of `SplitPrefix` when the last character extends the last piece. */
  lemma SplitPrefixInPiece(q: string, s: string, c: char)
    requires s != [] && s[|s| - 1] != c
    requires Split(q + s[..|s| - 1], c) == [q + Split(s[..|s| - 1], c)[0]] + Split(s[..|s| - 1], c)[1..]
    ensures Split(q + s, c) == [q + Split(s, c)[0]] + Split(s, c)[1..]
  {
    var t, x := Split(s[..|s| - 1], c), s[|s| - 1];
    assert (q + s)[..|q + s| - 1] == q + s[..|s| - 1];
    ExtendLastPiece(q, t, x);
  }

  /** Extending the last piece commutes with joining a prefix onto the first. */
  lemma ExtendLastPiece(q: string, t: seq<string>, x: char)
    requires |t| >= 1
    ensures var joined, u := [q + t[0]] + t[1..], t[..|t| - 1] + [t[|t| - 1] + [x]];
      joined[..|joined| - 1] + [joined[|joined| - 1] + [x]] == [q + u[0]] + u[1..]
  {
    var joined, u := [q + t[0]] + t[1..], t[..|t| - 1] + [t[|t| - 1] + [x]];
    if |t| == 1 {
      assert q + t[0] + [x] == q + (t[0] + [x]);
    } else {
      assert joined[..|joined| - 1] == [q + t[0]] + t[1..|t| - 1];
      assert u[1..] == t[1..|t| - 1] + [t[|t| - 1] + [x]];
    }
  }

  /** A joined text starts with its first part. */
  lemma {:induction false} JoinFirst(sep: string, parts: seq<string>)
    requires |parts| >= 1
    ensures StartsWith(Join(sep, parts), parts[0])
    decreases |parts|
  {
    if |parts| > 1 {
      var init := parts[..|parts| - 1];
      JoinFirst(sep, init);
      var head := Join(sep, init);
      assert Join(sep, parts)[..|head|] == head;
    }
  }

  /** `s.split(c)` for a one-character separator: the pieces between occurrences of `c`. */
  function Split(s: string, c: char): (r: seq<string>)
    ensures |r| >= 1
    ensures forall i :: 0 <= i < |r| ==> c !in r[i]
    decreases |s|
  {
    if s == [] then [""]
    else
      var t := Split(s[..|s| - 1], c);
      if s[|s| - 1] == c then t + [""]
      else t[..|t| - 1] + [t[|t| - 1] + [s[|s| - 1]]]
  }

  /** A string without the separator is split into itself alone. */
  lemma {:induction false} SplitNoSeparator(s: string, c: char)
    requires c !in s
    ensures Split(s, c) == [s]
    decreases |s|
  {
    if s != [] {
      SplitNoSeparator(s[..|s| - 1], c);
      assert s[..|s| - 1] + [s[|s| - 1]] == s;
    }
  }

  /** Splitting `s + c + p` splits `s` and adds `p`, when `p` has no separator. */
  lemma {:induction false} SplitAfterSeparator(s: string, c: char, p: string)
    requires c !in p
    ensures Split(s + [c] + p, c) == Split(s, c) + [p]
    decreases |p|
  {
    if p == [] {
      assert (s + [c] + p)[..|s + [c] + p| - 1] == s;
    } else {
      var q := p[..|p| - 1];
      SplitAfterSeparator(s, c, q);
      assert (s + [c] + p)[..|s + [c] + p| - 1] == s + [c] + q;
      assert q + [p[|p| - 1]] == p;
    }
  }

  /** Splitting on the separator undoes joining with it, when no piece contains the separator. */
  lemma {:induction false} SplitJoin(parts: seq<string>, c: char)
    requires |parts| >= 1
    requires forall i :: 0 <= i < |parts| ==> c !in parts[i]
    ensures Split(Join([c], parts), c) == parts
    decreases |parts|
  {
    if |parts| == 1 {
      SplitNoSeparator(parts[0], c);
    } else {
      var init := parts[..|parts| - 1];
      SplitJoin(init, c);
      SplitAfterSeparator(Join([c], init), c, parts[|parts| - 1]);
      assert init + [parts[|parts| - 1]] == parts;
    }
  }

  /** A joined text contains a character only if a separator or some part does. */
  lemma {:induction false} JoinChars(sep: string, parts: seq<string>, x: char)
    requires x !in sep
    requires forall i :: 0 <= i < |parts| ==> x !in parts[i]
    ensures x !in Join(sep, parts)
    decreases |parts|
  {
    if |parts| > 1 {
      JoinChars(sep, parts[..|parts| - 1], x);
    }
  }

  /** A character of any part is a character of the joined text. */
  lemma {:induction false} JoinKeeps(sep: string, parts: seq<string>, i: int, x: char)
    requires 0 <= i < |parts| && x in parts[i]
    ensures x in Join(sep, parts)
    decreases |parts|
  {
    if |parts| > 1 && i < |parts| - 1 {
      JoinKeeps(sep, parts[..|parts| - 1], i, x);
    }
  }

  /** The number of occurrences of `c` in `s`. */
  function Count(s: string, c: char): (r: nat) {
    if s == [] then 0 else Count(s[..|s| - 1], c) + (if s[|s| - 1] == c then 1 else 0)
  }

  lemma {:induction false} CountAppend(a: string, b: string, c: char)
    ensures Count(a + b, c) == Count(a, c) + Count(b, c)
    decreases |b|
  {
    if b == [] {
      assert a + b == a;
    } else {
      CountAppend(a, b[..|b| - 1], c);
      assert (a + b)[..|a + b| - 1] == a + b[..|b| - 1];
    }
  }

  lemma {:induction false} CountPositive(s: string, c: char)
    ensures c in s <==> Count(s, c) > 0
  {
    if s != [] {
      CountPositive(s[..|s| - 1], c);
      assert s == s[..|s| - 1] + [s[|s| - 1]];
    }
  }

  /** Each separator starts one more piece. */
  lemma {:induction false} SplitCount(s: string, c: char)
    ensures |Split(s, c)| == Count(s, c) + 1
  {
    if s != [] {
      SplitCount(s[..|s| - 1], c);
    }
  }

  /** Joining with `c` adds one `c` between every two parts, on top of those the parts hold. */
  lemma {:induction false} JoinCountAtLeast(parts: seq<string>, c: char, i: int)
    requires 0 <= i < |parts|
    ensures Count(Join([c], parts), c) >= |parts| - 1 + Count(parts[i], c)
    decreases |parts|
  {
    if |parts| > 1 {
      var init := parts[..|parts| - 1];
      var last := parts[|parts| - 1];
      CountAppend(Join([c], init) + [c], last, c);
      CountAppend(Join([c], init), [c], c);
      assert Count([c], c) == 1 by { assert [c][..0] == []; }
      if i < |parts| - 1 {
        JoinCountAtLeast(init, c, i);
      } else {
        JoinCountAtLeast(init, c, 0);
      }
    }
  }

  /**
   * Ordinal comparison of two strings, character code by character code, with a proper
   * prefix ordered first: -1, 0 or 1.
   */
  function Compare(a: string, b: string): (r: int)
    ensures -1 <= r <= 1
  {
    if a == [] && b == [] then 0
    else if a == [] then -1
    else if b == [] then 1
    else if a[0] < b[0] then -1
    else if a[0] > b[0] then 1
    else Compare(a[1..], b[1..])
  }

  /** Swapping the arguments negates the comparison. */
  lemma {:induction false} CompareAntisymmetric(a: string, b: string)
    ensures Compare(a, b) == -Compare(b, a)
  {
    if a != [] && b != [] && a[0] == b[0] {
      CompareAntisymmetric(a[1..], b[1..]);
    }
  }

  /** Only equal strings compare as 0. */
  lemma {:induction false} CompareZeroIffEqual(a: string, b: string)
    ensures Compare(a, b) == 0 <==> a == b
  {
    if a != [] && b != [] && a[0] == b[0] {
      CompareZeroIffEqual(a[1..], b[1..]);
      assert a == [a[0]] + a[1..];
      assert b == [b[0]] + b[1..];
    }
  }

  /** "Not after" is transitive. */
  lemma {:induction false} CompareTransitive(a: string, b: string, c: string)
    requires Compare(a, b) <= 0 && Compare(b, c) <= 0
    ensures Compare(a, c) <= 0
  {
    if a != [] && b != [] && c != [] && a[0] == b[0] && b[0] == c[0] {
      CompareTransitive(a[1..], b[1..], c[1..]);
    }
  }
}
