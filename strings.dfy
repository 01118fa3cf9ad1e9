/**
 * The handful of .NET string operations the tool relies on, written out:
 * String.Join, String.Replace (ordinal), ToLower (ASCII letters only),
 * Int32.ToString, TextWriter.WriteLine / StreamReader.ReadLine, and the
 * ordinal string order used for sorting table names.
 */
module Strings {

  /** String.StartsWith with an ordinal comparison. */
  predicate StartsWith(s: string, prefix: string) {
    |prefix| <= |s| && s[..|prefix|] == prefix
  }

  /** A text whose first character differs from the prefix's does not start with it. */
  lemma NotStartsWith(s: string, prefix: string)
    requires prefix != [] && (s == [] || s[0] != prefix[0])
    ensures !StartsWith(s, prefix)
  {
    if |prefix| <= |s| {
      assert s[..|prefix|][0] == s[0];
    }
  }

  /** String.Join(sep, items). */
  function Join(sep: string, items: seq<string>): string
    decreases |items|
  {
    if items == [] then ""
    else if |items| == 1 then items[0]
    else items[0] + sep + Join(sep, items[1..])
  }

  /** Joining one more item adds the separator and the item. */
  lemma {:induction false} JoinSnoc(sep: string, items: seq<string>, x: string)
    requires items != []
    ensures Join(sep, items + [x]) == Join(sep, items) + sep + x
    decreases |items|
  {
    if |items| > 1 {
      assert (items + [x])[1..] == items[1..] + [x];
      JoinSnoc(sep, items[1..], x);
    } else {
      assert items + [x] == [items[0], x];
    }
  }

  /** Character-wise lowering; only ASCII letters are mapped (culture rules are not modelled). */
  function LowerChar(c: char): char {
    if 'A' <= c <= 'Z' then (c as int + 32) as char else c
  }

  function ToLower(s: string): string {
    seq(|s|, i requires 0 <= i < |s| => LowerChar(s[i]))
  }

  /** s.Replace(c.ToString(), ""): every occurrence of c removed. */
  function RemoveChar(s: string, c: char): (r: string)
    ensures c !in r
    ensures forall d :: d in r ==> d in s
    decreases |s|
  {
    if s == [] then []
    else (if s[0] == c then [] else [s[0]]) + RemoveChar(s[1..], c)
  }

  /** Removing a character that does not occur changes nothing. */
  lemma {:induction false} RemoveCharAbsent(s: string, c: char)
    requires c !in s
    ensures RemoveChar(s, c) == s
    decreases |s|
  {
    if s != [] {
      assert c !in s[1..];
      RemoveCharAbsent(s[1..], c);
      assert s == [s[0]] + s[1..];
    }
  }

  /** True when pat occurs in s at index k. */
  predicate OccursAt(s: string, pat: string, k: int) {
    0 <= k && k + |pat| <= |s| && s[k..k + |pat|] == pat
  }

  /** String.Replace(pat, rep): all non-overlapping occurrences, scanning left to right. */
  function ReplaceAll(s: string, pat: string, rep: string): string
    requires |pat| > 0
    decreases |s|
  {
    if |s| < |pat| then s
    else if s[..|pat|] == pat then rep + ReplaceAll(s[|pat|..], pat, rep)
    else [s[0]] + ReplaceAll(s[1..], pat, rep)
  }

  /** An occurrence in the tail of s is an occurrence in s, one place further on. */
  lemma OccursShift(s: string, pat: string, k: int)
    requires |s| > 0 && OccursAt(s[1..], pat, k)
    ensures OccursAt(s, pat, k + 1)
  {
    assert s[1..][k..k + |pat|] == s[k + 1..k + 1 + |pat|];
  }

  /** Replacing in a text where the pattern does not occur changes nothing. */
  lemma {:induction false} ReplaceAbsent(s: string, pat: string, rep: string)
    requires |pat| > 0
    requires forall k :: !OccursAt(s, pat, k)
    ensures ReplaceAll(s, pat, rep) == s
    decreases |s|
  {
    if |s| >= |pat| {
      assert !OccursAt(s, pat, 0);
      forall k ensures !OccursAt(s[1..], pat, k) {
        if OccursAt(s[1..], pat, k) {
          OccursShift(s, pat, k);
        }
      }
      ReplaceAbsent(s[1..], pat, rep);
      assert s == [s[0]] + s[1..];
    }
  }

  /**
   * A text with exactly one occurrence of the pattern, and no occurrence
   * starting earlier or later, has exactly that occurrence replaced.
   */
  lemma {:induction false} ReplaceSingle(a: string, pat: string, rep: string, b: string)
    requires |pat| > 0
    requires forall k :: k < |a| ==> !OccursAt(a + pat + b, pat, k)
    requires forall k :: !OccursAt(b, pat, k)
    ensures ReplaceAll(a + pat + b, pat, rep) == a + rep + b
    decreases |a|
  {
    var s := a + pat + b;
    if a == [] {
      assert s == pat + b;
      assert s[..|pat|] == pat;
      assert s[|pat|..] == b;
      ReplaceAbsent(b, pat, rep);
    } else {
      var s' := a[1..] + pat + b;
      assert !OccursAt(s, pat, 0);
      assert s[1..] == s';
      forall k | k < |a[1..]| ensures !OccursAt(s', pat, k) {
        if OccursAt(s', pat, k) {
          OccursShift(s, pat, k);
        }
      }
      ReplaceSingle(a[1..], pat, rep, b);
      assert ReplaceAll(s, pat, rep) == [a[0]] + ReplaceAll(s', pat, rep);
      assert a == [a[0]] + a[1..];
    }
  }

  /**
   * A pattern cannot occur across a separator none of whose characters is in
   * the pattern: an occurrence in x + y + z lies inside x or inside z.
   */
  lemma OccursAcross(x: string, y: string, z: string, pat: string, k: int)
    requires |pat| > 0
    requires |y| > 0 && forall i :: 0 <= i < |y| ==> y[i] !in pat
    requires OccursAt(x + y + z, pat, k)
    ensures OccursAt(x, pat, k) || OccursAt(z, pat, k - |x| - |y|)
  {
    var s := x + y + z;
    if k + |pat| <= |x| {
      assert s[k..k + |pat|] == x[k..k + |pat|];
    } else if k >= |x| + |y| {
      assert s[k..k + |pat|] == z[k - |x| - |y|..k - |x| - |y| + |pat|];
    } else {
      var i := if k <= |x| then |x| else k;
      OccurrenceChar(s, pat, k, i);
      assert false;
    }
  }

  lemma OccurrenceChar(s: string, pat: string, k: int, i: int)
    requires OccursAt(s, pat, k) && k <= i < k + |pat|
    ensures s[i] == pat[i - k] && s[i] in pat
  {
    assert s[i] == s[k..k + |pat|][i - k];
  }

  /** The decimal digit for d. */
  function DigitChar(d: nat): char
    requires d < 10
  {
    "0123456789"[d]
  }

  /** Int32.ToString for a non-negative value, in decimal without leading zeros. */
  function NatToString(n: nat): (r: string)
    ensures |r| >= 1
    decreases n
  {
    if n < 10 then [DigitChar(n)] else NatToString(n / 10) + [DigitChar(n % 10)]
  }

  /** Int32.ToString: a leading '-' for negative values. */
  function IntToString(i: int): string {
    if i < 0 then "-" + NatToString(-i) else NatToString(i)
  }

  /** Only negative numbers print with a leading '-'. */
  lemma IntToStringSign(n: int)
    ensures |IntToString(n)| > 0 && (IntToString(n)[0] == '-' <==> n < 0)
  {
    if n >= 0 {
      NatToStringNoSign(n);
    }
  }

  lemma NatToStringNoSign(n: nat)
    ensures NatToString(n)[0] != '-'
    decreases n
  {
    if n >= 10 {
      NatToStringNoSign(n / 10);
    }
  }

  /** Different numbers print differently. */
  lemma {:induction false} NatToStringInjective(a: nat, b: nat)
    requires NatToString(a) == NatToString(b)
    ensures a == b
    decreases a
  {
    var s := NatToString(a);
    if a >= 10 && b >= 10 {
      assert DigitChar(a % 10) == s[|s| - 1] == DigitChar(b % 10);
      assert NatToString(a / 10) == s[..|s| - 1] == NatToString(b / 10);
      NatToStringInjective(a / 10, b / 10);
    }
  }

  lemma IntToStringInjective(a: int, b: int)
    requires IntToString(a) == IntToString(b)
    ensures a == b
  {
    IntToStringSign(a);
    IntToStringSign(b);
    if a < 0 {
      assert b < 0;
      NegativeDigits(a);
      NegativeDigits(b);
      NatToStringInjective(-a, -b);
    } else {
      assert b >= 0;
      NatToStringInjective(a, b);
    }
  }

  /** After the '-' of a negative number come the digits of its magnitude. */
  lemma NegativeDigits(a: int)
    requires a < 0
    ensures IntToString(a)[1..] == NatToString(-a)
  {
  }

  // ---------------------------------------------------------------------------
  // Lines of text

  /** The text produced by one WriteLine per line (newline written as "\n"). */
  function Unlines(lines: seq<string>): string
    decreases |lines|
  {
    if lines == [] then "" else lines[0] + "\n" + Unlines(lines[1..])
  }

  /** Writing two runs of lines one after the other. */
  /** Concatenation regrouped. */
  lemma AppendAssoc<T>(a: seq<T>, b: seq<T>, c: seq<T>)
    ensures a + (b + c) == a + b + c
  {
  }

  lemma {:induction false} UnlinesAppend(a: seq<string>, b: seq<string>)
    ensures Unlines(a + b) == Unlines(a) + Unlines(b)
    decreases |a|
  {
    if a == [] {
      assert a + b == b;
    } else {
      assert (a + b)[1..] == a[1..] + b;
      UnlinesAppend(a[1..], b);
    }
  }

  /** The characters StreamReader.ReadLine treats as line terminators. */
  predicate IsBreak(c: char) {
    c == '\n' || c == '\r'
  }

  predicate NoBreaks(s: string) {
    forall i :: 0 <= i < |s| ==> !IsBreak(s[i])
  }

  /** Index of the first line terminator in s, or |s| when there is none. */
  function BreakIndex(s: string): (k: nat)
    ensures k <= |s| && NoBreaks(s[..k])
    ensures k < |s| ==> IsBreak(s[k])
    decreases |s|
  {
    if s == [] || IsBreak(s[0]) then 0
    else
      var k := 1 + BreakIndex(s[1..]);
      assert s[..k] == [s[0]] + s[1..][..k - 1];
      k
  }

  /**
   * The successive results of StreamReader.ReadLine until it returns null:
   * a line ends at "\n", "\r" or "\r\n"; a final line without terminator is
   * still returned; a terminator at the very end yields no extra empty line.
   */
  function ReadLines(text: string): seq<string>
    decreases |text|
  {
    if text == [] then []
    else
      var k := BreakIndex(text);
      if k == |text| then [text]
      else
        var next := if text[k] == '\r' && k + 1 < |text| && text[k + 1] == '\n' then k + 2 else k + 1;
        [text[..k]] + ReadLines(text[next..])
  }

  lemma {:induction false} BreakIndexAt(l: string, t: string)
    requires NoBreaks(l) && |t| > 0 && IsBreak(t[0])
    ensures BreakIndex(l + t) == |l|
    decreases |l|
  {
    if l != [] {
      var s := l + t;
      assert s[0] == l[0] && !IsBreak(l[0]);
      assert s[1..] == l[1..] + t;
      assert NoBreaks(l[1..]) by {
        forall i | 0 <= i < |l| - 1
          ensures !IsBreak(l[1..][i])
        {
          assert l[1..][i] == l[i + 1];
        }
      }
      BreakIndexAt(l[1..], t);
      assert BreakIndex(s) == 1 + BreakIndex(s[1..]);
    }
  }

  /** Reading back lines written with WriteLine gives the lines, when none holds a terminator. */
  lemma {:induction false} ReadLinesUnlines(lines: seq<string>)
    requires forall i :: 0 <= i < |lines| ==> NoBreaks(lines[i])
    ensures ReadLines(Unlines(lines)) == lines
    decreases |lines|
  {
    if lines != [] {
      var l := lines[0];
      var rest := Unlines(lines[1..]);
      var text := Unlines(lines);
      assert text == l + ("\n" + rest);
      BreakIndexAt(l, "\n" + rest);
      assert text[..|l|] == l;
      assert text[|l| + 1..] == rest;
      ReadLinesUnlines(lines[1..]);
    }
  }

  // ---------------------------------------------------------------------------
  // Ordinal string order (collations are not modelled)

  /** a sorts no later than b, character code by character code. */
  predicate LexLe(a: string, b: string)
    decreases |a|
  {
    a == [] || (b != [] && (a[0] < b[0] || (a[0] == b[0] && LexLe(a[1..], b[1..]))))
  }

  lemma {:induction false} LexLeTotal(a: string, b: string)
    ensures LexLe(a, b) || LexLe(b, a)
    decreases |a|
  {
    if a != [] && b != [] && a[0] == b[0] {
      LexLeTotal(a[1..], b[1..]);
    }
  }

  lemma {:induction false} LexLeTransitive(a: string, b: string, c: string)
    requires LexLe(a, b) && LexLe(b, c)
    ensures LexLe(a, c)
    decreases |a|
  {
    if a != [] && a[0] == b[0] && b[0] == c[0] {
      LexLeTransitive(a[1..], b[1..], c[1..]);
    }
  }

  lemma {:induction false} LexLeAntisymmetric(a: string, b: string)
    requires LexLe(a, b) && LexLe(b, a)
    ensures a == b
    decreases |a|
  {
    if a != [] {
      LexLeAntisymmetric(a[1..], b[1..]);
      assert a == [a[0]] + a[1..];
      assert b == [b[0]] + b[1..];
    }
  }

  lemma {:induction false} LexLeReflexive(a: string)
    ensures LexLe(a, a)
    decreases |a|
  {
    if a != [] {
      LexLeReflexive(a[1..]);
    }
  }
}
