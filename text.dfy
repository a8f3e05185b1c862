/** The JavaScript string operations the repository relies on: the `\s` character class,
    ASCII `toLowerCase`, `replace`, `trim`, `split`, `padStart`, `endsWith`, `parseInt`
    on decimal digit strings, and number-to-string conversion. */
module Text {
  import opened Wrappers
  import opened Seqs

  /** JavaScript's `\s` (also the set `String.prototype.trim` strips): tab, line feed,
      vertical tab, form feed, carriage return, space, the Unicode space separators,
      the line and paragraph separators and the byte-order mark. */
  predicate IsWhitespace(c: char)
  {
    || c == ' ' || c == '\t' || c == '\n' || c == '\r' || c == '\U{000B}' || c == '\U{000C}'
    || c == '\U{00A0}' || c == '\U{1680}' || ('\U{2000}' <= c <= '\U{200A}')
    || c == '\U{2028}' || c == '\U{2029}' || c == '\U{202F}' || c == '\U{205F}'
    || c == '\U{3000}' || c == '\U{FEFF}'
  }

  predicate NoWhitespace(s: string)
  {
    forall i :: 0 <= i < |s| ==> !IsWhitespace(s[i])
  }

  predicate IsUpper(c: char) { 'A' <= c <= 'Z' }

  function LowerChar(c: char): char
  {
    if IsUpper(c) then (c as int + 32) as char else c
  }

  /** `s.toLowerCase()` restricted to ASCII letters. */
  function Lower(s: string): (r: string)
    ensures |r| == |s|
    ensures forall i :: 0 <= i < |s| ==> !IsUpper(r[i])
    ensures forall i :: 0 <= i < |s| ==> (IsWhitespace(r[i]) <==> IsWhitespace(s[i]))
  {
    seq(|s|, i requires 0 <= i < |s| => LowerChar(s[i]))
  }

  lemma LowerNoUpper(s: string)
    requires forall i :: 0 <= i < |s| ==> !IsUpper(s[i])
    ensures Lower(s) == s
  {
  }

  /** `s.trimStart()`: drops the leading whitespace. */
  function TrimStart(s: string): (r: string)
    ensures |r| <= |s| && r == s[|s| - |r|..]
    ensures r == [] || !IsWhitespace(r[0])
    ensures forall i :: 0 <= i < |s| - |r| ==> IsWhitespace(s[i])
  {
    if s != [] && IsWhitespace(s[0]) then TrimStart(s[1..]) else s
  }

  /** `s.trimEnd()`: drops the trailing whitespace. */
  function TrimEnd(s: string): (r: string)
    ensures |r| <= |s| && r == s[..|r|]
    ensures r == [] || !IsWhitespace(r[|r| - 1])
    ensures forall i :: |r| <= i < |s| ==> IsWhitespace(s[i])
  {
    if s != [] && IsWhitespace(s[|s| - 1]) then TrimEnd(s[..|s| - 1]) else s
  }

  /** `s.trim()`. */
  function Trim(s: string): string
  {
    TrimEnd(TrimStart(s))
  }

  lemma TrimNoWhitespace(s: string)
    requires NoWhitespace(s)
    ensures Trim(s) == s
  {
  }

  /** `s.replace(/\s+/g, rep)`: every maximal run of whitespace becomes one copy of `rep`. */
  function ReplaceWhitespaceRuns(s: string, rep: string): string
    decreases |s|
  {
    if s == [] then []
    else if IsWhitespace(s[0]) then rep + ReplaceWhitespaceRuns(TrimStart(s[1..]), rep)
    else [s[0]] + ReplaceWhitespaceRuns(s[1..], rep)
  }

  lemma {:induction false} ReplaceWhitespaceRunsClean(s: string, rep: string)
    requires NoWhitespace(rep)
    ensures NoWhitespace(ReplaceWhitespaceRuns(s, rep))
    decreases |s|
  {
    if s != [] {
      if IsWhitespace(s[0]) {
        ReplaceWhitespaceRunsClean(TrimStart(s[1..]), rep);
      } else {
        ReplaceWhitespaceRunsClean(s[1..], rep);
      }
    }
  }

  lemma {:induction false} ReplaceWhitespaceRunsCharacters(s: string, rep: string, c: char)
    requires c in ReplaceWhitespaceRuns(s, rep)
    ensures c in rep || (c in s && !IsWhitespace(c))
    decreases |s|
  {
    if s != [] {
      if IsWhitespace(s[0]) {
        var t := TrimStart(s[1..]);
        if c !in rep {
          ReplaceWhitespaceRunsCharacters(t, rep, c);
          assert c in s[1..];
        }
      } else if c != s[0] {
        ReplaceWhitespaceRunsCharacters(s[1..], rep, c);
      }
    }
  }

  lemma {:induction false} ReplaceWhitespaceRunsNone(s: string, rep: string)
    requires NoWhitespace(s)
    ensures ReplaceWhitespaceRuns(s, rep) == s
  {
    if s != [] {
      ReplaceWhitespaceRunsNone(s[1..], rep);
    }
  }

  predicate IsDigit(c: char) { '0' <= c <= '9' }

  predicate IsDigits(s: string)
  {
    forall i :: 0 <= i < |s| ==> IsDigit(s[i])
  }

  function DigitValue(c: char): nat
    requires IsDigit(c)
  {
    c as int - '0' as int
  }

  function DigitChar(d: nat): (c: char)
    requires d < 10
    ensures IsDigit(c) && DigitValue(c) == d
  {
    ('0' as int + d) as char
  }

  /** `String(n)` for a non-negative integer: its decimal digits, without leading zeros. */
  function NatToString(n: nat): (r: string)
    ensures r != [] && IsDigits(r)
    ensures |r| > 1 ==> r[0] != '0'
    ensures |r| == 1 <==> n < 10
  {
    if n < 10 then [DigitChar(n)] else NatToString(n / 10) + [DigitChar(n % 10)]
  }

  /** `String(i)` for any integer: a minus sign before the digits of a negative one. */
  function IntToString(i: int): string
  {
    if i < 0 then "-" + NatToString(-i) else NatToString(i)
  }

  /** `parseInt(s, 10)` on a string of decimal digits. */
  function ParseNat(s: string): nat
    requires IsDigits(s)
  {
    if s == [] then 0 else ParseNat(s[..|s| - 1]) * 10 + DigitValue(s[|s| - 1])
  }

  lemma {:induction false} ParseNatToString(n: nat)
    ensures ParseNat(NatToString(n)) == n
  {
    if n >= 10 {
      var s := NatToString(n);
      assert s[..|s| - 1] == NatToString(n / 10);
      ParseNatToString(n / 10);
    }
  }

  lemma {:induction false} ParseNatLeadingZero(s: string)
    requires IsDigits(s)
    ensures ParseNat("0" + s) == ParseNat(s)
  {
    if s != [] {
      var t := "0" + s;
      assert t[..|t| - 1] == "0" + s[..|s| - 1];
      ParseNatLeadingZero(s[..|s| - 1]);
    }
  }

  /** The longest prefix of `s` made of decimal digits. */
  function LeadingDigits(s: string): (r: string)
    ensures IsDigits(r) && |r| <= |s| && r == s[..|r|]
    ensures |r| < |s| ==> !IsDigit(s[|r|])
  {
    if s != [] && IsDigit(s[0]) then [s[0]] + LeadingDigits(s[1..]) else []
  }

  /** Digits followed by anything that does not start with a digit: the digits are the run. */
  lemma LeadingDigitsOf(d: string, rest: string)
    requires IsDigits(d) && (rest == [] || !IsDigit(rest[0]))
    ensures LeadingDigits(d + rest) == d
  {
    var s := d + rest;
    var r := LeadingDigits(s);
    assert s[..|d|] == d;
  }

  /** What `parseInt` reads after the leading whitespace: the text without one leading sign. */
  function Unsigned(s: string): string
  {
    var t := TrimStart(s);
    if t != [] && (t[0] == '+' || t[0] == '-') then t[1..] else t
  }

  /** `parseInt(s, 10)`: leading whitespace is skipped, then one optional `+` or `-`, then the
      longest run of decimal digits is read and the rest ignored. None stands for `NaN`, the
      result when that run is empty. */
  function ParseInt(s: string): (r: Option<int>)
    ensures s != [] && IsDigit(s[0]) ==> r == Some(ParseNat(LeadingDigits(s)) as int)
    ensures s == [] || (!IsWhitespace(s[0]) && !IsDigit(s[0]) && s[0] != '+' && s[0] != '-') ==> r.None?
    ensures r.Some? && '-' !in s ==> r.value >= 0
  {
    var t := TrimStart(s);
    assert t != [] ==> t[0] == s[|s| - |t|];
    var digits := LeadingDigits(Unsigned(s));
    if digits == [] then None
    else if t[0] == '-' then Some(-(ParseNat(digits) as int))
    else Some(ParseNat(digits) as int)
  }

  /** `parseInt` of a digit string, whatever non-digit text follows it. */
  lemma ParseIntDigitsThen(d: string, rest: string)
    requires d != [] && IsDigits(d) && (rest == [] || !IsDigit(rest[0]))
    ensures ParseInt(d + rest) == Some(ParseNat(d) as int)
  {
    assert (d + rest)[0] == d[0];
    LeadingDigitsOf(d, rest);
  }

  lemma ParseIntDigits(d: string)
    requires d != [] && IsDigits(d)
    ensures ParseInt(d) == Some(ParseNat(d) as int)
  {
    ParseIntDigitsThen(d, []);
    assert d + [] == d;
  }

  /** A `0x` or `0X` after the whitespace and sign: `parseInt` without a radix then reads hexadecimal. */
  predicate HexPrefixed(s: string)
  {
    var u := Unsigned(s);
    |u| >= 2 && u[0] == '0' && (u[1] == 'x' || u[1] == 'X')
  }

  /** Two digits then anything: no `0x` prefix. */
  lemma DigitsThenNotHex(d: string, rest: string)
    requires |d| >= 2 && IsDigits(d)
    ensures !HexPrefixed(d + rest)
  {
    var s := d + rest;
    assert s[0] == d[0] && s[1] == d[1];
    assert !IsWhitespace(s[0]);
  }

  lemma DigitsNotHex(d: string)
    requires d != [] && IsDigits(d)
    ensures !HexPrefixed(d)
  {
    assert IsDigit(d[0]) && !IsWhitespace(d[0]);
    assert TrimStart(d) == d;
    assert Unsigned(d) == d;
    assert |d| >= 2 ==> IsDigit(d[1]);
  }

  /** `s.padStart(n, [c])`. */
  function PadStart(s: string, n: nat, c: char): (r: string)
    ensures |r| == if |s| >= n then |s| else n
  {
    if |s| >= n then s else seq(n - |s|, _ => c) + s
  }

  /** `s.endsWith(suffix)`. */
  predicate EndsWith(s: string, suffix: string)
  {
    |suffix| <= |s| && s[|s| - |suffix|..] == suffix
  }

  /** `s.replace(pat, rep)` with a string pattern: only the first occurrence is replaced. */
  function ReplaceFirst(s: string, pat: string, rep: string): string
    requires pat != []
    decreases |s|
  {
    if |s| < |pat| then s
    else if s[..|pat|] == pat then rep + s[|pat|..]
    else [s[0]] + ReplaceFirst(s[1..], pat, rep)
  }

  lemma ReplaceFirstAtStart(pat: string, s: string)
    requires pat != []
    ensures ReplaceFirst(pat + s, pat, []) == s
  {
    assert (pat + s)[..|pat|] == pat;
    assert (pat + s)[|pat|..] == s;
  }

  /** `s.split(sep)` with a one-character separator: always at least one part. */
  function Split(s: string, sep: char): (parts: seq<string>)
    ensures parts != []
    ensures forall i :: 0 <= i < |parts| ==> sep !in parts[i]
    decreases |s|
  {
    var k := IndexOf(s, sep);
    if k < 0 then [s] else [s[..k]] + Split(s[k + 1..], sep)
  }

  /** `parts.join(sep)`, the inverse of `Split`. */
  function Join(parts: seq<string>, sep: char): string
    requires parts != []
  {
    if |parts| == 1 then parts[0] else parts[0] + [sep] + Join(parts[1..], sep)
  }

  lemma {:induction false} JoinSplit(s: string, sep: char)
    ensures Join(Split(s, sep), sep) == s
    decreases |s|
  {
    var k := IndexOf(s, sep);
    if k >= 0 {
      JoinSplit(s[k + 1..], sep);
      assert s == s[..k] + [sep] + s[k + 1..];
    }
  }

  lemma SplitNoSeparator(s: string, sep: char)
    requires sep !in s
    ensures Split(s, sep) == [s]
  {
  }

  lemma SplitCons(a: string, sep: char, b: string)
    requires sep !in a
    ensures Split(a + [sep] + b, sep) == [a] + Split(b, sep)
  {
    var s := a + [sep] + b;
    IndexOfConcat(a, sep, b);
    assert s[..|a|] == a;
    assert s[|a| + 1..] == b;
  }

  lemma SplitTwo(a: string, sep: char, b: string)
    requires sep !in a && sep !in b
    ensures Split(a + [sep] + b, sep) == [a, b]
  {
    var s := a + [sep] + b;
    IndexOfConcat(a, sep, b);
    assert s[..|a|] == a;
    assert s[|a| + 1..] == b;
    SplitNoSeparator(b, sep);
  }

  lemma SplitThree(x: string, sep: char, y: string, z: string)
    requires sep !in x && sep !in y && sep !in z
    ensures Split(x + [sep] + y + [sep] + z, sep) == [x, y, z]
  {
    SplitTwo(y, sep, z);
    assert x + [sep] + y + [sep] + z == x + [sep] + (y + [sep] + z);
    SplitCons(x, sep, y + [sep] + z);
  }

  lemma DigitsHaveNo(s: string, c: char)
    requires IsDigits(s) && !IsDigit(c)
    ensures c !in s
  {
  }
}
