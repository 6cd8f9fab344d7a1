/** The handful of Kotlin string operations the modelled code relies on:
    `Int.toString`, `String.toInt`, `split` on a one-character delimiter,
    `replace`, `removeSuffix` and ASCII case-insensitive comparison. */
module Text {
  import opened Common

  const IntMin: int := -0x8000_0000
  const IntMax: int := 0x7FFF_FFFF

  /** A value that fits a Kotlin (JVM) `Int`. */
  predicate IsInt32(n: int) { IntMin <= n <= IntMax }

  predicate IsDigit(c: char) { '0' <= c <= '9' }

  predicate AllDigits(s: string) { forall i :: 0 <= i < |s| ==> IsDigit(s[i]) }

  function DigitChar(d: nat): (c: char)
    requires d < 10
    ensures IsDigit(c) && c as int - '0' as int == d
  {
    ['0', '1', '2', '3', '4', '5', '6', '7', '8', '9'][d]
  }

  function DigitValue(c: char): nat
    requires IsDigit(c)
  {
    c as int - '0' as int
  }

  /** Decimal digits of a natural number, most significant first, with no
      leading zero. */
  function FormatNat(n: nat): (s: string)
    ensures |s| >= 1 && AllDigits(s)
    ensures n >= 10 ==> s[0] != '0'
    decreases n
  {
    if n < 10 then [DigitChar(n)] else FormatNat(n / 10) + [DigitChar(n % 10)]
  }

  /** `Int.toString()`: a minus sign for negative values, then the digits. */
  function FormatInt(n: int): (s: string)
    ensures |s| >= 1
    ensures n < 0 <==> s[0] == '-'
  {
    if n < 0 then "-" + FormatNat(-n) else FormatNat(n)
  }

  /** The number a non-empty digit string denotes. */
  function DigitsValue(s: string): nat
    requires AllDigits(s)
    decreases |s|
  {
    if |s| == 0 then 0 else DigitsValue(s[..|s| - 1]) * 10 + DigitValue(s[|s| - 1])
  }

  /** `String.toInt()` restricted to ASCII digits: an optional leading `+` or
      `-`, at least one digit, and a value within the `Int` range; anything
      else is a `NumberFormatException`, here `None`. */
  function ParseInt(s: string): (r: Option<int>)
    ensures r.Some? ==> IsInt32(r.value)
    ensures r.Some? ==> |s| >= 1 && (r.value < 0 ==> s[0] == '-')
  {
    if |s| == 0 then None
    else
      var neg := s[0] == '-';
      var body := if s[0] == '-' || s[0] == '+' then s[1..] else s;
      if |body| == 0 || !AllDigits(body) then None
      else
        var v: int := if neg then -(DigitsValue(body) as int) else DigitsValue(body);
        if IsInt32(v) then Some(v) else None
  }

  lemma {:induction false} DigitsValueFormat(n: nat)
    ensures DigitsValue(FormatNat(n)) == n
    decreases n
  {
    if n >= 10 {
      var s := FormatNat(n);
      assert s[..|s| - 1] == FormatNat(n / 10);
      DigitsValueFormat(n / 10);
    }
  }

  /** Parsing what `toString` printed gives the number back, for every value
      of the `Int` range. */
  lemma ParseFormat(n: int)
    requires IsInt32(n)
    ensures ParseInt(FormatInt(n)) == Some(n)
  {
    if n < 0 {
      ParseFormatNegative(-n);
    } else {
      ParseFormatNonNegative(n);
    }
  }

  lemma ParseFormatNegative(m: nat)
    requires 1 <= m <= -IntMin
    ensures ParseInt(FormatInt(-(m as int))) == Some(-(m as int))
  {
    var body := FormatNat(m);
    DigitsValueFormat(m);
    ParseNegative(FormatInt(-(m as int)), body, -(m as int));
  }

  /** A minus sign followed by digits parses to the negated value when that
      is an `Int`. */
  lemma ParseNegative(s: string, body: string, v: int)
    requires s == "-" + body
    requires |body| >= 1 && AllDigits(body)
    requires IsInt32(v) && DigitsValue(body) == -v
    ensures ParseInt(s) == Some(v)
  {
    assert s[0] == '-';
    assert s[1..] == body;
  }

  lemma ParseFormatNonNegative(n: nat)
    requires n <= IntMax
    ensures ParseInt(FormatInt(n)) == Some(n)
  {
    var s := FormatNat(n);
    assert FormatInt(n) == s;
    assert IsDigit(s[0]);
    DigitsValueFormat(n);
  }

  /** Distinct `Int`s print differently. */
  lemma FormatInjective(a: int, b: int)
    requires IsInt32(a) && IsInt32(b) && FormatInt(a) == FormatInt(b)
    ensures a == b
  {
    ParseFormat(a);
    ParseFormat(b);
  }

  /** `split(sep)` on a one-character delimiter: every piece between two
      delimiters, empty pieces included. */
  function Split(s: string, sep: char): (parts: seq<string>)
    ensures |parts| >= 1
    ensures forall k :: 0 <= k < |parts| ==> sep !in parts[k]
    decreases |s|
  {
    if sep !in s then [s]
    else
      var i := FirstIndex(s, sep);
      [s[..i]] + Split(s[i + 1..], sep)
  }

  function FirstIndex(s: string, c: char): (i: nat)
    requires c in s
    ensures i < |s| && s[i] == c && c !in s[..i]
  {
    if s[0] == c then 0 else 1 + FirstIndex(s[1..], c)
  }

  /** Puts the pieces back together with the delimiter between them. */
  function Join(parts: seq<string>, sep: char): string
    requires |parts| >= 1
  {
    if |parts| == 1 then parts[0] else parts[0] + [sep] + Join(parts[1..], sep)
  }

  /** Splitting loses nothing: joining the pieces restores the string. */
  lemma {:induction false} JoinSplit(s: string, sep: char)
    ensures Join(Split(s, sep), sep) == s
    decreases |s|
  {
    if sep in s {
      var i := FirstIndex(s, sep);
      JoinSplit(s[i + 1..], sep);
      assert s == s[..i] + [sep] + s[i + 1..];
    }
  }

  /** A delimiter after a delimiter-free prefix ends the first piece. */
  lemma SplitAfterPiece(a: string, b: string, sep: char)
    requires sep !in a
    ensures Split(a + [sep] + b, sep) == [a] + Split(b, sep)
  {
    var s := a + [sep] + b;
    assert s[|a|] == sep;
    var i := FirstIndex(s, sep);
    assert s[..|a|] == a;
    assert i == |a|;
    assert s[..i] == a && s[i + 1..] == b;
  }

  /** Printed integers consist of digits and a leading minus sign only. */
  lemma FormatIntChars(n: int, c: char)
    requires c != '-' && !IsDigit(c)
    ensures c !in FormatInt(n)
  {
    if n < 0 {
      assert FormatInt(n) == "-" + FormatNat(-n);
    }
  }

  /** Kotlin's `String.replace(old, new)`: every non-overlapping occurrence
      of `pat`, scanning left to right, is replaced by `rep`; an empty `pat`
      matches before every character and at the end. */
  function Replace(s: string, pat: string, rep: string): (r: string)
    decreases |s|
  {
    if |pat| == 0 then rep + InterleaveAfter(s, rep)
    else if |s| < |pat| then s
    else if s[..|pat|] == pat then rep + Replace(s[|pat|..], pat, rep)
    else [s[0]] + Replace(s[1..], pat, rep)
  }

  function InterleaveAfter(s: string, rep: string): string
  {
    if |s| == 0 then [] else [s[0]] + rep + InterleaveAfter(s[1..], rep)
  }

  /** Replacing one character by another rewrites exactly the positions that
      held it and keeps the length. */
  lemma {:induction false} ReplaceChar(s: string, a: char, b: char)
    ensures |Replace(s, [a], [b])| == |s|
    ensures forall i :: 0 <= i < |s| ==>
      Replace(s, [a], [b])[i] == (if s[i] == a then b else s[i])
    decreases |s|
  {
    if |s| >= 1 {
      ReplaceChar(s[1..], a, b);
    }
  }

  /** With a one-character pattern, replacing in a concatenation replaces in
      each part. */
  lemma ReplaceCharConcat(x: string, y: string, a: char, b: char)
    ensures Replace(x + y, [a], [b]) == Replace(x, [a], [b]) + Replace(y, [a], [b])
  {
    var whole, left, right := Replace(x + y, [a], [b]), Replace(x, [a], [b]), Replace(y, [a], [b]);
    ReplaceChar(x + y, a, b);
    ReplaceChar(x, a, b);
    ReplaceChar(y, a, b);
    forall i | 0 <= i < |whole| ensures whole[i] == (left + right)[i] {
      if i < |x| {
        assert (x + y)[i] == x[i];
      } else {
        assert (x + y)[i] == y[i - |x|];
      }
    }
  }

  /** A string without the character is left unchanged. */
  lemma ReplaceCharAbsent(x: string, a: char, b: char)
    requires a !in x
    ensures Replace(x, [a], [b]) == x
  {
    ReplaceSkipsPrefix(x, [], [a], [b]);
    assert x + [] == x;
  }

  /** A prefix that does not contain the first character of the pattern is
      copied unchanged. */
  lemma {:induction false} ReplaceSkipsPrefix(p: string, s: string, pat: string, rep: string)
    requires |pat| >= 1 && pat[0] !in p
    ensures Replace(p + s, pat, rep) == p + Replace(s, pat, rep)
    decreases |p|
  {
    if |p| >= 1 {
      var t := p + s;
      assert t[0] == p[0] && p[0] != pat[0];
      if |t| >= |pat| {
        assert t[..|pat|][0] == p[0];
        assert t[..|pat|] != pat;
      }
      assert Replace(t, pat, rep) == [t[0]] + Replace(t[1..], pat, rep);
      assert t[1..] == p[1..] + s;
      assert pat[0] !in p[1..];
      ReplaceSkipsPrefix(p[1..], s, pat, rep);
      assert Replace(t[1..], pat, rep) == p[1..] + Replace(s, pat, rep);
      assert p == [p[0]] + p[1..];
      assert [p[0]] + (p[1..] + Replace(s, pat, rep)) == p + Replace(s, pat, rep);
    } else {
      assert p + s == s;
    }
  }

  /** A string made of the pattern alone is replaced as a whole. */
  lemma ReplaceWhole(pat: string, rep: string)
    requires |pat| >= 1
    ensures Replace(pat, pat, rep) == rep
  {
    assert pat[|pat|..] == [];
  }

  predicate HasSuffix(s: string, suf: string)
  {
    |suf| <= |s| && s[|s| - |suf|..] == suf
  }

  /** `removeSuffix`: drops `suf` from the end when it is there. */
  function RemoveSuffix(s: string, suf: string): (r: string)
    ensures HasSuffix(s, suf) ==> r + suf == s
    ensures !HasSuffix(s, suf) ==> r == s
  {
    if HasSuffix(s, suf) then s[..|s| - |suf|] else s
  }

  lemma RemoveSuffixOfAppend(p: string, suf: string)
    ensures RemoveSuffix(p + suf, suf) == p
  {
    assert (p + suf)[|p + suf| - |suf|..] == suf;
  }

  predicate IsAsciiLetter(c: char) { ('a' <= c <= 'z') || ('A' <= c <= 'Z') }

  /** Letters and digits only (ASCII); the empty string qualifies. */
  predicate IsAlphanumeric(s: string)
  {
    forall i :: 0 <= i < |s| ==> IsAsciiLetter(s[i]) || IsDigit(s[i])
  }

  function LowerChar(c: char): char
  {
    if 'A' <= c <= 'Z' then (c as int + 32) as char else c
  }

  /** `lowercase()` on ASCII. */
  function Lower(s: string): (r: string)
    ensures |r| == |s|
    ensures forall i :: 0 <= i < |s| ==> r[i] == LowerChar(s[i])
  {
    seq(|s|, i requires 0 <= i < |s| => LowerChar(s[i]))
  }

  /** `equals(other, ignoreCase = true)` for ASCII text. */
  predicate EqualsIgnoreCase(a: string, b: string)
  {
    Lower(a) == Lower(b)
  }

  /** Ignoring case is an equivalence that only relates strings of equal
      length whose letters agree up to case. */
  lemma EqualsIgnoreCaseIsEquivalence(a: string, b: string, c: string)
    ensures EqualsIgnoreCase(a, a)
    ensures EqualsIgnoreCase(a, b) ==> EqualsIgnoreCase(b, a)
    ensures EqualsIgnoreCase(a, b) && EqualsIgnoreCase(b, c) ==> EqualsIgnoreCase(a, c)
    ensures EqualsIgnoreCase(a, b) ==> |a| == |b|
    ensures EqualsIgnoreCase(a, b) <==> |a| == |b| && forall i :: 0 <= i < |a| ==> LowerChar(a[i]) == LowerChar(b[i])
  {
  }
}
