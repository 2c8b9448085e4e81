/** The string operations of the source language that the models share:
    splitting and joining, trimming, and decimal integers as text. */
module Text {
  import opened Wrappers

  predicate IsAscii(s: string) { forall c :: c in s ==> c < '\U{80}' }

  // ---- Finding a character --------------------------------------------------

  /** The position of the first `c`, or the length when there is none. */
  function Find(s: string, c: char): (i: nat)
    ensures i <= |s| && c !in s[..i]
    ensures i < |s| ==> s[i] == c
  {
    if s == "" || s[0] == c then 0
    else 1 + Find(s[1..], c)
  }

  lemma {:induction false} FindIsFirst(a: string, c: char, b: string)
    requires c !in a
    ensures Find(a + [c] + b, c) == |a|
  {
    if a != "" {
      assert (a + [c] + b)[1..] == a[1..] + [c] + b;
      FindIsFirst(a[1..], c, b);
    }
  }

  /** The position just past the last `c`, or 0 when there is none. */
  function FindLast(s: string, c: char): (i: nat)
    ensures i <= |s| && c !in s[i..]
    ensures 0 < i ==> s[i - 1] == c
  {
    if s == "" then 0
    else if s[|s| - 1] == c then |s|
    else FindLast(s[..|s| - 1], c)
  }

  lemma {:induction false} FindLastIsLast(a: string, c: char, b: string)
    requires c !in b
    ensures FindLast(a + [c] + b, c) == |a| + 1
  {
    if b != "" {
      var s := a + [c] + b;
      assert s[..|s| - 1] == a + [c] + b[..|b| - 1];
      assert s[|s| - 1] == b[|b| - 1];
      FindLastIsLast(a, c, b[..|b| - 1]);
    }
  }

  // ---- Splitting and joining ------------------------------------------------

  /** `s.split(sep)`: always at least one part. */
  function Split(s: string, sep: char): (parts: seq<string>)
    ensures 1 <= |parts|
  {
    if s == "" then [""]
    else
      var rest := Split(s[1..], sep);
      if s[0] == sep then [""] + rest
      else [[s[0]] + rest[0]] + rest[1..]
  }

  /** `sep.join(parts)`. */
  function Join(parts: seq<string>, sep: char): string {
    if |parts| == 0 then ""
    else if |parts| == 1 then parts[0]
    else parts[0] + [sep] + Join(parts[1..], sep)
  }

  lemma {:induction false} SplitOne(s: string, sep: char)
    requires sep !in s
    ensures Split(s, sep) == [s]
  {
    if s != "" {
      SplitOne(s[1..], sep);
      assert [s[0]] + s[1..] == s;
    }
  }

  /** Splitting a text at one of its separators. */
  lemma {:induction false} SplitAt(a: string, sep: char, b: string)
    ensures Split(a + [sep] + b, sep) == Split(a, sep) + Split(b, sep)
  {
    var s := a + [sep] + b;
    if a == "" {
      assert s[1..] == b;
    } else {
      assert s[1..] == a[1..] + [sep] + b;
      SplitAt(a[1..], sep, b);
    }
  }

  lemma {:induction false} SplitJoin(parts: seq<string>, sep: char)
    requires 1 <= |parts| && forall p :: p in parts ==> sep !in p
    ensures Split(Join(parts, sep), sep) == parts
  {
    SplitOne(parts[0], sep);
    if |parts| > 1 {
      SplitJoin(parts[1..], sep);
      SplitAt(parts[0], sep, Join(parts[1..], sep));
    }
  }

  // ---- Trimming -------------------------------------------------------------

  /** The characters `str.strip()` removes. */
  predicate IsSpace(c: char) {
    || '\t' <= c <= '\r' || '\U{1c}' <= c <= ' ' || c == '\U{85}' || c == '\U{a0}'
    || c == '\U{1680}' || '\U{2000}' <= c <= '\U{200a}' || c == '\U{2028}' || c == '\U{2029}'
    || c == '\U{202f}' || c == '\U{205f}' || c == '\U{3000}'
  }

  function TrimLeft(s: string): (r: string)
    ensures r == "" || !IsSpace(r[0])
    ensures |r| <= |s| && r == s[|s| - |r|..]
  {
    if s != "" && IsSpace(s[0]) then TrimLeft(s[1..]) else s
  }

  function TrimRight(s: string): (r: string)
    ensures r == "" || !IsSpace(r[|r| - 1])
    ensures r <= s
  {
    if s != "" && IsSpace(s[|s| - 1]) then TrimRight(s[..|s| - 1]) else s
  }

  function Strip(s: string): string {
    TrimRight(TrimLeft(s))
  }

  /** Removes every `c` at the end: `s.rstrip(c)`. */
  function StripRight(s: string, c: char): (r: string)
    ensures r <= s && (r == "" || r[|r| - 1] != c)
  {
    if s != "" && s[|s| - 1] == c then StripRight(s[..|s| - 1], c) else s
  }

  // ---- Integers as text -----------------------------------------------------

  predicate IsDigit(c: char) { '0' <= c <= '9' }

  /** As `hexdigest()` and `uuid::text` print it. */
  predicate IsHexDigit(c: char) { IsDigit(c) || 'a' <= c <= 'f' }

  function Digit(d: nat): (c: char)
    requires d < 10
    ensures IsDigit(c)
  {
    '0' + d as char
  }

  function DigitValue(c: char): nat
    requires IsDigit(c)
  {
    (c - '0') as nat
  }

  predicate AllDigits(s: string) { forall c :: c in s ==> IsDigit(c) }

  function NatToString(n: nat): (s: string)
    ensures s != "" && AllDigits(s)
  {
    if n < 10 then [Digit(n)] else NatToString(n / 10) + [Digit(n % 10)]
  }

  function IntToString(n: int): string {
    if n < 0 then "-" + NatToString(-n) else NatToString(n)
  }

  /** Digits with single underscores between them, as `int()` reads them. */
  function ParseDigits(s: string, acc: nat, afterDigit: bool): Option<nat> {
    if s == "" then (if afterDigit then Some(acc) else None)
    else if IsDigit(s[0]) then ParseDigits(s[1..], acc * 10 + DigitValue(s[0]), true)
    else if s[0] == '_' && afterDigit then ParseDigits(s[1..], acc, false)
    else None
  }

  function ParseTrimmed(t: string): Option<int> {
    if t == "" then None
    else
      match ParseDigits(if t[0] == '-' || t[0] == '+' then t[1..] else t, 0, false)
      case None => None
      case Some(n) => Some(if t[0] == '-' then 0 - n else n)
  }

  /** `int(s)`: surrounding blanks and one sign are accepted. */
  function ParseInt(s: string): Option<int> {
    ParseTrimmed(Strip(s))
  }

  lemma {:induction false} ParseOneMoreDigit(s: string, d: nat, acc: nat, afterDigit: bool)
    requires d < 10 && AllDigits(s)
    ensures ParseDigits(s, acc, true).Some?
    ensures ParseDigits(s + [Digit(d)], acc, afterDigit) == Some(ParseDigits(s, acc, true).value * 10 + d)
  {
    if s == "" {
      assert s + [Digit(d)] == [Digit(d)];
      assert ParseDigits([Digit(d)][1..], acc * 10 + d, true) == Some(acc * 10 + d);
    } else {
      assert (s + [Digit(d)])[1..] == s[1..] + [Digit(d)];
      ParseOneMoreDigit(s[1..], d, acc * 10 + DigitValue(s[0]), true);
    }
  }

  lemma {:induction false} ParseNatToString(n: nat, afterDigit: bool)
    ensures ParseDigits(NatToString(n), 0, afterDigit) == Some(n)
  {
    if n < 10 {
      assert [Digit(n)][1..] == "";
    } else {
      ParseNatToString(n / 10, true);
      ParseOneMoreDigit(NatToString(n / 10), n % 10, 0, afterDigit);
    }
  }

  lemma StripNothing(s: string)
    requires s == "" || (!IsSpace(s[0]) && !IsSpace(s[|s| - 1]))
    ensures Strip(s) == s
  {
  }

  lemma PrintedCharIsNoSpace(c: char)
    requires IsDigit(c) || c == '-'
    ensures !IsSpace(c)
  {
  }

  lemma ParseSignedDigits(digits: string, n: nat)
    requires digits != "" && AllDigits(digits) && ParseDigits(digits, 0, false) == Some(n)
    ensures ParseTrimmed(digits) == Some(n) && ParseTrimmed("-" + digits) == Some(0 - n)
  {
  }

  /** Printing an integer and reading it back is the identity. */
  lemma ParseIntToString(n: int)
    ensures ParseInt(IntToString(n)) == Some(n)
  {
    var magnitude: nat := if n < 0 then -n else n;
    var digits := NatToString(magnitude);
    var s := IntToString(n);
    ParseNatToString(magnitude, false);
    ParseSignedDigits(digits, magnitude);
    assert s[|s| - 1] == digits[|digits| - 1];
    PrintedCharIsNoSpace(s[0]);
    PrintedCharIsNoSpace(s[|s| - 1]);
    StripNothing(s);
  }

  /** Printed integers hold nothing but digits and a leading minus. */
  lemma IntToStringChars(n: int)
    ensures IntToString(n) != "" && forall c :: c in IntToString(n) ==> IsDigit(c) || c == '-'
  {
  }

  /** Printed integers have no leading zero, and a minus only below zero. */
  lemma {:induction false} NatToStringIsCanonical(n: nat)
    ensures NatToString(n)[0] == '0' <==> n == 0
    ensures |NatToString(n)| == 1 <==> n < 10
  {
    if n >= 10 {
      NatToStringIsCanonical(n / 10);
      assert NatToString(n)[0] == NatToString(n / 10)[0];
    }
  }

  predicate AllSpace(s: string) { forall c :: c in s ==> IsSpace(c) }

  lemma {:induction false} TrimLeftPast(blanks: string, s: string)
    requires AllSpace(blanks) && s != "" && !IsSpace(s[0])
    ensures TrimLeft(blanks + s) == s
  {
    if blanks == "" {
      assert blanks + s == s;
    } else {
      assert blanks[0] in blanks && (blanks + s)[1..] == blanks[1..] + s;
      TrimLeftPast(blanks[1..], s);
    }
  }

  lemma {:induction false} TrimRightPast(s: string, blanks: string)
    requires AllSpace(blanks) && s != "" && !IsSpace(s[|s| - 1])
    ensures TrimRight(s + blanks) == s
  {
    if blanks == "" {
      assert s + blanks == s;
    } else {
      var n := |blanks| - 1;
      assert blanks[n] in blanks && (s + blanks)[|s| + n] == blanks[n] && (s + blanks)[..|s| + n] == s + blanks[..n];
      TrimRightPast(s, blanks[..n]);
    }
  }

  /** Blanks on either side are removed, and nothing else. */
  lemma StripBlanks(before: string, s: string, after: string)
    requires AllSpace(before) && AllSpace(after) && s != "" && !IsSpace(s[0]) && !IsSpace(s[|s| - 1])
    ensures Strip(before + s + after) == s
  {
    assert before + s + after == before + (s + after);
    TrimLeftPast(before, s + after);
    TrimRightPast(s, after);
  }

  lemma {:induction false} NothingButBlanks(blanks: string)
    requires AllSpace(blanks)
    ensures TrimLeft(blanks) == "" && Strip(blanks) == ""
  {
    if blanks != "" {
      assert blanks[0] in blanks;
      NothingButBlanks(blanks[1..]);
    }
  }

  lemma ParseIntStripped(before: string, s: string, after: string)
    requires AllSpace(before) && AllSpace(after) && s != "" && !IsSpace(s[0]) && !IsSpace(s[|s| - 1])
    ensures ParseInt(before + s + after) == ParseTrimmed(s)
  {
    StripBlanks(before, s, after);
  }

  lemma PrintedHasNoBlankEnds(n: int)
    ensures var s := IntToString(n); s != "" && !IsSpace(s[0]) && !IsSpace(s[|s| - 1])
  {
    var s := IntToString(n);
    IntToStringChars(n);
    assert s[0] in s && s[|s| - 1] in s;
    PrintedCharIsNoSpace(s[0]);
    PrintedCharIsNoSpace(s[|s| - 1]);
  }

  /** `int()` reads a printed integer among blanks, and a natural number after a
      plus sign. */
  lemma ParseIntAmongBlanks(before: string, n: int, after: string)
    requires AllSpace(before) && AllSpace(after)
    ensures ParseInt(before + IntToString(n) + after) == Some(n)
  {
    PrintedHasNoBlankEnds(n);
    ParseIntStripped(before, IntToString(n), after);
    ParseIntStripped("", IntToString(n), "");
    assert "" + IntToString(n) + "" == IntToString(n);
    ParseIntToString(n);
  }

  lemma ParseIntAfterPlus(before: string, n: nat, after: string)
    requires AllSpace(before) && AllSpace(after)
    ensures ParseInt(before + ("+" + NatToString(n)) + after) == Some(n)
  {
    var digits := NatToString(n);
    assert digits[|digits| - 1] in digits;
    PrintedCharIsNoSpace(digits[|digits| - 1]);
    ParseIntStripped(before, "+" + digits, after);
    ParseNatToString(n, false);
    assert ("+" + digits)[1..] == digits;
  }
}
