/** The parts of the Java library the attachments rely on, over strings as sequences of
    characters: Integer.parseInt and Integer.toString on decimal text, Guava's
    Splitter.on(c).split, and String.toUpperCase / equalsIgnoreCase restricted to ASCII. */
module Text {

  predicate IsDigit(c: char) {
    '0' <= c <= '9'
  }

  /** One or more decimal digits: the regular expression \d+ */
  predicate IsDigits(s: string) {
    |s| > 0 && forall i :: 0 <= i < |s| ==> IsDigit(s[i])
  }

  function DigitValue(c: char): nat
    requires IsDigit(c)
  {
    c as int - '0' as int
  }

  function DigitChar(d: nat): (c: char)
    requires d < 10
    ensures IsDigit(c) && DigitValue(c) == d
  {
    ('0' as int + d) as char
  }

  /** The value of a digit string, read most significant digit first. */
  function DigitsValue(s: string): nat
    requires IsDigits(s)
    decreases |s|
  {
    if |s| == 1 then DigitValue(s[0])
    else
      assert IsDigits(s[..|s| - 1]);
      10 * DigitsValue(s[..|s| - 1]) + DigitValue(s[|s| - 1])
  }

  /** Integer.toString of a non-negative number: its shortest decimal rendering. */
  function NatToString(n: nat): (s: string)
    ensures IsDigits(s)
    ensures s[0] == '0' ==> n == 0
    decreases n
  {
    if n < 10 then [DigitChar(n)] else NatToString(n / 10) + [DigitChar(n % 10)]
  }

  lemma {:induction false} NatToStringValue(n: nat)
    ensures DigitsValue(NatToString(n)) == n
    decreases n
  {
    if n >= 10 {
      NatToStringValue(n / 10);
      var s := NatToString(n);
      assert s[..|s| - 1] == NatToString(n / 10);
    }
  }

  /** Integer.toString, and so also the text Java's string concatenation gives an int. */
  function IntToString(i: int): string {
    if i < 0 then "-" + NatToString(-i) else NatToString(i)
  }

  /** Integer text: an optional sign and one or more ASCII decimal digits. */
  predicate IsIntText(s: string) {
    IsDigits(s) || (|s| >= 2 && (s[0] == '-' || s[0] == '+') && IsDigits(s[1..]))
  }

  /** The value of integer text: the sign times the value of the digits. */
  function IntValue(s: string): int
    requires IsIntText(s)
  {
    if IsDigits(s) then DigitsValue(s)
    else if s[0] == '-' then -(DigitsValue(s[1..]) as int)
    else DigitsValue(s[1..])
  }

  /** The text Integer.parseInt accepts: integer text whose value fits in a Java int. */
  predicate ParsesAsInt(s: string) {
    IsIntText(s) && -0x8000_0000 <= IntValue(s) < 0x8000_0000
  }

  lemma IntToStringValue(i: int)
    ensures IsIntText(IntToString(i)) && IntValue(IntToString(i)) == i
  {
    var s := IntToString(i);
    if i < 0 {
      assert s[1..] == NatToString(-i);
      assert !IsDigit(s[0]);
      NatToStringValue(-i);
    } else {
      NatToStringValue(i);
    }
  }

  /** IntToString never produces the given separator when it is neither a digit nor '-'. */
  lemma IntToStringAvoids(i: int, sep: char)
    requires !IsDigit(sep) && sep != '-'
    ensures sep !in IntToString(i)
  {
    var s := IntToString(i);
    if i < 0 {
      assert s == "-" + NatToString(-i);
      assert forall k :: 1 <= k < |s| ==> s[k] == NatToString(-i)[k - 1];
    }
  }

  /** Number of occurrences of c in s. */
  function Occurrences(s: string, c: char): nat
    decreases |s|
  {
    if |s| == 0 then 0 else (if s[0] == c then 1 else 0) + Occurrences(s[1..], c)
  }

  /** The pieces joined back together with the separator between them. */
  function Join(parts: seq<string>, sep: char): string
    requires |parts| > 0
    decreases |parts|
  {
    if |parts| == 1 then parts[0] else parts[0] + [sep] + Join(parts[1..], sep)
  }

  /** Splitter.on(sep).split(s): the maximal separator-free pieces, empty pieces kept. */
  function Split(s: string, sep: char): (parts: seq<string>)
    ensures |parts| == Occurrences(s, sep) + 1
    ensures forall i :: 0 <= i < |parts| ==> sep !in parts[i]
    ensures Join(parts, sep) == s
    decreases |s|
  {
    if |s| == 0 then [""]
    else
      var rest := Split(s[1..], sep);
      if s[0] == sep then
        assert ([""] + rest)[1..] == rest;
        [""] + rest
      else
        var parts := [[s[0]] + rest[0]] + rest[1..];
        assert parts[1..] == rest[1..];
        assert |rest| > 1 ==> Join(rest, sep) == rest[0] + [sep] + Join(rest[1..], sep);
        assert s == [s[0]] + s[1..];
        parts
  }

  lemma SplitWithoutSeparator(s: string, sep: char)
    requires sep !in s
    ensures Split(s, sep) == [s]
  {
    var parts := Split(s, sep);
    assert |parts| == 1 by { OccurrencesAbsent(s, sep); }
  }

  lemma {:induction false} OccurrencesAbsent(s: string, c: char)
    requires c !in s
    ensures Occurrences(s, c) == 0
    decreases |s|
  {
    if |s| > 0 {
      assert c !in s[1..] by {
        forall k | 0 <= k < |s[1..]| ensures s[1..][k] != c { assert s[1..][k] == s[k + 1]; }
      }
      OccurrencesAbsent(s[1..], c);
    }
  }

  lemma {:induction false} OccurrencesZero(s: string, c: char)
    ensures Occurrences(s, c) == 0 <==> c !in s
    decreases |s|
  {
    if |s| > 0 {
      OccurrencesZero(s[1..], c);
      assert s == [s[0]] + s[1..];
    } else {
      OccurrencesAbsent(s, c);
    }
  }

  /** Upper-casing leaves text without lower-case ASCII letters as it is. */
  lemma ToUpperFixed(s: string)
    requires forall i :: 0 <= i < |s| ==> !('a' <= s[i] <= 'z')
    ensures ToUpper(s) == s
  {
  }

  /** Splitting "a" + sep + "b" where neither piece holds the separator gives the two pieces. */
  lemma SplitPair(a: string, b: string, sep: char)
    requires sep !in a && sep !in b
    ensures Split(a + [sep] + b, sep) == [a, b]
  {
    SplitAfterPrefix(a, b, sep);
    SplitWithoutSeparator(b, sep);
  }

  lemma {:induction false} SplitAfterPrefix(a: string, b: string, sep: char)
    requires sep !in a
    ensures Split(a + [sep] + b, sep) == [a] + Split(b, sep)
    decreases |a|
  {
    var s := a + [sep] + b;
    if |a| == 0 {
      assert s[1..] == b;
    } else {
      assert s[1..] == a[1..] + [sep] + b;
      assert sep !in a[1..] by {
        forall k | 0 <= k < |a[1..]| ensures a[1..][k] != sep { assert a[1..][k] == a[k + 1]; }
      }
      SplitAfterPrefix(a[1..], b, sep);
      assert [a[0]] + a[1..] == a;
    }
  }

  function UpperAscii(c: char): char {
    if 'a' <= c <= 'z' then (c as int - 32) as char else c
  }

  function LowerAscii(c: char): char {
    if 'A' <= c <= 'Z' then (c as int + 32) as char else c
  }

  /** String.toUpperCase, with only the ASCII letters changed. */
  function ToUpper(s: string): (u: string)
    ensures |u| == |s|
  {
    seq(|s|, i requires 0 <= i < |s| => UpperAscii(s[i]))
  }

  /** String.equalsIgnoreCase, with only the ASCII letters folded. */
  predicate EqualsIgnoreCase(s: string, t: string) {
    |s| == |t| && forall i :: 0 <= i < |s| ==> LowerAscii(s[i]) == LowerAscii(t[i])
  }
}
