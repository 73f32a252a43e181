/**
 * A Rust `String` is a byte vector that holds well-formed UTF-8. The model keeps strings that come
 * out of registers as those bytes, so `len()` is the byte length, `==` compares bytes and `+`
 * concatenates bytes. Integers are displayed in decimal, as `Display` for Rust's integer types does.
 */
module Utf8 {
  import opened Bits

  type Text = seq<byte>

  predicate IsContinuation(b: byte) { 0x80 <= b <= 0xBF }

  /**
   * The length of the well-formed UTF-8 sequence that starts the input (Table 3-7 of the Unicode
   * Standard, which `String::from_utf8` checks), or 0 when the input does not start with one.
   */
  function SequenceLength(s: Text): (n: nat)
    requires |s| > 0
    ensures n <= 4 && n <= |s|
  {
    var b := s[0];
    if b <= 0x7F then 1
    else if 0xC2 <= b <= 0xDF then
      if |s| >= 2 && IsContinuation(s[1]) then 2 else 0
    else if b == 0xE0 then
      if |s| >= 3 && 0xA0 <= s[1] <= 0xBF && IsContinuation(s[2]) then 3 else 0
    else if 0xE1 <= b <= 0xEC || 0xEE <= b <= 0xEF then
      if |s| >= 3 && IsContinuation(s[1]) && IsContinuation(s[2]) then 3 else 0
    else if b == 0xED then
      if |s| >= 3 && 0x80 <= s[1] <= 0x9F && IsContinuation(s[2]) then 3 else 0
    else if b == 0xF0 then
      if |s| >= 4 && 0x90 <= s[1] <= 0xBF && IsContinuation(s[2]) && IsContinuation(s[3]) then 4 else 0
    else if 0xF1 <= b <= 0xF3 then
      if |s| >= 4 && IsContinuation(s[1]) && IsContinuation(s[2]) && IsContinuation(s[3]) then 4 else 0
    else if b == 0xF4 then
      if |s| >= 4 && 0x80 <= s[1] <= 0x8F && IsContinuation(s[2]) && IsContinuation(s[3]) then 4 else 0
    else 0
  }

  /** `String::from_utf8(bytes).is_ok()` */
  predicate ValidUtf8(s: Text)
    decreases |s|
  {
    |s| == 0 || (SequenceLength(s) > 0 && ValidUtf8(s[SequenceLength(s)..]))
  }

  predicate IsAscii(s: Text) { forall i :: 0 <= i < |s| ==> s[i] < 0x80 }

  lemma {:induction false} AsciiIsValid(s: Text)
    requires IsAscii(s)
    ensures ValidUtf8(s)
  {
    if |s| > 0 {
      assert SequenceLength(s) == 1;
      AsciiIsValid(s[1..]);
    }
  }

  /** What follows a complete sequence does not change its length. */
  lemma SequenceLengthPrefix(s: Text, t: Text)
    requires |s| > 0 && SequenceLength(s) > 0
    ensures SequenceLength(s + t) == SequenceLength(s)
  {
    var n := SequenceLength(s);
    assert forall i :: 0 <= i < |s| ==> (s + t)[i] == s[i];
  }

  /** Appending one string to another keeps it well-formed: `String + &str` needs no check. */
  lemma {:induction false} ConcatIsValid(s: Text, t: Text)
    requires ValidUtf8(s) && ValidUtf8(t)
    ensures ValidUtf8(s + t)
    decreases |s|
  {
    if |s| == 0 {
      assert s + t == t;
    } else {
      var n := SequenceLength(s);
      SequenceLengthPrefix(s, t);
      assert (s + t)[n..] == s[n..] + t;
      ConcatIsValid(s[n..], t);
    }
  }

  /** The decimal digits of a natural number, most significant first. */
  function Digits(n: nat): (s: Text)
    ensures |s| >= 1
    ensures forall i :: 0 <= i < |s| ==> '0' as int <= s[i] <= '9' as int
  {
    if n < 10 then ['0' as int + n] else Digits(n / 10) + ['0' as int + n % 10]
  }

  /** The number a string of decimal digits denotes, as a reference for `Digits`. */
  function DigitsValue(s: Text): int
  {
    if |s| == 0 then 0 else DigitsValue(s[..|s| - 1]) * 10 + (s[|s| - 1] - '0' as int)
  }

  lemma {:induction false} DigitsRoundTrip(n: nat)
    ensures DigitsValue(Digits(n)) == n
  {
    if n >= 10 {
      var s := Digits(n);
      assert s[..|s| - 1] == Digits(n / 10);
      DigitsRoundTrip(n / 10);
    }
  }

  predicate IsDecimal(s: Text)
  {
    |s| >= 1 && (forall i :: 0 <= i < |s| ==> '0' as int <= s[i] <= '9' as int)
    && (|s| > 1 ==> s[0] != '0' as int)
  }

  lemma {:induction false} LeadingDigitValue(s: Text)
    requires |s| >= 1 && forall i :: 0 <= i < |s| ==> '0' as int <= s[i] <= '9' as int
    ensures s[0] != '0' as int ==> DigitsValue(s) >= 1
    ensures DigitsValue(s) >= 0
  {
    if |s| > 1 {
      var init := s[..|s| - 1];
      assert init[0] == s[0];
      LeadingDigitValue(init);
    }
  }

  /** Decimal text without a leading zero is exactly the digits of the number it denotes. */
  lemma {:induction false} DigitsOfValue(s: Text)
    requires IsDecimal(s)
    ensures DigitsValue(s) >= 0 && Digits(DigitsValue(s)) == s
  {
    LeadingDigitValue(s);
    var init := s[..|s| - 1];
    var d := s[|s| - 1] - '0' as int;
    if |s| == 1 {
      assert DigitsValue(s) == DigitsValue(s[..0]) * 10 + d;
      assert s == [s[0]];
    } else {
      assert init[0] == s[0];
      LeadingDigitValue(init);
      DigitsOfValue(init);
      var n := DigitsValue(s);
      assert n == DigitsValue(init) * 10 + d;
      DivModAbout(n, DigitsValue(init), d);
      assert s == init + [s[|s| - 1]];
    }
  }

  lemma DivModAbout(n: int, q: int, d: int)
    requires 0 <= d < 10 && n == q * 10 + d
    ensures n / 10 == q && n % 10 == d
  {
    DivModUnique(n, 10, q, d);
  }

  lemma {:induction false} DigitsNoLeadingZero(n: nat)
    ensures Digits(n)[0] == '0' as int <==> n == 0
  {
    if n >= 10 {
      DigitsNoLeadingZero(n / 10);
      assert Digits(n)[0] == Digits(n / 10)[0];
    }
  }

  lemma {:induction false} DigitsLength(n: nat)
    ensures n < 10 ==> |Digits(n)| == 1
    ensures 10 <= n < 100 ==> |Digits(n)| == 2
    ensures 100 <= n < 1000 ==> |Digits(n)| == 3
  {
    if n >= 10 {
      DigitsLength(n / 10);
    }
  }

  /** `Display` for a Rust integer: an optional minus sign and the decimal digits. */
  function IntegerText(i: int): (s: Text)
    ensures IsAscii(s) && |s| >= 1
    ensures i >= 0 ==> s == Digits(i)
    ensures i < 0 ==> s == ['-' as int] + Digits(-i)
  {
    if i < 0 then ['-' as int] + Digits(-i) else Digits(i)
  }

  lemma IntegerTextSign(i: int)
    ensures IntegerText(i)[0] == '-' as int <==> i < 0
  {
    if i >= 0 {
      assert IntegerText(i)[0] == Digits(i)[0];
    }
  }

  /** Decimal text determines the integer: distinct integers are displayed differently. */
  lemma IntegerTextInjective(i: int, j: int)
    requires IntegerText(i) == IntegerText(j)
    ensures i == j
  {
    IntegerTextSign(i);
    IntegerTextSign(j);
    if i >= 0 && j >= 0 {
      DigitsRoundTrip(i);
      DigitsRoundTrip(j);
    } else if i < 0 && j < 0 {
      assert Digits(-i) == IntegerText(i)[1..];
      DigitsRoundTrip(-i);
      DigitsRoundTrip(-j);
    }
  }

  /** A Dafny literal of ASCII characters as the bytes Rust would hold for it. */
  function Ascii(s: string): (t: Text)
    requires forall i :: 0 <= i < |s| ==> s[i] as int < 0x80
    ensures |t| == |s| && IsAscii(t)
    ensures forall i :: 0 <= i < |s| ==> t[i] == s[i] as int
  {
    if |s| == 0 then [] else [s[0] as int] + Ascii(s[1..])
  }
}
