/** C character strings: NUL-terminated arrays, decimal text and atoi. */
module CText {

  predicate IsDigit(c: char) {
    '0' <= c <= '9'
  }

  predicate IsSpace(c: char) {
    c == ' ' || '\t' <= c <= '\r'
  }

  function DigitValue(c: char): nat
    requires IsDigit(c)
  {
    c as int - '0' as int
  }

  /** The value of the digits s starts with, read after a number worth acc. */
  function DigitsFrom(s: string, acc: int): int
    decreases |s|
  {
    if s != "" && IsDigit(s[0]) then DigitsFrom(s[1..], 10 * acc + DigitValue(s[0])) else acc
  }

  function SkipSpace(s: string): (r: string)
    ensures |r| <= |s|
  {
    if s != "" && IsSpace(s[0]) then SkipSpace(s[1..]) else s
  }

  function Atoi(s: string): int
  {
    var t := SkipSpace(s);
    if t != "" && t[0] == '-' then -DigitsFrom(t[1..], 0)
    else if t != "" && t[0] == '+' then DigitsFrom(t[1..], 0)
    else DigitsFrom(t, 0)
  }

  /** The decimal text of n. */
  ghost function Decimal(n: nat): (s: string)
    ensures s != ""
  {
    var last := ['0' + (n % 10) as char];
    if n < 10 then last else Decimal(n / 10) + last
  }

  ghost predicate AllDigits(s: string) {
    forall i | 0 <= i < |s| :: IsDigit(s[i])
  }

  lemma {:induction false} DecimalIsDigits(n: nat)
    ensures AllDigits(Decimal(n))
  {
    if n >= 10 { DecimalIsDigits(n / 10); }
  }

  lemma {:induction false} DigitsAppend(s: string, c: char, acc: int)
    requires AllDigits(s) && IsDigit(c)
    ensures DigitsFrom(s + [c], acc) == 10 * DigitsFrom(s, acc) + DigitValue(c)
    decreases |s|
  {
    if s == "" {
      assert s + [c] == [c];
      assert DigitsFrom([c][1..], 10 * acc + DigitValue(c)) == 10 * acc + DigitValue(c);
    } else {
      assert (s + [c])[1..] == s[1..] + [c];
      DigitsAppend(s[1..], c, 10 * acc + DigitValue(s[0]));
    }
  }

  lemma {:induction false} DigitsOfDecimal(n: nat)
    ensures DigitsFrom(Decimal(n), 0) == n
  {
    var c := '0' + (n % 10) as char;
    if n < 10 {
      assert Decimal(n) == [c];
      assert DigitsFrom([c], 0) == DigitsFrom([c][1..], DigitValue(c));
    } else {
      DecimalIsDigits(n / 10);
      DigitsOfDecimal(n / 10);
      DigitsAppend(Decimal(n / 10), c, 0);
    }
  }

  /** atoi inverts decimal printing. */
  lemma AtoiDecimal(n: nat)
    ensures Atoi(Decimal(n)) == n
  {
    DecimalIsDigits(n);
    DigitsOfDecimal(n);
    assert IsDigit(Decimal(n)[0]);
  }

  ghost predicate AllSpaces(s: string) {
    forall i | 0 <= i < |s| :: IsSpace(s[i])
  }

  lemma {:induction false} SkipSpaces(spaces: string, s: string)
    requires AllSpaces(spaces) && (s != "" ==> !IsSpace(s[0]))
    ensures SkipSpace(spaces + s) == s
    decreases |spaces|
  {
    if spaces == "" {
      assert spaces + s == s;
    } else {
      assert (spaces + s)[1..] == spaces[1..] + s;
      SkipSpaces(spaces[1..], s);
    }
  }

  lemma {:induction false} DigitsStop(s: string, rest: string, acc: int)
    requires AllDigits(s) && (rest != "" ==> !IsDigit(rest[0]))
    ensures DigitsFrom(s + rest, acc) == DigitsFrom(s, acc)
    decreases |s|
  {
    if s == "" {
      assert s + rest == rest;
    } else {
      assert (s + rest)[1..] == s[1..] + rest;
      DigitsStop(s[1..], rest, 10 * acc + DigitValue(s[0]));
    }
  }

  /** atoi skips spaces, takes a sign and reads digits up to anything else. */
  lemma AtoiReads(spaces: string, sign: string, n: nat, rest: string)
    requires AllSpaces(spaces) && (sign == "" || sign == "+" || sign == "-") && (rest != "" ==> !IsDigit(rest[0]))
    ensures Atoi(spaces + (sign + (Decimal(n) + rest))) == if sign == "-" then -(n as int) else n
  {
    DecimalIsDigits(n);
    DigitsOfDecimal(n);
    DigitsStop(Decimal(n), rest, 0);
    var digits := Decimal(n) + rest;
    var t := sign + digits;
    assert digits[0] == Decimal(n)[0] && IsDigit(digits[0]);
    assert t[0] == if sign == "" then digits[0] else sign[0];
    SkipSpaces(spaces, t);
    assert t[|sign|..] == digits;
  }

  /** A text without a number is 0. */
  lemma AtoiNothing(spaces: string, rest: string)
    requires AllSpaces(spaces)
    requires rest != "" ==> !IsSpace(rest[0]) && !IsDigit(rest[0]) && rest[0] != '-' && rest[0] != '+'
    ensures Atoi(spaces + rest) == 0
  {
    SkipSpaces(spaces, rest);
  }
}
