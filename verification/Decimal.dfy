/** Decimal text of numbers, and the C library's way of reading it back. */
module Decimal {

  function Digit(d: int): (c: char)
    requires 0 <= d < 10
    ensures IsDigit(c) && DigitValue(c) == d
  {
    '0' + d as char
  }

  predicate IsDigit(c: char) {
    '0' <= c <= '9'
  }

  function DigitValue(c: char): (d: nat)
    requires IsDigit(c)
    ensures d < 10
  {
    c as int - '0' as int
  }

  // The canonical text: no leading zero but for 0 itself.
  function Print(n: nat): (s: string)
    ensures s != []
    ensures forall i :: 0 <= i < |s| ==> IsDigit(s[i])
    ensures s[0] == '0' ==> n == 0 && s == "0"
  {
    if n < 10 then [Digit(n)] else Print(n / 10) + [Digit(n % 10)]
  }

  // The digits at the front of t, read as the continuation of a number that is v so far.
  function ReadOn(v: nat, t: string): nat
    decreases |t|
  {
    if t != [] && IsDigit(t[0]) then ReadOn(10 * v + DigitValue(t[0]), t[1..]) else v
  }

  predicate IsSpace(c: char) {
    c == ' ' || '\t' <= c <= '\r'
  }

  function SkipSpace(t: string): string {
    if t != [] && IsSpace(t[0]) then SkipSpace(t[1..]) else t
  }

  // atoi, for numbers that fit an int
  function Atoi(t: string): int {
    var u := SkipSpace(t);
    if u == [] then 0
    else if u[0] == '-' then -(ReadOn(0, u[1..]) as int)
    else if u[0] == '+' then ReadOn(0, u[1..])
    else ReadOn(0, u)
  }

  lemma {:induction false} ReadPrinted(n: nat, rest: string)
    ensures ReadOn(0, Print(n) + rest) == ReadOn(n, rest)
  {
    if n < 10 {
      assert (Print(n) + rest)[1..] == rest;
    } else {
      var tail := [Digit(n % 10)] + rest;
      assert Print(n) + rest == Print(n / 10) + tail;
      ReadPrinted(n / 10, tail);
      assert tail[1..] == rest;
    }
  }

  lemma AtoiPrinted(n: nat, rest: string)
    requires rest != [] ==> !IsDigit(rest[0])
    ensures Atoi(Print(n) + rest) == n
  {
    assert (Print(n) + rest)[0] == Print(n)[0];
    ReadPrinted(n, rest);
  }

  lemma AtoiMinus(n: nat, rest: string)
    requires rest != [] ==> !IsDigit(rest[0])
    ensures Atoi(['-'] + Print(n) + rest) == -(n as int)
  {
    var t := ['-'] + Print(n) + rest;
    assert t[0] == '-' && t[1..] == Print(n) + rest;
    ReadPrinted(n, rest);
    NoDigit(n, rest);
    hide ReadOn, Print;
  }

  lemma NoDigit(n: nat, rest: string)
    requires rest != [] ==> !IsDigit(rest[0])
    ensures ReadOn(n, rest) == n
  {
  }
}
