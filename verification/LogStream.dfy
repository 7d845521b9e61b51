/** LogStream's integer formatting: digits written lowest first through a moving position,
    then reversed in place. */
module LogStreams {
  import opened Decimal
  import opened LogBuffers

  const MAX_NUMERIC_SIZE: nat := 32
  const INT64_MIN: int := -0x8000_0000_0000_0000
  const UINT64_MAX: int := 0xFFFF_FFFF_FFFF_FFFF

  // ----- what the text should be

  function Abs(v: int): nat {
    if v < 0 then -v else v
  }

  predicate Digits(t: string) {
    t != [] && forall i :: 0 <= i < |t| ==> IsDigit(t[i])
  }

  // Digits, with a minus sign in front or not, and no zero in front but that of "0".
  predicate Canonical(t: string) {
    && t != []
    && Digits(if t[0] == '-' then t[1..] else t)
    && (t[0] == '0' ==> t == "0") && (t[0] == '-' ==> t[1] != '0')
  }

  // The decimal text of an integer.
  function Text(v: int): string {
    if v < 0 then ['-'] + Print(-v) else Print(v)
  }

  // It is canonical, with a sign exactly when the integer is negative.
  lemma TextIsCanonical(v: int)
    ensures Canonical(Text(v)) && (Text(v)[0] == '-' <==> v < 0)
  {
  }

  // No other text is canonical and reads as the integer.
  lemma OnlyText(t: string)
    requires Canonical(t)
    ensures Text(Atoi(t)) == t
  {
    var d := if t[0] == '-' then t[1..] else t;
    assert t == if t[0] == '-' then ['-'] + d else d;
    PrintOfDigits(d);
    LeadingDigit(0, d);
  }

  lemma {:induction false} ReadLast(v: nat, s: string, c: char)
    requires IsDigit(c) && forall i :: 0 <= i < |s| ==> IsDigit(s[i])
    ensures ReadOn(v, s + [c]) == 10 * ReadOn(v, s) + DigitValue(c)
    decreases |s|
  {
    if s == [] {
      assert [] + [c] == [c] && ReadOn(10 * v + DigitValue(c), [c][1..]) == 10 * v + DigitValue(c);
    } else {
      assert (s + [c])[1..] == s[1..] + [c];
      ReadLast(10 * v + DigitValue(s[0]), s[1..], c);
    }
  }

  // A number that does not start with zero is none.
  lemma {:induction false} LeadingDigit(v: nat, s: string)
    requires Digits(s)
    ensures v > 0 || s[0] != '0' ==> ReadOn(v, s) > 0
    decreases |s|
  {
    if |s| == 1 {
      assert s[1..] == [];
    } else if v > 0 || s[0] != '0' {
      LeadingDigit(10 * v + DigitValue(s[0]), s[1..]);
    }
  }

  lemma {:induction false} PrintOfDigits(s: string)
    requires Digits(s) && (s[0] == '0' ==> s == "0")
    ensures Print(ReadOn(0, s)) == s
  {
    var n := |s| - 1;
    var before, c := s[..n], s[n];
    assert s == before + [c];
    ReadLast(0, before, c);
    assert Digit(DigitValue(c)) == c;
    if before != [] {
      PrintOfDigits(before);
      LeadingDigit(0, before);
    }
  }

  // It reads back as the integer, whatever comes after it but another digit.
  lemma ReadBack(v: int, rest: string)
    requires rest != [] ==> !IsDigit(rest[0])
    ensures Atoi(Text(v) + rest) == v
  {
    hide Atoi, Print;
    if v < 0 {
      AtoiMinus(-v, rest);
    } else {
      AtoiPrinted(v, rest);
    }
  }

  function Pow(b: nat, k: nat): nat {
    if k == 0 then 1 else b * Pow(b, k - 1)
  }

  lemma {:induction false} DigitCount(n: nat, k: nat)
    requires 0 < k && n < Pow(10, k)
    ensures |Print(n)| <= k
  {
    if n >= 10 {
      DigitCount(n / 10, k - 1);
    }
  }

  // Any 64-bit value, signed or not, takes at most 20 characters.
  lemma TextFits(v: int)
    requires INT64_MIN <= v <= UINT64_MAX
    ensures |Text(v)| <= 20 && (v < 0 ==> |Print(-v)| <= 19)
  {
    assert Pow(10, 4) == 10 * (10 * (10 * (10 * Pow(10, 0))));
    assert Pow(10, 8) == 10 * (10 * (10 * (10 * Pow(10, 4))));
    assert Pow(10, 12) == 10 * (10 * (10 * (10 * Pow(10, 8))));
    assert Pow(10, 16) == 10 * (10 * (10 * (10 * Pow(10, 12))));
    assert Pow(10, 20) == 10 * (10 * (10 * (10 * Pow(10, 16))));
    if v < 0 {
      DigitCount(-v, 19);
    } else {
      DigitCount(v, 20);
    }
  }

  function HexDigit(d: nat): char
    requires d < 16
  {
    if d < 10 then '0' + d as char else 'A' + (d - 10) as char
  }

  function HexValue(c: char): nat {
    if '0' <= c <= '9' then c as int - '0' as int
    else if 'A' <= c <= 'F' then c as int - 'A' as int + 10
    else 0
  }

  predicate HexDigits(s: string) {
    s != [] && forall i :: 0 <= i < |s| ==> '0' <= s[i] <= '9' || 'A' <= s[i] <= 'F'
  }

  function PrintHex(n: nat): (s: string)
    ensures HexDigits(s) && (s[0] == '0' ==> n == 0 && s == "0")
  {
    if n < 16 then [HexDigit(n)] else PrintHex(n / 16) + [HexDigit(n % 16)]
  }

  function ReadHex(s: string): nat {
    if s == [] then 0 else 16 * ReadHex(s[..|s| - 1]) + HexValue(s[|s| - 1])
  }

  lemma {:induction false} ReadHexBack(n: nat)
    ensures ReadHex(PrintHex(n)) == n
  {
    if n < 16 {
      assert ReadHex([]) == 0 && PrintHex(n)[..0] == [];
    } else {
      ReadHexBack(n / 16);
      assert PrintHex(n)[..|PrintHex(n)| - 1] == PrintHex(n / 16);
    }
  }

  // No other text with such digits and no zero in front reads as the number.
  lemma {:induction false} OnlyHex(s: string)
    requires HexDigits(s) && (s[0] == '0' ==> s == "0")
    ensures PrintHex(ReadHex(s)) == s && (s[0] != '0' ==> ReadHex(s) > 0)
    decreases |s|
  {
    hide *;
    var before, c := HexParts(s);
    ReadLastHex(before, c);
    LastHex(ReadHex(before), HexValue(c));
    if before == [] {
      assert [] + [HexDigit(HexValue(c))] == before + [c];
    } else {
      OnlyHex(before);
    }
  }

  lemma HexParts(s: string) returns (before: string, c: char)
    requires HexDigits(s) && (s[0] == '0' ==> s == "0")
    ensures s == before + [c] && (before != [] ==> HexDigits(before) && before[0] == s[0] != '0')
    ensures HexValue(c) < 16 && HexDigit(HexValue(c)) == c && (before == [] ==> (HexValue(c) == 0 <==> s[0] == '0'))
  {
    before, c := s[..|s| - 1], s[|s| - 1];
    HexOfValue(c);
    hide HexDigit, HexValue;
    assert s == before + [c];
  }

  lemma ReadLastHex(s: string, c: char)
    ensures ReadHex(s + [c]) == 16 * ReadHex(s) + HexValue(c) && ReadHex([]) == 0
  {
    assert (s + [c])[..|s|] == s;
  }

  lemma HexOfValue(c: char)
    requires HexDigits([c])
    ensures HexValue(c) < 16 && HexDigit(HexValue(c)) == c && (HexValue(c) == 0 <==> c == '0')
  {
    assert [c][0] == c;
  }

  lemma LastHex(n: nat, d: nat)
    requires d < 16
    ensures PrintHex(16 * n + d) == (if n == 0 then [] else PrintHex(n)) + [HexDigit(d)]
  {
    hide HexDigit;
  }

  lemma {:induction false} HexDigitCount(n: nat, k: nat)
    requires 0 < k && n < Pow(16, k)
    ensures |PrintHex(n)| <= k
  {
    if n >= 16 {
      HexDigitCount(n / 16, k - 1);
    }
  }

  lemma AddressFits(n: nat)
    requires n <= UINT64_MAX
    ensures |PrintHex(n)| <= 16
  {
    assert Pow(16, 4) == 16 * (16 * (16 * (16 * Pow(16, 0))));
    assert Pow(16, 8) == 16 * (16 * (16 * (16 * Pow(16, 4))));
    assert Pow(16, 12) == 16 * (16 * (16 * (16 * Pow(16, 8))));
    assert Pow(16, 16) == 16 * (16 * (16 * (16 * Pow(16, 12))));
    HexDigitCount(n, 16);
  }

  // ----- how it gets there

  // C's / and %, which truncate towards zero
  function Quotient(i: int, d: nat): int
    requires d > 0
  {
    if i >= 0 then i / d else -(-i / d)
  }

  function Remainder(i: int, d: nat): (r: int)
    requires d > 0
    ensures -(d as int) < r < d
  {
    i - d * Quotient(i, d)
  }

  const DIGITS := "9876543210123456789"
  const ZERO := 9
  const DIGITS_HEX := "0123456789ABCDEF"

  // The table has a digit for every remainder, negative ones included.
  lemma TableDigit(lsd: int)
    requires -10 < lsd < 10
    ensures 0 <= ZERO + lsd < |DIGITS| == 19 && DIGITS[ZERO + lsd] == Digit(Abs(lsd))
  {
    if lsd < -4 {
      assert lsd == -9 || lsd == -8 || lsd == -7 || lsd == -6 || lsd == -5;
    } else if lsd < 1 {
      assert lsd == -4 || lsd == -3 || lsd == -2 || lsd == -1 || lsd == 0;
    } else if lsd < 6 {
      assert lsd == 1 || lsd == 2 || lsd == 3 || lsd == 4 || lsd == 5;
    }
  }

  lemma HexTableDigit(lsd: nat)
    requires lsd < 16
    ensures |DIGITS_HEX| == 16 && DIGITS_HEX[lsd] == HexDigit(lsd)
  {
    if lsd < 8 {
      assert lsd == 0 || lsd == 1 || lsd == 2 || lsd == 3 || lsd == 4 || lsd == 5 || lsd == 6 || lsd == 7;
    } else {
      assert lsd == 8 || lsd == 9 || lsd == 10 || lsd == 11 || lsd == 12 || lsd == 13 || lsd == 14 || lsd == 15;
    }
  }

  // One digit off: the magnitudes divide as naturals do.
  lemma Truncates(i: int)
    ensures Abs(Quotient(i, 10)) == Abs(i) / 10 && Abs(Remainder(i, 10)) == Abs(i) % 10
  {
  }

  function Reversed(s: string): (r: string)
    ensures |r| == |s|
  {
    if s == [] then [] else Reversed(s[1..]) + [s[0]]
  }

  lemma {:induction false} ReversedAt(s: string, k: nat)
    requires k < |s|
    ensures Reversed(s)[k] == s[|s| - 1 - k]
  {
    if k < |s| - 1 {
      ReversedAt(s[1..], k);
    }
  }

  lemma {:induction false} ReversedSnoc(s: string, c: char)
    ensures Reversed(s + [c]) == [c] + Reversed(s)
  {
    if s != [] {
      assert (s + [c])[1..] == s[1..] + [c];
      ReversedSnoc(s[1..], c);
    }
  }

  // The part from first to last with k characters at each of its ends exchanged.
  function Flipped(s: string, first: nat, last: nat, k: nat): (t: string)
    requires first <= last <= |s| && 2 * k <= last - first + 1
    ensures |t| == |s|
  {
    seq(|s|, i requires 0 <= i < |s| =>
      if first <= i < first + k || last - k <= i < last then s[first + last - 1 - i] else s[i])
  }

  lemma FlippedNone(s: string, first: nat, last: nat)
    requires first <= last <= |s|
    ensures Flipped(s, first, last, 0) == s
  {
  }

  lemma FlippedNext(s: string, first: nat, last: nat, k: nat)
    requires first <= last <= |s| && 2 * k < last - first
    ensures var t, i, j := Flipped(s, first, last, k), first + k, last - k - 1;
      Flipped(s, first, last, k + 1) == t[i := t[j]][j := t[i]]
  {
  }

  lemma FlippedWhole(s: string, first: nat, last: nat, k: nat)
    requires first <= last <= |s| && last - first <= 2 * k <= last - first + 1
    ensures Flipped(s, first, last, k) == s[..first] + Reversed(s[first..last]) + s[last..]
  {
    var t := Flipped(s, first, last, k);
    IsReversed(s[first..last], t[first..last]);
    assert t == t[..first] + t[first..last] + t[last..];
  }

  method Swap(a: array<char>, i: nat, j: nat)
    requires i < a.Length && j < a.Length
    modifies a
    ensures a[..] == old(a[..])[i := old(a[j])][j := old(a[i])]
  {
    a[i], a[j] := a[j], a[i];
  }

  // std::reverse on part of an array
  method Reverse(a: array<char>, first: nat, last: nat)
    requires first <= last <= a.Length
    modifies a
    ensures a[..] == old(a[..first]) + Reversed(old(a[first..last])) + old(a[last..])
  {
    hide Flipped, Reversed;
    ghost var was := a[..];
    FlippedNone(was, first, last);
    var i, j := first, last;
    while i < j
      invariant first <= i && j <= last && i - first == last - j && i <= j + 1
      invariant a[..] == Flipped(was, first, last, i - first)
    {
      FlippedNext(was, first, last, i - first);
      j := j - 1;
      if i < j {
        Swap(a, i, j);
      } else {
        assert a[..][i := a[i]] == a[..];
      }
      i := i + 1;
    }
    FlippedWhole(was, first, last, i - first);
  }

  lemma IsReversed(s: string, t: string)
    requires |t| == |s| && forall k :: 0 <= k < |s| ==> t[k] == s[|s| - 1 - k]
    ensures t == Reversed(s)
  {
    forall k | 0 <= k < |s|
      ensures |Reversed(s)| == |s| && t[k] == Reversed(s)[k]
    {
      ReversedAt(s, k);
    }
    if s == [] {
      assert t == [];
    }
  }

  // One turn of the loop moves a digit from what is still to be printed to what has been
  // written.
  lemma MoveDigit(n: nat, written: string)
    ensures Print(n) + Reversed(written) ==
      (if n / 10 == 0 then [] else Print(n / 10)) + Reversed(written + [Digit(n % 10)])
  {
    ReversedSnoc(written, Digit(n % 10));
  }

  lemma MoveHexDigit(n: nat, written: string)
    ensures PrintHex(n) + Reversed(written) ==
      (if n / 16 == 0 then [] else PrintHex(n / 16)) + Reversed(written + [HexDigit(n % 16)])
  {
    ReversedSnoc(written, HexDigit(n % 16));
  }

  // *p = c
  method PutChar(a: array<char>, at: nat, p: nat, c: char)
    requires at <= p < a.Length
    modifies a
    ensures a[..at] == old(a[..at]) && a[at..p + 1] == old(a[at..p]) + [c] && a[p + 1..] == old(a[p + 1..])
  {
    a[p] := c;
    assert a[at..p] == old(a[at..p]);
  }

  // The digits, lowest first.
  method PutDigits(a: array<char>, at: nat, value: int) returns (p: nat)
    requires at + |Print(Abs(value))| <= a.Length
    modifies a
    ensures p == at + |Print(Abs(value))|
    ensures a[..at] == old(a[..at]) && a[p..] == old(a[p..])
    ensures Reversed(a[at..p]) == Print(Abs(value))
  {
    hide Print, Reversed, Quotient, Remainder, Digit;
    ghost var written: string := [];
    assert Print(Abs(value)) + Reversed([]) == Print(Abs(value));
    var i := value;
    p := at;
    while true
      invariant p == at + |written| && |written| + |Print(Abs(i))| == |Print(Abs(value))|
      invariant Print(Abs(value)) == Print(Abs(i)) + Reversed(written)
      invariant a[..at] == old(a[..at]) && a[at..p] == written && a[p..] == old(a[p..])
      decreases Abs(i)
    {
      var lsd := Remainder(i, 10);
      TableDigit(lsd);
      Truncates(i);
      MoveDigit(Abs(i), written);
      i := Quotient(i, 10);
      written := written + [DIGITS[ZERO + lsd]];
      PutChar(a, at, p, DIGITS[ZERO + lsd]);
      p := p + 1;
      assert [] + Reversed(written) == Reversed(written);
      if i == 0 {
        break;
      }
    }
  }

  // The terminator, and the characters the other way round.
  method Finish(a: array<char>, at: nat, p: nat)
    requires at <= p < a.Length
    modifies a
    ensures a[..] == old(a[..at]) + Reversed(old(a[at..p])) + ['\0'] + old(a[p + 1..])
  {
    hide Reversed;
    a[p] := '\0';
    ghost var b := a[..];
    assert b[..at] == old(a[..at]) && b[at..p] == old(a[at..p]);
    assert b[p..] == ['\0'] + old(a[p + 1..]);
    Reverse(a, at, p);
  }

  // The part of convert() that writes the text, the wrong way round.
  method PutText(a: array<char>, at: nat, value: int) returns (p: nat)
    requires at + |Text(value)| < a.Length
    modifies a
    ensures p == at + |Text(value)| && Reversed(a[at..p]) == Text(value)
    ensures a[..at] == old(a[..at]) && a[p + 1..] == old(a[p + 1..])
  {
    TextIs(value);
    hide Print, Reversed, Text;
    p := PutDigits(a, at, value);
    if value < 0 {
      ReversedSnoc(a[at..p], '-');
      PutChar(a, at, p, '-');
      p := p + 1;
      assert a[p..] == old(a[p - 1..])[1..] == old(a[p..]);
    }
    assert a[p + 1..] == a[p..][1..] && old(a[p + 1..]) == old(a[p..])[1..];
  }

  lemma TextIs(v: int)
    ensures Text(v) == (if v < 0 then ['-'] else []) + Print(Abs(v))
  {
    assert [] + Print(Abs(v)) == Print(Abs(v));
  }

  // convert(): the text and a terminator, 21 characters at most, and nothing else.
  method Convert(a: array<char>, at: nat, value: int) returns (len: nat)
    requires INT64_MIN <= value <= UINT64_MAX
    requires at + 21 <= a.Length
    modifies a
    ensures len == |Text(value)| <= 20
    ensures a[..] == old(a[..at]) + Text(value) + ['\0'] + old(a[at + len + 1..])
  {
    TextFits(value);
    hide Reversed, Text;
    var p := PutText(a, at, value);
    Finish(a, at, p);
    len := p - at;
  }

  method PutHexDigits(a: array<char>, at: nat, value: nat) returns (p: nat)
    requires at + |PrintHex(value)| <= a.Length
    modifies a
    ensures p == at + |PrintHex(value)|
    ensures a[..at] == old(a[..at]) && a[p..] == old(a[p..])
    ensures Reversed(a[at..p]) == PrintHex(value)
  {
    hide PrintHex, Reversed, HexDigit;
    ghost var written: string := [];
    assert PrintHex(value) + Reversed([]) == PrintHex(value);
    var i := value;
    p := at;
    while true
      invariant p == at + |written| && |written| + |PrintHex(i)| == |PrintHex(value)|
      invariant PrintHex(value) == PrintHex(i) + Reversed(written)
      invariant a[..at] == old(a[..at]) && a[at..p] == written && a[p..] == old(a[p..])
      decreases i
    {
      var lsd := i % 16;
      HexTableDigit(lsd);
      MoveHexDigit(i, written);
      i := i / 16;
      written := written + [DIGITS_HEX[lsd]];
      PutChar(a, at, p, DIGITS_HEX[lsd]);
      p := p + 1;
      assert [] + Reversed(written) == Reversed(written);
      if i == 0 {
        break;
      }
    }
  }

  // convertHex(): likewise, 17 characters at most.
  method ConvertHex(a: array<char>, at: nat, value: nat) returns (len: nat)
    requires value <= UINT64_MAX
    requires at + 17 <= a.Length
    modifies a
    ensures len == |PrintHex(value)| <= 16
    ensures a[..] == old(a[..at]) + PrintHex(value) + ['\0'] + old(a[at + len + 1..])
  {
    hide PrintHex, Reversed;
    AddressFits(value);
    var p := PutHexDigits(a, at, value);
    Finish(a, at, p);
    len := p - at;
  }

  class LogStream {
    const buffer: LogBuffer

    constructor ()
      ensures buffer.Valid() && buffer.Contents() == [] && buffer.data.Length == SMALL_BUFFER
      ensures fresh(buffer) && fresh(buffer.data)
    {
      buffer := new LogBuffer(SMALL_BUFFER);
    }

    // formatInteger(): all of the text or, when there may be no room, none.
    method FormatInteger(v: int)
      requires INT64_MIN <= v <= UINT64_MAX
      requires buffer.Valid()
      modifies buffer, buffer.data
      ensures buffer.Valid()
      ensures buffer.Contents() ==
        old(buffer.Contents()) + if old(buffer.Avail()) >= MAX_NUMERIC_SIZE then Text(v) else []
    {
      if buffer.Avail() >= MAX_NUMERIC_SIZE {
        var len := Convert(buffer.data, buffer.cur, v);
        assert buffer.data[..buffer.cur + len] == buffer.data[..][..buffer.cur + len];
        buffer.cur := buffer.cur + len;
      }
    }

    // operator<< for an address
    method FormatAddress(v: nat)
      requires v <= UINT64_MAX
      requires buffer.Valid()
      modifies buffer, buffer.data
      ensures buffer.Valid()
      ensures buffer.Contents() ==
        old(buffer.Contents()) + if old(buffer.Avail()) >= MAX_NUMERIC_SIZE then "0x" + PrintHex(v) else []
    {
      if buffer.Avail() >= MAX_NUMERIC_SIZE {
        var at := buffer.cur;
        buffer.data[at] := '0';
        buffer.data[at + 1] := 'x';
        assert buffer.data[..at + 2] == old(buffer.Contents()) + "0x";
        var len := ConvertHex(buffer.data, at + 2, v);
        assert buffer.data[..at + 2 + len] == buffer.data[..][..at + 2 + len];
        buffer.cur := buffer.cur + (len + 2);
      }
    }
  }
}
