/** The Redis serialization protocol as RedisConnect::Command prints and parses it. Texts
    are the received bytes from some position on; the terminating NUL is their end. What the
    buffer holds after the NUL, from earlier replies, is called stale: the parser looks at it
    when it comes to a node of which nothing has arrived. */
module Resp {
  import opened Decimal
  import opened Optional

  const OK := 1
  const FAIL := -1
  const SYSERR := -3
  const NETERR := -4
  const TIMEOUT := -5
  const DATAERR := -6
  const PARAMERR := -8
  const NOTFOUND := -9
  const NETCLOSE := -10

  const CRLF: string := "\r\n"

  // strstr(t, "\r\n"): no further than the first NUL.
  function FindCRLF(t: string): (p: Option<nat>)
    ensures p.Some? ==> p.value + 2 <= |t| && t[p.value..p.value + 2] == CRLF
  {
    if t == [] || t[0] == '\0' then None
    else if |t| >= 2 && t[0] == '\r' && t[1] == '\n' then Some(0)
    else
      var p := FindCRLF(t[1..]);
      if p.None? then None else Some(p.value + 1)
  }

  // parseNode: not all there yet, a length below zero, or a string and what follows it.
  datatype Node = Partial | Negative(size: int) | Bulk(item: string, rest: string)

  function ParseNode(t: string, stale: string): (n: Node)
    ensures n.Negative? ==> n.size < 0
    ensures n.Bulk? ==> |n.rest| < |t| && n.rest == t[|t| - |n.rest|..]
  {
    if t == [] then PastEnd(stale)
    else
      var p := FindCRLF(t[1..]);
      if p.None? then Partial
      else
        var size := Atoi(t[1..]);
        if size < 0 then Negative(size)
        else if |t| < p.value + 3 + size + 2 then Partial
        else Bulk(t[p.value + 3..p.value + 3 + size], t[p.value + 3 + size + 2..])
  }

  // A number below zero in front of an end of line.
  predicate NegativeAhead(stale: string) {
    FindCRLF(stale).Some? && Atoi(stale) < 0
  }

  // With no bytes left the search starts one past the terminator. A length that is not
  // negative reaches past the end.
  function PastEnd(stale: string): (n: Node)
    ensures n.Negative? ==> n.size < 0
  {
    if NegativeAhead(stale) then Negative(Atoi(stale)) else Partial
  }

  // The code parse() returns. A node of negative length moves its position backwards; what
  // the parser does when that brings it before the buffer, or back to where its array
  // started, is not modelled.
  datatype Outcome = Code(code: int) | SteppedBack

  // What one call of parse() does: its outcome, the strings it pushes onto res, and what it
  // leaves in status and msg if it sets them.
  datatype Parsed = Parsed(outcome: Outcome, pushed: seq<string>, status: Option<int>, text: Option<string>)

  // The loop over the nodes of an array. Done is not a code yet: res.size() is.
  datatype Nodes = Nodes(pushed: seq<string>, end: End)
  datatype End = Done | Unfinished | Inner(at: nat) | Back

  // The array started at position start of the received bytes; its loop is at position str.
  function ParseNodes(buf: string, stale: string, start: nat, str: int, count: int): (r: Nodes)
    requires str <= |buf|
    ensures r.end.Inner? ==> start < r.end.at < |buf| && buf[r.end.at] == '*'
    decreases if count > 0 then count else 0
  {
    if count <= 0 then Nodes([], Done)
    else if str < 0 then Nodes([], Back)
    else if str < |buf| && buf[str] == '*' then Nodes([], if start < str then Inner(str) else Back)
    else
      match ParseNode(buf[str..], stale)
      case Partial => Nodes([], Unfinished)
      case Negative(size) => ParseNodes(buf, stale, start, str + size, count - 1)
      case Bulk(item, rest) =>
        var r := ParseNodes(buf, stale, start, |buf| - |rest|, count - 1);
        Nodes([item] + r.pushed, r.end)
  }

  // parse() from a position on, given how many strings res holds.
  function Parse(buf: string, stale: string, at: nat, size: nat): Parsed
    requires at < |buf|
    decreases |buf| - at, 1
  {
    var t := buf[at..];
    if t[0] == '$' then
      match ParseNode(t, stale)
      case Partial => Parsed(Code(TIMEOUT), [], None, None)
      case Negative(n) => Parsed(Code(if n == -1 then NOTFOUND else OK), [], None, None)
      case Bulk(item, _) => Parsed(Code(OK), [item], None, None)
    else
      var p := FindCRLF(t[1..]);
      if p.None? then Parsed(Code(TIMEOUT), [], None, None)
      else
        var line := t[1..p.value + 1];
        if t[0] == '+' then Parsed(Code(OK), [], Some(OK), Some(line))
        else if t[0] == '-' then Parsed(Code(FAIL), [], Some(OK), Some(line))
        else if t[0] == ':' then Parsed(Code(OK), [], Some(Atoi(t[1..])), Some(line))
        else if t[0] == '*' then
          Finished(buf, stale, at, ParseNodes(buf, stale, at, at + p.value + 3, Atoi(t[1..])), size)
        else Parsed(Code(DATAERR), [], None, None)
  }

  // What parse() makes of an array once its loop has ended.
  function Finished(buf: string, stale: string, at: nat, r: Nodes, size: nat): Parsed
    requires at < |buf| && (r.end.Inner? ==> at < r.end.at < |buf|)
    decreases |buf| - at, 0
  {
    match r.end
    case Done => Parsed(Code(size + |r.pushed|), r.pushed, None, None)
    case Unfinished => Parsed(Code(TIMEOUT), r.pushed, None, None)
    case Back => Parsed(SteppedBack, r.pushed, None, None)
    case Inner(inner) =>
      var p := Parse(buf, stale, inner, size + |r.pushed|);
      p.(pushed := r.pushed + p.pushed)
  }

  // ----- printing

  function PrintBulk(item: string): string {
    "$" + Print(|item|) + CRLF + item + CRLF
  }

  function PrintItems(items: seq<string>): string {
    if items == [] then [] else PrintBulk(items[0]) + PrintItems(items[1..])
  }

  function PrintHeader(n: nat): string {
    "*" + Print(n) + CRLF
  }

  function PrintArray(items: seq<string>): string {
    PrintHeader(|items|) + PrintItems(items)
  }

  // ----- finding the end of a line

  predicate Plain(a: string) {
    forall i :: 0 <= i < |a| ==> a[i] != '\r' && a[i] != '\0'
  }

  lemma {:induction false} FindSkip(a: string, b: string)
    requires Plain(a)
    ensures FindCRLF(a + b) == if FindCRLF(b).None? then None else Some(FindCRLF(b).value + |a|)
  {
    if a == [] {
      assert a + b == b;
    } else {
      assert (a + b)[1..] == a[1..] + b;
      assert (a + b)[0] == a[0];
      FindSkip(a[1..], b);
    }
  }

  lemma Prefix(a: string, b: string, m: nat)
    requires m <= |a| + |b|
    ensures (a + b)[..m] == if m < |a| then a[..m] else a + b[..m - |a|]
  {
  }

  // A line that is a number: found and read when it is all there,
  lemma NumberLine(n: nat, rest: string)
    ensures FindCRLF(Print(n) + CRLF + rest) == Some(|Print(n)|)
    ensures Atoi(Print(n) + CRLF + rest) == n
  {
    assert Print(n) + CRLF + rest == Print(n) + (CRLF + rest);
    FindSkip(Print(n), CRLF + rest);
    AtoiPrinted(n, CRLF + rest);
  }

  // and not found when any of its bytes is missing.
  lemma PartOfNumberLine(n: nat, m: nat)
    requires m < |Print(n)| + 2
    ensures FindCRLF((Print(n) + CRLF)[..m]) == None
  {
    var d := Print(n);
    Prefix(d, CRLF, m);
    if m <= |d| {
      assert d[..m] + [] == d[..m];
      FindSkip(d[..m], []);
    } else {
      assert CRLF[..m - |d|] == "\r";
      FindSkip(d, "\r");
      assert FindCRLF("\r") == None by {
        assert "\r"[1..] == [];
      }
    }
  }

  // ----- every prefix of a printed array

  lemma NodeWhole(item: string, rest: string, stale: string)
    ensures ParseNode(PrintBulk(item) + rest, stale) == Bulk(item, rest)
  {
    hide FindCRLF, Atoi, Print;
    BulkParts(item, rest);
    NumberLine(|item|, item + CRLF + rest);
  }

  // Where the pieces of a printed string are.
  lemma BulkParts(item: string, rest: string)
    ensures var d, t := Print(|item|), PrintBulk(item) + rest;
      && |t| == |d| + |item| + |rest| + 5
      && t[1..] == d + CRLF + (item + CRLF + rest)
      && t[|d| + 3..|d| + 3 + |item|] == item && t[|d| + 3 + |item| + 2..] == rest
  {
    hide Print;
    var d, t := Print(|item|), PrintBulk(item) + rest;
    assert t == ['$'] + d + CRLF + item + (CRLF + rest);
  }

  lemma NodePart(item: string, m: nat, stale: string)
    requires 0 < m < |PrintBulk(item)|
    ensures ParseNode(PrintBulk(item)[..m], stale) == Partial
  {
    hide FindCRLF, Atoi, Print, PrintBulk;
    BulkParts(item, []);
    assert PrintBulk(item) + [] == PrintBulk(item);
    var t := PrintBulk(item)[..m];
    var line := Print(|item|) + CRLF;
    assert t[1..] == (line + (item + CRLF + []))[..m - 1];
    Prefix(line, item + CRLF + [], m - 1);
    if m - 1 < |line| {
      PartOfNumberLine(|item|, m - 1);
    } else {
      NumberLine(|item|, (item + CRLF + [])[..m - 1 - |line|]);
    }
  }

  // A node is incomplete until its last byte is there; of a node of which nothing is there
  // the stale bytes decide.
  lemma NodeOfPrefix(item: string, rest: string, m: nat, stale: string)
    requires m <= |PrintBulk(item) + rest|
    ensures ParseNode((PrintBulk(item) + rest)[..m], stale) ==
      if m == 0 then PastEnd(stale)
      else if m < |PrintBulk(item)| then Partial
      else Bulk(item, rest[..m - |PrintBulk(item)|])
  {
    BulkStarts(item);
    if m > 0 {
      hide ParseNode, PrintBulk;
      Prefix(PrintBulk(item), rest, m);
      if m < |PrintBulk(item)| {
        NodePart(item, m, stale);
      } else {
        NodeWhole(item, rest[..m - |PrintBulk(item)|], stale);
      }
    }
  }

  lemma BulkStarts(item: string)
    ensures PrintBulk(item) != [] && PrintBulk(item)[0] == '$'
  {
  }

  // How many of the items are all within the first m bytes.
  function Complete(items: seq<string>, m: int): (k: nat)
    ensures k <= |items|
  {
    if items == [] || m < |PrintBulk(items[0])| then 0
    else 1 + Complete(items[1..], m - |PrintBulk(items[0])|)
  }

  // The first m bytes of the items end where a node ends and another is still to come.
  predicate AtCut(items: seq<string>, m: int) {
    items != [] &&
    (m == 0 || (m >= |PrintBulk(items[0])| && AtCut(items[1..], m - |PrintBulk(items[0])|)))
  }

  lemma OneMoreNode(buf: string, stale: string, start: nat, str: nat, count: nat)
    requires count > 0 && str <= |buf| && (str < |buf| ==> buf[str] != '*')
    ensures match ParseNode(buf[str..], stale)
      case Partial => ParseNodes(buf, stale, start, str, count) == Nodes([], Unfinished)
      case Negative(size) =>
        ParseNodes(buf, stale, start, str, count) == ParseNodes(buf, stale, start, str + size, count - 1)
      case Bulk(item, rest) =>
        var r := ParseNodes(buf, stale, start, |buf| - |rest|, count - 1);
        ParseNodes(buf, stale, start, str, count) == Nodes([item] + r.pushed, r.end)
  {
    hide ParseNode;
  }

  lemma NoMoreNodes(buf: string, stale: string, start: nat, str: int, count: int)
    requires str <= |buf|
    ensures count <= 0 ==> ParseNodes(buf, stale, start, str, count) == Nodes([], Done)
    ensures count > 0 && str < 0 ==> ParseNodes(buf, stale, start, str, count) == Nodes([], Back)
    ensures count > 0 && 0 <= str < |buf| && buf[str] == '*' ==>
      ParseNodes(buf, stale, start, str, count) == Nodes([], if start < str then Inner(str) else Back)
  {
  }

  lemma FirstItem(items: seq<string>, m: int)
    requires items != []
    ensures PrintItems(items) == PrintBulk(items[0]) + PrintItems(items[1..])
    ensures Complete(items, m) ==
      if m < |PrintBulk(items[0])| then 0 else 1 + Complete(items[1..], m - |PrintBulk(items[0])|)
    ensures AtCut(items, m) <==>
      m == 0 || (m >= |PrintBulk(items[0])| && AtCut(items[1..], m - |PrintBulk(items[0])|))
  {
    hide PrintBulk;
  }

  lemma NoItems(items: seq<string>, m: int)
    requires items == []
    ensures PrintItems(items) == [] && Complete(items, m) == 0 && !AtCut(items, m)
  {
  }

  lemma {:induction false} NoCutAtEnd(items: seq<string>)
    ensures !AtCut(items, |PrintItems(items)|)
  {
    hide PrintBulk, PrintItems, AtCut;
    if items == [] {
      NoItems(items, |PrintItems(items)|);
    } else {
      FirstItem(items, |PrintItems(items)|);
      BulkStarts(items[0]);
      NoCutAtEnd(items[1..]);
    }
  }

  lemma {:induction false} NodesOfPrefix(buf: string, stale: string, start: nat, str: nat, items: seq<string>, m: nat)
    requires m <= |PrintItems(items)| && str <= |buf| && buf[str..] == PrintItems(items)[..m]
    requires AtCut(items, m) ==> !NegativeAhead(stale)
    ensures ParseNodes(buf, stale, start, str, |items|) ==
      Nodes(items[..Complete(items, m)], if m == |PrintItems(items)| then Done else Unfinished)
    decreases |items|
  {
    hide PrintBulk, ParseNode, ParseNodes, PrintItems, Complete, AtCut, NegativeAhead;
    if items == [] {
      NoItems(items, m);
      NoMoreNodes(buf, stale, start, str, 0);
    } else {
      var b, rest := PrintBulk(items[0]), PrintItems(items[1..]);
      FirstItem(items, m);
      BulkStarts(items[0]);
      assert str < |buf| ==> buf[str] == buf[str..][0] == b[0];
      OneMoreNode(buf, stale, start, str, |items|);
      NodeOfPrefix(items[0], rest, m, stale);
      if m >= |b| {
        assert buf[str + |b|..] == buf[str..][|b|..] == rest[..m - |b|];
        NodesOfPrefix(buf, stale, start, str + |b|, items[1..], m - |b|);
        var k := Complete(items[1..], m - |b|);
        assert [items[0]] + items[1..][..k] == items[..k + 1];
      }
    }
  }

  lemma {:induction false} AllComplete(items: seq<string>)
    ensures Complete(items, |PrintItems(items)|) == |items|
  {
    if items != [] {
      AllComplete(items[1..]);
    }
  }

  lemma HeaderParts(n: nat, body: string)
    ensures var t := PrintHeader(n) + body;
      && t != [] && t[0] == '*' && |t| >= |Print(n)| + 3 == |PrintHeader(n)|
      && FindCRLF(t[1..]) == Some(|Print(n)|) && Atoi(t[1..]) == n && t[|Print(n)| + 3..] == body
  {
    hide FindCRLF, Atoi;
    var t := PrintHeader(n) + body;
    assert t[1..] == Print(n) + CRLF + body;
    NumberLine(n, body);
  }

  lemma ParseHeader(n: nat, body: string, size: nat, stale: string)
    ensures var buf := PrintHeader(n) + body;
      Parse(buf, stale, 0, size) == Finished(buf, stale, 0, ParseNodes(buf, stale, 0, |PrintHeader(n)|, n), size)
  {
    hide FindCRLF, Atoi, ParseNodes, PrintHeader, Finished;
    HeaderParts(n, body);
    assert (PrintHeader(n) + body)[0..] == PrintHeader(n) + body;
  }

  lemma ParsePartOfHeader(n: nat, m: nat, size: nat, stale: string)
    requires 0 < m < |PrintHeader(n)|
    ensures Parse(PrintHeader(n)[..m], stale, 0, size) == Parsed(Code(TIMEOUT), [], None, None)
  {
    var t, line := PrintHeader(n)[..m], Print(n) + CRLF;
    assert t[0..] == t && t[0] == '*' && t[1..] == line[..m - 1];
    PartOfNumberLine(n, m - 1);
  }

  // A prefix of a printed array is never taken for the whole, or for something malformed,
  // unless it ends where a node ends and a negative number is left there from before; but
  // the strings it already holds have been pushed.
  lemma ArrayOfPrefix(items: seq<string>, m: nat, size: nat, stale: string)
    requires 0 < m <= |PrintArray(items)|
    requires AtCut(items, m - |PrintHeader(|items|)|) ==> !NegativeAhead(stale)
    ensures Parse(PrintArray(items)[..m], stale, 0, size) ==
      if m == |PrintArray(items)| then Parsed(Code(size + |items|), items, None, None)
      else Parsed(Code(TIMEOUT), items[..Complete(items, m - |PrintHeader(|items|)|)], None, None)
  {
    hide Parse, PrintItems, ParseNodes, PrintHeader, AtCut, NegativeAhead, Complete;
    var h, body := PrintHeader(|items|), PrintItems(items);
    Prefix(h, body, m);
    if m < |h| {
      ParsePartOfHeader(|items|, m, size, stale);
      NoneComplete(items, m - |h|);
    } else {
      var buf := h + body[..m - |h|];
      ParseHeader(|items|, body[..m - |h|], size, stale);
      assert buf[|h|..] == body[..m - |h|];
      NodesOfPrefix(buf, stale, 0, |h|, items, m - |h|);
      AllComplete(items);
      assert items[..|items|] == items;
    }
  }

  lemma NoneComplete(items: seq<string>, m: int)
    requires m <= 0
    ensures Complete(items, m) == 0
  {
    if items != [] {
      BulkStarts(items[0]);
    }
  }

  // What toString prints, parse reads back.
  lemma RoundTrip(items: seq<string>, stale: string)
    ensures Parse(PrintArray(items), stale, 0, 0) == Parsed(Code(|items|), items, None, None)
  {
    NoCutAtEnd(items);
    ArrayOfPrefix(items, |PrintArray(items)|, 0, stale);
    assert PrintArray(items)[..|PrintArray(items)|] == PrintArray(items);
  }

  // ----- the one place where stale bytes matter before the first string is there

  // What is left of a header from some place after its start on is no node.
  lemma RestOfHeader(n: nat, str: nat, stale: string)
    requires 0 < str < |PrintHeader(n)|
    ensures PrintHeader(n)[str] != '*' && ParseNode(PrintHeader(n)[str..], stale) == Partial
  {
    LineEnds();
    hide FindCRLF, Atoi, Print;
    var h, d := PrintHeader(n), Print(n);
    var t := h[str..];
    if str <= |d| {
      var digits := d[str..];
      assert h[str] == d[str - 1] && t[1..] == digits + CRLF;
      FindSkip(digits, CRLF);
      DigitsAreNoDebt(digits);
    } else if str == |d| + 1 {
      assert h[str] == '\r' && t[1..] == "\n";
    } else {
      assert h[str] == '\n' && t[1..] == [];
    }
  }

  lemma LineEnds()
    ensures FindCRLF(CRLF) == Some(0) && FindCRLF("\n") == None && FindCRLF([]) == None
  {
  }

  lemma DigitsAreNoDebt(digits: string)
    requires forall i :: 0 <= i < |digits| ==> IsDigit(digits[i])
    ensures Atoi(digits + CRLF) >= 0
  {
    if digits == [] {
      assert [] + CRLF == CRLF && CRLF[1..][1..] == [];
    } else {
      assert (digits + CRLF)[0] == digits[0];
    }
  }

  // A negative number left where the header ends: the array of one string is taken for
  // done without it; a longer one is, if the number leads back to the header's start or
  // before it, given up to whatever is there, and otherwise still found incomplete.
  predicate Harmful(n: nat, stale: string) {
    NegativeAhead(stale) && (n == 1 || |PrintHeader(n)| + Atoi(stale) <= 0)
  }

  lemma HeaderAlone(n: nat, size: nat, stale: string)
    requires n > 0
    ensures Parse(PrintHeader(n), stale, 0, size) ==
      if !Harmful(n, stale) then Parsed(Code(TIMEOUT), [], None, None)
      else if n == 1 then Parsed(Code(size), [], None, None)
      else Parsed(SteppedBack, [], None, None)
  {
    hide Parse, PrintHeader, ParseNode, ParseNodes, NegativeAhead, Atoi;
    var h := PrintHeader(n);
    assert h + [] == h && h[|h|..] == [];
    ParseHeader(n, [], size, stale);
    HeaderParts(n, []);
    OneMoreNode(h, stale, 0, |h|, n);
    NothingThere(stale);
    if NegativeAhead(stale) {
      var str := |h| + Atoi(stale);
      NoMoreNodes(h, stale, 0, str, n - 1);
      if n > 1 && str > 0 {
        RestOfHeader(n, str, stale);
        OneMoreNode(h, stale, 0, str, n - 1);
      }
    }
  }

  lemma NothingThere(stale: string)
    ensures ParseNode([], stale) == if NegativeAhead(stale) then Negative(Atoi(stale)) else Partial
    ensures NegativeAhead(stale) ==> Atoi(stale) < 0
  {
  }

  // ----- replies that are not arrays

  datatype Reply = Line(kind: char, line: string) | BulkReply(item: string) | Nil

  // A line of text has no NUL and no end of line in it.
  predicate OneLine(a: string) {
    forall i :: 0 <= i < |a| ==> a[i] != '\0' && !(a[i] == '\r' && i + 1 < |a| && a[i + 1] == '\n')
  }

  predicate WellFormed(r: Reply) {
    r.Line? ==> (r.kind == '+' || r.kind == '-' || r.kind == ':') && OneLine(r.line)
  }

  function PrintReply(r: Reply): string {
    match r
    case Line(kind, line) => [kind] + line + CRLF
    case BulkReply(item) => PrintBulk(item)
    case Nil => "$-1\r\n"
  }

  // What the reply says.
  function Meaning(r: Reply): Parsed {
    match r
    case Line(kind, line) =>
      Parsed(Code(if kind == '-' then FAIL else OK), [], Some(if kind == ':' then Atoi(line) else OK), Some(line))
    case BulkReply(item) => Parsed(Code(OK), [item], None, None)
    case Nil => Parsed(Code(NOTFOUND), [], None, None)
  }

  lemma {:induction false} FindInLine(a: string, m: nat)
    requires OneLine(a) && m <= |a| + 2
    ensures FindCRLF((a + CRLF)[..m]) == if m == |a| + 2 then Some(|a|) else None
  {
    var t := (a + CRLF)[..m];
    if a == [] {
      assert t == CRLF[..m];
      if m == 1 {
        assert t[1..] == [];
      }
    } else if m > 0 {
      assert t[0] == a[0] && t[1..] == (a[1..] + CRLF)[..m - 1];
      FindInLine(a[1..], m - 1);
      assert m >= 2 ==> t[1] == (a + CRLF)[1];
    }
  }

  // Digits end where the line does.
  lemma {:induction false} ReadOnLine(v: nat, a: string)
    ensures ReadOn(v, a + CRLF) == ReadOn(v, a)
    decreases |a|
  {
    if a != [] {
      assert (a + CRLF)[1..] == a[1..] + CRLF;
      if IsDigit(a[0]) {
        ReadOnLine(10 * v + DigitValue(a[0]), a[1..]);
      }
    } else {
      assert a + CRLF == CRLF;
    }
  }

  lemma {:induction false} SkipOnLine(a: string)
    ensures SkipSpace(a + CRLF) == if SkipSpace(a) == [] then [] else SkipSpace(a) + CRLF
  {
    if a == [] {
      assert CRLF[1..][1..] == [] && a + CRLF == CRLF;
    } else {
      assert (a + CRLF)[1..] == a[1..] + CRLF;
      if IsSpace(a[0]) {
        SkipOnLine(a[1..]);
      }
    }
  }

  lemma AtoiOfLine(a: string)
    ensures Atoi(a + CRLF) == Atoi(a)
  {
    SkipOnLine(a);
    var u := SkipSpace(a);
    if u != [] {
      assert (u + CRLF)[1..] == u[1..] + CRLF;
      ReadOnLine(0, u[1..]);
      ReadOnLine(0, u);
    }
  }

  lemma NilOfPrefix(m: nat, stale: string)
    requires 0 < m <= 5
    ensures ParseNode(PrintReply(Nil)[..m], stale) == if m == 5 then Negative(-1) else Partial
  {
    var t := PrintReply(Nil)[..m];
    assert "-1\r\n" == "-1" + CRLF;
    assert t[1..] == ("-1" + CRLF)[..m - 1];
    FindInLine("-1", m - 1);
    if m == 5 {
      assert t[1..] == "-1" + CRLF;
      AtoiOfLine("-1");
      assert "-1"[1..] == "1" && "1"[1..] == [];
    }
  }

  // Every proper prefix of such a reply is incomplete and leaves no trace; the whole means
  // what it says.
  lemma ReplyOfPrefix(r: Reply, m: nat, size: nat, stale: string)
    requires WellFormed(r) && 0 < m <= |PrintReply(r)|
    ensures Parse(PrintReply(r)[..m], stale, 0, size) ==
      if m == |PrintReply(r)| then Meaning(r) else Parsed(Code(TIMEOUT), [], None, None)
  {
    hide FindCRLF, Atoi, ParseNode;
    var t := PrintReply(r)[..m];
    assert t[0..] == t;
    match r
    case Line(kind, line) =>
      assert t[0] == kind && t[1..] == (line + CRLF)[..m - 1];
      FindInLine(line, m - 1);
      if m == |PrintReply(r)| {
        assert t[1..] == line + CRLF && t[1..|line| + 1] == line;
        AtoiOfLine(line);
      }
    case BulkReply(item) =>
      BulkStarts(item);
      NodeOfPrefix(item, [], m, stale);
      assert PrintBulk(item) + [] == PrintBulk(item);
    case Nil =>
      NilOfPrefix(m, stale);
  }

  // The single replies as they come, with their codes: good, failed, a number, none.
  lemma SingleReplies(line: string, size: nat, stale: string)
    requires OneLine(line)
    ensures Parse("+" + line + "\r\n", stale, 0, size) == Parsed(Code(1), [], Some(1), Some(line))
    ensures Parse("-" + line + "\r\n", stale, 0, size) == Parsed(Code(-1), [], Some(1), Some(line))
    ensures Parse(":" + line + "\r\n", stale, 0, size) == Parsed(Code(1), [], Some(Atoi(line)), Some(line))
    ensures Parse("$-1\r\n", stale, 0, size) == Parsed(Code(-9), [], None, None)
  {
    hide Parse, Atoi, OneLine;
    ReplyWhole(Line('+', line), size, stale);
    ReplyWhole(Line('-', line), size, stale);
    ReplyWhole(Line(':', line), size, stale);
    ReplyWhole(Nil, size, stale);
  }

  // Of the lengths below zero only -1 says that there is nothing; the others pass for good.
  lemma NegativeLength(n: nat, size: nat, stale: string)
    requires n > 0
    ensures Parse("$-" + Print(n) + "\r\n", stale, 0, size) == Parsed(Code(if n == 1 then -9 else 1), [], None, None)
  {
    hide FindCRLF, Atoi, Print;
    var line, t := "-" + Print(n), "$-" + Print(n) + "\r\n";
    assert t[0..] == t && t[1..] == line + CRLF && t[1..] == ['-'] + Print(n) + CRLF;
    LineEnds();
    FindSkip(line, CRLF);
    AtoiMinus(n, CRLF);
  }

  // What starts with none of the five marks is malformed, once it has an end of line.
  lemma UnknownMark(mark: char, line: string, rest: string, size: nat, stale: string)
    requires mark !in "$+-:*" && Plain(line)
    ensures Parse([mark] + line + CRLF + rest, stale, 0, size) == Parsed(Code(-6), [], None, None)
  {
    hide FindCRLF, Atoi;
    var t := [mark] + line + CRLF + rest;
    assert t[0..] == t && t[1..] == line + (CRLF + rest);
    StartsWithCRLF(rest);
    FindSkip(line, CRLF + rest);
  }

  lemma StartsWithCRLF(rest: string)
    ensures FindCRLF(CRLF + rest) == Some(0)
  {
  }

  lemma ReplyWhole(r: Reply, size: nat, stale: string)
    requires WellFormed(r)
    ensures PrintReply(r) != [] && Parse(PrintReply(r), stale, 0, size) == Meaning(r)
  {
    hide Parse, Meaning, OneLine;
    ReplyOfPrefix(r, |PrintReply(r)|, size, stale);
    assert PrintReply(r)[..|PrintReply(r)|] == PrintReply(r);
  }

  // An array as it is sent, letter by letter.
  lemma AsSent(name: string)
    requires |name| < 10
    ensures PrintArray(["GET", name]) == "*2\r\n$3\r\nGET\r\n$" + [Digit(|name|)] + "\r\n" + name + "\r\n"
  {
    assert ["GET", name][1..] == [name] && [name][1..] == [];
    assert Print(2) == "2" && Print(3) == "3" && Print(|name|) == [Digit(|name|)];
    hide Print;
    assert PrintItems([name]) == PrintBulk(name);
    assert PrintBulk("GET") == "$3\r\nGET\r\n";
  }

  // ----- the retry loop of getResult

  // What recv gives each time: bytes (none when the peer has closed), a timeout, or an error.
  datatype Read = Data(bytes: string) | Waited | Broken

  // before: what the buffer holds when the loop begins.
  datatype Limits = Limits(maxsz: nat, timeout: int, tick: int, before: string)

  // What it still holds after m bytes and the NUL behind them.
  function Stale(limits: Limits, m: nat): string {
    if m < |limits.before| then limits.before[m + 1..] else []
  }

  datatype Waiting = Waiting(got: string, delay: int, res: seq<string>, status: Option<int>, text: Option<string>)

  // With no read left to make, the loop is still waiting.
  function Retry(w: Waiting, arrivals: seq<Read>, limits: Limits): (Waiting, Option<Outcome>)
    decreases |arrivals|
  {
    if |w.got| >= limits.maxsz then (w, Some(Code(PARAMERR)))
    else if arrivals == [] then (w, None)
    else
      match arrivals[0]
      case Broken => (w, Some(Code(NETERR)))
      case Waited =>
        var w' := w.(delay := w.delay + limits.tick);
        if w'.delay > limits.timeout then (w', Some(Code(TIMEOUT))) else Retry(w', arrivals[1..], limits)
      case Data(bytes) =>
        if bytes == [] then (w, Some(Code(NETCLOSE)))
        else
          var w' := Received(w, Fitting(bytes, limits.maxsz - |w.got|), limits);
          if w'.1 == Code(TIMEOUT) then Retry(w'.0.(delay := 0), arrivals[1..], limits)
          else (w'.0, Some(w'.1))
  }

  function Fitting(bytes: string, room: nat): (b: string)
    requires bytes != [] && room > 0
    ensures b != [] && |b| <= room && b <= bytes
  {
    if |bytes| <= room then bytes else bytes[..room]
  }

  // More bytes, and a parse of all there are.
  function Received(w: Waiting, bytes: string, limits: Limits): (Waiting, Outcome)
    requires bytes != []
  {
    var p := Parse(w.got + bytes, Stale(limits, |w.got + bytes|), 0, |w.res|);
    (w.(got := w.got + bytes, res := w.res + p.pushed,
        status := if p.status.Some? then p.status else w.status,
        text := if p.text.Some? then p.text else w.text),
     p.outcome)
  }

  // One turn of the loop.
  lemma RetryTurn(w: Waiting, arrivals: seq<Read>, limits: Limits)
    ensures |w.got| >= limits.maxsz ==> Retry(w, arrivals, limits) == (w, Some(Code(PARAMERR)))
    ensures |w.got| < limits.maxsz && arrivals == [] ==> Retry(w, arrivals, limits) == (w, None)
    ensures |w.got| < limits.maxsz && arrivals != [] ==>
      match arrivals[0]
      case Broken => Retry(w, arrivals, limits) == (w, Some(Code(NETERR)))
      case Waited =>
        var w' := w.(delay := w.delay + limits.tick);
        Retry(w, arrivals, limits) ==
          if w'.delay > limits.timeout then (w', Some(Code(TIMEOUT))) else Retry(w', arrivals[1..], limits)
      case Data(bytes) =>
        if bytes == [] then Retry(w, arrivals, limits) == (w, Some(Code(NETCLOSE)))
        else
          var (w', outcome) := Received(w, Fitting(bytes, limits.maxsz - |w.got|), limits);
          Retry(w, arrivals, limits) ==
            if outcome == Code(TIMEOUT) then Retry(w'.(delay := 0), arrivals[1..], limits) else (w', Some(outcome))
  {
    hide Received;
  }

  lemma ReceivedIs(w: Waiting, bytes: string, limits: Limits)
    requires bytes != []
    ensures var p := Parse(w.got + bytes, Stale(limits, |w.got + bytes|), 0, |w.res|);
      var (w', outcome) := Received(w, bytes, limits);
      && outcome == p.outcome && w'.got == w.got + bytes && w'.res == w.res + p.pushed && w'.delay == w.delay
      && w'.status == (if p.status.Some? then p.status else w.status)
      && w'.text == (if p.text.Some? then p.text else w.text)
  {
    hide Parse, Stale;
  }

  // A text is left only by a reply that brings one, and such a reply ends the loop.
  lemma {:induction false} NoTextBefore(buf: string, stale: string, at: nat, size: nat)
    requires at < |buf|
    ensures var p := Parse(buf, stale, at, size);
      p.text.Some? || p.status.Some? ==> p.outcome == Code(OK) || p.outcome == Code(FAIL)
    decreases |buf| - at
  {
    hide FindCRLF, Atoi, ParseNode, ParseNodes;
    var t := buf[at..];
    if t[0] == '*' && FindCRLF(t[1..]).Some? {
      var r := ParseNodes(buf, stale, at, at + FindCRLF(t[1..]).value + 3, Atoi(t[1..]));
      if r.end.Inner? {
        NoTextBefore(buf, stale, r.end.at, size + |r.pushed|);
      }
    }
  }

  lemma {:induction false} TextEndsLoop(w: Waiting, arrivals: seq<Read>, limits: Limits)
    requires w.text == None
    ensures var (w', code) := Retry(w, arrivals, limits);
      w'.text.Some? ==> code == Some(Code(OK)) || code == Some(Code(FAIL))
    decreases |arrivals|
  {
    hide Parse, Stale, Received, Fitting, Retry;
    RetryTurn(w, arrivals, limits);
    if |w.got| < limits.maxsz && arrivals != [] {
      match arrivals[0]
      case Broken =>
      case Waited =>
        TextEndsLoop(w.(delay := w.delay + limits.tick), arrivals[1..], limits);
      case Data(bytes) =>
        if bytes != [] {
          var some := Fitting(bytes, limits.maxsz - |w.got|);
          ReceivedIs(w, some, limits);
          NoTextBefore(w.got + some, Stale(limits, |w.got + some|), 0, |w.res|);
          if Received(w, some, limits).1 == Code(TIMEOUT) {
            TextEndsLoop(Received(w, some, limits).0.(delay := 0), arrivals[1..], limits);
          }
        }
    }
  }

  function Waits(n: nat): seq<Read> {
    if n == 0 then [] else [Waited] + Waits(n - 1)
  }

  // While nothing comes it waits, and gives up when it has waited longer than the timeout.
  lemma {:induction false} TimesOut(w: Waiting, n: nat, limits: Limits)
    requires |w.got| < limits.maxsz && w.delay <= limits.timeout && limits.tick > 0
    ensures Retry(w, Waits(n), limits).1 ==
      if w.delay + n * limits.tick > limits.timeout then Some(Code(TIMEOUT)) else None
    ensures Retry(w, Waits(n), limits).0.res == w.res
    decreases n
  {
    RetryTurn(w, Waits(n), limits);
    hide Retry;
    if n > 0 {
      var w' := w.(delay := w.delay + limits.tick);
      assert Waits(n)[1..] == Waits(n - 1);
      assert n * limits.tick == limits.tick + (n - 1) * limits.tick;
      if w'.delay <= limits.timeout {
        TimesOut(w', n - 1, limits);
      } else {
        assert (n - 1) * limits.tick >= 0;
      }
    }
  }

  // The arrivals bring exactly these bytes, in any pieces, with no wait over the timeout.
  predicate Delivers(arrivals: seq<Read>, rest: string, delay: int, limits: Limits)
    decreases |arrivals|
  {
    if rest == [] then arrivals == []
    else
      arrivals != [] &&
      match arrivals[0]
      case Broken => false
      case Waited => delay + limits.tick <= limits.timeout && Delivers(arrivals[1..], rest, delay + limits.tick, limits)
      case Data(bytes) => bytes != [] && bytes <= rest && Delivers(arrivals[1..], rest[|bytes|..], 0, limits)
  }

  // One turn of the loop, when what is still to come fits.
  lemma OneRead(w: Waiting, arrivals: seq<Read>, rest: string, limits: Limits)
    requires rest != [] && |w.got| + |rest| <= limits.maxsz && Delivers(arrivals, rest, w.delay, limits)
    ensures arrivals != [] && !arrivals[0].Broken?
    ensures arrivals[0].Waited? ==>
      var w' := w.(delay := w.delay + limits.tick);
      Delivers(arrivals[1..], rest, w'.delay, limits) && Retry(w, arrivals, limits) == Retry(w', arrivals[1..], limits)
    ensures arrivals[0].Data? ==>
      var bytes := arrivals[0].bytes;
      && bytes != [] && bytes <= rest && Delivers(arrivals[1..], rest[|bytes|..], 0, limits)
      && var (w', outcome) := Received(w, bytes, limits);
      Retry(w, arrivals, limits) ==
        if outcome == Code(TIMEOUT) then Retry(w'.(delay := 0), arrivals[1..], limits) else (w', Some(outcome))
  {
    hide Received;
  }

  // A reply that does not fit the buffer ends in an error, however it comes.
  lemma {:induction false} DoesNotFit(r: Reply, w: Waiting, arrivals: seq<Read>, rest: string, limits: Limits)
    requires WellFormed(r) && |w.got| < limits.maxsz < |PrintReply(r)|
    requires w.got + rest == PrintReply(r) && Delivers(arrivals, rest, w.delay, limits)
    ensures var (w', code) := Retry(w, arrivals, limits);
      code == Some(Code(PARAMERR)) && w'.res == w.res && w'.status == w.status && w'.text == w.text
    decreases |arrivals|
  {
    hide Parse, PrintReply, Meaning, Retry, Fitting, Received;
    assert rest != [];
    RetryTurn(w, arrivals, limits);
    match arrivals[0]
    case Waited =>
      DoesNotFit(r, w.(delay := w.delay + limits.tick), arrivals[1..], rest, limits);
    case Data(bytes) =>
      var some := Fitting(bytes, limits.maxsz - |w.got|);
      var got := w.got + some;
      assert some == rest[..|some|] && PrintReply(r)[..|got|] == got;
      ReplyOfPrefix(r, |got|, |w.res|, Stale(limits, |got|));
      ReceivedIs(w, some, limits);
      var w' := Received(w, some, limits).0.(delay := 0);
      assert w'.res == w.res && w'.text == w.text && w'.status == w.status;
      if |got| < limits.maxsz {
        assert some == bytes && got + rest[|bytes|..] == PrintReply(r) by {
          FitsWhole(bytes, limits.maxsz - |w.got|);
        }
        DoesNotFit(r, w', arrivals[1..], rest[|bytes|..], limits);
      } else {
        RetryTurn(w', arrivals[1..], limits);
      }
  }

  lemma FitsWhole(bytes: string, room: nat)
    requires bytes != [] && room > 0
    ensures |Fitting(bytes, room)| < room ==> Fitting(bytes, room) == bytes
  {
  }

  lemma {:induction false} AnyChunks(r: Reply, w: Waiting, arrivals: seq<Read>, rest: string, limits: Limits)
    requires WellFormed(r) && |PrintReply(r)| <= limits.maxsz
    requires w.got + rest == PrintReply(r) && rest != [] && Delivers(arrivals, rest, w.delay, limits)
    ensures var (w', code) := Retry(w, arrivals, limits);
      var m := Meaning(r);
      && code == Some(m.outcome) && w'.got == PrintReply(r) && w'.res == w.res + m.pushed
      && w'.status == (if m.status.Some? then m.status else w.status)
      && w'.text == if m.text.Some? then m.text else w.text
    decreases |arrivals|
  {
    hide Parse, PrintReply, Meaning, Retry, Delivers;
    OneRead(w, arrivals, rest, limits);
    match arrivals[0]
    case Waited =>
      AnyChunks(r, w.(delay := w.delay + limits.tick), arrivals[1..], rest, limits);
    case Data(bytes) =>
      var rest' := rest[|bytes|..];
      assert w.got + bytes + rest' == PrintReply(r);
      assert PrintReply(r)[..|w.got + bytes|] == w.got + bytes;
      ReplyOfPrefix(r, |w.got + bytes|, |w.res|, Stale(limits, |w.got + bytes|));
      MeaningIsFinal(r);
      if rest' != [] {
        assert Received(w, bytes, limits).0 == w.(got := w.got + bytes);
        AnyChunks(r, w.(got := w.got + bytes, delay := 0), arrivals[1..], rest', limits);
      }
  }

  lemma MeaningIsFinal(r: Reply)
    ensures Meaning(r).outcome != Code(TIMEOUT)
  {
  }

  // ----- the same loop on an array: res is not cleared between parses

  // What the parses push while an array arrives, m bytes of it being there before.
  function Repeats(items: seq<string>, m: nat, arrivals: seq<Read>): seq<string>
    decreases |arrivals|
  {
    if arrivals == [] then []
    else if !arrivals[0].Data? then Repeats(items, m, arrivals[1..])
    else
      var m' := m + |arrivals[0].bytes|;
      if m' >= |PrintArray(items)| then items
      else items[..Complete(items, m' - |PrintHeader(|items|)|)] + Repeats(items, m', arrivals[1..])
  }

  // No piece but the last ends where a node ends with a negative number left behind it.
  predicate Calm(items: seq<string>, m: nat, arrivals: seq<Read>, limits: Limits)
    decreases |arrivals|
  {
    arrivals != [] ==>
      if !arrivals[0].Data? then Calm(items, m, arrivals[1..], limits)
      else
        var m' := m + |arrivals[0].bytes|;
        && (AtCut(items, m' - |PrintHeader(|items|)|) ==> !NegativeAhead(Stale(limits, m')))
        && (m' < |PrintArray(items)| ==> Calm(items, m', arrivals[1..], limits))
  }

  lemma OneCalm(items: seq<string>, m: nat, arrivals: seq<Read>, limits: Limits)
    requires arrivals != [] && Calm(items, m, arrivals, limits)
    ensures !arrivals[0].Data? ==> Calm(items, m, arrivals[1..], limits)
    ensures arrivals[0].Data? ==>
      var m' := m + |arrivals[0].bytes|;
      && (AtCut(items, m' - |PrintHeader(|items|)|) ==> !NegativeAhead(Stale(limits, m')))
      && (m' < |PrintArray(items)| ==> Calm(items, m', arrivals[1..], limits))
  {
  }

  // An array in pieces: then it is recognised as whole exactly when it is, but every item
  // that was complete at the end of some earlier piece is there again.
  lemma {:induction false} ArrayInChunks(items: seq<string>, w: Waiting, arrivals: seq<Read>, rest: string,
                                              limits: Limits)
    requires |PrintArray(items)| <= limits.maxsz
    requires w.got + rest == PrintArray(items) && rest != [] && Delivers(arrivals, rest, w.delay, limits)
    requires Calm(items, |w.got|, arrivals, limits)
    ensures var (w', code) := Retry(w, arrivals, limits);
      && code == Some(Code(|w'.res|)) && w'.res == w.res + Repeats(items, |w.got|, arrivals)
      && w'.status == w.status && w'.text == w.text
    decreases |arrivals|
  {
    hide Parse, PrintArray, PrintHeader, Complete, Retry, Delivers, Repeats, Calm, AtCut, NegativeAhead, Stale;
    OneRead(w, arrivals, rest, limits);
    OneRepeat(items, |w.got|, arrivals);
    OneCalm(items, |w.got|, arrivals, limits);
    match arrivals[0]
    case Waited =>
      ArrayInChunks(items, w.(delay := w.delay + limits.tick), arrivals[1..], rest, limits);
    case Data(bytes) =>
      var rest' := rest[|bytes|..];
      var m := |w.got + bytes|;
      assert w.got + bytes + rest' == PrintArray(items);
      assert PrintArray(items)[..m] == w.got + bytes;
      ArrayOfPrefix(items, m, |w.res|, Stale(limits, m));
      if rest' != [] {
        var w' := Received(w, bytes, limits).0.(delay := 0);
        ArrayInChunks(items, w', arrivals[1..], rest', limits);
        var k := Complete(items, m - |PrintHeader(|items|)|);
        var more := Repeats(items, m, arrivals[1..]);
        assert w.res + items[..k] + more == w.res + (items[..k] + more);
      }
  }

  lemma OneRepeat(items: seq<string>, m: nat, arrivals: seq<Read>)
    requires arrivals != []
    ensures !arrivals[0].Data? ==> Repeats(items, m, arrivals) == Repeats(items, m, arrivals[1..])
    ensures arrivals[0].Data? ==>
      var m' := m + |arrivals[0].bytes|;
      if m' >= |PrintArray(items)| then Repeats(items, m, arrivals) == items
      else
        var k := Complete(items, m' - |PrintHeader(|items|)|);
        Repeats(items, m, arrivals) == items[..k] + Repeats(items, m', arrivals[1..])
  {
  }

  // How many bytes had come before the last piece.
  function BeforeLast(m: nat, rest: string, arrivals: seq<Read>): int
    requires arrivals != []
  {
    var last := arrivals[|arrivals| - 1];
    m + |rest| - if last.Data? then |last.bytes| else 0
  }

  lemma {:induction false} PushesAtLeast(items: seq<string>, m: nat, rest: string, delay: int, arrivals: seq<Read>,
                                              limits: Limits)
    requires m + |rest| == |PrintArray(items)| && rest != [] && Delivers(arrivals, rest, delay, limits)
    ensures |Repeats(items, m, arrivals)| >= |items| && BeforeLast(m, rest, arrivals) >= m
    decreases |arrivals|
  {
    hide PrintArray, PrintHeader, Complete;
    match arrivals[0]
    case Waited =>
      PushesAtLeast(items, m, rest, delay + limits.tick, arrivals[1..], limits);
    case Data(bytes) =>
      if |bytes| < |rest| {
        PushesAtLeast(items, m + |bytes|, rest[|bytes|..], 0, arrivals[1..], limits);
      }
  }

  // So the strings come out exactly once precisely when no piece but the last reached the
  // end of the first item.
  lemma {:induction false} ExactOnlyIfLate(items: seq<string>, m: nat, rest: string, delay: int, arrivals: seq<Read>,
                                              limits: Limits)
    requires m + |rest| == |PrintArray(items)| && rest != [] && Delivers(arrivals, rest, delay, limits)
    requires items != [] ==> m < |PrintHeader(|items|)| + |PrintBulk(items[0])|
    ensures Repeats(items, m, arrivals) == items <==>
      items == [] || BeforeLast(m, rest, arrivals) < |PrintHeader(|items|)| + |PrintBulk(items[0])|
    decreases |arrivals|
  {
    hide PrintArray, PrintHeader, PrintBulk;
    match arrivals[0]
    case Waited =>
      ExactOnlyIfLate(items, m, rest, delay + limits.tick, arrivals[1..], limits);
    case Data(bytes) =>
      if |bytes| < |rest| {
        var m', rest' := m + |bytes|, rest[|bytes|..];
        if items == [] || m' < |PrintHeader(|items|)| + |PrintBulk(items[0])| {
          ExactOnlyIfLate(items, m', rest', 0, arrivals[1..], limits);
          assert items[..0] + Repeats(items, m', arrivals[1..]) == Repeats(items, m', arrivals[1..]);
        } else {
          PushesAtLeast(items, m', rest', 0, arrivals[1..], limits);
          assert Complete(items, m' - |PrintHeader(|items|)|) >= 1;
        }
      }
  }

  // Some piece, but not the last, ends at position x.
  predicate EndsAt(x: nat, m: nat, arrivals: seq<Read>)
    decreases |arrivals|
  {
    |arrivals| > 1 &&
    if !arrivals[0].Data? then EndsAt(x, m, arrivals[1..])
    else m + |arrivals[0].bytes| == x || EndsAt(x, m + |arrivals[0].bytes|, arrivals[1..])
  }

  // No piece but the last reaches the end of the first item.
  predicate Late(items: seq<string>, m: nat, rest: string, arrivals: seq<Read>)
    requires arrivals != []
  {
    items == [] || BeforeLast(m, rest, arrivals) < |PrintHeader(|items|)| + |PrintBulk(items[0])|
  }

  // Of the bytes left in the buffer only those behind the header matter then.
  predicate Misled(items: seq<string>, m: nat, arrivals: seq<Read>, limits: Limits) {
    var h := |PrintHeader(|items|)|;
    items != [] && EndsAt(h, m, arrivals) && Harmful(|items|, Stale(limits, h))
  }

  // A piece that ends before the first item does.
  lemma EarlyPiece(items: seq<string>, m: nat, size: nat, stale: string)
    requires 0 < m < |PrintArray(items)|
    requires items != [] && m < |PrintHeader(|items|)| + |PrintBulk(items[0])|
    ensures Parse(PrintArray(items)[..m], stale, 0, size) ==
      if m != |PrintHeader(|items|)| || !Harmful(|items|, stale) then Parsed(Code(TIMEOUT), [], None, None)
      else if |items| == 1 then Parsed(Code(size), [], None, None)
      else Parsed(SteppedBack, [], None, None)
  {
    hide Parse, PrintHeader, PrintItems, PrintBulk, Harmful, NegativeAhead, AtCut, Complete;
    var h := PrintHeader(|items|);
    Prefix(h, PrintItems(items), m);
    if m == |h| {
      assert h + PrintItems(items)[..0] == h;
      HeaderAlone(|items|, size, stale);
    } else {
      FirstItem(items, m - |h|);
      BulkStarts(items[0]);
      if m < |h| {
        NoneComplete(items, m - |h|);
        NoCutBefore(items, m - |h|);
      }
      ArrayOfPrefix(items, m, size, stale);
    }
  }

  lemma NoCutBefore(items: seq<string>, m: int)
    requires m < 0
    ensures !AtCut(items, m)
  {
    hide PrintBulk;
  }

  lemma OneEnd(x: nat, m: nat, arrivals: seq<Read>)
    requires |arrivals| > 1
    ensures EndsAt(x, m, arrivals) <==>
      if !arrivals[0].Data? then EndsAt(x, m, arrivals[1..])
      else m + |arrivals[0].bytes| == x || EndsAt(x, m + |arrivals[0].bytes|, arrivals[1..])
  {
  }

  lemma LateOn(items: seq<string>, m: nat, rest: string, delay: int, arrivals: seq<Read>, limits: Limits)
    requires rest != [] && Delivers(arrivals, rest, delay, limits) && m + |rest| == |PrintArray(items)|
    requires arrivals != [] && Late(items, m, rest, arrivals)
    ensures arrivals[0].Waited? ==> |arrivals| > 1 && Late(items, m, rest, arrivals[1..])
    ensures arrivals[0].Data? && |arrivals[0].bytes| < |rest| ==>
      var m', rest' := m + |arrivals[0].bytes|, rest[|arrivals[0].bytes|..];
      && |arrivals| > 1 && Late(items, m', rest', arrivals[1..])
      && (items != [] ==> m' < |PrintHeader(|items|)| + |PrintBulk(items[0])|)
    ensures arrivals[0].Data? && |arrivals[0].bytes| == |rest| ==> |arrivals| == 1
  {
    hide PrintHeader, PrintBulk, PrintArray, Repeats;
    if arrivals[0].Data? && |arrivals[0].bytes| < |rest| {
      PushesAtLeast(items, m + |arrivals[0].bytes|, rest[|arrivals[0].bytes|..], 0, arrivals[1..], limits);
    }
  }

  // Without such a piece: the strings come out once, unless the header ended a piece and
  // what was left behind it misled the parser.
  lemma {:induction false} LateArray(items: seq<string>, w: Waiting, arrivals: seq<Read>, rest: string, limits: Limits)
    requires |PrintArray(items)| <= limits.maxsz && items != []
    requires w.got + rest == PrintArray(items) && rest != [] && Delivers(arrivals, rest, w.delay, limits)
    requires arrivals != [] && Late(items, |w.got|, rest, arrivals)
    ensures var (w', code) := Retry(w, arrivals, limits);
      if Misled(items, |w.got|, arrivals, limits)
      then w'.res == w.res && code == Some(if |items| == 1 then Code(|w.res|) else SteppedBack)
      else w'.res == w.res + items && code == Some(Code(|w.res| + |items|))
    decreases |arrivals|
  {
    hide Parse, PrintArray, PrintHeader, PrintBulk, Retry, Delivers, Late, EndsAt, Harmful, Stale, AtCut, NegativeAhead;
    OneRead(w, arrivals, rest, limits);
    LateOn(items, |w.got|, rest, w.delay, arrivals, limits);
    var h := |PrintHeader(|items|)|;
    match arrivals[0]
    case Waited =>
      OneEnd(h, |w.got|, arrivals);
      LateArray(items, w.(delay := w.delay + limits.tick), arrivals[1..], rest, limits);
    case Data(bytes) =>
      var rest' := rest[|bytes|..];
      var m := |w.got + bytes|;
      assert w.got + bytes + rest' == PrintArray(items);
      assert PrintArray(items)[..m] == w.got + bytes;
      if rest' == [] {
        assert w.got + bytes == PrintArray(items);
        WholeArray(items, |w.res|, Stale(limits, m));
        OneIsLast(h, |w.got|, arrivals);
      } else {
        OneEnd(h, |w.got|, arrivals);
        EarlyPiece(items, m, |w.res|, Stale(limits, m));
        if m != h || !Harmful(|items|, Stale(limits, h)) {
          var w' := Received(w, bytes, limits).0.(delay := 0);
          assert w'.res == w.res + [] == w.res;
          LateArray(items, w', arrivals[1..], rest', limits);
        }
      }
  }

  lemma OneIsLast(x: nat, m: nat, arrivals: seq<Read>)
    requires |arrivals| <= 1
    ensures !EndsAt(x, m, arrivals)
  {
  }

  lemma WholeArray(items: seq<string>, size: nat, stale: string)
    ensures Parse(PrintArray(items), stale, 0, size) == Parsed(Code(size + |items|), items, None, None)
  {
    NoCutAtEnd(items);
    ArrayOfPrefix(items, |PrintArray(items)|, size, stale);
    assert PrintArray(items)[..|PrintArray(items)|] == PrintArray(items);
  }

  // The result is the list if and only if no piece but the last reaches the end of the
  // first string and the parser is not misled by bytes left behind the header. (When some
  // piece does reach it, this needs the bytes left behind the other nodes to be no negative
  // numbers: they can end the loop at any of them, by chance at the right length.)
  lemma ArrayResultExact(items: seq<string>, w: Waiting, arrivals: seq<Read>, limits: Limits)
    requires |PrintArray(items)| <= limits.maxsz
    requires w.got == [] && w.res == [] && Delivers(arrivals, PrintArray(items), w.delay, limits) && arrivals != []
    requires Late(items, 0, PrintArray(items), arrivals) || Calm(items, 0, arrivals, limits)
    ensures var (w', code) := Retry(w, arrivals, limits);
      && code.Some?
      && ((w'.res == items && code == Some(Code(|items|))) <==>
          (Late(items, 0, PrintArray(items), arrivals) && !Misled(items, 0, arrivals, limits)))
  {
    assert PrintArray(items) != [];
    hide Retry, Delivers, PrintItems, PrintBulk, BeforeLast, Calm, Misled, PrintHeader, PrintArray;
    if items != [] && Late(items, 0, PrintArray(items), arrivals) {
      LateArray(items, w, arrivals, PrintArray(items), limits);
    } else {
      if items == [] {
        NothingToMiss(0, arrivals, limits);
      }
      ArrayInChunks(items, w, arrivals, PrintArray(items), limits);
      FirstComesLater(items);
      ExactOnlyIfLate(items, 0, PrintArray(items), w.delay, arrivals, limits);
      assert [] + Repeats(items, 0, arrivals) == Repeats(items, 0, arrivals);
    }
  }

  lemma FirstComesLater(items: seq<string>)
    ensures items != [] ==> 0 < |PrintHeader(|items|)| + |PrintBulk(items[0])|
  {
  }

  lemma {:induction false} NothingToMiss(m: nat, arrivals: seq<Read>, limits: Limits)
    ensures Calm([], m, arrivals, limits) && !Misled([], m, arrivals, limits)
    decreases |arrivals|
  {
    if arrivals != [] {
      NothingToMiss(if arrivals[0].Data? then m + |arrivals[0].bytes| else m, arrivals[1..], limits);
    }
  }

  // Two strings in two pieces, cut within the second: the first comes out twice, whatever
  // the buffer held.
  lemma TwoPieces(x: string, y: string, limits: Limits)
    requires |PrintArray([x, y])| <= limits.maxsz
    ensures var arrivals := [Data(PrintHeader(2) + PrintBulk(x) + "$"), Data(PrintBulk(y)[1..])];
      var (w, code) := Retry(Waiting([], 0, [], None, None), arrivals, limits);
      code == Some(Code(3)) && w.res == [x, x, y]
  {
    var items, head, tail := [x, y], PrintHeader(2) + PrintBulk(x) + "$", PrintBulk(y)[1..];
    var arrivals := [Data(head), Data(tail)];
    TwoItems(x, y);
    TwoText(x, y);
    hide *;
    TwoDelivered(head, tail, limits);
    assert [] + (head + tail) == head + tail;
    TwoCalm(items, head, tail, limits);
    ArrayInChunks(items, Waiting([], 0, [], None, None), arrivals, head + tail, limits);
    TwoRepeats(items, head, tail);
    assert [x] + [x, y] == [x, x, y] && [x, y][..1] == [x];
  }

  lemma TwoRepeats(items: seq<string>, a: string, b: string)
    requires b != [] && PrintArray(items) == a + b
    ensures Repeats(items, 0, [Data(a), Data(b)]) == items[..Complete(items, |a| - |PrintHeader(|items|)|)] + items
  {
    hide *;
    RepeatAndMore(items, a, b);
    RepeatLast(items, |a|, b);
  }

  lemma RepeatAndMore(items: seq<string>, a: string, b: string)
    requires |a| < |PrintArray(items)|
    ensures Repeats(items, 0, [Data(a), Data(b)]) ==
      items[..Complete(items, |a| - |PrintHeader(|items|)|)] + Repeats(items, |a|, [Data(b)])
  {
    hide PrintArray, PrintHeader, Complete;
    assert [Data(a), Data(b)][1..] == [Data(b)];
  }

  lemma RepeatLast(items: seq<string>, m: nat, b: string)
    requires m + |b| >= |PrintArray(items)|
    ensures Repeats(items, m, [Data(b)]) == items
  {
    hide PrintArray, PrintHeader, Complete;
  }

  lemma TwoText(x: string, y: string)
    ensures var head, tail := PrintHeader(2) + PrintBulk(x) + "$", PrintBulk(y)[1..];
      && head != [] && tail != [] && PrintArray([x, y]) == head + tail
      && |head| - |PrintHeader(2)| == |PrintBulk(x)| + 1
      && |head + tail| - |PrintHeader(2)| == |PrintBulk(x)| + |PrintBulk(y)|
  {
    TwoItems(x, y);
    hide PrintBulk, PrintHeader, PrintItems, Complete, AtCut;
    assert PrintBulk(y) == "$" + PrintBulk(y)[1..];
  }

  lemma TwoItems(x: string, y: string)
    ensures PrintItems([x, y]) == PrintBulk(x) + PrintBulk(y)
    ensures Complete([x, y], |PrintBulk(x)| + 1) == 1 && !AtCut([x, y], |PrintBulk(x)| + 1)
    ensures !AtCut([x, y], |PrintBulk(x)| + |PrintBulk(y)|)
    ensures PrintBulk(x) != [] && PrintBulk(y) != [] && PrintBulk(y)[0] == '$' && |PrintBulk(y)| > 1
  {
    NoCutAtEnd([x, y]);
    hide AtCut, Complete;
    FirstItem([x, y], |PrintBulk(x)| + 1);
    FirstItem([y], 1);
    NoItems([], 1 - |PrintBulk(y)|);
    assert [x, y][1..] == [y] && [y][1..] == [];
  }

  lemma TwoCalm(items: seq<string>, a: string, b: string, limits: Limits)
    requires a != [] && PrintArray(items) == a + b
    requires !AtCut(items, |a| - |PrintHeader(|items|)|) && !AtCut(items, |a + b| - |PrintHeader(|items|)|)
    ensures Calm(items, 0, [Data(a), Data(b)], limits)
  {
    hide PrintArray, PrintHeader, AtCut, NegativeAhead, Stale;
    assert [Data(a), Data(b)][1..] == [Data(b)] && [Data(b)][1..] == [];
    assert Calm(items, |a|, [Data(b)], limits);
  }

  lemma TwoDelivered(a: string, b: string, limits: Limits)
    requires a != [] && b != []
    ensures Delivers([Data(a), Data(b)], a + b, 0, limits)
  {
    assert [Data(a), Data(b)][1..] == [Data(b)] && [Data(b)][1..] == [];
    assert (a + b)[|a|..] == b && b[|b|..] == [];
    assert Delivers([Data(b)], b, 0, limits);
  }

  // An earlier reply, "+aaaa-1", has left its number behind the place where the header of
  // the array of x ends a piece: the array is taken for done, and empty.
  lemma StaleNumber(x: string, limits: Limits, more: string)
    requires |PrintArray([x])| <= limits.maxsz && limits.before == "+aaaa-1\r\n\0" + more
    ensures var (w, code) := Retry(Waiting([], 0, [], None, None), [Data(PrintHeader(1)), Data(PrintBulk(x))], limits);
      code == Some(Code(0)) && w.res == []
  {
    var items, arrivals := [x], [Data(PrintHeader(1)), Data(PrintBulk(x))];
    BulkStarts(x);
    OneItem(x);
    LeftBehind(limits, more);
    hide PrintBulk, PrintHeader, PrintItems, Retry, Harmful, NegativeAhead, Delivers, Stale;
    TwoDelivered(PrintHeader(1), PrintBulk(x), limits);
    assert [] + (PrintHeader(1) + PrintBulk(x)) == PrintArray(items);
    assert arrivals[1..] == [Data(PrintBulk(x))];
    assert EndsAt(|PrintHeader(1)|, 0, arrivals);
    LateArray(items, Waiting([], 0, [], None, None), arrivals, PrintArray(items), limits);
  }

  lemma OneItem(x: string)
    ensures PrintArray([x]) == PrintHeader(1) + PrintBulk(x) && |PrintHeader(1)| == 4
  {
    hide PrintBulk;
    FirstItem([x], 0);
    assert PrintBulk(x) + [] == PrintBulk(x);
  }

  lemma LeftBehind(limits: Limits, more: string)
    requires limits.before == "+aaaa-1\r\n\0" + more
    ensures Harmful(1, Stale(limits, 4))
  {
    var stale, rest := Stale(limits, 4), "\r\n\0" + more;
    assert stale == ['-'] + "1" + rest;
    AtoiMinus(1, rest);
    assert Print(1) == "1";
    assert stale == "-1" + rest;
    FindSkip("-1", rest);
    hide Atoi;
  }

  // Why nothing exact is said of pieces that reach the first string when negative numbers
  // are left behind later nodes: three equal strings, one of them twice and one not at all.
  lemma RightByChance(x: string, limits: Limits)
    requires |PrintArray([x, x, x])| <= limits.maxsz
    requires !NegativeAhead(Stale(limits, |PrintHeader(3) + PrintBulk(x)|))
    requires NegativeAhead(Stale(limits, |PrintHeader(3) + PrintBulk(x) + PrintBulk(x)|))
    ensures var arrivals := [Data(PrintHeader(3) + PrintBulk(x)), Data(PrintBulk(x)), Data(PrintBulk(x))];
      var (w, code) := Retry(Waiting([], 0, [], None, None), arrivals, limits);
      code == Some(Code(3)) && w.res == [x, x, x]
  {
    BulkStarts(x);
    ThreeItems(x);
    OneOfThree(x, Stale(limits, |PrintHeader(3) + PrintBulk(x)|));
    TwoOfThree(x, Stale(limits, |PrintHeader(3) + PrintBulk(x) + PrintBulk(x)|));
    hide *;
    TwoReads(x, PrintHeader(3) + PrintBulk(x), PrintBulk(x), limits);
  }

  lemma TwoReads(x: string, a: string, b: string, limits: Limits)
    requires a != [] && b != [] && |a| + |b| <= limits.maxsz
    requires Parse(a, Stale(limits, |a|), 0, 0) == Parsed(Code(TIMEOUT), [x], None, None)
    requires Parse(a + b, Stale(limits, |a + b|), 0, 1) == Parsed(Code(3), [x, x], None, None)
    ensures var (w, code) := Retry(Waiting([], 0, [], None, None), [Data(a), Data(b), Data(b)], limits);
      code == Some(Code(3)) && w.res == [x, x, x]
  {
    hide Parse, Stale, Retry, Received;
    var w0, w1 := Waiting([], 0, [], None, None), Waiting(a, 0, [x], None, None);
    var arrivals := [Data(a), Data(b), Data(b)];
    assert [] + a == a && [] + [x] == [x] && [x] + [x, x] == [x, x, x];
    assert arrivals[1..] == [Data(b), Data(b)];
    RetryTurn(w0, arrivals, limits);
    RetryTurn(w1, arrivals[1..], limits);
    ReceivedIs(w0, a, limits);
    ReceivedIs(w1, b, limits);
  }

  lemma ThreeItems(x: string)
    ensures |PrintArray([x, x, x])| == |PrintHeader(3) + PrintBulk(x)| + 2 * |PrintBulk(x)|
    ensures PrintHeader(3) != []
  {
    hide PrintBulk;
    FirstItem([x, x, x], 0);
    FirstItem([x, x], 0);
    FirstItem([x], 0);
    assert [x, x, x][1..] == [x, x] && [x, x][1..] == [x];
  }

  lemma OneOfThree(x: string, stale: string)
    requires !NegativeAhead(stale)
    ensures Parse(PrintHeader(3) + PrintBulk(x), stale, 0, 0) == Parsed(Code(TIMEOUT), [x], None, None)
  {
    hide ParseNode, ParseNodes, Parse, PrintHeader, PrintBulk, NegativeAhead;
    var h, b := PrintHeader(3), PrintBulk(x);
    BulkStarts(x);
    ParseHeader(3, b, 0, stale);
    NodeAndMore(h, x, [], stale, 3);
    assert h + b + [] == h + b && (h + b)[|h + b|..] == [];
    OneMoreNode(h + b, stale, 0, |h + b|, 2);
    NothingThere(stale);
    assert [x] + [] == [x];
  }

  // The node at the end of a is the string x, and more follows.
  lemma NodeAndMore(a: string, x: string, more: string, stale: string, count: nat)
    requires count > 0
    ensures var buf := a + PrintBulk(x) + more;
      var r := ParseNodes(buf, stale, 0, |a + PrintBulk(x)|, count - 1);
      ParseNodes(buf, stale, 0, |a|, count) == Nodes([x] + r.pushed, r.end)
  {
    BulkStarts(x);
    hide ParseNode, ParseNodes, PrintBulk;
    var b := PrintBulk(x);
    var buf := a + b + more;
    assert buf[|a|..] == b + more && buf[|a|] == b[0];
    OneMoreNode(buf, stale, 0, |a|, count);
    NodeWhole(x, more, stale);
  }

  lemma TwoOfThree(x: string, stale: string)
    requires NegativeAhead(stale)
    ensures Parse(PrintHeader(3) + PrintBulk(x) + PrintBulk(x), stale, 0, 1) == Parsed(Code(3), [x, x], None, None)
  {
    hide ParseNode, ParseNodes, Parse, PrintHeader, PrintBulk, NegativeAhead, Atoi;
    var h, b := PrintHeader(3), PrintBulk(x);
    var buf := h + b + b;
    assert buf == h + (b + b) && buf == (h + b) + b + [] && buf[|buf|..] == [];
    ParseHeader(3, b + b, 1, stale);
    NodeAndMore(h, x, b, stale, 3);
    NodeAndMore(h + b, x, [], stale, 2);
    OneMoreNode(buf, stale, 0, |buf|, 1);
    NothingThere(stale);
    NoMoreNodes(buf, stale, 0, |buf| + Atoi(stale), 0);
    assert [x] + ([x] + []) == [x, x];
  }
}
