/** What the server answers on one connection: it parses once for every read, hands at most one
    request to its callback for it, and sends nothing more after an answer that closes. */
module HttpAnswers {
  import opened ConnPhases
  import opened HttpMessages
  import opened HttpRoundTrip

  // What goes out for a read: the text of a refusal, or the response to a request.
  datatype Reply = BadRequest | Answer(request: Request)

  // What a callback makes of the response's close flag, given how it was set for the request.
  type Callback = (Request, bool) -> bool

  function HeaderOf(r: Request, field: string): string {
    if field in r.headers then r.headers[field] else ""
  }

  predicate AsksToClose(r: Request) {
    HeaderOf(r, "Connection") == "close" || (r.version == Http10 && HeaderOf(r, "Connection") != "Keep-Alive")
  }

  predicate Closes(reply: Reply, callback: Callback) {
    reply.BadRequest? || callback(reply.request, AsksToClose(reply.request))
  }

  // A connection: its phase, its parser, and the bytes read but not yet parsed.
  datatype Server = Server(phase: Phase, context: Context, buffered: string)

  const ACCEPTED := Server(Connected, FRESH, [])

  // send() sends only while the connection is up.
  function Sent(phase: Phase, reply: Reply): seq<Reply> {
    if phase == Connected then [reply] else []
  }

  function AfterReply(phase: Phase, reply: Reply, callback: Callback): Phase {
    if Closes(reply, callback) then phase.ShutDown() else phase
  }

  // onMessage() and onRequest(): what is sent for the bytes of one read, and what becomes of
  // the connection.
  function OnMessage(s: Server, bytes: string, time: int, callback: Callback): (r: (seq<Reply>, Server))
    requires Expecting(s.context)
    ensures Expecting(r.1.context)
  {
    var p := Parse(s.context, s.buffered + bytes, time);
    if p.context.state == GotAll then
      var answer := Answer(p.context.request);
      (Sent(s.phase, answer), Server(AfterReply(s.phase, answer, callback), FRESH, p.rest))
    else if !p.ok then (Sent(s.phase, BadRequest), Server(AfterReply(s.phase, BadRequest, callback), p.context, p.rest))
    else ([], Server(s.phase, p.context, p.rest))
  }

  // All that is sent while reads of these pieces come. (The time a read is given is the same
  // for all: the connection passes on no reading of a clock.)
  function Replies(s: Server, pieces: seq<string>, time: int, callback: Callback): seq<Reply>
    requires Expecting(s.context)
    decreases |pieces|
  {
    if pieces == [] then []
    else
      var (sent, s') := OnMessage(s, pieces[0], time, callback);
      sent + Replies(s', pieces[1..], time, callback)
  }

  // The replies due, whether or not the connection still is up: one for each request that is
  // handed to the callback, and one for each refusal.
  function Due(c: Context, buffered: string, pieces: seq<string>, time: int): seq<Reply>
    requires Expecting(c)
    decreases |pieces|
  {
    if pieces == [] then []
    else
      var p := Parse(c, buffered + pieces[0], time);
      if p.context.state == GotAll then [Answer(p.context.request)] + Due(FRESH, p.rest, pieces[1..], time)
      else (if p.ok then [] else [BadRequest]) + Due(p.context, p.rest, pieces[1..], time)
  }

  function UpToClosing(replies: seq<Reply>, callback: Callback): seq<Reply> {
    if replies == [] then []
    else [replies[0]] + if Closes(replies[0], callback) then [] else UpToClosing(replies[1..], callback)
  }

  lemma UpToClosingStep(first: Reply, later: seq<Reply>, callback: Callback)
    ensures UpToClosing([first] + later, callback) ==
      [first] + if Closes(first, callback) then [] else UpToClosing(later, callback)
  {
    assert ([first] + later)[1..] == later;
  }

  // For any bytes in any pieces: of the replies due those up to the first that closes are sent.
  lemma {:induction false} SentUpToClosing(s: Server, pieces: seq<string>, time: int, callback: Callback)
    requires Expecting(s.context)
    ensures Replies(s, pieces, time, callback) ==
      if s.phase == Connected then UpToClosing(Due(s.context, s.buffered, pieces, time), callback) else []
    decreases |pieces|
  {
    hide Parse, Closes;
    if pieces != [] {
      var (sent, s') := OnMessage(s, pieces[0], time, callback);
      SentUpToClosing(s', pieces[1..], time, callback);
      var p, later := Parse(s.context, s.buffered + pieces[0], time), Due(s'.context, s'.buffered, pieces[1..], time);
      assert [] + Replies(s', pieces[1..], time, callback) == Replies(s', pieces[1..], time, callback);
      if p.context.state == GotAll {
        UpToClosingStep(Answer(p.context.request), later, callback);
      } else if !p.ok {
        UpToClosingStep(BadRequest, later, callback);
      } else {
        assert [] + later == later;
      }
    }
  }

  // After a refusal the connection is not up, and nothing more is sent, whatever comes.
  lemma RefusalIsLast(s: Server, bytes: string, pieces: seq<string>, time: int, callback: Callback)
    requires Expecting(s.context) && !Parse(s.context, s.buffered + bytes, time).ok
    ensures var (sent, s') := OnMessage(s, bytes, time, callback);
      && sent == (if s.phase == Connected then [BadRequest] else [])
      && s'.phase != Connected && Replies(s', pieces, time, callback) == []
  {
    hide Parse;
    SentUpToClosing(OnMessage(s, bytes, time, callback).1, pieces, time, callback);
  }

  lemma {:induction false} OnePerRead(s: Server, pieces: seq<string>, time: int, callback: Callback)
    requires Expecting(s.context)
    ensures |Replies(s, pieces, time, callback)| <= |pieces|
    decreases |pieces|
  {
    hide Parse, Closes;
    if pieces != [] {
      OnePerRead(OnMessage(s, pieces[0], time, callback).1, pieces[1..], time, callback);
    }
  }

  // However many requests a read brings, only the first is answered; the others wait in the
  // buffer for another read, even if nothing more is to come.
  lemma OnlyTheFirst(orders: seq<Order>, time: int, callback: Callback)
    requires orders != [] && Answerable(orders)
    ensures var (sent, s') := OnMessage(ACCEPTED, PrintAll(orders), time, callback);
      && sent == [Answer(Understood(orders[0], time))]
      && s'.context == FRESH && s'.buffered == PrintAll(orders[1..])
    ensures Replies(ACCEPTED, [PrintAll(orders)], time, callback) == [Answer(Understood(orders[0], time))]
  {
    FirstOrder(orders, time);
    hide Print, Understood, ValidOrder, Parse, Closes, Answerable;
    PrintedOrder(orders[0], PrintAll(orders[1..]), time);
    assert [] + PrintAll(orders) == PrintAll(orders);
  }

  // ----- how many requests are handed to the callback

  function Lengths(orders: seq<Order>): seq<nat> {
    if orders == [] then [] else [|Print(orders[0])|] + Lengths(orders[1..])
  }

  function Sizes(pieces: seq<string>): seq<nat> {
    if pieces == [] then [] else [|pieces[0]|] + Sizes(pieces[1..])
  }

  // How many requests of these lengths are handed on when reads of these sizes come and have
  // bytes of them are there already.
  function Served(lengths: seq<nat>, have: nat, sizes: seq<nat>): (k: nat)
    ensures k <= |lengths| && k <= |sizes|
    decreases |sizes|
  {
    if sizes == [] then 0
    else if lengths != [] && lengths[0] <= have + sizes[0] then
      1 + Served(lengths[1..], have + sizes[0] - lengths[0], sizes[1..])
    else Served(lengths, have + sizes[0], sizes[1..])
  }

  predicate Answerable(orders: seq<Order>) {
    forall i :: 0 <= i < |orders| ==> ValidOrder(orders[i]) && Accepted(orders[i])
  }

  // A request of which bytes are missing is waited for.
  lemma NotYet(o: Order, a: string, b: string, time: int)
    requires ValidOrder(o) && Accepted(o) && a + b == Print(o) && b != []
    ensures Parse(FRESH, a, time).ok && Expecting(Parse(FRESH, a, time).context)
  {
    hide Print, ValidOrder, Accepted, Understood, Parse;
    PrintedOrder(o, [], time);
    assert Print(o) + [] == Print(o);
    InPieces(FRESH, a, time, b, time);
    assert |Parse(FRESH, a, time).rest + b| > 0;
  }

  // The context and the bytes kept stand for the bytes a that have come.
  ghost predicate StandsFor(c: Context, buffered: string, a: string, time: int)
    requires Expecting(c)
  {
    forall b :: Parse(c, buffered + b, time) == Parse(FRESH, a + b, time)
  }

  lemma StandsForItself(a: string, time: int)
    ensures Expecting(FRESH) && StandsFor(FRESH, a, a, time)
  {
  }

  lemma StandsForMore(a: string, time: int)
    requires Parse(FRESH, a, time).ok && Expecting(Parse(FRESH, a, time).context)
    ensures StandsFor(Parse(FRESH, a, time).context, Parse(FRESH, a, time).rest, a, time)
  {
    hide Parse;
    var p := Parse(FRESH, a, time);
    forall b
      ensures Parse(p.context, p.rest + b, time) == Parse(FRESH, a + b, time)
    {
      InPieces(FRESH, a, time, b, time);
    }
  }

  // Printed requests in any pieces: the ones handed on are the first so many, and how many
  // that are is decided by the lengths alone.
  lemma {:induction false} HandedFrom(orders: seq<Order>, a: string, c: Context, buffered: string,
                                             pieces: seq<string>, time: int)
    requires Answerable(orders) && Expecting(c) && StandsFor(c, buffered, a, time)
    requires a + Join(pieces) == PrintAll(orders)
    ensures var k := Served(Lengths(orders), |a|, Sizes(pieces));
      && |Lengths(orders)| == |orders|
      && Due(c, buffered, pieces, time) == AnswerAll(orders[..k], time)
    decreases |pieces|
  {
    hide Print, Parse, StandsFor, ValidOrder, Accepted, Understood, PrintAll, Lengths, Served, AnswerAll, Due;
    AsManyLengths(orders);
    if pieces == [] {
      NoReads(c, buffered, orders, a, time);
    } else {
      var piece, others, whole := pieces[0], pieces[1..], a + pieces[0];
      StandsForNow(c, buffered, a, piece, time);
      assert whole + Join(others) == PrintAll(orders);
      OneRead(c, buffered, pieces, time);
      if orders == [] {
        assert whole == [] by {
          NoOrders(time);
        }
        NothingYet(time);
        StandsForItself([], time);
        NoOrders(time);
        ServedStep([], |a|, Sizes(pieces));
        HandedFrom([], [], FRESH, [], others, time);
      } else {
        FirstOrder(orders, time);
        var first, later := Print(orders[0]), PrintAll(orders[1..]);
        ServedStep(Lengths(orders), |a|, Sizes(pieces));
        if |whole| >= |first| {
          var rest := whole[|first|..];
          Split(whole, Join(others), first, later);
          PrintedOrder(orders[0], rest, time);
          StandsForItself(rest, time);
          HandedFrom(orders[1..], rest, FRESH, rest, others, time);
          var k := Served(Lengths(orders[1..]), |rest|, Sizes(others));
          OneMoreAnswer(orders, k, time);
        } else {
          Split(first, later, whole, Join(others));
          NotYet(orders[0], whole, first[|whole|..], time);
          StandsForMore(whole, time);
          var p := Parse(FRESH, whole, time);
          HandedFrom(orders, whole, p.context, p.rest, others, time);
        }
      }
    }
  }

  lemma Split(a: string, b: string, c: string, d: string)
    requires a + b == c + d && |c| <= |a|
    ensures a == c + a[|c|..] && a[|c|..] + b == d
  {
    assert (a + b)[..|c|] == c && (a + b)[|c|..] == d;
  }

  lemma AsManyLengths(orders: seq<Order>)
    ensures |Lengths(orders)| == |orders|
  {
  }

  lemma NoReads(c: Context, buffered: string, orders: seq<Order>, a: string, time: int)
    requires Expecting(c)
    ensures Due(c, buffered, [], time) == AnswerAll(orders[..0], time)
    ensures Served(Lengths(orders), |a|, Sizes([])) == 0
  {
  }

  lemma NoOrders(time: int)
    ensures PrintAll([]) == [] && Lengths([]) == [] && AnswerAll([], time) == []
  {
  }

  lemma StandsForNow(c: Context, buffered: string, a: string, piece: string, time: int)
    requires Expecting(c) && StandsFor(c, buffered, a, time)
    ensures Parse(c, buffered + piece, time) == Parse(FRESH, a + piece, time)
  {
  }

  lemma OneRead(c: Context, buffered: string, pieces: seq<string>, time: int)
    requires Expecting(c) && pieces != []
    ensures var p := Parse(c, buffered + pieces[0], time);
      && Sizes(pieces) == [|pieces[0]|] + Sizes(pieces[1..])
      && (p.context.state == GotAll ==>
        Due(c, buffered, pieces, time) == [Answer(p.context.request)] + Due(FRESH, p.rest, pieces[1..], time))
      && (p.ok && Expecting(p.context) ==>
        Due(c, buffered, pieces, time) == Due(p.context, p.rest, pieces[1..], time))
  {
    hide Parse;
    var p := Parse(c, buffered + pieces[0], time);
    var later := if p.context.state == GotAll then [] else Due(p.context, p.rest, pieces[1..], time);
    assert [] + later == later;
  }

  lemma ServedStep(lengths: seq<nat>, have: nat, sizes: seq<nat>)
    requires sizes != []
    ensures Served(lengths, have, sizes) ==
      if lengths != [] && lengths[0] <= have + sizes[0]
      then 1 + Served(lengths[1..], have + sizes[0] - lengths[0], sizes[1..])
      else Served(lengths, have + sizes[0], sizes[1..])
  {
  }

  lemma FirstOrder(orders: seq<Order>, time: int)
    requires orders != [] && Answerable(orders)
    ensures PrintAll(orders) == Print(orders[0]) + PrintAll(orders[1..])
    ensures Lengths(orders) == [|Print(orders[0])|] + Lengths(orders[1..])
    ensures ValidOrder(orders[0]) && Accepted(orders[0]) && Answerable(orders[1..])
  {
    hide Print, ValidOrder, Accepted;
  }

  lemma OneMoreAnswer(orders: seq<Order>, k: nat, time: int)
    requires orders != [] && k < |orders|
    ensures AnswerAll(orders[..k + 1], time) == [Answer(Understood(orders[0], time))] + AnswerAll(orders[1..][..k], time)
  {
    hide Understood;
    assert orders[..k + 1][1..] == orders[1..][..k];
  }

  lemma HandedExactly(orders: seq<Order>, pieces: seq<string>, time: int)
    requires Answerable(orders) && Join(pieces) == PrintAll(orders)
    ensures var k := Served(Lengths(orders), 0, Sizes(pieces));
      k <= |orders| && Due(FRESH, [], pieces, time) == AnswerAll(orders[..k], time)
  {
    hide *;
    var none: string := [];
    StandsForItself(none, time);
    assert none + Join(pieces) == Join(pieces);
    HandedFrom(orders, none, FRESH, none, pieces, time);
    ServedAtMost(Lengths(orders), 0, Sizes(pieces));
  }

  lemma ServedAtMost(lengths: seq<nat>, have: nat, sizes: seq<nat>)
    ensures Served(lengths, have, sizes) <= |lengths|
  {
  }

  // ----- and when all of them are

  function Sum(lengths: seq<nat>): nat {
    if lengths == [] then 0 else lengths[0] + Sum(lengths[1..])
  }

  // After how many of the reads at least need bytes have come.
  function ReadsWith(need: int, sizes: seq<nat>): (k: nat)
    ensures k <= |sizes| && (need <= 0 ==> k == |sizes|)
    decreases |sizes|
  {
    if sizes == [] then 0 else (if need <= sizes[0] then 1 else 0) + ReadsWith(need - sizes[0], sizes[1..])
  }

  // Request i of n needs n - i reads at which it is all there: its own and one for each
  // request behind it.
  predicate EnoughReads(lengths: seq<nat>, have: nat, sizes: seq<nat>, i: nat)
    requires i < |lengths|
  {
    ReadsWith(Sum(lengths[..i + 1]) - have, sizes) >= |lengths| - i
  }

  lemma {:induction false} AllServed(lengths: seq<nat>, have: nat, sizes: seq<nat>)
    ensures Served(lengths, have, sizes) == |lengths| <==>
      forall i :: 0 <= i < |lengths| ==> EnoughReads(lengths, have, sizes, i)
    decreases |sizes|
  {
    if sizes == [] {
      if lengths != [] {
        assert !EnoughReads(lengths, have, sizes, 0);
      }
    } else if lengths != [] {
      hide Served, EnoughReads;
      ServedStep(lengths, have, sizes);
      var now := have + sizes[0];
      if lengths[0] <= now {
        AllServed(lengths[1..], now - lengths[0], sizes[1..]);
        ServeFirst(lengths, have, sizes);
      } else {
        AllServed(lengths, now, sizes[1..]);
        forall i | 0 <= i < |lengths|
          ensures EnoughReads(lengths, have, sizes, i) <==> EnoughReads(lengths, now, sizes[1..], i)
        {
          ServedLater(lengths, have, sizes, i);
        }
      }
    }
  }

  // For a first request that is there, every read counts.
  lemma FirstServed(lengths: seq<nat>, have: nat, sizes: seq<nat>)
    requires lengths != [] && sizes != [] && lengths[0] <= have + sizes[0]
    ensures EnoughReads(lengths, have, sizes, 0) <==> |sizes| >= |lengths|
  {
    assert lengths[..1][1..] == [];
    assert Sum(lengths[..1]) == lengths[0];
  }

  lemma ServedAfterFirst(lengths: seq<nat>, have: nat, sizes: seq<nat>, i: nat)
    requires sizes != [] && 0 < i < |lengths| && lengths[0] <= have + sizes[0] && |lengths| <= |sizes|
    ensures EnoughReads(lengths, have, sizes, i) <==>
      EnoughReads(lengths[1..], have + sizes[0] - lengths[0], sizes[1..], i - 1)
  {
    assert lengths[..i + 1][1..] == lengths[1..][..i];
    assert Sum(lengths[..i + 1]) == lengths[0] + Sum(lengths[1..][..i]);
  }

  lemma TooFewReads(lengths: seq<nat>, have: nat, sizes: seq<nat>)
    requires lengths != [] && |sizes| < |lengths|
    ensures !EnoughReads(lengths, have, sizes, 0)
  {
  }

  lemma ServeFirst(lengths: seq<nat>, have: nat, sizes: seq<nat>)
    requires lengths != [] && sizes != [] && lengths[0] <= have + sizes[0]
    ensures var left := have + sizes[0] - lengths[0];
      (forall i :: 0 <= i < |lengths| ==> EnoughReads(lengths, have, sizes, i)) <==>
      (forall i :: 0 <= i < |lengths| - 1 ==> EnoughReads(lengths[1..], left, sizes[1..], i))
  {
    hide EnoughReads;
    var left := have + sizes[0] - lengths[0];
    FirstServed(lengths, have, sizes);
    if |sizes| < |lengths| {
      TooFewReads(lengths[1..], left, sizes[1..]);
      assert !(forall i :: 0 <= i < |lengths| ==> EnoughReads(lengths, have, sizes, i)) by {
        assert !EnoughReads(lengths, have, sizes, 0);
      }
      assert !(forall i :: 0 <= i < |lengths| - 1 ==> EnoughReads(lengths[1..], left, sizes[1..], i)) by {
        assert !EnoughReads(lengths[1..], left, sizes[1..], 0);
      }
    } else {
      forall i | 0 <= i < |lengths| - 1
        ensures EnoughReads(lengths[1..], left, sizes[1..], i) <==> EnoughReads(lengths, have, sizes, i + 1)
      {
        ServedAfterFirst(lengths, have, sizes, i + 1);
      }
      if forall i :: 0 <= i < |lengths| - 1 ==> EnoughReads(lengths[1..], left, sizes[1..], i) {
        forall i | 0 <= i < |lengths|
          ensures EnoughReads(lengths, have, sizes, i)
        {
          assert i > 0 ==> EnoughReads(lengths[1..], left, sizes[1..], i - 1);
        }
      }
    }
  }

  // A request that is not there yet gets nothing from this read.
  lemma ServedLater(lengths: seq<nat>, have: nat, sizes: seq<nat>, i: nat)
    requires sizes != [] && i < |lengths| && have + sizes[0] < lengths[0]
    ensures EnoughReads(lengths, have, sizes, i) <==> EnoughReads(lengths, have + sizes[0], sizes[1..], i)
  {
    assert lengths[..i + 1][0] == lengths[0];
    assert Sum(lengths[..i + 1]) >= lengths[0];
  }

  // ----- and which of them are answered

  function AnswerAll(orders: seq<Order>, time: int): (replies: seq<Reply>)
    ensures |replies| == |orders|
  {
    if orders == [] then [] else [Answer(Understood(orders[0], time))] + AnswerAll(orders[1..], time)
  }

  predicate ClosesAfter(o: Order, time: int, callback: Callback) {
    Closes(Answer(Understood(o, time)), callback)
  }

  // How many requests there are up to the first whose answer closes.
  function UpToClosingOne(orders: seq<Order>, time: int, callback: Callback): (n: nat)
    ensures n <= |orders| && (orders != [] ==> n > 0)
  {
    if orders == [] then 0
    else if ClosesAfter(orders[0], time, callback) then 1
    else 1 + UpToClosingOne(orders[1..], time, callback)
  }

  function Least(a: nat, b: nat): nat {
    if a < b then a else b
  }

  lemma {:induction false} AnswersUpToClosing(orders: seq<Order>, k: nat, time: int, callback: Callback)
    requires k <= |orders|
    ensures UpToClosing(AnswerAll(orders[..k], time), callback) ==
      AnswerAll(orders[..Least(k, UpToClosingOne(orders, time, callback))], time)
  {
    hide Understood, Closes;
    if k > 0 {
      OneMoreAnswer(orders, k - 1, time);
      var later := AnswerAll(orders[1..][..k - 1], time);
      assert ([Answer(Understood(orders[0], time))] + later)[1..] == later;
      AnswersUpToClosing(orders[1..], k - 1, time, callback);
      OneMoreAnswer(orders, Least(k, UpToClosingOne(orders, time, callback)) - 1, time);
    }
  }

  // Of printed requests in any pieces the answered ones are the first so many: those handed
  // on, up to the first whose answer closes.
  lemma AnsweredExactly(orders: seq<Order>, pieces: seq<string>, time: int, callback: Callback)
    requires Answerable(orders) && Join(pieces) == PrintAll(orders)
    ensures var n := Least(Served(Lengths(orders), 0, Sizes(pieces)), UpToClosingOne(orders, time, callback));
      n <= |orders| && Replies(ACCEPTED, pieces, time, callback) == AnswerAll(orders[..n], time)
  {
    FreshServer();
    hide *;
    HandedExactly(orders, pieces, time);
    SentUpToClosing(ACCEPTED, pieces, time, callback);
    AnswersUpToClosing(orders, Served(Lengths(orders), 0, Sizes(pieces)), time, callback);
    LeastOf(Served(Lengths(orders), 0, Sizes(pieces)), UpToClosingOne(orders, time, callback));
  }

  lemma FreshServer()
    ensures ACCEPTED == Server(Connected, FRESH, []) && Expecting(FRESH)
  {
  }

  lemma LeastOf(a: nat, b: nat)
    ensures Least(a, b) <= a && Least(a, b) <= b && (Least(a, b) == a || Least(a, b) == b)
  {
  }

  lemma {:induction false} NoneClosesBefore(orders: seq<Order>, time: int, callback: Callback)
    ensures UpToClosingOne(orders, time, callback) == |orders| <==>
      forall i :: 0 <= i < |orders| - 1 ==> !ClosesAfter(orders[i], time, callback)
  {
    hide ClosesAfter;
    if |orders| > 1 {
      NoneClosesBefore(orders[1..], time, callback);
      forall i | 0 <= i < |orders| - 2
        ensures orders[1..][i] == orders[i + 1]
      {
      }
      if forall i :: 0 <= i < |orders| - 2 ==> !ClosesAfter(orders[1..][i], time, callback) {
        forall i | 0 < i < |orders| - 1
          ensures !ClosesAfter(orders[i], time, callback)
        {
          assert orders[1..][i - 1] == orders[i];
        }
      }
    }
  }

  // So all requests are answered if and only if each is there, whole, at as many reads as
  // there are requests from it on, and none but the last asks for the close.
  lemma AllAnswered(orders: seq<Order>, pieces: seq<string>, time: int, callback: Callback)
    requires Answerable(orders) && Join(pieces) == PrintAll(orders)
    ensures |Lengths(orders)| == |orders|
    ensures Replies(ACCEPTED, pieces, time, callback) == AnswerAll(orders, time) <==>
      && (forall i :: 0 <= i < |orders| ==> EnoughReads(Lengths(orders), 0, Sizes(pieces), i))
      && (forall i :: 0 <= i < |orders| - 1 ==> !ClosesAfter(orders[i], time, callback))
  {
    FreshServer();
    hide *;
    AnsweredExactly(orders, pieces, time, callback);
    AsManyLengths(orders);
    AllServed(Lengths(orders), 0, Sizes(pieces));
    NoneClosesBefore(orders, time, callback);
    var k, f := Served(Lengths(orders), 0, Sizes(pieces)), UpToClosingOne(orders, time, callback);
    LeastOf(k, f);
    ServedAtMost(Lengths(orders), 0, Sizes(pieces));
    assert orders[..|orders|] == orders;
  }

  // ----- connections on which only one request is ever answered

  lemma {:induction false} OneIsServed(lengths: seq<nat>, have: nat, sizes: seq<nat>)
    requires lengths != [] && sizes != [] && lengths[0] <= have + Sum(sizes)
    ensures Served(lengths, have, sizes) > 0
    decreases |sizes|
  {
    if lengths[0] > have + sizes[0] {
      OneIsServed(lengths, have + sizes[0], sizes[1..]);
    }
  }

  lemma {:induction false} SumOfSizes(pieces: seq<string>)
    ensures Sum(Sizes(pieces)) == |Join(pieces)| && |Sizes(pieces)| == |pieces|
  {
    if pieces != [] {
      SumOfSizes(pieces[1..]);
    }
  }

  // A first request whose answer closes is the only one ever answered, however the bytes
  // come.
  lemma FirstCloses(orders: seq<Order>, pieces: seq<string>, time: int, callback: Callback)
    requires orders != [] && Answerable(orders) && Join(pieces) == PrintAll(orders)
    requires ClosesAfter(orders[0], time, callback)
    ensures Replies(ACCEPTED, pieces, time, callback) == [Answer(Understood(orders[0], time))]
  {
    hide ClosesAfter, Understood, Answerable, Replies, Print, Served;
    AnsweredExactly(orders, pieces, time, callback);
    FirstOrder(orders, time);
    SumOfSizes(pieces);
    assert Print(orders[0]) != [] by {
      PrintedIsLong(orders[0]);
    }
    OneIsServed(Lengths(orders), 0, Sizes(pieces));
    OneMoreAnswer(orders, 0, time);
  }

  lemma PrintedIsLong(o: Order)
    ensures Print(o) != []
  {
  }

  // The callback a server has at first closes after every answer.
  lemma DefaultAnswersOne(orders: seq<Order>, pieces: seq<string>, time: int)
    requires orders != [] && Answerable(orders) && Join(pieces) == PrintAll(orders)
    ensures Replies(ACCEPTED, pieces, time, (r: Request, close: bool) => true) == [Answer(Understood(orders[0], time))]
  {
    hide Answerable, Understood;
    FirstCloses(orders, pieces, time, (r: Request, close: bool) => true);
  }

  // ----- the close read off the request as it was printed

  // The value of the last field of that name.
  function LastValue(fields: seq<Field>, name: string): string {
    if fields == [] then ""
    else
      var last := fields[|fields| - 1];
      if last.name == name then Trim(last.value) else LastValue(fields[..|fields| - 1], name)
  }

  lemma {:induction false} HeadersOf(headers: map<string, string>, fields: seq<Field>, name: string)
    ensures var all := AddAll(headers, fields);
      if exists f :: f in fields && f.name == name then name in all && all[name] == LastValue(fields, name)
      else (name in all <==> name in headers) && (name in headers ==> all[name] == headers[name]) && LastValue(fields, name) == ""
  {
    hide Trim;
    if fields != [] {
      var n := |fields| - 1;
      HeadersOf(headers, fields[..n], name);
      AddLast(headers, fields[..n], fields[n]);
      assert fields == fields[..n] + [fields[n]];
    }
  }

  lemma {:induction false} AddLast(headers: map<string, string>, fields: seq<Field>, f: Field)
    ensures AddAll(headers, fields + [f]) == AddAll(headers, fields)[f.name := Trim(f.value)]
    decreases |fields|
  {
    hide Trim;
    if fields != [] {
      assert (fields + [f])[1..] == fields[1..] + [f];
      AddLast(headers[fields[0].name := Trim(fields[0].value)], fields[1..], f);
    }
  }

  lemma ClosesAsPrinted(o: Order, time: int)
    requires Accepted(o)
    ensures AsksToClose(Understood(o, time)) <==>
      LastValue(o.fields, "Connection") == "close" || (o.minor == 1 && LastValue(o.fields, "Connection") != "Keep-Alive")
  {
    hide Find, AddAll, LastValue;
    HeadersOf(map[], o.fields, "Connection");
  }

  lemma TwoWholeReads(o: Order, time: int)
    requires ValidOrder(o) && Accepted(o)
    ensures var orders, pieces := [o, o], [Print(o), Print(o)];
      && Answerable(orders) && Join(pieces) == PrintAll(orders)
      && Due(FRESH, [], pieces, time) == [Answer(Understood(o, time)), Answer(Understood(o, time))]
  {
    var orders, pieces := [o, o], [Print(o), Print(o)];
    hide Print, Parse, Due, Understood, ValidOrder, Accepted;
    assert orders[1..] == [o] && [o][1..] == [] && pieces[1..] == [Print(o)] && [Print(o)][1..] == [];
    var p, none: string := Print(o), [];
    NoOrders(time);
    FirstOrder([o], time);
    FirstOrder(orders, time);
    assert p + none == p && Join([p]) == p && PrintAll([o]) == p;
    HandedExactly(orders, pieces, time);
    var n := |p|;
    assert Sizes([p]) == [n];
    assert Lengths([o]) == [n] && Lengths(orders) == [n, n] && Sizes([Print(o)]) == [n] && Sizes(pieces) == [n, n];
    assert [n, n][1..] == [n];
    assert Served([n], 0, [n]) == 1 && Served([n, n], 0, [n, n]) == 2;
    assert orders[..2] == orders;
  }

  // Two HTTP/1.0 requests, each whole in a read of its own: both are handed on, and only the
  // first is answered.
  lemma ClosedAfterFirst(time: int)
    ensures var o := Order(GET, "/", 1, []);
      var answer, pieces := Answer(Understood(o, time)), [Print(o), Print(o)];
      && Due(FRESH, [], pieces, time) == [answer, answer]
      && Replies(ACCEPTED, pieces, time, (r: Request, close: bool) => close) == [answer]
  {
    var o := Order(GET, "/", 1, []);
    assert ValidOrder(o) && Accepted(o) && AsksToClose(Understood(o, time));
    hide Print, Parse, Due, Replies, Understood, ValidOrder, Accepted, AsksToClose;
    TwoWholeReads(o, time);
    FirstCloses([o, o], [Print(o), Print(o)], time, (r: Request, close: bool) => close);
  }
}
