/**
 * What the exchange does with its requests, read off the fields of the requests and of the messages: each
 * one by itself, and each one in its place in a run.
 */
module ExchangeView {
  import opened Types
  import opened Matching
  import opened BookLaws
  import opened PriceTime
  import opened OrderLife
  import opened AsWritten
  import opened AsWrittenLaws
  import opened ClientView
  import opened ExchangeModel
  import opened ExchangeAsWritten
  import opened ExchangeIds
  import opened Ownership

  /** Nothing of the floor but one ticker, the two counters and the orders counted for that ticker has changed. */
  ghost predicate OnlyTicker(f: Floor, g: Floor, ticker: TickerId) {
    && ticker in g.market.books && ticker in g.strays && ticker in g.market.rested
    && g.market.books.Keys == f.market.books.Keys && g.strays.Keys == f.strays.Keys
    && g.market.rested.Keys == f.market.rested.Keys
    && (forall t :: t in f.market.books && t != ticker ==> g.market.books[t] == f.market.books[t])
    && (forall t :: t in f.strays && t != ticker ==> g.strays[t] == f.strays[t])
    && (forall t :: t in f.market.rested && t != ticker ==> g.market.rested[t] == f.market.rested[t])
  }

  lemma {:induction false} ServeIsStep(linked: bool, f: Floor, r: ClientRequest, b: BookRequest)
    requires KnownOn(f, r) && r.kind != InvalidRequest && b == ForBook(r, f.market.nextOrderId)
    ensures var e, g := StepAsWritten(linked, r.tickerId, DeskAt(f, r.tickerId), b, f.market.nextTradeId),
                        Serve(linked, f, r);
      && OnlyTicker(f, g.floor, r.tickerId)
      && DeskAt(g.floor, r.tickerId) == e.desk && g.responses == e.responses && g.updates == e.updates
      && g.floor.market.nextTradeId == e.nextTradeId
      && g.floor.market.rested[r.tickerId]
         == f.market.rested[r.tickerId] + RestedBy(r.tickerId, f.market.books[r.tickerId], b)
  {
    hide StepAsWritten, RestedBy;
  }

  /**
   * An add request: its book, and no other, serves an add of the same client, side, quantity and price under
   * the next order id; what it tells and leaves is said in full in `ClientView`.
   */
  lemma {:induction false} AddRequestInFull(linked: bool, f: Floor, r: ClientRequest) returns (n: nat, k: nat)
    requires KnownOn(f, r) && r.kind == AddRequest && WellFormed(f.market.books[r.tickerId])
    ensures var g, d := Serve(linked, f, r), DeskAt(f, r.tickerId);
      var b := BookRequest.Add(f.market.nextOrderId, r.clientId, r.side, r.quantity, r.price);
      var s := if r.side == Buy then d.book.asks else d.book.bids;
      && AddTold(r.tickerId, b, s, f.market.nextTradeId, g.responses, g.updates, n)
      && OnlyTicker(f, g.floor, r.tickerId) && AddLeft(linked, d, b, DeskAt(g.floor, r.tickerId), n, k)
      && g.floor.market.nextOrderId == (f.market.nextOrderId + 1) % 0x1_0000_0000
      && g.floor.market.nextTradeId == (f.market.nextTradeId + n) % 0x1_0000_0000
      && g.floor.market.rested[r.tickerId]
         == f.market.rested[r.tickerId] + (if RestBehind(b, s, n) == 0 then 0 else 1)
    ensures var g := Serve(linked, f, r);
      g.responses != [] && g.responses[0] == ClientResponse(Accepted, r.tickerId, r.clientId, f.market.nextOrderId,
                                                            r.side, r.quantity, r.price)
  {
    hide AddAsWritten, WellFormed, AddLeft, Serve, OnlyTicker, Cross, RestBehind, TradeTold;
    var d := DeskAt(f, r.tickerId);
    var b := BookRequest.Add(f.market.nextOrderId, r.clientId, r.side, r.quantity, r.price);
    ServeIsStep(linked, f, r, b);
    n, k := DeskAddInFull(linked, r.tickerId, d, b, f.market.nextTradeId);
    RestingIsCounted(linked, r.tickerId, d, b, f.market.nextTradeId, n);
    OneIdUsed(linked, f, r);
  }

  lemma {:induction false} OneIdUsed(linked: bool, f: Floor, r: ClientRequest)
    requires KnownOn(f, r)
    ensures Serve(linked, f, r).floor.market.nextOrderId
         == if r.kind == AddRequest then (f.market.nextOrderId + 1) % 0x1_0000_0000 else f.market.nextOrderId
  {
    hide StepAsWritten;
  }

  lemma {:induction false} RestingIsCounted(linked: bool, ticker: TickerId, d: Desk, r: BookRequest,
                                            tradeId: TradeId, n: nat)
    requires r.Add? && WellFormed(d.book)
    requires var e := AddAsWritten(linked, ticker, d, r, tradeId);
      var s := if r.side == Buy then d.book.asks else d.book.bids;
      AddTold(ticker, r, s, tradeId, e.responses, e.updates, n)
    ensures var s := if r.side == Buy then d.book.asks else d.book.bids;
      RestedBy(ticker, d.book, r) == if RestBehind(r, s, n) == 0 then 0 else 1
  {
    hide AddOrder, Cross, WellFormed, AddTold;
    AddOnDesk(linked, ticker, d, r, tradeId);
    RemainsToRest(ticker, d.book, r, tradeId, n);
    RemainingIgnoresIds(TakerOf(ticker, r), r.quantity, d.book.At(!IsBuy(r.side)), tradeId, 0);
  }

  /** A cancel request: its book, and no other, looks for the order with this id at this price. */
  lemma {:induction false} CancelRequestInFull(linked: bool, f: Floor, r: ClientRequest) returns (o: Option<Resting>)
    requires KnownOn(f, r) && r.kind == CancelRequest && SoundDesk(DeskAt(f, r.tickerId))
    ensures var g, d := Serve(linked, f, r), DeskAt(f, r.tickerId);
      var b := BookRequest.Cancel(r.orderId, r.clientId, r.side, r.price);
      && (o.Some? <==> RestsUnder(d, r.price, r.orderId)) && CancelTold(r.tickerId, b, o, g.responses, g.updates)
      && (o.None? ==> g.floor == f)
      && (o.Some? ==>
            && o.value.price == r.price && o.value.orderId == r.orderId && OnlyTicker(f, g.floor, r.tickerId)
            && OneTaken(d, DeskAt(g.floor, r.tickerId), r.price, r.orderId, o.value)
            && g.floor.market.nextOrderId == f.market.nextOrderId && g.floor.market.rested == f.market.rested
            && g.floor.market.nextTradeId == f.market.nextTradeId)
  {
    hide CancelAsWritten, SoundDesk, OneTaken, RestsUnder, CancelTold;
    var d := DeskAt(f, r.tickerId);
    var b := BookRequest.Cancel(r.orderId, r.clientId, r.side, r.price);
    o := DeskCancelInFull(r.tickerId, d, b, f.market.nextTradeId);
    ServeIsStep(linked, f, r, b);
    var g := Serve(linked, f, r).floor;
    assert g.market.rested == f.market.rested;
    if o.None? {
      assert g.market.books == f.market.books && g.strays == f.strays;
    }
  }

  /** A request of no known kind is not answered and changes nothing. */
  lemma {:induction false} InvalidRequestInFull(linked: bool, f: Floor, r: ClientRequest)
    requires KnownOn(f, r) && r.kind == InvalidRequest
    ensures Serve(linked, f, r) == FloorResult(f, [], [])
  {}

  // ----- every request in its place

  /** A run in two parts. */
  lemma {:induction false} ServeInParts(linked: bool, f: Floor, rs: seq<ClientRequest>, i: nat)
    requires AllKnownOn(f, rs) && i <= |rs|
    ensures AllKnownOn(f, rs[..i])
    ensures var a := ServeAll(linked, f, rs[..i]);
      && AllKnownOn(a.floor, rs[i..])
      && var b, whole := ServeAll(linked, a.floor, rs[i..]), ServeAll(linked, f, rs);
         whole == FloorResult(b.floor, a.responses + b.responses, a.updates + b.updates)
    decreases i
  {
    hide Serve, ServeAll, AllKnownOn, FateOn, EndOf, ServeUntil;
    KnownPrefix(f, rs, i);
    if i == 0 {
      assert rs[..0] == [] && rs[0..] == rs;
      NothingServed(linked, f);
    } else {
      var r, behind := rs[0], rs[1..];
      var first := Serve(linked, f, r);
      assert rs == [r] + behind && rs[..i] == [r] + behind[..i - 1] && behind[i - 1..] == rs[i..];
      StillKnown(linked, f, r, behind);
      StillKnown(linked, f, r, behind[..i - 1]);
      ServeInParts(linked, first.floor, behind, i - 1);
      ServeFirst(linked, f, r, behind);
      ServeFirst(linked, f, r, behind[..i - 1]);
      var a := ServeAll(linked, first.floor, behind[..i - 1]);
      var b := ServeAll(linked, a.floor, rs[i..]);
      assert first.responses + (a.responses + b.responses) == first.responses + a.responses + b.responses;
      assert first.updates + (a.updates + b.updates) == first.updates + a.updates + b.updates;
    }
  }

  lemma {:induction false} NothingServed(linked: bool, f: Floor)
    ensures AllKnownOn(f, []) && ServeAll(linked, f, []) == FloorResult(f, [], [])
  {}

  lemma {:induction false} KnownPrefix(f: Floor, rs: seq<ClientRequest>, i: nat)
    requires AllKnownOn(f, rs) && i <= |rs|
    ensures AllKnownOn(f, rs[..i])
  {}

  lemma {:induction false} IdsUsed(linked: bool, f: Floor, rs: seq<ClientRequest>)
    requires AllKnownOn(f, rs)
    ensures ServeAll(linked, f, rs).floor.market.nextOrderId == (f.market.nextOrderId + Adds(rs)) % 0x1_0000_0000
    decreases |rs|
  {
    if rs != [] {
      hide Serve;
      assert rs == [rs[0]] + rs[1..];
      StillKnown(linked, f, rs[0], rs[1..]);
      OneIdUsed(linked, f, rs[0]);
      IdsUsed(linked, Serve(linked, f, rs[0]).floor, rs[1..]);
      WrapOn(f.market.nextOrderId, Adds(rs[1..]));
    }
  }

  lemma {:induction false} WrapOn(id: OrderId, n: nat)
    ensures ((id + 1) % 0x1_0000_0000 + n) % 0x1_0000_0000 == (id + (n + 1)) % 0x1_0000_0000
  {}

  /** What the first answer to a request says. */
  predicate Answers(r: ClientRequest, id: OrderId, m: ClientResponse) {
    match r.kind
    case InvalidRequest => false
    case AddRequest => m == ClientResponse(Accepted, r.tickerId, r.clientId, id, r.side, r.quantity, r.price)
    case CancelRequest =>
      && m.tickerId == r.tickerId && m.clientId == r.clientId && m.orderId == r.orderId
      && ((m.kind == Canceled && m.side == r.side && m.price == r.price)
          || (m.kind == CancelRejected && m.side == OrderSide.Invalid && m.quantity == 0xFFFF_FFFF
              && m.price == 0xFFFF_FFFF_FFFF_FFFF))
  }

  ghost predicate FloorSound(f: Floor) {
    forall t :: t in f.market.books && t in f.strays ==> SoundDesk(DeskAt(f, t))
  }

  lemma {:induction false} ServeKeepsSound(linked: bool, f: Floor, r: ClientRequest)
    requires KnownOn(f, r) && FloorSound(f)
    ensures FloorSound(Serve(linked, f, r).floor)
  {
    if r.kind != InvalidRequest {
      hide SoundDesk, StepAsWritten, Serve;
      var b := ForBook(r, f.market.nextOrderId);
      ServeIsStep(linked, f, r, b);
      StepKeepsSound(linked, r.tickerId, DeskAt(f, r.tickerId), b, f.market.nextTradeId);
      var g := Serve(linked, f, r).floor;
      forall t | t in g.market.books && t in g.strays ensures SoundDesk(DeskAt(g, t)) {
        assert t != r.tickerId ==> DeskAt(g, t) == DeskAt(f, t);
      }
    }
  }

  lemma {:induction false} RunKeepsSound(linked: bool, f: Floor, rs: seq<ClientRequest>)
    requires AllKnownOn(f, rs) && FloorSound(f)
    ensures FloorSound(ServeAll(linked, f, rs).floor)
    decreases |rs|
  {
    if rs != [] {
      hide Serve, FloorSound;
      assert rs == [rs[0]] + rs[1..];
      StillKnown(linked, f, rs[0], rs[1..]);
      ServeKeepsSound(linked, f, rs[0]);
      RunKeepsSound(linked, Serve(linked, f, rs[0]).floor, rs[1..]);
    }
  }

  lemma {:induction false} FirstAnswer(linked: bool, f: Floor, r: ClientRequest)
    requires KnownOn(f, r) && FloorSound(f)
    ensures var ms := Serve(linked, f, r).responses;
      if r.kind == InvalidRequest then ms == [] else ms != [] && Answers(r, f.market.nextOrderId, ms[0])
  {
    hide Serve, WellFormed, StraysApart, OneTaken, AddTold, AddLeft, OnlyTicker, RestsUnder;
    match r.kind
    case InvalidRequest => InvalidRequestInFull(linked, f, r);
    case AddRequest =>
      assert SoundDesk(DeskAt(f, r.tickerId));
      var n, k := AddRequestInFull(linked, f, r);
    case CancelRequest =>
      var o := CancelRequestInFull(linked, f, r);
  }

  /**
   * Over every run that has a meaning, the requests are answered in order: the answers to request `i` begin
   * where those to the requests before it end, and its first one goes to its client and says what it asked;
   * the adds get consecutive ids. A request of no known kind gets no answer.
   */
  lemma {:induction false} EveryRequestIsAnswered(linked: bool, f: Floor, rs: seq<ClientRequest>, i: nat)
    requires AllKnownOn(f, rs) && FloorSound(f) && i < |rs|
    ensures AllKnownOn(f, rs[..i]) && AllKnownOn(f, rs[..i + 1])
    ensures var ms := ServeAll(linked, f, rs).responses;
      var from, to := |ServeAll(linked, f, rs[..i]).responses|, |ServeAll(linked, f, rs[..i + 1]).responses|;
      && from <= to <= |ms|
      && if rs[i].kind == InvalidRequest then from == to
         else from < to && Answers(rs[i], (f.market.nextOrderId + Adds(rs[..i])) % 0x1_0000_0000, ms[from])
  {
    hide Serve, FloorSound, AllKnownOn, Answers;
    ServeInParts(linked, f, rs, i);
    ServeInParts(linked, f, rs, i + 1);
    ServeInParts(linked, f, rs[..i + 1], i);
    assert rs[..i + 1][..i] == rs[..i] && rs[..i + 1][i..] == [rs[i]];
    var a := ServeAll(linked, f, rs[..i]);
    RunKeepsSound(linked, f, rs[..i]);
    IdsUsed(linked, f, rs[..i]);
    JustOne(linked, a.floor, rs[i]);
    FirstAnswer(linked, a.floor, rs[i]);
    var ms := ServeAll(linked, f, rs).responses;
    assert ServeAll(linked, f, rs[..i + 1]).responses <= ms;
  }

  lemma {:induction false} JustOne(linked: bool, f: Floor, r: ClientRequest)
    requires AllKnownOn(f, [r])
    ensures KnownOn(f, r)
    ensures var a, b := ServeAll(linked, f, [r]), Serve(linked, f, r);
      a.responses == b.responses && a.updates == b.updates && a.floor == b.floor
  {
    assert [r] == [r] + [];
    ServeFirst(linked, f, r, []);
  }

  /** However a run ends, what is served of it is a run that has a meaning. */
  lemma {:induction false} UntilIsAPrefix(linked: bool, f: Floor, rs: seq<ClientRequest>) returns (k: nat)
    requires AllKnownOn(f, rs)
    ensures k <= |rs| && AllKnownOn(f, rs[..k]) && ServeUntil(linked, f, rs) == ServeAll(linked, f, rs[..k])
    ensures EndOf(linked, f, rs) == Carried ==> k == |rs|
    decreases |rs|
  {
    hide Serve, FateOn;
    if rs == [] || FateOn(f, rs[0]) == Ended {
      k := 0;
      assert rs[..0] == [];
    } else {
      assert rs == [rs[0]] + rs[1..];
      StillKnown(linked, f, rs[0], rs[1..]);
      if FateOn(f, rs[0]) == Astray {
        k := 1;
        assert rs[..1] == [rs[0]];
        KnownPrefix(f, rs, 1);
        JustOne(linked, f, rs[0]);
      } else {
        k := UntilIsAPrefix(linked, Serve(linked, f, rs[0]).floor, rs[1..]);
        k := k + 1;
        assert rs[..k] == [rs[0]] + rs[1..][..k - 1];
        KnownPrefix(f, rs, k);
        ServeFirst(linked, f, rs[0], rs[1..][..k - 1]);
      }
    }
  }

  /** The end of a run: the fate of the first request that is not carried, on the floor that it finds. */
  lemma {:induction false} EndsAtTheFirst(linked: bool, f: Floor, rs: seq<ClientRequest>) returns (k: nat)
    requires AllKnownOn(f, rs)
    ensures k <= |rs|
    ensures forall i :: 0 <= i < k ==> CarriedAt(linked, f, rs, i)
    ensures if k == |rs| then EndOf(linked, f, rs) == Carried
            else AllKnownOn(f, rs[..k]) && KnownOn(ServeAll(linked, f, rs[..k]).floor, rs[k])
                 && EndOf(linked, f, rs) == FateOn(ServeAll(linked, f, rs[..k]).floor, rs[k]) != Carried
    decreases |rs|
  {
    hide Serve, FateOn, KnownOn;
    if rs == [] {
      k := 0;
    } else {
      assert rs == [rs[0]] + rs[1..];
      StillKnown(linked, f, rs[0], rs[1..]);
      if FateOn(f, rs[0]) != Carried {
        k := 0;
        assert rs[..0] == [];
      } else {
        k := EndsAtTheFirst(linked, Serve(linked, f, rs[0]).floor, rs[1..]);
        forall i | 0 <= i < k + 1 ensures CarriedAt(linked, f, rs, i) {
          OneBefore(linked, f, rs, i);
        }
        if k < |rs| - 1 {
          FloorOneBefore(linked, f, rs, k + 1);
        }
        k := k + 1;
      }
    }
  }

  /** Request `i` is carried on the floor that the requests before it leave. */
  ghost predicate CarriedAt(linked: bool, f: Floor, rs: seq<ClientRequest>, i: nat)
    requires i < |rs|
  {
    && AllKnownOn(f, rs[..i]) && KnownOn(ServeAll(linked, f, rs[..i]).floor, rs[i])
    && FateOn(ServeAll(linked, f, rs[..i]).floor, rs[i]) == Carried
  }

  lemma {:induction false} FloorOneBefore(linked: bool, f: Floor, rs: seq<ClientRequest>, i: nat)
    requires AllKnownOn(f, rs) && 0 < i < |rs|
    ensures KnownOn(f, rs[0])
    ensures var next := Serve(linked, f, rs[0]).floor;
      && AllKnownOn(f, rs[..i]) && AllKnownOn(next, rs[1..][..i - 1])
      && ServeAll(linked, f, rs[..i]).floor == ServeAll(linked, next, rs[1..][..i - 1]).floor
  {
    hide Serve, ServeUntil, EndOf, FateOn;
    KnownPrefix(f, rs, i);
    assert rs[..i] == [rs[0]] + rs[1..][..i - 1];
    ServeFirst(linked, f, rs[0], rs[1..][..i - 1]);
  }

  lemma {:induction false} OneBefore(linked: bool, f: Floor, rs: seq<ClientRequest>, i: nat)
    requires AllKnownOn(f, rs) && i < |rs| && FateOn(f, rs[0]) == Carried
    requires i > 0 ==> CarriedAt(linked, Serve(linked, f, rs[0]).floor, rs[1..], i - 1)
    ensures CarriedAt(linked, f, rs, i)
  {
    hide Serve, FateOn, ServeAll;
    if i > 0 {
      FloorOneBefore(linked, f, rs, i);
    } else {
      assert rs[..0] == [];
      NothingServed(linked, f);
    }
  }

  /** The fate of one request: pools of 8388608 orders and of 131072 levels, and cancels as they find the desk. */
  lemma {:induction false} FateInFull(f: Floor, r: ClientRequest)
    requires KnownOn(f, r)
    ensures r.kind == InvalidRequest ==> FateOn(f, r) == Carried
    ensures r.kind == AddRequest ==>
      FateOn(f, r) == if RoomFor(r.tickerId, DeskAt(f, r.tickerId),
                                 BookRequest.Add(f.market.nextOrderId, r.clientId, r.side, r.quantity, r.price),
                                 f.market.rested[r.tickerId], 8388608, 131072) then Carried else Ended
    ensures r.kind == CancelRequest ==> FateOn(f, r) == CancelFate(DeskAt(f, r.tickerId), r.price, r.orderId)
  {
    hide RoomFor;
  }

  // ----- the first ids

  /** From counters at 1 on, the trades of all books together are numbered 1, 2, 3 and so on. */
  lemma {:induction false} TradesFromOne(linked: bool, f: Floor, rs: seq<ClientRequest>, i: nat)
    requires AllKnownOn(f, rs) && f.market.nextTradeId == 1
    requires i < |TradeIds(ServeAll(linked, f, rs).updates)|
    ensures TradeIds(ServeAll(linked, f, rs).updates)[i] == (1 + i) % 0x1_0000_0000
  {
    FloorTradesAreNumbered(linked, f, rs);
  }
}
