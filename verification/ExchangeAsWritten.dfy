/**
 * The exchange with or without the missing link, as a pure function of its request stream. The class
 * is proved to compute it; with the link, or as long as none is needed, it is the exchange of
 * `ExchangeModel`.
 */
module ExchangeAsWritten {
  import opened Types
  import opened Matching
  import opened AsWritten
  import opened ExchangeModel

  /** A market, and beside each of its books what has been stranded. */
  datatype Floor = Floor(market: Market, strays: map<TickerId, Strays>)

  datatype FloorResult = FloorResult(floor: Floor, responses: seq<ClientResponse>, updates: seq<MarketUpdate>)

  predicate KnownOn(f: Floor, r: ClientRequest) {
    Known(f.market, r) && (r.kind != InvalidRequest ==> r.tickerId in f.strays)
  }

  predicate AllKnownOn(f: Floor, rs: seq<ClientRequest>) {
    forall i :: 0 <= i < |rs| ==> KnownOn(f, rs[i])
  }

  function DeskOf(f: Floor, r: ClientRequest): Desk
    requires KnownOn(f, r) && r.kind != InvalidRequest
  {
    Desk(f.market.books[r.tickerId], f.strays[r.tickerId])
  }

  function Serve(linked: bool, f: Floor, r: ClientRequest): FloorResult
    requires KnownOn(f, r)
  {
    if r.kind == InvalidRequest then FloorResult(f, [], [])
    else
      var t, b, m := r.tickerId, ForBook(r, f.market.nextOrderId), f.market;
      var e := StepAsWritten(linked, t, DeskOf(f, r), b, m.nextTradeId);
      var rested := m.rested[t := m.rested[t] + RestedBy(t, m.books[t], b)];
      FloorResult(Floor(Market(m.books[t := e.desk.book], rested, IdAfter(r, m.nextOrderId), e.nextTradeId),
                        f.strays[t := e.desk.strays]),
                  e.responses, e.updates)
  }

  /** The code as far as the run has a meaning; `ServeUntil` stops where it has none. */
  function ServeAll(linked: bool, f: Floor, rs: seq<ClientRequest>): FloorResult
    requires AllKnownOn(f, rs)
    decreases |rs|
  {
    if rs == [] then FloorResult(f, [], [])
    else
      var first := Serve(linked, f, rs[0]);
      var rest := ServeAll(linked, first.floor, rs[1..]);
      FloorResult(rest.floor, first.responses + rest.responses, first.updates + rest.updates)
  }

  /** The pools of the book can serve the request; otherwise the process ends here. */
  predicate FitsOn(f: Floor, r: ClientRequest)
    requires KnownOn(f, r)
  {
    r.kind == AddRequest ==>
      RoomFor(r.tickerId, DeskOf(f, r), ForBook(r, f.market.nextOrderId), f.market.rested[r.tickerId],
              MAX_ORDER_IDS, MAX_PRICE_LEVELS)
  }

  /** What becomes of the process and of the book: an add that does not fit ends the process too. */
  function FateOn(f: Floor, r: ClientRequest): Fate
    requires KnownOn(f, r)
  {
    match r.kind
    case InvalidRequest => Carried
    case AddRequest => if FitsOn(f, r) then Carried else Ended
    case CancelRequest => CancelFate(DeskOf(f, r), r.price, r.orderId)
  }

  /** How a run ends: it is carried to its end, or this becomes of it at the first request that is not. */
  function EndOf(linked: bool, f: Floor, rs: seq<ClientRequest>): Fate
    requires AllKnownOn(f, rs)
    decreases |rs|
  {
    if rs == [] then Carried
    else if FateOn(f, rs[0]) != Carried then FateOn(f, rs[0])
    else EndOf(linked, Serve(linked, f, rs[0]).floor, rs[1..])
  }

  /**
   * A run up to its end. A request that ends the process is not counted in; one that sends its book
   * astray is, because the code answers it, and what it does with that book from then on is open.
   */
  function ServeUntil(linked: bool, f: Floor, rs: seq<ClientRequest>): FloorResult
    requires AllKnownOn(f, rs)
    decreases |rs|
  {
    if rs == [] || FateOn(f, rs[0]) == Ended then FloorResult(f, [], [])
    else if FateOn(f, rs[0]) == Astray then Serve(linked, f, rs[0])
    else
      var first := Serve(linked, f, rs[0]);
      var rest := ServeUntil(linked, first.floor, rs[1..]);
      FloorResult(rest.floor, first.responses + rest.responses, first.updates + rest.updates)
  }

  /** A run that is carried to its end is served as a whole. */
  lemma {:induction false} CarriedIsServed(linked: bool, f: Floor, rs: seq<ClientRequest>)
    requires AllKnownOn(f, rs) && EndOf(linked, f, rs) == Carried
    ensures ServeUntil(linked, f, rs) == ServeAll(linked, f, rs)
    decreases |rs|
  {
    if rs != [] {
      hide Serve, FateOn;
      assert rs == [rs[0]] + rs[1..];
      StillKnown(linked, f, rs[0], rs[1..]);
      CarriedIsServed(linked, Serve(linked, f, rs[0]).floor, rs[1..]);
    }
  }

  lemma {:induction false} StillKnown(linked: bool, f: Floor, r: ClientRequest, rs: seq<ClientRequest>)
    requires AllKnownOn(f, [r] + rs)
    ensures KnownOn(f, r) && AllKnownOn(Serve(linked, f, r).floor, rs)
  {
    hide StepAsWritten;
    assert ([r] + rs)[0] == r;
    forall i | 0 <= i < |rs| ensures KnownOn(Serve(linked, f, r).floor, rs[i]) {
      assert ([r] + rs)[i + 1] == rs[i];
    }
  }

  /** The first request of a run, and what is left of the run behind it. */
  lemma {:induction false} ServeFirst(linked: bool, f: Floor, r: ClientRequest, rs: seq<ClientRequest>)
    requires AllKnownOn(f, [r] + rs)
    ensures KnownOn(f, r) && AllKnownOn(Serve(linked, f, r).floor, rs)
    ensures var first, whole := Serve(linked, f, r), ServeAll(linked, f, [r] + rs);
      var rest := ServeAll(linked, first.floor, rs);
      whole == FloorResult(rest.floor, first.responses + rest.responses, first.updates + rest.updates)
    ensures EndOf(linked, f, [r] + rs)
         == if FateOn(f, r) == Carried then EndOf(linked, Serve(linked, f, r).floor, rs) else FateOn(f, r)
    ensures var first, until := Serve(linked, f, r), ServeUntil(linked, f, [r] + rs);
      && (FateOn(f, r) == Astray ==> until == first)
      && (FateOn(f, r) == Carried ==>
            var rest := ServeUntil(linked, first.floor, rs);
            until == FloorResult(rest.floor, first.responses + rest.responses, first.updates + rest.updates))
  {
    hide Serve, FateOn;
    StillKnown(linked, f, r, rs);
    assert ([r] + rs)[0] == r && ([r] + rs)[1..] == rs;
  }

  // ----- a loop on its way

  /** Serving `rs` on this floor, after these messages, has this end, and gets to `goal`. */
  ghost predicate LeadsTo(linked: bool, f: Floor, rs: seq<ClientRequest>, responses: seq<ClientResponse>,
                          updates: seq<MarketUpdate>, goal: FloorResult, end: Fate)
  {
    && AllKnownOn(f, rs) && end == EndOf(linked, f, rs)
    && var rest := ServeUntil(linked, f, rs);
       goal == FloorResult(rest.floor, responses + rest.responses, updates + rest.updates)
  }

  lemma {:induction false} LeadsFromHere(linked: bool, f: Floor, rs: seq<ClientRequest>,
                                         responses: seq<ClientResponse>, updates: seq<MarketUpdate>)
    requires AllKnownOn(f, rs)
    ensures var p := ServeUntil(linked, f, rs);
      LeadsTo(linked, f, rs, responses, updates, FloorResult(p.floor, responses + p.responses, updates + p.updates),
              EndOf(linked, f, rs))
  {}

  /** Serving one more request stays on the way, or is the end of it. */
  lemma {:induction false} LeadsOn(linked: bool, f: Floor, r: ClientRequest, rs: seq<ClientRequest>,
                                   responses: seq<ClientResponse>, updates: seq<MarketUpdate>, goal: FloorResult,
                                   end: Fate)
    requires LeadsTo(linked, f, [r] + rs, responses, updates, goal, end)
    ensures KnownOn(f, r) && (FateOn(f, r) != Carried ==> end == FateOn(f, r))
    ensures var p := Serve(linked, f, r);
      && (FateOn(f, r) == Carried ==>
            LeadsTo(linked, p.floor, rs, responses + p.responses, updates + p.updates, goal, end))
      && (FateOn(f, r) == Astray ==>
            goal == FloorResult(p.floor, responses + p.responses, updates + p.updates))
  {
    hide Serve, ServeUntil, EndOf, FateOn, AllKnownOn;
    ServeFirst(linked, f, r, rs);
    var p := Serve(linked, f, r);
    var rest := ServeUntil(linked, p.floor, rs);
    assert responses + (p.responses + rest.responses) == responses + p.responses + rest.responses;
    assert updates + (p.updates + rest.updates) == updates + p.updates + rest.updates;
  }

  lemma {:induction false} LeadsNoFurther(linked: bool, f: Floor, responses: seq<ClientResponse>,
                                          updates: seq<MarketUpdate>, goal: FloorResult, end: Fate)
    requires LeadsTo(linked, f, [], responses, updates, goal, end)
    ensures end == Carried && goal == FloorResult(f, responses, updates)
  {}

  // ----- one ticker among others

  lemma {:induction false} RunAsWrittenCons(linked: bool, ticker: TickerId, d: Desk, r: BookRequest,
                                            rs: seq<BookRequest>, tradeId: TradeId)
    ensures var e := StepAsWritten(linked, ticker, d, r, tradeId);
      var rest := RunAsWritten(linked, ticker, e.desk, rs, e.nextTradeId);
      RunAsWritten(linked, ticker, d, [r] + rs, tradeId)
      == rest.(responses := e.responses + rest.responses, updates := e.updates + rest.updates)
  {
    assert ([r] + rs)[1..] == rs;
  }

  /** Trade ids show in trade ids only, and all messages carry the ticker. */
  lemma {:induction false} StepAsWrittenUnnumbered(linked: bool, ticker: TickerId, d: Desk, r: BookRequest,
                                                   a: TradeId, b: TradeId)
    ensures var e, f := StepAsWritten(linked, ticker, d, r, a), StepAsWritten(linked, ticker, d, r, b);
      && SpeakFor(e.responses, e.updates, ticker)
      && e.desk == f.desk && e.responses == f.responses && Unnumbered(e.updates) == Unnumbered(f.updates)
  {
    if r.Add? {
      hide Unnumbered, Strands, Stranding;
      RemainingIgnoresIds(TakerOf(ticker, r), r.quantity, d.book.At(!IsBuy(r.side)), a, b);
      StepUnnumbered(ticker, d.book, r, a, b);
      StepSpeaksForItsTicker(ticker, d.book, r, a);
    }
  }

  /** One request of the run, seen from one ticker. */
  lemma {:induction false} OneRequestServed(linked: bool, f: Floor, r: ClientRequest, ticker: TickerId,
                                            tradeId: TradeId)
    requires KnownOn(f, r) && ticker in f.market.books && ticker in f.strays
    ensures var first := Serve(linked, f, r);
      && ticker in first.floor.market.books && ticker in first.floor.strays
      && var d, d' := Desk(f.market.books[ticker], f.strays[ticker]),
                      Desk(first.floor.market.books[ticker], first.floor.strays[ticker]);
         && first.floor.market.nextOrderId == IdAfter(r, f.market.nextOrderId)
         && if r.kind != InvalidRequest && r.tickerId == ticker then
              var e := StepAsWritten(linked, ticker, d, ForBook(r, f.market.nextOrderId), tradeId);
              && d' == e.desk && ResponsesOf(first.responses, ticker) == e.responses
              && Unnumbered(UpdatesOf(first.updates, ticker)) == Unnumbered(e.updates)
            else
              d' == d && ResponsesOf(first.responses, ticker) == [] && UpdatesOf(first.updates, ticker) == []
  {
    if r.kind != InvalidRequest {
      hide StepAsWritten, Unnumbered;
      var b := ForBook(r, f.market.nextOrderId);
      var first := Serve(linked, f, r);
      StepAsWrittenUnnumbered(linked, r.tickerId, DeskOf(f, r), b, f.market.nextTradeId, tradeId);
      AllOrNone(first.responses, first.updates, r.tickerId, ticker);
    }
  }

  /** Interleaving does not show in the code as written either: no ticker strands another's orders. */
  lemma {:induction false} TickersStandAlone(linked: bool, f: Floor, rs: seq<ClientRequest>, ticker: TickerId,
                                             tradeId: TradeId)
    requires AllKnownOn(f, rs) && ticker in f.market.books && ticker in f.strays
    ensures var whole := ServeAll(linked, f, rs);
      var alone := RunAsWritten(linked, ticker, Desk(f.market.books[ticker], f.strays[ticker]),
                                Projected(rs, ticker, f.market.nextOrderId), tradeId);
      && ticker in whole.floor.market.books && ticker in whole.floor.strays
      && Desk(whole.floor.market.books[ticker], whole.floor.strays[ticker]) == alone.desk
      && ResponsesOf(whole.responses, ticker) == alone.responses
      && Unnumbered(UpdatesOf(whole.updates, ticker)) == Unnumbered(alone.updates)
    decreases |rs|
  {
    NothingUnnumbered();
    if rs != [] {
      hide Serve, StepAsWritten, ResponsesOf, UpdatesOf, Unnumbered, RunAsWritten;
      var r, d := rs[0], Desk(f.market.books[ticker], f.strays[ticker]);
      assert rs == [r] + rs[1..];
      ServeFirst(linked, f, r, rs[1..]);
      var first := Serve(linked, f, r);
      var rest := ServeAll(linked, first.floor, rs[1..]);
      var later := Projected(rs[1..], ticker, IdAfter(r, f.market.nextOrderId));
      OneRequestServed(linked, f, r, ticker, tradeId);
      ResponsesOfConcat(first.responses, rest.responses, ticker);
      UpdatesOfConcat(first.updates, rest.updates, ticker);
      UnnumberedConcat(UpdatesOf(first.updates, ticker), UpdatesOf(rest.updates, ticker));
      if r.kind != InvalidRequest && r.tickerId == ticker {
        var b := ForBook(r, f.market.nextOrderId);
        var e := StepAsWritten(linked, ticker, d, b, tradeId);
        TickersStandAlone(linked, first.floor, rs[1..], ticker, e.nextTradeId);
        RunAsWrittenCons(linked, ticker, d, b, later, tradeId);
        UnnumberedConcat(e.updates, RunAsWritten(linked, ticker, e.desk, later, e.nextTradeId).updates);
      } else {
        assert [] + later == later;
        TickersStandAlone(linked, first.floor, rs[1..], ticker, tradeId);
      }
    }
  }

  // ----- when the code does what the reference does

  predicate NoStrays(f: Floor) {
    forall t :: t in f.strays ==> f.strays[t] == map[]
  }

  lemma {:induction false} FateAgrees(f: Floor, r: ClientRequest)
    requires KnownOn(f, r) && NoStrays(f)
    ensures FateOn(f, r) == if Fits(f.market, r) then Carried else Ended
  {
    hide Cross, PriceCount;
  }

  /** Without strays, one request is served like the reference, and strands nothing if it needs no link. */
  lemma {:induction false} ServeAgrees(linked: bool, f: Floor, r: ClientRequest)
    requires KnownOn(f, r) && NoStrays(f)
    ensures var s, p := Serve(linked, f, r), Process(f.market, r);
      && s.responses == p.responses && s.updates == p.updates
      && (NoStrays(s.floor) <==> linked || LinkNotNeeded(f.market, r))
      && (NoStrays(s.floor) ==> s.floor == Floor(p.market, f.strays))
    ensures FateOn(f, r) == if Fits(f.market, r) then Carried else Ended
  {
    hide Step, StepAsWritten, AddNeedsNoLink, FateOn, Fits;
    FateAgrees(f, r);
    if r.kind != InvalidRequest {
      var t, b := r.tickerId, ForBook(r, f.market.nextOrderId);
      StrandsExactly(linked, t, f.market.books[t], b, f.market.nextTradeId);
      var s := Serve(linked, f, r);
      assert t in s.floor.strays;
      if s.floor.strays[t] == map[] {
        assert s.floor.strays == f.strays;
      }
    }
  }

  /** Nothing is stranded before or after any request of the run. */
  predicate NeverStrands(linked: bool, f: Floor, rs: seq<ClientRequest>)
    requires AllKnownOn(f, rs)
    decreases |rs|
  {
    NoStrays(f) && (rs == [] || NeverStrands(linked, Serve(linked, f, rs[0]).floor, rs[1..]))
  }

  /**
   * The code does what the reference does exactly as long as no link is needed. A run strands nothing
   * if and only if it has the link or none of its requests needs it; as this holds for every part of
   * the run, the first order is stranded by the first request that needs the link. Until then the
   * books, the messages and the end of the run are those of the reference.
   */
  lemma {:induction false} AgreesExactly(linked: bool, f: Floor, rs: seq<ClientRequest>)
    requires AllKnownOn(f, rs) && NoStrays(f)
    ensures AllKnown(f.market, rs)
    ensures NeverStrands(linked, f, rs) <==> linked || LinksNotNeeded(f.market, rs)
    ensures NeverStrands(linked, f, rs) ==>
      var s, p := ServeAll(linked, f, rs), ProcessAll(f.market, rs);
      && s == FloorResult(Floor(p.market, f.strays), p.responses, p.updates)
      && EndOf(linked, f, rs) == if AllFit(f.market, rs) then Carried else Ended
    decreases |rs|
  {
    assert AllKnown(f.market, rs);
    if rs != [] {
      hide Serve, Process, LinkNotNeeded, FateOn, Fits, NoStrays;
      ServeAgrees(linked, f, rs[0]);
      assert rs == [rs[0]] + rs[1..];
      ServeFirst(linked, f, rs[0], rs[1..]);
      ProcessFirst(f.market, rs[0], rs[1..]);
      var next := Serve(linked, f, rs[0]).floor;
      if NoStrays(next) {
        AgreesExactly(linked, next, rs[1..]);
      }
    }
  }
}
