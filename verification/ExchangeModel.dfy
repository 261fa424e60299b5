/**
 * The exchange as a pure function of its request stream: one reference book per ticker, one counter
 * for order ids and one for trade ids. `Exchange` is proved to compute it; its laws are here.
 */
module ExchangeModel {
  import opened Types
  import opened Matching
  import opened OrderLife
  import opened BookLaws

  const MAX_ORDER_IDS := 0x80_0000
  const MAX_PRICE_LEVELS := 128 * 1024

  /** `rested` counts the orders that ever rested: the blocks in use in the order pool of the book. */
  datatype Market = Market(
    books: map<TickerId, Book>, rested: map<TickerId, nat>, nextOrderId: OrderId, nextTradeId: TradeId)

  datatype Result = Result(market: Market, responses: seq<ClientResponse>, updates: seq<MarketUpdate>)

  /** The ticker has a book; invalid requests do not look for one. */
  predicate Known(m: Market, r: ClientRequest) {
    r.kind == InvalidRequest || (r.tickerId in m.books && r.tickerId in m.rested)
  }

  predicate AllKnown(m: Market, rs: seq<ClientRequest>) {
    forall i :: 0 <= i < |rs| ==> Known(m, rs[i])
  }

  /** The request as its book sees it, with the order id the exchange gives to an add. */
  function ForBook(r: ClientRequest, nextOrderId: OrderId): BookRequest {
    if r.kind == AddRequest then BookRequest.Add(nextOrderId, r.clientId, r.side, r.quantity, r.price)
    else BookRequest.Cancel(r.orderId, r.clientId, r.side, r.price)
  }

  function IdAfter(r: ClientRequest, nextOrderId: OrderId): OrderId {
    if r.kind == AddRequest then Next(nextOrderId) else nextOrderId
  }

  function Process(m: Market, r: ClientRequest): Result
    requires Known(m, r)
  {
    if r.kind == InvalidRequest then Result(m, [], [])
    else
      var t, b := r.tickerId, ForBook(r, m.nextOrderId);
      var e := Step(t, m.books[t], b, m.nextTradeId);
      var rested := m.rested[t := m.rested[t] + RestedBy(t, m.books[t], b)];
      Result(Market(m.books[t := e.book], rested, IdAfter(r, m.nextOrderId), e.nextTradeId), e.responses, e.updates)
  }

  function ProcessAll(m: Market, rs: seq<ClientRequest>): Result
    requires AllKnown(m, rs)
    decreases |rs|
  {
    if rs == [] then Result(m, [], [])
    else
      var first := Process(m, rs[0]);
      var rest := ProcessAll(first.market, rs[1..]);
      Result(rest.market, first.responses + rest.responses, first.updates + rest.updates)
  }

  /** Every add of the run finds a book that can rest it without a missing link. */
  predicate LinksNotNeeded(m: Market, rs: seq<ClientRequest>)
    requires AllKnown(m, rs)
    decreases |rs|
  {
    rs == [] ||
    (LinkNotNeeded(m, rs[0]) && LinksNotNeeded(Process(m, rs[0]).market, rs[1..]))
  }

  predicate LinkNotNeeded(m: Market, r: ClientRequest)
    requires Known(m, r)
  {
    r.kind == AddRequest ==> AddNeedsNoLink(r.tickerId, m.books[r.tickerId], ForBook(r, m.nextOrderId))
  }

  /** The pools of the book can serve the request; otherwise the process ends here. */
  predicate Fits(m: Market, r: ClientRequest)
    requires Known(m, r)
  {
    r.kind == AddRequest ==>
      HasRoom(r.tickerId, m.books[r.tickerId], ForBook(r, m.nextOrderId), m.rested[r.tickerId],
              MAX_ORDER_IDS, MAX_PRICE_LEVELS)
  }

  predicate AllFit(m: Market, rs: seq<ClientRequest>)
    requires AllKnown(m, rs)
    decreases |rs|
  {
    rs == [] || (Fits(m, rs[0]) && AllFit(Process(m, rs[0]).market, rs[1..]))
  }

  /** The first request of a run, and what is left of the run behind it. */
  lemma {:induction false} ProcessFirst(m: Market, r: ClientRequest, rs: seq<ClientRequest>)
    requires AllKnown(m, [r] + rs)
    ensures Known(m, r) && AllKnown(Process(m, r).market, rs)
    ensures var first, whole := Process(m, r), ProcessAll(m, [r] + rs);
      var rest := ProcessAll(first.market, rs);
      whole == Result(rest.market, first.responses + rest.responses, first.updates + rest.updates)
    ensures AllFit(m, [r] + rs) <==> Fits(m, r) && AllFit(Process(m, r).market, rs)
    ensures LinksNotNeeded(m, [r] + rs) <==> LinkNotNeeded(m, r) && LinksNotNeeded(Process(m, r).market, rs)
  {
    hide Step;
    assert ([r] + rs)[0] == r && ([r] + rs)[1..] == rs;
    forall i | 0 <= i < |rs| ensures Known(Process(m, r).market, rs[i]) {
      assert ([r] + rs)[i + 1] == rs[i];
    }
  }

  ghost predicate Sound(m: Market) {
    forall t :: t in m.books ==> WellFormed(m.books[t])
  }

  lemma {:induction false} ProcessKeepsSound(m: Market, r: ClientRequest)
    requires Sound(m) && Known(m, r)
    ensures Sound(Process(m, r).market)
  {
    if r.kind != InvalidRequest {
      var b := ForBook(r, m.nextOrderId);
      if b.Add? {
        AddKeepsWellFormed(r.tickerId, m.books[r.tickerId], b, m.nextTradeId);
      } else {
        CancelKeepsWellFormed(r.tickerId, m.books[r.tickerId], b, m.nextTradeId);
      }
    }
  }

  // ----- one ticker among others

  /** The requests of one ticker, with the order ids that the whole run gives them. */
  function Projected(rs: seq<ClientRequest>, ticker: TickerId, nextOrderId: OrderId): seq<BookRequest>
    decreases |rs|
  {
    if rs == [] then []
    else
      (if rs[0].kind != InvalidRequest && rs[0].tickerId == ticker then [ForBook(rs[0], nextOrderId)] else [])
      + Projected(rs[1..], ticker, IdAfter(rs[0], nextOrderId))
  }

  function ResponsesOf(ms: seq<ClientResponse>, ticker: TickerId): seq<ClientResponse> {
    if ms == [] then [] else (if ms[0].tickerId == ticker then [ms[0]] else []) + ResponsesOf(ms[1..], ticker)
  }

  function UpdatesOf(us: seq<MarketUpdate>, ticker: TickerId): seq<MarketUpdate> {
    if us == [] then [] else (if us[0].tickerId == ticker then [us[0]] else []) + UpdatesOf(us[1..], ticker)
  }

  /** The updates without their trade ids. */
  function Unnumbered(us: seq<MarketUpdate>): seq<MarketUpdate> {
    if us == [] then [] else [us[0].(tradeId := INVALID_UINT32)] + Unnumbered(us[1..])
  }

  lemma {:induction false} ResponsesOfConcat(a: seq<ClientResponse>, b: seq<ClientResponse>, ticker: TickerId)
    ensures ResponsesOf(a + b, ticker) == ResponsesOf(a, ticker) + ResponsesOf(b, ticker)
  {
    if a == [] {
      assert a + b == b;
    } else {
      assert (a + b)[1..] == a[1..] + b;
      ResponsesOfConcat(a[1..], b, ticker);
      var head := if a[0].tickerId == ticker then [a[0]] else [];
      assert head + (ResponsesOf(a[1..], ticker) + ResponsesOf(b, ticker))
          == head + ResponsesOf(a[1..], ticker) + ResponsesOf(b, ticker);
    }
  }

  lemma {:induction false} UpdatesOfConcat(a: seq<MarketUpdate>, b: seq<MarketUpdate>, ticker: TickerId)
    ensures UpdatesOf(a + b, ticker) == UpdatesOf(a, ticker) + UpdatesOf(b, ticker)
  {
    if a == [] {
      assert a + b == b;
    } else {
      assert (a + b)[1..] == a[1..] + b;
      UpdatesOfConcat(a[1..], b, ticker);
      var head := if a[0].tickerId == ticker then [a[0]] else [];
      assert head + (UpdatesOf(a[1..], ticker) + UpdatesOf(b, ticker))
          == head + UpdatesOf(a[1..], ticker) + UpdatesOf(b, ticker);
    }
  }

  lemma {:induction false} UnnumberedConcat(a: seq<MarketUpdate>, b: seq<MarketUpdate>)
    ensures Unnumbered(a + b) == Unnumbered(a) + Unnumbered(b)
  {
    if a == [] {
      assert a + b == b;
    } else {
      assert (a + b)[1..] == a[1..] + b;
      UnnumberedConcat(a[1..], b);
    }
  }

  predicate SpeakFor(ms: seq<ClientResponse>, us: seq<MarketUpdate>, ticker: TickerId) {
    && (forall m :: m in ms ==> m.tickerId == ticker)
    && (forall u :: u in us ==> u.tickerId == ticker)
  }

  lemma {:induction false} AllOrNone(ms: seq<ClientResponse>, us: seq<MarketUpdate>, from: TickerId, ticker: TickerId)
    requires SpeakFor(ms, us, from)
    ensures ResponsesOf(ms, ticker) == (if from == ticker then ms else [])
    ensures UpdatesOf(us, ticker) == (if from == ticker then us else [])
    decreases |ms| + |us|
  {
    if ms != [] {
      AllOrNone(ms[1..], us, from, ticker);
      assert ms[0] in ms && ms == [ms[0]] + ms[1..];
    } else if us != [] {
      AllOrNone(ms, us[1..], from, ticker);
      assert us[0] in us && us == [us[0]] + us[1..];
    }
  }

  /** A book labels all its messages with its ticker. */
  lemma {:induction false} StepSpeaksForItsTicker(ticker: TickerId, book: Book, r: BookRequest, tradeId: TradeId)
    ensures var e := Step(ticker, book, r, tradeId); SpeakFor(e.responses, e.updates, ticker)
  {
    if r.Add? {
      CrossSpeaks(TakerOf(ticker, r), r.quantity, book.At(!IsBuy(r.side)), tradeId);
    }
  }

  lemma {:induction false} CrossSpeaks(t: Taker, quantity: Quantity, s: seq<Resting>, tradeId: TradeId)
    ensures var c := Cross(t, quantity, s, tradeId); SpeakFor(c.responses, c.updates, t.tickerId)
    decreases |s|
  {
    if Trades(t, quantity, s) {
      var h := HitOf(t, quantity, s[0], tradeId);
      if h.left.quantity == 0 {
        CrossSpeaks(t, h.remaining, s[1..], Next(tradeId));
      }
    }
  }

  lemma {:induction false} CrossUnnumbered(t: Taker, quantity: Quantity, s: seq<Resting>, a: TradeId, b: TradeId)
    ensures Unnumbered(Cross(t, quantity, s, a).updates) == Unnumbered(Cross(t, quantity, s, b).updates)
    decreases |s|
  {
    if Trades(t, quantity, s) {
      var h, g := HitOf(t, quantity, s[0], a), HitOf(t, quantity, s[0], b);
      assert h.updates[1..] == g.updates[1..];
      if h.left.quantity == 0 {
        CrossUnnumbered(t, h.remaining, s[1..], Next(a), Next(b));
        UnnumberedConcat(h.updates, Cross(t, h.remaining, s[1..], Next(a)).updates);
        UnnumberedConcat(g.updates, Cross(t, h.remaining, s[1..], Next(b)).updates);
      }
    }
  }

  /** The trade id counter shows in the trade ids and nowhere else. */
  lemma {:induction false} StepUnnumbered(ticker: TickerId, book: Book, r: BookRequest, a: TradeId, b: TradeId)
    ensures var e, f := Step(ticker, book, r, a), Step(ticker, book, r, b);
      e.book == f.book && e.responses == f.responses && Unnumbered(e.updates) == Unnumbered(f.updates)
  {
    if r.Add? {
      var t, opposite := TakerOf(ticker, r), book.At(!IsBuy(r.side));
      RemainingIgnoresIds(t, r.quantity, opposite, a, b);
      CrossUnnumbered(t, r.quantity, opposite, a, b);
      var c, d := Cross(t, r.quantity, opposite, a), Cross(t, r.quantity, opposite, b);
      if c.remaining != 0 {
        var last := [OrderUpdate(Added, ticker, RestOf(r, c.remaining))];
        UnnumberedConcat(c.updates, last);
        UnnumberedConcat(d.updates, last);
      }
    }
  }

  /** One request of the run, seen from one ticker. */
  lemma {:induction false} OneRequestSeen(m: Market, r: ClientRequest, ticker: TickerId, tradeId: TradeId)
    requires Known(m, r) && ticker in m.books
    ensures var first := Process(m, r);
      && ticker in first.market.books
      && if r.kind != InvalidRequest && r.tickerId == ticker then
           var e := Step(ticker, m.books[ticker], ForBook(r, m.nextOrderId), tradeId);
           && first.market.books[ticker] == e.book
           && ResponsesOf(first.responses, ticker) == e.responses
           && Unnumbered(UpdatesOf(first.updates, ticker)) == Unnumbered(e.updates)
         else
           && first.market.books[ticker] == m.books[ticker]
           && ResponsesOf(first.responses, ticker) == [] && UpdatesOf(first.updates, ticker) == []
  {
    if r.kind != InvalidRequest {
      var b := ForBook(r, m.nextOrderId);
      StepSpeaksForItsTicker(r.tickerId, m.books[r.tickerId], b, m.nextTradeId);
      var first := Process(m, r);
      AllOrNone(first.responses, first.updates, r.tickerId, ticker);
      if r.tickerId == ticker {
        StepUnnumbered(ticker, m.books[ticker], b, m.nextTradeId, tradeId);
      }
    }
  }

  lemma {:induction false} RunCons(ticker: TickerId, book: Book, r: BookRequest, rs: seq<BookRequest>, tradeId: TradeId)
    ensures var e := Step(ticker, book, r, tradeId);
      var rest := Run(ticker, e.book, rs, e.nextTradeId);
      Run(ticker, book, [r] + rs, tradeId)
      == rest.(responses := e.responses + rest.responses, updates := e.updates + rest.updates)
  {
    assert ([r] + rs)[1..] == rs;
  }

  /**
   * Interleaving does not show: what a run of the whole exchange does to one ticker is what that
   * ticker's requests do alone, whatever the trade id they start from, except for trade ids.
   */
  lemma {:induction false} TickersAreIndependent(m: Market, rs: seq<ClientRequest>, ticker: TickerId, tradeId: TradeId)
    requires AllKnown(m, rs) && ticker in m.books
    ensures var whole := ProcessAll(m, rs);
      var alone := Run(ticker, m.books[ticker], Projected(rs, ticker, m.nextOrderId), tradeId);
      && ticker in whole.market.books && whole.market.books[ticker] == alone.book
      && ResponsesOf(whole.responses, ticker) == alone.responses
      && Unnumbered(UpdatesOf(whole.updates, ticker)) == Unnumbered(alone.updates)
    decreases |rs|
  {
    if rs != [] {
      hide Process, Step, ResponsesOf, UpdatesOf, Unnumbered, Run;
      var r := rs[0];
      var first := Process(m, r);
      CountersAfter(m, r);
      var rest := ProcessAll(first.market, rs[1..]);
      var later := Projected(rs[1..], ticker, IdAfter(r, m.nextOrderId));
      OneRequestSeen(m, r, ticker, tradeId);
      ResponsesOfConcat(first.responses, rest.responses, ticker);
      UpdatesOfConcat(first.updates, rest.updates, ticker);
      UnnumberedConcat(UpdatesOf(first.updates, ticker), UpdatesOf(rest.updates, ticker));
      if r.kind != InvalidRequest && r.tickerId == ticker {
        var b := ForBook(r, m.nextOrderId);
        var e := Step(ticker, m.books[ticker], b, tradeId);
        TickersAreIndependent(first.market, rs[1..], ticker, e.nextTradeId);
        RunCons(ticker, m.books[ticker], b, later, tradeId);
        UnnumberedConcat(e.updates, Run(ticker, e.book, later, e.nextTradeId).updates);
      } else {
        assert [] + later == later;
        TickersAreIndependent(first.market, rs[1..], ticker, tradeId);
        NothingUnnumbered();
      }
    } else {
      NothingUnnumbered();
    }
  }

  lemma {:induction false} NothingUnnumbered()
    ensures Unnumbered([]) == []
  {}

  lemma {:induction false} CountersAfter(m: Market, r: ClientRequest)
    requires Known(m, r)
    ensures Process(m, r).market.nextOrderId == IdAfter(r, m.nextOrderId)
    ensures Process(m, r).market.books.Keys == m.books.Keys
    ensures Process(m, r).market.rested.Keys == m.rested.Keys
  {}

  /**
   * Blocks of an order pool are never given back: over every run, those in use have grown by exactly
   * the number of orders announced as resting, whatever was filled or cancelled since.
   */
  lemma {:induction false} RestedCountsAdds(m: Market, rs: seq<ClientRequest>, ticker: TickerId)
    requires AllKnown(m, rs) && ticker in m.books && ticker in m.rested
    ensures var e := ProcessAll(m, rs);
      && ticker in e.market.rested
      && e.market.rested[ticker] == m.rested[ticker] + AddedCount(UpdatesOf(e.updates, ticker))
    decreases |rs|
  {
    if rs != [] {
      hide Step, RestedBy, AddedCount, UpdatesOf;
      var r := rs[0];
      CountersAfter(m, r);
      var first := Process(m, r);
      var rest := ProcessAll(first.market, rs[1..]);
      RestedCountsAdds(first.market, rs[1..], ticker);
      UpdatesOfConcat(first.updates, rest.updates, ticker);
      AddedCountConcat(UpdatesOf(first.updates, ticker), UpdatesOf(rest.updates, ticker));
      RestedByRequest(m, r, ticker);
    }
  }

  lemma {:induction false} RestedByRequest(m: Market, r: ClientRequest, ticker: TickerId)
    requires Known(m, r) && ticker in m.books && ticker in m.rested
    ensures var e := Process(m, r);
      && ticker in e.market.rested
      && e.market.rested[ticker] == m.rested[ticker] + AddedCount(UpdatesOf(e.updates, ticker))
  {
    hide Step, RestedBy;
    if r.kind != InvalidRequest {
      var b := ForBook(r, m.nextOrderId);
      var e := Process(m, r);
      StepSpeaksForItsTicker(r.tickerId, m.books[r.tickerId], b, m.nextTradeId);
      AllOrNone(e.responses, e.updates, r.tickerId, ticker);
      RestedIsAnnounced(r.tickerId, m.books[r.tickerId], b, m.nextTradeId);
    }
  }
}
