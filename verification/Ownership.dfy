/**
 * Whose order is whose: over every run, every order that rests or is stranded, and every fill, has the
 * ticker, the client, the side and the price of the request that was given its id.
 */
module Ownership {
  import opened Types
  import opened Matching
  import opened AsWritten
  import opened AsWrittenLaws
  import opened ExchangeModel
  import opened ExchangeAsWritten
  import opened ExchangeIds

  /** What an add says of itself. */
  datatype Owner = Owner(tickerId: TickerId, clientId: ClientId, side: OrderSide, price: Price)

  type Register = map<OrderId, Owner>

  predicate Extends(reg: Register, more: Register) {
    forall id :: id in reg ==> id in more && more[id] == reg[id]
  }

  /** Every order of `s` is as it was added. */
  predicate AllOwned(reg: Register, ticker: TickerId, s: seq<Resting>) {
    forall i :: 0 <= i < |s| ==>
      s[i].orderId in reg && reg[s[i].orderId] == Owner(ticker, s[i].clientId, s[i].side, s[i].price)
  }

  predicate DeskOwned(reg: Register, ticker: TickerId, d: Desk) {
    && AllOwned(reg, ticker, d.book.bids) && AllOwned(reg, ticker, d.book.asks)
    && forall p :: p in d.strays ==> AllOwned(reg, ticker, d.strays[p].orders)
  }

  /**
   * A client is told of its own orders: ACCEPTED repeats what was asked; FILLED names the client and the
   * side of the order, and a price that the order allows; CANCELED names the price of the order.
   */
  predicate ToldToOwner(reg: Register, m: ClientResponse) {
    m.kind == CancelRejected ||
    (m.orderId in reg
     && var w := reg[m.orderId];
        && m.tickerId == w.tickerId
        && (m.kind == Accepted ==> m.clientId == w.clientId && m.side == w.side && m.price == w.price)
        && (m.kind == Canceled ==> m.price == w.price)
        && (m.kind == Filled ==>
              && m.clientId == w.clientId && m.side == w.side
              && if w.side == Buy then m.price <= w.price else m.price >= w.price))
  }

  /** The market is told of orders at their prices and, but for a cancel, on their sides. */
  predicate ToldOfOrder(reg: Register, u: MarketUpdate) {
    u.kind == Traded ||
    (u.orderId in reg
     && var w := reg[u.orderId];
        u.tickerId == w.tickerId && u.price == w.price && (u.kind != Removed ==> u.side == w.side))
  }

  predicate AllTold(reg: Register, ms: seq<ClientResponse>, us: seq<MarketUpdate>) {
    && (forall i :: 0 <= i < |ms| ==> ToldToOwner(reg, ms[i]))
    && (forall i :: 0 <= i < |us| ==> ToldOfOrder(reg, us[i]))
  }

  lemma {:induction false} ToldOn(reg: Register, more: Register, ms: seq<ClientResponse>, us: seq<MarketUpdate>)
    requires AllTold(reg, ms, us) && Extends(reg, more)
    ensures AllTold(more, ms, us)
  {}

  lemma {:induction false} OwnedOn(reg: Register, more: Register, ticker: TickerId, d: Desk)
    requires DeskOwned(reg, ticker, d) && Extends(reg, more)
    ensures DeskOwned(more, ticker, d)
  {
    forall p | p in d.strays ensures AllOwned(more, ticker, d.strays[p].orders) {
      assert AllOwned(reg, ticker, d.strays[p].orders);
    }
  }

  lemma {:induction false} ToldTogether(reg: Register, a: seq<ClientResponse>, b: seq<ClientResponse>,
                                        u: seq<MarketUpdate>, v: seq<MarketUpdate>)
    requires AllTold(reg, a, u) && AllTold(reg, b, v)
    ensures AllTold(reg, a + b, u + v)
  {}

  // ----- one request

  /** Both clients of a trade are told of orders of their own, at a price that both allow. */
  lemma {:induction false} HitIsOwned(reg: Register, t: Taker, quantity: Quantity, maker: Resting, tradeId: TradeId)
    requires t.orderId in reg && reg[t.orderId] == Owner(t.tickerId, t.clientId, t.side, t.limit)
    requires maker.orderId in reg
    requires reg[maker.orderId] == Owner(t.tickerId, maker.clientId, maker.side, maker.price)
    requires Acceptable(IsBuy(t.side), t.limit, maker.price)
    ensures var h := HitOf(t, quantity, maker, tradeId); AllTold(reg, h.responses, h.updates)
  {}

  lemma {:induction false} CrossIsOwned(reg: Register, t: Taker, quantity: Quantity, s: seq<Resting>, tradeId: TradeId)
    requires t.orderId in reg && reg[t.orderId] == Owner(t.tickerId, t.clientId, t.side, t.limit)
    requires AllOwned(reg, t.tickerId, s)
    ensures var c := Cross(t, quantity, s, tradeId);
      AllOwned(reg, t.tickerId, c.opposite) && AllTold(reg, c.responses, c.updates)
    decreases |s|
  {
    if Trades(t, quantity, s) {
      hide AllTold, HitOf;
      var h := HitOf(t, quantity, s[0], tradeId);
      HitIsOwned(reg, t, quantity, s[0], tradeId);
      if h.left.quantity == 0 {
        var rest := Cross(t, h.remaining, s[1..], Next(tradeId));
        CrossIsOwned(reg, t, h.remaining, s[1..], Next(tradeId));
        ToldTogether(reg, h.responses, rest.responses, h.updates, rest.updates);
      } else {
        LeftIsOwned(t, quantity, s[0], tradeId);
      }
    } else {
      assert AllTold(reg, [], []);
    }
  }

  lemma {:induction false} LeftIsOwned(t: Taker, quantity: Quantity, maker: Resting, tradeId: TradeId)
    ensures var left := HitOf(t, quantity, maker, tradeId).left;
      left.orderId == maker.orderId && left.clientId == maker.clientId && left.side == maker.side
      && left.price == maker.price
  {}

  lemma {:induction false} InsertIsOwned(reg: Register, ticker: TickerId, buy: bool, own: seq<Resting>, o: Resting)
    requires AllOwned(reg, ticker, own) && AllOwned(reg, ticker, [o])
    ensures AllOwned(reg, ticker, Insert(buy, own, o))
  {
    assert [o][0] == o;
    if own != [] && !Ahead(buy, o.price, own[0].price) {
      InsertIsOwned(reg, ticker, buy, own[1..], o);
    }
  }

  lemma {:induction false} StrandingIsOwned(reg: Register, ticker: TickerId, d: Desk, o: Resting)
    requires DeskOwned(reg, ticker, d) && AllOwned(reg, ticker, [o])
    ensures AllOwned(reg, ticker, Stranding(d, o).orders)
  {
    assert [o][0] == o;
  }

  /** An add whose own words are registered. */
  lemma {:induction false} AddIsOwned(linked: bool, ticker: TickerId, d: Desk, r: BookRequest, tradeId: TradeId,
                                      reg: Register)
    requires r.Add? && DeskOwned(reg, ticker, d)
    requires r.orderId in reg && reg[r.orderId] == Owner(ticker, r.clientId, r.side, r.price)
    ensures var e := AddAsWritten(linked, ticker, d, r, tradeId);
      DeskOwned(reg, ticker, e.desk) && AllTold(reg, e.responses, e.updates)
  {
    hide AddAsWritten, AddOrder, Cross, Insert, Stranding, Strands, AllTold, AllOwned;
    var t, c := TakerOf(ticker, r), CrossingOf(ticker, d.book, r, tradeId);
    var o, x := RestOf(r, c.remaining), Crossed(ticker, d, r, tradeId);
    CrossIsOwned(reg, t, r.quantity, d.book.At(!IsBuy(r.side)), tradeId);
    AddOnDesk(linked, ticker, d, r, tradeId);
    AddSpeaks(linked, ticker, d, r, tradeId);
    AcceptedIsOwned(reg, ticker, r, c.remaining);
    var told := [AcceptedResponse(t, r.quantity)];
    ToldTogether(reg, told, c.responses, [], c.updates);
    assert [] + c.updates == c.updates;
    if c.remaining != 0 {
      ToldTogether(reg, told + c.responses, [], c.updates, [OrderUpdate(Added, ticker, o)]);
      assert told + c.responses + [] == told + c.responses;
      InsertIsOwned(reg, ticker, IsBuy(r.side), d.book.At(IsBuy(r.side)), o);
      StrandingIsOwned(reg, ticker, x, o);
    }
  }

  lemma {:induction false} AddSpeaks(linked: bool, ticker: TickerId, d: Desk, r: BookRequest, tradeId: TradeId)
    requires r.Add?
    ensures AddAsWritten(linked, ticker, d, r, tradeId).responses
         == [AcceptedResponse(TakerOf(ticker, r), r.quantity)] + CrossingOf(ticker, d.book, r, tradeId).responses
  {}

  lemma {:induction false} AcceptedIsOwned(reg: Register, ticker: TickerId, r: BookRequest, remaining: Quantity)
    requires r.Add?
    requires r.orderId in reg && reg[r.orderId] == Owner(ticker, r.clientId, r.side, r.price)
    ensures AllTold(reg, [AcceptedResponse(TakerOf(ticker, r), r.quantity)], [])
    ensures AllTold(reg, [], [OrderUpdate(Added, ticker, RestOf(r, remaining))])
    ensures AllOwned(reg, ticker, [RestOf(r, remaining)])
  {}

  lemma {:induction false} CancelIsOwned(ticker: TickerId, d: Desk, r: BookRequest, tradeId: TradeId, reg: Register)
    requires r.Cancel? && DeskOwned(reg, ticker, d)
    ensures var e := CancelAsWritten(ticker, d, r, tradeId);
      DeskOwned(reg, ticker, e.desk) && AllTold(reg, e.responses, e.updates)
  {
    hide Find, FindId;
    var t := TakenOut(d, r.price, r.orderId);
    if r.price in d.strays {
      assert AllOwned(reg, ticker, d.strays[r.price].orders);
    }
  }

  // ----- runs of one book

  /** The register behind a run of one book. */
  function Registered(reg: Register, ticker: TickerId, rs: seq<BookRequest>): Register
    decreases |rs|
  {
    if rs == [] then reg
    else Registered(if rs[0].Add? then reg[rs[0].orderId := Owner(ticker, rs[0].clientId, rs[0].side, rs[0].price)]
                    else reg, ticker, rs[1..])
  }

  /** No add of the run has an id that is registered by then. */
  predicate NewIds(reg: Register, ticker: TickerId, rs: seq<BookRequest>)
    decreases |rs|
  {
    rs == [] ||
    ((rs[0].Add? ==> rs[0].orderId !in reg)
     && NewIds(if rs[0].Add? then reg[rs[0].orderId := Owner(ticker, rs[0].clientId, rs[0].side, rs[0].price)]
               else reg, ticker, rs[1..]))
  }

  /** Over every run of one book that has a meaning, linked or not, whose adds have ids of their own. */
  lemma {:induction false} RunIsOwned(linked: bool, ticker: TickerId, d: Desk, rs: seq<BookRequest>, tradeId: TradeId,
                                      reg: Register)
    requires DeskOwned(reg, ticker, d) && NewIds(reg, ticker, rs)
    ensures var e, after := RunAsWritten(linked, ticker, d, rs, tradeId), Registered(reg, ticker, rs);
      Extends(reg, after) && DeskOwned(after, ticker, e.desk) && AllTold(after, e.responses, e.updates)
    decreases |rs|
  {
    hide DeskOwned, AllTold, StepAsWritten;
    if rs != [] {
      var r := rs[0];
      var now := if r.Add? then reg[r.orderId := Owner(ticker, r.clientId, r.side, r.price)] else reg;
      var first := StepAsWritten(linked, ticker, d, r, tradeId);
      var rest := RunAsWritten(linked, ticker, first.desk, rs[1..], first.nextTradeId);
      OwnedOn(reg, now, ticker, d);
      StepIsOwned(linked, ticker, d, r, tradeId, now);
      RunIsOwned(linked, ticker, first.desk, rs[1..], first.nextTradeId, now);
      var after := Registered(reg, ticker, rs);
      ToldOn(now, after, first.responses, first.updates);
      ToldTogether(after, first.responses, rest.responses, first.updates, rest.updates);
    } else {
      NothingTold(reg);
    }
  }

  lemma {:induction false} NothingTold(reg: Register)
    ensures AllTold(reg, [], [])
  {}

  lemma {:induction false} StepIsOwned(linked: bool, ticker: TickerId, d: Desk, r: BookRequest, tradeId: TradeId,
                                       reg: Register)
    requires DeskOwned(reg, ticker, d)
    requires r.Add? ==> r.orderId in reg && reg[r.orderId] == Owner(ticker, r.clientId, r.side, r.price)
    ensures var e := StepAsWritten(linked, ticker, d, r, tradeId);
      DeskOwned(reg, ticker, e.desk) && AllTold(reg, e.responses, e.updates)
  {
    hide DeskOwned, AllTold, AddAsWritten, CancelAsWritten;
    if r.Add? {
      AddIsOwned(linked, ticker, d, r, tradeId, reg);
    } else {
      CancelIsOwned(ticker, d, r, tradeId, reg);
    }
  }

  // ----- runs of the exchange

  /** The id behind a request: an add uses one up. */
  function IdBehind(r: ClientRequest, next: OrderId): OrderId {
    if r.kind == AddRequest then (next + 1) % 0x1_0000_0000 else next
  }

  function With(reg: Register, r: ClientRequest, next: OrderId): Register {
    if r.kind == AddRequest then reg[next := Owner(r.tickerId, r.clientId, r.side, r.price)] else reg
  }

  /** The register behind a run of the exchange, in the words of its add requests. */
  function AllRegistered(reg: Register, rs: seq<ClientRequest>, next: OrderId): Register
    decreases |rs|
  {
    if rs == [] then reg else AllRegistered(With(reg, rs[0], next), rs[1..], IdBehind(rs[0], next))
  }

  predicate AllNew(reg: Register, rs: seq<ClientRequest>, next: OrderId)
    decreases |rs|
  {
    rs == [] ||
    ((rs[0].kind == AddRequest ==> next !in reg) && AllNew(With(reg, rs[0], next), rs[1..], IdBehind(rs[0], next)))
  }

  ghost predicate FloorOwned(reg: Register, f: Floor) {
    forall t :: t in f.market.books && t in f.strays ==> DeskOwned(reg, t, DeskAt(f, t))
  }

  lemma {:induction false} FloorOwnedOn(reg: Register, more: Register, f: Floor)
    requires FloorOwned(reg, f) && Extends(reg, more)
    ensures FloorOwned(more, f)
  {
    hide DeskOwned, Extends;
    forall t | t in f.market.books && t in f.strays ensures DeskOwned(more, t, DeskAt(f, t)) {
      OwnedOn(reg, more, t, DeskAt(f, t));
    }
  }

  lemma {:induction false} ServedIsOwned(linked: bool, f: Floor, r: ClientRequest, reg: Register)
    requires KnownOn(f, r) && FloorOwned(reg, f)
    requires r.kind == AddRequest ==>
      var id := f.market.nextOrderId; id in reg && reg[id] == Owner(r.tickerId, r.clientId, r.side, r.price)
    ensures var e := Serve(linked, f, r);
      && FloorOwned(reg, e.floor) && AllTold(reg, e.responses, e.updates)
      && e.floor.market.nextOrderId == IdBehind(r, f.market.nextOrderId)
  {
    hide DeskOwned, AllTold, StepAsWritten;
    if r.kind != InvalidRequest {
      assert DeskOf(f, r) == DeskAt(f, r.tickerId);
      StepIsOwned(linked, r.tickerId, DeskOf(f, r), ForBook(r, f.market.nextOrderId), f.market.nextTradeId, reg);
      var e := Serve(linked, f, r).floor;
      forall t | t in e.market.books && t in e.strays ensures DeskOwned(reg, t, DeskAt(e, t)) {
        assert t != r.tickerId ==> DeskAt(e, t) == DeskAt(f, t);
      }
    } else {
      NothingTold(reg);
    }
  }

  /**
   * Over every run of the exchange that has a meaning, linked or not, as long as the ids given are new:
   * every order on every desk is as it was added, by whoever the register says, and every message about an
   * order goes to its ticker and, but for an answer to a cancel, to its client and names its side; no order
   * is ever filled at a price worse than its own.
   */
  lemma {:induction false} EveryRunIsOwned(linked: bool, f: Floor, rs: seq<ClientRequest>, reg: Register)
    requires AllKnownOn(f, rs) && FloorOwned(reg, f) && AllNew(reg, rs, f.market.nextOrderId)
    ensures var e, after := ServeAll(linked, f, rs), AllRegistered(reg, rs, f.market.nextOrderId);
      Extends(reg, after) && FloorOwned(after, e.floor) && AllTold(after, e.responses, e.updates)
    decreases |rs|
  {
    hide FloorOwned, AllTold, Serve, AllKnownOn;
    if rs != [] {
      var r, next := rs[0], f.market.nextOrderId;
      var now := With(reg, r, next);
      assert rs == [r] + rs[1..];
      StillKnown(linked, f, r, rs[1..]);
      var first := Serve(linked, f, r);
      var rest := ServeAll(linked, first.floor, rs[1..]);
      FloorOwnedOn(reg, now, f);
      ServedIsOwned(linked, f, r, now);
      EveryRunIsOwned(linked, first.floor, rs[1..], now);
      var after := AllRegistered(reg, rs, next);
      ToldOn(now, after, first.responses, first.updates);
      ToldTogether(after, first.responses, rest.responses, first.updates, rest.updates);
    } else {
      NothingTold(reg);
    }
  }

  /** How many ids after `first` this one is given. */
  function Place(id: OrderId, first: OrderId): nat {
    (id - first) % 0x1_0000_0000
  }

  lemma {:induction false} PlaceOfNext(first: OrderId, n: nat)
    requires n < 0x1_0000_0000
    ensures Place((first + n) % 0x1_0000_0000, first) == n
    ensures ((first + n) % 0x1_0000_0000 + 1) % 0x1_0000_0000 == (first + (n + 1)) % 0x1_0000_0000
  {}

  /** Until the counter wraps, the ids given are new. */
  lemma {:induction false} NewUntilTheWrap(reg: Register, rs: seq<ClientRequest>, first: OrderId, n: nat)
    requires n + Adds(rs) <= 0x1_0000_0000
    requires forall id :: id in reg ==> Place(id, first) < n
    ensures AllNew(reg, rs, (first + n) % 0x1_0000_0000)
    decreases |rs|
  {
    if rs != [] {
      hide Place;
      var next := (first + n) % 0x1_0000_0000;
      if rs[0].kind == AddRequest {
        PlaceOfNext(first, n);
        NewUntilTheWrap(With(reg, rs[0], next), rs[1..], first, n + 1);
      } else {
        NewUntilTheWrap(reg, rs[1..], first, n);
      }
    }
  }

  /** From empty desks on, until the counter wraps, that is every run. */
  lemma {:induction false} OwnedFromTheStart(linked: bool, f: Floor, rs: seq<ClientRequest>)
    requires AllKnownOn(f, rs) && Adds(rs) <= 0x1_0000_0000
    requires forall t :: t in f.market.books && t in f.strays ==> DeskAt(f, t) == EMPTY_DESK
    ensures var e, after := ServeAll(linked, f, rs), AllRegistered(map[], rs, f.market.nextOrderId);
      FloorOwned(after, e.floor) && AllTold(after, e.responses, e.updates)
  {
    hide ServeAll, AllRegistered, AllNew, AllTold;
    NewUntilTheWrap(map[], rs, f.market.nextOrderId, 0);
    assert (f.market.nextOrderId + 0) % 0x1_0000_0000 == f.market.nextOrderId;
    EveryRunIsOwned(linked, f, rs, map[]);
  }
}
