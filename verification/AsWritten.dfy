/**
 * What the code does without the missing link, as a pure function: a book, and beside it the levels
 * that the price map names and no chain leads to. With the link nothing is ever stranded there.
 */
module AsWritten {
  import opened Types
  import opened Matching

  /**
   * A level outside the chains: the side it was opened for, whether it was the last of its side then,
   * and its orders, which may be of both sides.
   */
  datatype Stray = Stray(buy: bool, last: bool, orders: seq<Resting>)

  /** Some orders, none of them used up, all at this price: what a level outside the chains holds. */
  predicate Priced(price: Price, orders: seq<Resting>) {
    orders != [] && forall j :: 0 <= j < |orders| ==> orders[j].price == price && orders[j].quantity > 0
  }

  type Strays = map<Price, Stray>

  datatype Desk = Desk(book: Book, strays: Strays)

  datatype DeskOutcome = DeskOutcome(
    desk: Desk, responses: seq<ClientResponse>, updates: seq<MarketUpdate>, nextTradeId: TradeId)

  const EMPTY_DESK: Desk := Desk(EMPTY_BOOK, map[])

  // ----- adding

  /** What is left of the order rests outside the chains. */
  predicate Strands(linked: bool, d: Desk, r: BookRequest)
    requires r.Add?
  {
    r.price in d.strays || (!linked && !NeedsNoLink(IsBuy(r.side), d.book.At(IsBuy(r.side)), r.price))
  }

  /** All orders of the side have strict priority over this price. */
  predicate AllAhead(buy: bool, own: seq<Resting>, price: Price) {
    forall i :: 0 <= i < |own| ==> Ahead(buy, own[i].price, price)
  }

  /** The stray level of its price with `o` behind its orders; a new one when there is none. */
  function Stranding(d: Desk, o: Resting): Stray {
    if o.price in d.strays then d.strays[o.price].(orders := d.strays[o.price].orders + [o])
    else Stray(IsBuy(o.side), AllAhead(IsBuy(o.side), d.book.At(IsBuy(o.side)), o.price), [o])
  }

  lemma {:induction false} StrandsMore(d: Desk, o: Resting)
    requires o.price in d.strays
    ensures var s := d.strays[o.price]; Stranding(d, o) == Stray(s.buy, s.last, s.orders + [o])
  {}

  lemma {:induction false} StrandsNew(d: Desk, o: Resting)
    requires o.price !in d.strays
    ensures Stranding(d, o) == Stray(IsBuy(o.side), AllAhead(IsBuy(o.side), d.book.At(IsBuy(o.side)), o.price), [o])
  {}

  /** The desk after an order has rested. */
  function Rested(linked: bool, d: Desk, r: BookRequest, remaining: Quantity): Desk
    requires r.Add?
  {
    var buy, o := IsBuy(r.side), RestOf(r, remaining);
    if Strands(linked, d, r) then d.(strays := d.strays[r.price := Stranding(d, o)])
    else d.(book := d.book.With(buy, Insert(buy, d.book.At(buy), o)))
  }

  /** Only the place of the rest differs from `AddOrder`; the messages are the same. */
  function AddAsWritten(linked: bool, ticker: TickerId, d: Desk, r: BookRequest, tradeId: TradeId): DeskOutcome
    requires r.Add?
  {
    var e, c := AddOrder(ticker, d.book, r, tradeId), CrossingOf(ticker, d.book, r, tradeId);
    var crossed := d.(book := d.book.With(!IsBuy(r.side), c.opposite));
    DeskOutcome(if c.remaining == 0 then crossed else Rested(linked, crossed, r, c.remaining),
                e.responses, e.updates, e.nextTradeId)
  }

  /** The pools can serve an add: every level outside the chains occupies a block too. */
  predicate RoomFor(ticker: TickerId, d: Desk, r: BookRequest, rested: nat, orderCapacity: nat, levelCapacity: nat)
    requires r.Add?
  {
    var c, own := CrossingOf(ticker, d.book, r, 0), d.book.At(IsBuy(r.side));
    c.remaining == 0 ||
    (rested + 1 < orderCapacity &&
     (r.price in d.strays || HasPrice(own, r.price) ||
      PriceCount(c.opposite) + PriceCount(own) + |d.strays| + 1 < levelCapacity))
  }

  // ----- cancelling

  /**
   * What becomes of the book: the invariant is carried on; the process ends in a null pointer; or the
   * request is answered and a best pointer is left at a level of no chain.
   */
  datatype Fate = Carried | Ended | Astray

  /**
   * When a level outside the chains runs empty, the search for its predecessor starts at the best level
   * of its side and runs off the end of the chain. A side without levels takes the successor of the
   * emptied level for its new best one.
   */
  function FateOf(alone: bool, last: bool): Fate {
    if !alone then Ended else if last then Carried else Astray
  }

  function CancelFate(d: Desk, price: Price, id: OrderId): Fate {
    if price in d.strays && |d.strays[price].orders| == 1 && d.strays[price].orders[0].orderId == id then
      FateOf(d.book.At(d.strays[price].buy) == [], d.strays[price].last)
    else Carried
  }

  lemma {:induction false} FateOnChain(d: Desk, price: Price, id: OrderId)
    requires price !in d.strays
    ensures CancelFate(d, price, id) == Carried
  {}

  datatype Take = Take(order: Option<Resting>, desk: Desk)

  /** The order at this price with this id, found by price alone, and the desk without it. */
  function TakenOut(d: Desk, price: Price, id: OrderId): Take {
    if price in d.strays then TakenFromStray(d, price, id) else TakenFromBook(d, price, id)
  }

  function TakenFromStray(d: Desk, price: Price, id: OrderId): Take
    requires price in d.strays
  {
    var s := d.strays[price];
    var k := FindId(s.orders, id);
    if k == |s.orders| then Take(None, d)
    else if |s.orders| == 1 then Take(Some(s.orders[k]), d.(strays := d.strays - {price}))
    else Take(Some(s.orders[k]), d.(strays := d.strays[price := s.(orders := RemoveAt(s.orders, k))]))
  }

  function TakenFromBook(d: Desk, price: Price, id: OrderId): Take {
    var b, a := Find(d.book.bids, price, id), Find(d.book.asks, price, id);
    if b == |d.book.bids| && a == |d.book.asks| then Take(None, d)
    else
      var buy := b < |d.book.bids|;
      var s, k := d.book.At(buy), if buy then b else a;
      Take(Some(s[k]), d.(book := d.book.With(buy, RemoveAt(s, k))))
  }

  lemma {:induction false} NothingTaken(d: Desk, price: Price, id: OrderId)
    requires price !in d.strays
    requires Find(d.book.bids, price, id) == |d.book.bids| && Find(d.book.asks, price, id) == |d.book.asks|
    ensures TakenOut(d, price, id) == Take(None, d)
  {}

  function CancelAsWritten(ticker: TickerId, d: Desk, r: BookRequest, tradeId: TradeId): DeskOutcome
    requires r.Cancel?
  {
    var t := TakenOut(d, r.price, r.orderId);
    if t.order.None? then DeskOutcome(t.desk, [RejectedResponse(ticker, r.clientId, r.orderId)], [], tradeId)
    else DeskOutcome(t.desk, [CanceledResponse(ticker, r.clientId, r.side, t.order.value)],
                     [CanceledUpdate(ticker, r.side, t.order.value)], tradeId)
  }

  // ----- runs

  function StepAsWritten(linked: bool, ticker: TickerId, d: Desk, r: BookRequest, tradeId: TradeId): DeskOutcome {
    if r.Add? then AddAsWritten(linked, ticker, d, r, tradeId) else CancelAsWritten(ticker, d, r, tradeId)
  }

  /** From a desk without strays, one request strands nothing exactly when it needs no link. */
  lemma {:induction false} StrandsExactly(linked: bool, ticker: TickerId, book: Book, r: BookRequest, tradeId: TradeId)
    ensures var d := StepAsWritten(linked, ticker, Desk(book, map[]), r, tradeId);
      var e := Step(ticker, book, r, tradeId);
      && d.responses == e.responses && d.updates == e.updates && d.nextTradeId == e.nextTradeId
      && (d.desk.strays == map[] <==> linked || (r.Add? ==> AddNeedsNoLink(ticker, book, r)))
      && (d.desk.strays == map[] ==> d.desk.book == e.book)
  {
    if r.Add? {
      var buy := IsBuy(r.side);
      var t, opposite := TakerOf(ticker, r), book.At(!buy);
      RemainingIgnoresIds(t, r.quantity, opposite, tradeId, 0);
      var d := StepAsWritten(linked, ticker, Desk(book, map[]), r, tradeId);
      var c := CrossingOf(ticker, book, r, tradeId);
      if c.remaining != 0 && Strands(linked, Desk(book, map[]), r) {
        assert r.price in d.desk.strays;
      }
    }
  }

  /**
   * All requests in order. This is the code as far as the run has a meaning: as long as the fate of
   * every cancel in it is `Carried`. Behind any other the function goes on as if the level had left
   * cleanly.
   */
  function RunAsWritten(linked: bool, ticker: TickerId, d: Desk, rs: seq<BookRequest>, tradeId: TradeId): DeskOutcome
    decreases |rs|
  {
    if rs == [] then DeskOutcome(d, [], [], tradeId)
    else
      var first := StepAsWritten(linked, ticker, d, rs[0], tradeId);
      var rest := RunAsWritten(linked, ticker, first.desk, rs[1..], first.nextTradeId);
      rest.(responses := first.responses + rest.responses, updates := first.updates + rest.updates)
  }

  /** The orders of the level outside the chains at this price are still there, in front. */
  predicate StillStranded(d: Desk, e: Desk, price: Price) {
    price in d.strays ==> price in e.strays && d.strays[price].orders <= e.strays[price].orders
  }

  /**
   * What is stranded never trades: whatever is added at whatever price, and whatever is cancelled at
   * other prices, the orders of a level outside the chains stay on it unchanged.
   */
  lemma {:induction false} StrandedOrdersStay(linked: bool, ticker: TickerId, d: Desk, rs: seq<BookRequest>,
                                              tradeId: TradeId, price: Price)
    requires forall i :: 0 <= i < |rs| ==> rs[i].Cancel? ==> rs[i].price != price
    ensures StillStranded(d, RunAsWritten(linked, ticker, d, rs, tradeId).desk, price)
    decreases |rs|
  {
    if rs != [] {
      hide StepAsWritten, StillStranded;
      var first := StepAsWritten(linked, ticker, d, rs[0], tradeId);
      StepKeepsStranded(linked, ticker, d, rs[0], tradeId, price);
      StrandedOrdersStay(linked, ticker, first.desk, rs[1..], first.nextTradeId, price);
      StillStrandedOn(d, first.desk, RunAsWritten(linked, ticker, first.desk, rs[1..], first.nextTradeId).desk, price);
    } else {
      assert d == RunAsWritten(linked, ticker, d, rs, tradeId).desk;
    }
  }

  lemma {:induction false} StepKeepsStranded(linked: bool, ticker: TickerId, d: Desk, r: BookRequest, tradeId: TradeId,
                                             price: Price)
    requires r.Cancel? ==> r.price != price
    ensures StillStranded(d, StepAsWritten(linked, ticker, d, r, tradeId).desk, price)
  {}

  lemma {:induction false} StillStrandedOn(d: Desk, e: Desk, f: Desk, price: Price)
    requires StillStranded(d, e, price) && StillStranded(e, f, price)
    ensures StillStranded(d, f, price)
  {}
}
