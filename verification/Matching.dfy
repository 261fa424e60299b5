/**
 * The reference matcher: a book is two sequences of resting orders in price-time order, and every
 * request is a pure function on it. The pointer-based `OrderBook` is proved to compute the same
 * books and the same messages; the laws of the engine are proved about these functions.
 */
module Matching {
  import opened Types

  datatype Resting = Resting(
    orderId: OrderId, clientId: ClientId, side: OrderSide, quantity: Quantity, price: Price)

  type Book = Sides<seq<Resting>>

  const EMPTY_BOOK: Book := Sides([], [])

  /** On side `buy`, price `a` has strict priority over price `b`. */
  predicate Ahead(buy: bool, a: Price, b: Price) {
    if buy then a > b else a < b
  }

  /** A taker on side `buy` with this limit trades with a maker at `price`. */
  predicate Acceptable(buy: bool, limit: Price, price: Price) {
    if buy then price <= limit else price >= limit
  }

  datatype Taker = Taker(
    tickerId: TickerId, orderId: OrderId, clientId: ClientId, side: OrderSide, limit: Price)

  datatype BookRequest =
    | Add(orderId: OrderId, clientId: ClientId, side: OrderSide, quantity: Quantity, price: Price)
    | Cancel(orderId: OrderId, clientId: ClientId, side: OrderSide, price: Price)

  // ----- messages

  function AcceptedResponse(t: Taker, quantity: Quantity): ClientResponse {
    ClientResponse(Accepted, t.tickerId, t.clientId, t.orderId, t.side, quantity, t.limit)
  }

  function MakerFilled(t: Taker, maker: Resting, fill: Quantity): ClientResponse {
    ClientResponse(Filled, t.tickerId, maker.clientId, maker.orderId, maker.side, fill, maker.price)
  }

  function TakerFilled(t: Taker, maker: Resting, fill: Quantity): ClientResponse {
    ClientResponse(Filled, t.tickerId, t.clientId, t.orderId, t.side, fill, maker.price)
  }

  function TradeUpdate(t: Taker, maker: Resting, fill: Quantity, id: TradeId): MarketUpdate {
    MarketUpdate(Traded, t.tickerId, INVALID_UINT32, id, t.side, fill, maker.price)
  }

  function OrderUpdate(kind: UpdateType, ticker: TickerId, o: Resting): MarketUpdate {
    MarketUpdate(kind, ticker, o.orderId, INVALID_UINT32, o.side, o.quantity, o.price)
  }

  function CanceledResponse(ticker: TickerId, clientId: ClientId, side: OrderSide, o: Resting)
    : ClientResponse
  {
    ClientResponse(Canceled, ticker, clientId, o.orderId, side, o.quantity, o.price)
  }

  function CanceledUpdate(ticker: TickerId, side: OrderSide, o: Resting): MarketUpdate {
    MarketUpdate(Removed, ticker, o.orderId, INVALID_UINT32, side, o.quantity, o.price)
  }

  function RejectedResponse(ticker: TickerId, clientId: ClientId, orderId: OrderId): ClientResponse {
    ClientResponse(CancelRejected, ticker, clientId, orderId, OrderSide.Invalid,
                   INVALID_UINT32, INVALID_PRICE)
  }

  // ----- adding

  function Less(o: Resting, fill: Quantity): Resting
    requires fill <= o.quantity
  {
    o.(quantity := o.quantity - fill)
  }

  /** What stays in the book of an order with this remainder. */
  function Remnant(o: Resting): seq<Resting> {
    if o.quantity == 0 then [] else [o]
  }

  datatype Hit = Hit(
    left: Resting, remaining: Quantity, responses: seq<ClientResponse>, updates: seq<MarketUpdate>)

  /** One trade between the taker and the best maker. */
  function HitOf(t: Taker, quantity: Quantity, maker: Resting, tradeId: TradeId): Hit {
    var fill := Min(quantity, maker.quantity);
    var left := Less(maker, fill);
    Hit(left, quantity - fill,
        [MakerFilled(t, maker, fill), TakerFilled(t, maker, fill)],
        [TradeUpdate(t, maker, fill, tradeId),
         if left.quantity == 0 then OrderUpdate(Removed, t.tickerId, maker.(quantity := fill))
         else OrderUpdate(Modified, t.tickerId, left)])
  }

  datatype Crossing = Crossing(
    opposite: seq<Resting>, remaining: Quantity,
    responses: seq<ClientResponse>, updates: seq<MarketUpdate>, nextTradeId: TradeId)

  predicate Trades(t: Taker, quantity: Quantity, opposite: seq<Resting>) {
    quantity != 0 && opposite != [] && Acceptable(IsBuy(t.side), t.limit, opposite[0].price)
  }

  /** Trades a quantity against the opposite side, best maker first, until it stops. */
  function Cross(t: Taker, quantity: Quantity, opposite: seq<Resting>, tradeId: TradeId): Crossing
    decreases |opposite|
  {
    if !Trades(t, quantity, opposite) then
      Crossing(opposite, quantity, [], [], tradeId)
    else
      var hit := HitOf(t, quantity, opposite[0], tradeId);
      if hit.left.quantity == 0 then
        var rest := Cross(t, hit.remaining, opposite[1..], Next(tradeId));
        rest.(responses := hit.responses + rest.responses, updates := hit.updates + rest.updates)
      else
        Crossing([hit.left] + opposite[1..], hit.remaining, hit.responses, hit.updates, Next(tradeId))
  }

  /** What one turn of the matching loop leaves to be done. */
  lemma {:induction false} CrossStep(t: Taker, quantity: Quantity, opposite: seq<Resting>, tradeId: TradeId)
    requires Trades(t, quantity, opposite)
    ensures var h := HitOf(t, quantity, opposite[0], tradeId);
      var rest := Cross(t, h.remaining, Remnant(h.left) + opposite[1..], Next(tradeId));
      Cross(t, quantity, opposite, tradeId)
      == rest.(responses := h.responses + rest.responses, updates := h.updates + rest.updates)
  {
    var h := HitOf(t, quantity, opposite[0], tradeId);
    assert [] + opposite[1..] == opposite[1..];
    assert h.responses + [] == h.responses && h.updates + [] == h.updates;
  }

  lemma {:induction false} CrossStops(t: Taker, quantity: Quantity, opposite: seq<Resting>, tradeId: TradeId)
    requires !Trades(t, quantity, opposite)
    ensures Cross(t, quantity, opposite, tradeId) == Crossing(opposite, quantity, [], [], tradeId)
  {}

  /** A trade with a non-empty maker uses up some of the taker. */
  lemma {:induction false} HitReduces(t: Taker, quantity: Quantity, tradeId: TradeId)
    ensures forall maker: Resting {:trigger HitOf(t, quantity, maker, tradeId)} ::
              maker.quantity > 0 && quantity > 0 ==> HitOf(t, quantity, maker, tradeId).remaining < quantity
  {}

  /** Behind every order at the same or a better price, ahead of every worse one. */
  function Insert(buy: bool, own: seq<Resting>, o: Resting): seq<Resting> {
    if own == [] || Ahead(buy, o.price, own[0].price) then [o] + own
    else [own[0]] + Insert(buy, own[1..], o)
  }

  predicate HasPrice(s: seq<Resting>, price: Price) {
    exists i :: 0 <= i < |s| && s[i].price == price
  }

  /** How many different prices a side in price order holds. */
  function PriceCount(s: seq<Resting>): nat {
    if |s| <= 1 then |s| else PriceCount(s[1..]) + if s[0].price == s[1].price then 0 else 1
  }

  /**
   * Resting an order at this price needs no link from a worse level to a better one: its side is
   * empty, its price is the new best, or its price is there already.
   */
  predicate NeedsNoLink(buy: bool, own: seq<Resting>, price: Price) {
    own == [] || Ahead(buy, price, own[0].price) || HasPrice(own, price)
  }

  datatype Outcome = Outcome(
    book: Book, responses: seq<ClientResponse>, updates: seq<MarketUpdate>, nextTradeId: TradeId)

  function TakerOf(ticker: TickerId, r: BookRequest): Taker {
    Taker(ticker, r.orderId, r.clientId, r.side, r.price)
  }

  function CrossingOf(ticker: TickerId, book: Book, r: BookRequest, tradeId: TradeId): Crossing
    requires r.Add?
  {
    Cross(TakerOf(ticker, r), r.quantity, book.At(!IsBuy(r.side)), tradeId)
  }

  function RestOf(r: BookRequest, remaining: Quantity): Resting {
    Resting(r.orderId, r.clientId, r.side, remaining, r.price)
  }

  function AddOrder(ticker: TickerId, book: Book, r: BookRequest, tradeId: TradeId): Outcome
    requires r.Add?
  {
    var buy := IsBuy(r.side);
    var c := CrossingOf(ticker, book, r, tradeId);
    var crossed := book.With(!buy, c.opposite);
    var responses := [AcceptedResponse(TakerOf(ticker, r), r.quantity)] + c.responses;
    if c.remaining == 0 then
      Outcome(crossed, responses, c.updates, c.nextTradeId)
    else
      var o := RestOf(r, c.remaining);
      Outcome(crossed.With(buy, Insert(buy, book.At(buy), o)), responses,
              c.updates + [OrderUpdate(Added, ticker, o)], c.nextTradeId)
  }

  /** The condition of `NeedsNoLink` for a whole add; ids do not matter to it. */
  predicate AddNeedsNoLink(ticker: TickerId, book: Book, r: BookRequest)
    requires r.Add?
  {
    CrossingOf(ticker, book, r, 0).remaining == 0 || NeedsNoLink(IsBuy(r.side), book.At(IsBuy(r.side)), r.price)
  }

  /** How many orders a request leaves resting. */
  function RestedBy(ticker: TickerId, book: Book, r: BookRequest): nat {
    if r.Add? && CrossingOf(ticker, book, r, 0).remaining != 0 then 1 else 0
  }

  /**
   * An add can be finished by pools of these sizes: nothing of it rests, or there is a block for the
   * order and, at a new price, one for the level. Orders that rested keep their blocks for good.
   */
  predicate HasRoom(ticker: TickerId, book: Book, r: BookRequest, rested: nat, orderCapacity: nat, levelCapacity: nat)
    requires r.Add?
  {
    var c, own := CrossingOf(ticker, book, r, 0), book.At(IsBuy(r.side));
    c.remaining == 0 ||
    (rested + 1 < orderCapacity &&
     (HasPrice(own, r.price) || PriceCount(c.opposite) + PriceCount(own) + 1 < levelCapacity))
  }

  /** Trade ids do not influence how much is traded. */
  lemma {:induction false} RemainingIgnoresIds(t: Taker, quantity: Quantity, opposite: seq<Resting>, a: TradeId,
                                               b: TradeId)
    ensures Cross(t, quantity, opposite, a).remaining == Cross(t, quantity, opposite, b).remaining
    ensures Cross(t, quantity, opposite, a).opposite == Cross(t, quantity, opposite, b).opposite
    ensures Cross(t, quantity, opposite, a).responses == Cross(t, quantity, opposite, b).responses
    decreases |opposite|
  {
    if Trades(t, quantity, opposite) {
      var h := HitOf(t, quantity, opposite[0], a);
      if h.left.quantity == 0 {
        RemainingIgnoresIds(t, h.remaining, opposite[1..], Next(a), Next(b));
      }
    }
  }

  // ----- cancelling

  /** The first order at this price with this id, or the length of `s`. */
  function Find(s: seq<Resting>, price: Price, id: OrderId): (k: nat)
    ensures k <= |s|
    ensures k < |s| ==> s[k].price == price && s[k].orderId == id
    ensures forall j :: 0 <= j < k ==> !(s[j].price == price && s[j].orderId == id)
  {
    if s == [] || (s[0].price == price && s[0].orderId == id) then 0
    else 1 + Find(s[1..], price, id)
  }

  /** The first order with this id, or the length of `s`. */
  function FindId(s: seq<Resting>, id: OrderId): (k: nat)
    ensures k <= |s|
    ensures k < |s| ==> s[k].orderId == id
    ensures forall j :: 0 <= j < k ==> s[j].orderId != id
  {
    if s == [] || s[0].orderId == id then 0 else 1 + FindId(s[1..], id)
  }

  lemma {:induction false} FindIdIs(s: seq<Resting>, id: OrderId, k: nat)
    requires k <= |s| && (k < |s| ==> s[k].orderId == id)
    requires forall j :: 0 <= j < k ==> s[j].orderId != id
    ensures FindId(s, id) == k
  {
    if FindId(s, id) < k {
      assert false;
    }
  }

  function RemoveAt<T>(s: seq<T>, k: nat): seq<T>
    requires k < |s|
  {
    s[..k] + s[k + 1..]
  }

  lemma {:induction false} RemoveAtShifts<T>(s: seq<T>, k: nat)
    requires k < |s|
    ensures |RemoveAt(s, k)| == |s| - 1
    ensures forall j {:trigger RemoveAt(s, k)[j]} :: 0 <= j < |s| - 1 ==>
              RemoveAt(s, k)[j] == s[if j < k then j else j + 1]
  {}

  function CancelOrder(ticker: TickerId, book: Book, r: BookRequest, tradeId: TradeId): (e: Outcome)
    requires r.Cancel?
    ensures e.nextTradeId == tradeId
  {
    var b := Find(book.bids, r.price, r.orderId);
    var a := Find(book.asks, r.price, r.orderId);
    if b == |book.bids| && a == |book.asks| then
      Outcome(book, [RejectedResponse(ticker, r.clientId, r.orderId)], [], tradeId)
    else
      var buy := b < |book.bids|;
      var k := if buy then b else a;
      var o := book.At(buy)[k];
      Outcome(book.With(buy, RemoveAt(book.At(buy), k)),
              [CanceledResponse(ticker, r.clientId, r.side, o)],
              [CanceledUpdate(ticker, r.side, o)], tradeId)
  }

  // ----- runs

  function Step(ticker: TickerId, book: Book, r: BookRequest, tradeId: TradeId): Outcome {
    if r.Add? then AddOrder(ticker, book, r, tradeId) else CancelOrder(ticker, book, r, tradeId)
  }

  /** All requests in order; the messages of the whole run are concatenated. */
  function Run(ticker: TickerId, book: Book, rs: seq<BookRequest>, tradeId: TradeId): Outcome
    decreases |rs|
  {
    if rs == [] then Outcome(book, [], [], tradeId)
    else
      var first := Step(ticker, book, rs[0], tradeId);
      var rest := Run(ticker, first.book, rs[1..], first.nextTradeId);
      rest.(responses := first.responses + rest.responses, updates := first.updates + rest.updates)
  }

  // ----- the invariant of a book

  predicate Ordered(buy: bool, s: seq<Resting>) {
    forall i, j :: 0 <= i < j < |s| ==> !Ahead(buy, s[j].price, s[i].price)
  }

  predicate Live(buy: bool, s: seq<Resting>) {
    forall i :: 0 <= i < |s| ==> s[i].quantity > 0 && IsBuy(s[i].side) == buy
  }

  predicate Uncrossed(book: Book) {
    forall i, j :: 0 <= i < |book.bids| && 0 <= j < |book.asks| ==> book.bids[i].price < book.asks[j].price
  }

  predicate WellFormed(book: Book) {
    && Ordered(true, book.bids) && Live(true, book.bids)
    && Ordered(false, book.asks) && Live(false, book.asks)
    && Uncrossed(book)
  }
}