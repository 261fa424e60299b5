/** Nothing is lost or created: quantities over whole runs, and orders split in two. */
module Conservation {
  import opened Types
  import opened Matching
  import opened BookLaws

  /** The quantity that the order `id` rests in `s`. */
  function Quantities(s: seq<Resting>, id: OrderId): nat {
    if s == [] then 0
    else (if s[0].orderId == id then s[0].quantity else 0) + Quantities(s[1..], id)
  }

  function InBook(book: Book, id: OrderId): nat {
    Quantities(book.bids, id) + Quantities(book.asks, id)
  }

  /** The quantities that responses of one kind report for the order `id`. */
  function Told(ms: seq<ClientResponse>, kind: ResponseType, id: OrderId): nat {
    if ms == [] then 0
    else (if ms[0].kind == kind && ms[0].orderId == id then ms[0].quantity else 0) + Told(ms[1..], kind, id)
  }

  /** The quantities reported as filled to one side, for the order `id` or (with None) for all. */
  function FilledOn(ms: seq<ClientResponse>, buy: bool, id: Option<OrderId>): nat {
    if ms == [] then 0
    else (if ms[0].kind == Filled && IsBuy(ms[0].side) == buy && (id == None || id == Some(ms[0].orderId))
          then ms[0].quantity else 0)
         + FilledOn(ms[1..], buy, id)
  }

  function Volume(us: seq<MarketUpdate>): nat {
    if us == [] then 0
    else (if us[0].kind == Traded then us[0].quantity else 0) + Volume(us[1..])
  }

  lemma {:induction false} QuantitiesConcat(a: seq<Resting>, b: seq<Resting>, id: OrderId)
    ensures Quantities(a + b, id) == Quantities(a, id) + Quantities(b, id)
  {
    if a == [] {
      assert a + b == b;
    } else {
      assert (a + b)[1..] == a[1..] + b;
      QuantitiesConcat(a[1..], b, id);
    }
  }

  lemma {:induction false} ToldConcat(a: seq<ClientResponse>, b: seq<ClientResponse>, kind: ResponseType, id: OrderId)
    ensures Told(a + b, kind, id) == Told(a, kind, id) + Told(b, kind, id)
  {
    if a == [] {
      assert a + b == b;
    } else {
      assert (a + b)[1..] == a[1..] + b;
      ToldConcat(a[1..], b, kind, id);
    }
  }

  lemma {:induction false} FilledOnConcat(a: seq<ClientResponse>, b: seq<ClientResponse>, buy: bool,
                                          id: Option<OrderId>)
    ensures FilledOn(a + b, buy, id) == FilledOn(a, buy, id) + FilledOn(b, buy, id)
  {
    if a == [] {
      assert a + b == b;
    } else {
      assert (a + b)[1..] == a[1..] + b;
      FilledOnConcat(a[1..], b, buy, id);
    }
  }

  lemma {:induction false} VolumeConcat(a: seq<MarketUpdate>, b: seq<MarketUpdate>)
    ensures Volume(a + b) == Volume(a) + Volume(b)
  {
    if a == [] {
      assert a + b == b;
    } else {
      assert (a + b)[1..] == a[1..] + b;
      VolumeConcat(a[1..], b);
    }
  }

  // ----- one add

  lemma {:induction false} ConcatAll(a: seq<ClientResponse>, b: seq<ClientResponse>,
                                     u: seq<MarketUpdate>, v: seq<MarketUpdate>, id: OrderId)
    ensures Told(a + b, Filled, id) == Told(a, Filled, id) + Told(b, Filled, id)
    ensures Told(a + b, Accepted, id) == Told(a, Accepted, id) + Told(b, Accepted, id)
    ensures Told(a + b, Canceled, id) == Told(a, Canceled, id) + Told(b, Canceled, id)
    ensures Volume(u + v) == Volume(u) + Volume(v)
    ensures FilledOn(a + b, true, None) == FilledOn(a, true, None) + FilledOn(b, true, None)
    ensures FilledOn(a + b, false, None) == FilledOn(a, false, None) + FilledOn(b, false, None)
    ensures FilledOn(a + b, true, Some(id)) == FilledOn(a, true, Some(id)) + FilledOn(b, true, Some(id))
    ensures FilledOn(a + b, false, Some(id)) == FilledOn(a, false, Some(id)) + FilledOn(b, false, Some(id))
  {
    ToldConcat(a, b, Filled, id);
    ToldConcat(a, b, Accepted, id);
    ToldConcat(a, b, Canceled, id);
    VolumeConcat(u, v);
    FilledOnConcat(a, b, true, None);
    FilledOnConcat(a, b, false, None);
    FilledOnConcat(a, b, true, Some(id));
    FilledOnConcat(a, b, false, Some(id));
  }

  /** What one trade tells: as much to the maker as to the taker, and to the market. */
  lemma {:induction false} HitTells(t: Taker, quantity: Quantity, maker: Resting, tradeId: TradeId, id: OrderId)
    requires IsBuy(maker.side) != IsBuy(t.side)
    ensures var h := HitOf(t, quantity, maker, tradeId);
      var fill := Min(quantity, maker.quantity);
      && Told(h.responses, Filled, id)
         == (if maker.orderId == id then fill else 0) + (if t.orderId == id then fill else 0)
      && Told(h.responses, Accepted, id) == 0 && Told(h.responses, Canceled, id) == 0
      && Volume(h.updates) == fill
      && FilledOn(h.responses, true, None) == FilledOn(h.responses, false, None) == fill
      && FilledOn(h.responses, !IsBuy(t.side), Some(id)) == (if maker.orderId == id then fill else 0)
  {
    var h := HitOf(t, quantity, maker, tradeId);
    assert h.responses == [h.responses[0]] + [h.responses[1]] && h.updates == [h.updates[0]] + [h.updates[1]];
    ConcatAll([h.responses[0]], [h.responses[1]], [h.updates[0]], [h.updates[1]], id);
  }

  /** The accounts of one crossing. */
  ghost predicate Accounts(t: Taker, quantity: Quantity, s: seq<Resting>, c: Crossing, id: OrderId) {
    var traded := quantity - c.remaining;
    && 0 <= traded
    && Quantities(s, id) + (if t.orderId == id then traded else 0)
       == Quantities(c.opposite, id) + Told(c.responses, Filled, id)
    && Told(c.responses, Accepted, id) == 0 && Told(c.responses, Canceled, id) == 0
    && Volume(c.updates) == traded
    && FilledOn(c.responses, true, None) == FilledOn(c.responses, false, None) == traded
    && Quantities(s, id) == Quantities(c.opposite, id) + FilledOn(c.responses, !IsBuy(t.side), Some(id))
  }

  lemma {:induction false} AccountsOfUseUp(t: Taker, quantity: Quantity, s: seq<Resting>, tradeId: TradeId, id: OrderId)
    requires Live(!IsBuy(t.side), s) && Trades(t, quantity, s)
    requires var h := HitOf(t, quantity, s[0], tradeId);
      h.left.quantity == 0 && Accounts(t, h.remaining, s[1..], Cross(t, h.remaining, s[1..], Next(tradeId)), id)
    ensures Accounts(t, quantity, s, Cross(t, quantity, s, tradeId), id)
  {
    hide FilledOn, Told, Volume;
    var h := HitOf(t, quantity, s[0], tradeId);
    var rest := Cross(t, h.remaining, s[1..], Next(tradeId));
    HitTells(t, quantity, s[0], tradeId, id);
    ConcatAll(h.responses, rest.responses, h.updates, rest.updates, id);
  }

  lemma {:induction false} AccountsOfLast(t: Taker, quantity: Quantity, s: seq<Resting>, tradeId: TradeId, id: OrderId)
    requires Live(!IsBuy(t.side), s) && Trades(t, quantity, s)
    requires HitOf(t, quantity, s[0], tradeId).left.quantity != 0
    ensures Accounts(t, quantity, s, Cross(t, quantity, s, tradeId), id)
  {
    hide FilledOn, Told, Volume;
    var h := HitOf(t, quantity, s[0], tradeId);
    HitTells(t, quantity, s[0], tradeId, id);
    assert ([h.left] + s[1..])[1..] == s[1..];
  }

  lemma {:induction false} CrossConserves(t: Taker, quantity: Quantity, s: seq<Resting>, tradeId: TradeId, id: OrderId)
    requires Live(!IsBuy(t.side), s)
    ensures Accounts(t, quantity, s, Cross(t, quantity, s, tradeId), id)
    decreases |s|
  {
    if Trades(t, quantity, s) {
      var h := HitOf(t, quantity, s[0], tradeId);
      if h.left.quantity == 0 {
        CrossConserves(t, h.remaining, s[1..], Next(tradeId), id);
        AccountsOfUseUp(t, quantity, s, tradeId, id);
      } else {
        AccountsOfLast(t, quantity, s, tradeId, id);
      }
    }
  }

  // ----- one request and whole runs

  /** What is accepted is filled, cancelled or still resting; buyers get what sellers sell. */
  ghost predicate Conserves(before: Book, e: Outcome, id: OrderId) {
    && Told(e.responses, Accepted, id) + InBook(before, id)
       == Told(e.responses, Filled, id) + Told(e.responses, Canceled, id) + InBook(e.book, id)
    && FilledOn(e.responses, true, None) == FilledOn(e.responses, false, None) == Volume(e.updates)
  }

  lemma {:induction false} InsertQuantities(buy: bool, own: seq<Resting>, o: Resting, id: OrderId)
    ensures Quantities(Insert(buy, own, o), id) == Quantities(own, id) + (if o.orderId == id then o.quantity else 0)
  {
    if own == [] || Ahead(buy, o.price, own[0].price) {
      assert ([o] + own)[1..] == own;
    } else {
      assert ([own[0]] + Insert(buy, own[1..], o))[1..] == Insert(buy, own[1..], o);
      InsertQuantities(buy, own[1..], o, id);
    }
  }

  lemma {:induction false} RemoveQuantities(s: seq<Resting>, k: nat, id: OrderId)
    requires k < |s|
    ensures Quantities(s, id) == Quantities(RemoveAt(s, k), id) + (if s[k].orderId == id then s[k].quantity else 0)
  {
    assert s == s[..k] + ([s[k]] + s[k + 1..]);
    QuantitiesConcat(s[..k], [s[k]] + s[k + 1..], id);
    QuantitiesConcat(s[..k], s[k + 1..], id);
    assert ([s[k]] + s[k + 1..])[1..] == s[k + 1..];
  }

  lemma {:induction false} AddConserves(ticker: TickerId, book: Book, r: BookRequest, tradeId: TradeId, id: OrderId)
    requires WellFormed(book) && r.Add?
    ensures Conserves(book, AddOrder(ticker, book, r, tradeId), id)
  {
    hide Cross, Insert, Ordered, Uncrossed;
    var buy := IsBuy(r.side);
    var t := TakerOf(ticker, r);
    var c := CrossingOf(ticker, book, r, tradeId);
    CrossConserves(t, r.quantity, book.At(!buy), tradeId, id);
    var accepted := AcceptedResponse(t, r.quantity);
    assert ([accepted] + c.responses)[1..] == c.responses;
    if c.remaining != 0 {
      var o := RestOf(r, c.remaining);
      InsertQuantities(buy, book.At(buy), o, id);
      VolumeConcat(c.updates, [OrderUpdate(Added, ticker, o)]);
    }
  }

  lemma {:induction false} CancelConserves(ticker: TickerId, book: Book, r: BookRequest, tradeId: TradeId, id: OrderId)
    requires r.Cancel?
    ensures Conserves(book, CancelOrder(ticker, book, r, tradeId), id)
  {
    var b := Find(book.bids, r.price, r.orderId);
    var a := Find(book.asks, r.price, r.orderId);
    if b < |book.bids| {
      RemoveQuantities(book.bids, b, id);
    } else if a < |book.asks| {
      RemoveQuantities(book.asks, a, id);
    }
  }

  /** Conservation over every run, for every order id, from any sound book. */
  lemma {:induction false} RunConserves(ticker: TickerId, book: Book, rs: seq<BookRequest>, tradeId: TradeId,
                                        id: OrderId)
    requires WellFormed(book)
    ensures Conserves(book, Run(ticker, book, rs, tradeId), id)
    decreases |rs|
  {
    if rs != [] {
      var first := Step(ticker, book, rs[0], tradeId);
      if rs[0].Add? {
        AddConserves(ticker, book, rs[0], tradeId, id);
        AddKeepsWellFormed(ticker, book, rs[0], tradeId);
      } else {
        CancelConserves(ticker, book, rs[0], tradeId, id);
        CancelKeepsWellFormed(ticker, book, rs[0], tradeId);
      }
      var rest := Run(ticker, first.book, rs[1..], first.nextTradeId);
      RunConserves(ticker, first.book, rs[1..], first.nextTradeId, id);
      ConcatAll(first.responses, rest.responses, first.updates, rest.updates, id);
    }
  }

  // ----- an order split in two

  /** What is traded depends on the taker only through its side and its limit. */
  lemma {:induction false} SameLimitSameTrades(t: Taker, u: Taker, quantity: Quantity, s: seq<Resting>, a: TradeId,
                                               b: TradeId)
    requires IsBuy(t.side) == IsBuy(u.side) && t.limit == u.limit
    ensures Cross(t, quantity, s, a).opposite == Cross(u, quantity, s, b).opposite
    ensures Cross(t, quantity, s, a).remaining == Cross(u, quantity, s, b).remaining
    decreases |s|
  {
    if Trades(t, quantity, s) {
      var h := HitOf(t, quantity, s[0], a);
      if h.left.quantity == 0 {
        SameLimitSameTrades(t, u, h.remaining, s[1..], Next(a), Next(b));
      }
    }
  }

  /** The trade with the best maker, without its messages. */
  lemma {:induction false} FirstTrade(t: Taker, quantity: Quantity, s: seq<Resting>, a: TradeId)
    requires Trades(t, quantity, s)
    ensures var c := Cross(t, quantity, s, a);
      if quantity < s[0].quantity then
        c.opposite == [Less(s[0], quantity)] + s[1..] && c.remaining == 0
      else
        var rest := Cross(t, quantity - s[0].quantity, s[1..], Next(a));
        c.opposite == rest.opposite && c.remaining == rest.remaining
  {}

  /** Crossing with q1 and then with q2 leaves what crossing with q1 + q2 leaves. */
  lemma {:induction false} CrossSplits(t: Taker, u: Taker, v: Taker, q1: Quantity, q2: Quantity,
                                       s: seq<Resting>, a: TradeId, b: TradeId, d: TradeId)
    requires IsBuy(t.side) == IsBuy(u.side) == IsBuy(v.side) && t.limit == u.limit == v.limit
    requires q1 + q2 < 0x1_0000_0000
    ensures var first := Cross(t, q1, s, a);
      var second := Cross(u, q2, first.opposite, b);
      var whole := Cross(v, q1 + q2, s, d);
      && second.opposite == whole.opposite
      && first.remaining + second.remaining == whole.remaining
    decreases |s|
  {
    hide Cross;
    if !Trades(t, q1, s) {
      CrossStops(t, q1, s, a);
      if q1 == 0 {
        SameLimitSameTrades(u, v, q2, s, b, d);
      } else {
        CrossStops(u, q2, s, b);
        CrossStops(v, q1 + q2, s, d);
      }
    } else {
      FirstTrade(t, q1, s, a);
      FirstTrade(v, q1 + q2, s, d);
      if s[0].quantity <= q1 {
        CrossSplits(t, u, v, q1 - s[0].quantity, q2, s[1..], Next(a), b, Next(d));
      } else {
        SplitWithinOneMaker(u, v, q1, q2, s, b, d);
      }
    }
  }

  /** The first part leaves some of the best maker to the second. */
  lemma {:induction false} SplitWithinOneMaker(u: Taker, v: Taker, q1: Quantity, q2: Quantity, s: seq<Resting>,
                                               b: TradeId, d: TradeId)
    requires IsBuy(u.side) == IsBuy(v.side) && u.limit == v.limit
    requires q1 + q2 < 0x1_0000_0000 && Trades(v, q1, s) && q1 < s[0].quantity
    ensures var second := Cross(u, q2, [Less(s[0], q1)] + s[1..], b);
      var whole := Cross(v, q1 + q2, s, d);
      second.opposite == whole.opposite && second.remaining == whole.remaining
  {
    hide Cross;
    var left := [Less(s[0], q1)] + s[1..];
    FirstTrade(v, q1 + q2, s, d);
    if q2 == 0 {
      CrossStops(u, q2, left, b);
    } else {
      FirstTrade(u, q2, left, b);
      assert left[1..] == s[1..];
      if s[0].quantity <= q1 + q2 {
        SameLimitSameTrades(u, v, q1 + q2 - s[0].quantity, s[1..], Next(b), Next(d));
      }
    }
  }

  /**
   * Adding q1 and then q2 on one side at one price does to the opposite side what adding q1 + q2
   * does: the same book there, the same total traded, the same total for every maker.
   */
  lemma {:induction false} SplitAdd(ticker: TickerId, book: Book, r1: BookRequest, r2: BookRequest, r: BookRequest,
                                    a: TradeId, d: TradeId, id: OrderId)
    requires WellFormed(book) && r1.Add? && r2.Add? && r.Add?
    requires IsBuy(r1.side) == IsBuy(r2.side) == IsBuy(r.side) && r1.price == r2.price == r.price
    requires r1.quantity + r2.quantity == r.quantity
    ensures var buy := IsBuy(r.side);
      var first := AddOrder(ticker, book, r1, a);
      var second := AddOrder(ticker, first.book, r2, first.nextTradeId);
      var whole := AddOrder(ticker, book, r, d);
      && second.book.At(!buy) == whole.book.At(!buy)
      && Volume(first.updates) + Volume(second.updates) == Volume(whole.updates)
      && FilledOn(first.responses, !buy, Some(id)) + FilledOn(second.responses, !buy, Some(id))
         == FilledOn(whole.responses, !buy, Some(id))
  {
    hide AddOrder, Cross, WellFormed, Quantities, FilledOn, Volume;
    var buy := IsBuy(r.side);
    var first := AddOrder(ticker, book, r1, a);
    CrossSplits(TakerOf(ticker, r1), TakerOf(ticker, r2), TakerOf(ticker, r), r1.quantity, r2.quantity,
                book.At(!buy), a, first.nextTradeId, d);
    AddKeepsWellFormed(ticker, book, r1, a);
    AddTrades(ticker, book, r1, a, id);
    AddTrades(ticker, first.book, r2, first.nextTradeId, id);
    AddTrades(ticker, book, r, d, id);
  }

  /** What one add trades and leaves on the opposite side, in terms of its crossing. */
  lemma {:induction false} AddTrades(ticker: TickerId, book: Book, r: BookRequest, tradeId: TradeId, id: OrderId)
    requires WellFormed(book) && r.Add?
    ensures var buy := IsBuy(r.side);
      var c := CrossingOf(ticker, book, r, tradeId);
      var e := AddOrder(ticker, book, r, tradeId);
      && e.book.At(!buy) == c.opposite
      && Volume(e.updates) == r.quantity - c.remaining
      && Quantities(book.At(!buy), id) == Quantities(c.opposite, id) + FilledOn(e.responses, !buy, Some(id))
  {
    var c := CrossingOf(ticker, book, r, tradeId);
    var t := TakerOf(ticker, r);
    CrossConserves(t, r.quantity, book.At(!IsBuy(r.side)), tradeId, id);
    assert ([AcceptedResponse(t, r.quantity)] + c.responses)[1..] == c.responses;
    if c.remaining != 0 {
      VolumeConcat(c.updates, [OrderUpdate(Added, ticker, RestOf(r, c.remaining))]);
    }
  }
}
