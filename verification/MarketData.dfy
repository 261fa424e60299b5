/** The market-data stream is complete: replaying it rebuilds the engine's book. */
module MarketData {
  import opened Types
  import opened Matching
  import opened BookLaws

  /** What a subscriber knows of one resting order. */
  datatype Entry = Entry(orderId: OrderId, side: OrderSide, quantity: Quantity)

  /** A subscriber's book: the queue at each price. */
  type Feed = map<Price, seq<Entry>>

  function QueueAt(feed: Feed, price: Price): seq<Entry> {
    if price in feed then feed[price] else []
  }

  function DropFirst(es: seq<Entry>, id: OrderId): seq<Entry> {
    if es == [] then [] else if es[0].orderId == id then es[1..] else [es[0]] + DropFirst(es[1..], id)
  }

  function SetFirst(es: seq<Entry>, id: OrderId, quantity: Quantity): seq<Entry> {
    if es == [] then []
    else if es[0].orderId == id then [es[0].(quantity := quantity)] + es[1..]
    else [es[0]] + SetFirst(es[1..], id, quantity)
  }

  /** ADD appends, MODIFY sets a quantity in place, REMOVE deletes, TRADE changes nothing. */
  function Apply(feed: Feed, u: MarketUpdate): Feed {
    var es := QueueAt(feed, u.price);
    match u.kind
    case Added => feed[u.price := es + [Entry(u.orderId, u.side, u.quantity)]]
    case Modified => feed[u.price := SetFirst(es, u.orderId, u.quantity)]
    case Removed => feed[u.price := DropFirst(es, u.orderId)]
    case Traded => feed
  }

  function Replay(feed: Feed, us: seq<MarketUpdate>): Feed
    decreases |us|
  {
    if us == [] then feed else Replay(Apply(feed, us[0]), us[1..])
  }

  // ----- the engine's book as a subscriber should see it

  function EntryOf(o: Resting): Entry {
    Entry(o.orderId, o.side, o.quantity)
  }

  function AtPrice(s: seq<Resting>, price: Price): seq<Entry> {
    if s == [] then [] else (if s[0].price == price then [EntryOf(s[0])] else []) + AtPrice(s[1..], price)
  }

  function DepthAt(book: Book, price: Price): seq<Entry> {
    AtPrice(book.bids, price) + AtPrice(book.asks, price)
  }

  /** The subscriber knows every resting order, its quantity and its place in the queue. */
  ghost predicate Mirrors(feed: Feed, book: Book) {
    forall price: Price :: QueueAt(feed, price) == DepthAt(book, price)
  }

  // ----- edits of a side, seen at one price

  lemma {:induction false} AtPriceConcat(a: seq<Resting>, b: seq<Resting>, price: Price)
    ensures AtPrice(a + b, price) == AtPrice(a, price) + AtPrice(b, price)
  {
    if a == [] {
      assert a + b == b;
    } else {
      assert (a + b)[1..] == a[1..] + b;
      AtPriceConcat(a[1..], b, price);
    }
  }

  lemma {:induction false} NothingAt(s: seq<Resting>, price: Price)
    requires forall i :: 0 <= i < |s| ==> s[i].price != price
    ensures AtPrice(s, price) == []
  {
    if s != [] {
      NothingAt(s[1..], price);
    }
  }

  lemma {:induction false} InsertAtPrice(buy: bool, own: seq<Resting>, o: Resting, price: Price)
    requires Ordered(buy, own)
    ensures AtPrice(Insert(buy, own, o), price)
         == AtPrice(own, price) + (if o.price == price then [EntryOf(o)] else [])
  {
    var k := InsertSplits(buy, own, o);
    assert own == own[..k] + own[k..];
    AtPriceConcat(own[..k], own[k..], price);
    AtPriceConcat(own[..k] + [o], own[k..], price);
    AtPriceConcat(own[..k], [o], price);
    if o.price == price {
      NothingAt(own[k..], price);
    }
  }

  lemma {:induction false} AtPriceCons(o: Resting, s: seq<Resting>, p: Price)
    ensures AtPrice([o] + s, p) == (if o.price == p then [EntryOf(o)] + AtPrice(s, p) else AtPrice(s, p))
  {
    assert ([o] + s)[1..] == s;
  }

  lemma {:induction false} DropFirstBehind(e: Entry, es: seq<Entry>, id: OrderId)
    ensures DropFirst([e] + es, id) == (if e.orderId == id then es else [e] + DropFirst(es, id))
  {
    assert ([e] + es)[1..] == es;
  }

  lemma {:induction false} RemoveAtPrice(s: seq<Resting>, price: Price, id: OrderId, p: Price)
    requires Find(s, price, id) < |s|
    ensures AtPrice(RemoveAt(s, Find(s, price, id)), p)
         == (if p == price then DropFirst(AtPrice(s, p), id) else AtPrice(s, p))
  {
    hide AtPrice, DropFirst;
    var k := Find(s, price, id);
    assert s == [s[0]] + s[1..];
    AtPriceCons(s[0], s[1..], p);
    DropFirstBehind(EntryOf(s[0]), AtPrice(s[1..], p), id);
    if k > 0 {
      RemoveAtPrice(s[1..], price, id, p);
      assert RemoveAt(s, k) == [s[0]] + RemoveAt(s[1..], k - 1);
      AtPriceCons(s[0], RemoveAt(s[1..], k - 1), p);
    } else {
      assert RemoveAt(s, 0) == s[1..];
    }
  }

  // ----- the messages of an add

  /** No order of one side shares a price with an order of the other. */
  predicate PricesApart(own: seq<Resting>, other: seq<Resting>) {
    forall i, j :: 0 <= i < |own| && 0 <= j < |other| ==> own[i].price != other[j].price
  }

  /** The subscriber sees the two sides of a book whose prices are apart. */
  ghost predicate Shows(feed: Feed, own: seq<Resting>, other: seq<Resting>) {
    forall price: Price :: QueueAt(feed, price) == AtPrice(own, price) + AtPrice(other, price)
  }

  lemma {:induction false} OneSideAt(own: seq<Resting>, other: seq<Resting>, price: Price)
    requires PricesApart(own, other)
    ensures AtPrice(own, price) == [] || AtPrice(other, price) == []
  {
    if i :| 0 <= i < |own| && own[i].price == price {
      NothingAt(other, price);
    } else {
      NothingAt(own, price);
    }
  }

  lemma {:induction false} EitherOrder(feed: Feed, own: seq<Resting>, other: seq<Resting>)
    requires PricesApart(own, other) && Shows(feed, own, other)
    ensures Shows(feed, other, own)
  {
    hide PricesApart, AtPrice;
    forall price: Price ensures QueueAt(feed, price) == AtPrice(other, price) + AtPrice(own, price) {
      OneSideAt(own, other, price);
      assert QueueAt(feed, price) == AtPrice(own, price) + AtPrice(other, price);
    }
  }

  /** A trade update and one more: only the second changes the feed. */
  lemma {:induction false} ReplayHit(feed: Feed, t: Taker, quantity: Quantity, maker: Resting, tradeId: TradeId)
    ensures var h := HitOf(t, quantity, maker, tradeId);
      Replay(feed, h.updates) == Apply(feed, h.updates[1])
  {
    var h := HitOf(t, quantity, maker, tradeId);
    assert h.updates[1..] == [h.updates[1]];
    assert Apply(feed, h.updates[0]) == feed;
    assert Replay(feed, [h.updates[1]]) == Replay(Apply(feed, h.updates[1]), []);
  }

  /** One trade, replayed. */
  lemma {:induction false} HitReplay(t: Taker, quantity: Quantity, own: seq<Resting>, s: seq<Resting>,
                                     tradeId: TradeId, feed: Feed)
    requires Trades(t, quantity, s) && s[0].quantity > 0
    requires PricesApart(own, s) && Shows(feed, own, s)
    ensures var h := HitOf(t, quantity, s[0], tradeId);
      var s' := Remnant(h.left) + s[1..];
      PricesApart(own, s') && Shows(Replay(feed, h.updates), own, s')
  {
    var h := HitOf(t, quantity, s[0], tradeId);
    var s' := Remnant(h.left) + s[1..];
    ReplayHit(feed, t, quantity, s[0], tradeId);
    NothingAt(own, s[0].price);
    var es := AtPrice(s, s[0].price);
    assert QueueAt(feed, s[0].price) == AtPrice(own, s[0].price) + es == es;
    assert es[0] == EntryOf(s[0]) && es[1..] == AtPrice(s[1..], s[0].price);
    forall p: Price ensures QueueAt(Replay(feed, h.updates), p) == AtPrice(own, p) + AtPrice(s', p) {
      AtPriceConcat(Remnant(h.left), s[1..], p);
      assert QueueAt(feed, p) == AtPrice(own, p) + AtPrice(s, p);
    }
  }

  lemma {:induction false} ReplayConcat(feed: Feed, us: seq<MarketUpdate>, vs: seq<MarketUpdate>)
    ensures Replay(feed, us + vs) == Replay(Replay(feed, us), vs)
    decreases |us|
  {
    if us == [] {
      assert us + vs == vs;
    } else {
      assert (us + vs)[1..] == us[1..] + vs;
      ReplayConcat(Apply(feed, us[0]), us[1..], vs);
    }
  }

  lemma {:induction false} CrossReplay(t: Taker, quantity: Quantity, own: seq<Resting>, s: seq<Resting>,
                                       tradeId: TradeId, feed: Feed)
    requires Live(!IsBuy(t.side), s) && PricesApart(own, s) && Shows(feed, own, s)
    ensures var c := Cross(t, quantity, s, tradeId);
      PricesApart(own, c.opposite) && Shows(Replay(feed, c.updates), own, c.opposite)
    decreases |s|
  {
    if Trades(t, quantity, s) {
      hide Shows, HitOf;
      var h := HitOf(t, quantity, s[0], tradeId);
      HitReplay(t, quantity, own, s, tradeId, feed);
      if h.left.quantity == 0 {
        assert Remnant(h.left) + s[1..] == s[1..];
        var rest := Cross(t, h.remaining, s[1..], Next(tradeId));
        CrossReplay(t, h.remaining, own, s[1..], Next(tradeId), Replay(feed, h.updates));
        ReplayConcat(feed, h.updates, rest.updates);
      }
    }
  }

  lemma {:induction false} InsertReplay(ticker: TickerId, buy: bool, own: seq<Resting>, other: seq<Resting>,
                                        o: Resting, feed: Feed)
    requires Ordered(buy, own) && Shows(feed, own, other) && !HasPrice(other, o.price)
    ensures Shows(Replay(feed, [OrderUpdate(Added, ticker, o)]), Insert(buy, own, o), other)
  {
    hide Insert, AtPrice, Ordered;
    var u := OrderUpdate(Added, ticker, o);
    assert [u][1..] == [] && Replay(feed, [u]) == Apply(feed, u);
    NothingAt(other, o.price);
    forall p: Price ensures QueueAt(Apply(feed, u), p) == AtPrice(Insert(buy, own, o), p) + AtPrice(other, p) {
      InsertAtPrice(buy, own, o, p);
      assert QueueAt(feed, p) == AtPrice(own, p) + AtPrice(other, p);
    }
  }

  lemma {:induction false} SidesApart(book: Book, buy: bool)
    requires Uncrossed(book)
    ensures PricesApart(book.At(buy), book.At(!buy))
  {}

  lemma {:induction false} AddReplay(ticker: TickerId, book: Book, r: BookRequest, tradeId: TradeId, feed: Feed)
    requires WellFormed(book) && r.Add? && Mirrors(feed, book)
    ensures var e := AddOrder(ticker, book, r, tradeId);
      Mirrors(Replay(feed, e.updates), e.book)
  {
    var buy := IsBuy(r.side);
    var t := TakerOf(ticker, r);
    var c := CrossingOf(ticker, book, r, tradeId);
    var e := AddOrder(ticker, book, r, tradeId);
    var own, other := book.At(buy), book.At(!buy);
    assert Shows(feed, book.bids, book.asks);
    SidesApart(book, true);
    SidesApart(book, buy);
    if !buy { EitherOrder(feed, book.bids, book.asks); }
    CrossReplay(t, r.quantity, own, other, tradeId, feed);
    AddKeepsWellFormed(ticker, book, r, tradeId);
    SidesApart(e.book, buy);
    var after := Replay(feed, e.updates);
    if c.remaining != 0 {
      var o := RestOf(r, c.remaining);
      CrossLeavesSuffix(t, r.quantity, other, tradeId);
      NotAcceptableNotThere(t, c.opposite);
      InsertReplay(ticker, buy, own, c.opposite, o, Replay(feed, c.updates));
      ReplayConcat(feed, c.updates, [OrderUpdate(Added, ticker, o)]);
    }
    assert Shows(after, e.book.At(buy), e.book.At(!buy));
    if !buy { EitherOrder(after, e.book.asks, e.book.bids); }
  }

  lemma {:induction false} NotAcceptableNotThere(t: Taker, s: seq<Resting>)
    requires Ordered(!IsBuy(t.side), s)
    requires s == [] || !Acceptable(IsBuy(t.side), t.limit, s[0].price)
    ensures !HasPrice(s, t.limit)
  {
    forall i | 0 <= i < |s| ensures s[i].price != t.limit {
      assert i == 0 || !Ahead(!IsBuy(t.side), s[i].price, s[0].price);
    }
  }

  lemma {:induction false} OtherSideEmptyAt(book: Book, buy: bool, k: nat)
    requires WellFormed(book) && k < |book.At(buy)|
    ensures AtPrice(book.At(!buy), book.At(buy)[k].price) == []
  {
    SidesApart(book, buy);
    NothingAt(book.At(!buy), book.At(buy)[k].price);
  }

  lemma {:induction false} RemoveReplay(buy: bool, book: Book, price: Price, id: OrderId, side: OrderSide,
                                        ticker: TickerId, feed: Feed)
    requires WellFormed(book) && Mirrors(feed, book)
    requires Find(book.At(buy), price, id) < |book.At(buy)|
    ensures var k := Find(book.At(buy), price, id);
      Mirrors(Apply(feed, CanceledUpdate(ticker, side, book.At(buy)[k])), book.With(buy, RemoveAt(book.At(buy), k)))
  {
    hide WellFormed, Find, AtPrice, DropFirst, RemoveAt;
    var own := book.At(buy);
    var k := Find(own, price, id);
    var book' := book.With(buy, RemoveAt(own, k));
    var u := CanceledUpdate(ticker, side, own[k]);
    OtherSideEmptyAt(book, buy, k);
    forall p: Price ensures QueueAt(Apply(feed, u), p) == DepthAt(book', p) {
      RemoveAtPrice(own, price, id, p);
      assert QueueAt(feed, p) == DepthAt(book, p);
      if p == price {
        assert DepthAt(book, p) == AtPrice(own, p) && DepthAt(book', p) == AtPrice(RemoveAt(own, k), p);
      }
    }
  }

  lemma {:induction false} CancelReplay(ticker: TickerId, book: Book, r: BookRequest, tradeId: TradeId, feed: Feed)
    requires WellFormed(book) && r.Cancel? && Mirrors(feed, book)
    ensures var e := CancelOrder(ticker, book, r, tradeId);
      Mirrors(Replay(feed, e.updates), e.book)
  {
    hide Mirrors, WellFormed, Find, Apply, RemoveAt;
    var e := CancelOrder(ticker, book, r, tradeId);
    var b := Find(book.bids, r.price, r.orderId);
    var a := Find(book.asks, r.price, r.orderId);
    if b < |book.bids| || a < |book.asks| {
      var u := e.updates[0];
      assert e.updates[1..] == [] && Replay(feed, e.updates) == Replay(Apply(feed, u), []);
      RemoveReplay(b < |book.bids|, book, r.price, r.orderId, r.side, ticker, feed);
    }
  }

  /**
   * Folding the market updates of any run over a feed that mirrors the book before it gives a feed
   * that mirrors the book after it: every order, its quantity and its place in the queue.
   */
  lemma {:induction false} RunReplay(ticker: TickerId, book: Book, rs: seq<BookRequest>, tradeId: TradeId, feed: Feed)
    requires WellFormed(book) && Mirrors(feed, book)
    ensures var e := Run(ticker, book, rs, tradeId);
      Mirrors(Replay(feed, e.updates), e.book)
    decreases |rs|
  {
    if rs != [] {
      hide Mirrors, WellFormed;
      var first := Step(ticker, book, rs[0], tradeId);
      if rs[0].Add? {
        AddReplay(ticker, book, rs[0], tradeId, feed);
        AddKeepsWellFormed(ticker, book, rs[0], tradeId);
      } else {
        CancelReplay(ticker, book, rs[0], tradeId, feed);
        CancelKeepsWellFormed(ticker, book, rs[0], tradeId);
      }
      var rest := Run(ticker, first.book, rs[1..], first.nextTradeId);
      RunReplay(ticker, first.book, rs[1..], first.nextTradeId, Replay(feed, first.updates));
      ReplayConcat(feed, first.updates, rest.updates);
    }
  }

  /** From the opening of the market on, the stream alone is enough. */
  lemma {:induction false} StreamRebuildsBook(ticker: TickerId, rs: seq<BookRequest>, tradeId: TradeId)
    ensures var e := Run(ticker, EMPTY_BOOK, rs, tradeId);
      Mirrors(Replay(map[], e.updates), e.book)
  {
    RunReplay(ticker, EMPTY_BOOK, rs, tradeId, map[]);
  }
}
