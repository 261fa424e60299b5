/** The exchange: assigns ids, routes requests to order books, and drains its request queue. */
module Exchanges {
  import opened Types
  import Matching
  import opened LFQueues
  import opened OrderBooks
  import opened AsWritten
  import opened ExchangeModel
  import opened ExchangeAsWritten

  const MAX_TICKERS := 16

  /** No tickers, and both counters at 1. */
  const EMPTY_FLOOR: Floor := Floor(Market(map[], map[], 1, 1), map[])

  /** Two books that share nothing but the output queues. */
  ghost predicate Separate(a: OrderBook, b: OrderBook) {
    a != b && a !in b.footprint && b !in a.footprint && a.footprint !! b.footprint
  }

  /** What `f` says of one ticker is what this book holds. */
  ghost predicate Agrees(f: Floor, t: TickerId, b: OrderBook)
    reads b, b.orderPool
  {
    && t in f.market.books && t in f.market.rested && t in f.strays
    && f.market.books[t] == b.Book() && f.strays[t] == b.OffChain() && f.market.rested[t] == |b.orderPool.live|
  }

  /** The floor after work on the desk of one ticker. */
  function WithDesk(f: Floor, ticker: TickerId, d: Desk, rested: nat, orderId: OrderId, tradeId: TradeId): Floor {
    Floor(Market(f.market.books[ticker := d.book], f.market.rested[ticker := rested], orderId, tradeId),
          f.strays[ticker := d.strays])
  }

  lemma {:induction false} WithDeskFacts(f: Floor, ticker: TickerId, d: Desk, rested: nat, orderId: OrderId,
                                         tradeId: TradeId)
    ensures var g := WithDesk(f, ticker, d, rested, orderId, tradeId);
      && g.market.nextOrderId == orderId && g.market.nextTradeId == tradeId
      && g.market.books.Keys == f.market.books.Keys + {ticker}
        && g.market.rested.Keys == f.market.rested.Keys + {ticker}
      && g.strays.Keys == f.strays.Keys + {ticker}
      && Desk(g.market.books[ticker], g.strays[ticker]) == d && g.market.rested[ticker] == rested
      && (forall u :: u in f.market.books && u != ticker ==> g.market.books[u] == f.market.books[u])
      && (forall u :: u in f.market.rested && u != ticker ==> g.market.rested[u] == f.market.rested[u])
      && (forall u :: u in f.strays && u != ticker ==> g.strays[u] == f.strays[u])
  {}

  /** The floor with an empty book for one more ticker. */
  function Listed(f: Floor, ticker: TickerId): Floor {
    WithDesk(f, ticker, EMPTY_DESK, 0, f.market.nextOrderId, f.market.nextTradeId)
  }

  /** Tickers are listed one by one; listing ends the process when the exchange is full. */
  function ListedAll(f: Floor, tickers: seq<TickerId>): Option<Floor>
    decreases |tickers|
  {
    if tickers == [] then Some(f)
    else if |f.market.books| == MAX_TICKERS then None
    else ListedAll(if tickers[0] in f.market.books then f else Listed(f, tickers[0]), tickers[1..])
  }

  function Named(tickers: seq<TickerId>): set<TickerId> {
    set t | t in tickers
  }

  /** All the tickers of a floor. */
  ghost predicate Whole(f: Floor) {
    f.market.books.Keys == f.market.rested.Keys == f.strays.Keys
  }

  /** The tickers of `f` are as they were on `f`, and all others have nothing on their desks. */
  ghost predicate OthersAreEmpty(f: Floor, g: Floor) {
    && Whole(f) && Whole(g) && f.market.books.Keys <= g.market.books.Keys
    && g.market.nextOrderId == f.market.nextOrderId && g.market.nextTradeId == f.market.nextTradeId
    && forall t :: t in g.market.books ==>
         if t in f.market.books then
           && g.market.books[t] == f.market.books[t] && g.market.rested[t] == f.market.rested[t]
           && g.strays[t] == f.strays[t]
         else g.market.books[t] == Sides([], []) && g.market.rested[t] == 0 && g.strays[t] == map[]
  }

  /** Whenever it is a ticker's turn, be it known or not, there are not 16 tickers listed. */
  predicate InTurn(keys: set<TickerId>, tickers: seq<TickerId>) {
    forall k :: 0 <= k < |tickers| ==> |keys + Named(tickers[..k])| != 16
  }

  /**
   * Listing goes on as long as not 16 tickers are listed when it is a ticker's turn; then all of them are
   * listed, the new ones with empty desks, and nothing else has changed.
   */
  lemma {:induction false} ListedAllIsUnion(f: Floor, tickers: seq<TickerId>)
    requires Whole(f)
    ensures ListedAll(f, tickers).Some? <==> InTurn(f.market.books.Keys, tickers)
    ensures ListedAll(f, tickers).Some? ==>
      var g := ListedAll(f, tickers).value;
      OthersAreEmpty(f, g) && g.market.books.Keys == f.market.books.Keys + Named(tickers)
    decreases |tickers|
  {
    hide OthersAreEmpty, Named, Listed, Whole, InTurn, ListedAll;
    NamedCons(tickers);
    ListedAllCons(f, tickers);
    if tickers == [] {
      StaysWhole(f);
      NobodysTurn(f.market.books.Keys);
    } else {
      FirstTurn(f.market.books.Keys, tickers);
      if |f.market.books| != 16 {
        var next := if tickers[0] in f.market.books then f else Listed(f, tickers[0]);
        OneMoreListed(f, tickers[0]);
        ListedAllIsUnion(next, tickers[1..]);
        ListedBehind(f, next, tickers);
      }
    }
  }

  /** What listing the first ticker and then the others adds up to. */
  lemma {:induction false} ListedBehind(f: Floor, next: Floor, tickers: seq<TickerId>)
    requires tickers != [] && OthersAreEmpty(f, next)
    requires next.market.books.Keys == f.market.books.Keys + {tickers[0]}
    requires var rest := ListedAll(next, tickers[1..]);
      rest.Some? ==>
        && OthersAreEmpty(next, rest.value)
        && rest.value.market.books.Keys == next.market.books.Keys + Named(tickers[1..])
    ensures var rest := ListedAll(next, tickers[1..]);
      rest.Some? ==>
        && OthersAreEmpty(f, rest.value)
        && rest.value.market.books.Keys == f.market.books.Keys + Named(tickers)
  {
    hide OthersAreEmpty, Named, ListedAll;
    var rest := ListedAll(next, tickers[1..]);
    NamedCons(tickers);
    if rest.Some? {
      EmptyOnAndOn(f, next, rest.value);
    }
  }

  lemma {:induction false} ListedAllCons(f: Floor, tickers: seq<TickerId>)
    ensures ListedAll(f, tickers)
         == if tickers == [] then Some(f)
            else if |f.market.books| == 16 then None
            else ListedAll(if tickers[0] in f.market.books then f else Listed(f, tickers[0]), tickers[1..])
    ensures |f.market.books.Keys| == |f.market.books|
  {}

  lemma {:induction false} NobodysTurn(keys: set<TickerId>)
    ensures InTurn(keys, [])
  {}

  /** The first turn, and the others behind it. */
  lemma {:induction false} FirstTurn(keys: set<TickerId>, tickers: seq<TickerId>)
    requires tickers != []
    ensures InTurn(keys, tickers) <==> |keys| != 16 && InTurn(keys + {tickers[0]}, tickers[1..])
  {
    hide Named;
    var behind := tickers[1..];
    NamedCons(tickers);
    assert keys + Named(tickers[..0]) == keys;
    forall k | 0 <= k < |behind|
      ensures keys + Named(tickers[..k + 1]) == keys + {tickers[0]} + Named(behind[..k])
    {
      assert tickers[..k + 1][0] == tickers[0] && tickers[..k + 1][1..] == behind[..k];
      NamedCons(tickers[..k + 1]);
    }
    if InTurn(keys, tickers) {
      forall k | 0 <= k < |behind| ensures |keys + {tickers[0]} + Named(behind[..k])| != 16 {
        assert |keys + Named(tickers[..k + 1])| != 16;
      }
      assert |keys + Named(tickers[..0])| != 16;
    }
    if |keys| != 16 && InTurn(keys + {tickers[0]}, behind) {
      forall k | 0 <= k < |tickers| ensures |keys + Named(tickers[..k])| != 16 {
        if k > 0 {
          assert keys + Named(tickers[..k - 1 + 1]) == keys + {tickers[0]} + Named(behind[..k - 1]);
        }
      }
    }
  }

  lemma {:induction false} NamedCons(tickers: seq<TickerId>)
    ensures Named(tickers) == if tickers == [] then {} else {tickers[0]} + Named(tickers[1..])
    ensures tickers[..0] == [] && Named([]) == {}
  {
    if tickers != [] {
      assert tickers == [tickers[0]] + tickers[1..];
    }
  }

  lemma {:induction false} StaysWhole(f: Floor)
    requires Whole(f)
    ensures OthersAreEmpty(f, f)
  {}

  lemma {:induction false} EmptyOnAndOn(f: Floor, g: Floor, h: Floor)
    requires OthersAreEmpty(f, g) && OthersAreEmpty(g, h)
    ensures OthersAreEmpty(f, h)
  {
    forall t | t in h.market.books
      ensures if t in f.market.books then
          && h.market.books[t] == f.market.books[t] && h.market.rested[t] == f.market.rested[t]
          && h.strays[t] == f.strays[t]
        else h.market.books[t] == Sides([], []) && h.market.rested[t] == 0 && h.strays[t] == map[]
    {
      assert t in g.market.books ==> t in f.market.books || g.market.rested[t] == 0;
    }
  }

  lemma {:induction false} OneMoreListed(f: Floor, t: TickerId)
    requires Whole(f)
    ensures var next := if t in f.market.books then f else Listed(f, t);
      Whole(next) && OthersAreEmpty(f, next) && next.market.books.Keys == f.market.books.Keys + {t}
  {}

  /** Serving an add or a cancel is work on one desk. */
  lemma {:induction false} ServeIsDeskWork(linked: bool, f: Floor, r: ClientRequest)
    requires KnownOn(f, r) && r.kind != InvalidRequest
    ensures var m, b, d := f.market, ForBook(r, f.market.nextOrderId), DeskOf(f, r);
      var e := StepAsWritten(linked, r.tickerId, d, b, m.nextTradeId);
      && Serve(linked, f, r)
         == FloorResult(WithDesk(f, r.tickerId, e.desk, m.rested[r.tickerId] + Matching.RestedBy(r.tickerId, d.book, b),
                                 IdAfter(r, m.nextOrderId), e.nextTradeId),
                        e.responses, e.updates)
      && (r.kind == CancelRequest ==> Matching.RestedBy(r.tickerId, d.book, b) == 0 && e.nextTradeId == m.nextTradeId)
  {}

  class Exchange {
    const requests: LFQueue<ClientRequest>
    const responses: LFQueue<ClientResponse>
    const updates: LFQueue<MarketUpdate>
    const linked: bool
    var nextOrderId: OrderId
    var nextTradeId: TradeId
    var orderBooks: map<TickerId, OrderBook>
    ghost var repr: set<object>

    /** A book of this exchange for this ticker. */
    ghost predicate Holds(ticker: TickerId, b: OrderBook, repr: set<object>) {
      && b in repr && b.footprint <= repr && b.orderPool in b.footprint
      && b.tickerId == ticker && b.linked == linked
      && b.responses == responses && b.updates == updates && b.Owns()
      && |b.orderPool.store| == MAX_ORDER_IDS && |b.levelPool.store| == MAX_PRICE_LEVELS
    }

    /** Every ticker has its own book, and the books keep to their own memory. */
    ghost predicate Assembled(books: map<TickerId, OrderBook>, repr: set<object>) {
      && (forall t :: t in books ==> Holds(t, books[t], repr))
      && (forall t, u :: t in books && u in books && t != u ==> Separate(books[t], books[u]))
    }

    /** The books and the queues occupy different memory. */
    ghost predicate Enclosed(repr: set<object>) {
      && this !in repr && requests !in repr && responses !in repr && updates !in repr
      && requests.data !in repr && responses.data !in repr && updates.data !in repr
    }

    ghost predicate Valid()
      reads this, repr
    {
      && Enclosed(repr) && Assembled(orderBooks, repr)
      && forall t :: t in orderBooks ==> orderBooks[t].Valid()
    }

    /** The abstract state of the exchange. */
    ghost function FloorNow(): (f: Floor)
      reads this, set t | t in orderBooks :: orderBooks[t], set t | t in orderBooks :: orderBooks[t].orderPool
      ensures f.market.books.Keys == f.market.rested.Keys == f.strays.Keys == orderBooks.Keys
    {
      Floor(Market(map t | t in orderBooks :: orderBooks[t].Book(),
                   map t | t in orderBooks :: |orderBooks[t].orderPool.live|, nextOrderId, nextTradeId),
            map t | t in orderBooks :: orderBooks[t].OffChain())
    }

    lemma {:induction false} FloorFacts()
      ensures FloorNow().market.nextOrderId == nextOrderId && FloorNow().market.nextTradeId == nextTradeId
      ensures forall t :: t in orderBooks ==> Agrees(FloorNow(), t, orderBooks[t])
    {}

    lemma {:induction false} FloorIs(f: Floor)
      requires f.market.nextOrderId == nextOrderId && f.market.nextTradeId == nextTradeId
      requires f.market.books.Keys == f.market.rested.Keys == f.strays.Keys == orderBooks.Keys
      requires forall t :: t in orderBooks ==> Agrees(f, t, orderBooks[t])
      ensures FloorNow() == f
    {
      forall t | t in orderBooks
        ensures FloorNow().market.rested[t] == f.market.rested[t] && FloorNow().market.books[t] == f.market.books[t]
        ensures FloorNow().strays[t] == f.strays[t]
      {
        assert Agrees(f, t, orderBooks[t]);
      }
      assert FloorNow().market.rested == f.market.rested;
      assert FloorNow().market.books == f.market.books;
      assert FloorNow().strays == f.strays;
    }

    lemma {:induction false} AssembledWith(books: map<TickerId, OrderBook>, repr: set<object>, ticker: TickerId,
                                           book: OrderBook)
      requires Assembled(books, repr) && ticker !in books
      requires Holds(ticker, book, {book} + book.footprint)
      requires book !in repr && book.footprint !! repr
      ensures Assembled(books[ticker := book], repr + {book} + book.footprint)
    {
      hide OrderBooks.OrderBook.Owns;
    }

    constructor (requests: LFQueue<ClientRequest>, responses: LFQueue<ClientResponse>,
                 updates: LFQueue<MarketUpdate>, linked: bool)
      ensures Valid() && fresh(repr) && FloorNow() == EMPTY_FLOOR
      ensures this.requests == requests && this.responses == responses && this.updates == updates
      ensures this.linked == linked
    {
      this.requests, this.responses, this.updates, this.linked := requests, responses, updates, linked;
      nextOrderId, nextTradeId := 1, 1;
      orderBooks := map[];
      repr := {};
    }

    lemma {:induction false} BookOf(ticker: TickerId)
      requires Valid() && ticker in orderBooks
      ensures Holds(ticker, orderBooks[ticker], repr) && orderBooks[ticker].Valid()
      ensures Enclosed(repr) && this !in orderBooks[ticker].footprint
    {}

    /** False when the exchange is full, which ends the process. */
    method AddTicker(ticker: TickerId) returns (ok: bool)
      requires Valid()
      modifies this
      ensures Valid() && fresh(repr - old(repr))
      ensures ok <==> |old(orderBooks)| != 16
      ensures FloorNow() == if ok && ticker !in old(orderBooks) then Listed(old(FloorNow()),
          ticker) else old(FloorNow())
    {
      hide OrderBooks.OrderBook.Consistent, OrderBooks.OrderBook.Owns, OrderBooks.OrderBook.Book, FloorNow, Assembled;
      if |orderBooks| == MAX_TICKERS {
        return false;
      }
      if ticker !in orderBooks {
        var book := NewBook(ticker);
        Install(ticker, book);
      }
      return true;
    }

    /** The loop of the constructor over its initial tickers. */
    method AddTickers(tickers: seq<TickerId>) returns (ok: bool)
      requires Valid()
      modifies this
      ensures Valid() && fresh(repr - old(repr))
      ensures ok <==> ListedAll(old(FloorNow()), tickers).Some?
      ensures ok ==> FloorNow() == ListedAll(old(FloorNow()), tickers).value
    {
      hide Valid, FloorNow, Listed;
      for i := 0 to |tickers|
        invariant Valid() && fresh(repr - old(repr))
        invariant ListedAll(FloorNow(), tickers[i..]) == ListedAll(old(FloorNow()), tickers)
      {
        assert tickers[i..][1..] == tickers[i + 1..];
        assert |FloorNow().market.books| == |FloorNow().market.books.Keys| == |orderBooks.Keys| == |orderBooks|;
        ok := AddTicker(tickers[i]);
        if !ok {
          return;
        }
      }
      return true;
    }

    /** The whole constructor: the counters and queues, and then the initial tickers. */
    static method Open(requests: LFQueue<ClientRequest>, responses: LFQueue<ClientResponse>,
                       updates: LFQueue<MarketUpdate>, linked: bool, tickers: seq<TickerId>)
      returns (exchange: Exchange, ok: bool)
      ensures exchange.Valid() && fresh(exchange) && fresh(exchange.repr) && exchange.linked == linked
      ensures exchange.requests == requests && exchange.responses == responses && exchange.updates == updates
      ensures ok <==> ListedAll(EMPTY_FLOOR, tickers).Some?
      ensures ok ==> exchange.FloorNow() == ListedAll(EMPTY_FLOOR, tickers).value
    {
      exchange := new Exchange(requests, responses, updates, linked);
      ok := exchange.AddTickers(tickers);
    }

    method Install(ticker: TickerId, book: OrderBook)
      requires Valid() && ticker !in orderBooks
      requires Enclosed(repr + {book} + book.footprint) && Holds(ticker, book, {book} + book.footprint)
      requires book !in repr && book.footprint !! repr && book.Valid()
      requires book.DeskNow() == EMPTY_DESK && book.orderPool.live == {}
      modifies this`orderBooks, this`repr
      ensures Valid() && repr == old(repr) + {book} + book.footprint
      ensures FloorNow() == Listed(old(FloorNow()), ticker)
    {
      hide OrderBooks.OrderBook.Consistent, OrderBooks.OrderBook.Owns, OrderBooks.OrderBook.Book,
           OrderBooks.OrderBook.OffChain, FloorNow, Assembled, Holds, WithDesk;
      FloorFacts();
      forall t | t in orderBooks ensures this !in orderBooks[t].footprint && orderBooks[t].Valid() {
        BookOf(t);
      }
      AssembledWith(orderBooks, repr, ticker, book);
      ghost var f, books := FloorNow(), orderBooks;
      orderBooks := orderBooks[ticker := book];
      repr := repr + {book} + book.footprint;
      assert book.Valid() && forall t :: t in books ==> books[t].Valid() && Agrees(f, t, books[t]);
      InstalledFloor(f, books, ticker, book);
    }

    lemma {:induction false} InstalledFloor(f: Floor, books: map<TickerId, OrderBook>, ticker: TickerId,
                                            book: OrderBook)
      requires orderBooks == books[ticker := book] && ticker !in books
      requires f.market.nextOrderId == nextOrderId && f.market.nextTradeId == nextTradeId
      requires f.market.books.Keys == f.market.rested.Keys == f.strays.Keys == books.Keys
      requires forall t :: t in books ==> Agrees(f, t, books[t])
      requires book.DeskNow() == EMPTY_DESK && book.orderPool.live == {}
      ensures FloorNow() == Listed(f, ticker)
    {
      hide OrderBooks.OrderBook.Book, OrderBooks.OrderBook.OffChain, FloorNow, WithDesk;
      var g := Listed(f, ticker);
      WithDeskFacts(f, ticker, EMPTY_DESK, 0, nextOrderId, nextTradeId);
      forall t | t in orderBooks ensures Agrees(g, t, orderBooks[t]) {
        assert t != ticker ==> Agrees(f, t, books[t]);
      }
      FloorIs(g);
    }

    method NewBook(ticker: TickerId) returns (book: OrderBook)
      ensures fresh(book) && fresh(book.footprint)
      ensures Holds(ticker, book, {book} + book.footprint)
      ensures book.Valid() && book.DeskNow() == EMPTY_DESK && book.orderPool.live == {}
    {
      hide OrderBooks.OrderBook.Consistent;
      book := new OrderBook(ticker, responses, updates, MAX_ORDER_IDS, MAX_PRICE_LEVELS, linked);
    }

    /** Work on the book of one ticker is not seen by the others. */
    twostate lemma {:induction false} OnlyOneBookChanged(ticker: TickerId)
      requires old(Valid()) && orderBooks == old(orderBooks) && repr == old(repr) && ticker in orderBooks
      requires forall o: object | o in repr && o != orderBooks[ticker] && o !in orderBooks[ticker].footprint ::
          unchanged(o)
      ensures orderBooks[ticker].Valid() ==> Valid()
      ensures FloorNow() == WithDesk(old(FloorNow()), ticker, orderBooks[ticker].DeskNow(),
                                     |orderBooks[ticker].orderPool.live|, nextOrderId, nextTradeId)
    {
      hide OrderBooks.OrderBook.Consistent, OrderBooks.OrderBook.Owns, OrderBooks.OrderBook.Book,
           OrderBooks.OrderBook.OffChain, WithDesk;
      ghost var before, b := old(FloorNow()), orderBooks[ticker];
      ghost var f := WithDesk(before, ticker, b.DeskNow(), |b.orderPool.live|, nextOrderId, nextTradeId);
      WithDeskFacts(before, ticker, b.DeskNow(), |b.orderPool.live|, nextOrderId, nextTradeId);
      forall u | u in orderBooks && u != ticker
        ensures Agrees(f, u, orderBooks[u]) && orderBooks[u].Valid()
      {
        assert Separate(orderBooks[u], b) && Holds(u, orderBooks[u], repr);
        assert unchanged(orderBooks[u]) && unchanged(orderBooks[u].footprint);
      }
      assert Agrees(f, ticker, b);
      FloorIs(f);
    }

    /** `order_book->add` under a new order id; `book` is the book of the ticker. */
    method AddToBook(book: OrderBook, r: ClientRequest) returns (ok: bool)
      requires Valid() && Ready(responses, updates) && r.kind == AddRequest
      requires r.tickerId in orderBooks && book == orderBooks[r.tickerId]
      modifies this`nextOrderId, this`nextTradeId, book, book.footprint
      modifies responses, responses.data, updates, updates.data
      ensures Ready(responses, updates)
      ensures ok <==> RoomFor(r.tickerId, old(book.DeskNow()), ForBook(r, old(nextOrderId)),
                              |old(book.orderPool.live)|, MAX_ORDER_IDS, MAX_PRICE_LEVELS)
      ensures var b := ForBook(r, old(nextOrderId));
        var e := AddAsWritten(linked, r.tickerId, old(book.DeskNow()), b, old(nextTradeId));
        var rested := |old(book.orderPool.live)| + Matching.RestedBy(r.tickerId, old(book.Book()), b);
        ok ==>
          && responses.pushed == old(responses.pushed) + e.responses
          && updates.pushed == old(updates.pushed) + e.updates
          && Valid()
          && FloorNow() == WithDesk(old(FloorNow()), r.tickerId, e.desk, rested, Next(old(nextOrderId)), e.nextTradeId)
    {
      hide OrderBooks.OrderBook.Consistent, OrderBooks.OrderBook.Owns, LFQueues.LFQueue.Valid, AddAsWritten,
           OrderBooks.OrderBook.DeskNow, FloorNow, RoomFor, Matching.RestedBy, Valid, WithDesk;
      BookOf(r.tickerId);
      var orderId := nextOrderId;
      nextOrderId := Next(nextOrderId);
      ok, nextTradeId := book.Add(Matching.BookRequest.Add(orderId, r.clientId, r.side, r.quantity, r.price),
        nextTradeId);
      assert orderBooks == old(orderBooks) && repr == old(repr);
      OnlyOneBookChanged(r.tickerId);
    }

    /** What the floor says about the book that a request is for. */
    lemma {:induction false} DeskOnFloor(r: ClientRequest)
      requires r.kind != InvalidRequest && r.tickerId in orderBooks
      ensures KnownOn(FloorNow(), r) && DeskOf(FloorNow(), r) == orderBooks[r.tickerId].DeskNow()
      ensures FloorNow().market.rested[r.tickerId] == |orderBooks[r.tickerId].orderPool.live|
      ensures FloorNow().market.nextOrderId == nextOrderId && FloorNow().market.nextTradeId == nextTradeId
    {
      hide OrderBooks.OrderBook.Book, OrderBooks.OrderBook.OffChain, FloorNow;
      FloorFacts();
      assert Agrees(FloorNow(), r.tickerId, orderBooks[r.tickerId]);
    }

    /** Routes an add to its book. False when a pool of the book aborts. */
    method AddOrder(r: ClientRequest) returns (ok: bool)
      requires Valid() && Ready(responses, updates) && r.kind == AddRequest && r.tickerId in orderBooks
      modifies this`nextOrderId, this`nextTradeId, repr, responses, responses.data, updates, updates.data
      ensures Ready(responses, updates)
      ensures ok <==> FitsOn(old(FloorNow()), r)
      ensures var p := Serve(linked, old(FloorNow()), r);
        ok ==>
          && Valid() && FloorNow() == p.floor
          && responses.pushed == old(responses.pushed) + p.responses
          && updates.pushed == old(updates.pushed) + p.updates
    {
      hide OrderBooks.OrderBook.Consistent, OrderBooks.OrderBook.Owns, LFQueues.LFQueue.Valid, AddAsWritten,
           OrderBooks.OrderBook.Book, OrderBooks.OrderBook.OffChain, FloorNow, RoomFor, Matching.RestedBy, Valid,
           Serve, WithDesk;
      BookOf(r.tickerId);
      DeskOnFloor(r);
      ServeIsDeskWork(linked, FloorNow(), r);
      ok := AddToBook(orderBooks[r.tickerId], r);
    }

    /** `order_book->cancel`; `book` is the book of the ticker. */
    method CancelInBook(book: OrderBook, r: ClientRequest) returns (fate: Fate)
      requires Valid() && Ready(responses, updates) && r.kind == CancelRequest
      requires r.tickerId in orderBooks && book == orderBooks[r.tickerId]
      modifies book, book.footprint, responses, responses.data, updates, updates.data
      ensures fate == CancelFate(old(book.DeskNow()), r.price, r.orderId)
      ensures Ready(responses, updates)
      ensures var e := CancelAsWritten(r.tickerId, old(book.DeskNow()), ForBook(r, nextOrderId), nextTradeId);
        fate != Ended ==>
          && responses.pushed == old(responses.pushed) + e.responses
          && updates.pushed == old(updates.pushed) + e.updates
          && FloorNow() == WithDesk(old(FloorNow()), r.tickerId, e.desk, |old(book.orderPool.live)|,
                                    nextOrderId, nextTradeId)
      ensures fate == Carried ==> Valid()
    {
      hide OrderBooks.OrderBook.Consistent, OrderBooks.OrderBook.Owns, LFQueues.LFQueue.Valid, CancelFate,
           CancelAsWritten, OrderBooks.OrderBook.DeskNow, FloorNow, Valid, WithDesk, OrderBooks.OrderBook.Aside;
      BookOf(r.tickerId);
      fate := book.Cancel(Matching.BookRequest.Cancel(r.orderId, r.clientId, r.side, r.price), nextTradeId);
      assert orderBooks == old(orderBooks) && repr == old(repr);
      OnlyOneBookChanged(r.tickerId);
    }

    /** Routes a cancel to its book. */
    method CancelOrder(r: ClientRequest) returns (fate: Fate)
      requires Valid() && Ready(responses, updates) && r.kind == CancelRequest && r.tickerId in orderBooks
      modifies repr, responses, responses.data, updates, updates.data
      ensures fate == FateOn(old(FloorNow()), r)
      ensures Ready(responses, updates) && (fate == Carried ==> Valid())
      ensures var p := Serve(linked, old(FloorNow()), r);
        fate != Ended ==>
          && FloorNow() == p.floor
          && responses.pushed == old(responses.pushed) + p.responses
          && updates.pushed == old(updates.pushed) + p.updates
    {
      hide OrderBooks.OrderBook.Consistent, OrderBooks.OrderBook.Owns, LFQueues.LFQueue.Valid, CancelFate, TakenOut,
           OrderBooks.OrderBook.Book, OrderBooks.OrderBook.OffChain, FloorNow, Valid, Serve, WithDesk;
      BookOf(r.tickerId);
      DeskOnFloor(r);
      ServeIsDeskWork(linked, FloorNow(), r);
      fate := CancelInBook(orderBooks[r.tickerId], r);
    }

    /** Serves one request: the process ends when a pool aborts or a search for a predecessor runs off. */
    method ProcessRequest(r: ClientRequest) returns (fate: Fate)
      requires Valid() && Ready(responses, updates) && (r.kind == InvalidRequest || r.tickerId in orderBooks)
      modifies this`nextOrderId, this`nextTradeId, repr, responses, responses.data, updates, updates.data
      ensures fate == FateOn(old(FloorNow()), r)
      ensures Ready(responses, updates) && (fate == Carried ==> Valid())
      ensures var p := Serve(linked, old(FloorNow()), r);
        fate != Ended ==>
          && FloorNow() == p.floor
          && responses.pushed == old(responses.pushed) + p.responses
          && updates.pushed == old(updates.pushed) + p.updates
    {
      hide OrderBooks.OrderBook.Consistent, OrderBooks.OrderBook.Owns, LFQueues.LFQueue.Valid,
           OrderBooks.OrderBook.Book,
           RoomFor, CancelFate, StepAsWritten, FloorNow, Assembled;
      fate := Carried;
      match r.kind
      case InvalidRequest =>
      case AddRequest =>
        var ok := AddOrder(r);
        fate := if ok then Carried else Ended;
      case CancelRequest => fate := CancelOrder(r);
    }

    lemma {:induction false} QueuesOutside()
      requires Valid()
      ensures Enclosed(repr)
    {}

    /** The requests that wait in the queue. */
    ghost function Pending(): seq<ClientRequest>
      reads requests, requests.data
      requires requests.Valid()
    {
      requests.pushed[requests.taken..]
    }

    static function Waiting(request: Option<ClientRequest>): seq<ClientRequest> {
      if request.Some? then [request.value] else []
    }

    /** The next request, or None when the queue is empty. */
    method NextRequest() returns (request: Option<ClientRequest>)
      requires requests.Valid() && |Pending()| < requests.data.Length
      modifies requests`nextReadIndex, requests`taken
      ensures requests.Valid()
      ensures old(Pending()) == Waiting(request) + Pending()
      ensures request.None? ==> Pending() == [] == Waiting(request) + Pending()
    {
      DeliversInOrderIff(|requests.pushed|, requests.taken, requests.data.Length);
      var slot := requests.Pop();
      request := if slot.None? then None else Some(requests.data[slot.value]);
    }

    /** Serving one request, on the way to `goal`. */
    method ServeOne(r: ClientRequest, ghost rest: seq<ClientRequest>, ghost goal: FloorResult, ghost end: Fate)
      returns (fate: Fate)
      requires Valid() && Ready(responses, updates)
      requires LeadsTo(linked, FloorNow(), [r] + rest, responses.pushed, updates.pushed, goal, end)
      modifies this`nextOrderId, this`nextTradeId, repr, responses, responses.data, updates, updates.data
      ensures Ready(responses, updates) && (fate != Carried ==> end == fate)
      ensures fate == Carried ==>
        Valid() && LeadsTo(linked, FloorNow(), rest, responses.pushed, updates.pushed, goal, end)
      ensures fate == Astray ==> goal == FloorResult(FloorNow(), responses.pushed, updates.pushed)
    {
      hide LFQueues.Ready, Serve, FateOn, FloorNow, Valid, LeadsTo;
      LeadsOn(linked, FloorNow(), r, rest, responses.pushed, updates.pushed, goal, end);
      fate := ProcessRequest(r);
    }

    /** How many requests are still to be served. */
    ghost function InHand(request: Option<ClientRequest>): nat
      reads requests, requests.data
      requires requests.Valid()
    {
      |Waiting(request) + Pending()|
    }

    /** Where the loop of `run` is: this request in hand, the others in the queue. */
    ghost predicate OnTheWay(request: Option<ClientRequest>, goal: FloorResult, end: Fate)
      reads this, repr, requests, requests.data, responses, responses.data, updates, updates.data
    {
      && Valid() && Ready(responses, updates) && requests.Valid() && |Pending()| < requests.data.Length
      && LeadsTo(linked, FloorNow(), Waiting(request) + Pending(), responses.pushed, updates.pushed, goal, end)
      && (request.None? ==> Pending() == [] == Waiting(request) + Pending())
    }

    /** Fetches the first request. */
    method Start(ghost goal: FloorResult, ghost end: Fate) returns (request: Option<ClientRequest>)
      requires Valid() && Ready(responses, updates) && requests.Valid() && |Pending()| < requests.data.Length
      requires LeadsTo(linked, FloorNow(), Pending(), responses.pushed, updates.pushed, goal, end)
      modifies requests`nextReadIndex, requests`taken
      ensures OnTheWay(request, goal, end) && requests.Valid() && InHand(request) == |old(Pending())|
    {
      hide LFQueues.LFQueue.Valid, FloorNow, Valid, Pending, LeadsTo;
      QueuesOutside();
      request := NextRequest();
    }

    /** One turn of the loop of `run`: serves the request in hand and fetches the next one. */
    method Turn(request: Option<ClientRequest>, ghost goal: FloorResult, ghost end: Fate)
      returns (fate: Fate, next: Option<ClientRequest>)
      requires OnTheWay(request, goal, end) && request.Some? && requests.Valid()
      modifies this`nextOrderId, this`nextTradeId, requests`nextReadIndex, requests`taken, repr
      modifies responses, responses.data, updates, updates.data
      ensures (fate != Carried ==> end == fate) && repr == old(repr)
      ensures fate == Carried ==> OnTheWay(next, goal, end) && requests.Valid()
      ensures fate == Carried ==> InHand(next) < old(InHand(request))
      ensures fate == Astray ==> goal == FloorResult(FloorNow(), responses.pushed, updates.pushed)
    {
      hide LFQueues.LFQueue.Valid, FloorNow, Valid, Pending, LeadsTo;
      QueuesOutside();
      next := None;
      fate := ServeOne(request.value, Pending(), goal, end);
      if fate == Carried {
        next := Start(goal, end);
      }
    }

    /** The loop of `run`, on the way to `goal`. */
    method ServeQueue(ghost goal: FloorResult, ghost end: Fate) returns (fate: Fate)
      requires Valid() && Ready(responses, updates) && requests.Valid() && |Pending()| < requests.data.Length
      requires LeadsTo(linked, FloorNow(), Pending(), responses.pushed, updates.pushed, goal, end)
      modifies this`nextOrderId, this`nextTradeId, requests`nextReadIndex, requests`taken, repr
      modifies responses, responses.data, updates, updates.data
      ensures fate == end
      ensures fate == Carried ==> Valid() && Ready(responses, updates) && requests.Valid() && Pending() == []
      ensures fate != Ended ==> goal == FloorResult(FloorNow(), responses.pushed, updates.pushed)
    {
      hide LFQueues.LFQueue.Valid, FloorNow, Valid, LeadsTo, OnTheWay;
      fate := Carried;
      var request := Start(goal, end);
      while request.Some?
        invariant fate == Carried && OnTheWay(request, goal, end)
        invariant requests.Valid() && repr == old(repr)
        decreases InHand(request)
      {
        fate, request := Turn(request, goal, end);
        if fate != Carried {
          return;
        }
      }
      Arrived(goal, end);
    }

    lemma {:induction false} Arrived(goal: FloorResult, end: Fate)
      requires OnTheWay(None, goal, end)
      ensures Valid() && Ready(responses, updates) && requests.Valid() && Pending() == []
      ensures end == Carried && goal == FloorResult(FloorNow(), responses.pushed, updates.pushed)
    {
      hide LFQueues.LFQueue.Valid, FloorNow, Valid, LeadsTo;
      LeadsNoFurther(linked, FloorNow(), responses.pushed, updates.pushed, goal, end);
    }

    /**
     * The sequential body of `run`: serves requests until the queue is empty, the process ends, or a
     * book goes astray, which the original would not notice. With the link, or when no request needs
     * it, this is the reference run.
     */
    method Drain() returns (fate: Fate)
      requires Valid() && Ready(responses, updates) && requests.Valid()
      requires |Pending()| < requests.data.Length
      requires AllKnownOn(FloorNow(), Pending())
      modifies this`nextOrderId, this`nextTradeId, requests`nextReadIndex, requests`taken, repr
      modifies responses, responses.data, updates, updates.data
      ensures fate == old(EndOf(linked, FloorNow(), Pending()))
      ensures fate == Carried ==> Valid() && Ready(responses, updates) && requests.Valid() && Pending() == []
      ensures fate == Carried ==>
        old(ServeUntil(linked, FloorNow(), Pending()) == ServeAll(linked, FloorNow(), Pending()))
      ensures var p := old(ServeUntil(linked, FloorNow(), Pending()));
        fate != Ended ==>
          && FloorNow() == p.floor
          && responses.pushed == old(responses.pushed) + p.responses
          && updates.pushed == old(updates.pushed) + p.updates
    {
      hide LFQueues.LFQueue.Valid, EndOf, AllKnownOn, ServeAll, ServeUntil, FloorNow, Valid, Pending, LeadsTo;
      ghost var f, rs := FloorNow(), Pending();
      ghost var p, end := ServeUntil(linked, f, rs), EndOf(linked, f, rs);
      ghost var goal := FloorResult(p.floor, responses.pushed + p.responses, updates.pushed + p.updates);
      LeadsFromHere(linked, f, rs, responses.pushed, updates.pushed);
      if end == Carried {
        CarriedIsServed(linked, f, rs);
      }
      fate := ServeQueue(goal, end);
    }
  }
}
