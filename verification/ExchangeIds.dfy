/**
 * Identifiers over a whole exchange run: trade ids in emission order, order ids that rest once. Both for
 * the reference and for the code as written, with what is stranded.
 */
module ExchangeIds {
  import opened Types
  import opened Matching
  import opened OrderLife
  import opened AsWritten
  import opened AsWrittenLaws
  import opened ExchangeModel
  import opened ExchangeAsWritten
  import PriceTime

  // ----- trade ids

  /** Over all books together, TRADE ids are consecutive in emission order (modulo 2^32). */
  lemma {:induction false} TradesAreNumbered(m: Market, rs: seq<ClientRequest>)
    requires AllKnown(m, rs)
    ensures var e := ProcessAll(m, rs);
      var n := |TradeIds(e.updates)|;
      TradeIds(e.updates) == Ids(m.nextTradeId, n) && e.market.nextTradeId == PriceTime.After(m.nextTradeId, n)
    decreases |rs|
  {
    if rs != [] {
      hide PriceTime.After, Step, TradeIds;
      NoIds();
      var r := rs[0];
      var first := Process(m, r);
      var rest := ProcessAll(first.market, rs[1..]);
      if r.kind != InvalidRequest {
        StepIds(r.tickerId, m.books[r.tickerId], ForBook(r, m.nextOrderId), m.nextTradeId);
      } else {
        AfterNone(m.nextTradeId);
      }
      TradesAreNumbered(first.market, rs[1..]);
      TradeIdsConcat(first.updates, rest.updates);
      IdsConcat(m.nextTradeId, |TradeIds(first.updates)|, |TradeIds(rest.updates)|);
    }
  }

  lemma {:induction false} NoIds()
    ensures TradeIds([]) == []
  {}

  lemma {:induction false} AfterNone(id: TradeId)
    ensures PriceTime.After(id, 0) == id && Ids(id, 0) == []
  {}

  lemma {:induction false} StepIdsAsWritten(linked: bool, ticker: TickerId, d: Desk, r: BookRequest, tradeId: TradeId)
    ensures var e := StepAsWritten(linked, ticker, d, r, tradeId);
      var n := |TradeIds(e.updates)|;
      TradeIds(e.updates) == Ids(tradeId, n) && e.nextTradeId == PriceTime.After(tradeId, n)
  {
    var e := StepAsWritten(linked, ticker, d, r, tradeId);
    if r.Add? {
      StepIds(ticker, d.book, r, tradeId);
    } else if e.updates != [] {
      assert e.updates[1..] == [] && TradeIds(e.updates) == [];
    }
  }

  lemma {:induction false} ServeIds(linked: bool, f: Floor, r: ClientRequest)
    requires KnownOn(f, r)
    ensures var e := Serve(linked, f, r);
      var n := |TradeIds(e.updates)|;
      && TradeIds(e.updates) == Ids(f.market.nextTradeId, n)
      && e.floor.market.nextTradeId == PriceTime.After(f.market.nextTradeId, n)
  {
    hide PriceTime.After, StepAsWritten, TradeIds, Ids;
    if r.kind != InvalidRequest {
      StepIdsAsWritten(linked, r.tickerId, DeskOf(f, r), ForBook(r, f.market.nextOrderId), f.market.nextTradeId);
    } else {
      NoIds();
      AfterNone(f.market.nextTradeId);
    }
  }

  /** The same for the code as written, whatever is stranded on the way. */
  lemma {:induction false} FloorTradesAreNumbered(linked: bool, f: Floor, rs: seq<ClientRequest>)
    requires AllKnownOn(f, rs)
    ensures var e := ServeAll(linked, f, rs);
      var n := |TradeIds(e.updates)|;
      && TradeIds(e.updates) == Ids(f.market.nextTradeId, n)
      && e.floor.market.nextTradeId == PriceTime.After(f.market.nextTradeId, n)
    decreases |rs|
  {
    hide PriceTime.After, Serve, TradeIds, Ids;
    if rs != [] {
      assert rs == [rs[0]] + rs[1..];
      StillKnown(linked, f, rs[0], rs[1..]);
      var first := Serve(linked, f, rs[0]);
      var rest := ServeAll(linked, first.floor, rs[1..]);
      ServeIds(linked, f, rs[0]);
      FloorTradesAreNumbered(linked, first.floor, rs[1..]);
      TradeIdsConcat(first.updates, rest.updates);
      IdsConcat(f.market.nextTradeId, |TradeIds(first.updates)|, |TradeIds(rest.updates)|);
    } else {
      NoIds();
      AfterNone(f.market.nextTradeId);
    }
  }

  predicate Increasing(ids: seq<TradeId>) {
    forall i, j :: 0 <= i < j < |ids| ==> ids[i] < ids[j]
  }

  /** The ids of a ticker's updates, one update at a time. */
  lemma {:induction false} TickerIdsCons(us: seq<MarketUpdate>, ticker: TickerId)
    requires us != []
    ensures var mine := TradeIds(UpdatesOf(us[1..], ticker));
      TradeIds(UpdatesOf(us, ticker))
      == if us[0].tickerId == ticker && us[0].kind == Traded then [us[0].tradeId] + mine else mine
  {
    var mine := UpdatesOf(us[1..], ticker);
    assert ([us[0]] + mine)[1..] == mine && [] + mine == mine;
    assert [] + TradeIds(mine) == TradeIds(mine);
  }

  lemma {:induction false} TickerIdsAreSome(us: seq<MarketUpdate>, ticker: TickerId)
    ensures forall id :: id in TradeIds(UpdatesOf(us, ticker)) ==> id in TradeIds(us)
  {
    if us != [] {
      TickerIdsAreSome(us[1..], ticker);
      TickerIdsCons(us, ticker);
    }
  }

  lemma {:induction false} IncreasingCons(id: TradeId, ids: seq<TradeId>)
    ensures Increasing([id] + ids) <==> Increasing(ids) && forall x :: x in ids ==> id < x
  {
    var all := [id] + ids;
    if Increasing(all) {
      forall i, j | 0 <= i < j < |ids| ensures ids[i] < ids[j] {
        assert all[i + 1] < all[j + 1];
      }
      forall x | x in ids ensures id < x {
        var j :| 0 <= j < |ids| && ids[j] == x;
        assert all[0] < all[j + 1];
      }
    } else {
      var i, j :| 0 <= i < j < |all| && !(all[i] < all[j]);
      assert all[j] == ids[j - 1] && ids[j - 1] in ids;
      if i > 0 {
        assert all[i] == ids[i - 1];
      }
    }
  }

  lemma {:induction false} TickerIdsIncrease(us: seq<MarketUpdate>, ticker: TickerId)
    requires Increasing(TradeIds(us))
    ensures Increasing(TradeIds(UpdatesOf(us, ticker)))
  {
    if us != [] {
      var rest := TradeIds(us[1..]);
      var mine := TradeIds(UpdatesOf(us[1..], ticker));
      assert TradeIds(us) == if us[0].kind == Traded then [us[0].tradeId] + rest else rest;
      IncreasingCons(us[0].tradeId, rest);
      TickerIdsIncrease(us[1..], ticker);
      TickerIdsAreSome(us[1..], ticker);
      TickerIdsCons(us, ticker);
      IncreasingCons(us[0].tradeId, mine);
    }
  }

  /**
   * Until the counter wraps, the trades of one ticker keep increasing ids in the interleaved run.
   * Alone they have increasing ids too, so the renumbering between the two keeps their order.
   */
  lemma {:induction false} RenumberingKeepsOrder(m: Market, rs: seq<ClientRequest>, ticker: TickerId)
    requires AllKnown(m, rs) && ticker in m.books
    requires m.nextTradeId + |TradeIds(ProcessAll(m, rs).updates)| <= 0x1_0000_0000
    ensures var whole := TradeIds(UpdatesOf(ProcessAll(m, rs).updates, ticker));
      var alone := TradeIds(Run(ticker, m.books[ticker], Projected(rs, ticker, m.nextOrderId), 0).updates);
      |whole| == |alone| && Increasing(whole) && alone == Ids(0, |alone|)
  {
    var e := ProcessAll(m, rs);
    var local := Projected(rs, ticker, m.nextOrderId);
    var alone := Run(ticker, m.books[ticker], local, 0);
    TradesAreNumbered(m, rs);
    RunIds(ticker, m.books[ticker], local, 0);
    var n := |TradeIds(e.updates)|;
    forall i | 0 <= i < n ensures TradeIds(e.updates)[i] == m.nextTradeId + i {
      NoWrap(m.nextTradeId, i);
    }
    TickerIdsIncrease(e.updates, ticker);
    TickersAreIndependent(m, rs, ticker, 0);
    SameTradeCount(UpdatesOf(e.updates, ticker), alone.updates);
  }

  lemma {:induction false} NoWrap(first: TradeId, i: nat)
    requires first + i < 0x1_0000_0000
    ensures PriceTime.After(first, i) == first + i
  {}

  lemma {:induction false} SameTradeCount(us: seq<MarketUpdate>, vs: seq<MarketUpdate>)
    requires Unnumbered(us) == Unnumbered(vs)
    ensures |TradeIds(us)| == |TradeIds(vs)|
    decreases |us|
  {
    if us != [] && vs != [] {
      assert Unnumbered(us)[0].kind == us[0].kind && Unnumbered(vs)[0].kind == vs[0].kind;
      assert Unnumbered(us)[1..] == Unnumbered(us[1..]) && Unnumbered(vs)[1..] == Unnumbered(vs[1..]);
      SameTradeCount(us[1..], vs[1..]);
    }
  }

  // ----- order ids

  function IdsOf(s: seq<Resting>): multiset<OrderId> {
    if s == [] then multiset{} else multiset{s[0].orderId} + IdsOf(s[1..])
  }

  /** The ids that rest in a book, each as often as an order rests under it. */
  function BookIds(book: Book): multiset<OrderId> {
    IdsOf(book.bids) + IdsOf(book.asks)
  }

  function AddedIds(rs: seq<BookRequest>): multiset<OrderId> {
    if rs == [] then multiset{} else (if rs[0].Add? then multiset{rs[0].orderId} else multiset{}) + AddedIds(rs[1..])
  }

  /** The ids a run of the exchange gives out. */
  function GivenIds(rs: seq<ClientRequest>, nextOrderId: OrderId): multiset<OrderId>
    decreases |rs|
  {
    if rs == [] then multiset{}
    else (if rs[0].kind == AddRequest then multiset{nextOrderId} else multiset{})
         + GivenIds(rs[1..], IdAfter(rs[0], nextOrderId))
  }

  function Adds(rs: seq<ClientRequest>): nat {
    if rs == [] then 0 else (if rs[0].kind == AddRequest then 1 else 0) + Adds(rs[1..])
  }

  lemma {:induction false} IdsOfConcat(a: seq<Resting>, b: seq<Resting>)
    ensures IdsOf(a + b) == IdsOf(a) + IdsOf(b)
  {
    if a == [] {
      assert a + b == b;
    } else {
      assert (a + b)[1..] == a[1..] + b;
      IdsOfConcat(a[1..], b);
    }
  }

  lemma {:induction false} CrossAddsNoIds(t: Taker, quantity: Quantity, s: seq<Resting>, tradeId: TradeId)
    ensures IdsOf(Cross(t, quantity, s, tradeId).opposite) <= IdsOf(s)
    decreases |s|
  {
    if Trades(t, quantity, s) {
      var h := HitOf(t, quantity, s[0], tradeId);
      if h.left.quantity == 0 {
        CrossAddsNoIds(t, h.remaining, s[1..], Next(tradeId));
      } else {
        assert ([h.left] + s[1..])[1..] == s[1..];
      }
    }
  }

  lemma {:induction false} InsertAddsOneId(buy: bool, own: seq<Resting>, o: Resting)
    ensures IdsOf(Insert(buy, own, o)) == IdsOf(own) + multiset{o.orderId}
  {
    if own == [] || Ahead(buy, o.price, own[0].price) {
      assert ([o] + own)[1..] == own;
    } else {
      assert ([own[0]] + Insert(buy, own[1..], o))[1..] == Insert(buy, own[1..], o);
      InsertAddsOneId(buy, own[1..], o);
    }
  }

  lemma {:induction false} RemoveAddsNoIds(s: seq<Resting>, k: nat)
    requires k < |s|
    ensures IdsOf(RemoveAt(s, k)) <= IdsOf(s)
  {
    assert s == s[..k] + ([s[k]] + s[k + 1..]);
    IdsOfConcat(s[..k], [s[k]] + s[k + 1..]);
    IdsOfConcat(s[..k], s[k + 1..]);
    assert ([s[k]] + s[k + 1..])[1..] == s[k + 1..];
  }

  lemma {:induction false} AddAddsOneId(ticker: TickerId, book: Book, r: BookRequest, tradeId: TradeId)
    requires r.Add?
    ensures BookIds(AddOrder(ticker, book, r, tradeId).book) <= BookIds(book) + multiset{r.orderId}
  {
    hide IdsOf, Cross, Insert;
    var buy := IsBuy(r.side);
    var c := CrossingOf(ticker, book, r, tradeId);
    CrossAddsNoIds(TakerOf(ticker, r), r.quantity, book.At(!buy), tradeId);
    InsertAddsOneId(buy, book.At(buy), RestOf(r, c.remaining));
  }

  lemma {:induction false} CancelAddsNoIds(ticker: TickerId, book: Book, r: BookRequest, tradeId: TradeId)
    requires r.Cancel?
    ensures BookIds(CancelOrder(ticker, book, r, tradeId).book) <= BookIds(book)
  {
    hide IdsOf, Find, RemoveAt;
    var b := Find(book.bids, r.price, r.orderId);
    var a := Find(book.asks, r.price, r.orderId);
    if b < |book.bids| {
      RemoveAddsNoIds(book.bids, b);
    } else if a < |book.asks| {
      RemoveAddsNoIds(book.asks, a);
    }
  }

  lemma {:induction false} StepAddsOneId(ticker: TickerId, book: Book, r: BookRequest, tradeId: TradeId)
    ensures BookIds(Step(ticker, book, r, tradeId).book)
         <= BookIds(book) + (if r.Add? then multiset{r.orderId} else multiset{})
  {
    hide BookIds, AddOrder, CancelOrder;
    if r.Add? {
      AddAddsOneId(ticker, book, r, tradeId);
    } else {
      CancelAddsNoIds(ticker, book, r, tradeId);
    }
  }

  lemma {:induction false} RunAddsItsIds(ticker: TickerId, book: Book, rs: seq<BookRequest>, tradeId: TradeId)
    ensures BookIds(Run(ticker, book, rs, tradeId).book) <= BookIds(book) + AddedIds(rs)
    decreases |rs|
  {
    if rs != [] {
      var first := Step(ticker, book, rs[0], tradeId);
      StepAddsOneId(ticker, book, rs[0], tradeId);
      RunAddsItsIds(ticker, first.book, rs[1..], first.nextTradeId);
    }
  }

  /** Two tickers share out the ids that the run gives; none is given to both. */
  lemma {:induction false} TickersShareIds(rs: seq<ClientRequest>, t1: TickerId, t2: TickerId, nextOrderId: OrderId)
    requires t1 != t2
    ensures AddedIds(Projected(rs, t1, nextOrderId)) + AddedIds(Projected(rs, t2, nextOrderId))
         <= GivenIds(rs, nextOrderId)
    decreases |rs|
  {
    if rs != [] {
      var next := IdAfter(rs[0], nextOrderId);
      TickersShareIds(rs[1..], t1, t2, next);
      ProjectedIds(rs, t1, nextOrderId);
      ProjectedIds(rs, t2, nextOrderId);
    }
  }

  lemma {:induction false} ProjectedIds(rs: seq<ClientRequest>, ticker: TickerId, nextOrderId: OrderId)
    requires rs != []
    ensures AddedIds(Projected(rs, ticker, nextOrderId))
         == (if rs[0].kind == AddRequest && rs[0].tickerId == ticker then multiset{nextOrderId} else multiset{})
            + AddedIds(Projected(rs[1..], ticker, IdAfter(rs[0], nextOrderId)))
  {
    var later := Projected(rs[1..], ticker, IdAfter(rs[0], nextOrderId));
    assert [] + later == later && ([ForBook(rs[0], nextOrderId)] + later)[1..] == later;
  }

  lemma {:induction false} GivenInRange(rs: seq<ClientRequest>, nextOrderId: OrderId, id: OrderId) returns (j: nat)
    requires id in GivenIds(rs, nextOrderId)
    ensures j < Adds(rs) && id == PriceTime.After(nextOrderId, j)
    decreases |rs|
  {
    if rs[0].kind == AddRequest && id == nextOrderId {
      j := 0;
    } else {
      j := GivenInRange(rs[1..], IdAfter(rs[0], nextOrderId), id);
      if rs[0].kind == AddRequest {
        PriceTime.AfterNext(nextOrderId, j);
        j := j + 1;
      }
    }
  }

  /** Until the counter wraps, no id is given twice. */
  lemma {:induction false} GivenOnce(rs: seq<ClientRequest>, nextOrderId: OrderId)
    requires Adds(rs) <= 0x1_0000_0000
    ensures forall id :: GivenIds(rs, nextOrderId)[id] <= 1
    decreases |rs|
  {
    if rs != [] {
      var rest := GivenIds(rs[1..], IdAfter(rs[0], nextOrderId));
      GivenOnce(rs[1..], IdAfter(rs[0], nextOrderId));
      if rs[0].kind == AddRequest && nextOrderId in rest {
        var j := GivenInRange(rs[1..], Next(nextOrderId), nextOrderId);
        PriceTime.AfterNext(nextOrderId, j);
        NoReturn(nextOrderId, j + 1);
      }
    }
  }

  lemma {:induction false} NoReturn(id: OrderId, n: nat)
    requires 0 < n < 0x1_0000_0000
    ensures PriceTime.After(id, n) != id
  {}

  /** The ids at rest in the book of one ticker are ids that the run gave to its requests. */
  lemma {:induction false} RestingIdsAreGiven(m: Market, rs: seq<ClientRequest>, t: TickerId)
    requires AllKnown(m, rs) && t in m.books && m.books[t] == EMPTY_BOOK
    ensures t in ProcessAll(m, rs).market.books
    ensures BookIds(ProcessAll(m, rs).market.books[t]) <= AddedIds(Projected(rs, t, m.nextOrderId))
  {
    hide ProcessAll, Run, Projected, AddedIds, BookIds, ResponsesOf, UpdatesOf, Unnumbered;
    TickersAreIndependent(m, rs, t, 0);
    RunAddsItsIds(t, EMPTY_BOOK, Projected(rs, t, m.nextOrderId), 0);
    EmptyHasNoIds();
  }

  /**
   * From an empty book on, until the counter wraps, no two of its resting orders share an id, however
   * many tickers there are.
   */
  lemma {:induction false} IdsRestOnce(m: Market, rs: seq<ClientRequest>, t: TickerId, id: OrderId)
    requires AllKnown(m, rs) && t in m.books && m.books[t] == EMPTY_BOOK
    requires Adds(rs) <= 0x1_0000_0000
    ensures t in ProcessAll(m, rs).market.books && BookIds(ProcessAll(m, rs).market.books[t])[id] <= 1
  {
    hide ProcessAll, Projected, GivenIds, AddedIds, BookIds;
    RestingIdsAreGiven(m, rs, t);
    TickersShareIds(rs, t, Next(t), m.nextOrderId);
    GivenOnce(rs, m.nextOrderId);
    var a, b := AddedIds(Projected(rs, t, m.nextOrderId)), AddedIds(Projected(rs, Next(t), m.nextOrderId));
    assert a[id] <= (a + b)[id] <= GivenIds(rs, m.nextOrderId)[id];
  }

  /** Nor do two orders resting in the books of two tickers. */
  lemma {:induction false} IdsRestInOneBook(m: Market, rs: seq<ClientRequest>, t1: TickerId, t2: TickerId, id: OrderId)
    requires AllKnown(m, rs) && t1 in m.books && t2 in m.books && t1 != t2
    requires m.books[t1] == m.books[t2] == EMPTY_BOOK
    requires Adds(rs) <= 0x1_0000_0000
    ensures var books := ProcessAll(m, rs).market.books;
      t1 in books && t2 in books && (BookIds(books[t1]) + BookIds(books[t2]))[id] <= 1
  {
    hide ProcessAll, Projected, GivenIds, AddedIds, BookIds;
    RestingIdsAreGiven(m, rs, t1);
    RestingIdsAreGiven(m, rs, t2);
    var a, b := AddedIds(Projected(rs, t1, m.nextOrderId)), AddedIds(Projected(rs, t2, m.nextOrderId));
    TickersShareIds(rs, t1, t2, m.nextOrderId);
    GivenOnce(rs, m.nextOrderId);
    var books := ProcessAll(m, rs).market.books;
    assert BookIds(books[t1])[id] <= a[id] && BookIds(books[t2])[id] <= b[id];
    assert (a + b)[id] <= GivenIds(rs, m.nextOrderId)[id] <= 1;
  }

  lemma {:induction false} EmptyHasNoIds()
    ensures BookIds(EMPTY_BOOK) == multiset{}
  {}

  // ----- order ids, with what is stranded

  /** The ids on the levels outside the chains. */
  ghost function StrayIds(m: Strays): multiset<OrderId> {
    if m == map[] then multiset{}
    else
      var p :| p in m;
      IdsOf(m[p].orders) + StrayIds(m - {p})
  }

  ghost function DeskIds(d: Desk): multiset<OrderId> {
    BookIds(d.book) + StrayIds(d.strays)
  }

  lemma {:induction false} StrayIdsSplit(m: Strays, price: Price)
    requires price in m
    ensures StrayIds(m) == IdsOf(m[price].orders) + StrayIds(m - {price})
    decreases |m|
  {
    hide IdsOf;
    var p :| p in m && StrayIds(m) == IdsOf(m[p].orders) + StrayIds(m - {p});
    if p != price {
      StrayIdsSplit(m - {p}, price);
      StrayIdsSplit(m - {price}, p);
      assert m - {p} - {price} == m - {price} - {p};
    }
  }

  lemma {:induction false} OneId(o: Resting)
    ensures IdsOf([o]) == multiset{o.orderId}
  {
    assert [o][1..] == [];
  }

  lemma {:induction false} StrandingAddsOneId(d: Desk, o: Resting)
    ensures StrayIds(d.strays[o.price := Stranding(d, o)]) == StrayIds(d.strays) + multiset{o.orderId}
  {
    hide IdsOf, StrayIds;
    var m := d.strays[o.price := Stranding(d, o)];
    StrayIdsSplit(m, o.price);
    assert m - {o.price} == d.strays - {o.price};
    OneId(o);
    if o.price in d.strays {
      StrandsMore(d, o);
      StrayIdsSplit(d.strays, o.price);
      IdsOfConcat(d.strays[o.price].orders, [o]);
    } else {
      StrandsNew(d, o);
      assert d.strays - {o.price} == d.strays;
    }
  }

  lemma {:induction false} FewerStrayIds(m: Strays, price: Price, s: Stray)
    requires price in m && IdsOf(s.orders) <= IdsOf(m[price].orders)
    ensures StrayIds(m - {price}) <= StrayIds(m) && StrayIds(m[price := s]) <= StrayIds(m)
  {
    hide IdsOf;
    StrayIdsSplit(m, price);
    StrayIdsSplit(m[price := s], price);
    assert m[price := s] - {price} == m - {price};
  }

  lemma {:induction false} AddAddsOneIdAsWritten(linked: bool, ticker: TickerId, d: Desk, r: BookRequest,
                                                 tradeId: TradeId)
    requires r.Add?
    ensures DeskIds(AddAsWritten(linked, ticker, d, r, tradeId).desk) <= DeskIds(d) + multiset{r.orderId}
  {
    hide AddAsWritten, AddOrder, IdsOf, StrayIds, Cross, Insert, Stranding, Strands;
    var buy, c := IsBuy(r.side), CrossingOf(ticker, d.book, r, tradeId);
    AddOnDesk(linked, ticker, d, r, tradeId);
    CrossAddsNoIds(TakerOf(ticker, r), r.quantity, d.book.At(!buy), tradeId);
    InsertAddsOneId(buy, d.book.At(buy), RestOf(r, c.remaining));
    StrandingAddsOneId(Crossed(ticker, d, r, tradeId), RestOf(r, c.remaining));
  }

  lemma {:induction false} CancelAddsNoIdsAsWritten(ticker: TickerId, d: Desk, r: BookRequest, tradeId: TradeId)
    requires r.Cancel?
    ensures DeskIds(CancelAsWritten(ticker, d, r, tradeId).desk) <= DeskIds(d)
  {
    hide BookIds, IdsOf, StrayIds, RemoveAt, FindId;
    if r.price !in d.strays {
      CancelOnChains(ticker, d, r, tradeId);
      CancelAddsNoIds(ticker, d.book, r, tradeId);
    } else {
      var s := d.strays[r.price];
      var k := FindId(s.orders, r.orderId);
      if k < |s.orders| {
        RemoveAddsNoIds(s.orders, k);
        FewerStrayIds(d.strays, r.price, s.(orders := RemoveAt(s.orders, k)));
      }
    }
  }

  lemma {:induction false} RunAddsItsIdsAsWritten(linked: bool, ticker: TickerId, d: Desk, rs: seq<BookRequest>,
                                                  tradeId: TradeId)
    ensures DeskIds(RunAsWritten(linked, ticker, d, rs, tradeId).desk) <= DeskIds(d) + AddedIds(rs)
    decreases |rs|
  {
    if rs != [] {
      hide DeskIds, AddAsWritten, CancelAsWritten;
      var first := StepAsWritten(linked, ticker, d, rs[0], tradeId);
      if rs[0].Add? {
        AddAddsOneIdAsWritten(linked, ticker, d, rs[0], tradeId);
      } else {
        CancelAddsNoIdsAsWritten(ticker, d, rs[0], tradeId);
      }
      RunAddsItsIdsAsWritten(linked, ticker, first.desk, rs[1..], first.nextTradeId);
    }
  }

  /** The book of a ticker with what is stranded beside it. */
  function DeskAt(f: Floor, t: TickerId): Desk
    requires t in f.market.books && t in f.strays
  {
    Desk(f.market.books[t], f.strays[t])
  }

  lemma {:induction false} FloorIdsAreGiven(linked: bool, f: Floor, rs: seq<ClientRequest>, t: TickerId)
    requires AllKnownOn(f, rs) && t in f.market.books && t in f.strays && DeskAt(f, t) == EMPTY_DESK
    ensures var e := ServeAll(linked, f, rs).floor;
      && t in e.market.books && t in e.strays
      && DeskIds(DeskAt(e, t)) <= AddedIds(Projected(rs, t, f.market.nextOrderId))
  {
    hide ServeAll, RunAsWritten, Projected, AddedIds, BookIds, ResponsesOf, UpdatesOf, Unnumbered;
    TickersStandAlone(linked, f, rs, t, 0);
    RunAddsItsIdsAsWritten(linked, t, EMPTY_DESK, Projected(rs, t, f.market.nextOrderId), 0);
    EmptyHasNoIds();
  }

  /**
   * From empty books on, until the counter wraps, no two orders that rest or are stranded share an id, be
   * they of one ticker or of two.
   */
  lemma {:induction false} FloorIdsRestOnce(linked: bool, f: Floor, rs: seq<ClientRequest>, t: TickerId, u: TickerId,
                                            id: OrderId)
    requires AllKnownOn(f, rs) && t in f.market.books && t in f.strays && DeskAt(f, t) == EMPTY_DESK
    requires u != t && u in f.market.books && u in f.strays ==> DeskAt(f, u) == EMPTY_DESK
    requires Adds(rs) <= 0x1_0000_0000
    ensures var e := ServeAll(linked, f, rs).floor;
      && t in e.market.books && t in e.strays && DeskIds(DeskAt(e, t))[id] <= 1
      && (u != t && u in f.market.books && u in f.strays ==>
            u in e.market.books && u in e.strays && (DeskIds(DeskAt(e, t)) + DeskIds(DeskAt(e, u)))[id] <= 1)
  {
    hide ServeAll, Projected, GivenIds, AddedIds, DeskIds;
    var other := if u == t then Next(t) else u;
    var a, b := AddedIds(Projected(rs, t, f.market.nextOrderId)), AddedIds(Projected(rs, other, f.market.nextOrderId));
    FloorIdsAreGiven(linked, f, rs, t);
    TickersShareIds(rs, t, other, f.market.nextOrderId);
    GivenOnce(rs, f.market.nextOrderId);
    assert (a + b)[id] <= GivenIds(rs, f.market.nextOrderId)[id] <= 1;
    var e := ServeAll(linked, f, rs).floor;
    assert DeskIds(DeskAt(e, t))[id] <= a[id];
    if u != t && u in f.market.books && u in f.strays {
      FloorIdsAreGiven(linked, f, rs, u);
      assert DeskIds(DeskAt(e, u))[id] <= b[id];
    }
  }
}
