/** What the invariant of `OrderBook` says about its real pointers, and what the missing link costs. */
module BookGuarantees {
  import opened Types
  import opened Matching
  import opened AsWritten
  import opened AsWrittenLaws
  import opened LevelViews
  import opened PriceLevels
  import opened BookStructure
  import opened Limbos
  import opened OrderBooks
  import opened LFQueues

  /** Successors on a chain are granted levels too. */
  lemma {:induction false} NextIsGranted(y: Layout, orders: set<Order>, l: OrdersPriceLevel)
    requires Structured(y, orders, null) && l in y.mem
    ensures y.mem[l].next == null || y.mem[l].next in y.mem
  {
    hide Indexed, Stocked, Apart, Sorted, Viewed;
    var ls := y.chains.At(IsBuy(y.mem[l].side));
    assert y.mem[l] == y.mem[l] && l in ls;
    var i :| 0 <= i < |ls| && ls[i] == l;
    assert y.mem[ls[i]].next == (if i + 1 < |ls| then ls[i + 1] else null);
  }

  /** The level `l` is named by the map at its price, and its orders are in use. */
  ghost predicate InUse(b: OrderBook, l: OrdersPriceLevel)
    reads b, l, b.orderPool
  {
    && l.priceLevel in b.priceLevels && b.priceLevels[l.priceLevel] == l
    && l.topOrder != null && (forall o :: o in l.queue ==> o in b.orderPool.live) && l.topOrder in l.queue
  }

  lemma {:induction false} ChainedInUse(b: OrderBook, l: OrdersPriceLevel)
    requires b.Valid() && l in b.layout.mem
    ensures InUse(b, l) && (l.nextPriceLevel == null || l.nextPriceLevel in b.levelPool.live)
  {
    hide Chain, Reachable, Apart, Adrift, Priced;
    var y := b.layout;
    NextIsGranted(y, b.Kept(), l);
    assert l.queue == y.mem[l].queue && l.view == y.mem[l].orders && l.Valid();
    EmptyQueue(l);
    TopOfLevel(l);
    assert y.mem[l].price !in b.limbo.index;
  }

  lemma {:induction false} StrayInUse(b: OrderBook, l: OrdersPriceLevel)
    requires b.Valid() && l in b.limbo.mem
    ensures InUse(b, l)
  {
    hide Structured, Beside, ObjectPools.ObjectPool.Valid, PriceLevels.OrdersPriceLevel.Valid;
    var p := b.limbo.mem[l].price;
    assert b.limbo.index[p] == l;
    AdriftWithout(b.limbo, p);
    assert Priced(p, b.limbo.mem[l].orders);
    EmptyQueue(l);
    TopOfLevel(l);
  }

  /**
   * No map entry and no best pointer leads to a released level, no chain runs into one, every granted
   * level is in the map, has orders, and all its orders are in use.
   */
  lemma {:induction false} NothingDangles(b: OrderBook)
    requires b.Valid()
    ensures forall p :: p in b.priceLevels && b.priceLevels[p] != null ==>
      b.priceLevels[p] in b.levelPool.live && b.priceLevels[p].priceLevel == p
    ensures forall l :: l in b.levelPool.live ==> InUse(b, l)
    ensures forall l :: l in b.levelPool.live && l.priceLevel !in b.OffChain() ==>
      l.nextPriceLevel == null || l.nextPriceLevel in b.levelPool.live
    ensures forall buy :: b.Best(buy) == null || b.Best(buy) in b.levelPool.live
  {
    hide Chain, Reachable, Apart, InUse, Priced, PriceLevels.OrdersPriceLevel.Valid;
    LimboPrices(b.limbo);
    forall l | l in b.levelPool.live
      ensures InUse(b, l)
      ensures l.priceLevel !in b.OffChain() ==> l.nextPriceLevel == null || l.nextPriceLevel in b.levelPool.live
    {
      if l in b.layout.mem {
        ChainedInUse(b, l);
      } else {
        StrayInUse(b, l);
        assert b.limbo.mem[l].price in b.limbo.index;
      }
    }
    forall buy: bool ensures b.Best(buy) == null || b.Best(buy) in b.levelPool.live {
      ChainOf(b.layout, b.Kept(), null, buy);
      ChainEnds(buy, b.layout.best.At(buy), b.layout.chains.At(buy), b.layout.views.At(buy), b.layout.mem);
    }
  }

  ghost function OrdersIn(queue: seq<Order>): seq<Resting>
    reads queue
  {
    if queue == [] then [] else [queue[0].Data()] + OrdersIn(queue[1..])
  }

  lemma {:induction false} ValidOrders(l: OrdersPriceLevel)
    requires l.Valid()
    ensures OrdersIn(l.queue) == l.view
  {
    OrdersInView(l.queue, l.view);
  }

  /** The contents of the levels, one behind the other. */
  ghost function Contents(ls: seq<OrdersPriceLevel>): seq<Resting>
    reads ls`view
  {
    if ls == [] then [] else ls[0].view + Contents(ls[1..])
  }

  lemma {:induction false} OrdersInView(queue: seq<Order>, view: seq<Resting>)
    requires |queue| == |view| && forall i {:trigger view[i]} :: 0 <= i < |queue| ==> queue[i].Data() == view[i]
    ensures OrdersIn(queue) == view
  {
    if queue != [] {
      assert queue[0].Data() == view[0];
      forall i {:trigger view[1..][i]} | 0 <= i < |queue[1..]| ensures queue[1..][i].Data() == view[1..][i] {
        assert queue[i + 1].Data() == view[i + 1];
      }
      OrdersInView(queue[1..], view[1..]);
    }
  }

  lemma {:induction false} ContentsOfViews(ls: seq<OrdersPriceLevel>, vs: seq<LevelView>)
    requires |ls| == |vs|
    requires forall i :: 0 <= i < |ls| ==> vs[i].orders == ls[i].view
    ensures Contents(ls) == Flat(vs)
  {
    if ls != [] {
      ContentsOfViews(ls[1..], vs[1..]);
    }
  }

  /** The levels of a chain hold what is recorded for them. */
  lemma {:induction false} ChainHolds(buy: bool, best: OrdersPriceLevel?, ls: seq<OrdersPriceLevel>,
                                      vs: seq<LevelView>, mem: Memory, orders: set<Order>)
    requires Chain(buy, best, ls, vs, mem) && Lists(mem, orders) && Fields(mem)
    ensures forall i :: 0 <= i < |ls| ==>
      && ls[i].Valid() && vs[i].orders == ls[i].view && ls[i].priceLevel == vs[i].price
      && OrdersIn(ls[i].queue) == ls[i].view
  {
    hide PriceLevels.OrdersPriceLevel.Valid;
    forall i | 0 <= i < |ls|
      ensures ls[i].Valid() && vs[i].orders == ls[i].view && ls[i].priceLevel == vs[i].price
      ensures OrdersIn(ls[i].queue) == ls[i].view
    {
      assert mem[ls[i]] == mem[ls[i]] && vs[i] == ViewOf(mem[ls[i]]);
      ValidOrders(ls[i]);
    }
  }

  /**
   * The real pointers spell out the abstract book: from the best level along the links, strictly
   * from better to worse prices, and around each level's cycle from its top order. No level that is
   * outside the chains is met on the way, nor any other at its price.
   */
  lemma {:induction false} PointersShowTheBook(b: OrderBook, buy: bool) returns (ls: seq<OrdersPriceLevel>)
    requires b.Valid()
    ensures Walk(b.Best(buy), ls)
    ensures forall i :: 0 <= i < |ls| ==> ls[i].Valid() && OrdersIn(ls[i].queue) == ls[i].view
    ensures forall i, j :: 0 <= i < j < |ls| ==> Ahead(buy, ls[i].priceLevel, ls[j].priceLevel)
    ensures Contents(ls) == b.Book().At(buy)
    ensures forall i :: 0 <= i < |ls| ==> ls[i].priceLevel !in b.OffChain()
  {
    hide Structured, Links, Viewed, Walk, Fields, Lists, Adrift, Sound, Beside, PriceLevels.OrdersPriceLevel.Valid;
    var y := b.layout;
    ls := y.chains.At(buy);
    ChainOf(y, b.Kept(), null, buy);
    ChainsBeside(y, b.Kept(), null, b.limbo, buy);
    LimboPrices(b.limbo);
    WalkOf(buy, b.Best(buy), ls, y.views.At(buy), y.mem);
    ChainHolds(buy, b.Best(buy), ls, y.views.At(buy), y.mem, b.Kept());
    ContentsOfViews(ls, y.views.At(buy));
  }

  /** All the resting orders of the levels, one behind the other, with their fields. */
  ghost function OrdersOf(ls: seq<OrdersPriceLevel>): seq<Order>
    reads ls`queue
  {
    if ls == [] then [] else ls[0].queue + OrdersOf(ls[1..])
  }

  lemma {:induction false} OrdersAreContents(ls: seq<OrdersPriceLevel>)
    requires forall i :: 0 <= i < |ls| ==> ls[i].Valid()
    ensures |OrdersOf(ls)| == |Contents(ls)|
    ensures forall j {:trigger Contents(ls)[j]} :: 0 <= j < |OrdersOf(ls)| ==> OrdersOf(ls)[j].Data() == Contents(ls)[j]
  {
    hide Cycle;
    if ls != [] {
      OrdersAreContents(ls[1..]);
      forall j {:trigger Contents(ls)[j]} | 0 <= j < |OrdersOf(ls)|
        ensures OrdersOf(ls)[j].Data() == Contents(ls)[j]
      {
        var n := |ls[0].queue|;
        if j < n {
          assert ls[0].queue[j].Data() == ls[0].view[j];
        } else {
          assert OrdersOf(ls[1..])[j - n].Data() == Contents(ls[1..])[j - n];
        }
      }
    }
  }

  /** The links of one level: `next` leads once around from the top order, and `previous` back. */
  lemma {:induction false} LinksOfLevel(l: OrdersPriceLevel)
    requires l.Valid()
    ensures l.topOrder == (if l.queue == [] then null else l.queue[0])
    ensures forall j {:trigger l.queue[j].next} :: 0 <= j < |l.queue| ==>
      l.queue[j].next == l.queue[if j + 1 < |l.queue| then j + 1 else 0]
    ensures forall j {:trigger l.queue[j].previous} :: 0 <= j < |l.queue| ==>
      l.queue[j].previous == l.queue[if j > 0 then j - 1 else |l.queue| - 1]
  {}

  /**
   * The same with every pointer and every field spelled out: from the best bids, and from the best asks,
   * through the links and around the cycles, the orders are met in the order of the book.
   */
  lemma {:induction false} PointersInFull(b: OrderBook, buy: bool) returns (ls: seq<OrdersPriceLevel>)
    requires b.Valid()
    ensures (if buy then b.bestBids else b.bestAsks) == (if ls == [] then null else ls[0])
    ensures forall i :: 0 <= i < |ls| ==>
      ls[i].Valid() && ls[i].nextPriceLevel == (if i + 1 < |ls| then ls[i + 1] else null)
    ensures forall i, j :: 0 <= i < j < |ls| ==>
      if buy then ls[i].priceLevel > ls[j].priceLevel else ls[i].priceLevel < ls[j].priceLevel
    ensures var side := if buy then b.Book().bids else b.Book().asks;
      && |OrdersOf(ls)| == |side|
      && forall j :: 0 <= j < |side| ==>
           var o := OrdersOf(ls)[j];
           && o.orderId == side[j].orderId && o.clientId == side[j].clientId && o.side == side[j].side
           && o.quantity == side[j].quantity && o.limitPrice == side[j].price
  {
    hide OrderBooks.OrderBook.Valid, PriceLevels.OrdersPriceLevel.Valid, OrdersOf, Contents, OrderBooks.OrderBook.Book;
    ls := PointersShowTheBook(b, buy);
    OrdersAreContents(ls);
    forall i | 0 <= i < |ls| ensures ls[i].nextPriceLevel == (if i + 1 < |ls| then ls[i + 1] else null) {
      assert ls[i].nextPriceLevel == ls[i].nextPriceLevel;
    }
    var side := if buy then b.Book().bids else b.Book().asks;
    assert side == b.Book().At(buy);
    forall j | 0 <= j < |side|
      ensures var o := OrdersOf(ls)[j];
        && o.orderId == side[j].orderId && o.clientId == side[j].clientId && o.side == side[j].side
        && o.quantity == side[j].quantity && o.limitPrice == side[j].price
    {
      assert Contents(ls)[j] == side[j];
    }
  }

  /** The levels outside the chains with every field spelled out. */
  lemma {:induction false} StraysInFull(b: OrderBook, price: Price)
    requires b.Valid() && price in b.OffChain()
    ensures price in b.priceLevels && b.priceLevels[price] != null
    ensures var l, s := b.priceLevels[price], b.OffChain()[price];
      && l.Valid() && l.priceLevel == price && (s.buy <==> l.side == Buy) && (s.last <==> l.nextPriceLevel == null)
      && |l.queue| == |s.orders|
      && forall j :: 0 <= j < |s.orders| ==>
           var o := l.queue[j];
           && o.orderId == s.orders[j].orderId && o.clientId == s.orders[j].clientId && o.side == s.orders[j].side
           && o.quantity == s.orders[j].quantity && o.limitPrice == s.orders[j].price
  {
    hide Structured, Fields, Lists, OrderBooks.OrderBook.Drifting, StraysOf;
    LimboPrices(b.limbo);
    b.StrayFacts(price);
    var l := b.priceLevels[price];
    forall j | 0 <= j < |l.view|
      ensures var o := l.queue[j];
        && o.orderId == l.view[j].orderId && o.clientId == l.view[j].clientId && o.side == l.view[j].side
        && o.quantity == l.view[j].quantity && o.limitPrice == l.view[j].price
    {
      assert l.queue[j].Data() == l.view[j];
    }
  }

  /** Between requests the book is ordered and never crossed. */
  lemma {:induction false} BookIsWellFormed(b: OrderBook)
    requires b.Valid()
    ensures WellFormed(b.Book())
  {
    hide Graded, Chain, Lists, Fields, Reachable, Indexed, Stocked, Adrift, Sound, Beside;
    SideFacts(b.layout, b.Kept(), true);
    SideFacts(b.layout, b.Kept(), false);
    GradedIsWellFormed(b.layout.views);
  }

  /**
   * Between requests the desk of the class is sound, so the laws of `AsWrittenLaws` hold of every run from
   * there that has a meaning: no stranded price is on a chain, and what is stranded is live and at its price.
   */
  lemma {:induction false} DeskIsSound(b: OrderBook)
    requires b.Valid()
    ensures SoundDesk(b.DeskNow())
  {
    hide WellFormed, Structured, Fields, Lists, HasPrice, Flat, Priced;
    BookIsWellFormed(b);
    forall p | p in b.OffChain()
      ensures OffTheChains(b.Book(), p) && Priced(p, b.OffChain()[p].orders)
    {
      StrayFactsHere(b, p);
      NotOnChain(b, true, p);
      NotOnChain(b, false, p);
    }
  }

  lemma {:induction false} StrayFactsHere(b: OrderBook, price: Price)
    requires b.Valid() && price in b.OffChain()
    ensures Priced(price, b.OffChain()[price].orders)
  {
    hide Structured, Fields, Lists, Priced;
    var l := b.limbo.index[price];
    assert Priced(b.limbo.mem[l].price, b.limbo.mem[l].orders);
  }

  lemma {:induction false} NotOnChain(b: OrderBook, buy: bool, price: Price)
    requires b.Valid() && price in b.OffChain()
    ensures !HasPrice(b.Book().At(buy), price)
  {
    hide Structured, Fields, Lists, Priced, Flat;
    LimboPrices(b.limbo);
    SideFacts(b.layout, b.Kept(), buy);
    ChainsBeside(b.layout, b.Kept(), null, b.limbo, buy);
    var vs := b.layout.views.At(buy);
    ChainOf(b.layout, b.Kept(), null, buy);
    assert b.Book().At(buy) == Flat(vs) && |b.layout.chains.At(buy)| == |vs|;
    PriceHasLevel(buy, vs, price);
  }

  // ----- the missing link

  /** There is only one way to follow the pointers. */
  lemma {:induction false} WalkIsUnique(best: OrdersPriceLevel?, ls: seq<OrdersPriceLevel>, ms: seq<OrdersPriceLevel>,
                                        n: nat)
    requires Walk(best, ls) && Walk(best, ms) && n <= |ls|
    ensures n <= |ms| && ls[..n] == ms[..n]
  {
    if n > 0 {
      WalkIsUnique(best, ls, ms, n - 1);
      if n > 1 {
        assert ls[n - 2] == ms[n - 2] && ls[n - 2].nextPriceLevel == ls[n - 1];
      }
    }
  }

  /**
   * A stranded level is in the map and its orders are on it; no walk from a best level, however it
   * is described, comes to it or to its price. So no structure whatever connects the map and the chains.
   */
  lemma {:induction false} NoWalkReachesStrays(b: OrderBook, price: Price, buy: bool, walk: seq<OrdersPriceLevel>)
    requires b.Valid() && price in b.OffChain() && Walk(b.Best(buy), walk)
    ensures price in b.priceLevels && b.priceLevels[price] != null
    ensures var l := b.priceLevels[price];
      && l.Valid() && l.priceLevel == price && l.view != [] && b.OffChain()[price] == StrayOf(RecOf(l))
      && l !in walk
    ensures forall i :: 0 <= i < |walk| ==> walk[i].priceLevel != price
  {
    hide Walk, Structured, Fields, Lists, StraysOf, PriceLevels.OrdersPriceLevel.Valid;
    LimboPrices(b.limbo);
    b.StrayFacts(price);
    var ls := PointersShowTheBook(b, buy);
    WalkIsUnique(b.Best(buy), walk, ls, |walk|);
    forall i | 0 <= i < |walk| ensures walk[i].priceLevel != price {
      assert walk[i] == walk[..|walk|][i] == ls[..|walk|][i];
    }
  }

  /** The map and the chains agree exactly when nothing is stranded. */
  lemma {:induction false} MapAgreesExactly(b: OrderBook, bids: seq<OrdersPriceLevel>, asks: seq<OrdersPriceLevel>)
    requires b.Valid() && Walk(b.bestBids, bids) && Walk(b.bestAsks, asks)
    ensures (forall p :: p in b.priceLevels && b.priceLevels[p] != null ==>
              b.priceLevels[p] in bids || b.priceLevels[p] in asks)
            <==> b.OffChain() == map[]
  {
    hide Walk, PriceLevels.OrdersPriceLevel.Valid, StraysOf;
    LimboPrices(b.limbo);
    if p :| p in b.OffChain() {
      NoWalkReachesStrays(b, p, true, bids);
      NoWalkReachesStrays(b, p, false, asks);
    } else {
      assert b.OffChain() == map[];
      ReachesAll(b, true, bids);
      ReachesAll(b, false, asks);
      forall p | p in b.priceLevels && b.priceLevels[p] != null
        ensures b.priceLevels[p] in bids || b.priceLevels[p] in asks
      {
        var buy, k := IndexedLevel(b.layout, b.Kept(), p);
        assert b.layout.chains.At(buy)[k] in b.layout.chains.At(buy);
      }
    }
  }

  lemma {:induction false} ReachesAll(b: OrderBook, buy: bool, walk: seq<OrdersPriceLevel>)
    requires b.Valid() && Walk(b.Best(buy), walk)
    ensures walk == b.layout.chains.At(buy)
  {
    hide Structured, Links, Viewed, Walk, Lists, PriceLevels.OrdersPriceLevel.Valid;
    var ls := b.layout.chains.At(buy);
    ChainOf(b.layout, b.Kept(), null, buy);
    WalkOf(buy, b.Best(buy), ls, b.layout.views.At(buy), b.layout.mem);
    WalkIsUnique(b.Best(buy), walk, ls, |walk|);
    WalkIsUnique(b.Best(buy), ls, walk, |ls|);
    assert walk[..|walk|] == walk && ls[..|ls|] == ls;
  }

  /**
   * How a cancel ends the process. When it empties a stranded level while its side has a best level,
   * `removePriceLevel` looks from there for a level whose successor has the stranded price. None has:
   * the loop comes to the last level and goes on through its null successor.
   */
  lemma {:induction false} PredecessorSearchRunsOff(b: OrderBook, price: Price, walk: seq<OrdersPriceLevel>)
    requires b.Valid() && price in b.OffChain()
    requires var buy := b.OffChain()[price].buy; b.Best(buy) != null && Walk(b.Best(buy), walk)
    ensures var l := b.priceLevels[price];
      l != null && IsBuy(l.side) == b.OffChain()[price].buy && l != b.Best(IsBuy(l.side))
    ensures walk != [] && walk[|walk| - 1].nextPriceLevel == null
    ensures forall i :: 0 < i < |walk| ==> walk[i - 1].nextPriceLevel == walk[i] && walk[i].priceLevel != price
  {
    hide OrderBooks.OrderBook.Valid, OrderBooks.OrderBook.OffChain, PriceLevels.OrdersPriceLevel.Valid;
    NoWalkReachesStrays(b, price, b.OffChain()[price].buy, walk);
    assert walk[|walk| - 1].nextPriceLevel == null;
    forall i | 0 < i < |walk| ensures walk[i - 1].nextPriceLevel == walk[i] {
      assert walk[i - 1].nextPriceLevel == walk[i - 1 + 1];
    }
  }

  /**
   * Where a cancel leads that sends the book astray: its side has no order and still a best level. That
   * level has been released, or it has been granted again since and is on the other side or stranded.
   */
  lemma {:induction false} BestGoneAstray(b: OrderBook, buy: bool, best: OrdersPriceLevel)
    requires b.Aside(buy, best)
    ensures b.Best(buy) == best && b.Book().At(buy) == [] && !b.Valid()
    ensures best !in b.levelPool.live || best in b.layout.chains.At(!buy) || best in b.limbo.mem
  {
    hide Fields, Lists, Reachable, Indexed, Stocked, Apart, Adrift, Sound, Beside;
    b.ValidUnlessAside(buy, best);
    ChainOf(b.layout, b.Kept(), null, buy);
    if best in b.levelPool.live && best !in b.limbo.mem {
      OnSomeChain(b.layout, b.Kept(), best);
    }
  }

  lemma {:induction false} OnSomeChain(y: Layout, orders: set<Order>, l: OrdersPriceLevel)
    requires Structured(y, orders, null) && l in y.mem
    ensures l in y.chains.bids || l in y.chains.asks
  {
    hide Indexed, Stocked, Apart, Sorted, Viewed;
    assert y.mem[l] == y.mem[l];
  }

  /** A best level that is not granted fits no structure, whatever is on the chains and beside them. */
  lemma {:induction false} NoStructureAstray(b: OrderBook, y: Layout, orders: set<Order>, hollow: OrdersPriceLevel?,
                                             buy: bool)
    requires b.Best(buy) != null && b.Best(buy) !in b.levelPool.live
    requires y.mem.Keys <= b.levelPool.live && Structured(y, orders, hollow)
    ensures !b.Synced(y)
  {
    hide Reachable, Indexed, Stocked, Apart, Viewed, Sorted;
    ChainOf(y, orders, hollow, buy);
    ChainEnds(buy, y.best.At(buy), y.chains.At(buy), y.views.At(buy), y.mem);
  }

  const FIRST_BID := BookRequest.Add(1, 7, Buy, 1, 10)
  const SECOND_BID := BookRequest.Add(2, 7, Buy, 1, 9)
  const SELL_BOTH := BookRequest.Add(3, 8, Sell, 2, 9)

  /**
   * A run that needs the link: two bids, the second at a worse price. As written the second
   * is stranded, and a sell order that should take both trades with the first and is put behind the
   * second.
   */
  lemma {:induction false} SecondBidNeedsALink(ticker: TickerId, tradeId: TradeId)
    ensures AddNeedsNoLink(ticker, EMPTY_BOOK, FIRST_BID)
    ensures var one := AddAsWritten(false, ticker, EMPTY_DESK, FIRST_BID, tradeId).desk;
      var two := AddAsWritten(false, ticker, one, SECOND_BID, tradeId).desk;
      var sold := AddAsWritten(false, ticker, two, SELL_BOTH, tradeId).desk;
      && one == Desk(Sides([RestOf(FIRST_BID, 1)], []), map[])
      && !AddNeedsNoLink(ticker, one.book, SECOND_BID)
      && two == Desk(one.book, map[9 := Stray(true, true, [RestOf(SECOND_BID, 1)])])
      && sold == Desk(EMPTY_BOOK, map[9 := Stray(true, true, [RestOf(SECOND_BID, 1), RestOf(SELL_BOTH, 1)])])
    ensures var one := AddOrder(ticker, EMPTY_BOOK, FIRST_BID, tradeId).book;
      var two := AddOrder(ticker, one, SECOND_BID, tradeId).book;
      && two == Sides([RestOf(FIRST_BID, 1), RestOf(SECOND_BID, 1)], [])
      && AddOrder(ticker, two, SELL_BOTH, tradeId).book == EMPTY_BOOK
  {
    var first, second, sell := RestOf(FIRST_BID, 1), RestOf(SECOND_BID, 1), RestOf(SELL_BOTH, 1);
    assert Insert(true, [], first) == [first];
    assert [first][1..] == [] && Insert(true, [], second) == [second];
    assert Insert(true, [first], second) == [first, second];
    var one := AddAsWritten(false, ticker, EMPTY_DESK, FIRST_BID, tradeId).desk;
    assert one == Desk(Sides([first], []), map[]);
    var two := AddAsWritten(false, ticker, one, SECOND_BID, tradeId).desk;
    assert two == Desk(one.book, map[9 := Stray(true, true, [second])]);
    TakesFirst(ticker, tradeId);
    TakesBoth(ticker, tradeId);
    assert [second] + [sell] == [second, sell];
    assert Stranding(two, sell) == Stray(true, true, [second, sell]);
  }

  lemma {:induction false} TakesFirst(ticker: TickerId, tradeId: TradeId)
    ensures var c := Cross(TakerOf(ticker, SELL_BOTH), 2, [RestOf(FIRST_BID, 1)], tradeId);
      c.opposite == [] && c.remaining == 1
  {
    assert [RestOf(FIRST_BID, 1)][1..] == [];
  }

  lemma {:induction false} TakesBoth(ticker: TickerId, tradeId: TradeId)
    ensures var c := Cross(TakerOf(ticker, SELL_BOTH), 2, [RestOf(FIRST_BID, 1), RestOf(SECOND_BID, 1)], tradeId);
      c.opposite == [] && c.remaining == 0
  {
    var t, bids := TakerOf(ticker, SELL_BOTH), [RestOf(FIRST_BID, 1), RestOf(SECOND_BID, 1)];
    assert bids[1..] == [RestOf(SECOND_BID, 1)] && bids[1..][1..] == [];
    CrossStops(t, 0, [], Next(Next(tradeId)));
    var rest := Cross(t, 1, bids[1..], Next(tradeId));
    assert rest.opposite == [] && rest.remaining == 0;
    assert HitOf(t, 2, bids[0], tradeId).left.quantity == 0;
  }

  lemma {:induction false} TwoBidsFit(ticker: TickerId, orderCapacity: nat, levelCapacity: nat)
    requires orderCapacity > 2 && levelCapacity > 2
    ensures RoomFor(ticker, EMPTY_DESK, FIRST_BID, 0, orderCapacity, levelCapacity)
    ensures RestedBy(ticker, EMPTY_BOOK, FIRST_BID) == 1
    ensures RoomFor(ticker, Desk(Sides([RestOf(FIRST_BID, 1)], []), map[]), SECOND_BID, 1, orderCapacity, levelCapacity)
  {}

  lemma {:induction false} TwoBidsWithLink(ticker: TickerId, tradeId: TradeId)
    ensures var one := AddAsWritten(true, ticker, EMPTY_DESK, FIRST_BID, tradeId).desk;
      && one == Desk(Sides([RestOf(FIRST_BID, 1)], []), map[])
      && AddAsWritten(true, ticker, one, SECOND_BID, tradeId).desk
         == Desk(Sides([RestOf(FIRST_BID, 1), RestOf(SECOND_BID, 1)], []), map[])
  {
    var first, second := RestOf(FIRST_BID, 1), RestOf(SECOND_BID, 1);
    assert Insert(true, [], first) == [first];
    assert [first][1..] == [] && Insert(true, [], second) == [second];
    assert Insert(true, [first], second) == [first, second];
  }

  /** The same two bids on the class: as the repository has it, the second bid cannot be reached. */
  method LosesTheSecondBid(b: OrderBook)
    requires b.Owns() && b.Valid() && Ready(b.responses, b.updates) && b.DeskNow() == EMPTY_DESK
    requires b.orderPool.live == {} && |b.orderPool.store| > 2 && |b.levelPool.store| > 2
    modifies b, b.footprint, b.responses, b.responses.data, b.updates, b.updates.data
    ensures b.Valid()
    ensures b.DeskNow() == if b.linked then Desk(Sides([RestOf(FIRST_BID, 1), RestOf(SECOND_BID, 1)], []), map[])
                           else Desk(Sides([RestOf(FIRST_BID, 1)], []),
                                     map[9 := Stray(true, true, [RestOf(SECOND_BID, 1)])])
  {
    hide OrderBooks.OrderBook.Valid, OrderBooks.OrderBook.Owns, LFQueues.Ready, AddAsWritten, AddOrder, RoomFor,
         RestedBy, AddNeedsNoLink;
    TwoBidsFit(b.tickerId, |b.orderPool.store|, |b.levelPool.store|);
    SecondBidNeedsALink(b.tickerId, 1);
    TwoBidsWithLink(b.tickerId, 1);
    var ok, tradeId := b.Add(FIRST_BID, 1);
    SecondBidNeedsALink(b.tickerId, tradeId);
    TwoBidsWithLink(b.tickerId, tradeId);
    ok, tradeId := b.Add(SECOND_BID, tradeId);
  }

  // ----- cancels that the book does not survive

  const CANCEL_SECOND := BookRequest.Cancel(2, 7, Buy, 9)

  const HIGHER_BID := BookRequest.Add(2, 7, Buy, 1, 12)
  const BETWEEN_BID := BookRequest.Add(3, 7, Buy, 1, 11)
  const CANCEL_FIRST := BookRequest.Cancel(1, 7, Buy, 10)
  const CANCEL_HIGHER := BookRequest.Cancel(2, 7, Buy, 12)
  const CANCEL_BETWEEN := BookRequest.Cancel(3, 7, Buy, 11)

  const BETWEEN_ALONE := Desk(EMPTY_BOOK, map[11 := Stray(true, false, [RestOf(BETWEEN_BID, 1)])])

  /** A run that ends the process: two bids, and the second is cancelled. */
  lemma {:induction false} SecondBidEndsTheProcess(ticker: TickerId, tradeId: TradeId)
    ensures var one := AddAsWritten(false, ticker, EMPTY_DESK, FIRST_BID, tradeId).desk;
      var two := AddAsWritten(false, ticker, one, SECOND_BID, tradeId).desk;
      CancelFate(two, CANCEL_SECOND.price, CANCEL_SECOND.orderId) == Ended
  {
    SecondBidNeedsALink(ticker, tradeId);
  }

  /** A run that sends the book astray: three bids, the last between the others, all cancelled in turn. */
  lemma {:induction false} ThreeBidsGoAstray(ticker: TickerId, tradeId: TradeId)
    ensures var one := AddAsWritten(false, ticker, EMPTY_DESK, FIRST_BID, tradeId).desk;
      var two := AddAsWritten(false, ticker, one, HIGHER_BID, tradeId).desk;
      var three := AddAsWritten(false, ticker, two, BETWEEN_BID, tradeId).desk;
      var four := CancelAsWritten(ticker, three, CANCEL_FIRST, tradeId).desk;
      && one == Desk(Sides([RestOf(FIRST_BID, 1)], []), map[])
      && two == Desk(Sides([RestOf(HIGHER_BID, 1), RestOf(FIRST_BID, 1)], []), map[])
      && three == Desk(two.book, BETWEEN_ALONE.strays)
      && four == Desk(Sides([RestOf(HIGHER_BID, 1)], []), BETWEEN_ALONE.strays)
      && CancelAsWritten(ticker, four, CANCEL_HIGHER, tradeId).desk == BETWEEN_ALONE
    ensures CancelFate(BETWEEN_ALONE, CANCEL_BETWEEN.price, CANCEL_BETWEEN.orderId) == Astray
    ensures CancelAsWritten(ticker, BETWEEN_ALONE, CANCEL_BETWEEN, tradeId).desk == EMPTY_DESK
  {
    var first, higher, between := RestOf(FIRST_BID, 1), RestOf(HIGHER_BID, 1), RestOf(BETWEEN_BID, 1);
    var one := AddAsWritten(false, ticker, EMPTY_DESK, FIRST_BID, tradeId).desk;
    assert Insert(true, [], first) == [first] && one == Desk(Sides([first], []), map[]);
    assert Insert(true, [first], higher) == [higher, first];
    var two := AddAsWritten(false, ticker, one, HIGHER_BID, tradeId).desk;
    assert two == Desk(Sides([higher, first], []), map[]);
    assert Stranding(two, between) == Stray(true, false, [between]) by {
      assert two.book.bids[1] == first;
    }
    var three := AddAsWritten(false, ticker, two, BETWEEN_BID, tradeId).desk;
    assert three == Desk(two.book, BETWEEN_ALONE.strays);
    FirstOut(higher, first);
  }

  lemma {:induction false} FirstOut(higher: Resting, first: Resting)
    requires higher == RestOf(HIGHER_BID, 1) && first == RestOf(FIRST_BID, 1)
    ensures Find([higher, first], 10, 1) == 1 && RemoveAt([higher, first], 1) == [higher]
    ensures Find([higher], 12, 2) == 0 && RemoveAt([higher], 0) == []
    ensures Find([], 10, 1) == 0 && Find([], 12, 2) == 0
    ensures FindId([RestOf(BETWEEN_BID, 1)], 3) == 0
  {
    assert [higher, first][1..] == [first];
  }

  lemma {:induction false} ThreeBidsFit(ticker: TickerId, orderCapacity: nat, levelCapacity: nat)
    requires orderCapacity > 3 && levelCapacity > 3
    ensures var two := Desk(Sides([RestOf(HIGHER_BID, 1), RestOf(FIRST_BID, 1)], []), map[]);
      && RoomFor(ticker, EMPTY_DESK, FIRST_BID, 0, orderCapacity, levelCapacity)
      && RoomFor(ticker, Desk(Sides([RestOf(FIRST_BID, 1)], []), map[]), HIGHER_BID, 1, orderCapacity, levelCapacity)
      && RoomFor(ticker, two, BETWEEN_BID, 2, orderCapacity, levelCapacity)
      && RestedBy(ticker, EMPTY_BOOK, FIRST_BID) == 1
      && RestedBy(ticker, Sides([RestOf(FIRST_BID, 1)], []), HIGHER_BID) == 1
  {
    assert [RestOf(HIGHER_BID, 1), RestOf(FIRST_BID, 1)][1..] == [RestOf(FIRST_BID, 1)];
  }

  /** The three bids on the class. */
  method PlaceThreeBids(b: OrderBook) returns (tradeId: TradeId)
    requires b.Owns() && b.Valid() && Ready(b.responses, b.updates) && b.DeskNow() == EMPTY_DESK && !b.linked
    requires b.orderPool.live == {} && |b.orderPool.store| > 3 && |b.levelPool.store| > 3
    modifies b, b.footprint, b.responses, b.responses.data, b.updates, b.updates.data
    ensures b.Owns() && b.Valid() && Ready(b.responses, b.updates)
    ensures b.DeskNow() == Desk(Sides([RestOf(HIGHER_BID, 1), RestOf(FIRST_BID, 1)], []), BETWEEN_ALONE.strays)
  {
    hide OrderBooks.OrderBook.Valid, OrderBooks.OrderBook.Owns, LFQueues.Ready, AddAsWritten, AddOrder, RoomFor,
         RestedBy, CancelAsWritten;
    ThreeBidsFit(b.tickerId, |b.orderPool.store|, |b.levelPool.store|);
    ThreeBidsGoAstray(b.tickerId, 1);
    var ok;
    ok, tradeId := b.Add(FIRST_BID, 1);
    ThreeBidsGoAstray(b.tickerId, tradeId);
    ok, tradeId := b.Add(HIGHER_BID, tradeId);
    ThreeBidsGoAstray(b.tickerId, tradeId);
    ok, tradeId := b.Add(BETWEEN_BID, tradeId);
  }

  /** Their cancels: in the end nothing rests, and the best pointer is not null. */
  method GoesAstray(b: OrderBook) returns (fate: Fate)
    requires b.Owns() && b.Valid() && Ready(b.responses, b.updates) && b.DeskNow() == EMPTY_DESK && !b.linked
    requires b.orderPool.live == {} && |b.orderPool.store| > 3 && |b.levelPool.store| > 3
    modifies b, b.footprint, b.responses, b.responses.data, b.updates, b.updates.data
    ensures fate == Astray && !b.Valid()
    ensures b.DeskNow() == EMPTY_DESK && b.bestBids != null
  {
    hide OrderBooks.OrderBook.Consistent, OrderBooks.OrderBook.Owns, LFQueues.Ready, AddAsWritten, AddOrder,
         CancelAsWritten, CancelFate, OrderBooks.OrderBook.Furnished;
    var tradeId := PlaceThreeBids(b);
    ThreeBidsGoAstray(b.tickerId, tradeId);
    FateOnChain(b.DeskNow(), CANCEL_FIRST.price, CANCEL_FIRST.orderId);
    fate := b.Cancel(CANCEL_FIRST, tradeId);
    FateOnChain(b.DeskNow(), CANCEL_HIGHER.price, CANCEL_HIGHER.orderId);
    fate := b.Cancel(CANCEL_HIGHER, tradeId);
    fate := b.Cancel(CANCEL_BETWEEN, tradeId);
  }
}
