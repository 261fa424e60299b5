/**
 * How long the code as written tells its clients what the reference tells them: a reference book beside
 * a desk that strands some of its levels, and exactly when their messages part.
 */
module Lockstep {
  import opened Types
  import opened Matching
  import opened BookLaws
  import opened MarketData
  import opened AsWritten
  import opened AsWrittenLaws

  // ----- a book and what is stranded of it

  /** The orders of a side whose price is not that of a level outside the chains. */
  function OnChains(s: seq<Resting>, strays: Strays): seq<Resting> {
    if s == [] then []
    else (if s[0].price in strays then [] else [s[0]]) + OnChains(s[1..], strays)
  }

  /** The queue of a side at one price. */
  function Queue(s: seq<Resting>, price: Price): seq<Resting> {
    if s == [] then [] else (if s[0].price == price then [s[0]] else []) + Queue(s[1..], price)
  }

  /** The stranded level at this price is a whole level of the book, on the side it was opened for. */
  ghost predicate StrayOfBook(book: Book, price: Price, s: Stray) {
    s.orders != [] && s.orders == Queue(book.At(s.buy), price) && !HasPrice(book.At(!s.buy), price)
  }

  /** The desk is the reference book with some of its levels moved outside the chains. */
  ghost predicate Parts(book: Book, d: Desk) {
    && WellFormed(book)
    && d.book.bids == OnChains(book.bids, d.strays) && d.book.asks == OnChains(book.asks, d.strays)
    && forall p :: p in d.strays ==> StrayOfBook(book, p, d.strays[p])
  }

  lemma {:induction false} NothingStrandedParts(book: Book)
    requires WellFormed(book)
    ensures Parts(book, Desk(book, map[]))
  {
    AllOnChains(book.bids);
    AllOnChains(book.asks);
  }

  lemma {:induction false} AllOnChains(s: seq<Resting>)
    ensures OnChains(s, map[]) == s
  {
    if s != [] {
      AllOnChains(s[1..]);
    }
  }

  // ----- sides, taken apart

  lemma {:induction false} OnChainsCons(o: Resting, s: seq<Resting>, strays: Strays)
    ensures OnChains([o] + s, strays) == if o.price in strays then OnChains(s, strays) else [o] + OnChains(s, strays)
  {
    assert ([o] + s)[1..] == s;
  }

  lemma {:induction false} QueueCons(o: Resting, s: seq<Resting>, price: Price)
    ensures Queue([o] + s, price) == if o.price == price then [o] + Queue(s, price) else Queue(s, price)
  {
    assert ([o] + s)[1..] == s;
  }

  lemma {:induction false} HasPriceCons(o: Resting, s: seq<Resting>, price: Price)
    ensures HasPrice([o] + s, price) <==> o.price == price || HasPrice(s, price)
  {
    var all := [o] + s;
    assert all[0] == o;
    if i :| 0 <= i < |s| && s[i].price == price {
      assert all[i + 1] == s[i];
    }
  }

  lemma {:induction false} QueueIsNone(s: seq<Resting>, price: Price)
    ensures Queue(s, price) == [] <==> !HasPrice(s, price)
    ensures forall i :: 0 <= i < |Queue(s, price)| ==> Queue(s, price)[i].price == price
  {
    if s != [] {
      QueueIsNone(s[1..], price);
      assert s == [s[0]] + s[1..];
      HasPriceCons(s[0], s[1..], price);
    }
  }

  /** Where the price of a level does not occur, it does not matter whether it is on a chain. */
  lemma {:induction false} OnChainsWithout(s: seq<Resting>, strays: Strays, price: Price, stray: Stray)
    requires !HasPrice(s, price) || price in strays
    ensures OnChains(s, strays[price := stray]) == OnChains(s, strays)
  {
    if s != [] {
      assert s == [s[0]] + s[1..];
      HasPriceCons(s[0], s[1..], price);
      OnChainsWithout(s[1..], strays, price, stray);
    }
  }

  lemma {:induction false} OnChainsLess(s: seq<Resting>, strays: Strays, price: Price)
    requires !HasPrice(s, price)
    ensures OnChains(s, strays - {price}) == OnChains(s, strays)
  {
    if s != [] {
      assert s == [s[0]] + s[1..];
      HasPriceCons(s[0], s[1..], price);
      OnChainsLess(s[1..], strays, price);
    }
  }

  lemma {:induction false} NothingApart(strays: Strays, price: Price)
    ensures OnChains([], strays) == [] && Queue([], price) == [] && !HasPrice([], price)
  {}

  lemma {:induction false} OnChainsKeepsPrices(s: seq<Resting>, strays: Strays, price: Price)
    ensures HasPrice(OnChains(s, strays), price) <==> HasPrice(s, price) && price !in strays
    ensures price !in strays ==> Queue(OnChains(s, strays), price) == Queue(s, price)
  {
    hide OnChains, Queue, HasPrice;
    NothingApart(strays, price);
    if s != [] {
      var rest := OnChains(s[1..], strays);
      OnChainsKeepsPrices(s[1..], strays, price);
      assert s == [s[0]] + s[1..];
      OnChainsCons(s[0], s[1..], strays);
      QueueCons(s[0], rest, price);
      QueueCons(s[0], s[1..], price);
      HasPriceCons(s[0], rest, price);
      HasPriceCons(s[0], s[1..], price);
    }
  }

  // ----- crossing

  /** The taker comes, in the reference book, to an order that is stranded. */
  predicate Reaches(t: Taker, quantity: Quantity, s: seq<Resting>, strays: Strays)
    decreases |s|
  {
    Trades(t, quantity, s) &&
    (s[0].price in strays || Reaches(t, quantity - Min(quantity, s[0].quantity), s[1..], strays))
  }

  lemma {:induction false} OrderedTail(buy: bool, s: seq<Resting>)
    requires Ordered(buy, s) && s != []
    ensures Ordered(buy, s[1..]) && forall i :: 0 <= i < |s| ==> !Ahead(buy, s[i].price, s[0].price)
  {
    forall i, j | 0 <= i < j < |s[1..]| ensures !Ahead(buy, s[1..][j].price, s[1..][i].price) {
      assert s[1..][j] == s[j + 1] && s[1..][i] == s[i + 1];
    }
  }

  /** When the best order is not acceptable, none on the chains is. */
  lemma {:induction false} ChainsDoNotTrade(t: Taker, quantity: Quantity, s: seq<Resting>, strays: Strays)
    requires Ordered(!IsBuy(t.side), s) && !Trades(t, quantity, s)
    ensures !Trades(t, quantity, OnChains(s, strays))
    decreases |s|
  {
    if s != [] && s[0].price in strays {
      OrderedTail(!IsBuy(t.side), s);
      ChainsDoNotTrade(t, quantity, s[1..], strays);
    }
  }

  /** A taker that comes to no stranded order trades on the chains as in the book. */
  lemma {:induction false} CrossInStep(t: Taker, quantity: Quantity, s: seq<Resting>, strays: Strays, tradeId: TradeId)
    requires Ordered(!IsBuy(t.side), s) && !Reaches(t, quantity, s, strays)
    ensures var c, w := Cross(t, quantity, s, tradeId), Cross(t, quantity, OnChains(s, strays), tradeId);
      w == c.(opposite := OnChains(c.opposite, strays))
    ensures var c := Cross(t, quantity, s, tradeId);
      forall p :: p in strays ==> Queue(c.opposite, p) == Queue(s, p)
    decreases |s|
  {
    if !Trades(t, quantity, s) {
      ChainsDoNotTrade(t, quantity, s, strays);
    } else {
      var h := HitOf(t, quantity, s[0], tradeId);
      var chains := OnChains(s[1..], strays);
      assert OnChains(s, strays) == [s[0]] + chains && ([s[0]] + chains)[1..] == chains;
      OrderedTail(!IsBuy(t.side), s);
      if h.left.quantity == 0 {
        CrossInStep(t, h.remaining, s[1..], strays, Next(tradeId));
      } else {
        OnChainsCons(h.left, s[1..], strays);
        forall p | p in strays ensures Queue([h.left] + s[1..], p) == Queue(s, p) {
          QueueCons(h.left, s[1..], p);
        }
      }
    }
  }

  /** The first message that only one of the two has: a trade of the reference at a stranded price. */
  lemma {:induction false} CrossPartsAt(t: Taker, quantity: Quantity, s: seq<Resting>, strays: Strays, tradeId: TradeId)
    returns (k: nat)
    requires Reaches(t, quantity, s, strays)
    ensures var c := Cross(t, quantity, s, tradeId).updates;
      var w := Cross(t, quantity, OnChains(s, strays), tradeId).updates;
      && k < |c| && c[k].kind == Traded && c[k].price in strays
      && k <= |w| && (k < |w| ==> w[k].price !in strays)
    decreases |s|
  {
    var h := HitOf(t, quantity, s[0], tradeId);
    if s[0].price in strays {
      k := 0;
      assert h.updates[0].price == s[0].price && h.updates[0].kind == Traded;
      OffStrays(s, strays);
      CrossAtMakers(t, quantity, OnChains(s, strays), tradeId);
    } else {
      var chains := OnChains(s[1..], strays);
      assert OnChains(s, strays) == [s[0]] + chains && ([s[0]] + chains)[1..] == chains;
      assert h.left.quantity == 0;
      k := CrossPartsAt(t, h.remaining, s[1..], strays, Next(tradeId));
      k := k + 2;
    }
  }

  lemma {:induction false} OffStrays(s: seq<Resting>, strays: Strays)
    ensures forall i :: 0 <= i < |OnChains(s, strays)| ==> OnChains(s, strays)[i].price !in strays
  {
    if s != [] {
      OffStrays(s[1..], strays);
    }
  }

  /** A trade comes first, at the price of the best maker. */
  lemma {:induction false} CrossAtMakers(t: Taker, quantity: Quantity, s: seq<Resting>, tradeId: TradeId)
    ensures var us := Cross(t, quantity, s, tradeId).updates;
      us != [] ==> s != [] && us[0].price == s[0].price
  {
    if Trades(t, quantity, s) {
      var h := HitOf(t, quantity, s[0], tradeId);
      assert h.updates[0].price == s[0].price;
    }
  }

  // ----- resting

  lemma {:induction false} InsertCons(buy: bool, head: Resting, s: seq<Resting>, o: Resting)
    requires !Ahead(buy, o.price, head.price)
    ensures Insert(buy, [head] + s, o) == [head] + Insert(buy, s, o)
  {
    assert ([head] + s)[1..] == s;
  }

  lemma {:induction false} InsertOnChains(buy: bool, own: seq<Resting>, o: Resting, strays: Strays)
    requires Ordered(buy, own)
    ensures OnChains(Insert(buy, own, o), strays)
         == if o.price in strays then OnChains(own, strays) else Insert(buy, OnChains(own, strays), o)
    decreases |own|
  {
    if own == [] {
      OnChainsCons(o, [], strays);
      assert [o] + [] == [o];
    } else if Ahead(buy, o.price, own[0].price) {
      OnChainsCons(o, own, strays);
      if OnChains(own, strays) != [] {
        FirstOnChains(own, strays);
      }
    } else {
      hide OnChains, Insert;
      OrderedTail(buy, own);
      InsertOnChains(buy, own[1..], o, strays);
      assert own == [own[0]] + own[1..];
      InsertCons(buy, own[0], own[1..], o);
      InsertCons(buy, own[0], OnChains(own[1..], strays), o);
      OnChainsCons(own[0], own[1..], strays);
      OnChainsCons(own[0], Insert(buy, own[1..], o), strays);
    }
  }

  lemma {:induction false} FirstOnChains(s: seq<Resting>, strays: Strays)
    requires OnChains(s, strays) != []
    ensures OnChains(s, strays)[0] in s
  {
    if s[0].price in strays {
      FirstOnChains(s[1..], strays);
    }
  }

  lemma {:induction false} InsertQueue(buy: bool, own: seq<Resting>, o: Resting, price: Price)
    requires Ordered(buy, own)
    ensures Queue(Insert(buy, own, o), price) == Queue(own, price) + (if o.price == price then [o] else [])
    decreases |own|
  {
    if own == [] || Ahead(buy, o.price, own[0].price) {
      QueueCons(o, own, price);
      if o.price == price && own != [] {
        OrderedTail(buy, own);
        QueueIsNone(own, price);
      }
    } else {
      OrderedTail(buy, own);
      InsertQueue(buy, own[1..], o, price);
      QueueCons(own[0], Insert(buy, own[1..], o), price);
    }
  }

  // ----- one add

  lemma {:induction false} PartsSide(book: Book, d: Desk, buy: bool)
    requires Parts(book, d)
    ensures Ordered(buy, book.At(buy)) && Live(buy, book.At(buy)) && d.book.At(buy) == OnChains(book.At(buy), d.strays)
  {}

  /** The taker of this add comes, in the reference book, to a stranded order. */
  predicate AddReaches(ticker: TickerId, book: Book, strays: Strays, r: BookRequest)
    requires r.Add?
  {
    Reaches(TakerOf(ticker, r), r.quantity, book.At(!IsBuy(r.side)), strays)
  }

  /** Both crossings, side by side. */
  lemma {:induction false} CrossedParts(ticker: TickerId, book: Book, d: Desk, r: BookRequest, tradeId: TradeId)
    requires Parts(book, d) && r.Add? && !AddReaches(ticker, book, d.strays, r)
    ensures var c, w := CrossingOf(ticker, book, r, tradeId), CrossingOf(ticker, d.book, r, tradeId);
      && w == c.(opposite := OnChains(c.opposite, d.strays))
      && (forall p :: p in d.strays ==> Queue(c.opposite, p) == Queue(book.At(!IsBuy(r.side)), p))
      && (c.remaining != 0 ==> !HasPrice(c.opposite, r.price))
      && (forall p: Price :: HasPrice(c.opposite, p) ==> HasPrice(book.At(!IsBuy(r.side)), p))
  {
    hide Cross, Uncrossed, StrayOfBook, Reaches;
    var buy, t := IsBuy(r.side), TakerOf(ticker, r);
    var c, other := CrossingOf(ticker, book, r, tradeId), book.At(!buy);
    PartsSide(book, d, !buy);
    CrossInStep(t, r.quantity, other, d.strays, tradeId);
    CrossLeavesSuffix(t, r.quantity, other, tradeId);
    SuffixKeepsOrder(!buy, other, c.opposite);
    if c.remaining != 0 { NotAcceptableNotThere(t, c.opposite); }
  }

  /** Out of reach of stranded orders, an add leaves the desk a part of the reference book again. */
  lemma {:induction false} AddKeepsParts(linked: bool, ticker: TickerId, book: Book, d: Desk, r: BookRequest,
                                         tradeId: TradeId)
    requires Parts(book, d) && r.Add? && !AddReaches(ticker, book, d.strays, r)
    ensures Parts(AddOrder(ticker, book, r, tradeId).book, AddAsWritten(linked, ticker, d, r, tradeId).desk)
  {
    hide AddAsWritten, AddOrder, WellFormed, Insert, Cross, AddReaches, NeedsNoLink, StrayOfBook;
    var buy, c := IsBuy(r.side), CrossingOf(ticker, book, r, tradeId);
    var a, e := AddOrder(ticker, book, r, tradeId).book, AddAsWritten(linked, ticker, d, r, tradeId).desk;
    var own, o := book.At(buy), RestOf(r, c.remaining);
    PartsSide(book, d, buy);
    CrossedParts(ticker, book, d, r, tradeId);
    AddKeepsWellFormed(ticker, book, r, tradeId);
    AddOnDesk(linked, ticker, d, r, tradeId);
    SidesAfterAdd(ticker, book, r, tradeId);
    if c.remaining != 0 {
      InsertOnChains(buy, own, o, e.strays);
      if Strands(linked, d, r) {
        StrandedParts(linked, ticker, book, d, r, tradeId);
      }
    }
    forall p | p in e.strays && (p in d.strays && (c.remaining == 0 || !Strands(linked, d, r) || p != r.price))
      ensures StrayOfBook(a, p, e.strays[p])
    {
      StrayStays(ticker, book, d, r, tradeId, p);
    }
  }

  lemma {:induction false} SidesAfterAdd(ticker: TickerId, book: Book, r: BookRequest, tradeId: TradeId)
    requires r.Add?
    ensures var a, c := AddOrder(ticker, book, r, tradeId).book, CrossingOf(ticker, book, r, tradeId);
      var buy := IsBuy(r.side);
      && a.At(!buy) == c.opposite
      && a.At(buy) == if c.remaining == 0 then book.At(buy) else Insert(buy, book.At(buy), RestOf(r, c.remaining))
  {}

  /** A stranded level that gets no order is the same level of the book after the add. */
  lemma {:induction false} StrayStays(ticker: TickerId, book: Book, d: Desk, r: BookRequest, tradeId: TradeId,
                                      p: Price)
    requires Parts(book, d) && r.Add? && !AddReaches(ticker, book, d.strays, r) && p in d.strays
    requires CrossingOf(ticker, book, r, tradeId).remaining != 0 ==> p != r.price
    ensures StrayOfBook(AddOrder(ticker, book, r, tradeId).book, p, d.strays[p])
  {
    hide AddOrder, WellFormed, Insert, Cross, AddReaches;
    var buy, c := IsBuy(r.side), CrossingOf(ticker, book, r, tradeId);
    PartsSide(book, d, buy);
    CrossedParts(ticker, book, d, r, tradeId);
    SidesAfterAdd(ticker, book, r, tradeId);
    QueueIsNone(book.At(!buy), p);
    QueueIsNone(c.opposite, p);
    QueueIsNone(book.At(buy), p);
    if c.remaining != 0 {
      InsertQueue(buy, book.At(buy), RestOf(r, c.remaining), p);
      QueueIsNone(Insert(buy, book.At(buy), RestOf(r, c.remaining)), p);
    }
  }

  /** The level that takes the remainder outside the chains is a whole level of the book after the add. */
  lemma {:induction false} StrandedParts(linked: bool, ticker: TickerId, book: Book, d: Desk, r: BookRequest,
                                         tradeId: TradeId)
    requires Parts(book, d) && r.Add? && !AddReaches(ticker, book, d.strays, r)
    requires CrossingOf(ticker, book, r, tradeId).remaining != 0 && Strands(linked, d, r)
    ensures var a, e := AddOrder(ticker, book, r, tradeId).book, AddAsWritten(linked, ticker, d, r, tradeId).desk;
      var own, c := book.At(IsBuy(r.side)), CrossingOf(ticker, book, r, tradeId);
      && r.price in e.strays && StrayOfBook(a, r.price, e.strays[r.price])
      && OnChains(own, e.strays) == OnChains(own, d.strays)
      && OnChains(c.opposite, e.strays) == OnChains(c.opposite, d.strays)
  {
    hide AddAsWritten, AddOrder, WellFormed, Insert, Cross, AddReaches;
    var buy, c := IsBuy(r.side), CrossingOf(ticker, book, r, tradeId);
    var own, o, x := book.At(buy), RestOf(r, c.remaining), Crossed(ticker, d, r, tradeId);
    PartsSide(book, d, buy);
    CrossedParts(ticker, book, d, r, tradeId);
    AddOnDesk(linked, ticker, d, r, tradeId);
    SidesAfterAdd(ticker, book, r, tradeId);
    OnChainsKeepsPrices(own, d.strays, r.price);
    QueueIsNone(own, r.price);
    QueueIsNone(c.opposite, r.price);
    InsertQueue(buy, own, o, r.price);
    OnChainsWithout(own, d.strays, r.price, Stranding(x, o));
    OnChainsWithout(c.opposite, d.strays, r.price, Stranding(x, o));
    if r.price in d.strays {
      assert StrayOfBook(book, r.price, d.strays[r.price]);
    }
  }

  /**
   * One add tells what the reference tells if and only if the reference's taker comes to no stranded
   * order; then the desk goes on as a part of the reference book.
   */
  lemma {:induction false} AddInStep(linked: bool, ticker: TickerId, book: Book, d: Desk, r: BookRequest,
                                     tradeId: TradeId)
    requires Parts(book, d) && r.Add?
    ensures var e, a := AddAsWritten(linked, ticker, d, r, tradeId), AddOrder(ticker, book, r, tradeId);
      && (e.updates == a.updates <==> !AddReaches(ticker, book, d.strays, r))
      && (!AddReaches(ticker, book, d.strays, r) ==>
            e.responses == a.responses && e.nextTradeId == a.nextTradeId && Parts(a.book, e.desk))
  {
    hide AddAsWritten, AddOrder, Parts, Cross, Reaches;
    if AddReaches(ticker, book, d.strays, r) {
      MessagesPart(linked, ticker, book, d, r, tradeId);
    } else {
      AddKeepsParts(linked, ticker, book, d, r, tradeId);
      CrossedParts(ticker, book, d, r, tradeId);
      AddTells(ticker, book, r, tradeId);
      AddTells(ticker, d.book, r, tradeId);
      AddOnDesk(linked, ticker, d, r, tradeId);
    }
  }

  lemma {:induction false} AddTells(ticker: TickerId, book: Book, r: BookRequest, tradeId: TradeId)
    requires r.Add?
    ensures var a, c := AddOrder(ticker, book, r, tradeId), CrossingOf(ticker, book, r, tradeId);
      && a.responses == [AcceptedResponse(TakerOf(ticker, r), r.quantity)] + c.responses
      && a.updates == c.updates
           + (if c.remaining == 0 then [] else [OrderUpdate(Added, ticker, RestOf(r, c.remaining))])
      && a.nextTradeId == c.nextTradeId
  {}

  lemma {:induction false} MessagesPart(linked: bool, ticker: TickerId, book: Book, d: Desk, r: BookRequest,
                                        tradeId: TradeId)
    requires Parts(book, d) && r.Add? && AddReaches(ticker, book, d.strays, r)
    ensures AddAsWritten(linked, ticker, d, r, tradeId).updates != AddOrder(ticker, book, r, tradeId).updates
  {
    hide AddAsWritten, AddOrder, Cross, Reaches, WellFormed, StrayOfBook;
    var other := book.At(!IsBuy(r.side));
    PartsSide(book, d, !IsBuy(r.side));
    var k := CrossPartsAt(TakerOf(ticker, r), r.quantity, other, d.strays, tradeId);
    AddTells(ticker, book, r, tradeId);
    AddTells(ticker, d.book, r, tradeId);
    AddOnDesk(linked, ticker, d, r, tradeId);
    var c, w := CrossingOf(ticker, book, r, tradeId), CrossingOf(ticker, d.book, r, tradeId);
    assert AddOrder(ticker, book, r, tradeId).updates[k] == c.updates[k];
  }

  // ----- one cancel

  lemma {:induction false} FindCons(o: Resting, s: seq<Resting>, price: Price, id: OrderId)
    ensures Find([o] + s, price, id) == if o.price == price && o.orderId == id then 0 else 1 + Find(s, price, id)
    ensures FindId([o] + s, id) == if o.orderId == id then 0 else 1 + FindId(s, id)
  {
    assert ([o] + s)[1..] == s;
  }

  lemma {:induction false} RemoveCons(o: Resting, s: seq<Resting>, k: nat)
    ensures RemoveAt([o] + s, 0) == s
    ensures k < |s| ==> RemoveAt([o] + s, k + 1) == [o] + RemoveAt(s, k)
  {}

  lemma {:induction false} NothingQueued(price: Price, id: OrderId)
    ensures Queue([], price) == [] && Find([], price, id) == 0 && FindId([], id) == 0
  {}

  /** The first order with an id at a price is the first with the id in the queue there. */
  lemma {:induction false} FindInQueue(s: seq<Resting>, price: Price, id: OrderId)
    ensures var k, q := Find(s, price, id), Queue(s, price);
      var f := FindId(q, id);
      && (k < |s| <==> f < |q|)
      && (k < |s| ==> s[k] == q[f])
  {
    hide Find, FindId, Queue;
    NothingQueued(price, id);
    if s != [] {
      FindInQueue(s[1..], price, id);
      assert s == [s[0]] + s[1..];
      QueueCons(s[0], s[1..], price);
      FindCons(s[0], s[1..], price, id);
      FindCons(s[0], Queue(s[1..], price), price, id);
    }
  }

  lemma {:induction false} RemoveFromQueue(s: seq<Resting>, price: Price, id: OrderId, p: Price)
    requires Find(s, price, id) < |s|
    ensures var k, q := Find(s, price, id), Queue(s, p);
      var f := FindId(q, id);
      if p == price then f < |q| && Queue(RemoveAt(s, k), p) == RemoveAt(q, f) else Queue(RemoveAt(s, k), p) == q
  {
    hide Find, FindId, Queue, RemoveAt;
    var o, rest := s[0], s[1..];
    var k := Find(rest, price, id);
    assert s == [o] + rest;
    FindCons(o, rest, price, id);
    FindCons(o, Queue(rest, p), price, id);
    QueueCons(o, rest, p);
    RemoveCons(o, rest, k);
    RemoveCons(o, Queue(rest, p), FindId(Queue(rest, p), id));
    if k < |rest| && !(o.price == price && o.orderId == id) {
      RemoveFromQueue(rest, price, id, p);
      QueueCons(o, RemoveAt(rest, k), p);
    }
  }

  lemma {:induction false} RemoveOnChains(s: seq<Resting>, price: Price, id: OrderId, strays: Strays)
    requires Find(s, price, id) < |s|
    ensures var k, w := Find(s, price, id), OnChains(s, strays);
      if price in strays then OnChains(RemoveAt(s, k), strays) == w
      else Find(w, price, id) < |w| && OnChains(RemoveAt(s, k), strays) == RemoveAt(w, Find(w, price, id))
  {
    hide Find, OnChains, RemoveAt;
    var o, rest := s[0], s[1..];
    var k, w := Find(rest, price, id), OnChains(rest, strays);
    assert s == [o] + rest;
    FindCons(o, rest, price, id);
    FindCons(o, w, price, id);
    OnChainsCons(o, rest, strays);
    RemoveCons(o, rest, k);
    RemoveCons(o, w, Find(w, price, id));
    if k < |rest| && !(o.price == price && o.orderId == id) {
      RemoveOnChains(rest, price, id, strays);
      OnChainsCons(o, RemoveAt(rest, k), strays);
    }
  }

  /** Where the reference finds an order, the code as written finds the same. */
  lemma {:induction false} SameFound(book: Book, d: Desk, price: Price, id: OrderId)
    requires Parts(book, d)
    ensures var b, a := Find(book.bids, price, id), Find(book.asks, price, id);
      TakenOut(d, price, id).order
      == if b < |book.bids| then Some(book.bids[b]) else if a < |book.asks| then Some(book.asks[a]) else None
  {
    hide WellFormed, Find, FindId, OnChains, Queue;
    FindInQueue(book.bids, price, id);
    FindInQueue(book.asks, price, id);
    if price in d.strays {
      var s := d.strays[price];
      assert StrayOfBook(book, price, s);
      QueueIsNone(book.At(!s.buy), price);
      FindIdIs([], id, 0);
    } else {
      OnChainsKeepsPrices(book.bids, d.strays, price);
      OnChainsKeepsPrices(book.asks, d.strays, price);
      FindInQueue(d.book.bids, price, id);
      FindInQueue(d.book.asks, price, id);
    }
  }

  /** The side that loses an order, and what is stranded, are parts of the reference again. */
  lemma {:induction false} RemovedParts(book: Book, d: Desk, buy: bool, price: Price, id: OrderId)
    requires Parts(book, d) && Find(book.At(buy), price, id) < |book.At(buy)| && !HasPrice(book.At(!buy), price)
    requires WellFormed(book.With(buy, RemoveAt(book.At(buy), Find(book.At(buy), price, id))))
    ensures Parts(book.With(buy, RemoveAt(book.At(buy), Find(book.At(buy), price, id))), TakenOut(d, price, id).desk)
  {
    hide WellFormed, Find, FindId, OnChains, Queue, RemoveAt, StrayOfBook, HasPrice;
    var own, k := book.At(buy), Find(book.At(buy), price, id);
    var after, t := book.With(buy, RemoveAt(own, k)), TakenOut(d, price, id).desk;
    RemoveOnChains(own, price, id, d.strays);
    FindInQueue(own, price, id);
    if price in d.strays {
      RemovedFromStray(book, d, buy, price, id);
    } else {
      FoundOnChain(book, d, buy, price, id);
    }
    forall p | p in t.strays && p != price ensures StrayOfBook(after, p, t.strays[p]) {
      assert StrayOfBook(book, p, d.strays[p]);
      OtherStrayStays(book, d, buy, price, id, p);
    }
  }

  lemma {:induction false} OtherStrayStays(book: Book, d: Desk, buy: bool, price: Price, id: OrderId, p: Price)
    requires Find(book.At(buy), price, id) < |book.At(buy)| && p in d.strays && p != price
    requires StrayOfBook(book, p, d.strays[p])
    ensures StrayOfBook(book.With(buy, RemoveAt(book.At(buy), Find(book.At(buy), price, id))), p, d.strays[p])
  {
    hide Find, Queue, RemoveAt, HasPrice;
    var own, k := book.At(buy), Find(book.At(buy), price, id);
    RemoveFromQueue(own, price, id, p);
    QueueIsNone(own, p);
    QueueIsNone(RemoveAt(own, k), p);
  }

  /** An order of a chain leaves the chain where it leaves the book. */
  lemma {:induction false} FoundOnChain(book: Book, d: Desk, buy: bool, price: Price, id: OrderId)
    requires Parts(book, d) && Find(book.At(buy), price, id) < |book.At(buy)| && price !in d.strays
    requires !HasPrice(book.At(!buy), price)
    ensures var w := d.book.At(buy);
      && Find(w, price, id) < |w|
      && TakenOut(d, price, id).desk == d.(book := d.book.With(buy, RemoveAt(w, Find(w, price, id))))
  {
    hide WellFormed, Find, FindId, OnChains, Queue, RemoveAt, StrayOfBook;
    PartsSides(book, d);
    RemoveOnChains(book.At(buy), price, id, d.strays);
    OnChainsKeepsPrices(book.At(!buy), d.strays, price);
    NotFound(d.book.At(!buy), price, id);
  }

  lemma {:induction false} NotFound(s: seq<Resting>, price: Price, id: OrderId)
    requires !HasPrice(s, price)
    ensures Find(s, price, id) == |s|
  {
    if Find(s, price, id) < |s| {
      assert false;
    }
  }

  lemma {:induction false} PartsSides(book: Book, d: Desk)
    requires Parts(book, d)
    ensures forall buy: bool :: d.book.At(buy) == OnChains(book.At(buy), d.strays)
  {}

  /** An order of a stranded level leaves that level as it leaves the level of the book. */
  lemma {:induction false} RemovedFromStray(book: Book, d: Desk, buy: bool, price: Price, id: OrderId)
    requires Parts(book, d) && Find(book.At(buy), price, id) < |book.At(buy)| && price in d.strays
    requires !HasPrice(book.At(!buy), price)
    ensures var after := book.With(buy, RemoveAt(book.At(buy), Find(book.At(buy), price, id)));
      var t := TakenOut(d, price, id).desk;
      && t.book == d.book
      && (price in t.strays ==> StrayOfBook(after, price, t.strays[price]))
      && (forall p :: p in t.strays ==> p in d.strays && (p != price ==> t.strays[p] == d.strays[p]))
      && OnChains(after.bids, t.strays) == d.book.bids
      && OnChains(after.asks, t.strays) == d.book.asks
  {
    hide WellFormed, Find, FindId, OnChains, Queue, HasPrice;
    var own, k, s := book.At(buy), Find(book.At(buy), price, id), d.strays[price];
    var after, t := book.With(buy, RemoveAt(own, k)), TakenOut(d, price, id).desk;
    assert StrayOfBook(book, price, s);
    FindInQueue(own, price, id);
    QueueIsNone(own, price);
    QueueIsNone(book.At(!buy), price);
    assert s.buy == buy;
    RemoveFromQueue(own, price, id, price);
    RemoveOnChains(own, price, id, d.strays);
    QueueIsNone(RemoveAt(own, k), price);
    if |s.orders| == 1 {
      OnChainsLess(after.bids, d.strays, price);
      OnChainsLess(after.asks, d.strays, price);
    } else {
      var s' := s.(orders := RemoveAt(s.orders, FindId(s.orders, id)));
      OnChainsWithout(after.bids, d.strays, price, s');
      OnChainsWithout(after.asks, d.strays, price, s');
    }
  }

  /** A cancel always tells what the reference tells, and leaves the desk a part of the reference book. */
  lemma {:induction false} CancelInStep(ticker: TickerId, book: Book, d: Desk, r: BookRequest, tradeId: TradeId)
    requires Parts(book, d) && r.Cancel?
    ensures var e, a := CancelAsWritten(ticker, d, r, tradeId), CancelOrder(ticker, book, r, tradeId);
      && e.responses == a.responses && e.updates == a.updates && e.nextTradeId == a.nextTradeId
      && Parts(a.book, e.desk)
  {
    hide Parts, Find, FindId, TakenOut, RemoveAt, WellFormed;
    var b, a := Find(book.bids, r.price, r.orderId), Find(book.asks, r.price, r.orderId);
    SameFound(book, d, r.price, r.orderId);
    SoundBook(book, d);
    CancelKeepsWellFormed(ticker, book, r, tradeId);
    if b < |book.bids| {
      OneSideHasPrice(book, true, b);
      RemovedParts(book, d, true, r.price, r.orderId);
    } else if a < |book.asks| {
      OneSideHasPrice(book, false, a);
      RemovedParts(book, d, false, r.price, r.orderId);
    } else {
      NothingOut(book, d, r.price, r.orderId);
    }
  }

  lemma {:induction false} SoundBook(book: Book, d: Desk)
    requires Parts(book, d)
    ensures WellFormed(book)
  {}

  lemma {:induction false} OneSideHasPrice(book: Book, buy: bool, k: nat)
    requires WellFormed(book) && k < |book.At(buy)|
    ensures !HasPrice(book.At(!buy), book.At(buy)[k].price)
  {}

  lemma {:induction false} NothingOut(book: Book, d: Desk, price: Price, id: OrderId)
    requires Parts(book, d) && TakenOut(d, price, id).order == None
    ensures TakenOut(d, price, id).desk == d
  {}

  // ----- runs

  /** Both have told the same so far, request by request. */
  ghost predicate InStep(linked: bool, ticker: TickerId, book: Book, d: Desk, rs: seq<BookRequest>, tradeId: TradeId)
    decreases |rs|
  {
    rs == [] ||
    (var a, e := Step(ticker, book, rs[0], tradeId), StepAsWritten(linked, ticker, d, rs[0], tradeId);
     && a.updates == e.updates && a.responses == e.responses
     && InStep(linked, ticker, a.book, e.desk, rs[1..], a.nextTradeId))
  }

  /** No taker of the run comes, in the reference book, to an order that is stranded by then. */
  ghost predicate NeverReaches(linked: bool, ticker: TickerId, book: Book, d: Desk, rs: seq<BookRequest>,
                               tradeId: TradeId)
    decreases |rs|
  {
    rs == [] ||
    (var a, e := Step(ticker, book, rs[0], tradeId), StepAsWritten(linked, ticker, d, rs[0], tradeId);
     && (rs[0].Add? ==> !AddReaches(ticker, book, d.strays, rs[0]))
     && NeverReaches(linked, ticker, a.book, e.desk, rs[1..], a.nextTradeId))
  }

  /**
   * The code as written tells its clients what the reference tells them, request by request, if and only
   * if no taker of the run comes to a stranded order in the reference book. Cancels never tell them apart.
   * As long as it does, the desk is the reference book with some levels moved outside the chains.
   */
  lemma {:induction false} RunInStep(linked: bool, ticker: TickerId, book: Book, d: Desk, rs: seq<BookRequest>,
                                     tradeId: TradeId)
    requires Parts(book, d)
    ensures InStep(linked, ticker, book, d, rs, tradeId) <==> NeverReaches(linked, ticker, book, d, rs, tradeId)
    ensures NeverReaches(linked, ticker, book, d, rs, tradeId) ==>
      var a, e := Run(ticker, book, rs, tradeId), RunAsWritten(linked, ticker, d, rs, tradeId);
      a.responses == e.responses && a.updates == e.updates && a.nextTradeId == e.nextTradeId && Parts(a.book, e.desk)
    decreases |rs|
  {
    if rs != [] {
      hide Parts, Step, StepAsWritten, AddReaches;
      StepInStep(linked, ticker, book, d, rs[0], tradeId);
      var a, e := Step(ticker, book, rs[0], tradeId), StepAsWritten(linked, ticker, d, rs[0], tradeId);
      if !(rs[0].Add? && AddReaches(ticker, book, d.strays, rs[0])) {
        RunInStep(linked, ticker, a.book, e.desk, rs[1..], a.nextTradeId);
      }
    }
  }

  lemma {:induction false} StepInStep(linked: bool, ticker: TickerId, book: Book, d: Desk, r: BookRequest,
                                      tradeId: TradeId)
    requires Parts(book, d)
    ensures var a, e := Step(ticker, book, r, tradeId), StepAsWritten(linked, ticker, d, r, tradeId);
      var reaches := r.Add? && AddReaches(ticker, book, d.strays, r);
      && (a.updates == e.updates <==> !reaches)
      && (!reaches ==> a.responses == e.responses && a.nextTradeId == e.nextTradeId && Parts(a.book, e.desk))
  {
    hide Parts, AddAsWritten, AddOrder, CancelAsWritten, CancelOrder, AddReaches;
    if r.Add? {
      AddInStep(linked, ticker, book, d, r, tradeId);
    } else {
      CancelInStep(ticker, book, d, r, tradeId);
    }
  }
}
