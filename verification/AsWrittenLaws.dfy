/**
 * Laws of the code as written, with whatever is stranded: the chains stay sound, quantities are
 * conserved, and the market data describe the stranded orders as if they could trade.
 */
module AsWrittenLaws {
  import opened Types
  import opened Matching
  import opened BookLaws
  import opened Conservation
  import opened MarketData
  import opened AsWritten

  // ----- the invariant of a desk

  /** No chain has the price. */
  predicate OffTheChains(book: Book, price: Price) {
    !HasPrice(book.bids, price) && !HasPrice(book.asks, price)
  }

  predicate StraysApart(d: Desk) {
    forall p :: p in d.strays ==> OffTheChains(d.book, p) && Priced(p, d.strays[p].orders)
  }

  /** The chains are ordered, live and uncrossed, and the levels outside have prices of their own. */
  predicate SoundDesk(d: Desk) {
    WellFormed(d.book) && StraysApart(d)
  }

  function Crossed(ticker: TickerId, d: Desk, r: BookRequest, tradeId: TradeId): Desk
    requires r.Add?
  {
    d.(book := d.book.With(!IsBuy(r.side), CrossingOf(ticker, d.book, r, tradeId).opposite))
  }

  lemma {:induction false} CrossedIsWellFormed(ticker: TickerId, d: Desk, r: BookRequest, tradeId: TradeId)
    requires WellFormed(d.book) && r.Add?
    ensures WellFormed(Crossed(ticker, d, r, tradeId).book)
  {
    hide Ordered, Live, Uncrossed, Cross;
    var buy := IsBuy(r.side);
    var own, other := d.book.At(buy), d.book.At(!buy);
    var c := CrossingOf(ticker, d.book, r, tradeId);
    CrossLeavesSuffix(TakerOf(ticker, r), r.quantity, other, tradeId);
    SuffixKeepsOrder(!buy, other, c.opposite);
    assert EMPTY_BOOK.With(buy, own).With(!buy, other) == d.book;
    SuffixKeepsApart(buy, own, other, c.opposite);
  }

  /** Crossing adds no price, and leaves nothing at the limit of a taker that is not filled. */
  lemma {:induction false} CrossedPrices(ticker: TickerId, d: Desk, r: BookRequest, tradeId: TradeId)
    requires WellFormed(d.book) && r.Add?
    ensures forall p: Price :: OffTheChains(d.book, p) ==> OffTheChains(Crossed(ticker, d, r, tradeId).book, p)
    ensures var c := CrossingOf(ticker, d.book, r, tradeId);
      c.remaining != 0 ==> !HasPrice(c.opposite, r.price)
  {
    hide Uncrossed, Cross;
    var buy, t := IsBuy(r.side), TakerOf(ticker, r);
    var other, c := d.book.At(!buy), CrossingOf(ticker, d.book, r, tradeId);
    CrossLeavesSuffix(t, r.quantity, other, tradeId);
    SuffixKeepsOrder(!buy, other, c.opposite);
    if c.remaining != 0 { NotAcceptableNotThere(t, c.opposite); }
  }

  lemma {:induction false} CrossedIsSound(ticker: TickerId, d: Desk, r: BookRequest, tradeId: TradeId)
    requires SoundDesk(d) && r.Add?
    ensures SoundDesk(Crossed(ticker, d, r, tradeId))
  {
    hide WellFormed, OffTheChains, Priced;
    CrossedIsWellFormed(ticker, d, r, tradeId);
    CrossedPrices(ticker, d, r, tradeId);
  }

  lemma {:induction false} InsertHasPrice(buy: bool, own: seq<Resting>, o: Resting, price: Price)
    requires Ordered(buy, own)
    ensures HasPrice(Insert(buy, own, o), price) <==> o.price == price || HasPrice(own, price)
  {
    var k := InsertSplits(buy, own, o);
    var s := Insert(buy, own, o);
    assert s[k] == o;
    if i :| 0 <= i < |own| && own[i].price == price {
      assert s[if i < k then i else i + 1] == own[i];
    }
  }

  /** Where the remainder rests does not depend on the crossing before it. */
  lemma {:induction false} AddOnDesk(linked: bool, ticker: TickerId, d: Desk, r: BookRequest, tradeId: TradeId)
    requires r.Add?
    ensures var e, a, c := AddAsWritten(linked, ticker, d, r, tradeId), AddOrder(ticker, d.book, r, tradeId),
                           CrossingOf(ticker, d.book, r, tradeId);
      var x, o := Crossed(ticker, d, r, tradeId), RestOf(r, c.remaining);
      && e.responses == a.responses && e.updates == a.updates && e.nextTradeId == a.nextTradeId
      && (c.remaining == 0 ==> e.desk == x && a.book == x.book && a.updates == c.updates)
      && (c.remaining != 0 ==>
            && a.updates == c.updates + [OrderUpdate(Added, ticker, o)]
            && a.book == x.book.With(IsBuy(r.side), Insert(IsBuy(r.side), d.book.At(IsBuy(r.side)), o))
            && e.desk == if Strands(linked, d, r) then x.(strays := d.strays[r.price := Stranding(x, o)])
                         else x.(book := a.book))
  {}

  lemma {:induction false} AddKeepsSound(linked: bool, ticker: TickerId, d: Desk, r: BookRequest, tradeId: TradeId)
    requires SoundDesk(d) && r.Add?
    ensures SoundDesk(AddAsWritten(linked, ticker, d, r, tradeId).desk)
  {
    hide AddAsWritten, AddOrder, WellFormed, Insert, Cross, NeedsNoLink;
    var e, x := AddAsWritten(linked, ticker, d, r, tradeId).desk, Crossed(ticker, d, r, tradeId);
    var c, buy := CrossingOf(ticker, d.book, r, tradeId), IsBuy(r.side);
    var own, o := d.book.At(buy), RestOf(r, c.remaining);
    AddOnDesk(linked, ticker, d, r, tradeId);
    CrossedIsSound(ticker, d, r, tradeId);
    CrossedPrices(ticker, d, r, tradeId);
    AddKeepsWellFormed(ticker, d.book, r, tradeId);
    if c.remaining != 0 && !Strands(linked, d, r) {
      OrderedSide(d.book, buy);
      forall p | p in d.strays ensures OffTheChains(e.book, p) {
        assert OffTheChains(x.book, p);
        InsertHasPrice(buy, own, o, p);
      }
    } else if c.remaining != 0 {
      StrandingApart(linked, d, x, r, o);
    }
  }

  lemma {:induction false} OrderedSide(book: Book, buy: bool)
    requires WellFormed(book)
    ensures Ordered(buy, book.At(buy))
  {}

  lemma {:induction false} StrandingApart(linked: bool, d: Desk, x: Desk, r: BookRequest, o: Resting)
    requires r.Add? && StraysApart(x) && x.strays == d.strays && Strands(linked, d, r)
    requires x.book.At(IsBuy(r.side)) == d.book.At(IsBuy(r.side)) && !HasPrice(x.book.At(!IsBuy(r.side)), r.price)
    requires o.price == r.price && o.quantity > 0
    ensures OffTheChains(x.book, r.price)
    ensures StraysApart(x.(strays := d.strays[r.price := Stranding(x, o)]))
  {}

  lemma {:induction false} CancelKeepsSound(ticker: TickerId, d: Desk, r: BookRequest, tradeId: TradeId)
    requires SoundDesk(d) && r.Cancel?
    ensures SoundDesk(CancelAsWritten(ticker, d, r, tradeId).desk)
  {
    hide WellFormed;
    if r.price !in d.strays {
      CancelOnChains(ticker, d, r, tradeId);
      CancelKeepsWellFormed(ticker, d.book, r, tradeId);
      forall p | p in d.strays ensures OffTheChains(CancelOrder(ticker, d.book, r, tradeId).book, p) {
        CancelAddsNoPrice(ticker, d.book, r, tradeId, p);
      }
    }
  }

  lemma {:induction false} CancelOnChains(ticker: TickerId, d: Desk, r: BookRequest, tradeId: TradeId)
    requires r.Cancel? && r.price !in d.strays
    ensures var e, a := CancelAsWritten(ticker, d, r, tradeId), CancelOrder(ticker, d.book, r, tradeId);
      e == DeskOutcome(d.(book := a.book), a.responses, a.updates, a.nextTradeId)
  {}

  lemma {:induction false} CancelAddsNoPrice(ticker: TickerId, book: Book, r: BookRequest, tradeId: TradeId,
                                             price: Price)
    requires r.Cancel? && OffTheChains(book, price)
    ensures OffTheChains(CancelOrder(ticker, book, r, tradeId).book, price)
  {}

  lemma {:induction false} StepKeepsSound(linked: bool, ticker: TickerId, d: Desk, r: BookRequest, tradeId: TradeId)
    requires SoundDesk(d)
    ensures SoundDesk(StepAsWritten(linked, ticker, d, r, tradeId).desk)
  {
    if r.Add? {
      AddKeepsSound(linked, ticker, d, r, tradeId);
    } else {
      CancelKeepsSound(ticker, d, r, tradeId);
    }
  }

  // ----- when a desk becomes crossed

  predicate HasSide(s: seq<Resting>, buy: bool) {
    exists i :: 0 <= i < |s| && IsBuy(s[i].side) == buy
  }

  /** An order of this side rests at this price, on a chain or outside. */
  predicate RestsAt(d: Desk, buy: bool, price: Price) {
    HasPrice(d.book.At(buy), price) || (price in d.strays && HasSide(d.strays[price].orders, buy))
  }

  /** Two orders at rest that should have traded with each other. */
  ghost predicate CrossedDesk(d: Desk) {
    exists bid: Price, ask: Price :: RestsAt(d, true, bid) && RestsAt(d, false, ask) && bid >= ask
  }

  /** A level outside the chains holds an order that a taker of this side and limit should have met. */
  predicate MissesStray(d: Desk, buy: bool, limit: Price) {
    exists p :: p in d.strays && HasSide(d.strays[p].orders, !buy) && Acceptable(buy, limit, p)
  }

  /** After an add there rests what rested before, at most, and the remainder; the stranded all stay. */
  lemma {:induction false} RestsAfterAdd(linked: bool, ticker: TickerId, d: Desk, r: BookRequest, tradeId: TradeId,
                                         buy: bool, price: Price)
    requires SoundDesk(d) && r.Add?
    ensures var e := AddAsWritten(linked, ticker, d, r, tradeId).desk;
      var c := CrossingOf(ticker, d.book, r, tradeId);
      var added := c.remaining != 0 && buy == IsBuy(r.side) && price == r.price;
      && (RestsAt(e, buy, price) ==> RestsAt(d, buy, price) || added)
      && (added ==> RestsAt(e, buy, price))
      && (price in d.strays && HasSide(d.strays[price].orders, buy) ==> RestsAt(e, buy, price))
      && (c.remaining != 0 && buy != IsBuy(r.side) && HasPrice(e.book.At(buy), price) ==>
            !Acceptable(!buy, r.price, price))
  {
    hide AddAsWritten, AddOrder, Insert, Cross, NeedsNoLink, Ordered, Live, Uncrossed;
    var own, c := d.book.At(IsBuy(r.side)), CrossingOf(ticker, d.book, r, tradeId);
    AddOnDesk(linked, ticker, d, r, tradeId);
    CrossedSide(ticker, d, r, tradeId, price);
    if c.remaining != 0 {
      var o := RestOf(r, c.remaining);
      InsertHasPrice(IsBuy(r.side), own, o, price);
      StrandingSides(Crossed(ticker, d, r, tradeId), o);
    }
  }

  /** The opposite side after crossing, at one price. */
  lemma {:induction false} CrossedSide(ticker: TickerId, d: Desk, r: BookRequest, tradeId: TradeId, price: Price)
    requires SoundDesk(d) && r.Add?
    ensures var c, other := CrossingOf(ticker, d.book, r, tradeId), d.book.At(!IsBuy(r.side));
      && (HasPrice(c.opposite, price) ==> HasPrice(other, price))
      && (c.remaining != 0 && HasPrice(c.opposite, price) ==> !Acceptable(IsBuy(r.side), r.price, price))
  {
    hide Cross, Uncrossed, StraysApart;
    var buy, t := IsBuy(r.side), TakerOf(ticker, r);
    var c, other := CrossingOf(ticker, d.book, r, tradeId), d.book.At(!buy);
    CrossLeavesSuffix(t, r.quantity, other, tradeId);
    SuffixKeepsOrder(!buy, other, c.opposite);
    if i :| 0 <= i < |c.opposite| && c.opposite[i].price == price {
      assert other[i + |other| - |c.opposite|].price == price;
      assert i == 0 || !Ahead(!buy, c.opposite[i].price, c.opposite[0].price);
    }
  }

  lemma {:induction false} StrandingSides(d: Desk, o: Resting)
    ensures var s, s' := if o.price in d.strays then d.strays[o.price].orders else [], Stranding(d, o).orders;
      && s' == s + [o]
      && forall buy :: HasSide(s', buy) <==> HasSide(s, buy) || IsBuy(o.side) == buy
  {
    var s := if o.price in d.strays then d.strays[o.price].orders else [];
    assert (s + [o])[|s|] == o;
    forall buy: bool | HasSide(s, buy) ensures HasSide(s + [o], buy) {
      var i :| 0 <= i < |s| && IsBuy(s[i].side) == buy;
      assert (s + [o])[i] == s[i];
    }
  }

  /** A cancel lets nothing rest that did not rest before. */
  lemma {:induction false} RestsAfterCancel(ticker: TickerId, d: Desk, r: BookRequest, tradeId: TradeId, buy: bool,
                                            price: Price)
    requires r.Cancel?
    ensures RestsAt(CancelAsWritten(ticker, d, r, tradeId).desk, buy, price) ==> RestsAt(d, buy, price)
  {}

  /**
   * Exactly when a request crosses a desk: an add of which something rests, where a stranded order of
   * the other side has a price that the add accepts. With the link nothing is stranded, so it never does.
   */
  lemma {:induction false} CrossesExactly(linked: bool, ticker: TickerId, d: Desk, r: BookRequest, tradeId: TradeId)
    requires SoundDesk(d) && !CrossedDesk(d)
    ensures CrossedDesk(StepAsWritten(linked, ticker, d, r, tradeId).desk)
      <==> r.Add? && CrossingOf(ticker, d.book, r, tradeId).remaining != 0 && MissesStray(d, IsBuy(r.side), r.price)
  {
    hide AddAsWritten, CancelAsWritten, SoundDesk, RestsAt, HasSide, Cross;
    var e := StepAsWritten(linked, ticker, d, r, tradeId).desk;
    if r.Cancel? {
      forall buy: bool, p: Price ensures RestsAt(e, buy, p) ==> RestsAt(d, buy, p) {
        RestsAfterCancel(ticker, d, r, tradeId, buy, p);
      }
    } else {
      AddCrossesExactly(linked, ticker, d, r, tradeId);
    }
  }

  lemma {:induction false} AddCrossesExactly(linked: bool, ticker: TickerId, d: Desk, r: BookRequest,
                                             tradeId: TradeId)
    requires SoundDesk(d) && !CrossedDesk(d) && r.Add?
    ensures CrossedDesk(AddAsWritten(linked, ticker, d, r, tradeId).desk)
      <==> CrossingOf(ticker, d.book, r, tradeId).remaining != 0 && MissesStray(d, IsBuy(r.side), r.price)
  {
    hide AddAsWritten, SoundDesk, HasSide, Cross, RestsAt;
    var buy, e := IsBuy(r.side), AddAsWritten(linked, ticker, d, r, tradeId).desk;
    var c := CrossingOf(ticker, d.book, r, tradeId);
    if c.remaining != 0 && MissesStray(d, buy, r.price) {
      var p :| p in d.strays && HasSide(d.strays[p].orders, !buy) && Acceptable(buy, r.price, p);
      RestsAfterAdd(linked, ticker, d, r, tradeId, !buy, p);
      RestsAfterAdd(linked, ticker, d, r, tradeId, buy, r.price);
      assert RestsAt(e, !buy, p) && RestsAt(e, buy, r.price);
    } else if CrossedDesk(e) {
      var bid: Price, ask: Price :| RestsAt(e, true, bid) && RestsAt(e, false, ask) && bid >= ask;
      RestsAfterAdd(linked, ticker, d, r, tradeId, true, bid);
      RestsAfterAdd(linked, ticker, d, r, tradeId, false, ask);
      StaysOnChain(linked, ticker, d, r, tradeId, if buy then ask else bid);
      assert false;
    }
  }

  /** What rests on the other side after an add with a remainder is stranded, or not acceptable to it. */
  lemma {:induction false} StaysOnChain(linked: bool, ticker: TickerId, d: Desk, r: BookRequest, tradeId: TradeId,
                                        price: Price)
    requires SoundDesk(d) && r.Add?
    requires RestsAt(AddAsWritten(linked, ticker, d, r, tradeId).desk, !IsBuy(r.side), price)
    requires CrossingOf(ticker, d.book, r, tradeId).remaining != 0 && Acceptable(IsBuy(r.side), r.price, price)
    ensures MissesStray(d, IsBuy(r.side), r.price)
  {
    hide AddAsWritten, SoundDesk, HasSide, Cross;
    RestsAfterAdd(linked, ticker, d, r, tradeId, !IsBuy(r.side), price);
    OnlyOwnSideRests(linked, ticker, d, r, tradeId, price);
  }

  lemma {:induction false} OnlyOwnSideRests(linked: bool, ticker: TickerId, d: Desk, r: BookRequest,
                                            tradeId: TradeId, price: Price)
    requires r.Add?
    ensures var e := AddAsWritten(linked, ticker, d, r, tradeId).desk;
      price in e.strays && HasSide(e.strays[price].orders, !IsBuy(r.side)) ==>
        price in d.strays && HasSide(d.strays[price].orders, !IsBuy(r.side))
  {
    hide AddAsWritten, AddOrder, Cross, Stranding;
    var c := CrossingOf(ticker, d.book, r, tradeId);
    AddOnDesk(linked, ticker, d, r, tradeId);
    if c.remaining != 0 {
      StrandingSides(Crossed(ticker, d, r, tradeId), RestOf(r, c.remaining));
    }
  }

  /**
   * At the very price of a stranded order of the other side, the remainder is put behind it instead of
   * trading with it: then both sides rest at one price, on one level.
   */
  lemma {:induction false} BothSidesAtOnePrice(linked: bool, ticker: TickerId, d: Desk, r: BookRequest,
                                               tradeId: TradeId)
    requires SoundDesk(d) && r.Add? && r.price in d.strays && HasSide(d.strays[r.price].orders, !IsBuy(r.side))
    requires CrossingOf(ticker, d.book, r, tradeId).remaining != 0
    ensures var e := AddAsWritten(linked, ticker, d, r, tradeId).desk;
      && r.price in e.strays && d.strays[r.price].orders < e.strays[r.price].orders
      && HasSide(e.strays[r.price].orders, true) && HasSide(e.strays[r.price].orders, false)
      && OffTheChains(e.book, r.price) && CrossedDesk(e)
  {
    hide AddAsWritten, AddOrder, Cross, WellFormed, HasSide;
    var e, x := AddAsWritten(linked, ticker, d, r, tradeId).desk, Crossed(ticker, d, r, tradeId);
    var o := RestOf(r, CrossingOf(ticker, d.book, r, tradeId).remaining);
    AddOnDesk(linked, ticker, d, r, tradeId);
    AddKeepsSound(linked, ticker, d, r, tradeId);
    StrandingSides(x, o);
    assert e.strays[r.price].orders == d.strays[r.price].orders + [o];
    assert RestsAt(e, true, r.price) && RestsAt(e, false, r.price);
  }

  // ----- conservation

  /** The quantity that the order `id` has on levels outside the chains. */
  ghost function InStrays(m: Strays, id: OrderId): nat {
    if m == map[] then 0
    else
      var p :| p in m;
      Quantities(m[p].orders, id) + InStrays(m - {p}, id)
  }

  ghost function OnDesk(d: Desk, id: OrderId): nat {
    InBook(d.book, id) + InStrays(d.strays, id)
  }

  /** The sum does not depend on the order in which the levels are visited. */
  lemma {:induction false} InStraysSplits(m: Strays, price: Price, id: OrderId)
    requires price in m
    ensures InStrays(m, id) == Quantities(m[price].orders, id) + InStrays(m - {price}, id)
    decreases |m|
  {
    var p :| p in m && InStrays(m, id) == Quantities(m[p].orders, id) + InStrays(m - {p}, id);
    if p != price {
      InStraysSplits(m - {p}, price, id);
      InStraysSplits(m - {price}, p, id);
      assert m - {p} - {price} == m - {price} - {p};
    }
  }

  lemma {:induction false} InStraysWith(m: Strays, price: Price, s: Stray, id: OrderId)
    ensures InStrays(m[price := s], id) + (if price in m then Quantities(m[price].orders, id) else 0)
         == InStrays(m, id) + Quantities(s.orders, id)
  {
    InStraysSplits(m[price := s], price, id);
    assert m[price := s] - {price} == m - {price};
    if price in m {
      InStraysSplits(m, price, id);
    } else {
      assert m - {price} == m;
    }
  }

  /** `Conserves` with what is stranded counted in. */
  ghost predicate ConservesDesk(before: Desk, e: DeskOutcome, id: OrderId) {
    && Told(e.responses, Accepted, id) + OnDesk(before, id)
       == Told(e.responses, Filled, id) + Told(e.responses, Canceled, id) + OnDesk(e.desk, id)
    && FilledOn(e.responses, true, None) == FilledOn(e.responses, false, None) == Volume(e.updates)
  }

  lemma {:induction false} OneQuantity(o: Resting, id: OrderId)
    ensures Quantities([o], id) == if o.orderId == id then o.quantity else 0
  {
    assert [o][1..] == [];
  }

  lemma {:induction false} StrandingQuantities(d: Desk, o: Resting, id: OrderId)
    ensures InStrays(d.strays[o.price := Stranding(d, o)], id) == InStrays(d.strays, id) + Quantities([o], id)
  {
    InStraysWith(d.strays, o.price, Stranding(d, o), id);
    if o.price in d.strays {
      QuantitiesConcat(d.strays[o.price].orders, [o], id);
    }
  }

  lemma {:induction false} AddConservesDesk(linked: bool, ticker: TickerId, d: Desk, r: BookRequest, tradeId: TradeId,
                                            id: OrderId)
    requires SoundDesk(d) && r.Add?
    ensures ConservesDesk(d, AddAsWritten(linked, ticker, d, r, tradeId), id)
  {
    hide AddAsWritten, AddOrder, WellFormed, Insert, Cross, NeedsNoLink, Quantities, Told, FilledOn, Volume, Stranding;
    var buy, c := IsBuy(r.side), CrossingOf(ticker, d.book, r, tradeId);
    AddOnDesk(linked, ticker, d, r, tradeId);
    AddConserves(ticker, d.book, r, tradeId, id);
    if c.remaining != 0 && Strands(linked, d, r) {
      var x, o := Crossed(ticker, d, r, tradeId), RestOf(r, c.remaining);
      StrandingQuantities(x, o, id);
      InsertQuantities(buy, d.book.At(buy), o, id);
      OneQuantity(o, id);
    }
  }

  lemma {:induction false} CancelConservesDesk(ticker: TickerId, d: Desk, r: BookRequest, tradeId: TradeId, id: OrderId)
    requires SoundDesk(d) && r.Cancel?
    ensures ConservesDesk(d, CancelAsWritten(ticker, d, r, tradeId), id)
  {
    if r.price !in d.strays {
      CancelOnChains(ticker, d, r, tradeId);
      CancelConserves(ticker, d.book, r, tradeId, id);
    } else {
      var s := d.strays[r.price];
      var k := FindId(s.orders, r.orderId);
      if k < |s.orders| {
        RemoveQuantities(s.orders, k, id);
        InStraysSplits(d.strays, r.price, id);
        InStraysWith(d.strays, r.price, s.(orders := RemoveAt(s.orders, k)), id);
      }
    }
  }

  // ----- market data

  /** What a subscriber sees at a price, be it on a chain or outside. */
  function DeskDepthAt(d: Desk, price: Price): seq<Entry> {
    if price in d.strays then AtPrice(d.strays[price].orders, price) else DepthAt(d.book, price)
  }

  ghost predicate MirrorsDesk(feed: Feed, d: Desk) {
    forall price: Price :: QueueAt(feed, price) == DeskDepthAt(d, price)
  }

  /** A price of the feed depends on nothing but the feed at this price. */
  lemma {:induction false} ReplayAt(feed: Feed, other: Feed, us: seq<MarketUpdate>, price: Price)
    requires QueueAt(feed, price) == QueueAt(other, price)
    ensures QueueAt(Replay(feed, us), price) == QueueAt(Replay(other, us), price)
    decreases |us|
  {
    if us != [] {
      ReplayAt(Apply(feed, us[0]), Apply(other, us[0]), us[1..], price);
    }
  }

  predicate Elsewhere(us: seq<MarketUpdate>, price: Price) {
    forall i :: 0 <= i < |us| ==> us[i].price != price
  }

  lemma {:induction false} ReplayElsewhere(feed: Feed, us: seq<MarketUpdate>, price: Price)
    requires Elsewhere(us, price)
    ensures QueueAt(Replay(feed, us), price) == QueueAt(feed, price)
    decreases |us|
  {
    if us != [] {
      ReplayElsewhere(Apply(feed, us[0]), us[1..], price);
    }
  }

  /** Trades happen at the prices of the makers. */
  lemma {:induction false} CrossPrices(t: Taker, quantity: Quantity, s: seq<Resting>, tradeId: TradeId, price: Price)
    requires !HasPrice(s, price)
    ensures Elsewhere(Cross(t, quantity, s, tradeId).updates, price)
    decreases |s|
  {
    if Trades(t, quantity, s) {
      var h := HitOf(t, quantity, s[0], tradeId);
      assert Elsewhere(h.updates, price) by {
        assert s[0].price != price;
      }
      if h.left.quantity == 0 {
        forall i | 0 <= i < |s| - 1 ensures s[1..][i].price != price {
          assert s[1..][i] == s[i + 1];
        }
        CrossPrices(t, h.remaining, s[1..], Next(tradeId), price);
      }
    }
  }

  /** The feed without the prices outside the chains shows the chains. */
  lemma {:induction false} ChainsAlone(feed: Feed, d: Desk)
    requires MirrorsDesk(feed, d) && StraysApart(d)
    ensures Mirrors(feed - d.strays.Keys, d.book)
  {
    hide AtPrice;
    var chains := feed - d.strays.Keys;
    forall price: Price ensures QueueAt(chains, price) == DepthAt(d.book, price) {
      assert QueueAt(feed, price) == DeskDepthAt(d, price);
      if price in d.strays {
        assert OffTheChains(d.book, price);
        NothingAt(d.book.bids, price);
        NothingAt(d.book.asks, price);
      }
    }
  }

  lemma {:induction false} AddDeskReplay(linked: bool, ticker: TickerId, d: Desk, r: BookRequest, tradeId: TradeId,
                                         feed: Feed)
    requires SoundDesk(d) && r.Add? && MirrorsDesk(feed, d)
    ensures var e := AddAsWritten(linked, ticker, d, r, tradeId);
      MirrorsDesk(Replay(feed, e.updates), e.desk)
  {
    hide AddAsWritten, AddOrder, WellFormed, Insert, Cross, NeedsNoLink, AtPrice, Replay, Apply, Mirrors;
    var e, a := AddAsWritten(linked, ticker, d, r, tradeId), AddOrder(ticker, d.book, r, tradeId);
    AddOnDesk(linked, ticker, d, r, tradeId);
    ChainsAlone(feed, d);
    AddReplay(ticker, d.book, r, tradeId, feed - d.strays.Keys);
    forall p: Price ensures QueueAt(Replay(feed, e.updates), p) == DeskDepthAt(e.desk, p) {
      assert QueueAt(feed, p) == DeskDepthAt(d, p);
      if p in d.strays {
        AddAtStray(linked, ticker, d, r, tradeId, feed, p);
      } else {
        ReplayAt(feed, feed - d.strays.Keys, e.updates, p);
        MirrorsAt(Replay(feed - d.strays.Keys, e.updates), a.book, p);
        AddOnChains(linked, ticker, d, r, tradeId, p);
      }
    }
  }

  lemma {:induction false} MirrorsAt(feed: Feed, book: Book, price: Price)
    requires Mirrors(feed, book)
    ensures QueueAt(feed, price) == DepthAt(book, price)
  {}

  /** An add, seen at a price where something is stranded already. */
  lemma {:induction false} AddAtStray(linked: bool, ticker: TickerId, d: Desk, r: BookRequest, tradeId: TradeId,
                                      feed: Feed, p: Price)
    requires SoundDesk(d) && r.Add? && p in d.strays && QueueAt(feed, p) == DeskDepthAt(d, p)
    ensures var e := AddAsWritten(linked, ticker, d, r, tradeId);
      QueueAt(Replay(feed, e.updates), p) == DeskDepthAt(e.desk, p)
  {
    hide AddAsWritten, AddOrder, WellFormed, Insert, Cross, NeedsNoLink;
    var buy, c := IsBuy(r.side), CrossingOf(ticker, d.book, r, tradeId);
    AddOnDesk(linked, ticker, d, r, tradeId);
    assert OffTheChains(d.book, p);
    CrossPrices(TakerOf(ticker, r), r.quantity, d.book.At(!buy), tradeId, p);
    ReplayElsewhere(feed, c.updates, p);
    if c.remaining != 0 {
      var o := RestOf(r, c.remaining);
      var u := OrderUpdate(Added, ticker, o);
      ReplayConcat(feed, c.updates, [u]);
      assert [u][1..] == [] && Replay(Replay(feed, c.updates), [u]) == Apply(Replay(feed, c.updates), u);
      AtPriceConcat(d.strays[p].orders, [o], p);
      AtPriceCons(o, [], p);
      assert [o] + [] == [o];
    }
  }

  /** An add, seen at any other price. */
  lemma {:induction false} AddOnChains(linked: bool, ticker: TickerId, d: Desk, r: BookRequest, tradeId: TradeId,
                                       p: Price)
    requires SoundDesk(d) && r.Add? && p !in d.strays
    ensures DeskDepthAt(AddAsWritten(linked, ticker, d, r, tradeId).desk, p)
         == DepthAt(AddOrder(ticker, d.book, r, tradeId).book, p)
  {
    hide AddAsWritten, AddOrder, WellFormed, Insert, Cross, NeedsNoLink, AtPrice;
    var buy, c := IsBuy(r.side), CrossingOf(ticker, d.book, r, tradeId);
    var own, o, x := d.book.At(buy), RestOf(r, c.remaining), Crossed(ticker, d, r, tradeId);
    AddOnDesk(linked, ticker, d, r, tradeId);
    if c.remaining != 0 && Strands(linked, d, r) {
      CrossedIsSound(ticker, d, r, tradeId);
      CrossedPrices(ticker, d, r, tradeId);
      OrderedSide(d.book, buy);
      InsertAtPrice(buy, own, o, p);
      if p == r.price {
        StrandingApart(linked, d, x, r, o);
        NothingAt(own, p);
        NothingAt(c.opposite, p);
        AtPriceCons(o, [], p);
        NothingAt([], p);
        assert [o] + [] == [o];
      }
    }
  }

  lemma {:induction false} FindInStray(s: Stray, price: Price, id: OrderId)
    requires Priced(price, s.orders)
    ensures Find(s.orders, price, id) == FindId(s.orders, id)
  {
    FindIdIs(s.orders, id, Find(s.orders, price, id));
  }

  lemma {:induction false} CancelDeskReplay(ticker: TickerId, d: Desk, r: BookRequest, tradeId: TradeId, feed: Feed)
    requires SoundDesk(d) && r.Cancel? && MirrorsDesk(feed, d)
    ensures var e := CancelAsWritten(ticker, d, r, tradeId);
      MirrorsDesk(Replay(feed, e.updates), e.desk)
  {
    var e := CancelAsWritten(ticker, d, r, tradeId);
    forall p: Price ensures QueueAt(Replay(feed, e.updates), p) == DeskDepthAt(e.desk, p) {
      assert QueueAt(feed, p) == DeskDepthAt(d, p);
      if r.price in d.strays {
        CancelAtStray(ticker, d, r, tradeId, feed, p);
      } else {
        CancelOnChains(ticker, d, r, tradeId);
        if p in d.strays {
          ReplayElsewhere(feed, e.updates, p);
        } else {
          ChainsAlone(feed, d);
          CancelReplay(ticker, d.book, r, tradeId, feed - d.strays.Keys);
          ReplayAt(feed, feed - d.strays.Keys, e.updates, p);
          MirrorsAt(Replay(feed - d.strays.Keys, e.updates), e.desk.book, p);
        }
      }
    }
  }

  /** A cancel on a level outside the chains, seen at any price. */
  lemma {:induction false} CancelAtStray(ticker: TickerId, d: Desk, r: BookRequest, tradeId: TradeId, feed: Feed,
                                         p: Price)
    requires SoundDesk(d) && r.Cancel? && r.price in d.strays && QueueAt(feed, p) == DeskDepthAt(d, p)
    ensures var e := CancelAsWritten(ticker, d, r, tradeId);
      QueueAt(Replay(feed, e.updates), p) == DeskDepthAt(e.desk, p)
  {
    hide WellFormed;
    var e, s := CancelAsWritten(ticker, d, r, tradeId), d.strays[r.price];
    var k := FindId(s.orders, r.orderId);
    FindInStray(s, r.price, r.orderId);
    if k < |s.orders| {
      var u := e.updates[0];
      assert e.updates[1..] == [] && Replay(feed, e.updates) == Apply(feed, u);
      RemoveAtPrice(s.orders, r.price, r.orderId, p);
      if |s.orders| == 1 {
        assert OffTheChains(d.book, r.price);
        NothingAt(d.book.bids, r.price);
        NothingAt(d.book.asks, r.price);
        assert RemoveAt(s.orders, k) == [];
      }
    }
  }

  // ----- whole runs

  /**
   * Every run that has a meaning, with the link or without it: the chains stay ordered, live and uncrossed,
   * what is accepted is filled, cancelled, resting or stranded, and the update stream takes a
   * mirror of everything before, stranded orders included, to a mirror of everything after.
   */
  lemma {:induction false} EveryRunAsWritten(linked: bool, ticker: TickerId, d: Desk, rs: seq<BookRequest>,
                                             tradeId: TradeId, feed: Feed, id: OrderId)
    requires SoundDesk(d) && MirrorsDesk(feed, d)
    ensures var e := RunAsWritten(linked, ticker, d, rs, tradeId);
      SoundDesk(e.desk) && ConservesDesk(d, e, id) && MirrorsDesk(Replay(feed, e.updates), e.desk)
    decreases |rs|
  {
    if rs != [] {
      hide SoundDesk, MirrorsDesk, StepAsWritten, ConservesDesk;
      var first := StepAsWritten(linked, ticker, d, rs[0], tradeId);
      var rest := RunAsWritten(linked, ticker, first.desk, rs[1..], first.nextTradeId);
      StepLaws(linked, ticker, d, rs[0], tradeId, feed, id);
      EveryRunAsWritten(linked, ticker, first.desk, rs[1..], first.nextTradeId, Replay(feed, first.updates), id);
      ConservesOn(d, first, rest, id);
      ReplayConcat(feed, first.updates, rest.updates);
    } else {
      NothingConserves(d, tradeId, id);
    }
  }

  lemma {:induction false} NothingConserves(d: Desk, tradeId: TradeId, id: OrderId)
    ensures ConservesDesk(d, DeskOutcome(d, [], [], tradeId), id)
  {}

  /** Accounts of one part of a run and of the next are accounts of both. */
  lemma {:induction false} ConservesOn(d: Desk, first: DeskOutcome, rest: DeskOutcome, id: OrderId)
    requires ConservesDesk(d, first, id) && ConservesDesk(first.desk, rest, id)
    ensures ConservesDesk(d, rest.(responses := first.responses + rest.responses,
                                   updates := first.updates + rest.updates), id)
  {
    hide OnDesk, Told, FilledOn, Volume;
    ConcatAll(first.responses, rest.responses, first.updates, rest.updates, id);
  }

  lemma {:induction false} StepLaws(linked: bool, ticker: TickerId, d: Desk, r: BookRequest, tradeId: TradeId,
                                    feed: Feed, id: OrderId)
    requires SoundDesk(d) && MirrorsDesk(feed, d)
    ensures var e := StepAsWritten(linked, ticker, d, r, tradeId);
      SoundDesk(e.desk) && ConservesDesk(d, e, id) && MirrorsDesk(Replay(feed, e.updates), e.desk)
  {
    hide SoundDesk, MirrorsDesk, ConservesDesk;
    StepKeepsSound(linked, ticker, d, r, tradeId);
    if r.Add? {
      AddConservesDesk(linked, ticker, d, r, tradeId, id);
      AddDeskReplay(linked, ticker, d, r, tradeId, feed);
    } else {
      CancelConservesDesk(ticker, d, r, tradeId, id);
      CancelDeskReplay(ticker, d, r, tradeId, feed);
    }
  }

  /**
   * The market data keep advertising what nobody can buy: as long as nothing is cancelled at its
   * price, a stranded queue stays in front of the queue that a subscriber sees there.
   */
  lemma {:induction false} StrandedIsAdvertised(linked: bool, ticker: TickerId, d: Desk, rs: seq<BookRequest>,
                                                tradeId: TradeId, feed: Feed, price: Price)
    requires SoundDesk(d) && MirrorsDesk(feed, d) && price in d.strays
    requires forall i :: 0 <= i < |rs| ==> rs[i].Cancel? ==> rs[i].price != price
    ensures var e := RunAsWritten(linked, ticker, d, rs, tradeId);
      && AtPrice(d.strays[price].orders, price) <= QueueAt(Replay(feed, e.updates), price)
      && OffTheChains(e.desk.book, price)
  {
    hide RunAsWritten, WellFormed, ConservesDesk, Replay;
    var e := RunAsWritten(linked, ticker, d, rs, tradeId);
    StrandedOrdersStay(linked, ticker, d, rs, tradeId, price);
    EveryRunAsWritten(linked, ticker, d, rs, tradeId, feed, 0);
    var before, after := d.strays[price].orders, e.desk.strays[price].orders;
    assert after == before + after[|before|..];
    AtPriceConcat(before, after[|before|..], price);
    assert QueueAt(Replay(feed, e.updates), price) == DeskDepthAt(e.desk, price);
  }
}
