/**
 * What one add and one cancel tell and leave, read off the fields of the request, of the resting orders
 * and of the messages. No message and no resting order is named by the function that builds it, and no
 * price is compared but by `<=`.
 */
module ClientView {
  import opened Types
  import opened Matching
  import opened BookLaws
  import opened PriceTime
  import opened AsWritten
  import opened AsWrittenLaws

  // ----- crossing

  /** How far crossing goes: through `n` makers, of which the last may be left in part. */
  ghost predicate GoesTo(t: Taker, quantity: Quantity, s: seq<Resting>, c: Crossing, n: nat) {
    && n <= |s| && |c.responses| == 2 * n && |c.updates| == 2 * n
    && (forall i :: 0 <= i < n ==> Acceptable(IsBuy(t.side), t.limit, s[i].price) && Total(s[..i]) < quantity)
    && (n < |s| ==> !Acceptable(IsBuy(t.side), t.limit, s[n].price) || quantity <= Total(s[..n]))
    && (if quantity < Total(s[..n]) then
          n > 0 && Total(s[..n]) - quantity <= s[n - 1].quantity && c.remaining == 0
          && c.opposite == [s[n - 1].(quantity := Total(s[..n]) - quantity)] + s[n..]
        else c.remaining == quantity - Total(s[..n]) && c.opposite == s[n..])
  }

  lemma {:induction false} TotalCons(s: seq<Resting>, n: nat)
    requires 0 < n <= |s|
    ensures Total(s[..n]) == s[0].quantity + Total(s[1..][..n - 1])
  {
    assert s[..n][1..] == s[1..][..n - 1];
  }

  lemma {:induction false} TotalGrows(s: seq<Resting>, n: nat)
    requires n < |s|
    ensures Total(s[..n + 1]) == Total(s[..n]) + s[n].quantity
  {
    if n == 0 {
      assert s[..1][1..] == [] && s[..0] == [];
    } else {
      TotalCons(s, n + 1);
      TotalCons(s, n);
      TotalGrows(s[1..], n - 1);
    }
  }

  lemma {:induction false} HowFarCrossingGoes(t: Taker, quantity: Quantity, s: seq<Resting>, tradeId: TradeId)
    returns (n: nat)
    requires Live(!IsBuy(t.side), s)
    ensures GoesTo(t, quantity, s, Cross(t, quantity, s, tradeId), n)
    decreases |s|
  {
    if !Trades(t, quantity, s) {
      n := 0;
      assert s[..0] == [];
    } else {
      var h := HitOf(t, quantity, s[0], tradeId);
      if h.left.quantity == 0 {
        var k := HowFarCrossingGoes(t, h.remaining, s[1..], Next(tradeId));
        n := k + 1;
        OneFurther(t, quantity, s, tradeId, k);
      } else {
        n := 1;
        TotalCons(s, 1);
        assert s[1..][..0] == [] && s[..0] == [];
      }
    }
  }

  lemma {:induction false} OneFurther(t: Taker, quantity: Quantity, s: seq<Resting>, tradeId: TradeId, k: nat)
    requires Live(!IsBuy(t.side), s) && Trades(t, quantity, s) && HitOf(t, quantity, s[0], tradeId).left.quantity == 0
    requires GoesTo(t, quantity - s[0].quantity, s[1..], Cross(t, quantity - s[0].quantity, s[1..], Next(tradeId)), k)
    ensures GoesTo(t, quantity, s, Cross(t, quantity, s, tradeId), k + 1)
  {
    TotalCons(s, k + 1);
    assert s[1..][k..] == s[k + 1..];
    forall i | 0 <= i < k + 1
      ensures Acceptable(IsBuy(t.side), t.limit, s[i].price) && Total(s[..i]) < quantity
    {
      if i > 0 {
        TotalCons(s, i);
        assert s[1..][i - 1] == s[i];
      } else {
        assert s[..0] == [];
      }
    }
  }

  // ----- one add

  /** An add trades with this maker only at a price it allows. */
  predicate WithinLimit(r: BookRequest, price: Price)
    requires r.Add?
  {
    if r.side == Buy then price <= r.price else price >= r.price
  }

  /** What the trade number `i` fills: all of its maker, or what the makers in front have left to fill. */
  function FillOf(r: BookRequest, s: seq<Resting>, i: nat): nat
    requires r.Add? && i < |s| && Total(s[..i]) <= r.quantity
  {
    if r.quantity - Total(s[..i]) < s[i].quantity then r.quantity - Total(s[..i]) else s[i].quantity
  }

  lemma {:induction false} AmountIsFill(ticker: TickerId, r: BookRequest, s: seq<Resting>, i: nat)
    requires r.Add? && i < |s| && Total(s[..i]) < r.quantity && WithinLimit(r, s[i].price)
    ensures Amount(TakerOf(ticker, r), r.quantity, s, i) == FillOf(r, s, i)
  {}

  /** The side of the book that an add trades with: the asks for a buy, the bids for anything else. */
  lemma {:induction false} OppositeSide(book: Book, r: BookRequest)
    requires WellFormed(book) && r.Add?
    ensures book.At(!IsBuy(r.side)) == (if r.side == Buy then book.asks else book.bids)
    ensures Ordered(!IsBuy(r.side), book.At(!IsBuy(r.side))) && Live(!IsBuy(r.side), book.At(!IsBuy(r.side)))
  {}

  /** How far the crossing of an add goes, with its messages. */
  lemma {:induction false} AddCrosses(ticker: TickerId, book: Book, r: BookRequest, tradeId: TradeId) returns (n: nat)
    requires WellFormed(book) && r.Add?
    ensures var t, s := TakerOf(ticker, r), book.At(!IsBuy(r.side));
      var c := CrossingOf(ticker, book, r, tradeId);
      GoesTo(t, r.quantity, s, c, n) && Reports(t, r.quantity, s, tradeId, c, n)
  {
    hide Reports, Cross, LeavesFrom, WellFormed;
    var t, s := TakerOf(ticker, r), book.At(!IsBuy(r.side));
    OppositeSide(book, r);
    n := HowFarCrossingGoes(t, r.quantity, s, tradeId);
    var m, k := PriceTimePriority(t, r.quantity, s, tradeId);
    SameLength(t, r.quantity, s, tradeId, CrossingOf(ticker, book, r, tradeId), k, n);
  }

  lemma {:induction false} SameLength(t: Taker, quantity: Quantity, s: seq<Resting>, tradeId: TradeId, c: Crossing,
                                      k: nat, n: nat)
    requires Reports(t, quantity, s, tradeId, c, k) && |c.responses| == 2 * n
    ensures k == n
  {}

  /**
   * What is told of the trade number `i` of an add, behind its ACCEPTED: both clients the fill at the price
   * of the resting order, and the market the trade and what is left of that order.
   */
  ghost predicate TradeTold(ticker: TickerId, r: BookRequest, maker: Resting, fill: nat, tradeId: nat,
                            responses: seq<ClientResponse>, updates: seq<MarketUpdate>, i: nat)
    requires r.Add? && 2 * i + 2 < |responses| && 2 * i + 1 < |updates|
  {
    && 0 < fill <= maker.quantity && tradeId < 0x1_0000_0000
    && responses[2 * i + 1]
       == ClientResponse(Filled, ticker, maker.clientId, maker.orderId, maker.side, fill, maker.price)
    && responses[2 * i + 2] == ClientResponse(Filled, ticker, r.clientId, r.orderId, r.side, fill, maker.price)
    && updates[2 * i] == MarketUpdate(Traded, ticker, 0xFFFF_FFFF, tradeId, r.side, fill, maker.price)
    && updates[2 * i + 1]
       == if fill == maker.quantity
          then MarketUpdate(Removed, ticker, maker.orderId, 0xFFFF_FFFF, maker.side, fill, maker.price)
          else MarketUpdate(Modified, ticker, maker.orderId, 0xFFFF_FFFF, maker.side, maker.quantity - fill,
                            maker.price)
  }

  /** What is left to rest of an add that has met the first `n` orders of `s`. */
  function RestBehind(r: BookRequest, s: seq<Resting>, n: nat): (rest: Quantity)
    requires r.Add? && n <= |s|
  {
    if r.quantity < Total(s[..n]) then 0 else r.quantity - Total(s[..n])
  }

  /** How many orders an add meets: as many as it may and as it wants, and no more. */
  predicate MeetsFirst(r: BookRequest, s: seq<Resting>, n: nat)
    requires r.Add?
  {
    && n <= |s|
    && (forall i :: 0 <= i < n ==> WithinLimit(r, s[i].price) && Total(s[..i]) < r.quantity)
    && (n < |s| ==> !WithinLimit(r, s[n].price) || r.quantity <= Total(s[..n]))
  }

  /**
   * All that an add tells. It is accepted with its own fields; then it meets the first orders of the other
   * side, one after the other, each at a price within its limit, until nothing is wanted any more or the
   * next price is not allowed; what remains is announced to the market.
   */
  ghost predicate AddTold(ticker: TickerId, r: BookRequest, s: seq<Resting>, tradeId: TradeId,
                          responses: seq<ClientResponse>, updates: seq<MarketUpdate>, n: nat)
    requires r.Add?
  {
    && MeetsFirst(r, s, n)
    && |responses| == 1 + 2 * n && |updates| == 2 * n + (if RestBehind(r, s, n) == 0 then 0 else 1)
    && responses[0] == ClientResponse(Accepted, ticker, r.clientId, r.orderId, r.side, r.quantity, r.price)
    && (forall i {:trigger s[i]} :: 0 <= i < n ==>
          TradeTold(ticker, r, s[i], FillOf(r, s, i), (tradeId + i) % 0x1_0000_0000, responses, updates, i))
    && (RestBehind(r, s, n) != 0 ==>
          updates[2 * n] == MarketUpdate(Added, ticker, r.orderId, 0xFFFF_FFFF, r.side, RestBehind(r, s, n), r.price))
  }

  lemma {:induction false} AddTellsAll(ticker: TickerId, book: Book, r: BookRequest, tradeId: TradeId) returns (n: nat)
    requires WellFormed(book) && r.Add?
    ensures var e, s := AddOrder(ticker, book, r, tradeId), if r.side == Buy then book.asks else book.bids;
      AddTold(ticker, r, s, tradeId, e.responses, e.updates, n) && e.nextTradeId == (tradeId + n) % 0x1_0000_0000
  {
    hide Cross, WellFormed, Reported, Ordered, Amount, TradeTold, FillOf;
    n := AddCrosses(ticker, book, r, tradeId);
    OppositeSide(book, r);
    var t, s := TakerOf(ticker, r), if r.side == Buy then book.asks else book.bids;
    var c, e := CrossingOf(ticker, book, r, tradeId), AddOrder(ticker, book, r, tradeId);
    assert RestBehind(r, s, n) == c.remaining;
    assert e.responses[1..] == c.responses && e.updates[..|c.updates|] == c.updates;
    forall i {:trigger s[i]} | 0 <= i < n
      ensures TradeTold(ticker, r, s[i], FillOf(r, s, i), (tradeId + i) % 0x1_0000_0000, e.responses, e.updates, i)
    {
      AmountIsFill(ticker, r, s, i);
      assert Reported(t, s[i], Amount(t, r.quantity, s, i), After(tradeId, i), c, i);
      ReportIsTold(ticker, r, s[i], FillOf(r, s, i), After(tradeId, i), c, e.responses, e.updates, i);
    }
  }

  lemma {:induction false} ReportIsTold(ticker: TickerId, r: BookRequest, maker: Resting, fill: Quantity, id: TradeId,
                                        c: Crossing, responses: seq<ClientResponse>, updates: seq<MarketUpdate>,
                                        i: nat)
    requires r.Add? && Reported(TakerOf(ticker, r), maker, fill, id, c, i)
    requires |responses| == |c.responses| + 1 && responses[1..] == c.responses
    requires |c.updates| <= |updates| && updates[..|c.updates|] == c.updates
    ensures TradeTold(ticker, r, maker, fill, id, responses, updates, i)
  {
    assert responses[2 * i + 1] == responses[1..][2 * i] && responses[2 * i + 2] == responses[1..][2 * i + 1];
    assert updates[2 * i] == updates[..|c.updates|][2 * i] && updates[2 * i + 1] == updates[..|c.updates|][2 * i + 1];
  }

  // ----- what an add leaves

  /** The other side behind an add that has met its first `n` orders. */
  predicate OthersLeft(r: BookRequest, s: seq<Resting>, left: seq<Resting>, n: nat)
    requires r.Add? && n <= |s|
  {
    if r.quantity < Total(s[..n]) then
      && n > 0 && Total(s[..n]) - r.quantity < 0x1_0000_0000
      && left == [s[n - 1].(quantity := Total(s[..n]) - r.quantity)] + s[n..]
    else left == s[n..]
  }

  /** One more order on a side: behind all that are as good or better, in front of all that are worse. */
  predicate RestsAtRank(own: seq<Resting>, with: seq<Resting>, o: Resting, k: nat) {
    && k <= |own| && with == own[..k] + [o] + own[k..]
    && (forall i :: 0 <= i < k ==> if o.side == Buy then own[i].price >= o.price else own[i].price <= o.price)
    && (forall i :: k <= i < |own| ==> if o.side == Buy then own[i].price < o.price else own[i].price > o.price)
  }

  /** The resting orders behind an add, on both sides; what remains of it rests with its own fields. */
  lemma {:induction false} AddLeavesAll(ticker: TickerId, book: Book, r: BookRequest, tradeId: TradeId)
    returns (n: nat, k: nat)
    requires WellFormed(book) && r.Add?
    ensures var e, s := AddOrder(ticker, book, r, tradeId), if r.side == Buy then book.asks else book.bids;
      MeetsFirst(r, s, n) && OthersLeft(r, s, if r.side == Buy then e.book.asks else e.book.bids, n)
    ensures var e, s := AddOrder(ticker, book, r, tradeId), if r.side == Buy then book.asks else book.bids;
      var own := if r.side == Buy then book.bids else book.asks;
      var own' := if r.side == Buy then e.book.bids else e.book.asks;
      if RestBehind(r, s, n) == 0 then own' == own
      else RestsAtRank(own, own', Resting(r.orderId, r.clientId, r.side, RestBehind(r, s, n), r.price), k)
  {
    hide Cross, WellFormed, Reports, Insert, Ordered;
    n := AddCrosses(ticker, book, r, tradeId);
    OppositeSide(book, r);
    OrderedSide(book, IsBuy(r.side));
    var c := CrossingOf(ticker, book, r, tradeId);
    k := 0;
    if c.remaining != 0 {
      k := InsertSplits(IsBuy(r.side), book.At(IsBuy(r.side)), RestOf(r, c.remaining));
    }
  }

  /** What rests on the other side at prices that an add allows. */
  function Offered(r: BookRequest, s: seq<Resting>): nat
    requires r.Add?
  {
    if s == [] then 0 else (if WithinLimit(r, s[0].price) then s[0].quantity else 0) + Offered(r, s[1..])
  }

  /** An add fills all it wants or all it is offered, whichever is less. */
  lemma {:induction false} AddFillsAllItCan(ticker: TickerId, book: Book, r: BookRequest, tradeId: TradeId)
    returns (n: nat)
    requires WellFormed(book) && r.Add?
    ensures var e, s := AddOrder(ticker, book, r, tradeId), if r.side == Buy then book.asks else book.bids;
      && AddTold(ticker, r, s, tradeId, e.responses, e.updates, n)
      && r.quantity - RestBehind(r, s, n) == if Offered(r, s) < r.quantity then Offered(r, s) else r.quantity
  {
    hide Cross, WellFormed, AddTold, Reports;
    n := AddTellsAll(ticker, book, r, tradeId);
    OppositeSide(book, r);
    var t, s := TakerOf(ticker, r), if r.side == Buy then book.asks else book.bids;
    var m, k := PriceTimePriority(t, r.quantity, s, tradeId);
    OfferedIsLiquidity(ticker, r, s);
    RemainsToRest(ticker, book, r, tradeId, n);
  }

  lemma {:induction false} RemainsToRest(ticker: TickerId, book: Book, r: BookRequest, tradeId: TradeId, n: nat)
    requires WellFormed(book) && r.Add?
    requires var e, s := AddOrder(ticker, book, r, tradeId), if r.side == Buy then book.asks else book.bids;
      AddTold(ticker, r, s, tradeId, e.responses, e.updates, n)
    ensures var s := if r.side == Buy then book.asks else book.bids;
      CrossingOf(ticker, book, r, tradeId).remaining == RestBehind(r, s, n)
  {
    hide Cross, WellFormed, Reports, TradeTold;
    var k := AddCrosses(ticker, book, r, tradeId);
    assert |AddOrder(ticker, book, r, tradeId).responses| == 1 + 2 * k;
  }

  lemma {:induction false} OfferedIsLiquidity(ticker: TickerId, r: BookRequest, s: seq<Resting>)
    requires r.Add?
    ensures Liquidity(TakerOf(ticker, r), s) == Offered(r, s)
  {
    if s != [] {
      OfferedIsLiquidity(ticker, r, s[1..]);
    }
  }

  /** A sound book, in plain comparisons: best prices first, live orders on their own side, and no overlap. */
  lemma {:induction false} SoundBookReads(book: Book)
    ensures WellFormed(book) <==>
      && (forall i, j :: 0 <= i < j < |book.bids| ==> book.bids[i].price >= book.bids[j].price)
      && (forall i, j :: 0 <= i < j < |book.asks| ==> book.asks[i].price <= book.asks[j].price)
      && (forall i :: 0 <= i < |book.bids| ==> book.bids[i].quantity > 0 && book.bids[i].side == Buy)
      && (forall i :: 0 <= i < |book.asks| ==> book.asks[i].quantity > 0 && book.asks[i].side != Buy)
      && (forall i, j :: 0 <= i < |book.bids| && 0 <= j < |book.asks| ==> book.bids[i].price < book.asks[j].price)
  {}

  // ----- one add, with what is stranded

  /** Where the code as written puts the rest: outside the chains, or on the chain of its side. */
  predicate IsStranded(linked: bool, own: seq<Resting>, strays: Strays, r: BookRequest)
    requires r.Add?
  {
    r.price in strays ||
    (!linked && own != [] && (if r.side == Buy then r.price <= own[0].price else r.price >= own[0].price)
     && forall i :: 0 <= i < |own| ==> own[i].price != r.price)
  }

  /** A level outside the chains with one more order behind its others; a new one knows whether it is the worst. */
  predicate StrandsBehind(own: seq<Resting>, strays: Strays, after: Strays, o: Resting) {
    && o.price in after && after.Keys == strays.Keys + {o.price}
    && (forall p :: p in strays && p != o.price ==> after[p] == strays[p])
    && if o.price in strays then
         after[o.price] == strays[o.price].(orders := strays[o.price].orders + [o])
       else
         && after[o.price].buy == (o.side == Buy) && after[o.price].orders == [o]
         && (after[o.price].last <==>
               forall i :: 0 <= i < |own| ==> if o.side == Buy then own[i].price > o.price else own[i].price < o.price)
  }

  /** What an add leaves of a desk: the first `n` orders of the other side are met, and the rest has its place. */
  ghost predicate AddLeft(linked: bool, d: Desk, r: BookRequest, after: Desk, n: nat, k: nat)
    requires r.Add?
  {
    var s := if r.side == Buy then d.book.asks else d.book.bids;
    var own, own' := if r.side == Buy then d.book.bids else d.book.asks,
                     if r.side == Buy then after.book.bids else after.book.asks;
    && MeetsFirst(r, s, n) && OthersLeft(r, s, if r.side == Buy then after.book.asks else after.book.bids, n)
    && var rest := RestBehind(r, s, n);
       if rest == 0 then own' == own && after.strays == d.strays
       else
         var o := Resting(r.orderId, r.clientId, r.side, rest, r.price);
         if IsStranded(linked, own, d.strays, r) then own' == own && StrandsBehind(own, d.strays, after.strays, o)
         else RestsAtRank(own, own', o, k) && after.strays == d.strays
  }

  /**
   * All that an add tells and leaves, with or without the link and whatever is stranded: its messages and
   * the other side are those of the chains alone, and what remains of it rests with its own fields.
   */
  lemma {:induction false} DeskAddInFull(linked: bool, ticker: TickerId, d: Desk, r: BookRequest, tradeId: TradeId)
    returns (n: nat, k: nat)
    requires WellFormed(d.book) && r.Add?
    ensures var e, s := AddAsWritten(linked, ticker, d, r, tradeId), if r.side == Buy then d.book.asks else d.book.bids;
      && AddTold(ticker, r, s, tradeId, e.responses, e.updates, n)
      && e.nextTradeId == (tradeId + n) % 0x1_0000_0000
      && AddLeft(linked, d, r, e.desk, n, k)
  {
    hide AddOrder, AddAsWritten, Cross, WellFormed, AddTold, Insert, Stranding, Strands, IsStranded, StrandsBehind,
         RestsAtRank;
    n := AddTellsAll(ticker, d.book, r, tradeId);
    var m;
    m, k := AddLeavesAll(ticker, d.book, r, tradeId);
    var s := if r.side == Buy then d.book.asks else d.book.bids;
    var own := if r.side == Buy then d.book.bids else d.book.asks;
    SameReach(ticker, r, s, tradeId, AddOrder(ticker, d.book, r, tradeId), n, m);
    RemainsToRest(ticker, d.book, r, tradeId, n);
    AddOnDesk(linked, ticker, d, r, tradeId);
    AstrayIsStranded(linked, d, r);
    var x, o := Crossed(ticker, d, r, tradeId), RestOf(r, RestBehind(r, s, n));
    if Strands(linked, d, r) { StrandedBehind(x, o); }
  }

  /** How far an add goes is settled by what it wants and what is offered. */
  lemma {:induction false} SameReach(ticker: TickerId, r: BookRequest, s: seq<Resting>, tradeId: TradeId, e: Outcome,
                                     n: nat, m: nat)
    requires r.Add? && AddTold(ticker, r, s, tradeId, e.responses, e.updates, n) && MeetsFirst(r, s, m)
    ensures n == m
  {
    hide TradeTold;
  }

  lemma {:induction false} AstrayIsStranded(linked: bool, d: Desk, r: BookRequest)
    requires r.Add?
    ensures Strands(linked, d, r)
      <==> IsStranded(linked, if r.side == Buy then d.book.bids else d.book.asks, d.strays, r)
  {}

  lemma {:induction false} StrandedBehind(d: Desk, o: Resting)
    ensures StrandsBehind(d.book.At(IsBuy(o.side)), d.strays, d.strays[o.price := Stranding(d, o)], o)
  {
    var own := d.book.At(IsBuy(o.side));
    assert AllAhead(IsBuy(o.side), own, o.price) <==>
      forall i :: 0 <= i < |own| ==> if o.side == Buy then own[i].price > o.price else own[i].price < o.price;
  }

  // ----- one cancel

  /** The first order of `s` at this price with this id is at `k`; there is none if `k` is the end. */
  predicate FirstAt(s: seq<Resting>, price: Price, id: OrderId, k: nat) {
    && k <= |s| && (k < |s| ==> s[k].price == price && s[k].orderId == id)
    && forall j :: 0 <= j < k ==> s[j].price != price || s[j].orderId != id
  }

  /** What a cancel tells when it takes out `o`, and when there is nothing to take out. */
  ghost predicate CancelTold(ticker: TickerId, r: BookRequest, o: Option<Resting>, responses: seq<ClientResponse>,
                             updates: seq<MarketUpdate>)
    requires r.Cancel?
  {
    if o.Some? then
      && o.value.orderId == r.orderId
      && responses
         == [ClientResponse(Canceled, ticker, r.clientId, r.orderId, r.side, o.value.quantity, r.price)]
      && updates
         == [MarketUpdate(Removed, ticker, r.orderId, 0xFFFF_FFFF, r.side, o.value.quantity, r.price)]
    else
      && responses == [ClientResponse(CancelRejected, ticker, r.clientId, r.orderId, OrderSide.Invalid, 0xFFFF_FFFF,
                                      0xFFFF_FFFF_FFFF_FFFF)]
      && updates == []
  }

  /**
   * All that a cancel tells and leaves. An order that rests at its price under its id leaves the book and is
   * told, and nothing else changes; when there is none the cancel is rejected.
   */
  lemma {:induction false} CancelInFull(ticker: TickerId, book: Book, r: BookRequest, tradeId: TradeId)
    returns (b: nat, a: nat)
    requires r.Cancel?
    ensures FirstAt(book.bids, r.price, r.orderId, b) && FirstAt(book.asks, r.price, r.orderId, a)
    ensures var e := CancelOrder(ticker, book, r, tradeId);
      && e.nextTradeId == tradeId
      && CancelTold(ticker, r, if b < |book.bids| then Some(book.bids[b])
                               else if a < |book.asks| then Some(book.asks[a]) else None, e.responses, e.updates)
      && e.book.bids == (if b < |book.bids| then book.bids[..b] + book.bids[b + 1..] else book.bids)
      && e.book.asks == (if b == |book.bids| && a < |book.asks| then book.asks[..a] + book.asks[a + 1..] else book.asks)
  {
    b, a := Find(book.bids, r.price, r.orderId), Find(book.asks, r.price, r.orderId);
  }

  /** An order with this id rests at this price, on a chain or outside. */
  predicate RestsUnder(d: Desk, price: Price, id: OrderId) {
    || (exists i :: 0 <= i < |d.book.bids| && d.book.bids[i].price == price && d.book.bids[i].orderId == id)
    || (exists i :: 0 <= i < |d.book.asks| && d.book.asks[i].price == price && d.book.asks[i].orderId == id)
    || (price in d.strays && exists i :: 0 <= i < |d.strays[price].orders| && d.strays[price].orders[i].orderId == id)
  }

  /** One order fewer on the level outside the chains, and no level when it was the last. */
  predicate LeavesStray(strays: Strays, after: Strays, price: Price, k: nat)
    requires price in strays && k < |strays[price].orders|
  {
    && (forall p :: p in strays && p != price ==> p in after && after[p] == strays[p])
    && (forall p :: p in after ==> p in strays)
    && var s := strays[price];
       if |s.orders| == 1 then price !in after
       else price in after && after[price] == s.(orders := s.orders[..k] + s.orders[k + 1..])
  }

  /** The same with what is stranded: a cancel is told and takes out an order exactly if one rests there. */
  lemma {:induction false} DeskCancelInFull(ticker: TickerId, d: Desk, r: BookRequest, tradeId: TradeId)
    returns (o: Option<Resting>)
    requires SoundDesk(d) && r.Cancel?
    ensures o.Some? <==> RestsUnder(d, r.price, r.orderId)
    ensures o.Some? ==> o.value.price == r.price && o.value.orderId == r.orderId
    ensures var e := CancelAsWritten(ticker, d, r, tradeId);
      && e.nextTradeId == tradeId && CancelTold(ticker, r, o, e.responses, e.updates)
      && (o.None? ==> e.desk == d)
      && (o.Some? ==> OneTaken(d, e.desk, r.price, r.orderId, o.value))
  {
    hide WellFormed, Find, FindId;
    if r.price in d.strays {
      assert OffTheChains(d.book, r.price) && Priced(r.price, d.strays[r.price].orders);
      o := StrayCancelInFull(ticker, d, r, tradeId);
    } else {
      CancelOnChains(ticker, d, r, tradeId);
      var b, a := CancelInFull(ticker, d.book, r, tradeId);
      o := if b < |d.book.bids| then Some(d.book.bids[b]) else if a < |d.book.asks| then Some(d.book.asks[a]) else None;
    }
  }

  /** Between the two desks, exactly the order `o` has gone: the first under its id at its price. */
  ghost predicate OneTaken(d: Desk, e: Desk, price: Price, id: OrderId, o: Resting) {
    || (&& price in d.strays && e.book == d.book
        && exists k :: 0 <= k < |d.strays[price].orders| && d.strays[price].orders[k] == o
             && (forall j :: 0 <= j < k ==> d.strays[price].orders[j].orderId != id)
             && LeavesStray(d.strays, e.strays, price, k))
    || (&& price !in d.strays && e.strays == d.strays && e.book.asks == d.book.asks
        && exists k: nat :: FirstAt(d.book.bids, price, id, k) && k < |d.book.bids| && d.book.bids[k] == o
             && e.book.bids == d.book.bids[..k] + d.book.bids[k + 1..])
    || (&& price !in d.strays && e.strays == d.strays && e.book.bids == d.book.bids
        && exists k: nat :: FirstAt(d.book.asks, price, id, k) && k < |d.book.asks| && d.book.asks[k] == o
             && e.book.asks == d.book.asks[..k] + d.book.asks[k + 1..])
  }

  lemma {:induction false} StrayCancelInFull(ticker: TickerId, d: Desk, r: BookRequest, tradeId: TradeId)
    returns (o: Option<Resting>)
    requires r.Cancel? && r.price in d.strays && OffTheChains(d.book, r.price)
    requires Priced(r.price, d.strays[r.price].orders)
    ensures o.Some? <==> RestsUnder(d, r.price, r.orderId)
    ensures o.Some? ==> o.value.price == r.price && o.value.orderId == r.orderId
    ensures var e := CancelAsWritten(ticker, d, r, tradeId);
      && e.nextTradeId == tradeId && CancelTold(ticker, r, o, e.responses, e.updates)
      && (o.None? ==> e.desk == d)
      && (o.Some? ==> OneTaken(d, e.desk, r.price, r.orderId, o.value))
  {
    var s := d.strays[r.price];
    var k := FindId(s.orders, r.orderId);
    if k < |s.orders| {
      o := Some(s.orders[k]);
      assert LeavesStray(d.strays, CancelAsWritten(ticker, d, r, tradeId).desk.strays, r.price, k);
    } else {
      o := None;
    }
  }

  /** What becomes of a cancel, read off the desk. */
  lemma {:induction false} FateReads(d: Desk, price: Price, id: OrderId)
    ensures var last := price in d.strays && |d.strays[price].orders| == 1 && d.strays[price].orders[0].orderId == id;
      var alone := last && (if d.strays[price].buy then d.book.bids else d.book.asks) == [];
      && (CancelFate(d, price, id) == Ended <==> last && !alone)
      && (CancelFate(d, price, id) == Astray <==> last && alone && !d.strays[price].last)
  {}

  // ----- what the pools must hold

  function PricesOf(s: seq<Resting>): set<Price> {
    set o | o in s :: o.price
  }

  /** On a sorted side, counting the changes of price counts the prices. */
  lemma {:induction false} PriceCountIsPrices(buy: bool, s: seq<Resting>)
    requires Ordered(buy, s)
    ensures PriceCount(s) == |PricesOf(s)|
  {
    if |s| == 0 {
      assert PricesOf(s) == {};
    } else {
      assert PricesOf(s) == {s[0].price} + PricesOf(s[1..]) by {
        assert s == [s[0]] + s[1..];
      }
      if |s| == 1 {
        assert PricesOf(s[1..]) == {};
      } else {
        PriceCountIsPrices(buy, s[1..]);
        assert s[1] in s[1..];
        if s[0].price != s[1].price {
          forall o | o in s[1..] ensures o.price != s[0].price {
            var j :| 0 <= j < |s[1..]| && s[1..][j] == o;
            assert !Ahead(buy, s[1].price, s[0].price) && !Ahead(buy, s[j + 1].price, s[1].price);
          }
        } else {
          assert PricesOf(s) == PricesOf(s[1..]);
        }
      }
    }
  }

  /**
   * An add needs nothing of the pools when it is filled; otherwise one more order block than there have been
   * resting orders and, at a price of its own, one more level than there are prices, always less one.
   */
  lemma {:induction false} RoomReads(ticker: TickerId, d: Desk, r: BookRequest, rested: nat,
                                     orderCapacity: nat, levelCapacity: nat)
    returns (n: nat)
    requires WellFormed(d.book) && r.Add?
    ensures var s := if r.side == Buy then d.book.asks else d.book.bids;
      var own := if r.side == Buy then d.book.bids else d.book.asks;
      && MeetsFirst(r, s, n)
      && (RoomFor(ticker, d, r, rested, orderCapacity, levelCapacity) <==>
            RestBehind(r, s, n) == 0
            || (rested + 1 < orderCapacity
                && (r.price in d.strays || r.price in PricesOf(own)
                    || |PricesOf(s[n..])| + |PricesOf(own)| + |d.strays| + 1 < levelCapacity)))
  {
    hide Cross, Reports, Ordered, Live, Uncrossed, PriceCount;
    n := AddCrosses(ticker, d.book, r, 0);
    OppositeSide(d.book, r);
    OrderedSide(d.book, IsBuy(r.side));
    var s, own := d.book.At(!IsBuy(r.side)), d.book.At(IsBuy(r.side));
    PriceCountIsPrices(IsBuy(r.side), own);
    OrderedBehind(!IsBuy(r.side), s, n);
    PriceCountIsPrices(!IsBuy(r.side), s[n..]);
    PriceIsThere(own, r.price);
  }

  lemma {:induction false} PriceIsThere(s: seq<Resting>, price: Price)
    ensures HasPrice(s, price) <==> price in PricesOf(s)
  {
    if i :| 0 <= i < |s| && s[i].price == price {
      assert s[i] in s;
    }
  }

  lemma {:induction false} OrderedBehind(buy: bool, s: seq<Resting>, n: nat)
    requires Ordered(buy, s) && n <= |s|
    ensures Ordered(buy, s[n..])
  {}
}
