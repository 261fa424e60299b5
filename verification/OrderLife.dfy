/** Single requests and their trace: the add/cancel round trip, the shape of updates, trade ids. */
module OrderLife {
  import opened Types
  import opened Matching
  import opened BookLaws
  import PriceTime

  // ----- adding and cancelling at once

  lemma {:induction false} FindInserted(buy: bool, own: seq<Resting>, o: Resting)
    requires Ordered(buy, own) && Find(own, o.price, o.orderId) == |own|
    ensures var s := Insert(buy, own, o);
      var k := Find(s, o.price, o.orderId);
      k < |s| && s[k] == o && RemoveAt(s, k) == own
  {
    var s := Insert(buy, own, o);
    var j := InsertSplits(buy, own, o);
    var k := Find(s, o.price, o.orderId);
    assert s[j] == o;
    assert forall i :: 0 <= i < j ==> s[i] == own[i];
    assert k == j;
  }

  /**
   * An order that trades nothing and whose id is new at its price is gone after a cancel, and the
   * book is what it was, wherever in its side the order went.
   */
  lemma {:induction false} AddCancelRoundTrip(ticker: TickerId, book: Book, r: BookRequest, clientId: ClientId,
                                              side: OrderSide, tradeId: TradeId)
    requires WellFormed(book) && r.Add? && r.quantity != 0
    requires !Trades(TakerOf(ticker, r), r.quantity, book.At(!IsBuy(r.side)))
    requires Find(book.At(IsBuy(r.side)), r.price, r.orderId) == |book.At(IsBuy(r.side))|
    ensures var added := AddOrder(ticker, book, r, tradeId);
      var canceled := CancelOrder(ticker, added.book, Cancel(r.orderId, clientId, side, r.price), added.nextTradeId);
      && canceled.book == book && canceled.nextTradeId == tradeId
      && canceled.responses == [CanceledResponse(ticker, clientId, side, RestOf(r, r.quantity))]
      && canceled.updates == [CanceledUpdate(ticker, side, RestOf(r, r.quantity))]
  {
    var buy := IsBuy(r.side);
    var own, other := book.At(buy), book.At(!buy);
    var o := RestOf(r, r.quantity);
    var added := AddOrder(ticker, book, r, tradeId);
    assert added.book == book.With(buy, Insert(buy, own, o));
    FindInserted(buy, own, o);
    NothingToFind(buy, other, o);
  }

  lemma {:induction false} NothingToFind(buy: bool, other: seq<Resting>, o: Resting)
    requires Ordered(!buy, other) && (other == [] || !Acceptable(buy, o.price, other[0].price))
    ensures Find(other, o.price, o.orderId) == |other|
  {
    forall i | 0 <= i < |other| ensures other[i].price != o.price {
      assert i == 0 || !Ahead(!buy, other[i].price, other[0].price);
    }
  }

  /** A cancel takes out at most one order and keeps all others in their order. */
  lemma {:induction false} CancelKeepsOthers(ticker: TickerId, book: Book, r: BookRequest, tradeId: TradeId, buy: bool)
    returns (k: nat)
    requires r.Cancel?
    ensures var s, s' := book.At(buy), CancelOrder(ticker, book, r, tradeId).book.At(buy);
      || s' == s
      || (k < |s| && s[k].price == r.price && s[k].orderId == r.orderId && s' == s[..k] + s[k + 1..])
  {
    k := Find(book.At(buy), r.price, r.orderId);
  }

  // ----- the updates of one add

  /** (TRADE REMOVE)* and then nothing, one (TRADE MODIFY), or one ADD. */
  predicate AddTrace(us: seq<MarketUpdate>) {
    || us == []
    || (|us| == 1 && us[0].kind == Added)
    || (|us| == 2 && us[0].kind == Traded && us[1].kind == Modified)
    || (|us| >= 2 && us[0].kind == Traded && us[1].kind == Removed && AddTrace(us[2..]))
  }

  lemma {:induction false} CrossTrace(t: Taker, quantity: Quantity, s: seq<Resting>, tradeId: TradeId,
                                      last: seq<MarketUpdate>)
    requires AddTrace(last) && |last| <= 1
    requires Cross(t, quantity, s, tradeId).remaining == 0 ==> last == []
    ensures AddTrace(Cross(t, quantity, s, tradeId).updates + last)
    decreases |s|
  {
    var c := Cross(t, quantity, s, tradeId);
    if Trades(t, quantity, s) {
      var h := HitOf(t, quantity, s[0], tradeId);
      if h.left.quantity == 0 {
        var rest := Cross(t, h.remaining, s[1..], Next(tradeId));
        CrossTrace(t, h.remaining, s[1..], Next(tradeId), last);
        assert (c.updates + last)[2..] == rest.updates + last;
      } else {
        assert c.updates + last == h.updates;
      }
    } else {
      assert c.updates + last == last;
    }
  }

  lemma {:induction false} AddTraceShape(ticker: TickerId, book: Book, r: BookRequest, tradeId: TradeId)
    requires r.Add?
    ensures AddTrace(AddOrder(ticker, book, r, tradeId).updates)
  {
    var c := CrossingOf(ticker, book, r, tradeId);
    var last := if c.remaining == 0 then [] else [OrderUpdate(Added, ticker, RestOf(r, c.remaining))];
    CrossTrace(TakerOf(ticker, r), r.quantity, book.At(!IsBuy(r.side)), tradeId, last);
    assert c.updates + [] == c.updates;
  }

  /** How many orders the stream reports as newly resting. */
  function AddedCount(us: seq<MarketUpdate>): nat {
    if us == [] then 0 else (if us[0].kind == Added then 1 else 0) + AddedCount(us[1..])
  }

  lemma {:induction false} AddedCountConcat(us: seq<MarketUpdate>, vs: seq<MarketUpdate>)
    ensures AddedCount(us + vs) == AddedCount(us) + AddedCount(vs)
  {
    if us == [] {
      assert us + vs == vs;
    } else {
      assert (us + vs)[1..] == us[1..] + vs;
      AddedCountConcat(us[1..], vs);
    }
  }

  lemma {:induction false} CrossRestsNothing(t: Taker, quantity: Quantity, s: seq<Resting>, tradeId: TradeId)
    ensures AddedCount(Cross(t, quantity, s, tradeId).updates) == 0
    decreases |s|
  {
    if Trades(t, quantity, s) {
      var h := HitOf(t, quantity, s[0], tradeId);
      assert h.updates[1..] == [h.updates[1]] && [h.updates[1]][1..] == [];
      assert AddedCount([h.updates[1]]) == 0 && AddedCount(h.updates) == 0;
      if h.left.quantity == 0 {
        CrossRestsNothing(t, h.remaining, s[1..], Next(tradeId));
        AddedCountConcat(h.updates, Cross(t, h.remaining, s[1..], Next(tradeId)).updates);
      }
    }
  }

  /** Each order that takes a block of the order pool is announced once. */
  lemma {:induction false} RestedIsAnnounced(ticker: TickerId, book: Book, r: BookRequest, tradeId: TradeId)
    ensures AddedCount(Step(ticker, book, r, tradeId).updates) == RestedBy(ticker, book, r)
  {
    var e := Step(ticker, book, r, tradeId);
    if r.Add? {
      var t, opposite := TakerOf(ticker, r), book.At(!IsBuy(r.side));
      var c := CrossingOf(ticker, book, r, tradeId);
      RemainingIgnoresIds(t, r.quantity, opposite, tradeId, 0);
      CrossRestsNothing(t, r.quantity, opposite, tradeId);
      if c.remaining != 0 {
        var last := OrderUpdate(Added, ticker, RestOf(r, c.remaining));
        AddedCountConcat(c.updates, [last]);
        assert [last][1..] == [];
      }
    } else if e.updates != [] {
      assert e.updates[1..] == [];
    }
  }

  // ----- trade ids

  function TradeIds(us: seq<MarketUpdate>): seq<TradeId> {
    if us == [] then []
    else (if us[0].kind == Traded then [us[0].tradeId] else []) + TradeIds(us[1..])
  }

  /** `n` consecutive ids from `first` on. */
  function Ids(first: TradeId, n: nat): seq<TradeId> {
    seq(n, i requires 0 <= i < n => PriceTime.After(first, i))
  }

  lemma {:induction false} TradeIdsConcat(us: seq<MarketUpdate>, vs: seq<MarketUpdate>)
    ensures TradeIds(us + vs) == TradeIds(us) + TradeIds(vs)
  {
    if us == [] {
      assert us + vs == vs;
    } else {
      assert (us + vs)[1..] == us[1..] + vs;
      TradeIdsConcat(us[1..], vs);
    }
  }

  lemma {:induction false} AfterAfter(first: TradeId, m: nat, n: nat)
    ensures PriceTime.After(PriceTime.After(first, m), n) == PriceTime.After(first, m + n)
  {}

  lemma {:induction false} IdsConcat(first: TradeId, m: nat, n: nat)
    ensures Ids(first, m) + Ids(PriceTime.After(first, m), n) == Ids(first, m + n)
    ensures PriceTime.After(PriceTime.After(first, m), n) == PriceTime.After(first, m + n)
  {
    hide PriceTime.After;
    AfterAfter(first, m, n);
    var a, b, c := Ids(first, m), Ids(PriceTime.After(first, m), n), Ids(first, m + n);
    forall i | 0 <= i < m + n ensures (a + b)[i] == c[i] {
      if i >= m {
        AfterAfter(first, m, i - m);
      }
    }
  }

  lemma {:induction false} CrossIds(t: Taker, quantity: Quantity, s: seq<Resting>, tradeId: TradeId)
    ensures var c := Cross(t, quantity, s, tradeId);
      var n := |TradeIds(c.updates)|;
      TradeIds(c.updates) == Ids(tradeId, n) && c.nextTradeId == PriceTime.After(tradeId, n)
    decreases |s|
  {
    if Trades(t, quantity, s) {
      var h := HitOf(t, quantity, s[0], tradeId);
      assert h.updates[1..] == [h.updates[1]] && [h.updates[1]][1..] == [];
      assert TradeIds([h.updates[1]]) == [];
      assert TradeIds(h.updates) == [tradeId] == Ids(tradeId, 1);
      if h.left.quantity == 0 {
        var rest := Cross(t, h.remaining, s[1..], Next(tradeId));
        CrossIds(t, h.remaining, s[1..], Next(tradeId));
        TradeIdsConcat(h.updates, rest.updates);
        IdsConcat(tradeId, 1, |TradeIds(rest.updates)|);
      }
    }
  }

  /** The trades of every run carry consecutive ids, in the order they are emitted. */
  lemma {:induction false} StepIds(ticker: TickerId, book: Book, r: BookRequest, tradeId: TradeId)
    ensures var e := Step(ticker, book, r, tradeId);
      var n := |TradeIds(e.updates)|;
      TradeIds(e.updates) == Ids(tradeId, n) && e.nextTradeId == PriceTime.After(tradeId, n)
  {
    if r.Add? {
      var c := CrossingOf(ticker, book, r, tradeId);
      CrossIds(TakerOf(ticker, r), r.quantity, book.At(!IsBuy(r.side)), tradeId);
      if c.remaining != 0 {
        var last := OrderUpdate(Added, ticker, RestOf(r, c.remaining));
        TradeIdsConcat(c.updates, [last]);
        assert [last][1..] == [] && TradeIds([last]) == [];
      }
    } else {
      var e := CancelOrder(ticker, book, r, tradeId);
      if e.updates != [] {
        assert e.updates[1..] == [] && TradeIds(e.updates) == [];
      }
    }
  }

  lemma {:induction false} RunIds(ticker: TickerId, book: Book, rs: seq<BookRequest>, tradeId: TradeId)
    ensures var e := Run(ticker, book, rs, tradeId);
      var n := |TradeIds(e.updates)|;
      TradeIds(e.updates) == Ids(tradeId, n) && e.nextTradeId == PriceTime.After(tradeId, n)
    decreases |rs|
  {
    if rs != [] {
      var first := Step(ticker, book, rs[0], tradeId);
      var rest := Run(ticker, first.book, rs[1..], first.nextTradeId);
      StepIds(ticker, book, rs[0], tradeId);
      RunIds(ticker, first.book, rs[1..], first.nextTradeId);
      TradeIdsConcat(first.updates, rest.updates);
      IdsConcat(tradeId, |TradeIds(first.updates)|, |TradeIds(rest.updates)|);
    }
  }
}
