/** Price-time priority: a closed form of what an add trades, maker by maker. */
module PriceTime {
  import opened Types
  import opened Matching

  function Total(s: seq<Resting>): nat {
    if s == [] then 0 else s[0].quantity + Total(s[1..])
  }

  /** All resting quantity at prices the taker accepts. */
  function Liquidity(t: Taker, s: seq<Resting>): nat {
    if s == [] then 0
    else (if Acceptable(IsBuy(t.side), t.limit, s[0].price) then s[0].quantity else 0) + Liquidity(t, s[1..])
  }

  /**
   * What strict priority gives to the taker from maker `i`: whatever the makers in front of it
   * leave to be filled, up to the quantity it rests.
   */
  function Amount(t: Taker, quantity: Quantity, s: seq<Resting>, i: nat): Quantity
    requires i < |s|
  {
    if !Acceptable(IsBuy(t.side), t.limit, s[i].price) || quantity <= Total(s[..i]) then 0
    else Min(s[i].quantity, quantity - Total(s[..i]))
  }

  /** The trade id `n` trades after `id`. */
  function After(id: TradeId, n: nat): TradeId {
    (id + n) % 0x1_0000_0000
  }

  lemma {:induction false} AfterNext(id: TradeId, n: nat)
    ensures After(Next(id), n) == After(id, n + 1)
  {}

  /** Behind a maker that is used up, the same makers see the rest of the taker. */
  lemma {:induction false} AmountShifts(t: Taker, quantity: Quantity, s: seq<Resting>, i: nat)
    requires i + 1 < |s| && s[0].quantity <= quantity
    ensures Amount(t, quantity - s[0].quantity, s[1..], i) == Amount(t, quantity, s, i + 1)
  {
    assert s[..i + 1][1..] == s[1..][..i];
  }

  lemma {:induction false} NothingBehind(t: Taker, quantity: Quantity, s: seq<Resting>, i: nat)
    requires 0 < i < |s| && quantity <= s[0].quantity
    ensures Amount(t, quantity, s, i) == 0
  {
    assert s[..i][1..] == s[1..i];
    assert Total(s[..i]) == s[0].quantity + Total(s[1..i]);
  }

  /** No acceptable maker stands behind one that is not acceptable. */
  lemma {:induction false} NoneAcceptable(t: Taker, quantity: Quantity, s: seq<Resting>)
    requires Ordered(!IsBuy(t.side), s)
    requires s != [] && !Acceptable(IsBuy(t.side), t.limit, s[0].price)
    ensures Liquidity(t, s) == 0
    ensures forall i :: 0 <= i < |s| ==> Amount(t, quantity, s, i) == 0
    decreases |s|
  {
    forall i | 0 <= i < |s| ensures !Acceptable(IsBuy(t.side), t.limit, s[i].price) {
      assert i == 0 || !Ahead(!IsBuy(t.side), s[i].price, s[0].price);
    }
    if |s| > 1 {
      NoneAcceptable(t, quantity, s[1..]);
    }
  }

  lemma {:induction false} NothingWanted(t: Taker, s: seq<Resting>)
    ensures forall i :: 0 <= i < |s| ==> Amount(t, 0, s, i) == 0
  {}

  /** The makers from `m` on are what crossing leaves, less their amounts; all before are used up. */
  ghost predicate LeavesFrom(t: Taker, quantity: Quantity, s: seq<Resting>, left: seq<Resting>, m: nat) {
    && m <= |s| && |left| == |s| - m
    && (forall i :: 0 <= i < m ==> Amount(t, quantity, s, i) == s[i].quantity)
    && (forall j :: 0 <= j < |left| ==> left[j] == Less(s[m + j], Amount(t, quantity, s, m + j)))
    && (forall j :: m < j < |s| ==> Amount(t, quantity, s, j) == 0)
  }

  /**
   * The four messages of the trade number `i` of `c`, field by field: both sides are told the amount at
   * the price of the maker, and the market is told the trade and what is left of the maker.
   */
  ghost predicate Reported(t: Taker, maker: Resting, fill: Quantity, id: TradeId, c: Crossing, i: nat) {
    && 0 < fill <= maker.quantity
    && 2 * i + 1 < |c.responses| && 2 * i + 1 < |c.updates|
    && c.responses[2 * i]
       == ClientResponse(Filled, t.tickerId, maker.clientId, maker.orderId, maker.side, fill, maker.price)
    && c.responses[2 * i + 1] == ClientResponse(Filled, t.tickerId, t.clientId, t.orderId, t.side, fill, maker.price)
    && c.updates[2 * i] == MarketUpdate(Traded, t.tickerId, 0xFFFF_FFFF, id, t.side, fill, maker.price)
    && c.updates[2 * i + 1]
       == if fill == maker.quantity
          then MarketUpdate(Removed, t.tickerId, maker.orderId, 0xFFFF_FFFF, maker.side, fill, maker.price)
          else MarketUpdate(Modified, t.tickerId, maker.orderId, 0xFFFF_FFFF, maker.side, maker.quantity - fill,
                            maker.price)
  }

  /** Each of the first `n` makers is reported with its amount, at its own price, in order. */
  ghost predicate Reports(t: Taker, quantity: Quantity, s: seq<Resting>, tradeId: TradeId, c: Crossing, n: nat) {
    && n <= |s| && |c.responses| == 2 * n && |c.updates| == 2 * n
    && (forall i {:trigger s[i]} :: 0 <= i < n ==>
          Reported(t, s[i], Amount(t, quantity, s, i), After(tradeId, i), c, i))
    && c.nextTradeId == After(tradeId, n)
  }

  lemma {:induction false} ReportedLater(t: Taker, maker: Resting, fill: Quantity, id: TradeId, c: Crossing,
                                         d: Crossing, i: nat)
    requires Reported(t, maker, fill, id, c, i)
    requires |d.responses| == |c.responses| + 2 && d.responses[2..] == c.responses
    requires |d.updates| == |c.updates| + 2 && d.updates[2..] == c.updates
    ensures Reported(t, maker, fill, id, d, i + 1)
  {
    assert d.responses[2 * (i + 1)] == d.responses[2..][2 * i];
    assert d.responses[2 * (i + 1) + 1] == d.responses[2..][2 * i + 1];
    assert d.updates[2 * (i + 1)] == d.updates[2..][2 * i];
    assert d.updates[2 * (i + 1) + 1] == d.updates[2..][2 * i + 1];
  }

  lemma {:induction false} LeavesShift(t: Taker, quantity: Quantity, s: seq<Resting>, left: seq<Resting>, m: nat)
    requires s != [] && s[0].quantity <= quantity && Amount(t, quantity, s, 0) == s[0].quantity
    requires LeavesFrom(t, quantity - s[0].quantity, s[1..], left, m)
    ensures LeavesFrom(t, quantity, s, left, m + 1)
  {
    forall i | 0 < i < |s| ensures Amount(t, quantity, s, i) == Amount(t, quantity - s[0].quantity, s[1..], i - 1) {
      AmountShifts(t, quantity, s, i - 1);
    }
  }

  lemma {:induction false} FirstReported(t: Taker, quantity: Quantity, s: seq<Resting>, tradeId: TradeId)
    requires Trades(t, quantity, s) && s[0].quantity > 0
    ensures Reported(t, s[0], Amount(t, quantity, s, 0), tradeId, Cross(t, quantity, s, tradeId), 0)
    ensures Amount(t, quantity, s, 0) == Min(quantity, s[0].quantity)
  {
    assert s[..0] == [];
  }

  lemma {:induction false} ReportsShift(t: Taker, quantity: Quantity, s: seq<Resting>, tradeId: TradeId, n: nat)
    requires Trades(t, quantity, s) && 0 < s[0].quantity <= quantity
    requires var c := Cross(t, quantity - s[0].quantity, s[1..], Next(tradeId));
      Reports(t, quantity - s[0].quantity, s[1..], Next(tradeId), c, n)
    ensures Reports(t, quantity, s, tradeId, Cross(t, quantity, s, tradeId), n + 1)
  {
    var h := HitOf(t, quantity, s[0], tradeId);
    var rest := Cross(t, quantity - s[0].quantity, s[1..], Next(tradeId));
    var c := Cross(t, quantity, s, tradeId);
    assert c == rest.(responses := h.responses + rest.responses, updates := h.updates + rest.updates);
    assert c.responses[2..] == rest.responses && c.updates[2..] == rest.updates;
    FirstReported(t, quantity, s, tradeId);
    hide Reported, Cross, Amount;
    AfterNext(tradeId, n);
    forall i {:trigger s[i]} | 0 <= i < n + 1
      ensures Reported(t, s[i], Amount(t, quantity, s, i), After(tradeId, i), c, i)
    {
      if i > 0 {
        AmountShifts(t, quantity, s, i - 1);
        AfterNext(tradeId, i - 1);
        assert s[1..][i - 1] == s[i];
        ReportedLater(t, s[i], Amount(t, quantity, s, i), After(tradeId, i), rest, c, i - 1);
      }
    }
  }

  lemma {:induction false} NoReports(t: Taker, quantity: Quantity, s: seq<Resting>, tradeId: TradeId)
    ensures Reports(t, quantity, s, tradeId, Crossing(s, quantity, [], [], tradeId), 0)
  {}

  /** Nothing is traded. */
  lemma {:induction false} NoTrade(t: Taker, quantity: Quantity, s: seq<Resting>, tradeId: TradeId)
    requires Ordered(!IsBuy(t.side), s) && !Trades(t, quantity, s)
    ensures quantity == 0 || Liquidity(t, s) == 0
    ensures LeavesFrom(t, quantity, s, s, 0)
  {
    NothingWanted(t, s);
    if s != [] && quantity != 0 {
      NoneAcceptable(t, quantity, s);
    }
  }

  /** One trade uses up the taker and leaves the first maker smaller. */
  lemma {:induction false} LastTrade(t: Taker, quantity: Quantity, s: seq<Resting>, tradeId: TradeId)
    requires Trades(t, quantity, s) && quantity < s[0].quantity
    ensures var c := Cross(t, quantity, s, tradeId);
      && c.remaining == 0 && quantity < Liquidity(t, s)
      && LeavesFrom(t, quantity, s, c.opposite, 0) && Reports(t, quantity, s, tradeId, c, 1)
  {
    FirstReported(t, quantity, s, tradeId);
    forall i | 0 < i < |s| ensures Amount(t, quantity, s, i) == 0 {
      NothingBehind(t, quantity, s, i);
    }
  }

  /** One trade uses up the first maker and goes on behind it. */
  lemma {:induction false} UseUp(t: Taker, quantity: Quantity, s: seq<Resting>, tradeId: TradeId)
    requires Ordered(!IsBuy(t.side), s) && Live(!IsBuy(t.side), s)
    requires Trades(t, quantity, s) && s[0].quantity <= quantity
    ensures Ordered(!IsBuy(t.side), s[1..]) && Live(!IsBuy(t.side), s[1..]) && s[0].quantity > 0
    ensures var rest := Cross(t, quantity - s[0].quantity, s[1..], Next(tradeId));
      var c := Cross(t, quantity, s, tradeId);
      c.opposite == rest.opposite && c.remaining == rest.remaining
    ensures Liquidity(t, s) == s[0].quantity + Liquidity(t, s[1..])
  {}

  /**
   * An add trades as much as the acceptable liquidity allows, maker by maker in price-time order:
   * `m` makers are used up, `n` trades are reported, and at most the last maker is left in part.
   */
  lemma {:induction false} PriceTimePriority(t: Taker, quantity: Quantity, s: seq<Resting>, tradeId: TradeId)
    returns (m: nat, n: nat)
    requires Ordered(!IsBuy(t.side), s) && Live(!IsBuy(t.side), s)
    ensures var c := Cross(t, quantity, s, tradeId);
      && c.remaining == (if quantity < Liquidity(t, s) then 0 else quantity - Liquidity(t, s))
      && LeavesFrom(t, quantity, s, c.opposite, m)
      && Reports(t, quantity, s, tradeId, c, n)
      && m <= n <= m + 1
    decreases |s|
  {
    hide LeavesFrom, Reported, Amount, Reports, Cross, Liquidity, Ordered, Live;
    if !Trades(t, quantity, s) {
      m, n := 0, 0;
      CrossStops(t, quantity, s, tradeId);
      NoReports(t, quantity, s, tradeId);
      NoTrade(t, quantity, s, tradeId);
    } else if quantity < s[0].quantity {
      m, n := 0, 1;
      LastTrade(t, quantity, s, tradeId);
    } else {
      var left := quantity - s[0].quantity;
      UseUp(t, quantity, s, tradeId);
      m, n := PriceTimePriority(t, left, s[1..], Next(tradeId));
      FirstReported(t, quantity, s, tradeId);
      LeavesShift(t, quantity, s, Cross(t, left, s[1..], Next(tradeId)).opposite, m);
      ReportsShift(t, quantity, s, tradeId, n);
      m, n := m + 1, n + 1;
    }
  }
}
