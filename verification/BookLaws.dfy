/** Laws of the reference matcher over every request and every run. */
module BookLaws {
  import opened Types
  import opened Matching

  // ----- the invariant of a book

  /** What crossing leaves: the makers from some point on, the first of them perhaps smaller. */
  lemma {:induction false} CrossLeavesSuffix(t: Taker, quantity: Quantity, opposite: seq<Resting>, tradeId: TradeId)
    requires Live(!IsBuy(t.side), opposite)
    ensures var c := Cross(t, quantity, opposite, tradeId);
      && |c.opposite| <= |opposite|
      && Live(!IsBuy(t.side), c.opposite)
      && (forall i :: 0 <= i < |c.opposite| ==>
            c.opposite[i].price == opposite[i + |opposite| - |c.opposite|].price)
      && (c.remaining != 0 ==> c.opposite == [] || !Acceptable(IsBuy(t.side), t.limit, c.opposite[0].price))
    decreases |opposite|
  {
    if Trades(t, quantity, opposite) {
      var h := HitOf(t, quantity, opposite[0], tradeId);
      if h.left.quantity == 0 {
        CrossLeavesSuffix(t, h.remaining, opposite[1..], Next(tradeId));
      }
    }
  }

  lemma {:induction false} SuffixKeepsOrder(buy: bool, s: seq<Resting>, left: seq<Resting>)
    requires Ordered(buy, s) && |left| <= |s|
    requires forall i :: 0 <= i < |left| ==> left[i].price == s[i + |s| - |left|].price
    ensures Ordered(buy, left)
  {}

  lemma {:induction false} InsertSplits(buy: bool, own: seq<Resting>, o: Resting) returns (k: nat)
    requires Ordered(buy, own)
    ensures k <= |own| && Insert(buy, own, o) == own[..k] + [o] + own[k..]
    ensures forall i :: 0 <= i < k ==> !Ahead(buy, o.price, own[i].price)
    ensures forall i :: k <= i < |own| ==> Ahead(buy, o.price, own[i].price)
  {
    if own == [] || Ahead(buy, o.price, own[0].price) {
      k := 0;
      forall i | 0 <= i < |own| ensures Ahead(buy, o.price, own[i].price) {
        assert i == 0 || !Ahead(buy, own[i].price, own[0].price);
      }
    } else {
      k := InsertSplits(buy, own[1..], o);
      k := k + 1;
      assert own[..k] == [own[0]] + own[1..][..k - 1];
    }
  }

  lemma {:induction false} InsertKeepsSide(buy: bool, own: seq<Resting>, o: Resting)
    requires Ordered(buy, own) && Live(buy, own) && o.quantity > 0 && IsBuy(o.side) == buy
    ensures Ordered(buy, Insert(buy, own, o)) && Live(buy, Insert(buy, own, o))
  {
    var k := InsertSplits(buy, own, o);
  }

  /** Two sides with a taker's limit between them. */
  lemma {:induction false} InsertKeepsApart(buy: bool, own: seq<Resting>, other: seq<Resting>, o: Resting)
    requires Ordered(buy, own) && Ordered(!buy, other)
    requires Uncrossed(EMPTY_BOOK.With(buy, own).With(!buy, other))
    requires other == [] || !Acceptable(buy, o.price, other[0].price)
    ensures Uncrossed(EMPTY_BOOK.With(buy, Insert(buy, own, o)).With(!buy, other))
  {
    var k := InsertSplits(buy, own, o);
    forall j | 0 <= j < |other| ensures !Acceptable(buy, o.price, other[j].price) {
      assert j == 0 || !Ahead(!buy, other[j].price, other[0].price);
    }
  }

  lemma {:induction false} SuffixKeepsApart(buy: bool, own: seq<Resting>, other: seq<Resting>, left: seq<Resting>)
    requires Uncrossed(EMPTY_BOOK.With(buy, own).With(!buy, other)) && |left| <= |other|
    requires forall i :: 0 <= i < |left| ==> left[i].price == other[i + |other| - |left|].price
    ensures Uncrossed(EMPTY_BOOK.With(buy, own).With(!buy, left))
  {}

  lemma {:induction false} AddKeepsWellFormed(ticker: TickerId, book: Book, r: BookRequest, tradeId: TradeId)
    requires WellFormed(book) && r.Add?
    ensures WellFormed(AddOrder(ticker, book, r, tradeId).book)
  {
    hide Ordered, Live, Uncrossed, Cross, Insert;
    var buy := IsBuy(r.side);
    var own, other := book.At(buy), book.At(!buy);
    assert EMPTY_BOOK.With(buy, own).With(!buy, other) == book;
    var c := CrossingOf(ticker, book, r, tradeId);
    CrossLeavesSuffix(TakerOf(ticker, r), r.quantity, other, tradeId);
    SuffixKeepsOrder(!buy, other, c.opposite);
    SuffixKeepsApart(buy, own, other, c.opposite);
    if c.remaining != 0 {
      InsertKeepsSide(buy, own, RestOf(r, c.remaining));
      InsertKeepsApart(buy, own, c.opposite, RestOf(r, c.remaining));
    }
  }

  lemma {:induction false} RemoveKeepsSide(buy: bool, s: seq<Resting>, k: nat)
    requires Ordered(buy, s) && Live(buy, s) && k < |s|
    ensures Ordered(buy, RemoveAt(s, k)) && Live(buy, RemoveAt(s, k))
  {
    RemoveAtShifts(s, k);
  }

  lemma {:induction false} RemoveKeepsApart(book: Book, buy: bool, k: nat)
    requires Uncrossed(book) && k < |book.At(buy)|
    ensures Uncrossed(book.With(buy, RemoveAt(book.At(buy), k)))
  {
    RemoveAtShifts(book.At(buy), k);
  }

  lemma {:induction false} CancelKeepsWellFormed(ticker: TickerId, book: Book, r: BookRequest, tradeId: TradeId)
    requires WellFormed(book) && r.Cancel?
    ensures WellFormed(CancelOrder(ticker, book, r, tradeId).book)
  {
    hide Ordered, Live, Uncrossed, RemoveAt, Find;
    var b := Find(book.bids, r.price, r.orderId);
    var a := Find(book.asks, r.price, r.orderId);
    if b < |book.bids| {
      RemoveKeepsSide(true, book.bids, b);
      RemoveKeepsApart(book, true, b);
    } else if a < |book.asks| {
      RemoveKeepsSide(false, book.asks, a);
      RemoveKeepsApart(book, false, a);
    }
  }

  /** Between requests the book is sorted, live and never crossed, whatever the requests. */
  lemma {:induction false} RunKeepsWellFormed(ticker: TickerId, book: Book, rs: seq<BookRequest>, tradeId: TradeId)
    requires WellFormed(book)
    ensures WellFormed(Run(ticker, book, rs, tradeId).book)
    decreases |rs|
  {
    if rs != [] {
      if rs[0].Add? {
        AddKeepsWellFormed(ticker, book, rs[0], tradeId);
      } else {
        CancelKeepsWellFormed(ticker, book, rs[0], tradeId);
      }
      var first := Step(ticker, book, rs[0], tradeId);
      RunKeepsWellFormed(ticker, first.book, rs[1..], first.nextTradeId);
    }
  }

  /** No price ever holds both sides, so a price alone names one side of the book. */
  lemma {:induction false} NoPriceHoldsBothSides(ticker: TickerId, rs: seq<BookRequest>, tradeId: TradeId, price: Price)
    ensures var book := Run(ticker, EMPTY_BOOK, rs, tradeId).book;
      !(HasPrice(book.bids, price) && HasPrice(book.asks, price))
  {
    RunKeepsWellFormed(ticker, EMPTY_BOOK, rs, tradeId);
  }
}
