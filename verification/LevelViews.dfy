/**
 * One side of a book seen as a list of price levels: the shape in which `OrderBook` stores it.
 * The lemmas relate edits of single levels to edits of the flat price-time sequence.
 */
module LevelViews {
  import opened Types
  import opened Matching

  datatype LevelView = LevelView(price: Price, orders: seq<Resting>)

  function Flat(vs: seq<LevelView>): seq<Resting> {
    if vs == [] then [] else vs[0].orders + Flat(vs[1..])
  }

  predicate Uniform(buy: bool, v: LevelView) {
    forall j :: 0 <= j < |v.orders| ==>
      v.orders[j].price == v.price && v.orders[j].quantity > 0 && IsBuy(v.orders[j].side) == buy
  }

  predicate Sorted(buy: bool, vs: seq<LevelView>) {
    forall i, j :: 0 <= i < j < |vs| ==> Ahead(buy, vs[i].price, vs[j].price)
  }

  lemma {:induction false} SortedAt(buy: bool, vs: seq<LevelView>, i: nat, j: nat)
    requires Sorted(buy, vs) && i <= j < |vs|
    ensures i < j ==> vs[i].price != vs[j].price
  {
    assert i < j ==> Ahead(buy, vs[i].price, vs[j].price);
  }

  /** Strictly ordered from the best price on; every level holds orders of its own price and side. */
  predicate Graded(buy: bool, vs: seq<LevelView>) {
    && Sorted(buy, vs)
    && (forall i :: 0 <= i < |vs| ==> Uniform(buy, vs[i]))
  }

  predicate Apart(views: Sides<seq<LevelView>>) {
    views.bids != [] && views.asks != [] ==> views.bids[0].price < views.asks[0].price
  }

  function FlatBook(views: Sides<seq<LevelView>>): Book {
    Sides(Flat(views.bids), Flat(views.asks))
  }

  /** Where the walk over better levels stops. */
  function Rank(buy: bool, vs: seq<LevelView>, price: Price): (k: nat)
    ensures k <= |vs|
    ensures forall i :: 0 <= i < k ==> Ahead(buy, vs[i].price, price)
    ensures k < |vs| ==> !Ahead(buy, vs[k].price, price)
  {
    if vs == [] || !Ahead(buy, vs[0].price, price) then 0 else 1 + Rank(buy, vs[1..], price)
  }

  lemma {:induction false} RankIs(buy: bool, vs: seq<LevelView>, price: Price, k: nat)
    requires k <= |vs| && (k < |vs| ==> !Ahead(buy, vs[k].price, price))
    requires forall i :: 0 <= i < k ==> Ahead(buy, vs[i].price, price)
    ensures Rank(buy, vs, price) == k
  {
    if Rank(buy, vs, price) < k { assert false; }
  }

  function InsertAt<T>(s: seq<T>, k: nat, x: T): seq<T>
    requires k <= |s|
  {
    s[..k] + [x] + s[k..]
  }

  lemma {:induction false} FlatConcat(a: seq<LevelView>, b: seq<LevelView>)
    ensures Flat(a + b) == Flat(a) + Flat(b)
  {
    if a == [] {
      assert a + b == b;
    } else {
      assert (a + b)[1..] == a[1..] + b;
      FlatConcat(a[1..], b);
    }
  }

  /** The flat side around one level. */
  lemma {:induction false} FlatAround(vs: seq<LevelView>, k: nat)
    requires k < |vs|
    ensures Flat(vs) == Flat(vs[..k]) + vs[k].orders + Flat(vs[k + 1..])
  {
    assert vs == vs[..k] + vs[k..];
    FlatConcat(vs[..k], vs[k..]);
    assert vs[k..][1..] == vs[k + 1..];
  }

  lemma {:induction false} FlatReplaced(vs: seq<LevelView>, k: nat, v: LevelView)
    requires k < |vs|
    ensures Flat(vs[k := v]) == Flat(vs[..k]) + v.orders + Flat(vs[k + 1..])
  {
    var ws := vs[k := v];
    FlatAround(ws, k);
    assert ws[..k] == vs[..k] && ws[k + 1..] == vs[k + 1..];
  }

  lemma {:induction false} FlatInserted(vs: seq<LevelView>, k: nat, v: LevelView)
    requires k <= |vs|
    ensures Flat(InsertAt(vs, k, v)) == Flat(vs[..k]) + v.orders + Flat(vs[k..])
  {
    var ws := InsertAt(vs, k, v);
    FlatAround(ws, k);
    assert ws[..k] == vs[..k] && ws[k + 1..] == vs[k..];
  }

  /** Taking away an empty level does not change the orders. */
  lemma {:induction false} FlatRemoved(vs: seq<LevelView>, k: nat)
    requires k < |vs| && vs[k].orders == []
    ensures Flat(RemoveAt(vs, k)) == Flat(vs)
  {
    FlatAround(vs, k);
    FlatConcat(vs[..k], vs[k + 1..]);
  }

  /** Every order of the flat side comes from some level. */
  lemma {:induction false} FlatOrigin(vs: seq<LevelView>, j: nat) returns (i: nat)
    requires j < |Flat(vs)|
    ensures i < |vs| && Flat(vs)[j] in vs[i].orders
  {
    if j < |vs[0].orders| {
      i := 0;
    } else {
      i := FlatOrigin(vs[1..], j - |vs[0].orders|);
      i := i + 1;
    }
  }

  lemma {:induction false} InsertBetween(buy: bool, a: seq<Resting>, b: seq<Resting>, o: Resting)
    requires forall i :: 0 <= i < |a| ==> !Ahead(buy, o.price, a[i].price)
    requires b != [] ==> Ahead(buy, o.price, b[0].price)
    ensures Insert(buy, a + b, o) == a + [o] + b
  {
    if a == [] {
      assert a + b == b;
    } else {
      assert (a + b)[1..] == a[1..] + b;
      InsertBetween(buy, a[1..], b, o);
    }
  }

  lemma {:induction false} BetterOrEqualBefore(buy: bool, vs: seq<LevelView>, k: nat, price: Price)
    requires k <= |vs| && Graded(buy, vs)
    requires forall i :: 0 <= i < k ==> !Ahead(buy, price, vs[i].price)
    ensures forall j :: 0 <= j < |Flat(vs[..k])| ==> !Ahead(buy, price, Flat(vs[..k])[j].price)
  {
    forall j | 0 <= j < |Flat(vs[..k])| ensures !Ahead(buy, price, Flat(vs[..k])[j].price) {
      var i := FlatOrigin(vs[..k], j);
    }
  }

  lemma {:induction false} WorseAfter(buy: bool, vs: seq<LevelView>, k: nat, price: Price)
    requires k <= |vs| && Graded(buy, vs)
    requires forall i :: k <= i < |vs| ==> Ahead(buy, price, vs[i].price)
    ensures forall j :: 0 <= j < |Flat(vs[k..])| ==> Ahead(buy, price, Flat(vs[k..])[j].price)
  {
    forall j | 0 <= j < |Flat(vs[k..])| ensures Ahead(buy, price, Flat(vs[k..])[j].price) {
      var i := FlatOrigin(vs[k..], j);
    }
  }

  /** Appending to the level of the order's price is the reference insertion. */
  lemma {:induction false} AppendIsInsert(buy: bool, vs: seq<LevelView>, k: nat, o: Resting)
    requires k < |vs| && Graded(buy, vs) && vs[k].price == o.price
    ensures Flat(vs[k := vs[k].(orders := vs[k].orders + [o])]) == Insert(buy, Flat(vs), o)
  {
    var a, b := Flat(vs[..k]) + vs[k].orders, Flat(vs[k + 1..]);
    FlatAround(vs, k);
    FlatReplaced(vs, k, vs[k].(orders := vs[k].orders + [o]));
    BetterOrEqualBefore(buy, vs, k, o.price);
    WorseAfter(buy, vs, k + 1, o.price);
    InsertBetween(buy, a, b, o);
  }

  lemma {:induction false} RankSplits(buy: bool, vs: seq<LevelView>, price: Price)
    requires Graded(buy, vs)
    requires forall i :: 0 <= i < |vs| ==> vs[i].price != price
    ensures forall i :: Rank(buy, vs, price) <= i < |vs| ==> Ahead(buy, price, vs[i].price)
  {
    var k := Rank(buy, vs, price);
    forall i | k <= i < |vs| ensures Ahead(buy, price, vs[i].price) {
      assert i == k || Ahead(buy, vs[k].price, vs[i].price);
    }
  }

  /** Opening a level at its rank for the order is the reference insertion. */
  lemma {:induction false} OpenIsInsert(buy: bool, vs: seq<LevelView>, o: Resting)
    requires Graded(buy, vs)
    requires forall i :: 0 <= i < |vs| ==> vs[i].price != o.price
    ensures var k := Rank(buy, vs, o.price);
      Flat(InsertAt(vs, k, LevelView(o.price, [o]))) == Insert(buy, Flat(vs), o)
  {
    var k := Rank(buy, vs, o.price);
    RankSplits(buy, vs, o.price);
    assert Flat(vs) == Flat(vs[..k]) + Flat(vs[k..]) by {
      assert vs == vs[..k] + vs[k..];
      FlatConcat(vs[..k], vs[k..]);
    }
    FlatInserted(vs, k, LevelView(o.price, [o]));
    BetterOrEqualBefore(buy, vs, k, o.price);
    WorseAfter(buy, vs, k, o.price);
    InsertBetween(buy, Flat(vs[..k]), Flat(vs[k..]), o);
  }

  lemma {:induction false} FindIs(s: seq<Resting>, price: Price, id: OrderId, k: nat)
    requires k <= |s| && (k < |s| ==> s[k].price == price && s[k].orderId == id)
    requires forall j :: 0 <= j < k ==> !(s[j].price == price && s[j].orderId == id)
    ensures Find(s, price, id) == k
  {
    if Find(s, price, id) < k { assert false; }
  }

  /** Looking only into the level at the request's price is the reference search. */
  lemma {:induction false} FindInLevel(buy: bool, vs: seq<LevelView>, k: nat, id: OrderId)
    requires k < |vs| && Graded(buy, vs)
    ensures var f := FindId(vs[k].orders, id);
      Find(Flat(vs), vs[k].price, id) ==
      if f < |vs[k].orders| then |Flat(vs[..k])| + f else |Flat(vs)|
  {
    hide Find, Flat;
    var price := vs[k].price;
    var f := FindId(vs[k].orders, id);
    FlatAround(vs, k);
    NoneAt(buy, vs[..k], price);
    NoneAt(buy, vs[k + 1..], price);
    FindIs(Flat(vs), price, id, if f < |vs[k].orders| then |Flat(vs[..k])| + f else |Flat(vs)|);
  }

  lemma {:induction false} NoneAt(buy: bool, vs: seq<LevelView>, price: Price)
    requires Graded(buy, vs)
    requires forall i :: 0 <= i < |vs| ==> vs[i].price != price
    ensures forall j :: 0 <= j < |Flat(vs)| ==> Flat(vs)[j].price != price
  {
    forall j | 0 <= j < |Flat(vs)| ensures Flat(vs)[j].price != price {
      var i := FlatOrigin(vs, j);
    }
  }

  lemma {:induction false} FindNowhere(buy: bool, vs: seq<LevelView>, price: Price, id: OrderId)
    requires Graded(buy, vs)
    requires forall i :: 0 <= i < |vs| ==> vs[i].price != price
    ensures Find(Flat(vs), price, id) == |Flat(vs)|
  {
    NoneAt(buy, vs, price);
    FindIs(Flat(vs), price, id, |Flat(vs)|);
  }

  /** Removing one order of one level from the flat side. */
  lemma {:induction false} RemoveInLevel(vs: seq<LevelView>, k: nat, f: nat)
    requires k < |vs| && f < |vs[k].orders|
    ensures |Flat(vs[..k])| + f < |Flat(vs)|
    ensures Flat(vs)[|Flat(vs[..k])| + f] == vs[k].orders[f]
    ensures Flat(vs[k := vs[k].(orders := RemoveAt(vs[k].orders, f))])
         == RemoveAt(Flat(vs), |Flat(vs[..k])| + f)
  {
    FlatAround(vs, k);
    FlatReplaced(vs, k, vs[k].(orders := RemoveAt(vs[k].orders, f)));
  }

  /** The abstract books of well-kept levels satisfy the reference invariant. */
  lemma {:induction false} GradedIsWellFormed(views: Sides<seq<LevelView>>)
    requires Graded(true, views.bids) && Graded(false, views.asks) && Apart(views)
    ensures WellFormed(FlatBook(views))
  {
    GradedIsOrdered(true, views.bids);
    GradedIsOrdered(false, views.asks);
    forall i, j | 0 <= i < |Flat(views.bids)| && 0 <= j < |Flat(views.asks)|
      ensures Flat(views.bids)[i].price < Flat(views.asks)[j].price
    {
      var b := FlatOrigin(views.bids, i);
      var a := FlatOrigin(views.asks, j);
      assert views.bids[b].price <= views.bids[0].price < views.asks[0].price <= views.asks[a].price;
    }
  }

  lemma {:induction false} GradedIsOrdered(buy: bool, vs: seq<LevelView>)
    requires Graded(buy, vs)
    ensures Ordered(buy, Flat(vs)) && Live(buy, Flat(vs))
  {
    if vs != [] {
      GradedIsOrdered(buy, vs[1..]);
      WorseAfter(buy, vs, 1, vs[0].price);
    }
  }

  predicate NoLevelAt(vs: seq<LevelView>, price: Price) {
    forall i :: 0 <= i < |vs| ==> vs[i].price != price
  }

  predicate NoneEmpty(vs: seq<LevelView>) {
    forall i :: 0 <= i < |vs| ==> vs[i].orders != []
  }

  /** A price has a level exactly when an order rests at it. */
  lemma {:induction false} PriceHasLevel(buy: bool, vs: seq<LevelView>, price: Price)
    requires Graded(buy, vs) && NoneEmpty(vs)
    ensures HasPrice(Flat(vs), price) <==> !NoLevelAt(vs, price)
  {
    if j :| 0 <= j < |Flat(vs)| && Flat(vs)[j].price == price {
      var i := FlatOrigin(vs, j);
      assert vs[i].price == price;
    }
    if i :| 0 <= i < |vs| && vs[i].price == price {
      FlatAround(vs, i);
      assert Flat(vs)[|Flat(vs[..i])|] == vs[i].orders[0];
    }
  }

  /** The walk for a new price stops at once exactly when the price leads the side. */
  lemma {:induction false} RankZero(buy: bool, vs: seq<LevelView>, price: Price)
    requires Graded(buy, vs) && NoneEmpty(vs)
    requires NoLevelAt(vs, price)
    ensures Rank(buy, vs, price) == 0 <==> NeedsNoLink(buy, Flat(vs), price)
  {
    PriceHasLevel(buy, vs, price);
    if vs != [] {
      assert Flat(vs)[0] == vs[0].orders[0];
    }
  }

  function Appended(vs: seq<LevelView>, k: nat, o: Resting): seq<LevelView>
    requires k < |vs|
  {
    vs[k := vs[k].(orders := vs[k].orders + [o])]
  }

  /** Opening an empty level and appending to it is opening it with the order. */
  lemma {:induction false} OpenThenAppend(buy: bool, vs: seq<LevelView>, o: Resting)
    requires Graded(buy, vs) && NoLevelAt(vs, o.price)
    ensures var k := Rank(buy, vs, o.price);
      var ws := InsertAt(vs, k, LevelView(o.price, []));
      && k < |ws| == |vs| + 1 && ws[k] == LevelView(o.price, [])
      && Flat(Appended(ws, k, o)) == Insert(buy, Flat(vs), o)
  {
    var k := Rank(buy, vs, o.price);
    OpenIsInsert(buy, vs, o);
    assert [] + [o] == [o];
    assert Appended(InsertAt(vs, k, LevelView(o.price, [])), k, o) == InsertAt(vs, k, LevelView(o.price, [o]));
  }

  lemma {:induction false} OneMorePrice(a: seq<Resting>, b: seq<Resting>, price: Price)
    requires a != [] && forall i :: 0 <= i < |a| ==> a[i].price == price
    requires b != [] ==> b[0].price != price
    ensures PriceCount(a + b) == 1 + PriceCount(b)
  {
    assert (a + b)[1..] == a[1..] + b;
    if |a| > 1 {
      OneMorePrice(a[1..], b, price);
    } else {
      assert a[1..] + b == b;
    }
  }

  /** One level for each price. */
  lemma {:induction false} LevelsArePrices(buy: bool, vs: seq<LevelView>)
    requires Graded(buy, vs) && NoneEmpty(vs)
    ensures PriceCount(Flat(vs)) == |vs|
  {
    if vs != [] {
      LevelsArePrices(buy, vs[1..]);
      if |vs| > 1 {
        assert Flat(vs[1..])[0] == vs[1].orders[0];
        assert Ahead(buy, vs[0].price, vs[1].price);
      }
      OneMorePrice(vs[0].orders, Flat(vs[1..]), vs[0].price);
    }
  }
}
