/**
 * The levels outside the chains as a value, beside the layout of the levels on them. The lemmas say
 * how the two grow and shrink without getting in each other's way.
 */
module Limbos {
  import opened Types
  import opened Matching
  import opened AsWritten
  import opened LevelViews
  import opened PriceLevels
  import opened BookStructure

  /** What the price index names, what those levels hold, and the orders set aside for them. */
  datatype Limbo = Limbo(index: PriceIndex, mem: Memory, orders: set<Order>)

  ghost const NO_LIMBO: Limbo := Limbo(map[], map[], {})

  ghost predicate Sound(z: Limbo) {
    && Indexed(z.index, z.mem)
    && (forall p :: p in z.index ==> z.index[p] != null)
    && (forall l {:trigger z.mem[l]} :: l in z.mem ==> Priced(z.mem[l].price, z.mem[l].orders))
  }

  /** No level is in both, and no price names two. */
  ghost predicate Beside(y: Layout, z: Limbo) {
    && y.mem.Keys !! z.mem.Keys
    && forall p {:trigger y.index[p]} {:trigger p in z.index} :: p in z.index && p in y.index ==> y.index[p] == null
  }

  ghost function StrayOf(r: LevelRec): Stray {
    Stray(IsBuy(r.side), r.next == null, r.orders)
  }

  ghost function RecAt(z: Limbo, price: Price): LevelRec {
    if price in z.index && z.index[price] != null then Rec(z.mem, z.index[price])
    else LevelRec(null, 0, OrderSide.Invalid, [], [])
  }

  ghost function StraysOf(z: Limbo): Strays {
    map p | p in z.index :: StrayOf(RecAt(z, p))
  }

  ghost function Members(queue: seq<Order>): set<Order> {
    set o | o in queue
  }

  /** Without the level at this price and its orders. */
  ghost function Without(z: Limbo, price: Price): Limbo
    requires price in z.index
  {
    Limbo(z.index - {price}, z.mem - {z.index[price]}, z.orders - Members(RecAt(z, price).queue))
  }

  /** With one more level and its orders. */
  ghost function With(z: Limbo, level: OrdersPriceLevel, r: LevelRec): Limbo {
    Limbo(z.index[r.price := level], z.mem[level := r], z.orders + Members(r.queue))
  }

  lemma {:induction false} SoundWithout(z: Limbo, price: Price)
    requires Sound(z) && price in z.index
    ensures Sound(Without(z, price)) && price !in Without(z, price).index
    ensures StraysOf(Without(z, price)) == StraysOf(z) - {price}
    ensures Without(z, price).mem.Keys == z.mem.Keys - {z.index[price]}
    ensures z.index[price] in z.mem && z.mem[z.index[price]].price == price
    ensures z.index == Without(z, price).index[price := z.index[price]]
  {
    hide Priced, StrayOf;
    var w := Without(z, price);
    forall p | p in w.index ensures RecAt(w, p) == RecAt(z, p) {
      assert z.mem[z.index[p]].price == p;
    }
  }

  lemma {:induction false} SoundWith(z: Limbo, level: OrdersPriceLevel, r: LevelRec)
    requires Sound(z) && level !in z.mem && r.price !in z.index && Priced(r.price, r.orders)
    ensures Sound(With(z, level, r))
    ensures StraysOf(With(z, level, r)) == StraysOf(z)[r.price := StrayOf(r)]
    ensures With(z, level, r).mem.Keys == z.mem.Keys + {level}
  {
    hide Priced, StrayOf, RecAt;
    var w := With(z, level, r);
    RecsWith(z, level, r);
    assert StraysOf(w).Keys == StraysOf(z).Keys + {r.price};
  }

  lemma {:induction false} RecsWith(z: Limbo, level: OrdersPriceLevel, r: LevelRec)
    requires Sound(z) && level !in z.mem && r.price !in z.index
    ensures RecAt(With(z, level, r), r.price) == r
    ensures forall p :: p in z.index ==> RecAt(With(z, level, r), p) == RecAt(z, p)
  {
    hide Priced;
    forall p | p in z.index ensures RecAt(With(z, level, r), p) == RecAt(z, p) {
      assert z.mem[z.index[p]].price == p;
    }
  }

  /** There are as many levels in limbo as prices that name one. */
  lemma {:induction false} LimboCounted(z: Limbo)
    requires Sound(z)
    ensures |z.mem.Keys| == |StraysOf(z)|
    decreases |z.index|
  {
    hide Sound, StraysOf, Without, RecAt;
    StraysAreIndexed(z);
    if z.index.Keys != {} {
      var p :| p in z.index.Keys;
      SoundWithout(z, p);
      var w := Without(z, p);
      StraysAreIndexed(w);
      assert w.index.Keys == z.index.Keys - {p};
      LimboCounted(w);
      assert z.mem.Keys == w.mem.Keys + {z.index[p]};
    }
  }

  lemma {:induction false} StraysAreIndexed(z: Limbo)
    requires Sound(z)
    ensures StraysOf(z).Keys == z.index.Keys && |StraysOf(z)| == |z.index.Keys|
    ensures z.index.Keys == {} ==> z.mem.Keys == {}
  {
    if l :| l in z.mem {
      assert z.mem[l].price in z.index;
    }
    assert |StraysOf(z)| == |StraysOf(z).Keys|;
  }

  lemma {:induction false} NoLimboIsSound()
    ensures Sound(NO_LIMBO) && Beside(EMPTY_LAYOUT, NO_LIMBO) && StraysOf(NO_LIMBO) == map[]
  {}

  // ----- beside a layout that changes

  lemma {:induction false} ChainsBeside(y: Layout, orders: set<Order>, hollow: OrdersPriceLevel?, z: Limbo, buy: bool)
    requires Structured(y, orders, hollow) && Beside(y, z)
    ensures forall l :: l in y.chains.At(buy) ==> l !in z.mem
    ensures forall i :: 0 <= i < |y.chains.At(buy)| == |y.views.At(buy)| ==> y.views.At(buy)[i].price !in z.index
  {
    hide Stocked, Sorted, Apart, Reachable;
    ChainOf(y, orders, hollow, buy);
    forall i | 0 <= i < |y.chains.At(buy)| ensures y.views.At(buy)[i].price !in z.index {
      LevelFacts(y, orders, hollow, buy, i);
    }
  }

  lemma {:induction false} BesideWithout(y: Layout, z: Limbo, buy: bool, k: nat)
    requires Beside(y, z) && k < |y.chains.At(buy)| == |y.views.At(buy)|
    requires forall l :: l in y.chains.At(buy) ==> l in y.mem
    ensures Beside(WithoutLevel(y, buy, k), z)
  {
    WithoutLevelKeys(y, buy, k);
  }

  lemma {:induction false} BesideWith(y: Layout, z: Limbo, buy: bool, k: nat, level: OrdersPriceLevel, side: OrderSide,
                                      price: Price)
    requires Beside(y, z) && k <= |y.chains.At(buy)| == |y.views.At(buy)|
    requires forall l :: l in y.chains.At(buy) ==> l in y.mem
    requires level !in z.mem && price !in z.index
    ensures Beside(WithLevel(y, buy, k, level, side, price), z)
  {
    assert k > 0 ==> y.chains.At(buy)[k - 1] in y.mem;
  }

  lemma {:induction false} BesideOrders(y: Layout, z: Limbo, buy: bool, k: nat, queue: seq<Order>, orders: seq<Resting>)
    requires Beside(y, z) && k < |y.chains.At(buy)| == |y.views.At(buy)| && y.chains.At(buy)[k] in y.mem
    ensures Beside(WithOrders(y, buy, k, queue, orders), z)
  {}

  lemma {:induction false} BesideLess(y: Layout, z: Limbo, price: Price)
    requires Beside(y, z) && price in z.index
    ensures Beside(y, Without(z, price)) && (price in y.index ==> y.index[price] == null)
    ensures z.index[price] in z.mem ==> z.index[price] !in y.mem
  {}

  /** Where the entry of a level outside the chains goes in the map. */
  lemma {:induction false} EntryBeside(index: PriceIndex, strays: PriceIndex, price: Price, l: OrdersPriceLevel?)
    ensures index + strays[price := l] == (index + strays)[price := l]
    ensures price !in strays ==> index[price := l] + strays == (index + strays)[price := l]
  {}

  lemma {:induction false} BesideMore(y: Layout, z: Limbo, level: OrdersPriceLevel, r: LevelRec)
    requires Beside(y, z) && level !in y.mem && (r.price in y.index ==> y.index[r.price] == null)
    ensures Beside(y, With(z, level, r))
  {}

  lemma {:induction false} LimboEntries(z: Limbo)
    requires Sound(z)
    ensures forall p :: p in z.index ==> z.index[p] != null
  {}

  lemma {:induction false} LimboPrices(z: Limbo)
    ensures forall p :: p in StraysOf(z) <==> p in z.index
  {}

  /** The walk for a new level passes every level exactly when every order is ahead of the price. */
  lemma {:induction false} RankIsLast(y: Layout, kept: set<Order>, buy: bool, price: Price)
    requires Structured(y, kept, null)
    ensures Rank(buy, y.views.At(buy), price) == |y.views.At(buy)| <==> AllAhead(buy, Flat(y.views.At(buy)), price)
  {
    hide Structured;
    SideFacts(y, kept, buy);
    var vs := y.views.At(buy);
    var k := Rank(buy, vs, price);
    var own := Flat(vs);
    if k == |vs| {
      forall j | 0 <= j < |own| ensures Ahead(buy, own[j].price, price) {
        var i := FlatOrigin(vs, j);
      }
    } else {
      FlatAround(vs, k);
      assert own[|Flat(vs[..k])|] == vs[k].orders[0];
    }
  }

  lemma {:induction false} FewerPriced(price: Price, s: seq<Resting>, k: nat, t: seq<Resting>)
    requires Priced(price, s) && t != [] && (if k < |s| then t == RemoveAt(s, k) else t == s)
    ensures Priced(price, t)
  {}

  lemma {:induction false} FewerUniform(buy: bool, price: Price, s: seq<Resting>, k: nat, t: seq<Resting>)
    requires Uniform(buy, LevelView(price, s)) && (if k < |s| then t == RemoveAt(s, k) else t == s)
    ensures Uniform(buy, LevelView(price, t))
  {
    if k < |s| {
      RemoveAtShifts(s, k);
    }
  }

  // ----- cancelling

  lemma {:induction false} FewerOrders(s: seq<Resting>, id: OrderId, t: seq<Resting>)
    requires s != [] && (if FindId(s, id) < |s| then t == RemoveAt(s, FindId(s, id)) else t == s)
    ensures t == [] <==> |s| == 1 && s[0].orderId == id
  {}

  /** A cancel on a level of a chain, seen from the book. */
  lemma {:induction false} TakenFlat(y: Layout, kept: set<Order>, strays: Strays, buy: bool, k: nat, id: OrderId,
                                     price: Price, t: seq<Resting>, views: Sides<seq<LevelView>>)
    requires Structured(y, kept, null) && k < |y.views.At(buy)| && y.views.At(buy)[k].price == price
    requires price !in strays
    requires var s := y.views.At(buy)[k].orders;
      if FindId(s, id) < |s| then t == RemoveAt(s, FindId(s, id)) else t == s
    requires views.At(!buy) == y.views.At(!buy)
    requires Flat(views.At(buy)) == Flat(y.views.At(buy)[k := y.views.At(buy)[k].(orders := t)])
    ensures var s := y.views.At(buy)[k].orders;
      var f := FindId(s, id);
      TakenOut(Desk(FlatBook(y.views), strays), price, id)
      == Take(if f < |s| then Some(s[f]) else None, Desk(FlatBook(views), strays))
  {
    hide Structured, Flat, Find, FindId, RemoveAt;
    CancelFlat(y, kept, buy, k, id, price);
    var vs := y.views.At(buy);
    assert vs[k := vs[k].(orders := vs[k].orders)] == vs;
  }

  /** A cancel on a level outside the chains. */
  lemma {:induction false} TakenStray(d: Desk, price: Price, id: OrderId, t: seq<Resting>)
    requires price in d.strays
    requires var s := d.strays[price].orders;
      s != [] && if FindId(s, id) < |s| then t == RemoveAt(s, FindId(s, id)) else t == s
    ensures var s := d.strays[price].orders;
      var f := FindId(s, id);
      TakenOut(d, price, id)
      == Take(if f < |s| then Some(s[f]) else None,
              d.(strays := if t == [] then d.strays - {price} else d.strays[price := d.strays[price].(orders := t)]))
  {
    var s := d.strays[price];
    assert d.strays[price := s] == d.strays;
  }
}
