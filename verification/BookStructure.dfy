/**
 * The structure of an order book as a value: what its granted price levels hold (`mem`), the chain of
 * each side, and the price index. The heap enters only in `OrderBook`, which keeps its fields in step
 * with such a value. Predicates are hidden where only their combination matters.
 */
module BookStructure {
  import opened Types
  import opened Matching
  import opened LevelViews
  import opened PriceLevels
  import ObjectPools

  datatype LevelRec = LevelRec(
    next: OrdersPriceLevel?, price: Price, side: OrderSide, queue: seq<Order>, orders: seq<Resting>)

  type Memory = map<OrdersPriceLevel, LevelRec>
  type PriceIndex = map<Price, OrdersPriceLevel?>

  ghost function Rec(mem: Memory, l: OrdersPriceLevel): LevelRec {
    if l in mem then mem[l] else LevelRec(null, 0, OrderSide.Invalid, [], [])
  }

  ghost function ViewOf(r: LevelRec): LevelView {
    LevelView(r.price, r.orders)
  }

  /** From `best` on, the `next` links lead through exactly `ls`. */
  ghost predicate Links(best: OrdersPriceLevel?, ls: seq<OrdersPriceLevel>, mem: Memory) {
    && best == (if ls == [] then null else ls[0])
    && (forall i {:trigger ls[i]} :: 0 <= i < |ls| ==> ls[i] in mem)
    && (forall i {:trigger mem[ls[i]]} :: 0 <= i < |ls| ==>
          mem[ls[i]].next == (if i + 1 < |ls| then ls[i + 1] else null))
  }

  /** `vs` lists what the levels of one side hold. */
  ghost predicate Viewed(buy: bool, ls: seq<OrdersPriceLevel>, vs: seq<LevelView>, mem: Memory) {
    && |ls| == |vs|
    && forall i {:trigger ls[i]} {:trigger vs[i]} :: 0 <= i < |ls| ==>
         ls[i] in mem && IsBuy(mem[ls[i]].side) == buy && vs[i] == ViewOf(mem[ls[i]])
  }

  /** The chain of one side: linked, strictly ordered, of levels of that side. */
  ghost predicate Chain(buy: bool, best: OrdersPriceLevel?, ls: seq<OrdersPriceLevel>,
                        vs: seq<LevelView>, mem: Memory)
  {
    |ls| == |vs| && Links(best, ls, mem) && Viewed(buy, ls, vs, mem) && Sorted(buy, vs)
  }

  /** Every granted level is on the chain of its side. */
  ghost predicate Reachable(buy: bool, own: seq<OrdersPriceLevel>, other: seq<OrdersPriceLevel>, mem: Memory) {
    forall l {:trigger mem[l]} :: l in mem ==> l in (if IsBuy(mem[l].side) == buy then own else other)
  }

  /** The granted levels and the non-null entries of the price index correspond. */
  ghost predicate Indexed(index: PriceIndex, mem: Memory) {
    && (forall l {:trigger mem[l]} :: l in mem ==> mem[l].price in index && index[mem[l].price] == l)
    && (forall p {:trigger index[p]} :: p in index && index[p] != null ==>
          index[p] in mem && mem[index[p]].price == p)
  }

  /** Levels hold live orders of their own price and side; all but `hollow` hold some. */
  ghost predicate Stocked(mem: Memory, orders: set<Order>, hollow: OrdersPriceLevel?) {
    forall l {:trigger mem[l]} :: l in mem ==>
      && (forall o :: o in mem[l].queue ==> o in orders)
      && Uniform(IsBuy(mem[l].side), ViewOf(mem[l]))
      && (mem[l].orders == [] ==> l == hollow)
  }

  /** All of it, as one value. */
  datatype Layout = Layout(
    best: Sides<OrdersPriceLevel?>, chains: Sides<seq<OrdersPriceLevel>>, views: Sides<seq<LevelView>>,
    mem: Memory, index: PriceIndex)

  ghost predicate Structured(y: Layout, orders: set<Order>, hollow: OrdersPriceLevel?) {
    && Chain(true, y.best.bids, y.chains.bids, y.views.bids, y.mem)
    && Chain(false, y.best.asks, y.chains.asks, y.views.asks, y.mem)
    && Reachable(true, y.chains.bids, y.chains.asks, y.mem)
    && Indexed(y.index, y.mem)
    && Stocked(y.mem, orders, hollow)
    && Apart(y.views)
  }

  ghost const EMPTY_LAYOUT: Layout := Layout(Sides(null, null), Sides([], []), Sides([], []), map[], map[])

  lemma {:induction false} EmptyStructured()
    ensures Structured(EMPTY_LAYOUT, {}, null) && FlatBook(EMPTY_LAYOUT.views) == EMPTY_BOOK
  {}

  lemma {:induction false} ReachableEitherWay(buy: bool, own: seq<OrdersPriceLevel>, other: seq<OrdersPriceLevel>,
                                              mem: Memory)
    requires Reachable(buy, own, other, mem)
    ensures Reachable(!buy, other, own, mem)
  {}

  lemma {:induction false} DistinctLevels(buy: bool, best: OrdersPriceLevel?, ls: seq<OrdersPriceLevel>,
                       vs: seq<LevelView>, mem: Memory)
    requires Chain(buy, best, ls, vs, mem)
    ensures forall i, j :: 0 <= i < j < |ls| ==> ls[i] != ls[j]
  {
    forall i, j | 0 <= i < j < |ls| ensures ls[i] != ls[j] {
      assert Ahead(buy, vs[i].price, vs[j].price);
    }
  }

  lemma {:induction false} ChainGraded(buy: bool, best: OrdersPriceLevel?, ls: seq<OrdersPriceLevel>,
                    vs: seq<LevelView>, mem: Memory, orders: set<Order>, hollow: OrdersPriceLevel?)
    requires Chain(buy, best, ls, vs, mem) && Stocked(mem, orders, hollow)
    ensures Graded(buy, vs)
  {
    forall i | 0 <= i < |vs| ensures Uniform(buy, vs[i]) {
      assert ls[i] in mem;
    }
  }

  // ----- one level leaves

  lemma {:induction false} RemoveAtMembers<T>(s: seq<T>, k: nat)
    requires k < |s|
    requires forall i, j :: 0 <= i < j < |s| ==> s[i] != s[j]
    ensures forall x :: x in RemoveAt(s, k) <==> x in s && x != s[k]
  {
    RemoveAtShifts(s, k);
    forall x | x in s && x != s[k] ensures x in RemoveAt(s, k) {
      var i :| 0 <= i < |s| && s[i] == x;
      assert RemoveAt(s, k)[if i < k then i else i - 1] == x;
    }
  }

  /** The memory after level `k` of `ls` has been unlinked and released. */
  ghost function Unlinked(ls: seq<OrdersPriceLevel>, mem: Memory, k: nat): Memory
    requires k < |ls|
  {
    var linked := if k == 0 then mem
                  else mem[ls[k - 1] := Rec(mem, ls[k - 1]).(next := Rec(mem, ls[k]).next)];
    linked - {ls[k]}
  }

  lemma {:induction false} LinksRemoved(best: OrdersPriceLevel?, ls: seq<OrdersPriceLevel>, mem: Memory, k: nat)
    requires Links(best, ls, mem) && k < |ls|
    requires forall i, j :: 0 <= i < j < |ls| ==> ls[i] != ls[j]
    ensures Links(if k == 0 then Rec(mem, ls[0]).next else best, RemoveAt(ls, k), Unlinked(ls, mem, k))
  {
    RemoveAtShifts(ls, k);
    var ls', mem' := RemoveAt(ls, k), Unlinked(ls, mem, k);
    forall i | 0 <= i < |ls'| ensures ls'[i] in mem' {
      assert ls'[i] == ls[if i < k then i else i + 1];
    }
    forall i | 0 <= i < |ls'| ensures mem'[ls'[i]].next == (if i + 1 < |ls'| then ls'[i + 1] else null) {
      var j := if i < k then i else i + 1;
      assert ls'[i] == ls[j] && mem[ls[j]].next == (if j + 1 < |ls| then ls[j + 1] else null);
      if i + 1 == k {
        assert mem[ls[k]].next == (if k + 1 < |ls| then ls[k + 1] else null);
      }
    }
  }

  lemma {:induction false} ViewedRemoved(buy: bool, ls: seq<OrdersPriceLevel>, vs: seq<LevelView>, mem: Memory, k: nat)
    requires Viewed(buy, ls, vs, mem) && k < |ls|
    requires forall i, j :: 0 <= i < j < |ls| ==> ls[i] != ls[j]
    ensures Viewed(buy, RemoveAt(ls, k), RemoveAt(vs, k), Unlinked(ls, mem, k))
  {
    RemoveAtShifts(ls, k);
    RemoveAtShifts(vs, k);
  }

  lemma {:induction false} SortedRemoved(buy: bool, vs: seq<LevelView>, k: nat)
    requires Sorted(buy, vs) && k < |vs|
    ensures Sorted(buy, RemoveAt(vs, k))
  {
    RemoveAtShifts(vs, k);
  }

  lemma {:induction false} ChainRemoved(buy: bool, best: OrdersPriceLevel?, ls: seq<OrdersPriceLevel>,
                     vs: seq<LevelView>, mem: Memory, k: nat)
    requires Chain(buy, best, ls, vs, mem) && k < |ls|
    ensures Chain(buy, if k == 0 then Rec(mem, ls[0]).next else best, RemoveAt(ls, k), RemoveAt(vs, k),
                  Unlinked(ls, mem, k))
  {
    DistinctLevels(buy, best, ls, vs, mem);
    LinksRemoved(best, ls, mem, k);
    ViewedRemoved(buy, ls, vs, mem, k);
    SortedRemoved(buy, vs, k);
  }

  /** A chain does not notice changes to levels of the other side. */
  lemma {:induction false} ChainKept(buy: bool, best: OrdersPriceLevel?, ls: seq<OrdersPriceLevel>,
                  vs: seq<LevelView>, mem: Memory, mem': Memory)
    requires Chain(buy, best, ls, vs, mem)
    requires forall l {:trigger mem[l]} :: l in mem && IsBuy(mem[l].side) == buy ==> l in mem' && mem'[l] == mem[l]
    ensures Chain(buy, best, ls, vs, mem')
  {}

  lemma {:induction false} OtherSideKept(buy: bool, best: OrdersPriceLevel?, ls: seq<OrdersPriceLevel>,
                                         vs: seq<LevelView>,
                      best2: OrdersPriceLevel?, ls2: seq<OrdersPriceLevel>, vs2: seq<LevelView>,
                      mem: Memory, k: nat)
    requires Chain(buy, best, ls, vs, mem) && Chain(!buy, best2, ls2, vs2, mem) && k < |ls|
    ensures Chain(!buy, best2, ls2, vs2, Unlinked(ls, mem, k))
  {
    assert k > 0 ==> ls[k - 1] in mem;
    ChainKept(!buy, best2, ls2, vs2, mem, Unlinked(ls, mem, k));
  }

  lemma {:induction false} RestRemoved(buy: bool, best: OrdersPriceLevel?, ls: seq<OrdersPriceLevel>,
                                       vs: seq<LevelView>,
                    mem: Memory, k: nat, index: PriceIndex, orders: set<Order>)
    requires k < |ls| && Chain(buy, best, ls, vs, mem)
    requires Indexed(index, mem) && Stocked(mem, orders, ls[k])
    ensures Indexed(index[Rec(mem, ls[k]).price := null], Unlinked(ls, mem, k))
    ensures Stocked(Unlinked(ls, mem, k), orders, null)
  {
    hide Sorted;
  }

  lemma {:induction false} ReachableRemoved(buy: bool, best: OrdersPriceLevel?, own: seq<OrdersPriceLevel>,
                                            vs: seq<LevelView>,
                         other: seq<OrdersPriceLevel>, mem: Memory, k: nat)
    requires k < |own| && Chain(buy, best, own, vs, mem)
    requires Reachable(buy, own, other, mem)
    ensures Reachable(buy, RemoveAt(own, k), other, Unlinked(own, mem, k))
  {
    DistinctLevels(buy, best, own, vs, mem);
    RemoveAtMembers(own, k);
  }

  /** The layout after an emptied level has left. */
  ghost function WithoutLevel(y: Layout, buy: bool, k: nat): Layout
    requires k < |y.chains.At(buy)| == |y.views.At(buy)|
  {
    var ls := y.chains.At(buy);
    Layout(if k == 0 then y.best.With(buy, Rec(y.mem, ls[0]).next) else y.best,
           y.chains.With(buy, RemoveAt(ls, k)),
           y.views.With(buy, RemoveAt(y.views.At(buy), k)),
           Unlinked(ls, y.mem, k),
           y.index[Rec(y.mem, ls[k]).price := null])
  }

  lemma {:induction false} ChainEnds(buy: bool, best: OrdersPriceLevel?, ls: seq<OrdersPriceLevel>,
                                     vs: seq<LevelView>, mem: Memory)
    requires Chain(buy, best, ls, vs, mem)
    ensures |ls| == |vs| && best == (if ls == [] then null else ls[0])
  {}

  lemma {:induction false} LevelAt(buy: bool, best: OrdersPriceLevel?, ls: seq<OrdersPriceLevel>, vs: seq<LevelView>,
                mem: Memory, k: nat)
    requires Chain(buy, best, ls, vs, mem) && k < |ls|
    ensures |ls| == |vs| && ls[k] in mem && ViewOf(mem[ls[k]]) == vs[k]
    ensures mem[ls[k]].next == (if k + 1 < |ls| then ls[k + 1] else null)
  {
    hide Sorted;
    LinkAt(best, ls, mem, k);
  }

  lemma {:induction false} ChainSortedAt(buy: bool, best: OrdersPriceLevel?, ls: seq<OrdersPriceLevel>,
                                         vs: seq<LevelView>,
                      mem: Memory, i: nat, j: nat)
    requires Chain(buy, best, ls, vs, mem) && i <= j < |ls|
    ensures |ls| == |vs| && (i < j ==> vs[i].price != vs[j].price)
  {
    SortedAt(buy, vs, i, j);
  }

  /** The walk stops at the best level exactly when it stops at once. */
  lemma {:induction false} StopsAtBest(buy: bool, best: OrdersPriceLevel?, ls: seq<OrdersPriceLevel>,
                                       vs: seq<LevelView>,
                    mem: Memory, k: nat)
    requires Chain(buy, best, ls, vs, mem) && k <= |ls|
    ensures (if k < |ls| then ls[k] else null) == best <==> k == 0
    ensures k > 0 ==> ls[k - 1] in mem
  {
    DistinctLevels(buy, best, ls, vs, mem);
  }

  lemma {:induction false} ChainFacts(buy: bool, best: OrdersPriceLevel?, ls: seq<OrdersPriceLevel>,
                   vs: seq<LevelView>, mem: Memory, k: nat)
    requires Chain(buy, best, ls, vs, mem) && k < |ls|
    ensures ls[k] in mem && best == ls[0]
    ensures k > 0 ==> ls[k - 1] in mem && ls[k - 1] != ls[k]
  {
    DistinctLevels(buy, best, ls, vs, mem);
  }

  /** What a caller learns about one level of a chain. */
  lemma {:induction false} LevelFacts(y: Layout, orders: set<Order>, hollow: OrdersPriceLevel?, buy: bool, k: nat)
    requires k < |y.chains.At(buy)| && Structured(y, orders, hollow)
    ensures Chain(buy, y.best.At(buy), y.chains.At(buy), y.views.At(buy), y.mem)
    ensures |y.views.At(buy)| == |y.chains.At(buy)|
    ensures forall l :: l in y.chains.At(buy) ==> l in y.mem
    ensures var l := y.chains.At(buy)[k];
      && l in y.mem && y.mem[l].price in y.index && y.index[y.mem[l].price] == l
      && ViewOf(y.mem[l]) == y.views.At(buy)[k] && IsBuy(y.mem[l].side) == buy
  {
    hide Stocked, Sorted, Apart, Reachable;
  }

  lemma {:induction false} WithoutLevelKeys(y: Layout, buy: bool, k: nat)
    requires k < |y.chains.At(buy)| == |y.views.At(buy)|
    requires forall l :: l in y.chains.At(buy) ==> l in y.mem
    ensures WithoutLevel(y, buy, k).mem.Keys == y.mem.Keys - {y.chains.At(buy)[k]}
  {
    assert k > 0 ==> y.chains.At(buy)[k - 1] in y.mem;
  }

  lemma {:induction false} WithoutLevelIndex(y: Layout, buy: bool, k: nat)
    requires k < |y.chains.At(buy)| == |y.views.At(buy)|
    ensures WithoutLevel(y, buy, k).index == y.index[Rec(y.mem, y.chains.At(buy)[k]).price := null]
  {}

  lemma {:induction false} StructuredRemoved(y: Layout, orders: set<Order>, buy: bool, k: nat)
    requires k < |y.chains.At(buy)| && Structured(y, orders, y.chains.At(buy)[k])
    ensures Structured(WithoutLevel(y, buy, k), orders, null)
  {
    ApartRemoved(y, buy, k);
    hide Links, Viewed, Sorted, Indexed, Stocked, Unlinked, Reachable, RemoveAt, Rec, Apart;
    var best, ls, vs := y.best.At(buy), y.chains.At(buy), y.views.At(buy);
    var best2, ls2, vs2 := y.best.At(!buy), y.chains.At(!buy), y.views.At(!buy);
    if !buy { ReachableEitherWay(true, ls2, ls, y.mem); }
    ChainRemoved(buy, best, ls, vs, y.mem, k);
    OtherSideKept(buy, best, ls, vs, best2, ls2, vs2, y.mem, k);
    RestRemoved(buy, best, ls, vs, y.mem, k, y.index, orders);
    ReachableRemoved(buy, best, ls, vs, ls2, y.mem, k);
    if !buy { ReachableEitherWay(false, RemoveAt(ls, k), ls2, Unlinked(ls, y.mem, k)); }
  }

  lemma {:induction false} ApartRemoved(y: Layout, buy: bool, k: nat)
    requires k < |y.views.At(buy)| && Apart(y.views)
    requires Sorted(buy, y.views.At(buy))
    ensures Apart(y.views.With(buy, RemoveAt(y.views.At(buy), k)))
  {
    RemoveAtShifts(y.views.At(buy), k);
  }

  /** An index entry without a level means nothing. */
  lemma {:induction false} NullEntry(y: Layout, orders: set<Order>, price: Price)
    requires Structured(y, orders, null) && (price !in y.index || y.index[price] == null)
    ensures Structured(y.(index := y.index[price := null]), orders, null)
  {
    hide Chain, Reachable, Stocked, Apart;
  }

  // ----- one level changes its orders

  ghost function WithOrders(y: Layout, buy: bool, k: nat, queue: seq<Order>, orders: seq<Resting>): Layout
    requires k < |y.chains.At(buy)| == |y.views.At(buy)|
  {
    var l := y.chains.At(buy)[k];
    y.(views := y.views.With(buy, y.views.At(buy)[k := y.views.At(buy)[k].(orders := orders)]),
       mem := y.mem[l := Rec(y.mem, l).(queue := queue, orders := orders)])
  }

  lemma {:induction false} LinksRefilled(best: OrdersPriceLevel?, ls: seq<OrdersPriceLevel>, mem: Memory,
                      l: OrdersPriceLevel, queue: seq<Order>, orders: seq<Resting>)
    requires Links(best, ls, mem) && l in mem
    ensures Links(best, ls, mem[l := Rec(mem, l).(queue := queue, orders := orders)])
  {
    var mem' := mem[l := Rec(mem, l).(queue := queue, orders := orders)];
    forall i {:trigger mem'[ls[i]]} | 0 <= i < |ls|
      ensures mem'[ls[i]].next == (if i + 1 < |ls| then ls[i + 1] else null)
    {
      assert mem[ls[i]].next == mem'[ls[i]].next;
    }
  }

  lemma {:induction false} ViewedRefilled(buy: bool, ls: seq<OrdersPriceLevel>, vs: seq<LevelView>,
                       mem: Memory, k: nat, queue: seq<Order>, orders: seq<Resting>)
    requires Viewed(buy, ls, vs, mem) && k < |ls|
    requires forall i, j :: 0 <= i < j < |ls| ==> ls[i] != ls[j]
    ensures Viewed(buy, ls, vs[k := vs[k].(orders := orders)],
                   mem[ls[k] := Rec(mem, ls[k]).(queue := queue, orders := orders)])
  {}

  lemma {:induction false} SortedRefilled(buy: bool, vs: seq<LevelView>, k: nat, orders: seq<Resting>)
    requires Sorted(buy, vs) && k < |vs|
    ensures Sorted(buy, vs[k := vs[k].(orders := orders)])
  {}

  lemma {:induction false} ChainRefilled(buy: bool, best: OrdersPriceLevel?, ls: seq<OrdersPriceLevel>,
                                         vs: seq<LevelView>,
                      mem: Memory, k: nat, queue: seq<Order>, orders: seq<Resting>)
    requires Chain(buy, best, ls, vs, mem) && k < |ls|
    ensures Chain(buy, best, ls, vs[k := vs[k].(orders := orders)],
                  mem[ls[k] := Rec(mem, ls[k]).(queue := queue, orders := orders)])
  {
    assert ls[k] in mem;
    DistinctLevels(buy, best, ls, vs, mem);
    hide Links, Viewed, Sorted, Rec;
    LinksRefilled(best, ls, mem, ls[k], queue, orders);
    ViewedRefilled(buy, ls, vs, mem, k, queue, orders);
    SortedRefilled(buy, vs, k, orders);
  }

  lemma {:induction false} RestRefilled(mem: Memory, index: PriceIndex, live: set<Order>, live': set<Order>,
                     hollow: OrdersPriceLevel?, l: OrdersPriceLevel, queue: seq<Order>, orders: seq<Resting>)
    requires Indexed(index, mem) && Stocked(mem, live, hollow) && l in mem && hollow in {null, l}
    requires live <= live' && (forall o :: o in queue ==> o in live')
    requires Uniform(IsBuy(mem[l].side), LevelView(mem[l].price, orders))
    ensures var mem' := mem[l := Rec(mem, l).(queue := queue, orders := orders)];
      Indexed(index, mem') && Stocked(mem', live', if orders == [] then l else null)
  {}

  lemma {:induction false} StructuredRefilled(y: Layout, live: set<Order>, live': set<Order>, hollow: OrdersPriceLevel?,
                           buy: bool, k: nat, queue: seq<Order>, orders: seq<Resting>)
    requires k < |y.chains.At(buy)| && Structured(y, live, hollow) && hollow in {null, y.chains.At(buy)[k]}
    requires live <= live' && (forall o :: o in queue ==> o in live')
    requires Uniform(buy, LevelView(y.views.At(buy)[k].price, orders))
    ensures Structured(WithOrders(y, buy, k, queue, orders), live',
                       if orders == [] then y.chains.At(buy)[k] else null)
  {
    var best, ls, vs := y.best.At(buy), y.chains.At(buy), y.views.At(buy);
    var best2, ls2, vs2 := y.best.At(!buy), y.chains.At(!buy), y.views.At(!buy);
    assert ls[k] in y.mem && IsBuy(y.mem[ls[k]].side) == buy && y.mem[ls[k]].price == vs[k].price;
    var mem' := y.mem[ls[k] := Rec(y.mem, ls[k]).(queue := queue, orders := orders)];
    assert Reachable(true, y.chains.bids, y.chains.asks, mem');
    ChainKept(!buy, best2, ls2, vs2, y.mem, mem');
    hide Links, Viewed, Sorted, Indexed, Stocked, Reachable, Rec;
    ChainRefilled(buy, best, ls, vs, y.mem, k, queue, orders);
    RestRefilled(y.mem, y.index, live, live', hollow, ls[k], queue, orders);
  }

  // ----- one level opens

  /** The layout after `level` opened at rank `k` and its predecessor points at it. */
  ghost function Joined(ls: seq<OrdersPriceLevel>, mem: Memory, k: nat, level: OrdersPriceLevel,
                        side: OrderSide, price: Price): Memory
    requires k <= |ls|
  {
    var wider := mem[level := LevelRec(if k < |ls| then ls[k] else null, price, side, [], [])];
    if k == 0 then wider else wider[ls[k - 1] := Rec(mem, ls[k - 1]).(next := level)]
  }

  ghost function WithLevel(y: Layout, buy: bool, k: nat, level: OrdersPriceLevel, side: OrderSide, price: Price): Layout
    requires k <= |y.chains.At(buy)| == |y.views.At(buy)|
  {
    Layout(if k == 0 then y.best.With(buy, level) else y.best,
           y.chains.With(buy, InsertAt(y.chains.At(buy), k, level)),
           y.views.With(buy, InsertAt(y.views.At(buy), k, LevelView(price, []))),
           Joined(y.chains.At(buy), y.mem, k, level, side, price),
           y.index[price := level])
  }

  lemma {:induction false} InsertAtShifts<T>(s: seq<T>, k: nat, x: T)
    requires k <= |s|
    ensures |InsertAt(s, k, x)| == |s| + 1
    ensures forall j {:trigger InsertAt(s, k, x)[j]} :: 0 <= j <= |s| ==>
              InsertAt(s, k, x)[j] == if j < k then s[j] else if j == k then x else s[j - 1]
  {}

  lemma {:induction false} LinkAt(best: OrdersPriceLevel?, ls: seq<OrdersPriceLevel>, mem: Memory, i: nat)
    requires Links(best, ls, mem) && i < |ls|
    ensures ls[i] in mem && mem[ls[i]].next == (if i + 1 < |ls| then ls[i + 1] else null)
  {
    assert ls[i] in mem;
  }

  lemma {:induction false} LinksInserted(best: OrdersPriceLevel?, ls: seq<OrdersPriceLevel>, mem: Memory, k: nat,
                      level: OrdersPriceLevel, side: OrderSide, price: Price)
    requires Links(best, ls, mem) && k <= |ls| && level !in mem
    requires forall i, j :: 0 <= i < j < |ls| ==> ls[i] != ls[j]
    ensures Links(if k == 0 then level else best, InsertAt(ls, k, level), Joined(ls, mem, k, level, side, price))
  {
    InsertAtShifts(ls, k, level);
    var ls', mem' := InsertAt(ls, k, level), Joined(ls, mem, k, level, side, price);
    forall i | 0 <= i < |ls'| ensures ls'[i] in mem' {
      assert ls'[i] == if i < k then ls[i] else if i == k then level else ls[i - 1];
    }
    forall i | 0 <= i < |ls'| ensures mem'[ls'[i]].next == (if i + 1 < |ls'| then ls'[i + 1] else null) {
      assert ls'[i] == if i < k then ls[i] else if i == k then level else ls[i - 1];
      if i != k {
        LinkAt(best, ls, mem, if i < k then i else i - 1);
      }
    }
  }

  lemma {:induction false} ViewedInserted(buy: bool, ls: seq<OrdersPriceLevel>, vs: seq<LevelView>, mem: Memory, k: nat,
                       level: OrdersPriceLevel, side: OrderSide, price: Price)
    requires Viewed(buy, ls, vs, mem) && k <= |ls| && level !in mem && IsBuy(side) == buy
    ensures Viewed(buy, InsertAt(ls, k, level), InsertAt(vs, k, LevelView(price, [])),
                   Joined(ls, mem, k, level, side, price))
  {
    InsertAtShifts(ls, k, level);
    InsertAtShifts(vs, k, LevelView(price, []));
    assert k > 0 ==> ls[k - 1] in mem;
  }

  lemma {:induction false} SortedInserted(buy: bool, vs: seq<LevelView>, price: Price)
    requires Sorted(buy, vs)
    requires forall i :: 0 <= i < |vs| ==> vs[i].price != price
    ensures Sorted(buy, InsertAt(vs, Rank(buy, vs, price), LevelView(price, [])))
  {
    var k := Rank(buy, vs, price);
    InsertAtShifts(vs, k, LevelView(price, []));
    forall i | k <= i < |vs| ensures Ahead(buy, price, vs[i].price) {
      assert i == k || Ahead(buy, vs[k].price, vs[i].price);
    }
  }

  /** No level of a side has a price that the index does not list. */
  lemma {:induction false} PriceIsNew(buy: bool, best: OrdersPriceLevel?, ls: seq<OrdersPriceLevel>, vs: seq<LevelView>,
                   mem: Memory, index: PriceIndex, price: Price)
    requires Chain(buy, best, ls, vs, mem) && Indexed(index, mem)
    requires price !in index || index[price] == null
    ensures forall i :: 0 <= i < |vs| ==> vs[i].price != price
  {
    forall i | 0 <= i < |vs| ensures vs[i].price != price {
      assert ls[i] in mem;
    }
  }

  lemma {:induction false} ChainInserted(buy: bool, best: OrdersPriceLevel?, ls: seq<OrdersPriceLevel>,
                                         vs: seq<LevelView>,
                      mem: Memory, k: nat, level: OrdersPriceLevel, side: OrderSide, price: Price)
    requires Chain(buy, best, ls, vs, mem) && level !in mem && IsBuy(side) == buy
    requires k == Rank(buy, vs, price) && forall i :: 0 <= i < |vs| ==> vs[i].price != price
    ensures Chain(buy, if k == 0 then level else best, InsertAt(ls, k, level),
                  InsertAt(vs, k, LevelView(price, [])), Joined(ls, mem, k, level, side, price))
  {
    DistinctLevels(buy, best, ls, vs, mem);
    InsertAtShifts(ls, k, level);
    InsertAtShifts(vs, k, LevelView(price, []));
    hide Links, Viewed, Sorted, Joined, InsertAt, Rec;
    LinksInserted(best, ls, mem, k, level, side, price);
    ViewedInserted(buy, ls, vs, mem, k, level, side, price);
    SortedInserted(buy, vs, price);
  }

  lemma {:induction false} OtherSideKeptOnInsert(buy: bool, best: OrdersPriceLevel?, ls: seq<OrdersPriceLevel>,
                                                 vs: seq<LevelView>,
                              best2: OrdersPriceLevel?, ls2: seq<OrdersPriceLevel>, vs2: seq<LevelView>,
                              mem: Memory, k: nat, level: OrdersPriceLevel, side: OrderSide, price: Price)
    requires Chain(buy, best, ls, vs, mem) && Chain(!buy, best2, ls2, vs2, mem)
    requires k <= |ls| && level !in mem
    ensures Chain(!buy, best2, ls2, vs2, Joined(ls, mem, k, level, side, price))
  {
    assert k > 0 ==> ls[k - 1] in mem;
    ChainKept(!buy, best2, ls2, vs2, mem, Joined(ls, mem, k, level, side, price));
  }

  lemma {:induction false} IndexedInserted(ls: seq<OrdersPriceLevel>, mem: Memory, k: nat, index: PriceIndex,
                        level: OrdersPriceLevel, side: OrderSide, price: Price)
    requires k <= |ls| && level !in mem && (k > 0 ==> ls[k - 1] in mem)
    requires Indexed(index, mem) && (price !in index || index[price] == null)
    ensures Indexed(index[price := level], Joined(ls, mem, k, level, side, price))
  {}

  lemma {:induction false} StockedInserted(ls: seq<OrdersPriceLevel>, mem: Memory, k: nat, live: set<Order>,
                        level: OrdersPriceLevel, side: OrderSide, price: Price)
    requires k <= |ls| && level !in mem && (k > 0 ==> ls[k - 1] in mem)
    requires Stocked(mem, live, null)
    ensures Stocked(Joined(ls, mem, k, level, side, price), live, level)
  {}

  lemma {:induction false} ReachableInserted(buy: bool, ls: seq<OrdersPriceLevel>, other: seq<OrdersPriceLevel>,
                                             mem: Memory, k: nat,
                          level: OrdersPriceLevel, side: OrderSide, price: Price)
    requires k <= |ls| && level !in mem && IsBuy(side) == buy && (k > 0 ==> ls[k - 1] in mem)
    requires Reachable(buy, ls, other, mem)
    ensures Reachable(buy, InsertAt(ls, k, level), other, Joined(ls, mem, k, level, side, price))
  {
    InsertAtMembers(ls, k, level);
  }

  lemma {:induction false} InsertAtMembers<T>(s: seq<T>, k: nat, x: T)
    requires k <= |s|
    ensures forall y :: y in InsertAt(s, k, x) <==> y in s || y == x
  {
    assert s == s[..k] + s[k..];
  }

  lemma {:induction false} ApartInserted(views: Sides<seq<LevelView>>, buy: bool, price: Price)
    requires Apart(views)
    requires var vs2 := views.At(!buy); vs2 == [] || !Acceptable(buy, price, vs2[0].price)
    ensures Apart(views.With(buy, InsertAt(views.At(buy), Rank(buy, views.At(buy), price), LevelView(price, []))))
  {
    InsertAtShifts(views.At(buy), Rank(buy, views.At(buy), price), LevelView(price, []));
  }

  lemma {:induction false} StructuredInserted(y: Layout, live: set<Order>, buy: bool, k: nat, level: OrdersPriceLevel,
                           side: OrderSide, price: Price)
    requires Structured(y, live, null) && level !in y.mem && IsBuy(side) == buy
    requires price !in y.index || y.index[price] == null
    requires k == Rank(buy, y.views.At(buy), price)
    requires var vs2 := y.views.At(!buy); vs2 == [] || !Acceptable(buy, price, vs2[0].price)
    ensures Structured(WithLevel(y, buy, k, level, side, price), live, level)
  {
    ApartInserted(y.views, buy, price);
    assert k > 0 ==> y.chains.At(buy)[k - 1] in y.mem;
    hide Links, Viewed, Sorted, Indexed, Stocked, Reachable, Rec, Apart, Joined, InsertAt, Acceptable;
    var best, ls, vs := y.best.At(buy), y.chains.At(buy), y.views.At(buy);
    var best2, ls2, vs2 := y.best.At(!buy), y.chains.At(!buy), y.views.At(!buy);
    if !buy { ReachableEitherWay(true, ls2, ls, y.mem); }
    PriceIsNew(buy, best, ls, vs, y.mem, y.index, price);
    ChainInserted(buy, best, ls, vs, y.mem, k, level, side, price);
    OtherSideKeptOnInsert(buy, best, ls, vs, best2, ls2, vs2, y.mem, k, level, side, price);
    IndexedInserted(ls, y.mem, k, y.index, level, side, price);
    StockedInserted(ls, y.mem, k, live, level, side, price);
    ReachableInserted(buy, ls, ls2, y.mem, k, level, side, price);
    if !buy { ReachableEitherWay(false, InsertAt(ls, k, level), ls2, Joined(ls, y.mem, k, level, side, price)); }
  }

  lemma {:induction false} WithLevelKeys(y: Layout, buy: bool, k: nat, level: OrdersPriceLevel, side: OrderSide,
                                         price: Price)
    requires k <= |y.chains.At(buy)| == |y.views.At(buy)|
    requires forall l :: l in y.chains.At(buy) ==> l in y.mem
    ensures WithLevel(y, buy, k, level, side, price).mem.Keys == y.mem.Keys + {level}
  {
    assert k > 0 ==> y.chains.At(buy)[k - 1] in y.mem;
  }

  lemma {:induction false} WithLevelIndex(y: Layout, buy: bool, k: nat, level: OrdersPriceLevel, side: OrderSide,
                                          price: Price)
    requires k <= |y.chains.At(buy)| == |y.views.At(buy)|
    ensures WithLevel(y, buy, k, level, side, price).index == y.index[price := level]
  {}

  lemma {:induction false} ChainOf(y: Layout, orders: set<Order>, hollow: OrdersPriceLevel?, buy: bool)
    requires Structured(y, orders, hollow)
    ensures Chain(buy, y.best.At(buy), y.chains.At(buy), y.views.At(buy), y.mem)
    ensures |y.views.At(buy)| == |y.chains.At(buy)|
    ensures forall l :: l in y.chains.At(buy) ==> l in y.mem
  {
    hide Stocked, Sorted, Apart, Reachable, Indexed;
  }

  /** The flat side after its first level has changed its orders. */
  lemma {:induction false} FlatWithOrders(y: Layout, buy: bool, queue: seq<Order>, rest: seq<Resting>, head: Resting,
                                          left: seq<Resting>)
    requires 0 < |y.chains.At(buy)| == |y.views.At(buy)|
    requires y.views.At(buy)[0].orders == [head] + rest
    ensures Flat(y.views.At(buy)) == [head] + Flat(y.views.At(buy))[1..]
    ensures Flat(WithOrders(y, buy, 0, queue, left + rest).views.At(buy)) == left + Flat(y.views.At(buy))[1..]
  {
    var vs := y.views.At(buy);
    var ws := vs[0 := vs[0].(orders := left + rest)];
    assert ws[1..] == vs[1..];
    assert Flat(vs) == [head] + (rest + Flat(vs[1..]));
    assert Flat(ws) == left + (rest + Flat(vs[1..]));
  }

  lemma {:induction false} FlatWithoutLevel(y: Layout, buy: bool, k: nat)
    requires k < |y.chains.At(buy)| == |y.views.At(buy)| && y.views.At(buy)[k].orders == []
    ensures Flat(WithoutLevel(y, buy, k).views.At(buy)) == Flat(y.views.At(buy))
  {
    FlatRemoved(y.views.At(buy), k);
  }

  lemma {:induction false} WithOrdersFacts(y: Layout, buy: bool, k: nat, queue: seq<Order>, orders: seq<Resting>)
    requires k < |y.chains.At(buy)| == |y.views.At(buy)|
    ensures var y' := WithOrders(y, buy, k, queue, orders);
      && y'.chains == y.chains && y'.views.At(!buy) == y.views.At(!buy)
      && y'.views.At(buy) == y.views.At(buy)[k := y.views.At(buy)[k].(orders := orders)]
  {}

  lemma {:induction false} WithoutLevelFacts(y: Layout, buy: bool, k: nat)
    requires k < |y.chains.At(buy)| == |y.views.At(buy)|
    ensures WithoutLevel(y, buy, k).views.At(!buy) == y.views.At(!buy)
  {}

  /** Between calls every level of a side is sound and non-empty. */
  lemma {:induction false} SideFacts(y: Layout, orders: set<Order>, buy: bool)
    requires Structured(y, orders, null)
    ensures Graded(buy, y.views.At(buy)) && NoneEmpty(y.views.At(buy))
  {
    ChainGraded(buy, y.best.At(buy), y.chains.At(buy), y.views.At(buy), y.mem, orders, null);
    forall i | 0 <= i < |y.views.At(buy)| ensures y.views.At(buy)[i].orders != [] {
      assert y.chains.At(buy)[i] in y.mem;
    }
  }

  /** A price that the opposite side would not trade at has no level there. */
  lemma {:induction false} ClearOfOpposite(y: Layout, orders: set<Order>, buy: bool, price: Price)
    requires Structured(y, orders, null)
    requires var vs := y.views.At(!buy); vs == [] || !Acceptable(buy, price, vs[0].price)
    ensures NoLevelAt(y.views.At(!buy), price)
  {
    SideFacts(y, orders, !buy);
    var vs := y.views.At(!buy);
    forall i | 0 <= i < |vs| ensures vs[i].price != price {
      assert i == 0 || Ahead(!buy, vs[0].price, vs[i].price);
    }
  }

  /** The level that the index names for a price is on the side of the order to rest. */
  lemma {:induction false} OwnLevel(y: Layout, orders: set<Order>, buy: bool, price: Price) returns (k: nat)
    requires Structured(y, orders, null)
    requires price in y.index && y.index[price] != null
    requires var vs := y.views.At(!buy); vs == [] || !Acceptable(buy, price, vs[0].price)
    ensures k < |y.chains.At(buy)| == |y.views.At(buy)|
    ensures y.chains.At(buy)[k] == y.index[price] && y.views.At(buy)[k].price == price
  {
    ClearOfOpposite(y, orders, buy, price);
    k := LevelRank(y, orders, price, buy);
  }

  lemma {:induction false} LevelRank(y: Layout, orders: set<Order>, price: Price, buy: bool) returns (k: nat)
    requires Structured(y, orders, null)
    requires price in y.index && y.index[price] != null
    requires NoLevelAt(y.views.At(!buy), price)
    ensures k < |y.chains.At(buy)| == |y.views.At(buy)|
    ensures y.chains.At(buy)[k] == y.index[price] && y.views.At(buy)[k].price == price
  {
    var l := y.index[price];
    assert l in y.mem && y.mem[l].price == price;
    var side := IsBuy(y.mem[l].side);
    assert l in y.chains.At(side);
    k :| 0 <= k < |y.chains.At(side)| && y.chains.At(side)[k] == l;
    LevelFacts(y, orders, null, side, k);
    assert y.views.At(side)[k].price == price;
  }

  /** Appending to an existing level is the reference insertion on the flat book. */
  lemma {:induction false} AppendFlat(y: Layout, orders: set<Order>, buy: bool, k: nat, o: Resting)
    requires Structured(y, orders, null) && k < |y.views.At(buy)|
    requires y.views.At(buy)[k].price == o.price
    ensures Flat(Appended(y.views.At(buy), k, o)) == Insert(buy, Flat(y.views.At(buy)), o)
    ensures NeedsNoLink(buy, Flat(y.views.At(buy)), o.price) && HasPrice(Flat(y.views.At(buy)), o.price)
  {
    hide Structured, NeedsNoLink, HasPrice, Flat, Insert, Graded, NoneEmpty;
    SideFacts(y, orders, buy);
    AppendIsInsert(buy, y.views.At(buy), k, o);
    PriceAtLevel(buy, y.views.At(buy), k);
  }

  lemma {:induction false} PriceAtLevel(buy: bool, vs: seq<LevelView>, k: nat)
    requires Graded(buy, vs) && NoneEmpty(vs) && k < |vs|
    ensures HasPrice(Flat(vs), vs[k].price) && NeedsNoLink(buy, Flat(vs), vs[k].price)
  {
    PriceHasLevel(buy, vs, vs[k].price);
  }

  /** Opening a level and appending to it is the reference insertion on the flat book. */
  lemma {:induction false} OpenFlat(y: Layout, orders: set<Order>, buy: bool, level: OrdersPriceLevel,
                                    side: OrderSide, o: Resting)
    requires Structured(y, orders, null) && |y.chains.At(buy)| == |y.views.At(buy)|
    requires NoLevelAt(y.views.At(buy), o.price)
    ensures var k := Rank(buy, y.views.At(buy), o.price);
      var y' := WithLevel(y, buy, k, level, side, o.price);
      && k < |y'.chains.At(buy)| == |y'.views.At(buy)|
      && y'.chains.At(buy)[k] == level && y'.views.At(buy)[k] == LevelView(o.price, [])
      && y'.views.At(!buy) == y.views.At(!buy)
      && Flat(Appended(y'.views.At(buy), k, o)) == Insert(buy, Flat(y.views.At(buy)), o)
  {
    hide Structured, Flat, Insert, Graded, NoneEmpty, Appended, Rank, NoLevelAt;
    SideFacts(y, orders, buy);
    OpenThenAppend(buy, y.views.At(buy), o);
  }

  /** A price without an entry in the index is new to its side. */
  lemma {:induction false} FreshPrice(y: Layout, orders: set<Order>, buy: bool, price: Price)
    requires Structured(y, orders, null)
    requires price !in y.index || y.index[price] == null
    ensures NoLevelAt(y.views.At(buy), price)
    ensures !HasPrice(Flat(y.views.At(buy)), price)
    ensures Rank(buy, y.views.At(buy), price) == 0 <==> NeedsNoLink(buy, Flat(y.views.At(buy)), price)
  {
    PriceIsNew(buy, y.best.At(buy), y.chains.At(buy), y.views.At(buy), y.mem, y.index, price);
    SideFacts(y, orders, buy);
    PriceHasLevel(buy, y.views.At(buy), price);
    RankZero(buy, y.views.At(buy), price);
  }

  lemma {:induction false} AppendedViews(y: Layout, buy: bool, k: nat, queue: seq<Order>, o: Resting)
    requires k < |y.chains.At(buy)| == |y.views.At(buy)|
    ensures var y' := WithOrders(y, buy, k, queue, y.views.At(buy)[k].orders + [o]);
      y'.views.At(buy) == Appended(y.views.At(buy), k, o) && y'.views.At(!buy) == y.views.At(!buy)
  {}

  /** The reference cancel, seen from the level at the request's price. */
  lemma {:induction false} CancelFlat(y: Layout, orders: set<Order>, buy: bool, k: nat, id: OrderId, price: Price)
    requires Structured(y, orders, null) && k < |y.views.At(buy)| && y.views.At(buy)[k].price == price
    ensures Find(Flat(y.views.At(!buy)), price, id) == |Flat(y.views.At(!buy))|
    ensures var vs := y.views.At(buy);
      var f := FindId(vs[k].orders, id);
      var g := Find(Flat(vs), price, id);
      if f < |vs[k].orders| then
        g < |Flat(vs)| && Flat(vs)[g] == vs[k].orders[f]
        && Flat(vs[k := vs[k].(orders := RemoveAt(vs[k].orders, f))]) == RemoveAt(Flat(vs), g)
      else g == |Flat(vs)|
  {
    hide Structured, Flat, Find, Graded, NoneEmpty, FindId;
    SideFacts(y, orders, buy);
    SideFacts(y, orders, !buy);
    OtherSideClear(y, orders, buy, k);
    FindInLevel(buy, y.views.At(buy), k, id);
    FindNowhere(!buy, y.views.At(!buy), price, id);
    var f := FindId(y.views.At(buy)[k].orders, id);
    if f < |y.views.At(buy)[k].orders| {
      RemoveInLevel(y.views.At(buy), k, f);
    }
  }

  /** No price has a level on both sides. */
  lemma {:induction false} OtherSideClear(y: Layout, orders: set<Order>, buy: bool, k: nat)
    requires Structured(y, orders, null) && k < |y.views.At(buy)|
    ensures NoLevelAt(y.views.At(!buy), y.views.At(buy)[k].price)
  {
    var vs, ws := y.views.At(buy), y.views.At(!buy);
    forall i | 0 <= i < |ws| ensures ws[i].price != vs[k].price {
      assert k == 0 || Ahead(buy, vs[0].price, vs[k].price);
      assert i == 0 || Ahead(!buy, ws[0].price, ws[i].price);
    }
  }

  /** Without a level at the price, the reference cancel finds nothing. */
  lemma {:induction false} CancelNowhere(y: Layout, orders: set<Order>, price: Price, id: OrderId)
    requires Structured(y, orders, null) && (price !in y.index || y.index[price] == null)
    ensures Find(Flat(y.views.bids), price, id) == |Flat(y.views.bids)|
    ensures Find(Flat(y.views.asks), price, id) == |Flat(y.views.asks)|
  {
    hide Graded, NoneEmpty, Find, Flat;
    SideFacts(y, orders, true);
    SideFacts(y, orders, false);
    FreshPrice(y, orders, true, price);
    FreshPrice(y, orders, false, price);
    FindNowhere(true, y.views.bids, price, id);
    FindNowhere(false, y.views.asks, price, id);
  }

  /** Which chain the level in the index is on, and where. */
  lemma {:induction false} IndexedLevel(y: Layout, orders: set<Order>, price: Price) returns (buy: bool, k: nat)
    requires Structured(y, orders, null) && price in y.index && y.index[price] != null
    ensures k < |y.chains.At(buy)| == |y.views.At(buy)|
    ensures y.chains.At(buy)[k] == y.index[price] && y.views.At(buy)[k].price == price
  {
    var l := y.index[price];
    buy := IsBuy(y.mem[l].side);
    assert l in y.chains.At(buy);
    k :| 0 <= k < |y.chains.At(buy)| && y.chains.At(buy)[k] == l;
    LevelFacts(y, orders, null, buy, k);
  }

  /** Granted levels, chained levels and resting prices are equally many. */
  lemma {:induction false} LevelsCounted(y: Layout, orders: set<Order>)
    requires Structured(y, orders, null)
    ensures |y.mem.Keys| == PriceCount(Flat(y.views.bids)) + PriceCount(Flat(y.views.asks))
  {
    var bids, asks := set l | l in y.chains.bids, set l | l in y.chains.asks;
    ChainMembers(y, orders);
    DistinctLevels(true, y.best.bids, y.chains.bids, y.views.bids, y.mem);
    DistinctLevels(false, y.best.asks, y.chains.asks, y.views.asks, y.mem);
    hide Structured, Flat, Graded, NoneEmpty, Chain;
    ObjectPools.MembersOfDistinct(y.chains.bids);
    ObjectPools.MembersOfDistinct(y.chains.asks);
    SideFacts(y, orders, true);
    SideFacts(y, orders, false);
    LevelsArePrices(true, y.views.bids);
    LevelsArePrices(false, y.views.asks);
    assert |bids + asks| == |bids| + |asks|;
  }

  lemma {:induction false} ChainMembers(y: Layout, orders: set<Order>)
    requires Structured(y, orders, null)
    ensures y.mem.Keys == (set l | l in y.chains.bids) + (set l | l in y.chains.asks)
    ensures (set l | l in y.chains.bids) !! (set l | l in y.chains.asks)
    ensures |y.chains.bids| == |y.views.bids| && |y.chains.asks| == |y.views.asks|
  {
    hide Stocked, Indexed, Sorted;
    forall l | l in y.mem.Keys ensures l in y.chains.bids || l in y.chains.asks {
      assert l in y.mem && y.mem[l] == y.mem[l];
    }
  }
}
