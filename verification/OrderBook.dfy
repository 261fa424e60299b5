/** The order book of one ticker: price levels, matching and cancelling, on pooled objects. */
module OrderBooks {
  import opened Types
  import opened Matching
  import opened LevelViews
  import opened PriceLevels
  import opened ObjectPools
  import opened LFQueues
  import opened BookStructure
  import opened AsWritten
  import opened Limbos

  /** The links, prices and sides of the granted levels are those recorded in `mem`. */
  ghost predicate Fields(mem: Memory)
    reads mem.Keys`nextPriceLevel, mem.Keys`priceLevel, mem.Keys`side
  {
    forall l {:trigger mem[l]} :: l in mem ==>
      l.nextPriceLevel == mem[l].next && l.priceLevel == mem[l].price && l.side == mem[l].side
  }

  /** The orders of the granted levels are those recorded in `mem`, on sound cycles. */
  ghost predicate Lists(mem: Memory, orders: set<Order>)
    reads mem.Keys`topOrder, mem.Keys`queue, mem.Keys`view, orders
  {
    forall l {:trigger mem[l]} :: l in mem ==>
      && l.queue == mem[l].queue && l.view == mem[l].orders
      && (forall o :: o in l.queue ==> o in orders)
      && l.Valid()
  }

  /** The levels outside the chains are as recorded, on sound cycles of orders of their own. */
  ghost predicate Adrift(z: Limbo)
    reads z.mem.Keys`nextPriceLevel, z.mem.Keys`priceLevel, z.mem.Keys`side
    reads z.mem.Keys`topOrder, z.mem.Keys`queue, z.mem.Keys`view, z.orders
  {
    Fields(z.mem) && Lists(z.mem, z.orders)
  }

  lemma {:induction false} ListsWithout(y: Layout, buy: bool, k: nat, orders: set<Order>)
    requires Lists(y.mem, orders)
    requires k < |y.chains.At(buy)| == |y.views.At(buy)|
    requires y.chains.At(buy)[k] in y.mem && (k > 0 ==> y.chains.At(buy)[k - 1] in y.mem)
    ensures Lists(WithoutLevel(y, buy, k).mem, orders)
  {}

  lemma {:induction false} ListsWith(y: Layout, buy: bool, k: nat, level: OrdersPriceLevel, side: OrderSide,
                                     price: Price,
                  orders: set<Order>)
    requires Lists(y.mem, orders)
    requires k <= |y.chains.At(buy)| == |y.views.At(buy)| && level !in y.mem
    requires k > 0 ==> y.chains.At(buy)[k - 1] in y.mem
    requires level.Valid() && level.queue == []
    ensures Lists(WithLevel(y, buy, k, level, side, price).mem, orders)
  {}

  /** The real pointers lead from `best` through exactly `ls`. */
  ghost predicate Walk(best: OrdersPriceLevel?, ls: seq<OrdersPriceLevel>)
    reads ls`nextPriceLevel
  {
    && best == (if ls == [] then null else ls[0])
    && (forall i {:trigger ls[i].nextPriceLevel} :: 0 <= i < |ls| ==>
          ls[i].nextPriceLevel == (if i + 1 < |ls| then ls[i + 1] else null))
  }

  lemma {:induction false} WalkOf(buy: bool, best: OrdersPriceLevel?, ls: seq<OrdersPriceLevel>, vs: seq<LevelView>,
                                  mem: Memory)
    requires Chain(buy, best, ls, vs, mem) && Fields(mem)
    ensures Walk(best, ls)
  {
    forall i {:trigger ls[i].nextPriceLevel} | 0 <= i < |ls|
      ensures ls[i].nextPriceLevel == (if i + 1 < |ls| then ls[i + 1] else null)
    {
      LinkAt(best, ls, mem, i);
    }
  }

  /** Everything about the other levels, reading neither `l` nor its orders. */
  ghost function Except(mem: Memory, l: OrdersPriceLevel): Memory {
    mem - {l}
  }

  ghost function Others(orders: set<Order>, queue: seq<Order>): set<Order> {
    set o | o in orders && o !in queue
  }

  /** Every order is recorded at the price of its level. */
  ghost predicate AtOwnPrice(mem: Memory) {
    forall l {:trigger mem[l]} :: l in mem ==> forall j :: 0 <= j < |mem[l].orders| ==>
      mem[l].orders[j].price == mem[l].price
  }

  lemma {:induction false} StockedAtOwnPrice(mem: Memory, orders: set<Order>, hollow: OrdersPriceLevel?)
    requires Stocked(mem, orders, hollow)
    ensures AtOwnPrice(mem)
  {}

  /** No order is in the lists of two levels: the price of an order tells its level. */
  lemma {:induction false} DisjointQueues(mem: Memory, index: PriceIndex, orders: set<Order>,
                                          l: OrdersPriceLevel, l2: OrdersPriceLevel, o: Order)
    requires Lists(mem, orders) && Indexed(index, mem) && AtOwnPrice(mem)
    requires l in mem && l2 in mem && o in l.queue && o in l2.queue
    ensures l == l2
  {
    PriceOfMember(mem, orders, l, o);
    PriceOfMember(mem, orders, l2, o);
  }

  lemma {:induction false} PriceOfMember(mem: Memory, orders: set<Order>, l: OrdersPriceLevel, o: Order)
    requires Lists(mem, orders) && AtOwnPrice(mem) && l in mem && o in l.queue
    ensures o.limitPrice == mem[l].price
  {
    assert l.queue == mem[l].queue && l.view == mem[l].orders && l.Valid();
    var i :| 0 <= i < |l.queue| && l.queue[i] == o;
    assert l.view[i] == o.Data();
    assert mem[l].orders[i].price == mem[l].price;
  }

  lemma {:induction false} ListsSplit(mem: Memory, index: PriceIndex, orders: set<Order>, l: OrdersPriceLevel)
    requires Lists(mem, orders) && Indexed(index, mem) && AtOwnPrice(mem) && l in mem
    ensures Lists(Except(mem, l), Others(orders, l.queue))
    ensures l.queue == mem[l].queue && l.view == mem[l].orders && l.Valid()
    ensures forall o :: o in l.queue ==> o in orders
  {
    var mem', orders' := Except(mem, l), Others(orders, l.queue);
    assert l.queue == mem[l].queue;
    forall l2, o | l2 in mem' && o in l2.queue ensures o in orders' {
      assert l2.queue == mem[l2].queue;
      if o in l.queue {
        DisjointQueues(mem, index, orders, l, l2, o);
      }
    }
    forall l2 {:trigger mem'[l2]} | l2 in mem'
      ensures l2.queue == mem'[l2].queue && l2.view == mem'[l2].orders && l2.Valid()
    {
      assert l2.queue == mem[l2].queue && mem'[l2] == mem[l2];
    }
  }

  lemma {:induction false} ListsJoin(mem: Memory, others: set<Order>, l: OrdersPriceLevel, r: LevelRec,
                                     orders: set<Order>)
    requires Lists(Except(mem, l), others) && others <= orders
    requires l.Valid() && l.queue == r.queue && l.view == r.orders
    requires forall o :: o in l.queue ==> o in orders
    ensures Lists(mem[l := r], orders)
  {
    var mem' := mem[l := r];
    forall l2 {:trigger mem'[l2]} | l2 in mem'
      ensures l2.queue == mem'[l2].queue && l2.view == mem'[l2].orders && l2.Valid()
      ensures forall o :: o in l2.queue ==> o in orders
    {
      if l2 != l {
        assert l2 in Except(mem, l) && Except(mem, l)[l2] == mem'[l2];
      }
    }
  }

  lemma {:induction false} FieldsExcept(mem: Memory, l: OrdersPriceLevel?)
    requires Fields(mem)
    ensures Fields(mem - {l})
    ensures l != null && l in mem ==>
      l.nextPriceLevel == mem[l].next && l.priceLevel == mem[l].price && l.side == mem[l].side
  {}

  lemma {:induction false} FieldsJoined(ls: seq<OrdersPriceLevel>, mem: Memory, k: nat, level: OrdersPriceLevel,
                     prev: OrdersPriceLevel?)
    requires k <= |ls| && level !in mem && prev == (if k > 0 then ls[k - 1] else null)
    requires level.nextPriceLevel == if k < |ls| then ls[k] else null
    requires Fields(mem - {prev})
    requires prev != null ==>
      prev in mem && prev.nextPriceLevel == level && prev.priceLevel == mem[prev].price && prev.side == mem[prev].side
    ensures Fields(Joined(ls, mem, k, level, level.side, level.priceLevel))
  {
    var mem' := Joined(ls, mem, k, level, level.side, level.priceLevel);
    forall l {:trigger mem'[l]} | l in mem'
      ensures l.nextPriceLevel == mem'[l].next && l.priceLevel == mem'[l].price && l.side == mem'[l].side
    {
      if l != level && l != prev {
        assert l in mem - {prev} && (mem - {prev})[l] == mem[l];
      }
    }
  }

  lemma {:induction false} FieldsUnlinked(ls: seq<OrdersPriceLevel>, mem: Memory, k: nat, prev: OrdersPriceLevel?)
    requires k < |ls| && prev == (if k > 0 then ls[k - 1] else null)
    requires Fields(mem - {prev})
    requires prev != null ==>
      prev in mem && prev.nextPriceLevel == Rec(mem, ls[k]).next && prev.priceLevel == mem[prev].price
      && prev.side == mem[prev].side
    ensures Fields(Unlinked(ls, mem, k))
  {
    var mem' := Unlinked(ls, mem, k);
    forall l {:trigger mem'[l]} | l in mem'
      ensures l.nextPriceLevel == mem'[l].next && l.priceLevel == mem'[l].price && l.side == mem'[l].side
    {
      if l != prev {
        assert l in mem - {prev} && (mem - {prev})[l] == mem[l];
      }
    }
  }

  lemma {:induction false} FieldsRefilled(mem: Memory, l: OrdersPriceLevel, queue: seq<Order>, orders: seq<Resting>)
    requires Fields(mem) && l in mem
    ensures Fields(mem[l := Rec(mem, l).(queue := queue, orders := orders)])
  {}

  lemma {:induction false} TopOfLevel(l: OrdersPriceLevel)
    requires l.Valid() && l.queue != []
    ensures l.topOrder == l.queue[0] && l.topOrder in l.queue && l.view != [] && l.view[0] == l.queue[0].Data()
  {}

  lemma {:induction false} EmptyQueue(l: OrdersPriceLevel)
    requires l.Valid()
    ensures l.queue == [] <==> l.view == []
  {}

  lemma {:induction false} EmptySynced()
    ensures Fields(map[]) && Lists(map[], {}) && Adrift(NO_LIMBO)
  {}

  /** A level as it is recorded. */
  ghost function RecOf(l: OrdersPriceLevel): LevelRec
    reads l`nextPriceLevel, l`priceLevel, l`side, l`queue, l`view
  {
    LevelRec(l.nextPriceLevel, l.priceLevel, l.side, l.queue, l.view)
  }

  lemma {:induction false} AdriftWithout(z: Limbo, price: Price)
    requires Adrift(z) && Sound(z) && price in z.index
    ensures Adrift(Without(z, price))
    ensures var l := z.index[price];
      && l in z.mem && l.Valid() && l.queue == z.mem[l].queue && l.view == z.mem[l].orders
      && l.priceLevel == z.mem[l].price == price && l.side == z.mem[l].side && l.nextPriceLevel == z.mem[l].next
      && (forall o :: o in l.queue ==> o in z.orders && o !in Without(z, price).orders)
  {
    hide PriceLevels.OrdersPriceLevel.Valid;
    var l := z.index[price];
    assert z.mem[l].price == price;
    LimboAtOwnPrice(z);
    ListsSplit(z.mem, z.index, z.orders, l);
    FieldsExcept(z.mem, l);
    assert Others(z.orders, l.queue) == Without(z, price).orders;
  }

  /** What is left of the limbo without one level, and what that level is. */
  lemma {:induction false} LimboWithout(y: Layout, z: Limbo, price: Price)
    requires Adrift(z) && Sound(z) && Beside(y, z) && price in z.index
    ensures var w := Without(z, price);
      && Adrift(w) && Sound(w) && Beside(y, w)
      && price !in w.index && z.index == w.index[price := z.index[price]] && w.orders <= z.orders
      && StraysOf(w) == StraysOf(z) - {price}
    ensures var l, w := z.index[price], Without(z, price);
      && l in z.mem && w.mem.Keys == z.mem.Keys - {l} && l !in y.mem && (price in y.index ==> y.index[price] == null)
      && l.Valid() && l.priceLevel == price && Priced(price, l.view) && l.view != []
      && (forall o :: o in l.queue ==> o in z.orders && o !in w.orders)
      && price in StraysOf(z) && StraysOf(z)[price] == StrayOf(RecOf(l))
  {
    hide Beside, PriceLevels.OrdersPriceLevel.Valid;
    SoundWithout(z, price);
    BesideLess(y, z, price);
    AdriftWithout(z, price);
    var l := z.index[price];
    assert Priced(z.mem[l].price, z.mem[l].orders);
    assert z.mem[l] == RecOf(l);
  }

  lemma {:induction false} LimboAtOwnPrice(z: Limbo)
    requires Sound(z)
    ensures AtOwnPrice(z.mem)
  {}

  lemma {:induction false} AdriftWith(z: Limbo, l: OrdersPriceLevel)
    requires Adrift(z) && l !in z.mem && l.Valid()
    ensures Adrift(With(z, l, RecOf(l)))
  {
    hide PriceLevels.OrdersPriceLevel.Valid;
    var r := RecOf(l);
    assert Except(z.mem, l) == z.mem;
    ListsJoin(z.mem, z.orders, l, r, With(z, l, r).orders);
  }

  /** Orders that are in no list may be set aside for the chains. */
  lemma {:induction false} KeptGrows(y: Layout, kept: set<Order>, more: set<Order>)
    requires Lists(y.mem, kept) && Structured(y, kept, null) && kept <= more
    ensures Lists(y.mem, more) && Structured(y, more, null)
  {
    hide Chain, Reachable, Indexed, Apart, PriceLevels.OrdersPriceLevel.Valid;
  }

  /** The level at rank `k` of a chain, or null behind the last one. */
  ghost function LevelAtRank(ls: seq<OrdersPriceLevel>, k: nat): OrdersPriceLevel? {
    if k < |ls| then ls[k] else null
  }

  /** The level is on no such chain, and no level of the chain has its price. */
  ghost predicate Absent(l: OrdersPriceLevel, ls: seq<OrdersPriceLevel>, vs: seq<LevelView>)
    reads l`priceLevel
  {
    l !in ls && |ls| == |vs| && forall i :: 0 <= i < |vs| ==> vs[i].price != l.priceLevel
  }

  class OrderBook {
    const tickerId: TickerId
    /**
     * Whether `InsertPriceLevel` links the predecessor to the new level. The repository's code does
     * not; `true` adds the one missing `setNextPriceLevel` call and is the only deviation in behaviour.
     */
    const linked: bool
    const orderPool: ObjectPool<Order>
    const levelPool: ObjectPool<OrdersPriceLevel>
    const responses: LFQueue<ClientResponse>
    const updates: LFQueue<MarketUpdate>
    var priceLevels: map<Price, OrdersPriceLevel?>
    var bestBids: OrdersPriceLevel?
    var bestAsks: OrdersPriceLevel?

    ghost const footprint: set<object>  // every object the book writes besides itself and the queues
    ghost var layout: Layout            // the structure that the fields implement
    ghost var limbo: Limbo              // the levels that are in the map and on no chain

    function Best(buy: bool): OrdersPriceLevel?
      reads this`bestBids, this`bestAsks
    {
      if buy then bestBids else bestAsks
    }

    /** The pools and the queues occupy different memory. */
    ghost predicate Owns() {
      && orderPool in footprint && orderPool.available in footprint
      && levelPool in footprint && levelPool.available in footprint
      && orderPool.available != levelPool.available
      && (forall o :: o in orderPool.store ==> o in footprint)
      && (forall l :: l in levelPool.store ==> l in footprint)
      && this !in footprint
      && responses !in footprint && responses.data !in footprint
      && updates !in footprint && updates.data !in footprint
    }

    /** The best levels and the levels of the chains implement `y`. */
    ghost predicate Synced(y: Layout)
      reads this`bestBids, this`bestAsks
      reads y.mem.Keys`nextPriceLevel, y.mem.Keys`priceLevel, y.mem.Keys`side
    {
      bestBids == y.best.bids && bestAsks == y.best.asks && Fields(y.mem)
    }

    /** The orders in use apart from those outside the chains. */
    ghost function Kept(): set<Order>
      reads this`limbo, orderPool`live
    {
      orderPool.live - limbo.orders
    }

    /** The pools are sound, and their objects are within the footprint. */
    ghost predicate Pooled()
      reads orderPool, orderPool.available, levelPool, levelPool.available
    {
      && orderPool.Valid() && levelPool.Valid()
      && (forall l :: l in levelPool.live ==> l in footprint)
      && (forall o :: o in orderPool.live ==> o in footprint)
    }

    /** The levels in limbo are intact and apart from `y`. */
    ghost predicate Drifting(y: Layout)
      reads this`limbo, footprint
    {
      && (forall l :: l in limbo.mem ==> l in footprint) && (forall o :: o in limbo.orders ==> o in footprint)
      && Adrift(limbo) && Sound(limbo) && Beside(y, limbo)
    }

    /** The map names the levels of the chains, those in limbo, and `l` at `price`. */
    ghost predicate Names(price: Price, l: OrdersPriceLevel?)
      reads this`priceLevels, this`layout, this`limbo
    {
      priceLevels == (layout.index + limbo.index)[price := l]
    }

    /** All of the book but its best pointers implements `y`, beside the limbo. */
    ghost predicate Furnished(y: Layout, hollow: OrdersPriceLevel?)
      reads this`priceLevels, this`limbo, footprint
    {
      && Owns() && Pooled()
      && y.mem.Keys + limbo.mem.Keys == levelPool.live && limbo.orders <= orderPool.live
      && priceLevels == y.index + limbo.index
      && Lists(y.mem, Kept()) && Structured(y, Kept(), hollow)
      && Drifting(y)
    }

    /** The book implements `y`, beside the limbo; only the level `hollow` may have run empty. */
    ghost predicate Implements(y: Layout, hollow: OrdersPriceLevel?)
      reads this`bestBids, this`bestAsks, this`priceLevels, this`limbo, footprint
    {
      Furnished(y, hollow) && Synced(y)
    }

    ghost predicate Consistent(hollow: OrdersPriceLevel?)
      reads this, footprint
    {
      Implements(layout, hollow)
    }

    ghost method Adopt(y: Layout, hollow: OrdersPriceLevel?)
      requires Implements(y, hollow)
      modifies this`layout
      ensures layout == y && Consistent(hollow)
    {
      hide Structured, Lists, Fields, Adrift, Sound, Beside, Pooled;
      layout := y;
    }

    ghost predicate Valid()
      reads this, footprint
    {
      Consistent(null)
    }

    /** The links are those of the layout, and so is the best level of the other side; this one's is `best`. */
    ghost predicate Sidelined(buy: bool, best: OrdersPriceLevel?)
      reads this`bestBids, this`bestAsks, this`layout
      reads layout.mem.Keys`nextPriceLevel, layout.mem.Keys`priceLevel, layout.mem.Keys`side
    {
      && Fields(layout.mem) && layout.best.At(buy) == null
      && Best(buy) == best && Best(!buy) == layout.best.At(!buy)
    }

    /** As in `Valid`, except that the best pointer of side `buy` is `best` while its chain is empty. */
    ghost predicate Aside(buy: bool, best: OrdersPriceLevel?)
      reads this, footprint
    {
      Furnished(layout, null) && Sidelined(buy, best)
    }

    lemma {:induction false} ValidUnlessAside(buy: bool, best: OrdersPriceLevel?)
      requires Aside(buy, best)
      ensures Valid() <==> best == null
    {
      hide Fields, Lists, Structured, Drifting, Pooled;
    }

    /** The abstract book: what the chains hold. */
    ghost function Book(): Matching.Book
      reads this`layout
    {
      FlatBook(layout.views)
    }

    /** What the map names beside the chains. */
    ghost function OffChain(): Strays
      reads this`limbo
    {
      StraysOf(limbo)
    }

    /** The successor of the level that the map has at this price. */
    ghost function SuccessorAt(price: Price): OrdersPriceLevel?
      reads this`priceLevels
      reads if price in priceLevels && priceLevels[price] != null then {priceLevels[price]} else {}
    {
      if price in priceLevels && priceLevels[price] != null then priceLevels[price].nextPriceLevel else null
    }

    ghost function DeskNow(): Desk
      reads this`layout, this`limbo
    {
      Desk(Book(), OffChain())
    }

    constructor (tickerId: TickerId, responses: LFQueue<ClientResponse>, updates: LFQueue<MarketUpdate>,
                 orderCapacity: nat, levelCapacity: nat, linked: bool)
      requires orderCapacity > 0 && levelCapacity > 0
      ensures Owns() && Valid() && Book() == EMPTY_BOOK && fresh(footprint)
      ensures this.tickerId == tickerId && this.linked == linked
      ensures this.responses == responses && this.updates == updates
      ensures |orderPool.store| == orderCapacity && |levelPool.store| == levelCapacity
      ensures orderPool.live == {} && levelPool.live == {} && OffChain() == map[]
    {
      hide Structured, Lists, Fields, Adrift, Sound, Beside, StraysOf, ObjectPools.ObjectPool.Valid;
      EmptyStructured();
      EmptySynced();
      NoLimboIsSound();
      this.tickerId, this.linked, this.responses, this.updates := tickerId, linked, responses, updates;
      var orderPool, orderObjects := NewOrderPool(orderCapacity);
      var levelPool, levelObjects := NewLevelPool(levelCapacity);
      this.orderPool, this.levelPool := orderPool, levelPool;
      priceLevels, bestBids, bestAsks := map[], null, null;
      footprint := orderObjects + levelObjects;
      layout, limbo := EMPTY_LAYOUT, NO_LIMBO;
      new;
      assert priceLevels == layout.index + limbo.index && Kept() == {};
    }

    static method NewOrderPool(size: nat) returns (pool: ObjectPool<Order>, ghost all: set<object>)
      requires size > 0
      ensures pool.Valid() && pool.live == {} && |pool.store| == size
      ensures fresh(all) && pool in all && pool.available in all
      ensures forall x :: x in pool.store ==> x in all
    {
      var orders: seq<Order> := [];
      all := {};
      while |orders| < size
        invariant |orders| <= size && fresh(all) && forall x :: x in orders ==> x in all
        invariant forall i, j :: 0 <= i < j < |orders| ==> orders[i] != orders[j]
      {
        var order := new Order();
        orders, all := orders + [order], all + {order};
      }
      pool := new ObjectPool(orders);
      all := all + {pool, pool.available};
    }

    static method NewLevelPool(size: nat) returns (pool: ObjectPool<OrdersPriceLevel>, ghost all: set<object>)
      requires size > 0
      ensures pool.Valid() && pool.live == {} && |pool.store| == size
      ensures fresh(all) && pool in all && pool.available in all
      ensures forall x :: x in pool.store ==> x in all
    {
      var levels: seq<OrdersPriceLevel> := [];
      all := {};
      while |levels| < size
        invariant |levels| <= size && fresh(all) && forall x :: x in levels ==> x in all
        invariant forall i, j :: 0 <= i < j < |levels| ==> levels[i] != levels[j]
      {
        var level := new OrdersPriceLevel();
        levels, all := levels + [level], all + {level};
      }
      pool := new ObjectPool(levels);
      all := all + {pool, pool.available};
    }

    /**
     * The level in front of `level` in its chain, or null for the best one and for a side without levels.
     * For a level outside the chains whose side has a best level, the walk runs off the end: then
     * `found` is false, where the repository's code goes on through a null pointer.
     */
    method Predecessor(level: OrdersPriceLevel, buy: bool, ghost kept: bool, ghost k: nat)
      returns (found: bool, prev: OrdersPriceLevel?)
      requires Synced(layout) && Chain(buy, layout.best.At(buy), layout.chains.At(buy), layout.views.At(buy),
          layout.mem)
      requires kept ==> k < |layout.chains.At(buy)| && layout.chains.At(buy)[k] == level
      requires !kept ==> Absent(level, layout.chains.At(buy), layout.views.At(buy))
      ensures found <==> kept || Best(buy) == null
      ensures found ==> prev == if !kept || k == 0 then null else layout.chains.At(buy)[k - 1]
    {
      hide Chain;
      ghost var best, ls, vs, mem := layout.best.At(buy), layout.chains.At(buy), layout.views.At(buy), layout.mem;
      DistinctLevels(buy, best, ls, vs, mem);
      ChainEnds(buy, best, ls, vs, mem);
      if level == Best(buy) {
        return true, null;
      }
      found, prev := true, Best(buy);
      if prev != null {
        ghost var i := 0;
        LevelAt(buy, best, ls, vs, mem, 0);
        if kept {
          LevelAt(buy, best, ls, vs, mem, k);
        }
        while prev.nextPriceLevel != null && prev.nextPriceLevel.priceLevel != level.priceLevel
          invariant 0 <= i < |ls| && (kept ==> i < k) && prev == ls[i]
          invariant prev.nextPriceLevel == if i + 1 < |ls| then ls[i + 1] else null
          decreases |ls| - i
        {
          LevelAt(buy, best, ls, vs, mem, i + 1);
          prev := prev.nextPriceLevel;
          i := i + 1;
        }
        found := prev.nextPriceLevel != null;
        if found {
          LevelAt(buy, best, ls, vs, mem, i + 1);
        }
        if kept {
          ChainSortedAt(buy, best, ls, vs, mem, i + 1, k);
        }
      }
    }

    /** Lets the neighbours of a level meet and clears its entry in the map. */
    method UnlinkPriceLevel(level: OrdersPriceLevel, buy: bool, ghost kept: bool, ghost k: nat) returns (found: bool)
      requires Synced(layout) && Chain(buy, layout.best.At(buy), layout.chains.At(buy), layout.views.At(buy),
          layout.mem)
      requires kept ==> k < |layout.chains.At(buy)| && layout.chains.At(buy)[k] == level
      requires !kept ==> Absent(level, layout.chains.At(buy), layout.views.At(buy))
      modifies this`bestBids, this`bestAsks, this`priceLevels, layout.chains.At(buy)`nextPriceLevel
      ensures found <==> kept || old(Best(buy)) == null
      ensures found ==> priceLevels == old(priceLevels)[level.priceLevel := null]
      ensures kept ==> k < |layout.chains.At(buy)| == |layout.views.At(buy)| && Synced(WithoutLevel(layout, buy, k))
      ensures found && !kept ==> Sidelined(buy, old(level.nextPriceLevel))
    {
      hide Chain, Fields, Unlinked;
      ChainEnds(buy, Best(buy), layout.chains.At(buy), layout.views.At(buy), layout.mem);
      if kept {
        ChainFacts(buy, Best(buy), layout.chains.At(buy), layout.views.At(buy), layout.mem, k);
        FieldsExcept(layout.mem, level);
      }
      var prev;
      found, prev := Predecessor(level, buy, kept, k);
      if !found {
        return;
      }
      FieldsExcept(layout.mem, prev);
      if prev == null {
        if buy {
          bestBids := level.nextPriceLevel;
        } else {
          bestAsks := level.nextPriceLevel;
        }
      } else {
        prev.nextPriceLevel := level.nextPriceLevel;
      }
      priceLevels := priceLevels[level.priceLevel := null];
      if kept {
        FieldsUnlinked(layout.chains.At(buy), layout.mem, k, prev);
      }
    }

    /** Records that an emptied level has left its chain, the map and the pool. */
    ghost method RecordRemoval(buy: bool, k: nat)
      requires k < |layout.chains.At(buy)| == |layout.views.At(buy)|
      requires var l := layout.chains.At(buy)[k];
        && Structured(layout, Kept(), l) && l in layout.mem
        && layout.mem.Keys + limbo.mem.Keys == levelPool.live + {l} && l !in levelPool.live
        && Names(Rec(layout.mem, l).price, null)
        && layout.views.At(buy)[k].price == Rec(layout.mem, l).price
      requires Owns() && Pooled() && limbo.orders <= orderPool.live
      requires Synced(WithoutLevel(layout, buy, k)) && Lists(layout.mem, Kept()) && Drifting(layout)
      modifies this`layout
      ensures Valid() && layout == WithoutLevel(old(layout), buy, k)
    {
      hide Structured, Chain, Lists, Synced, Adrift, Sound, Beside, WithoutLevel, Rec, Pooled;
      ChainOf(layout, Kept(), layout.chains.At(buy)[k], buy);
      WithoutLevelKeys(layout, buy, k);
      StructuredRemoved(layout, Kept(), buy, k);
      ListsWithout(layout, buy, k, Kept());
      BesideWithout(layout, limbo, buy, k);
      NamedWithout(buy, k);
      Adopt(WithoutLevel(layout, buy, k), null);
    }

    /** The map and the granted levels without the emptied level. */
    lemma {:induction false} NamedWithout(buy: bool, k: nat)
      requires k < |layout.chains.At(buy)| == |layout.views.At(buy)|
      requires var l := layout.chains.At(buy)[k];
        && Structured(layout, Kept(), l) && Beside(layout, limbo)
        && layout.mem.Keys + limbo.mem.Keys == levelPool.live + {l} && l !in levelPool.live
        && Names(Rec(layout.mem, l).price, null)
        && layout.views.At(buy)[k].price == Rec(layout.mem, l).price
      ensures WithoutLevel(layout, buy, k).mem.Keys + limbo.mem.Keys == levelPool.live
      ensures priceLevels == WithoutLevel(layout, buy, k).index + limbo.index
    {
      hide Structured, Chain, Beside, WithoutLevel, Rec;
      ChainOf(layout, Kept(), layout.chains.At(buy)[k], buy);
      ChainsBeside(layout, Kept(), layout.chains.At(buy)[k], limbo, buy);
      WithoutLevelKeys(layout, buy, k);
      WithoutLevelIndex(layout, buy, k);
    }

    /** Records that an emptied level outside the chains has left the map and the pool. */
    ghost method RecordStrayGone(price: Price, orders: set<Order>, buy: bool, best: OrdersPriceLevel?)
      requires Owns() && Pooled() && limbo.orders <= orderPool.live && orders <= Kept()
      requires layout.mem.Keys + limbo.mem.Keys == levelPool.live
      requires Sidelined(buy, best) && Names(price, null)
      requires price !in limbo.index && (price in layout.index ==> layout.index[price] == null)
      requires Lists(layout.mem, orders) && Structured(layout, orders, null) && Drifting(layout)
      modifies this`layout
      ensures Aside(buy, best) && layout == old(layout.(index := layout.index[price := null]))
    {
      hide Structured, Lists, Fields, Adrift, Sound, Pooled;
      KeptGrows(layout, orders, Kept());
      NullEntry(layout, Kept(), price);
      EntryBeside(layout.index, limbo.index, price, null);
      layout := layout.(index := layout.index[price := null]);
    }

    /** The two steps of `removePriceLevel`: the pointers and the map, then the pool. */
    method UnlinkAndRelease(level: OrdersPriceLevel, buy: bool, ghost kept: bool, ghost k: nat,
                            ghost orders: set<Order>) returns (found: bool)
      requires Owns() && Pooled() && level in levelPool.live && orders <= orderPool.live
      requires Synced(layout) && Chain(buy, layout.best.At(buy), layout.chains.At(buy), layout.views.At(buy),
          layout.mem)
      requires kept ==> k < |layout.chains.At(buy)| && layout.chains.At(buy)[k] == level
      requires !kept ==> Absent(level, layout.chains.At(buy), layout.views.At(buy))
      requires forall l :: l in layout.chains.At(buy) ==> l !in limbo.mem && l in layout.mem
      requires Lists(layout.mem, orders) && Drifting(layout)
      modifies this`bestBids, this`bestAsks, this`priceLevels
      modifies levelPool, levelPool.available, layout.chains.At(buy)`nextPriceLevel
      ensures found <==> kept || old(Best(buy)) == null
      ensures found ==> Pooled() && Lists(layout.mem, orders) && Drifting(layout)
      ensures found ==> priceLevels == old(priceLevels)[level.priceLevel := null]
      ensures found ==> levelPool.live == old(levelPool.live) - {level}
      ensures kept ==> k < |layout.chains.At(buy)| == |layout.views.At(buy)| && Synced(WithoutLevel(layout, buy, k))
      ensures found && !kept ==> Sidelined(buy, old(level.nextPriceLevel))
    {
      hide Chain, Lists, Fields, Adrift, Sound, Beside, Synced, ObjectPools.ObjectPool.Valid, WithoutLevel;
      ChainEnds(buy, layout.best.At(buy), layout.chains.At(buy), layout.views.At(buy), layout.mem);
      if kept {
        WithoutLevelKeys(layout, buy, k);
      }
      found := UnlinkPriceLevel(level, buy, kept, k);
      if found {
        var released := levelPool.ReleaseObject(level);
      }
    }

    /**
     * Takes an emptied level out of its chain and the map, and returns it to the pool. False when the
     * search for its predecessor ends the process. A level outside the chains leaves its own successor
     * behind as the best level of a side that has none.
     */
    method RemovePriceLevel(level: OrdersPriceLevel, ghost kept: bool, ghost k: nat, ghost orders: set<Order>)
      returns (found: bool)
      requires var buy := IsBuy(level.side);
        kept ==> Consistent(level) && k < |layout.chains.At(buy)| && layout.chains.At(buy)[k] == level
                 && layout.views.At(buy)[k].orders == []
      requires !kept ==> Detached(level, level.priceLevel, orders)
      modifies this`bestBids, this`bestAsks, this`priceLevels, this`layout
      modifies levelPool, levelPool.available, layout.chains.At(IsBuy(level.side))`nextPriceLevel
      ensures found <==> kept || old(Best(IsBuy(level.side))) == null
      ensures kept ==> Valid() && layout == WithoutLevel(old(layout), IsBuy(old(level.side)), k)
      ensures found && !kept ==> Aside(IsBuy(old(level.side)), old(level.nextPriceLevel))
      ensures found && !kept ==> layout == old(layout.(index := layout.index[level.priceLevel := null]))
      ensures found ==> levelPool.live == old(levelPool.live) - {level}
    {
      hide Structured, Chain, Lists, Fields, Adrift, Sound, Beside, Synced, ObjectPools.ObjectPool.Valid, WithoutLevel;
      var buy := IsBuy(level.side);
      ghost var set0 := if kept then Kept() else orders;
      if kept {
        LevelFacts(layout, Kept(), level, buy, k);
        PriceOfLevel(layout, level);
        ChainsBeside(layout, Kept(), level, limbo, buy);
      } else {
        ChainOf(layout, orders, null, buy);
        ChainsBeside(layout, orders, null, limbo, buy);
        NotOnChain(level, level.priceLevel, orders, buy);
      }
      ghost var next := level.nextPriceLevel;
      found := UnlinkAndRelease(level, buy, kept, k, set0);
      if kept {
        RecordRemoval(buy, k);
      } else if found {
        RecordStrayGone(level.priceLevel, orders, buy, next);
      }
    }

    /** A level that the map names beside the chains is on none, and none has its price. */
    lemma {:induction false} NotOnChain(l: OrdersPriceLevel, price: Price, orders: set<Order>, buy: bool)
      requires Detached(l, price, orders) && l.priceLevel == price
      ensures Absent(l, layout.chains.At(buy), layout.views.At(buy))
    {
      hide Lists, Fields, Adrift, Sound, Beside, Synced, ObjectPools.ObjectPool.Valid, Apart, Reachable, Stocked;
      ChainOf(layout, orders, null, buy);
      forall i | 0 <= i < |layout.chains.At(buy)| ensures layout.views.At(buy)[i].price != price {
        LevelFacts(layout, orders, null, buy, i);
      }
    }

    lemma {:induction false} PriceOfLevel(y: Layout, l: OrdersPriceLevel)
      requires Synced(y) && l in y.mem
      ensures l.priceLevel == Rec(y.mem, l).price
    {}

    /** The first level that is not better than `price`, the one in front of it, and its rank. */
    method Neighbours(buy: bool, price: Price)
      returns (prev: OrdersPriceLevel?, next: OrdersPriceLevel?, ghost k: nat)
      requires Synced(layout) && Chain(buy, layout.best.At(buy), layout.chains.At(buy), layout.views.At(buy),
          layout.mem)
      ensures k == Rank(buy, layout.views.At(buy), price) && k <= |layout.chains.At(buy)|
      ensures var n := Rank(buy, layout.views.At(buy), price);
        && next == (if n < |layout.chains.At(buy)| then layout.chains.At(buy)[n] else null)
        && prev == (if 0 < n <= |layout.chains.At(buy)| then layout.chains.At(buy)[n - 1] else null)
    {
      hide Chain;
      ghost var best, ls, vs, mem := layout.best.At(buy), layout.chains.At(buy), layout.views.At(buy), layout.mem;
      ChainEnds(buy, best, ls, vs, mem);
      prev, next, k := null, Best(buy), 0;
      while next != null && Ahead(buy, next.priceLevel, price)
        invariant k <= |ls|
        invariant next == if k < |ls| then ls[k] else null
        invariant prev == if k > 0 then ls[k - 1] else null
        invariant forall i :: 0 <= i < k ==> Ahead(buy, vs[i].price, price)
        decreases |ls| - k
      {
        LevelAt(buy, best, ls, vs, mem, k);
        prev, next, k := next, next.nextPriceLevel, k + 1;
      }
      if k < |ls| {
        LevelAt(buy, best, ls, vs, mem, k);
      }
      RankIs(buy, vs, price, k);
    }

    /** Takes a level from the pool and constructs it in place; None when the pool aborts. */
    method OpenPriceLevel(side: OrderSide, price: Price, next: OrdersPriceLevel?)
      returns (level: Option<OrdersPriceLevel>)
      requires levelPool.Valid() && layout.mem.Keys <= levelPool.live && limbo.mem.Keys <= levelPool.live
      requires Owns() && orderPool.Valid() && Synced(layout) && Lists(layout.mem, Kept()) && Adrift(limbo)
      modifies levelPool, levelPool.available, set l | l in levelPool.store && l !in levelPool.live
      ensures Synced(layout) && orderPool.Valid() && Lists(layout.mem, Kept()) && Adrift(limbo)
      ensures level.Some? <==> |old(levelPool.live)| + 1 < |levelPool.store|
      ensures level.Some? ==> var l := level.value;
        && l in levelPool.store && l !in old(levelPool.live)
        && levelPool.Valid() && levelPool.live == old(levelPool.live) + {l}
        && l.Valid() && l.queue == [] && l.view == []
        && l.nextPriceLevel == next && l.priceLevel == price && l.side == side
    {
      hide Fields, Lists, Adrift, Synced, ObjectPools.ObjectPool.Valid, PriceLevels.OrdersPriceLevel.Valid;
      level := GrantLevel();
      if level.Some? {
        level.value.Init(side, price, next);
      }
    }

    /** `price_level_pool.getObject`: the pool is no part of what the book records. */
    method GrantLevel() returns (level: Option<OrdersPriceLevel>)
      requires levelPool.Valid() && Owns() && orderPool.Valid()
      requires Synced(layout) && Lists(layout.mem, Kept()) && Adrift(limbo)
      modifies levelPool, levelPool.available
      ensures Synced(layout) && orderPool.Valid() && Lists(layout.mem, Kept()) && Adrift(limbo)
      ensures level.Some? <==> |old(levelPool.live)| + 1 < |levelPool.store|
      ensures level.Some? ==> var l := level.value;
        && l in levelPool.store && l !in old(levelPool.live)
        && levelPool.Valid() && levelPool.live == old(levelPool.live) + {l}
    {
      hide Fields, Lists, Adrift, Synced, ObjectPools.ObjectPool.Valid, PriceLevels.OrdersPriceLevel.Valid;
      level := levelPool.GetObject();
    }

    /** Puts a constructed level into the map and, as far as `linked` allows, into its chain. */
    method LinkPriceLevel(level: OrdersPriceLevel, prev: OrdersPriceLevel?, next: OrdersPriceLevel?, ghost k: nat)
      requires var buy := IsBuy(level.side);
        Synced(layout) && Chain(buy, layout.best.At(buy), layout.chains.At(buy), layout.views.At(buy), layout.mem)
      requires var ls := layout.chains.At(IsBuy(level.side));
        && k <= |ls|
        && prev == (if k > 0 then ls[k - 1] else null) && next == (if k < |ls| then ls[k] else null)
      requires level !in layout.mem && level.nextPriceLevel == next
      requires levelPool.Valid() && orderPool.Valid() && Lists(layout.mem, Kept()) && Adrift(limbo)
      requires forall l :: l in layout.chains.At(IsBuy(level.side)) ==> l !in limbo.mem
      modifies this`bestBids, this`bestAsks, this`priceLevels, layout.chains.At(IsBuy(level.side))`nextPriceLevel
      ensures priceLevels == old(priceLevels)[level.priceLevel := level]
      ensures levelPool.Valid() && orderPool.Valid() && Lists(layout.mem, Kept()) && Adrift(limbo)
      ensures k <= |layout.chains.At(IsBuy(level.side))| == |layout.views.At(IsBuy(level.side))|
      ensures linked || k == 0 ==>
        Synced(WithLevel(layout, IsBuy(level.side), k, level, level.side, level.priceLevel))
      ensures !linked && k > 0 ==> Synced(layout)
      ensures level.nextPriceLevel == next
    {
      hide Chain, Lists, Fields, Adrift, Joined, Rec, ObjectPools.ObjectPool.Valid, PriceLevels.OrdersPriceLevel.Valid;
      var buy := IsBuy(level.side);
      ghost var best, ls, vs, mem := layout.best.At(buy), layout.chains.At(buy), layout.views.At(buy), layout.mem;
      ChainEnds(buy, best, ls, vs, mem);
      StopsAtBest(buy, best, ls, vs, mem, k);
      FieldsExcept(mem, prev);
      priceLevels := priceLevels[level.priceLevel := level];
      if next == Best(buy) {
        if buy {
          bestBids := level;
        } else {
          bestAsks := level;
        }
      } else if linked {
        prev.nextPriceLevel := level;  // missing in the repository
      }
      if linked || k == 0 {
        FieldsJoined(ls, mem, k, level, prev);
      }
    }

    /**
     * Everything but `l`, a level that the map names at `price`: it is on no chain and not in limbo, and
     * its own list is left open. `kept` are the orders set aside for the chains.
     */
    ghost predicate Detached(l: OrdersPriceLevel, price: Price, kept: set<Order>)
      reads this, footprint, l`queue
    {
      && Owns() && Pooled()
      && l !in layout.mem && l !in limbo.mem && layout.mem.Keys + limbo.mem.Keys + {l} == levelPool.live
      && kept <= orderPool.live && limbo.orders <= orderPool.live && kept !! limbo.orders
      && (forall o :: o in l.queue ==> o in orderPool.live && o !in kept && o !in limbo.orders)
      && price !in limbo.index && (price in layout.index ==> layout.index[price] == null)
      && Synced(layout) && Names(price, l)
      && Lists(layout.mem, kept) && Structured(layout, kept, null)
      && Drifting(layout)
    }

    /** Takes a level out of limbo to work on its list. */
    ghost method Detach(l: OrdersPriceLevel, price: Price)
      requires Valid() && price in limbo.index && limbo.index[price] == l
      modifies this`limbo
      ensures Detached(l, price, old(Kept())) && limbo == Without(old(limbo), price)
      ensures OffChain() == old(OffChain()) - {price}
      ensures l.Valid() && l in footprint && l !in layout.mem && l !in limbo.mem
      ensures forall o :: o in l.queue ==> o in footprint && o !in old(Kept()) && o !in limbo.orders
      ensures l.priceLevel == price && Priced(price, l.view) && l.view != []
      ensures old(price in OffChain() && OffChain()[price] == StrayOf(RecOf(l)))
    {
      hide Lists, Fields, Structured, Adrift, Sound, Beside, Priced, Without, StraysOf, ObjectPools.ObjectPool.Valid,
           PriceLevels.OrdersPriceLevel.Valid;
      LimboWithout(layout, limbo, price);
      ghost var kept := Kept();
      limbo := Without(limbo, price);
      EntryBeside(layout.index, limbo.index, price, l);
      assert layout.mem.Keys + limbo.mem.Keys + {l} == levelPool.live;
      assert kept <= orderPool.live && limbo.orders <= orderPool.live && kept !! limbo.orders;
      assert forall o :: o in l.queue ==> o in orderPool.live && o !in kept && o !in limbo.orders;
      assert Drifting(layout);
    }

    /** Puts a detached level with some orders of its price into limbo. */
    ghost method Attach(l: OrdersPriceLevel, price: Price, kept: set<Order>)
      requires Detached(l, price, kept) && l.Valid() && l.priceLevel == price && Priced(price, l.view)
      requires l in footprint
      modifies this`limbo
      ensures Valid() && limbo == With(old(limbo), l, RecOf(l))
      ensures OffChain() == old(OffChain())[price := StrayOf(RecOf(l))]
    {
      hide Lists, Fields, Adrift, Structured, Synced, Sound, Beside, Priced, StraysOf, ObjectPools.ObjectPool.Valid,
           PriceLevels.OrdersPriceLevel.Valid;
      SoundWith(limbo, l, RecOf(l));
      BesideMore(layout, limbo, l, RecOf(l));
      AdriftWith(limbo, l);
      ghost var index := limbo.index;
      limbo := With(limbo, l, RecOf(l));
      EntryBeside(layout.index, index, price, l);
      KeptGrows(layout, kept, Kept());
    }

    /** Work on the list of a detached level leaves everything else in place. */
    twostate lemma {:induction false} StaysDetached(new l: OrdersPriceLevel, price: Price, new kept: set<Order>)
      requires old(allocated(l) && allocated(kept))
      requires old(Detached(l, price, kept))
      requires orderPool.Valid() && old(orderPool.live) <= orderPool.live
      requires forall o :: o in orderPool.live ==> o in footprint
      requires levelPool.live == old(levelPool.live) && levelPool.Valid()
      requires bestBids == old(bestBids) && bestAsks == old(bestAsks) && priceLevels == old(priceLevels)
      requires layout == old(layout) && limbo == old(limbo)
      requires forall x: object | x in layout.mem.Keys || x in limbo.mem.Keys || x in kept || x in limbo.orders ::
          unchanged(x)
      requires forall o :: o in l.queue ==> o in orderPool.live && o !in kept && o !in limbo.orders
      ensures Detached(l, price, kept)
    {
      hide Lists, Fields, Structured, Sound, Beside, ObjectPools.ObjectPool.Valid;
    }

    /** A level as `insertPriceLevel` constructs it. */
    ghost predicate Constructed(l: OrdersPriceLevel, side: OrderSide, price: Price, next: OrdersPriceLevel?)
      reads l, l.queue
    {
      && l in footprint && l.Valid() && l.queue == [] && l.view == [] && l.side == side && l.priceLevel == price
      && l.nextPriceLevel == next
    }

    /** The walk, the pool and the pointers of opening a level. */
    method CreatePriceLevel(price: Price, side: OrderSide)
      returns (level: Option<OrdersPriceLevel>, ghost k: nat)
      requires Owns() && Pooled() && layout.mem.Keys <= levelPool.live && limbo.mem.Keys <= levelPool.live
      requires Synced(layout) && Lists(layout.mem, Kept()) && Drifting(layout)
      requires priceLevels == layout.index + limbo.index
      requires var buy := IsBuy(side);
        Chain(buy, layout.best.At(buy), layout.chains.At(buy), layout.views.At(buy), layout.mem)
      requires forall l :: l in layout.chains.At(IsBuy(side)) ==> l !in limbo.mem && l in footprint
      modifies this`bestBids, this`bestAsks, this`priceLevels, footprint
      ensures orderPool.live == old(orderPool.live)
      ensures k == Rank(IsBuy(side), layout.views.At(IsBuy(side)), price)
      ensures k <= |layout.chains.At(IsBuy(side))| == |layout.views.At(IsBuy(side))|
      ensures Lists(layout.mem, Kept())
      ensures level.Some? <==> |old(levelPool.live)| + 1 < |levelPool.store|
      ensures level.Some? ==> var l := level.value;
        && l in levelPool.store && l !in old(levelPool.live)
        && Pooled() && Drifting(layout) && levelPool.live == old(levelPool.live) + {l}
        && Constructed(l, side, price, LevelAtRank(layout.chains.At(IsBuy(side)), k))
        && Names(price, l)
        && (linked || k == 0 ==> Synced(WithLevel(layout, IsBuy(side), k, l, side, price)))
        && (!linked && k > 0 ==> Synced(layout))
    {
      hide Chain, Lists, Fields, Adrift, Sound, Beside, ObjectPools.ObjectPool.Valid, WithLevel, Rank,
           PriceLevels.OrdersPriceLevel.Valid;
      ghost var b := IsBuy(side);
      ChainEnds(b, layout.best.At(b), layout.chains.At(b), layout.views.At(b), layout.mem);
      var prev, next;
      prev, next, k := Neighbours(IsBuy(side), price);
      level := OpenPriceLevel(side, price, next);
      if level.Some? {
        LinkPriceLevel(level.value, prev, next, k);
      }
    }

    /** Records a level that has been linked at its rank. */
    ghost method RecordLevel(level: OrdersPriceLevel, buy: bool, k: nat, side: OrderSide, price: Price)
      requires Owns() && Pooled() && limbo.orders <= orderPool.live
      requires level !in layout.mem && level !in limbo.mem
      requires layout.mem.Keys + limbo.mem.Keys + {level} == levelPool.live
      requires Lists(layout.mem, Kept()) && Structured(layout, Kept(), null) && Drifting(layout)
      requires level.Valid() && level.queue == [] && IsBuy(side) == buy
      requires price !in layout.index || layout.index[price] == null
      requires price !in limbo.index && Names(price, level)
      requires k <= |layout.chains.At(buy)| == |layout.views.At(buy)| && k == Rank(buy, layout.views.At(buy), price)
      requires var vs := layout.views.At(!buy); vs == [] || !Acceptable(buy, price, vs[0].price)
      requires Synced(WithLevel(layout, buy, k, level, side, price))
      modifies this`layout
      ensures Consistent(level) && layout == WithLevel(old(layout), buy, k, level, side, price)
    {
      hide Structured, Chain, Lists, Fields, Adrift, Sound, Beside, ObjectPools.ObjectPool.Valid, WithLevel, Rank,
           PriceLevels.OrdersPriceLevel.Valid;
      ChainOf(layout, Kept(), null, buy);
      StructuredInserted(layout, Kept(), buy, k, level, side, price);
      WithLevelKeys(layout, buy, k, level, side, price);
      ListsWith(layout, buy, k, level, side, price, Kept());
      BesideWith(layout, limbo, buy, k, level, side, price);
      EntryBeside(layout.index, limbo.index, price, level);
      WithLevelIndex(layout, buy, k, level, side, price);
      Adopt(WithLevel(layout, buy, k, level, side, price), level);
    }

    /** A level that has gone into the map and nowhere else. */
    lemma {:induction false} OnlyInTheMap(level: OrdersPriceLevel, price: Price)
      requires Owns() && Pooled() && limbo.orders <= orderPool.live
      requires level !in layout.mem && level !in limbo.mem && level.queue == []
      requires layout.mem.Keys + limbo.mem.Keys + {level} == levelPool.live
      requires Lists(layout.mem, Kept()) && Structured(layout, Kept(), null) && Drifting(layout) && Synced(layout)
      requires price !in limbo.index && (price in layout.index ==> layout.index[price] == null)
      requires Names(price, level)
      ensures Detached(level, price, Kept())
    {
      hide Structured, Lists, Fields, Adrift, Sound, Beside, ObjectPools.ObjectPool.Valid;
    }

    /** The structure is `y` with the new level at rank `k`. */
    ghost predicate Opened(y: Layout, l: OrdersPriceLevel, buy: bool, k: nat, side: OrderSide, price: Price)
      reads this, footprint
    {
      && Consistent(l) && k <= |y.chains.At(buy)| == |y.views.At(buy)|
      && layout == WithLevel(y, buy, k, l, side, price)
    }

    /** Records a new level on its chain, or leaves it detached. */
    ghost method Settle(level: OrdersPriceLevel, buy: bool, k: nat, side: OrderSide, price: Price)
      requires Owns() && Pooled() && limbo.orders <= orderPool.live
      requires level !in layout.mem && level !in limbo.mem
      requires layout.mem.Keys + limbo.mem.Keys + {level} == levelPool.live
      requires Lists(layout.mem, Kept()) && Structured(layout, Kept(), null) && Drifting(layout)
      requires Constructed(level, side, price, LevelAtRank(layout.chains.At(buy), k)) && IsBuy(side) == buy
      requires price !in layout.index || layout.index[price] == null
      requires price !in limbo.index && Names(price, level)
      requires k <= |layout.chains.At(buy)| == |layout.views.At(buy)| && k == Rank(buy, layout.views.At(buy), price)
      requires var vs := layout.views.At(!buy); vs == [] || !Acceptable(buy, price, vs[0].price)
      requires linked || k == 0 ==> Synced(WithLevel(layout, buy, k, level, side, price))
      requires !linked && k > 0 ==> Synced(layout)
      modifies this`layout
      ensures Pooled() && Constructed(level, side, price, LevelAtRank(old(layout).chains.At(buy), k))
      ensures linked || k == 0 ==> Opened(old(layout), level, buy, k, side, price)
      ensures !linked && k > 0 ==> Detached(level, price, Kept()) && layout == old(layout)
    {
      hide Structured, Lists, Pooled, Drifting, Synced, Consistent, Detached, Names, WithLevel, Rank,
           PriceLevels.OrdersPriceLevel.Valid;
      if linked || k == 0 {
        RecordLevel(level, buy, k, side, price);
      } else {
        OnlyInTheMap(level, price);
      }
    }

    /** What the invariant offers for opening a level at a price without one. */
    lemma {:induction false} ReadyToOpen(buy: bool, price: Price)
      requires Valid() && (price !in priceLevels || priceLevels[price] == null)
      ensures Owns() && Pooled() && limbo.orders <= orderPool.live
      ensures layout.mem.Keys + limbo.mem.Keys == levelPool.live
      ensures Synced(layout) && Lists(layout.mem, Kept()) && Structured(layout, Kept(), null) && Drifting(layout)
      ensures Chain(buy, layout.best.At(buy), layout.chains.At(buy), layout.views.At(buy), layout.mem)
      ensures |layout.chains.At(buy)| == |layout.views.At(buy)|
      ensures forall l :: l in layout.chains.At(buy) ==> l in layout.mem && l !in limbo.mem && l in footprint
      ensures price !in limbo.index && (price in layout.index ==> layout.index[price] == null)
      ensures priceLevels == layout.index + limbo.index
    {
      hide Structured, Chain, Lists, Adrift, Synced;
      ChainOf(layout, Kept(), null, buy);
      ChainsBeside(layout, Kept(), null, limbo, buy);
    }

    /**
     * Opens a level at a price without one. As written in the repository, a level that does not
     * become the best one of its side is on no chain. None when the level pool aborts.
     */
    method InsertPriceLevel(r: BookRequest) returns (level: Option<OrdersPriceLevel>, ghost k: nat)
      requires r.Add? && Valid() && r.price in priceLevels && priceLevels[r.price] == null
      requires var vs := layout.views.At(!IsBuy(r.side)); vs == [] || !Acceptable(IsBuy(r.side), r.price, vs[0].price)
      modifies this`bestBids, this`bestAsks, this`priceLevels, this`layout, footprint
      ensures level.Some? <==> |old(levelPool.live)| + 1 < |levelPool.store|
      ensures k == Rank(IsBuy(r.side), old(layout).views.At(IsBuy(r.side)), r.price)
      ensures orderPool.live == old(orderPool.live)
      ensures level.Some? ==>
        && Pooled() && |old(layout).chains.At(IsBuy(r.side))| == |old(layout).views.At(IsBuy(r.side))|
        && Constructed(level.value, r.side, r.price, LevelAtRank(old(layout).chains.At(IsBuy(r.side)), k))
      ensures level.Some? && (linked || k == 0) ==> Opened(old(layout), level.value, IsBuy(r.side), k, r.side, r.price)
      ensures level.Some? && !linked && k > 0 ==> Detached(level.value, r.price, Kept()) && layout == old(layout)
    {
      hide Structured, Chain, Lists, Pooled, Drifting, Synced, Consistent, Opened, Detached, Constructed,
           Names, WithLevel, Rank;
      ghost var buy := IsBuy(r.side);
      ReadyToOpen(buy, r.price);
      level, k := CreatePriceLevel(r.price, r.side);
      if level.Some? {
        Settle(level.value, buy, k, r.side, r.price);
      }
    }

    /** `price_levels[price]`: a missing entry is created with a null level. */
    method Lookup(price: Price) returns (level: OrdersPriceLevel?)
      requires Valid()
      modifies this`priceLevels, this`layout
      ensures Valid() && price in priceLevels && level == priceLevels[price]
      ensures level == old(if price in priceLevels then priceLevels[price] else null)
      ensures layout == old(layout).(index := layout.index)
      ensures price in limbo.index ==> level == limbo.index[price] && level != null
      ensures price !in limbo.index ==> price in layout.index && level == layout.index[price]
    {
      hide Lists, Fields, Adrift, Sound, Structured, Pooled;
      if price !in priceLevels {
        EntryBeside(layout.index, limbo.index, price, null);
        NullEntry(layout, Kept(), price);
        priceLevels := priceLevels[price := null];
        Adopt(layout.(index := layout.index[price := null]), null);
      }
      level := priceLevels[price];
      LimboEntries(limbo);
    }

    /** What the invariant says apart from the orders of the level `l`. */
    ghost predicate SoundBut(l: OrdersPriceLevel, others: set<Order>, before: set<Order>, hollow: OrdersPriceLevel?)
      reads this, footprint, l`queue
    {
      && Owns() && Pooled()
      && layout.mem.Keys + limbo.mem.Keys == levelPool.live && limbo.orders <= orderPool.live
      && Synced(layout) && priceLevels == layout.index + limbo.index
      && others <= Kept() && before <= Kept()
      && (forall o :: o in l.queue ==> o in Kept())
      && Lists(Except(layout.mem, l), others)
      && Structured(layout, before, hollow)
      && Drifting(layout)
    }

    /** Records the new orders of the level at rank `k` after its list has changed. */
    ghost method Restock(l: OrdersPriceLevel, buy: bool, k: nat, others: set<Order>, before: set<Order>,
                         hollow: OrdersPriceLevel?)
      requires k < |layout.chains.At(buy)| == |layout.views.At(buy)|
      requires l == layout.chains.At(buy)[k] && l in layout.mem && hollow in {null, l}
      requires SoundBut(l, others, before, hollow)
      requires l.Valid() && Uniform(buy, LevelView(layout.views.At(buy)[k].price, l.view))
      modifies this`layout
      ensures layout == old(WithOrders(layout, buy, k, l.queue, l.view))
      ensures Consistent(if l.view == [] then l else null)
    {
      hide Lists, Structured, Fields, Adrift, Sound, Beside, Uniform, ObjectPools.ObjectPool.Valid,
           PriceLevels.OrdersPriceLevel.Valid;
      var r := Rec(layout.mem, l).(queue := l.queue, orders := l.view);
      ListsJoin(layout.mem, others, l, r, Kept());
      StructuredRefilled(layout, before, Kept(), hollow, buy, k, l.queue, l.view);
      FieldsRefilled(layout.mem, l, l.queue, l.view);
      BesideOrders(layout, limbo, buy, k, l.queue, l.view);
      Adopt(WithOrders(layout, buy, k, l.queue, l.view), if l.view == [] then l else null);
    }

    /** Work on the list of a level of a chain leaves everything else in place. */
    twostate lemma {:induction false} StaysSoundBut(new l: OrdersPriceLevel, new others: set<Order>,
                                                   new before: set<Order>, new hollow: OrdersPriceLevel?)
      requires old(allocated(l) && allocated(others) && allocated(before) && allocated(hollow))
      requires old(SoundBut(l, others, before, hollow)) && l in layout.mem && l !in limbo.mem
      requires orderPool.Valid() && old(orderPool.live) <= orderPool.live
      requires forall o :: o in orderPool.live ==> o in footprint
      requires levelPool.live == old(levelPool.live) && levelPool.Valid()
      requires bestBids == old(bestBids) && bestAsks == old(bestAsks) && priceLevels == old(priceLevels)
      requires layout == old(layout) && limbo == old(limbo)
      requires forall x: object | (x in layout.mem.Keys && x != l) || x in limbo.mem.Keys || x in others
          || x in limbo.orders
        :: unchanged(x)
      requires l.nextPriceLevel == old(l.nextPriceLevel) && l.priceLevel == old(l.priceLevel) && l.side == old(l.side)
      requires forall o :: o in l.queue ==> o in Kept()
      ensures SoundBut(l, others, before, hollow)
    {
      hide Lists, Structured, Sound, Beside, ObjectPools.ObjectPool.Valid;
      assert forall x :: x in Except(layout.mem, l) ==> x in layout.mem && x != l;
    }

    /** What a level needs for its own list to be changed while the rest stays put. */
    lemma {:induction false} Isolate(l: OrdersPriceLevel, buy: bool, k: nat, hollow: OrdersPriceLevel?)
      requires Consistent(hollow) && k < |layout.chains.At(buy)| && l == layout.chains.At(buy)[k]
      ensures |layout.views.At(buy)| == |layout.chains.At(buy)| && l in layout.mem && l !in limbo.mem && Pooled()
      ensures SoundBut(l, Others(Kept(), l.queue), Kept(), hollow)
      ensures l.Valid() && l in footprint && (forall o :: o in l.queue ==> o in footprint && o !in limbo.orders)
      ensures l.queue == [] ==> l == hollow
      ensures var v := layout.views.At(buy)[k];
        && v.price in priceLevels && priceLevels[v.price] == l && l.priceLevel == v.price && v.price !in limbo.index
        && l.view == v.orders && Uniform(buy, v)
    {
      LevelFacts(layout, Kept(), hollow, buy, k);
      ChainsBeside(layout, Kept(), hollow, limbo, buy);
      StockedAtOwnPrice(layout.mem, Kept(), hollow);
      ListsSplit(layout.mem, layout.index, Kept(), l);
    }

    /** `quantity -= fill` on the top order; when nothing is left, `cancel` on the level at its price. */
    method FillTop(opposite: Order, fill: Quantity, ghost l: OrdersPriceLevel)
      requires l.Valid() && l.queue != [] && l.view != [] && l.topOrder == opposite && fill <= opposite.quantity
      requires opposite.limitPrice in priceLevels && priceLevels[opposite.limitPrice] == l
      modifies l`view, l`queue, l`topOrder, opposite`quantity, l.queue`next, l.queue`previous
      ensures l.Valid() && opposite.Data() == old(Less(opposite.Data(), fill))
      ensures old(l.view == [opposite.Data()] + l.view[1..])
      ensures l.view == Remnant(opposite.Data()) + old(l.view[1..])
      ensures forall o :: o in l.queue ==> o in old(l.queue)
    {
      hide FindId, PriceLevels.OrdersPriceLevel.Valid;
      TopOfLevel(l);
      TakeFrom(opposite, fill, l);
      if opposite.quantity == 0 {
        var level := priceLevels[opposite.limitPrice];
        FindIdIs(l.view, opposite.orderId, 0);
        var canceled := level.Cancel(opposite.orderId);
      }
    }

    /** `FillTop` on a level of the book, with the invariant around it. */
    method Reduce(opposite: Order, fill: Quantity, ghost l: OrdersPriceLevel, ghost buy: bool, ghost k: nat)
      requires Valid() && k < |layout.chains.At(buy)| == |layout.views.At(buy)|
      requires l == layout.chains.At(buy)[k]
      requires opposite == l.topOrder && fill <= opposite.quantity && l.view != []
      modifies this`layout, l`view, l`queue, l`topOrder, opposite`quantity, l.queue`next, l.queue`previous
      ensures opposite.Data() == old(Less(opposite.Data(), fill))
      ensures old(layout.views.At(buy)[k].orders) == old([opposite.Data()] + l.view[1..])
      ensures l.view == Remnant(opposite.Data()) + old(l.view[1..])
      ensures layout == WithOrders(old(layout), buy, k, l.queue, l.view)
      ensures Consistent(if l.view == [] then l else null) && l.Valid()
    {
      hide Consistent, SoundBut, ObjectPools.ObjectPool.Valid, FindId, WithOrders, PriceLevels.OrdersPriceLevel.Valid;
      Isolate(l, buy, k, null);
      ghost var others, kept := Others(Kept(), l.queue), Kept();
      TopOfLevel(l);
      FillTop(opposite, fill, l);
      StaysSoundBut(l, others, kept, null);
      Restock(l, buy, k, others, kept, null);
    }

    /** What follows the fill: REMOVE or MODIFY for the maker, and both FILLED responses. */
    method ReportFill(taker: Taker, opposite: Order, fill: Quantity)
      requires Ready(responses, updates)
      modifies responses, responses.data, updates, updates.data
      ensures Ready(responses, updates)
      ensures var left := opposite.Data();
        && responses.pushed == old(responses.pushed) + [MakerFilled(taker, left, fill), TakerFilled(taker, left, fill)]
        && updates.pushed == old(updates.pushed)
             + [if left.quantity == 0 then OrderUpdate(Removed, taker.tickerId, left.(quantity := fill))
                else OrderUpdate(Modified, taker.tickerId, left)]
    {
      hide LFQueues.LFQueue.Valid;
      assert responses as object != updates && responses.data as object != updates.data;
      if opposite.quantity == 0 {
        updates.Push(MarketUpdate(Removed, taker.tickerId, opposite.orderId, INVALID_UINT32, opposite.side, fill,
                                  opposite.limitPrice));
      } else {
        updates.Push(MarketUpdate(Modified, taker.tickerId, opposite.orderId, INVALID_UINT32, opposite.side,
                                  opposite.quantity, opposite.limitPrice));
      }
      responses.Push(ClientResponse(Filled, taker.tickerId, opposite.clientId, opposite.orderId, opposite.side, fill,
                                    opposite.limitPrice));
      responses.Push(ClientResponse(Filled, taker.tickerId, taker.clientId, taker.orderId, taker.side, fill,
                                    opposite.limitPrice));
    }

    /**
     * One trade of the taker against `opposite`, the top order of the best opposite level. The list
     * is brought up to date before the REMOVE goes out; nothing reads it in between.
     */
    method Match(taker: Taker, quantity: Quantity, tradeId: TradeId, opposite: Order,
                 ghost l: OrdersPriceLevel, ghost buy: bool)
      returns (remaining: Quantity, nextTradeId: TradeId)
      requires Owns() && Valid() && Ready(responses, updates)
      requires 0 < |layout.chains.At(buy)| == |layout.views.At(buy)|
      requires l == layout.chains.At(buy)[0] && opposite == l.topOrder && l.view != []
      modifies this`layout, l`view, l`queue, l`topOrder, opposite`quantity, l.queue`next, l.queue`previous
      modifies responses, responses.data, updates, updates.data
      ensures Ready(responses, updates)
      ensures layout == WithOrders(old(layout), buy, 0, l.queue, l.view)
      ensures Consistent(if l.view == [] then l else null) && l.Valid()
      ensures nextTradeId == Next(tradeId)
      ensures old(layout.views.At(buy)[0].orders) == old([opposite.Data()] + l.view[1..])
      ensures var h := HitOf(taker, quantity, old(opposite.Data()), tradeId);
        && l.view == Remnant(h.left) + old(l.view[1..])
        && remaining == h.remaining
        && responses.pushed == old(responses.pushed) + h.responses
        && updates.pushed == old(updates.pushed) + h.updates
    {
      hide Consistent, LFQueues.LFQueue.Valid, WithOrders, PriceLevels.OrdersPriceLevel.Valid;
      assert responses as object != updates && responses.data as object != updates.data;
      var fill := Min(quantity, opposite.quantity);
      updates.Push(MarketUpdate(Traded, taker.tickerId, INVALID_UINT32, tradeId, taker.side, fill,
        opposite.limitPrice));
      nextTradeId := Next(tradeId);
      Reduce(opposite, fill, l, buy, 0);
      ReportFill(taker, opposite, fill);
      remaining := quantity - fill;
    }

    /** One turn of the matching loop against side `buy`. */
    method MatchBest(taker: Taker, quantity: Quantity, tradeId: TradeId, buy: bool)
      returns (remaining: Quantity, nextTradeId: TradeId)
      requires Owns() && Valid() && Ready(responses, updates) && Best(buy) != null
      modifies this`bestBids, this`bestAsks, this`priceLevels, this`layout, footprint, responses, responses.data,
        updates, updates.data
      ensures orderPool.live == old(orderPool.live)
      ensures layout.views.At(!buy) == old(layout.views.At(!buy))
      ensures old(Flat(layout.views.At(buy)) != [])
      ensures quantity > 0 ==> remaining < quantity
      ensures nextTradeId == Next(tradeId)
      ensures var h := HitOf(taker, quantity, old(Flat(layout.views.At(buy))[0]), tradeId);
        && Flat(layout.views.At(buy)) == Remnant(h.left) + old(Flat(layout.views.At(buy))[1..])
        && remaining == h.remaining
        && responses.pushed == old(responses.pushed) + h.responses
        && updates.pushed == old(updates.pushed) + h.updates
      ensures Valid() && Ready(responses, updates)
    {
      hide Consistent, SoundBut, ObjectPools.ObjectPool.Valid, LFQueues.LFQueue.Valid, WithOrders, WithoutLevel,
           PriceLevels.OrdersPriceLevel.Valid, HitOf, Flat;
      HitReduces(taker, quantity, tradeId);
      var best := Best(buy);
      BestFacts(buy);
      SideOfLevel(buy, 0);
      Isolate(best, buy, 0, null);
      TopOfLevel(best);
      ghost var head, rest := best.topOrder.Data(), best.view[1..];
      assert head.quantity > 0;
      ghost var h := HitOf(taker, quantity, head, tradeId);
      remaining, nextTradeId := Match(taker, quantity, tradeId, best.topOrder, best, buy);
      FlatWithOrders(old(layout), buy, best.queue, rest, head, Remnant(h.left));
      WithOrdersFacts(old(layout), buy, 0, best.queue, best.view);
      var fate := DropIfEmpty(best, true, buy, 0, {});
    }

    /** `removePriceLevel` when a level, at rank `k` of its chain or outside, has run empty. */
    method DropIfEmpty(level: OrdersPriceLevel, ghost kept: bool, ghost buy: bool, ghost k: nat,
                       ghost orders: set<Order>) returns (fate: Fate)
      requires Owns() && level.Valid() && IsBuy(level.side) == buy
      requires kept ==> Consistent(if level.view == [] then level else null)
      requires kept ==> k < |layout.chains.At(buy)| == |layout.views.At(buy)|
      requires kept ==> level == layout.chains.At(buy)[k] && level.view == layout.views.At(buy)[k].orders
      requires !kept && level.view != [] ==> Valid()
      requires !kept && level.view == [] ==> Detached(level, level.priceLevel, orders)
      modifies this`bestBids, this`bestAsks, this`priceLevels, this`layout
      modifies levelPool, levelPool.available, layout.chains.At(buy)`nextPriceLevel
      ensures fate == if kept || level.view != [] then Carried
                      else FateOf(old(Best(buy)) == null, old(level.nextPriceLevel) == null)
      ensures fate == Carried ==> Valid()
      ensures fate == Astray ==> Aside(buy, old(level.nextPriceLevel))
      ensures old(Ready(responses, updates)) ==> Ready(responses, updates)
      ensures kept ==> layout.views.At(!buy) == old(layout.views.At(!buy))
      ensures kept ==> Flat(layout.views.At(buy)) == old(Flat(layout.views.At(buy)))
      ensures fate != Ended && !kept ==> layout.views == old(layout.views)
    {
      hide Consistent, Detached, WithoutLevel, PriceLevels.Cycle, Flat, LFQueues.LFQueue.Valid, Aside;
      fate := Carried;
      if level.topOrder == null {
        if kept {
          FlatWithoutLevel(layout, buy, k);
          WithoutLevelFacts(layout, buy, k);
          BestOfChain(level, buy, k);
        }
        var alone, next := Best(IsBuy(level.side)) == null, level.nextPriceLevel;
        var found := RemovePriceLevel(level, kept, k, orders);
        fate := if !found then Ended else if alone && next != null then Astray else Carried;
        if found && !kept {
          ValidUnlessAside(buy, next);
        }
      }
    }

    /** A side with a chain has a best level. */
    lemma {:induction false} BestOfChain(l: OrdersPriceLevel, buy: bool, k: nat)
      requires Consistent(l) && k < |layout.chains.At(buy)|
      ensures Best(buy) != null
    {
      hide Lists, Fields, Adrift, Sound, Beside;
      ChainOf(layout, Kept(), l, buy);
    }

    lemma {:induction false} BestFacts(buy: bool)
      requires Valid()
      ensures |layout.chains.At(buy)| == |layout.views.At(buy)|
      ensures Best(buy) == if layout.chains.At(buy) == [] then null else layout.chains.At(buy)[0]
      ensures layout.chains.At(buy) != [] ==>
        Best(buy).priceLevel == layout.views.At(buy)[0].price && IsBuy(Best(buy).side) == buy
    {
      ChainOf(layout, Kept(), null, buy);
      if layout.chains.At(buy) != [] {
        LevelFacts(layout, Kept(), null, buy, 0);
      }
    }

    /** The loop guard looks at the first order of the flat side. */
    lemma {:induction false} GuardSeesFlat(buy: bool)
      requires Valid()
      ensures Best(buy) == null <==> Flat(layout.views.At(buy)) == []
      ensures Best(buy) != null ==> Flat(layout.views.At(buy))[0].price == Best(buy).priceLevel
      ensures Best(buy) != null ==>
        layout.views.At(buy) != [] && layout.views.At(buy)[0].price == Best(buy).priceLevel
      ensures Best(buy) == null ==> layout.views.At(buy) == []
    {
      BestFacts(buy);
      if layout.chains.At(buy) != [] {
        Isolate(Best(buy), buy, 0, null);
      }
    }

    method CheckForMatch(taker: Taker, quantity: Quantity, tradeId: TradeId)
      returns (remaining: Quantity, nextTradeId: TradeId)
      requires Owns() && Valid() && Ready(responses, updates)
      modifies this`bestBids, this`bestAsks, this`priceLevels, this`layout, footprint
      modifies responses, responses.data, updates, updates.data
      ensures Valid() && Ready(responses, updates) && orderPool.live == old(orderPool.live)
      ensures layout.views.At(IsBuy(taker.side)) == old(layout.views.At(IsBuy(taker.side)))
      ensures var c := Cross(taker, quantity, old(Flat(layout.views.At(!IsBuy(taker.side)))), tradeId);
        && Flat(layout.views.At(!IsBuy(taker.side))) == c.opposite
        && remaining == c.remaining && nextTradeId == c.nextTradeId
        && responses.pushed == old(responses.pushed) + c.responses
        && updates.pushed == old(updates.pushed) + c.updates
      ensures var vs := layout.views.At(!IsBuy(taker.side));
        remaining != 0 ==> vs == [] || !Acceptable(IsBuy(taker.side), taker.limit, vs[0].price)
    {
      hide Consistent, LFQueues.LFQueue.Valid, HitOf, Cross, Flat;
      var opposite := !IsBuy(taker.side);
      ghost var c := Cross(taker, quantity, Flat(layout.views.At(opposite)), tradeId);
      remaining, nextTradeId := quantity, tradeId;
      GuardSeesFlat(opposite);
      while remaining != 0 && Best(opposite) != null && Acceptable(!opposite, taker.limit, Best(opposite).priceLevel)
        invariant Owns() && Valid() && Ready(responses, updates) && orderPool.live == old(orderPool.live)
        invariant layout.views.At(!opposite) == old(layout.views.At(!opposite))
        invariant var d := Cross(taker, remaining, Flat(layout.views.At(opposite)), nextTradeId);
          && d.opposite == c.opposite && d.remaining == c.remaining && d.nextTradeId == c.nextTradeId
          && responses.pushed + d.responses == old(responses.pushed) + c.responses
          && updates.pushed + d.updates == old(updates.pushed) + c.updates
        decreases remaining
      {
        GuardSeesFlat(opposite);
        CrossStep(taker, remaining, Flat(layout.views.At(opposite)), nextTradeId);
        remaining, nextTradeId := MatchBest(taker, remaining, nextTradeId, opposite);
      }
      GuardSeesFlat(opposite);
      CrossStops(taker, remaining, Flat(layout.views.At(opposite)), nextTradeId);
    }

    /** Takes an order from the pool and constructs it in place; None when the pool aborts. */
    method TakeOrder(r: BookRequest, remaining: Quantity) returns (order: Option<Order>)
      requires r.Add? && orderPool.Valid()
      modifies orderPool, orderPool.available, set o | o in orderPool.store && o !in orderPool.live
      ensures order.Some? <==> |old(orderPool.live)| + 1 < |orderPool.store|
      ensures order.Some? ==> var o := order.value;
        && o in orderPool.store && o !in old(orderPool.live)
        && orderPool.Valid() && orderPool.live == old(orderPool.live) + {o}
        && o.Data() == RestOf(r, remaining) && o.tickerId == tickerId
    {
      hide Lists, ObjectPools.ObjectPool.Valid;
      order := orderPool.GetObject();
      if order.Some? {
        order.value.Init(tickerId, r.orderId, r.clientId, r.side, remaining, r.price);
      }
    }

    /** `price_level->add(order)` on a level whose list is open. */
    method AddOpen(level: OrdersPriceLevel, order: Order, ghost kept: bool, ghost others: set<Order>,
                   ghost before: set<Order>, ghost hollow: OrdersPriceLevel?)
      requires level.Valid() && (level.view == [] ==> level.side == order.side) && order !in level.queue && Pooled()
      requires order in orderPool.live && order !in limbo.orders && level !in limbo.mem
      requires forall o :: o in level.queue ==> o in orderPool.live && o !in limbo.orders
      requires kept ==> SoundBut(level, others, before, hollow) && level in layout.mem
      requires kept ==> order !in others && forall o :: o in level.queue ==> o !in others
      requires !kept ==> Detached(level, order.limitPrice, before) && level !in layout.mem
      requires !kept ==> order !in before && forall o :: o in level.queue ==> o !in before
      modifies level`topOrder, level`side, level`queue, level`view
      modifies order`next, order`previous, level.queue`next, level.queue`previous
      ensures level.Valid() && level.side == old(level.side) && Pooled()
      ensures level.queue == old(level.queue) + [order] && level.view == old(level.view) + [order.Data()]
      ensures order.Data() == old(order.Data())
      ensures kept ==> SoundBut(level, others, before, hollow)
      ensures !kept ==> Detached(level, order.limitPrice, before)
    {
      hide SoundBut, Detached, ObjectPools.ObjectPool.Valid, PriceLevels.OrdersPriceLevel.Valid;
      EmptyQueue(level);
      level.Add(order);
      if kept {
        StaysSoundBut(level, others, before, hollow);
      } else {
        StaysDetached(level, order.limitPrice, before);
      }
    }

    /** `price_level->add(order)` for an order that is in no list, on a level on a chain or outside. */
    method Append(level: OrdersPriceLevel, order: Order, ghost kept: bool, ghost buy: bool, ghost k: nat,
                  ghost others: set<Order>, ghost before: set<Order>, ghost hollow: OrdersPriceLevel?)
      requires level.Valid() && (level.view == [] ==> level.side == order.side) && order !in level.queue && Pooled()
      requires kept ==> k < |layout.chains.At(buy)| == |layout.views.At(buy)| && level == layout.chains.At(buy)[k]
      requires kept ==> level in layout.mem && hollow in {null, level} && SoundBut(level, others, before, hollow)
      requires kept ==> order in Kept() && order !in others && level !in limbo.mem
      requires kept ==> forall o :: o in level.queue ==> o in Kept() && o !in others
      requires kept ==> var v := layout.views.At(buy)[k];
        && Uniform(buy, v) && v.orders == level.view
        && order.limitPrice == v.price && IsBuy(order.side) == buy
      requires !kept ==> Detached(level, order.limitPrice, before) && level.priceLevel == order.limitPrice
      requires order.quantity != 0
      requires !kept ==> order in orderPool.live && order !in before && order !in limbo.orders && level in footprint
      requires !kept ==> level !in layout.mem && level !in limbo.mem
      requires !kept ==> forall o :: o in level.queue ==> o in orderPool.live && o !in before && o !in limbo.orders
      requires !kept ==> level.view == [] || Priced(order.limitPrice, level.view)
      modifies this`layout, this`limbo, level`topOrder, level`side, level`queue, level`view
      modifies order`next, order`previous, level.queue`next, level.queue`previous
      ensures Valid()
      ensures kept ==> limbo == old(limbo)
      ensures kept ==> layout == WithOrders(old(layout), buy, k, level.queue, old(level.view) + [old(order.Data())])
      ensures !kept ==> layout == old(layout)
      ensures !kept ==> OffChain() == old(OffChain())[old(order.limitPrice) :=
        old(Stray(IsBuy(level.side), level.nextPriceLevel == null, level.view + [order.Data()]))]
    {
      hide SoundBut, Detached, ObjectPools.ObjectPool.Valid, PriceLevels.OrdersPriceLevel.Valid, WithOrders, StraysOf;
      AddOpen(level, order, kept, others, before, hollow);
      if kept {
        Restock(level, buy, k, others, before, hollow);
      } else {
        Attach(level, order.limitPrice, before);
      }
    }

    /** Takes an order from the pool, for `level`, which is in its chain if `kept`. */
    method TakeFor(level: OrdersPriceLevel, r: BookRequest, remaining: Quantity, ghost kept: bool, ghost buy: bool,
                   ghost k: nat, ghost before: set<Order>, ghost hollow: OrdersPriceLevel?)
      returns (order: Option<Order>, ghost others: set<Order>)
      requires r.Add? && remaining != 0 && IsBuy(r.side) == buy
      requires kept ==> Consistent(hollow) && hollow in {null, level} && before == Kept()
      requires kept ==> k < |layout.chains.At(buy)| == |layout.views.At(buy)| && level == layout.chains.At(buy)[k]
      requires kept ==> layout.views.At(buy)[k].price == r.price && (hollow == level ==> level.side == r.side)
      requires !kept ==> Detached(level, r.price, before) && level.Valid() && level.priceLevel == r.price
      requires !kept ==> level in footprint && (level.view == [] ==> level.side == r.side)
      requires !kept ==> level.view == [] || Priced(r.price, level.view)
      requires Owns() && Pooled() && level.Valid()
      modifies orderPool, orderPool.available, set o | o in orderPool.store && o !in orderPool.live
      ensures order.Some? <==> |old(orderPool.live)| + 1 < |orderPool.store|
      ensures order.Some? ==> var o := order.value;
        && Pooled() && level.Valid() && orderPool.live == old(orderPool.live) + {o} && o !in old(orderPool.live)
        && o !in level.queue && o in footprint && o.Data() == RestOf(r, remaining)
      ensures order.Some? && kept ==>
        && SoundBut(level, others, before, hollow) && level in layout.mem && level !in limbo.mem && level in footprint
        && order.value in Kept() && order.value !in others
        && (forall o :: o in level.queue ==> o in Kept() && o !in others)
        && Uniform(buy, layout.views.At(buy)[k]) && layout.views.At(buy)[k].orders == level.view
      ensures order.Some? && !kept ==>
        && Detached(level, r.price, before) && level !in layout.mem && level !in limbo.mem
        && order.value !in before && order.value !in limbo.orders
        && (forall o :: o in level.queue ==> o in orderPool.live && o !in before && o !in limbo.orders)
      ensures order.Some? ==>
        (level.view == [] ==> level.side == r.side) && forall o :: o in level.queue ==> o in footprint
      ensures level.queue == old(level.queue) && level.view == old(level.view) && level.side == old(level.side)
      ensures level.nextPriceLevel == old(level.nextPriceLevel) && level.priceLevel == old(level.priceLevel)
    {
      hide Consistent, SoundBut, Detached, ObjectPools.ObjectPool.Valid, PriceLevels.OrdersPriceLevel.Valid,
           WithOrders, Priced;
      if kept {
        Isolate(level, buy, k, hollow);
      } else {
        DetachedFacts(level, r.price, before);
      }
      EmptyQueue(level);
      others := Others(Kept(), level.queue);
      order := TakeOrder(r, remaining);
      if order.Some? {
        if kept {
          StaysSoundBut(level, others, before, hollow);
        } else {
          StaysDetached(level, r.price, before);
        }
      }
    }

    /** Takes an order from the pool and appends it to `level`, which is in its chain if `kept`. */
    method Place(level: OrdersPriceLevel, r: BookRequest, remaining: Quantity, ghost kept: bool, ghost buy: bool,
                 ghost k: nat, ghost before: set<Order>, ghost hollow: OrdersPriceLevel?) returns (ok: bool)
      requires r.Add? && remaining != 0 && IsBuy(r.side) == buy
      requires kept ==> Consistent(hollow) && hollow in {null, level} && before == Kept()
      requires kept ==> k < |layout.chains.At(buy)| == |layout.views.At(buy)| && level == layout.chains.At(buy)[k]
      requires kept ==> layout.views.At(buy)[k].price == r.price && (hollow == level ==> level.side == r.side)
      requires !kept ==> Detached(level, r.price, before) && level.Valid() && level.priceLevel == r.price
      requires !kept ==> level in footprint && (level.view == [] ==> level.side == r.side)
      requires !kept ==> level.view == [] || Priced(r.price, level.view)
      requires Owns() && Pooled() && level.Valid()
      modifies this`layout, this`limbo, footprint
      ensures ok <==> |old(orderPool.live)| + 1 < |orderPool.store|
      ensures ok ==> |orderPool.live| == |old(orderPool.live)| + 1 && Valid()
      ensures ok && kept ==> limbo == old(limbo)
      ensures ok && kept ==> layout.views.At(!buy) == old(layout).views.At(!buy)
      ensures ok && kept ==> layout.views.At(buy) == Appended(old(layout).views.At(buy), k, RestOf(r, remaining))
      ensures ok && !kept ==> layout == old(layout)
      ensures ok && !kept ==> OffChain() == old(OffChain())[r.price :=
        old(Stray(IsBuy(level.side), level.nextPriceLevel == null, level.view + [RestOf(r, remaining)]))]
    {
      hide Consistent, SoundBut, Detached, ObjectPools.ObjectPool.Valid, PriceLevels.OrdersPriceLevel.Valid,
           WithOrders, Priced;
      ghost var others;
      var order;
      order, others := TakeFor(level, r, remaining, kept, buy, k, before, hollow);
      if order.None? {
        return false;
      }
      EmptyQueue(level);
      Append(level, order.value, kept, buy, k, others, before, hollow);
      if kept {
        AppendedViews(old(layout), buy, k, level.queue, RestOf(r, remaining));
      }
      return true;
    }

    lemma {:induction false} DetachedFacts(l: OrdersPriceLevel, price: Price, kept: set<Order>)
      requires Detached(l, price, kept)
      ensures Owns() && Pooled() && l !in layout.mem && l !in limbo.mem
      ensures forall x :: x in layout.mem || x in limbo.mem || x == l ==> x in footprint
      ensures kept <= orderPool.live && limbo.orders <= orderPool.live
      ensures forall o :: o in l.queue ==> o in orderPool.live && o !in kept && o !in limbo.orders
    {
      hide Lists, Fields, Structured, Adrift, Sound, Beside, ObjectPools.ObjectPool.Valid;
    }

    /** `price_level->add` on the level that the map has for the price. */
    method RestOnLevel(level: OrdersPriceLevel, r: BookRequest, remaining: Quantity) returns (ok: bool)
      requires r.Add? && remaining != 0 && Owns() && Valid()
      requires var vs := layout.views.At(!IsBuy(r.side)); vs == [] || !Acceptable(IsBuy(r.side), r.price, vs[0].price)
      requires if r.price in limbo.index then level == limbo.index[r.price]
               else r.price in layout.index && level == layout.index[r.price]
      modifies this`layout, this`limbo, footprint
      ensures ok <==> |old(orderPool.live)| + 1 < |orderPool.store|
      ensures ok ==> |orderPool.live| == |old(orderPool.live)| + 1
      ensures ok ==> Valid() && DeskNow() == Rested(linked, old(DeskNow()), r, remaining)
      ensures r.price in old(OffChain()) || HasPrice(old(Book()).At(IsBuy(r.side)), r.price)
    {
      hide Consistent, Detached, ObjectPools.ObjectPool.Valid, StraysOf, PriceLevels.OrdersPriceLevel.Valid, Flat,
           Insert,
           NeedsNoLink, HasPrice, Appended, AllAhead, Priced, Stranding, WithOrders;
      ghost var buy, o := IsBuy(r.side), RestOf(r, remaining);
      LimboPrices(limbo);
      ghost var kept, before, k := r.price !in limbo.index, Kept(), 0;
      if kept {
        k := ChainLevelFor(buy, o);
        Isolate(level, buy, k, null);
      } else {
        Detach(level, r.price);
        DetachedFacts(level, r.price, before);
      }
      ok := Place(level, r, remaining, kept, buy, k, before, null);
      if !kept {
        StrandsMore(old(DeskNow()), o);
      }
    }

    /** The level that the map has on a chain is on the order's own side, and appending to it is insertion. */
    lemma {:induction false} ChainLevelFor(buy: bool, o: Resting) returns (k: nat)
      requires Valid() && o.price !in limbo.index && o.price in layout.index && layout.index[o.price] != null
      requires var vs := layout.views.At(!buy); vs == [] || !Acceptable(buy, o.price, vs[0].price)
      ensures k < |layout.chains.At(buy)| == |layout.views.At(buy)|
      ensures layout.chains.At(buy)[k] == layout.index[o.price] && layout.views.At(buy)[k].price == o.price
      ensures Flat(Appended(layout.views.At(buy), k, o)) == Insert(buy, Flat(layout.views.At(buy)), o)
      ensures NeedsNoLink(buy, Flat(layout.views.At(buy)), o.price) && HasPrice(Flat(layout.views.At(buy)), o.price)
    {
      hide Structured, Lists, Drifting;
      k := OwnLevel(layout, Kept(), buy, o.price);
      AppendFlat(layout, Kept(), buy, k, o);
    }

    /** Where a price without a level belongs on its own side. */
    lemma {:induction false} NewLevelFor(buy: bool, price: Price)
      requires Valid() && price !in limbo.index && (price in layout.index ==> layout.index[price] == null)
      ensures Structured(layout, Kept(), null) && |layout.chains.At(buy)| == |layout.views.At(buy)|
      ensures NoLevelAt(layout.views.At(buy), price) && !HasPrice(Flat(layout.views.At(buy)), price)
      ensures var k := Rank(buy, layout.views.At(buy), price);
        && (k == 0 <==> NeedsNoLink(buy, Flat(layout.views.At(buy)), price))
        && (k == |layout.views.At(buy)| <==> AllAhead(buy, Flat(layout.views.At(buy)), price))
    {
      hide Structured, Lists, Drifting, Flat, Rank, NoLevelAt, NeedsNoLink, HasPrice, AllAhead;
      FreshPrice(layout, Kept(), buy, price);
      ChainOf(layout, Kept(), null, buy);
      RankIsLast(layout, Kept(), buy, price);
    }

    /** `insertPriceLevel` and `add` on the new level. */
    method RestOnNewLevel(r: BookRequest, remaining: Quantity) returns (ok: bool)
      requires r.Add? && remaining != 0 && Owns() && Valid()
      requires var vs := layout.views.At(!IsBuy(r.side)); vs == [] || !Acceptable(IsBuy(r.side), r.price, vs[0].price)
      requires r.price in priceLevels && priceLevels[r.price] == null
      requires r.price !in limbo.index && r.price in layout.index && layout.index[r.price] == null
      modifies this, footprint
      ensures ok <==> |old(orderPool.live)| + 1 < |orderPool.store| && |old(levelPool.live)| + 1 < |levelPool.store|
      ensures ok ==> |orderPool.live| == |old(orderPool.live)| + 1
      ensures ok ==> Valid() && DeskNow() == Rested(linked, old(DeskNow()), r, remaining)
      ensures r.price !in old(OffChain()) && !HasPrice(old(Book()).At(IsBuy(r.side)), r.price)
    {
      hide Consistent, Detached, ObjectPools.ObjectPool.Valid, StraysOf, PriceLevels.OrdersPriceLevel.Valid, Flat,
           Insert,
           NeedsNoLink, HasPrice, Appended, AllAhead, Priced, Stranding, WithLevel, Rank, NoLevelAt, Structured;
      ghost var buy, o := IsBuy(r.side), RestOf(r, remaining);
      LimboPrices(limbo);
      NewLevelFor(buy, r.price);
      ghost var y, before := layout, Kept();
      var newLevel: Option<OrdersPriceLevel>;
      ghost var k: nat;
      newLevel, k := InsertPriceLevel(r);
      if newLevel.None? {
        return false;
      }
      OpenFlat(y, before, buy, newLevel.value, r.side, o);
      assert newLevel.value.view + [o] == [o];
      ok := Place(newLevel.value, r, remaining, linked || k == 0, buy, k, Kept(), newLevel.value);
      if !linked && k > 0 {
        StrandsNew(old(DeskNow()), o);
      }
    }

    /** Rests what remains of an order: `getPriceLevel`, a pooled order, `add`. */
    method Rest(r: BookRequest, remaining: Quantity) returns (ok: bool)
      requires r.Add? && remaining != 0 && Owns() && Valid()
      requires var vs := layout.views.At(!IsBuy(r.side)); vs == [] || !Acceptable(IsBuy(r.side), r.price, vs[0].price)
      modifies this, footprint
      ensures ok <==> (|old(orderPool.live)| + 1 < |orderPool.store|
          && (r.price in old(OffChain()) || HasPrice(old(Book()).At(IsBuy(r.side)), r.price)
              || |old(levelPool.live)| + 1 < |levelPool.store|))
      ensures ok ==> |orderPool.live| == |old(orderPool.live)| + 1
      ensures ok ==> Valid() && DeskNow() == Rested(linked, old(DeskNow()), r, remaining)
    {
      hide Consistent, HasPrice, Rested, StraysOf;
      var level := Lookup(r.price);
      if level != null {
        ok := RestOnLevel(level, r, remaining);
      } else {
        ok := RestOnNewLevel(r, remaining);
      }
    }

    /** `price_level->cancel(order_id)` on a level whose list is open. */
    method CancelOpen(level: OrdersPriceLevel, orderId: OrderId, ghost kept: bool, ghost others: set<Order>,
                      ghost orders: set<Order>, ghost price: Price) returns (order: Order?)
      requires level.Valid() && level.view != [] && Pooled() && level !in limbo.mem
      requires forall o :: o in level.queue ==> o in orderPool.live && o !in limbo.orders
      requires kept ==> SoundBut(level, others, orders, null) && level in layout.mem
      requires kept ==> forall o :: o in level.queue ==> o !in others
      requires !kept ==> Detached(level, price, orders) && level !in layout.mem
      requires !kept ==> forall o :: o in level.queue ==> o !in orders
      modifies level`topOrder, level`queue, level`view, level.queue`next, level.queue`previous
      ensures level.Valid() && Pooled() && (forall o :: o in level.queue ==> o in old(level.queue))
      ensures kept ==> SoundBut(level, others, orders, null)
      ensures !kept ==> Detached(level, price, orders)
      ensures var s := old(level.view);
        var f := FindId(s, orderId);
        if f < |s| then order != null && order.Data() == s[f] && level.view == RemoveAt(s, f)
        else order == null && level.view == s
    {
      hide SoundBut, Detached, FindId, ObjectPools.ObjectPool.Valid, PriceLevels.OrdersPriceLevel.Valid;
      EmptyQueue(level);
      order := level.Cancel(orderId);
      if kept {
        StaysSoundBut(level, others, orders, null);
      } else {
        StaysDetached(level, price, orders);
      }
    }

    /**
     * Records what a cancel leaves of the orders `s` on a level: on its chain, or outside the chains unless
     * the level is empty now.
     */
    ghost method PutBack(level: OrdersPriceLevel, price: Price, s: seq<Resting>, f: nat, kept: bool, buy: bool, k: nat,
                         others: set<Order>, orders: set<Order>)
      requires level.Valid() && level.view == if f < |s| then RemoveAt(s, f) else s
      requires kept ==> k < |layout.chains.At(buy)| == |layout.views.At(buy)| && level == layout.chains.At(buy)[k]
      requires kept ==> level in layout.mem && SoundBut(level, others, orders, null)
      requires kept ==> Uniform(buy, LevelView(layout.views.At(buy)[k].price, s))
      requires !kept ==> Detached(level, price, orders) && level.priceLevel == price && level in footprint
      requires !kept ==> Priced(price, s)
      modifies this`layout, this`limbo
      ensures kept ==> limbo == old(limbo) && Consistent(if level.view == [] then level else null)
      ensures kept ==> layout == WithOrders(old(layout), buy, k, level.queue, level.view)
      ensures !kept ==> layout == old(layout)
      ensures !kept && level.view != [] ==>
        Valid() && OffChain() == old(OffChain())[price := StrayOf(RecOf(level))]
      ensures !kept && level.view == [] ==> Detached(level, price, orders) && limbo == old(limbo)
    {
      hide Consistent, SoundBut, Detached, Priced, Uniform, ObjectPools.ObjectPool.Valid, WithOrders, StraysOf,
           PriceLevels.OrdersPriceLevel.Valid;
      if kept {
        FewerUniform(buy, layout.views.At(buy)[k].price, s, f, level.view);
        Restock(level, buy, k, others, orders, null);
      } else if level.view != [] {
        FewerPriced(price, s, f, level.view);
        Attach(level, price, orders);
      }
    }

    /** `price_level->cancel(order_id)` on a level, at rank `k` of its chain or outside. */
    method CancelInLevel(level: OrdersPriceLevel, orderId: OrderId, ghost kept: bool, ghost buy: bool, ghost k: nat)
      returns (order: Order?, ghost orders: set<Order>)
      requires Valid()
      requires kept ==> k < |layout.chains.At(buy)| == |layout.views.At(buy)| && level == layout.chains.At(buy)[k]
      requires !kept ==> level.priceLevel in limbo.index && limbo.index[level.priceLevel] == level
      requires level.Valid() && level.view != []
      modifies this`layout, this`limbo
      modifies level`topOrder, level`queue, level`view, level.queue`next, level.queue`previous
      ensures var s := old(level.view);
        var f := FindId(s, orderId);
        if f < |s| then order != null && order.Data() == s[f] && level.view == RemoveAt(s, f)
        else order == null && level.view == s
      ensures level.Valid()
      ensures kept ==> limbo == old(limbo) && Consistent(if level.view == [] then level else null)
      ensures kept ==> old(layout.views.At(buy)[k].orders) == old(level.view)
      ensures kept ==> layout == WithOrders(old(layout), buy, k, level.queue, level.view)
      ensures !kept ==> layout == old(layout)
      ensures !kept ==> old(level.priceLevel in OffChain() && OffChain()[level.priceLevel] == StrayOf(RecOf(level)))
      ensures !kept && level.view != [] ==>
        Valid() && OffChain() == old(OffChain())[level.priceLevel := StrayOf(RecOf(level))]
      ensures !kept && level.view == [] ==>
        Detached(level, level.priceLevel, orders) && OffChain() == old(OffChain()) - {level.priceLevel}
    {
      hide Consistent, SoundBut, Detached, Priced, ObjectPools.ObjectPool.Valid, FindId, WithOrders, StraysOf,
           PriceLevels.OrdersPriceLevel.Valid;
      orders := Kept();
      ghost var price := level.priceLevel;
      if kept {
        Isolate(level, buy, k, null);
      } else {
        Detach(level, price);
        DetachedFacts(level, price, orders);
      }
      EmptyQueue(level);
      ghost var others := Others(orders, level.queue);
      order := CancelOpen(level, orderId, kept, others, orders, price);
      PutBack(level, price, old(level.view), FindId(old(level.view), orderId), kept, buy, k, others, orders);
    }

    /** The level that the map has for a price, on a chain or outside, as a cancel finds it. */
    lemma {:induction false} ReadyToCancel(level: OrdersPriceLevel, price: Price, orderId: OrderId)
      returns (kept: bool, buy: bool, k: nat)
      requires Valid()
      requires if price in limbo.index then level == limbo.index[price]
               else price in layout.index && level == layout.index[price]
      ensures kept <==> price !in limbo.index
      ensures Structured(layout, Kept(), null) && (price in OffChain() <==> price in limbo.index)
      ensures forall l :: l in layout.chains.At(buy) ==> l in footprint
      ensures kept ==> k < |layout.chains.At(buy)| == |layout.views.At(buy)|
      ensures level in footprint && level.Valid() && level.view != [] && IsBuy(level.side) == buy
      ensures forall o :: o in level.queue ==> o in footprint
      ensures forall j :: 0 <= j < |level.view| ==> level.view[j].price == price
      ensures kept ==> layout.chains.At(buy)[k] == level && layout.views.At(buy)[k] == LevelView(price, level.view)
      ensures !kept ==> level.priceLevel == price && OffChain()[price] == StrayOf(RecOf(level))
      ensures CancelFate(DeskNow(), price, orderId)
           == if !kept && |level.view| == 1 && level.view[0].orderId == orderId
              then FateOf(Best(buy) == null, level.nextPriceLevel == null) else Carried
    {
      hide Structured, Lists, Drifting, Indexed, CancelFate, Priced, StraysOf, PriceLevels.OrdersPriceLevel.Valid;
      LimboPrices(limbo);
      kept, k := price !in limbo.index, 0;
      if kept {
        buy, k := LevelToCancel(price);
        FateOnChain(DeskNow(), price, orderId);
      } else {
        StrayFacts(price);
        FateOfStray(price, orderId);
        buy := IsBuy(limbo.index[price].side);
      }
      ChainsOwned(buy);
    }

    /** `cancel` on a level, and `removePriceLevel` when it runs empty; `left` is what stays on the level. */
    method CancelAndDrop(level: OrdersPriceLevel, orderId: OrderId, ghost kept: bool, ghost buy: bool, ghost k: nat)
      returns (order: Order?, fate: Fate, ghost left: seq<Resting>)
      requires Owns() && Valid()
      requires kept ==> k < |layout.chains.At(buy)| == |layout.views.At(buy)| && level == layout.chains.At(buy)[k]
      requires !kept ==> level.priceLevel in limbo.index && limbo.index[level.priceLevel] == level
      requires level in footprint && level.Valid() && level.view != [] && IsBuy(level.side) == buy
      requires forall o :: o in level.queue ==> o in footprint
      requires forall l :: l in layout.chains.At(buy) ==> l in footprint
      modifies this`bestBids, this`bestAsks, this`priceLevels, this`layout, this`limbo, footprint
      ensures var s := old(level.view);
        && orderPool.live == old(orderPool.live)
        && fate == if !kept && |s| == 1 && s[0].orderId == orderId
                   then FateOf(old(Best(buy)) == null, old(level.nextPriceLevel) == null) else Carried
      ensures fate == Carried ==> Valid()
      ensures fate == Astray ==> Aside(buy, old(level.nextPriceLevel))
      ensures var s := old(level.view);
        var f := FindId(s, orderId);
        if f < |s| then order != null && order.Data() == s[f] && left == RemoveAt(s, f)
        else order == null && left == s
      ensures kept ==> layout.views.At(!buy) == old(layout.views.At(!buy))
      ensures kept ==> limbo == old(limbo)
      ensures kept ==>
        Flat(layout.views.At(buy)) == Flat(old(layout.views.At(buy)[k := layout.views.At(buy)[k].(orders := left)]))
      ensures fate != Ended && !kept ==> layout.views == old(layout.views)
      ensures !kept ==>
        OffChain() == old(if left == [] then OffChain() - {level.priceLevel}
                          else OffChain()[level.priceLevel := StrayOf(RecOf(level)).(orders := left)])
    {
      hide Consistent, Detached, StraysOf, FindId, Flat, RemoveAt, WithOrders, PriceLevels.OrdersPriceLevel.Valid,
           Aside;
      ghost var y, s, orders := layout, level.view, {};
      order, orders := CancelInLevel(level, orderId, kept, buy, k);
      left := level.view;
      FewerOrders(s, orderId, left);
      if kept {
        WithOrdersFacts(y, buy, k, level.queue, left);
      }
      fate := DropIfEmpty(level, kept, buy, k, orders);
    }

    /** The order to cancel, taken out of this level, and the level with it when it runs empty. */
    method TakeFromLevel(level: OrdersPriceLevel, price: Price, orderId: OrderId) returns (order: Order?, fate: Fate)
      requires Owns() && Valid()
      requires if price in limbo.index then level == limbo.index[price]
               else price in layout.index && level == layout.index[price]
      modifies this`bestBids, this`bestAsks, this`priceLevels, this`layout, this`limbo, footprint
      ensures fate == CancelFate(old(DeskNow()), price, orderId) && orderPool.live == old(orderPool.live)
      ensures fate != Ended ==> (Valid() <==> fate == Carried)
      ensures fate == Astray ==>
        old(level.nextPriceLevel) != null && Aside(IsBuy(old(level.side)), old(level.nextPriceLevel))
      ensures fate == Astray ==> old(price in OffChain() && OffChain()[price] == StrayOf(RecOf(level)))
      ensures var t := TakenOut(old(DeskNow()), price, orderId);
        && (fate != Ended ==> DeskNow() == t.desk)
        && t.order == if order == null then None else Some(order.Data())
      ensures order != null ==> order.orderId == orderId && order.limitPrice == price
    {
      hide Consistent, Structured, StraysOf, FindId, Flat, RemoveAt, TakenOut, CancelFate, Aside,
           PriceLevels.OrdersPriceLevel.Valid;
      ghost var kept, buy, k := ReadyToCancel(level, price, orderId);
      ghost var y, before, d := layout, Kept(), DeskNow();
      ghost var left: seq<Resting>;
      order, fate, left := CancelAndDrop(level, orderId, kept, buy, k);
      if kept {
        TakenFlat(y, before, d.strays, buy, k, orderId, price, left, layout.views);
      } else {
        TakenStray(d, price, orderId, left);
      }
      if fate == Astray {
        ValidUnlessAside(IsBuy(old(level.side)), old(level.nextPriceLevel));
      }
    }

    /** `getPriceLevel`, and the order out of the level found. */
    method TakeOut(price: Price, orderId: OrderId) returns (order: Order?, fate: Fate)
      requires Owns() && Valid()
      modifies this`bestBids, this`bestAsks, this`priceLevels, this`layout, this`limbo, footprint
      ensures fate == CancelFate(old(DeskNow()), price, orderId) && orderPool.live == old(orderPool.live)
      ensures fate != Ended ==> (Valid() <==> fate == Carried)
      ensures fate == Astray ==> price in old(OffChain()) && old(SuccessorAt(price)) != null
      ensures fate == Astray ==> Aside(old(OffChain())[price].buy, old(SuccessorAt(price)))
      ensures var t := TakenOut(old(DeskNow()), price, orderId);
        && (fate != Ended ==> DeskNow() == t.desk)
        && t.order == if order == null then None else Some(order.Data())
      ensures order != null ==> order.orderId == orderId && order.limitPrice == price
    {
      hide Consistent, StraysOf, Flat, TakenOut, Aside, CancelFate;
      LimboPrices(limbo);
      var level := Lookup(price);
      if level != null {
        order, fate := TakeFromLevel(level, price, orderId);
      } else {
        NothingAtPrice(price, orderId);
        NothingTaken(DeskNow(), price, orderId);
        FateOnChain(DeskNow(), price, orderId);
        order, fate := null, Carried;
      }
    }

    lemma {:induction false} NothingAtPrice(price: Price, orderId: OrderId)
      requires Valid() && price !in limbo.index && (price in layout.index ==> layout.index[price] == null)
      ensures Find(Book().bids, price, orderId) == |Book().bids| && Find(Book().asks, price, orderId) == |Book().asks|
    {
      hide Structured, Lists, Drifting, Flat, Find;
      CancelNowhere(layout, Kept(), price, orderId);
    }

    /** The level that the map has on a chain, and where it is. */
    lemma {:induction false} LevelToCancel(price: Price) returns (buy: bool, k: nat)
      requires Valid() && price !in limbo.index && price in layout.index && layout.index[price] != null
      ensures k < |layout.chains.At(buy)| == |layout.views.At(buy)| && Structured(layout, Kept(), null)
      ensures layout.views.At(buy)[k].price == price
      ensures var l := layout.chains.At(buy)[k];
        && l == layout.index[price] && l in footprint && l.Valid() && l.view != [] && IsBuy(l.side) == buy
        && layout.views.At(buy)[k].orders == l.view && (forall o :: o in l.queue ==> o in footprint)
        && (forall j :: 0 <= j < |l.view| ==> l.view[j].price == price)
    {
      hide Structured, Lists, Drifting, Indexed, PriceLevels.OrdersPriceLevel.Valid;
      buy, k := IndexedLevel(layout, Kept(), price);
      Isolate(layout.chains.At(buy)[k], buy, k, null);
      EmptyQueue(layout.chains.At(buy)[k]);
      SideOfLevel(buy, k);
    }

    /** What becomes of a cancel on a level outside the chains shows in the pointers. */
    lemma {:induction false} FateOfStray(price: Price, orderId: OrderId)
      requires Valid() && price in limbo.index
      ensures var l := limbo.index[price];
        CancelFate(DeskNow(), price, orderId)
        == if |l.view| == 1 && l.view[0].orderId == orderId
           then FateOf(Best(IsBuy(l.side)) == null, l.nextPriceLevel == null) else Carried
      ensures var l := limbo.index[price];
        var best := if l.side == Buy then bestBids else bestAsks;
        var last := |l.view| == 1 && l.view[0].orderId == orderId;
        && (CancelFate(DeskNow(), price, orderId) == Ended <==> last && best != null)
        && (CancelFate(DeskNow(), price, orderId) == Astray <==> last && best == null && l.nextPriceLevel != null)
    {
      hide Consistent, Priced, Flat;
      StrayFacts(price);
      GuardSeesFlat(true);
      GuardSeesFlat(false);
    }

    lemma {:induction false} ChainsOwned(buy: bool)
      requires Valid()
      ensures forall l :: l in layout.chains.At(buy) ==> l in footprint
    {
      hide Structured, Lists, Drifting;
      ChainOf(layout, Kept(), null, buy);
    }

    lemma {:induction false} SideOfLevel(buy: bool, k: nat)
      requires Valid() && k < |layout.chains.At(buy)|
      ensures IsBuy(layout.chains.At(buy)[k].side) == buy
      ensures forall l :: l in layout.chains.At(buy) ==> l in footprint
    {
      LevelFacts(layout, Kept(), null, buy, k);
    }

    /** What the map and the pointers say about a level outside the chains. */
    lemma {:induction false} StrayFacts(price: Price)
      requires Valid() && price in limbo.index
      ensures var l := limbo.index[price];
        && l in footprint && l.Valid() && Priced(price, l.view) && l.priceLevel == price
        && price in OffChain() && OffChain()[price] == StrayOf(RecOf(l))
        && l.view != [] && (forall j :: 0 <= j < |l.view| ==> l.view[j].price == price)
        && (forall o :: o in l.queue ==> o in footprint)
    {
      hide Structured, Beside, ObjectPools.ObjectPool.Valid, PriceLevels.OrdersPriceLevel.Valid;
      AdriftWithout(limbo, price);
    }

    /** CANCELED and REMOVE for the order that a cancel has taken out; CANCEL_REJECTED when there is none. */
    method ReportCancel(r: BookRequest, order: Order?)
      requires r.Cancel? && Ready(responses, updates)
      requires order != null ==> order.orderId == r.orderId && order.limitPrice == r.price
      modifies responses, responses.data, updates, updates.data
      ensures Ready(responses, updates)
      ensures responses.pushed == old(responses.pushed) + [
        if order == null then RejectedResponse(tickerId, r.clientId, r.orderId)
        else CanceledResponse(tickerId, r.clientId, r.side, old(order.Data()))]
      ensures updates.pushed == old(updates.pushed)
        + if order == null then [] else [CanceledUpdate(tickerId, r.side, old(order.Data()))]
    {
      hide LFQueues.LFQueue.Valid;
      if order != null {
        var quantity := order.quantity;
        responses.Push(ClientResponse(Canceled, tickerId, r.clientId, r.orderId, r.side, quantity, r.price));
        updates.Push(MarketUpdate(Removed, tickerId, r.orderId, INVALID_UINT32, r.side, quantity, r.price));
      } else {
        responses.Push(ClientResponse(CancelRejected, tickerId, r.clientId, r.orderId, OrderSide.Invalid,
                                      INVALID_UINT32, INVALID_PRICE));
      }
    }

    /**
     * The fate says what becomes of the book: it is `Carried` on, the process has `Ended` in the search
     * for a predecessor, or the cancel is answered and the book goes `Astray`, with a best pointer to
     * the former successor of a level outside the chains.
     */
    method Cancel(r: BookRequest, tradeId: TradeId) returns (fate: Fate)
      requires r.Cancel? && Owns() && Valid() && Ready(responses, updates)
      modifies this, footprint, responses, responses.data, updates, updates.data
      ensures fate == CancelFate(old(DeskNow()), r.price, r.orderId)
      ensures Ready(responses, updates) && orderPool.live == old(orderPool.live)
      ensures var e := CancelAsWritten(tickerId, old(DeskNow()), r, tradeId);
        fate != Ended ==>
          && DeskNow() == e.desk
          && responses.pushed == old(responses.pushed) + e.responses
          && updates.pushed == old(updates.pushed) + e.updates
      ensures fate != Ended ==> (Valid() <==> fate == Carried)
      ensures fate == Astray ==> r.price in old(OffChain()) && old(SuccessorAt(r.price)) != null
      ensures fate == Astray ==> Aside(old(OffChain())[r.price].buy, old(SuccessorAt(r.price)))
    {
      hide Consistent, LFQueues.LFQueue.Valid, TakenOut, Aside, CancelFate;
      var order;
      order, fate := TakeOut(r.price, r.orderId);
      if fate == Ended {
        return;
      }
      ReportCancel(r, order);
    }

    /** The level pool holds one level for each price in the book and each level outside its chains. */
    lemma {:induction false} LevelAccounting()
      requires Valid()
      ensures |levelPool.live| == PriceCount(Book().bids) + PriceCount(Book().asks) + |OffChain()|
    {
      hide Lists, Fields, Structured, Sound, StraysOf, ObjectPools.ObjectPool.Valid;
      LevelsCounted(layout, Kept());
      LimboCounted(limbo);
      assert |layout.mem.Keys + limbo.mem.Keys| == |layout.mem.Keys| + |limbo.mem.Keys|;
    }

    method Add(r: BookRequest, tradeId: TradeId) returns (ok: bool, nextTradeId: TradeId)
      requires r.Add? && Owns() && Valid() && Ready(responses, updates)
      modifies this, footprint, responses, responses.data, updates, updates.data
      ensures Ready(responses, updates)
      ensures var e := AddAsWritten(linked, tickerId, old(DeskNow()), r, tradeId);
        && nextTradeId == e.nextTradeId
        && responses.pushed == old(responses.pushed) + e.responses
        && updates.pushed == old(updates.pushed)
             + (if ok then e.updates else CrossingOf(tickerId, old(Book()), r, tradeId).updates)
        && (ok ==> Valid() && DeskNow() == e.desk)
      ensures ok <==> RoomFor(tickerId, old(DeskNow()), r, |old(orderPool.live)|, |orderPool.store|, |levelPool.store|)
      ensures ok ==> |orderPool.live| == |old(orderPool.live)| + RestedBy(tickerId, old(Book()), r)
    {
      hide Consistent, LFQueues.LFQueue.Valid, Cross, Flat, Insert, Rested, HasPrice, PriceCount, StraysOf;
      RemainingIgnoresIds(TakerOf(tickerId, r), r.quantity, Book().At(!IsBuy(r.side)), 0, tradeId);
      var taker := TakerOf(tickerId, r);
      responses.Push(ClientResponse(Accepted, tickerId, r.clientId, r.orderId, r.side, r.quantity, r.price));
      var remaining;
      remaining, nextTradeId := CheckForMatch(taker, r.quantity, tradeId);
      LevelAccounting();
      ok := true;
      if remaining != 0 {
        ok := Rest(r, remaining);
        if ok {
          updates.Push(MarketUpdate(Added, tickerId, r.orderId, INVALID_UINT32, r.side, remaining, r.price));
        }
      }
    }
  }
}
