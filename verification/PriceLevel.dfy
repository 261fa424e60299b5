/** Orders and the circular doubly linked list of orders that makes up one price level. */
module PriceLevels {
  import opened Types
  import opened Matching

  class Order {
    var previous: Order?
    var next: Order?
    var tickerId: TickerId
    var orderId: OrderId
    var clientId: ClientId
    var quantity: Quantity
    var limitPrice: Price
    var side: OrderSide

    /** The default-constructed order that fills an unused pool block. */
    constructor () {
      previous, next := null, null;
      tickerId, orderId, clientId := INVALID_UINT32, INVALID_UINT32, INVALID_UINT32;
      quantity, limitPrice, side := INVALID_UINT32, INVALID_PRICE, OrderSide.Invalid;
    }

    /** Construction in place, in a block that the pool has just granted. */
    method Init(tickerId: TickerId, orderId: OrderId, clientId: ClientId, side: OrderSide,
                quantity: Quantity, limitPrice: Price)
      modifies this
      ensures Data() == Resting(orderId, clientId, side, quantity, limitPrice)
      ensures this.orderId == orderId && this.clientId == clientId && this.side == side
      ensures this.quantity == quantity && this.limitPrice == limitPrice
      ensures previous == null && next == null && this.tickerId == tickerId
    {
      previous, next := null, null;
      this.tickerId, this.orderId, this.clientId := tickerId, orderId, clientId;
      this.side, this.quantity, this.limitPrice := side, quantity, limitPrice;
    }

    ghost function Data(): Resting
      reads this`orderId, this`clientId, this`side, this`quantity, this`limitPrice
    {
      Resting(orderId, clientId, side, quantity, limitPrice)
    }
  }

  /** `next` and `previous` are inverse walks around one cycle through `q`. */
  ghost predicate Cycle(q: seq<Order>)
    reads q
  {
    && (forall i {:trigger q[i].next} :: 0 <= i < |q| - 1 ==> q[i].next == q[i + 1])
    && (forall i {:trigger q[i].previous} :: 1 <= i < |q| ==> q[i].previous == q[i - 1])
    && (q != [] ==> q[|q| - 1].next == q[0] && q[0].previous == q[|q| - 1])
  }

  /** Like `Cycle`, with the links of the neighbours of position `k` meeting around it. */
  ghost predicate CycleAround(q: seq<Order>, k: nat)
    requires k < |q|
    reads q
  {
    var head := if k == 0 then 1 else 0;
    var last := if k == |q| - 1 then |q| - 2 else |q| - 1;
    && (forall i {:trigger q[i].next} :: 0 <= i < |q| - 1 && i != k && i + 1 != k ==> q[i].next == q[i + 1])
    && (forall i {:trigger q[i].previous} :: 1 <= i < |q| && i != k && i - 1 != k ==> q[i].previous == q[i - 1])
    && (0 < k < |q| - 1 ==> q[k - 1].next == q[k + 1] && q[k + 1].previous == q[k - 1])
    && (|q| > 1 ==> q[last].next == q[head] && q[head].previous == q[last])
  }

  lemma {:induction false} CutCycle(q: seq<Order>, k: nat)
    requires k < |q| && CycleAround(q, k)
    ensures Cycle(RemoveAt(q, k))
  {
    RemoveAtShifts(q, k);
  }

  class OrdersPriceLevel {
    var nextPriceLevel: OrdersPriceLevel?
    var priceLevel: Price
    var topOrder: Order?
    var side: OrderSide
    ghost var queue: seq<Order>    // the cycle, cut open in front of `topOrder`
    ghost var view: seq<Resting>   // what the orders of `queue` hold

    ghost predicate Valid()
      reads this`topOrder, this`queue, this`view, queue
    {
      && topOrder == (if queue == [] then null else queue[0])
      && (forall i, j :: 0 <= i < j < |queue| ==> queue[i] != queue[j])
      && Cycle(queue)
      && |view| == |queue|
      && (forall i {:trigger view[i]} :: 0 <= i < |queue| ==> queue[i].Data() == view[i])
    }

    /** The default-constructed level that fills an unused pool block. */
    constructor ()
      ensures Valid() && queue == [] && priceLevel == INVALID_PRICE && side == OrderSide.Invalid
    {
      nextPriceLevel, topOrder, side := null, null, OrderSide.Invalid;
      priceLevel := INVALID_PRICE;
      queue, view := [], [];
    }

    /** Construction in place, in a block that the pool has just granted. */
    method Init(side: OrderSide, price: Price, next: OrdersPriceLevel?)
      modifies this
      ensures Valid() && queue == [] && view == []
      ensures this.side == side && priceLevel == price && nextPriceLevel == next
    {
      nextPriceLevel, priceLevel, topOrder, this.side := next, price, null, side;
      queue, view := [], [];
    }

    method Add(order: Order)
      requires Valid() && order !in queue
      modifies this`topOrder, this`side, this`queue, this`view
      modifies order`next, order`previous, queue`next, queue`previous
      ensures Valid()
      ensures queue == old(queue) + [order] && view == old(view) + [order.Data()]
      ensures side == if old(queue) == [] then order.side else old(side)
    {
      if topOrder == null {
        topOrder := order;
        order.previous, order.next := order, order;
        side := order.side;
      } else {
        assert topOrder.previous == queue[|queue| - 1];
        order.next := topOrder;
        order.previous := topOrder.previous;
        order.previous.next := order;
        topOrder.previous := order;
      }
      queue := queue + [order];
      view := view + [order.Data()];
    }

    /** Unlinks the first order with this id, or changes nothing and returns null. */
    method Cancel(orderId: OrderId) returns (order: Order?)
      requires Valid() && queue != []
      modifies this`topOrder, this`queue, this`view, queue`next, queue`previous
      ensures Valid()
      ensures var k := FindId(old(view), orderId);
        if k < |old(view)| then
          order != null && order == old(queue)[k] && order.Data() == old(view)[k] && order.next == null
          && order.previous == null
          && queue == RemoveAt(old(queue), k) && view == RemoveAt(old(view), k)
        else
          order == null && queue == old(queue) && view == old(view)
    {
      var current := topOrder;
      ghost var k := 0;
      while current.orderId != orderId && current != topOrder.previous
        invariant k < |queue| && current == queue[k]
        invariant forall j :: 0 <= j < k ==> view[j].orderId != orderId
        decreases |queue| - k
      {
        assert topOrder.previous == queue[|queue| - 1];
        current := current.next;
        k := k + 1;
      }
      assert current.Data() == view[k];
      assert topOrder.previous == queue[|queue| - 1];
      if current.orderId == orderId {
        FindIdIs(view, orderId, k);
        Unlink(current, k);
        Forget(k);
        order := current;
      } else {
        FindIdIs(view, orderId, |view|);
        order := null;
      }
    }

    /** Once its neighbours are linked around position `k`, the queue is the one without it. */
    ghost method Forget(k: nat)
      requires k < |queue| == |view| && CycleAround(queue, k)
      requires topOrder == if |queue| == 1 then null else if k == 0 then queue[1] else queue[0]
      requires forall i, j :: 0 <= i < j < |queue| ==> queue[i] != queue[j]
      requires forall i {:trigger view[i]} :: 0 <= i < |queue| ==> queue[i].Data() == view[i]
      modifies this`queue, this`view
      ensures queue == RemoveAt(old(queue), k) && view == RemoveAt(old(view), k)
      ensures Valid()
    {
      CutCycle(queue, k);
      RemoveAtShifts(queue, k);
      RemoveAtShifts(view, k);
      queue, view := RemoveAt(queue, k), RemoveAt(view, k);
    }

    /** Takes the order at position `k` out of the cycle. */
    method Unlink(order: Order, ghost k: nat)
      requires Valid() && k < |queue| && order == queue[k]
      modifies this`topOrder, queue`next, queue`previous
      ensures CycleAround(queue, k) && order.next == null
          && order.previous == null
      ensures topOrder == if |queue| == 1 then null else if k == 0 then queue[1] else queue[0]
    {
      assert order.previous == queue[if k == 0 then |queue| - 1 else k - 1];
      assert order.next == queue[if k + 1 == |queue| then 0 else k + 1];
      order.previous.next := order.next;
      order.next.previous := order.previous;
      if topOrder == order {
        if topOrder.next == topOrder {
          topOrder := null;
        } else {
          topOrder := topOrder.next;
        }
      }
      order.next, order.previous := null, null;
    }
  }

  /** `order->quantity -= fill` for the first order of the level `l`. */
  method TakeFrom(order: Order, fill: Quantity, ghost l: OrdersPriceLevel)
    requires l.Valid() && l.topOrder == order && fill <= order.quantity
    modifies order`quantity, l`view
    ensures l.Valid() && order.quantity == old(order.quantity) - fill && order in l.queue
    ensures old(l.view) == [old(order.Data())] + old(l.view)[1..]
    ensures l.view == [order.Data()] + old(l.view)[1..]
  {
    assert l.view[0] == order.Data();
    order.quantity := order.quantity - fill;
    l.view := [order.Data()] + l.view[1..];
  }
}
