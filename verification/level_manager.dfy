/** `PriceLevelManager` in place: maps to level objects and to queue objects, updated together. */
module LevelManagers {
  import opened Types
  import opened OrderLists
  import opened OrderQueues
  import opened LevelSpec
  import opened SkipNodes

  /** The level object under `p` shows what the value `v` has there. Its own price is `p`,
      so no level object is filed under two prices. */
  ghost predicate Shows(m: map<real, PriceLevel>, v: map<real, Level>, p: real)
    reads if p in m then {m[p]} else {}
  {
    && (p in m <==> p in v)
    && (p in m ==> m[p].price == p && v[p] == Level(p, m[p].totalQty, m[p].orders))
  }

  ghost predicate LevelsShow(m: map<real, PriceLevel>, v: map<real, Level>)
    reads m.Values
  {
    forall p :: Shows(m, v, p)
  }

  /** The queue object under `p` holds what the value `v` has there; it and its array belong to `p` alone. */
  ghost predicate Queues(m: map<real, OrderQueue>, owner: map<object, real>, v: map<real, seq<Order>>, p: real)
    reads if p in m then {m[p], m[p].orders} else {}
  {
    && (p in m <==> p in v)
    && (p in m ==> m[p].Valid() && m[p].orders.Length > 0 && m[p].contents == v[p]
                   && m[p] in owner && m[p].orders in owner && owner[m[p]] == owner[m[p].orders] == p)
  }

  /** What a change at price `p` may touch. */
  ghost function LevelAt(m: map<real, PriceLevel>, p: real): set<object> {
    if p in m then {m[p]} else {}
  }

  ghost function QueueAt(m: map<real, OrderQueue>, p: real): set<object>
    reads if p in m then {m[p]} else {}
  {
    if p in m then {m[p], m[p].orders} else {}
  }

  ghost predicate Grown(owner: map<object, real>, owner': map<object, real>) {
    forall o :: o in owner ==> o in owner'
  }

  /** Every level object in the map belongs to the manager. */
  ghost predicate Owned(m: map<real, PriceLevel>, owner: map<object, real>) {
    forall p :: p in m ==> m[p] in owner
  }

  ghost function Arrays(m: map<real, OrderQueue>): set<array<Option<Order>>>
    reads m.Values
  {
    set p | p in m :: m[p].orders
  }

  ghost predicate QueuesHold(m: map<real, OrderQueue>, owner: map<object, real>, v: map<real, seq<Order>>)
    reads m.Values, Arrays(m)
  {
    forall p :: Queues(m, owner, v, p)
  }

  class PriceLevelManager {
    var levels: map<real, PriceLevel>
    var orderMap: map<nat, Order>
    var seqMap: map<real, OrderQueue>
    var totalQty: int
    var orderCount: int
    ghost var owner: map<object, real>  // every object of the manager, with its price
    ghost var view: Manager

    /** The objects show the value `view`, which `LevelSpec` is about. */
    ghost predicate Valid()
      reads this, levels.Values, seqMap.Values, Arrays(seqMap)
    {
      && LevelsShow(levels, view.levels) && Owned(levels, owner) && QueuesHold(seqMap, owner, view.queues)
      && (forall id :: id in orderMap ==> orderMap[id].id == id)
      && orderMap == view.orderMap && totalQty == view.totalQty && orderCount == view.orderCount
    }

    constructor ()
      ensures Valid() && view == EMPTY && owner == map[]
    {
      levels, orderMap, seqMap, totalQty, orderCount := map[], map[], map[], 0, 0;
      owner, view := map[], EMPTY;
    }

    method AddOrder(order: Order)
      requires Valid()
      modifies this, owner.Keys
      ensures Valid() && view == Add(old(view), order) && fresh(owner.Keys - old(owner.Keys))
    {
      ghost var ls := AddLevel(view.levels, order, order.quantity);
      assert Queues(seqMap, owner, view.queues, order.price);
      AddToLevel(order);
      Enqueue(order, ls);
    }

    /** The second half of `AddOrder`: the order map, the queue and the totals. */
    method Enqueue(order: Order, ghost ls: map<real, Level>)
      requires LevelsShow(levels, ls) && Owned(levels, owner) && QueuesHold(seqMap, owner, view.queues)
      requires forall id :: id in orderMap ==> orderMap[id].id == id
      requires totalQty == view.totalQty && orderCount == view.orderCount
      modifies this`orderMap, this`seqMap, this`owner, this`totalQty, this`orderCount, this`view
      modifies QueueAt(seqMap, order.price)
      ensures Valid() && fresh(owner.Keys - old(owner.Keys))
      ensures view == Manager(ls, old(orderMap)[order.id := order], AddQueue(old(view).queues, order),
                              old(view).totalQty + order.quantity, old(view).orderCount + 1)
    {
      orderMap := orderMap[order.id := order];
      AddToQueue(order, ls);
      Tally(order.quantity, 1, ls, AddQueue(view.queues, order));
    }

    /** Updates the two totals, which completes the step to a value with levels `ls` and queues `qs`. */
    method Tally(qty: int, count: int, ghost ls: map<real, Level>, ghost qs: map<real, seq<Order>>)
      requires LevelsShow(levels, ls) && Owned(levels, owner) && QueuesHold(seqMap, owner, qs)
      requires forall id :: id in orderMap ==> orderMap[id].id == id
      requires totalQty == view.totalQty && orderCount == view.orderCount
      modifies this`totalQty, this`orderCount, this`view
      ensures Valid()
      ensures view == Manager(ls, orderMap, qs, old(view).totalQty + qty, old(view).orderCount + count)
    {
      totalQty := totalQty + qty;
      orderCount := orderCount + count;
      view := Manager(ls, orderMap, qs, totalQty, orderCount);
    }

    method AddToLevel(order: Order)
      requires LevelsShow(levels, view.levels) && Owned(levels, owner) && QueuesHold(seqMap, owner, view.queues)
      modifies this`levels, this`owner, LevelAt(levels, order.price)
      ensures LevelsShow(levels, AddLevel(view.levels, order, order.quantity)) && Owned(levels, owner)
      ensures QueuesHold(seqMap, owner, view.queues) && Grown(old(owner), owner) && fresh(owner.Keys - old(owner.Keys))
    {
      var price := order.price;
      assert Shows(levels, view.levels, price);
      if price !in levels {
        var level := new PriceLevel(price);
        levels := levels[price := level];
        owner := owner[level := price];
      }
      forall p | p != price
        ensures Shows(levels, view.levels, p)
      {
        assert old(Shows(levels, view.levels, p));
      }
      AppendTo(levels[price], order, view.levels);
      forall p
        ensures Queues(seqMap, owner, view.queues, p)
      {
        assert old(Queues(seqMap, owner, view.queues, p));
      }
    }

    method AppendTo(level: PriceLevel, order: Order, ghost v: map<real, Level>)
      requires order.price in levels && levels[order.price] == level && level.price == order.price
      requires if order.price in v then Shows(levels, v, order.price) else level.totalQty == 0 && level.orders == []
      requires forall p :: p != order.price ==> Shows(levels, v, p)
      modifies level
      ensures LevelsShow(levels, AddLevel(v, order, order.quantity))
    {
      level.orders := level.orders + [order];
      level.totalQty := level.totalQty + order.quantity;
      forall p
        ensures Shows(levels, AddLevel(v, order, order.quantity), p)
      {
        if p != order.price {
          assert old(Shows(levels, v, p));
        }
      }
    }

    method AddToQueue(order: Order, ghost ls: map<real, Level>)
      requires QueuesHold(seqMap, owner, view.queues) && LevelsShow(levels, ls)
      modifies this`seqMap, this`owner, QueueAt(seqMap, order.price)
      ensures QueuesHold(seqMap, owner, AddQueue(view.queues, order)) && LevelsShow(levels, ls)
      ensures Grown(old(owner), owner) && fresh(owner.Keys - old(owner.Keys))
    {
      var queue := QueueFor(order.price);
      PushTo(order, queue, view.queues);
      forall p
        ensures Shows(levels, ls, p)
      {
        assert old(Shows(levels, ls, p));
      }
    }

    /** The queue at a price, created empty where there is none. */
    method QueueFor(price: real) returns (queue: OrderQueue)
      requires QueuesHold(seqMap, owner, view.queues)
      modifies this`seqMap, this`owner
      ensures price in seqMap && seqMap[price] == queue
      ensures if old(price in seqMap) then queue == old(seqMap[price]) else fresh(queue) && fresh(queue.orders)
      ensures QueuesHold(seqMap, owner, WithQueue(view.queues, price))
      ensures Grown(old(owner), owner) && fresh(owner.Keys - old(owner.Keys))
    {
      assert Queues(seqMap, owner, view.queues, price);
      if price !in seqMap {
        var queue := new OrderQueue(1000);
        seqMap := seqMap[price := queue];
        owner := owner[queue := price][queue.orders := price];
      }
      forall p
        ensures Queues(seqMap, owner, WithQueue(view.queues, price), p)
      {
        assert old(Queues(seqMap, owner, view.queues, p));
      }
      queue := seqMap[price];
    }

    method PushTo(order: Order, queue: OrderQueue, ghost v: map<real, seq<Order>>)
      requires order.price in seqMap && seqMap[order.price] == queue
      requires QueuesHold(seqMap, owner, WithQueue(v, order.price))
      modifies this`owner, queue, queue.orders
      ensures QueuesHold(seqMap, owner, AddQueue(v, order))
      ensures Grown(old(owner), owner) && fresh(owner.Keys - old(owner.Keys))
    {
      assert Queues(seqMap, owner, WithQueue(v, order.price), order.price);
      queue.Push(order);
      owner := owner[queue.orders := order.price];
      forall p
        ensures Queues(seqMap, owner, AddQueue(v, order), p)
      {
        assert old(Queues(seqMap, owner, WithQueue(v, order.price), p));
      }
    }

    /** Removes a live order from every index; false when it is not found. */
    method RemoveOrder(orderID: nat) returns (ok: bool)
      requires Valid()
      modifies this, owner.Keys
      ensures owner == old(owner) && Valid() && view == Remove(old(view), orderID) && ok == Removes(old(view), orderID)
    {
      if orderID !in orderMap {
        return false;
      }
      var order := orderMap[orderID];
      assert Shows(levels, view.levels, order.price);
      if order.price !in levels {
        return false;
      }
      var level := levels[order.price];
      var i := 0;
      while i < |level.orders| && level.orders[i].id != orderID
        invariant 0 <= i <= |level.orders|
        invariant forall j :: 0 <= j < i ==> level.orders[j].id != orderID
      {
        i := i + 1;
      }
      if i == |level.orders| {
        FindMisses(level.orders, orderID);
        return false;
      }
      FindIs(level.orders, orderID, i);
      RemoveAt(order, level, i);
      return true;
    }

    /** The removal once the order is found at position `i` of its level. */
    method RemoveAt(order: Order, level: PriceLevel, i: nat)
      requires Valid() && order.id in orderMap && orderMap[order.id] == order
      requires order.price in levels && levels[order.price] == level
      requires i == Find(level.orders, order.id) < |level.orders|
      modifies this, owner.Keys
      ensures owner == old(owner) && Valid() && view == Remove(old(view), order.id)
    {
      assert Shows(levels, view.levels, order.price) && Queues(seqMap, owner, view.queues, order.price);
      ghost var v := view;
      var gone := TakeFromLevel(order, level, i);
      orderMap := orderMap - {order.id};
      Dequeue(order, gone, RemoveLevel(v.levels, order));
    }

    /** The second half of a removal: the queue and the totals. */
    method Dequeue(order: Order, gone: bool, ghost ls: map<real, Level>)
      requires LevelsShow(levels, ls) && Owned(levels, owner) && QueuesHold(seqMap, owner, view.queues)
      requires forall id :: id in orderMap ==> orderMap[id].id == id
      requires totalQty == view.totalQty && orderCount == view.orderCount
      modifies this`seqMap, this`totalQty, this`orderCount, this`view, QueueAt(seqMap, order.price)
      ensures Valid()
      ensures view == Manager(ls, orderMap, RemoveQueue(old(view).queues, order, gone),
                              old(view).totalQty - order.quantity, old(view).orderCount - 1)
    {
      TakeFromQueue(order, gone);
      Tally(-order.quantity, -1, ls, RemoveQueue(view.queues, order, gone));
    }

    /** Takes the order out of its level, and the level out of the map when its total reaches zero. */
    method TakeFromLevel(order: Order, level: PriceLevel, i: nat) returns (gone: bool)
      requires LevelsShow(levels, view.levels) && Owned(levels, owner)
      requires order.price in levels && levels[order.price] == level
      requires i == Find(level.orders, order.id) < |level.orders|
      modifies this`levels, level
      ensures order.price in view.levels && gone == (Left(view.levels[order.price], order).totalQty == 0)
      ensures LevelsShow(levels, RemoveLevel(view.levels, order)) && Owned(levels, owner)
    {
      var price := order.price;
      assert Shows(levels, view.levels, price);
      level.orders := level.orders[..i] + level.orders[i + 1..];
      level.totalQty := level.totalQty - order.quantity;
      gone := level.totalQty == 0;
      if gone {
        levels := levels - {price};
      }
      forall p
        ensures Shows(levels, RemoveLevel(view.levels, order), p)
      {
        assert old(Shows(levels, view.levels, p));
      }
    }

    /** Drops the queue of a level that is gone; otherwise takes the order out of it. */
    method TakeFromQueue(order: Order, gone: bool)
      requires QueuesHold(seqMap, owner, view.queues)
      modifies this`seqMap, QueueAt(seqMap, order.price)
      ensures QueuesHold(seqMap, owner, RemoveQueue(view.queues, order, gone))
    {
      var price := order.price;
      assert Queues(seqMap, owner, view.queues, price);
      if gone {
        seqMap := seqMap - {price};
      }
      if price in seqMap {
        var found := seqMap[price].Remove(order.id);
      }
      forall p
        ensures Queues(seqMap, owner, RemoveQueue(view.queues, order, gone), p)
      {
        assert old(Queues(seqMap, owner, view.queues, p));
      }
    }

    method GetEarliestOrder(price: real) returns (order: Option<Order>)
      requires Valid()
      ensures order == Earliest(view, price)
    {
      assert Queues(seqMap, owner, view.queues, price);
      if price !in seqMap {
        return None;
      }
      order := seqMap[price].Peek();
    }

    method GetLevel(price: real) returns (level: PriceLevel?)
      requires Valid()
      ensures level == null <==> price !in view.levels
      ensures level != null ==> view.levels[price] == Level(price, level.totalQty, level.orders)
    {
      assert Shows(levels, view.levels, price);
      level := if price in levels then levels[price] else null;
    }

    method GetTotalQuantity() returns (qty: int)
      requires Valid()
      ensures qty == view.totalQty
    {
      qty := totalQty;
    }

    method GetOrderCount() returns (count: int)
      requires Valid()
      ensures count == view.orderCount
    {
      count := orderCount;
    }
  }

  method ApplyOne(m: PriceLevelManager, c: Cmd)
    requires m.Valid()
    modifies m, m.owner.Keys
    ensures m.Valid() && m.view == Step(old(m.view), c) && fresh(m.owner.Keys - old(m.owner.Keys))
  {
    match c
    case AddOrder(o) => m.AddOrder(o);
    case RemoveOrder(id) => var ok := m.RemoveOrder(id);
  }

  /** A manager driven through any run of adds and removes holds what `LevelSpec.Run` computes, so that
      `RunsAgreeUnlessBroken` and `EarliestIsOldest` speak about it. */
  method ApplyAll(cs: seq<Cmd>) returns (m: PriceLevelManager)
    ensures m.Valid() && m.view == Run(cs) && fresh(m) && fresh(m.owner.Keys)
  {
    if cs == [] {
      m := new PriceLevelManager();
    } else {
      m := ApplyAll(cs[..|cs| - 1]);
      ApplyOne(m, cs[|cs| - 1]);
    }
  }
}
