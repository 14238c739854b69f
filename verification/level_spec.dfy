/** `PriceLevelManager` on values: its four indexes and totals, and the one list of live orders
    in arrival order that all of them are projections of. */
module LevelSpec {
  import opened Types
  import opened OrderLists

  datatype Level = Level(price: real, totalQty: int, orders: seq<Order>)

  datatype Manager = Manager(
    levels: map<real, Level>, orderMap: map<nat, Order>, queues: map<real, seq<Order>>,
    totalQty: int, orderCount: int)

  const EMPTY: Manager := Manager(map[], map[], map[], 0, 0)

  function AddTo(level: Level, o: Order, qty: int): Level {
    level.(orders := level.orders + [o], totalQty := level.totalQty + qty)
  }

  function AddLevel(levels: map<real, Level>, o: Order, qty: int): map<real, Level> {
    var level := if o.price in levels then levels[o.price] else Level(o.price, 0, []);
    levels[o.price := AddTo(level, o, qty)]
  }

  function WithQueue(queues: map<real, seq<Order>>, p: real): map<real, seq<Order>> {
    if p in queues then queues else queues[p := []]
  }

  function AddQueue(queues: map<real, seq<Order>>, o: Order): map<real, seq<Order>> {
    var qs := WithQueue(queues, o.price);
    qs[o.price := qs[o.price] + [o]]
  }

  function Add(s: Manager, o: Order): Manager {
    Manager(AddLevel(s.levels, o, o.quantity), s.orderMap[o.id := o], AddQueue(s.queues, o),
            s.totalQty + o.quantity, s.orderCount + 1)
  }

  /** Whether `Remove` finds the order in its level. */
  predicate Removes(s: Manager, id: nat) {
    id in s.orderMap && s.orderMap[id].price in s.levels && Has(s.levels[s.orderMap[id].price].orders, id)
  }

  /** The level once `o` has left it. */
  function Left(level: Level, o: Order): Level {
    level.(orders := Drop(level.orders, o.id), totalQty := level.totalQty - o.quantity)
  }

  function RemoveLevel(levels: map<real, Level>, o: Order): map<real, Level>
    requires o.price in levels
  {
    var level := Left(levels[o.price], o);
    if level.totalQty == 0 then levels - {o.price} else levels[o.price := level]
  }

  function RemoveQueue(queues: map<real, seq<Order>>, o: Order, gone: bool): map<real, seq<Order>> {
    if gone then queues - {o.price}
    else if o.price in queues then queues[o.price := Drop(queues[o.price], o.id)]
    else queues
  }

  function Remove(s: Manager, id: nat): Manager {
    if !Removes(s, id) then s
    else
      var o := s.orderMap[id];
      var gone := Left(s.levels[o.price], o).totalQty == 0;
      Manager(RemoveLevel(s.levels, o), s.orderMap - {id}, RemoveQueue(s.queues, o, gone),
              s.totalQty - o.quantity, s.orderCount - 1)
  }

  function Earliest(s: Manager, p: real): Option<Order> {
    if p in s.queues && s.queues[p] != [] then Some(s.queues[p][0]) else None
  }

  // ---- The single list behind the indexes ----

  /** The orders at one price, in arrival order. */
  function At(os: seq<Order>, p: real): seq<Order> {
    if os == [] then []
    else
      var init, last := os[..|os| - 1], os[|os| - 1];
      if last.price == p then At(init, p) + [last] else At(init, p)
  }

  lemma AtAppend(os: seq<Order>, o: Order, p: real)
    ensures At(os + [o], p) == if o.price == p then At(os, p) + [o] else At(os, p)
  {
    assert (os + [o])[..|os|] == os;
  }

  /** Membership, quantities and distinctness carry over to the orders at one price. */
  lemma {:induction false} AtMembers(os: seq<Order>, p: real)
    ensures forall o :: o in At(os, p) <==> o in os && o.price == p
    ensures Positive(os) ==> Positive(At(os, p))
    ensures Unique(os) ==> Unique(At(os, p))
  {
    if os != [] {
      var init, last := os[..|os| - 1], os[|os| - 1];
      AtMembers(init, p);
      assert os == init + [last];
      forall o
        ensures o in os <==> o in init || o == last
      {
      }
      if Unique(os) && last.price == p {
        UniqueAppend(At(init, p), last);
      }
    }
  }

  lemma UniqueAppend(os: seq<Order>, o: Order)
    requires Unique(os) && forall x :: x in os ==> x.id != o.id
    ensures Unique(os + [o])
  {
  }

  lemma FindAppend(os: seq<Order>, o: Order, id: nat)
    ensures Has(os, id) ==> Find(os + [o], id) == Find(os, id) && Drop(os + [o], id) == Drop(os, id) + [o]
    ensures !Has(os, id) && o.id == id ==> Find(os + [o], id) == |os| && Drop(os + [o], id) == os
    ensures !Has(os, id) && o.id != id ==> !Has(os + [o], id)
  {
    if Has(os, id) {
      FoundAppend(os, o, id);
    } else if o.id == id {
      DropAppended(os, o);
    } else {
      FindMisses(os + [o], id);
    }
  }

  lemma FoundAppend(os: seq<Order>, o: Order, id: nat)
    requires Has(os, id)
    ensures Find(os + [o], id) == Find(os, id) && Drop(os + [o], id) == Drop(os, id) + [o]
  {
    var i, os' := Find(os, id), os + [o];
    FindIs(os', id, i);
    assert os'[..i] == os[..i] && os'[i + 1..] == os[i + 1..] + [o];
    assert os[..i] + (os[i + 1..] + [o]) == os[..i] + os[i + 1..] + [o];
  }

  /** Removing an order from the list removes it from its own price and no other. */
  lemma {:induction false} AtDrop(os: seq<Order>, id: nat, p: real)
    requires Has(os, id)
    ensures os[Find(os, id)].price == p ==>
      Has(At(os, p), id) && At(Drop(os, id), p) == Drop(At(os, p), id)
    ensures os[Find(os, id)].price != p ==> At(Drop(os, id), p) == At(os, p)
  {
    var init, last := os[..|os| - 1], os[|os| - 1];
    assert os == init + [last];
    FindAppend(init, last, id);
    FindAppend(At(init, p), last, id);
    AtAppend(init, last, p);
    if Has(init, id) {
      AtDrop(init, id, p);
      AtAppend(Drop(init, id), last, p);
    } else {
      AtHas(init, p, id);
    }
  }

  lemma AtHas(os: seq<Order>, p: real, id: nat)
    requires !Has(os, id)
    ensures !Has(At(os, p), id)
  {
    AtMembers(os, p);
    if Has(At(os, p), id) {
      MemberIsFound(os, At(os, p)[Find(At(os, p), id)]);
    }
  }

  /** The order index has exactly the live orders. */
  ghost predicate OrdersAgree(m: map<nat, Order>, live: seq<Order>) {
    forall id :: OrderAgrees(m, live, id)
  }

  ghost predicate OrderAgrees(m: map<nat, Order>, live: seq<Order>, id: nat) {
    if Has(live, id) then id in m && m[id] == live[Find(live, id)] else id !in m
  }

  /** A level exists exactly for the prices with live orders, and holds those orders and their sum. */
  ghost predicate LevelsAgree(levels: map<real, Level>, live: seq<Order>) {
    forall p :: LevelAgrees(levels, live, p)
  }

  ghost predicate LevelAgrees(levels: map<real, Level>, live: seq<Order>, p: real) {
    var os := At(live, p);
    if os == [] then p !in levels else p in levels && levels[p] == Level(p, Sum(os), os)
  }

  ghost predicate QueuesAgree(queues: map<real, seq<Order>>, live: seq<Order>) {
    forall p :: QueueAgrees(queues, live, p)
  }

  ghost predicate QueueAgrees(queues: map<real, seq<Order>>, live: seq<Order>, p: real) {
    var os := At(live, p);
    if os == [] then p !in queues else p in queues && queues[p] == os
  }

  /** All four indexes and both totals are projections of the list of live orders. */
  ghost predicate Agrees(s: Manager, live: seq<Order>) {
    && OrdersAgree(s.orderMap, live) && LevelsAgree(s.levels, live) && QueuesAgree(s.queues, live)
    && s.totalQty == Sum(live) && s.orderCount == |live|
  }

  /** What can be checked before an operation: an id added twice must bring the very order that is live under
      it; the order removed must be the only live one with its id, and the total of the others at its price must
      be zero exactly if there are none. */
  ghost predicate Keeps(live: seq<Order>, c: Cmd) {
    match c
    case AddOrder(o) => Has(live, o.id) ==> live[Find(live, o.id)] == o
    case RemoveOrder(id) => Has(live, id) ==> !Has(Drop(live, id), id) && Settles(live, id)
  }

  /** The other orders at the price of the first order with this id total zero exactly if there are none. */
  ghost predicate Settles(live: seq<Order>, id: nat)
    requires Has(live, id)
  {
    var rest := Drop(At(live, live[Find(live, id)].price), id);
    Sum(rest) == 0 <==> rest == []
  }

  /** An addition keeps the indexes in agreement exactly then. */
  lemma AddAgrees(s: Manager, live: seq<Order>, o: Order)
    requires Agrees(s, live)
    ensures Agrees(Add(s, o), live + [o]) <==> Keeps(live, AddOrder(o))
  {
    AddedOrdersAgree(s.orderMap, live, o);
    AddedLevelsAgree(s.levels, live, o);
    AddedQueuesAgree(s.queues, live, o);
    SumAppend(live, o);
  }

  lemma AddedOrdersAgree(m: map<nat, Order>, live: seq<Order>, o: Order)
    requires OrdersAgree(m, live)
    ensures OrdersAgree(m[o.id := o], live + [o]) <==> (Has(live, o.id) ==> live[Find(live, o.id)] == o)
  {
    var m', live' := m[o.id := o], live + [o];
    forall id | id != o.id || !Has(live, o.id) || live[Find(live, o.id)] == o
      ensures OrderAgrees(m', live', id)
    {
      assert OrderAgrees(m, live, id);
      FindAppend(live, o, id);
    }
    if Has(live, o.id) && live[Find(live, o.id)] != o {
      FindAppend(live, o, o.id);
      assert !OrderAgrees(m', live', o.id);
    }
  }

  lemma AddedLevelsAgree(levels: map<real, Level>, live: seq<Order>, o: Order)
    requires LevelsAgree(levels, live)
    ensures LevelsAgree(AddLevel(levels, o, o.quantity), live + [o])
  {
    forall p
      ensures LevelAgrees(AddLevel(levels, o, o.quantity), live + [o], p)
    {
      assert LevelAgrees(levels, live, p);
      AddedLevelAgrees(levels, live, o, p);
    }
  }

  lemma AddedLevelAgrees(levels: map<real, Level>, live: seq<Order>, o: Order, p: real)
    requires LevelAgrees(levels, live, p)
    ensures LevelAgrees(AddLevel(levels, o, o.quantity), live + [o], p)
  {
    AtAppend(live, o, p);
    if p == o.price {
      SumAppend(At(live, p), o);
      SumNone();
    }
  }

  lemma AddedQueuesAgree(queues: map<real, seq<Order>>, live: seq<Order>, o: Order)
    requires QueuesAgree(queues, live)
    ensures QueuesAgree(AddQueue(queues, o), live + [o])
  {
    forall p
      ensures QueueAgrees(AddQueue(queues, o), live + [o], p)
    {
      assert QueueAgrees(queues, live, p);
      AtAppend(live, o, p);
    }
  }

  /** A removal succeeds exactly for live orders, and keeps the indexes in agreement exactly as `Keeps` says. */
  lemma RemoveAgrees(s: Manager, live: seq<Order>, id: nat)
    requires Agrees(s, live)
    ensures Removes(s, id) <==> Has(live, id)
    ensures Agrees(Remove(s, id), Drop(live, id)) <==> Keeps(live, RemoveOrder(id))
  {
    assert OrderAgrees(s.orderMap, live, id);
    if Has(live, id) {
      var o := live[Find(live, id)];
      var os := At(live, o.price);
      AtFinds(live, id);
      assert LevelAgrees(s.levels, live, o.price);
      SumDrop(live, id);
      SumDrop(os, id);
      RemovedOrdersAgree(s.orderMap, live, id);
      RemovedLevelsAgree(s.levels, live, o);
      RemovedQueuesAgree(s.queues, live, o);
      assert Left(s.levels[o.price], o).totalQty == Sum(Drop(os, id));
    }
  }

  lemma RemovedOrdersAgree(m: map<nat, Order>, live: seq<Order>, id: nat)
    requires OrdersAgree(m, live) && Has(live, id)
    ensures OrdersAgree(m - {id}, Drop(live, id)) <==> !Has(Drop(live, id), id)
  {
    var m', live' := m - {id}, Drop(live, id);
    forall k | k != id || !Has(live', id)
      ensures OrderAgrees(m', live', k)
    {
      assert OrderAgrees(m, live, k);
      if k != id {
        DroppedLookup(live, id, k);
      }
    }
    assert Has(live', id) ==> !OrderAgrees(m', live', id);
  }

  lemma RemovedLevelsAgree(levels: map<real, Level>, live: seq<Order>, o: Order)
    requires LevelsAgree(levels, live) && Has(live, o.id) && o == live[Find(live, o.id)]
    ensures o.price in levels
    ensures LevelsAgree(RemoveLevel(levels, o), Drop(live, o.id)) <==> Settles(live, o.id)
  {
    OwnLevelAgrees(levels, live, o);
    var levels', live' := RemoveLevel(levels, o), Drop(live, o.id);
    forall p | p != o.price
      ensures LevelAgrees(levels', live', p)
    {
      assert LevelAgrees(levels, live, p);
      AtDrop(live, o.id, p);
    }
  }

  /** The level the order leaves. */
  lemma OwnLevelAgrees(levels: map<real, Level>, live: seq<Order>, o: Order)
    requires LevelsAgree(levels, live) && Has(live, o.id) && o == live[Find(live, o.id)]
    ensures o.price in levels
    ensures LevelAgrees(RemoveLevel(levels, o), Drop(live, o.id), o.price) <==> Settles(live, o.id)
  {
    var os := At(live, o.price);
    AtFinds(live, o.id);
    assert LevelAgrees(levels, live, o.price);
    SumDrop(os, o.id);
    AtDrop(live, o.id, o.price);
    assert Left(levels[o.price], o) == Level(o.price, Sum(Drop(os, o.id)), Drop(os, o.id));
  }

  lemma RemovedQueuesAgree(queues: map<real, seq<Order>>, live: seq<Order>, o: Order)
    requires QueuesAgree(queues, live) && Has(live, o.id) && o == live[Find(live, o.id)]
    ensures QueuesAgree(RemoveQueue(queues, o, Drop(At(live, o.price), o.id) == []), Drop(live, o.id))
  {
    assert QueueAgrees(queues, live, o.price);
    var queues', live' := RemoveQueue(queues, o, Drop(At(live, o.price), o.id) == []), Drop(live, o.id);
    forall p
      ensures QueueAgrees(queues', live', p)
    {
      assert QueueAgrees(queues, live, p);
      AtDrop(live, o.id, p);
    }
  }

  /** The first order with an id is also the first with it at its own price. */
  lemma {:induction false} AtFinds(live: seq<Order>, id: nat)
    requires Has(live, id)
    ensures var o := live[Find(live, id)];
      Has(At(live, o.price), id) && At(live, o.price)[Find(At(live, o.price), id)] == o
  {
    var init, last := live[..|live| - 1], live[|live| - 1];
    assert live == init + [last];
    FindAppend(init, last, id);
    if Has(init, id) {
      AtFinds(init, id);
      FindAppend(At(init, init[Find(init, id)].price), last, id);
    } else {
      AtHas(init, last.price, id);
      FindAppend(At(init, last.price), last, id);
    }
  }

  /** Dropping one id does not disturb lookups of another. */
  lemma DroppedLookup(live: seq<Order>, id: nat, k: nat)
    requires Has(live, id) && k != id
    ensures Has(Drop(live, id), k) <==> Has(live, k)
    ensures Has(live, k) ==> Drop(live, id)[Find(Drop(live, id), k)] == live[Find(live, k)]
  {
    var i, j, ds := Find(live, id), Find(live, k), Drop(live, id);
    DropShape(live, id);
    if Has(live, k) {
      FindIs(ds, k, if j < i then j else j - 1);
    } else {
      FindMisses(ds, k);
    }
  }

  // ---- Orders as callers send them: new ids, positive quantities ----

  ghost predicate Clean(live: seq<Order>) { Unique(live) && Positive(live) }

  lemma CleanAdd(live: seq<Order>, o: Order)
    requires Clean(live) && !Has(live, o.id) && o.quantity > 0
    ensures Clean(live + [o]) && Keeps(live, AddOrder(o))
  {
  }

  lemma CleanRemove(live: seq<Order>, id: nat)
    requires Clean(live)
    ensures Clean(Drop(live, id)) && Keeps(live, RemoveOrder(id))
  {
    DropKeeps(live, id);
    if Has(live, id) {
      GoneWhenEmpty(live, live[Find(live, id)]);
    }
  }

  /** Positive quantities: a level's total reaches zero exactly when its last order leaves. */
  lemma GoneWhenEmpty(live: seq<Order>, o: Order)
    requires Positive(live) && Has(live, o.id) && o == live[Find(live, o.id)]
    ensures var os := At(live, o.price);
      && Has(os, o.id) && Left(Level(o.price, Sum(os), os), o) == Level(o.price, Sum(Drop(os, o.id)), Drop(os, o.id))
      && (Sum(Drop(os, o.id)) == 0 <==> Drop(os, o.id) == [])
  {
    var os := At(live, o.price);
    AtFinds(live, o.id);
    SumDrop(os, o.id);
    AtMembers(live, o.price);
    PositiveRest(os, o.id);
  }

  lemma PositiveRest(os: seq<Order>, id: nat)
    requires Positive(os)
    ensures Sum(Drop(os, id)) == 0 <==> Drop(os, id) == []
  {
    DropKeeps(os, id);
    SumOfPositives(Drop(os, id));
  }

  // ---- Runs ----

  datatype Cmd = AddOrder(o: Order) | RemoveOrder(id: nat)

  function Step(s: Manager, c: Cmd): Manager {
    match c
    case AddOrder(o) => Add(s, o)
    case RemoveOrder(id) => Remove(s, id)
  }

  function LiveStep(live: seq<Order>, c: Cmd): seq<Order> {
    match c
    case AddOrder(o) => live + [o]
    case RemoveOrder(id) => Drop(live, id)
  }

  function Run(cs: seq<Cmd>): Manager {
    if cs == [] then EMPTY else Step(Run(cs[..|cs| - 1]), cs[|cs| - 1])
  }

  /** The orders added and not yet removed, oldest first. */
  function Live(cs: seq<Cmd>): seq<Order> {
    if cs == [] then [] else LiveStep(Live(cs[..|cs| - 1]), cs[|cs| - 1])
  }

  /** Every operation of the run meets its condition. */
  ghost predicate KeptRun(cs: seq<Cmd>) {
    cs != [] ==> KeptRun(cs[..|cs| - 1]) && Keeps(Live(cs[..|cs| - 1]), cs[|cs| - 1])
  }

  /** The indexes agree with the live orders after each operation of the run. */
  ghost predicate AgreesAllAlong(cs: seq<Cmd>) {
    cs != [] ==> AgreesAllAlong(cs[..|cs| - 1]) && Agrees(Run(cs), Live(cs))
  }

  /** Over any run of adds and removes, the indexes agree with the list of live orders throughout exactly when
      every operation meets its condition. */
  lemma {:induction false} RunsAgreeUnlessBroken(cs: seq<Cmd>)
    ensures AgreesAllAlong(cs) <==> KeptRun(cs)
    ensures AgreesAllAlong(cs) ==> Agrees(Run(cs), Live(cs))
  {
    if cs == [] {
      EmptyAgrees();
    } else {
      RunsAgreeUnlessBroken(cs[..|cs| - 1]);
      if AgreesAllAlong(cs[..|cs| - 1]) {
        LastAgrees(cs);
      }
    }
  }

  lemma EmptyAgrees()
    ensures Agrees(EMPTY, [])
  {
  }

  lemma LastAgrees(cs: seq<Cmd>)
    requires cs != [] && Agrees(Run(cs[..|cs| - 1]), Live(cs[..|cs| - 1]))
    ensures Agrees(Run(cs), Live(cs)) <==> Keeps(Live(cs[..|cs| - 1]), cs[|cs| - 1])
  {
    var init, c := cs[..|cs| - 1], cs[|cs| - 1];
    match c
    case AddOrder(o) => AddAgrees(Run(init), Live(init), o);
    case RemoveOrder(id) => RemoveAgrees(Run(init), Live(init), id);
  }

  /** Every add brings a positive quantity under an id that is not live at that moment. */
  ghost predicate Fresh(cs: seq<Cmd>) {
    cs != [] ==>
      var init, c := cs[..|cs| - 1], cs[|cs| - 1];
      Fresh(init) && (c.AddOrder? ==> c.o.quantity > 0 && !Has(Live(init), c.o.id))
  }

  /** So runs of such adds, whatever they remove, meet every condition. */
  lemma RunAgrees(cs: seq<Cmd>)
    requires Fresh(cs)
    ensures KeptRun(cs) && Agrees(Run(cs), Live(cs))
  {
    FreshRunsAreKept(cs);
    RunsAgreeUnlessBroken(cs);
  }

  lemma {:induction false} FreshRunsAreKept(cs: seq<Cmd>)
    requires Fresh(cs)
    ensures KeptRun(cs) && Clean(Live(cs))
  {
    if cs != [] {
      var init, c := cs[..|cs| - 1], cs[|cs| - 1];
      FreshRunsAreKept(init);
      match c
      case AddOrder(o) => CleanAdd(Live(init), o);
      case RemoveOrder(id) => CleanRemove(Live(init), id);
    }
  }

  /** `GetEarliestOrder` is the oldest order at that price not yet removed. */
  lemma EarliestIsOldest(cs: seq<Cmd>, p: real)
    requires KeptRun(cs)
    ensures match Earliest(Run(cs), p)
      case None => forall o :: o in Live(cs) ==> o.price != p
      case Some(o) => exists i: nat :: OldestAt(Live(cs), p, i, o)
  {
    var live := Live(cs);
    RunsAgreeUnlessBroken(cs);
    assert QueueAgrees(Run(cs).queues, live, p);
    FirstAt(live, p);
    if At(live, p) == [] {
      AtMembers(live, p);
      assert forall o :: o in live && o.price == p ==> o in At(live, p);
    } else {
      var i: nat :| OldestAt(live, p, i, At(live, p)[0]);
      assert Earliest(Run(cs), p) == Some(At(live, p)[0]);
    }
  }

  /** Position `i` holds the oldest order at price `p`. */
  ghost predicate OldestAt(os: seq<Order>, p: real, i: nat, o: Order) {
    i < |os| && os[i] == o && o.price == p && forall j :: 0 <= j < i ==> os[j].price != p
  }

  lemma {:induction false} FirstAt(os: seq<Order>, p: real)
    ensures At(os, p) == [] ==> forall i :: 0 <= i < |os| ==> os[i].price != p
    ensures At(os, p) != [] ==> exists i: nat :: OldestAt(os, p, i, At(os, p)[0])
  {
    if os != [] {
      var init, last := os[..|os| - 1], os[|os| - 1];
      FirstAt(init, p);
      if At(init, p) != [] {
        var i: nat :| OldestAt(init, p, i, At(init, p)[0]);
        assert OldestAt(os, p, i, At(os, p)[0]);
      } else if last.price == p {
        assert OldestAt(os, p, |os| - 1, At(os, p)[0]);
      }
    }
  }

  /** Two runs that leave the same live orders leave the same indexes. */
  lemma AgreementDetermines(s: Manager, s': Manager, live: seq<Order>)
    requires Agrees(s, live) && Agrees(s', live)
    ensures s == s'
  {
    forall p: real
      ensures p in s.levels <==> p in s'.levels
      ensures p in s.levels ==> s.levels[p] == s'.levels[p]
      ensures p in s.queues <==> p in s'.queues
      ensures p in s.queues ==> s.queues[p] == s'.queues[p]
    {
      assert LevelAgrees(s.levels, live, p) && LevelAgrees(s'.levels, live, p);
      assert QueueAgrees(s.queues, live, p) && QueueAgrees(s'.queues, live, p);
    }
    forall id: nat
      ensures id in s.orderMap <==> id in s'.orderMap
      ensures id in s.orderMap ==> s.orderMap[id] == s'.orderMap[id]
    {
      assert OrderAgrees(s.orderMap, live, id) && OrderAgrees(s'.orderMap, live, id);
    }
    assert s.levels == s'.levels && s.queues == s'.queues && s.orderMap == s'.orderMap;
  }

  /** Adding an order under a new id and removing it again restores every index exactly when the orders already
      at its price do not total zero. */
  lemma AddThenRemoveRestores(s: Manager, live: seq<Order>, o: Order)
    requires Agrees(s, live) && !Has(live, o.id)
    ensures Remove(Add(s, o), o.id) == s <==> (Sum(At(live, o.price)) == 0 ==> At(live, o.price) == [])
  {
    var s', live', os := Add(s, o), live + [o], At(live, o.price);
    AddAgrees(s, live, o);
    RemoveAgrees(s', live', o.id);
    DropAppended(live, o);
    AtHas(live, o.price, o.id);
    AtAppend(live, o, o.price);
    DropAppended(os, o);
    assert Keeps(live', RemoveOrder(o.id)) <==> (Sum(os) == 0 ==> os == []);
    if Agrees(Remove(s', o.id), live) {
      AgreementDetermines(Remove(s', o.id), s, live);
    }
  }

  /** In any state, agreeing or not: a removal takes the level and the queue of its price exactly if that level's total
      was the order's quantity, else the first order with the id from both, and it leaves all other prices alone. */
  lemma RemovalAnywhere(s: Manager, id: nat, p: real)
    requires Removes(s, id) && s.orderMap[id].id == id
    ensures var o, s' := s.orderMap[id], Remove(s, id);
      if p != o.price then
        && (p in s'.levels <==> p in s.levels) && (p in s.levels ==> s'.levels[p] == s.levels[p])
        && (p in s'.queues <==> p in s.queues) && (p in s.queues ==> s'.queues[p] == s.queues[p])
      else if s.levels[p].totalQty == o.quantity then p !in s'.levels && p !in s'.queues
      else
        && p in s'.levels && s'.levels[p].totalQty == s.levels[p].totalQty - o.quantity
        && s'.levels[p].orders == Drop(s.levels[p].orders, id)
        && (p in s'.queues <==> p in s.queues)
        && (p in s.queues ==> s'.queues[p] == Drop(s.queues[p], id))
  {
  }

  // ---- Why the hypotheses are there ----

  ghost predicate Stranded(a: Order, s: Manager) {
    a.price in s.levels && a in s.levels[a.price].orders && !Removes(s, a.id)
  }

  /** An id added twice: one removal deletes it from `orderMap`, and the first order can no
      longer be removed although its level still shows it. */
  lemma RepeatedIdStrandsAnOrder(a: Order, b: Order)
    requires a.id == b.id && a.price != b.price && a.quantity > 0 && b.quantity > 0
    ensures Stranded(a, Remove(Add(Add(EMPTY, a), b), a.id))
  {
    var s1 := Add(EMPTY, a);
    var s2 := Add(s1, b);
    assert s2.orderMap[a.id] == b && s2.levels[b.price] == Level(b.price, b.quantity, [b]);
    assert Find([b], a.id) == 0;
    assert s2.levels[a.price] == Level(a.price, a.quantity, [a]);
  }

  ghost predicate Unlevelled(a: Order, s: Manager) {
    a.id in s.orderMap && a.price !in s.levels && !Removes(s, a.id)
  }

  /** A zero quantity: removing the other order at that price deletes the level under it. */
  lemma ZeroQuantityLosesItsLevel(a: Order, b: Order)
    requires a.id != b.id && a.price == b.price && a.quantity == 0
    ensures Unlevelled(a, Remove(Add(Add(EMPTY, a), b), b.id))
  {
    var s1 := Add(EMPTY, a);
    var s2 := Add(s1, b);
    assert s2.orderMap[b.id] == b && s2.levels[b.price] == Level(b.price, b.quantity, [a] + [b]);
    FindIs([a] + [b], b.id, 1);
  }
}
