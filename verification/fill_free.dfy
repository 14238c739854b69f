/** Resting and cancelling without fills: on a tick grid each side of the book lists exactly the levels
    that a `PriceLevelManager` holds after the same adds and removes. */
module FillFreeRuns {
  import opened Types
  import opened Prices
  import opened SortedMaps
  import opened OrderLists
  import LevelSpec
  import opened Matching
  import opened Books
  import opened Cancels
  import BookRuns

  type Level = LevelSpec.Level
  type Manager = LevelSpec.Manager

  // ---- One side and the levels of a manager ----

  /** On the grid, the side lists the manager's levels in price order. */
  ghost predicate SideShows(reverse: bool, ladder: Ladder, levels: map<real, Level>, grid: iset<real>) {
    Ordered(reverse, ladder) && OnGrid(ladder, grid) && Lists(ladder, levels)
  }

  lemma LookupShows(reverse: bool, ladder: Ladder, levels: map<real, Level>, p: real, grid: iset<real>)
    requires SideShows(reverse, ladder, levels, grid) && Spaced(grid) && p in grid
    ensures Hit(reverse, ladder, p) <==> p in levels
    ensures LevelAt(reverse, ladder, p) == if p in levels then levels[p] else LevelSpec.Level(p, 0, [])
  {
    HitIsListed(reverse, ladder, p, grid);
    if p in levels {
      assert Listed(ladder, p);
    }
  }

  lemma InsertShows(
      reverse: bool, ladder: Ladder, levels: map<real, Level>, p: real, l: Level, grid: iset<real>)
    requires SideShows(reverse, ladder, levels, grid) && Spaced(grid) && p in grid
    ensures SideShows(reverse, Insert(reverse, ladder, p, l), levels[p := l], grid)
  {
    InsertKeepsOrdered(reverse, ladder, p, l);
    StepOnGrid(reverse, ladder, Put(p, l), grid);
    InsertLists(reverse, ladder, levels, p, l, grid);
  }

  lemma RemoveShows(reverse: bool, ladder: Ladder, levels: map<real, Level>, p: real, grid: iset<real>)
    requires SideShows(reverse, ladder, levels, grid) && Spaced(grid) && p in grid
    ensures SideShows(reverse, Prices.Remove(reverse, ladder, p), levels - {p}, grid)
  {
    RemoveKeepsOrdered(reverse, ladder, p);
    StepOnGrid(reverse, ladder, Del(p), grid);
    RemoveLists(reverse, ladder, levels, p, grid);
  }

  lemma RestShows(reverse: bool, ladder: Ladder, levels: map<real, Level>, o: Order, grid: iset<real>)
    requires SideShows(reverse, ladder, levels, grid) && Spaced(grid) && o.price in grid
    ensures SideShows(reverse, RestOn(reverse, ladder, o, o.quantity),
                      LevelSpec.AddLevel(levels, o, o.quantity), grid)
  {
    LookupShows(reverse, ladder, levels, o.price, grid);
    InsertShows(reverse, ladder, levels, o.price,
                LevelSpec.AddTo(LevelAt(reverse, ladder, o.price), o, o.quantity), grid);
  }

  lemma CancelShows(reverse: bool, ladder: Ladder, levels: map<real, Level>, o: Order, grid: iset<real>)
    requires SideShows(reverse, ladder, levels, grid) && Spaced(grid) && o.price in grid && o.price in levels
    ensures SideShows(reverse, CancelOn(reverse, ladder, o), LevelSpec.RemoveLevel(levels, o), grid)
    ensures Finds(reverse, ladder, o) <==> Has(levels[o.price].orders, o.id)
  {
    LookupShows(reverse, ladder, levels, o.price, grid);
    InsertShows(reverse, ladder, levels, o.price, LevelSpec.Left(levels[o.price], o), grid);
    RemoveShows(reverse, ladder, levels, o.price, grid);
  }

  // ---- The book and two managers, one a side ----

  /** Managers of the two sides that agree with their live orders (`LevelSpec.Agrees`). */
  datatype Sides = Sides(buys: Manager, sells: Manager, bought: seq<Order>, sold: seq<Order>)

  const NO_SIDES := Sides(LevelSpec.EMPTY, LevelSpec.EMPTY, [], [])

  /** The order map is the union of the managers' maps, each order on its own side. */
  ghost predicate OrderShown(orders: map<nat, Order>, buys: map<nat, Order>, sells: map<nat, Order>, id: nat) {
    && (id in orders <==> id in buys || id in sells)
    && (id in buys ==> id !in sells && buys[id] == orders[id] && buys[id].id == id && Descends(buys[id]))
    && (id in sells ==> sells[id] == orders[id] && sells[id].id == id && !Descends(sells[id]))
  }

  ghost predicate OrdersShown(orders: map<nat, Order>, buys: map<nat, Order>, sells: map<nat, Order>) {
    forall id :: OrderShown(orders, buys, sells, id)
  }

  ghost predicate Priced(orders: map<nat, Order>, grid: iset<real>) {
    forall id :: id in orders ==> orders[id].price in grid
  }

  ghost predicate Shows(b: Book, s: Sides, grid: iset<real>) {
    && SideShows(true, b.bids, s.buys.levels, grid) && SideShows(false, b.asks, s.sells.levels, grid)
    && OrdersShown(b.orders, s.buys.orderMap, s.sells.orderMap) && Priced(b.orders, grid)
    && LevelSpec.Agrees(s.buys, s.bought) && LevelSpec.Agrees(s.sells, s.sold)
    && LevelSpec.Clean(s.bought) && LevelSpec.Clean(s.sold)
  }

  function PlaceSides(s: Sides, o: Order): Sides {
    if Descends(o) then s.(buys := LevelSpec.Add(s.buys, o), bought := s.bought + [o])
    else s.(sells := LevelSpec.Add(s.sells, o), sold := s.sold + [o])
  }

  function CancelSides(s: Sides, id: nat): Sides {
    Sides(LevelSpec.Remove(s.buys, id), LevelSpec.Remove(s.sells, id), Drop(s.bought, id), Drop(s.sold, id))
  }

  /** What an order leaves to rest if it does not trade: the whole of a limit order with a quantity. */
  predicate Rests(o: Order) { o.kind == TYPE_LIMIT && o.quantity > 0 }

  /** Such an order, under a new id, that nothing opposite crosses: it rests in full. */
  ghost predicate Restable(b: Book, o: Order, grid: iset<real>) {
    && Rests(o) && o.price in grid && o.id !in b.orders
    && (Opposite(b, o) != [] ==> !Crosses(o, Opposite(b, o)[0].value.price))
  }

  /** An order that neither trades nor rests: one without quantity, or a market order with nothing opposite. */
  ghost predicate Passes(b: Book, o: Order) {
    !Rests(o) && (o.quantity <= 0 || Opposite(b, o) == [])
  }

  ghost predicate TradesNothing(b: Book, o: Order, grid: iset<real>) {
    Restable(b, o, grid) || Passes(b, o)
  }

  lemma PassedBy(once: bool, b: Book, o: Order)
    requires Passes(b, o)
    ensures Match(once, b, o) == b.(version := b.version + 1) && Walked(once, b, o).trades == []
  {
  }

  lemma PlacedWhole(once: bool, b: Book, o: Order, grid: iset<real>)
    requires Restable(b, o, grid)
    ensures Match(once, b, o) == Rest(b, o, o.quantity).(version := b.version + 1)
    ensures Walked(once, b, o).trades == []
  {
  }

  lemma PlacedOrderShown(orders: map<nat, Order>, buys: map<nat, Order>, sells: map<nat, Order>, o: Order)
    requires OrdersShown(orders, buys, sells) && o.id !in orders
    ensures Descends(o) ==> OrdersShown(orders[o.id := o], buys[o.id := o], sells)
    ensures !Descends(o) ==> OrdersShown(orders[o.id := o], buys, sells[o.id := o])
  {
    var orders', buys', sells' := orders[o.id := o], buys, sells;
    assert OrderShown(orders, buys, sells, o.id);
    if Descends(o) {
      buys' := buys[o.id := o];
    } else {
      sells' := sells[o.id := o];
    }
    forall id
      ensures OrderShown(orders', buys', sells', id)
    {
      assert OrderShown(orders, buys, sells, id);
    }
  }

  lemma PlaceShows(once: bool, b: Book, s: Sides, o: Order, grid: iset<real>)
    requires Shows(b, s, grid) && Spaced(grid) && Restable(b, o, grid)
    ensures Shows(Match(once, b, o), PlaceSides(s, o), grid)
  {
    PlacedWhole(once, b, o, grid);
    RestedShows(b, Match(once, b, o), s, o, grid);
  }

  lemma RestedShows(b: Book, b': Book, s: Sides, o: Order, grid: iset<real>)
    requires Shows(b, s, grid) && Spaced(grid) && Rests(o) && o.price in grid && o.id !in b.orders
    requires b'.orders == b.orders[o.id := o]
    requires b'.bids == if Descends(o) then RestOn(true, b.bids, o, o.quantity) else b.bids
    requires b'.asks == if Descends(o) then b.asks else RestOn(false, b.asks, o, o.quantity)
    ensures Shows(b', PlaceSides(s, o), grid)
  {
    assert OrderShown(b.orders, s.buys.orderMap, s.sells.orderMap, o.id);
    PlacedOrderShown(b.orders, s.buys.orderMap, s.sells.orderMap, o);
    if Descends(o) {
      PlaceSideShows(true, b.bids, s.buys, s.bought, o, grid);
    } else {
      PlaceSideShows(false, b.asks, s.sells, s.sold, o, grid);
    }
  }

  lemma PlaceSideShows(reverse: bool, ladder: Ladder, m: Manager, live: seq<Order>, o: Order, grid: iset<real>)
    requires SideShows(reverse, ladder, m.levels, grid) && Spaced(grid) && o.price in grid
    requires LevelSpec.Agrees(m, live) && LevelSpec.Clean(live) && o.id !in m.orderMap && o.quantity > 0
    ensures SideShows(reverse, RestOn(reverse, ladder, o, o.quantity), LevelSpec.Add(m, o).levels, grid)
    ensures LevelSpec.Agrees(LevelSpec.Add(m, o), live + [o]) && LevelSpec.Clean(live + [o])
  {
    assert LevelSpec.OrderAgrees(m.orderMap, live, o.id);
    RestShows(reverse, ladder, m.levels, o, grid);
    LevelSpec.CleanAdd(live, o);
    LevelSpec.AddAgrees(m, live, o);
  }

  lemma CancelSideShows(reverse: bool, ladder: Ladder, m: Manager, live: seq<Order>, o: Order, grid: iset<real>)
    requires SideShows(reverse, ladder, m.levels, grid) && Spaced(grid) && o.price in grid
    requires LevelSpec.Agrees(m, live) && LevelSpec.Clean(live) && o.id in m.orderMap && m.orderMap[o.id] == o
    ensures Finds(reverse, ladder, o) && LevelSpec.Removes(m, o.id)
    ensures SideShows(reverse, CancelOn(reverse, ladder, o), LevelSpec.Remove(m, o.id).levels, grid)
    ensures LevelSpec.Agrees(LevelSpec.Remove(m, o.id), Drop(live, o.id)) && LevelSpec.Clean(Drop(live, o.id))
    ensures LevelSpec.Remove(m, o.id).orderMap == m.orderMap - {o.id}
  {
    assert LevelSpec.OrderAgrees(m.orderMap, live, o.id);
    LevelSpec.CleanRemove(live, o.id);
    LevelSpec.RemoveAgrees(m, live, o.id);
    CancelShows(reverse, ladder, m.levels, o, grid);
  }

  /** Removing an id the manager does not have changes nothing. */
  lemma NotThere(m: Manager, live: seq<Order>, id: nat)
    requires LevelSpec.Agrees(m, live) && id !in m.orderMap
    ensures LevelSpec.Remove(m, id) == m && Drop(live, id) == live && m.orderMap - {id} == m.orderMap
  {
    assert LevelSpec.OrderAgrees(m.orderMap, live, id);
  }

  /** Every order on the book can be cancelled, and nothing else can; cancelling removes it from its
      side's manager. */
  lemma CancelShowsBoth(b: Book, s: Sides, id: nat, grid: iset<real>)
    requires Shows(b, s, grid) && Spaced(grid)
    ensures Cancellable(b, id) <==> id in b.orders
    ensures Shows(Cancel(b, id), CancelSides(s, id), grid)
  {
    assert OrderShown(b.orders, s.buys.orderMap, s.sells.orderMap, id);
    CancelledOrders(b, s, id);
    if id !in b.orders {
      NotThere(s.buys, s.bought, id);
      NotThere(s.sells, s.sold, id);
    } else if Descends(b.orders[id]) {
      CancelBid(b, s, id, grid);
    } else {
      CancelAsk(b, s, id, grid);
    }
  }

  lemma CancelBid(b: Book, s: Sides, id: nat, grid: iset<real>)
    requires Shows(b, s, grid) && Spaced(grid) && id in s.buys.orderMap
    requires OrderShown(b.orders, s.buys.orderMap, s.sells.orderMap, id)
    requires OrdersShown(b.orders - {id}, s.buys.orderMap - {id}, s.sells.orderMap - {id})
    ensures Cancellable(b, id) && Shows(Cancel(b, id), CancelSides(s, id), grid)
  {
    var o := b.orders[id];
    CancelSideShows(true, b.bids, s.buys, s.bought, o, grid);
    NotThere(s.sells, s.sold, id);
    var b' := Cancel(b, id);
    assert b'.bids == CancelOn(true, b.bids, o) && b'.asks == b.asks && b'.orders == b.orders - {id};
  }

  lemma CancelAsk(b: Book, s: Sides, id: nat, grid: iset<real>)
    requires Shows(b, s, grid) && Spaced(grid) && id in s.sells.orderMap
    requires OrderShown(b.orders, s.buys.orderMap, s.sells.orderMap, id)
    requires OrdersShown(b.orders - {id}, s.buys.orderMap - {id}, s.sells.orderMap - {id})
    ensures Cancellable(b, id) && Shows(Cancel(b, id), CancelSides(s, id), grid)
  {
    var o := b.orders[id];
    CancelSideShows(false, b.asks, s.sells, s.sold, o, grid);
    NotThere(s.buys, s.bought, id);
    var b' := Cancel(b, id);
    assert b'.asks == CancelOn(false, b.asks, o) && b'.bids == b.bids && b'.orders == b.orders - {id};
  }

  lemma CancelledOrders(b: Book, s: Sides, id: nat)
    requires OrdersShown(b.orders, s.buys.orderMap, s.sells.orderMap)
    ensures OrdersShown(b.orders - {id}, s.buys.orderMap - {id}, s.sells.orderMap - {id})
  {
    var orders', buys', sells' := b.orders - {id}, s.buys.orderMap - {id}, s.sells.orderMap - {id};
    forall k
      ensures OrderShown(orders', buys', sells', k)
    {
      assert OrderShown(b.orders, s.buys.orderMap, s.sells.orderMap, k);
    }
  }

  // ---- Runs ----

  /** The commands of one side, for a `PriceLevelManager`; a removal goes to both. */
  function SideCmds(cs: seq<BookRuns.Cmd>, buys: bool): seq<LevelSpec.Cmd> {
    if cs == [] then []
    else
      var init := SideCmds(cs[..|cs| - 1], buys);
      match cs[|cs| - 1]
      case Place(o) => if Rests(o) && Descends(o) == buys then init + [LevelSpec.AddOrder(o)] else init
      case CancelId(id) => init + [LevelSpec.RemoveOrder(id)]
  }

  /** No order of the run meets a level it could trade with. */
  ghost predicate FillFree(once: bool, cs: seq<BookRuns.Cmd>, grid: iset<real>) {
    cs != [] ==>
      var init, c := cs[..|cs| - 1], cs[|cs| - 1];
      FillFree(once, init, grid) && (c.Place? ==> TradesNothing(BookRuns.Run(once, init), c.o, grid))
  }

  function SidesOf(cs: seq<BookRuns.Cmd>): Sides {
    var buys, sells := SideCmds(cs, true), SideCmds(cs, false);
    Sides(LevelSpec.Run(buys), LevelSpec.Run(sells), LevelSpec.Live(buys), LevelSpec.Live(sells))
  }

  lemma SidesStep(cs: seq<BookRuns.Cmd>)
    requires cs != []
    ensures var s, c := SidesOf(cs[..|cs| - 1]), cs[|cs| - 1];
      SidesOf(cs) == match c
        case Place(o) => (if Rests(o) then PlaceSides(s, o) else s)
        case CancelId(id) => CancelSides(s, id)
  {
    var init, c := cs[..|cs| - 1], cs[|cs| - 1];
    RunOfOneMore(SideCmds(init, true), if c.Place? then LevelSpec.AddOrder(c.o) else LevelSpec.RemoveOrder(c.id));
    RunOfOneMore(SideCmds(init, false), if c.Place? then LevelSpec.AddOrder(c.o) else LevelSpec.RemoveOrder(c.id));
  }

  lemma RunOfOneMore(init: seq<LevelSpec.Cmd>, c: LevelSpec.Cmd)
    ensures LevelSpec.Run(init + [c]) == LevelSpec.Step(LevelSpec.Run(init), c)
    ensures LevelSpec.Live(init + [c]) == LevelSpec.LiveStep(LevelSpec.Live(init), c)
  {
    assert (init + [c])[..|init|] == init;
  }

  /** After any fill-free run on a grid, bids and asks list the levels, and the order map joins the maps,
      of managers given the same adds and removes; both managers agree with their live orders. */
  lemma {:induction false} RunAgreesWithManagers(once: bool, cs: seq<BookRuns.Cmd>, grid: iset<real>)
    requires Spaced(grid) && FillFree(once, cs, grid)
    ensures Shows(BookRuns.Run(once, cs), SidesOf(cs), grid)
  {
    if cs == [] {
      EmptyShows(grid);
    } else {
      var init, c := cs[..|cs| - 1], cs[|cs| - 1];
      RunAgreesWithManagers(once, init, grid);
      SidesStep(cs);
      match c
      case Place(o) =>
        if Rests(o) {
          PlaceShows(once, BookRuns.Run(once, init), SidesOf(init), o, grid);
        } else {
          PassedBy(once, BookRuns.Run(once, init), o);
        }
      case CancelId(id) => CancelShowsBoth(BookRuns.Run(once, init), SidesOf(init), id, grid);
    }
  }

  lemma EmptyShows(grid: iset<real>)
    ensures Shows(EMPTY_BOOK, NO_SIDES, grid)
  {
    assert forall id :: OrderShown(map[], map[], map[], id);
    LevelSpec.EmptyAgrees();
  }

  /** What that means for a level: it exists exactly when live orders of its side are at its price, and its
      total is the sum of their quantities, in arrival order. */
  lemma LevelsAreLiveOrders(once: bool, cs: seq<BookRuns.Cmd>, grid: iset<real>, p: real)
    requires Spaced(grid) && FillFree(once, cs, grid) && p in grid
    ensures var os := LevelSpec.At(SidesOf(cs).bought, p);
      Get(true, BookRuns.Run(once, cs).bids, p) == if os == [] then None else Some(LevelSpec.Level(p, Sum(os), os))
    ensures var os := LevelSpec.At(SidesOf(cs).sold, p);
      Get(false, BookRuns.Run(once, cs).asks, p) == if os == [] then None else Some(LevelSpec.Level(p, Sum(os), os))
  {
    RunAgreesWithManagers(once, cs, grid);
    var b, s := BookRuns.Run(once, cs), SidesOf(cs);
    LookupShows(true, b.bids, s.buys.levels, p, grid);
    LookupShows(false, b.asks, s.sells.levels, p, grid);
    assert LevelSpec.LevelAgrees(s.buys.levels, s.bought, p);
    assert LevelSpec.LevelAgrees(s.sells.levels, s.sold, p);
  }

  /** Placing an order and cancelling it again restores both sides and the order map. */
  lemma PlaceThenCancelRestores(once: bool, cs: seq<BookRuns.Cmd>, o: Order, grid: iset<real>)
    requires Spaced(grid) && FillFree(once, cs, grid) && Restable(BookRuns.Run(once, cs), o, grid)
    ensures var b, b' := BookRuns.Run(once, cs), BookRuns.Run(once, cs + [BookRuns.Place(o), BookRuns.CancelId(o.id)]);
      b'.bids == b.bids && b'.asks == b.asks && b'.orders == b.orders
  {
    RunAgreesWithManagers(once, cs, grid);
    PlaceThenCancelAt(once, BookRuns.Run(once, cs), SidesOf(cs), o, grid);
    RunTwoMore(once, cs, BookRuns.Place(o), BookRuns.CancelId(o.id));
  }

  lemma RunTwoMore(once: bool, cs: seq<BookRuns.Cmd>, c: BookRuns.Cmd, d: BookRuns.Cmd)
    ensures BookRuns.Run(once, cs + [c, d]) == BookRuns.Step(once, BookRuns.Step(once, BookRuns.Run(once, cs), c), d)
  {
    BookRuns.RunOneMore(once, cs, c);
    BookRuns.RunOneMore(once, cs + [c], d);
    assert cs + [c, d] == cs + [c] + [d];
  }

  lemma PlaceThenCancelAt(once: bool, b: Book, s: Sides, o: Order, grid: iset<real>)
    requires Shows(b, s, grid) && Spaced(grid) && Restable(b, o, grid)
    ensures var b' := Cancel(Match(once, b, o), o.id);
      b'.bids == b.bids && b'.asks == b.asks && b'.orders == b.orders
  {
    PlaceShows(once, b, s, o, grid);
    var b1, s1 := Match(once, b, o), PlaceSides(s, o);
    CancelShowsBoth(b1, s1, o.id, grid);
    PlacedSidesRestored(b, s, o, grid);
    SameShown(b, Cancel(b1, o.id), s, CancelSides(s1, o.id), grid);
  }

  lemma PlacedSidesRestored(b: Book, s: Sides, o: Order, grid: iset<real>)
    requires Shows(b, s, grid) && Restable(b, o, grid)
    ensures CancelSides(PlaceSides(s, o), o.id) == s
  {
    assert OrderShown(b.orders, s.buys.orderMap, s.sells.orderMap, o.id);
    if Descends(o) {
      SideRestored(s.buys, s.bought, o);
      NotThere(s.sells, s.sold, o.id);
    } else {
      SideRestored(s.sells, s.sold, o);
      NotThere(s.buys, s.bought, o.id);
    }
  }

  lemma SideRestored(m: Manager, live: seq<Order>, o: Order)
    requires LevelSpec.Agrees(m, live) && LevelSpec.Clean(live) && o.id !in m.orderMap
    ensures LevelSpec.Remove(LevelSpec.Add(m, o), o.id) == m && Drop(live + [o], o.id) == live
  {
    assert LevelSpec.OrderAgrees(m.orderMap, live, o.id);
    LevelSpec.AtMembers(live, o.price);
    SumOfPositives(LevelSpec.At(live, o.price));
    LevelSpec.AddThenRemoveRestores(m, live, o);
    DropAppended(live, o);
  }

  lemma SameShown(b: Book, b': Book, s: Sides, s': Sides, grid: iset<real>)
    requires Shows(b, s, grid) && Shows(b', s', grid) && s == s'
    ensures b.bids == b'.bids && b.asks == b'.asks && b.orders == b'.orders
  {
    ListingIsUnique(true, b.bids, b'.bids, s.buys.levels);
    ListingIsUnique(false, b.asks, b'.asks, s.sells.levels);
    forall id: nat
      ensures id in b.orders <==> id in b'.orders
      ensures id in b.orders ==> b.orders[id] == b'.orders[id]
    {
      assert OrderShown(b.orders, s.buys.orderMap, s.sells.orderMap, id);
      assert OrderShown(b'.orders, s.buys.orderMap, s.sells.orderMap, id);
    }
    assert b.orders == b'.orders;
  }

  // ---- Fill-free runs are harmless ----

  lemma UntradedIsHarmless(once: bool, b: Book, o: Order, grid: iset<real>)
    requires Good(b) && TradesNothing(b, o, grid)
    ensures BookRuns.Harmless(once, b, BookRuns.Place(o))
  {
    if Restable(b, o, grid) {
      NothingCrosses(o, Opposite(b, o));
    } else {
      forall k | 0 <= k < |Opposite(b, o)|
        ensures !RunsOutAt(o, Opposite(b, o), o.quantity, k)
      {
        if k < FirstEmpty(Opposite(b, o)) {
          PrefixIsPositive(Opposite(b, o), k);
        }
      }
    }
  }

  lemma CancelIsHarmless(once: bool, b: Book, s: Sides, id: nat, grid: iset<real>)
    requires Shows(b, s, grid) && Spaced(grid)
    ensures BookRuns.Harmless(once, b, BookRuns.CancelId(id))
  {
    if Cancellable(b, id) {
      var o := b.orders[id];
      assert OrderShown(b.orders, s.buys.orderMap, s.sells.orderMap, id);
      if Descends(o) {
        LevelCovers(true, b.bids, s.buys, s.bought, o, grid);
      } else {
        LevelCovers(false, b.asks, s.sells, s.sold, o, grid);
      }
    }
  }

  /** A level holds at least the quantity of each of its orders. */
  lemma LevelCovers(reverse: bool, ladder: Ladder, m: Manager, live: seq<Order>, o: Order, grid: iset<real>)
    requires SideShows(reverse, ladder, m.levels, grid) && Spaced(grid) && o.price in grid
    requires LevelSpec.Agrees(m, live) && LevelSpec.Clean(live) && o.id in m.orderMap && m.orderMap[o.id] == o
    ensures LevelAt(reverse, ladder, o.price).totalQty >= o.quantity
  {
    var os := LevelSpec.At(live, o.price);
    assert LevelSpec.OrderAgrees(m.orderMap, live, o.id);
    LevelSpec.AtMembers(live, o.price);
    assert o in os;
    assert LevelSpec.LevelAgrees(m.levels, live, o.price);
    LookupShows(reverse, ladder, m.levels, o.price, grid);
    SumCoversEach(os, o);
  }

  lemma CommandIsHarmless(once: bool, b: Book, s: Sides, c: BookRuns.Cmd, grid: iset<real>)
    requires Good(b) && Shows(b, s, grid) && Spaced(grid) && (c.Place? ==> TradesNothing(b, c.o, grid))
    ensures BookRuns.Harmless(once, b, c)
  {
    if c.Place? {
      UntradedIsHarmless(once, b, c.o, grid);
    } else {
      CancelIsHarmless(once, b, s, c.id, grid);
    }
  }

  lemma LastIsHarmless(once: bool, cs: seq<BookRuns.Cmd>, grid: iset<real>)
    requires Spaced(grid) && FillFree(once, cs, grid) && cs != []
    requires var init := cs[..|cs| - 1]; FillFree(once, init, grid) && Good(BookRuns.Run(once, init))
    ensures var init := cs[..|cs| - 1];
      BookRuns.Harmless(once, BookRuns.Run(once, init), cs[|cs| - 1]) && Good(BookRuns.Run(once, cs))
  {
    var init := cs[..|cs| - 1];
    RunAgreesWithManagers(once, init, grid);
    CommandIsHarmless(once, BookRuns.Run(once, init), SidesOf(init), cs[|cs| - 1], grid);
    BookRuns.StepKeepsGood(once, BookRuns.Run(once, init), cs[|cs| - 1]);
  }

  /** So a fill-free run, with any cancellations, keeps the book sound and uncrossed. */
  lemma {:induction false} FillFreeStaysGood(once: bool, cs: seq<BookRuns.Cmd>, grid: iset<real>)
    requires Spaced(grid) && FillFree(once, cs, grid)
    ensures BookRuns.HarmlessRun(once, cs) && Good(BookRuns.Run(once, cs))
  {
    if cs != [] {
      FillFreeStaysGood(once, cs[..|cs| - 1], grid);
      LastIsHarmless(once, cs, grid);
    }
  }
}
