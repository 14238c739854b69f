/** Resting orders: where a match files what is left of an order, what the order map holds after any run, and for
    how long an order can be cancelled. */
module RestedOrders {
  import opened Types
  import opened Prices
  import opened SortedMaps
  import opened OrderLists
  import LevelSpec
  import opened Matching
  import opened Books
  import opened Cancels
  import BookRuns

  type Cmd = BookRuns.Cmd

  // ---- One match ----

  /** A level once `qty` of the order has joined it; a new one if there was none. */
  function Joined(level: Option<LevelSpec.Level>, o: Order, qty: int): LevelSpec.Level {
    match level
    case None => LevelSpec.Level(o.price, qty, [o])
    case Some(l) => LevelSpec.Level(l.price, l.totalQty + qty, l.orders + [o])
  }

  /** What a match leaves of a limit order is filed: the order map has it under its id, the level found at its price has
      it last and its quantity on top, and it can be cancelled. */
  lemma RestingIsFiled(once: bool, b: Book, o: Order)
    requires Rested(once, b, o) > 0
    ensures var b', bid := Match(once, b, o), Descends(o);
      && o.id in b'.orders && b'.orders[o.id] == o
      && Get(bid, Own(b', o), o.price) == Some(Joined(Get(bid, Own(b, o), o.price), o, Rested(once, b, o)))
      && Cancellable(b', o.id)
  {
    var bid, qty := Descends(o), Rested(once, b, o);
    var before := Get(bid, Own(b, o), o.price);
    var level := LevelWith(bid, Own(b, o), o, qty);
    assert [] + [o] == [o];
    assert level == Joined(before, o, qty);
    GetAfterInsert(bid, Own(b, o), o.price, level);
    MemberIsFound(level.orders, o);
  }

  /** A match disturbs no other entry of the order map, and no other price of the order's own side. */
  lemma RestingDisturbsNothing(once: bool, b: Book, o: Order, id: nat, p: real)
    requires TidyBook(b)
    ensures var b' := Match(once, b, o);
      Rested(once, b, o) <= 0 || id != o.id ==>
        (id in b'.orders <==> id in b.orders) && (id in b.orders ==> b'.orders[id] == b.orders[id])
    ensures var b', bid, side := Match(once, b, o), Descends(o), Own(b, o);
      Rested(once, b, o) <= 0 || (Compare(bid, o.price, p) != 0 &&
        (Hit(bid, side, o.price) ==> Compare(bid, side[Rank(bid, side, o.price)].key, p) != 0)) ==>
          Get(bid, Own(b', o), p) == Get(bid, side, p)
  {
    var bid, side, qty := Descends(o), Own(b, o), Rested(once, b, o);
    if qty > 0 && Compare(bid, o.price, p) != 0 &&
       (Hit(bid, side, o.price) ==> Compare(bid, side[Rank(bid, side, o.price)].key, p) != 0) {
      GetElsewhereAfterInsert(bid, side, o.price, LevelWith(bid, side, o, qty), p);
    }
  }

  // ---- The order map after a run ----

  /** The step has an order with this id rest. */
  ghost predicate Files(once: bool, b: Book, c: Cmd, id: nat) {
    c.Place? && c.o.id == id && Rested(once, b, c.o) > 0
  }

  /** The step cancels the order with this id. */
  ghost predicate Withdraws(b: Book, c: Cmd, id: nat) {
    c == BookRuns.CancelId(id) && Cancellable(b, id)
  }

  ghost predicate Touches(once: bool, cs: seq<Cmd>, k: nat, id: nat)
    requires k < |cs|
  {
    var b := BookRuns.Run(once, cs[..k]);
    Files(once, b, cs[k], id) || Withdraws(b, cs[k], id)
  }

  /** Step `j` was the last to have an order with this id rest, and it has not been cancelled since. */
  ghost predicate LastFiled(once: bool, cs: seq<Cmd>, j: nat, id: nat) {
    && j < |cs| && Files(once, BookRuns.Run(once, cs[..j]), cs[j], id)
    && forall k :: j < k < |cs| ==> !Touches(once, cs, k, id)
  }

  lemma TouchesPrefix(once: bool, cs: seq<Cmd>, n: nat, k: nat, id: nat)
    requires k < n <= |cs|
    ensures Touches(once, cs[..n], k, id) <==> Touches(once, cs, k, id)
  {
    assert cs[..n][..k] == cs[..k] && cs[..n][k] == cs[k];
  }

  lemma LastFiledLonger(once: bool, cs: seq<Cmd>, j: nat, id: nat)
    requires cs != []
    ensures var n := |cs| - 1;
      LastFiled(once, cs, j, id) <==>
        if j < n then LastFiled(once, cs[..n], j, id) && !Touches(once, cs, n, id)
        else j == n && Files(once, BookRuns.Run(once, cs[..n]), cs[n], id)
  {
    var n := |cs| - 1;
    if j < n {
      assert cs[..n][..j] == cs[..j] && cs[..n][j] == cs[j];
      forall k | 0 <= k < n
        ensures Touches(once, cs[..n], k, id) <==> Touches(once, cs, k, id)
      {
        TouchesPrefix(once, cs, n, k, id);
      }
      UntouchedLonger(once, cs, j, id);
    }
  }

  lemma UntouchedLonger(once: bool, cs: seq<Cmd>, j: nat, id: nat)
    requires cs != [] && j < |cs| - 1
    requires var n := |cs| - 1; forall k :: 0 <= k < n ==> (Touches(once, cs[..n], k, id) <==> Touches(once, cs, k, id))
    ensures var n := |cs| - 1;
      (forall k :: j < k < |cs| ==> !Touches(once, cs, k, id)) <==>
      (forall k :: j < k < n ==> !Touches(once, cs[..n], k, id)) && !Touches(once, cs, n, id)
  {
  }

  /** What a step does to the entry of an id. */
  lemma EntryAfter(once: bool, b: Book, c: Cmd, id: nat)
    ensures var orders, orders' := b.orders, BookRuns.Step(once, b, c).orders;
      && (Files(once, b, c, id) ==> id in orders' && orders'[id] == c.o)
      && (Withdraws(b, c, id) ==> id !in orders')
      && (!Files(once, b, c, id) && !Withdraws(b, c, id) ==>
            (id in orders' <==> id in orders) && (id in orders ==> orders'[id] == orders[id]))
  {
    match c
    case Place(o) =>
      assert Match(once, b, o).orders == if Rested(once, b, o) > 0 then b.orders[o.id := o] else b.orders;
    case CancelId(k) =>
      assert Cancel(b, k).orders == if Cancellable(b, k) then b.orders - {k} else b.orders;
  }

  /** After any run, the order map has exactly the orders that rested and have not been cancelled, filled or not; if
      several rested under one id, the last. */
  lemma {:induction false} OrderMapExactly(once: bool, cs: seq<Cmd>, id: nat)
    ensures id in BookRuns.Run(once, cs).orders <==> exists j: nat :: LastFiled(once, cs, j, id)
    ensures forall j: nat :: LastFiled(once, cs, j, id) ==> BookRuns.Run(once, cs).orders[id] == cs[j].o
  {
    if cs != [] {
      var n := |cs| - 1;
      var b := BookRuns.Run(once, cs[..n]);
      OrderMapExactly(once, cs[..n], id);
      EntryAfter(once, b, cs[n], id);
      forall j: nat
        ensures LastFiled(once, cs, j, id) <==>
          if j < n then LastFiled(once, cs[..n], j, id) && !Touches(once, cs, n, id)
          else j == n && Files(once, b, cs[n], id)
      {
        LastFiledLonger(once, cs, j, id);
      }
      if Files(once, b, cs[n], id) {
        assert LastFiled(once, cs, n, id);
      } else if id in b.orders && !Withdraws(b, cs[n], id) {
        var j: nat :| LastFiled(once, cs[..n], j, id);
        assert LastFiled(once, cs, j, id);
      }
    }
  }

  // ---- Cancelling, on a tick grid ----

  /** The orders of the level that a lookup of the price finds. */
  function OrdersAt(reverse: bool, ladder: Ladder, p: real): Option<seq<Order>> {
    match Get(reverse, ladder, p) case None => None case Some(l) => Some(l.orders)
  }

  ghost predicate OnTicks(reverse: bool, ladder: Ladder, grid: iset<real>) {
    Tidy(reverse, ladder) && OnGrid(ladder, grid) && Spaced(grid)
  }

  /** The order is found exactly if there is a level at its price with its id among the orders. */
  lemma FindsByOrders(reverse: bool, ladder: Ladder, o: Order)
    ensures Finds(reverse, ladder, o) <==>
      OrdersAt(reverse, ladder, o.price).Some? && Has(OrdersAt(reverse, ladder, o.price).value, o.id)
    ensures Hit(reverse, ladder, o.price) <==> OrdersAt(reverse, ladder, o.price).Some?
  {
  }

  lemma LevelAtKey(reverse: bool, ladder: Ladder, i: nat, grid: iset<real>)
    requires OnTicks(reverse, ladder, grid) && i < |ladder|
    ensures Get(reverse, ladder, ladder[i].key) == Some(ladder[i].value)
  {
    forall j | 0 <= j < i
      ensures Compare(reverse, ladder[j].key, ladder[i].key) < 0
    {
    }
    RankIs(reverse, ladder, ladder[i].key, i);
  }

  predicate SameOrders(e: Entry<LevelSpec.Level>, e': Entry<LevelSpec.Level>) {
    e'.key == e.key && e'.value.orders == e.value.orders
  }

  /** Every level a match leaves was there before, with the same orders. */
  lemma BeyondOrigin(once: bool, ladder: Ladder, trades: seq<Trade>, ladder': Ladder, i: nat) returns (j: nat)
    requires Beyond(once, ladder, trades, ladder') && i < |ladder'|
    ensures j < |ladder| && SameOrders(ladder[j], ladder'[i])
  {
    if !PartialEnd(ladder, trades) {
      j := |trades| + i;
    } else if i == 0 {
      j := |trades| - 1;
    } else {
      j := |trades| + i - 1;
      assert ladder'[i] == ladder[|trades|..][i - 1];
    }
  }

  /** The level found at a price has the orders it had, at position `j`, before. */
  lemma KeepsOrders(reverse: bool, ladder: Ladder, ladder': Ladder, j: nat, p: real, grid: iset<real>)
    requires OnTicks(reverse, ladder, grid) && OnTicks(reverse, ladder', grid) && p in grid
    requires Hit(reverse, ladder', p) && j < |ladder| && SameOrders(ladder[j], ladder'[Rank(reverse, ladder', p)])
    ensures OrdersAt(reverse, ladder', p) == OrdersAt(reverse, ladder, p)
  {
    HitIsListed(reverse, ladder', p, grid);
    LevelAtKey(reverse, ladder, j, grid);
  }

  lemma WalkOrigin(once: bool, order: Order, ladder: Ladder, queues: Queues, rem: int, i: nat) returns (j: nat)
    requires i < |Walk(once, order, ladder, queues, rem).ladder|
    ensures j < |ladder| && SameOrders(ladder[j], Walk(once, order, ladder, queues, rem).ladder[i])
  {
    var r := Walk(once, order, ladder, queues, rem);
    TradesAreAPrefix(once, order, ladder, queues, rem);
    j := BeyondOrigin(once, ladder, r.trades, r.ladder, i);
  }

  lemma WalkStaysOnTicks(once: bool, order: Order, ladder: Ladder, queues: Queues, rem: int, grid: iset<real>)
    requires OnTicks(Facing(order), ladder, grid)
    ensures OnTicks(Facing(order), Walk(once, order, ladder, queues, rem).ladder, grid)
  {
    StaysTidy(once, order, ladder, queues, rem, Facing(order));
    forall i | 0 <= i < |Walk(once, order, ladder, queues, rem).ladder|
      ensures Walk(once, order, ladder, queues, rem).ladder[i].key in grid
    {
      var j := WalkOrigin(once, order, ladder, queues, rem, i);
    }
  }

  /** A match leaves the orders of a level as they are, or takes the level. */
  lemma WalkKeepsOrders(once: bool, order: Order, ladder: Ladder, queues: Queues, rem: int, p: real, grid: iset<real>)
    requires OnTicks(Facing(order), ladder, grid) && p in grid
    ensures var reverse, ladder' := Facing(order), Walk(once, order, ladder, queues, rem).ladder;
      && OnTicks(reverse, ladder', grid)
      && (OrdersAt(reverse, ladder', p).Some? ==> OrdersAt(reverse, ladder', p) == OrdersAt(reverse, ladder, p))
  {
    var reverse, ladder' := Facing(order), Walk(once, order, ladder, queues, rem).ladder;
    WalkStaysOnTicks(once, order, ladder, queues, rem, grid);
    if Hit(reverse, ladder', p) {
      var j := WalkOrigin(once, order, ladder, queues, rem, Rank(reverse, ladder', p));
      KeepsOrders(reverse, ladder, ladder', j, p, grid);
    }
  }

  lemma RestAddsToOrders(reverse: bool, ladder: Ladder, o: Order, qty: int, p: real, grid: iset<real>)
    requires OnTicks(reverse, ladder, grid) && o.price in grid && p in grid
    ensures OnTicks(reverse, RestOn(reverse, ladder, o, qty), grid)
    ensures OrdersAt(reverse, RestOn(reverse, ladder, o, qty), p) ==
      if p == o.price then Some((match OrdersAt(reverse, ladder, p) case None => [] case Some(os) => os) + [o])
      else OrdersAt(reverse, ladder, p)
  {
    RestOnIsTidy(reverse, ladder, o, qty);
    var level := LevelWith(reverse, ladder, o, qty);
    StepOnGrid(reverse, ladder, Put(o.price, level), grid);
    InsertedElsewhere(reverse, ladder, o.price, level, p, grid);
  }

  /** A cancellation takes its order out of its level, or takes the level, and leaves the other levels. */
  lemma CancelTakesFromOrders(reverse: bool, ladder: Ladder, o: Order, p: real, grid: iset<real>)
    requires OnTicks(reverse, ladder, grid) && o.price in grid && p in grid && Hit(reverse, ladder, o.price)
    ensures OnTicks(reverse, CancelOn(reverse, ladder, o), grid)
    ensures var before, after := OrdersAt(reverse, ladder, p), OrdersAt(reverse, CancelOn(reverse, ladder, o), p);
      && (p != o.price ==> after == before)
      && (p == o.price && after.Some? ==> before.Some? && after.value == Drop(before.value, o.id))
  {
    CancelOnIsTidy(reverse, ladder, o);
    var level := LevelSpec.Left(LevelAt(reverse, ladder, o.price), o);
    if level.totalQty == 0 {
      StepOnGrid(reverse, ladder, Del(o.price), grid);
      RemovedElsewhere(reverse, ladder, o.price, p, grid);
    } else {
      StepOnGrid(reverse, ladder, Put(o.price, level), grid);
      InsertedElsewhere(reverse, ladder, o.price, level, p, grid);
    }
  }

  lemma InsertedElsewhere(reverse: bool, ladder: Ladder, p: real, level: LevelSpec.Level, q: real, grid: iset<real>)
    requires OnTicks(reverse, ladder, grid) && p in grid && q in grid
    ensures Get(reverse, Insert(reverse, ladder, p, level), q)
         == if p == q then Some(level) else Get(reverse, ladder, q)
  {
    HitIsListed(reverse, ladder, p, grid);
    if p == q {
      GetAfterInsert(reverse, ladder, p, level);
    } else {
      GetElsewhereAfterInsert(reverse, ladder, p, level, q);
    }
  }

  lemma RemovedElsewhere(reverse: bool, ladder: Ladder, p: real, q: real, grid: iset<real>)
    requires OnTicks(reverse, ladder, grid) && p in grid && q in grid && Hit(reverse, ladder, p)
    requires Ordered(reverse, Prices.Remove(reverse, ladder, p))
    ensures Get(reverse, Prices.Remove(reverse, ladder, p), q) == if p == q then None else Get(reverse, ladder, q)
  {
    var r, ladder' := Rank(reverse, ladder, p), Prices.Remove(reverse, ladder, p);
    HitIsListed(reverse, ladder, p, grid);
    RemoveShape(reverse, ladder, p);
    RemovedKeys(reverse, ladder, ladder', r);
    StepOnGrid(reverse, ladder, Del(p), grid);
    HitIsListed(reverse, ladder', q, grid);
    HitIsListed(reverse, ladder, q, grid);
    if Listed(ladder', q) {
      WasListed(ladder, ladder', r, q);
    }
    if p != q && Listed(ladder, q) {
      RemovedStillLists(ladder, ladder', r, q);
      SameLevelListed(reverse, ladder, ladder', r, q, grid);
    }
  }

  lemma WasListed(ladder: Ladder, ladder': Ladder, r: nat, q: real)
    requires RemovedAt(ladder, ladder', r) && Listed(ladder', q)
    ensures Listed(ladder, q)
  {
    var i :| 0 <= i < |ladder'| && ladder'[i].key == q;
    assert ladder[if i < r then i else i + 1].key == q;
  }

  lemma SameLevelListed(reverse: bool, ladder: Ladder, ladder': Ladder, r: nat, q: real, grid: iset<real>)
    requires OnTicks(reverse, ladder, grid) && Ordered(reverse, ladder') && OnGrid(ladder', grid)
    requires RemovedAt(ladder, ladder', r) && q in grid && Hit(reverse, ladder', q)
    ensures Get(reverse, ladder', q) == Get(reverse, ladder, q)
  {
    var j := Rank(reverse, ladder', q);
    HitIsListed(reverse, ladder', q, grid);
    if j < r {
      LevelAtKey(reverse, ladder, j, grid);
    } else {
      LevelAtKey(reverse, ladder, j + 1, grid);
    }
  }

  /** Every price on the book is on the grid, and orders are filed under their own ids. */
  ghost predicate Ticked(b: Book, grid: iset<real>) {
    && OnTicks(true, b.bids, grid) && OnTicks(false, b.asks, grid)
    && forall id :: id in b.orders ==> b.orders[id].price in grid && b.orders[id].id == id
  }

  ghost predicate CmdOnGrid(c: Cmd, grid: iset<real>) { c.Place? ==> c.o.price in grid }

  lemma StepStaysTicked(once: bool, b: Book, c: Cmd, grid: iset<real>)
    requires Ticked(b, grid) && CmdOnGrid(c, grid)
    ensures Ticked(BookRuns.Step(once, b, c), grid)
  {
    match c
    case Place(o) => MatchStaysTicked(once, b, o, grid);
    case CancelId(id) => CancelStaysTicked(b, id, grid);
  }

  lemma MatchStaysTicked(once: bool, b: Book, o: Order, grid: iset<real>)
    requires Ticked(b, grid) && o.price in grid
    ensures Ticked(Match(once, b, o), grid)
  {
    var r, qty := Walked(once, b, o), Rested(once, b, o);
    WalkKeepsOrders(once, o, Opposite(b, o), b.queues, o.quantity, o.price, grid);
    RestAddsToOrders(Descends(o), Own(b, o), o, qty, o.price, grid);
    MatchSides(once, b, o);
  }

  /** A match changes the opposite side by its trades and its own by what rests. */
  lemma MatchSides(once: bool, b: Book, o: Order)
    ensures var b', qty := Match(once, b, o), Rested(once, b, o);
      && Opposite(b', o) == Walked(once, b, o).ladder
      && Own(b', o) == (if qty > 0 then RestOn(Descends(o), Own(b, o), o, qty) else Own(b, o))
      && b'.orders == (if qty > 0 then b.orders[o.id := o] else b.orders)
  {
  }

  lemma CancelStaysTicked(b: Book, id: nat, grid: iset<real>)
    requires Ticked(b, grid)
    ensures Ticked(Cancel(b, id), grid)
  {
    if Cancellable(b, id) {
      var o := b.orders[id];
      CancelTakesFromOrders(Descends(o), Own(b, o), o, o.price, grid);
    }
  }

  /** The orders a side shows at a price, after a match of another order. */
  lemma MatchFinds(once: bool, b: Book, c: Order, o: Order, grid: iset<real>)
    requires Ticked(b, grid) && c.price in grid && o.price in grid && !Files(once, b, BookRuns.Place(c), o.id)
    ensures var b' := Match(once, b, c);
      Finds(Descends(o), Own(b', o), o) <==>
        Finds(Descends(o), Own(b, o), o) && Hit(Descends(o), Own(b', o), o.price)
  {
    var b', bid, qty := Match(once, b, c), Descends(o), Rested(once, b, c);
    FindsByOrders(bid, Own(b, o), o);
    FindsByOrders(bid, Own(b', o), o);
    if bid == Facing(c) {
      WalkKeepsOrders(once, c, Opposite(b, c), b.queues, c.quantity, o.price, grid);
      assert Own(b', o) == Walked(once, b, c).ladder && Own(b, o) == Opposite(b, c);
    } else if qty > 0 {
      RestAddsToOrders(bid, Own(b, o), c, qty, o.price, grid);
      assert Own(b', o) == RestOn(bid, Own(b, o), c, qty);
      HasOne(c, o.id);
      if OrdersAt(bid, Own(b, o), o.price).Some? {
        LevelSpec.FindAppend(OrdersAt(bid, Own(b, o), o.price).value, c, o.id);
      }
    } else {
      assert Own(b', o) == Own(b, o);
    }
  }

  lemma HasOne(c: Order, id: nat)
    ensures Has([] + [c], id) <==> c.id == id
  {
    if c.id == id {
      MemberIsFound([] + [c], c);
    } else {
      FindMisses([] + [c], id);
    }
  }

  lemma CancelFinds(b: Book, id: nat, o: Order, grid: iset<real>)
    requires Ticked(b, grid) && o.price in grid && (Cancellable(b, id) ==> id != o.id)
    ensures var b' := Cancel(b, id);
      Finds(Descends(o), Own(b', o), o) <==>
        Finds(Descends(o), Own(b, o), o) && Hit(Descends(o), Own(b', o), o.price)
  {
    if Cancellable(b, id) {
      var b', bid, c := Cancel(b, id), Descends(o), b.orders[id];
      FindsByOrders(bid, Own(b, o), o);
      FindsByOrders(bid, Own(b', o), o);
      CancelTakesFromOrders(Descends(c), Own(b, c), c, o.price, grid);
      if Descends(c) == bid && c.price == o.price && Hit(bid, Own(b', o), o.price) {
        var os := OrdersAt(bid, Own(b, o), o.price).value;
        assert Own(b', o) == CancelOn(bid, Own(b, o), c) && OrdersAt(bid, Own(b', o), o.price).value == Drop(os, c.id);
        LevelSpec.DroppedLookup(os, c.id, o.id);
      }
    }
  }

  lemma {:induction false} RunsStayTicked(once: bool, cs: seq<Cmd>, grid: iset<real>)
    requires Spaced(grid) && forall i :: 0 <= i < |cs| ==> CmdOnGrid(cs[i], grid)
    ensures Ticked(BookRuns.Run(once, cs), grid)
  {
    if cs != [] {
      RunsStayTicked(once, cs[..|cs| - 1], grid);
      StepStaysTicked(once, BookRuns.Run(once, cs[..|cs| - 1]), cs[|cs| - 1], grid);
    }
  }

  /** After each step from `j` on, the side of the order has a level at its price. */
  ghost predicate LevelStays(once: bool, cs: seq<Cmd>, j: nat, o: Order) {
    j < |cs| ==> LevelStays(once, cs[..|cs| - 1], j, o) && Hit(Descends(o), Own(BookRuns.Run(once, cs), o), o.price)
  }

  lemma FiledIsMapped(once: bool, cs: seq<Cmd>, j: nat, id: nat)
    requires LastFiled(once, cs, j, id)
    ensures var orders := BookRuns.Run(once, cs).orders; id in orders && orders[id] == cs[j].o && cs[j].o.id == id
  {
    OrderMapExactly(once, cs, id);
  }

  ghost predicate RunOnGrid(cs: seq<Cmd>, grid: iset<real>) {
    Spaced(grid) && forall i :: 0 <= i < |cs| ==> CmdOnGrid(cs[i], grid)
  }

  /** On a tick grid: an order that rested can be cancelled for exactly as long as its level stays. Fills of its level
      do not matter, nor what else joins the level or leaves it. */
  lemma {:induction false} CancellableWhileLevelStays(once: bool, cs: seq<Cmd>, j: nat, id: nat, grid: iset<real>)
    requires RunOnGrid(cs, grid) && LastFiled(once, cs, j, id)
    ensures Cancellable(BookRuns.Run(once, cs), id) <==> LevelStays(once, cs, j, cs[j].o)
    decreases |cs|
  {
    if j < |cs| - 1 {
      FiledBefore(once, cs, j, id);
      OnGridBefore(cs, grid);
      CancellableWhileLevelStays(once, cs[..|cs| - 1], j, id, grid);
      StillCancellable(once, cs, j, id, grid);
      LevelStaysLonger(once, cs, j, cs[j].o);
    } else {
      JustFiled(once, cs, j);
      LevelStaysLonger(once, cs, j, cs[j].o);
    }
  }

  lemma FiledBefore(once: bool, cs: seq<Cmd>, j: nat, id: nat)
    requires LastFiled(once, cs, j, id) && j < |cs| - 1
    ensures LastFiled(once, cs[..|cs| - 1], j, id) && !Touches(once, cs, |cs| - 1, id) && cs[..|cs| - 1][j] == cs[j]
  {
    LastFiledLonger(once, cs, j, id);
  }

  lemma OnGridBefore(cs: seq<Cmd>, grid: iset<real>)
    requires RunOnGrid(cs, grid) && cs != []
    ensures RunOnGrid(cs[..|cs| - 1], grid)
  {
  }

  lemma LevelStaysLonger(once: bool, cs: seq<Cmd>, j: nat, o: Order)
    requires j < |cs|
    ensures LevelStays(once, cs, j, o) <==>
      (j < |cs| - 1 ==> LevelStays(once, cs[..|cs| - 1], j, o))
      && Hit(Descends(o), Own(BookRuns.Run(once, cs), o), o.price)
  {
  }

  lemma StillCancellable(once: bool, cs: seq<Cmd>, j: nat, id: nat, grid: iset<real>)
    requires RunOnGrid(cs, grid) && LastFiled(once, cs, j, id) && !Touches(once, cs, |cs| - 1, id)
    requires LastFiled(once, cs[..|cs| - 1], j, id)
    ensures Cancellable(BookRuns.Run(once, cs), id) <==>
      && Cancellable(BookRuns.Run(once, cs[..|cs| - 1]), id)
      && Hit(Descends(cs[j].o), Own(BookRuns.Run(once, cs), cs[j].o), cs[j].o.price)
  {
    var n := |cs| - 1;
    FiledIsMapped(once, cs, j, id);
    FiledIsMapped(once, cs[..n], j, id);
    RunsStayTicked(once, cs[..n], grid);
    StepFinds(once, BookRuns.Run(once, cs[..n]), cs[n], cs[j].o, grid);
  }

  lemma JustFiled(once: bool, cs: seq<Cmd>, j: nat)
    requires j == |cs| - 1 && cs[j].Place? && Files(once, BookRuns.Run(once, cs[..j]), cs[j], cs[j].o.id)
    ensures Cancellable(BookRuns.Run(once, cs), cs[j].o.id)
    ensures Hit(Descends(cs[j].o), Own(BookRuns.Run(once, cs), cs[j].o), cs[j].o.price)
  {
    RestingIsFiled(once, BookRuns.Run(once, cs[..j]), cs[j].o);
  }

  lemma StepFinds(once: bool, b: Book, c: Cmd, o: Order, grid: iset<real>)
    requires Ticked(b, grid) && CmdOnGrid(c, grid) && o.price in grid
    requires !Files(once, b, c, o.id) && !Withdraws(b, c, o.id)
    ensures var b' := BookRuns.Step(once, b, c);
      Finds(Descends(o), Own(b', o), o) <==>
        Finds(Descends(o), Own(b, o), o) && Hit(Descends(o), Own(b', o), o.price)
  {
    match c
    case Place(p) => MatchFinds(once, b, p, o, grid);
    case CancelId(k) => CancelFinds(b, k, o, grid);
  }
}
