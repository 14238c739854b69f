/** `HybridOrderBook` in place: two skip trees of level objects, the order map and the queues. Every
    method is proved to do what `Books`, `Matching` and `Cancels` say of its value. */
module OrderBooks {
  import opened Types
  import opened Prices
  import opened OrderLists
  import opened SkipNodes
  import opened SkipTrees
  import LevelSpec
  import opened Matching
  import opened Books
  import Cancels
  import BookRuns

  /** `types.PriceLevel`: a level as a snapshot shows it. */
  datatype Row = Row(price: real, quantity: int, count: nat)

  type Entries = seq<Entry<PriceLevel>>

  /** A tree entry shows a ladder entry; `owner` says which side its level object belongs to. */
  ghost predicate EntryShows(e: Entry<PriceLevel>, f: Entry<LevelSpec.Level>, owner: map<PriceLevel, bool>, bid: bool)
    reads e.value
  {
    && f.key == e.key == e.value.price
    && f.value == LevelSpec.Level(e.value.price, e.value.totalQty, e.value.orders)
    && e.value in owner && owner[e.value] == bid
  }

  ghost predicate SideShows(es: Entries, ladder: Ladder, owner: map<PriceLevel, bool>, bid: bool)
    reads set e | e in es :: e.value
  {
    |es| == |ladder| && forall i :: 0 <= i < |es| ==> EntryShows(es[i], ladder[i], owner, bid)
  }

  ghost function LevelObjects(es: Entries): set<PriceLevel> {
    set e | e in es :: e.value
  }

  ghost predicate Within(ns: seq<SkipNode>, ms: seq<SkipNode>) {
    forall i :: 0 <= i < |ns| ==> ns[i] in ms
  }

  lemma StillApart(ns: seq<SkipNode>, ns': seq<SkipNode>, ms: seq<SkipNode>)
    requires (forall n :: n in ns ==> n !in ms) && forall n :: n in ns' ==> n in ns
    ensures (forall n :: n in ns' ==> n !in ms) && Within(ns', ns)
  {
  }

  function Side(b: Book, bid: bool): Ladder { if bid then b.bids else b.asks }

  function WithSide(b: Book, bid: bool, ladder: Ladder): Book {
    if bid then b.(bids := ladder) else b.(asks := ladder)
  }

  /** Orders are filed under their own ids. */
  ghost predicate IdsFiled(m: map<nat, Order>) {
    forall id :: id in m ==> m[id].id == id
  }

  /** Searches see only the keys. */
  lemma SameRank(reverse: bool, es: Entries, ladder: Ladder, p: real)
    requires |es| == |ladder| && forall i :: 0 <= i < |es| ==> ladder[i].key == es[i].key
    ensures Rank(reverse, ladder, p) == Rank(reverse, es, p)
    ensures Hit(reverse, ladder, p) == Hit(reverse, es, p)
  {
    RankIs(reverse, ladder, p, Rank(reverse, es, p));
  }

  /** Removing the best price removes the first entry. */
  lemma FirstRemoved(reverse: bool, ladder: Ladder, p: real)
    requires ladder != [] && ladder[0].key == p
    ensures Prices.Remove(reverse, ladder, p) == ladder[1..]
  {
    RankIs(reverse, ladder, p, 0);
  }

  lemma RemovedShows(
      es: Entries, es': Entries, ladder: Ladder, ladder': Ladder, owner: map<PriceLevel, bool>, bid: bool, p: real)
    requires SideShows(es, ladder, owner, bid) && Hit(bid, es, p)
    requires es' == Prices.Remove(bid, es, p) && ladder' == Prices.Remove(bid, ladder, p)
    ensures SideShows(es', ladder', owner, bid)
  {
    var r := Rank(bid, es, p);
    assert forall i :: 0 <= i < |es| ==> EntryShows(es[i], ladder[i], owner, bid);
    SameRank(bid, es, ladder, p);
    RemoveShape(bid, es, p);
    RemoveShape(bid, ladder, p);
    forall i | 0 <= i < |es'|
      ensures EntryShows(es'[i], ladder'[i], owner, bid)
    {
      var j := if i < r then i else i + 1;
      assert EntryShows(es[j], ladder[j], owner, bid);
    }
  }

  lemma InsertedShows(es: Entries, ladder: Ladder, owner: map<PriceLevel, bool>, bid: bool, p: real, level: PriceLevel)
    requires SideShows(es, ladder, owner, bid) && !Hit(bid, es, p) && level.price == p
    requires level in owner && owner[level] == bid
    ensures SideShows(Prices.Insert(bid, es, p, level),
                      Prices.Insert(bid, ladder, p, LevelSpec.Level(p, level.totalQty, level.orders)), owner, bid)
  {
    var l := LevelSpec.Level(p, level.totalQty, level.orders);
    var r, es', ladder' := Rank(bid, es, p), Prices.Insert(bid, es, p, level), Prices.Insert(bid, ladder, p, l);
    assert forall i :: 0 <= i < |es| ==> EntryShows(es[i], ladder[i], owner, bid);
    SameRank(bid, es, ladder, p);
    InsertShape(bid, es, p, level);
    InsertShape(bid, ladder, p, l);
    ShownAround(es, es', ladder, ladder', owner, bid, r, Entry(p, level), Entry(p, l));
  }

  lemma ShownAround(es: Entries, es': Entries, ladder: Ladder, ladder': Ladder, owner: map<PriceLevel, bool>,
                    bid: bool, r: nat, e: Entry<PriceLevel>, f: Entry<LevelSpec.Level>)
    requires SideShows(es, ladder, owner, bid) && EntryShows(e, f, owner, bid)
    requires InsertedAt(es, es', r, e) && InsertedAt(ladder, ladder', r, f)
    ensures SideShows(es', ladder', owner, bid)
  {
    forall i | 0 <= i < |es'|
      ensures EntryShows(es'[i], ladder'[i], owner, bid)
    {
      if i != r {
        var j := if i < r then i else i - 1;
        assert EntryShows(es[j], ladder[j], owner, bid);
      }
    }
  }

  /** A level just inserted is found at the rank of its price. */
  lemma JustInserted(bid: bool, es: Entries, p: real, level: PriceLevel)
    requires !Hit(bid, es, p)
    ensures var es' := Prices.Insert(bid, es, p, level);
      Hit(bid, es', p) && Rank(bid, es', p) == Rank(bid, es, p) && es'[Rank(bid, es, p)].value == level
  {
    InsertShape(bid, es, p, level);
    RankIs(bid, Prices.Insert(bid, es, p, level), p, Rank(bid, es, p));
  }

  /** A ladder with a level at `p`, empty if there was none. */
  function Opened(bid: bool, ladder: Ladder, p: real): Ladder {
    if Hit(bid, ladder, p) then ladder else Prices.Insert(bid, ladder, p, LevelSpec.Level(p, 0, []))
  }

  /** Finding or creating the level, then adding to it, is `RestOn`. */
  lemma OpenedThenAdded(bid: bool, ladder: Ladder, o: Order, qty: int)
    ensures var es, r := Opened(bid, ladder, o.price), Rank(bid, ladder, o.price);
      && Rank(bid, es, o.price) == r < |es|
      && es[r := Entry(es[r].key, LevelSpec.AddTo(es[r].value, o, qty))] == RestOn(bid, ladder, o, qty)
  {
    var r := Rank(bid, ladder, o.price);
    if !Hit(bid, ladder, o.price) {
      var l := LevelSpec.Level(o.price, 0, []);
      InsertShape(bid, ladder, o.price, l);
      RankIs(bid, Opened(bid, ladder, o.price), o.price, r);
      assert (ladder[..r] + [Entry(o.price, l)] + ladder[r..])[r := Entry(o.price, LevelSpec.AddTo(l, o, qty))]
          == ladder[..r] + [Entry(o.price, LevelSpec.AddTo(l, o, qty))] + ladder[r..];
    }
  }

  /** The side once the order has left its level. */
  function Lightened(bid: bool, ladder: Ladder, o: Order): Ladder
    requires Hit(bid, ladder, o.price)
  {
    var r := Rank(bid, ladder, o.price);
    ladder[r := Entry(ladder[r].key, LevelSpec.Left(ladder[r].value, o))]
  }

  predicate Gone(bid: bool, ladder: Ladder, o: Order)
    requires Hit(bid, ladder, o.price)
  {
    LevelSpec.Left(ladder[Rank(bid, ladder, o.price)].value, o).totalQty == 0
  }

  /** Taking the order out of its level, then the level out of the side if nothing is left, is `CancelOn`. */
  lemma TakenOut(bid: bool, ladder: Ladder, o: Order)
    requires Hit(bid, ladder, o.price)
    ensures Gone(bid, ladder, o) <==> LevelSpec.Left(LevelAt(bid, ladder, o.price), o).totalQty == 0
    ensures var ladder' := Lightened(bid, ladder, o);
      Cancels.CancelOn(bid, ladder, o) == if Gone(bid, ladder, o) then Prices.Remove(bid, ladder', o.price) else ladder'
  {
    var r, ladder' := Rank(bid, ladder, o.price), Lightened(bid, ladder, o);
    RankIs(bid, ladder', o.price, r);
    SameAround(ladder, r, ladder'[r]);
  }

  lemma SameAround(ladder: Ladder, r: nat, e: Entry<LevelSpec.Level>)
    requires r < |ladder|
    ensures ladder[r := e][..r] == ladder[..r] && ladder[r := e][r + 1..] == ladder[r + 1..]
  {
  }

  /** Taking the order out of its side, giving `b1`, then out of the map and the queues is `Cancel`. */
  lemma CancelIs(bid: bool, b: Book, o: Order, b1: Book, gone: bool, b2: Book)
    requires Cancels.Cancellable(b, o.id) && b.orders[o.id] == o && bid == (o.side == SIDE_BUY)
    requires gone == Gone(bid, Side(b, bid), o)
    requires b1 == var ladder' := Lightened(bid, Side(b, bid), o);
      WithSide(b, bid, if gone then Prices.Remove(bid, ladder', o.price) else ladder')
    requires b2 == Book(b1.bids, b1.asks, b1.orders - {o.id},
                        if gone then b1.queues - {o.price} else b1.queues, b1.version + 1)
    ensures b2 == Cancels.Cancel(b, o.id)
  {
    TakenOut(bid, Side(b, bid), o);
  }

  /** Lightening the level at position `r`, giving `b1`, then dropping it if nothing is left. */
  lemma TakenOutIs(bid: bool, b: Book, o: Order, r: nat, b1: Book, gone: bool, b2: Book)
    requires Hit(bid, Side(b, bid), o.price) && r == Rank(bid, Side(b, bid), o.price)
    requires gone == (LevelSpec.Left(Side(b, bid)[r].value, o).totalQty == 0)
    requires b1 == var ladder := Side(b, bid);
      WithSide(b, bid, ladder[r := Entry(ladder[r].key, LevelSpec.Left(ladder[r].value, o))])
    requires b2 == if gone then WithSide(b1, bid, Prices.Remove(bid, Side(b1, bid), o.price)) else b1
    ensures gone == Gone(bid, Side(b, bid), o)
    ensures b2 == var ladder' := Lightened(bid, Side(b, bid), o);
      WithSide(b, bid, if gone then Prices.Remove(bid, ladder', o.price) else ladder')
  {
    assert Side(b1, bid) == Lightened(bid, Side(b, bid), o);
  }

  class HybridOrderBook {
    const buys: SkipTree
    const sells: SkipTree
    var orderMap: map<nat, Order>
    var seqMaps: map<real, seq<Order>>
    var version: nat
    ghost var owner: map<PriceLevel, bool>
    ghost var view: Book

    function Tree(bid: bool): SkipTree { if bid then buys else sells }

    ghost predicate TreeOk(bid: bool)
      reads Tree(bid), Tree(bid).nodes
    {
      Tree(bid).Valid() && Tree(bid).reverse == bid
    }

    ghost predicate Trees()
      reads buys, sells, buys.nodes, sells.nodes
    {
      && (forall bid :: TreeOk(bid))
      && (forall n :: n in buys.nodes ==> n !in sells.nodes)
    }

    lemma BothOk(bid: bool)
      requires TreeOk(bid) && TreeOk(!bid) && forall n :: n in Tree(bid).nodes ==> n !in Tree(!bid).nodes
      ensures Trees()
    {
      forall b
        ensures TreeOk(b)
      {
        assert b != bid ==> b == !bid;
      }
    }

    /** A sound tree is in strict price order. */
    lemma Sorted(bid: bool)
      requires Trees()
      ensures Tree(bid).Valid() && Tree(bid).reverse == bid && Ordered(bid, Tree(bid).entries)
    {
      assert TreeOk(bid);
    }

    ghost predicate Levels()
      reads this, buys, sells, LevelObjects(buys.entries), LevelObjects(sells.entries)
    {
      SideShows(buys.entries, view.bids, owner, true) && SideShows(sells.entries, view.asks, owner, false)
    }

    /** The objects show the value `view`. */
    ghost predicate Valid()
      reads this, buys, sells, buys.nodes, sells.nodes, LevelObjects(buys.entries), LevelObjects(sells.entries)
    {
      && Trees() && Levels()
      && orderMap == view.orders && seqMaps == view.queues && version == view.version
      && IdsFiled(orderMap)
    }

    constructor ()
      ensures Valid() && view == EMPTY_BOOK && owner == map[]
      ensures fresh(buys) && fresh(sells) && fresh(buys.nodes) && fresh(sells.nodes)
    {
      buys := new SkipTree(16, true);
      sells := new SkipTree(16, false);
      orderMap, seqMaps, version := map[], map[], 0;
      owner, view := map[], EMPTY_BOOK;
    }

    // ---- Steps shared by the operations ----

    /** What the entry at position `k` of a side shows. */
    lemma Shown(bid: bool, k: nat)
      requires Levels() && k < |Tree(bid).entries|
      ensures |Side(view, bid)| == |Tree(bid).entries|
      ensures EntryShows(Tree(bid).entries[k], Side(view, bid)[k], owner, bid)
    {
    }

    /** Gives the level at position `k` of a side new orders and a new total. */
    method SetLevel(bid: bool, ghost k: nat, level: PriceLevel, orders: seq<Order>, totalQty: int)
      requires Levels() && Ordered(bid, Tree(bid).entries)
      requires k < |Tree(bid).entries| && level == Tree(bid).entries[k].value
      modifies this`view, level
      ensures Levels() && Trees() == old(Trees()) && level.orders == orders && level.totalQty == totalQty
      ensures k < |Side(old(view), bid)|
      ensures view == var ladder := Side(old(view), bid);
        WithSide(old(view), bid, ladder[k := Entry(ladder[k].key, LevelSpec.Level(level.price, totalQty, orders))])
    {
      ghost var ladder := Side(view, bid);
      Shown(bid, k);
      level.orders := orders;
      level.totalQty := totalQty;
      view := WithSide(view, bid, ladder[k := Entry(ladder[k].key, LevelSpec.Level(level.price, totalQty, orders))]);
      ghost var es, ladder' := Tree(bid).entries, Side(view, bid);
      forall i | 0 <= i < |es|
        ensures EntryShows(es[i], ladder'[i], owner, bid)
      {
        assert old(EntryShows(es[i], ladder[i], owner, bid));
        if i != k {
          OrderedKeysAreApart(bid, es, i, k);
        }
      }
      ghost var fs, other := Tree(!bid).entries, Side(view, !bid);
      forall i | 0 <= i < |fs|
        ensures EntryShows(fs[i], other[i], owner, !bid)
      {
        assert old(EntryShows(fs[i], other[i], owner, !bid));
      }
    }

    /** Records the value that a changed tree shows. */
    ghost method SetSide(bid: bool, ladder: Ladder)
      requires Trees() && SideShows(Tree(bid).entries, ladder, owner, bid)
      requires SideShows(Tree(!bid).entries, Side(view, !bid), owner, !bid)
      modifies this`view
      ensures Trees() && Levels() && view == WithSide(old(view), bid, ladder)
    {
      view := WithSide(view, bid, ladder);
    }

    method RemoveFromTree(bid: bool, price: real)
      requires Trees()
      modifies Tree(bid), Tree(bid).nodes
      ensures Trees() && Within(Tree(bid).nodes, old(Tree(bid).nodes))
      ensures Tree(bid).entries == Prices.Remove(bid, old(Tree(bid).entries), price)
      ensures Tree(!bid).entries == old(Tree(!bid).entries)
    {
      assert TreeOk(bid) && TreeOk(!bid);
      ghost var ns, ms := Tree(bid).nodes, Tree(!bid).nodes;
      Tree(bid).Remove(price);
      StillApart(ns, Tree(bid).nodes, ms);
      BothOk(bid);
    }

    /** Takes the level found at a price out of a side. */
    method RemoveLevel(bid: bool, price: real)
      requires Trees() && Levels() && Hit(bid, Tree(bid).entries, price)
      modifies this`view, Tree(bid), Tree(bid).nodes
      ensures Trees() && Levels() && Within(Tree(bid).nodes, old(Tree(bid).nodes))
      ensures view == WithSide(old(view), bid, Prices.Remove(bid, Side(old(view), bid), price))
    {
      ghost var es, ladder := Tree(bid).entries, Side(view, bid);
      ghost var ladder' := Prices.Remove(bid, ladder, price);
      RemoveFromTree(bid, price);
      RemovedShows(es, Tree(bid).entries, ladder, ladder', owner, bid, price);
      SetSide(bid, ladder');
    }

    method InsertIntoTree(bid: bool, price: real, level: PriceLevel)
      requires Trees()
      modifies Tree(bid), Tree(bid).nodes
      ensures Trees()
      ensures forall i :: 0 <= i < |Tree(bid).nodes| ==>
        Tree(bid).nodes[i] in old(Tree(bid).nodes) || fresh(Tree(bid).nodes[i])
      ensures Tree(bid).entries == Prices.Insert(bid, old(Tree(bid).entries), price, level)
      ensures Tree(!bid).entries == old(Tree(!bid).entries)
    {
      assert TreeOk(bid) && TreeOk(!bid);
      Tree(bid).Insert(price, level);
      BothOk(bid);
    }

    /** A new empty level at a price that has none. */
    method AddLevel(bid: bool, price: real) returns (level: PriceLevel)
      requires Trees() && Levels() && !Hit(bid, Tree(bid).entries, price)
      modifies this`view, this`owner, Tree(bid), Tree(bid).nodes
      ensures Trees() && Levels() && fresh(level) && level in owner && fresh(owner.Keys - old(owner.Keys))
      ensures forall i :: 0 <= i < |Tree(bid).nodes| ==>
        Tree(bid).nodes[i] in old(Tree(bid).nodes) || fresh(Tree(bid).nodes[i])
      ensures var r := Rank(bid, old(Tree(bid).entries), price);
        r < |Tree(bid).entries| && Tree(bid).entries[r].value == level
      ensures level.price == price && level.totalQty == 0 && level.orders == []
      ensures view == WithSide(old(view), bid, Prices.Insert(
        bid, Side(old(view), bid), price, LevelSpec.Level(price, 0, [])))
    {
      level := NewLevel(bid, price);
      FileLevel(bid, price, level);
    }

    method NewLevel(bid: bool, price: real) returns (level: PriceLevel)
      requires Levels()
      modifies this`owner
      ensures Levels() && Trees() == old(Trees()) && fresh(level) && owner == old(owner)[level := bid]
      ensures level.price == price && level.totalQty == 0 && level.orders == []
    {
      level := new PriceLevel(price);
      Own(bid, level);
    }

    method FileLevel(bid: bool, price: real, level: PriceLevel)
      requires Trees() && Levels() && !Hit(bid, Tree(bid).entries, price)
      requires level in owner && owner[level] == bid && level.price == price
      modifies this`view, Tree(bid), Tree(bid).nodes
      ensures Trees() && Levels()
      ensures var r := Rank(bid, old(Tree(bid).entries), price);
        r < |Tree(bid).entries| && Tree(bid).entries[r].value == level
      ensures forall i :: 0 <= i < |Tree(bid).nodes| ==>
        Tree(bid).nodes[i] in old(Tree(bid).nodes) || fresh(Tree(bid).nodes[i])
      ensures view == WithSide(old(view), bid, Prices.Insert(
        bid, Side(old(view), bid), price, LevelSpec.Level(price, level.totalQty, level.orders)))
    {
      ghost var es, ladder := Tree(bid).entries, Side(view, bid);
      InsertIntoTree(bid, price, level);
      JustInserted(bid, es, price, level);
      InsertedShows(es, ladder, owner, bid, price, level);
      SetSide(bid, Prices.Insert(bid, ladder, price, LevelSpec.Level(price, level.totalQty, level.orders)));
    }

    /** Records the side a new level object belongs to. */
    ghost method Own(bid: bool, level: PriceLevel)
      requires Levels() && level !in owner
      modifies this`owner
      ensures Levels() && owner == old(owner)[level := bid]
    {
      owner := owner[level := bid];
      ghost var bs, bids, ss, asks := buys.entries, view.bids, sells.entries, view.asks;
      forall i | 0 <= i < |bs|
        ensures EntryShows(bs[i], bids[i], owner, true)
      {
        assert old(EntryShows(bs[i], bids[i], owner, true));
      }
      forall i | 0 <= i < |ss|
        ensures EntryShows(ss[i], asks[i], owner, false)
      {
        assert old(EntryShows(ss[i], asks[i], owner, false));
      }
    }

    // ---- Resting ----

    /** The level a lookup of the price finds. */
    method Locate(bid: bool, price: real) returns (level: PriceLevel?, ghost r: nat)
      requires Trees() && Levels()
      ensures r == Rank(bid, Side(view, bid), price) == Rank(bid, Tree(bid).entries, price)
      ensures level != null <==> Hit(bid, Side(view, bid), price)
      ensures level != null <==> Hit(bid, Tree(bid).entries, price)
      ensures level != null ==>
        && r < |Tree(bid).entries| && Tree(bid).entries[r].value == level && level in owner
        && r < |Side(view, bid)|
        && Side(view, bid)[r].value == LevelSpec.Level(level.price, level.totalQty, level.orders)
    {
      ghost var es, ladder := Tree(bid).entries, Side(view, bid);
      assert forall i :: 0 <= i < |es| ==> EntryShows(es[i], ladder[i], owner, bid);
      SameRank(bid, es, ladder, price);
      r := Rank(bid, es, price);
      Sorted(bid);
      level := Tree(bid).Get(price);
    }

    /** The level at a price, created empty when there is none. */
    method LevelFor(bid: bool, price: real) returns (level: PriceLevel, ghost r: nat)
      requires Trees() && Levels()
      modifies this`view, this`owner, Tree(bid), Tree(bid).nodes
      ensures Trees() && Levels() && level in owner && fresh(owner.Keys - old(owner.Keys))
      ensures forall i :: 0 <= i < |Tree(bid).nodes| ==>
        Tree(bid).nodes[i] in old(Tree(bid).nodes) || fresh(Tree(bid).nodes[i])
      ensures r == Rank(bid, Side(old(view), bid), price) < |Tree(bid).entries| && Tree(bid).entries[r].value == level
      ensures view == WithSide(old(view), bid, Opened(bid, Side(old(view), bid), price))
    {
      ghost var grown := Opened(bid, Side(view, bid), price);
      var found;
      found, r := Locate(bid, price);
      if found != null {
        assert grown == Side(view, bid) && WithSide(view, bid, grown) == view;
        return found, r;
      }
      assert grown == Prices.Insert(bid, Side(view, bid), price, LevelSpec.Level(price, 0, []));
      level := AddLevel(bid, price);
    }

    /** `addOrderToBook`. */
    method AddOrderToBook(order: Order, qty: int)
      requires Valid()
      modifies this, Tree(order.side == SIDE_BUY), Tree(order.side == SIDE_BUY).nodes
      modifies owner.Keys
      ensures Valid() && view == Rest(old(view), order, qty) && fresh(owner.Keys - old(owner.Keys))
      ensures orderMap == old(orderMap)[order.id := order]
      ensures var q := if order.price in old(seqMaps) then old(seqMaps)[order.price] else [];
        seqMaps == old(seqMaps)[order.price := if |q| < QUEUE_CAPACITY then q + [order] else q]
      ensures var bid := order.side == SIDE_BUY;
        forall i :: 0 <= i < |Tree(bid).nodes| ==>
          Tree(bid).nodes[i] in old(Tree(bid).nodes) || fresh(Tree(bid).nodes[i])
    {
      RestInTree(order, qty);
      FileOrder(order);
      assert view == Rest(old(view), order, qty);
    }

    /** The order map and the queue of the price; a full queue drops the order. */
    method FileOrder(order: Order)
      requires Levels() && orderMap == view.orders && seqMaps == view.queues && IdsFiled(orderMap)
      modifies this`orderMap, this`seqMaps, this`view
      ensures Levels() && Trees() == old(Trees()) && IdsFiled(orderMap)
      ensures orderMap == view.orders == old(orderMap)[order.id := order] && seqMaps == view.queues
      ensures view == old(view).(orders := view.orders, queues := view.queues)
      ensures var q := if order.price in old(seqMaps) then old(seqMaps)[order.price] else [];
        seqMaps == old(seqMaps)[order.price := if |q| < QUEUE_CAPACITY then q + [order] else q]
    {
      orderMap := orderMap[order.id := order];
      var queue := if order.price in seqMaps then seqMaps[order.price] else [];
      seqMaps := seqMaps[order.price := if |queue| < QUEUE_CAPACITY then queue + [order] else queue];
      view := view.(orders := orderMap, queues := seqMaps);
    }

    method RestInTree(order: Order, qty: int)
      requires Trees() && Levels()
      modifies this`view, this`owner, Tree(order.side == SIDE_BUY), Tree(order.side == SIDE_BUY).nodes
      modifies owner.Keys
      ensures Trees() && Levels() && fresh(owner.Keys - old(owner.Keys))
      ensures var bid := order.side == SIDE_BUY;
        forall i :: 0 <= i < |Tree(bid).nodes| ==>
          Tree(bid).nodes[i] in old(Tree(bid).nodes) || fresh(Tree(bid).nodes[i])
      ensures var bid := order.side == SIDE_BUY;
        view == WithSide(old(view), bid, RestOn(bid, Side(old(view), bid), order, qty))
    {
      var bid := order.side == SIDE_BUY;
      ghost var ladder := Side(view, bid);
      var level, r := LevelFor(bid, order.price);
      OpenedThenAdded(bid, ladder, order, qty);
      Sorted(bid);
      AddToLevel(bid, r, level, order, qty);
    }

    method AddToLevel(bid: bool, ghost r: nat, level: PriceLevel, order: Order, qty: int)
      requires Levels() && Ordered(bid, Tree(bid).entries)
      requires r < |Tree(bid).entries| && level == Tree(bid).entries[r].value
      modifies this`view, level
      ensures Levels() && Trees() == old(Trees()) && r < |Side(old(view), bid)|
      ensures view == var es := Side(old(view), bid);
        WithSide(old(view), bid, es[r := Entry(es[r].key, LevelSpec.AddTo(es[r].value, order, qty))])
    {
      ghost var ladder := Side(view, bid);
      ghost var l := LevelSpec.AddTo(ladder[r].value, order, qty);
      Shown(bid, r);
      assert l == LevelSpec.Level(level.price, level.totalQty + qty, level.orders + [order]);
      SetLevel(bid, r, level, level.orders + [order], level.totalQty + qty);
    }

    // ---- Matching ----

    /** `getEarliestOrderFromLevel`: pops the front of the queue at a price. */
    method PopEarliest(price: real) returns (maker: Option<nat>)
      modifies this`seqMaps
      ensures price in old(seqMaps) && old(seqMaps)[price] != [] ==>
        maker == Some(old(seqMaps)[price][0].id) && seqMaps == old(seqMaps)[price := old(seqMaps)[price][1..]]
      ensures price !in old(seqMaps) || old(seqMaps)[price] == [] ==> maker == None && seqMaps == old(seqMaps)
    {
      maker := None;
      if price in seqMaps && seqMaps[price] != [] {
        maker := Some(seqMaps[price][0].id);
        seqMaps := seqMaps[price := seqMaps[price][1..]];
      }
    }

    /** `executeTrade`. */
    method ExecuteTrade(taker: Order, level: PriceLevel, qty: int) returns (trade: Trade)
      modifies this`seqMaps
      ensures trade.taker == taker.id && trade.price == level.price && trade.quantity == qty
      ensures level.price in old(seqMaps) && old(seqMaps)[level.price] != [] ==>
        && trade.maker == Some(old(seqMaps)[level.price][0].id)
        && seqMaps == old(seqMaps)[level.price := old(seqMaps)[level.price][1..]]
      ensures level.price !in old(seqMaps) || old(seqMaps)[level.price] == [] ==>
        trade.maker == None && seqMaps == old(seqMaps)
      ensures Levels() == old(Levels()) && Trees() == old(Trees())
    {
      var maker := PopEarliest(level.price);
      trade := Trade(taker.id, maker, level.price, qty);
    }

    /** `updatePriceLevel`, on the best level of a side: the total never drops below zero. */
    method UpdatePriceLevel(bid: bool, level: PriceLevel, delta: int)
      requires Levels() && Ordered(bid, Tree(bid).entries)
      requires Tree(bid).entries != [] && level == Tree(bid).entries[0].value
      modifies this`view, level
      ensures Levels() && Trees() == old(Trees()) && Side(old(view), bid) != []
      ensures level.totalQty == if old(level.totalQty) + delta < 0 then 0 else old(level.totalQty) + delta
      ensures view == var ladder := Side(old(view), bid);
        WithSide(old(view), bid, ladder[0 := ladder[0].(value := ladder[0].value.(totalQty := level.totalQty))])
    {
      ghost var ladder := Side(view, bid);
      Shown(bid, 0);
      SetLevel(bid, 0, level, level.orders, level.totalQty + delta);
      if level.totalQty < 0 {
        SetLevel(bid, 0, level, level.orders, 0);
      }
    }

    /** The best level of a side gives `m`: it leaves the book when that is all it has, otherwise its
        total is reduced, and reduced again. */
    method TakeFromBest(bid: bool, best: PriceLevel, m: int)
      requires Trees() && Levels() && Tree(bid).entries != [] && best == Tree(bid).entries[0].value
      requires 0 < m <= best.totalQty
      modifies this`seqMaps, this`view, Tree(bid), Tree(bid).nodes, best
      ensures Trees() && Levels() && Within(Tree(bid).nodes, old(Tree(bid).nodes))
      ensures seqMaps == if old(best.totalQty) == m then old(seqMaps) - {best.price} else old(seqMaps)
      ensures Side(old(view), bid) != [] && view == WithSide(old(view), bid, Taken(Side(old(view), bid), m))
    {
      ghost var ladder := Side(view, bid);
      Shown(bid, 0);
      Sorted(bid);
      SetLevel(bid, 0, best, best.orders, best.totalQty - m);
      ghost var half := Side(view, bid);
      if best.totalQty == 0 {
        assert half[1..] == ladder[1..];
        Shown(bid, 0);
        RemoveBest(bid, best.price);
        DropQueue(best.price);
      } else {
        UpdatePriceLevel(bid, best, -m);
        assert Side(view, bid) == Taken(ladder, m);
      }
    }

    method DropQueue(price: real)
      modifies this`seqMaps
      ensures Levels() == old(Levels()) && Trees() == old(Trees()) && seqMaps == old(seqMaps) - {price}
    {
      seqMaps := seqMaps - {price};
    }

    method RemoveBest(bid: bool, price: real)
      requires Trees() && Levels() && Tree(bid).entries != [] && Tree(bid).entries[0].key == price
      modifies this`view, Tree(bid), Tree(bid).nodes
      ensures Trees() && Levels() && Within(Tree(bid).nodes, old(Tree(bid).nodes))
      ensures Side(old(view), bid) != [] && view == WithSide(old(view), bid, Side(old(view), bid)[1..])
    {
      Shown(bid, 0);
      RankIs(bid, Tree(bid).entries, price, 0);
      FirstRemoved(bid, Side(view, bid), price);
      RemoveLevel(bid, price);
    }

    ghost method SyncQueues()
      modifies this`view
      ensures Levels() == old(Levels()) && Trees() == old(Trees()) && view == old(view).(queues := seqMaps)
    {
      view := view.(queues := seqMaps);
    }

    /** One trade with the best level of a side. */
    method FillBest(bid: bool, order: Order, best: PriceLevel, m: int) returns (trade: Trade)
      requires Trees() && Levels() && seqMaps == view.queues
      requires Tree(bid).entries != [] && best == Tree(bid).entries[0].value && 0 < m <= best.totalQty
      modifies this`seqMaps, this`view, Tree(bid), Tree(bid).nodes, best
      ensures Trees() && Levels() && seqMaps == view.queues
      ensures Within(Tree(bid).nodes, old(Tree(bid).nodes))
      ensures trade == Trade(order.id, Front(old(view.queues), best.price), best.price, m)
      ensures Side(old(view), bid) != []
      ensures view == var ladder := Side(old(view), bid);
        WithSide(old(view), bid, Taken(ladder, m)).(queues := Served(ladder, old(view.queues), m))
    {
      Shown(bid, 0);
      trade := ExecuteTrade(order, best, m);
      TakeFromBest(bid, best, m);
      SyncQueues();
    }

    /** One turn of a matching loop, once the best level is known to trade: the outcome of the whole
        match, with the trades `done` so far, stays as it was. */
    method FillOneMore(bid: bool, order: Order, best: PriceLevel, m: int, ghost rem: int, ghost done: seq<Trade>)
      returns (trade: Trade)
      requires Trees() && Levels() && seqMaps == view.queues
      requires Tree(bid).entries != [] && best == Tree(bid).entries[0].value
      requires Crosses(order, best.price) && rem > 0 && m == Lesser(rem, best.totalQty) > 0
      modifies this`seqMaps, this`view, Tree(bid), Tree(bid).nodes, best
      ensures Trees() && Levels() && seqMaps == view.queues
      ensures Within(Tree(bid).nodes, old(Tree(bid).nodes))
      ensures view == WithSide(old(view), bid, Side(view, bid)).(queues := view.queues)
      ensures Resume(done + [trade], Walk(false, order, Side(view, bid), view.queues, rem - m))
           == Resume(done, Walk(false, order, Side(old(view), bid), old(view.queues), rem))
    {
      Shown(bid, 0);
      ghost var ladder, queues := Side(view, bid), view.queues;
      trade := FillBest(bid, order, best, m);
      WalkOneMore(order, ladder, queues, rem, done, m, trade, Side(view, bid), view.queues);
    }

    /** The best ask and what it trades; none when the side is empty, or the order's limit
        or an empty level stops the loop. */
    method NextAsk(order: Order, rem: int) returns (bestAsk: PriceLevel?, m: int)
      requires Trees() && Levels() && order.side == SIDE_BUY && rem > 0
      ensures bestAsk == null ==> Halts(order, view.asks, rem)
      ensures bestAsk != null ==>
        && sells.entries != [] && bestAsk == sells.entries[0].value && bestAsk in owner
        && Crosses(order, bestAsk.price) && m == Lesser(rem, bestAsk.totalQty) > 0
    {
      m := 0;
      Sorted(false);
      var n := sells.Len();
      if n == 0 {
        return null, 0;
      }
      bestAsk := sells.MinPriceNode();
      Shown(false, 0);
      if order.kind == TYPE_LIMIT && order.price < bestAsk.price {
        return null, 0;
      }
      m := Lesser(rem, bestAsk.totalQty);
      if m <= 0 {
        return null, 0;
      }
    }

    /** One turn of the loop; `more` is false when the side is empty, or the limit or an empty level
        stops the loop. */
    method BuyTurn(order: Order, done: seq<Trade>, qty: int) returns (trades: seq<Trade>, rem: int, more: bool)
      requires Trees() && Levels() && seqMaps == view.queues && order.side == SIDE_BUY && qty > 0
      modifies this`seqMaps, this`view, sells, sells.nodes, owner.Keys
      ensures Trees() && Levels() && seqMaps == view.queues && Within(sells.nodes, old(sells.nodes))
      ensures view == old(view).(asks := view.asks, queues := view.queues)
      ensures Resume(trades, Walk(false, order, view.asks, view.queues, rem))
           == Resume(done, Walk(false, order, old(view.asks), old(view.queues), qty))
      ensures if more then rem < qty else rem == qty && Halts(order, view.asks, rem)
    {
      trades, rem, more := done, qty, false;
      var best, m := NextAsk(order, qty);
      if best == null {
        return;
      }
      var trade := FillOneMore(false, order, best, m, qty, done);
      trades, rem, more := done + [trade], qty - m, true;
    }

    /** `matchBuyOrder`. */
    method MatchBuyOrder(order: Order, qty: int) returns (trades: seq<Trade>, rem: int)
      requires Trees() && Levels() && seqMaps == view.queues && order.side == SIDE_BUY
      modifies this`seqMaps, this`view, sells, sells.nodes, owner.Keys
      ensures Trees() && Levels() && seqMaps == view.queues && Within(sells.nodes, old(sells.nodes))
      ensures var r := Walk(false, order, old(view.asks), old(view.queues), qty);
        trades == r.trades && rem == r.rem && view == old(view).(asks := r.ladder, queues := r.queues)
    {
      trades, rem := [], qty;
      var more := true;
      while rem > 0 && more
        invariant Trees() && Levels() && seqMaps == view.queues && Within(sells.nodes, old(sells.nodes))
        invariant view == old(view).(asks := view.asks, queues := view.queues)
        invariant Resume(trades, Walk(false, order, view.asks, view.queues, rem))
               == Resume([], Walk(false, order, old(view.asks), old(view.queues), qty))
        invariant !more ==> Halts(order, view.asks, rem)
        decreases rem, more
      {
        trades, rem, more := BuyTurn(order, trades, rem);
      }
      WalkStops(order, view.asks, view.queues, rem, trades);
    }

    /** The best bid and what it trades; none when the side is empty, or the order's limit
        or an empty level stops the loop. */
    method NextBid(order: Order, rem: int) returns (bestBid: PriceLevel?, m: int)
      requires Trees() && Levels() && order.side != SIDE_BUY && rem > 0
      ensures bestBid == null ==> Halts(order, view.bids, rem)
      ensures bestBid != null ==>
        && buys.entries != [] && bestBid == buys.entries[0].value && bestBid in owner
        && Crosses(order, bestBid.price) && m == Lesser(rem, bestBid.totalQty) > 0
    {
      m := 0;
      Sorted(true);
      var n := buys.Len();
      if n == 0 {
        return null, 0;
      }
      bestBid := buys.MaxPriceNode();
      Shown(true, 0);
      if order.kind == TYPE_LIMIT && order.price > bestBid.price {
        return null, 0;
      }
      m := Lesser(rem, bestBid.totalQty);
      if m <= 0 {
        return null, 0;
      }
    }

    /** One turn of the loop; `more` is false when the side is empty, or the limit or an empty level
        stops the loop. */
    method SellTurn(order: Order, done: seq<Trade>, qty: int) returns (trades: seq<Trade>, rem: int, more: bool)
      requires Trees() && Levels() && seqMaps == view.queues && order.side != SIDE_BUY && qty > 0
      modifies this`seqMaps, this`view, buys, buys.nodes, owner.Keys
      ensures Trees() && Levels() && seqMaps == view.queues && Within(buys.nodes, old(buys.nodes))
      ensures view == old(view).(bids := view.bids, queues := view.queues)
      ensures Resume(trades, Walk(false, order, view.bids, view.queues, rem))
           == Resume(done, Walk(false, order, old(view.bids), old(view.queues), qty))
      ensures if more then rem < qty else rem == qty && Halts(order, view.bids, rem)
    {
      trades, rem, more := done, qty, false;
      var best, m := NextBid(order, qty);
      if best == null {
        return;
      }
      var trade := FillOneMore(true, order, best, m, qty, done);
      trades, rem, more := done + [trade], qty - m, true;
    }

    /** `matchSellOrder`. */
    method MatchSellOrder(order: Order, qty: int) returns (trades: seq<Trade>, rem: int)
      requires Trees() && Levels() && seqMaps == view.queues && order.side != SIDE_BUY
      modifies this`seqMaps, this`view, buys, buys.nodes, owner.Keys
      ensures Trees() && Levels() && seqMaps == view.queues && Within(buys.nodes, old(buys.nodes))
      ensures var r := Walk(false, order, old(view.bids), old(view.queues), qty);
        trades == r.trades && rem == r.rem && view == old(view).(bids := r.ladder, queues := r.queues)
    {
      trades, rem := [], qty;
      var more := true;
      while rem > 0 && more
        invariant Trees() && Levels() && seqMaps == view.queues && Within(buys.nodes, old(buys.nodes))
        invariant view == old(view).(bids := view.bids, queues := view.queues)
        invariant Resume(trades, Walk(false, order, view.bids, view.queues, rem))
               == Resume([], Walk(false, order, old(view.bids), old(view.queues), qty))
        invariant !more ==> Halts(order, view.bids, rem)
        decreases rem, more
      {
        trades, rem, more := SellTurn(order, trades, rem);
      }
      WalkStops(order, view.bids, view.queues, rem, trades);
    }

    // ---- The operations ----

    /** `Match`: matches the order, and rests what a limit order has left. */
    method Match(order: Order) returns (trades: seq<Trade>, rem: int)
      requires Valid()
      modifies this, buys, sells, buys.nodes, sells.nodes, owner.Keys
      ensures Valid() && view == Books.Match(false, old(view), order) && fresh(owner.Keys - old(owner.Keys))
      ensures forall i :: 0 <= i < |buys.nodes| ==> buys.nodes[i] in old(buys.nodes) || fresh(buys.nodes[i])
      ensures forall i :: 0 <= i < |sells.nodes| ==> sells.nodes[i] in old(sells.nodes) || fresh(sells.nodes[i])
      ensures var r := Walked(false, old(view), order); trades == r.trades && rem == r.rem
    {
      OwnTreeIsOther(order.side == SIDE_BUY);
      trades, rem := Sweep(order);
      if rem > 0 && order.kind == TYPE_LIMIT {
        AddOrderToBook(order, rem);
      }
      CountVersion();
    }

    lemma OwnTreeIsOther(bid: bool)
      requires Trees()
      ensures Tree(bid) != Tree(!bid)
    {
      assert TreeOk(true) && TreeOk(false);
    }

    method Sweep(order: Order) returns (trades: seq<Trade>, rem: int)
      requires Valid()
      modifies this`seqMaps, this`view, Tree(order.side != SIDE_BUY), Tree(order.side != SIDE_BUY).nodes, owner.Keys
      ensures Valid() && view == Swept(old(view), order, Walked(false, old(view), order))
      ensures var bid := order.side != SIDE_BUY; Within(Tree(bid).nodes, old(Tree(bid).nodes))
      ensures var r := Walked(false, old(view), order); trades == r.trades && rem == r.rem
    {
      if order.side == SIDE_BUY {
        trades, rem := MatchBuyOrder(order, order.quantity);
      } else {
        trades, rem := MatchSellOrder(order, order.quantity);
      }
    }

    method CountVersion()
      requires Valid()
      modifies this`version, this`view
      ensures Valid() && view == old(view).(version := old(view).version + 1)
    {
      version := version + 1;
      view := view.(version := version);
    }

    /** `CancelOrder`: false when the order, its level, or its place in the level is not found. */
    method CancelOrder(orderID: nat) returns (ok: bool)
      requires Valid()
      modifies this, buys, sells, buys.nodes, sells.nodes, owner.Keys
      ensures Valid() && view == Cancels.Cancel(old(view), orderID) && ok == Cancels.Cancellable(old(view), orderID)
      ensures owner == old(owner) && Within(buys.nodes, old(buys.nodes)) && Within(sells.nodes, old(sells.nodes))
    {
      OwnTreeIsOther(true);
      ok := orderID in orderMap;
      if ok {
        ok := CancelResting(orderMap[orderID]);
      }
    }

    method CancelResting(order: Order) returns (ok: bool)
      requires Valid() && order.id in orderMap && orderMap[order.id] == order
      modifies this, Tree(order.side == SIDE_BUY), Tree(order.side == SIDE_BUY).nodes, owner.Keys
      ensures Valid() && view == Cancels.Cancel(old(view), order.id) && ok == Cancels.Cancellable(old(view), order.id)
      ensures var bid := order.side == SIDE_BUY; owner == old(owner) && Within(Tree(bid).nodes, old(Tree(bid).nodes))
    {
      var level, r, i := FindResting(order);
      ok := level != null;
      if ok {
        CancelAt(order, r, level, i);
      }
    }

    /** The order's level and its place there; null when the level, or the order in it, is not found. */
    method FindResting(order: Order) returns (level: PriceLevel?, ghost r: nat, i: nat)
      requires Valid() && order.id in orderMap && orderMap[order.id] == order
      ensures level != null <==> Cancels.Cancellable(view, order.id)
      ensures level != null ==> var bid := order.side == SIDE_BUY;
        && Hit(bid, Side(view, bid), order.price) && r == Rank(bid, Side(view, bid), order.price)
        && r < |Tree(bid).entries| && Tree(bid).entries[r].value == level && Hit(bid, Tree(bid).entries, order.price)
        && Side(view, bid)[r].value == LevelSpec.Level(level.price, level.totalQty, level.orders)
        && level in owner && i == Find(level.orders, order.id) < |level.orders|
    {
      i := 0;
      level, r := Locate(order.side == SIDE_BUY, order.price);
      if level != null {
        i := IndexOf(level.orders, order.id);
        if i == |level.orders| {
          level := null;
        }
      }
    }

    method IndexOf(orders: seq<Order>, id: nat) returns (i: nat)
      ensures i == Find(orders, id)
    {
      i := 0;
      while i < |orders| && orders[i].id != id
        invariant 0 <= i <= |orders| && forall j :: 0 <= j < i ==> orders[j].id != id
      {
        i := i + 1;
      }
      if i < |orders| {
        FindIs(orders, id, i);
      } else {
        FindMisses(orders, id);
      }
    }

    /** The cancellation once the order is found at position `i` of its level. */
    method CancelAt(order: Order, ghost r: nat, level: PriceLevel, i: nat)
      requires Valid() && order.id in orderMap && orderMap[order.id] == order
      requires var bid := order.side == SIDE_BUY;
        && Hit(bid, Side(view, bid), order.price) && r == Rank(bid, Side(view, bid), order.price)
        && r < |Tree(bid).entries| && Tree(bid).entries[r].value == level && Hit(bid, Tree(bid).entries, order.price)
        && Side(view, bid)[r].value == LevelSpec.Level(level.price, level.totalQty, level.orders)
      requires i == Find(level.orders, order.id) < |level.orders|
      modifies this, Tree(order.side == SIDE_BUY), Tree(order.side == SIDE_BUY).nodes, level
      ensures Valid() && view == Cancels.Cancel(old(view), order.id) && Cancels.Cancellable(old(view), order.id)
      ensures var bid := order.side == SIDE_BUY; owner == old(owner) && Within(Tree(bid).nodes, old(Tree(bid).nodes))
    {
      ghost var b := view;
      var gone := TakeOut(order.side == SIDE_BUY, order, r, level, i);
      ghost var b1 := view;
      Unfile(order, gone);
      CancelIs(order.side == SIDE_BUY, b, order, b1, gone, view);
    }

    method TakeOut(bid: bool, order: Order, ghost r: nat, level: PriceLevel, i: nat) returns (gone: bool)
      requires Trees() && Levels()
      requires Hit(bid, Side(view, bid), order.price) && r == Rank(bid, Side(view, bid), order.price)
      requires r < |Tree(bid).entries| && Tree(bid).entries[r].value == level
      requires Hit(bid, Tree(bid).entries, order.price)
      requires Side(view, bid)[r].value == LevelSpec.Level(level.price, level.totalQty, level.orders)
      requires i == Find(level.orders, order.id) < |level.orders|
      modifies this`view, Tree(bid), Tree(bid).nodes, level
      ensures Trees() && Levels() && Within(Tree(bid).nodes, old(Tree(bid).nodes))
      ensures gone == Gone(bid, Side(old(view), bid), order)
      ensures view == var ladder' := Lightened(bid, Side(old(view), bid), order);
        WithSide(old(view), bid, if gone then Prices.Remove(bid, ladder', order.price) else ladder')
    {
      Sorted(bid);
      ghost var b := view;
      Lighten(bid, order, r, level, i);
      ghost var b1 := view;
      gone := RemoveIfEmpty(bid, order.price, level);
      TakenOutIs(bid, b, order, r, b1, gone, view);
    }

    /** Takes the level found at a price out of a side if nothing is left of it. */
    method RemoveIfEmpty(bid: bool, price: real, level: PriceLevel) returns (gone: bool)
      requires Trees() && Levels() && Hit(bid, Tree(bid).entries, price)
      modifies this`view, Tree(bid), Tree(bid).nodes
      ensures Trees() && Levels() && Within(Tree(bid).nodes, old(Tree(bid).nodes))
      ensures gone == (level.totalQty == 0)
      ensures view ==
        if gone then WithSide(old(view), bid, Prices.Remove(bid, Side(old(view), bid), price)) else old(view)
    {
      gone := level.totalQty == 0;
      if gone {
        RemoveLevel(bid, price);
      }
    }

    /** The level without the order and its quantity. */
    method Lighten(bid: bool, order: Order, ghost r: nat, level: PriceLevel, i: nat)
      requires Levels() && Ordered(bid, Tree(bid).entries)
      requires r < |Tree(bid).entries| && Tree(bid).entries[r].value == level && r < |Side(view, bid)|
      requires i == Find(level.orders, order.id) < |level.orders|
      modifies this`view, level
      ensures Levels() && Trees() == old(Trees())
      ensures level.totalQty == LevelSpec.Left(Side(old(view), bid)[r].value, order).totalQty
      ensures view == var ladder := Side(old(view), bid);
        WithSide(old(view), bid, ladder[r := Entry(ladder[r].key, LevelSpec.Left(ladder[r].value, order))])
    {
      Shown(bid, r);
      var orders := level.orders[..i] + level.orders[i + 1..];
      assert LevelSpec.Left(Side(view, bid)[r].value, order)
          == LevelSpec.Level(level.price, level.totalQty - order.quantity, orders);
      SetLevel(bid, r, level, orders, level.totalQty - order.quantity);
    }

    /** Drops the queue of a level that is gone, and the order from the order map. */
    method Unfile(order: Order, gone: bool)
      requires Levels() && IdsFiled(orderMap)
      requires view.orders == orderMap && view.queues == seqMaps && view.version == version
      modifies this`orderMap, this`seqMaps, this`version, this`view
      ensures Levels() && Trees() == old(Trees()) && IdsFiled(orderMap)
      ensures view.orders == orderMap && view.queues == seqMaps && view.version == version
      ensures view == Book(old(view).bids, old(view).asks, old(view).orders - {order.id},
                           if gone then old(view).queues - {order.price} else old(view).queues, old(view).version + 1)
    {
      if gone {
        seqMaps := seqMaps - {order.price};
      }
      orderMap := orderMap - {order.id};
      version := version + 1;
      view := view.(orders := orderMap, queues := seqMaps, version := version);
    }

    // ---- Queries ----

    method GetBestBid() returns (price: real, qty: int)
      requires Valid()
      ensures view.bids == [] ==> price == 0.0 && qty == 0
      ensures view.bids != [] ==> price == view.bids[0].key && qty == view.bids[0].value.totalQty
    {
      Sorted(true);
      var best := buys.MaxPriceNode();
      if best == null {
        return 0.0, 0;
      }
      Shown(true, 0);
      return best.price, best.totalQty;
    }

    method GetBestAsk() returns (price: real, qty: int)
      requires Valid()
      ensures view.asks == [] ==> price == 0.0 && qty == 0
      ensures view.asks != [] ==> price == view.asks[0].key && qty == view.asks[0].value.totalQty
    {
      Sorted(false);
      var best := sells.MinPriceNode();
      if best == null {
        return 0.0, 0;
      }
      Shown(false, 0);
      return best.price, best.totalQty;
    }

    /** The best levels of a side, as a snapshot shows them. */
    method GetTopLevels(bid: bool, depth: int) returns (rows: seq<Row>)
      requires Valid()
      ensures |rows| == if depth < 0 then 0 else if depth < |Side(view, bid)| then depth else |Side(view, bid)|
      ensures forall i :: 0 <= i < |rows| ==>
        var l := Side(view, bid)[i].value; rows[i] == Row(l.price, l.totalQty, |l.orders|)
    {
      Sorted(bid);
      assert SideShows(Tree(bid).entries, Side(view, bid), owner, bid);
      var levels := Tree(bid).GetTopLevels(depth);
      rows := [];
      for i := 0 to |levels|
        invariant |rows| == i
        invariant forall j :: 0 <= j < i ==>
          var l := Side(view, bid)[j].value; rows[j] == Row(l.price, l.totalQty, |l.orders|)
      {
        Shown(bid, i);
        rows := rows + [Row(levels[i].price, levels[i].totalQty, |levels[i].orders|)];
      }
    }

    /** The integrity check of both sides: it refuses every book whose best bid is above the tolerance. */
    method ValidateOrderBooks() returns (ok: bool)
      requires Valid()
      ensures ok <==>
        (view.bids == [] || view.bids[0].key <= EPSILON) && (view.asks == [] || view.asks[0].key >= -EPSILON)
    {
      Sorted(true);
      Sorted(false);
      var validBuys := buys.Validate();
      var validSells := sells.Validate();
      if view.bids != [] {
        Shown(true, 0);
      }
      if view.asks != [] {
        Shown(false, 0);
      }
      ok := validBuys && validSells;
    }
  }

  method ApplyOne(book: HybridOrderBook, c: BookRuns.Cmd)
    requires book.Valid()
    modifies book, book.buys, book.sells, book.buys.nodes, book.sells.nodes, book.owner.Keys
    ensures book.Valid() && book.view == BookRuns.Step(false, old(book.view), c)
    ensures fresh(book.owner.Keys - old(book.owner.Keys))
    ensures forall i :: 0 <= i < |book.buys.nodes| ==>
      book.buys.nodes[i] in old(book.buys.nodes) || fresh(book.buys.nodes[i])
    ensures forall i :: 0 <= i < |book.sells.nodes| ==>
      book.sells.nodes[i] in old(book.sells.nodes) || fresh(book.sells.nodes[i])
  {
    match c
    case Place(o) => var trades, rem := book.Match(o);
    case CancelId(id) => var ok := book.CancelOrder(id);
  }

  /** A book driven through any run of orders and cancellations holds what `BookRuns.Run` computes, so that the
      theorems of `BookRuns` and `FillFreeRuns` speak about it. */
  method ApplyAll(cs: seq<BookRuns.Cmd>) returns (book: HybridOrderBook)
    ensures book.Valid() && book.view == BookRuns.Run(false, cs)
    ensures fresh(book) && fresh(book.buys) && fresh(book.sells) && fresh(book.owner.Keys)
    ensures forall k :: 0 <= k < |book.buys.nodes| ==> fresh(book.buys.nodes[k])
    ensures forall k :: 0 <= k < |book.sells.nodes| ==> fresh(book.sells.nodes[k])
  {
    if cs == [] {
      book := new HybridOrderBook();
    } else {
      book := ApplyAll(cs[..|cs| - 1]);
      ApplyOne(book, cs[|cs| - 1]);
    }
  }
}
