/** The skip list of price levels. `entries` is its abstract value: the (price, level) pairs
    in level-0 order. Each method is proved to act on `entries` as the functions of `Prices`
    say, for every outcome of the random height. */
module SkipTrees {
  import opened Types
  import opened Prices
  import opened SkipNodes
  import opened TreeQueries

  /** How many of the first `max` coins show heads before the first tails. */
  function Heads(coins: nat -> bool, max: nat): (h: nat)
    ensures h <= max && forall k :: 0 <= k < h ==> coins(k)
    ensures h < max ==> !coins(h)
  {
    if max == 0 then 0
    else
      var h := Heads(coins, max - 1);
      if h == max - 1 && coins(h) then max else h
  }

  lemma HeadsIs(coins: nat -> bool, max: nat, h: nat)
    requires h <= max && forall k :: 0 <= k < h ==> coins(k)
    requires h < max ==> !coins(h)
    ensures Heads(coins, max) == h
  {
  }

  /** Every height up to `max` comes out for some coins. */
  lemma EveryHeightComesOut(max: nat, h: nat)
    requires h <= max
    ensures exists coins: nat -> bool :: Heads(coins, max) == h
  {
    var coins: nat -> bool := k => k < h;
    HeadsIs(coins, max, h);
  }

  class SkipTree {
    const header: SkipNode
    const maxLevel: nat
    const reverse: bool
    var level: nat
    var size: nat

    ghost var nodes: seq<SkipNode>  // the header, then the level-0 chain
    ghost var entries: seq<Entry<PriceLevel>>

    ghost predicate Valid()
      reads this, nodes
    {
      && |nodes| == size + 1 && nodes[0] == header && header.level == maxLevel && header.key == 0.0
      && Represents(nodes, entries, level, reverse)
    }

    /** The shape that every operation keeps: each node has one slot more than its height, each chain of pointers from
        the header is the subsequence of level 0 of the tall enough nodes, the header's slots above `level` are
        nil, and `size` counts the nodes of level 0. */
    lemma Shape(i: nat)
      requires Valid() && i <= maxLevel
      ensures nodes != [] && nodes[0] == header && size == |nodes| - 1 == |entries|
      ensures forall n :: n in nodes ==> |n.forward| == n.level + 1
      ensures Chain(nodes, 0, i) == TallFrom(nodes, 1, i)
      ensures i > level ==> header.forward[i] == null
    {
      ChainIsSubsequence(nodes, 0, i);
      if i > level {
        UnusedSlotsAreNull(nodes, entries, level, reverse, i);
      }
    }

    constructor (maxLevel: nat, reverse: bool)
      ensures Valid() && entries == [] && fresh(nodes)
      ensures this.maxLevel == maxLevel && this.reverse == reverse
    {
      var h := new SkipNode(0.0, null, maxLevel);
      header := h;
      this.maxLevel := maxLevel;
      this.reverse := reverse;
      level := 0;
      size := 0;
      nodes := [h];
      entries := [];
    }

    /** The height of a new node: the number of heads before the first tails, up to `maxLevel`. */
    method RandomLevel(coins: nat -> bool) returns (lvl: nat)
      ensures lvl == Heads(coins, maxLevel) <= maxLevel
    {
      lvl := 0;
      while coins(lvl) && lvl < maxLevel
        invariant lvl <= maxLevel && forall k :: 0 <= k < lvl ==> coins(k)
        decreases maxLevel - lvl
      {
        lvl := lvl + 1;
      }
      HeadsIs(coins, maxLevel, lvl);
    }

    /** The descent shared by `Insert` and `Remove`: on each chain, the last node before `price`. */
    method FindPredecessors(price: real) returns (update: seq<SkipNode?>, current: SkipNode, ghost us: seq<nat>)
      requires Valid()
      ensures Path(nodes, update, us, level, Rank(reverse, entries, price)) && |us| == maxLevel + 1
      ensures |update| == maxLevel + 1 && current == nodes[Rank(reverse, entries, price)]
    {
      ghost var pos := Rank(reverse, entries, price);
      RankInside(nodes, entries, level, reverse, price);
      update := seq(maxLevel + 1, _ => null);
      us := seq(maxLevel + 1, _ => 0);
      current := header;
      ghost var c: nat := 0;
      var i: int := level;
      while i >= 0
        invariant -1 <= i <= level
        invariant |update| == |us| == maxLevel + 1
        invariant c <= pos && nodes[c] == current && current.level >= i
        invariant i < level ==> IsPred(nodes, c, i + 1, pos)
        invariant PathFrom(nodes, update, us, i + 1, level, pos)
        decreases i
      {
        update, current, us, c := Record(update, current, i, price, us, c);
        i := i - 1;
      }
      BottomPred(nodes, c, pos);
    }

    /** One level of the descent, recorded in the path. */
    method Record(path: seq<SkipNode?>, start: SkipNode, i: nat, price: real, ghost ps: seq<nat>, ghost at: nat)
      returns (update: seq<SkipNode?>, current: SkipNode, ghost us: seq<nat>, ghost c: nat)
      requires Valid() && at <= Rank(reverse, entries, price) && nodes[at] == start && i <= start.level && i <= level
      requires |path| == |ps| == maxLevel + 1
      requires PathFrom(nodes, path, ps, i + 1, level, Rank(reverse, entries, price))
      ensures IsPred(nodes, c, i, Rank(reverse, entries, price)) && current == nodes[c]
      ensures |update| == |us| == maxLevel + 1
      ensures PathFrom(nodes, update, us, i, level, Rank(reverse, entries, price))
    {
      current, c := Advance(start, i, price, at);
      PathDown(nodes, path, ps, i, level, Rank(reverse, entries, price), c);
      update, us := path[i := current], ps[i := c];
    }

    /** The descent, and the node of `price` if the next one on level 0 is within the tolerance. */
    method Find(price: real) returns (update: seq<SkipNode?>, target: SkipNode?, ghost us: seq<nat>)
      requires Valid()
      ensures Path(nodes, update, us, level, Rank(reverse, entries, price)) && |update| == |us| == maxLevel + 1
      ensures target != null <==> Hit(reverse, entries, price)
      ensures var next := Rank(reverse, entries, price) + 1;
        target != null ==> next < |nodes| && target == nodes[next]
    {
      var current;
      update, current, us := FindPredecessors(price);
      Landing(nodes, entries, level, reverse, price);
      target := current.forward[0];
      if target != null && Compare(reverse, target.key, price) != 0 {
        target := null;
      }
    }

    /** One level of the descent: follows chain `i` while the next key comes before `price`. */
    method Advance(start: SkipNode, i: nat, price: real, ghost at: nat) returns (current: SkipNode, ghost c: nat)
      requires Valid() && at <= Rank(reverse, entries, price) && nodes[at] == start && i <= start.level
      ensures IsPred(nodes, c, i, Rank(reverse, entries, price)) && current == nodes[c]
    {
      NodesBefore(nodes, entries, level, reverse, price);
      current, c := start, at;
      Follow(nodes, entries, level, reverse, c, i);
      while current.forward[i] != null && Compare(reverse, current.forward[i].key, price) < 0
        invariant c <= Rank(reverse, entries, price) && nodes[c] == current && i <= current.level
        invariant i < |current.forward| && current.forward[i] == At(nodes, Next(nodes, c, i))
        decreases |nodes| - c
      {
        c := Next(nodes, c, i);
        current := current.forward[i];
        Follow(nodes, entries, level, reverse, c, i);
      }
    }

    /** The same descent without recording the path, as the read-only searches do it. */
    method Seek(price: real) returns (current: SkipNode)
      requires Valid()
      ensures current == nodes[Rank(reverse, entries, price)]
    {
      current := header;
      ghost var c: nat := 0;
      var i: int := level;
      while i >= 0
        invariant -1 <= i <= level
        invariant c <= Rank(reverse, entries, price) && nodes[c] == current && current.level >= i
        invariant i < level ==> IsPred(nodes, c, i + 1, Rank(reverse, entries, price))
        decreases i
      {
        current, c := Advance(current, i, price, c);
        i := i - 1;
      }
      BottomPred(nodes, c, Rank(reverse, entries, price));
    }

    /** `Insert`, for any draws of the random height. */
    method Insert(price: real, lvl: PriceLevel)
      requires Valid()
      modifies this, nodes
      ensures Valid() && fresh(set n | n in nodes && n !in old(nodes))
      ensures entries == Prices.Insert(reverse, old(entries), price, lvl)
    {
      var coins: nat -> bool := *;
      InsertDrawn(price, lvl, coins);
    }

    /** `Insert` for given draws: a price that is stored keeps its node, any other gets a node of the drawn height at
        its place on level 0, and the level in use rises to that height. */
    method InsertDrawn(price: real, lvl: PriceLevel, coins: nat -> bool)
      requires Valid()
      modifies this, nodes
      ensures Valid() && fresh(set n | n in nodes && n !in old(nodes))
      ensures entries == Prices.Insert(reverse, old(entries), price, lvl)
      ensures old(Hit(reverse, entries, price)) ==> nodes == old(nodes) && level == old(level)
      ensures !old(Hit(reverse, entries, price)) ==>
        Grown(old(nodes), old(level), old(Rank(reverse, entries, price)) + 1, Heads(coins, maxLevel))
    {
      var update, target, us := Find(price);
      if target != null {
        ReplaceValue(price, lvl, target);
      } else {
        InsertNode(price, lvl, update, us, coins);
      }
    }

    /** The level-0 list is `ns` with one node more, of height `h` at position `q`. */
    ghost predicate Grown(ns: seq<SkipNode>, l: nat, q: nat, h: nat)
      reads this
    {
      q < |nodes| && Spliced(ns, nodes, q, nodes[q]) && nodes[q].level == h && level == Max(l, h)
    }

    /** The first branch of `Insert`: the price is stored, and its node gets the new value. */
    method ReplaceValue(price: real, lvl: PriceLevel, node: SkipNode)
      requires Valid() && Hit(reverse, entries, price) && Rank(reverse, entries, price) + 1 < |nodes|
      requires node == nodes[Rank(reverse, entries, price) + 1]
      modifies this`level, this`size, this`nodes, this`entries, node`value
      ensures Valid() && nodes == old(nodes) && level == old(level)
      ensures entries == Prices.Insert(reverse, old(entries), price, lvl)
    {
      Revalue(nodes, entries, level, reverse, node, Rank(reverse, entries, price), lvl);
      Adopt(level, size, nodes, Prices.Insert(reverse, entries, price, lvl));
    }

    /** The second half of `Insert`: a node for a price that is not stored. */
    method InsertNode(price: real, lvl: PriceLevel, path: seq<SkipNode?>, ghost at: seq<nat>, coins: nat -> bool)
      requires Valid() && !Hit(reverse, entries, price)
      requires Path(nodes, path, at, level, Rank(reverse, entries, price)) && |path| == |at| == maxLevel + 1
      modifies this`level, this`size, this`nodes, this`entries, (set n: SkipNode | n in nodes)`forward
      ensures Valid() && fresh(set n | n in nodes && n !in old(nodes))
      ensures entries == Prices.Insert(reverse, old(entries), price, lvl)
      ensures Grown(old(nodes), old(level), old(Rank(reverse, entries, price)) + 1, Heads(coins, maxLevel))
    {
      ghost var pos := Rank(reverse, entries, price);
      assert pos < |nodes| by {
        RankInside(nodes, entries, level, reverse, price);
      }
      var newLevel, update, us := DrawHeight(path, at, pos, coins);
      Attach(price, lvl, newLevel, update, us);
    }

    /** A height, and the path up to it. */
    method DrawHeight(path: seq<SkipNode?>, ghost at: seq<nat>, ghost pos: nat, coins: nat -> bool)
      returns (newLevel: nat, update: seq<SkipNode?>, ghost us: seq<nat>)
      requires Valid() && pos < |nodes| && Path(nodes, path, at, level, pos) && |path| == |at| == maxLevel + 1
      ensures newLevel == Heads(coins, maxLevel) <= maxLevel && Path(nodes, update, us, newLevel, pos)
    {
      newLevel := RandomLevel(coins);
      update, us := RaisePath(path, at, newLevel, pos);
    }

    /** The new node, of the given height, linked in. */
    method Attach(price: real, lvl: PriceLevel, newLevel: nat, update: seq<SkipNode?>, ghost us: seq<nat>)
      requires Valid() && !Hit(reverse, entries, price) && newLevel <= maxLevel
      requires Path(nodes, update, us, newLevel, Rank(reverse, entries, price))
      modifies this`level, this`size, this`nodes, this`entries, (set n: SkipNode | n in nodes)`forward
      ensures Valid() && fresh(set n | n in nodes && n !in old(nodes))
      ensures entries == Prices.Insert(reverse, old(entries), price, lvl)
      ensures Grown(old(nodes), old(level), old(Rank(reverse, entries, price)) + 1, newLevel)
    {
      ghost var pos := Rank(reverse, entries, price);
      var newNode := new SkipNode(price, lvl, newLevel);
      ghost var ns := LinkNode(nodes, entries, level, reverse, newNode, update, us, pos, lvl);
      Adopt(Max(level, newLevel), size + 1, ns, Prices.Insert(reverse, entries, price, lvl));
    }

    /** Records the new level and size, and the node list and entries they go with. */
    method Adopt(newLevel: nat, newSize: nat, ghost ns: seq<SkipNode>, ghost es: seq<Entry<PriceLevel>>)
      requires header.level == maxLevel && header.key == 0.0 && |ns| == newSize + 1 && ns[0] == header
      requires Represents(ns, es, newLevel, reverse)
      modifies this`level, this`size, this`nodes, this`entries
      ensures Valid() && nodes == ns && entries == es && level == newLevel
    {
      level, size := newLevel, newSize;
      nodes, entries := ns, es;
    }

    /** On chains not yet in use the header precedes every position. */
    method RaisePath(path: seq<SkipNode?>, ghost at: seq<nat>, newLevel: nat, ghost pos: nat)
      returns (update: seq<SkipNode?>, ghost us: seq<nat>)
      requires Valid() && newLevel <= maxLevel && pos < |nodes|
      requires Path(nodes, path, at, level, pos) && |path| == |at| == maxLevel + 1
      ensures Path(nodes, update, us, newLevel, pos)
    {
      update, us := path, at;
      var i := level + 1;
      while i <= newLevel
        invariant level + 1 <= i <= Max(level, newLevel) + 1
        invariant |update| == |us| == maxLevel + 1
        invariant Path(nodes, update, us, i - 1, pos)
      {
        HeaderPrecedes(nodes, level, i, pos);
        PathUp(nodes, update, us, i - 1, pos, 0);
        update := update[i := header];
        us := us[i := 0];
        i := i + 1;
      }
    }

    /** The level-0 list is `ns` without its node at position `q`. */
    ghost predicate Shrunk(ns: seq<SkipNode>, q: nat)
      reads this
    {
      q < |ns| && Spliced(nodes, ns, q, ns[q])
    }

    method Remove(price: real)
      requires Valid()
      modifies this, nodes
      ensures Valid() && forall n :: n in nodes ==> n in old(nodes)
      ensures entries == Prices.Remove(reverse, old(entries), price)
      ensures !old(Hit(reverse, entries, price)) ==> nodes == old(nodes) && level == old(level)
      ensures old(Hit(reverse, entries, price)) ==> Shrunk(old(nodes), old(Rank(reverse, entries, price)) + 1)
    {
      var update, target, us := Find(price);
      if target == null {
        return;
      }
      RemoveNode(price, target, update, us);
    }

    /** The second half of `Remove`: takes the node of a stored price out of every chain. */
    method RemoveNode(price: real, target: SkipNode, update: seq<SkipNode?>, ghost us: seq<nat>)
      requires Valid() && Hit(reverse, entries, price)
      requires Path(nodes, update, us, level, Rank(reverse, entries, price)) && |update| == |us| == maxLevel + 1
      requires Rank(reverse, entries, price) + 1 < |nodes| && target == nodes[Rank(reverse, entries, price) + 1]
      modifies this`level, this`size, this`nodes, this`entries, (set n: SkipNode | n in nodes)`forward
      ensures Valid() && forall n :: n in nodes ==> n in old(nodes)
      ensures entries == Prices.Remove(reverse, old(entries), price)
      ensures Shrunk(old(nodes), old(Rank(reverse, entries, price)) + 1)
    {
      ghost var pos := Rank(reverse, entries, price);
      ghost var ns, es := Without(nodes, pos + 1), entries[..pos] + entries[pos + 1..];
      assert es == Prices.Remove(reverse, entries, price);
      UnlinkNode(nodes, entries, level, reverse, target, update, us, pos);
      UnsplicedNodes(nodes, pos + 1);
      Settle(ns, es);
    }

    /** The end of `RemoveNode`: the level and the size of a tree with one node less. */
    method Settle(ghost ns: seq<SkipNode>, ghost es: seq<Entry<PriceLevel>>)
      requires header.level == maxLevel && header.key == 0.0 && 0 < |ns| == size && ns[0] == header
      requires Shaped(ns, es, level, reverse)
      modifies this`level, this`size, this`nodes, this`entries
      ensures Valid() && nodes == ns && entries == es
    {
      var newLevel := LowerLevel(ns, es);
      Adopt(newLevel, size - 1, ns, es);
    }

    /** Drops the top chains that are no longer in use. */
    method LowerLevel(ghost ns: seq<SkipNode>, ghost es: seq<Entry<PriceLevel>>) returns (newLevel: nat)
      requires Shaped(ns, es, level, reverse) && ns[0] == header
      ensures Represents(ns, es, newLevel, reverse)
    {
      newLevel := level;
      while newLevel > 0 && header.forward[newLevel] == null
        invariant Shaped(ns, es, newLevel, reverse)
      {
        ChainUnused(ns, newLevel);
        newLevel := newLevel - 1;
      }
    }

    method Get(price: real) returns (lvl: PriceLevel?)
      requires Valid()
      ensures lvl == match Prices.Get(reverse, entries, price) case Some(v) => v case None => null
    {
      var current := Seek(price);
      Landing(nodes, entries, level, reverse, price);
      var next := current.forward[0];
      if next != null && Compare(reverse, next.key, price) == 0 {
        return next.value;
      }
      return null;
    }

    method Len() returns (n: nat)
      requires Valid()
      ensures n == |entries|
    {
      n := size;
    }

    /** Empties the tree: the header's slots are cleared one by one. */
    method Clear()
      requires Valid()
      modifies this, nodes
      ensures Valid() && entries == [] && nodes == [header]
    {
      var i := 0;
      while i <= maxLevel
        invariant 0 <= i <= maxLevel + 1
        invariant |header.forward| == maxLevel + 1 && header.level == maxLevel
        invariant forall j :: 0 <= j < i ==> header.forward[j] == null
        modifies header`forward
      {
        header.forward := header.forward[i := null];
        i := i + 1;
      }
      Adopt(0, 0, [header], []);
    }

    /** Follows every chain to its end, from the top one down. */
    method LastNode() returns (current: SkipNode)
      requires Valid()
      ensures current == nodes[|nodes| - 1]
    {
      current := header;
      ghost var c: nat := 0;
      var i: int := level;
      while i >= 0
        invariant -1 <= i <= level
        invariant c < |nodes| && nodes[c] == current && current.level >= i
        invariant i < level ==> Next(nodes, c, i + 1) == |nodes|
        decreases i
      {
        Follow(nodes, entries, level, reverse, c, i);
        while current.forward[i] != null
          invariant c < |nodes| && nodes[c] == current && current.level >= i
          invariant i < |current.forward| && current.forward[i] == At(nodes, Next(nodes, c, i))
          decreases |nodes| - c
        {
          c := Next(nodes, c, i);
          current := current.forward[i];
          Follow(nodes, entries, level, reverse, c, i);
        }
        i := i - 1;
      }
      NextIs(nodes, c, 0, c + 1);
    }

    method MinPriceNode() returns (lvl: PriceLevel?)
      requires Valid()
      ensures lvl == null <==> entries == []
      ensures entries != [] ==>
        var k := if reverse then |entries| - 1 else 0;
        lvl == entries[k].value && forall j :: 0 <= j < |entries| ==> entries[k].key <= entries[j].key
    {
      forall j | 0 <= j < |entries| {
        EndsAreExtreme(reverse, entries, j);
      }
      if size == 0 {
        return null;
      }
      if reverse {
        var last := LastNode();
        Successor(nodes, entries, level, reverse, |nodes| - 1);
        return last.value;
      }
      Successor(nodes, entries, level, reverse, 0);
      Successor(nodes, entries, level, reverse, 1);
      var first := header.forward[0];
      if first != null {
        return first.value;
      }
      return null;
    }

    method MaxPriceNode() returns (lvl: PriceLevel?)
      requires Valid()
      ensures lvl == null <==> entries == []
      ensures entries != [] ==>
        var k := if reverse then 0 else |entries| - 1;
        lvl == entries[k].value && forall j :: 0 <= j < |entries| ==> entries[j].key <= entries[k].key
    {
      forall j | 0 <= j < |entries| {
        EndsAreExtreme(reverse, entries, j);
      }
      if size == 0 {
        return null;
      }
      if reverse {
        Successor(nodes, entries, level, reverse, 0);
        Successor(nodes, entries, level, reverse, 1);
        var first := header.forward[0];
        if first != null {
          return first.value;
        }
        return null;
      }
      var last := LastNode();
      Successor(nodes, entries, level, reverse, |nodes| - 1);
      return last.value;
    }

    /** The first `limit` levels in tree order; both orientations walk the same chain. */
    method GetTopLevels(limit: int) returns (levels: seq<PriceLevel>)
      requires Valid()
      ensures levels == Top(entries, if limit < 0 then 0 else if limit < |entries| then limit else |entries|)
    {
      levels := [];
      var current := Following(header, 0);
      var count := 0;
      while current != null && count < limit
        invariant 0 <= count <= |entries| && count <= if limit < 0 then 0 else limit
        invariant current == At(nodes, count + 1)
        invariant levels == Top(entries, count)
        decreases |entries| - count
      {
        levels := levels + [Shown(current, count).value];
        current := Following(current, count + 1);
        count := count + 1;
      }
    }

    /** The entry the level-0 cursor shows when it stands on entry `m`. */
    function Shown(current: SkipNode, ghost m: nat): (e: Entry<PriceLevel>)
      requires Valid() && m < |entries| && current == nodes[m + 1]
      reads this, nodes
      ensures e == entries[m]
    {
      Successor(nodes, entries, level, reverse, m + 1);
      Entry(current.key, current.value)
    }

    /** Where the level-0 cursor goes from the node before entry `m`. */
    function Following(current: SkipNode, ghost m: nat): (next: SkipNode?)
      requires Valid() && m <= |entries| && current == nodes[m]
      reads this, nodes
      ensures next == At(nodes, m + 1)
    {
      Successor(nodes, entries, level, reverse, m);
      current.forward[0]
    }

    /** The level-0 walk of the `Range` family, from the node after position `k`, while keys stay within `bound`. */
    method Walk(start: SkipNode, ghost k: nat, bound: Option<real>, fn: Callback)
      returns (visited: seq<Entry<PriceLevel>>, ghost m: nat)
      requires Valid() && k <= |entries| && start == nodes[k]
      ensures Passes(reverse, entries, k, m, bound, fn) && Stops(reverse, entries, k, m, bound, fn)
      ensures visited == entries[k..m]
    {
      visited, m := [], k;
      var current := Following(start, k);
      while current != null && Admits(reverse, current.key, bound)
        invariant GoesOn(reverse, entries, k, m, bound, fn) && visited == entries[k..m]
        invariant current == At(nodes, m + 1)
        decreases |entries| - m
      {
        var e := Shown(current, m);
        PassOne(reverse, entries, k, m, bound, fn);
        visited, m := visited + [e], m + 1;
        if !fn(visited) {
          return;
        }
        current := Following(current, m);
      }
      if current != null {
        ghost var e := Shown(current, m);
      }
    }

    /** Visits the entries at or after `startPrice`, in tree order, until `fn` refuses one. */
    method RangeFrom(startPrice: real, fn: Callback) returns (visited: seq<Entry<PriceLevel>>)
      requires Valid()
      ensures visited == Visited(From(reverse, entries, startPrice), fn)
    {
      var current := Seek(startPrice);
      ghost var k, m := Rank(reverse, entries, startPrice), 0;
      visited, m := Walk(current, k, None, fn);
      FromIsSuffix(reverse, entries, startPrice);
      StoppedVisits(reverse, entries, k, m, startPrice, None, fn);
    }

    /** Visits the entries in range, in tree order, until `fn` refuses one. */
    method RangeBetween(minPrice: real, maxPrice: real, fn: Callback)
      returns (visited: seq<Entry<PriceLevel>>)
      requires Valid()
      ensures visited == Visited(Between(reverse, entries, minPrice, maxPrice), fn)
    {
      var current := Seek(minPrice);
      ghost var k, m := Rank(reverse, entries, minPrice), 0;
      visited, m := Walk(current, k, Some(maxPrice), fn);
      BetweenStartsAtRank(reverse, entries, minPrice, maxPrice);
      StoppedVisits(reverse, entries, k, m, minPrice, Some(maxPrice), fn);
    }

    method GetTotalQuantity() returns (total: int)
      requires Valid()
      ensures total == SumQty(entries)
    {
      total := 0;
      var current := Following(header, 0);
      ghost var n := 0;
      while current != null
        invariant 0 <= n <= |entries| && current == At(nodes, n + 1)
        invariant total == SumQty(entries[..n])
        decreases |entries| - n
      {
        var lvl := Shown(current, n).value;
        assert entries[..n + 1][..n] == entries[..n];
        total := total + lvl.totalQty;
        current := Following(current, n + 1);
        n := n + 1;
      }
      assert entries[..n] == entries;
    }

    method GetOrderCount() returns (count: nat)
      requires Valid()
      ensures count == CountOrders(entries)
    {
      count := 0;
      var current := Following(header, 0);
      ghost var n := 0;
      while current != null
        invariant 0 <= n <= |entries| && current == At(nodes, n + 1)
        invariant count == CountOrders(entries[..n])
        decreases |entries| - n
      {
        var lvl := Shown(current, n).value;
        assert entries[..n + 1][..n] == entries[..n];
        count := count + |lvl.orders|;
        current := Following(current, n + 1);
        n := n + 1;
      }
      assert entries[..n] == entries;
    }

    /** The integrity check compares each chain with the header's key 0, so it accepts a
        tree exactly when its first price does not come before 0. */
    method Validate() returns (ok: bool)
      requires Valid()
      ensures ok <==> entries == [] || Compare(reverse, 0.0, entries[0].key) <= 0
    {
      var i := 0;
      while i <= level
        invariant 0 <= i <= level + 1
        invariant i > 0 ==> entries == [] || Compare(reverse, 0.0, entries[0].key) <= 0
      {
        var prev := header;
        ghost var c: nat := 0;
        Follow(nodes, entries, level, reverse, 0, i);
        var current := header.forward[i];
        while current != null
          invariant c < |nodes| && prev == nodes[c] && current == At(nodes, Next(nodes, c, i))
          invariant i == c == 0 || entries == [] || Compare(reverse, 0.0, entries[0].key) <= 0
          decreases |nodes| - c
        {
          ChainCheck(nodes, entries, level, reverse, c, i);
          if Compare(reverse, prev.key, current.key) > 0 {
            return false;
          }
          if current.level < i {
            return false;
          }
          c := Next(nodes, c, i);
          Follow(nodes, entries, level, reverse, c, i);
          prev := current;
          current := current.forward[i];
        }
        if i == c == 0 {
          NextIs(nodes, 0, 0, 1);
        }
        i := i + 1;
      }
      return true;
    }
  }
}
