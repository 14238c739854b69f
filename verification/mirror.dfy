/** Buying and selling are mirror images: negating every price and swapping the sides turns the
    buy loop on ascending asks into the sell loop on descending bids. */
module Mirrors {
  import opened Types
  import opened Prices
  import opened LevelSpec
  import opened Matching
  import opened Books

  function FlipOrder(o: Order): Order {
    o.(price := -o.price, side := if o.side == SIDE_BUY then SIDE_SELL else SIDE_BUY)
  }

  function FlipOrders(os: seq<Order>): (fs: seq<Order>)
    ensures |fs| == |os| && forall i :: 0 <= i < |os| ==> fs[i] == FlipOrder(os[i])
  {
    seq(|os|, i requires 0 <= i < |os| => FlipOrder(os[i]))
  }

  function FlipLevel(l: Level): Level { Level(-l.price, l.totalQty, FlipOrders(l.orders)) }

  function FlipEntry(e: Entry<Level>): Entry<Level> { Entry(-e.key, FlipLevel(e.value)) }

  function FlipLadder(ladder: Ladder): (fs: Ladder)
    ensures |fs| == |ladder| && forall i :: 0 <= i < |ladder| ==> fs[i] == FlipEntry(ladder[i])
  {
    seq(|ladder|, i requires 0 <= i < |ladder| => FlipEntry(ladder[i]))
  }

  /** The queues `fs` are those of `queues` under negated prices. */
  ghost predicate QueuesMirror(queues: Queues, fs: Queues) {
    forall p :: QueueMirrors(queues, fs, p)
  }

  ghost predicate QueueMirrors(queues: Queues, fs: Queues, p: real) {
    && (p in queues <==> -p in fs)
    && (p in queues ==> fs[-p] == FlipOrders(queues[p]))
  }

  function FlipTrade(t: Trade): Trade { t.(price := -t.price) }

  function FlipTrades(ts: seq<Trade>): (fs: seq<Trade>)
    ensures |fs| == |ts| && forall i :: 0 <= i < |ts| ==> fs[i] == FlipTrade(ts[i])
  {
    seq(|ts|, i requires 0 <= i < |ts| => FlipTrade(ts[i]))
  }

  lemma CompareMirrors(reverse: bool, a: real, b: real)
    ensures Compare(!reverse, -a, -b) == Compare(reverse, a, b)
  {
  }

  /** The mirror of a tidy side is tidy in the opposite orientation, and holds the same totals. */
  lemma SideMirrors(reverse: bool, ladder: Ladder)
    ensures Tidy(reverse, ladder) ==> Tidy(!reverse, FlipLadder(ladder))
    ensures Stocked(ladder) ==> Stocked(FlipLadder(ladder))
  {
    if Tidy(reverse, ladder) {
      forall i, j | 0 <= i < j < |ladder|
        ensures Compare(!reverse, FlipLadder(ladder)[i].key, FlipLadder(ladder)[j].key) < 0
      {
        CompareMirrors(reverse, ladder[i].key, ladder[j].key);
      }
    }
  }

  lemma FrontMirrors(queues: Queues, fs: Queues, p: real)
    requires QueuesMirror(queues, fs)
    ensures Front(fs, -p) == Front(queues, p)
  {
    assert QueueMirrors(queues, fs, p);
  }

  lemma PoppedMirrors(queues: Queues, fs: Queues, p: real)
    requires QueuesMirror(queues, fs)
    ensures QueuesMirror(Popped(queues, p), Popped(fs, -p))
  {
    var qs', fs' := Popped(queues, p), Popped(fs, -p);
    assert QueueMirrors(queues, fs, p);
    forall q
      ensures QueueMirrors(qs', fs', q)
    {
      assert QueueMirrors(queues, fs, q);
      if q == p && p in queues && queues[p] != [] {
        assert FlipOrders(queues[p])[1..] == FlipOrders(queues[p][1..]);
      }
    }
  }

  lemma DeletedMirrors(queues: Queues, fs: Queues, p: real)
    requires QueuesMirror(queues, fs)
    ensures QueuesMirror(queues - {p}, fs - {-p})
  {
    var qs', fs' := queues - {p}, fs - {-p};
    forall q
      ensures QueueMirrors(qs', fs', q)
    {
      assert QueueMirrors(queues, fs, q);
    }
  }

  /** Same quantities, negated prices, same remainder, mirrored book. */
  lemma {:induction false} WalkMirrors(once: bool, order: Order, ladder: Ladder, queues: Queues, fs: Queues, rem: int)
    requires QueuesMirror(queues, fs)
    ensures var r, f := Walk(once, order, ladder, queues, rem),
                        Walk(once, FlipOrder(order), FlipLadder(ladder), fs, rem);
      && f.trades == FlipTrades(r.trades) && f.ladder == FlipLadder(r.ladder)
      && f.rem == r.rem && QueuesMirror(r.queues, f.queues)
    decreases |ladder|
  {
    if TakesFirst(order, ladder, rem) {
      var p, rem' := ladder[0].value.price, rem - ladder[0].value.totalQty;
      FrontMirrors(queues, fs, p);
      PoppedMirrors(queues, fs, p);
      DeletedMirrors(Popped(queues, p), Popped(fs, -p), p);
      WalkMirrors(once, order, ladder[1..], Popped(queues, p) - {p}, Popped(fs, -p) - {-p}, rem');
      assert FlipLadder(ladder)[1..] == FlipLadder(ladder[1..]);
      assert Walk(once, FlipOrder(order), FlipLadder(ladder), fs, rem).trades
          == FlipTrades(Walk(once, order, ladder, queues, rem).trades);
    } else {
      EndMirrors(once, order, ladder, queues, fs, rem);
    }
  }

  lemma EndMirrors(once: bool, order: Order, ladder: Ladder, queues: Queues, fs: Queues, rem: int)
    requires QueuesMirror(queues, fs) && !TakesFirst(order, ladder, rem)
    ensures var r, f := Walk(once, order, ladder, queues, rem),
                        Walk(once, FlipOrder(order), FlipLadder(ladder), fs, rem);
      && f.trades == FlipTrades(r.trades) && f.ladder == FlipLadder(r.ladder)
      && f.rem == r.rem && QueuesMirror(r.queues, f.queues)
  {
    if ladder != [] {
      FrontMirrors(queues, fs, ladder[0].value.price);
      PoppedMirrors(queues, fs, ladder[0].value.price);
    }
    var r := Walk(once, order, ladder, queues, rem);
    var f := Walk(once, FlipOrder(order), FlipLadder(ladder), fs, rem);
    assert f.ladder == FlipLadder(r.ladder);
    assert f.trades == FlipTrades(r.trades);
  }

  // ---- The whole book ----

  lemma RankMirrors(reverse: bool, ladder: Ladder, p: real)
    ensures Rank(!reverse, FlipLadder(ladder), -p) == Rank(reverse, ladder, p)
    ensures Hit(!reverse, FlipLadder(ladder), -p) == Hit(reverse, ladder, p)
  {
    var r := Rank(reverse, ladder, p);
    forall i | 0 <= i < |ladder|
      ensures Compare(!reverse, FlipLadder(ladder)[i].key, -p) == Compare(reverse, ladder[i].key, p)
    {
      CompareMirrors(reverse, ladder[i].key, p);
    }
    RankIs(!reverse, FlipLadder(ladder), -p, r);
  }

  lemma AppendMirrors(l: Level, o: Order, qty: int)
    ensures AddTo(FlipLevel(l), FlipOrder(o), qty) == FlipLevel(AddTo(l, o, qty))
  {
  }

  lemma InsertMirrors(reverse: bool, ladder: Ladder, fl: Ladder, p: real, l: Level, np: real, m: Level)
    requires fl == FlipLadder(ladder) && m == FlipLevel(l) && np == -p
    ensures FlipLadder(Insert(reverse, ladder, p, l)) == Insert(!reverse, fl, np, m)
  {
    RankMirrors(reverse, ladder, p);
    if Hit(reverse, ladder, p) {
      HitMirrors(reverse, ladder, fl, p, l, np, m);
    } else {
      MissMirrors(reverse, ladder, fl, p, l, np, m);
    }
  }

  lemma HitMirrors(reverse: bool, ladder: Ladder, fl: Ladder, p: real, l: Level, np: real, m: Level)
    requires fl == FlipLadder(ladder) && m == FlipLevel(l)
    requires Hit(reverse, ladder, p) && Hit(!reverse, fl, np) && Rank(!reverse, fl, np) == Rank(reverse, ladder, p)
    ensures FlipLadder(Insert(reverse, ladder, p, l)) == Insert(!reverse, fl, np, m)
  {
    var es, fs := Insert(reverse, ladder, p, l), Insert(!reverse, fl, np, m);
    ReplacedMirrors(ladder, fl, es, fs, Rank(reverse, ladder, p), l, m);
  }

  lemma MissMirrors(reverse: bool, ladder: Ladder, fl: Ladder, p: real, l: Level, np: real, m: Level)
    requires fl == FlipLadder(ladder) && m == FlipLevel(l) && np == -p
    requires !Hit(reverse, ladder, p) && !Hit(!reverse, fl, np) && Rank(!reverse, fl, np) == Rank(reverse, ladder, p)
    ensures FlipLadder(Insert(reverse, ladder, p, l)) == Insert(!reverse, fl, np, m)
  {
    var es, fs := Insert(reverse, ladder, p, l), Insert(!reverse, fl, np, m);
    InsertShape(reverse, ladder, p, l);
    InsertShape(!reverse, fl, np, m);
    InsertedMirrors(ladder, fl, es, fs, Rank(reverse, ladder, p), p, l, np, m);
  }

  lemma ReplacedMirrors(ladder: Ladder, fl: Ladder, es: Ladder, fs: Ladder, r: nat, l: Level, m: Level)
    requires fl == FlipLadder(ladder) && r < |ladder| && m == FlipLevel(l)
    requires es == ladder[r := Entry(ladder[r].key, l)] && fs == fl[r := Entry(fl[r].key, m)]
    ensures FlipLadder(es) == fs
  {
  }

  lemma InsertedMirrors(
      ladder: Ladder, fl: Ladder, es: Ladder, fs: Ladder, r: nat, p: real, l: Level, np: real, m: Level)
    requires fl == FlipLadder(ladder) && np == -p && m == FlipLevel(l)
    requires InsertedAt(ladder, es, r, Entry(p, l)) && InsertedAt(fl, fs, r, Entry(np, m))
    ensures FlipLadder(es) == fs
  {
    forall i | 0 <= i < |es|
      ensures FlipEntry(es[i]) == fs[i]
    {
      assert i != r ==> es[i] == ladder[if i < r then i else i - 1];
    }
  }

  lemma LevelAtMirrors(reverse: bool, ladder: Ladder, p: real)
    ensures LevelAt(!reverse, FlipLadder(ladder), -p) == FlipLevel(LevelAt(reverse, ladder, p))
  {
    RankMirrors(reverse, ladder, p);
    assert FlipOrders([]) == [];
  }

  lemma LevelWithMirrors(reverse: bool, ladder: Ladder, o: Order, qty: int)
    ensures LevelWith(!reverse, FlipLadder(ladder), FlipOrder(o), qty) == FlipLevel(LevelWith(reverse, ladder, o, qty))
  {
    LevelAtMirrors(reverse, ladder, o.price);
    AppendMirrors(LevelAt(reverse, ladder, o.price), o, qty);
  }

  lemma RestOnMirrors(reverse: bool, ladder: Ladder, fl: Ladder, o: Order, fo: Order, qty: int)
    requires fl == FlipLadder(ladder) && fo == FlipOrder(o)
    ensures FlipLadder(RestOn(reverse, ladder, o, qty)) == RestOn(!reverse, fl, fo, qty)
  {
    LevelWithMirrors(reverse, ladder, o, qty);
    var l, m := LevelWith(reverse, ladder, o, qty), LevelWith(!reverse, fl, fo, qty);
    InsertMirrors(reverse, ladder, fl, o.price, l, fo.price, m);
  }

  lemma EnqueuedMirrors(queues: Queues, fs: Queues, o: Order)
    requires QueuesMirror(queues, fs)
    ensures QueuesMirror(Enqueued(queues, o), Enqueued(fs, FlipOrder(o)))
  {
    var qs', fs' := Enqueued(queues, o), Enqueued(fs, FlipOrder(o));
    assert QueueMirrors(queues, fs, o.price);
    forall p
      ensures QueueMirrors(qs', fs', p)
    {
      assert QueueMirrors(queues, fs, p);
      if p == o.price {
        var q := if p in queues then queues[p] else [];
        assert FlipOrders(q + [o]) == FlipOrders(q) + [FlipOrder(o)];
        assert FlipOrders([]) == [];
      }
    }
  }

  ghost predicate OrdersMirror(m: map<nat, Order>, fm: map<nat, Order>) {
    forall id :: OrderMirrors(m, fm, id)
  }

  ghost predicate OrderMirrors(m: map<nat, Order>, fm: map<nat, Order>, id: nat) {
    if id in m then id in fm && fm[id] == FlipOrder(m[id]) else id !in fm
  }

  lemma StoredMirrors(m: map<nat, Order>, fm: map<nat, Order>, o: Order)
    requires OrdersMirror(m, fm)
    ensures OrdersMirror(m[o.id := o], fm[o.id := FlipOrder(o)])
  {
    var m', fm' := m[o.id := o], fm[o.id := FlipOrder(o)];
    forall id
      ensures OrderMirrors(m', fm', id)
    {
      assert OrderMirrors(m, fm, id);
    }
  }

  ghost predicate BooksMirror(b: Book, f: Book) {
    && f.bids == FlipLadder(b.asks) && f.asks == FlipLadder(b.bids)
    && OrdersMirror(b.orders, f.orders) && QueuesMirror(b.queues, f.queues) && f.version == b.version
  }

  lemma RestMirrors(b: Book, f: Book, o: Order, qty: int)
    requires BooksMirror(b, f)
    ensures BooksMirror(Rest(b, o, qty), Rest(f, FlipOrder(o), qty))
  {
    StoredMirrors(b.orders, f.orders, o);
    EnqueuedMirrors(b.queues, f.queues, o);
    if o.side == SIDE_BUY {
      RestOnMirrors(true, b.bids, f.asks, o, FlipOrder(o), qty);
    } else {
      RestOnMirrors(false, b.asks, f.bids, o, FlipOrder(o), qty);
    }
  }

  /** Matching the mirrored order on the mirrored book mirrors the trades and the book. */
  lemma MatchMirrors(once: bool, b: Book, f: Book, o: Order)
    requires BooksMirror(b, f)
    ensures BooksMirror(Match(once, b, o), Match(once, f, FlipOrder(o)))
    ensures Walked(once, f, FlipOrder(o)).trades == FlipTrades(Walked(once, b, o).trades)
  {
    var fo := FlipOrder(o);
    WalkMirrors(once, o, Opposite(b, o), b.queues, f.queues, o.quantity);
    var r, fr := Walked(once, b, o), Walked(once, f, fo);
    if r.rem > 0 && o.kind == TYPE_LIMIT {
      RestMirrors(Swept(b, o, r), Swept(f, fo, fr), o, r.rem);
    }
  }

  /** The mirror of a sound and uncrossed book is sound and uncrossed. */
  lemma GoodMirrors(b: Book, f: Book)
    requires BooksMirror(b, f) && Good(b)
    ensures Good(f)
  {
    SideMirrors(true, b.bids);
    SideMirrors(false, b.asks);
  }
}
