/** The mirror image of a whole run of orders and cancellations. */
module MirrorRuns {
  import opened Types
  import opened Prices
  import opened OrderLists
  import LevelSpec
  import opened Matching
  import opened Books
  import opened Cancels
  import BookRuns
  import opened Mirrors

  lemma FindMirrors(os: seq<Order>, id: nat)
    ensures Find(FlipOrders(os), id) == Find(os, id)
  {
    var i, fs := Find(os, id), FlipOrders(os);
    assert forall j :: 0 <= j < i ==> fs[j].id == os[j].id;
    if i < |os| {
      FindIs(fs, id, i);
    } else {
      FindMisses(fs, id);
    }
  }

  lemma DropMirrors(os: seq<Order>, id: nat)
    ensures FlipOrders(Drop(os, id)) == Drop(FlipOrders(os), id)
  {
    FindMirrors(os, id);
    if Has(os, id) {
      DropShape(os, id);
      DropShape(FlipOrders(os), id);
      SameOrders(os, id, Find(os, id), Drop(os, id), Drop(FlipOrders(os), id));
    }
  }

  lemma SameOrders(os: seq<Order>, id: nat, i: nat, ds: seq<Order>, fs: seq<Order>)
    requires i < |os| && |ds| == |fs| == |os| - 1
    requires forall k :: 0 <= k < i ==> ds[k] == os[k] && fs[k] == FlipOrders(os)[k]
    requires forall k :: i <= k < |ds| ==> ds[k] == os[k + 1] && fs[k] == FlipOrders(os)[k + 1]
    ensures FlipOrders(ds) == fs
  {
    forall k | 0 <= k < |ds|
      ensures FlipOrder(ds[k]) == fs[k]
    {
      assert ds[k] == os[if k < i then k else k + 1];
    }
  }

  lemma LeftMirrors(l: LevelSpec.Level, o: Order)
    ensures LevelSpec.Left(FlipLevel(l), FlipOrder(o)) == FlipLevel(LevelSpec.Left(l, o))
  {
    DropMirrors(l.orders, o.id);
  }

  lemma RemoveMirrors(reverse: bool, ladder: Ladder, fl: Ladder, p: real, np: real)
    requires fl == FlipLadder(ladder) && np == -p && Hit(reverse, ladder, p)
    ensures FlipLadder(Prices.Remove(reverse, ladder, p)) == Prices.Remove(!reverse, fl, np)
  {
    HitsMirror(reverse, ladder, fl, p, np);
    RemoveShape(reverse, ladder, p);
    RemoveShape(!reverse, fl, np);
    var es, fs := Prices.Remove(reverse, ladder, p), Prices.Remove(!reverse, fl, np);
    RemovedMirrors(ladder, fl, es, fs, Rank(reverse, ladder, p));
  }

  lemma HitsMirror(reverse: bool, ladder: Ladder, fl: Ladder, p: real, np: real)
    requires fl == FlipLadder(ladder) && np == -p
    ensures Rank(!reverse, fl, np) == Rank(reverse, ladder, p) && Hit(!reverse, fl, np) == Hit(reverse, ladder, p)
  {
    RankMirrors(reverse, ladder, p);
  }

  lemma RemovedMirrors(ladder: Ladder, fl: Ladder, es: Ladder, fs: Ladder, r: nat)
    requires fl == FlipLadder(ladder) && RemovedAt(ladder, es, r) && RemovedAt(fl, fs, r)
    ensures FlipLadder(es) == fs
  {
    forall i | 0 <= i < |es|
      ensures FlipEntry(es[i]) == fs[i]
    {
      assert es[i] == ladder[if i < r then i else i + 1];
    }
  }

  lemma CancelOnMirrors(reverse: bool, ladder: Ladder, fl: Ladder, o: Order, fo: Order)
    requires fl == FlipLadder(ladder) && fo == FlipOrder(o) && Hit(reverse, ladder, o.price)
    ensures LevelSpec.Left(LevelAt(!reverse, fl, fo.price), fo).totalQty
         == LevelSpec.Left(LevelAt(reverse, ladder, o.price), o).totalQty
    ensures FlipLadder(CancelOn(reverse, ladder, o)) == CancelOn(!reverse, fl, fo)
  {
    var l := LevelSpec.Left(LevelAt(reverse, ladder, o.price), o);
    var m := LevelSpec.Left(LevelAt(!reverse, fl, fo.price), fo);
    assert m == FlipLevel(l) by {
      LevelAtMirrors(reverse, ladder, o.price);
      LeftMirrors(LevelAt(reverse, ladder, o.price), o);
    }
    if l.totalQty == 0 {
      RemoveMirrors(reverse, ladder, fl, o.price, fo.price);
    } else {
      InsertMirrors(reverse, ladder, fl, o.price, l, fo.price, m);
    }
  }

  lemma FindsMirrors(reverse: bool, ladder: Ladder, fl: Ladder, o: Order, fo: Order)
    requires fl == FlipLadder(ladder) && fo == FlipOrder(o)
    ensures Finds(!reverse, fl, fo) == Finds(reverse, ladder, o)
  {
    RankMirrors(reverse, ladder, o.price);
    var r, hit := Rank(reverse, ladder, o.price), Hit(reverse, ladder, o.price);
    FindsAtRank(reverse, ladder, o, r, hit);
    FindsAtRank(!reverse, fl, fo, r, hit);
    if hit {
      assert fl[r] == FlipEntry(ladder[r]);
      FindMirrors(ladder[r].value.orders, o.id);
    }
  }

  lemma FindsAtRank(reverse: bool, ladder: Ladder, o: Order, r: nat, hit: bool)
    requires r == Rank(reverse, ladder, o.price) && hit == Hit(reverse, ladder, o.price)
    ensures hit ==> r < |ladder|
    ensures Finds(reverse, ladder, o) == (hit && Has(ladder[r].value.orders, o.id))
  {
  }

  lemma OwnMirrors(b: Book, f: Book, o: Order)
    requires BooksMirror(b, f)
    ensures Own(f, FlipOrder(o)) == FlipLadder(Own(b, o)) && Descends(FlipOrder(o)) == !Descends(o)
  {
  }

  lemma UnfiledMirrors(m: map<nat, Order>, fm: map<nat, Order>, id: nat)
    requires OrdersMirror(m, fm)
    ensures OrdersMirror(m - {id}, fm - {id})
  {
    var m', fm' := m - {id}, fm - {id};
    forall k
      ensures OrderMirrors(m', fm', k)
    {
      assert OrderMirrors(m, fm, k);
    }
  }

  /** Cancelling the same id on the mirrored book succeeds alike and mirrors the book. */
  lemma CancelMirrors(b: Book, f: Book, id: nat)
    requires BooksMirror(b, f)
    ensures Cancellable(f, id) <==> Cancellable(b, id)
    ensures BooksMirror(Cancel(b, id), Cancel(f, id))
  {
    assert OrderMirrors(b.orders, f.orders, id);
    if id in b.orders {
      var o, fo := b.orders[id], f.orders[id];
      OwnMirrors(b, f, o);
      FindsMirrors(Descends(o), Own(b, o), Own(f, fo), o, fo);
      if Cancellable(b, id) {
        CancelledMirrors(b, f, id, o, fo);
      }
    }
  }

  lemma CancelledMirrors(b: Book, f: Book, id: nat, o: Order, fo: Order)
    requires BooksMirror(b, f) && Cancellable(b, id) && Cancellable(f, id) && o == b.orders[id] && fo == f.orders[id]
    requires fo == FlipOrder(o)
    ensures BooksMirror(Cancel(b, id), Cancel(f, id))
  {
    OwnMirrors(b, f, o);
    CancelOnMirrors(Descends(o), Own(b, o), Own(f, fo), o, fo);
    UnfiledMirrors(b.orders, f.orders, id);
    DeletedMirrors(b.queues, f.queues, o.price);
    CancelFields(b, id, o);
    CancelFields(f, id, fo);
  }

  /** `Cancel` field by field. */
  lemma CancelFields(b: Book, id: nat, o: Order)
    requires Cancellable(b, id) && o == b.orders[id]
    ensures var b', ladder := Cancel(b, id), CancelOn(Descends(o), Own(b, o), o);
      && b'.bids == (if Descends(o) then ladder else b.bids) && b'.asks == (if Descends(o) then b.asks else ladder)
      && b'.orders == b.orders - {id} && b'.version == b.version + 1
      && b'.queues == if LevelSpec.Left(LevelAt(Descends(o), Own(b, o), o.price), o).totalQty == 0
                      then b.queues - {o.price} else b.queues
  {
  }

  function FlipCmd(c: BookRuns.Cmd): BookRuns.Cmd {
    match c
    case Place(o) => BookRuns.Place(FlipOrder(o))
    case CancelId(id) => BookRuns.CancelId(id)
  }

  function FlipCmds(cs: seq<BookRuns.Cmd>): (fs: seq<BookRuns.Cmd>)
    ensures |fs| == |cs| && forall i :: 0 <= i < |cs| ==> fs[i] == FlipCmd(cs[i])
  {
    seq(|cs|, i requires 0 <= i < |cs| => FlipCmd(cs[i]))
  }

  /** A run of orders and cancellations and its mirror image leave mirror-image books. */
  lemma {:induction false} RunsWithCancelsMirror(once: bool, cs: seq<BookRuns.Cmd>)
    ensures BooksMirror(BookRuns.Run(once, cs), BookRuns.Run(once, FlipCmds(cs)))
  {
    if cs == [] {
      assert FlipCmds(cs) == [];
      EmptyMirrors();
    } else {
      var init, c := cs[..|cs| - 1], cs[|cs| - 1];
      RunsWithCancelsMirror(once, init);
      assert FlipCmds(cs)[..|cs| - 1] == FlipCmds(init);
      StepMirrors(once, BookRuns.Run(once, init), BookRuns.Run(once, FlipCmds(init)), c);
    }
  }

  lemma EmptyMirrors()
    ensures BooksMirror(EMPTY_BOOK, EMPTY_BOOK)
  {
  }

  lemma StepMirrors(once: bool, b: Book, f: Book, c: BookRuns.Cmd)
    requires BooksMirror(b, f)
    ensures BooksMirror(BookRuns.Step(once, b, c), BookRuns.Step(once, f, FlipCmd(c)))
  {
    match c
    case Place(o) => MatchMirrors(once, b, f, o);
    case CancelId(id) => CancelMirrors(b, f, id);
  }
}
