/** `CancelOrder` on values, and when a cancellation keeps the book sound. */
module Cancels {
  import opened Types
  import opened Prices
  import opened OrderLists
  import LevelSpec
  import opened Matching
  import opened Books

  /** Whether the lookup of the order's price finds the level that has it. */
  predicate Finds(reverse: bool, ladder: Ladder, o: Order) {
    Hit(reverse, ladder, o.price) && Has(ladder[Rank(reverse, ladder, o.price)].value.orders, o.id)
  }

  predicate Cancellable(b: Book, id: nat) {
    id in b.orders && Finds(Descends(b.orders[id]), Own(b, b.orders[id]), b.orders[id])
  }

  /** The side without the order; its level goes when the total reaches zero. */
  function CancelOn(reverse: bool, ladder: Ladder, o: Order): Ladder {
    var level := LevelSpec.Left(LevelAt(reverse, ladder, o.price), o);
    if level.totalQty == 0 then Prices.Remove(reverse, ladder, o.price) else Insert(reverse, ladder, o.price, level)
  }

  /** `CancelOrder`. */
  function Cancel(b: Book, id: nat): Book {
    if !Cancellable(b, id) then b
    else
      var o := b.orders[id];
      var ladder := CancelOn(Descends(o), Own(b, o), o);
      var gone := LevelSpec.Left(LevelAt(Descends(o), Own(b, o), o.price), o).totalQty == 0;
      Book(if Descends(o) then ladder else b.bids, if Descends(o) then b.asks else ladder,
           b.orders - {id}, if gone then b.queues - {o.price} else b.queues, b.version + 1)
  }

  /** A cancelled order cannot be cancelled again. */
  lemma SecondCancelFails(b: Book, id: nat)
    ensures !Cancellable(Cancel(b, id), id)
  {
  }

  /** Whatever the sign of its total, the side loses exactly the quantity of a cancelled order. */
  lemma CancelConserves(b: Book, id: nat)
    ensures Resting(Cancel(b, id)) == Resting(b) - if Cancellable(b, id) then b.orders[id].quantity else 0
  {
    if Cancellable(b, id) {
      var o := b.orders[id];
      CancelOnConserves(Descends(o), Own(b, o), o);
    }
  }

  lemma CancelOnConserves(reverse: bool, ladder: Ladder, o: Order)
    requires Hit(reverse, ladder, o.price)
    ensures Total(CancelOn(reverse, ladder, o)) == Total(ladder) - o.quantity
  {
    var r, ladder' := Rank(reverse, ladder, o.price), CancelOn(reverse, ladder, o);
    var level := LevelSpec.Left(ladder[r].value, o);
    TotalSplit(ladder, r);
    if level.totalQty == 0 {
      TotalConcat(ladder[..r], ladder[r + 1..]);
    } else {
      assert ladder' == ladder[r := Entry(ladder[r].key, level)];
      TotalSplit(ladder', r);
      assert ladder'[..r] == ladder[..r] && ladder'[r + 1..] == ladder[r + 1..];
    }
  }

  /** The cancel finds the order, but its level has less left than the order's original quantity:
      earlier fills took some of it, and the cancel subtracts the whole quantity all the same. */
  predicate Overdrawn(b: Book, id: nat) {
    Cancellable(b, id) &&
    var o := b.orders[id];
    LevelAt(Descends(o), Own(b, o), o.price).totalQty < o.quantity
  }

  lemma CancelOnIsTidy(reverse: bool, ladder: Ladder, o: Order)
    requires Tidy(reverse, ladder) && Hit(reverse, ladder, o.price)
    ensures Tidy(reverse, CancelOn(reverse, ladder, o))
  {
    var r, ladder' := Rank(reverse, ladder, o.price), CancelOn(reverse, ladder, o);
    var level := LevelSpec.Left(ladder[r].value, o);
    if level.totalQty == 0 {
      RemoveShape(reverse, ladder, o.price);
      RemovedKeepsOrdered(reverse, ladder, ladder', r);
      assert forall i :: 0 <= i < |ladder'| ==> ladder'[i] == ladder[if i < r then i else i + 1];
    } else {
      assert ladder' == ladder[r := Entry(ladder[r].key, level)];
      SameKeysOrdered(reverse, ladder, ladder');
    }
  }

  lemma CancelOnIsStocked(reverse: bool, ladder: Ladder, o: Order)
    requires Stocked(ladder) && Hit(reverse, ladder, o.price)
    ensures Stocked(CancelOn(reverse, ladder, o)) <==> LevelAt(reverse, ladder, o.price).totalQty >= o.quantity
  {
    var r, ladder' := Rank(reverse, ladder, o.price), CancelOn(reverse, ladder, o);
    var level := LevelSpec.Left(ladder[r].value, o);
    if level.totalQty == 0 {
      RemoveShape(reverse, ladder, o.price);
      assert forall i :: 0 <= i < |ladder'| ==> ladder'[i] == ladder[if i < r then i else i + 1];
    } else {
      assert ladder' == ladder[r := Entry(ladder[r].key, level)];
      assert ladder'[r].value.totalQty == level.totalQty;
    }
  }

  /** Every cancellation keeps the book tidy. */
  lemma CancelKeepsTidy(b: Book, id: nat)
    requires TidyBook(b)
    ensures TidyBook(Cancel(b, id))
  {
    if Cancellable(b, id) {
      var o := b.orders[id];
      CancelOnIsTidy(Descends(o), Own(b, o), o);
    }
  }

  /** The best price of the side does not improve. */
  lemma CancelOnBest(reverse: bool, ladder: Ladder, o: Order)
    requires Ordered(reverse, ladder) && Hit(reverse, ladder, o.price) && CancelOn(reverse, ladder, o) != []
    ensures ladder != []
    ensures var first := CancelOn(reverse, ladder, o)[0].key;
      first == ladder[0].key || Compare(reverse, ladder[0].key, first) < 0
  {
    var r, ladder' := Rank(reverse, ladder, o.price), CancelOn(reverse, ladder, o);
    var level := LevelSpec.Left(ladder[r].value, o);
    if level.totalQty == 0 {
      RemoveShape(reverse, ladder, o.price);
      assert ladder'[0] == ladder[if r == 0 then 1 else 0];
    }
  }

  /** A cancellation keeps the book sound and uncrossed exactly when it is not overdrawn. */
  lemma CancelKeepsGood(b: Book, id: nat)
    requires Good(b)
    ensures Good(Cancel(b, id)) <==> !Overdrawn(b, id)
  {
    CancelKeepsTidy(b, id);
    if Cancellable(b, id) {
      var o := b.orders[id];
      CancelOnIsStocked(Descends(o), Own(b, o), o);
      if Descends(o) {
        CancelledBid(b, id, o);
      } else {
        CancelledAsk(b, id, o);
      }
    }
  }

  /** And no cancellation crosses the book, whatever its levels hold. */
  lemma CancelStaysUncrossed(b: Book, id: nat)
    requires TidyBook(b) && Uncrossed(b)
    ensures Uncrossed(Cancel(b, id))
  {
    if Cancellable(b, id) {
      var o := b.orders[id];
      if CancelOn(Descends(o), Own(b, o), o) != [] {
        CancelOnBest(Descends(o), Own(b, o), o);
      }
    }
  }

  lemma CancelledBid(b: Book, id: nat, o: Order)
    requires Good(b) && Cancellable(b, id) && o == b.orders[id] && Descends(o) && TidyBook(Cancel(b, id))
    ensures Good(Cancel(b, id)) <==> Stocked(CancelOn(true, b.bids, o))
  {
    var bids := CancelOn(true, b.bids, o);
    assert Cancel(b, id).bids == bids && Cancel(b, id).asks == b.asks;
    if bids != [] {
      CancelOnBest(true, b.bids, o);
    }
  }

  lemma CancelledAsk(b: Book, id: nat, o: Order)
    requires Good(b) && Cancellable(b, id) && o == b.orders[id] && !Descends(o) && TidyBook(Cancel(b, id))
    ensures Good(Cancel(b, id)) <==> Stocked(CancelOn(false, b.asks, o))
  {
    var asks := CancelOn(false, b.asks, o);
    assert Cancel(b, id).asks == asks && Cancel(b, id).bids == b.bids;
    if asks != [] {
      CancelOnBest(false, b.asks, o);
    }
  }

  /** Off the grid a resting order can become impossible to cancel: the lookup of its price finds its level
      exactly when the level before it, if any, is beyond the tolerance of that price. */
  lemma FoundUnlessShadowed(reverse: bool, ladder: Ladder, o: Order, i: nat)
    requires Ordered(reverse, ladder) && i < |ladder| && Has(ladder[i].value.orders, o.id)
    requires Compare(reverse, ladder[i].key, o.price) == 0
    requires forall j :: 0 <= j < i ==> !Has(ladder[j].value.orders, o.id)
    ensures Finds(reverse, ladder, o) <==> (i > 0 ==> Compare(reverse, ladder[i - 1].key, o.price) < 0)
  {
    RankSplits(reverse, ladder, o.price);
    var r := Rank(reverse, ladder, o.price);
    assert r <= i;
    if i > 0 && Compare(reverse, ladder[i - 1].key, o.price) < 0 {
      assert r == i;
    }
  }
}
