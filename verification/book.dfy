/** The order book on values, call by call: `Match` and `CancelOrder` of `hybird.go`, and when a
    match keeps the book sound and uncrossed. */
module Books {
  import opened Types
  import opened Prices
  import opened LevelSpec
  import opened Matching
  import Bits
  import RingBuffers

  /** `orders` is the order map; `queues` the per-price queues, which bids and asks share. */
  datatype Book = Book(bids: Ladder, asks: Ladder, orders: map<nat, Order>, queues: Queues, version: nat)

  const EMPTY_BOOK := Book([], [], map[], map[], 0)

  const QUEUE_CAPACITY: nat := 1024

  /** `NewRingBuffer(1000)` rounds up to this many slots. */
  lemma QueueCapacity(capacity: nat)
    requires Bits.IsPow2(capacity) && 1000 <= capacity
    requires forall p: nat :: Bits.IsPow2(p) && 1000 <= p ==> capacity <= p
    ensures capacity == QUEUE_CAPACITY
  {
    assert Bits.Pow2(3) == 8 && Bits.Pow2(5) == 32;
    Bits.Pow2Sum(5, 5);
    Bits.Pow2Sum(3, 6);
    Bits.Pow2Sum(3, 3);
    assert Bits.IsPow2(Bits.Pow2(10));
    var k := RingBuffers.Exponent(capacity);
    if k <= 9 {
      Bits.Pow2Monotone(k, 9);
    } else {
      Bits.Pow2Monotone(10, k);
    }
  }

  /** The queue of the order's price with the order at its end; a full queue drops the order. */
  function Enqueued(queues: Queues, o: Order): Queues {
    var q := if o.price in queues then queues[o.price] else [];
    queues[o.price := if |q| < QUEUE_CAPACITY then q + [o] else q]
  }

  /** The level found at a price, or a new empty one. */
  function LevelAt(reverse: bool, ladder: Ladder, p: real): Level {
    match Get(reverse, ladder, p) case Some(l) => l case None => Level(p, 0, [])
  }

  /** That level with `qty` of the order added. */
  function LevelWith(reverse: bool, ladder: Ladder, o: Order, qty: int): Level {
    AddTo(LevelAt(reverse, ladder, o.price), o, qty)
  }

  /** A ladder with `qty` of the order resting at its price. */
  function RestOn(reverse: bool, ladder: Ladder, o: Order, qty: int): Ladder {
    Insert(reverse, ladder, o.price, LevelWith(reverse, ladder, o, qty))
  }

  /** `addOrderToBook`. */
  function Rest(b: Book, o: Order, qty: int): Book {
    b.(bids := if o.side == SIDE_BUY then RestOn(true, b.bids, o, qty) else b.bids,
       asks := if o.side == SIDE_BUY then b.asks else RestOn(false, b.asks, o, qty),
       orders := b.orders[o.id := o], queues := Enqueued(b.queues, o))
  }

  function Opposite(b: Book, o: Order): Ladder {
    if o.side == SIDE_BUY then b.asks else b.bids
  }

  function Own(b: Book, o: Order): Ladder { if o.side == SIDE_BUY then b.bids else b.asks }

  predicate Descends(o: Order) { o.side == SIDE_BUY }

  function Walked(once: bool, b: Book, o: Order): Matched {
    Walk(once, o, Opposite(b, o), b.queues, o.quantity)
  }

  /** The book after the matching loop. */
  function Swept(b: Book, o: Order, r: Matched): Book {
    b.(bids := if o.side == SIDE_BUY then b.bids else r.ladder,
       asks := if o.side == SIDE_BUY then r.ladder else b.asks, queues := r.queues)
  }

  /** `Match`; `once` as in `Matching.Residue`, false for the code as it stands. */
  function Match(once: bool, b: Book, o: Order): Book {
    var r := Walked(once, b, o);
    var b' := Swept(b, o, r);
    var b'' := if r.rem > 0 && o.kind == TYPE_LIMIT then Rest(b', o, r.rem) else b';
    b''.(version := b''.version + 1)
  }

  // ---- Sound books ----

  ghost predicate Uncrossed(b: Book) {
    b.bids != [] && b.asks != [] ==> b.bids[0].key < b.asks[0].key
  }

  /** Both sides sound, and the best bid below the best ask. */
  ghost predicate Good(b: Book) {
    Sound(true, b.bids) && Sound(false, b.asks) && Uncrossed(b)
  }

  /** Both sides in strict price order and filed under their prices. */
  ghost predicate TidyBook(b: Book) {
    Tidy(true, b.bids) && Tidy(false, b.asks)
  }

  lemma RestOnIsTidy(reverse: bool, ladder: Ladder, o: Order, qty: int)
    requires Tidy(reverse, ladder)
    ensures Tidy(reverse, RestOn(reverse, ladder, o, qty))
  {
    var level := LevelAt(reverse, ladder, o.price);
    InsertKeepsOrdered(reverse, ladder, o.price, AddTo(level, o, qty));
    if !Hit(reverse, ladder, o.price) {
      InsertShape(reverse, ladder, o.price, AddTo(level, o, qty));
    }
  }

  lemma RestOnIsSound(reverse: bool, ladder: Ladder, o: Order, qty: int)
    requires Sound(reverse, ladder) && qty > 0
    ensures Sound(reverse, RestOn(reverse, ladder, o, qty))
  {
    RestOnIsTidy(reverse, ladder, o, qty);
    if !Hit(reverse, ladder, o.price) {
      InsertShape(reverse, ladder, o.price, LevelWith(reverse, ladder, o, qty));
    }
  }

  /** Every match keeps the book tidy, whatever the reduction and whatever its levels hold. */
  lemma MatchKeepsTidy(once: bool, b: Book, o: Order)
    requires TidyBook(b)
    ensures TidyBook(Match(once, b, o))
  {
    var r := Walked(once, b, o);
    StaysTidy(once, o, Opposite(b, o), b.queues, o.quantity, Facing(o));
    if r.rem > 0 && o.kind == TYPE_LIMIT {
      if o.side == SIDE_BUY {
        RestOnIsTidy(true, b.bids, o, r.rem);
      } else {
        RestOnIsTidy(false, b.asks, o, r.rem);
      }
    }
  }

  /** Resting adds no key but the order's own price. */
  lemma RestOnKeys(reverse: bool, ladder: Ladder, o: Order, qty: int)
    ensures var es := RestOn(reverse, ladder, o, qty);
      es != [] && (es[0].key == o.price || (ladder != [] && es[0].key == ladder[0].key))
  {
    var level := LevelAt(reverse, ladder, o.price);
    if !Hit(reverse, ladder, o.price) {
      InsertShape(reverse, ladder, o.price, AddTo(level, o, qty));
    }
  }

  /** A limit order that nothing opposite crosses may rest without crossing the book. */
  lemma RestIsGood(b: Book, o: Order, qty: int)
    requires Good(b) && qty > 0 && o.kind == TYPE_LIMIT
    requires Opposite(b, o) != [] ==> !Crosses(o, Opposite(b, o)[0].value.price)
    ensures Good(Rest(b, o, qty))
  {
    if o.side == SIDE_BUY {
      RestOnIsSound(true, b.bids, o, qty);
      RestOnKeys(true, b.bids, o, qty);
    } else {
      RestOnIsSound(false, b.asks, o, qty);
      RestOnKeys(false, b.asks, o, qty);
    }
  }

  /** What is left of the opposite side starts no better than before. */
  lemma {:induction false} BestDoesNotImprove(once: bool, order: Order, ladder: Ladder, queues: Queues, rem: int)
    requires Tidy(Facing(order), ladder)
    ensures var r := Walk(once, order, ladder, queues, rem);
      r.ladder != [] ==> ladder != [] && (r.ladder[0].key == ladder[0].key ||
                                          Compare(Facing(order), ladder[0].key, r.ladder[0].key) < 0)
    decreases |ladder|
  {
    if TakesFirst(order, ladder, rem) {
      var qs := Popped(queues, ladder[0].value.price) - {ladder[0].value.price};
      var rem' := rem - ladder[0].value.totalQty;
      var r := Walk(once, order, ladder[1..], qs, rem');
      TailIsTidy(Facing(order), ladder);
      BestDoesNotImprove(once, order, ladder[1..], qs, rem');
      if r.ladder != [] {
        assert Compare(Facing(order), ladder[0].key, ladder[1].key) < 0;
      }
    }
  }

  lemma SweptIsGood(once: bool, b: Book, o: Order)
    requires Good(b)
    ensures Good(Swept(b, o, Walked(once, b, o))) <==> Stocked(Walked(once, b, o).ladder)
  {
    StaysTidy(once, o, Opposite(b, o), b.queues, o.quantity, Facing(o));
    BestDoesNotImprove(once, o, Opposite(b, o), b.queues, o.quantity);
  }

  /** The order leaves the opposite side sound, or is used up. */
  lemma SweptLeavesNothingToCross(once: bool, b: Book, o: Order)
    requires Good(b)
    ensures var r := Walked(once, b, o);
      r.rem > 0 ==> Stocked(r.ladder) && (r.ladder != [] ==> !Crosses(o, r.ladder[0].value.price))
  {
    LeftoverIsStocked(once, o, Opposite(b, o), b.queues, o.quantity);
    FillIsMaximal(once, o, Opposite(b, o), b.queues, o.quantity);
  }

  /** With each level reduced once per fill, every match keeps the book good; as the code stands,
      exactly those that do not run out at or beyond the middle of a level. */
  lemma MatchKeepsGood(once: bool, b: Book, o: Order)
    requires Good(b)
    ensures Good(Match(once, b, o)) <==> once || !HalfFills(o, Opposite(b, o), o.quantity)
  {
    var r := Walked(once, b, o);
    SweptIsGood(once, b, o);
    SweptLeavesNothingToCross(once, b, o);
    if once {
      StaysStockedOnce(o, Opposite(b, o), b.queues, o.quantity);
    } else {
      StaysStockedUnlessHalfFilled(o, Opposite(b, o), b.queues, o.quantity);
    }
    if r.rem > 0 && o.kind == TYPE_LIMIT {
      RestIsGood(Swept(b, o, r), o, r.rem);
    }
  }

  // ---- When a match crosses the book ----

  /** A match stops with something left of the order, in front of a level it could trade with, exactly when an empty
      level blocks it; otherwise it is filled, the other side is empty, or the limit is not met. */
  lemma MatchStops(once: bool, b: Book, o: Order)
    requires TidyBook(b)
    ensures var r := Walked(once, b, o);
      r.rem > 0 && r.ladder != [] && Crosses(o, r.ladder[0].value.price) <==> Blocked(o, Opposite(b, o), o.quantity)
  {
    var r := Walked(once, b, o);
    StaysTidy(once, o, Opposite(b, o), b.queues, o.quantity, Facing(o));
    FillIsMaximal(once, o, Opposite(b, o), b.queues, o.quantity);
    if Blocked(o, Opposite(b, o), o.quantity) {
      BlockedLeavesSome(once, o, Opposite(b, o), b.queues, o.quantity);
    }
    if r.ladder != [] && !Crosses(o, r.ladder[0].value.price) {
      NothingCrosses(o, r.ladder);
    }
  }

  /** An empty level keeps the order from trading, and what is left of it gets a level of its own. */
  ghost predicate RestsAcross(b: Book, o: Order) {
    o.kind == TYPE_LIMIT && Blocked(o, Opposite(b, o), o.quantity) && !Hit(Descends(o), Own(b, o), o.price)
  }

  /** Where the best price of a side is once an order rests on it: unmoved if the order joins a level, otherwise at
      the order's price or before it. */
  lemma RestedBest(reverse: bool, ladder: Ladder, o: Order, qty: int)
    ensures var es := RestOn(reverse, ladder, o, qty);
      && es != []
      && if Hit(reverse, ladder, o.price) then ladder != [] && es[0].key == ladder[0].key
         else if ladder != [] && Compare(reverse, ladder[0].key, o.price) < 0 then es[0].key == ladder[0].key
         else es[0].key == o.price
  {
    if !Hit(reverse, ladder, o.price) {
      InsertShape(reverse, ladder, o.price, LevelWith(reverse, ladder, o, qty));
    }
  }

  /** Resting crosses an uncrossed book exactly when it opens a level at a price the other side's best would take. */
  lemma RestCrossesExactly(b: Book, o: Order, qty: int)
    requires TidyBook(b) && Uncrossed(b) && o.kind == TYPE_LIMIT
    ensures Uncrossed(Rest(b, o, qty)) <==>
      Hit(Descends(o), Own(b, o), o.price) || Opposite(b, o) == [] || !Crosses(o, Opposite(b, o)[0].value.price)
  {
    RestedBest(Descends(o), Own(b, o), o, qty);
  }

  lemma SweptStaysUncrossed(once: bool, b: Book, o: Order)
    requires TidyBook(b) && Uncrossed(b)
    ensures var b' := Swept(b, o, Walked(once, b, o)); TidyBook(b') && Uncrossed(b')
  {
    StaysTidy(once, o, Opposite(b, o), b.queues, o.quantity, Facing(o));
    BestDoesNotImprove(once, o, Opposite(b, o), b.queues, o.quantity);
  }

  /** From any uncrossed book, with levels in any state: a match leaves the book uncrossed exactly when its order does
      not rest across an empty level. Levels reduced once or twice make no difference. */
  lemma MatchCrossesExactly(once: bool, b: Book, o: Order)
    requires TidyBook(b) && Uncrossed(b)
    ensures Uncrossed(Match(once, b, o)) <==> !RestsAcross(b, o)
  {
    var r := Walked(once, b, o);
    var b' := Swept(b, o, r);
    MatchStops(once, b, o);
    SweptStaysUncrossed(once, b, o);
    assert Own(b', o) == Own(b, o) && Opposite(b', o) == r.ladder;
    if r.rem > 0 && o.kind == TYPE_LIMIT {
      RestCrossesExactly(b', o, r.rem);
      assert Uncrossed(Match(once, b, o)) <==> Uncrossed(Rest(b', o, r.rem));
    } else {
      assert Uncrossed(Match(once, b, o)) <==> Uncrossed(b');
    }
  }

  // ---- Conservation ----

  /** Everything resting on the book. */
  function Resting(b: Book): int { Total(b.bids) + Total(b.asks) }

  lemma {:induction false} TotalConcat(a: Ladder, c: Ladder)
    ensures Total(a + c) == Total(a) + Total(c)
  {
    if a == [] {
      assert a + c == c;
    } else {
      TotalConcat(a[1..], c);
      assert (a + c)[1..] == a[1..] + c;
    }
  }

  lemma TotalSplit(ladder: Ladder, i: nat)
    requires i < |ladder|
    ensures Total(ladder) == Total(ladder[..i]) + ladder[i].value.totalQty + Total(ladder[i + 1..])
  {
    TotalConcat(ladder[..i], ladder[i..]);
    assert ladder == ladder[..i] + ladder[i..];
    assert ladder[i..][1..] == ladder[i + 1..];
  }

  /** Resting adds its quantity to the side, whether or not the level was there. */
  lemma RestOnAdds(reverse: bool, ladder: Ladder, o: Order, qty: int)
    ensures Total(RestOn(reverse, ladder, o, qty)) == Total(ladder) + qty
  {
    var r, es := Rank(reverse, ladder, o.price), RestOn(reverse, ladder, o, qty);
    if Hit(reverse, ladder, o.price) {
      TotalSplit(ladder, r);
      TotalSplit(es, r);
      assert es[..r] == ladder[..r] && es[r + 1..] == ladder[r + 1..];
    } else {
      var e := Entry(o.price, AddTo(Level(o.price, 0, []), o, qty));
      assert es == ladder[..r] + [e] + ladder[r..];
      TotalSplit(es, r);
      assert es[..r] == ladder[..r] && es[r + 1..] == ladder[r..];
      TotalConcat(ladder[..r], ladder[r..]);
      assert ladder == ladder[..r] + ladder[r..];
    }
  }

  /** What rests of an order: the remainder of a limit order. */
  function Rested(once: bool, b: Book, o: Order): int {
    var r := Walked(once, b, o);
    if r.rem > 0 && o.kind == TYPE_LIMIT then r.rem else 0
  }

  /** One match moves the resting quantity by what it rests less what it trades: of any book if each level is
      reduced once; as the code stands, exactly when the order does not run out inside a level. */
  lemma MatchConserves(once: bool, b: Book, o: Order)
    requires once || TidyBook(b)
    ensures Resting(Match(once, b, o)) == Resting(b) - Traded(Walked(once, b, o).trades) + Rested(once, b, o)
            <==> once || !RunsOut(o, Opposite(b, o), o.quantity)
  {
    var r := Walked(once, b, o);
    if once {
      LadderIsConservedOnce(o, Opposite(b, o), b.queues, o.quantity);
    } else {
      LadderIsConserved(o, Opposite(b, o), b.queues, o.quantity);
    }
    RestingAfter(once, b, o, r);
  }

  lemma RestingAfter(once: bool, b: Book, o: Order, r: Matched)
    requires r == Walked(once, b, o)
    ensures Resting(Match(once, b, o)) == Resting(b) - Total(Opposite(b, o)) + Total(r.ladder) + Rested(once, b, o)
  {
    if r.rem > 0 && o.kind == TYPE_LIMIT {
      if o.side == SIDE_BUY {
        RestOnAdds(true, b.bids, o, r.rem);
      } else {
        RestOnAdds(false, b.asks, o, r.rem);
      }
    }
  }
}
