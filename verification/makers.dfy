/** Time priority: which resting orders a match names as makers, and in what order over whole runs. */
module Makers {
  import opened Types
  import opened Prices
  import opened Matching
  import opened Books
  import opened Cancels
  import opened BookRuns

  // ---- One match ----

  /** The trade names the order in front of the queue at its price, or nobody if there is none. */
  ghost predicate NamesFront(queues: Queues, t: Trade) {
    t.maker == if t.price in queues && queues[t.price] != [] then Some(queues[t.price][0].id) else None
  }

  ghost predicate SameQueue(queues: Queues, queues': Queues, p: real) {
    (p in queues' <==> p in queues) && (p in queues ==> queues'[p] == queues[p])
  }

  ghost predicate FrontGone(queues: Queues, queues': Queues, p: real) {
    (p in queues' <==> p in queues) && (p in queues ==> queues'[p] == if queues[p] == [] then [] else queues[p][1..])
  }

  /** A price whose level is taken whole has no queue any more, one whose level is partly taken has lost the front of
      its queue, and one without a trade has its queue as before. */
  ghost predicate ServedAt(ladder: Ladder, queues: Queues, trades: seq<Trade>, queues': Queues, p: real) {
    && (forall i :: 0 <= i < |trades| && trades[i].price == p ==>
          && i < |ladder|
          && if trades[i].quantity == ladder[i].value.totalQty then p !in queues' else FrontGone(queues, queues', p))
    && ((forall i :: 0 <= i < |trades| ==> trades[i].price != p) ==> SameQueue(queues, queues', p))
  }

  ghost predicate ServesFronts(ladder: Ladder, queues: Queues, r: Matched) {
    && (forall i :: 0 <= i < |r.trades| ==> NamesFront(queues, r.trades[i]))
    && (forall p :: ServedAt(ladder, queues, r.trades, r.queues, p))
  }

  /** A match names the front of each queue it comes to, once, and leaves every other queue alone. */
  lemma {:induction false} MakersAreFronts(once: bool, order: Order, ladder: Ladder, queues: Queues, rem: int)
    requires Tidy(Facing(order), ladder)
    ensures ServesFronts(ladder, queues, Walk(once, order, ladder, queues, rem))
    decreases |ladder|
  {
    if TakesFirst(order, ladder, rem) {
      var p0, rem' := ladder[0].value.price, rem - ladder[0].value.totalQty;
      var qs := Popped(queues, p0) - {p0};
      TailIsTidy(Facing(order), ladder);
      MakersAreFronts(once, order, ladder[1..], qs, rem');
      FirstPriceOnce(once, order, ladder, queues, rem);
      var r, r' := Walk(once, order, ladder, queues, rem), Walk(once, order, ladder[1..], qs, rem');
      assert r.trades == [r.trades[0]] + r'.trades && r.queues == r'.queues;
      assert NamesFront(queues, r.trades[0]);
      assert r.trades[0].price == p0 && r.trades[0].quantity == ladder[0].value.totalQty;
      assert forall p :: p != p0 ==> SameQueue(queues, qs, p);
      FrontsGrow(ladder, queues, r, qs, r');
    }
  }

  /** No later trade is at the price of the first. */
  lemma FirstPriceOnce(once: bool, order: Order, ladder: Ladder, queues: Queues, rem: int)
    requires Tidy(Facing(order), ladder)
    ensures var ts := Walk(once, order, ladder, queues, rem).trades;
      forall i :: 0 < i < |ts| ==> ts[i].price != ts[0].price
  {
    var ts := Walk(once, order, ladder, queues, rem).trades;
    forall i | 0 < i < |ts|
      ensures ts[i].price != ts[0].price
    {
      PricesWorsen(once, order, ladder, queues, rem, 0, i);
    }
  }

  lemma FrontsGrow(ladder: Ladder, queues: Queues, r: Matched, qs: Queues, r': Matched)
    requires ladder != [] && r.trades != [] && r.trades == [r.trades[0]] + r'.trades && r.queues == r'.queues
    requires var t := r.trades[0];
      && NamesFront(queues, t) && t.price == ladder[0].value.price && t.quantity == ladder[0].value.totalQty
      && t.price !in qs && forall p :: p != t.price ==> SameQueue(queues, qs, p)
    requires forall i :: 0 < i < |r.trades| ==> r.trades[i].price != r.trades[0].price
    requires ServesFronts(ladder[1..], qs, r')
    ensures ServesFronts(ladder, queues, r)
  {
    var p0 := r.trades[0].price;
    forall i | 0 <= i < |r.trades|
      ensures NamesFront(queues, r.trades[i])
    {
      if i > 0 {
        assert NamesFront(qs, r'.trades[i - 1]) && SameQueue(queues, qs, r.trades[i].price);
      }
    }
    forall p
      ensures ServedAt(ladder, queues, r.trades, r.queues, p)
    {
      assert ServedAt(ladder[1..], qs, r'.trades, r.queues, p);
      ServedGrows(ladder, queues, r, qs, r', p);
    }
  }

  lemma ServedGrows(ladder: Ladder, queues: Queues, r: Matched, qs: Queues, r': Matched, p: real)
    requires ladder != [] && r.trades != [] && r.trades == [r.trades[0]] + r'.trades && r.queues == r'.queues
    requires r.trades[0].quantity == ladder[0].value.totalQty && r.trades[0].price !in qs
    requires p != r.trades[0].price ==> SameQueue(queues, qs, p)
    requires forall i :: 0 < i < |r.trades| ==> r.trades[i].price != r.trades[0].price
    requires ServedAt(ladder[1..], qs, r'.trades, r'.queues, p)
    ensures ServedAt(ladder, queues, r.trades, r.queues, p)
  {
    assert forall i :: 0 <= i < |r'.trades| ==> r'.trades[i] == r.trades[i + 1];
    if p == r.trades[0].price {
      assert p !in r.queues;
    } else {
      forall i | 0 <= i < |r.trades| && r.trades[i].price == p
        ensures i < |ladder|
        ensures if r.trades[i].quantity == ladder[i].value.totalQty then p !in r.queues
                else FrontGone(queues, r.queues, p)
      {
        assert r'.trades[i - 1].price == p && ladder[1..][i - 1] == ladder[i];
      }
    }
  }

  // ---- Whole runs ----

  /** The contents of the queue at a price; a missing queue is an empty one. */
  function QueueAt(queues: Queues, p: real): seq<Order> { if p in queues then queues[p] else [] }

  /** The makers that trades at a price have named. */
  function MakersAt(ts: seq<Trade>, p: real): seq<nat> {
    if ts == [] then []
    else (if ts[0].price == p && ts[0].maker.Some? then [ts[0].maker.value] else []) + MakersAt(ts[1..], p)
  }

  lemma {:induction false} NoMakersAt(ts: seq<Trade>, p: real)
    requires forall i :: 0 <= i < |ts| ==> ts[i].price != p
    ensures MakersAt(ts, p) == []
  {
    if ts != [] {
      NoMakersAt(ts[1..], p);
    }
  }

  lemma {:induction false} OneMakerAt(ts: seq<Trade>, p: real, k: nat)
    requires k < |ts| && forall i :: 0 <= i < |ts| ==> (ts[i].price == p <==> i == k)
    ensures MakersAt(ts, p) == if ts[k].maker.Some? then [ts[k].maker.value] else []
  {
    if k == 0 {
      NoMakersAt(ts[1..], p);
    } else {
      OneMakerAt(ts[1..], p, k - 1);
    }
  }

  /** A trade at the price takes its level whole. */
  ghost predicate TakesLevel(ladder: Ladder, ts: seq<Trade>, p: real) {
    exists i :: 0 <= i < |ts| && i < |ladder| && ts[i].price == p && ts[i].quantity == ladder[i].value.totalQty
  }

  /** The cancellation takes all that its level has. */
  ghost predicate EmptiesLevel(b: Book, id: nat, p: real) {
    && Cancellable(b, id) && b.orders[id].price == p
    && var o := b.orders[id]; LevelAt(Descends(o), Own(b, o), o.price).totalQty == o.quantity
  }

  /** What has happened at a price since its queue was last dropped: the orders that rested there while there was
      room, oldest first, and the makers named. */
  datatype Line = Line(arrived: seq<Order>, makers: seq<nat>)

  ghost function Longer(once: bool, b: Book, c: Cmd, p: real, l: Line): Line {
    match c
    case Place(o) =>
      var ts := Walked(once, b, o).trades;
      var l' := if TakesLevel(Opposite(b, o), ts, p) then Line([], []) else l.(makers := l.makers + MakersAt(ts, p));
      if Rested(once, b, o) > 0 && o.price == p && |l'.arrived| < |l'.makers| + QUEUE_CAPACITY
      then l'.(arrived := l'.arrived + [o]) else l'
    case CancelId(id) => if EmptiesLevel(b, id, p) then Line([], []) else l
  }

  ghost function LineOf(once: bool, cs: seq<Cmd>, p: real): Line {
    if cs == [] then Line([], [])
    else
      var init := cs[..|cs| - 1];
      Longer(once, Run(once, init), cs[|cs| - 1], p, LineOf(once, init, p))
  }

  /** The makers are the first orders in the line, in order, and the rest of the line is the queue. */
  ghost predicate FirstCome(l: Line, queue: seq<Order>) {
    && |l.makers| <= |l.arrived| && queue == l.arrived[|l.makers|..]
    && forall i :: 0 <= i < |l.makers| ==> l.makers[i] == l.arrived[i].id
  }

  /** A queue once those makers have been taken from it. */
  ghost predicate Named(q: seq<Order>, makers: seq<nat>, q': seq<Order>) {
    && |makers| <= |q| && q' == q[|makers|..]
    && forall i :: 0 <= i < |makers| ==> makers[i] == q[i].id
  }

  lemma SweptQueue(once: bool, b: Book, o: Order, p: real)
    requires TidyBook(b)
    ensures var r := Walked(once, b, o);
      if TakesLevel(Opposite(b, o), r.trades, p) then p !in r.queues
      else Named(QueueAt(b.queues, p), MakersAt(r.trades, p), QueueAt(r.queues, p))
  {
    var r, ladder := Walked(once, b, o), Opposite(b, o);
    var ts := r.trades;
    MakersAreFronts(once, o, ladder, b.queues, o.quantity);
    assert ServedAt(ladder, b.queues, ts, r.queues, p);
    if k :| 0 <= k < |ts| && ts[k].price == p {
      OnlyTradeAt(once, o, ladder, b.queues, o.quantity, k);
      OneMakerAt(ts, p, k);
      assert NamesFront(b.queues, ts[k]);
    } else {
      NoMakersAt(ts, p);
    }
  }

  lemma OnlyTradeAt(once: bool, order: Order, ladder: Ladder, queues: Queues, rem: int, k: nat)
    requires Tidy(Facing(order), ladder) && k < |Walk(once, order, ladder, queues, rem).trades|
    ensures var ts := Walk(once, order, ladder, queues, rem).trades;
      forall i :: 0 <= i < |ts| ==> (ts[i].price == ts[k].price <==> i == k)
  {
    var ts := Walk(once, order, ladder, queues, rem).trades;
    forall i | 0 <= i < |ts| && i != k
      ensures ts[i].price != ts[k].price
    {
      PricesWorsen(once, order, ladder, queues, rem, if i < k then i else k, if i < k then k else i);
    }
  }

  lemma EnqueuedAt(queues: Queues, o: Order, p: real)
    ensures QueueAt(Enqueued(queues, o), p) ==
      var q := QueueAt(queues, p); if o.price == p && |q| < QUEUE_CAPACITY then q + [o] else q
  {
  }

  lemma PlacedQueue(once: bool, b: Book, o: Order, p: real)
    ensures QueueAt(Match(once, b, o).queues, p) ==
      var q := QueueAt(Walked(once, b, o).queues, p);
      if Rested(once, b, o) > 0 && o.price == p && |q| < QUEUE_CAPACITY then q + [o] else q
  {
    var r := Walked(once, b, o);
    EnqueuedAt(r.queues, o, p);
    assert Match(once, b, o).queues == if Rested(once, b, o) > 0 then Enqueued(r.queues, o) else r.queues;
  }

  lemma CancelledQueues(b: Book, id: nat)
    requires Cancellable(b, id)
    ensures Cancel(b, id).queues ==
      if EmptiesLevel(b, id, b.orders[id].price) then b.queues - {b.orders[id].price} else b.queues
  {
  }

  /** A cancellation that empties its level drops the queue at its price; no other queue changes. */
  lemma CancelledQueue(b: Book, id: nat, p: real)
    ensures EmptiesLevel(b, id, p) ==> p !in Cancel(b, id).queues
    ensures !EmptiesLevel(b, id, p) ==> SameQueue(b.queues, Cancel(b, id).queues, p)
  {
    if Cancellable(b, id) {
      CancelledQueues(b, id);
    } else {
      assert Cancel(b, id) == b;
    }
  }

  lemma MakersLeaveTheLine(l: Line, q: seq<Order>, makers: seq<nat>, q': seq<Order>)
    requires FirstCome(l, q) && Named(q, makers, q')
    ensures FirstCome(l.(makers := l.makers + makers), q')
  {
  }

  lemma ArrivalJoinsTheLine(l: Line, q: seq<Order>, o: Order)
    requires FirstCome(l, q)
    ensures FirstCome(l.(arrived := l.arrived + [o]), q + [o])
  {
  }

  lemma LineGrows(once: bool, b: Book, c: Cmd, p: real, l: Line)
    requires TidyBook(b) && FirstCome(l, QueueAt(b.queues, p))
    ensures FirstCome(Longer(once, b, c, p, l), QueueAt(Step(once, b, c).queues, p))
  {
    match c
    case Place(o) => LineGrowsByOrder(once, b, o, p, l);
    case CancelId(id) => CancelledQueue(b, id, p);
  }

  lemma LineGrowsByOrder(once: bool, b: Book, o: Order, p: real, l: Line)
    requires TidyBook(b) && FirstCome(l, QueueAt(b.queues, p))
    ensures FirstCome(Longer(once, b, Place(o), p, l), QueueAt(Match(once, b, o).queues, p))
  {
    var r := Walked(once, b, o);
    var q', l' := QueueAt(r.queues, p), l.(makers := l.makers + MakersAt(r.trades, p));
    SweptQueue(once, b, o, p);
    PlacedQueue(once, b, o, p);
    if TakesLevel(Opposite(b, o), r.trades, p) {
      l' := Line([], []);
    } else {
      MakersLeaveTheLine(l, QueueAt(b.queues, p), MakersAt(r.trades, p), q');
    }
    ArrivalJoinsTheLine(l', q', o);
  }

  /** First come, first named: after every run, the makers named at a price since its queue was last dropped are the
      orders that rested there, in order of arrival, and those not yet named are the queue. */
  lemma {:induction false} RunsNameInOrder(once: bool, cs: seq<Cmd>, p: real)
    ensures FirstCome(LineOf(once, cs, p), QueueAt(Run(once, cs).queues, p))
  {
    if cs != [] {
      var init := cs[..|cs| - 1];
      RunsNameInOrder(once, init, p);
      RunsStayTidy(once, init);
      LineGrows(once, Run(once, init), cs[|cs| - 1], p, LineOf(once, init, p));
    }
  }

  /** So the next order's trade at a price names whoever has waited there longest. */
  lemma NextMakerIsNextInLine(once: bool, cs: seq<Cmd>, o: Order, i: nat)
    requires i < |Walked(once, Run(once, cs), o).trades|
    ensures var t := Walked(once, Run(once, cs), o).trades[i];
      var l := LineOf(once, cs, t.price);
      t.maker == if |l.makers| < |l.arrived| then Some(l.arrived[|l.makers|].id) else None
  {
    var b := Run(once, cs);
    var t := Walked(once, b, o).trades[i];
    RunsNameInOrder(once, cs, t.price);
    RunsStayTidy(once, cs);
    MakersAreFronts(once, o, Opposite(b, o), b.queues, o.quantity);
    assert NamesFront(b.queues, t);
  }

  /** The step neither trades at the price nor empties its level. */
  ghost predicate Spares(once: bool, b: Book, c: Cmd, p: real) {
    match c
    case Place(o) => var ts := Walked(once, b, o).trades; forall i :: 0 <= i < |ts| ==> ts[i].price != p
    case CancelId(id) => !EmptiesLevel(b, id, p)
  }

  /** Step `j` has an order rest at a price whose queue is empty, and later steps spare that price. */
  ghost predicate Opens(once: bool, cs: seq<Cmd>, j: nat, p: real) {
    && j < |cs| && cs[j].Place? && cs[j].o.price == p
    && QueueAt(Run(once, cs[..j]).queues, p) == [] && Rested(once, Run(once, cs[..j]), cs[j].o) > 0
    && forall k :: j < k < |cs| ==> Spares(once, Run(once, cs[..k]), cs[k], p)
  }

  ghost predicate Heads(b: Book, o: Order) {
    var q := QueueAt(b.queues, o.price); q != [] && q[0] == o
  }

  lemma OpenedQueue(once: bool, b: Book, o: Order)
    requires TidyBook(b) && QueueAt(b.queues, o.price) == [] && Rested(once, b, o) > 0
    ensures Heads(Match(once, b, o), o)
  {
    SweptQueue(once, b, o, o.price);
    PlacedQueue(once, b, o, o.price);
  }

  lemma SparedQueue(once: bool, b: Book, c: Cmd, o: Order)
    requires TidyBook(b) && Spares(once, b, c, o.price) && Heads(b, o)
    ensures Heads(Step(once, b, c), o)
  {
    match c
    case Place(x) =>
      SweptQueue(once, b, x, o.price);
      PlacedQueue(once, b, x, o.price);
      NoMakersAt(Walked(once, b, x).trades, o.price);
    case CancelId(id) => CancelledQueue(b, id, o.price);
  }

  lemma OpenedBefore(once: bool, cs: seq<Cmd>, j: nat, p: real)
    requires Opens(once, cs, j, p) && j < |cs| - 1
    ensures var init := cs[..|cs| - 1];
      Opens(once, init, j, p) && init[j] == cs[j] && Spares(once, Run(once, init), cs[|cs| - 1], p)
  {
    var init := cs[..|cs| - 1];
    assert init[..j] == cs[..j];
    forall k | j < k < |init|
      ensures Spares(once, Run(once, init[..k]), init[k], p)
    {
      assert init[..k] == cs[..k];
    }
  }

  lemma {:induction false} OpenerStaysFirst(once: bool, cs: seq<Cmd>, j: nat, p: real)
    requires Opens(once, cs, j, p)
    ensures Heads(Run(once, cs), cs[j].o)
    decreases |cs|
  {
    if j < |cs| - 1 {
      OpenedBefore(once, cs, j, p);
      OpenerStaysFirst(once, cs[..|cs| - 1], j, p);
      LastStepSpares(once, cs, cs[j].o);
    } else {
      LastStepOpens(once, cs);
    }
  }

  lemma LastStepSpares(once: bool, cs: seq<Cmd>, o: Order)
    requires cs != []
    requires var b := Run(once, cs[..|cs| - 1]); Heads(b, o) && Spares(once, b, cs[|cs| - 1], o.price)
    ensures Heads(Run(once, cs), o)
  {
    RunsStayTidy(once, cs[..|cs| - 1]);
    SparedQueue(once, Run(once, cs[..|cs| - 1]), cs[|cs| - 1], o);
  }

  lemma LastStepOpens(once: bool, cs: seq<Cmd>)
    requires cs != [] && cs[|cs| - 1].Place?
    requires var b, o := Run(once, cs[..|cs| - 1]), cs[|cs| - 1].o;
      QueueAt(b.queues, o.price) == [] && Rested(once, b, o) > 0
    ensures Heads(Run(once, cs), cs[|cs| - 1].o)
  {
    RunsStayTidy(once, cs[..|cs| - 1]);
    OpenedQueue(once, Run(once, cs[..|cs| - 1]), cs[|cs| - 1].o);
  }

  /** The first maker named at a price is the oldest order that rested there since its queue was opened. */
  lemma FirstMakerIsOldest(once: bool, cs: seq<Cmd>, j: nat, o: Order, i: nat)
    requires i < |Walked(once, Run(once, cs), o).trades|
    requires Opens(once, cs, j, Walked(once, Run(once, cs), o).trades[i].price)
    ensures Walked(once, Run(once, cs), o).trades[i].maker == Some(cs[j].o.id)
  {
    var b := Run(once, cs);
    var t := Walked(once, b, o).trades[i];
    OpenerStaysFirst(once, cs, j, t.price);
    RunsStayTidy(once, cs);
    MakersAreFronts(once, o, Opposite(b, o), b.queues, o.quantity);
    assert NamesFront(b.queues, t);
  }
}
