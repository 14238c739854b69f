/** Runs of orders and cancellations, with fills. `once` is as in `Matching.Residue`: false for the code
    as it stands, true for a level reduced once per fill. */
module BookRuns {
  import opened Types
  import opened Prices
  import opened OrderLists
  import LevelSpec
  import opened Matching
  import opened Books
  import opened Cancels

  datatype Cmd = Place(o: Order) | CancelId(id: nat)

  function Step(once: bool, b: Book, c: Cmd): Book {
    match c
    case Place(o) => Match(once, b, o)
    case CancelId(id) => Cancel(b, id)
  }

  function Run(once: bool, cs: seq<Cmd>): Book {
    if cs == [] then EMPTY_BOOK else Step(once, Run(once, cs[..|cs| - 1]), cs[|cs| - 1])
  }

  /** Every order counts one version, and so does every cancellation that finds its order. */
  lemma VersionCounts(once: bool, b: Book, c: Cmd)
    ensures Step(once, b, c).version == b.version + if c.CancelId? && !Cancellable(b, c.id) then 0 else 1
  {
  }

  /** What can be checked before a step: that it half-fills no level, or that it overdraws none. */
  ghost predicate Harmless(once: bool, b: Book, c: Cmd) {
    match c
    case Place(o) => once || !HalfFills(o, Opposite(b, o), o.quantity)
    case CancelId(id) => !Overdrawn(b, id)
  }

  lemma StepKeepsGood(once: bool, b: Book, c: Cmd)
    requires Good(b)
    ensures Good(Step(once, b, c)) <==> Harmless(once, b, c)
  {
    match c
    case Place(o) => MatchKeepsGood(once, b, o);
    case CancelId(id) => CancelKeepsGood(b, id);
  }

  ghost predicate HarmlessRun(once: bool, cs: seq<Cmd>) {
    cs != [] ==>
      var init, c := cs[..|cs| - 1], cs[|cs| - 1];
      HarmlessRun(once, init) && Harmless(once, Run(once, init), c)
  }

  /** The book is sound and uncrossed after each step of the run. */
  ghost predicate GoodAllAlong(once: bool, cs: seq<Cmd>) {
    cs != [] ==> GoodAllAlong(once, cs[..|cs| - 1]) && Good(Run(once, cs))
  }

  /** Over any run of orders and cancellations, the book stays sound and uncrossed exactly when no step of
      the run half-fills or overdraws a level. */
  lemma {:induction false} RunsStayGoodUnlessHarmed(once: bool, cs: seq<Cmd>)
    ensures GoodAllAlong(once, cs) <==> HarmlessRun(once, cs)
    ensures GoodAllAlong(once, cs) ==> Good(Run(once, cs))
  {
    if cs != [] {
      var init, c := cs[..|cs| - 1], cs[|cs| - 1];
      RunsStayGoodUnlessHarmed(once, init);
      if GoodAllAlong(once, init) {
        StepKeepsGood(once, Run(once, init), c);
      }
    }
  }

  /** With levels reduced once, a run of orders alone harms nothing. */
  lemma {:induction false} OrdersAloneStayGood(cs: seq<Cmd>)
    requires forall i :: 0 <= i < |cs| ==> cs[i].Place?
    ensures HarmlessRun(true, cs) && Good(Run(true, cs))
  {
    if cs != [] {
      OrdersAloneStayGood(cs[..|cs| - 1]);
    }
    RunsStayGoodUnlessHarmed(true, cs);
  }

  // ---- Price priority in every run ----

  /** Whatever has happened to its totals, the book stays in price order and filed under its prices. */
  lemma {:induction false} RunsStayTidy(once: bool, cs: seq<Cmd>)
    ensures TidyBook(Run(once, cs))
  {
    if cs != [] {
      var init, c := cs[..|cs| - 1], cs[|cs| - 1];
      RunsStayTidy(once, init);
      match c
      case Place(o) => MatchKeepsTidy(once, Run(once, init), o);
      case CancelId(id) => CancelKeepsTidy(Run(once, init), id);
    }
  }

  /** After every run, the trades of the next order strictly worsen in price. */
  lemma EveryRunWorsens(once: bool, cs: seq<Cmd>, o: Order, i: nat, j: nat)
    requires i < j < |Walked(once, Run(once, cs), o).trades|
    ensures var ts := Walked(once, Run(once, cs), o).trades; Worse(o, ts[i].price, ts[j].price)
  {
    var b := Run(once, cs);
    RunsStayTidy(once, cs);
    PricesWorsen(once, o, Opposite(b, o), b.queues, o.quantity, i, j);
  }

  /** After every run, the next order trades exactly what it asks for, capped by what rests at prices it accepts
      before the first empty level; and it leaves a level it could trade with exactly when an empty one blocks it. */
  lemma EveryRunFills(once: bool, cs: seq<Cmd>, o: Order)
    ensures var b, r := Run(once, cs), Walked(once, Run(once, cs), o);
      var side := Opposite(b, o);
      && Traded(r.trades) == Lesser(Wanted(o.quantity), CrossQty(o, side[..FirstEmpty(side)]))
      && (r.rem > 0 ==>
            ((exists i :: 0 <= i < |r.ladder| && Crosses(o, r.ladder[i].value.price))
             <==> Blocked(o, side, o.quantity)))
  {
    var b := Run(once, cs);
    RunsStayTidy(once, cs);
    FillIsExact(once, o, Opposite(b, o), b.queues, o.quantity);
    FillIsMaximal(once, o, Opposite(b, o), b.queues, o.quantity);
  }

  // ---- When a run crosses the book ----

  /** What can be checked before a step: that it is not an order about to rest across an empty level. */
  ghost predicate KeepsApart(b: Book, c: Cmd) { c.Place? ==> !RestsAcross(b, c.o) }

  ghost predicate RunKeepsApart(once: bool, cs: seq<Cmd>) {
    cs != [] ==>
      var init, c := cs[..|cs| - 1], cs[|cs| - 1];
      RunKeepsApart(once, init) && KeepsApart(Run(once, init), c)
  }

  /** The best bid is below the best ask after each step of the run. */
  ghost predicate UncrossedAllAlong(once: bool, cs: seq<Cmd>) {
    cs != [] ==> UncrossedAllAlong(once, cs[..|cs| - 1]) && Uncrossed(Run(once, cs))
  }

  lemma StepCrossesExactly(once: bool, b: Book, c: Cmd)
    requires TidyBook(b) && Uncrossed(b)
    ensures Uncrossed(Step(once, b, c)) <==> KeepsApart(b, c)
  {
    match c
    case Place(o) => MatchCrossesExactly(once, b, o);
    case CancelId(id) => CancelStaysUncrossed(b, id);
  }

  /** Over any run, half-filled, overdrawn or not, the book is uncrossed throughout exactly when no order of the run
      rests across an empty level. */
  lemma {:induction false} RunsStayUncrossedExactly(once: bool, cs: seq<Cmd>)
    ensures UncrossedAllAlong(once, cs) <==> RunKeepsApart(once, cs)
    ensures UncrossedAllAlong(once, cs) ==> Uncrossed(Run(once, cs))
  {
    if cs != [] {
      var init, c := cs[..|cs| - 1], cs[|cs| - 1];
      RunsStayUncrossedExactly(once, init);
      RunsStayTidy(once, init);
      if UncrossedAllAlong(once, init) {
        StepCrossesExactly(once, Run(once, init), c);
      }
    }
  }

  // ---- Conservation ----

  /** What a run has done with the quantities it was asked for. */
  datatype Ledger = Ledger(asked: int, traded: int, dropped: int, cancelled: int)

  function Booked(once: bool, b: Book, c: Cmd, l: Ledger): Ledger {
    match c
    case Place(o) =>
      var r := Walked(once, b, o);
      l.(asked := l.asked + Wanted(o.quantity),
         traded := l.traded + Traded(r.trades),
         dropped := l.dropped + if r.rem > 0 && o.kind != TYPE_LIMIT then r.rem else 0)
    case CancelId(id) =>
      l.(cancelled := l.cancelled + if Cancellable(b, id) then b.orders[id].quantity else 0)
  }

  function Ledgers(once: bool, cs: seq<Cmd>): Ledger {
    if cs == [] then Ledger(0, 0, 0, 0)
    else
      var init, c := cs[..|cs| - 1], cs[|cs| - 1];
      Booked(once, Run(once, init), c, Ledgers(once, init))
  }

  /** Every unit asked for rests on the book, was dropped with a market order, was cancelled, or was traded,
      as taker or as maker. */
  ghost predicate Balances(b: Book, l: Ledger) {
    l.asked == Resting(b) + l.dropped + l.traded + l.traded + l.cancelled
  }

  /** What can be checked before a step: that the order does not run out inside a level, if it is reduced twice. */
  ghost predicate Exact(once: bool, b: Book, c: Cmd) {
    c.Place? && !once ==> !RunsOut(c.o, Opposite(b, c.o), c.o.quantity)
  }

  lemma StepBalances(once: bool, b: Book, c: Cmd, l: Ledger)
    requires TidyBook(b) && Balances(b, l)
    ensures Balances(Step(once, b, c), Booked(once, b, c, l)) <==> Exact(once, b, c)
  {
    match c
    case Place(o) =>
      MatchConserves(once, b, o);
      TakerIsConserved(once, o, Opposite(b, o), b.queues, o.quantity);
    case CancelId(id) => CancelConserves(b, id);
  }

  ghost predicate ExactRun(once: bool, cs: seq<Cmd>) {
    cs != [] ==>
      var init, c := cs[..|cs| - 1], cs[|cs| - 1];
      ExactRun(once, init) && Exact(once, Run(once, init), c)
  }

  /** The books balance after each step of the run. */
  ghost predicate BalancesAllAlong(once: bool, cs: seq<Cmd>) {
    cs != [] ==> BalancesAllAlong(once, cs[..|cs| - 1]) && Balances(Run(once, cs), Ledgers(once, cs))
  }

  lemma LongerRunBalances(once: bool, cs: seq<Cmd>)
    requires cs != []
    requires var init := cs[..|cs| - 1]; Balances(Run(once, init), Ledgers(once, init))
    ensures var init, c := cs[..|cs| - 1], cs[|cs| - 1];
      Balances(Run(once, cs), Ledgers(once, cs)) <==> Exact(once, Run(once, init), c)
  {
    var init := cs[..|cs| - 1];
    RunsStayTidy(once, init);
    StepBalances(once, Run(once, init), cs[|cs| - 1], Ledgers(once, init));
  }

  lemma NothingBalances(b: Book, l: Ledger)
    requires b.bids == [] && b.asks == [] && l == Ledger(0, 0, 0, 0)
    ensures Balances(b, l)
  {
  }

  /** Over any run of orders and cancellations, overdrawn or not, the books balance throughout exactly when
      no order of the run runs out inside a level; with levels reduced once, they always do. */
  lemma {:induction false} RunsBalanceUnlessRunOut(once: bool, cs: seq<Cmd>)
    ensures BalancesAllAlong(once, cs) <==> ExactRun(once, cs)
    ensures BalancesAllAlong(once, cs) ==> Balances(Run(once, cs), Ledgers(once, cs))
  {
    if cs == [] {
      NothingBalances(Run(once, cs), Ledgers(once, cs));
    } else {
      RunsBalanceUnlessRunOut(once, cs[..|cs| - 1]);
      if BalancesAllAlong(once, cs[..|cs| - 1]) {
        LongerRunBalances(once, cs);
      }
    }
  }

  lemma {:induction false} OnceIsExact(cs: seq<Cmd>)
    ensures ExactRun(true, cs)
  {
    if cs != [] {
      OnceIsExact(cs[..|cs| - 1]);
    }
  }

  /** Levels reduced once: the books balance after every run. */
  lemma RunsBalance(cs: seq<Cmd>)
    ensures Balances(Run(true, cs), Ledgers(true, cs))
  {
    OnceIsExact(cs);
    RunsBalanceUnlessRunOut(true, cs);
  }

  // ---- Runs that go wrong ----

  lemma RunOneMore(once: bool, cs: seq<Cmd>, c: Cmd)
    ensures Run(once, cs + [c]) == Step(once, Run(once, cs), c)
  {
    assert (cs + [c])[..|cs|] == cs;
  }

  /** Sell 10 at 100, buy 5 at 100, buy 5 at 101. The first buy takes half of the ask level, whose total
      then drops to 0 and not to 5; the second buy meets the empty level, trades nothing and rests: a bid at
      101 over an ask at 100. With the level reduced once the second buy is filled. */
  lemma DoubleReductionCrossesTheBook(sell: Order, buy: Order, later: Order)
    requires sell.side == SIDE_SELL && buy.side == later.side == SIDE_BUY
    requires sell.kind == buy.kind == later.kind == TYPE_LIMIT
    requires sell.quantity == 10 && buy.quantity == later.quantity == 5
    requires sell.price == buy.price == 100.0 && later.price == 101.0
    ensures !Uncrossed(Run(false, [Place(sell), Place(buy), Place(later)]))
    ensures var b := Run(true, [Place(sell), Place(buy), Place(later)]); b.bids == b.asks == []
  {
    Unrolled(false, sell, buy, later);
    Unrolled(true, sell, buy, later);
    AfterTheSell(false, sell);
    AfterTheSell(true, sell);
    var b, b' := AfterSell(false, sell), AfterSell(true, sell);
    AfterTheBuy(false, b, sell, buy);
    AfterTheBuy(true, b', sell, buy);
    MeetsAnEmptyLevel(Match(false, b, buy), sell, later);
    TakesTheRest(Match(true, b', buy), sell, later);
  }

  function AfterSell(once: bool, sell: Order): Book { Match(once, EMPTY_BOOK, sell) }

  function AskOf(sell: Order, total: int): Ladder { [Entry(100.0, LevelSpec.Level(100.0, total, [sell]))] }

  lemma AfterTheSell(once: bool, sell: Order)
    requires sell.side == SIDE_SELL && sell.kind == TYPE_LIMIT && sell.quantity == 10 && sell.price == 100.0
    ensures var b := AfterSell(once, sell); b.bids == [] && b.asks == AskOf(sell, 10)
  {
    var asks := RestOn(false, [], sell, 10);
    assert [] + [sell] == [sell];
    assert asks == AskOf(sell, 10);
  }

  lemma AfterTheBuy(once: bool, b: Book, sell: Order, buy: Order)
    requires b.bids == [] && b.asks == AskOf(sell, 10)
    requires buy.side == SIDE_BUY && buy.kind == TYPE_LIMIT && buy.quantity == 5 && buy.price == 100.0
    ensures var b' := Match(once, b, buy); b'.bids == [] && b'.asks == AskOf(sell, if once then 5 else 0)
  {
    var r := Walked(once, b, buy);
    assert r.ladder == AskOf(sell, if once then 5 else 0) && r.rem == 0;
  }

  lemma MeetsAnEmptyLevel(b: Book, sell: Order, later: Order)
    requires b.bids == [] && b.asks == AskOf(sell, 0)
    requires later.side == SIDE_BUY && later.kind == TYPE_LIMIT && later.quantity == 5 && later.price == 101.0
    ensures !Uncrossed(Match(false, b, later))
  {
    RestOnKeys(true, [], later, 5);
  }

  lemma TakesTheRest(b: Book, sell: Order, later: Order)
    requires b.bids == [] && b.asks == AskOf(sell, 5)
    requires later.side == SIDE_BUY && later.kind == TYPE_LIMIT && later.quantity == 5 && later.price == 101.0
    ensures var b' := Match(true, b, later); b'.bids == b'.asks == []
  {
    var qs := Popped(b.queues, 100.0) - {100.0};
    assert b.asks[1..] == [];
    assert Walk(true, later, b.asks[1..], qs, 0) == Matched([], [], qs, 0);
    assert Walked(true, b, later).ladder == [] && Walked(true, b, later).rem == 0;
  }

  /** Sell 10 at 100, buy 4 at 100, cancel the sell, buy 5 at 101. The cancellation takes 10 from a level that has
      less, whose total turns negative; the last buy meets that level, trades nothing and rests over it. Reducing
      levels once does not help. */
  lemma OverdrawnCancelCrossesTheBook(once: bool, sell: Order, buy: Order, later: Order)
    requires sell.side == SIDE_SELL && buy.side == later.side == SIDE_BUY
    requires sell.kind == buy.kind == later.kind == TYPE_LIMIT && sell.id == 1
    requires sell.quantity == 10 && buy.quantity == 4 && later.quantity == 5
    requires sell.price == buy.price == 100.0 && later.price == 101.0
    ensures !Uncrossed(Run(once, [Place(sell)] + [Place(buy)] + [CancelId(1)] + [Place(later)]))
  {
    RunOneMore(once, [], Place(sell));
    assert [] + [Place(sell)] == [Place(sell)];
    RunOneMore(once, [Place(sell)], Place(buy));
    RunOneMore(once, [Place(sell)] + [Place(buy)], CancelId(1));
    RunOneMore(once, [Place(sell)] + [Place(buy)] + [CancelId(1)], Place(later));
    AfterTheSell(once, sell);
    var b := AfterSell(once, sell);
    AfterSmallBuy(once, b, sell, buy);
    var left := if once then 6 else 2;
    AfterTheCancel(Match(once, b, buy), sell, left);
    BlockedByNegative(once, Cancel(Match(once, b, buy), 1), left - 10, later);
  }

  lemma AfterSmallBuy(once: bool, b: Book, sell: Order, buy: Order)
    requires b.bids == [] && b.asks == AskOf(sell, 10) && sell.id in b.orders && b.orders[sell.id] == sell
    requires buy.side == SIDE_BUY && buy.kind == TYPE_LIMIT && buy.quantity == 4 && buy.price == 100.0
    ensures var b' := Match(once, b, buy);
      b'.bids == [] && b'.asks == AskOf(sell, if once then 6 else 2) && b'.orders == b.orders
  {
    var r := Walked(once, b, buy);
    assert r.ladder == AskOf(sell, if once then 6 else 2) && r.rem == 0;
  }

  lemma AfterTheCancel(b: Book, sell: Order, left: int)
    requires b.bids == [] && b.asks == AskOf(sell, left) && sell.id in b.orders && b.orders[sell.id] == sell
    requires sell.side == SIDE_SELL && sell.price == 100.0 && sell.quantity == 10 && left < 10
    ensures var b' := Cancel(b, sell.id);
      b'.bids == [] && b'.asks == [Entry(100.0, LevelSpec.Level(100.0, left - 10, []))]
  {
    RankIs(false, b.asks, 100.0, 0);
    FindIs([sell], sell.id, 0);
    assert Drop([sell], sell.id) == [];
    assert Cancel(b, sell.id).asks == [Entry(100.0, LevelSpec.Level(100.0, left - 10, []))];
  }

  lemma BlockedByNegative(once: bool, b: Book, total: int, later: Order)
    requires b.bids == [] && b.asks == [Entry(100.0, LevelSpec.Level(100.0, total, []))] && total < 0
    requires later.side == SIDE_BUY && later.kind == TYPE_LIMIT && later.quantity == 5 && later.price == 101.0
    ensures !Uncrossed(Match(once, b, later))
  {
    RestOnKeys(true, [], later, 5);
  }

  /** A bid at 1, one at 1 + 0.8e-10, which joins its level, and one at 1 + 1.5e-10, which gets a level of its
      own in front: now the second bid's price ties with the new level first, and it cannot be cancelled. */
  lemma OffGridCancelFails(once: bool, x: Order, y: Order, z: Order)
    requires x.id != y.id && y.id != z.id && x.id != z.id
    requires x.side == y.side == z.side == SIDE_BUY && x.kind == y.kind == z.kind == TYPE_LIMIT
    requires x.quantity > 0 && y.quantity > 0 && z.quantity > 0
    requires x.price == 1.0 && y.price == 1.00000000008 && z.price == 1.00000000015
    ensures var b := Run(once, [Place(x), Place(y), Place(z)]); y.id in b.orders && !Cancellable(b, y.id)
  {
    var b1 := Match(once, EMPTY_BOOK, x);
    var b2 := Match(once, b1, y);
    Unrolled(once, x, y, z);
    assert b1.bids == [Entry(1.0, LevelSpec.Level(1.0, x.quantity, [] + [x]))];
    RankIs(true, b1.bids, y.price, 0);
    assert b2.bids == [Entry(1.0, LevelSpec.Level(1.0, x.quantity + y.quantity, [] + [x] + [y]))];
    Shadowed(once, b2, y, z);
  }

  lemma Shadowed(once: bool, b: Book, y: Order, z: Order)
    requires |b.bids| == 1 && b.bids[0].key == 1.0 && b.asks == [] && y.id in b.orders && b.orders[y.id] == y
    requires y.id != z.id && y.side == z.side == SIDE_BUY && z.kind == TYPE_LIMIT && z.quantity > 0
    requires y.price == 1.00000000008 && z.price == 1.00000000015
    ensures var b' := Match(once, b, z); y.id in b'.orders && !Cancellable(b', y.id)
  {
    var b' := Match(once, b, z);
    RankIs(true, b.bids, z.price, 0);
    assert b'.bids[0] == Entry(z.price, LevelSpec.Level(z.price, z.quantity, [] + [z]));
    RankIs(true, b'.bids, y.price, 0);
    FindMisses([] + [z], y.id);
    assert b'.orders[y.id] == y;
  }

  lemma Unrolled(once: bool, x: Order, y: Order, z: Order)
    ensures Run(once, [Place(x), Place(y), Place(z)]) == Match(once, Match(once, Match(once, EMPTY_BOOK, x), y), z)
  {
    assert [Place(x), Place(y), Place(z)][..2] == [Place(x), Place(y)];
    assert [Place(x), Place(y)][..1] == [Place(x)];
    assert [Place(x)][..0] == [];
    assert Run(once, [Place(x)]) == Match(once, EMPTY_BOOK, x);
    assert Run(once, [Place(x), Place(y)]) == Match(once, Match(once, EMPTY_BOOK, x), y);
  }
}
