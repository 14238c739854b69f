/** Matching one order against the opposite side: the price levels of a tree, best first. `Walk` is
    the loop of `matchBuyOrder` and `matchSellOrder` on values; what it promises is proved here
    against definitions that do not walk. */
module Matching {
  import opened Types
  import opened Prices
  import opened LevelSpec

  type Ladder = seq<Entry<Level>>

  /** `maker` is the id popped from the level's queue; none when the queue is missing or empty. */
  datatype Trade = Trade(taker: nat, maker: Option<nat>, price: real, quantity: int)

  type Queues = map<real, seq<Order>>

  datatype Matched = Matched(trades: seq<Trade>, ladder: Ladder, queues: Queues, rem: int)

  function Lesser(a: int, b: int): int { if a < b then a else b }

  /** Whether the order may trade at this price; only limit orders are choosy. */
  predicate Crosses(order: Order, price: real) {
    order.kind == TYPE_LIMIT ==> if order.side == SIDE_BUY then order.price >= price else order.price <= price
  }

  /** A level's total after a fill of `m` that leaves something. The code reduces the level once in the
      loop and again in `updatePriceLevel`, which stops at zero; with `once` set it is reduced once. */
  function Residue(once: bool, total: int, m: int): int {
    if once then total - m else if total - m - m < 0 then 0 else total - m - m
  }

  function Front(queues: Queues, price: real): Option<nat> {
    if price in queues && queues[price] != [] then Some(queues[price][0].id) else None
  }

  function Popped(queues: Queues, price: real): Queues {
    if price in queues && queues[price] != [] then queues[price := queues[price][1..]] else queues
  }

  /** The loop stops: filled, the side empty, out of reach, or an empty level in front. */
  predicate Halts(order: Order, ladder: Ladder, rem: int) {
    rem <= 0 || ladder == [] || !Crosses(order, ladder[0].value.price) || ladder[0].value.totalQty <= 0
  }

  function Walk(once: bool, order: Order, ladder: Ladder, queues: Queues, rem: int): Matched {
    if Halts(order, ladder, rem) then
      Matched([], ladder, queues, rem)
    else
      var level := ladder[0].value;
      var m := Lesser(rem, level.totalQty);
      var trade := Trade(order.id, Front(queues, level.price), level.price, m);
      var qs := Popped(queues, level.price);
      if level.totalQty == m then
        var r := Walk(once, order, ladder[1..], qs - {level.price}, rem - m);
        r.(trades := [trade] + r.trades)
      else
        var left := level.(totalQty := Residue(once, level.totalQty, m));
        Matched([trade], ladder[0 := ladder[0].(value := left)], qs, rem - m)
  }

  /** The ladder after its best level has given `m`, reduced as the code does it. */
  function Taken(ladder: Ladder, m: int): Ladder
    requires ladder != []
  {
    var level := ladder[0].value;
    if level.totalQty == m then ladder[1..]
    else ladder[0 := ladder[0].(value := level.(totalQty := Residue(false, level.totalQty, m)))]
  }

  /** The queues after a trade of `m` with the best level. */
  function Served(ladder: Ladder, queues: Queues, m: int): Queues
    requires ladder != []
  {
    var p := ladder[0].value.price;
    if ladder[0].value.totalQty == m then Popped(queues, p) - {p} else Popped(queues, p)
  }

  /** What a matching loop returns that has already made the trades `done`. */
  function Resume(done: seq<Trade>, r: Matched): Matched { r.(trades := done + r.trades) }

  /** One turn of the loop leaves the outcome of the whole match as it was. */
  lemma WalkOneMore(order: Order, ladder: Ladder, queues: Queues, rem: int, done: seq<Trade>,
                    m: int, trade: Trade, ladder': Ladder, queues': Queues)
    requires !Halts(order, ladder, rem)
    requires m == Lesser(rem, ladder[0].value.totalQty)
    requires var p := ladder[0].value.price; trade == Trade(order.id, Front(queues, p), p, m)
    requires ladder' == Taken(ladder, m) && queues' == Served(ladder, queues, m)
    ensures Resume(done, Walk(false, order, ladder, queues, rem))
         == Resume(done + [trade], Walk(false, order, ladder', queues', rem - m))
  {
    var r' := Walk(false, order, ladder', queues', rem - m);
    assert done + [trade] + r'.trades == done + ([trade] + r'.trades);
    assert Walk(false, order, ladder, queues, rem) == r'.(trades := [trade] + r'.trades);
  }

  lemma WalkStops(order: Order, ladder: Ladder, queues: Queues, rem: int, done: seq<Trade>)
    requires Halts(order, ladder, rem)
    ensures Resume(done, Walk(false, order, ladder, queues, rem)) == Matched(done, ladder, queues, rem)
  {
    assert done + [] == done;
  }

  function Traded(trades: seq<Trade>): int {
    if trades == [] then 0 else trades[0].quantity + Traded(trades[1..])
  }

  /** The quantity resting on a ladder. */
  function Total(ladder: Ladder): int {
    if ladder == [] then 0 else ladder[0].value.totalQty + Total(ladder[1..])
  }

  /** The quantity resting on those levels, anywhere on the ladder, at which the order may trade. */
  function CrossQty(order: Order, ladder: Ladder): int {
    if ladder == [] then 0
    else
      (if Crosses(order, ladder[0].value.price) then ladder[0].value.totalQty else 0) + CrossQty(order, ladder[1..])
  }

  ghost predicate Stocked(ladder: Ladder) {
    forall i :: 0 <= i < |ladder| ==> ladder[i].value.totalQty > 0
  }

  ghost predicate Filed(ladder: Ladder) {
    forall i :: 0 <= i < |ladder| ==> ladder[i].value.price == ladder[i].key
  }

  /** Ordered by price and filed under its own prices: so is every side of every reachable book. */
  ghost predicate Tidy(reverse: bool, ladder: Ladder) {
    Ordered(reverse, ladder) && Filed(ladder)
  }

  /** A side of a sound book: tidy, and nothing on it is empty. */
  ghost predicate Sound(reverse: bool, ladder: Ladder) {
    Tidy(reverse, ladder) && Stocked(ladder)
  }

  /** The position of the first level with nothing left, where every walk ends; the length if there is none. */
  function FirstEmpty(ladder: Ladder): (k: nat)
    ensures k <= |ladder| && forall i :: 0 <= i < k ==> ladder[i].value.totalQty > 0
    ensures k < |ladder| ==> ladder[k].value.totalQty <= 0
  {
    if ladder == [] || ladder[0].value.totalQty <= 0 then 0
    else
      var k := FirstEmpty(ladder[1..]);
      assert forall i :: 0 < i < k + 1 ==> ladder[i] == ladder[1..][i - 1];
      k + 1
  }

  /** The opposite side of an order: bids descend, asks ascend. */
  predicate Facing(order: Order): (reverse: bool) { order.side != SIDE_BUY }

  lemma TailIsTidy(reverse: bool, ladder: Ladder)
    requires Tidy(reverse, ladder) && ladder != []
    ensures Tidy(reverse, ladder[1..])
  {
    RemovedKeepsOrdered(reverse, ladder, ladder[1..], 0);
  }

  // ---- What holds of any ladder ----

  /** Conservation: what the taker asked for is either traded or left over. */
  lemma {:induction false} TakerIsConserved(once: bool, order: Order, ladder: Ladder, queues: Queues, rem: int)
    ensures var r := Walk(once, order, ladder, queues, rem);
      && Traded(r.trades) + r.rem == rem
      && (rem >= 0 ==> r.rem >= 0)
      && (forall i :: 0 <= i < |r.trades| ==> r.trades[i].quantity > 0 && r.trades[i].taker == order.id)
    decreases |ladder|
  {
    var r := Walk(once, order, ladder, queues, rem);
    if r.trades != [] && ladder[0].value.totalQty <= rem {
      var tail, level := ladder[1..], ladder[0].value;
      var qs, rem' := Popped(queues, level.price) - {level.price}, rem - level.totalQty;
      TakerIsConserved(once, order, tail, qs, rem');
      TradedOne(r.trades, Walk(once, order, tail, qs, rem').trades);
    } else if r.trades != [] {
      TradedOne(r.trades, []);
    }
  }

  lemma TradedOne(trades: seq<Trade>, rest: seq<Trade>)
    requires trades != [] && trades == [trades[0]] + rest
    ensures Traded(trades) == trades[0].quantity + Traded(rest)
  {
    assert trades[1..] == rest;
  }

  /** The trade at position `i` is with level `i`, at that level's price, within the limit;
      every trade but the last takes the whole level. */
  ghost predicate TradeAt(order: Order, ladder: Ladder, trades: seq<Trade>, i: nat)
    requires i < |trades|
  {
    && i < |ladder|
    && trades[i].price == ladder[i].value.price && Crosses(order, trades[i].price)
    && trades[i].quantity <= ladder[i].value.totalQty
    && (i < |trades| - 1 ==> trades[i].quantity == ladder[i].value.totalQty)
  }

  /** The last of `n` trades left something of its level. */
  ghost predicate PartialEnd(ladder: Ladder, trades: seq<Trade>) {
    0 < |trades| <= |ladder| && trades[|trades| - 1].quantity != ladder[|trades| - 1].value.totalQty
  }

  /** The levels taken whole are gone. A last one that was not stays in front, all else unchanged, with its total
      less the quantity traded; as the code stands less twice that quantity, but not below zero. */
  ghost predicate Beyond(once: bool, ladder: Ladder, trades: seq<Trade>, ladder': Ladder) {
    var n := |trades|;
    && n <= |ladder|
    && if PartialEnd(ladder, trades)
       then
         var e, m := ladder[n - 1], trades[n - 1].quantity;
         var total := if once then e.value.totalQty - m
                      else if 2 * m >= e.value.totalQty then 0 else e.value.totalQty - 2 * m;
         ladder' == [Entry(e.key, Level(e.value.price, total, e.value.orders))] + ladder[n..]
       else ladder' == ladder[n..]
  }

  /** Trades take a best-first prefix of the levels, one trade per level. */
  lemma {:induction false} TradesAreAPrefix(once: bool, order: Order, ladder: Ladder, queues: Queues, rem: int)
    ensures var r := Walk(once, order, ladder, queues, rem);
      && (forall i :: 0 <= i < |r.trades| ==> TradeAt(order, ladder, r.trades, i))
      && Beyond(once, ladder, r.trades, r.ladder)
    decreases |ladder|
  {
    var r := Walk(once, order, ladder, queues, rem);
    if TakesFirst(order, ladder, rem) {
      var qs := Popped(queues, ladder[0].value.price) - {ladder[0].value.price};
      var r' := Walk(once, order, ladder[1..], qs, rem - ladder[0].value.totalQty);
      TradesAreAPrefix(once, order, ladder[1..], qs, rem - ladder[0].value.totalQty);
      TradesGrow(order, ladder, r'.trades, r.trades);
      BeyondGrows(once, ladder, r'.trades, r.trades, r.ladder);
    } else if r.trades != [] {
      assert r.ladder == [r.ladder[0]] + ladder[1..];
    }
  }

  /** The first level is taken whole and the walk goes on. */
  predicate TakesFirst(order: Order, ladder: Ladder, rem: int) {
    && ladder != [] && Crosses(order, ladder[0].value.price)
    && 0 < ladder[0].value.totalQty <= rem
  }

  lemma TradesGrow(order: Order, ladder: Ladder, ts: seq<Trade>, ts': seq<Trade>)
    requires ladder != [] && forall i :: 0 <= i < |ts| ==> TradeAt(order, ladder[1..], ts, i)
    requires ts' != [] && ts'[1..] == ts && ts'[0].price == ladder[0].value.price
    requires ts'[0].quantity == ladder[0].value.totalQty && Crosses(order, ladder[0].value.price)
    ensures forall i :: 0 <= i < |ts'| ==> TradeAt(order, ladder, ts', i)
  {
    forall i | 0 <= i < |ts'|
      ensures TradeAt(order, ladder, ts', i)
    {
      if i > 0 {
        assert TradeAt(order, ladder[1..], ts, i - 1);
        assert ts'[i] == ts[i - 1] && ladder[i] == ladder[1..][i - 1];
      }
    }
  }

  lemma BeyondGrows(once: bool, ladder: Ladder, ts: seq<Trade>, ts': seq<Trade>, ladder': Ladder)
    requires ladder != [] && Beyond(once, ladder[1..], ts, ladder')
    requires ts' != [] && ts'[1..] == ts && ts'[0].quantity == ladder[0].value.totalQty
    ensures Beyond(once, ladder, ts', ladder')
  {
    assert ladder[1..][|ts|..] == ladder[|ts'|..];
    if ts != [] && |ts| <= |ladder| - 1 {
      assert ts'[|ts'| - 1] == ts[|ts| - 1] && ladder[|ts'| - 1] == ladder[1..][|ts| - 1];
    }
  }

  /** A match stops only when the order is filled, the side is empty, its best level has nothing left, or a limit order
      does not accept its price; and no trade of a limit order is beyond its limit. */
  lemma {:induction false} MatchEnds(once: bool, order: Order, ladder: Ladder, queues: Queues, rem: int)
    ensures var r := Walk(once, order, ladder, queues, rem);
      && (r.rem <= 0 || r.ladder == [] || r.ladder[0].value.totalQty <= 0
          || PastLimit(order, r.ladder[0].value.price))
      && forall i :: 0 <= i < |r.trades| ==> !PastLimit(order, r.trades[i].price)
    decreases |ladder|
  {
    if TakesFirst(order, ladder, rem) {
      var qs := Popped(queues, ladder[0].value.price) - {ladder[0].value.price};
      MatchEnds(once, order, ladder[1..], qs, rem - ladder[0].value.totalQty);
    }
  }

  /** A limit order does not accept the price. */
  predicate PastLimit(order: Order, price: real) {
    order.kind == TYPE_LIMIT && if order.side == SIDE_BUY then price > order.price else price < order.price
  }

  // ---- What holds of a tidy ladder ----

  /** Prices strictly worsen from trade to trade, each by more than the tolerance. */
  lemma PricesWorsen(once: bool, order: Order, ladder: Ladder, queues: Queues, rem: int, i: nat, j: nat)
    requires Tidy(Facing(order), ladder)
    requires i < j < |Walk(once, order, ladder, queues, rem).trades|
    ensures var ts := Walk(once, order, ladder, queues, rem).trades; Worse(order, ts[i].price, ts[j].price)
  {
    TradesAreAPrefix(once, order, ladder, queues, rem);
    var ts := Walk(once, order, ladder, queues, rem).trades;
    assert TradeAt(order, ladder, ts, i) && TradeAt(order, ladder, ts, j);
    assert Compare(Facing(order), ladder[i].key, ladder[j].key) < 0;
  }

  /** The second price is worse for the order than the first, by more than the tolerance. */
  predicate Worse(order: Order, first: real, second: real) {
    if order.side == SIDE_BUY then second - first > EPSILON else first - second > EPSILON
  }

  /** Once the best level is out of reach, so is every level. */
  lemma NothingCrosses(order: Order, ladder: Ladder)
    requires Tidy(Facing(order), ladder)
    requires ladder != [] ==> !Crosses(order, ladder[0].value.price)
    ensures forall i :: 0 <= i < |ladder| ==> !Crosses(order, ladder[i].value.price)
  {
    forall i | 0 < i < |ladder|
      ensures !Crosses(order, ladder[i].value.price)
    {
      assert Compare(Facing(order), ladder[0].key, ladder[i].key) < 0;
    }
  }

  lemma {:induction false} NothingToCross(order: Order, ladder: Ladder)
    requires forall i :: 0 <= i < |ladder| ==> !Crosses(order, ladder[i].value.price)
    ensures CrossQty(order, ladder) == 0
  {
    if ladder != [] {
      NothingToCross(order, ladder[1..]);
    }
  }

  lemma {:induction false} QuantitiesArePositive(order: Order, ladder: Ladder)
    requires Stocked(ladder)
    ensures 0 <= CrossQty(order, ladder) <= Total(ladder)
  {
    if ladder != [] {
      QuantitiesArePositive(order, ladder[1..]);
    }
  }

  /** A level with nothing left stands in the way: the order has something left when it gets there,
      and would trade at that price. */
  ghost predicate Blocked(order: Order, ladder: Ladder, rem: int) {
    var k := FirstEmpty(ladder);
    k < |ladder| && Crosses(order, ladder[k].value.price) && rem > Total(ladder[..k])
  }

  lemma BlockedWhere(order: Order, ladder: Ladder, rem: int)
    requires Tidy(Facing(order), ladder)
    ensures TakesFirst(order, ladder, rem) ==>
      (Blocked(order, ladder, rem) <==> Blocked(order, ladder[1..], rem - ladder[0].value.totalQty))
    ensures !TakesFirst(order, ladder, rem) && rem > 0 && (ladder == [] || !Crosses(order, ladder[0].value.price)) ==>
      !Blocked(order, ladder, rem)
    ensures ladder != [] && 0 < rem < ladder[0].value.totalQty ==> !Blocked(order, ladder, rem)
    ensures ladder != [] && Crosses(order, ladder[0].value.price) && ladder[0].value.totalQty <= 0 && rem > 0 ==>
      Blocked(order, ladder, rem)
  {
    var k := FirstEmpty(ladder);
    if 0 < k < |ladder| {
      TotalOfTail(ladder, k - 1);
      PrefixIsPositive(ladder[..k], k);
      assert ladder[..k][..k] == ladder[..k];
    }
    if ladder == [] || !Crosses(order, ladder[0].value.price) {
      NothingCrosses(order, ladder);
    }
  }

  /** Maximal fill: an order left unfilled has nothing left to trade with, unless an empty level blocks it. */
  lemma {:induction false} FillIsMaximal(once: bool, order: Order, ladder: Ladder, queues: Queues, rem: int)
    requires Tidy(Facing(order), ladder)
    ensures var r := Walk(once, order, ladder, queues, rem);
      r.rem > 0 ==>
        ((forall i :: 0 <= i < |r.ladder| ==> !Crosses(order, r.ladder[i].value.price))
         <==> !Blocked(order, ladder, rem))
    decreases |ladder|
  {
    BlockedWhere(order, ladder, rem);
    if TakesFirst(order, ladder, rem) {
      var qs := Popped(queues, ladder[0].value.price) - {ladder[0].value.price};
      TailIsTidy(Facing(order), ladder);
      FillIsMaximal(once, order, ladder[1..], qs, rem - ladder[0].value.totalQty);
    } else if ladder == [] || !Crosses(order, ladder[0].value.price) {
      NothingCrosses(order, ladder);
    }
  }

  /** A blocked order has something left. */
  lemma {:induction false} BlockedLeavesSome(once: bool, order: Order, ladder: Ladder, queues: Queues, rem: int)
    requires Tidy(Facing(order), ladder) && Blocked(order, ladder, rem)
    ensures Walk(once, order, ladder, queues, rem).rem > 0
    decreases |ladder|
  {
    BlockedWhere(order, ladder, rem);
    if TakesFirst(order, ladder, rem) {
      var qs := Popped(queues, ladder[0].value.price) - {ladder[0].value.price};
      TailIsTidy(Facing(order), ladder);
      BlockedLeavesSome(once, order, ladder[1..], qs, rem - ladder[0].value.totalQty);
    } else {
      PrefixIsPositive(ladder, FirstEmpty(ladder));
    }
  }

  function Wanted(quantity: int): nat { if quantity > 0 then quantity else 0 }

  /** The traded quantity is what the order asks for, capped by what rests at prices it accepts before
      the first empty level; on a sound side, wherever those levels are. */
  lemma {:induction false} FillIsExact(once: bool, order: Order, ladder: Ladder, queues: Queues, rem: int)
    requires Tidy(Facing(order), ladder)
    ensures Traded(Walk(once, order, ladder, queues, rem).trades)
         == Lesser(Wanted(rem), CrossQty(order, ladder[..FirstEmpty(ladder)]))
    decreases |ladder|
  {
    if TakesFirst(order, ladder, rem) {
      var r, rem' := Walk(once, order, ladder, queues, rem), rem - ladder[0].value.totalQty;
      var qs := Popped(queues, ladder[0].value.price) - {ladder[0].value.price};
      TailIsTidy(Facing(order), ladder);
      FillIsExact(once, order, ladder[1..], qs, rem');
      FrontOfTail(order, ladder);
      assert r.trades[1..] == Walk(once, order, ladder[1..], qs, rem').trades;
    } else {
      FillEnds(once, order, ladder, queues, rem);
    }
  }

  lemma FrontOfTail(order: Order, ladder: Ladder)
    requires ladder != [] && Crosses(order, ladder[0].value.price) && ladder[0].value.totalQty > 0
    ensures CrossQty(order, ladder[..FirstEmpty(ladder)])
         == ladder[0].value.totalQty + CrossQty(order, ladder[1..][..FirstEmpty(ladder[1..])])
  {
    assert ladder[..FirstEmpty(ladder)][1..] == ladder[1..][..FirstEmpty(ladder[1..])];
  }

  lemma FillEnds(once: bool, order: Order, ladder: Ladder, queues: Queues, rem: int)
    requires Tidy(Facing(order), ladder) && !TakesFirst(order, ladder, rem)
    ensures Traded(Walk(once, order, ladder, queues, rem).trades)
         == Lesser(Wanted(rem), CrossQty(order, ladder[..FirstEmpty(ladder)]))
  {
    var r, front := Walk(once, order, ladder, queues, rem), ladder[..FirstEmpty(ladder)];
    QuantitiesArePositive(order, front);
    if ladder == [] || !Crosses(order, ladder[0].value.price) {
      NothingCrosses(order, ladder);
      NothingToCross(order, front);
    } else if rem > 0 && front != [] {
      QuantitiesArePositive(order, front[1..]);
      assert r.trades[1..] == [];
    }
  }

  /** What level `i` should give: nothing beyond the limit or an empty level, otherwise what the levels
      before it leave of the order, up to its total. */
  function Share(order: Order, ladder: Ladder, rem: int, i: nat): int
    requires i < |ladder|
  {
    var left := rem - Total(ladder[..i]);
    if i >= FirstEmpty(ladder) || !Crosses(order, ladder[i].value.price) || left <= 0 then 0
    else Lesser(left, ladder[i].value.totalQty)
  }

  function TradedAt(trades: seq<Trade>, i: nat): int {
    if i < |trades| then trades[i].quantity else 0
  }

  lemma TotalOfTail(ladder: Ladder, i: nat)
    requires ladder != [] && i < |ladder|
    ensures Total(ladder[..i + 1]) == ladder[0].value.totalQty + Total(ladder[1..][..i])
  {
    assert ladder[..i + 1][1..] == ladder[1..][..i];
  }

  lemma {:induction false} PrefixIsPositive(ladder: Ladder, i: nat)
    requires i <= FirstEmpty(ladder)
    ensures Total(ladder[..i]) >= 0
    ensures i > 0 ==> Total(ladder[..i]) >= ladder[0].value.totalQty
  {
    if i > 0 {
      PrefixIsPositive(ladder[1..], i - 1);
      TotalOfTail(ladder, i - 1);
    }
  }

  /** The walk gives every level exactly its share: a closed form for the whole match. */
  lemma {:induction false} EveryLevelGivesItsShare(
      once: bool, order: Order, ladder: Ladder, queues: Queues, rem: int, i: nat)
    requires Tidy(Facing(order), ladder) && i < |ladder|
    ensures TradedAt(Walk(once, order, ladder, queues, rem).trades, i) == Share(order, ladder, rem, i)
    decreases |ladder|
  {
    if TakesFirst(order, ladder, rem) && i > 0 {
      var tail, rem' := ladder[1..], rem - ladder[0].value.totalQty;
      var qs := Popped(queues, ladder[0].value.price) - {ladder[0].value.price};
      TailIsTidy(Facing(order), ladder);
      EveryLevelGivesItsShare(once, order, tail, qs, rem', i - 1);
      TradedAtTail(once, order, ladder, queues, rem, tail, qs, rem', i);
      ShareOfTail(order, ladder, rem, tail, rem', i);
    } else {
      ShareEnds(once, order, ladder, queues, rem, i);
    }
  }

  lemma TradedAtTail(once: bool, order: Order, ladder: Ladder, queues: Queues, rem: int,
                     tail: Ladder, qs: Queues, rem': int, i: nat)
    requires TakesFirst(order, ladder, rem) && i > 0
    requires tail == ladder[1..] && rem' == rem - ladder[0].value.totalQty
    requires qs == Popped(queues, ladder[0].value.price) - {ladder[0].value.price}
    ensures TradedAt(Walk(once, order, ladder, queues, rem).trades, i)
         == TradedAt(Walk(once, order, tail, qs, rem').trades, i - 1)
  {
  }

  lemma ShareOfTail(order: Order, ladder: Ladder, rem: int, tail: Ladder, rem': int, i: nat)
    requires TakesFirst(order, ladder, rem) && 0 < i < |ladder|
    requires tail == ladder[1..] && rem' == rem - ladder[0].value.totalQty
    ensures Share(order, ladder, rem, i) == Share(order, tail, rem', i - 1)
  {
    TotalOfTail(ladder, i - 1);
  }

  lemma ShareEnds(once: bool, order: Order, ladder: Ladder, queues: Queues, rem: int, i: nat)
    requires Tidy(Facing(order), ladder) && i < |ladder| && (i == 0 || !TakesFirst(order, ladder, rem))
    ensures TradedAt(Walk(once, order, ladder, queues, rem).trades, i) == Share(order, ladder, rem, i)
  {
    if i < FirstEmpty(ladder) {
      PrefixIsPositive(ladder, i);
    }
    if !Crosses(order, ladder[0].value.price) {
      NothingCrosses(order, ladder);
    }
  }

  // ---- The level reduced twice ----

  /** Which way a partly filled level is reduced changes neither the trades, nor the remainder, nor the
      queues, nor any other level. */
  lemma {:induction false} ReductionOnlyTouchesOneTotal(order: Order, ladder: Ladder, queues: Queues, rem: int)
    ensures var r, r' := Walk(true, order, ladder, queues, rem), Walk(false, order, ladder, queues, rem);
      && r.trades == r'.trades && r.queues == r'.queues && r.rem == r'.rem && |r.ladder| == |r'.ladder|
      && (r.ladder != [] ==>
            && r.ladder[1..] == r'.ladder[1..]
            && r.ladder[0].(value := r.ladder[0].value.(totalQty := 0))
               == r'.ladder[0].(value := r'.ladder[0].value.(totalQty := 0)))
    decreases |ladder|
  {
    if TakesFirst(order, ladder, rem) {
      var qs := Popped(queues, ladder[0].value.price) - {ladder[0].value.price};
      ReductionOnlyTouchesOneTotal(order, ladder[1..], qs, rem - ladder[0].value.totalQty);
    }
  }

  /** The order would run out inside level `k`, having taken all levels before it. */
  ghost predicate RunsOutAt(order: Order, ladder: Ladder, rem: int, k: nat)
    requires k < |ladder|
  {
    && k < FirstEmpty(ladder) && Crosses(order, ladder[k].value.price)
    && 0 < rem - Total(ladder[..k]) < ladder[k].value.totalQty
  }

  ghost predicate RunsOut(order: Order, ladder: Ladder, rem: int) {
    exists k :: 0 <= k < |ladder| && RunsOutAt(order, ladder, rem, k)
  }

  /** It would run out having taken at least half of the level. */
  ghost predicate HalfFills(order: Order, ladder: Ladder, rem: int) {
    exists k :: 0 <= k < |ladder| && HalfFillsAt(order, ladder, rem, k)
  }

  ghost predicate HalfFillsAt(order: Order, ladder: Ladder, rem: int, k: nat)
    requires k < |ladder|
  {
    RunsOutAt(order, ladder, rem, k) && 2 * (rem - Total(ladder[..k])) >= ladder[k].value.totalQty
  }

  /** Where the order runs out: in the first level, in a later one, or in none. */
  lemma RunsOutWhere(order: Order, ladder: Ladder, rem: int)
    requires Tidy(Facing(order), ladder)
    ensures TakesFirst(order, ladder, rem) ==>
      var tail, rem' := ladder[1..], rem - ladder[0].value.totalQty;
      && (RunsOut(order, ladder, rem) <==> RunsOut(order, tail, rem'))
      && (HalfFills(order, ladder, rem) <==> HalfFills(order, tail, rem'))
    ensures !TakesFirst(order, ladder, rem) ==>
      var first := ladder != [] && RunsOutAt(order, ladder, rem, 0);
      && (RunsOut(order, ladder, rem) <==> first)
      && (HalfFills(order, ladder, rem) <==> first && 2 * rem >= ladder[0].value.totalQty)
  {
    if TakesFirst(order, ladder, rem) {
      var tail, rem' := ladder[1..], rem - ladder[0].value.totalQty;
      assert !RunsOutAt(order, ladder, rem, 0);
      forall k | 0 <= k < |tail|
        ensures RunsOutAt(order, ladder, rem, k + 1) <==> RunsOutAt(order, tail, rem', k)
        ensures HalfFillsAt(order, ladder, rem, k + 1) <==> HalfFillsAt(order, tail, rem', k)
      {
        TotalOfTail(ladder, k);
      }
      forall k | 0 < k < |ladder|
        ensures RunsOutAt(order, ladder, rem, k) <==> RunsOutAt(order, tail, rem', k - 1)
        ensures HalfFillsAt(order, ladder, rem, k) <==> HalfFillsAt(order, tail, rem', k - 1)
      {
        TotalOfTail(ladder, k - 1);
      }
    } else {
      RunsOutFirst(order, ladder, rem);
      assert ladder != [] ==> (HalfFillsAt(order, ladder, rem, 0) <==>
                               RunsOutAt(order, ladder, rem, 0) && 2 * rem >= ladder[0].value.totalQty);
    }
  }

  lemma RunsOutFirst(order: Order, ladder: Ladder, rem: int)
    requires Tidy(Facing(order), ladder) && !TakesFirst(order, ladder, rem)
    ensures forall k :: 0 < k < |ladder| ==> !RunsOutAt(order, ladder, rem, k)
  {
    forall k | 0 < k < |ladder|
      ensures !RunsOutAt(order, ladder, rem, k)
    {
      if k < FirstEmpty(ladder) {
        PrefixIsPositive(ladder, k);
      }
      if !Crosses(order, ladder[0].value.price) {
        NothingCrosses(order, ladder);
      }
    }
  }

  /** With the level reduced twice, every level left keeps a positive total exactly when the order
      does not run out at or beyond the middle of a level. */
  lemma {:induction false} StaysStockedUnlessHalfFilled(order: Order, ladder: Ladder, queues: Queues, rem: int)
    requires Sound(Facing(order), ladder)
    ensures Stocked(Walk(false, order, ladder, queues, rem).ladder) <==> !HalfFills(order, ladder, rem)
    decreases |ladder|
  {
    RunsOutWhere(order, ladder, rem);
    if TakesFirst(order, ladder, rem) {
      var qs := Popped(queues, ladder[0].value.price) - {ladder[0].value.price};
      TailIsTidy(Facing(order), ladder);
      StaysStockedUnlessHalfFilled(order, ladder[1..], qs, rem - ladder[0].value.totalQty);
    } else if ladder != [] && RunsOutAt(order, ladder, rem, 0) {
      FirstHalfFilled(order, ladder, queues, rem);
    }
  }

  lemma FirstHalfFilled(order: Order, ladder: Ladder, queues: Queues, rem: int)
    requires Stocked(ladder) && ladder != [] && RunsOutAt(order, ladder, rem, 0)
    ensures Stocked(Walk(false, order, ladder, queues, rem).ladder) <==> 2 * rem < ladder[0].value.totalQty
  {
    var r := Walk(false, order, ladder, queues, rem);
    assert r.ladder[0].value.totalQty == Residue(false, ladder[0].value.totalQty, rem);
    assert forall i :: 0 < i < |ladder| ==> r.ladder[i] == ladder[i];
  }

  /** As long as the order has something left, so do the levels left behind it. */
  lemma {:induction false} LeftoverIsStocked(once: bool, order: Order, ladder: Ladder, queues: Queues, rem: int)
    requires Stocked(ladder)
    ensures var r := Walk(once, order, ladder, queues, rem); r.rem > 0 ==> Stocked(r.ladder)
    decreases |ladder|
  {
    if TakesFirst(order, ladder, rem) {
      var qs := Popped(queues, ladder[0].value.price) - {ladder[0].value.price};
      LeftoverIsStocked(once, order, ladder[1..], qs, rem - ladder[0].value.totalQty);
    }
  }

  /** Reduced once, every level left always keeps a positive total. */
  lemma {:induction false} StaysStockedOnce(order: Order, ladder: Ladder, queues: Queues, rem: int)
    requires Stocked(ladder)
    ensures Stocked(Walk(true, order, ladder, queues, rem).ladder)
    decreases |ladder|
  {
    if TakesFirst(order, ladder, rem) {
      var qs := Popped(queues, ladder[0].value.price) - {ladder[0].value.price};
      StaysStockedOnce(order, ladder[1..], qs, rem - ladder[0].value.totalQty);
    }
  }

  /** Order and filing are kept either way. */
  lemma {:induction false} StaysTidy(once: bool, order: Order, ladder: Ladder, queues: Queues, rem: int, reverse: bool)
    requires Tidy(reverse, ladder)
    ensures Tidy(reverse, Walk(once, order, ladder, queues, rem).ladder)
    decreases |ladder|
  {
    if TakesFirst(order, ladder, rem) {
      var qs := Popped(queues, ladder[0].value.price) - {ladder[0].value.price};
      TailIsTidy(reverse, ladder);
      StaysTidy(once, order, ladder[1..], qs, rem - ladder[0].value.totalQty, reverse);
    } else {
      SameKeysOrdered(reverse, ladder, Walk(once, order, ladder, queues, rem).ladder);
    }
  }

  /** Resting quantity, level reduced once: a match takes from any ladder exactly what it traded. */
  lemma {:induction false} LadderIsConservedOnce(order: Order, ladder: Ladder, queues: Queues, rem: int)
    ensures var r := Walk(true, order, ladder, queues, rem); Total(r.ladder) == Total(ladder) - Traded(r.trades)
    decreases |ladder|
  {
    var r := Walk(true, order, ladder, queues, rem);
    if TakesFirst(order, ladder, rem) {
      var qs := Popped(queues, ladder[0].value.price) - {ladder[0].value.price};
      LadderIsConservedOnce(order, ladder[1..], qs, rem - ladder[0].value.totalQty);
      assert r.trades[1..] == Walk(true, order, ladder[1..], qs, rem - ladder[0].value.totalQty).trades;
    } else if r.trades != [] {
      assert r.ladder[1..] == ladder[1..] && r.trades[1..] == [];
    }
  }

  /** Reduced twice: exactly when the order does not run out inside a level. */
  lemma {:induction false} LadderIsConserved(order: Order, ladder: Ladder, queues: Queues, rem: int)
    requires Tidy(Facing(order), ladder)
    ensures var r := Walk(false, order, ladder, queues, rem);
      Total(r.ladder) == Total(ladder) - Traded(r.trades) <==> !RunsOut(order, ladder, rem)
    decreases |ladder|
  {
    RunsOutWhere(order, ladder, rem);
    var r := Walk(false, order, ladder, queues, rem);
    if TakesFirst(order, ladder, rem) {
      var qs := Popped(queues, ladder[0].value.price) - {ladder[0].value.price};
      TailIsTidy(Facing(order), ladder);
      LadderIsConserved(order, ladder[1..], qs, rem - ladder[0].value.totalQty);
      assert r.trades[1..] == Walk(false, order, ladder[1..], qs, rem - ladder[0].value.totalQty).trades;
    } else if ladder != [] && RunsOutAt(order, ladder, rem, 0) {
      assert r.ladder[1..] == ladder[1..] && r.trades[1..] == [];
    }
  }
}
