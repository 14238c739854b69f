/** What the read-only queries of the skip tree mean on its ordered entries. */
module TreeQueries {
  import opened Types
  import opened Prices
  import opened SkipNodes

  type Levels = seq<Entry<PriceLevel>>

  /** The levels among the first `n` entries, in tree order. */
  ghost function Top(es: Levels, n: nat): (levels: seq<PriceLevel>)
    requires n <= |es|
    ensures |levels| == n && forall i :: 0 <= i < n ==> levels[i] == es[i].value
  {
    seq(n, i requires 0 <= i < n => es[i].value)
  }

  ghost function SumQty(es: Levels): int
    reads set e | e in es :: e.value
  {
    if es == [] then 0 else SumQty(es[..|es| - 1]) + es[|es| - 1].value.totalQty
  }

  ghost function CountOrders(es: Levels): nat
    reads set e | e in es :: e.value
  {
    if es == [] then 0 else CountOrders(es[..|es| - 1]) + |es[|es| - 1].value.orders|
  }

  /** What a callback answers, given all it has been called on, the last one included: it may keep state. */
  type Callback = Levels -> bool

  /** What a traversal with callback `fn` has visited when it ends, `seen` to begin with: it stops after the
      first refusal. */
  ghost function VisitedAfter(seen: Levels, es: Levels, fn: Callback): Levels
    decreases |es|
  {
    if es == [] then seen
    else
      var now := seen + [es[0]];
      if fn(now) then VisitedAfter(now, es[1..], fn) else now
  }

  ghost function Visited(es: Levels, fn: Callback): Levels { VisitedAfter([], es, fn) }

  /** The entries at or after `lo` and at or before `hi` in tree order. */
  ghost function Between(reverse: bool, es: Levels, lo: real, hi: real): Levels {
    if es == [] then []
    else
      (if Compare(reverse, es[0].key, lo) >= 0 && Compare(reverse, es[0].key, hi) <= 0 then [es[0]] else [])
      + Between(reverse, es[1..], lo, hi)
  }

  /** The entries at or after `lo` in tree order. */
  ghost function From(reverse: bool, es: Levels, lo: real): Levels {
    if es == [] then []
    else (if Compare(reverse, es[0].key, lo) >= 0 then [es[0]] else []) + From(reverse, es[1..], lo)
  }

  /** What a traversal that starts at the rank of `lo` has before it: all, or what `bound` admits. */
  ghost function Reach(reverse: bool, es: Levels, lo: real, bound: Option<real>): Levels {
    match bound
    case None => es
    case Some(hi) => Between(reverse, es, lo, hi)
  }

  predicate Admits(reverse: bool, key: real, bound: Option<real>) {
    bound == None || Compare(reverse, key, bound.value) <= 0
  }

  /** The entries from position `k` up to `m` are admitted, and all but perhaps the last accepted. */
  ghost predicate Passes(reverse: bool, es: Levels, k: nat, m: nat, bound: Option<real>, fn: Callback) {
    && k <= m <= |es|
    && (forall i :: k <= i < m ==> Admits(reverse, es[i].key, bound))
    && (forall i :: k < i < m ==> fn(es[k..i]))
  }

  /** A traversal that has passed the entries up to `m` may stop: refused, at the end, or past the bound. */
  ghost predicate Stops(reverse: bool, es: Levels, k: nat, m: nat, bound: Option<real>, fn: Callback)
    requires k <= m <= |es|
  {
    if k < m && !fn(es[k..m]) then true
    else m == |es| || !Admits(reverse, es[m].key, bound)
  }

  /** All entries passed so far were accepted, so the traversal goes on if it can. */
  ghost predicate GoesOn(reverse: bool, es: Levels, k: nat, m: nat, bound: Option<real>, fn: Callback) {
    Passes(reverse, es, k, m, bound, fn) && (k < m ==> fn(es[k..m]))
  }

  lemma PassOne(reverse: bool, es: Levels, k: nat, m: nat, bound: Option<real>, fn: Callback)
    requires GoesOn(reverse, es, k, m, bound, fn) && m < |es| && Admits(reverse, es[m].key, bound)
    ensures es[k..m] + [es[m]] == es[k..m + 1]
    ensures Passes(reverse, es, k, m + 1, bound, fn)
    ensures if fn(es[k..m + 1]) then GoesOn(reverse, es, k, m + 1, bound, fn)
            else Stops(reverse, es, k, m + 1, bound, fn)
  {
  }

  lemma {:induction false} VisitedIs(seen: Levels, rs: Levels, n: nat, fn: Callback)
    requires n <= |rs| && forall i :: 0 < i < n ==> fn(seen + rs[..i])
    requires if n > 0 && !fn(seen + rs[..n]) then true else n == |rs|
    ensures VisitedAfter(seen, rs, fn) == seen + rs[..n]
    decreases n
  {
    if n > 0 {
      var now, rest := seen + [rs[0]], rs[1..];
      SeenOne(seen, rs, 1);
      SeenOne(seen, rs, n);
      if fn(now) {
        forall i | 0 < i < n - 1
          ensures fn(now + rest[..i])
        {
          SeenOne(seen, rs, i + 1);
        }
        VisitedIs(now, rest, n - 1, fn);
      }
    }
  }

  lemma SeenOne(seen: Levels, rs: Levels, i: nat)
    requires 0 < i <= |rs|
    ensures seen + rs[..i] == (seen + [rs[0]]) + rs[1..][..i - 1]
    ensures i == 1 ==> seen + rs[..i] == seen + [rs[0]]
  {
  }

  /** As long as entries are admitted, a traversal has them before it in order. */
  lemma {:induction false} ReachPrefix(reverse: bool, es: Levels, k: nat, m: nat, lo: real, bound: Option<real>)
    requires Ordered(reverse, es) && Rank(reverse, es, lo) <= k <= m <= |es|
    requires forall i :: k <= i < m ==> Admits(reverse, es[i].key, bound)
    ensures Reach(reverse, es[k..], lo, bound) == es[k..m] + Reach(reverse, es[m..], lo, bound)
    decreases m - k
  {
    var all, rest := Reach(reverse, es[k..], lo, bound), Reach(reverse, es[m..], lo, bound);
    if k == m {
      PrependNothing(es, k, all);
    } else {
      ReachStep(reverse, es, k, lo, bound);
      ReachPrefix(reverse, es, k + 1, m, lo, bound);
      Prepend(es, k, m, all, Reach(reverse, es[k + 1..], lo, bound), rest);
    }
  }

  lemma PrependNothing(es: Levels, k: nat, all: Levels)
    requires k <= |es|
    ensures all == es[k..k] + all
  {
  }

  lemma Prepend(es: Levels, k: nat, m: nat, all: Levels, later: Levels, rest: Levels)
    requires k < m <= |es| && all == [es[k]] + later && later == es[k + 1..m] + rest
    ensures all == es[k..m] + rest
  {
    assert [es[k]] + es[k + 1..m] == es[k..m];
  }

  /** A stopped traversal has visited exactly what `Visited` says. */
  lemma StoppedVisits(reverse: bool, es: Levels, k: nat, m: nat, lo: real, bound: Option<real>, fn: Callback)
    requires Ordered(reverse, es) && Rank(reverse, es, lo) <= k
    requires Passes(reverse, es, k, m, bound, fn) && Stops(reverse, es, k, m, bound, fn)
    ensures es[k..m] == Visited(Reach(reverse, es[k..], lo, bound), fn)
  {
    var seen, rest := es[k..m], Reach(reverse, es[m..], lo, bound);
    assert Reach(reverse, es[k..], lo, bound) == seen + rest by {
      ReachPrefix(reverse, es, k, m, lo, bound);
    }
    if m == |es| || !Admits(reverse, es[m].key, bound) {
      NothingReached(reverse, es, m, lo, bound);
    }
    SeenIsVisited(es, k, m, rest, fn);
  }

  lemma SeenIsVisited(es: Levels, k: nat, m: nat, rest: Levels, fn: Callback)
    requires k <= m <= |es| && forall i :: k < i < m ==> fn(es[k..i])
    requires if k < m && !fn(es[k..m]) then true else rest == []
    ensures Visited(es[k..m] + rest, fn) == es[k..m]
  {
    var rs := es[k..m] + rest;
    assert forall i :: 0 <= i <= m - k ==> [] + rs[..i] == es[k..k + i];
    VisitedIs([], rs, m - k, fn);
  }

  lemma NothingReached(reverse: bool, es: Levels, k: nat, lo: real, bound: Option<real>)
    requires Ordered(reverse, es) && k <= |es|
    requires k == |es| || !Admits(reverse, es[k].key, bound)
    ensures Reach(reverse, es[k..], lo, bound) == []
  {
    if bound.Some? {
      BetweenEnds(reverse, es[k..], lo, bound.value);
    }
  }

  lemma ReachStep(reverse: bool, es: Levels, k: nat, lo: real, bound: Option<real>)
    requires Ordered(reverse, es) && Rank(reverse, es, lo) <= k < |es| && Admits(reverse, es[k].key, bound)
    ensures Reach(reverse, es[k..], lo, bound) == [es[k]] + Reach(reverse, es[k + 1..], lo, bound)
  {
    assert Compare(reverse, es[k].key, lo) >= 0 by {
      RankSplits(reverse, es, lo);
    }
    SplitFirst(es, k);
    ReachFirst(reverse, es[k], es[k + 1..], es[k..], lo, bound);
  }

  lemma SplitFirst(es: Levels, k: nat)
    requires k < |es|
    ensures es[k..] == [es[k]] + es[k + 1..]
  {
  }

  lemma ReachFirst(reverse: bool, e: Entry<PriceLevel>, rest: Levels, es: Levels, lo: real, bound: Option<real>)
    requires es == [e] + rest && Compare(reverse, e.key, lo) >= 0 && Admits(reverse, e.key, bound)
    ensures Reach(reverse, es, lo, bound) == [e] + Reach(reverse, rest, lo, bound)
  {
    assert es[1..] == rest;
  }

  lemma {:induction false} FromIsSuffix(reverse: bool, es: Levels, lo: real)
    requires Ordered(reverse, es)
    ensures From(reverse, es, lo) == es[Rank(reverse, es, lo)..]
  {
    if es != [] {
      var rest := es[1..];
      TailOrdered(reverse, es);
      FromIsSuffix(reverse, rest, lo);
      if Compare(reverse, es[0].key, lo) >= 0 {
        NothingBefore(reverse, es, lo);
        assert From(reverse, es, lo) == [es[0]] + From(reverse, rest, lo);
      } else {
        OneBefore(reverse, es, lo);
        assert From(reverse, es, lo) == From(reverse, rest, lo);
      }
    }
  }

  lemma OneBefore(reverse: bool, es: Levels, lo: real)
    requires es != [] && Compare(reverse, es[0].key, lo) < 0
    ensures es[1..][Rank(reverse, es[1..], lo)..] == es[Rank(reverse, es, lo)..]
  {
  }

  lemma TailOrdered(reverse: bool, es: Levels)
    requires Ordered(reverse, es) && es != []
    ensures Ordered(reverse, es[1..])
  {
  }

  lemma NothingBefore(reverse: bool, es: Levels, lo: real)
    requires Ordered(reverse, es) && es != [] && Compare(reverse, es[0].key, lo) >= 0
    ensures Rank(reverse, es, lo) == 0 && Rank(reverse, es[1..], lo) == 0
    ensures [es[0]] + es[1..][0..] == es[0..]
  {
    if |es| > 1 {
      assert Compare(reverse, es[1].key, lo) >= 0 by {
        RankSplits(reverse, es, lo);
      }
    }
    NoneBefore(reverse, es, lo);
    NoneBefore(reverse, es[1..], lo);
  }

  lemma NoneBefore(reverse: bool, es: Levels, lo: real)
    requires es != [] ==> Compare(reverse, es[0].key, lo) >= 0
    ensures Rank(reverse, es, lo) == 0
  {
  }

  /** Nothing before the rank of the lower bound is in range. */
  lemma {:induction false} BetweenStartsAtRank(reverse: bool, es: Levels, lo: real, hi: real)
    ensures Between(reverse, es, lo, hi) == Between(reverse, es[Rank(reverse, es, lo)..], lo, hi)
  {
    if es != [] && Compare(reverse, es[0].key, lo) < 0 {
      BetweenStartsAtRank(reverse, es[1..], lo, hi);
      assert es[Rank(reverse, es, lo)..] == es[1..][Rank(reverse, es[1..], lo)..];
    } else {
      assert es[0..] == es;
    }
  }

  /** Once an entry lies past the upper bound, so do all later ones. */
  lemma {:induction false} BetweenEnds(reverse: bool, es: Levels, lo: real, hi: real)
    requires Ordered(reverse, es)
    requires es != [] ==> Compare(reverse, es[0].key, hi) > 0
    ensures Between(reverse, es, lo, hi) == []
  {
    if |es| > 1 {
      assert Compare(reverse, es[0].key, es[1].key) < 0;
      BetweenEnds(reverse, es[1..], lo, hi);
    }
  }

  /** What is in range: prices from `lo` to `hi` in the tree's orientation, either bound relaxed by the tolerance. */
  predicate InRange(reverse: bool, key: real, lo: real, hi: real) {
    if reverse then hi - EPSILON <= key <= lo + EPSILON else lo - EPSILON <= key <= hi + EPSILON
  }

  /** The entries in range are one stretch of the tree. */
  lemma {:induction false} BetweenIsStretch(reverse: bool, es: Levels, lo: real, hi: real) returns (k: nat, m: nat)
    requires Ordered(reverse, es)
    ensures k <= m <= |es| && Between(reverse, es, lo, hi) == es[k..m]
    ensures forall i :: 0 <= i < |es| ==> (InRange(reverse, es[i].key, lo, hi) <==> k <= i < m)
  {
    if es == [] {
      k, m := 0, 0;
    } else {
      TailOrdered(reverse, es);
      k, m := BetweenIsStretch(reverse, es[1..], lo, hi);
      assert forall i :: 1 <= i < |es| ==> es[i] == es[1..][i - 1];
      assert es[1..][k..m] == es[k + 1..m + 1];
      if InRange(reverse, es[0].key, lo, hi) {
        StretchGrows(reverse, es, lo, hi, k, m);
        k, m := 0, if k < m then m + 1 else 1;
      } else {
        k, m := k + 1, m + 1;
      }
    }
  }

  /** If the first entry is in range, the stretch of the others starts right after it, or is empty. */
  lemma StretchGrows(reverse: bool, es: Levels, lo: real, hi: real, k: nat, m: nat)
    requires Ordered(reverse, es) && es != [] && InRange(reverse, es[0].key, lo, hi) && k <= m < |es|
    requires forall i :: 1 <= i < |es| ==> (InRange(reverse, es[i].key, lo, hi) <==> k < i <= m)
    ensures k < m ==> k == 0
    ensures k < m ==> [es[0]] + es[k + 1..m + 1] == es[0..m + 1]
    ensures k == m ==> [es[0]] + es[k + 1..m + 1] == es[0..1]
  {
    if 0 < k < m {
      assert Compare(reverse, es[0].key, es[1].key) < 0 && Compare(reverse, es[1].key, es[k + 1].key) < 0;
      assert InRange(reverse, es[k + 1].key, lo, hi);
      assert InRange(reverse, es[1].key, lo, hi);
    }
  }

  /** Totals are sums over the entries one by one. */
  lemma {:induction false} SumsAdd(es: Levels, fs: Levels)
    ensures SumQty(es + fs) == SumQty(es) + SumQty(fs)
    ensures CountOrders(es + fs) == CountOrders(es) + CountOrders(fs)
  {
    if fs == [] {
      assert es + fs == es;
    } else {
      SumsAdd(es, fs[..|fs| - 1]);
      assert (es + fs)[..|es + fs| - 1] == es + fs[..|fs| - 1];
    }
  }

  lemma SumsOfOne(e: Entry<PriceLevel>)
    ensures SumQty([e]) == e.value.totalQty && CountOrders([e]) == |e.value.orders|
  {
    assert [e][..0] == [];
  }

  /** In tree order the first entry is the lowest of an ascending tree and the highest of a descending one. */
  lemma EndsAreExtreme(reverse: bool, es: Levels, i: nat)
    requires Ordered(reverse, es) && i < |es|
    ensures !reverse ==> es[0].key <= es[i].key <= es[|es| - 1].key
    ensures reverse ==> es[|es| - 1].key <= es[i].key <= es[0].key
  {
    assert i > 0 ==> Compare(reverse, es[0].key, es[i].key) < 0;
    assert i < |es| - 1 ==> Compare(reverse, es[i].key, es[|es| - 1].key) < 0;
  }
}
