/** Which ways of using the ring are safe, exactly: over all runs in which given actors push, given actors use `Pop`
    and given actors use `BatchPop`, on a ring of any capacity. An actor may do more than one of these. */
module RingPatterns {
  import opened Bits
  import opened RingSteps
  import opened RingFifo
  import opened RingSwap
  import opened RingLone
  import opened RingConsumer
  import opened RingFailures
  import opened RingMisses
  import opened RingRefusals

  function Consumers(u: Usage): set<nat> { u.poppers + u.batchers }

  function Users(u: Usage): set<nat> { u.pushers + Consumers(u) }

  /** The users are among the actors, and the counters of one turn of the ring and one ticket more stay below 2^64. */
  predicate Fits(u: Usage, bits: nat, actors: nat) {
    (forall a :: a in Users(u) ==> a < actors) && Pow2(bits) + 1 < TWO64
  }

  /** No run returns an item twice. */
  ghost predicate NeverDuplicates<T(!new)>(bits: nat, actors: nat, u: Usage) {
    forall es: seq<Event<T>> :: AllUse(es, u) && Bounded(Run(bits, actors, es)) ==> !Duplicates(Run(bits, actors, es))
  }

  /** No run loses an accepted item. */
  ghost predicate NeverLoses<T(!new)>(bits: nat, actors: nat, u: Usage) {
    forall es: seq<Event<T>> :: AllUse(es, u) && Bounded(Run(bits, actors, es)) ==> !Loses(Run(bits, actors, es))
  }

  /** No run returns an item under another ticket than it was pushed under. */
  ghost predicate NeverReorders<T(!new)>(bits: nat, actors: nat, u: Usage) {
    forall es: seq<Event<T>> :: AllUse(es, u) && Bounded(Run(bits, actors, es)) ==> !Reorders(Run(bits, actors, es))
  }

  /** No push returns false although the ring was not full when it loaded `tail`. */
  ghost predicate NeverRefusesWithRoom<T(!new)>(bits: nat, actors: nat, u: Usage) {
    forall es: seq<Event<T>> ::
      AllUse(es, u) && Bounded(Run(bits, actors, es)) ==> !RefusesWithRoom(bits, actors, es)
  }

  /** No call returns nothing while the ring holds an item all through it. */
  ghost predicate NeverMisses<T(!new)>(bits: nat, actors: nat, u: Usage) {
    forall path: seq<Ring<T>>, c: nat ::
      path != [] && path[0].bits == bits && |path[0].actors| == actors ==> !Misses(path, u, c)
  }

  // ---- Choosing actors ----

  lemma AtMostOne(s: set<nat>) returns (c: nat)
    requires |s| <= 1
    ensures forall a :: a in s ==> a == c
  {
    if s == {} {
      c := 0;
    } else {
      c :| c in s;
      forall a | a in s
        ensures a == c
      {
        if a != c {
          SubsetSize({a, c}, s);
        }
      }
    }
  }

  lemma AtMostTwo(s: set<nat>) returns (a: nat, b: nat)
    requires |s| <= 2
    ensures forall x :: x in s ==> x == a || x == b
  {
    if s == {} {
      a, b := 0, 0;
    } else {
      a :| a in s;
      assert |s - {a}| == |s| - 1;
      b := AtMostOne(s - {a});
      assert forall x :: x in s && x != a ==> x in s - {a};
    }
  }

  lemma AnotherOne(s: set<nat>, c: nat) returns (d: nat)
    requires |s| >= 2
    ensures d in s && d != c
  {
    if s <= {c} {
      SubsetSize(s, {c});
    }
    d :| d in s && d != c;
  }

  lemma AThird(s: set<nat>, a: nat, b: nat) returns (c: nat)
    requires |s| >= 3
    ensures c in s && c != a && c != b
  {
    assert |{a, b}| <= 2;
    if s <= {a, b} {
      SubsetSize(s, {a, b});
    }
    c :| c in s && c != a && c != b;
  }

  /** A producer and two consumers, all different, unless two producers and a consumer are. */
  lemma ThreeUsers(u: Usage, bits: nat, actors: nat) returns (x: nat, y: nat, z: nat)
    requires Fits(u, bits, actors) && u.pushers != {} && Consumers(u) != {} && |Users(u)| >= 3
    ensures Trio(u, actors, x, y, z) || Pair(u, actors, x, y, z)
  {
    x :| x in u.pushers;
    if c :| c in Consumers(u) && c != x {
      var third := AThird(Users(u), x, c);
      y, z := if third in Consumers(u) then c else third, if third in Consumers(u) then third else c;
    } else {
      z := x;
      x := AThird(Users(u), z, z);
      y := AThird(Users(u), x, z);
    }
  }

  /** Three different users, of whom two are producers if there are two producers. */
  lemma TwoProducers(u: Usage, bits: nat, actors: nat) returns (p: nat, q: nat, d: nat)
    requires Fits(u, bits, actors) && |u.pushers| >= 2 && Consumers(u) != {} && |Users(u)| >= 3
    ensures Pair(u, actors, p, q, d)
  {
    d :| d in Consumers(u);
    p := AnotherOne(u.pushers, d);
    if q' :| q' in u.pushers && q' != p && q' != d {
      q := q';
    } else {
      q := AnotherOne(u.pushers, p);
      d := AThird(Users(u), p, q);
    }
  }

  /** A producer, a consumer using `Pop` and another consumer, all different. */
  lemma PopTrio(u: Usage, bits: nat, actors: nat) returns (p: nat, c: nat, d: nat)
    requires Fits(u, bits, actors) && u.pushers != {} && u.poppers != {} && |Consumers(u)| >= 2 && |Users(u)| >= 3
    requires |u.pushers| >= 2 || !(u.poppers <= u.pushers)
    ensures Trio(u, actors, p, c, d) && c in u.poppers
  {
    if c' :| c' in u.poppers && c' !in u.pushers {
      c := c';
      p :| p in u.pushers;
    } else {
      c :| c in u.poppers;
      p := AnotherOne(u.pushers, c);
    }
    if d' :| d' in Consumers(u) && d' != c && d' != p {
      d := d';
    } else {
      d := AnotherOne(Consumers(u), c);
      p := AThird(Users(u), c, d);
    }
  }

  // ---- What the users do ----

  lemma UsesOneProducer<T(!new)>(es: seq<Event<T>>, u: Usage, p: nat)
    requires AllUse(es, u) && forall a :: a in u.pushers ==> a == p
    ensures SingleProducer(es, p)
  {
    forall i | 0 <= i < |es| && es[i].StartPush?
      ensures es[i].a == p
    {
      assert Uses(es[i], u);
    }
  }

  lemma UsesSwap<T(!new)>(es: seq<Event<T>>, u: Usage)
    requires AllUse(es, u) && u.poppers == {}
    ensures SwapOnly(es)
  {
    forall i | 0 <= i < |es|
      ensures !es[i].StartPop?
    {
      assert Uses(es[i], u);
    }
  }

  lemma UsesLone<T(!new)>(es: seq<Event<T>>, u: Usage, p: nat)
    requires AllUse(es, u) && u.poppers <= u.pushers && forall a :: a in u.pushers ==> a == p
    ensures LoneEnds(es, p)
  {
    forall i | 0 <= i < |es|
      ensures LoneEnd(es[i], p)
    {
      assert Uses(es[i], u);
    }
  }

  /** Nobody can be lapped: there is no producer, no consumer, or no third user. */
  predicate Paired(u: Usage) {
    u.pushers == {} || Consumers(u) == {} || |Users(u)| <= 2
  }

  lemma PairedRunNoLap<T(!new)>(bits: nat, actors: nat, u: Usage, es: seq<Event<T>>)
    requires Paired(u) && AllUse(es, u) && Bounded(Run(bits, actors, es))
    ensures RunNoLap(bits, actors, es)
  {
    assert forall i :: 0 <= i < |es| ==> Uses(es[i], u);
    if |Users(u)| <= 2 {
      var a, b := AtMostTwo(Users(u));
      assert forall i :: 0 <= i < |es| ==> es[i].Step? || es[i].a in Users(u);
      TwoRunNoLap(bits, actors, es, a, b);
    } else {
      assert forall i :: 0 <= i < |es| && (es[i].StartPop? || es[i].StartBatch?) ==> es[i].a in Consumers(u);
      OneWayRunNoLap(bits, actors, es);
    }
  }

  /** What a reached state shows, some run shows. */
  lemma SomeRun<T(!new)>(s: Ring<T>, u: Usage) returns (es: seq<Event<T>>)
    requires Reachable(s, u)
    ensures AllUse(es, u) && Run(s.bits, |s.actors|, es) == s
  {
    es :| AllUse(es, u) && Run(s.bits, |s.actors|, es) == s;
  }

  // ---- Order ----

  lemma DoesNotReorder<T(!new)>(bits: nat, actors: nat, u: Usage, es: seq<Event<T>>)
    requires Paired(u) && AllUse(es, u) && Bounded(Run(bits, actors, es))
    ensures !Reorders(Run(bits, actors, es)) && !Duplicates(Run(bits, actors, es))
  {
    PairedRunNoLap(bits, actors, u, es);
    HandoffIsFifo(bits, actors, es);
  }

  lemma ReordersSomewhere<T(!new)>(bits: nat, actors: nat, u: Usage, x: T) returns (s: Ring<T>)
    requires Fits(u, bits, actors) && !Paired(u)
    ensures Reachable(s, u) && Reorders(s) && s.bits == bits && |s.actors| == actors && s.head == Pow2(bits) + 1
  {
    var a, b, c := ThreeUsers(u, bits, actors);
    if Trio(u, actors, a, b, c) {
      s := OvertakingReorders(bits, actors, u, a, b, c, x);
    } else {
      s := LappedPushReorders(bits, actors, u, a, b, c, x);
    }
  }

  /** Every consumer ticket gets the item of the producer ticket of the same number, in every run, exactly when the
      ring has no producer, no consumer, or at most two users, such as one of each. */
  lemma NeverReordersExactly<T(!new)>(bits: nat, actors: nat, u: Usage, x: T)
    requires Fits(u, bits, actors)
    ensures NeverReorders<T>(bits, actors, u) <==> u.pushers == {} || Consumers(u) == {} || |Users(u)| <= 2
  {
    if Paired(u) {
      forall es: seq<Event<T>> | AllUse(es, u) && Bounded(Run(bits, actors, es))
        ensures !Reorders(Run(bits, actors, es))
      {
        DoesNotReorder(bits, actors, u, es);
      }
    } else {
      var s := ReordersSomewhere(bits, actors, u, x);
      var es := SomeRun(s, u);
      assert Bounded(Run(bits, actors, es)) && Reorders(Run(bits, actors, es));
    }
  }

  // ---- Duplication ----

  lemma OneConsumerDoesNotDuplicate<T(!new)>(bits: nat, actors: nat, u: Usage, es: seq<Event<T>>)
    requires |Consumers(u)| <= 1 && AllUse(es, u) && Bounded(Run(bits, actors, es))
    ensures !Duplicates(Run(bits, actors, es))
  {
    var s := Run(bits, actors, es);
    var c := AtMostOne(Consumers(u));
    OnlyConsumer(es, u, c);
    forall v, w | v in s.got && w in s.got && v != w
      ensures s.got[v].Full? && s.got[w].Full? && s.got[v].from != s.got[w].from
    {
      SingleConsumerNoDuplication(bits, actors, es, c, v, w);
    }
  }

  lemma FirmDoesNotDuplicate<T(!new)>(bits: nat, actors: nat, es: seq<Event<T>>)
    requires FirmRun(bits, actors, es) && Bounded(Run(bits, actors, es))
    ensures !Duplicates(Run(bits, actors, es))
  {
    var s := Run(bits, actors, es);
    forall v, w | v in s.got && w in s.got && v != w
      ensures s.got[v].Full? && s.got[w].Full? && s.got[v].from != s.got[w].from
    {
      NoDuplication(bits, actors, es, v, w);
    }
  }

  lemma DoesNotDuplicate<T(!new)>(bits: nat, actors: nat, u: Usage, es: seq<Event<T>>)
    requires || Paired(u) || u.poppers == {} || |Consumers(u)| <= 1
             || (|u.pushers| <= 1 && u.poppers <= u.pushers)
    requires AllUse(es, u) && Bounded(Run(bits, actors, es))
    ensures !Duplicates(Run(bits, actors, es))
  {
    if Paired(u) {
      DoesNotReorder(bits, actors, u, es);
    } else if |Consumers(u)| <= 1 {
      OneConsumerDoesNotDuplicate(bits, actors, u, es);
    } else {
      if u.poppers == {} {
        UsesSwap(es, u);
        SwapRunsAreFirm(bits, actors, es);
      } else {
        var p := AtMostOne(u.pushers);
        UsesLone(es, u, p);
        LoneRunsAreFirm(bits, actors, es, p);
      }
      FirmDoesNotDuplicate(bits, actors, es);
    }
  }

  /** No run returns an item twice exactly when the ring has no producer, at most one consumer, none that uses `Pop`,
      at most two users, or a single producer that alone uses `Pop`. */
  lemma NeverDuplicatesExactly<T(!new)>(bits: nat, actors: nat, u: Usage, x: T)
    requires Fits(u, bits, actors)
    ensures NeverDuplicates<T>(bits, actors, u) <==>
      || u.pushers == {} || |Consumers(u)| <= 1 || u.poppers == {} || |Users(u)| <= 2
      || (|u.pushers| <= 1 && u.poppers <= u.pushers)
  {
    if Paired(u) || u.poppers == {} || |Consumers(u)| <= 1 || (|u.pushers| <= 1 && u.poppers <= u.pushers) {
      forall es: seq<Event<T>> | AllUse(es, u) && Bounded(Run(bits, actors, es))
        ensures !Duplicates(Run(bits, actors, es))
      {
        DoesNotDuplicate(bits, actors, u, es);
      }
    } else {
      var p, c, d := PopTrio(u, bits, actors);
      var s := PopDuplicates(bits, actors, u, p, c, d, x);
      var es := SomeRun(s, u);
      assert Bounded(Run(bits, actors, es)) && Duplicates(Run(bits, actors, es));
    }
  }

  // ---- Loss ----

  lemma DoesNotLose<T(!new)>(bits: nat, actors: nat, u: Usage, es: seq<Event<T>>)
    requires Paired(u) || (|u.pushers| <= 1 && u.poppers <= u.pushers)
    requires AllUse(es, u) && Bounded(Run(bits, actors, es))
    ensures !Loses(Run(bits, actors, es))
  {
    if Paired(u) {
      PairedRunNoLap(bits, actors, u, es);
      FifoLosesNothing(bits, actors, es);
    } else {
      var p := AtMostOne(u.pushers);
      UsesLone(es, u, p);
      UsesOneProducer(es, u, p);
      LoneRunsAreFirm(bits, actors, es, p);
      SingleProducerLosesNothing(bits, actors, es, p);
    }
  }

  lemma FifoLosesNothing<T(!new)>(bits: nat, actors: nat, es: seq<Event<T>>)
    requires RunNoLap(bits, actors, es) && Bounded(Run(bits, actors, es))
    ensures !Loses(Run(bits, actors, es))
  {
    FifoAlways(bits, actors, es);
    var s := Run(bits, actors, es);
    forall t | 0 <= t < |s.fates|
      ensures s.fates[t] != Lost
    {
      assert TicketOk(s, t);
    }
  }

  lemma LosesSomewhere<T(!new)>(bits: nat, actors: nat, u: Usage, x: T) returns (s: Ring<T>)
    requires Fits(u, bits, actors) && !Paired(u) && (|u.pushers| >= 2 || !(u.poppers <= u.pushers))
    ensures Reachable(s, u) && Loses(s) && s.bits == bits && |s.actors| == actors && s.head == Pow2(bits) + 1
  {
    if |u.pushers| >= 2 {
      var p, q, d := TwoProducers(u, bits, actors);
      s := LappedPushLosesAnItem(bits, actors, u, p, q, d, x);
    } else {
      var p :| p in u.pushers;
      if |Consumers(u)| <= 1 {
        SubsetSize(Users(u), {p} + Consumers(u));
      }
      var p', c, d := PopTrio(u, bits, actors);
      s := PopLosesAnItem(bits, actors, u, p', c, d, x);
    }
  }

  /** No run loses an accepted item exactly when the ring has no producer, no consumer, at most two users, or a single
      producer besides whom nobody uses `Pop`. */
  lemma NeverLosesExactly<T(!new)>(bits: nat, actors: nat, u: Usage, x: T)
    requires Fits(u, bits, actors)
    ensures NeverLoses<T>(bits, actors, u) <==>
      || u.pushers == {} || Consumers(u) == {} || |Users(u)| <= 2 || (|u.pushers| <= 1 && u.poppers <= u.pushers)
  {
    if Paired(u) || (|u.pushers| <= 1 && u.poppers <= u.pushers) {
      forall es: seq<Event<T>> | AllUse(es, u) && Bounded(Run(bits, actors, es))
        ensures !Loses(Run(bits, actors, es))
      {
        DoesNotLose(bits, actors, u, es);
      }
    } else {
      var s := LosesSomewhere(bits, actors, u, x);
      var es := SomeRun(s, u);
      assert Bounded(Run(bits, actors, es)) && Loses(Run(bits, actors, es));
    }
  }

  // ---- Refusal ----

  lemma DoesNotRefuse<T(!new)>(bits: nat, actors: nat, u: Usage, es: seq<Event<T>>)
    requires |u.pushers| <= 1 || Consumers(u) == {}
    requires AllUse(es, u) && Bounded(Run(bits, actors, es))
    ensures !RefusesWithRoom(bits, actors, es)
  {
    forall i: nat, a: nat | ReturnsFalse(bits, actors, es, i, a)
      ensures !HasRoom(Run(bits, actors, es[..i]))
    {
      RefusalMeaning(bits, actors, es, i, a);
      HeadGrows(bits, actors, es, i);
      CountersAlways(bits, actors, es[..i]);
      if |u.pushers| <= 1 {
        var p := AtMostOne(u.pushers);
        UsesOneProducer(es, u, p);
        FreshHeadAlways(bits, actors, es[..i], p);
      } else {
        assert forall k :: 0 <= k < |es| ==> Uses(es[k], u);
        NothingTaken(bits, actors, es[..i]);
      }
    }
  }

  /** No push returns false with room in the ring exactly when there is at most one producer, or nobody takes
      anything. */
  lemma NeverRefusesExactly<T(!new)>(bits: nat, actors: nat, u: Usage, x: T)
    requires Fits(u, bits, actors)
    ensures NeverRefusesWithRoom<T>(bits, actors, u) <==> |u.pushers| <= 1 || Consumers(u) == {}
  {
    if |u.pushers| <= 1 || Consumers(u) == {} {
      forall es: seq<Event<T>> | AllUse(es, u) && Bounded(Run(bits, actors, es))
        ensures !RefusesWithRoom(bits, actors, es)
      {
        DoesNotRefuse(bits, actors, u, es);
      }
    } else {
      var d :| d in Consumers(u);
      var p := AnotherOne(u.pushers, d);
      var q := AnotherOne(u.pushers, p);
      assert p in Users(u) && q in Users(u) && d in Users(u);
      var es := RefusedOnEmptyRing(bits, actors, u, p, q, d, x);
      assert Bounded(Run(bits, actors, es)) && RefusesWithRoom(bits, actors, es);
    }
  }

  // ---- Missing ----

  /** No call of `Pop` or `BatchPop` returns nothing while the ring holds an item all through it exactly when there is
      no producer, at most one consumer, or a single slot. */
  lemma NeverMissesExactly<T(!new)>(bits: nat, actors: nat, u: Usage, x: T)
    requires Fits(u, bits, actors)
    ensures NeverMisses<T>(bits, actors, u) <==> u.pushers == {} || |Consumers(u)| <= 1 || bits == 0
  {
    if u.pushers == {} || |Consumers(u)| <= 1 || bits == 0 {
      forall path: seq<Ring<T>>, c: nat | path != [] && path[0].bits == bits && |path[0].actors| == actors
        ensures !Misses(path, u, c)
      {
        DoesNotMiss(path, u, c);
      }
    } else {
      var p :| p in u.pushers;
      var c := AnotherOne(Consumers(u), p);
      var d := AnotherOne(Consumers(u), c);
      assert p in Users(u) && c in Users(u) && d in Users(u);
      var path := CallMisses(bits, actors, u, p, c, d, x);
    }
  }

  lemma DoesNotMiss<T(!new)>(path: seq<Ring<T>>, u: Usage, c: nat)
    requires path != [] && (u.pushers == {} || |Consumers(u)| <= 1 || path[0].bits == 0)
    ensures !Misses(path, u, c)
  {
    if u.pushers == {} {
      NothingHeld(path, u);
    } else if |Consumers(u)| <= 1 {
      var k := AtMostOne(Consumers(u));
      NoCallMisses(path, u, c, k);
    } else {
      NoCallMisses(path, u, c, 0);
    }
  }
}
