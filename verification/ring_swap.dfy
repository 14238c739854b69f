/** Conservation, lapped or not, in every run in which no item goes from under a `Pop` that has loaded it (`Firm`):
    each accepted item is in exactly one place. So it is when all consumers take items by the atomic swap of
    `BatchPop`, and when the only producer is the only one to use `Pop`. */
module RingSwap {
  import opened RingBuffers
  import opened RingSteps
  import opened RingFifo

  ghost predicate SwapOnly<T>(es: seq<Event<T>>) {
    forall i :: 0 <= i < |es| ==> !es[i].StartPop?
  }

  ghost predicate Popping<T>(pc: PC<T>) {
    pc.PopHead? || pc.PopTail? || pc.PopTry? || pc.PopWait? || pc.PopClear?
  }

  /** What a `Pop` has loaded and not yet cleared is still in its slot. */
  ghost predicate Firm<T>(s: Ring<T>)
    requires |s.slots| == Capacity(s)
  {
    forall a :: 0 <= a < |s.actors| ==>
      var pc := s.actors[a]; pc.PopClear? ==> s.slots[Slot(pc.u, s.bits)] == Full(pc.x, pc.f)
  }

  /** That holds before every step of the run. */
  ghost predicate FirmRun<T>(bits: nat, actors: nat, es: seq<Event<T>>) {
    es != [] ==> FirmRun(bits, actors, es[..|es| - 1]) && Firm(Run(bits, actors, es[..|es| - 1]))
  }

  /** The place of an accepted item agrees with its fate. */
  ghost predicate Placed<T>(s: Ring<T>, t: nat)
    requires t < |s.fates| && t < |s.items| && |s.slots| == Capacity(s)
  {
    match s.fates[t]
    case InSlot => s.slots[Slot(t, s.bits)] == Full(s.items[t], t)
    case Taken(u) => u in s.got && s.got[u] == Full(s.items[t], t)
    case _ => true
  }

  /** A batch in progress has returned nothing it did not take. */
  ghost predicate BatchOk<T>(got: map<nat, Cell<T>>, pc: PC<T>) {
    pc.BatchTake? ==> forall i :: 0 <= i < |pc.items| ==> Took(got, pc.first + i, pc.items[i])
  }

  ghost predicate Took<T>(got: map<nat, Cell<T>>, u: nat, x: T) {
    u in got && got[u].Full? && got[u].item == x
  }

  ghost predicate Conserved<T>(s: Ring<T>)
    requires Counters(s)
  {
    && (forall t :: 0 <= t < s.head ==> Placed(s, t))
    && (forall i :: 0 <= i < |s.slots| && s.slots[i].Full? ==>
          Slot(s.slots[i].from, s.bits) == i && s.fates[s.slots[i].from] == InSlot)
    && (forall u :: u in s.got ==>
          && s.got[u].Full? && s.got[u].from < s.head && s.fates[s.got[u].from] == Taken(u)
          && Slot(s.got[u].from, s.bits) == Slot(u, s.bits))
    && (forall a :: 0 <= a < |s.actors| ==> BatchOk(s.got, s.actors[a]))
  }

  lemma StoreConserves<T>(s: Ring<T>, a: nat, x: T, k: nat)
    requires Counters(s) && Owned(s) && Conserved(s) && a < |s.actors| && EffectOk(s, a, Store(x, k))
    ensures Counters(Apply(s, a, Store(x, k))) && Conserved(Apply(s, a, Store(x, k)))
  {
    var s' := Apply(s, a, Store(x, k));
    ApplyKeepsCounters(s, a, Store(x, k));
    StoredTicket(s, a, x, k);
    StoreKeepsPlaces(s, s', x, k);
    forall b | 0 <= b < |s'.actors|
      ensures BatchOk(s'.got, s'.actors[b])
    {
      assert BatchOk(s.got, s.actors[b]);
    }
  }

  lemma StoredTicket<T>(s: Ring<T>, a: nat, x: T, k: nat)
    requires Counters(s) && Owned(s) && a < |s.actors| && EffectOk(s, a, Store(x, k))
    ensures k < s.head && s.fates[k] == Pending && s.items[k] == x
  {
    assert ActorOk(s, a, s.actors[a]) && PushIsPending(s.fates, s.actors[a]);
  }

  lemma StoreKeepsPlaces<T>(s: Ring<T>, s': Ring<T>, x: T, k: nat)
    requires Counters(s) && Counters(s') && Conserved(s) && k < s.head && s.fates[k] == Pending && s.items[k] == x
    requires s'.bits == s.bits && s'.head == s.head && s'.items == s.items && s'.got == s.got
    requires var i := Slot(k, s.bits);
      s'.slots == s.slots[i := Full(x, k)] && s'.fates == Dropped(s.fates, s.slots[i])[k := InSlot]
    ensures forall t :: 0 <= t < s'.head ==> Placed(s', t)
    ensures forall i :: 0 <= i < |s'.slots| && s'.slots[i].Full? ==>
      Slot(s'.slots[i].from, s'.bits) == i && s'.fates[s'.slots[i].from] == InSlot
    ensures forall u :: u in s'.got ==> s'.fates[s'.got[u].from] == Taken(u)
  {
    forall t | 0 <= t < s'.head
      ensures Placed(s', t)
    {
      assert Placed(s, t);
    }
  }

  lemma DeliverConserves<T>(s: Ring<T>, a: nat, u: nat, x: T, f: nat, pc: PC<T>)
    requires Counters(s) && Owned(s) && Conserved(s) && Firm(s)
    requires a < |s.actors| && EffectOk(s, a, Deliver(u, x, f, pc))
    ensures Counters(Apply(s, a, Deliver(u, x, f, pc))) && Conserved(Apply(s, a, Deliver(u, x, f, pc)))
  {
    var s' := Apply(s, a, Deliver(u, x, f, pc));
    ApplyKeepsCounters(s, a, Deliver(u, x, f, pc));
    assert BatchOk(s.got, s.actors[a]) && PopIsAwaited(s.got, s.actors[a]);
    DeliveredWasStored(s, a, u, x, f, pc);
    assert s.slots[Slot(u, s.bits)] == Full(x, f);
    DeliverKeepsPlaces(s, s', u, x, f);
    DeliverKeepsSlots(s, s', u, x, f);
    DeliverKeepsBatches(s, s', a, u, x, f, pc);
  }

  lemma DeliverKeepsBatches<T>(s: Ring<T>, s': Ring<T>, a: nat, u: nat, x: T, f: nat, pc: PC<T>)
    requires Counters(s) && Conserved(s) && a < |s.actors| && u !in s.got
    requires s'.got == s.got[u := Full(x, f)] && s'.actors == s.actors[a := pc]
    requires EffectOk(s, a, Deliver(u, x, f, pc))
    ensures forall b :: 0 <= b < |s'.actors| ==> BatchOk(s'.got, s'.actors[b])
  {
    assert BatchOk(s.got, s.actors[a]);
    BatchAdvances(s.got, s.actors[a], pc, u, Full(x, f));
    forall b | 0 <= b < |s'.actors|
      ensures BatchOk(s'.got, s'.actors[b])
    {
      assert BatchOk(s.got, s.actors[b]);
      BatchStays(s.got, s.actors[b], u, Full(x, f));
    }
  }

  lemma BatchStays<T>(got: map<nat, Cell<T>>, pc: PC<T>, u: nat, c: Cell<T>)
    requires BatchOk(got, pc) && u !in got
    ensures BatchOk(got[u := c], pc)
  {
    if pc.BatchTake? {
      forall i | 0 <= i < |pc.items|
        ensures Took(got[u := c], pc.first + i, pc.items[i])
      {
        assert Took(got, pc.first + i, pc.items[i]);
      }
    }
  }

  lemma BatchAdvances<T>(got: map<nat, Cell<T>>, pc: PC<T>, pc': PC<T>, u: nat, c: Cell<T>)
    requires BatchOk(got, pc) && u !in got && c.Full?
    requires pc.BatchTake? ==> u == pc.first + |pc.items| && pc' == BatchTake(pc.first, pc.count, pc.items + [c.item])
    requires !pc.BatchTake? ==> !pc'.BatchTake?
    ensures BatchOk(got[u := c], pc')
  {
    BatchStays(got, pc, u, c);
  }

  lemma DeliverKeepsPlaces<T>(s: Ring<T>, s': Ring<T>, u: nat, x: T, f: nat)
    requires Counters(s) && Counters(s') && Conserved(s) && f < s.head && u !in s.got
    requires s.slots[Slot(u, s.bits)] == Full(x, f)
    requires s'.bits == s.bits && s'.head == s.head && s'.items == s.items
    requires s'.fates == s.fates[f := Lost][f := Taken(u)] && s'.got == s.got[u := Full(x, f)]
    requires s'.slots == s.slots[Slot(u, s.bits) := Empty]
    ensures forall t :: 0 <= t < s'.head ==> Placed(s', t)
  {
    forall t | 0 <= t < s'.head
      ensures Placed(s', t)
    {
      assert Placed(s, t);
    }
  }

  lemma DeliverKeepsSlots<T>(s: Ring<T>, s': Ring<T>, u: nat, x: T, f: nat)
    requires Counters(s) && Counters(s') && Conserved(s) && f < s.head && u !in s.got
    requires s.slots[Slot(u, s.bits)] == Full(x, f)
    requires s'.bits == s.bits && s'.head == s.head
    requires s'.fates == s.fates[f := Lost][f := Taken(u)] && s'.got == s.got[u := Full(x, f)]
    requires s'.slots == s.slots[Slot(u, s.bits) := Empty]
    ensures forall i :: 0 <= i < |s'.slots| && s'.slots[i].Full? ==>
      Slot(s'.slots[i].from, s'.bits) == i && s'.fates[s'.slots[i].from] == InSlot
    ensures forall v :: v in s'.got ==>
      && s'.got[v].Full? && s'.got[v].from < s'.head && s'.fates[s'.got[v].from] == Taken(v)
      && Slot(s'.got[v].from, s'.bits) == Slot(v, s'.bits)
  {
  }

  lemma ClaimConserves<T>(s: Ring<T>, a: nat, eff: Effect<T>)
    requires Counters(s) && Conserved(s) && a < |s.actors| && EffectOk(s, a, eff)
    requires eff.ClaimPush? || eff.ClaimPop?
    ensures Counters(Apply(s, a, eff)) && Conserved(Apply(s, a, eff))
  {
    var s' := Apply(s, a, eff);
    ApplyKeepsCounters(s, a, eff);
    assert BatchOk(s.got, s.actors[a]);
    forall t | 0 <= t < s'.head
      ensures Placed(s', t)
    {
      if t < s.head {
        assert Placed(s, t);
      }
    }
    forall b | 0 <= b < |s'.actors|
      ensures BatchOk(s'.got, s'.actors[b])
    {
      assert BatchOk(s.got, s.actors[b]);
    }
  }

  lemma QuietConserves<T>(s: Ring<T>, a: nat, pc: PC<T>)
    requires Counters(s) && Conserved(s) && a < |s.actors| && EffectOk(s, a, Quiet(pc))
    ensures Counters(Apply(s, a, Quiet(pc))) && Conserved(Apply(s, a, Quiet(pc)))
  {
    var s' := Apply(s, a, Quiet(pc));
    ApplyKeepsCounters(s, a, Quiet(pc));
    forall t | 0 <= t < s'.head
      ensures Placed(s', t)
    {
      assert Placed(s, t);
    }
    forall b | 0 <= b < |s'.actors|
      ensures BatchOk(s'.got, s'.actors[b])
    {
      assert BatchOk(s.got, s.actors[b]);
    }
  }

  lemma NextConserves<T>(s: Ring<T>, e: Event<T>)
    requires Counters(s) && Owned(s) && Conserved(s) && Firm(s) && Bounded(s)
    ensures Counters(Next(s, e)) && Conserved(Next(s, e))
  {
    if e.a < |s.actors| {
      EffectIsOk(s, e);
      assert BatchOk(s.got, s.actors[e.a]);
      match EffectOf(s, e)
      case Quiet(pc) => QuietConserves(s, e.a, pc);
      case ClaimPush(x) => ClaimConserves(s, e.a, EffectOf(s, e));
      case Store(x, k) => StoreConserves(s, e.a, x, k);
      case ClaimPop(count, pc) => ClaimConserves(s, e.a, EffectOf(s, e));
      case Deliver(u, x, f, pc) => DeliverConserves(s, e.a, u, x, f, pc);
    }
  }

  lemma {:induction false} ConservedAlways<T>(bits: nat, actors: nat, es: seq<Event<T>>)
    requires Bounded(Run(bits, actors, es)) && FirmRun(bits, actors, es)
    ensures Counters(Run(bits, actors, es)) && Owned(Run(bits, actors, es)) && Conserved(Run(bits, actors, es))
  {
    OwnedAlways(bits, actors, es);
    if es == [] {
      assert forall a :: 0 <= a < actors ==> Init<T>(bits, actors).actors[a].Idle?;
    } else {
      var es', e := es[..|es| - 1], es[|es| - 1];
      CountersGrow(Run(bits, actors, es'), e);
      ConservedAlways(bits, actors, es');
      NextConserves(Run(bits, actors, es'), e);
    }
  }

  /** When all consumers swap, every run is firm. */
  lemma {:induction false} SwapRunsAreFirm<T>(bits: nat, actors: nat, es: seq<Event<T>>)
    requires SwapOnly(es)
    ensures FirmRun(bits, actors, es)
    ensures forall a :: 0 <= a < actors ==> !Popping(Run(bits, actors, es).actors[a])
  {
    if es != [] {
      SwapRunsAreFirm(bits, actors, es[..|es| - 1]);
      NobodyStartsPopping(Run(bits, actors, es[..|es| - 1]), es[|es| - 1]);
    }
  }

  lemma NobodyStartsPopping<T>(s: Ring<T>, e: Event<T>)
    requires |s.slots| == Capacity(s) && !e.StartPop? && forall a :: 0 <= a < |s.actors| ==> !Popping(s.actors[a])
    ensures forall a :: 0 <= a < |s.actors| ==> !Popping(Next(s, e).actors[a])
  {
    if e.a < |s.actors| {
      NoPopFollows(s, e);
    }
  }

  lemma NoPopFollows<T>(s: Ring<T>, e: Event<T>)
    requires |s.slots| == Capacity(s) && e.a < |s.actors| && !e.StartPop? && !Popping(s.actors[e.a])
    ensures LeadsElsewhere(EffectOf(s, e))
  {
    if e.Step? {
      NoPopDecided(s, e.a);
    }
  }

  ghost predicate LeadsElsewhere<T>(eff: Effect<T>) {
    match eff
    case Quiet(pc) => !Popping(pc)
    case ClaimPop(_, pc) => !Popping(pc)
    case Deliver(_, _, _, pc) => !Popping(pc)
    case _ => true
  }

  lemma NoPopDecided<T>(s: Ring<T>, a: nat)
    requires |s.slots| == Capacity(s) && a < |s.actors| && !Popping(s.actors[a])
    ensures LeadsElsewhere(Decide(s, a))
  {
  }

  /** No duplication and no invention: each returned item was pushed, and no pushed item is returned twice. */
  lemma NoDuplication<T>(bits: nat, actors: nat, es: seq<Event<T>>, u: nat, v: nat)
    requires Bounded(Run(bits, actors, es)) && FirmRun(bits, actors, es)
    requires u in Run(bits, actors, es).got && v in Run(bits, actors, es).got && u != v
    ensures var s := Run(bits, actors, es);
      && s.got[u].Full? && s.got[v].Full? && s.got[u].from != s.got[v].from
      && s.got[u].from < |s.items| && s.got[u].item == s.items[s.got[u].from]
  {
    ConservedAlways(bits, actors, es);
  }

  /** Conservation: an accepted item is with its unfinished producer, in its own slot, with
      exactly one consumer ticket, or was overwritten. */
  lemma AcceptedIsSomewhere<T>(bits: nat, actors: nat, es: seq<Event<T>>, t: nat)
    requires Bounded(Run(bits, actors, es)) && FirmRun(bits, actors, es)
    requires t < Run(bits, actors, es).head
    ensures var s := Run(bits, actors, es);
      && |s.fates| == |s.pushers| == |s.items| == s.head && |s.slots| == Capacity(s)
      && (s.fates[t] == Pending <==>
            s.pushers[t] < |s.actors| && HoldsPush(s.actors[s.pushers[t]], t))
      && (s.fates[t] == InSlot <==> s.slots[Slot(t, bits)] == Full(s.items[t], t))
      && (forall u :: s.fates[t] == Taken(u) <==> u in s.got && s.got[u] == Full(s.items[t], t))
  {
    ConservedAlways(bits, actors, es);
    var s := Run(bits, actors, es);
    assert Placed(s, t);
    if s.pushers[t] < |s.actors| {
      assert PushIsPending(s.fates, s.actors[s.pushers[t]]);
    }
  }

  /** An item is lost exactly when another producer's store overwrites it in the slot they share. */
  lemma LostByOverwriteOnly<T>(s: Ring<T>, e: Event<T>, t: nat)
    requires Counters(s) && Owned(s) && Conserved(s) && Firm(s) && Bounded(s)
    requires t < s.head && s.fates[t] != Lost && e.a < |s.actors|
    ensures |Next(s, e).fates| > t
    ensures Next(s, e).fates[t] == Lost <==>
      EffectOf(s, e).Store? && s.slots[Slot(EffectOf(s, e).k, s.bits)] == Full(s.items[t], t)
  {
    EffectIsOk(s, e);
    EffectLoses(s, e.a, EffectOf(s, e), t);
  }

  lemma EffectLoses<T>(s: Ring<T>, a: nat, eff: Effect<T>, t: nat)
    requires Counters(s) && Owned(s) && Conserved(s) && Firm(s) && a < |s.actors| && EffectOk(s, a, eff)
    requires t < s.head && s.fates[t] != Lost
    ensures |Apply(s, a, eff).fates| > t
    ensures Apply(s, a, eff).fates[t] == Lost <==>
      eff.Store? && s.slots[Slot(eff.k, s.bits)] == Full(s.items[t], t)
  {
    assert Placed(s, t) && BatchOk(s.got, s.actors[a]) && ActorOk(s, a, s.actors[a]);
    assert PushIsPending(s.fates, s.actors[a]);
  }

  // ---- A single producer loses nothing ----

  ghost predicate SingleProducer<T>(es: seq<Event<T>>, p: nat) {
    forall i :: 0 <= i < |es| && es[i].StartPush? ==> es[i].a == p
  }

  /** Only `p` pushes, its store will hit an empty slot, and nothing has been lost. */
  ghost predicate Lossless<T>(s: Ring<T>, p: nat)
    requires |s.slots| == Capacity(s)
  {
    && (forall a :: 0 <= a < |s.actors| && Pushing(s.actors[a]) ==> a == p)
    && (forall a :: 0 <= a < |s.actors| && s.actors[a].PushStore? ==>
          s.slots[Slot(s.actors[a].k, s.bits)].Empty?)
    && (forall t :: 0 <= t < |s.fates| ==> s.fates[t] != Lost)
  }

  lemma NextLossless<T>(s: Ring<T>, e: Event<T>, p: nat)
    requires Counters(s) && Owned(s) && Conserved(s) && Firm(s) && Bounded(s) && Lossless(s, p)
    requires e.StartPush? ==> e.a == p
    ensures Lossless(Next(s, e), p)
  {
    if e.a < |s.actors| {
      NothingDropped(s, e, p);
      ProducerAlone(s, e, p);
    }
  }

  ghost predicate StoresIntoEmpty<T>(s: Ring<T>, a: nat)
    requires |s.slots| == Capacity(s) && a < |s.actors|
  {
    var pc := s.actors[a];
    pc.PushStore? ==> s.slots[Slot(pc.k, s.bits)].Empty?
  }

  lemma ProducerAlone<T>(s: Ring<T>, e: Event<T>, p: nat)
    requires Counters(s) && Owned(s) && Conserved(s) && Firm(s) && Bounded(s) && Lossless(s, p)
    requires e.a < |s.actors| && (e.StartPush? ==> e.a == p)
    ensures var s' := Next(s, e);
      forall a :: 0 <= a < |s'.actors| && Pushing(s'.actors[a]) ==> a == p && StoresIntoEmpty(s', a)
  {
    EffectIsOk(s, e);
    WhoPushes(s, e);
    ApplyKeepsProducerAlone(s, e.a, EffectOf(s, e), p);
  }

  /** Only a producer goes on pushing, unless a push starts. */
  lemma WhoPushes<T>(s: Ring<T>, e: Event<T>)
    requires |s.slots| == Capacity(s) && e.a < |s.actors|
    ensures EffectOf(s, e).Quiet? && Pushing(EffectOf(s, e).pc) ==> Pushing(s.actors[e.a]) || e.StartPush?
  {
  }

  lemma ApplyKeepsProducerAlone<T>(s: Ring<T>, a: nat, eff: Effect<T>, p: nat)
    requires |s.slots| == Capacity(s) && a < |s.actors| && EffectOk(s, a, eff) && Lossless(s, p)
    requires eff.Quiet? && Pushing(eff.pc) ==> a == p
    ensures var s' := Apply(s, a, eff);
      forall b :: 0 <= b < |s'.actors| && Pushing(s'.actors[b]) ==> b == p && StoresIntoEmpty(s', b)
  {
  }

  lemma NothingDropped<T>(s: Ring<T>, e: Event<T>, p: nat)
    requires Counters(s) && Owned(s) && Conserved(s) && Firm(s) && Bounded(s) && Lossless(s, p)
    requires e.a < |s.actors|
    ensures forall t :: 0 <= t < |Next(s, e).fates| ==> Next(s, e).fates[t] != Lost
  {
    EffectIsOk(s, e);
    assert BatchOk(s.got, s.actors[e.a]);
  }

  /** With a single producer nothing is ever lost in a firm run. */
  lemma {:induction false} SingleProducerLosesNothing<T>(bits: nat, actors: nat, es: seq<Event<T>>, p: nat)
    requires Bounded(Run(bits, actors, es)) && FirmRun(bits, actors, es) && SingleProducer(es, p)
    ensures Lossless(Run(bits, actors, es), p)
  {
    if es == [] {
      assert forall a :: 0 <= a < actors ==> Init<T>(bits, actors).actors[a].Idle?;
    } else {
      var es', e := es[..|es| - 1], es[|es| - 1];
      CountersGrow(Run(bits, actors, es'), e);
      ConservedAlways(bits, actors, es');
      SingleProducerLosesNothing(bits, actors, es', p);
      NextLossless(Run(bits, actors, es'), e, p);
    }
  }
}
