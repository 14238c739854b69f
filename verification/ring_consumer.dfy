/** A single consumer, using `Pop` and `BatchPop` as it likes, with any number of producers: in every
    interleaving, lapped or not, no item is returned twice. */
module RingConsumer {
  import opened RingBuffers
  import opened RingSteps
  import opened RingFifo

  ghost predicate TakesAt<T>(e: Event<T>, c: nat) { e.StartPop? || e.StartBatch? ==> e.a == c }

  /** Pops come only from actor `c`. */
  ghost predicate SingleConsumer<T>(es: seq<Event<T>>, c: nat) {
    forall i :: 0 <= i < |es| ==> TakesAt(es[i], c)
  }

  ghost predicate OnlyTaker<T>(s: Ring<T>, c: nat) {
    forall a :: 0 <= a < |s.actors| && Taking(s.actors[a]) ==> a == c
  }

  /** What a slot holds has not been returned, and is in its own slot. */
  ghost predicate SlotFresh<T>(s: Ring<T>, i: nat)
    requires i < |s.slots|
  {
    var cell := s.slots[i];
    cell.Full? ==> cell.from < |s.fates| && s.fates[cell.from] == InSlot && Slot(cell.from, s.bits) == i
  }

  /** The fate of a returned item names the ticket that returned it. */
  ghost predicate ReturnedBy<T>(s: Ring<T>, u: nat)
    requires u in s.got
  {
    s.got[u].Full? && s.got[u].from < |s.fates| && s.fates[s.got[u].from] == Taken(u)
  }

  /** An item loaded but not yet cleared has not been returned. */
  ghost predicate HandFresh<T>(s: Ring<T>, pc: PC<T>) {
    pc.PopClear? ==> pc.f < |s.fates| && !s.fates[pc.f].Taken? && Slot(pc.f, s.bits) == Slot(pc.u, s.bits)
  }

  ghost predicate ReturnsOnce<T>(s: Ring<T>, c: nat) {
    && OnlyTaker(s, c)
    && (forall i :: 0 <= i < |s.slots| ==> SlotFresh(s, i))
    && (forall u :: u in s.got ==> ReturnedBy(s, u))
    && (c < |s.actors| ==> HandFresh(s, s.actors[c]))
  }

  lemma OnlyTakerStep<T>(s: Ring<T>, e: Event<T>, c: nat)
    requires |s.slots| == Capacity(s) && OnlyTaker(s, c) && TakesAt(e, c)
    ensures OnlyTaker(Next(s, e), c)
  {
  }

  lemma QuietReturnsOnce<T>(s: Ring<T>, a: nat, pc: PC<T>, c: nat)
    requires Counters(s) && ReturnsOnce(s, c) && a < |s.actors| && EffectOk(s, a, Quiet(pc))
    requires OnlyTaker(Apply(s, a, Quiet(pc)), c)
    ensures ReturnsOnce(Apply(s, a, Quiet(pc)), c)
  {
    var s' := Apply(s, a, Quiet(pc));
    forall i | 0 <= i < |s'.slots|
      ensures SlotFresh(s', i)
    {
      assert SlotFresh(s, i);
    }
    forall u | u in s'.got
      ensures ReturnedBy(s', u)
    {
      assert ReturnedBy(s, u);
    }
    if a == c && pc.PopClear? && pc != s.actors[a] {
      assert SlotFresh(s, Slot(pc.u, s.bits));
    }
  }

  lemma ClaimReturnsOnce<T>(s: Ring<T>, a: nat, eff: Effect<T>, c: nat)
    requires Counters(s) && ReturnsOnce(s, c) && a < |s.actors| && EffectOk(s, a, eff)
    requires (eff.ClaimPush? || eff.ClaimPop?) && OnlyTaker(Apply(s, a, eff), c)
    ensures ReturnsOnce(Apply(s, a, eff), c)
  {
    var s' := Apply(s, a, eff);
    forall i | 0 <= i < |s'.slots|
      ensures SlotFresh(s', i)
    {
      assert SlotFresh(s, i);
    }
    forall u | u in s'.got
      ensures ReturnedBy(s', u)
    {
      assert ReturnedBy(s, u);
    }
  }

  lemma StoreReturnsOnce<T>(s: Ring<T>, a: nat, x: T, k: nat, c: nat)
    requires Counters(s) && Owned(s) && ReturnsOnce(s, c) && a < |s.actors| && EffectOk(s, a, Store(x, k))
    requires OnlyTaker(Apply(s, a, Store(x, k)), c)
    ensures ReturnsOnce(Apply(s, a, Store(x, k)), c)
  {
    var s', j := Apply(s, a, Store(x, k)), Slot(k, s.bits);
    assert PushIsPending(s.fates, s.actors[a]) && SlotFresh(s, j);
    forall i | 0 <= i < |s'.slots|
      ensures SlotFresh(s', i)
    {
      assert SlotFresh(s, i);
    }
    forall u | u in s'.got
      ensures ReturnedBy(s', u)
    {
      assert ReturnedBy(s, u);
    }
  }

  /** The item delivered has not been returned before. */
  lemma DeliversFresh<T>(s: Ring<T>, a: nat, u: nat, x: T, f: nat, pc: PC<T>, c: nat)
    requires Counters(s) && Owned(s) && ReturnsOnce(s, c) && a < |s.actors|
    requires EffectOk(s, a, Deliver(u, x, f, pc))
    ensures a == c && u !in s.got && f < |s.fates| && !s.fates[f].Taken? && Slot(f, s.bits) == Slot(u, s.bits)
  {
    assert Taking(s.actors[a]) && PopIsAwaited(s.got, s.actors[a]);
    assert SlotFresh(s, Slot(u, s.bits));
  }

  lemma DeliverReturnsOnce<T>(s: Ring<T>, a: nat, u: nat, x: T, f: nat, pc: PC<T>, c: nat)
    requires Counters(s) && Owned(s) && ReturnsOnce(s, c) && a < |s.actors|
    requires EffectOk(s, a, Deliver(u, x, f, pc)) && OnlyTaker(Apply(s, a, Deliver(u, x, f, pc)), c)
    ensures ReturnsOnce(Apply(s, a, Deliver(u, x, f, pc)), c)
  {
    var s', j := Apply(s, a, Deliver(u, x, f, pc)), Slot(u, s.bits);
    DeliversFresh(s, a, u, x, f, pc, c);
    assert SlotFresh(s, j);
    forall i | 0 <= i < |s'.slots|
      ensures SlotFresh(s', i)
    {
      assert SlotFresh(s, i);
    }
    forall v | v in s'.got
      ensures ReturnedBy(s', v)
    {
      assert v != u ==> ReturnedBy(s, v);
    }
  }

  lemma NextReturnsOnce<T>(s: Ring<T>, e: Event<T>, c: nat)
    requires Counters(s) && Owned(s) && ReturnsOnce(s, c) && Bounded(s) && TakesAt(e, c)
    ensures ReturnsOnce(Next(s, e), c)
  {
    OnlyTakerStep(s, e, c);
    if e.a < |s.actors| {
      EffectIsOk(s, e);
      match EffectOf(s, e)
      case Quiet(pc) => QuietReturnsOnce(s, e.a, pc, c);
      case ClaimPush(x) => ClaimReturnsOnce(s, e.a, EffectOf(s, e), c);
      case Store(x, k) => StoreReturnsOnce(s, e.a, x, k, c);
      case ClaimPop(count, pc) => ClaimReturnsOnce(s, e.a, EffectOf(s, e), c);
      case Deliver(u, x, f, pc) => DeliverReturnsOnce(s, e.a, u, x, f, pc, c);
    }
  }

  lemma {:induction false} ReturnsOnceAlways<T>(bits: nat, actors: nat, es: seq<Event<T>>, c: nat)
    requires Bounded(Run(bits, actors, es)) && SingleConsumer(es, c)
    ensures ReturnsOnce(Run(bits, actors, es), c)
  {
    if es == [] {
      assert forall a :: 0 <= a < actors ==> Init<T>(bits, actors).actors[a].Idle?;
    } else {
      var es', e := es[..|es| - 1], es[|es| - 1];
      CountersGrow(Run(bits, actors, es'), e);
      OwnedAlways(bits, actors, es');
      ReturnsOnceAlways(bits, actors, es', c);
      NextReturnsOnce(Run(bits, actors, es'), e, c);
    }
  }

  /** With a single consumer, two tickets never return the same item, and each returned item was pushed. */
  lemma SingleConsumerNoDuplication<T>(bits: nat, actors: nat, es: seq<Event<T>>, c: nat, u: nat, v: nat)
    requires Bounded(Run(bits, actors, es)) && SingleConsumer(es, c)
    requires u in Run(bits, actors, es).got && v in Run(bits, actors, es).got && u != v
    ensures var s := Run(bits, actors, es);
      && s.got[u].Full? && s.got[v].Full? && s.got[u].from != s.got[v].from
      && s.got[u].from < |s.items| && s.got[u].item == s.items[s.got[u].from]
  {
    var s := Run(bits, actors, es);
    OwnedAlways(bits, actors, es);
    ReturnsOnceAlways(bits, actors, es, c);
    assert ReturnedBy(s, u) && ReturnedBy(s, v);
  }
}
