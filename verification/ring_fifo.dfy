/** First-in first-out handoff. In every interleaving each unfinished ticket is held by its
    owner; when no slot is claimed again before the earlier claim of the same kind on it has
    finished, the consumer with ticket `u` gets exactly the item of the producer with ticket `u`. */
module RingFifo {
  import opened Bits
  import opened RingBuffers
  import opened RingSteps

  /** Producer tickets are pending exactly while their owner holds them. */
  ghost predicate PushesOwned<T>(s: Ring<T>) {
    && (forall k :: 0 <= k < |s.fates| && s.fates[k] == Pending ==>
          k < |s.pushers| && s.pushers[k] < |s.actors| && HoldsPush(s.actors[s.pushers[k]], k))
    && (forall a :: 0 <= a < |s.actors| ==> PushIsPending(s.fates, s.actors[a]))
  }

  ghost predicate PushIsPending<T>(fates: seq<Fate>, pc: PC<T>) {
    pc.PushWait? || pc.PushStore? ==> pc.k < |fates| && fates[pc.k] == Pending
  }

  ghost predicate PopIsAwaited<T>(got: map<nat, Cell<T>>, pc: PC<T>) {
    && (pc.PopWait? || pc.PopClear? ==> pc.u !in got)
    && (pc.BatchTake? ==> forall u :: pc.first + |pc.items| <= u < pc.first + pc.count ==> u !in got)
  }

  /** Consumer tickets lack a result exactly while their owner holds them. */
  ghost predicate PopsOwned<T>(s: Ring<T>) {
    && (forall u :: 0 <= u < |s.poppers| && u !in s.got ==>
          s.poppers[u] < |s.actors| && HoldsPop(s.actors[s.poppers[u]], u))
    && (forall a :: 0 <= a < |s.actors| ==> PopIsAwaited(s.got, s.actors[a]))
    && (forall u :: u in s.got ==> u < |s.poppers|)
  }

  /** A ticket whose item was really stored. */
  ghost predicate WasStored<T>(s: Ring<T>, f: nat) {
    f < |s.fates| && s.fates[f] != Pending
  }

  /** Whatever is in a slot, in a consumer's hand or delivered was stored by a producer. */
  ghost predicate NothingInvented<T>(s: Ring<T>) {
    && (forall i :: 0 <= i < |s.slots| && s.slots[i].Full? ==> WasStored(s, s.slots[i].from))
    && (forall a :: 0 <= a < |s.actors| && s.actors[a].PopClear? ==> WasStored(s, s.actors[a].f))
    && (forall u :: u in s.got ==>
          (s.got[u].Full? && WasStored(s, s.got[u].from)
           && s.got[u].from < |s.items| && s.got[u].item == s.items[s.got[u].from]))
  }

  ghost predicate Owned<T>(s: Ring<T>) {
    PushesOwned(s) && PopsOwned(s) && NothingInvented(s)
  }

  /** Stores and deliveries never touch a pending fate, except that a store settles its own. */
  ghost predicate SamePending(fates: seq<Fate>, fates': seq<Fate>, but: int) {
    |fates'| == |fates|
    && forall j :: 0 <= j < |fates| ==> (fates'[j] == Pending <==> fates[j] == Pending && j != but)
  }

  lemma StorePending<T>(s: Ring<T>, a: nat, x: T, k: nat)
    requires Counters(s) && Owned(s) && a < |s.actors| && s.actors[a] == PushStore(x, k)
    ensures k < |s.fates| && SamePending(s.fates, Apply(s, a, Store(x, k)).fates, k)
  {
    assert ActorOk(s, a, s.actors[a]);
    var c := s.slots[Slot(k, s.bits)];
    assert c.Full? ==> WasStored(s, c.from);
  }

  lemma DeliverPending<T>(s: Ring<T>, a: nat, u: nat, x: T, f: nat, pc: PC<T>)
    requires Counters(s) && Owned(s) && a < |s.actors| && WasStored(s, f)
    ensures SamePending(s.fates, Apply(s, a, Deliver(u, x, f, pc)).fates, -1)
  {
    var c := s.slots[Slot(u, s.bits)];
    assert c.Full? ==> WasStored(s, c.from);
  }

  /** A delivered item was stored under the ticket it carries. */
  lemma DeliveredWasStored<T>(s: Ring<T>, a: nat, u: nat, x: T, f: nat, pc: PC<T>)
    requires Counters(s) && Owned(s) && a < |s.actors| && EffectOk(s, a, Deliver(u, x, f, pc))
    ensures WasStored(s, f) && s.items[f] == x
    ensures HoldsPop(s.actors[a], u) && u < s.tail
    ensures forall v: nat :: HoldsPop(pc, v) <==> HoldsPop(s.actors[a], v) && v != u
    ensures forall v: nat :: !HoldsPush(pc, v) && !HoldsPush(s.actors[a], v)
  {
    assert ActorOk(s, a, s.actors[a]);
    if s.actors[a].BatchTake? {
      assert WasStored(s, s.slots[Slot(u, s.bits)].from);
    }
    HolderOwns(s, a, u);
  }

  lemma ApplyKeepsPushesOwned<T>(s: Ring<T>, a: nat, eff: Effect<T>)
    requires Counters(s) && Owned(s) && a < |s.actors| && EffectOk(s, a, eff)
    ensures PushesOwned(Apply(s, a, eff))
  {
    match eff
    case Quiet(pc) => QuietKeepsOwned(s, a, pc);
    case ClaimPush(x) => ClaimPushKeepsPushesOwned(s, a, x);
    case Store(x, k) =>
      StorePending(s, a, x, k);
      StoreKeepsPushesOwned(s, a, x, k);
    case ClaimPop(count, pc) => ClaimPopKeepsPushesOwned(s, a, count, pc);
    case Deliver(u, x, f, pc) => DeliverKeepsPushesOwned(s, a, u, x, f, pc);
  }

  lemma ClaimPopKeepsPushesOwned<T>(s: Ring<T>, a: nat, count: nat, pc: PC<T>)
    requires Counters(s) && PushesOwned(s) && a < |s.actors| && EffectOk(s, a, ClaimPop(count, pc))
    ensures PushesOwned(Apply(s, a, ClaimPop(count, pc)))
  {
  }

  lemma DeliverKeepsPushesOwned<T>(s: Ring<T>, a: nat, u: nat, x: T, f: nat, pc: PC<T>)
    requires Counters(s) && Owned(s) && a < |s.actors| && EffectOk(s, a, Deliver(u, x, f, pc))
    ensures PushesOwned(Apply(s, a, Deliver(u, x, f, pc)))
  {
    DeliveredWasStored(s, a, u, x, f, pc);
    DeliverPending(s, a, u, x, f, pc);
  }

  lemma QuietKeepsOwned<T>(s: Ring<T>, a: nat, pc: PC<T>)
    requires Counters(s) && Owned(s) && a < |s.actors| && EffectOk(s, a, Quiet(pc))
    ensures PushesOwned(Apply(s, a, Quiet(pc))) && PopsOwned(Apply(s, a, Quiet(pc)))
  {
    assert PushIsPending(s.fates, s.actors[a]) && PopIsAwaited(s.got, s.actors[a]);
    assert pc.PushWait? || pc.PushStore? ==> HoldsPush(pc, pc.k);
    assert pc.PopWait? || pc.PopClear? ==> HoldsPop(pc, pc.u);
  }

  lemma ClaimPushKeepsPushesOwned<T>(s: Ring<T>, a: nat, x: T)
    requires Counters(s) && PushesOwned(s) && a < |s.actors| && s.actors[a].PushTry?
    ensures PushesOwned(Apply(s, a, ClaimPush(x)))
  {
    var s' := Apply(s, a, ClaimPush(x));
    forall k: nat | k < |s'.fates| && s'.fates[k] == Pending
      ensures s'.pushers[k] < |s'.actors| && HoldsPush(s'.actors[s'.pushers[k]], k)
    {
      if k < s.head {
        assert s'.pushers[k] == s.pushers[k] && s'.fates[k] == s.fates[k];
      }
    }
    forall b: nat | b < |s'.actors|
      ensures PushIsPending(s'.fates, s'.actors[b])
    {
      assert PushIsPending(s.fates, s.actors[b]);
    }
  }

  lemma StoreKeepsPushesOwned<T>(s: Ring<T>, a: nat, x: T, k: nat)
    requires Counters(s) && PushesOwned(s) && a < |s.actors| && s.actors[a] == PushStore(x, k) && k < |s.fates|
    requires SamePending(s.fates, Apply(s, a, Store(x, k)).fates, k)
    ensures PushesOwned(Apply(s, a, Store(x, k)))
  {
    var s' := Apply(s, a, Store(x, k));
    forall b: nat | b < |s'.actors|
      ensures PushIsPending(s'.fates, s'.actors[b])
    {
      var pc := s.actors[b];
      assert PushIsPending(s.fates, pc);
      if b != a && (pc.PushWait? || pc.PushStore?) {
        HolderOwns(s, b, pc.k);
        HolderOwns(s, a, k);
      }
    }
    forall j: nat | j < |s'.fates| && s'.fates[j] == Pending
      ensures s'.pushers[j] < |s'.actors| && HoldsPush(s'.actors[s'.pushers[j]], j)
    {
      assert s.fates[j] == Pending && j != k;
      assert HoldsPush(s.actors[s.pushers[j]], j);
    }
  }

  lemma ApplyKeepsPopsOwned<T>(s: Ring<T>, a: nat, eff: Effect<T>)
    requires Counters(s) && Owned(s) && a < |s.actors| && EffectOk(s, a, eff)
    ensures PopsOwned(Apply(s, a, eff))
  {
    match eff
    case Quiet(pc) => QuietKeepsOwned(s, a, pc);
    case ClaimPush(x) =>
    case Store(x, k) =>
    case ClaimPop(count, pc) => ClaimPopKeepsPopsOwned(s, a, count, pc);
    case Deliver(u, x, f, pc) =>
      DeliveredWasStored(s, a, u, x, f, pc);
      DeliverKeepsPopsOwned(s, a, u, x, f, pc);
  }

  lemma ClaimPopKeepsPopsOwned<T>(s: Ring<T>, a: nat, count: nat, pc: PC<T>)
    requires Counters(s) && PopsOwned(s) && a < |s.actors| && EffectOk(s, a, ClaimPop(count, pc))
    ensures PopsOwned(Apply(s, a, ClaimPop(count, pc)))
  {
    var s' := Apply(s, a, ClaimPop(count, pc));
    forall u | 0 <= u < |s'.poppers| && u !in s'.got
      ensures s'.poppers[u] < |s'.actors| && HoldsPop(s'.actors[s'.poppers[u]], u)
    {
      if u < s.tail {
        assert s'.poppers[u] == s.poppers[u];
      }
    }
  }

  lemma DeliverKeepsPopsOwned<T>(s: Ring<T>, a: nat, u: nat, x: T, f: nat, pc: PC<T>)
    requires Counters(s) && PopsOwned(s) && a < |s.actors| && f < |s.fates|
    requires EffectOk(s, a, Deliver(u, x, f, pc))
    requires HoldsPop(s.actors[a], u) && u < s.tail
    requires forall v: nat :: HoldsPop(pc, v) <==> HoldsPop(s.actors[a], v) && v != u
    ensures PopsOwned(Apply(s, a, Deliver(u, x, f, pc)))
  {
    var s' := Apply(s, a, Deliver(u, x, f, pc));
    forall b: nat | b < |s'.actors|
      ensures PopIsAwaited(s'.got, s'.actors[b])
    {
      assert PopIsAwaited(s.got, s.actors[b]);
      if b != a {
        OthersDoNotAwait(s, a, b, u);
      }
    }
  }

  lemma OthersDoNotAwait<T>(s: Ring<T>, a: nat, b: nat, u: nat)
    requires Counters(s) && a < |s.actors| && b < |s.actors| && a != b && HoldsPop(s.actors[a], u)
    ensures !HoldsPop(s.actors[b], u)
  {
    HolderOwns(s, a, u);
    HolderOwns(s, b, u);
  }

  lemma ApplyKeepsNothingInvented<T>(s: Ring<T>, a: nat, eff: Effect<T>)
    requires Counters(s) && Owned(s) && a < |s.actors| && EffectOk(s, a, eff)
    ensures NothingInvented(Apply(s, a, eff))
  {
    match eff
    case Quiet(pc) =>
    case ClaimPush(x) =>
    case Store(x, k) => StoreKeepsNothingInvented(s, a, x, k);
    case ClaimPop(count, pc) =>
    case Deliver(u, x, f, pc) => DeliverKeepsNothingInvented(s, a, u, x, f, pc);
  }

  lemma StoreKeepsNothingInvented<T>(s: Ring<T>, a: nat, x: T, k: nat)
    requires Counters(s) && Owned(s) && a < |s.actors| && EffectOk(s, a, Store(x, k))
    ensures NothingInvented(Apply(s, a, Store(x, k)))
  {
    StorePending(s, a, x, k);
    assert forall f :: WasStored(s, f) ==> WasStored(Apply(s, a, Store(x, k)), f);
  }

  lemma DeliverKeepsNothingInvented<T>(s: Ring<T>, a: nat, u: nat, x: T, f: nat, pc: PC<T>)
    requires Counters(s) && Owned(s) && a < |s.actors| && EffectOk(s, a, Deliver(u, x, f, pc))
    ensures NothingInvented(Apply(s, a, Deliver(u, x, f, pc)))
  {
    DeliveredWasStored(s, a, u, x, f, pc);
    DeliverPending(s, a, u, x, f, pc);
    assert forall j :: WasStored(s, j) ==> WasStored(Apply(s, a, Deliver(u, x, f, pc)), j);
  }

  lemma InitIsOwned<T>(bits: nat, actors: nat)
    ensures Owned(Init<T>(bits, actors))
  {
    var s := Init<T>(bits, actors);
    forall a: nat, k: nat | a < |s.actors|
      ensures !HoldsPush(s.actors[a], k) && !HoldsPop(s.actors[a], k)
    {
      assert s.actors[a].Idle?;
    }
  }

  /** Ownership, and that nothing is ever returned that was not pushed, in every interleaving. */
  lemma {:induction false} OwnedAlways<T>(bits: nat, actors: nat, es: seq<Event<T>>)
    requires Bounded(Run(bits, actors, es))
    ensures Counters(Run(bits, actors, es)) && Owned(Run(bits, actors, es))
  {
    CountersAlways(bits, actors, es);
    if es == [] {
      InitIsOwned<T>(bits, actors);
    } else {
      var es', e := es[..|es| - 1], es[|es| - 1];
      var s := Run(bits, actors, es');
      CountersGrow(s, e);
      OwnedAlways(bits, actors, es');
      if e.a < actors {
        EffectIsOk(s, e);
        ApplyKeepsPushesOwned(s, e.a, EffectOf(s, e));
        ApplyKeepsPopsOwned(s, e.a, EffectOf(s, e));
        ApplyKeepsNothingInvented(s, e.a, EffectOf(s, e));
      }
    }
  }

  // ---- First-in first-out, when no slot is lapped ----

  /** The producer one capacity before ticket `k` has stored its item. */
  ghost predicate PriorPushDone<T>(s: Ring<T>, k: nat) {
    k >= Capacity(s) ==> WasStored(s, k - Capacity(s))
  }

  /** The consumer one capacity before ticket `u` has taken its item. */
  ghost predicate PriorPopDone<T>(s: Ring<T>, u: nat) {
    u >= Capacity(s) ==> u - Capacity(s) in s.got
  }

  /** A claim does not lap: the claim of the same kind on the same slot, one capacity earlier, has finished. */
  ghost predicate NoLap<T>(s: Ring<T>, e: Event<T>)
    requires |s.slots| == Capacity(s)
  {
    e.a < |s.actors| ==>
      match EffectOf(s, e)
      case ClaimPush(_) => PriorPushDone(s, s.head)
      case ClaimPop(count, _) => forall u: nat :: s.tail <= u < s.tail + count ==> PriorPopDone(s, u)
      case _ => true
  }

  ghost predicate RunNoLap<T>(bits: nat, actors: nat, es: seq<Event<T>>) {
    es != [] ==>
      RunNoLap(bits, actors, es[..|es| - 1]) && NoLap(Run(bits, actors, es[..|es| - 1]), es[|es| - 1])
  }

  ghost predicate SameSlot(t: nat, t': nat, bits: nat) {
    t < t' && Slot(t, bits) == Slot(t', bits)
  }

  /** Earlier tickets of a slot are a capacity or more back, and all share the slot one turn back. */
  lemma SameSlotCases(t: nat, t': nat, bits: nat)
    requires SameSlot(t, t', bits)
    ensures t + Pow2(bits) <= t'
    ensures t + Pow2(bits) < t' ==> SameSlot(t, t' - Pow2(bits), bits)
  {
    if t' < t + Pow2(bits) {
      SlotsDiffer(t, t', bits);
    } else {
      SlotsWrap(t' - Pow2(bits), bits);
    }
  }

  /** The tickets of a slot are served strictly one after the other. */
  ghost predicate InTurn<T>(s: Ring<T>) {
    && (forall t: nat, t': nat :: SameSlot(t, t', s.bits) && t' < |s.fates| ==> s.fates[t] != Pending)
    && (forall t: nat, t': nat :: SameSlot(t, t', s.bits) && t' < |s.fates| && s.fates[t'] != Pending ==> t in s.got)
    && (forall u: nat, u': nat :: SameSlot(u, u', s.bits) && u' < s.tail ==> u in s.got)
  }

  /** Where the item of ticket `t` is: with its producer, in its slot, or with its consumer. */
  ghost predicate TicketOk<T>(s: Ring<T>, t: nat)
    requires t < |s.fates| && t < |s.items| && |s.slots| == Capacity(s)
  {
    match s.fates[t]
    case Pending => t !in s.got
    case InSlot => t !in s.got && s.slots[Slot(t, s.bits)] == Full(s.items[t], t)
    case Taken(u) => u == t && t in s.got && s.got[t] == Full(s.items[t], t)
    case Lost => false
  }

  ghost predicate HandOk<T>(s: Ring<T>, pc: PC<T>)
    requires |s.slots| == Capacity(s)
  {
    match pc
    case PushStore(_, k) => s.slots[Slot(k, s.bits)].Empty?
    case PopClear(u, x, f) => f == u && u < |s.fates| && s.fates[u] == InSlot
    case BatchTake(first, count, items) =>
      first + |items| <= |s.items| && items == s.items[first..first + |items|]
    case _ => true
  }

  ghost predicate Fifo<T>(s: Ring<T>)
    requires Counters(s)
  {
    && InTurn(s)
    && (forall t :: 0 <= t < s.head ==> TicketOk(s, t))
    && (forall u :: u in s.got ==> u < s.head && s.fates[u] == Taken(u))
    && (forall i :: 0 <= i < |s.slots| && s.slots[i].Full? ==>
          Slot(s.slots[i].from, s.bits) == i && s.fates[s.slots[i].from] == InSlot)
    && (forall a :: 0 <= a < |s.actors| ==> HandOk(s, s.actors[a]))
  }

  /** A consumer that finds an item under its ticket finds the item of the producer with that ticket. */
  lemma FoundIsOwn<T>(s: Ring<T>, u: nat)
    requires Counters(s) && Fifo(s) && u < s.tail && u !in s.got && s.slots[Slot(u, s.bits)].Full?
    ensures s.slots[Slot(u, s.bits)] == Full(s.items[u], u) && s.fates[u] == InSlot
  {
    var f := s.slots[Slot(u, s.bits)].from;
    assert SameSlot(f, u, s.bits) || SameSlot(u, f, s.bits) || f == u;
    assert TicketOk(s, f);
  }

  lemma QuietKeepsFifo<T>(s: Ring<T>, a: nat, pc: PC<T>)
    requires Counters(s) && Owned(s) && Fifo(s) && a < |s.actors| && EffectOk(s, a, Quiet(pc))
    ensures Counters(Apply(s, a, Quiet(pc))) && Fifo(Apply(s, a, Quiet(pc)))
  {
    ApplyKeepsCounters(s, a, Quiet(pc));
    var s' := Apply(s, a, Quiet(pc));
    assert HandOk(s, s.actors[a]) && PopIsAwaited(s.got, s.actors[a]);
    if pc.PopClear? && pc != s.actors[a] {
      HolderOwns(s, a, pc.u);
      FoundIsOwn(s, pc.u);
    }
    forall t | 0 <= t < s'.head
      ensures TicketOk(s', t)
    {
      assert TicketOk(s, t);
    }
    forall b | 0 <= b < |s'.actors|
      ensures HandOk(s', s'.actors[b])
    {
      assert HandOk(s, s.actors[b]);
    }
  }

  lemma ClaimPushKeepsInTurn<T>(s: Ring<T>, a: nat, x: T)
    requires Counters(s) && Owned(s) && Fifo(s) && a < |s.actors| && EffectOk(s, a, ClaimPush(x))
    requires PriorPushDone(s, s.head)
    ensures InTurn(Apply(s, a, ClaimPush(x)))
  {
    InTurnExtends(s, Apply(s, a, ClaimPush(x)));
  }

  lemma InTurnExtends<T>(s: Ring<T>, s': Ring<T>)
    requires InTurn(s) && |s.fates| == s.head && PriorPushDone(s, s.head)
    requires s'.bits == s.bits && s'.tail == s.tail && s'.got == s.got && s'.fates == s.fates + [Pending]
    ensures InTurn(s')
  {
    forall t: nat, t': nat | SameSlot(t, t', s.bits) && t' < |s'.fates|
      ensures s'.fates[t] != Pending
    {
      if t' == s.head {
        SameSlotCases(t, t', s.bits);
      }
    }
  }

  lemma ClaimPushKeepsFifo<T>(s: Ring<T>, a: nat, x: T)
    requires Counters(s) && Owned(s) && Fifo(s) && a < |s.actors| && EffectOk(s, a, ClaimPush(x))
    requires PriorPushDone(s, s.head)
    ensures Counters(Apply(s, a, ClaimPush(x))) && Fifo(Apply(s, a, ClaimPush(x)))
  {
    var s' := Apply(s, a, ClaimPush(x));
    ApplyKeepsCounters(s, a, ClaimPush(x));
    ClaimPushKeepsInTurn(s, a, x);
    forall t | 0 <= t < s'.head
      ensures TicketOk(s', t)
    {
      if t < s.head {
        assert TicketOk(s, t);
      }
    }
    forall b | 0 <= b < |s'.actors|
      ensures HandOk(s', s'.actors[b])
    {
      assert HandOk(s, s.actors[b]);
    }
  }

  lemma ClaimPopKeepsFifo<T>(s: Ring<T>, a: nat, count: nat, pc: PC<T>)
    requires Counters(s) && Owned(s) && Fifo(s) && a < |s.actors| && EffectOk(s, a, ClaimPop(count, pc))
    requires forall u: nat :: s.tail <= u < s.tail + count ==> PriorPopDone(s, u)
    ensures Counters(Apply(s, a, ClaimPop(count, pc))) && Fifo(Apply(s, a, ClaimPop(count, pc)))
  {
    var s' := Apply(s, a, ClaimPop(count, pc));
    ApplyKeepsCounters(s, a, ClaimPop(count, pc));
    ClaimPopKeepsInTurn(s, a, count, pc);
    forall t | 0 <= t < s'.head
      ensures TicketOk(s', t)
    {
      assert TicketOk(s, t);
    }
    forall b | 0 <= b < |s'.actors|
      ensures HandOk(s', s'.actors[b])
    {
      assert HandOk(s, s.actors[b]);
    }
  }

  lemma ClaimPopKeepsInTurn<T>(s: Ring<T>, a: nat, count: nat, pc: PC<T>)
    requires Counters(s) && Fifo(s) && a < |s.actors| && EffectOk(s, a, ClaimPop(count, pc))
    requires forall u: nat :: s.tail <= u < s.tail + count ==> PriorPopDone(s, u)
    ensures InTurn(Apply(s, a, ClaimPop(count, pc)))
  {
    forall u: nat, u': nat | SameSlot(u, u', s.bits) && u' < s.tail + count
      ensures u in s.got
    {
      if u' >= s.tail {
        InTurnBefore(s, u, u');
      }
    }
  }

  /** If the claim one turn before `u'` got its item, so did every earlier one on the slot. */
  lemma InTurnBefore<T>(s: Ring<T>, u: nat, u': nat)
    requires Counters(s) && Fifo(s) && SameSlot(u, u', s.bits)
    requires PriorPopDone(s, u')
    ensures u in s.got
  {
    SameSlotCases(u, u', s.bits);
    var n := Capacity(s);
    if u + n < u' {
      GotAfter(s, u, u' - n);
    }
  }

  lemma GotAfter<T>(s: Ring<T>, u: nat, w: nat)
    requires Counters(s) && Fifo(s) && SameSlot(u, w, s.bits) && w in s.got
    ensures u in s.got
  {
    assert s.fates[w] == Taken(w);
  }

  lemma StoreKeepsInTurn<T>(s: Ring<T>, a: nat, x: T, k: nat)
    requires Counters(s) && Owned(s) && Fifo(s) && a < |s.actors| && EffectOk(s, a, Store(x, k))
    ensures InTurn(Apply(s, a, Store(x, k)))
  {
    var s' := Apply(s, a, Store(x, k));
    StorePending(s, a, x, k);
    assert HandOk(s, s.actors[a]);
    forall t: nat, t': nat | SameSlot(t, t', s.bits) && t' < |s'.fates| && s'.fates[t'] != Pending
      ensures t in s'.got
    {
      if t' == k {
        assert s.fates[t] != Pending;
        assert TicketOk(s, t);
      }
    }
  }

  lemma StoreKeepsFifo<T>(s: Ring<T>, a: nat, x: T, k: nat)
    requires Counters(s) && Owned(s) && Fifo(s) && a < |s.actors| && EffectOk(s, a, Store(x, k))
    ensures Counters(Apply(s, a, Store(x, k))) && Fifo(Apply(s, a, Store(x, k)))
  {
    var s' := Apply(s, a, Store(x, k));
    ApplyKeepsCounters(s, a, Store(x, k));
    StoreKeepsInTurn(s, a, x, k);
    StoreFillsEmpty(s, a, x, k);
    forall t | 0 <= t < s'.head
      ensures TicketOk(s', t)
    {
      assert TicketOk(s, t);
    }
    forall b | 0 <= b < |s'.actors|
      ensures HandOk(s', s'.actors[b])
    {
      assert HandOk(s, s.actors[b]);
      if b != a && s.actors[b].PushStore? {
        StoresDoNotRace(s, a, b);
      }
    }
  }

  lemma StoreFillsEmpty<T>(s: Ring<T>, a: nat, x: T, k: nat)
    requires Counters(s) && Owned(s) && Fifo(s) && a < |s.actors| && EffectOk(s, a, Store(x, k))
    ensures k < s.head && s.fates[k] == Pending && s.items[k] == x
    ensures Apply(s, a, Store(x, k)) == s.(actors := s.actors[a := Idle],
      slots := s.slots[Slot(k, s.bits) := Full(x, k)], fates := s.fates[k := InSlot])
  {
    assert ActorOk(s, a, s.actors[a]) && HandOk(s, s.actors[a]) && PushIsPending(s.fates, s.actors[a]);
  }

  /** Two producers about to store are never at the same slot. */
  lemma StoresDoNotRace<T>(s: Ring<T>, a: nat, b: nat)
    requires Counters(s) && Owned(s) && Fifo(s) && a < |s.actors| && b < |s.actors| && a != b
    requires s.actors[a].PushStore? && s.actors[b].PushStore?
    ensures Slot(s.actors[a].k, s.bits) != Slot(s.actors[b].k, s.bits)
  {
    var j, k := s.actors[a].k, s.actors[b].k;
    HolderOwns(s, a, j);
    HolderOwns(s, b, k);
    assert PushIsPending(s.fates, s.actors[a]) && PushIsPending(s.fates, s.actors[b]);
    assert !SameSlot(j, k, s.bits) && !SameSlot(k, j, s.bits);
  }

  lemma DeliverIsOwn<T>(s: Ring<T>, a: nat, u: nat, x: T, f: nat, pc: PC<T>)
    requires Counters(s) && Owned(s) && Fifo(s) && a < |s.actors| && EffectOk(s, a, Deliver(u, x, f, pc))
    ensures f == u < s.tail && u !in s.got && x == s.items[u] && s.fates[u] == InSlot
    ensures Apply(s, a, Deliver(u, x, f, pc)) == s.(actors := s.actors[a := pc],
      slots := s.slots[Slot(u, s.bits) := Empty], fates := s.fates[u := Taken(u)], got := s.got[u := Full(x, u)])
  {
    DeliveredWasStored(s, a, u, x, f, pc);
    assert HandOk(s, s.actors[a]) && PopIsAwaited(s.got, s.actors[a]);
    if s.actors[a].BatchTake? {
      FoundIsOwn(s, u);
    } else {
      assert TicketOk(s, u);
    }
  }

  lemma DeliverKeepsFifo<T>(s: Ring<T>, a: nat, u: nat, x: T, f: nat, pc: PC<T>)
    requires Counters(s) && Owned(s) && Fifo(s) && a < |s.actors| && EffectOk(s, a, Deliver(u, x, f, pc))
    ensures Counters(Apply(s, a, Deliver(u, x, f, pc))) && Fifo(Apply(s, a, Deliver(u, x, f, pc)))
  {
    var s' := Apply(s, a, Deliver(u, x, f, pc));
    ApplyKeepsCounters(s, a, Deliver(u, x, f, pc));
    DeliverIsOwn(s, a, u, x, f, pc);
    DeliverKeepsInTurn(s, s', u);
    DeliverKeepsTickets(s, s', u);
    DeliverKeepsHands(s, s', a, u, x, f, pc);
  }

  lemma DeliverKeepsHands<T>(s: Ring<T>, s': Ring<T>, a: nat, u: nat, x: T, f: nat, pc: PC<T>)
    requires Counters(s) && Owned(s) && Fifo(s) && a < |s.actors| && EffectOk(s, a, Deliver(u, x, f, pc))
    requires s' == Apply(s, a, Deliver(u, x, f, pc)) && u == f < s.head && s.fates[u] == InSlot
    ensures forall b :: 0 <= b < |s'.actors| ==> HandOk(s', s'.actors[b])
  {
    forall b | 0 <= b < |s'.actors|
      ensures HandOk(s', s'.actors[b])
    {
      if b == a {
        OwnHandStays(s, s', a, u, x, f, pc);
      } else {
        OtherHandStays(s, s', a, b, u, x, f, pc);
      }
    }
  }

  lemma OwnHandStays<T>(s: Ring<T>, s': Ring<T>, a: nat, u: nat, x: T, f: nat, pc: PC<T>)
    requires Counters(s) && Fifo(s) && a < |s.actors| && EffectOk(s, a, Deliver(u, x, f, pc))
    requires s' == Apply(s, a, Deliver(u, x, f, pc)) && u == f < s.head
    ensures HandOk(s', pc)
  {
    assert HandOk(s, s.actors[a]) && ActorOk(s, a, s.actors[a]) && TicketOk(s, u);
  }

  lemma OtherHandStays<T>(s: Ring<T>, s': Ring<T>, a: nat, b: nat, u: nat, x: T, f: nat, pc: PC<T>)
    requires Counters(s) && Owned(s) && Fifo(s) && a < |s.actors| && EffectOk(s, a, Deliver(u, x, f, pc))
    requires s' == Apply(s, a, Deliver(u, x, f, pc)) && u == f < s.head && b < |s.actors| && b != a
    ensures HandOk(s', s.actors[b])
  {
    assert HandOk(s, s.actors[b]);
    if s.actors[b].PopClear? {
      OthersDoNotAwait(s, a, b, u);
      DeliveredFate(s, s', a, u, x, f, pc, s.actors[b].u);
    }
  }

  /** A delivery changes the fate of its own ticket only. */
  lemma DeliveredFate<T>(s: Ring<T>, s': Ring<T>, a: nat, u: nat, x: T, f: nat, pc: PC<T>, v: nat)
    requires Counters(s) && Owned(s) && Fifo(s) && a < |s.actors| && EffectOk(s, a, Deliver(u, x, f, pc))
    requires s' == Apply(s, a, Deliver(u, x, f, pc)) && u == f < s.head && v < |s.fates| && v != u
    ensures |s'.fates| == |s.fates| && s'.fates[v] == s.fates[v]
  {
    assert HandOk(s, s.actors[a]) && ActorOk(s, a, s.actors[a]) && TicketOk(s, u);
  }

  lemma DeliverKeepsTickets<T>(s: Ring<T>, s': Ring<T>, u: nat)
    requires Counters(s) && Counters(s') && Fifo(s) && u < s.head && s.fates[u] == InSlot
    requires s'.bits == s.bits && s'.head == s.head && s'.items == s.items
    requires s'.fates == s.fates[u := Taken(u)] && s'.got == s.got[u := Full(s.items[u], u)]
    requires s'.slots == s.slots[Slot(u, s.bits) := Empty]
    ensures forall t :: 0 <= t < s'.head ==> TicketOk(s', t)
  {
    assert TicketOk(s, u);
    forall t | 0 <= t < s'.head
      ensures TicketOk(s', t)
    {
      assert TicketOk(s, t);
    }
  }

  lemma DeliverKeepsInTurn<T>(s: Ring<T>, s': Ring<T>, u: nat)
    requires InTurn(s) && s'.bits == s.bits && s'.tail == s.tail && s.got.Keys <= s'.got.Keys
    requires u < |s.fates| && s'.fates == s.fates[u := Taken(u)] && s.fates[u] != Pending
    ensures InTurn(s')
  {
  }

  lemma NextKeepsFifo<T>(s: Ring<T>, e: Event<T>)
    requires Counters(s) && Owned(s) && Fifo(s) && Bounded(s) && NoLap(s, e)
    ensures Counters(Next(s, e)) && Fifo(Next(s, e))
  {
    if e.a < |s.actors| {
      EffectIsOk(s, e);
      match EffectOf(s, e)
      case Quiet(pc) => QuietKeepsFifo(s, e.a, pc);
      case ClaimPush(x) => ClaimPushKeepsFifo(s, e.a, x);
      case Store(x, k) => StoreKeepsFifo(s, e.a, x, k);
      case ClaimPop(count, pc) => ClaimPopKeepsFifo(s, e.a, count, pc);
      case Deliver(u, x, f, pc) => DeliverKeepsFifo(s, e.a, u, x, f, pc);
    }
  }

  lemma {:induction false} FifoAlways<T>(bits: nat, actors: nat, es: seq<Event<T>>)
    requires Bounded(Run(bits, actors, es)) && RunNoLap(bits, actors, es)
    ensures Counters(Run(bits, actors, es)) && Owned(Run(bits, actors, es)) && Fifo(Run(bits, actors, es))
  {
    OwnedAlways(bits, actors, es);
    if es == [] {
      InitIsFifo<T>(bits, actors);
    } else {
      var es', e := es[..|es| - 1], es[|es| - 1];
      CountersGrow(Run(bits, actors, es'), e);
      FifoAlways(bits, actors, es');
      NextKeepsFifo(Run(bits, actors, es'), e);
    }
  }

  lemma InitIsFifo<T>(bits: nat, actors: nat)
    requires Counters(Init<T>(bits, actors))
    ensures Fifo(Init<T>(bits, actors))
  {
    var s := Init<T>(bits, actors);
    assert forall a :: 0 <= a < |s.actors| ==> s.actors[a].Idle?;
  }

  // ---- What the run delivers ----

  /** First-in first-out handoff: the consumer with ticket `u` gets the item of the producer with
      ticket `u`, nothing is lost, and every finished producer's item is in its slot or delivered. */
  lemma HandoffIsFifo<T>(bits: nat, actors: nat, es: seq<Event<T>>)
    requires Bounded(Run(bits, actors, es)) && RunNoLap(bits, actors, es)
    ensures var s := Run(bits, actors, es);
      && s.tail <= s.head == |s.items| == |s.fates|
      && (forall u :: u in s.got ==> u < s.tail && s.got[u] == Full(s.items[u], u))
      && (forall t :: 0 <= t < s.head && s.fates[t] != Pending && t !in s.got ==>
            s.slots[Slot(t, s.bits)] == Full(s.items[t], t))
  {
    FifoAlways(bits, actors, es);
    var s := Run(bits, actors, es);
    forall u | u in s.got
      ensures u < s.tail && s.got[u] == Full(s.items[u], u)
    {
      assert TicketOk(s, u);
    }
    forall t | 0 <= t < s.head && s.fates[t] != Pending && t !in s.got
      ensures s.slots[Slot(t, s.bits)] == Full(s.items[t], t)
    {
      assert TicketOk(s, t);
    }
  }

  /** The unbounded-run queue the ring stands for: items claimed for pushing and not yet for popping. */
  ghost function Queue<T>(s: Ring<T>): seq<T>
    requires s.tail <= |s.items|
  {
    s.items[s.tail..]
  }

  /** A claim appends at the back or removes from the front; everything else leaves the queue alone. */
  ghost predicate QueueStep<T>(q: seq<T>, q': seq<T>, capacity: nat, eff: Effect<T>) {
    match eff
    case ClaimPush(x) => |q| < capacity && q' == q + [x]
    case ClaimPop(count, _) => count <= |q| && q' == q[count..]
    case _ => q' == q
  }

  /** Each step of the ring is a step of that queue, in every interleaving. */
  lemma StepRefinesQueue<T>(s: Ring<T>, e: Event<T>)
    requires Counters(s) && Bounded(s) && e.a < |s.actors|
    ensures Counters(Next(s, e))
    ensures QueueStep(Queue(s), Queue(Next(s, e)), Capacity(s), EffectOf(s, e))
  {
    EffectIsOk(s, e);
    ApplyKeepsCounters(s, e.a, EffectOf(s, e));
  }

  lemma {:induction false} ItemsGrow<T>(bits: nat, actors: nat, es: seq<Event<T>>, n: nat)
    requires n <= |es|
    ensures Run(bits, actors, es[..n]).items <= Run(bits, actors, es).items
  {
    if n == |es| {
      assert es[..n] == es;
    } else {
      var es' := es[..|es| - 1];
      ItemsGrow(bits, actors, es', n);
      assert es'[..n] == es[..n];
      CountersGrow(Run(bits, actors, es'), es[|es| - 1]);
    }
  }

  /** The swap on `tail` decides: whatever happens later, a ticket claimed after `n` events
      delivers the item that stood at its place in the queue at that moment. */
  lemma ClaimDecidesResult<T>(bits: nat, actors: nat, es: seq<Event<T>>, n: nat, u: nat)
    requires Bounded(Run(bits, actors, es)) && RunNoLap(bits, actors, es) && n <= |es|
    requires Counters(Run(bits, actors, es[..n]))
    requires var s := Run(bits, actors, es[..n]); s.tail <= u < s.head
    requires u in Run(bits, actors, es).got
    ensures var s := Run(bits, actors, es[..n]);
      Run(bits, actors, es).got[u] == Full(Queue(s)[u - s.tail], u)
  {
    HandoffIsFifo(bits, actors, es);
    ItemsGrow(bits, actors, es, n);
    QueueItem(Run(bits, actors, es[..n]), u);
  }

  lemma QueueItem<T>(s: Ring<T>, u: nat)
    requires s.tail <= u < |s.items|
    ensures Queue(s)[u - s.tail] == s.items[u]
  {
  }

  ghost predicate Pushing<T>(pc: PC<T>) {
    pc.PushHead? || pc.PushTail? || pc.PushTry? || pc.PushWait? || pc.PushStore?
  }

  ghost predicate Taking<T>(pc: PC<T>) { !pc.Idle? && !Pushing(pc) }

  // ---- Two actors never lap each other ----

  /** All calls come from the actors `a` and `b`, whatever they call. */
  ghost predicate TwoOnly<T>(es: seq<Event<T>>, a: nat, b: nat) {
    forall i :: 0 <= i < |es| ==> es[i].Step? || es[i].a == a || es[i].a == b
  }

  ghost predicate OnlyTwo<T>(s: Ring<T>, a: nat, b: nat) {
    forall c :: 0 <= c < |s.actors| && !s.actors[c].Idle? ==> c == a || c == b
  }

  lemma {:induction false} OnlyTwoAlways<T>(bits: nat, actors: nat, es: seq<Event<T>>, a: nat, b: nat)
    requires TwoOnly(es, a, b)
    ensures OnlyTwo(Run(bits, actors, es), a, b)
  {
    if es != [] {
      OnlyTwoAlways(bits, actors, es[..|es| - 1], a, b);
      OnlyTwoStep(Run(bits, actors, es[..|es| - 1]), es[|es| - 1], a, b);
    } else {
      assert forall c :: 0 <= c < actors ==> Init<T>(bits, actors).actors[c].Idle?;
    }
  }

  lemma OnlyTwoStep<T>(s: Ring<T>, e: Event<T>, a: nat, b: nat)
    requires |s.slots| == Capacity(s) && OnlyTwo(s, a, b) && (e.Step? || e.a == a || e.a == b)
    ensures OnlyTwo(Next(s, e), a, b)
  {
  }

  /** A claim by one of two actors laps nothing: the other cannot both have claimed the slot's last ticket of the same
      kind and not have finished, since the ticket of the other kind has been claimed too. */
  lemma TwoDoNotLap<T>(s: Ring<T>, e: Event<T>, a: nat, b: nat)
    requires Counters(s) && Bounded(s) && Owned(s) && Fifo(s) && OnlyTwo(s, a, b)
    ensures NoLap(s, e)
  {
    if e.a < |s.actors| {
      EffectIsOk(s, e);
      match EffectOf(s, e)
      case ClaimPush(_) => PushDoesNotLap(s, e.a, a, b);
      case ClaimPop(count, _) => PopDoesNotLap(s, e.a, count, a, b);
      case _ =>
    }
  }

  lemma PushDoesNotLap<T>(s: Ring<T>, c: nat, a: nat, b: nat)
    requires Counters(s) && Owned(s) && Fifo(s) && OnlyTwo(s, a, b) && c < |s.actors| && s.actors[c].PushTry?
    requires s.head < s.tail + Capacity(s)
    ensures PriorPushDone(s, s.head)
  {
    var n := Capacity(s);
    if s.head >= n {
      PriorIsStored(s, c, s.head - n, a, b);
    }
  }

  lemma PopDoesNotLap<T>(s: Ring<T>, c: nat, count: nat, a: nat, b: nat)
    requires Counters(s) && Owned(s) && InTurn(s) && OnlyTwo(s, a, b) && c < |s.actors|
    requires (s.actors[c].PopTry? || s.actors[c].BatchTry?) && s.tail + count <= s.head
    ensures forall u: nat :: s.tail <= u < s.tail + count ==> PriorPopDone(s, u)
  {
    forall u: nat | s.tail <= u < s.tail + count
      ensures PriorPopDone(s, u)
    {
      TicketDoesNotLap(s, c, u, Capacity(s), a, b);
    }
  }

  lemma TicketDoesNotLap<T>(s: Ring<T>, c: nat, u: nat, n: nat, a: nat, b: nat)
    requires Counters(s) && Owned(s) && InTurn(s) && OnlyTwo(s, a, b) && c < |s.actors|
    requires (s.actors[c].PopTry? || s.actors[c].BatchTry?) && u < s.head && n == Capacity(s)
    ensures PriorPopDone(s, u)
  {
    if u >= n {
      TurnBack(s, u, n);
      PriorIsTaken(s, c, u - n, u, a, b);
    }
  }

  lemma TurnBack<T>(s: Ring<T>, u: nat, n: nat)
    requires s.head <= s.tail + n && n <= u < s.head
    ensures u - n < s.tail
  {
  }

  /** While `c` is about to claim a ticket to push, a ticket already claimed by a consumer is stored. */
  lemma PriorIsStored<T>(s: Ring<T>, c: nat, k: nat, a: nat, b: nat)
    requires Counters(s) && Owned(s) && Fifo(s) && OnlyTwo(s, a, b) && c < |s.actors| && s.actors[c].PushTry?
    requires k < s.tail
    ensures WasStored(s, k)
  {
    assert TicketOk(s, k);
  }

  /** While `c` is about to claim a ticket to pop, the ticket one turn before one already pushed has its item. */
  lemma PriorIsTaken<T>(s: Ring<T>, c: nat, w: nat, u: nat, a: nat, b: nat)
    requires Counters(s) && Owned(s) && InTurn(s) && OnlyTwo(s, a, b) && c < |s.actors|
    requires s.actors[c].PopTry? || s.actors[c].BatchTry?
    requires w < s.tail && w + Capacity(s) == u < s.head
    ensures w in s.got
  {
    if w !in s.got {
      var d := s.poppers[w];
      assert HoldsPop(s.actors[d], w) && d != c;
      assert s.fates[u] == Pending ==> HoldsPush(s.actors[s.pushers[u]], u);
      SlotsWrap(w, s.bits);
      assert SameSlot(w, u, s.bits);
    }
  }

  lemma {:induction false} TwoRunNoLap<T>(bits: nat, actors: nat, es: seq<Event<T>>, a: nat, b: nat)
    requires TwoOnly(es, a, b) && Bounded(Run(bits, actors, es))
    ensures RunNoLap(bits, actors, es)
  {
    if es != [] {
      var es', e := es[..|es| - 1], es[|es| - 1];
      var s := Run(bits, actors, es');
      CountersGrow(s, e);
      TwoRunNoLap(bits, actors, es', a, b);
      FifoAlways(bits, actors, es');
      OnlyTwoAlways(bits, actors, es', a, b);
      TwoDoNotLap(s, e, a, b);
    }
  }

  /** So any two actors, such as one producer and one consumer, get first-in first-out handoff with no further
      assumption. */
  lemma TwoActorsHandoff<T>(bits: nat, actors: nat, es: seq<Event<T>>, a: nat, b: nat, u: nat)
    requires TwoOnly(es, a, b) && Bounded(Run(bits, actors, es))
    requires u in Run(bits, actors, es).got
    ensures var s := Run(bits, actors, es); u < |s.items| && s.got[u] == Full(s.items[u], u)
  {
    TwoRunNoLap(bits, actors, es, a, b);
    HandoffIsFifo(bits, actors, es);
  }

  // ---- Without producers, or without consumers, nothing laps either ----

  /** Nobody pushes, or nobody takes. */
  ghost predicate OneWay<T>(es: seq<Event<T>>) {
    || (forall i :: 0 <= i < |es| ==> !es[i].StartPush?)
    || (forall i :: 0 <= i < |es| ==> !es[i].StartPop? && !es[i].StartBatch?)
  }

  lemma {:induction false} NothingPushed<T>(bits: nat, actors: nat, es: seq<Event<T>>)
    requires forall i :: 0 <= i < |es| ==> !es[i].StartPush?
    ensures var s := Run(bits, actors, es); s.head == 0 && forall a :: 0 <= a < |s.actors| ==> !Pushing(s.actors[a])
  {
    if es != [] {
      NothingPushed(bits, actors, es[..|es| - 1]);
      StillNotPushing(Run(bits, actors, es[..|es| - 1]), es[|es| - 1]);
    }
  }

  lemma StillNotPushing<T>(s: Ring<T>, e: Event<T>)
    requires |s.slots| == Capacity(s) && !e.StartPush? && forall a :: 0 <= a < |s.actors| ==> !Pushing(s.actors[a])
    ensures var s' := Next(s, e); s'.head == s.head && forall a :: 0 <= a < |s'.actors| ==> !Pushing(s'.actors[a])
  {
    if e.a < |s.actors| {
      assert !Pushing(s.actors[e.a]);
    }
  }

  /** `tail` stays at 0. */
  lemma {:induction false} NothingTaken<T>(bits: nat, actors: nat, es: seq<Event<T>>)
    requires forall i :: 0 <= i < |es| ==> !es[i].StartPop? && !es[i].StartBatch?
    ensures var s := Run(bits, actors, es); s.tail == 0 && forall a :: 0 <= a < |s.actors| ==> !Taking(s.actors[a])
  {
    if es != [] {
      NothingTaken(bits, actors, es[..|es| - 1]);
      StillNotTaking(Run(bits, actors, es[..|es| - 1]), es[|es| - 1]);
    }
  }

  lemma StillNotTaking<T>(s: Ring<T>, e: Event<T>)
    requires |s.slots| == Capacity(s) && !e.StartPop? && !e.StartBatch?
    requires forall a :: 0 <= a < |s.actors| ==> !Taking(s.actors[a])
    ensures var s' := Next(s, e); s'.tail == s.tail && forall a :: 0 <= a < |s'.actors| ==> !Taking(s'.actors[a])
  {
    if e.a < |s.actors| {
      assert !Taking(s.actors[e.a]);
    }
  }

  lemma {:induction false} OneWayRunNoLap<T>(bits: nat, actors: nat, es: seq<Event<T>>)
    requires OneWay(es) && Bounded(Run(bits, actors, es))
    ensures RunNoLap(bits, actors, es)
  {
    if es != [] {
      var es', e := es[..|es| - 1], es[|es| - 1];
      var s := Run(bits, actors, es');
      CountersGrow(s, e);
      OneWayRunNoLap(bits, actors, es');
      CountersAlways(bits, actors, es');
      if forall i :: 0 <= i < |es| ==> !es[i].StartPush? {
        NothingPushed(bits, actors, es');
      } else {
        NothingTaken(bits, actors, es');
      }
      OneWayDoesNotLap(s, e);
    }
  }

  lemma OneWayDoesNotLap<T>(s: Ring<T>, e: Event<T>)
    requires Counters(s) && Bounded(s)
    requires || (s.head == 0 && forall a :: 0 <= a < |s.actors| ==> !Pushing(s.actors[a]))
             || (s.tail == 0 && forall a :: 0 <= a < |s.actors| ==> !Taking(s.actors[a]))
    ensures NoLap(s, e)
  {
    if e.a < |s.actors| {
      EffectIsOk(s, e);
    }
  }
}
