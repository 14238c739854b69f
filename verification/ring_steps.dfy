/** The ring buffer under concurrency, as a step system: every atomic load, compare-and-swap,
    store and swap of `Push`, `Pop` and `BatchPop` is one step of one actor, and a run is any
    sequence of steps of any number of actors. Ticket counters stay below 2^64 (`Bounded`). */
module RingSteps {
  import opened Bits
  import opened RingBuffers

  /** A slot: nil, or an item. `from` is history: the producer ticket it was stored under. */
  datatype Cell<T> = Empty | Full(item: T, from: nat)

  /** Where an actor stands in the operation it is executing. */
  datatype PC<T> =
    | Idle
    | PushHead(x: T)
    | PushTail(x: T, h: nat)
    | PushTry(x: T, h: nat, t: nat)
    | PushWait(x: T, k: nat)
    | PushStore(x: T, k: nat)
    | PopHead
    | PopTail(h: nat)
    | PopTry(h: nat, t: nat)
    | PopWait(u: nat)
    | PopClear(u: nat, x: T, f: nat)
    | BatchHead(max: nat)
    | BatchTail(max: nat, h: nat)
    | BatchTry(max: nat, h: nat, t: nat)
    | BatchTake(first: nat, count: nat, items: seq<T>)

  /** What has become of the item pushed under a producer ticket (history). */
  datatype Fate = Pending | InSlot | Taken(ticket: nat) | Lost

  /** The shared fields and the actors; after them, history that no step tests:
      per producer ticket its item, owner and fate, per consumer ticket its owner and what it got. */
  datatype Ring<T> = Ring(
    bits: nat, head: nat, tail: nat, slots: seq<Cell<T>>, actors: seq<PC<T>>,
    items: seq<T>, pushers: seq<nat>, fates: seq<Fate>, poppers: seq<nat>, got: map<nat, Cell<T>>)

  datatype Event<T> =
    | StartPush(a: nat, x: T)
    | StartPop(a: nat)
    | StartBatch(a: nat, max: int)
    | Step(a: nat)

  function Capacity<T>(s: Ring<T>): nat { Pow2(s.bits) }

  function Init<T>(bits: nat, actors: nat): Ring<T> {
    Ring(bits, 0, 0, seq(Pow2(bits), _ => Empty), seq(actors, _ => Idle), [], [], [], [], map[])
  }

  /** The effect of one atomic action on the shared fields, and the actor's next position. */
  datatype Effect<T> =
    | Quiet(pc: PC<T>)                                    // a load, a failed swap, a return
    | ClaimPush(x: T)                                     // compare-and-swap on `head` succeeds
    | Store(x: T, k: nat)                                 // the producer's store into its slot
    | ClaimPop(count: nat, pc: PC<T>)                     // compare-and-swap on `tail` succeeds
    | Deliver(u: nat, x: T, f: nat, pc: PC<T>)            // the consumer empties the slot of ticket `u`

  /** The atomic action the actor takes next. */
  function Decide<T>(s: Ring<T>, a: nat): Effect<T>
    requires a < |s.actors| && |s.slots| == Capacity(s)
  {
    match s.actors[a]
    case Idle => Quiet(Idle)
    case PushHead(x) => Quiet(PushTail(x, s.head))
    case PushTail(x, h) => Quiet(PushTry(x, h, s.tail))
    case PushTry(x, h, t) =>
      if Sub64(h, t) >= Capacity(s) then Quiet(Idle)       // returns false
      else if s.head == h then ClaimPush(x)
      else Quiet(PushHead(x))
    case PushWait(x, k) =>
      if s.slots[Slot(k, s.bits)].Empty? then Quiet(PushStore(x, k)) else Quiet(PushWait(x, k))
    case PushStore(x, k) => Store(x, k)
    case PopHead => Quiet(PopTail(s.head))
    case PopTail(h) => Quiet(PopTry(h, s.tail))
    case PopTry(h, t) =>
      if t >= h then Quiet(Idle)                           // returns nil
      else if s.tail == t then ClaimPop(1, PopWait(t))
      else Quiet(PopHead)
    case PopWait(u) =>
      (match s.slots[Slot(u, s.bits)]
       case Empty => Quiet(PopWait(u))
       case Full(x, f) => Quiet(PopClear(u, x, f)))
    case PopClear(u, x, f) => Deliver(u, x, f, Idle)
    case BatchHead(max) => Quiet(BatchTail(max, s.head))
    case BatchTail(max, h) => Quiet(BatchTry(max, h, s.tail))
    case BatchTry(max, h, t) =>
      if t >= h then Quiet(Idle)                           // returns nil
      else if s.tail == t then ClaimPop(Min(h - t, max), BatchTake(t, Min(h - t, max), []))
      else Quiet(BatchHead(max))
    case BatchTake(first, count, items) =>
      if |items| >= count then Quiet(Idle)                 // returns items
      else
        match s.slots[Slot(first + |items|, s.bits)]
        case Empty => Quiet(BatchTake(first, count, items))
        case Full(x, f) => Deliver(first + |items|, x, f, BatchTake(first, count, items + [x]))
  }

  /** The fates once the cell `c` has been overwritten or cleared without being read. */
  function Dropped<T>(fates: seq<Fate>, c: Cell<T>): (fates': seq<Fate>)
    ensures |fates'| == |fates|
  {
    if c.Full? && c.from < |fates| then fates[c.from := Lost] else fates
  }

  function Apply<T>(s: Ring<T>, a: nat, eff: Effect<T>): Ring<T>
    requires a < |s.actors| && |s.slots| == Capacity(s)
  {
    match eff
    case Quiet(pc) => s.(actors := s.actors[a := pc])
    case ClaimPush(x) =>
      s.(actors := s.actors[a := PushWait(x, s.head)], head := s.head + 1,
         items := s.items + [x], pushers := s.pushers + [a], fates := s.fates + [Pending])
    case Store(x, k) =>
      if k >= |s.fates| then s
      else
        var i := Slot(k, s.bits);
        s.(actors := s.actors[a := Idle], slots := s.slots[i := Full(x, k)],
           fates := Dropped(s.fates, s.slots[i])[k := InSlot])
    case ClaimPop(count, pc) =>
      s.(actors := s.actors[a := pc], tail := s.tail + count, poppers := s.poppers + seq(count, _ => a))
    case Deliver(u, x, f, pc) =>
      if f >= |s.fates| then s
      else
        var i := Slot(u, s.bits);
        s.(actors := s.actors[a := pc], slots := s.slots[i := Empty],
           fates := Dropped(s.fates, s.slots[i])[f := Taken(u)], got := s.got[u := Full(x, f)])
  }

  /** What an event makes an actor do; one that is not enabled leaves it where it is. */
  function EffectOf<T>(s: Ring<T>, e: Event<T>): Effect<T>
    requires e.a < |s.actors| && |s.slots| == Capacity(s)
  {
    var pc := s.actors[e.a];
    match e
    case StartPush(_, x) => Quiet(if pc.Idle? then PushHead(x) else pc)
    case StartPop(_) => Quiet(if pc.Idle? then PopHead else pc)
    case StartBatch(_, max) => Quiet(if pc.Idle? && max > 0 then BatchHead(max) else pc)
    case Step(a) => Decide(s, a)
  }

  function Next<T>(s: Ring<T>, e: Event<T>): Ring<T>
    requires |s.slots| == Capacity(s)
  {
    if e.a < |s.actors| then Apply(s, e.a, EffectOf(s, e)) else s
  }

  /** The state after a run of events. */
  function Run<T>(bits: nat, actors: nat, es: seq<Event<T>>): (s: Ring<T>)
    ensures |s.slots| == Capacity(s) && s.bits == bits && |s.actors| == actors
  {
    if es == [] then Init(bits, actors)
    else Next(Run(bits, actors, es[..|es| - 1]), es[|es| - 1])
  }

  /** No counter has reached 2^64. */
  predicate Bounded<T>(s: Ring<T>) { s.head < TWO64 }

  // ---- Counters and ownership, in every interleaving ----

  ghost predicate HoldsPush<T>(pc: PC<T>, k: nat) {
    (pc.PushWait? || pc.PushStore?) && pc.k == k
  }

  ghost predicate HoldsPop<T>(pc: PC<T>, u: nat) {
    || ((pc.PopWait? || pc.PopClear?) && pc.u == u)
    || (pc.BatchTake? && pc.first + |pc.items| <= u < pc.first + pc.count)
  }

  /** What an actor remembers is never ahead of the counters, and it owns the tickets it holds. */
  ghost predicate ActorOk<T>(s: Ring<T>, a: nat, pc: PC<T>) {
    match pc
    case PushTail(_, h) => h <= s.head
    case PushTry(_, h, t) => h <= s.head && t <= s.tail
    case PushWait(x, k) => k < |s.pushers| && k < |s.items| && s.pushers[k] == a && s.items[k] == x
    case PushStore(x, k) => k < |s.pushers| && k < |s.items| && s.pushers[k] == a && s.items[k] == x
    case PopTail(h) => h <= s.head
    case PopTry(h, t) => h <= s.head && t <= s.tail
    case PopWait(u) => u < |s.poppers| && s.poppers[u] == a
    case PopClear(u, x, f) => u < |s.poppers| && s.poppers[u] == a && f < |s.items| && s.items[f] == x
    case BatchTail(_, h) => h <= s.head
    case BatchTry(_, h, t) => h <= s.head && t <= s.tail
    case BatchTake(first, count, items) =>
      |items| <= count && first + count <= |s.poppers|
      && forall u :: first <= u < first + count ==> s.poppers[u] == a
    case _ => true
  }

  ghost predicate Counters<T>(s: Ring<T>) {
    && |s.slots| == Capacity(s) && s.tail <= s.head <= s.tail + Capacity(s)
    && |s.items| == |s.pushers| == |s.fates| == s.head && |s.poppers| == s.tail
    && (forall a :: 0 <= a < |s.actors| ==> ActorOk(s, a, s.actors[a]))
    && (forall i :: 0 <= i < |s.slots| && s.slots[i].Full? ==>
          s.slots[i].from < s.head && s.items[s.slots[i].from] == s.slots[i].item)
  }

  /** What `Counters` lets one conclude about the action decided on. */
  ghost predicate EffectOk<T>(s: Ring<T>, a: nat, eff: Effect<T>)
    requires a < |s.actors| && |s.slots| == Capacity(s)
  {
    var pc := s.actors[a];
    match eff
    case Quiet(pc') =>
      && ActorOk(s, a, pc')
      && (forall k :: HoldsPush(pc', k) <==> HoldsPush(pc, k))
      && (forall u :: HoldsPop(pc', u) <==> HoldsPop(pc, u))
      && (pc'.PushStore? && pc != pc' ==> s.slots[Slot(pc'.k, s.bits)].Empty?)
      && (pc'.PopClear? && pc != pc' ==> pc == PopWait(pc'.u) && s.slots[Slot(pc'.u, s.bits)] == Full(pc'.x, pc'.f))
      && (pc'.BatchTake? ==> pc == pc')
    case ClaimPush(x) => s.head < s.tail + Capacity(s) && pc.PushTry? && pc.x == x && pc.h == s.head
    case Store(x, k) => pc == PushStore(x, k)
    case ClaimPop(count, pc') =>
      && s.tail + count <= s.head
      && ((pc.PopTry? && pc' == PopWait(s.tail) && count == 1)
          || (pc.BatchTry? && pc' == BatchTake(s.tail, count, [])))
    case Deliver(u, x, f, pc') =>
      || (pc == PopClear(u, x, f) && pc' == Idle)
      || (pc.BatchTake? && |pc.items| < pc.count && u == pc.first + |pc.items|
          && s.slots[Slot(u, s.bits)] == Full(x, f) && pc' == BatchTake(pc.first, pc.count, pc.items + [x]))
  }

  /** Despite stale loads, a claim on `head` succeeds only when there is room, and a claim on
      `tail` takes only tickets below `head`: the swap rules out every stale pair of loads. */
  lemma DecideIsOk<T>(s: Ring<T>, a: nat)
    requires Counters(s) && Bounded(s) && a < |s.actors|
    ensures EffectOk(s, a, Decide(s, a))
  {
    assert ActorOk(s, a, s.actors[a]);
    var pc := s.actors[a];
    if pc.PushHead? || pc.PushTail? || pc.PushTry? || pc.PushWait? || pc.PushStore? {
      DecidePushIsOk(s, a);
    } else if pc.PopHead? || pc.PopTail? || pc.PopTry? || pc.PopWait? || pc.PopClear? {
      DecidePopIsOk(s, a);
    } else if pc.BatchHead? || pc.BatchTail? || pc.BatchTry? || pc.BatchTake? {
      DecideBatchIsOk(s, a);
    }
  }

  lemma DecidePushIsOk<T>(s: Ring<T>, a: nat)
    requires Counters(s) && Bounded(s) && a < |s.actors| && ActorOk(s, a, s.actors[a])
    requires var pc := s.actors[a]; pc.PushHead? || pc.PushTail? || pc.PushTry? || pc.PushWait? || pc.PushStore?
    ensures EffectOk(s, a, Decide(s, a))
  {
  }

  lemma DecidePopIsOk<T>(s: Ring<T>, a: nat)
    requires Counters(s) && Bounded(s) && a < |s.actors| && ActorOk(s, a, s.actors[a])
    requires var pc := s.actors[a]; pc.PopHead? || pc.PopTail? || pc.PopTry? || pc.PopWait? || pc.PopClear?
    ensures EffectOk(s, a, Decide(s, a))
  {
  }

  lemma DecideBatchIsOk<T>(s: Ring<T>, a: nat)
    requires Counters(s) && Bounded(s) && a < |s.actors| && ActorOk(s, a, s.actors[a])
    requires var pc := s.actors[a]; pc.BatchHead? || pc.BatchTail? || pc.BatchTry? || pc.BatchTake?
    ensures EffectOk(s, a, Decide(s, a))
  {
  }

  lemma EffectIsOk<T>(s: Ring<T>, e: Event<T>)
    requires Counters(s) && Bounded(s) && e.a < |s.actors|
    ensures EffectOk(s, e.a, EffectOf(s, e))
  {
    assert ActorOk(s, e.a, s.actors[e.a]);
    if e.Step? {
      DecideIsOk(s, e.a);
    }
  }

  lemma ApplyKeepsCounters<T>(s: Ring<T>, a: nat, eff: Effect<T>)
    requires Counters(s) && a < |s.actors| && EffectOk(s, a, eff)
    ensures Counters(Apply(s, a, eff))
  {
    var s' := Apply(s, a, eff);
    assert ActorOk(s, a, s.actors[a]);
    forall b | 0 <= b < |s'.actors|
      ensures ActorOk(s', b, s'.actors[b])
    {
      assert ActorOk(s, b, s.actors[b]);
      ActorStaysOk(s, a, eff, b);
    }
  }

  lemma ActorStaysOk<T>(s: Ring<T>, a: nat, eff: Effect<T>, b: nat)
    requires Counters(s) && a < |s.actors| && EffectOk(s, a, eff) && b < |s.actors|
    ensures var s' := Apply(s, a, eff); ActorOk(s', b, s'.actors[b])
  {
    assert ActorOk(s, b, s.actors[b]);
    if b != a {
      ActorOkGrows(s, Apply(s, a, eff), b, s.actors[b]);
    }
  }

  lemma ActorOkGrows<T>(s: Ring<T>, s': Ring<T>, b: nat, pc: PC<T>)
    requires ActorOk(s, b, pc) && s.head <= s'.head && s.tail <= s'.tail
    requires s.items <= s'.items && s.pushers <= s'.pushers && s.poppers <= s'.poppers
    ensures ActorOk(s', b, pc)
  {
  }

  /** An actor owns the tickets it holds. */
  lemma HolderOwns<T>(s: Ring<T>, a: nat, k: nat)
    requires Counters(s) && a < |s.actors|
    ensures HoldsPush(s.actors[a], k) ==> k < s.head && s.pushers[k] == a
    ensures HoldsPop(s.actors[a], k) ==> k < s.tail && s.poppers[k] == a
  {
    assert ActorOk(s, a, s.actors[a]);
  }

  /** Counter safety in every interleaving. */
  lemma {:induction false} CountersAlways<T>(bits: nat, actors: nat, es: seq<Event<T>>)
    requires Bounded(Run(bits, actors, es))
    ensures Counters(Run(bits, actors, es))
  {
    if es != [] {
      var es', e := es[..|es| - 1], es[|es| - 1];
      var s := Run(bits, actors, es');
      CountersGrow(s, e);
      CountersAlways(bits, actors, es');
      if e.a < actors {
        EffectIsOk(s, e);
        ApplyKeepsCounters(s, e.a, EffectOf(s, e));
      }
    }
  }

  /** Both counters only grow, and a claimed ticket keeps its owner and its item. */
  lemma CountersGrow<T>(s: Ring<T>, e: Event<T>)
    requires |s.slots| == Capacity(s)
    ensures var s' := Next(s, e);
      && s.head <= s'.head && s.tail <= s'.tail
      && s.items <= s'.items && s.pushers <= s'.pushers && s.poppers <= s'.poppers
  {
  }

  /** In every interleaving no two actors hold the same ticket. */
  lemma TicketsHaveOneOwner<T>(bits: nat, actors: nat, es: seq<Event<T>>, a: nat, b: nat, k: nat)
    requires a < actors && b < actors
    requires Bounded(Run(bits, actors, es))
    requires var s := Run(bits, actors, es);
      (HoldsPush(s.actors[a], k) && HoldsPush(s.actors[b], k)) || (HoldsPop(s.actors[a], k) && HoldsPop(s.actors[b], k))
    ensures a == b
  {
    var s := Run(bits, actors, es);
    CountersAlways(bits, actors, es);
    HolderOwns(s, a, k);
    HolderOwns(s, b, k);
  }

  /** A batch that claims takes everything its two loads show, up to `max`. */
  lemma BatchClaimSize<T>(s: Ring<T>, a: nat, max: nat, h: nat, t: nat)
    requires Counters(s) && Bounded(s) && a < |s.actors| && s.actors[a] == BatchTry(max, h, t)
    ensures var tail' := Next(s, Step(a)).tail;
      tail' != s.tail ==> s.tail == t < h && tail' == if t + max < h then t + max else h
  {
  }

  /** Whatever an actor retries, a push keeps its item and a batch its limit. */
  lemma CallsKeepTheirArguments<T>(s: Ring<T>, e: Event<T>, a: nat)
    requires |s.slots| == Capacity(s) && a < |s.actors|
    ensures var pc, pc' := s.actors[a], Next(s, e).actors[a];
      && (pc.PushHead? || pc.PushTail? || pc.PushTry? || pc.PushWait? || pc.PushStore? ==>
            pc'.Idle?
            || ((pc'.PushHead? || pc'.PushTail? || pc'.PushTry? || pc'.PushWait? || pc'.PushStore?) && pc'.x == pc.x))
      && (pc.BatchHead? || pc.BatchTail? || pc.BatchTry? ==>
            pc'.Idle? || pc'.BatchTake?
            || ((pc'.BatchHead? || pc'.BatchTail? || pc'.BatchTry?) && pc'.max == pc.max))
  {
  }
}
