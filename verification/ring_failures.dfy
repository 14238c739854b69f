/** Runs of the ring's code that break what one would expect of a queue: an item returned twice, lost, or handed over
    out of turn. They are built for a ring of any capacity, any number of actors, and any actors that have the parts to
    play; `RingPatterns` shows which ways of using the ring have none. */
module RingFailures {
  import opened Bits
  import opened RingBuffers
  import opened RingSteps

  /** Which actors call `Push`, which `Pop` and which `BatchPop`. */
  datatype Usage = Usage(pushers: set<nat>, poppers: set<nat>, batchers: set<nat>)

  predicate Uses<T>(e: Event<T>, u: Usage) {
    && (e.StartPush? ==> e.a in u.pushers)
    && (e.StartPop? ==> e.a in u.poppers)
    && (e.StartBatch? ==> e.a in u.batchers)
  }

  ghost predicate AllUse<T>(es: seq<Event<T>>, u: Usage) {
    forall i :: 0 <= i < |es| ==> Uses(es[i], u)
  }

  /** Some run of that usage leads to `s`. */
  ghost predicate Reachable<T(!new)>(s: Ring<T>, u: Usage) {
    && |s.slots| == Capacity(s)
    && exists es: seq<Event<T>> :: AllUse(es, u) && Run(s.bits, |s.actors|, es) == s
  }

  /** One event more, of a given effect. */
  lemma Go<T(!new)>(s: Ring<T>, u: Usage, e: Event<T>, eff: Effect<T>) returns (s': Ring<T>)
    requires Reachable(s, u) && Uses(e, u) && e.a < |s.actors| && EffectOf(s, e) == eff
    ensures s' == Apply(s, e.a, eff) && Reachable(s', u)
  {
    var es: seq<Event<T>> :| AllUse(es, u) && Run(s.bits, |s.actors|, es) == s;
    s' := Next(s, e);
    assert (es + [e])[..|es|] == es;
    assert Run(s.bits, |s.actors|, es + [e]) == s';
  }

  lemma Wait<T(!new)>(s: Ring<T>, u: Usage, e: Event<T>, pc: PC<T>) returns (s': Ring<T>)
    requires Reachable(s, u) && Uses(e, u) && e.a < |s.actors| && EffectOf(s, e) == Quiet(pc)
    ensures s' == s.(actors := s.actors[e.a := pc]) && Reachable(s', u)
  {
    s' := Go(s, u, e, Quiet(pc));
  }

  // ---- What a producer does ----

  lemma LoadForPush<T(!new)>(s: Ring<T>, u: Usage, a: nat, x: T) returns (s': Ring<T>)
    requires Reachable(s, u) && a < |s.actors| && s.actors[a].Idle? && a in u.pushers
    ensures s' == s.(actors := s.actors[a := PushTry(x, s.head, s.tail)]) && Reachable(s', u)
  {
    s' := Wait(s, u, StartPush(a, x), PushHead(x));
    s' := Wait(s', u, Step(a), PushTail(x, s.head));
    s' := Wait(s', u, Step(a), PushTry(x, s.head, s.tail));
    assert s'.actors == s.actors[a := PushTry(x, s.head, s.tail)];
  }

  /** The state once actor `a` has claimed the next ticket for `x`. */
  function Claimed<T>(s: Ring<T>, a: nat, x: T): Ring<T>
    requires a < |s.actors|
  {
    s.(actors := s.actors[a := PushWait(x, s.head)], head := s.head + 1,
       items := s.items + [x], pushers := s.pushers + [a], fates := s.fates + [Pending])
  }

  /** If there is room it claims the next ticket. */
  lemma Claim<T(!new)>(s: Ring<T>, u: Usage, a: nat, x: T) returns (s': Ring<T>)
    requires Reachable(s, u) && a < |s.actors| && s.actors[a].Idle? && a in u.pushers
    requires s.tail <= s.head < s.tail + Capacity(s) && s.head < TWO64
    ensures s' == Claimed(s, a, x) && Reachable(s', u)
  {
    s' := LoadForPush(s, u, a, x);
    s' := Go(s', u, Step(a), ClaimPush(x));
    assert s'.actors == s.actors[a := PushWait(x, s.head)];
  }

  /** It finds its slot empty. */
  lemma SeeEmpty<T(!new)>(s: Ring<T>, u: Usage, a: nat) returns (s': Ring<T>)
    requires Reachable(s, u) && a < |s.actors| && s.actors[a].PushWait?
    requires s.slots[Slot(s.actors[a].k, s.bits)].Empty?
    ensures var p := s.actors[a]; s' == s.(actors := s.actors[a := PushStore(p.x, p.k)]) && Reachable(s', u)
  {
    var p := s.actors[a];
    s' := Wait(s, u, Step(a), PushStore(p.x, p.k));
  }

  /** The state once it has stored `x` under ticket `k`, whatever the slot held by then. */
  function StoredAt<T>(s: Ring<T>, a: nat, x: T, k: nat): Ring<T>
    requires a < |s.actors| && |s.slots| == Capacity(s) && k < |s.fates|
  {
    var i := Slot(k, s.bits);
    s.(actors := s.actors[a := Idle], slots := s.slots[i := Full(x, k)],
       fates := Dropped(s.fates, s.slots[i])[k := InSlot])
  }

  lemma StoreItem<T(!new)>(s: Ring<T>, u: Usage, a: nat) returns (s': Ring<T>)
    requires Reachable(s, u) && a < |s.actors| && s.actors[a].PushStore? && s.actors[a].k < |s.fates|
    ensures s' == StoredAt(s, a, s.actors[a].x, s.actors[a].k) && Reachable(s', u)
  {
    s' := Go(s, u, Step(a), Store(s.actors[a].x, s.actors[a].k));
  }

  /** A whole push into an empty slot. */
  lemma PushOne<T(!new)>(s: Ring<T>, u: Usage, a: nat, x: T) returns (s': Ring<T>)
    requires Reachable(s, u) && a < |s.actors| && s.actors[a].Idle? && a in u.pushers
    requires s.tail <= s.head < s.tail + Capacity(s) && s.head < TWO64
    requires |s.fates| == s.head && s.slots[Slot(s.head, s.bits)].Empty?
    ensures s'.actors == s.actors && s'.bits == s.bits && s'.head == s.head + 1 && s'.tail == s.tail
    ensures s'.slots == s.slots[Slot(s.head, s.bits) := Full(x, s.head)] && s'.fates == s.fates + [InSlot]
    ensures s'.got == s.got && Reachable(s', u)
  {
    s' := Claim(s, u, a, x);
    s' := SeeEmpty(s', u, a);
    s' := StoreItem(s', u, a);
    assert s'.fates == s.fates + [InSlot];
    assert s'.actors == s.actors;
  }

  // ---- What a consumer does ----

  /** A consumer that has claimed ticket `t` alone and waits for its item. */
  predicate Awaits<T>(pc: PC<T>, t: nat) { pc == PopWait(t) || pc == BatchTake(t, 1, []) }

  lemma LoadForPop<T(!new)>(s: Ring<T>, u: Usage, a: nat) returns (s': Ring<T>)
    requires Reachable(s, u) && a < |s.actors| && s.actors[a].Idle? && a in u.poppers
    ensures s' == s.(actors := s.actors[a := PopTry(s.head, s.tail)]) && Reachable(s', u)
  {
    s' := Wait(s, u, StartPop(a), PopHead);
    s' := Wait(s', u, Step(a), PopTail(s.head));
    s' := Wait(s', u, Step(a), PopTry(s.head, s.tail));
    assert s'.actors == s.actors[a := PopTry(s.head, s.tail)];
  }

  lemma LoadForBatch<T(!new)>(s: Ring<T>, u: Usage, a: nat) returns (s': Ring<T>)
    requires Reachable(s, u) && a < |s.actors| && s.actors[a].Idle? && a in u.batchers
    ensures s' == s.(actors := s.actors[a := BatchTry(1, s.head, s.tail)]) && Reachable(s', u)
  {
    s' := Wait(s, u, StartBatch(a, 1), BatchHead(1));
    s' := Wait(s', u, Step(a), BatchTail(1, s.head));
    s' := Wait(s', u, Step(a), BatchTry(1, s.head, s.tail));
    assert s'.actors == s.actors[a := BatchTry(1, s.head, s.tail)];
  }

  /** The state once actor `a` has claimed the oldest ticket. */
  function Taken1<T>(s: Ring<T>, a: nat, pc: PC<T>): Ring<T>
    requires a < |s.actors|
  {
    s.(actors := s.actors[a := pc], tail := s.tail + 1, poppers := s.poppers + [a])
  }

  lemma TakeTicket<T(!new)>(s: Ring<T>, u: Usage, a: nat, pc: PC<T>) returns (s': Ring<T>)
    requires Reachable(s, u) && a < |s.actors| && Decide(s, a) == ClaimPop(1, pc)
    ensures s' == Taken1(s, a, pc) && Reachable(s', u)
  {
    s' := Go(s, u, Step(a), ClaimPop(1, pc));
    assert seq(1, _ => a) == [a];
  }

  /** An idle consumer claims the oldest ticket, by `Pop` or by `BatchPop(1)`. */
  lemma ClaimOldest<T(!new)>(s: Ring<T>, u: Usage, a: nat) returns (s': Ring<T>)
    requires Reachable(s, u) && a < |s.actors| && s.actors[a].Idle? && a in u.poppers + u.batchers && s.tail < s.head
    ensures s' == Taken1(s, a, if a in u.poppers then PopWait(s.tail) else BatchTake(s.tail, 1, []))
    ensures Reachable(s', u)
  {
    if a in u.poppers {
      s' := PopOldest(s, u, a);
    } else {
      s' := BatchOldest(s, u, a);
    }
  }

  lemma PopOldest<T(!new)>(s: Ring<T>, u: Usage, a: nat) returns (s': Ring<T>)
    requires Reachable(s, u) && a < |s.actors| && s.actors[a].Idle? && a in u.poppers && s.tail < s.head
    ensures s' == Taken1(s, a, PopWait(s.tail)) && Reachable(s', u)
  {
    s' := LoadForPop(s, u, a);
    s' := TakeTicket(s', u, a, PopWait(s.tail));
    assert s'.actors == s.actors[a := PopWait(s.tail)];
  }

  lemma BatchOldest<T(!new)>(s: Ring<T>, u: Usage, a: nat) returns (s': Ring<T>)
    requires Reachable(s, u) && a < |s.actors| && s.actors[a].Idle? && a in u.batchers && s.tail < s.head
    ensures s' == Taken1(s, a, BatchTake(s.tail, 1, [])) && Reachable(s', u)
  {
    s' := LoadForBatch(s, u, a);
    s' := TakeTicket(s', u, a, BatchTake(s.tail, 1, []));
    assert s'.actors == s.actors[a := BatchTake(s.tail, 1, [])];
  }

  /** It loads the item of its slot, without clearing the slot. */
  lemma Load<T(!new)>(s: Ring<T>, u: Usage, a: nat) returns (s': Ring<T>)
    requires Reachable(s, u) && a < |s.actors| && s.actors[a].PopWait?
    requires s.slots[Slot(s.actors[a].u, s.bits)].Full?
    ensures var c := s.slots[Slot(s.actors[a].u, s.bits)];
      s' == s.(actors := s.actors[a := PopClear(s.actors[a].u, c.item, c.from)]) && Reachable(s', u)
  {
    var c := s.slots[Slot(s.actors[a].u, s.bits)];
    s' := Wait(s, u, Step(a), PopClear(s.actors[a].u, c.item, c.from));
  }

  /** The state once ticket `t` has returned the item of ticket `f` and its slot is empty. */
  function Returned<T>(s: Ring<T>, a: nat, t: nat, x: T, f: nat): Ring<T>
    requires a < |s.actors| && |s.slots| == Capacity(s) && f < |s.fates|
  {
    var i := Slot(t, s.bits);
    s.(actors := s.actors[a := Idle], slots := s.slots[i := Empty],
       fates := Dropped(s.fates, s.slots[i])[f := Taken(t)], got := s.got[t := Full(x, f)])
  }

  /** It clears the slot, whatever the slot holds by then, and returns what it loaded. */
  lemma ClearSlot<T(!new)>(s: Ring<T>, u: Usage, a: nat) returns (s': Ring<T>)
    requires Reachable(s, u) && a < |s.actors| && s.actors[a].PopClear? && s.actors[a].f < |s.fates|
    ensures var p := s.actors[a]; s' == Returned(s, a, p.u, p.x, p.f) && Reachable(s', u)
  {
    var p := s.actors[a];
    s' := Go(s, u, Step(a), Deliver(p.u, p.x, p.f, Idle));
  }

  /** It takes the item of its slot by an atomic swap, and returns. */
  lemma SwapOut<T(!new)>(s: Ring<T>, u: Usage, a: nat) returns (s': Ring<T>)
    requires Reachable(s, u) && a < |s.actors| && s.actors[a].BatchTake?
    requires s.actors[a].count == 1 && s.actors[a].items == []
    requires var c := s.slots[Slot(s.actors[a].first, s.bits)]; c.Full? && c.from < |s.fates|
    ensures var t := s.actors[a].first;
      var c := s.slots[Slot(t, s.bits)];
      s' == Returned(s, a, t, c.item, c.from) && Reachable(s', u)
  {
    var t := s.actors[a].first;
    var c := s.slots[Slot(t, s.bits)];
    var pc := BatchTake(t, 1, [c.item]);
    assert [] + [c.item] == [c.item];
    s' := Go(s, u, Step(a), Deliver(t, c.item, c.from, pc));
    assert s'.actors[a] == pc;
    s' := Wait(s', u, Step(a), Idle);
    assert s'.actors == s.actors[a := Idle];
  }

  /** Either way, with the slot filled, a waiting consumer returns its item. */
  lemma TakeItem<T(!new)>(s: Ring<T>, u: Usage, a: nat, t: nat) returns (s': Ring<T>)
    requires Reachable(s, u) && a < |s.actors| && Awaits(s.actors[a], t)
    requires var c := s.slots[Slot(t, s.bits)]; c.Full? && c.from < |s.fates|
    ensures var c := s.slots[Slot(t, s.bits)];
      s' == Returned(s, a, t, c.item, c.from) && Reachable(s', u)
  {
    if s.actors[a].PopWait? {
      s' := Load(s, u, a);
      s' := ClearSlot(s', u, a);
      assert s'.actors == s.actors[a := Idle];
    } else {
      s' := SwapOut(s, u, a);
    }
  }

  /** A whole pop. */
  lemma PopOne<T(!new)>(s: Ring<T>, u: Usage, a: nat) returns (s': Ring<T>)
    requires Reachable(s, u) && a < |s.actors| && s.actors[a].Idle? && a in u.poppers + u.batchers && s.tail < s.head
    requires var c := s.slots[Slot(s.tail, s.bits)]; c.Full? && c.from < |s.fates|
    ensures var c := s.slots[Slot(s.tail, s.bits)];
      && s'.slots == s.slots[Slot(s.tail, s.bits) := Empty] && s'.got == s.got[s.tail := c]
      && s'.fates == Dropped(s.fates, c)[c.from := Taken(s.tail)]
    ensures s'.actors == s.actors && s'.bits == s.bits && s'.head == s.head && s'.tail == s.tail + 1
    ensures Reachable(s', u)
  {
    s' := ClaimOldest(s, u, a);
    s' := TakeItem(s', u, a, s.tail);
    assert s'.actors == s.actors;
  }

  lemma Start<T(!new)>(bits: nat, actors: nat, u: Usage) returns (s: Ring<T>)
    ensures s == Init(bits, actors) && Reachable(s, u)
  {
    s := Init(bits, actors);
    var none: seq<Event<T>> := [];
    assert AllUse(none, u) && Run(bits, actors, none) == s;
  }

  /** Tickets below the capacity have the slot of their own number; the ticket one capacity on has slot 0. */
  lemma FirstTurn(t: nat, bits: nat)
    ensures t < Pow2(bits) ==> Slot(t, bits) == t
    ensures Slot(Pow2(bits), bits) == 0
  {
    var c := Pow2(bits);
    MaskIsMod(t, bits);
    MaskIsMod(c, bits);
    if t < c {
      ModIs(t, c, 0, t);
    }
    ModIs(c, c, 1, 0);
  }

  // ---- Two consumers and a producer ----

  /** Consumer `c` has claimed ticket 0 and holds it at `pc`, with the item of ticket 0 still in slot 0; the `t - 1`
      tickets after it have come and gone, and nothing else is going on between `p` and `d`. */
  ghost predicate Parked<T>(s: Ring<T>, p: nat, c: nat, d: nat, t: nat, x: T, pc: PC<T>) {
    && |s.slots| == Capacity(s) && s.head == s.tail == |s.fates| == t && 1 <= t <= Capacity(s) && s.fates[0] == InSlot
    && s.slots[0] == Full(x, 0) && (forall i :: 0 < i < |s.slots| ==> s.slots[i].Empty?)
    && p < |s.actors| && c < |s.actors| && d < |s.actors| && p != c && c != d && p != d
    && s.actors[p].Idle? && s.actors[d].Idle? && s.actors[c] == pc
  }

  /** The actors have the parts: `p` pushes, `c` and `d` take items either way. */
  predicate Trio(u: Usage, actors: nat, p: nat, c: nat, d: nat) {
    && p < actors && c < actors && d < actors && p != c && c != d && p != d
    && p in u.pushers && c in u.poppers + u.batchers && d in u.poppers + u.batchers
  }

  /** How `c` waits for its item. */
  function Waiting<T>(u: Usage, c: nat): PC<T> { if c in u.poppers then PopWait(0) else BatchTake(0, 1, []) }

  lemma Park<T(!new)>(bits: nat, actors: nat, u: Usage, p: nat, c: nat, d: nat, x: T) returns (s: Ring<T>)
    requires Trio(u, actors, p, c, d)
    ensures Parked(s, p, c, d, 1, x, Waiting(u, c)) && Reachable(s, u) && s.bits == bits && |s.actors| == actors
  {
    s := Start(bits, actors, u);
    FirstTurn(0, bits);
    s := PushOne(s, u, p, x);
    s := ClaimOldest(s, u, c);
  }

  /** If it uses `Pop` it may have loaded the item, without clearing the slot yet. */
  lemma ParkLoaded<T(!new)>(bits: nat, actors: nat, u: Usage, p: nat, c: nat, d: nat, x: T) returns (s: Ring<T>)
    requires Trio(u, actors, p, c, d) && c in u.poppers
    ensures Parked(s, p, c, d, 1, x, PopClear(0, x, 0)) && Reachable(s, u) && s.bits == bits && |s.actors| == actors
  {
    s := Park(bits, actors, u, p, c, d, x);
    FirstTurn(0, bits);
    s := Load(s, u, c);
  }

  /** A push and a pop in between. */
  lemma Cycle<T(!new)>(s: Ring<T>, u: Usage, p: nat, c: nat, d: nat, t: nat, x: T, pc: PC<T>) returns (s': Ring<T>)
    requires Trio(u, |s.actors|, p, c, d) && Reachable(s, u) && Parked(s, p, c, d, t, x, pc)
    requires t < Capacity(s) < TWO64
    ensures Reachable(s', u) && Parked(s', p, c, d, t + 1, x, pc) && s'.bits == s.bits && |s'.actors| == |s.actors|
  {
    FirstTurn(t, s.bits);
    s' := PushOne(s, u, p, x);
    assert s'.fates[t] == InSlot;
    s' := PopOne(s', u, d);
  }

  lemma {:induction false} Cycles<T(!new)>(s: Ring<T>, u: Usage, p: nat, c: nat, d: nat, t: nat, x: T, pc: PC<T>)
    returns (s': Ring<T>)
    requires Trio(u, |s.actors|, p, c, d) && Reachable(s, u) && Parked(s, p, c, d, t, x, pc) && Capacity(s) < TWO64
    ensures Reachable(s', u) && Parked(s', p, c, d, Capacity(s), x, pc)
    ensures s'.bits == s.bits && |s'.actors| == |s.actors|
    decreases Capacity(s) - t
  {
    if t == Capacity(s) {
      s' := s;
    } else {
      s' := Cycle(s, u, p, c, d, t, x, pc);
      s' := Cycles(s', u, p, c, d, t + 1, x, pc);
    }
  }

  /** One capacity on, `p` has claimed the ticket of slot 0 again and waits; `d` has claimed it too and returned the
      item of ticket 0, while `c` still holds that ticket. */
  ghost predicate Overtaken<T>(s: Ring<T>, p: nat, c: nat, x: T, pc: PC<T>) {
    var n := Capacity(s);
    && |s.slots| == n && s.head == |s.fates| == n + 1 && s.slots[0].Empty? && s.fates[n] == Pending
    && p < |s.actors| && c < |s.actors| && p != c
    && s.actors[p] == PushWait(x, n) && s.actors[c] == pc && n in s.got && s.got[n] == Full(x, 0)
  }

  lemma Overtake<T(!new)>(s: Ring<T>, u: Usage, p: nat, c: nat, d: nat, x: T, pc: PC<T>) returns (s': Ring<T>)
    requires Trio(u, |s.actors|, p, c, d) && Reachable(s, u) && Parked(s, p, c, d, 1, x, pc) && Capacity(s) < TWO64
    ensures Reachable(s', u) && Overtaken(s', p, c, x, pc) && s'.bits == s.bits && |s'.actors| == |s.actors|
  {
    s' := Cycles(s, u, p, c, d, 1, x, pc);
    s' := TakeAgain(s', u, p, c, d, x, pc);
  }

  lemma TakeAgain<T(!new)>(s: Ring<T>, u: Usage, p: nat, c: nat, d: nat, x: T, pc: PC<T>) returns (s': Ring<T>)
    requires Trio(u, |s.actors|, p, c, d) && Reachable(s, u) && Parked(s, p, c, d, Capacity(s), x, pc)
    requires Capacity(s) < TWO64
    ensures Reachable(s', u) && Overtaken(s', p, c, x, pc) && s'.bits == s.bits && |s'.actors| == |s.actors|
  {
    var n := Capacity(s);
    FirstTurn(0, s.bits);
    var s1 := Claim(s, u, p, x);
    assert s1.slots[Slot(s1.tail, s1.bits)] == Full(x, 0) && s1.actors[d].Idle? && s1.fates[n] == Pending;
    s' := PopOne(s1, u, d);
    StaysPending(s1.fates, Full(x, 0), n);
    assert s'.fates[n] == Pending;
  }

  lemma StaysPending<T>(fates: seq<Fate>, c: Cell<T>, n: nat)
    requires c.Full? && c.from == 0 < n < |fates| && fates[n] == Pending
    ensures Dropped(fates, c)[c.from := Taken(n)][n] == Pending
  {
  }

  ghost predicate Duplicates<T>(s: Ring<T>) {
    exists v, w ::
      v in s.got && w in s.got && v != w && s.got[v].Full? && s.got[w].Full? && s.got[v].from == s.got[w].from
  }

  ghost predicate Loses<T>(s: Ring<T>) {
    exists t :: 0 <= t < |s.fates| && s.fates[t] == Lost
  }

  /** Some consumer ticket has returned the item of another producer ticket. */
  ghost predicate Reorders<T>(s: Ring<T>) {
    exists v :: v in s.got && s.got[v].Full? && s.got[v].from != v
  }

  /** A producer and two consumers: one waits for its item, and the next consumer of the slot returns it. */
  lemma OvertakingReorders<T(!new)>(bits: nat, actors: nat, u: Usage, p: nat, c: nat, d: nat, x: T)
    returns (s: Ring<T>)
    requires Trio(u, actors, p, c, d) && Pow2(bits) < TWO64
    ensures Reachable(s, u) && Reorders(s) && s.bits == bits && |s.actors| == actors && s.head == Pow2(bits) + 1
  {
    s := Park(bits, actors, u, p, c, d, x);
    s := Overtake(s, u, p, c, d, x, Waiting(u, c));
    assert Pow2(bits) in s.got && s.got[Pow2(bits)].from == 0;
  }

  /** The same three, if one of the consumers uses `Pop`: an item is returned twice. */
  lemma PopDuplicates<T(!new)>(bits: nat, actors: nat, u: Usage, p: nat, c: nat, d: nat, x: T) returns (s: Ring<T>)
    requires Trio(u, actors, p, c, d) && c in u.poppers && Pow2(bits) < TWO64
    ensures Reachable(s, u) && Duplicates(s) && s.bits == bits && |s.actors| == actors && s.head == Pow2(bits) + 1
  {
    s := ParkLoaded(bits, actors, u, p, c, d, x);
    s := Overtake(s, u, p, c, d, x, PopClear(0, x, 0));
    s := ClearSlot(s, u, c);
    var n := Pow2(bits);
    assert 0 in s.got && n in s.got && s.got[0] == s.got[n] == Full(x, 0);
  }

  /** And `p` stores into the emptied slot, and the late clearing store of `c` loses that item. */
  lemma PopLosesAnItem<T(!new)>(bits: nat, actors: nat, u: Usage, p: nat, c: nat, d: nat, x: T) returns (s: Ring<T>)
    requires Trio(u, actors, p, c, d) && c in u.poppers && Pow2(bits) < TWO64
    ensures Reachable(s, u) && Loses(s) && s.bits == bits && |s.actors| == actors && s.head == Pow2(bits) + 1
  {
    var n := Pow2(bits);
    s := ParkLoaded(bits, actors, u, p, c, d, x);
    s := Overtake(s, u, p, c, d, x, PopClear(0, x, 0));
    FirstTurn(0, bits);
    s := SeeEmpty(s, u, p);
    s := StoreItem(s, u, p);
    assert s.slots[0] == Full(x, n) && |s.fates| == n + 1;
    s := ClearSlot(s, u, c);
    assert s.fates[n] == Lost;
  }

  // ---- Two producers and a consumer ----

  /** The actors have the parts: `p` and `q` push, `d` takes items either way. */
  predicate Pair(u: Usage, actors: nat, p: nat, q: nat, d: nat) {
    && p < actors && q < actors && d < actors && p != q && p != d && q != d
    && p in u.pushers && q in u.pushers && d in u.poppers + u.batchers
  }

  /** Producer `p` holds ticket 0 and has found its slot empty; consumer `d` has claimed ticket 0; the tickets up
      to `t` have filled the slots after it. */
  ghost predicate Stalled<T>(s: Ring<T>, p: nat, q: nat, d: nat, t: nat, x: T) {
    && |s.slots| == Capacity(s) && s.head == |s.fates| == t && s.tail == 1 && 1 <= t <= Capacity(s)
    && s.slots[0].Empty? && (forall i :: t <= i < |s.slots| ==> s.slots[i].Empty?)
    && p < |s.actors| && q < |s.actors| && d < |s.actors| && p != q && q != d && p != d
    && s.actors[p] == PushStore(x, 0) && s.actors[q].Idle? && Awaits(s.actors[d], 0)
  }

  lemma Stall<T(!new)>(bits: nat, actors: nat, u: Usage, p: nat, q: nat, d: nat, x: T) returns (s: Ring<T>)
    requires Pair(u, actors, p, q, d)
    ensures Stalled(s, p, q, d, 1, x) && Reachable(s, u) && s.bits == bits && |s.actors| == actors
  {
    s := Start(bits, actors, u);
    FirstTurn(0, bits);
    s := Claim(s, u, p, x);
    s := SeeEmpty(s, u, p);
    s := ClaimOldest(s, u, d);
  }

  lemma {:induction false} FillUp<T(!new)>(s: Ring<T>, u: Usage, p: nat, q: nat, d: nat, t: nat, x: T)
    returns (s': Ring<T>)
    requires Pair(u, |s.actors|, p, q, d) && Reachable(s, u) && Stalled(s, p, q, d, t, x) && Capacity(s) < TWO64
    ensures Reachable(s', u) && Stalled(s', p, q, d, Capacity(s), x)
    ensures s'.bits == s.bits && |s'.actors| == |s.actors|
    decreases Capacity(s) - t
  {
    if t == Capacity(s) {
      s' := s;
    } else {
      FirstTurn(t, s.bits);
      s' := PushOne(s, u, q, x);
      s' := FillUp(s', u, p, q, d, t + 1, x);
    }
  }

  /** One capacity on, `q` has claimed the ticket of slot 0 again and found the slot empty as well. */
  ghost predicate Lapped<T>(s: Ring<T>, p: nat, q: nat, d: nat, x: T) {
    var n := Capacity(s);
    && |s.slots| == n && s.head == |s.fates| == n + 1 && s.slots[0].Empty?
    && p < |s.actors| && q < |s.actors| && d < |s.actors| && p != q && q != d && p != d
    && s.actors[p] == PushStore(x, 0) && s.actors[q] == PushStore(x, n) && Awaits(s.actors[d], 0)
  }

  lemma Lap<T(!new)>(bits: nat, actors: nat, u: Usage, p: nat, q: nat, d: nat, x: T) returns (s: Ring<T>)
    requires Pair(u, actors, p, q, d) && Pow2(bits) < TWO64
    ensures Reachable(s, u) && Lapped(s, p, q, d, x) && s.bits == bits && |s.actors| == actors
  {
    s := Stall(bits, actors, u, p, q, d, x);
    s := FillUp(s, u, p, q, d, 1, x);
    FirstTurn(0, bits);
    s := Claim(s, u, q, x);
    s := SeeEmpty(s, u, q);
  }

  /** Two producers and a consumer: one producer is lapped, and an item is overwritten before it is read. */
  lemma LappedPushLosesAnItem<T(!new)>(bits: nat, actors: nat, u: Usage, p: nat, q: nat, d: nat, x: T)
    returns (s: Ring<T>)
    requires Pair(u, actors, p, q, d) && Pow2(bits) < TWO64
    ensures Reachable(s, u) && Loses(s) && s.bits == bits && |s.actors| == actors && s.head == Pow2(bits) + 1
  {
    var n := Pow2(bits);
    s := Lap(bits, actors, u, p, q, d, x);
    FirstTurn(0, bits);
    s := StoreItem(s, u, p);
    assert s.slots[0] == Full(x, 0) && |s.fates| == n + 1 && s.actors[q] == PushStore(x, n);
    s := Overwrite(s, u, q, n, x);
  }

  /** The same three: the consumer of ticket 0 returns the item of the ticket one capacity on. */
  lemma LappedPushReorders<T(!new)>(bits: nat, actors: nat, u: Usage, p: nat, q: nat, d: nat, x: T)
    returns (s: Ring<T>)
    requires Pair(u, actors, p, q, d) && Pow2(bits) < TWO64
    ensures Reachable(s, u) && Reorders(s) && s.bits == bits && |s.actors| == actors && s.head == Pow2(bits) + 1
  {
    var n := Pow2(bits);
    s := Lap(bits, actors, u, p, q, d, x);
    FirstTurn(0, bits);
    s := StoreItem(s, u, q);
    assert s.slots[0] == Full(x, n) && |s.fates| == n + 1 && Awaits(s.actors[d], 0);
    s := TakeItem(s, u, d, 0);
    assert 0 in s.got && s.got[0].from == n;
  }

  /** A store into a slot that still holds the item of ticket 0. */
  lemma Overwrite<T(!new)>(s: Ring<T>, u: Usage, q: nat, n: nat, x: T) returns (s': Ring<T>)
    requires Reachable(s, u) && q < |s.actors| && s.actors[q] == PushStore(x, n) && 0 < n < |s.fates|
    requires Slot(n, s.bits) == 0 && s.slots[0] == Full(x, 0)
    ensures Reachable(s', u) && Loses(s') && s'.bits == s.bits && |s'.actors| == |s.actors| && s'.head == s.head
  {
    s' := StoreItem(s, u, q);
    assert s'.fates[0] == Lost;
  }
}
