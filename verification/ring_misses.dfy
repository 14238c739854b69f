/** Calls of `Pop` and `BatchPop` that return nothing although the ring held an item all through the call: a run in
    which one does, and why none does with a single consumer or a single slot. */
module RingMisses {
  import opened Bits
  import opened RingBuffers
  import opened RingSteps
  import opened RingFifo
  import opened RingConsumer
  import opened RingFailures

  /** Some event of that usage leads from `s` to `s'`. */
  ghost predicate StepsTo<T(!new)>(s: Ring<T>, s': Ring<T>, u: Usage) {
    |s.slots| == Capacity(s) && exists e: Event<T> :: Uses(e, u) && Next(s, e) == s'
  }

  /** Successive states of a run, in each of which the ring holds an item. */
  ghost predicate Held<T(!new)>(path: seq<Ring<T>>, u: Usage) {
    && path != [] && Reachable(path[0], u)
    && (forall i :: 0 <= i < |path| ==> path[i].tail < path[i].head < TWO64)
    && (forall i :: 0 < i < |path| ==> StepsTo(path[i - 1], path[i], u))
  }

  /** The actor is about to claim what its two loads show. */
  predicate Claiming<T>(pc: PC<T>) { pc.PopTry? || pc.BatchTry? }

  /** Between the first state, where `c` has not begun, and the last, a call of `c` returns nothing: the last step takes
      it from its attempt to claim back to idle. */
  ghost predicate Misses<T(!new)>(path: seq<Ring<T>>, u: Usage, c: nat) {
    && Held(path, u) && |path| > 1
    && c < |path[0].actors| && path[0].actors[c].Idle?
    && c < |path[|path| - 2].actors| && Claiming(path[|path| - 2].actors[c])
    && c < |path[|path| - 1].actors| && path[|path| - 1].actors[c].Idle?
  }

  // ---- A run that misses ----

  /** `path'` goes on from `path` to the state `s`. */
  ghost predicate GoesOn<T(!new)>(path: seq<Ring<T>>, path': seq<Ring<T>>, s: Ring<T>, u: Usage) {
    Held(path', u) && path != [] && path'[0] == path[0] && path'[|path'| - 1] == s
  }

  lemma GoOn<T(!new)>(path: seq<Ring<T>>, u: Usage, s: Ring<T>, e: Event<T>, eff: Effect<T>)
    returns (path': seq<Ring<T>>, s': Ring<T>)
    requires Held(path, u) && path[|path| - 1] == s && |s.slots| == Capacity(s)
    requires Uses(e, u) && e.a < |s.actors| && EffectOf(s, e) == eff
    requires Apply(s, e.a, eff).tail < Apply(s, e.a, eff).head < TWO64
    ensures s' == Apply(s, e.a, eff) && path' == path + [s'] && GoesOn(path, path', s', u)
  {
    s' := Next(s, e);
    path' := path + [s'];
    HeldLonger(path, u, s, e);
  }

  lemma HeldLonger<T(!new)>(path: seq<Ring<T>>, u: Usage, s: Ring<T>, e: Event<T>)
    requires Held(path, u) && path[|path| - 1] == s && |s.slots| == Capacity(s) && Uses(e, u)
    requires Next(s, e).tail < Next(s, e).head < TWO64
    ensures Held(path + [Next(s, e)], u)
  {
    var path' := path + [Next(s, e)];
    assert StepsTo(s, Next(s, e), u);
    forall i | 0 < i < |path'|
      ensures StepsTo(path'[i - 1], path'[i], u)
    {
      assert path'[i - 1] == path[i - 1];
    }
  }

  lemma WaitOn<T(!new)>(path: seq<Ring<T>>, u: Usage, s: Ring<T>, e: Event<T>, pc: PC<T>)
    returns (path': seq<Ring<T>>, s': Ring<T>)
    requires Held(path, u) && path[|path| - 1] == s && |s.slots| == Capacity(s)
    requires Uses(e, u) && e.a < |s.actors| && EffectOf(s, e) == Quiet(pc)
    ensures s' == s.(actors := s.actors[e.a := pc]) && path' == path + [s'] && GoesOn(path, path', s', u)
  {
    path', s' := GoOn(path, u, s, e, Quiet(pc));
  }

  /** While the ring holds an item, `p` claims the ticket of another. */
  lemma ClaimOn<T(!new)>(path: seq<Ring<T>>, u: Usage, s: Ring<T>, p: nat, x: T)
    returns (path': seq<Ring<T>>, s': Ring<T>)
    requires Held(path, u) && path[|path| - 1] == s && |s.slots| == Capacity(s)
    requires p < |s.actors| && s.actors[p].Idle? && p in u.pushers && s.tail < s.head < s.tail + Capacity(s)
    requires s.head + 1 < TWO64
    ensures s' == Claimed(s, p, x) && GoesOn(path, path', s', u)
  {
    path', s' := WaitOn(path, u, s, StartPush(p, x), PushHead(x));
    path', s' := WaitOn(path', u, s', Step(p), PushTail(x, s.head));
    path', s' := WaitOn(path', u, s', Step(p), PushTry(x, s.head, s.tail));
    assert s'.actors == s.actors[p := PushTry(x, s.head, s.tail)];
    path', s' := GoOn(path', u, s', Step(p), ClaimPush(x));
    assert s'.actors == s.actors[p := PushWait(x, s.head)];
  }

  /** And finishes its push into an empty slot. */
  lemma StoreOn<T(!new)>(path: seq<Ring<T>>, u: Usage, s: Ring<T>, p: nat)
    returns (path': seq<Ring<T>>, s': Ring<T>)
    requires Held(path, u) && path[|path| - 1] == s && |s.slots| == Capacity(s)
    requires p < |s.actors| && s.actors[p].PushWait? && s.actors[p].k < |s.fates|
    requires s.slots[Slot(s.actors[p].k, s.bits)].Empty?
    ensures s'.actors == s.actors[p := Idle] && s'.bits == s.bits && s'.head == s.head && s'.tail == s.tail
    ensures |s'.slots| == Capacity(s') && GoesOn(path, path', s', u)
  {
    var x, k := s.actors[p].x, s.actors[p].k;
    path', s' := WaitOn(path, u, s, Step(p), PushStore(x, k));
    path', s' := GoOn(path', u, s', Step(p), Store(x, k));
    assert s'.actors == s.actors[p := Idle];
  }

  /** A whole push into an empty slot, while the ring holds an item. */
  lemma PushOn<T(!new)>(path: seq<Ring<T>>, u: Usage, s: Ring<T>, p: nat, x: T)
    returns (path': seq<Ring<T>>, s': Ring<T>)
    requires Held(path, u) && path[|path| - 1] == s && |s.slots| == Capacity(s)
    requires p < |s.actors| && s.actors[p].Idle? && p in u.pushers && s.tail < s.head < s.tail + Capacity(s)
    requires s.head + 1 < TWO64 && |s.fates| == s.head && s.slots[Slot(s.head, s.bits)].Empty?
    ensures s'.actors == s.actors && s'.bits == s.bits && s'.head == s.head + 1 && s'.tail == s.tail
    ensures |s'.slots| == Capacity(s') && GoesOn(path, path', s', u)
  {
    path', s' := ClaimOn(path, u, s, p, x);
    path', s' := StoreOn(path', u, s', p);
    assert s'.actors == s.actors;
  }

  /** `s'` is `s` once actor `d` has claimed the oldest ticket. */
  ghost predicate TookOldest<T>(s: Ring<T>, s': Ring<T>, d: nat) {
    && s'.head == s.head && s'.tail == s.tail + 1 && |s'.slots| == Capacity(s') && |s'.actors| == |s.actors|
    && forall a :: 0 <= a < |s.actors| && a != d ==> s'.actors[a] == s.actors[a]
  }

  /** While the ring holds two items, `d` claims the older one, by `Pop` or by `BatchPop(1)`. */
  lemma TakeOn<T(!new)>(path: seq<Ring<T>>, u: Usage, s: Ring<T>, d: nat)
    returns (path': seq<Ring<T>>, s': Ring<T>)
    requires Held(path, u) && path[|path| - 1] == s && |s.slots| == Capacity(s)
    requires d < |s.actors| && s.actors[d].Idle? && d in u.poppers + u.batchers && s.tail + 1 < s.head
    ensures TookOldest(s, s', d) && GoesOn(path, path', s', u)
  {
    if d in u.poppers {
      path', s' := PopOn(path, u, s, d);
    } else {
      path', s' := BatchOn(path, u, s, d);
    }
  }

  lemma PopOn<T(!new)>(path: seq<Ring<T>>, u: Usage, s: Ring<T>, d: nat)
    returns (path': seq<Ring<T>>, s': Ring<T>)
    requires Held(path, u) && path[|path| - 1] == s && |s.slots| == Capacity(s)
    requires d < |s.actors| && s.actors[d].Idle? && d in u.poppers && s.tail + 1 < s.head
    ensures TookOldest(s, s', d) && GoesOn(path, path', s', u)
  {
    path', s' := WaitOn(path, u, s, StartPop(d), PopHead);
    path', s' := WaitOn(path', u, s', Step(d), PopTail(s.head));
    path', s' := WaitOn(path', u, s', Step(d), PopTry(s.head, s.tail));
    path', s' := GoOn(path', u, s', Step(d), ClaimPop(1, PopWait(s.tail)));
  }

  lemma BatchOn<T(!new)>(path: seq<Ring<T>>, u: Usage, s: Ring<T>, d: nat)
    returns (path': seq<Ring<T>>, s': Ring<T>)
    requires Held(path, u) && path[|path| - 1] == s && |s.slots| == Capacity(s)
    requires d < |s.actors| && s.actors[d].Idle? && d in u.batchers && s.tail + 1 < s.head
    ensures TookOldest(s, s', d) && GoesOn(path, path', s', u)
  {
    path', s' := BatchLoadsOn(path, u, s, d);
    path', s' := GoOn(path', u, s', Step(d), ClaimPop(1, BatchTake(s.tail, 1, [])));
  }

  lemma BatchLoadsOn<T(!new)>(path: seq<Ring<T>>, u: Usage, s: Ring<T>, d: nat)
    returns (path': seq<Ring<T>>, s': Ring<T>)
    requires Held(path, u) && path[|path| - 1] == s && |s.slots| == Capacity(s)
    requires d < |s.actors| && s.actors[d].Idle? && d in u.batchers
    ensures s' == s.(actors := s.actors[d := BatchTry(1, s.head, s.tail)]) && GoesOn(path, path', s', u)
  {
    path', s' := WaitOn(path, u, s, StartBatch(d, 1), BatchHead(1));
    path', s' := WaitOn(path', u, s', Step(d), BatchTail(1, s.head));
    path', s' := WaitOn(path', u, s', Step(d), BatchTry(1, s.head, s.tail));
    assert s'.actors == s.actors[d := BatchTry(1, s.head, s.tail)];
  }

  /** A ring with one item and nothing going on. */
  lemma OneItem<T(!new)>(bits: nat, actors: nat, u: Usage, p: nat, x: T) returns (s: Ring<T>)
    requires p < actors && p in u.pushers
    ensures Reachable(s, u) && s.bits == bits && |s.actors| == actors && s.head == |s.fates| == 1 && s.tail == 0
    ensures |s.slots| == Capacity(s) && forall i :: 1 <= i < |s.slots| ==> s.slots[i].Empty?
    ensures forall a :: 0 <= a < actors ==> s.actors[a].Idle?
  {
    s := Start(bits, actors, u);
    FirstTurn(0, bits);
    s := PushOne(s, u, p, x);
  }

  /** With two slots or more the next one is free. */
  lemma RoomForAnother<T>(s: Ring<T>)
    requires s.bits >= 1 && |s.slots| == Capacity(s) && forall i :: 1 <= i < |s.slots| ==> s.slots[i].Empty?
    ensures Capacity(s) > 1 && s.slots[Slot(1, s.bits)].Empty?
  {
    var half := Pow2(s.bits - 1);
    assert Capacity(s) == 2 * half;
    FirstTurn(1, s.bits);
  }

  /** `c` starts its call and loads `head`. */
  lemma LoadHeadOn<T(!new)>(path: seq<Ring<T>>, u: Usage, s: Ring<T>, c: nat)
    returns (path': seq<Ring<T>>, s': Ring<T>)
    requires Held(path, u) && path[|path| - 1] == s && |s.slots| == Capacity(s)
    requires c < |s.actors| && s.actors[c].Idle? && c in u.poppers + u.batchers
    ensures s' == s.(actors := s.actors[c := if c in u.poppers then PopTail(s.head) else BatchTail(1, s.head)])
    ensures GoesOn(path, path', s', u)
  {
    if c in u.poppers {
      path', s' := WaitOn(path, u, s, StartPop(c), PopHead);
      path', s' := WaitOn(path', u, s', Step(c), PopTail(s.head));
      assert s'.actors == s.actors[c := PopTail(s.head)];
    } else {
      path', s' := WaitOn(path, u, s, StartBatch(c, 1), BatchHead(1));
      path', s' := WaitOn(path', u, s', Step(c), BatchTail(1, s.head));
      assert s'.actors == s.actors[c := BatchTail(1, s.head)];
    }
  }

  /** `c` loads `tail`, which has caught up with the `head` it loaded, and returns nothing. */
  lemma GiveUpOn<T(!new)>(path: seq<Ring<T>>, u: Usage, s: Ring<T>, c: nat)
    returns (path': seq<Ring<T>>, s': Ring<T>)
    requires Held(path, u) && path[|path| - 1] == s && |s.slots| == Capacity(s) && c < |s.actors|
    requires (s.actors[c].PopTail? || s.actors[c].BatchTail?) && s.tail >= s.actors[c].h
    ensures GoesOn(path, path', s', u) && |path'| > 1 && c < |s'.actors| && s'.actors[c].Idle?
    ensures var t := path'[|path'| - 2]; c < |t.actors| && Claiming(t.actors[c])
  {
    var pc: PC<T> := if s.actors[c].PopTail? then PopTry(s.actors[c].h, s.tail)
                     else BatchTry(s.actors[c].max, s.actors[c].h, s.tail);
    path', s' := WaitOn(path, u, s, Step(c), pc);
    ghost var loaded := s';
    path', s' := WaitOn(path', u, loaded, Step(c), Idle);
    assert path'[|path'| - 2] == loaded;
  }

  /** On a ring of two slots or more, with two consumers and a producer, which may be the second consumer: `c` starts
      its call on a ring with one item and loads `head`; `p` pushes another, then `d` claims the first; when `c` loads
      `tail` it has caught up with the stale `head`, and the call returns nothing although the ring held an item all
      along. */
  lemma CallMisses<T(!new)>(bits: nat, actors: nat, u: Usage, p: nat, c: nat, d: nat, x: T)
    returns (path: seq<Ring<T>>)
    requires p < actors && c < actors && d < actors && p != c && c != d && 1 <= bits
    requires p in u.pushers && c in u.poppers + u.batchers && d in u.poppers + u.batchers
    ensures Misses(path, u, c) && path[0].bits == bits && |path[0].actors| == actors
  {
    var s := OneItem(bits, actors, u, p, x);
    RoomForAnother(s);
    path := [s];
    path, s := LoadHeadOn(path, u, s, c);
    path, s := PushOn(path, u, s, p, x);
    path, s := TakeOn(path, u, s, d);
    path, s := GiveUpOn(path, u, s, c);
  }

  // ---- Why no call misses ----

  /** The loads that `c` has made so far do not read as an empty ring, and cannot unless `tail` moves. */
  ghost predicate Hopeful<T>(s: Ring<T>, pc: PC<T>) {
    match pc
    case PopTail(h) => s.tail < h
    case PopTry(h, t) => t < h
    case BatchTail(_, h) => s.tail < h
    case BatchTry(_, h, t) => t < h
    case _ => true
  }

  lemma StaysHopeful<T>(s: Ring<T>, e: Event<T>, c: nat)
    requires |s.slots| == Capacity(s) && s.tail < s.head && c < |s.actors| && Hopeful(s, s.actors[c])
    requires e.a == c || Next(s, e).tail == s.tail
    ensures Hopeful(Next(s, e), Next(s, e).actors[c])
  {
  }

  /** Only `c` takes, or there is one slot: then nobody else moves `tail` while the ring holds an item. */
  lemma TailStays<T(!new)>(s: Ring<T>, e: Event<T>, u: Usage, c: nat)
    requires Reachable(s, u) && Uses(e, u) && s.head < TWO64 && e.a != c
    requires (forall a :: a in u.poppers + u.batchers ==> a == c) || s.bits == 0
    requires s.tail < s.head && Next(s, e).tail < Next(s, e).head
    ensures Next(s, e).tail == s.tail
  {
    var es: seq<Event<T>> :| AllUse(es, u) && Run(s.bits, |s.actors|, es) == s;
    CountersAlways(s.bits, |s.actors|, es);
    if e.a < |s.actors| {
      EffectIsOk(s, e);
      if EffectOf(s, e).ClaimPop? && s.bits != 0 {
        OnlyConsumer(es, u, c);
        ReturnsOnceAlways(s.bits, |s.actors|, es, c);
      }
    }
  }

  lemma OnlyConsumer<T(!new)>(es: seq<Event<T>>, u: Usage, c: nat)
    requires AllUse(es, u) && forall a :: a in u.poppers + u.batchers ==> a == c
    ensures SingleConsumer(es, c)
  {
    forall i | 0 <= i < |es|
      ensures TakesAt(es[i], c)
    {
      assert Uses(es[i], u);
      assert es[i].StartPop? || es[i].StartBatch? ==> es[i].a in u.poppers + u.batchers;
    }
  }

  lemma StepReaches<T(!new)>(s: Ring<T>, u: Usage, e: Event<T>)
    requires Reachable(s, u) && Uses(e, u)
    ensures Reachable(Next(s, e), u) && Next(s, e).bits == s.bits && |Next(s, e).actors| == |s.actors|
  {
    var es: seq<Event<T>> :| AllUse(es, u) && Run(s.bits, |s.actors|, es) == s;
    assert (es + [e])[..|es|] == es;
    assert Run(s.bits, |s.actors|, es + [e]) == Next(s, e);
  }

  lemma LastStep<T(!new)>(path: seq<Ring<T>>, u: Usage) returns (init: seq<Ring<T>>, e: Event<T>)
    requires Held(path, u) && |path| > 1
    ensures init == path[..|path| - 1] && Held(init, u)
    ensures var s := init[|init| - 1];
      |s.slots| == Capacity(s) && Uses(e, u) && Next(s, e) == path[|path| - 1]
  {
    HeldShorter(path, u);
    init := path[..|path| - 1];
    e :| Uses(e, u) && Next(path[|path| - 2], e) == path[|path| - 1];
  }

  lemma HeldShorter<T(!new)>(path: seq<Ring<T>>, u: Usage)
    requires Held(path, u) && |path| > 1
    ensures Held(path[..|path| - 1], u) && StepsTo(path[|path| - 2], path[|path| - 1], u)
  {
    var n := |path| - 1;
    var init := path[..n];
    assert StepsTo(path[n - 1], path[n], u);
    forall i | 0 < i < n
      ensures StepsTo(init[i - 1], init[i], u)
    {
      assert StepsTo(path[i - 1], path[i], u);
    }
  }

  lemma {:induction false} PathReaches<T(!new)>(path: seq<Ring<T>>, u: Usage)
    requires Held(path, u)
    ensures var s := path[|path| - 1];
      Reachable(s, u) && s.bits == path[0].bits && |s.actors| == |path[0].actors|
    decreases |path|
  {
    if |path| > 1 {
      var init, e := LastStep(path, u);
      PathReaches(init, u);
      StepReaches(init[|init| - 1], u, e);
    }
  }

  /** Along a path on which the ring holds an item, a call begun on it stays hopeful. */
  lemma {:induction false} StaysHopefulAlong<T(!new)>(path: seq<Ring<T>>, u: Usage, c: nat)
    requires Held(path, u) && c < |path[0].actors| && path[0].actors[c].Idle?
    requires (forall a :: a in u.poppers + u.batchers ==> a == c) || path[0].bits == 0
    ensures var s := path[|path| - 1]; |s.actors| == |path[0].actors| && Hopeful(s, s.actors[c])
    decreases |path|
  {
    PathReaches(path, u);
    if |path| > 1 {
      var init, e := LastStep(path, u);
      StaysHopefulAlong(init, u, c);
      PathReaches(init, u);
      if e.a != c {
        TailStays(init[|init| - 1], e, u, c);
      }
      StaysHopeful(init[|init| - 1], e, c);
    }
  }

  /** With at most one consumer, or a single slot, no call misses. */
  lemma NoCallMisses<T(!new)>(path: seq<Ring<T>>, u: Usage, c: nat, k: nat)
    requires (forall a :: a in u.poppers + u.batchers ==> a == k) || (path != [] && path[0].bits == 0)
    ensures !Misses(path, u, c)
  {
    if Held(path, u) && c < |path[0].actors| && path[0].actors[c].Idle? {
      if |path| > 1 {
        if c == k || path[0].bits == 0 {
          HopefulDoesNotGiveUp(path, u, c);
        } else {
          var init, e := LastStep(path, u);
          OthersTakeNothing(init, u, c, k);
        }
      }
    }
  }

  lemma HopefulDoesNotGiveUp<T(!new)>(path: seq<Ring<T>>, u: Usage, c: nat)
    requires Held(path, u) && |path| > 1 && c < |path[0].actors| && path[0].actors[c].Idle?
    requires (forall a :: a in u.poppers + u.batchers ==> a == c) || path[0].bits == 0
    ensures !Misses(path, u, c)
  {
    var init, e := LastStep(path, u);
    StaysHopefulAlong(init, u, c);
    if Claiming(init[|init| - 1].actors[c]) {
      ClaimsOrRetries(init[|init| - 1], e, c);
    }
  }

  /** An attempt on loads that show an item does not return nothing. */
  lemma ClaimsOrRetries<T>(s: Ring<T>, e: Event<T>, c: nat)
    requires |s.slots| == Capacity(s) && c < |s.actors| && Claiming(s.actors[c]) && Hopeful(s, s.actors[c])
    ensures !Next(s, e).actors[c].Idle?
  {
  }

  lemma OthersTakeNothing<T(!new)>(path: seq<Ring<T>>, u: Usage, c: nat, k: nat)
    requires Held(path, u) && c != k && forall a :: a in u.poppers + u.batchers ==> a == k
    ensures var s := path[|path| - 1]; c < |s.actors| ==> !Taking(s.actors[c])
  {
    var s := path[|path| - 1];
    PathReaches(path, u);
    var es: seq<Event<T>> :| AllUse(es, u) && Run(s.bits, |s.actors|, es) == s;
    OnlyConsumer(es, u, k);
    ReturnsOnceAlways(s.bits, |s.actors|, es, k);
  }

  /** Nor without a producer, since the ring then never holds an item. */
  lemma NothingHeld<T(!new)>(path: seq<Ring<T>>, u: Usage)
    requires u.pushers == {}
    ensures !Held(path, u)
  {
    if path != [] && Reachable(path[0], u) {
      var s := path[0];
      var es: seq<Event<T>> :| AllUse(es, u) && Run(s.bits, |s.actors|, es) == s;
      assert forall i :: 0 <= i < |es| ==> Uses(es[i], u);
      NothingPushed(s.bits, |s.actors|, es);
    }
  }
}
