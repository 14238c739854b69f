/** Pushes that return false: when one does, why a lone producer's does so only on a full ring, and a run in which one
    does although the ring is empty. */
module RingRefusals {
  import opened Bits
  import opened RingBuffers
  import opened RingSteps
  import opened RingFifo
  import opened RingSwap
  import opened RingFailures

  /** Step `i` of the run loads `tail` for a push of actor `a`, and the next step of `a`, its attempt to claim, is the
      last of the run. */
  ghost predicate Attempt<T>(bits: nat, actors: nat, es: seq<Event<T>>, i: nat, a: nat) {
    && a < actors && i + 1 < |es| && es[i] == Step(a) && es[|es| - 1] == Step(a)
    && Run(bits, actors, es[..i]).actors[a].PushTail?
    && forall k :: i < k < |es| - 1 ==> !(es[k].Step? && es[k].a == a)
  }

  /** The push returns false: the attempt leaves the actor idle. */
  ghost predicate ReturnsFalse<T>(bits: nat, actors: nat, es: seq<Event<T>>, i: nat, a: nat) {
    Attempt(bits, actors, es, i, a) && Run(bits, actors, es).actors[a].Idle?
  }

  /** A push returns false although the ring was not full when it loaded `tail`. */
  ghost predicate RefusesWithRoom<T>(bits: nat, actors: nat, es: seq<Event<T>>) {
    exists i: nat, a: nat :: ReturnsFalse(bits, actors, es, i, a) && HasRoom(Run(bits, actors, es[..i]))
  }

  predicate HasRoom<T>(s: Ring<T>) { s.head < s.tail + Capacity(s) }

  // ---- When a push returns false ----

  lemma {:induction false} HeadGrows<T>(bits: nat, actors: nat, es: seq<Event<T>>, k: nat)
    requires k <= |es|
    ensures Run(bits, actors, es[..k]).head <= Run(bits, actors, es).head
    decreases |es|
  {
    if k < |es| {
      HeadGrows(bits, actors, es[..|es| - 1], k);
      assert es[..|es| - 1][..k] == es[..k];
      CountersGrow(Run(bits, actors, es[..|es| - 1]), es[|es| - 1]);
    } else {
      assert es[..k] == es;
    }
  }

  /** An actor that takes no step keeps what it has loaded. */
  lemma {:induction false} KeepsItsLoads<T>(bits: nat, actors: nat, es: seq<Event<T>>, i: nat, k: nat, a: nat)
    requires i <= k <= |es| && a < actors && !Run(bits, actors, es[..i]).actors[a].Idle?
    requires forall j :: i <= j < k ==> !(es[j].Step? && es[j].a == a)
    ensures Run(bits, actors, es[..k]).actors[a] == Run(bits, actors, es[..i]).actors[a]
    decreases k
  {
    if i < k {
      KeepsItsLoads(bits, actors, es, i, k - 1, a);
      assert es[..k][..k - 1] == es[..k - 1] && es[..k][k - 1] == es[k - 1];
    }
  }

  /** What the actor has loaded when it makes its attempt. */
  lemma LoadedPair<T>(bits: nat, actors: nat, es: seq<Event<T>>, i: nat, a: nat)
    requires Attempt(bits, actors, es, i, a)
    ensures var s := Run(bits, actors, es[..i]);
      Run(bits, actors, es[..|es| - 1]).actors[a] == PushTry(s.actors[a].x, s.actors[a].h, s.tail)
  {
    assert es[..i + 1][..i] == es[..i] && es[..i + 1][i] == es[i];
    KeepsItsLoads(bits, actors, es, i + 1, |es| - 1, a);
  }

  /** A push returns false exactly when, as it loaded `tail`, the ring was full, or `tail` had already passed the `head`
      loaded before (by no more than what keeps the unsigned difference above the capacity). Otherwise it has the
      ticket it loaded if nobody has claimed since, and starts over if somebody has. */
  lemma RefusalMeaning<T>(bits: nat, actors: nat, es: seq<Event<T>>, i: nat, a: nat)
    requires Attempt(bits, actors, es, i, a) && Bounded(Run(bits, actors, es))
    ensures var s := Run(bits, actors, es[..i]);
      ReturnsFalse(bits, actors, es, i, a) <==>
        || s.actors[a].h == s.head == s.tail + Capacity(s)
        || (s.tail > s.actors[a].h && s.tail - s.actors[a].h + Capacity(s) <= TWO64)
    ensures !ReturnsFalse(bits, actors, es, i, a) ==>
      var x, h := Run(bits, actors, es[..i]).actors[a].x, Run(bits, actors, es[..i]).actors[a].h;
      Run(bits, actors, es).actors[a]
        == if Run(bits, actors, es[..|es| - 1]).head == h then PushWait(x, h) else PushHead(x)
  {
    var s := Run(bits, actors, es[..i]);
    HeadGrows(bits, actors, es, i);
    CountersAlways(bits, actors, es[..i]);
    assert ActorOk(s, a, s.actors[a]);
    LoadedPair(bits, actors, es, i, a);
  }

  // ---- A lone producer ----

  /** A lone producer's load of `head` cannot go stale. */
  ghost predicate FreshHead<T>(s: Ring<T>, p: nat) {
    && (forall a :: 0 <= a < |s.actors| && Pushing(s.actors[a]) ==> a == p)
    && (p < |s.actors| && s.actors[p].PushTail? ==> s.actors[p].h == s.head)
  }

  lemma NextKeepsFreshHead<T>(s: Ring<T>, e: Event<T>, p: nat)
    requires |s.slots| == Capacity(s) && FreshHead(s, p) && (e.StartPush? ==> e.a == p)
    ensures FreshHead(Next(s, e), p)
  {
    if e.a < |s.actors| {
      WhoPushes(s, e);
      HeadIsLoaded(s, e);
    }
  }

  lemma HeadIsLoaded<T>(s: Ring<T>, e: Event<T>)
    requires |s.slots| == Capacity(s) && e.a < |s.actors|
    ensures EffectOf(s, e).Quiet? && EffectOf(s, e).pc.PushTail? ==>
      EffectOf(s, e).pc.h == s.head || EffectOf(s, e).pc == s.actors[e.a]
    ensures EffectOf(s, e).ClaimPush? ==> Pushing(s.actors[e.a])
  {
  }

  lemma {:induction false} FreshHeadAlways<T>(bits: nat, actors: nat, es: seq<Event<T>>, p: nat)
    requires SingleProducer(es, p)
    ensures FreshHead(Run(bits, actors, es), p)
  {
    if es == [] {
      assert forall a :: 0 <= a < actors ==> Init<T>(bits, actors).actors[a].Idle?;
    } else {
      FreshHeadAlways(bits, actors, es[..|es| - 1], p);
      NextKeepsFreshHead(Run(bits, actors, es[..|es| - 1]), es[|es| - 1], p);
    }
  }

  /** So its push returns false exactly if the ring was full when it loaded `tail`. */
  lemma LoneProducerIsRefusedWhenFull<T>(bits: nat, actors: nat, es: seq<Event<T>>, i: nat, p: nat)
    requires SingleProducer(es, p) && Attempt(bits, actors, es, i, p) && Bounded(Run(bits, actors, es))
    ensures ReturnsFalse(bits, actors, es, i, p) <==> !HasRoom(Run(bits, actors, es[..i]))
  {
    RefusalMeaning(bits, actors, es, i, p);
    HeadGrows(bits, actors, es, i);
    CountersAlways(bits, actors, es[..i]);
    FreshHeadAlways(bits, actors, es[..i], p);
  }

  // ---- A run that refuses with room ----

  /** Two producers and a consumer, which may be the second producer: `p` loads `head`, then `q` pushes and `d` pops;
      when `p` loads `tail` the unsigned difference wraps, and its push returns false on an empty ring. */
  lemma RefusedOnEmptyRing<T(!new)>(bits: nat, actors: nat, u: Usage, p: nat, q: nat, d: nat, x: T)
    returns (es: seq<Event<T>>)
    requires p < actors && q < actors && d < actors && p != q && p != d
    requires p in u.pushers && q in u.pushers && d in u.poppers + u.batchers && Pow2(bits) < TWO64
    ensures AllUse(es, u) && RefusesWithRoom(bits, actors, es)
    ensures Run(bits, actors, es).head == Run(bits, actors, es).tail == 1
  {
    var s := Start(bits, actors, u);
    FirstTurn(0, bits);
    s := Wait(s, u, StartPush(p, x), PushHead(x));
    s := Wait(s, u, Step(p), PushTail(x, 0));
    s := PushOne(s, u, q, x);
    s := PopOne(s, u, d);
    es := Refuse(s, u, p, x);
  }

  /** The last two steps of that run. */
  lemma Refuse<T(!new)>(s: Ring<T>, u: Usage, p: nat, x: T) returns (es: seq<Event<T>>)
    requires Reachable(s, u) && p < |s.actors| && s.actors[p] == PushTail(x, 0) && s.head == s.tail == 1
    requires Capacity(s) < TWO64
    ensures AllUse(es, u) && RefusesWithRoom(s.bits, |s.actors|, es)
    ensures Run(s.bits, |s.actors|, es).head == Run(s.bits, |s.actors|, es).tail == 1
  {
    var es0: seq<Event<T>> :| AllUse(es0, u) && Run(s.bits, |s.actors|, es0) == s;
    es := es0 + [Step(p)] + [Step(p)];
    LoadsAndRefuses(s, p, x);
    OneMore(s.bits, |s.actors|, es0, Step(p));
    OneMore(s.bits, |s.actors|, es0 + [Step(p)], Step(p));
    assert es[..|es0|] == es0 && es[|es0|] == Step(p);
    assert ReturnsFalse(s.bits, |s.actors|, es, |es0|, p);
  }

  lemma LoadsAndRefuses<T>(s: Ring<T>, p: nat, x: T)
    requires |s.slots| == Capacity(s) < TWO64 && p < |s.actors|
    requires s.actors[p] == PushTail(x, 0) && s.head == s.tail == 1
    ensures var s' := Next(Next(s, Step(p)), Step(p)); s'.actors[p].Idle? && s'.head == s'.tail == 1
  {
    assert Next(s, Step(p)).actors[p] == PushTry(x, 0, 1);
  }

  lemma OneMore<T>(bits: nat, actors: nat, es: seq<Event<T>>, e: Event<T>)
    ensures Run(bits, actors, es + [e]) == Next(Run(bits, actors, es), e)
  {
    assert (es + [e])[..|es|] == es;
  }
}
