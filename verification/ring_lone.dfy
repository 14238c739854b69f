/** The one mixture of `Pop` and `BatchPop` that is safe with many consumers: a single producer, which alone uses
    `Pop`. While it pops it does not push, so each slot has at most one item to come and at most one ticket waiting. */
module RingLone {
  import opened RingBuffers
  import opened RingSteps
  import opened RingFifo
  import opened RingSwap

  /** Only `p` pushes and only `p` uses `Pop`. */
  ghost predicate LoneEnd<T>(e: Event<T>, p: nat) { e.StartPush? || e.StartPop? ==> e.a == p }

  ghost predicate LoneEnds<T>(es: seq<Event<T>>, p: nat) {
    forall i :: 0 <= i < |es| ==> LoneEnd(es[i], p)
  }

  ghost predicate OnlyLone<T>(s: Ring<T>, p: nat) {
    forall a :: 0 <= a < |s.actors| && (Pushing(s.actors[a]) || Popping(s.actors[a])) ==> a == p
  }

  lemma {:induction false} Injects(f: map<nat, nat>, into: set<nat>)
    requires forall t :: t in f ==> f[t] in into
    requires forall t, t' :: t in f && t' in f && t != t' ==> f[t] != f[t']
    ensures |f.Keys| <= |into|
  {
    if f.Keys != {} {
      var t :| t in f;
      var rest := f - {t};
      assert rest.Keys == f.Keys - {t};
      Injects(rest, into - {f[t]});
    }
  }

  /** The tickets below `n` of slot `i`. */
  ghost function Tickets(n: nat, i: nat, bits: nat): (ts: set<nat>)
    ensures forall t: nat :: t in ts <==> t < n && Slot(t, bits) == i
  {
    set t: nat | t < n && Slot(t, bits) == i
  }

  /** With no push under way and nothing lost, no two consumers wait for the same slot: the slot has had at least as
      many pushes as claims, and all their items but the one in the slot have been returned. */
  lemma OneWaits<T>(s: Ring<T>, u: nat, w: nat)
    requires Counters(s) && Owned(s) && Conserved(s) && u < s.tail && w < s.tail
    requires forall t :: 0 <= t < s.head ==> s.fates[t] != Pending && s.fates[t] != Lost
    requires Slot(u, s.bits) == Slot(w, s.bits) && u !in s.got && w !in s.got
    ensures u == w
  {
    var i := Slot(u, s.bits);
    var claimed, pushed := Tickets(s.tail, i, s.bits), Tickets(s.head, i, s.bits);
    var served := set v | v in claimed && v in s.got;
    var takers := map t | t in pushed && s.fates[t].Taken? :: s.fates[t].ticket;
    forall t | t in takers
      ensures takers[t] in served && s.got[takers[t]].from == t
    {
      assert Placed(s, t);
    }
    Injects(takers, served);
    AllButOne(s, i, pushed, takers.Keys);
    if u != w {
      AllButTwo(claimed, pushed, served, u, w);
    }
  }

  /** Of the tickets pushed to a slot, all but at most one have been taken. */
  lemma AllButOne<T>(s: Ring<T>, i: nat, pushed: set<nat>, taken: set<nat>)
    requires Counters(s) && Conserved(s) && pushed == Tickets(s.head, i, s.bits)
    requires forall t :: 0 <= t < s.head ==> s.fates[t] != Pending && s.fates[t] != Lost
    requires taken == set t | t in pushed && s.fates[t].Taken?
    ensures |taken| + 1 >= |pushed|
  {
    if t :| t in pushed && t !in taken {
      forall t' | t' in pushed && t' != t
        ensures t' in taken
      {
        assert Placed(s, t) && Placed(s, t');
      }
      assert pushed == taken + {t};
    } else {
      assert pushed == taken;
    }
  }

  lemma AllButTwo(claimed: set<nat>, pushed: set<nat>, served: set<nat>, u: nat, w: nat)
    requires claimed <= pushed && served <= claimed && u in claimed && w in claimed && u != w
    requires u !in served && w !in served
    ensures |served| + 2 <= |pushed|
  {
    SubsetSize(served + {u, w}, pushed);
    assert |served + {u, w}| == |served| + 2;
  }

  lemma SubsetSize(s: set<nat>, t: set<nat>)
    requires s <= t
    ensures |s| <= |t|
  {
    assert t == s + (t - s);
  }

  /** So nothing goes from under the producer's `Pop`. */
  lemma StaysFirm<T>(s: Ring<T>, e: Event<T>, p: nat)
    requires Counters(s) && Owned(s) && Conserved(s) && Bounded(s) && Firm(s) && Lossless(s, p)
    requires OnlyLone(s, p) && LoneEnd(e, p)
    ensures Firm(Next(s, e)) && OnlyLone(Next(s, e), p)
  {
    LoneStays(s, e, p);
    if e.a < |s.actors| && p < |s.actors| {
      if e.a == p {
        EffectIsOk(s, e);
        OwnHandIsFirm(s, p, EffectOf(s, e));
      } else if s.actors[p].PopClear? {
        OthersLeaveIt(s, e, p);
      }
    }
  }

  lemma LoneStays<T>(s: Ring<T>, e: Event<T>, p: nat)
    requires |s.slots| == Capacity(s) && OnlyLone(s, p) && LoneEnd(e, p)
    ensures OnlyLone(Next(s, e), p)
  {
    if e.a < |s.actors| && e.a != p {
      WhoPushes(s, e);
      NoPopFollows(s, e);
    }
  }

  lemma OwnHandIsFirm<T>(s: Ring<T>, a: nat, eff: Effect<T>)
    requires |s.slots| == Capacity(s) && Firm(s) && a < |s.actors| && EffectOk(s, a, eff)
    ensures var s' := Apply(s, a, eff); var pc := s'.actors[a];
      pc.PopClear? ==> s'.slots[Slot(pc.u, s'.bits)] == Full(pc.x, pc.f)
  {
  }

  lemma OthersLeaveIt<T>(s: Ring<T>, e: Event<T>, p: nat)
    requires Counters(s) && Owned(s) && Conserved(s) && Bounded(s) && Firm(s) && Lossless(s, p) && OnlyLone(s, p)
    requires e.a < |s.actors| && e.a != p && p < |s.actors| && s.actors[p].PopClear?
    ensures var i := Slot(s.actors[p].u, s.bits); Next(s, e).slots[i] == s.slots[i]
  {
    var u := s.actors[p].u;
    EffectIsOk(s, e);
    if EffectOf(s, e).Deliver? && Slot(EffectOf(s, e).u, s.bits) == Slot(u, s.bits) {
      var w := EffectOf(s, e).u;
      HolderOwns(s, p, u);
      HolderOwns(s, e.a, w);
      assert PopIsAwaited(s.got, s.actors[p]) && PopIsAwaited(s.got, s.actors[e.a]);
      OneWaits(s, u, w);
    }
  }

  lemma {:induction false} LoneRunsAreFirm<T>(bits: nat, actors: nat, es: seq<Event<T>>, p: nat)
    requires Bounded(Run(bits, actors, es)) && LoneEnds(es, p)
    ensures FirmRun(bits, actors, es) && Firm(Run(bits, actors, es)) && OnlyLone(Run(bits, actors, es), p)
  {
    if es == [] {
      assert forall a :: 0 <= a < actors ==> Init<T>(bits, actors).actors[a].Idle?;
    } else {
      var es', e := es[..|es| - 1], es[|es| - 1];
      CountersGrow(Run(bits, actors, es'), e);
      LoneRunsAreFirm(bits, actors, es', p);
      ConservedAlways(bits, actors, es');
      SingleProducerLosesNothing(bits, actors, es', p);
      StaysFirm(Run(bits, actors, es'), e, p);
    }
  }
}
