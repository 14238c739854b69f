/** `ProcessOrder` under concurrency: every access to the shared maps and the push into the input queue
    is one step of one caller, and a run is any sequence of steps of any number of callers. */
module Admission {
  import opened Types
  import opened OrderLists

  /** Where a caller stands. `Unmark` and `DropState` are the two separate deletes of the roll-back
      after a refused push; `UnmarkUnknown` is the roll-back after an unknown symbol. */
  datatype PC =
    | Idle
    | Mark(o: Order)
    | Lookup(o: Order)
    | UnmarkUnknown(o: Order)
    | SaveState(o: Order)
    | TryPush(o: Order)
    | Unmark(o: Order)
    | DropState(o: Order)

  /** `processed` and `states` are the ids in the shared maps. After them, history that no step tests:
      the orders pushed into the queues, and which caller holds the mark of an id not yet pushed. */
  datatype Engine = Engine(
    symbols: set<string>, processed: set<nat>, states: set<nat>, callers: seq<PC>,
    accepted: seq<Order>, owner: map<nat, nat>)

  /** A new call, or the next step of one; `room` is the queue's answer if that step is the push. */
  datatype Event = Start(a: nat, o: Order) | Step(a: nat, room: bool)

  datatype Outcome = Accepted | Duplicate | SymbolNotFound | QueueFull | NotYet

  /** What the call of caller `a` returns at its next step. */
  function Returns(s: Engine, e: Event): Outcome {
    if !e.Step? || e.a >= |s.callers| then NotYet
    else
      match s.callers[e.a]
      case Mark(o) => if o.id in s.processed then Duplicate else NotYet
      case UnmarkUnknown(_) => SymbolNotFound
      case TryPush(_) => if e.room then Accepted else NotYet
      case DropState(_) => QueueFull
      case _ => NotYet
  }

  function Next(s: Engine, e: Event): Engine {
    if e.a >= |s.callers| then s
    else
      match e
      case Start(a, o) => if s.callers[a].Idle? then s.(callers := s.callers[a := Mark(o)]) else s
      case Step(a, room) =>
        match s.callers[a]
        case Idle => s
        case Mark(o) =>
          if o.id in s.processed then s.(callers := s.callers[a := Idle])
          else s.(processed := s.processed + {o.id}, callers := s.callers[a := Lookup(o)], owner := s.owner[o.id := a])
        case Lookup(o) =>
          s.(callers := s.callers[a := if o.symbol in s.symbols then SaveState(o) else UnmarkUnknown(o)])
        case UnmarkUnknown(o) =>
          s.(processed := s.processed - {o.id}, callers := s.callers[a := Idle], owner := s.owner - {o.id})
        case SaveState(o) =>
          s.(states := s.states + {o.id}, callers := s.callers[a := TryPush(o)])
        case TryPush(o) =>
          if room then
            s.(accepted := s.accepted + [o], callers := s.callers[a := Idle], owner := s.owner - {o.id})
          else s.(callers := s.callers[a := Unmark(o)])
        case Unmark(o) =>
          s.(processed := s.processed - {o.id}, callers := s.callers[a := DropState(o)], owner := s.owner - {o.id})
        case DropState(o) =>
          s.(states := s.states - {o.id}, callers := s.callers[a := Idle])
  }

  function Init(symbols: set<string>, callers: nat): Engine {
    Engine(symbols, {}, {}, seq(callers, _ => Idle), [], map[])
  }

  function Run(symbols: set<string>, callers: nat, es: seq<Event>): (s: Engine)
    ensures |s.callers| == callers
  {
    if es == [] then Init(symbols, callers)
    else Next(Run(symbols, callers, es[..|es| - 1]), es[|es| - 1])
  }

  /** The caller has marked the id and neither pushed the order nor removed the mark. */
  ghost predicate Holds(pc: PC, id: nat) {
    (pc.Lookup? || pc.UnmarkUnknown? || pc.SaveState? || pc.TryPush? || pc.Unmark?) && pc.o.id == id
  }

  /** The mark of an id is there exactly while one caller holds it or once its order is pushed, never both. */
  ghost predicate MarkOk(s: Engine, id: nat) {
    && (id in s.processed <==> id in s.owner || Has(s.accepted, id))
    && (id in s.owner ==> !Has(s.accepted, id) && s.owner[id] < |s.callers| && Holds(s.callers[s.owner[id]], id))
  }

  ghost predicate CallerOk(s: Engine, a: nat)
    requires a < |s.callers|
  {
    var pc := s.callers[a];
    !pc.Idle? && Holds(pc, pc.o.id) ==> pc.o.id in s.owner && s.owner[pc.o.id] == a
  }

  ghost predicate Admits(s: Engine) {
    && Unique(s.accepted)
    && (forall id :: MarkOk(s, id))
    && (forall a :: 0 <= a < |s.callers| ==> CallerOk(s, a))
  }

  lemma HasAppend(os: seq<Order>, o: Order, id: nat)
    ensures Has(os + [o], id) <==> Has(os, id) || o.id == id
  {
    if Has(os, id) {
      FindIs(os + [o], id, Find(os, id));
    } else if o.id == id {
      FindIs(os + [o], id, |os|);
    } else {
      FindMisses(os + [o], id);
    }
  }

  lemma StepKeepsMarks(s: Engine, e: Event, id: nat)
    requires Admits(s)
    ensures MarkOk(Next(s, e), id)
  {
    assert MarkOk(s, id);
    if e.a < |s.callers| {
      assert CallerOk(s, e.a);
      if s.callers[e.a].TryPush? {
        HasAppend(s.accepted, s.callers[e.a].o, id);
      }
    }
  }

  lemma StepKeepsCallers(s: Engine, e: Event, b: nat)
    requires Admits(s) && b < |s.callers|
    ensures CallerOk(Next(s, e), b)
  {
    assert CallerOk(s, b);
    if e.a < |s.callers| {
      var pc := s.callers[e.a];
      assert CallerOk(s, e.a);
      if !pc.Idle? {
        assert MarkOk(s, pc.o.id);
      }
    }
  }

  lemma StepKeepsUnique(s: Engine, e: Event)
    requires Admits(s)
    ensures Unique(Next(s, e).accepted)
  {
    if e.a < |s.callers| && s.callers[e.a].TryPush? {
      assert CallerOk(s, e.a);
      assert MarkOk(s, s.callers[e.a].o.id);
    }
  }

  lemma StepKeepsAdmits(s: Engine, e: Event)
    requires Admits(s)
    ensures Admits(Next(s, e))
  {
    var s' := Next(s, e);
    StepKeepsUnique(s, e);
    forall id
      ensures MarkOk(s', id)
    {
      StepKeepsMarks(s, e, id);
    }
    forall b | 0 <= b < |s'.callers|
      ensures CallerOk(s', b)
    {
      StepKeepsCallers(s, e, b);
    }
  }

  lemma {:induction false} AdmitsAlways(symbols: set<string>, callers: nat, es: seq<Event>)
    ensures Admits(Run(symbols, callers, es))
  {
    if es != [] {
      AdmitsAlways(symbols, callers, es[..|es| - 1]);
      StepKeepsAdmits(Run(symbols, callers, es[..|es| - 1]), es[|es| - 1]);
    }
  }

  /** In every interleaving, with refusals and roll-backs, each id is pushed at most once. */
  lemma AtMostOnce(symbols: set<string>, callers: nat, es: seq<Event>, i: nat, j: nat)
    requires i < j < |Run(symbols, callers, es).accepted|
    ensures var accepted := Run(symbols, callers, es).accepted; accepted[i].id != accepted[j].id
  {
    AdmitsAlways(symbols, callers, es);
  }

  lemma {:induction false} AcceptedGrows(symbols: set<string>, callers: nat, es: seq<Event>, k: nat)
    requires k <= |es|
    ensures Run(symbols, callers, es[..k]).accepted <= Run(symbols, callers, es).accepted
    decreases |es|
  {
    if k < |es| {
      AcceptedGrows(symbols, callers, es[..|es| - 1], k);
      assert es[..|es| - 1][..k] == es[..k];
    } else {
      assert es[..k] == es;
    }
  }

  /** Once an id has been pushed it stays marked, whatever happens afterwards. */
  lemma AcceptedStaysMarked(symbols: set<string>, callers: nat, es: seq<Event>, k: nat, id: nat)
    requires k <= |es| && Has(Run(symbols, callers, es[..k]).accepted, id)
    ensures id in Run(symbols, callers, es).processed
  {
    var before, after := Run(symbols, callers, es[..k]).accepted, Run(symbols, callers, es).accepted;
    AcceptedGrows(symbols, callers, es, k);
    AdmitsAlways(symbols, callers, es);
    MemberIsFound(after, after[Find(before, id)]);
    assert MarkOk(Run(symbols, callers, es), id);
  }

  /** A call is refused as a duplicate exactly when the id has been pushed or another call holds its mark. */
  lemma DuplicateMeaning(symbols: set<string>, callers: nat, es: seq<Event>, a: nat, o: Order, room: bool)
    requires a < callers && Run(symbols, callers, es).callers[a] == Mark(o)
    ensures var s := Run(symbols, callers, es);
      Returns(s, Step(a, room)) == Duplicate
      <==> Has(s.accepted, o.id) || exists b :: 0 <= b < callers && b != a && Holds(s.callers[b], o.id)
  {
    var s := Run(symbols, callers, es);
    AdmitsAlways(symbols, callers, es);
    assert MarkOk(s, o.id);
    if b :| 0 <= b < callers && Holds(s.callers[b], o.id) {
      assert CallerOk(s, b);
    }
  }

  // ---- What a call returns ----

  /** A call that rolls back after the lookup has an unknown symbol; one that got further has a known one. */
  ghost predicate SymbolOk(s: Engine, pc: PC) {
    && (pc.UnmarkUnknown? ==> pc.o.symbol !in s.symbols)
    && (pc.SaveState? || pc.TryPush? || pc.Unmark? || pc.DropState? ==> pc.o.symbol in s.symbols)
  }

  lemma {:induction false} SymbolsAlways(symbols: set<string>, callers: nat, es: seq<Event>)
    ensures var s := Run(symbols, callers, es);
      && s.symbols == symbols && (forall a :: 0 <= a < callers ==> SymbolOk(s, s.callers[a]))
      && forall i :: 0 <= i < |s.accepted| ==> s.accepted[i].symbol in symbols
  {
    if es != [] {
      var s, e := Run(symbols, callers, es[..|es| - 1]), es[|es| - 1];
      SymbolsAlways(symbols, callers, es[..|es| - 1]);
      if e.a < callers {
        assert SymbolOk(s, s.callers[e.a]);
      }
    }
  }

  /** In every interleaving, what a call returns: a symbol is reported as not found only if it is unknown, orders of
      unknown symbols are neither accepted nor refused for a full queue, and exactly the accepted ones are pushed. */
  lemma ReturnMeaning(symbols: set<string>, callers: nat, es: seq<Event>, e: Event)
    requires e.Step? && e.a < callers && !Run(symbols, callers, es).callers[e.a].Idle?
    ensures var s := Run(symbols, callers, es);
      var o, s' := s.callers[e.a].o, Next(s, e);
      && (Returns(s, e) == SymbolNotFound ==> o.symbol !in symbols)
      && (Returns(s, e) == Accepted || Returns(s, e) == QueueFull ==> o.symbol in symbols)
      && s'.accepted == (if Returns(s, e) == Accepted then s.accepted + [o] else s.accepted)
      && (Returns(s, e) == NotYet <==> !s'.callers[e.a].Idle?)
  {
    var s := Run(symbols, callers, es);
    SymbolsAlways(symbols, callers, es);
    assert SymbolOk(s, s.callers[e.a]);
  }

  /** Every order pushed in any run has a known symbol. */
  lemma PushedSymbolsAreKnown(symbols: set<string>, callers: nat, es: seq<Event>, o: Order)
    requires o in Run(symbols, callers, es).accepted
    ensures o.symbol in symbols
  {
    SymbolsAlways(symbols, callers, es);
  }

  /** `n` steps of caller `a`, and of nobody else. */
  function Steps(s: Engine, a: nat, room: bool, n: nat): Engine {
    if n == 0 then s else Next(Steps(s, a, room, n - 1), Step(a, room))
  }

  /** What a call leaves behind if it runs alone to its end, which takes `n` steps, and what it returns. */
  ghost predicate Ends(s: Engine, a: nat, o: Order, room: bool, n: nat, s': Engine, answer: Outcome) {
    var s0 := Next(s, Start(a, o));
    n > 0 && Steps(s0, a, room, n) == s' && Returns(Steps(s0, a, room, n - 1), Step(a, room)) == answer
  }

  /** An order whose id is marked is refused, and nothing changes. */
  lemma DuplicateAlone(s: Engine, a: nat, o: Order, room: bool)
    requires a < |s.callers| && s.callers[a].Idle? && o.id in s.processed
    ensures Ends(s, a, o, room, 1, s, Duplicate)
  {
    var s0 := Next(s, Start(a, o));
    assert Steps(s0, a, room, 0) == s0 && s0.callers[a] == Mark(o);
    assert Steps(s0, a, room, 1).callers == s.callers;
  }

  /** The first two steps of any other order: it is marked, and its symbol looked up. */
  lemma MarkAndLookUp(s: Engine, a: nat, o: Order, room: bool)
    requires a < |s.callers| && s.callers[a].Idle? && o.id !in s.processed
    ensures Steps(Next(s, Start(a, o)), a, room, 2) == s.(
      processed := s.processed + {o.id}, owner := s.owner[o.id := a],
      callers := s.callers[a := if o.symbol in s.symbols then SaveState(o) else UnmarkUnknown(o)])
  {
    var s0 := Next(s, Start(a, o));
    assert Steps(s0, a, room, 0) == s0;
    var s1 := Steps(s0, a, room, 1);
    assert s1 == s.(
      processed := s.processed + {o.id}, owner := s.owner[o.id := a], callers := s.callers[a := Lookup(o)]);
  }

  /** An order of an unknown symbol is refused, and nothing of it remains. */
  lemma UnknownAlone(s: Engine, a: nat, o: Order, room: bool)
    requires Admits(s) && a < |s.callers| && s.callers[a].Idle? && o.id !in s.processed && o.symbol !in s.symbols
    ensures Ends(s, a, o, room, 3, s, SymbolNotFound)
  {
    MarkAndLookUp(s, a, o, room);
    assert MarkOk(s, o.id);
    var s3 := Steps(Next(s, Start(a, o)), a, room, 3);
    assert s3.processed == s.processed && s3.owner == s.owner && s3.callers == s.callers;
  }

  /** An order of a known symbol is accepted if there is room: it is marked, has a state, and is pushed last. */
  lemma AcceptedAlone(s: Engine, a: nat, o: Order)
    requires Admits(s) && a < |s.callers| && s.callers[a].Idle? && o.id !in s.processed && o.symbol in s.symbols
    ensures Ends(s, a, o, true, 4, s.(
      processed := s.processed + {o.id}, states := s.states + {o.id}, accepted := s.accepted + [o]), Accepted)
  {
    MarkAndLookUp(s, a, o, true);
    assert MarkOk(s, o.id);
    var s0 := Next(s, Start(a, o));
    var s3 := Steps(s0, a, true, 3);
    assert s3 == Steps(s0, a, true, 2).(states := s.states + {o.id}, callers := s.callers[a := TryPush(o)]);
    var s4 := Steps(s0, a, true, 4);
    assert s4.owner == s.owner && s4.callers == s.callers;
  }

  /** If there is none it is refused, and neither its mark nor a state under its id remains. */
  lemma QueueFullAlone(s: Engine, a: nat, o: Order)
    requires Admits(s) && a < |s.callers| && s.callers[a].Idle? && o.id !in s.processed && o.symbol in s.symbols
    ensures Ends(s, a, o, false, 6, s.(states := s.states - {o.id}), QueueFull)
  {
    MarkAndLookUp(s, a, o, false);
    assert MarkOk(s, o.id);
    var s0 := Next(s, Start(a, o));
    var s3 := Steps(s0, a, false, 3);
    assert s3 == Steps(s0, a, false, 2).(states := s.states + {o.id}, callers := s.callers[a := TryPush(o)]);
    var s4 := Steps(s0, a, false, 4);
    assert s4 == s3.(callers := s.callers[a := Unmark(o)]);
    var s5 := Steps(s0, a, false, 5);
    assert s5 == s4.(processed := s.processed, owner := s.owner, callers := s.callers[a := DropState(o)]);
    var s6 := Steps(s0, a, false, 6);
    assert s6.callers == s.callers && s6.states == s.states - {o.id};
  }

  // ---- Order states ----

  /** Every pushed order has a state. */
  ghost predicate AcceptedKept(s: Engine) {
    forall id :: Has(s.accepted, id) ==> id in s.states
  }

  /** It does so after each step of the run. */
  ghost predicate KeptThroughout(symbols: set<string>, callers: nat, es: seq<Event>) {
    es != [] ==> KeptThroughout(symbols, callers, es[..|es| - 1]) && AcceptedKept(Run(symbols, callers, es))
  }

  /** The second delete of a roll-back, on this id. */
  predicate DropsState(s: Engine, e: Event, id: nat) {
    e.Step? && e.a < |s.callers| && s.callers[e.a].DropState? && s.callers[e.a].o.id == id
  }

  /** Caller `a` has saved the state of an order with this id and not yet tried to push it. */
  predicate Waits(s: Engine, a: nat, id: nat) {
    a < |s.callers| && s.callers[a].TryPush? && s.callers[a].o.id == id
  }

  /** Caller `a` takes no step from position `from` to position `to`. */
  ghost predicate Rests(es: seq<Event>, from: nat, to: nat, a: nat) {
    to <= |es| && forall m :: from <= m < to ==> !(es[m].Step? && es[m].a == a)
  }

  /** The delete at position `j` takes the state that caller `a` has saved and, at position `k`, not yet used. */
  ghost predicate Robs(symbols: set<string>, callers: nat, es: seq<Event>, j: nat, k: nat, a: nat) {
    && j < k <= |es| && a < callers && Rests(es, j + 1, k, a)
    && var s := Run(symbols, callers, es[..j]);
       s.callers[a].TryPush? && DropsState(s, es[j], s.callers[a].o.id)
  }

  /** Caller `a` has been robbed since it saved its state. */
  ghost predicate Robbed(symbols: set<string>, callers: nat, es: seq<Event>, a: nat) {
    exists j :: 0 <= j < |es| && Robs(symbols, callers, es, j, |es|, a)
  }

  lemma RobsPrefix(symbols: set<string>, callers: nat, es: seq<Event>, n: nat, j: nat, k: nat, a: nat)
    requires k <= n <= |es|
    ensures Robs(symbols, callers, es[..n], j, k, a) <==> Robs(symbols, callers, es, j, k, a)
  {
    if j < k {
      assert es[..n][..j] == es[..j] && es[..n][j] == es[j];
      assert forall m :: 0 <= m < k ==> es[..n][m] == es[m];
    }
  }

  /** One more event by someone else: robbed before, or robbed by it. */
  lemma RobbedStep(symbols: set<string>, callers: nat, es: seq<Event>, a: nat)
    requires es != [] && a < callers && !(es[|es| - 1].Step? && es[|es| - 1].a == a)
    ensures var init, e := es[..|es| - 1], es[|es| - 1];
      var s := Run(symbols, callers, init);
      Robbed(symbols, callers, es, a) <==>
        Robbed(symbols, callers, init, a) || (s.callers[a].TryPush? && DropsState(s, e, s.callers[a].o.id))
  {
    var n := |es| - 1;
    var init, e := es[..n], es[n];
    var s := Run(symbols, callers, init);
    forall j | 0 <= j < n
      ensures Robs(symbols, callers, es, j, |es|, a) <==> Robs(symbols, callers, init, j, n, a)
    {
      RobsPrefix(symbols, callers, es, n, j, n, a);
      assert Rests(es, j + 1, |es|, a) <==> Rests(es, j + 1, n, a);
    }
    assert Robs(symbols, callers, es, n, |es|, a) <==> s.callers[a].TryPush? && DropsState(s, e, s.callers[a].o.id);
  }

  /** After its own step a caller has not been robbed. */
  lemma OwnStepIsNoRobbery(symbols: set<string>, callers: nat, es: seq<Event>, a: nat)
    requires es != [] && es[|es| - 1].Step? && es[|es| - 1].a == a
    ensures !Robbed(symbols, callers, es, a)
  {
    forall j | 0 <= j < |es|
      ensures !Robs(symbols, callers, es, j, |es|, a)
    {
      if j < |es| - 1 {
        assert es[|es| - 1].Step? && es[|es| - 1].a == a;
      }
    }
  }

  /** A caller about to push has its state exactly if it has not been robbed of it. */
  lemma {:induction false} StateUnlessRobbed(symbols: set<string>, callers: nat, es: seq<Event>, a: nat, id: nat)
    requires Waits(Run(symbols, callers, es), a, id)
    ensures id in Run(symbols, callers, es).states <==> !Robbed(symbols, callers, es, a)
  {
    var init, e := es[..|es| - 1], es[|es| - 1];
    var s := Run(symbols, callers, init);
    AdmitsAlways(symbols, callers, init);
    if e.Step? && e.a == a {
      OwnStepIsNoRobbery(symbols, callers, es, a);
    } else {
      StateUnlessRobbed(symbols, callers, init, a, id);
      RobbedStep(symbols, callers, es, a);
      assert CallerOk(s, a);
      if e.a < callers {
        assert CallerOk(s, e.a);
      }
    }
  }

  /** What the event does to the kept states: it loses one exactly if it deletes the state of a pushed order, or
      pushes an order whose caller has been robbed. */
  ghost predicate LosesState(symbols: set<string>, callers: nat, es: seq<Event>)
    requires es != []
  {
    var init, e := es[..|es| - 1], es[|es| - 1];
    var s := Run(symbols, callers, init);
    e.Step? && e.a < callers &&
    ( || (s.callers[e.a].DropState? && Has(s.accepted, s.callers[e.a].o.id))
      || (s.callers[e.a].TryPush? && e.room && Robbed(symbols, callers, init, e.a)))
  }

  lemma LastStepKeeps(symbols: set<string>, callers: nat, es: seq<Event>)
    requires es != [] && AcceptedKept(Run(symbols, callers, es[..|es| - 1]))
    ensures AcceptedKept(Run(symbols, callers, es)) <==> !LosesState(symbols, callers, es)
  {
    var init, e := es[..|es| - 1], es[|es| - 1];
    var s, s' := Run(symbols, callers, init), Run(symbols, callers, es);
    if e.Step? && e.a < callers {
      var pc := s.callers[e.a];
      if pc.TryPush? {
        StateUnlessRobbed(symbols, callers, init, e.a, pc.o.id);
        forall id
          ensures Has(s.accepted + [pc.o], id) <==> Has(s.accepted, id) || pc.o.id == id
        {
          HasAppend(s.accepted, pc.o, id);
        }
        assert e.room ==> Has(s'.accepted, pc.o.id);
      }
    }
  }

  /** A delete that costs a pushed order its state: the order is pushed already, or its caller is waiting with the
      state saved and its next step, later in the run, pushes it. */
  ghost predicate Costs(symbols: set<string>, callers: nat, es: seq<Event>, j: nat) {
    j < |es| &&
    var s := Run(symbols, callers, es[..j]);
    || (exists id :: Has(s.accepted, id) && DropsState(s, es[j], id))
    || (exists a, k :: CostsLater(symbols, callers, es, j, k, a))
  }

  ghost predicate CostsLater(symbols: set<string>, callers: nat, es: seq<Event>, j: nat, k: nat, a: nat) {
    k < |es| && Robs(symbols, callers, es, j, k, a) && es[k] == Step(a, true)
  }

  ghost predicate SomeDeleteCosts(symbols: set<string>, callers: nat, es: seq<Event>) {
    exists j :: 0 <= j < |es| && Costs(symbols, callers, es, j)
  }

  /** A robbed caller is still about to push. */
  lemma {:induction false} RobbedWaits(symbols: set<string>, callers: nat, es: seq<Event>, j: nat, k: nat, a: nat)
    requires Robs(symbols, callers, es, j, k, a)
    ensures Run(symbols, callers, es[..k]).callers[a].TryPush?
    decreases k
  {
    assert es[..k][..k - 1] == es[..k - 1] && es[..k][k - 1] == es[k - 1];
    if j + 1 < k {
      assert Rests(es, j + 1, k - 1, a) && !(es[k - 1].Step? && es[k - 1].a == a);
      RobbedWaits(symbols, callers, es, j, k - 1, a);
    }
  }

  lemma CostsLaterPrefix(symbols: set<string>, callers: nat, es: seq<Event>, n: nat, j: nat, k: nat, a: nat)
    requires n <= |es| && k < n
    ensures CostsLater(symbols, callers, es[..n], j, k, a) <==> CostsLater(symbols, callers, es, j, k, a)
  {
    RobsPrefix(symbols, callers, es, n, j, k, a);
  }

  /** A cost seen in a shorter run is still there in the longer one. */
  lemma CostsStay(symbols: set<string>, callers: nat, es: seq<Event>, j: nat)
    requires es != [] && Costs(symbols, callers, es[..|es| - 1], j)
    ensures Costs(symbols, callers, es, j)
  {
    var n := |es| - 1;
    var s := Run(symbols, callers, es[..j]);
    assert es[..n][..j] == es[..j] && es[..n][j] == es[j];
    if id :| Has(s.accepted, id) && DropsState(s, es[j], id) {
    } else {
      var a: nat, k: nat :| CostsLater(symbols, callers, es[..n], j, k, a);
      CostsLaterPrefix(symbols, callers, es, n, j, k, a);
    }
  }

  /** A cost in the longer run is one of the shorter, or the last event is the loss. */
  lemma CostsCome(symbols: set<string>, callers: nat, es: seq<Event>, j: nat)
    requires es != [] && Costs(symbols, callers, es, j)
    ensures Costs(symbols, callers, es[..|es| - 1], j) || LosesState(symbols, callers, es)
  {
    var n := |es| - 1;
    var s := Run(symbols, callers, es[..j]);
    if id :| Has(s.accepted, id) && DropsState(s, es[j], id) {
      if j < n {
        assert es[..n][..j] == es[..j] && es[..n][j] == es[j];
      }
    } else {
      var a: nat, k: nat :| CostsLater(symbols, callers, es, j, k, a);
      if k < n {
        CostsLaterPrefix(symbols, callers, es, n, j, k, a);
        assert es[..n][..j] == es[..j] && es[..n][j] == es[j];
      } else {
        RobsPrefix(symbols, callers, es, n, j, n, a);
        RobbedWaits(symbols, callers, es, j, n, a);
        assert Robbed(symbols, callers, es[..n], a);
      }
    }
  }

  /** The loss at the last event goes back to a delete. */
  lemma LossIsACost(symbols: set<string>, callers: nat, es: seq<Event>)
    requires es != [] && LosesState(symbols, callers, es)
    ensures SomeDeleteCosts(symbols, callers, es)
  {
    var n := |es| - 1;
    var init, e := es[..n], es[n];
    var s := Run(symbols, callers, init);
    if s.callers[e.a].DropState? {
      assert DropsState(s, e, s.callers[e.a].o.id);
      assert Costs(symbols, callers, es, n);
    } else {
      var j :| 0 <= j < |init| && Robs(symbols, callers, init, j, |init|, e.a);
      RobsPrefix(symbols, callers, es, n, j, n, e.a);
      assert CostsLater(symbols, callers, es, j, n, e.a);
      assert Costs(symbols, callers, es, j);
    }
  }

  /** Every pushed order has its state throughout a run exactly when no delete of the run costs one: none hits an
      order already pushed, or a caller that goes on to push. */
  lemma {:induction false} KeptUnlessCost(symbols: set<string>, callers: nat, es: seq<Event>)
    ensures KeptThroughout(symbols, callers, es) <==> !SomeDeleteCosts(symbols, callers, es)
    ensures KeptThroughout(symbols, callers, es) ==> AcceptedKept(Run(symbols, callers, es))
  {
    if es != [] {
      var init := es[..|es| - 1];
      KeptUnlessCost(symbols, callers, init);
      if KeptThroughout(symbols, callers, init) {
        LastStepKeeps(symbols, callers, es);
        if LosesState(symbols, callers, es) {
          LossIsACost(symbols, callers, es);
        } else if j :| 0 <= j < |es| && Costs(symbols, callers, es, j) {
          CostsCome(symbols, callers, es, j);
        }
      } else {
        var j :| 0 <= j < |init| && Costs(symbols, callers, init, j);
        CostsStay(symbols, callers, es, j);
      }
    }
  }

  // ---- Callers that do not overlap ----

  /** No order is submitted while another call on its id is running. */
  ghost predicate Alone(symbols: set<string>, callers: nat, es: seq<Event>) {
    es != [] ==>
      var init, e := es[..|es| - 1], es[|es| - 1];
      Alone(symbols, callers, init) && StartsAlone(Run(symbols, callers, init), e)
  }

  ghost predicate StartsAlone(s: Engine, e: Event) {
    e.Start? && e.a < |s.callers| && s.callers[e.a].Idle? ==>
      forall b :: 0 <= b < |s.callers| && !s.callers[b].Idle? ==> s.callers[b].o.id != e.o.id
  }

  /** Running calls are on different ids; a call about to push has its state, and one about to delete a state has
      not been pushed. */
  ghost predicate Apart(s: Engine) {
    && (forall a, b :: 0 <= a < b < |s.callers| && !s.callers[a].Idle? && !s.callers[b].Idle? ==>
          s.callers[a].o.id != s.callers[b].o.id)
    && (forall a :: 0 <= a < |s.callers| ==> CallApart(s, s.callers[a]))
  }

  ghost predicate CallApart(s: Engine, pc: PC) {
    && (pc.TryPush? ==> pc.o.id in s.states)
    && (pc.DropState? ==> !Has(s.accepted, pc.o.id))
  }

  lemma StepKeepsApart(s: Engine, e: Event)
    requires Admits(s) && Apart(s) && AcceptedKept(s) && StartsAlone(s, e)
    ensures Apart(Next(s, e)) && AcceptedKept(Next(s, e))
  {
    var s' := Next(s, e);
    if e.a < |s.callers| {
      var pc := s.callers[e.a];
      assert CallApart(s, pc) && CallerOk(s, e.a);
      if !pc.Idle? {
        assert MarkOk(s, pc.o.id);
      }
      if pc.TryPush? {
        forall id
          ensures Has(s.accepted + [pc.o], id) <==> Has(s.accepted, id) || pc.o.id == id
        {
          HasAppend(s.accepted, pc.o, id);
        }
      }
      forall b | 0 <= b < |s'.callers|
        ensures CallApart(s', s'.callers[b])
      {
        assert CallApart(s, s.callers[b]);
      }
    }
  }

  /** If callers do not overlap on an id, every pushed order keeps its state. */
  lemma {:induction false} AloneKeepsStates(symbols: set<string>, callers: nat, es: seq<Event>)
    requires Alone(symbols, callers, es)
    ensures KeptThroughout(symbols, callers, es)
    ensures Apart(Run(symbols, callers, es)) && AcceptedKept(Run(symbols, callers, es))
  {
    if es != [] {
      var init := es[..|es| - 1];
      AloneKeepsStates(symbols, callers, init);
      AdmitsAlways(symbols, callers, init);
      StepKeepsApart(Run(symbols, callers, init), es[|es| - 1]);
    }
  }

  // ---- A run that loses the state of a pushed order ----

  ghost predicate Reachable(s: Engine, symbols: set<string>) {
    exists es :: Run(symbols, |s.callers|, es) == s
  }

  lemma Go(s: Engine, symbols: set<string>, e: Event) returns (s': Engine)
    requires Reachable(s, symbols)
    ensures s' == Next(s, e) && Reachable(s', symbols)
  {
    var es :| Run(symbols, |s.callers|, es) == s;
    s' := Next(s, e);
    assert (es + [e])[..|es|] == es;
    assert Run(symbols, |s.callers|, es + [e]) == s';
  }

  /** An idle caller submits an order under an id that is not marked, and is about to push it. */
  lemma AboutToPush(s: Engine, symbols: set<string>, a: nat, o: Order) returns (s': Engine)
    requires Reachable(s, symbols) && s.symbols == symbols && o.symbol in symbols
    requires a < |s.callers| && s.callers[a].Idle? && o.id !in s.processed
    ensures Reachable(s', symbols) && s'.symbols == symbols && s'.callers == s.callers[a := TryPush(o)]
    ensures s'.processed == s.processed + {o.id} && s'.states == s.states + {o.id} && s'.accepted == s.accepted
  {
    s' := Go(s, symbols, Start(a, o));
    s' := Go(s', symbols, Step(a, false));
    assert s'.callers[a] == Lookup(o);
    s' := Go(s', symbols, Step(a, false));
    assert s'.callers[a] == SaveState(o);
    s' := Go(s', symbols, Step(a, false));
    assert s'.callers == s.callers[a := TryPush(o)];
  }

  /** It is refused by the queue and has removed its mark, but not yet its state. */
  lemma HalfRolledBack(symbols: set<string>, callers: nat, a: nat, o: Order) returns (s: Engine)
    requires o.symbol in symbols && a < callers
    ensures Reachable(s, symbols) && s.symbols == symbols && |s.callers| == callers && s.callers[a] == DropState(o)
    ensures forall b :: 0 <= b < callers && b != a ==> s.callers[b].Idle?
    ensures s.processed == {} && s.accepted == []
  {
    s := Init(symbols, callers);
    assert Run(symbols, callers, []) == s;
    s := AboutToPush(s, symbols, a, o);
    s := Go(s, symbols, Step(a, false));
    assert s.callers[a] == Unmark(o);
    s := Go(s, symbols, Step(a, false));
  }

  /** Meanwhile caller `b` submits the same order and it is pushed; then caller `a` deletes its state. */
  lemma RollbackCanLoseAState(symbols: set<string>, callers: nat, a: nat, b: nat, o: Order) returns (es: seq<Event>)
    requires o.symbol in symbols && a < callers && b < callers && a != b
    ensures var s := Run(symbols, callers, es); s.accepted == [o] && o.id !in s.states
  {
    var s := HalfRolledBack(symbols, callers, a, o);
    s := AboutToPush(s, symbols, b, o);
    s := Go(s, symbols, Step(b, true));
    assert s.callers[a] == DropState(o) && s.accepted == [o];
    s := Go(s, symbols, Step(a, true));
    es :| Run(symbols, callers, es) == s;
  }

  // ---- Exactly when no run loses one ----

  ghost predicate NeverLosesStates(symbols: set<string>, callers: nat) {
    forall es :: AcceptedKept(Run(symbols, callers, es))
  }

  lemma {:induction false} OneIsAlone(symbols: set<string>, callers: nat, es: seq<Event>)
    requires callers <= 1
    ensures Alone(symbols, callers, es)
  {
    if es != [] {
      OneIsAlone(symbols, callers, es[..|es| - 1]);
    }
  }

  /** No run leaves a pushed order without its state exactly when there is at most one caller, or no symbol. */
  lemma NeverLosesStatesExactly(symbols: set<string>, callers: nat, o: Order)
    ensures NeverLosesStates(symbols, callers) <==> callers <= 1 || symbols == {}
  {
    if callers <= 1 || symbols == {} {
      forall es
        ensures AcceptedKept(Run(symbols, callers, es))
      {
        if symbols == {} {
          SymbolsAlways(symbols, callers, es);
        } else {
          OneIsAlone(symbols, callers, es);
          AloneKeepsStates(symbols, callers, es);
        }
      }
    } else {
      var symbol :| symbol in symbols;
      var o' := o.(symbol := symbol);
      var es := RollbackCanLoseAState(symbols, callers, 0, 1, o');
      FindIs([o'], o'.id, 0);
      assert !AcceptedKept(Run(symbols, callers, es));
    }
  }
}
