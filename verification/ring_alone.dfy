/** Calls that run alone: on a ring at rest, the steps of `Push`, `Pop` and `BatchPop` taken without interruption do
    what `RingBuffers` says of the sequential code; and an actor left alone anywhere on its way to a ticket soon has
    one, or returns. */
module RingAlone {
  import opened Types
  import opened Bits
  import opened RingBuffers
  import opened RingSteps

  /** `n` steps of actor `a`, and of nobody else. */
  function Steps<T>(s: Ring<T>, a: nat, n: nat): (s': Ring<T>)
    requires |s.slots| == Capacity(s)
    ensures |s'.slots| == Capacity(s') && s'.bits == s.bits && |s'.actors| == |s.actors|
  {
    if n == 0 then s else Next(Steps(s, a, n - 1), Step(a))
  }

  lemma OneMoreStep<T>(s: Ring<T>, a: nat, n: nat)
    requires |s.slots| == Capacity(s)
    ensures Steps(s, a, n + 1) == Next(Steps(s, a, n), Step(a))
  {
  }

  function ItemOf<T>(c: Cell<T>): Option<T> { match c case Empty => None case Full(x, _) => Some(x) }

  function Items<T>(cells: seq<Cell<T>>): (buf: seq<Option<T>>)
    ensures |buf| == |cells| && forall i :: 0 <= i < |cells| ==> buf[i] == ItemOf(cells[i])
  {
    seq(|cells|, i requires 0 <= i < |cells| => ItemOf(cells[i]))
  }

  lemma ItemsUpdate<T>(cells: seq<Cell<T>>, i: nat, c: Cell<T>)
    requires i < |cells|
    ensures Items(cells[i := c]) == Items(cells)[i := ItemOf(c)]
  {
  }

  /** The slots hold the queue `q` as those of a `RingBuffer` do. */
  ghost predicate AtRest<T>(s: Ring<T>, q: seq<T>) {
    && |s.slots| == Capacity(s) && s.head == s.tail + |q| == |s.fates| && s.head < TWO64
    && (forall i :: 0 <= i < |s.slots| && s.slots[i].Full? ==> s.slots[i].from < |s.fates|)
    && Holds(Items(s.slots), Turn(s.tail, s.bits), q)
  }

  // ---- Push ----

  lemma PushLoads<T>(s: Ring<T>, a: nat, x: T)
    requires |s.slots| == Capacity(s) && a < |s.actors| && s.actors[a].Idle?
    ensures Steps(Next(s, StartPush(a, x)), a, 2) == s.(actors := s.actors[a := PushTry(x, s.head, s.tail)])
  {
    var s0 := Next(s, StartPush(a, x));
    var s1 := Steps(s0, a, 1);
    assert s1 == Next(Steps(s0, a, 0), Step(a));
    assert s1.actors[a] == PushTail(x, s.head);
    assert Steps(s0, a, 2).actors == s.actors[a := PushTry(x, s.head, s.tail)];
  }

  /** A push alone on a full ring returns false and leaves everything as it was. */
  lemma PushAloneWhenFull<T>(s: Ring<T>, a: nat, x: T, q: seq<T>)
    requires AtRest(s, q) && a < |s.actors| && s.actors[a].Idle? && |q| == Capacity(s)
    ensures Steps(Next(s, StartPush(a, x)), a, 3) == s
  {
    PushLoads(s, a, x);
    assert Steps(Next(s, StartPush(a, x)), a, 3).actors == s.actors;
  }

  lemma PushClaims<T>(s: Ring<T>, a: nat, x: T, q: seq<T>)
    requires AtRest(s, q) && a < |s.actors| && s.actors[a].Idle? && |q| < Capacity(s)
    ensures Steps(Next(s, StartPush(a, x)), a, 3) == s.(
      actors := s.actors[a := PushWait(x, s.head)], head := s.head + 1,
      items := s.items + [x], pushers := s.pushers + [a], fates := s.fates + [Pending])
  {
    PushLoads(s, a, x);
    OneMoreStep(Next(s, StartPush(a, x)), a, 2);
    assert Steps(Next(s, StartPush(a, x)), a, 3).actors == s.actors[a := PushWait(x, s.head)];
  }

  /** The two steps that put the item into its slot. */
  lemma PushStores<T>(s: Ring<T>, a: nat, x: T, k: nat, i: nat)
    requires |s.slots| == Capacity(s) && a < |s.actors| && s.actors[a] == PushWait(x, k) && i == Slot(k, s.bits)
    requires s.slots[i].Empty? && k < |s.fates|
    ensures var s' := Next(Next(s, Step(a)), Step(a));
      && s'.slots == s.slots[i := Full(x, k)] && s'.actors == s.actors[a := Idle] && s'.got == s.got
      && s'.head == s.head && s'.tail == s.tail && |s'.fates| == |s.fates| && s'.bits == s.bits
  {
    assert Next(s, Step(a)) == s.(actors := s.actors[a := PushStore(x, k)]);
    assert Next(Next(s, Step(a)), Step(a)).actors == s.actors[a := Idle];
  }

  /** The slot of the next ticket is empty, and filling it appends. */
  lemma BackSlot<T>(s: Ring<T>, x: T, q: seq<T>)
    requires AtRest(s, q) && |q| < Capacity(s)
    ensures var i := Slot(s.head, s.bits);
      s.slots[i].Empty? && Holds(Items(s.slots[i := Full(x, s.head)]), Turn(s.tail, s.bits), q + [x])
  {
    TurnAt(s.tail, s.bits, |q|);
    Stored(Items(s.slots), Turn(s.tail, s.bits), q, x);
    ItemsUpdate(s.slots, Slot(s.head, s.bits), Full(x, s.head));
  }

  /** Otherwise it appends its item. */
  lemma PushAlone<T>(s: Ring<T>, a: nat, x: T, q: seq<T>)
    requires AtRest(s, q) && a < |s.actors| && s.actors[a].Idle? && |q| < Capacity(s) && s.head + 1 < TWO64
    ensures var s' := Steps(Next(s, StartPush(a, x)), a, 5);
      AtRest(s', q + [x]) && s'.actors == s.actors && s'.tail == s.tail && s'.got == s.got
  {
    var s0 := Next(s, StartPush(a, x));
    PushClaims(s, a, x, q);
    BackSlot(s, x, q);
    PushStores(Steps(s0, a, 3), a, x, s.head, Slot(s.head, s.bits));
    OneMoreStep(s0, a, 3);
    OneMoreStep(s0, a, 4);
    assert s.actors[a := Idle] == s.actors;
  }

  // ---- Pop ----

  lemma PopLoads<T>(s: Ring<T>, a: nat)
    requires |s.slots| == Capacity(s) && a < |s.actors| && s.actors[a].Idle?
    ensures Steps(Next(s, StartPop(a)), a, 2) == s.(actors := s.actors[a := PopTry(s.head, s.tail)])
  {
    var s0 := Next(s, StartPop(a));
    var s1 := Steps(s0, a, 1);
    assert s1 == Next(Steps(s0, a, 0), Step(a));
    assert s1.actors[a] == PopTail(s.head);
    assert Steps(s0, a, 2).actors == s.actors[a := PopTry(s.head, s.tail)];
  }

  /** A pop alone on an empty ring returns nothing and leaves everything as it was. */
  lemma PopAloneWhenEmpty<T>(s: Ring<T>, a: nat)
    requires AtRest(s, []) && a < |s.actors| && s.actors[a].Idle?
    ensures Steps(Next(s, StartPop(a)), a, 3) == s
  {
    PopLoads(s, a);
    assert Steps(Next(s, StartPop(a)), a, 3).actors == s.actors;
  }

  /** The front of the queue is in the slot of the oldest ticket, and emptying that slot takes it. */
  lemma FrontSlot<T>(s: Ring<T>, q: seq<T>)
    requires AtRest(s, q) && q != []
    ensures var i := Slot(s.tail, s.bits);
      && s.slots[i].Full? && s.slots[i].item == q[0] && s.slots[i].from < |s.fates|
      && Holds(Items(s.slots[i := Empty]), Turn(s.tail + 1, s.bits), q[1..])
  {
    var i := Slot(s.tail, s.bits);
    TurnAdvances(s.tail, s.bits);
    TurnAt(s.tail, s.bits, 0);
    Cleared(Items(s.slots), Turn(s.tail, s.bits), q);
    ItemsUpdate(s.slots, i, Empty);
  }

  lemma PopClaims<T>(s: Ring<T>, a: nat, q: seq<T>)
    requires AtRest(s, q) && a < |s.actors| && s.actors[a].Idle? && q != []
    ensures Steps(Next(s, StartPop(a)), a, 3)
         == s.(actors := s.actors[a := PopWait(s.tail)], tail := s.tail + 1, poppers := s.poppers + [a])
  {
    PopLoads(s, a);
    OneMoreStep(Next(s, StartPop(a)), a, 2);
    PopSwaps(s.(actors := s.actors[a := PopTry(s.head, s.tail)]), a);
    assert s.actors[a := PopTry(s.head, s.tail)][a := PopWait(s.tail)] == s.actors[a := PopWait(s.tail)];
  }

  lemma PopSwaps<T>(s: Ring<T>, a: nat)
    requires |s.slots| == Capacity(s) && a < |s.actors| && s.actors[a] == PopTry(s.head, s.tail) && s.tail < s.head
    ensures Next(s, Step(a))
         == s.(actors := s.actors[a := PopWait(s.tail)], tail := s.tail + 1, poppers := s.poppers + [a])
  {
    assert seq(1, _ => a) == [a];
  }

  /** Otherwise it takes the front. */
  lemma PopAlone<T>(s: Ring<T>, a: nat, q: seq<T>)
    requires AtRest(s, q) && a < |s.actors| && s.actors[a].Idle? && q != []
    ensures var s' := Steps(Next(s, StartPop(a)), a, 5);
      && AtRest(s', q[1..]) && s'.actors == s.actors && s'.head == s.head
      && s.tail in s'.got && s'.got[s.tail].Full? && s'.got[s.tail].item == q[0]
  {
    var s0, i := Next(s, StartPop(a)), Slot(s.tail, s.bits);
    FrontSlot(s, q);
    PopClaims(s, a, q);
    PopDelivers(Steps(s0, a, 3), a, s.tail, i);
    OneMoreStep(s0, a, 3);
    OneMoreStep(s0, a, 4);
    assert s.actors[a := Idle] == s.actors;
  }

  /** The two steps that take the item out of its slot. */
  lemma PopDelivers<T>(s: Ring<T>, a: nat, t: nat, i: nat)
    requires |s.slots| == Capacity(s) && a < |s.actors| && s.actors[a] == PopWait(t) && i == Slot(t, s.bits)
    requires s.slots[i].Full? && s.slots[i].from < |s.fates|
    ensures var s' := Next(Next(s, Step(a)), Step(a));
      && s'.slots == s.slots[i := Empty] && s'.actors == s.actors[a := Idle] && s'.got == s.got[t := s.slots[i]]
      && s'.head == s.head && s'.tail == s.tail && |s'.fates| == |s.fates| && s'.bits == s.bits
  {
    var c := s.slots[i];
    assert Next(s, Step(a)) == s.(actors := s.actors[a := PopClear(t, c.item, c.from)]);
    assert Next(Next(s, Step(a)), Step(a)).actors == s.actors[a := Idle];
  }

  // ---- BatchPop ----

  lemma BatchLoads<T>(s: Ring<T>, a: nat, max: nat)
    requires |s.slots| == Capacity(s) && a < |s.actors| && s.actors[a].Idle? && max > 0
    ensures Steps(Next(s, StartBatch(a, max)), a, 2) == s.(actors := s.actors[a := BatchTry(max, s.head, s.tail)])
  {
    var s0 := Next(s, StartBatch(a, max));
    var s1 := Steps(s0, a, 1);
    assert s1 == Next(Steps(s0, a, 0), Step(a));
    assert s1.actors[a] == BatchTail(max, s.head);
    assert Steps(s0, a, 2).actors == s.actors[a := BatchTry(max, s.head, s.tail)];
  }

  lemma BatchAloneWhenEmpty<T>(s: Ring<T>, a: nat, max: nat)
    requires AtRest(s, []) && a < |s.actors| && s.actors[a].Idle? && max > 0
    ensures Steps(Next(s, StartBatch(a, max)), a, 3) == s
  {
    BatchLoads(s, a, max);
    assert Steps(Next(s, StartBatch(a, max)), a, 3).actors == s.actors;
  }

  /** In the middle of a batch of `count` from ticket `first` on: `done` taken, `q` still in the slots. */
  ghost predicate MidBatch<T>(s: Ring<T>, a: nat, first: nat, count: nat, done: seq<T>, q: seq<T>) {
    && |s.slots| == Capacity(s) && |done| <= count && s.tail == first + count && s.head == first + |done| + |q|
    && count - |done| <= |q| && s.head == |s.fates| && s.head < TWO64
    && (forall i :: 0 <= i < |s.slots| && s.slots[i].Full? ==> s.slots[i].from < |s.fates|)
    && Holds(Items(s.slots), Turn(first + |done|, s.bits), q)
    && a < |s.actors| && s.actors[a] == BatchTake(first, count, done)
  }

  lemma SwapsOut<T>(s: Ring<T>, a: nat, first: nat, count: nat, done: seq<T>, i: nat)
    requires |s.slots| == Capacity(s) && a < |s.actors| && s.actors[a] == BatchTake(first, count, done)
    requires |done| < count && i == Slot(first + |done|, s.bits) && s.slots[i].Full? && s.slots[i].from < |s.fates|
    ensures var s' := Next(s, Step(a));
      && s'.slots == s.slots[i := Empty]
      && s'.actors == s.actors[a := BatchTake(first, count, done + [s.slots[i].item])]
      && s'.head == s.head && s'.tail == s.tail && |s'.fates| == |s.fates| && s'.bits == s.bits
  {
  }

  /** A step of it takes the next item. */
  lemma TakesNext<T>(s: Ring<T>, a: nat, first: nat, count: nat, done: seq<T>, q: seq<T>)
    requires MidBatch(s, a, first, count, done, q) && |done| < count
    ensures var s' := Next(s, Step(a));
      && MidBatch(s', a, first, count, done + [q[0]], q[1..])
      && s'.actors == s.actors[a := BatchTake(first, count, done + [q[0]])] && s'.head == s.head
  {
    var t := first + |done|;
    var i := Slot(t, s.bits);
    TurnAdvances(t, s.bits);
    TurnAt(t, s.bits, 0);
    Cleared(Items(s.slots), Turn(t, s.bits), q);
    ItemsUpdate(s.slots, i, Empty);
    SwapsOut(s, a, first, count, done, i);
  }

  /** From `s`, with the batch claimed and `q` in the slots, the first `n` items have been taken. */
  ghost predicate TookSome<T>(s: Ring<T>, s': Ring<T>, a: nat, first: nat, count: nat, q: seq<T>, n: nat) {
    && n <= |q| && a < |s.actors| && MidBatch(s', a, first, count, q[..n], q[n..])
    && s'.actors == s.actors[a := BatchTake(first, count, q[..n])] && s'.head == s.head
  }

  lemma TakesOneMore<T>(s: Ring<T>, t: Ring<T>, a: nat, first: nat, count: nat, q: seq<T>, n: nat)
    requires TookSome(s, t, a, first, count, q, n) && n < count && n < |q|
    ensures TookSome(s, Next(t, Step(a)), a, first, count, q, n + 1)
  {
    TakesNext(t, a, first, count, q[..n], q[n..]);
    assert q[..n] + [q[n..][0]] == q[..n + 1] && q[n..][1..] == q[n + 1..];
  }

  lemma {:induction false} TakesAll<T>(s: Ring<T>, a: nat, first: nat, count: nat, q: seq<T>, n: nat)
    requires MidBatch(s, a, first, count, [], q) && n <= count
    ensures TookSome(s, Steps(s, a, n), a, first, count, q, n)
  {
    if n == 0 {
      assert q[..0] == [] && q[0..] == q;
    } else {
      TakesAll(s, a, first, count, q, n - 1);
      TakesOneMore(s, Steps(s, a, n - 1), a, first, count, q, n - 1);
      OneMoreStep(s, a, n - 1);
    }
  }

  lemma BatchSwaps<T>(s: Ring<T>, a: nat, max: nat, q: seq<T>, k: nat)
    requires AtRest(s, q) && a < |s.actors| && s.actors[a].Idle? && max > 0 && q != []
    requires k == if max < |q| then max else |q|
    ensures Steps(Next(s, StartBatch(a, max)), a, 3) == s.(
      actors := s.actors[a := BatchTake(s.tail, k, [])], tail := s.tail + k, poppers := s.poppers + seq(k, _ => a))
  {
    BatchLoads(s, a, max);
    OneMoreStep(Next(s, StartBatch(a, max)), a, 2);
    assert Steps(Next(s, StartBatch(a, max)), a, 3).actors == s.actors[a := BatchTake(s.tail, k, [])];
  }

  lemma BatchClaims<T>(s: Ring<T>, a: nat, max: nat, q: seq<T>, k: nat)
    requires AtRest(s, q) && a < |s.actors| && s.actors[a].Idle? && max > 0 && q != []
    requires k == if max < |q| then max else |q|
    ensures var s3 := Steps(Next(s, StartBatch(a, max)), a, 3);
      MidBatch(s3, a, s.tail, k, [], q) && s3.actors == s.actors[a := BatchTake(s.tail, k, [])] && s3.head == s.head
  {
    BatchSwaps(s, a, max, q, k);
    MidBatchBegins(s, s.(
      actors := s.actors[a := BatchTake(s.tail, k, [])], tail := s.tail + k,
      poppers := s.poppers + seq(k, _ => a)), a, q, k);
  }

  lemma MidBatchBegins<T>(s: Ring<T>, s3: Ring<T>, a: nat, q: seq<T>, k: nat)
    requires AtRest(s, q) && a < |s.actors| && k <= |q|
    requires s3 == s.(actors := s3.actors, tail := s.tail + k, poppers := s3.poppers)
    requires s3.actors == s.actors[a := BatchTake(s.tail, k, [])]
    ensures MidBatch(s3, a, s.tail, k, [], q)
  {
  }

  lemma BatchReturns<T>(s: Ring<T>, a: nat, first: nat, count: nat, done: seq<T>, q: seq<T>)
    requires MidBatch(s, a, first, count, done, q) && |done| == count
    ensures var s' := Next(s, Step(a)); AtRest(s', q) && s'.actors == s.actors[a := Idle] && s'.head == s.head
  {
  }

  lemma BatchFinishes<T>(s: Ring<T>, a: nat, first: nat, count: nat, q: seq<T>)
    requires MidBatch(s, a, first, count, [], q)
    ensures var t, s' := Steps(s, a, count), Steps(s, a, count + 1);
      && t.actors[a] == BatchTake(first, count, q[..count])
      && AtRest(s', q[count..]) && s'.actors == s.actors[a := Idle] && s'.head == s.head
  {
    TakesAll(s, a, first, count, q, count);
    BatchReturns(Steps(s, a, count), a, first, count, q[..count], q[count..]);
    OneMoreStep(s, a, count);
    assert s.actors[a := BatchTake(first, count, q[..count])][a := Idle] == s.actors[a := Idle];
  }

  /** A batch alone on a ring with items claims the first `min(max, size)` of them in three steps, takes each in one, in
      order, and returns. */
  lemma BatchAlone<T>(s: Ring<T>, a: nat, max: nat, q: seq<T>)
    requires AtRest(s, q) && a < |s.actors| && s.actors[a].Idle? && max > 0 && q != []
    ensures var k, s3 := if max < |q| then max else |q|, Steps(Next(s, StartBatch(a, max)), a, 3);
      var s' := Steps(s3, a, k + 1);
      && Steps(s3, a, k).actors[a] == BatchTake(s.tail, k, q[..k])
      && AtRest(s', q[k..]) && s'.actors == s.actors && s'.head == s.head
  {
    var k, s3 := if max < |q| then max else |q|, Steps(Next(s, StartBatch(a, max)), a, 3);
    BatchClaims(s, a, max, q, k);
    BatchFinishes(s3, a, s.tail, k, q);
    assert s.actors[a := BatchTake(s.tail, k, [])][a := Idle] == s.actors;
  }

  // ---- On the way to a ticket ----

  predicate Seeking<T>(pc: PC<T>) {
    || pc.PushHead? || pc.PushTail? || pc.PushTry? || pc.PopHead? || pc.PopTail? || pc.PopTry?
    || pc.BatchHead? || pc.BatchTail? || pc.BatchTry?
  }

  /** Whatever stale loads it has, an actor on its way to a ticket that is left alone has one, or has returned, within
      five steps. */
  lemma SeekerSettles<T>(s: Ring<T>, a: nat) returns (n: nat)
    requires |s.slots| == Capacity(s) && a < |s.actors| && Seeking(s.actors[a])
    ensures n <= 5 && !Seeking(Steps(s, a, n).actors[a])
  {
    n := 0;
    var s' := s;
    while n < 5 && Seeking(s'.actors[a])
      invariant n <= 5 && s' == Steps(s, a, n)
      invariant Seeking(s'.actors[a]) ==> n + Left(s', s'.actors[a]) <= 5
    {
      SeekerAdvances(s', a);
      s' := Next(s', Step(a));
      n := n + 1;
    }
  }

  /** How many steps it may still need. */
  function Left<T>(s: Ring<T>, pc: PC<T>): nat {
    match pc
    case PushHead(_) => 3
    case PushTail(_, h) => if h == s.head then 2 else 5
    case PushTry(_, h, _) => if h == s.head then 1 else 4
    case PopHead => 3
    case PopTail(_) => 2
    case PopTry(_, t) => if t == s.tail then 1 else 4
    case BatchHead(_) => 3
    case BatchTail(_, _) => 2
    case BatchTry(_, _, t) => if t == s.tail then 1 else 4
    case _ => 0
  }

  lemma SeekerAdvances<T>(s: Ring<T>, a: nat)
    requires |s.slots| == Capacity(s) && a < |s.actors| && Seeking(s.actors[a])
    ensures var s' := Next(s, Step(a)); Seeking(s'.actors[a]) ==> Left(s', s'.actors[a]) < Left(s, s.actors[a])
  {
  }
}
