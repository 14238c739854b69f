/** The ring buffer as sequential code, which is how the order book drives it under its lock:
    a bounded first-in first-out queue. `RingSteps` treats the same code as interleaved steps. */
module RingBuffers {
  import opened Types
  import opened Bits

  /** The slot of a ticket in a buffer of 2^bits slots. */
  function Slot(t: nat, bits: nat): (i: nat)
    ensures i < Pow2(bits)
  {
    MaskIsMod(t, bits);
    BitAnd(t, Pow2(bits) - 1)
  }

  /** Slot numbers that are distinct and in range: one full turn around the buffer. */
  ghost predicate IsTurn(w: seq<int>) {
    && (forall i :: 0 <= i < |w| ==> 0 <= w[i] < |w|)
    && (forall i, j :: 0 <= i < j < |w| ==> w[i] != w[j])
  }

  /** The slots of the tickets from `t` on, for one turn. */
  ghost function Turn(t: nat, bits: nat): (w: seq<int>)
    ensures |w| == Pow2(bits)
  {
    seq(Pow2(bits), i requires 0 <= i < Pow2(bits) => Slot(t + i, bits))
  }

  lemma TurnAt(t: nat, bits: nat, i: nat)
    requires i < Pow2(bits)
    ensures Turn(t, bits)[i] == Slot(t + i, bits)
  {
  }

  lemma TurnIsTurn(t: nat, bits: nat)
    ensures IsTurn(Turn(t, bits))
  {
    var w := Turn(t, bits);
    forall i | 0 <= i < |w|
      ensures 0 <= w[i] < |w|
    {
      TurnAt(t, bits, i);
    }
    forall i, j | 0 <= i < j < |w|
      ensures w[i] != w[j]
    {
      TurnAt(t, bits, i);
      TurnAt(t, bits, j);
      SlotsDiffer(t + i, t + j, bits);
    }
  }

  /** Tickets less than a capacity apart have different slots. */
  lemma SlotsDiffer(t: nat, u: nat, bits: nat)
    requires t < u < t + Pow2(bits)
    ensures Slot(t, bits) != Slot(u, bits)
  {
    ConsecutiveTicketsDistinct(t, u, bits);
  }

  /** Tickets a capacity apart share a slot. */
  lemma SlotsWrap(t: nat, bits: nat)
    ensures Slot(t + Pow2(bits), bits) == Slot(t, bits)
  {
    MaskIsMod(t, bits);
    MaskIsMod(t + Pow2(bits), bits);
    ModWraps(t, Pow2(bits));
  }

  lemma ModWraps(t: nat, c: nat)
    requires c > 0
    ensures (t + c) % c == t % c
  {
    var q, r := t / c, t % c;
    assert t == c * q + r;
    assert c * (q + 1) == c * q + c;
    ModIs(t + c, c, q + 1, r);
  }

  /** A ticket number that has wrapped around at 2^64 keeps its slot. */
  lemma SlotWrapsAround(t: nat, bits: nat)
    requires TWO64 <= t && Pow2(bits) <= TWO63
    ensures Slot(t - TWO64, bits) == Slot(t, bits)
  {
    MaskIsMod(t, bits);
    MaskIsMod(t - TWO64, bits);
    WholeTurns(bits);
    assert t == (t - TWO64) + Pow2(bits) * Pow2(64 - bits);
    ModTurns(t - TWO64, Pow2(bits), Pow2(64 - bits));
  }

  /** Counting to 2^64 goes a whole number of times around the buffer. */
  lemma WholeTurns(bits: nat)
    requires Pow2(bits) <= TWO63
    ensures bits <= 63 && Pow2(bits) * Pow2(64 - bits) == TWO64
  {
    BitsAtMost63(bits);
    Pow2Facts();
    Pow2Sum(bits, 64 - bits);
  }

  lemma BitsAtMost63(bits: nat)
    requires Pow2(bits) <= TWO63
    ensures bits <= 63
  {
    Pow2Facts();
    if bits >= 64 {
      Pow2Monotone(64, bits);
    }
  }

  lemma ModTurns(t: nat, c: nat, turns: nat)
    requires c > 0
    ensures (t + c * turns) % c == t % c
  {
    var q, r := t / c, t % c;
    assert t == c * q + r;
    assert c * (q + turns) == c * q + c * turns;
    ModIs(t + c * turns, c, q + turns, r);
  }

  lemma TurnAdvances(t: nat, bits: nat)
    ensures Turn(t, bits) != []
    ensures Turn(t + 1, bits) == Turn(t, bits)[1..] + [Turn(t, bits)[0]]
  {
    var w, w', c := Turn(t, bits), Turn(t + 1, bits), Pow2(bits);
    SlotsWrap(t, bits);
    TurnAt(t, bits, 0);
    TurnAt(t + 1, bits, c - 1);
    forall i | 0 <= i < c - 1
      ensures w'[i] == w[i + 1]
    {
      TurnAt(t + 1, bits, i);
      TurnAt(t, bits, i + 1);
    }
  }

  /** Around the turn `w`, the slots hold `q` in order and are empty after it. */
  ghost predicate Holds<T>(buf: seq<Option<T>>, w: seq<int>, q: seq<T>) {
    && |buf| == |w| && |q| <= |w| && IsTurn(w)
    && (forall i :: 0 <= i < |q| ==> buf[w[i]] == Some(q[i]))
    && (forall i :: |q| <= i < |w| ==> buf[w[i]] == None)
  }

  lemma Stored<T>(buf: seq<Option<T>>, w: seq<int>, q: seq<T>, x: T)
    requires Holds(buf, w, q) && |q| < |w|
    ensures buf[w[|q|]] == None && Holds(buf[w[|q|] := Some(x)], w, q + [x])
  {
  }

  lemma Cleared<T>(buf: seq<Option<T>>, w: seq<int>, q: seq<T>)
    requires Holds(buf, w, q) && q != []
    ensures buf[w[0]] == Some(q[0]) && Holds(buf[w[0] := None], w[1..] + [w[0]], q[1..])
  {
    var w' := w[1..] + [w[0]];
    assert forall i :: 0 <= i < |w| ==> w'[i] == w[if i + 1 < |w| then i + 1 else 0];
  }

  ghost function Exponent(n: nat): (k: nat)
    requires IsPow2(n)
    ensures n == Pow2(k)
  {
    var k: nat :| n == Pow2(k);
    k
  }

  /** The constructor's capacity: the size itself if it is 0 or a power of two, its rounding otherwise. */
  lemma SizeIsPower(size: nat, n: nat)
    requires size < TWO64 && ((n == size && (size == 0 || IsPow2(size))) || (
      && (1 <= size <= TWO63 ==>
            IsPow2(n) && size <= n <= TWO63 && forall p: nat :: IsPow2(p) && size <= p ==> n <= p)
      && (size == 0 || size > TWO63 ==> n == 0)))
    ensures n == 0 || IsPow2(n)
    ensures size > TWO63 ==> n == 0
    ensures n <= TWO63
  {
    Pow2Facts();
    if IsPow2(size) {
      var k := Exponent(size);
      if k >= 64 {
        Pow2Monotone(64, k);
      } else {
        Pow2Monotone(k, 63);
      }
    }
  }

  class RingBuffer<T> {
    var head: nat
    var tail: nat
    const buffer: array<Option<T>>
    const mask: nat
    const capacity: nat
    ghost const bits: nat
    ghost var contents: seq<T>   // the items between `tail` and `head`, oldest first

    /** `head` has wrapped around at 2^64 and `tail` has not. */
    ghost predicate Wrapped()
      reads this
    {
      tail + |contents| >= TWO64
    }

    /** A ring without slots, which is always full and always empty, or a power of two of them. */
    ghost predicate Valid()
      reads this, buffer
    {
      && tail < TWO64 && |contents| <= capacity <= TWO63 && buffer.Length == capacity
      && head == tail + |contents| - (if Wrapped() then TWO64 else 0)
      && if capacity == 0 then contents == [] else Turning()
    }

    ghost predicate Turning()
      reads this, buffer
    {
      capacity == Pow2(bits) && mask == capacity - 1 && Holds(buffer[..], Turn(tail, bits), contents)
    }

    constructor (size: nat)
      requires size < TWO64
      ensures Valid() && contents == [] && fresh(buffer)
      ensures 1 <= size <= TWO63 ==>
        && IsPow2(capacity) && size <= capacity <= TWO63
        && forall p: nat :: IsPow2(p) && size <= p ==> capacity <= p
      ensures size == 0 || size > TWO63 ==> capacity == 0
    {
      var n := size;
      PowerTest(size);
      if BitAnd(size, Sub64(size, 1)) != 0 {
        n := NextPowerOfTwo(size);
      }
      SizeIsPower(size, n);
      ghost var k: nat := if n == 0 then 0 else Exponent(n);
      var slots := new Option<T>[n](_ => None);
      buffer := slots;
      head, tail := 0, 0;
      mask := Sub64(n, 1);
      capacity := n;
      bits := k;
      contents := [];
      TurnIsTurn(0, k);
    }

    /** Appends unless full, also when `head` wraps around. */
    method Push(item: T) returns (ok: bool)
      requires Valid()
      modifies this`head, this`contents, buffer
      ensures Valid()
      ensures ok <==> |old(contents)| < capacity
      ensures contents == (if ok then old(contents) + [item] else old(contents)) && (old(Wrapped()) ==> Wrapped())
    {
      var h, t := head, tail;
      Difference();
      if Sub64(h, t) >= capacity {
        return false;
      }
      HeadSlot(h, t);
      head := Next64(h);
      var index := BitAnd(h, mask);
      TurnAt(t, bits, |contents|);
      Stored(buffer[..], Turn(t, bits), contents, item);
      assert buffer[index] == None;   // the wait for an empty slot ends at once
      buffer[index] := Some(item);
      contents := contents + [item];
      return true;
    }

    /** The unsigned difference of the counters is the number of items, wrapped or not. */
    lemma Difference()
      requires Valid()
      ensures Sub64(head, tail) == |contents|
    {
    }

    lemma HeadSlot(h: nat, t: nat)
      requires Valid() && capacity > 0 && h == head && t == tail
      ensures Slot(h, bits) == Slot(t + |contents|, bits)
    {
      if Wrapped() {
        SlotWrapsAround(t + |contents|, bits);
      }
    }

    /** Takes the front; once `head` has wrapped around it finds the ring empty, for good. */
    method Pop() returns (item: Option<T>)
      requires Valid()
      modifies this`tail, this`contents, buffer
      ensures Valid()
      ensures old(contents == [] || Wrapped()) ==> item == None && contents == old(contents) && tail == old(tail)
      ensures !old(contents == [] || Wrapped()) ==> item == Some(old(contents)[0]) && contents == old(contents)[1..]
    {
      var h, t := head, tail;
      if t >= h {
        return None;
      }
      tail := t + 1;
      var index := BitAnd(t, mask);
      TurnAdvances(t, bits);
      TurnAt(t, bits, 0);
      Cleared(buffer[..], Turn(t, bits), contents);
      item := buffer[index];
      assert item != None;   // the wait for a filled slot ends at once
      buffer[index] := None;
      contents := contents[1..];
    }

    /** Swaps the items of `count` claimed tickets from `t` on out of their slots; every swap finds its item at once. */
    method Drain(t: nat, count: nat, ghost all: seq<T>) returns (items: seq<T>)
      requires mask == Pow2(bits) - 1 && Holds(buffer[..], Turn(t, bits), all) && count <= |all|
      modifies buffer
      ensures Holds(buffer[..], Turn(t + count, bits), all[count..])
      ensures items == all[..count]
    {
      items := [];
      for i := 0 to count
        invariant Holds(buffer[..], Turn(t + i, bits), all[i..])
        invariant items == all[..i]
      {
        var index := BitAnd(t + i, mask);
        TurnAdvances(t + i, bits);
        TurnAt(t + i, bits, 0);
        Cleared(buffer[..], Turn(t + i, bits), all[i..]);
        var item := buffer[index];
        buffer[index] := None;
        items := items + [item.value];
        assert all[i..][1..] == all[i + 1..];
      }
    }

    /** Takes up to `max` items in order; a batch of `k` is what `k` single pops would have taken. */
    method BatchPop(max: int) returns (items: seq<T>)
      requires Valid()
      modifies this`tail, this`contents, buffer
      ensures Valid()
      ensures var k := if max <= 0 || old(Wrapped()) then 0 else Min(max, |old(contents)|);
        items == old(contents)[..k] && contents == old(contents)[k..]
    {
      items := [];
      if max <= 0 {
        return;
      }
      var h, t := head, tail;
      if t >= h {
        return;
      }
      var count := h - t;
      if count > max {
        count := max;
      }
      tail := t + count;
      items := Drain(t, count, contents);
      contents := contents[count..];
    }

    method Size() returns (n: nat)
      requires Valid()
      ensures n == if Wrapped() then 0 else |contents|
    {
      var h, t := head, tail;
      n := 0;
      if h >= t {
        n := Sub64(h, t);
      }
    }

    method IsEmpty() returns (b: bool)
      requires Valid()
      ensures b <==> contents == [] || Wrapped()
    {
      var n := Size();
      b := n == 0;
    }

    /** A full ring is one that refuses the next push, but a wrapped one does not read as full. */
    method IsFull() returns (b: bool)
      requires Valid()
      ensures b <==> |contents| == capacity && !Wrapped()
    {
      var n := Size();
      b := n >= capacity;
    }
  }
}
