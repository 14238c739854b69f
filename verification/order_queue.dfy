/** The growable circular queue of `price_level.go`, in place on an array: whatever the position of
    its head, and across growth, it behaves as a plain sequence. */
module OrderQueues {
  import opened Types
  import opened OrderLists

  /** The array index `i` places after `head`, going round. */
  function Wrap(head: nat, i: nat, n: nat): (k: nat)
    requires head < n && i <= n
    ensures k < n
  {
    if head + i < n then head + i else head + i - n
  }

  /** Which is what the source's remainder computes. */
  lemma Remainder(x: nat, n: nat)
    requires x < 2 * n
    ensures x % n == if x < n then x else x - n
  {
    if x >= n {
      var y := x - n;
      assert (n + y) % n == y;
    }
  }

  /** The index before a tail, going round. */
  lemma TailBack(head: nat, i: nat, n: nat)
    requires head < n && 0 < i <= n
    ensures (Wrap(head, i, n) - 1 + n) % n == Wrap(head, i - 1, n)
  {
    Remainder(Wrap(head, i, n) - 1 + n, n);
  }

  lemma IndexOf(head: nat, i: nat, n: nat)
    requires head < n && i <= n
    ensures (head + i) % n == Wrap(head, i, n)
  {
    if head + i < 2 * n {
      Remainder(head + i, n);
    }
  }

  /** The live slots hold `q` in order, starting at `head`. */
  ghost predicate Holds(buf: seq<Option<Order>>, head: nat, q: seq<Order>) {
    && head < |buf| && |q| <= |buf|
    && forall i :: 0 <= i < |q| ==> buf[Wrap(head, i, |buf|)] == Some(q[i])
  }

  lemma StoredAtTail(buf: seq<Option<Order>>, head: nat, q: seq<Order>, o: Order)
    requires Holds(buf, head, q) && |q| < |buf|
    ensures Holds(buf[Wrap(head, |q|, |buf|) := Some(o)], head, q + [o])
  {
  }

  lemma FrontCleared(buf: seq<Option<Order>>, head: nat, q: seq<Order>)
    requires Holds(buf, head, q) && q != []
    ensures Holds(buf[head := None], Wrap(head, 1, |buf|), q[1..])
  {
    var buf', head' := buf[head := None], Wrap(head, 1, |buf|);
    forall i | 0 <= i < |q| - 1
      ensures buf'[Wrap(head', i, |buf|)] == Some(q[1..][i])
    {
      assert Wrap(head', i, |buf|) == Wrap(head, i + 1, |buf|);
    }
  }

  /** The two `copy` calls of a growing push straighten the queue out. */
  lemma Straightened(buf: seq<Option<Order>>, head: nat, q: seq<Order>, rest: seq<Option<Order>>)
    requires Holds(buf, head, q) && |q| == |buf| == |rest|
    ensures Holds(buf[head..] + buf[..head] + rest, 0, q)
  {
    var buf' := buf[head..] + buf[..head] + rest;
    forall i | 0 <= i < |q|
      ensures buf'[Wrap(0, i, |buf'|)] == Some(q[i])
    {
      assert buf'[i] == buf[Wrap(head, i, |buf|)];
    }
  }

  lemma TwoCopies(
      new0: seq<Option<Order>>, new1: seq<Option<Order>>, new2: seq<Option<Order>>,
      a: seq<Option<Order>>, b: seq<Option<Order>>)
    requires |a| + |b| <= |new0| && new1 == new0[..0] + a + new0[|a|..]
    requires new2 == new1[..|a|] + b + new1[|a| + |b|..]
    ensures new2 == a + b + new0[|a| + |b|..]
  {
    assert new1[..|a|] == a;
    assert new1[|a| + |b|..] == new0[|a| + |b|..];
  }

  /** The built-in `copy` of a slice into an array from position `at` on. */
  method Copy(dst: array<Option<Order>>, at: nat, src: seq<Option<Order>>)
    requires at + |src| <= dst.Length
    modifies dst
    ensures dst[..] == old(dst[..at]) + src + old(dst[at + |src|..])
  {
    for k := 0 to |src|
      invariant dst[..] == old(dst[..at]) + src[..k] + old(dst[at + k..])
    {
      dst[at + k] := src[k];
    }
  }

  /** While a removal at position `i` shifts the rest down, positions from `i` to `j` have already moved. */
  ghost predicate Shifting(buf: seq<Option<Order>>, head: nat, q: seq<Order>, i: nat, j: nat) {
    && head < |buf| && |q| <= |buf| && i <= j < |q|
    && (forall k :: 0 <= k < i ==> buf[Wrap(head, k, |buf|)] == Some(q[k]))
    && (forall k :: i <= k < j ==> buf[Wrap(head, k, |buf|)] == Some(q[k + 1]))
    && (forall k :: j < k < |q| ==> buf[Wrap(head, k, |buf|)] == Some(q[k]))
  }

  lemma Cleared(buf: seq<Option<Order>>, head: nat, q: seq<Order>, i: nat)
    requires Holds(buf, head, q) && i < |q|
    ensures Shifting(buf[Wrap(head, i, |buf|) := None], head, q, i, i)
  {
  }

  lemma ShiftOne(buf: seq<Option<Order>>, head: nat, q: seq<Order>, i: nat, j: nat)
    requires Shifting(buf, head, q, i, j) && j < |q| - 1
    ensures Shifting(buf[Wrap(head, j, |buf|) := buf[Wrap(head, j + 1, |buf|)]], head, q, i, j + 1)
  {
  }

  lemma Shifted(buf: seq<Option<Order>>, head: nat, q: seq<Order>, id: nat, i: nat)
    requires i == Find(q, id) < |q| && Shifting(buf, head, q, i, |q| - 1)
    ensures Holds(buf, head, Drop(q, id))
  {
    DropShape(q, id);
  }

  class OrderQueue {
    var orders: array<Option<Order>>
    var head: nat
    var tail: nat
    var size: nat
    ghost var contents: seq<Order>

    ghost predicate Valid()
      reads this, orders
    {
      if orders.Length == 0 then contents == [] && head == tail == size == 0
      else Holds(orders[..], head, contents) && size == |contents| && tail == Wrap(head, size, orders.Length)
    }

    constructor (capacity: nat)
      ensures Valid() && contents == [] && fresh(orders) && orders.Length == capacity
    {
      orders := new Option<Order>[capacity](_ => None);
      head, tail, size, contents := 0, 0, 0, [];
    }

    /** Appends, doubling the array when it is full; there is no doubling an empty array. */
    method Push(order: Order)
      requires Valid() && orders.Length > 0
      modifies this, orders
      ensures Valid() && contents == old(contents) + [order]
      ensures (orders == old(orders) || fresh(orders)) && orders.Length > 0
      ensures orders.Length == if old(size) == old(orders.Length) then 2 * old(orders.Length) else old(orders.Length)
    {
      if size == orders.Length {
        Grow();
      }
      Store(order);
    }

    method Store(order: Order)
      requires Valid() && size < orders.Length
      modifies this, orders
      ensures Valid() && contents == old(contents) + [order] && orders == old(orders)
    {
      StoredAtTail(orders[..], head, contents, order);
      Remainder(tail + 1, orders.Length);
      orders[tail] := Some(order);
      tail := (tail + 1) % orders.Length;
      size := size + 1;
      contents := contents + [order];
    }

    /** The growth of a full queue: twice the room, same orders, starting at slot 0. */
    method Grow()
      requires Valid() && size == orders.Length > 0
      modifies this
      ensures Valid() && contents == old(contents) && size == old(size) && fresh(orders)
      ensures orders.Length == 2 * old(orders.Length)
    {
      var n := orders.Length;
      var newOrders := new Option<Order>[n * 2](_ => None);
      ghost var buf, new0 := orders[..], newOrders[..];
      Copy(newOrders, 0, orders[head..]);
      ghost var new1 := newOrders[..];
      Copy(newOrders, n - head, orders[..head]);
      TwoCopies(new0, new1, newOrders[..], buf[head..], buf[..head]);
      Straightened(buf, head, contents, new0[n..]);
      orders, head, tail := newOrders, 0, size;
    }

    method Pop() returns (order: Option<Order>)
      requires Valid()
      modifies this, orders
      ensures Valid() && orders == old(orders)
      ensures old(contents) == [] ==> order == None && contents == []
      ensures old(contents) != [] ==> order == Some(old(contents)[0]) && contents == old(contents)[1..]
    {
      if size == 0 {
        return None;
      }
      FrontCleared(orders[..], head, contents);
      Remainder(head + 1, orders.Length);
      assert orders[..][Wrap(head, 0, orders.Length)] == Some(contents[0]);
      order := orders[head];
      orders[head] := None;
      head := (head + 1) % orders.Length;
      size := size - 1;
      contents := contents[1..];
    }

    method Peek() returns (order: Option<Order>)
      requires Valid()
      ensures order == if contents == [] then None else Some(contents[0])
    {
      if size == 0 {
        return None;
      }
      assert orders[..][Wrap(head, 0, orders.Length)] == Some(contents[0]);
      order := orders[head];
    }

    method Size() returns (n: nat)
      requires Valid()
      ensures n == |contents|
    {
      n := size;
    }

    /** Deletes the first order with this id; the others keep their order. */
    method Remove(orderID: nat) returns (ok: bool)
      requires Valid()
      modifies this, orders
      ensures Valid() && orders == old(orders)
      ensures ok == Has(old(contents), orderID) && contents == Drop(old(contents), orderID)
    {
      var i := 0;
      while i < size
        invariant Valid() && contents == old(contents) && orders == old(orders) && 0 <= i <= size
        invariant forall k :: 0 <= k < i ==> contents[k].id != orderID
      {
        IndexOf(head, i, orders.Length);
        var idx := (head + i) % orders.Length;
        assert orders[..][Wrap(head, i, orders.Length)] == Some(contents[i]);
        if orders[idx].value.id == orderID {
          FindIs(contents, orderID, i);
          RemoveAt(i);
          return true;
        }
        i := i + 1;
      }
      FindMisses(contents, orderID);
      return false;
    }

    /** Clears position `i` and moves the later orders down by one. */
    method RemoveAt(i: nat)
      requires Valid() && i < size && Find(contents, contents[i].id) == i
      modifies this, orders
      ensures Valid() && orders == old(orders)
      ensures contents == Drop(old(contents), old(contents[i].id))
    {
      ghost var q := contents;
      IndexOf(head, i, orders.Length);
      Cleared(orders[..], head, q, i);
      orders[(head + i) % orders.Length] := None;
      ShiftDown(i, q);
      Shrink(i, q);
    }

    /** Takes the tail back by one once the orders after position `i` have moved. */
    method Shrink(i: nat, ghost q: seq<Order>)
      requires i < |q| == size && Find(q, q[i].id) == i && Shifting(orders[..], head, q, i, size - 1)
      requires tail == Wrap(head, size, orders.Length)
      modifies this
      ensures Valid() && orders == old(orders) && contents == Drop(q, q[i].id)
    {
      TailBack(head, size, orders.Length);
      Shifted(orders[..], head, q, q[i].id, i);
      tail := (tail - 1 + orders.Length) % orders.Length;
      size := size - 1;
      contents := Drop(q, q[i].id);
    }

    method ShiftDown(i: nat, ghost q: seq<Order>)
      requires size == |q| && Shifting(orders[..], head, q, i, i)
      modifies orders
      ensures Shifting(orders[..], head, q, i, size - 1)
    {
      var j := i;
      while j < size - 1
        invariant i <= j <= size - 1 && head < orders.Length && size <= orders.Length
        invariant Shifting(orders[..], head, q, i, j)
      {
        IndexOf(head, j + 1, orders.Length);
        IndexOf(head, j, orders.Length);
        ShiftOne(orders[..], head, q, i, j);
        var srcIdx := (head + j + 1) % orders.Length;
        var dstIdx := (head + j) % orders.Length;
        orders[dstIdx] := orders[srcIdx];
        j := j + 1;
      }
    }
  }
}
