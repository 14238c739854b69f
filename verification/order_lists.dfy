/** Lists of orders in arrival order: the first order with an id, and total quantity. */
module OrderLists {
  import opened Types

  /** The position of the first order with this id, or the length of the list. */
  function Find(os: seq<Order>, id: nat): (i: nat)
    ensures i <= |os| && (i < |os| ==> os[i].id == id)
    ensures forall j :: 0 <= j < i ==> os[j].id != id
  {
    if os == [] || os[0].id == id then 0
    else
      var i := Find(os[1..], id);
      assert forall j :: 1 <= j < i + 1 ==> os[j] == os[1..][j - 1];
      i + 1
  }

  predicate Has(os: seq<Order>, id: nat) { Find(os, id) < |os| }

  /** The list without its first order of this id. */
  function Drop(os: seq<Order>, id: nat): seq<Order> {
    var i := Find(os, id);
    if i < |os| then os[..i] + os[i + 1..] else os
  }

  function Sum(os: seq<Order>): int {
    if os == [] then 0 else Sum(os[..|os| - 1]) + os[|os| - 1].quantity
  }

  /** The ids are pairwise distinct. */
  ghost predicate Unique(os: seq<Order>) {
    forall i, j :: 0 <= i < j < |os| ==> os[i].id != os[j].id
  }

  ghost predicate Positive(os: seq<Order>) {
    forall i :: 0 <= i < |os| ==> os[i].quantity > 0
  }

  lemma FindIs(os: seq<Order>, id: nat, i: nat)
    requires i < |os| && os[i].id == id && forall j :: 0 <= j < i ==> os[j].id != id
    ensures Find(os, id) == i
  {
  }

  lemma FindMisses(os: seq<Order>, id: nat)
    requires forall j :: 0 <= j < |os| ==> os[j].id != id
    ensures Find(os, id) == |os|
  {
  }

  lemma {:induction false} SumConcat(a: seq<Order>, b: seq<Order>)
    ensures Sum(a + b) == Sum(a) + Sum(b)
  {
    if b == [] {
      assert a + b == a;
    } else {
      SumConcat(a, b[..|b| - 1]);
      assert (a + b)[..|a + b| - 1] == a + b[..|b| - 1];
    }
  }

  lemma SumNone()
    ensures Sum([]) == 0
  {
  }

  lemma SumOne(o: Order)
    ensures Sum([o]) == o.quantity
  {
    var one := [o];
    assert one[..0] == [];
  }

  lemma SumAppend(os: seq<Order>, o: Order)
    ensures Sum(os + [o]) == Sum(os) + o.quantity
  {
    SumConcat(os, [o]);
    SumOne(o);
  }

  lemma SumAround(a: seq<Order>, o: Order, b: seq<Order>)
    ensures Sum(a + ([o] + b)) == Sum(a) + o.quantity + Sum(b)
    ensures Sum(a + b) == Sum(a) + Sum(b)
  {
    SumConcat(a, [o] + b);
    SumConcat([o], b);
    SumOne(o);
    SumConcat(a, b);
  }

  lemma SplitAround(os: seq<Order>, i: nat)
    requires i < |os|
    ensures os == os[..i] + ([os[i]] + os[i + 1..])
  {
  }

  lemma SumDrop(os: seq<Order>, id: nat)
    requires Has(os, id)
    ensures Sum(Drop(os, id)) == Sum(os) - os[Find(os, id)].quantity
  {
    var i := Find(os, id);
    SplitAround(os, i);
    SumAround(os[..i], os[i], os[i + 1..]);
  }

  /** Positive quantities: the total is zero exactly when nothing is left. */
  lemma {:induction false} SumOfPositives(os: seq<Order>)
    requires Positive(os)
    ensures Sum(os) >= |os|
  {
    if os != [] {
      SumOfPositives(os[..|os| - 1]);
    }
  }

  /** No order is larger than the total of a list of positive orders it is in. */
  lemma {:induction false} SumCoversEach(os: seq<Order>, o: Order)
    requires Positive(os) && o in os
    ensures Sum(os) >= o.quantity
  {
    var init := os[..|os| - 1];
    assert os == init + [os[|os| - 1]];
    if o in init {
      SumCoversEach(init, o);
    } else {
      SumOfPositives(init);
    }
  }

  /** Where the entries of the shortened list come from. */
  lemma DropShape(os: seq<Order>, id: nat)
    requires Has(os, id)
    ensures |Drop(os, id)| + 1 == |os|
    ensures forall k :: 0 <= k < Find(os, id) ==> Drop(os, id)[k] == os[k]
    ensures forall k :: Find(os, id) <= k < |os| - 1 ==> Drop(os, id)[k] == os[k + 1]
  {
  }

  lemma DropKeeps(os: seq<Order>, id: nat)
    ensures Unique(os) ==> Unique(Drop(os, id)) && !Has(Drop(os, id), id)
    ensures Positive(os) ==> Positive(Drop(os, id))
    ensures forall o :: o in Drop(os, id) ==> o in os
    ensures Unique(os) ==> forall o :: o in os && o.id != id ==> o in Drop(os, id)
  {
    var i, ds := Find(os, id), Drop(os, id);
    if i < |os| {
      DropShape(os, id);
      assert forall k :: 0 <= k < |ds| ==> ds[k] == os[if k < i then k else k + 1];
      forall o | o in os && o.id != id
        ensures o in ds
      {
        var k :| 0 <= k < |os| && os[k] == o;
        assert ds[if k < i then k else k - 1] == o;
      }
    }
  }

  /** Adding an order with a new id and dropping that id again restores the list. */
  lemma DropAppended(os: seq<Order>, o: Order)
    requires !Has(os, o.id)
    ensures Find(os + [o], o.id) == |os| && Drop(os + [o], o.id) == os
  {
    FindIs(os + [o], o.id, |os|);
  }

  /** A list is found through any of its members. */
  lemma MemberIsFound(os: seq<Order>, o: Order)
    requires o in os
    ensures Has(os, o.id)
    ensures Unique(os) ==> os[Find(os, o.id)] == o
  {
    var k :| 0 <= k < |os| && os[k] == o;
    assert Find(os, o.id) <= k;
  }
}
