/** The tolerant price comparison of the skip tree, and what its operations do to the
    list of (price, value) entries on level 0. `Rank`, `Insert`, `Remove` and `Get` specify
    the pointer structure in `SkipTrees`; the lemmas hold for arbitrary real prices. */
module Prices {
  import opened Types

  const EPSILON: real := 0.0000000001

  /** Negative when `a` comes before `b` in tree order, zero within the tolerance. */
  function Compare(reverse: bool, a: real, b: real): (c: int)
    ensures c == 0 <==> -EPSILON <= a - b <= EPSILON
    ensures c < 0 <==> if reverse then a - b > EPSILON else b - a > EPSILON
  {
    var diff := a - b;
    if diff > EPSILON then
      if reverse then -1 else 1
    else if diff < -EPSILON then
      if reverse then 1 else -1
    else
      0
  }

  datatype Entry<+V> = Entry(key: real, value: V)

  /** How many leading entries come before price `p`: where every search of the tree ends. */
  function Rank<V>(reverse: bool, es: seq<Entry<V>>, p: real): (r: nat)
    ensures r <= |es|
    ensures forall i :: 0 <= i < r ==> Compare(reverse, es[i].key, p) < 0
    ensures r < |es| ==> Compare(reverse, es[r].key, p) >= 0
  {
    if es == [] || Compare(reverse, es[0].key, p) >= 0 then 0
    else
      var r := Rank(reverse, es[1..], p);
      assert forall i :: 1 <= i < r + 1 ==> es[i] == es[1..][i - 1];
      r + 1
  }

  /** The entry that a lookup of `p` selects is the one at the rank of `p`. */
  predicate Hit<V>(reverse: bool, es: seq<Entry<V>>, p: real) {
    var r := Rank(reverse, es, p);
    r < |es| && Compare(reverse, es[r].key, p) == 0
  }

  function Get<V>(reverse: bool, es: seq<Entry<V>>, p: real): Option<V> {
    if Hit(reverse, es, p) then Some(es[Rank(reverse, es, p)].value) else None
  }

  /** A hit keeps the stored key and replaces the value; a miss puts `p` at its rank. */
  function Insert<V>(reverse: bool, es: seq<Entry<V>>, p: real, v: V): seq<Entry<V>> {
    var r := Rank(reverse, es, p);
    if Hit(reverse, es, p) then es[r := Entry(es[r].key, v)]
    else es[..r] + [Entry(p, v)] + es[r..]
  }

  function Remove<V>(reverse: bool, es: seq<Entry<V>>, p: real): seq<Entry<V>> {
    var r := Rank(reverse, es, p);
    if Hit(reverse, es, p) then es[..r] + es[r + 1..] else es
  }

  /** Strict tree order: each key lies before every later one by more than the tolerance. */
  ghost predicate Ordered<V>(reverse: bool, es: seq<Entry<V>>) {
    forall i, j :: 0 <= i < j < |es| ==> Compare(reverse, es[i].key, es[j].key) < 0
  }

  /** The search predicate is monotone along an ordered list, so the rank splits it exactly. */
  lemma RankSplits<V>(reverse: bool, es: seq<Entry<V>>, p: real)
    requires Ordered(reverse, es)
    ensures forall i :: 0 <= i < |es| ==>
      (Compare(reverse, es[i].key, p) < 0 <==> i < Rank(reverse, es, p))
    ensures forall i :: Rank(reverse, es, p) < i < |es| ==>
      Compare(reverse, es[i].key, p) >= 0
  {
    var r := Rank(reverse, es, p);
    forall i | r <= i < |es|
      ensures Compare(reverse, es[i].key, p) >= 0
    {
      if r < i {
        assert Compare(reverse, es[r].key, es[i].key) < 0;
      }
    }
  }

  /** The rank is the only position with this property. */
  lemma RankIs<V>(reverse: bool, es: seq<Entry<V>>, p: real, r: nat)
    requires r <= |es|
    requires forall i :: 0 <= i < r ==> Compare(reverse, es[i].key, p) < 0
    requires r < |es| ==> Compare(reverse, es[r].key, p) >= 0
    ensures Rank(reverse, es, p) == r
  {
  }

  /** Epsilon gap: the comparison is not transitive on ties, yet stored keys never come
      within the tolerance of each other, whatever reals are inserted. */
  lemma OrderedKeysAreApart<V>(reverse: bool, es: seq<Entry<V>>, i: nat, j: nat)
    requires Ordered(reverse, es) && i < |es| && j < |es| && i != j
    ensures es[i].key - es[j].key > EPSILON || es[j].key - es[i].key > EPSILON
  {
    var lo, hi := if i < j then i else j, if i < j then j else i;
    assert Compare(reverse, es[lo].key, es[hi].key) < 0;
  }

  /** Ties are not transitive: 0 ties with 0.8e-10, which ties with 1.6e-10, but 0 and 1.6e-10 differ. */
  lemma TiesAreNotTransitive()
    ensures exists a, b, c ::
      Compare(false, a, b) == 0 && Compare(false, b, c) == 0 && Compare(false, a, c) != 0
  {
    var b, c := 0.00000000008, 0.00000000016;
    assert Compare(false, 0.0, b) == 0 && Compare(false, b, c) == 0 && Compare(false, 0.0, c) != 0;
  }

  /** `es'` is `es` with `e` put in at position `r`. */
  ghost predicate InsertedAt<V>(es: seq<Entry<V>>, es': seq<Entry<V>>, r: nat, e: Entry<V>) {
    && r <= |es| && |es'| == |es| + 1 && es'[r] == e
    && (forall i :: 0 <= i < r ==> es'[i] == es[i])
    && (forall i :: r < i < |es'| ==> es'[i] == es[i - 1])
  }

  lemma InsertShape<V>(reverse: bool, es: seq<Entry<V>>, p: real, v: V)
    requires !Hit(reverse, es, p)
    ensures InsertedAt(es, Insert(reverse, es, p, v), Rank(reverse, es, p), Entry(p, v))
  {
    Splice(es, Rank(reverse, es, p), Entry(p, v));
  }

  lemma Splice<V>(es: seq<Entry<V>>, r: nat, e: Entry<V>)
    requires r <= |es|
    ensures InsertedAt(es, es[..r] + [e] + es[r..], r, e)
  {
  }

  /** `es'` is `es` without its entry at position `r`. */
  ghost predicate RemovedAt<V>(es: seq<Entry<V>>, es': seq<Entry<V>>, r: nat) {
    && r < |es| && |es'| + 1 == |es|
    && (forall i :: 0 <= i < r ==> es'[i] == es[i])
    && (forall i :: r <= i < |es'| ==> es'[i] == es[i + 1])
  }

  lemma RemoveShape<V>(reverse: bool, es: seq<Entry<V>>, p: real)
    requires Hit(reverse, es, p)
    ensures RemovedAt(es, Remove(reverse, es, p), Rank(reverse, es, p))
  {
    Cut(es, Rank(reverse, es, p));
  }

  lemma Cut<V>(es: seq<Entry<V>>, r: nat)
    requires r < |es|
    ensures RemovedAt(es, es[..r] + es[r + 1..], r)
  {
  }

  lemma InsertedKeepsOrdered<V>(reverse: bool, es: seq<Entry<V>>, es': seq<Entry<V>>, r: nat, e: Entry<V>)
    requires Ordered(reverse, es) && InsertedAt(es, es', r, e)
    requires forall i :: 0 <= i < r ==> Compare(reverse, es[i].key, e.key) < 0
    requires forall i :: r <= i < |es| ==> Compare(reverse, e.key, es[i].key) < 0
    ensures Ordered(reverse, es')
  {
  }

  lemma SameKeysOrdered<V>(reverse: bool, es: seq<Entry<V>>, es': seq<Entry<V>>)
    requires Ordered(reverse, es) && |es'| == |es|
    requires forall i :: 0 <= i < |es| ==> es'[i].key == es[i].key
    ensures Ordered(reverse, es')
  {
  }

  lemma InsertKeepsOrdered<V>(reverse: bool, es: seq<Entry<V>>, p: real, v: V)
    requires Ordered(reverse, es)
    ensures Ordered(reverse, Insert(reverse, es, p, v))
  {
    var r, es' := Rank(reverse, es, p), Insert(reverse, es, p, v);
    if Hit(reverse, es, p) {
      SameKeysOrdered(reverse, es, es');
    } else {
      MissSeparates(reverse, es, p);
      InsertShape(reverse, es, p, v);
      InsertedKeepsOrdered(reverse, es, es', r, Entry(p, v));
    }
  }

  /** On a miss every stored key lies strictly on one side of the price. */
  lemma MissSeparates<V>(reverse: bool, es: seq<Entry<V>>, p: real)
    requires Ordered(reverse, es) && !Hit(reverse, es, p)
    ensures forall i :: 0 <= i < Rank(reverse, es, p) ==> Compare(reverse, es[i].key, p) < 0
    ensures forall i :: Rank(reverse, es, p) <= i < |es| ==> Compare(reverse, p, es[i].key) < 0
  {
    var r := Rank(reverse, es, p);
    forall i | r <= i < |es|
      ensures Compare(reverse, p, es[i].key) < 0
    {
      assert Compare(reverse, es[r].key, p) > 0;
      assert i > r ==> Compare(reverse, es[r].key, es[i].key) < 0;
    }
  }

  lemma RemoveKeepsOrdered<V>(reverse: bool, es: seq<Entry<V>>, p: real)
    requires Ordered(reverse, es)
    ensures Ordered(reverse, Remove(reverse, es, p))
  {
    if Hit(reverse, es, p) {
      RemoveShape(reverse, es, p);
      RemovedKeepsOrdered(reverse, es, Remove(reverse, es, p), Rank(reverse, es, p));
    }
  }

  lemma RemovedKeepsOrdered<V>(reverse: bool, es: seq<Entry<V>>, es': seq<Entry<V>>, r: nat)
    requires Ordered(reverse, es) && RemovedAt(es, es', r)
    ensures Ordered(reverse, es')
  {
  }

  /** Over arbitrary reals, a lookup of the price just inserted finds the inserted value. */
  lemma GetAfterInsert<V>(reverse: bool, es: seq<Entry<V>>, p: real, v: V)
    ensures Get(reverse, Insert(reverse, es, p, v), p) == Some(v)
  {
    var r, es' := Rank(reverse, es, p), Insert(reverse, es, p, v);
    assert forall i :: 0 <= i < r ==> es'[i].key == es[i].key;
    assert es'[r].value == v && Compare(reverse, es'[r].key, p) == 0;
    RankIs(reverse, es', p, r);
  }

  /** A new entry shifts the rank of `q` exactly when it comes before `q`. */
  lemma RankAfterInserted<V>(reverse: bool, es: seq<Entry<V>>, es': seq<Entry<V>>, r: nat, e: Entry<V>, q: real)
    requires Ordered(reverse, es') && InsertedAt(es, es', r, e) && Compare(reverse, e.key, q) != 0
    ensures var s := Rank(reverse, es, q);
      Rank(reverse, es', q) == if Compare(reverse, e.key, q) < 0 then s + 1 else s
  {
    RankSplits(reverse, es', q);
    if Compare(reverse, e.key, q) < 0 {
      RankShifted(reverse, es, es', r, e, q);
    } else {
      RankUnshifted(reverse, es, es', r, e, q);
    }
  }

  lemma RankShifted<V>(reverse: bool, es: seq<Entry<V>>, es': seq<Entry<V>>, r: nat, e: Entry<V>, q: real)
    requires InsertedAt(es, es', r, e) && r < Rank(reverse, es', q)
    ensures Rank(reverse, es', q) == Rank(reverse, es, q) + 1
  {
    var s' := Rank(reverse, es', q);
    forall i | 0 <= i < s' - 1
      ensures Compare(reverse, es[i].key, q) < 0
    {
      assert es[i] == es'[if i < r then i else i + 1];
    }
    assert s' < |es'| ==> es[s' - 1] == es'[s'];
    RankIs(reverse, es, q, s' - 1);
  }

  lemma RankUnshifted<V>(reverse: bool, es: seq<Entry<V>>, es': seq<Entry<V>>, r: nat, e: Entry<V>, q: real)
    requires InsertedAt(es, es', r, e) && Rank(reverse, es', q) <= r
    requires Ordered(reverse, es') && Compare(reverse, e.key, q) > 0
    ensures Rank(reverse, es', q) == Rank(reverse, es, q)
  {
    var s' := Rank(reverse, es', q);
    if s' < r {
      assert es[s'] == es'[s'];
    } else if r < |es| {
      assert es[r] == es'[r + 1] && Compare(reverse, es'[r].key, es'[r + 1].key) < 0;
    }
    RankIs(reverse, es, q, s');
  }

  /** A lookup whose price ties neither with the inserted price nor with the key it hit is undisturbed. */
  lemma GetElsewhereAfterInsert<V>(reverse: bool, es: seq<Entry<V>>, p: real, v: V, q: real)
    requires Ordered(reverse, es)
    requires Compare(reverse, p, q) != 0
    requires Hit(reverse, es, p) ==> Compare(reverse, es[Rank(reverse, es, p)].key, q) != 0
    ensures Get(reverse, Insert(reverse, es, p, v), q) == Get(reverse, es, q)
  {
    var r, s, es' := Rank(reverse, es, p), Rank(reverse, es, q), Insert(reverse, es, p, v);
    if Hit(reverse, es, p) {
      RankIs(reverse, es', q, s);
    } else {
      var e := Entry(p, v);
      InsertKeepsOrdered(reverse, es, p, v);
      InsertShape(reverse, es, p, v);
      InsertedLookup(reverse, es, es', r, e, q);
    }
  }

  lemma InsertedLookup<V>(reverse: bool, es: seq<Entry<V>>, es': seq<Entry<V>>, r: nat, e: Entry<V>, q: real)
    requires Ordered(reverse, es') && InsertedAt(es, es', r, e) && Compare(reverse, e.key, q) != 0
    ensures Get(reverse, es', q) == Get(reverse, es, q)
  {
    var s, s' := Rank(reverse, es, q), Rank(reverse, es', q);
    RankAfterInserted(reverse, es, es', r, e, q);
    RankSplits(reverse, es', q);
    assert Compare(reverse, es'[r].key, q) < 0 <==> r < s';
    if r < s' {
      assert s < |es| ==> es'[s'] == es[s];
    } else if s' < r {
      assert es'[s'] == es[s];
    } else {
      assert s < |es| ==> es'[r + 1] == es[s] && Compare(reverse, es'[r].key, es'[r + 1].key) < 0;
    }
  }

  /** Off the tick grid, one removal need not empty the neighbourhood of a price: after a
      removal that hits, `p` is gone exactly when the next key lies beyond the tolerance. */
  lemma GoneAfterRemove<V>(reverse: bool, es: seq<Entry<V>>, p: real)
    requires Ordered(reverse, es) && Hit(reverse, es, p)
    ensures var r := Rank(reverse, es, p);
      Get(reverse, Remove(reverse, es, p), p) == None
      <==> (r + 1 < |es| ==> Compare(reverse, es[r + 1].key, p) > 0)
  {
    var r, es' := Rank(reverse, es, p), Remove(reverse, es, p);
    RankSplits(reverse, es, p);
    RemoveShape(reverse, es, p);
    RankIs(reverse, es', p, r);
  }

  /** The input that shows it: two keys 1.6e-10 apart both tie with the price between them. */
  lemma RemoveCanLeaveThePriceFindable()
    ensures exists es: seq<Entry<int>>, p: real ::
      Ordered(false, es) && Hit(false, es, p) && Get(false, Remove(false, es, p), p) != None
  {
    var p, q := 0.00000000008, 0.00000000016;
    var es := [Entry(0.0, 1), Entry(q, 2)];
    RankIs(false, es, p, 0);
    assert Remove(false, es, p) == [Entry(q, 2)];
    RankIs(false, [Entry(q, 2)], p, 0);
    assert Ordered(false, es) && Hit(false, es, p) && Get(false, Remove(false, es, p), p) != None;
  }
}
