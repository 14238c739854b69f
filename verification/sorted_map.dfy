/** On a tick grid the tolerant entry list is a plain sorted finite map: for every run of
    operations its lookups, its length and its order are those of an ordinary `map`. */
module SortedMaps {
  import opened Types
  import opened Prices

  /** Distinct grid prices are further apart than the comparison tolerance. */
  ghost predicate Spaced(grid: iset<real>) {
    forall a, b :: a in grid && b in grid && a != b ==> a - b > EPSILON || b - a > EPSILON
  }

  ghost predicate OnGrid<V>(es: seq<Entry<V>>, grid: iset<real>) {
    forall i :: 0 <= i < |es| ==> es[i].key in grid
  }

  /** The entries list exactly the bindings of `m`. */
  ghost predicate Lists<V>(es: seq<Entry<V>>, m: map<real, V>) {
    && (forall i :: 0 <= i < |es| ==> es[i].key in m && m[es[i].key] == es[i].value)
    && (forall k :: k in m ==> Listed(es, k))
  }

  ghost predicate Listed<V>(es: seq<Entry<V>>, k: real) {
    exists i :: 0 <= i < |es| && es[i].key == k
  }

  datatype Op<V> = Put(price: real, value: V) | Del(price: real) | Wipe

  function Step<V>(reverse: bool, es: seq<Entry<V>>, op: Op<V>): seq<Entry<V>> {
    match op
    case Put(p, v) => Insert(reverse, es, p, v)
    case Del(p) => Remove(reverse, es, p)
    case Wipe => []
  }

  function MapStep<V>(m: map<real, V>, op: Op<V>): map<real, V> {
    match op
    case Put(p, v) => m[p := v]
    case Del(p) => m - {p}
    case Wipe => map[]
  }

  /** The entry list after a whole run, from the empty tree. */
  function Run<V>(reverse: bool, ops: seq<Op<V>>): seq<Entry<V>> {
    if ops == [] then [] else Step(reverse, Run(reverse, ops[..|ops| - 1]), ops[|ops| - 1])
  }

  function MapRun<V>(ops: seq<Op<V>>): map<real, V> {
    if ops == [] then map[] else MapStep(MapRun(ops[..|ops| - 1]), ops[|ops| - 1])
  }

  ghost predicate OpsOnGrid<V>(ops: seq<Op<V>>, grid: iset<real>) {
    forall i :: 0 <= i < |ops| && !ops[i].Wipe? ==> ops[i].price in grid
  }

  /** Over arbitrary reals: every run keeps strict order, hence the epsilon gap. */
  lemma {:induction false} RunIsOrdered<V>(reverse: bool, ops: seq<Op<V>>)
    ensures Ordered(reverse, Run(reverse, ops))
  {
    if ops != [] {
      var es := Run(reverse, ops[..|ops| - 1]);
      RunIsOrdered(reverse, ops[..|ops| - 1]);
      match ops[|ops| - 1]
      case Put(p, v) => InsertKeepsOrdered(reverse, es, p, v);
      case Del(p) => RemoveKeepsOrdered(reverse, es, p);
      case Wipe =>
    }
  }

  lemma {:induction false} RunKeysAreApart<V>(reverse: bool, ops: seq<Op<V>>, i: nat, j: nat)
    requires var es := Run(reverse, ops); i < |es| && j < |es| && i != j
    ensures var es := Run(reverse, ops);
      es[i].key - es[j].key > EPSILON || es[j].key - es[i].key > EPSILON
  {
    RunIsOrdered(reverse, ops);
    OrderedKeysAreApart(reverse, Run(reverse, ops), i, j);
  }

  /** On the grid a hit means the price itself is stored. */
  lemma HitIsListed<V>(reverse: bool, es: seq<Entry<V>>, p: real, grid: iset<real>)
    requires Spaced(grid) && Ordered(reverse, es) && OnGrid(es, grid) && p in grid
    ensures Hit(reverse, es, p) <==> Listed(es, p)
    ensures Hit(reverse, es, p) ==> es[Rank(reverse, es, p)].key == p
  {
    if Listed(es, p) {
      var i :| 0 <= i < |es| && es[i].key == p;
      RankSplits(reverse, es, p);
    }
  }

  lemma StepOnGrid<V>(reverse: bool, es: seq<Entry<V>>, op: Op<V>, grid: iset<real>)
    requires OnGrid(es, grid) && (op.Wipe? || op.price in grid)
    ensures OnGrid(Step(reverse, es, op), grid)
  {
  }

  lemma InsertLists<V>(reverse: bool, es: seq<Entry<V>>, m: map<real, V>, p: real, v: V, grid: iset<real>)
    requires Spaced(grid) && Ordered(reverse, es) && OnGrid(es, grid) && p in grid
    requires Lists(es, m)
    ensures Lists(Insert(reverse, es, p, v), m[p := v])
  {
    var r, es' := Rank(reverse, es, p), Insert(reverse, es, p, v);
    HitIsListed(reverse, es, p, grid);
    if Hit(reverse, es, p) {
      ReplacedLists(reverse, es, es', r, v, m);
    } else {
      InsertShape(reverse, es, p, v);
      InsertedLists(es, es', r, Entry(p, v), m);
    }
  }

  lemma ReplacedLists<V>(reverse: bool, es: seq<Entry<V>>, es': seq<Entry<V>>, r: nat, v: V, m: map<real, V>)
    requires Ordered(reverse, es) && Lists(es, m) && r < |es| && es' == es[r := Entry(es[r].key, v)]
    ensures Lists(es', m[es[r].key := v])
  {
    var m' := m[es[r].key := v];
    forall i | 0 <= i < |es'|
      ensures es'[i].key in m' && m'[es'[i].key] == es'[i].value
    {
      if i != r {
        OrderedKeysAreApart(reverse, es, i, r);
      }
    }
    forall k | k in m'
      ensures Listed(es', k)
    {
      var i :| 0 <= i < |es| && es[i].key == k;
      assert es'[i].key == k;
    }
  }

  lemma InsertedLists<V>(es: seq<Entry<V>>, es': seq<Entry<V>>, r: nat, e: Entry<V>, m: map<real, V>)
    requires InsertedAt(es, es', r, e) && Lists(es, m) && !Listed(es, e.key)
    ensures Lists(es', m[e.key := e.value])
  {
    var m' := m[e.key := e.value];
    forall i | 0 <= i < |es'|
      ensures es'[i].key in m' && m'[es'[i].key] == es'[i].value
    {
      if i != r {
        assert es'[i] == es[if i < r then i else i - 1];
      }
    }
    forall k | k in m'
      ensures Listed(es', k)
    {
      if k == e.key {
        assert es'[r].key == k;
      } else {
        var i :| 0 <= i < |es| && es[i].key == k;
        assert es'[if i < r then i else i + 1].key == k;
      }
    }
  }

  lemma RemoveLists<V>(reverse: bool, es: seq<Entry<V>>, m: map<real, V>, p: real, grid: iset<real>)
    requires Spaced(grid) && Ordered(reverse, es) && OnGrid(es, grid) && p in grid
    requires Lists(es, m)
    ensures Lists(Remove(reverse, es, p), m - {p})
  {
    HitIsListed(reverse, es, p, grid);
    if Hit(reverse, es, p) {
      RemoveShape(reverse, es, p);
      RemovedLists(reverse, es, Remove(reverse, es, p), Rank(reverse, es, p), m);
    } else {
      assert p !in m;
      assert m - {p} == m;
    }
  }

  lemma RemovedLists<V>(reverse: bool, es: seq<Entry<V>>, es': seq<Entry<V>>, r: nat, m: map<real, V>)
    requires Ordered(reverse, es) && Lists(es, m) && RemovedAt(es, es', r)
    ensures Lists(es', m - {es[r].key})
  {
    RemovedKeys(reverse, es, es', r);
    forall i | 0 <= i < |es'|
      ensures es'[i].key in m && m[es'[i].key] == es'[i].value
    {
      assert es'[i] == es[if i < r then i else i + 1];
    }
    forall k | k in m && k != es[r].key
      ensures Listed(es', k)
    {
      RemovedStillLists(es, es', r, k);
    }
  }

  lemma RemovedStillLists<V>(es: seq<Entry<V>>, es': seq<Entry<V>>, r: nat, k: real)
    requires RemovedAt(es, es', r) && Listed(es, k) && k != es[r].key
    ensures Listed(es', k)
  {
    var i :| 0 <= i < |es| && es[i].key == k;
    assert es'[if i < r then i else i - 1].key == k;
  }

  lemma RemovedKeys<V>(reverse: bool, es: seq<Entry<V>>, es': seq<Entry<V>>, r: nat)
    requires Ordered(reverse, es) && RemovedAt(es, es', r)
    ensures forall i :: 0 <= i < |es'| ==> es'[i].key != es[r].key
  {
    forall i | 0 <= i < |es'|
      ensures es'[i].key != es[r].key
    {
      var j := if i < r then i else i + 1;
      assert es'[i] == es[j];
      OrderedKeysAreApart(reverse, es, j, r);
    }
  }

  /** Order and bindings determine the list: two ordered listings of a map are equal. */
  lemma {:induction false} ListingIsUnique<V>(reverse: bool, es: seq<Entry<V>>, fs: seq<Entry<V>>, m: map<real, V>)
    requires Ordered(reverse, es) && Ordered(reverse, fs) && Lists(es, m) && Lists(fs, m)
    ensures es == fs && |es| == |m|
    decreases |es|
  {
    if es == [] {
      EmptyListing(m, fs);
    } else {
      HeadComesFirst(reverse, es, fs, m);
      TailLists(reverse, es, m);
      TailLists(reverse, fs, m);
      ListingIsUnique(reverse, es[1..], fs[1..], m - {es[0].key});
      assert es == [es[0]] + es[1..] && fs == [fs[0]] + fs[1..];
    }
  }

  lemma EmptyListing<V>(m: map<real, V>, fs: seq<Entry<V>>)
    requires Lists<V>([], m) && Lists(fs, m)
    ensures m == map[] && fs == []
  {
    var none: seq<Entry<V>> := [];
    if fs != [] {
      HeadIsBound(m, fs);
    }
    forall k
      ensures k !in m
    {
      assert k in m ==> Listed(none, k);
    }
  }

  lemma HeadIsBound<V>(m: map<real, V>, fs: seq<Entry<V>>)
    requires Lists(fs, m) && fs != []
    ensures m != map[]
  {
    assert fs[0].key in m;
  }

  lemma TailLists<V>(reverse: bool, es: seq<Entry<V>>, m: map<real, V>)
    requires Ordered(reverse, es) && Lists(es, m) && es != []
    ensures Ordered(reverse, es[1..]) && Lists(es[1..], m - {es[0].key})
    ensures |m| == |m - {es[0].key}| + 1
  {
    RemovedLists(reverse, es, es[1..], 0, m);
    assert es[0].key in m;
    assert m.Keys == (m - {es[0].key}).Keys + {es[0].key};
  }

  lemma HeadComesFirst<V>(reverse: bool, es: seq<Entry<V>>, fs: seq<Entry<V>>, m: map<real, V>)
    requires Ordered(reverse, es) && Ordered(reverse, fs) && Lists(es, m) && Lists(fs, m) && es != []
    ensures fs != [] && es[0] == fs[0]
  {
    assert Listed(fs, es[0].key);
    assert Listed(es, fs[0].key);
    var j :| 0 <= j < |fs| && fs[j].key == es[0].key;
    var i :| 0 <= i < |es| && es[i].key == fs[0].key;
    assert i > 0 ==> Compare(reverse, es[0].key, es[i].key) < 0;
    assert j > 0 ==> Compare(reverse, fs[0].key, fs[j].key) < 0;
  }

  /** The tree refines a sorted map: after any run of grid operations its entries are the
      ordered listing of the map the same run builds. */
  lemma {:induction false} RunRefinesMap<V>(reverse: bool, ops: seq<Op<V>>, grid: iset<real>)
    requires Spaced(grid) && OpsOnGrid(ops, grid)
    ensures Ordered(reverse, Run(reverse, ops)) && OnGrid(Run(reverse, ops), grid)
    ensures Lists(Run(reverse, ops), MapRun(ops))
    ensures |Run(reverse, ops)| == |MapRun(ops)|
  {
    RunIsOrdered(reverse, ops);
    if ops != [] {
      var init := ops[..|ops| - 1];
      RunRefinesMap(reverse, init, grid);
      var es, m := Run(reverse, init), MapRun(init);
      StepOnGrid(reverse, es, ops[|ops| - 1], grid);
      match ops[|ops| - 1]
      case Put(p, v) => InsertLists(reverse, es, m, p, v, grid);
      case Del(p) => RemoveLists(reverse, es, m, p, grid);
      case Wipe =>
    }
    ListingIsUnique(reverse, Run(reverse, ops), Run(reverse, ops), MapRun(ops));
  }

  /** Lookups after any grid run are map lookups. */
  lemma GetRefinesMap<V>(reverse: bool, ops: seq<Op<V>>, p: real, grid: iset<real>)
    requires Spaced(grid) && OpsOnGrid(ops, grid) && p in grid
    ensures var m := MapRun(ops);
      Get(reverse, Run(reverse, ops), p) == if p in m then Some(m[p]) else None
  {
    RunRefinesMap(reverse, ops, grid);
    HitIsListed(reverse, Run(reverse, ops), p, grid);
  }

  /** Whatever order the same bindings were inserted in, the resulting lists are equal. */
  lemma RunsWithEqualMapsAgree<V>(reverse: bool, ops: seq<Op<V>>, ops': seq<Op<V>>, grid: iset<real>)
    requires Spaced(grid) && OpsOnGrid(ops, grid) && OpsOnGrid(ops', grid)
    requires MapRun(ops) == MapRun(ops')
    ensures Run(reverse, ops) == Run(reverse, ops')
  {
    RunRefinesMap(reverse, ops, grid);
    RunRefinesMap(reverse, ops', grid);
    ListingIsUnique(reverse, Run(reverse, ops), Run(reverse, ops'), MapRun(ops));
  }
}
