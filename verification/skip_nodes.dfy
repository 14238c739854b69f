/** Nodes of the skip list and the arithmetic of its chains: a node list in level-0 order
    fixes every forward pointer, because node heights never change. */
module SkipNodes {
  import opened Types
  import opened Prices

  /** A price level: the orders resting at one price and their aggregate quantity. */
  class PriceLevel {
    const price: real
    var totalQty: int
    var orders: seq<Order>

    constructor (price: real)
      ensures this.price == price && totalQty == 0 && orders == []
    {
      this.price := price;
      totalQty := 0;
      orders := [];
    }
  }

  class SkipNode {
    const key: real
    const level: nat
    var value: PriceLevel?
    var forward: seq<SkipNode?>

    constructor (key: real, value: PriceLevel?, level: nat)
      ensures this.key == key && this.value == value && this.level == level
      ensures forward == seq(level + 1, _ => null)
    {
      this.key := key;
      this.value := value;
      this.level := level;
      this.forward := seq(level + 1, _ => null);
    }
  }

  /** Position `r` is the first after `k` with a node tall enough for chain `i`, or the end. */
  ghost predicate IsNext(ns: seq<SkipNode>, k: nat, i: nat, r: nat) {
    && k < r <= |ns|
    && (r < |ns| ==> ns[r].level >= i)
    && (forall m :: k < m < r ==> ns[m].level < i)
  }

  lemma {:induction false} NextExists(ns: seq<SkipNode>, k: nat, i: nat)
    requires k < |ns|
    ensures exists r: nat :: IsNext(ns, k, i, r)
    decreases |ns| - k
  {
    if k + 1 == |ns| || ns[k + 1].level >= i {
      assert IsNext(ns, k, i, k + 1);
    } else {
      NextExists(ns, k + 1, i);
      var r: nat :| IsNext(ns, k + 1, i, r);
      assert IsNext(ns, k, i, r);
    }
  }

  ghost function Next(ns: seq<SkipNode>, k: nat, i: nat): (r: nat)
    requires k < |ns|
    ensures IsNext(ns, k, i, r)
  {
    NextExists(ns, k, i);
    var r: nat :| IsNext(ns, k, i, r);
    r
  }

  lemma NextIs(ns: seq<SkipNode>, k: nat, i: nat, r: nat)
    requires IsNext(ns, k, i, r)
    ensures Next(ns, k, i) == r
  {
  }

  ghost function At(ns: seq<SkipNode>, k: nat): SkipNode? {
    if k < |ns| then ns[k] else null
  }

  /** `ns'` is `ns` with node `x` put in at position `q`, after the header. */
  ghost predicate Spliced(ns: seq<SkipNode>, ns': seq<SkipNode>, q: nat, x: SkipNode) {
    && 1 <= q <= |ns| && |ns'| == |ns| + 1 && ns'[q] == x
    && (forall k :: 0 <= k < q ==> ns'[k] == ns[k])
    && (forall k :: q < k < |ns'| ==> ns'[k] == ns[k - 1])
  }

  /** The last node of chain `i` at or before position `pos`. */
  ghost predicate IsPred(ns: seq<SkipNode>, u: nat, i: nat, pos: nat) {
    u <= pos < |ns| && ns[u].level >= i && pos < Next(ns, u, i)
  }

  /** On level 0 the predecessor of a position is the node there. */
  lemma BottomPred(ns: seq<SkipNode>, u: nat, pos: nat)
    requires IsPred(ns, u, 0, pos)
    ensures u == pos
  {
    NextIs(ns, u, 0, u + 1);
  }

  /** The predecessors `us` of position `pos` on the chains up to `h`. */
  ghost predicate Preds(ns: seq<SkipNode>, us: seq<nat>, h: nat, pos: nat) {
    h < |us| && forall j :: 0 <= j <= h ==> IsPred(ns, us[j], j, pos)
  }

  /** The search path `update` holds the nodes at the positions `us`, on the chains from `lo` to `h`. */
  ghost predicate PathFrom(ns: seq<SkipNode>, update: seq<SkipNode?>, us: seq<nat>, lo: nat, h: nat, pos: nat) {
    && h < |us| && h < |update|
    && forall j :: lo <= j <= h ==> IsPred(ns, us[j], j, pos) && update[j] == ns[us[j]]
  }

  ghost predicate Path(ns: seq<SkipNode>, update: seq<SkipNode?>, us: seq<nat>, h: nat, pos: nat) {
    PathFrom(ns, update, us, 0, h, pos)
  }

  lemma PathDown(ns: seq<SkipNode>, update: seq<SkipNode?>, us: seq<nat>, lo: nat, h: nat, pos: nat, u: nat)
    requires PathFrom(ns, update, us, lo + 1, h, pos) && lo <= h && IsPred(ns, u, lo, pos)
    ensures PathFrom(ns, update[lo := ns[u]], us[lo := u], lo, h, pos)
  {
  }

  lemma PathUp(ns: seq<SkipNode>, update: seq<SkipNode?>, us: seq<nat>, h: nat, pos: nat, u: nat)
    requires Path(ns, update, us, h, pos) && h + 1 < |us| && h + 1 < |update| && IsPred(ns, u, h + 1, pos)
    ensures Path(ns, update[h + 1 := ns[u]], us[h + 1 := u], h + 1, pos)
  {
  }

  /** On a chain not in use the header precedes every position. */
  lemma HeaderPrecedes(ns: seq<SkipNode>, level: nat, i: nat, pos: nat)
    requires LowerThan(ns, level) && level < i && pos < |ns| && i <= ns[0].level
    ensures IsPred(ns, 0, i, pos)
  {
  }

  /** Links that do not pass over the new node lead to the same node as before. */
  lemma NextBefore(ns: seq<SkipNode>, ns': seq<SkipNode>, q: nat, x: SkipNode, k: nat, i: nat)
    requires Spliced(ns, ns', q, x) && k < q && Next(ns, k, i) < q
    ensures Next(ns', k, i) == Next(ns, k, i)
    ensures At(ns', Next(ns', k, i)) == At(ns, Next(ns, k, i))
  {
    NextIs(ns', k, i, Next(ns, k, i));
  }

  /** A link that passes over the new node is cut exactly when the node is tall enough. */
  lemma NextAcross(ns: seq<SkipNode>, ns': seq<SkipNode>, q: nat, x: SkipNode, k: nat, i: nat)
    requires Spliced(ns, ns', q, x) && k < q <= Next(ns, k, i)
    ensures Next(ns', k, i) == if x.level >= i then q else Next(ns, k, i) + 1
    ensures Next(ns', q, i) == Next(ns, k, i) + 1
    ensures At(ns', Next(ns', k, i)) == if x.level >= i then x else At(ns, Next(ns, k, i))
    ensures At(ns', Next(ns', q, i)) == At(ns, Next(ns, k, i))
  {
    var r := Next(ns, k, i);
    forall m | k < m < r + 1 && m != q
      ensures ns'[m].level < i
    {
      assert ns'[m] == ns[if m < q then m else m - 1];
    }
    NextIs(ns', k, i, if x.level >= i then q else r + 1);
    NextIs(ns', q, i, r + 1);
  }

  lemma NextBehind(ns: seq<SkipNode>, ns': seq<SkipNode>, q: nat, x: SkipNode, k: nat, i: nat)
    requires Spliced(ns, ns', q, x) && q <= k < |ns|
    ensures Next(ns', k + 1, i) == Next(ns, k, i) + 1
    ensures At(ns', Next(ns', k + 1, i)) == At(ns, Next(ns, k, i))
  {
    var r := Next(ns, k, i);
    forall m | k + 1 < m < r + 1
      ensures ns'[m].level < i
    {
      assert ns'[m] == ns[m - 1];
    }
    NextIs(ns', k + 1, i, r + 1);
  }

  /** A chain has one predecessor of a position: the node whose link passes over it. */
  lemma PredIsUnique(ns: seq<SkipNode>, u: nat, k: nat, i: nat, pos: nat)
    requires IsPred(ns, u, i, pos) && k <= pos && ns[k].level >= i
    ensures pos < Next(ns, k, i) <==> k == u
  {
  }

  /** The nodes of height at least `i` among those from position `k` on. */
  ghost function TallFrom(ns: seq<SkipNode>, k: nat, i: nat): seq<SkipNode>
    requires k <= |ns|
    decreases |ns| - k
  {
    if k == |ns| then []
    else (if ns[k].level >= i then [ns[k]] else []) + TallFrom(ns, k + 1, i)
  }

  ghost predicate Distinct(ns: seq<SkipNode>) {
    forall j, k :: 0 <= j < k < |ns| ==> ns[j] != ns[k]
  }

  lemma SplicedNodes(ns: seq<SkipNode>, q: nat, x: SkipNode)
    requires 1 <= q <= |ns| && Distinct(ns) && x !in ns
    ensures var ns' := ns[..q] + [x] + ns[q..];
      Spliced(ns, ns', q, x) && Distinct(ns')
  {
    var ns' := ns[..q] + [x] + ns[q..];
    forall j, k | 0 <= j < k < |ns'|
      ensures ns'[j] != ns'[k]
    {
      assert j != q ==> ns'[j] == ns[if j < q then j else j - 1];
      assert k != q ==> ns'[k] == ns[if k < q then k else k - 1];
    }
  }

  /** The nodes after the header carry the entries, in order. */
  ghost predicate Keyed(ns: seq<SkipNode>, es: seq<Entry<PriceLevel>>)
    reads (set n: SkipNode | n in ns)`value
  {
    && |ns| == |es| + 1
    && (forall k :: 1 <= k < |ns| ==> ns[k].key == es[k - 1].key && ns[k].value == es[k - 1].value)
  }

  ghost predicate LowerThan(ns: seq<SkipNode>, level: nat) {
    forall k :: 1 <= k < |ns| ==> ns[k].level <= level
  }

  /** The node list `ns`, header first, carries the entries `es` on chains up to `level`; links aside. */
  ghost predicate Carries(ns: seq<SkipNode>, es: seq<Entry<PriceLevel>>, level: nat)
    reads (set n: SkipNode | n in ns)`forward, (set n: SkipNode | n in ns)`value
  {
    && ns != [] && level <= ns[0].level
    && Distinct(ns) && Sized(ns) && LowerThan(ns, level) && Keyed(ns, es)
  }

  lemma SplicedKeyed(ns: seq<SkipNode>, ns': seq<SkipNode>, es: seq<Entry<PriceLevel>>, es': seq<Entry<PriceLevel>>,
                     pos: nat, x: SkipNode, e: Entry<PriceLevel>)
    requires Spliced(ns, ns', pos + 1, x) && InsertedAt(es, es', pos, e)
    requires x.key == e.key && x.value == e.value
    ensures Keyed(ns, es) <==> Keyed(ns', es')
  {
    if Keyed(ns, es) {
      forall k | 1 <= k < |ns'|
        ensures ns'[k].key == es'[k - 1].key && ns'[k].value == es'[k - 1].value
      {
        if k != pos + 1 {
          var k' := if k <= pos then k else k - 1;
          assert ns'[k] == ns[k'] && es'[k - 1] == es[k' - 1];
        }
      }
    }
    if Keyed(ns', es') {
      forall k | 1 <= k < |ns|
        ensures ns[k].key == es[k - 1].key && ns[k].value == es[k - 1].value
      {
        var k' := if k <= pos then k else k + 1;
        assert ns'[k'] == ns[k] && es'[k' - 1] == es[k - 1];
      }
    }
  }

  lemma SplicedMembers(ns: seq<SkipNode>, ns': seq<SkipNode>, q: nat, x: SkipNode)
    requires Spliced(ns, ns', q, x)
    ensures forall n :: n in ns' <==> n in ns || n == x
  {
    forall n
      ensures n in ns' <==> n in ns || n == x
    {
      if n in ns {
        var k :| 0 <= k < |ns| && ns[k] == n;
        assert ns'[if k < q then k else k + 1] == n;
      }
      if n in ns' {
        var k :| 0 <= k < |ns'| && ns'[k] == n;
        assert k != q ==> n == ns[if k < q then k else k - 1];
      }
    }
  }

  lemma SplicedSized(ns: seq<SkipNode>, ns': seq<SkipNode>, q: nat, x: SkipNode)
    requires Spliced(ns, ns', q, x) && |x.forward| == x.level + 1
    ensures Sized(ns') <==> Sized(ns)
  {
    assert forall k :: 0 <= k < |ns| ==> ns[k] == ns'[if k < q then k else k + 1];
  }

  lemma SplicedLower(ns: seq<SkipNode>, ns': seq<SkipNode>, q: nat, x: SkipNode, level: nat)
    requires Spliced(ns, ns', q, x)
    ensures LowerThan(ns', level) <==> LowerThan(ns, level) && x.level <= level
  {
    assert x == ns'[q];
    assert forall k :: 1 <= k < |ns| ==> ns[k] == ns'[if k < q then k else k + 1];
  }

  /** Every node has one forward slot per chain it lies on. */
  ghost predicate Sized(ns: seq<SkipNode>)
    reads (set n: SkipNode | n in ns)`forward
  {
    forall k :: 0 <= k < |ns| ==> |ns[k].forward| == ns[k].level + 1
  }

  /** Every forward slot leads to the next node tall enough for its chain. */
  ghost predicate Linked(ns: seq<SkipNode>)
    requires Sized(ns)
    reads (set n: SkipNode | n in ns)`forward
  {
    forall k, i {:trigger ns[k].forward[i]} :: 0 <= k < |ns| && 0 <= i <= ns[k].level ==>
      ns[k].forward[i] == At(ns, Next(ns, k, i))
  }

  /** The nodes of chain `i` after the one at position `k`, obtained by following its `forward` pointers to the end. */
  ghost function Chain(ns: seq<SkipNode>, k: nat, i: nat): seq<SkipNode>
    requires Sized(ns) && Linked(ns) && k < |ns| && i <= ns[k].level
    reads (set n: SkipNode | n in ns)`forward
    decreases |ns| - k
  {
    var next := ns[k].forward[i];
    if next == null then [] else [next] + Chain(ns, Next(ns, k, i), i)
  }

  /** Every chain of pointers is exactly the subsequence of level 0 made of the tall enough nodes. */
  lemma {:induction false} ChainIsSubsequence(ns: seq<SkipNode>, k: nat, i: nat)
    requires Sized(ns) && Linked(ns) && k < |ns| && i <= ns[k].level
    ensures Chain(ns, k, i) == TallFrom(ns, k + 1, i)
    decreases |ns| - k
  {
    var r := Next(ns, k, i);
    NothingTall(ns, k + 1, r, i);
    assert ns[k].forward[i] == At(ns, r);
    if r < |ns| {
      ChainIsSubsequence(ns, r, i);
    }
  }

  /** Nodes that are too low contribute nothing. */
  lemma {:induction false} NothingTall(ns: seq<SkipNode>, k: nat, r: nat, i: nat)
    requires k <= r <= |ns| && forall m :: k <= m < r ==> ns[m].level < i
    ensures TallFrom(ns, k, i) == TallFrom(ns, r, i)
    decreases r - k
  {
    if k < r {
      NothingTall(ns, k + 1, r, i);
    }
  }

  /** The links of `ns` once its chains below `h` have been redirected to `x` at the nodes `us`. */
  ghost predicate Redirected(ns: seq<SkipNode>, x: SkipNode, us: seq<nat>, h: nat)
    requires Sized(ns) && h <= |us| && h <= |x.forward|
    reads (set n: SkipNode | n in ns)`forward, x`forward
  {
    && (forall j :: 0 <= j < h ==> us[j] < |ns| && x.forward[j] == At(ns, Next(ns, us[j], j)))
    && (forall k, j {:trigger ns[k].forward[j]} :: 0 <= k < |ns| && 0 <= j <= ns[k].level ==>
          ns[k].forward[j] == if j < h && us[j] == k then x else At(ns, Next(ns, k, j)))
  }

  /** Once all its chains are redirected, the list with the new node put in is linked. */
  lemma RedirectedIsLinked(ns: seq<SkipNode>, ns': seq<SkipNode>, pos: nat, x: SkipNode, us: seq<nat>)
    requires Spliced(ns, ns', pos + 1, x) && Sized(ns) && Sized(ns')
    requires Preds(ns, us, x.level, pos) && Redirected(ns, x, us, x.level + 1)
    ensures Linked(ns')
  {
    forall k, j | 0 <= k < |ns'| && 0 <= j <= ns'[k].level
      ensures ns'[k].forward[j] == At(ns', Next(ns', k, j))
    {
      if k <= pos {
        LinkUpTo(ns, ns', pos, x, us, k, j);
      } else {
        LinkBeyond(ns, ns', pos, x, us, k, j);
      }
    }
  }

  lemma LinkBeyond(ns: seq<SkipNode>, ns': seq<SkipNode>, pos: nat, x: SkipNode, us: seq<nat>, k: nat, j: nat)
    requires Spliced(ns, ns', pos + 1, x) && Sized(ns)
    requires x.level < |us| && |x.forward| == x.level + 1 && Redirected(ns, x, us, x.level + 1)
    requires j <= x.level ==> IsPred(ns, us[j], j, pos)
    requires pos < k < |ns'| && j <= ns'[k].level
    ensures j < |ns'[k].forward| && ns'[k].forward[j] == At(ns', Next(ns', k, j))
  {
    if k == pos + 1 {
      NextAcross(ns, ns', pos + 1, x, us[j], j);
    } else {
      var n := ns[k - 1];
      assert ns'[k] == n && n.forward[j] == At(ns, Next(ns, k - 1, j));
      NextBehind(ns, ns', pos + 1, x, k - 1, j);
    }
  }

  lemma LinkUpTo(ns: seq<SkipNode>, ns': seq<SkipNode>, pos: nat, x: SkipNode, us: seq<nat>, k: nat, j: nat)
    requires Spliced(ns, ns', pos + 1, x) && Sized(ns)
    requires x.level < |us| && |x.forward| == x.level + 1 && Redirected(ns, x, us, x.level + 1)
    requires j <= x.level ==> IsPred(ns, us[j], j, pos)
    requires k <= pos && j <= ns[k].level
    ensures ns[k].forward[j] == At(ns', Next(ns', k, j))
  {
    if Next(ns, k, j) <= pos {
      NextBefore(ns, ns', pos + 1, x, k, j);
    } else {
      NextAcross(ns, ns', pos + 1, x, k, j);
      if j <= x.level {
        PredIsUnique(ns, us[j], k, j, pos);
      }
    }
  }

  /** The pointer updates of an insertion: chain by chain, the new node takes over the
      predecessor's link and the predecessor is pointed at the new node. */
  method Redirect(ghost ns: seq<SkipNode>, ghost es: seq<Entry<PriceLevel>>, ghost level: nat,
                  x: SkipNode, update: seq<SkipNode?>, ghost us: seq<nat>, ghost pos: nat)
    requires Carries(ns, es, level) && Linked(ns) && x !in ns && |x.forward| == x.level + 1
    requires Path(ns, update, us, x.level, pos)
    modifies (set n: SkipNode | n in ns)`forward, x`forward
    ensures Carries(ns, es, level) && |x.forward| == x.level + 1 && Redirected(ns, x, us, x.level + 1)
  {
    var i := 0;
    while i <= x.level
      invariant 0 <= i <= x.level + 1
      invariant Carries(ns, es, level) && |x.forward| == x.level + 1 && Redirected(ns, x, us, i)
    {
      var u: SkipNode := update[i];
      RedirectOne(ns, es, level, x, u, us, i);
      i := i + 1;
    }
  }

  method RedirectOne(ghost ns: seq<SkipNode>, ghost es: seq<Entry<PriceLevel>>, ghost level: nat,
                     x: SkipNode, u: SkipNode, ghost us: seq<nat>, i: nat)
    requires Carries(ns, es, level) && x !in ns && |x.forward| == x.level + 1
    requires i <= x.level && i < |us| && us[i] < |ns| && ns[us[i]] == u && i <= u.level
    requires Redirected(ns, x, us, i)
    modifies u`forward, x`forward
    ensures Carries(ns, es, level) && |x.forward| == x.level + 1 && Redirected(ns, x, us, i + 1)
  {
    x.forward := x.forward[i := u.forward[i]];
    u.forward := u.forward[i := x];
  }

  /** The nodes carry the entries, the forward slots are linked as the heights demand and the keys are in order. */
  ghost predicate Shaped(ns: seq<SkipNode>, es: seq<Entry<PriceLevel>>, level: nat, reverse: bool)
    reads (set n: SkipNode | n in ns)`forward, (set n: SkipNode | n in ns)`value
  {
    Carries(ns, es, level) && Linked(ns) && Ordered(reverse, es)
  }

  /** Also, the top chain is in use unless it is level 0. */
  ghost predicate Represents(ns: seq<SkipNode>, es: seq<Entry<PriceLevel>>, level: nat, reverse: bool)
    reads (set n: SkipNode | n in ns)`forward, (set n: SkipNode | n in ns)`value
  {
    Shaped(ns, es, level, reverse) && (level == 0 || ns[0].forward[level] != null)
  }

  /** Above the level in use the header's slots are nil. */
  lemma UnusedSlotsAreNull(ns: seq<SkipNode>, es: seq<Entry<PriceLevel>>, level: nat, reverse: bool, i: nat)
    requires Represents(ns, es, level, reverse) && level < i <= ns[0].level
    ensures ns[0].forward[i] == null
  {
    NextIs(ns, 0, i, |ns|);
  }

  function Max(a: nat, b: nat): nat { if a < b then b else a }

  /** A redirected list with its new node put in represents the entries with the new one put in. */
  lemma RedirectedRepresents(ns: seq<SkipNode>, es: seq<Entry<PriceLevel>>, level: nat, reverse: bool,
                             ns': seq<SkipNode>, es': seq<Entry<PriceLevel>>, pos: nat, x: SkipNode, us: seq<nat>,
                             e: Entry<PriceLevel>)
    requires Carries(ns, es, level) && Distinct(ns')
    requires Max(level, x.level) <= ns[0].level && |x.forward| == x.level + 1
    requires Preds(ns, us, x.level, pos) && Redirected(ns, x, us, x.level + 1)
    requires level == 0 || Next(ns, 0, level) < |ns|
    requires Spliced(ns, ns', pos + 1, x) && InsertedAt(es, es', pos, e) && Ordered(reverse, es')
    requires x.key == e.key && x.value == e.value
    ensures Represents(ns', es', Max(level, x.level), reverse)
  {
    SplicedSized(ns, ns', pos + 1, x);
    SplicedLower(ns, ns', pos + 1, x, Max(level, x.level));
    SplicedKeyed(ns, ns', es, es', pos, x, e);
    RedirectedIsLinked(ns, ns', pos, x, us);
    if x.level < level {
      var t := Next(ns, 0, level);
      var t' := if t <= pos then t else t + 1;
      assert ns'[t'] == ns[t];
      TopChain(ns', t', level);
    } else {
      TopChain(ns', pos + 1, x.level);
    }
  }

  /** Chain `i` is in use from the header on as soon as one node is tall enough for it. */
  lemma TopChain(ns: seq<SkipNode>, q: nat, i: nat)
    requires Sized(ns) && Linked(ns) && 1 <= q < |ns| && i <= ns[0].level && i <= ns[q].level
    ensures ns[0].forward[i] != null
  {
    assert ns[0].forward[i] == At(ns, Next(ns, 0, i));
  }

  /** Links node `x` into the list after position `pos`. */
  method LinkNode(ghost ns: seq<SkipNode>, ghost es: seq<Entry<PriceLevel>>, ghost level: nat, ghost reverse: bool,
                  x: SkipNode, update: seq<SkipNode?>, ghost us: seq<nat>, ghost pos: nat, ghost lvl: PriceLevel)
    returns (ghost ns': seq<SkipNode>)
    requires Represents(ns, es, level, reverse) && Max(level, x.level) <= ns[0].level
    requires x !in ns && |x.forward| == x.level + 1 && x.value == lvl
    requires pos == Rank(reverse, es, x.key) && !Hit(reverse, es, x.key)
    requires Path(ns, update, us, x.level, pos)
    modifies (set n: SkipNode | n in ns)`forward, x`forward
    ensures Spliced(ns, ns', pos + 1, x) && (forall n :: n in ns' <==> n in ns || n == x)
    ensures Represents(ns', Prices.Insert(reverse, es, x.key, lvl), Max(level, x.level), reverse)
  {
    TopIsTall(ns, level);
    Redirect(ns, es, level, x, update, us, pos);
    ns' := Finish(ns, es, level, reverse, pos, x, us, lvl);
  }

  lemma Finish(ns: seq<SkipNode>, es: seq<Entry<PriceLevel>>, level: nat, reverse: bool,
               pos: nat, x: SkipNode, us: seq<nat>, lvl: PriceLevel) returns (ns': seq<SkipNode>)
    requires Carries(ns, es, level) && Ordered(reverse, es) && x !in ns
    requires Max(level, x.level) <= ns[0].level && |x.forward| == x.level + 1 && x.value == lvl
    requires Preds(ns, us, x.level, pos) && Redirected(ns, x, us, x.level + 1)
    requires level == 0 || Next(ns, 0, level) < |ns|
    requires pos == Rank(reverse, es, x.key) && !Hit(reverse, es, x.key)
    ensures Spliced(ns, ns', pos + 1, x) && (forall n :: n in ns' <==> n in ns || n == x)
    ensures Represents(ns', Prices.Insert(reverse, es, x.key, lvl), Max(level, x.level), reverse)
  {
    ns' := ns[..pos + 1] + [x] + ns[pos + 1..];
    var es' := Prices.Insert(reverse, es, x.key, lvl);
    SplicedNodes(ns, pos + 1, x);
    SplicedMembers(ns, ns', pos + 1, x);
    InsertKeepsOrdered(reverse, es, x.key, lvl);
    InsertShape(reverse, es, x.key, lvl);
    RedirectedRepresents(ns, es, level, reverse, ns', es', pos, x, us, Entry(x.key, lvl));
  }

  lemma TopIsTall(ns: seq<SkipNode>, level: nat)
    requires ns != [] && level <= ns[0].level && Sized(ns) && Linked(ns)
    requires level == 0 || ns[0].forward[level] != null
    ensures level == 0 || Next(ns, 0, level) < |ns|
  {
    assert ns[0].forward[level] == At(ns, Next(ns, 0, level));
  }

  /** The links of `ns` once its chains below `h` bypass the node at position `q`. */
  ghost predicate Bypassed(ns: seq<SkipNode>, q: nat, us: seq<nat>, h: nat)
    requires Sized(ns) && q < |ns| && h <= |us| && h <= ns[q].level + 1
    reads (set n: SkipNode | n in ns)`forward
  {
    forall k, j {:trigger ns[k].forward[j]} :: 0 <= k < |ns| && 0 <= j <= ns[k].level ==>
      ns[k].forward[j] == if j < h && us[j] == k then ns[q].forward[j] else At(ns, Next(ns, k, j))
  }

  /** The pointer updates of a removal stop at the first chain the node does not lie on. */
  method Bypass(ghost ns: seq<SkipNode>, ghost es: seq<Entry<PriceLevel>>, level: nat, x: SkipNode,
                update: seq<SkipNode?>, ghost us: seq<nat>, ghost pos: nat)
    requires Carries(ns, es, level) && Linked(ns)
    requires pos + 1 < |ns| && ns[pos + 1] == x
    requires Path(ns, update, us, level, pos)
    modifies (set n: SkipNode | n in ns)`forward
    ensures Carries(ns, es, level) && Bypassed(ns, pos + 1, us, x.level + 1)
  {
    var i := 0;
    while i <= level
      invariant 0 <= i <= x.level + 1 <= level + 1
      invariant Carries(ns, es, level) && Bypassed(ns, pos + 1, us, i)
      decreases level - i
    {
      PredLink(ns, us[i], i, pos);
      var u: SkipNode := update[i];
      assert u.forward[i] == At(ns, Next(ns, us[i], i));
      if u.forward[i] != x {
        break;
      }
      BypassOne(ns, es, level, x, u, us, pos, i);
      i := i + 1;
    }
  }

  method BypassOne(ghost ns: seq<SkipNode>, ghost es: seq<Entry<PriceLevel>>, ghost level: nat,
                   x: SkipNode, u: SkipNode, ghost us: seq<nat>, ghost pos: nat, i: nat)
    requires Carries(ns, es, level) && pos + 1 < |ns| && ns[pos + 1] == x
    requires i <= x.level && i < |us| && us[i] <= pos && ns[us[i]] == u && i <= u.level
    requires Bypassed(ns, pos + 1, us, i)
    modifies u`forward
    ensures Carries(ns, es, level) && Bypassed(ns, pos + 1, us, i + 1)
  {
    u.forward := u.forward[i := x.forward[i]];
  }

  /** A predecessor's link leads to the very next node when that node is tall enough, else past it. */
  lemma PredLink(ns: seq<SkipNode>, u: nat, i: nat, pos: nat)
    requires Distinct(ns) && pos + 1 < |ns| && IsPred(ns, u, i, pos)
    ensures At(ns, Next(ns, u, i)) == ns[pos + 1] <==> i <= ns[pos + 1].level
  {
    if i <= ns[pos + 1].level {
      NextIs(ns, u, i, pos + 1);
    }
  }

  /** Once bypassed on all its chains, the list without the node is linked. */
  lemma BypassedIsLinked(ns: seq<SkipNode>, ns': seq<SkipNode>, pos: nat, x: SkipNode, us: seq<nat>)
    requires Spliced(ns', ns, pos + 1, x) && Sized(ns) && Sized(ns')
    requires Preds(ns, us, x.level, pos) && Bypassed(ns, pos + 1, us, x.level + 1)
    ensures Linked(ns')
  {
    forall k, j | 0 <= k < |ns'| && 0 <= j <= ns'[k].level
      ensures ns'[k].forward[j] == At(ns', Next(ns', k, j))
    {
      if k <= pos {
        BypassUpTo(ns, ns', pos, x, us, k, j);
      } else {
        assert ns'[k] == ns[k + 1];
        assert ns[k + 1].forward[j] == At(ns, Next(ns, k + 1, j));
        NextBehind(ns', ns, pos + 1, x, k, j);
      }
    }
  }

  lemma BypassUpTo(ns: seq<SkipNode>, ns': seq<SkipNode>, pos: nat, x: SkipNode, us: seq<nat>, k: nat, j: nat)
    requires Spliced(ns', ns, pos + 1, x) && Sized(ns)
    requires x.level < |us| && Bypassed(ns, pos + 1, us, x.level + 1)
    requires j <= x.level ==> IsPred(ns, us[j], j, pos)
    requires k <= pos && j <= ns[k].level
    ensures ns[k].forward[j] == At(ns', Next(ns', k, j))
  {
    if Next(ns', k, j) <= pos {
      NextBefore(ns', ns, pos + 1, x, k, j);
    } else {
      NextAcross(ns', ns, pos + 1, x, k, j);
      if j <= x.level {
        PredIsUnique(ns, us[j], k, j, pos);
        assert x.forward[j] == At(ns, Next(ns, pos + 1, j));
      }
    }
  }

  /** Unlinks the node after position `pos` from every chain it lies on. */
  method UnlinkNode(ghost ns: seq<SkipNode>, ghost es: seq<Entry<PriceLevel>>, level: nat, ghost reverse: bool,
                    x: SkipNode, update: seq<SkipNode?>, ghost us: seq<nat>, ghost pos: nat)
    requires Shaped(ns, es, level, reverse)
    requires pos < |es| && ns[pos + 1] == x
    requires Path(ns, update, us, level, pos)
    modifies (set n: SkipNode | n in ns)`forward
    ensures Shaped(Without(ns, pos + 1), es[..pos] + es[pos + 1..], level, reverse)
  {
    Bypass(ns, es, level, x, update, us, pos);
    BypassedIsShaped(ns, es, level, reverse, x, us, pos);
  }

  lemma BypassedIsShaped(ns: seq<SkipNode>, es: seq<Entry<PriceLevel>>, level: nat, reverse: bool,
                         x: SkipNode, us: seq<nat>, pos: nat)
    requires Carries(ns, es, level) && Ordered(reverse, es)
    requires pos < |es| && ns[pos + 1] == x
    requires Preds(ns, us, x.level, pos) && Bypassed(ns, pos + 1, us, x.level + 1)
    ensures Shaped(Without(ns, pos + 1), es[..pos] + es[pos + 1..], level, reverse)
  {
    var ns', es' := Without(ns, pos + 1), es[..pos] + es[pos + 1..];
    UnsplicedNodes(ns, pos + 1);
    Cut(es, pos);
    RemovedKeepsOrdered(reverse, es, es', pos);
    SplicedSized(ns', ns, pos + 1, x);
    SplicedLower(ns', ns, pos + 1, x, level);
    SplicedKeyed(ns', ns, es', es, pos, x, es[pos]);
    BypassedIsLinked(ns, ns', pos, x, us);
  }

  ghost function Without(ns: seq<SkipNode>, q: nat): (ns': seq<SkipNode>)
    requires 1 <= q < |ns|
    ensures |ns'| == |ns| - 1 && ns'[0] == ns[0]
    ensures forall n :: n in ns' ==> n in ns
  {
    ns[..q] + ns[q + 1..]
  }

  lemma UnsplicedNodes(ns: seq<SkipNode>, q: nat)
    requires 1 <= q < |ns| && Distinct(ns)
    ensures var ns' := Without(ns, q);
      Spliced(ns', ns, q, ns[q]) && Distinct(ns')
  {
    var ns' := Without(ns, q);
    assert forall k :: 0 <= k < |ns'| ==> ns'[k] == ns[if k < q then k else k + 1];
  }

  /** An unused top chain can be dropped. */
  lemma ChainUnused(ns: seq<SkipNode>, level: nat)
    requires Sized(ns) && Linked(ns) && LowerThan(ns, level)
    requires ns != [] && 0 < level <= ns[0].level && ns[0].forward[level] == null
    ensures LowerThan(ns, level - 1)
  {
    assert ns[0].forward[level] == At(ns, Next(ns, 0, level));
  }

  /** Gives the node at position `r + 1` a new value; keys and links stay. */
  method Revalue(ghost ns: seq<SkipNode>, ghost es: seq<Entry<PriceLevel>>, ghost level: nat, ghost reverse: bool,
                 x: SkipNode, ghost r: nat, lvl: PriceLevel)
    requires Represents(ns, es, level, reverse) && r < |es| && ns[r + 1] == x
    modifies x`value
    ensures Represents(ns, es[r := Entry(es[r].key, lvl)], level, reverse)
  {
    ghost var es' := es[r := Entry(es[r].key, lvl)];
    SameKeysOrdered(reverse, es, es');
    x.value := lvl;
    assert Carries(ns, es', level);
  }

  lemma RankInside(ns: seq<SkipNode>, es: seq<Entry<PriceLevel>>, level: nat, reverse: bool, price: real)
    requires Shaped(ns, es, level, reverse)
    ensures Rank(reverse, es, price) < |ns|
  {
  }

  /** The keys before `price` are exactly those of the nodes up to its rank. */
  lemma NodesBefore(ns: seq<SkipNode>, es: seq<Entry<PriceLevel>>, level: nat, reverse: bool, price: real)
    requires Shaped(ns, es, level, reverse)
    ensures Rank(reverse, es, price) < |ns|
    ensures forall k :: 1 <= k < |ns| ==>
      (Compare(reverse, ns[k].key, price) < 0 <==> k <= Rank(reverse, es, price))
  {
    RankSplits(reverse, es, price);
  }

  /** Following a link of chain `i` from position `c`. */
  lemma Follow(ns: seq<SkipNode>, es: seq<Entry<PriceLevel>>, level: nat, reverse: bool, c: nat, i: nat)
    requires Shaped(ns, es, level, reverse) && c < |ns| && i <= ns[c].level
    ensures ns[c].forward[i] == At(ns, Next(ns, c, i)) && i < |ns[c].forward|
  {
  }

  /** Where a descent for `price` lands: the next node on level 0 decides whether it is a hit. */
  lemma Landing(ns: seq<SkipNode>, es: seq<Entry<PriceLevel>>, level: nat, reverse: bool, price: real)
    requires Shaped(ns, es, level, reverse)
    ensures var pos := Rank(reverse, es, price);
      && pos < |ns| && ns[pos].forward != [] && ns[pos].forward[0] == At(ns, pos + 1)
      && (Hit(reverse, es, price) <==> pos + 1 < |ns| && Compare(reverse, ns[pos + 1].key, price) == 0)
      && (pos + 1 < |ns| ==> ns[pos + 1].value == es[pos].value)
  {
    var pos := Rank(reverse, es, price);
    Follow(ns, es, level, reverse, pos, 0);
    NextIs(ns, pos, 0, pos + 1);
  }

  /** On level 0 every link leads to the next node. */
  lemma Successor(ns: seq<SkipNode>, es: seq<Entry<PriceLevel>>, level: nat, reverse: bool, k: nat)
    requires Shaped(ns, es, level, reverse) && k < |ns|
    ensures ns[k].forward != [] && ns[k].forward[0] == At(ns, k + 1)
    ensures k > 0 ==> ns[k].key == es[k - 1].key && ns[k].value == es[k - 1].value
  {
    NextIs(ns, k, 0, k + 1);
  }

  /** Beyond the header, consecutive keys of a chain are always in order; at the header, only
      the first key of level 0 decides. */
  lemma ChainCheck(ns: seq<SkipNode>, es: seq<Entry<PriceLevel>>, level: nat, reverse: bool, c: nat, i: nat)
    requires Shaped(ns, es, level, reverse) && ns[0].key == 0.0
    requires c < |ns| && Next(ns, c, i) < |ns|
    ensures var d := Next(ns, c, i);
      && (c > 0 ==> Compare(reverse, ns[c].key, ns[d].key) < 0)
      && (c == 0 && Compare(reverse, ns[0].key, ns[d].key) > 0 ==> Compare(reverse, 0.0, es[0].key) > 0)
      && (i == 0 && c == 0 ==> d == 1 && ns[d].key == es[0].key)
  {
    var d := Next(ns, c, i);
    if c > 0 {
      assert Compare(reverse, es[c - 1].key, es[d - 1].key) < 0;
    } else if d > 1 {
      assert Compare(reverse, es[0].key, es[d - 1].key) < 0;
    }
    if i == 0 {
      NextIs(ns, c, 0, c + 1);
    }
  }
}
