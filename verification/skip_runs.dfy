/** Whole runs of the pointer structure, for every sequence of random heights. */
module SkipRuns {
  import opened SortedMaps
  import opened SkipNodes
  import opened SkipTrees

  method ApplyOne(tree: SkipTree, op: Op<PriceLevel>)
    requires tree.Valid()
    modifies tree, tree.nodes
    ensures tree.Valid() && tree.entries == Step(tree.reverse, old(tree.entries), op)
    ensures forall i :: 0 <= i < |tree.nodes| ==> tree.nodes[i] in old(tree.nodes) || fresh(tree.nodes[i])
  {
    match op
    case Put(p, lvl) => tree.Insert(p, lvl);
    case Del(p) => tree.Remove(p);
    case Wipe => tree.Clear();
  }

  /** Any run of inserts, removals and clears leaves the entries that `Run` computes without
      looking at node heights. */
  method Apply(tree: SkipTree, ops: seq<Op<PriceLevel>>)
    requires tree.Valid() && tree.entries == []
    modifies tree, tree.nodes
    ensures tree.Valid() && tree.entries == Run(tree.reverse, ops)
    ensures forall i :: 0 <= i < |tree.nodes| ==> tree.nodes[i] in old(tree.nodes) || fresh(tree.nodes[i])
  {
    if ops != [] {
      Apply(tree, ops[..|ops| - 1]);
      ApplyOne(tree, ops[|ops| - 1]);
    }
  }

  /** On a tick grid, a tree driven through any run answers lookups as a map does. */
  method ApplyThenGet(tree: SkipTree, ops: seq<Op<PriceLevel>>, p: real, ghost grid: iset<real>)
    returns (lvl: PriceLevel?, n: nat)
    requires tree.Valid() && tree.entries == []
    requires Spaced(grid) && OpsOnGrid(ops, grid) && p in grid
    modifies tree, tree.nodes
    ensures var m := MapRun(ops); lvl == (if p in m then m[p] else null) && n == |m|
    ensures tree.Valid() && Lists(tree.entries, MapRun(ops))
  {
    Apply(tree, ops);
    RunRefinesMap(tree.reverse, ops, grid);
    GetRefinesMap(tree.reverse, ops, p, grid);
    lvl := tree.Get(p);
    n := tree.Len();
  }

  /** An ascending tree of positive prices passes the integrity check. */
  method ValidateAscending(tree: SkipTree) returns (ok: bool)
    requires tree.Valid() && !tree.reverse
    requires forall i :: 0 <= i < |tree.entries| ==> tree.entries[i].key > 0.0
    ensures ok
  {
    ok := tree.Validate();
  }
}
