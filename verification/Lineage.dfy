/** Forests whose nodes name an earlier node as parent: who descends from whom. */
module Lineage {
  import opened Prelude

  // Node i's parent, if any, is an earlier node.
  type Parents = seq<Option<nat>>

  function Root(ps: Parents, i: nat): (r: nat)
    requires i < |ps|
    ensures r <= i
    decreases i
  {
    if ps[i].Some? && ps[i].value < i then Root(ps, ps[i].value) else i
  }

  predicate Ancestor(ps: Parents, i: nat, j: nat)
    requires i < |ps| && j < |ps|
    decreases j
  {
    i == j || (ps[j].Some? && ps[j].value < j && Ancestor(ps, i, ps[j].value))
  }

  lemma {:induction false} AncestorIsEarlier(ps: Parents, i: nat, j: nat)
    requires i < |ps| && j < |ps| && Ancestor(ps, i, j)
    ensures i <= j && Root(ps, i) == Root(ps, j)
    decreases j
  {
    if i != j {
      AncestorIsEarlier(ps, i, ps[j].value);
    }
  }

  /** The root of a node is the one node at or above it that has no parent, and being an ancestor is being the node
      itself or an ancestor of its parent. */
  lemma {:induction false} RootIsTop(ps: Parents, i: nat)
    requires i < |ps| && forall k: nat :: k < |ps| && ps[k].Some? ==> ps[k].value < k
    ensures ps[Root(ps, i)].None? && Ancestor(ps, Root(ps, i), i)
    ensures forall k: nat :: k < |ps| && Ancestor(ps, k, i) && ps[k].None? ==> k == Root(ps, i)
    decreases i
  {
    if ps[i].Some? {
      RootIsTop(ps, ps[i].value);
    }
  }

  // Adding a node changes nothing among the earlier ones.
  lemma {:induction false} AppendStable(ps: Parents, p: Option<nat>, i: nat, j: nat)
    requires i < |ps| && j < |ps|
    ensures Root(ps + [p], j) == Root(ps, j)
    ensures Ancestor(ps + [p], i, j) <==> Ancestor(ps, i, j)
    decreases j
  {
    if ps[j].Some? && ps[j].value < j {
      AppendStable(ps, p, i, ps[j].value);
    }
  }

  // Of two nodes with the same root the earlier is closed and an ancestor of the later:
  // every tree is a single path, and only its newest node can be open.
  ghost predicate Chain(ps: Parents, closed: seq<bool>)
    requires |closed| == |ps|
  {
    forall i: nat, j: nat {:trigger Root(ps, i), Root(ps, j)} ::
      i < j < |ps| && Root(ps, i) == Root(ps, j) ==> closed[i] && Ancestor(ps, i, j)
  }

  lemma CloseKeepsChain(ps: Parents, before: seq<bool>, after: seq<bool>)
    requires |before| == |after| == |ps| && Chain(ps, before)
    requires forall i :: 0 <= i < |ps| && before[i] ==> after[i]
    ensures Chain(ps, after)
  {
  }

  lemma NewRootKeepsChain(ps: Parents, closed: seq<bool>)
    requires |closed| == |ps| && Chain(ps, closed)
    ensures Chain(ps + [None], closed + [false])
  {
    var ps', closed' := ps + [None], closed + [false];
    forall i: nat, j: nat {:trigger Root(ps', i), Root(ps', j)} | i < j < |ps'| && Root(ps', i) == Root(ps', j)
      ensures closed'[i] && Ancestor(ps', i, j)
    {
      AppendStable(ps, None, i, i);
      if j < |ps| { AppendStable(ps, None, i, j); }
    }
  }

  // Replacing an open node by a child of it, the node itself closed.
  lemma RotateKeepsChain(ps: Parents, closed: seq<bool>, p: nat)
    requires |closed| == |ps| && Chain(ps, closed) && p < |ps| && !closed[p]
    ensures Chain(ps + [Some(p)], closed[p := true] + [false])
  {
    var n := |ps|;
    var ps', closed' := ps + [Some(p)], closed[p := true] + [false];
    forall i: nat, j: nat {:trigger Root(ps', i), Root(ps', j)} | i < j < |ps'| && Root(ps', i) == Root(ps', j)
      ensures closed'[i] && Ancestor(ps', i, j)
    {
      AppendStable(ps, Some(p), i, if j < n then j else p);
      AppendStable(ps, Some(p), i, i);
      if j == n {
        assert Root(ps, i) == Root(ps, p);
      }
    }
  }

  /** No branching: two nodes never share a parent. */
  lemma ChainHasNoForks(ps: Parents, closed: seq<bool>, i: nat, j: nat)
    requires |closed| == |ps| && Chain(ps, closed)
    requires i < j < |ps| && ps[i].Some? && ps[i].value < i
    ensures ps[i] != ps[j]
  {
    if ps[i] == ps[j] {
      assert Root(ps, i) == Root(ps, j);
      AncestorIsEarlier(ps, i, ps[j].value);
    }
  }
}
