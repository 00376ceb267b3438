/**
 ConcurrentSkipList with its writers one after another, as their validated locks make them.

 Every setSkip store of a writer is recorded in `trace`, so a statement about all of `trace` is one about
 every state another thread can see.  The height of a new node and the decision to grow the head are
 arbitrary inputs.
 */
module SkipLists {
  import opened Common
  import opened SkipListLayout

  /** The keys linked in the bottom layer. */
  function LinkedKeys(L: Layout): (s: set<int>)
    requires NodesOk(L)
  {
    set i | 1 <= i < |L.chain| && L.levs[i] > 0 :: KeyAt(L, i)
  }

  /** Same nodes with the same keys, heights and flags. */
  predicate SameNodes(a: map<Ptr, Node>, b: map<Ptr, Node>) {
    && a.Keys == b.Keys
    && (forall p | p in a :: b[p] == a[p].(skip := b[p].skip) && |b[p].skip| == |a[p].skip|)
  }

  lemma SolidKeys(L: Layout)
    requires NodesOk(L) && Solid(L)
    ensures LinkedKeys(L) == Keys(L)
  {
    forall x
      ensures x in LinkedKeys(L) <==> x in Keys(L)
    {
      if x in Keys(L) {
        var i :| 1 <= i < |L.chain| && KeyAt(L, i) == x;
        assert L.levs[i] > 0;
      }
    }
  }

  lemma LinkedKeysSame(L: Layout, r: Layout)
    requires NodesOk(L) && NodesOk(r) && r.chain == L.chain
    requires forall i | 1 <= i < |L.chain| :: KeyAt(r, i) == KeyAt(L, i) && (r.levs[i] > 0 <==> L.levs[i] > 0)
    ensures LinkedKeys(r) == LinkedKeys(L)
  {
    forall x
      ensures x in LinkedKeys(r) <==> x in LinkedKeys(L)
    {
      if x in LinkedKeys(L) {
        var i :| 1 <= i < |L.chain| && L.levs[i] > 0 && KeyAt(L, i) == x;
        assert r.levs[i] > 0 && KeyAt(r, i) == x;
      }
      if x in LinkedKeys(r) {
        var i :| 1 <= i < |L.chain| && r.levs[i] > 0 && KeyAt(r, i) == x;
        assert L.levs[i] > 0 && KeyAt(L, i) == x;
      }
    }
  }

  /** A state that another thread can see: well-formed layers holding exactly `keys`. */
  ghost predicate Shows(L: Layout, keys: set<int>) {
    WellFormed(L) && LinkedKeys(L) == keys
  }

  lemma EnterKeepsLinked(L: Layout, r: Layout, pos: nat, p: Ptr, x: int)
    requires NodesOk(L) && NodesOk(r) && Enters(L, r, pos, p) && 0 < pos && x in LinkedKeys(L)
    ensures x in LinkedKeys(r)
  {
    hide Distinct;
    var i :| 1 <= i < |L.chain| && L.levs[i] > 0 && KeyAt(L, i) == x;
    assert r.levs[Shifted(pos, i)] > 0 && KeyAt(r, Shifted(pos, i)) == x;
  }

  lemma EnterAddsNoLinked(L: Layout, r: Layout, pos: nat, p: Ptr, x: int)
    requires NodesOk(L) && NodesOk(r) && Enters(L, r, pos, p) && 0 < pos && x in LinkedKeys(r)
    ensures x in LinkedKeys(L)
  {
    hide Distinct;
    var i :| 1 <= i < |r.chain| && r.levs[i] > 0 && KeyAt(r, i) == x;
    var j := if i < pos then i else i - 1;
    assert L.levs[j] > 0 && KeyAt(L, j) == x;
  }

  lemma EnterLinksNothing(L: Layout, r: Layout, pos: nat, p: Ptr)
    requires NodesOk(L) && NodesOk(r) && Enters(L, r, pos, p) && 0 < pos
    ensures LinkedKeys(r) == LinkedKeys(L)
  {
    hide LinkedKeys;
    forall x
      ensures x in LinkedKeys(r) <==> x in LinkedKeys(L)
    {
      if x in LinkedKeys(L) {
        EnterKeepsLinked(L, r, pos, p, x);
      }
      if x in LinkedKeys(r) {
        EnterAddsNoLinked(L, r, pos, p, x);
      }
    }
  }

  lemma SameNodesKeys(L: Layout, r: Layout)
    requires NodesOk(L) && NodesOk(r) && r.chain == L.chain && SameNodes(L.nodes, r.nodes)
    ensures Keys(r) == Keys(L)
  {
    KeysSame(L, r);
  }

  lemma SameNodesRefl(a: map<Ptr, Node>)
    ensures SameNodes(a, a)
  {
  }

  lemma SameNodesTrans(a: map<Ptr, Node>, b: map<Ptr, Node>, c: map<Ptr, Node>)
    requires SameNodes(a, b) && SameNodes(b, c)
    ensures SameNodes(a, c)
  {
  }

  lemma SameHeight(a: map<Ptr, Node>, b: map<Ptr, Node>, p: Ptr)
    requires SameNodes(a, b) && p in a
    ensures p in b && |b[p].skip| == |a[p].skip|
  {
  }

  lemma FormShows(L: Layout)
    requires WellFormed(L)
    ensures Shows(L, LinkedKeys(L))
  {
  }

  lemma ShownForm(L: Layout, keys: set<int>)
    requires Shows(L, keys)
    ensures WellFormed(L) && LinkedKeys(L) == keys
  {
  }

  /** The states recorded since `before`: the first shows `first`, the others `rest`. */
  ghost predicate Recorded(trace: seq<Layout>, before: seq<Layout>, first: set<int>, rest: set<int>) {
    && |before| < |trace| && trace[..|before|] == before && Shows(trace[|before|], first)
    && forall i | |before| < i < |trace| :: Shows(trace[i], rest)
  }

  lemma RecordsTwo(trace: seq<Layout>, before: seq<Layout>, first: set<int>, rest: set<int>, a: Layout, b: Layout)
    requires Shows(b, rest)
    requires if trace == before then Shows(a, first) else Recorded(trace, before, first, rest) && Shows(a, rest)
    ensures Recorded(trace + [a, b], before, first, rest)
  {
    hide Shows;
    var t := trace + [a, b];
    assert t[..|before|] == trace[..|before|];
  }

  /** The neighbours of position `pos` in a layer do not depend on how far its node is linked. */
  lemma NeighboursStay(levs: seq<nat>, pos: nat, v: nat, l: nat)
    requires 0 < pos < |levs| && l < levs[0]
    ensures PredPos(levs[pos := v], l, pos) == PredPos(levs, l, pos)
    ensures NextPos(levs[pos := v], l, pos + 1) == NextPos(levs, l, pos + 1)
  {
    PredPosIs(levs[pos := v], l, pos, PredPos(levs, l, pos));
    NextPosIs(levs[pos := v], l, pos + 1, NextPos(levs, l, pos + 1));
  }

  lemma EnteredNeighbours(L: Layout, r: Layout, pos: nat, p: Ptr, l: nat)
    requires NodesOk(L) && Enters(L, r, pos, p) && 0 < pos && l < L.levs[0]
    ensures l < r.levs[0] && r.chain[PredPos(r.levs, l, pos)] == L.chain[PredPos(L.levs, l, pos)]
    ensures PtrAt(r.chain, NextPos(r.levs, l, pos + 1)) == PtrAt(L.chain, NextPos(L.levs, l, pos))
  {
    PredPosIs(r.levs, l, pos, PredPos(L.levs, l, pos));
    EnteredNext(L, r, pos, p, l, pos);
  }

  /** Where a search for `x` that starts at position `c` ends: at the bound, or next to a start that is past it. */
  function Reach(L: Layout, x: int, c: nat): (b: nat)
    requires NodesOk(L) && c < |L.chain|
    ensures c < b <= |L.chain|
  {
    if c < Bound(L, x) then Bound(L, x) else c + 1
  }

  /** What a reader sees of a well-formed list in the middle of a store sequence: the nodes linked at the bottom are a
      list of their own in the same memory, under the same head. */
  lemma {:induction false} LinkedPart(L: Layout) returns (r: Layout)
    requires WellFormed(L)
    ensures WellFormed(r) && Solid(r) && r.nodes == L.nodes && r.chain[0] == L.chain[0] && Keys(r) == LinkedKeys(L)
    decreases |L.chain|
  {
    hide LinksOk, Sorted, LinkedKeys, Keys, Enters;
    if Solid(L) {
      r := L;
      SolidKeys(L);
    } else {
      var pos :| 0 <= pos < |L.levs| && L.levs[pos] < 1;
      var l := WithoutUnlinked(L, pos);
      r := LinkedPart(l);
    }
  }

  lemma WithoutUnlinked(L: Layout, pos: nat) returns (r: Layout)
    requires WellFormed(L) && pos < |L.levs| && L.levs[pos] == 0
    ensures WellFormed(r) && LinkedKeys(r) == LinkedKeys(L) && |r.chain| < |L.chain|
    ensures r.nodes == L.nodes && r.chain[0] == L.chain[0]
  {
    hide LinksOk, Sorted, LinkedKeys;
    r := Left(L, pos);
    LeaveKeepsForm(r, L, pos, L.chain[pos]);
    EnterLinksNothing(r, L, pos, L.chain[pos]);
  }

  /** The linked node with the least key that is not below `x`. */
  ghost predicate IsLeastFrom(L: Layout, x: int, node: Option<Ptr>)
    requires NodesOk(L)
  {
    match node
    case None => forall y | y in LinkedKeys(L) :: y < x
    case Some(n) =>
      && n in L.nodes && L.nodes[n].key in LinkedKeys(L) && L.nodes[n].key >= x
      && forall y | y in LinkedKeys(L) && y >= x :: y >= L.nodes[n].key
  }

  lemma BoundIsLeast(L: Layout, r: Layout, x: int)
    requires WellFormed(L) && WellFormed(r) && r.nodes == L.nodes && Keys(r) == LinkedKeys(L)
    ensures IsLeastFrom(L, x, PtrAt(r.chain, Bound(r, x)))
  {
    hide LinksOk, LinkedKeys, Bound, Distinct;
    var b := Bound(r, x);
    if b < |r.chain| {
      BoundSplits(r, x, b);
      assert KeyAt(r, b) in Keys(r);
    }
    forall y | y in Keys(r)
      ensures b == |r.chain| ==> y < x
      ensures b < |r.chain| && y >= x ==> y >= KeyAt(r, b)
    {
      var i :| 1 <= i < |r.chain| && KeyAt(r, i) == y;
      BoundSplits(r, x, i);
    }
  }

  /** find in any state between two stores, which need not be one where every node is linked: the answer is that
      of the keys linked at the bottom. */
  method FindBetweenStores(nodes: map<Ptr, Node>, head: Ptr, x: int, downRight: bool, ghost L: Layout)
    returns (node: Option<Ptr>, found: bool)
    requires WellFormed(L) && L.nodes == nodes && L.chain[0] == head
    ensures (found <==> x in LinkedKeys(L)) && IsLeastFrom(L, x, node)
  {
    hide LinksOk, Sorted, LinkedKeys, Keys, IsLeastFrom, Bound;
    ghost var r := LinkedPart(L);
    var list := new SkipList.Of(nodes, head, r);
    if downRight {
      node, found := list.FindNodeDownRight(x);
    } else {
      node, found := list.FindNodeRightDown(x);
    }
    BoundIsLeast(L, r, x);
  }

  class SkipList {
    var nodes: map<Ptr, Node>
    var head: Ptr
    var size: nat
    var nextPtr: Ptr                 // the allocator
    ghost var chain: seq<Ptr>
    ghost var levs: seq<nat>
    ghost var trace: seq<Layout>

    ghost function View(): (L: Layout)
      reads this
    {
      Layout(nodes, chain, levs)
    }

    /** The layers are well formed and every node is linked at least at the bottom. */
    ghost predicate Searchable()
      reads this
    {
      WellFormed(View()) && Solid(View()) && chain[0] == head
    }

    /** No writer is active. */
    ghost predicate Valid()
      reads this
    {
      && Searchable() && size == |chain| - 1
      && (forall p | p in nodes :: p < nextPtr)
      && (forall i | 0 <= i < |chain| :: AtRest(View(), i))
    }

    ghost function Contents(): (s: set<int>)
      reads this
      requires Valid()
    {
      Keys(View())
    }

    /** An empty list with a head of the given height. */
    constructor (height: nat)
      requires height > 0
      ensures Valid() && Contents() == {} && size == 0 && trace == [] && levs == [height]
    {
      nodes := map[0 := Node(0, seq(height, _ => None), false, false)];
      head, size, nextPtr := 0, 0, 1;
      chain, levs, trace := [0], [height], [];
      new;
      forall k: nat | k < height
        ensures LinkOk(View(), 0, k)
      {
        NextPosIs(levs, k, 1, 1);
      }
      assert AtRest(View(), 0);
    }

    /** The list in a given memory. */
    constructor Of(nodes: map<Ptr, Node>, head: Ptr, ghost L: Layout)
      requires WellFormed(L) && Solid(L) && L.nodes == nodes && L.chain[0] == head
      ensures Searchable() && View() == L
    {
      this.nodes, this.head, size, nextPtr := nodes, head, 0, 0;
      chain, levs, trace := L.chain, L.levs, [];
    }

    predicate Greater(x: int, node: Option<Ptr>)
      reads this
      requires node.Some? ==> node.value in nodes
    {
      node.Some? && nodes[node.value].key < x
    }

    predicate Less(x: int, node: Option<Ptr>)
      reads this
      requires node.Some? ==> node.value in nodes
    {
      node.None? || x < nodes[node.value].key
    }

    // ------------------------------------------------------------------ searching

    /** A node at a position before the bound and the layer's next pointer of it. */
    ghost predicate Cursor(pred: Ptr, node: Option<Ptr>, layer: nat, p: nat)
      reads this
      requires Searchable()
    {
      && p < |chain| && pred == chain[p] && levs[p] > layer
      && node == PtrAt(chain, NextPos(levs, layer, p + 1))
    }

    lemma NextOf(pred: Ptr, layer: nat, p: nat)
      requires Searchable() && p < |chain| && pred == chain[p] && levs[p] > layer
      ensures pred in nodes && layer < |nodes[pred].skip| && Cursor(pred, nodes[pred].skip[layer], layer, p)
    {
      assert LinkOk(View(), p, layer);
    }

    lemma AtBound(x: int, layer: nat, p: nat)
      requires Searchable() && p < Bound(View(), x) && p < |chain| && levs[p] > layer
      requires var np := NextPos(levs, layer, p + 1); np < |chain| ==> KeyAt(View(), np) >= x
      ensures layer < levs[0] && p == PredPos(levs, layer, Bound(View(), x))
      ensures NextPos(levs, layer, p + 1) == NextPos(levs, layer, Bound(View(), x))
    {
      var b, np := Bound(View(), x), NextPos(levs, layer, p + 1);
      if np < |chain| {
        BoundSplits(View(), x, np);
      }
      PredPosIs(levs, layer, b, p);
      NextPosIs(levs, layer, b, np);
    }

    /** A start past the bound is not left: nothing behind it is smaller. */
    lemma PastBound(x: int, layer: nat, p: nat, node: Option<Ptr>)
      requires Searchable() && p < |chain| && levs[p] > layer && p >= Bound(View(), x)
      requires node == PtrAt(chain, NextPos(levs, layer, p + 1))
      ensures node.Some? ==> node.value in nodes
      ensures !Greater(x, node) && Less(x, node)
      ensures layer < levs[0] && p == PredPos(levs, layer, p + 1)
    {
      var np := NextPos(levs, layer, p + 1);
      BoundSplits(View(), x, p);
      if np < |chain| {
        assert KeyAt(View(), p) < KeyAt(View(), np);
      }
      PredPosIs(levs, layer, p + 1, p);
    }

    /** The inner loop of all three searches: walk right in one layer while the key there is smaller. */
    method WalkRight(pred0: Ptr, node0: Option<Ptr>, layer: nat, x: int, ghost p0: nat)
      returns (pred: Ptr, node: Option<Ptr>, ghost p: nat)
      requires Searchable() && Cursor(pred0, node0, layer, p0)
      ensures layer < levs[0] && p0 <= p == PredPos(levs, layer, Reach(View(), x, p0)) && Cursor(pred, node, layer, p)
      ensures node == PtrAt(chain, NextPos(levs, layer, Reach(View(), x, p0)))
      ensures !Greater(x, node)
      ensures Reach(View(), x, p) == Reach(View(), x, p0) && (p < Bound(View(), x) <==> p0 < Bound(View(), x))
    {
      pred, node, p := pred0, node0, p0;
      if p0 >= Bound(View(), x) {
        PastBound(x, layer, p, node);
      }
      while Greater(x, node)
        invariant Cursor(pred, node, layer, p) && p0 <= p
        invariant if p0 < Bound(View(), x) then p < Bound(View(), x) else p == p0 && !Greater(x, node)
        decreases |chain| - p
      {
        p := NextPos(levs, layer, p + 1);
        BoundSplits(View(), x, p);
        pred := node.value;
        NextOf(pred, layer, p);
        node := nodes[pred].skip[layer];
      }
      if p0 < Bound(View(), x) {
        AtBound(x, layer, p);
      }
    }

    /** What a walk in one layer has found: the next node is the bound's node if the keys are equal, and in the
        bottom layer always. */
    lemma WalkResult(x: int, layer: nat, node: Option<Ptr>)
      requires Searchable() && layer < levs[0] && node == PtrAt(chain, NextPos(levs, layer, Bound(View(), x)))
      ensures node.Some? ==> node.value in nodes
      ensures !Less(x, node) && !Greater(x, node) ==> x in Keys(View()) && node == PtrAt(chain, Bound(View(), x))
      ensures x in Keys(View()) && levs[Bound(View(), x)] > layer ==> !Less(x, node) && !Greater(x, node)
      ensures layer == 0 ==> node == PtrAt(chain, Bound(View(), x))
      ensures layer == 0 && Less(x, node) ==> x !in Keys(View())
    {
      var b := Bound(View(), x);
      PresentAtBound(View(), x);
      var np := NextPos(levs, layer, b);
      if b < np < |chain| {
        assert KeyAt(View(), b) < KeyAt(View(), np);
      }
    }

    method FindNodeRightDown(x: int) returns (node: Option<Ptr>, found: bool)
      requires Searchable()
      ensures node == PtrAt(chain, Bound(View(), x)) && (found <==> x in Keys(View()))
    {
      hide LinksOk, Sorted, NextPos, PredPos, Keys, Bound, Distinct;
      var pred := head;
      node := None;
      found := false;
      var layer: nat := |nodes[head].skip|;
      ghost var p := 0;
      while !found && layer > 0
        invariant layer <= levs[0] && p < |chain| && pred == chain[p] && levs[p] >= layer && p < Bound(View(), x)
        invariant found ==> node == PtrAt(chain, Bound(View(), x)) && x in Keys(View())
        invariant !found && layer == 0 ==> node == PtrAt(chain, Bound(View(), x)) && x !in Keys(View())
        decreases layer
      {
        layer := layer - 1;
        NextOf(pred, layer, p);
        node := nodes[pred].skip[layer];
        pred, node, p := WalkRight(pred, node, layer, x, p);
        WalkResult(x, layer, node);
        found := !Less(x, node);
      }
    }

    lemma StopAtBottom(x: int, node: Option<Ptr>, p: nat)
      requires Searchable() && p < |chain| && Cursor(chain[p], node, 0, p) && p < Bound(View(), x)
      requires (node.Some? ==> node.value in nodes) && Less(x, node)
      ensures node == PtrAt(chain, Bound(View(), x)) && x !in Keys(View())
    {
      AtBound(x, 0, p);
      WalkResult(x, 0, node);
    }

    method FindNodeDownRight(x: int) returns (node: Option<Ptr>, found: bool)
      requires Searchable()
      ensures node == PtrAt(chain, Bound(View(), x)) && (found <==> x in Keys(View()))
    {
      hide LinksOk, Sorted, NextPos, PredPos, Keys, Bound, Distinct;
      var pred := head;
      var ht: nat := |nodes[pred].skip|;
      node := None;
      found := false;
      ghost var p := 0;
      while !found
        invariant ht <= levs[0] && p < |chain| && pred == chain[p] && levs[p] >= ht && p < Bound(View(), x)
        invariant found ==> node == PtrAt(chain, Bound(View(), x)) && x in Keys(View())
        invariant !found && ht < levs[0] ==> Cursor(pred, node, ht, p) && Less(x, node)
        decreases ht, !found
      {
        // stepping down
        while ht > 0
          invariant ht <= levs[0] && levs[p] >= ht
          invariant ht < levs[0] ==> Cursor(pred, node, ht, p) && Less(x, node)
          decreases ht
        {
          NextOf(pred, ht - 1, p);
          node := nodes[pred].skip[ht - 1];
          if !Less(x, node) {
            break;
          }
          ht := ht - 1;
        }
        if ht == 0 {
          StopAtBottom(x, node, p);
          return;
        }
        ht := ht - 1;
        // stepping right
        pred, node, p := WalkRight(pred, node, ht, x, p);
        WalkResult(x, ht, node);
        found := !Less(x, node);
      }
    }

    /** The neighbours of position `b` in layer `l`. */
    ghost predicate Beside(b: nat, l: nat, pred: Ptr, succ: Option<Ptr>)
      reads this
      requires Searchable() && 0 < b <= |chain|
    {
      l < levs[0] && pred == chain[PredPos(levs, l, b)] && succ == PtrAt(chain, NextPos(levs, l, b))
    }

    /** What preds[l] and succs[l] hold after a search for `x`. */
    ghost predicate Around(x: int, l: nat, pred: Ptr, succ: Option<Ptr>)
      reads this
      requires Searchable()
    {
      Beside(Bound(View(), x), l, pred, succ)
    }

    /** The highest layer, from `top` down, in which `x` is linked; -1 if it is absent. */
    ghost function FoundLayer(x: int, top: nat): (f: int)
      reads this
      requires Searchable()
      ensures -1 <= f <= top
    {
      var b := Bound(View(), x);
      if x !in Keys(View()) || b >= |levs| then -1 else if levs[b] > top then top else levs[b] - 1
    }

    /** The layer in which a search from position `c` finds `x`: none if it starts past the bound. */
    ghost function FoundFrom(x: int, top: nat, c: nat): (f: int)
      reads this
      requires Searchable()
      ensures -1 <= f <= top
    {
      if c < Bound(View(), x) then FoundLayer(x, top) else -1
    }

    /** What the search knows after it has dealt with the layers from `layer` up. */
    ghost predicate FoundSoFar(x: int, top: nat, layer: nat, foundLayer: int, foundNode: Option<Ptr>, c: nat)
      reads this
      requires Searchable()
    {
      if foundLayer == -1 then foundNode == None && FoundFrom(x, top, c) < layer
      else foundLayer == FoundFrom(x, top, c) >= layer && foundNode == PtrAt(chain, Bound(View(), x)) && foundNode.Some?
    }

    /** One layer of the search: what the walk found, and which successor is recorded. */
    lemma LayerResult(x: int, top: nat, layer: nat, foundLayer: int, foundNode: Option<Ptr>, node: Option<Ptr>, c: nat)
      requires Searchable() && layer <= top < levs[0] && c < |chain|
      requires FoundSoFar(x, top, layer + 1, foundLayer, foundNode, c)
      requires levs[c] > layer || c < Bound(View(), x)
      requires node == PtrAt(chain, NextPos(levs, layer, Reach(View(), x, c)))
      ensures node.Some? ==> node.value in nodes
      ensures var hit := foundLayer == -1 && !Less(x, node);
              !Greater(x, node) ==>
                && FoundSoFar(x, top, layer, if hit then layer else foundLayer, if hit then node else foundNode, c)
                && (foundNode.Some? ==> foundNode == node)
    {
      if c < Bound(View(), x) {
        WalkResult(x, layer, node);
        PresentAtBound(View(), x);
      } else {
        PastBound(x, layer, c, node);
      }
    }

    /** The body of findInsertionPoint's loop. */
    method SearchLayer(pred0: Ptr, layer: nat, x: int, top: nat, foundLayer0: int, foundNode0: Option<Ptr>,
                       ghost p0: nat)
      returns (pred: Ptr, succ: Option<Ptr>, foundLayer: int, foundNode: Option<Ptr>, ghost p: nat)
      requires Searchable() && p0 < |chain| && pred0 == chain[p0] && levs[p0] > layer
      requires layer <= top < levs[0] && FoundSoFar(x, top, layer + 1, foundLayer0, foundNode0, p0)
      ensures p < |chain| && pred == chain[p] && levs[p] > layer && Reach(View(), x, p) == Reach(View(), x, p0)
      ensures p < Bound(View(), x) <==> p0 < Bound(View(), x)
      ensures FoundSoFar(x, top, layer, foundLayer, foundNode, p0)
      ensures Beside(Reach(View(), x, p0), layer, pred, succ)
    {
      hide LinksOk, Sorted, NextPos, PredPos, Keys, Bound, Distinct, FoundLayer, Reach, FoundFrom;
      foundLayer, foundNode := foundLayer0, foundNode0;
      NextOf(pred0, layer, p0);
      var node := nodes[pred0].skip[layer];
      pred, node, p := WalkRight(pred0, node, layer, x, p0);
      LayerResult(x, top, layer, foundLayer, foundNode, node, p0);
      if foundLayer == -1 && !Less(x, node) {
        foundLayer := layer;
        foundNode := node;
      }
      succ := if foundNode.Some? then foundNode else node;
    }

    /** The search may start at any node of its layer; one that starts past the bound stays where it is. */
    method FindInsertionPoint(cur: Ptr, curLayer: nat, x: int, preds: array<Ptr>, succs: array<Option<Ptr>>,
                              ghost c: nat)
      returns (foundLayer: int)
      requires Searchable() && c < |chain| && cur == chain[c] && levs[c] > curLayer
      requires curLayer < preds.Length && curLayer < succs.Length
      modifies preds, succs
      ensures foundLayer == FoundFrom(x, curLayer, c)
      ensures forall l | 0 <= l <= curLayer :: Beside(Reach(View(), x, c), l, preds[l], succs[l])
      ensures forall l | curLayer < l < preds.Length :: preds[l] == old(preds[l])
      ensures forall l | curLayer < l < succs.Length :: succs[l] == old(succs[l])
    {
      hide LinksOk, Sorted, Keys, Bound, Distinct, FoundLayer, Beside, Reach;
      foundLayer := -1;
      var pred := cur;
      var foundNode: Option<Ptr> := None;
      ghost var p: nat := c;
      var layer: nat := curLayer + 1;
      while layer > 0
        invariant 0 <= layer <= curLayer + 1 && p < |chain| && pred == chain[p] && levs[p] >= layer
        invariant Reach(View(), x, p) == Reach(View(), x, c) && (p < Bound(View(), x) <==> c < Bound(View(), x))
        invariant FoundSoFar(x, curLayer, layer, foundLayer, foundNode, c)
        invariant forall l | layer <= l <= curLayer :: Beside(Reach(View(), x, c), l, preds[l], succs[l])
        invariant forall l | curLayer < l < preds.Length :: preds[l] == old(preds[l])
        invariant forall l | curLayer < l < succs.Length :: succs[l] == old(succs[l])
        decreases layer
      {
        layer := layer - 1;
        var succ;
        pred, succ, foundLayer, foundNode, p := SearchLayer(pred, layer, x, curLayer, foundLayer, foundNode, p);
        preds[layer] := pred;
        succs[layer] := succ;
      }
    }

    /** Locks of the predecessors, validated again: with no other writer the answer is yes. */
    method LockNodesForChange(nodeHeight: nat, preds: array<Ptr>, succs: array<Option<Ptr>>, x: int, adding: bool)
      returns (valid: bool)
      requires Searchable() && nodeHeight <= preds.Length && nodeHeight <= succs.Length
      requires forall l | 0 <= l < nodeHeight :: Around(x, l, preds[l], succs[l])
      requires forall i | 0 <= i < |chain| :: nodes[chain[i]].marked ==> !adding && i == Bound(View(), x)
      ensures valid
    {
      valid := true;
      var layer: nat := 0;
      while valid && layer < nodeHeight
        invariant layer <= nodeHeight && valid
      {
        var pred, succ := preds[layer], succs[layer];
        ghost var p := PredPos(levs, layer, Bound(View(), x));
        AroundLinked(x, layer, pred, succ);
        valid := !nodes[pred].marked && nodes[pred].skip[layer] == succ;
        if adding {
          valid := valid && (succ.None? || !nodes[succ.value].marked);
        }
        layer := layer + 1;
      }
    }

    lemma AroundLinked(x: int, l: nat, pred: Ptr, succ: Option<Ptr>)
      requires Searchable() && Around(x, l, pred, succ)
      ensures pred in nodes && l < |nodes[pred].skip| && nodes[pred].skip[l] == succ
      ensures succ.Some? ==> succ.value in nodes && succ.value in chain
      ensures exists i :: 0 <= i < Bound(View(), x) && i < |chain| && chain[i] == pred
    {
      var b := Bound(View(), x);
      var p := PredPos(levs, l, b);
      assert LinkOk(View(), p, l);
      NextPosIs(levs, l, p + 1, NextPos(levs, l, b));
    }

    // ------------------------------------------------------------------ linking and unlinking one layer

    /** newNode->setSkip(k, succ): no layer sees this store. */
    method PrepareLayer(n: Ptr, k: nat, succ: Option<Ptr>, ghost pos: nat)
      requires WellFormed(View()) && 0 < pos < |chain| && chain[pos] == n && levs[pos] == k < |nodes[n].skip|
      modifies this`nodes, this`trace
      ensures nodes == SetSkip(old(nodes), n, k, succ) && trace == old(trace) + [View()]
      ensures Shows(View(), old(LinkedKeys(View())))
    {
      hide LinksOk, LinkedKeys;
      ghost var before := View();
      nodes := SetSkip(nodes, n, k, succ);
      UnseenKeepsForm(before, nodes);
      LinkedKeysSame(before, View());
      trace := trace + [View()];
    }

    /** newNode->setSkip(k, succ); pred->setSkip(k, newNode): two stores, both recorded. */
    method LinkLayer(n: Ptr, k: nat, pred: Ptr, succ: Option<Ptr>, ghost pos: nat) returns (ghost prepared: Layout)
      requires WellFormed(View()) && 0 < pos < |chain| && chain[pos] == n && levs[pos] == k < levs[0]
      requires k < |nodes[n].skip| && pred == chain[PredPos(levs, k, pos)]
      requires succ == PtrAt(chain, NextPos(levs, k, pos + 1))
      modifies this`nodes, this`levs, this`trace
      ensures WellFormed(View()) && levs == old(levs)[pos := k + 1] && SameNodes(old(nodes), nodes)
      ensures trace == old(trace) + [prepared, View()] && Shows(prepared, old(LinkedKeys(View())))
    {
      hide LinksOk, Sorted, NextPos, PredPos, Shows;
      PrepareLayer(n, k, succ, pos);
      prepared := View();
      ShownForm(prepared, old(LinkedKeys(View())));
      RaiseKeepsForm(prepared, pos, k);
      nodes := SetSkip(nodes, pred, k, Some(n));
      levs := levs[pos := k + 1];
      assert View() == Raised(prepared, pos, k);
      trace := trace + [View()];
    }

    /** pred->setSkip(k, node->skip(k)), recorded. */
    method UnlinkLayer(n: Ptr, k: nat, pred: Ptr, ghost pos: nat)
      requires WellFormed(View()) && 0 < pos < |chain| && chain[pos] == n && levs[pos] == k + 1
      requires k < levs[0] && pred == chain[PredPos(levs, k, pos)]
      modifies this`nodes, this`levs, this`trace
      ensures WellFormed(View()) && levs == old(levs)[pos := k] && SameNodes(old(nodes), nodes)
      ensures trace == old(trace) + [View()]
    {
      hide LinksOk, NextPos, PredPos;
      LowerKeepsForm(View(), pos, k);
      ghost var lowered := Lowered(View(), pos, k);
      nodes := SetSkip(nodes, pred, k, nodes[n].skip[k]);
      levs := levs[pos := k];
      assert View() == lowered;
      trace := trace + [View()];
    }

    // ------------------------------------------------------------------ adding

    /** A new node takes its place in the chain; no other thread can see it yet. */
    method CreateNode(x: int, h: nat, ghost pos: nat) returns (n: Ptr)
      requires Valid() && h > 0 && x !in Contents() && pos == Bound(View(), x)
      modifies this`nodes, this`nextPtr, this`chain, this`levs
      ensures WellFormed(View()) && 0 < pos < |chain| && chain[pos] == n && n !in old(nodes) && n < nextPtr
      ensures nodes == old(nodes)[n := Node(x, seq(h, _ => None), false, false)] && nextPtr == old(nextPtr) + 1
      ensures Enters(Layout(nodes, old(chain), old(levs)), View(), pos, n)
      ensures LinkedKeys(View()) == old(Contents()) && Keys(View()) == old(Contents()) + {x}
    {
      hide LinksOk, NextPos, LinkedKeys, Keys;
      ghost var before := View();
      n := nextPtr;
      FitsNew(before, x, n, h);
      SolidKeys(before);
      nextPtr := nextPtr + 1;
      nodes := nodes[n := Node(x, seq(h, _ => None), false, false)];
      ghost var unseen := View();
      UnseenKeepsForm(before, nodes);
      LinkedKeysSame(before, unseen);
      KeysSame(before, unseen);
      ghost var entered := Entered(unseen, pos, n);
      EnterKeepsForm(unseen, entered, pos, n);
      EnterLinksNothing(unseen, entered, pos, n);
      EnterAddsKey(unseen, entered, pos, n);
      chain, levs := entered.chain, entered.levs;
    }

    /** The loop of addOrGetData: link the node bottom-up.  After the first store, which only prepares the
        node, every state holds the new key. */
    method LinkAll(n: Ptr, h: nat, preds: array<Ptr>, succs: array<Option<Ptr>>, ghost pos: nat)
      requires WellFormed(View()) && 0 < pos < |chain| && chain[pos] == n && levs[pos] == 0
      requires forall i | 0 <= i < |levs| && i != pos :: levs[i] >= 1
      requires 0 < h <= levs[0] && h == |nodes[n].skip| && h <= preds.Length && h <= succs.Length
      requires forall l | 0 <= l < h :: preds[l] == chain[PredPos(levs, l, pos)]
      requires forall l | 0 <= l < h :: succs[l] == PtrAt(chain, NextPos(levs, l, pos + 1))
      modifies this`nodes, this`levs, this`trace
      ensures WellFormed(View()) && levs == old(levs)[pos := h] && SameNodes(old(nodes), nodes)
      ensures Recorded(trace, old(trace), old(LinkedKeys(View())), old(Keys(View())))
    {
      hide LinksOk, Sorted, NextPos, PredPos, LinkedKeys, Keys, Shows, Distinct, Recorded, SameNodes;
      SameNodesRefl(nodes);
      ghost var keys := Keys(View());
      var k: nat := 0;
      while k < h
        invariant 0 <= k <= h && WellFormed(View()) && levs == old(levs)[pos := k] && SameNodes(old(nodes), nodes)
        invariant Keys(View()) == keys && (k == 0 ==> nodes == old(nodes) && trace == old(trace))
        invariant k > 0 ==> |trace| > |old(trace)| && Recorded(trace, old(trace), old(LinkedKeys(View())), keys)
      {
        NeighboursStay(old(levs), pos, k, k);
        SameHeight(old(nodes), nodes, n);
        ghost var before := View();
        if k > 0 {
          SolidKeys(View());
        } else {
          assert old(levs)[pos := 0] == old(levs);
        }
        ghost var so, prepared := trace, before;
        prepared := LinkLayer(n, k, preds[k], succs[k], pos);
        SameNodesKeys(before, View());
        SameNodesTrans(old(nodes), before.nodes, nodes);
        SolidKeys(View());
        FormShows(View());
        RecordsTwo(so, old(trace), old(LinkedKeys(View())), keys, prepared, View());
        k := k + 1;
      }
    }

    /** The node is complete: set its flag and count it. */
    method FinishAdd(n: Ptr, ghost pos: nat)
      requires WellFormed(View()) && Solid(View()) && chain[0] == head && 0 < pos < |chain| && chain[pos] == n
      requires size == |chain| - 2 && (forall p | p in nodes :: p < nextPtr)
      requires RestBut(View(), pos)
      requires levs[pos] == |nodes[n].skip| && !nodes[n].marked
      modifies this`nodes, this`size
      ensures Valid() && size == old(size) + 1 && Keys(View()) == old(Keys(View())) && n in nodes
      ensures nodes[n].key == old(nodes[n].key)
    {
      hide LinksOk, Sorted, NextPos, Keys;
      ghost var before := View();
      nodes := nodes[n := nodes[n].(fullyLinked := true)];
      UnseenKeepsForm(before, nodes);
      KeysSame(before, View());
      FlagRest(before, View(), pos, nodes[n]);
      assert AtRest(View(), pos);
      size := size + 1;
    }

    /** The path of addOrGetData for a key that is not in the list. */
    method AddNew(x: int, h: nat, preds: array<Ptr>, succs: array<Option<Ptr>>) returns (n: Ptr)
      requires Valid() && x !in Contents() && 0 < h <= levs[0] && h <= preds.Length && h <= succs.Length
      requires forall l | 0 <= l < h :: Around(x, l, preds[l], succs[l])
      modifies this`nodes, this`nextPtr, this`chain, this`levs, this`trace, this`size
      ensures Valid() && Contents() == old(Contents()) + {x} && size == old(size) + 1
      ensures n in nodes && nodes[n].key == x && n in chain[1..]
      ensures levs[0] == old(levs[0])
      ensures Recorded(trace, old(trace), old(Contents()), old(Contents()) + {x})
    {
      hide LinksOk, Sorted, NextPos, PredPos, LinkedKeys, Keys, Shows, Distinct, Recorded, SameNodes;
      ghost var before := View();
      ghost var pos := Bound(before, x);
      n := CreateNode(x, h, pos);
      ghost var created := View();
      forall l | 0 <= l < h
        ensures preds[l] == chain[PredPos(levs, l, pos)] && succs[l] == PtrAt(chain, NextPos(levs, l, pos + 1))
      {
        EnteredNeighbours(before.(nodes := nodes), View(), pos, n, l);
      }
      LinkAll(n, h, preds, succs, pos);
      SameNodesKeys(created, View());
      EnteredRest(before, created, created.nodes, pos, n);
      SameNodesRest(created, View(), pos, h);
      FinishAdd(n, pos);
      assert chain[1..][pos - 1] == n;
    }

    // ------------------------------------------------------------------ removing

    predicate OkToDelete(candidate: Ptr, layer: nat)
      reads this
      requires candidate in nodes
    {
      nodes[candidate].fullyLinked && |nodes[candidate].skip| - 1 == layer && !nodes[candidate].marked
    }

    /** setMarkedForRemoval. */
    method Mark(n: Ptr)
      requires Valid() && n in nodes
      modifies this`nodes
      ensures Searchable() && nodes == old(nodes)[n := old(nodes)[n].(marked := true)]
      ensures Keys(View()) == old(Keys(View())) && forall x :: Bound(View(), x) == old(Bound(View(), x))
    {
      hide LinksOk, Sorted, NextPos, Keys;
      ghost var before := View();
      nodes := nodes[n := nodes[n].(marked := true)];
      UnseenKeepsForm(before, nodes);
      KeysSame(before, View());
      forall x
        ensures Bound(View(), x) == Bound(before, x)
      {
        BoundSame(before, View(), x, 1);
      }
    }

    /** The loop of remove: unlink the node top-down.  Every state before the last store holds the key. */
    method UnlinkAll(n: Ptr, h: nat, preds: array<Ptr>, ghost pos: nat)
      requires Searchable() && 0 < pos < |chain| && chain[pos] == n && levs[pos] == h > 0
      requires h <= preds.Length && forall l | 0 <= l < h :: l < levs[0] && preds[l] == chain[PredPos(levs, l, pos)]
      modifies this`nodes, this`levs, this`trace
      ensures WellFormed(View()) && levs == old(levs)[pos := 0] && SameNodes(old(nodes), nodes)
      ensures RecordedLast(trace, old(trace), old(Keys(View())), LinkedKeys(View()))
    {
      hide LinksOk, Sorted, NextPos, PredPos, LinkedKeys, Keys, Shows, Distinct, RecordedLast, SameNodes;
      SameNodesRefl(nodes);
      SolidKeys(View());
      ghost var keys := Keys(View());
      var k: nat := h;
      while k > 0
        invariant 0 <= k <= h && WellFormed(View()) && levs == old(levs)[pos := k] && SameNodes(old(nodes), nodes)
        invariant Keys(View()) == keys
        invariant if k == h then trace == old(trace) else RecordedLast(trace, old(trace), keys, LinkedKeys(View()))
        invariant k > 0 ==> LinkedKeys(View()) == keys
      {
        k := k - 1;
        NeighboursStay(old(levs), pos, k + 1, k);
        ghost var before, so := View(), trace;
        UnlinkLayer(n, k, preds[k], pos);
        SameNodesKeys(before, View());
        SameNodesTrans(old(nodes), before.nodes, nodes);
        if k > 0 {
          SolidKeys(View());
        }
        FormShows(View());
        RecordsOne(so, old(trace), keys, LinkedKeys(View()), View());
      }
    }

    /** The node has left every layer and leaves the list. */
    method FinishRemove(n: Ptr, ghost pos: nat)
      requires WellFormed(View()) && chain[0] == head && 0 < pos < |chain| && chain[pos] == n && levs[pos] == 0
      requires size == |chain| - 1 && (forall p | p in nodes :: p < nextPtr)
      requires RestBut(View(), pos)
      modifies this`chain, this`levs, this`size
      ensures Valid() && size == old(size) - 1
              && Keys(View()) == old(Keys(View())) - {nodes[n].key} == old(LinkedKeys(View()))
    {
      hide LinksOk, Sorted, NextPos, Keys, LinkedKeys, Enters, Left;
      ghost var before := View();
      ghost var after := Left(before, pos);
      LeaveKeepsForm(after, before, pos, n);
      EnterLinksNothing(after, before, pos, n);
      EnterAddsKey(after, before, pos, n);
      LeftHasNot(after, before, pos, n);
      OthersAfterLeave(after, before, pos, n);
      chain, levs := after.chain, after.levs;
      size := size - 1;
      SolidKeys(View());
    }

    /** remove: succeeds exactly when the key is present. */
    method Remove(x: int) returns (removed: bool)
      requires Valid()
      modifies this`nodes, this`chain, this`levs, this`trace, this`size
      ensures Valid() && (removed <==> x in old(Contents())) && Contents() == old(Contents()) - {x}
      ensures size == old(size) - (if removed then 1 else 0)
      ensures !removed ==> nodes == old(nodes) && trace == old(trace)
      ensures removed ==> RecordedLast(trace, old(trace), old(Contents()), old(Contents()) - {x})
    {
      hide LinksOk, Sorted, NextPos, PredPos, LinkedKeys, Keys, Shows, Distinct, RecordedLast, SameNodes, Bound;
      var top := |nodes[head].skip| - 1;
      var preds := new Ptr[top + 1];
      var succs := new Option<Ptr>[top + 1];
      var layer := FindInsertionPoint(head, top, x, preds, succs, 0);
      FoundMeans(x, top);
      if layer < 0 {
        return false;
      }
      AroundFound(x, top, preds[layer], succs[layer]);
      var n := succs[layer].value;
      assert AtRest(View(), Bound(View(), x));
      if !OkToDelete(n, layer) {
        return false;
      }
      RemoveNode(n, x, preds, succs, Bound(View(), x));
      removed := true;
    }

    /** The path of remove for a node that is there: mark it, lock, unlink. */
    method RemoveNode(n: Ptr, x: int, preds: array<Ptr>, succs: array<Option<Ptr>>, ghost pos: nat)
      requires Valid() && x in Contents() && pos == Bound(View(), x) < |chain| && chain[pos] == n
      requires n in nodes && nodes[n].key == x && levs[0] <= preds.Length && levs[0] <= succs.Length
      requires forall l | 0 <= l < levs[0] :: Around(x, l, preds[l], succs[l])
      modifies this`nodes, this`chain, this`levs, this`trace, this`size
      ensures Valid() && Contents() == old(Contents()) - {x} && size == old(size) - 1
      ensures RecordedLast(trace, old(trace), old(Contents()), old(Contents()) - {x})
    {
      hide LinksOk, Sorted, NextPos, PredPos, LinkedKeys, Keys, Shows, RecordedLast, SameNodes, Bound;
      var h := |nodes[n].skip|;
      assert AtRest(View(), pos);
      ghost var before := View();
      Mark(n);
      FlagRest(before, View(), pos, nodes[n]);
      forall i | 0 <= i < |chain| && i != pos
        ensures !nodes[chain[i]].marked
      {
        assert AtRest(View(), i);
      }
      var valid := LockNodesForChange(h, preds, succs, x, false);
      assert valid;   // no retry
      ghost var marked := View();
      UnlinkAll(n, h, preds, pos);
      SameNodesKeys(marked, View());
      SameNodesRest(marked, View(), pos, 0);
      FinishRemove(n, pos);
    }

    lemma FoundMeans(x: int, top: nat)
      requires Valid() && top + 1 == levs[0]
      ensures x in Keys(View()) <==> FoundLayer(x, top) >= 0
      ensures var b := Bound(View(), x);
              x in Keys(View()) ==>
                b < |chain| && FoundLayer(x, top) == |nodes[chain[b]].skip| - 1 && nodes[chain[b]].key == x
    {
      PresentAtBound(View(), x);
      if x in Keys(View()) {
        assert AtRest(View(), Bound(View(), x));
      }
    }

    lemma AroundFound(x: int, top: nat, pred: Ptr, succ: Option<Ptr>)
      requires Valid() && x in Keys(View()) && top + 1 == levs[0]
      requires FoundLayer(x, top) >= 0 && Around(x, FoundLayer(x, top), pred, succ)
      ensures Bound(View(), x) < |chain| && succ == Some(chain[Bound(View(), x)])
    {
      FoundMeans(x, top);
      var b := Bound(View(), x);
      NextPosIs(levs, FoundLayer(x, top), b, b);
    }

    // ------------------------------------------------------------------ growing the head

    /** copyHead: fill the pointers of a head that no thread can reach yet. */
    method CopyHead(newHead: Ptr, oldHead: Ptr, height: nat, ghost before: Layout)
      requires WellFormed(before) && newHead !in before.chain && oldHead == before.chain[0] && before.levs[0] < height
      requires chain == before.chain && levs == before.levs && newHead in nodes && !nodes[newHead].marked
      requires nodes == before.nodes[newHead := nodes[newHead]] && nodes[newHead].skip == seq(height, _ => None)
      modifies this`nodes, this`trace
      ensures newHead in nodes && nodes == before.nodes[newHead := nodes[newHead]] && !nodes[newHead].marked
      ensures WellFormed(View()) && CopiesHead(View(), newHead, height)
      ensures AllShow(trace, old(trace), LinkedKeys(before)) && Shows(View(), LinkedKeys(before))
    {
      hide LinksOk, Sorted, NextPos, LinkedKeys, Shows, SameLinks, AllShow;
      AllShowNone(trace, LinkedKeys(before));
      var h := |nodes[oldHead].skip|;
      var i: nat := 0;
      while i < h
        invariant 0 <= i <= h && newHead in nodes && |nodes[newHead].skip| == height
        invariant nodes == before.nodes[newHead := nodes[newHead]] && !nodes[newHead].marked
        invariant forall k | 0 <= k < height :: nodes[newHead].skip[k] == if k < i then nodes[oldHead].skip[k] else None
        invariant AllShow(trace, old(trace), LinkedKeys(before))
      {
        nodes := SetSkip(nodes, newHead, i, nodes[oldHead].skip[i]);
        UnseenNode(before, newHead, nodes[newHead]);
        assert View() == before.(nodes := before.nodes[newHead := nodes[newHead]]);
        AllShowGrows(trace, old(trace), LinkedKeys(before), View());
        trace := trace + [View()];
        i := i + 1;
      }
      UnseenNode(before, newHead, nodes[newHead]);
      assert View() == before.(nodes := before.nodes[newHead := nodes[newHead]]);
      ShownForm(View(), LinkedKeys(before));
    }

    /** A taller head with the pointers copied from the old one, and then the swap of head_. */
    method GrowHeight(height: nat)
      requires Valid()
      modifies this`nodes, this`head, this`nextPtr, this`chain, this`levs, this`trace
      ensures Valid() && Contents() == old(Contents())
      ensures levs[0] == if height > old(levs[0]) then height else old(levs[0])
      ensures chain[1..] == old(chain)[1..]
      ensures forall p | p in old(nodes) :: p in nodes && nodes[p].key == old(nodes[p].key)
      ensures AllShow(trace, old(trace), old(Contents()))
    {
      hide LinksOk, Sorted, NextPos, LinkedKeys, Keys, Shows, CopiesHead, AllShow;
      AllShowNone(trace, Contents());
      var oldHead := head;
      if |nodes[oldHead].skip| >= height {
        return;
      }
      SolidKeys(View());
      assert AtRest(View(), 0);
      ghost var before := View();
      var newHead := nextPtr;
      nextPtr := nextPtr + 1;
      var flags := nodes[oldHead];
      nodes := nodes[newHead := Node(0, seq(height, _ => None), flags.fullyLinked, flags.marked)];
      CopyHead(newHead, oldHead, height, before);
      ghost var grown := Grown(View(), newHead, height);
      GrowKeepsForm(View(), newHead, height);
      ShownForm(View(), Keys(before));
      ShownForm(grown, Keys(before));
      AllShowGrows(trace, old(trace), Keys(before), grown);
      CopyHeight(View(), newHead, height);
      head := newHead;
      chain, levs := grown.chain, grown.levs;
      trace := trace + [View()];
      GrownRest(before, View(), newHead);
      SolidKeys(View());
      nodes := nodes[oldHead := nodes[oldHead].(marked := true)];
      OldHeadMarked(grown, View(), oldHead);
    }

    // ------------------------------------------------------------------ addOrGetData

    /** The node with key `x`, and the new size, or 0 if the key was there already.  `h` and `grow` are the
        random height and the comparison of the size with its limit. */
    method AddOrGetData(x: int, h: nat, grow: bool) returns (node: Ptr, newSize: nat)
      requires Valid() && 0 < h <= levs[0]
      modifies this
      ensures Valid() && Contents() == old(Contents()) + {x}
      ensures node in nodes && nodes[node].key == x && node in chain[1..]
      ensures newSize == (if x in old(Contents()) then 0 else old(size) + 1)
      ensures size == (if x in old(Contents()) then old(size) else old(size) + 1)
      ensures !grow ==> levs[0] == old(levs[0])
      ensures if x in old(Contents()) then trace == old(trace)
              else Recorded(trace, old(trace), old(Contents()), old(Contents()) + {x})
    {
      hide LinksOk, Sorted, NextPos, PredPos, LinkedKeys, Keys, Shows, Distinct, SameNodes, Bound, Recorded, AllShow;
      var top := |nodes[head].skip| - 1;
      var preds := new Ptr[top + 1];
      var succs := new Option<Ptr>[top + 1];
      var layer := FindInsertionPoint(head, top, x, preds, succs, 0);
      FoundMeans(x, top);
      if layer >= 0 {
        AroundFound(x, top, preds[layer], succs[layer]);
        assert chain[1..][Bound(View(), x) - 1] == succs[layer].value;
        return succs[layer].value, 0;
      }
      forall i | 0 <= i < |chain|
        ensures !nodes[chain[i]].marked
      {
        assert AtRest(View(), i);
      }
      var valid := LockNodesForChange(h, preds, succs, x, true);
      assert valid;   // no retry
      node := AddNew(x, h, preds, succs);
      newSize := size;
      ghost var so := trace;
      if grow {
        GrowHeight(|nodes[head].skip| + 1);
        RecordedThen(trace, so, old(trace), old(Contents()), old(Contents()) + {x});
      }
    }

    /** Any sequence of completed operations is the same sequence on a mathematical set, and every state another
        thread could see in between is well formed. */
    method Run(ops: seq<Op>) returns (answers: seq<bool>)
      requires Valid() && AllFormed(trace)
      modifies this
      ensures Valid() && AllFormed(trace)
      ensures Contents() == SetRun(old(Contents()), ops).0 && answers == SetRun(old(Contents()), ops).1
    {
      hide LinksOk, Sorted, Keys, Distinct, AtRest, Recorded, RecordedLast, AllShow, AllFormed;
      answers := [];
      var k: nat := 0;
      assert ops[0..] == ops;
      while k < |ops|
        invariant k <= |ops| && Valid() && AllFormed(trace)
        invariant SetRun(old(Contents()), ops).0 == SetRun(Contents(), ops[k..]).0
        invariant SetRun(old(Contents()), ops).1 == answers + SetRun(Contents(), ops[k..]).1
      {
        ghost var before, so := Contents(), trace;
        assert ops[k..][0] == ops[k] && ops[k..][1..] == ops[k + 1..];
        var answer := true;
        match ops[k] {
          case Add(x, pick, grow) =>
            var top := |nodes[head].skip|;
            var _, newSize := AddOrGetData(x, 1 + pick % top, grow);
            answer := newSize > 0;
            if answer { RecordedFormed(trace, so, before, before + {x}); }
          case Remove(x) =>
            answer := Remove(x);
            if answer { RecordedLastFormed(trace, so, before, before - {x}); }
          case Grow(height) =>
            GrowHeight(height);
            AllShowFormed(trace, so, before);
        }
        assert SetStep(before, ops[k]) == (Contents(), answer);
        RunSplits(before, ops[k..], answers);
        answers := answers + [answer];
        k := k + 1;
      }
    }
  }

  /** An operation: `pick` stands for the random number that chooses a height. */
  datatype Op = Add(x: int, pick: nat, grow: bool) | Remove(x: int) | Grow(height: nat)

  function SetStep(s: set<int>, op: Op): (r: (set<int>, bool)) {
    match op
    case Add(x, _, _) => (s + {x}, x !in s)
    case Remove(x) => (s - {x}, x in s)
    case Grow(_) => (s, true)
  }

  function SetRun(s: set<int>, ops: seq<Op>): (r: (set<int>, seq<bool>))
    decreases |ops|
  {
    if ops == [] then (s, [])
    else
      var (s', b) := SetStep(s, ops[0]);
      var (s'', bs) := SetRun(s', ops[1..]);
      (s'', [b] + bs)
  }

  lemma RunSplits(s: set<int>, ops: seq<Op>, answers: seq<bool>)
    requires ops != []
    ensures var (s', b) := SetStep(s, ops[0]);
            && SetRun(s, ops).0 == SetRun(s', ops[1..]).0
            && answers + SetRun(s, ops).1 == (answers + [b]) + SetRun(s', ops[1..]).1
  {
    hide SetStep;
    var (s', b) := SetStep(s, ops[0]);
    Regroup(answers, b, SetRun(s', ops[1..]).1);
  }

  lemma Regroup(front: seq<bool>, b: bool, back: seq<bool>)
    ensures front + ([b] + back) == (front + [b]) + back
  {
  }

  ghost predicate AllFormed(trace: seq<Layout>) {
    forall i | 0 <= i < |trace| :: WellFormed(trace[i])
  }

  lemma FormedFrom(trace: seq<Layout>, before: seq<Layout>)
    requires AllFormed(before) && |before| <= |trace| && trace[..|before|] == before
    requires forall i | |before| <= i < |trace| :: WellFormed(trace[i])
    ensures AllFormed(trace)
  {
    hide WellFormed;
    forall i | 0 <= i < |trace|
      ensures WellFormed(trace[i])
    {
      if i < |before| {
        assert trace[i] == trace[..|before|][i];
      }
    }
  }

  lemma RecordedFormed(trace: seq<Layout>, before: seq<Layout>, first: set<int>, rest: set<int>)
    requires AllFormed(before) && Recorded(trace, before, first, rest)
    ensures AllFormed(trace)
  {
    hide WellFormed, AllFormed;
    FormedFrom(trace, before);
  }

  lemma RecordedLastFormed(trace: seq<Layout>, before: seq<Layout>, rest: set<int>, last: set<int>)
    requires AllFormed(before) && RecordedLast(trace, before, rest, last)
    ensures AllFormed(trace)
  {
    hide WellFormed, AllFormed;
    FormedFrom(trace, before);
  }

  lemma AllShowFormed(trace: seq<Layout>, before: seq<Layout>, keys: set<int>)
    requires AllFormed(before) && AllShow(trace, before, keys)
    ensures AllFormed(trace)
  {
    hide WellFormed, AllFormed;
    FormedFrom(trace, before);
  }

  /** Every state recorded since `before` shows `keys`. */
  ghost predicate AllShow(trace: seq<Layout>, before: seq<Layout>, keys: set<int>) {
    && |before| <= |trace| && trace[..|before|] == before
    && forall i | |before| <= i < |trace| :: Shows(trace[i], keys)
  }

  lemma AllShowNone(trace: seq<Layout>, keys: set<int>)
    ensures AllShow(trace, trace, keys)
  {
  }

  lemma AllShowGrows(trace: seq<Layout>, before: seq<Layout>, keys: set<int>, a: Layout)
    requires AllShow(trace, before, keys) && Shows(a, keys)
    ensures AllShow(trace + [a], before, keys)
  {
    hide Shows;
    assert (trace + [a])[..|before|] == trace[..|before|];
  }

  /** The records of an addition followed by those of a growing head. */
  lemma RecordedThen(trace: seq<Layout>, middle: seq<Layout>, before: seq<Layout>, first: set<int>, rest: set<int>)
    requires Recorded(middle, before, first, rest) && AllShow(trace, middle, rest)
    ensures Recorded(trace, before, first, rest)
  {
    hide Shows;
    assert trace[..|before|] == middle[..|before|];
    forall i | |before| <= i < |trace|
      ensures Shows(trace[i], if i == |before| then first else rest)
    {
      if i < |middle| {
        assert trace[i] == trace[..|middle|][i];
      }
    }
  }

  lemma UnseenNode(L: Layout, n: Ptr, node: Node)
    requires WellFormed(L) && n !in L.chain
    ensures SameLinks(L, L.nodes[n := node]) && Shows(L.(nodes := L.nodes[n := node]), LinkedKeys(L))
  {
    hide LinksOk, LinkedKeys;
    var r := L.(nodes := L.nodes[n := node]);
    UnseenKeepsForm(L, r.nodes);
    LinkedKeysSame(L, r);
  }

  function Grown(L: Layout, n: Ptr, height: nat): (r: Layout)
    requires |L.chain| == |L.levs| > 0
  {
    Layout(L.nodes, L.chain[0 := n], L.levs[0 := height])
  }

  /** `n` has the pointers of the head, and none in the new layers. */
  predicate CopiesHead(L: Layout, n: Ptr, height: nat)
    requires NodesOk(L)
  {
    && n in L.nodes && n !in L.chain && |L.nodes[n].skip| == height > L.levs[0]
    && forall k | 0 <= k < height :: L.nodes[n].skip[k] == if k < L.levs[0] then L.nodes[L.chain[0]].skip[k] else None
  }

  lemma CopyHeight(L: Layout, n: Ptr, height: nat)
    requires NodesOk(L) && CopiesHead(L, n, height)
    ensures n in L.nodes && |L.nodes[n].skip| == height
  {
  }

  lemma GrownLink(L: Layout, n: Ptr, height: nat, i: nat, k: nat)
    requires WellFormed(L) && CopiesHead(L, n, height) && NodesOk(Grown(L, n, height))
    requires i < |L.chain| && k < Grown(L, n, height).levs[i]
    ensures LinkOk(Grown(L, n, height), i, k)
  {
    var r := Grown(L, n, height);
    NextPosIs(r.levs, k, i + 1, NextPos(L.levs, k, i + 1));
    if i > 0 || k < L.levs[0] {
      assert LinkOk(L, i, k);
    } else {
      NextPosIs(L.levs, k, 1, |L.levs|);
    }
  }

  lemma GrowKeepsForm(L: Layout, n: Ptr, height: nat)
    requires WellFormed(L) && CopiesHead(L, n, height)
    ensures Shows(Grown(L, n, height), LinkedKeys(L)) && Keys(Grown(L, n, height)) == Keys(L)
  {
    hide LinkOk, NextPos, LinkedKeys, Keys;
    var r := Grown(L, n, height);
    assert NodesOk(r);
    forall i: nat, k: nat | i < |r.chain| && k < r.levs[i]
      ensures LinkOk(r, i, k)
    {
      GrownLink(L, n, height, i, k);
    }
    forall i, j | 1 <= i < j < |r.chain|
      ensures KeyAt(r, i) < KeyAt(r, j)
    {
      assert KeyAt(L, i) < KeyAt(L, j);
    }
    GrownKeys(L, r);
  }

  lemma GrownKeys(L: Layout, r: Layout)
    requires NodesOk(L) && NodesOk(r) && |L.chain| == |r.chain| && r.nodes == L.nodes
    requires forall i | 1 <= i < |L.chain| :: r.chain[i] == L.chain[i] && r.levs[i] == L.levs[i]
    ensures Keys(r) == Keys(L) && LinkedKeys(r) == LinkedKeys(L)
  {
    forall x
      ensures (x in Keys(r) <==> x in Keys(L)) && (x in LinkedKeys(r) <==> x in LinkedKeys(L))
    {
      if x in Keys(L) || x in LinkedKeys(L) || x in Keys(r) || x in LinkedKeys(r) {
        assert forall i | 1 <= i < |L.chain| :: KeyAt(r, i) == KeyAt(L, i);
      }
    }
  }

  lemma GrownRest(before: Layout, r: Layout, n: Ptr)
    requires NodesOk(before) && NodesOk(r) && |r.chain| == |before.chain| && r.chain == before.chain[0 := n]
    requires n in r.nodes && r.nodes == before.nodes[n := r.nodes[n]] && n !in before.chain
    requires r.levs == before.levs[0 := |r.nodes[n].skip|] && !r.nodes[n].marked
    requires forall i | 0 <= i < |before.chain| :: AtRest(before, i)
    ensures Solid(r) && forall i | 0 <= i < |r.chain| :: AtRest(r, i)
  {
    forall i | 0 <= i < |r.chain|
      ensures AtRest(r, i) && r.levs[i] >= 1
    {
      assert AtRest(before, i);
    }
  }

  lemma OldHeadMarked(L: Layout, r: Layout, p: Ptr)
    requires WellFormed(L) && Solid(L) && (forall i | 0 <= i < |L.chain| :: AtRest(L, i)) && p in L.nodes
             && p !in L.chain
    requires r == L.(nodes := L.nodes[p := L.nodes[p].(marked := true)])
    ensures WellFormed(r) && Solid(r) && Keys(r) == Keys(L) && forall i | 0 <= i < |r.chain| :: AtRest(r, i)
  {
    hide LinksOk, Keys;
    UnseenKeepsForm(L, r.nodes);
    KeysSame(L, r);
    forall i | 0 <= i < |r.chain|
      ensures AtRest(r, i)
    {
      assert AtRest(L, i);
    }
  }

  lemma {:induction false} BoundSame(L: Layout, r: Layout, x: int, i: nat)
    requires NodesOk(L) && NodesOk(r) && r.chain == L.chain && 1 <= i <= |L.chain|
    requires forall j | 1 <= j < |L.chain| :: KeyAt(r, j) == KeyAt(L, j)
    ensures LowerBound(r, x, i) == LowerBound(L, x, i)
    decreases |L.chain| - i
  {
    if i < |L.chain| {
      assert KeyAt(r, i) == KeyAt(L, i);
      BoundSame(L, r, x, i + 1);
    }
  }

  /** The states recorded since `before`: all show `rest` but the last, which shows `last`. */
  ghost predicate RecordedLast(trace: seq<Layout>, before: seq<Layout>, rest: set<int>, last: set<int>) {
    && |before| < |trace| && trace[..|before|] == before && Shows(trace[|trace| - 1], last)
    && forall i | |before| <= i < |trace| - 1 :: Shows(trace[i], rest)
  }

  lemma RecordsOne(trace: seq<Layout>, before: seq<Layout>, rest: set<int>, last: set<int>, a: Layout)
    requires Shows(a, last) && (trace == before || RecordedLast(trace, before, rest, rest))
    ensures RecordedLast(trace + [a], before, rest, last)
  {
    hide Shows;
    assert (trace + [a])[..|before|] == trace[..|before|];
  }

  /** The other nodes are linked in all their layers and carry the flags of a node at rest. */
  predicate AtRest(L: Layout, i: nat)
    requires NodesOk(L) && i < |L.chain|
  {
    && 0 < L.levs[i] == |L.nodes[L.chain[i]].skip| && !L.nodes[L.chain[i]].marked
    && (i > 0 ==> L.nodes[L.chain[i]].fullyLinked)
  }

  lemma OthersAfterLeave(L: Layout, r: Layout, pos: nat, p: Ptr)
    requires NodesOk(L) && NodesOk(r) && Enters(L, r, pos, p) && 0 < pos
    requires RestBut(r, pos)
    ensures |L.chain| == |r.chain| - 1 && L.chain[0] == r.chain[0] && L.nodes == r.nodes
    ensures Solid(L) && forall i | 0 <= i < |L.chain| :: AtRest(L, i)
  {
    forall i | 0 <= i < |L.chain|
      ensures AtRest(L, i)
    {
      assert AtRest(r, Shifted(pos, i));
    }
    forall i | 0 <= i < |L.levs|
      ensures L.levs[i] >= 1
    {
      assert AtRest(L, i);
    }
  }

  lemma StrictAt(L: Layout, i: nat, j: nat)
    requires NodesOk(L) && Sorted(L) && 1 <= i < |L.chain| && 1 <= j < |L.chain| && i != j
    ensures KeyAt(L, i) != KeyAt(L, j)
  {
    assert if i < j then KeyAt(L, i) < KeyAt(L, j) else KeyAt(L, j) < KeyAt(L, i);
  }

  lemma LeftHasNot(L: Layout, r: Layout, pos: nat, p: Ptr)
    requires WellFormed(r) && NodesOk(L) && Enters(L, r, pos, p) && 0 < pos
    ensures r.nodes[p].key !in Keys(L)
  {
    if r.nodes[p].key in Keys(L) {
      var i :| 1 <= i < |L.chain| && KeyAt(L, i) == r.nodes[p].key;
      StrictAt(r, Shifted(pos, i), pos);
    }
  }

  predicate RestBut(L: Layout, pos: nat)
    requires NodesOk(L)
  {
    forall i | 0 <= i < |L.chain| && i != pos :: AtRest(L, i)
  }

  /** Linking and unlinking one node leaves the others at rest. */
  lemma SameNodesRest(L: Layout, r: Layout, pos: nat, v: nat)
    requires NodesOk(L) && NodesOk(r) && SameNodes(L.nodes, r.nodes) && r.chain == L.chain
    requires pos < |L.chain| && r.levs == L.levs[pos := v] && RestBut(L, pos)
    ensures RestBut(r, pos)
    ensures r.nodes.Keys == L.nodes.Keys
            && r.nodes[L.chain[pos]] == L.nodes[L.chain[pos]].(skip := r.nodes[L.chain[pos]].skip)
    ensures |r.nodes[L.chain[pos]].skip| == |L.nodes[L.chain[pos]].skip|
  {
    forall i | 0 <= i < |L.chain| && i != pos
      ensures AtRest(r, i)
    {
      assert AtRest(L, i);
    }
  }

  lemma EnteredRest(L: Layout, r: Layout, nodes: map<Ptr, Node>, pos: nat, p: Ptr)
    requires NodesOk(L) && NodesOk(r) && Enters(L.(nodes := nodes), r, pos, p) && 0 < pos
    requires forall i | 0 <= i < |L.chain| ::
               AtRest(L, i) && L.chain[i] in nodes && nodes[L.chain[i]] == L.nodes[L.chain[i]]
    ensures RestBut(r, pos)
  {
    forall i | 0 <= i < |r.chain| && i != pos
      ensures AtRest(r, i)
    {
      assert AtRest(L, if i < pos then i else i - 1);
    }
  }

  /** Writing the flags of the node at `pos` leaves the others at rest. */
  lemma FlagRest(L: Layout, r: Layout, pos: nat, node: Node)
    requires NodesOk(L) && NodesOk(r) && pos < |L.chain| && r == L.(nodes := L.nodes[L.chain[pos] := node])
             && RestBut(L, pos)
    ensures RestBut(r, pos)
  {
    forall i | 0 <= i < |L.chain| && i != pos
      ensures AtRest(r, i)
    {
      assert AtRest(L, i);
    }
  }

  lemma KeysSame(L: Layout, r: Layout)
    requires NodesOk(L) && NodesOk(r) && r.chain == L.chain
    requires forall i | 1 <= i < |L.chain| :: KeyAt(r, i) == KeyAt(L, i)
    ensures Keys(r) == Keys(L)
  {
    forall x
      ensures x in Keys(r) <==> x in Keys(L)
    {
      if x in Keys(L) {
        var i :| 1 <= i < |L.chain| && KeyAt(L, i) == x;
        assert KeyAt(r, i) == x;
      }
      if x in Keys(r) {
        var i :| 1 <= i < |L.chain| && KeyAt(r, i) == x;
        assert KeyAt(L, i) == x;
      }
    }
  }

  lemma FitsNew(L: Layout, x: int, n: Ptr, h: nat)
    requires WellFormed(L) && x !in Keys(L) && n !in L.nodes
    ensures var nodes' := L.nodes[n := Node(x, seq(h, _ => None), false, false)];
            && SameLinks(L, nodes') && NodesOk(L.(nodes := nodes'))
            && FitsAt(L.(nodes := nodes'), Bound(L, x), n)
  {
    hide LinksOk;
    var nodes' := L.nodes[n := Node(x, seq(h, _ => None), false, false)];
    var r := L.(nodes := nodes');
    forall i | 1 <= i < |L.chain|
      ensures KeyAt(r, i) == KeyAt(L, i) && (i < Bound(L, x) <==> KeyAt(L, i) < x) && KeyAt(L, i) != x
    {
      BoundSplitsAt(L, x, i);
    }
  }

  lemma BoundSplitsAt(L: Layout, x: int, i: nat)
    requires WellFormed(L) && x !in Keys(L) && 1 <= i < |L.chain|
    ensures (i < Bound(L, x) <==> KeyAt(L, i) < x) && KeyAt(L, i) != x
  {
    BoundSplits(L, x, i);
    assert KeyAt(L, i) in Keys(L);
  }
}
