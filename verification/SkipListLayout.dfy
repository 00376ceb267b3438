/**
 The linked layers of a ConcurrentSkipList as a value.

 `chain` lists the head and the data nodes in key order; node chain[i] is linked in the layers below
 levs[i].  Layer k is the chain of the nodes with levs[i] > k.  A node that is being added or removed is
 linked in fewer layers than its height.
 */
module SkipListLayout {
  import opened Common

  type Ptr = nat

  /** SkipListNode: skip_ has one pointer per layer, so its length is the height. */
  datatype Node = Node(key: int, skip: seq<Option<Ptr>>, fullyLinked: bool, marked: bool)

  datatype Layout = Layout(nodes: map<Ptr, Node>, chain: seq<Ptr>, levs: seq<nat>)

  // -------------------------------------------------------------------- positions

  /** The first position at or after `i` that is linked in layer `k`, or the end. */
  function NextPos(levs: seq<nat>, k: nat, i: nat): (j: nat)
    requires i <= |levs|
    ensures i <= j <= |levs| && (j < |levs| ==> levs[j] > k)
    ensures forall m | i <= m < j :: levs[m] <= k
    decreases |levs| - i
  {
    if i == |levs| || levs[i] > k then i else NextPos(levs, k, i + 1)
  }

  /** The last position before `i` that is linked in layer `k`. */
  function PredPos(levs: seq<nat>, k: nat, i: nat): (j: nat)
    requires 0 < i <= |levs| && levs[0] > k
    ensures j < i && levs[j] > k
    ensures forall m | j < m < i :: levs[m] <= k
  {
    if levs[i - 1] > k then i - 1 else PredPos(levs, k, i - 1)
  }

  lemma NextPosIs(levs: seq<nat>, k: nat, i: nat, j: nat)
    requires i <= j <= |levs| && (j < |levs| ==> levs[j] > k)
    requires forall m | i <= m < j :: levs[m] <= k
    ensures NextPos(levs, k, i) == j
  {
  }

  lemma PredPosIs(levs: seq<nat>, k: nat, i: nat, j: nat)
    requires 0 < i <= |levs| && levs[0] > k && j < i && levs[j] > k
    requires forall m | j < m < i :: levs[m] <= k
    ensures PredPos(levs, k, i) == j
  {
  }

  function PtrAt(chain: seq<Ptr>, i: nat): (p: Option<Ptr>) {
    if i < |chain| then Some(chain[i]) else None
  }

  // -------------------------------------------------------------------- well-formed layouts

  /** The nodes of the chain exist and are tall enough; the head is the tallest. */
  predicate NodesOk(L: Layout) {
    && |L.chain| == |L.levs| > 0 && Distinct(L.chain)
    && (forall i | 0 <= i < |L.chain| :: L.chain[i] in L.nodes)
    && (forall i | 0 <= i < |L.chain| :: L.levs[i] <= |L.nodes[L.chain[i]].skip|)
    && (forall i | 0 <= i < |L.chain| :: L.levs[i] <= L.levs[0])
    && |L.nodes[L.chain[0]].skip| == L.levs[0] > 0
  }

  /** Keys grow strictly along the chain; the head has none. */
  predicate Sorted(L: Layout)
    requires NodesOk(L)
  {
    forall i, j | 1 <= i < j < |L.chain| :: KeyAt(L, i) < KeyAt(L, j)
  }

  function KeyAt(L: Layout, i: nat): (x: int)
    requires i < |L.chain| && L.chain[i] in L.nodes
  {
    L.nodes[L.chain[i]].key
  }

  predicate LinkOk(L: Layout, i: nat, k: nat)
    requires NodesOk(L) && i < |L.chain| && k < L.levs[i]
  {
    L.nodes[L.chain[i]].skip[k] == PtrAt(L.chain, NextPos(L.levs, k, i + 1))
  }

  ghost predicate LinksOk(L: Layout)
    requires NodesOk(L)
  {
    forall i: nat, k: nat | i < |L.chain| && k < L.levs[i] :: LinkOk(L, i, k)
  }

  ghost predicate WellFormed(L: Layout) {
    NodesOk(L) && Sorted(L) && LinksOk(L)
  }

  /** Every node is linked in at least the bottom layer. */
  predicate Solid(L: Layout) {
    forall i | 0 <= i < |L.levs| :: L.levs[i] >= 1
  }

  function HeadHeight(L: Layout): (h: nat)
    requires |L.levs| > 0
  {
    L.levs[0]
  }

  // -------------------------------------------------------------------- layers

  /** The positions linked in layer `k`, from position `i` on. */
  function LayerFrom(L: Layout, k: nat, i: nat): (r: seq<Ptr>)
    requires |L.chain| == |L.levs| && i <= |L.levs|
    decreases |L.levs| - i
  {
    if i == |L.levs| then []
    else if L.levs[i] > k then [L.chain[i]] + LayerFrom(L, k, i + 1)
    else LayerFrom(L, k, i + 1)
  }

  /** Layer `k`: the data nodes linked there. */
  function Layer(L: Layout, k: nat): (r: seq<Ptr>)
    requires |L.chain| == |L.levs| > 0
  {
    LayerFrom(L, k, 1)
  }

  /** Following the layer-`k` pointer of `p`, and then of each node reached, visits exactly `list`. */
  predicate Follows(nodes: map<Ptr, Node>, p: Ptr, k: nat, list: seq<Ptr>)
    decreases |list|
  {
    && p in nodes && k < |nodes[p].skip|
    && if list == [] then nodes[p].skip[k] == None
       else nodes[p].skip[k] == Some(list[0]) && Follows(nodes, list[0], k, list[1..])
  }

  predicate Subsequence(a: seq<Ptr>, b: seq<Ptr>)
    decreases |b|
  {
    if a == [] then true
    else if b == [] then false
    else if a[0] == b[0] then Subsequence(a[1..], b[1..])
    else Subsequence(a, b[1..])
  }

  predicate SortedKeys(nodes: map<Ptr, Node>, list: seq<Ptr>) {
    && (forall i | 0 <= i < |list| :: list[i] in nodes)
    && (forall i, j | 0 <= i < j < |list| :: nodes[list[i]].key < nodes[list[j]].key)
  }

  lemma {:induction false} LayerIsFollowed(L: Layout, k: nat, i: nat)
    requires WellFormed(L) && i < |L.chain| && L.levs[i] > k
    ensures Follows(L.nodes, L.chain[i], k, LayerFrom(L, k, i + 1))
    decreases |L.chain| - i
  {
    assert LinkOk(L, i, k);
    var j := NextPos(L.levs, k, i + 1);
    SkipUnlinked(L, k, i + 1, j);
    if j < |L.chain| {
      LayerIsFollowed(L, k, j);
      assert LayerFrom(L, k, j)[1..] == LayerFrom(L, k, j + 1);
    }
  }

  lemma {:induction false} SkipUnlinked(L: Layout, k: nat, i: nat, j: nat)
    requires |L.chain| == |L.levs| && i <= j <= |L.levs| && forall m | i <= m < j :: L.levs[m] <= k
    ensures LayerFrom(L, k, i) == LayerFrom(L, k, j)
    decreases j - i
  {
    if i < j {
      SkipUnlinked(L, k, i + 1, j);
    }
  }

  /** Every member of a layer is a position of the chain from `i` on. */
  lemma {:induction false} LayerMembers(L: Layout, k: nat, i: nat, p: Ptr)
    requires |L.chain| == |L.levs| && i <= |L.levs| && p in LayerFrom(L, k, i)
    ensures exists m :: i <= m < |L.chain| && L.chain[m] == p
    decreases |L.levs| - i
  {
    if L.levs[i] > k && p == L.chain[i] {
    } else {
      LayerMembers(L, k, i + 1, p);
    }
  }

  lemma {:induction false} LayerSorted(L: Layout, k: nat, i: nat)
    requires WellFormed(L) && 1 <= i <= |L.chain|
    ensures SortedKeys(L.nodes, LayerFrom(L, k, i))
    decreases |L.chain| - i
  {
    if i < |L.chain| {
      LayerSorted(L, k, i + 1);
      if L.levs[i] > k {
        var rest := LayerFrom(L, k, i + 1);
        forall j | 0 <= j < |rest|
          ensures KeyAt(L, i) < L.nodes[rest[j]].key
        {
          LayerMembers(L, k, i + 1, rest[j]);
          var m :| i + 1 <= m < |L.chain| && L.chain[m] == rest[j];
          assert KeyAt(L, i) < KeyAt(L, m);
        }
      }
    }
  }

  lemma {:induction false} LayerWithin(L: Layout, k: nat, i: nat)
    requires |L.chain| == |L.levs| && i <= |L.levs|
    ensures Subsequence(LayerFrom(L, k + 1, i), LayerFrom(L, k, i))
    decreases |L.levs| - i
  {
    if i < |L.levs| {
      LayerWithin(L, k, i + 1);
      var upper, lower := LayerFrom(L, k + 1, i + 1), LayerFrom(L, k, i + 1);
      if L.levs[i] > k + 1 {
        assert ([L.chain[i]] + upper)[1..] == upper;
        assert ([L.chain[i]] + lower)[1..] == lower;
      } else if L.levs[i] > k {
        SubsequenceGrows(upper, lower, L.chain[i]);
      }
    }
  }

  lemma {:induction false} SubsequenceGrows(a: seq<Ptr>, b: seq<Ptr>, p: Ptr)
    requires Subsequence(a, b)
    ensures Subsequence(a, [p] + b)
    decreases |b|, 1
  {
    assert ([p] + b)[1..] == b;
    if a != [] && a[0] == p {
      SubsequenceTail(a, b);
    }
  }

  lemma {:induction false} SubsequenceTail(a: seq<Ptr>, b: seq<Ptr>)
    requires a != [] && Subsequence(a, b)
    ensures Subsequence(a[1..], b)
    decreases |b|, 0
  {
    if a[0] == b[0] {
      assert b == [b[0]] + b[1..];
      if a[1..] != [] {
        SubsequenceGrows(a[1..], b[1..], b[0]);
      }
    } else {
      SubsequenceTail(a, b[1..]);
      assert b == [b[0]] + b[1..];
      SubsequenceGrows(a[1..], b[1..], b[0]);
    }
  }

  /** In memory, the pointers of each layer lead through exactly the nodes of that layer, in strictly
      growing key order, and each layer is a subsequence of the layer below. */
  lemma LayersAreSortedSubsequences(L: Layout, k: nat)
    requires WellFormed(L) && k < HeadHeight(L)
    ensures Follows(L.nodes, L.chain[0], k, Layer(L, k))
    ensures SortedKeys(L.nodes, Layer(L, k))
    ensures k > 0 ==> Subsequence(Layer(L, k), Layer(L, k - 1))
  {
    LayerIsFollowed(L, k, 0);
    LayerSorted(L, k, 1);
    if k > 0 {
      LayerWithin(L, k - 1, 1);
    }
  }

  // -------------------------------------------------------------------- one store

  function SetSkip(nodes: map<Ptr, Node>, p: Ptr, k: nat, v: Option<Ptr>): (r: map<Ptr, Node>)
    requires p in nodes && k < |nodes[p].skip|
  {
    nodes[p := nodes[p].(skip := nodes[p].skip[k := v])]
  }

  /** The layout after preds[k]->setSkip(k, node) links the node at `pos` into layer `k`. */
  function Raised(L: Layout, pos: nat, k: nat): (r: Layout)
    requires NodesOk(L) && 0 < pos < |L.chain| && k < L.levs[0]
  {
    var p := PredPos(L.levs, k, pos);
    Layout(SetSkip(L.nodes, L.chain[p], k, Some(L.chain[pos])), L.chain, L.levs[pos := k + 1])
  }

  /** The node at `pos` is linked below layer `k`, and its own pointer for layer `k` is set. */
  predicate ReadyToRaise(L: Layout, pos: nat, k: nat)
    requires NodesOk(L)
  {
    && 0 < pos < |L.chain| && L.levs[pos] == k < L.levs[0] && k < |L.nodes[L.chain[pos]].skip|
    && L.nodes[L.chain[pos]].skip[k] == PtrAt(L.chain, NextPos(L.levs, k, pos + 1))
  }

  lemma RaisedNodes(L: Layout, pos: nat, k: nat)
    requires NodesOk(L) && ReadyToRaise(L, pos, k)
    ensures NodesOk(Raised(L, pos, k))
  {
  }

  lemma RaisedNext(levs: seq<nat>, pos: nat, k: nat, l: nat, i: nat)
    requires 0 < pos < |levs| && levs[pos] == k < levs[0] && i <= |levs|
    ensures NextPos(levs[pos := k + 1], l, i) ==
            if l == k && PredPos(levs, k, pos) < i <= pos then pos else NextPos(levs, l, i)
  {
    var levs' := levs[pos := k + 1];
    var p := PredPos(levs, k, pos);
    if l == k && p < i <= pos {
      NextPosIs(levs', l, i, pos);
    } else {
      var j := NextPos(levs, l, i);
      assert l == k && i <= p ==> j <= p;
      NextPosIs(levs', l, i, j);
    }
  }

  lemma RaisedLink(L: Layout, pos: nat, k: nat, i: nat, l: nat)
    requires NodesOk(L) && ReadyToRaise(L, pos, k) && i < |L.chain|
    requires (i == pos && l == k) || (l < L.levs[i] && LinkOk(L, i, l))
    requires NodesOk(Raised(L, pos, k)) && l < Raised(L, pos, k).levs[i]
    ensures LinkOk(Raised(L, pos, k), i, l)
  {
    hide NextPos, PredPos;
    RaisedNext(L.levs, pos, k, l, i + 1);
  }

  /** Linking one more layer of the node at `pos` keeps the layout well formed. */
  lemma RaiseKeepsForm(L: Layout, pos: nat, k: nat)
    requires WellFormed(L) && ReadyToRaise(L, pos, k)
    ensures WellFormed(Raised(L, pos, k))
  {
    hide LinkOk;
    var r := Raised(L, pos, k);
    RaisedNodes(L, pos, k);
    forall i: nat, l: nat | i < |r.chain| && l < r.levs[i]
      ensures LinkOk(r, i, l)
    {
      RaisedLink(L, pos, k, i, l);
    }
    SameKeysSorted(L, r);
  }

  lemma SameKeysSorted(L: Layout, r: Layout)
    requires NodesOk(L) && NodesOk(r) && r.chain == L.chain && Sorted(L)
    requires forall p | p in L.nodes :: p in r.nodes && r.nodes[p].key == L.nodes[p].key
    ensures Sorted(r)
  {
    forall i, j | 1 <= i < j < |r.chain|
      ensures KeyAt(r, i) < KeyAt(r, j)
    {
      assert KeyAt(L, i) < KeyAt(L, j);
    }
  }

  /** The layout after preds[k]->setSkip(k, node->skip(k)) unlinks the node at `pos` from layer `k`. */
  function Lowered(L: Layout, pos: nat, k: nat): (r: Layout)
    requires NodesOk(L) && 0 < pos < |L.chain| && k < L.levs[pos]
  {
    var p := PredPos(L.levs, k, pos);
    Layout(SetSkip(L.nodes, L.chain[p], k, L.nodes[L.chain[pos]].skip[k]), L.chain, L.levs[pos := k])
  }

  lemma LoweredNodes(L: Layout, pos: nat, k: nat)
    requires NodesOk(L) && 0 < pos < |L.chain| && L.levs[pos] == k + 1
    ensures NodesOk(Lowered(L, pos, k))
  {
  }

  lemma LoweredNext(levs: seq<nat>, pos: nat, k: nat, l: nat, i: nat)
    requires 0 < pos < |levs| && levs[pos] == k + 1 <= levs[0] && i <= |levs|
    ensures NextPos(levs[pos := k], l, i) ==
            if l == k && PredPos(levs, k, pos) < i <= pos then NextPos(levs, l, pos + 1) else NextPos(levs, l, i)
  {
    var levs' := levs[pos := k];
    var p := PredPos(levs, k, pos);
    if l == k && p < i <= pos {
      NextPosIs(levs', l, i, NextPos(levs, l, pos + 1));
    } else {
      var j := NextPos(levs, l, i);
      assert l == k && i <= p ==> j <= p;
      NextPosIs(levs', l, i, j);
    }
  }

  lemma LoweredLink(L: Layout, pos: nat, k: nat, i: nat, l: nat)
    requires NodesOk(L) && 0 < pos < |L.chain| && L.levs[pos] == k + 1 && i < |L.chain|
    requires LinkOk(L, pos, k) && l < L.levs[i] && LinkOk(L, i, l)
    requires NodesOk(Lowered(L, pos, k)) && l < Lowered(L, pos, k).levs[i]
    ensures LinkOk(Lowered(L, pos, k), i, l)
  {
    hide NextPos, PredPos;
    LoweredNext(L.levs, pos, k, l, i + 1);
  }

  /** Unlinking the topmost layer of the node at `pos` keeps the layout well formed. */
  lemma LowerKeepsForm(L: Layout, pos: nat, k: nat)
    requires WellFormed(L) && 0 < pos < |L.chain| && L.levs[pos] == k + 1
    ensures WellFormed(Lowered(L, pos, k))
  {
    hide LinkOk;
    var r := Lowered(L, pos, k);
    LoweredNodes(L, pos, k);
    forall i: nat, l: nat | i < |r.chain| && l < r.levs[i]
      ensures LinkOk(r, i, l)
    {
      LoweredLink(L, pos, k, i, l);
    }
    SameKeysSorted(L, r);
  }

  // -------------------------------------------------------------------- entering and leaving the chain

  /** `r` is `L` with node `p`, linked in no layer, standing at `pos`; memory is the same. */
  predicate Enters(L: Layout, r: Layout, pos: nat, p: Ptr) {
    && pos <= |L.chain| == |L.levs| && |r.chain| == |r.levs| == |L.chain| + 1 && r.nodes == L.nodes
    && r.chain[pos] == p && r.levs[pos] == 0
    && (forall i | 0 <= i < pos :: r.chain[i] == L.chain[i] && r.levs[i] == L.levs[i])
    && (forall i | pos < i < |r.chain| :: r.chain[i] == L.chain[i - 1] && r.levs[i] == L.levs[i - 1])
  }

  function Entered(L: Layout, pos: nat, p: Ptr): (r: Layout)
    requires pos <= |L.chain| == |L.levs|
    ensures Enters(L, r, pos, p)
  {
    Layout(L.nodes, L.chain[..pos] + [p] + L.chain[pos..], L.levs[..pos] + [0] + L.levs[pos..])
  }

  function Left(r: Layout, pos: nat): (L: Layout)
    requires pos < |r.chain| == |r.levs| && r.levs[pos] == 0
    ensures Enters(L, r, pos, r.chain[pos])
  {
    Layout(r.nodes, r.chain[..pos] + r.chain[pos + 1..], r.levs[..pos] + r.levs[pos + 1..])
  }

  /** Position `i` of the chain `L` in the chain with one node more. */
  function Shifted(pos: nat, i: nat): (j: nat) {
    if i < pos then i else i + 1
  }

  /** A node of no layer changes no pointer's target. */
  lemma EnteredNext(L: Layout, r: Layout, pos: nat, p: Ptr, k: nat, i: nat)
    requires Enters(L, r, pos, p) && i <= |L.levs|
    ensures PtrAt(r.chain, NextPos(r.levs, k, Shifted(pos, i))) == PtrAt(L.chain, NextPos(L.levs, k, i))
    ensures i == pos ==> NextPos(r.levs, k, pos) == NextPos(r.levs, k, pos + 1)
  {
    var j := NextPos(L.levs, k, i);
    NextPosIs(r.levs, k, Shifted(pos, i), Shifted(pos, j));
    if i == pos {
      NextPosIs(r.levs, k, pos, Shifted(pos, j));
    }
  }

  /** `p` may stand at `pos`: it is a new member and its key lies between its neighbours. */
  predicate FitsAt(L: Layout, pos: nat, p: Ptr)
    requires NodesOk(L)
  {
    && 0 < pos <= |L.chain| && p in L.nodes && p !in L.chain
    && (forall i | 1 <= i < |L.chain| :: if i < pos then KeyAt(L, i) < L.nodes[p].key else L.nodes[p].key < KeyAt(L, i))
  }

  lemma EnteredNodes(L: Layout, r: Layout, pos: nat, p: Ptr)
    requires NodesOk(L) && Enters(L, r, pos, p) && FitsAt(L, pos, p)
    ensures NodesOk(r)
  {
  }

  lemma EnteredSorted(L: Layout, r: Layout, pos: nat, p: Ptr)
    requires NodesOk(L) && NodesOk(r) && Sorted(L) && Enters(L, r, pos, p) && FitsAt(L, pos, p)
    ensures Sorted(r)
  {
    forall i, j | 1 <= i < j < |r.chain|
      ensures KeyAt(r, i) < KeyAt(r, j)
    {
      if i == pos {
        assert KeyAt(L, j - 1) > L.nodes[p].key;
      } else if j == pos {
        assert KeyAt(L, i) < L.nodes[p].key;
      } else {
        assert KeyAt(L, if i < pos then i else i - 1) < KeyAt(L, if j < pos then j else j - 1);
      }
    }
  }

  lemma EnteredLink(L: Layout, r: Layout, pos: nat, p: Ptr, i: nat, k: nat)
    requires NodesOk(L) && NodesOk(r) && Enters(L, r, pos, p) && i < |L.chain| && k < L.levs[i]
    requires r.levs[Shifted(pos, i)] == L.levs[i]
    ensures LinkOk(L, i, k) <==> LinkOk(r, Shifted(pos, i), k)
  {
    hide NextPos, Distinct;
    EnteredNext(L, r, pos, p, k, i + 1);
  }

  /** A node of no layer takes its place in the chain. */
  lemma EnterKeepsForm(L: Layout, r: Layout, pos: nat, p: Ptr)
    requires WellFormed(L) && Enters(L, r, pos, p) && FitsAt(L, pos, p)
    ensures WellFormed(r)
  {
    hide LinkOk;
    EnteredNodes(L, r, pos, p);
    EnteredSorted(L, r, pos, p);
    forall i: nat, k: nat | i < |r.chain| && k < r.levs[i]
      ensures LinkOk(r, i, k)
    {
      var i' := if i < pos then i else i - 1;
      EnteredLink(L, r, pos, p, i', k);
    }
  }

  lemma LeftNodes(L: Layout, r: Layout, pos: nat, p: Ptr)
    requires NodesOk(r) && Enters(L, r, pos, p) && 0 < pos
    ensures NodesOk(L)
  {
    forall i | 0 <= i < |L.chain|
      ensures r.chain[Shifted(pos, i)] == L.chain[i] && r.levs[Shifted(pos, i)] == L.levs[i]
    {
    }
    forall i, j | 0 <= i < j < |L.chain|
      ensures L.chain[i] != L.chain[j]
    {
      assert r.chain[Shifted(pos, i)] != r.chain[Shifted(pos, j)];
    }
  }

  lemma LeftSorted(L: Layout, r: Layout, pos: nat, p: Ptr)
    requires NodesOk(L) && NodesOk(r) && Sorted(r) && Enters(L, r, pos, p) && 0 < pos
    ensures Sorted(L)
  {
    forall i, j | 1 <= i < j < |L.chain|
      ensures KeyAt(L, i) < KeyAt(L, j)
    {
      assert KeyAt(r, Shifted(pos, i)) < KeyAt(r, Shifted(pos, j));
    }
  }

  /** A node that has left every layer leaves the chain. */
  lemma LeaveKeepsForm(L: Layout, r: Layout, pos: nat, p: Ptr)
    requires WellFormed(r) && Enters(L, r, pos, p) && 0 < pos
    ensures WellFormed(L)
  {
    hide LinkOk;
    LeftNodes(L, r, pos, p);
    LeftSorted(L, r, pos, p);
    forall i: nat, k: nat | i < |L.chain| && k < L.levs[i]
      ensures LinkOk(L, i, k)
    {
      assert r.levs[Shifted(pos, i)] == L.levs[i];
      EnteredLink(L, r, pos, p, i, k);
      assert LinkOk(r, Shifted(pos, i), k);
    }
  }

  // -------------------------------------------------------------------- stores that no layer sees

  /** `nodes'` has the same keys and, in the layers a node is linked in, the same pointers. */
  predicate SameLinks(L: Layout, nodes': map<Ptr, Node>)
    requires NodesOk(L)
  {
    forall i | 0 <= i < |L.chain| ::
      && L.chain[i] in nodes' && nodes'[L.chain[i]].key == L.nodes[L.chain[i]].key
      && |nodes'[L.chain[i]].skip| == |L.nodes[L.chain[i]].skip|
      && nodes'[L.chain[i]].skip[..L.levs[i]] == L.nodes[L.chain[i]].skip[..L.levs[i]]
  }

  lemma UnseenKeepsForm(L: Layout, nodes': map<Ptr, Node>)
    requires WellFormed(L) && SameLinks(L, nodes')
    ensures WellFormed(L.(nodes := nodes'))
  {
    hide NextPos;
    var r := L.(nodes := nodes');
    assert NodesOk(r);
    forall i, j | 1 <= i < j < |r.chain|
      ensures KeyAt(r, i) < KeyAt(r, j)
    {
      assert KeyAt(L, i) < KeyAt(L, j);
    }
    forall i: nat, k: nat | i < |r.chain| && k < r.levs[i]
      ensures LinkOk(r, i, k)
    {
      assert LinkOk(L, i, k);
      assert nodes'[L.chain[i]].skip[..L.levs[i]][k] == L.nodes[L.chain[i]].skip[..L.levs[i]][k];
    }
  }

  // -------------------------------------------------------------------- keys and lower bounds

  function Keys(L: Layout): (s: set<int>)
    requires NodesOk(L)
  {
    set i | 1 <= i < |L.chain| :: KeyAt(L, i)
  }

  /** The first data position whose key is not below `x`, or the end. */
  function LowerBound(L: Layout, x: int, i: nat): (j: nat)
    requires NodesOk(L) && 1 <= i <= |L.chain|
    ensures i <= j <= |L.chain| && (forall m | i <= m < j :: KeyAt(L, m) < x)
    ensures j < |L.chain| ==> KeyAt(L, j) >= x
    decreases |L.chain| - i
  {
    if i == |L.chain| || KeyAt(L, i) >= x then i else LowerBound(L, x, i + 1)
  }

  function Bound(L: Layout, x: int): (j: nat)
    requires NodesOk(L)
    ensures 1 <= j <= |L.chain|
  {
    LowerBound(L, x, 1)
  }

  /** Positions before the bound hold smaller keys, positions from it on do not. */
  lemma BoundSplits(L: Layout, x: int, i: nat)
    requires WellFormed(L) && 1 <= i < |L.chain|
    ensures i < Bound(L, x) <==> KeyAt(L, i) < x
  {
    var b := Bound(L, x);
    if i > b {
      assert KeyAt(L, b) < KeyAt(L, i);
    }
  }

  lemma PresentAtBound(L: Layout, x: int)
    requires WellFormed(L)
    ensures x in Keys(L) <==> Bound(L, x) < |L.chain| && KeyAt(L, Bound(L, x)) == x
  {
    if x in Keys(L) {
      var i :| 1 <= i < |L.chain| && KeyAt(L, i) == x;
      BoundSplits(L, x, i);
    }
  }

  lemma EnterAddsKey(L: Layout, r: Layout, pos: nat, p: Ptr)
    requires NodesOk(L) && NodesOk(r) && Enters(L, r, pos, p) && 0 < pos
    ensures Keys(r) == Keys(L) + {L.nodes[p].key}
  {
    forall x
      ensures x in Keys(r) <==> x in Keys(L) || x == L.nodes[p].key
    {
      if x in Keys(L) {
        var i :| 1 <= i < |L.chain| && KeyAt(L, i) == x;
        assert KeyAt(r, Shifted(pos, i)) == x;
      }
      if x == L.nodes[p].key {
        assert KeyAt(r, pos) == x;
      }
      if x in Keys(r) {
        var i :| 1 <= i < |r.chain| && KeyAt(r, i) == x;
        if i != pos {
          assert KeyAt(L, if i < pos then i else i - 1) == x;
        }
      }
    }
  }
}
