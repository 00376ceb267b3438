/**
 ConcurrentSkipList::Skipper: a cursor with one cached predecessor and successor per layer.  The list is at
 rest while the cursor moves.  Operator ++ may leave the upper layers behind; skipping ahead still lands on
 the lower bound.
 */
module Skippers {
  import opened Common
  import opened SkipListLayout
  import opened SkipLists

  /** Layer `i` caches a node linked in that layer, at `p`, not after `top`, and its successor there. */
  ghost predicate Caches(L: Layout, i: nat, top: nat, p: nat, pred: Ptr, succ: Option<Ptr>)
    requires NodesOk(L)
  {
    && p <= top && p < |L.chain| && L.levs[p] > i
    && pred == L.chain[p] && succ == PtrAt(L.chain, NextPos(L.levs, i, p + 1))
  }

  /** A node is before the bound exactly if it is the head or has a smaller key. */
  lemma BeforeBound(L: Layout, x: int, p: nat)
    requires WellFormed(L) && p < |L.chain|
    ensures p < Bound(L, x) <==> p == 0 || KeyAt(L, p) < x
    ensures p < Bound(L, x) <==> Reach(L, x, p) == Bound(L, x)
  {
    if p > 0 {
      BoundSplits(L, x, p);
    }
  }

  /** The successor of a cached node is cached in turn. */
  lemma CacheNext(L: Layout, i: nat, top: nat, p: nat, pred: Ptr, succ: Option<Ptr>, top': nat)
    requires WellFormed(L) && Caches(L, i, top, p, pred, succ) && succ.Some? && NextPos(L.levs, i, p + 1) <= top'
    ensures succ.value in L.nodes && i < |L.nodes[succ.value].skip|
    ensures Caches(L, i, top', NextPos(L.levs, i, p + 1), succ.value, L.nodes[succ.value].skip[i])
  {
    assert LinkOk(L, NextPos(L.levs, i, p + 1), i);
  }

  /** A layer whose successor is the node at `top` moves there. */
  lemma CaughtUp(L: Layout, i: nat, top: nat, p: nat, pred: Ptr, succ: Option<Ptr>)
    requires WellFormed(L) && Caches(L, i, top, p, pred, succ) && top < |L.chain| && succ == Some(L.chain[top])
    ensures succ.value in L.nodes && i < |L.nodes[succ.value].skip|
    ensures Caches(L, i, top, top, succ.value, L.nodes[succ.value].skip[i])
  {
    hide LinksOk, Sorted, NextPos;
    assert NextPos(L.levs, i, p + 1) == top;
    CacheNext(L, i, top, p, pred, succ, top);
  }

  lemma BottomMoves(L: Layout, top: nat, pred: Ptr, succ: Option<Ptr>)
    requires WellFormed(L) && Solid(L) && Caches(L, 0, top, top, pred, succ) && succ.Some?
    ensures top + 1 < |L.chain| && succ == Some(L.chain[top + 1])
    ensures succ.value in L.nodes && 0 < |L.nodes[succ.value].skip|
    ensures Caches(L, 0, top + 1, top + 1, succ.value, L.nodes[succ.value].skip[0])
  {
    hide LinksOk, Sorted, NextPos, Distinct;
    CacheBottom(L, top, pred, succ);
    CacheNext(L, 0, top, top, pred, succ, top + 1);
  }

  lemma CacheBottom(L: Layout, top: nat, pred: Ptr, succ: Option<Ptr>)
    requires NodesOk(L) && Solid(L) && Caches(L, 0, top, top, pred, succ)
    ensures top + 1 <= |L.chain| && NextPos(L.levs, 0, top + 1) == top + 1 && succ == PtrAt(L.chain, top + 1)
  {
    NextPosIs(L.levs, 0, top + 1, top + 1);
  }

  class Skipper {
    const list: SkipList
    var headHeight: nat
    var preds: array<Ptr>
    var succs: array<Option<Ptr>>
    var hints: array<int>
    ghost var pos: seq<nat>   // the position of each cached predecessor

    ghost predicate Valid()
      reads this, list, preds, succs, hints
    {
      && list.Valid() && headHeight == list.levs[0]
      && preds.Length == succs.Length == hints.Length == |pos| == headHeight
      && (forall i | 0 <= i < headHeight :: Caches(list.View(), i, pos[0], pos[i], preds[i], succs[i]))
      && (forall i, j | 0 <= i < j < headHeight :: pos[j] <= pos[i])
      && (forall i | 0 <= i < headHeight :: 0 <= hints[i] < headHeight)
    }

    /** The cursor: the position of the current node, or the end. */
    ghost function At(): (p: nat)
      reads this
      requires |pos| > 0
    {
      pos[0] + 1
    }

    /** curHeight(). */
    ghost function Height(): (h: nat)
      reads this, list, preds, succs, hints
      requires Valid()
    {
      CurrentNode();
      if succs[0].None? then 0
      else
        var h := |list.nodes[succs[0].value].skip|;
        if headHeight < h then headHeight else h
    }

    /** The layer at or above `lyr` from which `to` restarts: the first whose successor is not behind the target. */
    ghost function RestartFrom(x: int, lyr: nat): (l: nat)
      reads this, list, preds, succs, hints
      requires Valid() && lyr < headHeight
      ensures lyr <= l < headHeight && (forall i | lyr <= i < l :: Behind(i, x))
      ensures l == headHeight - 1 || !Behind(l, x)
      decreases headHeight - lyr
    {
      if lyr < headHeight - 1 && Behind(lyr, x) then RestartFrom(x, lyr + 1) else lyr
    }

    /** The position of the cached predecessor from which `to` restarts, on a cursor that is not at the end. */
    ghost function RestartPos(x: int): (p: nat)
      reads this, list, preds, succs, hints
      requires Valid() && 0 < Height()
      ensures p < |list.chain|
    {
      var lyr := RestartFrom(x, hints[Height() - 1]);
      assert Caches(list.View(), lyr, pos[0], pos[lyr], preds[lyr], succs[lyr]);
      pos[lyr]
    }

    /** The predecessor `to` restarts from is the head or has a smaller key than the target. */
    ghost predicate Reaches(x: int)
      reads this, list, preds, succs, hints
      requires Valid() && 0 < Height()
    {
      RestartPos(x) == 0 || KeyAt(list.View(), RestartPos(x)) < x
    }

    /** A target that is not behind the cursor. */
    ghost predicate Ahead(x: int)
      reads this, list, preds, succs, hints
      requires Valid() && pos[0] < |list.chain|
    {
      pos[0] == 0 || KeyAt(list.View(), pos[0]) < x
    }

    constructor (list: SkipList)
      requires list.Valid()
      ensures Valid() && this.list == list && At() == 1 && fresh(preds) && fresh(succs) && fresh(hints)
      ensures forall i | 0 <= i < headHeight - 1 :: hints[i] == i + 1
      ensures hints[headHeight - 1] == headHeight - 1
    {
      this.list := list;
      var h := |list.nodes[list.head].skip|;
      headHeight := h;
      var head, skip := list.head, list.nodes[list.head].skip;
      preds := new Ptr[h](_ => head);
      succs := new Option<Ptr>[h](i requires 0 <= i < |skip| => skip[i]);
      hints := new int[h](i => if i + 1 < h then i + 1 else h - 1);
      pos := seq(h, _ => 0);
      new;
      forall i | 0 <= i < h
        ensures Caches(list.View(), i, pos[0], pos[i], preds[i], succs[i])
      {
        list.NextOf(list.head, i, 0);
      }
    }

    /** The cached successor in the bottom layer is the current node. */
    lemma CurrentNode()
      requires Valid()
      ensures pos[0] < |list.chain| && At() <= |list.chain| && succs[0] == PtrAt(list.chain, At())
    {
      hide LinksOk, Sorted, NextPos, AtRest;
      assert Caches(list.View(), 0, pos[0], pos[0], preds[0], succs[0]);
      CacheBottom(list.View(), pos[0], preds[0], succs[0]);
    }

    predicate Good()
      reads this, succs
      requires succs.Length > 0
    {
      succs[0].Some?
    }

    method CurHeight() returns (h: nat)
      requires Valid()
      ensures h == Height() <= headHeight && (h == 0 <==> At() == |list.chain|)
      ensures pos[0] < |list.chain|
      ensures At() < |list.chain| ==>
                var node := list.nodes[list.chain[At()]];
                h == if |node.skip| < headHeight then |node.skip| else headHeight
    {
      hide LinksOk, Sorted, NextPos;
      CurrentNode();
      if succs[0].None? {
        return 0;
      }
      assert AtRest(list.View(), At());
      h := |list.nodes[succs[0].value].skip|;
      if headHeight < h {
        h := headHeight;
      }
    }

    /** The bottom layer of operator++. */
    method AdvanceBottom()
      requires Valid() && succs.Length > 0 && Good()
      modifies this`pos, preds, succs
      ensures Valid() && At() == old(At()) + 1 && preds[0] == list.chain[pos[0]]
    {
      hide LinksOk, Sorted, NextPos, Distinct, AtRest, Caches;
      CurrentNode();
      ghost var p := At();
      ghost var L, before := list.View(), pos;
      BottomMoves(L, pos[0], preds[0], succs[0]);
      preds[0] := succs[0].value;
      succs[0] := list.nodes[preds[0]].skip[0];
      pos := pos[0 := p];
      forall i | 0 < i < headHeight
        ensures pos[i] <= pos[0] && Caches(L, i, pos[0], pos[i], preds[i], succs[i])
      {
        CacheMeans(L, i, before[0], before[i], preds[i], succs[i]);
        OldCache(L, before[0], before[i], p, i, preds[i], succs[i]);
      }
    }

    /** The layers up to `i` are at the cursor. */
    ghost predicate Level(i: nat)
      reads this
    {
      i < |pos| && forall j | 0 <= j <= i :: pos[j] == pos[0]
    }

    /** One upper layer of operator++: it caught up with the cursor. */
    method AdvanceLayer(i: nat)
      requires Valid() && 0 < i < headHeight && pos[0] < |list.chain| && succs[i] == Some(list.chain[pos[0]])
      requires Level(i - 1)
      modifies this`pos, preds, succs
      ensures Valid() && pos[0] == old(pos[0]) && preds[0] == old(preds[0]) && Level(i)
    {
      hide LinksOk, Sorted, NextPos, AtRest, Distinct, Caches;
      ghost var L := list.View();
      ghost var before := pos;
      CaughtUp(L, i, pos[0], pos[i], preds[i], succs[i]);
      preds[i] := succs[i].value;
      succs[i] := list.nodes[preds[i]].skip[i];
      pos := pos[i := pos[0]];
      forall j, l | 0 <= j < l < headHeight
        ensures pos[l] <= pos[j]
      {
        assert before[l] <= before[j] && before[j] <= before[0];
      }
    }

    /** operator++, on a cursor that is not at the end. */
    method Advance()
      requires Valid() && succs.Length > 0 && Good()
      modifies this`pos, preds, succs
      ensures Valid() && At() == old(At()) + 1
    {
      hide LinksOk, Sorted, NextPos, Distinct, AtRest, Caches;
      AdvanceBottom();
      CurrentNode();
      var height := CurHeight();
      var i := 1;
      while i < height && succs[i] == Some(preds[0])
        invariant 1 <= i && Valid() && pos[0] == old(pos[0]) + 1 < |list.chain| && preds[0] == list.chain[pos[0]]
        invariant Level(i - 1)
      {
        AdvanceLayer(i);
        i := i + 1;
      }
    }

    /** to: skip to the first node whose key is not below `x`.  The cursor at the end stays there.  Otherwise the search
        starts again from a cached predecessor; it ends at the lower bound exactly if that is the head or has a
        smaller key, and right behind it if not.  A key is found exactly if it is present and reached. */
    method To(x: int) returns (found: bool)
      requires Valid()
      modifies this`pos, preds, succs, hints
      ensures Valid() && pos[0] < |list.chain|
      ensures old(At()) == |list.chain| ==> pos == old(pos) && !found
      ensures old(At()) < |list.chain| ==>
                && 0 < old(Height()) && At() == Reach(list.View(), x, old(RestartPos(x)))
                && (At() == Bound(list.View(), x) <==> old(Reaches(x)))
      ensures found <==> x in list.Contents() && At() == Bound(list.View(), x)
      ensures hints[..] == old(if Height() == 0 then hints[..]
                               else hints[..][Height() - 1 := RestartFrom(x, hints[Height() - 1])])
      ensures old(pos[0] < |list.chain| && Ahead(x)) ==>
                At() == Bound(list.View(), x) && (found <==> x in list.Contents())
    {
      hide LinksOk, Sorted, NextPos, Distinct, AtRest, Bound, Keys, Caches, Height, Reach, RestartFrom, Solid, Reaches,
           Ahead;
      CurrentNode();
      PresentAtBound(list.View(), x);
      RestartTells(x);
      var height := CurHeight();
      if height == 0 {
        return false;
      }
      ghost var p := RestartPos(x);
      var lyr := UpdateHint(height - 1, x);
      assert p == pos[lyr];
      found := Search(x, lyr);
    }

    /** What the node to restart from says, and that a target ahead of the cursor is reached from anywhere. */
    lemma RestartTells(x: int)
      requires Valid() && pos[0] < |list.chain|
      ensures var L := list.View();
              && (0 < Height() ==> (Reaches(x) <==> Reach(L, x, RestartPos(x)) == Bound(L, x)))
              && (0 < Height() ==> (Reaches(x) <==> RestartPos(x) < Bound(L, x)))
              && (0 < Height() && Ahead(x) ==> Reaches(x))
              && (At() == |list.chain| && Ahead(x) ==> Bound(L, x) == |list.chain|)
    {
      hide LinksOk, Sorted, NextPos, Distinct, AtRest, Bound, Keys, Caches, Height, Reach, RestartFrom, Solid;
      var L := list.View();
      BeforeBound(L, x, pos[0]);
      if 0 < Height() {
        BeforeBound(L, x, RestartPos(x));
        assert RestartPos(x) <= pos[0];
      }
    }

    /** The layer to restart from, kept as a hint for the next node of this height. */
    method UpdateHint(layer: nat, x: int) returns (lyr: nat)
      requires Valid() && layer < headHeight
      modifies hints
      ensures Valid() && lyr == old(RestartFrom(x, hints[layer])) < headHeight
      ensures hints[..] == old(hints[..])[layer := lyr]
    {
      hide LinksOk, Sorted, NextPos, Distinct, AtRest, Caches;
      lyr := hints[layer];
      while lyr < headHeight - 1 && Behind(lyr, x)
        invariant 0 <= lyr < headHeight && RestartFrom(x, lyr) == RestartFrom(x, hints[layer])
      {
        lyr := lyr + 1;
      }
      hints[layer] := lyr;
    }

    /** greater(data, succs_[lyr]). */
    predicate Behind(lyr: nat, x: int)
      reads this, list, preds, succs, hints
      requires Valid() && lyr < headHeight
    {
      assert Caches(list.View(), lyr, pos[0], pos[lyr], preds[lyr], succs[lyr]);
      list.Greater(x, succs[lyr])
    }

    /** The layers from `lyr` down are searched again, the others keep what they cache. */
    method Search(x: int, lyr: nat) returns (found: bool)
      requires Valid() && lyr < headHeight && pos[lyr] < |list.chain|
      modifies this`pos, preds, succs
      ensures Valid() && At() == Reach(list.View(), x, old(pos[lyr]))
      ensures found <==> x in list.Contents() && old(pos[lyr]) < Bound(list.View(), x)
    {
      hide LinksOk, Sorted, NextPos, PredPos, Distinct, AtRest, Bound, Keys, Caches, Reach;
      ghost var L, before := list.View(), pos;
      ghost var preds0, succs0 := preds[..], succs[..];
      CacheMeans(L, lyr, pos[0], pos[lyr], preds[lyr], succs[lyr]);
      ghost var b := Reach(L, x, pos[lyr]);
      var foundLayer := list.FindInsertionPoint(preds[lyr], lyr, x, preds, succs, pos[lyr]);
      pos := NewPos(L, before, lyr, b);
      SearchCaches(L, before, lyr, b, preds0, succs0, preds[..], succs[..]);
      NewPosFalls(L, before, lyr, b, preds0, succs0);
      BottomPos(L, b);
      FoundMeansPresent(x, lyr, before[lyr]);
      if foundLayer < 0 {
        return false;
      }
      found := !list.nodes[succs[0].value].marked;
    }

    /** Any legal sequence of moves: the cursor is where the same moves over the sorted keys would put it, and
        each skip answers whether its target is present. */
    method Run(moves: seq<Move>) returns (answers: seq<bool>)
      requires Valid() && Legal(list.View(), At(), moves)
      modifies this`pos, preds, succs, hints
      ensures Valid() && At() == Moved(list.View(), At0(old(pos)), moves)
      ensures |answers| == |moves|
      ensures forall i | 0 <= i < |moves| && moves[i].SkipTo? :: answers[i] <==> moves[i].x in list.Contents()
    {
      hide LinksOk, Sorted, NextPos, Distinct, AtRest, Bound, Keys, Caches, Height, RestartFrom,
           RestartPos, Reaches, Reach;
      answers := [];
      var k: nat := 0;
      while k < |moves|
        invariant k <= |moves| && Valid() && |answers| == k && Legal(list.View(), At(), moves[k..])
        invariant Moved(list.View(), At(), moves[k..]) == Moved(list.View(), At0(old(pos)), moves)
        invariant forall i | 0 <= i < k && moves[i].SkipTo? :: answers[i] <==> moves[i].x in list.Contents()
      {
        CurrentNode();
        assert moves[k..][0] == moves[k] && moves[k..][1..] == moves[k + 1..];
        var answer := true;
        match moves[k] {
          case Next => Advance();
          case SkipTo(x) => answer := To(x);
        }
        answers := answers + [answer];
        k := k + 1;
      }
    }

    lemma FoundMeansPresent(x: int, lyr: nat, c: nat)
      requires list.Valid() && 0 < succs.Length && lyr < list.levs[0] && c < |list.chain|
      requires succs[0] == PtrAt(list.chain, NextPos(list.levs, 0, Reach(list.View(), x, c)))
      ensures list.FoundFrom(x, lyr, c) >= 0 <==> x in list.Contents() && c < Bound(list.View(), x)
      ensures list.FoundFrom(x, lyr, c) >= 0 ==>
                succs[0].Some? && succs[0].value in list.nodes && !list.nodes[succs[0].value].marked
    {
      var b := Bound(list.View(), x);
      PresentAtBound(list.View(), x);
      if b < |list.chain| {
        NextPosIs(list.levs, 0, b, b);
        assert AtRest(list.View(), b);
      }
    }
  }

  /** A target behind the cursor, on a list of the keys 1 and 2 with one layer: after ++, to(1) restarts from the node
      of 1 itself, so it stays past it and answers that 1 is absent. */
  method ToMissesKeyBehind() returns (skipper: Skipper, found: bool)
    ensures skipper.Valid() && 1 in skipper.list.Contents() && !found
    ensures skipper.At() == 2 && Bound(skipper.list.View(), 1) == 1
  {
    hide LinksOk, Sorted, NextPos, Distinct, AtRest, Caches, Recorded, Solid, Keys, Bound;
    var list := new SkipList(1);
    var node, size := list.AddOrGetData(1, 1, false);
    node, size := list.AddOrGetData(2, 1, false);
    skipper := new Skipper(list);
    skipper.CurrentNode();
    skipper.Advance();
    skipper.CurrentNode();
    FirstKey(list.View(), 1, 2);
    found := skipper.To(1);
  }

  lemma FirstKey(L: Layout, a: int, b: int)
    requires WellFormed(L) && |L.chain| == 3 && Keys(L) == {a, b} && a < b
    ensures KeyAt(L, 1) == a && Bound(L, a) == 1
  {
    hide LinksOk, Distinct;
    assert KeyAt(L, 1) in Keys(L) && KeyAt(L, 2) in Keys(L) && KeyAt(L, 1) < KeyAt(L, 2);
  }

  datatype Move = Next | SkipTo(x: int)

  ghost function At0(pos: seq<nat>): (p: nat) {
    if |pos| > 0 then pos[0] + 1 else 0
  }

  /** The position after a sequence of moves: one further, or the lower bound of the target. */
  ghost function Moved(L: Layout, at: nat, moves: seq<Move>): (p: nat)
    requires NodesOk(L)
    decreases |moves|
  {
    if moves == [] then at
    else Moved(L, match moves[0] case Next => at + 1 case SkipTo(x) => Bound(L, x), moves[1..])
  }

  /** ++ only before the end, and no target behind the cursor. */
  ghost predicate Legal(L: Layout, at: nat, moves: seq<Move>)
    requires NodesOk(L)
    decreases |moves|
  {
    moves == [] ||
    match moves[0]
    case Next => at < |L.chain| && Legal(L, at + 1, moves[1..])
    case SkipTo(x) =>
      && 1 <= at <= |L.chain| && (at == 1 || KeyAt(L, at - 1) < x) && Legal(L, Bound(L, x), moves[1..])
  }

  lemma CacheMeans(L: Layout, i: nat, top: nat, p: nat, pred: Ptr, succ: Option<Ptr>)
    requires NodesOk(L) && Caches(L, i, top, p, pred, succ)
    ensures p <= top && p < |L.chain| && L.levs[p] > i && pred == L.chain[p]
  {
  }

  /** The positions cached after a search from layer `lyr` down that ended at `b`. */
  ghost function NewPos(L: Layout, pos: seq<nat>, lyr: nat, b: nat): (r: seq<nat>)
    requires NodesOk(L) && lyr < |pos| <= L.levs[0] && 0 < b <= |L.chain|
    ensures |r| == |pos|
    ensures forall i | 0 <= i < |pos| :: r[i] == if i <= lyr then PredPos(L.levs, i, b) else pos[i]
  {
    seq(|pos|, i requires 0 <= i < |pos| => if i <= lyr then PredPos(L.levs, i, b) else pos[i])
  }

  lemma BottomPos(L: Layout, b: nat)
    requires NodesOk(L) && Solid(L) && 0 < b <= |L.chain|
    ensures PredPos(L.levs, 0, b) == b - 1
  {
    PredPosIs(L.levs, 0, b, b - 1);
  }

  lemma PredAtLeast(levs: seq<nat>, k: nat, b: nat, p: nat)
    requires p < b <= |levs| && levs[0] > k && levs[p] > k
    ensures p <= PredPos(levs, k, b)
  {
  }

  /** Positions fall from layer to layer, also where the upper layers are stale. */
  lemma NewPosFalls(L: Layout, pos: seq<nat>, lyr: nat, b: nat, preds: seq<Ptr>, succs: seq<Option<Ptr>>)
    requires NodesOk(L) && lyr < |pos| == |preds| == |succs| <= L.levs[0] && pos[lyr] < b <= |L.chain|
    requires forall i | 0 <= i < |pos| :: Caches(L, i, pos[0], pos[i], preds[i], succs[i])
    requires forall i, j | 0 <= i < j < |pos| :: pos[j] <= pos[i]
    ensures var r := NewPos(L, pos, lyr, b); forall i, j | 0 <= i < j < |pos| :: r[j] <= r[i]
  {
    hide Distinct, Caches, NextPos, PredPos, NewPos;
    var r := NewPos(L, pos, lyr, b);
    forall i, j | 0 <= i < j < |pos|
      ensures r[j] <= r[i]
    {
      if j <= lyr {
        PredAtLeast(L.levs, i, b, PredPos(L.levs, j, b));
      } else if i <= lyr {
        CacheMeans(L, lyr, pos[0], pos[lyr], preds[lyr], succs[lyr]);
        PredAtLeast(L.levs, i, b, pos[lyr]);
      }
    }
  }

  lemma SearchCaches(L: Layout, pos: seq<nat>, lyr: nat, b: nat, preds: seq<Ptr>, succs: seq<Option<Ptr>>,
                     preds': seq<Ptr>, succs': seq<Option<Ptr>>)
    requires NodesOk(L) && Solid(L) && lyr < |pos| <= L.levs[0] && pos[lyr] < b <= |L.chain|
    requires |preds| == |succs| == |preds'| == |succs'| == |pos|
    requires forall i | 0 <= i < |pos| :: Caches(L, i, pos[0], pos[i], preds[i], succs[i])
    requires forall i, j | 0 <= i < j < |pos| :: pos[j] <= pos[i]
    requires forall i | lyr < i < |pos| :: preds'[i] == preds[i] && succs'[i] == succs[i]
    requires forall i | 0 <= i <= lyr ::
               preds'[i] == L.chain[PredPos(L.levs, i, b)] && succs'[i] == PtrAt(L.chain, NextPos(L.levs, i, b))
    ensures var r := NewPos(L, pos, lyr, b); forall i | 0 <= i < |pos| :: Caches(L, i, r[0], r[i], preds'[i], succs'[i])
  {
    hide Caches, NextPos, PredPos, NodesOk, NewPos;
    BottomPos(L, b);
    var r := NewPos(L, pos, lyr, b);
    forall i | 0 <= i < |pos|
      ensures Caches(L, i, r[0], r[i], preds'[i], succs'[i])
    {
      if i <= lyr {
        NewCache(L, b, i, preds'[i], succs'[i]);
      } else {
        OldCache(L, pos[0], pos[i], b - 1, i, preds'[i], succs'[i]);
      }
    }
  }

  lemma NewCache(L: Layout, b: nat, i: nat, pred: Ptr, succ: Option<Ptr>)
    requires NodesOk(L) && 0 < b <= |L.chain| && i < L.levs[0]
    requires pred == L.chain[PredPos(L.levs, i, b)] && succ == PtrAt(L.chain, NextPos(L.levs, i, b))
    ensures Caches(L, i, b - 1, PredPos(L.levs, i, b), pred, succ)
  {
    hide Distinct;
    NextPosIs(L.levs, i, PredPos(L.levs, i, b) + 1, NextPos(L.levs, i, b));
  }

  /** A stale layer is behind the cursor still. */
  lemma OldCache(L: Layout, top: nat, p: nat, top': nat, i: nat, pred: Ptr, succ: Option<Ptr>)
    requires NodesOk(L) && Caches(L, i, top, p, pred, succ) && p <= top'
    ensures Caches(L, i, top', p, pred, succ)
  {
  }
}
