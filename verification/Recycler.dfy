/**
 NodeRecycler: removed skip-list nodes wait in a vector until no accessor is left.

 One step performs one atomic load, store or fetch-add, takes or gives up the spin lock, or destroys one
 node.  Any number of accessors interleave.  An accessor is one addRef and the matching releaseRef; its
 identity is never used again.
 */
module Recycler {
  import opened Common

  type Acc = nat
  type Node = nat

  datatype Pc =
    | Open                          // holds a reference
    | AddLock(n: Node)              // add: take the lock
    | AddPush(n: Node)              // add: append to nodes_
    | AddDirty                      // add: dirty_ = true
    | AddUnlock
    | RelRefs                       // releaseRef: dirty_ was read as true, read refs_
    | RelFast                       // releaseRef: refs_.fetch_add(-1) without the lock
    | RelLock                       // releaseRef: take the lock
    | RelDec                        // releaseRef: refs_.fetch_add(-1) under the lock
    | RelSwap                       // releaseRef: that was the last reference, take the vector
    | RelClear(taken: seq<Node>)    // releaseRef: dirty_ = false
    | RelUnlock(taken: seq<Node>)
    | Destroying(taken: seq<Node>)

  /** Where a recycled node is. */
  datatype Place = Adding(acc: Acc) | Stored | Taken(acc: Acc) | Gone

  /** `used`, `openAt`, `place` and `log` record history: the accessors so far, the accessors open when a node
      was recycled, the place of each recycled node, and the destroyed nodes in order. */
  datatype State = State(refs: int, dirty: bool, lock: Option<Acc>, nodes: seq<Node>, accs: map<Acc, Pc>,
                         used: set<Acc>, openAt: map<Node, set<Acc>>, place: map<Node, Place>, log: seq<Node>)

  datatype Label = Acquire(a: Acc) | Recycle(a: Acc, n: Node) | Step(a: Acc)

  /** The reference of this accessor is still counted in refs_. */
  predicate IsOpen(pc: Pc) {
    match pc
    case RelSwap => false
    case RelClear(_) => false
    case RelUnlock(_) => false
    case Destroying(_) => false
    case _ => true
  }

  predicate HasLock(pc: Pc) {
    pc.AddPush? || pc.AddDirty? || pc.AddUnlock? || pc.RelDec? || pc.RelSwap? || pc.RelClear? || pc.RelUnlock?
  }

  function TakenBy(pc: Pc): (t: seq<Node>) {
    match pc
    case RelClear(t) => t
    case RelUnlock(t) => t
    case Destroying(t) => t
    case _ => []
  }

  function AddNode(pc: Pc): (n: Option<Node>) {
    match pc
    case AddLock(n) => Some(n)
    case AddPush(n) => Some(n)
    case _ => None
  }

  function OpenSet(s: State): (o: set<Acc>) {
    set a | a in s.accs && IsOpen(s.accs[a])
  }

  // -------------------------------------------------------------------- steps

  /** The place of every node of `list` becomes `p`. */
  function Placed(place: map<Node, Place>, list: seq<Node>, p: Place): (r: map<Node, Place>) {
    map n | n in place :: if n in list then p else place[n]
  }

  ghost predicate ReleaseStep(s: State, s': State, a: Acc)
    requires a in s.accs
  {
    match s.accs[a]
    case Open => s' == s.(accs := s.accs[a := if s.dirty then RelRefs else RelFast])   // read dirty_
    case RelRefs => s' == s.(accs := s.accs[a := if s.refs > 1 then RelFast else RelLock])
    case RelFast => s' == s.(refs := s.refs - 1, accs := s.accs - {a})
    case RelLock => s.lock.None? && s' == s.(lock := Some(a), accs := s.accs[a := RelDec])
    case RelDec =>
      s' == s.(refs := s.refs - 1, accs := s.accs[a := if s.refs == 1 then RelSwap else RelUnlock([])])
    case RelSwap =>
      s' == s.(nodes := [], accs := s.accs[a := RelClear(s.nodes)], place := Placed(s.place, s.nodes, Taken(a)))
    case RelClear(t) => s' == s.(dirty := false, accs := s.accs[a := RelUnlock(t)])
    case RelUnlock(t) => s' == s.(lock := None, accs := s.accs[a := Destroying(t)])
    case Destroying(t) =>
      if t == [] then s' == s.(accs := s.accs - {a})
      else s' == s.(accs := s.accs[a := Destroying(t[1..])], place := s.place[t[0] := Gone], log := s.log + [t[0]])
    case _ => false
  }

  ghost predicate AddStep(s: State, s': State, a: Acc)
    requires a in s.accs
  {
    match s.accs[a]
    case AddLock(n) => s.lock.None? && s' == s.(lock := Some(a), accs := s.accs[a := AddPush(n)])
    case AddPush(n) =>
      s' == s.(nodes := s.nodes + [n], accs := s.accs[a := AddDirty], place := s.place[n := Stored])
    case AddDirty => s' == s.(dirty := true, accs := s.accs[a := AddUnlock])
    case AddUnlock => s' == s.(lock := None, accs := s.accs[a := Open])
    case _ => false
  }

  ghost predicate StepOf(s: State, s': State, a: Acc)
    requires a in s.accs
  {
    ReleaseStep(s, s', a) || AddStep(s, s', a)
  }

  ghost predicate Next(s: State, s': State, lab: Label) {
    match lab
    case Acquire(a) =>   // addRef by a new accessor
      a !in s.used && s' == s.(refs := s.refs + 1, accs := s.accs[a := Open], used := s.used + {a})
    case Recycle(a, n) =>   // add: `n` has just been unlinked, once, under an open accessor
      && a in s.accs && s.accs[a].Open? && n !in s.place
      && s' == s.(accs := s.accs[a := AddLock(n)], place := s.place[n := Adding(a)],
                  openAt := s.openAt[n := OpenSet(s)])
    case Step(a) => a in s.accs && StepOf(s, s', a)
  }

  ghost predicate Init(s: State) {
    s == State(0, false, None, [], map[], {}, map[], map[], [])
  }

  ghost predicate IsRun(run: seq<State>, labs: seq<Label>) {
    && |run| == |labs| + 1 && Init(run[0])
    && forall i | 0 <= i < |labs| :: Next(run[i], run[i + 1], labs[i])
  }

  // -------------------------------------------------------------------- invariant

  ghost predicate CountInv(s: State) {
    s.refs == |OpenSet(s)| && s.accs.Keys <= s.used
  }

  ghost predicate LockInv(s: State) {
    && (forall a | a in s.accs :: HasLock(s.accs[a]) <==> s.lock == Some(a))
    && (s.lock.Some? ==> s.lock.value in s.accs)
  }

  predicate DirtyInv(s: State) {
    if s.lock.Some? && s.lock.value in s.accs && s.accs[s.lock.value].AddDirty? then s.nodes != []
    else if s.lock.Some? && s.lock.value in s.accs && s.accs[s.lock.value].RelClear? then s.nodes == []
    else s.dirty == (s.nodes != [])
  }

  /** A node is where its place says, and nowhere else. */
  predicate NodeInv(s: State, n: Node) {
    && (n in s.openAt <==> n in s.place)
    && (n in s.place ==>
          match s.place[n]
          case Adding(a) => a in s.accs && AddNode(s.accs[a]) == Some(n)
          case Stored => n in s.nodes
          case Taken(a) => a in s.accs && n in TakenBy(s.accs[a])
          case Gone => n in s.log)
    && (n in s.nodes ==> n in s.place && s.place[n] == Stored)
    && (n in s.log ==> n in s.place && s.place[n] == Gone)
  }

  /** The nodes an accessor adds or has taken are its own. */
  predicate AccInv(s: State, a: Acc, pc: Pc) {
    && Distinct(TakenBy(pc))
    && (forall n | n in TakenBy(pc) :: n in s.place && s.place[n] == Taken(a))
    && (AddNode(pc).Some? ==> AddNode(pc).value in s.place && s.place[AddNode(pc).value] == Adding(a))
  }

  ghost predicate PlaceInv(s: State) {
    && Distinct(s.nodes) && Distinct(s.log)
    && (forall n: Node :: NodeInv(s, n))
    && (forall a | a in s.accs :: AccInv(s, a, s.accs[a]))
  }

  /** No accessor that was open when `n` was recycled is open now. */
  predicate Released(s: State, n: Node)
    requires n in s.openAt
  {
    s.openAt[n] !! OpenSet(s)
  }

  ghost predicate SafeInv(s: State) {
    && (forall n | n in s.openAt :: s.openAt[n] <= s.used)
    && (forall n | n in s.openAt && n in s.place && (s.place[n].Taken? || s.place[n].Gone?) :: Released(s, n))
    && (s.lock.Some? && s.lock.value in s.accs && s.accs[s.lock.value].RelSwap? ==>
          forall n | n in s.nodes && n in s.openAt :: Released(s, n))
  }

  ghost predicate Inv(s: State) {
    CountInv(s) && LockInv(s) && DirtyInv(s) && PlaceInv(s) && SafeInv(s)
  }

  lemma InitInv(s: State)
    requires Init(s)
    ensures Inv(s)
  {
    assert OpenSet(s) == {};
  }

  // -------------------------------------------------------------------- preservation

  lemma OpenStep(s: State, s': State, a: Acc)
    requires a in s.accs && StepOf(s, s', a)
    ensures OpenSet(s') == if s.accs[a].RelFast? || s.accs[a].RelDec? then OpenSet(s) - {a} else OpenSet(s)
  {
    hide ReleaseStep, AddStep, OpenSet;
    if ReleaseStep(s, s', a) {
      OpenRelease(s, s', a);
    } else {
      OpenAdd(s, s', a);
    }
  }

  lemma OpenRelease(s: State, s': State, a: Acc)
    requires a in s.accs && ReleaseStep(s, s', a)
    ensures OpenSet(s') == if s.accs[a].RelFast? || s.accs[a].RelDec? then OpenSet(s) - {a} else OpenSet(s)
  {
    hide Placed;
  }

  lemma OpenAdd(s: State, s': State, a: Acc)
    requires a in s.accs && AddStep(s, s', a)
    ensures OpenSet(s') == OpenSet(s) && !s.accs[a].RelFast? && !s.accs[a].RelDec?
  {
  }

  /** What a step does to the set of open accessors. */
  lemma OpenAfter(s: State, s': State, lab: Label)
    requires Next(s, s', lab)
    ensures OpenSet(s') == match lab
                           case Acquire(a) => OpenSet(s) + {a}
                           case Recycle(_, _) => OpenSet(s)
                           case Step(a) =>
                             if s.accs[a].RelFast? || s.accs[a].RelDec? then OpenSet(s) - {a} else OpenSet(s)
  {
    hide StepOf;
    if lab.Step? {
      OpenStep(s, s', lab.a);
    }
  }

  /** refs_ moves with the set of open accessors. */
  lemma RefsAfter(s: State, s': State, lab: Label)
    requires Next(s, s', lab)
    ensures s'.refs == match lab
                       case Acquire(_) => s.refs + 1
                       case Recycle(_, _) => s.refs
                       case Step(a) => if s.accs[a].RelFast? || s.accs[a].RelDec? then s.refs - 1 else s.refs
    ensures s'.accs.Keys <= s.accs.Keys + (if lab.Acquire? then {lab.a} else {})
    ensures s'.used == if lab.Acquire? then s.used + {lab.a} else s.used
    ensures match lab case Step(a) => a in s.accs case Acquire(a) => a !in s.used case _ => true
  {
    hide ReleaseStep, AddStep, OpenSet;
    if lab.Step? {
      if ReleaseStep(s, s', lab.a) {
        RefsRelease(s, s', lab.a);
      } else {
        RefsAdd(s, s', lab.a);
      }
    }
  }

  lemma RefsRelease(s: State, s': State, a: Acc)
    requires a in s.accs && ReleaseStep(s, s', a)
    ensures s'.refs == (if s.accs[a].RelFast? || s.accs[a].RelDec? then s.refs - 1 else s.refs)
    ensures s'.accs.Keys <= s.accs.Keys && s'.used == s.used
  {
    hide Placed;
  }

  lemma RefsAdd(s: State, s': State, a: Acc)
    requires a in s.accs && AddStep(s, s', a)
    ensures s'.refs == s.refs && !s.accs[a].RelFast? && !s.accs[a].RelDec?
    ensures s'.accs.Keys <= s.accs.Keys && s'.used == s.used
  {
  }

  lemma StepCount(s: State, s': State, lab: Label)
    requires CountInv(s) && Next(s, s', lab)
    ensures CountInv(s')
  {
    hide Next, OpenSet, IsOpen;
    OpenAfter(s, s', lab);
    RefsAfter(s, s', lab);
    match lab
    case Acquire(a) => OneMore(OpenSet(s), a, s);
    case Recycle(_, _) =>
    case Step(a) =>
      OpenIs(s, a);
      CardWithout(OpenSet(s), a);
  }

  lemma OneMore(open: set<Acc>, a: Acc, s: State)
    requires open == OpenSet(s) && s.accs.Keys <= s.used && a !in s.used
    ensures |open + {a}| == |open| + 1
  {
    CardWithout(open + {a}, a);
    assert open + {a} - {a} == open;
  }

  lemma OpenIs(s: State, a: Acc)
    requires a in s.accs
    ensures a in OpenSet(s) <==> IsOpen(s.accs[a])
    ensures s.accs[a].RelFast? || s.accs[a].RelDec? ==> IsOpen(s.accs[a])
  {
  }

  lemma StepLock(s: State, s': State, lab: Label)
    requires LockInv(s) && CountInv(s) && Next(s, s', lab)
    ensures LockInv(s')
  {
    hide OpenSet, ReleaseStep, AddStep;
    if lab.Step? {
      if ReleaseStep(s, s', lab.a) {
        ReleaseLock(s, s', lab.a);
      } else {
        AddLocks(s, s', lab.a);
      }
    }
  }

  lemma ReleaseLock(s: State, s': State, a: Acc)
    requires LockInv(s) && a in s.accs && ReleaseStep(s, s', a)
    ensures LockInv(s')
  {
    hide Placed;
  }

  lemma AddLocks(s: State, s': State, a: Acc)
    requires LockInv(s) && a in s.accs && AddStep(s, s', a)
    ensures LockInv(s')
  {
  }

  lemma StepDirty(s: State, s': State, lab: Label)
    requires LockInv(s) && CountInv(s) && DirtyInv(s) && Next(s, s', lab)
    ensures DirtyInv(s')
  {
    hide ReleaseStep, AddStep, OpenSet;
    if lab.Step? {
      if ReleaseStep(s, s', lab.a) {
        ReleaseDirty(s, s', lab.a);
      } else {
        AddsDirty(s, s', lab.a);
      }
    }
  }

  lemma ReleaseDirty(s: State, s': State, a: Acc)
    requires LockInv(s) && DirtyInv(s) && a in s.accs && ReleaseStep(s, s', a)
    ensures DirtyInv(s')
  {
    hide Placed;
  }

  lemma AddsDirty(s: State, s': State, a: Acc)
    requires LockInv(s) && DirtyInv(s) && a in s.accs && AddStep(s, s', a)
    ensures DirtyInv(s')
  {
  }

  /** Only the step's own accessor is changed. */
  lemma OthersStay(s: State, s': State, a: Acc)
    requires a in s.accs && StepOf(s, s', a)
    ensures s'.accs == s.accs - {a} || (a in s'.accs && s'.accs == s.accs[a := s'.accs[a]])
    ensures s'.openAt == s.openAt && s'.used == s.used
  {
    hide Placed, OpenSet;
  }

  lemma PlaceAt(s: State, n: Node)
    requires PlaceInv(s)
    ensures NodeInv(s, n)
  {
  }

  lemma PlaceOf(s: State, a: Acc)
    requires PlaceInv(s) && a in s.accs
    ensures AccInv(s, a, s.accs[a])
  {
  }

  /** Accessor `a` goes on to `pc`, or ends. */
  predicate Moves(s: State, s': State, a: Acc, pc: Option<Pc>) {
    s'.accs == if pc.Some? then s.accs[a := pc.value] else s.accs - {a}
  }

  /** A step that moves no node. */
  predicate MovesNothing(s: State, s': State, a: Acc)
    requires a in s.accs
  {
    && s'.place == s.place && s'.nodes == s.nodes && s'.log == s.log && s'.openAt == s.openAt
    && (|| (Moves(s, s', a, None) && TakenBy(s.accs[a]) == [] && AddNode(s.accs[a]) == None)
        || (a in s'.accs && Moves(s, s', a, Some(s'.accs[a]))
            && TakenBy(s'.accs[a]) == TakenBy(s.accs[a]) && AddNode(s'.accs[a]) == AddNode(s.accs[a])))
  }

  lemma QuietStep(s: State, s': State, a: Acc)
    requires a in s.accs && StepOf(s, s', a)
    requires !s.accs[a].RelSwap? && !s.accs[a].AddPush? && !(s.accs[a].Destroying? && s.accs[a].taken != [])
    ensures MovesNothing(s, s', a)
  {
    hide ReleaseStep, AddStep, MovesNothing;
    if ReleaseStep(s, s', a) {
      QuietRelease(s, s', a);
    } else {
      QuietAdd(s, s', a);
    }
  }

  lemma QuietRelease(s: State, s': State, a: Acc)
    requires a in s.accs && ReleaseStep(s, s', a)
    requires !s.accs[a].RelSwap? && !(s.accs[a].Destroying? && s.accs[a].taken != [])
    ensures MovesNothing(s, s', a)
  {
    hide Placed;
  }

  lemma QuietAdd(s: State, s': State, a: Acc)
    requires a in s.accs && AddStep(s, s', a) && !s.accs[a].AddPush?
    ensures MovesNothing(s, s', a)
  {
  }

  lemma QuietNode(s: State, s': State, a: Acc, n: Node)
    requires a in s.accs && MovesNothing(s, s', a) && NodeInv(s, n)
    ensures NodeInv(s', n)
  {
    hide TakenBy, AddNode;
  }

  lemma QuietAcc(s: State, s': State, a: Acc, b: Acc)
    requires a in s.accs && MovesNothing(s, s', a) && b in s.accs && b in s'.accs && AccInv(s, b, s.accs[b])
    ensures AccInv(s', b, s'.accs[b])
  {
    hide TakenBy, AddNode, Distinct;
  }

  lemma QuietPlace(s: State, s': State, a: Acc)
    requires PlaceInv(s) && a in s.accs && MovesNothing(s, s', a)
    ensures PlaceInv(s')
  {
    hide NodeInv, AccInv, Distinct;
    forall n: Node
      ensures NodeInv(s', n)
    {
      QuietNode(s, s', a, n);
    }
    forall b | b in s'.accs
      ensures AccInv(s', b, s'.accs[b])
    {
      assert b in s.accs;
      QuietAcc(s, s', a, b);
    }
  }

  lemma SwapNode(s: State, s': State, a: Acc, n: Node)
    requires a in s.accs && StepOf(s, s', a) && s.accs[a].RelSwap? && NodeInv(s, n)
    ensures NodeInv(s', n)
  {
  }

  lemma SwapAcc(s: State, s': State, a: Acc, b: Acc)
    requires a in s.accs && StepOf(s, s', a) && s.accs[a].RelSwap? && b in s.accs && b in s'.accs
             && AccInv(s, b, s.accs[b])
    requires Distinct(s.nodes) && forall n | n in s.nodes :: n in s.place && s.place[n] == Stored
    ensures AccInv(s', b, s'.accs[b])
  {
    hide Distinct;
  }

  lemma SwapPlace(s: State, s': State, a: Acc)
    requires PlaceInv(s) && a in s.accs && StepOf(s, s', a) && s.accs[a].RelSwap?
    ensures PlaceInv(s')
  {
    hide NodeInv, AccInv;
    forall n: Node
      ensures NodeInv(s', n) && (n in s.nodes ==> n in s.place && s.place[n] == Stored)
    {
      PlaceAt(s, n);
      SwapNode(s, s', a, n);
      StoredAt(s, n);
    }
    forall b | b in s'.accs
      ensures AccInv(s', b, s'.accs[b])
    {
      SwapAcc(s, s', a, b);
    }
  }

  lemma StoredAt(s: State, n: Node)
    requires NodeInv(s, n)
    ensures n in s.nodes ==> n in s.place && s.place[n] == Stored
    ensures n in s.log ==> n in s.place && s.place[n] == Gone
  {
  }

  lemma PushNode(s: State, s': State, a: Acc, n: Node)
    requires a in s.accs && StepOf(s, s', a) && s.accs[a].AddPush? && NodeInv(s, n) && AccInv(s, a, s.accs[a])
    ensures NodeInv(s', n)
  {
    hide Distinct;
  }

  lemma PushAcc(s: State, s': State, a: Acc, b: Acc)
    requires a in s.accs && StepOf(s, s', a) && s.accs[a].AddPush? && b in s.accs && AccInv(s, a, s.accs[a])
             && AccInv(s, b, s.accs[b])
    ensures b in s'.accs && AccInv(s', b, s'.accs[b])
  {
    hide Distinct;
    assert AddNode(s.accs[a]) == Some(s.accs[a].n);
    if b == a {
      assert Distinct(TakenBy(AddDirty)) by { EmptyDistinct(); }
    }
  }

  lemma EmptyDistinct()
    ensures Distinct([])
  {
  }

  lemma AppendDistinct(list: seq<Node>, n: Node)
    requires Distinct(list) && n !in list
    ensures Distinct(list + [n])
  {
  }

  lemma PushPlace(s: State, s': State, a: Acc)
    requires PlaceInv(s) && a in s.accs && StepOf(s, s', a) && s.accs[a].AddPush?
    ensures PlaceInv(s')
  {
    hide NodeInv, AccInv, Distinct, AddNode, TakenBy;
    PlaceOf(s, a);
    forall n: Node
      ensures NodeInv(s', n)
    {
      PlaceAt(s, n);
      PushNode(s, s', a, n);
    }
    forall b | b in s'.accs
      ensures AccInv(s', b, s'.accs[b])
    {
      PushAcc(s, s', a, b);
    }
    AddedIsElsewhere(s, a);
    AppendDistinct(s.nodes, s.accs[a].n);
  }

  lemma AddedIsElsewhere(s: State, a: Acc)
    requires PlaceInv(s) && a in s.accs && s.accs[a].AddPush?
    ensures s.accs[a].n !in s.nodes
  {
    hide Distinct;
    PlaceAt(s, s.accs[a].n);
    PlaceOf(s, a);
  }

  lemma DestroyNode(s: State, s': State, a: Acc, n: Node)
    requires a in s.accs && StepOf(s, s', a) && s.accs[a].Destroying? && s.accs[a].taken != []
    requires NodeInv(s, n) && AccInv(s, a, s.accs[a])
    ensures NodeInv(s', n)
  {
    var t := s.accs[a].taken;
    assert t == [t[0]] + t[1..];
  }

  lemma DestroyAcc(s: State, s': State, a: Acc, b: Acc)
    requires a in s.accs && StepOf(s, s', a) && s.accs[a].Destroying? && s.accs[a].taken != []
    requires b in s.accs && AccInv(s, a, s.accs[a]) && AccInv(s, b, s.accs[b])
    ensures b in s'.accs && AccInv(s', b, s'.accs[b])
  {
    var t := s.accs[a].taken;
    assert t == [t[0]] + t[1..];
    assert t[0] !in t[1..];
  }

  lemma DestroyPlace(s: State, s': State, a: Acc)
    requires PlaceInv(s) && a in s.accs && StepOf(s, s', a) && s.accs[a].Destroying? && s.accs[a].taken != []
    ensures PlaceInv(s')
  {
    hide NodeInv, AccInv, Distinct, AddNode;
    PlaceOf(s, a);
    forall n: Node
      ensures NodeInv(s', n)
    {
      PlaceAt(s, n);
      DestroyNode(s, s', a, n);
    }
    forall b | b in s'.accs
      ensures AccInv(s', b, s'.accs[b])
    {
      DestroyAcc(s, s', a, b);
    }
    TakenIsNotGone(s, a);
    AppendDistinct(s.log, s.accs[a].taken[0]);
  }

  lemma TakenIsNotGone(s: State, a: Acc)
    requires PlaceInv(s) && a in s.accs && s.accs[a].Destroying? && s.accs[a].taken != []
    ensures s.accs[a].taken[0] in s.place && s.place[s.accs[a].taken[0]] == Taken(a) && s.accs[a].taken[0] !in s.log
  {
    hide Distinct;
    PlaceAt(s, s.accs[a].taken[0]);
    PlaceOf(s, a);
    assert s.accs[a].taken[0] in TakenBy(s.accs[a]);
  }

  lemma StepPlace(s: State, s': State, lab: Label)
    requires CountInv(s) && PlaceInv(s) && Next(s, s', lab)
    ensures PlaceInv(s')
  {
    hide OpenSet, PlaceInv, StepOf, CountInv;
    match lab
    case Acquire(a) => AcquirePlace(s, s', a);
    case Recycle(a, n) => RecyclePlace(s, s', a, n);
    case Step(a) =>
      if s.accs[a].RelSwap? {
        SwapPlace(s, s', a);
      } else if s.accs[a].AddPush? {
        PushPlace(s, s', a);
      } else if s.accs[a].Destroying? && s.accs[a].taken != [] {
        DestroyPlace(s, s', a);
      } else {
        QuietStep(s, s', a);
        QuietPlace(s, s', a);
      }
  }

  lemma AcquirePlace(s: State, s': State, a: Acc)
    requires CountInv(s) && PlaceInv(s) && Next(s, s', Acquire(a))
    ensures PlaceInv(s')
  {
    hide AccInv, NodeInv, Distinct, OpenSet;
    forall n: Node
      ensures NodeInv(s', n)
    {
      PlaceAt(s, n);
      AcquireNode(s, s', a, n);
    }
    forall b | b in s'.accs
      ensures AccInv(s', b, s'.accs[b])
    {
      AcquireAcc(s, s', a, b);
    }
  }

  lemma AcquireNode(s: State, s': State, a: Acc, n: Node)
    requires CountInv(s) && Next(s, s', Acquire(a)) && NodeInv(s, n)
    ensures NodeInv(s', n)
  {
    hide OpenSet;
    assert a !in s.accs;
  }

  lemma AcquireAcc(s: State, s': State, a: Acc, b: Acc)
    requires PlaceInv(s) && Next(s, s', Acquire(a)) && b in s'.accs
    ensures AccInv(s', b, s'.accs[b])
  {
    hide OpenSet, NodeInv;
    if b != a {
      PlaceOf(s, b);
    }
  }

  lemma RecycleNode(s: State, s': State, a: Acc, n: Node, m: Node)
    requires Next(s, s', Recycle(a, n)) && NodeInv(s, n) && NodeInv(s, m)
    ensures NodeInv(s', m)
  {
    hide OpenSet;
  }

  lemma RecycleAcc(s: State, s': State, a: Acc, n: Node, b: Acc)
    requires Next(s, s', Recycle(a, n)) && b in s.accs && AccInv(s, b, s.accs[b])
    ensures b in s'.accs && AccInv(s', b, s'.accs[b])
  {
    hide OpenSet;
  }

  lemma RecyclePlace(s: State, s': State, a: Acc, n: Node)
    requires PlaceInv(s) && Next(s, s', Recycle(a, n))
    ensures PlaceInv(s')
  {
    hide AccInv, NodeInv, Distinct, OpenSet;
    PlaceAt(s, n);
    forall m: Node
      ensures NodeInv(s', m)
    {
      PlaceAt(s, m);
      RecycleNode(s, s', a, n, m);
    }
    forall b | b in s'.accs
      ensures AccInv(s', b, s'.accs[b])
    {
      RecycleAcc(s, s', a, n, b);
    }
  }

  lemma NoneOpen(s: State)
    requires CountInv(s) && s.refs == 1
    ensures forall a | a in OpenSet(s) :: OpenSet(s) - {a} == {}
  {
    hide OpenSet;
    forall a | a in OpenSet(s)
      ensures OpenSet(s) - {a} == {}
    {
      CardWithout(OpenSet(s), a);
    }
  }

  /** What a step does to the places of the nodes and to the accessor that is about to swap. */
  lemma SafeEffect(s: State, s': State, lab: Label, n: Node)
    requires LockInv(s) && NodeInv(s, n) && Next(s, s', lab) && n in s'.openAt && n in s'.place
             && (s'.place[n].Taken? || s'.place[n].Gone?)
    ensures n in s.place && n in s.openAt && s'.openAt[n] == s.openAt[n]
    ensures || s.place[n].Taken? || s.place[n].Gone?
            || (lab.Step? && s.accs[lab.a].RelSwap? && n in s.nodes && s.lock == Some(lab.a))
            || (lab.Step? && s.accs[lab.a].Destroying? && n in s.accs[lab.a].taken)
  {
    hide OpenSet;
  }

  lemma SwapEffect(s: State, s': State, lab: Label, n: Node)
    requires LockInv(s) && NodeInv(s, n) && Next(s, s', lab)
    requires s'.lock.Some? && s'.lock.value in s'.accs && s'.accs[s'.lock.value].RelSwap?
    ensures s'.nodes == s.nodes
    ensures || (lab == Step(s'.lock.value) && s.accs[lab.a].RelDec? && s.refs == 1)
            || (s.lock == s'.lock && s.lock.value in s.accs && s.accs[s.lock.value].RelSwap?)
    ensures n in s.openAt ==> n in s'.openAt && s'.openAt[n] == s.openAt[n]
  {
    hide OpenSet, Placed;
  }

  lemma StepSafeNode(s: State, s': State, lab: Label, n: Node)
    requires Inv(s) && Next(s, s', lab) && n in s'.openAt && n in s'.place && (s'.place[n].Taken? || s'.place[n].Gone?)
    ensures Released(s', n)
  {
    hide Next, OpenSet, LockInv, DirtyInv, NodeInv;
    PlaceAt(s, n);
    SafeEffect(s, s', lab, n);
    OpenAfterMost(s, s', lab);
    if lab.Step? && s.accs[lab.a].Destroying? && n in s.accs[lab.a].taken {
      PlaceOf(s, lab.a);
      assert n in TakenBy(s.accs[lab.a]);
    }
  }

  /** Accessors opened by a step are new ones. */
  lemma OpenAfterMost(s: State, s': State, lab: Label)
    requires Next(s, s', lab)
    ensures forall a | a in OpenSet(s') :: a in OpenSet(s) || a !in s.used
    ensures lab.Step? ==> lab.a in s.accs
  {
    hide StepOf, OpenSet;
    OpenAfter(s, s', lab);
  }

  lemma StepUsed(s: State, s': State, lab: Label, n: Node)
    requires CountInv(s) && SafeInv(s) && Next(s, s', lab) && n in s'.openAt
    ensures s'.openAt[n] <= s'.used
  {
    hide StepOf;
    if lab.Step? {
      OthersStay(s, s', lab.a);
    }
  }

  lemma StepSwapSafe(s: State, s': State, lab: Label, n: Node)
    requires Inv(s) && Next(s, s', lab) && n in s'.nodes && n in s'.openAt
    requires s'.lock.Some? && s'.lock.value in s'.accs && s'.accs[s'.lock.value].RelSwap?
    ensures Released(s', n)
  {
    hide Next, OpenSet, LockInv, DirtyInv, NodeInv, AccInv;
    PlaceAt(s, n);
    SwapEffect(s, s', lab, n);
    OpenAfterMost(s, s', lab);
    StoredOpenAt(s, n);
    if lab.Step? && s.accs[lab.a].RelDec? && s.refs == 1 {
      LastLeaves(s, s', lab.a);
    }
  }

  lemma StoredOpenAt(s: State, n: Node)
    requires PlaceInv(s)
    ensures n in s.nodes ==> n in s.openAt
  {
    hide AccInv;
    PlaceAt(s, n);
  }

  lemma LastLeaves(s: State, s': State, a: Acc)
    requires CountInv(s) && Next(s, s', Step(a)) && a in s.accs && s.accs[a].RelDec? && s.refs == 1
    ensures OpenSet(s') == {}
  {
    OpenAfter(s, s', Step(a));
    NoneOpen(s);
  }

  lemma StepSafe(s: State, s': State, lab: Label)
    requires Inv(s) && Next(s, s', lab)
    ensures SafeInv(s')
  {
    hide Next, Released, CountInv, LockInv, DirtyInv, PlaceInv, Inv;
    InvParts(s);
    forall n | n in s'.openAt
      ensures s'.openAt[n] <= s'.used
    {
      StepUsed(s, s', lab, n);
    }
    forall n | n in s'.openAt && n in s'.place && (s'.place[n].Taken? || s'.place[n].Gone?)
      ensures Released(s', n)
    {
      StepSafeNode(s, s', lab, n);
    }
    if s'.lock.Some? && s'.lock.value in s'.accs && s'.accs[s'.lock.value].RelSwap? {
      forall n | n in s'.nodes && n in s'.openAt
        ensures Released(s', n)
      {
        StepSwapSafe(s, s', lab, n);
      }
    }
  }

  lemma InvParts(s: State)
    requires Inv(s)
    ensures CountInv(s) && LockInv(s) && DirtyInv(s) && PlaceInv(s) && SafeInv(s)
  {
  }

  /** Every step of every interleaving keeps the invariant. */
  lemma StepInv(s: State, s': State, lab: Label)
    requires Inv(s) && Next(s, s', lab)
    ensures Inv(s')
  {
    hide Next, CountInv, LockInv, DirtyInv, PlaceInv, SafeInv;
    StepCount(s, s', lab);
    StepLock(s, s', lab);
    StepDirty(s, s', lab);
    StepPlace(s, s', lab);
    StepSafe(s, s', lab);
  }

  lemma {:induction false} RunInv(run: seq<State>, labs: seq<Label>, i: nat)
    requires IsRun(run, labs) && i < |run|
    ensures Inv(run[i])
  {
    hide Inv, Next;
    if i == 0 {
      InitInv(run[0]);
    } else {
      RunInv(run, labs, i - 1);
      StepInv(run[i - 1], run[i], labs[i - 1]);
    }
  }

  // -------------------------------------------------------------------- whole runs

  /** Step `lab` destroys node `n`. */
  predicate Destroys(s: State, lab: Label, n: Node) {
    && lab.Step? && lab.a in s.accs && s.accs[lab.a].Destroying?
    && s.accs[lab.a].taken != [] && s.accs[lab.a].taken[0] == n
  }

  /** What is recorded about a node stays recorded, and closed accessors stay closed. */
  predicate Remembers(s: State, s': State) {
    && (forall n | n in s.openAt :: n in s'.openAt && s'.openAt[n] == s.openAt[n])
    && s.used <= s'.used && s.log <= s'.log
    && (forall a | a in s.used && a in OpenSet(s') :: a in OpenSet(s))
  }

  lemma StepLog(s: State, s': State, a: Acc)
    requires a in s.accs && StepOf(s, s', a)
    ensures s'.log == s.log
            || (s.accs[a].Destroying? && s.accs[a].taken != [] && s'.log == s.log + [s.accs[a].taken[0]])
  {
    hide Placed;
  }

  lemma StepRemembers(s: State, s': State, lab: Label)
    requires Inv(s) && Next(s, s', lab)
    ensures Remembers(s, s')
  {
    hide OpenSet, StepOf, LockInv, DirtyInv, SafeInv, Inv;
    InvParts(s);
    OpenAfterMost(s, s', lab);
    match lab
    case Acquire(_) =>
    case Recycle(_, n) => PlaceAt(s, n);
    case Step(a) =>
      OthersStay(s, s', a);
      StepLog(s, s', a);
  }

  lemma {:induction false} RunRemembers(run: seq<State>, labs: seq<Label>, i: nat, j: nat)
    requires IsRun(run, labs) && i <= j < |run|
    ensures Remembers(run[i], run[j])
  {
    hide Next, Init, OpenSet;
    if i < j {
      RunRemembers(run, labs, i, j - 1);
      RunInv(run, labs, j - 1);
      StepRemembers(run[j - 1], run[j], labs[j - 1]);
    }
  }

  /** A node is destroyed at no more than one step of a run, and only after it was recycled. */
  lemma DestroyedOnce(run: seq<State>, labs: seq<Label>, i: nat, j: nat, n: Node)
    requires IsRun(run, labs) && i < |labs| && j < |labs| && Destroys(run[i], labs[i], n)
             && Destroys(run[j], labs[j], n)
    ensures i == j && n in run[i].openAt
  {
    hide Init, Inv, StepOf, OpenSet;
    DestroyLogs(run, labs, i, n);
    DestroyLogs(run, labs, j, n);
    if i < j {
      RunRemembers(run, labs, i + 1, j);
    } else if j < i {
      RunRemembers(run, labs, j + 1, i);
    }
  }

  lemma DestroyLogs(run: seq<State>, labs: seq<Label>, i: nat, n: Node)
    requires IsRun(run, labs) && i < |labs| && Destroys(run[i], labs[i], n)
    ensures n in run[i + 1].log && n !in run[i].log && n in run[i].openAt && Released(run[i], n)
  {
    hide Init, OpenSet, LockInv, DirtyInv, CountInv, AccInv, NodeInv;
    RunInv(run, labs, i);
    assert Next(run[i], run[i + 1], labs[i]);
    TakenIsNotGone(run[i], labs[i].a);
    PlaceAt(run[i], n);
    OpenAtKnown(run[i], n);
    StepLog(run[i], run[i + 1], labs[i].a);
    DestroyStepLogs(run[i], run[i + 1], labs[i].a);
  }

  lemma DestroyStepLogs(s: State, s': State, a: Acc)
    requires a in s.accs && StepOf(s, s', a) && s.accs[a].Destroying? && s.accs[a].taken != []
    ensures s.accs[a].taken[0] in s'.log
  {
  }

  lemma OpenAtKnown(s: State, n: Node)
    requires NodeInv(s, n) && n in s.place
    ensures n in s.openAt
  {
  }

  /** A node is destroyed only after every accessor that was open when it was recycled has been released;
      none of those is open again later. */
  lemma DestroyedAfterRelease(run: seq<State>, labs: seq<Label>, r: nat, i: nat, k: nat, a: Acc, b: Acc, n: Node)
    requires IsRun(run, labs) && r < |labs| && i < |labs| && i <= k < |run|
    requires labs[r] == Recycle(a, n) && b in OpenSet(run[r]) && Destroys(run[i], labs[i], n)
    ensures r < i && b !in OpenSet(run[k])
  {
    hide Init, OpenSet, Inv, StepOf;
    var s, s' := run[r], run[r + 1];
    assert Next(s, s', labs[r]);
    RunInv(run, labs, r);
    OpenAreUsed(s);
    DestroyLogs(run, labs, i, n);
    if i <= r {
      RunRemembers(run, labs, i, r);
      NotYetRecycled(s, n);
    }
    RunRemembers(run, labs, r + 1, i);
    RunRemembers(run, labs, i, k);
    RunRemembers(run, labs, r, i);
  }

  lemma NotYetRecycled(s: State, n: Node)
    requires Inv(s) && n !in s.place
    ensures n !in s.openAt
  {
    hide AccInv, Distinct, OpenSet;
    PlaceAt(s, n);
  }

  lemma OpenAreUsed(s: State)
    requires Inv(s)
    ensures OpenSet(s) <= s.used
  {
  }

  /** refs_ is the number of open accessors, and when the lock is free dirty_ says whether nodes wait. */
  lemma CountersAreExact(run: seq<State>, labs: seq<Label>, i: nat)
    requires IsRun(run, labs) && i < |run|
    ensures run[i].refs == |OpenSet(run[i])|
    ensures run[i].lock.None? ==> run[i].dirty == (run[i].nodes != [])
  {
    hide IsRun, LockInv, PlaceInv, SafeInv, OpenSet;
    RunInv(run, labs, i);
  }

  /** How far the last release has got with the nodes that waited: they still wait, it has taken all of them and left
      none, it is destroying them, or it has returned and they are destroyed. */
  predicate Settling(s: State, a: Acc, waiting: seq<Node>) {
    if a !in s.accs then forall n | n in waiting :: n in s.log
    else match s.accs[a]
      case RelSwap => s.nodes == waiting
      case RelClear(t) => s.nodes == [] && t == waiting
      case RelUnlock(t) => s.nodes == [] && t == waiting
      case Destroying(t) => forall n | n in waiting :: n in t || n in s.log
      case _ => false
  }

  lemma SettlingOwn(s: State, s': State, a: Acc, waiting: seq<Node>)
    requires a in s.accs && StepOf(s, s', a) && Settling(s, a, waiting)
    ensures Settling(s', a, waiting)
  {
    hide Placed;
    if s.accs[a].Destroying? && s.accs[a].taken != [] {
      var t := s.accs[a].taken;
      forall n | n in waiting
        ensures n in t[1..] || n in s'.log
      {
        assert n in t ==> n == t[0] || n in t[1..];
      }
    }
  }

  /** Other accessors leave the vector alone while one has the lock. */
  lemma NodesUnderLock(s: State, s': State, b: Acc)
    requires LockInv(s) && b in s.accs && StepOf(s, s', b)
    ensures s'.nodes == s.nodes || s.lock == Some(b)
  {
    hide Placed;
  }

  lemma SettlingOther(s: State, s': State, lab: Label, a: Acc, waiting: seq<Node>)
    requires Inv(s) && Next(s, s', lab) && (lab.Step? ==> lab.a != a) && a in s.used && Settling(s, a, waiting)
    ensures Settling(s', a, waiting) && a in s'.used
  {
    hide OpenSet, StepOf, PlaceInv, SafeInv, DirtyInv, CountInv;
    if lab.Step? {
      OthersStay(s, s', lab.a);
      StepLog(s, s', lab.a);
      NodesUnderLock(s, s', lab.a);
      RefsAfter(s, s', lab);
    }
  }

  /** A release that takes refs_ from one to nothing under the lock takes every node that waits, leaves none behind when
      it gives up the lock, and has destroyed them all when it returns. */
  lemma {:induction false} LastReleaseDestroys(run: seq<State>, labs: seq<Label>, i: nat, j: nat, a: Acc)
    requires IsRun(run, labs) && i < |labs| && labs[i] == Step(a) && a in run[i].accs && run[i].accs[a].RelDec?
    requires run[i].refs == 1 && i < j < |run|
    ensures Settling(run[j], a, run[i].nodes) && a in run[j].used
    ensures a !in run[j].accs ==> forall n | n in run[i].nodes :: n in run[j].log
    ensures a in run[j].accs && run[j].accs[a].RelUnlock? ==> run[j].nodes == []
  {
    hide Init, Inv, StepOf, OpenSet;
    if j == i + 1 {
      RunInv(run, labs, i);
      LastStarts(run[i], run[j], a);
    } else {
      LastReleaseDestroys(run, labs, i, j - 1, a);
      RunInv(run, labs, j - 1);
      assert Next(run[j - 1], run[j], labs[j - 1]);
      if labs[j - 1] == Step(a) {
        SettlingOwn(run[j - 1], run[j], a, run[i].nodes);
        RefsAfter(run[j - 1], run[j], labs[j - 1]);
      } else {
        SettlingOther(run[j - 1], run[j], labs[j - 1], a, run[i].nodes);
      }
    }
  }

  lemma LastStarts(s: State, s': State, a: Acc)
    requires Inv(s) && Next(s, s', Step(a)) && a in s.accs && s.accs[a].RelDec? && s.refs == 1
    ensures Settling(s', a, s.nodes) && a in s'.used
  {
    hide OpenSet, PlaceInv, SafeInv;
  }

  /** A release that does not take the lock has read dirty_ as false, or refs_ as more than one. */
  lemma {:induction false} FastReleaseReason(run: seq<State>, labs: seq<Label>, i: nat, a: Acc) returns (k: nat)
    requires IsRun(run, labs) && i < |run| && a in run[i].accs && run[i].accs[a].RelFast?
    ensures k < i && labs[k] == Step(a) && a in run[k].accs
    ensures (run[k].accs[a].Open? && !run[k].dirty) || (run[k].accs[a].RelRefs? && run[k].refs > 1)
  {
    hide Inv, OpenSet;
    k := i - 1;
    FastStep(run[k], run[i], labs[k], a);
    if a in run[k].accs && run[k].accs[a].RelFast? {
      k := FastReleaseReason(run, labs, k, a);
    }
  }

  lemma FastStep(s: State, s': State, lab: Label, a: Acc)
    requires Next(s, s', lab) && a in s'.accs && s'.accs[a].RelFast?
    ensures a in s.accs
    ensures || s.accs[a].RelFast?
            || (lab == Step(a) && s.accs[a].Open? && !s.dirty) || (lab == Step(a) && s.accs[a].RelRefs? && s.refs > 1)
  {
    hide Placed, OpenSet;
    if lab.Step? && lab.a != a {
      OthersStay(s, s', lab.a);
    }
  }

  /** When no accessor is left the destructor destroys what is stored; every recycled node has then been
      destroyed exactly once, and nothing else has. */
  lemma DestructorCompletes(run: seq<State>, labs: seq<Label>, i: nat)
    requires IsRun(run, labs) && i < |run| && run[i].accs == map[]
    ensures var all := run[i].log + run[i].nodes;
            Distinct(all) && forall n :: n in all <==> n in run[i].openAt
  {
    hide IsRun, LockInv, DirtyInv, CountInv, SafeInv, OpenSet;
    RunInv(run, labs, i);
    var s := run[i];
    forall n: Node
      ensures (n in s.openAt <==> n in s.log || n in s.nodes) && !(n in s.log && n in s.nodes)
    {
      PlaceAt(s, n);
    }
    assert forall k | 0 <= k < |s.nodes| :: s.nodes[k] in s.nodes;
    assert forall k | 0 <= k < |s.log| :: s.log[k] in s.log;
  }
}
