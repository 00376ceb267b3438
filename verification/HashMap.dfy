/**
 AtomicHashMap: a chain of up to sixteen AtomicHashArrays.  A thread inserts into the tables in
 order, moves on when one reports "full", and the next table is allocated under a pointer CAS.

 A call is either at a step of its own or inside a call on one table.  The threads inside table `i`
 form a `HashArray.State`, so that every step of the map is a step, or no step, of each table.
 */
module HashMap {
  import opened Common
  import A = HashArray

  type Key = A.Key
  type Val = A.Val
  type Tid = A.Tid

  const NUM_SUBMAPS: nat := 16

  datatype Ptr = Null | LockedPtr | Map(cfg: A.Config, sh: A.Shared)

  datatype Op = Insert(key: Key, val: Val) | Find(key: Key) | Erase(key: Key)

  datatype Result = Inserted(i: nat, j: nat) | Exists(i: nat, j: nat) | Threw | MapFull | AllocFailed
                  | Found(i: nat, j: nat) | NotFound | ErasedOne | ErasedNone

  /** In `Visit` and `InSub`, `m` is the number of tables the thread has read from
      numMapsAllocated_, and 0 while a find has not read it yet. */
  datatype Pc =
    | LoadCount                              // load numMapsAllocated_
    | Visit(m: nat, i: nat)                  // load subMaps_[i] and call it
    | InSub(m: nat, i: nat, l: A.Local)      // inside subMaps_[i]
    | CheckGrow(m: nat)                      // every table was full: may the map grow?
    | LockMap(m: nat)                        // tryLockMap(m)
    | Create(m: nat)                         // subMaps_[m].store(SubMap::create(...))
    | PublishCount(m: nat)                   // numMapsAllocated_.fetch_add(1)
    | Await(m: nat)                          // spin until numMapsAllocated_ > m
    | Finished(result: Result)

  datatype Thread = Thread(op: Op, pc: Pc)

  datatype State = State(subs: seq<Ptr>, count: nat, threads: map<Tid, Thread>)

  // -------------------------------------------------------------------- steps

  function StartPc(op: Op): (pc: Pc) {
    if op.Find? then Visit(0, 0) else LoadCount
  }

  function SubCall(op: Op): (l: A.Local) {
    match op
    case Insert(k, v) => A.Insert(k, v, 0, A.Probe)
    case Find(k) => A.Find(k, 0)
    case Erase(k) => A.Erase(k, 0, A.Look)
  }

  /** Where the call goes when table `i` answers `r`. */
  function AfterSub(op: Op, m: nat, i: nat, r: A.Result): (pc: Pc) {
    match r
    case Inserted(j) => Finished(Inserted(i, j))
    case Exists(j) => Finished(Exists(i, j))
    case Threw => Finished(Threw)
    case Found(j) => Finished(Found(i, j))
    case ErasedOne => Finished(ErasedOne)
    case Full => if i + 1 < m then Visit(m, i + 1) else if i + 1 == m then CheckGrow(m) else LoadCount
    case NotFound => if m == 0 then LoadCount else if i + 1 < m then Visit(m, i + 1) else Finished(NotFound)
    case ErasedNone => if i + 1 < m then Visit(m, i + 1) else Finished(ErasedNone)
  }

  ghost predicate OwnStep(canGrow: bool, s: State, th: Thread, s': State, pc': Pc) {
    match th.pc
    case LoadCount =>
      && s'.subs == s.subs && s'.count == s.count
      && pc' == (if !th.op.Find? then Visit(s.count, 0)
                 else if 1 < s.count then Visit(s.count, 1) else Finished(NotFound))
    case CheckGrow(m) =>
      && s'.subs == s.subs && s'.count == s.count
      && pc' == if m >= NUM_SUBMAPS || !canGrow then Finished(MapFull) else LockMap(m)
    case LockMap(m) =>
      && s'.count == s.count && m < |s.subs|
      && if s.subs[m].Null? then s'.subs == s.subs[m := LockedPtr] && pc' == Create(m)
         else s'.subs == s.subs && pc' == Await(m)
    case Create(m) =>   // allocation may throw, which leaves the pointer locked
      && s'.count == s.count && m < |s.subs|
      && (|| (s'.subs == s.subs && pc' == Finished(AllocFailed))
          || (exists cfg: A.Config ::
                && cfg.Valid() && s.subs[0].Map?
                && cfg.hash == s.subs[0].cfg.hash && cfg.quadratic == s.subs[0].cfg.quadratic
                && s'.subs == s.subs[m := Map(cfg, A.Fresh(cfg))] && pc' == PublishCount(m)))
    case PublishCount(m) => s'.subs == s.subs && s'.count == s.count + 1 && pc' == Visit(m, m)
    case Await(m) =>
      s'.subs == s.subs && s'.count == s.count && pc' == if m >= s.count then Await(m) else Visit(m, m)
    case _ => false
  }

  ghost predicate SubStep(s: State, th: Thread, s': State, pc': Pc) {
    s'.count == s.count &&
    match th.pc
    case Visit(m, i) =>
      && i < |s.subs| && s.subs[i].Map? && s'.subs == s.subs
      && pc' == InSub(m, i, SubCall(th.op))
    case InSub(m, i, l) =>
      && i < |s.subs| && s.subs[i].Map?
      && if l.Done? then s'.subs == s.subs && pc' == AfterSub(th.op, m, i, l.result)
         else
           && pc'.InSub? && pc'.m == m && pc'.i == i
           && i < |s'.subs| && s'.subs[i].Map? && s'.subs == s.subs[i := Map(s.subs[i].cfg, s'.subs[i].sh)]
           && A.ThreadStep(s.subs[i].cfg, s.subs[i].sh, l, s'.subs[i].sh, pc'.l)
    case _ => false
  }

  ghost predicate Next(canGrow: bool, s: State, s': State, t: Tid) {
    if t !in s.threads then
      && s'.subs == s.subs && s'.count == s.count && t in s'.threads
      && s'.threads[t].pc == StartPc(s'.threads[t].op) && s'.threads == s.threads[t := s'.threads[t]]
    else if s.threads[t].pc.Finished? then
      s'.subs == s.subs && s'.count == s.count && s'.threads == s.threads - {t}
    else
      && t in s'.threads && s'.threads[t].op == s.threads[t].op
      && s'.threads == s.threads[t := s'.threads[t]]
      && (|| OwnStep(canGrow, s, s.threads[t], s', s'.threads[t].pc)
          || SubStep(s, s.threads[t], s', s'.threads[t].pc))
  }

  ghost predicate Init(s: State) {
    && |s.subs| == NUM_SUBMAPS && s.count == 1 && s.threads == map[]
    && s.subs[0].Map? && s.subs[0].cfg.Valid() && s.subs[0].sh == A.Fresh(s.subs[0].cfg)
    && forall i | 1 <= i < NUM_SUBMAPS :: s.subs[i].Null?
  }

  // -------------------------------------------------------------------- projection on a table

  predicate Inside(th: Thread, i: nat) {
    th.pc.InSub? && th.pc.i == i
  }

  ghost function Proj(threads: map<Tid, Thread>, i: nat): map<Tid, A.Local> {
    map t | t in threads && Inside(threads[t], i) :: threads[t].pc.l
  }

  ghost function Sub(s: State, i: nat): A.State
    requires i < |s.subs| && s.subs[i].Map?
  {
    A.State(s.subs[i].sh, Proj(s.threads, i))
  }

  /** A step of the map's own leaves every table, and the threads inside it, alone. */
  lemma OwnStepOnSub(canGrow: bool, s: State, s': State, t: Tid, i: nat)
    requires i < |s.subs| && s.subs[i].Map? && t in s.threads && t in s'.threads
    requires s'.threads == s.threads[t := s'.threads[t]] && OwnStep(canGrow, s, s.threads[t], s', s'.threads[t].pc)
    requires s.threads[t].pc.Create? ==> s.threads[t].pc.m != i
    ensures |s'.subs| == |s.subs| && s'.subs[i] == s.subs[i] && Proj(s'.threads, i) == Proj(s.threads, i)
  {
    assert !Inside(s.threads[t], i) && !Inside(s'.threads[t], i);
  }

  /** A step on a table is a step of that table, and none of the others. */
  lemma SubStepOnSub(s: State, s': State, t: Tid, i: nat)
    requires i < |s.subs| && s.subs[i].Map? && t in s.threads && t in s'.threads
    requires s'.threads == s.threads[t := s'.threads[t]] && SubStep(s, s.threads[t], s', s'.threads[t].pc)
    ensures |s'.subs| == |s.subs| && s'.subs[i].Map? && s'.subs[i].cfg == s.subs[i].cfg
    ensures Sub(s', i) == Sub(s, i) || A.Next(s.subs[i].cfg, Sub(s, i), Sub(s', i), t)
  {
    hide A.ThreadStep;
    var pc, pc' := s.threads[t].pc, s'.threads[t].pc;
    if pc.i != i {
      assert Proj(s'.threads, i) == Proj(s.threads, i);
    } else if pc.InSub? && pc.l.Done? {
      assert Proj(s'.threads, i) == Proj(s.threads, i) - {t};
    } else {
      assert Proj(s'.threads, i) == Proj(s.threads, i)[t := pc'.l];
    }
  }

  /** A map step is, for each table, one step of that table by the same thread or no step at all. */
  lemma StepOnSub(canGrow: bool, s: State, s': State, t: Tid, i: nat)
    requires Next(canGrow, s, s', t) && i < |s.subs| && s.subs[i].Map?
    requires t in s.threads && s.threads[t].pc.Create? ==> s.threads[t].pc.m != i
    ensures |s'.subs| == |s.subs| && s'.subs[i].Map? && s'.subs[i].cfg == s.subs[i].cfg
    ensures Sub(s', i) == Sub(s, i) || A.Next(s.subs[i].cfg, Sub(s, i), Sub(s', i), t)
  {
    hide OwnStep, SubStep, A.Next;
    if t in s.threads && !s.threads[t].pc.Finished? {
      if OwnStep(canGrow, s, s.threads[t], s', s'.threads[t].pc) {
        OwnStepOnSub(canGrow, s, s', t, i);
      } else {
        SubStepOnSub(s, s', t, i);
      }
    } else {
      assert Proj(s'.threads, i) == Proj(s.threads, i);
    }
  }

  // -------------------------------------------------------------------- invariant

  ghost predicate ClosedIn(s: State, x: nat, k: Key) {
    && x < |s.subs| && s.subs[x].Map?
    && s.subs[x].cfg.Valid() && A.Shape(s.subs[x].cfg, s.subs[x].sh)
    && A.Closed(s.subs[x].cfg, Sub(s, x), k)
  }

  ghost predicate ClosedBelow(s: State, i: nat, k: Key) {
    forall x: nat | x < i :: ClosedIn(s, x, k)
  }

  predicate Creating(pc: Pc) {
    pc.Create? || pc.PublishCount?
  }

  predicate SameKind(op: Op, l: A.Local) {
    && l.key == op.key
    && match l
       case Insert(_, _, _, _) => op.Insert?
       case Find(_, _) => op.Find?
       case Erase(_, _, _) => op.Erase?
       case Done(_, r) =>
         match op
         case Insert(_, _) => r.Inserted? || r.Exists? || r.Full? || r.Threw?
         case Find(_) => r.Found? || r.NotFound?
         case Erase(_) => r.ErasedOne? || r.ErasedNone?
  }

  /** Which table the call may be in, given how many it knows of. */
  predicate Placed(s: State, op: Op, m: nat, i: nat) {
    && i < s.count && m <= s.count
    && match op
       case Insert(_, _) => 1 <= m && i <= m
       case Find(_) => if m == 0 then i == 0 else i < m
       case Erase(_) => i < m
  }

  ghost predicate ThreadInv(s: State, th: Thread) {
    match th.pc
    case LoadCount => true
    case Visit(m, i) => Placed(s, th.op, m, i) && (th.op.Insert? ==> ClosedBelow(s, i, th.op.key))
    case InSub(m, i, l) =>
      Placed(s, th.op, m, i) && SameKind(th.op, l) && (th.op.Insert? ==> ClosedBelow(s, i, th.op.key))
    case CheckGrow(m) => th.op.Insert? && 1 <= m <= s.count && ClosedBelow(s, m, th.op.key)
    case LockMap(m) => th.op.Insert? && 1 <= m <= s.count && m < NUM_SUBMAPS && ClosedBelow(s, m, th.op.key)
    case Create(m) =>
      th.op.Insert? && 1 <= m == s.count < |s.subs| && s.subs[m].LockedPtr? && ClosedBelow(s, m, th.op.key)
    case PublishCount(m) =>
      th.op.Insert? && 1 <= m == s.count < |s.subs| && s.subs[m].Map? && ClosedBelow(s, m, th.op.key)
    case Await(m) => th.op.Insert? && 1 <= m <= s.count && m < NUM_SUBMAPS && ClosedBelow(s, m, th.op.key)
    case Finished(_) => true
  }

  ghost predicate TableInv(s: State) {
    && |s.subs| == NUM_SUBMAPS && 1 <= s.count <= NUM_SUBMAPS
    && (forall i | 0 <= i < s.count :: s.subs[i].Map?)
    && (forall i | s.count < i < NUM_SUBMAPS :: s.subs[i].Null?)
    && (s.count < NUM_SUBMAPS && s.subs[s.count].Map? ==>
          s.subs[s.count].sh == A.Fresh(s.subs[s.count].cfg))
    && (forall i: nat | i < NUM_SUBMAPS && s.subs[i].Map? :: A.Inv(s.subs[i].cfg, Sub(s, i)))
  }

  ghost predicate OneCreator(threads: map<Tid, Thread>) {
    forall t, u | t in threads && u in threads && Creating(threads[t].pc) && Creating(threads[u].pc) :: t == u
  }

  ghost predicate InTable(s: State, i: nat, c: nat, k: Key) {
    i < |s.subs| && s.subs[i].Map? && A.HoldsKey(s.subs[i].sh, c, k)
  }

  /** A key in table `i` is closed in every earlier table. */
  ghost predicate CrossInv(s: State) {
    forall i: nat, c: nat, k | InTable(s, i, c, k) :: ClosedBelow(s, i, k)
  }

  ghost predicate Inv(s: State) {
    && TableInv(s)
    && (forall t | t in s.threads :: ThreadInv(s, s.threads[t]))
    && OneCreator(s.threads)
    && CrossInv(s)
  }

  // -------------------------------------------------------------------- the invariant holds

  lemma InitInv(s: State)
    requires Init(s)
    ensures Inv(s)
  {
    assert Proj(s.threads, 0) == map[];
    A.InitInv(s.subs[0].cfg, Sub(s, 0));
  }

  lemma SubFollows(canGrow: bool, s: State, s': State, t: Tid, i: nat)
    requires Inv(s) && Next(canGrow, s, s', t) && i < |s.subs| && s.subs[i].Map?
    ensures |s'.subs| == |s.subs| && s'.subs[i].Map? && s'.subs[i].cfg == s.subs[i].cfg
    ensures Sub(s', i) == Sub(s, i) || A.Next(s.subs[i].cfg, Sub(s, i), Sub(s', i), t)
    ensures A.Inv(s.subs[i].cfg, Sub(s', i))
  {
    if t in s.threads {
      assert ThreadInv(s, s.threads[t]);
    }
    StepOnSub(canGrow, s, s', t, i);
    if Sub(s', i) != Sub(s, i) {
      A.StepInv(s.subs[i].cfg, Sub(s, i), Sub(s', i), t);
    }
  }

  lemma ClosedInStays(canGrow: bool, s: State, s': State, t: Tid, x: nat, k: Key)
    requires Inv(s) && Next(canGrow, s, s', t) && ClosedIn(s, x, k)
    ensures ClosedIn(s', x, k)
  {
    SubFollows(canGrow, s, s', t, x);
    if Sub(s', x) != Sub(s, x) {
      A.ClosedStays(s.subs[x].cfg, Sub(s, x), Sub(s', x), t, k);
    }
  }

  lemma ClosedBelowStays(canGrow: bool, s: State, s': State, t: Tid, i: nat, k: Key)
    requires Inv(s) && Next(canGrow, s, s', t) && ClosedBelow(s, i, k)
    ensures ClosedBelow(s', i, k)
  {
    forall x: nat | x < i
      ensures ClosedIn(s', x, k)
    {
      assert ClosedIn(s, x, k);
      ClosedInStays(canGrow, s, s', t, x, k);
    }
  }

  lemma StepPointers(canGrow: bool, s: State, s': State, t: Tid)
    requires Inv(s) && Next(canGrow, s, s', t)
    ensures |s'.subs| == NUM_SUBMAPS && s.count <= s'.count <= NUM_SUBMAPS
    ensures forall i | 0 <= i < s'.count :: s'.subs[i].Map?
    ensures forall i | s'.count < i < NUM_SUBMAPS :: s'.subs[i].Null?
    ensures s'.count < NUM_SUBMAPS && s'.subs[s'.count].Map? ==>
              s'.subs[s'.count].sh == A.Fresh(s'.subs[s'.count].cfg)
  {
    hide A.Inv, A.ThreadStep, ClosedBelow, CrossInv;
    if t in s.threads {
      assert ThreadInv(s, s.threads[t]);
    }
  }

  lemma FreshTableInv(canGrow: bool, s: State, s': State, t: Tid, i: nat)
    requires Inv(s) && Next(canGrow, s, s', t) && |s'.subs| == NUM_SUBMAPS && i < NUM_SUBMAPS
    requires s'.subs[i].Map? && !s.subs[i].Map?
    ensures A.Inv(s'.subs[i].cfg, Sub(s', i)) && A.Init(s'.subs[i].cfg, Sub(s', i))
  {
    assert ThreadInv(s, s.threads[t]);
    forall u | u in s'.threads
      ensures !Inside(s'.threads[u], i)
    {
      if u != t {
        assert ThreadInv(s, s.threads[u]);
      }
    }
    assert Proj(s'.threads, i) == map[];
    A.InitInv(s'.subs[i].cfg, Sub(s', i));
  }

  lemma StepTableInv(canGrow: bool, s: State, s': State, t: Tid)
    requires Inv(s) && Next(canGrow, s, s', t)
    ensures TableInv(s')
  {
    StepPointers(canGrow, s, s', t);
    forall i: nat | i < NUM_SUBMAPS && s'.subs[i].Map?
      ensures A.Inv(s'.subs[i].cfg, Sub(s', i))
    {
      if s.subs[i].Map? {
        SubFollows(canGrow, s, s', t, i);
      } else {
        FreshTableInv(canGrow, s, s', t, i);
      }
    }
  }

  lemma OtherThreadInv(canGrow: bool, s: State, s': State, t: Tid, u: Tid)
    requires Inv(s) && Next(canGrow, s, s', t) && u in s'.threads && u != t
    ensures ThreadInv(s', s'.threads[u])
  {
    hide A.Inv, A.ThreadStep, ClosedBelow, CrossInv;
    var th := s.threads[u];
    assert ThreadInv(s, th);
    StepPointers(canGrow, s, s', t);
    if t in s.threads {
      assert ThreadInv(s, s.threads[t]);
    }
    match th.pc
    case LoadCount =>
    case Finished(_) =>
    case Visit(m, i) =>
      if th.op.Insert? { ClosedBelowStays(canGrow, s, s', t, i, th.op.key); }
    case InSub(m, i, l) =>
      if th.op.Insert? { ClosedBelowStays(canGrow, s, s', t, i, th.op.key); }
    case CheckGrow(m) => ClosedBelowStays(canGrow, s, s', t, m, th.op.key);
    case LockMap(m) => ClosedBelowStays(canGrow, s, s', t, m, th.op.key);
    case Create(m) => ClosedBelowStays(canGrow, s, s', t, m, th.op.key);
    case PublishCount(m) => ClosedBelowStays(canGrow, s, s', t, m, th.op.key);
    case Await(m) => ClosedBelowStays(canGrow, s, s', t, m, th.op.key);
  }

  /** A table call keeps its key and its kind. */
  lemma SubCallKind(cfg: A.Config, sh: A.Shared, l: A.Local, sh': A.Shared, l': A.Local, op: Op)
    requires A.ThreadStep(cfg, sh, l, sh', l') && SameKind(op, l)
    ensures SameKind(op, l')
  {
  }

  /** A table that reports "full" to an insert has closed the key. */
  lemma FullCloses(s: State, t: Tid)
    requires Inv(s) && t in s.threads && s.threads[t].op.Insert? && s.threads[t].pc.InSub?
    requires s.threads[t].pc.l.Done? && s.threads[t].pc.l.result.Full?
    ensures ClosedBelow(s, s.threads[t].pc.i + 1, s.threads[t].op.key)
  {
    var th := s.threads[t];
    var i := th.pc.i;
    assert ThreadInv(s, th);
    assert t in Sub(s, i).threads && A.LocalInv(s.subs[i].cfg, Sub(s, i), Sub(s, i).threads[t]);
    assert ClosedIn(s, i, th.op.key);
  }

  lemma MoverInSub(canGrow: bool, s: State, s': State, t: Tid)
    requires Inv(s) && Next(canGrow, s, s', t) && t in s.threads && s.threads[t].pc.InSub? && t in s'.threads
    ensures ThreadInv(s', s'.threads[t])
  {
    hide A.Inv, A.ThreadStep, ClosedBelow, CrossInv;
    var th := s.threads[t];
    var InSub(m, i, l) := th.pc;
    assert ThreadInv(s, th);
    StepPointers(canGrow, s, s', t);
    if th.op.Insert? {
      if l.Done? && l.result.Full? {
        FullCloses(s, t);
        ClosedBelowStays(canGrow, s, s', t, i + 1, th.op.key);
      } else {
        ClosedBelowStays(canGrow, s, s', t, i, th.op.key);
      }
    }
    if !l.Done? {
      SubCallKind(s.subs[i].cfg, s.subs[i].sh, l, s'.subs[i].sh, s'.threads[t].pc.l, th.op);
    }
  }

  lemma MoverThreadInv(canGrow: bool, s: State, s': State, t: Tid)
    requires Inv(s) && Next(canGrow, s, s', t) && t in s'.threads
    ensures ThreadInv(s', s'.threads[t])
  {
    hide A.Inv, A.ThreadStep, CrossInv;
    StepPointers(canGrow, s, s', t);
    if t in s.threads {
      var th := s.threads[t];
      assert ThreadInv(s, th);
      match th.pc
      case InSub(_, _, _) => MoverInSub(canGrow, s, s', t);
      case LoadCount =>
      case Finished(_) =>
      case Visit(m, i) =>
        if th.op.Insert? { ClosedBelowStays(canGrow, s, s', t, i, th.op.key); }
      case CheckGrow(m) => ClosedBelowStays(canGrow, s, s', t, m, th.op.key);
      case LockMap(m) => ClosedBelowStays(canGrow, s, s', t, m, th.op.key);
      case Create(m) => ClosedBelowStays(canGrow, s, s', t, m, th.op.key);
      case PublishCount(m) => ClosedBelowStays(canGrow, s, s', t, m, th.op.key);
      case Await(m) => ClosedBelowStays(canGrow, s, s', t, m, th.op.key);
    }
  }

  lemma StepCrossInv(canGrow: bool, s: State, s': State, t: Tid)
    requires Inv(s) && Next(canGrow, s, s', t)
    ensures CrossInv(s')
  {
    StepPointers(canGrow, s, s', t);
    forall i: nat, c: nat, k | InTable(s', i, c, k)
      ensures ClosedBelow(s', i, k)
    {
      if !s.subs[i].Map? {
        FreshTableInv(canGrow, s, s', t, i);
      } else {
        SubFollows(canGrow, s, s', t, i);
        if !InTable(s, i, c, k) {
          A.NewKeyByInserter(s.subs[i].cfg, Sub(s, i), Sub(s', i), t, k, c);
          assert ThreadInv(s, s.threads[t]);
        }
        assert ClosedBelow(s, i, k);
        ClosedBelowStays(canGrow, s, s', t, i, k);
      }
    }
  }

  lemma StepOneCreator(canGrow: bool, s: State, s': State, t: Tid)
    requires Inv(s) && Next(canGrow, s, s', t)
    ensures OneCreator(s'.threads)
  {
    hide A.Inv, A.ThreadStep, ClosedBelow, CrossInv;
    if t in s.threads && t in s'.threads && Creating(s'.threads[t].pc) && !Creating(s.threads[t].pc) {
      assert ThreadInv(s, s.threads[t]);
      forall u | u in s.threads
        ensures !Creating(s.threads[u].pc)
      {
        assert ThreadInv(s, s.threads[u]);
      }
    }
  }

  /** Every step of every thread keeps the invariant. */
  lemma StepInv(canGrow: bool, s: State, s': State, t: Tid)
    requires Inv(s) && Next(canGrow, s, s', t)
    ensures Inv(s')
  {
    StepTableInv(canGrow, s, s', t);
    StepCrossInv(canGrow, s, s', t);
    StepOneCreator(canGrow, s, s', t);
    forall u | u in s'.threads
      ensures ThreadInv(s', s'.threads[u])
    {
      if u == t {
        MoverThreadInv(canGrow, s, s', t);
      } else {
        OtherThreadInv(canGrow, s, s', t, u);
      }
    }
  }

  // -------------------------------------------------------------------- whole runs

  ghost predicate IsRun(canGrow: bool, run: seq<State>, who: seq<Tid>) {
    && |run| == |who| + 1
    && Init(run[0])
    && forall n: nat | n < |who| :: Next(canGrow, run[n], run[n + 1], who[n])
  }

  lemma {:induction false} RunInv(canGrow: bool, run: seq<State>, who: seq<Tid>, n: nat)
    requires IsRun(canGrow, run, who) && n < |run|
    ensures Inv(run[n])
  {
    hide Inv, Next;
    if n == 0 {
      InitInv(run[0]);
    } else {
      RunInv(canGrow, run, who, n - 1);
      StepInv(canGrow, run[n - 1], run[n], who[n - 1]);
    }
  }

  lemma LiveOnce(s: State, k: Key, i: nat, c: nat, j: nat, d: nat)
    requires Inv(s) && InTable(s, i, c, k) && InTable(s, j, d, k)
    ensures i == j && c == d
  {
    if i < j {
      assert ClosedIn(s, i, k);
      A.ClosedIsAbsent(s.subs[i].cfg, Sub(s, i), k);
    } else if j < i {
      assert ClosedIn(s, j, k);
      A.ClosedIsAbsent(s.subs[j].cfg, Sub(s, j), k);
    } else {
      A.LiveOnce(s.subs[i].cfg, Sub(s, i), k, c, d);
    }
  }

  /** In every reachable state a key is live in at most one cell over all tables. */
  lemma KeyLiveAtMostOnce(canGrow: bool, run: seq<State>, who: seq<Tid>, n: nat, k: Key, i: nat, c: nat, j: nat, d: nat)
    requires IsRun(canGrow, run, who) && n < |run|
    requires InTable(run[n], i, c, k) && InTable(run[n], j, d, k)
    ensures i == j && c == d
  {
    RunInv(canGrow, run, who, n);
    LiveOnce(run[n], k, i, c, j, d);
  }

  lemma {:induction false} ClosedForever(canGrow: bool, run: seq<State>, who: seq<Tid>, n: nat, n': nat, x: nat, k: Key)
    requires IsRun(canGrow, run, who) && n <= n' < |run| && ClosedIn(run[n], x, k)
    ensures ClosedIn(run[n'], x, k)
  {
    hide Inv, Next, ClosedIn;
    if n < n' {
      ClosedForever(canGrow, run, who, n, n' - 1, x, k);
      RunInv(canGrow, run, who, n' - 1);
      ClosedInStays(canGrow, run[n' - 1], run[n'], who[n' - 1], x, k);
    }
  }

  /** An insert works on table `i` only when its key is absent from every earlier table, for good. */
  lemma InsertMovesOnOnlyWhenClosed(canGrow: bool, run: seq<State>, who: seq<Tid>, n: nat, n': nat, t: Tid, x: nat)
    requires IsRun(canGrow, run, who) && n <= n' < |run|
    requires t in run[n].threads && run[n].threads[t].op.Insert?
    requires run[n].threads[t].pc.InSub? && x < run[n].threads[t].pc.i
    ensures ClosedIn(run[n'], x, run[n].threads[t].op.key)
    ensures A.Absent(run[n'].subs[x].sh, run[n].threads[t].op.key)
  {
    var k := run[n].threads[t].op.key;
    assert ClosedIn(run[n], x, k) by {
      RunInv(canGrow, run, who, n);
      assert ThreadInv(run[n], run[n].threads[t]);
    }
    ClosedForever(canGrow, run, who, n, n', x, k);
    RunInv(canGrow, run, who, n');
    A.ClosedIsAbsent(run[n'].subs[x].cfg, Sub(run[n'], x), k);
  }

  /** Tables are published in order: the one being published is the next one, the pointer a thread
      is about to call is a real table, and numMapsAllocated_ never shrinks.  The thread that publishes a table, and
      one that waited for it, calls that table next. */
  lemma PublicationInOrder(canGrow: bool, run: seq<State>, who: seq<Tid>, n: nat, t: Tid)
    requires IsRun(canGrow, run, who) && n < |run| && t in run[n].threads
    ensures run[n].threads[t].pc.Visit? ==>
              run[n].threads[t].pc.i < |run[n].subs| && run[n].subs[run[n].threads[t].pc.i].Map?
    ensures run[n].threads[t].pc.PublishCount? ==> run[n].threads[t].pc.m == run[n].count
    ensures n < |who| ==> run[n].count <= run[n + 1].count
    ensures n < |who| && who[n] == t && run[n].threads[t].pc.PublishCount? ==>
              var m := run[n].threads[t].pc.m;
              run[n + 1].count == m + 1 && t in run[n + 1].threads && run[n + 1].threads[t].pc == Visit(m, m)
    ensures n < |who| && who[n] == t && run[n].threads[t].pc.Await? ==>
              var m := run[n].threads[t].pc.m;
              && t in run[n + 1].threads
              && run[n + 1].threads[t].pc == if m < run[n].count then Visit(m, m) else Await(m)
  {
    RunInv(canGrow, run, who, n);
    assert ThreadInv(run[n], run[n].threads[t]);
    if n < |who| {
      StepPointers(canGrow, run[n], run[n + 1], who[n]);
    }
  }

  // -------------------------------------------------------------------- find and erase

  ghost predicate Absent(s: State, k: Key) {
    forall i: nat, c: nat :: !InTable(s, i, c, k)
  }

  /** The find or erase call of `t` has not yet gone past cell `c` of table `x`. */
  ghost predicate Chase(s: State, t: Tid, k: Key, x: nat, c: nat) {
    && t in s.threads && !s.threads[t].op.Insert? && s.threads[t].op.key == k
    && x < s.count && x < |s.subs|
    && match s.threads[t].pc
       case LoadCount => InTable(s, x, c, k) && (s.threads[t].op.Find? ==> 1 <= x)
       case Visit(m, i) => InTable(s, x, c, k) && i <= x && (m != 0 ==> x < m)
       case InSub(m, i, l) =>
         && s.subs[x].Map? && i <= x && (m != 0 ==> x < m)
         && (i < x ==> InTable(s, x, c, k) && Empty(l))
         && (i == x ==> A.Reaching(s.subs[x].cfg, Sub(s, x), t, s.threads[t].op.Find?, k, c))
       case Finished(r) => r == if s.threads[t].op.Find? then Found(x, c) else ErasedOne
       case _ => false
  }

  /** A table call that has not met its key. */
  predicate Empty(l: A.Local) {
    match l
    case Insert(_, _, _, _) => false
    case Find(_, _) => true
    case Erase(_, _, pc) => pc.Look?
    case Done(_, r) => r.NotFound? || r.ErasedNone?
  }

  lemma EmptyStays(cfg: A.Config, sh: A.Shared, l: A.Local, sh': A.Shared, l': A.Local)
    requires A.ThreadStep(cfg, sh, l, sh', l') && Empty(l) && A.Absent(sh, l.key)
    ensures Empty(l')
  {
    assert !A.HoldsKey(sh, A.Idx(cfg, l), l.key);
  }

  /** Other threads keep the key where it is. */
  lemma ChaseOther(canGrow: bool, s: State, s': State, u: Tid, t: Tid, k: Key, x: nat, c: nat)
    requires Inv(s) && Next(canGrow, s, s', u) && u != t && Chase(s, t, k, x, c)
    requires InTable(s, x, c, k) ==> InTable(s', x, c, k)
    ensures Chase(s', t, k, x, c) && s'.threads[t].op == s.threads[t].op
  {
    hide OwnStep, SubStep, A.Inv, A.ThreadStep;
    StepPointers(canGrow, s, s', u);
    var th := s.threads[t];
    assert s'.threads[t] == th;
    if th.pc.InSub? && th.pc.i == x {
      SubFollows(canGrow, s, s', u, x);
      if Sub(s', x) != Sub(s, x) && !th.pc.l.Done? {
        A.ReachingStep(s.subs[x].cfg, Sub(s, x), Sub(s', x), u, t, th.op.Find?, k, c);
      }
    }
  }

  lemma ChaseMover(canGrow: bool, s: State, s': State, t: Tid, k: Key, x: nat, c: nat)
    requires Inv(s) && Next(canGrow, s, s', t) && Chase(s, t, k, x, c) && !s.threads[t].pc.Finished?
    ensures Chase(s', t, k, x, c) && s'.threads[t].op == s.threads[t].op
  {
    var th := s.threads[t];
    match th.pc
    case Visit(m, i) =>
      if i == x {
        ChaseEnters(canGrow, s, s', t, k, x, c);
      }
    case InSub(m, i, l) =>
      if i == x {
        ChaseInside(canGrow, s, s', t, k, x, c);
      } else {
        ChaseBefore(canGrow, s, s', t, k, x, c);
      }
    case _ =>
  }

  lemma ChaseEnters(canGrow: bool, s: State, s': State, t: Tid, k: Key, x: nat, c: nat)
    requires Inv(s) && Next(canGrow, s, s', t) && Chase(s, t, k, x, c)
    requires s.threads[t].pc.Visit? && s.threads[t].pc.i == x
    ensures Chase(s', t, k, x, c)
  {
    SubFollows(canGrow, s, s', t, x);
    assert t in Sub(s', x).threads && Sub(s', x).threads[t] == SubCall(s.threads[t].op);
    A.ReachingStart(s.subs[x].cfg, Sub(s', x), t, k, c);
  }

  lemma ChaseInside(canGrow: bool, s: State, s': State, t: Tid, k: Key, x: nat, c: nat)
    requires Inv(s) && Next(canGrow, s, s', t) && Chase(s, t, k, x, c)
    requires s.threads[t].pc.InSub? && s.threads[t].pc.i == x
    ensures Chase(s', t, k, x, c)
  {
    hide A.Inv, A.ThreadStep, CrossInv;
    assert t in Sub(s, x).threads && Sub(s, x).threads[t] == s.threads[t].pc.l;
    if !s.threads[t].pc.l.Done? {
      ReachingMover(canGrow, s, s', t, k, x, c);
    }
  }

  lemma ChaseBefore(canGrow: bool, s: State, s': State, t: Tid, k: Key, x: nat, c: nat)
    requires Inv(s) && Next(canGrow, s, s', t) && Chase(s, t, k, x, c)
    requires s.threads[t].pc.InSub? && s.threads[t].pc.i < x
    ensures Chase(s', t, k, x, c)
  {
    hide A.Inv, A.ThreadStep, CrossInv;
    assert ThreadInv(s, s.threads[t]);
    var InSub(m, i, l) := s.threads[t].pc;
    if !l.Done? {
      AbsentElsewhere(s, k, x, c, i);
      EmptyStays(s.subs[i].cfg, s.subs[i].sh, l, s'.subs[i].sh, s'.threads[t].pc.l);
    }
  }

  lemma ReachingMover(canGrow: bool, s: State, s': State, t: Tid, k: Key, x: nat, c: nat)
    requires Inv(s) && Next(canGrow, s, s', t) && Chase(s, t, k, x, c)
    requires s.threads[t].pc.InSub? && s.threads[t].pc.i == x && !s.threads[t].pc.l.Done?
    ensures |s'.subs| == |s.subs| && s'.subs[x].Map? && s'.subs[x].cfg == s.subs[x].cfg
    ensures A.Reaching(s.subs[x].cfg, Sub(s', x), t, s.threads[t].op.Find?, k, c)
  {
    SubFollows(canGrow, s, s', t, x);
    if Sub(s', x) != Sub(s, x) {
      A.ReachingStep(s.subs[x].cfg, Sub(s, x), Sub(s', x), t, t, s.threads[t].op.Find?, k, c);
    }
  }

  lemma AbsentElsewhere(s: State, k: Key, x: nat, c: nat, i: nat)
    requires Inv(s) && InTable(s, x, c, k) && i != x && i < |s.subs| && s.subs[i].Map?
    ensures A.Absent(s.subs[i].sh, k)
  {
    forall d: nat | A.HoldsKey(s.subs[i].sh, d, k)
      ensures false
    {
      LiveOnce(s, k, x, c, i, d);
    }
  }

  /** From `run[a]` to `run[b]` thread `t` is inside one find or erase call for `k`. */
  ghost predicate SeekCall(run: seq<State>, a: nat, b: nat, t: Tid, k: Key) {
    && a <= b < |run|
    && (forall n | a <= n <= b :: t in run[n].threads)
    && (forall n | a <= n < b :: !run[n].threads[t].pc.Finished?)
    && var th := run[a].threads[t];
       !th.op.Insert? && th.op.key == k && th.pc == StartPc(th.op)
  }

  ghost predicate KeptByOthers(run: seq<State>, who: seq<Tid>, a: nat, b: nat, t: Tid, k: Key, x: nat, c: nat)
    requires a <= b < |run| && |run| == |who| + 1
  {
    forall n | a <= n < b :: who[n] != t && InTable(run[n], x, c, k) ==> InTable(run[n + 1], x, c, k)
  }

  lemma ChaseBegins(s: State, t: Tid, k: Key, x: nat, c: nat)
    requires t in s.threads && x < s.count && InTable(s, x, c, k)
    requires var th := s.threads[t]; !th.op.Insert? && th.op.key == k && th.pc == StartPc(th.op)
    ensures Chase(s, t, k, x, c)
  {
  }

  lemma {:induction false} StaysChased(canGrow: bool, run: seq<State>, who: seq<Tid>, a: nat, b: nat, t: Tid, k: Key,
                                       x: nat, c: nat)
    requires IsRun(canGrow, run, who) && SeekCall(run, a, b, t, k)
    requires x < run[a].count && InTable(run[a], x, c, k) && KeptByOthers(run, who, a, b, t, k, x, c)
    ensures Chase(run[b], t, k, x, c) && run[b].threads[t].op == run[a].threads[t].op
  {
    hide Inv, Next, Chase;
    if a == b {
      ChaseBegins(run[a], t, k, x, c);
    } else {
      var s, s', u := run[b - 1], run[b], who[b - 1];
      RunInv(canGrow, run, who, b - 1);
      StaysChased(canGrow, run, who, a, b - 1, t, k, x, c);
      if u == t {
        ChaseMover(canGrow, s, s', t, k, x, c);
      } else {
        ChaseOther(canGrow, s, s', u, t, k, x, c);
      }
    }
  }

  /** A live key that nobody else erases is found, and erased, across tables. */
  lemma LiveKeyIsReached(canGrow: bool, run: seq<State>, who: seq<Tid>, a: nat, b: nat, t: Tid, k: Key, x: nat, c: nat)
    requires IsRun(canGrow, run, who) && SeekCall(run, a, b, t, k)
    requires InTable(run[a], x, c, k) && KeptByOthers(run, who, a, b, t, k, x, c)
    requires run[b].threads[t].pc.Finished?
    ensures run[b].threads[t].pc.result == if run[a].threads[t].op.Find? then Found(x, c) else ErasedOne
  {
    RunInv(canGrow, run, who, a);
    KeyInPublishedTable(run[a], x, c, k);
    StaysChased(canGrow, run, who, a, b, t, k, x, c);
  }

  lemma KeyInPublishedTable(s: State, x: nat, c: nat, k: Key)
    requires Inv(s) && InTable(s, x, c, k)
    ensures x < s.count
  {
  }

  lemma PresentStaysPut(canGrow: bool, s: State, s': State, u: Tid, k: Key, x: nat, c: nat)
    requires Inv(s) && Next(canGrow, s, s', u) && InTable(s, x, c, k) && !Absent(s', k)
    ensures InTable(s', x, c, k)
  {
    StepPointers(canGrow, s, s', u);
    SubFollows(canGrow, s, s', u, x);
    var y: nat, d: nat :| InTable(s', y, d, k);
    if y == x {
      if Sub(s', x) != Sub(s, x) {
        assert A.HoldsKey(Sub(s', x).sh, d, k);
        A.PresentStaysPut(s.subs[x].cfg, Sub(s, x), Sub(s', x), u, k, c);
      }
    } else {
      ElsewhereUntouched(canGrow, s, s', u, k, x, c, y, d);
    }
  }

  /** A step that makes `k` live in another table leaves table `x` alone. */
  lemma ElsewhereUntouched(canGrow: bool, s: State, s': State, u: Tid, k: Key, x: nat, c: nat, y: nat, d: nat)
    requires Inv(s) && Next(canGrow, s, s', u) && InTable(s, x, c, k) && InTable(s', y, d, k) && y != x
    ensures InTable(s', x, c, k)
  {
    StepPointers(canGrow, s, s', u);
    if InTable(s, y, d, k) {
      LiveOnce(s, k, x, c, y, d);
    } else if s.subs[y].Map? {
      SubFollows(canGrow, s, s', u, y);
      A.NewKeyByInserter(s.subs[y].cfg, Sub(s, y), Sub(s', y), u, k, d);
      assert ThreadInv(s, s.threads[u]);
    } else {
      FreshTableInv(canGrow, s, s', u, y);
    }
  }

  lemma {:induction false} StaysWhilePresent(canGrow: bool, run: seq<State>, who: seq<Tid>, a: nat, b: nat, k: Key,
                                             x: nat, c: nat)
    requires IsRun(canGrow, run, who) && a <= b < |run| && InTable(run[a], x, c, k)
    requires forall n | a <= n <= b :: !Absent(run[n], k)
    ensures InTable(run[b], x, c, k)
  {
    hide Inv, Next;
    if a < b {
      StaysWhilePresent(canGrow, run, who, a, b - 1, k, x, c);
      RunInv(canGrow, run, who, b - 1);
      PresentStaysPut(canGrow, run[b - 1], run[b], who[b - 1], k, x, c);
    }
  }

  /** Every not-found answer has an instant inside the call at which the key was in no table. */
  lemma NotFoundWasAbsent(canGrow: bool, run: seq<State>, who: seq<Tid>, a: nat, b: nat, t: Tid, k: Key)
    requires IsRun(canGrow, run, who) && SeekCall(run, a, b, t, k)
    requires run[b].threads[t].pc.Finished? && run[b].threads[t].pc.result in {NotFound, ErasedNone}
    ensures exists n :: a <= n <= b && Absent(run[n], k)
  {
    if forall n | a <= n <= b :: !Absent(run[n], k) {
      var x: nat, c: nat :| InTable(run[a], x, c, k);
      forall n | a <= n <= b
        ensures InTable(run[n], x, c, k)
      {
        StaysWhilePresent(canGrow, run, who, a, n, k, x, c);
      }
      LiveKeyIsReached(canGrow, run, who, a, b, t, k, x, c);
    }
  }

  // -------------------------------------------------------------------- inserted, and map full

  ghost predicate MakesLive(s: State, s': State, i: nat, c: nat, k: Key, v: Val) {
    && !InTable(s, i, c, k) && InTable(s', i, c, k)
    && c < |s'.subs[i].sh.vals| && s'.subs[i].sh.vals[c] == Some(v)
  }

  /** The insert has published its key in cell `c` of table `i`. */
  predicate HasMade(s: State, th: Thread, i: nat, c: nat) {
    || th.pc == Finished(Inserted(i, c))
    || (Inside(th, i) && i < |s.subs| && s.subs[i].Map? && A.HasMade(s.subs[i].cfg, th.pc.l, c))
  }

  /** From `run[a]` to `run[b]` thread `t` is inside one call of the map. */
  ghost predicate OneCall(run: seq<State>, a: nat, b: nat, t: Tid, op: Op) {
    && a <= b < |run|
    && (forall n | a <= n <= b :: t in run[n].threads)
    && (forall n | a <= n < b :: !run[n].threads[t].pc.Finished?)
    && run[a].threads[t] == Thread(op, StartPc(op))
  }

  /** The value a table call carries is that of the map's call. */
  predicate Carries(th: Thread) {
    th.pc.InSub? && th.pc.l.Insert? ==> th.op == Insert(th.pc.l.key, th.pc.l.val)
  }

  lemma CarriesStep(canGrow: bool, s: State, s': State, u: Tid, t: Tid)
    requires Next(canGrow, s, s', u) && t in s.threads && t in s'.threads && !s.threads[t].pc.Finished?
    requires Carries(s.threads[t])
    ensures Carries(s'.threads[t]) && s'.threads[t].op == s.threads[t].op
  {
    hide A.ThreadStep;
    var pc := s.threads[t].pc;
    if u == t && pc.InSub? && !pc.l.Done? {
      A.CallKeepsKey(s.subs[pc.i].cfg, s.subs[pc.i].sh, pc.l, s'.subs[pc.i].sh, s'.threads[t].pc.l);
    }
  }

  lemma MadeByOther(canGrow: bool, s: State, s': State, u: Tid, t: Tid, i: nat, c: nat)
    requires Inv(s) && Next(canGrow, s, s', u) && u != t && t in s.threads && t in s'.threads
    requires HasMade(s', s'.threads[t], i, c)
    ensures HasMade(s, s.threads[t], i, c)
  {
    hide OwnStep, SubStep, A.Inv, A.ThreadStep, A.HasMade;
    assert s'.threads[t] == s.threads[t];
    if Inside(s.threads[t], i) {
      assert ThreadInv(s, s.threads[t]);
      SubFollows(canGrow, s, s', u, i);
    }
  }

  lemma MadeByMover(canGrow: bool, s: State, s': State, t: Tid, i: nat, c: nat)
    requires Inv(s) && Next(canGrow, s, s', t) && t in s.threads && !s.threads[t].pc.Finished? && t in s'.threads
    requires Carries(s.threads[t]) && s.threads[t].op.Insert? && HasMade(s', s'.threads[t], i, c)
    ensures || HasMade(s, s.threads[t], i, c)
            || MakesLive(s, s', i, c, s.threads[t].op.key, s.threads[t].op.val)
  {
    hide A.Inv, A.ThreadStep, A.LocalInv, ThreadInv, CrossInv;
    var pc := s.threads[t].pc;
    if Inside(s.threads[t], i) {
      if !pc.l.Done? {
        MadeInTable(s, s', t, i, c);
      }
    }
  }

  lemma MadeInTable(s: State, s': State, t: Tid, i: nat, c: nat)
    requires Inv(s) && t in s.threads && Inside(s.threads[t], i) && !s.threads[t].pc.l.Done?
    requires t in s'.threads && Inside(s'.threads[t], i)
    requires i < |s.subs| == |s'.subs| && s.subs[i].Map? && s'.subs[i].Map?
    requires A.ThreadStep(s.subs[i].cfg, s.subs[i].sh, s.threads[t].pc.l, s'.subs[i].sh, s'.threads[t].pc.l)
    requires A.HasMade(s.subs[i].cfg, s'.threads[t].pc.l, c)
    requires s.threads[t].op.Insert? && Carries(s.threads[t])
    ensures || A.HasMade(s.subs[i].cfg, s.threads[t].pc.l, c)
            || MakesLive(s, s', i, c, s.threads[t].op.key, s.threads[t].op.val)
  {
    hide A.ThreadStep, A.LocalInv, A.HasMade, CrossInv, ThreadInv;
    assert t in Sub(s, i).threads && A.LocalInv(s.subs[i].cfg, Sub(s, i), Sub(s, i).threads[t]);
    A.ThreadMakes(s.subs[i].cfg, Sub(s, i), s.threads[t].pc.l, s'.subs[i].sh, s'.threads[t].pc.l, c);
  }

  lemma {:induction false} OneCallCarries(canGrow: bool, run: seq<State>, who: seq<Tid>, a: nat, b: nat, t: Tid, op: Op)
    requires IsRun(canGrow, run, who) && OneCall(run, a, b, t, op)
    ensures Carries(run[b].threads[t]) && run[b].threads[t].op == op
  {
    hide Next, Init, Carries;
    if a == b {
      StartCarries(op);
    } else {
      OneCallCarries(canGrow, run, who, a, b - 1, t, op);
      CarriesStep(canGrow, run[b - 1], run[b], who[b - 1], t);
    }
  }

  lemma StartCarries(op: Op)
    ensures Carries(Thread(op, StartPc(op)))
  {
  }

  lemma {:induction false} MadeInside(canGrow: bool, run: seq<State>, who: seq<Tid>, a: nat, b: nat, t: Tid, op: Op,
                                      i: nat, c: nat) returns (n: nat)
    requires IsRun(canGrow, run, who) && OneCall(run, a, b, t, op) && op.Insert?
    requires HasMade(run[b], run[b].threads[t], i, c)
    ensures a <= n < b && who[n] == t && MakesLive(run[n], run[n + 1], i, c, op.key, op.val)
  {
    hide Next, Init, Inv, Carries, MakesLive;
    n := b - 1;
    RunInv(canGrow, run, who, n);
    OneCallCarries(canGrow, run, who, a, n, t, op);
    if who[n] == t {
      MadeByMover(canGrow, run[n], run[b], t, i, c);
    } else {
      MadeByOther(canGrow, run[n], run[b], who[n], t, i, c);
    }
    if HasMade(run[n], run[n].threads[t], i, c) {
      n := MadeInside(canGrow, run, who, a, n, t, op, i, c);
    }
  }

  /** Every insert that answers "inserted" put its key and its value into that cell of that table at one of its own
      steps between its call and its answer. */
  lemma InsertedWasMade(canGrow: bool, run: seq<State>, who: seq<Tid>, a: nat, b: nat, t: Tid, op: Op) returns (n: nat)
    requires IsRun(canGrow, run, who) && OneCall(run, a, b, t, op) && op.Insert?
    requires run[b].threads[t].pc.Finished? && run[b].threads[t].pc.result.Inserted?
    ensures a <= n < b && who[n] == t
    ensures var r := run[b].threads[t].pc.result;
            MakesLive(run[n], run[n + 1], r.i, r.j, op.key, op.val)
  {
    hide IsRun, MakesLive;
    n := MadeInside(canGrow, run, who, a, b, t, op, run[b].threads[t].pc.result.i, run[b].threads[t].pc.result.j);
  }

  /** A map that may not grow has one table and nobody who would add another. */
  ghost predicate GrowInv(canGrow: bool, s: State) {
    !canGrow ==>
      && s.count == 1
      && (forall i | 1 <= i < |s.subs| :: s.subs[i].Null?)
      && (forall t | t in s.threads :: !WouldGrow(s.threads[t].pc))
  }

  predicate WouldGrow(pc: Pc) {
    pc.LockMap? || pc.Create? || pc.PublishCount? || pc.Await?
  }

  /** An insert that was told the map is full has been through every table there will ever be. */
  ghost predicate FullInv(canGrow: bool, s: State, th: Thread) {
    th.pc == Finished(MapFull) ==>
      (s.count == NUM_SUBMAPS || !canGrow) && ClosedBelow(s, s.count, th.op.key)
  }

  ghost predicate LimitInv(canGrow: bool, s: State) {
    GrowInv(canGrow, s) && forall t | t in s.threads :: FullInv(canGrow, s, s.threads[t])
  }

  lemma GrowStep(canGrow: bool, s: State, s': State, t: Tid)
    requires Inv(s) && GrowInv(canGrow, s) && Next(canGrow, s, s', t)
    ensures GrowInv(canGrow, s')
  {
    hide A.Inv, A.ThreadStep, CrossInv, ClosedBelow;
    if !canGrow {
      StepPointers(canGrow, s, s', t);
      if t in s.threads {
        assert ThreadInv(s, s.threads[t]);
      }
    }
  }

  lemma FullStep(canGrow: bool, s: State, s': State, t: Tid, u: Tid)
    requires Inv(s) && LimitInv(canGrow, s) && Next(canGrow, s, s', t) && GrowInv(canGrow, s') && u in s'.threads
    ensures FullInv(canGrow, s', s'.threads[u])
  {
    hide A.Inv, A.ThreadStep, CrossInv, ClosedBelow;
    if s'.threads[u].pc == Finished(MapFull) {
      StepPointers(canGrow, s, s', t);
      if u == t {
        assert ThreadInv(s, s.threads[t]);
      } else {
        assert FullInv(canGrow, s, s.threads[u]);
      }
      ClosedBelowStays(canGrow, s, s', t, s.count, s'.threads[u].op.key);
    }
  }

  lemma {:induction false} RunLimit(canGrow: bool, run: seq<State>, who: seq<Tid>, n: nat)
    requires IsRun(canGrow, run, who) && n < |run|
    ensures LimitInv(canGrow, run[n])
  {
    hide Inv, Next, GrowInv, FullInv;
    if n == 0 {
      InitLimit(canGrow, run[0]);
    } else {
      RunInv(canGrow, run, who, n - 1);
      RunLimit(canGrow, run, who, n - 1);
      GrowStep(canGrow, run[n - 1], run[n], who[n - 1]);
      forall u | u in run[n].threads
        ensures FullInv(canGrow, run[n], run[n].threads[u])
      {
        FullStep(canGrow, run[n - 1], run[n], who[n - 1], u);
      }
    }
  }

  lemma InitLimit(canGrow: bool, s: State)
    requires Init(s)
    ensures LimitInv(canGrow, s)
  {
  }

  lemma {:induction false} CountGrows(canGrow: bool, run: seq<State>, who: seq<Tid>, n: nat, n': nat)
    requires IsRun(canGrow, run, who) && n <= n' < |run|
    ensures run[n].count <= run[n'].count
  {
    hide Inv, Next;
    if n < n' {
      CountGrows(canGrow, run, who, n, n' - 1);
      RunInv(canGrow, run, who, n' - 1);
      StepPointers(canGrow, run[n' - 1], run[n'], who[n' - 1]);
    }
  }

  lemma NoOtherTable(canGrow: bool, s: State, x: nat)
    requires Inv(s) && GrowInv(canGrow, s) && (s.count == NUM_SUBMAPS || !canGrow) && x < |s.subs| && s.subs[x].Map?
    ensures x < s.count
  {
  }

  /** An insert that answers "map full" has its key absent from every table, then and in every later state. */
  lemma MapFullIsFinal(canGrow: bool, run: seq<State>, who: seq<Tid>, n: nat, n': nat, t: Tid)
    requires IsRun(canGrow, run, who) && n <= n' < |run|
    requires t in run[n].threads && run[n].threads[t].pc == Finished(MapFull)
    ensures Absent(run[n'], run[n].threads[t].op.key)
    ensures run[n'].count == run[n].count && (run[n].count == 16 || !canGrow)
  {
    hide Inv, Next, ClosedIn, IsRun, GrowInv;
    var s, s', k := run[n], run[n'], run[n].threads[t].op.key;
    RunLimit(canGrow, run, who, n);
    RunLimit(canGrow, run, who, n');
    RunInv(canGrow, run, who, n');
    CountGrows(canGrow, run, who, n, n');
    assert FullInv(canGrow, s, s.threads[t]);
    CountsAgree(canGrow, s, s');
    forall i: nat, c: nat
      ensures !InTable(s', i, c, k)
    {
      if InTable(s', i, c, k) {
        NoOtherTable(canGrow, s', i);
        assert ClosedIn(s, i, k);
        ClosedForever(canGrow, run, who, n, n', i, k);
        ClosedNotIn(s', i, c, k);
      }
    }
  }

  lemma CountsAgree(canGrow: bool, s: State, s': State)
    requires Inv(s') && GrowInv(canGrow, s) && GrowInv(canGrow, s') && s.count <= s'.count
    requires s.count == NUM_SUBMAPS || !canGrow
    ensures s'.count == s.count
  {
  }

  lemma ClosedNotIn(s: State, i: nat, c: nat, k: Key)
    requires Inv(s) && ClosedIn(s, i, k)
    ensures !InTable(s, i, c, k)
  {
    A.ClosedIsAbsent(s.subs[i].cfg, Sub(s, i), k);
  }

  // -------------------------------------------------------------------- erased, found, existing and thrown

  ghost predicate TakesOut(s: State, s': State, i: nat, c: nat, k: Key) {
    InTable(s, i, c, k) && !InTable(s', i, c, k)
  }

  /** The cell holds the key, with a value. */
  ghost predicate Holding(s: State, i: nat, c: nat, k: Key) {
    InTable(s, i, c, k) && c < |s.subs[i].sh.vals| && s.subs[i].sh.vals[c].Some?
  }

  ghost predicate GivesBack(s: State, s': State, i: nat, c: nat) {
    i < |s.subs| == |s'.subs| && s.subs[i].Map? && s'.subs[i].Map? && A.GivesBack(s.subs[i].sh, s'.subs[i].sh, c)
  }

  predicate HasTaken(th: Thread) {
    th.pc == Finished(ErasedOne) || (th.pc.InSub? && A.HasTaken(th.pc.l))
  }

  predicate HasThrown(th: Thread) {
    th.pc == Finished(Threw) || (th.pc.InSub? && A.HasThrown(th.pc.l))
  }

  /** The call has met its key in cell `c` of table `i`. */
  predicate HasSeen(th: Thread, i: nat, c: nat) {
    || th.pc == Finished(Found(i, c)) || th.pc == Finished(Exists(i, c))
    || (Inside(th, i) && th.pc.l.Done? && (th.pc.l.result == A.Found(c) || th.pc.l.result == A.Exists(c)))
  }

  lemma OthersStand(canGrow: bool, s: State, s': State, u: Tid, t: Tid)
    requires Next(canGrow, s, s', u) && u != t && t in s.threads
    ensures t in s'.threads && s'.threads[t] == s.threads[t]
  {
    hide OwnStep, SubStep;
  }

  /** One step of a call inside a table is a step of that table. */
  lemma InsideMoves(canGrow: bool, s: State, s': State, t: Tid)
    requires Next(canGrow, s, s', t) && t in s.threads && s.threads[t].pc.InSub? && !s.threads[t].pc.l.Done?
    ensures var pc := s.threads[t].pc;
            && t in s'.threads && s'.threads[t].op == s.threads[t].op && Inside(s'.threads[t], pc.i)
            && pc.i < |s.subs| == |s'.subs| && s.subs[pc.i].Map? && s'.subs[pc.i].Map?
            && A.ThreadStep(s.subs[pc.i].cfg, s.subs[pc.i].sh, pc.l, s'.subs[pc.i].sh, s'.threads[t].pc.l)
            && A.Next(s.subs[pc.i].cfg, Sub(s, pc.i), Sub(s', pc.i), t)
            && t in Sub(s, pc.i).threads && Sub(s, pc.i).threads[t] == pc.l
            && t in Sub(s', pc.i).threads && Sub(s', pc.i).threads[t] == s'.threads[t].pc.l
  {
    hide A.ThreadStep;
    var i := s.threads[t].pc.i;
    assert Proj(s'.threads, i) == Proj(s.threads, i)[t := s'.threads[t].pc.l];
  }

  lemma InsideStep(canGrow: bool, s: State, s': State, t: Tid)
    requires Inv(s) && Next(canGrow, s, s', t) && t in s.threads && s.threads[t].pc.InSub? && !s.threads[t].pc.l.Done?
    ensures var pc := s.threads[t].pc;
            && t in s'.threads && Inside(s'.threads[t], pc.i)
            && pc.i < |s.subs| == |s'.subs| && s.subs[pc.i].Map? && s'.subs[pc.i].Map?
            && A.ThreadStep(s.subs[pc.i].cfg, s.subs[pc.i].sh, pc.l, s'.subs[pc.i].sh, s'.threads[t].pc.l)
            && A.Inv(s.subs[pc.i].cfg, Sub(s, pc.i)) && A.LocalInv(s.subs[pc.i].cfg, Sub(s, pc.i), pc.l)
            && A.Next(s.subs[pc.i].cfg, Sub(s, pc.i), Sub(s', pc.i), t)
            && t in Sub(s, pc.i).threads && Sub(s, pc.i).threads[t] == pc.l
            && t in Sub(s', pc.i).threads && Sub(s', pc.i).threads[t] == s'.threads[t].pc.l
            && pc.l.key == s.threads[t].op.key
  {
    hide A.ThreadStep, A.Inv, A.LocalInv, A.Next, Next, CrossInv, ClosedBelow, Sub;
    var pc := s.threads[t].pc;
    InsideMoves(canGrow, s, s', t);
    assert ThreadInv(s, s.threads[t]);
    assert A.Inv(s.subs[pc.i].cfg, Sub(s, pc.i));
    A.InvLocal(s.subs[pc.i].cfg, Sub(s, pc.i), t);
  }

  /** An insert answers "allocation failed" only from the store of a new table, whose pointer stays locked. */
  lemma AllocFailedAtCreate(canGrow: bool, s: State, s': State, t: Tid)
    requires Inv(s) && Next(canGrow, s, s', t) && t in s.threads && !s.threads[t].pc.Finished? && t in s'.threads
    requires s'.threads[t].pc == Finished(AllocFailed)
    ensures s.threads[t].pc.Create? && s.threads[t].op.Insert?
    ensures s.threads[t].pc.m == s'.count < |s'.subs| && s'.subs[s'.count].LockedPtr?
  {
    hide A.ThreadStep, A.Inv, CrossInv, ClosedBelow;
    assert ThreadInv(s, s.threads[t]);
  }

  lemma TakenByMover(canGrow: bool, s: State, s': State, t: Tid) returns (i: nat, c: nat)
    requires Inv(s) && Next(canGrow, s, s', t) && t in s.threads && !s.threads[t].pc.Finished? && t in s'.threads
    requires HasTaken(s'.threads[t]) && !HasTaken(s.threads[t])
    ensures TakesOut(s, s', i, c, s.threads[t].op.key)
  {
    hide Inv, A.ThreadStep, A.Inv, A.LocalInv, A.Next;
    var pc := s.threads[t].pc;
    assert pc.InSub? && !pc.l.Done?;
    InsideStep(canGrow, s, s', t);
    i := pc.i;
    c := A.ThreadTakes(s.subs[i].cfg, s.subs[i].sh, pc.l, s'.subs[i].sh, s'.threads[t].pc.l);
  }

  lemma ThrownByMover(canGrow: bool, s: State, s': State, t: Tid) returns (i: nat, c: nat)
    requires Inv(s) && Next(canGrow, s, s', t) && t in s.threads && !s.threads[t].pc.Finished? && t in s'.threads
    requires HasThrown(s'.threads[t]) && !HasThrown(s.threads[t])
    ensures GivesBack(s, s', i, c)
  {
    hide Inv, A.ThreadStep, A.Inv, A.LocalInv, A.Next;
    var pc := s.threads[t].pc;
    assert pc.InSub? && !pc.l.Done?;
    InsideStep(canGrow, s, s', t);
    i := pc.i;
    c := A.ThreadGivesBack(s.subs[i].cfg, Sub(s, i), pc.l, s'.subs[i].sh, s'.threads[t].pc.l);
  }

  lemma SeenByMover(canGrow: bool, s: State, s': State, t: Tid, i: nat, c: nat)
    requires Inv(s) && Next(canGrow, s, s', t) && t in s.threads && !s.threads[t].pc.Finished? && t in s'.threads
    requires HasSeen(s'.threads[t], i, c) && !HasSeen(s.threads[t], i, c)
    ensures Holding(s', i, c, s.threads[t].op.key)
  {
    hide Inv, A.ThreadStep, A.Inv, A.LocalInv, A.Next;
    var pc := s.threads[t].pc;
    assert pc.InSub? && pc.i == i && !pc.l.Done?;
    InsideStep(canGrow, s, s', t);
    A.AnswersAreTrue(s.subs[i].cfg, Sub(s, i), Sub(s', i), t);
    A.InvValid(s.subs[i].cfg, Sub(s, i));
    SubFollows(canGrow, s, s', t, i);
    A.InvValid(s'.subs[i].cfg, Sub(s', i));
  }

  lemma {:induction false} TakenInside(canGrow: bool, run: seq<State>, who: seq<Tid>, a: nat, b: nat, t: Tid, op: Op)
    returns (n: nat, i: nat, c: nat)
    requires IsRun(canGrow, run, who) && OneCall(run, a, b, t, op) && HasTaken(run[b].threads[t])
    ensures a <= n < b && who[n] == t && TakesOut(run[n], run[n + 1], i, c, op.key)
  {
    hide Next, Init, Inv, TakesOut;
    n, i, c := b - 1, 0, 0;
    RunInv(canGrow, run, who, n);
    OneCallCarries(canGrow, run, who, a, n, t, op);
    if who[n] != t {
      OthersStand(canGrow, run[n], run[b], who[n], t);
    }
    if HasTaken(run[n].threads[t]) {
      n, i, c := TakenInside(canGrow, run, who, a, n, t, op);
    } else {
      i, c := TakenByMover(canGrow, run[n], run[b], t);
    }
  }

  /** Every erase that answers "one" took its key out of a cell that held it at one of its own steps between its call
      and its answer. */
  lemma ErasedWasTaken(canGrow: bool, run: seq<State>, who: seq<Tid>, a: nat, b: nat, t: Tid, op: Op)
    returns (n: nat, i: nat, c: nat)
    requires IsRun(canGrow, run, who) && OneCall(run, a, b, t, op) && run[b].threads[t].pc == Finished(ErasedOne)
    ensures a <= n < b && who[n] == t
    ensures InTable(run[n], i, c, op.key) && !InTable(run[n + 1], i, c, op.key)
  {
    hide IsRun, InTable;
    n, i, c := TakenInside(canGrow, run, who, a, b, t, op);
  }

  lemma {:induction false} SeenInside(canGrow: bool, run: seq<State>, who: seq<Tid>, a: nat, b: nat, t: Tid, op: Op,
                                      i: nat, c: nat) returns (n: nat)
    requires IsRun(canGrow, run, who) && OneCall(run, a, b, t, op) && HasSeen(run[b].threads[t], i, c)
    ensures a <= n <= b && Holding(run[n], i, c, op.key)
  {
    hide Next, Init, Inv, Holding;
    n := b - 1;
    RunInv(canGrow, run, who, n);
    OneCallCarries(canGrow, run, who, a, n, t, op);
    if who[n] != t {
      OthersStand(canGrow, run[n], run[b], who[n], t);
    }
    if HasSeen(run[n].threads[t], i, c) {
      n := SeenInside(canGrow, run, who, a, n, t, op, i, c);
    } else {
      SeenByMover(canGrow, run[n], run[b], t, i, c);
      n := b;
    }
  }

  /** Every find that answers "found" and every insert that answers "exists" has an instant inside the call at which
      the cell it names held its key, with its value constructed. */
  lemma FoundWasThere(canGrow: bool, run: seq<State>, who: seq<Tid>, a: nat, b: nat, t: Tid, op: Op) returns (n: nat)
    requires IsRun(canGrow, run, who) && OneCall(run, a, b, t, op) && run[b].threads[t].pc.Finished?
    requires run[b].threads[t].pc.result.Found? || run[b].threads[t].pc.result.Exists?
    ensures a <= n <= b
    ensures var r := run[b].threads[t].pc.result;
            && InTable(run[n], r.i, r.j, op.key)
            && r.j < |run[n].subs[r.i].sh.vals| && run[n].subs[r.i].sh.vals[r.j].Some?
  {
    hide IsRun, InTable;
    n := SeenInside(canGrow, run, who, a, b, t, op, run[b].threads[t].pc.result.i, run[b].threads[t].pc.result.j);
  }

  /** Every insert that answers "threw" set a cell it had locked back to empty at one of its own steps between its call
      and its answer. */
  lemma {:induction false} ThrewWasUndone(canGrow: bool, run: seq<State>, who: seq<Tid>, a: nat, b: nat, t: Tid, op: Op)
    returns (n: nat, i: nat, c: nat)
    requires IsRun(canGrow, run, who) && OneCall(run, a, b, t, op) && HasThrown(run[b].threads[t])
    ensures a <= n < b && who[n] == t && GivesBack(run[n], run[n + 1], i, c)
  {
    hide Next, Init, Inv, GivesBack;
    n, i, c := b - 1, 0, 0;
    RunInv(canGrow, run, who, n);
    if who[n] != t {
      OthersStand(canGrow, run[n], run[b], who[n], t);
    }
    if HasThrown(run[n].threads[t]) {
      n, i, c := ThrewWasUndone(canGrow, run, who, a, n, t, op);
    } else {
      i, c := ThrownByMover(canGrow, run[n], run[b], t);
    }
  }

  /** The answers an operation can give. */
  predicate FitsOp(op: Op, r: Result) {
    match op
    case Insert(_, _) => r.Inserted? || r.Exists? || r.Threw? || r.MapFull? || r.AllocFailed?
    case Find(_) => r.Found? || r.NotFound?
    case Erase(_) => r.ErasedOne? || r.ErasedNone?
  }

  lemma FitsStep(canGrow: bool, s: State, s': State, u: Tid, t: Tid)
    requires Inv(s) && Next(canGrow, s, s', u) && t in s'.threads
    requires t in s.threads && s.threads[t].pc.Finished? ==> FitsOp(s.threads[t].op, s.threads[t].pc.result)
    ensures s'.threads[t].pc.Finished? ==> FitsOp(s'.threads[t].op, s'.threads[t].pc.result)
  {
    hide A.Inv, A.ThreadStep, CrossInv, ClosedBelow;
    if u == t && t in s.threads {
      assert ThreadInv(s, s.threads[t]);
    }
  }

  /** In every run an operation gives only answers of its own kind. */
  lemma {:induction false} AnswersFit(canGrow: bool, run: seq<State>, who: seq<Tid>, n: nat, t: Tid)
    requires IsRun(canGrow, run, who) && n < |run| && t in run[n].threads && run[n].threads[t].pc.Finished?
    ensures FitsOp(run[n].threads[t].op, run[n].threads[t].pc.result)
  {
    hide Next, Inv, FitsOp;
    if n > 0 {
      RunInv(canGrow, run, who, n - 1);
      if t in run[n - 1].threads && run[n - 1].threads[t].pc.Finished? {
        AnswersFit(canGrow, run, who, n - 1, t);
      }
      FitsStep(canGrow, run[n - 1], run[n], who[n - 1], t);
    }
  }
}
