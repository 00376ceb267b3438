/**
 AtomicHashArray: a fixed-capacity, lock-free, open-addressing hash table.

 The table is a labelled step relation.  Shared memory is a `Shared` value, every call in
 flight is a `Local` value (its program counter and local variables), and one step performs
 one atomic load, store, compare-and-swap or counter operation of one thread.  Any number of
 threads interleave.
 */
module HashArray {
  import opened Common

  type Key = int
  type Val = int
  type Tid = nat

  // -------------------------------------------------------------------- probing

  datatype Config = Config(capacity: nat, hash: Key -> nat, quadratic: bool) {
    ghost predicate Valid() {
      capacity > 0
    }
  }

  function NextPowTwo(n: nat): (p: nat)
    ensures n <= p && p > 0
  {
    PowTwoFrom(1, n)
  }

  function PowTwoFrom(p: nat, n: nat): (r: nat)
    requires p > 0
    ensures n <= r && r > 0
    decreases n - p
  {
    if n <= p then p else PowTwoFrom(2 * p, n)
  }

  function Pow2(e: nat): (p: nat)
    ensures p > 0
  {
    if e == 0 then 1 else 2 * Pow2(e - 1)
  }

  lemma {:induction false} Pow2Grows(a: nat, b: nat)
    requires a < b
    ensures 2 * Pow2(a) <= Pow2(b)
  {
    if a + 1 < b {
      Pow2Grows(a, b - 1);
    }
  }

  lemma {:induction false} PowTwoFromIs(e: nat, n: nat) returns (f: nat)
    requires e > 0 ==> Pow2(e - 1) < n
    ensures PowTwoFrom(Pow2(e), n) == Pow2(f) && (f > 0 ==> Pow2(f - 1) < n)
    decreases n - Pow2(e)
  {
    f := e;
    if Pow2(e) < n {
      f := PowTwoFromIs(e + 1, n);
    }
  }

  /** The mask covers the capacity with a power of two, and with no larger one than needed. */
  lemma NextPowTwoIsLeast(n: nat) returns (f: nat)
    ensures NextPowTwo(n) == Pow2(f) >= n
    ensures forall e: nat | Pow2(e) >= n :: Pow2(e) >= NextPowTwo(n)
  {
    f := PowTwoFromIs(0, n);
    forall e: nat | Pow2(e) >= n
      ensures Pow2(e) >= Pow2(f)
    {
      if e < f {
        if e < f - 1 {
          Pow2Grows(e, f - 1);
        }
      } else if f < e {
        Pow2Grows(f, e);
      }
    }
  }

  /** keyToAnchorIdx: masking with 2^m - 1 keeps the remainder modulo 2^m. */
  function Anchor(cfg: Config, k: Key): (idx: nat)
    requires cfg.Valid()
    ensures idx < cfg.capacity
  {
    var probe := cfg.hash(k) % NextPowTwo(cfg.capacity);
    if probe < cfg.capacity then probe else cfg.hash(k) % cfg.capacity
  }

  /** The anchor of a hash that leaves `r` modulo the mask's power of two, and `r'` modulo the capacity: the first where
      it is a cell, else the second. */
  lemma AnchorIs(cfg: Config, k: Key, f: nat, q: nat, r: nat, q': nat, r': nat)
    requires cfg.Valid() && NextPowTwo(cfg.capacity) == Pow2(f)
    requires cfg.hash(k) == r + q * Pow2(f) == r' + q' * cfg.capacity && r < Pow2(f) && r' < cfg.capacity
    ensures Anchor(cfg, k) == if r < cfg.capacity then r else r'
  {
    hide NextPowTwo, Pow2;
    RemainderBySubtraction(cfg.hash(k), r, q, Pow2(f));
    RemainderBySubtraction(cfg.hash(k), r', q', cfg.capacity);
  }

  /** The two probe functors. */
  function ProbeNext(cfg: Config, idx: nat, numProbes: nat): (r: nat)
    requires idx < cfg.capacity && numProbes < cfg.capacity
    ensures r < cfg.capacity
  {
    var next := if cfg.quadratic then idx + numProbes else idx + 1;
    if next < cfg.capacity then next else next - cfg.capacity
  }

  /** The cell inspected after `j` failed probes for key `k`. */
  function PathAt(cfg: Config, k: Key, j: nat): (idx: nat)
    requires cfg.Valid() && j < cfg.capacity
    ensures idx < cfg.capacity
  {
    if j == 0 then Anchor(cfg, k) else ProbeNext(cfg, PathAt(cfg, k, j - 1), j)
  }

  /** How far the path has moved after `j` failed probes. */
  function Offset(cfg: Config, j: nat): (d: nat) {
    if j == 0 then 0 else Offset(cfg, j - 1) + (if cfg.quadratic then j else 1)
  }

  lemma {:induction false} OffsetIs(cfg: Config, j: nat)
    ensures 2 * Offset(cfg, j) == if cfg.quadratic then j * (j + 1) else 2 * j
  {
    if j > 0 {
      OffsetIs(cfg, j - 1);
      assert j * (j + 1) == (j - 1) * j + 2 * j;
    }
  }

  function Wrap(x: nat, n: nat): (r: nat)
    requires n > 0
    ensures r < n
  {
    x % n
  }

  lemma ProbeOfSum(cfg: Config, x: nat, j: nat)
    requires cfg.Valid() && j < cfg.capacity
    ensures ProbeNext(cfg, Wrap(x, cfg.capacity), j) == Wrap(x + if cfg.quadratic then j else 1, cfg.capacity)
  {
    RemainderOfSum(x, if cfg.quadratic then j else 1, cfg.capacity);
  }

  lemma AnchorWraps(cfg: Config, k: Key)
    requires cfg.Valid()
    ensures Anchor(cfg, k) == Wrap(Anchor(cfg, k), cfg.capacity)
  {
    hide Anchor;
    RemainderBySubtraction(Anchor(cfg, k), Anchor(cfg, k), 0, cfg.capacity);
  }

  lemma {:induction false} PathOffset(cfg: Config, k: Key, j: nat)
    requires cfg.Valid() && j < cfg.capacity
    ensures PathAt(cfg, k, j) == Wrap(Anchor(cfg, k) + Offset(cfg, j), cfg.capacity)
  {
    hide Anchor, ProbeNext, Wrap;
    if j == 0 {
      AnchorWraps(cfg, k);
    } else {
      PathOffset(cfg, k, j - 1);
      ProbeOfSum(cfg, Anchor(cfg, k) + Offset(cfg, j - 1), j);
    }
  }

  /** The functors probe at linear, or at triangular, distances from the anchor, modulo the capacity. */
  lemma PathIsProbeSequence(cfg: Config, k: Key, j: nat) returns (d: nat)
    requires cfg.Valid() && j < cfg.capacity
    ensures PathAt(cfg, k, j) == (Anchor(cfg, k) + d) % cfg.capacity
    ensures 2 * d == if cfg.quadratic then j * (j + 1) else 2 * j
  {
    d := Offset(cfg, j);
    OffsetIs(cfg, j);
    PathOffset(cfg, k, j);
  }

  /** Linear probing inspects every cell before it gives up. */
  lemma LinearPathCovers(cfg: Config, k: Key, c: nat) returns (j: nat)
    requires cfg.Valid() && !cfg.quadratic && c < cfg.capacity
    ensures j < cfg.capacity && PathAt(cfg, k, j) == c
  {
    hide Anchor, PathAt;
    var a, n := Anchor(cfg, k), cfg.capacity;
    j := if a <= c then c - a else n - a + c;
    OffsetIs(cfg, j);
    PathOffset(cfg, k, j);
    if a <= c {
      RemainderBySubtraction(a + j, c, 0, n);
    } else {
      RemainderBySubtraction(a + j, c, 1, n);
    }
  }

  // -------------------------------------------------------------------- state

  datatype Cell = Empty | Locked | Live(key: Key) | Erased

  datatype Shared = Shared(cells: seq<Cell>, vals: seq<Option<Val>>, isFull: int,
                           pending: int, entries: int, erases: int)

  const NO_NEW_INSERTS := 1
  const NO_PENDING_INSERTS := 2

  datatype Result = Inserted(idx: nat) | Exists(idx: nat) | Full | Threw
                  | Found(idx: nat) | NotFound | ErasedOne | ErasedNone

  datatype InsertPc =
    | Probe         // load the cell's key, compare with the empty key
    | Enter         // ++numPendingEntries_
    | CheckFull     // load isFull_
    | LeaveFull     // --numPendingEntries_ on the full path
    | SpinFull      // spin: load isFull_
    | SpinPending   // spin: numPendingEntries_.readFull()
    | Freeze        // isFull_.store(NO_PENDING_INSERTS)
    | Recheck       // load the cell's key again
    | TryLock       // CAS the cell from empty to locked
    | LeaveLost     // --numPendingEntries_ after losing the CAS
    | Construct     // construct the value in the locked cell
    | Publish       // store the key
    | Rollback      // store the empty key after a throwing constructor
    | LeaveThrow    // --numPendingEntries_ before rethrowing
    | LeaveDone     // --numPendingEntries_ after publishing
    | CountEntry    // ++numEntries_
    | MaybeFull     // perhaps isFull_.store(NO_NEW_INSERTS)
    | AwaitUnlock   // spin while the cell is locked
    | Compare       // load the key and compare with ours

  datatype ErasePc = Look | Swap | CountErase

  datatype Local =
    | Insert(key: Key, val: Val, j: nat, ipc: InsertPc)
    | Find(key: Key, j: nat)
    | Erase(key: Key, j: nat, epc: ErasePc)
    | Done(key: Key, result: Result)

  datatype State = State(sh: Shared, threads: map<Tid, Local>)

  predicate Shape(cfg: Config, sh: Shared) {
    |sh.cells| == cfg.capacity && |sh.vals| == cfg.capacity
  }

  predicate InRange(cfg: Config, l: Local) {
    l.Done? || l.j < cfg.capacity
  }

  function Idx(cfg: Config, l: Local): (c: nat)
    requires cfg.Valid() && !l.Done? && l.j < cfg.capacity
    ensures c < cfg.capacity
  {
    PathAt(cfg, l.key, l.j)
  }

  // -------------------------------------------------------------------- steps

  /** Advance to the next probe, or give up with `r` once every probe has been used. */
  function Advance(cfg: Config, l: Local, r: Result): (l': Local)
    requires !l.Done?
  {
    if l.j + 1 >= cfg.capacity then Done(l.key, r)
    else match l
      case Insert(k, v, j, _) => Insert(k, v, j + 1, Probe)
      case Find(k, j) => Find(k, j + 1)
      case Erase(k, j, _) => Erase(k, j + 1, Look)
  }

  ghost predicate InsertStep(cfg: Config, sh: Shared, l: Local, sh': Shared, l': Local)
    requires cfg.Valid() && Shape(cfg, sh) && l.Insert? && InRange(cfg, l)
  {
    var c := Idx(cfg, l);
    var cell := sh.cells[c];
    match l.ipc
    case Probe => sh' == sh && l' == l.(ipc := if cell.Empty? then Enter else AwaitUnlock)
    case Enter => sh' == sh.(pending := sh.pending + 1) && l' == l.(ipc := CheckFull)
    case CheckFull => sh' == sh && l' == l.(ipc := if sh.isFull != 0 then LeaveFull else TryLock)
    case LeaveFull => sh' == sh.(pending := sh.pending - 1) && l' == l.(ipc := SpinFull)
    case SpinFull =>
      sh' == sh && l' == l.(ipc := if sh.isFull == NO_PENDING_INSERTS then Freeze else SpinPending)
    case SpinPending => sh' == sh && l' == l.(ipc := if sh.pending == 0 then Freeze else SpinFull)
    case Freeze => sh' == sh.(isFull := NO_PENDING_INSERTS) && l' == l.(ipc := Recheck)
    case Recheck => sh' == sh && l' == if cell.Empty? then Done(l.key, Full) else l.(ipc := AwaitUnlock)
    case TryLock =>
      if cell.Empty?
      then sh' == sh.(cells := sh.cells[c := Locked]) && l' == l.(ipc := Construct)
      else sh' == sh && l' == l.(ipc := LeaveLost)
    case LeaveLost => sh' == sh.(pending := sh.pending - 1) && l' == l.(ipc := AwaitUnlock)
    case Construct =>   // the constructor may throw
      || (sh' == sh && l' == l.(ipc := Rollback))
      || (sh' == sh.(vals := sh.vals[c := Some(l.val)]) && l' == l.(ipc := Publish))
    case Publish => sh' == sh.(cells := sh.cells[c := Live(l.key)]) && l' == l.(ipc := LeaveDone)
    case Rollback => sh' == sh.(cells := sh.cells[c := Empty]) && l' == l.(ipc := LeaveThrow)
    case LeaveThrow => sh' == sh.(pending := sh.pending - 1) && l' == Done(l.key, Threw)
    case LeaveDone => sh' == sh.(pending := sh.pending - 1) && l' == l.(ipc := CountEntry)
    case CountEntry => sh' == sh.(entries := sh.entries + 1) && l' == l.(ipc := MaybeFull)
    case MaybeFull =>   // the cached count readFast() may or may not have reached maxEntries_
      (sh' == sh || sh' == sh.(isFull := NO_NEW_INSERTS)) && l' == Done(l.key, Inserted(c))
    case AwaitUnlock => sh' == sh && l' == if cell.Locked? then l else l.(ipc := Compare)
    case Compare =>
      sh' == sh && l' == (if cell == Live(l.key) then Done(l.key, Exists(c))
                          else if cell.Empty? || cell.Locked? then l.(ipc := Probe)
                          else Advance(cfg, l, Full))
  }

  ghost predicate FindStep(cfg: Config, sh: Shared, l: Local, sh': Shared, l': Local)
    requires cfg.Valid() && Shape(cfg, sh) && l.Find? && InRange(cfg, l)
  {
    var c := Idx(cfg, l);
    && sh' == sh
    && l' == (if sh.cells[c] == Live(l.key) then Done(l.key, Found(c))
              else if sh.cells[c].Empty? then Done(l.key, NotFound)
              else Advance(cfg, l, NotFound))
  }

  ghost predicate EraseStep(cfg: Config, sh: Shared, l: Local, sh': Shared, l': Local)
    requires cfg.Valid() && Shape(cfg, sh) && l.Erase? && InRange(cfg, l)
  {
    var c := Idx(cfg, l);
    var cell := sh.cells[c];
    match l.epc
    case Look =>
      sh' == sh && l' == (if cell.Empty? || cell.Locked? then Done(l.key, ErasedNone)
                          else if cell == Live(l.key) then l.(epc := Swap)
                          else Advance(cfg, l, ErasedNone))
    case Swap =>
      if cell == Live(l.key)
      then sh' == sh.(cells := sh.cells[c := Erased]) && l' == l.(epc := CountErase)
      else sh' == sh && l' == Done(l.key, ErasedNone)
    case CountErase => sh' == sh.(erases := sh.erases + 1) && l' == Done(l.key, ErasedOne)
  }

  ghost predicate ThreadStep(cfg: Config, sh: Shared, l: Local, sh': Shared, l': Local) {
    && cfg.Valid() && Shape(cfg, sh) && !l.Done? && InRange(cfg, l)
    && match l
       case Insert(_, _, _, _) => InsertStep(cfg, sh, l, sh', l')
       case Find(_, _) => FindStep(cfg, sh, l, sh', l')
       case Erase(_, _, _) => EraseStep(cfg, sh, l, sh', l')
  }

  predicate IsStart(l: Local) {
    match l
    case Insert(_, _, j, pc) => j == 0 && pc == Probe
    case Find(_, j) => j == 0
    case Erase(_, j, pc) => j == 0 && pc == Look
    case Done(_, _) => false
  }

  /** One step of thread `t`: it starts a call, works on it, or returns from it. */
  ghost predicate Next(cfg: Config, s: State, s': State, t: Tid) {
    if t !in s.threads then
      && s'.sh == s.sh
      && t in s'.threads && IsStart(s'.threads[t]) && s'.threads == s.threads[t := s'.threads[t]]
    else if s.threads[t].Done? then
      s'.sh == s.sh && s'.threads == s.threads - {t}
    else
      && t in s'.threads && s'.threads == s.threads[t := s'.threads[t]]
      && ThreadStep(cfg, s.sh, s.threads[t], s'.sh, s'.threads[t])
  }

  function Fresh(cfg: Config): (sh: Shared) {
    Shared(seq(cfg.capacity, _ => Empty), seq(cfg.capacity, _ => None), 0, 0, 0, 0)
  }

  ghost predicate Init(cfg: Config, s: State) {
    cfg.Valid() && s == State(Fresh(cfg), map[])
  }

  // -------------------------------------------------------------------- invariant

  /** A cell that can never again come to hold `k`. */
  predicate Settled(cell: Cell, k: Key) {
    cell.Erased? || (cell.Live? && cell.key != k)
  }

  ghost predicate PathSettled(cfg: Config, sh: Shared, k: Key, j: nat)
    requires cfg.Valid() && Shape(cfg, sh)
  {
    j <= cfg.capacity && forall i: nat | i < j :: Settled(sh.cells[PathAt(cfg, k, i)], k)
  }

  predicate InWindow(l: Local) {
    && l.Insert?
    && (|| l.ipc.CheckFull? || l.ipc.LeaveFull? || l.ipc.TryLock? || l.ipc.LeaveLost? || l.ipc.Construct?
        || l.ipc.Publish? || l.ipc.Rollback? || l.ipc.LeaveThrow? || l.ipc.LeaveDone?)
  }

  /** Threads that read `isFull_ == 0` and may still change a cell. */
  predicate Active(l: Local) {
    && l.Insert?
    && (l.ipc.TryLock? || l.ipc.Construct? || l.ipc.Publish? || l.ipc.Rollback?)
  }

  predicate Holds(l: Local) {
    && l.Insert?
    && (l.ipc.Construct? || l.ipc.Publish? || l.ipc.Rollback?)
  }

  predicate KnowsFull(l: Local) {
    && l.Insert?
    && (|| l.ipc.LeaveFull? || l.ipc.SpinFull? || l.ipc.SpinPending?
        || l.ipc.Freeze? || l.ipc.Recheck?)
  }

  predicate Uncounted(l: Local) {
    && l.Insert?
    && (l.ipc.LeaveDone? || l.ipc.CountEntry?)
  }

  predicate UncountedErase(l: Local) {
    l.Erase? && l.epc == CountErase
  }

  ghost function ThreadsWhere(threads: map<Tid, Local>, p: Local -> bool): set<Tid> {
    set t | t in threads && p(threads[t])
  }

  ghost function CellsWhere(cells: seq<Cell>, p: Cell -> bool): set<nat> {
    set c: nat | c < |cells| && p(cells[c])
  }

  predicate Used(cell: Cell) {
    cell.Live? || cell.Erased?
  }

  predicate IsErased(cell: Cell) {
    cell.Erased?
  }

  /** The table is frozen: inserting is over and nobody can still change a cell to a key. */
  ghost predicate Quiet(s: State) {
    s.sh.isFull != 0 && forall t | t in s.threads :: !Active(s.threads[t])
  }

  /** `k` is absent and no insert can ever add it to this table again. */
  ghost predicate Closed(cfg: Config, s: State, k: Key)
    requires cfg.Valid() && Shape(cfg, s.sh)
  {
    exists j: nat :: ClosedAt(cfg, s, k, j)
  }

  ghost predicate ClosedAt(cfg: Config, s: State, k: Key, j: nat)
    requires cfg.Valid() && Shape(cfg, s.sh)
  {
    && PathSettled(cfg, s.sh, k, j)
    && (j < cfg.capacity ==> Quiet(s) && s.sh.cells[PathAt(cfg, k, j)].Empty?)
  }

  ghost predicate LocalInv(cfg: Config, s: State, l: Local)
    requires cfg.Valid() && Shape(cfg, s.sh)
  {
    && InRange(cfg, l)
    && (l.Done? && l.result.Full? ==> Closed(cfg, s, l.key))
    && (l.Insert? ==>
          && PathSettled(cfg, s.sh, l.key, l.j)
          && (KnowsFull(l) ==> s.sh.isFull != 0)
          && (l.ipc.Freeze? || l.ipc.Recheck? ==> Quiet(s))
          && (Holds(l) ==> s.sh.cells[Idx(cfg, l)].Locked?)
          && (l.ipc == Publish ==> s.sh.vals[Idx(cfg, l)] == Some(l.val)))
  }

  ghost predicate OnPath(cfg: Config, sh: Shared, k: Key, c: nat)
    requires cfg.Valid() && Shape(cfg, sh)
  {
    exists f: nat | f < cfg.capacity :: PathAt(cfg, k, f) == c && PathSettled(cfg, sh, k, f)
  }

  ghost predicate CellInv(cfg: Config, s: State)
    requires cfg.Valid() && Shape(cfg, s.sh)
  {
    forall c: nat | c < cfg.capacity ::
      s.sh.cells[c].Live? ==> OnPath(cfg, s.sh, s.sh.cells[c].key, c) && s.sh.vals[c].Some?
  }

  predicate OwnsCell(cfg: Config, l: Local, c: nat)
    requires cfg.Valid()
  {
    Holds(l) && l.j < cfg.capacity && Idx(cfg, l) == c
  }

  ghost predicate OwnerInv(cfg: Config, s: State)
    requires cfg.Valid() && Shape(cfg, s.sh)
  {
    && (forall t, u, c: nat | t in s.threads && u in s.threads
                              && OwnsCell(cfg, s.threads[t], c) && OwnsCell(cfg, s.threads[u], c) ::
          t == u)
    && (forall c: nat | c < cfg.capacity && s.sh.cells[c].Locked? ::
          exists t :: t in s.threads && OwnsCell(cfg, s.threads[t], c))
  }

  ghost predicate CountInv(s: State) {
    && s.sh.pending == |ThreadsWhere(s.threads, InWindow)|
    && s.sh.entries + |ThreadsWhere(s.threads, Uncounted)| == |CellsWhere(s.sh.cells, Used)|
    && s.sh.erases + |ThreadsWhere(s.threads, UncountedErase)|
       == |CellsWhere(s.sh.cells, IsErased)|
  }

  ghost predicate Inv(cfg: Config, s: State) {
    && cfg.Valid() && Shape(cfg, s.sh)
    && (forall t | t in s.threads :: LocalInv(cfg, s, s.threads[t]))
    && CellInv(cfg, s)
    && OwnerInv(cfg, s)
    && CountInv(s)
    && 0 <= s.sh.isFull <= 2
    && (s.sh.isFull == NO_PENDING_INSERTS ==> Quiet(s))
  }

  // -------------------------------------------------------------------- the invariant holds

  lemma InitInv(cfg: Config, s: State)
    requires Init(cfg, s)
    ensures Inv(cfg, s)
  {
    assert ThreadsWhere(s.threads, InWindow) == {};
    assert ThreadsWhere(s.threads, Uncounted) == {};
    assert ThreadsWhere(s.threads, UncountedErase) == {};
    assert CellsWhere(s.sh.cells, Used) == {};
    assert CellsWhere(s.sh.cells, IsErased) == {};
  }

  /** What a cell may do in one step. */
  predicate CellMove(a: Cell, b: Cell) {
    || a == b
    || (a.Empty? && b.Locked?)
    || (a.Locked? && (b.Empty? || b.Live?))
    || (a.Live? && b.Erased?)
  }

  /** A step changes at most the cell its thread is looking at, by a legal move. */
  lemma ThreadMovesCell(cfg: Config, s: State, s': State, t: Tid)
    requires Inv(cfg, s) && Next(cfg, s, s', t)
    requires t in s.threads && !s.threads[t].Done?
    ensures Shape(cfg, s'.sh)
    ensures var c := Idx(cfg, s.threads[t]);
            && CellMove(s.sh.cells[c], s'.sh.cells[c])
            && s'.sh.cells == s.sh.cells[c := s'.sh.cells[c]]
            && s'.sh.vals == s.sh.vals[c := s'.sh.vals[c]]
            && (!s.sh.cells[c].Locked? ==> s'.sh.vals[c] == s.sh.vals[c])
    ensures s.sh.isFull != 0 ==> s'.sh.isFull != 0
  {
    hide PathAt;
    assert LocalInv(cfg, s, s.threads[t]);
  }

  lemma StepMovesCells(cfg: Config, s: State, s': State, t: Tid)
    requires Inv(cfg, s) && Next(cfg, s, s', t)
    ensures Shape(cfg, s'.sh)
    ensures forall c: nat | c < cfg.capacity :: CellMove(s.sh.cells[c], s'.sh.cells[c])
    ensures forall c: nat | c < cfg.capacity && !s.sh.cells[c].Locked? :: s'.sh.vals[c] == s.sh.vals[c]
    ensures s.sh.isFull != 0 ==> s'.sh.isFull != 0
  {
    if t in s.threads && !s.threads[t].Done? {
      ThreadMovesCell(cfg, s, s', t);
    }
  }

  lemma PathStaysSettled(cfg: Config, s: State, s': State, t: Tid, k: Key, j: nat)
    requires Inv(cfg, s) && Next(cfg, s, s', t) && PathSettled(cfg, s.sh, k, j)
    ensures Shape(cfg, s'.sh) && PathSettled(cfg, s'.sh, k, j)
  {
    StepMovesCells(cfg, s, s', t);
  }

  lemma QuietStays(cfg: Config, s: State, s': State, t: Tid)
    requires Inv(cfg, s) && Next(cfg, s, s', t) && Quiet(s)
    ensures Quiet(s')
  {
    hide PathAt;
    StepMovesCells(cfg, s, s', t);
  }

  lemma QuietKeepsEmpty(cfg: Config, s: State, s': State, t: Tid, c: nat)
    requires Inv(cfg, s) && Next(cfg, s, s', t) && Quiet(s)
    requires c < cfg.capacity
    ensures Shape(cfg, s'.sh) && s'.sh.cells[c].Empty? == s.sh.cells[c].Empty?
  {
    StepMovesCells(cfg, s, s', t);
    if t in s.threads && !s.threads[t].Done? {
      ThreadMovesCell(cfg, s, s', t);
      assert !Active(s.threads[t]);
    }
  }

  /** A closed key stays closed. */
  lemma ClosedStays(cfg: Config, s: State, s': State, t: Tid, k: Key)
    requires Inv(cfg, s) && Next(cfg, s, s', t) && Closed(cfg, s, k)
    ensures Shape(cfg, s'.sh) && Closed(cfg, s', k)
  {
    var j: nat :| ClosedAt(cfg, s, k, j);
    PathStaysSettled(cfg, s, s', t, k, j);
    if j < cfg.capacity {
      QuietStays(cfg, s, s', t);
      QuietKeepsEmpty(cfg, s, s', t, PathAt(cfg, k, j));
    }
    assert ClosedAt(cfg, s', k, j);
  }

  lemma StepLocalInv(cfg: Config, s: State, s': State, t: Tid)
    requires Inv(cfg, s) && Next(cfg, s, s', t)
    ensures Shape(cfg, s'.sh)
    ensures forall u | u in s'.threads :: LocalInv(cfg, s', s'.threads[u])
  {
    StepMovesCells(cfg, s, s', t);
    forall u | u in s'.threads
      ensures LocalInv(cfg, s', s'.threads[u])
    {
      if u == t {
        MoverLocalInv(cfg, s, s', t);
      } else {
        OtherLocalInv(cfg, s, s', t, u);
      }
    }
  }

  lemma PendingZeroIsQuiet(s: State)
    requires CountInv(s) && s.sh.pending == 0 && s.sh.isFull != 0
    ensures Quiet(s)
  {
    forall t | t in s.threads
      ensures !Active(s.threads[t])
    {
      assert t !in ThreadsWhere(s.threads, InWindow);
    }
  }

  lemma MoverLocalInv(cfg: Config, s: State, s': State, t: Tid)
    requires Inv(cfg, s) && Next(cfg, s, s', t) && t in s'.threads
    ensures Shape(cfg, s'.sh) && LocalInv(cfg, s', s'.threads[t])
  {
    StepMovesCells(cfg, s, s', t);
    if t in s.threads {
      MoverPath(cfg, s, s', t);
      MoverClosed(cfg, s, s', t);
      if s.threads[t].Insert? {
        MoverFull(cfg, s, s', t);
        assert LocalInv(cfg, s, s.threads[t]);
        MoverCell(cfg, s.sh, s.threads[t], s'.sh, s'.threads[t]);
      }
    }
  }

  lemma MoverPath(cfg: Config, s: State, s': State, t: Tid)
    requires Inv(cfg, s) && Next(cfg, s, s', t) && t in s.threads && t in s'.threads
    ensures Shape(cfg, s'.sh) && InRange(cfg, s'.threads[t])
    ensures s'.threads[t].Insert? ==>
              s.threads[t].Insert? && PathSettled(cfg, s'.sh, s'.threads[t].key, s'.threads[t].j)
  {
    var l := s.threads[t];
    assert LocalInv(cfg, s, l);
    if l.Insert? {
      PathStaysSettled(cfg, s, s', t, l.key, l.j);
    }
  }

  /** An insert that reports "full" has closed its key. */
  lemma MoverClosed(cfg: Config, s: State, s': State, t: Tid)
    requires Inv(cfg, s) && Next(cfg, s, s', t) && t in s.threads && t in s'.threads
    ensures Shape(cfg, s'.sh)
    ensures s'.threads[t].Done? && s'.threads[t].result.Full? ==> Closed(cfg, s', s'.threads[t].key)
  {
    var l, l' := s.threads[t], s'.threads[t];
    assert LocalInv(cfg, s, l);
    if l'.Done? && l'.result.Full? {
      assert l.Insert? && s'.sh == s.sh;
      if l.ipc.Recheck? {
        assert ClosedAt(cfg, s, l.key, l.j);
      } else {
        assert PathSettled(cfg, s.sh, l.key, l.j + 1);
        assert ClosedAt(cfg, s, l.key, cfg.capacity);
      }
      ClosedStays(cfg, s, s', t, l.key);
    }
  }

  lemma MoverFull(cfg: Config, s: State, s': State, t: Tid)
    requires Inv(cfg, s) && Next(cfg, s, s', t) && t in s.threads && t in s'.threads
    requires s.threads[t].Insert?
    ensures var l' := s'.threads[t];
            && (KnowsFull(l') ==> s'.sh.isFull != 0)
            && (l'.Insert? && (l'.ipc.Freeze? || l'.ipc.Recheck?) ==> Quiet(s'))
  {
    hide PathAt, CellInv, OwnerInv, CountInv, PathSettled, Closed, Holds;
    var l := s.threads[t];
    assert LocalInv(cfg, s, l);
    if l.ipc.SpinPending? && s.sh.pending == 0 {
      PendingZeroIsQuiet(s);
    }
    if Quiet(s) {
      QuietStays(cfg, s, s', t);
    }
  }

  lemma MoverCell(cfg: Config, sh: Shared, l: Local, sh': Shared, l': Local)
    requires ThreadStep(cfg, sh, l, sh', l')
    requires Holds(l) ==> sh.cells[Idx(cfg, l)].Locked?
    requires l.Insert? && l.ipc.Publish? ==> sh.vals[Idx(cfg, l)] == Some(l.val)
    ensures Shape(cfg, sh') && InRange(cfg, l')
    ensures Holds(l') ==> sh'.cells[Idx(cfg, l')].Locked?
    ensures l'.Insert? && l'.ipc.Publish? ==> sh'.vals[Idx(cfg, l')] == Some(l'.val)
  {
    hide PathAt;
  }

  lemma OtherLocalInv(cfg: Config, s: State, s': State, t: Tid, u: Tid)
    requires Inv(cfg, s) && Next(cfg, s, s', t) && u in s'.threads && u != t
    ensures Shape(cfg, s'.sh) && LocalInv(cfg, s', s'.threads[u])
  {
    StepMovesCells(cfg, s, s', t);
    var l := s.threads[u];
    assert LocalInv(cfg, s, l);
    if l.Done? && l.result.Full? {
      ClosedStays(cfg, s, s', t, l.key);
    }
    if l.Insert? {
      PathStaysSettled(cfg, s, s', t, l.key, l.j);
      if Quiet(s) {
        QuietStays(cfg, s, s', t);
      }
      if Holds(l) {
        HeldCellUntouched(cfg, s, s', t, u);
      }
    }
  }

  lemma HeldCellUntouched(cfg: Config, s: State, s': State, t: Tid, u: Tid)
    requires Inv(cfg, s) && Next(cfg, s, s', t) && u in s.threads && u != t && Holds(s.threads[u])
    ensures Shape(cfg, s'.sh)
    ensures LocalInv(cfg, s, s.threads[u])
    ensures var c := Idx(cfg, s.threads[u]);
            s'.sh.cells[c] == s.sh.cells[c] && s'.sh.vals[c] == s.sh.vals[c]
  {
    var c := Idx(cfg, s.threads[u]);
    assert LocalInv(cfg, s, s.threads[u]) && OwnsCell(cfg, s.threads[u], c);
    if t in s.threads && !s.threads[t].Done? {
      ThreadMovesCell(cfg, s, s', t);
      assert LocalInv(cfg, s, s.threads[t]);
      if Idx(cfg, s.threads[t]) == c {
        assert !OwnsCell(cfg, s.threads[t], c);
      }
    }
  }

  lemma StepCellInv(cfg: Config, s: State, s': State, t: Tid)
    requires Inv(cfg, s) && Next(cfg, s, s', t)
    ensures Shape(cfg, s'.sh) && CellInv(cfg, s')
  {
    StepMovesCells(cfg, s, s', t);
    forall c: nat | c < cfg.capacity && s'.sh.cells[c].Live?
      ensures OnPath(cfg, s'.sh, s'.sh.cells[c].key, c) && s'.sh.vals[c].Some?
    {
      var k := s'.sh.cells[c].key;
      if s.sh.cells[c].Live? {
        var f: nat :| f < cfg.capacity && PathAt(cfg, k, f) == c && PathSettled(cfg, s.sh, k, f);
        PathStaysSettled(cfg, s, s', t, k, f);
      } else {
        var l := s.threads[t];
        assert LocalInv(cfg, s, l);
        ThreadMovesCell(cfg, s, s', t);
        PathStaysSettled(cfg, s, s', t, l.key, l.j);
      }
    }
  }

  /** How one step moves the ownership of the cell its thread looks at. */
  lemma MoverOwnership(cfg: Config, sh: Shared, l: Local, sh': Shared, l': Local)
    requires ThreadStep(cfg, sh, l, sh', l')
    requires Holds(l) ==> sh.cells[Idx(cfg, l)].Locked?
    ensures Shape(cfg, sh') && InRange(cfg, l')
    ensures var c := Idx(cfg, l);
            && (Holds(l') ==> Idx(cfg, l') == c && sh'.cells[c].Locked?)
            && (Holds(l') && !Holds(l) ==> !sh.cells[c].Locked?)
            && (Holds(l) && !Holds(l') ==> !sh'.cells[c].Locked?)
            && (!Holds(l) && !Holds(l') ==> sh'.cells[c].Locked? == sh.cells[c].Locked?)
  {
    hide PathAt;
  }

  lemma StepOwnerUnique(cfg: Config, s: State, s': State, t: Tid, u: Tid, c: nat)
    requires Inv(cfg, s) && Next(cfg, s, s', t)
    requires t in s'.threads && OwnsCell(cfg, s'.threads[t], c)
    requires u in s'.threads && OwnsCell(cfg, s'.threads[u], c)
    ensures t == u
  {
    assert LocalInv(cfg, s, s.threads[t]);
    MoverOwnership(cfg, s.sh, s.threads[t], s'.sh, s'.threads[t]);
    assert u != t ==> LocalInv(cfg, s, s.threads[u]) && OwnsCell(cfg, s.threads[u], c);
    assert Holds(s.threads[t]) ==> OwnsCell(cfg, s.threads[t], c);
  }

  lemma StepOwnerExists(cfg: Config, s: State, s': State, t: Tid, c: nat)
    requires Inv(cfg, s) && Next(cfg, s, s', t) && Shape(cfg, s'.sh)
    requires c < cfg.capacity && s'.sh.cells[c].Locked?
    ensures exists u :: u in s'.threads && OwnsCell(cfg, s'.threads[u], c)
  {
    if t in s.threads && !s.threads[t].Done? {
      assert LocalInv(cfg, s, s.threads[t]);
      MoverOwnership(cfg, s.sh, s.threads[t], s'.sh, s'.threads[t]);
      ThreadMovesCell(cfg, s, s', t);
    }
    if s.sh.cells[c].Locked? {
      var u :| u in s.threads && OwnsCell(cfg, s.threads[u], c);
      assert u in s'.threads && OwnsCell(cfg, s'.threads[u], c);
    } else {
      assert OwnsCell(cfg, s'.threads[t], c);
    }
  }

  lemma StepOwnerInv(cfg: Config, s: State, s': State, t: Tid)
    requires Inv(cfg, s) && Next(cfg, s, s', t)
    ensures Shape(cfg, s'.sh) && OwnerInv(cfg, s')
  {
    StepMovesCells(cfg, s, s', t);
    forall u, v, c: nat | u in s'.threads && v in s'.threads
                          && OwnsCell(cfg, s'.threads[u], c) && OwnsCell(cfg, s'.threads[v], c)
      ensures u == v
    {
      if u == t {
        StepOwnerUnique(cfg, s, s', t, v, c);
      } else if v == t {
        StepOwnerUnique(cfg, s, s', t, u, c);
      }
    }
    forall c: nat | c < cfg.capacity && s'.sh.cells[c].Locked?
      ensures exists u :: u in s'.threads && OwnsCell(cfg, s'.threads[u], c)
    {
      StepOwnerExists(cfg, s, s', t, c);
    }
  }

  // -------------------------------------------------------------------- counting

  ghost predicate SameExcept(threads: map<Tid, Local>, threads': map<Tid, Local>, t: Tid) {
    forall u | u != t :: (u in threads <==> u in threads')
                         && (u in threads ==> threads[u] == threads'[u])
  }

  /** Changing one thread's local state changes a count by what that thread contributes. */
  lemma CountThread(threads: map<Tid, Local>, threads': map<Tid, Local>, t: Tid, p: Local -> bool)
    requires SameExcept(threads, threads', t)
    ensures |ThreadsWhere(threads', p)| - Bit(t in threads' && p(threads'[t]))
         == |ThreadsWhere(threads, p)| - Bit(t in threads && p(threads[t]))
  {
    var a, b := ThreadsWhere(threads, p), ThreadsWhere(threads', p);
    forall u
      ensures u in a - {t} <==> u in b - {t}
    {
    }
    assert a - {t} == b - {t};
    CardWithout(a, t);
    CardWithout(b, t);
  }

  lemma CountCell(cells: seq<Cell>, cells': seq<Cell>, c: nat, p: Cell -> bool)
    requires c < |cells| && |cells'| == |cells| && cells' == cells[c := cells'[c]]
    ensures |CellsWhere(cells', p)| - Bit(p(cells'[c])) == |CellsWhere(cells, p)| - Bit(p(cells[c]))
  {
    var a, b := CellsWhere(cells, p), CellsWhere(cells', p);
    forall d: nat
      ensures d in a - {c} <==> d in b - {c}
    {
    }
    assert a - {c} == b - {c};
    CardWithout(a, c);
    CardWithout(b, c);
  }

  /** What one step adds to each counter is what it adds to the thing counted. */
  lemma MoverCounts(cfg: Config, sh: Shared, l: Local, sh': Shared, l': Local)
    requires ThreadStep(cfg, sh, l, sh', l')
    requires Holds(l) ==> sh.cells[Idx(cfg, l)].Locked?
    ensures Shape(cfg, sh')
    ensures var c := Idx(cfg, l);
            && sh'.pending - sh.pending == Bit(InWindow(l')) - Bit(InWindow(l))
            && sh'.entries + Bit(Uncounted(l')) - Bit(Used(sh'.cells[c]))
               == sh.entries + Bit(Uncounted(l)) - Bit(Used(sh.cells[c]))
            && sh'.erases + Bit(UncountedErase(l')) - Bit(IsErased(sh'.cells[c]))
               == sh.erases + Bit(UncountedErase(l)) - Bit(IsErased(sh.cells[c]))
  {
    hide PathAt;
  }

  lemma StepCountInv(cfg: Config, s: State, s': State, t: Tid)
    requires Inv(cfg, s) && Next(cfg, s, s', t)
    ensures CountInv(s')
  {
    hide PathAt, InsertStep, FindStep, EraseStep;
    CountThread(s.threads, s'.threads, t, InWindow);
    CountThread(s.threads, s'.threads, t, Uncounted);
    CountThread(s.threads, s'.threads, t, UncountedErase);
    if t in s.threads && !s.threads[t].Done? {
      var c := Idx(cfg, s.threads[t]);
      assert LocalInv(cfg, s, s.threads[t]);
      MoverCounts(cfg, s.sh, s.threads[t], s'.sh, s'.threads[t]);
      ThreadMovesCell(cfg, s, s', t);
      CountCell(s.sh.cells, s'.sh.cells, c, Used);
      CountCell(s.sh.cells, s'.sh.cells, c, IsErased);
    }
  }

  /** Every step of every thread keeps the invariant. */
  lemma StepInv(cfg: Config, s: State, s': State, t: Tid)
    requires Inv(cfg, s) && Next(cfg, s, s', t)
    ensures Inv(cfg, s')
  {
    StepLocalInv(cfg, s, s', t);
    StepCellInv(cfg, s, s', t);
    StepOwnerInv(cfg, s, s', t);
    StepCountInv(cfg, s, s', t);
    StepFullInv(cfg, s, s', t);
  }

  lemma StepFullInv(cfg: Config, s: State, s': State, t: Tid)
    requires Inv(cfg, s) && Next(cfg, s, s', t)
    ensures 0 <= s'.sh.isFull <= 2
    ensures s'.sh.isFull == NO_PENDING_INSERTS ==> Quiet(s')
  {
    if t in s.threads {
      assert LocalInv(cfg, s, s.threads[t]);
    }
    if Quiet(s) {
      QuietStays(cfg, s, s', t);
    }
  }

  // -------------------------------------------------------------------- whole runs

  /** A run: states `run`, with thread `who[i]` taking the step from `run[i]` to `run[i + 1]`. */
  ghost predicate IsRun(cfg: Config, run: seq<State>, who: seq<Tid>) {
    && |run| == |who| + 1
    && Init(cfg, run[0])
    && forall i: nat | i < |who| :: Next(cfg, run[i], run[i + 1], who[i])
  }

  lemma {:induction false} RunInv(cfg: Config, run: seq<State>, who: seq<Tid>, n: nat)
    requires IsRun(cfg, run, who) && n < |run|
    ensures Inv(cfg, run[n])
  {
    hide Inv, Next;
    if n == 0 {
      InitInv(cfg, run[0]);
    } else {
      RunInv(cfg, run, who, n - 1);
      StepInv(cfg, run[n - 1], run[n], who[n - 1]);
    }
  }

  predicate HoldsKey(sh: Shared, c: nat, k: Key) {
    c < |sh.cells| && sh.cells[c] == Live(k)
  }

  ghost predicate Absent(sh: Shared, k: Key) {
    forall c: nat :: !HoldsKey(sh, c, k)
  }

  lemma LiveOnce(cfg: Config, s: State, k: Key, c: nat, d: nat)
    requires Inv(cfg, s) && HoldsKey(s.sh, c, k) && HoldsKey(s.sh, d, k)
    ensures c == d
  {
    var f: nat :| f < cfg.capacity && PathAt(cfg, k, f) == c && PathSettled(cfg, s.sh, k, f);
    var g: nat :| g < cfg.capacity && PathAt(cfg, k, g) == d && PathSettled(cfg, s.sh, k, g);
  }

  /** In every reachable state a key is live in at most one cell. */
  lemma KeyLiveAtMostOnce(cfg: Config, run: seq<State>, who: seq<Tid>, n: nat, k: Key, c: nat, d: nat)
    requires IsRun(cfg, run, who) && n < |run|
    requires HoldsKey(run[n].sh, c, k) && HoldsKey(run[n].sh, d, k)
    ensures c == d
  {
    RunInv(cfg, run, who, n);
    LiveOnce(cfg, run[n], k, c, d);
  }

  /** Cells passed over on the way to a live key are settled, and stay so for the rest of the run. */
  lemma {:induction false} PathBeforeLiveKey(cfg: Config, run: seq<State>, who: seq<Tid>, n: nat, m: nat, k: Key,
                                             c: nat)
    requires IsRun(cfg, run, who) && n <= m < |run| && HoldsKey(run[n].sh, c, k)
    ensures cfg.Valid() && Shape(cfg, run[m].sh)
    ensures exists f: nat :: f < cfg.capacity && PathAt(cfg, k, f) == c && PathSettled(cfg, run[m].sh, k, f)
  {
    hide Next;
    RunInv(cfg, run, who, m);
    if n < m {
      PathBeforeLiveKey(cfg, run, who, n, m - 1, k, c);
      RunInv(cfg, run, who, m - 1);
      var f: nat :| f < cfg.capacity && PathAt(cfg, k, f) == c && PathSettled(cfg, run[m - 1].sh, k, f);
      PathStaysSettled(cfg, run[m - 1], run[m], who[m - 1], k, f);
    }
  }

  /** numPendingEntries_ is exactly the number of threads inside the insert window. */
  lemma PendingIsExact(cfg: Config, run: seq<State>, who: seq<Tid>, n: nat)
    requires IsRun(cfg, run, who) && n < |run|
    ensures run[n].sh.pending == |ThreadsWhere(run[n].threads, InWindow)|
  {
    RunInv(cfg, run, who, n);
  }

  lemma QuietHasNoLock(cfg: Config, s: State, c: nat)
    requires Inv(cfg, s) && Quiet(s) && c < cfg.capacity
    ensures !s.sh.cells[c].Locked?
  {
  }

  /** Once NO_PENDING_INSERTS has been stored, no cell is locked and the empty cells are fixed for
      good, even if a late thread overwrites the flag with NO_NEW_INSERTS. */
  lemma {:induction false} FrozenForever(cfg: Config, run: seq<State>, who: seq<Tid>, n: nat, m: nat, c: nat)
    requires IsRun(cfg, run, who) && n <= m < |run|
    requires run[n].sh.isFull == NO_PENDING_INSERTS && c < cfg.capacity
    ensures Quiet(run[m]) && Shape(cfg, run[n].sh) && Shape(cfg, run[m].sh)
    ensures !run[m].sh.cells[c].Locked?
    ensures run[m].sh.cells[c].Empty? == run[n].sh.cells[c].Empty?
  {
    hide Next;
    RunInv(cfg, run, who, m);
    if n < m {
      FrozenForever(cfg, run, who, n, m - 1, c);
      RunInv(cfg, run, who, m - 1);
      QuietStays(cfg, run[m - 1], run[m], who[m - 1]);
      QuietKeepsEmpty(cfg, run[m - 1], run[m], who[m - 1], c);
    }
    QuietHasNoLock(cfg, run[m], c);
  }

  lemma ClosedIsAbsent(cfg: Config, s: State, k: Key)
    requires Inv(cfg, s) && Closed(cfg, s, k)
    ensures Absent(s.sh, k)
  {
    var j: nat :| ClosedAt(cfg, s, k, j);
    forall c: nat | HoldsKey(s.sh, c, k)
      ensures false
    {
      var f: nat :| f < cfg.capacity && PathAt(cfg, k, f) == c && PathSettled(cfg, s.sh, k, f);
    }
  }

  /** If an insert of `k` reports "full", `k` is absent from that instant to the end of the run. */
  lemma {:induction false} FullMeansAbsentForever(cfg: Config, run: seq<State>, who: seq<Tid>, n: nat, m: nat, t: Tid,
                                                  k: Key)
    requires IsRun(cfg, run, who) && n <= m < |run|
    requires t in run[n].threads && run[n].threads[t] == Done(k, Full)
    ensures cfg.Valid() && Shape(cfg, run[m].sh) && Closed(cfg, run[m], k) && Absent(run[m].sh, k)
  {
    hide Next;
    RunInv(cfg, run, who, m);
    if n < m {
      FullMeansAbsentForever(cfg, run, who, n, m - 1, t, k);
      RunInv(cfg, run, who, m - 1);
      ClosedStays(cfg, run[m - 1], run[m], who[m - 1], k);
    } else {
      assert LocalInv(cfg, run[n], run[n].threads[t]);
    }
    ClosedIsAbsent(cfg, run[m], k);
  }

  /** With no call in flight, numEntries_ - numErases_ is the number of live cells. */
  lemma SizeIsExact(cfg: Config, run: seq<State>, who: seq<Tid>, n: nat)
    requires IsRun(cfg, run, who) && n < |run| && run[n].threads == map[]
    ensures run[n].sh.entries - run[n].sh.erases == |CellsWhere(run[n].sh.cells, (x: Cell) => x.Live?)|
  {
    RunInv(cfg, run, who, n);
    var s := run[n];
    assert ThreadsWhere(s.threads, Uncounted) == {} && ThreadsWhere(s.threads, UncountedErase) == {};
    var live := CellsWhere(s.sh.cells, (x: Cell) => x.Live?);
    var erased := CellsWhere(s.sh.cells, IsErased);
    assert CellsWhere(s.sh.cells, Used) == live + erased && live !! erased;
  }

  // -------------------------------------------------------------------- find and erase

  /** The call `l` is on its way to the cell `c`, which holds its key at path position `f`. */
  ghost predicate Chase(cfg: Config, sh: Shared, l: Local, c: nat, f: nat) {
    && cfg.Valid() && Shape(cfg, sh) && f < cfg.capacity
    && (l.Find? || l.Erase?)
    && HoldsKey(sh, c, l.key) && PathAt(cfg, l.key, f) == c && PathSettled(cfg, sh, l.key, f)
    && (l.Find? || l.epc.Look? ==> l.j <= f)
    && (l.Erase? && !l.epc.Look? ==> l.epc.Swap? && l.j == f)
  }

  predicate Succeeded(l: Local, find: bool, k: Key, c: nat) {
    if find then l == Done(k, Found(c))
    else l == Done(k, ErasedOne) || (l.Erase? && l.key == k && l.epc.CountErase?)
  }

  lemma ReachingStart(cfg: Config, s: State, t: Tid, k: Key, c: nat)
    requires Inv(cfg, s) && t in s.threads && HoldsKey(s.sh, c, k)
    requires var l := s.threads[t]; IsStart(l) && (l.Find? || l.Erase?) && l.key == k
    ensures Reaching(cfg, s, t, s.threads[t].Find?, k, c)
  {
    var f: nat :| f < cfg.capacity && PathAt(cfg, k, f) == c && PathSettled(cfg, s.sh, k, f);
    assert Chase(cfg, s.sh, s.threads[t], c, f);
  }

  lemma ChaseStep(cfg: Config, s: State, s': State, u: Tid, t: Tid, c: nat, f: nat)
    requires Inv(cfg, s) && Next(cfg, s, s', u)
    requires t in s.threads && Chase(cfg, s.sh, s.threads[t], c, f)
    requires u != t ==> HoldsKey(s'.sh, c, s.threads[t].key)
    ensures t in s'.threads
    ensures || (Chase(cfg, s'.sh, s'.threads[t], c, f) && s'.threads[t].Find? == s.threads[t].Find?)
            || Succeeded(s'.threads[t], s.threads[t].Find?, s.threads[t].key, c)
  {
    var l := s.threads[t];
    PathStaysSettled(cfg, s, s', u, l.key, f);
    if u == t {
      assert LocalInv(cfg, s, l);
      if !(l.Erase? && l.epc.Swap?) && l.j < f {
        assert Settled(s.sh.cells[PathAt(cfg, l.key, l.j)], l.key);
      }
    }
  }

  /** The find (or, if not `find`, erase) call of `t` for `k` has succeeded or still heads for `c`. */
  ghost predicate Reaching(cfg: Config, s: State, t: Tid, find: bool, k: Key, c: nat) {
    && t in s.threads && s.threads[t].key == k
    && (|| Succeeded(s.threads[t], find, k, c)
        || (s.threads[t].Find? == find && exists f: nat :: Chase(cfg, s.sh, s.threads[t], c, f)))
  }

  lemma ReachingStep(cfg: Config, s: State, s': State, u: Tid, t: Tid, find: bool, k: Key, c: nat)
    requires Inv(cfg, s) && Next(cfg, s, s', u) && Reaching(cfg, s, t, find, k, c)
    requires !s.threads[t].Done?
    requires u != t && HoldsKey(s.sh, c, k) ==> HoldsKey(s'.sh, c, k)
    ensures Reaching(cfg, s', t, find, k, c)
  {
    if !Succeeded(s.threads[t], find, k, c) {
      var f: nat :| Chase(cfg, s.sh, s.threads[t], c, f);
      ChaseStep(cfg, s, s', u, t, c, f);
    }
  }

  /** From `run[a]` to `run[b]` thread `t` is inside one find or erase call for `k`. */
  ghost predicate SeekCall(run: seq<State>, a: nat, b: nat, t: Tid, k: Key) {
    && a <= b < |run|
    && (forall i | a <= i <= b :: t in run[i].threads)
    && (forall i | a <= i < b :: !run[i].threads[t].Done?)
    && var l := run[a].threads[t];
       IsStart(l) && (l.Find? || l.Erase?) && l.key == k
  }

  /** Nobody but `t` takes `k` out of `c` between `run[a]` and `run[b]`. */
  ghost predicate KeptByOthers(run: seq<State>, who: seq<Tid>, a: nat, b: nat, t: Tid, k: Key, c: nat)
    requires a <= b < |run| && |run| == |who| + 1
  {
    forall i | a <= i < b :: who[i] != t && HoldsKey(run[i].sh, c, k) ==> HoldsKey(run[i + 1].sh, c, k)
  }

  lemma {:induction false} StaysReaching(cfg: Config, run: seq<State>, who: seq<Tid>, a: nat, b: nat, t: Tid, k: Key,
                                         c: nat)
    requires IsRun(cfg, run, who) && SeekCall(run, a, b, t, k)
    requires HoldsKey(run[a].sh, c, k) && KeptByOthers(run, who, a, b, t, k, c)
    ensures Reaching(cfg, run[b], t, run[a].threads[t].Find?, k, c)
  {
    hide Inv, Next, Reaching, IsStart, HoldsKey;
    if a == b {
      RunInv(cfg, run, who, a);
      ReachingStart(cfg, run[a], t, k, c);
    } else {
      RunInv(cfg, run, who, b - 1);
      StaysReaching(cfg, run, who, a, b - 1, t, k, c);
      ReachingStep(cfg, run[b - 1], run[b], who[b - 1], t, run[a].threads[t].Find?, k, c);
    }
  }

  /** A key that is live and not erased by others is found, and erased, by a call that seeks it,
      whatever inserts run concurrently. */
  lemma LiveKeyIsReached(cfg: Config, run: seq<State>, who: seq<Tid>, a: nat, b: nat, t: Tid, k: Key, c: nat)
    requires IsRun(cfg, run, who) && SeekCall(run, a, b, t, k)
    requires HoldsKey(run[a].sh, c, k) && KeptByOthers(run, who, a, b, t, k, c)
    requires run[b].threads[t].Done?
    ensures run[b].threads[t] == Done(k, if run[a].threads[t].Find? then Found(c) else ErasedOne)
  {
    StaysReaching(cfg, run, who, a, b, t, k, c);
  }

  /** While a key is never absent it stays in the same cell. */
  lemma PresentStaysPut(cfg: Config, s: State, s': State, u: Tid, k: Key, c: nat)
    requires Inv(cfg, s) && Next(cfg, s, s', u) && HoldsKey(s.sh, c, k) && !Absent(s'.sh, k)
    ensures HoldsKey(s'.sh, c, k)
  {
    StepMovesCells(cfg, s, s', u);
    if u in s.threads && !s.threads[u].Done? {
      ThreadMovesCell(cfg, s, s', u);
      var d: nat :| HoldsKey(s'.sh, d, k);
      if HoldsKey(s.sh, d, k) {
        LiveOnce(cfg, s, k, c, d);
      }
    }
  }

  /** Every not-found answer of find or erase has an instant inside the call at which the key was absent. */
  lemma NotFoundWasAbsent(cfg: Config, run: seq<State>, who: seq<Tid>, a: nat, b: nat, t: Tid, k: Key)
    requires IsRun(cfg, run, who) && SeekCall(run, a, b, t, k)
    requires run[b].threads[t].Done? && run[b].threads[t].result in {NotFound, ErasedNone}
    ensures exists i :: a <= i <= b && Absent(run[i].sh, k)
  {
    if forall i | a <= i <= b :: !Absent(run[i].sh, k) {
      var c: nat :| HoldsKey(run[a].sh, c, k);
      StaysWhilePresent(cfg, run, who, a, b, k, c);
      LiveKeyIsReached(cfg, run, who, a, b, t, k, c);
    }
  }

  lemma {:induction false} StaysWhilePresent(cfg: Config, run: seq<State>, who: seq<Tid>, a: nat, b: nat, k: Key,
                                             c: nat)
    requires IsRun(cfg, run, who) && a <= b < |run| && HoldsKey(run[a].sh, c, k)
    requires forall i | a <= i <= b :: !Absent(run[i].sh, k)
    ensures forall i | a <= i <= b :: HoldsKey(run[i].sh, c, k)
  {
    hide Inv, Next;
    if a < b {
      StaysWhilePresent(cfg, run, who, a, b - 1, k, c);
      RunInv(cfg, run, who, b - 1);
      PresentStaysPut(cfg, run[b - 1], run[b], who[b - 1], k, c);
    }
  }

  /** Only an insert of `k` makes `k` live. */
  lemma NewKeyByInserter(cfg: Config, s: State, s': State, t: Tid, k: Key, c: nat)
    requires Inv(cfg, s) && Next(cfg, s, s', t) && HoldsKey(s'.sh, c, k) && !HoldsKey(s.sh, c, k)
    ensures t in s.threads && s.threads[t].Insert? && s.threads[t].key == k
  {
    hide PathAt;
    if t in s.threads {
      assert LocalInv(cfg, s, s.threads[t]);
    }
  }

  /** What a successful answer means at the step that produces it. */
  lemma AnswersAreTrue(cfg: Config, s: State, s': State, t: Tid)
    requires Inv(cfg, s) && Next(cfg, s, s', t) && t in s.threads && !s.threads[t].Done?
    requires s'.threads[t].Done?
    ensures var k, r := s.threads[t].key, s'.threads[t].result;
            && s'.threads[t].key == k
            && (r.Found? || r.Exists? ==> HoldsKey(s'.sh, r.idx, k) && s'.sh.vals[r.idx].Some?)
  {
    hide PathAt;
    assert LocalInv(cfg, s, s.threads[t]);
  }

  // -------------------------------------------------------------------- inserted and erased

  /** The cell comes to hold the key, with this value. */
  predicate MakesLive(sh: Shared, sh': Shared, c: nat, k: Key, v: Val) {
    !HoldsKey(sh, c, k) && HoldsKey(sh', c, k) && c < |sh'.vals| && sh'.vals[c] == Some(v)
  }

  predicate TakesOut(sh: Shared, sh': Shared, c: nat, k: Key) {
    HoldsKey(sh, c, k) && !HoldsKey(sh', c, k)
  }

  /** The insert has published its key in cell `c`. */
  predicate HasMade(cfg: Config, l: Local, c: nat) {
    || (l.Done? && l.result == Inserted(c))
    || (&& cfg.capacity > 0 && l.Insert? && l.j < cfg.capacity && Idx(cfg, l) == c
        && (l.ipc.LeaveDone? || l.ipc.CountEntry? || l.ipc.MaybeFull?))
  }

  /** The erase has taken its key out. */
  predicate HasTaken(l: Local) {
    (l.Done? && l.result.ErasedOne?) || (l.Erase? && l.epc.CountErase?)
  }

  lemma ThreadMakes(cfg: Config, s: State, l: Local, sh': Shared, l': Local, c: nat)
    requires Inv(cfg, s) && LocalInv(cfg, s, l) && ThreadStep(cfg, s.sh, l, sh', l') && HasMade(cfg, l', c)
    ensures HasMade(cfg, l, c) || (l.Insert? && MakesLive(s.sh, sh', c, l.key, l.val))
  {
    hide PathAt, CellInv, OwnerInv, CountInv;
  }

  lemma ThreadTakes(cfg: Config, sh: Shared, l: Local, sh': Shared, l': Local) returns (c: nat)
    requires ThreadStep(cfg, sh, l, sh', l') && HasTaken(l')
    ensures HasTaken(l) || (l.Erase? && TakesOut(sh, sh', c, l.key))
  {
    hide PathAt;
    c := Idx(cfg, l);
  }

  lemma CallKeepsKey(cfg: Config, sh: Shared, l: Local, sh': Shared, l': Local)
    requires ThreadStep(cfg, sh, l, sh', l')
    ensures l'.key == l.key && (l'.Insert? ==> l.Insert? && l'.val == l.val) && (l.Insert? ==> l'.Insert? || l'.Done?)
  {
    hide PathAt;
  }

  /** From `run[a]` to `run[b]` thread `t` is inside one call, which began as `l`. */
  ghost predicate OneCall(run: seq<State>, a: nat, b: nat, t: Tid, l: Local) {
    && a <= b < |run|
    && (forall i | a <= i <= b :: t in run[i].threads)
    && (forall i | a <= i < b :: !run[i].threads[t].Done?)
    && IsStart(l) && run[a].threads[t] == l
  }

  /** The last step of the call's thread, or a step of another one. */
  lemma OneCallStep(cfg: Config, run: seq<State>, who: seq<Tid>, a: nat, b: nat, t: Tid, l: Local)
    requires IsRun(cfg, run, who) && a < b && OneCall(run, a, b, t, l)
    ensures OneCall(run, a, b - 1, t, l) && Inv(cfg, run[b - 1])
    ensures LocalInv(cfg, run[b - 1], run[b - 1].threads[t])
    ensures if who[b - 1] == t
            then ThreadStep(cfg, run[b - 1].sh, run[b - 1].threads[t], run[b].sh, run[b].threads[t])
            else run[b].threads[t] == run[b - 1].threads[t]
  {
    hide ThreadStep, LocalInv, CellInv, OwnerInv, CountInv;
    RunInv(cfg, run, who, b - 1);
  }

  lemma {:induction false} OneCallKeeps(cfg: Config, run: seq<State>, who: seq<Tid>, a: nat, b: nat, t: Tid, l: Local)
    requires IsRun(cfg, run, who) && OneCall(run, a, b, t, l)
    ensures run[b].threads[t].key == l.key
            && (run[b].threads[t].Insert? ==> l.Insert? && run[b].threads[t].val == l.val)
  {
    hide Next, Init, Inv, LocalInv, ThreadStep;
    if a < b {
      OneCallStep(cfg, run, who, a, b, t, l);
      OneCallKeeps(cfg, run, who, a, b - 1, t, l);
      if who[b - 1] == t {
        CallKeepsKey(cfg, run[b - 1].sh, run[b - 1].threads[t], run[b].sh, run[b].threads[t]);
      }
    }
  }

  /** An insert that has published its key did so at a step of its own inside the call. */
  lemma {:induction false} MadeInside(cfg: Config, run: seq<State>, who: seq<Tid>, a: nat, b: nat, t: Tid, l: Local,
                                      c: nat) returns (i: nat)
    requires IsRun(cfg, run, who) && OneCall(run, a, b, t, l) && l.Insert? && HasMade(cfg, run[b].threads[t], c)
    ensures a <= i < b && who[i] == t && MakesLive(run[i].sh, run[i + 1].sh, c, l.key, l.val)
  {
    hide Inv, LocalInv, ThreadStep, MakesLive, Next, Init;
    i := b - 1;
    OneCallStep(cfg, run, who, a, b, t, l);
    if who[i] == t {
      OneCallKeeps(cfg, run, who, a, i, t, l);
      ThreadMakes(cfg, run[i], run[i].threads[t], run[b].sh, run[b].threads[t], c);
    }
    if HasMade(cfg, run[i].threads[t], c) {
      i := MadeInside(cfg, run, who, a, i, t, l, c);
    }
  }

  /** Every insert that answers "inserted" put its key and its value into that cell, which did not hold the key,
      at one of its own steps between its call and its answer. */
  lemma InsertedWasMade(cfg: Config, run: seq<State>, who: seq<Tid>, a: nat, b: nat, t: Tid, l: Local) returns (i: nat)
    requires IsRun(cfg, run, who) && OneCall(run, a, b, t, l) && l.Insert?
    requires run[b].threads[t].Done? && run[b].threads[t].result.Inserted?
    ensures a <= i < b && who[i] == t
    ensures MakesLive(run[i].sh, run[i + 1].sh, run[b].threads[t].result.idx, l.key, l.val)
  {
    hide IsRun, MakesLive;
    i := MadeInside(cfg, run, who, a, b, t, l, run[b].threads[t].result.idx);
  }

  /** Every erase that answers "erased one" took its key out of a cell that held it at one of its own steps
      between its call and its answer. */
  lemma {:induction false} ErasedWasTaken(cfg: Config, run: seq<State>, who: seq<Tid>, a: nat, b: nat, t: Tid, l: Local)
    returns (i: nat, c: nat)
    requires IsRun(cfg, run, who) && OneCall(run, a, b, t, l) && l.Erase? && HasTaken(run[b].threads[t])
    ensures a <= i < b && who[i] == t && TakesOut(run[i].sh, run[i + 1].sh, c, l.key)
  {
    hide Inv, LocalInv, ThreadStep, TakesOut, Next, Init;
    i, c := b - 1, 0;
    OneCallStep(cfg, run, who, a, b, t, l);
    if who[i] == t {
      OneCallKeeps(cfg, run, who, a, i, t, l);
      c := ThreadTakes(cfg, run[i].sh, run[i].threads[t], run[b].sh, run[b].threads[t]);
    }
    if HasTaken(run[i].threads[t]) {
      i, c := ErasedWasTaken(cfg, run, who, a, i, t, l);
    }
  }

  /** A locked cell is given back. */
  predicate GivesBack(sh: Shared, sh': Shared, c: nat) {
    c < |sh.cells| == |sh'.cells| && sh.cells[c].Locked? && sh'.cells[c].Empty?
  }

  /** The insert has given its cell back after its constructor threw. */
  predicate HasThrown(l: Local) {
    (l.Done? && l.result.Threw?) || (l.Insert? && l.ipc.LeaveThrow?)
  }

  lemma ThreadGivesBack(cfg: Config, s: State, l: Local, sh': Shared, l': Local) returns (c: nat)
    requires Inv(cfg, s) && LocalInv(cfg, s, l) && ThreadStep(cfg, s.sh, l, sh', l') && HasThrown(l')
    ensures HasThrown(l) || (OwnsCell(cfg, l, c) && GivesBack(s.sh, sh', c))
  {
    hide PathAt, CellInv, OwnerInv, CountInv;
    c := Idx(cfg, l);
  }

  /** Every insert that answers "threw" set a cell that it had locked back to empty at one of its own steps between
      its call and its answer. */
  lemma {:induction false} ThrewWasUndone(cfg: Config, run: seq<State>, who: seq<Tid>, a: nat, b: nat, t: Tid, l: Local)
    returns (i: nat, c: nat)
    requires IsRun(cfg, run, who) && OneCall(run, a, b, t, l) && HasThrown(run[b].threads[t])
    ensures a <= i < b && who[i] == t && cfg.Valid() && OwnsCell(cfg, run[i].threads[t], c)
    ensures GivesBack(run[i].sh, run[i + 1].sh, c)
  {
    hide Inv, LocalInv, ThreadStep, GivesBack, OwnsCell, Next, Init;
    i, c := b - 1, 0;
    OneCallStep(cfg, run, who, a, b, t, l);
    InvValid(cfg, run[i]);
    if who[i] == t {
      c := ThreadGivesBack(cfg, run[i], run[i].threads[t], run[b].sh, run[b].threads[t]);
    }
    if HasThrown(run[i].threads[t]) {
      i, c := ThrewWasUndone(cfg, run, who, a, i, t, l);
    }
  }

  lemma InvLocal(cfg: Config, s: State, t: Tid)
    requires Inv(cfg, s) && t in s.threads
    ensures cfg.Valid() && Shape(cfg, s.sh) && LocalInv(cfg, s, s.threads[t])
  {
  }

  lemma InvValid(cfg: Config, s: State)
    requires Inv(cfg, s)
    ensures cfg.Valid() && Shape(cfg, s.sh)
  {
  }

  /** The insert is on its way to the cell `c`, which holds its key at path position `f`. */
  ghost predicate InsertChase(cfg: Config, sh: Shared, l: Local, c: nat, f: nat) {
    && cfg.Valid() && Shape(cfg, sh) && f < cfg.capacity && l.Insert?
    && HoldsKey(sh, c, l.key) && PathAt(cfg, l.key, f) == c && PathSettled(cfg, sh, l.key, f)
    && l.j <= f && (l.ipc.Probe? || l.ipc.AwaitUnlock? || l.ipc.Compare?)
  }

  lemma InsertChaseStep(cfg: Config, s: State, s': State, u: Tid, t: Tid, c: nat, f: nat)
    requires Inv(cfg, s) && Next(cfg, s, s', u)
    requires t in s.threads && InsertChase(cfg, s.sh, s.threads[t], c, f) && HoldsKey(s'.sh, c, s.threads[t].key)
    ensures t in s'.threads
    ensures InsertChase(cfg, s'.sh, s'.threads[t], c, f) || s'.threads[t] == Done(s.threads[t].key, Exists(c))
  {
    hide CellInv, OwnerInv, CountInv;
    var l := s.threads[t];
    PathStaysSettled(cfg, s, s', u, l.key, f);
    if u == t && l.j < f {
      assert Settled(s.sh.cells[PathAt(cfg, l.key, l.j)], l.key);
    }
  }

  lemma {:induction false} InsertChases(cfg: Config, run: seq<State>, who: seq<Tid>, a: nat, b: nat, t: Tid, l: Local,
                                        c: nat)
    requires IsRun(cfg, run, who) && OneCall(run, a, b, t, l) && l.Insert?
    requires forall i | a <= i <= b :: HoldsKey(run[i].sh, c, l.key)
    ensures run[b].threads[t].key == l.key
    ensures run[b].threads[t] == Done(l.key, Exists(c))
            || exists f: nat :: InsertChase(cfg, run[b].sh, run[b].threads[t], c, f)
  {
    hide Inv, Next, Init, InsertChase, HoldsKey;
    if a == b {
      RunInv(cfg, run, who, a);
      InsertChaseStart(cfg, run[a], t, c);
    } else {
      RunInv(cfg, run, who, b - 1);
      InsertChases(cfg, run, who, a, b - 1, t, l, c);
      OneCallKeeps(cfg, run, who, a, b, t, l);
      var f: nat :| InsertChase(cfg, run[b - 1].sh, run[b - 1].threads[t], c, f);
      InsertChaseStep(cfg, run[b - 1], run[b], who[b - 1], t, c, f);
    }
  }

  lemma InsertChaseStart(cfg: Config, s: State, t: Tid, c: nat)
    requires Inv(cfg, s) && t in s.threads && s.threads[t].Insert? && IsStart(s.threads[t])
    requires HoldsKey(s.sh, c, s.threads[t].key)
    ensures exists f: nat :: InsertChase(cfg, s.sh, s.threads[t], c, f)
  {
    hide OwnerInv, CountInv;
    var k := s.threads[t].key;
    var f: nat :| f < cfg.capacity && PathAt(cfg, k, f) == c && PathSettled(cfg, s.sh, k, f);
    assert InsertChase(cfg, s.sh, s.threads[t], c, f);
  }

  /** An insert of a key that is live throughout the call answers "exists", with that cell. */
  lemma LiveKeyExists(cfg: Config, run: seq<State>, who: seq<Tid>, a: nat, b: nat, t: Tid, l: Local, c: nat)
    requires IsRun(cfg, run, who) && OneCall(run, a, b, t, l) && l.Insert? && run[b].threads[t].Done?
    requires forall i | a <= i <= b :: HoldsKey(run[i].sh, c, l.key)
    ensures run[b].threads[t] == Done(l.key, Exists(c))
  {
    hide IsRun, HoldsKey;
    InsertChases(cfg, run, who, a, b, t, l, c);
  }
}
