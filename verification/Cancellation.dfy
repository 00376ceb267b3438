/**
 CancellationState: one 64-bit word holds a cancel bit, a lock bit, a token count and a source
 count.  It guards the list of registered callbacks and the handshake between the thread that
 runs them and the threads that destroy them.

 One step performs one atomic operation on the word, one critical-section body, or one access to a
 callback object.  Any number of threads interleave; nested calls made by the user's callback run
 as further calls of the signalling thread.
 */
module Cancellation {
  import opened Common

  type Id = nat
  type Tid = nat

  // -------------------------------------------------------------------- the packed word

  const WORD: nat := 0x1_0000_0000_0000_0000
  const CANCEL_FLAG: nat := 1
  const LOCK_FLAG: nat := 2
  const TOKEN_INC: nat := 8
  const SOURCE_INC: nat := 0x4_0000_0000        // 1 << 34
  const MAX_TOKENS: nat := 0x8000_0000          // the 31 bits 3..33
  const MAX_SOURCES: nat := 0x4000_0000         // the 30 bits 34..63

  predicate IsCancelled(w: nat) {
    w % 2 == 1
  }

  predicate IsLocked(w: nat) {
    w / 2 % 2 == 1
  }

  predicate CanBeCancelled(w: nat) {
    w >= SOURCE_INC || IsCancelled(w)
  }

  /** state_.fetch_add(d) for a possibly negative `d`, modulo 2^64. */
  function Add(w: nat, d: int): (r: nat) {
    (w + d) % WORD
  }

  /** oldState | kLockedFlag. */
  function OrLock(w: nat): (r: nat) {
    if IsLocked(w) then w else w + LOCK_FLAG
  }

  /** oldState | kLockedFlag | kCancellationRequestedFlag. */
  function OrLockCancel(w: nat): (r: nat) {
    OrLock(if IsCancelled(w) then w else w + CANCEL_FLAG)
  }

  function Pack(cancelled: bool, locked: bool, tokens: nat, sources: nat): (w: nat) {
    Bit(cancelled) + LOCK_FLAG * Bit(locked) + TOKEN_INC * tokens + SOURCE_INC * sources
  }

  predicate Fits(tokens: int, sources: int) {
    0 <= tokens < MAX_TOKENS && 0 <= sources < MAX_SOURCES
  }

  /** The flags and tests read from a packed word are those of its fields. */
  lemma PackReads(c: bool, l: bool, t: nat, u: nat)
    requires Fits(t, u)
    ensures var w := Pack(c, l, t, u);
            && w == Bit(c) + 2 * Bit(l) + 8 * t + 0x4_0000_0000 * u
            && w < WORD && IsCancelled(w) == c && IsLocked(w) == l
            && CanBeCancelled(w) == (u > 0 || c)
            && (w < 2 * TOKEN_INC <==> u == 0 && t <= 1)
            && (l ==> (w < LOCK_FLAG + 2 * TOKEN_INC <==> u == 0 && t <= 1))
            && (w < SOURCE_INC + TOKEN_INC <==> u == 0 || (u == 1 && t == 0))
            && (!l ==> OrLock(w) == Pack(c, true, t, u))
            && (!l && !c ==> OrLockCancel(w) == Pack(true, true, t, u))
  {
  }

  /** Adding to the word changes the lock bit and the counts by what was added, and no other field. */
  lemma PackAdds(c: bool, l: bool, t: nat, u: nat, l': bool, t': nat, u': nat, d: int)
    requires Fits(t, u) && Fits(t', u')
    requires d == LOCK_FLAG * (Bit(l') - Bit(l)) + TOKEN_INC * (t' - t) + SOURCE_INC * (u' - u)
    ensures Add(Pack(c, l, t, u), d) == Pack(c, l', t', u')
  {
    PackReads(c, l', t', u');
  }

  lemma PackInjective(c: bool, l: bool, t: nat, u: nat, c': bool, l': bool, t': nat, u': nat)
    requires Fits(t, u) && Fits(t', u') && Pack(c, l, t, u) == Pack(c', l', t', u')
    ensures c == c' && l == l' && t == t' && u == u'
  {
    PackReads(c, l, t, u);
    PackReads(c', l', t', u');
  }

  // -------------------------------------------------------------------- state

  datatype Life = Constructing | Alive | Destroying | Destroyed

  /** A CancellationCallback.  `registered` is state_ != nullptr, `flagSet` is
      destructorHasRunInsideCallback_ != nullptr; the run counters record history. */
  datatype Callback = Callback(life: Life, registered: bool, flagSet: bool, completed: bool,
                               inlineRuns: nat, signalRuns: nat)

  datatype RegisterPc =
    | RLoad                  // tryLock: load the word
    | RTry(seen: nat)        // tryLock: test the predicate and the lock bit, then CAS
    | RInline                // run the callback inline
    | RPush                  // push onto the list
    | RUnlock                // unlock, or unlockAndIncrementTokenCount

  datatype UnregisterPc =
    | ULoad | UTry(seen: nat)        // lock
    | ULook                          // test prevNext_, unlink
    | UUnlockDec                     // unlockAndDecrementTokenCount
    | UUnlock                        // unlock
    | UCheck                         // compare signallingThreadId_ with this thread
    | UTell                          // set the flag on requestCancellation's stack
    | UAwait                         // spin on callbackCompleted_
    | UDrop                          // removeTokenReference

  datatype RequestPc = QLoad | QTry(seen: nat) | QTrue

  datatype Call =
    | Register(tid: Tid, cb: Id, tok: Id, move: bool, rpc: RegisterPc)
    | Unregister(tid: Tid, cb: Id, upc: UnregisterPc)
    | Request(tid: Tid, src: Id, qpc: RequestPc)

  /** The requestCancellation call that won: `any` is anyMore. */
  datatype SignalPc =
    | SSetTid                            // signallingThreadId_ = this thread
    | SScan                              // dequeue the first callback, if any
    | SUnlock(cb: Id, any: bool)
    | SSetFlag(cb: Id, any: bool)        // callback->destructorHasRunInsideCallback_ = &flag
    | SInvoke(cb: Id, any: bool)         // call the callback
    | SRunning(cb: Id, any: bool)        // the user's code is running
    | SAfter(cb: Id, any: bool)          // test the flag
    | SClear(cb: Id, any: bool)          // callback->destructorHasRunInsideCallback_ = nullptr
    | SComplete(cb: Id, any: bool)       // callback->callbackCompleted_.store(true)
    | SNext(any: bool)                   // return early, or lock again
    | SLoad | STry(seen: nat)
    | SFinalUnlock
    | SReturned                          // returned false

  datatype Signal = NoSignal | Signal(tid: Tid, src: Id, flag: bool, pc: SignalPc)

  /** Who has the lock bit; the code never reads it. */
  datatype Owner = Free | ByCall(o: Id) | BySignal

  datatype State = State(word: nat, owner: Owner, deletes: nat, list: seq<Id>, sigTid: Option<Tid>,
                         tokens: set<Id>, sources: set<Id>, cbs: map<Id, Callback>,
                         calls: map<Id, Call>, sig: Signal)

  datatype Label =
    | AddToken(x: Id) | DropToken(x: Id) | AddSource(x: Id) | DropSource(x: Id)
    | Start(o: Id) | Step(o: Id) | Destroy(cb: Id) | SignalStep

  // -------------------------------------------------------------------- steps

  predicate Cancelled(s: State) {
    s.sig.Signal?
  }

  /** A callback that owns one token reference. */
  predicate Holding(c: Callback) {
    c.registered && !c.life.Destroyed?
  }

  function HoldingSet(cbs: map<Id, Callback>): (h: set<Id>) {
    set b | b in cbs && Holding(cbs[b])
  }

  function TokenCount(s: State): (n: nat) {
    |s.tokens| + |HoldingSet(s.cbs)|
  }

  predicate TokenInUse(s: State, x: Id) {
    exists o | o in s.calls :: s.calls[o].Register? && s.calls[o].tok == x
  }

  predicate SourceInUse(s: State, x: Id) {
    || (s.sig.Signal? && !s.sig.pc.SReturned? && s.sig.src == x)
    || exists o | o in s.calls :: s.calls[o].Request? && s.calls[o].src == x
  }

  /** The signalling thread runs other calls only while the user's callback runs. */
  predicate MayRun(s: State, tid: Tid) {
    s.sig.Signal? && s.sig.tid == tid ==> s.sig.pc.SRunning? || s.sig.pc.SReturned?
  }

  function Deleted(s: State, before: nat, limit: nat): (n: nat) {
    s.deletes + Bit(before < limit)
  }

  ghost predicate RefStep(s: State, s': State, lab: Label) {
    match lab
    case AddToken(x) =>   // CancellationSource::getToken, or a token copy
      && (s.tokens != {} || s.sources != {}) && x !in s.tokens && Fits(TokenCount(s) + 1, 0)
      && s' == s.(word := Add(s.word, TOKEN_INC), tokens := s.tokens + {x})
    case AddSource(x) =>
      && s.sources != {} && x !in s.sources && Fits(0, |s.sources| + 1)
      && s' == s.(word := Add(s.word, SOURCE_INC), sources := s.sources + {x})
    case DropToken(x) =>
      && x in s.tokens && !TokenInUse(s, x)
      && s' == s.(word := Add(s.word, -(TOKEN_INC as int)), tokens := s.tokens - {x},
                  deletes := Deleted(s, s.word, 2 * TOKEN_INC))
    case DropSource(x) =>
      && x in s.sources && !SourceInUse(s, x)
      && s' == s.(word := Add(s.word, -(SOURCE_INC as int)), sources := s.sources - {x},
                  deletes := Deleted(s, s.word, SOURCE_INC + TOKEN_INC))
    case _ => false
  }

  ghost predicate StartStep(s: State, s': State, lab: Label) {
    match lab
    case Start(o) =>
      && o !in s.calls && o in s'.calls
      && var call := s'.calls[o];
         MayRun(s, call.tid) &&
         (match call
          case Register(_, cb, tok, move, pc) =>
            && pc.RLoad? && cb !in s.cbs && tok in s.tokens && (move ==> !TokenInUse(s, tok))
            && (forall p | p in s.calls && s.calls[p].Register? && s.calls[p].move :: s.calls[p].tok != tok)
            && s' == s.(calls := s.calls[o := call],
                        cbs := s.cbs[cb := Callback(Constructing, false, false, false, 0, 0)])
          case Unregister(_, cb, pc) =>
            && pc.ULoad? && cb in s.cbs && s.cbs[cb].life.Alive? && s.cbs[cb].registered
            && s' == s.(calls := s.calls[o := call], cbs := s.cbs[cb := s.cbs[cb].(life := Destroying)])
          case Request(_, src, pc) =>
            pc.QLoad? && src in s.sources && s' == s.(calls := s.calls[o := call]))
    case Destroy(cb) =>   // the destructor of a callback with no state
      && cb in s.cbs && s.cbs[cb].life.Alive? && !s.cbs[cb].registered
      && s' == s.(cbs := s.cbs[cb := s.cbs[cb].(life := Destroyed)])
    case _ => false
  }

  ghost predicate RegisterStep(s: State, s': State, o: Id)
    requires o in s.calls && s.calls[o].Register? && s.calls[o].cb in s.cbs
  {
    var call := s.calls[o];
    var c := s.cbs[call.cb];
    match call.rpc
    case RLoad => s' == s.(calls := s.calls[o := call.(rpc := RTry(s.word))])
    case RTry(seen) =>
      if IsCancelled(seen) then s' == s.(calls := s.calls[o := call.(rpc := RInline)])
      else if !CanBeCancelled(seen) then
        s' == s.(calls := s.calls - {o}, cbs := s.cbs[call.cb := c.(life := Alive)])
      else if IsLocked(seen) then s' == s.(calls := s.calls[o := call.(rpc := RLoad)])
      else
        || (&& s.word == seen
            && s' == s.(word := OrLock(seen), owner := ByCall(o), calls := s.calls[o := call.(rpc := RPush)]))
        || s' == s.(calls := s.calls[o := call.(rpc := RTry(s.word))])
    case RInline =>
      s' == s.(calls := s.calls - {o}, cbs := s.cbs[call.cb := c.(life := Alive, inlineRuns := c.inlineRuns + 1)])
    case RPush => s' == s.(list := [call.cb] + s.list, calls := s.calls[o := call.(rpc := RUnlock)])
    case RUnlock =>   // the callback takes over the moved token, or a new reference
      s' == s.(word := Add(s.word, if call.move then -(LOCK_FLAG as int) else TOKEN_INC - LOCK_FLAG),
               owner := Free, tokens := if call.move then s.tokens - {call.tok} else s.tokens,
               calls := s.calls - {o}, cbs := s.cbs[call.cb := c.(life := Alive, registered := true)])
      && (!call.move ==> Fits(TokenCount(s) + 1, 0))
  }

  function Without(list: seq<Id>, cb: Id): (r: seq<Id>)
    ensures cb !in r && (forall x :: x in r <==> x in list && x != cb)
  {
    if list == [] then [] else if list[0] == cb then Without(list[1..], cb) else [list[0]] + Without(list[1..], cb)
  }

  ghost predicate UnregisterStep(s: State, s': State, o: Id)
    requires o in s.calls && s.calls[o].Unregister? && s.calls[o].cb in s.cbs
  {
    var call := s.calls[o];
    var c := s.cbs[call.cb];
    match call.upc
    case ULoad => s' == s.(calls := s.calls[o := call.(upc := UTry(s.word))])
    case UTry(seen) =>
      if IsLocked(seen) then s' == s.(calls := s.calls[o := call.(upc := ULoad)])
      else
        || (&& s.word == seen
            && s' == s.(word := OrLock(seen), owner := ByCall(o), calls := s.calls[o := call.(upc := ULook)]))
        || s' == s.(calls := s.calls[o := call.(upc := UTry(s.word))])
    case ULook =>
      if call.cb in s.list
      then s' == s.(list := Without(s.list, call.cb), calls := s.calls[o := call.(upc := UUnlockDec)])
      else s' == s.(calls := s.calls[o := call.(upc := UUnlock)])
    case UUnlockDec =>
      s' == s.(word := Add(s.word, -((LOCK_FLAG + TOKEN_INC) as int)), owner := Free,
               deletes := Deleted(s, s.word, LOCK_FLAG + 2 * TOKEN_INC),
               calls := s.calls - {o}, cbs := s.cbs[call.cb := c.(life := Destroyed)])
    case UUnlock =>
      s' == s.(word := Add(s.word, -(LOCK_FLAG as int)), owner := Free, calls := s.calls[o := call.(upc := UCheck)])
    case UCheck =>
      s' == s.(calls := s.calls[o := call.(upc := if s.sigTid == Some(call.tid) then UTell else UAwait)])
    case UTell =>
      s' == s.(sig := if c.flagSet && s.sig.Signal? then s.sig.(flag := true) else s.sig,
               calls := s.calls[o := call.(upc := UDrop)])
    case UAwait => s' == if c.completed then s.(calls := s.calls[o := call.(upc := UDrop)]) else s
    case UDrop =>
      s' == s.(word := Add(s.word, -(TOKEN_INC as int)), deletes := Deleted(s, s.word, 2 * TOKEN_INC),
               calls := s.calls - {o}, cbs := s.cbs[call.cb := c.(life := Destroyed)])
  }

  ghost predicate RequestStep(s: State, s': State, o: Id)
    requires o in s.calls && s.calls[o].Request?
  {
    var call := s.calls[o];
    match call.qpc
    case QLoad => s' == s.(calls := s.calls[o := call.(qpc := QTry(s.word))])
    case QTry(seen) =>
      if IsCancelled(seen) then s' == s.(calls := s.calls[o := call.(qpc := QTrue)])
      else if IsLocked(seen) then s' == s.(calls := s.calls[o := call.(qpc := QLoad)])
      else
        || (s.word == seen && s' == s.(word := OrLockCancel(seen), owner := BySignal, calls := s.calls - {o},
                                       sig := Signal(call.tid, call.src, false, SSetTid)))
        || s' == s.(calls := s.calls[o := call.(qpc := QTry(s.word))])
    case QTrue => s' == s.(calls := s.calls - {o})   // returns true
  }

  predicate CurrentIs(s: State, cb: Id) {
    s.sig.Signal? &&
    match s.sig.pc
    case SUnlock(b, _) => b == cb
    case SSetFlag(b, _) => b == cb
    case SInvoke(b, _) => b == cb
    case SRunning(b, _) => b == cb
    case SAfter(b, _) => b == cb
    case SClear(b, _) => b == cb
    case SComplete(b, _) => b == cb
    case _ => false
  }

  /** Taking and giving up the lock, and taking the first callback from the list. */
  ghost predicate SignalLockStep(s: State, s': State)
    requires s.sig.Signal?
  {
    var g := s.sig;
    match g.pc
    case SSetTid => s' == s.(sigTid := Some(g.tid), sig := g.(pc := SScan))
    case SScan =>
      if s.list == [] then s' == s.(sig := g.(pc := SFinalUnlock))
      else s' == s.(list := s.list[1..], sig := g.(pc := SUnlock(s.list[0], |s.list| > 1)))
    case SUnlock(cb, any) =>
      s' == s.(word := Add(s.word, -(LOCK_FLAG as int)), owner := Free, sig := g.(pc := SSetFlag(cb, any)))
    case SNext(any) => s' == s.(sig := g.(pc := if any then SLoad else SReturned))
    case SLoad => s' == s.(sig := g.(pc := STry(s.word)))
    case STry(seen) =>
      if IsLocked(seen) then s' == s.(sig := g.(pc := SLoad))
      else
        || (s.word == seen && s' == s.(word := OrLock(seen), owner := BySignal, sig := g.(pc := SScan)))
        || s' == s.(sig := g.(pc := STry(s.word)))
    case SFinalUnlock =>
      s' == s.(word := Add(s.word, -(LOCK_FLAG as int)), owner := Free, sig := g.(pc := SReturned))
    case _ => false
  }

  /** Running the callback that was taken. */
  ghost predicate SignalRunStep(s: State, s': State)
    requires s.sig.Signal?
  {
    var g := s.sig;
    match g.pc
    case SSetFlag(cb, any) =>
      && cb in s.cbs
      && s' == s.(cbs := s.cbs[cb := s.cbs[cb].(flagSet := true)], sig := g.(flag := false, pc := SInvoke(cb, any)))
    case SInvoke(cb, any) =>
      && cb in s.cbs
      && s' == s.(cbs := s.cbs[cb := s.cbs[cb].(signalRuns := s.cbs[cb].signalRuns + 1)],
                  sig := g.(pc := SRunning(cb, any)))
    case SRunning(cb, any) =>   // the callback returns, so the calls it made have returned
      && (forall o | o in s.calls :: s.calls[o].tid != g.tid)
      && s' == s.(sig := g.(pc := SAfter(cb, any)))
    case SAfter(cb, any) => s' == s.(sig := g.(pc := if g.flag then SNext(any) else SClear(cb, any)))
    case SClear(cb, any) =>
      cb in s.cbs && s' == s.(cbs := s.cbs[cb := s.cbs[cb].(flagSet := false)], sig := g.(pc := SComplete(cb, any)))
    case SComplete(cb, any) =>
      cb in s.cbs && s' == s.(cbs := s.cbs[cb := s.cbs[cb].(completed := true)], sig := g.(pc := SNext(any)))
    case _ => false
  }

  ghost predicate SigStep(s: State, s': State)
    requires s.sig.Signal?
  {
    SignalLockStep(s, s') || SignalRunStep(s, s')
  }

  ghost predicate Next(s: State, s': State, lab: Label) {
    match lab
    case Step(o) =>
      && o in s.calls && MayRun(s, s.calls[o].tid)
      && (match s.calls[o]
          case Register(_, cb, _, _, _) => cb in s.cbs && RegisterStep(s, s', o)
          case Unregister(_, cb, _) => cb in s.cbs && UnregisterStep(s, s', o)
          case Request(_, _, _) => RequestStep(s, s', o))
    case SignalStep => s.sig.Signal? && SigStep(s, s')
    case Start(_) => StartStep(s, s', lab)
    case Destroy(_) => StartStep(s, s', lab)
    case _ => RefStep(s, s', lab)
  }

  ghost predicate Init(s: State) {
    exists x: Id :: s == State(SOURCE_INC, Free, 0, [], None, {}, {x}, map[], map[], NoSignal)
  }

  // -------------------------------------------------------------------- invariant

  ghost predicate WordInv(s: State) {
    && Fits(TokenCount(s), |s.sources|)
    && s.word == Pack(Cancelled(s), !s.owner.Free?, TokenCount(s), |s.sources|)
    && s.deletes == Bit(TokenCount(s) == 0 && |s.sources| == 0)
  }

  predicate CallHolds(call: Call) {
    match call
    case Register(_, _, _, _, pc) => pc.RPush? || pc.RUnlock?
    case Unregister(_, _, pc) => pc.ULook? || pc.UUnlockDec? || pc.UUnlock?
    case Request(_, _, _) => false
  }

  predicate SignalHolds(g: Signal) {
    g.Signal? && (g.pc.SSetTid? || g.pc.SScan? || g.pc.SUnlock? || g.pc.SFinalUnlock?)
  }

  ghost predicate OwnerInv(s: State) {
    && (forall o | o in s.calls :: CallHolds(s.calls[o]) <==> s.owner == ByCall(o))
    && (s.owner.ByCall? ==> s.owner.o in s.calls)
    && (SignalHolds(s.sig) <==> s.owner.BySignal?)
  }

  /** A call keeps the token or source it works with. */
  ghost predicate RefInv(s: State) {
    && (forall o | o in s.calls ::
          && (s.calls[o].Register? ==> s.calls[o].tok in s.tokens)
          && (s.calls[o].Request? ==> s.calls[o].src in s.sources))
    && (forall o, p | o in s.calls && p in s.calls && o != p && s.calls[o].Register? && s.calls[p].Register?
                      && s.calls[o].move :: s.calls[o].tok != s.calls[p].tok)
    && (s.sig.Signal? && !s.sig.pc.SReturned? ==> s.sig.src in s.sources)
  }

  /** What a word loaded earlier still tells about the present. */
  predicate SeenOk(s: State, seen: nat) {
    && (IsCancelled(seen) ==> Cancelled(s))
    && (!CanBeCancelled(seen) ==> s.sources == {} && !Cancelled(s))
  }

  predicate BeingAdded(s: State, cb: Id) {
    && s.owner.ByCall? && s.owner.o in s.calls
    && var call := s.calls[s.owner.o];
       call.Register? && call.rpc.RUnlock? && call.cb == cb
  }

  predicate BeingRemoved(s: State, cb: Id) {
    && s.owner.ByCall? && s.owner.o in s.calls
    && var call := s.calls[s.owner.o];
       call.Unregister? && call.upc.UUnlockDec? && call.cb == cb
  }

  predicate Invoked(pc: SignalPc) {
    pc.SRunning? || pc.SAfter? || pc.SClear? || pc.SComplete?
  }

  predicate FlagSetAt(pc: SignalPc) {
    pc.SInvoke? || pc.SRunning? || pc.SAfter? || pc.SClear?
  }

  /** A destructor that ran inside the callback is about to give up its reference. */
  ghost predicate DropPending(s: State, cb: Id) {
    exists o :: o in s.calls && IsDropBySignaller(s, s.calls[o], cb)
  }

  predicate IsDropBySignaller(s: State, call: Call, cb: Id) {
    call.Unregister? && call.upc.UDrop? && call.cb == cb && s.sig.Signal? && call.tid == s.sig.tid
  }

  /** A registered callback that the signalling thread has taken from the list and is dealing with. */
  ghost predicate CurrentOk(s: State, cb: Id, c: Callback)
    requires s.sig.Signal?
  {
    && c.registered && cb !in s.list && !c.completed
    && c.signalRuns == Bit(Invoked(s.sig.pc)) && c.flagSet == FlagSetAt(s.sig.pc)
    && (c.life.Destroyed? ==> (s.sig.pc.SRunning? || s.sig.pc.SAfter?) && s.sig.flag)
    && (s.sig.pc.SRunning? && s.sig.flag ==> c.life.Destroyed? || DropPending(s, cb))
    && (s.sig.pc.SAfter? && s.sig.flag ==> c.life.Destroyed?)
    && (s.sig.pc.SInvoke? ==> !s.sig.flag)
  }

  predicate OthersOk(s: State, cb: Id, c: Callback) {
    && (cb in s.list ==> c.signalRuns == 0 && !c.life.Destroyed?)
    && (c.flagSet ==> c.life.Destroyed?)
    && (c.completed ==> c.signalRuns == 1)
    && (c.signalRuns == 1 ==> c.completed || c.life.Destroyed?)
    && (cb !in s.list && c.signalRuns == 0 ==> c.life.Destroyed? || BeingRemoved(s, cb))
  }

  ghost predicate CbInv(s: State, cb: Id, c: Callback) {
    && c.inlineRuns + c.signalRuns <= 1
    && (c.inlineRuns + c.signalRuns == 1 ==> Cancelled(s))
    && (c.signalRuns == 1 ==> s.sigTid.Some?)
    && if c.life.Constructing? then
         && c == Callback(Constructing, false, false, false, 0, 0) && !CurrentIs(s, cb)
         && (cb in s.list ==> BeingAdded(s, cb))
       else if !c.registered then
         && !c.flagSet && !c.completed && c.signalRuns == 0 && cb !in s.list && !CurrentIs(s, cb)
         && !c.life.Destroying?
         && (c.inlineRuns == 0 ==> s.sources == {} && !Cancelled(s))
       else
         && c.inlineRuns == 0
         && if CurrentIs(s, cb) then CurrentOk(s, cb, c) else OthersOk(s, cb, c)
  }

  predicate CallInv(s: State, call: Call) {
    match call
    case Register(_, cb, _, _, pc) =>
      && cb in s.cbs && s.cbs[cb].life.Constructing? && (cb in s.list <==> pc.RUnlock?)
      && (pc.RPush? || pc.RUnlock? ==> !Cancelled(s))
      && (pc.RInline? ==> Cancelled(s))
      && (pc.RTry? ==> SeenOk(s, pc.seen))
    case Unregister(tid, cb, pc) =>
      && cb in s.cbs && s.cbs[cb].life.Destroying? && s.cbs[cb].registered
      && (pc.UUnlockDec? ==> cb !in s.list && !CurrentIs(s, cb) && s.cbs[cb].signalRuns == 0)
      && (pc.UUnlock? || pc.UCheck? || pc.UTell? || pc.UAwait? ==>
            && cb !in s.list && (CurrentIs(s, cb) || s.cbs[cb].completed)
            && s.sig.Signal? && s.sigTid == Some(s.sig.tid))
      && (pc.UTell? ==> s.sigTid == Some(tid))
      && (pc.UAwait? ==> s.sigTid != Some(tid))
      && (pc.UDrop? ==>
            && cb !in s.list
            && (s.cbs[cb].completed ||
                (s.sig.Signal? && s.sig.tid == tid && s.sig.pc.SRunning? && s.sig.pc.cb == cb && s.sig.flag)))
    case Request(_, _, pc) =>
      && (pc.QTrue? ==> Cancelled(s))
      && (pc.QTry? ==> SeenOk(s, pc.seen))
  }

  predicate SignalInv(s: State) {
    if s.sig.NoSignal? then s.sigTid == None
    else
      && (if s.sig.pc.SSetTid? then s.sigTid == None else s.sigTid == Some(s.sig.tid))
      && (match s.sig.pc
          case SUnlock(cb, any) => cb in s.cbs && s.cbs[cb].registered && (!any ==> s.list == [])
          case SSetFlag(cb, any) => cb in s.cbs && s.cbs[cb].registered && (!any ==> s.list == [])
          case SInvoke(cb, any) => cb in s.cbs && s.cbs[cb].registered && (!any ==> s.list == [])
          case SRunning(cb, any) => cb in s.cbs && s.cbs[cb].registered && (!any ==> s.list == [])
          case SAfter(cb, any) => cb in s.cbs && s.cbs[cb].registered && (!any ==> s.list == [])
          case SClear(cb, any) => cb in s.cbs && s.cbs[cb].registered && (!any ==> s.list == [])
          case SComplete(cb, any) => cb in s.cbs && s.cbs[cb].registered && (!any ==> s.list == [])
          case SNext(any) => !any ==> s.list == []
          case SFinalUnlock => s.list == []
          case SReturned => s.list == []
          case _ => true)
  }

  ghost predicate ListInv(s: State) {
    Distinct(s.list) && forall cb | cb in s.list :: cb in s.cbs
  }

  /** At most one constructor or destructor call per callback object. */
  ghost predicate OneCallEach(s: State) {
    forall o, p | o in s.calls && p in s.calls && !s.calls[o].Request? && !s.calls[p].Request? ::
      s.calls[o].cb == s.calls[p].cb ==> o == p
  }

  ghost predicate Inv(s: State) {
    && WordInv(s) && OwnerInv(s) && RefInv(s) && SignalInv(s) && ListInv(s) && OneCallEach(s)
    && (forall cb | cb in s.cbs :: CbInv(s, cb, s.cbs[cb]))
    && (forall o | o in s.calls :: CallInv(s, s.calls[o]))
  }

  lemma InvParts(s: State)
    requires Inv(s)
    ensures WordInv(s) && OwnerInv(s) && RefInv(s) && SignalInv(s) && ListInv(s) && OneCallEach(s)
  {
  }

  lemma InvCb(s: State, cb: Id)
    requires Inv(s) && cb in s.cbs
    ensures CbInv(s, cb, s.cbs[cb])
  {
  }

  lemma InvCall(s: State, o: Id)
    requires Inv(s) && o in s.calls
    ensures CallInv(s, s.calls[o])
  {
  }

  lemma InitInv(s: State)
    requires Init(s)
    ensures Inv(s)
  {
    assert HoldingSet(s.cbs) == {};
  }

  // -------------------------------------------------------------------- the word

  lemma HoldingUpdate(cbs: map<Id, Callback>, cb: Id, c: Callback)
    ensures |HoldingSet(cbs[cb := c])| == |HoldingSet(cbs)| - Bit(cb in cbs && Holding(cbs[cb])) + Bit(Holding(c))
  {
    var a, b := HoldingSet(cbs), HoldingSet(cbs[cb := c]);
    forall x
      ensures x in a - {cb} <==> x in b - {cb}
    {
    }
    assert a - {cb} == b - {cb};
    CardWithout(a, cb);
    CardWithout(b, cb);
  }

  /** The word after a step that adds `d`, given the new counts. */
  lemma WordAdds(s: State, s': State, d: int)
    requires WordInv(s) && Fits(TokenCount(s'), |s'.sources|) && Cancelled(s') == Cancelled(s)
    requires s'.word == Add(s.word, d)
    requires d == LOCK_FLAG * (Bit(!s'.owner.Free?) - Bit(!s.owner.Free?))
                  + TOKEN_INC * (TokenCount(s') - TokenCount(s)) + SOURCE_INC * (|s'.sources| - |s.sources|)
    ensures s'.word == Pack(Cancelled(s'), !s'.owner.Free?, TokenCount(s'), |s'.sources|)
  {
    PackAdds(Cancelled(s), !s.owner.Free?, TokenCount(s), |s.sources|,
             !s'.owner.Free?, TokenCount(s'), |s'.sources|, d);
  }

  /** What the delete tests of the three decrements compute. */
  lemma DeleteTests(s: State)
    requires WordInv(s)
    ensures s.word < 2 * TOKEN_INC <==> |s.sources| == 0 && TokenCount(s) <= 1
    ensures !s.owner.Free? ==> (s.word < LOCK_FLAG + 2 * TOKEN_INC <==> |s.sources| == 0 && TokenCount(s) <= 1)
    ensures s.word < SOURCE_INC + TOKEN_INC <==> |s.sources| == 0 || (|s.sources| == 1 && TokenCount(s) == 0)
    ensures IsCancelled(s.word) == Cancelled(s) && IsLocked(s.word) == !s.owner.Free?
    ensures CanBeCancelled(s.word) == (|s.sources| > 0 || Cancelled(s))
  {
    PackReads(Cancelled(s), !s.owner.Free?, TokenCount(s), |s.sources|);
  }

  lemma AddWord(s: State, s': State, lab: Label)
    requires WordInv(s) && RefStep(s, s', lab) && (lab.AddToken? || lab.AddSource?)
    ensures WordInv(s')
  {
    hide Pack, Add, TokenInUse, SourceInUse, HoldingSet;
    if lab.AddToken? {
      CardWithout(s'.tokens, lab.x);
      assert s'.tokens - {lab.x} == s.tokens;
      WordAdds(s, s', TOKEN_INC);
    } else {
      CardWithout(s'.sources, lab.x);
      assert s'.sources - {lab.x} == s.sources;
      WordAdds(s, s', SOURCE_INC);
    }
  }

  lemma DropWord(s: State, s': State, lab: Label)
    requires WordInv(s) && RefStep(s, s', lab) && (lab.DropToken? || lab.DropSource?)
    ensures WordInv(s')
  {
    hide Pack, Add, TokenInUse, SourceInUse, HoldingSet;
    DeleteTests(s);
    if lab.DropToken? {
      CardWithout(s.tokens, lab.x);
      WordAdds(s, s', -(TOKEN_INC as int));
    } else {
      CardWithout(s.sources, lab.x);
      WordAdds(s, s', -(SOURCE_INC as int));
    }
  }

  /** The counts, the cancel bit and the deletions are unchanged; the lock may have been taken. */
  ghost predicate SameCounts(s: State, s': State) {
    && TokenCount(s') == TokenCount(s) && s'.sources == s.sources && s'.deletes == s.deletes
    && Cancelled(s') == Cancelled(s)
    && (|| (s'.word == s.word && s'.owner.Free? == s.owner.Free?)
        || (!IsLocked(s.word) && s'.word == OrLock(s.word) && !s'.owner.Free?))
  }

  lemma CountsWord(s: State, s': State)
    requires WordInv(s) && SameCounts(s, s')
    ensures WordInv(s')
  {
    hide Pack, OrLock, IsLocked, TokenCount;
    PackReads(Cancelled(s), !s.owner.Free?, TokenCount(s), |s.sources|);
  }

  lemma RegisterCounts(s: State, s': State, o: Id)
    requires o in s.calls && s.calls[o].Register? && s.calls[o].cb in s.cbs && RegisterStep(s, s', o)
    requires !s.calls[o].rpc.RUnlock? && !s.cbs[s.calls[o].cb].registered
    ensures SameCounts(s, s')
  {
    hide OrLock, HoldingSet, IsCancelled, IsLocked, CanBeCancelled;
    var cb := s.calls[o].cb;
    HoldingUpdate(s.cbs, cb, s.cbs[cb].(life := Alive));
    HoldingUpdate(s.cbs, cb, s.cbs[cb].(life := Alive, inlineRuns := s.cbs[cb].inlineRuns + 1));
  }

  lemma RegisterUnlockWord(s: State, s': State, o: Id)
    requires WordInv(s) && RefInv(s) && o in s.calls && s.calls[o].Register? && s.calls[o].cb in s.cbs
             && RegisterStep(s, s', o)
    requires s.calls[o].rpc.RUnlock? && !s.cbs[s.calls[o].cb].registered && !s.owner.Free?
    ensures WordInv(s')
  {
    hide Pack, Add, HoldingSet;
    var call := s.calls[o];
    HoldingUpdate(s.cbs, call.cb, s'.cbs[call.cb]);
    CardWithout(s.tokens, call.tok);
    WordAdds(s, s', if call.move then -(LOCK_FLAG as int) else TOKEN_INC - LOCK_FLAG);
  }

  lemma RegisterWord(s: State, s': State, o: Id)
    requires Inv(s) && o in s.calls && s.calls[o].Register? && s.calls[o].cb in s.cbs && RegisterStep(s, s', o)
    ensures WordInv(s')
  {
    hide Inv, WordInv, RefInv, RegisterStep, CbInv, OneCallEach, ListInv, SignalInv, SameCounts;
    InvParts(s);
    InvCall(s, o);
    InvCb(s, s.calls[o].cb);
    RegisteredHolds(s, s.calls[o].cb);
    if s.calls[o].rpc.RUnlock? {
      RegisterUnlockWord(s, s', o);
    } else {
      RegisterCounts(s, s', o);
      CountsWord(s, s');
    }
  }

  lemma RegisteredHolds(s: State, cb: Id)
    requires cb in s.cbs && CbInv(s, cb, s.cbs[cb])
    ensures s.cbs[cb].life.Constructing? ==> !s.cbs[cb].registered
  {
  }

  lemma UnregisterCounts(s: State, s': State, o: Id)
    requires o in s.calls && s.calls[o].Unregister? && s.calls[o].cb in s.cbs && UnregisterStep(s, s', o)
    requires !s.calls[o].upc.UUnlockDec? && !s.calls[o].upc.UUnlock? && !s.calls[o].upc.UDrop?
    ensures SameCounts(s, s')
  {
    hide OrLock, HoldingSet, IsLocked, Without;
  }

  lemma UnregisterWord(s: State, s': State, o: Id)
    requires Inv(s) && o in s.calls && s.calls[o].Unregister? && s.calls[o].cb in s.cbs && UnregisterStep(s, s', o)
    ensures WordInv(s')
  {
    hide Inv, CallInv, RefInv, CbInv, OneCallEach, ListInv, SignalInv, SameCounts, UnregisterStep, WordInv;
    InvParts(s);
    InvCall(s, o);
    var pc := s.calls[o].upc;
    if pc.UUnlockDec? || pc.UUnlock? || pc.UDrop? {
      UnregisterDropWord(s, s', o);
    } else {
      UnregisterCounts(s, s', o);
      CountsWord(s, s');
    }
  }

  lemma UnregisterDropWord(s: State, s': State, o: Id)
    requires WordInv(s) && o in s.calls && s.calls[o].Unregister? && s.calls[o].cb in s.cbs && UnregisterStep(s, s', o)
    requires OwnerInv(s) && CallInv(s, s.calls[o])
    requires s.calls[o].upc.UUnlockDec? || s.calls[o].upc.UUnlock? || s.calls[o].upc.UDrop?
    ensures WordInv(s')
  {
    hide Pack, Add, HoldingSet, IsLocked, Without;
    DeleteTests(s);
    HoldingUpdate(s.cbs, s.calls[o].cb, s.cbs[s.calls[o].cb].(life := Destroyed));
    match s.calls[o].upc
    case UUnlockDec => WordAdds(s, s', -((LOCK_FLAG + TOKEN_INC) as int));
    case UUnlock => WordAdds(s, s', -(LOCK_FLAG as int));
    case UDrop => WordAdds(s, s', -(TOKEN_INC as int));
  }

  lemma RequestWord(s: State, s': State, o: Id)
    requires Inv(s) && o in s.calls && s.calls[o].Request? && RequestStep(s, s', o)
    ensures WordInv(s')
  {
    hide Inv, Pack, OrLockCancel, HoldingSet, IsLocked, IsCancelled, CbInv, OneCallEach, ListInv, SignalInv;
    InvParts(s);
    DeleteTests(s);
    PackReads(Cancelled(s), !s.owner.Free?, TokenCount(s), |s.sources|);
  }

  lemma SignalCounts(s: State, s': State)
    requires s.sig.Signal? && SigStep(s, s') && !s.sig.pc.SUnlock? && !s.sig.pc.SFinalUnlock?
    ensures SameCounts(s, s')
  {
    hide OrLock, HoldingSet, IsLocked;
    if SignalRunStep(s, s') && s'.cbs != s.cbs {
      HoldingUpdate(s.cbs, s.sig.pc.cb, s'.cbs[s.sig.pc.cb]);
    }
  }

  lemma SignalUnlockWord(s: State, s': State)
    requires WordInv(s) && OwnerInv(s) && s.sig.Signal? && SigStep(s, s')
             && (s.sig.pc.SUnlock? || s.sig.pc.SFinalUnlock?)
    ensures WordInv(s')
  {
    hide Pack, Add, HoldingSet, CallHolds;
    WordAdds(s, s', -(LOCK_FLAG as int));
  }

  lemma SignalWord(s: State, s': State)
    requires Inv(s) && s.sig.Signal? && SigStep(s, s')
    ensures WordInv(s')
  {
    hide Inv, WordInv, OwnerInv, SigStep, OneCallEach, ListInv, SameCounts;
    InvParts(s);
    if s.sig.pc.SUnlock? || s.sig.pc.SFinalUnlock? {
      SignalUnlockWord(s, s');
    } else {
      SignalCounts(s, s');
      CountsWord(s, s');
    }
  }

  lemma StartWord(s: State, s': State, lab: Label)
    requires Inv(s) && StartStep(s, s', lab)
    ensures WordInv(s')
  {
    hide Inv, Pack, HoldingSet, CbInv, OneCallEach, ListInv, SignalInv;
    InvParts(s);
    match lab
    case Start(o) =>
      match s'.calls[o] {
        case Register(_, cb, _, _, _) => HoldingUpdate(s.cbs, cb, s'.cbs[cb]);
        case Unregister(_, cb, _) => HoldingUpdate(s.cbs, cb, s'.cbs[cb]);
        case Request(_, _, _) =>
      }
    case Destroy(cb) => HoldingUpdate(s.cbs, cb, s'.cbs[cb]);
    case _ =>
  }

  lemma StepWord(s: State, s': State, lab: Label)
    requires Inv(s) && Next(s, s', lab)
    ensures WordInv(s')
  {
    hide Inv, WordInv, RefStep, StartStep, RegisterStep, UnregisterStep, RequestStep, SigStep, MayRun;
    InvParts(s);
    match lab
    case Step(o) =>
      match s.calls[o] {
        case Register(_, _, _, _, _) => RegisterWord(s, s', o);
        case Unregister(_, _, _) => UnregisterWord(s, s', o);
        case Request(_, _, _) => RequestWord(s, s', o);
      }
    case SignalStep => SignalWord(s, s');
    case Start(_) => StartWord(s, s', lab);
    case Destroy(_) => StartWord(s, s', lab);
    case AddToken(_) => AddWord(s, s', lab);
    case AddSource(_) => AddWord(s, s', lab);
    case DropToken(_) => DropWord(s, s', lab);
    case DropSource(_) => DropWord(s, s', lab);
  }

  // -------------------------------------------------------------------- owners and references

  predicate SameCall(a: Call, b: Call) {
    match a
    case Register(tid, cb, tok, move, _) =>
      b.Register? && b.tid == tid && b.cb == cb && b.tok == tok && b.move == move
    case Unregister(tid, cb, _) => b.Unregister? && b.tid == tid && b.cb == cb
    case Request(tid, src, _) => b.Request? && b.tid == tid && b.src == src
  }

  predicate HoldsAt(s: State, o: Id) {
    o in s.calls && CallHolds(s.calls[o])
  }

  /** What a step of call `o` does to the calls, the lock and the references. */
  ghost predicate CallEffect(s: State, s': State, o: Id) {
    && o in s.calls
    && (|| s'.calls == s.calls - {o}
        || (o in s'.calls && s'.calls == s.calls[o := s'.calls[o]] && SameCall(s.calls[o], s'.calls[o])))
    && s'.sources == s.sources
    && (s'.sig.Signal? && s.sig.Signal? ==> s'.sig.tid == s.sig.tid && s'.sig.src == s.sig.src && s'.sig.pc == s.sig.pc)
    && (s.sig.Signal? ==> s'.sig.Signal?)
    && (s'.tokens == s.tokens
        || (s.calls[o].Register? && s.calls[o].move && o !in s'.calls && s'.tokens == s.tokens - {s.calls[o].tok}))
    && (if s'.sig.Signal? && s.sig.NoSignal? then
          && !IsLocked(s.word) && s'.owner == BySignal && !HoldsAt(s, o) && o !in s'.calls && SignalHolds(s'.sig)
          && s.calls[o].Request? && s'.sig == Signal(s.calls[o].tid, s.calls[o].src, false, SSetTid)
        else if HoldsAt(s, o) then s'.owner == if HoldsAt(s', o) then s.owner else Free
        else if HoldsAt(s', o) then !IsLocked(s.word) && s'.owner == ByCall(o)
        else s'.owner == s.owner)
  }

  ghost predicate AnyCallStep(s: State, s': State, o: Id) {
    && o in s.calls
    && match s.calls[o]
       case Register(_, cb, _, _, _) => cb in s.cbs && RegisterStep(s, s', o)
       case Unregister(_, cb, _) => cb in s.cbs && UnregisterStep(s, s', o)
       case Request(_, _, _) => RequestStep(s, s', o)
  }

  lemma RegisterEffects(s: State, s': State, o: Id)
    requires o in s.calls && s.calls[o].Register? && s.calls[o].cb in s.cbs && RegisterStep(s, s', o)
    requires IsLocked(s.word) == !s.owner.Free?
    ensures CallEffect(s, s', o)
  {
    hide Add, OrLock, IsLocked, IsCancelled, CanBeCancelled, TokenCount;
  }

  lemma UnregisterEffects(s: State, s': State, o: Id)
    requires o in s.calls && s.calls[o].Unregister? && s.calls[o].cb in s.cbs && UnregisterStep(s, s', o)
    requires IsLocked(s.word) == !s.owner.Free?
    ensures CallEffect(s, s', o)
  {
    hide Add, OrLock, IsLocked, Without, Deleted;
  }

  lemma RequestEffects(s: State, s': State, o: Id)
    requires o in s.calls && s.calls[o].Request? && RequestStep(s, s', o)
    requires IsLocked(s.word) == !s.owner.Free? && IsCancelled(s.word) == Cancelled(s)
    ensures CallEffect(s, s', o)
  {
    hide OrLockCancel, IsLocked, IsCancelled;
  }

  lemma CallEffects(s: State, s': State, o: Id)
    requires AnyCallStep(s, s', o) && IsLocked(s.word) == !s.owner.Free? && IsCancelled(s.word) == Cancelled(s)
    ensures CallEffect(s, s', o)
  {
    hide CallEffect, RegisterStep, UnregisterStep, RequestStep, IsLocked, IsCancelled;
    match s.calls[o]
    case Register(_, _, _, _, _) => RegisterEffects(s, s', o);
    case Unregister(_, _, _) => UnregisterEffects(s, s', o);
    case Request(_, _, _) => RequestEffects(s, s', o);
  }

  lemma CallOwner(s: State, s': State, o: Id)
    requires OwnerInv(s) && CallEffect(s, s', o) && IsLocked(s.word) == !s.owner.Free?
    ensures OwnerInv(s')
  {
    hide IsLocked, CallHolds;
  }

  lemma SignalOwner(s: State, s': State)
    requires OwnerInv(s) && IsLocked(s.word) == !s.owner.Free? && s.sig.Signal? && SigStep(s, s')
    ensures OwnerInv(s')
  {
    hide Add, OrLock, IsLocked, CallHolds, SignalLockStep, SignalRunStep;
    if SignalLockStep(s, s') {
      LockStepOwner(s, s');
    } else {
      RunStepOwner(s, s');
    }
  }

  lemma LockStepOwner(s: State, s': State)
    requires OwnerInv(s) && IsLocked(s.word) == !s.owner.Free? && s.sig.Signal? && SignalLockStep(s, s')
    ensures OwnerInv(s')
  {
    hide Add, OrLock, IsLocked, CallHolds;
  }

  lemma RunStepOwner(s: State, s': State)
    requires OwnerInv(s) && s.sig.Signal? && SignalRunStep(s, s')
    ensures OwnerInv(s')
  {
    hide CallHolds;
  }

  lemma CallRef(s: State, s': State, o: Id)
    requires RefInv(s) && CallEffect(s, s', o)
    ensures RefInv(s')
  {
    hide IsLocked, CallHolds;
  }

  lemma CallOneEach(s: State, s': State, o: Id)
    requires OneCallEach(s) && CallEffect(s, s', o)
    ensures OneCallEach(s')
  {
    hide IsLocked, CallHolds;
  }

  lemma StepOwner(s: State, s': State, lab: Label)
    requires Inv(s) && Next(s, s', lab)
    ensures OwnerInv(s') && RefInv(s')
  {
    hide Inv, WordInv, RegisterStep, UnregisterStep, RequestStep, SigStep, CallEffect, IsLocked;
    InvParts(s);
    DeleteTests(s);
    match lab
    case Step(o) =>
      CallEffects(s, s', o);
      CallOwner(s, s', o);
      CallRef(s, s', o);
    case SignalStep =>
      SignalOwner(s, s');
      SignalRef(s, s');
    case _ => OutsideOwner(s, s', lab);
  }

  lemma SignalRef(s: State, s': State)
    requires RefInv(s) && s.sig.Signal? && SigStep(s, s')
    ensures RefInv(s')
  {
    hide Add, OrLock, IsLocked;
  }

  lemma OutsideOwner(s: State, s': State, lab: Label)
    requires OwnerInv(s) && RefInv(s) && Next(s, s', lab) && !lab.Step? && !lab.SignalStep?
    ensures OwnerInv(s') && RefInv(s')
  {
    hide OwnerInv, RefInv, RefStep, StartStep;
    if lab.Start? || lab.Destroy? {
      StartOwner(s, s', lab);
    } else {
      CountOwner(s, s', lab);
    }
  }

  lemma StartOwner(s: State, s': State, lab: Label)
    requires OwnerInv(s) && RefInv(s) && StartStep(s, s', lab)
    ensures OwnerInv(s') && RefInv(s')
  {
    hide MayRun;
  }

  lemma CountOwner(s: State, s': State, lab: Label)
    requires OwnerInv(s) && RefInv(s) && RefStep(s, s', lab)
    ensures OwnerInv(s') && RefInv(s')
  {
    hide Add, TokenCount, Deleted, CallHolds;
  }

  // -------------------------------------------------------------------- callbacks

  /** Everything a callback's invariant depends on is unchanged, or has only become stronger. */
  ghost predicate SameView(s: State, s': State, cb: Id) {
    && (cb in s'.list <==> cb in s.list)
    && (CurrentIs(s', cb) <==> CurrentIs(s, cb))
    && (CurrentIs(s, cb) ==> s'.sig.pc == s.sig.pc && s'.sig.flag == s.sig.flag)
    && (DropPending(s, cb) ==> DropPending(s', cb))
    && Cancelled(s') == Cancelled(s) && (s.sigTid.Some? ==> s'.sigTid.Some?)
    && (s.sources == {} ==> s'.sources == {})
    && (BeingAdded(s, cb) ==> BeingAdded(s', cb))
    && (BeingRemoved(s, cb) ==> BeingRemoved(s', cb))
  }

  lemma CbFrame(s: State, s': State, cb: Id, c: Callback)
    requires CbInv(s, cb, c) && SameView(s, s', cb)
    ensures CbInv(s', cb, c)
  {
    hide BeingAdded, BeingRemoved;
  }

  lemma DropStaysPending(s: State, s': State, cb: Id)
    requires s'.sig.Signal? == s.sig.Signal? && (s.sig.Signal? ==> s'.sig.tid == s.sig.tid)
    requires forall p | p in s.calls && s.calls[p].Unregister? && s.calls[p].cb == cb ::
               p in s'.calls && s'.calls[p] == s.calls[p]
    ensures DropPending(s, cb) ==> DropPending(s', cb)
  {
    if DropPending(s, cb) {
      var p :| p in s.calls && IsDropBySignaller(s, s.calls[p], cb);
      assert p in s'.calls && IsDropBySignaller(s', s'.calls[p], cb);
    }
  }

  /** A step of call `o` leaves callback `x`, which it is not about, and what the signaller does alone. */
  ghost predicate Untouched(s: State, s': State, o: Id, x: Id)
    requires o in s.calls
  {
    && (x in s'.list <==> x in s.list) && s'.sigTid == s.sigTid
    && (x in s.cbs <==> x in s'.cbs) && (x in s.cbs ==> s'.cbs[x] == s.cbs[x])
    && (s'.sig == s.sig
        || (s.sig.NoSignal? && s'.sig.Signal?)
        || (s.sig.Signal? && s'.sig == s.sig.(flag := true) && s.calls[o].Unregister? && s.calls[o].cb in s.cbs
            && s.cbs[s.calls[o].cb].flagSet))
  }

  lemma RegisterElsewhere(s: State, s': State, o: Id, x: Id)
    requires o in s.calls && s.calls[o].Register? && s.calls[o].cb in s.cbs && RegisterStep(s, s', o)
             && s.calls[o].cb != x
    ensures Untouched(s, s', o, x)
  {
    hide Add, OrLock, IsLocked, IsCancelled, CanBeCancelled, TokenCount;
  }

  lemma UnregisterElsewhere(s: State, s': State, o: Id, x: Id)
    requires o in s.calls && s.calls[o].Unregister? && s.calls[o].cb in s.cbs && UnregisterStep(s, s', o)
             && s.calls[o].cb != x
    ensures Untouched(s, s', o, x)
  {
    hide Add, OrLock, IsLocked, Without, Deleted;
  }

  lemma CallElsewhere(s: State, s': State, o: Id, x: Id)
    requires AnyCallStep(s, s', o) && (s.calls[o].Request? || s.calls[o].cb != x)
    requires IsCancelled(s.word) == Cancelled(s)
    ensures Untouched(s, s', o, x)
  {
    hide Untouched, RegisterStep, UnregisterStep, IsLocked, IsCancelled, OrLockCancel;
    match s.calls[o]
    case Register(_, _, _, _, _) => RegisterElsewhere(s, s', o, x);
    case Unregister(_, _, _) => UnregisterElsewhere(s, s', o, x);
    case Request(_, _, _) => RequestElsewhere(s, s', o, x);
  }

  lemma RequestElsewhere(s: State, s': State, o: Id, x: Id)
    requires o in s.calls && s.calls[o].Request? && RequestStep(s, s', o) && IsCancelled(s.word) == Cancelled(s)
    ensures Untouched(s, s', o, x)
  {
    hide IsLocked, IsCancelled, OrLockCancel;
  }

  /** Steps of one call do not disturb the view of the callbacks it is not about. */
  lemma CallView(s: State, s': State, o: Id, cb: Id)
    requires CallEffect(s, s', o) && Untouched(s, s', o, cb) && OwnerInv(s) && IsLocked(s.word) == !s.owner.Free?
    requires s.calls[o].Request? || s.calls[o].cb != cb
    requires s.calls[o].Unregister? && s.calls[o].cb in s.cbs && s.cbs[s.calls[o].cb].flagSet ==>
               CurrentIs(s, s.calls[o].cb)
    requires Cancelled(s') == Cancelled(s)
    ensures SameView(s, s', cb)
  {
    hide IsLocked, DropPending;
    DropStaysPending(s, s', cb);
  }

  lemma RegisterOwnCb(s: State, s': State, o: Id)
    requires o in s.calls && s.calls[o].Register? && s.calls[o].cb in s.cbs && RegisterStep(s, s', o)
    requires CallInv(s, s.calls[o]) && CbInv(s, s.calls[o].cb, s.cbs[s.calls[o].cb])
    requires OwnerInv(s) && IsLocked(s.word) == !s.owner.Free?
    ensures s.calls[o].cb in s'.cbs && CbInv(s', s.calls[o].cb, s'.cbs[s.calls[o].cb])
  {
    hide Add, OrLock, IsLocked, IsCancelled, CanBeCancelled, HoldingSet, TokenCount;
  }

  lemma UnregisterOwnCb(s: State, s': State, o: Id)
    requires o in s.calls && s.calls[o].Unregister? && s.calls[o].cb in s.cbs && UnregisterStep(s, s', o)
    requires CallInv(s, s.calls[o]) && CbInv(s, s.calls[o].cb, s.cbs[s.calls[o].cb])
    requires OwnerInv(s) && IsLocked(s.word) == !s.owner.Free? && MayRun(s, s.calls[o].tid)
    ensures s.calls[o].cb in s'.cbs && CbInv(s', s.calls[o].cb, s'.cbs[s.calls[o].cb])
  {
    hide UnregisterStep, CbInv, CallInv, IsLocked, OwnerInv;
    if s.calls[o].upc.UTell? || s.calls[o].upc.UDrop? || s.calls[o].upc.UUnlockDec? {
      UnregisterEnd(s, s', o);
    } else {
      UnregisterWalk(s, s', o);
    }
  }

  lemma UnregisterWalk(s: State, s': State, o: Id)
    requires o in s.calls && s.calls[o].Unregister? && s.calls[o].cb in s.cbs && UnregisterStep(s, s', o)
    requires CallInv(s, s.calls[o]) && CbInv(s, s.calls[o].cb, s.cbs[s.calls[o].cb])
    requires OwnerInv(s) && IsLocked(s.word) == !s.owner.Free?
    requires !s.calls[o].upc.UTell? && !s.calls[o].upc.UDrop? && !s.calls[o].upc.UUnlockDec?
    ensures s.calls[o].cb in s'.cbs && CbInv(s', s.calls[o].cb, s'.cbs[s.calls[o].cb])
  {
    hide Add, OrLock, IsLocked, DropPending, Deleted;
    OwnDropStays(s, s', o, s.calls[o].cb);
  }

  lemma UnregisterEnd(s: State, s': State, o: Id)
    requires o in s.calls && s.calls[o].Unregister? && s.calls[o].cb in s.cbs && UnregisterStep(s, s', o)
    requires CallInv(s, s.calls[o]) && CbInv(s, s.calls[o].cb, s.cbs[s.calls[o].cb]) && MayRun(s, s.calls[o].tid)
    requires s.calls[o].upc.UTell? || s.calls[o].upc.UDrop? || s.calls[o].upc.UUnlockDec?
    ensures s.calls[o].cb in s'.cbs && CbInv(s', s.calls[o].cb, s'.cbs[s.calls[o].cb])
  {
    hide Add, DropPending, Deleted;
    if o in s'.calls && s'.sig.Signal? {
      DropFromCall(s', o);
    }
  }

  lemma DropFromCall(s: State, o: Id)
    requires o in s.calls && s.calls[o].Unregister? && s.sig.Signal?
    ensures s.calls[o].upc.UDrop? && s.calls[o].tid == s.sig.tid ==> DropPending(s, s.calls[o].cb)
  {
    assert s.calls[o].upc.UDrop? && s.calls[o].tid == s.sig.tid ==> IsDropBySignaller(s, s.calls[o], s.calls[o].cb);
  }

  lemma OwnDropStays(s: State, s': State, o: Id, cb: Id)
    requires o in s.calls && s.calls[o].Unregister? && !s.calls[o].upc.UDrop?
    requires s'.sig.Signal? == s.sig.Signal? && (s.sig.Signal? ==> s'.sig.tid == s.sig.tid)
    requires forall p | p in s.calls && p != o :: p in s'.calls && s'.calls[p] == s.calls[p]
    ensures DropPending(s, cb) ==> DropPending(s', cb)
  {
    if DropPending(s, cb) {
      var p :| p in s.calls && IsDropBySignaller(s, s.calls[p], cb);
      assert p in s'.calls && IsDropBySignaller(s', s'.calls[p], cb);
    }
  }

  /** The winning CAS of requestCancellation: nothing has run and nothing is being added or removed. */
  lemma CancelCb(s: State, s': State, o: Id, cb: Id, c: Callback)
    requires CbInv(s, cb, c) && CallEffect(s, s', o) && s.sig.NoSignal? && s'.sig.Signal?
    requires s'.list == s.list && s'.sigTid == s.sigTid && s.sources != {}
    requires IsLocked(s.word) == !s.owner.Free?
    ensures CbInv(s', cb, c)
  {
    hide IsLocked, CallHolds;
  }

  lemma FlagMeansCurrent(s: State, o: Id)
    requires Inv(s) && o in s.calls && s.calls[o].Unregister? && s.calls[o].cb in s.cbs
    ensures s.cbs[s.calls[o].cb].flagSet ==> CurrentIs(s, s.calls[o].cb)
  {
    hide Inv, DropPending;
    InvCall(s, o);
    InvCb(s, s.calls[o].cb);
  }

  lemma CallCb(s: State, s': State, o: Id, cb: Id)
    requires Inv(s) && AnyCallStep(s, s', o) && MayRun(s, s.calls[o].tid) && cb in s'.cbs
    ensures CbInv(s', cb, s'.cbs[cb])
  {
    hide Inv, WordInv, IsLocked, IsCancelled, CallEffect, CbInv, SameView, CallInv, ListInv, MayRun, CurrentIs,
         RegisterStep, UnregisterStep, RequestStep;
    InvParts(s);
    DeleteTests(s);
    CallEffects(s, s', o);
    InvCall(s, o);
    if !s.calls[o].Request? && s.calls[o].cb == cb {
      InvCb(s, cb);
      if s.calls[o].Register? {
        RegisterOwnCb(s, s', o);
      } else {
        UnregisterOwnCb(s, s', o);
      }
    } else {
      CallElsewhere(s, s', o, cb);
      InvCb(s, cb);
      if s.calls[o].Unregister? {
        FlagMeansCurrent(s, o);
      }
      if Cancelled(s') == Cancelled(s) {
        CallView(s, s', o, cb);
        CbFrame(s, s', cb, s.cbs[cb]);
      } else {
        CancelList(s, s', o);
        CancelCb(s, s', o, cb, s.cbs[cb]);
      }
    }
  }

  lemma CancelList(s: State, s': State, o: Id)
    requires AnyCallStep(s, s', o) && RefInv(s) && Cancelled(s') != Cancelled(s)
    ensures s'.list == s.list && s'.sigTid == s.sigTid && s.sources != {}
  {
    hide Add, OrLock, OrLockCancel, IsLocked, IsCancelled, CanBeCancelled, TokenCount, Without, Deleted;
  }

  /** What a step of the signalling thread does to one callback and to what others can see. */
  ghost predicate SignalEffect(s: State, s': State, x: Id)
    requires s.sig.Signal?
  {
    && s'.calls == s.calls && s'.sources == s.sources && s'.sig.Signal? && s'.sig.tid == s.sig.tid
    && (if s.sig.pc.SSetTid? then s'.sigTid == Some(s.sig.tid) else s'.sigTid == s.sigTid)
    && (s'.list == s.list || (s.sig.pc.SScan? && s.list != [] && s'.list == s.list[1..]))
    && (x in s'.cbs <==> x in s.cbs)
    && (x in s.cbs ==> s'.cbs[x].life == s.cbs[x].life && s'.cbs[x].registered == s.cbs[x].registered
                       && (s.cbs[x].completed ==> s'.cbs[x].completed)
                       && (!CurrentIs(s, x) ==> s'.cbs[x] == s.cbs[x]))
    && (CurrentIs(s', x) ==> CurrentIs(s, x) || (s.sig.pc.SScan? && x in s.list))
    && (CurrentIs(s, x) ==>
          CurrentIs(s', x) || (x in s'.cbs && s'.cbs[x].completed) || (s.sig.pc.SAfter? && s.sig.flag))
    && (s.sig.pc.SRunning? ==> forall o | o in s.calls :: s.calls[o].tid != s.sig.tid)
  }

  lemma LockEffects(s: State, s': State, x: Id)
    requires s.sig.Signal? && SignalLockStep(s, s')
    ensures SignalEffect(s, s', x)
  {
    hide Add, OrLock, IsLocked;
  }

  lemma RunEffects(s: State, s': State, x: Id)
    requires s.sig.Signal? && SignalRunStep(s, s')
    ensures SignalEffect(s, s', x) && (CurrentIs(s', x) ==> CurrentIs(s, x))
  {
  }

  lemma SignalEffects(s: State, s': State, x: Id)
    requires s.sig.Signal? && SigStep(s, s')
    ensures SignalEffect(s, s', x)
  {
    hide SignalEffect, SignalLockStep, SignalRunStep;
    if SignalLockStep(s, s') {
      LockEffects(s, s', x);
    } else {
      RunEffects(s, s', x);
    }
  }

  lemma SubList(list: seq<Id>, x: Id)
    requires list != []
    ensures x in list <==> x == list[0] || x in list[1..]
  {
    assert list == [list[0]] + list[1..];
  }

  /** A callback the signaller is not and will not be dealing with. */
  lemma SignalOtherCb(s: State, s': State, cb: Id)
    requires s.sig.Signal? && SigStep(s, s') && cb in s.cbs && !CurrentIs(s, cb) && !CurrentIs(s', cb)
    requires CbInv(s, cb, s.cbs[cb]) && OwnerInv(s) && IsLocked(s.word) == !s.owner.Free?
    ensures cb in s'.cbs && CbInv(s', cb, s'.cbs[cb])
  {
    hide SigStep, DropPending, CbInv, IsLocked, CallHolds;
    SignalEffects(s, s', cb);
    DropStaysPending(s, s', cb);
    SignalList(s, s', cb);
    CbFrame(s, s', cb, s.cbs[cb]);
  }

  lemma SignalList(s: State, s': State, cb: Id)
    requires s.sig.Signal? && SigStep(s, s') && !CurrentIs(s', cb) && IsLocked(s.word) == !s.owner.Free? && OwnerInv(s)
    ensures cb in s'.list <==> cb in s.list
    ensures s.owner.ByCall? ==> s'.owner == s.owner
  {
    hide Add, OrLock, IsLocked, CallHolds;
    if s.list != [] {
      SubList(s.list, cb);
    }
  }

  lemma SignalTakesCb(s: State, s': State, cb: Id)
    requires s.sig.Signal? && SignalLockStep(s, s') && cb in s.cbs && (CurrentIs(s, cb) || CurrentIs(s', cb))
    requires CbInv(s, cb, s.cbs[cb]) && SignalInv(s) && OwnerInv(s) && Distinct(s.list)
    ensures cb in s'.cbs && CbInv(s', cb, s'.cbs[cb])
  {
    hide Add, OrLock, IsLocked, DropPending;
    if s.list != [] {
      SubList(s.list, cb);
      assert s.list[0] !in s.list[1..];
    }
  }

  lemma SignalRunsCb(s: State, s': State, cb: Id)
    requires s.sig.Signal? && SignalRunStep(s, s') && cb in s.cbs && CurrentIs(s, cb)
    requires CbInv(s, cb, s.cbs[cb]) && SignalInv(s)
    ensures cb in s'.cbs && CbInv(s', cb, s'.cbs[cb])
  {
    assert s.sig.pc.SRunning? ==> !DropPending(s, cb);
    hide DropPending;
  }

  lemma SignalCb(s: State, s': State, cb: Id)
    requires s.sig.Signal? && SigStep(s, s') && cb in s.cbs
    requires CbInv(s, cb, s.cbs[cb]) && SignalInv(s) && OwnerInv(s) && Distinct(s.list)
    requires IsLocked(s.word) == !s.owner.Free?
    ensures cb in s'.cbs && CbInv(s', cb, s'.cbs[cb])
  {
    hide SignalLockStep, SignalRunStep, CbInv, SignalInv, OwnerInv, IsLocked;
    if !CurrentIs(s, cb) && !CurrentIs(s', cb) {
      SignalOtherCb(s, s', cb);
    } else if SignalLockStep(s, s') {
      SignalTakesCb(s, s', cb);
    } else {
      RunEffects(s, s', cb);
      SignalRunsCb(s, s', cb);
    }
  }

  /** Reference counting and the starting of calls leave the lock, the list and the signaller alone. */
  lemma OutsideEffect(s: State, s': State, lab: Label)
    requires Next(s, s', lab) && !lab.Step? && !lab.SignalStep?
    ensures s'.list == s.list && s'.sig == s.sig && s'.sigTid == s.sigTid && s'.owner == s.owner
    ensures s.sources == {} ==> s'.sources == {}
    ensures || s'.calls == s.calls
            || exists o: Id :: o !in s.calls && o in s'.calls && s'.calls == s.calls[o := s'.calls[o]]
  {
    hide Add, TokenCount, Deleted, MayRun, TokenInUse, SourceInUse;
  }

  lemma OutsideView(s: State, s': State, lab: Label, cb: Id)
    requires OwnerInv(s) && Next(s, s', lab) && !lab.Step? && !lab.SignalStep?
    ensures SameView(s, s', cb)
  {
    hide Next, DropPending;
    OutsideEffect(s, s', lab);
    DropStaysPending(s, s', cb);
  }

  /** A client may begin to destroy a finished callback, or create or destroy one that never registered. */
  lemma OutsideObject(s: State, s': State, lab: Label, cb: Id)
    requires Next(s, s', lab) && !lab.Step? && !lab.SignalStep? && cb in s'.cbs
    ensures if cb !in s.cbs then s'.cbs[cb] == Callback(Constructing, false, false, false, 0, 0)
            else || s'.cbs[cb] == s.cbs[cb]
                 || (s.cbs[cb].life.Alive?
                     && s'.cbs[cb] == s.cbs[cb].(life := if s.cbs[cb].registered then Destroying else Destroyed))
  {
    hide Add, TokenCount, Deleted, MayRun, TokenInUse, SourceInUse;
  }

  lemma OutsideCb(s: State, s': State, lab: Label, cb: Id)
    requires Inv(s) && Next(s, s', lab) && !lab.Step? && !lab.SignalStep? && cb in s'.cbs
    ensures CbInv(s', cb, s'.cbs[cb])
  {
    hide Inv, Next, WordInv, OneCallEach, OwnerInv, RefInv, SignalInv, DropPending;
    InvParts(s);
    OutsideObject(s, s', lab, cb);
    OutsideView(s, s', lab, cb);
    if cb in s.cbs {
      InvCb(s, cb);
      CbFrame(s, s', cb, s.cbs[cb]);
    } else {
      FreshUnknown(s, cb);
    }
  }

  /** An object that does not exist yet is not in the list and not being run. */
  lemma FreshUnknown(s: State, cb: Id)
    requires SignalInv(s) && ListInv(s) && cb !in s.cbs
    ensures cb !in s.list && !CurrentIs(s, cb)
  {
  }

  // -------------------------------------------------------------------- calls

  /** Everything the invariant of a call in flight depends on is unchanged, or stronger. */
  predicate SameCallView(s: State, s': State, call: Call) {
    && (Cancelled(s) ==> Cancelled(s')) && s'.sigTid == s.sigTid
    && (s.sources == {} ==> s'.sources == {})
    && (Cancelled(s') != Cancelled(s) ==> s.sources != {} && !CallHolds(call))
    && (call.Request? || (
          && call.cb in s.cbs && call.cb in s'.cbs && s'.cbs[call.cb] == s.cbs[call.cb]
          && (call.cb in s'.list <==> call.cb in s.list)
          && (CurrentIs(s', call.cb) <==> CurrentIs(s, call.cb))
          && (s.sig.Signal? && s.sigTid.Some? ==>
                s'.sig.Signal? && s'.sig.tid == s.sig.tid && s'.sig.pc == s.sig.pc && (s.sig.flag ==> s'.sig.flag))))
  }

  lemma CallFrame(s: State, s': State, call: Call)
    requires CallInv(s, call) && SameCallView(s, s', call) && SignalInv(s)
    ensures CallInv(s', call)
  {
    hide IsCancelled, CanBeCancelled, CallHolds;
    assert call.Register? && (call.rpc.RPush? || call.rpc.RUnlock?) ==> CallHolds(call) by {
      HoldsPush(call);
    }
  }

  lemma HoldsPush(call: Call)
    ensures call.Register? && (call.rpc.RPush? || call.rpc.RUnlock?) ==> CallHolds(call)
  {
  }

  lemma OtherCall(s: State, s': State, o: Id, q: Id)
    requires CallEffect(s, s', o) && OwnerInv(s) && RefInv(s) && OneCallEach(s)
    requires IsLocked(s.word) == !s.owner.Free?
    requires q in s'.calls && q != o && CallInv(s, s.calls[q])
    requires s'.sigTid == s.sigTid && (!s.calls[q].Request? ==> Untouched(s, s', o, s.calls[q].cb))
    ensures SameCallView(s, s', s.calls[q])
  {
    hide IsLocked, IsCancelled, CanBeCancelled, CallHolds;
  }

  /** ULook finds the callback gone from the list: it is being run or has been run. */
  lemma GoneMeansRun(s: State, o: Id)
    requires Inv(s) && o in s.calls && s.calls[o].Unregister? && s.calls[o].upc.ULook?
    requires s.calls[o].cb in s.cbs && s.calls[o].cb !in s.list
    ensures CurrentIs(s, s.calls[o].cb) || s.cbs[s.calls[o].cb].completed
    ensures s.sig.Signal? && s.sigTid == Some(s.sig.tid)
  {
    hide Inv, WordInv, RefInv, ListInv, OneCallEach, DropPending;
    InvParts(s);
    InvCall(s, o);
    InvCb(s, s.calls[o].cb);
  }

  lemma MoverRegister(s: State, s': State, o: Id)
    requires Inv(s) && o in s.calls && s.calls[o].Register? && s.calls[o].cb in s.cbs && RegisterStep(s, s', o)
    requires o in s'.calls
    ensures CallInv(s', s'.calls[o])
  {
    hide Inv, WordInv, RefInv, ListInv, OneCallEach, SignalInv, OwnerInv, Add, OrLock, IsLocked, IsCancelled,
         CanBeCancelled, HoldingSet, TokenCount;
    InvParts(s);
    DeleteTests(s);
    InvCall(s, o);
  }

  lemma MoverUnregister(s: State, s': State, o: Id)
    requires Inv(s) && o in s.calls && s.calls[o].Unregister? && s.calls[o].cb in s.cbs && UnregisterStep(s, s', o)
    requires o in s'.calls && MayRun(s, s.calls[o].tid)
    ensures CallInv(s', s'.calls[o])
  {
    hide Inv, WordInv, RefInv, ListInv, OneCallEach, OwnerInv, Add, OrLock, IsLocked, HoldingSet, TokenCount, Without,
         DropPending;
    InvParts(s);
    InvCall(s, o);
    InvCb(s, s.calls[o].cb);
    if s.calls[o].upc.ULook? && s.calls[o].cb !in s.list {
      GoneMeansRun(s, o);
    }
  }

  lemma MoverRequest(s: State, s': State, o: Id)
    requires Inv(s) && o in s.calls && s.calls[o].Request? && RequestStep(s, s', o) && o in s'.calls
    ensures CallInv(s', s'.calls[o])
  {
    hide Inv, WordInv, RefInv, ListInv, OneCallEach, OwnerInv, SignalInv, OrLockCancel, IsLocked, IsCancelled,
         CanBeCancelled;
    InvParts(s);
    DeleteTests(s);
    InvCall(s, o);
  }

  lemma CallBySignal(s: State, s': State, q: Id)
    requires Inv(s) && s.sig.Signal? && SigStep(s, s') && q in s.calls
    ensures q in s'.calls && s'.calls[q] == s.calls[q] && CallInv(s', s.calls[q])
  {
    hide Inv, WordInv, RefInv, OneCallEach, SigStep, IsCancelled, CanBeCancelled, DropPending;
    InvParts(s);
    InvCall(s, q);
    var call := s.calls[q];
    if call.Request? {
      SignalEffects(s, s', 0);
    } else {
      InvCb(s, call.cb);
      SignalEffects(s, s', call.cb);
      if s.list != [] {
        SubList(s.list, call.cb);
      }
    }
  }

  /** A call starts at its first load, on a new object or on one that was finished and registered. */
  predicate Started(s: State, s': State, call: Call) {
    match call
    case Register(_, cb, _, _, pc) =>
      pc.RLoad? && cb !in s.cbs && cb in s'.cbs && s'.cbs[cb].life.Constructing?
    case Unregister(_, cb, pc) =>
      pc.ULoad? && cb in s.cbs && s.cbs[cb].life.Alive? && cb in s'.cbs && s'.cbs[cb].life.Destroying?
      && s'.cbs[cb].registered
    case Request(_, _, pc) => pc.QLoad?
  }

  lemma OutsideCalls(s: State, s': State, lab: Label, q: Id)
    requires Next(s, s', lab) && !lab.Step? && !lab.SignalStep? && q in s'.calls
    ensures if q in s.calls then s'.calls[q] == s.calls[q] else Started(s, s', s'.calls[q]) && lab == Start(q)
    ensures forall cb | cb in s.cbs :: cb in s'.cbs
  {
    hide Add, TokenCount, Deleted, MayRun, TokenInUse, SourceInUse;
  }

  lemma CallOutside(s: State, s': State, lab: Label, q: Id)
    requires Inv(s) && Next(s, s', lab) && !lab.Step? && !lab.SignalStep? && q in s'.calls
    ensures CallInv(s', s'.calls[q])
  {
    hide Inv, Next, WordInv, RefInv, OneCallEach, OwnerInv, CallHolds;
    InvParts(s);
    OutsideCalls(s, s', lab, q);
    OutsideEffect(s, s', lab);
    var call := s'.calls[q];
    if q in s.calls {
      InvCall(s, q);
      if !call.Request? {
        OutsideObject(s, s', lab, call.cb);
      }
      CallFrame(s, s', call);
    } else if call.Register? {
      FreshUnknown(s, call.cb);
    }
  }

  lemma StepCall(s: State, s': State, lab: Label, q: Id)
    requires Inv(s) && Next(s, s', lab) && q in s'.calls
    ensures CallInv(s', s'.calls[q])
  {
    hide Inv, WordInv, OwnerInv, RefInv, SignalInv, ListInv, OneCallEach, RefStep, StartStep, RegisterStep,
         UnregisterStep, RequestStep, SigStep, CallInv, IsLocked, IsCancelled, CanBeCancelled, SameCallView,
         Untouched, MayRun;
    InvParts(s);
    match lab
    case Step(o) =>
      if q != o {
        CallStepOther(s, s', o, q);
      } else {
        match s.calls[o] {
          case Register(_, _, _, _, _) => MoverRegister(s, s', o);
          case Unregister(_, _, _) => MoverUnregister(s, s', o);
          case Request(_, _, _) => MoverRequest(s, s', o);
        }
      }
    case SignalStep =>
      SignalEffects(s, s', 0);
      CallBySignal(s, s', q);
    case _ => CallOutside(s, s', lab, q);
  }

  lemma CallStepOther(s: State, s': State, o: Id, q: Id)
    requires Inv(s) && AnyCallStep(s, s', o) && q in s'.calls && q != o
    ensures CallInv(s', s'.calls[q])
  {
    hide Inv, WordInv, OwnerInv, RefInv, SignalInv, ListInv, AnyCallStep, CallInv, IsLocked, IsCancelled,
         CanBeCancelled, SameCallView;
    InvParts(s);
    DeleteTests(s);
    CallEffects(s, s', o);
    InvCall(s, q);
    CallListEffects(s, s', o);
    if !s.calls[q].Request? {
      CallElsewhere(s, s', o, s.calls[q].cb);
    }
    OtherCall(s, s', o, q);
    CallFrame(s, s', s.calls[q]);
  }

  // -------------------------------------------------------------------- the list and the signaller

  /** What a step of call `o` does to the list, and what it keeps of every callback. */
  ghost predicate CallListEffect(s: State, s': State, o: Id)
    requires o in s.calls
  {
    && s'.sigTid == s.sigTid
    && (|| s'.list == s.list
        || (s.calls[o].Register? && s.calls[o].rpc.RPush? && s'.list == [s.calls[o].cb] + s.list)
        || (s.calls[o].Unregister? && s'.list == Without(s.list, s.calls[o].cb)))
    && (forall x | x in s.cbs :: x in s'.cbs && (s.cbs[x].registered ==> s'.cbs[x].registered))
  }

  lemma CallListEffects(s: State, s': State, o: Id)
    requires AnyCallStep(s, s', o)
    ensures CallListEffect(s, s', o)
  {
    hide RegisterStep, UnregisterStep, CallListEffect, OrLockCancel, IsLocked, IsCancelled;
    match s.calls[o]
    case Register(_, _, _, _, _) => RegisterList(s, s', o);
    case Unregister(_, _, _) => UnregisterList(s, s', o);
    case Request(_, _, _) => RequestList(s, s', o);
  }

  lemma RegisterList(s: State, s': State, o: Id)
    requires o in s.calls && s.calls[o].Register? && s.calls[o].cb in s.cbs && RegisterStep(s, s', o)
    ensures CallListEffect(s, s', o)
  {
    hide Add, OrLock, IsLocked, IsCancelled, CanBeCancelled, TokenCount;
  }

  lemma UnregisterList(s: State, s': State, o: Id)
    requires o in s.calls && s.calls[o].Unregister? && s.calls[o].cb in s.cbs && UnregisterStep(s, s', o)
    ensures CallListEffect(s, s', o)
  {
    hide Add, OrLock, IsLocked, Without, Deleted;
  }

  lemma RequestList(s: State, s': State, o: Id)
    requires o in s.calls && s.calls[o].Request? && RequestStep(s, s', o)
    ensures CallListEffect(s, s', o)
  {
    hide OrLockCancel, IsLocked, IsCancelled;
  }

  lemma {:induction false} WithoutDistinct(list: seq<Id>, cb: Id)
    requires Distinct(list)
    ensures Distinct(Without(list, cb))
  {
    if list != [] {
      WithoutDistinct(list[1..], cb);
      if list[0] != cb {
        var rest := Without(list[1..], cb);
        assert list[0] !in rest by { assert list[0] !in list[1..]; }
        assert Without(list, cb) == [list[0]] + rest;
      }
    }
  }

  lemma CallListInv(s: State, s': State, o: Id)
    requires o in s.calls && ListInv(s) && CallListEffect(s, s', o) && CallInv(s, s.calls[o])
    ensures ListInv(s')
  {
    hide IsCancelled, CanBeCancelled, Without;
    if s.calls[o].Unregister? {
      WithoutDistinct(s.list, s.calls[o].cb);
    }
  }

  lemma CallSignalInv(s: State, s': State, o: Id)
    requires o in s.calls && SignalInv(s) && CallListEffect(s, s', o) && CallEffect(s, s', o) && CallInv(s, s.calls[o])
    ensures SignalInv(s')
  {
    hide IsCancelled, CanBeCancelled, IsLocked, CallHolds;
  }

  /** The first callback of the list is finished and registered when the signaller holds the lock. */
  lemma FirstIsRegistered(s: State)
    requires Inv(s) && s.sig.Signal? && s.sig.pc.SScan? && s.list != []
    ensures s.list[0] in s.cbs && s.cbs[s.list[0]].registered
  {
    hide Inv, WordInv, RefInv, OneCallEach, SignalInv, CurrentOk, OthersOk;
    InvParts(s);
    InvCb(s, s.list[0]);
  }

  lemma SignalSignalInv(s: State, s': State)
    requires SignalInv(s) && s.sig.Signal? && SigStep(s, s')
    requires s.sig.pc.SScan? && s.list != [] ==> s.list[0] in s.cbs && s.cbs[s.list[0]].registered
    ensures SignalInv(s')
  {
    hide Add, OrLock, IsLocked;
  }

  lemma SignalListInv(s: State, s': State)
    requires ListInv(s) && s.sig.Signal? && SigStep(s, s')
    ensures ListInv(s')
  {
    hide SigStep;
    SignalEffects(s, s', 0);
    forall cb | cb in s'.list
      ensures cb in s'.cbs
    {
      SignalEffects(s, s', cb);
    }
  }

  lemma OutsideLists(s: State, s': State, lab: Label)
    requires Inv(s) && Next(s, s', lab) && !lab.Step? && !lab.SignalStep?
    ensures ListInv(s') && SignalInv(s')
  {
    hide Inv, Next, WordInv, OwnerInv, RefInv, OneCallEach;
    InvParts(s);
    OutsideEffect(s, s', lab);
    forall cb | cb in s.cbs
      ensures cb in s'.cbs && (s.cbs[cb].registered ==> s'.cbs[cb].registered)
    {
      OutsideKeeps(s, s', lab, cb);
    }
  }

  lemma OutsideKeeps(s: State, s': State, lab: Label, cb: Id)
    requires Next(s, s', lab) && !lab.Step? && !lab.SignalStep? && cb in s.cbs
    ensures cb in s'.cbs && (s.cbs[cb].registered ==> s'.cbs[cb].registered)
  {
    hide Add, TokenCount, Deleted, MayRun, TokenInUse, SourceInUse;
  }

  lemma OutsideOneEach(s: State, s': State, lab: Label)
    requires Inv(s) && Next(s, s', lab) && !lab.Step? && !lab.SignalStep?
    ensures OneCallEach(s')
  {
    hide Inv, Next, WordInv, OwnerInv, RefInv, ListInv, SignalInv, CallInv;
    InvParts(s);
    forall o, p | && o in s'.calls && p in s'.calls && !s'.calls[o].Request? && !s'.calls[p].Request?
                  && s'.calls[o].cb == s'.calls[p].cb
      ensures o == p
    {
      OutsideCalls(s, s', lab, o);
      OutsideCalls(s, s', lab, p);
      if o !in s.calls && p in s.calls {
        CallObject(s, p);
      } else if p !in s.calls && o in s.calls {
        CallObject(s, o);
      }
    }
  }

  lemma CallObject(s: State, o: Id)
    requires Inv(s) && o in s.calls && !s.calls[o].Request?
    ensures s.calls[o].cb in s.cbs && !s.cbs[s.calls[o].cb].life.Alive?
  {
    hide Inv;
    InvCall(s, o);
  }

  lemma StepLists(s: State, s': State, lab: Label)
    requires Inv(s) && Next(s, s', lab)
    ensures ListInv(s') && SignalInv(s') && OneCallEach(s')
  {
    hide Inv, WordInv, OwnerInv, RefInv, SignalInv, ListInv, OneCallEach, RefStep, StartStep, RegisterStep,
         UnregisterStep, RequestStep, SigStep, CallInv, IsLocked, IsCancelled, CallEffect, CallListEffect;
    InvParts(s);
    DeleteTests(s);
    match lab
    case Step(o) =>
      CallEffects(s, s', o);
      CallListEffects(s, s', o);
      InvCall(s, o);
      CallListInv(s, s', o);
      CallSignalInv(s, s', o);
      CallOneEach(s, s', o);
    case SignalStep =>
      if s.sig.pc.SScan? && s.list != [] {
        FirstIsRegistered(s);
      }
      SignalSignalInv(s, s');
      SignalListInv(s, s');
      SignalEffects(s, s', 0);
      SameOneEach(s, s');
    case _ =>
      OutsideLists(s, s', lab);
      OutsideOneEach(s, s', lab);
  }

  lemma SameOneEach(s: State, s': State)
    requires OneCallEach(s) && s'.calls == s.calls
    ensures OneCallEach(s')
  {
  }

  lemma StepCb(s: State, s': State, lab: Label, cb: Id)
    requires Inv(s) && Next(s, s', lab) && cb in s'.cbs
    ensures CbInv(s', cb, s'.cbs[cb])
  {
    hide Inv, WordInv, OwnerInv, RefInv, SignalInv, OneCallEach, RefStep, StartStep, RegisterStep, UnregisterStep,
         RequestStep, SigStep, CbInv, IsLocked, IsCancelled, MayRun;
    InvParts(s);
    DeleteTests(s);
    match lab
    case Step(o) => CallCb(s, s', o, cb);
    case SignalStep =>
      SignalEffects(s, s', cb);
      InvCb(s, cb);
      SignalCb(s, s', cb);
    case _ => OutsideCb(s, s', lab, cb);
  }

  /** Every step keeps the invariant. */
  lemma StepInv(s: State, s': State, lab: Label)
    requires Inv(s) && Next(s, s', lab)
    ensures Inv(s')
  {
    hide Next, WordInv, OwnerInv, RefInv, SignalInv, ListInv, OneCallEach, CbInv, CallInv;
    StepWord(s, s', lab);
    StepOwner(s, s', lab);
    StepLists(s, s', lab);
    forall cb | cb in s'.cbs
      ensures CbInv(s', cb, s'.cbs[cb])
    {
      StepCb(s, s', lab, cb);
    }
    forall q | q in s'.calls
      ensures CallInv(s', s'.calls[q])
    {
      StepCall(s, s', lab, q);
    }
  }

  // -------------------------------------------------------------------- runs

  ghost predicate IsRun(run: seq<State>, labs: seq<Label>) {
    && |run| == |labs| + 1 && Init(run[0])
    && forall i | 0 <= i < |labs| :: Next(run[i], run[i + 1], labs[i])
  }

  lemma {:induction false} RunInv(run: seq<State>, labs: seq<Label>, i: nat)
    requires IsRun(run, labs) && i < |run|
    ensures Inv(run[i])
  {
    hide Inv, Next;
    if i == 0 {
      InitInv(run[0]);
    } else {
      RunInv(run, labs, i - 1);
      StepInv(run[i - 1], run[i], labs[i - 1]);
    }
  }

  // -------------------------------------------------------------------- one winner

  predicate Wins(s: State, s': State) {
    s.sig.NoSignal? && s'.sig.Signal?
  }

  /** requestCancellation returns false. */
  predicate ReturnsFalse(s: State, s': State) {
    s.sig.Signal? && !s.sig.pc.SReturned? && s'.sig.Signal? && s'.sig.pc.SReturned?
  }

  /** Once cancelled, the state stays cancelled by the same call, and a call that returned stays returned. */
  predicate SignalStays(s: State, s': State) {
    s.sig.Signal? ==>
      && s'.sig.Signal? && s'.sig.tid == s.sig.tid && s'.sig.src == s.sig.src
      && (s.sig.pc.SReturned? ==> s'.sig.pc.SReturned? && s'.list == s.list)
  }

  lemma StepSignalStays(s: State, s': State, lab: Label)
    requires Inv(s) && Next(s, s', lab)
    ensures SignalStays(s, s')
  {
    hide Inv, WordInv, OwnerInv, RefInv, OneCallEach, ListInv, RefStep, StartStep, RegisterStep, UnregisterStep,
         RequestStep, IsLocked, IsCancelled, CallInv, Next;
    InvParts(s);
    DeleteTests(s);
    StepLists(s, s', lab);
    if lab.Step? {
      NextCall(s, s', lab);
      CallEffects(s, s', lab.o);
    } else if lab.SignalStep? {
      NextSignal(s, s', lab);
      SignalKeepsSource(s, s');
    } else {
      OutsideEffect(s, s', lab);
    }
  }

  lemma NextCall(s: State, s': State, lab: Label)
    requires Next(s, s', lab) && lab.Step?
    ensures AnyCallStep(s, s', lab.o) && MayRun(s, s.calls[lab.o].tid)
  {
    hide RegisterStep, UnregisterStep, RequestStep, MayRun;
  }

  lemma NextSignal(s: State, s': State, lab: Label)
    requires Next(s, s', lab) && lab.SignalStep?
    ensures s.sig.Signal? && SigStep(s, s')
  {
    hide SigStep;
  }

  lemma SignalKeepsSource(s: State, s': State)
    requires s.sig.Signal? && SigStep(s, s')
    ensures s'.sig.Signal? && s'.sig.tid == s.sig.tid && s'.sig.src == s.sig.src && !s.sig.pc.SReturned?
  {
    hide Add, OrLock, IsLocked;
  }

  lemma {:induction false} RunSignalStays(run: seq<State>, labs: seq<Label>, i: nat, j: nat)
    requires IsRun(run, labs) && i <= j < |run|
    ensures SignalStays(run[i], run[j])
  {
    hide Next, Init;
    if i < j {
      RunSignalStays(run, labs, i, j - 1);
      RunInv(run, labs, j - 1);
      StepSignalStays(run[j - 1], run[j], labs[j - 1]);
    }
  }

  /** At most one compare-and-swap sets the cancel bit, and at most one call returns false. */
  lemma OneWinner(run: seq<State>, labs: seq<Label>, i: nat, j: nat)
    requires IsRun(run, labs) && i < |labs| && j < |labs|
    ensures Wins(run[i], run[i + 1]) && Wins(run[j], run[j + 1]) ==> i == j
    ensures ReturnsFalse(run[i], run[i + 1]) && ReturnsFalse(run[j], run[j + 1]) ==> i == j
  {
    hide Next, Init;
    if i < j {
      RunSignalStays(run, labs, i + 1, j);
    } else if j < i {
      RunSignalStays(run, labs, j + 1, i);
    }
  }

  /** A requestCancellation call that ends without winning returns true, and then the state is cancelled. */
  lemma LoserSeesCancelled(run: seq<State>, labs: seq<Label>, i: nat, o: Id)
    requires IsRun(run, labs) && i < |labs| && labs[i] == Step(o)
    requires o in run[i].calls && run[i].calls[o].Request? && o !in run[i + 1].calls
    ensures Wins(run[i], run[i + 1]) || (run[i].calls[o].qpc.QTrue? && Cancelled(run[i]))
  {
    hide Inv, OrLockCancel, IsLocked, IsCancelled;
    RunInv(run, labs, i);
    InvCall(run[i], o);
    LoserStep(run[i], run[i + 1], o);
  }

  lemma LoserStep(s: State, s': State, o: Id)
    requires Inv(s) && Next(s, s', Step(o)) && o in s.calls && s.calls[o].Request? && o !in s'.calls
    ensures Wins(s, s') || s.calls[o].qpc.QTrue?
  {
    hide Inv, WordInv, OrLockCancel, IsLocked, IsCancelled;
    InvParts(s);
    DeleteTests(s);
  }

  /** A cancelled state was cancelled by a winner at an earlier step of the run. */
  lemma {:induction false} CancelledByWinner(run: seq<State>, labs: seq<Label>, i: nat) returns (w: nat)
    requires IsRun(run, labs) && i < |run| && Cancelled(run[i])
    ensures w < i && Wins(run[w], run[w + 1]) && !Cancelled(run[w])
  {
    hide Next;
    w := i - 1;
    if Cancelled(run[i - 1]) {
      w := CancelledByWinner(run, labs, i - 1);
    }
  }

  /** When the winner returns, the list is empty and the call does not hold the lock, on the early return
      too; the list stays empty and the signaller never takes the lock again. */
  lemma WinnerLeavesEmptyList(run: seq<State>, labs: seq<Label>, i: nat, j: nat)
    requires IsRun(run, labs) && i < |labs| && ReturnsFalse(run[i], run[i + 1]) && i < j < |run|
    ensures run[j].list == [] && !run[j].owner.BySignal?
    ensures run[i].sig.pc.SFinalUnlock? ==> !IsLocked(run[i + 1].word)
  {
    hide IsRun, Inv, Next, WordInv, IsLocked, CallInv, CbInv;
    RunSignalStays(run, labs, i + 1, j);
    RunInv(run, labs, i + 1);
    RunInv(run, labs, j);
    InvParts(run[i + 1]);
    InvParts(run[j]);
    if run[i].sig.pc.SFinalUnlock? {
      FinalUnlockFrees(run, labs, i);
      DeleteTests(run[i + 1]);
    }
  }

  /** Once the winner has returned, the lock is held exactly while some other call holds it, and that call removes
      a callback.  The early return does not take the lock, so it can return while a removal has it. */
  lemma LockedAfterReturn(run: seq<State>, labs: seq<Label>, i: nat)
    requires IsRun(run, labs) && i < |run| && run[i].sig.Signal? && run[i].sig.pc.SReturned?
    ensures IsLocked(run[i].word) <==> exists o | o in run[i].calls :: CallHolds(run[i].calls[o])
    ensures forall o | o in run[i].calls && CallHolds(run[i].calls[o]) :: run[i].calls[o].Unregister?
  {
    hide IsRun, Inv, WordInv, IsLocked, CbInv;
    RunInv(run, labs, i);
    InvParts(run[i]);
    DeleteTests(run[i]);
    forall o | o in run[i].calls && CallHolds(run[i].calls[o])
      ensures run[i].calls[o].Unregister?
    {
      InvCall(run[i], o);
    }
  }

  lemma FinalUnlockFrees(run: seq<State>, labs: seq<Label>, i: nat)
    requires IsRun(run, labs) && i < |labs| && ReturnsFalse(run[i], run[i + 1]) && run[i].sig.pc.SFinalUnlock?
    ensures run[i + 1].owner.Free?
  {
    hide Inv, Init, WordInv, IsLocked, IsCancelled, RegisterStep, UnregisterStep, RequestStep, SignalRunStep, Add, Next;
    var s, s', lab := run[i], run[i + 1], labs[i];
    assert Next(s, s', lab);
    RunInv(run, labs, i);
    InvParts(s);
    DeleteTests(s);
    if lab.Step? {
      NextCall(s, s', lab);
      CallEffects(s, s', lab.o);
    } else if lab.SignalStep? {
      NextSignal(s, s', lab);
      FinalStep(s, s');
    } else {
      OutsideEffect(s, s', lab);
    }
  }

  lemma FinalStep(s: State, s': State)
    requires s.sig.Signal? && SigStep(s, s') && s.sig.pc.SFinalUnlock?
    ensures s'.owner.Free?
  {
    hide Add;
  }

  // -------------------------------------------------------------------- the newest callback first

  /** Where both are listed, `x` is before `y`. */
  ghost predicate InOrder(list: seq<Id>, x: Id, y: Id) {
    forall p, q | 0 <= p < |list| && 0 <= q < |list| && list[p] == x && list[q] == y :: p < q
  }

  lemma {:induction false} WithoutInOrder(list: seq<Id>, c: Id, x: Id, y: Id)
    requires InOrder(list, x, y)
    ensures InOrder(Without(list, c), x, y)
  {
    if list != [] {
      var rest := list[1..];
      forall p, q | 0 <= p < |rest| && 0 <= q < |rest| && rest[p] == x && rest[q] == y
        ensures p < q
      {
        assert list[p + 1] == x && list[q + 1] == y;
      }
      WithoutInOrder(rest, c, x, y);
      if list[0] == y {
        assert forall p | 0 <= p < |list| :: list[p] != x;
        assert x !in Without(list, c);
      } else if list[0] != c {
        PushInOrder(Without(rest, c), list[0], x, y);
      }
    }
  }

  lemma PushInOrder(list: seq<Id>, c: Id, x: Id, y: Id)
    requires InOrder(list, x, y) && c != y
    ensures InOrder([c] + list, x, y)
  {
    var r := [c] + list;
    forall p, q | 0 <= p < |r| && 0 <= q < |r| && r[p] == x && r[q] == y
      ensures p < q
    {
      assert r[q] == list[q - 1];
      if p > 0 {
        assert r[p] == list[p - 1];
      }
    }
  }

  lemma PopInOrder(list: seq<Id>, x: Id, y: Id)
    requires InOrder(list, x, y) && list != []
    ensures InOrder(list[1..], x, y)
  {
    var r := list[1..];
    forall p, q | 0 <= p < |r| && 0 <= q < |r| && r[p] == x && r[q] == y
      ensures p < q
    {
      assert list[p + 1] == x && list[q + 1] == y;
    }
  }

  lemma CallInOrder(s: State, s': State, o: Id, x: Id, y: Id)
    requires o in s.calls && CallListEffect(s, s', o) && CallInv(s, s.calls[o])
    requires InOrder(s.list, x, y) && y in s.cbs && s.cbs[y].registered && !s.cbs[y].life.Constructing?
    ensures InOrder(s'.list, x, y)
  {
    hide InOrder, Without;
    if s'.list != s.list {
      if s.calls[o].Register? {
        PushInOrder(s.list, s.calls[o].cb, x, y);
      } else {
        WithoutInOrder(s.list, s.calls[o].cb, x, y);
      }
    }
  }

  /** A registered callback: its constructor has returned. */
  predicate Settled(s: State, y: Id) {
    y in s.cbs && s.cbs[y].registered && !s.cbs[y].life.Constructing?
  }

  lemma OrderStep(s: State, s': State, lab: Label, x: Id, y: Id)
    requires Inv(s) && Next(s, s', lab) && InOrder(s.list, x, y) && Settled(s, y)
    ensures InOrder(s'.list, x, y)
  {
    hide Inv, Next, InOrder, CallListEffect, SignalEffect, RegisterStep, UnregisterStep, RequestStep, SigStep;
    if lab.Step? {
      NextCall(s, s', lab);
      CallListEffects(s, s', lab.o);
      InvCall(s, lab.o);
      CallInOrder(s, s', lab.o, x, y);
    } else if lab.SignalStep? {
      NextSignal(s, s', lab);
      SignalPops(s, s');
      if s'.list != s.list {
        PopInOrder(s.list, x, y);
      }
    } else {
      OutsideEffect(s, s', lab);
    }
  }

  lemma SignalPops(s: State, s': State)
    requires s.sig.Signal? && SigStep(s, s')
    ensures s'.list == s.list || (s.list != [] && s'.list == s.list[1..])
  {
    hide SigStep;
    SignalEffects(s, s', 0);
  }

  lemma SettledStep(s: State, s': State, lab: Label, y: Id)
    requires Inv(s) && Next(s, s', lab) && Settled(s, y)
    ensures Settled(s', y)
  {
    hide Inv, Without, OrLock, OrLockCancel, Add, IsLocked, IsCancelled, CanBeCancelled, Deleted, TokenInUse,
         SourceInUse, HoldingSet, TokenCount;
    if lab.Step? && lab.o in s.calls {
      InvCall(s, lab.o);
    }
  }

  lemma {:induction false} OrderStays(run: seq<State>, labs: seq<Label>, i: nat, k: nat, x: Id, y: Id)
    requires IsRun(run, labs) && i <= k < |run| && InOrder(run[i].list, x, y) && Settled(run[i], y)
    ensures InOrder(run[k].list, x, y) && Settled(run[k], y)
  {
    hide Next, Init, Inv, InOrder, Settled;
    if i < k {
      OrderStays(run, labs, i, k - 1, x, y);
      RunInv(run, labs, k - 1);
      OrderStep(run[k - 1], run[k], labs[k - 1], x, y);
      SettledStep(run[k - 1], run[k], labs[k - 1], y);
    }
  }

  /** requestCancellation runs the callbacks from the front of the list, the newest first: when it takes one, no
      callback that stood before it is listed any more. */
  lemma NewestFirst(run: seq<State>, labs: seq<Label>, i: nat, k: nat, p: nat, q: nat)
    requires IsRun(run, labs) && i <= k < |labs| && p < q < |run[i].list| && Settled(run[i], run[i].list[q])
    requires run[k].sig.Signal? && run[k].sig.pc.SScan? && run[k + 1].sig.Signal? && run[k + 1].sig.pc.SUnlock?
    requires run[k + 1].sig.pc.cb == run[i].list[q]
    ensures run[i].list[p] !in run[k].list
  {
    hide Next, Init, Inv, Settled;
    var x, y := run[i].list[p], run[i].list[q];
    RunInv(run, labs, i);
    InvParts(run[i]);
    OrderStays(run, labs, i, k, x, y);
    TakesFirst(run[k], run[k + 1], labs[k]);
    assert run[k].list[0] == y;
  }

  lemma TakesFirst(s: State, s': State, lab: Label)
    requires Next(s, s', lab) && s.sig.Signal? && s.sig.pc.SScan? && s'.sig.Signal? && s'.sig.pc.SUnlock?
    ensures s.list != [] && s.list[0] == s'.sig.pc.cb
  {
    hide Without, OrLock, OrLockCancel, Add, IsLocked, IsCancelled, CanBeCancelled, Deleted, TokenInUse, SourceInUse,
         HoldingSet, TokenCount;
  }

  // -------------------------------------------------------------------- each callback runs at most once

  function Runs(s: State, cb: Id): (n: nat) {
    if cb in s.cbs then s.cbs[cb].inlineRuns + s.cbs[cb].signalRuns else 0
  }

  /** What a step may do to one callback object. */
  predicate Progress(s: State, s': State, cb: Id) {
    && Runs(s, cb) <= Runs(s', cb)
    && (cb in s.cbs ==>
          && cb in s'.cbs
          && (s.cbs[cb].life.Destroyed? ==> s'.cbs[cb] == s.cbs[cb]))
  }

  lemma RegisterProgress(s: State, s': State, o: Id, cb: Id)
    requires o in s.calls && s.calls[o].Register? && s.calls[o].cb in s.cbs && RegisterStep(s, s', o)
    requires s.cbs[s.calls[o].cb].life.Constructing?
    ensures Progress(s, s', cb)
  {
    hide Add, OrLock, IsLocked, IsCancelled, CanBeCancelled, TokenCount;
  }

  lemma UnregisterProgress(s: State, s': State, o: Id, cb: Id)
    requires o in s.calls && s.calls[o].Unregister? && s.calls[o].cb in s.cbs && UnregisterStep(s, s', o)
    requires s.cbs[s.calls[o].cb].life.Destroying?
    ensures Progress(s, s', cb)
  {
    hide Add, OrLock, IsLocked, Without, Deleted;
  }

  lemma CallProgress(s: State, s': State, o: Id, cb: Id)
    requires Inv(s) && AnyCallStep(s, s', o)
    ensures Progress(s, s', cb)
  {
    hide Inv, RegisterStep, UnregisterStep, OrLockCancel, IsLocked, IsCancelled, Progress;
    InvCall(s, o);
    match s.calls[o]
    case Register(_, _, _, _, _) => RegisterProgress(s, s', o, cb);
    case Unregister(_, _, _) => UnregisterProgress(s, s', o, cb);
    case Request(_, _, _) => RequestProgress(s, s', o, cb);
  }

  lemma RequestProgress(s: State, s': State, o: Id, cb: Id)
    requires o in s.calls && s.calls[o].Request? && RequestStep(s, s', o)
    ensures Progress(s, s', cb)
  {
    hide OrLockCancel, IsLocked, IsCancelled;
  }

  /** The signaller reads or writes the object in its next step. */
  predicate Accesses(g: Signal, cb: Id) {
    g.Signal? && (g.pc.SSetFlag? || g.pc.SInvoke? || g.pc.SClear? || g.pc.SComplete?) && g.pc.cb == cb
  }

  /** The signaller never touches a destroyed callback. */
  lemma NoAccessAfterDestroy(s: State, cb: Id)
    requires Inv(s) && Accesses(s.sig, cb)
    ensures cb in s.cbs && !s.cbs[cb].life.Destroyed?
  {
    hide Inv, WordInv, OwnerInv, RefInv, ListInv, OneCallEach, DropPending;
    InvParts(s);
    InvCb(s, cb);
  }

  lemma SignalProgress(s: State, s': State, cb: Id)
    requires Inv(s) && s.sig.Signal? && SigStep(s, s')
    ensures Progress(s, s', cb)
  {
    hide Inv, SignalLockStep, SignalRunStep;
    if SignalLockStep(s, s') {
      LockLeavesObjects(s, s');
    } else {
      if Accesses(s.sig, cb) {
        NoAccessAfterDestroy(s, cb);
      }
      RunProgress(s, s', cb);
    }
  }

  lemma LockLeavesObjects(s: State, s': State)
    requires s.sig.Signal? && SignalLockStep(s, s')
    ensures s'.cbs == s.cbs
  {
    hide Add, OrLock, IsLocked;
  }

  lemma RunProgress(s: State, s': State, cb: Id)
    requires s.sig.Signal? && SignalRunStep(s, s')
    requires Accesses(s.sig, cb) ==> cb in s.cbs && !s.cbs[cb].life.Destroyed?
    ensures Progress(s, s', cb)
  {
  }

  lemma StepProgress(s: State, s': State, lab: Label, cb: Id)
    requires Inv(s) && Next(s, s', lab)
    ensures Progress(s, s', cb)
  {
    hide Inv, Next, AnyCallStep, SigStep;
    if lab.Step? {
      NextCall(s, s', lab);
      CallProgress(s, s', lab.o, cb);
    } else if lab.SignalStep? {
      NextSignal(s, s', lab);
      SignalProgress(s, s', cb);
    } else if cb in s.cbs {
      OutsideKeeps(s, s', lab, cb);
      OutsideObject(s, s', lab, cb);
    }
  }

  lemma {:induction false} RunProgresses(run: seq<State>, labs: seq<Label>, i: nat, j: nat, cb: Id)
    requires IsRun(run, labs) && i <= j < |run|
    ensures Progress(run[i], run[j], cb)
  {
    hide Next, Init;
    if i < j {
      RunProgresses(run, labs, i, j - 1, cb);
      RunInv(run, labs, j - 1);
      StepProgress(run[j - 1], run[j], labs[j - 1], cb);
    }
  }

  lemma AtMostOneRun(s: State, cb: Id)
    requires Inv(s)
    ensures Runs(s, cb) <= 1
  {
    hide Inv;
    if cb in s.cbs {
      InvCb(s, cb);
    }
  }

  predicate Invokes(s: State, s': State, cb: Id) {
    Runs(s', cb) > Runs(s, cb)
  }

  /** In a whole run a callback is invoked at no more than one step. */
  lemma InvokedOnce(run: seq<State>, labs: seq<Label>, i: nat, j: nat, cb: Id)
    requires IsRun(run, labs) && i < |labs| && j < |labs|
    requires Invokes(run[i], run[i + 1], cb) && Invokes(run[j], run[j + 1], cb)
    ensures i == j
  {
    hide Next, Init, Inv;
    if i < j {
      RunProgresses(run, labs, i + 1, j, cb);
      RunInv(run, labs, j + 1);
      AtMostOneRun(run[j + 1], cb);
    } else if j < i {
      RunProgresses(run, labs, j + 1, i, cb);
      RunInv(run, labs, i + 1);
      AtMostOneRun(run[i + 1], cb);
    }
  }

  // -------------------------------------------------------------------- the fate of a callback

  datatype Fate =
    | RanInline          // its constructor found the state cancelled
    | RanBySignal        // run by the thread that cancelled
    | Taken              // taken from the list by that thread, about to be run
    | Listed             // still registered
    | Removed            // deregistered before it ran
    | NeverCancellable   // no source was left when it was constructed

  predicate HasFate(s: State, cb: Id, f: Fate)
    requires cb in s.cbs
  {
    var c := s.cbs[cb];
    match f
    case RanInline => c.inlineRuns == 1
    case RanBySignal => c.signalRuns == 1
    case Taken => CurrentIs(s, cb) && c.signalRuns == 0
    case Listed => cb in s.list
    case Removed => c.registered && c.signalRuns == 0 && cb !in s.list && !CurrentIs(s, cb)
                    && (c.life.Destroyed? || BeingRemoved(s, cb))
    case NeverCancellable => !c.registered && c.inlineRuns == 0
  }

  /** A finished callback has one fate and no other. */
  lemma FateOf(s: State, cb: Id) returns (f: Fate)
    requires Inv(s) && cb in s.cbs && !s.cbs[cb].life.Constructing?
    ensures HasFate(s, cb, f) && (forall h | HasFate(s, cb, h) :: h == f)
    ensures f.NeverCancellable? ==> s.sources == {} && !Cancelled(s)
  {
    hide Inv, DropPending, BeingRemoved;
    InvCb(s, cb);
    var c := s.cbs[cb];
    f := if c.inlineRuns == 1 then RanInline
         else if !c.registered then NeverCancellable
         else if c.signalRuns == 1 then RanBySignal
         else if CurrentIs(s, cb) then Taken
         else if cb in s.list then Listed
         else Removed;
  }

  /** Each finished callback of a run has exactly one fate; after the cancelling call has returned it has
      either run exactly once or been deregistered without running. */
  lemma EveryCallbackSettles(run: seq<State>, labs: seq<Label>, i: nat, cb: Id) returns (f: Fate)
    requires IsRun(run, labs) && i < |run| && cb in run[i].cbs && !run[i].cbs[cb].life.Constructing?
    ensures HasFate(run[i], cb, f) && (forall h | HasFate(run[i], cb, h) :: h == f)
    ensures run[i].sig.Signal? && run[i].sig.pc.SReturned? ==> f.RanInline? || f.RanBySignal? || f.Removed?
    ensures f.RanInline? || f.RanBySignal? <==> Runs(run[i], cb) == 1
  {
    hide IsRun, Inv, WordInv, OwnerInv, RefInv, ListInv, OneCallEach, BeingRemoved, CbInv;
    RunInv(run, labs, i);
    InvParts(run[i]);
    AtMostOneRun(run[i], cb);
    f := FateOf(run[i], cb);
    if Runs(run[i], cb) == 1 {
      assert HasFate(run[i], cb, RanInline) || HasFate(run[i], cb, RanBySignal);
    }
  }

  lemma {:induction false} SourcesStayGone(run: seq<State>, labs: seq<Label>, i: nat, j: nat)
    requires IsRun(run, labs) && i <= j < |run| && run[i].sources == {} && !Cancelled(run[i])
    ensures run[j].sources == {} && !Cancelled(run[j])
  {
    hide Next, Init;
    if i < j {
      SourcesStayGone(run, labs, i, j - 1);
      RunInv(run, labs, j - 1);
      GoneStep(run[j - 1], run[j], labs[j - 1]);
    }
  }

  lemma GoneStep(s: State, s': State, lab: Label)
    requires Inv(s) && Next(s, s', lab) && s.sources == {} && !Cancelled(s)
    ensures s'.sources == {} && !Cancelled(s')
  {
    hide Inv, WordInv, OwnerInv, OneCallEach, ListInv, SignalInv, Next, IsLocked, IsCancelled, AnyCallStep, CallHolds;
    InvParts(s);
    DeleteTests(s);
    if lab.Step? {
      NextCall(s, s', lab);
      CallEffects(s, s', lab.o);
    } else if lab.SignalStep? {
      NextSignal(s, s', lab);
    } else {
      OutsideEffect(s, s', lab);
    }
  }

  /** A callback that was not registered because no source was left is never cancelled later. */
  lemma NeverCancellableStays(run: seq<State>, labs: seq<Label>, i: nat, j: nat, cb: Id)
    requires IsRun(run, labs) && i <= j < |run| && cb in run[i].cbs && !run[i].cbs[cb].life.Constructing?
    requires HasFate(run[i], cb, NeverCancellable)
    ensures !Cancelled(run[j])
  {
    hide IsRun, Inv;
    RunInv(run, labs, i);
    var f := FateOf(run[i], cb);
    SourcesStayGone(run, labs, i, j);
  }

  // -------------------------------------------------------------------- deregistration

  /** The destructor of a registered callback returns. */
  predicate RemoveReturns(s: State, s': State, o: Id) {
    o in s.calls && s.calls[o].Unregister? && o !in s'.calls
  }

  lemma RemoveStep(s: State, s': State, o: Id)
    requires Inv(s) && Next(s, s', Step(o)) && RemoveReturns(s, s', o)
    ensures var cb := s.calls[o].cb;
            && cb in s'.cbs && s'.cbs[cb].life.Destroyed? && s'.sig == s.sig && cb !in s'.list
            && (CurrentIs(s', cb) ==>
                  s.sig.Signal? && s.calls[o].tid == s.sig.tid && s'.sig.pc.SRunning? && s'.sig.flag)
  {
    hide Inv, WordInv, OwnerInv, RefInv, ListInv, OneCallEach, DropPending, Add, OrLock, IsLocked, Without, Deleted,
         OthersOk;
    InvParts(s);
    InvCall(s, o);
    InvCb(s, s.calls[o].cb);
  }

  /** When removeCallback returns on a thread other than the signalling one, the callback is not running, is
      not listed, and in the rest of the run it is never run and never accessed again. */
  lemma RemovedElsewhereIsOver(run: seq<State>, labs: seq<Label>, i: nat, j: nat, o: Id)
    requires IsRun(run, labs) && i < |labs| && i < j < |run| && labs[i] == Step(o)
             && RemoveReturns(run[i], run[i + 1], o)
    requires run[i].sig.Signal? ==> run[i].calls[o].tid != run[i].sig.tid
    ensures var cb := run[i].calls[o].cb;
            && cb in run[j].cbs && run[j].cbs[cb] == run[i + 1].cbs[cb]
            && !CurrentIs(run[j], cb) && cb !in run[j].list
  {
    hide Init, Next, Inv, CurrentIs;
    var cb := run[i].calls[o].cb;
    RunInv(run, labs, i);
    assert Next(run[i], run[i + 1], labs[i]);
    RemoveStep(run[i], run[i + 1], o);
    NotRunningStays(run, labs, i + 1, j, cb);
  }

  lemma {:induction false} NotRunningStays(run: seq<State>, labs: seq<Label>, i: nat, j: nat, cb: Id)
    requires IsRun(run, labs) && i <= j < |run|
    requires cb in run[i].cbs && run[i].cbs[cb].life.Destroyed? && !CurrentIs(run[i], cb)
    ensures cb in run[j].cbs && run[j].cbs[cb] == run[i].cbs[cb] && !CurrentIs(run[j], cb) && cb !in run[j].list
  {
    hide Init, Next, Inv, CurrentIs;
    RunProgresses(run, labs, i, j, cb);
    RunInv(run, labs, j);
    DestroyedUnlisted(run[j], cb);
    if i < j {
      NotRunningStays(run, labs, i, j - 1, cb);
      RunInv(run, labs, j - 1);
      DestroyedNotTaken(run[j - 1], run[j], labs[j - 1], cb);
    }
  }

  lemma DestroyedUnlisted(s: State, cb: Id)
    requires Inv(s) && cb in s.cbs && s.cbs[cb].life.Destroyed?
    ensures cb !in s.list
  {
    hide Inv, DropPending, BeingRemoved, BeingAdded;
    InvCb(s, cb);
  }

  lemma DestroyedNotTaken(s: State, s': State, lab: Label, cb: Id)
    requires Inv(s) && Next(s, s', lab) && cb in s.cbs && s.cbs[cb].life.Destroyed? && !CurrentIs(s, cb)
    ensures !CurrentIs(s', cb)
  {
    hide Inv, WordInv, OwnerInv, RefInv, OneCallEach, ListInv, SignalInv, Next, IsLocked, IsCancelled, AnyCallStep,
         SigStep, CallHolds;
    InvParts(s);
    DeleteTests(s);
    DestroyedUnlisted(s, cb);
    if lab.Step? {
      NextCall(s, s', lab);
      CallEffects(s, s', lab.o);
    } else if lab.SignalStep? {
      NextSignal(s, s', lab);
      SignalEffects(s, s', cb);
    } else {
      OutsideEffect(s, s', lab);
    }
  }

  /** Once the destructor has returned, wherever it ran, the object keeps its contents and the signalling
      thread makes no further access to it. */
  lemma RemovedIsNeverAccessed(run: seq<State>, labs: seq<Label>, i: nat, j: nat, o: Id)
    requires IsRun(run, labs) && i < |labs| && i < j < |run| && labs[i] == Step(o)
             && RemoveReturns(run[i], run[i + 1], o)
    ensures var cb := run[i].calls[o].cb;
            && cb in run[j].cbs && run[j].cbs[cb] == run[i + 1].cbs[cb]
            && !Accesses(run[j].sig, cb) && cb !in run[j].list
  {
    hide Init, Next, Inv, Accesses;
    var cb := run[i].calls[o].cb;
    RunInv(run, labs, i);
    assert Next(run[i], run[i + 1], labs[i]);
    RemoveStep(run[i], run[i + 1], o);
    RunProgresses(run, labs, i + 1, j, cb);
    RunInv(run, labs, j);
    DestroyedUnlisted(run[j], cb);
    if Accesses(run[j].sig, cb) {
      NoAccessAfterDestroy(run[j], cb);
    }
  }

  // -------------------------------------------------------------------- counts and deletion

  function TokenField(w: nat): (n: nat) {
    w / TOKEN_INC % MAX_TOKENS
  }

  function SourceField(w: nat): (n: nat) {
    w / SOURCE_INC
  }

  lemma FieldsOf(c: bool, l: bool, t: nat, u: nat)
    requires Fits(t, u)
    ensures TokenField(Pack(c, l, t, u)) == t && SourceField(Pack(c, l, t, u)) == u
  {
    assert SOURCE_INC == TOKEN_INC * MAX_TOKENS;
    assert Pack(c, l, t, u) == Bit(c) + 2 * Bit(l) + TOKEN_INC * (t + MAX_TOKENS * u);
    assert Pack(c, l, t, u) / TOKEN_INC == t + MAX_TOKENS * u;
  }

  /** The token field counts the tokens and the registered callbacks not yet destroyed, run or not; the
      source field counts the sources; the flags say who holds the lock and whether there was a winner. */
  lemma WordCountsHolders(run: seq<State>, labs: seq<Label>, i: nat)
    requires IsRun(run, labs) && i < |run|
    ensures var s := run[i];
            && TokenField(s.word) == |s.tokens| + |HoldingSet(s.cbs)| && SourceField(s.word) == |s.sources|
            && IsLocked(s.word) == !s.owner.Free? && IsCancelled(s.word) == Cancelled(s)
  {
    hide IsRun, Inv, OwnerInv, RefInv, SignalInv, ListInv, OneCallEach, TokenField, SourceField, IsLocked, IsCancelled,
         Pack;
    var s := run[i];
    RunInv(run, labs, i);
    InvParts(s);
    FieldsOf(Cancelled(s), !s.owner.Free?, TokenCount(s), |s.sources|);
    DeleteTests(s);
  }

  /** Nothing of the state is in use: no holder, no call, no lock, no listed callback, no signaller. */
  predicate Quiet(s: State) {
    && s.tokens == {} && s.sources == {} && s.calls == map[] && s.owner.Free? && s.list == []
    && (s.sig.Signal? ==> s.sig.pc.SReturned?) && (forall cb | cb in s.cbs :: !Holding(s.cbs[cb]))
  }

  lemma DeletedIsQuiet(s: State)
    requires Inv(s) && s.deletes != 0
    ensures Quiet(s)
  {
    hide Inv, ListInv, SignalInv, OneCallEach, HoldingSet, Pack;
    InvParts(s);
    forall o | o in s.calls
      ensures false
    {
      NoHolderNoCall(s, o);
    }
    assert s.calls == map[];
    NoHolder(s);
    if s.list != [] {
      ListedHolds(s, s.list[0]);
    }
  }

  lemma NoHolder(s: State)
    requires TokenCount(s) == 0
    ensures forall cb | cb in s.cbs :: !Holding(s.cbs[cb])
  {
    forall cb | cb in s.cbs
      ensures !Holding(s.cbs[cb])
    {
      assert cb !in HoldingSet(s.cbs);
    }
  }

  lemma NoHolderNoCall(s: State, o: Id)
    requires Inv(s) && o in s.calls
    ensures s.sources != {} || TokenCount(s) > 0
  {
    hide Inv, ListInv, SignalInv, OneCallEach, WordInv, OwnerInv;
    InvParts(s);
    InvCall(s, o);
    if s.calls[o].Unregister? {
      assert s.calls[o].cb in HoldingSet(s.cbs);
    }
  }

  lemma ListedHolds(s: State, cb: Id)
    requires Inv(s) && cb in s.list
    ensures TokenCount(s) > 0 || s.calls != map[]
  {
    hide Inv, SignalInv, OneCallEach, WordInv, RefInv, DropPending;
    InvParts(s);
    InvCb(s, cb);
    if Holding(s.cbs[cb]) {
      assert cb in HoldingSet(s.cbs);
    }
  }

  lemma DeletedOnlyDestroys(s: State, s': State, lab: Label)
    requires Quiet(s) && Next(s, s', lab)
    ensures lab.Destroy? && s'.word == s.word && s'.deletes == s.deletes && s'.list == s.list && Quiet(s')
  {
    hide Add, TokenCount, Deleted, MayRun, RegisterStep, UnregisterStep, RequestStep;
  }

  /** The state is deleted exactly when both counts are zero, at most once in a run. */
  lemma DeletedOnce(run: seq<State>, labs: seq<Label>, i: nat)
    requires IsRun(run, labs) && i < |run|
    ensures run[i].deletes == if TokenField(run[i].word) == 0 && SourceField(run[i].word) == 0 then 1 else 0
  {
    hide IsRun, Inv, OwnerInv, RefInv, SignalInv, ListInv, OneCallEach, TokenField, SourceField, Pack;
    RunInv(run, labs, i);
    InvParts(run[i]);
    WordCountsHolders(run, labs, i);
  }

  /** The deleting step leaves nothing that could still use the state, and no later step of the run does. */
  lemma {:induction false} NothingAfterDelete(run: seq<State>, labs: seq<Label>, i: nat, j: nat)
    requires IsRun(run, labs) && i <= j < |run| && run[i].deletes != 0
    ensures Quiet(run[j]) && run[j].word == run[i].word && run[j].deletes == run[i].deletes
    ensures j < |labs| ==> labs[j].Destroy?
  {
    hide Init, Next, Inv, Quiet;
    RunInv(run, labs, i);
    DeletedIsQuiet(run[i]);
    if i < j {
      NothingAfterDelete(run, labs, i, j - 1);
      DeletedOnlyDestroys(run[j - 1], run[j], labs[j - 1]);
    }
    if j < |labs| {
      DeletedOnlyDestroys(run[j], run[j + 1], labs[j]);
    }
  }
}
