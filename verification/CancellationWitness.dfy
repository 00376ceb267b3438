/**
 A run in which requestCancellation returns early while the lock is held: its last callback has returned, and
 before the call looks at anyMore another thread has taken the lock to remove that callback.
 */
module CancellationWitness {
  import opened Common
  import opened Cancellation

  const W: nat := SOURCE_INC   // one source

  /** One source, one callback 0, registered by thread 1 with token 0. */
  function Shot(word: nat, owner: Owner, list: seq<Id>, tokens: set<Id>, cbs: map<Id, Callback>,
                calls: map<Id, Call>): (s: State) {
    State(word, owner, 0, list, None, tokens, {0}, cbs, calls, NoSignal)
  }

  /** Thread 1 has requested cancellation and is at `pc`. */
  function Signalling(word: nat, owner: Owner, list: seq<Id>, cb: Callback, calls: map<Id, Call>,
                      pc: SignalPc): (s: State) {
    State(word, owner, 0, list, if pc.SSetTid? then None else Some(1), {}, {0}, map[0 := cb], calls,
          Signal(1, 0, false, pc))
  }

  const FRESH := Callback(Constructing, false, false, false, 0, 0)
  const READY := FRESH.(life := Alive, registered := true)
  const FLAGGED := READY.(flagSet := true)
  const RAN := READY.(signalRuns := 1)
  const LEAVING := RAN.(life := Destroying)

  function Registering(pc: RegisterPc): (c: map<Id, Call>) {
    map[0 := Register(1, 0, 0, true, pc)]
  }

  function Requesting(pc: RequestPc): (c: map<Id, Call>) {
    map[1 := Request(1, 0, pc)]
  }

  function Removing(pc: UnregisterPc): (c: map<Id, Call>) {
    map[2 := Unregister(2, 0, pc)]
  }

  function At(n: nat): (s: State) {
    match n
    case 0 => Shot(W, Free, [], {}, map[], map[])
    case 1 => Shot(W + 8, Free, [], {0}, map[], map[])
    case 2 => Shot(W + 8, Free, [], {0}, map[0 := FRESH], Registering(RLoad))
    case 3 => Shot(W + 8, Free, [], {0}, map[0 := FRESH], Registering(RTry(W + 8)))
    case 4 => Shot(W + 10, ByCall(0), [], {0}, map[0 := FRESH], Registering(RPush))
    case 5 => Shot(W + 10, ByCall(0), [0], {0}, map[0 := FRESH], Registering(RUnlock))
    case 6 => Shot(W + 8, Free, [0], {}, map[0 := READY], map[])
    case 7 => Shot(W + 8, Free, [0], {}, map[0 := READY], Requesting(QLoad))
    case 8 => Shot(W + 8, Free, [0], {}, map[0 := READY], Requesting(QTry(W + 8)))
    case 9 => Signalling(W + 11, BySignal, [0], READY, map[], SSetTid)
    case 10 => Signalling(W + 11, BySignal, [0], READY, map[], SScan)
    case 11 => Signalling(W + 11, BySignal, [], READY, map[], SUnlock(0, false))
    case 12 => Signalling(W + 9, Free, [], READY, map[], SSetFlag(0, false))
    case 13 => Signalling(W + 9, Free, [], FLAGGED, map[], SInvoke(0, false))
    case 14 => Signalling(W + 9, Free, [], FLAGGED.(signalRuns := 1), map[], SRunning(0, false))
    case 15 => Signalling(W + 9, Free, [], FLAGGED.(signalRuns := 1), map[], SAfter(0, false))
    case 16 => Signalling(W + 9, Free, [], FLAGGED.(signalRuns := 1), map[], SClear(0, false))
    case 17 => Signalling(W + 9, Free, [], RAN, map[], SComplete(0, false))
    case 18 => Signalling(W + 9, Free, [], LEAVING, Removing(ULoad), SComplete(0, false))
    case 19 => Signalling(W + 9, Free, [], LEAVING, Removing(UTry(W + 9)), SComplete(0, false))
    case 20 => Signalling(W + 11, ByCall(2), [], LEAVING, Removing(ULook), SComplete(0, false))
    case 21 => Signalling(W + 11, ByCall(2), [], LEAVING.(completed := true), Removing(ULook), SNext(false))
    case _ => Signalling(W + 11, ByCall(2), [], LEAVING.(completed := true), Removing(ULook), SReturned)
  }

  function Did(n: nat): (lab: Label) {
    match n
    case 0 => AddToken(0)
    case 1 => Start(0)
    case 6 => Start(1)
    case 7 => Step(1)
    case 8 => Step(1)
    case 17 => Start(2)
    case 18 => Step(2)
    case 19 => Step(2)
    case _ => if n < 6 then Step(0) else SignalStep
  }

  const LAST: nat := 22

  lemma Starts()
    ensures Next(At(0), At(1), Did(0)) && Next(At(1), At(2), Did(1))
  {
    assert HoldingSet(At(0).cbs) == {};
    assert !TokenInUse(At(1), 0);
  }

  lemma Registers(n: nat)
    requires 2 <= n < 6
    ensures Next(At(n), At(n + 1), Did(n))
  {
    assert {0} - {0} == {};
    assert At(5).calls - {0} == map[];
  }

  lemma Requests(n: nat)
    requires 6 <= n < 9
    ensures Next(At(n), At(n + 1), Did(n))
  {
    assert At(8).calls - {1} == map[];
  }

  lemma Takes(n: nat)
    requires 9 <= n < 12
    ensures Next(At(n), At(n + 1), Did(n))
  {
    assert At(10).list[1..] == [];
  }

  lemma Invokes(n: nat)
    requires 12 <= n < 17
    ensures Next(At(n), At(n + 1), Did(n))
  {
  }

  lemma Removes(n: nat)
    requires 17 <= n < 20
    ensures Next(At(n), At(n + 1), Did(n))
  {
  }

  lemma Leaves(n: nat)
    requires 20 <= n < LAST
    ensures Next(At(n), At(n + 1), Did(n))
  {
  }

  /** The winner returns without the lock bit being clear. */
  lemma EarlyReturnWhileLocked() returns (run: seq<State>, labs: seq<Label>)
    ensures IsRun(run, labs) && |labs| == LAST && ReturnsFalse(run[LAST - 1], run[LAST])
    ensures run[LAST - 1].sig.pc == SNext(false) && IsLocked(run[LAST].word)
  {
    hide At, Did, Next;
    run, labs := seq(LAST + 1, n requires 0 <= n => At(n)), seq(LAST, n requires 0 <= n => Did(n));
    Ends();
    forall n | 0 <= n < |labs|
      ensures Next(run[n], run[n + 1], labs[n])
    {
      if n < 2 {
        Starts();
      } else if n < 6 {
        Registers(n);
      } else if n < 9 {
        Requests(n);
      } else if n < 12 {
        Takes(n);
      } else if n < 17 {
        Invokes(n);
      } else if n < 20 {
        Removes(n);
      } else {
        Leaves(n);
      }
    }
  }

  lemma Ends()
    ensures Init(At(0)) && ReturnsFalse(At(LAST - 1), At(LAST))
    ensures At(LAST - 1).sig.pc == SNext(false) && IsLocked(At(LAST).word)
  {
  }
}
