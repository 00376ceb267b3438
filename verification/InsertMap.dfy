/**
 AtomicUnorderedInsertMap: lock-free chaining in a fixed array of slots.

 Slot `b` is both a bucket (its word's upper bits are the head of the chain of keys that hash to
 `b`) and storage for one key and value (its word's lowest two bits say who uses the storage).
 One step performs one atomic operation on a word, or one plain read or write.
 */
module InsertMap {
  import opened Common

  type Key = int
  type Val = int
  type Tid = nat

  /** `wide` selects the 64-bit IndexType; the default is 32 bits wide. */
  datatype Config = Config(numSlots: nat, wide: bool, slotOf: Key -> nat) {
    const modulus: nat := if wide then 0x1_0000_0000_0000_0000 else 0x1_0000_0000

    ghost predicate Valid() {
      && 1 <= numSlots && 4 * numSlots <= modulus
      && forall k :: slotOf(k) < numSlots
    }
  }

  /** keyToSlotIdx: the hash is masked to less than 2^m, then reduced by subtraction. */
  method KeyToSlotIdx(hash: nat, pow: nat, numSlots: nat) returns (slot: nat)
    requires pow > 0 && numSlots > 0
    ensures slot < numSlots && slot == (hash % pow) % numSlots
  {
    slot := hash % pow;
    ghost var q := 0;
    while slot >= numSlots
      invariant hash % pow == slot + q * numSlots
    {
      slot := slot - numSlots;
      q := q + 1;
    }
    RemainderBySubtraction(hash % pow, slot, q, numSlots);
  }

  // -------------------------------------------------------------------- packed words

  const EMPTY: nat := 0
  const CONSTRUCTING: nat := 1
  const LINKED: nat := 2

  function Head(w: nat): (h: nat) {
    w / 4
  }

  function SlotState(w: nat): (st: nat) {
    w % 4
  }

  /** headAndState_ += (after - before), in IndexType arithmetic. */
  function StateUpdate(cfg: Config, w: nat, before: nat, after: nat): (w': nat)
    requires cfg.Valid()
  {
    (w + after - before) % cfg.modulus
  }

  lemma StateUpdateKeepsHead(cfg: Config, w: nat, before: nat, after: nat)
    requires cfg.Valid() && w < cfg.modulus && SlotState(w) == before && before <= 2 && after <= 2
    requires Head(w) < cfg.numSlots
    ensures var w' := StateUpdate(cfg, w, before, after);
            Head(w') == Head(w) && SlotState(w') == after && w' < cfg.modulus
  {
    assert 0 <= w + after - before < cfg.modulus;
  }

  // -------------------------------------------------------------------- state

  datatype Slot = Slot(word: nat, next: nat, key: Option<Key>, val: Option<Val>)

  datatype Result = Existing(slot: nat) | Created(slot: nat) | NoSpace | Threw | FoundAt(slot: nat)

  datatype Pc =
    | LoadPrev                                      // prev = slots_[slot].headAndState_
    | LoadHead                                      // find: load the head
    | Test(cur: nat)                                // find: stop at 0, else compare the key
    | Follow(cur: nat)                              // find: cur = slots_[cur].next_
    | Pick(tries: nat)                              // allocateNear: choose and load a slot
    | TryAlloc(tries: nat, a: nat, seen: nat)       // allocateNear: CAS EMPTY to CONSTRUCTING
    | BuildKey                                      // copy the key; may throw
    | BuildValue                                    // call func; may throw
    | SetNext                                       // slots_[idx].next_ = prev >> 2
    | CasHead                                       // CAS the bucket's word from prev to after
    | MarkLinked                                    // stateUpdate(CONSTRUCTING, LINKED)
    | Drop(res: Result)                             // destroy the unused key and value
    | Release(res: Result)                          // stateUpdate(CONSTRUCTING, EMPTY)
    | Done(res: Result)

  /** `idx` is the slot the call has allocated, 0 if none; `insert` tells findOrConstruct from find. */
  datatype Local = Local(insert: bool, key: Key, val: Val, prev: nat, idx: nat, pc: Pc)

  datatype State = State(slots: seq<Slot>, threads: map<Tid, Local>)

  const MAX_TRIES: nat := 1000

  function Bucket(cfg: Config, l: Local): (b: nat) {
    cfg.slotOf(l.key)
  }

  // -------------------------------------------------------------------- steps

  /** The slots allocateNear may try: eight neighbours, then any slot. */
  predicate MayTry(cfg: Config, start: nat, tries: nat, a: nat) {
    && a < cfg.numSlots
    && (tries < 8 && start + tries < cfg.numSlots ==> a == start + tries)
  }

  /** What the search for the key does when it reaches `hit` (0: nothing found). */
  function AfterSearch(l: Local, hit: nat): (pc: Pc) {
    if !l.insert then Done(FoundAt(hit))
    else if hit != 0 then (if l.idx == 0 then Done(Existing(hit)) else Drop(Existing(hit)))
    else if l.idx == 0 then Pick(0)
    else SetNext
  }

  ghost predicate ReadStep(cfg: Config, s: State, l: Local, s': State, l': Local)
    requires cfg.Valid() && |s.slots| == cfg.numSlots
  {
    && s'.slots == s.slots
    && match l.pc
       case LoadPrev => l' == l.(prev := s.slots[Bucket(cfg, l)].word, pc := LoadHead)
       case LoadHead => l' == l.(pc := Test(Head(s.slots[Bucket(cfg, l)].word)))
       case Test(cur) =>
         if cur == 0 then l' == l.(pc := AfterSearch(l, 0))
         else cur < |s.slots|
              && l' == l.(pc := if s.slots[cur].key == Some(l.key) then AfterSearch(l, cur) else Follow(cur))
       case Follow(cur) => cur < |s.slots| && l' == l.(pc := Test(s.slots[cur].next))
       case Pick(tries) =>
         if tries >= MAX_TRIES then l' == l.(pc := Done(NoSpace))
         else
           exists a: nat ::
             MayTry(cfg, Bucket(cfg, l), tries, a) && l' == l.(pc := TryAlloc(tries, a, s.slots[a].word))
       case _ => false
  }

  ghost predicate WriteStep(cfg: Config, s: State, l: Local, s': State, l': Local)
    requires cfg.Valid() && |s.slots| == cfg.numSlots
  {
    var b := Bucket(cfg, l);
    match l.pc
    case TryAlloc(tries, a, seen) =>
      && a < |s.slots|
      && if SlotState(seen) == EMPTY && s.slots[a].word == seen
         then s'.slots == s.slots[a := s.slots[a].(word := seen + CONSTRUCTING - EMPTY)]
              && l' == l.(idx := a, pc := BuildKey)
         else s'.slots == s.slots && l' == l.(pc := Pick(tries + 1))
    case BuildKey =>
      && l.idx < |s.slots|
      && (|| (s'.slots == s.slots && l' == l.(pc := Release(Threw)))
          || (s'.slots == s.slots[l.idx := s.slots[l.idx].(key := Some(l.key))] && l' == l.(pc := BuildValue)))
    case BuildValue =>
      && l.idx < |s.slots|
      && (|| (s'.slots == s.slots && l' == l.(pc := Drop(Threw)))
          || (s'.slots == s.slots[l.idx := s.slots[l.idx].(val := Some(l.val))] && l' == l.(pc := SetNext)))
    case SetNext =>
      && l.idx < |s.slots|
      && s'.slots == s.slots[l.idx := s.slots[l.idx].(next := Head(l.prev))] && l' == l.(pc := CasHead)
    case CasHead =>
      if s.slots[b].word == l.prev then
        && s'.slots == s.slots[b := s.slots[b].(word := 4 * l.idx + if b == l.idx then LINKED else SlotState(l.prev))]
        && l' == l.(pc := if b == l.idx then Done(Created(l.idx)) else MarkLinked)
      else s'.slots == s.slots && l' == l.(prev := s.slots[b].word, pc := LoadHead)
    case MarkLinked =>
      && l.idx < |s.slots|
      && s'.slots == s.slots[
           l.idx := s.slots[l.idx].(word := StateUpdate(cfg, s.slots[l.idx].word, CONSTRUCTING, LINKED))]
      && l' == l.(pc := Done(Created(l.idx)))
    case Drop(res) =>
      && l.idx < |s.slots|
      && s'.slots == s.slots[l.idx := s.slots[l.idx].(key := None, val := None)] && l' == l.(pc := Release(res))
    case Release(res) =>
      && l.idx < |s.slots|
      && s'.slots == s.slots[
           l.idx := s.slots[l.idx].(word := StateUpdate(cfg, s.slots[l.idx].word, CONSTRUCTING, EMPTY))]
      && l' == l.(pc := Done(res))
    case _ => false
  }

  predicate IsStart(l: Local) {
    l.prev == 0 && l.idx == 0 && l.pc == if l.insert then LoadPrev else LoadHead
  }

  ghost predicate Next(cfg: Config, s: State, s': State, t: Tid) {
    && cfg.Valid() && |s.slots| == cfg.numSlots
    && if t !in s.threads then
         && s'.slots == s.slots && t in s'.threads && IsStart(s'.threads[t])
         && s'.threads == s.threads[t := s'.threads[t]]
       else if s.threads[t].pc.Done? then
         s'.slots == s.slots && s'.threads == s.threads - {t}
       else
         && t in s'.threads && s'.threads == s.threads[t := s'.threads[t]]
         && (|| ReadStep(cfg, s, s.threads[t], s', s'.threads[t])
             || WriteStep(cfg, s, s.threads[t], s', s'.threads[t]))
  }

  ghost predicate Init(cfg: Config, s: State) {
    && cfg.Valid() && |s.slots| == cfg.numSlots && s.threads == map[]
    && forall c: nat | c < cfg.numSlots :: s.slots[c] == Slot(if c == 0 then CONSTRUCTING else EMPTY, 0, None, None)
  }

  // -------------------------------------------------------------------- invariant

  function At(path: seq<nat>, p: nat): (c: nat) {
    if p < |path| then path[p] else 0
  }

  /** `path` is the chain of bucket `b`: from its head, along next_, to the nil index 0. */
  ghost predicate IsChain(cfg: Config, s: State, b: nat, path: seq<nat>) {
    && b < cfg.numSlots == |s.slots|
    && Head(s.slots[b].word) == At(path, 0)
    && forall p: nat | p < |path| :: 1 <= path[p] < cfg.numSlots && s.slots[path[p]].next == At(path, p + 1)
  }

  type Chains = seq<seq<nat>>

  ghost predicate Listed(ch: Chains, c: nat) {
    exists b: nat :: b < |ch| && c in ch[b]
  }

  ghost predicate Linked(cfg: Config, s: State, ch: Chains) {
    && |ch| == cfg.numSlots == |s.slots|
    && forall b: nat | b < |ch| :: IsChain(cfg, s, b, ch[b])
  }

  /** A slot occurs at most once in all the chains. */
  ghost predicate Disjoint(ch: Chains) {
    forall b: nat, p: nat, d: nat, q: nat | b < |ch| && d < |ch| && p < |ch[b]| && q < |ch[d]| ::
      ch[b][p] == ch[d][q] ==> b == d && p == q
  }

  /** Keys sit in their bucket's chain and differ within it. */
  ghost predicate Keyed(cfg: Config, s: State, ch: Chains) {
    && (forall b: nat, p: nat | b < |ch| && p < |ch[b]| :: HoldsKeyOf(cfg, s, ch[b][p], b))
    && (forall b: nat, p: nat, q: nat | b < |ch| && p < |ch[b]| && q < |ch[b]| ::
          SameKey(s, ch[b][p], ch[b][q]) ==> p == q)
  }

  ghost predicate HoldsKeyOf(cfg: Config, s: State, c: nat, b: nat) {
    c < |s.slots| && s.slots[c].key.Some? && s.slots[c].val.Some? && cfg.slotOf(s.slots[c].key.value) == b
  }

  predicate SameKey(s: State, c: nat, d: nat) {
    c < |s.slots| && d < |s.slots| && s.slots[c].key == s.slots[d].key
  }

  ghost predicate ChainInv(cfg: Config, s: State, ch: Chains) {
    Linked(cfg, s, ch) && Disjoint(ch) && Keyed(cfg, s, ch)
  }

  predicate Owns(l: Local) {
    l.idx != 0 && !l.pc.Done?
  }

  /** Which pcs go with which kind of call and with having allocated a slot. */
  predicate Placed(cfg: Config, l: Local) {
    match l.pc
    case LoadPrev => l.insert && l.idx == 0
    case LoadHead | Test(_) | Follow(_) => l.insert || l.idx == 0
    case Pick(_) => l.insert && l.idx == 0
    case TryAlloc(_, a, _) => l.insert && l.idx == 0 && a < cfg.numSlots
    case Done(_) => l.insert || l.idx == 0
    case _ => l.insert && l.idx != 0
  }

  ghost predicate OwnInv(cfg: Config, s: State, ch: Chains, l: Local) {
    Owns(l) ==>
      && l.idx < |s.slots| == cfg.numSlots
      && SlotState(s.slots[l.idx].word) == CONSTRUCTING
      && (Listed(ch, l.idx) <==> l.pc.MarkLinked?)
      && (!(l.pc.BuildKey? || l.pc.Drop? || l.pc.Release?) ==> s.slots[l.idx].key == Some(l.key))
      && (!(l.pc.BuildKey? || l.pc.BuildValue? || l.pc.Drop? || l.pc.Release?) ==>
            s.slots[l.idx].val == Some(l.val))
      && (l.pc.CasHead? ==> s.slots[l.idx].next == Head(l.prev))
  }

  predicate HasKey(s: State, c: nat, k: Key) {
    c < |s.slots| && s.slots[c].key == Some(k)
  }

  /** The first `p` links of the chain do not hold `k`. */
  ghost predicate Clean(s: State, path: seq<nat>, k: Key, p: nat) {
    p <= |path| && forall q: nat | q < p :: !HasKey(s, path[q], k)
  }

  predicate SameHead(cfg: Config, s: State, l: Local) {
    Bucket(cfg, l) < |s.slots| && Head(s.slots[Bucket(cfg, l)].word) == Head(l.prev)
  }

  /** The search stands at position `p` of its bucket's chain; if the head is still the one the
      call started from, nothing before `p` holds the key. */
  ghost predicate SearchAt(cfg: Config, s: State, path: seq<nat>, l: Local, cur: nat, p: nat) {
    && p <= |path| && cur == At(path, p)
    && (l.insert && SameHead(cfg, s, l) ==> Clean(s, path, l.key, p))
  }

  /** While the head is still the one the call started from, no link of the chain holds the key. */
  ghost predicate Unbeaten(cfg: Config, s: State, path: seq<nat>, l: Local) {
    SameHead(cfg, s, l) ==> Clean(s, path, l.key, |path|)
  }

  ghost predicate SearchInv(cfg: Config, s: State, path: seq<nat>, l: Local) {
    && (l.insert && !l.pc.LoadPrev? ==> Head(l.prev) == 0 || Head(l.prev) in path)
    && match l.pc
       case Test(cur) => exists p: nat :: SearchAt(cfg, s, path, l, cur, p)
       case Follow(cur) => cur != 0 && !HasKey(s, cur, l.key) && exists p: nat :: SearchAt(cfg, s, path, l, cur, p)
       case Pick(_) | TryAlloc(_, _, _) | BuildKey | BuildValue | SetNext | CasHead => Unbeaten(cfg, s, path, l)
       case _ => true
  }

  /** The answer names a published slot that holds `k`, unless it reports that there is none. */
  ghost predicate Truthful(s: State, ch: Chains, k: Key, res: Result) {
    || res.NoSpace? || res.Threw? || res == FoundAt(0)
    || (Listed(ch, res.slot) && HasKey(s, res.slot, k))
  }

  ghost predicate ResultInv(s: State, ch: Chains, l: Local) {
    l.pc.Drop? || l.pc.Release? || l.pc.Done? ==> Truthful(s, ch, l.key, l.pc.res)
  }

  ghost predicate LocalInv(cfg: Config, s: State, ch: Chains, l: Local) {
    && Placed(cfg, l) && OwnInv(cfg, s, ch, l) && ResultInv(s, ch, l)
    && Bucket(cfg, l) < |ch| && SearchInv(cfg, s, ch[Bucket(cfg, l)], l)
  }

  ghost predicate SlotOk(cfg: Config, s: State, ch: Chains, c: nat) {
    && c < |s.slots|
    && s.slots[c].word < cfg.modulus && SlotState(s.slots[c].word) <= LINKED
    && Head(s.slots[c].word) < cfg.numSlots
    && (SlotState(s.slots[c].word) == LINKED ==> Listed(ch, c))
    && (Listed(ch, c) && SlotState(s.slots[c].word) != LINKED ==> BeingLinked(s, c))
  }

  ghost predicate SlotInv(cfg: Config, s: State, ch: Chains) {
    && 1 <= cfg.numSlots == |s.slots|
    && (forall c: nat | c < |s.slots| :: SlotOk(cfg, s, ch, c))
    && SlotState(s.slots[0].word) == CONSTRUCTING
  }

  /** Some call has published `c` and is about to mark it LINKED. */
  ghost predicate BeingLinked(s: State, c: nat) {
    exists t :: t in s.threads && s.threads[t].pc.MarkLinked? && s.threads[t].idx == c
  }

  ghost predicate OwnersDiffer(s: State) {
    forall t, u | t in s.threads && u in s.threads && Owns(s.threads[t]) && Owns(s.threads[u]) ::
      s.threads[t].idx == s.threads[u].idx ==> t == u
  }

  ghost predicate Inv(cfg: Config, s: State, ch: Chains) {
    && cfg.Valid() && ChainInv(cfg, s, ch) && SlotInv(cfg, s, ch) && OwnersDiffer(s)
    && forall t | t in s.threads :: LocalInv(cfg, s, ch, s.threads[t])
  }

  // -------------------------------------------------------------------- the invariant holds

  lemma InitInv(cfg: Config, s: State)
    requires Init(cfg, s)
    ensures Inv(cfg, s, seq(cfg.numSlots, _ => []))
  {
    var ch: Chains := seq(cfg.numSlots, _ => []);
    assert forall b: nat | b < |ch| :: ch[b] == [];
  }

  lemma InvParts(cfg: Config, s: State, ch: Chains)
    requires Inv(cfg, s, ch)
    ensures cfg.Valid() && ChainInv(cfg, s, ch) && SlotInv(cfg, s, ch) && OwnersDiffer(s)
    ensures |s.slots| == |ch| == cfg.numSlots && SlotState(s.slots[0].word) == CONSTRUCTING
  {
  }

  lemma InvOf(cfg: Config, s: State, ch: Chains, t: Tid)
    requires Inv(cfg, s, ch) && t in s.threads
    ensures LocalInv(cfg, s, ch, s.threads[t])
  {
  }

  lemma InvSlot(cfg: Config, s: State, ch: Chains, c: nat)
    requires Inv(cfg, s, ch) && c < |s.slots|
    ensures SlotOk(cfg, s, ch, c)
  {
  }

  /** Does this step publish a slot: a head CAS that succeeds? */
  predicate Publishes(cfg: Config, s: State, t: Tid)
    requires forall k :: cfg.slotOf(k) < |s.slots|
  {
    t in s.threads && s.threads[t].pc.CasHead? && s.slots[Bucket(cfg, s.threads[t])].word == s.threads[t].prev
  }

  function NextChains(cfg: Config, s: State, ch: Chains, t: Tid): (ch': Chains)
    requires (forall k :: cfg.slotOf(k) < |s.slots|) && |ch| == |s.slots|
  {
    if Publishes(cfg, s, t) then
      var b := Bucket(cfg, s.threads[t]);
      ch[b := [s.threads[t].idx] + ch[b]]
    else ch
  }

  /** Heads and the contents of published slots are the same in both states. */
  ghost predicate SameLists(s: State, s': State, ch: Chains) {
    && |s'.slots| == |s.slots|
    && forall c: nat | c < |s.slots| ::
         && Head(s'.slots[c].word) == Head(s.slots[c].word)
         && (Listed(ch, c) ==> && s'.slots[c].next == s.slots[c].next
                               && s'.slots[c].key == s.slots[c].key
                               && s'.slots[c].val == s.slots[c].val)
  }

  lemma FrameChain(cfg: Config, s: State, s': State, ch: Chains)
    requires ChainInv(cfg, s, ch) && SameLists(s, s', ch)
    ensures ChainInv(cfg, s', ch)
  {
    hide Head, SlotState, Linked, Disjoint, Keyed, Listed;
    FrameLinked(cfg, s, s', ch);
    FrameKeyed(cfg, s, s', ch);
  }

  lemma ListedAt(ch: Chains, b: nat, p: nat)
    requires b < |ch| && p < |ch[b]|
    ensures Listed(ch, ch[b][p])
  {
    assert ch[b][p] in ch[b];
  }

  lemma FrameLinked(cfg: Config, s: State, s': State, ch: Chains)
    requires Linked(cfg, s, ch) && SameLists(s, s', ch)
    ensures Linked(cfg, s', ch)
  {
    hide Head, SlotState, Listed;
    forall b: nat | b < |ch|
      ensures IsChain(cfg, s', b, ch[b])
    {
      assert IsChain(cfg, s, b, ch[b]);
      forall p: nat | p < |ch[b]|
        ensures 1 <= ch[b][p] < cfg.numSlots && s'.slots[ch[b][p]].next == At(ch[b], p + 1)
      {
        ListedAt(ch, b, p);
      }
    }
  }

  lemma FrameKeyed(cfg: Config, s: State, s': State, ch: Chains)
    requires Keyed(cfg, s, ch) && SameLists(s, s', ch)
    ensures Keyed(cfg, s', ch)
  {
    hide Head, SlotState, Listed;
    forall b: nat, p: nat | b < |ch| && p < |ch[b]|
      ensures HoldsKeyOf(cfg, s', ch[b][p], b) && s'.slots[ch[b][p]].key == s.slots[ch[b][p]].key
    {
      assert HoldsKeyOf(cfg, s, ch[b][p], b);
      ListedAt(ch, b, p);
    }
    forall b: nat, p: nat, q: nat | b < |ch| && p < |ch[b]| && q < |ch[b]| && SameKey(s', ch[b][p], ch[b][q])
      ensures p == q
    {
      assert HoldsKeyOf(cfg, s', ch[b][p], b) && HoldsKeyOf(cfg, s', ch[b][q], b);
      assert SameKey(s, ch[b][p], ch[b][q]);
    }
  }

  /** What the slots look like to a thread about to move. */
  ghost predicate Sane(cfg: Config, s: State, l: Local) {
    && cfg.Valid() && |s.slots| == cfg.numSlots
    && (forall c: nat | c < |s.slots| :: s.slots[c].word < cfg.modulus && Head(s.slots[c].word) < cfg.numSlots)
    && (Owns(l) ==> l.idx < cfg.numSlots && SlotState(s.slots[l.idx].word) == CONSTRUCTING)
    && SlotState(s.slots[0].word) == CONSTRUCTING
    && (l.pc.TryAlloc? ==> l.idx == 0)
    && (l.idx == 0 ==>
          !(l.pc.BuildKey? || l.pc.BuildValue? || l.pc.SetNext? || l.pc.CasHead? || l.pc.MarkLinked?
            || l.pc.Drop? || l.pc.Release?))
  }

  predicate SameData(a: Slot, b: Slot) {
    a.next == b.next && a.key == b.key && a.val == b.val
  }

  /** A step that does not publish changes nothing, or the slot it owns, or allocates an empty slot. */
  lemma QuietEffect(cfg: Config, s: State, l: Local, s': State, l': Local)
    requires Sane(cfg, s, l) && !(l.pc.CasHead? && s.slots[Bucket(cfg, l)].word == l.prev)
    requires ReadStep(cfg, s, l, s', l') || WriteStep(cfg, s, l, s', l')
    ensures l'.insert == l.insert && l'.key == l.key && l'.val == l.val
    ensures |s'.slots| == |s.slots|
    ensures || s'.slots == s.slots
            || (&& Owns(l) && s'.slots == s.slots[l.idx := s'.slots[l.idx]]
                && Head(s'.slots[l.idx].word) == Head(s.slots[l.idx].word)
                && (l.pc.MarkLinked? ==> SameData(s.slots[l.idx], s'.slots[l.idx])))
            || (&& !Owns(l) && Owns(l') && l'.idx < |s.slots| && SlotState(s.slots[l'.idx].word) == EMPTY
                && s'.slots == s.slots[l'.idx := s.slots[l'.idx].(word := s.slots[l'.idx].word + 1)]
                && Head(s.slots[l'.idx].word + 1) == Head(s.slots[l'.idx].word)
                && SlotState(s.slots[l'.idx].word + 1) == CONSTRUCTING)
  {
    if l.pc.MarkLinked? && Owns(l) {
      StateUpdateKeepsHead(cfg, s.slots[l.idx].word, CONSTRUCTING, LINKED);
    } else if l.pc.Release? && Owns(l) {
      StateUpdateKeepsHead(cfg, s.slots[l.idx].word, CONSTRUCTING, EMPTY);
    }
  }

  lemma SaneFrom(cfg: Config, s: State, ch: Chains, l: Local)
    requires cfg.Valid() && SlotInv(cfg, s, ch) && Placed(cfg, l) && OwnInv(cfg, s, ch, l)
    ensures Sane(cfg, s, l)
  {
    hide Head, SlotState, Listed, BeingLinked;
    forall c: nat | c < |s.slots|
      ensures s.slots[c].word < cfg.modulus && Head(s.slots[c].word) < cfg.numSlots
    {
      assert SlotOk(cfg, s, ch, c);
    }
  }

  lemma ThreadSane(cfg: Config, s: State, ch: Chains, t: Tid)
    requires Inv(cfg, s, ch) && t in s.threads
    ensures Sane(cfg, s, s.threads[t])
    ensures Owns(s.threads[t]) && !s.threads[t].pc.MarkLinked? ==> !Listed(ch, s.threads[t].idx)
    ensures |s.slots| == |ch| == cfg.numSlots
  {
    var l := s.threads[t];
    assert Placed(cfg, l) && OwnInv(cfg, s, ch, l) && SlotInv(cfg, s, ch) && Linked(cfg, s, ch) by {
      assert LocalInv(cfg, s, ch, l);
    }
    hide Inv, SlotInv, Sane, SlotState, Head, Listed;
    SaneFrom(cfg, s, ch, l);
  }

  /** Steps that do not publish leave the chains alone. */
  lemma QuietStep(cfg: Config, s: State, s': State, ch: Chains, t: Tid)
    requires Inv(cfg, s, ch) && Next(cfg, s, s', t) && !Publishes(cfg, s, t)
    ensures SameLists(s, s', ch)
  {
    hide Inv, ReadStep, WriteStep, Head, SlotState, Listed, Sane;
    if t in s.threads && !s.threads[t].pc.Done? {
      ThreadSane(cfg, s, ch, t);
      QuietEffect(cfg, s, s.threads[t], s', s'.threads[t]);
      var x := s'.threads[t].idx;
      if x < |s.slots| && SlotState(s.slots[x].word) == EMPTY {
        UnusedIsUnlisted(cfg, s, ch, x);
      }
    }
  }

  /** Nor do they touch a slot that another thread owns. */
  lemma OthersSlotUntouched(cfg: Config, s: State, s': State, ch: Chains, t: Tid, u: Tid)
    requires Inv(cfg, s, ch) && Next(cfg, s, s', t) && !Publishes(cfg, s, t)
    requires u in s.threads && u != t && Owns(s.threads[u])
    ensures s.threads[u].idx < |s.slots| == |s'.slots|
    ensures s'.slots[s.threads[u].idx] == s.slots[s.threads[u].idx]
  {
    hide ReadStep, WriteStep, Disjoint, Keyed, Linked, Head, Listed;
    assert LocalInv(cfg, s, ch, s.threads[u]);
    if t in s.threads && !s.threads[t].pc.Done? {
      ThreadSane(cfg, s, ch, t);
      QuietEffect(cfg, s, s.threads[t], s', s'.threads[t]);
    }
  }

  lemma UnusedIsUnlisted(cfg: Config, s: State, ch: Chains, c: nat)
    requires Inv(cfg, s, ch) && c < |s.slots| && SlotState(s.slots[c].word) == EMPTY
    ensures !Listed(ch, c)
  {
    hide Inv, Head, SlotState, Listed, SearchInv, ResultInv;
    InvSlot(cfg, s, ch, c);
    if BeingLinked(s, c) {
      var t :| t in s.threads && s.threads[t].pc.MarkLinked? && s.threads[t].idx == c;
      InvOf(cfg, s, ch, t);
    }
  }

  lemma PublishStep(cfg: Config, s: State, s': State, ch: Chains, t: Tid)
    requires Inv(cfg, s, ch) && Next(cfg, s, s', t) && Publishes(cfg, s, t)
    ensures var l := s.threads[t];
            var b := Bucket(cfg, l);
            && s'.slots == s.slots[b := s.slots[b].(word := s'.slots[b].word)]
            && Head(s'.slots[b].word) == l.idx && s'.slots[b].word < cfg.modulus
            && SlotState(s'.slots[b].word) == (if b == l.idx then LINKED else SlotState(s.slots[b].word))
            && 1 <= l.idx < cfg.numSlots && !Listed(ch, l.idx)
            && s.slots[l.idx].next == Head(s.slots[b].word)
            && s.slots[l.idx].key == Some(l.key) && s.slots[l.idx].val == Some(l.val)
            && Clean(s, ch[b], l.key, |ch[b]|)
            && t in s'.threads && s'.threads == s.threads[t := s'.threads[t]]
            && s'.threads[t] == l.(pc := if b == l.idx then Done(Created(l.idx)) else MarkLinked)
  {
    assert LocalInv(cfg, s, ch, s.threads[t]);
  }

  /** The slot `x` becomes the new head of bucket `b`; nothing else that matters changes. */
  ghost predicate Prepends(cfg: Config, s: State, s': State, ch: Chains, b: nat, x: nat) {
    && b < |ch| && 1 <= x < cfg.numSlots == |s.slots| && !Listed(ch, x)
    && |s'.slots| == |s.slots| && b < |s.slots| && s'.slots == s.slots[b := s.slots[b].(word := s'.slots[b].word)]
    && Head(s'.slots[b].word) == x && s.slots[x].next == Head(s.slots[b].word)
    && HoldsKeyOf(cfg, s, x, b)
    && forall p: nat | p < |ch[b]| :: !SameKey(s, ch[b][p], x)
  }

  lemma PrependPath(cfg: Config, s: State, s': State, path: seq<nat>, b: nat, x: nat)
    requires IsChain(cfg, s, b, path) && 1 <= x < cfg.numSlots && |s'.slots| == |s.slots|
    requires s'.slots == s.slots[b := s.slots[b].(word := s'.slots[b].word)]
    requires Head(s'.slots[b].word) == x && s.slots[x].next == Head(s.slots[b].word)
    ensures IsChain(cfg, s', b, [x] + path)
  {
    hide Head;
    var path' := [x] + path;
    forall p: nat | p < |path'|
      ensures 1 <= path'[p] < cfg.numSlots && s'.slots[path'[p]].next == At(path', p + 1)
    {
      assert At(path', p + 1) == At(path, p);
      assert p > 0 ==> path'[p] == path[p - 1];
    }
  }

  lemma PrependLinks(cfg: Config, s: State, s': State, ch: Chains, b: nat, x: nat)
    requires Linked(cfg, s, ch) && Prepends(cfg, s, s', ch, b, x)
    ensures Linked(cfg, s', ch[b := [x] + ch[b]])
  {
    hide Head;
    var ch' := ch[b := [x] + ch[b]];
    forall d: nat | d < |ch'|
      ensures IsChain(cfg, s', d, ch'[d])
    {
      assert IsChain(cfg, s, d, ch[d]);
      if d == b {
        PrependPath(cfg, s, s', ch[b], b, x);
      }
    }
  }

  lemma PrependDisjoint(ch: Chains, b: nat, x: nat)
    requires Disjoint(ch) && b < |ch| && !Listed(ch, x)
    ensures Disjoint(ch[b := [x] + ch[b]])
  {
    var ch' := ch[b := [x] + ch[b]];
    forall d: nat, p: nat, e: nat, q: nat
      | d < |ch'| && e < |ch'| && p < |ch'[d]| && q < |ch'[e]| && ch'[d][p] == ch'[e][q]
      ensures d == e && p == q
    {
      var p0 := if d == b then p - 1 else p;
      var q0 := if e == b then q - 1 else q;
      if p0 >= 0 {
        assert ch'[d][p] == ch[d][p0] && ch[d][p0] in ch[d];
      }
      if q0 >= 0 {
        assert ch'[e][q] == ch[e][q0] && ch[e][q0] in ch[e];
      }
    }
  }

  lemma PrependKeyed(cfg: Config, s: State, s': State, ch: Chains, b: nat, x: nat)
    requires Keyed(cfg, s, ch) && Prepends(cfg, s, s', ch, b, x)
    ensures Keyed(cfg, s', ch[b := [x] + ch[b]])
  {
    var ch' := ch[b := [x] + ch[b]];
    forall d: nat, p: nat | d < |ch'| && p < |ch'[d]|
      ensures HoldsKeyOf(cfg, s', ch'[d][p], d)
    {
      assert ch'[d][p] == if d != b then ch[d][p] else if p > 0 then ch[d][p - 1] else x;
    }
    forall d: nat, p: nat, q: nat | d < |ch'| && p < |ch'[d]| && q < |ch'[d]| && SameKey(s', ch'[d][p], ch'[d][q])
      ensures p == q
    {
      assert SameKey(s, ch'[d][p], ch'[d][q]);
      if d == b {
        if p > 0 { assert ch'[d][p] == ch[d][p - 1]; }
        if q > 0 { assert ch'[d][q] == ch[d][q - 1]; }
      }
    }
  }

  lemma PublishPrepends(cfg: Config, s: State, s': State, ch: Chains, t: Tid)
    requires Inv(cfg, s, ch) && Next(cfg, s, s', t) && Publishes(cfg, s, t)
    ensures Prepends(cfg, s, s', ch, Bucket(cfg, s.threads[t]), s.threads[t].idx)
  {
    hide Next, Disjoint;
    PublishStep(cfg, s, s', ch, t);
    var l := s.threads[t];
    assert IsChain(cfg, s, Bucket(cfg, l), ch[Bucket(cfg, l)]);
  }

  lemma PublishChain(cfg: Config, s: State, s': State, ch: Chains, t: Tid)
    requires Inv(cfg, s, ch) && Next(cfg, s, s', t) && Publishes(cfg, s, t)
    ensures ChainInv(cfg, s', NextChains(cfg, s, ch, t))
  {
    var b, x := Bucket(cfg, s.threads[t]), s.threads[t].idx;
    PublishPrepends(cfg, s, s', ch, t);
    assert ChainInv(cfg, s, ch);
    hide Inv, Next, Linked, Disjoint, Keyed;
    PrependLinks(cfg, s, s', ch, b, x);
    PrependDisjoint(ch, b, x);
    PrependKeyed(cfg, s, s', ch, b, x);
  }

  lemma StepChain(cfg: Config, s: State, s': State, ch: Chains, t: Tid)
    requires Inv(cfg, s, ch) && Next(cfg, s, s', t)
    ensures ChainInv(cfg, s', NextChains(cfg, s, ch, t))
  {
    assert ChainInv(cfg, s, ch);
    if Publishes(cfg, s, t) {
      PublishChain(cfg, s, s', ch, t);
    } else {
      hide Inv, Next;
      QuietStep(cfg, s, s', ch, t);
      FrameChain(cfg, s, s', ch);
    }
  }

  // Local invariants of the threads that do not move.

  lemma CleanFrame(s: State, s': State, ch: Chains, b: nat, k: Key, p: nat)
    requires b < |ch| && SameLists(s, s', ch) && Clean(s, ch[b], k, p)
    ensures Clean(s', ch[b], k, p)
  {
    assert forall q: nat | q < |ch[b]| :: ch[b][q] in ch[b] && Listed(ch, ch[b][q]);
  }

  lemma FrameSearch(cfg: Config, s: State, s': State, ch: Chains, l: Local)
    requires SameLists(s, s', ch) && Bucket(cfg, l) < |ch| && SearchInv(cfg, s, ch[Bucket(cfg, l)], l)
    ensures SearchInv(cfg, s', ch[Bucket(cfg, l)], l)
  {
    hide Clean, Head;
    var b := Bucket(cfg, l);
    if l.pc.Test? || l.pc.Follow? {
      var p: nat :| SearchAt(cfg, s, ch[b], l, l.pc.cur, p);
      if Clean(s, ch[b], l.key, p) {
        CleanFrame(s, s', ch, b, l.key, p);
      }
      assert SearchAt(cfg, s', ch[b], l, l.pc.cur, p);
      if l.pc.Follow? {
        assert l.pc.cur in ch[b] && Listed(ch, l.pc.cur);
      }
    } else if Clean(s, ch[b], l.key, |ch[b]|) {
      CleanFrame(s, s', ch, b, l.key, |ch[b]|);
    }
  }

  lemma FrameLocal(cfg: Config, s: State, s': State, ch: Chains, l: Local)
    requires SameLists(s, s', ch) && LocalInv(cfg, s, ch, l)
    requires Owns(l) ==> s'.slots[l.idx] == s.slots[l.idx]
    ensures LocalInv(cfg, s', ch, l)
  {
    hide Head, SlotState, SearchInv, Listed;
    FrameSearch(cfg, s, s', ch, l);
  }

  lemma ListedAfter(ch: Chains, b: nat, x: nat, c: nat)
    requires b < |ch|
    ensures Listed(ch[b := [x] + ch[b]], c) <==> Listed(ch, c) || c == x
  {
    var ch' := ch[b := [x] + ch[b]];
    assert x in ch'[b];
    if Listed(ch, c) {
      var d: nat :| d < |ch| && c in ch[d];
      assert c in ch'[d];
    }
    if Listed(ch', c) && c != x {
      var d: nat :| d < |ch'| && c in ch'[d];
      assert c in ch[d];
    }
  }

  /** A search on the bucket that gains a new head: its position moves by one, and the head it
      started from is no longer the head. */
  lemma PrependSearch(cfg: Config, s: State, s': State, ch: Chains, b: nat, x: nat, l: Local)
    requires Prepends(cfg, s, s', ch, b, x) && Bucket(cfg, l) < |ch|
    requires Placed(cfg, l) && SearchInv(cfg, s, ch[Bucket(cfg, l)], l)
    ensures SearchInv(cfg, s', ch[b := [x] + ch[b]][Bucket(cfg, l)], l)
  {
    hide Head;
    var d := Bucket(cfg, l);
    assert forall y, k :: HasKey(s', y, k) == HasKey(s, y, k);
    if d == b {
      assert x !in ch[b] by { assert !Listed(ch, x); }
      if l.pc.Test? || l.pc.Follow? {
        var p: nat :| SearchAt(cfg, s, ch[b], l, l.pc.cur, p);
        assert At([x] + ch[b], p + 1) == At(ch[b], p);
        assert SearchAt(cfg, s', [x] + ch[b], l, l.pc.cur, p + 1);
      }
    } else {
      if l.pc.Test? || l.pc.Follow? {
        var p: nat :| SearchAt(cfg, s, ch[d], l, l.pc.cur, p);
        assert SearchAt(cfg, s', ch[d], l, l.pc.cur, p);
      }
    }
  }

  lemma PrependLocal(cfg: Config, s: State, s': State, ch: Chains, b: nat, x: nat, l: Local)
    requires Prepends(cfg, s, s', ch, b, x) && LocalInv(cfg, s, ch, l)
    requires Owns(l) ==> l.idx != x
    requires b != x ==> SlotState(s'.slots[b].word) == SlotState(s.slots[b].word)
    ensures LocalInv(cfg, s', ch[b := [x] + ch[b]], l)
  {
    hide Head, SlotState, SearchInv, Listed;
    PrependSearch(cfg, s, s', ch, b, x, l);
    ListedAfter(ch, b, x, l.idx);
    if (l.pc.Drop? || l.pc.Release? || l.pc.Done?) && !l.pc.res.NoSpace? && !l.pc.res.Threw? {
      ListedAfter(ch, b, x, l.pc.res.slot);
    }
  }

  lemma OtherLocalInv(cfg: Config, s: State, s': State, ch: Chains, t: Tid, u: Tid)
    requires Inv(cfg, s, ch) && Next(cfg, s, s', t) && u in s'.threads && u != t
    ensures LocalInv(cfg, s', NextChains(cfg, s, ch, t), s'.threads[u])
  {
    assert u in s.threads && s'.threads[u] == s.threads[u] && LocalInv(cfg, s, ch, s.threads[u]);
    if Publishes(cfg, s, t) {
      assert Owns(s.threads[u]) ==> s.threads[u].idx != s.threads[t].idx by {
        assert LocalInv(cfg, s, ch, s.threads[t]);
      }
      PublishStep(cfg, s, s', ch, t);
      PublishPrepends(cfg, s, s', ch, t);
      hide Inv, Next, LocalInv, Head, SlotState;
      PrependLocal(cfg, s, s', ch, Bucket(cfg, s.threads[t]), s.threads[t].idx, s.threads[u]);
    } else {
      QuietStep(cfg, s, s', ch, t);
      if Owns(s.threads[u]) {
        OthersSlotUntouched(cfg, s, s', ch, t, u);
      }
      hide Inv, Next, LocalInv;
      FrameLocal(cfg, s, s', ch, s.threads[u]);
    }
  }

  // The thread that moves.

  /** Reading does not change what a search knows about keys and heads. */
  lemma SearchMoves(cfg: Config, s: State, s': State, path: seq<nat>, l: Local, l': Local, cur: nat, p: nat)
    requires s'.slots == s.slots && SearchAt(cfg, s, path, l, cur, p)
    requires l'.key == l.key && l'.insert == l.insert && l'.prev == l.prev
    ensures SearchAt(cfg, s', path, l', cur, p)
    ensures p < |path| && !HasKey(s, path[p], l.key) ==> SearchAt(cfg, s', path, l', At(path, p + 1), p + 1)
    ensures p == |path| && l.insert ==> Unbeaten(cfg, s', path, l')
  {
    hide Head;
    assert forall c, k :: HasKey(s', c, k) == HasKey(s, c, k);
  }

  lemma ReadSearch(cfg: Config, s: State, ch: Chains, l: Local, s': State, l': Local)
    requires cfg.Valid() && Linked(cfg, s, ch) && LocalInv(cfg, s, ch, l) && ReadStep(cfg, s, l, s', l')
    ensures SearchInv(cfg, s', ch[Bucket(cfg, l)], l')
    ensures ResultInv(s', ch, l')
  {
    var b := Bucket(cfg, l);
    var path := ch[b];
    assert IsChain(cfg, s, b, path);
    hide Head, SlotState, OwnInv, Linked, Unbeaten, SearchAt;
    match l.pc
    case LoadHead => SearchBegins(cfg, s', path, l', Head(s.slots[b].word));
    case Test(cur) =>
      var p: nat :| SearchAt(cfg, s, path, l, cur, p);
      SearchMoves(cfg, s, s', path, l, l', cur, p);
      SearchPosition(cfg, s, path, l, cur, p);
      assert cur != 0 ==> cur in path && Listed(ch, cur);
    case Follow(cur) =>
      var p: nat :| SearchAt(cfg, s, path, l, cur, p);
      SearchPosition(cfg, s, path, l, cur, p);
      SearchMoves(cfg, s, s', path, l, l', cur, p);
    case Pick(_) => UnbeatenMoves(cfg, s, s', path, l, l');
    case _ =>
  }

  lemma SearchBegins(cfg: Config, s: State, path: seq<nat>, l: Local, cur: nat)
    requires cur == At(path, 0)
    ensures SearchAt(cfg, s, path, l, cur, 0)
  {
  }

  lemma SearchPosition(cfg: Config, s: State, path: seq<nat>, l: Local, cur: nat, p: nat)
    requires SearchAt(cfg, s, path, l, cur, p) && forall q: nat | q < |path| :: path[q] != 0
    ensures if cur == 0 then p == |path| else p < |path| && path[p] == cur
  {
  }

  lemma UnbeatenMoves(cfg: Config, s: State, s': State, path: seq<nat>, l: Local, l': Local)
    requires s'.slots == s.slots && Unbeaten(cfg, s, path, l) && l'.key == l.key && l'.prev == l.prev
    ensures Unbeaten(cfg, s', path, l')
  {
    hide Head;
    assert forall c, k :: HasKey(s', c, k) == HasKey(s, c, k);
  }

  lemma ReadLocalInv(cfg: Config, s: State, ch: Chains, l: Local, s': State, l': Local)
    requires cfg.Valid() && Linked(cfg, s, ch) && LocalInv(cfg, s, ch, l) && ReadStep(cfg, s, l, s', l')
    ensures LocalInv(cfg, s', ch, l')
  {
    ReadSearch(cfg, s, ch, l, s', l');
    hide SearchInv, Head, SlotState, Listed;
  }

  lemma WriteSearch(cfg: Config, s: State, ch: Chains, l: Local, s': State, l': Local)
    requires cfg.Valid() && Linked(cfg, s, ch) && LocalInv(cfg, s, ch, l) && WriteStep(cfg, s, l, s', l')
    requires !(l.pc.CasHead? && s.slots[Bucket(cfg, l)].word == l.prev) && SameLists(s, s', ch)
    ensures SearchInv(cfg, s', ch[Bucket(cfg, l)], l') && l'.key == l.key
  {
    hide Clean, Listed, Head, SlotState, StateUpdate, SameLists, OwnInv, ResultInv;
    FrameSearch(cfg, s, s', ch, l);
    assert IsChain(cfg, s, Bucket(cfg, l), ch[Bucket(cfg, l)]);
  }

  lemma WriteResult(cfg: Config, s: State, ch: Chains, l: Local, s': State, l': Local)
    requires cfg.Valid() && Linked(cfg, s, ch) && LocalInv(cfg, s, ch, l) && WriteStep(cfg, s, l, s', l')
    requires !(l.pc.CasHead? && s.slots[Bucket(cfg, l)].word == l.prev) && SameLists(s, s', ch)
    ensures ResultInv(s', ch, l')
  {
    hide Clean, Listed, Head, SlotState, StateUpdate, SearchInv;
    FrameSearch(cfg, s, s', ch, l);
  }

  lemma AllocatedState(w: nat)
    ensures SlotState(w) == EMPTY ==> SlotState(w + CONSTRUCTING - EMPTY) == CONSTRUCTING
  {
  }

  lemma WriteOwn(cfg: Config, s: State, ch: Chains, l: Local, s': State, l': Local)
    requires cfg.Valid() && |s.slots| == cfg.numSlots && WriteStep(cfg, s, l, s', l')
    requires Placed(cfg, l) && OwnInv(cfg, s, ch, l)
    requires !(l.pc.CasHead? && s.slots[Bucket(cfg, l)].word == l.prev)
    requires SlotState(s.slots[0].word) == CONSTRUCTING
    requires l.pc.TryAlloc? && SlotState(s.slots[l.pc.a].word) == EMPTY ==> !Listed(ch, l.pc.a)
    ensures Placed(cfg, l') && OwnInv(cfg, s', ch, l')
  {
    hide Listed, Head, SlotState;
    if l.pc.TryAlloc? {
      AllocatedState(s.slots[l.pc.a].word);
    }
  }

  lemma WriteLocalInv(cfg: Config, s: State, ch: Chains, l: Local, s': State, l': Local)
    requires cfg.Valid() && Linked(cfg, s, ch) && LocalInv(cfg, s, ch, l) && WriteStep(cfg, s, l, s', l')
    requires !(l.pc.CasHead? && s.slots[Bucket(cfg, l)].word == l.prev) && SameLists(s, s', ch)
    requires SlotState(s.slots[0].word) == CONSTRUCTING
    requires l.pc.TryAlloc? && SlotState(s.slots[l.pc.a].word) == EMPTY ==> !Listed(ch, l.pc.a)
    ensures LocalInv(cfg, s', ch, l')
  {
    assert |s.slots| == cfg.numSlots;
    hide Linked, SearchInv, ResultInv, OwnInv, Placed, SameLists, Listed, Head, SlotState, WriteStep;
    WriteSearch(cfg, s, ch, l, s', l');
    WriteResult(cfg, s, ch, l, s', l');
    WriteOwn(cfg, s, ch, l, s', l');
  }

  lemma PublishedLocal(cfg: Config, s: State, s': State, ch: Chains, l: Local, l': Local)
    requires var b := Bucket(cfg, l);
             && cfg.Valid() && Prepends(cfg, s, s', ch, b, l.idx) && |ch| == cfg.numSlots
             && l.pc.CasHead? && s.slots[b].word == l.prev && WriteStep(cfg, s, l, s', l')
    requires LocalInv(cfg, s, ch, l)
    ensures var b := Bucket(cfg, l); LocalInv(cfg, s', ch[b := [l.idx] + ch[b]], l')
  {
    hide Head, Listed, Clean, SlotState;
    var b := Bucket(cfg, l);
    ListedAfter(ch, b, l.idx, l.idx);
    assert forall c | c in ch[b] :: c in [l.idx] + ch[b];
  }

  lemma PublishLocalInv(cfg: Config, s: State, s': State, ch: Chains, t: Tid)
    requires Inv(cfg, s, ch) && Next(cfg, s, s', t) && Publishes(cfg, s, t)
    ensures t in s'.threads && LocalInv(cfg, s', NextChains(cfg, s, ch, t), s'.threads[t])
  {
    assert LocalInv(cfg, s, ch, s.threads[t]) && |ch| == cfg.numSlots;
    PublishPrepends(cfg, s, s', ch, t);
    hide Inv, LocalInv, Prepends, WriteStep;
    PublishedLocal(cfg, s, s', ch, s.threads[t], s'.threads[t]);
  }

  lemma MoverLocalInv(cfg: Config, s: State, s': State, ch: Chains, t: Tid)
    requires Inv(cfg, s, ch) && Next(cfg, s, s', t) && t in s'.threads
    ensures LocalInv(cfg, s', NextChains(cfg, s, ch, t), s'.threads[t])
  {
    if t !in s.threads {
      hide Inv;
    } else if Publishes(cfg, s, t) {
      PublishLocalInv(cfg, s, s', ch, t);
    } else {
      hide Inv, Linked, Listed, SlotState, SlotInv, SearchInv;
      var l, l' := s.threads[t], s'.threads[t];
      InvParts(cfg, s, ch);
      InvOf(cfg, s, ch, t);
      QuietStep(cfg, s, s', ch, t);
      if l.pc.TryAlloc? && SlotState(s.slots[l.pc.a].word) == EMPTY {
        UnusedIsUnlisted(cfg, s, ch, l.pc.a);
      }
      if ReadStep(cfg, s, l, s', l') {
        ReadLocalInv(cfg, s, ch, l, s', l');
      } else {
        WriteLocalInv(cfg, s, ch, l, s', l');
      }
    }
  }

  // Slots and owners.

  lemma WordAfter(cfg: Config, s: State, l: Local, s': State, l': Local, c: nat)
    requires Sane(cfg, s, l) && !(l.pc.CasHead? && s.slots[Bucket(cfg, l)].word == l.prev)
    requires ReadStep(cfg, s, l, s', l') || WriteStep(cfg, s, l, s', l')
    requires c < |s.slots|
    ensures |s'.slots| == |s.slots|
    ensures || s'.slots[c].word == s.slots[c].word
            || (s'.slots[c].word < cfg.modulus && Head(s'.slots[c].word) == Head(s.slots[c].word)
                && (|| (l.pc.MarkLinked? && c == l.idx && SlotState(s'.slots[c].word) == LINKED)
                    || (l.pc.Release? && c == l.idx && SlotState(s'.slots[c].word) == EMPTY)
                    || (l.pc.TryAlloc? && SlotState(s.slots[c].word) == EMPTY
                        && SlotState(s'.slots[c].word) == CONSTRUCTING)))
    ensures l.pc.MarkLinked? ==> SlotState(s'.slots[l.idx].word) == LINKED
  {
    if l.pc.MarkLinked? {
      StateUpdateKeepsHead(cfg, s.slots[l.idx].word, CONSTRUCTING, LINKED);
    } else if l.pc.Release? {
      StateUpdateKeepsHead(cfg, s.slots[l.idx].word, CONSTRUCTING, EMPTY);
    }
  }

  lemma QuietSlot(cfg: Config, s: State, s': State, ch: Chains, t: Tid, c: nat)
    requires Inv(cfg, s, ch) && Next(cfg, s, s', t) && !Publishes(cfg, s, t) && c < |s.slots|
    ensures SlotOk(cfg, s', ch, c)
  {
    hide Inv, ReadStep, WriteStep, Sane, Head, SlotState, Listed, SearchInv, ResultInv;
    InvSlot(cfg, s, ch, c);
    if BeingLinked(s, c) {
      var u :| u in s.threads && s.threads[u].pc.MarkLinked? && s.threads[u].idx == c;
      assert u != t ==> u in s'.threads && s'.threads[u] == s.threads[u];
    }
    if t in s.threads && !s.threads[t].pc.Done? {
      InvOf(cfg, s, ch, t);
      ThreadSane(cfg, s, ch, t);
      if SlotState(s.slots[c].word) == EMPTY {
        UnusedIsUnlisted(cfg, s, ch, c);
      }
      WordAfter(cfg, s, s.threads[t], s', s'.threads[t], c);
    }
  }

  lemma PublishSlot(cfg: Config, s: State, s': State, ch: Chains, t: Tid, c: nat)
    requires Inv(cfg, s, ch) && Next(cfg, s, s', t) && Publishes(cfg, s, t) && c < |s.slots|
    ensures SlotOk(cfg, s', NextChains(cfg, s, ch, t), c)
  {
    hide Inv, Next, Head, SlotState, Listed, Clean;
    var l, b := s.threads[t], Bucket(cfg, s.threads[t]);
    InvParts(cfg, s, ch);
    InvSlot(cfg, s, ch, c);
    PublishStep(cfg, s, s', ch, t);
    ListedAfter(ch, b, l.idx, c);
    if c == l.idx && b != c {
      assert t in s'.threads && s'.threads[t].pc.MarkLinked? && s'.threads[t].idx == c;
    } else if BeingLinked(s, c) {
      var u :| u in s.threads && s.threads[u].pc.MarkLinked? && s.threads[u].idx == c;
      assert u in s'.threads && s'.threads[u] == s.threads[u];
    }
  }

  lemma StepSlotInv(cfg: Config, s: State, s': State, ch: Chains, t: Tid)
    requires Inv(cfg, s, ch) && Next(cfg, s, s', t)
    ensures SlotInv(cfg, s', NextChains(cfg, s, ch, t))
  {
    hide Head, SlotState, Listed, BeingLinked;
    var ch' := NextChains(cfg, s, ch, t);
    assert |s'.slots| == |s.slots| == cfg.numSlots by {
      StepChain(cfg, s, s', ch, t);
    }
    assert cfg.Valid();
    hide Inv;
    forall c: nat | c < |s'.slots|
      ensures SlotOk(cfg, s', ch', c)
    {
      if Publishes(cfg, s, t) {
        PublishSlot(cfg, s, s', ch, t, c);
      } else {
        QuietSlot(cfg, s, s', ch, t, c);
      }
    }
    SlotZero(cfg, s, s', ch, t);
  }

  lemma SlotZero(cfg: Config, s: State, s': State, ch: Chains, t: Tid)
    requires Inv(cfg, s, ch) && Next(cfg, s, s', t)
    ensures 0 < |s'.slots| && SlotState(s'.slots[0].word) == CONSTRUCTING
  {
    assert SlotInv(cfg, s, ch);
    if Publishes(cfg, s, t) {
      PublishStep(cfg, s, s', ch, t);
    } else if t in s.threads && !s.threads[t].pc.Done? {
      ThreadSane(cfg, s, ch, t);
      WordAfter(cfg, s, s.threads[t], s', s'.threads[t], 0);
    }
  }

  lemma StepOwners(cfg: Config, s: State, s': State, ch: Chains, t: Tid)
    requires Inv(cfg, s, ch) && Next(cfg, s, s', t)
    ensures OwnersDiffer(s')
  {
    hide Inv, ReadStep, WriteStep, ChainInv, SlotInv;
    InvParts(cfg, s, ch);
    if t in s.threads && t in s'.threads && Owns(s'.threads[t]) {
      forall u | u in s'.threads && u != t && Owns(s'.threads[u])
        ensures s'.threads[u].idx != s'.threads[t].idx
      {
        NewOwnerDiffers(cfg, s, s', ch, t, u);
      }
    }
  }

  /** A thread keeps the slot it owns, or has just allocated an empty one. */
  lemma OwnershipMoves(cfg: Config, s: State, l: Local, s': State, l': Local)
    requires cfg.Valid() && |s.slots| == cfg.numSlots && Placed(cfg, l) && Owns(l')
    requires ReadStep(cfg, s, l, s', l') || WriteStep(cfg, s, l, s', l')
    ensures (Owns(l) && l'.idx == l.idx) || (l'.idx < |s.slots| && SlotState(s.slots[l'.idx].word) == EMPTY)
  {
    hide Head;
  }

  lemma NewOwnerDiffers(cfg: Config, s: State, s': State, ch: Chains, t: Tid, u: Tid)
    requires Inv(cfg, s, ch) && Next(cfg, s, s', t) && t in s.threads && t in s'.threads && Owns(s'.threads[t])
    requires u in s'.threads && u != t && Owns(s'.threads[u])
    ensures s'.threads[u].idx != s'.threads[t].idx
  {
    hide Inv, ReadStep, WriteStep, Head, SlotState, Listed, ChainInv, SlotInv, SearchInv, ResultInv;
    InvParts(cfg, s, ch);
    InvOf(cfg, s, ch, t);
    InvOf(cfg, s, ch, u);
    OwnershipMoves(cfg, s, s.threads[t], s', s'.threads[t]);
  }

  /** Every step of every thread keeps the invariant, with the chains growing only at the front. */
  lemma StepInv(cfg: Config, s: State, s': State, ch: Chains, t: Tid)
    requires Inv(cfg, s, ch) && Next(cfg, s, s', t)
    ensures Inv(cfg, s', NextChains(cfg, s, ch, t))
  {
    var ch' := NextChains(cfg, s, ch, t);
    StepChain(cfg, s, s', ch, t);
    StepSlotInv(cfg, s, s', ch, t);
    StepOwners(cfg, s, s', ch, t);
    forall u | u in s'.threads
      ensures LocalInv(cfg, s', ch', s'.threads[u])
    {
      if u == t {
        MoverLocalInv(cfg, s, s', ch, t);
      } else {
        OtherLocalInv(cfg, s, s', ch, t, u);
      }
    }
  }

  // -------------------------------------------------------------------- what a state shows

  lemma {:induction false} SameAt(cfg: Config, s: State, b: nat, p1: seq<nat>, p2: seq<nat>, i: nat)
    requires IsChain(cfg, s, b, p1) && IsChain(cfg, s, b, p2)
    ensures At(p1, i) == At(p2, i)
  {
    if i > 0 {
      SameAt(cfg, s, b, p1, p2, i - 1);
    }
  }

  /** A bucket has at most one chain. */
  lemma ChainUnique(cfg: Config, s: State, b: nat, p1: seq<nat>, p2: seq<nat>)
    requires IsChain(cfg, s, b, p1) && IsChain(cfg, s, b, p2)
    ensures p1 == p2
  {
    SameAt(cfg, s, b, p1, p2, |p1|);
    SameAt(cfg, s, b, p1, p2, |p2|);
    assert |p1| == |p2|;
    forall i: nat | i < |p1|
      ensures p1[i] == p2[i]
    {
      SameAt(cfg, s, b, p1, p2, i);
    }
  }

  ghost predicate InChain(cfg: Config, s: State, b: nat, c: nat) {
    exists path: seq<nat> :: IsChain(cfg, s, b, path) && c in path
  }

  ghost predicate Published(cfg: Config, s: State, c: nat) {
    exists b: nat :: b < cfg.numSlots && InChain(cfg, s, b, c)
  }

  ghost predicate PublishedKey(cfg: Config, s: State, c: nat, k: Key) {
    HasKey(s, c, k) && Published(cfg, s, c)
  }

  ghost predicate Absent(cfg: Config, s: State, k: Key) {
    forall c: nat :: !PublishedKey(cfg, s, c, k)
  }

  lemma InChainIff(cfg: Config, s: State, ch: Chains, b: nat, c: nat)
    requires Linked(cfg, s, ch) && b < |ch|
    ensures InChain(cfg, s, b, c) <==> c in ch[b]
  {
    assert IsChain(cfg, s, b, ch[b]);
    if InChain(cfg, s, b, c) {
      var path: seq<nat> :| IsChain(cfg, s, b, path) && c in path;
      ChainUnique(cfg, s, b, path, ch[b]);
    }
  }

  lemma PublishedIff(cfg: Config, s: State, ch: Chains, c: nat)
    requires Linked(cfg, s, ch)
    ensures Published(cfg, s, c) <==> Listed(ch, c)
  {
    hide IsChain, InChain;
    if Published(cfg, s, c) {
      var b: nat :| b < cfg.numSlots && InChain(cfg, s, b, c);
      InChainIff(cfg, s, ch, b, c);
    }
    if Listed(ch, c) {
      var b: nat :| b < |ch| && c in ch[b];
      InChainIff(cfg, s, ch, b, c);
    }
  }

  /** A published key sits in its bucket's chain. */
  lemma KeyInBucket(cfg: Config, s: State, ch: Chains, c: nat, k: Key)
    requires Linked(cfg, s, ch) && Keyed(cfg, s, ch) && PublishedKey(cfg, s, c, k)
    ensures cfg.slotOf(k) < |ch| && c in ch[cfg.slotOf(k)]
  {
    PublishedIff(cfg, s, ch, c);
    var b: nat :| b < |ch| && c in ch[b];
    var p: nat :| p < |ch[b]| && ch[b][p] == c;
    assert HoldsKeyOf(cfg, s, ch[b][p], b);
  }

  // -------------------------------------------------------------------- whole runs

  ghost predicate IsRun(cfg: Config, run: seq<State>, who: seq<Tid>) {
    && |run| == |who| + 1
    && Init(cfg, run[0])
    && forall n: nat | n < |who| :: Next(cfg, run[n], run[n + 1], who[n])
  }

  lemma {:induction false} RunInv(cfg: Config, run: seq<State>, who: seq<Tid>, n: nat) returns (ch: Chains)
    requires IsRun(cfg, run, who) && n < |run|
    ensures Inv(cfg, run[n], ch)
  {
    hide Inv, Next;
    if n == 0 {
      InitInv(cfg, run[0]);
      ch := seq(cfg.numSlots, _ => []);
    } else {
      var ch0 := RunInv(cfg, run, who, n - 1);
      StepInv(cfg, run[n - 1], run[n], ch0, who[n - 1]);
      InvParts(cfg, run[n - 1], ch0);
      ch := NextChains(cfg, run[n - 1], ch0, who[n - 1]);
    }
  }

  /** In every reachable state each chain is finite, never repeats a slot, ends at 0 and holds only
      keys that hash to its bucket. */
  lemma ChainsWellFormed(cfg: Config, run: seq<State>, who: seq<Tid>, n: nat, b: nat) returns (path: seq<nat>)
    requires IsRun(cfg, run, who) && n < |run| && b < cfg.numSlots
    ensures IsChain(cfg, run[n], b, path)
    ensures forall p: nat, q: nat | p < |path| && q < |path| :: path[p] == path[q] ==> p == q
    ensures forall p: nat | p < |path| :: HoldsKeyOf(cfg, run[n], path[p], b)
  {
    var ch := RunInv(cfg, run, who, n);
    InvParts(cfg, run[n], ch);
    path := ch[b];
  }

  lemma PublishedOnce(cfg: Config, s: State, ch: Chains, c: nat, d: nat, k: Key)
    requires Linked(cfg, s, ch) && Keyed(cfg, s, ch)
    requires PublishedKey(cfg, s, c, k) && PublishedKey(cfg, s, d, k)
    ensures c == d
  {
    hide Published;
    KeyInBucket(cfg, s, ch, c, k);
    KeyInBucket(cfg, s, ch, d, k);
    var b := cfg.slotOf(k);
    var p: nat :| p < |ch[b]| && ch[b][p] == c;
    var q: nat :| q < |ch[b]| && ch[b][q] == d;
    assert SameKey(s, ch[b][p], ch[b][q]);
  }

  /** No two published slots hold equal keys. */
  lemma PublishedKeysDiffer(cfg: Config, run: seq<State>, who: seq<Tid>, n: nat, c: nat, d: nat, k: Key)
    requires IsRun(cfg, run, who) && n < |run|
    requires PublishedKey(cfg, run[n], c, k) && PublishedKey(cfg, run[n], d, k)
    ensures c == d
  {
    hide Inv, Next, PublishedKey;
    var ch := RunInv(cfg, run, who, n);
    InvParts(cfg, run[n], ch);
    PublishedOnce(cfg, run[n], ch, c, d, k);
  }

  /** Published slots are exactly the LINKED ones and those a thread is about to mark LINKED. */
  lemma PublishedMeansLinked(cfg: Config, run: seq<State>, who: seq<Tid>, n: nat, c: nat)
    requires IsRun(cfg, run, who) && n < |run| && c < |run[n].slots|
    ensures Published(cfg, run[n], c) <==> SlotState(run[n].slots[c].word) == LINKED || BeingLinked(run[n], c)
  {
    hide Inv, Next, Published, SlotState, Listed, Head, SearchInv, ResultInv;
    var ch := RunInv(cfg, run, who, n);
    InvParts(cfg, run[n], ch);
    InvSlot(cfg, run[n], ch, c);
    PublishedIff(cfg, run[n], ch, c);
    if BeingLinked(run[n], c) {
      var t :| t in run[n].threads && run[n].threads[t].pc.MarkLinked? && run[n].threads[t].idx == c;
      InvOf(cfg, run[n], ch, t);
    }
  }

  /** Slot states only move EMPTY -> CONSTRUCTING -> LINKED or back from CONSTRUCTING to EMPTY, slot 0
      never moves, and no step changes both a slot's head and its state except the head CAS of a
      call that allocated its own bucket. */
  lemma SlotsMoveOneWay(cfg: Config, run: seq<State>, who: seq<Tid>, n: nat, c: nat)
    requires IsRun(cfg, run, who) && n < |who| && c < cfg.numSlots
    ensures |run[n].slots| == |run[n + 1].slots| == cfg.numSlots
    ensures var w, w' := run[n].slots[c].word, run[n + 1].slots[c].word;
            && (|| SlotState(w') == SlotState(w)
                || (SlotState(w) == EMPTY && SlotState(w') == CONSTRUCTING)
                || (SlotState(w) == CONSTRUCTING && SlotState(w') == LINKED)
                || (SlotState(w) == CONSTRUCTING && SlotState(w') == EMPTY))
            && (c == 0 ==> SlotState(w) == SlotState(w') == CONSTRUCTING)
            && (Head(w) != Head(w') && SlotState(w) != SlotState(w') ==>
                  Head(w') == c && SlotState(w) == CONSTRUCTING && SlotState(w') == LINKED)
  {
    hide Inv, Next, SlotState, Head, Listed, Sane, ReadStep, WriteStep;
    var s, s', t := run[n], run[n + 1], who[n];
    var ch := RunInv(cfg, run, who, n);
    InvParts(cfg, s, ch);
    SlotZero(cfg, s, s', ch, t);
    WordMove(cfg, s, s', ch, t, c);
  }

  lemma WordMove(cfg: Config, s: State, s': State, ch: Chains, t: Tid, c: nat)
    requires Inv(cfg, s, ch) && Next(cfg, s, s', t) && c < |s.slots|
    ensures |s'.slots| == |s.slots|
    ensures var w, w' := s.slots[c].word, s'.slots[c].word;
            && (|| SlotState(w') == SlotState(w)
                || (SlotState(w) == EMPTY && SlotState(w') == CONSTRUCTING)
                || (SlotState(w) == CONSTRUCTING && SlotState(w') == LINKED)
                || (SlotState(w) == CONSTRUCTING && SlotState(w') == EMPTY))
            && (Head(w) != Head(w') && SlotState(w) != SlotState(w') ==>
                  Head(w') == c && SlotState(w) == CONSTRUCTING && SlotState(w') == LINKED)
  {
    hide Inv, SlotState, Head, Listed, ReadStep, WriteStep, SearchInv, ResultInv, Clean;
    InvParts(cfg, s, ch);
    if Publishes(cfg, s, t) {
      PublishStep(cfg, s, s', ch, t);
      InvOf(cfg, s, ch, t);
    } else if t in s.threads && !s.threads[t].pc.Done? {
      ThreadSane(cfg, s, ch, t);
      InvOf(cfg, s, ch, t);
      WordAfter(cfg, s, s.threads[t], s', s'.threads[t], c);
    }
  }

  lemma PublishedStays(cfg: Config, s: State, s': State, ch: Chains, t: Tid, c: nat, k: Key)
    requires Inv(cfg, s, ch) && Next(cfg, s, s', t) && PublishedKey(cfg, s, c, k)
    ensures PublishedKey(cfg, s', c, k) && s'.slots[c].val == s.slots[c].val
  {
    hide Inv, Next, Listed, Published, SlotState, Head;
    InvParts(cfg, s, ch);
    PublishedIff(cfg, s, ch, c);
    StepChain(cfg, s, s', ch, t);
    PublishedIff(cfg, s', NextChains(cfg, s, ch, t), c);
    if Publishes(cfg, s, t) {
      PublishPrepends(cfg, s, s', ch, t);
      ListedAfter(ch, Bucket(cfg, s.threads[t]), s.threads[t].idx, c);
    } else {
      QuietStep(cfg, s, s', ch, t);
    }
  }

  lemma PublishedHasValue(cfg: Config, s: State, ch: Chains, c: nat, k: Key)
    requires Inv(cfg, s, ch) && PublishedKey(cfg, s, c, k)
    ensures s.slots[c].val.Some?
  {
    hide Inv, Published, Disjoint;
    InvParts(cfg, s, ch);
    KeyInBucket(cfg, s, ch, c, k);
    var b := cfg.slotOf(k);
    var p: nat :| p < |ch[b]| && ch[b][p] == c;
    assert HoldsKeyOf(cfg, s, ch[b][p], b);
  }

  /** Once published, a key stays published in the same slot, with the same value. */
  lemma {:induction false} PublishedForever(cfg: Config, run: seq<State>, who: seq<Tid>, n: nat, m: nat, c: nat, k: Key)
    requires IsRun(cfg, run, who) && n <= m < |run| && PublishedKey(cfg, run[n], c, k)
    ensures PublishedKey(cfg, run[m], c, k) && run[m].slots[c].val == run[n].slots[c].val && run[n].slots[c].val.Some?
  {
    hide Inv, Next, Published;
    if n == m {
      var ch := RunInv(cfg, run, who, n);
      PublishedHasValue(cfg, run[n], ch, c, k);
    } else {
      PublishedForever(cfg, run, who, n, m - 1, c, k);
      var ch := RunInv(cfg, run, who, m - 1);
      PublishedStays(cfg, run[m - 1], run[m], ch, who[m - 1], c, k);
    }
  }

  /** A key is published at most once in a run. */
  lemma KeyPublishedOnce(cfg: Config, run: seq<State>, who: seq<Tid>, n: nat, m: nat)
    requires IsRun(cfg, run, who) && n < m < |who| && cfg.Valid()
    requires |run[n].slots| == |run[m].slots| == cfg.numSlots
    requires Publishes(cfg, run[n], who[n]) && Publishes(cfg, run[m], who[m])
    ensures run[n].threads[who[n]].key != run[m].threads[who[m]].key
  {
    hide Inv, Next, PublishedKey, Published;
    var k := run[n].threads[who[n]].key;
    if k == run[m].threads[who[m]].key {
      var x := run[n].threads[who[n]].idx;
      var ch := RunInv(cfg, run, who, n);
      PublishMakesPresent(cfg, run[n], run[n + 1], ch, who[n]);
      PublishedForever(cfg, run, who, n + 1, m, x, k);
      var ch' := RunInv(cfg, run, who, m);
      PublishNeedsAbsent(cfg, run[m], run[m + 1], ch', who[m], x);
    }
  }

  lemma PublishMakesPresent(cfg: Config, s: State, s': State, ch: Chains, t: Tid)
    requires Inv(cfg, s, ch) && Next(cfg, s, s', t) && Publishes(cfg, s, t)
    ensures PublishedKey(cfg, s', s.threads[t].idx, s.threads[t].key)
  {
    hide Inv, Next, Listed, Published, SlotState, Head, Clean;
    InvParts(cfg, s, ch);
    var b, x := Bucket(cfg, s.threads[t]), s.threads[t].idx;
    PublishStep(cfg, s, s', ch, t);
    StepChain(cfg, s, s', ch, t);
    ListedAfter(ch, b, x, x);
    PublishedIff(cfg, s', NextChains(cfg, s, ch, t), x);
  }

  lemma PublishNeedsAbsent(cfg: Config, s: State, s': State, ch: Chains, t: Tid, c: nat)
    requires Inv(cfg, s, ch) && Next(cfg, s, s', t) && Publishes(cfg, s, t)
    ensures !PublishedKey(cfg, s, c, s.threads[t].key)
  {
    hide Inv, Next, Listed, Published, SlotState, Head;
    InvParts(cfg, s, ch);
    PublishStep(cfg, s, s', ch, t);
    if PublishedKey(cfg, s, c, s.threads[t].key) {
      KeyInBucket(cfg, s, ch, c, s.threads[t].key);
    }
  }

  // -------------------------------------------------------------------- finding a published key

  /** `c` is `gap` or more links after `cur` in the chain of `b`. */
  ghost predicate Ahead(cfg: Config, s: State, b: nat, cur: nat, c: nat, gap: nat) {
    exists path: seq<nat>, p: nat, q: nat :: AheadAt(cfg, s, b, path, p, q, cur, c, gap)
  }

  ghost predicate AheadAt(cfg: Config, s: State, b: nat, path: seq<nat>, p: nat, q: nat, cur: nat, c: nat, gap: nat) {
    IsChain(cfg, s, b, path) && p + gap <= q < |path| && path[p] == cur && path[q] == c
  }

  /** The call is on its way to slot `c`, or has answered `c`. */
  ghost predicate Seeking(cfg: Config, s: State, l: Local, c: nat) {
    && l.idx == 0
    && match l.pc
       case LoadPrev | LoadHead => true
       case Test(cur) => Ahead(cfg, s, Bucket(cfg, l), cur, c, 0)
       case Follow(cur) => Ahead(cfg, s, Bucket(cfg, l), cur, c, 1)
       case Done(res) => res == if l.insert then Existing(c) else FoundAt(c)
       case _ => false
  }

  /** In one step a chain keeps its links and gains at most a new head. */
  lemma ChainStep(cfg: Config, s: State, s': State, ch: Chains, u: Tid, b: nat)
    requires Inv(cfg, s, ch) && Next(cfg, s, s', u) && b < |ch|
    ensures IsChain(cfg, s, b, ch[b])
    ensures IsChain(cfg, s', b, ch[b]) || exists x: nat :: IsChain(cfg, s', b, [x] + ch[b])
  {
    hide Inv, Next, Disjoint, Keyed, IsChain;
    InvParts(cfg, s, ch);
    StepChain(cfg, s, s', ch, u);
    var ch' := NextChains(cfg, s, ch, u);
    assert IsChain(cfg, s', b, ch'[b]);
    if Publishes(cfg, s, u) && Bucket(cfg, s.threads[u]) == b {
      assert ch'[b] == [s.threads[u].idx] + ch[b];
    }
  }

  lemma AheadStays(cfg: Config, s: State, s': State, ch: Chains, u: Tid, b: nat, cur: nat, c: nat, gap: nat)
    requires Inv(cfg, s, ch) && Next(cfg, s, s', u) && b < |ch| && Ahead(cfg, s, b, cur, c, gap)
    ensures Ahead(cfg, s', b, cur, c, gap)
  {
    hide Inv, Next, IsChain;
    ChainStep(cfg, s, s', ch, u, b);
    var path: seq<nat>, p: nat, q: nat :| AheadAt(cfg, s, b, path, p, q, cur, c, gap);
    ChainUnique(cfg, s, b, path, ch[b]);
    if IsChain(cfg, s', b, path) {
      assert AheadAt(cfg, s', b, path, p, q, cur, c, gap);
    } else {
      var x: nat :| IsChain(cfg, s', b, [x] + path);
      assert AheadAt(cfg, s', b, [x] + path, p + 1, q + 1, cur, c, gap);
    }
  }

  lemma SeekOther(cfg: Config, s: State, s': State, ch: Chains, u: Tid, l: Local, c: nat)
    requires Inv(cfg, s, ch) && Next(cfg, s, s', u) && Seeking(cfg, s, l, c)
    ensures Seeking(cfg, s', l, c)
  {
    hide Inv, Next, Ahead, ChainInv, SlotInv;
    InvParts(cfg, s, ch);
    match l.pc
    case Test(cur) => AheadStays(cfg, s, s', ch, u, Bucket(cfg, l), cur, c, 0);
    case Follow(cur) => AheadStays(cfg, s, s', ch, u, Bucket(cfg, l), cur, c, 1);
    case _ =>
  }

  lemma SeekRead(cfg: Config, s: State, l: Local, s': State, l': Local, ch: Chains, c: nat)
    requires cfg.Valid() && Linked(cfg, s, ch) && Keyed(cfg, s, ch) && |s.slots| == cfg.numSlots
    requires c in ch[Bucket(cfg, l)] && HasKey(s, c, l.key) && Seeking(cfg, s, l, c) && ReadStep(cfg, s, l, s', l')
    ensures Seeking(cfg, s', l', c)
  {
    var b := Bucket(cfg, l);
    assert IsChain(cfg, s, b, ch[b]) && IsChain(cfg, s', b, ch[b]);
    match l.pc
    case LoadHead =>
      var q: nat :| q < |ch[b]| && ch[b][q] == c;
      assert AheadAt(cfg, s', b, ch[b], 0, q, l'.pc.cur, c, 0);
    case Test(cur) =>
      var path: seq<nat>, p: nat, q: nat :| AheadAt(cfg, s, b, path, p, q, cur, c, 0);
      ChainUnique(cfg, s, b, path, ch[b]);
      if HasKey(s, cur, l.key) {
        assert SameKey(s, ch[b][p], ch[b][q]);
      } else {
        assert AheadAt(cfg, s', b, path, p, q, cur, c, 1);
      }
    case Follow(cur) =>
      var path: seq<nat>, p: nat, q: nat :| AheadAt(cfg, s, b, path, p, q, cur, c, 1);
      assert AheadAt(cfg, s', b, path, p + 1, q, path[p + 1], c, 0);
    case _ =>
  }

  lemma SeekMover(cfg: Config, s: State, s': State, ch: Chains, t: Tid, c: nat)
    requires Inv(cfg, s, ch) && Next(cfg, s, s', t) && t in s.threads && !s.threads[t].pc.Done?
    requires PublishedKey(cfg, s, c, s.threads[t].key) && Seeking(cfg, s, s.threads[t], c)
    ensures t in s'.threads && s'.threads[t].key == s.threads[t].key && s'.threads[t].insert == s.threads[t].insert
    ensures Seeking(cfg, s', s'.threads[t], c)
  {
    hide Inv, Linked, Keyed, Disjoint, Ahead, Published;
    InvParts(cfg, s, ch);
    KeyInBucket(cfg, s, ch, c, s.threads[t].key);
    SeekRead(cfg, s, s.threads[t], s', s'.threads[t], ch, c);
  }

  /** From `run[a]` to `run[b]` thread `t` is inside one find or findOrConstruct call for `k`. */
  ghost predicate Call(run: seq<State>, a: nat, b: nat, t: Tid, k: Key) {
    && a <= b < |run|
    && (forall i | a <= i <= b :: t in run[i].threads)
    && (forall i | a <= i < b :: !run[i].threads[t].pc.Done?)
    && IsStart(run[a].threads[t]) && run[a].threads[t].key == k
  }

  lemma {:induction false} StaysSeeking(cfg: Config, run: seq<State>, who: seq<Tid>, a: nat, b: nat, t: Tid, k: Key,
                                        c: nat)
    requires IsRun(cfg, run, who) && Call(run, a, b, t, k) && PublishedKey(cfg, run[a], c, k)
    ensures run[b].threads[t].key == k && run[b].threads[t].insert == run[a].threads[t].insert
    ensures Seeking(cfg, run[b], run[b].threads[t], c)
  {
    hide Inv, Next, PublishedKey;
    if a < b {
      hide Seeking;
      StaysSeeking(cfg, run, who, a, b - 1, t, k, c);
      PublishedForever(cfg, run, who, a, b - 1, c, k);
      var ch := RunInv(cfg, run, who, b - 1);
      if who[b - 1] == t {
        SeekMover(cfg, run[b - 1], run[b], ch, t, c);
      } else {
        OthersStand(cfg, run[b - 1], run[b], who[b - 1], t);
        SeekOther(cfg, run[b - 1], run[b], ch, who[b - 1], run[b - 1].threads[t], c);
      }
    }
  }

  lemma OthersStand(cfg: Config, s: State, s': State, u: Tid, t: Tid)
    requires Next(cfg, s, s', u) && u != t && t in s.threads
    ensures t in s'.threads && s'.threads[t] == s.threads[t]
  {
  }

  /** A key published before a call starts is found by that call, in the slot it was published in. */
  lemma PublishedKeyIsFound(cfg: Config, run: seq<State>, who: seq<Tid>, n: nat, a: nat, b: nat, t: Tid, k: Key, c: nat)
    requires IsRun(cfg, run, who) && n <= a && Call(run, a, b, t, k) && PublishedKey(cfg, run[n], c, k)
    requires run[b].threads[t].pc.Done?
    ensures run[b].threads[t].pc.res == if run[a].threads[t].insert then Existing(c) else FoundAt(c)
  {
    hide Inv, Next, PublishedKey, Ahead;
    PublishedForever(cfg, run, who, n, a, c, k);
    StaysSeeking(cfg, run, who, a, b, t, k, c);
  }

  /** A find that answers "not found" ran at an instant when the key was not published, and every
      other answer names a published slot that holds the key. */
  lemma AnswersAreTrue(cfg: Config, run: seq<State>, who: seq<Tid>, a: nat, b: nat, t: Tid, k: Key)
    requires IsRun(cfg, run, who) && Call(run, a, b, t, k) && run[b].threads[t].pc.Done?
    ensures run[b].threads[t].pc.res == FoundAt(0) ==> Absent(cfg, run[a], k)
    ensures var res := run[b].threads[t].pc.res;
            res.Existing? || res.Created? || (res.FoundAt? && res.slot != 0) ==>
              PublishedKey(cfg, run[b], res.slot, run[b].threads[t].key)
  {
    hide Inv, Next, Published, Ahead, Head, SlotState, Listed, SearchInv;
    if run[b].threads[t].pc.res == FoundAt(0) {
      forall c: nat
        ensures !PublishedKey(cfg, run[a], c, k)
      {
        if PublishedKey(cfg, run[a], c, k) {
          PublishedKeyIsFound(cfg, run, who, a, a, b, t, k, c);
          var ch := RunInv(cfg, run, who, a);
          NilNotPublished(cfg, run[a], ch);
        }
      }
    }
    var ch := RunInv(cfg, run, who, b);
    InvParts(cfg, run[b], ch);
    InvOf(cfg, run[b], ch, t);
    if !run[b].threads[t].pc.res.NoSpace? && !run[b].threads[t].pc.res.Threw? {
      PublishedIff(cfg, run[b], ch, run[b].threads[t].pc.res.slot);
    }
  }

  lemma NilNotPublished(cfg: Config, s: State, ch: Chains)
    requires Inv(cfg, s, ch)
    ensures !Published(cfg, s, 0)
  {
    hide Inv, Disjoint, Keyed;
    InvParts(cfg, s, ch);
    PublishedIff(cfg, s, ch, 0);
    forall b: nat | b < |ch|
      ensures 0 !in ch[b]
    {
      assert IsChain(cfg, s, b, ch[b]);
    }
  }

  // -------------------------------------------------------------------- created

  /** The call has swung slot `c` into its bucket. */
  predicate HasMade(l: Local, c: nat) {
    || (l.pc.MarkLinked? && l.idx == c)
    || ((l.pc.Drop? || l.pc.Release? || l.pc.Done?) && l.pc.res == Created(c))
  }

  /** The key is published nowhere, and then in slot `c` with this value. */
  ghost predicate Makes(cfg: Config, s: State, s': State, c: nat, k: Key, v: Val) {
    Absent(cfg, s, k) && PublishedKey(cfg, s', c, k) && s'.slots[c].val == Some(v)
  }

  lemma CallKeeps(cfg: Config, s: State, l: Local, s': State, l': Local)
    requires cfg.Valid() && |s.slots| == cfg.numSlots
    requires ReadStep(cfg, s, l, s', l') || WriteStep(cfg, s, l, s', l')
    ensures l'.key == l.key && l'.val == l.val
    ensures forall c | HasMade(l', c) && !HasMade(l, c) ::
              l.idx == c && l.pc.CasHead? && s.slots[Bucket(cfg, l)].word == l.prev
  {
    hide Head, SlotState, StateUpdate;
  }

  lemma PublishMakes(cfg: Config, s: State, s': State, ch: Chains, t: Tid)
    requires Inv(cfg, s, ch) && Next(cfg, s, s', t) && Publishes(cfg, s, t)
    ensures Makes(cfg, s, s', s.threads[t].idx, s.threads[t].key, s.threads[t].val)
  {
    hide Inv, Next, Published, Listed, SlotState, Head, Clean;
    InvParts(cfg, s, ch);
    PublishMakesPresent(cfg, s, s', ch, t);
    PublishStep(cfg, s, s', ch, t);
    assert s'.slots[s.threads[t].idx].val == s.slots[s.threads[t].idx].val;
    forall c: nat
      ensures !PublishedKey(cfg, s, c, s.threads[t].key)
    {
      PublishNeedsAbsent(cfg, s, s', ch, t, c);
    }
  }

  lemma MadeStep(cfg: Config, s: State, s': State, ch: Chains, t: Tid, c: nat)
    requires Inv(cfg, s, ch) && Next(cfg, s, s', t) && t in s.threads && !s.threads[t].pc.Done? && t in s'.threads
    ensures s'.threads[t].key == s.threads[t].key && s'.threads[t].val == s.threads[t].val
    ensures HasMade(s'.threads[t], c) ==>
              HasMade(s.threads[t], c) || Makes(cfg, s, s', c, s.threads[t].key, s.threads[t].val)
  {
    hide Inv, ReadStep, WriteStep, Makes, HasMade;
    CallKeeps(cfg, s, s.threads[t], s', s'.threads[t]);
    if HasMade(s'.threads[t], c) && !HasMade(s.threads[t], c) {
      PublishMakes(cfg, s, s', ch, t);
    }
  }

  lemma {:induction false} CallKeepsPair(cfg: Config, run: seq<State>, who: seq<Tid>, a: nat, b: nat, t: Tid, k: Key)
    requires IsRun(cfg, run, who) && Call(run, a, b, t, k)
    ensures run[b].threads[t].key == k && run[b].threads[t].val == run[a].threads[t].val
  {
    hide Inv, Next, Init, IsStart;
    if a < b {
      CallKeepsPair(cfg, run, who, a, b - 1, t, k);
      var ch := RunInv(cfg, run, who, b - 1);
      if who[b - 1] == t {
        MadeStep(cfg, run[b - 1], run[b], ch, t, 0);
      } else {
        OthersStand(cfg, run[b - 1], run[b], who[b - 1], t);
      }
    }
  }

  lemma {:induction false} MadeInside(cfg: Config, run: seq<State>, who: seq<Tid>, a: nat, b: nat, t: Tid, k: Key,
                                      c: nat) returns (i: nat)
    requires IsRun(cfg, run, who) && Call(run, a, b, t, k) && HasMade(run[b].threads[t], c)
    ensures a <= i < b && who[i] == t && Makes(cfg, run[i], run[i + 1], c, k, run[a].threads[t].val)
  {
    hide Inv, Next, Init, Makes;
    i := b - 1;
    var ch := RunInv(cfg, run, who, i);
    CallKeepsPair(cfg, run, who, a, i, t, k);
    if who[i] == t {
      MadeStep(cfg, run[i], run[b], ch, t, c);
    } else {
      OthersStand(cfg, run[i], run[b], who[i], t);
    }
    if HasMade(run[i].threads[t], c) {
      i := MadeInside(cfg, run, who, a, i, t, k, c);
    }
  }

  /** Every findOrConstruct that answers "created" published its key, which no slot held before, with its value in
      that slot at one of its own steps between its call and its answer. */
  lemma CreatedWasMade(cfg: Config, run: seq<State>, who: seq<Tid>, a: nat, b: nat, t: Tid, k: Key) returns (i: nat)
    requires IsRun(cfg, run, who) && Call(run, a, b, t, k)
    requires run[b].threads[t].pc.Done? && run[b].threads[t].pc.res.Created?
    ensures a <= i < b && who[i] == t
    ensures Makes(cfg, run[i], run[i + 1], run[b].threads[t].pc.res.slot, k, run[a].threads[t].val)
  {
    hide IsRun, Makes;
    i := MadeInside(cfg, run, who, a, b, t, k, run[b].threads[t].pc.res.slot);
  }

  predicate HasThrown(pc: Pc) {
    (pc.Drop? || pc.Release? || pc.Done?) && pc.res.Threw?
  }

  lemma ThrownStep(cfg: Config, s: State, s': State, t: Tid)
    requires Next(cfg, s, s', t) && t in s.threads && !s.threads[t].pc.Done? && t in s'.threads
    requires HasThrown(s'.threads[t].pc) && !HasThrown(s.threads[t].pc)
    ensures (s.threads[t].pc.BuildKey? || s.threads[t].pc.BuildValue?) && s'.slots == s.slots
  {
    hide Head, StateUpdate;
  }

  /** Every findOrConstruct that answers "threw" failed to build its key or its value at one of its own steps between
      its call and its answer. */
  lemma {:induction false} ThrewWhileBuilding(cfg: Config, run: seq<State>, who: seq<Tid>, a: nat, b: nat, t: Tid,
                                              k: Key)
    returns (i: nat)
    requires IsRun(cfg, run, who) && Call(run, a, b, t, k) && HasThrown(run[b].threads[t].pc)
    ensures a <= i < b && who[i] == t && (run[i].threads[t].pc.BuildKey? || run[i].threads[t].pc.BuildValue?)
    ensures run[i + 1].slots == run[i].slots && HasThrown(run[i + 1].threads[t].pc)
  {
    hide Next, Init;
    i := b - 1;
    if who[i] != t {
      OthersStand(cfg, run[i], run[b], who[i], t);
    }
    if HasThrown(run[i].threads[t].pc) {
      i := ThrewWhileBuilding(cfg, run, who, a, i, t, k);
    } else {
      ThrownStep(cfg, run[i], run[b], t);
    }
  }

  // -------------------------------------------------------------------- no space

  /** Attempt `j` of allocateNear fails: its slot was in use when it was read, or changed before the compare-and-swap.
      The first eight attempts look at the bucket's own slot and its seven neighbours, where there are such. */
  predicate FailedAttempt(cfg: Config, s: State, s': State, t: Tid, j: nat) {
    && t in s.threads && t in s'.threads && s.threads[t].pc.TryAlloc? && s.threads[t].pc.tries == j
    && var (a, seen, start) := (s.threads[t].pc.a, s.threads[t].pc.seen, Bucket(cfg, s.threads[t]));
       && a < |s.slots| == cfg.numSlots && (j < 8 && start + j < cfg.numSlots ==> a == start + j)
       && (seen % 4 != 0 || s.slots[a].word != seen)
       && s'.slots == s.slots && s'.threads[t].pc == Pick(j + 1)
  }

  /** The attempts the call has made. */
  function AttemptsOf(pc: Pc): (n: nat) {
    match pc
    case Pick(tries) => tries
    case TryAlloc(tries, _, _) => tries
    case Drop(res) => if res.NoSpace? then 1000 else 0
    case Release(res) => if res.NoSpace? then 1000 else 0
    case Done(res) => if res.NoSpace? then 1000 else 0
    case _ => 0
  }

  /** The slot about to be tried is one of those allowed, as it was when it was read. */
  predicate TryingOk(cfg: Config, l: Local) {
    l.pc.TryAlloc? ==>
      && l.pc.a < cfg.numSlots
      && (l.pc.tries < 8 && Bucket(cfg, l) + l.pc.tries < cfg.numSlots ==> l.pc.a == Bucket(cfg, l) + l.pc.tries)
  }

  /** A step of the call makes at most one attempt more, and then one that failed. */
  lemma AttemptStep(cfg: Config, s: State, s': State, t: Tid)
    requires Next(cfg, s, s', t) && t in s.threads && !s.threads[t].pc.Done? && t in s'.threads
    requires TryingOk(cfg, s.threads[t]) && (s.threads[t].pc.Pick? ==> s.threads[t].pc.tries <= 1000)
    requires s.threads[t].pc.TryAlloc? ==> s.threads[t].pc.tries < 1000
    ensures TryingOk(cfg, s'.threads[t]) && (s'.threads[t].pc.Pick? ==> s'.threads[t].pc.tries <= 1000)
    ensures s'.threads[t].pc.TryAlloc? ==> s'.threads[t].pc.tries < 1000
    ensures var (n, n') := (AttemptsOf(s.threads[t].pc), AttemptsOf(s'.threads[t].pc));
            n' == 0 || n' == n || (n' == n + 1 && FailedAttempt(cfg, s, s', t, n))
  {
    hide Head, StateUpdate;
  }

  /** In `s` the call reads the word of the slot it is going to try in `l`. */
  predicate ReadsFor(s: State, t: Tid, l: Local) {
    && l.pc.TryAlloc? && t in s.threads && s.threads[t].pc == Pick(l.pc.tries)
    && l.pc.a < |s.slots| && s.slots[l.pc.a].word == l.pc.seen
  }

  lemma PickReads(cfg: Config, s: State, s': State, t: Tid)
    requires Next(cfg, s, s', t) && t in s.threads && !s.threads[t].pc.Done? && t in s'.threads
    ensures s'.threads[t].pc.TryAlloc? ==> ReadsFor(s, t, s'.threads[t])
  {
    hide Head, StateUpdate;
  }

  /** `at` are the steps of the call's first failed attempts, in order, and `read` those that read their slots. */
  ghost predicate FailedAt(cfg: Config, run: seq<State>, who: seq<Tid>, a: nat, b: nat, t: Tid, read: seq<nat>,
                           at: seq<nat>) {
    && a <= b < |run| == |who| + 1 && |read| == |at|
    && (forall j | 0 <= j < |at| :: a <= read[j] < at[j] < b && who[read[j]] == who[at[j]] == t)
    && (forall j | 0 <= j < |at| :: FailedAttempt(cfg, run[at[j]], run[at[j] + 1], t, j))
    && (forall j | 0 <= j < |at| ::
          t in run[at[j]].threads && ReadsFor(run[read[j]], t, run[at[j]].threads[t]))
    && (forall i, j | 0 <= i < j < |at| :: at[i] < at[j])
  }

  lemma FailedAtMore(cfg: Config, run: seq<State>, who: seq<Tid>, a: nat, b: nat, t: Tid, read: seq<nat>, at: seq<nat>,
                     pick: nat)
    requires FailedAt(cfg, run, who, a, b, t, read, at) && b < |who| && who[b] == t
    requires FailedAttempt(cfg, run[b], run[b + 1], t, |at|)
    requires a <= pick < b && who[pick] == t && t in run[b].threads && ReadsFor(run[pick], t, run[b].threads[t])
    ensures FailedAt(cfg, run, who, a, b + 1, t, read + [pick], at + [b])
  {
    hide FailedAttempt, ReadsFor;
  }

  lemma {:induction false} AttemptsInside(cfg: Config, run: seq<State>, who: seq<Tid>, a: nat, b: nat, t: Tid, k: Key)
    returns (read: seq<nat>, at: seq<nat>, pick: nat)
    requires IsRun(cfg, run, who) && Call(run, a, b, t, k)
    ensures FailedAt(cfg, run, who, a, b, t, read, at) && |at| == AttemptsOf(run[b].threads[t].pc)
    ensures TryingOk(cfg, run[b].threads[t])
    ensures run[b].threads[t].pc.Pick? ==> run[b].threads[t].pc.tries <= 1000
    ensures run[b].threads[t].pc.TryAlloc? ==>
              && run[b].threads[t].pc.tries < 1000
              && a <= pick < b && who[pick] == t && ReadsFor(run[pick], t, run[b].threads[t])
  {
    hide Next, Init, FailedAttempt, ReadsFor;
    read, at, pick := [], [], 0;
    if a < b {
      read, at, pick := AttemptsInside(cfg, run, who, a, b - 1, t, k);
      if who[b - 1] == t {
        AttemptStep(cfg, run[b - 1], run[b], t);
        PickReads(cfg, run[b - 1], run[b], t);
        if AttemptsOf(run[b].threads[t].pc) == 0 {
          read, at := [], [];
        } else if AttemptsOf(run[b].threads[t].pc) > |at| {
          TriedInAttempt(cfg, run[b - 1], run[b], t, |at|);
          FailedAtMore(cfg, run, who, a, b - 1, t, read, at, pick);
          read, at := read + [pick], at + [b - 1];
        }
        pick := b - 1;
      } else {
        OthersStand(cfg, run[b - 1], run[b], who[b - 1], t);
      }
    }
  }

  lemma TriedInAttempt(cfg: Config, s: State, s': State, t: Tid, j: nat)
    requires FailedAttempt(cfg, s, s', t, j)
    ensures t in s.threads && s.threads[t].pc.TryAlloc?
  {
  }

  /** A findOrConstruct that answers "no space" has made 1000 attempts of its own, one after another; for each it read
      the word of a slot, and the attempt failed because the slot was in use then or had changed since. */
  lemma NoSpaceAfterAttempts(cfg: Config, run: seq<State>, who: seq<Tid>, a: nat, b: nat, t: Tid, k: Key)
    returns (read: seq<nat>, at: seq<nat>)
    requires IsRun(cfg, run, who) && Call(run, a, b, t, k) && run[b].threads[t].pc == Done(NoSpace)
    ensures |at| == |read| == 1000 && (forall i, j | 0 <= i < j < 1000 :: at[i] < at[j])
    ensures forall j | 0 <= j < 1000 :: a <= read[j] < at[j] < b && who[read[j]] == who[at[j]] == t
    ensures forall j | 0 <= j < 1000 :: FailedAttempt(cfg, run[at[j]], run[at[j] + 1], t, j)
    ensures forall j | 0 <= j < 1000 :: t in run[at[j]].threads && ReadsFor(run[read[j]], t, run[at[j]].threads[t])
  {
    hide IsRun, FailedAttempt, ReadsFor;
    var pick;
    read, at, pick := AttemptsInside(cfg, run, who, a, b, t, k);
  }
}
