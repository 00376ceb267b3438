/**
 fbstring_core: small strings in place, medium strings copied eagerly, large strings shared by reference
 count and copied on write.  Every operation is proved to treat each string as an independent value.

 An allocation may fail; the operation then throws and nothing has changed.
 */
module StringCore {
  import opened StringMemory

  /** The bytes of a small string: setSmallSize after the characters are in place. */
  function SmallBytes(bytes: seq<Byte>, size: nat): (r: seq<Byte>)
    requires |bytes| == 24 && size <= MAX_SMALL
  {
    bytes[23 := MAX_SMALL - size][size := 0]
  }

  /** memcpy of `data` to offset `at`. */
  function Overwrite(to: seq<Byte>, at: nat, data: seq<Byte>): (r: seq<Byte>)
    requires at + |data| <= |to|
    ensures |r| == |to| && r[..at] == to[..at] && r[at..at + |data|] == data && r[..at + |data|] == to[..at] + data
    ensures at + |data| < |to| ==> r[at + |data|] == to[at + |data|]
  {
    to[..at] + data + to[at + |data|..]
  }

  function SetAt(t: seq<Byte>, i: nat, c: Byte): (r: seq<Byte>)
    requires i < |t|
    ensures |r| == |t| && r[i] == c && forall j | 0 <= j < |t| && j != i :: r[j] == t[j]
  {
    t[i := c]
  }

  /** Addresses do not run out. */
  lemma Unused(s: set<Id>) returns (n: Id)
    ensures forall x | x in s :: x < n
  {
    if s == {} {
      n := 0;
    } else {
      var x :| x in s;
      var m := Unused(s - {x});
      n := if m > x then m else x + 1;
      assert s == (s - {x}) + {x};
    }
  }

  /** podCopy of `size` characters and the null after them to the start of a block. */
  function CopyText(to: seq<Byte>, from: seq<Byte>, size: nat): (r: seq<Byte>)
    requires size < |from| && size < |to|
    ensures |r| == |to| && r[..size] == from[..size] && r[size] == from[size]
  {
    from[..size + 1] + to[size + 1..]
  }

  lemma SmallBytesOk(blocks: map<Ptr, Block>, bytes: seq<Byte>, size: nat)
    requires |bytes| == 24 && size <= MAX_SMALL
    ensures RepOk(blocks, SmallRep(SmallBytes(bytes, size)))
    ensures Text(blocks, SmallRep(SmallBytes(bytes, size))) == bytes[..size]
  {
  }

  // -------------------------------------------------------------------- reserving in a small string

  /** goodMallocSize never rounds down. */
  ghost predicate Rounds(good: nat -> nat) {
    forall n: nat :: good(n) >= n
  }

  /** The characters reserveSmall has room for in the block it allocates. */
  function Allocated(good: nat -> nat, minCapacity: nat): (n: int) {
    if minCapacity <= MAX_MEDIUM then good(1 + minCapacity)
    else good(minCapacity + 1 + DATA_OFFSET) - DATA_OFFSET
  }

  /** reserveSmall stays in place, or its copy of `size` characters and the null ends within the block. */
  predicate SmallCopyFits(good: nat -> nat, size: nat, minCapacity: nat, disableSSO: bool) {
    (!disableSSO && minCapacity <= MAX_SMALL) || size < Allocated(good, minCapacity)
  }

  /** Whatever the allocator rounds to, the copy fits exactly where small strings are enabled or the capacity
      asked for is not below the size. */
  lemma CopyFitsExactly(size: nat, minCapacity: nat, disableSSO: bool)
    requires size <= MAX_SMALL
    ensures (forall good: nat -> nat | Rounds(good) :: SmallCopyFits(good, size, minCapacity, disableSSO))
            <==> !disableSSO || minCapacity >= size
  {
    if disableSSO && minCapacity < size {
      var plain := (n: nat) => n;
      assert Rounds(plain) && !SmallCopyFits(plain, size, minCapacity, disableSSO);
    }
  }

  /** For one allocator, the copy also fits where rounding up leaves room for it. */
  lemma CopyFitsHere(good: nat -> nat, size: nat, minCapacity: nat, disableSSO: bool)
    requires Rounds(good) && size <= MAX_SMALL
    ensures SmallCopyFits(good, size, minCapacity, disableSSO)
            <==> !disableSSO || minCapacity >= size || good(1 + minCapacity) > size
  {
  }

  /** reserve(0) on a small string of five characters, where the allocator does not round: one byte for six. */
  lemma CopyOverruns()
    ensures var plain := (n: nat) => n;
            Rounds(plain) && Allocated(plain, 0) == 1 && !SmallCopyFits(plain, 5, 0, true)
  {
  }

  /** No string holds characters in place; so it is wherever the small layout is disabled throughout. */
  predicate SmallsEmpty(strs: map<Id, Rep>) {
    forall id | id in strs && strs[id].SmallRep? :: SizeOf(strs[id]) == 0
  }

  // -------------------------------------------------------------------- what an operation asks the allocator for

  /** A block for `n` characters and the null: a plain one, or one with a reference count in front. */
  datatype Need = Nothing | PlainBlock(n: nat) | CountedBlock(n: nat)

  function BlockFor(n: nat): (need: Need) {
    if n <= MAX_MEDIUM then PlainBlock(n) else CountedBlock(n)
  }

  function CreateNeed(size: nat, disableSSO: bool): (need: Need) {
    if !disableSSO && size <= MAX_SMALL then Nothing else BlockFor(size)
  }

  predicate Shared(blocks: map<Ptr, Block>, rep: Rep) {
    rep.HeapRep? && rep.data in blocks && blocks[rep.data].Counted? && blocks[rep.data].refs > 1
  }

  function ReserveNeed(m: Mem, id: Id, minCapacity: nat, disableSSO: bool): (need: Need)
    requires id in m.strs && RepOk(m.blocks, m.strs[id])
  {
    var rep := m.strs[id];
    if rep.SmallRep? then CreateNeed(minCapacity, disableSSO)
    else if Shared(m.blocks, rep) then
      CountedBlock(if minCapacity > CapacityOf(rep) then minCapacity else CapacityOf(rep))
    else if minCapacity <= CapacityOf(rep) then Nothing
    else if m.blocks[rep.data].Plain? then BlockFor(minCapacity)
    else CountedBlock(minCapacity)
  }

  function AppendNeed(m: Mem, id: Id, count: nat, expGrowth: bool, disableSSO: bool): (need: Need)
    requires id in m.strs && RepOk(m.blocks, m.strs[id])
  {
    var newSize := SizeOf(m.strs[id]) + count;
    if m.strs[id].SmallRep? then
      if !disableSSO && newSize <= MAX_SMALL then Nothing
      else BlockFor(if expGrowth && newSize < 2 * MAX_SMALL then 2 * MAX_SMALL else newSize)
    else
      var cap := Capacity(m, id);
      var grown := 1 + cap * 3 / 2;
      if newSize <= cap then Nothing
      else ReserveNeed(m, id, if expGrowth && newSize < grown then grown else newSize, disableSSO)
  }

  /** What the operation asks for in a memory; at most one block. */
  function NeedOf(m: Mem, op: Op): (need: Need)
    requires MemOk(m)
  {
    match op
    case New(_, data, disableSSO) => CreateNeed(|data|, disableSSO)
    case CopyOf(_, from) =>
      if from in m.strs && m.strs[from].HeapRep? && m.strs[from].data in m.blocks && m.blocks[m.strs[from].data].Plain?
      then PlainBlock(m.strs[from].size) else Nothing
    case Room(id, n, disableSSO) => if id in m.strs then ReserveNeed(m, id, n, disableSSO) else Nothing
    case Append(id, data, expGrowth, disableSSO) =>
      if id in m.strs then AppendNeed(m, id, |data|, expGrowth, disableSSO) else Nothing
    case Cut(id, n, disableSSO) =>
      if id in m.strs && Shared(m.blocks, m.strs[id]) && 0 < n <= m.strs[id].size
      then CreateNeed(m.strs[id].size - n, disableSSO) else Nothing
    case Put(id, _, _) =>
      if id in m.strs && Shared(m.blocks, m.strs[id]) then CountedBlock(CapacityOf(m.strs[id])) else Nothing
    case _ => Nothing
  }

  /** Operations that work in place: a string of at most 23 characters where small strings are enabled, a copy of a
      small or a large string, moves, swaps and destruction, room and characters within a capacity the string has
      to itself, and writes and cuts in a string that shares nothing. */
  predicate InPlace(m: Mem, op: Op) {
    match op
    case New(_, data, disableSSO) => !disableSSO && |data| <= 23
    case CopyOf(_, from) =>
      && from in m.strs
      && (m.strs[from].HeapRep? ==> m.strs[from].data in m.blocks && m.blocks[m.strs[from].data].Counted?)
    case Room(id, n, disableSSO) =>
      && id in m.strs && RepOk(m.blocks, m.strs[id]) && !Shared(m.blocks, m.strs[id])
      && (m.strs[id].SmallRep? ==> !disableSSO) && n <= Capacity(m, id)
    case Append(id, data, _, disableSSO) =>
      && id in m.strs && RepOk(m.blocks, m.strs[id])
      && (m.strs[id].SmallRep? ==> !disableSSO) && SizeOf(m.strs[id]) + |data| <= Capacity(m, id)
    case Cut(id, n, _) => id in m.strs && (!Shared(m.blocks, m.strs[id]) || n == 0)
    case Put(id, _, _) => id in m.strs && !Shared(m.blocks, m.strs[id])
    case _ => true
  }

  /** They ask for nothing. */
  lemma InPlaceAsksNothing(m: Mem, op: Op)
    requires MemOk(m) && InPlace(m, op)
    ensures NeedOf(m, op) == Nothing
  {
    hide BlockOk, Owners;
    match op
    case Room(id, _, _) => LastByteTells(m.blocks, m.strs[id]);
    case Append(id, _, _, _) => LastByteTells(m.blocks, m.strs[id]);
    case _ =>
  }

  /** How a call ends.  After an overrun nothing is promised: the model stops before the copy. */
  datatype Outcome = Done | Threw | Overran | Skipped

  class Heap {
    var strs: map<Id, Rep>
    var blocks: map<Ptr, Block>
    var nextPtr: Ptr
    ghost var freed: seq<Ptr>
    ghost var failures: nat   // allocations that have thrown
    var calls: nat            // requests made of the allocator
    const goodMallocSize: nat -> nat
    const refuses: nat -> bool   // the requests the allocator turns down, counted from the first

    ghost function M(): (m: Mem)
      reads this
    {
      Mem(strs, blocks)
    }

    /** Every block ever allocated is either live or has been freed once. */
    ghost predicate Accounted()
      reads this
    {
      && (forall p: Ptr :: p in blocks || p in freed <==> p < nextPtr)
      && (forall p | p in freed :: p !in blocks)
      && (forall i, j | 0 <= i < j < |freed| :: freed[i] != freed[j])
    }

    ghost predicate Valid()
      reads this
    {
      MemOk(M()) && Accounted() && Rounds(goodMallocSize)
    }

    constructor (goodMallocSize: nat -> nat, refuses: nat -> bool)
      requires Rounds(goodMallocSize)
      ensures Valid() && strs == map[] && this.goodMallocSize == goodMallocSize
      ensures this.refuses == refuses && calls == 0
    {
      strs, blocks, nextPtr, freed, failures, calls := map[], map[], 0, [], 0, 0;
      this.goodMallocSize, this.refuses := goodMallocSize, refuses;
    }

    // ------------------------------------------------------------------ blocks

    /** The request `call`, of goodMallocSize(n) bytes, succeeds. */
    ghost predicate Grants(call: nat, n: nat, header: nat) {
      goodMallocSize(n) - header <= CAPACITY_LIMIT && !refuses(call)
    }

    ghost predicate Granted(need: Need, call: nat) {
      match need
      case Nothing => true
      case PlainBlock(n) => Grants(call, 1 + n, 0)
      case CountedBlock(n) => n + 1 + DATA_OFFSET < WORD && Grants(call, n + 1 + DATA_OFFSET, DATA_OFFSET)
    }

    /** The requests made: none where nothing is needed or the length is an error. */
    ghost function Requests(need: Need): (n: nat) {
      if need.Nothing? || (need.CountedBlock? && need.n + 1 + DATA_OFFSET >= WORD) then 0 else 1
    }

    /** The call asked for `need` as request number `before`; `ok` says whether it was given it. */
    ghost predicate Asked(need: Need, ok: bool, before: nat, after: nat) {
      (ok <==> Granted(need, before)) && after == before + Requests(need)
    }

    /** What the operation asks for now. */
    ghost function Need(op: Op): (need: Need)
      reads this
      requires MemOk(M())
    {
      NeedOf(M(), op)
    }

    lemma NothingAsked()
      ensures forall ok, before, after :: Asked(Nothing, ok, before, after) <==> ok && after == before
    {
    }

    lemma RoomNeed(id: Id, minCapacity: nat, disableSSO: bool)
      requires Valid() && id in strs
      ensures RepOk(blocks, strs[id]) && MemOk(M())
      ensures Need(Room(id, minCapacity, disableSSO)) == ReserveNeed(M(), id, minCapacity, disableSSO)
    {
      hide BlockOk, ReserveNeed;
    }

    lemma AppendNeedIs(id: Id, data: seq<Byte>, expGrowth: bool, disableSSO: bool)
      requires Valid() && id in strs
      ensures RepOk(blocks, strs[id]) && MemOk(M())
      ensures Need(Append(id, data, expGrowth, disableSSO)) == AppendNeed(M(), id, |data|, expGrowth, disableSSO)
    {
      hide BlockOk, AppendNeed;
    }

    /** checkedMalloc for a plain block. */
    method MallocPlain(size: nat) returns (ok: bool, chars: seq<Byte>)
      requires Valid()
      modifies this`failures, this`calls
      ensures failures == old(failures) + (if ok then 0 else 1)
      ensures Asked(PlainBlock(size), ok, old(calls), calls)
      ensures ok ==> size < |chars| == goodMallocSize(1 + size) <= CAPACITY_LIMIT
    {
      ok, chars := Malloc(1 + size, 0);
    }

    lemma AsksNothing(op: Op)
      requires Valid()
      ensures InPlace(M(), op) ==> Need(op) == Nothing
    {
      hide MemOk, NeedOf, InPlace;
      if InPlace(M(), op) {
        InPlaceAsksNothing(M(), op);
      }
    }

    /** Room within what a small string has stays in place. */
    lemma InPlaceFits(id: Id, minCapacity: nat, disableSSO: bool)
      requires Valid() && id in strs
      ensures InPlace(M(), Room(id, minCapacity, disableSSO)) ==> Fits(id, minCapacity, disableSSO)
    {
      Kind(id);
    }

    /** checkedMalloc(goodMallocSize(n)): fails, or gives that many characters of any content. */
    method Malloc(n: nat, header: nat) returns (ok: bool, chars: seq<Byte>)
      requires Valid() && header < n
      modifies this`failures, this`calls
      ensures failures == old(failures) + (if ok then 0 else 1) && calls == old(calls) + 1
      ensures ok <==> Grants(old(calls), n, header)
      ensures ok ==> n - header <= |chars| == goodMallocSize(n) - header <= CAPACITY_LIMIT
    {
      var size := goodMallocSize(n);
      var available := !refuses(calls);
      calls := calls + 1;
      if !available || size - header > CAPACITY_LIMIT {
        failures := failures + 1;
        return false, [];
      }
      var zeros: seq<Byte> := seq(size - header, _ => 0);
      assert |zeros| == size - header;
      chars :| |chars| == size - header;
      ok := true;
    }

    /** RefCounted::create: room for `size` characters and the null. */
    method MallocCounted(size: nat) returns (ok: bool, chars: seq<Byte>)
      requires Valid()
      modifies this`failures, this`calls
      ensures failures == old(failures) + (if ok then 0 else 1)
      ensures Asked(CountedBlock(size), ok, old(calls), calls)
      ensures ok ==> size < |chars| <= CAPACITY_LIMIT
    {
      if size + 1 + DATA_OFFSET >= WORD {
        failures := failures + 1;
        return false, [];   // length_error
      }
      ok, chars := Malloc(size + 1 + DATA_OFFSET, DATA_OFFSET);
    }

    /** Give up the block of an object: free, or RefCounted::decrementRefs. */
    ghost method LogRelease(rep: Rep)
      requires Accounted()
      modifies this`freed
      ensures forall p: Ptr :: p in Release(blocks, rep) || p in freed <==> p < nextPtr
      ensures forall p | p in freed :: p !in Release(blocks, rep)
      ensures forall i, j | 0 <= i < j < |freed| :: freed[i] != freed[j]
    {
      if rep.HeapRep? && rep.data in blocks && rep.data !in Release(blocks, rep) {
        freed := freed + [rep.data];
      }
    }

    /** The object gives up what it owned and becomes the only owner of a new block. */
    method Install(id: Id, size: nat, block: Block)
      requires Valid() && id in strs && size < |block.chars| <= CAPACITY_LIMIT && block.chars[size] == 0
      requires block.Counted? ==> block.refs == 1
      modifies this`strs, this`blocks, this`nextPtr, this`freed
      ensures Valid() && Texts(M()) == old(Texts(M()))[id := block.chars[..size]]
      ensures id in strs && strs == old(strs)[id := strs[id]] && strs[id].HeapRep? && strs[id].size == size
      ensures strs[id].data in blocks && blocks[strs[id].data] == block
    {
      hide Release, Owners, BlockOk;
      ghost var before := M();
      var rep := strs[id];
      var p := nextPtr;
      var rep' := HeapRep(p, size, SetCapacity(|block.chars| - 1, if block.Plain? then IS_MEDIUM else IS_LARGE));
      LogRelease(rep);
      blocks := Release(blocks, rep)[p := block];
      nextPtr := nextPtr + 1;
      strs := strs[id := rep'];
      assert Dropped(before, id).blocks[p := block] == blocks;
      ReplaceKeeps(before, id, rep', blocks);
    }

    /** A new object that owns a new block. */
    method InstallNew(id: Id, size: nat, block: Block)
      requires Valid() && id !in strs && size < |block.chars| <= CAPACITY_LIMIT && block.chars[size] == 0
      requires block.Counted? ==> block.refs == 1
      modifies this`strs, this`blocks, this`nextPtr, this`freed
      ensures Valid() && Texts(M()) == old(Texts(M()))[id := block.chars[..size]]
      ensures id in strs && strs == old(strs)[id := strs[id]] && strs[id].HeapRep?
      ensures strs[id].data in blocks && blocks[strs[id].data] == block
    {
      hide Owners, BlockOk;
      ghost var before := M();
      var p := nextPtr;
      var rep := HeapRep(p, size, SetCapacity(|block.chars| - 1, if block.Plain? then IS_MEDIUM else IS_LARGE));
      blocks := blocks[p := block];
      nextPtr := nextPtr + 1;
      strs := strs[id := rep];
      AddKeeps(before, id, rep, blocks);
    }

    // ------------------------------------------------------------------ what an object is

    /** category() names the layout of the object. */
    lemma Kind(id: Id)
      requires Valid() && id in strs
      ensures RepOk(blocks, strs[id]) && id in Texts(M()) && SizeOf(strs[id]) == |Texts(M())[id]|
      ensures Category(strs[id]) == IS_SMALL <==> strs[id].SmallRep?
      ensures strs[id].HeapRep? ==> strs[id].data in blocks && CapacityOf(strs[id]) == |blocks[strs[id].data].chars| - 1
      ensures strs[id].HeapRep? ==> (Category(strs[id]) == IS_MEDIUM <==> blocks[strs[id].data].Plain?)
      ensures strs[id].HeapRep? ==> strs[id].size < |blocks[strs[id].data].chars|
                                    && blocks[strs[id].data].chars[strs[id].size] == 0
                                    && Texts(M())[id] == blocks[strs[id].data].chars[..strs[id].size]
    {
      hide BlockOk, Owners;
      assert RepOk(blocks, strs[id]);
      LastByteTells(blocks, strs[id]);
    }

    // ------------------------------------------------------------------ construction and destruction

    /** fbstring_core(data, size, disableSSO). */
    method Create(id: Id, data: seq<Byte>, disableSSO: bool) returns (ok: bool)
      requires Valid() && id !in strs
      modifies this
      ensures failures == old(failures) + (if ok then 0 else 1)
      ensures Asked(CreateNeed(|data|, disableSSO), ok, old(calls), calls)
      ensures !disableSSO && |data| <= 23 ==> ok
      ensures ok ==> id in strs && (strs[id].SmallRep? <==> !disableSSO && |data| <= 23)
      ensures ok && strs[id].HeapRep? ==>
                strs[id].data in blocks && (blocks[strs[id].data].Plain? <==> |data| <= 254)
      ensures Valid() && (!ok ==> M() == old(M()))
      ensures ok ==> Texts(M()) == old(Texts(M()))[id := data]
      ensures disableSSO && SmallsEmpty(old(strs)) ==> SmallsEmpty(strs)
    {
      hide MemOk, Texts, RepOk, SizeOf;
      if !disableSSO && |data| <= MAX_SMALL {
        NewSmall(id, data);
        return true;
      }
      var chars;
      if |data| <= MAX_MEDIUM {
        ok, chars := MallocPlain(|data|);
        if ok {
          chars := Overwrite(chars, 0, data)[|data| := 0];
          InstallNew(id, |data|, Plain(chars));
          assert chars[..|data|] == data;
        }
      } else {
        ok, chars := MallocCounted(|data|);
        if ok {
          chars := Overwrite(chars, 0, data)[|data| := 0];
          InstallNew(id, |data|, Counted(1, chars));
          assert chars[..|data|] == data;
        }
      }
    }

    /** initSmall: the unused bytes keep whatever they held. */
    method NewSmall(id: Id, data: seq<Byte>)
      requires Valid() && id !in strs && |data| <= MAX_SMALL
      modifies this`strs
      ensures Valid() && Texts(M()) == old(Texts(M()))[id := data] && id in strs && strs[id].SmallRep?
      ensures strs == old(strs)[id := strs[id]] && SizeOf(strs[id]) == |data|
    {
      hide BlockOk, Owners, RepOk, Text;
      ghost var before := M();
      var zeros: seq<Byte> := seq(24, _ => 0);
      assert |zeros| == 24;
      var junk: seq<Byte> :| |junk| == 24;
      var bytes := Overwrite(junk, 0, data);
      SmallBytesOk(blocks, bytes, |data|);
      strs := strs[id := SmallRep(SmallBytes(bytes, |data|))];
      AddKeeps(before, id, strs[id], blocks);
      assert bytes[..|data|] == data;
    }

    /** The copy constructor. */
    method Copy(id: Id, from: Id) returns (ok: bool)
      requires Valid() && id !in strs && from in strs
      modifies this
      ensures failures == old(failures) + (if ok then 0 else 1)
      ensures Asked(old(Need(CopyOf(id, from))), ok, old(calls), calls)
      ensures old(InPlace(M(), CopyOf(id, from))) ==> ok
      ensures Valid() && (!ok ==> M() == old(M()))
      ensures ok ==> Texts(M()) == old(Texts(M()))[id := old(Texts(M()))[from]]
      ensures SmallsEmpty(old(strs)) ==> SmallsEmpty(strs)
    {
      hide BlockOk, Owners, RepOk, Text, CapacityOf, SizeOf;
      Kind(from);
      ghost var before := M();
      var rep := strs[from];
      if Category(rep) == IS_SMALL {
        strs := strs[id := rep];
        CopySmall(before, id, from);
        ok := true;
      } else if Category(rep) == IS_MEDIUM {
        var chars;
        ok, chars := MallocPlain(rep.size);
        if ok {
          chars := CopyText(chars, blocks[rep.data].chars, rep.size);
          InstallNew(id, rep.size, Plain(chars));
        }
      } else {
        var b := blocks[rep.data];
        strs := strs[id := rep];
        blocks := blocks[rep.data := Counted(b.refs + 1, b.chars)];
        ShareKeeps(before, id, from);
        ok := true;
      }
    }

    lemma CopySmall(m: Mem, id: Id, from: Id)
      requires MemOk(m) && id !in m.strs && from in m.strs && m.strs[from].SmallRep?
      ensures var r := Mem(m.strs[id := m.strs[from]], m.blocks);
              MemOk(r) && Texts(r) == Texts(m)[id := Texts(m)[from]]
    {
      hide BlockOk, Owners, Text;
      AddKeeps(m, id, m.strs[from], m.blocks);
    }

    /** The move constructor: take the goner's representation and leave it empty. */
    method Move(id: Id, goner: Id)
      requires Valid() && id !in strs && goner in strs
      modifies this`strs
      ensures Valid() && Texts(M()) == old(Texts(M()))[id := old(Texts(M()))[goner]][goner := []]
      ensures SmallsEmpty(old(strs)) ==> SmallsEmpty(strs)
    {
      hide BlockOk, Owners, RepOk, Text;
      var taken := strs[goner];
      NewSmall(id, []);
      SwapKeeps(M(), id, goner);
      var emptied := strs[id];
      strs := strs[id := taken][goner := emptied];
    }

    method Swap(a: Id, b: Id)
      requires Valid() && a in strs && b in strs
      modifies this`strs
      ensures Valid() && Texts(M()) == old(Texts(M()))[a := old(Texts(M()))[b]][b := old(Texts(M()))[a]]
      ensures strs == old(strs)[a := old(strs)[b]][b := old(strs)[a]]
      ensures SmallsEmpty(old(strs)) ==> SmallsEmpty(strs)
    {
      hide BlockOk, Owners, RepOk, Text;
      SwapKeeps(M(), a, b);
      var t := strs[a];
      strs := strs[a := strs[b]];
      strs := strs[b := t];
    }

    method Destroy(id: Id)
      requires Valid() && id in strs
      modifies this`strs, this`blocks, this`nextPtr, this`freed
      ensures Valid() && Texts(M()) == old(Texts(M())) - {id}
      ensures strs == old(strs) - {id}
      ensures SmallsEmpty(old(strs)) ==> SmallsEmpty(strs)
    {
      hide BlockOk, Owners, RepOk, Text, Release;
      DropKeeps(M(), id);
      var rep := strs[id];
      LogRelease(rep);
      blocks := Release(blocks, rep);
      strs := strs - {id};
    }

    // ------------------------------------------------------------------ reserving room

    /** The block of the object has one owner. */
    ghost predicate Unique(id: Id)
      reads this
      requires id in strs
    {
      strs[id].HeapRep? ==> |Owners(strs, strs[id].data)| == 1
    }

    /** What refs() says about ownership. */
    lemma RefsTell(id: Id)
      requires Valid() && id in strs && strs[id].HeapRep?
      ensures strs[id].data in blocks
      ensures blocks[strs[id].data].Plain? ==> Unique(id)
      ensures blocks[strs[id].data].Counted? ==>
                (blocks[strs[id].data].refs == 1 <==> Unique(id)) && blocks[strs[id].data].refs > 0
    {
      assert RepOk(blocks, strs[id]);
      assert BlockOk(strs, strs[id].data, blocks[strs[id].data]);
    }

    lemma CapacityIs(id: Id)
      requires Valid() && id in strs
      ensures RepOk(blocks, strs[id])
      ensures Unique(id) && strs[id].HeapRep? ==> Capacity(M(), id) == CapacityOf(strs[id])
      ensures !Unique(id) && strs[id].HeapRep? ==> Capacity(M(), id) == strs[id].size
      ensures strs[id].SmallRep? ==> Capacity(M(), id) == MAX_SMALL
      ensures Capacity(M(), id) >= SizeOf(strs[id])
    {
      Kind(id);
      if strs[id].HeapRep? {
        RefsTell(id);
      }
    }

    /** The block just installed has one owner. */
    lemma InstalledIsUnique(id: Id)
      requires Valid() && id in strs && strs[id].HeapRep? && strs[id].data in blocks
      requires blocks[strs[id].data].Counted? ==> blocks[strs[id].data].refs == 1
      ensures Unique(id) && Capacity(M(), id) == |blocks[strs[id].data].chars| - 1
    {
      hide Capacity;
      RefsTell(id);
      CapacityIs(id);
      Kind(id);
    }

    /** The outcome of making room: the texts are the same, and the object alone owns enough of it. */
    ghost predicate Roomy(id: Id, minCapacity: nat)
      reads this
      requires Valid() && id in strs
    {
      CapacityIs(id);
      Unique(id) && Capacity(M(), id) >= minCapacity
    }

    /** The room of an object, as capacity() reports it. */
    ghost function RoomOf(id: Id): (cap: nat)
      reads this
      requires Valid() && id in strs
    {
      CapacityIs(id);
      Capacity(M(), id)
    }

    method Unshare(id: Id, minCapacity: nat) returns (ok: bool)
      requires Valid() && id in strs && strs[id].HeapRep? && Category(strs[id]) == IS_LARGE
      modifies this
      ensures failures == old(failures) + (if ok then 0 else 1)
      ensures var cap := old(CapacityOf(strs[id]));
              var need := CountedBlock(if minCapacity > cap then minCapacity else cap);
              Asked(need, ok, old(calls), calls)
      ensures Valid() && id in strs && (!ok ==> M() == old(M()))
      ensures ok ==> Texts(M()) == old(Texts(M())) && Roomy(id, minCapacity) && strs[id].HeapRep?
      ensures ok ==> strs[id].size == old(strs[id].size)
      ensures ok ==> RoomOf(id) >= old(RoomOf(id)) && CapacityOf(strs[id]) >= old(CapacityOf(strs[id]))
      ensures SmallsEmpty(old(strs)) ==> SmallsEmpty(strs)
    {
      hide MemOk, Texts, RepOk, Capacity, CapacityOf, Unique, SizeOf;
      Kind(id);
      CapacityIs(id);
      var rep := strs[id];
      var cap := if minCapacity > CapacityOf(rep) then minCapacity else CapacityOf(rep);
      var chars;
      ok, chars := MallocCounted(cap);
      if ok {
        chars := CopyText(chars, blocks[rep.data].chars, rep.size);
        ghost var texts := Texts(M());
        Install(id, rep.size, Counted(1, chars));
        InstalledIsUnique(id);
        CapacityIs(id);
        SameText(texts, id, chars[..rep.size]);
      }
    }

    lemma SameText(texts: map<Id, seq<Byte>>, id: Id, t: seq<Byte>)
      requires id in texts && texts[id] == t
      ensures texts[id := t] == texts
    {
    }

    method ReserveLarge(id: Id, minCapacity: nat) returns (ok: bool)
      requires Valid() && id in strs && strs[id].HeapRep? && Category(strs[id]) == IS_LARGE
      modifies this
      ensures failures == old(failures) + (if ok then 0 else 1)
      ensures Asked(old(Need(Room(id, minCapacity, false))), ok, old(calls), calls)
      ensures Valid() && id in strs && (!ok ==> M() == old(M()))
      ensures ok ==> Texts(M()) == old(Texts(M())) && Roomy(id, minCapacity) && strs[id].HeapRep?
      ensures ok ==> strs[id].size == old(strs[id].size)
      ensures SmallsEmpty(old(strs)) ==> SmallsEmpty(strs)
    {
      hide MemOk, Texts, RepOk, Capacity, CapacityOf, Unique, SizeOf, Need, NeedOf, Asked;
      NothingAsked();
      RoomNeed(id, minCapacity, false);
      Kind(id);
      RefsTell(id);
      CapacityIs(id);
      var rep := strs[id];
      if blocks[rep.data].refs > 1 {
        ok := Unshare(id, minCapacity);
      } else if minCapacity > CapacityOf(rep) {
        var chars;
        ok, chars := MallocCounted(minCapacity);   // RefCounted::reallocate
        if ok {
          chars := CopyText(chars, blocks[rep.data].chars, rep.size);
          ghost var texts := Texts(M());
          Install(id, rep.size, Counted(1, chars));
          InstalledIsUnique(id);
          SameText(texts, id, chars[..rep.size]);
        }
      } else {
        ok := true;
      }
    }

    method ReserveMedium(id: Id, minCapacity: nat) returns (ok: bool)
      requires Valid() && id in strs && strs[id].HeapRep? && Category(strs[id]) == IS_MEDIUM
      modifies this
      ensures failures == old(failures) + (if ok then 0 else 1)
      ensures Asked(old(Need(Room(id, minCapacity, false))), ok, old(calls), calls)
      ensures Valid() && id in strs && (!ok ==> M() == old(M()))
      ensures ok ==> Texts(M()) == old(Texts(M())) && Roomy(id, minCapacity) && strs[id].HeapRep?
      ensures ok ==> strs[id].size == old(strs[id].size)
      ensures SmallsEmpty(old(strs)) ==> SmallsEmpty(strs)
    {
      hide MemOk, Texts, RepOk, Capacity, CapacityOf, Unique, SizeOf, Need, NeedOf, Asked;
      NothingAsked();
      RoomNeed(id, minCapacity, false);
      Kind(id);
      RefsTell(id);
      CapacityIs(id);
      var rep := strs[id];
      if minCapacity <= CapacityOf(rep) {
        return true;
      }
      var chars;
      ghost var texts := Texts(M());
      if minCapacity <= MAX_MEDIUM {
        ok, chars := MallocPlain(minCapacity);   // smartRealloc
        if ok {
          chars := CopyText(chars, blocks[rep.data].chars, rep.size);
          Install(id, rep.size, Plain(chars));
          InstalledIsUnique(id);
          SameText(texts, id, chars[..rep.size]);
        }
      } else {
        ok, chars := MallocCounted(minCapacity);   // the nascent large string, swapped in
        if ok {
          chars := CopyText(chars, blocks[rep.data].chars, rep.size);
          Install(id, rep.size, Counted(1, chars));
          InstalledIsUnique(id);
          SameText(texts, id, chars[..rep.size]);
        }
      }
    }

    /** reserveSmall copies the text of a small string within the block it allocates. */
    ghost predicate Fits(id: Id, minCapacity: nat, disableSSO: bool)
      reads this
      requires id in strs
    {
      strs[id].SmallRep? ==> SmallCopyFits(goodMallocSize, SizeOf(strs[id]), minCapacity, disableSSO)
    }

    method ReserveSmall(id: Id, minCapacity: nat, disableSSO: bool) returns (out: Outcome)
      requires Valid() && id in strs && strs[id].SmallRep?
      modifies this
      ensures !out.Skipped? && failures == old(failures) + (if out.Threw? then 1 else 0)
      ensures Asked(old(Need(Room(id, minCapacity, disableSSO))), !out.Threw?, old(calls), calls)
      ensures Valid() && id in strs && (!out.Done? ==> M() == old(M()))
      ensures out.Done? ==>
                Texts(M()) == old(Texts(M())) && Roomy(id, minCapacity) && old(Fits(id, minCapacity, disableSSO))
      ensures out.Overran? ==> !Fits(id, minCapacity, disableSSO)
      ensures out.Done? && (disableSSO || minCapacity > MAX_SMALL) ==>
                strs[id].HeapRep? && strs[id].size == old(SizeOf(strs[id]))
      ensures SmallsEmpty(old(strs)) ==> SmallsEmpty(strs)
    {
      hide MemOk, Texts, Capacity, CapacityOf, SizeOf, Need, NeedOf, Asked;
      NothingAsked();
      RoomNeed(id, minCapacity, disableSSO);
      Kind(id);
      CapacityIs(id);
      if !disableSSO && minCapacity <= MAX_SMALL {
        return Done;
      }
      var bytes, size := strs[id].bytes, SizeOf(strs[id]);
      SmallTextIs(id);
      var ok, chars;
      ghost var texts := Texts(M());
      if minCapacity <= MAX_MEDIUM {
        ok, chars := MallocPlain(minCapacity);
        if !ok {
          return Threw;
        }
        if |chars| <= size {
          return Overran;
        }
        chars := CopyText(chars, bytes, size);
        Install(id, size, Plain(chars));
      } else {
        ok, chars := MallocCounted(minCapacity);
        if !ok {
          return Threw;
        }
        chars := CopyText(chars, bytes, size);
        Install(id, size, Counted(1, chars));
      }
      InstalledIsUnique(id);
      SameText(texts, id, chars[..size]);
      out := Done;
    }

    lemma SmallTextIs(id: Id)
      requires Valid() && id in strs && strs[id].SmallRep?
      ensures RepOk(blocks, strs[id]) && SizeOf(strs[id]) <= MAX_SMALL && strs[id].bytes[SizeOf(strs[id])] == 0
      ensures Texts(M())[id] == strs[id].bytes[..SizeOf(strs[id])]
    {
      assert RepOk(blocks, strs[id]);
    }

    /** reserve: the string is the same and has room for `minCapacity` characters of its own, unless the copy of a
        small string does not fit the block. */
    method Reserve(id: Id, minCapacity: nat, disableSSO: bool) returns (out: Outcome)
      requires Valid() && id in strs
      modifies this
      ensures !out.Skipped? && failures == old(failures) + (if out.Threw? then 1 else 0)
      ensures Asked(old(Need(Room(id, minCapacity, disableSSO))), !out.Threw?, old(calls), calls)
      ensures old(InPlace(M(), Room(id, minCapacity, disableSSO))) ==> out.Done?
      ensures Valid() && id in strs && (!out.Done? ==> M() == old(M()))
      ensures out.Done? ==>
                Texts(M()) == old(Texts(M())) && Roomy(id, minCapacity) && old(Fits(id, minCapacity, disableSSO))
      ensures out.Overran? ==> !Fits(id, minCapacity, disableSSO)
      ensures out.Done? && old(strs[id].HeapRep?) ==> strs[id].HeapRep? && strs[id].size == old(strs[id].size)
      ensures SmallsEmpty(old(strs)) ==> SmallsEmpty(strs)
    {
      hide MemOk, Texts, RepOk, Capacity, CapacityOf, Unique, SizeOf, SmallCopyFits, InPlace, Need, NeedOf, Asked;
      NothingAsked();
      RoomNeed(id, minCapacity, false);
      RoomNeed(id, minCapacity, disableSSO);
      Kind(id);
      AsksNothing(Room(id, minCapacity, disableSSO));
      InPlaceFits(id, minCapacity, disableSSO);
      if Category(strs[id]) == IS_SMALL {
        out := ReserveSmall(id, minCapacity, disableSSO);
      } else {
        var ok;
        if Category(strs[id]) == IS_MEDIUM {
          ok := ReserveMedium(id, minCapacity);
        } else {
          LargeKind(id);
          ok := ReserveLarge(id, minCapacity);
        }
        out := if ok then Done else Threw;
      }
    }

    lemma LargeKind(id: Id)
      requires Valid() && id in strs && Category(strs[id]) != IS_SMALL && Category(strs[id]) != IS_MEDIUM
      ensures Category(strs[id]) == IS_LARGE
    {
      assert RepOk(blocks, strs[id]);
      LastByteTells(blocks, strs[id]);
    }

    // ------------------------------------------------------------------ writing

    /** Overwrite the characters of an object that alone owns them, and set its size. */
    method WriteOwn(id: Id, size: nat, chars: seq<Byte>)
      requires Valid() && id in strs && strs[id].HeapRep? && Unique(id) && strs[id].data in blocks
      requires |chars| == |blocks[strs[id].data].chars| && size < |chars| && chars[size] == 0
      modifies this`strs, this`blocks
      ensures Valid() && Texts(M()) == old(Texts(M()))[id := chars[..size]]
      ensures id in strs && strs == old(strs)[id := strs[id]] && strs[id].HeapRep?
      ensures strs[id] == old(strs[id]).(size := size)
    {
      hide BlockOk, Owners, RepOk, Text;
      WriteKeeps(M(), id, size, chars);
      var p := strs[id].data;
      strs := strs[id := strs[id].(size := size)];
      blocks := blocks[p := WithChars(blocks[p], chars)];
    }

    /** Overwrite the bytes of a small object. */
    method WriteSmall(id: Id, size: nat, bytes: seq<Byte>)
      requires Valid() && id in strs && strs[id].SmallRep? && size <= MAX_SMALL && |bytes| == 24
      modifies this`strs
      ensures Valid() && Texts(M()) == old(Texts(M()))[id := bytes[..size]]
      ensures id in strs && strs == old(strs)[id := strs[id]] && SizeOf(strs[id]) == size
    {
      hide BlockOk, Owners, RepOk, Text;
      SmallBytesOk(blocks, bytes, size);
      var rep := SmallRep(SmallBytes(bytes, size));
      assert Dropped(M(), id).blocks == blocks;
      ReplaceKeeps(M(), id, rep, blocks);
      strs := strs[id := rep];
    }

    /** expandNoinit followed by the caller's write of the new characters through the pointer it returns.  Where the
        room is not enough and growth is exponential, the new capacity is at least 46, or half as much again. */
    method Expand(id: Id, data: seq<Byte>, expGrowth: bool, disableSSO: bool) returns (ok: bool)
      requires Valid() && id in strs
      modifies this
      ensures failures == old(failures) + (if ok then 0 else 1)
      ensures Asked(old(Need(Append(id, data, expGrowth, disableSSO))), ok, old(calls), calls)
      ensures old(InPlace(M(), Append(id, data, expGrowth, disableSSO))) ==> ok
      ensures Valid() && (!ok ==> M() == old(M()))
      ensures ok ==> Texts(M()) == old(Texts(M()))[id := old(Texts(M()))[id] + data]
      ensures ok && expGrowth && old(SizeOf(strs[id]) + |data| > RoomOf(id)) ==>
                && id in strs && strs[id].HeapRep?
                && CapacityOf(strs[id]) >= old(if strs[id].SmallRep? then 46 else 1 + RoomOf(id) * 3 / 2)
      ensures disableSSO && SmallsEmpty(old(strs)) ==> SmallsEmpty(strs)
    {
      hide MemOk, Texts, RepOk, Capacity, Unique, CapacityOf, SizeOf, InPlace, Need, NeedOf, Asked, AppendNeed, RoomOf;
      NothingAsked();
      AppendNeedIs(id, data, expGrowth, disableSSO);
      Kind(id);
      AsksNothing(Append(id, data, expGrowth, disableSSO));
      if Category(strs[id]) == IS_SMALL {
        ok := ExpandSmall(id, data, expGrowth, disableSSO);
      } else {
        ok := ExpandMediumLarge(id, data, expGrowth, disableSSO);
      }
    }

    method ExpandSmall(id: Id, data: seq<Byte>, expGrowth: bool, disableSSO: bool) returns (ok: bool)
      requires Valid() && id in strs && strs[id].SmallRep?
      modifies this
      ensures failures == old(failures) + (if ok then 0 else 1)
      ensures Asked(old(AppendNeed(M(), id, |data|, expGrowth, disableSSO)), ok, old(calls), calls)
      ensures Valid() && (!ok ==> M() == old(M()))
      ensures ok ==> Texts(M()) == old(Texts(M()))[id := old(Texts(M()))[id] + data]
      ensures ok && expGrowth && old(SizeOf(strs[id]) + |data| > RoomOf(id)) ==>
                id in strs && strs[id].HeapRep? && CapacityOf(strs[id]) >= 46
      ensures disableSSO && SmallsEmpty(old(strs)) ==> SmallsEmpty(strs)
    {
      hide MemOk, Texts, RepOk, Capacity, Unique, CapacityOf, SizeOf, Asked;
      NothingAsked();
      CapacityIs(id);
      Kind(id);
      SmallTextIs(id);
      var size := SizeOf(strs[id]);
      var newSize := size + |data|;
      if !disableSSO && newSize <= MAX_SMALL {
        var bytes := Overwrite(strs[id].bytes, size, data);
        WriteSmall(id, newSize, bytes);
        return true;
      }
      ok := ExpandSmallRoom(id, newSize, expGrowth, disableSSO);
      if ok {
        ExpandHeap(id, data);
      }
    }

    method ExpandMediumLarge(id: Id, data: seq<Byte>, expGrowth: bool, disableSSO: bool) returns (ok: bool)
      requires Valid() && id in strs && strs[id].HeapRep?
      modifies this
      ensures failures == old(failures) + (if ok then 0 else 1)
      ensures Asked(old(AppendNeed(M(), id, |data|, expGrowth, disableSSO)), ok, old(calls), calls)
      ensures Valid() && (!ok ==> M() == old(M()))
      ensures ok ==> Texts(M()) == old(Texts(M()))[id := old(Texts(M()))[id] + data]
      ensures ok && expGrowth && old(strs[id].size + |data| > RoomOf(id)) ==>
                id in strs && strs[id].HeapRep? && CapacityOf(strs[id]) >= 1 + old(RoomOf(id)) * 3 / 2
      ensures SmallsEmpty(old(strs)) ==> SmallsEmpty(strs)
    {
      hide MemOk, Texts, RepOk, Capacity, Unique, CapacityOf, SizeOf, Asked, AppendNeed, RoomOf;
      ok := ExpandRoom(id, strs[id].size + |data|, expGrowth, disableSSO);
      if ok {
        ExpandHeap(id, data);
      }
    }

    /** The growth policy of expandNoinit for a small string that does not stay in place. */
    method ExpandSmallRoom(id: Id, newSize: nat, expGrowth: bool, disableSSO: bool) returns (ok: bool)
      requires Valid() && id in strs && strs[id].SmallRep? && newSize >= SizeOf(strs[id])
      requires disableSSO || newSize > MAX_SMALL
      modifies this
      ensures failures == old(failures) + (if ok then 0 else 1)
      ensures var minCapacity := if expGrowth && newSize < 2 * MAX_SMALL then 2 * MAX_SMALL else newSize;
              Asked(BlockFor(minCapacity), ok, old(calls), calls)
      ensures Valid() && id in strs && (!ok ==> M() == old(M()))
      ensures ok ==> Texts(M()) == old(Texts(M())) && strs[id].HeapRep? && strs[id].size == old(SizeOf(strs[id]))
      ensures ok && expGrowth ==> strs[id].HeapRep? && CapacityOf(strs[id]) >= 46
      ensures ok ==> RoomFor(id, newSize)
      ensures SmallsEmpty(old(strs)) ==> SmallsEmpty(strs)
    {
      hide MemOk, Texts, RepOk, Capacity, Unique, CapacityOf, SizeOf, SmallCopyFits, Need, NeedOf, Asked;
      var minCapacity := if expGrowth && newSize < 2 * MAX_SMALL then 2 * MAX_SMALL else newSize;
      SmallTextIs(id);
      RoomNeed(id, minCapacity, disableSSO);
      CopyFitsHere(goodMallocSize, SizeOf(strs[id]), minCapacity, disableSSO);
      var out := ReserveSmall(id, minCapacity, disableSSO);
      ok := out.Done?;
      if ok {
        Kind(id);
        CapacityIs(id);
        RoomyEnough(id, newSize);
      }
    }

    /** There is room for `newSize` characters: in a block of its own, or none are to be added. */
    ghost predicate RoomFor(id: Id, newSize: nat)
      reads this
      requires id in strs
    {
      && strs[id].HeapRep? && strs[id].data in blocks && strs[id].size <= newSize < |blocks[strs[id].data].chars|
      && (Unique(id) || newSize == strs[id].size)
    }

    lemma RoomyEnough(id: Id, newSize: nat)
      requires Valid() && id in strs && strs[id].HeapRep? && strs[id].size <= newSize && RepOk(blocks, strs[id])
      requires newSize <= Capacity(M(), id)
      ensures RoomFor(id, newSize)
    {
      hide Capacity;
      Kind(id);
      CapacityIs(id);
    }

    /** Change the size, write the null and then the new characters; a shared block is written only where it
        already holds the null. */
    method ExpandHeap(id: Id, data: seq<Byte>)
      requires Valid() && id in strs && strs[id].HeapRep? && RoomFor(id, strs[id].size + |data|)
      modifies this`strs, this`blocks
      ensures Valid() && Texts(M()) == old(Texts(M()))[id := old(Texts(M()))[id] + data]
      ensures id in strs && strs[id].HeapRep? && CapacityOf(strs[id]) == old(CapacityOf(strs[id]))
      ensures SmallsEmpty(old(strs)) ==> SmallsEmpty(strs)
    {
      hide MemOk, Texts, RepOk, Unique, SizeOf;
      Kind(id);
      var rep := strs[id];
      var newSize := rep.size + |data|;
      var chars := Overwrite(blocks[rep.data].chars, rep.size, data)[newSize := 0];
      assert chars[..newSize] == blocks[rep.data].chars[..rep.size] + data;
      if data == [] {
        assert chars == blocks[rep.data].chars;
        assert blocks[rep.data := WithChars(blocks[rep.data], chars)] == blocks;
        assert strs[id := rep.(size := newSize)] == strs;
        SameText(Texts(M()), id, Texts(M())[id] + data);
        blocks := blocks[rep.data := WithChars(blocks[rep.data], chars)];
      } else {
        WriteOwn(id, newSize, chars);
      }
    }

    /** The growth policy of expandNoinit for medium and large strings. */
    method ExpandRoom(id: Id, newSize: nat, expGrowth: bool, disableSSO: bool) returns (ok: bool)
      requires Valid() && id in strs && strs[id].HeapRep? && newSize >= strs[id].size
      modifies this
      ensures failures == old(failures) + (if ok then 0 else 1)
      ensures var need := old(AppendNeed(M(), id, newSize - strs[id].size, expGrowth, disableSSO));
              Asked(need, ok, old(calls), calls)
      ensures Valid() && id in strs && (!ok ==> M() == old(M()))
      ensures ok ==> Texts(M()) == old(Texts(M())) && strs[id].HeapRep? && strs[id].size == old(strs[id].size)
      ensures ok && expGrowth && newSize > old(RoomOf(id)) ==>
                strs[id].HeapRep? && CapacityOf(strs[id]) >= 1 + old(RoomOf(id)) * 3 / 2
      ensures ok ==> RoomFor(id, newSize)
      ensures SmallsEmpty(old(strs)) ==> SmallsEmpty(strs)
    {
      hide MemOk, Texts, RepOk, Capacity, Unique, CapacityOf, SizeOf, SmallCopyFits, Need, NeedOf, Asked;
      NothingAsked();
      CapacityIs(id);
      Kind(id);
      var cap := Capacity(Mem(strs, blocks), id);
      if newSize > cap {
        var grown := 1 + cap * 3 / 2;
        var minCapacity := if expGrowth && newSize < grown then grown else newSize;
        RoomNeed(id, minCapacity, disableSSO);
        var out := Reserve(id, minCapacity, disableSSO);
        ok := out.Done?;
        if ok {
          Kind(id);
          CapacityIs(id);
          RoomyEnough(id, newSize);
        }
      } else {
        ok := true;
        RoomyEnough(id, newSize);
      }
    }

    /** mutableData, and a write through it. */
    method WriteChar(id: Id, i: nat, c: Byte) returns (ok: bool)
      requires Valid() && id in strs && i < SizeOf(strs[id])
      modifies this
      ensures failures == old(failures) + (if ok then 0 else 1)
      ensures Asked(old(Need(Put(id, i, c))), ok, old(calls), calls)
      ensures old(Unique(id)) ==> ok
      ensures Valid() && (!ok ==> M() == old(M()))
      ensures i < |old(Texts(M()))[id]|
              && (ok ==> Texts(M()) == old(Texts(M()))[id := SetAt(old(Texts(M()))[id], i, c)])
      ensures SmallsEmpty(old(strs)) ==> SmallsEmpty(strs)
    {
      hide MemOk, Texts, RepOk, Capacity, Unique, CapacityOf, SizeOf;
      Kind(id);
      ok := true;
      if Category(strs[id]) == IS_SMALL {
        SmallTextIs(id);
        var size := SizeOf(strs[id]);
        var bytes := SetAt(strs[id].bytes, i, c);
        assert bytes[..size] == SetAt(strs[id].bytes[..size], i, c);
        WriteSmall(id, size, bytes);
        return;
      }
      RefsTell(id);
      if Category(strs[id]) != IS_MEDIUM {
        LargeKind(id);
        if blocks[strs[id].data].refs > 1 {
          ok := Unshare(id, 0);
          if !ok {
            return;
          }
          Kind(id);
        }
      }
      var rep := strs[id];
      var chars := SetAt(blocks[rep.data].chars, i, c);
      assert chars[..rep.size] == SetAt(blocks[rep.data].chars[..rep.size], i, c);
      WriteOwn(id, rep.size, chars);
    }

    /** shrink: a shared large string is copied, since the null would be written into the shared block. */
    method Shrink(id: Id, delta: nat, disableSSO: bool) returns (ok: bool)
      requires Valid() && id in strs && delta <= SizeOf(strs[id])
      modifies this
      ensures failures == old(failures) + (if ok then 0 else 1)
      ensures Asked(old(Need(Cut(id, delta, disableSSO))), ok, old(calls), calls)
      ensures old(Unique(id)) || delta == 0 ==> ok
      ensures Valid() && (!ok ==> M() == old(M()))
      ensures delta <= |old(Texts(M()))[id]|
      ensures ok ==> var t := old(Texts(M()))[id]; Texts(M()) == old(Texts(M()))[id := t[..|t| - delta]]
      ensures disableSSO && SmallsEmpty(old(strs)) ==> SmallsEmpty(strs)
    {
      hide MemOk, Texts, RepOk, Capacity, Unique, CapacityOf;
      Kind(id);
      ok := true;
      if Category(strs[id]) == IS_SMALL {
        SmallTextIs(id);
        var size := SizeOf(strs[id]) - delta;
        assert strs[id].bytes[..size] == strs[id].bytes[..SizeOf(strs[id])][..size];
        WriteSmall(id, size, strs[id].bytes);
        return;
      }
      RefsTell(id);
      var rep := strs[id];
      if Category(strs[id]) == IS_MEDIUM || blocks[rep.data].refs == 1 {
        var size := rep.size - delta;
        var chars := blocks[rep.data].chars[size := 0];
        assert chars[..size] == blocks[rep.data].chars[..rep.size][..size];
        WriteOwn(id, size, chars);
      } else {
        ok := ShrinkShared(id, delta, disableSSO);
      }
    }

    /** shrinkLarge: a new string of the shorter text is swapped in and the old one destroyed. */
    method ShrinkShared(id: Id, delta: nat, disableSSO: bool) returns (ok: bool)
      requires Valid() && id in strs && strs[id].HeapRep? && delta <= strs[id].size
      modifies this
      ensures failures == old(failures) + (if ok then 0 else 1)
      ensures var need := if delta == 0 then Nothing else CreateNeed(old(strs[id].size) - delta, disableSSO);
              Asked(need, ok, old(calls), calls)
      ensures Valid() && (!ok ==> M() == old(M()))
      ensures id in old(Texts(M())) && delta <= |old(Texts(M()))[id]|
      ensures ok ==> var t := old(Texts(M()))[id]; Texts(M()) == old(Texts(M()))[id := t[..|t| - delta]]
      ensures disableSSO && SmallsEmpty(old(strs)) ==> SmallsEmpty(strs)
    {
      hide MemOk, Texts, RepOk, CapacityOf;
      Kind(id);
      var rep := strs[id];
      var chars := blocks[rep.data].chars;
      var size := rep.size - delta;
      if delta == 0 {
        assert chars[..rep.size][..rep.size] == chars[..rep.size];
        SameText(Texts(M()), id, chars[..rep.size]);
        return true;
      }
      assert chars[..size] == chars[..rep.size][..size];
      ok := Recreate(id, chars[..size], disableSSO);
    }

    /** fbstring_core(data, size).swap(*this). */
    method Recreate(id: Id, data: seq<Byte>, disableSSO: bool) returns (ok: bool)
      requires Valid() && id in strs
      modifies this
      ensures failures == old(failures) + (if ok then 0 else 1)
      ensures Asked(CreateNeed(|data|, disableSSO), ok, old(calls), calls)
      ensures Valid() && (!ok ==> M() == old(M()))
      ensures ok ==> Texts(M()) == old(Texts(M()))[id := data]
      ensures disableSSO && SmallsEmpty(old(strs)) ==> SmallsEmpty(strs)
    {
      hide MemOk, Texts, SmallsEmpty;
      ghost var unused := Unused(strs.Keys);
      assert unused !in strs;
      var temp: Id :| temp !in strs;
      ghost var texts := Texts(M());
      TextKeys(M());
      ok := Create(temp, data, disableSSO);
      if ok {
        TextKeys(M());
        Swap(temp, id);
        TextKeys(M());
        Destroy(temp);
        assert texts[id := data] == (texts[temp := data][temp := texts[id]][id := data]) - {temp};
      }
    }

    lemma TextKeys(m: Mem)
      requires MemOk(m)
      ensures Texts(m).Keys == m.strs.Keys
    {
    }

    // ------------------------------------------------------------------ any sequence of operations

    /** A call the language allows in this state: live arguments, and counts within the size. */
    predicate MayCall(op: Op)
      reads this
    {
      match op
      case New(id, _, _) => id !in strs
      case CopyOf(id, from) => id !in strs && from in strs
      case MoveOf(id, from) => id !in strs && from in strs
      case SwapBoth(a, b) => a in strs && b in strs
      case Drop(id) => id in strs
      case Room(id, _, _) => id in strs
      case Append(id, _, _, _) => id in strs
      case Cut(id, n, _) => id in strs && n <= SizeOf(strs[id])
      case Put(id, i, _) => id in strs && i < SizeOf(strs[id])
    }

    lemma MayCallMeans(op: Op)
      requires Valid()
      ensures MayCall(op) <==> Allowed(Texts(M()), op)
    {
      hide BlockOk, Owners, RepOk, Text, SizeOf;
      TextKeys(M());
      match op
      case Cut(id, _, _) => if id in strs { Kind(id); }
      case Put(id, _, _) => if id in strs { Kind(id); }
      case _ =>
    }

    method Perform(op: Op) returns (out: Outcome)
      requires Valid() && MayCall(op)
      modifies this
      ensures !out.Skipped? && failures == old(failures) + (if out.Threw? then 1 else 0)
      ensures Asked(old(Need(op)), !out.Threw?, old(calls), calls)
      ensures old(InPlace(M(), op)) ==> !out.Threw?
      ensures old(Need(op)) == Nothing ==> !out.Threw?
      ensures Valid() && Allowed(old(Texts(M())), op)
      ensures Texts(M()) == if out.Done? then Applied(old(Texts(M())), op) else old(Texts(M()))
      ensures out.Overran? ==> OverrunsAt(old(Texts(M())), op) && !SmallsEmpty(old(strs))
      ensures SettingIs(op, true) && SmallsEmpty(old(strs)) ==> SmallsEmpty(strs)
      ensures SettingIs(op, false) ==> !out.Overran?
    {
      hide MemOk, Texts, SizeOf, SmallCopyFits;
      MayCallMeans(op);
      var ok := true;
      match op {
      case New(id, data, disableSSO) => ok := Create(id, data, disableSSO);
      case CopyOf(id, from) => ok := Copy(id, from);
      case MoveOf(id, from) => Move(id, from);
      case SwapBoth(a, b) => Swap(a, b);
      case Drop(id) => Destroy(id);
      case Room(id, n, disableSSO) =>
        OverrunMeans(id, n, disableSSO);
        out := Reserve(id, n, disableSSO);
        return;
      case Append(id, data, expGrowth, disableSSO) => ok := Expand(id, data, expGrowth, disableSSO);
      case Cut(id, n, disableSSO) => ok := Shrink(id, n, disableSSO);
      case Put(id, i, c) => ok := WriteChar(id, i, c);
      }
      out := if ok then Done else Threw;
    }

    /** Only a small string of more characters than asked for does not fit. */
    lemma OverrunMeans(id: Id, n: nat, disableSSO: bool)
      requires Valid() && id in strs
      ensures !Fits(id, n, disableSSO) ==>
                disableSSO && strs[id].SmallRep? && id in Texts(M()) && n < SizeOf(strs[id]) == |Texts(M())[id]|
    {
      hide MemOk, Texts;
      Kind(id);
      if strs[id].SmallRep? {
        SmallTextIs(id);
        CopyFitsHere(goodMallocSize, SizeOf(strs[id]), n, disableSSO);
      }
    }

    /** Any sequence of operations on any strings, where some allocations fail: each string has the contents an
        independent value would have; when no string is left, every block has been freed exactly once.  Only a
        reserve with the small layout disabled can overrun its block, on a string that holds more characters than
        it asks for; the model stops there.  Where all code agrees on the layout, none does. */
    method Run(ops: seq<Op>) returns (outs: seq<Outcome>, ghost mems: seq<Mem>)
      requires Valid()
      modifies this
      ensures Logged(old(M()), ops, outs, mems) && mems[|outs|] == M()
      ensures Valid() && |outs| <= |ops| && Texts(M()) == Values(old(Texts(M())), ops[..|outs|], outs)
      ensures forall k | 0 <= k < |outs| ::
                outs[k].Skipped? <==> !Allowed(ValuesAt(old(Texts(M())), ops, outs, k), ops[k])
      ensures failures == old(failures) ==> forall k | 0 <= k < |outs| :: !outs[k].Threw?
      ensures forall k | 0 <= k < |outs| && outs[k].Overran? ::
                k == |outs| - 1 && OverrunsAt(ValuesAt(old(Texts(M())), ops, outs, k), ops[k])
      ensures |outs| < |ops| ==> outs != [] && outs[|outs| - 1].Overran?
      ensures forall flag | OneSetting(ops, flag) && (flag ==> SmallsEmpty(old(strs))) ::
                |outs| == |ops| && Overran !in outs && (flag ==> SmallsEmpty(strs))
      ensures strs == map[] ==> blocks == map[] && forall p: Ptr :: p in freed <==> p < nextPtr
      ensures forall i, j | 0 <= i < j < |freed| :: freed[i] != freed[j]
    {
      hide MemOk, Texts, MayCall, Allowed, Applied, SmallsEmpty, SettingIs, OverrunsAt, ValuesAt, NeedOf,
           InPlace, Asked, Logged;
      outs, mems := [], [M()];
      LoggedStart(M(), ops);
      var stop := false;
      while |outs| < |ops| && !stop
        invariant |outs| <= |ops| && Valid() && (stop <==> outs != [] && outs[|outs| - 1].Overran?)
        invariant Texts(M()) == Values(old(Texts(M())), ops[..|outs|], outs)
        invariant Logged(old(M()), ops, outs, mems) && |mems| == |outs| + 1 && mems[|outs|] == M()
        invariant failures >= old(failures)
        invariant failures == old(failures) ==> forall k | 0 <= k < |outs| :: !outs[k].Threw?
        invariant forall flag | OneSetting(ops, flag) && (flag ==> SmallsEmpty(old(strs))) ::
                    !stop && (flag ==> SmallsEmpty(strs))
        decreases |ops| - |outs|, !stop
      {
        var k := |outs|;
        MayCallMeans(ops[k]);
        ghost var before, log, m := outs, mems, M();
        var out := Skipped;
        if MayCall(ops[k]) {
          out := Perform(ops[k]);
        }
        outs, mems := outs + [out], mems + [M()];
        stop := out.Overran?;
        ValuesStep(old(Texts(M())), ops, before, out);
        LoggedStep(old(M()), ops, before, log, out, M());
      }
      LoggedMeans(old(M()), ops, outs, mems);
      if strs == map[] {
        NoStringsNoBlocks(M());
      }
    }
  }

  /** The operations of a program on its strings; Room is reserve, Put a write through mutableData. */
  datatype Op =
    | New(id: Id, data: seq<Byte>, disableSSO: bool)
    | CopyOf(id: Id, from: Id)
    | MoveOf(id: Id, from: Id)
    | SwapBoth(a: Id, b: Id)
    | Drop(id: Id)
    | Room(id: Id, n: nat, disableSSO: bool)
    | Append(id: Id, data: seq<Byte>, expGrowth: bool, disableSSO: bool)
    | Cut(id: Id, n: nat, disableSSO: bool)
    | Put(id: Id, i: nat, c: Byte)

  predicate Allowed(v: map<Id, seq<Byte>>, op: Op) {
    match op
    case New(id, _, _) => id !in v
    case CopyOf(id, from) => id !in v && from in v
    case MoveOf(id, from) => id !in v && from in v
    case SwapBoth(a, b) => a in v && b in v
    case Drop(id) => id in v
    case Room(id, _, _) => id in v
    case Append(id, _, _, _) => id in v
    case Cut(id, n, _) => id in v && n <= |v[id]|
    case Put(id, i, _) => id in v && i < |v[id]|
  }

  /** The same operation on independent values. */
  function Applied(v: map<Id, seq<Byte>>, op: Op): (r: map<Id, seq<Byte>>)
    requires Allowed(v, op)
  {
    match op
    case New(id, data, _) => v[id := data]
    case CopyOf(id, from) => v[id := v[from]]
    case MoveOf(id, from) => v[id := v[from]][from := []]
    case SwapBoth(a, b) => v[a := v[b]][b := v[a]]
    case Drop(id) => v - {id}
    case Room(_, _, _) => v
    case Append(id, data, _, _) => v[id := v[id] + data]
    case Cut(id, n, _) => v[id := v[id][..|v[id]| - n]]
    case Put(id, i, c) => v[id := SetAt(v[id], i, c)]
  }

  /** Wherever the operation says which layout it was compiled for, it says `flag`. */
  predicate SettingIs(op: Op, flag: bool) {
    match op
    case New(_, _, disableSSO) => disableSSO == flag
    case Room(_, _, disableSSO) => disableSSO == flag
    case Append(_, _, _, disableSSO) => disableSSO == flag
    case Cut(_, _, disableSSO) => disableSSO == flag
    case _ => true
  }

  predicate OneSetting(ops: seq<Op>, flag: bool) {
    forall k | 0 <= k < |ops| :: SettingIs(ops[k], flag)
  }

  /** A reserve compiled with the small layout disabled, for less than the string holds. */
  predicate OverrunsAt(v: map<Id, seq<Byte>>, op: Op) {
    op.Room? && op.disableSSO && op.id in v && op.n < |v[op.id]|
  }

  /** The values after the operations that succeeded. */
  function Values(v: map<Id, seq<Byte>>, ops: seq<Op>, outs: seq<Outcome>): (r: map<Id, seq<Byte>>)
    requires |ops| == |outs|
    decreases |ops|
  {
    if ops == [] then v
    else
      var n := |ops| - 1;
      var before := Values(v, ops[..n], outs[..n]);
      if outs[n].Done? && Allowed(before, ops[n]) then Applied(before, ops[n]) else before
  }

  /** The values before operation `k`. */
  function ValuesAt(v: map<Id, seq<Byte>>, ops: seq<Op>, outs: seq<Outcome>, k: nat): (r: map<Id, seq<Byte>>)
    requires k <= |outs| <= |ops|
  {
    Values(v, ops[..k], outs[..k])
  }

  /** The memory before each operation holds the values of that moment, and an operation throws only where it asks
      for memory there. */
  ghost predicate Logged(m: Mem, ops: seq<Op>, outs: seq<Outcome>, mems: seq<Mem>) {
    && |outs| <= |ops| && |mems| == |outs| + 1 && MemOk(m) && mems[0] == m
    && (forall k | 0 <= k < |mems| :: MemOk(mems[k]) && Texts(mems[k]) == ValuesAt(Texts(m), ops, outs, k))
    && (forall k | 0 <= k < |outs| && outs[k].Threw? ::
          NeedOf(mems[k], ops[k]) != Nothing && !InPlace(mems[k], ops[k]))
    && (forall k | 0 <= k < |outs| :: outs[k].Skipped? <==> !Allowed(ValuesAt(Texts(m), ops, outs, k), ops[k]))
    && (forall k | 0 <= k < |outs| && outs[k].Overran? ::
          k == |outs| - 1 && OverrunsAt(ValuesAt(Texts(m), ops, outs, k), ops[k]))
  }

  lemma LoggedMeans(m: Mem, ops: seq<Op>, outs: seq<Outcome>, mems: seq<Mem>)
    requires Logged(m, ops, outs, mems)
    ensures forall k | 0 <= k < |outs| :: outs[k].Skipped? <==> !Allowed(ValuesAt(Texts(m), ops, outs, k), ops[k])
    ensures forall k | 0 <= k < |outs| && outs[k].Overran? ::
              k == |outs| - 1 && OverrunsAt(ValuesAt(Texts(m), ops, outs, k), ops[k])
  {
    hide MemOk, Texts, NeedOf, InPlace, ValuesAt, Allowed, OverrunsAt;
  }

  lemma LoggedStart(m: Mem, ops: seq<Op>)
    requires MemOk(m)
    ensures Logged(m, ops, [], [m])
  {
    hide MemOk, Texts;
  }

  lemma LoggedStep(m: Mem, ops: seq<Op>, outs: seq<Outcome>, mems: seq<Mem>, out: Outcome, m': Mem)
    requires Logged(m, ops, outs, mems) && |outs| < |ops| && MemOk(m')
    requires Texts(m') == Values(Texts(m), ops[..|outs| + 1], outs + [out])
    requires out.Threw? ==> NeedOf(mems[|outs|], ops[|outs|]) != Nothing && !InPlace(mems[|outs|], ops[|outs|])
    requires outs == [] || !outs[|outs| - 1].Overran?
    requires out.Skipped? <==> !Allowed(Values(Texts(m), ops[..|outs|], outs), ops[|outs|])
    requires out.Overran? ==> OverrunsAt(Values(Texts(m), ops[..|outs|], outs), ops[|outs|])
    ensures Logged(m, ops, outs + [out], mems + [m'])
  {
    hide MemOk, Texts, NeedOf, InPlace, ValuesAt, Values, Allowed, Applied, OverrunsAt;
    ValuesStep(Texts(m), ops, outs, out);
    LastValues(Texts(m), ops, outs + [out]);
    LastValues(Texts(m), ops, outs);
  }

  lemma LastValues(v: map<Id, seq<Byte>>, ops: seq<Op>, outs: seq<Outcome>)
    requires |outs| <= |ops|
    ensures ValuesAt(v, ops, outs, |outs|) == Values(v, ops[..|outs|], outs)
  {
    assert outs[..|outs|] == outs;
  }

  lemma ValuesStep(v: map<Id, seq<Byte>>, ops: seq<Op>, outs: seq<Outcome>, out: Outcome)
    requires |outs| < |ops|
    ensures var n, outs' := |outs|, outs + [out];
            var before := Values(v, ops[..n], outs);
            && Values(v, ops[..n + 1], outs') ==
               (if out.Done? && Allowed(before, ops[n]) then Applied(before, ops[n]) else before)
            && ValuesAt(v, ops, outs', n) == before
            && forall k | 0 <= k < n :: ValuesAt(v, ops, outs', k) == ValuesAt(v, ops, outs, k)
  {
    var n, outs' := |outs|, outs + [out];
    assert ops[..n + 1][..n] == ops[..n] && outs'[..n] == outs;
    forall k | 0 <= k < n
      ensures ValuesAt(v, ops, outs', k) == ValuesAt(v, ops, outs, k)
    {
      assert outs'[..k] == outs[..k];
    }
  }
}
