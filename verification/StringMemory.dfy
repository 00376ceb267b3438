/**
 The storage of fbstring_core for one-byte characters on a 64-bit little-endian machine.

 A string object is a 24-byte union: 24 characters, or a pointer, a size and a capacity word.  The code
 tells them apart by the last byte, which holds either the unused room of a small string or the two
 category bits at the top of the capacity word.
 */
module StringMemory {
  import opened Common

  type Id = nat
  type Ptr = nat
  type Byte = b: nat | b < 256

  const MAX_SMALL: nat := 23
  const MAX_MEDIUM: nat := 254
  const IS_SMALL: nat := 0x00
  const IS_MEDIUM: nat := 0x80
  const IS_LARGE: nat := 0x40
  const CATEGORY_SHIFT: nat := 0x100_0000_0000_0000   // 1 << 56
  const CAPACITY_LIMIT: nat := 0x4000_0000_0000_0000  // the category bits are bits 62 and 63
  const WORD: nat := 0x1_0000_0000_0000_0000
  const DATA_OFFSET: nat := 8                          // the reference count stands before the characters

  /** The union, by the member that was written last. */
  datatype Rep = SmallRep(bytes: seq<Byte>) | HeapRep(data: Ptr, size: nat, capacityWord: nat)

  /** A malloc block: characters only, or a reference count and characters. */
  datatype Block = Plain(chars: seq<Byte>) | Counted(refs: nat, chars: seq<Byte>)

  datatype Mem = Mem(strs: map<Id, Rep>, blocks: map<Ptr, Block>)

  // -------------------------------------------------------------------- what the code reads

  function LastByte(rep: Rep): (b: nat) {
    match rep
    case SmallRep(bytes) => if |bytes| == 24 then bytes[23] else 0
    case HeapRep(_, _, w) => w / CATEGORY_SHIFT
  }

  /** bytes_[lastChar] & 0xC0. */
  function Category(rep: Rep): (c: nat) {
    LastByte(rep) / 0x40 % 4 * 0x40
  }

  function SetCapacity(cap: nat, category: nat): (w: nat) {
    cap + category * CATEGORY_SHIFT
  }

  /** capacity_ & ~(0xC0 << 56). */
  function CapacityOf(rep: Rep): (cap: nat)
    requires rep.HeapRep?
  {
    rep.capacityWord % CAPACITY_LIMIT
  }

  /** size(): the small size if the last byte leaves it non-negative, else the size field. */
  function SizeOf(rep: Rep): (n: nat) {
    if LastByte(rep) <= MAX_SMALL then MAX_SMALL - LastByte(rep)
    else match rep case HeapRep(_, size, _) => size case SmallRep(_) => 0
  }

  /** capacity(): a block with several owners has no room to append. */
  function Capacity(m: Mem, id: Id): (cap: nat)
    requires id in m.strs && RepOk(m.blocks, m.strs[id])
  {
    var rep := m.strs[id];
    if Category(rep) == IS_SMALL then MAX_SMALL
    else if && Category(rep) == IS_LARGE && rep.HeapRep?
            && m.blocks[rep.data].Counted? && m.blocks[rep.data].refs > 1 then rep.size
    else if rep.HeapRep? then CapacityOf(rep) else 0
  }

  // -------------------------------------------------------------------- what is kept

  /** A string object is in one of the three layouts, and its characters end with a null. */
  predicate RepOk(blocks: map<Ptr, Block>, rep: Rep) {
    match rep
    case SmallRep(bytes) => |bytes| == 24 && bytes[23] <= MAX_SMALL && bytes[MAX_SMALL - bytes[23]] == 0
    case HeapRep(p, size, w) =>
      && p in blocks
      && var cap := |blocks[p].chars| - 1;
         && size <= cap < CAPACITY_LIMIT && blocks[p].chars[size] == 0
         && w == SetCapacity(cap, if blocks[p].Plain? then IS_MEDIUM else IS_LARGE)
  }

  function Owners(strs: map<Id, Rep>, p: Ptr): (o: set<Id>) {
    set id | id in strs && strs[id].HeapRep? && strs[id].data == p
  }

  /** A plain block has one owner; a counted block has as many as its count says. */
  predicate BlockOk(strs: map<Id, Rep>, p: Ptr, block: Block) {
    match block
    case Plain(_) => |Owners(strs, p)| == 1
    case Counted(refs, _) => refs == |Owners(strs, p)| && refs > 0
  }

  ghost predicate MemOk(m: Mem) {
    && (forall id | id in m.strs :: RepOk(m.blocks, m.strs[id]))
    && (forall p | p in m.blocks :: BlockOk(m.strs, p, m.blocks[p]))
  }

  /** The characters of a string object. */
  function Text(blocks: map<Ptr, Block>, rep: Rep): (t: seq<Byte>)
    requires RepOk(blocks, rep)
  {
    match rep
    case SmallRep(bytes) => bytes[..MAX_SMALL - bytes[23]]
    case HeapRep(p, size, _) => blocks[p].chars[..size]
  }

  ghost function Texts(m: Mem): (t: map<Id, seq<Byte>>)
    requires MemOk(m)
  {
    map id | id in m.strs :: Text(m.blocks, m.strs[id])
  }

  /** The category read from the last byte names the layout, size() is the length, and setCapacity and
      capacity() are inverse, in all three layouts. */
  lemma LastByteTells(blocks: map<Ptr, Block>, rep: Rep)
    requires RepOk(blocks, rep)
    ensures Category(rep) == if rep.SmallRep? then 0x00 else if blocks[rep.data].Plain? then 0x80 else 0x40
    ensures SizeOf(rep) == |Text(blocks, rep)|
    ensures rep.HeapRep? ==> CapacityOf(rep) == |blocks[rep.data].chars| - 1 && rep.capacityWord < WORD
  {
    if rep.HeapRep? {
      var cap := |blocks[rep.data].chars| - 1;
      var q := if blocks[rep.data].Plain? then 2 else 1;
      assert rep.capacityWord == cap + q * CAPACITY_LIMIT;
      assert rep.capacityWord / CATEGORY_SHIFT == cap / CATEGORY_SHIFT + q * 0x40;
    }
  }

  // -------------------------------------------------------------------- counting owners

  predicate Owns(rep: Rep, p: Ptr) {
    rep.HeapRep? && rep.data == p
  }

  lemma OwnersUpdate(strs: map<Id, Rep>, id: Id, rep: Rep, p: Ptr)
    ensures |Owners(strs[id := rep], p)| == |Owners(strs, p)| - Bit(id in strs && Owns(strs[id], p)) + Bit(Owns(rep, p))
  {
    var a, b := Owners(strs, p), Owners(strs[id := rep], p);
    forall x
      ensures x in a - {id} <==> x in b - {id}
    {
    }
    assert a - {id} == b - {id};
    CardWithout(a, id);
    CardWithout(b, id);
  }

  lemma OwnersRemove(strs: map<Id, Rep>, id: Id, p: Ptr)
    ensures |Owners(strs - {id}, p)| == |Owners(strs, p)| - Bit(id in strs && Owns(strs[id], p))
  {
    assert Owners(strs - {id}, p) == Owners(strs, p) - {id};
    CardWithout(Owners(strs, p), id);
  }

  lemma NoOwners(m: Mem, p: Ptr)
    requires MemOk(m) && p !in m.blocks
    ensures Owners(m.strs, p) == {}
  {
    forall id | id in m.strs
      ensures !Owns(m.strs[id], p)
    {
      assert RepOk(m.blocks, m.strs[id]);
    }
  }

  /** An owner of a block that has one owner is that owner. */
  lemma OnlyOwner(m: Mem, id: Id, other: Id, p: Ptr)
    requires id in m.strs && other in m.strs && Owns(m.strs[id], p) && Owns(m.strs[other], p)
             && |Owners(m.strs, p)| == 1
    ensures id == other
  {
    CardWithout(Owners(m.strs, p), id);
    assert Owners(m.strs, p) - {id} == {};
    assert other !in Owners(m.strs, p) - {id};
  }

  // -------------------------------------------------------------------- giving up a block

  /** free, or RefCounted::decrementRefs. */
  function Release(blocks: map<Ptr, Block>, rep: Rep): (r: map<Ptr, Block>) {
    if rep.SmallRep? || rep.data !in blocks then blocks
    else match blocks[rep.data]
         case Plain(_) => blocks - {rep.data}
         case Counted(refs, chars) =>
           if refs <= 1 then blocks - {rep.data} else blocks[rep.data := Counted(refs - 1, chars)]
  }

  /** The other owners of a released block keep it with its characters. */
  lemma ReleaseKeepsOthers(m: Mem, id: Id, other: Id)
    requires MemOk(m) && id in m.strs && other in m.strs && other != id
    ensures RepOk(Release(m.blocks, m.strs[id]), m.strs[other])
    ensures Text(Release(m.blocks, m.strs[id]), m.strs[other]) == Text(m.blocks, m.strs[other])
  {
    assert RepOk(m.blocks, m.strs[other]);
    assert RepOk(m.blocks, m.strs[id]);
    if m.strs[id].HeapRep? && Owns(m.strs[other], m.strs[id].data) {
      var p := m.strs[id].data;
      assert BlockOk(m.strs, p, m.blocks[p]);
      if |Owners(m.strs, p)| == 1 {
        OnlyOwner(m, id, other, p);
      }
    }
  }

  /** After the release the counts fit the owners without `id`. */
  lemma ReleaseCounts(m: Mem, id: Id, p: Ptr)
    requires MemOk(m) && id in m.strs && p in Release(m.blocks, m.strs[id])
    ensures BlockOk(m.strs - {id}, p, Release(m.blocks, m.strs[id])[p])
  {
    hide Owners;
    assert BlockOk(m.strs, p, m.blocks[p]);
    assert RepOk(m.blocks, m.strs[id]);
    OwnersRemove(m.strs, id, p);
  }

  function Dropped(m: Mem, id: Id): (r: Mem)
    requires id in m.strs
  {
    Mem(m.strs - {id}, Release(m.blocks, m.strs[id]))
  }

  /** Destroying a string keeps the rest. */
  lemma DropKeeps(m: Mem, id: Id)
    requires MemOk(m) && id in m.strs
    ensures MemOk(Dropped(m, id)) && Texts(Dropped(m, id)) == Texts(m) - {id}
  {
    hide RepOk, BlockOk, Text, Release;
    var r := Dropped(m, id);
    forall x | x in r.strs
      ensures RepOk(r.blocks, r.strs[x]) && RepOk(m.blocks, m.strs[x])
              && Text(r.blocks, r.strs[x]) == Text(m.blocks, m.strs[x])
    {
      ReleaseKeepsOthers(m, id, x);
    }
    forall p | p in r.blocks
      ensures BlockOk(r.strs, p, r.blocks[p])
    {
      ReleaseCounts(m, id, p);
    }
  }

  // -------------------------------------------------------------------- a new string object

  /** A new object that owns nothing, or a fresh block of its own. */
  predicate NewOk(m: Mem, id: Id, rep: Rep, blocks': map<Ptr, Block>) {
    && id !in m.strs && RepOk(blocks', rep)
    && (if rep.SmallRep? then blocks' == m.blocks
        else rep.data !in m.blocks && rep.data in blocks' && blocks' == m.blocks[rep.data := blocks'[rep.data]]
             && (blocks'[rep.data].Counted? ==> blocks'[rep.data].refs == 1))
  }

  lemma AddKeeps(m: Mem, id: Id, rep: Rep, blocks': map<Ptr, Block>)
    requires MemOk(m) && NewOk(m, id, rep, blocks')
    ensures MemOk(Mem(m.strs[id := rep], blocks'))
    ensures Texts(Mem(m.strs[id := rep], blocks')) == Texts(m)[id := Text(blocks', rep)]
  {
    hide BlockOk, Owners;
    var r := Mem(m.strs[id := rep], blocks');
    forall x | x in m.strs
      ensures RepOk(blocks', m.strs[x]) && Text(blocks', m.strs[x]) == Text(m.blocks, m.strs[x])
    {
      assert RepOk(m.blocks, m.strs[x]);
    }
    forall p | p in r.blocks
      ensures BlockOk(r.strs, p, r.blocks[p])
    {
      AddCounts(m, id, rep, blocks', p);
    }
  }

  lemma AddCounts(m: Mem, id: Id, rep: Rep, blocks': map<Ptr, Block>, p: Ptr)
    requires MemOk(m) && NewOk(m, id, rep, blocks') && p in blocks'
    ensures BlockOk(m.strs[id := rep], p, blocks'[p])
  {
    hide Owners;
    OwnersUpdate(m.strs, id, rep, p);
    if p in m.blocks {
      assert BlockOk(m.strs, p, m.blocks[p]);
    } else {
      NoOwners(m, p);
    }
  }

  /** Copying a large string: one more owner of its block. */
  lemma ShareKeeps(m: Mem, id: Id, from: Id)
    requires MemOk(m) && id !in m.strs && from in m.strs && m.strs[from].HeapRep? && m.strs[from].data in m.blocks
    requires m.blocks[m.strs[from].data].Counted?
    ensures var p := m.strs[from].data;
            var b := m.blocks[p];
            var r := Mem(m.strs[id := m.strs[from]], m.blocks[p := Counted(b.refs + 1, b.chars)]);
            MemOk(r) && Texts(r) == Texts(m)[id := Texts(m)[from]]
  {
    hide BlockOk, Owners;
    var p := m.strs[from].data;
    var b := m.blocks[p];
    var r := Mem(m.strs[id := m.strs[from]], m.blocks[p := Counted(b.refs + 1, b.chars)]);
    forall x | x in m.strs
      ensures RepOk(r.blocks, m.strs[x]) && RepOk(m.blocks, m.strs[x])
              && Text(r.blocks, m.strs[x]) == Text(m.blocks, m.strs[x])
    {
      assert RepOk(m.blocks, m.strs[x]);
    }
    forall q | q in r.blocks
      ensures BlockOk(r.strs, q, r.blocks[q])
    {
      ShareCounts(m, id, from, q);
    }
  }

  lemma ShareCounts(m: Mem, id: Id, from: Id, q: Ptr)
    requires MemOk(m) && id !in m.strs && from in m.strs && m.strs[from].HeapRep? && m.strs[from].data in m.blocks
    requires m.blocks[m.strs[from].data].Counted? && q in m.blocks
    ensures var p := m.strs[from].data;
            var b := m.blocks[p];
            BlockOk(m.strs[id := m.strs[from]], q, m.blocks[p := Counted(b.refs + 1, b.chars)][q])
  {
    hide Owners;
    assert BlockOk(m.strs, q, m.blocks[q]);
    OwnersUpdate(m.strs, id, m.strs[from], q);
  }

  // -------------------------------------------------------------------- changing one object

  /** The object gives up what it had and gets a small or a freshly allocated representation. */
  lemma ReplaceKeeps(m: Mem, id: Id, rep: Rep, blocks': map<Ptr, Block>)
    requires MemOk(m) && id in m.strs && NewOk(Dropped(m, id), id, rep, blocks')
    ensures MemOk(Mem(m.strs[id := rep], blocks'))
    ensures Texts(Mem(m.strs[id := rep], blocks')) == Texts(m)[id := Text(blocks', rep)]
  {
    hide RepOk, BlockOk, Text, Release, NewOk;
    DropKeeps(m, id);
    NewIsOk(Dropped(m, id), id, rep, blocks');
    AddKeeps(Dropped(m, id), id, rep, blocks');
    assert (m.strs - {id})[id := rep] == m.strs[id := rep];
    assert (Texts(m) - {id})[id := Text(blocks', rep)] == Texts(m)[id := Text(blocks', rep)];
  }

  lemma NewIsOk(m: Mem, id: Id, rep: Rep, blocks': map<Ptr, Block>)
    requires NewOk(m, id, rep, blocks')
    ensures RepOk(blocks', rep)
  {
  }

  /** The only owner of a block writes its characters and its size in place. */
  lemma WriteKeeps(m: Mem, id: Id, size: nat, chars: seq<Byte>)
    requires MemOk(m) && id in m.strs && m.strs[id].HeapRep? && m.strs[id].data in m.blocks
    requires |Owners(m.strs, m.strs[id].data)| == 1
    requires |chars| == |m.blocks[m.strs[id].data].chars| && size < |chars| && chars[size] == 0
    ensures var p := m.strs[id].data;
            var rep := m.strs[id].(size := size);
            var r := Mem(m.strs[id := rep], m.blocks[p := WithChars(m.blocks[p], chars)]);
            MemOk(r) && RepOk(r.blocks, rep) && Texts(r) == Texts(m)[id := chars[..size]]
  {
    hide BlockOk, Owners;
    var p := m.strs[id].data;
    var rep := m.strs[id].(size := size);
    var r := Mem(m.strs[id := rep], m.blocks[p := WithChars(m.blocks[p], chars)]);
    assert RepOk(m.blocks, m.strs[id]);
    assert RepOk(r.blocks, rep);
    forall x | x in m.strs && x != id
      ensures RepOk(m.blocks, m.strs[x]) && RepOk(r.blocks, m.strs[x])
              && Text(r.blocks, m.strs[x]) == Text(m.blocks, m.strs[x])
    {
      assert RepOk(m.blocks, m.strs[x]);
      if Owns(m.strs[x], p) {
        OnlyOwner(m, id, x, p);
      }
    }
    forall q | q in r.blocks
      ensures BlockOk(r.strs, q, r.blocks[q])
    {
      WriteCounts(m, id, rep, chars, q);
    }
  }

  lemma WriteCounts(m: Mem, id: Id, rep: Rep, chars: seq<Byte>, q: Ptr)
    requires MemOk(m) && id in m.strs && m.strs[id].HeapRep? && m.strs[id].data in m.blocks && q in m.blocks
    requires rep.HeapRep? && rep.data == m.strs[id].data
    ensures BlockOk(m.strs[id := rep], q, m.blocks[rep.data := WithChars(m.blocks[rep.data], chars)][q])
  {
    hide Owners;
    assert BlockOk(m.strs, q, m.blocks[q]);
    OwnersUpdate(m.strs, id, rep, q);
  }

  function WithChars(b: Block, chars: seq<Byte>): (r: Block) {
    match b
    case Plain(_) => Plain(chars)
    case Counted(refs, _) => Counted(refs, chars)
  }

  /** Two objects exchange their representations. */
  lemma SwapKeeps(m: Mem, a: Id, b: Id)
    requires MemOk(m) && a in m.strs && b in m.strs
    ensures var r := Mem(m.strs[a := m.strs[b]][b := m.strs[a]], m.blocks);
            MemOk(r) && Texts(r) == Texts(m)[a := Texts(m)[b]][b := Texts(m)[a]]
  {
    hide BlockOk, Owners, RepOk, Text;
    var r := Mem(m.strs[a := m.strs[b]][b := m.strs[a]], m.blocks);
    assert RepOk(m.blocks, m.strs[a]) && RepOk(m.blocks, m.strs[b]);
    forall p | p in r.blocks
      ensures BlockOk(r.strs, p, r.blocks[p])
    {
      SwapCounts(m, a, b, p);
    }
  }

  lemma SwapCounts(m: Mem, a: Id, b: Id, p: Ptr)
    requires MemOk(m) && a in m.strs && b in m.strs && p in m.blocks
    ensures BlockOk(m.strs[a := m.strs[b]][b := m.strs[a]], p, m.blocks[p])
  {
    hide Owners;
    assert BlockOk(m.strs, p, m.blocks[p]);
    OwnersUpdate(m.strs, a, m.strs[b], p);
    OwnersUpdate(m.strs[a := m.strs[b]], b, m.strs[a], p);
  }

  /** Nothing is left when the last string is gone. */
  lemma NoStringsNoBlocks(m: Mem)
    requires MemOk(m) && m.strs == map[]
    ensures m.blocks == map[]
  {
    forall p: Ptr
      ensures p !in m.blocks
    {
      assert Owners(m.strs, p) == {};
    }
  }
}
