/** Which inode slot owns which disk block (fs.c). The bitmap marks a block
    exactly when it is metadata or one slot of one inode holds its number. */
module FsOwnership {
  import opened Blocks
  import opened FsLayout

  /** The places in an inode that can name a block: direct pointers 0..11, the
      indirect pointer 12, and the indirect block's entries 13..140. */
  const SLOTS: nat := 141

  datatype Owner = Owner(inum: nat, slot: nat)

  function Slot(blocks: seq<Block>, n: Inode, k: nat): nat
    requires k < SLOTS
  {
    if k <= NDIRECT then n.addrs[k]
    else if 0 < n.addrs[NDIRECT] < |blocks| then Word(blocks[n.addrs[NDIRECT]], k - NDIRECT - 1)
    else 0
  }

  ghost predicate Shapes(sb: Super, blocks: seq<Block>, inode: seq<Inode>) {
    sb.Valid() && sb.size <= |blocks| && |inode| == sb.ninodes
  }

  predicate OwnedBy(owner: map<nat, Owner>, b: nat, i: nat, k: nat) {
    b != 0 ==> b in owner && owner[b] == Owner(i, k)
  }

  /** Every block number in a slot is owned by that slot. The entries of inode gi
      that itrunc has freed but not erased, the first `gone`, are exempt. */
  ghost predicate Claims(blocks: seq<Block>, inode: seq<Inode>, owner: map<nat, Owner>, gi: nat, gone: nat) {
    forall i, k :: 0 <= i < |inode| && 0 <= k < SLOTS && !(i == gi && NDIRECT < k <= NDIRECT + gone) ==>
                     OwnedBy(owner, Slot(blocks, inode[i], k), i, k)
  }

  /** Every owned block is a data block, and its owner names it. */
  ghost predicate Named(sb: Super, blocks: seq<Block>, inode: seq<Inode>, owner: map<nat, Owner>)
  {
    forall b :: b in owner ==>
                  && sb.datastart <= b < sb.size
                  && owner[b].inum < |inode| && owner[b].slot < SLOTS
                  && Slot(blocks, inode[owner[b].inum], owner[b].slot) == b
  }

  ghost predicate BitsAgree(sb: Super, blocks: seq<Block>, owner: map<nat, Owner>)
    requires sb.Valid() && sb.size <= |blocks|
  {
    forall b :: 0 <= b < sb.size ==> (Bit(sb, blocks, b) <==> b < sb.datastart || b in owner)
  }

  ghost predicate Agree(sb: Super, blocks: seq<Block>, inode: seq<Inode>, owner: map<nat, Owner>, gi: nat, gone: nat) {
    && Shapes(sb, blocks, inode)
    && Claims(blocks, inode, owner, gi, gone)
    && Named(sb, blocks, inode, owner)
    && BitsAgree(sb, blocks, owner)
    && Released(owner, gi, gone)
  }

  ghost predicate Released(owner: map<nat, Owner>, gi: nat, gone: nat) {
    forall b :: b in owner ==> !(owner[b].inum == gi && NDIRECT < owner[b].slot <= NDIRECT + gone)
  }

  // ------------------------------------------------------------------ bitmap

  lemma BlockNumbers(sb: Super, b: nat)
    requires sb.Valid()
    ensures b < sb.size ==> sb.bmapstart <= sb.BitBlock(b) < sb.datastart
    ensures b < sb.ninodes ==> 0 < sb.InodeBlock(b) < sb.bmapstart
  {
    if b < sb.size { assert b / BPB <= sb.size / BPB; }
    if b < sb.ninodes { assert b / IPB <= sb.ninodes / IPB; }
  }

  /** balloc's effect: set the bit and zero the block. */
  function Marked(sb: Super, blocks: seq<Block>, b: nat): (r: seq<Block>)
    requires sb.Valid() && b < sb.size <= |blocks| && !Bit(sb, blocks, b)
    ensures |r| == |blocks|
  {
    BlockNumbers(sb, b);
    blocks[sb.BitBlock(b) := MarkedBlock(blocks[sb.BitBlock(b)], b)][b := ZeroBlock()]
  }

  /** bfree's effect: clear the bit. */
  function Unmarked(sb: Super, blocks: seq<Block>, b: nat): (r: seq<Block>)
    requires sb.Valid() && b < sb.size <= |blocks| && Bit(sb, blocks, b)
    ensures |r| == |blocks|
  {
    BlockNumbers(sb, b);
    blocks[sb.BitBlock(b) := ClearedBlock(blocks[sb.BitBlock(b)], b)]
  }

  lemma BitAfterMark(sb: Super, blocks: seq<Block>, b: nat, c: nat)
    requires sb.Valid() && b < sb.size <= |blocks| && c < sb.size && !Bit(sb, blocks, b) && sb.datastart <= b
    ensures Bit(sb, Marked(sb, blocks, b), c) <==> b == c || Bit(sb, blocks, c)
  {
    hide BitOf;
    hide MarkedBlock;
    BlockNumbers(sb, b);
    BlockNumbers(sb, c);
    if b / BPB == c / BPB { MarkedBits(blocks[sb.BitBlock(b)], b, c); }
  }

  lemma BitAfterUnmark(sb: Super, blocks: seq<Block>, b: nat, c: nat)
    requires sb.Valid() && b < sb.size <= |blocks| && c < sb.size && Bit(sb, blocks, b)
    ensures Bit(sb, Unmarked(sb, blocks, b), c) <==> b != c && Bit(sb, blocks, c)
  {
    hide BitOf;
    hide ClearedBlock;
    BlockNumbers(sb, b);
    BlockNumbers(sb, c);
    if b / BPB == c / BPB { ClearedBits(blocks[sb.BitBlock(b)], b, c); }
  }

  // ------------------------------------------------------------------- frames

  /** Slots see only the inode and its indirect block. */
  lemma SlotFrame(blocks: seq<Block>, blocks': seq<Block>, n: Inode, k: nat)
    requires k < SLOTS && |blocks'| == |blocks|
    requires n.addrs[NDIRECT] != 0 ==> SameBlock(blocks, blocks', n.addrs[NDIRECT])
    ensures Slot(blocks', n, k) == Slot(blocks, n, k)
  {
  }

  predicate SameBlock(blocks: seq<Block>, blocks': seq<Block>, a: nat) {
    a < |blocks| && a < |blocks'| ==> blocks'[a] == blocks[a]
  }

  /** No inode's indirect block is among the blocks that differ. */
  ghost predicate IndirectsKept(blocks: seq<Block>, blocks': seq<Block>, inode: seq<Inode>)
  {
    && |blocks'| == |blocks|
    && forall i :: 0 <= i < |inode| ==>
                     inode[i].addrs[NDIRECT] != 0 ==> SameBlock(blocks, blocks', inode[i].addrs[NDIRECT])
  }

  lemma SlotsKept(blocks: seq<Block>, blocks': seq<Block>, inode: seq<Inode>)
    requires IndirectsKept(blocks, blocks', inode)
    ensures forall i, k :: 0 <= i < |inode| && 0 <= k < SLOTS ==>
              Slot(blocks', inode[i], k) == Slot(blocks, inode[i], k)
  {
    hide Slot;
    forall i, k | 0 <= i < |inode| && 0 <= k < SLOTS
      ensures Slot(blocks', inode[i], k) == Slot(blocks, inode[i], k)
    {
      SlotFrame(blocks, blocks', inode[i], k);
    }
  }

  /** Indirect blocks are owned through slot 12. */
  lemma IndirectOwned(sb: Super, blocks: seq<Block>, inode: seq<Inode>, owner: map<nat, Owner>, gi: nat, gone: nat,
                      i: nat)
    requires Agree(sb, blocks, inode, owner, gi, gone) && i < |inode|
    ensures var a := inode[i].addrs[NDIRECT];
            a != 0 ==> a in owner && owner[a] == Owner(i, NDIRECT) && sb.datastart <= a < sb.size
  {
    assert Slot(blocks, inode[i], NDIRECT) == inode[i].addrs[NDIRECT];
  }

  /** Changing blocks that are no inode's indirect block keeps every indirect. */
  lemma OthersChange(sb: Super, blocks: seq<Block>, blocks': seq<Block>, inode: seq<Inode>, owner: map<nat, Owner>,
                     gi: nat, gone: nat)
    requires Agree(sb, blocks, inode, owner, gi, gone) && |blocks'| == |blocks|
    requires forall b :: 0 <= b < |blocks| && b in owner && owner[b].slot == NDIRECT ==> blocks'[b] == blocks[b]
    ensures IndirectsKept(blocks, blocks', inode)
  {
    forall i | 0 <= i < |inode|
      ensures inode[i].addrs[NDIRECT] != 0 ==> SameBlock(blocks, blocks', inode[i].addrs[NDIRECT])
    {
      IndirectOwned(sb, blocks, inode, owner, gi, gone, i);
    }
  }

  // ------------------------------------------------------- one slot changes

  /** Slot k of inode i becomes v; every other slot keeps its value. */
  ghost predicate SlotSet(blocks: seq<Block>, inode: seq<Inode>, blocks': seq<Block>, inode': seq<Inode>, i: nat,
                          k: nat, v: nat) {
    && |inode'| == |inode| && i < |inode| && k < SLOTS
    && Slot(blocks', inode'[i], k) == v
    && forall j, l :: 0 <= j < |inode| && 0 <= l < SLOTS && (j != i || l != k) ==>
                        Slot(blocks', inode'[j], l) == Slot(blocks, inode[j], l)
  }

  lemma AddOwner(sb: Super, blocks: seq<Block>, blocks': seq<Block>, inode: seq<Inode>, inode': seq<Inode>,
                 owner: map<nat, Owner>, i: nat, k: nat, b: nat)
    requires Agree(sb, blocks, inode, owner, 0, 0) && Shapes(sb, blocks', inode')
    requires SlotSet(blocks, inode, blocks', inode', i, k, b) && Slot(blocks, inode[i], k) == 0
    requires sb.datastart <= b < sb.size && b !in owner
    requires forall c :: 0 <= c < sb.size ==> (Bit(sb, blocks', c) <==> c == b || Bit(sb, blocks, c))
    ensures Agree(sb, blocks', inode', owner[b := Owner(i, k)], 0, 0)
  {
    hide Slot;
    hide Bit;
    var owner' := owner[b := Owner(i, k)];
    forall j, l | 0 <= j < |inode'| && 0 <= l < SLOTS
      ensures OwnedBy(owner', Slot(blocks', inode'[j], l), j, l)
    {
      if j != i || l != k {
        assert OwnedBy(owner, Slot(blocks, inode[j], l), j, l);
      }
    }
    forall c | c in owner'
      ensures owner'[c].inum < |inode'| && owner'[c].slot < SLOTS
              && Slot(blocks', inode'[owner'[c].inum], owner'[c].slot) == c
    {
    }
  }

  lemma DropOwner(sb: Super, blocks: seq<Block>, blocks': seq<Block>, inode: seq<Inode>, inode': seq<Inode>,
                  owner: map<nat, Owner>, i: nat, k: nat, b: nat)
    requires Agree(sb, blocks, inode, owner, 0, 0) && Shapes(sb, blocks', inode')
    requires SlotSet(blocks, inode, blocks', inode', i, k, 0) && Slot(blocks, inode[i], k) == b != 0
    requires forall c :: 0 <= c < sb.size ==> (Bit(sb, blocks', c) <==> c != b && Bit(sb, blocks, c))
    ensures Agree(sb, blocks', inode', owner - {b}, 0, 0)
  {
    hide Slot;
    hide Bit;
    assert OwnedBy(owner, Slot(blocks, inode[i], k), i, k);
    forall j, l | 0 <= j < |inode'| && 0 <= l < SLOTS
      ensures OwnedBy(owner - {b}, Slot(blocks', inode'[j], l), j, l)
    {
      if j != i || l != k {
        assert OwnedBy(owner, Slot(blocks, inode[j], l), j, l);
      }
    }
  }

  /** Writing data blocks or inode blocks disturbs nothing. */
  lemma KeepOwners(sb: Super, blocks: seq<Block>, blocks': seq<Block>, inode: seq<Inode>, owner: map<nat, Owner>,
                   gi: nat, gone: nat)
    requires Agree(sb, blocks, inode, owner, gi, gone) && |blocks'| == |blocks|
    requires IndirectsKept(blocks, blocks', inode)
    requires forall c :: 0 <= c < sb.size ==> (Bit(sb, blocks', c) <==> Bit(sb, blocks, c))
    ensures Agree(sb, blocks', inode, owner, gi, gone)
    ensures forall i, k :: 0 <= i < |inode| && 0 <= k < SLOTS ==>
              Slot(blocks', inode[i], k) == Slot(blocks, inode[i], k)
  {
    hide Slot;
    hide Bit;
    SlotsKept(blocks, blocks', inode);
    forall j, l | 0 <= j < |inode| && 0 <= l < SLOTS && !(j == gi && NDIRECT < l <= NDIRECT + gone)
      ensures OwnedBy(owner, Slot(blocks', inode[j], l), j, l)
    {
      assert OwnedBy(owner, Slot(blocks, inode[j], l), j, l);
    }
  }

  // ------------------------------------------------------------- allocations

  function WithAddr(n: Inode, k: nat, b: uint32): Inode
    requires k <= NDIRECT
  {
    n.(addrs := n.addrs[k := b])
  }

  lemma ZeroWord(j: nat)
    requires j < WORDS
    ensures Word(ZeroBlock(), j) == 0
  {
  }

  /** A pointer in the inode takes a new block; a new indirect block is empty. */
  lemma PointerSet(blocks: seq<Block>, blocks': seq<Block>, inode: seq<Inode>, i: nat, k: nat, b: uint32)
    requires IndirectsKept(blocks, blocks', inode) && i < |inode| && k <= NDIRECT
    requires k == NDIRECT ==> inode[i].addrs[k] == 0 && 0 < b < |blocks| && blocks'[b] == ZeroBlock()
    ensures SlotSet(blocks, inode, blocks', inode[i := WithAddr(inode[i], k, b)], i, k, b)
  {
    hide Word;
    SlotsKept(blocks, blocks', inode);
    var n, n' := inode[i], WithAddr(inode[i], k, b);
    forall l | 0 <= l < SLOTS && l != k
      ensures Slot(blocks', n', l) == Slot(blocks, n, l)
    {
      if k == NDIRECT && l > NDIRECT { ZeroWord(l - NDIRECT - 1); }
      assert Slot(blocks', n, l) == Slot(blocks, n, l);
    }
  }

  lemma MarkedFrame(sb: Super, blocks: seq<Block>, inode: seq<Inode>, owner: map<nat, Owner>, b: nat)
    requires Agree(sb, blocks, inode, owner, 0, 0) && sb.datastart <= b < sb.size && b !in owner
    ensures !Bit(sb, blocks, b)
    ensures IndirectsKept(blocks, Marked(sb, blocks, b), inode)
    ensures Marked(sb, blocks, b)[b] == ZeroBlock()
    ensures forall c :: 0 <= c < sb.size ==> (Bit(sb, Marked(sb, blocks, b), c) <==> c == b || Bit(sb, blocks, c))
  {
    hide Bit;
    hide Slot;
    hide MarkedBlock;
    hide ZeroBlock;
    var blocks' := Marked(sb, blocks, b);
    BlockNumbers(sb, b);
    OthersChange(sb, blocks, blocks', inode, owner, 0, 0);
    forall c | 0 <= c < sb.size
      ensures Bit(sb, blocks', c) <==> c == b || Bit(sb, blocks, c)
    {
      BitAfterMark(sb, blocks, b, c);
    }
  }

  /** bmap gives pointer k of inode i a freshly allocated block. */
  lemma AllocPointer(sb: Super, blocks: seq<Block>, inode: seq<Inode>, owner: map<nat, Owner>, i: nat, k: nat, b: nat)
    requires Agree(sb, blocks, inode, owner, 0, 0) && i < |inode| && k <= NDIRECT && inode[i].addrs[k] == 0
    requires sb.datastart <= b < sb.size && b !in owner
    ensures !Bit(sb, blocks, b)
    ensures var inode' := inode[i := WithAddr(inode[i], k, b)];
            && Agree(sb, Marked(sb, blocks, b), inode', owner[b := Owner(i, k)], 0, 0)
            && SlotSet(blocks, inode, Marked(sb, blocks, b), inode', i, k, b)
  {
    MarkedFrame(sb, blocks, inode, owner, b);
    var blocks', inode' := Marked(sb, blocks, b), inode[i := WithAddr(inode[i], k, b)];
    PointerSet(blocks, blocks', inode, i, k, b);
    AddOwner(sb, blocks, blocks', inode, inode', owner, i, k, b);
  }

  /** Bitmap and inode blocks lie below the data blocks. */
  lemma DataLeavesBits(sb: Super, blocks: seq<Block>, b: nat, data: Block)
    requires sb.Valid() && sb.datastart <= b < sb.size <= |blocks|
    ensures forall c :: 0 <= c < sb.size ==> (Bit(sb, blocks[b := data], c) <==> Bit(sb, blocks, c))
    ensures forall i :: 0 <= i < sb.ninodes ==> DiskInode(sb, blocks[b := data], i) == DiskInode(sb, blocks, i)
  {
    hide BitOf;
    hide InodeIn;
    forall c | 0 <= c < sb.size
      ensures Bit(sb, blocks[b := data], c) <==> Bit(sb, blocks, c)
    {
      BlockNumbers(sb, c);
    }
    forall i | 0 <= i < sb.ninodes
      ensures DiskInode(sb, blocks[b := data], i) == DiskInode(sb, blocks, i)
    {
      BlockNumbers(sb, i);
    }
  }

  /** writei stores into a data block of a file. */
  lemma WriteData(sb: Super, blocks: seq<Block>, inode: seq<Inode>, owner: map<nat, Owner>, b: nat, data: Block)
    requires Agree(sb, blocks, inode, owner, 0, 0) && b in owner && owner[b].slot != NDIRECT
    ensures Agree(sb, blocks[b := data], inode, owner, 0, 0)
    ensures forall i, k :: 0 <= i < |inode| && 0 <= k < SLOTS ==>
              Slot(blocks[b := data], inode[i], k) == Slot(blocks, inode[i], k)
  {
    hide Bit;
    hide Slot;
    OthersChange(sb, blocks, blocks[b := data], inode, owner, 0, 0);
    DataLeavesBits(sb, blocks, b, data);
    KeepOwners(sb, blocks, blocks[b := data], inode, owner, 0, 0);
  }

  lemma SlotSetThen(blocks: seq<Block>, inode: seq<Inode>, mid: seq<Block>, blocks': seq<Block>, i: nat, k: nat, v: nat)
    requires IndirectsKept(blocks, mid, inode) && SlotSet(mid, inode, blocks', inode, i, k, v)
    ensures SlotSet(blocks, inode, blocks', inode, i, k, v)
  {
    hide Slot;
    SlotsKept(blocks, mid, inode);
  }

  /** bmap gives entry e of inode i's indirect block a freshly allocated block. */
  lemma AllocEntry(sb: Super, blocks: seq<Block>, inode: seq<Inode>, owner: map<nat, Owner>, i: nat, e: nat, b: nat)
    requires Agree(sb, blocks, inode, owner, 0, 0) && i < |inode| && e < NINDIRECT && inode[i].addrs[NDIRECT] != 0
    requires Slot(blocks, inode[i], NDIRECT + 1 + e) == 0
    requires sb.datastart <= b < sb.size && b !in owner
    ensures !Bit(sb, blocks, b)
    ensures var a := inode[i].addrs[NDIRECT];
            var mid := Marked(sb, blocks, b);
            && a < |mid| && mid[a] == blocks[a] && a != b
            && var blocks' := mid[a := SetWord(mid[a], e, b)];
               && Agree(sb, blocks', inode, owner[b := Owner(i, NDIRECT + 1 + e)], 0, 0)
               && SlotSet(blocks, inode, blocks', inode, i, NDIRECT + 1 + e, b)
  {
    hide Bit;
    hide Slot;
    hide SetWord;
    hide ZeroBlock;
    MarkedFrame(sb, blocks, inode, owner, b);
    IndirectOwned(sb, blocks, inode, owner, 0, 0, i);
    var a, mid := inode[i].addrs[NDIRECT], Marked(sb, blocks, b);
    EntrySet(sb, blocks, mid, inode, owner, i, e, b);
    var blocks' := mid[a := SetWord(mid[a], e, b)];
    SlotSetThen(blocks, inode, mid, blocks', i, NDIRECT + 1 + e, b);
    DataLeavesBits(sb, mid, a, SetWord(mid[a], e, b));
    AddOwner(sb, blocks, blocks', inode, inode, owner, i, NDIRECT + 1 + e, b);
  }

  /** An entry of an indirect block takes a value. */
  lemma EntrySet(sb: Super, blocks: seq<Block>, mid: seq<Block>, inode: seq<Inode>, owner: map<nat, Owner>, i: nat,
                 e: nat, b: uint32)
    requires Agree(sb, blocks, inode, owner, 0, 0) && i < |inode| && e < NINDIRECT && inode[i].addrs[NDIRECT] != 0
    requires IndirectsKept(blocks, mid, inode)
    ensures var a := inode[i].addrs[NDIRECT];
            && a < |mid| && mid[a] == blocks[a]
            && SlotSet(mid, inode, mid[a := SetWord(mid[a], e, b)], inode, i, NDIRECT + 1 + e, b)
  {
    hide Word;
    hide SetWord;
    var a := inode[i].addrs[NDIRECT];
    IndirectOwned(sb, blocks, inode, owner, 0, 0, i);
    assert inode[i].addrs[NDIRECT] != 0 ==> SameBlock(blocks, mid, inode[i].addrs[NDIRECT]);
    var blocks' := mid[a := SetWord(mid[a], e, b)];
    forall j, l | 0 <= j < |inode| && 0 <= l < SLOTS && (j != i || l != NDIRECT + 1 + e)
      ensures Slot(blocks', inode[j], l) == Slot(mid, inode[j], l)
    {
      IndirectOwned(sb, blocks, inode, owner, 0, 0, j);
      if j == i && l > NDIRECT { WordAfterSet(mid[a], e, b, l - NDIRECT - 1); }
    }
    WordAfterSet(mid[a], e, b, e);
  }

  // ------------------------------------------------------------------ frees

  lemma UnmarkedFrame(sb: Super, blocks: seq<Block>, inode: seq<Inode>, owner: map<nat, Owner>, gi: nat, gone: nat,
                      b: nat)
    requires Agree(sb, blocks, inode, owner, gi, gone) && b in owner
    ensures b < sb.size && Bit(sb, blocks, b)
    ensures IndirectsKept(blocks, Unmarked(sb, blocks, b), inode)
    ensures forall c :: 0 <= c < sb.size ==> (Bit(sb, Unmarked(sb, blocks, b), c) <==> c != b && Bit(sb, blocks, c))
  {
    hide Bit;
    hide Slot;
    hide ClearedBlock;
    var blocks' := Unmarked(sb, blocks, b);
    BlockNumbers(sb, b);
    OthersChange(sb, blocks, blocks', inode, owner, gi, gone);
    forall c | 0 <= c < sb.size
      ensures Bit(sb, blocks', c) <==> c != b && Bit(sb, blocks, c)
    {
      BitAfterUnmark(sb, blocks, b, c);
    }
  }

  /** itrunc frees direct pointer k of inode i and erases it. */
  lemma FreePointer(sb: Super, blocks: seq<Block>, inode: seq<Inode>, owner: map<nat, Owner>, i: nat, k: nat)
    requires Agree(sb, blocks, inode, owner, 0, 0) && i < |inode| && k < NDIRECT && inode[i].addrs[k] != 0
    ensures var b := inode[i].addrs[k];
            && b in owner && b < sb.size && Bit(sb, blocks, b)
            && Agree(sb, Unmarked(sb, blocks, b), inode[i := WithAddr(inode[i], k, 0)], owner - {b}, 0, 0)
            && SlotSet(blocks, inode, Unmarked(sb, blocks, b), inode[i := WithAddr(inode[i], k, 0)], i, k, 0)
  {
    hide Bit;
    var b := inode[i].addrs[k];
    assert Slot(blocks, inode[i], k) == b;
    assert OwnedBy(owner, b, i, k);
    UnmarkedFrame(sb, blocks, inode, owner, 0, 0, b);
    var blocks', inode' := Unmarked(sb, blocks, b), inode[i := WithAddr(inode[i], k, 0)];
    PointerSet(blocks, blocks', inode, i, k, 0);
    DropOwner(sb, blocks, blocks', inode, inode', owner, i, k, b);
  }

  /** itrunc skips an empty entry. */
  lemma SkipEntry(sb: Super, blocks: seq<Block>, inode: seq<Inode>, owner: map<nat, Owner>, i: nat, e: nat)
    requires Agree(sb, blocks, inode, owner, i, e) && i < |inode| && e < NINDIRECT
    requires Slot(blocks, inode[i], NDIRECT + 1 + e) == 0
    ensures Agree(sb, blocks, inode, owner, i, e + 1)
  {
    hide Bit;
    hide Slot;
    forall b | b in owner
      ensures !(owner[b].inum == i && NDIRECT < owner[b].slot <= NDIRECT + e + 1)
    {
      assert Slot(blocks, inode[owner[b].inum], owner[b].slot) == b;
    }
  }

  /** itrunc frees entry e of the indirect block and leaves the number there. */
  lemma FreeEntry(sb: Super, blocks: seq<Block>, inode: seq<Inode>, owner: map<nat, Owner>, i: nat, e: nat)
    requires Agree(sb, blocks, inode, owner, i, e) && i < |inode| && e < NINDIRECT
    requires Slot(blocks, inode[i], NDIRECT + 1 + e) != 0
    ensures var b := Slot(blocks, inode[i], NDIRECT + 1 + e);
            && b in owner && b < sb.size && Bit(sb, blocks, b)
            && Agree(sb, Unmarked(sb, blocks, b), inode, owner - {b}, i, e + 1)
            && IndirectsKept(blocks, Unmarked(sb, blocks, b), inode)
  {
    hide Bit;
    hide Slot;
    var k := NDIRECT + 1 + e;
    var b := Slot(blocks, inode[i], k);
    assert OwnedBy(owner, Slot(blocks, inode[i], k), i, k);
    UnmarkedFrame(sb, blocks, inode, owner, i, e, b);
    var blocks', owner' := Unmarked(sb, blocks, b), owner - {b};
    SlotsKept(blocks, blocks', inode);
    forall j, l | 0 <= j < |inode| && 0 <= l < SLOTS && !(j == i && NDIRECT < l <= NDIRECT + e + 1)
      ensures OwnedBy(owner', Slot(blocks', inode[j], l), j, l)
    {
      assert OwnedBy(owner, Slot(blocks, inode[j], l), j, l);
    }
    forall c | c in owner'
      ensures !(owner'[c].inum == i && NDIRECT < owner'[c].slot <= NDIRECT + e + 1)
    {
      assert Slot(blocks, inode[owner[c].inum], owner[c].slot) == c;
    }
  }

  /** itrunc frees the indirect block itself, last. */
  lemma FreeIndirect(sb: Super, blocks: seq<Block>, inode: seq<Inode>, owner: map<nat, Owner>, i: nat)
    requires Agree(sb, blocks, inode, owner, i, NINDIRECT) && i < |inode| && inode[i].addrs[NDIRECT] != 0
    ensures var a := inode[i].addrs[NDIRECT];
            && a in owner && a < sb.size && Bit(sb, blocks, a)
            && Agree(sb, Unmarked(sb, blocks, a), inode[i := WithAddr(inode[i], NDIRECT, 0)], owner - {a}, 0, 0)
  {
    hide Bit;
    hide Word;
    var a := inode[i].addrs[NDIRECT];
    IndirectOwned(sb, blocks, inode, owner, i, NINDIRECT, i);
    UnmarkedFrame(sb, blocks, inode, owner, i, NINDIRECT, a);
    var blocks', inode', owner' := Unmarked(sb, blocks, a), inode[i := WithAddr(inode[i], NDIRECT, 0)], owner - {a};
    SlotsKept(blocks, blocks', inode);
    assert forall j, l :: 0 <= j < |inode| && 0 <= l < SLOTS && (j != i || l < NDIRECT) ==>
             Slot(blocks', inode'[j], l) == Slot(blocks, inode[j], l);
    forall j, l | 0 <= j < |inode| && 0 <= l < SLOTS
      ensures OwnedBy(owner', Slot(blocks', inode'[j], l), j, l)
    {
      assert OwnedBy(owner, Slot(blocks, inode[j], l), j, l) || (j == i && l > NDIRECT);
    }
    forall c | c in owner'
      ensures owner'[c].inum < |inode'| && owner'[c].slot < SLOTS
              && Slot(blocks', inode'[owner'[c].inum], owner'[c].slot) == c
    {
      assert Slot(blocks, inode[owner[c].inum], owner[c].slot) == c;
    }
  }

  // ----------------------------------------------------------------- iupdate

  function InodeStored(sb: Super, blocks: seq<Block>, i: nat, n: Inode): (r: seq<Block>)
    requires sb.Valid() && i < sb.ninodes && sb.size <= |blocks|
    ensures |r| == |blocks|
  {
    BlockNumbers(sb, i);
    blocks[sb.InodeBlock(i) := PutInode(blocks[sb.InodeBlock(i)], i % IPB, n)]
  }

  /** iupdate changes one inode on disk, no ownership and no file data. */
  lemma StoreInode(sb: Super, blocks: seq<Block>, inode: seq<Inode>, owner: map<nat, Owner>, i: nat, n: Inode)
    requires Agree(sb, blocks, inode, owner, 0, 0) && i < |inode|
    ensures var blocks' := InodeStored(sb, blocks, i, n);
            && Agree(sb, blocks', inode, owner, 0, 0)
            && (forall j :: 0 <= j < |inode| ==>
                  DiskInode(sb, blocks', j) == if j == i then n else DiskInode(sb, blocks, j))
            && (forall j, k :: 0 <= j < |inode| && 0 <= k < SLOTS ==>
                  Slot(blocks', inode[j], k) == Slot(blocks, inode[j], k))
            && (forall b :: sb.datastart <= b < |blocks| ==> blocks'[b] == blocks[b])
  {
    hide BitOf;
    hide Slot;
    hide InodeIn;
    hide PutInode;
    var blocks' := InodeStored(sb, blocks, i, n);
    BlockNumbers(sb, i);
    OthersChange(sb, blocks, blocks', inode, owner, 0, 0);
    forall c | 0 <= c < sb.size
      ensures Bit(sb, blocks', c) <==> Bit(sb, blocks, c)
    {
      BlockNumbers(sb, c);
    }
    forall j | 0 <= j < |inode|
      ensures DiskInode(sb, blocks', j) == if j == i then n else DiskInode(sb, blocks, j)
    {
      BlockNumbers(sb, j);
      if j / IPB == i / IPB {
        InodeRoundTrip(blocks[sb.InodeBlock(i)], i % IPB, n, j % IPB);
        assert j % IPB == i % IPB ==> j == i;
      }
    }
    KeepOwners(sb, blocks, blocks', inode, owner, 0, 0);
  }
}
