/** One turn of writei's loop, and what itrunc leaves (fs.c), as facts about
    whole disks: the file written sees exactly the new bytes, and no other file
    sees anything. */
module FsWrite {
  import opened Blocks
  import opened FsLayout
  import opened FsOwnership
  import opened FsContents

  function Max(a: nat, b: nat): nat { if a < b then b else a }

  /** Every inode but i is as before, and so are its bytes. */
  ghost predicate OthersKept(blocks: seq<Block>, inode: seq<Inode>, blocks0: seq<Block>, inode0: seq<Inode>, i: nat) {
    && |inode| == |inode0|
    && forall j :: 0 <= j < |inode| && j != i ==>
                     && inode[j] == inode0[j] && inode0[j].size <= MAXBYTES
                     && Filled(blocks, inode[j], inode[j].size)
                     && Bytes(blocks, inode[j], inode[j].size) == Bytes(blocks0, inode0[j], inode0[j].size)
  }

  /** writei has stored `done` at off in file i and not yet updated its size. */
  ghost predicate Writing(sb: Super, blocks: seq<Block>, inode: seq<Inode>, owner: map<nat, Owner>,
                          blocks0: seq<Block>, inode0: seq<Inode>, i: nat, off: nat, done: seq<byte>)
  {
    && Agree(sb, blocks, inode, owner, 0, 0) && i < |inode| == |inode0|
    && OthersKept(blocks, inode, blocks0, inode0, i)
    && inode[i] == inode0[i].(addrs := inode[i].addrs)
    && off <= inode0[i].size <= MAXBYTES
    && (forall j :: 0 <= j < |inode| ==> DiskInode(sb, blocks, j) == inode0[j])
    && Filled(blocks, inode[i], Max(inode0[i].size, off + |done|))
    && Bytes(blocks, inode[i], Max(inode0[i].size, off + |done|)) ==
         Overwrite(Bytes(blocks0, inode0[i], inode0[i].size), off, done)
  }

  lemma OverwriteThen(s: seq<byte>, off: nat, x: seq<byte>, d: seq<byte>)
    requires off <= |s|
    ensures |Overwrite(s, off, x)| == Max(|s|, off + |x|)
    ensures Overwrite(Overwrite(s, off, x), off + |x|, d) == Overwrite(s, off, x + d)
  {
    var t := Overwrite(s, off, x);
    assert t[..off + |x|] == s[..off] + x;
    if off + |x| + |d| < |s| {
      assert t[off + |x| + |d|..] == s[off + |x| + |d|..];
    }
  }

  /** bmap's growth is invisible in every file. */
  lemma GrowWriting(sb: Super, blocks: seq<Block>, inode: seq<Inode>, owner: map<nat, Owner>,
                    blocks': seq<Block>, inode': seq<Inode>, owner': map<nat, Owner>,
                    blocks0: seq<Block>, inode0: seq<Inode>, i: nat, off: nat, done: seq<byte>)
    requires Writing(sb, blocks, inode, owner, blocks0, inode0, i, off, done)
    requires Grown(sb, blocks, inode, owner, blocks', inode', owner', i) && Agree(sb, blocks', inode', owner', 0, 0)
    ensures Writing(sb, blocks', inode', owner', blocks0, inode0, i, off, done)
  {
    hide Agree;
    hide Filled;
    hide Bytes;
    hide DiskInode;
    hide Slot;
    forall j | 0 <= j < |inode| && j != i
      ensures inode'[j] == inode0[j] && Filled(blocks', inode'[j], inode'[j].size)
      ensures inode0[j].size <= MAXBYTES
              && Bytes(blocks', inode'[j], inode'[j].size) == Bytes(blocks0, inode0[j], inode0[j].size)
    {
      GrownFile(sb, blocks, inode, owner, blocks', inode', owner', i, j, inode[j].size);
    }
    GrownFile(sb, blocks, inode, owner, blocks', inode', owner', i, i, Max(inode0[i].size, off + |done|));
  }

  /** A data block of file i is written: file j does not see it. */
  lemma OtherFileKept(sb: Super, blocks: seq<Block>, inode: seq<Inode>, owner: map<nat, Owner>, i: nat, bn: nat,
                      data: Block, j: nat, len: nat)
    requires Agree(sb, blocks, inode, owner, 0, 0) && i < |inode| && j < |inode| && bn < MAXFILE && i != j
    requires Addr(blocks, inode[i], bn) != 0 && Filled(blocks, inode[j], len)
    ensures var a := Addr(blocks, inode[i], bn);
            && a < |blocks|
            && Filled(blocks[a := data], inode[j], len)
               && Bytes(blocks[a := data], inode[j], len) == Bytes(blocks, inode[j], len)
  {
    hide Slot;
    hide Bytes;
    PatchByte(sb, blocks, inode, owner, i, bn, 0, [], 0);
    var a := Addr(blocks, inode[i], bn);
    WriteData(sb, blocks, inode, owner, a, data);
    forall bm | 0 <= bm < MAXFILE
      ensures Addr(blocks[a := data], inode[j], bm) == Addr(blocks, inode[j], bm)
              && SameBlock(blocks, blocks[a := data], Addr(blocks, inode[j], bm))
    {
      OneBlockPerSlot(sb, blocks, inode, owner, i, bn, j, bm);
    }
    BytesKept(blocks, blocks[a := data], inode[j], inode[j], len);
  }

  /** Writing a data block leaves the block map of its file as it is. */
  lemma PatchAddrs(sb: Super, blocks: seq<Block>, inode: seq<Inode>, owner: map<nat, Owner>, i: nat, bn: nat,
                   data: Block)
    requires Agree(sb, blocks, inode, owner, 0, 0) && i < |inode| && bn < MAXFILE && Addr(blocks, inode[i], bn) != 0
    ensures var a := Addr(blocks, inode[i], bn);
            a < |blocks| && forall m :: 0 <= m < MAXFILE ==>
              Addr(blocks[a := data], inode[i], m) == Addr(blocks, inode[i], m)
  {
    hide Slot;
    PatchByte(sb, blocks, inode, owner, i, bn, 0, [], 0);
    WriteData(sb, blocks, inode, owner, Addr(blocks, inode[i], bn), data);
  }

  /** The file being written stays filled, up to the end of the new bytes. */
  lemma FilledAfter(sb: Super, blocks: seq<Block>, inode: seq<Inode>, owner: map<nat, Owner>, i: nat, bn: nat,
                    data: Block, len: nat, len': nat)
    requires Agree(sb, blocks, inode, owner, 0, 0) && i < |inode| && bn < MAXFILE
    requires Addr(blocks, inode[i], bn) != 0 && Filled(blocks, inode[i], len) && bn * BSIZE <= len
             && len' <= (bn + 1) * BSIZE
    ensures var a := Addr(blocks, inode[i], bn);
            && a < |blocks| && a in owner && owner[a].slot != NDIRECT && a >= sb.datastart
            && Filled(blocks[a := data], inode[i], Max(len, len'))
  {
    hide Slot;
    PatchByte(sb, blocks, inode, owner, i, bn, 0, [], 0);
    var a := Addr(blocks, inode[i], bn);
    WriteData(sb, blocks, inode, owner, a, data);
    assert (bn + 1) * BSIZE <= MAXBYTES;
    forall bm | 0 <= bm < MAXFILE && bm * BSIZE < Max(len, len')
      ensures Addr(blocks[a := data], inode[i], bm) != 0
    {
      assert Addr(blocks[a := data], inode[i], bm) == Addr(blocks, inode[i], bm);
      if bm * BSIZE >= len { assert bm * BSIZE < (bn + 1) * BSIZE; assert bm == bn; }
    }
  }

  lemma StepWriting(sb: Super, blocks: seq<Block>, inode: seq<Inode>, owner: map<nat, Owner>,
                    blocks0: seq<Block>, inode0: seq<Inode>, i: nat, off: nat, done: seq<byte>,
                    bn: nat, at: nat, d: seq<byte>)
    requires Writing(sb, blocks, inode, owner, blocks0, inode0, i, off, done)
    requires bn < MAXFILE && bn * BSIZE + at == off + |done| && at < BSIZE && at + |d| <= BSIZE
    requires Addr(blocks, inode[i], bn) != 0
    ensures var a := Addr(blocks, inode[i], bn);
            && a < |blocks|
            && Writing(sb, blocks[a := Patch(blocks[a], at, d)], inode, owner, blocks0, inode0, i, off, done + d)
  {
    hide Agree;
    hide Filled;
    hide Bytes;
    hide DiskInode;
    hide Slot;
    hide Patch;
    hide Overwrite;
    var a := Addr(blocks, inode[i], bn);
    var len := Max(inode0[i].size, off + |done|);
    var s := Bytes(blocks0, inode0[i], inode0[i].size);
    WriteBytes(sb, blocks, inode, owner, i, bn, at, d, len);
    var data := Patch(blocks[a], at, d);
    var blocks' := blocks[a := data];
    FilledAfter(sb, blocks, inode, owner, i, bn, data, len, bn * BSIZE + at + |d|);
    OverwriteThen(s, off, done, d);
    ShapeFacts(sb, blocks, inode, owner);
    DataLeavesBits(sb, blocks, a, data);
    WriteData(sb, blocks, inode, owner, a, data);
    forall j | 0 <= j < |inode| && j != i
      ensures Filled(blocks', inode[j], inode[j].size)
      ensures inode0[j].size <= MAXBYTES
              && Bytes(blocks', inode[j], inode[j].size) == Bytes(blocks0, inode0[j], inode0[j].size)
    {
      OtherFileKept(sb, blocks, inode, owner, i, bn, data, j, inode[j].size);
    }
  }

  lemma ShapeFacts(sb: Super, blocks: seq<Block>, inode: seq<Inode>, owner: map<nat, Owner>)
    requires Agree(sb, blocks, inode, owner, 0, 0)
    ensures Shapes(sb, blocks, inode)
    ensures forall b :: b in owner ==> sb.datastart <= b < sb.size
  {
  }

  /** The whole disk after a complete operation on file i. */
  ghost predicate Settled(sb: Super, blocks: seq<Block>, inode: seq<Inode>, owner: map<nat, Owner>,
                          blocks0: seq<Block>, inode0: seq<Inode>, i: nat, bytes: seq<byte>)
  {
    && Agree(sb, blocks, inode, owner, 0, 0) && i < |inode| == |inode0|
    && OthersKept(blocks, inode, blocks0, inode0, i)
    && (forall j :: 0 <= j < |inode| ==> DiskInode(sb, blocks, j) == inode[j])
    && inode[i] == inode0[i].(size := inode[i].size, addrs := inode[i].addrs)
    && inode[i].size == |bytes| && Filled(blocks, inode[i], |bytes|) && Bytes(blocks, inode[i], |bytes|) == bytes
  }

  /** writei that stays within the file needs no iupdate. */
  lemma FinishInside(sb: Super, blocks: seq<Block>, inode: seq<Inode>, owner: map<nat, Owner>,
                     blocks0: seq<Block>, inode0: seq<Inode>, i: nat, off: nat, src: seq<byte>)
    requires Writing(sb, blocks, inode, owner, blocks0, inode0, i, off, src)
    requires inode[i] == inode0[i] && off + |src| <= inode0[i].size
    ensures Settled(sb, blocks, inode, owner, blocks0, inode0, i,
                    Overwrite(Bytes(blocks0, inode0[i], inode0[i].size), off, src))
  {
    hide Agree;
    hide DiskInode;
    hide Bytes;
    hide Addr;
  }

  /** File sizes do not bear on ownership. */
  lemma Resized(sb: Super, blocks: seq<Block>, inode: seq<Inode>, owner: map<nat, Owner>, i: nat, size: uint32)
    requires Agree(sb, blocks, inode, owner, 0, 0) && i < |inode|
    ensures Agree(sb, blocks, inode[i := inode[i].(size := size)], owner, 0, 0)
  {
    hide Bit;
    hide Word;
    var inode' := inode[i := inode[i].(size := size)];
    assert forall j, l :: 0 <= j < |inode| && 0 <= l < SLOTS ==>
             Slot(blocks, inode'[j], l) == Slot(blocks, inode[j], l);
    forall j, l | 0 <= j < |inode'| && 0 <= l < SLOTS
      ensures OwnedBy(owner, Slot(blocks, inode'[j], l), j, l)
    {
      assert OwnedBy(owner, Slot(blocks, inode[j], l), j, l);
    }
  }

  lemma AddrsDecide(blocks: seq<Block>, n: Inode, n': Inode, len: nat)
    requires n'.addrs == n.addrs && len <= MAXBYTES
    ensures Filled(blocks, n, len) ==> Filled(blocks, n', len)
    ensures Bytes(blocks, n', len) == Bytes(blocks, n, len)
  {
    hide Bytes;
    assert forall bn :: 0 <= bn < MAXFILE ==> Addr(blocks, n', bn) == Addr(blocks, n, bn);
    BytesKept(blocks, blocks, n, n', len);
  }

  /** Storing an inode shows in no file's bytes. */
  lemma StoredFile(sb: Super, blocks: seq<Block>, inode: seq<Inode>, owner: map<nat, Owner>, i: nat, j: nat, len: nat)
    requires Agree(sb, blocks, inode, owner, 0, 0) && i < |inode| && j < |inode| && Filled(blocks, inode[j], len)
    ensures var blocks' := InodeStored(sb, blocks, i, inode[i]);
            Filled(blocks', inode[j], len) && Bytes(blocks', inode[j], len) == Bytes(blocks, inode[j], len)
  {
    hide Slot;
    hide Bytes;
    hide InodeStored;
    hide DiskInode;
    hide Bit;
    StoreInode(sb, blocks, inode, owner, i, inode[i]);
    var blocks' := InodeStored(sb, blocks, i, inode[i]);
    forall bn | 0 <= bn < MAXFILE && bn * BSIZE < len
      ensures Addr(blocks', inode[j], bn) == Addr(blocks, inode[j], bn)
              && SameBlock(blocks, blocks', Addr(blocks, inode[j], bn))
    {
      assert Addr(blocks, inode[j], bn) != 0;
      assert OwnedBy(owner, Slot(blocks, inode[j], FileSlot(bn)), j, FileSlot(bn));
    }
    BytesKept(blocks, blocks', inode[j], inode[j], len);
  }

  /** writei that extends the file updates the size and stores the inode. */
  lemma FinishExtended(sb: Super, blocks: seq<Block>, inode: seq<Inode>, owner: map<nat, Owner>,
                       blocks0: seq<Block>, inode0: seq<Inode>, i: nat, off: nat, src: seq<byte>)
    requires Writing(sb, blocks, inode, owner, blocks0, inode0, i, off, src)
    requires off + |src| > inode0[i].size
    ensures off + |src| <= MAXBYTES
    ensures Shapes(sb, blocks, inode)
    ensures var inode' := inode[i := inode[i].(size := off + |src|)];
            Settled(sb, InodeStored(sb, blocks, i, inode'[i]), inode', owner, blocks0, inode0, i,
                    Overwrite(Bytes(blocks0, inode0[i], inode0[i].size), off, src))
  {
    hide Agree;
    hide DiskInode;
    hide Bytes;
    hide Addr;
    hide Filled;
    hide InodeStored;
    hide Overwrite;
    FilledFits(blocks, inode[i], Max(inode0[i].size, off + |src|));
    var n := inode[i].(size := off + |src|);
    var inode' := inode[i := n];
    Resized(sb, blocks, inode, owner, i, off + |src|);
    ShapeFacts(sb, blocks, inode, owner);
    ShapeFacts(sb, blocks, inode', owner);
    StoreInode(sb, blocks, inode', owner, i, n);
    var blocks' := InodeStored(sb, blocks, i, n);
    AddrsDecide(blocks, inode[i], n, off + |src|);
    StoredFile(sb, blocks, inode', owner, i, i, off + |src|);
    forall j | 0 <= j < |inode| && j != i
      ensures Filled(blocks', inode'[j], inode'[j].size)
      ensures inode0[j].size <= MAXBYTES
              && Bytes(blocks', inode'[j], inode'[j].size) == Bytes(blocks0, inode0[j], inode0[j].size)
    {
      StoredFile(sb, blocks, inode', owner, i, j, inode'[j].size);
    }
    OverwriteThen(Bytes(blocks0, inode0[i], inode0[i].size), off, src, []);
  }

  lemma FilledFits(blocks: seq<Block>, n: Inode, len: nat)
    requires Filled(blocks, n, len)
    ensures len <= MAXBYTES
  {
  }

  // --------------------------------------------------------------------- read

  /** Bytes of one block, as readi copies them. */
  lemma ReadSlice(sb: Super, blocks: seq<Block>, inode: seq<Inode>, owner: map<nat, Owner>, i: nat, len: nat, pos: nat,
                  m: nat)
    requires Agree(sb, blocks, inode, owner, 0, 0) && i < |inode| && Filled(blocks, inode[i], len)
    requires pos + m <= len && 0 < m && pos % BSIZE + m <= BSIZE
    ensures pos / BSIZE < MAXFILE
    ensures var a := Addr(blocks, inode[i], pos / BSIZE);
            && a != 0 && a < |blocks|
            && blocks[a][pos % BSIZE..pos % BSIZE + m] == Bytes(blocks, inode[i], len)[pos..pos + m]
  {
    hide Slot;
    hide Bytes;
    var bn := pos / BSIZE;
    assert bn * BSIZE <= pos;
    var a := Addr(blocks, inode[i], bn);
    assert OwnedBy(owner, Slot(blocks, inode[i], FileSlot(bn)), i, FileSlot(bn));
    var s, t := blocks[a][pos % BSIZE..pos % BSIZE + m], Bytes(blocks, inode[i], len)[pos..pos + m];
    forall x | 0 <= x < m
      ensures s[x] == t[x]
    {
      SameBlockOffset(pos, x);
    }
  }

  lemma SameBlockOffset(pos: nat, x: nat)
    requires pos % BSIZE + x < BSIZE
    ensures (pos + x) / BSIZE == pos / BSIZE && (pos + x) % BSIZE == pos % BSIZE + x
  {
    var q, r := pos / BSIZE, pos % BSIZE;
    assert pos + x == BSIZE * q + (r + x);
  }

  // ----------------------------------------------------------------- truncate

  /** itrunc changes bitmap blocks, and of the inodes only i. */
  ghost predicate Truncating(sb: Super, blocks: seq<Block>, inode: seq<Inode>, blocks0: seq<Block>, inode0: seq<Inode>,
                             i: nat) {
    && sb.Valid() && sb.size <= |blocks| && |blocks| == |blocks0|
    && |inode| == |inode0| == sb.ninodes && i < |inode|
    && inode[i] == inode0[i].(addrs := inode[i].addrs)
    && (forall j :: 0 <= j < |inode| && j != i ==> inode[j] == inode0[j])
    && (forall b :: sb.datastart <= b < |blocks| ==> blocks[b] == blocks0[b])
    && (forall j :: 0 <= j < |inode| ==> DiskInode(sb, blocks, j) == DiskInode(sb, blocks0, j))
  }

  lemma UnmarkTruncating(sb: Super, blocks: seq<Block>, inode: seq<Inode>, blocks0: seq<Block>, inode0: seq<Inode>,
                         i: nat, b: nat, n: Inode)
    requires Truncating(sb, blocks, inode, blocks0, inode0, i) && b < sb.size && Bit(sb, blocks, b)
    requires n == inode0[i].(addrs := n.addrs)
    ensures Truncating(sb, Unmarked(sb, blocks, b), inode[i := n], blocks0, inode0, i)
  {
    hide Bit;
    hide ClearedBlock;
    hide InodeIn;
    BlockNumbers(sb, b);
    forall j | 0 <= j < |inode|
      ensures DiskInode(sb, Unmarked(sb, blocks, b), j) == DiskInode(sb, blocks, j)
    {
      BlockNumbers(sb, j);
    }
  }

  /** Unchanged data blocks: another file keeps its slots, blocks and bytes. */
  lemma TruncatedOther(sb: Super, blocks: seq<Block>, inode: seq<Inode>, blocks0: seq<Block>, inode0: seq<Inode>,
                       owner0: map<nat, Owner>, i: nat, j: nat, len: nat)
    requires Agree(sb, blocks0, inode0, owner0, 0, 0) && Truncating(sb, blocks, inode, blocks0, inode0, i)
    requires j < |inode| && j != i && Filled(blocks0, inode0[j], len)
    ensures Filled(blocks, inode[j], len) && Bytes(blocks, inode[j], len) == Bytes(blocks0, inode0[j], len)
  {
    hide DiskInode;
    hide Bytes;
    hide Bit;
    hide Word;
    IndirectOwned(sb, blocks0, inode0, owner0, 0, 0, j);
    assert forall l :: 0 <= l < SLOTS ==> Slot(blocks, inode[j], l) == Slot(blocks0, inode0[j], l);
    forall bn | 0 <= bn < MAXFILE && bn * BSIZE < len
      ensures Addr(blocks, inode[j], bn) == Addr(blocks0, inode0[j], bn)
              && SameBlock(blocks0, blocks, Addr(blocks0, inode0[j], bn))
    {
      assert Addr(blocks0, inode0[j], bn) != 0;
      assert OwnedBy(owner0, Slot(blocks0, inode0[j], FileSlot(bn)), j, FileSlot(bn));
    }
    BytesKept(blocks0, blocks, inode0[j], inode[j], len);
  }

  /** Once all pointers of inode i are erased, exactly its blocks are free. */
  lemma TruncatedOwners(sb: Super, blocks: seq<Block>, inode: seq<Inode>, owner: map<nat, Owner>,
                        blocks0: seq<Block>, inode0: seq<Inode>, owner0: map<nat, Owner>, i: nat)
    requires Agree(sb, blocks0, inode0, owner0, 0, 0) && Agree(sb, blocks, inode, owner, 0, 0)
    requires Truncating(sb, blocks, inode, blocks0, inode0, i)
    requires forall k :: 0 <= k <= NDIRECT ==> inode[i].addrs[k] == 0
    ensures forall b :: b in owner <==> b in owner0 && owner0[b].inum != i
    ensures forall b :: b in owner ==> owner[b] == owner0[b]
  {
    hide DiskInode;
    hide Bit;
    hide Word;
    forall j, l | 0 <= j < |inode| && 0 <= l < SLOTS && j != i
      ensures Slot(blocks, inode[j], l) == Slot(blocks0, inode0[j], l)
    {
      IndirectOwned(sb, blocks0, inode0, owner0, 0, 0, j);
    }
    assert forall l :: 0 <= l < SLOTS ==> Slot(blocks, inode[i], l) == 0;
    forall b | b in owner
      ensures b in owner0 && owner0[b] == owner[b] && owner[b].inum != i
    {
      assert Slot(blocks, inode[owner[b].inum], owner[b].slot) == b;
      assert OwnedBy(owner0, Slot(blocks0, inode0[owner[b].inum], owner[b].slot), owner[b].inum, owner[b].slot);
    }
    forall b | b in owner0 && owner0[b].inum != i
      ensures b in owner
    {
      assert Slot(blocks0, inode0[owner0[b].inum], owner0[b].slot) == b;
      assert OwnedBy(owner, Slot(blocks, inode[owner0[b].inum], owner0[b].slot), owner0[b].inum, owner0[b].slot);
    }
  }

  /** itrunc's end: size 0 and iupdate settle an empty file. */
  lemma FinishTruncate(sb: Super, blocks: seq<Block>, inode: seq<Inode>, owner: map<nat, Owner>,
                       blocks0: seq<Block>, inode0: seq<Inode>, owner0: map<nat, Owner>, i: nat)
    requires Agree(sb, blocks0, inode0, owner0, 0, 0)
    requires forall j :: 0 <= j < |inode0| ==>
               Filled(blocks0, inode0[j], inode0[j].size) && DiskInode(sb, blocks0, j) == inode0[j]
    requires Agree(sb, blocks, inode, owner, 0, 0) && Truncating(sb, blocks, inode, blocks0, inode0, i)
    ensures var inode' := inode[i := inode[i].(size := 0)];
            && Agree(sb, blocks, inode', owner, 0, 0)
            && Settled(sb, InodeStored(sb, blocks, i, inode'[i]), inode', owner, blocks0, inode0, i, [])
  {
    hide Agree;
    hide DiskInode;
    hide Bytes;
    hide Addr;
    hide Filled;
    hide InodeStored;
    var n := inode[i].(size := 0);
    var inode' := inode[i := n];
    Resized(sb, blocks, inode, owner, i, 0);
    StoreInode(sb, blocks, inode', owner, i, n);
    var blocks' := InodeStored(sb, blocks, i, n);
    EmptyFile(blocks', n);
    forall j | 0 <= j < |inode| && j != i
      ensures Filled(blocks', inode'[j], inode'[j].size)
      ensures inode0[j].size <= MAXBYTES
              && Bytes(blocks', inode'[j], inode'[j].size) == Bytes(blocks0, inode0[j], inode0[j].size)
    {
      FilledFits(blocks0, inode0[j], inode0[j].size);
      TruncatedOther(sb, blocks, inode, blocks0, inode0, owner0, i, j, inode0[j].size);
      StoredFile(sb, blocks, inode', owner, i, j, inode'[j].size);
    }
  }

  lemma EmptyFile(blocks: seq<Block>, n: Inode)
    ensures Filled(blocks, n, 0) && Bytes(blocks, n, 0) == []
  {
  }
}
