/** The bytes of a file (fs.c): what readi and writei see through the direct
    and indirect block map. */
module FsContents {
  import opened Blocks
  import opened FsLayout
  import opened FsOwnership

  const MAXBYTES: nat := MAXFILE * BSIZE

  /** bmap's slot for the nth block of a file. */
  function FileSlot(bn: nat): nat { if bn < NDIRECT then bn else bn + 1 }

  function Addr(blocks: seq<Block>, n: Inode, bn: nat): nat
    requires bn < MAXFILE
  {
    Slot(blocks, n, FileSlot(bn))
  }

  /** The first len bytes have blocks: no holes. */
  ghost predicate Filled(blocks: seq<Block>, n: Inode, len: nat) {
    && len <= MAXBYTES
    && forall bn :: 0 <= bn < MAXFILE && bn * BSIZE < len ==> Addr(blocks, n, bn) != 0
  }

  function ByteAt(blocks: seq<Block>, n: Inode, off: nat): byte
    requires off < MAXBYTES
  {
    var a := Addr(blocks, n, off / BSIZE);
    if a < |blocks| then blocks[a][off % BSIZE] else 0
  }

  function Bytes(blocks: seq<Block>, n: Inode, len: nat): (s: seq<byte>)
    requires len <= MAXBYTES
    ensures |s| == len && forall off :: 0 <= off < len ==> s[off] == ByteAt(blocks, n, off)
  {
    if len == 0 then [] else Bytes(blocks, n, len - 1) + [ByteAt(blocks, n, len - 1)]
  }

  /** What writing d at off makes of a byte string: a plain file. */
  function Overwrite(s: seq<byte>, off: nat, d: seq<byte>): seq<byte>
    requires off <= |s|
  {
    s[..off] + d + if off + |d| < |s| then s[off + |d|..] else []
  }

  function Patch(b: Block, at: nat, d: seq<byte>): (r: Block)
    requires at + |d| <= BSIZE
  {
    b[..at] + d + b[at + |d|..]
  }

  /** A file's filled bytes stay as they are while their blocks are named by
      the same slots and hold the same data. */
  lemma BytesKept(blocks: seq<Block>, blocks': seq<Block>, n: Inode, n': Inode, len: nat)
    requires |blocks'| == |blocks| && len <= MAXBYTES
    requires forall bn :: 0 <= bn < MAXFILE && bn * BSIZE < len ==>
                            Addr(blocks', n', bn) == Addr(blocks, n, bn)
                              && SameBlock(blocks, blocks', Addr(blocks, n, bn))
    ensures Bytes(blocks', n', len) == Bytes(blocks, n, len)
  {
    hide Bytes;
    forall off | 0 <= off < len
      ensures ByteAt(blocks', n', off) == ByteAt(blocks, n, off)
    {
      var bn := off / BSIZE;
      assert bn * BSIZE <= off;
      assert SameBlock(blocks, blocks', Addr(blocks, n, bn));
    }
  }

  lemma OneBlockPerSlot(sb: Super, blocks: seq<Block>, inode: seq<Inode>, owner: map<nat, Owner>, i: nat, bn: nat,
                        j: nat, bm: nat)
    requires Agree(sb, blocks, inode, owner, 0, 0) && i < |inode| && j < |inode| && bn < MAXFILE && bm < MAXFILE
    requires Addr(blocks, inode[i], bn) != 0 && (i != j || bn != bm)
    ensures Addr(blocks, inode[i], bn) != Addr(blocks, inode[j], bm)
  {
    hide Slot;
    assert OwnedBy(owner, Slot(blocks, inode[i], FileSlot(bn)), i, FileSlot(bn));
    assert OwnedBy(owner, Slot(blocks, inode[j], FileSlot(bm)), j, FileSlot(bm));
  }

  /** Storing d at byte `at` of block bn writes those bytes of the file. */
  lemma PatchByte(sb: Super, blocks: seq<Block>, inode: seq<Inode>, owner: map<nat, Owner>, i: nat, bn: nat, at: nat,
                  d: seq<byte>, off: nat)
    requires Agree(sb, blocks, inode, owner, 0, 0) && i < |inode| && bn < MAXFILE && at + |d| <= BSIZE
    requires Addr(blocks, inode[i], bn) != 0 && off < MAXBYTES
    ensures var a := Addr(blocks, inode[i], bn);
            && a in owner && a < |blocks| && owner[a].slot != NDIRECT
            && ByteAt(blocks[a := Patch(blocks[a], at, d)], inode[i], off) ==
               if bn * BSIZE + at <= off < bn * BSIZE + at + |d| then d[off - (bn * BSIZE + at)]
                  else ByteAt(blocks, inode[i], off)
  {
    hide Slot;
    var a := Addr(blocks, inode[i], bn);
    assert OwnedBy(owner, Slot(blocks, inode[i], FileSlot(bn)), i, FileSlot(bn));
    WriteData(sb, blocks, inode, owner, a, Patch(blocks[a], at, d));
    var bm := off / BSIZE;
    assert off == bm * BSIZE + off % BSIZE;
    if bm != bn { OneBlockPerSlot(sb, blocks, inode, owner, i, bn, i, bm); }
  }

  lemma WriteBytes(sb: Super, blocks: seq<Block>, inode: seq<Inode>, owner: map<nat, Owner>, i: nat, bn: nat, at: nat,
                   d: seq<byte>, len: nat)
    requires Agree(sb, blocks, inode, owner, 0, 0) && i < |inode| && bn < MAXFILE && at + |d| <= BSIZE
    requires Addr(blocks, inode[i], bn) != 0 && bn * BSIZE + at <= len <= MAXBYTES
    ensures var a := Addr(blocks, inode[i], bn);
            var base := bn * BSIZE + at;
            var len' := if len < base + |d| then base + |d| else len;
            && a in owner && a < |blocks| && owner[a].slot != NDIRECT && len' <= MAXBYTES
            && Bytes(blocks[a := Patch(blocks[a], at, d)], inode[i], len') ==
                 Overwrite(Bytes(blocks, inode[i], len), base, d)
  {
    hide Slot;
    hide Bytes;
    hide ByteAt;
    hide Patch;
    hide Agree;
    var a := Addr(blocks, inode[i], bn);
    var base := bn * BSIZE + at;
    PatchByte(sb, blocks, inode, owner, i, bn, at, d, 0);
    var blocks' := blocks[a := Patch(blocks[a], at, d)];
    var len' := if len < base + |d| then base + |d| else len;
    assert (bn + 1) * BSIZE <= MAXBYTES;
    var s, t := Bytes(blocks, inode[i], len), Bytes(blocks', inode[i], len');
    forall off | 0 <= off < len'
      ensures t[off] == Overwrite(s, base, d)[off]
    {
      PatchByte(sb, blocks, inode, owner, i, bn, at, d, off);
    }
  }

  // ------------------------------------------------------------------ growth

  /** bmap only fills empty slots of inode i: every block keeps its owner, every
      data block its data, every inode on disk its bytes. */
  ghost predicate Grown(sb: Super, blocks: seq<Block>, inode: seq<Inode>, owner: map<nat, Owner>,
                        blocks': seq<Block>, inode': seq<Inode>, owner': map<nat, Owner>, i: nat)
    requires sb.Valid() && sb.size <= |blocks| && |inode| == sb.ninodes
  {
    && |blocks'| == |blocks| && |inode'| == |inode| && i < |inode|
    && (forall j :: 0 <= j < |inode| && j != i ==> inode'[j] == inode[j])
    && inode'[i] == inode[i].(addrs := inode'[i].addrs)
    && (forall j, l :: 0 <= j < |inode| && 0 <= l < SLOTS && Slot(blocks, inode[j], l) != 0 ==>
                         Slot(blocks', inode'[j], l) == Slot(blocks, inode[j], l))
    && (forall x :: x in owner ==> x in owner' && owner'[x] == owner[x])
    && (forall x :: x in owner && owner[x].slot != NDIRECT ==> SameBlock(blocks, blocks', x))
    && (forall j :: 0 <= j < |inode| ==> DiskInode(sb, blocks', j) == DiskInode(sb, blocks, j))
  }

  lemma GrownTrans(sb: Super, blocks: seq<Block>, inode: seq<Inode>, owner: map<nat, Owner>,
                   blocks1: seq<Block>, inode1: seq<Inode>, owner1: map<nat, Owner>,
                   blocks2: seq<Block>, inode2: seq<Inode>, owner2: map<nat, Owner>, i: nat)
    requires sb.Valid() && sb.size <= |blocks| && |inode| == sb.ninodes
    requires Grown(sb, blocks, inode, owner, blocks1, inode1, owner1, i)
    requires Grown(sb, blocks1, inode1, owner1, blocks2, inode2, owner2, i)
    ensures Grown(sb, blocks, inode, owner, blocks2, inode2, owner2, i)
  {
    hide Slot;
    hide DiskInode;
    forall x | x in owner && owner[x].slot != NDIRECT
      ensures SameBlock(blocks, blocks2, x)
    {
      assert SameBlock(blocks, blocks1, x) && SameBlock(blocks1, blocks2, x);
    }
  }

  /** What was filled before stays filled, with the same bytes. */
  lemma GrownFile(sb: Super, blocks: seq<Block>, inode: seq<Inode>, owner: map<nat, Owner>,
                  blocks': seq<Block>, inode': seq<Inode>, owner': map<nat, Owner>, i: nat, j: nat, len: nat)
    requires Agree(sb, blocks, inode, owner, 0, 0)
    requires Grown(sb, blocks, inode, owner, blocks', inode', owner', i)
    requires j < |inode| && Filled(blocks, inode[j], len)
    ensures Filled(blocks', inode'[j], len) && Bytes(blocks', inode'[j], len) == Bytes(blocks, inode[j], len)
  {
    hide Slot;
    hide DiskInode;
    hide Bytes;
    hide ByteAt;
    forall bn | 0 <= bn < MAXFILE && bn * BSIZE < len
      ensures Addr(blocks', inode'[j], bn) == Addr(blocks, inode[j], bn)
              && SameBlock(blocks, blocks', Addr(blocks, inode[j], bn))
    {
      var a := Addr(blocks, inode[j], bn);
      assert a != 0;
      assert OwnedBy(owner, Slot(blocks, inode[j], FileSlot(bn)), j, FileSlot(bn));
    }
    BytesKept(blocks, blocks', inode[j], inode'[j], len);
  }

  lemma MarkedGrown(sb: Super, blocks: seq<Block>, inode: seq<Inode>, owner: map<nat, Owner>, b: nat)
    requires Agree(sb, blocks, inode, owner, 0, 0) && sb.datastart <= b < sb.size && b !in owner
    ensures !Bit(sb, blocks, b)
    ensures forall x :: x in owner ==> SameBlock(blocks, Marked(sb, blocks, b), x)
    ensures forall j :: 0 <= j < |inode| ==> DiskInode(sb, Marked(sb, blocks, b), j) == DiskInode(sb, blocks, j)
  {
    hide Bit;
    hide Slot;
    hide InodeIn;
    hide MarkedBlock;
    hide ZeroBlock;
    BlockNumbers(sb, b);
    forall j | 0 <= j < |inode|
      ensures DiskInode(sb, Marked(sb, blocks, b), j) == DiskInode(sb, blocks, j)
    {
      BlockNumbers(sb, j);
    }
  }

  lemma PointerGrown(sb: Super, blocks: seq<Block>, inode: seq<Inode>, owner: map<nat, Owner>, i: nat, k: nat, b: nat)
    requires Agree(sb, blocks, inode, owner, 0, 0) && i < |inode| && k <= NDIRECT && inode[i].addrs[k] == 0
    requires sb.datastart <= b < sb.size && b !in owner
    ensures !Bit(sb, blocks, b)
    ensures var inode', owner' := inode[i := WithAddr(inode[i], k, b)], owner[b := Owner(i, k)];
            && Agree(sb, Marked(sb, blocks, b), inode', owner', 0, 0)
            && Grown(sb, blocks, inode, owner, Marked(sb, blocks, b), inode', owner', i)
            && (forall l :: 0 <= l < SLOTS && l != k ==>
                  Slot(Marked(sb, blocks, b), inode'[i], l) == Slot(blocks, inode[i], l))
  {
    MarkedGrown(sb, blocks, inode, owner, b);
    AllocPointer(sb, blocks, inode, owner, i, k, b);
    assert Slot(blocks, inode[i], k) == 0;
    hide Bit;
    hide Slot;
    hide DiskInode;
    hide Agree;
    hide Marked;
  }

  lemma EntryGrown(sb: Super, blocks: seq<Block>, inode: seq<Inode>, owner: map<nat, Owner>, i: nat, e: nat, b: nat)
    requires Agree(sb, blocks, inode, owner, 0, 0) && i < |inode| && e < NINDIRECT && inode[i].addrs[NDIRECT] != 0
    requires Slot(blocks, inode[i], NDIRECT + 1 + e) == 0
    requires sb.datastart <= b < sb.size && b !in owner
    ensures !Bit(sb, blocks, b)
    ensures var a, mid, owner' := inode[i].addrs[NDIRECT], Marked(sb, blocks, b), owner[b := Owner(i, NDIRECT + 1 + e)];
            && a < |mid| && a < |blocks| && mid[a] == blocks[a]
            && var blocks' := mid[a := SetWord(mid[a], e, b)];
               && Agree(sb, blocks', inode, owner', 0, 0)
               && Grown(sb, blocks, inode, owner, blocks', inode, owner', i)
               && Slot(blocks', inode[i], NDIRECT + 1 + e) == b
               && (forall l :: 0 <= l < SLOTS && l != NDIRECT + 1 + e ==>
                     Slot(blocks', inode[i], l) == Slot(blocks, inode[i], l))
  {
    hide Bit;
    hide Slot;
    hide DiskInode;
    hide SetWord;
    MarkedGrown(sb, blocks, inode, owner, b);
    AllocEntry(sb, blocks, inode, owner, i, e, b);
    IndirectOwned(sb, blocks, inode, owner, 0, 0, i);
    var a, mid := inode[i].addrs[NDIRECT], Marked(sb, blocks, b);
    DataLeavesBits(sb, mid, a, SetWord(mid[a], e, b));
    var blocks' := mid[a := SetWord(mid[a], e, b)];
    forall x | x in owner && owner[x].slot != NDIRECT
      ensures SameBlock(blocks, blocks', x)
    {
      assert SameBlock(blocks, mid, x);
    }
  }
}
