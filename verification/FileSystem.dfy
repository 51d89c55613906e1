/** The file layer of fs.c as code: the block allocator, the block map,
    truncation, and byte-range reads and writes.

    `blocks` is the logical disk the buffer cache and the log present: bread
    returns blocks[b], and log_write stores into it and adds b to `dirty`, the
    blocks this operation has logged. `inode` is what ilock shows of each inode. */
module FileSystem {
  import opened Options
  import opened Blocks
  import opened FsLayout
  import opened FsOwnership
  import opened FsContents
  import opened FsSpace
  import opened FsWrite

  lemma BlockIndex(q: nat, bi: nat)
    requires bi < BPB
    ensures (BPB * q + bi) / BPB == q && (BPB * q + bi) % BPB == bi && (BPB * q + bi) % 8 == bi % 8
  {
    BlockQuotient(q, bi);
    ByteRemainder(512 * q + bi / 8, bi % 8);
    assert BPB * q + bi == 8 * (512 * q + bi / 8) + bi % 8;
  }

  lemma BlockQuotient(q: nat, r: nat)
    requires r < 4096
    ensures (4096 * q + r) / 4096 == q && (4096 * q + r) % 4096 == r
  {
  }

  lemma ByteRemainder(x: nat, r: nat)
    requires r < 8
    ensures (8 * x + r) % 8 == r
  {
  }

  /** Bit bi of the bitmap block that balloc reads for block b. */
  lemma BitInBlock(sb: Super, blocks: seq<Block>, b: nat, bi: nat)
    requires sb.Valid() && b % BPB == 0 && bi < BPB && b + bi < sb.size <= |blocks|
    ensures sb.BitBlock(b) < |blocks|
    ensures Bit(sb, blocks, b + bi) == TestBit(blocks[sb.BitBlock(b)][bi / 8], bi % 8)
  {
    hide TestBit;
    var q := b / BPB;
    assert b == BPB * q;
    BlockIndex(q, bi);
    BlockIndex(q, 0);
    assert b + bi == BPB * q + bi && b == BPB * q + 0;
    BlockNumbers(sb, b + bi);
  }

  /** Between operations bitmap and reachability agree, no file has a hole, and
      every inode on disk is the one in memory. */
  ghost predicate Sound(sb: Super, blocks: seq<Block>, inode: seq<Inode>, owner: map<nat, Owner>) {
    && Agree(sb, blocks, inode, owner, 0, 0)
    && (forall i :: 0 <= i < |inode| ==> Filled(blocks, inode[i], inode[i].size))
    && (forall i :: 0 <= i < |inode| ==> DiskInode(sb, blocks, i) == inode[i])
  }

  /** log_write has been called for every block that has changed. */
  ghost predicate Logs(blocks0: seq<Block>, dirty0: set<nat>, blocks: seq<Block>, dirty: set<nat>) {
    && |blocks| == |blocks0| && dirty0 <= dirty
    && forall b :: 0 <= b < |blocks| && blocks[b] != blocks0[b] ==> b in dirty
  }

  lemma LogsStart(blocks: seq<Block>, dirty: set<nat>)
    ensures Logs(blocks, dirty, blocks, dirty)
  {
  }

  lemma LogsOne(blocks0: seq<Block>, dirty0: set<nat>, blocks: seq<Block>, dirty: set<nat>, b: nat, data: Block)
    requires Logs(blocks0, dirty0, blocks, dirty) && b < |blocks|
    ensures Logs(blocks0, dirty0, blocks[b := data], dirty + {b})
  {
  }

  lemma LogsTrans(blocks0: seq<Block>, dirty0: set<nat>, blocks1: seq<Block>, dirty1: set<nat>, blocks: seq<Block>,
                  dirty: set<nat>)
    requires Logs(blocks0, dirty0, blocks1, dirty1) && Logs(blocks1, dirty1, blocks, dirty)
    ensures Logs(blocks0, dirty0, blocks, dirty)
  {
  }

  /** As much of the rest as fits in the block that holds pos. */
  function Piece(pos: nat, rest: nat): (m: nat)
    requires rest > 0
    ensures 0 < m <= rest && pos % BSIZE + m <= BSIZE
  {
    if rest < BSIZE - pos % BSIZE then rest else BSIZE - pos % BSIZE
  }

  /** A 32-bit sum that wraps around is below its terms. */
  lemma WrapsBelow(off: uint32, n: uint32)
    ensures (off + n) % 0x1_0000_0000 < off <==> off + n >= 0x1_0000_0000
  {
  }

  lemma SliceMore(file: seq<byte>, a: nat, b: nat, c: nat)
    requires a <= b <= c <= |file|
    ensures file[a..b] + file[b..c] == file[a..c]
  {
  }

  class FileSystem {
    const sb: Super
    var blocks: seq<Block>
    var inode: seq<Inode>
    var dirty: set<nat>
    ghost var owner: map<nat, Owner>

    /** Bitmap and reachability agree. */
    ghost predicate Ok()
      reads this
    {
      Agree(sb, blocks, inode, owner, 0, 0)
    }

    ghost predicate Valid()
      reads this
    {
      Sound(sb, blocks, inode, owner)
    }

    constructor (super: Super, image: seq<Block>, nodes: seq<Inode>, ghost owners: map<nat, Owner>)
      requires Sound(super, image, nodes, owners)
      ensures Valid() && blocks == image && inode == nodes && sb == super && dirty == {}
    {
      sb := super;
      blocks := image;
      inode := nodes;
      owner := owners;
      dirty := {};
    }

    /** balloc's scan: the first block whose bit is clear. */
    method FindFree() returns (r: Option<nat>)
      requires sb.Valid() && sb.size <= |blocks|
      ensures r.Some? ==> r.value < sb.size && !Bit(sb, blocks, r.value) && forall c :: 0 <= c < r.value ==>
                Bit(sb, blocks, c)
      ensures r.None? ==> forall c :: 0 <= c < sb.size ==> Bit(sb, blocks, c)
    {
      hide Bit;
      hide TestBit;
      var b := 0;
      while b < sb.size
        invariant b % BPB == 0
        invariant forall c :: 0 <= c < b && c < sb.size ==> Bit(sb, blocks, c)
      {
        var bi := 0;
        while bi < BPB && b + bi < sb.size
          invariant bi <= BPB
          invariant forall c :: 0 <= c < b + bi && c < sb.size ==> Bit(sb, blocks, c)
        {
          BitInBlock(sb, blocks, b, bi);
          if !TestBit(blocks[sb.BitBlock(b)][bi / 8], bi % 8) { return Some(b + bi); }
          bi := bi + 1;
        }
        b := b + BPB;
      }
      return None;
    }

    /** balloc. None is the panic "out of blocks". */
    method Balloc() returns (r: Option<nat>)
      requires Ok()
      modifies this`blocks, this`dirty
      ensures r.Some? ==>
                var b := r.value;
                && sb.datastart <= b < sb.size && b !in owner
                && old(sb.Valid() && sb.size <= |blocks|) && !Bit(sb, old(blocks), b)
                   && blocks == Marked(sb, old(blocks), b)
                && (forall c :: sb.datastart <= c < b ==> c in owner)
                && dirty == old(dirty) + {sb.BitBlock(b), b}
      ensures Logs(old(blocks), old(dirty), blocks, dirty)
      ensures r.None? ==> DiskFull(sb, owner) && blocks == old(blocks) && dirty == old(dirty)
    {
      hide Bit;
      hide Slot;
      hide Logs;
      LogsStart(blocks, dirty);
      r := FindFree();
      if r.Some? {
        var b := r.value;
        BlockNumbers(sb, b);
        Clearing(sb, blocks, b);
        var m := sb.BitBlock(b);
        LogsOne(blocks, dirty, blocks, dirty, m, MarkedBlock(blocks[m], b));
        blocks := blocks[m := MarkedBlock(blocks[m], b)];
        dirty := dirty + {m};
        LogsOne(old(blocks), old(dirty), blocks, dirty, b, ZeroBlock());
        blocks := blocks[b := ZeroBlock()];
        dirty := dirty + {b};
      }
    }

    /** bfree. False is the panic "freeing free block". */
    method Bfree(b: nat) returns (ok: bool)
      requires sb.Valid() && sb.size <= |blocks| && b < sb.size
      modifies this`blocks, this`dirty
      ensures ok == Bit(sb, old(blocks), b)
      ensures ok ==> blocks == Unmarked(sb, old(blocks), b) && dirty == old(dirty) + {sb.BitBlock(b)}
      ensures !ok ==> blocks == old(blocks) && dirty == old(dirty)
      ensures Logs(old(blocks), old(dirty), blocks, dirty)
    {
      LogsStart(blocks, dirty);
      BlockNumbers(sb, b);
      var m := sb.BitBlock(b);
      if !BitOf(blocks[m], b) { return false; }
      LogsOne(blocks, dirty, blocks, dirty, m, ClearedBlock(blocks[m], b));
      blocks := blocks[m := ClearedBlock(blocks[m], b)];
      dirty := dirty + {m};
      return true;
    }

    /** bmap's `ip->addrs[k] = balloc(ip->dev)`. */
    method AllocatePointer(i: nat, k: nat) returns (ok: bool)
      requires Ok() && i < |inode| && k <= NDIRECT && inode[i].addrs[k] == 0
      modifies this
      ensures ok ==>
                && Ok() && |inode| == |old(inode)| && inode[i].addrs[k] != 0
                && Shapes(sb, old(blocks), old(inode))
                   && Grown(sb, old(blocks), old(inode), old(owner), blocks, inode, owner, i)
                && (forall l :: 0 <= l < SLOTS && l != k ==>
                      Slot(blocks, inode[i], l) == old(Slot(blocks, inode[i], l)))
                && dirty == old(dirty) + {sb.BitBlock(inode[i].addrs[k]), inode[i].addrs[k]}
      ensures Logs(old(blocks), old(dirty), blocks, dirty)
      ensures if ok then Left(sb, old(owner)) == Left(sb, owner) + 1 else owner == old(owner) && DiskFull(sb, owner)
    {
      hide Left;
      hide Bit;
      hide Logs;
      hide Slot;
      hide Grown;
      hide Marked;
      var r := Balloc();
      if r.None? { return false; }
      var b := r.value;
      PointerGrown(sb, old(blocks), inode, owner, i, k, b);
      OneTaken(sb, owner, b, Owner(i, k));
      inode := inode[i := inode[i].(addrs := inode[i].addrs[k := b])];
      owner := owner[b := Owner(i, k)];
      return true;
    }

    /** bmap's `a[bn] = balloc(ip->dev)` in the indirect block. */
    method AllocateEntry(i: nat, e: nat) returns (ok: bool)
      requires Ok() && i < |inode| && e < NINDIRECT && inode[i].addrs[NDIRECT] != 0
      requires Slot(blocks, inode[i], NDIRECT + 1 + e) == 0
      modifies this
      ensures ok ==>
                && Ok() && inode == old(inode)
                && var b := Slot(blocks, inode[i], NDIRECT + 1 + e);
                   && b != 0
                   && Shapes(sb, old(blocks), old(inode))
                      && Grown(sb, old(blocks), old(inode), old(owner), blocks, inode, owner, i)
                   && (forall l :: 0 <= l < SLOTS && l != NDIRECT + 1 + e ==>
                         Slot(blocks, inode[i], l) == old(Slot(blocks, inode[i], l)))
                   && dirty == old(dirty) + {sb.BitBlock(b), b, inode[i].addrs[NDIRECT]}
      ensures Logs(old(blocks), old(dirty), blocks, dirty)
      ensures if ok then Left(sb, old(owner)) == Left(sb, owner) + 1 else owner == old(owner) && DiskFull(sb, owner)
    {
      hide Left;
      hide Bit;
      hide Logs;
      hide Slot;
      hide Grown;
      hide Marked;
      hide SetWord;
      var r := Balloc();
      if r.None? { return false; }
      var b := r.value;
      EntryGrown(sb, old(blocks), inode, owner, i, e, b);
      OneTaken(sb, owner, b, Owner(i, NDIRECT + 1 + e));
      var a := inode[i].addrs[NDIRECT];
      LogsOne(old(blocks), old(dirty), blocks, dirty, a, SetWord(blocks[a], e, b));
      blocks := blocks[a := SetWord(blocks[a], e, b)];
      dirty := dirty + {a};
      owner := owner[b := Owner(i, NDIRECT + 1 + e)];
      return true;
    }

    /** bmap for a direct block. */
    method BmapDirect(i: nat, bn: nat) returns (r: Option<nat>, ghost bits: set<nat>)
      requires Ok() && i < |inode| && bn < NDIRECT
      modifies this
      ensures r.Some? ==> Mapped(old(blocks), old(inode), old(owner), old(dirty), i, bn, r.value, bits)
      ensures old(Addr(blocks, inode[i], bn)) != 0 ==>
                r.Some? && blocks == old(blocks) && inode == old(inode) && owner == old(owner) && dirty == old(dirty)
                  && bits == {}
      ensures if r.Some? then Charged(sb, old(blocks), old(inode)[i], old(owner), blocks, inode[i], owner, bn)
              else Left(sb, old(owner)) < Cost(old(blocks), old(inode)[i], bn) && DiskFull(sb, owner)
    {
      hide Slot;
      hide Grown;
      hide Agree;
      hide Logs;
      hide Left;
      hide DiskFull;
      bits := {};
      FullExactly(sb, owner);
      LogsStart(blocks, dirty);
      DirectAddr(blocks, inode[i], bn);
      GrownSelf(sb, blocks, inode, owner, i);
      if inode[i].addrs[bn] == 0 {
        var ok := AllocatePointer(i, bn);
        if !ok { return None, bits; }
        DirectAddr(blocks, inode[i], bn);
        PointerSlot(old(blocks), old(inode)[i], NDIRECT);
        PointerSlot(blocks, inode[i], NDIRECT);
        bits := {sb.BitBlock(inode[i].addrs[bn])};
        BitmapBlock(sb, blocks, inode, owner, i, bn);
      }
      return Some(inode[i].addrs[bn]), bits;
    }

    /** bmap's allocation of the indirect block, where it is missing. */
    method HaveIndirect(i: nat) returns (ok: bool, ghost bits: set<nat>)
      requires Ok() && i < |inode|
      modifies this
      ensures ok ==>
                && Ok() && |inode| == |old(inode)| && inode[i].addrs[NDIRECT] != 0
                && Shapes(sb, old(blocks), old(inode))
                && Grown(sb, old(blocks), old(inode), old(owner), blocks, inode, owner, i)
                && (forall l :: 0 <= l < SLOTS && l != NDIRECT ==>
                      Slot(blocks, inode[i], l) == old(Slot(blocks, inode[i], l)))
                && dirty <= old(dirty) + bits + Indirect(inode[i]) && BitmapBlocks(sb, bits)
                && |bits| == Missing(old(inode)[i].addrs[NDIRECT])
      ensures old(inode[i].addrs[NDIRECT]) != 0 ==>
                ok && blocks == old(blocks) && inode == old(inode) && owner == old(owner) && dirty == old(dirty)
                  && bits == {}
      ensures Logs(old(blocks), old(dirty), blocks, dirty)
      ensures if ok then Left(sb, old(owner)) == Left(sb, owner) + Missing(old(inode)[i].addrs[NDIRECT])
              else owner == old(owner) && DiskFull(sb, owner) && old(inode)[i].addrs[NDIRECT] == 0
    {
      hide Slot;
      hide Grown;
      hide Agree;
      hide Logs;
      hide Left;
      hide DiskFull;
      bits := {};
      LogsStart(blocks, dirty);
      GrownSelf(sb, blocks, inode, owner, i);
      if inode[i].addrs[NDIRECT] == 0 {
        ok := AllocatePointer(i, NDIRECT);
        if !ok { return false, bits; }
        bits := {sb.BitBlock(inode[i].addrs[NDIRECT])};
        PointerSlot(blocks, inode[i], NDIRECT);
        BitmapBlock(sb, blocks, inode, owner, i, NDIRECT);
      }
      return true, bits;
    }

    /** bmap's allocation of the block that entry e of the indirect block names, where it
        is missing. */
    method HaveEntry(i: nat, e: nat) returns (b: nat, ok: bool, ghost bits: set<nat>)
      requires Ok() && i < |inode| && e < NINDIRECT && inode[i].addrs[NDIRECT] != 0
      modifies this
      ensures ok ==>
                && Ok() && inode == old(inode) && b == Slot(blocks, inode[i], NDIRECT + 1 + e) != 0
                && Shapes(sb, old(blocks), old(inode))
                && Grown(sb, old(blocks), old(inode), old(owner), blocks, inode, owner, i)
                && (forall l :: 0 <= l < SLOTS && l != NDIRECT + 1 + e ==>
                      Slot(blocks, inode[i], l) == old(Slot(blocks, inode[i], l)))
                && dirty <= old(dirty) + bits + {b} + Indirect(inode[i]) && BitmapBlocks(sb, bits)
                && |bits| == Missing(old(Slot(blocks, inode[i], NDIRECT + 1 + e)))
      ensures old(Slot(blocks, inode[i], NDIRECT + 1 + e)) != 0 ==>
                ok && blocks == old(blocks) && inode == old(inode) && owner == old(owner) && dirty == old(dirty)
                  && bits == {}
      ensures Logs(old(blocks), old(dirty), blocks, dirty)
      ensures if ok then Left(sb, old(owner)) == Left(sb, owner) + |bits|
              else owner == old(owner) && DiskFull(sb, owner) && old(Slot(blocks, inode[i], NDIRECT + 1 + e)) == 0
    {
      hide Slot;
      hide Grown;
      hide Agree;
      hide Word;
      hide Logs;
      hide Left;
      hide DiskFull;
      bits := {};
      LogsStart(blocks, dirty);
      GrownSelf(sb, blocks, inode, owner, i);
      IndirectInRange(sb, blocks, inode, owner, i);
      IndirectAddr(blocks, inode[i], e);
      b := Word(blocks[inode[i].addrs[NDIRECT]], e);
      if b == 0 {
        ok := AllocateEntry(i, e);
        if !ok { return b, false, bits; }
        IndirectInRange(sb, blocks, inode, owner, i);
        IndirectAddr(blocks, inode[i], e);
        b := Word(blocks[inode[i].addrs[NDIRECT]], e);
        bits := {sb.BitBlock(b)};
        BitmapBlock(sb, blocks, inode, owner, i, NDIRECT + 1 + e);
      }
      return b, true, bits;
    }

    /** bmap for a block behind the indirect block. */
    method BmapIndirect(i: nat, e: nat) returns (r: Option<nat>, ghost bits: set<nat>)
      requires Ok() && i < |inode| && e < NINDIRECT
      modifies this
      ensures r.Some? ==> Mapped(old(blocks), old(inode), old(owner), old(dirty), i, NDIRECT + e, r.value, bits)
      ensures old(Addr(blocks, inode[i], NDIRECT + e)) != 0 ==>
                r.Some? && blocks == old(blocks) && inode == old(inode) && owner == old(owner) && dirty == old(dirty)
                  && bits == {}
      ensures if r.Some? then Charged(sb, old(blocks), old(inode)[i], old(owner), blocks, inode[i], owner, NDIRECT + e)
              else Left(sb, old(owner)) < Cost(old(blocks), old(inode)[i], NDIRECT + e) && DiskFull(sb, owner)
    {
      hide Slot;
      hide Grown;
      hide Agree;
      hide Word;
      hide Logs;
      hide Left;
      hide DiskFull;
      FullExactly(sb, owner);
      IndirectAddr(blocks, inode[i], e);
      var ok, b;
      ok, bits := HaveIndirect(i);
      if !ok { return None, bits; }
      IndirectAddr(blocks, inode[i], e);
      FullExactly(sb, owner);
      ghost var blocks1, inode1, owner1, dirty1 := blocks, inode, owner, dirty;
      ghost var more;
      b, ok, more := HaveEntry(i, e);
      if !ok { return None, bits; }
      IndirectAddr(blocks, inode[i], e);
      bits := bits + more;
      LogsTrans(old(blocks), old(dirty), blocks1, dirty1, blocks, dirty);
      GrownTrans(sb, old(blocks), old(inode), old(owner), blocks1, inode1, owner1, blocks, inode, owner, i);
      OtherAddrs(old(blocks), old(inode)[i], blocks, inode[i], NDIRECT + e);
      return Some(b), bits;
    }

    /** What bmap has done to the state when it returns b for block bn of inode
        i, having logged the bitmap blocks `bits`. */
    ghost predicate Mapped(blocks0: seq<Block>, inode0: seq<Inode>, owner0: map<nat, Owner>, dirty0: set<nat>,
                           i: nat, bn: nat, b: nat, bits: set<nat>)
      reads this
    {
      && Ok() && Shapes(sb, blocks0, inode0) && i < |inode0| == |inode| && bn < MAXFILE
      && Grown(sb, blocks0, inode0, owner0, blocks, inode, owner, i)
      && b == Addr(blocks, inode[i], bn) != 0 && Logs(blocks0, dirty0, blocks, dirty)
      && (forall m :: 0 <= m < MAXFILE && m != bn ==> Addr(blocks, inode[i], m) == Addr(blocks0, inode0[i], m))
      && dirty <= dirty0 + bits + {b} + Indirect(inode[i]) && Indirect(inode0[i]) <= Indirect(inode[i])
      && BitmapBlocks(sb, bits)
      && |bits| + Missing(inode[i].addrs[NDIRECT]) <= Missing(Addr(blocks0, inode0[i], bn))
         + Missing(inode0[i].addrs[NDIRECT])
    }

    /** bmap. None is a panic: the block is out of range, or the disk is full.
        The ghost result is the set of bitmap blocks it logged. */
    method Bmap(i: nat, bn: nat) returns (r: Option<nat>, ghost bits: set<nat>)
      requires Ok() && i < |inode|
      modifies this
      ensures r.Some? ==> Mapped(old(blocks), old(inode), old(owner), old(dirty), i, bn, r.value, bits)
      ensures bn < MAXFILE && old(Addr(blocks, inode[i], bn)) != 0 ==>
                r.Some? && blocks == old(blocks) && inode == old(inode) && owner == old(owner) && dirty == old(dirty)
                  && bits == {}
      ensures r.Some? ==>
                bn < MAXFILE && Charged(sb, old(blocks), old(inode)[i], old(owner), blocks, inode[i], owner, bn)
      ensures r.None? && bn < MAXFILE ==>
                Left(sb, old(owner)) < Cost(old(blocks), old(inode)[i], bn) && DiskFull(sb, owner)
    {
      hide Mapped;
      hide Ok;
      hide Charged;
      hide Left;
      hide Cost;
      hide DiskFull;
      bits := {};
      if bn < NDIRECT {
        r, bits := BmapDirect(i, bn);
      } else if bn - NDIRECT < NINDIRECT {
        r, bits := BmapIndirect(i, bn - NDIRECT);
      } else {
        r := None;
      }
    }

    /** The body of writei's loop: map the block at pos, store d into it, log it. */
    method WriteOne(i: nat, pos: nat, d: seq<byte>, ghost blocks0: seq<Block>, ghost inode0: seq<Inode>,
                    ghost off: nat, ghost done: seq<byte>)
      returns (ok: bool, ghost b: nat, ghost bits: set<nat>)
      requires Writing(sb, blocks, inode, owner, blocks0, inode0, i, off, done)
      requires pos == off + |done| && pos / BSIZE < MAXFILE && 0 < |d| && pos % BSIZE + |d| <= BSIZE
      requires inode[i] == inode0[i] || pos > inode0[i].size
      modifies this
      ensures ok ==>
                && Writing(sb, blocks, inode, owner, blocks0, inode0, i, off, done + d) && i < |inode|
                && (inode[i] == inode0[i] || pos + |d| > inode0[i].size)
                && dirty <= old(dirty) + bits + {b} + Indirect(inode[i])
                   && Indirect(old(inode[i])) <= Indirect(inode[i])
                && BitmapBlocks(sb, bits)
                && |bits| + Missing(inode[i].addrs[NDIRECT]) <= old(Missing(Addr(blocks, inode[i], pos / BSIZE)))
                   + old(Missing(inode[i].addrs[NDIRECT]))
      ensures ok ==> Logs(old(blocks), old(dirty), blocks, dirty)
      ensures ok ==> Charged(sb, old(blocks), old(inode)[i], old(owner), blocks, inode[i], owner, pos / BSIZE)
      ensures !ok ==> Left(sb, old(owner)) < Cost(old(blocks), old(inode)[i], pos / BSIZE) && DiskFull(sb, owner)
    {
      hide Agree;
      hide Grown;
      hide Slot;
      hide Filled;
      hide Patch;
      hide Logs;
      hide Charged;
      hide Left;
      hide Cost;
      hide DiskFull;
      var bn := pos / BSIZE;
      var r;
      r, bits := Bmap(i, bn);
      b := 0;
      if r.None? { return false, b, bits; }
      HoleIsAtEnd(sb, old(blocks), old(inode), old(owner), blocks0, inode0, i, off, done, bn);
      GrowWriting(sb, old(blocks), old(inode), old(owner), blocks, inode, owner, blocks0, inode0, i, off, done);
      StepWriting(sb, blocks, inode, owner, blocks0, inode0, i, off, done, bn, pos % BSIZE, d);
      b := r.value;
      PatchAddrs(sb, blocks, inode, owner, i, bn, Patch(blocks[r.value], pos % BSIZE, d));
      ChargedStays(sb, old(blocks), old(inode)[i], old(owner), blocks,
                   blocks[r.value := Patch(blocks[r.value], pos % BSIZE, d)], inode[i], owner, bn);
      LogsOne(old(blocks), old(dirty), blocks, dirty, r.value, Patch(blocks[r.value], pos % BSIZE, d));
      blocks := blocks[r.value := Patch(blocks[r.value], pos % BSIZE, d)];
      dirty := dirty + {r.value};
      return true, b, bits;
    }

    /** iupdate. */
    method Iupdate(i: nat)
      requires Ok() && i < |inode|
      modifies this`blocks, this`dirty
      ensures Ok() && old(Shapes(sb, blocks, inode)) && blocks == InodeStored(sb, old(blocks), i, inode[i])
      ensures dirty == old(dirty) + {sb.InodeBlock(i)} && Logs(old(blocks), old(dirty), blocks, dirty)
    {
      hide Slot;
      hide Bit;
      hide DiskInode;
      hide PutInode;
      hide Logs;
      LogsStart(blocks, dirty);
      StoreInode(sb, blocks, inode, owner, i, inode[i]);
      BlockNumbers(sb, i);
      var ib := sb.InodeBlock(i);
      LogsOne(blocks, dirty, blocks, dirty, ib, PutInode(blocks[ib], i % IPB, inode[i]));
      blocks := blocks[ib := PutInode(blocks[ib], i % IPB, inode[i])];
      dirty := dirty + {ib};
    }

    ghost function File(i: nat): seq<byte>
      requires i < |inode| && inode[i].size <= MAXBYTES
      reads this
    {
      Bytes(blocks, inode[i], inode[i].size)
    }

    lemma Start(i: nat, off: nat)
      requires Valid() && i < |inode| && off <= inode[i].size
      ensures Ok() && Writing(sb, blocks, inode, owner, blocks, inode, i, off, [])
    {
      StartWriting(sb, blocks, inode, owner, i, off);
    }

    /** writei's loop after tot bytes of src. */
    ghost predicate Underway(blocks0: seq<Block>, inode0: seq<Inode>, owner0: map<nat, Owner>, dirty0: set<nat>, i: nat,
                             off: nat, src: seq<byte>, tot: nat, t: Tally)
      reads this
    {
      && tot <= |src| && Writing(sb, blocks, inode, owner, blocks0, inode0, i, off, src[..tot])
      && i < |inode| && i < |inode0| && (inode[i] == inode0[i] || off + tot > inode0[i].size)
      && dirty <= dirty0 + t.data + t.bits + Indirect(inode[i]) && BitmapBlocks(sb, t.bits)
      && Logs(blocks0, dirty0, blocks, dirty)
      && Spent(sb, blocks0, inode0[i], owner0, blocks, inode[i], owner, off / BSIZE, At(off, tot, |src|),
               End(off, |src|))
      && Counted(t, off, tot, |src|, Missing(inode0[i].addrs[NDIRECT]), Missing(inode[i].addrs[NDIRECT]))
    }

    lemma SetOut(i: nat, src: seq<byte>, off: nat)
      requires Valid() && i < |inode| && off <= inode[i].size && off + |src| <= MAXBYTES
      ensures Underway(blocks, inode, owner, dirty, i, off, src, 0, Tally({}, {}, 0, 0))
    {
      hide Valid;
      hide Writing;
      hide Indirect;
      hide Counted;
      hide BitmapBlocks;
      hide Logs;
      hide Spent;
      hide At;
      hide End;
      Start(i, off);
      LogsStart(blocks, dirty);
      CountStart(sb, off, |src|, Missing(inode[i].addrs[NDIRECT]));
      AtStart(off, |src|);
      SpentStart(sb, blocks, inode[i], owner, off / BSIZE, End(off, |src|));
      assert src[..0] == [];
    }

    /** One turn of writei's loop. */
    method WriteTurn(i: nat, src: seq<byte>, off: nat, tot: nat, ghost blocks0: seq<Block>, ghost inode0: seq<Inode>,
                     ghost owner0: map<nat, Owner>, ghost dirty0: set<nat>, ghost t: Tally)
      returns (ok: bool, tot': nat, ghost t': Tally)
      requires Underway(blocks0, inode0, owner0, dirty0, i, off, src, tot, t) && tot < |src| && off + |src| <= MAXBYTES
      modifies this
      ensures ok ==> tot < tot' && Underway(blocks0, inode0, owner0, dirty0, i, off, src, tot', t')
      ensures !ok ==> Left(sb, owner0) < Need(blocks0, inode0[i], off / BSIZE, End(off, |src|)) && DiskFull(sb, owner)
    {
      hide Ok;
      hide Writing;
      hide Indirect;
      hide Counted;
      hide BitmapBlocks;
      hide Logs;
      hide Spent;
      hide Charged;
      hide Left;
      hide Need;
      hide Cost;
      hide At;
      hide End;
      hide DiskFull;
      t' := t;
      var pos := off + tot;
      var m := Piece(pos, |src| - tot);
      PosInRange(pos);
      FirstBlockMapped(sb, blocks, inode, owner, blocks0, inode0, i, off, src[..tot]);
      ghost var gap, was := Missing(Addr(blocks, inode[i], pos / BSIZE)), Missing(inode[i].addrs[NDIRECT]);
      ghost var b, nb;
      ghost var blocks1, dirty1, node1, owner1 := blocks, dirty, inode[i], owner;
      AtNext(off, tot, m, |src|);
      ok, b, nb := WriteOne(i, pos, src[tot..tot + m], blocks0, inode0, off, src[..tot]);
      if !ok {
        SpentShort(sb, blocks0, inode0[i], owner0, blocks1, node1, owner1, off / BSIZE, pos / BSIZE, End(off, |src|));
        return false, tot, t';
      }
      SpentNext(sb, blocks0, inode0[i], owner0, blocks1, node1, owner1, blocks, inode[i], owner, off / BSIZE,
                pos / BSIZE, End(off, |src|));
      LogsTrans(blocks0, dirty0, blocks1, dirty1, blocks, dirty);
      CountStep(sb, t, off, tot, m, |src|, Missing(inode0[i].addrs[NDIRECT]), was, Missing(inode[i].addrs[NDIRECT]),
                b, nb, gap);
      t' := Tally(t.data + {b}, t.bits + nb, t.cnt + 1, t.missing + gap);
      assert src[..tot] + src[tot..tot + m] == src[..tot + m];
      return true, tot + m, t';
    }

    /** writei's loop: store src at off, block by block. It runs out of blocks just when
        there are fewer than the file lacks. The ghost result counts the blocks it logs. */
    method WriteLoop(i: nat, src: seq<byte>, off: nat) returns (ok: bool, ghost t: Tally)
      requires Valid() && i < |inode|
      requires off <= inode[i].size && off + |src| <= MAXBYTES
      modifies this
      ensures ok ==>
                && Writing(sb, blocks, inode, owner, old(blocks), old(inode), i, off, src) && i < |inode|
                && (inode[i] == old(inode[i]) || off + |src| > old(inode[i].size))
                && dirty <= old(dirty) + t.data + t.bits + Indirect(inode[i]) && BitmapBlocks(sb, t.bits)
                && Counted(t, off, |src|, |src|, Missing(old(inode[i].addrs[NDIRECT])),
                           Missing(inode[i].addrs[NDIRECT]))
      ensures ok ==> Logs(old(blocks), old(dirty), blocks, dirty)
      ensures ok <==> Need(old(blocks), old(inode)[i], off / BSIZE, End(off, |src|)) <= Left(sb, old(owner))
      ensures ok ==>
                Spent(sb, old(blocks), old(inode)[i], old(owner), blocks, inode[i], owner, off / BSIZE, End(off, |src|),
                      End(off, |src|))
      ensures !ok ==> DiskFull(sb, owner)
    {
      hide Valid;
      hide Writing;
      hide Indirect;
      hide Counted;
      hide BitmapBlocks;
      hide Logs;
      hide Spent;
      hide Left;
      hide Need;
      hide At;
      hide End;
      hide DiskFull;
      t := Tally({}, {}, 0, 0);
      SetOut(i, src, off);
      var tot := 0;
      while tot < |src|
        invariant Underway(old(blocks), old(inode), old(owner), old(dirty), i, off, src, tot, t)
      {
        ok, tot, t := WriteTurn(i, src, off, tot, old(blocks), old(inode), old(owner), old(dirty), t);
        if !ok { return; }
      }
      assert src[..tot] == src;
      SpentEnds(i, off, |src|, old(blocks), old(inode)[i], old(owner));
      ok := true;
    }

    lemma SpentEnds(i: nat, off: nat, n: nat, blocks0: seq<Block>, n0: Inode, owner0: map<nat, Owner>)
      requires i < |inode| && off + n <= MAXBYTES
      requires Spent(sb, blocks0, n0, owner0, blocks, inode[i], owner, off / BSIZE, At(off, n, n), End(off, n))
      ensures At(off, n, n) == End(off, n) && Need(blocks0, n0, off / BSIZE, End(off, n)) <= Left(sb, owner0)
    {
      hide Spent;
      SpentAll(sb, blocks0, n0, owner0, blocks, inode[i], owner, off / BSIZE, End(off, n));
    }

    /** writei's last lines: the file has grown to `size` bytes. */
    method Extend(i: nat, size: nat, ghost blocks0: seq<Block>, ghost inode0: seq<Inode>, ghost off: nat,
                  ghost src: seq<byte>)
      requires Writing(sb, blocks, inode, owner, blocks0, inode0, i, off, src)
      requires size == off + |src| > inode0[i].size
      modifies this`blocks, this`inode, this`dirty
      ensures Settled(sb, blocks, inode, owner, blocks0, inode0, i,
                      Overwrite(Bytes(blocks0, inode0[i], inode0[i].size), off, src))
      ensures i < |inode| && dirty == old(dirty) + {sb.InodeBlock(i)} && Logs(old(blocks), old(dirty), blocks, dirty)
      ensures SameMap(old(blocks), old(inode)[i], blocks, inode[i])
    {
      hide Ok;
      hide Settled;
      hide Agree;
      hide Overwrite;
      hide Bytes;
      hide InodeStored;
      hide Logs;
      hide Slot;
      FinishExtended(sb, blocks, inode, owner, blocks0, inode0, i, off, src);
      Resized(sb, blocks, inode, owner, i, size);
      ResizedMap(blocks, inode[i], size);
      inode := inode[i := inode[i].(size := size)];
      IsOk();
      StoredMap(sb, blocks, inode, owner, i);
      Iupdate(i);
    }

    /** writei past its checks: the loop, then size and iupdate if it grew. It runs out
        of blocks just when there are fewer than the file lacks. */
    method WriteChecked(i: nat, src: seq<byte>, off: nat) returns (ok: bool)
      requires Valid() && i < |inode|
      requires off <= inode[i].size && off + |src| <= MAXBYTES
      modifies this
      ensures ok ==> old(inode[i].size <= MAXBYTES) &&
                     Settled(sb, blocks, inode, owner, old(blocks), old(inode), i,
                             Overwrite(old(Bytes(blocks, inode[i], inode[i].size)), off, src))
      ensures ok && old(dirty) == {} ==> |dirty| <= LogCost(sb.size <= BPB, off, |src|)
      ensures ok ==> Logs(old(blocks), old(dirty), blocks, dirty)
      ensures ok <==> Need(old(blocks), old(inode)[i], off / BSIZE, End(off, |src|)) <= Left(sb, old(owner))
      ensures ok ==>
                && i < |inode|
                && Spent(sb, old(blocks), old(inode)[i], old(owner), blocks, inode[i], owner, off / BSIZE,
                         End(off, |src|), End(off, |src|))
      ensures !ok ==> DiskFull(sb, owner)
    {
      hide Ok;
      hide Indirect;
      hide Counted;
      hide Settled;
      hide Span;
      hide LogCost;
      hide Agree;
      hide Overwrite;
      hide Bytes;
      hide InodeStored;
      hide BitmapBlocks;
      hide Logs;
      hide Spent;
      hide Left;
      hide Need;
      hide End;
      hide DiskFull;
      hide SameMap;
      ghost var t;
      ok, t := WriteLoop(i, src, off);
      if !ok { return false; }
      ShapeFacts(sb, blocks, inode, owner);
      CostBound(sb, t, off, |src|, old(inode[i].addrs[NDIRECT]), inode[i], dirty, sb.InodeBlock(i));
      ghost var mid, node, dirty1 := blocks, inode[i], dirty;
      if |src| > 0 && off + |src| > inode[i].size {
        Extend(i, off + |src|, old(blocks), old(inode), off, src);
        LogsTrans(old(blocks), old(dirty), mid, dirty1, blocks, dirty);
        SpentStays(sb, old(blocks), old(inode)[i], old(owner), mid, node, owner, blocks, inode[i], off / BSIZE,
                   End(off, |src|), End(off, |src|));
      } else {
        FinishInside(sb, blocks, inode, owner, old(blocks), old(inode), i, off, src);
      }
    }

    lemma IsOk()
      requires Agree(sb, blocks, inode, owner, 0, 0)
      ensures Ok()
    {
    }

    lemma SettledIsValid(blocks0: seq<Block>, inode0: seq<Inode>, i: nat, bytes: seq<byte>)
      requires Settled(sb, blocks, inode, owner, blocks0, inode0, i, bytes)
      ensures Valid() && i < |inode| == |inode0| && inode[i].size <= MAXBYTES && File(i) == bytes
      ensures inode[i] == inode0[i].(size := inode[i].size, addrs := inode[i].addrs)
      ensures forall j :: 0 <= j < |inode| && j != i ==>
                            inode[j] == inode0[j] && inode0[j].size <= MAXBYTES
                              && File(j) == Bytes(blocks0, inode0[j], inode0[j].size)
    {
    }

    /** writei of src at off. ok is false on the panic "out of blocks". A write
        that starts past the end, wraps, or passes the largest file returns -1;
        otherwise the file becomes the plain byte string with src laid over it,
        no other file changes, and every inode on disk is the one in memory. For a
        device, driver is what its write would return, if it has one. */
    method Writei(i: nat, src: seq<byte>, off: uint32, driver: Option<int>) returns (ret: int, ok: bool)
      requires Valid() && i < |inode| && |src| < 0x1_0000_0000
      modifies this
      ensures old(inode[i]).typ == T_DEV ==>
                ok && ret == if driver.Some? && old(inode[i]).major < NDEV then driver.value else -1
      ensures old(inode[i]).typ != T_DEV ==>
                (old(off > inode[i].size || off + |src| >= 0x1_0000_0000 || off + |src| > MAXBYTES) <==>
                   ok && ret == -1)
      ensures ret == -1 || old(inode[i]).typ == T_DEV ==>
                blocks == old(blocks) && inode == old(inode) && owner == old(owner) && dirty == old(dirty)
      ensures ok && ret != -1 && old(inode[i]).typ != T_DEV ==>
                && ret == |src| && Valid() && i < |inode| == |old(inode)| && off <= old(inode[i].size) <= MAXBYTES
                && inode[i] == old(inode[i]).(size := inode[i].size, addrs := inode[i].addrs)
                && inode[i].size <= MAXBYTES && File(i) == Overwrite(old(File(i)), off, src)
                && (forall j :: 0 <= j < |inode| && j != i ==>
                      inode[j] == old(inode[j]) && inode[j].size <= MAXBYTES && File(j) == old(File(j)))
      ensures ok && ret != -1 && old(inode[i]).typ != T_DEV && old(dirty) == {} ==>
                |dirty| <= LogCost(sb.size <= BPB, off, |src|)
      ensures ok ==> Logs(old(blocks), old(dirty), blocks, dirty)
      ensures ok <==>
                || old(inode[i]).typ == T_DEV
                || old(off > inode[i].size || off + |src| >= 0x1_0000_0000 || off + |src| > MAXBYTES)
                || Need(old(blocks), old(inode)[i], off / BSIZE, End(off, |src|)) <= Left(sb, old(owner))
      ensures ok && ret != -1 && old(inode[i]).typ != T_DEV ==>
                && i < |inode|
                && Spent(sb, old(blocks), old(inode)[i], old(owner), blocks, inode[i], owner, off / BSIZE,
                         End(off, |src|), End(off, |src|))
      ensures !ok ==> DiskFull(sb, owner)
    {
      hide Spent;
      hide Left;
      hide Need;
      hide End;
      hide DiskFull;
      hide Valid;
      hide Settled;
      hide LogCost;
      hide Overwrite;
      hide Bytes;
      hide Logs;
      LogsStart(blocks, dirty);
      if inode[i].typ == T_DEV {
        if inode[i].major >= NDEV || driver.None? { return -1, true; }
        return driver.value, true;
      }
      if off > inode[i].size || (off + |src|) % 0x1_0000_0000 < off { return -1, true; }
      if off + |src| > MAXBYTES { return -1, true; }
      ok := WriteChecked(i, src, off);
      if !ok { return 0, false; }
      SettledIsValid(old(blocks), old(inode), i, Overwrite(old(Bytes(blocks, inode[i], inode[i].size)), off, src));
      return |src|, true;
    }

    lemma SizeFits(i: nat)
      requires Valid() && i < |inode|
      ensures inode[i].size <= MAXBYTES
    {
    }

    lemma Readable(i: nat, pos: nat, m: nat)
      requires Valid() && i < |inode| && pos + m <= inode[i].size && 0 < m && pos % BSIZE + m <= BSIZE
      ensures Ok() && pos / BSIZE < MAXFILE
      ensures inode[i].size <= MAXBYTES
      ensures var a := Addr(blocks, inode[i], pos / BSIZE);
              a != 0 && a < |blocks| && blocks[a][pos % BSIZE..pos % BSIZE + m] == File(i)[pos..pos + m]
    {
      hide Agree;
      ReadSlice(sb, blocks, inode, owner, i, inode[i].size, pos, m);
    }

    lemma MappedAddr(blocks0: seq<Block>, inode0: seq<Inode>, owner0: map<nat, Owner>, dirty0: set<nat>, i: nat,
                     bn: nat, b: nat, bits: set<nat>)
      requires Mapped(blocks0, inode0, owner0, dirty0, i, bn, b, bits)
      ensures i < |inode| && bn < MAXFILE && b == Addr(blocks, inode[i], bn)
    {
      hide Agree;
      hide Grown;
      hide Addr;
    }

    /** The body of readi's loop. */
    method ReadOne(i: nat, pos: nat, m: nat) returns (d: seq<byte>)
      requires Valid() && i < |inode| && pos + m <= inode[i].size && 0 < m && pos % BSIZE + m <= BSIZE
      modifies this
      ensures blocks == old(blocks) && inode == old(inode) && owner == old(owner) && dirty == old(dirty)
      ensures inode[i].size <= MAXBYTES && d == File(i)[pos..pos + m]
    {
      hide Sound;
      hide Agree;
      hide Addr;
      hide Bytes;
      hide Mapped;
      Readable(i, pos, m);
      var r, bits := Bmap(i, pos / BSIZE);
      MappedAddr(old(blocks), old(inode), old(owner), old(dirty), i, pos / BSIZE, r.value, bits);
      d := blocks[r.value][pos % BSIZE..pos % BSIZE + m];
    }

    /** readi of n bytes at off: a slice of the file, cut at its end, or -1 when
        off is past the end or off + n wraps. It allocates and changes nothing. For a
        device, driver is what its read would return, if it has one. */
    method Readi(i: nat, off: uint32, n: uint32, driver: Option<int>) returns (ret: int, dst: seq<byte>)
      requires Valid() && i < |inode|
      modifies this
      ensures blocks == old(blocks) && inode == old(inode) && owner == old(owner) && dirty == old(dirty)
      ensures inode[i].typ == T_DEV ==> ret == if driver.Some? && inode[i].major < NDEV then driver.value else -1
      ensures inode[i].typ != T_DEV ==> (ret == -1 <==> off > inode[i].size || off + n >= 0x1_0000_0000)
      ensures inode[i].typ != T_DEV && ret != -1 ==>
                var len := if off + n > inode[i].size then inode[i].size - off else n;
                Valid() && ret == len && off + len <= inode[i].size <= MAXBYTES && dst == File(i)[off..off + len]
    {
      hide Sound;
      hide Agree;
      hide Addr;
      hide Bytes;
      hide Grown;
      hide Piece;
      dst := [];
      if inode[i].typ == T_DEV {
        if inode[i].major >= NDEV || driver.None? { return -1, dst; }
        return driver.value, dst;
      }
      SizeFits(i);
      WrapsBelow(off, n);
      if off > inode[i].size || (off + n) % 0x1_0000_0000 < off { return -1, dst; }
      var len := if off + n > inode[i].size then inode[i].size - off else n;
      var tot := 0;
      while tot < len
        invariant tot <= len && Valid() && i < |inode| && off + len <= inode[i].size <= MAXBYTES
        invariant blocks == old(blocks) && inode == old(inode) && owner == old(owner) && dirty == old(dirty)
        invariant dst == File(i)[off..off + tot]
      {
        var pos := off + tot;
        var m := Piece(pos, len - tot);
        ghost var file := File(i);
        var d := ReadOne(i, pos, m);
        dst := dst + d;
        SliceMore(file, off, pos, pos + m);
        tot := tot + m;
      }
      ret := len;
    }

    /** itrunc's first loop. */
    method TruncDirect(i: nat) returns (ok: bool)
      requires Valid() && i < |inode|
      modifies this
      ensures ok && Ok() && Truncating(sb, blocks, inode, old(blocks), old(inode), i) && i < |inode|
      ensures forall l :: 0 <= l < NDIRECT ==> inode[i].addrs[l] == 0
      ensures inode[i].addrs[NDIRECT] == old(inode[i].addrs[NDIRECT]) && Logs(old(blocks), old(dirty), blocks, dirty)
    {
      hide Agree;
      hide Slot;
      hide Bit;
      hide Unmarked;
      hide Truncating;
      hide Logs;
      LogsStart(blocks, dirty);
      StartTruncating(sb, blocks, inode, owner, i);
      var k := 0;
      while k < NDIRECT
        invariant k <= NDIRECT && i < |inode| && Ok() && Truncating(sb, blocks, inode, old(blocks), old(inode), i)
        invariant inode[i] == old(inode[i]).(addrs := inode[i].addrs)
        invariant forall l :: 0 <= l < k ==> inode[i].addrs[l] == 0
        invariant inode[i].addrs[NDIRECT] == old(inode[i].addrs[NDIRECT])
        invariant Logs(old(blocks), old(dirty), blocks, dirty)
      {
        if inode[i].addrs[k] != 0 {
          var b := inode[i].addrs[k];
          ShapeFacts(sb, blocks, inode, owner);
          FreePointer(sb, blocks, inode, owner, i, k);
          UnmarkTruncating(sb, blocks, inode, old(blocks), old(inode), i, b, WithAddr(inode[i], k, 0));
          ghost var blocks1, dirty1 := blocks, dirty;
          var freed := Bfree(b);
          LogsTrans(old(blocks), old(dirty), blocks1, dirty1, blocks, dirty);
          inode := inode[i := inode[i].(addrs := inode[i].addrs[k := 0])];
          owner := owner - {b};
        }
        k := k + 1;
      }
      ok := true;
    }

    /** itrunc's second half: the entries of the indirect block, then itself. */
    method TruncIndirect(i: nat, ghost blocks0: seq<Block>, ghost inode0: seq<Inode>) returns (ok: bool)
      requires Ok() && Truncating(sb, blocks, inode, blocks0, inode0, i) && i < |inode| && inode[i].addrs[NDIRECT] != 0
      modifies this
      ensures ok && Ok() && Truncating(sb, blocks, inode, blocks0, inode0, i)
      ensures i < |inode| && inode[i] == old(inode[i]).(addrs := old(inode[i].addrs)[NDIRECT := 0])
      ensures Logs(old(blocks), old(dirty), blocks, dirty)
    {
      hide Agree;
      hide Slot;
      hide Bit;
      hide Unmarked;
      hide Truncating;
      hide Word;
      hide Addr;
      hide Logs;
      LogsStart(blocks, dirty);
      var a := inode[i].addrs[NDIRECT];
      NothingGone(sb, blocks, inode, owner, i);
      TruncatingFacts(sb, blocks, inode, blocks0, inode0, i);
      IndirectOwned(sb, blocks, inode, owner, 0, 0, i);
      ghost var entries := blocks[a];
      var j := 0;
      while j < NINDIRECT
        invariant j <= NINDIRECT && inode == old(inode) && |blocks| == |old(blocks)|
        invariant Agree(sb, blocks, inode, owner, i, j) && Truncating(sb, blocks, inode, blocks0, inode0, i)
        invariant blocks[a] == entries && Logs(old(blocks), old(dirty), blocks, dirty)
      {
        IndirectAddr(blocks, inode[i], j);
        var b := Word(blocks[a], j);
        if b != 0 {
          FreeEntry(sb, blocks, inode, owner, i, j);
          UnmarkTruncating(sb, blocks, inode, blocks0, inode0, i, b, inode[i]);
          assert inode[i := inode[i]] == inode;
          DataKept(sb, blocks, b, a);
          ghost var blocks1, dirty1 := blocks, dirty;
          var freed := Bfree(b);
          LogsTrans(old(blocks), old(dirty), blocks1, dirty1, blocks, dirty);
          owner := owner - {b};
        } else {
          SkipEntry(sb, blocks, inode, owner, i, j);
        }
        j := j + 1;
      }
      FreeIndirect(sb, blocks, inode, owner, i);
      UnmarkTruncating(sb, blocks, inode, blocks0, inode0, i, a, WithAddr(inode[i], NDIRECT, 0));
      ghost var blocks1, dirty1 := blocks, dirty;
      var freed := Bfree(a);
      LogsTrans(old(blocks), old(dirty), blocks1, dirty1, blocks, dirty);
      inode := inode[i := inode[i].(addrs := inode[i].addrs[NDIRECT := 0])];
      owner := owner - {a};
      ok := true;
    }

    /** itrunc: the file becomes empty, exactly its blocks become free, and no
        other file changes. The panic "freeing free block" cannot happen. */
    method Itrunc(i: nat) returns (ok: bool)
      requires Valid() && i < |inode|
      modifies this
      ensures ok && Valid() && i < |inode| == |old(inode)|
      ensures inode[i] == old(inode[i]).(size := 0, addrs := inode[i].addrs) && forall k :: 0 <= k <= NDIRECT ==>
                inode[i].addrs[k] == 0
      ensures File(i) == []
      ensures forall j :: 0 <= j < |inode| && j != i ==>
                            inode[j] == old(inode[j]) && inode[j].size <= MAXBYTES && File(j) == old(File(j))
      ensures forall b :: b in owner <==> b in old(owner) && old(owner)[b].inum != i
      ensures forall b :: b in owner ==> owner[b] == old(owner)[b]
      ensures Logs(old(blocks), old(dirty), blocks, dirty)
    {
      hide Agree;
      hide Truncating;
      hide InodeStored;
      hide Settled;
      hide Filled;
      hide Bytes;
      hide DiskInode;
      hide Logs;
      var done := TruncDirect(i);
      if inode[i].addrs[NDIRECT] != 0 {
        ghost var blocks1, dirty1 := blocks, dirty;
        done := TruncIndirect(i, old(blocks), old(inode));
        LogsTrans(old(blocks), old(dirty), blocks1, dirty1, blocks, dirty);
      }
      TruncatingFacts(sb, blocks, inode, old(blocks), old(inode), i);
      TruncatedOwners(sb, blocks, inode, owner, old(blocks), old(inode), old(owner), i);
      FinishTruncate(sb, blocks, inode, owner, old(blocks), old(inode), old(owner), i);
      inode := inode[i := inode[i].(size := 0)];
      ghost var blocks2, dirty2 := blocks, dirty;
      Iupdate(i);
      LogsTrans(old(blocks), old(dirty), blocks2, dirty2, blocks, dirty);
      SettledIsValid(old(blocks), old(inode), i, []);
      ok := true;
    }
  }

  lemma NothingGone(sb: Super, blocks: seq<Block>, inode: seq<Inode>, owner: map<nat, Owner>, i: nat)
    requires Agree(sb, blocks, inode, owner, 0, 0)
    ensures Agree(sb, blocks, inode, owner, i, 0)
  {
    hide Slot;
    hide Bit;
  }

  lemma TruncatingFacts(sb: Super, blocks: seq<Block>, inode: seq<Inode>, blocks0: seq<Block>, inode0: seq<Inode>,
                        i: nat)
    requires Truncating(sb, blocks, inode, blocks0, inode0, i)
    ensures i < |inode| == |inode0| && inode[i] == inode0[i].(addrs := inode[i].addrs)
    ensures sb.Valid() && sb.size <= |blocks|
  {
  }

  lemma DataKept(sb: Super, blocks: seq<Block>, b: nat, a: nat)
    requires sb.Valid() && b < sb.size <= |blocks| && Bit(sb, blocks, b) && sb.datastart <= a < |blocks|
    ensures Unmarked(sb, blocks, b)[a] == blocks[a]
  {
    BlockNumbers(sb, b);
  }

  lemma StartTruncating(sb: Super, blocks: seq<Block>, inode: seq<Inode>, owner: map<nat, Owner>, i: nat)
    requires Agree(sb, blocks, inode, owner, 0, 0) && i < |inode|
    ensures Truncating(sb, blocks, inode, blocks, inode, i)
  {
  }

  lemma CostBound(sb: Super, t: Tally, off: nat, n: nat, ind0: nat, node: Inode, dirty: set<nat>, ib: nat)
    requires Counted(t, off, n, n, Missing(ind0), Missing(node.addrs[NDIRECT])) && BitmapBlocks(sb, t.bits)
    requires 0 < sb.size
    ensures dirty <= t.data + t.bits + Indirect(node) ==>
              |dirty + {ib}| <= LogCost(sb.size <= BPB, off, n) && |dirty| <= |dirty + {ib}|
  {
    if dirty <= t.data + t.bits + Indirect(node) {
      LoggedBound(dirty + {ib}, t.data, t.bits, Indirect(node), ib);
      SubsetSize(dirty, dirty + {ib});
      if sb.size <= BPB { OneBitmapBlock(sb, t.bits); }
    }
  }

  /** An upper bound on the blocks one writei logs: its data blocks, a bitmap
      block for each block it can allocate (one in all if the bitmap is one
      block), the indirect block and the inode's block. */
  function LogCost(oneBitmap: bool, off: nat, n: nat): int {
    var data := Span(off, n);
    var gaps := if off % BSIZE != 0 && n > 0 then data - 1 else data;
    data + (if oneBitmap then 1 else gaps + 1) + 2
  }

  const T_DEV: uint16 := 3
  const NDEV: nat := 10

  lemma PosInRange(pos: nat)
    requires pos < MAXBYTES
    ensures pos / BSIZE < MAXFILE
  {
  }

  /** The data and bitmap blocks a write has logged, the blocks it has visited
      and how many of them were not mapped before. */
  datatype Tally = Tally(data: set<nat>, bits: set<nat>, cnt: nat, missing: nat)

  /** The tally after tot of n bytes at off; m0 and m say whether the indirect
      block was and is missing. */
  ghost predicate Counted(t: Tally, off: nat, tot: nat, n: nat, m0: nat, m: nat) {
    && |t.data| <= t.cnt && |t.bits| + m <= t.missing + m0
    && t.missing <= t.cnt && (t.cnt > 0 && off % BSIZE != 0 ==> t.missing <= t.cnt - 1)
    && (tot < n ==>
          (off + tot) / BSIZE == off / BSIZE + t.cnt && (t.cnt > 0 ==> (off + tot) % BSIZE == 0)
            && (t.cnt == 0 ==> tot == 0))
    && (tot >= n ==> t.cnt <= Span(off, n) && (n > 0 ==> t.cnt > 0))
  }

  lemma CountStart(sb: Super, off: nat, n: nat, m0: nat)
    ensures Counted(Tally({}, {}, 0, 0), off, 0, n, m0, m0) && BitmapBlocks(sb, {})
  {
  }

  lemma CountStep(sb: Super, t: Tally, off: nat, tot: nat, m: nat, n: nat, m0: nat, was: nat, now: nat, b: nat,
                  nb: set<nat>, gap: nat)
    requires Counted(t, off, tot, n, m0, was) && tot < n && BitmapBlocks(sb, t.bits) && BitmapBlocks(sb, nb)
    requires m == if n - tot < BSIZE - (off + tot) % BSIZE then n - tot else BSIZE - (off + tot) % BSIZE
    requires |nb| + now <= gap + was && gap <= 1 && ((off + tot) % BSIZE != 0 ==> gap == 0)
    ensures m > 0 && tot + m <= n
    ensures Counted(Tally(t.data + {b}, t.bits + nb, t.cnt + 1, t.missing + gap), off, tot + m, n, m0, now)
    ensures BitmapBlocks(sb, t.bits + nb)
  {
    hide Span;
    assert |t.bits + nb| <= |t.bits| + |nb|;
    NextBlock(off, tot, m, t.cnt + 1, n);
  }

  lemma StartWriting(sb: Super, blocks: seq<Block>, inode: seq<Inode>, owner: map<nat, Owner>, i: nat, off: nat)
    requires Agree(sb, blocks, inode, owner, 0, 0) && i < |inode| && off <= inode[i].size
    requires forall j :: 0 <= j < |inode| ==>
               Filled(blocks, inode[j], inode[j].size) && DiskInode(sb, blocks, j) == inode[j]
    ensures Writing(sb, blocks, inode, owner, blocks, inode, i, off, [])
  {
    hide Slot;
    hide DiskInode;
    hide Bytes;
    hide Addr;
    var s := Bytes(blocks, inode[i], inode[i].size);
    assert Overwrite(s, off, []) == s;
  }

  /** The first block of an unaligned write holds the byte before it. */
  lemma FirstBlockMapped(sb: Super, blocks: seq<Block>, inode: seq<Inode>, owner: map<nat, Owner>,
                         blocks0: seq<Block>, inode0: seq<Inode>, i: nat, off: nat, done: seq<byte>)
    requires Writing(sb, blocks, inode, owner, blocks0, inode0, i, off, done) && (off + |done|) / BSIZE < MAXFILE
    ensures i < |inode| && ((off + |done|) % BSIZE != 0 ==> Addr(blocks, inode[i], (off + |done|) / BSIZE) != 0)
  {
    hide Agree;
    HoleIsAtEnd(sb, blocks, inode, owner, blocks0, inode0, i, off, done, (off + |done|) / BSIZE);
  }

  /** Position and block count after storing m bytes. */
  lemma NextBlock(off: nat, tot: nat, m: nat, cnt: nat, n: nat)
    requires tot < n && cnt > 0 && (off + tot) / BSIZE == off / BSIZE + cnt - 1
    requires m == if n - tot < BSIZE - (off + tot) % BSIZE then n - tot else BSIZE - (off + tot) % BSIZE
    ensures m > 0 && tot + m <= n && (off + tot) % BSIZE + m <= BSIZE
    ensures tot + m < n ==> (off + tot + m) / BSIZE == off / BSIZE + cnt && (off + tot + m) % BSIZE == 0
    ensures tot + m == n ==> cnt <= Span(off, n)
  {
    var q, r := (off + tot) / BSIZE, (off + tot) % BSIZE;
    assert off + tot == BSIZE * q + r;
    if tot + m < n {
      assert off + tot + m == BSIZE * (q + 1);
    } else {
      assert off + n - 1 == BSIZE * q + (r + m - 1);
    }
  }

  /** The number of blocks that n bytes at off touch. */
  function Span(off: nat, n: nat): nat {
    if n == 0 then 0 else (off + n - 1) / BSIZE - off / BSIZE + 1
  }

  lemma {:induction false} SubsetSize(a: set<nat>, b: set<nat>)
    requires a <= b
    ensures |a| <= |b|
  {
    if a != {} {
      var x :| x in a;
      SubsetSize(a - {x}, b - {x});
    }
  }

  /** The blocks one write logs: data, bitmap, indirect and inode blocks. */
  lemma LoggedBound(dirty: set<nat>, data: set<nat>, bits: set<nat>, ind: set<nat>, ib: nat)
    requires dirty <= data + bits + ind + {ib} && |ind| <= 1
    ensures |dirty| <= |data| + |bits| + 2
  {
    SubsetSize(dirty, data + bits + ind + {ib});
    assert |data + bits| <= |data| + |bits|;
    assert |data + bits + ind| <= |data + bits| + |ind|;
  }

  lemma OneBitmapBlock(sb: Super, bits: set<nat>)
    requires BitmapBlocks(sb, bits) && 0 < sb.size <= BPB
    ensures |bits| <= 1
  {
    SubsetSize(bits, {sb.bmapstart});
  }

  ghost function Indirect(n: Inode): set<nat> {
    if n.addrs[NDIRECT] == 0 then {} else {n.addrs[NDIRECT] as nat}
  }

  /** writei meets an unmapped block only where it extends the file. */
  lemma HoleIsAtEnd(sb: Super, blocks: seq<Block>, inode: seq<Inode>, owner: map<nat, Owner>,
                    blocks0: seq<Block>, inode0: seq<Inode>, i: nat, off: nat, done: seq<byte>, bn: nat)
    requires Writing(sb, blocks, inode, owner, blocks0, inode0, i, off, done)
    requires bn < MAXFILE && bn == (off + |done|) / BSIZE
    ensures Addr(blocks, inode[i], bn) == 0 ==>
              off + |done| == Max(inode0[i].size, off + |done|) && (off + |done|) % BSIZE == 0
  {
    hide Agree;
    hide Bytes;
    hide Addr;
    assert bn * BSIZE <= off + |done|;
  }

  ghost predicate BitmapBlocks(sb: Super, bits: set<nat>) {
    forall x :: x in bits ==> sb.bmapstart <= x <= sb.bmapstart + (sb.size - 1) / BPB
  }

  lemma ResizedMap(blocks: seq<Block>, n: Inode, size: uint32)
    ensures SameMap(blocks, n, blocks, n.(size := size))
  {
  }

  lemma StoredMap(sb: Super, blocks: seq<Block>, inode: seq<Inode>, owner: map<nat, Owner>, i: nat)
    requires Agree(sb, blocks, inode, owner, 0, 0) && i < |inode|
    ensures Shapes(sb, blocks, inode) && SameMap(blocks, inode[i], InodeStored(sb, blocks, i, inode[i]), inode[i])
  {
    hide Slot;
    hide InodeStored;
    hide DiskInode;
    ShapeFacts(sb, blocks, inode, owner);
    StoreInode(sb, blocks, inode, owner, i, inode[i]);
  }

  lemma PointerSlot(blocks: seq<Block>, n: Inode, k: nat)
    requires k <= NDIRECT
    ensures Slot(blocks, n, k) == n.addrs[k]
  {
  }

  lemma DirectAddr(blocks: seq<Block>, n: Inode, bn: nat)
    requires bn < NDIRECT
    ensures Addr(blocks, n, bn) == Slot(blocks, n, bn) == n.addrs[bn]
  {
  }

  lemma IndirectAddr(blocks: seq<Block>, n: Inode, e: nat)
    requires e < NINDIRECT
    ensures Addr(blocks, n, NDIRECT + e) == Slot(blocks, n, NDIRECT + 1 + e)
    ensures Slot(blocks, n, NDIRECT + 1 + e) ==
            if 0 < n.addrs[NDIRECT] < |blocks| then Word(blocks[n.addrs[NDIRECT]], e) else 0
  {
  }

  lemma OtherAddrs(blocks: seq<Block>, n: Inode, blocks': seq<Block>, n': Inode, bn: nat)
    requires bn < MAXFILE
    requires forall l :: 0 <= l < SLOTS && l != NDIRECT && l != FileSlot(bn) ==>
               Slot(blocks', n', l) == Slot(blocks, n, l)
    ensures forall m :: 0 <= m < MAXFILE && m != bn ==> Addr(blocks', n', m) == Addr(blocks, n, m)
  {
  }

  lemma IndirectInRange(sb: Super, blocks: seq<Block>, inode: seq<Inode>, owner: map<nat, Owner>, i: nat)
    requires Agree(sb, blocks, inode, owner, 0, 0) && i < |inode|
    ensures inode[i].addrs[NDIRECT] < |blocks|
  {
    IndirectOwned(sb, blocks, inode, owner, 0, 0, i);
  }

  lemma GrownSelf(sb: Super, blocks: seq<Block>, inode: seq<Inode>, owner: map<nat, Owner>, i: nat)
    requires Agree(sb, blocks, inode, owner, 0, 0) && i < |inode|
    ensures Shapes(sb, blocks, inode) && Grown(sb, blocks, inode, owner, blocks, inode, owner, i)
  {
  }

  lemma BitmapBlock(sb: Super, blocks: seq<Block>, inode: seq<Inode>, owner: map<nat, Owner>, i: nat, k: nat)
    requires Agree(sb, blocks, inode, owner, 0, 0) && i < |inode| && k < SLOTS && Slot(blocks, inode[i], k) != 0
    ensures BitmapBlocks(sb, {sb.BitBlock(Slot(blocks, inode[i], k))})
  {
    assert OwnedBy(owner, Slot(blocks, inode[i], k), i, k);
    assert Slot(blocks, inode[i], k) / BPB <= (sb.size - 1) / BPB;
  }

  lemma Clearing(sb: Super, blocks: seq<Block>, b: nat)
    requires sb.Valid() && b < sb.size <= |blocks|
    ensures sb.BitBlock(b) < |blocks| && (Bit(sb, blocks, b) <==> BitOf(blocks[sb.BitBlock(b)], b))
  {
    BlockNumbers(sb, b);
  }

  // ------------------------------------------------------------- a first disk

  function EmptyInode(): Inode { Inode(0, 0, 0, 0, 0, seq(NDIRECT + 1, _ => 0)) }

  lemma ZeroInode(k: nat)
    requires k < IPB
    ensures InodeIn(ZeroBlock(), k) == EmptyInode()
  {
    hide ZeroBlock;
    assert InodeIn(ZeroBlock(), k).addrs == EmptyInode().addrs;
  }

  lemma {:induction false} ZeroBits(k: nat)
    ensures !TestBit(0, k)
  {
    if k > 0 {
      ZeroBits(k - 1);
    }
  }

  /** A disk whose bitmap marks the metadata blocks, and whose inodes are zero, is a
      sound file system of empty files. */
  lemma FormattedSound(sb: Super, blocks: seq<Block>)
    requires sb.Valid() && |blocks| == sb.size
    requires forall b :: sb.inodestart <= b < sb.bmapstart ==> blocks[b] == ZeroBlock()
    requires forall b :: 0 <= b < sb.size ==> (Bit(sb, blocks, b) <==> b < sb.datastart)
    ensures Sound(sb, blocks, seq(sb.ninodes, _ => EmptyInode()), map[])
  {
    hide Bit;
    hide InodeIn;
    hide ZeroBlock;
    var inode := seq(sb.ninodes, _ => EmptyInode());
    forall i | 0 <= i < |inode|
      ensures DiskInode(sb, blocks, i) == inode[i]
    {
      BlockNumbers(sb, i);
      ZeroInode(i % IPB);
    }
  }

  /** mkfs's zeroing of the disk and its balloc, before any file is added. */
  method Format(sb: Super) returns (blocks: seq<Block>)
    requires sb.Valid() && sb.datastart < BPB
    ensures |blocks| == sb.size && Sound(sb, blocks, seq(sb.ninodes, _ => EmptyInode()), map[])
  {
    hide ZeroBlock;
    hide TestBit;
    hide MarkedBlock;
    hide Sound;
    blocks := seq(sb.size, _ => ZeroBlock());
    var m := ZeroBlock();
    forall c: nat
      ensures !BitOf(m, c)
    {
      ZeroBits(c % 8);
    }
    var i := 0;
    while i < sb.datastart
      invariant i <= sb.datastart && forall c :: 0 <= c < BPB ==> (BitOf(m, c) <==> c < i)
    {
      forall c | 0 <= c < BPB
        ensures BitOf(MarkedBlock(m, i), c) <==> c == i || BitOf(m, c)
      {
        MarkedBits(m, i, c);
      }
      m := MarkedBlock(m, i);
      i := i + 1;
    }
    blocks := blocks[sb.bmapstart := m];
    forall b | 0 <= b < sb.size
      ensures Bit(sb, blocks, b) <==> b < sb.datastart
    {
      BlockNumbers(sb, b);
      if b >= BPB {
        ZeroBits(b % 8);
      }
    }
    FormattedSound(sb, blocks);
  }
}
