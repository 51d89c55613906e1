/** How many disk blocks a write takes (fs.c): bmap allocates each block of the file
    that is missing, and the indirect block where that is missing too. */
module FsSpace {
  import opened Blocks
  import opened FsLayout
  import opened FsOwnership
  import opened FsContents

  function Missing(b: nat): nat { if b == 0 then 1 else 0 }

  /** The data blocks that belong to no file. */
  ghost function FreeBlocks(sb: Super, owner: map<nat, Owner>): set<nat> {
    set b | sb.datastart <= b < sb.size && b !in owner
  }

  ghost function Left(sb: Super, owner: map<nat, Owner>): nat { |FreeBlocks(sb, owner)| }

  /** Every data block belongs to a file. */
  ghost predicate DiskFull(sb: Super, owner: map<nat, Owner>) {
    forall b :: sb.datastart <= b < sb.size ==> b in owner
  }

  lemma FullExactly(sb: Super, owner: map<nat, Owner>)
    ensures DiskFull(sb, owner) <==> Left(sb, owner) == 0
  {
    if Left(sb, owner) == 0 {
      forall b: nat | sb.datastart <= b < sb.size
        ensures b in owner
      {
        assert b !in FreeBlocks(sb, owner);
      }
    } else {
      var b :| b in FreeBlocks(sb, owner);
    }
  }

  lemma OneTaken(sb: Super, owner: map<nat, Owner>, b: nat, o: Owner)
    requires sb.datastart <= b < sb.size && b !in owner
    ensures Left(sb, owner) == Left(sb, owner[b := o]) + 1
  {
    assert FreeBlocks(sb, owner) == FreeBlocks(sb, owner[b := o]) + {b};
  }

  /** The blocks of the file from lo to hi - 1 that are missing. */
  ghost function Holes(blocks: seq<Block>, n: Inode, lo: nat, hi: nat): set<nat> {
    set bn | lo <= bn < hi && bn < MAXFILE && Addr(blocks, n, bn) == 0
  }

  /** What bmap allocates to give the file all its blocks from lo to hi - 1. */
  ghost function Need(blocks: seq<Block>, n: Inode, lo: nat, hi: nat): nat {
    |Holes(blocks, n, lo, hi)| + if lo < hi && NDIRECT < hi then Missing(n.addrs[NDIRECT]) else 0
  }

  /** What it allocates for block bn. */
  function Cost(blocks: seq<Block>, n: Inode, bn: nat): nat
    requires bn < MAXFILE
  {
    Missing(Addr(blocks, n, bn)) + if bn < NDIRECT then 0 else Missing(n.addrs[NDIRECT])
  }

  /** Block bn of a file has been mapped and paid for; its other blocks are where they were. */
  ghost predicate Charged(sb: Super, blocks: seq<Block>, n: Inode, owner: map<nat, Owner>,
                          blocks': seq<Block>, n': Inode, owner': map<nat, Owner>, bn: nat) {
    && bn < MAXFILE && Left(sb, owner) == Left(sb, owner') + Cost(blocks, n, bn)
    && Addr(blocks', n', bn) != 0
    && (forall m :: 0 <= m < MAXFILE && m != bn ==> Addr(blocks', n', m) == Addr(blocks, n, m))
    && Missing(n'.addrs[NDIRECT]) == if bn < NDIRECT then Missing(n.addrs[NDIRECT]) else 0
  }

  lemma NothingNeeded(blocks: seq<Block>, n: Inode, lo: nat)
    ensures Need(blocks, n, lo, lo) == 0
  {
    assert Holes(blocks, n, lo, lo) == {};
  }

  lemma NeedStep(sb: Super, blocks: seq<Block>, n: Inode, owner: map<nat, Owner>, blocks': seq<Block>, n': Inode,
                 owner': map<nat, Owner>, bn: nat, hi: nat)
    requires Charged(sb, blocks, n, owner, blocks', n', owner', bn) && bn < hi
    ensures Need(blocks, n, bn, hi) == Cost(blocks, n, bn) + Need(blocks', n', bn + 1, hi)
  {
    hide Addr;
    hide Left;
    NeedSplit(blocks, n, bn, hi);
    assert Holes(blocks', n', bn + 1, hi) == Holes(blocks, n, bn + 1, hi);
  }

  lemma NeedSplit(blocks: seq<Block>, n: Inode, bn: nat, hi: nat)
    requires bn < hi && bn < MAXFILE
    ensures |Holes(blocks, n, bn, hi)| == Missing(Addr(blocks, n, bn)) + |Holes(blocks, n, bn + 1, hi)|
  {
    hide Addr;
    var rest := Holes(blocks, n, bn + 1, hi);
    if Addr(blocks, n, bn) == 0 {
      assert Holes(blocks, n, bn, hi) == rest + {bn};
    } else {
      assert Holes(blocks, n, bn, hi) == rest;
    }
  }

  lemma CostWithinNeed(blocks: seq<Block>, n: Inode, bn: nat, hi: nat)
    requires bn < hi && bn < MAXFILE
    ensures Cost(blocks, n, bn) <= Need(blocks, n, bn, hi)
  {
    NeedSplit(blocks, n, bn, hi);
  }

  lemma ChargedStays(sb: Super, blocks0: seq<Block>, n0: Inode, owner0: map<nat, Owner>, blocks: seq<Block>,
                     blocks': seq<Block>, n: Inode, owner: map<nat, Owner>, bn: nat)
    requires Charged(sb, blocks0, n0, owner0, blocks, n, owner, bn)
    requires forall m :: 0 <= m < MAXFILE ==> Addr(blocks', n, m) == Addr(blocks, n, m)
    ensures Charged(sb, blocks0, n0, owner0, blocks', n, owner, bn)
  {
    hide Addr;
    hide Left;
    hide Cost;
  }

  /** The block behind the last one that n bytes at off touch. */
  function End(off: nat, n: nat): nat {
    if n == 0 then off / BSIZE else (off + n - 1) / BSIZE + 1
  }

  /** The next block to write, when tot of n bytes at off are written. */
  function At(off: nat, tot: nat, n: nat): nat {
    if tot < n then (off + tot) / BSIZE else End(off, n)
  }

  /** Of the blocks lo0..hi-1 of a file those before lo have been mapped, and exactly
      what they needed has been taken; all other blocks are where they were. */
  ghost predicate Spent(sb: Super, blocks0: seq<Block>, n0: Inode, owner0: map<nat, Owner>,
                        blocks: seq<Block>, n: Inode, owner: map<nat, Owner>, lo0: nat, lo: nat, hi: nat) {
    && lo0 <= lo <= hi <= MAXFILE
    && Left(sb, owner0) + Need(blocks, n, lo, hi) == Left(sb, owner) + Need(blocks0, n0, lo0, hi)
    && (forall m :: 0 <= m < MAXFILE && !(lo0 <= m < lo) ==> Addr(blocks, n, m) == Addr(blocks0, n0, m))
    && (forall m :: lo0 <= m < lo ==> Addr(blocks, n, m) != 0)
    && Missing(n.addrs[NDIRECT]) == if lo0 < lo && NDIRECT < lo then 0 else Missing(n0.addrs[NDIRECT])
  }

  lemma SpentStart(sb: Super, blocks: seq<Block>, n: Inode, owner: map<nat, Owner>, lo: nat, hi: nat)
    requires lo <= hi <= MAXFILE
    ensures Spent(sb, blocks, n, owner, blocks, n, owner, lo, lo, hi)
  {
  }

  lemma SpentNext(sb: Super, blocks0: seq<Block>, n0: Inode, owner0: map<nat, Owner>,
                  blocks: seq<Block>, n: Inode, owner: map<nat, Owner>,
                  blocks': seq<Block>, n': Inode, owner': map<nat, Owner>, lo0: nat, bn: nat, hi: nat)
    requires Spent(sb, blocks0, n0, owner0, blocks, n, owner, lo0, bn, hi) && bn < hi
    requires Charged(sb, blocks, n, owner, blocks', n', owner', bn)
    ensures Spent(sb, blocks0, n0, owner0, blocks', n', owner', lo0, bn + 1, hi)
  {
    hide Addr;
    hide Left;
    hide Need;
    hide Cost;
    NeedStep(sb, blocks, n, owner, blocks', n', owner', bn, hi);
  }

  /** A write that cannot map its next block needs more than there was. */
  lemma SpentShort(sb: Super, blocks0: seq<Block>, n0: Inode, owner0: map<nat, Owner>,
                   blocks: seq<Block>, n: Inode, owner: map<nat, Owner>, lo0: nat, bn: nat, hi: nat)
    requires Spent(sb, blocks0, n0, owner0, blocks, n, owner, lo0, bn, hi) && bn < hi
    requires Left(sb, owner) < Cost(blocks, n, bn)
    ensures Left(sb, owner0) < Need(blocks0, n0, lo0, hi)
  {
    hide Addr;
    hide Left;
    hide Need;
    hide Cost;
    CostWithinNeed(blocks, n, bn, hi);
  }

  lemma SpentAll(sb: Super, blocks0: seq<Block>, n0: Inode, owner0: map<nat, Owner>,
                 blocks: seq<Block>, n: Inode, owner: map<nat, Owner>, lo: nat, hi: nat)
    requires Spent(sb, blocks0, n0, owner0, blocks, n, owner, lo, hi, hi)
    ensures Left(sb, owner0) == Left(sb, owner) + Need(blocks0, n0, lo, hi)
  {
    NothingNeeded(blocks, n, hi);
  }

  /** One write after another, which starts in the last block mapped or behind it: how
      its needs fit in those that were left. */
  lemma NeedWithin(sb: Super, blocks0: seq<Block>, n0: Inode, owner0: map<nat, Owner>,
                   blocks: seq<Block>, n: Inode, owner: map<nat, Owner>, lo0: nat, mid: nat, hi: nat, lo: nat, e: nat)
    requires Spent(sb, blocks0, n0, owner0, blocks, n, owner, lo0, mid, hi)
    requires lo0 <= lo <= mid <= e <= hi && lo < e
    ensures Need(blocks, n, mid, hi) == Need(blocks, n, lo, e) + |Holes(blocks, n, e, hi)|
                                        + if NDIRECT < e || hi <= NDIRECT then 0 else Missing(n.addrs[NDIRECT])
  {
    hide Addr;
    hide Left;
    var some, rest := Holes(blocks, n, mid, e), Holes(blocks, n, e, hi);
    assert Holes(blocks, n, lo, e) == some;
    assert Holes(blocks, n, mid, hi) == some + rest && some !! rest;
  }

  lemma SpentThen(sb: Super, blocks0: seq<Block>, n0: Inode, owner0: map<nat, Owner>,
                  blocks: seq<Block>, n: Inode, owner: map<nat, Owner>,
                  blocks': seq<Block>, n': Inode, owner': map<nat, Owner>, lo0: nat, mid: nat, hi: nat, lo: nat, e: nat)
    requires Spent(sb, blocks0, n0, owner0, blocks, n, owner, lo0, mid, hi)
    requires Spent(sb, blocks, n, owner, blocks', n', owner', lo, e, e)
    requires lo0 <= lo <= mid <= e <= hi && lo < e
    ensures Spent(sb, blocks0, n0, owner0, blocks', n', owner', lo0, e, hi)
  {
    hide Addr;
    hide Left;
    NeedWithin(sb, blocks0, n0, owner0, blocks, n, owner, lo0, mid, hi, lo, e);
    SpentAll(sb, blocks, n, owner, blocks', n', owner', lo, e);
    assert Holes(blocks', n', e, hi) == Holes(blocks, n, e, hi);
  }

  lemma SpentShortThen(sb: Super, blocks0: seq<Block>, n0: Inode, owner0: map<nat, Owner>,
                       blocks: seq<Block>, n: Inode, owner: map<nat, Owner>, lo0: nat, mid: nat, hi: nat, lo: nat,
                       e: nat)
    requires Spent(sb, blocks0, n0, owner0, blocks, n, owner, lo0, mid, hi)
    requires lo0 <= lo <= mid <= e <= hi && lo < e && Left(sb, owner) < Need(blocks, n, lo, e)
    ensures Left(sb, owner0) < Need(blocks0, n0, lo0, hi)
  {
    hide Addr;
    hide Left;
    hide Need;
    NeedWithin(sb, blocks0, n0, owner0, blocks, n, owner, lo0, mid, hi, lo, e);
  }

  /** Where m more bytes behind tot bytes at off begin and end. */
  lemma EndThen(off: nat, tot: nat, m: nat, n: nat)
    requires 0 < m && tot + m <= n && off + n <= MAXBYTES
    ensures off / BSIZE <= (off + tot) / BSIZE <= End(off, tot) <= End(off + tot, m) == End(off, tot + m)
    ensures (off + tot) / BSIZE < End(off, tot + m) <= End(off, n) <= MAXFILE
  {
  }

  /** The block map of a file is the same. */
  ghost predicate SameMap(blocks: seq<Block>, n: Inode, blocks': seq<Block>, n': Inode) {
    && n'.addrs == n.addrs
    && forall m :: 0 <= m < MAXFILE ==> Addr(blocks', n', m) == Addr(blocks, n, m)
  }

  lemma SpentStays(sb: Super, blocks0: seq<Block>, n0: Inode, owner0: map<nat, Owner>, blocks: seq<Block>, n: Inode,
                   owner: map<nat, Owner>, blocks': seq<Block>, n': Inode, lo0: nat, lo: nat, hi: nat)
    requires Spent(sb, blocks0, n0, owner0, blocks, n, owner, lo0, lo, hi) && SameMap(blocks, n, blocks', n')
    ensures Spent(sb, blocks0, n0, owner0, blocks', n', owner, lo0, lo, hi)
  {
    hide Addr;
    hide Left;
    assert Holes(blocks', n', lo, hi) == Holes(blocks, n, lo, hi);
  }

  lemma AtStart(off: nat, n: nat)
    requires off + n <= MAXBYTES
    ensures At(off, 0, n) == off / BSIZE <= End(off, n) <= MAXFILE
  {
  }

  /** From one block to the next. */
  lemma AtNext(off: nat, tot: nat, m: nat, n: nat)
    requires tot < n && m == if n - tot < BSIZE - (off + tot) % BSIZE then n - tot else BSIZE - (off + tot) % BSIZE
    ensures At(off, tot, n) == (off + tot) / BSIZE < End(off, n) && At(off, tot + m, n) == At(off, tot, n) + 1
  {
    var q, r := (off + tot) / BSIZE, (off + tot) % BSIZE;
    assert off + tot == BSIZE * q + r;
    if tot + m < n {
      assert off + tot + m == BSIZE * (q + 1);
    } else {
      assert off + n - 1 == BSIZE * q + (r + m - 1);
    }
    assert q <= (off + n - 1) / BSIZE by {
      assert off + tot <= off + n - 1;
    }
  }
}
