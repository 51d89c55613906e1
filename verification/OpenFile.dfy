/** filewrite's chunking loop (file.c): a long write becomes several
    transactions, each small enough for the log. */
module OpenFile {
  import opened Options
  import opened Blocks
  import opened CrashLog
  import opened FsLayout
  import opened FsOwnership
  import opened FsContents
  import opened FsSpace
  import opened FsWrite
  import opened FileSystem

  /** ((MAXOPBLOCKS - 1 - 1 - 2) / 2) * 512: what filewrite hands writei at most. */
  const CHUNK: nat := (MAXOPBLOCKS - 1 - 1 - 2) / 2 * 512

  /** One chunk touches at most four blocks, three if it starts on a block. */
  lemma ChunkSpan(off: nat, n: nat)
    requires n <= CHUNK
    ensures Span(off, n) <= if off % BSIZE == 0 then 3 else 4
  {
    if n > 0 {
      var q, r := off / BSIZE, off % BSIZE;
      assert off == BSIZE * q + r;
      assert off + n - 1 == BSIZE * q + (r + n - 1);
      assert (off + n - 1) / BSIZE == q + (r + n - 1) / BSIZE;
    }
  }

  /** Each chunk logs at most MAXOPBLOCKS blocks at any offset, and at most 7 if
      one bitmap block covers the disk. */
  lemma ChunkCost(off: nat, n: nat)
    requires n <= CHUNK
    ensures LogCost(false, off, n) <= MAXOPBLOCKS && LogCost(true, off, n) <= 7
  {
    ChunkSpan(off, n);
  }

  /** Every file but i is as before. */
  ghost predicate OtherFiles(blocks: seq<Block>, inode: seq<Inode>, blocks0: seq<Block>, inode0: seq<Inode>, i: nat) {
    && |inode| == |inode0|
    && forall j :: 0 <= j < |inode0| && j != i ==>
                     && inode[j] == inode0[j] && inode0[j].size <= MAXBYTES
                     && Bytes(blocks, inode[j], inode[j].size) == Bytes(blocks0, inode0[j], inode0[j].size)
  }

  lemma OtherFilesThen(blocks: seq<Block>, inode: seq<Inode>, blocks1: seq<Block>, inode1: seq<Inode>,
                       blocks0: seq<Block>, inode0: seq<Inode>, i: nat)
    requires OtherFiles(blocks1, inode1, blocks0, inode0, i) && OtherFiles(blocks, inode, blocks1, inode1, i)
    ensures OtherFiles(blocks, inode, blocks0, inode0, i)
  {
    hide Bytes;
  }

  /** How many of n bytes filewrite stores from off in a file of the given size: all, or
      as many whole chunks as fit. */
  function Stored(off: nat, size: nat, n: nat): nat {
    if off > size || off > MAXBYTES then 0 else if off + n <= MAXBYTES then n else (MAXBYTES - off) / CHUNK * CHUNK
  }

  lemma StoredFits(off: nat, size: nat, n: nat)
    ensures var k := Stored(off, size, n);
            && k <= n && End(off, 0) == off / BSIZE <= End(off, k)
            && (off <= size <= MAXBYTES ==> End(off, k) <= MAXFILE && off + k <= MAXBYTES) && (off > size ==> k == 0)
  {
  }

  lemma WholeBelow(x: nat, k: nat)
    ensures x / CHUNK * CHUNK <= x
    ensures CHUNK * k <= x ==> CHUNK * k <= x / CHUNK * CHUNK
    ensures CHUNK * k <= x < CHUNK * (k + 1) ==> x / CHUNK * CHUNK == CHUNK * k
  {
    var q := x / CHUNK;
    assert CHUNK * q <= x < CHUNK * (q + 1);
    if q < k {
      assert CHUNK * (q + 1) <= CHUNK * k;
    } else if q > k {
      assert CHUNK * (k + 1) <= CHUNK * q;
    }
  }

  /** What filewrite hands writei after k chunks. */
  function Chunk(n: nat, k: nat): nat
    requires CHUNK * k < n
  {
    if n - CHUNK * k > CHUNK then CHUNK else n - CHUNK * k
  }

  /** A chunk is among the bytes stored if it fits; the first that does not is behind them. */
  lemma ChunkStored(off: nat, size: nat, n: nat, k: nat)
    requires off <= size && CHUNK * k < n && off + CHUNK * k <= MAXBYTES
    ensures off + CHUNK * k + Chunk(n, k) <= MAXBYTES ==> CHUNK * k + Chunk(n, k) <= Stored(off, size, n)
    ensures off + CHUNK * k + Chunk(n, k) > MAXBYTES ==> CHUNK * k == Stored(off, size, n)
  {
    if off + n > MAXBYTES {
      WholeBelow(MAXBYTES - off, k);
      WholeBelow(MAXBYTES - off, k + 1);
    }
  }

  /** i of total bytes from off are stored, and the blocks they needed are taken. */
  ghost predicate Paid(sb: Super, blocks0: seq<Block>, n0: Inode, owner0: map<nat, Owner>, blocks: seq<Block>,
                       n: Inode, owner: map<nat, Owner>, off: nat, total: nat, i: nat) {
    off <= n0.size ==>
      && i <= Stored(off, n0.size, total)
      && Spent(sb, blocks0, n0, owner0, blocks, n, owner, off / BSIZE, End(off, i),
               End(off, Stored(off, n0.size, total)))
  }

  lemma PaidStart(sb: Super, blocks: seq<Block>, n: Inode, owner: map<nat, Owner>, off: nat, total: nat)
    requires off <= n.size ==> n.size <= MAXBYTES
    ensures Paid(sb, blocks, n, owner, blocks, n, owner, off, total, 0)
  {
    hide End;
    hide Spent;
    StoredFits(off, n.size, total);
    if off <= n.size {
      SpentStart(sb, blocks, n, owner, off / BSIZE, End(off, Stored(off, n.size, total)));
    }
  }

  /** The next chunk, which writei accepts. */
  lemma PaidNext(sb: Super, blocks0: seq<Block>, n0: Inode, owner0: map<nat, Owner>,
                 blocks: seq<Block>, n: Inode, owner: map<nat, Owner>, off: nat, total: nat, k: nat,
                 blocks': seq<Block>, n': Inode, owner': map<nat, Owner>)
    requires Paid(sb, blocks0, n0, owner0, blocks, n, owner, off, total, CHUNK * k)
    requires CHUNK * k < total && off <= n0.size <= MAXBYTES && off + CHUNK * k + Chunk(total, k) <= MAXBYTES
    ensures var at, m := off + CHUNK * k, Chunk(total, k);
            && (Left(sb, owner) < Need(blocks, n, at / BSIZE, End(at, m)) ==>
                  Left(sb, owner0) < Need(blocks0, n0, off / BSIZE, End(off, Stored(off, n0.size, total))))
            && (Spent(sb, blocks, n, owner, blocks', n', owner', at / BSIZE, End(at, m), End(at, m)) ==>
                  Paid(sb, blocks0, n0, owner0, blocks', n', owner', off, total, CHUNK * k + m))
  {
    hide End;
    hide Spent;
    hide Left;
    hide Need;
    hide Stored;
    var i, at, m, want := CHUNK * k, off + CHUNK * k, Chunk(total, k), Stored(off, n0.size, total);
    ChunkStored(off, n0.size, total, k);
    StoredFits(off, n0.size, total);
    EndThen(off, i, m, want);
    if Left(sb, owner) < Need(blocks, n, at / BSIZE, End(at, m)) {
      SpentShortThen(sb, blocks0, n0, owner0, blocks, n, owner, off / BSIZE, End(off, i), End(off, want), at / BSIZE,
                     End(at, m));
    }
    if Spent(sb, blocks, n, owner, blocks', n', owner', at / BSIZE, End(at, m), End(at, m)) {
      SpentThen(sb, blocks0, n0, owner0, blocks, n, owner, blocks', n', owner', off / BSIZE, End(off, i),
                End(off, want), at / BSIZE, End(at, m));
    }
  }

  /** filewrite stops: all is stored, or the next chunk is refused. */
  lemma PaidEnd(sb: Super, blocks0: seq<Block>, n0: Inode, owner0: map<nat, Owner>, blocks: seq<Block>, n: Inode,
                owner: map<nat, Owner>, off: nat, total: nat, i: nat, k: nat)
    requires Paid(sb, blocks0, n0, owner0, blocks, n, owner, off, total, i) && i <= total
    requires if off > n0.size then i == 0
             else i == total || (i == CHUNK * k && off + i <= MAXBYTES < off + i + Chunk(total, k))
    ensures i == Stored(off, n0.size, total)
    ensures Need(blocks0, n0, off / BSIZE, End(off, i)) <= Left(sb, owner0)
  {
    hide End;
    hide Spent;
    hide Left;
    hide Need;
    StoredFits(off, n0.size, total);
    NothingNeeded(blocks0, n0, off / BSIZE);
    if off <= n0.size {
      if i < total { ChunkStored(off, n0.size, total, k); }
      SpentAll(sb, blocks0, n0, owner0, blocks, n, owner, off / BSIZE, End(off, i));
    }
  }

  lemma WholeChunks(k: nat)
    ensures CHUNK * k % CHUNK == 0
  {
  }

  /** The next m bytes of addr laid behind the first i. */
  lemma ChunkLaid(file: seq<byte>, off: nat, addr: seq<byte>, i: nat, m: nat)
    requires off <= |file| && i + m <= |addr|
    ensures |Overwrite(file, off, addr[..i])| == Max(|file|, off + i)
    ensures Overwrite(Overwrite(file, off, addr[..i]), off + i, addr[i..i + m]) == Overwrite(file, off, addr[..i + m])
    ensures |Overwrite(file, off, addr[..i + m])| == Max(|file|, off + i + m)
  {
    hide Overwrite;
    OverwriteThen(file, off, addr[..i], addr[i..i + m]);
    OverwriteThen(file, off, addr[..i + m], []);
    assert addr[..i] + addr[i..i + m] == addr[..i + m];
  }

  ghost function Union(sets: seq<set<nat>>): set<nat> {
    if sets == [] then {} else Union(sets[..|sets| - 1]) + sets[|sets| - 1]
  }

  lemma NothingLogged(blocks: seq<Block>)
    ensures Logs(blocks, {}, blocks, Union([]))
  {
  }

  lemma UnionMore(blocks0: seq<Block>, blocks1: seq<Block>, blocks: seq<Block>, sets: seq<set<nat>>, more: set<nat>)
    requires Logs(blocks0, {}, blocks1, Union(sets)) && Logs(blocks1, {}, blocks, more)
    ensures Logs(blocks0, {}, blocks, Union(sets + [more]))
  {
    assert (sets + [more])[..|sets|] == sets;
  }

  class OpenFile {
    const fs: FileSystem
    const inum: nat
    var off: uint32

    constructor (f: FileSystem, i: nat)
      ensures fs == f && inum == i && off == 0
    {
      fs, inum, off := f, i, 0;
    }

    /** One transaction of filewrite: begin_op, writei at off, end_op. */
    method WriteChunk(d: seq<byte>) returns (r: int, ok: bool)
      requires fs.Valid() && inum < |fs.inode| && fs.inode[inum].typ != T_DEV && 0 < |d| <= CHUNK
      modifies this, fs
      ensures ok ==> |fs.dirty| <= MAXOPBLOCKS && (fs.sb.size <= BPB ==> |fs.dirty| <= 7)
      ensures ok ==> Logs(old(fs.blocks), {}, fs.blocks, fs.dirty)
      ensures ok ==> fs.Valid() && inum < |fs.inode| == |old(fs.inode)| && fs.inode[inum].typ != T_DEV
      ensures ok ==> (r == -1 <==> old(off > fs.inode[inum].size) || old(off) + |d| > MAXBYTES)
      ensures ok && r == -1 ==>
                off == old(off) && fs.blocks == old(fs.blocks) && fs.inode == old(fs.inode) && fs.owner == old(fs.owner)
      ensures ok && r != -1 ==>
                && r == |d| && off == old(off) + |d|
                && old(off <= fs.inode[inum].size <= MAXBYTES) && fs.inode[inum].size <= MAXBYTES
                && fs.File(inum) == Overwrite(old(fs.File(inum)), old(off), d)
                && OtherFiles(fs.blocks, fs.inode, old(fs.blocks), old(fs.inode), inum)
      ensures ok <==>
                || old(off > fs.inode[inum].size) || old(off) + |d| > MAXBYTES
                || Need(old(fs.blocks), old(fs.inode)[inum], old(off) / BSIZE, End(old(off), |d|))
                   <= Left(fs.sb, old(fs.owner))
      ensures ok && r != -1 ==>
                Spent(fs.sb, old(fs.blocks), old(fs.inode)[inum], old(fs.owner), fs.blocks, fs.inode[inum], fs.owner,
                      old(off) / BSIZE, End(old(off), |d|), End(old(off), |d|))
      ensures !ok ==> DiskFull(fs.sb, fs.owner)
    {
      hide Sound;
      hide Overwrite;
      hide Bytes;
      hide LogCost;
      hide Logs;
      hide Spent;
      hide Need;
      hide Left;
      hide End;
      ChunkCost(off, |d|);
      fs.dirty := {};
      r, ok := fs.Writei(inum, d, off, None);
      if ok && r == -1 { return; }
      if ok {
        off := off + |d|;
      }
    }

    /** filewrite of addr. ok is false on the panic "out of blocks". The file
        ends with a prefix of addr laid over it at the old offset, and no other
        file changes; it is all of addr, and |addr| is returned, exactly when the
        offset is within the file and the end within the largest file. Otherwise, from
        an offset within the file, it is as many whole chunks as fit. `logged` lists
        the blocks that each transaction logged: every block that changes is in one. */
    method Write(addr: seq<byte>) returns (ret: int, ok: bool, ghost logged: seq<set<nat>>)
      requires fs.Valid() && inum < |fs.inode| && fs.inode[inum].typ != T_DEV && |addr| < 0x8000_0000
      modifies this, fs
      ensures forall k :: 0 <= k < |logged| ==> |logged[k]| <= MAXOPBLOCKS && (fs.sb.size <= BPB ==> |logged[k]| <= 7)
      ensures ok ==> Logs(old(fs.blocks), {}, fs.blocks, Union(logged))
      ensures ok ==>
                && fs.Valid() && inum < |fs.inode| == |old(fs.inode)|
                && (ret == -1 || ret == |addr|)
                && (ret == |addr| <==> addr == [] || (old(off <= fs.inode[inum].size) && old(off) + |addr| <= MAXBYTES))
                && old(off) <= off <= old(off) + |addr| && (ret != -1 ==> off == old(off) + |addr|)
      ensures ok && old(off <= fs.inode[inum].size) ==>
                && old(fs.inode[inum].size) <= MAXBYTES && fs.inode[inum].size <= MAXBYTES
                && fs.File(inum) == Overwrite(old(fs.File(inum)), old(off), addr[..off - old(off)])
                && OtherFiles(fs.blocks, fs.inode, old(fs.blocks), old(fs.inode), inum)
      ensures ok && ret == -1 && old(off <= fs.inode[inum].size) ==>
                var n := off - old(off);
                n % CHUNK == 0 && off <= MAXBYTES < off + if |addr| - n > CHUNK then CHUNK else |addr| - n
      ensures ok && old(off > fs.inode[inum].size) ==>
                fs.blocks == old(fs.blocks) && fs.inode == old(fs.inode) && off == old(off)
      ensures ok ==> off == old(off) + Stored(old(off), old(fs.inode[inum].size), |addr|)
      ensures ok <==>
                Need(old(fs.blocks), old(fs.inode)[inum], old(off) / BSIZE,
                     End(old(off), Stored(old(off), old(fs.inode[inum].size), |addr|))) <= Left(fs.sb, old(fs.owner))
      ensures !ok ==> DiskFull(fs.sb, fs.owner)
    {
      hide Sound;
      hide Overwrite;
      hide Bytes;
      hide OtherFiles;
      hide Logs;
      hide Union;
      hide Spent;
      hide Need;
      hide Left;
      hide End;
      hide Stored;
      hide Paid;
      hide DiskFull;
      logged := [];
      NothingLogged(fs.blocks);
      ghost var off0, size0, file0 := off, fs.inode[inum].size, [];
      if off <= size0 { file0 := Opening(); }
      ghost var chunks := 0;
      PaidStart(fs.sb, fs.blocks, fs.inode[inum], fs.owner, off0, |addr|);
      var i := 0;
      while i < |addr|
        invariant i <= |addr| && off == off0 + i && fs.Valid() && inum < |fs.inode| == |old(fs.inode)|
                  && fs.inode[inum].typ != T_DEV
        invariant off0 <= size0 ==>
                    off0 + i <= fs.inode[inum].size <= MAXBYTES
                      && OtherFiles(fs.blocks, fs.inode, old(fs.blocks), old(fs.inode), inum)
        invariant off0 <= size0 ==> |file0| == size0 && fs.File(inum) == Overwrite(file0, off0, addr[..i])
        invariant off0 > size0 ==> i == 0 && fs.blocks == old(fs.blocks) && fs.inode == old(fs.inode)
        invariant (i > 0 ==> off0 + i <= MAXBYTES) && (i < |addr| ==> i == CHUNK * chunks)
        invariant forall k :: 0 <= k < |logged| ==>
                    |logged[k]| <= MAXOPBLOCKS && (fs.sb.size <= BPB ==> |logged[k]| <= 7)
        invariant Logs(old(fs.blocks), {}, fs.blocks, Union(logged))
        invariant Paid(fs.sb, old(fs.blocks), old(fs.inode)[inum], old(fs.owner), fs.blocks, fs.inode[inum], fs.owner,
                       off0, |addr|, i)
      {
        var n1 := if |addr| - i > CHUNK then CHUNK else |addr| - i;
        var r;
        ghost var blocks1, inode1, owner1 := fs.blocks, fs.inode, fs.owner;
        r, ok := WriteChunk(addr[i..i + n1]);
        if !ok {
          PaidNext(fs.sb, old(fs.blocks), old(fs.inode)[inum], old(fs.owner), blocks1, inode1[inum], owner1, off0,
                   |addr|, chunks, blocks1, inode1[inum], owner1);
          return -1, false, logged;
        }
        UnionMore(old(fs.blocks), blocks1, fs.blocks, logged, fs.dirty);
        logged := logged + [fs.dirty];
        if r < 0 {
          assert off0 <= size0 ==> off0 + i <= MAXBYTES < off0 + i + Chunk(|addr|, chunks);
          break;
        }
        PaidNext(fs.sb, old(fs.blocks), old(fs.inode)[inum], old(fs.owner), blocks1, inode1[inum], owner1, off0,
                 |addr|, chunks, fs.blocks, fs.inode[inum], fs.owner);
        OtherFilesThen(fs.blocks, fs.inode, blocks1, inode1, old(fs.blocks), old(fs.inode), inum);
        ChunkLaid(file0, off0, addr, i, n1);
        i := i + r;
        chunks := chunks + 1;
      }
      WholeChunks(chunks);
      PaidEnd(fs.sb, old(fs.blocks), old(fs.inode)[inum], old(fs.owner), fs.blocks, fs.inode[inum], fs.owner, off0,
              |addr|, i, chunks);
      ok := true;
      ret := if i == |addr| then |addr| else -1;
    }

    lemma Opening() returns (file: seq<byte>)
      requires fs.Valid() && inum < |fs.inode| && off <= fs.inode[inum].size
      ensures fs.inode[inum].size <= MAXBYTES && file == fs.File(inum) && |file| == fs.inode[inum].size
      ensures Overwrite(file, off, []) == file && OtherFiles(fs.blocks, fs.inode, fs.blocks, fs.inode, inum)
    {
      hide Sound;
      hide Bytes;
      fs.SizeFits(inum);
      forall j | 0 <= j < |fs.inode|
        ensures fs.inode[j].size <= MAXBYTES
      {
        fs.SizeFits(j);
      }
      file := fs.File(inum);
    }
  }
}
