/** Files across crashes: the redo log (log.c) under the file layer (fs.c). */
module FsCrash {
  import opened Blocks
  import opened CrashLog
  import opened FsLayout
  import opened FsOwnership
  import opened FsContents
  import opened FileSystem
  import Buffers
  import Log

  /** The log area lies before the inodes, as mkfs lays the disk out. */
  predicate LogBelow(sb: Super, a: Area) { a.start + a.size <= sb.inodestart }

  lemma SameMetadata(sb: Super, a: Area, x: Disk, y: Disk)
    requires sb.Valid() && LogBelow(sb, a) && SameHome(a, x, y) && sb.size <= |x|
    ensures forall c :: 0 <= c < sb.size ==> (Bit(sb, y, c) <==> Bit(sb, x, c))
    ensures forall i :: 0 <= i < sb.ninodes ==> DiskInode(sb, y, i) == DiskInode(sb, x, i)
  {
    hide BitOf;
    hide InodeIn;
    forall c | 0 <= c < sb.size
      ensures Bit(sb, y, c) <==> Bit(sb, x, c)
    {
      BlockNumbers(sb, c);
    }
    forall i | 0 <= i < sb.ninodes
      ensures DiskInode(sb, y, i) == DiskInode(sb, x, i)
    {
      BlockNumbers(sb, i);
    }
  }

  /** A sound file system is sound, with the same files, on any disk that differs in
      the log only. */
  lemma SoundElsewhere(sb: Super, a: Area, x: Disk, y: Disk, inode: seq<Inode>, owner: map<nat, Owner>)
    requires Sound(sb, x, inode, owner) && LogBelow(sb, a) && SameHome(a, x, y)
    ensures Sound(sb, y, inode, owner)
    ensures forall j :: 0 <= j < |inode| ==>
              inode[j].size <= MAXBYTES && Bytes(y, inode[j], inode[j].size) == Bytes(x, inode[j], inode[j].size)
  {
    hide Bit;
    hide DiskInode;
    hide Slot;
    hide Bytes;
    SameMetadata(sb, a, x, y);
    DataAbove(sb, a, x, y, inode, owner);
    OthersChange(sb, x, y, inode, owner, 0, 0);
    KeepOwners(sb, x, y, inode, owner, 0, 0);
    forall j | 0 <= j < |inode|
      ensures Filled(y, inode[j], inode[j].size) && inode[j].size <= MAXBYTES
      ensures Bytes(y, inode[j], inode[j].size) == Bytes(x, inode[j], inode[j].size)
    {
      assert Filled(x, inode[j], inode[j].size);
      forall bn | 0 <= bn < MAXFILE && bn * BSIZE < inode[j].size
        ensures Addr(y, inode[j], bn) == Addr(x, inode[j], bn) && SameBlock(x, y, Addr(x, inode[j], bn))
      {
        FileBlockKept(sb, a, x, y, inode, owner, j, bn);
      }
      BytesKept(x, y, inode[j], inode[j], inode[j].size);
    }
  }

  /** The blocks that files own lie above the log. */
  lemma DataAbove(sb: Super, a: Area, x: Disk, y: Disk, inode: seq<Inode>, owner: map<nat, Owner>)
    requires Agree(sb, x, inode, owner, 0, 0) && LogBelow(sb, a) && SameHome(a, x, y)
    ensures forall b :: b in owner ==> b < |x| && y[b] == x[b]
  {
    hide Slot;
    hide Bit;
  }

  lemma FileBlockKept(sb: Super, a: Area, x: Disk, y: Disk, inode: seq<Inode>, owner: map<nat, Owner>, j: nat, bn: nat)
    requires Agree(sb, x, inode, owner, 0, 0) && LogBelow(sb, a) && SameHome(a, x, y) && j < |inode| && bn < MAXFILE
    requires Addr(x, inode[j], bn) != 0
    requires forall i, k :: 0 <= i < |inode| && 0 <= k < SLOTS ==> Slot(y, inode[i], k) == Slot(x, inode[i], k)
    ensures Addr(y, inode[j], bn) == Addr(x, inode[j], bn) && SameBlock(x, y, Addr(x, inode[j], bn))
  {
    hide Slot;
    hide Bit;
    DataAbove(sb, a, x, y, inode, owner);
    assert OwnedBy(owner, Slot(x, inode[j], FileSlot(bn)), j, FileSlot(bn));
  }

  /** The files on disk x, seen through the given inodes, are those on disk y. */
  ghost predicate SameFiles(x: Disk, y: Disk, inode: seq<Inode>) {
    forall j :: 0 <= j < |inode| ==>
             inode[j].size <= MAXBYTES && Bytes(y, inode[j], inode[j].size) == Bytes(x, inode[j], inode[j].size)
  }

  /** File-system operations are atomic with respect to crashes. The disk d holds a
      sound file system, and so does the map c that cache, log and disk present; they
      differ at the logged blocks h only. Wherever the commit stops, and however many
      recoveries are cut short, what is finally recovered is a sound file system:
      before the header write with every file as on d, from it on with every file as
      in c. */
  lemma FilesSurviveCrashes(sb: Super, a: Area, d: Disk, h: seq<nat>, c: Disk, i: nat, ds: seq<Disk>,
                            inode0: seq<Inode>, owner0: map<nat, Owner>, inode1: seq<Inode>, owner1: map<nat, Owner>)
    requires Clean(a, d) && Entries(a, d, h) && |c| == |d| && LogBelow(sb, a)
    requires forall b :: 0 <= b < |d| && b !in h ==> c[b] == d[b]
    requires i <= |CommitImages(a, d, h, c)|
    requires RebootChain(a, ds) && ds[0] == ([d] + CommitImages(a, d, h, c))[i]
    requires Sound(sb, d, inode0, owner0) && Sound(sb, c, inode1, owner1)
    ensures var r := Recovered(a, ds[|ds| - 1]);
            if i <= |h| then Sound(sb, r, inode0, owner0) && SameFiles(d, r, inode0)
            else Sound(sb, r, inode1, owner1) && SameFiles(c, r, inode1)
  {
    hide Sound;
    hide CommitImages;
    hide Recovered;
    hide Bytes;
    CommitIsAtomic(a, d, h, c, i);
    RepeatedCrashesInRecovery(a, ds);
    var r := Recovered(a, ds[|ds| - 1]);
    if i <= |h| {
      SoundElsewhere(sb, a, d, r, inode0, owner0);
    } else {
      assert Applied(d, h, c) == c;
      SoundElsewhere(sb, a, c, r, inode1, owner1);
    }
  }

  /** Disk r is a sound file system with the files of d or with those of c. */
  ghost predicate OldOrNew(sb: Super, r: Disk, d: Disk, inode0: seq<Inode>, owner0: map<nat, Owner>,
                           c: Disk, inode1: seq<Inode>, owner1: map<nat, Owner>) {
    (Sound(sb, r, inode0, owner0) && SameFiles(d, r, inode0))
      || (Sound(sb, r, inode1, owner1) && SameFiles(c, r, inode1))
  }

  lemma ChainOldOrNew(sb: Super, a: Area, ds: seq<Disk>, d: Disk, inode0: seq<Inode>, owner0: map<nat, Owner>,
                      c: Disk, inode1: seq<Inode>, owner1: map<nat, Owner>)
    requires LogBelow(sb, a) && Sound(sb, d, inode0, owner0) && Sound(sb, c, inode1, owner1)
    requires RebootChain(a, ds) && Log.RecoversTo(a, ds[0], d, c)
    ensures OldOrNew(sb, Recovered(a, ds[|ds| - 1]), d, inode0, owner0, c, inode1, owner1)
  {
    hide Sound;
    hide Recovered;
    hide Bytes;
    hide WfHeader;
    RepeatedCrashesInRecovery(a, ds);
    var r := Recovered(a, ds[|ds| - 1]);
    if SameHome(a, r, d) {
      SoundElsewhere(sb, a, d, r, inode0, owner0);
    } else {
      SoundElsewhere(sb, a, c, r, inode1, owner1);
    }
  }

  /** The same for the code: the disk holds a sound file system, and so does what cache,
      log and disk present. Whatever image the commit has left on the disk when the
      machine stops, among whatever readers, every chain of interrupted recoveries from
      it ends in a sound file system with all files old or all files new. */
  method CommitFiles(log: Log.Log, pid: nat, sched: Buffers.Schedule, sb: Super,
                     ghost inode0: seq<Inode>, ghost owner0: map<nat, Owner>,
                     ghost inode1: seq<Inode>, ghost owner1: map<nat, Owner>)
    returns (r: Buffers.Outcome<()>)
    requires log.Valid() && Buffers.HasOnly(log.bc.buf, pid, {}) && LogBelow(sb, log.a)
    requires Sound(sb, log.bc.disk, inode0, owner0) && Sound(sb, log.bc.contents, inode1, owner1)
    modifies log`n, log.bc, log.bc.lru
    ensures |old(log.bc.trace)| <= |log.bc.trace|
    ensures r.NoBuffers? ==> !Buffers.AnyFree(log.bc.buf)
    ensures r.Locked? ==>
              exists b :: (log.a.Contains(b) || b in old(log.block[..log.n]))
                && Buffers.LockedByOther(log.bc.buf, pid, b)
    ensures r.Done? ==> |log.bc.trace| == |old(log.bc.trace)| + if old(log.n) == 0 then 0 else 2 * old(log.n) + 2
    ensures forall i, ds :: |old(log.bc.trace)| <= i < |log.bc.trace| && RebootChain(log.a, ds) ==>
              ds[0] == log.bc.trace[i] ==>
                OldOrNew(sb, Recovered(log.a, ds[|ds| - 1]), old(log.bc.disk), inode0, owner0,
                         old(log.bc.contents), inode1, owner1)
    ensures r.Done? ==> Sound(sb, log.bc.disk, inode1, owner1) && SameFiles(old(log.bc.contents), log.bc.disk, inode1)
  {
    hide Log.Log.Valid;
    hide Sound;
    hide SameFiles;
    hide Recovered;
    hide WfHeader;
    hide RecoverImages;
    hide Log.RecoversTo;
    hide Log.Quiet;
    hide Log.Room;
    hide OldOrNew;
    hide CommitImages;
    hide Buffers.SameHolders;
    ghost var a, d, c := log.a, log.bc.disk, log.bc.contents;
    ghost var k;
    r, k := log.Commit(pid, sched);
    forall i, ds | |old(log.bc.trace)| <= i < |log.bc.trace| && RebootChain(a, ds) && ds[0] == log.bc.trace[i]
      ensures OldOrNew(sb, Recovered(a, ds[|ds| - 1]), d, inode0, owner0, c, inode1, owner1)
    {
      ChainOldOrNew(sb, a, ds, d, inode0, owner0, c, inode1, owner1);
    }
    if r.Done? {
      FilesElsewhere(sb, a, c, log.bc.disk, inode1, owner1);
    }
  }

  lemma FilesElsewhere(sb: Super, a: Area, x: Disk, y: Disk, inode: seq<Inode>, owner: map<nat, Owner>)
    requires Sound(sb, x, inode, owner) && LogBelow(sb, a) && SameHome(a, y, x)
    ensures Sound(sb, y, inode, owner) && SameFiles(x, y, inode)
  {
    hide Sound;
    hide Bytes;
    SoundElsewhere(sb, a, x, y, inode, owner);
  }
}
