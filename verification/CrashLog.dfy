/** The redo log on disk (log.c): what each block write of a commit and of
    recovery leaves on the disk, and why a crash between any two of them is
    harmless.

    A disk is a sequence of blocks; one block write is one atomic step
    (memide.c). The images a procedure leaves after each of its writes are
    listed in order, so "a crash at any point" is "any element of the list". */
module CrashLog {
  import opened Blocks

  const MAXOPBLOCKS: nat := 10
  const LOGSIZE: nat := 30

  type Disk = seq<Block>

  /** The log area [start, start + size): a header block, then log blocks. */
  datatype Area = Area(start: nat, size: nat) {
    predicate Contains(b: nat) { start <= b < start + size }
    predicate Fits(d: Disk) { 1 <= size && start + size <= |d| }
  }

  /** A block list that may stand in a log header. */
  predicate Entries(a: Area, d: Disk, h: seq<nat>) {
    && a.Fits(d)
    && |h| <= LOGSIZE && |h| < a.size
    && forall i :: 0 <= i < |h| ==> h[i] < |d| && h[i] < 0x1_0000_0000 && !a.Contains(h[i])
  }

  /** The blocks a header lists. */
  function Listed(h: seq<nat>): set<nat> { set b | b in h }

  /** The header after log_write of block b: a block is listed once. */
  function Absorbed(h: seq<nat>, b: nat): seq<nat> {
    if b in h then h else h + [b]
  }

  predicate WfHeader(a: Area, d: Disk) {
    && a.Fits(d)
    && Word(d[a.start], 0) <= LOGSIZE
    && Entries(a, d, HeaderOf(d[a.start]))
  }

  /** `struct logheader`: n, then block[0..n). */
  function HeaderOf(b: Block): (h: seq<nat>)
    requires Word(b, 0) <= LOGSIZE
  {
    seq(Word(b, 0), i requires 0 <= i < LOGSIZE => Word(b, 1 + i))
  }

  /** write_head: n, then the first n entries; the rest of the block stays. */
  function PutHeader(b: Block, h: seq<nat>): Block
    requires |h| <= LOGSIZE && forall i :: 0 <= i < |h| ==> h[i] < 0x1_0000_0000
  {
    PutEntries(SetWord(b, 0, |h|), h, |h|)
  }

  function PutEntries(b: Block, h: seq<nat>, k: nat): Block
    requires k <= |h| <= LOGSIZE && forall i :: 0 <= i < |h| ==> h[i] < 0x1_0000_0000
  {
    if k == 0 then b else SetWord(PutEntries(b, h, k - 1), k, h[k-1])
  }

  lemma {:induction false} PutEntriesWords(b: Block, h: seq<nat>, k: nat, j: nat)
    requires k <= |h| <= LOGSIZE && forall i :: 0 <= i < |h| ==> h[i] < 0x1_0000_0000
    requires j < WORDS
    ensures Word(PutEntries(b, h, k), j) == if 1 <= j <= k then h[j-1] else Word(b, j)
  {
    if k > 0 {
      PutEntriesWords(b, h, k - 1, j);
      WordAfterSet(PutEntries(b, h, k - 1), k, h[k-1], j);
    }
  }

  /** read_head reads back what write_head wrote. */
  lemma HeaderRoundTrip(b: Block, h: seq<nat>)
    requires |h| <= LOGSIZE && forall i :: 0 <= i < |h| ==> h[i] < 0x1_0000_0000
    ensures Word(PutHeader(b, h), 0) == |h|
    ensures HeaderOf(PutHeader(b, h)) == h
  {
    var c := PutHeader(b, h);
    WordAfterSet(b, 0, |h|, 0);
    PutEntriesWords(SetWord(b, 0, |h|), h, |h|, 0);
    forall i | 0 <= i < |h|
      ensures Word(c, 1 + i) == h[i]
    {
      PutEntriesWords(SetWord(b, 0, |h|), h, |h|, 1 + i);
    }
  }

  /** install_trans after its first k copies from the log to home blocks. */
  function Installed(a: Area, d: Disk, h: seq<nat>, k: nat): (e: Disk)
    requires Entries(a, d, h) && k <= |h|
    ensures |e| == |d|
    ensures forall b :: 0 <= b < |d| && (a.Contains(b) || b !in h[..k]) ==> e[b] == d[b]
  {
    if k == 0 then d
    else
      var e := Installed(a, d, h, k - 1);
      assert h[..k] == h[..k-1] + [h[k-1]];
      e[h[k-1] := d[a.start + k]]
  }

  function Cleared(a: Area, d: Disk): Disk
    requires a.Fits(d)
  {
    d[a.start := PutHeader(d[a.start], [])]
  }

  /** write_log after its first k copies of cached contents c to the log. */
  function LogWritten(a: Area, d: Disk, h: seq<nat>, c: Disk, k: nat): (e: Disk)
    requires Entries(a, d, h) && k <= |h| && |c| == |d|
    ensures |e| == |d|
    ensures forall b :: 0 <= b < |d| && !(a.start < b <= a.start + k) ==> e[b] == d[b]
    ensures forall i :: 0 <= i < k ==> e[a.start + 1 + i] == c[h[i]]
  {
    if k == 0 then d
    else LogWritten(a, d, h, c, k - 1)[a.start + k := c[h[k-1]]]
  }

  function Committed(a: Area, d: Disk, h: seq<nat>, c: Disk): (e: Disk)
    requires Entries(a, d, h) && |c| == |d|
    ensures |e| == |d|
  {
    LogWritten(a, d, h, c, |h|)[a.start := PutHeader(d[a.start], h)]
  }

  /** The disk after each write of install_trans. */
  function InstallImages(a: Area, d: Disk, h: seq<nat>): seq<Disk>
    requires Entries(a, d, h)
  {
    seq(|h|, k requires 0 <= k < |h| => Installed(a, d, h, k + 1))
  }

  /** The disk after each write of recover_from_log. */
  function RecoverImages(a: Area, d: Disk): (s: seq<Disk>)
    requires WfHeader(a, d)
  {
    InstallImages(a, d, HeaderOf(d[a.start])) + [Recovered(a, d)]
  }

  function Recovered(a: Area, d: Disk): (e: Disk)
    requires WfHeader(a, d)
    ensures |e| == |d|
  {
    var h := HeaderOf(d[a.start]);
    Cleared(a, Installed(a, d, h, |h|))
  }

  /** The disk after each write of write_log. */
  function WriteLogImages(a: Area, d: Disk, h: seq<nat>, c: Disk): seq<Disk>
    requires Entries(a, d, h) && |c| == |d|
  {
    seq(|h|, k requires 0 <= k < |h| => LogWritten(a, d, h, c, k + 1))
  }

  /** The disk after each write of commit: write_log, write_head, install_trans, write_head. */
  function CommitImages(a: Area, d: Disk, h: seq<nat>, c: Disk): seq<Disk>
    requires Entries(a, d, h) && |c| == |d|
  {
    var e := Committed(a, d, h, c);
    WriteLogImages(a, d, h, c) + [e] + InstallImages(a, e, h) + [Cleared(a, Installed(a, e, h, |h|))]
  }

  /** Two disks that agree on every block outside the log. */
  predicate SameHome(a: Area, d: Disk, e: Disk) {
    && |d| == |e|
    && forall b :: 0 <= b < |d| && !a.Contains(b) ==> d[b] == e[b]
  }

  /** The disk d with the transaction's blocks replaced by their cached contents. */
  function Applied(d: Disk, h: seq<nat>, c: Disk): (e: Disk)
    requires |c| == |d|
    ensures |e| == |d|
  {
    seq(|d|, b requires 0 <= b < |d| => if b in h then c[b] else d[b])
  }

  predicate Clean(a: Area, d: Disk) {
    a.Fits(d) && Word(d[a.start], 0) == 0
  }

  // ---------------------------------------------------------------- recovery

  /** struct logheader on disk: the count in word 0, the block numbers after it, and
      the other words as they were. */
  lemma HeaderWords(b: Block, h: seq<nat>, j: nat)
    requires |h| <= LOGSIZE && j < WORDS && forall i :: 0 <= i < |h| ==> h[i] < 0x1_0000_0000
    ensures Word(PutHeader(b, h), j) == if j == 0 then |h| else if j <= |h| then h[j-1] else Word(b, j)
  {
    PutEntriesWords(SetWord(b, 0, |h|), h, |h|, j);
    WordAfterSet(b, 0, |h|, j);
  }

  /** Installing over any partly installed disk gives the same result. */
  lemma {:induction false} InstallAbsorbs(a: Area, d: Disk, e: Disk, h: seq<nat>, k: nat)
    requires Entries(a, d, h) && k <= |h| && |e| == |d|
    requires forall b :: 0 <= b < |d| && (a.Contains(b) || b !in h) ==> e[b] == d[b]
    ensures forall b :: 0 <= b < |d| && (a.Contains(b) || b !in h[k..]) ==>
                          Installed(a, e, h, k)[b] == Installed(a, d, h, k)[b]
  {
    if k == 0 {
      assert h[0..] == h;
    } else {
      InstallAbsorbs(a, d, e, h, k - 1);
      assert h[k-1..] == [h[k-1]] + h[k..];
      assert e[a.start + k] == d[a.start + k];
    }
  }

  lemma ClearedIsClean(a: Area, d: Disk)
    requires a.Fits(d)
    ensures Clean(a, Cleared(a, d)) && WfHeader(a, Cleared(a, d))
    ensures SameHome(a, d, Cleared(a, d))
  {
    HeaderRoundTrip(d[a.start], []);
  }

  lemma CleanRecoversToItself(a: Area, d: Disk)
    requires Clean(a, d)
    ensures WfHeader(a, d) && HeaderOf(d[a.start]) == [] && Recovered(a, d) == d
  {
    SetSameWord(d[a.start], 0);
  }

  lemma PartInstallRecovers(a: Area, d: Disk, k: nat)
    requires WfHeader(a, d) && k <= |HeaderOf(d[a.start])|
    ensures var e := Installed(a, d, HeaderOf(d[a.start]), k);
            WfHeader(a, e) && Recovered(a, e) == Recovered(a, d)
  {
    var h := HeaderOf(d[a.start]);
    var e := Installed(a, d, h, k);
    assert e[a.start] == d[a.start];
    forall b | 0 <= b < |d| && (a.Contains(b) || b !in h)
      ensures e[b] == d[b]
    {
      assert !a.Contains(b) ==> b !in h[..k];
    }
    InstallAbsorbs(a, d, e, h, |h|);
    assert Installed(a, e, h, |h|) == Installed(a, d, h, |h|);
  }

  lemma RecoverImageAt(a: Area, d: Disk, i: nat)
    requires WfHeader(a, d) && i < |RecoverImages(a, d)|
    ensures var h := HeaderOf(d[a.start]);
            && Entries(a, d, h) && |RecoverImages(a, d)| == |h| + 1
            && RecoverImages(a, d)[i] == if i == |h| then Recovered(a, d) else Installed(a, d, h, i + 1)
  {
    hide Installed;
    hide Cleared;
  }

  lemma RecoveredIsClean(a: Area, d: Disk)
    requires WfHeader(a, d)
    ensures |Recovered(a, d)| == |d| && Clean(a, Recovered(a, d))
  {
    hide Installed;
    var h := HeaderOf(d[a.start]);
    ClearedIsClean(a, Installed(a, d, h, |h|));
  }

  /** Every image recovery can leave, if it crashes, recovers to the same disk. */
  lemma RecoveryIdempotent(a: Area, d: Disk, i: nat)
    requires WfHeader(a, d) && i < |RecoverImages(a, d)|
    ensures var e := RecoverImages(a, d)[i];
            WfHeader(a, e) && |e| == |d| && Recovered(a, e) == Recovered(a, d)
  {
    hide Installed;
    hide HeaderOf;
    hide Recovered;
    hide Entries;
    hide Word;
    RecoverImageAt(a, d, i);
    if i == |HeaderOf(d[a.start])| {
      RecoveredIsClean(a, d);
      CleanRecoversToItself(a, Recovered(a, d));
    } else {
      PartInstallRecovers(a, d, i + 1);
    }
  }

  /** ds lists the disk seen at each boot: every boot ran recovery on the
      disk the previous one left, up to some write, and then crashed. */
  predicate RebootChain(a: Area, ds: seq<Disk>)
  {
    && 0 < |ds|
    && (forall i :: 0 <= i < |ds| ==> WfHeader(a, ds[i]))
    && forall i :: 0 < i < |ds| ==> ds[i] == ds[i-1] || ds[i] in RecoverImages(a, ds[i-1])
  }

  /** However often recovery is interrupted, it finally yields the same disk. */
  lemma {:induction false} RepeatedCrashesInRecovery(a: Area, ds: seq<Disk>)
    requires RebootChain(a, ds)
    ensures Recovered(a, ds[|ds|-1]) == Recovered(a, ds[0])
  {
    if |ds| > 1 {
      var n := |ds| - 1;
      RepeatedCrashesInRecovery(a, ds[..n]);
      if ds[n] != ds[n-1] {
        var i :| 0 <= i < |RecoverImages(a, ds[n-1])| && RecoverImages(a, ds[n-1])[i] == ds[n];
        RecoveryIdempotent(a, ds[n-1], i);
      }
    }
  }

  // ------------------------------------------------------------------ commit

  /** The install loop leaves in each logged block the last log copy of it. */
  lemma {:induction false} InstalledFromLog(a: Area, e: Disk, h: seq<nat>, c: Disk, k: nat, b: nat)
    requires Entries(a, e, h) && k <= |h| && |c| == |e|
    requires forall i :: 0 <= i < |h| ==> e[a.start + 1 + i] == c[h[i]]
    requires b in h[..k]
    ensures b < |e| && Installed(a, e, h, k)[b] == c[b]
  {
    assert h[..k] == h[..k-1] + [h[k-1]];
    if b == h[k-1] {
      assert e[a.start + 1 + (k - 1)] == c[h[k-1]];
    } else {
      InstalledFromLog(a, e, h, c, k - 1, b);
    }
  }

  /** Once the header is written, recovery produces the new state. */
  lemma CommitPointRecovers(a: Area, d: Disk, h: seq<nat>, c: Disk)
    requires Entries(a, d, h) && |c| == |d|
    ensures var e := Committed(a, d, h, c);
            && WfHeader(a, e) && HeaderOf(e[a.start]) == h
            && SameHome(a, Recovered(a, e), Applied(d, h, c))
  {
    var e := Committed(a, d, h, c);
    HeaderRoundTrip(d[a.start], h);
    assert h[..|h|] == h;
    forall b | b in h
      ensures b < |e| && Installed(a, e, h, |h|)[b] == c[b]
    {
      InstalledFromLog(a, e, h, c, |h|, b);
    }
    ClearedIsClean(a, Installed(a, e, h, |h|));
  }

  /** After the header write, commit does what recovery would do. */
  lemma CommitTailIsRecovery(a: Area, d: Disk, h: seq<nat>, c: Disk)
    requires Entries(a, d, h) && |c| == |d|
    ensures var m := Committed(a, d, h, c);
            && WfHeader(a, m)
            && |WriteLogImages(a, d, h, c)| == |h|
            && CommitImages(a, d, h, c) == WriteLogImages(a, d, h, c) + ([m] + RecoverImages(a, m))
  {
    CommitPointRecovers(a, d, h, c);
  }

  /** The image after i block writes of commit: a partial log write, the
      commit point, or an image of recovery from the commit point. */
  lemma CommitImageAt(a: Area, d: Disk, h: seq<nat>, c: Disk, i: nat)
    requires Entries(a, d, h) && |c| == |d|
    requires i <= |CommitImages(a, d, h, c)|
    ensures WfHeader(a, Committed(a, d, h, c))
    ensures var e := ([d] + CommitImages(a, d, h, c))[i];
            var m := Committed(a, d, h, c);
            if i <= |h| then e == LogWritten(a, d, h, c, i)
            else if i == |h| + 1 then e == m
            else i - |h| - 2 < |RecoverImages(a, m)| && e == RecoverImages(a, m)[i - |h| - 2]
  {
    hide CommitImages;
    hide RecoverImages;
    hide Committed;
    hide WfHeader;
    hide LogWritten;
    hide WriteLogImages;
    CommitTailIsRecovery(a, d, h, c);
    WriteLogImageAt(a, d, h, c, if i <= |h| then i else 0);
    var m := Committed(a, d, h, c);
    ThreeParts(d, WriteLogImages(a, d, h, c), m, RecoverImages(a, m), i);
  }

  lemma WriteLogImageAt(a: Area, d: Disk, h: seq<nat>, c: Disk, i: nat)
    requires Entries(a, d, h) && |c| == |d| && i <= |h|
    ensures |WriteLogImages(a, d, h, c)| == |h|
    ensures LogWritten(a, d, h, c, i) == if i == 0 then d else WriteLogImages(a, d, h, c)[i-1]
  {
  }

  lemma ThreeParts(d: Disk, w: seq<Disk>, m: Disk, r: seq<Disk>, i: nat)
    requires i <= |w| + 1 + |r|
    ensures ([d] + (w + ([m] + r)))[i] ==
            if i == 0 then d else if i <= |w| then w[i-1] else if i == |w| + 1 then m else r[i - |w| - 2]
  {
  }

  /** Before the header write, recovery yields the old state. */
  lemma LogWriteRecovers(a: Area, d: Disk, h: seq<nat>, c: Disk, i: nat)
    requires Clean(a, d) && Entries(a, d, h) && |c| == |d| && i <= |h|
    ensures var e := LogWritten(a, d, h, c, i);
            WfHeader(a, e) && SameHome(a, Recovered(a, e), d)
  {
    hide LogWritten;
    CleanRecoversToItself(a, LogWritten(a, d, h, c, i));
  }

  /** Crash atomicity. Whatever image commit has left when the machine stops
      (i counts its completed block writes), recovery yields the whole old
      state up to the header write and the whole new state from it on. */
  lemma CommitIsAtomic(a: Area, d: Disk, h: seq<nat>, c: Disk, i: nat)
    requires Clean(a, d) && Entries(a, d, h) && |c| == |d|
    requires i <= |CommitImages(a, d, h, c)|
    ensures var e := ([d] + CommitImages(a, d, h, c))[i];
            && WfHeader(a, e)
            && SameHome(a, Recovered(a, e), if i <= |h| then d else Applied(d, h, c))
  {
    hide CommitImages;
    hide Recovered;
    hide RecoverImages;
    hide Committed;
    hide WfHeader;
    hide Applied;
    CommitImageAt(a, d, h, c, i);
    if i <= |h| {
      LogWriteRecovers(a, d, h, c, i);
    } else {
      CommitPointRecovers(a, d, h, c);
      if i > |h| + 1 {
        RecoveryIdempotent(a, Committed(a, d, h, c), i - |h| - 2);
      }
    }
  }

  /** A completed commit leaves a clean log and the new state in place. */
  lemma CommitCompletes(a: Area, d: Disk, h: seq<nat>, c: Disk)
    requires Clean(a, d) && Entries(a, d, h) && |c| == |d|
    ensures |CommitImages(a, d, h, c)| == 2 * |h| + 2
    ensures var e := CommitImages(a, d, h, c)[2 * |h| + 1];
            Clean(a, e) && SameHome(a, e, Applied(d, h, c))
  {
    CommitPointRecovers(a, d, h, c);
    var m := Committed(a, d, h, c);
    ClearedIsClean(a, Installed(a, m, h, |h|));
  }

  /** The capstone: any property of the home blocks that holds before and
      after a transaction holds of what the system recovers, wherever the
      commit stops and however many recoveries are cut short afterwards. */
  lemma InvariantSurvivesCrashes(a: Area, d: Disk, h: seq<nat>, c: Disk, i: nat, ds: seq<Disk>, inv: Disk -> bool)
    requires Clean(a, d) && Entries(a, d, h) && |c| == |d|
    requires i <= |CommitImages(a, d, h, c)|
    requires RebootChain(a, ds) && ds[0] == ([d] + CommitImages(a, d, h, c))[i]
    requires forall x, y :: SameHome(a, x, y) && inv(x) ==> inv(y)
    requires inv(d) && inv(Applied(d, h, c))
    ensures inv(Recovered(a, ds[|ds|-1]))
  {
    CommitIsAtomic(a, d, h, c, i);
    RepeatedCrashesInRecovery(a, ds);
    var r := Recovered(a, ds[0]);
    if i <= |h| {
      assert SameHome(a, d, r);
    } else {
      assert SameHome(a, Applied(d, h, c), r);
    }
  }
}
