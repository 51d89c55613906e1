/** The pipe's ring buffer (pipe.c). The counters are 32-bit and wrap around. */
module Pipe {
  import opened Blocks

  const PIPESIZE: nat := 512
  const WRAP: nat := 0x1_0000_0000

  /** Two counters at most PIPESIZE apart are told apart by their wrapped values. */
  lemma WrappedGap(w: nat, r: nat)
    requires r <= w <= r + PIPESIZE
    ensures (w % WRAP - r % WRAP) % WRAP == w - r
    ensures w % WRAP == r % WRAP <==> w == r
    ensures w % WRAP == (r % WRAP + PIPESIZE) % WRAP <==> w == r + PIPESIZE
  {
    var a, b := w / WRAP, r / WRAP;
    assert w == a * WRAP + w % WRAP && r == b * WRAP + r % WRAP;
    assert a == b || a == b + 1;
  }

  lemma WrappedIndex(w: nat)
    ensures w % WRAP % PIPESIZE == w % PIPESIZE
  {
    var a := w / WRAP;
    assert w == a * WRAP + w % WRAP;
    assert a * WRAP == a * 8388608 * PIPESIZE;
  }

  /** Places at most PIPESIZE apart use different cells. */
  lemma CellsApart(j: nat, k: nat)
    requires j < k < j + PIPESIZE
    ensures j % PIPESIZE != k % PIPESIZE
  {
  }

  /** The fields of struct pipe that carry the bytes. */
  type Cells = c: seq<byte> | |c| == PIPESIZE witness seq(PIPESIZE, _ => 0)

  datatype Buffer = Buffer(cells: Cells, nread: nat, nwrite: nat) {
    /** pipewrite's store and increment. */
    function Put(b: byte): Buffer { Buffer(cells[nwrite % PIPESIZE := b], nread, (nwrite + 1) % WRAP) }

    /** piperead's load, and its increment. */
    function Oldest(): byte { cells[nread % PIPESIZE] }

    function Drop(): Buffer { Buffer(cells, (nread + 1) % WRAP, nwrite) }
  }

  /** The bytes of accepted from r on, in their cells. */
  ghost predicate Stored(cells: seq<byte>, accepted: seq<byte>, r: nat) {
    |cells| == PIPESIZE && forall k :: r <= k < |accepted| ==> cells[k % PIPESIZE] == accepted[k]
  }

  lemma StoredMore(cells: seq<byte>, accepted: seq<byte>, r: nat, b: byte)
    requires Stored(cells, accepted, r) && r <= |accepted| < r + PIPESIZE
    ensures Stored(cells[|accepted| % PIPESIZE := b], accepted + [b], r)
  {
    forall k | r <= k < |accepted|
      ensures cells[|accepted| % PIPESIZE := b][k % PIPESIZE] == accepted[k]
    {
      CellsApart(k, |accepted|);
    }
  }

  lemma StoredLess(cells: seq<byte>, accepted: seq<byte>, r: nat)
    requires Stored(cells, accepted, r) && r < |accepted|
    ensures cells[r % PIPESIZE] == accepted[r] && Stored(cells, accepted, r + 1)
  {
  }

  lemma WrappedNext(n: nat)
    ensures (n + 1) % WRAP == (n % WRAP + 1) % WRAP
  {
  }

  /** The ring holds the accepted bytes that have not been delivered. */
  ghost predicate Ring(cells: seq<byte>, nread: nat, nwrite: nat, accepted: seq<byte>, delivered: seq<byte>) {
    && nread == |delivered| % WRAP && nwrite == |accepted| % WRAP
    && |delivered| <= |accepted| <= |delivered| + PIPESIZE && delivered == accepted[..|delivered|]
    && Stored(cells, accepted, |delivered|)
  }

  predicate IsFull(nread: nat, nwrite: nat) { nwrite == (nread + PIPESIZE) % WRAP }

  /** What the two tests of the counters mean, through any wrap-around. */
  lemma RingGap(cells: seq<byte>, nread: nat, nwrite: nat, accepted: seq<byte>, delivered: seq<byte>)
    requires Ring(cells, nread, nwrite, accepted, delivered)
    ensures (nwrite - nread) % WRAP == |accepted| - |delivered| && 0 <= (nwrite - nread) % WRAP <= PIPESIZE
    ensures IsFull(nread, nwrite) <==> |accepted| == |delivered| + PIPESIZE
    ensures nread == nwrite <==> accepted == delivered
    ensures delivered <= accepted && |cells| == PIPESIZE
  {
    WrappedGap(|accepted|, |delivered|);
  }

  lemma RingPut(cells: seq<byte>, nread: nat, nwrite: nat, accepted: seq<byte>, delivered: seq<byte>, b: byte)
    requires Ring(cells, nread, nwrite, accepted, delivered) && !IsFull(nread, nwrite)
    ensures |cells| == PIPESIZE
    ensures Ring(cells[nwrite % PIPESIZE := b], nread, (nwrite + 1) % WRAP, accepted + [b], delivered)
  {
    hide Stored;
    RingGap(cells, nread, nwrite, accepted, delivered);
    StoredMore(cells, accepted, |delivered|, b);
    WrappedIndex(|accepted|);
    WrappedNext(|accepted|);
    assert (accepted + [b])[..|delivered|] == accepted[..|delivered|];
  }

  lemma RingGet(cells: seq<byte>, nread: nat, nwrite: nat, accepted: seq<byte>, delivered: seq<byte>)
    requires Ring(cells, nread, nwrite, accepted, delivered) && nread != nwrite
    ensures |cells| == PIPESIZE
    ensures Ring(cells, (nread + 1) % WRAP, nwrite, accepted, delivered + [cells[nread % PIPESIZE]])
  {
    hide Stored;
    RingGap(cells, nread, nwrite, accepted, delivered);
    StoredLess(cells, accepted, |delivered|);
    WrappedIndex(|delivered|);
    WrappedNext(|delivered|);
    assert accepted[..|delivered| + 1] == accepted[..|delivered|] + [accepted[|delivered|]];
  }

  class Pipe {
    const data: array<byte>
    var nread: nat
    var nwrite: nat
    var readopen: bool
    var writeopen: bool
    ghost var accepted: seq<byte>
    ghost var delivered: seq<byte>

    ghost predicate Valid()
      reads this, data
    {
      data.Length == PIPESIZE && Ring(data[..], nread, nwrite, accepted, delivered)
    }

    constructor ()
      ensures Valid() && accepted == [] && delivered == [] && readopen && writeopen && fresh(data)
    {
      data := new byte[PIPESIZE](_ => 0);
      nread, nwrite, readopen, writeopen := 0, 0, true, true;
      accepted, delivered := [], [];
    }

    /** What pipewrite does between taking the lock and sleeping or finishing: it
        accepts bytes from addr[i..] until the pipe is full or they are all in. */
    method WriteRun(addr: seq<byte>, i: nat) returns (j: nat)
      requires Valid() && i <= |addr|
      modifies `nwrite, `accepted, data
      ensures Valid() && i <= j <= |addr| && accepted == old(accepted) + addr[i..j]
      ensures j == |addr| || |accepted| == |delivered| + PIPESIZE
    {
      hide Ring;
      hide IsFull;
      j := i;
      while j < |addr| && !IsFull(nread, nwrite)
        invariant Valid() && i <= j <= |addr| && accepted == old(accepted) + addr[i..j]
      {
        RingPut(data[..], nread, nwrite, accepted, delivered, addr[j]);
        ghost var cells := data[..];
        data[nwrite % PIPESIZE] := addr[j];
        assert data[..] == cells[nwrite % PIPESIZE := addr[j]];
        nwrite := (nwrite + 1) % WRAP;
        accepted := accepted + [addr[j]];
        assert addr[i..j + 1] == addr[i..j] + [addr[j]];
        j := j + 1;
      }
      RingGap(data[..], nread, nwrite, accepted, delivered);
    }

    /** piperead's copy loop: it delivers the oldest bytes held, up to n of them. */
    method ReadRun(n: nat) returns (out: seq<byte>)
      requires Valid()
      modifies `nread, `delivered
      ensures Valid() && delivered == old(delivered) + out && |out| <= n
      ensures |out| == n || delivered == accepted
    {
      hide Ring;
      out := [];
      var i := 0;
      while i < n && nread != nwrite
        invariant Valid() && 0 <= i <= n && |out| == i && delivered == old(delivered) + out
      {
        RingGet(data[..], nread, nwrite, accepted, delivered);
        var b := data[nread % PIPESIZE];
        nread := (nread + 1) % WRAP;
        delivered := delivered + [b];
        out := out + [b];
        i := i + 1;
      }
      RingGap(data[..], nread, nwrite, accepted, delivered);
    }

    /** Closing one end; the pipe may be freed once both are closed. */
    method Close(writable: bool) returns (freed: bool)
      requires Valid()
      modifies `readopen, `writeopen
      ensures Valid() && freed == (!readopen && !writeopen)
      ensures writeopen == (old(writeopen) && !writable) && readopen == (old(readopen) && writable)
    {
      if writable {
        writeopen := false;
      } else {
        readopen := false;
      }
      freed := !readopen && !writeopen;
    }
  }
}
