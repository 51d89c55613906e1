/** What fs.c keeps in blocks: the free bitmap and the inodes. */
module FsLayout {
  import opened Blocks

  const NDIRECT: nat := 12
  const NINDIRECT: nat := 128
  const MAXFILE: nat := 140
  const BPB: nat := 4096     // bitmap bits per block
  const IPB: nat := 8        // inodes per block

  /** struct superblock, and the block where data begins. */
  datatype Super = Super(size: nat, ninodes: nat, inodestart: nat, bmapstart: nat, datastart: nat) {
    predicate Valid() {
      && inodestart + ninodes / IPB + 1 <= bmapstart
      && bmapstart + size / BPB + 1 <= datastart <= size < 0x1_0000_0000
      && 0 < inodestart
    }
    /** IBLOCK */
    function InodeBlock(i: nat): nat { i / IPB + inodestart }
    /** BBLOCK */
    function BitBlock(b: nat): nat { b / BPB + bmapstart }
  }

  // ------------------------------------------------------------------ bitmap

  function Pow2(k: nat): nat { if k == 0 then 1 else 2 * Pow2(k - 1) }

  /** (x & (1 << k)) != 0 */
  predicate TestBit(x: nat, k: nat) {
    if k == 0 then x % 2 == 1 else TestBit(x / 2, k - 1)
  }

  /** Bit k of x is the last digit of x / (1 << k) in base 2. */
  lemma {:induction false} TestBitIs(x: nat, k: nat)
    ensures Pow2(k) > 0 && (TestBit(x, k) <==> x / Pow2(k) % 2 == 1)
  {
    if k > 0 {
      TestBitIs(x / 2, k - 1);
      HalfFirst(x, Pow2(k - 1));
    }
  }

  lemma Monotone(p: nat, a: nat, b: nat)
    requires a <= b
    ensures p * a <= p * b
  {
  }

  lemma QuotientIs(x: nat, p: nat, q: nat)
    requires p > 0 && p * q <= x < p * q + p
    ensures x / p == q
  {
    var d := x / p;
    assert p * d <= x < p * d + p;
    if d < q {
      Monotone(p, d + 1, q);
    } else if q < d {
      Monotone(p, q + 1, d);
    }
  }

  lemma HalfFirst(x: nat, p: nat)
    requires p > 0
    ensures x / (2 * p) == x / 2 / p
  {
    var q := x / 2 / p;
    assert p * q <= x / 2 < p * q + p;
    assert 2 * p * q == 2 * (p * q);
    QuotientIs(x, 2 * p, q);
  }

  /** Adding 1 << k to a byte whose bit k is clear is x |= 1 << k. */
  lemma {:induction false} TestAfterSet(x: nat, k: nat, j: nat)
    requires !TestBit(x, k)
    ensures TestBit(x + Pow2(k), j) <==> j == k || TestBit(x, j)
  {
    if k > 0 {
      assert (x + Pow2(k)) / 2 == x / 2 + Pow2(k - 1) && (x + Pow2(k)) % 2 == x % 2;
      if j > 0 { TestAfterSet(x / 2, k - 1, j - 1); }
    } else {
      assert (x + 1) / 2 == x / 2;
    }
  }

  lemma {:induction false} BitIsWorth(x: nat, k: nat)
    requires TestBit(x, k)
    ensures Pow2(k) <= x
  {
    if k > 0 { BitIsWorth(x / 2, k - 1); }
  }

  /** Subtracting it from a byte whose bit k is set is x &= ~(1 << k). */
  lemma {:induction false} TestAfterClear(x: nat, k: nat, j: nat)
    requires TestBit(x, k)
    ensures Pow2(k) <= x && (TestBit(x - Pow2(k), j) <==> j != k && TestBit(x, j))
  {
    BitIsWorth(x, k);
    if k > 0 {
      BitIsWorth(x / 2, k - 1);
      assert (x - Pow2(k)) / 2 == x / 2 - Pow2(k - 1) && (x - Pow2(k)) % 2 == x % 2;
      if j > 0 { TestAfterClear(x / 2, k - 1, j - 1); }
    } else {
      assert (x - 1) / 2 == x / 2;
    }
  }

  lemma {:induction false} SetStaysByte(x: nat, k: nat, n: nat)
    requires !TestBit(x, k) && k < n && x < Pow2(n)
    ensures x + Pow2(k) < Pow2(n)
  {
    if k > 0 {
      SetStaysByte(x / 2, k - 1, n - 1);
    }
  }

  function BitByte(b: nat): nat { b % BPB / 8 }

  predicate BitOf(m: Block, b: nat) {
    TestBit(m[BitByte(b)], b % 8)
  }

  predicate Bit(sb: Super, blocks: seq<Block>, b: nat)
    requires sb.Valid() && b < sb.size <= |blocks|
  {
    BitOf(blocks[sb.BitBlock(b)], b)
  }

  lemma ByteRoom(x: byte, k: nat)
    requires !TestBit(x, k) && k < 8
    ensures x + Pow2(k) < 0x100
  {
    assert Pow2(8) == 2 * Pow2(7) && Pow2(7) == 2 * Pow2(6) && Pow2(6) == 2 * Pow2(5) && Pow2(5) == 2 * Pow2(4);
    assert Pow2(4) == 16;
    SetStaysByte(x, k, 8);
  }

  function MarkedBlock(m: Block, b: nat): (r: Block)
    requires !BitOf(m, b)
  {
    ByteRoom(m[BitByte(b)], b % 8);
    m[BitByte(b) := m[BitByte(b)] + Pow2(b % 8)]
  }

  function ClearedBlock(m: Block, b: nat): (r: Block)
    requires BitOf(m, b)
  {
    BitIsWorth(m[BitByte(b)], b % 8);
    m[BitByte(b) := m[BitByte(b)] - Pow2(b % 8)]
  }

  lemma SameBit(b: nat, c: nat)
    requires b / BPB == c / BPB && BitByte(b) == BitByte(c) && b % 8 == c % 8
    ensures b == c
  {
    BitPlace(b);
    BitPlace(c);
  }

  /** A block's bitmap block, byte and bit give its number back. */
  lemma BitPlace(b: nat)
    ensures b == b / BPB * BPB + BitByte(b) * 8 + b % 8
  {
    var q, x := b / BPB, b % BPB;
    EightFold(512 * q + x / 8, x % 8);
    assert b == 8 * (512 * q + x / 8) + x % 8;
  }

  lemma EightFold(m: nat, z: nat)
    requires z < 8
    ensures (8 * m + z) % 8 == z
  {
  }

  lemma MarkedBits(m: Block, b: nat, c: nat)
    requires !BitOf(m, b) && b / BPB == c / BPB
    ensures BitOf(MarkedBlock(m, b), c) <==> b == c || BitOf(m, c)
  {
    if BitByte(b) == BitByte(c) {
      TestAfterSet(m[BitByte(b)], b % 8, c % 8);
      if b % 8 == c % 8 { SameBit(b, c); }
    }
  }

  lemma ClearedBits(m: Block, b: nat, c: nat)
    requires BitOf(m, b) && b / BPB == c / BPB
    ensures BitOf(ClearedBlock(m, b), c) <==> b != c && BitOf(m, c)
  {
    if BitByte(b) == BitByte(c) {
      TestAfterClear(m[BitByte(b)], b % 8, c % 8);
      if b % 8 == c % 8 { SameBit(b, c); }
    }
  }

  // ------------------------------------------------------------------ inodes

  /** struct dinode; addrs holds NDIRECT block numbers and the indirect block's. */
  datatype Inode = Inode(typ: uint16, major: uint16, minor: uint16, nlink: uint16, size: uint32, addrs: Addrs)

  type Addrs = a: seq<uint32> | |a| == NDIRECT + 1 witness seq(NDIRECT + 1, _ => 0)

  function InodeWords(n: Inode): (ws: seq<uint32>)
    ensures |ws| == 16
  {
    [n.typ + 0x1_0000 * (n.major as int), n.minor + 0x1_0000 * (n.nlink as int), n.size] + n.addrs
  }

  function WordsAt(b: Block, at: nat, n: nat): (ws: seq<uint32>)
    requires at + n <= WORDS
    ensures |ws| == n && forall i :: 0 <= i < n ==> ws[i] == Word(b, at + i)
  {
    if n == 0 then [] else WordsAt(b, at, n - 1) + [Word(b, at + n - 1)]
  }

  /** The kth inode of an inode block. */
  function InodeIn(b: Block, k: nat): (n: Inode)
    requires k < IPB
  {
    Inode(Word(b, 16*k) % 0x1_0000, Word(b, 16*k) / 0x1_0000, Word(b, 16*k+1) % 0x1_0000, Word(b, 16*k+1) / 0x1_0000,
          Word(b, 16*k+2), WordsAt(b, 16*k+3, NDIRECT + 1))
  }

  function PutWords(b: Block, at: nat, ws: seq<uint32>): Block
    requires at + |ws| <= WORDS
  {
    if ws == [] then b else SetWord(PutWords(b, at, ws[..|ws|-1]), at + |ws| - 1, ws[|ws|-1])
  }

  lemma {:induction false} WordAfterPut(b: Block, at: nat, ws: seq<uint32>, j: nat)
    requires at + |ws| <= WORDS && j < WORDS
    ensures Word(PutWords(b, at, ws), j) == if at <= j < at + |ws| then ws[j - at] else Word(b, j)
  {
    if |ws| > 0 {
      var n := |ws| - 1;
      WordAfterPut(b, at, ws[..n], j);
      WordAfterSet(PutWords(b, at, ws[..n]), at + n, ws[n], j);
    }
  }

  function PutInode(b: Block, k: nat, n: Inode): Block
    requires k < IPB
  {
    PutWords(b, 16 * k, InodeWords(n))
  }

  /** ilock reads back what iupdate wrote, and iupdate leaves the other inodes
      of the block alone. */
  lemma InodeRoundTrip(b: Block, k: nat, n: Inode, j: nat)
    requires k < IPB && j < IPB
    ensures InodeIn(PutInode(b, k, n), j) == if j == k then n else InodeIn(b, j)
  {
    hide WordsAt;
    hide PutWords;
    hide Word;
    var ws, c := InodeWords(n), PutInode(b, k, n);
    var d := if j == k then ws else WordsAt(b, 16*j, 16);
    forall i | 0 <= i < 16
      ensures Word(c, 16*j + i) == d[i]
    {
      WordAfterPut(b, 16 * k, ws, 16*j + i);
    }
    InodeFromWords(c, j, d);
    if j == k {
      assert WordsOfInode(d).addrs == n.addrs;
    } else {
      InodeFromWords(b, j, d);
    }
  }

  function WordsOfInode(d: seq<uint32>): Inode
    requires |d| == 16
  {
    Inode(d[0] % 0x1_0000, d[0] / 0x1_0000, d[1] % 0x1_0000, d[1] / 0x1_0000, d[2], d[3..])
  }

  lemma InodeFromWords(b: Block, k: nat, d: seq<uint32>)
    requires k < IPB && |d| == 16 && forall i :: 0 <= i < 16 ==> Word(b, 16*k + i) == d[i]
    ensures InodeIn(b, k) == WordsOfInode(d)
  {
    hide WordsAt;
    hide Word;
    assert d[0] == Word(b, 16*k + 0);
    forall i | 0 <= i < NDIRECT + 1
      ensures WordsAt(b, 16*k+3, NDIRECT + 1)[i] == d[3..][i]
    {
      assert Word(b, 16*k + (3 + i)) == d[3 + i];
    }
  }

  function DiskInode(sb: Super, blocks: seq<Block>, i: nat): (n: Inode)
    requires sb.Valid() && i < sb.ninodes && sb.size <= |blocks|
  {
    InodeIn(blocks[sb.InodeBlock(i)], i % IPB)
  }
}
