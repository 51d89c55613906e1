/** Disk blocks as byte strings, and the views the kernel takes of them:
    little-endian 16- and 32-bit fields (`struct logheader`, `struct dinode`,
    indirect blocks) at fixed byte offsets. */
module Blocks {

  const BSIZE: nat := 512
  /** Number of `uint`s in a block (NINDIRECT). */
  const WORDS: nat := 128

  type byte = x: int | 0 <= x < 0x100
  type uint16 = x: int | 0 <= x < 0x1_0000
  type uint32 = x: int | 0 <= x < 0x1_0000_0000
  type Block = b: seq<byte> | |b| == BSIZE witness seq(BSIZE, _ => 0)

  function ZeroBlock(): (b: Block)
    ensures forall i :: 0 <= i < BSIZE ==> b[i] == 0
  {
    seq(BSIZE, _ => 0)
  }

  /** The ith `uint` of a block, little-endian. */
  function Word(b: Block, i: nat): uint32
    requires i < WORDS
  {
    (b[4*i] as int) + 0x100 * (b[4*i+1] as int) + 0x1_0000 * (b[4*i+2] as int) + 0x100_0000 * (b[4*i+3] as int)
  }

  function SetWord(b: Block, i: nat, w: uint32): Block
    requires i < WORDS
  {
    b[4*i := w % 0x100][4*i+1 := w / 0x100 % 0x100][4*i+2 := w / 0x1_0000 % 0x100][4*i+3 := w / 0x100_0000]
  }

  lemma LowDigit(x: byte, y: nat)
    ensures (x + 0x100 * y) % 0x100 == x && (x + 0x100 * y) / 0x100 == y
  {
  }

  lemma DigitsMakeWord(w: uint32)
    ensures w % 0x100 + 0x100 * (w / 0x100 % 0x100) + 0x1_0000 * (w / 0x1_0000 % 0x100)
            + 0x100_0000 * (w / 0x100_0000) == w
  {
    var q := w / 0x100;
    var r := q / 0x100;
    assert w / 0x1_0000 == r && w / 0x100_0000 == r / 0x100;
  }

  lemma WordHasDigits(w: int, b0: byte, b1: byte, b2: byte, b3: byte)
    requires w == (b0 as int) + 0x100 * (b1 as int) + 0x1_0000 * (b2 as int) + 0x100_0000 * (b3 as int)
    ensures w % 0x100 == b0 && w / 0x100 % 0x100 == b1 && w / 0x1_0000 % 0x100 == b2 && w / 0x100_0000 == b3
  {
    var r: nat := b2 + 0x100 * (b3 as int);
    var q: nat := b1 + 0x100 * r;
    assert w == b0 + 0x100 * q;
    LowDigit(b0, q);
    LowDigit(b1, r);
    LowDigit(b2, b3);
    assert w / 0x1_0000 == q / 0x100 && w / 0x100_0000 == r / 0x100;
  }

  /** A word store is read back by a load of that word and disturbs no other. */
  lemma WordAfterSet(b: Block, i: nat, w: uint32, j: nat)
    requires i < WORDS && j < WORDS
    ensures Word(SetWord(b, i, w), j) == if i == j then w else Word(b, j)
  {
    DigitsMakeWord(w);
  }

  /** Storing the value a word already has changes nothing. */
  lemma SetSameWord(b: Block, i: nat)
    requires i < WORDS
    ensures SetWord(b, i, Word(b, i)) == b
  {
    WordHasDigits(Word(b, i), b[4*i], b[4*i+1], b[4*i+2], b[4*i+3]);
  }
}
