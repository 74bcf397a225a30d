/** Disk blocks as byte sequences, with the 32-bit little-endian word view that
    the kernel uses for the log header and for indirect blocks. */
module Blocks {
  const BSIZE := 1024
  const WORDS := BSIZE / 4
  const UINT := 0x1_0000_0000

  type Byte = x: int | 0 <= x < 256

  type Block = b: seq<Byte> | |b| == BSIZE witness seq(BSIZE, _ => 0)

  function ZeroBlock(): (b: Block) {
    seq(BSIZE, _ => 0)
  }

  /** The uint at word index i of a block. */
  function Word(b: Block, i: nat): (w: nat)
    requires i < WORDS
    ensures w < UINT
  {
    var b0: int, b1: int, b2: int, b3: int := b[4 * i], b[4 * i + 1], b[4 * i + 2], b[4 * i + 3];
    b0 + 0x100 * b1 + 0x1_0000 * b2 + 0x100_0000 * b3
  }

  lemma Digits(w: nat)
    requires w < UINT
    ensures w ==
      w % 0x100 + 0x100 * (w / 0x100 % 0x100) + 0x1_0000 * (w / 0x1_0000 % 0x100) + 0x100_0000 * (w / 0x100_0000)
    ensures w / 0x100_0000 < 0x100
  {
  }

  /** Store the uint w at word index i of a block. */
  function SetWord(b: Block, i: nat, w: nat): (r: Block)
    requires i < WORDS && w < UINT
    ensures Word(r, i) == w
  {
    Digits(w);
    b[4 * i := w % 0x100][4 * i + 1 := w / 0x100 % 0x100]
     [4 * i + 2 := w / 0x1_0000 % 0x100][4 * i + 3 := w / 0x100_0000]
  }

  lemma SetWordFrame(b: Block, i: nat, w: nat, j: nat)
    requires i < WORDS && w < UINT && j < WORDS && j != i
    ensures Word(SetWord(b, i, w), j) == Word(b, j)
  {
  }

}
