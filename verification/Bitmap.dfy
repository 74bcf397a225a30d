/** The free bitmap, one bit per disk block, as balloc and bfree address it: bit bi of a
    bitmap block is bit bi % 8 of its byte bi / 8. */
module Bitmap {
  import opened Blocks

  const BPB := 8 * BSIZE

  function Pow2(n: nat): (p: nat)
    ensures p > 0 && (n <= 8 ==> p == [1, 2, 4, 8, 16, 32, 64, 128, 256][n])
  {
    if n == 0 then 1 else 2 * Pow2(n - 1)
  }

  /** (x & (1 << i)) != 0 */
  predicate BitOn(x: nat, i: nat) {
    if i == 0 then x % 2 == 1 else BitOn(x / 2, i - 1)
  }

  /** x | (1 << i), where the bit is off, on width bits. */
  function BitSet(x: nat, i: nat, width: nat): (r: nat)
    requires i < width && x < Pow2(width) && !BitOn(x, i)
    ensures r < Pow2(width)
  {
    if i == 0 then x + 1 else 2 * BitSet(x / 2, i - 1, width - 1) + x % 2
  }

  /** x & ~(1 << i), where the bit is on. */
  function BitClear(x: nat, i: nat, width: nat): (r: nat)
    requires i < width && x < Pow2(width) && BitOn(x, i)
    ensures r < Pow2(width)
  {
    if i == 0 then x - 1 else 2 * BitClear(x / 2, i - 1, width - 1) + x % 2
  }

  lemma {:induction false} BitSetBits(x: nat, i: nat, width: nat, j: nat)
    requires i < width && x < Pow2(width) && !BitOn(x, i)
    ensures BitOn(BitSet(x, i, width), j) <==> j == i || BitOn(x, j)
  {
    if i != 0 && j != 0 {
      BitSetBits(x / 2, i - 1, width - 1, j - 1);
    }
  }

  lemma {:induction false} BitClearBits(x: nat, i: nat, width: nat, j: nat)
    requires i < width && x < Pow2(width) && BitOn(x, i)
    ensures BitOn(BitClear(x, i, width), j) <==> j != i && BitOn(x, j)
  {
    if i != 0 && j != 0 {
      BitClearBits(x / 2, i - 1, width - 1, j - 1);
    }
  }

  predicate IsSet(d: Block, bi: nat)
    requires bi < BPB
  {
    BitOn(d[bi / 8], bi % 8)
  }

  function MarkBit(d: Block, bi: nat): (r: Block)
    requires bi < BPB && !IsSet(d, bi)
  {
    d[bi / 8 := BitSet(d[bi / 8], bi % 8, 8)]
  }

  function UnmarkBit(d: Block, bi: nat): (r: Block)
    requires bi < BPB && IsSet(d, bi)
  {
    d[bi / 8 := BitClear(d[bi / 8], bi % 8, 8)]
  }

  /** Marking a block changes its bit and no other. */
  lemma SetBits(d: Block, bi: nat, k: nat)
    requires bi < BPB && k < BPB && !IsSet(d, bi)
    ensures IsSet(MarkBit(d, bi), k) <==> k == bi || IsSet(d, k)
  {
    hide BitOn, BitSet, Pow2;
    if k / 8 == bi / 8 {
      BitSetBits(d[bi / 8], bi % 8, 8, k % 8);
    }
  }

  lemma ClearBits(d: Block, bi: nat, k: nat)
    requires bi < BPB && k < BPB && IsSet(d, bi)
    ensures IsSet(UnmarkBit(d, bi), k) <==> k != bi && IsSet(d, k)
  {
    hide BitOn, BitClear, Pow2;
    if k / 8 == bi / 8 {
      BitClearBits(d[bi / 8], bi % 8, 8, k % 8);
    }
  }
}
