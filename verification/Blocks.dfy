/** Disk blocks as byte sequences, and the little-endian 32-bit words the kernel
    reads through `(uint*)bp->data` in index blocks and in the log header. */
module Blocks {

  const BSIZE: nat := 1024
  /** Words per block; the kernel calls this NINDIRECT for index blocks. */
  const NWORDS: nat := 256
  const WORD_LIMIT: nat := 0x1_0000_0000

  type Byte = b: int | 0 <= b < 256
  type Block = b: seq<Byte> | |b| == BSIZE witness seq(BSIZE, _ => 0)

  function Zeros(): (b: Block)
    ensures forall i :: 0 <= i < BSIZE ==> b[i] == 0
  {
    seq(BSIZE, _ => 0)
  }

  /** Word i of a block, lowest byte first. */
  function GetWord(b: Block, i: nat): (w: nat)
    requires i < NWORDS
    ensures w < WORD_LIMIT
  {
    var b0: int, b1: int, b2: int, b3: int := b[4 * i], b[4 * i + 1], b[4 * i + 2], b[4 * i + 3];
    b0 + 256 * b1 + 65536 * b2 + 16777216 * b3
  }

  /** Store word i; every other word keeps its value. */
  function PutWord(b: Block, i: nat, w: nat): (r: Block)
    requires i < NWORDS && w < WORD_LIMIT
    ensures GetWord(r, i) == w
    ensures forall j: nat :: j < NWORDS && j != i ==> GetWord(r, j) == GetWord(b, j)
  {
    SplitWord(w);
    b[4 * i := w % 256][4 * i + 1 := w / 256 % 256]
     [4 * i + 2 := w / 65536 % 256][4 * i + 3 := w / 16777216]
  }

  lemma SplitWord(w: nat)
    requires w < WORD_LIMIT
    ensures 0 <= w / 16777216 < 256
    ensures w % 256 + 256 * (w / 256 % 256) + 65536 * (w / 65536 % 256) + 16777216 * (w / 16777216) == w
  {
    var h := w / 256;
    var g := h / 256;
    assert w == 256 * h + w % 256 && h == 256 * g + h % 256 && g == 256 * (g / 256) + g % 256;
    assert w / 65536 == g && w / 16777216 == g / 256;
  }

  lemma ZeroWords()
    ensures forall j: nat :: j < NWORDS ==> GetWord(Zeros(), j) == 0
  {
  }
}
