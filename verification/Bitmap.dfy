/** The free-block bitmap: one bit per disk block, packed into bitmap blocks. */
module Bitmap {
  import opened Blocks

  const BPB: nat := 8192   // bits per bitmap block

  function Mask(k: nat): (m: nat)
    requires k < 8
    ensures 1 <= m <= 128
  {
    if k == 0 then 1 else if k == 1 then 2 else if k == 2 then 4 else if k == 3 then 8
    else if k == 4 then 16 else if k == 5 then 32 else if k == 6 then 64 else 128
  }

  /** (x & (1 << k)) != 0. */
  predicate Bit(x: Byte, k: nat)
    requires k < 8
  {
    x / Mask(k) % 2 == 1
  }

  /** x | (1 << k). */
  function SetBit(x: Byte, k: nat): Byte
    requires k < 8
  {
    if Bit(x, k) then x else SetBound(x, k); x + Mask(k)
  }

  /** x & ~(1 << k). */
  function ClearBit(x: Byte, k: nat): Byte
    requires k < 8
  {
    if Bit(x, k) then ClearBound(x, k); x - Mask(k) else x
  }

  lemma SetBound(x: Byte, k: nat)
    requires k < 8 && !Bit(x, k)
    ensures 0 <= x + Mask(k) < 256
  {
  }

  lemma ClearBound(x: Byte, k: nat)
    requires k < 8 && Bit(x, k)
    ensures 0 <= x - Mask(k) < 256
  {
  }

  /** The byte with the given eight binary digits, least significant first. */
  function Value(c: seq<nat>): nat
    requires |c| == 8
  {
    c[0] + 2 * c[1] + 4 * c[2] + 8 * c[3] + 16 * c[4] + 32 * c[5] + 64 * c[6] + 128 * c[7]
  }

  predicate Binary(c: seq<nat>) {
    |c| == 8 && forall i :: 0 <= i < 8 ==> c[i] <= 1
  }

  function Digits(x: Byte): (c: seq<nat>)
    ensures Binary(c) && Value(c) == x
  {
    var h1 := x / 2;
    var h2 := h1 / 2;
    var h3 := h2 / 2;
    var h4 := h3 / 2;
    var h5 := h4 / 2;
    var h6 := h5 / 2;
    [x % 2, h1 % 2, h2 % 2, h3 % 2, h4 % 2, h5 % 2, h6 % 2, h6 / 2]
  }

  /** What the digits from j up stand for, counted in units of digit j. */
  function Upper(c: seq<nat>, j: nat): nat
    requires Binary(c) && j <= 8
    decreases 8 - j
  {
    if j == 8 then 0 else c[j] + 2 * Upper(c, j + 1)
  }

  /** What the digits below j stand for. */
  function Lower(c: seq<nat>, j: nat): (l: nat)
    requires Binary(c) && j < 8
    ensures l < Mask(j)
  {
    if j == 0 then 0 else Lower(c, j - 1) + Mask(j - 1) * c[j - 1]
  }

  lemma UpperAll(c: seq<nat>)
    requires Binary(c)
    ensures Upper(c, 0) == Value(c)
  {
    assert Upper(c, 6) == c[6] + 2 * c[7];
    assert Upper(c, 4) == c[4] + 2 * c[5] + 4 * Upper(c, 6);
    assert Upper(c, 2) == c[2] + 2 * c[3] + 4 * Upper(c, 4);
  }

  lemma Regroup(m: nat, d: nat, u: nat, l: nat)
    requires d <= 1
    ensures m * (d + 2 * u) + l == 2 * m * u + (l + m * d)
  {
  }

  lemma {:induction false} CutAt(c: seq<nat>, j: nat)
    requires Binary(c) && j < 8
    ensures Value(c) == Mask(j) * Upper(c, j) + Lower(c, j)
  {
    if j == 0 {
      UpperAll(c);
    } else {
      CutAt(c, j - 1);
      Regroup(Mask(j - 1), c[j - 1], Upper(c, j), Lower(c, j - 1));
    }
  }

  /** Digit j is what testing bit j sees. */
  lemma DigitSeen(c: seq<nat>, j: nat)
    requires Binary(c) && j < 8
    ensures Value(c) / Mask(j) % 2 == c[j]
  {
    CutAt(c, j);
    Isolated(Value(c), j, c[j], Upper(c, j + 1), Lower(c, j));
  }

  lemma Isolated(n: nat, j: nat, d: nat, above: nat, below: nat)
    requires j < 8 && d <= 1 && below < Mask(j) && n == Mask(j) * (d + 2 * above) + below
    ensures n / Mask(j) % 2 == d
  {
    var hi := d + 2 * above;
    Quotient(n, j, hi, below);
    assert hi % 2 == d;
  }

  lemma Quotient(n: nat, j: nat, hi: nat, lo: nat)
    requires j < 8 && lo < Mask(j) && n == Mask(j) * hi + lo
    ensures n / Mask(j) == hi
  {
  }

  lemma BitIsDigit(x: Byte, j: nat)
    requires j < 8
    ensures Bit(x, j) <==> Digits(x)[j] == 1
  {
    DigitSeen(Digits(x), j);
  }

  lemma ChangeDigit(c: seq<nat>, k: nat, d: nat)
    requires Binary(c) && k < 8 && d <= 1
    ensures Binary(c[k := d]) && Value(c[k := d]) == Value(c) + Mask(k) * d - Mask(k) * c[k]
  {
  }

  /** Setting or clearing one bit of a byte leaves the other seven. */
  lemma SetBitAt(x: Byte, k: nat, j: nat)
    requires k < 8 && j < 8
    ensures Bit(SetBit(x, k), j) <==> j == k || Bit(x, j)
  {
    BitIsDigit(x, k);
    BitIsDigit(x, j);
    if !Bit(x, k) {
      ChangeDigit(Digits(x), k, 1);
      DigitSeen(Digits(x)[k := 1], j);
    }
  }

  lemma ClearBitAt(x: Byte, k: nat, j: nat)
    requires k < 8 && j < 8
    ensures Bit(ClearBit(x, k), j) <==> j != k && Bit(x, j)
  {
    BitIsDigit(x, k);
    BitIsDigit(x, j);
    if Bit(x, k) {
      ChangeDigit(Digits(x), k, 0);
      DigitSeen(Digits(x)[k := 0], j);
    }
  }

  // ------------------------------------------------ bits of the whole disk

  /** Where block b's bit lives: bitmap block, byte and bit. */
  function BitBlock(start: nat, b: nat): nat { start + b / BPB }
  function BitByte(b: nat): (i: nat) ensures i < BSIZE { b % BPB / 8 }
  function BitIndex(b: nat): (k: nat) ensures k < 8 { b % 8 }

  /** Block b is marked in use. */
  predicate Marked(blocks: seq<Block>, start: nat, b: nat) {
    BitBlock(start, b) < |blocks| && Bit(blocks[BitBlock(start, b)][BitByte(b)], BitIndex(b))
  }

  function WithByte(d: Block, i: nat, x: Byte): Block
    requires i < BSIZE
  {
    d[i := x]
  }

  function Mark(blocks: seq<Block>, start: nat, b: nat): (r: seq<Block>)
    requires BitBlock(start, b) < |blocks|
    ensures |r| == |blocks|
    ensures forall c :: 0 <= c < |blocks| && c != BitBlock(start, b) ==> r[c] == blocks[c]
  {
    var d := blocks[BitBlock(start, b)];
    blocks[BitBlock(start, b) := WithByte(d, BitByte(b), SetBit(d[BitByte(b)], BitIndex(b)))]
  }

  function Unmark(blocks: seq<Block>, start: nat, b: nat): (r: seq<Block>)
    requires BitBlock(start, b) < |blocks|
    ensures |r| == |blocks|
    ensures forall c :: 0 <= c < |blocks| && c != BitBlock(start, b) ==> r[c] == blocks[c]
  {
    var d := blocks[BitBlock(start, b)];
    blocks[BitBlock(start, b) := WithByte(d, BitByte(b), ClearBit(d[BitByte(b)], BitIndex(b)))]
  }

  lemma BitPosition(b: nat, c: nat)
    ensures b / BPB == c / BPB && BitByte(b) == BitByte(c) && BitIndex(b) == BitIndex(c) ==> b == c
  {
    BitParts(b);
    BitParts(c);
  }

  lemma BitParts(b: nat)
    ensures b == BPB * (b / BPB) + 8 * BitByte(b) + BitIndex(b)
  {
    var q, r := b / BPB, b % BPB;
    var j, k := r / 8, r % 8;
    LastDigit(b, 1024 * q + j, k);
  }

  lemma LastDigit(n: nat, q: nat, k: nat)
    requires n == 8 * q + k && k < 8
    ensures n % 8 == k
  {
  }

  /** Marking a block changes its own bit and no other. */
  lemma MarkAt(blocks: seq<Block>, start: nat, b: nat, c: nat)
    requires BitBlock(start, b) < |blocks|
    ensures Marked(Mark(blocks, start, b), start, c) <==> c == b || Marked(blocks, start, c)
  {
    BitPosition(b, c);
    if BitBlock(start, c) == BitBlock(start, b) && BitByte(c) == BitByte(b) {
      SetBitAt(blocks[BitBlock(start, b)][BitByte(b)], BitIndex(b), BitIndex(c));
    }
  }

  lemma UnmarkAt(blocks: seq<Block>, start: nat, b: nat, c: nat)
    requires BitBlock(start, b) < |blocks|
    ensures Marked(Unmark(blocks, start, b), start, c) <==> c != b && Marked(blocks, start, c)
  {
    BitPosition(b, c);
    if BitBlock(start, c) == BitBlock(start, b) && BitByte(c) == BitByte(b) {
      ClearBitAt(blocks[BitBlock(start, b)][BitByte(b)], BitIndex(b), BitIndex(c));
    }
  }
}
