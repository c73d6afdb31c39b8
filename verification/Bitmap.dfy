/** The free-block bitmap of fs.c, down to its bits. Setting and clearing one bit of a byte is
    written by halving, which is what |= and &= ~ with a one-bit mask amount to. */
module Bitmap {
  import opened Blocks

  const BPB: nat := 4096

  predicate Bit(x: nat, k: nat)
    decreases k
  {
    if k == 0 then x % 2 == 1 else Bit(x / 2, k - 1)
  }

  function WithBit(x: nat, k: nat, on: bool): (y: nat)
    decreases k
  {
    if k == 0 then x / 2 * 2 + (if on then 1 else 0) else 2 * WithBit(x / 2, k - 1, on) + x % 2
  }

  lemma {:induction false} BitOfWith(x: nat, k: nat, on: bool, j: nat)
    ensures Bit(WithBit(x, k, on), j) == if j == k then on else Bit(x, j)
    decreases k
  {
    var y := WithBit(x, k, on);
    if k == 0 {
      assert y / 2 == x / 2;
    } else {
      assert y / 2 == WithBit(x / 2, k - 1, on) && y % 2 == x % 2;
      if j > 0 {
        BitOfWith(x / 2, k - 1, on, j - 1);
      }
    }
  }

  /** Two to the n. */
  function Top(n: nat): (p: nat)
    ensures p >= 1
  {
    if n == 0 then 1 else 2 * Top(n - 1)
  }

  /** Bit k weighs two to the k: turning it on or off adds or takes away that much. */
  lemma {:induction false} WithBitValue(x: nat, k: nat, on: bool)
    ensures WithBit(x, k, on) == if Bit(x, k) == on then x else if on then x + Top(k) else x - Top(k)
    decreases k
  {
    if k > 0 {
      WithBitValue(x / 2, k - 1, on);
      assert x == 2 * (x / 2) + x % 2;
    }
  }

  lemma {:induction false} WithBitFits(x: nat, k: nat, on: bool, n: nat)
    requires k < n && x < Top(n)
    ensures WithBit(x, k, on) < Top(n)
    decreases k
  {
    var half := Top(n - 1);
    assert Top(n) == 2 * half;
    assert x / 2 < half;
    if k > 0 {
      WithBitFits(x / 2, k - 1, on, n - 1);
      assert WithBit(x, k, on) == 2 * WithBit(x / 2, k - 1, on) + x % 2;
    }
  }

  function ByteWith(x: Byte, k: nat, on: bool): (y: Byte)
    requires k < 8
  {
    assert Top(4) == 16;
    assert Top(8) == 256;
    WithBitFits(x, k, on, 8);
    WithBit(x, k, on)
  }

  /** Block of the bitmap, byte in the block and bit in the byte for block number a. */
  function BlockOf(start: nat, a: nat): (b: nat) { start + a / BPB }

  predicate InUse(d: Disk, start: nat, a: nat)
    requires BlockOf(start, a) < |d|
  {
    Bit(d[BlockOf(start, a)][a % BPB / 8], a % 8)
  }

  function Mark(d: Disk, start: nat, a: nat, on: bool): (r: Disk)
    requires BlockOf(start, a) < |d|
    ensures |r| == |d|
  {
    var b := BlockOf(start, a);
    d[b := d[b][a % BPB / 8 := ByteWith(d[b][a % BPB / 8], a % 8, on)]]
  }

  /** Marking a block changes its own bit and no other, and no other disk block. */
  lemma InUseOfMark(d: Disk, start: nat, a: nat, on: bool, c: nat)
    requires BlockOf(start, a) < |d| && BlockOf(start, c) < |d|
    ensures InUse(Mark(d, start, a, on), start, c) == if c == a then on else InUse(d, start, c)
  {
    var b := BlockOf(start, a);
    BitOfWith(d[b][a % BPB / 8], a % 8, on, c % 8);
    if BlockOf(start, c) == b && a % BPB / 8 == c % BPB / 8 && a % 8 == c % 8 {
      SameBit(a, c);
    }
  }

  lemma SameBit(a: nat, c: nat)
    requires a / BPB == c / BPB && a % BPB / 8 == c % BPB / 8 && a % 8 == c % 8
    ensures a == c
  {
    var q := a / BPB;
    assert a == 4096 * q + a % BPB && c == 4096 * q + c % BPB;
    var p := a % BPB / 8;
    assert a % BPB == 8 * p + a % BPB % 8 && c % BPB == 8 * p + c % BPB % 8;
  }
}
