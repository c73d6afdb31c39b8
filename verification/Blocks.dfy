/** Disk blocks as byte strings, with the little-endian 32-bit words that the
    log header, the inodes and the indirect blocks keep in them. */
module Blocks {
  import opened Words

  const BSIZE: nat := 512
  const WORDS_PER_BLOCK: nat := 128

  type Byte = x: int | 0 <= x < 256
  type Block = b: seq<Byte> | |b| == BSIZE witness ZERO_BLOCK

  type Disk = seq<Block>

  const ZERO_BLOCK: seq<Byte> := seq(BSIZE, _ => 0)

  function WordAt(b: Block, i: nat): (w: Word)
    requires i < WORDS_PER_BLOCK
  {
    var b0: int, b1: int, b2: int, b3: int := b[4 * i], b[4 * i + 1], b[4 * i + 2], b[4 * i + 3];
    b0 + 0x100 * b1 + 0x1_0000 * b2 + 0x100_0000 * b3
  }

  function WordBytes(w: Word): (s: seq<Byte>)
    ensures |s| == 4
  {
    [w % 0x100, w / 0x100 % 0x100, w / 0x1_0000 % 0x100, w / 0x100_0000]
  }

  function PutWord(b: Block, i: nat, w: Word): (r: Block)
    requires i < WORDS_PER_BLOCK
  {
    b[..4 * i] + WordBytes(w) + b[4 * i + 4..]
  }

  /** Storing a word and loading it back gives the word; every other word is kept. */
  lemma PutWordAt(b: Block, i: nat, w: Word, j: nat)
    requires i < WORDS_PER_BLOCK && j < WORDS_PER_BLOCK
    ensures WordAt(PutWord(b, i, w), j) == if i == j then w else WordAt(b, j)
  {
    var r := PutWord(b, i, w);
    if i == j {
      assert r[4 * i..4 * i + 4] == WordBytes(w);
      assert r[4 * i] == w % 0x100 && r[4 * i + 1] == w / 0x100 % 0x100;
      assert r[4 * i + 2] == w / 0x1_0000 % 0x100 && r[4 * i + 3] == w / 0x100_0000;
      FourBytes(w);
    } else {
      assert forall k :: 4 * j <= k < 4 * j + 4 ==> r[k] == b[k];
    }
  }

  lemma FourBytes(w: Word)
    ensures w % 0x100 + 0x100 * (w / 0x100 % 0x100) + 0x1_0000 * (w / 0x1_0000 % 0x100) + 0x100_0000 * (w / 0x100_0000) == w
  {
    assert w / 0x100 / 0x100 == w / 0x1_0000 && w / 0x1_0000 / 0x100 == w / 0x100_0000;
  }

  /** A word is w exactly when its four bytes are those that mkfs writes for w, lowest first. */
  lemma WordFormat(b: Block, i: nat, w: Word)
    requires i < WORDS_PER_BLOCK
    ensures WordAt(b, i) == w <==>
            b[4 * i] == w % 256 && b[4 * i + 1] == w / 256 % 256 && b[4 * i + 2] == w / 65536 % 256 && b[4 * i + 3] == w / 16777216
  {
    FourBytes(w);
    var v, b1: int, b2: int, b3: int := WordAt(b, i), b[4 * i + 1], b[4 * i + 2], b[4 * i + 3];
    assert v % 256 == b[4 * i] && v / 256 == b1 + 256 * (b2 + 256 * b3);
    assert v / 65536 == b2 + 256 * b3 && v / 16777216 == b3;
  }

  function PutWords(b: Block, i: nat, ws: seq<Word>): (r: Block)
    requires i + |ws| <= WORDS_PER_BLOCK
    decreases |ws|
  {
    if ws == [] then b else PutWords(PutWord(b, i, ws[0]), i + 1, ws[1..])
  }

  lemma {:induction false} PutWordsAt(b: Block, i: nat, ws: seq<Word>, j: nat)
    requires i + |ws| <= WORDS_PER_BLOCK && j < WORDS_PER_BLOCK
    ensures WordAt(PutWords(b, i, ws), j) == if i <= j < i + |ws| then ws[j - i] else WordAt(b, j)
    decreases |ws|
  {
    if ws != [] {
      PutWordsAt(PutWord(b, i, ws[0]), i + 1, ws[1..], j);
      PutWordAt(b, i, ws[0], j);
    }
  }
}
