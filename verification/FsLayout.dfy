/** The on-disk format of fs.h and the block map of fs.c: what an inode's thirteen addresses and
    its indirect block say, and the ledger that ties the bitmap to the blocks they reach. */
module FsLayout {
  import opened Blocks
  import opened Words
  import opened Bitmap

  const NDIRECT: nat := 12
  const NINDIRECT: nat := 128
  const MAXFILE: nat := 140
  const MAXBYTES: nat := 71680
  const IPB: nat := 8
  const DINODE_WORDS: nat := 16

  type Half = x: int | 0 <= x < 0x1_0000
  type Addrs = a: seq<Word> | |a| == 13 witness [0, 0, 0, 0, 0, 0, 0, 0, 0, 0, 0, 0, 0]

  /** nmeta, the first data block, is what mkfs works out from the other fields. */
  datatype Super = Super(size: nat, ninodes: nat, inodestart: nat, bmapstart: nat, nmeta: nat) {
    predicate Valid() {
      && 0 < inodestart
      && inodestart + ninodes / IPB + 1 <= bmapstart
      && bmapstart + size / BPB + 1 <= nmeta <= size < 0x1_0000_0000
    }
  }

  datatype Dinode = Dinode(typ: Half, major: Half, minor: Half, nlink: Half, size: Word, addrs: Addrs)

  // ---- struct dinode, sixteen words ----

  function InodeWords(n: Dinode): (ws: seq<Word>)
    ensures |ws| == DINODE_WORDS
  {
    [n.typ + 0x1_0000 * n.major, n.minor + 0x1_0000 * n.nlink, n.size] + n.addrs
  }

  function InodeOf(ws: seq<Word>): (n: Dinode)
    requires |ws| == DINODE_WORDS
  {
    Dinode(ws[0] % 0x1_0000, ws[0] / 0x1_0000, ws[1] % 0x1_0000, ws[1] / 0x1_0000, ws[2], ws[3..])
  }

  lemma InodeOfWords(n: Dinode)
    ensures InodeOf(InodeWords(n)) == n
  {
    assert InodeWords(n)[3..] == n.addrs;
  }

  function InodeAt(b: Block, k: nat): (n: Dinode)
    requires k < IPB
  {
    InodeOf(WordsAt(b, DINODE_WORDS * k, DINODE_WORDS))
  }

  function WordsAt(b: Block, i: nat, n: nat): (ws: seq<Word>)
    requires i + n <= WORDS_PER_BLOCK
    decreases n
    ensures |ws| == n
  {
    if n == 0 then [] else [WordAt(b, i)] + WordsAt(b, i + 1, n - 1)
  }

  lemma {:induction false} WordsAtIs(b: Block, i: nat, n: nat, k: nat)
    requires i + n <= WORDS_PER_BLOCK && k < n
    ensures WordsAt(b, i, n)[k] == WordAt(b, i + k)
    decreases n
  {
    if k > 0 {
      WordsAtIs(b, i + 1, n - 1, k - 1);
    }
  }

  /** Storing an inode in its slot and loading it back gives the same inode, and the seven
      neighbours in the block are kept. */
  lemma InodeRoundTrip(b: Block, k: nat, n: Dinode, j: nat)
    requires k < IPB && j < IPB
    ensures InodeAt(PutWords(b, DINODE_WORDS * k, InodeWords(n)), j) == if j == k then n else InodeAt(b, j)
  {
    WordsOfPut(b, DINODE_WORDS * k, InodeWords(n), DINODE_WORDS * j);
    InodeOfWords(n);
  }

  lemma WordsOfPut(b: Block, i: nat, ws: seq<Word>, j: nat)
    requires i + |ws| <= WORDS_PER_BLOCK && j + |ws| <= WORDS_PER_BLOCK
    requires i == j || i + |ws| <= j || j + |ws| <= i
    ensures WordsAt(PutWords(b, i, ws), j, |ws|) == if i == j then ws else WordsAt(b, j, |ws|)
  {
    var got := WordsAt(PutWords(b, i, ws), j, |ws|);
    forall k: nat | k < |ws|
      ensures got[k] == if i == j then ws[k] else WordsAt(b, j, |ws|)[k]
    {
      PutWordsAt(b, i, ws, j + k);
      WordsAtIs(PutWords(b, i, ws), j, |ws|, k);
      WordsAtIs(b, j, |ws|, k);
    }
    assert got == if i == j then ws else WordsAt(b, j, |ws|);
  }

  /** Two bytes, lower one first. */
  function ShortAt(b: Block, o: nat): (x: int)
    requires o + 1 < BSIZE
  {
    var lo: int, hi: int := b[o], b[o + 1];
    lo + 256 * hi
  }

  /** Where the fields of inode k lie in its block: 64 bytes each, with the four shorts first, then the
      size, then the addresses. */
  lemma InodeFormat(b: Block, k: nat)
    requires k < IPB
    ensures var n := InodeAt(b, k);
            && n.typ == ShortAt(b, 64 * k) && n.major == ShortAt(b, 64 * k + 2)
            && n.minor == ShortAt(b, 64 * k + 4) && n.nlink == ShortAt(b, 64 * k + 6)
            && n.size == WordAt(b, 16 * k + 2)
    ensures forall j :: 0 <= j < 13 ==> InodeAt(b, k).addrs[j] == WordAt(b, 16 * k + 3 + j)
  {
    var ws := WordsAt(b, DINODE_WORDS * k, DINODE_WORDS);
    forall j: nat | j < DINODE_WORDS
      ensures ws[j] == WordAt(b, 16 * k + j)
    {
      WordsAtIs(b, DINODE_WORDS * k, DINODE_WORDS, j);
    }
    assert ws[0] == WordAt(b, 16 * k) && ws[1] == WordAt(b, 16 * k + 1);
    Halved(b, 16 * k);
    Halved(b, 16 * k + 1);
    assert ws[2] == WordAt(b, 16 * k + 2);
    forall j | 0 <= j < 13
      ensures InodeAt(b, k).addrs[j] == WordAt(b, 16 * k + 3 + j)
    {
      assert ws[3..][j] == ws[3 + j];
    }
  }

  lemma Halved(b: Block, i: nat)
    requires i < WORDS_PER_BLOCK
    ensures WordAt(b, i) % 0x1_0000 == ShortAt(b, 4 * i) && WordAt(b, i) / 0x1_0000 == ShortAt(b, 4 * i + 2)
  {
  }

  function OnDisk(sb: Super, d: Disk, i: nat): (n: Dinode)
    requires sb.inodestart + i / IPB < |d|
  {
    InodeAt(d[sb.inodestart + i / IPB], i % IPB)
  }

  /** iupdate's write: the inode's words take their place in the table. */
  function Stored(sb: Super, d: Disk, i: nat, n: Dinode): (e: Disk)
    requires sb.inodestart + i / IPB < |d|
    ensures |e| == |d|
  {
    var ib := sb.inodestart + i / IPB;
    d[ib := PutWords(d[ib], DINODE_WORDS * (i % IPB), InodeWords(n))]
  }

  lemma SamePlace(i: nat, k: nat)
    ensures i % IPB < IPB && k % IPB < IPB
    ensures k / IPB == i / IPB && k % IPB == i % IPB <==> k == i
  {
  }

  lemma StoredElsewhere(sb: Super, d: Disk, i: nat, n: Dinode, k: nat)
    requires sb.inodestart + i / IPB < |d| && sb.inodestart + k / IPB < |d| && k / IPB != i / IPB
    ensures OnDisk(sb, Stored(sb, d, i, n), k) == OnDisk(sb, d, k)
  {
    assert Stored(sb, d, i, n)[sb.inodestart + k / IPB] == d[sb.inodestart + k / IPB];
  }

  lemma StoredHere(sb: Super, d: Disk, i: nat, n: Dinode, k: nat)
    requires sb.inodestart + i / IPB < |d| && k / IPB == i / IPB
    ensures OnDisk(sb, Stored(sb, d, i, n), k) == if k % IPB == i % IPB then n else OnDisk(sb, d, k)
  {
    var ib := sb.inodestart + i / IPB;
    assert Stored(sb, d, i, n)[ib] == PutWords(d[ib], DINODE_WORDS * (i % IPB), InodeWords(n));
    InodeRoundTrip(d[ib], i % IPB, n, k % IPB);
  }

  lemma OnDiskStored(sb: Super, d: Disk, i: nat, n: Dinode, k: nat)
    requires sb.inodestart + i / IPB < |d| && sb.inodestart + k / IPB < |d|
    ensures OnDisk(sb, Stored(sb, d, i, n), k) == if k == i then n else OnDisk(sb, d, k)
  {
    SamePlace(i, k);
    if k / IPB == i / IPB {
      StoredHere(sb, d, i, n, k);
    } else {
      StoredElsewhere(sb, d, i, n, k);
    }
  }

  // ---- the block map ----

  /** An inode has 141 places that can hold a block number: positions 0 to 11 are the direct
      addresses, 12 is the address of the indirect block, 13 to 140 are the words in it. */
  const POSITIONS: nat := 141

  function SlotAddr(d: Disk, n: Dinode, p: nat): (a: Word)
    requires p < POSITIONS
  {
    if p <= NDIRECT then n.addrs[p]
    else if n.addrs[NDIRECT] == 0 || n.addrs[NDIRECT] >= |d| then 0
    else WordAt(d[n.addrs[NDIRECT]], p - 13)
  }

  /** Where the address of the file's bn-th data block is kept. */
  function DataPos(bn: nat): (p: nat) { if bn < NDIRECT then bn else bn + 1 }

  function FileByte(d: Disk, n: Dinode, j: nat): (x: Byte)
  {
    if j >= MAXBYTES then 0 else
      var a := SlotAddr(d, n, DataPos(j / BSIZE));
      if a == 0 || a >= |d| then 0 else d[a][j % BSIZE]
  }

  /** The file as a byte sequence; a place without a block reads as zeros. */
  ghost function Contents(d: Disk, n: Dinode): (s: seq<Byte>)
    ensures |s| == n.size
  {
    FirstBytes(d, n, n.size)
  }

  ghost function FirstBytes(d: Disk, n: Dinode, k: nat): (s: seq<Byte>)
    ensures |s| == k
  {
    if k == 0 then [] else FirstBytes(d, n, k - 1) + [FileByte(d, n, k - 1)]
  }

  lemma {:induction false} FirstBytesAt(d: Disk, n: Dinode, k: nat, j: nat)
    requires j < k
    ensures FirstBytes(d, n, k)[j] == FileByte(d, n, j)
    decreases k
  {
    if j < k - 1 {
      FirstBytesAt(d, n, k - 1, j);
    }
  }

  lemma ContentsAt(d: Disk, n: Dinode, j: nat)
    requires j < n.size
    ensures Contents(d, n)[j] == FileByte(d, n, j)
  {
    FirstBytesAt(d, n, n.size, j);
  }

  ghost predicate NoHoles(d: Disk, n: Dinode) {
    forall bn: nat :: bn < MAXFILE && bn * BSIZE < n.size ==> SlotAddr(d, n, DataPos(bn)) != 0
  }

  // ---- ownership ----

  datatype Slot = Slot(inum: nat, pos: nat)

  ghost predicate Claims(sb: Super, d: Disk, ns: seq<Dinode>, owner: map<nat, Slot>) {
    forall i: nat, p: nat {:trigger SlotAddr(d, ns[i], p)} ::
      i < |ns| && p < POSITIONS && SlotAddr(d, ns[i], p) != 0 ==>
        SlotAddr(d, ns[i], p) in owner && owner[SlotAddr(d, ns[i], p)] == Slot(i, p)
  }

  ghost predicate Held(sb: Super, d: Disk, ns: seq<Dinode>, owner: map<nat, Slot>) {
    forall a: nat :: a in owner ==>
      && sb.nmeta <= a < sb.size
      && owner[a].inum < |ns| && owner[a].pos < POSITIONS
      && SlotAddr(d, ns[owner[a].inum], owner[a].pos) == a
  }

  /** Blocks taken from the bitmap that no inode points at yet, or any more. */
  ghost predicate Loose(sb: Super, owner: map<nat, Slot>, pending: set<nat>) {
    forall a: nat :: a in pending ==> sb.nmeta <= a < sb.size && a !in owner
  }

  ghost predicate Marked(sb: Super, d: Disk, owner: map<nat, Slot>, pending: set<nat>)
    requires sb.Valid() && |d| == sb.size
  {
    forall a: nat :: a < sb.size ==>
      (InUse(d, sb.bmapstart, a) <==> a < sb.nmeta || a in owner || a in pending)
  }

  ghost predicate Good(sb: Super, d: Disk, ns: seq<Dinode>, owner: map<nat, Slot>, pending: set<nat>) {
    && sb.Valid() && |d| == sb.size && |ns| == sb.ninodes
    && Claims(sb, d, ns, owner) && Held(sb, d, ns, owner)
    && Loose(sb, owner, pending) && Marked(sb, d, owner, pending)
  }

  /** Every block number is kept in at most one place of one inode. */
  lemma OnePath(sb: Super, d: Disk, ns: seq<Dinode>, owner: map<nat, Slot>, i: nat, p: nat, k: nat, q: nat)
    requires Claims(sb, d, ns, owner)
    requires i < |ns| && k < |ns| && p < POSITIONS && q < POSITIONS
    requires SlotAddr(d, ns[i], p) == SlotAddr(d, ns[k], q) != 0
    ensures i == k && p == q
  {
    assert owner[SlotAddr(d, ns[i], p)] == Slot(i, p);
  }

  ghost predicate Reached(d: Disk, ns: seq<Dinode>, a: nat) {
    exists i: nat, p: nat :: i < |ns| && p < POSITIONS && SlotAddr(d, ns[i], p) == a
  }

  /** The set bits are exactly the metadata blocks and the blocks some inode reaches. */
  lemma BitsAreReached(sb: Super, d: Disk, ns: seq<Dinode>, owner: map<nat, Slot>, a: nat)
    requires Good(sb, d, ns, owner, {}) && a < sb.size
    ensures InUse(d, sb.bmapstart, a) <==> a < sb.nmeta || Reached(d, ns, a)
  {
    if Reached(d, ns, a) && a >= sb.nmeta {
      var i: nat, p: nat :| i < |ns| && p < POSITIONS && SlotAddr(d, ns[i], p) == a;
      assert a in owner;
    }
    if a in owner {
      assert SlotAddr(d, ns[owner[a].inum], owner[a].pos) == a;
    }
  }

  // ---- what a block write, a new link and a dropped link do to the ledger ----

  /** Only a write to an indirect block can change an address. */
  lemma WriteKeepsSlots(sb: Super, d: Disk, ns: seq<Dinode>, owner: map<nat, Slot>, a: nat, x: Block,
                        i: nat, p: nat)
    requires Claims(sb, d, ns, owner) && a < |d| && !(a in owner && owner[a].pos == NDIRECT)
    requires i < |ns| && p < POSITIONS
    ensures SlotAddr(d[a := x], ns[i], p) == SlotAddr(d, ns[i], p)
  {
    assert SlotAddr(d, ns[i], NDIRECT) == ns[i].addrs[NDIRECT];
  }

  lemma WriteKeepsLedger(sb: Super, d: Disk, ns: seq<Dinode>, owner: map<nat, Slot>, a: nat, x: Block)
    requires Claims(sb, d, ns, owner) && Held(sb, d, ns, owner)
    requires a < |d| && !(a in owner && owner[a].pos == NDIRECT)
    ensures Claims(sb, d[a := x], ns, owner) && Held(sb, d[a := x], ns, owner)
  {
    var e := d[a := x];
    forall i: nat, p: nat | i < |ns| && p < POSITIONS
      ensures SlotAddr(e, ns[i], p) == SlotAddr(d, ns[i], p)
    {
      WriteKeepsSlots(sb, d, ns, owner, a, x, i, p);
    }
    assert Claims(sb, e, ns, owner);
    assert Held(sb, e, ns, owner);
  }

  /** A block outside the bitmap can be written without touching a bit. */
  lemma WriteKeepsMarks(sb: Super, d: Disk, owner: map<nat, Slot>, pending: set<nat>, a: nat, x: Block)
    requires sb.Valid() && |d| == sb.size && Marked(sb, d, owner, pending)
    requires a < |d| && (a < sb.bmapstart || a >= sb.nmeta)
    ensures Marked(sb, d[a := x], owner, pending)
  {
    var e := d[a := x];
    forall c: nat | c < sb.size
      ensures InUse(e, sb.bmapstart, c) == InUse(d, sb.bmapstart, c)
    {
      assert c / BPB <= sb.size / BPB;
    }
    assert Marked(sb, e, owner, pending);
  }

  lemma WriteKeepsGood(sb: Super, d: Disk, ns: seq<Dinode>, owner: map<nat, Slot>, pending: set<nat>,
                       a: nat, x: Block)
    requires Good(sb, d, ns, owner, pending) && a < |d| && (a < sb.bmapstart || a >= sb.nmeta)
    requires !(a in owner && owner[a].pos == NDIRECT)
    ensures Good(sb, d[a := x], ns, owner, pending)
  {
    WriteKeepsLedger(sb, d, ns, owner, a, x);
    WriteKeepsMarks(sb, d, owner, pending, a, x);
  }

  /** Setting or clearing the bit of a block nobody points at moves it into or out of pending. */
  lemma MarkKeepsGood(sb: Super, d: Disk, ns: seq<Dinode>, owner: map<nat, Slot>, pending: set<nat>,
                      a: nat, on: bool)
    requires Good(sb, d, ns, owner, pending) && sb.nmeta <= a < sb.size && a !in owner
    ensures BlockOf(sb.bmapstart, a) < sb.nmeta
    ensures Good(sb, Mark(d, sb.bmapstart, a, on), ns, owner, if on then pending + {a} else pending - {a})
  {
    var b := BlockOf(sb.bmapstart, a);
    assert a / BPB <= sb.size / BPB;
    var e := Mark(d, sb.bmapstart, a, on);
    WriteKeepsLedger(sb, d, ns, owner, b, e[b]);
    assert e == d[b := e[b]];
    MarkKeepsMarks(sb, d, owner, pending, a, on);
  }

  lemma MarkKeepsMarks(sb: Super, d: Disk, owner: map<nat, Slot>, pending: set<nat>, a: nat, on: bool)
    requires sb.Valid() && |d| == sb.size && Marked(sb, d, owner, pending)
    requires sb.nmeta <= a < sb.size && a !in owner && BlockOf(sb.bmapstart, a) < |d|
    ensures Marked(sb, Mark(d, sb.bmapstart, a, on), owner, if on then pending + {a} else pending - {a})
  {
    var e := Mark(d, sb.bmapstart, a, on);
    forall c: nat | c < sb.size
      ensures InUse(e, sb.bmapstart, c) == if c == a then on else InUse(d, sb.bmapstart, c)
    {
      assert c / BPB <= sb.size / BPB;
      InUseOfMark(d, sb.bmapstart, a, on, c);
    }
  }


  function Pointing(n: Dinode, p: nat, a: Word): (r: Dinode)
    requires p <= NDIRECT
  {
    n.(addrs := n.addrs[p := a])
  }

  predicate Blank(b: Block) { forall k :: 0 <= k < BSIZE ==> b[k] == 0 }

  lemma BlankWord(b: Block, k: nat)
    requires Blank(b) && k < WORDS_PER_BLOCK
    ensures WordAt(b, k) == 0
  {
  }

  /** Storing a pending block in an empty place of an inode: the other places keep what they had.
      A new indirect block must be blank. */
  lemma LinkSlots(sb: Super, d: Disk, n: Dinode, p: nat, a: Word, q: nat)
    requires p <= NDIRECT && q < POSITIONS && n.addrs[p] == 0
    requires p == NDIRECT ==> a < |d| && Blank(d[a])
    ensures SlotAddr(d, Pointing(n, p, a), q) == if q == p then a else SlotAddr(d, n, q)
  {
    if p == NDIRECT && q > NDIRECT {
      BlankWord(d[a], q - 13);
    }
  }

  /** When exactly one empty place has come to hold a block nobody held, the ledger grows by it. */
  lemma NewLink(sb: Super, d: Disk, ns: seq<Dinode>, e: Disk, ms: seq<Dinode>, owner: map<nat, Slot>,
                i: nat, p: nat, a: nat)
    requires Claims(sb, d, ns, owner) && Held(sb, d, ns, owner)
    requires sb.nmeta <= a < sb.size && a !in owner && i < |ns| == |ms| && p < POSITIONS
    requires SlotAddr(d, ns[i], p) == 0 && sb.nmeta > 0
    requires forall k: nat, q: nat :: k < |ns| && q < POSITIONS ==>
      SlotAddr(e, ms[k], q) == if k == i && q == p then a else SlotAddr(d, ns[k], q)
    ensures Claims(sb, e, ms, owner[a := Slot(i, p)]) && Held(sb, e, ms, owner[a := Slot(i, p)])
  {
    var after := owner[a := Slot(i, p)];
    forall c: nat | c in after
      ensures sb.nmeta <= c < sb.size && after[c].inum < |ms| && after[c].pos < POSITIONS
      ensures SlotAddr(e, ms[after[c].inum], after[c].pos) == c
    {
      assert c != a ==> SlotAddr(d, ns[owner[c].inum], owner[c].pos) == c;
      assert SlotAddr(e, ms[i], p) == a;
    }
    assert Held(sb, e, ms, after);
  }

  lemma LinkKeepsGood(sb: Super, d: Disk, ns: seq<Dinode>, owner: map<nat, Slot>, pending: set<nat>,
                      i: nat, p: nat, a: nat)
    requires Good(sb, d, ns, owner, pending) && a in pending
    requires i < |ns| && p <= NDIRECT && ns[i].addrs[p] == 0
    requires p == NDIRECT ==> Blank(d[a])
    ensures Good(sb, d, ns[i := Pointing(ns[i], p, a)], owner[a := Slot(i, p)], pending - {a})
  {
    var ms := ns[i := Pointing(ns[i], p, a)];
    forall k: nat, q: nat | k < |ns| && q < POSITIONS
      ensures SlotAddr(d, ms[k], q) == if k == i && q == p then a else SlotAddr(d, ns[k], q)
    {
      if k == i {
        LinkSlots(sb, d, ns[i], p, a, q);
      }
    }
    NewLink(sb, d, ns, d, ms, owner, i, p, a);
  }

  /** The same for a place inside the indirect block. */
  lemma LeafSlots(sb: Super, d: Disk, ns: seq<Dinode>, owner: map<nat, Slot>, i: nat, k: nat, a: Word,
                  m: nat, q: nat)
    requires Claims(sb, d, ns, owner) && i < |ns| && k < NINDIRECT && m < |ns| && q < POSITIONS
    requires 0 < ns[i].addrs[NDIRECT] < |d|
    ensures var ind := ns[i].addrs[NDIRECT];
            SlotAddr(d[ind := PutWord(d[ind], k, a)], ns[m], q)
              == if m == i && q == 13 + k then a else SlotAddr(d, ns[m], q)
  {
    assert SlotAddr(d, ns[i], NDIRECT) == ns[i].addrs[NDIRECT];
    assert SlotAddr(d, ns[m], NDIRECT) == ns[m].addrs[NDIRECT];
    if q > NDIRECT {
      PutWordAt(d[ns[i].addrs[NDIRECT]], k, a, q - 13);
    }
  }

  lemma LeafKeepsGood(sb: Super, d: Disk, ns: seq<Dinode>, owner: map<nat, Slot>, pending: set<nat>,
                      i: nat, k: nat, a: nat)
    requires Good(sb, d, ns, owner, pending) && a in pending && i < |ns| && k < NINDIRECT
    requires ns[i].addrs[NDIRECT] != 0 && SlotAddr(d, ns[i], 13 + k) == 0
    ensures var ind := ns[i].addrs[NDIRECT];
            && sb.nmeta <= ind < sb.size
            && Good(sb, d[ind := PutWord(d[ind], k, a)], ns, owner[a := Slot(i, 13 + k)], pending - {a})
  {
    var ind := ns[i].addrs[NDIRECT];
    assert SlotAddr(d, ns[i], NDIRECT) == ind;
    var e := d[ind := PutWord(d[ind], k, a)];
    forall m: nat, q: nat | m < |ns| && q < POSITIONS
      ensures SlotAddr(e, ns[m], q) == if m == i && q == 13 + k then a else SlotAddr(d, ns[m], q)
    {
      LeafSlots(sb, d, ns, owner, i, k, a, m, q);
    }
    NewLink(sb, d, ns, e, ns, owner, i, 13 + k, a);
    WriteKeepsMarks(sb, d, owner, pending, ind, PutWord(d[ind], k, a));
    assert Marked(sb, e, owner[a := Slot(i, 13 + k)], pending - {a});
  }
}
