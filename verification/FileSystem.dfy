/** The block allocator and the inode layer of fs.c, over the blocks as the log layer shows them:
    a bread returns the block last given to log_write. */
module FileSystem {
  import opened Blocks
  import opened Words
  import opened Bitmap
  import opened FsLayout
  import opened FileBytes
  import opened Truncate
  import opened Supply
  import opened Counting
  import L = LogLayout

  lemma BitPlace(base: nat, bi: nat)
    requires base % BPB == 0 && bi < BPB
    ensures (base + bi) / BPB == base / BPB && (base + bi) % BPB == bi && (base + bi) % 8 == bi % 8
  {
    assert base == 8 * (512 * (base / BPB));
  }

  const T_DIR: nat := 1
  const T_DEV: nat := 3

  /** m bytes of a block from place o on. */
  function Piece(b: Block, o: nat, m: nat): (s: seq<Byte>)
    requires o + m <= BSIZE
    ensures |s| == m
  {
    b[o..o + m]
  }

  /** What a call returns: a count, -1, whatever the device driver returns, or a panic. */
  datatype Outcome = Done(n: nat) | Failed | Device | Panic

  /** The number of the first block that n bytes from off do not reach. */
  function Beyond(off: nat, n: nat): (bn: nat) {
    if n == 0 then off / BSIZE else (off + n - 1) / BSIZE + 1
  }

  /** The places bmap looks at for n bytes from off. */
  ghost function Visited(off: nat, n: nat): (ps: set<nat>) { PlacesOf(off / BSIZE, Beyond(off, n)) }

  lemma Wraps(off: Word, n: Word)
    ensures (off + n) % 0x1_0000_0000 < off <==> off + n >= 0x1_0000_0000
  {
  }

  lemma LeafUnmoved(sb: Super, v: View, mid: View, i: nat, k: nat)
    requires Mapped(sb, v, mid, i, {NDIRECT}) && k < NINDIRECT
    ensures i < |v.inodes| == |mid.inodes| && Need(mid, i, 13 + k) == Need(v, i, 13 + k)
    ensures SlotAddr(mid.disk, mid.inodes[i], 13 + k) == SlotAddr(v.disk, v.inodes[i], 13 + k)
  {
  }

  lemma TwoLinks(sb: Super, v: View, mid: View, w: View, i: nat, k: nat)
    requires Mapped(sb, v, mid, i, {NDIRECT}) && Mapped(sb, mid, w, i, Places(NDIRECT + k))
    ensures Mapped(sb, v, w, i, Places(NDIRECT + k))
  {
    MappedTwice(sb, v, mid, w, i, {NDIRECT}, Places(NDIRECT + k));
    assert {NDIRECT} + Places(NDIRECT + k) == Places(NDIRECT + k);
  }

  lemma BothFilled(sb: Super, w: View, i: nat, bn: nat)
    requires Good(sb, w.disk, w.inodes, w.owner, {})
    requires i < |w.inodes| && bn < MAXFILE && SlotAddr(w.disk, w.inodes[i], DataPos(bn)) != 0
    requires bn >= NDIRECT ==> w.inodes[i].addrs[NDIRECT] != 0
    ensures Filled(w, i, Places(bn)) && SlotAddr(w.disk, w.inodes[i], DataPos(bn)) < |w.disk|
  {
  }

  lemma TwoLogged(d: set<nat>, a: nat, b: nat)
    ensures |d + {a}| <= |d| + 1 && |d + {a, b}| <= |d| + 2
  {
    UnionCount(d, {a});
    UnionCount(d + {a}, {b});
    assert d + {a, b} == d + {a} + {b};
  }

  /** What the blocks in reach of n bytes from off lack. */
  ghost function Owed(v: View, i: nat, off: nat, n: nat): (k: nat)
    requires i < |v.inodes| && off + n <= MAXBYTES
  {
    Debt(v, i, off / BSIZE, Beyond(off, n))
  }

  lemma AffordsVisited(sb: Super, v: View, i: nat, off: nat, n: nat, open: nat)
    requires Good(sb, v.disk, v.inodes, v.owner, {}) && i < |v.inodes| && off + n <= MAXBYTES
    ensures Affords(sb, v, i, Visited(off, n), open) <==> CanPay(sb, v, Owed(v, i, off, n), open)
    ensures Lacking(v, i, Visited(off, n)) == {} <==> Owed(v, i, off, n) == 0
  {
    AffordsIs(sb, v, i, off / BSIZE, Beyond(off, n), open);
  }

  /** b is the lowest block whose bit is clear. */
  ghost predicate LowestClear(sb: Super, d: Disk, b: nat) {
    && sb.Valid() && |d| == sb.size && b < sb.size && !InUse(d, sb.bmapstart, b)
    && forall a: nat :: a < b ==> InUse(d, sb.bmapstart, a)
  }

  lemma TookBlock(sb: Super, d: Disk, ns: seq<Dinode>, owner: map<nat, Slot>, b: nat)
    requires Good(sb, d, ns, owner, {}) && LowestClear(sb, d, b)
    ensures BlockOf(sb.bmapstart, b) < |d|
    ensures Took(sb, d, ns, owner, Mark(d, sb.bmapstart, b, true)[b := ZERO_BLOCK], b)
  {
    assert b / BPB <= sb.size / BPB;
    var bm: nat, e: Disk := BlockOf(sb.bmapstart, b), Mark(d, sb.bmapstart, b, true);
    MarkKeepsGood(sb, d, ns, owner, {}, b, true);
    StrayWrite(sb, d, ns, owner, bm, e[bm]);
    assert e == d[bm := e[bm]] && {} + {b} == {b};
    WriteKeepsGood(sb, e, ns, owner, {b}, b, ZERO_BLOCK);
    StrayWrite(sb, e, ns, owner, b, ZERO_BLOCK);
    SameFilesTwice(d, ns, e, ns, e[b := ZERO_BLOCK], ns);
  }

  /** Data blocks in reach of n bytes from off. */
  function Spread(off: nat, n: nat): (k: nat) { if n == 0 then 0 else (off + n - 1) / BSIZE + 1 - off / BSIZE }

  /** The log has room for whatever reading or writing n bytes from off can log: bitmap blocks, the
      data blocks in reach, the indirect block and the inode's block, with a margin since
      log_write looks at the size before it searches the list. */
  ghost predicate Roomy(sb: Super, v: View, off: nat, n: nat, slots: nat) {
    |v.dirty| + BitmapCount(sb) + Spread(off, n) + 6 <= slots
  }

  class Fs {
    const sb: Super
    var disk: Disk
    /** The in-memory inodes, by number; iget and ilock are not modelled. */
    var inodes: seq<Dinode>
    ghost var owner: map<nat, Slot>
    /** Operations, of whatever process, that have called begin_op and not yet end_op. */
    var outstanding: nat
    /** Blocks given to log_write since the last commit, which is what the log's header lists. */
    var dirty: set<nat>
    /** How many blocks the log can hold: LOGSIZE or one less than the blocks it has on disk, whichever is less. */
    const slots: nat

    ghost predicate Valid()
      reads this
    {
      Good(sb, disk, inodes, owner, {})
    }

    /** The image mkfs starts from, before it adds files: every block zero and the bits of the
        metadata blocks set. mkfs insists that these fit the first bitmap block. */
    constructor (layout: Super, logSlots: nat)
      requires layout.Valid() && layout.nmeta < BPB
      ensures sb == layout && slots == logSlots && Valid() && owner == map[] && outstanding == 0 && dirty == {}
      ensures forall i: nat :: i < |inodes| ==> Synced(sb, Now(), i) && NoHoles(disk, inodes[i]) && inodes[i] == UNUSED
    {
      sb, slots := layout, logSlots;
      inodes := Unused(layout.ninodes);
      owner, dirty, outstanding := map[], {}, 0;
      var d := Copies(layout.size, ZERO_BLOCK);
      NoBits(layout, d);
      var i := 0;
      while i < layout.nmeta
        invariant i <= layout.nmeta && |d| == layout.size
        invariant forall b: nat :: b < layout.size && (b < layout.bmapstart || b >= layout.nmeta) ==> Blank(d[b])
        invariant BitsBelow(layout, d, i)
      {
        BitSet(layout, d, i);
        d := Mark(d, layout.bmapstart, i, true);
        i := i + 1;
      }
      disk := d;
      new;
      EmptyLedger(sb, disk, inodes);
      FreshTable(sb, disk, inodes);
    }

    ghost predicate Full()
      reads this
    {
      sb.Valid() && |disk| == sb.size && forall a: nat :: a < sb.size ==> InUse(disk, sb.bmapstart, a)
    }

    /** log_write: !ok is a panic, "too big a transaction" or "log_write outside of trans". It looks at
        the size before it searches the list, so a full log refuses even a block that is in it. */
    method LogWrite(b: nat, x: Block) returns (ok: bool)
      requires b < |disk|
      modifies `disk, `dirty
      ensures ok <==> outstanding >= 1 && |old(dirty)| < slots
      ensures ok ==> disk == old(disk)[b := x] && dirty == old(dirty) + {b}
      ensures !ok ==> disk == old(disk) && dirty == old(dirty)
    {
      ok := |dirty| < slots && outstanding >= 1;
      if ok {
        disk := disk[b := x];
        dirty := dirty + {b};
      }
    }

    /** Between commits the log lists nothing. */
    ghost predicate Committed()
      reads this
    {
      outstanding == 0 ==> dirty == {}
    }

    /** begin_op: waits until the log has room for another full operation. What it waits for is that
        other operations end, and the last of them to do so commits. */
    method BeginOp()
      requires Committed()
      modifies `outstanding, `dirty
      ensures 1 <= outstanding <= old(outstanding) + 1 && (dirty == old(dirty) || dirty == {})
      ensures |dirty| + outstanding * L.MAXOPBLOCKS <= L.LOGSIZE && |dirty| <= L.MAXOPBLOCKS
    {
      while |dirty| + (outstanding + 1) * L.MAXOPBLOCKS > L.LOGSIZE
        invariant Committed() && outstanding <= old(outstanding) && (dirty == old(dirty) || dirty == {})
        decreases outstanding
      {
        EndOp();
      }
      outstanding := outstanding + 1;
    }

    /** end_op: the last operation to end commits, and the log is empty. */
    method EndOp()
      requires outstanding >= 1
      modifies `outstanding, `dirty
      ensures Committed() && outstanding == old(outstanding) - 1
      ensures dirty == if outstanding == 0 then {} else old(dirty)
    {
      outstanding := outstanding - 1;
      if outstanding == 0 {
        dirty := {};
      }
    }

    /** Finds the lowest clear bit; found is false when there is none. */
    method FirstFree() returns (b: nat, found: bool)
      requires sb.Valid() && |disk| == sb.size
      ensures found <==> !Full()
      ensures found ==> LowestClear(sb, disk, b)
    {
      b, found := 0, false;
      var base := 0;
      while base < sb.size
        invariant base % BPB == 0
        invariant forall a: nat :: a < sb.size && a < base ==> InUse(disk, sb.bmapstart, a)
      {
        assert base / BPB <= sb.size / BPB;
        var bp := disk[BlockOf(sb.bmapstart, base)];
        var bi := 0;
        while bi < BPB && base + bi < sb.size
          invariant bi <= BPB
          invariant forall a: nat :: a < sb.size && a < base + bi ==> InUse(disk, sb.bmapstart, a)
        {
          BitPlace(base, bi);
          if !Bit(bp[bi / 8], bi % 8) {
            assert !InUse(disk, sb.bmapstart, base + bi);
            return base + bi, true;
          }
          bi := bi + 1;
        }
        base := base + BPB;
      }
    }

    /** balloc: !ok is a panic, for want of a free block or because log_write refuses one of the two
        blocks it is given. b is the lowest free block, if there is one. */
    method Balloc() returns (b: nat, ok: bool)
      requires Valid()
      modifies `disk, `dirty
      ensures !old(Full()) ==> LowestClear(sb, old(disk), b)
      ensures ok <==> outstanding >= 1 && !old(Full()) && |old(dirty) + {BlockOf(sb.bmapstart, b)}| < slots
      ensures ok ==> disk == Mark(old(disk), sb.bmapstart, b, true)[b := ZERO_BLOCK]
      ensures ok ==> Took(sb, old(disk), inodes, owner, disk, b)
      ensures ok ==> dirty == old(dirty) + {BlockOf(sb.bmapstart, b), b}
    {
      b, ok := FirstFree();
      if ok {
        TookBlock(sb, disk, inodes, owner, b);
        ok := Take(b, Mark(disk, sb.bmapstart, b, true)[b := ZERO_BLOCK]);
      }
    }

    /** balloc once it has found a free block, and bzero. */
    method Take(b: nat, ghost d: Disk) returns (ok: bool)
      requires BlockOf(sb.bmapstart, b) < |disk| && b < |disk|
      requires d == Mark(disk, sb.bmapstart, b, true)[b := ZERO_BLOCK]
      modifies `disk, `dirty
      ensures ok <==> outstanding >= 1 && |old(dirty) + {BlockOf(sb.bmapstart, b)}| < slots
      ensures ok ==> disk == d && dirty == old(dirty) + {BlockOf(sb.bmapstart, b), b}
    {
      var bm := BlockOf(sb.bmapstart, b);
      SubsetCount(dirty, dirty + {bm});
      ok := LogWrite(bm, disk[bm][b % BPB / 8 := ByteWith(disk[bm][b % BPB / 8], b % 8, true)]);
      if ok {
        ok := LogWrite(b, ZERO_BLOCK);
      }
    }

    ghost function Now(): (v: View)
      reads this
    {
      View(disk, inodes, owner, dirty)
    }

    /** bmap's step for an address kept in the inode: allocate it if it is missing. */
    method LinkInode(i: nat, p: nat, ghost v: View) returns (ok: bool, ghost x: View)
      requires Valid() && v == Now() && i < |inodes| && p <= NDIRECT
      modifies `disk, `inodes, `owner, `dirty
      ensures Fair(sb, v, Need(v, i, p), outstanding, slots, 2, ok)
      ensures ok ==> x == Now() && Mapped(sb, v, x, i, {p}) && x.inodes[i].addrs[p] != 0
      ensures ok ==> |x.dirty| <= |v.dirty| + 2 && |x.owner| == |v.owner| + Need(v, i, p)
      ensures v.inodes[i].addrs[p] != 0 ==> ok && x == v
    {
      ok, x := true, v;
      if inodes[i].addrs[p] == 0 {
        ok, x := NewDirect(i, p, v);
      } else {
        MappedStill(sb, v, i);
        MappedMore(sb, v, v, i, {}, {p});
      }
    }

    method NewDirect(i: nat, p: nat, ghost v: View) returns (ok: bool, ghost x: View)
      requires Valid() && v == Now() && i < |inodes| && p <= NDIRECT && inodes[i].addrs[p] == 0
      modifies `disk, `inodes, `owner, `dirty
      ensures Fair(sb, v, 1, outstanding, slots, 2, ok)
      ensures ok ==> x == Now() && Mapped(sb, v, x, i, {p}) && x.inodes[i].addrs[p] != 0
      ensures ok ==> |x.dirty| <= |v.dirty| + 2 && |x.owner| == |v.owner| + 1
    {
      x := v;
      RoomLeft(sb, v);
      var b;
      b, ok := Balloc();
      TwoLogged(v.dirty, BlockOf(sb.bmapstart, b), b);
      if ok {
        InodeLink(sb, v, disk, dirty, i, p, b);
        OneUsed(owner, b, Slot(i, p));
        inodes := inodes[i := Pointing(inodes[i], p, b)];
        owner := owner[b := Slot(i, p)];
        x := Now();
      }
    }

    /** bmap's step for an address kept in the indirect block. */
    method LinkLeaf(i: nat, k: nat, ghost v: View) returns (addr: nat, ok: bool, ghost x: View)
      requires Valid() && v == Now() && i < |inodes| && k < NINDIRECT && inodes[i].addrs[NDIRECT] != 0
      modifies `disk, `inodes, `owner, `dirty
      ensures Fair(sb, v, Need(v, i, 13 + k), outstanding, slots, 3, ok)
      ensures ok ==> x == Now() && Mapped(sb, v, x, i, Places(NDIRECT + k)) && x.inodes == v.inodes
      ensures ok ==> |x.dirty| <= |v.dirty| + 3 && |x.owner| == |v.owner| + Need(v, i, 13 + k)
      ensures ok ==> addr == SlotAddr(x.disk, x.inodes[i], 13 + k) && addr != 0
      ensures SlotAddr(v.disk, v.inodes[i], 13 + k) != 0 ==> ok && x == v
    {
      ok, x := true, v;
      var ind := inodes[i].addrs[NDIRECT];
      assert SlotAddr(disk, inodes[i], NDIRECT) == ind;
      addr := WordAt(disk[ind], k);
      if addr == 0 {
        addr, ok := NewLeaf(i, k, ind, v);
        x := Now();
      } else {
        MappedStill(sb, v, i);
        MappedMore(sb, v, v, i, {}, Places(NDIRECT + k));
      }
    }

    method NewLeaf(i: nat, k: nat, ind: nat, ghost v: View) returns (b: nat, ok: bool)
      requires Valid() && v == Now() && i < |inodes| && k < NINDIRECT && inodes[i].addrs[NDIRECT] == ind != 0
      requires SlotAddr(v.disk, v.inodes[i], 13 + k) == 0
      modifies `disk, `owner, `dirty
      ensures Fair(sb, v, 1, outstanding, slots, 3, ok)
      ensures ok ==> Mapped(sb, v, Now(), i, Places(NDIRECT + k)) && |owner| == |v.owner| + 1 && |dirty| <= |v.dirty| + 3
      ensures ok ==> SlotAddr(disk, inodes[i], 13 + k) == b != 0
    {
      RoomLeft(sb, v);
      b, ok := Balloc();
      TwoLogged(v.dirty, BlockOf(sb.bmapstart, b), b);
      if ok {
        ok := PutLeaf(i, k, b, ind, v);
      }
    }

    method PutLeaf(i: nat, k: nat, b: nat, ind: nat, ghost v: View) returns (ok: bool)
      requires outstanding >= 1 && i < |v.inodes| && k < NINDIRECT && v.inodes[i].addrs[NDIRECT] == ind != 0
      requires Took(sb, v.disk, v.inodes, v.owner, disk, b) && inodes == v.inodes && owner == v.owner && b !in owner
      requires SlotAddr(v.disk, v.inodes[i], 13 + k) == 0 && dirty == v.dirty + {BlockOf(sb.bmapstart, b), b}
      modifies `disk, `owner, `dirty
      ensures ok <==> |old(dirty)| < slots
      ensures ok ==> Mapped(sb, v, Now(), i, Places(NDIRECT + k)) && |owner| == |v.owner| + 1 && |dirty| <= |old(dirty)| + 1
      ensures ok ==> SlotAddr(disk, inodes[i], 13 + k) == b
    {
      LeafLink(sb, v, disk, dirty, i, k, b);
      OneUsed(owner, b, Slot(i, 13 + k));
      ghost var w := View(disk[ind := PutWord(disk[ind], k, b)], inodes, owner[b := Slot(i, 13 + k)], dirty + {ind});
      UnionCount(dirty, {ind});
      ok := LogWrite(ind, PutWord(disk[ind], k, b));
      if ok {
        owner := owner[b := Slot(i, 13 + k)];
        assert Now() == w;
      }
    }

    /** bmap for a block reached through the indirect block. */
    method BmapIndirect(i: nat, k: nat, ghost v: View) returns (addr: nat, ok: bool, ghost x: View)
      requires Valid() && v == Now() && i < |inodes| && k < NINDIRECT
      modifies `disk, `inodes, `owner, `dirty
      ensures Fair(sb, v, NeedFor(v, i, NDIRECT + k), outstanding, slots, 5, ok)
      ensures ok ==> x == Now() && Fetched(sb, v, x, i, NDIRECT + k, outstanding) && |x.dirty| <= |v.dirty| + 5
      ensures ok && SlotAddr(v.disk, v.inodes[i], 13 + k) != 0 ==> x == v
      ensures ok ==> i < |x.inodes| && addr == SlotAddr(x.disk, x.inodes[i], 13 + k) && 0 < addr < |x.disk|
    {
      addr := 0;
      ok, x := LinkInode(i, NDIRECT, v);
      if ok {
        addr, ok, x := BmapLeaf(i, k, v, x);
      } else {
        FairFirst(sb, v, Need(v, i, NDIRECT), NeedFor(v, i, NDIRECT + k), outstanding, slots, 2, 3);
      }
    }

    /** bmap with the indirect block in place. */
    method BmapLeaf(i: nat, k: nat, ghost v: View, ghost mid: View) returns (addr: nat, ok: bool, ghost x: View)
      requires mid == Now() && i < |v.inodes| && k < NINDIRECT
      requires Mapped(sb, v, mid, i, {NDIRECT}) && mid.inodes[i].addrs[NDIRECT] != 0
      requires |mid.owner| == |v.owner| + Need(v, i, NDIRECT) && (v.inodes[i].addrs[NDIRECT] != 0 ==> mid == v)
      requires Fair(sb, v, Need(v, i, NDIRECT), outstanding, slots, 2, true) && |mid.dirty| <= |v.dirty| + 2
      modifies `disk, `inodes, `owner, `dirty
      ensures Fair(sb, v, NeedFor(v, i, NDIRECT + k), outstanding, slots, 5, ok)
      ensures ok ==> x == Now() && Fetched(sb, v, x, i, NDIRECT + k, outstanding) && |x.dirty| <= |v.dirty| + 5
      ensures ok && SlotAddr(v.disk, v.inodes[i], 13 + k) != 0 ==> x == v
      ensures ok ==> i < |x.inodes| && addr == SlotAddr(x.disk, x.inodes[i], 13 + k) && 0 < addr < |x.disk|
    {
      LeafUnmoved(sb, v, mid, i, k);
      addr, ok, x := LinkLeaf(i, k, mid);
      LeafPrice(sb, v, mid, i, k, outstanding, slots, ok);
      if ok {
        TwoFetched(sb, v, mid, x, i, k, outstanding);
      }
    }

    method Bmap(i: nat, bn: nat) returns (addr: nat, ok: bool)
      requires Valid() && i < |inodes| && bn < MAXFILE
      modifies `disk, `inodes, `owner, `dirty
      ensures Fair(sb, old(Now()), NeedFor(old(Now()), i, bn), outstanding, slots, 5, ok)
      ensures ok ==> Fetched(sb, old(Now()), Now(), i, bn, outstanding) && |dirty| <= |old(dirty)| + 5
      ensures ok ==> addr == SlotAddr(disk, inodes[i], DataPos(bn)) && 0 < addr < |disk|
      ensures ok && SlotAddr(old(disk), old(inodes[i]), DataPos(bn)) != 0 ==> Now() == old(Now())
    {
      addr := 0;
      ghost var v, x := Now(), Now();
      if bn < NDIRECT {
        ok, x := LinkInode(i, bn, v);
        if ok {
          FetchedDirect(sb, v, x, i, bn, outstanding);
          addr := inodes[i].addrs[bn];
        }
      } else {
        var k := bn - NDIRECT;
        addr, ok, x := BmapIndirect(i, k, v);
        assert NeedFor(v, i, NDIRECT + k) == NeedFor(v, i, bn);
        if ok {
          FetchedIndirect(sb, v, x, i, bn, k, outstanding);
        }
      }
    }

    /** One pass of readi's loop, which as a whole visits the blocks lo, ..., end - 1. */
    method ReadPass(i: nat, off: nat, len: nat, data: seq<Byte>, ghost v: View, ghost w: View, ghost lo: nat,
                    ghost hi: nat, ghost end: nat)
      returns (next: seq<Byte>, ok: bool, ghost x: View, ghost to: nat)
      requires w == Now() && Reading(sb, v, w, i, off, data, lo, hi, outstanding) && |data| < len && off + len <= MAXBYTES
      requires Upto(off, |data|, len, lo, hi, end)
      modifies `disk, `inodes, `owner, `dirty
      ensures !ok ==> Owed(v, i, off, len) > 0 && Refused(sb, v, i, off, len, outstanding, slots)
      ensures ok ==> x == Now() && |data| < |next| && Upto(off, |next|, len, lo, to, end)
      ensures ok ==> Reading(sb, v, x, i, off, next, lo, to, outstanding)
      ensures ok && Owed(v, i, off, len) == 0 ==> x == w
    {
      var bn, o, m := Extent(off, |data|, len, lo, hi, end);
      var addr;
      next, to := data, hi + 1;
      addr, ok := Bmap(i, bn);
      x := Now();
      if ok {
        next := data + Piece(disk[addr], o, m);
        ReadingFree(sb, v, w, x, i, off, data, lo, hi, end, outstanding);
        ReadingStep(sb, v, w, x, i, off, data, next, lo, hi, o, m, outstanding, addr);
        ReadingTo(sb, v, x, i, off, next, len, lo, hi, to, end, outstanding);
      } else {
        ReadingStuck(sb, v, w, i, off, data, len, lo, hi, end, outstanding, slots);
      }
    }

    /** readi's loop. */
    method ReadBlocks(i: nat, off: nat, len: nat, ghost v: View) returns (data: seq<Byte>, ok: bool, ghost w: View)
      requires Valid() && v == Now() && i < |inodes| && off + len <= inodes[i].size <= MAXBYTES
      modifies `disk, `inodes, `owner, `dirty
      ensures !ok ==> Owed(v, i, off, len) > 0 && Refused(sb, v, i, off, len, outstanding, slots)
      ensures ok ==> w == Now() && |data| == len && ReadDone(sb, v, w, i, off, data, outstanding)
      ensures ok && Owed(v, i, off, len) == 0 ==> w == v
    {
      data, ok, w := [], true, v;
      ghost var lo, end := off / BSIZE, Beyond(off, len);
      ghost var hi: nat := lo;
      ghost var free := Owed(v, i, off, len) == 0;
      ReadingNothing(sb, v, i, off, lo, outstanding);
      while |data| < len
        invariant w == Now() && Upto(off, |data|, len, lo, hi, end)
        invariant Reading(sb, v, w, i, off, data, lo, hi, outstanding)
        invariant free ==> w == v
      {
        data, ok, w, hi := ReadPass(i, off, len, data, v, w, lo, hi, end);
        if !ok {
          return;
        }
      }
      AllRead(sb, v, w, i, off, data, lo, hi, outstanding);
    }

    /** readi: a device is left to its driver. A block missing in the range read is allocated here,
        which no file shows. So a call that finds blocks missing panics outside an operation, and
        inside one, as long as the log has room for the range, exactly when there are more of them than
        free blocks; one that finds none missing writes nothing at all. */
    method Readi(i: nat, off: Word, n: Word) returns (r: Outcome, data: seq<Byte>)
      requires Valid() && i < |inodes| && inodes[i].size <= MAXBYTES
      modifies `disk, `inodes, `owner, `dirty
      ensures r.Device? <==> old(inodes[i].typ) == T_DEV
      ensures r.Failed? <==> !r.Device? && (off > old(inodes[i].size) || off + n >= 0x1_0000_0000)
      ensures r.Device? || r.Failed? ==> Now() == old(Now())
      ensures !r.Device? && !r.Failed? ==>
                ReadEnds(sb, old(Now()), Now(), i, off, Clipped(off, n, old(inodes[i].size)), outstanding, slots, r.Panic?)
      ensures r.Done? ==> Mapped(sb, old(Now()), Now(), i, Visited(off, r.n))
      ensures r.Done? ==> r.n == |data| <= n && off + r.n <= old(inodes[i].size)
      ensures r.Done? ==> r.n == n || off + r.n == old(inodes[i].size)
      ensures r.Done? ==> data == old(Contents(disk, inodes[i]))[off..off + r.n]
    {
      data := [];
      if inodes[i].typ == T_DEV {
        return Device, data;
      }
      Wraps(off, n);
      if off > inodes[i].size || (off + n) % 0x1_0000_0000 < off {
        return Failed, data;
      }
      var len := Clipped(off, n, inodes[i].size);
      var ok;
      ghost var v, w := Now(), Now();
      data, ok, w := ReadBlocks(i, off, len, v);
      HowReadEnds(sb, v, Now(), i, off, len, outstanding, slots, ok);
      if !ok {
        return Panic, data;
      }
      CopiedIsSlice(v, i, off, data);
      r := Done(len);
    }

    /** iupdate: the inode's sixteen words go to its place in the inode table. */
    method Iupdate(i: nat) returns (ok: bool)
      requires Valid() && i < |inodes|
      modifies `disk, `dirty
      ensures ok <==> outstanding >= 1 && |old(dirty)| < slots
      ensures ok ==> Valid() && Rewritten(sb, old(Now()), Now(), i)
    {
      assert i / IPB <= sb.ninodes / IPB;
      var ib := sb.inodestart + i / IPB;
      RewriteKeeps(sb, Now(), i);
      ok := LogWrite(ib, PutWords(disk[ib], DINODE_WORDS * (i % IPB), InodeWords(inodes[i])));
    }

    method PutData(i: nat, bn: nat, o: nat, t: seq<Byte>, addr: nat, ghost v: View, ghost x: View, ghost off: nat,
                   ghost s: seq<Byte>, ghost ps: set<nat>, ghost done: seq<Byte>)
      returns (ok: bool)
      requires x == Now() && Written(sb, v, x, i, off, s, ps) && off + |s| == bn * BSIZE + o && DataPos(bn) in ps
      requires bn < MAXFILE && o < BSIZE && o + |t| <= BSIZE && done == s + t
      requires addr == SlotAddr(disk, inodes[i], DataPos(bn)) && 0 < addr < |disk|
      modifies `disk, `dirty
      ensures ok <==> outstanding >= 1 && |x.dirty| < slots
      ensures ok ==> Written(sb, v, Now(), i, off, done, ps) && dirty == x.dirty + {addr}
      ensures |owner| == |x.owner| && inodes == x.inodes
      ensures ok ==> SameAddrs(x, Now(), i)
    {
      assert (off + |s|) / BSIZE == bn && (off + |s|) % BSIZE == o;
      ghost var y := View(disk[addr := Splice(disk[addr], o, t)], inodes, owner, dirty + {addr});
      WrittenBlock(sb, v, x, i, off, s, ps, t, addr, y);
      ok := LogWrite(addr, Splice(disk[addr], o, t));
      assert ok ==> Now() == y;
    }

    /** One pass of writei's loop. */
    method WritePass(i: nat, src: seq<Byte>, off: nat, tot: nat, ghost v: View, ghost w: View, ghost lo: nat,
                     ghost hi: nat, ghost end: nat)
      returns (next: nat, ok: bool, ghost x: View, ghost to: nat)
      requires w == Now() && Writing(sb, v, w, i, off, src, tot, lo, hi, outstanding, slots) && tot < |src|
      requires Upto(off, tot, |src|, lo, hi, end) && off + |src| <= MAXBYTES
      modifies `disk, `inodes, `owner, `dirty
      ensures !ok ==> outstanding == 0 || Refused(sb, v, i, off, |src|, outstanding, slots)
      ensures ok ==> outstanding >= 1 && x == Now() && tot < next && Upto(off, next, |src|, lo, to, end)
      ensures ok ==> Writing(sb, v, x, i, off, src, next, lo, to, outstanding, slots)
    {
      var bn, o, m := Extent(off, tot, |src|, lo, hi, end);
      next, x, to := tot + m, w, hi + 1;
      Joined(src, tot, next);
      var addr;
      addr, ok := Bmap(i, bn);
      if ok {
        ghost var y := Now();
        WritingMapped(sb, v, w, y, i, off, src, tot, lo, hi, outstanding, slots);
        ok := PutData(i, bn, o, src[tot..next], addr, v, y, off, src[..tot], PlacesOf(lo, hi + 1), src[..next]);
        x := Now();
        if ok {
          WritingMore(sb, v, w, y, x, i, off, src, tot, next, lo, hi, addr, outstanding, slots);
          WritingTo(sb, v, x, i, off, src, next, lo, hi, to, end, outstanding, slots);
        } else if outstanding >= 1 {
          WritingRefused(sb, v, w, i, off, src, tot, lo, hi, end, outstanding, slots, |y.dirty|);
        }
      } else {
        WritingStuck(sb, v, w, i, off, src, tot, lo, hi, end, outstanding, slots);
      }
    }

    /** writei's loop. */
    method WriteBlocks(i: nat, src: seq<Byte>, off: nat) returns (ok: bool, ghost w: View)
      requires Valid() && i < |inodes| && off <= inodes[i].size && off + |src| <= MAXBYTES
      modifies `disk, `inodes, `owner, `dirty
      ensures !ok ==> |src| > 0 && (outstanding == 0 || Refused(sb, old(Now()), i, off, |src|, outstanding, slots))
      ensures ok && |src| > 0 ==> outstanding >= 1
      ensures ok ==> w == Now() && LoopDone(sb, old(Now()), w, i, off, src)
      ensures ok ==> Paid(sb, old(Now()), w, i, off, |src|, outstanding, slots)
    {
      ok := true;
      ghost var v, lo, end := Now(), off / BSIZE, Beyond(off, |src|);
      ghost var hi: nat := lo;
      w := v;
      var tot := 0;
      NothingWritten(sb, v, i, off, src, lo, outstanding, slots);
      while tot < |src|
        invariant w == Now() && Upto(off, tot, |src|, lo, hi, end) && (tot > 0 ==> outstanding >= 1)
        invariant Writing(sb, v, w, i, off, src, tot, lo, hi, outstanding, slots)
      {
        tot, ok, w, hi := WritePass(i, src, off, tot, v, w, lo, hi, end);
        if !ok {
          return;
        }
      }
      AllWritten(sb, v, w, i, off, src, tot, lo, hi, outstanding, slots);
    }

    /** bfree: !ok is a panic, since the block is free or log_write refuses. */
    method Bfree(b: nat) returns (ok: bool)
      requires BlockOf(sb.bmapstart, b) < |disk|
      modifies `disk, `dirty
      ensures ok <==> InUse(old(disk), sb.bmapstart, b) && outstanding >= 1 && |old(dirty)| < slots
      ensures ok ==> disk == Mark(old(disk), sb.bmapstart, b, false)
      ensures !ok ==> disk == old(disk)
      ensures dirty == old(dirty) + if ok then {BlockOf(sb.bmapstart, b)} else {}
    {
      var bm := BlockOf(sb.bmapstart, b);
      var bi := b % BPB;
      assert bi % 8 == b % 8;
      ok := Bit(disk[bm][bi / 8], bi % 8);
      if ok {
        ok := LogWrite(bm, disk[bm][bi / 8 := ByteWith(disk[bm][bi / 8], bi % 8, false)]);
      }
    }

    /** itrunc's step for a direct address. */
    method DropDirect(i: nat, p: nat, ghost v: View, ghost w: View, ghost all: set<nat>) returns (ok: bool, ghost x: View)
      requires w == Now() && Cleared(sb, v, w, i, p) && p < NDIRECT && Accounts(sb, v, w.owner, w.dirty, i, all)
      modifies `disk, `inodes, `owner, `dirty
      ensures ok ==> x == Now() && Cleared(sb, v, x, i, p + 1) && Accounts(sb, v, x.owner, x.dirty, i, all)
      ensures !ok ==> outstanding == 0 || |all| >= slots
    {
      ok, x := true, w;
      var a := inodes[i].addrs[p];
      if a != 0 {
        AccountsOne(sb, v, w, i, p, a, all);
        x := View(Mark(w.disk, sb.bmapstart, a, false), w.inodes[i := Pointing(w.inodes[i], p, 0)], w.owner - {a},
                  w.dirty + {BlockOf(sb.bmapstart, a)});
        ClearDirect(sb, v, w, x, i, p);
        SubsetCount(dirty, all);
        ok := Bfree(a);
        if !ok {
          return;
        }
        inodes := inodes[i := Pointing(inodes[i], p, 0)];
        owner := owner - {a};
      } else {
        ClearSkip(sb, v, w, i, p);
      }
    }

    /** A word of the indirect block: the block it names, if any, is freed. */
    method DropLeaf(i: nat, j: nat, a: nat, ghost w: View, ghost all: set<nat>) returns (ok: bool)
      requires Good(sb, w.disk, w.inodes, w.owner, {}) && i < |w.inodes| && w.inodes[i].addrs[NDIRECT] != 0
      requires j < NINDIRECT && a == SlotAddr(w.disk, w.inodes[i], 13 + j) && Freeing(sb, w, disk, i, j)
      requires LeavesLogged(sb, w, dirty, i, j, all)
      modifies `disk, `dirty
      ensures ok ==> Freeing(sb, w, disk, i, j + 1) && LeavesLogged(sb, w, dirty, i, j + 1, all)
      ensures !ok ==> outstanding == 0 || |all| >= slots
    {
      ok := true;
      NextLeft(sb, w, i, j);
      if a != 0 {
        FreeingStep(sb, w, disk, i, j, j + 1, a);
        LeafLogged(sb, w, dirty, i, j, j + 1, a, all);
        SubsetCount(dirty, all);
        ok := Bfree(a);
      } else {
        StillLeft(sb, w, disk, i, j);
        LeafSkipped(sb, w, dirty, i, j, all);
      }
    }

    /** itrunc's loop over the words of the indirect block. */
    method DropLeaves(i: nat, ghost w: View, ghost all: set<nat>) returns (ok: bool)
      requires w == Now() && Valid() && i < |inodes| && inodes[i].addrs[NDIRECT] != 0
      requires LeavesLogged(sb, w, dirty, i, 0, all)
      modifies `disk, `dirty
      ensures ok ==> Freeing(sb, w, disk, i, NINDIRECT) && LeavesLogged(sb, w, dirty, i, NINDIRECT, all)
      ensures !ok ==> outstanding == 0 || |all| >= slots
    {
      ok := true;
      FreeingStart(sb, w, i);
      var ind := inodes[i].addrs[NDIRECT];
      assert SlotAddr(w.disk, w.inodes[i], NDIRECT) == ind;
      var bp := disk[ind];
      var j := 0;
      while j < NINDIRECT
        invariant j <= NINDIRECT && Freeing(sb, w, disk, i, j) && LeavesLogged(sb, w, dirty, i, j, all)
      {
        ok := DropLeaf(i, j, WordAt(bp, j), w, all);
        if !ok {
          return;
        }
        j := j + 1;
      }
    }

    /** itrunc's part for an indirect block that is there: free what it points at, then itself. */
    method FreeIndirect(i: nat, ind: nat, ghost w: View, ghost all: set<nat>) returns (ok: bool)
      requires w == Now() && Valid() && i < |inodes| && inodes[i].addrs[NDIRECT] == ind != 0
      requires LeavesLogged(sb, w, dirty, i, 0, all)
      modifies `disk, `dirty
      ensures ok ==> IndirectGone(sb, w, disk, i) && LeavesGone(sb, w, dirty, i, all)
      ensures !ok ==> outstanding == 0 || |all| >= slots
    {
      ok := DropLeaves(i, w, all);
      if ok {
        LastLeft(sb, w, i);
        FreedAll(sb, w, disk, i);
        LastLogged(sb, w, dirty, i, ind, all);
        SubsetCount(dirty, all);
        ok := Bfree(ind);
      }
    }

    /** itrunc's part for the indirect block. */
    method DropIndirect(i: nat, ghost v: View, ghost all: set<nat>) returns (ok: bool)
      requires Cleared(sb, v, Now(), i, NDIRECT) && Accounts(sb, v, owner, dirty, i, all)
      modifies `disk, `inodes, `owner, `dirty
      ensures ok ==> Cleared(sb, v, Now(), i, POSITIONS) && Accounts(sb, v, owner, dirty, i, all)
      ensures !ok ==> outstanding == 0 || |all| >= slots
    {
      ghost var w := Now();
      ok := true;
      var ind := inodes[i].addrs[NDIRECT];
      LeavesStart(sb, v, w, i, all);
      if ind != 0 {
        ok := FreeIndirect(i, ind, w, all);
        if !ok {
          return;
        }
        inodes := inodes[i := Pointing(inodes[i], NDIRECT, 0)];
      } else {
        NoIndirect(sb, w, i);
        NoneLeft(sb, w, i);
      }
      ClearIndirect(sb, v, w, disk, i, dirty);
      AccountsRest(sb, v, w, dirty, i, all);
      owner := owner - Left(owner, i, 0);
    }

    /** itrunc's two loops. */
    method DropBlocks(i: nat, ghost v: View, ghost all: set<nat>) returns (ok: bool, ghost w: View)
      requires Valid() && i < |inodes| && v == Now() && all == v.dirty + BitsOf(sb, v.owner, i)
      modifies `disk, `inodes, `owner, `dirty
      ensures ok ==> w == Now() && Cleared(sb, v, w, i, POSITIONS) && dirty == all
      ensures !ok ==> outstanding == 0 || |all| >= slots
    {
      w := v;
      ClearedNothing(sb, v, i);
      AccountsStart(sb, v, i);
      ok := true;
      var p := 0;
      while p < NDIRECT
        invariant p <= NDIRECT && w == Now() && Cleared(sb, v, w, i, p) && Accounts(sb, v, w.owner, w.dirty, i, all)
      {
        ok, w := DropDirect(i, p, v, w, all);
        if !ok {
          return;
        }
        p := p + 1;
      }
      ok := DropIndirect(i, v, all);
      w := Now();
      if ok {
        AllAccounted(sb, v, w, i, all);
      }
    }

    /** itrunc: neither loop ever meets a block that is already free, so it panics only because
        log_write refuses, outside an operation or when the file's bitmap blocks fill the log. */
    method Itrunc(i: nat) returns (ok: bool)
      requires Valid() && i < |inodes|
      modifies `disk, `inodes, `owner, `dirty
      ensures ok <==> outstanding >= 1 && |old(dirty) + BitsOf(sb, old(owner), i)| < slots
      ensures ok ==> Valid() && Truncated(sb, old(Now()), Now(), i, old(inodes[i].typ))
      ensures ok ==> dirty == old(dirty) + BitsOf(sb, old(owner), i) + {sb.inodestart + i / IPB}
    {
      ghost var v, w := Now(), Now();
      ghost var all := dirty + BitsOf(sb, owner, i);
      ok, w := DropBlocks(i, v, all);
      if ok {
        ResizeKeepsGood(sb, w.disk, w.inodes, w.owner, i, 0);
        inodes := Sized(inodes, i, 0);
        ghost var x := Now();
        ok := Iupdate(i);
        if ok {
          TruncateSettled(sb, v, w, x, Now(), i);
        }
      }
    }

    /** The end of iput: the truncated inode is marked as unused. */
    method Retire(i: nat, ghost v: View, ghost w: View) returns (ok: bool)
      requires w == Now() && Valid() && i < |v.inodes| && Truncated(sb, v, w, i, v.inodes[i].typ)
      modifies `disk, `inodes, `dirty
      ensures ok <==> outstanding >= 1 && |w.dirty| < slots
      ensures ok ==> Valid() && Truncated(sb, v, Now(), i, 0)
    {
      RelabelKeepsGood(sb, disk, inodes, owner, i, 0, inodes[i].nlink);
      inodes := inodes[i := inodes[i].(typ := 0)];
      ghost var x := Now();
      ok := Iupdate(i);
      if ok {
        RetypeSettled(sb, v, w, x, Now(), i);
      }
    }

    /** iput for the inode with ref references: the last one to an unlinked inode frees it. */
    method Iput(i: nat, valid: bool, ref: nat) returns (ok: bool, left: nat)
      requires Valid() && i < |inodes| && ref > 0
      modifies `disk, `inodes, `owner, `dirty
      ensures var last := valid && old(inodes[i].nlink) == 0 && ref == 1;
              && (ok <==> !last || (outstanding >= 1
                                    && |old(dirty) + BitsOf(sb, old(owner), i) + {sb.inodestart + i / IPB}| < slots))
              && (!last ==> Now() == old(Now()))
              && (last && ok ==> Truncated(sb, old(Now()), Now(), i, 0))
      ensures ok ==> Valid() && left == ref - 1
    {
      ok, left := true, ref - 1;
      if valid && inodes[i].nlink == 0 {
        if ref == 1 {
          ghost var v := Now();
          ghost var all := dirty + BitsOf(sb, owner, i);
          SubsetCount(all, all + {sb.inodestart + i / IPB});
          ok := Itrunc(i);
          if ok {
            ok := Retire(i, v, Now());
          }
        }
      }
    }

    /** mkfs's ialloc: the inode gets a type and its first link. */
    method Label(i: nat, typ: Half) returns (ok: bool)
      requires Valid() && i < |inodes| && inodes[i] == UNUSED
      modifies `disk, `inodes, `dirty
      ensures ok <==> outstanding >= 1 && |old(dirty)| < slots
      ensures ok ==> Valid() && inodes == old(inodes)[i := inodes[i]] && Fresh(inodes[i], typ)
      ensures ok ==> Synced(sb, Now(), i)
    {
      RelabelKeepsGood(sb, disk, inodes, owner, i, typ, 1);
      inodes := inodes[i := inodes[i].(typ := typ, nlink := 1)];
      ok := Iupdate(i);
    }

    /** The end of writei for a file that has grown. */
    method Extend(i: nat, size: Word, ghost w: View) returns (ok: bool, ghost x: View)
      requires Valid() && i < |inodes| && size > inodes[i].size && w == Now()
      modifies `disk, `inodes, `owner, `dirty
      ensures ok <==> outstanding >= 1 && |w.dirty| < slots
      ensures ok ==> Valid() && x == Now() && Settled(sb, w, x, i, size)
    {
      ResizeKeepsGood(sb, disk, inodes, owner, i, size);
      ResizeSlots(disk, inodes[i], size);
      inodes := Sized(inodes, i, size);
      ghost var mid := Now();
      ok := Iupdate(i);
      if ok {
        SameFilesTwice(w.disk, w.inodes, mid.disk, mid.inodes, disk, inodes);
      }
      x := Now();
    }

    /** writei. The on-disk inode is rewritten only when the file has grown. A write of at least one
        byte panics outside an operation, when it has to allocate more blocks than are free, and when
        it covers more blocks than the log can hold; it does not otherwise, if the log has room. */
    method Writei(i: nat, src: seq<Byte>, off: Word) returns (r: Outcome)
      requires Valid() && i < |inodes| && |src| < 0x1_0000_0000
      modifies `disk, `inodes, `owner, `dirty
      ensures r.Device? <==> old(inodes[i].typ) == T_DEV
      ensures r.Failed? <==> !r.Device? && (off > old(inodes[i].size) || off + |src| > MAXBYTES)
      ensures !r.Device? && !r.Failed? && |src| > 0 ==>
                var affords := outstanding >= 1 && Affords(sb, old(Now()), i, Visited(off, |src|), outstanding);
                && (!affords || Spread(off, |src|) > slots ==> r.Panic?)
                && (affords && Roomy(sb, old(Now()), off, |src|, slots) ==> !r.Panic?)
      ensures |src| == 0 ==> !r.Panic?
      ensures r.Device? || r.Failed? ==> Now() == old(Now())
      ensures r.Done? ==> r.n == |src| && Valid() && WriteDone(sb, old(Now()), Now(), i, off, src)
    {
      if inodes[i].typ == T_DEV {
        return Device;
      }
      if off > inodes[i].size || (off + |src|) % 0x1_0000_0000 < off {
        return Failed;
      }
      if off + |src| > MAXBYTES {
        return Failed;
      }
      var ok;
      ghost var w;
      AffordsVisited(sb, Now(), i, off, |src|, outstanding);
      ok, w := WriteBlocks(i, src, off);
      if !ok {
        return Panic;
      }
      ok, w := Settle(i, src, off, old(Now()), w);
      r := if ok then Done(|src|) else Panic;
    }

    /** writei after its loop. */
    method Settle(i: nat, src: seq<Byte>, off: nat, ghost v: View, ghost w: View)
      returns (ok: bool, ghost x: View)
      requires LoopDone(sb, v, w, i, off, src) && w == Now() && (|src| > 0 ==> outstanding >= 1)
      modifies `disk, `inodes, `owner, `dirty
      ensures ok ==> x == Now() && Good(sb, x.disk, x.inodes, x.owner, {}) && WriteDone(sb, v, x, i, off, src)
      ensures !ok ==> |src| > 0 && |w.dirty| >= slots
    {
      ok, x := true, w;
      var end: Word := off + |src|;
      if |src| > 0 && end > inodes[i].size {
        ok, x := Extend(i, end, w);
        if ok {
          WriteSettled(sb, v, w, x, i, off, src, end);
        }
      } else {
        NotGrown(sb, v, w, i, off, src, end);
      }
    }
  }

  /** src laid over c at off, extending it when it reaches past the end. */
  function Overlay(c: seq<Byte>, off: nat, src: seq<Byte>): (r: seq<Byte>)
    requires off <= |c|
  {
    c[..off] + src + if off + |src| < |c| then c[off + |src|..] else []
  }

  ghost predicate Synced(sb: Super, v: View, i: nat) {
    i < |v.inodes| && sb.inodestart + i / IPB < |v.disk| && OnDisk(sb, v.disk, i) == v.inodes[i]
  }

  /** The address bmap looks up in the inode itself for the file's bn-th block. */
  function Pointer(n: Dinode, bn: nat): (a: Word) { n.addrs[if bn < NDIRECT then bn else NDIRECT] }

  /** No address that writing len bytes at off looks up in the inode itself is missing. */
  ghost predicate HasPointers(n: Dinode, off: nat, len: nat) {
    forall bn: nat :: off / BSIZE <= bn < Beyond(off, len) ==> Pointer(n, bn) != 0
  }

  /** What a successful writei has done. */
  ghost predicate WriteDone(sb: Super, v: View, w: View, i: nat, off: nat, src: seq<Byte>) {
    && i < |v.inodes| == |w.inodes| && off <= v.inodes[i].size && off + |src| <= MAXBYTES
    && Allotted(v, w, i, Visited(off, |src|)) && |w.owner| == |v.owner| + Owed(v, i, off, |src|)
    && w.inodes[i] == v.inodes[i].(size := w.inodes[i].size, addrs := w.inodes[i].addrs)
    && Contents(w.disk, w.inodes[i]) == Overlay(Contents(v.disk, v.inodes[i]), off, src)
    && OthersKept(v, w, i) && HolesKept(v, w) && TableDone(sb, v, w, i, off, |src|)
    && Logged(sb, v, w, i, off, |src|)
  }

  /** Inode i has a block at each of the places ps, the one it had if it had one; its other places
      are as before. */
  ghost predicate Allotted(v: View, w: View, i: nat, ps: set<nat>)
    requires i < |v.inodes| == |w.inodes|
  {
    forall q: nat {:trigger SlotAddr(w.disk, w.inodes[i], q)} :: q < POSITIONS ==>
      && (SlotAddr(w.disk, w.inodes[i], q) == SlotAddr(v.disk, v.inodes[i], q)
          || (q in ps && SlotAddr(v.disk, v.inodes[i], q) == 0))
      && (q in ps ==> SlotAddr(w.disk, w.inodes[i], q) != 0)
  }

  ghost predicate OthersKept(v: View, w: View, i: nat)
    requires |v.inodes| == |w.inodes|
  {
    forall k: nat :: k < |v.inodes| && k != i ==>
      w.inodes[k] == v.inodes[k] && Contents(w.disk, w.inodes[k]) == Contents(v.disk, v.inodes[k])
  }

  ghost predicate HolesKept(v: View, w: View)
    requires |v.inodes| == |w.inodes|
  {
    forall k: nat :: k < |v.inodes| && NoHoles(v.disk, v.inodes[k]) ==> NoHoles(w.disk, w.inodes[k])
  }

  /** The inode on disk: the other inodes' are as before, and this one's agrees with the inode in
      memory exactly when the file grew or no address in the inode had to be filled in. */
  ghost predicate TableDone(sb: Super, v: View, w: View, i: nat, off: nat, len: nat)
    requires i < |v.inodes|
  {
    && (forall k: nat :: k < |v.inodes| && k != i ==> (Synced(sb, w, k) <==> Synced(sb, v, k)))
    && (Synced(sb, v, i) ==>
          (Synced(sb, w, i) <==> off + len > v.inodes[i].size || HasPointers(v.inodes[i], off, len)))
  }

  /** Everything given to log_write: bitmap blocks, the inode's block, and the blocks visited. */
  ghost predicate Logged(sb: Super, v: View, w: View, i: nat, off: nat, len: nat) {
    && v.dirty <= w.dirty
    && forall b: nat :: b in w.dirty && b !in v.dirty ==>
         || IsBitmap(sb, b) || b == sb.inodestart + i / IPB
         || (b in w.owner && w.owner[b].inum == i && w.owner[b].pos in Visited(off, len))
  }

  lemma ResizeSlots(d: Disk, n: Dinode, x: Word)
    ensures forall p: nat :: p < POSITIONS ==> SlotAddr(d, n.(size := x), p) == SlotAddr(d, n, p)
    ensures forall j: nat :: FileByte(d, n.(size := x), j) == FileByte(d, n, j)
  {
  }

  function Sized(ns: seq<Dinode>, i: nat, x: Word): (ms: seq<Dinode>)
    requires i < |ns|
    ensures |ms| == |ns|
  {
    ns[i := ns[i].(size := x)]
  }

  ghost predicate Resized(ns: seq<Dinode>, ms: seq<Dinode>, i: nat, x: Word)
    requires i < |ns| == |ms|
  {
    && ms[i] == ns[i].(size := x)
    && forall k: nat :: k < |ns| && k != i ==> ms[k] == ns[k]
  }

  lemma ResizeKeepsGood(sb: Super, d: Disk, ns: seq<Dinode>, owner: map<nat, Slot>, i: nat, x: Word)
    requires Good(sb, d, ns, owner, {}) && i < |ns|
    ensures Good(sb, d, Sized(ns, i, x), owner, {})
  {
    var ms := Sized(ns, i, x);
    ResizeSlots(d, ns[i], x);
    forall k: nat, q: nat | k < |ns| && q < POSITIONS
      ensures SlotAddr(d, ms[k], q) == SlotAddr(d, ns[k], q)
    {
    }
    assert Claims(sb, d, ms, owner);
    assert Held(sb, d, ms, owner);
  }

  /** The inode itself changes exactly when an address kept in it was missing. */
  lemma PointersKept(sb: Super, v: View, w: View, i: nat, off: nat, src: seq<Byte>)
    requires Written(sb, v, w, i, off, src, Visited(off, |src|))
    ensures w.inodes[i] == v.inodes[i] <==> HasPointers(v.inodes[i], off, |src|)
  {
    var lo, hi, n, m := off / BSIZE, Beyond(off, |src|), v.inodes[i], w.inodes[i];
    assert lo <= hi;
    forall q: nat | q <= NDIRECT
      ensures m.addrs[q] == n.addrs[q] || (q in PlacesOf(lo, hi) && n.addrs[q] == 0)
      ensures q in PlacesOf(lo, hi) ==> m.addrs[q] != 0
    {
      assert SlotAddr(w.disk, w.inodes[i], q) == m.addrs[q];
      assert SlotAddr(v.disk, v.inodes[i], q) == n.addrs[q];
    }
    if HasPointers(n, off, |src|) {
      forall q: nat | q <= NDIRECT
        ensures m.addrs[q] == n.addrs[q]
      {
        PlaceIn(lo, hi, q);
        if bn: nat :| lo <= bn < hi && q in Places(bn) {
          assert Pointer(n, bn) != 0;
        }
      }
      assert m.addrs == n.addrs;
    }
    if m == n {
      forall bn: nat | lo <= bn < hi
        ensures Pointer(n, bn) != 0
      {
        var q := if bn < NDIRECT then bn else NDIRECT;
        assert q in Places(bn);
        PlaceIn(lo, hi, q);
      }
    }
  }

  /** hi is the number of the first block not yet visited when tot of n bytes from off are done. */
  ghost predicate Upto(off: nat, tot: nat, n: nat, lo: nat, hi: nat, end: nat) {
    && tot <= n && lo == off / BSIZE <= hi && end == Beyond(off, n)
    && hi == if tot < n then (off + tot) / BSIZE else end
  }

  /** The block in which byte number tot of n lies, the place in the block, and how many of the bytes
      left fall in it. */
  method Extent(off: nat, tot: nat, n: nat, ghost lo: nat, ghost hi: nat, ghost end: nat)
    returns (bn: nat, o: nat, m: nat)
    requires Upto(off, tot, n, lo, hi, end) && tot < n && off + n <= MAXBYTES
    ensures bn == hi && lo <= bn < end <= MAXFILE && off + tot == bn * BSIZE + o && o < BSIZE
    ensures 0 < m && o + m <= BSIZE && Upto(off, tot + m, n, lo, hi + 1, end)
  {
    bn, o := (off + tot) / BSIZE, (off + tot) % BSIZE;
    m := if n - tot < BSIZE - o then n - tot else BSIZE - o;
    NextBlock(off, tot, n, m);
  }

  /** How much of n bytes from off lies below size. */
  function Clipped(off: nat, n: nat, size: nat): (len: nat)
    requires off <= size
    ensures len <= n && off + len <= size && (len == n || off + len == size)
  {
    if off + n > size then size - off else n
  }

  /** There are not enough free blocks, or there might not be enough room in the log. */
  ghost predicate Refused(sb: Super, v: View, i: nat, off: nat, n: nat, open: nat, slots: nat) {
    i < |v.inodes| && off + n <= MAXBYTES && (!CanPay(sb, v, Owed(v, i, off, n), open) || !Roomy(sb, v, off, n, slots))
  }

  /** The blocks were there, the log holds them, and it has room for the inode's block if it had
      room to begin with. */
  ghost predicate Paid(sb: Super, v: View, w: View, i: nat, off: nat, n: nat, open: nat, slots: nat) {
    && i < |v.inodes| && off + n <= MAXBYTES && CanPay(sb, v, Owed(v, i, off, n), open)
    && (n > 0 ==> Spread(off, n) <= slots) && (Roomy(sb, v, off, n, slots) ==> |w.dirty| < slots)
  }

  /** writei's loop invariant: the first tot bytes are in place, and blocks below hi were visited. */
  ghost predicate Writing(sb: Super, v: View, w: View, i: nat, off: nat, src: seq<Byte>, tot: nat, lo: nat, hi: nat,
                          open: nat, slots: nat)
  {
    && tot <= |src| && i < |v.inodes| && lo <= hi <= MAXFILE
    && Written(sb, v, w, i, off, src[..tot], PlacesOf(lo, hi)) && Spent(v, w, i, lo, hi, open)
    && DataLogged(w, i, lo, hi) && (tot > 0 ==> |w.dirty| <= slots)
  }

  lemma NothingWritten(sb: Super, v: View, i: nat, off: nat, src: seq<Byte>, lo: nat, open: nat, slots: nat)
    requires Good(sb, v.disk, v.inodes, v.owner, {}) && i < |v.inodes| && lo <= MAXFILE
    ensures Writing(sb, v, v, i, off, src, 0, lo, lo, open, slots)
  {
    assert src[..0] == [];
    WrittenNothing(sb, v, i, off);
  }

  lemma WritingMapped(sb: Super, v: View, w: View, y: View, i: nat, off: nat, src: seq<Byte>, tot: nat, lo: nat, hi: nat,
                      open: nat, slots: nat)
    requires Writing(sb, v, w, i, off, src, tot, lo, hi, open, slots) && Fetched(sb, w, y, i, hi, open)
    ensures Written(sb, v, y, i, off, src[..tot], PlacesOf(lo, hi + 1)) && Spent(v, y, i, lo, hi + 1, open)
    ensures DataPos(hi) in PlacesOf(lo, hi + 1)
  {
    SpentMore(sb, v, w, i, lo, hi, open, |y.owner|);
    WrittenMapped(sb, v, w, y, i, off, src[..tot], PlacesOf(lo, hi), hi);
    assert DataPos(hi) in Places(hi);
  }

  lemma WritingMore(sb: Super, v: View, w: View, y: View, x: View, i: nat, off: nat, src: seq<Byte>, tot: nat, next: nat,
                    lo: nat, hi: nat, addr: nat, open: nat, slots: nat)
    requires Writing(sb, v, w, i, off, src, tot, lo, hi, open, slots) && Fetched(sb, w, y, i, hi, open) && next <= |src|
    requires Spent(v, y, i, lo, hi + 1, open) && Written(sb, v, x, i, off, src[..next], PlacesOf(lo, hi + 1))
    requires x == y.(disk := x.disk, dirty := y.dirty + {addr}) && |y.dirty| < slots
    requires SameAddrs(y, x, i) && addr == SlotAddr(y.disk, y.inodes[i], DataPos(hi))
    ensures Writing(sb, v, x, i, off, src, next, lo, hi + 1, open, slots)
  {
    UnionCount(y.dirty, {addr});
    DataMore(w, y, x, i, lo, hi, addr);
  }

  lemma WritingTo(sb: Super, v: View, x: View, i: nat, off: nat, src: seq<Byte>, next: nat, lo: nat, hi: nat, to: nat,
                  end: nat, open: nat, slots: nat)
    requires Writing(sb, v, x, i, off, src, next, lo, hi + 1, open, slots) && Upto(off, next, |src|, lo, hi + 1, end)
    requires to == hi + 1
    ensures Writing(sb, v, x, i, off, src, next, lo, to, open, slots) && Upto(off, next, |src|, lo, to, end)
  {
  }

  lemma WritingStuck(sb: Super, v: View, w: View, i: nat, off: nat, src: seq<Byte>, tot: nat, lo: nat, hi: nat, end: nat,
                     open: nat, slots: nat)
    requires Writing(sb, v, w, i, off, src, tot, lo, hi, open, slots) && hi < end <= MAXFILE && off + |src| <= MAXBYTES
    requires Upto(off, tot, |src|, lo, hi, end) && Fair(sb, w, NeedFor(w, i, hi), open, slots, 5, false)
    ensures Refused(sb, v, i, off, |src|, open, slots)
  {
    PassFails(sb, v, w, i, lo, hi, end, open, slots);
    SpanLogged(sb, v, w, i, lo, hi);
  }

  lemma WritingRefused(sb: Super, v: View, w: View, i: nat, off: nat, src: seq<Byte>, tot: nat, lo: nat, hi: nat,
                       end: nat, open: nat, slots: nat, logged: nat)
    requires Writing(sb, v, w, i, off, src, tot, lo, hi, open, slots) && hi < end && off + |src| <= MAXBYTES
    requires Upto(off, tot, |src|, lo, hi, end) && logged <= |w.dirty| + 5 && logged >= slots
    ensures Refused(sb, v, i, off, |src|, open, slots)
  {
    SpanLogged(sb, v, w, i, lo, hi);
  }

  lemma AllWritten(sb: Super, v: View, w: View, i: nat, off: nat, src: seq<Byte>, tot: nat, lo: nat, hi: nat, open: nat,
                   slots: nat)
    requires Writing(sb, v, w, i, off, src, tot, lo, hi, open, slots) && tot == |src| && off + |src| <= MAXBYTES
    requires Good(sb, v.disk, v.inodes, v.owner, {}) && off <= v.inodes[i].size
    requires lo == off / BSIZE && hi == Beyond(off, |src|)
    ensures LoopDone(sb, v, w, i, off, src) && Paid(sb, v, w, i, off, |src|, open, slots)
  {
    assert src[..|src|] == src;
    RoomLeft(sb, w);
    SpanLogged(sb, v, w, i, lo, hi);
    if |src| > 0 {
      AllData(sb, w, i, lo, hi, slots);
    }
  }

  /** readi's loop invariant: data has been copied out, and blocks below hi were visited. */
  ghost predicate Reading(sb: Super, v: View, w: View, i: nat, off: nat, data: seq<Byte>, lo: nat, hi: nat, open: nat)
  {
    && i < |v.inodes| && lo <= hi <= MAXFILE
    && Mapped(sb, v, w, i, PlacesOf(lo, hi)) && Filled(w, i, PlacesOf(lo, hi))
    && Copied(v, i, off, data) && Spent(v, w, i, lo, hi, open)
  }

  /** readi's loop has led from v to w and copied out data. */
  ghost predicate ReadDone(sb: Super, v: View, w: View, i: nat, off: nat, data: seq<Byte>, open: nat) {
    && i < |v.inodes| && off + |data| <= MAXBYTES && Mapped(sb, v, w, i, Visited(off, |data|)) && Copied(v, i, off, data)
    && CanPay(sb, v, Owed(v, i, off, |data|), open)
  }

  /** When readi of n bytes from off panics: if it has to allocate and cannot; and not otherwise, if the
      log has room. Where nothing is missing it changes nothing. */
  ghost predicate ReadEnds(sb: Super, v: View, w: View, i: nat, off: nat, n: nat, open: nat, slots: nat, panic: bool)
    requires Good(sb, v.disk, v.inodes, v.owner, {}) && i < |v.inodes|
  {
    && (!Affords(sb, v, i, Visited(off, n), open) ==> panic)
    && (Affords(sb, v, i, Visited(off, n), open) && Roomy(sb, v, off, n, slots) ==> !panic)
    && (Lacking(v, i, Visited(off, n)) == {} ==> !panic && w == v)
  }

  lemma HowReadEnds(sb: Super, v: View, w: View, i: nat, off: nat, n: nat, open: nat, slots: nat, ok: bool)
    requires Good(sb, v.disk, v.inodes, v.owner, {}) && i < |v.inodes| && off + n <= MAXBYTES
    requires !ok ==> Owed(v, i, off, n) > 0 && Refused(sb, v, i, off, n, open, slots)
    requires ok ==> CanPay(sb, v, Owed(v, i, off, n), open) && (Owed(v, i, off, n) == 0 ==> w == v)
    ensures ReadEnds(sb, v, w, i, off, n, open, slots, !ok)
  {
    AffordsVisited(sb, v, i, off, n, open);
  }

  /** A file without holes lacks nothing below its end, so that reading it, or writing over it inside an
      operation, never has to allocate. */
  lemma WholeLacksNone(sb: Super, v: View, i: nat, off: nat, n: nat, open: nat)
    requires Good(sb, v.disk, v.inodes, v.owner, {}) && i < |v.inodes| && NoHoles(v.disk, v.inodes[i])
    requires off + n <= v.inodes[i].size <= MAXBYTES
    ensures Lacking(v, i, Visited(off, n)) == {} && Affords(sb, v, i, Visited(off, n), open)
  {
    WholeLacksNothing(v, i, off / BSIZE, Beyond(off, n));
  }

  lemma ReadingNothing(sb: Super, v: View, i: nat, off: nat, lo: nat, open: nat)
    requires Good(sb, v.disk, v.inodes, v.owner, {}) && i < |v.inodes| && lo <= MAXFILE
    ensures Reading(sb, v, v, i, off, [], lo, lo, open)
  {
    MappedStill(sb, v, i);
  }

  lemma ReadingStuck(sb: Super, v: View, w: View, i: nat, off: nat, data: seq<Byte>, len: nat, lo: nat, hi: nat, end: nat,
                     open: nat, slots: nat)
    requires Reading(sb, v, w, i, off, data, lo, hi, open) && hi < end <= MAXFILE && off + len <= MAXBYTES
    requires Upto(off, |data|, len, lo, hi, end) && Fair(sb, w, NeedFor(w, i, hi), open, slots, 5, false)
    ensures Owed(v, i, off, len) > 0 && Refused(sb, v, i, off, len, open, slots)
  {
    PassFails(sb, v, w, i, lo, hi, end, open, slots);
    SpanLogged(sb, v, w, i, lo, hi);
  }

  lemma AllRead(sb: Super, v: View, w: View, i: nat, off: nat, data: seq<Byte>, lo: nat, hi: nat, open: nat)
    requires Reading(sb, v, w, i, off, data, lo, hi, open) && off + |data| <= MAXBYTES
    requires lo == off / BSIZE && hi == Beyond(off, |data|)
    ensures ReadDone(sb, v, w, i, off, data, open)
  {
    RoomLeft(sb, w);
  }

  /** bmap for block bn has led from w to x. */
  ghost predicate Fetched(sb: Super, w: View, x: View, i: nat, bn: nat, open: nat) {
    && i < |w.inodes| && bn < MAXFILE && Mapped(sb, w, x, i, Places(bn)) && Filled(x, i, Places(bn))
    && CanPay(sb, w, NeedFor(w, i, bn), open) && |x.owner| == |w.owner| + NeedFor(w, i, bn)
  }

  lemma FetchedDirect(sb: Super, w: View, x: View, i: nat, bn: nat, open: nat)
    requires i < |w.inodes| && bn < NDIRECT && Mapped(sb, w, x, i, {bn}) && x.inodes[i].addrs[bn] != 0
    requires CanPay(sb, w, Need(w, i, bn), open) && |x.owner| == |w.owner| + Need(w, i, bn)
    ensures Fetched(sb, w, x, i, bn, open)
    ensures SlotAddr(x.disk, x.inodes[i], DataPos(bn)) == x.inodes[i].addrs[bn] < |x.disk|
  {
    assert Places(bn) == {bn};
    BothFilled(sb, x, i, bn);
  }

  lemma LeafPrice(sb: Super, v: View, mid: View, i: nat, k: nat, open: nat, slots: nat, ok: bool)
    requires i < |v.inodes| == |mid.inodes| && k < NINDIRECT && Need(mid, i, 13 + k) == Need(v, i, 13 + k)
    requires |mid.owner| == |v.owner| + Need(v, i, NDIRECT)
    requires Fair(sb, v, Need(v, i, NDIRECT), open, slots, 2, true) && |mid.dirty| <= |v.dirty| + 2
    requires Fair(sb, mid, Need(mid, i, 13 + k), open, slots, 3, ok)
    ensures Fair(sb, v, NeedFor(v, i, NDIRECT + k), open, slots, 5, ok)
  {
    FairTwice(sb, v, mid, Need(v, i, NDIRECT), Need(v, i, 13 + k), NeedFor(v, i, NDIRECT + k), open, slots, 2, 3, ok);
  }

  lemma TwoFetched(sb: Super, v: View, mid: View, x: View, i: nat, k: nat, open: nat)
    requires i < |v.inodes| && k < NINDIRECT && CanPay(sb, v, NeedFor(v, i, NDIRECT + k), open)
    requires Mapped(sb, v, mid, i, {NDIRECT}) && mid.inodes[i].addrs[NDIRECT] != 0
    requires |mid.owner| == |v.owner| + Need(v, i, NDIRECT)
    requires Mapped(sb, mid, x, i, Places(NDIRECT + k)) && x.inodes == mid.inodes && SlotAddr(x.disk, x.inodes[i], 13 + k) != 0
    requires |x.owner| == |mid.owner| + Need(mid, i, 13 + k)
    ensures Fetched(sb, v, x, i, NDIRECT + k, open) && SlotAddr(x.disk, x.inodes[i], 13 + k) < |x.disk|
  {
    assert Need(mid, i, 13 + k) == Need(v, i, 13 + k) by { LeafUnmoved(sb, v, mid, i, k); }
    assert Mapped(sb, v, x, i, Places(NDIRECT + k)) by { TwoLinks(sb, v, mid, x, i, k); }
    assert Filled(x, i, Places(NDIRECT + k)) by { BothFilled(sb, x, i, NDIRECT + k); }
  }

  lemma FetchedIndirect(sb: Super, v: View, x: View, i: nat, bn: nat, k: nat, open: nat)
    requires Fetched(sb, v, x, i, NDIRECT + k, open) && bn == NDIRECT + k
    ensures Fetched(sb, v, x, i, bn, open) && SlotAddr(v.disk, v.inodes[i], DataPos(bn)) == SlotAddr(v.disk, v.inodes[i], 13 + k)
    ensures SlotAddr(x.disk, x.inodes[i], DataPos(bn)) == SlotAddr(x.disk, x.inodes[i], 13 + k)
  {
  }

  lemma ReadingStep(sb: Super, v: View, w: View, x: View, i: nat, off: nat, data: seq<Byte>, next: seq<Byte>, lo: nat,
                    bn: nat, o: nat, m: nat, open: nat, a: nat)
    requires lo <= bn < MAXFILE && off + |data| == bn * BSIZE + o && 0 < m && o + m <= BSIZE
    requires 0 < a < |x.disk| && i < |x.inodes| && a == SlotAddr(x.disk, x.inodes[i], DataPos(bn))
    requires Reading(sb, v, w, i, off, data, lo, bn, open) && Fetched(sb, w, x, i, bn, open)
    requires next == data + Piece(x.disk[a], o, m)
    ensures Reading(sb, v, x, i, off, next, lo, bn + 1, open)
  {
    assert Spent(v, x, i, lo, bn + 1, open) by { SpentMore(sb, v, w, i, lo, bn, open, |x.owner|); }
    assert Mapped(sb, v, x, i, PlacesOf(lo, bn + 1)) by { MappedTwice(sb, v, w, x, i, PlacesOf(lo, bn), Places(bn)); }
    assert Filled(x, i, PlacesOf(lo, bn + 1)) by { StillFilled(sb, w, x, i, PlacesOf(lo, bn), Places(bn)); }
    assert Copied(v, i, off, next) by { ReadBytes(v, x, i, off, data, bn, o, m); }
  }

  lemma ReadingTo(sb: Super, v: View, x: View, i: nat, off: nat, data: seq<Byte>, len: nat, lo: nat, hi: nat, to: nat,
                  end: nat, open: nat)
    requires Reading(sb, v, x, i, off, data, lo, hi + 1, open) && Upto(off, |data|, len, lo, hi + 1, end) && to == hi + 1
    ensures Reading(sb, v, x, i, off, data, lo, to, open) && Upto(off, |data|, len, lo, to, end)
  {
  }

  lemma ReadingFree(sb: Super, v: View, w: View, x: View, i: nat, off: nat, data: seq<Byte>, lo: nat, hi: nat, end: nat,
                    open: nat)
    requires Reading(sb, v, w, i, off, data, lo, hi, open) && Fetched(sb, w, x, i, hi, open) && hi < end <= MAXFILE
    ensures Debt(v, i, lo, end) == 0 ==> SlotAddr(w.disk, w.inodes[i], DataPos(hi)) != 0
  {
    NothingMissing(v, w, i, lo, hi, end);
  }

  lemma StillFilled(sb: Super, w: View, x: View, i: nat, ps: set<nat>, qs: set<nat>)
    requires Filled(w, i, ps) && Mapped(sb, w, x, i, qs) && Filled(x, i, qs)
    ensures Filled(x, i, ps + qs)
  {
    forall q: nat | q in ps + qs && q < POSITIONS
      ensures SlotAddr(x.disk, x.inodes[i], q) != 0
    {
      assert q in ps ==> SlotAddr(w.disk, w.inodes[i], q) != 0;
    }
  }

  ghost predicate Copied(v: View, i: nat, off: nat, data: seq<Byte>)
    requires i < |v.inodes|
  {
    forall t: nat :: t < |data| ==> data[t] == FileByte(v.disk, v.inodes[i], off + t)
  }

  lemma CopiedIsSlice(v: View, i: nat, off: nat, data: seq<Byte>)
    requires i < |v.inodes| && Copied(v, i, off, data) && off + |data| <= v.inodes[i].size
    ensures data == Contents(v.disk, v.inodes[i])[off..off + |data|]
  {
    var whole := Contents(v.disk, v.inodes[i]);
    forall t: nat | t < |data|
      ensures data[t] == whole[off..off + |data|][t]
    {
      ContentsAt(v.disk, v.inodes[i], off + t);
    }
  }

  lemma ReadBytes(v: View, x: View, i: nat, off: nat, data: seq<Byte>, bn: nat, o: nat, m: nat)
    requires SameFiles(v.disk, v.inodes, x.disk, x.inodes) && i < |v.inodes|
    requires Copied(v, i, off, data)
    requires bn < MAXFILE && off + |data| == bn * BSIZE + o && 0 < m && o + m <= BSIZE
    requires 0 < SlotAddr(x.disk, x.inodes[i], DataPos(bn)) < |x.disk|
    ensures Copied(v, i, off, data + x.disk[SlotAddr(x.disk, x.inodes[i], DataPos(bn))][o..o + m])
  {
    var a := SlotAddr(x.disk, x.inodes[i], DataPos(bn));
    var all := data + x.disk[a][o..o + m];
    forall t: nat | t < |all|
      ensures all[t] == FileByte(v.disk, v.inodes[i], off + t)
    {
      if t >= |data| {
        var k := o + (t - |data|);
        assert all[t] == x.disk[a][k];
        ReadByte(x.disk, x.inodes[i], bn, k);
        assert off + t == bn * BSIZE + k;
        assert FileByte(x.disk, x.inodes[i], off + t) == FileByte(v.disk, v.inodes[i], off + t);
      }
    }
  }

  lemma ReadByte(d: Disk, n: Dinode, bn: nat, o: nat)
    requires bn < MAXFILE && o < BSIZE && 0 < SlotAddr(d, n, DataPos(bn)) < |d|
    ensures FileByte(d, n, bn * BSIZE + o) == d[SlotAddr(d, n, DataPos(bn))][o]
  {
    assert (bn * BSIZE + o) / BSIZE == bn && (bn * BSIZE + o) % BSIZE == o;
  }

  lemma Joined(s: seq<Byte>, i: nat, j: nat)
    requires i <= j <= |s|
    ensures s[..i] + s[i..j] == s[..j]
  {
  }

  /** A pass of writei's loop ends the write or its block. */
  lemma NextBlock(off: nat, tot: nat, n: nat, m: nat)
    requires tot < n && m == if n - tot < BSIZE - (off + tot) % BSIZE then n - tot else BSIZE - (off + tot) % BSIZE
    ensures (off + tot) / BSIZE + 1 == if tot + m < n then (off + tot + m) / BSIZE else Beyond(off, n)
    ensures (off + tot) / BSIZE < Beyond(off, n)
  {
  }

  ghost predicate SameSlots(w: View, x: View) {
    && |w.inodes| == |x.inodes|
    && forall k: nat, q: nat {:trigger SlotAddr(x.disk, x.inodes[k], q)} ::
         k < |w.inodes| && q < POSITIONS ==> SlotAddr(x.disk, x.inodes[k], q) == SlotAddr(w.disk, w.inodes[k], q)
  }

  ghost predicate SameTable(sb: Super, w: View, x: View, i: nat)
    requires sb.Valid() && |w.disk| == sb.size == |x.disk| && |w.inodes| == sb.ninodes
  {
    forall k: nat :: k < |w.inodes| && k != i ==> OnDisk(sb, x.disk, k) == OnDisk(sb, w.disk, k)
  }

  /** iupdate has led from w to x: the inode's place in the table is up to date, nothing else differs. */
  ghost predicate Rewritten(sb: Super, w: View, x: View, i: nat) {
    && sb.Valid() && |w.disk| == sb.size == |x.disk| && |w.inodes| == sb.ninodes
    && x == w.(disk := x.disk, dirty := w.dirty + {sb.inodestart + i / IPB})
    && (forall b: nat :: sb.nmeta <= b < |w.disk| ==> x.disk[b] == w.disk[b])
    && Synced(sb, x, i) && SameTable(sb, w, x, i) && SameSlots(w, x)
    && SameFiles(w.disk, w.inodes, x.disk, x.inodes)
  }

  lemma RewriteKeeps(sb: Super, w: View, i: nat)
    requires Good(sb, w.disk, w.inodes, w.owner, {}) && i < |w.inodes| && sb.inodestart + i / IPB < |w.disk|
    ensures var x := w.(disk := Stored(sb, w.disk, i, w.inodes[i]), dirty := w.dirty + {sb.inodestart + i / IPB});
            Good(sb, x.disk, x.inodes, x.owner, {}) && Rewritten(sb, w, x, i)
  {
    var ib, e := sb.inodestart + i / IPB, Stored(sb, w.disk, i, w.inodes[i]);
    assert i / IPB <= sb.ninodes / IPB;
    assert ib < sb.bmapstart && ib !in w.owner && e == w.disk[ib := e[ib]];
    StrayWrite(sb, w.disk, w.inodes, w.owner, ib, e[ib]);
    WriteKeepsGood(sb, w.disk, w.inodes, w.owner, {}, ib, e[ib]);
    StoredTable(sb, w.disk, w.inodes, i);
  }

  lemma StoredTable(sb: Super, d: Disk, ns: seq<Dinode>, i: nat)
    requires sb.Valid() && |d| == sb.size && |ns| == sb.ninodes && i < |ns| && sb.inodestart + i / IPB < |d|
    ensures forall k: nat :: k < |ns| ==> sb.inodestart + k / IPB < |d|
    ensures forall k: nat :: k < |ns| ==>
      OnDisk(sb, Stored(sb, d, i, ns[i]), k) == if k == i then ns[i] else OnDisk(sb, d, k)
  {
    forall k: nat | k < |ns|
      ensures sb.inodestart + k / IPB < |d|
      ensures OnDisk(sb, Stored(sb, d, i, ns[i]), k) == if k == i then ns[i] else OnDisk(sb, d, k)
    {
      assert k / IPB <= sb.ninodes / IPB;
      OnDiskStored(sb, d, i, ns[i], k);
    }
  }

  /** From the end of writei's loop (w) to its return (x): when the write ends at end, past the
      old size, the size is set and the inode is stored. */
  ghost predicate Settled(sb: Super, w: View, x: View, i: nat, end: nat)
    requires Good(sb, w.disk, w.inodes, w.owner, {}) && i < |w.inodes| && end < 0x1_0000_0000
  {
    && SameSlots(w, x) && SameFiles(w.disk, w.inodes, x.disk, x.inodes) && |x.disk| == |w.disk|
    && x.owner == w.owner && w.dirty <= x.dirty <= w.dirty + {sb.inodestart + i / IPB}
    && SameTable(sb, w, x, i)
    && (end > w.inodes[i].size ==> Resized(w.inodes, x.inodes, i, end) && Synced(sb, x, i))
    && (end <= w.inodes[i].size ==> x == w)
  }

  lemma SettledStill(sb: Super, w: View, i: nat, end: nat)
    requires Good(sb, w.disk, w.inodes, w.owner, {}) && i < |w.inodes| && end <= w.inodes[i].size
    ensures Settled(sb, w, w, i, end)
  {
  }

  lemma SettledContents(sb: Super, v: View, w: View, x: View, i: nat, off: nat, src: seq<Byte>)
    requires Wrote(v, w, i, off, src) && SameFiles(w.disk, w.inodes, x.disk, x.inodes)
    requires i < |v.inodes| && off <= v.inodes[i].size
    requires x.inodes[i].size == if off + |src| > v.inodes[i].size then off + |src| else v.inodes[i].size
    ensures Contents(x.disk, x.inodes[i]) == Overlay(Contents(v.disk, v.inodes[i]), off, src)
  {
    var c, e := Contents(v.disk, v.inodes[i]), Contents(x.disk, x.inodes[i]);
    var o := Overlay(c, off, src);
    forall j: nat | j < |e|
      ensures e[j] == o[j]
    {
      ContentsAt(x.disk, x.inodes[i], j);
      if j < |c| {
        ContentsAt(v.disk, v.inodes[i], j);
      }
      assert FileByte(x.disk, x.inodes[i], j) == FileByte(w.disk, w.inodes[i], j)
          == if off <= j < off + |src| then src[j - off] else FileByte(v.disk, v.inodes[i], j);
    }
  }

  lemma SettledOthers(v: View, w: View, x: View, i: nat, off: nat, src: seq<Byte>, k: nat)
    requires Wrote(v, w, i, off, src) && SameFiles(w.disk, w.inodes, x.disk, x.inodes)
    requires k < |v.inodes| && k != i && x.inodes[k] == v.inodes[k]
    ensures Contents(x.disk, x.inodes[k]) == Contents(v.disk, v.inodes[k])
  {
    var c, e := Contents(v.disk, v.inodes[k]), Contents(x.disk, x.inodes[k]);
    forall j: nat | j < |e|
      ensures e[j] == c[j]
    {
      ContentsAt(x.disk, x.inodes[k], j);
      ContentsAt(v.disk, v.inodes[k], j);
      assert FileByte(x.disk, x.inodes[k], j) == FileByte(w.disk, w.inodes[k], j) == FileByte(v.disk, v.inodes[k], j);
    }
  }

  /** A write that starts inside the file leaves no hole behind. */
  lemma SettledNoHoles(sb: Super, v: View, w: View, x: View, i: nat, off: nat, src: seq<Byte>, k: nat)
    requires Written(sb, v, w, i, off, src, Visited(off, |src|)) && SameSlots(w, x)
    requires i < |v.inodes| && off <= v.inodes[i].size && k < |v.inodes| && NoHoles(v.disk, v.inodes[k])
    requires k != i ==> x.inodes[k].size == v.inodes[k].size
    requires k == i ==> x.inodes[i].size == if off + |src| > v.inodes[i].size then off + |src| else v.inodes[i].size
    ensures NoHoles(x.disk, x.inodes[k])
  {
    forall bn: nat | bn < MAXFILE && bn * BSIZE < x.inodes[k].size
      ensures SlotAddr(x.disk, x.inodes[k], DataPos(bn)) != 0
    {
      var p := DataPos(bn);
      assert SlotAddr(x.disk, x.inodes[k], p) == SlotAddr(w.disk, w.inodes[k], p);
      if bn * BSIZE >= v.inodes[k].size {
        assert k == i && off / BSIZE <= bn < Beyond(off, |src|);
        PlaceIn(off / BSIZE, Beyond(off, |src|), p);
        assert p in Places(bn);
      } else {
        assert SlotAddr(v.disk, v.inodes[k], p) != 0;
      }
    }
  }

  lemma TableSynced(sb: Super, v: View, w: View, k: nat)
    requires TableKept(sb, v.disk, w.disk) && sb.Valid() && |v.disk| == sb.size && k < sb.ninodes
    ensures sb.inodestart + k / IPB < |v.disk| && OnDisk(sb, w.disk, k) == OnDisk(sb, v.disk, k)
  {
    assert k / IPB <= sb.ninodes / IPB;
  }

  ghost predicate LoopDone(sb: Super, v: View, w: View, i: nat, off: nat, src: seq<Byte>) {
    && Good(sb, v.disk, v.inodes, v.owner, {}) && i < |v.inodes| && off <= v.inodes[i].size
    && off + |src| <= MAXBYTES
    && Written(sb, v, w, i, off, src, Visited(off, |src|)) && |w.owner| == |v.owner| + Owed(v, i, off, |src|)
  }

  lemma TableSettled(sb: Super, v: View, w: View, x: View, i: nat, off: nat, src: seq<Byte>)
    requires LoopDone(sb, v, w, i, off, src) && Settled(sb, w, x, i, off + |src|)
    ensures TableDone(sb, v, x, i, off, |src|)
  {
    forall k: nat | k < |v.inodes| && k != i
      ensures Synced(sb, x, k) <==> Synced(sb, v, k)
    {
      TableSynced(sb, v, w, k);
      assert x.inodes[k] == w.inodes[k] == v.inodes[k];
    }
    assert Synced(sb, v, i) ==>
        (Synced(sb, x, i) <==> off + |src| > v.inodes[i].size || HasPointers(v.inodes[i], off, |src|)) by {
      if Synced(sb, v, i) {
        OwnSettled(sb, v, w, x, i, off, src);
      }
    }
  }

  lemma OwnSettled(sb: Super, v: View, w: View, x: View, i: nat, off: nat, src: seq<Byte>)
    requires LoopDone(sb, v, w, i, off, src) && Settled(sb, w, x, i, off + |src|) && Synced(sb, v, i)
    ensures Synced(sb, x, i) <==> off + |src| > v.inodes[i].size || HasPointers(v.inodes[i], off, |src|)
  {
    PointersKept(sb, v, w, i, off, src);
    TableSynced(sb, v, w, i);
  }

  lemma OthersSettled(sb: Super, v: View, w: View, x: View, i: nat, off: nat, src: seq<Byte>)
    requires LoopDone(sb, v, w, i, off, src) && Settled(sb, w, x, i, off + |src|)
    ensures OthersKept(v, x, i)
  {
    forall k: nat | k < |v.inodes| && k != i
      ensures x.inodes[k] == v.inodes[k] && Contents(x.disk, x.inodes[k]) == Contents(v.disk, v.inodes[k])
    {
      SettledOthers(v, w, x, i, off, src, k);
    }
  }

  lemma HolesSettled(sb: Super, v: View, w: View, x: View, i: nat, off: nat, src: seq<Byte>)
    requires LoopDone(sb, v, w, i, off, src) && Settled(sb, w, x, i, off + |src|)
    ensures HolesKept(v, x)
  {
    forall k: nat | k < |v.inodes| && NoHoles(v.disk, v.inodes[k])
      ensures NoHoles(x.disk, x.inodes[k])
    {
      SettledNoHoles(sb, v, w, x, i, off, src, k);
    }
  }

  lemma WriteSettled(sb: Super, v: View, w: View, x: View, i: nat, off: nat, src: seq<Byte>, end: Word)
    requires LoopDone(sb, v, w, i, off, src) && end == off + |src| && Settled(sb, w, x, i, end)
    ensures WriteDone(sb, v, x, i, off, src)
  {
    SettledContents(sb, v, w, x, i, off, src);
    OthersSettled(sb, v, w, x, i, off, src);
    HolesSettled(sb, v, w, x, i, off, src);
    TableSettled(sb, v, w, x, i, off, src);
    SlotsSettled(sb, v, w, x, i, off, src);
  }

  lemma NotGrown(sb: Super, v: View, w: View, i: nat, off: nat, src: seq<Byte>, end: Word)
    requires LoopDone(sb, v, w, i, off, src) && end == off + |src| <= w.inodes[i].size
    ensures Good(sb, w.disk, w.inodes, w.owner, {}) && WriteDone(sb, v, w, i, off, src)
  {
    SettledStill(sb, w, i, end);
    WriteSettled(sb, v, w, w, i, off, src, end);
  }

  lemma SlotsSettled(sb: Super, v: View, w: View, x: View, i: nat, off: nat, src: seq<Byte>)
    requires LoopDone(sb, v, w, i, off, src) && Settled(sb, w, x, i, off + |src|)
    ensures Allotted(v, x, i, Visited(off, |src|))
  {
    forall q: nat | q < POSITIONS
      ensures SlotAddr(x.disk, x.inodes[i], q) == SlotAddr(w.disk, w.inodes[i], q)
    {
    }
  }

  // ---- consequences of writei's contract ----

  lemma WholeHasPointers(d: Disk, n: Dinode, off: nat, len: nat)
    requires NoHoles(d, n) && off + len <= n.size && off + len <= MAXBYTES
    ensures HasPointers(n, off, len)
  {
    forall bn: nat | off / BSIZE <= bn < Beyond(off, len)
      ensures Pointer(n, bn) != 0
    {
      assert bn * BSIZE < n.size && bn < MAXFILE;
      assert SlotAddr(d, n, DataPos(bn)) != 0;
    }
  }

  /** In a file without holes every write leaves the inode on disk equal to the one in memory. */
  lemma WriteThrough(sb: Super, v: View, w: View, i: nat, off: nat, src: seq<Byte>)
    requires i < |v.inodes| && TableDone(sb, v, w, i, off, |src|) && off + |src| <= MAXBYTES
    requires NoHoles(v.disk, v.inodes[i]) && Synced(sb, v, i)
    ensures Synced(sb, w, i)
  {
    if off + |src| <= v.inodes[i].size {
      WholeHasPointers(v.disk, v.inodes[i], off, |src|);
    }
  }

  /** A hole is what breaks it: overwriting inside it, without growing the file, fills in an address
      that only the inode in memory then has. */
  lemma HoleIsNotWrittenThrough(sb: Super, v: View, w: View, i: nat, off: nat, src: seq<Byte>, bn: nat)
    requires i < |v.inodes| && TableDone(sb, v, w, i, off, |src|) && off + |src| <= v.inodes[i].size
    requires off / BSIZE <= bn < Beyond(off, |src|) && Pointer(v.inodes[i], bn) == 0 && Synced(sb, v, i)
    ensures !Synced(sb, w, i)
  {
  }

  /** One direct block is in reach, and one block is free. */
  lemma OneBlock(sb: Super, v: View, i: nat, off: nat, n: nat, bn: nat, open: nat)
    requires Good(sb, v.disk, v.inodes, v.owner, {}) && i < |v.inodes| && open >= 1
    requires off / BSIZE == bn < NDIRECT && Beyond(off, n) == bn + 1 && off + n <= MAXBYTES && Room(sb, v) >= 1
    ensures Visited(off, n) == {bn} && Owed(v, i, off, n) <= 1 && Affords(sb, v, i, Visited(off, n), open)
  {
    assert PlacesOf(bn, bn) == {};
    assert Debt(v, i, bn, bn) == 0;
    AffordsVisited(sb, v, i, off, n, open);
  }

  /** An inode as mkfs's ialloc leaves it. */
  ghost predicate Fresh(n: Dinode, typ: Half) {
    n.typ == typ && n.nlink == 1 && n.size == 0 && n.addrs == UNUSED.addrs
  }

  /** mkfs appends one block of entries to the root directory. */
  method FillRoot(fs: Fs, dir: seq<Byte>, ghost u: View)
    requires fs.Valid() && u == fs.Now() && fs.outstanding >= 1 && Room(fs.sb, u) >= 2 && |dir| == BSIZE
    requires 1 < |u.inodes| && Fresh(u.inodes[1], T_DIR)
    requires |u.dirty| + BitmapCount(fs.sb) + 7 <= fs.slots
    modifies fs
    ensures fs.Valid() && fs.outstanding == old(fs.outstanding) && Room(fs.sb, fs.Now()) >= 1
    ensures 1 < |fs.inodes| && fs.inodes[1].typ == T_DIR && fs.inodes[1].nlink == 1 && fs.inodes[1].size == BSIZE
    ensures fs.inodes[1].addrs[0] != 0 && fs.inodes[1].addrs[1] == 0
  {
    OneBlock(fs.sb, u, 1, 0, |dir|, 0, fs.outstanding);
    var r := fs.Writei(1, dir, 0);
    RootFilled(fs.sb, u, fs.Now(), dir);
  }

  /** Up to there each step is its own operation. */
  method MakeRoot(fs: Fs, dir: seq<Byte>)
    requires fs.Valid() && fs.Committed() && Room(fs.sb, fs.Now()) >= 2 && |dir| == BSIZE
    requires 1 < |fs.inodes| && fs.inodes[1] == UNUSED && fs.slots >= BitmapCount(fs.sb) + 17
    modifies fs
    ensures fs.Valid() && fs.Committed() && Room(fs.sb, fs.Now()) >= 1
    ensures 1 < |fs.inodes| && fs.inodes[1].typ == T_DIR && fs.inodes[1].nlink == 1 && fs.inodes[1].size == BSIZE
    ensures fs.inodes[1].addrs[0] != 0 && fs.inodes[1].addrs[1] == 0
  {
    fs.BeginOp();
    var ok := fs.Label(1, T_DIR);
    fs.EndOp();
    fs.BeginOp();
    FillRoot(fs, dir, fs.Now());
    fs.EndOp();
  }

  /** The size is rounded up by a whole block. */
  method RoundUp(fs: Fs)
    requires fs.Valid() && fs.Committed() && 1 < |fs.inodes| && fs.inodes[1].size == BSIZE && fs.slots > L.MAXOPBLOCKS
    modifies fs
    ensures fs.Valid() && fs.Committed() && |fs.owner| == |old(fs.owner)| && Synced(fs.sb, fs.Now(), 1)
    ensures 1 < |fs.inodes| && fs.inodes[1] == old(fs.inodes[1]).(size := 2 * BSIZE)
  {
    fs.BeginOp();
    ghost var w, y := fs.Now(), fs.Now();
    var ok;
    ok, y := fs.Extend(1, 2 * BSIZE, w);
    fs.EndOp();
  }

  lemma RootFilled(sb: Super, u: View, w: View, dir: seq<Byte>)
    requires WriteDone(sb, u, w, 1, 0, dir) && |dir| == BSIZE && Visited(0, |dir|) == {0}
    requires Fresh(u.inodes[1], T_DIR)
    ensures w.inodes[1].typ == T_DIR && w.inodes[1].nlink == 1 && w.inodes[1].size == BSIZE
    ensures w.inodes[1].addrs[0] != 0 && w.inodes[1].addrs[1] == 0
  {
    assert SlotAddr(w.disk, w.inodes[1], 0) == w.inodes[1].addrs[0];
    assert SlotAddr(w.disk, w.inodes[1], 1) == w.inodes[1].addrs[1];
    assert |Contents(w.disk, w.inodes[1])| == w.inodes[1].size;
  }

  /** One byte is written into the hole. */
  method WriteInHole(fs: Fs, x: Byte, ghost v: View)
    requires fs.Valid() && v == fs.Now() && fs.outstanding >= 1 && Room(fs.sb, v) >= 1
    requires |v.dirty| + BitmapCount(fs.sb) + 7 <= fs.slots
    requires 1 < |v.inodes| && v.inodes[1].size == 2 * BSIZE && v.inodes[1].typ == T_DIR && v.inodes[1].addrs[1] == 0
    requires Synced(fs.sb, v, 1)
    modifies fs
    ensures fs.Valid() && 1 < |fs.inodes| && !Synced(fs.sb, fs.Now(), 1)
    ensures Contents(fs.disk, fs.inodes[1]) == Overlay(Contents(v.disk, v.inodes[1]), BSIZE, [x])
  {
    OneBlock(fs.sb, v, 1, BSIZE, 1, 1, fs.outstanding);
    var r := fs.Writei(1, [x], BSIZE);
    HoleIsNotWrittenThrough(fs.sb, v, fs.Now(), 1, BSIZE, [x], 1);
  }

  /** Such a hole as mkfs makes it, on any layout with two data blocks: a root directory of exactly one
      block is rounded up to the next block size. The image is then sound and the inode on disk is up
      to date, but a byte written to the second block is lost to whoever reads the inode from disk. */
  method RootDirectoryHole(layout: Super, slots: nat, dir: seq<Byte>, x: Byte) returns (fs: Fs, ghost v: View)
    requires layout.Valid() && layout.nmeta < BPB && layout.nmeta + 2 <= layout.size && layout.ninodes >= 2
    requires |dir| == BSIZE && slots >= BitmapCount(layout) + 17
    ensures fresh(fs) && fs.sb == layout && fs.slots == slots && fs.Valid()
    ensures Good(layout, v.disk, v.inodes, v.owner, {}) && 1 < |v.inodes| && Synced(layout, v, 1)
    ensures v.inodes[1].typ == T_DIR && v.inodes[1].nlink == 1
    ensures v.inodes[1].size == 2 * BSIZE && v.inodes[1].addrs[0] != 0 && v.inodes[1].addrs[1] == 0
    ensures 1 < |fs.inodes| && Contents(fs.disk, fs.inodes[1]) == Overlay(Contents(v.disk, v.inodes[1]), BSIZE, [x])
    ensures !Synced(layout, fs.Now(), 1)
  {
    fs := new Fs(layout, slots);
    MakeRoot(fs, dir);
    RoundUp(fs);
    fs.BeginOp();
    v := fs.Now();
    WriteInHole(fs, x, v);
  }

  ghost function VisitedBlock(w: View, i: nat, p: nat): (a: nat)
    requires i < |w.inodes|
  {
    if p < POSITIONS then SlotAddr(w.disk, w.inodes[i], p) else 0
  }

  /** A write of at most 1536 bytes visits at most four data blocks. */
  lemma VisitedPlace(off: nat, len: nat, q: nat)
    requires len <= 1536 && q in Visited(off, len)
    ensures var lo := off / BSIZE;
            q == NDIRECT || q == DataPos(lo) || q == DataPos(lo + 1) || q == DataPos(lo + 2) || q == DataPos(lo + 3)
  {
    var lo, hi := off / BSIZE, Beyond(off, len);
    PlaceIn(lo, hi, q);
    var bn: nat :| lo <= bn < hi && q in Places(bn);
    assert hi <= lo + 4;
  }

  lemma {:induction false} FewElements(s: set<nat>, t: seq<nat>)
    requires forall x: nat :: x in s ==> x in t
    ensures |s| <= |t|
    decreases |t|
  {
    if t == [] {
      assert s == {};
    } else {
      FewElements(s - {t[0]}, t[1..]);
    }
  }

  /** The blocks one chunk of filewrite can give to log_write, with a bitmap of one block. */
  ghost function ChunkBlocks(sb: Super, w: View, i: nat, lo: nat): (few: seq<nat>)
    requires i < |w.inodes|
    ensures |few| == 7
  {
    [sb.bmapstart, sb.inodestart + i / IPB, VisitedBlock(w, i, NDIRECT),
     VisitedBlock(w, i, DataPos(lo)), VisitedBlock(w, i, DataPos(lo + 1)),
     VisitedBlock(w, i, DataPos(lo + 2)), VisitedBlock(w, i, DataPos(lo + 3))]
  }

  lemma InChunk(sb: Super, w: View, i: nat, off: nat, len: nat, b: nat)
    requires Held(sb, w.disk, w.inodes, w.owner) && i < |w.inodes| && len <= 1536
    requires b in w.owner && w.owner[b].inum == i && w.owner[b].pos in Visited(off, len)
    ensures b in ChunkBlocks(sb, w, i, off / BSIZE)
  {
    var few, q := ChunkBlocks(sb, w, i, off / BSIZE), w.owner[b].pos;
    VisitedPlace(off, len, q);
    assert b == VisitedBlock(w, i, q);
    assert b == few[2] || b == few[3] || b == few[4] || b == few[5] || b == few[6];
  }

  /** One chunk of filewrite, with a bitmap of one block, gives log_write at most seven blocks. */
  lemma ChunkFitsLog(sb: Super, v: View, w: View, i: nat, off: nat, len: nat)
    requires Good(sb, w.disk, w.inodes, w.owner, {}) && i < |w.inodes| && sb.size <= BPB
    requires Logged(sb, v, w, i, off, len) && len <= 1536
    ensures |w.dirty - v.dirty| <= 7
  {
    var few := ChunkBlocks(sb, w, i, off / BSIZE);
    forall b: nat | b in w.dirty - v.dirty
      ensures b in few
    {
      if IsBitmap(sb, b) {
        assert b == few[0];
      } else if b == sb.inodestart + i / IPB {
        assert b == few[1];
      } else {
        InChunk(sb, w, i, off, len, b);
      }
    }
    FewElements(w.dirty - v.dirty, few);
  }

  // ---- itrunc ----

  /** What itrunc has done: the inode is empty in memory and on disk, exactly its blocks have left
      the ledger, and no block beyond the metadata was written. */
  ghost predicate Truncated(sb: Super, v: View, w: View, i: nat, typ: Half) {
    && i < |v.inodes| == |w.inodes| && |v.disk| == |w.disk|
    && w.inodes[i] == v.inodes[i].(typ := typ, size := 0, addrs := w.inodes[i].addrs)
    && (forall q: nat :: q <= NDIRECT ==> w.inodes[i].addrs[q] == 0)
    && (forall k: nat :: k < |v.inodes| && k != i ==> w.inodes[k] == v.inodes[k])
    && (forall b: nat :: sb.nmeta <= b < |v.disk| ==> w.disk[b] == v.disk[b])
    && Without(v.owner, w.owner, i, POSITIONS)
    && Synced(sb, w, i)
    && (forall k: nat :: k < |v.inodes| && k != i ==> (Synced(sb, w, k) <==> Synced(sb, v, k)))
  }

  lemma TruncateSettled(sb: Super, v: View, w: View, x: View, y: View, i: nat)
    requires Good(sb, v.disk, v.inodes, v.owner, {}) && Cleared(sb, v, w, i, POSITIONS)
    requires x == w.(inodes := Sized(w.inodes, i, 0)) && Rewritten(sb, x, y, i)
    ensures Truncated(sb, v, y, i, v.inodes[i].typ)
  {
    forall k: nat | k < |v.inodes| && k != i
      ensures Synced(sb, y, k) <==> Synced(sb, v, k)
    {
      TruncateSynced(sb, v, w, x, y, i, k);
    }
  }

  lemma TruncateSynced(sb: Super, v: View, w: View, x: View, y: View, i: nat, k: nat)
    requires sb.Valid() && |v.disk| == sb.size && |v.inodes| == |w.inodes| == sb.ninodes && OnlyBitmap(sb, v.disk, w.disk)
    requires k < |v.inodes| && k != i && i < |w.inodes| && w.inodes[k] == v.inodes[k]
    requires x == w.(inodes := Sized(w.inodes, i, 0)) && Rewritten(sb, x, y, i)
    ensures Synced(sb, y, k) <==> Synced(sb, v, k)
  {
    TableSynced(sb, v, w, k);
    OtherSynced(sb, w, x, y, i, k);
  }

  ghost predicate HoldsBlock(v: View, i: nat, a: nat)
    requires i < |v.inodes|
  {
    exists p: nat :: p < POSITIONS && SlotAddr(v.disk, v.inodes[i], p) == a
  }

  lemma HoldsIsOwner(sb: Super, v: View, i: nat, a: nat)
    requires Good(sb, v.disk, v.inodes, v.owner, {}) && i < |v.inodes| && a != 0
    ensures HoldsBlock(v, i, a) <==> a in v.owner && v.owner[a].inum == i
  {
    if HoldsBlock(v, i, a) {
      var p: nat :| p < POSITIONS && SlotAddr(v.disk, v.inodes[i], p) == a;
      assert v.owner[a] == Slot(i, p);
    }
    if a in v.owner && v.owner[a].inum == i {
      assert SlotAddr(v.disk, v.inodes[i], v.owner[a].pos) == a;
    }
  }

  /** itrunc clears the bits of exactly the inode's own blocks. */
  lemma TruncatedBits(sb: Super, v: View, w: View, i: nat, a: nat)
    requires Good(sb, v.disk, v.inodes, v.owner, {}) && Good(sb, w.disk, w.inodes, w.owner, {}) && i < |w.inodes|
    requires Truncated(sb, v, w, i, w.inodes[i].typ) && 0 < a < sb.size
    ensures InUse(w.disk, sb.bmapstart, a) <==> InUse(v.disk, sb.bmapstart, a) && !HoldsBlock(v, i, a)
  {
    HoldsIsOwner(sb, v, i, a);
  }

  lemma SameBlocksSameByte(sb: Super, d: Disk, e: Disk, n: Dinode, j: nat)
    requires |d| == |e| && forall b: nat :: sb.nmeta <= b < |d| ==> e[b] == d[b]
    requires forall p: nat :: p < POSITIONS ==> SlotAddr(d, n, p) == 0 || SlotAddr(d, n, p) >= sb.nmeta
    ensures FileByte(e, n, j) == FileByte(d, n, j)
  {
    assert SlotAddr(d, n, NDIRECT) == n.addrs[NDIRECT];
    if j < MAXBYTES {
      var p := DataPos(j / BSIZE);
      assert SlotAddr(e, n, p) == SlotAddr(d, n, p);
    }
  }

  /** No other file changes when one is truncated. */
  lemma TruncatedOthers(sb: Super, v: View, w: View, i: nat, k: nat)
    requires Good(sb, v.disk, v.inodes, v.owner, {}) && k < |v.inodes| && k != i
    requires i < |w.inodes| && Truncated(sb, v, w, i, w.inodes[i].typ)
    ensures Contents(w.disk, w.inodes[k]) == Contents(v.disk, v.inodes[k])
  {
    var n := v.inodes[k];
    var c, e := Contents(v.disk, n), Contents(w.disk, n);
    forall p: nat | p < POSITIONS
      ensures SlotAddr(v.disk, n, p) == 0 || SlotAddr(v.disk, n, p) >= sb.nmeta
    {
      assert SlotAddr(v.disk, v.inodes[k], p) == 0 || SlotAddr(v.disk, v.inodes[k], p) in v.owner;
    }
    forall j: nat | j < n.size
      ensures e[j] == c[j]
    {
      SameBlocksSameByte(sb, v.disk, w.disk, n, j);
      ContentsAt(v.disk, n, j);
      ContentsAt(w.disk, n, j);
    }
  }

  lemma RelabelKeepsGood(sb: Super, d: Disk, ns: seq<Dinode>, owner: map<nat, Slot>, i: nat, typ: Half, nlink: Half)
    requires Good(sb, d, ns, owner, {}) && i < |ns|
    ensures Good(sb, d, ns[i := ns[i].(typ := typ, nlink := nlink)], owner, {})
  {
    var ms := ns[i := ns[i].(typ := typ, nlink := nlink)];
    forall k: nat, q: nat | k < |ns| && q < POSITIONS
      ensures SlotAddr(d, ms[k], q) == SlotAddr(d, ns[k], q)
    {
    }
    assert Claims(sb, d, ms, owner);
    assert Held(sb, d, ms, owner);
  }

  lemma RetypeSettled(sb: Super, v: View, w: View, x: View, y: View, i: nat)
    requires i < |v.inodes| && Truncated(sb, v, w, i, v.inodes[i].typ)
    requires x == w.(inodes := w.inodes[i := w.inodes[i].(typ := 0)]) && Rewritten(sb, x, y, i)
    ensures Truncated(sb, v, y, i, 0)
  {
    forall k: nat | k < |v.inodes| && k != i
      ensures Synced(sb, y, k) <==> Synced(sb, v, k)
    {
      OtherSynced(sb, w, x, y, i, k);
    }
  }

  lemma OtherSynced(sb: Super, w: View, x: View, y: View, i: nat, k: nat)
    requires x == w.(inodes := x.inodes) && |x.inodes| == |w.inodes| && k < |w.inodes| && k != i
    requires x.inodes[k] == w.inodes[k] && Rewritten(sb, x, y, i)
    ensures Synced(sb, y, k) <==> Synced(sb, w, k)
  {
    assert k / IPB <= sb.ninodes / IPB;
  }

  // ---- a fresh image ----

  const UNUSED: Dinode := Dinode(0, 0, 0, 0, 0, [0, 0, 0, 0, 0, 0, 0, 0, 0, 0, 0, 0, 0])

  function Unused(n: nat): (ns: seq<Dinode>)
    ensures |ns| == n && forall i: nat :: i < n ==> ns[i] == UNUSED
  {
    if n == 0 then [] else Unused(n - 1) + [UNUSED]
  }

  function Copies(n: nat, x: Block): (d: Disk)
    ensures |d| == n && forall b: nat :: b < n ==> d[b] == x
  {
    if n == 0 then [] else Copies(n - 1, x) + [x]
  }

  ghost predicate BitsBelow(sb: Super, d: Disk, i: nat)
    requires sb.Valid() && |d| == sb.size
  {
    forall a: nat :: a < sb.size ==> (InUse(d, sb.bmapstart, a) <==> a < i)
  }

  lemma {:induction false} NoBit(k: nat)
    ensures !Bit(0, k)
    decreases k
  {
    if k > 0 {
      NoBit(k - 1);
    }
  }

  lemma NoBits(sb: Super, d: Disk)
    requires sb.Valid() && |d| == sb.size && forall b: nat :: b < |d| ==> Blank(d[b])
    ensures BitsBelow(sb, d, 0)
  {
    forall a: nat | a < sb.size
      ensures !InUse(d, sb.bmapstart, a)
    {
      assert a / BPB <= sb.size / BPB;
      NoBit(a % 8);
    }
  }

  lemma BitSet(sb: Super, d: Disk, i: nat)
    requires sb.Valid() && |d| == sb.size && i < sb.size && BitsBelow(sb, d, i)
    ensures BlockOf(sb.bmapstart, i) < sb.nmeta && sb.bmapstart <= BlockOf(sb.bmapstart, i)
    ensures BitsBelow(sb, Mark(d, sb.bmapstart, i, true), i + 1)
  {
    assert i / BPB <= sb.size / BPB;
    var e := Mark(d, sb.bmapstart, i, true);
    forall a: nat | a < sb.size
      ensures InUse(e, sb.bmapstart, a) <==> a < i + 1
    {
      assert a / BPB <= sb.size / BPB;
      InUseOfMark(d, sb.bmapstart, i, true, a);
    }
  }

  lemma {:induction false} BlankWords(b: Block, i: nat, n: nat, k: nat)
    requires Blank(b) && i + n <= WORDS_PER_BLOCK && k < n
    ensures WordsAt(b, i, n)[k] == 0
  {
    WordsAtIs(b, i, n, k);
    BlankWord(b, i + k);
  }

  lemma ZeroInode(ws: seq<Word>)
    requires |ws| == DINODE_WORDS && forall j: nat :: j < DINODE_WORDS ==> ws[j] == 0
    ensures InodeOf(ws) == UNUSED
  {
    assert ws[3..] == UNUSED.addrs;
  }

  lemma BlankInode(b: Block, k: nat)
    requires Blank(b) && k < IPB
    ensures InodeAt(b, k) == UNUSED
  {
    forall j: nat | j < DINODE_WORDS
      ensures WordsAt(b, DINODE_WORDS * k, DINODE_WORDS)[j] == 0
    {
      BlankWords(b, DINODE_WORDS * k, DINODE_WORDS, j);
    }
    ZeroInode(WordsAt(b, DINODE_WORDS * k, DINODE_WORDS));
  }

  lemma FreshTable(sb: Super, d: Disk, ns: seq<Dinode>)
    requires sb.Valid() && |d| == sb.size && |ns| == sb.ninodes && forall i: nat :: i < |ns| ==> ns[i] == UNUSED
    requires forall b: nat :: b < sb.bmapstart ==> Blank(d[b])
    ensures forall i: nat :: i < |ns| ==> Synced(sb, View(d, ns, map[], {}), i)
  {
    forall i: nat | i < |ns|
      ensures Synced(sb, View(d, ns, map[], {}), i)
    {
      InTable(sb, i);
      FreshInode(sb, d, i);
    }
  }

  lemma FreshInode(sb: Super, d: Disk, i: nat)
    requires sb.inodestart + i / IPB < |d| && Blank(d[sb.inodestart + i / IPB])
    ensures OnDisk(sb, d, i) == UNUSED
  {
    BlankInode(d[sb.inodestart + i / IPB], i % IPB);
  }

  lemma InTable(sb: Super, i: nat)
    requires sb.Valid() && i < sb.ninodes
    ensures sb.inodestart + i / IPB < sb.bmapstart <= sb.size
  {
    assert i / IPB <= sb.ninodes / IPB;
  }

  lemma EmptyLedger(sb: Super, d: Disk, ns: seq<Dinode>)
    requires sb.Valid() && |d| == sb.size && BitsBelow(sb, d, sb.nmeta)
    requires |ns| == sb.ninodes && forall i: nat :: i < |ns| ==> ns[i] == UNUSED
    ensures Good(sb, d, ns, map[], {})
  {
    forall i: nat, p: nat | i < |ns| && p < POSITIONS
      ensures SlotAddr(d, ns[i], p) == 0
    {
    }
    assert Claims(sb, d, ns, map[]);
  }
}
