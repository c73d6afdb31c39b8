/** What the steps of fs.c do to the bytes of files: allocation shows as zeros, a data write shows
    in one block of one file, and dropping links touches no other file. */
module FileBytes {
  import opened Blocks
  import opened Words
  import opened Bitmap
  import opened FsLayout

  ghost predicate SameFiles(d: Disk, ns: seq<Dinode>, e: Disk, ms: seq<Dinode>) {
    && |ns| == |ms|
    && forall i: nat, j: nat {:trigger FileByte(e, ms[i], j)} ::
         i < |ns| ==> FileByte(e, ms[i], j) == FileByte(d, ns[i], j)
  }

  /** From (d, ns) to (e, ms) only the addresses of inode i have changed, and only empty places
      among those in ps have been filled. */
  ghost predicate Grew(d: Disk, ns: seq<Dinode>, e: Disk, ms: seq<Dinode>, i: nat, ps: set<nat>) {
    && i < |ns| && |d| == |e|
    && |ms| == |ns| && ms[i] == ns[i].(addrs := ms[i].addrs)
    && (forall k: nat :: k < |ns| && k != i ==> ms[k] == ns[k])
    && forall k: nat, q: nat {:trigger SlotAddr(e, ms[k], q)} :: k < |ns| && q < POSITIONS ==>
         || SlotAddr(e, ms[k], q) == SlotAddr(d, ns[k], q)
         || (k == i && q in ps && SlotAddr(d, ns[k], q) == 0)
  }

  lemma GrewTwice(d: Disk, ns: seq<Dinode>, e: Disk, ms: seq<Dinode>, f: Disk, ks: seq<Dinode>, i: nat,
                  ps: set<nat>, qs: set<nat>)
    requires Grew(d, ns, e, ms, i, ps) && Grew(e, ms, f, ks, i, qs)
    ensures Grew(d, ns, f, ks, i, ps + qs)
  {
    forall k: nat, q: nat | k < |ns| && q < POSITIONS
      ensures SlotAddr(f, ks[k], q) == SlotAddr(d, ns[k], q)
           || (k == i && q in ps + qs && SlotAddr(d, ns[k], q) == 0)
    {
      assert SlotAddr(e, ms[k], q) == SlotAddr(d, ns[k], q) || (k == i && q in ps && SlotAddr(d, ns[k], q) == 0);
    }
  }

  /** The inode blocks are left alone. */
  ghost predicate TableKept(sb: Super, d: Disk, e: Disk) {
    |d| == |e| && forall b: nat :: b < |d| && b < sb.bmapstart ==> e[b] == d[b]
  }

  /** Writing a block no inode points at changes no file. */
  lemma StrayWrite(sb: Super, d: Disk, ns: seq<Dinode>, owner: map<nat, Slot>, a: nat, x: Block)
    requires Claims(sb, d, ns, owner) && a < |d| && a !in owner
    ensures SameFiles(d, ns, d[a := x], ns)
    ensures forall i: nat, p: nat {:trigger SlotAddr(d[a := x], ns[i], p)} ::
              i < |ns| && p < POSITIONS ==> SlotAddr(d[a := x], ns[i], p) == SlotAddr(d, ns[i], p)
  {
    var e := d[a := x];
    forall i: nat, p: nat | i < |ns| && p < POSITIONS
      ensures SlotAddr(e, ns[i], p) == SlotAddr(d, ns[i], p)
    {
      WriteKeepsSlots(sb, d, ns, owner, a, x, i, p);
    }
    forall i: nat, j: nat | i < |ns|
      ensures FileByte(e, ns[i], j) == FileByte(d, ns[i], j)
    {
      if j < MAXBYTES {
        var p := DataPos(j / BSIZE);
        assert SlotAddr(e, ns[i], p) == SlotAddr(d, ns[i], p);
      }
    }
    assert SameFiles(d, ns, e, ns);
  }

  /** Linking a blank block into an empty place changes no file. */
  lemma BlankLink(sb: Super, d: Disk, ns: seq<Dinode>, e: Disk, ms: seq<Dinode>, owner: map<nat, Slot>,
                  i: nat, p: nat, a: nat)
    requires Claims(sb, d, ns, owner) && |d| == |e| && |ns| == |ms|
    requires i < |ns| && p < POSITIONS && SlotAddr(d, ns[i], p) == 0 && a < |e| && Blank(e[a])
    requires forall k: nat, q: nat :: k < |ns| && q < POSITIONS ==>
      SlotAddr(e, ms[k], q) == if k == i && q == p then a else SlotAddr(d, ns[k], q)
    requires forall b: nat :: b < |d| && e[b] != d[b] ==> b in owner && owner[b].pos == NDIRECT
    ensures SameFiles(d, ns, e, ms)
  {
    forall k: nat, j: nat | k < |ns|
      ensures FileByte(e, ms[k], j) == FileByte(d, ns[k], j)
    {
      if j < MAXBYTES {
        var q := DataPos(j / BSIZE);
        var c := SlotAddr(d, ns[k], q);
        assert SlotAddr(e, ms[k], q) == if k == i && q == p then a else c;
        if 0 < c < |d| {
          assert owner[c] == Slot(k, q);
          assert e[c] == d[c];
        }
      }
    }
  }

  /** Writing a data block shows in that block of that file and nowhere else. */
  lemma DataWrite(sb: Super, d: Disk, ns: seq<Dinode>, owner: map<nat, Slot>, i: nat, bn: nat, x: Block,
                  k: nat, j: nat)
    requires Claims(sb, d, ns, owner) && i < |ns| && bn < MAXFILE && k < |ns|
    requires 0 < SlotAddr(d, ns[i], DataPos(bn)) < |d|
    ensures FileByte(d[SlotAddr(d, ns[i], DataPos(bn)) := x], ns[k], j)
         == if k == i && j / BSIZE == bn then x[j % BSIZE] else FileByte(d, ns[k], j)
  {
    var a := SlotAddr(d, ns[i], DataPos(bn));
    assert owner[a] == Slot(i, DataPos(bn));
    if j < MAXBYTES {
      var q := DataPos(j / BSIZE);
      WriteKeepsSlots(sb, d, ns, owner, a, x, k, q);
      var c := SlotAddr(d, ns[k], q);
      if c == a {
        assert owner[c] == Slot(k, q);
      }
    }
  }

  // ---- allocate and link ----

  /** The state of the file layer; dirty holds the blocks given to log_write. */
  datatype View = View(disk: Disk, inodes: seq<Dinode>, owner: map<nat, Slot>, dirty: set<nat>)

  predicate IsBitmap(sb: Super, b: nat) { sb.bmapstart <= b <= sb.bmapstart + (sb.size - 1) / BPB }

  /** The places bmap may fill for the file's bn-th block. */
  function Places(bn: nat): (ps: set<nat>)
  {
    if bn < NDIRECT then {bn} else {NDIRECT, bn + 1}
  }

  /** balloc has taken block b, blank, and nothing else is different. */
  ghost predicate Took(sb: Super, d: Disk, ns: seq<Dinode>, owner: map<nat, Slot>, e: Disk, b: nat) {
    && Good(sb, e, ns, owner, {b}) && Blank(e[b])
    && SameFiles(d, ns, e, ns) && TableKept(sb, d, e)
    && (forall k: nat, q: nat {:trigger SlotAddr(e, ns[k], q)} ::
          k < |ns| && q < POSITIONS ==> SlotAddr(e, ns[k], q) == SlotAddr(d, ns[k], q))
  }

  /** What bmap does: files read as before, inode i has gained at most the places in ps, and only
      the bitmap and the blocks at those places were written. */
  ghost predicate Mapped(sb: Super, v: View, w: View, i: nat, ps: set<nat>) {
    && Good(sb, w.disk, w.inodes, w.owner, {})
    && SameFiles(v.disk, v.inodes, w.disk, w.inodes)
    && Grew(v.disk, v.inodes, w.disk, w.inodes, i, ps)
    && TableKept(sb, v.disk, w.disk)
    && Booked(sb, v, w, i, ps)
  }

  ghost predicate Booked(sb: Super, v: View, w: View, i: nat, ps: set<nat>) {
    && v.dirty <= w.dirty
    && (forall a: nat :: a in v.owner ==> a in w.owner && w.owner[a] == v.owner[a])
    && (forall b: nat :: b in w.dirty && b !in v.dirty ==>
          IsBitmap(sb, b) || (b in w.owner && w.owner[b].inum == i && w.owner[b].pos in ps))
  }

  lemma SameFilesTwice(d: Disk, ns: seq<Dinode>, e: Disk, ms: seq<Dinode>, f: Disk, ks: seq<Dinode>)
    requires SameFiles(d, ns, e, ms) && SameFiles(e, ms, f, ks)
    ensures SameFiles(d, ns, f, ks)
  {
    forall i: nat, j: nat | i < |ns|
      ensures FileByte(f, ks[i], j) == FileByte(d, ns[i], j)
    {
      assert FileByte(e, ms[i], j) == FileByte(d, ns[i], j);
    }
  }

  lemma MappedTwice(sb: Super, u: View, v: View, w: View, i: nat, ps: set<nat>, qs: set<nat>)
    requires Mapped(sb, u, v, i, ps) && Mapped(sb, v, w, i, qs)
    ensures Mapped(sb, u, w, i, ps + qs)
  {
    SameFilesTwice(u.disk, u.inodes, v.disk, v.inodes, w.disk, w.inodes);
    GrewTwice(u.disk, u.inodes, v.disk, v.inodes, w.disk, w.inodes, i, ps, qs);
  }

  lemma MappedStill(sb: Super, v: View, i: nat)
    requires Good(sb, v.disk, v.inodes, v.owner, {}) && i < |v.inodes|
    ensures Mapped(sb, v, v, i, {})
  {
  }

  lemma MappedMore(sb: Super, v: View, w: View, i: nat, ps: set<nat>, qs: set<nat>)
    requires Mapped(sb, v, w, i, ps) && ps <= qs
    ensures Mapped(sb, v, w, i, qs)
  {
  }

  /** The block taken by balloc goes into an empty place of the inode itself. */
  lemma InodeLink(sb: Super, v: View, e: Disk, dirty: set<nat>, i: nat, p: nat, b: nat)
    requires Took(sb, v.disk, v.inodes, v.owner, e, b)
    requires i < |v.inodes| && p <= NDIRECT && v.inodes[i].addrs[p] == 0
    requires dirty == v.dirty + {BlockOf(sb.bmapstart, b), b}
    ensures Mapped(sb, v, View(e, v.inodes[i := Pointing(v.inodes[i], p, b)], v.owner[b := Slot(i, p)], dirty),
                   i, {p})
  {
    var ns, ms := v.inodes, v.inodes[i := Pointing(v.inodes[i], p, b)];
    LinkKeepsGood(sb, e, ns, v.owner, {b}, i, p, b);
    assert {b} - {b} == {};
    forall k: nat, q: nat | k < |ns| && q < POSITIONS
      ensures SlotAddr(e, ms[k], q) == if k == i && q == p then b else SlotAddr(e, ns[k], q)
    {
      if k == i {
        LinkSlots(sb, e, ns[i], p, b, q);
      }
    }
    BlankLink(sb, e, ns, e, ms, v.owner, i, p, b);
    SameFilesTwice(v.disk, ns, e, ns, e, ms);
    BitmapBlock(sb, b);
  }

  lemma BitmapBlock(sb: Super, b: nat)
    requires b < sb.size
    ensures IsBitmap(sb, BlockOf(sb.bmapstart, b))
  {
  }

  /** The block taken by balloc goes into an empty word of the indirect block. */
  lemma LeafLink(sb: Super, v: View, e: Disk, dirty: set<nat>, i: nat, k: nat, b: nat)
    requires Took(sb, v.disk, v.inodes, v.owner, e, b)
    requires i < |v.inodes| && k < NINDIRECT && v.inodes[i].addrs[NDIRECT] != 0
    requires SlotAddr(v.disk, v.inodes[i], 13 + k) == 0
    requires dirty == v.dirty + {BlockOf(sb.bmapstart, b), b}
    ensures var ind := v.inodes[i].addrs[NDIRECT];
            && sb.nmeta <= ind < |e|
            && Mapped(sb, v, View(e[ind := PutWord(e[ind], k, b)], v.inodes, v.owner[b := Slot(i, 13 + k)],
                                  dirty + {ind}), i, Places(NDIRECT + k))
            && SlotAddr(e[ind := PutWord(e[ind], k, b)], v.inodes[i], 13 + k) == b
  {
    var ns, ind := v.inodes, v.inodes[i].addrs[NDIRECT];
    assert SlotAddr(e, ns[i], NDIRECT) == ind;
    assert SlotAddr(e, ns[i], 13 + k) == 0;
    var f := e[ind := PutWord(e[ind], k, b)];
    var w := View(f, ns, v.owner[b := Slot(i, 13 + k)], dirty + {ind});
    assert Good(sb, f, ns, w.owner, {}) by {
      LeafKeepsGood(sb, e, ns, v.owner, {b}, i, k, b);
      assert {b} - {b} == {};
    }
    assert SameFiles(v.disk, ns, f, ns) by {
      LeafFiles(sb, e, ns, v.owner, i, k, b);
      SameFilesTwice(v.disk, ns, e, ns, f, ns);
    }
    LeafGrew(sb, v.disk, ns, v.owner, e, i, k, b);
    LeafBooked(sb, v, w, i, k, b, ind);
  }

  lemma LeafGrew(sb: Super, d: Disk, ns: seq<Dinode>, owner: map<nat, Slot>, e: Disk, i: nat, k: nat, b: nat)
    requires Took(sb, d, ns, owner, e, b) && i < |ns| && k < NINDIRECT && 0 < ns[i].addrs[NDIRECT] < |e|
    requires SlotAddr(e, ns[i], 13 + k) == 0
    ensures var ind := ns[i].addrs[NDIRECT];
            var f := e[ind := PutWord(e[ind], k, b)];
            Grew(d, ns, f, ns, i, Places(NDIRECT + k)) && SlotAddr(f, ns[i], 13 + k) == b
  {
    var ind := ns[i].addrs[NDIRECT];
    var f := e[ind := PutWord(e[ind], k, b)];
    forall m: nat, q: nat | m < |ns| && q < POSITIONS
      ensures SlotAddr(f, ns[m], q) == if m == i && q == 13 + k then b else SlotAddr(e, ns[m], q)
    {
      LeafSlots(sb, e, ns, owner, i, k, b, m, q);
    }
  }

  lemma LeafFiles(sb: Super, e: Disk, ns: seq<Dinode>, owner: map<nat, Slot>, i: nat, k: nat, b: Word)
    requires Claims(sb, e, ns, owner) && b < |e| && Blank(e[b]) && b !in owner
    requires i < |ns| && k < NINDIRECT && 0 < ns[i].addrs[NDIRECT] < |e| && SlotAddr(e, ns[i], 13 + k) == 0
    ensures var ind := ns[i].addrs[NDIRECT];
            SameFiles(e, ns, e[ind := PutWord(e[ind], k, b)], ns)
  {
    var ind := ns[i].addrs[NDIRECT];
    assert SlotAddr(e, ns[i], NDIRECT) == ind;
    var f := e[ind := PutWord(e[ind], k, b)];
    forall m: nat, q: nat | m < |ns| && q < POSITIONS
      ensures SlotAddr(f, ns[m], q) == if m == i && q == 13 + k then b else SlotAddr(e, ns[m], q)
    {
      LeafSlots(sb, e, ns, owner, i, k, b, m, q);
    }
    BlankLink(sb, e, ns, f, ns, owner, i, 13 + k, b);
  }

  lemma LeafBooked(sb: Super, v: View, w: View, i: nat, k: nat, b: nat, ind: nat)
    requires b < sb.size && b !in v.owner && ind in v.owner && v.owner[ind] == Slot(i, NDIRECT)
    requires w.owner == v.owner[b := Slot(i, 13 + k)]
    requires w.dirty == v.dirty + {BlockOf(sb.bmapstart, b), b} + {ind}
    ensures Booked(sb, v, w, i, Places(NDIRECT + k))
  {
    BitmapBlock(sb, b);
  }

  /** Emptying place p of inode i, with everything reached through it. */
  ghost function Under(owner: map<nat, Slot>, i: nat, p: nat): (s: set<nat>)
  {
    set a: nat | a in owner && owner[a].inum == i && (owner[a].pos == p || (p == NDIRECT && owner[a].pos > p))
  }

  lemma UnlinkSlots(d: Disk, n: Dinode, p: nat, q: nat)
    requires p <= NDIRECT && q < POSITIONS
    ensures SlotAddr(d, Pointing(n, p, 0), q) ==
      if q == p || (p == NDIRECT && q > p) then 0 else SlotAddr(d, n, q)
  {
  }

  lemma UnlinkKeepsGood(sb: Super, d: Disk, ns: seq<Dinode>, owner: map<nat, Slot>, pending: set<nat>,
                        i: nat, p: nat)
    requires Good(sb, d, ns, owner, pending) && i < |ns| && p <= NDIRECT
    ensures var u := Under(owner, i, p);
            Good(sb, d, ns[i := Pointing(ns[i], p, 0)], owner - u, pending + u)
  {
    var u, ms := Under(owner, i, p), ns[i := Pointing(ns[i], p, 0)];
    forall k: nat, q: nat | k < |ns| && q < POSITIONS
      ensures SlotAddr(d, ms[k], q) ==
        if k == i && (q == p || (p == NDIRECT && q > p)) then 0 else SlotAddr(d, ns[k], q)
    {
      if k == i {
        UnlinkSlots(d, ns[i], p, q);
      }
    }
    assert Claims(sb, d, ms, owner - u);
    assert Held(sb, d, ms, owner - u);
  }

  // ---- writes ----

  function Splice(b: Block, o: nat, t: seq<Byte>): (r: Block)
    requires o + |t| <= BSIZE
  {
    b[..o] + t + b[o + |t|..]
  }

  /** Between v and w the bytes s were written to inode i at offset off; no other byte of any file
      is different. */
  ghost predicate Wrote(v: View, w: View, i: nat, off: nat, s: seq<Byte>) {
    && |v.inodes| == |w.inodes|
    && forall k: nat, j: nat {:trigger FileByte(w.disk, w.inodes[k], j)} :: k < |v.inodes| ==>
         FileByte(w.disk, w.inodes[k], j) ==
           if k == i && off <= j < off + |s| then s[j - off] else FileByte(v.disk, v.inodes[k], j)
  }

  ghost predicate Filled(w: View, i: nat, ps: set<nat>) {
    i < |w.inodes| && forall q: nat :: q in ps && q < POSITIONS ==> SlotAddr(w.disk, w.inodes[i], q) != 0
  }

  /** The state of writei's loop after the bytes s, with the places ps visited. */
  ghost predicate Written(sb: Super, v: View, w: View, i: nat, off: nat, s: seq<Byte>, ps: set<nat>) {
    && Good(sb, w.disk, w.inodes, w.owner, {})
    && Wrote(v, w, i, off, s)
    && Grew(v.disk, v.inodes, w.disk, w.inodes, i, ps)
    && TableKept(sb, v.disk, w.disk)
    && Booked(sb, v, w, i, ps)
    && Filled(w, i, ps)
  }

  lemma WrittenNothing(sb: Super, v: View, i: nat, off: nat)
    requires Good(sb, v.disk, v.inodes, v.owner, {}) && i < |v.inodes|
    ensures Written(sb, v, v, i, off, [], {})
  {
  }

  lemma WrittenMapped(sb: Super, v: View, w: View, x: View, i: nat, off: nat, s: seq<Byte>, ps: set<nat>, bn: nat)
    requires Written(sb, v, w, i, off, s, ps) && Mapped(sb, w, x, i, Places(bn)) && Filled(x, i, Places(bn))
    ensures Written(sb, v, x, i, off, s, ps + Places(bn))
  {
    GrewTwice(v.disk, v.inodes, w.disk, w.inodes, x.disk, x.inodes, i, ps, Places(bn));
    forall k: nat, j: nat | k < |v.inodes|
      ensures FileByte(x.disk, x.inodes[k], j) ==
        if k == i && off <= j < off + |s| then s[j - off] else FileByte(v.disk, v.inodes[k], j)
    {
      assert FileByte(x.disk, x.inodes[k], j) == FileByte(w.disk, w.inodes[k], j);
    }
    assert Filled(x, i, ps + Places(bn));
    assert Booked(sb, v, x, i, ps + Places(bn));
  }

  lemma WrittenBytes(sb: Super, v: View, w: View, i: nat, off: nat, s: seq<Byte>, t: seq<Byte>, y: View, a: nat)
    requires Claims(sb, w.disk, w.inodes, w.owner) && Wrote(v, w, i, off, s) && i < |v.inodes|
    requires off + |s| < MAXBYTES && (off + |s|) % BSIZE + |t| <= BSIZE
    requires 0 < a < |w.disk| && a == SlotAddr(w.disk, w.inodes[i], DataPos((off + |s|) / BSIZE))
    requires y.disk == w.disk[a := Splice(w.disk[a], (off + |s|) % BSIZE, t)] && y.inodes == w.inodes
    ensures Wrote(v, y, i, off, s + t)
  {
    forall k: nat, j: nat | k < |v.inodes|
      ensures FileByte(y.disk, y.inodes[k], j) ==
        if k == i && off <= j < off + |s + t| then (s + t)[j - off] else FileByte(v.disk, v.inodes[k], j)
    {
      WrittenByte(sb, v, w, i, off, s, t, k, j);
    }
  }

  lemma WrittenSlots(sb: Super, v: View, w: View, i: nat, ps: set<nat>, a: nat, x: Block, y: View)
    requires Claims(sb, w.disk, w.inodes, w.owner) && a in w.owner && w.owner[a].pos != NDIRECT && a < |w.disk|
    requires Grew(v.disk, v.inodes, w.disk, w.inodes, i, ps) && Filled(w, i, ps)
    requires y.disk == w.disk[a := x] && y.inodes == w.inodes
    ensures Grew(v.disk, v.inodes, y.disk, y.inodes, i, ps) && Filled(y, i, ps)
  {
    forall k: nat, q: nat | k < |w.inodes| && q < POSITIONS
      ensures SlotAddr(y.disk, y.inodes[k], q) == SlotAddr(w.disk, w.inodes[k], q)
    {
      WriteKeepsSlots(sb, w.disk, w.inodes, w.owner, a, x, k, q);
    }
  }

  /** One data block, a, is overwritten from the current offset on. */
  lemma WrittenBlock(sb: Super, v: View, w: View, i: nat, off: nat, s: seq<Byte>, ps: set<nat>, t: seq<Byte>, a: nat,
                     y: View)
    requires Written(sb, v, w, i, off, s, ps)
    requires off + |s| < MAXBYTES && (off + |s|) % BSIZE + |t| <= BSIZE && DataPos((off + |s|) / BSIZE) in ps
    requires 0 < a < |w.disk| && a == SlotAddr(w.disk, w.inodes[i], DataPos((off + |s|) / BSIZE))
    requires y.disk == w.disk[a := Splice(w.disk[a], (off + |s|) % BSIZE, t)]
    requires y.inodes == w.inodes && y.owner == w.owner && y.dirty == w.dirty + {a}
    ensures Written(sb, v, y, i, off, s + t, ps)
  {
    var p := DataPos((off + |s|) / BSIZE);
    assert w.owner[a] == Slot(i, p);
    assert Good(sb, y.disk, y.inodes, y.owner, {}) by {
      WriteKeepsGood(sb, w.disk, w.inodes, w.owner, {}, a, Splice(w.disk[a], (off + |s|) % BSIZE, t));
    }
    WrittenBytes(sb, v, w, i, off, s, t, y, a);
    WrittenSlots(sb, v, w, i, ps, a, Splice(w.disk[a], (off + |s|) % BSIZE, t), y);
    WrittenTable(sb, v, w, y, i, ps, a, p);
  }

  lemma WrittenTable(sb: Super, v: View, w: View, y: View, i: nat, ps: set<nat>, a: nat, p: nat)
    requires TableKept(sb, v.disk, w.disk) && Booked(sb, v, w, i, ps) && sb.Valid()
    requires a in w.owner && w.owner[a] == Slot(i, p) && p in ps && sb.nmeta <= a < |w.disk|
    requires |y.disk| == |w.disk| && y.disk == w.disk[a := y.disk[a]] && y.owner == w.owner && y.dirty == w.dirty + {a}
    ensures TableKept(sb, v.disk, y.disk) && Booked(sb, v, y, i, ps)
  {
  }

  lemma WrittenByte(sb: Super, v: View, w: View, i: nat, off: nat, s: seq<Byte>, t: seq<Byte>, k: nat, j: nat)
    requires Claims(sb, w.disk, w.inodes, w.owner) && Wrote(v, w, i, off, s) && i < |v.inodes| && k < |v.inodes|
    requires off + |s| < MAXBYTES && (off + |s|) % BSIZE + |t| <= BSIZE
    requires 0 < SlotAddr(w.disk, w.inodes[i], DataPos((off + |s|) / BSIZE)) < |w.disk|
    ensures var a := SlotAddr(w.disk, w.inodes[i], DataPos((off + |s|) / BSIZE));
            FileByte(w.disk[a := Splice(w.disk[a], (off + |s|) % BSIZE, t)], w.inodes[k], j) ==
              if k == i && off <= j < off + |s + t| then (s + t)[j - off] else FileByte(v.disk, v.inodes[k], j)
  {
    var bn := (off + |s|) / BSIZE;
    var a := SlotAddr(w.disk, w.inodes[i], DataPos(bn));
    var x := Splice(w.disk[a], (off + |s|) % BSIZE, t);
    DataWrite(sb, w.disk, w.inodes, w.owner, i, bn, x, k, j);
    SplicedByte(w.disk[a], bn, off + |s|, t, j);
    assert FileByte(w.disk, w.inodes[k], j) ==
      if k == i && off <= j < off + |s| then s[j - off] else FileByte(v.disk, v.inodes[k], j);
    if k == i && j / BSIZE == bn && j < MAXBYTES {
      assert FileByte(w.disk, w.inodes[k], j) == w.disk[a][j % BSIZE];
    }
  }

  lemma SplicedByte(b: Block, bn: nat, off: nat, t: seq<Byte>, j: nat)
    requires off / BSIZE == bn && off % BSIZE + |t| <= BSIZE
    ensures j / BSIZE == bn ==>
      (Splice(b, off % BSIZE, t)[j % BSIZE] == if off <= j < off + |t| then t[j - off] else b[j % BSIZE])
    ensures off <= j < off + |t| ==> j / BSIZE == bn
  {
  }
}
