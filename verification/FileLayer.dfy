/** filewrite of file.c: a long write is cut into chunks, each its own transaction. */
module FileLayer {
  import opened Blocks
  import opened Words
  import opened Bitmap
  import opened FsLayout
  import opened FileBytes
  import opened Supply
  import opened FileSystem
  import opened Counting

  /** ((MAXOPBLOCKS-1-1-2) / 2) * 512. */
  const CHUNK: nat := 1536

  /** What the chunks so far have done together. */
  ghost predicate FileDone(sb: Super, v: View, w: View, i: nat, off: nat, s: seq<Byte>) {
    && i < |v.inodes| == |w.inodes| && off <= v.inodes[i].size
    && w.inodes[i].typ == v.inodes[i].typ
    && Contents(w.disk, w.inodes[i]) == Overlay(Contents(v.disk, v.inodes[i]), off, s)
    && OthersKept(v, w, i)
    && (Whole(sb, v, i) ==> Whole(sb, w, i))
  }

  /** The file has no holes and its inode on disk is up to date. */
  ghost predicate Whole(sb: Super, v: View, i: nat) {
    i < |v.inodes| && NoHoles(v.disk, v.inodes[i]) && Synced(sb, v, i)
  }

  lemma FileDoneNothing(sb: Super, v: View, i: nat, off: nat)
    requires i < |v.inodes| && off <= v.inodes[i].size
    ensures FileDone(sb, v, v, i, off, [])
  {
    var c := Contents(v.disk, v.inodes[i]);
    assert Overlay(c, off, []) == c;
  }

  lemma OverlayTwice(c: seq<Byte>, off: nat, s: seq<Byte>, t: seq<Byte>)
    requires off <= |c|
    ensures off + |s| <= |Overlay(c, off, s)|
    ensures Overlay(Overlay(c, off, s), off + |s|, t) == Overlay(c, off, s + t)
  {
    var a, b := Overlay(Overlay(c, off, s), off + |s|, t), Overlay(c, off, s + t);
    assert |a| == |b|;
    forall j: nat | j < |a|
      ensures a[j] == b[j]
    {
    }
  }

  /** A chunk that follows on from the last one. */
  lemma FileDoneMore(sb: Super, v: View, w: View, x: View, i: nat, off: nat, s: seq<Byte>, at: nat, t: seq<Byte>,
                     all: seq<Byte>)
    requires FileDone(sb, v, w, i, off, s) && at == off + |s| && at + |t| <= MAXBYTES && all == s + t
    requires WriteDone(sb, w, x, i, at, t)
    ensures FileDone(sb, v, x, i, off, all)
  {
    OverlayChain(Contents(v.disk, v.inodes[i]), Contents(w.disk, w.inodes[i]), Contents(x.disk, x.inodes[i]), off, s,
                 at, t, all);
    OthersTwice(v, w, x, i);
    assert Whole(sb, w, i) ==> Whole(sb, x, i) by {
      WholeStays(sb, w, x, i, at, t);
    }
  }

  lemma OverlayChain(c: seq<Byte>, d: seq<Byte>, e: seq<Byte>, off: nat, s: seq<Byte>, at: nat, t: seq<Byte>,
                     all: seq<Byte>)
    requires off <= |c| && d == Overlay(c, off, s) && at == off + |s| <= |d| && e == Overlay(d, at, t) && all == s + t
    ensures e == Overlay(c, off, all)
  {
    OverlayTwice(c, off, s, t);
  }

  lemma OthersTwice(v: View, w: View, x: View, i: nat)
    requires |v.inodes| == |w.inodes| == |x.inodes| && OthersKept(v, w, i) && OthersKept(w, x, i)
    ensures OthersKept(v, x, i)
  {
    forall k: nat | k < |v.inodes| && k != i
      ensures x.inodes[k] == v.inodes[k] && Contents(x.disk, x.inodes[k]) == Contents(v.disk, v.inodes[k])
    {
      assert Contents(w.disk, w.inodes[k]) == Contents(v.disk, v.inodes[k]);
    }
  }

  lemma WholeStays(sb: Super, w: View, x: View, i: nat, off: nat, t: seq<Byte>)
    requires i < |w.inodes| == |x.inodes| && HolesKept(w, x) && TableDone(sb, w, x, i, off, |t|)
    requires off + |t| <= MAXBYTES
    ensures Whole(sb, w, i) ==> Whole(sb, x, i)
  {
    if Whole(sb, w, i) {
      WriteThrough(sb, w, x, i, off, t);
    }
  }

  class OpenFile {
    const inum: nat
    var off: Word

    constructor (i: nat, at: Word)
      ensures inum == i && off == at
    {
      inum, off := i, at;
    }

    /** One transaction: begin_op, writei, end_op. v and w are the states around the writei, and op the
        blocks it added to the log. With twenty slots beside those for the bitmap it panics exactly for
        want of free blocks. */
    method WriteChunk(fs: Fs, src: seq<Byte>, n: nat, ghost u: View)
      returns (r: Outcome, ghost v: View, ghost w: View, ghost op: set<nat>)
      requires fs.Valid() && fs.Committed() && inum < |fs.inodes| && |src| == n <= CHUNK && u == fs.Now()
      modifies this, fs
      ensures v == u.(dirty := v.dirty) && fs.outstanding <= old(fs.outstanding) + 1
      ensures r.Device? <==> u.inodes[inum].typ == T_DEV
      ensures r.Failed? <==> !r.Device? && (old(off) > u.inodes[inum].size || old(off) + n > MAXBYTES)
      ensures !r.Panic? ==> fs.Valid() && fs.Committed() && fs.Now() == w.(dirty := fs.dirty)
      ensures !r.Panic? ==> off == old(off) + if r.Done? then n else 0
      ensures !r.Device? && !r.Failed? && n > 0 ==> ShortOf(fs.sb, u, inum, old(off), n, fs.slots, r.Panic?)
      ensures n == 0 ==> !r.Panic?
      ensures r.Done? ==> r.n == n && WriteDone(fs.sb, v, w, inum, old(off), src)
      ensures r.Device? || r.Failed? ==> w == v
      ensures !r.Panic? && fs.sb.size <= BPB ==> |op| <= 7
    {
      fs.BeginOp();
      v := fs.Now();
      r := fs.Writei(inum, src, off);
      w := fs.Now();
      op := w.dirty - v.dirty;
      if !r.Device? && !r.Failed? && n > 0 {
        ChunkShort(fs.sb, u, v, inum, off, n, fs.outstanding, fs.slots, r.Panic?);
      }
      if r.Panic? {
        return;
      }
      fs.EndOp();
      if r.Done? {
        off := off + r.n;
        if fs.sb.size <= BPB {
          ChunkFitsLog(fs.sb, v, w, inum, old(off), |src|);
        }
      }
    }

    /** fileread on an inode, which opens no operation of its own: unless another process happens to
        have one open, the kernel panics exactly when a block is missing in the range read. Otherwise
        the read is added to that operation, which has not reckoned with it. */
    method Read(fs: Fs, n: Word, readable: bool) returns (r: Outcome, data: seq<Byte>)
      requires fs.Valid() && inum < |fs.inodes| && fs.inodes[inum].size <= MAXBYTES
      modifies this, fs
      ensures fs.outstanding == old(fs.outstanding)
      ensures !readable ==> r.Failed? && fs.Now() == old(fs.Now())
      ensures readable ==> (r.Device? <==> old(fs.inodes[inum].typ) == T_DEV)
      ensures readable ==>
                (r.Failed? <==> !r.Device? && (old(off > fs.inodes[inum].size) || old(off) + n >= 0x1_0000_0000))
      ensures !r.Device? && !r.Failed? ==>
                var len := Clipped(old(off), n, old(fs.inodes[inum].size));
                && ReadEnds(fs.sb, old(fs.Now()), fs.Now(), inum, old(off), len, fs.outstanding, fs.slots, r.Panic?)
                && (fs.outstanding == 0 ==> (r.Panic? <==> Lacking(old(fs.Now()), inum, Visited(old(off), len)) != {}))
      ensures off == old(off) + if r.Done? then |data| else 0
      ensures r.Done? ==> r.n == |data| <= n && off <= old(fs.inodes[inum].size)
      ensures r.Done? ==> |data| == n || off == old(fs.inodes[inum].size)
      ensures r.Done? ==> data == old(Contents(fs.disk, fs.inodes[inum]))[old(off)..off]
    {
      if !readable {
        return Failed, [];
      }
      r, data := fs.Readi(inum, off, n);
      if r.Done? && r.n > 0 {
        off := off + r.n;
      }
    }

    /** A pass of filewrite's loop. */
    method WriteNext(fs: Fs, addr: seq<Byte>, n: nat, i: nat, ghost v: View, ghost w: View, ghost start: nat)
      returns (r: Outcome, next: nat, ghost x: View, ghost op: set<nat>)
      requires fs.Valid() && fs.Committed() && inum < |fs.inodes| && i < n <= |addr| && w == fs.Now() && off == start + i
      requires Standing(fs.sb, v, w, inum, start, addr, i)
      modifies this, fs
      ensures i < next <= n && next == i + Least(CHUNK, n - i) && Stops(fs.sb, v, inum, start, next, fs.slots, r)
      ensures r.Done? ==> fs.Valid() && fs.Committed() && x == fs.Now() && off == start + next
      ensures r.Done? ==> Standing(fs.sb, v, x, inum, start, addr, next)
      ensures r.Device? || r.Failed? ==> fs.Valid() && fs.Now() == w.(dirty := fs.dirty) && off == old(off)
      ensures !r.Panic? && fs.sb.size <= BPB ==> |op| <= 7
    {
      var n1 := if n - i > CHUNK then CHUNK else n - i;
      next := i + n1;
      var src := addr[i..next];
      ghost var u, at := w, off;
      r, u, x, op := WriteChunk(fs, src, n1, w);
      StandingStops(fs.sb, v, w, inum, start, addr, i, at, n1, next, fs.slots, r);
      if r.Done? {
        ghost var y := fs.Now();
        StandingNext(fs.sb, v, w, u, x, y, inum, start, addr, i, at, next, src);
        x := y;
      }
    }

    method WriteOn(fs: Fs, addr: seq<Byte>, n: nat, i: nat, ghost v: View, ghost w: View, ghost chunks: seq<View>,
                   ghost at: seq<nat>, ghost start: nat)
      returns (r: Outcome, next: nat, ghost x: View, ghost more: seq<View>, ghost ats: seq<nat>, ghost op: set<nat>)
      requires fs.Valid() && fs.Committed() && inum < |fs.inodes| && i < n <= |addr| && w == fs.Now() && off == start + i
      requires Going(fs.sb, v, chunks, at, inum, start, addr, i, w)
      modifies this, fs
      ensures i < next <= n && next == i + Least(CHUNK, n - i) && Stops(fs.sb, v, inum, start, next, fs.slots, r)
      ensures r.Done? ==> fs.Valid() && fs.Committed() && x == fs.Now() && inum < |fs.inodes| && off == start + next
      ensures r.Done? ==> Going(fs.sb, v, more, ats, inum, start, addr, next, x)
      ensures r.Device? || r.Failed? ==> fs.Valid() && fs.Now() == w.(dirty := fs.dirty) && off == old(off)
      ensures !r.Panic? && fs.sb.size <= BPB ==> |op| <= 7
    {
      r, next, x, op := WriteNext(fs, addr, n, i, v, w, start);
      more, ats := chunks + [x], at + [next];
      if r.Done? {
        GoingMore(fs.sb, v, chunks, at, inum, start, addr, i, w, x, next);
      }
    }

    /** filewrite on an inode: fails when it starts beyond the end or reaches past the largest file, and
        has then written the whole chunks that fit; panics when there are fewer free blocks than those
        chunks lack, and for nothing else when the log has twenty slots beside those for the bitmap.
        Every transaction stays within seven blocks when the bitmap fits one block. */
    method Write(fs: Fs, addr: seq<Byte>, n: int, writable: bool)
      returns (r: Outcome, ghost ops: seq<set<nat>>, ghost done: nat, ghost chunks: seq<View>, ghost at: seq<nat>)
      requires fs.Valid() && fs.Committed() && inum < |fs.inodes| && n <= |addr|
      modifies this, fs
      ensures !writable || n < 0 ==> r.Failed? && done == 0
      ensures writable && n >= 0 ==> Outcomes(fs.sb, old(fs.Now()), inum, old(off), n, fs.slots, r, done)
      ensures !r.Panic? ==> fs.Valid() && off == old(off) + done && Last(chunks, fs.Now())
      ensures !r.Panic? && fs.sb.size <= BPB ==> Small(ops)
      ensures Chunked(fs.sb, chunks, at, inum, old(off), addr) && chunks[0] == old(fs.Now()) && at[|at| - 1] == done
    {
      assert ChunkAt(fs.sb, fs.Now(), fs.Now(), inum, off, addr, 0);
      if !writable || n < 0 {
        return Failed, [], 0, [fs.Now()], [0];
      }
      GoingNowhere(fs.sb, fs.Now(), inum, off, addr);
      ghost var w;
      r, ops, done, chunks, at, w := WriteLoop(fs, addr, n, fs.Now(), off);
    }

    /** filewrite's loop. */
    method WriteLoop(fs: Fs, addr: seq<Byte>, n: nat, ghost v: View, ghost start: nat)
      returns (r: Outcome, ghost ops: seq<set<nat>>, ghost done: nat, ghost chunks: seq<View>, ghost at: seq<nat>,
               ghost w: View)
      requires fs.Valid() && fs.Committed() && inum < |fs.inodes| && v == fs.Now() && n <= |addr| && off == start
      requires Going(fs.sb, v, [v], [0], inum, start, addr, 0, v)
      modifies this, fs
      ensures Outcomes(fs.sb, v, inum, start, n, fs.slots, r, done)
      ensures Going(fs.sb, v, chunks, at, inum, start, addr, done, w)
      ensures !r.Panic? ==> fs.Valid() && off == start + done && fs.Now() == w.(dirty := fs.dirty)
      ensures !r.Panic? && fs.sb.size <= BPB ==> Small(ops)
    {
      ops, done, chunks, at, w := [], 0, [v], [0], v;
      var i := 0;
      while i < n
        invariant fs.Valid() && fs.Committed() && inum < |fs.inodes| && w == fs.Now() && off == start + i && done == i
        invariant Going(fs.sb, v, chunks, at, inum, start, addr, i, w) && Cut(v, inum, start, n, i)
        invariant fs.sb.size <= BPB ==> Small(ops)
      {
        ghost var op, x, more, ats;
        var next;
        r, next, x, more, ats, op := WriteOn(fs, addr, n, i, v, w, chunks, at, start);
        CutNext(fs.sb, v, w, inum, start, addr, n, i, next, fs.slots, r);
        SmallMore(ops, op);
        ops := ops + [op];
        if !r.Done? {
          return;
        }
        i, done, chunks, at, w := next, next, more, ats, x;
      }
      r := Done(n);
      AllCut(fs.sb, v, w, inum, start, addr, n, i, fs.slots);
    }
  }

  /** The bytes of the chunks that fit below the largest file size. */
  function Fitting(off: nat, n: nat): (m: nat)
    ensures m <= n && (off + n <= MAXBYTES ==> m == n)
    ensures off <= MAXBYTES < off + n ==> m % 1536 == 0 && off + m <= MAXBYTES < off + m + 1536
    ensures off > MAXBYTES && n > 0 ==> m == 0
  {
    if off + n <= MAXBYTES then n else if off <= MAXBYTES then (MAXBYTES - off) / CHUNK * CHUNK else 0
  }

  /** The first n bytes from off lack more blocks than there are. */
  ghost predicate Short(sb: Super, v: View, i: nat, off: nat, n: nat)
    requires sb.Valid() && |v.disk| == sb.size && i < |v.inodes|
  {
    |Lacking(v, i, Visited(off, n))| > |Clear(sb, v.disk)|
  }

  /** A chunk of n bytes panics when it lacks more blocks than there are; with room in the log, only then. */
  ghost predicate ShortOf(sb: Super, v: View, i: nat, off: nat, n: nat, slots: nat, panic: bool)
    requires sb.Valid() && |v.disk| == sb.size && i < |v.inodes|
  {
    && (Short(sb, v, i, off, n) ==> panic)
    && (panic && slots >= BitmapCount(sb) + 20 ==> Short(sb, v, i, off, n))
  }

  lemma ChunkShort(sb: Super, u: View, v: View, i: nat, off: nat, n: nat, open: nat, slots: nat, panic: bool)
    requires Good(sb, v.disk, v.inodes, v.owner, {}) && v == u.(dirty := v.dirty) && i < |v.inodes| && n <= CHUNK
    requires |v.dirty| <= 10 && open >= 1 && (!Affords(sb, v, i, Visited(off, n), open) ==> panic)
    requires Affords(sb, v, i, Visited(off, n), open) && Roomy(sb, v, off, n, slots) ==> !panic
    ensures ShortOf(sb, u, i, off, n, slots, panic)
  {
    assert Spread(off, n) <= 4;
    assert Lacking(u, i, Visited(off, n)) == Lacking(v, i, Visited(off, n));
  }

  /** How filewrite of n bytes at off ends, and how many bytes it has written then. */
  ghost predicate Outcomes(sb: Super, v: View, i: nat, off: nat, n: nat, slots: nat, r: Outcome, done: nat)
    requires sb.Valid() && |v.disk| == sb.size && i < |v.inodes|
  {
    if n == 0 then r == Done(0) && done == 0
    else if v.inodes[i].typ == T_DEV then r.Device? && done == 0
    else if off > v.inodes[i].size then r.Failed? && done == 0
    else
      && (r.Panic? || (r == if off + n <= MAXBYTES then Done(n) else Failed))
      && (!r.Panic? ==> done == Fitting(off, n))
      && ShortOf(sb, v, i, off, Fitting(off, n), slots, r.Panic?)
  }

  /** How a chunk that ends at byte number to of a write at off can end. */
  ghost predicate Stops(sb: Super, v: View, i: nat, off: nat, to: nat, slots: nat, r: Outcome) {
    && sb.Valid() && |v.disk| == sb.size && i < |v.inodes|
    && (r.Device? <==> v.inodes[i].typ == T_DEV)
    && (r.Failed? <==> !r.Device? && (off > v.inodes[i].size || off + to > MAXBYTES))
    && (r.Panic? && slots >= BitmapCount(sb) + 20 ==> Short(sb, v, i, off, to))
  }

  /** The loop of filewrite stands before its next chunk, or at the end. */
  ghost predicate Cut(v: View, i: nat, off: nat, n: nat, k: nat) {
    && i < |v.inodes| && k <= n && (k < n ==> k % CHUNK == 0)
    && (k > 0 ==> v.inodes[i].typ != T_DEV && off <= v.inodes[i].size && off + k <= MAXBYTES)
  }

  lemma CutAt(off: nat, n: nat, k: nat, next: nat)
    requires k < n && k % CHUNK == 0 && (k > 0 ==> off + k <= MAXBYTES) && next == k + Least(CHUNK, n - k)
    ensures k < next <= n && (next < n ==> next % CHUNK == 0)
    ensures off + next <= MAXBYTES ==> next <= Fitting(off, n)
    ensures off + next > MAXBYTES ==> off + n > MAXBYTES && Fitting(off, n) == k
  {
    if off <= MAXBYTES && off + n > MAXBYTES {
      var room, c := MAXBYTES - off, k / CHUNK;
      assert k == c * CHUNK;
      if k + CHUNK > room {
        assert room / CHUNK == c;
      } else {
        assert room / CHUNK >= c + 1;
      }
    }
  }

  lemma CutNext(sb: Super, v: View, w: View, i: nat, off: nat, addr: seq<Byte>, n: nat, k: nat, next: nat, slots: nat,
                r: Outcome)
    requires Cut(v, i, off, n, k) && k < n && Standing(sb, v, w, i, off, addr, k)
    requires next == k + Least(CHUNK, n - k) && Stops(sb, v, i, off, next, slots, r)
    ensures !r.Done? ==> Outcomes(sb, v, i, off, n, slots, r, k)
    ensures r.Done? ==> Cut(v, i, off, n, next)
  {
    CutAt(off, n, k, next);
    NotShort(sb, v, w, i, off, k);
    if r.Panic? {
      LackGrows(v, i, off, next, Fitting(off, n));
    }
  }

  lemma AllCut(sb: Super, v: View, w: View, i: nat, off: nat, addr: seq<Byte>, n: nat, k: nat, slots: nat)
    requires Cut(v, i, off, n, k) && n <= k && Standing(sb, v, w, i, off, addr, k)
    ensures Outcomes(sb, v, i, off, n, slots, Done(n), k)
  {
    NotShort(sb, v, w, i, off, k);
  }

  /** Where a write that began in v stands when w shows its first k bytes. */
  ghost predicate Standing(sb: Super, v: View, w: View, i: nat, off: nat, addr: seq<Byte>, k: nat) {
    && Good(sb, v.disk, v.inodes, v.owner, {}) && Good(sb, w.disk, w.inodes, w.owner, {})
    && Progress(sb, v, w, i, off, addr, k) && Supplied(v, w, i, off, k)
  }

  lemma StandingStops(sb: Super, v: View, w: View, i: nat, off: nat, addr: seq<Byte>, k: nat, at: nat, n: nat, next: nat,
                      slots: nat, r: Outcome)
    requires Standing(sb, v, w, i, off, addr, k) && at == off + k && next == k + n && n > 0
    requires r.Device? <==> w.inodes[i].typ == T_DEV
    requires r.Failed? <==> !r.Device? && (at > w.inodes[i].size || at + n > MAXBYTES)
    requires !r.Device? && !r.Failed? ==> ShortOf(sb, w, i, at, n, slots, r.Panic?)
    ensures Stops(sb, v, i, off, next, slots, r)
  {
    ProgressSize(sb, v, w, i, off, addr, k);
    ShortHere(sb, v, w, i, off, k, at, n, next);
  }

  /** Which blocks the log lists does not matter. */
  lemma StandingAside(sb: Super, v: View, w: View, u: View, i: nat, off: nat, addr: seq<Byte>, k: nat)
    requires Standing(sb, v, w, i, off, addr, k) && u == w.(dirty := u.dirty)
    ensures Standing(sb, v, u, i, off, addr, k)
  {
  }

  lemma StandingMore(sb: Super, v: View, w: View, x: View, i: nat, off: nat, addr: seq<Byte>, k: nat, at: nat, next: nat,
                     t: seq<Byte>)
    requires Standing(sb, v, w, i, off, addr, k) && at == off + k && k < next <= |addr| && t == addr[k..next]
    requires WriteDone(sb, w, x, i, at, t) && Good(sb, x.disk, x.inodes, x.owner, {})
    ensures Standing(sb, v, x, i, off, addr, next)
  {
    assert Progress(sb, v, x, i, off, addr, next) by { ProgressMore(sb, v, w, x, i, off, addr, k, at, next); }
    assert Supplied(v, x, i, off, next) by { WriteSupplies(sb, v, w, x, i, off, k, at, next, t); }
  }

  lemma StandingNext(sb: Super, v: View, w: View, u: View, x: View, y: View, i: nat, off: nat, addr: seq<Byte>, k: nat,
                     at: nat, next: nat, t: seq<Byte>)
    requires Standing(sb, v, w, i, off, addr, k) && at == off + k && k < next <= |addr| && t == addr[k..next]
    requires u == w.(dirty := u.dirty) && WriteDone(sb, u, x, i, at, t) && y == x.(dirty := y.dirty)
    requires Good(sb, y.disk, y.inodes, y.owner, {})
    ensures Standing(sb, v, y, i, off, addr, next)
  {
    StandingAside(sb, v, w, u, i, off, addr, k);
    StandingMore(sb, v, u, x, i, off, addr, k, at, next, t);
    StandingAside(sb, v, x, y, i, off, addr, next);
  }

  lemma WriteSupplies(sb: Super, v: View, w: View, x: View, i: nat, off: nat, k: nat, at: nat, next: nat, t: seq<Byte>)
    requires Supplied(v, w, i, off, k) && WriteDone(sb, w, x, i, at, t) && at == off + k && next == k + |t|
    ensures Supplied(v, x, i, off, next)
  {
    assert |x.owner| == |w.owner| + |Lacking(w, i, Visited(at, |t|))| by {
      DebtIs(w, i, at / BSIZE, Beyond(at, |t|));
    }
    SuppliedMore(v, w, x, i, off, k, at, |t|, next);
  }

  // ---- what the chunks allocate together ----

  /** From v to w exactly what the k bytes from off lacked has been allocated. */
  ghost predicate Supplied(v: View, w: View, i: nat, off: nat, k: nat) {
    && i < |v.inodes| == |w.inodes| && Allotted(v, w, i, Visited(off, k))
    && |w.owner| == |v.owner| + |Lacking(v, i, Visited(off, k))|
  }

  lemma SuppliedNothing(v: View, i: nat, off: nat)
    requires i < |v.inodes|
    ensures Supplied(v, v, i, off, 0)
  {
    assert Visited(off, 0) == {};
    assert Lacking(v, i, {}) == {};
  }

  lemma VisitedTogether(off: nat, a: nat, at: nat, b: nat, n: nat)
    requires at == off + a && n == a + b
    ensures Visited(off, n) == Visited(off, a) + Visited(at, b)
  {
    var lo, mid, from, hi := off / BSIZE, Beyond(off, a), at / BSIZE, Beyond(off, n);
    if a > 0 && b > 0 {
      assert lo <= from <= mid <= hi && hi == Beyond(at, b);
      forall q: nat
        ensures q in PlacesOf(lo, hi) <==> q in PlacesOf(lo, mid) || q in PlacesOf(from, hi)
      {
        PlaceIn(lo, hi, q);
        PlaceIn(lo, mid, q);
        PlaceIn(from, hi, q);
      }
    }
  }

  /** Blocks that have been allocated are not lacking any more. */
  lemma LackingSplit(v: View, w: View, i: nat, ps: set<nat>, qs: set<nat>)
    requires i < |v.inodes| == |w.inodes| && Allotted(v, w, i, ps)
    ensures |Lacking(v, i, ps + qs)| == |Lacking(v, i, ps)| + |Lacking(w, i, qs)|
  {
    var a, b := Lacking(v, i, ps), Lacking(w, i, qs);
    forall q: nat | q < POSITIONS
      ensures q in Lacking(v, i, ps + qs) <==> q in a || q in b
      ensures !(q in a && q in b)
    {
      assert SlotAddr(w.disk, w.inodes[i], q) == SlotAddr(v.disk, v.inodes[i], q) || q in ps;
    }
    assert Lacking(v, i, ps + qs) == a + b && a * b == {};
  }

  lemma AllottedTwice(v: View, w: View, x: View, i: nat, ps: set<nat>, qs: set<nat>)
    requires i < |v.inodes| == |w.inodes| == |x.inodes| && Allotted(v, w, i, ps) && Allotted(w, x, i, qs)
    ensures Allotted(v, x, i, ps + qs)
  {
    forall q: nat | q < POSITIONS
      ensures SlotAddr(x.disk, x.inodes[i], q) == SlotAddr(v.disk, v.inodes[i], q)
           || (q in ps + qs && SlotAddr(v.disk, v.inodes[i], q) == 0)
      ensures q in ps + qs ==> SlotAddr(x.disk, x.inodes[i], q) != 0
    {
      assert q in ps ==> SlotAddr(w.disk, w.inodes[i], q) != 0;
      assert SlotAddr(w.disk, w.inodes[i], q) == SlotAddr(v.disk, v.inodes[i], q) || SlotAddr(v.disk, v.inodes[i], q) == 0;
    }
  }

  lemma SuppliedMore(v: View, w: View, x: View, i: nat, off: nat, k: nat, at: nat, n: nat, next: nat)
    requires Supplied(v, w, i, off, k) && at == off + k && next == k + n
    requires |w.inodes| == |x.inodes| && Allotted(w, x, i, Visited(at, n))
    requires |x.owner| == |w.owner| + |Lacking(w, i, Visited(at, n))|
    ensures Supplied(v, x, i, off, next)
  {
    VisitedTogether(off, k, at, n, next);
    AllottedTwice(v, w, x, i, Visited(off, k), Visited(at, n));
    LackingSplit(v, w, i, Visited(off, k), Visited(at, n));
  }

  lemma LackGrows(v: View, i: nat, off: nat, k: nat, m: nat)
    requires i < |v.inodes| && k <= m
    ensures |Lacking(v, i, Visited(off, k))| <= |Lacking(v, i, Visited(off, m))|
  {
    VisitedTogether(off, k, off + k, m - k, m);
    SubsetCount(Lacking(v, i, Visited(off, k)), Lacking(v, i, Visited(off, m)));
  }

  /** What has been allocated was there. */
  lemma NotShort(sb: Super, v: View, w: View, i: nat, off: nat, k: nat)
    requires Good(sb, v.disk, v.inodes, v.owner, {}) && Good(sb, w.disk, w.inodes, w.owner, {})
    requires Supplied(v, w, i, off, k)
    ensures !Short(sb, v, i, off, k)
  {
    ClearCount(sb, v.disk, v.inodes, v.owner);
    ClearCount(sb, w.disk, w.inodes, w.owner);
  }

  /** The next chunk lacks too much exactly when all up to its end does. */
  lemma ShortHere(sb: Super, v: View, w: View, i: nat, off: nat, k: nat, at: nat, n: nat, next: nat)
    requires Good(sb, v.disk, v.inodes, v.owner, {}) && Good(sb, w.disk, w.inodes, w.owner, {})
    requires Supplied(v, w, i, off, k) && at == off + k && next == k + n
    ensures Short(sb, w, i, at, n) <==> Short(sb, v, i, off, next)
  {
    VisitedTogether(off, k, at, n, next);
    LackingSplit(v, w, i, Visited(off, k), Visited(at, n));
    ClearCount(sb, v.disk, v.inodes, v.owner);
    ClearCount(sb, w.disk, w.inodes, w.owner);
  }

  /** Each operation logged at most seven blocks. */
  ghost predicate Small(ops: seq<set<nat>>) { forall k: nat :: k < |ops| ==> |ops[k]| <= 7 }

  lemma SmallMore(ops: seq<set<nat>>, op: set<nat>)
    ensures Small(ops) && |op| <= 7 ==> Small(ops + [op])
  {
  }

  /** The last of the states shows the same disk and inodes as w. */
  ghost predicate Last(chunks: seq<View>, w: View) {
    |chunks| >= 1 && chunks[|chunks| - 1].disk == w.disk && chunks[|chunks| - 1].inodes == w.inodes
  }

  lemma ProgressSize(sb: Super, v: View, w: View, i: nat, off: nat, addr: seq<Byte>, k: nat)
    requires Progress(sb, v, w, i, off, addr, k)
    ensures off + k > w.inodes[i].size <==> off > v.inodes[i].size
    ensures w.inodes[i].typ == v.inodes[i].typ
  {
  }

  function Least(a: int, b: int): (r: int) { if a < b then a else b }

  ghost predicate Progress(sb: Super, v: View, w: View, i: nat, off: nat, addr: seq<Byte>, k: nat) {
    && k <= |addr| && i < |v.inodes| == |w.inodes|
    && (k == 0 ==> w.disk == v.disk && w.inodes == v.inodes)
    && (k > 0 ==> FileDone(sb, v, w, i, off, addr[..k]))
  }

  /** The states between the transactions of one filewrite: each shows the first at[k] bytes. */
  ghost predicate Chunked(sb: Super, chunks: seq<View>, at: seq<nat>, i: nat, off: nat, addr: seq<Byte>) {
    && |chunks| == |at| >= 1 && at[0] == 0
    && (forall k: nat :: k < |chunks| ==> ChunkAt(sb, chunks[0], chunks[k], i, off, addr, at[k]))
    && Steps(at)
  }

  ghost predicate Steps(at: seq<nat>) {
    forall j: nat, k: nat :: j + 1 == k < |at| ==> at[j] < at[k] <= at[j] + CHUNK
  }

  lemma StepsMore(at: seq<nat>, n: nat)
    requires |at| >= 1 && Steps(at) && at[|at| - 1] < n <= at[|at| - 1] + CHUNK
    ensures Steps(at + [n])
  {
  }

  ghost predicate ChunkAt(sb: Super, v: View, w: View, i: nat, off: nat, addr: seq<Byte>, n: nat) {
    Good(sb, w.disk, w.inodes, w.owner, {}) && Progress(sb, v, w, i, off, addr, n)
  }

  /** chunks are the states between the transactions of a write so far, of which w shows k bytes. */
  ghost predicate Going(sb: Super, v: View, chunks: seq<View>, at: seq<nat>, i: nat, off: nat, addr: seq<Byte>, k: nat,
                        w: View)
  {
    && Chunked(sb, chunks, at, i, off, addr) && chunks[0] == v && chunks[|chunks| - 1] == w && at[|at| - 1] == k
    && Standing(sb, v, w, i, off, addr, k)
  }

  lemma GoingNowhere(sb: Super, v: View, i: nat, off: nat, addr: seq<Byte>)
    requires Good(sb, v.disk, v.inodes, v.owner, {}) && i < |v.inodes|
    ensures Going(sb, v, [v], [0], i, off, addr, 0, v)
  {
    SuppliedNothing(v, i, off);
    assert ChunkAt(sb, v, v, i, off, addr, 0);
  }

  lemma GoingMore(sb: Super, v: View, chunks: seq<View>, at: seq<nat>, i: nat, off: nat, addr: seq<Byte>, k: nat, w: View,
                  x: View, n: nat)
    requires Going(sb, v, chunks, at, i, off, addr, k, w) && Standing(sb, v, x, i, off, addr, n) && k < n <= k + CHUNK
    ensures Going(sb, v, chunks + [x], at + [n], i, off, addr, n, x)
  {
    ChunkedMore(sb, chunks, at, i, off, addr, x, n);
  }

  lemma ChunkedMore(sb: Super, chunks: seq<View>, at: seq<nat>, i: nat, off: nat, addr: seq<Byte>, x: View, n: nat)
    requires Chunked(sb, chunks, at, i, off, addr) && ChunkAt(sb, chunks[0], x, i, off, addr, n)
    requires at[|at| - 1] < n <= at[|at| - 1] + CHUNK
    ensures Chunked(sb, chunks + [x], at + [n], i, off, addr)
  {
    StepsMore(at, n);
    var cs, ns := chunks + [x], at + [n];
    forall k: nat | k < |cs|
      ensures ChunkAt(sb, cs[0], cs[k], i, off, addr, ns[k])
    {
      assert k < |chunks| ==> ChunkAt(sb, chunks[0], chunks[k], i, off, addr, at[k]);
    }
  }

  lemma ProgressMore(sb: Super, v: View, w: View, x: View, i: nat, off: nat, addr: seq<Byte>, k: nat, at: nat, m: nat)
    requires Progress(sb, v, w, i, off, addr, k) && k < m <= |addr| && off + m <= MAXBYTES && at == off + k
    requires WriteDone(sb, w, x, i, at, addr[k..m])
    ensures Progress(sb, v, x, i, off, addr, m)
  {
    Joined(addr, k, m);
    assert FileDone(sb, v, w, i, off, addr[..k]) by {
      if k == 0 {
        FileDoneNothing(sb, v, i, off);
        assert addr[..k] == [];
      }
    }
    FileDoneMore(sb, v, w, x, i, off, addr[..k], at, addr[k..m], addr[..m]);
  }
}
