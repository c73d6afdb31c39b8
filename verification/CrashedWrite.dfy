/** A crash in the middle of filewrite: the chunks of FileLayer.dfy as operations of the log protocol
    of LogProtocol.dfy. */
module CrashedWrite {
  import opened Blocks
  import opened FsLayout
  import opened FileBytes
  import opened FileSystem
  import opened FileLayer
  import opened LogLayout
  import P = LogProtocol
  import S = LogSafety

  // ---- the history that one filewrite leaves ----

  /** One chunk: begin_op, the log_writes w, end_op. */
  ghost function Operation(p: P.Proc, w: seq<P.Event>): (tr: seq<P.Event>) { [P.Began(p)] + w + [P.Ended(p)] }

  ghost function History(p: P.Proc, ws: seq<seq<P.Event>>): (tr: seq<P.Event>) {
    if ws == [] then [] else History(p, ws[..|ws| - 1]) + Operation(p, ws[|ws| - 1])
  }

  ghost predicate OnlyWrites(p: P.Proc, w: seq<P.Event>) {
    forall j :: 0 <= j < |w| ==> w[j].Wrote? && w[j].p == p
  }

  /** The log_writes w turn disk d into disk e. */
  ghost predicate Turns(p: P.Proc, w: seq<P.Event>, d: Disk, e: Disk) {
    OnlyWrites(p, w) && P.Effect(d, w) == e
  }

  lemma {:induction false} EffectAppend(base: Disk, a: seq<P.Event>, b: seq<P.Event>)
    ensures P.Effect(base, a + b) == P.Effect(P.Effect(base, a), b)
    decreases |b|
  {
    if b == [] {
      assert a + b == a;
    } else {
      var n := |b| - 1;
      EffectAppend(base, a, b[..n]);
      assert (a + b)[..|a| + n] == a + b[..n] && (a + b)[|a| + n] == b[n];
    }
  }

  lemma {:induction false} OpenDuring(p: P.Proc, tr: seq<P.Event>, w: seq<P.Event>)
    requires OnlyWrites(p, w)
    ensures P.Open(tr + [P.Began(p)] + w) == P.Open(tr) + {p}
    decreases |w|
  {
    var h := tr + [P.Began(p)] + w;
    if w == [] {
      assert h[..|tr|] == tr && h[|tr|] == P.Began(p) && |h| == |tr| + 1;
    } else {
      var n := |w| - 1;
      OpenDuring(p, tr, w[..n]);
      assert h[..|h| - 1] == tr + [P.Began(p)] + w[..n] && h[|h| - 1] == w[n];
    }
  }

  /** Between begin_op and end_op the operation is under way. */
  lemma InsideIsOpen(p: P.Proc, h: seq<P.Event>, w: seq<P.Event>, t: seq<P.Event>)
    requires OnlyWrites(p, w) && t <= h + Operation(p, w) && |h| < |t| < |h| + |w| + 2
    ensures p in P.Open(t)
  {
    var j := |t| - |h| - 1;
    assert t == (h + Operation(p, w))[..|t|] == h + [P.Began(p)] + w[..j];
    OpenDuring(p, h, w[..j]);
  }

  /** A part of the history in which no operation is under way ends with a whole chunk. */
  lemma {:induction false} WholeChunks(p: P.Proc, ws: seq<seq<P.Event>>, t: seq<P.Event>) returns (k: nat)
    requires forall j :: 0 <= j < |ws| ==> OnlyWrites(p, ws[j])
    requires t <= History(p, ws) && P.Open(t) == {}
    ensures k <= |ws| && t == History(p, ws[..k])
    decreases |ws|
  {
    if ws == [] {
      k := 0;
    } else {
      var front, w := ws[..|ws| - 1], ws[|ws| - 1];
      var h := History(p, front);
      if |t| <= |h| {
        assert t == (h + Operation(p, w))[..|t|] == h[..|t|];
        k := WholeChunks(p, front, t);
        assert ws[..k] == front[..k];
      } else if |t| < |h| + |w| + 2 {
        InsideIsOpen(p, h, w, t);
        assert false;
      } else {
        k := |ws|;
        assert ws[..k] == ws && t == History(p, ws);
      }
    }
  }

  lemma EffectOperation(p: P.Proc, w: seq<P.Event>, d: Disk)
    ensures P.Effect(d, Operation(p, w)) == P.Effect(d, w)
  {
    EffectAppend(d, [P.Began(p)] + w, [P.Ended(p)]);
    EffectAppend(d, [P.Began(p)], w);
    assert P.Effect(d, [P.Began(p)]) == d;
  }

  lemma {:induction false} EffectHistory(p: P.Proc, ws: seq<seq<P.Event>>, chunks: seq<View>, k: nat)
    requires |chunks| == |ws| + 1 && k <= |ws|
    requires forall j :: 0 <= j < |ws| ==> Turns(p, ws[j], chunks[j].disk, chunks[j + 1].disk)
    ensures P.Effect(chunks[0].disk, History(p, ws[..k])) == chunks[k].disk
    decreases k
  {
    if k > 0 {
      EffectHistory(p, ws, chunks, k - 1);
      assert ws[..k][..k - 1] == ws[..k - 1];
      EffectAppend(chunks[0].disk, History(p, ws[..k - 1]), Operation(p, ws[k - 1]));
      EffectOperation(p, ws[k - 1], chunks[k - 1].disk);
      assert Turns(p, ws[k - 1], chunks[k - 1].disk, chunks[k].disk);
    }
  }

  // ---- what the file system finds after recovery ----

  /** The log lies below the inodes. */
  ghost predicate Below(l: Layout, sb: Super) { l.size == sb.size && l.logstart + l.nlog <= sb.inodestart }

  lemma SameFile(l: Layout, sb: Super, w: View, r: Disk, i: nat)
    requires Below(l, sb) && Good(sb, w.disk, w.inodes, w.owner, {}) && i < |w.inodes| && Synced(sb, w, i)
    requires |r| == l.size && SameHome(l, r, w.disk)
    ensures sb.inodestart + i / IPB < |r|
    ensures OnDisk(sb, r, i) == w.inodes[i] && Contents(r, w.inodes[i]) == Contents(w.disk, w.inodes[i])
  {
    assert i / IPB <= sb.ninodes / IPB;
    var n := w.inodes[i];
    forall p: nat | p < POSITIONS
      ensures SlotAddr(w.disk, n, p) == 0 || SlotAddr(w.disk, n, p) >= sb.nmeta
    {
      assert SlotAddr(w.disk, w.inodes[i], p) == 0 || SlotAddr(w.disk, w.inodes[i], p) in w.owner;
    }
    var c, e := Contents(w.disk, n), Contents(r, n);
    forall j: nat | j < n.size
      ensures e[j] == c[j]
    {
      SameBlocksSameByte(sb, w.disk, r, n, j);
      ContentsAt(w.disk, n, j);
      ContentsAt(r, n, j);
    }
  }

  lemma {:induction false} OpenAppend(pre: seq<P.Event>, t: seq<P.Event>)
    requires P.Open(pre) == {}
    ensures P.Open(pre + t) == P.Open(t)
    decreases |t|
  {
    if t == [] {
      assert pre + t == pre;
    } else {
      var n := |t| - 1;
      OpenAppend(pre, t[..n]);
      assert (pre + t)[..|pre| + n] == pre + t[..n] && (pre + t)[|pre| + n] == t[n];
    }
  }

  /** Disks that agree outside the log agree there after the same writes. */
  lemma {:induction false} EffectSameHome(l: Layout, d: Disk, e: Disk, tr: seq<P.Event>)
    requires |d| == |e| == l.size && SameHome(l, d, e)
    ensures SameHome(l, P.Effect(d, tr), P.Effect(e, tr))
    decreases |tr|
  {
    if tr != [] {
      EffectSameHome(l, d, e, tr[..|tr| - 1]);
    }
  }

  /** What a crash in state s keeps of a filewrite that began in state q: whole chunks. */
  lemma SavedChunks(c: P.Config, ss: seq<P.State>, q: nat, s: nat, p: P.Proc, ws: seq<seq<P.Event>>) returns (k: nat)
    requires S.Sized(c) && P.Run(c, ss) && q <= s < |ss|
    requires ss[q].phase.Running? && ss[q].ops == map[] && ss[s].trace <= ss[q].trace + History(p, ws)
    requires forall j :: 0 <= j < |ws| ==> OnlyWrites(p, ws[j])
    ensures k <= |ws| && ss[s].saved == ss[q].trace + History(p, ws[..k])
  {
    S.CrashAtomicity(c, ss, s);
    S.CrashAtomicity(c, ss, q);
    S.RunHistory(c, ss, q);
    S.Durability(c, ss, q, s);
    k := ChunksAfter(ss[q].trace, p, ws, ss[s].saved);
  }

  lemma ChunksAfter(pre: seq<P.Event>, p: P.Proc, ws: seq<seq<P.Event>>, saved: seq<P.Event>) returns (k: nat)
    requires forall j :: 0 <= j < |ws| ==> OnlyWrites(p, ws[j])
    requires P.Open(pre) == {} && P.Open(saved) == {} && pre <= saved <= pre + History(p, ws)
    ensures k <= |ws| && saved == pre + History(p, ws[..k])
  {
    var t := saved[|pre|..];
    assert saved == pre + t;
    OpenAppend(pre, t);
    assert t == (pre + History(p, ws))[|pre|..|saved|] == History(p, ws)[..|t|];
    k := WholeChunks(p, ws, t);
  }

  /** Take any run, whatever its processes did and however often it crashed before, up to a state q in
      which no operation is open, and let a filewrite begin there. Cut the power at any moment of it,
      however its log_writes interleave with evictions and the writes of commits: after recovery the
      inode on disk shows the file as it was in q overlaid with the bytes of a whole number of chunks.
      chunks and at are those of OpenFile.Write; ws are the log_writes of each chunk. */
  lemma WholeChunksAfterCrash(c: P.Config, ss: seq<P.State>, q: nat, s: nat, p: P.Proc, ws: seq<seq<P.Event>>,
                              sb: Super, chunks: seq<View>, at: seq<nat>, i: nat, off: nat, addr: seq<Byte>)
      returns (k: nat)
    requires S.Sized(c) && P.Run(c, ss) && q <= s < |ss| && Below(c.l, sb)
    requires ss[q].phase.Running? && ss[q].ops == map[] && ss[s].trace <= ss[q].trace + History(p, ws)
    requires Chunked(sb, chunks, at, i, off, addr) && Whole(sb, chunks[0], i)
    requires SameHome(c.l, P.Effect(c.base, ss[q].trace), chunks[0].disk)
    requires |chunks| == |ws| + 1 && forall j :: 0 <= j < |ws| ==> Turns(p, ws[j], chunks[j].disk, chunks[j + 1].disk)
    ensures WellFormed(c.l, ss[s].disk) && k < |at| && at[k] <= |addr|
    ensures var r := Recover(c.l, ss[s].disk);
            && sb.inodestart + i / IPB < |r| && i < |chunks[0].inodes|
            && Contents(r, OnDisk(sb, r, i)) == Written(Contents(chunks[0].disk, chunks[0].inodes[i]), off, addr[..at[k]])
  {
    S.CrashAtomicity(c, ss, s);
    forall j | 0 <= j < |ws|
      ensures OnlyWrites(p, ws[j])
    {
      assert Turns(p, ws[j], chunks[j].disk, chunks[j + 1].disk);
    }
    k := SavedChunks(c, ss, q, s, p, ws);
    ChunkOnDisk(c, ss[q].trace, p, ws, sb, chunks, at, i, off, addr, k);
    assert ChunkAt(sb, chunks[0], chunks[k], i, off, addr, at[k]);
    ChunkShown(c.l, sb, chunks[0], chunks[k], Recover(c.l, ss[s].disk), i, off, addr, at[k]);
  }

  lemma ChunkShown(l: Layout, sb: Super, v: View, w: View, r: Disk, i: nat, off: nat, addr: seq<Byte>, n: nat)
    requires ChunkAt(sb, v, w, i, off, addr, n) && Whole(sb, v, i) && Below(l, sb) && SameHome(l, r, w.disk)
    ensures n <= |addr| && sb.inodestart + i / IPB < |r| && i < |v.inodes|
    ensures Contents(r, OnDisk(sb, r, i)) == Written(Contents(v.disk, v.inodes[i]), off, addr[..n])
  {
    assert Whole(sb, w, i);
    SameFile(l, sb, w, r, i);
  }

  /** The history up to chunk k shows the disk of chunk k. */
  lemma ChunkOnDisk(c: P.Config, pre: seq<P.Event>, p: P.Proc, ws: seq<seq<P.Event>>, sb: Super, chunks: seq<View>,
                    at: seq<nat>, i: nat, off: nat, addr: seq<Byte>, k: nat)
    requires Chunked(sb, chunks, at, i, off, addr) && |c.base| == c.l.size == sb.size && k <= |ws|
    requires SameHome(c.l, P.Effect(c.base, pre), chunks[0].disk)
    requires |chunks| == |ws| + 1 && forall j :: 0 <= j < |ws| ==> Turns(p, ws[j], chunks[j].disk, chunks[j + 1].disk)
    ensures SameHome(c.l, P.Effect(c.base, pre + History(p, ws[..k])), chunks[k].disk)
  {
    assert ChunkAt(sb, chunks[0], chunks[0], i, off, addr, at[0]);
    EffectAppend(c.base, pre, History(p, ws[..k]));
    EffectSameHome(c.l, P.Effect(c.base, pre), chunks[0].disk, History(p, ws[..k]));
    EffectHistory(p, ws, chunks, k);
  }

  /** The file c with the bytes t, if any, at off. */
  ghost function Written(c: seq<Byte>, off: nat, t: seq<Byte>): (r: seq<Byte>) {
    if t == [] || off > |c| then c else Overlay(c, off, t)
  }
}
