/** log.c as one process executes it, over the buffer cache of bio.c. The cache's history
    records the disk after every block write, so each method says what every crash finds. */
module Log {
  import opened Blocks
  import opened LogLayout
  import opened CommitPoints
  import opened BufferCache
  import Reservation = LogReservation

  type Proc = nat

  ghost function Blocknos(lh: seq<nat>): (bs: set<nat>) { set b | b in lh }

  lemma BlocknosRest(lh: seq<nat>, t: nat)
    requires t < |lh| && forall i, j :: 0 <= i < j < |lh| ==> lh[i] != lh[j]
    ensures lh[t] in Blocknos(lh[t..]) && Blocknos(lh[t..]) - {lh[t]} == Blocknos(lh[t + 1..])
  {
    assert lh[t..] == [lh[t]] + lh[t + 1..];
  }

  /** What is still pinned once the first k blocks are installed: nothing ever is during recovery. */
  ghost function Rest(lh: seq<nat>, k: nat, commit: bool): (bs: set<nat>)
    requires k <= |lh|
  {
    if commit then Blocknos(lh[k..]) else {}
  }

  lemma RestPinned(lh: seq<nat>, k: nat, commit: bool)
    requires k < |lh| && (commit ==> forall i, j :: 0 <= i < j < |lh| ==> lh[i] != lh[j])
    ensures Rest(lh, k, commit) == {} || lh[k] in Rest(lh, k, commit)
    ensures Rest(lh, k, commit) - {lh[k]} == Rest(lh, k + 1, commit)
    ensures forall b :: b in Rest(lh, k, commit) ==> b in lh
  {
    if commit {
      BlocknosRest(lh, k);
    }
  }

  class RedoLog {
    const l: Layout
    const bc: Cache
    var lh: seq<nat>
    var outstanding: nat
    var committing: bool
    /** The open operations, by process, with the blocks each has logged. */
    ghost var ops: map<Proc, set<nat>>

    /** Blocks logged, and those the open operations may still log when each is allowed `cap`, fit
        the log. */
    ghost predicate Reserved(cap: nat)
      reads this
    {
      |ops| == outstanding && Reservation.Within(l.nlog, cap, lh, ops)
    }

    /** initlog: take over a cache that nobody uses yet, and recover. */
    constructor (layout: Layout, cache: Cache)
      requires WellFormed(layout, cache.disk) && cache.Valid() && cache.Idle() && cache.Pinned() == {}
      modifies cache
      ensures l == layout && bc == cache && lh == [] && outstanding == 0 && !committing && Ready({}) && ops == map[]
      ensures forall cap: nat :: l.nlog >= LOGSIZE && cap < MAXOPBLOCKS ==> Reserved(cap)
      ensures bc.disk == Recover(layout, old(cache.disk))
    {
      l, bc, lh, outstanding, committing, ops := layout, cache, [], 0, false, map[];
      new;
      RecoverFromLog();
    }

    /** Between operations: no buffer in use, and `pinned` are the blocks waiting to be written. */
    ghost predicate Ready(pinned: set<nat>)
      reads this, bc
    {
      && l.Valid() && bc.Valid() && bc.Idle() && |bc.disk| == l.size && l.Fits(lh)
      && bc.Pinned() == pinned && |pinned| < NBUF && (forall b :: b in pinned ==> l.Home(b))
    }

    ghost function Contents(): (d: Disk)
      requires bc.Valid()
      reads this, bc
    {
      seq(|bc.disk|, a requires bc.Valid() && 0 <= a < |bc.disk| reads this, bc => bc.View(a))
    }

    /** One round of write_log or install_trans: bread the slot, bread the home block, copy one
        to the other, bwrite it, brelse both. */
    method CopyBlock(slot: nat, home: nat, toLog: bool, ghost pinned: set<nat>)
      requires Ready(pinned) && slot < l.size && home < l.size && slot != home
      requires pinned == {} || home in pinned
      modifies bc
      ensures var src, dst := if toLog then home else slot, if toLog then slot else home;
              && Ready(pinned - {dst})
              && bc.disk == old(bc.disk)[dst := old(bc.View(src))] && bc.history == old(bc.history) + [bc.disk]
              && bc.View(dst) == old(bc.View(src))
              && forall a :: 0 <= a < l.size && a != dst ==> bc.View(a) == old(bc.View(a))
    {
      var b, h := ReadPair(slot, home, pinned);
      if toLog {
        Transfer(h, home, b, slot);
      } else {
        Transfer(b, slot, h, home);
      }
    }

    method Transfer(from: nat, ghost src: nat, to: nat, ghost dst: nat)
      requires l.Valid() && bc.Valid() && |bc.disk| == l.size && from < NBUF && to < NBUF && from != to
      requires src < l.size && dst < l.size && src != dst && Held(from, src) && Held(to, dst)
      requires forall x :: 0 <= x < NBUF && x != from && x != to ==> bc.buf[x].refcnt == 0
      modifies bc
      ensures bc.Valid() && bc.Idle() && bc.Pinned() == old(bc.Pinned()) - {dst}
      ensures bc.disk == old(bc.disk)[dst := old(bc.View(src))] && bc.history == old(bc.history) + [bc.disk]
      ensures forall a :: 0 <= a < l.size ==> bc.View(a) == old(bc.View(if a == dst then src else a))
    {
      bc.Fill(to, bc.buf[from].data);
      bc.Bwrite(to);
      LetGo(from, to);
    }

    method LetGo(from: nat, to: nat)
      requires bc.Valid() && from < NBUF && to < NBUF && from != to
      requires bc.buf[from].locked && bc.buf[to].locked && bc.buf[from].refcnt == bc.buf[to].refcnt == 1
      requires forall x :: (x == from || x == to) && bc.buf[x].valid && !bc.buf[x].dirty ==>
        bc.buf[x].data == bc.disk[bc.buf[x].blockno]
      requires forall x :: 0 <= x < NBUF && x != from && x != to ==> bc.buf[x].refcnt == 0
      modifies bc
      ensures bc.Valid() && bc.Idle() && bc.Pinned() == old(bc.Pinned())
      ensures bc.disk == old(bc.disk) && bc.history == old(bc.history)
      ensures forall a :: 0 <= a < |bc.disk| ==> bc.View(a) == old(bc.View(a))
    {
      bc.Brelse(from);
      bc.Brelse(to);
    }

    method ReadPair(slot: nat, home: nat, ghost pinned: set<nat>) returns (b: nat, h: nat)
      requires Ready(pinned) && slot < l.size && home < l.size && slot != home
      requires pinned == {} || home in pinned
      modifies bc
      ensures bc.Valid() && bc.disk == old(bc.disk) && bc.history == old(bc.history) && bc.Pinned() == pinned
      ensures forall a :: 0 <= a < l.size ==> bc.View(a) == old(bc.View(a))
      ensures b < NBUF && h < NBUF && b != h
      ensures Held(b, slot) && Held(h, home)
      ensures forall x :: 0 <= x < NBUF && x != b && x != h ==> bc.buf[x].refcnt == 0
    {
      b := ReadFirst(slot, pinned);
      assert home in bc.where ==> bc.where[home] != b;
      assert pinned == {} ==> bc.buf[if b == 0 then 1 else 0].Recyclable();
      h := bc.Bread(ROOTDEV, home);
    }

    method ReadFirst(slot: nat, ghost pinned: set<nat>) returns (b: nat)
      requires Ready(pinned) && slot < l.size
      modifies bc
      ensures bc.Valid() && bc.disk == old(bc.disk) && bc.history == old(bc.history) && bc.Pinned() == pinned
      ensures forall a :: 0 <= a < l.size ==> bc.View(a) == old(bc.View(a))
      ensures b < NBUF && Held(b, slot) && slot in bc.where && bc.where[slot] == b
      ensures forall x :: 0 <= x < NBUF && x != b ==> bc.buf[x].refcnt == 0 && (pinned == {} ==> bc.buf[x].Recyclable())
    {
      FreeBuffer(bc.buf, bc.where, pinned);
      b := bc.Bread(ROOTDEV, slot);
    }

    /** This process alone holds buffer b, with the contents of the block. */
    ghost predicate Held(b: nat, blockno: nat)
      requires bc.Valid() && b < NBUF && blockno < |bc.disk|
      reads this, bc
    {
      var x := bc.buf[b];
      && x.locked && x.valid && x.refcnt == 1 && x.Caches(ROOTDEV, blockno) && x.data == bc.View(blockno)
      && (!x.dirty ==> x.data == bc.disk[blockno])
    }

    /** write_log has copied the first k blocks since the disk was d, bread found view and the history was h. */
    ghost predicate Logged(d: Disk, view: Disk, h: seq<Disk>, k: nat)
      reads this, bc
    {
      && Ready(Blocknos(lh)) && |d| == |view| == l.size && k <= |lh|
      && bc.disk == LogFilled(l, d, view, lh, k) && bc.history == h + LogPoints(l, d, view, lh, k)
      && forall a: nat :: l.Home(a) ==> bc.View(a) == view[a]
    }

    method LogBlock(tail: nat, ghost d: Disk, ghost view: Disk, ghost h: seq<Disk>)
      requires Logged(d, view, h, tail) && tail < |lh|
      modifies bc
      ensures Logged(d, view, h, tail + 1)
    {
      LoggedNext(d, view, h, tail);
      CopyBlock(l.Slot(tail), lh[tail], true, Blocknos(lh));
    }

    /** What write_log's next disk adds to the history. */
    lemma LoggedNext(d: Disk, view: Disk, h: seq<Disk>, k: nat)
      requires l.Valid() && |d| == |view| == l.size && l.Fits(lh) && k < |lh|
      ensures LogFilled(l, d, view, lh, k + 1) == LogFilled(l, d, view, lh, k)[l.Slot(k) := view[lh[k]]]
      ensures h + LogPoints(l, d, view, lh, k) + [LogFilled(l, d, view, lh, k + 1)] == h + LogPoints(l, d, view, lh, k + 1)
      ensures !l.Home(l.Slot(k)) && lh[k] in Blocknos(lh) && Blocknos(lh) - {l.Slot(k)} == Blocknos(lh)
    {
      assert l.Home(lh[k]);
    }

    /** Copy every logged block from the cache to its slot. */
    method WriteLog(ghost d: Disk, ghost view: Disk)
      requires Ready(Blocknos(lh)) && d == bc.disk && view == Contents()
      modifies bc
      ensures Logged(d, view, old(bc.history), |lh|)
    {
      var tail := 0;
      while tail < |lh|
        invariant tail <= |lh| && Logged(d, view, old(bc.history), tail)
      {
        LogBlock(tail, d, view, old(bc.history));
        tail := tail + 1;
      }
    }

    /** An idle buffer that is not pinned equals the disk. */
    lemma UnpinnedIsDisk(pinned: set<nat>, a: nat)
      requires Ready(pinned) && a < l.size && a !in pinned
      ensures bc.View(a) == bc.disk[a]
    {
      if a in bc.where {
        assert bc.buf[bc.where[a]].Ok(bc.disk);
      }
    }

    /** install_trans has copied the first k blocks since the disk was d and the history was h. In a
        commit the blocks still to be copied are pinned; in recovery no block is. */
    ghost predicate Placed(commit: bool, d: Disk, h: seq<Disk>, k: nat)
      reads this, bc
    {
      && |d| == l.size && k <= |lh| && Ready(Rest(lh, k, commit))
      && bc.disk == Installed(l, d, lh, k) && bc.history == h + InstallPoints(l, d, lh, k)
    }

    method InstallBlock(tail: nat, ghost commit: bool, ghost d: Disk, ghost h: seq<Disk>)
      requires Placed(commit, d, h, tail) && tail < |lh|
      requires commit ==> forall i, j :: 0 <= i < j < |lh| ==> lh[i] != lh[j]
      modifies bc
      ensures Placed(commit, d, h, tail + 1)
    {
      RestPinned(lh, tail, commit);
      PlacedNext(d, h, tail);
      CopyHome(l.Slot(tail), lh[tail], Rest(lh, tail, commit));
    }

    /** A slot, which is never pinned, is copied to its home block. */
    method CopyHome(slot: nat, home: nat, ghost pinned: set<nat>)
      requires Ready(pinned) && slot < l.size && home < l.size && slot != home && slot !in pinned
      requires pinned == {} || home in pinned
      modifies bc
      ensures Ready(pinned - {home})
      ensures bc.disk == old(bc.disk)[home := old(bc.disk)[slot]] && bc.history == old(bc.history) + [bc.disk]
    {
      UnpinnedIsDisk(pinned, slot);
      CopyBlock(slot, home, false, pinned);
    }

    /** What install_trans' next disk adds to the history. */
    lemma PlacedNext(d: Disk, h: seq<Disk>, k: nat)
      requires l.Valid() && |d| == l.size && l.Fits(lh) && k < |lh|
      ensures Installed(l, d, lh, k + 1) == Installed(l, d, lh, k)[lh[k] := Installed(l, d, lh, k)[l.Slot(k)]]
      ensures h + InstallPoints(l, d, lh, k) + [Installed(l, d, lh, k + 1)] == h + InstallPoints(l, d, lh, k + 1)
    {
    }

    lemma PlacedNone(commit: bool, d: Disk)
      requires d == bc.disk && Ready(if commit then Blocknos(lh) else {})
      ensures Placed(commit, d, bc.history, 0)
    {
      assert lh[0..] == lh;
      assert bc.history + [] == bc.history;
    }

    /** Copy every logged block from its slot home. */
    method InstallTrans(ghost commit: bool, ghost d: Disk)
      requires d == bc.disk && Ready(if commit then Blocknos(lh) else {})
      requires commit ==> forall i, j :: 0 <= i < j < |lh| ==> lh[i] != lh[j]
      modifies bc
      ensures Placed(commit, d, old(bc.history), |lh|)
    {
      PlacedNone(commit, d);
      var tail := 0;
      while tail < |lh|
        invariant tail <= |lh| && Placed(commit, d, old(bc.history), tail)
      {
        InstallBlock(tail, commit, d, old(bc.history));
        tail := tail + 1;
      }
    }

    /** The loop of write_head, on the words of the header buffer. */
    method EncodeHead(data: Block) returns (h: Block)
      requires |lh| <= LOGSIZE && forall i :: 0 <= i < |lh| ==> lh[i] < 0x1_0000_0000
      ensures h == HeaderBlock(data, lh)
    {
      h := PutWord(data, 0, |lh|);
      var i := 0;
      assert lh[0..] == lh;
      while i < |lh|
        invariant i <= |lh| && PutWords(h, i + 1, lh[i..]) == HeaderBlock(data, lh)
      {
        assert lh[i..][1..] == lh[i + 1..];
        h := PutWord(h, i + 1, lh[i]);
        i := i + 1;
      }
    }

    method ReadOne(blockno: nat, ghost pinned: set<nat>) returns (b: nat)
      requires Ready(pinned) && blockno < l.size && blockno !in pinned
      modifies bc
      ensures bc.Valid() && bc.disk == old(bc.disk) && bc.history == old(bc.history) && bc.Pinned() == pinned
      ensures forall a :: 0 <= a < l.size ==> bc.View(a) == old(bc.View(a))
      ensures b < NBUF && Held(b, blockno) && bc.buf[b].data == bc.disk[blockno]
      ensures forall x :: 0 <= x < NBUF && x != b ==> bc.buf[x].refcnt == 0
    {
      FreeBuffer(bc.buf, bc.where, pinned);
      UnpinnedIsDisk(pinned, blockno);
      b := bc.Bread(ROOTDEV, blockno);
    }

    /** Put the in-memory header on disk: one block write. */
    method WriteHead(ghost pinned: set<nat>)
      requires Ready(pinned)
      modifies bc
      ensures Ready(pinned)
      ensures bc.disk == HeadWritten(l, old(bc.disk), lh) && bc.history == old(bc.history) + [bc.disk]
      ensures forall a: nat :: l.Home(a) ==> bc.View(a) == old(bc.View(a))
    {
      var b := ReadOne(l.logstart, pinned);
      var h := EncodeHead(bc.buf[b].data);
      StoreOne(b, l.logstart, h);
    }

    method StoreOne(b: nat, ghost blockno: nat, data: Block)
      requires l.Valid() && bc.Valid() && |bc.disk| == l.size && b < NBUF && blockno < l.size && Held(b, blockno)
      requires forall x :: 0 <= x < NBUF && x != b ==> bc.buf[x].refcnt == 0
      modifies bc
      ensures bc.Valid() && bc.Idle() && bc.Pinned() == old(bc.Pinned()) - {blockno}
      ensures bc.disk == old(bc.disk)[blockno := data] && bc.history == old(bc.history) + [bc.disk]
      ensures forall a :: 0 <= a < l.size && a != blockno ==> bc.View(a) == old(bc.View(a))
    {
      bc.Fill(b, data);
      bc.Bwrite(b);
      bc.Brelse(b);
    }

    /** The loop of read_head. */
    method DecodeHead(data: Block) returns (entries: seq<nat>)
      requires WordAt(data, 0) <= LOGSIZE
      ensures entries == Entries(data)
    {
      entries := [];
      while |entries| < WordAt(data, 0)
        invariant |entries| <= WordAt(data, 0) && entries == Entries(data)[..|entries|]
      {
        entries := entries + [WordAt(data, |entries| + 1)];
      }
    }

    /** Load the header from disk. */
    method ReadHead()
      requires Ready({}) && WellFormed(l, bc.disk)
      modifies this`lh, bc
      ensures Ready({}) && bc.disk == old(bc.disk) && bc.history == old(bc.history)
      ensures lh == Entries(bc.disk[l.logstart])
    {
      var b := ReadOne(l.logstart, {});
      lh := DecodeHead(bc.buf[b].data);
      bc.Brelse(b);
    }

    /** Replay the log, whatever an earlier crash left in it. */
    method RecoverFromLog()
      requires Ready({}) && WellFormed(l, bc.disk)
      modifies this`lh, bc
      ensures Ready({}) && lh == []
      ensures bc.disk == Recover(l, old(bc.disk))
      ensures |bc.history| == |old(bc.history)| + |Entries(old(bc.disk)[l.logstart])| + 1
      ensures forall k :: |old(bc.history)| <= k < |bc.history| ==>
                bc.history[k] == RecoverPrefix(l, old(bc.disk), k + 1 - |old(bc.history)|)
    {
      ghost var d := bc.disk;
      ReadHead();
      ghost var n := |lh|;
      InstallTrans(false, d);
      lh := [];
      WriteHead({});
    }

    /** Up to and including the write that commits. */
    method LogAndCommit(ghost d: Disk, ghost view: Disk)
      requires Ready(Blocknos(lh)) && d == bc.disk && view == Contents()
      modifies bc
      ensures Ready(Blocknos(lh)) && bc.disk == HeadWritten(l, LogFilled(l, d, view, lh, |lh|), lh)
      ensures bc.history == old(bc.history) + LogPoints(l, d, view, lh, |lh|) + [bc.disk]
    {
      WriteLog(d, view);
      WriteHead(Blocknos(lh));
    }

    /** After the write that commits. */
    method InstallAndErase(ghost d: Disk)
      requires Ready(Blocknos(lh)) && d == bc.disk
      requires forall i, j :: 0 <= i < j < |lh| ==> lh[i] != lh[j]
      modifies this`lh, bc
      ensures Ready({}) && lh == [] && bc.disk == HeadWritten(l, Installed(l, d, old(lh), |old(lh)|), [])
      ensures bc.history == old(bc.history) + InstallPoints(l, d, old(lh), |old(lh)|) + [bc.disk]
    {
      InstallTrans(true, d);
      lh := [];
      WriteHead({});
    }

    /** Commit the logged blocks; the disk passes through exactly the commit points. */
    method Commit(ghost d: Disk, ghost view: Disk)
      requires Ready(Blocknos(lh)) && d == bc.disk && view == Contents()
      requires forall i, j :: 0 <= i < j < |lh| ==> lh[i] != lh[j]
      modifies this`lh, bc
      ensures Ready({}) && lh == []
      ensures if old(lh) == [] then bc.disk == d && bc.history == old(bc.history)
              else
                && bc.history == old(bc.history) + CommitTrace(l, d, view, old(lh))
                && bc.disk == CommitPoint(l, d, view, old(lh), 2 * |old(lh)| + 2)
    {
      if |lh| > 0 {
        LogAndCommit(d, view);
        AppendTrace(old(bc.history), l, d, view, lh);
        InstallAndErase(bc.disk);
      }
    }

    /** One turn of begin_op's loop for process p: enter the transaction, or wait. The reservation
        holds on either way, and whoever waits has a commit or an open operation to wait for. */
    method BeginOp(ghost p: Proc, ghost cap: nat) returns (entered: bool)
      requires p !in ops && |ops| == outstanding
      modifies this`outstanding, this`ops
      ensures entered <==> !committing && |lh| + (old(outstanding) + 1) * MAXOPBLOCKS <= LOGSIZE
      ensures ops == (if entered then old(ops)[p := {}] else old(ops)) && |ops| == outstanding
      ensures old(Reserved(cap)) ==> Reserved(cap)
      ensures old(Reserved(cap)) && !entered ==> committing || ops != map[]
    {
      entered := !committing && |lh| + (outstanding + 1) * MAXOPBLOCKS <= LOGSIZE;
      if entered {
        if Reserved(cap) {
          Reservation.WithinBegin(l.nlog, cap, lh, ops, p);
        }
        outstanding := outstanding + 1;
        ops := ops[p := {}];
      }
    }

    /** Record the block of a locked buffer in the transaction of p, once, and pin the buffer. !ok is a
        panic: the log is full or nobody is in an operation. Within the reservation there is none. */
    method LogWrite(b: nat, ghost p: Proc, ghost cap: nat) returns (ok: bool)
      requires bc.Valid() && b < NBUF && bc.buf[b].locked && bc.buf[b].valid && |ops| == outstanding
      modifies this`lh, this`ops, bc`buf
      ensures bc.Valid() && |ops| == outstanding
      ensures ok <==> |old(lh)| < LOGSIZE && |old(lh)| < l.nlog - 1 && outstanding >= 1
      ensures !ok ==> lh == old(lh) && ops == old(ops) && bc.buf == old(bc.buf)
      ensures ok ==> LoggedOne(old(lh), old(bc.buf), b) && bc.Pinned() == old(bc.Pinned()) + {bc.buf[b].blockno}
      ensures forall a :: 0 <= a < |bc.disk| ==> bc.View(a) == old(bc.View(a))
      ensures ok && p in old(ops) ==> ops == old(ops)[p := old(ops)[p] + {bc.buf[b].blockno}]
      ensures old(Reserved(cap)) && p in old(ops) && |old(ops)[p] + {bc.buf[b].blockno}| <= cap ==> ok && Reserved(cap)
    {
      if Reserved(cap) && p in ops && |ops[p] + {bc.buf[b].blockno}| <= cap {
        Reservation.WithinHasRoom(l.nlog, cap, lh, ops);
        Reservation.WithinLog(l.nlog, cap, lh, ops, p, bc.buf[b].blockno);
      }
      if |lh| >= LOGSIZE || |lh| >= l.nlog - 1 || outstanding < 1 {
        return false;
      }
      Record(b);
      if p in ops {
        ops := ops[p := ops[p] + {bc.buf[b].blockno}];
      }
      ok := true;
    }

    method Record(b: nat)
      requires bc.Valid() && b < NBUF && bc.buf[b].locked && bc.buf[b].valid
      modifies this`lh, bc`buf
      ensures bc.Valid() && LoggedOne(old(lh), old(bc.buf), b)
      ensures bc.Pinned() == old(bc.Pinned()) + {bc.buf[b].blockno}
      ensures forall a :: 0 <= a < |bc.disk| ==> bc.View(a) == old(bc.View(a))
    {
      Absorb(bc.buf[b].blockno);
      bc.Pin(b);
    }

    /** Buffer b is dirty, and its block is in the list, at its old place or at the end. */
    ghost predicate LoggedOne(was: seq<nat>, bufs: seq<Buf>, b: nat)
      requires b < |bufs|
      reads this, bc
    {
      && bc.buf == bufs[b := bufs[b].(dirty := true)]
      && lh == if bufs[b].blockno in was then was else was + [bufs[b].blockno]
    }

    /** log_write's loop: find the block in the list, or put it at the end. */
    method Absorb(blockno: nat)
      modifies this`lh
      ensures lh == if blockno in old(lh) then old(lh) else old(lh) + [blockno]
    {
      var i := 0;
      while i < |lh| && lh[i] != blockno
        invariant i <= |lh| && forall j :: 0 <= j < i ==> lh[j] != blockno
      {
        i := i + 1;
      }
      if i == |lh| {
        lh := lh + [blockno];
      } else {
        lh := lh[i := blockno];
      }
    }

    /** The blocks bread finds are those on disk, but for the pinned ones. */
    lemma ContentsOffLog(pinned: set<nat>)
      requires Ready(pinned)
      ensures forall a :: 0 <= a < l.size && a !in pinned ==> Contents()[a] == bc.disk[a]
    {
      forall a | 0 <= a < l.size && a !in pinned ensures Contents()[a] == bc.disk[a] {
        UnpinnedIsDisk(pinned, a);
      }
    }

    /** end_op's commit, by the last one out. */
    method CommitAll(ghost d: Disk, ghost view: Disk) returns (ghost writes: seq<Disk>)
      requires !committing && Ready(Blocknos(lh)) && d == bc.disk && view == Contents()
      requires WellFormed(l, d) && Entries(d[l.logstart]) == [] && forall i, j :: 0 <= i < j < |lh| ==> lh[i] != lh[j]
      modifies this`lh, this`committing, bc
      ensures !committing && lh == [] && Ready({}) && SameHome(l, bc.disk, view) && SameHome(l, Contents(), view)
      ensures bc.history == old(bc.history) + writes && AllHold(l, writes, d, view, |old(lh)|)
    {
      ContentsOffLog(Blocknos(lh));
      writes := if lh != [] then CommitTrace(l, d, view, lh) else [];
      CommitTraceAtomic(l, d, view, lh);
      CommitPointFinal(l, d, view, lh);
      committing := true;
      Commit(d, view);
      committing := false;
      ContentsOffLog({});
    }

    /** Process p leaves the transaction; the last one out commits it. Whatever point of the commit a
        crash hits, recovery shows all of the transaction or nothing, and it shows all of it once
        the header is written, that is, from write number |lh| + 1 on. */
    method EndOp(ghost p: Proc, ghost cap: nat, ghost d: Disk, ghost view: Disk) returns (ghost writes: seq<Disk>)
      requires p in ops && |ops| == outstanding && !committing && bc.Valid() && d == bc.disk && view == Contents()
      requires outstanding == 1 ==>
                 && Ready(Blocknos(lh)) && WellFormed(l, d) && Entries(d[l.logstart]) == []
                 && forall i, j :: 0 <= i < j < |lh| ==> lh[i] != lh[j]
      modifies this, bc
      ensures ops == old(ops) - {p} && |ops| == outstanding && !committing && bc.Valid()
      ensures old(Reserved(cap)) ==> Reserved(cap)
      ensures bc.history == old(bc.history) + writes && AllHold(l, writes, d, view, |old(lh)|)
      ensures outstanding > 0 ==> lh == old(lh) && bc.disk == d && Contents() == view
      ensures outstanding == 0 ==> lh == [] && Ready({}) && SameHome(l, bc.disk, view) && SameHome(l, Contents(), view)
    {
      ghost var left := ops - {p};
      assert left.Keys == ops.Keys - {p};
      assert |left| == 0 <==> left == map[];
      if Reserved(cap) {
        Reservation.WithinEnd(l.nlog, cap, lh, ops, p);
      }
      outstanding := outstanding - 1;
      ops := left;
      writes := [];
      if outstanding == 0 {
        writes := CommitAll(d, view);
      }
    }
  }
}
