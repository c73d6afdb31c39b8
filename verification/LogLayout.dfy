/** The on-disk redo log: header format, installation and recovery as functions
    from disk to disk, one single-block write at a time. */
module LogLayout {
  import opened Blocks
  import opened Words

  const MAXOPBLOCKS: nat := 10
  const LOGSIZE: nat := 3 * MAXOPBLOCKS

  /** Superblock fields the log uses. Blocks logstart .. logstart + nlog - 1 hold
      the header followed by nlog - 1 data slots. */
  datatype Layout = Layout(size: nat, logstart: nat, nlog: nat) {
    predicate Valid() {
      1 <= nlog && logstart + nlog <= size < 0x1_0000_0000
    }

    predicate Home(b: nat) {
      b < size && !(logstart <= b < logstart + nlog)
    }

    /** Block number of the slot that holds the tail-th logged block. */
    function Slot(tail: nat): nat { logstart + tail + 1 }

    /** What log.c needs of the list of logged blocks: it fits, and no entry lies in the log. */
    predicate Fits(lh: seq<nat>) {
      |lh| <= LOGSIZE && |lh| < nlog && forall i :: 0 <= i < |lh| ==> Home(lh[i])
    }
  }

  function Entries(h: Block): (lh: seq<nat>)
    requires WordAt(h, 0) <= LOGSIZE
  {
    seq(WordAt(h, 0), i requires 0 <= i < LOGSIZE => WordAt(h, i + 1))
  }

  /** write_head overwrites the count and the first |lh| entries and keeps the rest. */
  function HeaderBlock(prior: Block, lh: seq<Word>): (h: Block)
    requires |lh| <= LOGSIZE
  {
    PutWords(PutWord(prior, 0, |lh|), 1, lh)
  }

  /** The header survives the trip to disk, whatever the block held before. */
  lemma HeaderRoundTrip(prior: Block, lh: seq<Word>)
    requires |lh| <= LOGSIZE
    ensures WordAt(HeaderBlock(prior, lh), 0) == |lh|
    ensures forall i :: 0 <= i < |lh| ==> WordAt(HeaderBlock(prior, lh), i + 1) == lh[i]
    ensures Entries(HeaderBlock(prior, lh)) == lh
  {
    var b := PutWord(prior, 0, |lh|);
    PutWordAt(prior, 0, |lh|, 0);
    PutWordsAt(b, 1, lh, 0);
    forall i | 0 <= i < |lh| ensures WordAt(HeaderBlock(prior, lh), i + 1) == lh[i] {
      PutWordsAt(b, 1, lh, i + 1);
    }
  }

  predicate WellFormed(l: Layout, d: Disk) {
    && l.Valid()
    && |d| == l.size
    && WordAt(d[l.logstart], 0) <= LOGSIZE
    && l.Fits(Entries(d[l.logstart]))
  }

  /** The disk after the first k block copies of install_trans. */
  function Installed(l: Layout, d: Disk, lh: seq<nat>, k: nat): (r: Disk)
    requires l.Valid() && |d| == l.size && l.Fits(lh) && k <= |lh|
    ensures |r| == |d|
    decreases k
  {
    if k == 0 then d
    else var e := Installed(l, d, lh, k - 1); e[lh[k - 1] := e[l.Slot(k - 1)]]
  }

  /** recover_from_log run to completion. */
  function Recover(l: Layout, d: Disk): (r: Disk)
    requires WellFormed(l, d)
    ensures |r| == |d|
  {
    var lh := Entries(d[l.logstart]);
    var e := Installed(l, d, lh, |lh|);
    e[l.logstart := HeaderBlock(e[l.logstart], [])]
  }

  /** The disk when recovery is cut off after k of its block writes. */
  function RecoverPrefix(l: Layout, d: Disk, k: nat): (r: Disk)
    requires WellFormed(l, d)
    ensures |r| == |d|
  {
    var lh := Entries(d[l.logstart]);
    if k <= |lh| then Installed(l, d, lh, k) else Recover(l, d)
  }

  /** d, once recovered, will show exactly the blocks of `content` outside the log. */
  ghost predicate Holds(l: Layout, d: Disk, content: Disk) {
    && WellFormed(l, d)
    && |content| == l.size
    && var lh := Entries(d[l.logstart]);
    && (forall i :: 0 <= i < |lh| ==> d[l.Slot(i)] == content[lh[i]])
    && (forall b: nat :: l.Home(b) && b !in lh ==> d[b] == content[b])
  }

  ghost predicate SameHome(l: Layout, d: Disk, e: Disk) {
    |d| == |e| == l.size && forall b: nat :: l.Home(b) ==> d[b] == e[b]
  }

  /** install_trans leaves the log itself and every block it does not name alone,
      and copies by the first k slots only. */
  lemma {:induction false} InstalledAt(l: Layout, d: Disk, lh: seq<nat>, k: nat)
    requires l.Valid() && |d| == l.size && l.Fits(lh) && k <= |lh|
    ensures forall b :: 0 <= b < l.size && b !in lh[..k] ==> Installed(l, d, lh, k)[b] == d[b]
    ensures forall b :: l.logstart <= b < l.logstart + l.nlog ==> Installed(l, d, lh, k)[b] == d[b]
    ensures forall b :: b in lh[..k] ==>
              exists i :: 0 <= i < k && lh[i] == b && Installed(l, d, lh, k)[b] == d[l.Slot(i)]
  {
    if k > 0 {
      InstalledAt(l, d, lh, k - 1);
      var e := Installed(l, d, lh, k - 1);
      var r := Installed(l, d, lh, k);
      assert r == e[lh[k - 1] := d[l.Slot(k - 1)]];
      assert lh[..k] == lh[..k - 1] + [lh[k - 1]];
      forall b | b in lh[..k]
        ensures exists i :: 0 <= i < k && lh[i] == b && r[b] == d[l.Slot(i)]
      {
        if b == lh[k - 1] {
          assert lh[k - 1] == b && r[b] == d[l.Slot(k - 1)];
        }
      }
    }
  }

  /** A disk that holds some contents recovers to them, and recovery empties the log. */
  lemma HoldsRecovers(l: Layout, d: Disk, content: Disk)
    requires Holds(l, d, content)
    ensures SameHome(l, Recover(l, d), content)
    ensures WellFormed(l, Recover(l, d)) && Entries(Recover(l, d)[l.logstart]) == []
  {
    var lh := Entries(d[l.logstart]);
    InstalledAt(l, d, lh, |lh|);
    assert lh[..|lh|] == lh;
    HeaderRoundTrip(d[l.logstart], []);
  }

  /** Every well-formed disk holds exactly one set of home contents: what recovery shows. */
  lemma RecoverHolds(l: Layout, d: Disk, content: Disk)
    requires WellFormed(l, d) && SameHome(l, Recover(l, d), content)
    requires forall i, j :: 0 <= i < j < |Entries(d[l.logstart])| ==>
               Entries(d[l.logstart])[i] != Entries(d[l.logstart])[j]
    ensures Holds(l, d, content)
  {
    var lh := Entries(d[l.logstart]);
    InstalledAt(l, d, lh, |lh|);
    assert lh[..|lh|] == lh;
    forall i | 0 <= i < |lh| ensures d[l.Slot(i)] == content[lh[i]] {
      assert lh[i] in lh;
    }
  }

  /** Contents of block b after k copies: those of the last slot logged for it. */
  function LastCopy(l: Layout, d: Disk, lh: seq<nat>, k: nat, b: nat): (r: Block)
    requires l.Valid() && |d| == l.size && l.Fits(lh) && k <= |lh| && b < l.size
    decreases k
  {
    if k == 0 then d[b] else if lh[k - 1] == b then d[l.Slot(k - 1)] else LastCopy(l, d, lh, k - 1, b)
  }

  lemma {:induction false} InstalledIsLastCopy(l: Layout, d: Disk, lh: seq<nat>, k: nat, b: nat)
    requires l.Valid() && |d| == l.size && l.Fits(lh) && k <= |lh| && b < l.size
    ensures Installed(l, d, lh, k)[b] == LastCopy(l, d, lh, k, b)
    decreases k
  {
    if k > 0 {
      InstalledIsLastCopy(l, d, lh, k - 1, b);
      InstalledAt(l, d, lh, k - 1);
    }
  }

  /** The last copy does not depend on what the block held before, if it is copied at all. */
  lemma {:induction false} LastCopySame(l: Layout, d: Disk, e: Disk, lh: seq<nat>, k: nat, b: nat)
    requires l.Valid() && |d| == |e| == l.size && l.Fits(lh) && k <= |lh| && b < l.size
    requires forall i :: l.logstart <= i < l.logstart + l.nlog ==> d[i] == e[i]
    requires d[b] == e[b] || b in lh[..k]
    ensures LastCopy(l, d, lh, k, b) == LastCopy(l, e, lh, k, b)
    decreases k
  {
    if k > 0 && lh[k - 1] != b {
      assert lh[..k] == lh[..k - 1] + [lh[k - 1]];
      LastCopySame(l, d, e, lh, k - 1, b);
    }
  }

  /** Cutting recovery off anywhere and starting over changes nothing at all in the
      end: not a home block, not a log block, not the header. */
  lemma RecoverAfterPrefix(l: Layout, d: Disk, k: nat)
    requires WellFormed(l, d)
    ensures WellFormed(l, RecoverPrefix(l, d, k))
    ensures Recover(l, RecoverPrefix(l, d, k)) == Recover(l, d)
  {
    var lh := Entries(d[l.logstart]);
    var e := RecoverPrefix(l, d, k);
    if k <= |lh| {
      InstalledAt(l, d, lh, k);
      forall b | 0 <= b < l.size ensures Installed(l, e, lh, |lh|)[b] == Installed(l, d, lh, |lh|)[b] {
        InstalledIsLastCopy(l, d, lh, |lh|, b);
        InstalledIsLastCopy(l, e, lh, |lh|, b);
        assert b in lh[..k] ==> b in lh[..|lh|];
        LastCopySame(l, d, e, lh, |lh|, b);
      }
      assert Installed(l, e, lh, |lh|) == Installed(l, d, lh, |lh|);
    } else {
      InstalledAt(l, d, lh, |lh|);
      HeaderRoundTrip(d[l.logstart], []);
      ClearTwice(d[l.logstart]);
      assert Installed(l, e, [], 0) == e;
    }
  }

  lemma ClearTwice(h: Block)
    ensures HeaderBlock(HeaderBlock(h, []), []) == HeaderBlock(h, [])
  {
    assert PutWord(PutWord(h, 0, 0), 0, 0) == PutWord(h, 0, 0);
  }

  /** The disk after recovery has been cut off after ks[0], ks[1], ... writes in turn. */
  function CrashingRecoveries(l: Layout, d: Disk, ks: seq<nat>): (r: Disk)
    requires WellFormed(l, d)
    ensures WellFormed(l, r)
    decreases |ks|
  {
    if ks == [] then d
    else
      RecoverAfterPrefix(l, d, ks[0]);
      CrashingRecoveries(l, RecoverPrefix(l, d, ks[0]), ks[1..])
  }

  /** Any number of crashes during recovery, each after any number of writes, followed by
      one complete run leave the very disk that a single uninterrupted run leaves. */
  lemma {:induction false} RecoveryIdempotent(l: Layout, d: Disk, ks: seq<nat>)
    requires WellFormed(l, d)
    ensures Recover(l, CrashingRecoveries(l, d, ks)) == Recover(l, d)
    decreases |ks|
  {
    if ks != [] {
      RecoverAfterPrefix(l, d, ks[0]);
      RecoveryIdempotent(l, RecoverPrefix(l, d, ks[0]), ks[1..]);
    }
  }
}
