/** The disk after each single-block write of commit, as a function of the disk before, of
    what the cache holds, and of the list of logged blocks. */
module CommitPoints {
  import opened Blocks
  import opened LogLayout

  /** The disk after the first k block copies of write_log; view is what bread finds. */
  function LogFilled(l: Layout, d: Disk, view: Disk, lh: seq<nat>, k: nat): (r: Disk)
    requires l.Valid() && |d| == |view| == l.size && l.Fits(lh) && k <= |lh|
    ensures |r| == |d|
    decreases k
  {
    if k == 0 then d else LogFilled(l, d, view, lh, k - 1)[l.Slot(k - 1) := view[lh[k - 1]]]
  }

  /** The disks that write_log passes through. */
  function LogPoints(l: Layout, d: Disk, view: Disk, lh: seq<nat>, k: nat): (r: seq<Disk>)
    requires l.Valid() && |d| == |view| == l.size && l.Fits(lh) && k <= |lh|
    ensures |r| == k && forall i :: 0 <= i < k ==> r[i] == LogFilled(l, d, view, lh, i + 1)
    decreases k
  {
    if k == 0 then [] else LogPoints(l, d, view, lh, k - 1) + [LogFilled(l, d, view, lh, k)]
  }

  /** The disks that install_trans passes through. */
  function InstallPoints(l: Layout, d: Disk, lh: seq<nat>, k: nat): (r: seq<Disk>)
    requires l.Valid() && |d| == l.size && l.Fits(lh) && k <= |lh|
    ensures |r| == k && forall i :: 0 <= i < k ==> r[i] == Installed(l, d, lh, i + 1)
    decreases k
  {
    if k == 0 then [] else InstallPoints(l, d, lh, k - 1) + [Installed(l, d, lh, k)]
  }

  /** write_head. */
  function HeadWritten(l: Layout, d: Disk, lh: seq<nat>): (r: Disk)
    requires l.Valid() && |d| == l.size && l.Fits(lh)
    ensures |r| == |d|
  {
    d[l.logstart := HeaderBlock(d[l.logstart], lh)]
  }

  /** The disk after k of the 2 |lh| + 2 block writes of commit. */
  function CommitPoint(l: Layout, d: Disk, view: Disk, lh: seq<nat>, k: nat): (r: Disk)
    requires l.Valid() && |d| == |view| == l.size && l.Fits(lh) && k <= 2 * |lh| + 2
    ensures |r| == |d|
  {
    var n := |lh|;
    if k <= n then LogFilled(l, d, view, lh, k)
    else
      var committed := HeadWritten(l, LogFilled(l, d, view, lh, n), lh);
      if k <= 2 * n + 1 then Installed(l, committed, lh, k - n - 1)
      else HeadWritten(l, Installed(l, committed, lh, n), [])
  }

  /** Write number k of a commit, from 0 on, changes one block of the disk: first the blocks after the
      header in turn, then the header, then the homes in turn, then the header again. */
  lemma OneBlockAWrite(l: Layout, d: Disk, view: Disk, lh: seq<nat>, k: nat)
    requires l.Valid() && |d| == |view| == l.size && l.Fits(lh) && k < 2 * |lh| + 2
    ensures var was, now := CommitPoint(l, d, view, lh, k), CommitPoint(l, d, view, lh, k + 1);
            var n := |lh|;
            var b := if k < n then l.logstart + 1 + k else if n < k <= 2 * n then lh[k - n - 1] else l.logstart;
            && b < l.size && now == was[b := now[b]]
            && (k < n ==> now[b] == view[lh[k]])
            && (n < k <= 2 * n ==> now[b] == was[l.logstart + k - n])
            && (k == n ==> now[b] == HeaderBlock(was[b], lh)) && (k == 2 * n + 1 ==> now[b] == HeaderBlock(was[b], []))
  {
  }

  /** The disks that commit passes through: CommitPoint after 1, 2, ... writes. */
  function CommitTrace(l: Layout, d: Disk, view: Disk, lh: seq<nat>): (r: seq<Disk>)
    requires l.Valid() && |d| == |view| == l.size && l.Fits(lh)
    ensures |r| == 2 * |lh| + 2
  {
    var committed := HeadWritten(l, LogFilled(l, d, view, lh, |lh|), lh);
    LogPoints(l, d, view, lh, |lh|) + [committed] + InstallPoints(l, committed, lh, |lh|)
    + [HeadWritten(l, Installed(l, committed, lh, |lh|), [])]
  }

  lemma {:induction false} CommitTraceAt(l: Layout, d: Disk, view: Disk, lh: seq<nat>, k: nat)
    requires l.Valid() && |d| == |view| == l.size && l.Fits(lh) && k < 2 * |lh| + 2
    ensures CommitTrace(l, d, view, lh)[k] == CommitPoint(l, d, view, lh, k + 1)
  {
    var n := |lh|;
    var committed := HeadWritten(l, LogFilled(l, d, view, lh, n), lh);
    var a, c := LogPoints(l, d, view, lh, n), InstallPoints(l, committed, lh, n);
    var last := HeadWritten(l, Installed(l, committed, lh, n), []);
    FourParts(a, committed, c, last, k);
    if k == n {
      assert Installed(l, committed, lh, 0) == committed;
    }
  }

  lemma FourParts<T>(a: seq<T>, b: T, c: seq<T>, d: T, k: nat)
    requires k < |a| + |c| + 2
    ensures (a + [b] + c + [d])[k] ==
      if k < |a| then a[k] else if k == |a| then b else if k < |a| + 1 + |c| then c[k - |a| - 1] else d
  {
  }

  lemma {:induction false} LogFilledAt(l: Layout, d: Disk, view: Disk, lh: seq<nat>, k: nat)
    requires l.Valid() && |d| == |view| == l.size && l.Fits(lh) && k <= |lh|
    ensures forall i :: 0 <= i < k ==> LogFilled(l, d, view, lh, k)[l.Slot(i)] == view[lh[i]]
    ensures forall b :: 0 <= b < l.size && !(l.logstart < b <= l.logstart + k) ==> LogFilled(l, d, view, lh, k)[b] == d[b]
  {
    if k > 0 {
      LogFilledAt(l, d, view, lh, k - 1);
    }
  }

  /** Crash atomicity of one commit. Up to and including the last log block the disk still
      recovers to the old contents; from the header write on it recovers to the new ones. */
  lemma CommitPointAtomic(l: Layout, d: Disk, view: Disk, lh: seq<nat>, k: nat)
    requires WellFormed(l, d) && Entries(d[l.logstart]) == [] && |view| == l.size
    requires l.Fits(lh) && k <= 2 * |lh| + 2
    requires forall b: nat :: l.Home(b) && b !in lh ==> view[b] == d[b]
    ensures Holds(l, CommitPoint(l, d, view, lh, k), if k <= |lh| then d else view)
  {
    var n := |lh|;
    LogFilledAt(l, d, view, lh, if k <= n then k else n);
    if k > n {
      var filled := LogFilled(l, d, view, lh, n);
      var committed := HeadWritten(l, filled, lh);
      HeaderRoundTrip(filled[l.logstart], lh);
      assert Holds(l, committed, view);
      if k <= 2 * n + 1 {
        InstalledHolds(l, committed, view, k - n - 1);
      } else {
        HoldsRecovers(l, committed, view);
        HeaderRoundTrip(Recover(l, committed)[l.logstart], []);
      }
    }
  }

  lemma InstalledHolds(l: Layout, d: Disk, content: Disk, k: nat)
    requires Holds(l, d, content) && k <= |Entries(d[l.logstart])|
    ensures Holds(l, Installed(l, d, Entries(d[l.logstart]), k), content)
  {
    var lh := Entries(d[l.logstart]);
    InstalledAt(l, d, lh, k);
    assert forall b :: b in lh[..k] ==> b in lh;
  }

  /** What the caller of commit relies on: after the last write every logged block is home. */
  lemma CommitPointFinal(l: Layout, d: Disk, view: Disk, lh: seq<nat>)
    requires WellFormed(l, d) && Entries(d[l.logstart]) == [] && |view| == l.size && l.Fits(lh)
    requires forall b: nat :: l.Home(b) && b !in lh ==> view[b] == d[b]
    ensures var e := CommitPoint(l, d, view, lh, 2 * |lh| + 2);
            SameHome(l, e, view) && WellFormed(l, e) && Entries(e[l.logstart]) == []
  {
    var filled := LogFilled(l, d, view, lh, |lh|);
    LogFilledAt(l, d, view, lh, |lh|);
    HeaderRoundTrip(filled[l.logstart], lh);
    var committed := HeadWritten(l, filled, lh);
    HoldsRecovers(l, committed, view);
  }

  lemma AppendTrace(h: seq<Disk>, l: Layout, d: Disk, view: Disk, lh: seq<nat>)
    requires l.Valid() && |d| == |view| == l.size && l.Fits(lh)
    ensures var committed := HeadWritten(l, LogFilled(l, d, view, lh, |lh|), lh);
            h + LogPoints(l, d, view, lh, |lh|) + [committed] + InstallPoints(l, committed, lh, |lh|)
            + [HeadWritten(l, Installed(l, committed, lh, |lh|), [])]
            == h + CommitTrace(l, d, view, lh)
  {
    var committed := HeadWritten(l, LogFilled(l, d, view, lh, |lh|), lh);
    var last := [HeadWritten(l, Installed(l, committed, lh, |lh|), [])];
    Regroup(h, LogPoints(l, d, view, lh, |lh|), [committed], InstallPoints(l, committed, lh, |lh|), last);
  }

  lemma Regroup<T>(h: seq<T>, a: seq<T>, b: seq<T>, c: seq<T>, d: seq<T>)
    ensures h + a + b + c + d == h + (a + b + c + d)
  {
  }

  lemma {:induction false} CommitTraceHolds(l: Layout, d: Disk, view: Disk, lh: seq<nat>, k: nat)
    requires WellFormed(l, d) && Entries(d[l.logstart]) == [] && |view| == l.size && l.Fits(lh)
    requires forall b: nat :: l.Home(b) && b !in lh ==> view[b] == d[b]
    requires k < 2 * |lh| + 2
    ensures Holds(l, CommitTrace(l, d, view, lh)[k], if k < |lh| then d else view)
  {
    CommitTraceAt(l, d, view, lh, k);
    CommitPointAtomic(l, d, view, lh, k + 1);
  }

  lemma {:induction false} CommitTraceAtomic(l: Layout, d: Disk, view: Disk, lh: seq<nat>)
    requires WellFormed(l, d) && Entries(d[l.logstart]) == [] && |view| == l.size && l.Fits(lh)
    requires forall b: nat :: l.Home(b) && b !in lh ==> view[b] == d[b]
    ensures AllHold(l, CommitTrace(l, d, view, lh), d, view, |lh|)
  {
    forall k | 0 <= k < 2 * |lh| + 2
      ensures Holds(l, CommitTrace(l, d, view, lh)[k], if k < |lh| then d else view)
    {
      CommitTraceHolds(l, d, view, lh, k);
    }
  }

  /** A crash after one of the first n writes finds the old contents; after a later one, the new. */
  ghost predicate AllHold(l: Layout, ds: seq<Disk>, before: Disk, after: Disk, n: nat) {
    forall k :: 0 <= k < |ds| ==> Holds(l, ds[k], if k < n then before else after)
  }
}
