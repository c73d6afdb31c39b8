/** The state machine of the log and log.c as one process executes it write the same blocks in the
    same order: whatever the other processes do meanwhile, a commit takes the disk through its
    commit points, and recovery through its prefixes. */
module LogRefinement {
  import opened Blocks
  import opened LogLayout
  import opened CommitPoints
  import opened LogProtocol
  import opened LogSafety

  predicate InCommit(ph: Phase) { ph.Logging? || ph.Installing? || ph.Erased? }

  /** How many of the 2 n + 2 block writes of a commit of n blocks have been made. */
  function Writes(ph: Phase, n: nat): (k: nat)
    requires InCommit(ph)
  {
    match ph
    case Logging(t) => t
    case Installing(t) => n + 1 + t
    case _ => 2 * n + 2
  }

  /** s is on the way through the commit of the blocks lh, begun with disk d after the history tr. */
  ghost predicate Committing(c: Config, d: Disk, lh: seq<nat>, tr: seq<Event>, s: State) {
    && InCommit(s.phase) && s.ops == map[] && s.trace == tr
    && c.l.Valid() && |d| == |c.base| == c.l.size && c.l.Fits(lh)
    && (s.phase.Erased? || (s.lh == lh && s.phase.tail <= |lh|))
    && s.disk == CommitPoint(c.l, d, Effect(c.base, tr), lh, Writes(s.phase, |lh|))
  }

  /** Blocks of the log itself are never pinned, so that what bread finds there is on the disk. */
  lemma LogIsClean(c: Config, s: State, b: nat)
    requires Inv(c, s) && InCommit(s.phase) && b < c.l.size && !c.l.Home(b)
    ensures View(s, b) == s.disk[b]
  {
    assert b !in s.lh;
  }

  /** The blocks still to be copied are in the cache as the operations left them. */
  lemma LoggedIsLatest(c: Config, s: State)
    requires Inv(c, s) && s.phase.Logging? && s.phase.tail < |s.lh|
    ensures s.lh[s.phase.tail] < |c.base| == |s.disk|
    ensures View(s, s.lh[s.phase.tail]) == Effect(c.base, s.trace)[s.lh[s.phase.tail]]
  {
  }

  lemma CopyIsPoint(c: Config, d: Disk, lh: seq<nat>, tr: seq<Event>, s: State)
    requires Committing(c, d, lh, tr, s) && Enabled(c, s, CopyToLog)
    requires View(s, lh[s.phase.tail]) == Effect(c.base, tr)[lh[s.phase.tail]]
    ensures Committing(c, d, lh, tr, Next(c, s, CopyToLog))
  {
  }

  lemma HeadIsPoint(c: Config, d: Disk, lh: seq<nat>, tr: seq<Event>, s: State)
    requires Committing(c, d, lh, tr, s) && Enabled(c, s, WriteHead)
    requires View(s, c.l.logstart) == s.disk[c.l.logstart]
    ensures Committing(c, d, lh, tr, Next(c, s, WriteHead))
  {
  }

  lemma EraseIsPoint(c: Config, d: Disk, lh: seq<nat>, tr: seq<Event>, s: State)
    requires Committing(c, d, lh, tr, s) && Enabled(c, s, EraseHead)
    requires View(s, c.l.logstart) == s.disk[c.l.logstart]
    ensures Committing(c, d, lh, tr, Next(c, s, EraseHead))
  {
    PointErases(c.l, d, Effect(c.base, tr), lh, s.disk, Writes(s.phase, |lh|), Writes(Erased, |lh|));
    EraseWrites(c, s);
  }

  lemma EraseWrites(c: Config, s: State)
    requires Enabled(c, s, EraseHead) && View(s, c.l.logstart) == s.disk[c.l.logstart]
    ensures var r := Next(c, s, EraseHead);
            r.phase == Erased && r.ops == s.ops && r.trace == s.trace && r.disk == HeadWritten(c.l, s.disk, [])
  {
  }

  lemma PointErases(l: Layout, d: Disk, view: Disk, lh: seq<nat>, e: Disk, k: nat, last: nat)
    requires l.Valid() && |d| == |view| == l.size && l.Fits(lh) && k == 2 * |lh| + 1 && last == 2 * |lh| + 2
    requires e == CommitPoint(l, d, view, lh, k)
    ensures CommitPoint(l, d, view, lh, last) == HeadWritten(l, e, [])
  {
  }

  lemma InstallIsPoint(c: Config, d: Disk, lh: seq<nat>, tr: seq<Event>, s: State)
    requires Committing(c, d, lh, tr, s) && Enabled(c, s, InstallBlock)
    requires View(s, c.l.Slot(s.phase.tail)) == s.disk[c.l.Slot(s.phase.tail)]
    ensures Committing(c, d, lh, tr, Next(c, s, InstallBlock))
  {
    PointInstalls(c.l, d, Effect(c.base, tr), lh, s.phase.tail);
  }

  lemma PointInstalls(l: Layout, d: Disk, view: Disk, lh: seq<nat>, t: nat)
    requires l.Valid() && |d| == |view| == l.size && l.Fits(lh) && t < |lh|
    ensures var e := CommitPoint(l, d, view, lh, |lh| + 1 + t);
            CommitPoint(l, d, view, lh, |lh| + 2 + t) == e[lh[t] := e[l.Slot(t)]]
  {
  }

  /** No operation is open and none can begin, so the other steps leave disk and log alone. */
  lemma OthersStay(c: Config, s: State, step: Step)
    requires Enabled(c, s, step) && InCommit(s.phase) && s.ops == map[] && s.committing
    requires !step.CopyToLog? && !step.WriteHead? && !step.InstallBlock? && !step.EraseHead?
    requires InCommit(Next(c, s, step).phase)
    ensures var r := Next(c, s, step);
            r.disk == s.disk && r.lh == s.lh && r.ops == s.ops && r.phase == s.phase && r.trace == s.trace
  {
  }

  lemma StepIsPoint(c: Config, d: Disk, lh: seq<nat>, tr: seq<Event>, s: State, step: Step)
    requires Inv(c, s) && Committing(c, d, lh, tr, s) && Enabled(c, s, step) && InCommit(Next(c, s, step).phase)
    ensures Committing(c, d, lh, tr, Next(c, s, step))
  {
    if step.CopyToLog? {
      LoggedIsLatest(c, s);
      CopyIsPoint(c, d, lh, tr, s);
    } else if step.WriteHead? {
      LogIsClean(c, s, c.l.logstart);
      HeadIsPoint(c, d, lh, tr, s);
    } else if step.InstallBlock? {
      LogIsClean(c, s, c.l.Slot(s.phase.tail));
      InstallIsPoint(c, d, lh, tr, s);
    } else if step.EraseHead? {
      LogIsClean(c, s, c.l.logstart);
      EraseIsPoint(c, d, lh, tr, s);
    } else {
      OthersStay(c, s, step);
    }
  }

  lemma CommitStarts(c: Config, s: State)
    requires Inv(c, s) && s.phase == Logging(0) && s.ops == map[]
    ensures Committing(c, s.disk, s.lh, s.trace, s)
  {
  }

  /** From the start of a commit in state q to its end, or to a crash, every state of every run has one
      of the disks that log.c's commit passes through, and its phase says which. */
  lemma {:induction false} CommitIsTrace(c: Config, ss: seq<State>, q: nat, s: nat)
    requires Sized(c) && Run(c, ss) && q <= s < |ss| && ss[q].phase == Logging(0) && ss[q].ops == map[]
    requires forall i: nat :: q < i <= s ==> InCommit(ss[i].phase)
    ensures Committing(c, ss[q].disk, ss[q].lh, ss[q].trace, ss[s])
    decreases s
  {
    if q == s {
      RunKeepsInv(c, ss, q);
      CommitStarts(c, ss[q]);
    } else {
      CommitIsTrace(c, ss, q, s - 1);
      var step := StepAt(c, ss, s - 1);
      StepIsPoint(c, ss[q].disk, ss[q].lh, ss[q].trace, ss[s - 1], step);
    }
  }

  lemma StepAt(c: Config, ss: seq<State>, i: nat) returns (step: Step)
    requires Sized(c) && Run(c, ss) && i + 1 < |ss|
    ensures Inv(c, ss[i]) && Takes(c, ss[i], step, ss[i + 1])
  {
    RunKeepsInv(c, ss, i);
    assert FollowsAt(c, ss, i);
    step :| Takes(c, ss[i], step, ss[i + 1]);
  }

  // ---- recovery ----

  /** s is on the way through the recovery of disk d. */
  ghost predicate Recovering(c: Config, d: Disk, s: State) {
    && WellFormed(c.l, d) && s.phase.Replaying? && s.lh == Entries(d[c.l.logstart]) && s.phase.tail <= |s.lh|
    && s.disk == RecoverPrefix(c.l, d, s.phase.tail)
  }

  /** Nothing is pinned before the system is up. */
  lemma ReplayReads(c: Config, s: State, b: nat)
    requires Inv(c, s) && s.phase.Replaying? && b < c.l.size
    ensures View(s, b) == s.disk[b]
  {
  }

  lemma ReplayIsPrefix(c: Config, d: Disk, s: State)
    requires Recovering(c, d, s) && Enabled(c, s, ReplayBlock)
    requires View(s, c.l.Slot(s.phase.tail)) == s.disk[c.l.Slot(s.phase.tail)]
    ensures Recovering(c, d, Next(c, s, ReplayBlock))
  {
  }

  lemma OthersWait(c: Config, s: State, step: Step)
    requires Enabled(c, s, step) && s.phase.Replaying? && Next(c, s, step).phase.Replaying? && !step.ReplayBlock?
    ensures var r := Next(c, s, step); r.disk == s.disk && r.lh == s.lh && r.phase == s.phase
  {
  }

  lemma StepIsPrefix(c: Config, d: Disk, s: State, step: Step)
    requires Inv(c, s) && Recovering(c, d, s) && Enabled(c, s, step) && Next(c, s, step).phase.Replaying?
    ensures Recovering(c, d, Next(c, s, step))
  {
    if step.ReplayBlock? {
      ReplayReads(c, s, c.l.Slot(s.phase.tail));
      ReplayIsPrefix(c, d, s);
    } else {
      OthersWait(c, s, step);
    }
  }

  lemma RecoveryStarts(c: Config, s: State, step: Step)
    requires Inv(c, s) && s.phase == Boot && Enabled(c, s, step) && Next(c, s, step).phase.Replaying?
    ensures Recovering(c, s.disk, Next(c, s, step))
  {
  }

  /** The last write of recovery leaves what Recover says. */
  lemma RecoveryEnds(c: Config, d: Disk, s: State, step: Step)
    requires Inv(c, s) && Recovering(c, d, s) && Enabled(c, s, step) && Next(c, s, step).phase.Running?
    ensures Next(c, s, step).disk == Recover(c.l, d) && Next(c, s, step).lh == []
  {
    ReplayReads(c, s, c.l.logstart);
  }

  /** Where recovery of disk d has got to in r, or where it has ended. */
  ghost predicate Recovered(c: Config, d: Disk, r: State) {
    && (r.phase.Replaying? ==> Recovering(c, d, r))
    && (r.phase.Running? ==> WellFormed(c.l, d) && r.disk == Recover(c.l, d) && r.lh == [])
  }

  lemma FirstOfRecovery(c: Config, s: State, step: Step, r: State)
    requires Inv(c, s) && s.phase == Boot && Takes(c, s, step, r)
    ensures Recovered(c, s.disk, r)
  {
    if r.phase.Replaying? {
      RecoveryStarts(c, s, step);
    }
  }

  lemma NextOfRecovery(c: Config, d: Disk, s: State, step: Step, r: State)
    requires Inv(c, s) && Takes(c, s, step, r) && Underway(c, d, s)
    ensures Recovered(c, d, r)
  {
    if s.phase.Boot? {
      FirstOfRecovery(c, s, step, r);
    } else if r.phase.Replaying? {
      StepIsPrefix(c, d, s, step);
    } else if r.phase.Running? {
      RecoveryEnds(c, d, s, step);
    }
  }

  ghost predicate Underway(c: Config, d: Disk, s: State) {
    (s.phase == Boot && s.disk == d) || Recovering(c, d, s)
  }

  lemma UnderwayNext(c: Config, d: Disk, s: State, step: Step, r: State)
    requires Inv(c, s) && Takes(c, s, step, r) && Underway(c, d, s) && r.phase.Replaying?
    ensures Underway(c, d, r)
  {
    NextOfRecovery(c, d, s, step, r);
  }

  lemma UnderwayStep(c: Config, d: Disk, ss: seq<State>, i: nat, s: State, r: State)
    requires Sized(c) && Run(c, ss) && i + 1 < |ss| && s == ss[i] && r == ss[i + 1]
    requires Underway(c, d, s) && r.phase.Replaying?
    ensures Underway(c, d, r)
  {
    var step := StepAt(c, ss, i);
    UnderwayNext(c, d, s, step, r);
  }

  lemma {:induction false} UnderwayAt(c: Config, ss: seq<State>, q: nat, s: nat)
    requires Sized(c) && Run(c, ss) && q <= s < |ss| && ss[q].phase == Boot
    requires forall i: nat :: q < i <= s ==> ss[i].phase.Replaying?
    ensures Underway(c, ss[q].disk, ss[s])
    decreases s
  {
    if q < s {
      UnderwayAt(c, ss, q, s - 1);
      UnderwayStep(c, ss[q].disk, ss, s - 1, ss[s - 1], ss[s]);
    }
  }

  /** From power-on in state q until the system is up, or crashes again, every state of every run has the
      disk that log.c's recovery has after as many block writes; and it comes up with what recovery
      of the first disk leaves. */
  lemma RecoveryIsPrefix(c: Config, ss: seq<State>, q: nat, s: nat)
    requires Sized(c) && Run(c, ss) && q <= s && s + 1 < |ss| && ss[q].phase == Boot
    requires forall i: nat :: q < i <= s ==> ss[i].phase.Replaying?
    ensures Recovered(c, ss[q].disk, ss[s + 1])
  {
    UnderwayAt(c, ss, q, s);
    var step := StepAt(c, ss, s);
    NextOfRecovery(c, ss[q].disk, ss[s], step, ss[s + 1]);
  }
}
