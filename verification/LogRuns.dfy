/** Runs of the logging protocol seen from its callers: what a process stored in a buffer is what
    its log_write enters in the history and what recovery brings back, and a commit or a
    recovery under way can always be finished. */
module LogRuns {
  import opened Blocks
  import opened LogLayout
  import opened LogProtocol
  import opened LogReservation
  import opened LogSafety

  // ------------------------------------------------------------ from store to recovery

  /** A step other than a crash, and neither a change nor a log_write of b by p. */
  ghost predicate Elsewhere(c: Config, s: State, r: State, p: Proc, b: nat) {
    exists step :: Takes(c, s, step, r) && !step.Crash? && !ChangesBlock(step, p, b)
  }

  predicate ChangesBlock(step: Step, p: Proc, b: nat) {
    (step.Modify? || step.LogWrite?) && step.p == p && step.b == b
  }

  /** p holds b's buffer with this data, not yet logged. */
  ghost predicate Stored(s: State, p: Proc, b: nat, data: Block) {
    b in s.touched && b in s.holder && s.holder[b] == p && b in s.cache && s.cache[b].data == data
  }

  lemma ElsewhereKeeps(c: Config, s: State, r: State, p: Proc, b: nat, data: Block)
    requires s.phase.Running? && Elsewhere(c, s, r, p, b) && Stored(s, p, b, data)
    ensures Stored(r, p, b, data)
  {
    var step :| Takes(c, s, step, r) && !step.Crash? && !ChangesBlock(step, p, b);
    assert s.holder[b] == p && b in s.touched;
    match step
    case Bread(_, _) =>
    case Modify(_, _, _) =>
    case LogWrite(_, _) =>
    case Brelse(_, _) =>
    case Evict(_) =>
    case _ =>
  }

  lemma StoredIsRunning(c: Config, s: State, p: Proc, b: nat, data: Block)
    requires Inv(c, s) && Stored(s, p, b, data)
    ensures s.phase.Running?
  {
  }

  lemma {:induction false} KeptUntil(c: Config, ss: seq<State>, i: nat, j: nat, p: Proc, b: nat, data: Block)
    requires Sized(c) && Run(c, ss) && i <= j < |ss| && Stored(ss[i], p, b, data)
    requires forall k: nat :: i <= k < j ==> Elsewhere(c, ss[k], ss[k + 1], p, b)
    ensures Stored(ss[j], p, b, data)
    decreases j
  {
    if i < j {
      KeptUntil(c, ss, i, j - 1, p, b, data);
      RunKeepsInv(c, ss, j - 1);
      StoredIsRunning(c, ss[j - 1], p, b, data);
      assert Elsewhere(c, ss[j - 1], ss[j - 1 + 1], p, b);
      ElsewhereKeeps(c, ss[j - 1], ss[j], p, b, data);
    }
  }

  /** log_write enters in the history what the process last stored in the buffer, whatever the others did
      in between. */
  lemma StoredIsLogged(c: Config, ss: seq<State>, i: nat, j: nat, p: Proc, b: nat, data: Block)
    requires Sized(c) && Run(c, ss) && i < j && j + 1 < |ss|
    requires Takes(c, ss[i], Modify(p, b, data), ss[i + 1]) && Takes(c, ss[j], LogWrite(p, b), ss[j + 1])
    requires forall k: nat :: i < k < j ==> Elsewhere(c, ss[k], ss[k + 1], p, b)
    ensures ss[j + 1].trace == ss[j].trace + [Wrote(p, b, data)]
  {
    KeptUntil(c, ss, i + 1, j, p, b, data);
  }

  /** tr[k] is the last write of block b in tr. */
  ghost predicate LastWrite(tr: seq<Event>, k: nat, b: nat) {
    k < |tr| && tr[k].Wrote? && tr[k].b == b && forall m :: k < m < |tr| ==> !(tr[m].Wrote? && tr[m].b == b)
  }

  lemma {:induction false} EffectOfLast(base: Disk, tr: seq<Event>, k: nat, b: nat)
    requires LastWrite(tr, k, b) && b < |base|
    ensures Effect(base, tr)[b] == tr[k].data
    decreases |tr|
  {
    if k < |tr| - 1 {
      EffectOfLast(base, tr[..|tr| - 1], k, b);
    }
  }

  /** Once it is committed, a store that was logged is what every recovery shows in that block, until
      a later write of the same block is committed. */
  lemma StoredSurvives(c: Config, ss: seq<State>, i: nat, j: nat, m: nat, p: Proc, b: nat, data: Block)
    requires Sized(c) && Run(c, ss) && i < j && j + 1 <= m < |ss|
    requires Takes(c, ss[i], Modify(p, b, data), ss[i + 1]) && Takes(c, ss[j], LogWrite(p, b), ss[j + 1])
    requires forall k: nat :: i < k < j ==> Elsewhere(c, ss[k], ss[k + 1], p, b)
    requires ss[j + 1].trace <= ss[m].saved && LastWrite(ss[m].saved, |ss[j].trace|, b)
    ensures WellFormed(c.l, ss[m].disk) && b < |Recover(c.l, ss[m].disk)|
    ensures Recover(c.l, ss[m].disk)[b] == data
  {
    StoredIsLogged(c, ss, i, j, p, b, data);
    assert ss[m].saved[|ss[j].trace|] == Wrote(p, b, data);
    CrashAtomicity(c, ss, m);
    RunKeepsInv(c, ss, j);
    EffectOfLast(c.base, ss[m].saved, |ss[j].trace|, b);
  }

  // ------------------------------------------------------------------------- progress

  /** At most so many steps are still to be taken by the commit or recovery under way. */
  function Remaining(s: State): (n: nat) {
    match s.phase
    case Boot => LOGSIZE + 2
    case Replaying(t) => if t <= |s.lh| then |s.lh| - t + 1 else 0
    case Running => 0
    case Logging(t) => if t <= |s.lh| then |s.lh| - t + |s.lh| + 4 else 0
    case Installing(t) => if t <= |s.lh| then |s.lh| - t + 2 else 0
    case Erased => 1
  }

  /** The block whose buffer the next step of a commit needs and a process holds. */
  function Awaited(c: Config, s: State): (bs: set<nat>) {
    var t := if s.phase.Logging? || s.phase.Installing? then s.phase.tail else 0;
    var needed := if t < |s.lh| then {c.l.Slot(t), s.lh[t]} else {c.l.logstart};
    if s.phase.Logging? || s.phase.Installing? then set b | b in needed && b in s.holder else {}
  }

  function Onward(s: State): (step: Step)
    requires !s.phase.Running?
  {
    match s.phase
    case Boot => ReadHead
    case Replaying(t) => if t < |s.lh| then ReplayBlock else ClearHead
    case Logging(t) => if t < |s.lh| then CopyToLog else WriteHead
    case Installing(t) => if t < |s.lh| then InstallBlock else EraseHead
    case Erased => CommitDone
  }

  lemma OnwardEnabled(c: Config, s: State)
    requires Inv(c, s) && !s.phase.Running? && Awaited(c, s) == {}
    ensures Enabled(c, s, Onward(s))
  {
    if s.phase.Logging? || s.phase.Installing? {
      var t := s.phase.tail;
      var needed := if t < |s.lh| then {c.l.Slot(t), s.lh[t]} else {c.l.logstart};
      assert forall b :: b in needed ==> b !in Awaited(c, s);
    }
  }

  lemma OnwardIsCloser(c: Config, s: State)
    requires !s.phase.Running? && Enabled(c, s, Onward(s))
    ensures var r := Next(c, s, Onward(s));
            Remaining(r) < Remaining(s) && r.trace == s.trace && r.ops == s.ops
  {
    match s.phase
    case Boot =>
    case Replaying(t) =>
    case Logging(t) =>
    case Installing(t) =>
    case Erased =>
  }

  /** Whoever holds a buffer that a commit waits for can release it. */
  lemma HolderReleases(c: Config, s: State, b: nat)
    requires Inv(c, s) && b in Awaited(c, s)
    ensures b in s.holder && Enabled(c, s, Brelse(s.holder[b], b))
  {
  }

  ghost predicate Reaches(c: Config, ss: seq<State>, s: State) { Run(c, ss) && ss[|ss| - 1] == s && Inv(c, s) }

  lemma {:induction false} FinishFrom(c: Config, ss: seq<State>, s: State) returns (rs: seq<State>, r: State)
    requires Reaches(c, ss, s)
    ensures Reaches(c, rs, r) && ss <= rs && r.phase.Running? && r.trace == s.trace && r.ops == s.ops
    decreases Remaining(s), |s.holder|
  {
    if s.phase.Running? {
      rs, r := ss, s;
    } else {
      var next := Moves(c, ss, s);
      rs, r := FinishFrom(c, ss + [next], next);
    }
  }

  lemma Moves(c: Config, ss: seq<State>, s: State) returns (r: State)
    requires Reaches(c, ss, s) && !s.phase.Running?
    ensures Reaches(c, ss + [r], r) && r.trace == s.trace && r.ops == s.ops
    ensures Remaining(r) < Remaining(s) || (Remaining(r) == Remaining(s) && |r.holder| < |s.holder|)
  {
    if Awaited(c, s) != {} {
      var b :| b in Awaited(c, s);
      HolderReleases(c, s, b);
      r := Goes(c, ss, s, Brelse(s.holder[b], b));
      assert r.holder.Keys == s.holder.Keys - {b};
    } else {
      OnwardEnabled(c, s);
      r := Goes(c, ss, s, Onward(s));
      OnwardIsCloser(c, s);
    }
  }

  lemma Goes(c: Config, ss: seq<State>, s: State, step: Step) returns (r: State)
    requires Reaches(c, ss, s) && Enabled(c, s, step)
    ensures r == Next(c, s, step) && Reaches(c, ss + [r], r)
  {
    r := Next(c, s, step);
    assert Takes(c, s, step, r);
    RunExtend(c, ss, r);
    StepKeepsInv(c, s, r);
  }

  lemma BetweenOperations(c: Config, s: State)
    requires Inv(c, s) && s.phase.Running? && s.ops == map[]
    ensures s.saved == s.trace && s.lh == [] && s.sleepers == {} && forall p :: Enabled(c, s, BeginOp(p))
  {
  }

  /** Whatever state a run has reached, it can go on to the end of the commit or recovery under way;
      everything done so far is then committed, nobody sleeps in begin_op, and any process may begin
      an operation. */
  lemma CanFinish(c: Config, ss: seq<State>) returns (rs: seq<State>)
    requires Sized(c) && Run(c, ss) && !ss[|ss| - 1].phase.Running?
    ensures Run(c, rs) && ss <= rs
    ensures var s, r := ss[|ss| - 1], rs[|rs| - 1];
            && r.phase.Running? && r.saved == r.trace == s.trace && r.ops == map[] && r.lh == [] && r.sleepers == {}
            && forall p :: Enabled(c, r, BeginOp(p))
  {
    RunKeepsInv(c, ss, |ss| - 1);
    var s, r := ss[|ss| - 1], ss[|ss| - 1];
    assert s.ops == map[];
    rs, r := FinishFrom(c, ss, s);
    BetweenOperations(c, r);
  }
}
