/** Crash safety of the logging protocol: in every state of every run, recovering the disk
    shows the effect of whole operations only, and of all the committed ones. */
module LogSafety {
  import opened Counting
  import opened Blocks
  import opened LogLayout
  import opened LogProtocol
  import opened LogReservation

  /** Clean buffers equal the disk; only logged blocks are pinned; only an open operation
      may leave a buffer between change and log_write. */
  ghost predicate CacheInv(c: Config, s: State) {
    && (forall b :: b in s.cache && !s.cache[b].dirty && b !in s.touched ==> b < |s.disk| && s.cache[b].data == s.disk[b])
    && (forall b :: b in s.cache && s.cache[b].dirty ==> b in s.lh)
    && (forall b :: b in s.touched ==> b in s.holder && s.holder[b] in s.ops && c.l.Home(b))
  }

  /** Every block logged from index `from` on is pinned with its latest contents. */
  ghost predicate Pinned(s: State, from: nat, latest: Disk) {
    forall i :: from <= i < |s.lh| ==>
      && s.lh[i] in s.cache && s.cache[s.lh[i]].dirty
      && (s.lh[i] !in s.touched ==> s.lh[i] < |latest| && s.cache[s.lh[i]].data == latest[s.lh[i]])
  }

  /** The first k logged blocks have reached their slots. */
  ghost predicate InSlots(l: Layout, s: State, k: nat, latest: Disk) {
    forall i :: 0 <= i < k && i < |s.lh| ==>
      l.Slot(i) < |s.disk| && s.lh[i] < |latest| && s.disk[l.Slot(i)] == latest[s.lh[i]]
  }

  /** The first k logged blocks have reached their homes. */
  ghost predicate AtHome(s: State, k: nat, latest: Disk) {
    forall i :: 0 <= i < k && i < |s.lh| ==>
      && s.lh[i] < |s.disk| && s.lh[i] < |latest| && s.disk[s.lh[i]] == latest[s.lh[i]]
      && (s.lh[i] in s.cache ==> !s.cache[s.lh[i]].dirty)
  }

  /** Blocks outside the current transaction are as they were when it began. */
  ghost predicate OnlyLoggedDiffer(l: Layout, lh: seq<nat>, d: Disk, e: Disk) {
    |d| == |e| == l.size && forall b: nat :: l.Home(b) && b !in lh ==> d[b] == e[b]
  }

  ghost predicate PhaseInv(c: Config, s: State, latest: Disk, committed: Disk) {
    && WellFormed(c.l, s.disk)
    && var onDisk := Entries(s.disk[c.l.logstart]);
    match s.phase
    case Boot => s.lh == [] && s.cache == map[] && s.holder == map[]
    case Replaying(t) => s.lh == onDisk && t <= |s.lh| && AtHome(s, t, committed) && forall b :: b in s.cache ==> !s.cache[b].dirty
    case Running => onDisk == [] && Pinned(s, 0, latest) && OnlyLoggedDiffer(c.l, s.lh, latest, committed)
    case Logging(t) =>
      && onDisk == [] && t <= |s.lh| && Pinned(s, 0, latest)
      && OnlyLoggedDiffer(c.l, s.lh, latest, committed) && InSlots(c.l, s, t, latest)
    case Installing(t) => onDisk == s.lh && t <= |s.lh| && Pinned(s, t, latest) && AtHome(s, t, latest)
    case Erased => onDisk == [] && s.lh == []
  }

  /** Disk and cache, given what the operations have written and what has been committed. */
  ghost predicate Safe(c: Config, s: State, latest: Disk, committed: Disk) {
    && Shape(c, s)
    && |latest| == c.l.size
    && (s.phase.Replaying? || Distinct(s.lh))
    && (!s.phase.Running? ==> s.touched == {})
    && CacheInv(c, s)
    && Holds(c.l, s.disk, committed)
    && PhaseInv(c, s, latest, committed)
  }

  /** The history agrees with the bookkeeping of log.c. */
  ghost predicate HistoryInv(c: Config, s: State) {
    && |c.base| == c.l.size
    && Orderly(s.trace) && s.saved <= s.trace && Open(s.saved) == {}
    && s.ops.Keys == Open(s.trace)
    && (s.phase.Logging? || (s.phase.Running? && s.ops != map[]) || s.saved == s.trace)
    && (s.committing <==> s.phase.Logging? || s.phase.Installing? || s.phase.Erased?)
    && (s.sleepers != {} ==> s.committing || (s.ops != map[] && LogIsTight(s)))
  }

  ghost predicate Inv(c: Config, s: State) {
    Reserved(c, s) && HistoryInv(c, s) && Safe(c, s, Effect(c.base, s.trace), Effect(c.base, s.saved))
  }

  // ------------------------------------------------ what each step does to disk and cache

  /** Writing a home block with the contents it is to have, as install_trans does. */
  lemma WriteHomeHolds(l: Layout, d: Disk, content: Disk, b: nat)
    requires Holds(l, d, content) && l.Home(b)
    ensures Holds(l, d[b := content[b]], content)
  {
  }

  /** Filling, locking, releasing and evicting clean buffers. */
  ghost predicate Shuffled(c: Config, s: State, r: State) {
    && r == s.(cache := r.cache, holder := r.holder) && r.holder.Keys <= r.cache.Keys && s.phase != Boot
    && (forall b :: b in r.cache ==>
          if b in s.cache then r.cache[b] == s.cache[b]
          else b < c.l.size && b < |s.disk| && r.cache[b] == Buf(s.disk[b], false))
    && (forall b :: b in s.cache && s.cache[b].dirty ==> b in r.cache)
    && (forall b :: b in s.touched ==> b in r.holder && b in s.holder && r.holder[b] == s.holder[b])
  }

  lemma ShuffleCache(c: Config, s: State, r: State, latest: Disk, committed: Disk)
    requires Safe(c, s, latest, committed) && Shuffled(c, s, r)
    ensures Shape(c, r) && CacheInv(c, r)
  {
  }

  lemma ShufflePhase(c: Config, s: State, r: State, latest: Disk, committed: Disk)
    requires Safe(c, s, latest, committed) && Shuffled(c, s, r)
    ensures PhaseInv(c, r, latest, committed)
  {
  }

  lemma ShuffleSafe(c: Config, s: State, r: State, latest: Disk, committed: Disk)
    requires Safe(c, s, latest, committed) && Shuffled(c, s, r)
    ensures Safe(c, r, latest, committed)
  {
    ShuffleCache(c, s, r, latest, committed);
    ShufflePhase(c, s, r, latest, committed);
  }

  lemma BreadSafe(c: Config, s: State, p: Proc, b: nat, latest: Disk, committed: Disk)
    requires Safe(c, s, latest, committed) && Enabled(c, s, Bread(p, b))
    ensures Safe(c, Next(c, s, Bread(p, b)), latest, committed)
  {
    ShuffleSafe(c, s, Next(c, s, Bread(p, b)), latest, committed);
  }

  lemma BrelseSafe(c: Config, s: State, p: Proc, b: nat, latest: Disk, committed: Disk)
    requires Safe(c, s, latest, committed) && Enabled(c, s, Brelse(p, b))
    ensures Safe(c, Next(c, s, Brelse(p, b)), latest, committed)
  {
    ShuffleSafe(c, s, Next(c, s, Brelse(p, b)), latest, committed);
  }

  lemma EvictSafe(c: Config, s: State, b: nat, latest: Disk, committed: Disk)
    requires Safe(c, s, latest, committed) && Enabled(c, s, Evict(b))
    ensures Safe(c, Next(c, s, Evict(b)), latest, committed)
  {
    ShuffleSafe(c, s, Next(c, s, Evict(b)), latest, committed);
  }

  lemma ModifySafe(c: Config, s: State, p: Proc, b: nat, data: Block, latest: Disk, committed: Disk)
    requires Safe(c, s, latest, committed) && Enabled(c, s, Modify(p, b, data)) && s.phase.Running?
    ensures Safe(c, Next(c, s, Modify(p, b, data)), latest, committed)
  {
  }

  lemma LogWriteLists(c: Config, s: State, p: Proc, b: nat)
    requires Enabled(c, s, LogWrite(p, b)) && Distinct(s.lh)
    ensures var lh := Next(c, s, LogWrite(p, b)).lh;
            && s.lh <= lh && Distinct(lh) && b in lh
            && (forall i :: 0 <= i < |lh| ==> i < |s.lh| || lh[i] == b)
            && (!TooBig(c, s) ==> c.l.Fits(lh))
  {
  }

  lemma LogWriteCache(c: Config, s: State, p: Proc, b: nat)
    requires Enabled(c, s, LogWrite(p, b)) && CacheInv(c, s) && Distinct(s.lh)
    ensures CacheInv(c, Next(c, s, LogWrite(p, b)))
  {
    LogWriteLists(c, s, p, b);
    var lh := Next(c, s, LogWrite(p, b)).lh;
    assert forall x :: x in s.lh ==> x in lh;
  }

  lemma LogWritePhase(c: Config, s: State, p: Proc, b: nat, latest: Disk, committed: Disk)
    requires Enabled(c, s, LogWrite(p, b)) && |latest| == c.l.size && s.phase == Running && Distinct(s.lh)
    requires PhaseInv(c, s, latest, committed)
    ensures PhaseInv(c, Next(c, s, LogWrite(p, b)), latest[b := s.cache[b].data], committed)
  {
    LogWriteLists(c, s, p, b);
    var lh := Next(c, s, LogWrite(p, b)).lh;
    assert forall x :: x in s.lh ==> x in lh;
  }

  lemma LogWriteSafe(c: Config, s: State, p: Proc, b: nat, latest: Disk, committed: Disk)
    requires Safe(c, s, latest, committed) && Enabled(c, s, LogWrite(p, b)) && s.phase.Running? && !TooBig(c, s)
    ensures Safe(c, Next(c, s, LogWrite(p, b)), latest[b := s.cache[b].data], committed)
  {
    LogWriteLists(c, s, p, b);
    LogWriteCache(c, s, p, b);
    LogWritePhase(c, s, p, b, latest, committed);
  }

  /** Writing a slot of an empty log cannot be seen after recovery. */
  lemma WriteSlotHolds(l: Layout, d: Disk, content: Disk, t: nat, data: Block)
    requires Holds(l, d, content) && Entries(d[l.logstart]) == [] && l.Slot(t) < l.logstart + l.nlog
    ensures Holds(l, d[l.Slot(t) := data], content)
  {
  }

  lemma CopyToLogCache(c: Config, s: State)
    requires Enabled(c, s, CopyToLog) && CacheInv(c, s) && s.touched == {}
    ensures CacheInv(c, Next(c, s, CopyToLog))
  {
    assert c.l.Slot(s.phase.tail) !in s.lh;
  }

  lemma CopyToLogPhase(c: Config, s: State, latest: Disk, committed: Disk)
    requires Enabled(c, s, CopyToLog) && |latest| == c.l.size && s.touched == {} && PhaseInv(c, s, latest, committed)
    ensures PhaseInv(c, Next(c, s, CopyToLog), latest, committed)
  {
    assert View(s, s.lh[s.phase.tail]) == latest[s.lh[s.phase.tail]];
  }

  lemma CopyToLogSafe(c: Config, s: State, latest: Disk, committed: Disk)
    requires Safe(c, s, latest, committed) && Enabled(c, s, CopyToLog)
    ensures Safe(c, Next(c, s, CopyToLog), latest, committed)
  {
    var t := s.phase.tail;
    assert View(s, s.lh[t]) == latest[s.lh[t]];
    WriteSlotHolds(c.l, s.disk, committed, t, latest[s.lh[t]]);
    CopyToLogCache(c, s);
    CopyToLogPhase(c, s, latest, committed);
  }

  lemma WriteHeadSafe(c: Config, s: State, latest: Disk, committed: Disk)
    requires Safe(c, s, latest, committed) && Enabled(c, s, WriteHead)
    ensures Safe(c, Next(c, s, WriteHead), latest, latest)
  {
    WriteHeadCache(c, s, latest, committed);
    WriteHeadHolds(c, s, latest, committed);
    WriteHeadPhase(c, s, latest, committed);
  }

  lemma WriteHeadCache(c: Config, s: State, latest: Disk, committed: Disk)
    requires Safe(c, s, latest, committed) && Enabled(c, s, WriteHead)
    ensures var r := Next(c, s, WriteHead); Shape(c, r) && CacheInv(c, r)
  {
    HeaderRoundTrip(View(s, c.l.logstart), s.lh);
  }

  lemma WriteHeadHolds(c: Config, s: State, latest: Disk, committed: Disk)
    requires Safe(c, s, latest, committed) && Enabled(c, s, WriteHead)
    ensures Holds(c.l, Next(c, s, WriteHead).disk, latest)
  {
    HeaderRoundTrip(View(s, c.l.logstart), s.lh);
  }

  lemma WriteHeadPhase(c: Config, s: State, latest: Disk, committed: Disk)
    requires Safe(c, s, latest, committed) && Enabled(c, s, WriteHead)
    ensures PhaseInv(c, Next(c, s, WriteHead), latest, latest)
  {
    HeaderRoundTrip(View(s, c.l.logstart), s.lh);
  }

  /** Copying one slot home: the disk still holds the same contents, and the home buffer,
      no longer pinned, equals the disk. */
  lemma CopyHomeKeeps(c: Config, s: State, t: nat, content: Disk)
    requires Shape(c, s) && CacheInv(c, s) && Holds(c.l, s.disk, content) && s.touched == {}
    requires s.lh == Entries(s.disk[c.l.logstart]) && t < |s.lh|
    ensures var r := CopyHome(c, s, t);
            && CacheInv(c, r) && Holds(c.l, r.disk, content)
            && r.disk == s.disk[s.lh[t] := content[s.lh[t]]] && !r.cache[s.lh[t]].dirty
            && (forall b :: b in s.cache ==> b in r.cache && (b != s.lh[t] ==> r.cache[b] == s.cache[b]))
            && (forall b :: b in r.cache && b !in s.cache ==> !r.cache[b].dirty && b < c.l.size)
  {
    assert c.l.Slot(t) !in s.lh;
    assert View(s, c.l.Slot(t)) == content[s.lh[t]];
    WriteHomeHolds(c.l, s.disk, content, s.lh[t]);
  }

  lemma OneMoreAtHome(s: State, r: State, t: nat, content: Disk)
    requires t < |s.lh| && s.lh[t] < |s.disk| == |content| && r.lh == s.lh && r.touched == s.touched
    requires r.disk == s.disk[s.lh[t] := content[s.lh[t]]] && s.lh[t] in r.cache && !r.cache[s.lh[t]].dirty
    requires forall b :: b in s.cache ==> b in r.cache && (b != s.lh[t] ==> r.cache[b] == s.cache[b])
    requires forall b :: b in r.cache && b !in s.cache ==> !r.cache[b].dirty
    ensures AtHome(s, t, content) ==> AtHome(r, t + 1, content)
    ensures Distinct(s.lh) && Pinned(s, t, content) ==> Pinned(r, t + 1, content)
  {
  }

  lemma InstallSafe(c: Config, s: State, latest: Disk)
    requires Safe(c, s, latest, latest) && Enabled(c, s, InstallBlock)
    ensures Safe(c, Next(c, s, InstallBlock), latest, latest)
  {
    InstallCache(c, s, latest);
    InstallPhase(c, s, latest);
  }

  lemma InstallCache(c: Config, s: State, latest: Disk)
    requires Safe(c, s, latest, latest) && Enabled(c, s, InstallBlock)
    ensures var r := Next(c, s, InstallBlock); Shape(c, r) && CacheInv(c, r) && Holds(c.l, r.disk, latest)
  {
    CopyHomeKeeps(c, s, s.phase.tail, latest);
  }

  lemma InstallPhase(c: Config, s: State, latest: Disk)
    requires Safe(c, s, latest, latest) && Enabled(c, s, InstallBlock)
    ensures PhaseInv(c, Next(c, s, InstallBlock), latest, latest)
  {
    CopyHomeKeeps(c, s, s.phase.tail, latest);
    OneMoreAtHome(s, CopyHome(c, s, s.phase.tail), s.phase.tail, latest);
  }

  lemma EraseSafe(c: Config, s: State, latest: Disk)
    requires Safe(c, s, latest, latest) && Enabled(c, s, EraseHead)
    ensures Safe(c, Next(c, s, EraseHead), latest, latest)
  {
    HeaderRoundTrip(View(s, c.l.logstart), []);
  }

  lemma CrashSafe(c: Config, s: State, latest: Disk, committed: Disk)
    requires Safe(c, s, latest, committed)
    ensures Safe(c, Next(c, s, Crash), committed, committed)
  {
  }

  lemma ReadHeadSafe(c: Config, s: State, latest: Disk)
    requires Safe(c, s, latest, latest) && Enabled(c, s, ReadHead)
    ensures Safe(c, Next(c, s, ReadHead), latest, latest)
  {
  }

  lemma ReplaySafe(c: Config, s: State, latest: Disk)
    requires Safe(c, s, latest, latest) && Enabled(c, s, ReplayBlock)
    ensures Safe(c, Next(c, s, ReplayBlock), latest, latest)
  {
    ReplayCache(c, s, latest);
    ReplayPhase(c, s, latest);
  }

  lemma ReplayCache(c: Config, s: State, latest: Disk)
    requires Safe(c, s, latest, latest) && Enabled(c, s, ReplayBlock)
    ensures var r := Next(c, s, ReplayBlock); Shape(c, r) && CacheInv(c, r) && Holds(c.l, r.disk, latest)
  {
    CopyHomeKeeps(c, s, s.phase.tail, latest);
  }

  lemma ReplayPhase(c: Config, s: State, latest: Disk)
    requires Safe(c, s, latest, latest) && Enabled(c, s, ReplayBlock)
    ensures PhaseInv(c, Next(c, s, ReplayBlock), latest, latest)
  {
    var t := s.phase.tail;
    var r := CopyHome(c, s, t);
    assert WellFormed(c.l, r.disk) && r.lh == s.lh && AtHome(r, t + 1, latest) by {
      CopyHomeKeeps(c, s, t, latest);
      OneMoreAtHome(s, r, t, latest);
    }
    ReplayClean(c, s);
  }

  lemma ReplayClean(c: Config, s: State)
    requires Shape(c, s) && s.phase.Replaying? && s.phase.tail < |s.lh|
    requires forall b :: b in s.cache ==> !s.cache[b].dirty
    ensures var r := CopyHome(c, s, s.phase.tail);
            r.disk[c.l.logstart] == s.disk[c.l.logstart] && forall b :: b in r.cache ==> !r.cache[b].dirty
  {
  }

  lemma ClearSafe(c: Config, s: State, latest: Disk)
    requires Safe(c, s, latest, latest) && Enabled(c, s, ClearHead)
    ensures Safe(c, Next(c, s, ClearHead), latest, latest)
  {
    HeaderRoundTrip(View(s, c.l.logstart), []);
  }

  lemma EndOpSafe(c: Config, s: State, p: Proc, latest: Disk, committed: Disk)
    requires Safe(c, s, latest, committed) && Enabled(c, s, EndOp(p)) && s.phase.Running?
    ensures var r := Next(c, s, EndOp(p)); Safe(c, r, latest, if r.phase.Erased? then latest else committed)
  {
    assert forall b :: b in s.touched ==> s.holder[b] in s.ops - {p};
  }

  // ------------------------------------------------------- every step keeps the invariant

  /** The steps that extend the history. */
  predicate ByOperation(step: Step) { step.BeginOp? || step.LogWrite? || step.EndOp? }

  predicate ByBuffer(step: Step) {
    step.BeginOpSleeps? || step.Modify? || step.Bread? || step.Brelse? || step.Evict?
  }

  lemma BeginOpKeepsHistory(c: Config, s: State, p: Proc)
    requires HistoryInv(c, s) && Enabled(c, s, BeginOp(p)) && s.phase.Running?
    ensures HistoryInv(c, Next(c, s, BeginOp(p)))
  {
    Extend(c, s.trace, Began(p));
  }

  lemma LogWriteKeepsHistory(c: Config, s: State, p: Proc, b: nat)
    requires HistoryInv(c, s) && Enabled(c, s, LogWrite(p, b)) && s.phase.Running?
    ensures HistoryInv(c, Next(c, s, LogWrite(p, b)))
  {
    HistoryGrows(c, s, Next(c, s, LogWrite(p, b)), Wrote(p, b, s.cache[b].data));
  }

  lemma HistoryGrows(c: Config, s: State, r: State, e: Event)
    requires HistoryInv(c, s) && s.phase.Running? && s.ops != map[] && e.Wrote? && e.p in s.ops
    requires r.trace == s.trace + [e] && r.saved == s.saved && r.phase == s.phase && r.sleepers == s.sleepers
    requires r.ops.Keys == s.ops.Keys && r.committing == s.committing && |s.lh| <= |r.lh|
    ensures HistoryInv(c, r)
  {
    Extend(c, s.trace, e);
    assert |s.ops| == |s.ops.Keys| == |r.ops|;
  }

  lemma EndOpKeepsHistory(c: Config, s: State, p: Proc)
    requires HistoryInv(c, s) && Enabled(c, s, EndOp(p)) && s.phase.Running?
    ensures HistoryInv(c, Next(c, s, EndOp(p)))
  {
    Extend(c, s.trace, Ended(p));
    assert (s.ops - {p}).Keys == s.ops.Keys - {p};
  }

  lemma OthersKeepReserved(c: Config, s: State, step: Step)
    requires Reserved(c, s) && Enabled(c, s, step) && !ByOperation(step)
    requires s.phase.Erased? ==> s.lh == []
    ensures Reserved(c, Next(c, s, step))
  {
  }

  lemma OthersKeepHistory(c: Config, s: State, step: Step)
    requires Reserved(c, s) && HistoryInv(c, s) && Enabled(c, s, step) && !ByOperation(step)
    ensures HistoryInv(c, Next(c, s, step))
  {
    if step == Crash {
      CrashKeepsHistory(c, s);
    } else {
      var r := Next(c, s, step);
      assert r.trace == s.trace && r.ops == s.ops;
      assert s.ops != map[] ==> r.lh == s.lh;
    }
  }

  lemma CrashKeepsHistory(c: Config, s: State)
    requires HistoryInv(c, s) && Enabled(c, s, Crash)
    ensures HistoryInv(c, Next(c, s, Crash))
  {
    assert forall i :: 0 <= i < |s.saved| ==> s.saved[..i] == s.trace[..i];
  }

  lemma BeginOpKeepsInv(c: Config, s: State, p: Proc)
    requires Inv(c, s) && Enabled(c, s, BeginOp(p))
    ensures Inv(c, Next(c, s, BeginOp(p)))
  {
    var r := Next(c, s, BeginOp(p));
    assert HistoryInv(c, r) by { BeginOpKeepsHistory(c, s, p); }
    assert Reserved(c, r) by { ReservedBeginOp(c, s, p); }
    assert Safe(c, r, Effect(c.base, r.trace), Effect(c.base, r.saved)) by { Extend(c, s.trace, Began(p)); }
  }

  lemma LogWriteKeepsInv(c: Config, s: State, p: Proc, b: nat)
    requires Inv(c, s) && Enabled(c, s, LogWrite(p, b))
    ensures Inv(c, Next(c, s, LogWrite(p, b)))
  {
    var r := Next(c, s, LogWrite(p, b));
    assert HistoryInv(c, r) by { LogWriteKeepsHistory(c, s, p, b); }
    assert Reserved(c, r) by { ReservedLogWrite(c, s, p, b); }
    assert Safe(c, r, Effect(c.base, r.trace), Effect(c.base, r.saved)) by {
      Extend(c, s.trace, Wrote(p, b, s.cache[b].data));
      ReservedHasRoom(c, s);
      LogWriteSafe(c, s, p, b, Effect(c.base, s.trace), Effect(c.base, s.saved));
    }
  }

  lemma EndOpKeepsInv(c: Config, s: State, p: Proc)
    requires Inv(c, s) && Enabled(c, s, EndOp(p))
    ensures Inv(c, Next(c, s, EndOp(p)))
  {
    Extend(c, s.trace, Ended(p));
    EndOpKeepsHistory(c, s, p);
    ReservedEndOp(c, s, p);
    EndOpSafe(c, s, p, Effect(c.base, s.trace), Effect(c.base, s.saved));
  }

  lemma BufferKeepsInv(c: Config, s: State, step: Step)
    requires Inv(c, s) && Enabled(c, s, step) && ByBuffer(step)
    ensures Inv(c, Next(c, s, step))
  {
    var latest, committed := Effect(c.base, s.trace), Effect(c.base, s.saved);
    OthersKeepReserved(c, s, step);
    OthersKeepHistory(c, s, step);
    BufferKeepsSafe(c, s, step, latest, committed);
  }

  lemma BufferKeepsSafe(c: Config, s: State, step: Step, latest: Disk, committed: Disk)
    requires Safe(c, s, latest, committed) && Enabled(c, s, step) && ByBuffer(step) && (step.Modify? ==> s.phase.Running?)
    ensures Safe(c, Next(c, s, step), latest, committed)
  {
    if step.Modify? { ModifySafe(c, s, step.p, step.b, step.data, latest, committed); }
    if step.Bread? { BreadSafe(c, s, step.p, step.b, latest, committed); }
    if step.Brelse? { BrelseSafe(c, s, step.p, step.b, latest, committed); }
    if step.Evict? { EvictSafe(c, s, step.b, latest, committed); }
  }

  lemma CommitKeepsInv(c: Config, s: State, step: Step)
    requires Inv(c, s) && Enabled(c, s, step) && !ByBuffer(step) && !ByOperation(step)
    ensures Inv(c, Next(c, s, step))
  {
    var latest, committed := Effect(c.base, s.trace), Effect(c.base, s.saved);
    OthersKeepReserved(c, s, step);
    OthersKeepHistory(c, s, step);
    if step.CopyToLog? { CopyToLogSafe(c, s, latest, committed); }
    if step.WriteHead? { WriteHeadSafe(c, s, latest, committed); }
    if step.InstallBlock? { InstallSafe(c, s, latest); }
    if step.EraseHead? { EraseSafe(c, s, latest); }
    if step.Crash? { CrashSafe(c, s, latest, committed); }
    if step.ReadHead? { ReadHeadSafe(c, s, latest); }
    if step.ReplayBlock? { ReplaySafe(c, s, latest); }
    if step.ClearHead? { ClearSafe(c, s, latest); }
  }

  lemma StepKeepsInv(c: Config, s: State, r: State)
    requires Inv(c, s) && Follows(c, s, r)
    ensures Inv(c, r)
  {
    var step :| Takes(c, s, step, r);
    if step.BeginOp? {
      BeginOpKeepsInv(c, s, step.p);
    } else if step.LogWrite? {
      LogWriteKeepsInv(c, s, step.p, step.b);
    } else if step.EndOp? {
      EndOpKeepsInv(c, s, step.p);
    } else if ByBuffer(step) {
      BufferKeepsInv(c, s, step);
    } else {
      CommitKeepsInv(c, s, step);
    }
  }

  // ----------------------------------------------------------------- theorems

  /** The log is no smaller than the one mkfs makes, and operations stay below what
      begin_op reserves for each. */
  ghost predicate Sized(c: Config) { c.l.nlog >= LOGSIZE && c.cap < MAXOPBLOCKS }

  lemma {:induction false} RunKeepsInv(c: Config, ss: seq<State>, i: nat)
    requires Sized(c) && Run(c, ss) && i < |ss|
    ensures Inv(c, ss[i])
  {
    if i > 0 {
      RunKeepsInv(c, ss, i - 1);
      assert FollowsAt(c, ss, i - 1);
      StepKeepsInv(c, ss[i - 1], ss[i]);
    }
  }

  /** Whatever the interleaving, the evictions and the crashes before: cut the power in any
      state of any run, and recovery shows exactly the committed history, in which no
      operation is under way. */
  lemma CrashAtomicity(c: Config, ss: seq<State>, i: nat)
    requires Sized(c) && Run(c, ss) && i < |ss|
    ensures WellFormed(c.l, ss[i].disk)
    ensures SameHome(c.l, Recover(c.l, ss[i].disk), Effect(c.base, ss[i].saved))
    ensures ss[i].saved <= ss[i].trace && Open(ss[i].saved) == {}
  {
    RunKeepsInv(c, ss, i);
    HoldsRecovers(c.l, ss[i].disk, Effect(c.base, ss[i].saved));
  }

  /** No operation is half visible: whatever a process did in the committed history, it had
      ended that operation there. */
  lemma NoHalfOperations(c: Config, ss: seq<State>, i: nat, k: nat)
    requires Sized(c) && Run(c, ss) && i < |ss| && k < |ss[i].saved|
    ensures exists m :: k <= m < |ss[i].saved| && ss[i].saved[m] == Ended(ss[i].saved[k].p)
  {
    RunKeepsInv(c, ss, i);
    var tr := ss[i].saved;
    if !tr[k].Ended? {
      assert tr[..k + 1][..k] == tr[..k] == ss[i].trace[..k];
      assert tr[k].p in Open(tr[..k + 1]);
      assert tr[..|tr|] == tr;
      EndedBetween(tr, k + 1, |tr|, tr[k].p);
    }
  }

  lemma {:induction false} EndedBetween(tr: seq<Event>, j: nat, k: nat, p: Proc)
    requires j <= k <= |tr| && p in Open(tr[..j]) && p !in Open(tr[..k])
    ensures exists m :: j <= m < k && tr[m] == Ended(p)
    decreases k - j
  {
    assert tr[..j + 1][..j] == tr[..j];
    if tr[j] != Ended(p) {
      EndedBetween(tr, j + 1, k, p);
    }
  }

  /** What a step does to the committed history. */
  lemma StepSaves(c: Config, s: State, step: Step)
    requires Enabled(c, s, step)
    ensures var r := Next(c, s, step); r.saved == s.saved || r.saved == s.trace || (step.EndOp? && r.saved == s.trace + [Ended(step.p)])
  {
    match step
    case EndOp(p) =>
    case WriteHead =>
    case _ =>
  }

  lemma StepSavesMore(c: Config, s: State, r: State)
    requires s.saved <= s.trace && Follows(c, s, r)
    ensures s.saved <= r.saved
  {
    var step :| Takes(c, s, step, r);
    StepSaves(c, s, step);
  }

  lemma RunHistory(c: Config, ss: seq<State>, i: nat)
    requires Sized(c) && Run(c, ss) && i < |ss|
    ensures ss[i].saved <= ss[i].trace
    ensures ss[i].phase.Running? && ss[i].ops == map[] ==> ss[i].saved == ss[i].trace
  {
    RunKeepsInv(c, ss, i);
  }

  /** Nothing committed is ever lost, and once the last operation's end_op has returned
      everything is committed. */
  lemma {:induction false} Durability(c: Config, ss: seq<State>, i: nat, j: nat)
    requires Sized(c) && Run(c, ss) && i <= j < |ss|
    ensures ss[i].saved <= ss[j].saved
    ensures ss[i].phase.Running? && ss[i].ops == map[] ==> ss[i].trace <= ss[j].saved
    decreases j
  {
    RunHistory(c, ss, i);
    if i < j {
      Durability(c, ss, i, j - 1);
      RunSavesMore(c, ss, j);
      assert ss[i].saved <= ss[j - 1].saved <= ss[j].saved;
    }
  }

  lemma {:induction false} RunSavesMore(c: Config, ss: seq<State>, j: nat)
    requires Sized(c) && Run(c, ss) && 0 < j < |ss|
    ensures ss[j - 1].saved <= ss[j].saved
  {
    RunHistory(c, ss, j - 1);
    assert FollowsAt(c, ss, j - 1);
    StepSavesMore(c, ss[j - 1], ss[j]);
  }

  /** Outside recovery, bread finds the latest logged contents of every home block that no one
      is in the middle of changing, whatever was evicted in between. */
  lemma ReadsLatest(c: Config, ss: seq<State>, i: nat, b: nat)
    requires Sized(c) && Run(c, ss) && i < |ss|
    requires c.l.Home(b) && b !in ss[i].touched && !ss[i].phase.Boot? && !ss[i].phase.Replaying?
    ensures b in ss[i].cache || b < |ss[i].disk|
    ensures b < |c.base| && View(ss[i], b) == Effect(c.base, ss[i].trace)[b]
  {
    RunKeepsInv(c, ss, i);
    var s := ss[i];
    if b in s.lh {
      var k :| 0 <= k < |s.lh| && s.lh[k] == b;
    }
  }

  /** log_write never panics and never overruns its arrays, and nobody is asleep in begin_op unless a
      commit is under way or an operation more would not fit beside the open ones; their end_op
      wakes it. This is about processes that call log_write inside operations of their own, which
      all do unless a file with a hole is read. */
  lemma LogNeverOverruns(c: Config, ss: seq<State>, i: nat)
    requires Sized(c) && Run(c, ss) && i < |ss|
    ensures ss[i].ops != map[] ==> !TooBig(c, ss[i])
    ensures |ss[i].lh| <= LOGSIZE && |ss[i].lh| < c.l.nlog
    ensures ss[i].sleepers != {} ==>
              ss[i].committing || (ss[i].ops != map[] && |ss[i].lh| + (|ss[i].ops| + 1) * MAXOPBLOCKS > LOGSIZE)
  {
    RunKeepsInv(c, ss, i);
    if ss[i].ops != map[] {
      ReservedHasRoom(c, ss[i]);
    }
  }

  /** In some state of the run an operation is open and log_write would panic. */
  ghost predicate Overruns(c: Config, ss: seq<State>) {
    Run(c, ss) && exists i :: 0 <= i < |ss| && ss[i].ops != map[] && TooBig(c, ss[i])
  }

  /** On the image mkfs ships, operations are safe from the panic exactly when each logs fewer distinct
      blocks than begin_op reserves for it. */
  lemma SafeAllowance(c: Config)
    requires c.l == SHIPPED && |c.base| == SHIPPED.size
    ensures (exists ss: seq<State> :: Overruns(c, ss)) <==> c.cap >= MAXOPBLOCKS
  {
    if c.cap >= MAXOPBLOCKS {
      var run: seq<State>, p: Proc := FullAllowanceOverruns(c);
      assert run[|run| - 1].ops != map[];
      assert Overruns(c, run);
    } else {
      forall ss: seq<State> | Run(c, ss)
        ensures !Overruns(c, ss)
      {
        forall i | 0 <= i < |ss|
          ensures !(ss[i].ops != map[] && TooBig(c, ss[i]))
        {
          LogNeverOverruns(c, ss, i);
        }
      }
    }
  }
}
