/** Any number of processes running file system operations through log.c over the
    write-back cache of bio.c, as a state machine. Every block write to the disk is
    one step, and the machine may crash between any two steps. */
module LogProtocol {
  import opened Blocks
  import opened LogLayout

  type Proc = nat

  /** What the operations did, in the order in which it happened. */
  datatype Event = Began(p: Proc) | Wrote(p: Proc, b: nat, data: Block) | Ended(p: Proc)

  /** Where recovery, or the committing process, has got to. */
  datatype Phase = Boot | Replaying(tail: nat) | Running | Logging(tail: nat) | Installing(tail: nat) | Erased

  datatype Buf = Buf(data: Block, dirty: bool)

  /** base: home contents before the first operation; cap: distinct blocks one operation may log. */
  datatype Config = Config(l: Layout, base: Disk, cap: nat)

  /** cache: the valid buffers; holder: who holds a buffer's sleep lock; touched: buffers whose
      holder has changed the data but not yet called log_write; ops: the open operations with
      the blocks each has logged; sleepers: processes asleep in begin_op.
      trace and saved are history: all that happened since the start or the last crash
      lost something, and the part of it that has been committed. */
  datatype State = State(
    disk: Disk, cache: map<nat, Buf>, holder: map<nat, Proc>, touched: set<nat>,
    lh: seq<nat>, ops: map<Proc, set<nat>>, committing: bool, sleepers: set<Proc>,
    phase: Phase, trace: seq<Event>, saved: seq<Event>)

  datatype Step =
    | BeginOp(p: Proc) | BeginOpSleeps(p: Proc) | EndOp(p: Proc)
    | Bread(p: Proc, b: nat) | Modify(p: Proc, b: nat, data: Block) | LogWrite(p: Proc, b: nat)
    | Brelse(p: Proc, b: nat) | Evict(b: nat)
    | CopyToLog | WriteHead | InstallBlock | EraseHead | CommitDone
    | Crash | ReadHead | ReplayBlock | ClearHead

  // ---------------------------------------------------------------- history

  /** The disk blocks as the operations of a history leave them. */
  function Effect(base: Disk, tr: seq<Event>): (d: Disk)
    ensures |d| == |base|
    decreases |tr|
  {
    if tr == [] then base
    else
      var d := Effect(base, tr[..|tr| - 1]);
      var e := tr[|tr| - 1];
      if e.Wrote? && e.b < |base| then d[e.b := e.data] else d
  }

  /** Processes with an operation under way at the end of a history. */
  function Open(tr: seq<Event>): (ps: set<Proc>)
    decreases |tr|
  {
    if tr == [] then {} else OpenAfter(Open(tr[..|tr| - 1]), tr[|tr| - 1])
  }

  function OpenAfter(ps: set<Proc>, e: Event): (r: set<Proc>) {
    if e.Began? then ps + {e.p} else if e.Ended? then ps - {e.p} else ps
  }

  ghost predicate Orderly(tr: seq<Event>) {
    forall i :: 0 <= i < |tr| && tr[i].Wrote? ==> tr[i].p in Open(tr[..i])
  }

  lemma Extend(c: Config, tr: seq<Event>, e: Event)
    ensures Effect(c.base, tr + [e]) ==
            var d := Effect(c.base, tr);
            if e.Wrote? && e.b < |d| then d[e.b := e.data] else d
    ensures Open(tr + [e]) == OpenAfter(Open(tr), e)
    ensures Orderly(tr) && (e.Wrote? ==> e.p in Open(tr)) ==> Orderly(tr + [e])
  {
    assert (tr + [e])[..|tr|] == tr;
    assert forall k :: 0 <= k <= |tr| ==> (tr + [e])[..k] == tr[..k];
  }

  // ------------------------------------------------------------------ steps

  /** Everything the steps index or decode is in range. Part of the invariant below, so it
      restricts no run. */
  ghost predicate Shape(c: Config, s: State) {
    && WellFormed(c.l, s.disk)
    && c.l.Fits(s.lh)
    && (forall b :: b in s.cache ==> b < c.l.size)
    && s.holder.Keys <= s.cache.Keys
  }

  /** What bread finds in a block. */
  function View(s: State, b: nat): (d: Block)
    requires b in s.cache || b < |s.disk|
  {
    if b in s.cache then s.cache[b].data else s.disk[b]
  }

  function Load(s: State, b: nat): (cache: map<nat, Buf>)
    requires b < |s.disk|
  {
    if b in s.cache then s.cache else s.cache[b := Buf(s.disk[b], false)]
  }

  predicate LogIsTight(s: State) { |s.lh| + (|s.ops| + 1) * MAXOPBLOCKS > LOGSIZE }

  /** log_write would panic: "too big a transaction". */
  predicate TooBig(c: Config, s: State) { |s.lh| >= LOGSIZE || |s.lh| >= c.l.nlog - 1 }

  /** When a step can be taken. A process changes and logs blocks inside an operation of its own, though
      log_write asks only that some process has one open: the one caller without, a read of a file with
      a hole, is not a step. */
  ghost predicate Enabled(c: Config, s: State, step: Step) {
    && Shape(c, s)
    && var up := !s.phase.Boot? && !s.phase.Replaying?;
    match step
    case BeginOp(p) => up && p !in s.ops && p !in s.sleepers && !s.committing && !LogIsTight(s)
    case BeginOpSleeps(p) => up && p !in s.ops && p !in s.sleepers && (s.committing || LogIsTight(s))
    case EndOp(p) => up && p in s.ops && forall b :: b in s.touched && b in s.holder ==> s.holder[b] != p
    case Bread(p, b) => up && b < c.l.size && b !in s.holder
    case Modify(p, b, data) => up && b in s.holder && s.holder[b] == p && p in s.ops && c.l.Home(b)
    case LogWrite(p, b) => up && b in s.holder && s.holder[b] == p && p in s.ops && c.l.Home(b) && |s.ops[p] + {b}| <= c.cap
    case Brelse(p, b) => up && b in s.holder && s.holder[b] == p && b !in s.touched
    case Evict(b) => b in s.cache && b !in s.holder && !s.cache[b].dirty
    case CopyToLog =>
      && s.phase.Logging? && s.phase.tail < |s.lh|
      && c.l.Slot(s.phase.tail) !in s.holder && s.lh[s.phase.tail] !in s.holder
    case WriteHead => s.phase == Logging(|s.lh|) && c.l.logstart !in s.holder
    case InstallBlock =>
      && s.phase.Installing? && s.phase.tail < |s.lh|
      && c.l.Slot(s.phase.tail) !in s.holder && s.lh[s.phase.tail] !in s.holder
    case EraseHead => s.phase == Installing(|s.lh|) && c.l.logstart !in s.holder
    case CommitDone => s.phase == Erased
    case Crash => true
    case ReadHead => s.phase == Boot
    case ReplayBlock => s.phase.Replaying? && s.phase.tail < |s.lh|
    case ClearHead => s.phase == Replaying(|s.lh|)
  }

  /** One block copied from its slot to its home: bread both, memmove, bwrite, brelse. */
  function CopyHome(c: Config, s: State, tail: nat): (r: State)
    requires c.l.Valid() && |s.disk| == c.l.size && c.l.Fits(s.lh) && tail < |s.lh|
  {
    var from, to := c.l.Slot(tail), s.lh[tail];
    var data := View(s, from);
    s.(disk := s.disk[to := data], cache := Load(s, from)[to := Buf(data, false)])
  }

  /** write_head: bread the header, overwrite it, bwrite, brelse. */
  function PutHead(c: Config, s: State, lh: seq<nat>): (r: State)
    requires c.l.Valid() && |s.disk| == c.l.size && c.l.Fits(lh)
  {
    var h := HeaderBlock(View(s, c.l.logstart), lh);
    s.(lh := lh, disk := s.disk[c.l.logstart := h], cache := s.cache[c.l.logstart := Buf(h, false)])
  }

  function Next(c: Config, s: State, step: Step): (r: State)
    requires Enabled(c, s, step)
  {
    match step
    case BeginOp(p) => s.(ops := s.ops[p := {}], trace := s.trace + [Began(p)])
    case BeginOpSleeps(p) => s.(sleepers := s.sleepers + {p})
    case EndOp(p) =>
      var r := s.(ops := s.ops - {p}, trace := s.trace + [Ended(p)]);
      if r.ops != map[] then r.(sleepers := {})
      else if s.lh == [] then r.(committing := true, phase := Erased, saved := r.trace)
      else r.(committing := true, phase := Logging(0))
    case Bread(p, b) => s.(cache := Load(s, b), holder := s.holder[b := p])
    case Modify(p, b, data) =>
      s.(cache := s.cache[b := s.cache[b].(data := data)], touched := s.touched + {b})
    case LogWrite(p, b) =>
      s.(lh := if b in s.lh then s.lh else s.lh + [b],
      cache := s.cache[b := s.cache[b].(dirty := true)],
      touched := s.touched - {b},
      ops := s.ops[p := s.ops[p] + {b}],
      trace := s.trace + [Wrote(p, b, s.cache[b].data)])
    case Brelse(p, b) => s.(holder := s.holder - {b})
    case Evict(b) => s.(cache := s.cache - {b})
    case CopyToLog =>
      var from, to := s.lh[s.phase.tail], c.l.Slot(s.phase.tail);
      var data := View(s, from);
      s.(disk := s.disk[to := data], cache := Load(s, from)[to := Buf(data, false)], phase := Logging(s.phase.tail + 1))
    case WriteHead => PutHead(c, s, s.lh).(phase := Installing(0), saved := s.trace)
    case InstallBlock => CopyHome(c, s, s.phase.tail).(phase := Installing(s.phase.tail + 1))
    case EraseHead => PutHead(c, s, []).(phase := Erased)
    case CommitDone => s.(phase := Running, committing := false, sleepers := {})
    case Crash =>
      State(s.disk, map[], map[], {}, [], map[], false, {}, Boot, s.saved, s.saved)
    case ReadHead =>
      s.(lh := Entries(s.disk[c.l.logstart]), cache := Load(s, c.l.logstart), phase := Replaying(0))
    case ReplayBlock => CopyHome(c, s, s.phase.tail).(phase := Replaying(s.phase.tail + 1))
    case ClearHead => PutHead(c, s, []).(phase := Running)
  }

  // ------------------------------------------------------------------- runs

  /** Power-on: nothing in memory, and a disk that recovers to the base contents. */
  ghost predicate Init(c: Config, s: State) {
    && s == State(s.disk, map[], map[], {}, [], map[], false, {}, Boot, [], [])
    && Holds(c.l, s.disk, c.base)
  }

  ghost predicate Takes(c: Config, s: State, step: Step, r: State) {
    Enabled(c, s, step) && r == Next(c, s, step)
  }

  ghost predicate Follows(c: Config, s: State, r: State) { exists step :: Takes(c, s, step, r) }

  ghost predicate FollowsAt(c: Config, ss: seq<State>, i: nat)
    requires i + 1 < |ss|
  {
    Follows(c, ss[i], ss[i + 1])
  }

  /** States the system passes through, one step at a time. */
  ghost predicate Run(c: Config, ss: seq<State>) {
    |ss| > 0 && Init(c, ss[0]) && forall i: nat :: i + 1 < |ss| ==> FollowsAt(c, ss, i)
  }

  lemma RunExtend(c: Config, ss: seq<State>, r: State)
    requires Run(c, ss) && Follows(c, ss[|ss| - 1], r)
    ensures Run(c, ss + [r])
  {
    forall i: nat | i + 1 < |ss + [r]| ensures FollowsAt(c, ss + [r], i) {
      if i + 1 < |ss| {
        assert FollowsAt(c, ss, i);
      }
    }
  }
}
