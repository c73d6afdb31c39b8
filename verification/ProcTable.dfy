/** proc.c: the process table under ptable.lock. Each method is one critical section; the
    functions of module-level name say what it does to the table. */
module ProcTable {
  import opened Options
  import opened Counting

  const NPROC: nat := 64

  datatype ProcState = UNUSED | EMBRYO | SLEEPING | RUNNABLE | RUNNING | ZOMBIE

  /** What a process can sleep on: the address of a process (wait), or something else. */
  datatype Chan = OnProc(i: nat) | Other(id: nat)

  datatype Proc = Proc(state: ProcState, pid: nat, parent: Option<nat>, chan: Option<Chan>, killed: bool)

  /** procs and nextpid are the table; init is the slot of the first process. The rest is history:
      forking maps a process inside fork to its child-to-be; exited and reaped list pids. */
  datatype Table = Table(procs: seq<Proc>, init: nat, nextpid: nat, forking: map<nat, nat>, exited: seq<nat>, reaped: seq<nat>)

  // ------------------------------------------------------ what the sections do

  function Wake(p: Proc, chan: Chan): (r: Proc) {
    if p.state == SLEEPING && p.chan == Some(chan) then p.(state := RUNNABLE) else p
  }

  function Woken(ps: seq<Proc>, chan: Chan): (r: seq<Proc>)
    ensures |r| == |ps|
    ensures forall i :: 0 <= i < |ps| ==> r[i] == Wake(ps[i], chan)
  {
    seq(|ps|, i requires 0 <= i < |ps| => Wake(ps[i], chan))
  }

  /** exit's loop over the first k slots: hand children to init, and wake it for zombies. */
  function Adopted(ps: seq<Proc>, cur: nat, init: nat, k: nat): (r: seq<Proc>)
    requires k <= |ps|
    ensures |r| == |ps|
    decreases k
  {
    if k == 0 then ps
    else
      var b := Adopted(ps, cur, init, k - 1);
      if b[k - 1].parent != Some(cur) then b
      else
        var c := b[k - 1 := b[k - 1].(parent := Some(init))];
        if c[k - 1].state == ZOMBIE then Woken(c, OnProc(init)) else c
  }

  function WakeParent(ps: seq<Proc>, cur: nat): (r: seq<Proc>)
    requires cur < |ps|
    ensures |r| == |ps|
  {
    if ps[cur].parent.Some? then Woken(ps, OnProc(ps[cur].parent.value)) else ps
  }

  function ExitTable(ps: seq<Proc>, cur: nat, init: nat): (r: seq<Proc>)
    requires cur < |ps|
    ensures |r| == |ps|
  {
    var a := Adopted(WakeParent(ps, cur), cur, init, |ps|);
    a[cur := a[cur].(state := ZOMBIE)]
  }

  /** wait's scan: the first zombie child, else whether there are children at all. */
  datatype Scan = Zombie(k: nat) | Children | Childless

  function ScanFrom(ps: seq<Proc>, cur: nat, k: nat): (r: Scan)
    requires k <= |ps|
    decreases |ps| - k
  {
    if k == |ps| then Childless
    else if ps[k].parent != Some(cur) then ScanFrom(ps, cur, k + 1)
    else if ps[k].state == ZOMBIE then Zombie(k)
    else match ScanFrom(ps, cur, k + 1) case Zombie(j) => Zombie(j) case _ => Children
  }

  function Reap(ps: seq<Proc>, k: nat): (r: seq<Proc>)
    requires k < |ps|
  {
    ps[k := ps[k].(state := UNUSED, pid := 0, parent := None, killed := false)]
  }

  function Doze(ps: seq<Proc>, cur: nat, chan: Chan): (r: seq<Proc>)
    requires cur < |ps|
  {
    ps[cur := ps[cur].(state := SLEEPING, chan := Some(chan))]
  }

  /** The slot kill acts on: the first with the pid; |ps| if there is none. */
  function Slot(ps: seq<Proc>, pid: nat, k: nat): (i: nat)
    requires k <= |ps|
    ensures k <= i <= |ps| && (i < |ps| ==> ps[i].pid == pid)
    decreases |ps| - k
  {
    if k == |ps| || ps[k].pid == pid then k else Slot(ps, pid, k + 1)
  }

  function Killed(p: Proc): (r: Proc) {
    p.(killed := true, state := if p.state == SLEEPING then RUNNABLE else p.state)
  }

  datatype Step =
    | Alloc(cur: nat, np: nat) | ForkFails(cur: nat) | SetParent(cur: nat) | ForkDone(cur: nat)
    | Exit(cur: nat) | Wait(cur: nat)
    | Dispatch(p: nat) | Yield(cur: nat) | SleepOn(cur: nat, id: nat) | Wakeup(id: nat) | Kill(pid: nat)

  predicate Running(t: Table, i: nat) { i < |t.procs| && t.procs[i].state == RUNNING }

  ghost predicate Enabled(t: Table, step: Step) {
    match step
    case Alloc(cur, np) => Running(t, cur) && cur !in t.forking && np < |t.procs| && t.procs[np].state == UNUSED
    case ForkFails(cur) => Forks(t, cur) && Running(t, cur) && t.procs[t.forking[cur]].parent == None
    case SetParent(cur) => Forks(t, cur) && Running(t, cur) && t.procs[t.forking[cur]].parent == None
    case ForkDone(cur) => Forks(t, cur) && Running(t, cur) && t.procs[t.forking[cur]].parent == Some(cur)
    case Exit(cur) => Running(t, cur) && cur !in t.forking && cur != t.init
    case Wait(cur) => Running(t, cur) && cur !in t.forking
    case Dispatch(p) => p < |t.procs| && t.procs[p].state == RUNNABLE
    case Yield(cur) => Running(t, cur)
    case SleepOn(cur, _) => Running(t, cur) && cur !in t.forking
    case Wakeup(_) => true
    case Kill(_) => true
  }

  ghost predicate Forks(t: Table, cur: nat) { cur in t.forking && t.forking[cur] < |t.procs| }

  ghost function Next(t: Table, step: Step): (r: Table)
    requires Enabled(t, step)
    ensures |r.procs| == |t.procs| && r.init == t.init
  {
    var ps := t.procs;
    match step
    case Alloc(cur, np) =>
      t.(procs := ps[np := ps[np].(state := EMBRYO, pid := t.nextpid)], nextpid := t.nextpid + 1, forking := t.forking[cur := np])
    case ForkFails(cur) =>
      t.(procs := ps[t.forking[cur] := ps[t.forking[cur]].(state := UNUSED)], forking := t.forking - {cur})
    case SetParent(cur) => t.(procs := ps[t.forking[cur] := ps[t.forking[cur]].(parent := Some(cur))])
    case ForkDone(cur) =>
      t.(procs := ps[t.forking[cur] := ps[t.forking[cur]].(state := RUNNABLE)], forking := t.forking - {cur})
    case Exit(cur) => t.(procs := ExitTable(ps, cur, t.init), exited := t.exited + [ps[cur].pid])
    case Wait(cur) =>
      (match ScanFrom(ps, cur, 0)
       case Zombie(k) => if k < |ps| then t.(procs := Reap(ps, k), reaped := t.reaped + [ps[k].pid]) else t
       case Children => if ps[cur].killed then t else t.(procs := Doze(ps, cur, OnProc(cur)))
       case Childless => t)
    case Dispatch(p) => t.(procs := ps[p := ps[p].(state := RUNNING, chan := None)])
    case Yield(cur) => t.(procs := ps[cur := ps[cur].(state := RUNNABLE)])
    case SleepOn(cur, id) => t.(procs := Doze(ps, cur, Other(id)))
    case Wakeup(id) => t.(procs := Woken(ps, Other(id)))
    case Kill(pid) =>
      var i := Slot(ps, pid, 0);
      if i < |ps| then t.(procs := ps[i := Killed(ps[i])]) else t
  }

  // -------------------------------------------------------------- invariant

  ghost predicate IsZombieOf(ps: seq<Proc>, k: nat, i: nat) {
    k < |ps| && ps[k].parent == Some(i) && ps[k].state == ZOMBIE
  }

  predicate Active(st: ProcState) { st != UNUSED && st != EMBRYO && st != ZOMBIE }

  /** Parents are there to be returned to: no process has an UNUSED, EMBRYO or ZOMBIE parent, and
      every process but init, alive or zombie, has one. */
  ghost predicate ParentOk(ps: seq<Proc>, init: nat, i: nat)
    requires i < |ps|
  {
    && (ps[i].parent.Some? ==> ps[i].parent.value != i && ps[i].parent.value < |ps| && Active(ps[ps[i].parent.value].state))
    && (ps[i].state == UNUSED ==> ps[i].parent == None)
    && (ps[i].state != UNUSED && ps[i].state != EMBRYO && i != init ==> ps[i].parent.Some?)
  }

  ghost predicate Parents(ps: seq<Proc>, init: nat) {
    forall i :: 0 <= i < |ps| ==> ParentOk(ps, init, i)
  }

  ghost predicate Waiting(ps: seq<Proc>, i: nat) {
    i < |ps| && ps[i].state == SLEEPING && ps[i].chan == Some(OnProc(i))
  }

  /** Nobody sleeps in wait while a child of theirs is a zombie; and only wait sleeps on a process. */
  ghost predicate WaitersWait(ps: seq<Proc>) {
    && (forall i: nat, k: nat :: Waiting(ps, i) ==> !IsZombieOf(ps, k, i))
    && (forall i :: 0 <= i < |ps| && ps[i].state == SLEEPING ==> ps[i].chan.Some? && (ps[i].chan.value.OnProc? ==> ps[i].chan.value.i == i))
  }

  predicate IsEmbryoOf(p: Proc, c: nat) { p.state == EMBRYO && (p.parent == None || p.parent == Some(c)) }

  /** init is there, without a parent; a process inside fork has an embryo of its own. */
  ghost predicate ForksOk(t: Table) {
    && t.init < |t.procs| && Active(t.procs[t.init].state) && t.procs[t.init].parent == None
    && (forall c :: c in t.forking ==> Forks(t, c) && c < |t.procs| && Active(t.procs[c].state) && IsEmbryoOf(t.procs[t.forking[c]], c))
    && (forall c, d :: c in t.forking && d in t.forking && t.forking[c] == t.forking[d] ==> c == d)
  }

  ghost predicate Tree(t: Table) { Parents(t.procs, t.init) && WaitersWait(t.procs) && ForksOk(t) }

  // ------------------------------------------------------------------- exit

  /** What exit's loop amounts to, slot by slot. */
  lemma {:induction false} AdoptedAt(ps: seq<Proc>, cur: nat, init: nat, k: nat, i: nat)
    requires k <= |ps| && i < |ps| && cur != init
    ensures var q := if i < k && ps[i].parent == Some(cur) then ps[i].(parent := Some(init)) else ps[i];
            Adopted(ps, cur, init, k)[i] ==
            if exists j: nat :: j < k && IsZombieOf(ps, j, cur) then Wake(q, OnProc(init)) else q
    decreases k
  {
    if k > 0 {
      AdoptedAt(ps, cur, init, k - 1, i);
      AdoptedAt(ps, cur, init, k - 1, k - 1);
      assert ps[k - 1].parent == Some(cur) && ps[k - 1].state == ZOMBIE <==> IsZombieOf(ps, k - 1, cur);
    }
  }

  /** exit wakes those asleep on its parent, and those asleep on init if that gets a zombie child. */
  ghost predicate ExitRouses(ps: seq<Proc>, cur: nat, init: nat, chan: Option<Chan>)
    requires cur < |ps|
  {
    && chan.Some? && chan.value.OnProc?
    && (ps[cur].parent == Some(chan.value.i) || (chan.value.i == init && exists j: nat :: IsZombieOf(ps, j, cur)))
  }

  /** What exit amounts to, slot by slot and field by field. */
  lemma ExitAt(ps: seq<Proc>, cur: nat, init: nat, i: nat)
    requires cur < |ps| && i < |ps| && cur != init
    ensures var e, p := ExitTable(ps, cur, init)[i], ps[i];
            && e.pid == p.pid && e.chan == p.chan && e.killed == p.killed
            && e.parent == (if p.parent == Some(cur) then Some(init) else p.parent)
            && e.state == if i == cur then ZOMBIE else if p.state == SLEEPING && ExitRouses(ps, cur, init, p.chan) then RUNNABLE else p.state
  {
    var a := WakeParent(ps, cur);
    AdoptedAt(a, cur, init, |ps|, i);
    assert forall j: nat :: j < |ps| ==> (IsZombieOf(a, j, cur) <==> IsZombieOf(ps, j, cur));
    if exists j: nat :: IsZombieOf(ps, j, cur) {
      var j: nat :| IsZombieOf(ps, j, cur);
      assert j < |ps| && IsZombieOf(a, j, cur);
    }
  }

  lemma ExitKeepsTree(t: Table, cur: nat)
    requires Tree(t) && Enabled(t, Exit(cur))
    ensures Tree(Next(t, Exit(cur)))
  {
    var ps, es := t.procs, ExitTable(t.procs, cur, t.init);
    forall i | 0 <= i < |ps| ensures ExitEffect(ps, es, cur, t.init, i) {
      ExitAt(ps, cur, t.init, i);
    }
    ExitKeepsWaiters(t, cur, es);
    ExitKeepsParents(t, cur, es);
  }

  ghost predicate ExitEffect(ps: seq<Proc>, es: seq<Proc>, cur: nat, init: nat, i: nat)
    requires |ps| == |es| && cur < |ps| && i < |ps|
  {
    var e, p := es[i], ps[i];
    && e.pid == p.pid && e.chan == p.chan && e.killed == p.killed
    && e.parent == (if p.parent == Some(cur) then Some(init) else p.parent)
    && (i == cur ==> e.state == ZOMBIE)
    && (i != cur ==> e.state == p.state || (p.state == SLEEPING && e.state == RUNNABLE))
    && (i != cur && Waiting(ps, i) && (ps[cur].parent == Some(i) || (i == init && exists j: nat :: IsZombieOf(ps, j, cur))) ==>
          e.state == RUNNABLE)
  }

  lemma ExitKeepsWaiters(t: Table, cur: nat, es: seq<Proc>)
    requires Tree(t) && Enabled(t, Exit(cur)) && |es| == |t.procs|
    requires forall i :: 0 <= i < |es| ==> ExitEffect(t.procs, es, cur, t.init, i)
    ensures WaitersWait(es)
  {
    var ps := t.procs;
    forall i: nat, k: nat | Waiting(es, i) && k < |es| ensures !IsZombieOf(es, k, i) {
      assert ExitEffect(ps, es, cur, t.init, i) && ExitEffect(ps, es, cur, t.init, k) && ParentOk(ps, t.init, cur);
      assert Waiting(ps, i) && !IsZombieOf(ps, k, i) && (i == t.init ==> !IsZombieOf(ps, k, cur));
    }
    forall i | 0 <= i < |es| && es[i].state == SLEEPING
      ensures es[i].chan.Some? && (es[i].chan.value.OnProc? ==> es[i].chan.value.i == i)
    {
      assert ExitEffect(ps, es, cur, t.init, i);
    }
  }

  lemma ExitKeepsParents(t: Table, cur: nat, es: seq<Proc>)
    requires Tree(t) && Enabled(t, Exit(cur)) && |es| == |t.procs|
    requires forall i :: 0 <= i < |es| ==> ExitEffect(t.procs, es, cur, t.init, i)
    ensures Parents(es, t.init) && ForksOk(t.(procs := es))
  {
    var ps := t.procs;
    forall i | 0 <= i < |es| ensures Active(es[i].state) == (i != cur && Active(ps[i].state)) && (i != cur && !Active(ps[i].state) ==> es[i].state == ps[i].state) {
      assert ExitEffect(ps, es, cur, t.init, i);
    }
    forall i | 0 <= i < |es| ensures ParentOk(es, t.init, i) {
      assert ExitEffect(ps, es, cur, t.init, i) && ParentOk(ps, t.init, i);
    }
    assert ExitEffect(ps, es, cur, t.init, t.init);
    forall c | c in t.forking ensures IsEmbryoOf(es[t.forking[c]], c) {
      assert ExitEffect(ps, es, cur, t.init, t.forking[c]);
    }
  }

  // ------------------------------------------------------------------- wait

  lemma {:induction false} ScanFinds(ps: seq<Proc>, cur: nat, k: nat)
    requires k <= |ps|
    ensures var r := ScanFrom(ps, cur, k);
            && (r.Zombie? ==> k <= r.k < |ps| && IsZombieOf(ps, r.k, cur) && forall i :: k <= i < r.k ==> !IsZombieOf(ps, i, cur))
            && (!r.Zombie? ==> forall i :: k <= i < |ps| ==> !IsZombieOf(ps, i, cur))
            && (r.Childless? <==> forall i :: k <= i < |ps| ==> ps[i].parent != Some(cur))
    decreases |ps| - k
  {
    if k < |ps| {
      ScanFinds(ps, cur, k + 1);
      var r := ScanFrom(ps, cur, k);
    }
  }

  /** Changing one slot: enough that nobody loses a parent, no zombie appears, and a process going
      to sleep in wait has no zombie child. */
  lemma OneSlot(ps: seq<Proc>, init: nat, i: nat, q: Proc)
    requires Parents(ps, init) && WaitersWait(ps) && i < |ps|
    requires q.parent.Some? ==> q.parent.value != i && q.parent.value < |ps| && Active(ps[q.parent.value].state)
    requires q.state == UNUSED ==> q.parent == None
    requires q.state != UNUSED && q.state != EMBRYO && i != init ==> q.parent.Some?
    requires Active(q.state) || forall k :: 0 <= k < |ps| ==> ps[k].parent != Some(i)
    requires q.state == ZOMBIE ==> ps[i].state == ZOMBIE && q.parent == ps[i].parent
    requires q.state == SLEEPING ==> q.chan.Some? && (q.chan.value.OnProc? ==> q.chan.value.i == i)
    requires q.state == SLEEPING && q.chan == Some(OnProc(i)) ==> forall k: nat :: !IsZombieOf(ps, k, i)
    ensures Parents(ps[i := q], init) && WaitersWait(ps[i := q])
  {
    var r := ps[i := q];
    forall j | 0 <= j < |ps| ensures ParentOk(r, init, j) {
      assert ParentOk(ps, init, j);
    }
    forall j: nat, k: nat | Waiting(r, j) && k < |ps| ensures !IsZombieOf(r, k, j) {
      assert j != i ==> Waiting(ps, j);
      assert !IsZombieOf(ps, k, j);
    }
  }

  lemma WaitKeepsTree(t: Table, cur: nat)
    requires Tree(t) && Enabled(t, Wait(cur))
    ensures Tree(Next(t, Wait(cur)))
  {
    var ps := t.procs;
    ScanFinds(ps, cur, 0);
    assert ParentOk(ps, t.init, cur);
    match ScanFrom(ps, cur, 0)
    case Zombie(k) =>
      forall j | 0 <= j < |ps| ensures ps[j].parent != Some(k) {
        assert ParentOk(ps, t.init, j);
      }
      OneSlot(ps, t.init, k, Reap(ps, k)[k]);
    case Children =>
      assert forall k: nat :: !IsZombieOf(ps, k, cur);
      OneSlot(ps, t.init, cur, Doze(ps, cur, OnProc(cur))[cur]);
    case Childless =>
  }

  lemma WokenKeepsTree(t: Table, chan: Chan)
    requires Tree(t)
    ensures Tree(t.(procs := Woken(t.procs, chan)))
  {
    var ps, ws := t.procs, Woken(t.procs, chan);
    forall i | 0 <= i < |ps| ensures ParentOk(ws, t.init, i) {
      assert ParentOk(ps, t.init, i);
    }
    forall i: nat, k: nat | Waiting(ws, i) && k < |ps| ensures !IsZombieOf(ws, k, i) {
      assert Waiting(ps, i) && !IsZombieOf(ps, k, i);
    }
  }

  /** The steps of fork. */
  lemma ForkKeepsTree(t: Table, step: Step)
    requires Tree(t) && Enabled(t, step) && (step.Alloc? || step.ForkFails? || step.SetParent? || step.ForkDone?)
    ensures Tree(Next(t, step))
  {
    var ps := t.procs;
    var i := if step.Alloc? then step.np else t.forking[step.cur];
    forall k | 0 <= k < |ps| ensures ps[k].parent != Some(i) {
      assert ParentOk(ps, t.init, k);
    }
    assert ParentOk(ps, t.init, i);
    OneSlot(ps, t.init, i, Next(t, step).procs[i]);
    ForkKeepsForks(t, step);
  }

  lemma ForkKeepsForks(t: Table, step: Step)
    requires Tree(t) && Enabled(t, step) && (step.Alloc? || step.ForkFails? || step.SetParent? || step.ForkDone?)
    ensures ForksOk(Next(t, step))
  {
    if step.Alloc? {
      AllocKeepsForks(t, step);
    } else {
      assert ParentOk(t.procs, t.init, t.forking[step.cur]);
    }
  }

  lemma AllocKeepsForks(t: Table, step: Step)
    requires Tree(t) && Enabled(t, step) && step.Alloc?
    ensures ForksOk(Next(t, step))
  {
    assert ParentOk(t.procs, t.init, step.np);
  }

  lemma SwitchKeepsTree(t: Table, step: Step)
    requires Tree(t) && Enabled(t, step) && (step.Dispatch? || step.Yield? || step.SleepOn?)
    ensures Tree(Next(t, step))
  {
    var ps := t.procs;
    var i := if step.Dispatch? then step.p else step.cur;
    assert ParentOk(ps, t.init, i);
    OneSlot(ps, t.init, i, Next(t, step).procs[i]);
  }

  lemma KillKeepsTree(t: Table, pid: nat)
    requires Tree(t)
    ensures Tree(Next(t, Kill(pid)))
  {
    var ps, i := t.procs, Slot(t.procs, pid, 0);
    if i < |ps| {
      assert ParentOk(ps, t.init, i);
      if !Active(ps[i].state) {
        forall k | 0 <= k < |ps| ensures ps[k].parent != Some(i) {
          assert ParentOk(ps, t.init, k);
        }
      }
      OneSlot(ps, t.init, i, Killed(ps[i]));
    }
  }

  // ---------------------------------------------------------- exit once, reap once

  ghost predicate IsZombie(t: Table, i: nat, pid: nat) {
    i < |t.procs| && t.procs[i].state == ZOMBIE && t.procs[i].pid == pid
  }

  /** The pid of a slot in use is its own, is not left over in an unused slot, and says whether the
      process has exited. */
  ghost predicate PidOk(t: Table, i: nat)
    requires i < |t.procs|
  {
    var p := t.procs[i];
    && p.pid < t.nextpid
    && (p.state != UNUSED ==>
          && 0 < p.pid && (p.state == ZOMBIE <==> p.pid in t.exited) && p.pid !in t.reaped
          && forall j :: 0 <= j < |t.procs| && j != i ==> t.procs[j].pid != p.pid)
  }

  /** Nobody exits or is reaped twice; the zombies are exactly those who exited and were not reaped. */
  ghost predicate Ledger(t: Table) {
    && Distinct(t.exited) && Distinct(t.reaped)
    && (forall x :: x in t.reaped ==> x in t.exited)
    && (forall x :: x in t.exited ==> x < t.nextpid) && 0 < t.nextpid
    && (forall x :: x in t.exited && x !in t.reaped ==> exists i: nat :: IsZombie(t, i, x))
    && (forall i :: 0 <= i < |t.procs| ==> PidOk(t, i))
  }

  /** Steps that neither hand out a pid nor end a process. */
  lemma SamePids(t: Table, r: Table)
    requires Ledger(t) && |r.procs| == |t.procs|
    requires r.nextpid == t.nextpid && r.exited == t.exited && r.reaped == t.reaped
    requires forall i :: 0 <= i < |t.procs| ==>
               && r.procs[i].pid == t.procs[i].pid
               && (r.procs[i].state == UNUSED <==> t.procs[i].state == UNUSED)
               && (r.procs[i].state == ZOMBIE <==> t.procs[i].state == ZOMBIE)
    ensures Ledger(r)
  {
    forall i | 0 <= i < |r.procs| ensures PidOk(r, i) {
      assert PidOk(t, i);
    }
    forall x | x in t.exited && x !in t.reaped ensures exists i: nat :: IsZombie(r, i, x) {
      var i: nat :| IsZombie(t, i, x);
      assert IsZombie(r, i, x);
    }
  }

  lemma AllocKeepsLedger(t: Table, step: Step)
    requires Ledger(t) && ForksOk(t) && Enabled(t, step) && (step.Alloc? || step.ForkFails?)
    ensures Ledger(Next(t, step))
  {
    var r := Next(t, step);
    forall i | 0 <= i < |t.procs| ensures t.procs[i].pid < t.nextpid {
      assert PidOk(t, i);
    }
    forall i | 0 <= i < |r.procs| ensures PidOk(r, i) {
      assert PidOk(t, i);
    }
    forall x | x in r.exited && x !in r.reaped ensures exists i: nat :: IsZombie(r, i, x) {
      var i: nat :| IsZombie(t, i, x);
      assert IsZombie(r, i, x);
    }
  }

  lemma ExitKeepsLedger(t: Table, cur: nat)
    requires Ledger(t) && Enabled(t, Exit(cur)) && t.init < |t.procs|
    ensures Ledger(Next(t, Exit(cur)))
  {
    var r := Next(t, Exit(cur));
    forall i | 0 <= i < |t.procs| ensures r.procs[i].pid == t.procs[i].pid && (i != cur ==>
        (r.procs[i].state == UNUSED <==> t.procs[i].state == UNUSED) && (r.procs[i].state == ZOMBIE <==> t.procs[i].state == ZOMBIE))
    {
      ExitAt(t.procs, cur, t.init, i);
    }
    ExitAt(t.procs, cur, t.init, cur);
    var pid := t.procs[cur].pid;
    assert PidOk(t, cur);
    forall i | 0 <= i < |r.procs| ensures PidOk(r, i) {
      assert PidOk(t, i);
    }
    forall x | x in r.exited && x !in r.reaped ensures exists i: nat :: IsZombie(r, i, x) {
      if x == pid {
        assert IsZombie(r, cur, x);
      } else {
        var i: nat :| IsZombie(t, i, x);
        assert IsZombie(r, i, x);
      }
    }
  }

  lemma ReapKeepsLedger(t: Table, k: nat)
    requires Ledger(t) && k < |t.procs| && t.procs[k].state == ZOMBIE
    ensures Ledger(t.(procs := Reap(t.procs, k), reaped := t.reaped + [t.procs[k].pid]))
  {
    var r := t.(procs := Reap(t.procs, k), reaped := t.reaped + [t.procs[k].pid]);
    assert PidOk(t, k);
    forall i | 0 <= i < |r.procs| ensures PidOk(r, i) {
      assert PidOk(t, i);
    }
    forall x | x in r.exited && x !in r.reaped ensures exists i: nat :: IsZombie(r, i, x) {
      var i: nat :| IsZombie(t, i, x);
      assert IsZombie(r, i, x);
    }
  }

  // -------------------------------------------------------------- every run

  ghost predicate Inv(t: Table) { Tree(t) && Ledger(t) }

  lemma StepKeepsTree(t: Table, step: Step)
    requires Inv(t) && Enabled(t, step)
    ensures Tree(Next(t, step))
  {
    if step.Exit? {
      ExitKeepsTree(t, step.cur);
    } else if step.Wait? {
      WaitKeepsTree(t, step.cur);
    } else if step.Wakeup? {
      WokenKeepsTree(t, Other(step.id));
    } else if step.Kill? {
      KillKeepsTree(t, step.pid);
    } else if step.Dispatch? || step.Yield? || step.SleepOn? {
      SwitchKeepsTree(t, step);
    } else {
      ForkKeepsTree(t, step);
    }
  }

  lemma StepKeepsLedger(t: Table, step: Step)
    requires Inv(t) && Enabled(t, step)
    ensures Ledger(Next(t, step))
  {
    if step.Exit? {
      ExitKeepsLedger(t, step.cur);
    } else if step.Alloc? || step.ForkFails? {
      AllocKeepsLedger(t, step);
    } else {
      if step.Wait? {
        ScanFinds(t.procs, step.cur, 0);
      }
      if step.Wait? && ScanFrom(t.procs, step.cur, 0).Zombie? {
        ReapKeepsLedger(t, ScanFrom(t.procs, step.cur, 0).k);
      } else {
        SamePids(t, Next(t, step));
      }
    }
  }

  /** After userinit: one process, init, in an otherwise empty table. */
  ghost predicate Init(t: Table) {
    && |t.procs| == NPROC && t.init < NPROC && t.nextpid == 2 && t.forking == map[] && t.exited == [] && t.reaped == []
    && t.procs[t.init] == Proc(RUNNABLE, 1, None, None, false)
    && forall i :: 0 <= i < NPROC && i != t.init ==> t.procs[i] == Proc(UNUSED, 0, None, None, false)
  }

  ghost predicate Takes(t: Table, step: Step, r: Table) { Enabled(t, step) && r == Next(t, step) }

  ghost predicate Follows(t: Table, r: Table) { exists step :: Takes(t, step, r) }

  ghost predicate FollowsAt(ts: seq<Table>, i: nat)
    requires i + 1 < |ts|
  {
    Follows(ts[i], ts[i + 1])
  }

  ghost predicate Run(ts: seq<Table>) {
    |ts| > 0 && Init(ts[0]) && forall i: nat :: i + 1 < |ts| ==> FollowsAt(ts, i)
  }

  lemma {:induction false} RunKeepsInv(ts: seq<Table>, i: nat)
    requires Run(ts) && i < |ts|
    ensures Inv(ts[i]) && |ts[i].procs| == NPROC
  {
    if i == 0 {
      forall k | 0 <= k < NPROC ensures ParentOk(ts[0].procs, ts[0].init, k) && PidOk(ts[0], k) {
      }
    } else {
      RunKeepsInv(ts, i - 1);
      assert FollowsAt(ts, i - 1);
      var step :| Takes(ts[i - 1], step, ts[i]);
      StepKeepsTree(ts[i - 1], step);
      StepKeepsLedger(ts[i - 1], step);
    }
  }

  // ---------------------------------------------------------- sleep and wakeup

  predicate Asleep(t: Table, p: nat, id: nat) {
    p < |t.procs| && t.procs[p].state == SLEEPING && t.procs[p].chan == Some(Other(id))
  }

  lemma FallsAsleep(t: Table, step: Step, p: nat, id: nat)
    requires Enabled(t, step) && t.init < |t.procs| && !Asleep(t, p, id) && Asleep(Next(t, step), p, id)
    ensures step == SleepOn(p, id)
  {
    if step.Exit? {
      ExitAt(t.procs, step.cur, t.init, p);
    }
  }

  /** Nobody sleeps through a wakeup: whoever is asleep on a channel went to sleep after the last one. */
  lemma {:induction false} SleptSince(ts: seq<Table>, i: nat, j: nat, p: nat, id: nat)
    requires Run(ts) && i < j < |ts| && Takes(ts[i], Wakeup(id), ts[i + 1]) && Asleep(ts[j], p, id)
    ensures exists k: nat :: i < k < j && Takes(ts[k], SleepOn(p, id), ts[k + 1])
    decreases j
  {
    assert j > i + 1;
    if Asleep(ts[j - 1], p, id) {
      SleptSince(ts, i, j - 1, p, id);
    } else {
      RunKeepsInv(ts, j - 1);
      assert FollowsAt(ts, j - 1);
      var step :| Takes(ts[j - 1], step, ts[j]);
      FallsAsleep(ts[j - 1], step, p, id);
      assert Takes(ts[j - 1], SleepOn(p, id), ts[j - 1 + 1]);
    }
  }

  // ------------------------------------------------------------------- kill

  predicate InUse(p: Proc) { p.state != UNUSED }

  lemma {:induction false} SlotIsFirst(ps: seq<Proc>, pid: nat, k: nat)
    requires k <= |ps|
    ensures forall j :: k <= j < Slot(ps, pid, k) ==> ps[j].pid != pid
    decreases |ps| - k
  {
    if k < |ps| && ps[k].pid != pid {
      SlotIsFirst(ps, pid, k + 1);
    }
  }

  /** kill(pid) marks the process with that pid and leaves it not asleep, and does nothing to any other
      process. */
  lemma KillReaches(ts: seq<Table>, i: nat, pid: nat, k: nat)
    requires Run(ts) && i < |ts| && k < NPROC
    ensures |ts[i].procs| == NPROC && |Next(ts[i], Kill(pid)).procs| == NPROC
    ensures var p, q := ts[i].procs[k], Next(ts[i], Kill(pid)).procs[k];
            && q.pid == p.pid && q.parent == p.parent && q.chan == p.chan
            && (InUse(p) && p.pid == pid ==> q.killed && q.state == if p.state == SLEEPING then RUNNABLE else p.state)
            && (InUse(p) && p.pid != pid ==> q == p)
  {
    RunKeepsInv(ts, i);
    SlotIsFirst(ts[i].procs, pid, 0);
    assert PidOk(ts[i], k);
  }

  /** Some unused slot has that pid: 0, or the one of a fork that failed. */
  ghost predicate Leftover(ps: seq<Proc>, pid: nat) { exists k: nat :: k < |ps| && !InUse(ps[k]) && ps[k].pid == pid }

  /** The next process to get any of the unused slots will not be born marked as killed. */
  ghost predicate Unmarked(t: Table) { forall k :: 0 <= k < |t.procs| && !InUse(t.procs[k]) ==> !t.procs[k].killed }

  /** Since allocproc does not clear the mark, new processes are safe from it exactly as long as nobody
      kills a pid that is left over in an unused slot, and no fork fails after its child was killed. */
  lemma StaysUnmarked(t: Table, step: Step)
    requires Inv(t) && Unmarked(t) && Enabled(t, step)
    ensures Unmarked(Next(t, step)) <==>
            !(step.Kill? && Leftover(t.procs, step.pid)) && !(step.ForkFails? && t.procs[t.forking[step.cur]].killed)
  {
    var ps, r := t.procs, Next(t, step);
    match step
    case Kill(pid) =>
      var k := Slot(ps, pid, 0);
      SlotIsFirst(ps, pid, 0);
      if Leftover(ps, pid) {
        var j: nat :| j < |ps| && !InUse(ps[j]) && ps[j].pid == pid;
        assert PidOk(t, k);
        assert !InUse(r.procs[k]) && r.procs[k].killed;
      }
    case ForkFails(cur) =>
      var k := t.forking[cur];
      assert !InUse(r.procs[k]) && r.procs[k].killed == ps[k].killed;
    case Exit(cur) =>
      forall k | 0 <= k < |ps| ensures InUse(r.procs[k]) == InUse(ps[k]) && r.procs[k].killed == ps[k].killed {
        ExitAt(ps, cur, t.init, k);
      }
    case Wait(cur) => ScanFinds(ps, cur, 0);
    case _ =>
  }

  /** kill(0), as the first thing that happens: the next child is born marked, though nobody killed it. */
  lemma BornKilled(t: Table) returns (ts: seq<Table>, np: nat)
    requires Init(t)
    ensures Run(ts) && |ts| == 4 && Takes(ts[1], Kill(0), ts[2]) && Takes(ts[2], Alloc(t.init, np), ts[3])
    ensures ts[0] == t && np < |ts[3].procs| && ts[3].procs[np].state == EMBRYO && ts[3].procs[np].killed
    ensures ts[3].procs[np].pid == 2
  {
    np := Slot(t.procs, 0, 0);
    var other: nat := if t.init == 0 then 1 else 0;
    SlotIsFirst(t.procs, 0, 0);
    assert t.procs[other].pid == 0;
    var a := Next(t, Dispatch(t.init));
    SlotIsFirst(a.procs, 0, 0);
    assert Slot(a.procs, 0, 0) == np;
    var b := Next(a, Kill(0));
    var c := Next(b, Alloc(t.init, np));
    ts := [t, a, b, c];
    assert Takes(t, Dispatch(t.init), a) && Takes(a, Kill(0), b) && Takes(b, Alloc(t.init, np), c);
    assert FollowsAt(ts, 0) && FollowsAt(ts, 1) && FollowsAt(ts, 2);
  }

  /** Whenever ptable.lock is free: whoever sleeps in wait has no zombie child to collect, every
      process but init has a living parent to collect it, and every process that exited has been
      collected at most once and, if not yet, is still in the table as a zombie. */
  lemma ExitAndWait(ts: seq<Table>, i: nat, p: nat, x: nat)
    requires Run(ts) && i < |ts| && p < NPROC
    ensures |ts[i].procs| == NPROC
    ensures Waiting(ts[i].procs, p) ==> forall k: nat :: !IsZombieOf(ts[i].procs, k, p)
    ensures ParentOk(ts[i].procs, ts[i].init, p)
    ensures Distinct(ts[i].exited) && Distinct(ts[i].reaped) && (x in ts[i].reaped ==> x in ts[i].exited)
    ensures x in ts[i].exited && x !in ts[i].reaped <==> exists k: nat :: IsZombie(ts[i], k, x)
  {
    RunKeepsInv(ts, i);
    if exists k: nat :: IsZombie(ts[i], k, x) {
      var k: nat :| IsZombie(ts[i], k, x);
      assert PidOk(ts[i], k);
    }
  }

  // ---------------------------------------------------------------- the code

  /** Slot k held cur's first zombie child, with that pid, and is now free for another process. */
  ghost predicate Collected(ps: seq<Proc>, qs: seq<Proc>, cur: nat, k: nat, pid: nat) {
    && IsZombieOf(ps, k, cur) && (forall j :: 0 <= j < k ==> !IsZombieOf(ps, j, cur)) && ps[k].pid == pid
    && |qs| == |ps| && (forall j :: 0 <= j < |ps| && j != k ==> qs[j] == ps[j])
    && qs[k].state == UNUSED && qs[k].pid == 0 && qs[k].parent == None && !qs[k].killed
  }

  /** A pass of wait returns a child's pid, returns the error code, or sleeps to try again. */
  datatype WaitResult = Reaped(pid: nat) | Failed | Slept

  class Ptable {
    var procs: seq<Proc>
    var nextpid: nat
    const init: nat

    constructor (n: nat)
      requires n < NPROC
      ensures |procs| == NPROC && init == n && nextpid == 2
      ensures procs[n] == Proc(RUNNABLE, 1, None, None, false)
      ensures forall i :: 0 <= i < NPROC && i != n ==> procs[i] == Proc(UNUSED, 0, None, None, false)
    {
      init, nextpid := n, 2;
      procs := seq(NPROC, i => if i == n then Proc(RUNNABLE, 1, None, None, false) else Proc(UNUSED, 0, None, None, false));
    }

    method Wakeup1(chan: Chan)
      modifies this`procs
      ensures procs == Woken(old(procs), chan)
      ensures forall i :: 0 <= i < |procs| ==>
                procs[i] == if old(procs[i].state == SLEEPING && procs[i].chan == Some(chan))
                            then old(procs[i]).(state := RUNNABLE) else old(procs[i])
    {
      var i := 0;
      while i < |procs|
        invariant i <= |procs| == |old(procs)|
        invariant forall j :: 0 <= j < |procs| ==> procs[j] == if j < i then Wake(old(procs)[j], chan) else old(procs)[j]
      {
        if procs[i].state == SLEEPING && procs[i].chan == Some(chan) {
          procs := procs[i := procs[i].(state := RUNNABLE)];
        }
        i := i + 1;
      }
    }

    /** The first unused slot, at, becomes an embryo with a new pid; stack tells whether kalloc has a page
        for its kernel stack. Without one the slot is given back, but the pid is used up. */
    method Allocproc(stack: bool) returns (np: Option<nat>, ghost at: nat)
      modifies this
      ensures at <= |old(procs)| && forall i :: 0 <= i < at ==> old(procs)[i].state != UNUSED
      ensures at == |old(procs)| ==> np.None? && procs == old(procs) && nextpid == old(nextpid)
      ensures at < |old(procs)| ==>
                && old(procs)[at].state == UNUSED && np == (if stack then Some(at) else None)
                && nextpid == old(nextpid) + 1
                && procs == old(procs)[at := old(procs)[at].(state := if stack then EMBRYO else UNUSED, pid := old(nextpid))]
    {
      var i := 0;
      while i < |procs|
        invariant i <= |procs| && forall j :: 0 <= j < i ==> procs[j].state != UNUSED
      {
        if procs[i].state == UNUSED {
          procs := procs[i := procs[i].(state := EMBRYO, pid := nextpid)];
          nextpid := nextpid + 1;
          if !stack {
            procs := procs[i := procs[i].(state := UNUSED)];
            return None, i;
          }
          return Some(i), i;
        }
        i := i + 1;
      }
      np, at := None, |procs|;
    }

    method Exit(cur: nat)
      requires cur < |procs| && cur != init
      modifies this`procs
      ensures procs == ExitTable(old(procs), cur, init)
    {
      if procs[cur].parent.Some? {
        Wakeup1(OnProc(procs[cur].parent.value));
      }
      ghost var ps := procs;
      var i := 0;
      while i < |procs|
        invariant i <= |procs| == |ps| && procs == Adopted(ps, cur, init, i)
      {
        if procs[i].parent == Some(cur) {
          procs := procs[i := procs[i].(parent := Some(init))];
          if procs[i].state == ZOMBIE {
            Wakeup1(OnProc(init));
          }
        }
        i := i + 1;
      }
      procs := procs[cur := procs[cur].(state := ZOMBIE)];
    }

    /** One pass of wait's outer loop. */
    method Wait(cur: nat) returns (r: WaitResult)
      requires cur < |procs|
      modifies this`procs
      ensures match ScanFrom(old(procs), cur, 0)
              case Zombie(k) => k < |old(procs)| && procs == Reap(old(procs), k) && r == Reaped(old(procs)[k].pid)
              case Children => if old(procs)[cur].killed then procs == old(procs) && r == Failed
                               else procs == Doze(old(procs), cur, OnProc(cur)) && r == Slept
              case Childless => procs == old(procs) && r == Failed
      ensures r.Reaped? ==> exists k: nat :: Collected(old(procs), procs, cur, k, r.pid)
      ensures r.Slept? ==>
                && procs == old(procs)[cur := procs[cur]] && !old(procs)[cur].killed
                && procs[cur] == old(procs)[cur].(state := SLEEPING, chan := Some(OnProc(cur)))
      ensures r.Slept? || r.Failed? ==> forall k: nat :: !IsZombieOf(old(procs), k, cur)
      ensures r.Failed? ==>
                procs == old(procs) && (procs[cur].killed || forall k :: 0 <= k < |procs| ==> procs[k].parent != Some(cur))
      ensures r.Slept? ==> exists k :: 0 <= k < |old(procs)| && old(procs)[k].parent == Some(cur)
    {
      ScanFinds(procs, cur, 0);
      var havekids := false;
      var i := 0;
      while i < |procs|
        invariant i <= |procs| && procs == old(procs)
        invariant ScanFrom(procs, cur, 0) ==
                  match ScanFrom(procs, cur, i) { case Zombie(k) => Zombie(k) case _ => if havekids then Children else ScanFrom(procs, cur, i) }
      {
        if procs[i].parent == Some(cur) {
          havekids := true;
          if procs[i].state == ZOMBIE {
            r := Reaped(procs[i].pid);
            procs := procs[i := procs[i].(pid := 0, parent := None, killed := false)];
            procs := procs[i := procs[i].(state := UNUSED)];
            assert Collected(old(procs), procs, cur, i, r.pid);
            return;
          }
        }
        i := i + 1;
      }
      if !havekids || procs[cur].killed {
        r := Failed;
      } else {
        procs := procs[cur := procs[cur].(chan := Some(OnProc(cur)))];
        procs := procs[cur := procs[cur].(state := SLEEPING)];
        r := Slept;
      }
    }

    method Kill(pid: nat) returns (found: bool)
      modifies this`procs
      ensures var i := Slot(old(procs), pid, 0);
              && found == (i < |old(procs)|)
              && procs == if found then old(procs)[i := Killed(old(procs)[i])] else old(procs)
      ensures found <==> exists k :: 0 <= k < |old(procs)| && old(procs)[k].pid == pid
      ensures |procs| == |old(procs)| && forall k :: 0 <= k < |procs| && old(procs)[k] != procs[k] ==>
                && procs[k].pid == pid && procs[k].killed && forall j :: 0 <= j < k ==> procs[j].pid != pid
      ensures found ==> exists k :: 0 <= k < |procs| && procs[k].pid == pid && procs[k].killed && procs[k].state != SLEEPING
    {
      SlotIsFirst(procs, pid, 0);
      var i := 0;
      while i < |procs|
        invariant i <= |procs| && procs == old(procs) && Slot(procs, pid, 0) == Slot(procs, pid, i)
      {
        if procs[i].pid == pid {
          procs := procs[i := procs[i].(killed := true)];
          if procs[i].state == SLEEPING {
            procs := procs[i := procs[i].(state := RUNNABLE)];
          }
          return true;
        }
        i := i + 1;
      }
      found := false;
    }
  }
}
