/** mailbox.c over the sleep and wakeup of proc.c, for any number of processes, as a state
    machine whose steps are the lock-protected pieces of ksend, krecv, sleep and wakeup. */
module Mailbox {
  import opened Blocks
  import opened Options

  const NUM_MAILBOXES: nat := 16
  const MAILBOX_MSGSIZE: nat := 128

  type Proc = nat
  type Message = seq<Byte>

  /** The arguments of ksend and krecv as the caller gives them; buf holds at least len bytes. */
  datatype Call = Send(chan: int, buf: Message, len: int) | Recv(chan: int, maxlen: int) {
    predicate Accepted() {
      && 0 <= chan < NUM_MAILBOXES
      && (Send? ==> 0 < len <= MAILBOX_MSGSIZE && len <= |buf|)
      && (Recv? ==> 0 < maxlen)
    }
  }

  /** Where a process is. Entering: wants the mailbox lock. Testing: holds it, at the while
      condition. In sleep: Yielding wants ptable.lock too, Handing holds both, Dozing only
      ptable.lock, Asleep none; Roused is RUNNABLE again. In wakeup: Waking wants ptable.lock,
      Rousing holds both. Leaving holds the mailbox lock, about to return. */
  datatype Pc =
    | Idle
    | Entering(call: Call) | Testing(call: Call)
    | Yielding(call: Call) | Handing(call: Call) | Dozing(call: Call) | Asleep(call: Call) | Roused(call: Call)
    | Waking(call: Call) | Rousing(call: Call) | Leaving(call: Call)
  {
    predicate HoldsBox() { Testing? || Yielding? || Handing? || Waking? || Rousing? || Leaving? }
    predicate HoldsPtable() { Handing? || Dozing? || Rousing? }
    /** Committed to sleeping, or asleep already. */
    predicate Sleepy() { Yielding? || Handing? || Dozing? || Asleep? }
  }

  datatype Box = Box(full: bool, msglen: nat, msg: Message, lock: Option<Proc>)

  /** One completed krecv: the message it took, the room it had, the bytes it copied out. */
  datatype Receipt = Receipt(msg: Message, maxlen: nat, got: Message)

  /** sent and received record, per mailbox, what the completed copies moved. */
  datatype State = State(
    boxes: seq<Box>, ptable: Option<Proc>, pcs: map<Proc, Pc>,
    sent: seq<seq<Message>>, received: seq<seq<Receipt>>)

  datatype Step =
    | Enter(p: Proc, call: Call) | Acquire(p: Proc) | Test(p: Proc) | LockPtable(p: Proc)
    | DropBox(p: Proc) | Doze(p: Proc) | WakeAll(p: Proc) | Resume(p: Proc) | Kill(p: Proc) | Leave(p: Proc)

  function PcOf(s: State, p: Proc): (pc: Pc) { if p in s.pcs then s.pcs[p] else Idle }

  ghost predicate Shape(s: State) {
    && |s.boxes| == |s.sent| == |s.received| == NUM_MAILBOXES
    && (forall p :: p in s.pcs && !s.pcs[p].Idle? ==> s.pcs[p].call.Accepted())
    && (forall c :: 0 <= c < NUM_MAILBOXES ==> |s.boxes[c].msg| == MAILBOX_MSGSIZE && s.boxes[c].msglen <= MAILBOX_MSGSIZE)
  }

  ghost predicate Enabled(s: State, step: Step) {
    && Shape(s)
    && var pc := PcOf(s, step.p);
    match step
    case Enter(_, _) => pc.Idle?
    case Acquire(_) => pc.Entering? && s.boxes[pc.call.chan].lock.None?
    case Test(_) => pc.Testing?
    case LockPtable(_) => (pc.Yielding? || pc.Waking?) && s.ptable.None?
    case DropBox(_) => pc.Handing?
    case Doze(_) => pc.Dozing?
    case WakeAll(_) => pc.Rousing?
    case Resume(_) => pc.Roused? && s.ptable.None?
    case Kill(_) => pc.Asleep? && s.ptable.None?
    case Leave(_) => pc.Leaving?
  }

  function Min(a: int, b: int): (m: int) { if a < b then a else b }

  /** ksend's and krecv's critical sections, from the while test on. */
  function Copy(s: State, p: Proc, call: Call): (r: State)
    requires Shape(s) && call.Accepted()
  {
    var c, b := call.chan, s.boxes[call.chan];
    if call.Send? then
      if b.full then s.(pcs := s.pcs[p := Yielding(call)])
      else
        s.(boxes := s.boxes[c := b.(msg := call.buf[..call.len] + b.msg[call.len..], msglen := call.len, full := true)],
        sent := s.sent[c := s.sent[c] + [call.buf[..call.len]]],
        pcs := s.pcs[p := Waking(call)])
    else
      if !b.full then s.(pcs := s.pcs[p := Yielding(call)])
      else
        var n := Min(b.msglen, call.maxlen);
        s.(boxes := s.boxes[c := b.(full := false, msglen := 0)],
        received := s.received[c := s.received[c] + [Receipt(b.msg[..b.msglen], call.maxlen, b.msg[..n])]],
        pcs := s.pcs[p := Waking(call)])
  }

  /** wakeup1: every process asleep on the mailbox becomes RUNNABLE. */
  function Awakened(pcs: map<Proc, Pc>, chan: int): (r: map<Proc, Pc>) {
    map q | q in pcs :: if pcs[q].Asleep? && pcs[q].call.chan == chan then Roused(pcs[q].call) else pcs[q]
  }

  function SetLock(s: State, c: nat, lock: Option<Proc>): (boxes: seq<Box>)
    requires c < |s.boxes|
  {
    s.boxes[c := s.boxes[c].(lock := lock)]
  }

  function Next(s: State, step: Step): (r: State)
    requires Enabled(s, step)
  {
    var p, pc := step.p, PcOf(s, step.p);
    match step
    case Enter(_, call) => if call.Accepted() then s.(pcs := s.pcs[p := Entering(call)]) else s
    case Acquire(_) => s.(boxes := SetLock(s, pc.call.chan, Some(p)), pcs := s.pcs[p := Testing(pc.call)])
    case Test(_) => Copy(s, p, pc.call)
    case LockPtable(_) =>
      s.(ptable := Some(p), pcs := s.pcs[p := if pc.Yielding? then Handing(pc.call) else Rousing(pc.call)])
    case DropBox(_) => s.(boxes := SetLock(s, pc.call.chan, None), pcs := s.pcs[p := Dozing(pc.call)])
    case Doze(_) => s.(ptable := None, pcs := s.pcs[p := Asleep(pc.call)])
    case WakeAll(_) => s.(ptable := None, pcs := Awakened(s.pcs, pc.call.chan)[p := Leaving(pc.call)])
    case Resume(_) => s.(pcs := s.pcs[p := Entering(pc.call)])
    case Kill(_) => s.(pcs := s.pcs[p := Roused(pc.call)])
    case Leave(_) => s.(boxes := SetLock(s, pc.call.chan, None), pcs := s.pcs[p := Idle])
  }

  // -------------------------------------------------------------- invariant

  /** Each lock is held by the process whose position says so, and by no other. */
  ghost predicate Locks(s: State) {
    && (forall p :: p in s.pcs && s.pcs[p].HoldsBox() ==> 0 <= s.pcs[p].call.chan < |s.boxes| && s.boxes[s.pcs[p].call.chan].lock == Some(p))
    && (forall p :: p in s.pcs && s.pcs[p].HoldsPtable() ==> s.ptable == Some(p))
    && (s.ptable.Some? ==> PcOf(s, s.ptable.value).HoldsPtable())
    && (forall c :: 0 <= c < |s.boxes| && s.boxes[c].lock.Some? ==>
          PcOf(s, s.boxes[c].lock.value).HoldsBox() && PcOf(s, s.boxes[c].lock.value).call.chan == c)
  }

  function Taken(rs: seq<Receipt>): (ms: seq<Message>)
    ensures |ms| == |rs|
  {
    seq(|rs|, i requires 0 <= i < |rs| => rs[i].msg)
  }

  /** What was sent is what was taken, in order, plus the message in the box; each receipt is the
      message cut to the room there was. */
  ghost predicate InOrder(s: State) {
    Shape(s) && forall c :: 0 <= c < NUM_MAILBOXES ==>
      && s.sent[c] == Taken(s.received[c]) + (if s.boxes[c].full then [s.boxes[c].msg[..s.boxes[c].msglen]] else [])
      && forall i :: 0 <= i < |s.received[c]| ==>
           var r := s.received[c][i]; r.got == r.msg[..Min(|r.msg|, r.maxlen)]
  }

  /** Someone has changed the box and is on the way to waking its sleepers. */
  ghost predicate WakeupDue(s: State, c: nat)
    requires c < |s.boxes|
  {
    s.boxes[c].lock.Some? && (PcOf(s, s.boxes[c].lock.value).Waking? || PcOf(s, s.boxes[c].lock.value).Rousing?)
  }

  /** Whoever is asleep or bound to sleep has reason to, or is about to be woken. */
  ghost predicate NoLostWakeup(s: State) {
    Shape(s) && forall p :: p in s.pcs && s.pcs[p].Sleepy() ==>
      var c := s.pcs[p].call.chan;
      s.boxes[c].full == s.pcs[p].call.Send? || WakeupDue(s, c)
  }

  ghost predicate Inv(s: State) { Locks(s) && InOrder(s) && NoLostWakeup(s) }

  // ------------------------------------------------------------------ proofs

  predicate InSleep(step: Step) { step.LockPtable? || step.DropBox? || step.Doze? }

  lemma StepKeepsShape(s: State, step: Step)
    requires Enabled(s, step)
    ensures Shape(Next(s, step))
  {
  }

  lemma StepKeepsLocks(s: State, step: Step)
    requires Locks(s) && Enabled(s, step)
    ensures Shape(Next(s, step)) && Locks(Next(s, step))
  {
    StepKeepsShape(s, step);
    match step
    case Enter(_, _) => IdleKeepsLocks(s, step);
    case Acquire(_) => EntryKeepsLocks(s, step);
    case Test(p) => TestKeepsLocks(s, p);
    case LockPtable(_) => PtableKeepsLocks(s, step);
    case DropBox(_) => EntryKeepsLocks(s, step);
    case Doze(_) => PtableKeepsLocks(s, step);
    case WakeAll(p) => WakeKeepsLocks(s, p);
    case Resume(_) => IdleKeepsLocks(s, step);
    case Kill(_) => IdleKeepsLocks(s, step);
    case Leave(_) => EntryKeepsLocks(s, step);
  }

  lemma IdleKeepsLocks(s: State, step: Step)
    requires Locks(s) && Enabled(s, step) && (step.Enter? || step.Resume? || step.Kill?)
    ensures Locks(Next(s, step))
  {
  }

  lemma EntryKeepsLocks(s: State, step: Step)
    requires Locks(s) && Enabled(s, step) && (step.Acquire? || step.Leave? || step.DropBox?)
    ensures Locks(Next(s, step))
  {
  }

  lemma TestKeepsLocks(s: State, p: Proc)
    requires Locks(s) && Enabled(s, Test(p))
    ensures Locks(Next(s, Test(p)))
  {
    var r := Next(s, Test(p));
    assert forall c :: 0 <= c < |s.boxes| ==> r.boxes[c].lock == s.boxes[c].lock;
  }

  lemma PtableKeepsLocks(s: State, step: Step)
    requires Locks(s) && Enabled(s, step) && (step.LockPtable? || step.Doze?)
    ensures Locks(Next(s, step))
  {
  }

  lemma WakeKeepsLocks(s: State, p: Proc)
    requires Locks(s) && Enabled(s, WakeAll(p))
    ensures Locks(Next(s, WakeAll(p)))
  {
  }

  lemma StepKeepsOrder(s: State, step: Step)
    requires InOrder(s) && Enabled(s, step)
    ensures InOrder(Next(s, step))
  {
    if step.Test? {
      var c := PcOf(s, step.p).call.chan;
      var r := Next(s, step);
      assert forall d :: 0 <= d < NUM_MAILBOXES && d != c ==> r.boxes[d] == s.boxes[d] && r.received[d] == s.received[d];
      assert Taken(r.received[c])[..|s.received[c]|] == Taken(s.received[c]);
    }
  }

  /** The heart of sleep and wakeup. The waker holds the mailbox lock and ptable.lock, so it finds
      no one between the while test and SLEEPING: everyone who decided to sleep is asleep. */
  lemma WakeAllReachesAll(s: State, p: Proc)
    requires Inv(s) && Enabled(s, WakeAll(p))
    ensures forall q :: q in Next(s, WakeAll(p)).pcs && Next(s, WakeAll(p)).pcs[q].Sleepy() ==>
              Next(s, WakeAll(p)).pcs[q].call.chan != PcOf(s, p).call.chan
  {
  }

  /** Nobody fills or empties a box but in the copy, and whoever owes a wakeup goes on owing it. */
  lemma BoxStays(s: State, step: Step, c: nat)
    requires Locks(s) && Enabled(s, step) && c < NUM_MAILBOXES
    requires InSleep(step) || step.Enter? || step.Acquire? || step.Leave?
    ensures |Next(s, step).boxes| == NUM_MAILBOXES && Next(s, step).boxes[c].full == s.boxes[c].full
    ensures WakeupDue(s, c) ==> WakeupDue(Next(s, step), c)
  {
  }

  lemma SleepLosesNoWakeup(s: State, step: Step)
    requires Inv(s) && Enabled(s, step) && InSleep(step)
    ensures NoLostWakeup(Next(s, step))
  {
    StepKeepsShape(s, step);
    var r := Next(s, step);
    forall p | p in r.pcs && r.pcs[p].Sleepy()
      ensures r.boxes[r.pcs[p].call.chan].full == r.pcs[p].call.Send? || WakeupDue(r, r.pcs[p].call.chan)
    {
      assert p in s.pcs && s.pcs[p].Sleepy() && s.pcs[p].call == r.pcs[p].call;
      BoxStays(s, step, r.pcs[p].call.chan);
    }
  }

  /** Only the holder of the lock gets to change the box, and it then owes a wakeup. */
  lemma TestLosesNoWakeup(s: State, p: Proc)
    requires Inv(s) && Enabled(s, Test(p))
    ensures NoLostWakeup(Next(s, Test(p)))
  {
    StepKeepsShape(s, Test(p));
    var r, c := Next(s, Test(p)), s.pcs[p].call.chan;
    assert s.boxes[c].lock == Some(p);
    forall q | q in r.pcs && r.pcs[q].Sleepy()
      ensures r.boxes[r.pcs[q].call.chan].full == r.pcs[q].call.Send? || WakeupDue(r, r.pcs[q].call.chan)
    {
      if q != p {
        StillDue(s, p, q);
      }
    }
  }

  lemma StillDue(s: State, p: Proc, q: Proc)
    requires Inv(s) && Enabled(s, Test(p)) && q != p && q in s.pcs && s.pcs[q].Sleepy()
    ensures var r, c := Next(s, Test(p)), s.pcs[q].call.chan;
            0 <= c < |r.boxes| && (r.boxes[c].full == s.pcs[q].call.Send? || WakeupDue(r, c))
  {
    var r, c := Next(s, Test(p)), s.pcs[q].call.chan;
    assert s.boxes[s.pcs[p].call.chan].lock == Some(p);
    if c != s.pcs[p].call.chan && WakeupDue(s, c) {
      assert s.boxes[c].lock.value != p;
    }
  }

  lemma EntryLosesNoWakeup(s: State, step: Step)
    requires Inv(s) && Enabled(s, step) && (step.Enter? || step.Acquire? || step.Leave?)
    ensures NoLostWakeup(Next(s, step))
  {
    StepKeepsShape(s, step);
    var r := Next(s, step);
    forall p | p in r.pcs && r.pcs[p].Sleepy()
      ensures r.boxes[r.pcs[p].call.chan].full == r.pcs[p].call.Send? || WakeupDue(r, r.pcs[p].call.chan)
    {
      assert p in s.pcs && s.pcs[p].Sleepy() && s.pcs[p].call == r.pcs[p].call;
      BoxStays(s, step, r.pcs[p].call.chan);
    }
  }

  lemma StepLosesNoWakeup(s: State, step: Step)
    requires Inv(s) && Enabled(s, step)
    ensures NoLostWakeup(Next(s, step))
  {
    if step.WakeAll? {
      WakeLosesNoWakeup(s, step.p);
    } else if InSleep(step) {
      SleepLosesNoWakeup(s, step);
    } else if step.Test? {
      TestLosesNoWakeup(s, step.p);
    } else if step.Enter? || step.Acquire? || step.Leave? {
      EntryLosesNoWakeup(s, step);
    } else {
      RouseLosesNoWakeup(s, step);
    }
  }

  lemma WakeLosesNoWakeup(s: State, p: Proc)
    requires Inv(s) && Enabled(s, WakeAll(p))
    ensures NoLostWakeup(Next(s, WakeAll(p)))
  {
    StepKeepsShape(s, WakeAll(p));
    WakeAllReachesAll(s, p);
    var r := Next(s, WakeAll(p));
    forall q | q in r.pcs && r.pcs[q].Sleepy()
      ensures r.boxes[r.pcs[q].call.chan].full == r.pcs[q].call.Send? || WakeupDue(r, r.pcs[q].call.chan)
    {
      assert q in s.pcs && s.pcs[q].Sleepy();
    }
  }

  lemma RouseLosesNoWakeup(s: State, step: Step)
    requires Inv(s) && Enabled(s, step) && (step.Resume? || step.Kill?)
    ensures NoLostWakeup(Next(s, step))
  {
    StepKeepsShape(s, step);
    var r := Next(s, step);
    forall q | q in r.pcs && r.pcs[q].Sleepy()
      ensures r.boxes[r.pcs[q].call.chan].full == r.pcs[q].call.Send? || WakeupDue(r, r.pcs[q].call.chan)
    {
      assert q in s.pcs && s.pcs[q].Sleepy();
    }
  }

  // ------------------------------------------------------------------- runs

  /** mailboxinit: sixteen empty boxes, nobody inside. */
  ghost predicate Init(s: State) {
    && s.ptable == None && s.pcs == map[]
    && |s.boxes| == |s.sent| == |s.received| == NUM_MAILBOXES
    && forall c :: 0 <= c < NUM_MAILBOXES ==>
         && !s.boxes[c].full && s.boxes[c].msglen == 0 && |s.boxes[c].msg| == MAILBOX_MSGSIZE && s.boxes[c].lock == None
         && s.sent[c] == [] && s.received[c] == []
  }

  ghost predicate Takes(s: State, step: Step, r: State) { Enabled(s, step) && r == Next(s, step) }

  ghost predicate Follows(s: State, r: State) { exists step :: Takes(s, step, r) }

  ghost predicate FollowsAt(ss: seq<State>, i: nat)
    requires i + 1 < |ss|
  {
    Follows(ss[i], ss[i + 1])
  }

  ghost predicate Run(ss: seq<State>) {
    |ss| > 0 && Init(ss[0]) && forall i: nat :: i + 1 < |ss| ==> FollowsAt(ss, i)
  }

  lemma {:induction false} RunKeepsInv(ss: seq<State>, i: nat)
    requires Run(ss) && i < |ss|
    ensures Inv(ss[i])
  {
    if i > 0 {
      RunKeepsInv(ss, i - 1);
      assert FollowsAt(ss, i - 1);
      var step :| Takes(ss[i - 1], step, ss[i]);
      StepKeepsLocks(ss[i - 1], step);
      StepKeepsOrder(ss[i - 1], step);
      StepLosesNoWakeup(ss[i - 1], step);
    }
  }

  // --------------------------------------------------- what the callers see

  /** A process that enters with arguments in range is inside with that call until it is back out;
      one with others never gets in. */
  lemma CallsStay(s: State, step: Step, p: Proc)
    requires Enabled(s, step)
    ensures var before, after := PcOf(s, p), PcOf(Next(s, step), p);
            && (!before.Idle? && !after.Idle? ==> after.call == before.call)
            && (before.Idle? && !after.Idle? ==> step.Enter? && step.p == p && after == Entering(step.call))
            && (step.Enter? && step.p == p ==>
                 (after.Idle? <==>
                  || step.call.chan < 0 || step.call.chan >= 16
                  || (step.call.Send? && !(0 < step.call.len <= 128 && step.call.len <= |step.call.buf|))
                  || (step.call.Recv? && step.call.maxlen <= 0)))
  {
  }

  /** p gets past the while test and does its copy. */
  predicate Copies(s: State, r: State, p: Proc) { PcOf(s, p).Testing? && PcOf(r, p).Waking? }

  /** Only the process whose step it is gets past the test, so at most one does. */
  lemma OneCopies(s: State, step: Step, p: Proc)
    requires Enabled(s, step) && Copies(s, Next(s, step), p)
    ensures step == Test(p)
  {
  }

  /** The call that does its copy between s and r, if one does. */
  ghost function CallDone(s: State, r: State): (call: Option<Call>) {
    if exists p :: Copies(s, r, p) then
      var p :| Copies(s, r, p);
      Some(PcOf(s, p).call)
    else None
  }

  /** The messages of the ksend calls on c that have done their copy by state i of a run, in order. */
  ghost function Sends(ss: seq<State>, i: nat, c: nat): (ms: seq<Message>)
    requires i < |ss|
  {
    if i == 0 then []
    else
      var done := CallDone(ss[i - 1], ss[i]);
      Sends(ss, i - 1, c) +
      if done.Some? && done.value.Send? && done.value.chan == c && 0 <= done.value.len <= |done.value.buf|
      then [done.value.buf[..done.value.len]] else []
  }

  /** The room of the krecv calls on c that have done their copy by state i of a run, in order. */
  ghost function Rooms(ss: seq<State>, i: nat, c: nat): (ns: seq<int>)
    requires i < |ss|
  {
    if i == 0 then []
    else
      var done := CallDone(ss[i - 1], ss[i]);
      Rooms(ss, i - 1, c) + if done.Some? && done.value.Recv? && done.value.chan == c then [done.value.maxlen] else []
  }

  ghost function RoomsOf(rs: seq<Receipt>): (ns: seq<int>) { seq(|rs|, i requires 0 <= i < |rs| => rs[i].maxlen) }

  /** A step adds to the histories what the call that does its copy moves, and nothing else. */
  lemma CopyIsRecorded(s: State, step: Step, c: nat)
    requires Enabled(s, step) && c < NUM_MAILBOXES
    ensures var r := Next(s, step);
            var done := CallDone(s, r);
            && |r.sent| == |r.received| == NUM_MAILBOXES
            && (done.Some? ==> done.value.Accepted())
            && r.sent[c] == s.sent[c] +
                 (if done.Some? && done.value.Send? && done.value.chan == c then [done.value.buf[..done.value.len]] else [])
            && RoomsOf(r.received[c]) == RoomsOf(s.received[c]) +
                 (if done.Some? && done.value.Recv? && done.value.chan == c then [done.value.maxlen] else [])
  {
    var r := Next(s, step);
    if exists p :: Copies(s, r, p) {
      var p :| Copies(s, r, p) && CallDone(s, r) == Some(PcOf(s, p).call);
      OneCopies(s, step, p);
    } else {
      assert step.Test? ==> !Copies(s, r, step.p);
    }
  }

  lemma {:induction false} HistoryIsCalls(ss: seq<State>, i: nat, c: nat)
    requires Run(ss) && i < |ss| && c < NUM_MAILBOXES
    ensures |ss[i].sent| == |ss[i].received| == NUM_MAILBOXES
    ensures ss[i].sent[c] == Sends(ss, i, c) && RoomsOf(ss[i].received[c]) == Rooms(ss, i, c)
  {
    if i > 0 {
      HistoryIsCalls(ss, i - 1, c);
      assert FollowsAt(ss, i - 1);
      var step :| Takes(ss[i - 1], step, ss[i]);
      CopyIsRecorded(ss[i - 1], step, c);
    }
  }

  /** Every mailbox delivers what its senders passed to ksend, in the order in which they got in, one
      message to each krecv and cut to that receiver's room; at most one message is still to be
      delivered, and it is the one in the box. */
  lemma Delivery(ss: seq<State>, i: nat, c: nat)
    requires Run(ss) && i < |ss| && c < NUM_MAILBOXES
    ensures |ss[i].boxes| == |ss[i].received| == NUM_MAILBOXES && ss[i].boxes[c].msglen <= |ss[i].boxes[c].msg|
    ensures |ss[i].received[c]| == |Rooms(ss, i, c)|
    ensures |Sends(ss, i, c)| == |Rooms(ss, i, c)| + if ss[i].boxes[c].full then 1 else 0
    ensures forall k :: 0 <= k < |Rooms(ss, i, c)| ==>
              ss[i].received[c][k].got == Cut(Sends(ss, i, c)[k], Rooms(ss, i, c)[k])
    ensures ss[i].boxes[c].full ==> ss[i].boxes[c].msg[..ss[i].boxes[c].msglen] == Sends(ss, i, c)[|Rooms(ss, i, c)|]
  {
    RunKeepsInv(ss, i);
    HistoryIsCalls(ss, i, c);
    forall k | 0 <= k < |Rooms(ss, i, c)|
      ensures ss[i].received[c][k].got == Cut(Sends(ss, i, c)[k], Rooms(ss, i, c)[k])
    {
      assert Taken(ss[i].received[c])[k] == ss[i].sent[c][k];
      assert RoomsOf(ss[i].received[c])[k] == Rooms(ss, i, c)[k];
    }
  }

  /** The first n bytes of m, or all of them. */
  function Cut(m: Message, n: int): (r: Message)
    ensures r <= m && (n >= 0 ==> |r| <= n) && (r == m || |r| == n || n < 0)
  {
    if 0 <= n < |m| then m[..n] else m
  }

  /** Whenever a mailbox lock is free, no sender sleeps on an empty box and no receiver on a full
      one; so senders and receivers never sleep on the same box. */
  lemma NobodySleepsInVain(ss: seq<State>, i: nat, p: Proc, q: Proc)
    requires Run(ss) && i < |ss| && PcOf(ss[i], p).Asleep? && PcOf(ss[i], q).Asleep?
    requires PcOf(ss[i], p).call.chan == PcOf(ss[i], q).call.chan
    ensures |ss[i].boxes| == NUM_MAILBOXES && 0 <= PcOf(ss[i], p).call.chan < NUM_MAILBOXES
    ensures var b := ss[i].boxes[PcOf(ss[i], p).call.chan];
            b.lock == None ==> b.full == PcOf(ss[i], p).call.Send? == PcOf(ss[i], q).call.Send?
  {
    RunKeepsInv(ss, i);
  }

  /** Steps that a process inside ksend or krecv takes by itself. */
  predicate Inside(step: Step) { !step.Enter? && !step.Kill? }

  /** The locks never deadlock: while someone is inside a call and not asleep, someone can move. */
  lemma NeverStuck(ss: seq<State>, i: nat, p: Proc) returns (step: Step)
    requires Run(ss) && i < |ss| && !PcOf(ss[i], p).Idle? && !PcOf(ss[i], p).Asleep?
    ensures Inside(step) && Enabled(ss[i], step)
  {
    RunKeepsInv(ss, i);
    var s := ss[i];
    if s.ptable.Some? {
      step := Unlocker(s, s.ptable.value);
    } else {
      var pc := PcOf(s, p);
      if pc.Roused? {
        step := Resume(p);
      } else if pc.Entering? {
        var lock := s.boxes[pc.call.chan].lock;
        step := if lock.None? then Acquire(p) else HolderStep(s, lock.value);
      } else {
        step := HolderStep(s, p);
      }
    }
  }

  function Unlocker(s: State, p: Proc): (step: Step)
    requires Shape(s) && PcOf(s, p).HoldsPtable()
    ensures Inside(step) && Enabled(s, step)
  {
    var pc := PcOf(s, p);
    if pc.Handing? then DropBox(p) else if pc.Dozing? then Doze(p) else WakeAll(p)
  }

  function HolderStep(s: State, p: Proc): (step: Step)
    requires Shape(s) && s.ptable.None? && PcOf(s, p).HoldsBox() && !PcOf(s, p).HoldsPtable()
    ensures Inside(step) && Enabled(s, step)
  {
    var pc := PcOf(s, p);
    if pc.Testing? then Test(p) else if pc.Leaving? then Leave(p) else LockPtable(p)
  }
}
