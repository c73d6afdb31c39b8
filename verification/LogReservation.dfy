/** Log space: begin_op's reservation is what keeps log_write in bounds. The size test in
    log_write itself is made before the lock is taken and proves nothing on its own. */
module LogReservation {
  import opened Blocks
  import opened LogLayout
  import opened LogProtocol

  /** Blocks that the open operations may still log, when each may log `cap` in all. */
  ghost function Spare(cap: nat, ops: map<Proc, set<nat>>): (n: int)
    decreases |ops|
  {
    if ops == map[] then 0
    else
      var p :| p in ops;
      assert (ops - {p}).Keys == ops.Keys - {p};
      cap - |ops[p]| + Spare(cap, ops - {p})
  }

  lemma {:induction false} SpareWithout(cap: nat, ops: map<Proc, set<nat>>, p: Proc)
    requires p in ops
    ensures Spare(cap, ops) == cap - |ops[p]| + Spare(cap, ops - {p})
    decreases |ops|
  {
    var q :| q in ops && Spare(cap, ops) == cap - |ops[q]| + Spare(cap, ops - {q});
    if q != p {
      assert (ops - {q}).Keys == ops.Keys - {q} && (ops - {p}).Keys == ops.Keys - {p};
      SpareWithout(cap, ops - {q}, p);
      SpareWithout(cap, ops - {p}, q);
      assert ops - {q} - {p} == ops - {p} - {q};
    }
  }

  lemma SpareUpdate(cap: nat, ops: map<Proc, set<nat>>, p: Proc, bs: set<nat>)
    ensures Spare(cap, ops[p := bs]) == cap - |bs| + Spare(cap, ops - {p})
  {
    SpareWithout(cap, ops[p := bs], p);
    assert ops[p := bs] - {p} == ops - {p};
  }

  lemma {:induction false} SpareBounds(cap: nat, ops: map<Proc, set<nat>>)
    requires cap < MAXOPBLOCKS && forall p :: p in ops ==> |ops[p]| <= cap
    ensures 0 <= Spare(cap, ops) <= 9 * |ops|
    decreases |ops|
  {
    if ops != map[] {
      var p :| p in ops;
      SpareWithout(cap, ops, p);
      assert (ops - {p}).Keys == ops.Keys - {p};
      SpareBounds(cap, ops - {p});
    }
  }

  /** Logged blocks plus what open operations may still log stay two short of LOGSIZE. */
  ghost predicate Within(nlog: nat, cap: nat, lh: seq<nat>, ops: map<Proc, set<nat>>) {
    && nlog >= LOGSIZE && cap < MAXOPBLOCKS
    && (forall p :: p in ops ==> |ops[p]| <= cap && forall b :: b in ops[p] ==> b in lh)
    && |lh| + Spare(cap, ops) <= LOGSIZE - 2
    && (ops == map[] ==> lh == [])
  }

  lemma WithinHasRoom(nlog: nat, cap: nat, lh: seq<nat>, ops: map<Proc, set<nat>>)
    requires Within(nlog, cap, lh, ops)
    ensures |lh| <= LOGSIZE - 2
  {
    SpareBounds(cap, ops);
  }

  lemma WithinBegin(nlog: nat, cap: nat, lh: seq<nat>, ops: map<Proc, set<nat>>, p: Proc)
    requires Within(nlog, cap, lh, ops) && p !in ops && |lh| + (|ops| + 1) * MAXOPBLOCKS <= LOGSIZE
    ensures Within(nlog, cap, lh, ops[p := {}])
  {
    SpareUpdate(cap, ops, p, {});
    assert ops - {p} == ops;
    SpareBounds(cap, ops);
    if ops == map[] {
      assert |lh| == 0;
    } else {
      assert |ops| >= 1;
    }
  }

  lemma WithinLog(nlog: nat, cap: nat, lh: seq<nat>, ops: map<Proc, set<nat>>, p: Proc, b: nat)
    requires Within(nlog, cap, lh, ops) && p in ops && |ops[p] + {b}| <= cap
    ensures Within(nlog, cap, if b in lh then lh else lh + [b], ops[p := ops[p] + {b}])
  {
    SpareWithout(cap, ops, p);
    SpareUpdate(cap, ops, p, ops[p] + {b});
    assert b in ops[p] ==> ops[p] + {b} == ops[p];
    assert b !in ops[p] ==> |ops[p] + {b}| == |ops[p]| + 1;
  }

  lemma WithinEnd(nlog: nat, cap: nat, lh: seq<nat>, ops: map<Proc, set<nat>>, p: Proc)
    requires Within(nlog, cap, lh, ops) && p in ops
    ensures Within(nlog, cap, if ops - {p} == map[] then [] else lh, ops - {p})
  {
    SpareWithout(cap, ops, p);
  }

  ghost predicate Reserved(c: Config, s: State) {
    if s.phase.Running? then Within(c.l.nlog, c.cap, s.lh, s.ops)
    else c.l.nlog >= LOGSIZE && c.cap < MAXOPBLOCKS && s.ops == map[]
  }

  /** So no log_write of an open operation ever meets the panic or runs past the header array. */
  lemma ReservedHasRoom(c: Config, s: State)
    requires Reserved(c, s) && s.phase.Running?
    ensures !TooBig(c, s)
  {
    WithinHasRoom(c.l.nlog, c.cap, s.lh, s.ops);
  }

  lemma ReservedBeginOp(c: Config, s: State, p: Proc)
    requires Reserved(c, s) && Enabled(c, s, BeginOp(p)) && s.phase.Running?
    ensures Reserved(c, Next(c, s, BeginOp(p)))
  {
    WithinBegin(c.l.nlog, c.cap, s.lh, s.ops, p);
  }

  lemma ReservedLogWrite(c: Config, s: State, p: Proc, b: nat)
    requires Reserved(c, s) && Enabled(c, s, LogWrite(p, b)) && s.phase.Running?
    ensures Reserved(c, Next(c, s, LogWrite(p, b)))
  {
    WithinLog(c.l.nlog, c.cap, s.lh, s.ops, p, b);
  }

  lemma ReservedEndOp(c: Config, s: State, p: Proc)
    requires Reserved(c, s) && Enabled(c, s, EndOp(p)) && s.phase.Running?
    ensures Reserved(c, Next(c, s, EndOp(p)))
  {
    WithinEnd(c.l.nlog, c.cap, s.lh, s.ops, p);
  }

  // ------------------------------------------- an allowance of MAXOPBLOCKS is one too many

  /** The disk mkfs ships: LOGSIZE log blocks in all, header included, from block 2. */
  const SHIPPED: Layout := Layout(1000, 2, LOGSIZE)

  /** The shipped layout, with operations that may log m blocks, no more than begin_op reserves for them. */
  ghost predicate Allowance(c: Config, m: nat) {
    c.l == SHIPPED && 0 < m <= MAXOPBLOCKS && m <= c.cap && |c.base| == SHIPPED.size
  }

  /** Whose turn it is after k blocks, m for each of three operations. */
  function Turn(k: nat, m: nat): (p: Proc) { if k < m then 0 else if k < 2 * m then 1 else 2 }

  /** Three operations are open and have logged blocks 100 .. 100 + k - 1, m each in turn. */
  ghost predicate Filled(c: Config, s: State, k: nat, m: nat) {
    && Allowance(c, m) && Shape(c, s) && s.phase == Running && k < LOGSIZE && k <= 3 * m
    && |s.lh| == k && (forall i :: 0 <= i < k ==> s.lh[i] == 100 + i)
    && InTurn(s.ops, k, m)
    && (forall b :: b in s.holder ==> b < 100 + k)
  }

  lemma FillRead(c: Config, s: State, k: nat, m: nat) returns (r: State)
    requires Filled(c, s, k, m) && k < LOGSIZE - 1
    ensures Follows(c, s, r) && Shape(c, r)
    ensures r == s.(cache := r.cache, holder := s.holder[100 + k := Turn(k, m)])
  {
    r := Next(c, s, Bread(Turn(k, m), 100 + k));
    assert Takes(c, s, Bread(Turn(k, m), 100 + k), r);
  }

  lemma FillWrite(c: Config, s: State, k: nat, m: nat, s1: State) returns (r: State)
    requires Filled(c, s, k, m) && k < LOGSIZE - 1 && k < 3 * m && Shape(c, s1)
    requires s1 == s.(cache := s1.cache, holder := s.holder[100 + k := Turn(k, m)])
    ensures Follows(c, s1, r) && Filled(c, r, k + 1, m)
  {
    var p, b := Turn(k, m), 100 + k;
    assert p in s.ops && |s.ops[p]| < m;
    assert |s.ops[p] + {b}| == |s.ops[p]| + 1;
    r := LogNew(c, s1, p, b, m);
    FillCounts(s.ops, k, m, p, b);
  }

  lemma LogNew(c: Config, s: State, p: Proc, b: nat, m: nat) returns (r: State)
    requires Allowance(c, m) && Shape(c, s) && s.phase.Running? && b !in s.lh && |s.lh| < LOGSIZE - 1
    requires b in s.holder && s.holder[b] == p && p in s.ops && c.l.Home(b) && |s.ops[p] + {b}| <= c.cap
    ensures Follows(c, s, r) && Shape(c, r) && r.phase.Running? && r.holder == s.holder
    ensures r.lh == s.lh + [b] && r.ops == s.ops[p := s.ops[p] + {b}]
  {
    r := Next(c, s, LogWrite(p, b));
    assert Takes(c, s, LogWrite(p, b), r);
    assert c.l.Fits(r.lh);
  }

  ghost predicate InTurn(ops: map<Proc, set<nat>>, k: nat, m: nat) {
    && ops.Keys == {0, 1, 2}
    && |ops[0]| == (if k < m then k else m)
    && |ops[1]| == (if k < m then 0 else if k < 2 * m then k - m else m)
    && |ops[2]| == (if k < 2 * m then 0 else k - 2 * m)
    && (forall p, b :: p in ops && b in ops[p] ==> b < 100 + k)
  }

  lemma FillCounts(ops: map<Proc, set<nat>>, k: nat, m: nat, p: Proc, b: nat)
    requires InTurn(ops, k, m) && k < 3 * m && p == Turn(k, m) && b == 100 + k
    ensures InTurn(ops[p := ops[p] + {b}], k + 1, m)
  {
    assert b !in ops[p];
    assert |ops[p] + {b}| == |ops[p]| + 1;
  }

  lemma {:induction false} FillLog(c: Config, ss: seq<State>, k: nat, m: nat, goal: nat) returns (run: seq<State>)
    requires Run(c, ss) && Filled(c, ss[|ss| - 1], k, m) && k <= goal < LOGSIZE && goal <= 3 * m
    ensures Run(c, run) && Filled(c, run[|run| - 1], goal, m)
    decreases goal - k
  {
    if k == goal {
      run := ss;
    } else {
      var s1 := FillRead(c, ss[|ss| - 1], k, m);
      var s2 := FillWrite(c, ss[|ss| - 1], k, m, s1);
      RunExtend(c, ss, s1);
      RunExtend(c, ss + [s1], s2);
      run := FillLog(c, ss + [s1] + [s2], k + 1, m, goal);
    }
  }

  ghost function FirstOps(n: nat): (ops: map<Proc, set<nat>>) {
    if n == 0 then map[] else if n == 1 then map[0 := {}] else if n == 2 then map[0 := {}, 1 := {}]
    else map[0 := {}, 1 := {}, 2 := {}]
  }

  /** Recovery is over and processes 0 .. n - 1 have just begun an operation. */
  ghost predicate Opened(c: Config, s: State, n: nat) {
    && c.l == SHIPPED && Shape(c, s) && s.phase == Running && s.lh == [] && s.holder == map[]
    && s.ops == FirstOps(n) && s.sleepers == {} && !s.committing
  }

  lemma PowerOn(c: Config) returns (s: State)
    requires c.l == SHIPPED && |c.base| == SHIPPED.size
    ensures Init(c, s) && Shape(c, s) && Entries(s.disk[2]) == []
  {
    s := State(c.base[2 := ZERO_BLOCK], map[], map[], {}, [], map[], false, {}, Boot, [], []);
    assert ZERO_BLOCK[0] == ZERO_BLOCK[1] == ZERO_BLOCK[2] == ZERO_BLOCK[3] == 0;
  }

  lemma ReadEmpty(c: Config, s: State) returns (r: State)
    requires c.l == SHIPPED && Init(c, s) && Shape(c, s) && Entries(s.disk[2]) == []
    ensures Follows(c, s, r) && Shape(c, r) && r == s.(cache := r.cache, phase := Replaying(0))
  {
    r := Next(c, s, ReadHead);
    assert Takes(c, s, ReadHead, r);
  }

  lemma ClearEmpty(c: Config, s: State) returns (r: State)
    requires c.l == SHIPPED && Shape(c, s) && s.phase == Replaying(0) && s.lh == []
    ensures Follows(c, s, r) && Shape(c, r) && r == s.(disk := r.disk, cache := r.cache, phase := Running)
  {
    HeaderRoundTrip(View(s, 2), []);
    r := Next(c, s, ClearHead);
    assert Takes(c, s, ClearHead, r);
  }

  lemma BootUp(c: Config) returns (run: seq<State>)
    requires c.l == SHIPPED && |c.base| == SHIPPED.size
    ensures Run(c, run) && Opened(c, run[|run| - 1], 0)
  {
    var s0 := PowerOn(c);
    var s1 := ReadEmpty(c, s0);
    var s2 := ClearEmpty(c, s1);
    RunExtend(c, [s0], s1);
    RunExtend(c, [s0] + [s1], s2);
    run := [s0] + [s1] + [s2];
  }

  lemma OpenOne(c: Config, ss: seq<State>, n: nat) returns (run: seq<State>)
    requires Run(c, ss) && Opened(c, ss[|ss| - 1], n) && n < 3
    ensures Run(c, run) && Opened(c, run[|run| - 1], n + 1)
  {
    var s := ss[|ss| - 1];
    var r := Next(c, s, BeginOp(n));
    assert Takes(c, s, BeginOp(n), r);
    assert r.ops == FirstOps(n + 1);
    RunExtend(c, ss, r);
    run := ss + [r];
  }

  /** Three operations of m blocks each, as far as `goal` blocks. */
  lemma ThreeOperations(c: Config, m: nat, goal: nat) returns (run: seq<State>)
    requires Allowance(c, m) && goal < LOGSIZE && goal <= 3 * m
    ensures Run(c, run) && Filled(c, run[|run| - 1], goal, m)
  {
    run := BootUp(c);
    run := OpenOne(c, run, 0);
    run := OpenOne(c, run, 1);
    run := OpenOne(c, run, 2);
    assert run[|run| - 1].ops.Keys == {0, 1, 2};
    run := FillLog(c, run, 0, m, goal);
  }

  /** If operations log up to MAXOPBLOCKS distinct blocks, as the reservation allows, the shipped
      file system panics: three operations of ten blocks meet "too big a transaction" at the last. */
  lemma FullAllowanceOverruns(c: Config) returns (run: seq<State>, p: Proc)
    requires Allowance(c, MAXOPBLOCKS)
    ensures Run(c, run)
    ensures var t := run[|run| - 1]; p in t.ops && |t.ops[p]| < MAXOPBLOCKS && TooBig(c, t)
  {
    run := ThreeOperations(c, MAXOPBLOCKS, LOGSIZE - 1);
    p := 2;
  }

  /** The bound of nine blocks is for operations that log on their own account. log_write only asks
      that some operation be open: two blocks logged by a process without one, as reading a hole does,
      fill the log next to three operations of nine blocks. */
  lemma StrayBlocksOverrun(c: Config, x: nat, y: nat) returns (run: seq<State>)
    requires Allowance(c, MAXOPBLOCKS - 1)
    ensures Run(c, run)
    ensures var t := run[|run| - 1];
            && t.ops != map[] && (forall p :: p in t.ops ==> |t.ops[p]| == MAXOPBLOCKS - 1)
            && (x != y && x !in t.lh && y !in t.lh ==> TooBig(c, t.(lh := t.lh + [x, y])))
  {
    run := ThreeOperations(c, MAXOPBLOCKS - 1, 3 * (MAXOPBLOCKS - 1));
  }
}
