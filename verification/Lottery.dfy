/** The lottery in proc.c's scheduler: draw a ticket number and find its owner. */
module Lottery {
  import opened Rand
  import opened Words
  import opened Options
  import opened Counting
  import FullPeriod

  /** A positive int, which is all that settickets asks of a ticket count. */
  type Tickets = n: int | 0 < n < 0x8000_0000 witness 10

  datatype Contender = Contender(runnable: bool, tickets: Tickets)

  /** How a round ends: slot i runs, the scheduler finds no tickets, or the draw is still going on. */
  datatype Turn = Runs(i: nat) | Idle | Drawing

  /** Tickets held by the RUNNABLE processes among the first k slots. */
  function Before(ps: seq<Contender>, k: nat): (n: nat)
    requires k <= |ps|
    decreases k
  {
    if k == 0 then 0 else Before(ps, k - 1) + Held(ps, k - 1)
  }

  function Held(ps: seq<Contender>, i: nat): (n: nat)
    requires i < |ps|
  {
    if ps[i].runnable then ps[i].tickets else 0
  }

  function Total(ps: seq<Contender>): (n: nat) { Before(ps, |ps|) }

  /** The int that the scheduler has after adding up the first k slots. */
  function Sum(ps: seq<Contender>, k: nat): (n: int)
    requires k <= |ps|
    ensures -0x8000_0000 <= n < 0x8000_0000
  {
    AsInt(Before(ps, k) % WORD)
  }

  function IntTotal(ps: seq<Contender>): (n: int) { Sum(ps, |ps|) }

  /** One more addition in 32 bits. */
  lemma SumNext(ps: seq<Contender>, k: nat)
    requires k < |ps|
    ensures Sum(ps, k + 1) == AsInt((Sum(ps, k) + Held(ps, k)) % WORD)
  {
    var b, h := Before(ps, k), Held(ps, k);
    var q, r := b / WORD, b % WORD;
    assert b == WORD * q + r && b + h == WORD * q + (r + h);
    if r + h >= WORD {
      assert b + h == WORD * (q + 1) + (r + h - WORD);
    }
  }

  /** The first RUNNABLE process at which the running sum exceeds w. */
  predicate Stops(ps: seq<Contender>, i: nat, w: int) {
    && i < |ps| && ps[i].runnable && Sum(ps, i + 1) > w
    && forall j :: 0 <= j < i && ps[j].runnable ==> Sum(ps, j + 1) <= w
  }

  /** Process i owns ticket number w: the numbers are dealt out in slot order. */
  predicate Owns(ps: seq<Contender>, i: nat, w: nat) {
    i < |ps| && Before(ps, i) <= w < Before(ps, i) + Held(ps, i)
  }

  lemma {:induction false} BeforeMonotone(ps: seq<Contender>, j: nat, k: nat)
    requires j <= k <= |ps|
    ensures Before(ps, j) <= Before(ps, k)
    decreases k
  {
    if j < k {
      BeforeMonotone(ps, j, k - 1);
    }
  }

  /** Every ticket number has exactly one owner, and it is RUNNABLE. */
  lemma OneOwner(ps: seq<Contender>, i: nat, j: nat, w: nat)
    requires Owns(ps, i, w) && Owns(ps, j, w)
    ensures i == j && ps[i].runnable
  {
    if i < j {
      BeforeMonotone(ps, i + 1, j);
    } else if j < i {
      BeforeMonotone(ps, j + 1, i);
    }
  }

  class Scheduler {
    const rng: Generator

    constructor (g: Generator)
      ensures rng == g
    {
      rng := g;
    }

    /** One round of the scheduler under ptable.lock, watched for `patience` draws. The sums are ints,
        which wrap around. */
    method Pick(ps: seq<Contender>, patience: nat) returns (r: Turn)
      requires rng.lfsr < RANGE && patience >= 1
      modifies rng
      ensures rng.lfsr < RANGE
      ensures r.Idle? <==> IntTotal(ps) <= 0
      ensures IntTotal(ps) <= 1 ==> rng.lfsr == old(rng.lfsr)
      ensures IntTotal(ps) == 1 ==> r.Runs? && Stops(ps, r.i, 0)
      ensures r.Drawing? <==> IntTotal(ps) >= 2 && AllRejected(old(rng.lfsr), Limit(IntTotal(ps)), patience)
      ensures IntTotal(ps) > RANGE ==> r.Drawing?
      ensures 0 < IntTotal(ps) <= RANGE && patience >= 17 ==> r.Runs?
      ensures r.Runs? && IntTotal(ps) >= 2 ==> rng.lfsr < Limit(IntTotal(ps)) && Stops(ps, r.i, rng.lfsr % IntTotal(ps))
      ensures r.Runs? && IntTotal(ps) >= 2 ==>
                exists k :: 1 <= k <= patience && rng.lfsr == Draw(old(rng.lfsr), k)
                            && AllRejected(old(rng.lfsr), Limit(IntTotal(ps)), k - 1)
    {
      var total := AddUp(ps);
      if total <= 0 {
        return Idle;
      }
      var winner, draws := DrawTicket(total, patience);
      if winner.None? {
        return Drawing;
      }
      var i := FindStop(ps, winner.value, total);
      r := Runs(i);
    }

    /** The number of the winning ticket. */
    method DrawTicket(total: int, patience: nat) returns (w: Option<int>, draws: nat)
      requires rng.lfsr < RANGE && patience >= 1 && total >= 1
      modifies rng
      ensures rng.lfsr == Draw(old(rng.lfsr), draws) && draws <= patience
      ensures total == 1 ==> w == Some(0) && draws == 0
      ensures total >= 2 ==> (w.None? <==> AllRejected(old(rng.lfsr), Limit(total), patience))
      ensures total > RANGE ==> w.None?
      ensures total <= RANGE && patience >= 17 ==> w.Some?
      ensures total >= 2 && w.Some? ==>
                && draws >= 1 && rng.lfsr < Limit(total)
                && AllRejected(old(rng.lfsr), Limit(total), draws - 1) && w.value == rng.lfsr % total
    {
      w, draws := rng.RandomAtMost(total - 1, patience);
      assert total - 1 + 1 == total;
    }

    /** The scheduler's first loop. */
    method AddUp(ps: seq<Contender>) returns (total: int)
      ensures total == IntTotal(ps)
    {
      total := 0;
      var k := 0;
      while k < |ps|
        invariant k <= |ps| && total == Sum(ps, k)
      {
        SumNext(ps, k);
        if ps[k].runnable {
          total := AsInt((total + ps[k].tickets) % WORD);
        }
        k := k + 1;
      }
    }

    /** The scheduler's second loop. */
    method FindStop(ps: seq<Contender>, w: int, total: int) returns (i: nat)
      requires total == IntTotal(ps) && 0 <= w < total
      ensures Stops(ps, i, w)
    {
      var counter := 0;
      i := 0;
      while true
        invariant i <= |ps| && counter == Sum(ps, i) <= w
        invariant forall j :: 0 <= j < i && ps[j].runnable ==> Sum(ps, j + 1) <= w
        decreases |ps| - i
      {
        SumNext(ps, i);
        if ps[i].runnable {
          counter := AsInt((counter + ps[i].tickets) % WORD);
          if counter > w {
            break;
          }
        }
        i := i + 1;
      }
    }
  }

  /** As long as the sum of all tickets is an int, the process that stops the search owns the ticket
      drawn, and the scheduler's total is the number of tickets. */
  lemma StopIsOwner(ps: seq<Contender>, i: nat, w: nat)
    requires Total(ps) < 0x8000_0000
    ensures IntTotal(ps) == Total(ps) && (Stops(ps, i, w) <==> Owns(ps, i, w))
  {
    if i < |ps| {
      BeforeMonotone(ps, i + 1, |ps|);
      forall j | 0 <= j < i && ps[j].runnable
        ensures Sum(ps, j + 1) == Before(ps, j + 1) <= Before(ps, i)
      {
        BeforeMonotone(ps, j + 1, i);
      }
      if Stops(ps, i, w) {
        BelowStop(ps, i, w, i);
      }
    }
  }

  lemma {:induction false} BelowStop(ps: seq<Contender>, i: nat, w: nat, k: nat)
    requires Total(ps) < 0x8000_0000 && Stops(ps, i, w) && k <= i
    ensures Before(ps, k) <= w
    decreases k
  {
    if k > 0 {
      BelowStop(ps, i, w, k - 1);
      BeforeMonotone(ps, k, |ps|);
      assert ps[k - 1].runnable ==> Sum(ps, k) <= w;
    }
  }

  /** With more tickets the sum can wrap. Two processes with as many as settickets lets them have are
      never run: their total counts as -2. */
  lemma TwoHoldersNeverRun(ps: seq<Contender>)
    requires ps == [Contender(true, 0x7FFF_FFFF), Contender(true, 0x7FFF_FFFF)]
    ensures IntTotal(ps) == -2
  {
    assert Before(ps, 1) == Before(ps, 0) + Held(ps, 0);
    assert Before(ps, 2) == Before(ps, 1) + Held(ps, 1);
  }

  /** With seven more tickets the total counts as 5, and whatever is drawn the first process runs. */
  lemma FirstHolderAlwaysRuns(ps: seq<Contender>, w: nat, i: nat)
    requires ps == [Contender(true, 0x7FFF_FFFF), Contender(true, 0x7FFF_FFFF), Contender(true, 7)]
    ensures IntTotal(ps) == 5 && (w < 5 ==> (Stops(ps, i, w) <==> i == 0))
  {
    assert Before(ps, 1) == Before(ps, 0) + Held(ps, 0);
    assert Before(ps, 2) == Before(ps, 1) + Held(ps, 1);
    assert Before(ps, 3) == Before(ps, 2) + Held(ps, 2);
  }

  /** settickets accepts any positive number; a single RUNNABLE process with 65537 tickets keeps
      the scheduler drawing, with ptable.lock held, for ever. */
  lemma OneHolderTooMany(ps: seq<Contender>, x: nat)
    requires ps == [Contender(true, 65537)] && x < RANGE
    ensures IntTotal(ps) == 65537 && Forever(x, IntTotal(ps))
  {
    assert Before(ps, 1) == Before(ps, 0) + 65537;
    RunsForever(x, 65537);
  }

  // --------------------------------------------------------- proportional share

  lemma AtLeastOnce(k: nat, m: nat)
    requires k >= 1
    ensures k * m >= m
  {
    assert k * m == (k - 1) * m + m;
  }

  lemma ModUnique(a: nat, m: nat, q: nat, r: nat)
    requires 0 <= r < m && a == q * m + r
    ensures a % m == r
  {
    var q', r' := a / m, a % m;
    assert a == q' * m + r';
    if q > q' {
      assert (q - q') * m == q * m - q' * m;
      AtLeastOnce(q - q', m);
    } else if q < q' {
      assert (q' - q) * m == q' * m - q * m;
      AtLeastOnce(q' - q, m);
    }
  }

  lemma ModAdd(a: nat, m: nat)
    requires m > 0
    ensures (a + m) % m == a % m
  {
    var q, r := a / m, a % m;
    assert a == q * m + r;
    assert (q + 1) * m == q * m + m;
    ModUnique(a + m, m, q + 1, r);
  }

  /** Value v, drawn with m tickets out, goes to process i. */
  predicate Selects(ps: seq<Contender>, i: nat, m: nat, v: nat)
    requires m > 0
  {
    Owns(ps, i, v % m)
  }

  /** Number of v below n that go to process i. */
  function Wins(ps: seq<Contender>, i: nat, m: nat, n: nat): (c: nat)
    requires m > 0
    decreases n
  {
    if n == 0 then 0 else Wins(ps, i, m, n - 1) + if Selects(ps, i, m, n - 1) then 1 else 0
  }

  lemma SelectsSmall(ps: seq<Contender>, i: nat, m: nat, v: nat)
    requires v < m
    ensures Selects(ps, i, m, v) <==> Owns(ps, i, v)
  {
    ModUnique(v, m, 0, v);
  }

  lemma {:induction false} WinsInOneRound(ps: seq<Contender>, i: nat, n: nat, m: nat)
    requires i < |ps| && n <= m
    requires m > 0
    ensures Wins(ps, i, m, n) ==
            if n <= Before(ps, i) then 0 else if n <= Before(ps, i) + Held(ps, i) then n - Before(ps, i) else Held(ps, i)
    decreases n
  {
    if n > 0 {
      WinsInOneRound(ps, i, n - 1, m);
      SelectsSmall(ps, i, m, n - 1);
    }
  }

  lemma {:induction false} WinsAddRound(ps: seq<Contender>, i: nat, m: nat, n: nat)
    requires m > 0
    ensures Wins(ps, i, m, n + m) == Wins(ps, i, m, n) + Wins(ps, i, m, m)
    decreases n
  {
    if n > 0 {
      WinsAddRound(ps, i, m, n - 1);
      ModAdd(n - 1, m);
      assert Selects(ps, i, m, n - 1 + m) == Selects(ps, i, m, n - 1);
    }
  }

  lemma {:induction false} WinsInRounds(ps: seq<Contender>, i: nat, m: nat, q: nat)
    requires m > 0
    ensures Wins(ps, i, m, q * m) == q * Wins(ps, i, m, m)
    decreases q
  {
    if q > 0 {
      WinsInRounds(ps, i, m, q - 1);
      var n, w := (q - 1) * m, Wins(ps, i, m, m);
      OneMoreTime(q, m);
      OneMoreTime(q, w);
      WinsAddRound(ps, i, m, n);
    }
  }

  lemma OneMoreTime(q: nat, m: nat)
    requires q > 0
    ensures q * m == (q - 1) * m + m
  {
  }

  /** Nonzero values below n that go to process i. */
  ghost function Winners(ps: seq<Contender>, i: nat, m: nat, n: nat): (vs: set<nat>)
    requires m > 0
  {
    set v: nat | 0 < v < n && Selects(ps, i, m, v)
  }

  lemma {:induction false} WinnersCount(ps: seq<Contender>, i: nat, m: nat, n: nat)
    requires m > 0 && n > 0
    ensures |Winners(ps, i, m, n)| == Wins(ps, i, m, n) - if Selects(ps, i, m, 0) then 1 else 0
    decreases n
  {
    if n == 1 {
      assert Winners(ps, i, m, n) == {};
    } else {
      WinnersCount(ps, i, m, n - 1);
      var ws := Winners(ps, i, m, n - 1);
      assert Winners(ps, i, m, n) == if Selects(ps, i, m, n - 1) then ws + {n - 1} else ws;
    }
  }

  /** States of the register from which one draw yields a value of vs. */
  ghost function StatesBefore(vs: set<nat>): (xs: set<nat>)
    requires forall v :: v in vs ==> v < RANGE
  {
    set v | v in vs :: PrevState(v)
  }

  lemma {:induction false} StatesBeforeCount(vs: set<nat>)
    requires forall v :: v in vs ==> v < RANGE
    ensures |StatesBefore(vs)| == |vs|
    decreases |vs|
  {
    if vs != {} {
      var v :| v in vs;
      StatesBeforeCount(vs - {v});
      assert StatesBefore(vs) == StatesBefore(vs - {v}) + {PrevState(v)};
      if PrevState(v) in StatesBefore(vs - {v}) {
        var u :| u in vs - {v} && PrevState(u) == PrevState(v);
        NextOfPrev(u);
        NextOfPrev(v);
      }
    }
  }

  lemma WinsBelowLimit(ps: seq<Contender>, i: nat)
    requires i < |ps| && 0 < Total(ps) <= RANGE
    ensures Limit(Total(ps)) > 0
    ensures Wins(ps, i, Total(ps), Limit(Total(ps))) == RANGE / Total(ps) * Held(ps, i)
  {
    var m := Total(ps);
    var w := Wins(ps, i, m, m);
    assert w == Held(ps, i) by {
      WinsInOneRound(ps, i, m, m);
      BeforeMonotone(ps, i + 1, |ps|);
    }
    LimitIsHigh(m);
    WinsInRounds(ps, i, m, RANGE / m);
  }

  /** The nonzero states from which one draw is accepted and selects process i. */
  ghost function Chances(ps: seq<Contender>, i: nat, m: nat, limit: nat): (xs: set<nat>)
    requires m > 0
  {
    set x: nat | 0 < x < RANGE && NextState(x) in Winners(ps, i, m, limit)
  }

  lemma ChancesCount(ps: seq<Contender>, i: nat, m: nat, limit: nat)
    requires m > 0 && limit <= RANGE
    ensures |Chances(ps, i, m, limit)| == |Winners(ps, i, m, limit)|
  {
    var winners, xs := Winners(ps, i, m, limit), Chances(ps, i, m, limit);
    var ys := StatesBefore(winners);
    forall x | x in xs ensures x in ys {
      PrevOfNext(x);
      assert NextState(x) in winners;
    }
    forall y | y in ys ensures y in xs {
      var v :| v in winners && PrevState(v) == y;
      PrevNonZero(v);
    }
    assert xs == ys;
    StatesBeforeCount(winners);
  }

  lemma WinnersAre(ps: seq<Contender>, i: nat)
    requires i < |ps| && 2 <= Total(ps) <= RANGE
    ensures 0 < Limit(Total(ps)) <= RANGE
    ensures |Winners(ps, i, Total(ps), Limit(Total(ps)))| ==
            RANGE / Total(ps) * Held(ps, i) - if Owns(ps, i, 0) then 1 else 0
  {
    var m := Total(ps);
    WinsBelowLimit(ps, i);
    LimitIsHigh(m);
    WinnersCount(ps, i, m, Limit(m));
    SelectsSmall(ps, i, m, 0);
  }

  /** Proportional share. Of the 65535 states the register can be in, exactly as many lead to an
      accepted draw that selects process i as it has tickets, times the number of whole rounds of
      tickets in 65536; one fewer for the owner of ticket 0, since 0 is never drawn. */
  lemma ProportionalShare(ps: seq<Contender>, i: nat)
    requires i < |ps| && 2 <= Total(ps) <= RANGE
    ensures Limit(Total(ps)) > 0
    ensures |Chances(ps, i, Total(ps), Limit(Total(ps)))| ==
            RANGE / Total(ps) * Held(ps, i) - if Owns(ps, i, 0) then 1 else 0
  {
    WinnersAre(ps, i);
    ChancesCount(ps, i, Total(ps), Limit(Total(ps)));
  }

  // ---- in the long run ----

  /** How often a draw among those number 1, ..., n from state x is accepted and selects process i. */
  function Turns(ps: seq<Contender>, i: nat, m: nat, limit: nat, x: nat, n: nat): (c: nat)
    requires m > 0 && x < RANGE
    decreases n
  {
    if n == 0 then 0
    else
      Turns(ps, i, m, limit, x, n - 1) + if Draw(x, n) < limit && Selects(ps, i, m, Draw(x, n)) then 1 else 0
  }

  lemma {:induction false} DrawPlus(x: nat, j: nat, k: nat)
    requires x < RANGE
    ensures Draw(x, j + k) == Draw(Draw(x, j), k)
    decreases k
  {
    if k > 0 {
      DrawPlus(x, j, k - 1);
    }
  }

  lemma {:induction false} TurnsPlus(ps: seq<Contender>, i: nat, m: nat, limit: nat, x: nat, j: nat, k: nat)
    requires m > 0 && x < RANGE
    ensures Turns(ps, i, m, limit, x, j + k) == Turns(ps, i, m, limit, x, j) + Turns(ps, i, m, limit, Draw(x, j), k)
    decreases k
  {
    if k > 0 {
      TurnsPlus(ps, i, m, limit, x, j, k - 1);
      DrawPlus(x, j, k);
    }
  }

  lemma {:induction false} NoTurns(ps: seq<Contender>, i: nat, m: nat, limit: nat, x: nat, k: nat)
    requires m > 0 && x < RANGE && AllRejected(x, limit, k)
    ensures Turns(ps, i, m, limit, x, k) == 0
    decreases k
  {
    if k > 0 {
      NoTurns(ps, i, m, limit, x, k - 1);
    }
  }

  /** The k draws of one round of the scheduler, of which the last is accepted, are a turn for the process
      it runs and for no other. */
  lemma RoundIsTurn(ps: seq<Contender>, i: nat, x: nat, k: nat)
    requires x < RANGE && 2 <= Total(ps) <= RANGE && k >= 1
    requires AllRejected(x, Limit(Total(ps)), k - 1) && Draw(x, k) < Limit(Total(ps))
    ensures Turns(ps, i, Total(ps), Limit(Total(ps)), x, k) == if Stops(ps, i, Draw(x, k) % Total(ps)) then 1 else 0
  {
    NoTurns(ps, i, Total(ps), Limit(Total(ps)), x, k - 1);
    StopIsOwner(ps, i, Draw(x, k) % Total(ps));
  }

  ghost function Drawn(x: nat, n: nat): (vs: set<nat>)
    requires x < RANGE
    decreases n
  {
    if n == 0 then {} else Drawn(x, n - 1) + {Draw(x, n)}
  }

  lemma {:induction false} DrawnHas(x: nat, n: nat, v: nat) returns (j: nat)
    requires x < RANGE && v in Drawn(x, n)
    ensures 1 <= j <= n && Draw(x, j) == v
    decreases n
  {
    if v == Draw(x, n) {
      j := n;
    } else {
      j := DrawnHas(x, n - 1, v);
    }
  }

  /** No value comes twice within a period. */
  lemma NotTwice(x: nat, j: nat, n: nat, all: nat)
    requires 0 < x < RANGE && 1 <= j < n <= all == 65535
    ensures Draw(x, n) != Draw(x, j)
  {
    NeverZero(x, j);
    DrawPlus(x, j, n - j);
    FullPeriod.FullPeriod(Draw(x, j), n - j, all);
  }

  lemma NotDrawnYet(x: nat, n: nat, all: nat)
    requires 0 < x < RANGE && 1 <= n <= all == 65535
    ensures Draw(x, n) !in Drawn(x, n - 1)
  {
    var v := Draw(x, n);
    if v in Drawn(x, n - 1) {
      var j := DrawnHas(x, n - 1, v);
      NotTwice(x, j, n, all);
    }
  }

  lemma {:induction false} DrawnCount(x: nat, n: nat, all: nat)
    requires 0 < x < RANGE && n <= all == 65535
    ensures |Drawn(x, n)| == n && Drawn(x, n) <= Span(1, RANGE)
    decreases n
  {
    if n > 0 {
      DrawnCount(x, n - 1, all);
      NotDrawnYet(x, n, all);
      NeverZero(x, n);
    }
  }

  /** So in a whole period every value but 0 is drawn, once. */
  lemma AllDrawn(x: nat, all: nat)
    requires 0 < x < RANGE && all == 65535
    ensures Drawn(x, all) == Span(1, RANGE)
  {
    DrawnCount(x, all, all);
    SpanCount(1, RANGE);
    var rest := Span(1, RANGE) - Drawn(x, all);
    assert Span(1, RANGE) == Drawn(x, all) + rest;
    assert |rest| == 0;
  }

  lemma {:induction false} TurnsAre(ps: seq<Contender>, i: nat, m: nat, limit: nat, x: nat, n: nat, all: nat)
    requires m > 0 && 0 < x < RANGE && n <= all == 65535
    ensures Turns(ps, i, m, limit, x, n) == |Drawn(x, n) * Winners(ps, i, m, limit)|
    decreases n
  {
    if n == 0 {
      assert Drawn(x, n) * Winners(ps, i, m, limit) == {};
    } else {
      TurnsAre(ps, i, m, limit, x, n - 1, all);
      NotDrawnYet(x, n, all);
      NeverZero(x, n);
      OneMoreTurn(Drawn(x, n - 1), Winners(ps, i, m, limit), Draw(x, n));
    }
  }

  lemma OneMoreTurn(drawn: set<nat>, winners: set<nat>, v: nat)
    requires v !in drawn
    ensures |(drawn + {v}) * winners| == |drawn * winners| + if v in winners then 1 else 0
  {
    assert (drawn + {v}) * winners == drawn * winners + if v in winners then {v} else {};
  }

  /** Proportional share in the long run: of any 65535 draws in a row, however many of them are rejected,
      exactly as many select process i as it has tickets, times the number of whole rounds of tickets
      in 65536; one fewer for the owner of ticket 0. */
  lemma LongRunShare(ps: seq<Contender>, i: nat, x: nat, all: nat)
    requires i < |ps| && 2 <= Total(ps) <= RANGE && 0 < x < RANGE && all == 65535
    ensures Limit(Total(ps)) > 0
    ensures Turns(ps, i, Total(ps), Limit(Total(ps)), x, all) ==
            RANGE / Total(ps) * Held(ps, i) - if Owns(ps, i, 0) then 1 else 0
  {
    WinnersAre(ps, i);
    AllTurns(ps, i, Total(ps), Limit(Total(ps)), x, all);
  }

  lemma AllTurns(ps: seq<Contender>, i: nat, m: nat, limit: nat, x: nat, all: nat)
    requires m > 0 && limit <= RANGE && 0 < x < RANGE && all == 65535
    ensures Turns(ps, i, m, limit, x, all) == |Winners(ps, i, m, limit)|
  {
    TurnsAre(ps, i, m, limit, x, all, all);
    AllDrawn(x, all);
    assert Drawn(x, all) * Winners(ps, i, m, limit) == Winners(ps, i, m, limit);
  }

  /** What that comes to for a single process. */
  lemma ShareIsZero(total: nat, held: nat, zero: bool)
    requires 2 <= total <= RANGE && (zero ==> held >= 1)
    ensures RANGE / total * held - (if zero then 1 else 0) == 0 <==> held == 0 || (zero && held == 1 && 2 * total > RANGE)
  {
    var q := RANGE / total;
    assert q * total <= RANGE < q * total + total;
    FullPeriod.Ordered(2, q, total);
    FullPeriod.Ordered(q, 1, total);
    FullPeriod.Ordered(q, 0, total);
    FullPeriod.Ordered(1, held, q);
    FullPeriod.Ordered(2, held, q);
  }

  lemma {:induction false} NoWinnersNoTurns(ps: seq<Contender>, i: nat, m: nat, limit: nat, x: nat, n: nat)
    requires m > 0 && 0 < x < RANGE && Winners(ps, i, m, limit) == {}
    ensures Turns(ps, i, m, limit, x, n) == 0
    decreases n
  {
    if n > 0 {
      NoWinnersNoTurns(ps, i, m, limit, x, n - 1);
      NeverZero(x, n);
      var v := Draw(x, n);
      assert v !in Winners(ps, i, m, limit);
    }
  }

  ghost predicate NeverSelected(ps: seq<Contender>, i: nat, x: nat)
    requires 2 <= Total(ps) && 0 < Limit(Total(ps)) && x < RANGE
  {
    forall n: nat :: Turns(ps, i, Total(ps), Limit(Total(ps)), x, n) == 0
  }

  /** A process with tickets is never selected exactly if it has one, and that is ticket number 0, and there
      are more than 32768: then the register would have to show 0. */
  lemma Starves(ps: seq<Contender>, i: nat, x: nat, all: nat)
    requires i < |ps| && 2 <= Total(ps) <= RANGE && 0 < x < RANGE && all == 65535
    ensures Limit(Total(ps)) > 0
    ensures NeverSelected(ps, i, x) <==> Held(ps, i) == 0 || (Owns(ps, i, 0) && Held(ps, i) == 1 && 2 * Total(ps) > RANGE)
  {
    var m := Total(ps);
    WinnersAre(ps, i);
    ShareIsZero(m, Held(ps, i), Owns(ps, i, 0));
    LongRunShare(ps, i, x, all);
    if |Winners(ps, i, m, Limit(m))| == 0 {
      forall n: nat
        ensures Turns(ps, i, m, Limit(m), x, n) == 0
      {
        NoWinnersNoTurns(ps, i, m, Limit(m), x, n);
      }
    } else {
      assert Turns(ps, i, m, Limit(m), x, all) != 0;
    }
  }
}
