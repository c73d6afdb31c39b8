/** rand.c: a 16-bit linear feedback shift register and rejection sampling. Exclusive-or of
    single bits is written as the parity of their sum. */
module Rand {
  import opened Options

  const RANGE: nat := 0x1_0000

  /** The bit that rand shifts in: bits 0, 2, 3 and 5 added modulo 2. */
  function Feedback(x: nat): (b: nat)
    ensures b <= 1
  {
    (x + x / 4 + x / 8 + x / 32) % 2
  }

  function NextState(x: nat): (y: nat)
    requires x < RANGE
    ensures y < RANGE
  {
    x / 2 + 0x8000 * Feedback(x)
  }

  /** The state that NextState came from: its top bit tells the bit that was shifted out. */
  function PrevState(y: nat): (x: nat)
    requires y < RANGE
    ensures x < RANGE
  {
    var high := y % 0x8000;
    2 * high + (y / 0x8000 + high / 2 + high / 4 + high / 16) % 2
  }

  lemma Halves(x: nat)
    ensures var h := x / 2; x / 4 == h / 2 && x / 8 == h / 4 && x / 32 == h / 16 && x == 2 * h + x % 2
  {
  }

  lemma Parity(a: nat, b: nat)
    ensures (a + b) % 2 == (a % 2 + b % 2) % 2 && ((a + b) % 2 + b) % 2 == a % 2
  {
  }

  /** NextState and PrevState undo each other: the register is a permutation of the 16-bit values. */
  lemma PrevOfNext(x: nat)
    requires x < RANGE
    ensures PrevState(NextState(x)) == x
  {
    var h := x / 2;
    Halves(x);
    Parity(x, h / 2 + h / 4 + h / 16);
    assert NextState(x) / 0x8000 == Feedback(x) && NextState(x) % 0x8000 == h;
  }

  lemma NextOfPrev(y: nat)
    requires y < RANGE
    ensures NextState(PrevState(y)) == y
  {
    var x, h := PrevState(y), y % 0x8000;
    Halves(x);
    assert x / 2 == h;
    Parity(y / 0x8000, h / 2 + h / 4 + h / 16);
    Parity(x, h / 2 + h / 4 + h / 16);
    assert Feedback(x) == y / 0x8000;
  }

  lemma ZeroFixed()
    ensures NextState(0) == 0 && PrevState(0) == 0
  {
  }

  lemma PrevNonZero(v: nat)
    requires 0 < v < RANGE
    ensures 0 < PrevState(v) && NextState(PrevState(v)) == v
  {
    NextOfPrev(v);
    if PrevState(v) == 0 {
      ZeroFixed();
    }
  }

  // ------------------------------------------------------------- rejection

  /** random_at_most keeps a value below the largest multiple of the number of bins. */
  function Limit(bins: nat): (l: int)
    requires bins > 0
  {
    RANGE - RANGE % bins
  }

  function Draw(x: nat, k: nat): (y: nat)
    requires x < RANGE
    ensures y < RANGE
    decreases k
  {
    if k == 0 then x else NextState(Draw(x, k - 1))
  }

  /** Started from anything but 0, the register never reaches 0. */
  lemma {:induction false} NeverZero(x: nat, k: nat)
    requires 0 < x < RANGE
    ensures 0 < Draw(x, k) < RANGE
    decreases k
  {
    if k > 0 {
      NeverZero(x, k - 1);
      if Draw(x, k - 1) == 1 {
        assert Feedback(1) == 1;
      }
    }
  }

  /** Draws 1 .. k all reach the limit and are rejected. */
  ghost predicate AllRejected(x: nat, limit: int, k: nat)
    requires x < RANGE
    decreases k
  {
    k > 0 ==> Draw(x, k) >= limit && AllRejected(x, limit, k - 1)
  }

  function Pow2(n: nat): (p: nat)
    ensures p >= 1
  {
    if n == 0 then 1 else 2 * Pow2(n - 1)
  }

  /** Shifting in a 1 above k leading ones makes k + 1. */
  lemma OneMoreOne(x: nat, p: nat)
    requires x < RANGE && x + 2 * p >= RANGE && NextState(x) >= 0x8000
    ensures NextState(x) + p >= RANGE
  {
    var f := Feedback(x);
    assert f == 0 || f == 1;
  }

  lemma Pow2Of16()
    ensures Pow2(16) == RANGE
  {
    assert Pow2(4) == 16;
    assert Pow2(8) == 0x100;
    assert Pow2(12) == 0x1000;
  }

  /** Every rejected draw has its top bit set, so after k of them the top k bits are set. */
  lemma {:induction false} OnesPileUp(x: nat, limit: int, k: nat)
    requires x < RANGE && limit >= 0x8000 && k <= 16 && AllRejected(x, limit, k)
    ensures Draw(x, k) >= RANGE - Pow2(16 - k)
  {
    if k == 0 {
      Pow2Of16();
    } else {
      OnesPileUp(x, limit, k - 1);
      OneMoreOne(Draw(x, k - 1), Pow2(16 - k));
    }
  }

  /** If the limit is above the lower half, at most sixteen draws in a row are rejected: they leave
      all ones in the register, and the bit shifted in next is 0. */
  lemma {:induction false} RejectionBound(x: nat, limit: int, k: nat)
    requires x < RANGE && limit >= 0x8000 && AllRejected(x, limit, k)
    ensures k <= 16
    decreases k
  {
    if k > 17 {
      RejectionBound(x, limit, k - 1);
    } else if k == 17 {
      OnesPileUp(x, limit, k - 1);
      assert Draw(x, k - 1) == 0xFFFF;
      AllOnes();
    }
  }

  lemma AllOnes()
    ensures NextState(0xFFFF) == 0x7FFF
  {
  }

  /** With no more bins than values the limit lies above the lower half; otherwise it is 0. */
  lemma LimitIsHigh(bins: nat)
    requires bins > 0
    ensures if bins <= RANGE then 0x8000 < Limit(bins) <= RANGE else Limit(bins) == 0
    ensures Limit(bins) == RANGE / bins * bins
  {
    var q, r := RANGE / bins, RANGE % bins;
    assert RANGE == q * bins + r;
    if bins <= RANGE {
      assert q >= 1;
    }
  }

  lemma {:induction false} RejectedBefore(x: nat, limit: int, j: nat, k: nat)
    requires x < RANGE && j <= k && AllRejected(x, limit, k)
    ensures AllRejected(x, limit, j)
    decreases k
  {
    if j < k {
      RejectedBefore(x, limit, j, k - 1);
    }
  }

  lemma {:induction false} ZeroRejectsAll(x: nat, k: nat)
    requires x < RANGE
    ensures AllRejected(x, 0, k)
    decreases k
  {
    if k > 0 {
      ZeroRejectsAll(x, k - 1);
    }
  }

  ghost predicate Forever(x: nat, bins: nat)
    requires x < RANGE && bins > 0
  {
    forall k: nat :: AllRejected(x, Limit(bins), k)
  }

  /** The loop of random_at_most runs for ever exactly when there are more bins than values,
      whatever the state of the register. */
  lemma RunsForever(x: nat, bins: nat)
    requires x < RANGE && bins > 0
    ensures Forever(x, bins) <==> bins > RANGE
  {
    LimitIsHigh(bins);
    if bins > RANGE {
      forall k: nat
        ensures AllRejected(x, Limit(bins), k)
      {
        ZeroRejectsAll(x, k);
      }
    } else {
      if Forever(x, bins) {
        var k: nat :| k > 16;
        assert AllRejected(x, Limit(bins), k);
        RejectionBound(x, Limit(bins), k);
      }
    }
  }

  /** After k - 1 rejections draw number k decides. */
  lemma Decided(x: nat, limit: int, k: nat, patience: nat)
    requires x < RANGE && 1 <= k <= patience && AllRejected(x, limit, k - 1)
    ensures Draw(x, k) < limit ==> !AllRejected(x, limit, patience)
    ensures Draw(x, k) >= limit ==> AllRejected(x, limit, k)
  {
    if AllRejected(x, limit, patience) {
      RejectedBefore(x, limit, k, patience);
    }
  }

  class Generator {
    var lfsr: nat

    constructor ()
      ensures lfsr == 0xACE1
    {
      lfsr := 0xACE1;
    }

    method Next() returns (v: nat)
      requires lfsr < RANGE
      modifies this
      ensures v == lfsr == NextState(old(lfsr))
    {
      var bit := (lfsr + lfsr / 4 + lfsr / 8 + lfsr / 32) % 2;
      lfsr := lfsr / 2 + bit * 0x8000;
      v := lfsr;
    }

    /** The do-while loop, watched for `patience` draws: None if it is still running then. */
    method DrawBelow(limit: int, patience: nat) returns (v: Option<nat>, draws: nat)
      requires lfsr < RANGE && patience >= 1
      modifies this
      ensures 1 <= draws <= patience && lfsr == Draw(old(lfsr), draws)
      ensures v.None? <==> AllRejected(old(lfsr), limit, patience)
      ensures v.Some? ==> v.value == lfsr < limit && AllRejected(old(lfsr), limit, draws - 1)
    {
      ghost var x := lfsr;
      var result := Next();
      draws := 1;
      while result >= limit && draws < patience
        invariant 1 <= draws <= patience && result == lfsr == Draw(x, draws)
        invariant AllRejected(x, limit, draws - 1)
        decreases patience - draws
      {
        Decided(x, limit, draws, patience);
        result := Next();
        draws := draws + 1;
      }
      Decided(x, limit, draws, patience);
      v := if result < limit then Some(result) else None;
    }

    /** A value in 0 .. max: the first accepted draw, modulo the bins. With at most 65536 bins it is
        there within 17 draws; with more it never is. */
    method RandomAtMost(max: int, patience: nat) returns (r: Option<int>, draws: nat)
      requires lfsr < RANGE && patience >= 1
      modifies this
      ensures lfsr == Draw(old(lfsr), draws) && draws <= patience
      ensures max <= 0 ==> r == Some(0) && draws == 0
      ensures max > 0 ==> (r.None? <==> AllRejected(old(lfsr), Limit(max + 1), patience))
      ensures max >= RANGE ==> r.None?
      ensures max < RANGE && patience >= 17 ==> r.Some? && draws <= 17
      ensures max > 0 && r.Some? ==>
                && draws >= 1 && lfsr < Limit(max + 1)
                && AllRejected(old(lfsr), Limit(max + 1), draws - 1) && r.value == lfsr % (max + 1)
    {
      if max <= 0 {
        return Some(0), 0;
      }
      LimitIsHigh(max + 1);
      var v;
      v, draws := DrawBelow(RANGE - RANGE % (max + 1), patience);
      Ends(old(lfsr), max + 1, patience, draws, v.None?);
      r := if v.Some? then Some(v.value % (max + 1)) else None;
    }
  }

  lemma Ends(x: nat, bins: nat, patience: nat, draws: nat, still: bool)
    requires x < RANGE && bins > 0 && 1 <= draws <= patience && (still <==> AllRejected(x, Limit(bins), patience))
    requires !still ==> AllRejected(x, Limit(bins), draws - 1)
    ensures bins > RANGE ==> still
    ensures bins <= RANGE && patience >= 17 ==> !still && draws <= 17
  {
    LimitIsHigh(bins);
    if bins > RANGE {
      ZeroRejectsAll(x, patience);
    } else if still && patience >= 17 {
      RejectionBound(x, Limit(bins), patience);
    } else if !still {
      RejectionBound(x, Limit(bins), draws - 1);
    }
  }
}
