/** How many blocks a call has to allocate and how many there are: when balloc, and whatever calls
    it, panics. */
module Supply {
  import opened Counting
  import opened Blocks
  import opened Bitmap
  import opened FsLayout
  import opened FileBytes

  /** The places of the data blocks lo, lo + 1, ..., hi - 1. */
  ghost function PlacesOf(lo: nat, hi: nat): (ps: set<nat>)
    decreases hi
  {
    if hi <= lo then {} else PlacesOf(lo, hi - 1) + Places(hi - 1)
  }

  lemma {:induction false} PlaceIn(lo: nat, hi: nat, q: nat)
    requires lo <= hi
    ensures q in PlacesOf(lo, hi) <==> exists bn: nat :: lo <= bn < hi && q in Places(bn)
    decreases hi
  {
    if lo < hi {
      PlaceIn(lo, hi - 1, q);
      assert q in Places(hi - 1) ==> lo <= hi - 1 < hi;
    }
  }

  /** The blocks whose bit is clear. */
  ghost function Clear(sb: Super, d: Disk): (bs: set<nat>)
    requires sb.Valid() && |d| == sb.size
  {
    set a: nat | a < sb.size && !InUse(d, sb.bmapstart, a)
  }

  /** The places among ps at which inode i has no block. */
  ghost function Lacking(v: View, i: nat, ps: set<nat>): (qs: set<nat>)
    requires i < |v.inodes|
  {
    set p: nat | p in ps && p < POSITIONS && SlotAddr(v.disk, v.inodes[i], p) == 0
  }

  /** Nothing is missing at the places ps, or an operation is open, so that log_write is allowed,
      and there is a free block for each. */
  ghost predicate Affords(sb: Super, v: View, i: nat, ps: set<nat>, open: nat)
    requires Good(sb, v.disk, v.inodes, v.owner, {}) && i < |v.inodes|
  {
    Lacking(v, i, ps) == {} || (open >= 1 && |Lacking(v, i, ps)| <= |Clear(sb, v.disk)|)
  }

  lemma NoneLacking(v: View, i: nat, ps: set<nat>)
    requires i < |v.inodes|
    ensures Lacking(v, i, ps) == {} <==> Filled(v, i, ps)
  {
    if Lacking(v, i, ps) == {} {
      forall q: nat | q in ps && q < POSITIONS
        ensures SlotAddr(v.disk, v.inodes[i], q) != 0
      {
        assert q in Lacking(v, i, ps) <==> SlotAddr(v.disk, v.inodes[i], q) == 0;
      }
    }
  }

  /** A file without holes lacks nothing below its end. */
  lemma WholeLacksNothing(v: View, i: nat, lo: nat, hi: nat)
    requires i < |v.inodes| && NoHoles(v.disk, v.inodes[i]) && lo <= hi
    requires hi <= MAXFILE && (lo < hi ==> (hi - 1) * BSIZE < v.inodes[i].size)
    ensures Lacking(v, i, PlacesOf(lo, hi)) == {}
  {
    forall q: nat | q in PlacesOf(lo, hi) && q < POSITIONS
      ensures SlotAddr(v.disk, v.inodes[i], q) != 0
    {
      PlaceIn(lo, hi, q);
      var bn: nat :| lo <= bn < hi && q in Places(bn);
      assert SlotAddr(v.disk, v.inodes[i], DataPos(bn)) != 0;
    }
    NoneLacking(v, i, PlacesOf(lo, hi));
  }

  // ---- counting ----

  lemma ClearIs(sb: Super, d: Disk, owner: map<nat, Slot>)
    requires sb.Valid() && |d| == sb.size && Marked(sb, d, owner, {})
    requires forall a: nat :: a in owner ==> sb.nmeta <= a < sb.size
    ensures owner.Keys <= Span(sb.nmeta, sb.size) && Clear(sb, d) == Span(sb.nmeta, sb.size) - owner.Keys
  {
  }

  /** Data blocks are either reached by an inode or clear in the bitmap. */
  lemma ClearCount(sb: Super, d: Disk, ns: seq<Dinode>, owner: map<nat, Slot>)
    requires Good(sb, d, ns, owner, {})
    ensures |Clear(sb, d)| == sb.size - sb.nmeta - |owner|
  {
    ClearIs(sb, d, owner);
    SpanCount(sb.nmeta, sb.size);
    SubsetCount(owner.Keys, Span(sb.nmeta, sb.size));
  }

  // ---- the same in numbers ----

  /** 1 if place p of inode i is empty, else 0. */
  ghost function Need(v: View, i: nat, p: nat): (n: nat)
    requires i < |v.inodes| && p < POSITIONS
  {
    if SlotAddr(v.disk, v.inodes[i], p) == 0 then 1 else 0
  }

  /** What bmap has to allocate for the file's bn-th block. */
  ghost function NeedFor(v: View, i: nat, bn: nat): (n: nat)
    requires i < |v.inodes| && bn < MAXFILE
  {
    if bn < NDIRECT then Need(v, i, bn) else Need(v, i, NDIRECT) + Need(v, i, bn + 1)
  }

  /** What it has to allocate for the blocks lo, ..., hi - 1; the indirect block counts once. */
  ghost function Debt(v: View, i: nat, lo: nat, hi: nat): (n: nat)
    requires i < |v.inodes| && hi <= MAXFILE
    decreases hi
  {
    if hi <= lo then 0
    else
      Debt(v, i, lo, hi - 1)
      + (if hi - 1 == lo || hi - 1 <= NDIRECT then NeedFor(v, i, hi - 1) else Need(v, i, hi))
  }

  ghost function Room(sb: Super, v: View): (n: int) { sb.size - sb.nmeta - |v.owner| }

  ghost predicate CanPay(sb: Super, v: View, n: nat, open: nat) {
    n == 0 || (open >= 1 && n <= Room(sb, v))
  }

  lemma {:induction false} DebtGrows(v: View, i: nat, lo: nat, mid: nat, hi: nat)
    requires i < |v.inodes| && mid <= hi <= MAXFILE
    ensures Debt(v, i, lo, mid) <= Debt(v, i, lo, hi)
    decreases hi
  {
    if mid < hi {
      DebtGrows(v, i, lo, mid, hi - 1);
    }
  }

  /** Which places the blocks from lo to bn - 1 leave for block bn. */
  lemma NotYetVisited(lo: nat, bn: nat)
    requires lo <= bn < MAXFILE
    ensures DataPos(bn) !in PlacesOf(lo, bn)
    ensures NDIRECT in PlacesOf(lo, bn) <==> lo < bn && bn > NDIRECT
  {
    PlaceIn(lo, bn, DataPos(bn));
    PlaceIn(lo, bn, NDIRECT);
    if lo < bn && bn > NDIRECT {
      assert NDIRECT in Places(bn - 1);
    }
  }

  lemma LackingPlus(v: View, i: nat, ps: set<nat>, p: nat)
    requires i < |v.inodes| && p < POSITIONS && p !in ps
    ensures |Lacking(v, i, ps + {p})| == |Lacking(v, i, ps)| + Need(v, i, p)
  {
    assert Lacking(v, i, ps + {p}) == Lacking(v, i, ps) + if Need(v, i, p) == 1 then {p} else {};
  }

  lemma LackingMore(v: View, i: nat, lo: nat, bn: nat)
    requires i < |v.inodes| && lo <= bn < MAXFILE
    ensures |Lacking(v, i, PlacesOf(lo, bn + 1))| == |Lacking(v, i, PlacesOf(lo, bn))|
              + if bn == lo || bn <= NDIRECT then NeedFor(v, i, bn) else Need(v, i, bn + 1)
  {
    NotYetVisited(lo, bn);
    var ps := PlacesOf(lo, bn);
    if bn < NDIRECT {
      assert PlacesOf(lo, bn + 1) == ps + {bn};
      LackingPlus(v, i, ps, bn);
    } else if NDIRECT in ps {
      assert PlacesOf(lo, bn + 1) == ps + {bn + 1};
      LackingPlus(v, i, ps, bn + 1);
    } else {
      assert PlacesOf(lo, bn + 1) == ps + {NDIRECT} + {bn + 1};
      LackingPlus(v, i, ps, NDIRECT);
      LackingPlus(v, i, ps + {NDIRECT}, bn + 1);
    }
  }

  lemma {:induction false} DebtIs(v: View, i: nat, lo: nat, hi: nat)
    requires i < |v.inodes| && hi <= MAXFILE
    ensures Debt(v, i, lo, hi) == |Lacking(v, i, PlacesOf(lo, hi))|
    decreases hi
  {
    if hi <= lo {
      assert Lacking(v, i, PlacesOf(lo, hi)) == {};
    } else {
      DebtIs(v, i, lo, hi - 1);
      LackingMore(v, i, lo, hi - 1);
    }
  }

  lemma AffordsIs(sb: Super, v: View, i: nat, lo: nat, hi: nat, open: nat)
    requires Good(sb, v.disk, v.inodes, v.owner, {}) && i < |v.inodes| && hi <= MAXFILE
    ensures Affords(sb, v, i, PlacesOf(lo, hi), open) <==> CanPay(sb, v, Debt(v, i, lo, hi), open)
    ensures Lacking(v, i, PlacesOf(lo, hi)) == {} <==> Debt(v, i, lo, hi) == 0
  {
    DebtIs(v, i, lo, hi);
    ClearCount(sb, v.disk, v.inodes, v.owner);
  }

  // ---- the loops of readi and writei ----

  lemma OneUsed(owner: map<nat, Slot>, b: nat, s: Slot)
    requires b !in owner
    ensures |owner[b := s]| == |owner| + 1
  {
    assert owner[b := s].Keys == owner.Keys + {b};
  }

  lemma RoomLeft(sb: Super, v: View)
    requires Good(sb, v.disk, v.inodes, v.owner, {})
    ensures Room(sb, v) >= 0
    ensures Room(sb, v) == 0 <==> forall a: nat :: a < sb.size ==> InUse(v.disk, sb.bmapstart, a)
  {
    ClearCount(sb, v.disk, v.inodes, v.owner);
    if Clear(sb, v.disk) == {} {
      forall a: nat | a < sb.size
        ensures InUse(v.disk, sb.bmapstart, a)
      {
        assert a in Clear(sb, v.disk) <==> !InUse(v.disk, sb.bmapstart, a);
      }
    }
  }

  /** From v to w the blocks lo, ..., hi - 1 have been visited, and what they lacked allocated. */
  ghost predicate Spent(v: View, w: View, i: nat, lo: nat, hi: nat, open: nat)
    requires i < |v.inodes| && hi <= MAXFILE
  {
    |w.owner| == |v.owner| + Debt(v, i, lo, hi) && (open == 0 ==> Debt(v, i, lo, hi) == 0)
  }

  /** What block bn needs now is what it adds to the debt. */
  lemma NeedNow(v: View, w: View, i: nat, lo: nat, bn: nat)
    requires Grew(v.disk, v.inodes, w.disk, w.inodes, i, PlacesOf(lo, bn)) && Filled(w, i, PlacesOf(lo, bn))
    requires lo <= bn < MAXFILE
    ensures NeedFor(w, i, bn) == Debt(v, i, lo, bn + 1) - Debt(v, i, lo, bn)
  {
    NotYetVisited(lo, bn);
    assert SlotAddr(w.disk, w.inodes[i], DataPos(bn)) == SlotAddr(v.disk, v.inodes[i], DataPos(bn));
    assert NDIRECT !in PlacesOf(lo, bn) ==>
      SlotAddr(w.disk, w.inodes[i], NDIRECT) == SlotAddr(v.disk, v.inodes[i], NDIRECT);
  }

  lemma SpentMore(sb: Super, v: View, w: View, i: nat, lo: nat, bn: nat, open: nat, owned: nat)
    requires Grew(v.disk, v.inodes, w.disk, w.inodes, i, PlacesOf(lo, bn)) && Filled(w, i, PlacesOf(lo, bn))
    requires lo <= bn < MAXFILE && Spent(v, w, i, lo, bn, open)
    requires owned == |w.owner| + NeedFor(w, i, bn) && CanPay(sb, w, NeedFor(w, i, bn), open)
    ensures owned == |v.owner| + Debt(v, i, lo, bn + 1) && (open == 0 ==> Debt(v, i, lo, bn + 1) == 0)
  {
    NeedNow(v, w, i, lo, bn);
  }

  /** The loop stops short at block bn: there was not enough for all of lo, ..., hi - 1. */
  lemma CannotPay(sb: Super, v: View, w: View, i: nat, lo: nat, bn: nat, hi: nat, open: nat)
    requires Grew(v.disk, v.inodes, w.disk, w.inodes, i, PlacesOf(lo, bn)) && Filled(w, i, PlacesOf(lo, bn))
    requires lo <= bn < hi <= MAXFILE && Spent(v, w, i, lo, bn, open)
    requires !CanPay(sb, w, NeedFor(w, i, bn), open)
    ensures !CanPay(sb, v, Debt(v, i, lo, hi), open)
  {
    NeedNow(v, w, i, lo, bn);
    DebtGrows(v, i, lo, bn + 1, hi);
  }

  // ---- how many blocks are logged ----

  /** Blocks of the bitmap. */
  function BitmapCount(sb: Super): (n: nat) { if sb.size == 0 then 0 else (sb.size - 1) / BPB + 1 }

  ghost function BitmapBlocks(sb: Super): (bs: set<nat>) { Span(sb.bmapstart, sb.bmapstart + BitmapCount(sb)) }

  lemma {:induction false} PlacesCount(lo: nat, hi: nat)
    requires lo <= hi
    ensures |PlacesOf(lo, hi) - {NDIRECT}| <= hi - lo && |PlacesOf(lo, hi)| <= hi - lo + 1
    decreases hi
  {
    var ps := PlacesOf(lo, hi);
    if lo < hi {
      PlacesCount(lo, hi - 1);
      OneMorePlace(PlacesOf(lo, hi - 1), hi - 1);
    }
    SubsetCount(ps, ps - {NDIRECT} + {NDIRECT});
    UnionCount(ps - {NDIRECT}, {NDIRECT});
  }

  lemma OneMorePlace(ps: set<nat>, bn: nat)
    ensures |ps + Places(bn) - {NDIRECT}| <= |ps - {NDIRECT}| + 1
  {
    SubsetCount(ps + Places(bn) - {NDIRECT}, ps - {NDIRECT} + {DataPos(bn)});
    UnionCount(ps - {NDIRECT}, {DataPos(bn)});
  }

  /** The blocks inode i has at the places ps. */
  ghost function BlocksAt(w: View, i: nat, ps: set<nat>): (bs: set<nat>)
    requires i < |w.inodes|
  {
    set p: nat | p in ps && p < POSITIONS :: SlotAddr(w.disk, w.inodes[i], p)
  }

  lemma {:induction false} BlocksCount(w: View, i: nat, ps: set<nat>)
    requires i < |w.inodes|
    ensures |BlocksAt(w, i, ps)| <= |ps|
    decreases |ps|
  {
    if ps != {} {
      var p :| p in ps;
      BlocksCount(w, i, ps - {p});
      var rest, one := BlocksAt(w, i, ps - {p}), if p < POSITIONS then {SlotAddr(w.disk, w.inodes[i], p) as nat} else {};
      assert BlocksAt(w, i, ps) == rest + one;
      UnionCount(rest, one);
    } else {
      assert BlocksAt(w, i, ps) == {};
    }
  }

  /** What the log can have gained. */
  lemma BookedCount(sb: Super, v: View, w: View, i: nat, ps: set<nat>)
    requires sb.Valid() && Booked(sb, v, w, i, ps) && Held(sb, w.disk, w.inodes, w.owner) && i < |w.inodes|
    ensures |w.dirty| <= |v.dirty| + BitmapCount(sb) + |ps|
  {
    var bm, at := BitmapBlocks(sb), BlocksAt(w, i, ps);
    forall b | b in w.dirty
      ensures b in v.dirty + bm + at
    {
      if b !in v.dirty && !IsBitmap(sb, b) {
        assert b == SlotAddr(w.disk, w.inodes[i], w.owner[b].pos);
      }
    }
    SubsetCount(w.dirty, v.dirty + bm + at);
    UnionCount(v.dirty + bm, at);
    UnionCount(v.dirty, bm);
    SpanCount(sb.bmapstart, sb.bmapstart + BitmapCount(sb));
    BlocksCount(w, i, ps);
  }

  /** Every data block from lo to hi - 1 has been logged. */
  ghost predicate DataLogged(w: View, i: nat, lo: nat, hi: nat)
    requires i < |w.inodes| && hi <= MAXFILE
  {
    forall bn: nat :: lo <= bn < hi ==> SlotAddr(w.disk, w.inodes[i], DataPos(bn)) in w.dirty
  }

  ghost function DataBlocks(w: View, i: nat, lo: nat, hi: nat): (bs: set<nat>)
    requires i < |w.inodes| && hi <= MAXFILE
  {
    if hi <= lo then {} else DataBlocks(w, i, lo, hi - 1) + {SlotAddr(w.disk, w.inodes[i], DataPos(hi - 1))}
  }

  lemma {:induction false} DataBlocksCount(sb: Super, w: View, i: nat, lo: nat, hi: nat)
    requires Claims(sb, w.disk, w.inodes, w.owner) && i < |w.inodes| && lo <= hi <= MAXFILE && DataLogged(w, i, lo, hi)
    requires forall bn: nat :: lo <= bn < hi ==> SlotAddr(w.disk, w.inodes[i], DataPos(bn)) != 0
    ensures |DataBlocks(w, i, lo, hi)| == hi - lo && DataBlocks(w, i, lo, hi) <= w.dirty
    ensures forall b :: b in DataBlocks(w, i, lo, hi) ==> b in w.owner && w.owner[b].pos < DataPos(hi)
    decreases hi
  {
    if lo < hi {
      DataBlocksCount(sb, w, i, lo, hi - 1);
      var b := SlotAddr(w.disk, w.inodes[i], DataPos(hi - 1));
      assert b != 0 && b in w.owner && w.owner[b] == Slot(i, DataPos(hi - 1));
      assert b !in DataBlocks(w, i, lo, hi - 1);
    }
  }

  /** So a log of fewer slots than that cannot hold them. */
  lemma DataFits(sb: Super, w: View, i: nat, lo: nat, hi: nat, slots: nat)
    requires Claims(sb, w.disk, w.inodes, w.owner) && i < |w.inodes| && lo <= hi <= MAXFILE && DataLogged(w, i, lo, hi)
    requires forall bn: nat :: lo <= bn < hi ==> SlotAddr(w.disk, w.inodes[i], DataPos(bn)) != 0
    requires |w.dirty| <= slots
    ensures hi - lo <= slots
  {
    DataBlocksCount(sb, w, i, lo, hi);
    SubsetCount(DataBlocks(w, i, lo, hi), w.dirty);
  }

  // ---- when a step fails ----

  /** A step that has to allocate `need` blocks, and logs at most k, fails if it cannot pay, and if it
      can then only for want of log slots. */
  ghost predicate Fair(sb: Super, v: View, need: nat, open: nat, slots: nat, k: nat, ok: bool) {
    && (ok ==> CanPay(sb, v, need, open))
    && (CanPay(sb, v, need, open) && (need == 0 || |v.dirty| + k <= slots) ==> ok)
  }

  lemma FairFirst(sb: Super, v: View, a: nat, n: nat, open: nat, slots: nat, k: nat, m: nat)
    requires Fair(sb, v, a, open, slots, k, false) && a <= n
    ensures Fair(sb, v, n, open, slots, k + m, false)
  {
  }

  lemma FairTwice(sb: Super, v: View, mid: View, a: nat, b: nat, n: nat, open: nat, slots: nat, k: nat, m: nat, ok: bool)
    requires Fair(sb, v, a, open, slots, k, true) && Fair(sb, mid, b, open, slots, m, ok) && n == a + b
    requires |mid.owner| == |v.owner| + a && |mid.dirty| <= |v.dirty| + k
    ensures Fair(sb, v, n, open, slots, k + m, ok)
  {
  }

  /** bmap has failed at block bn. */
  lemma PassFails(sb: Super, v: View, w: View, i: nat, lo: nat, bn: nat, hi: nat, open: nat, slots: nat)
    requires Grew(v.disk, v.inodes, w.disk, w.inodes, i, PlacesOf(lo, bn)) && Filled(w, i, PlacesOf(lo, bn))
    requires lo <= bn < hi <= MAXFILE && Spent(v, w, i, lo, bn, open)
    requires Fair(sb, w, NeedFor(w, i, bn), open, slots, 5, false)
    ensures Debt(v, i, lo, hi) > 0
    ensures !CanPay(sb, v, Debt(v, i, lo, hi), open) || |w.dirty| + 5 > slots
  {
    NeedNow(v, w, i, lo, bn);
    DebtGrows(v, i, lo, bn + 1, hi);
    if |w.dirty| + 5 <= slots {
      CannotPay(sb, v, w, i, lo, bn, hi, open);
    }
  }

  /** Nothing is missing in lo, ..., hi - 1, so block bn is there. */
  lemma NothingMissing(v: View, w: View, i: nat, lo: nat, bn: nat, hi: nat)
    requires Grew(v.disk, v.inodes, w.disk, w.inodes, i, PlacesOf(lo, bn)) && Filled(w, i, PlacesOf(lo, bn))
    requires lo <= bn < hi <= MAXFILE
    ensures Debt(v, i, lo, hi) == 0 ==> SlotAddr(w.disk, w.inodes[i], DataPos(bn)) != 0
  {
    NeedNow(v, w, i, lo, bn);
    DebtGrows(v, i, lo, bn + 1, hi);
  }

  lemma SpanLogged(sb: Super, v: View, w: View, i: nat, lo: nat, hi: nat)
    requires Good(sb, w.disk, w.inodes, w.owner, {}) && Booked(sb, v, w, i, PlacesOf(lo, hi)) && i < |w.inodes| && lo <= hi
    ensures |w.dirty| <= |v.dirty| + BitmapCount(sb) + (hi - lo) + 1
  {
    BookedCount(sb, v, w, i, PlacesOf(lo, hi));
    PlacesCount(lo, hi);
  }

  /** Inode i has its blocks where it had them. */
  ghost predicate SameAddrs(y: View, x: View, i: nat) {
    && i < |y.inodes| == |x.inodes|
    && forall q: nat :: q < POSITIONS ==> SlotAddr(x.disk, x.inodes[i], q) == SlotAddr(y.disk, y.inodes[i], q)
  }

  /** bmap for block hi leads from w to y, and writing the block from y to x. */
  lemma DataMore(w: View, y: View, x: View, i: nat, lo: nat, hi: nat, addr: nat)
    requires lo <= hi < MAXFILE && Grew(w.disk, w.inodes, y.disk, y.inodes, i, Places(hi)) && w.dirty <= y.dirty
    requires Filled(w, i, PlacesOf(lo, hi)) && DataLogged(w, i, lo, hi)
    requires SameAddrs(y, x, i) && x.dirty == y.dirty + {addr} && addr == SlotAddr(y.disk, y.inodes[i], DataPos(hi))
    ensures DataLogged(x, i, lo, hi + 1)
  {
    forall bn: nat | lo <= bn < hi + 1
      ensures SlotAddr(x.disk, x.inodes[i], DataPos(bn)) in x.dirty
    {
      if bn < hi {
        DataThere(w, i, lo, hi, bn);
        assert SlotAddr(y.disk, y.inodes[i], DataPos(bn)) == SlotAddr(w.disk, w.inodes[i], DataPos(bn));
      }
    }
  }

  lemma DataThere(w: View, i: nat, lo: nat, hi: nat, bn: nat)
    requires Filled(w, i, PlacesOf(lo, hi)) && lo <= bn < hi <= MAXFILE
    ensures SlotAddr(w.disk, w.inodes[i], DataPos(bn)) != 0
  {
    assert DataPos(bn) in Places(bn);
    PlaceIn(lo, hi, DataPos(bn));
  }

  lemma AllData(sb: Super, w: View, i: nat, lo: nat, hi: nat, slots: nat)
    requires Good(sb, w.disk, w.inodes, w.owner, {}) && lo <= hi <= MAXFILE && Filled(w, i, PlacesOf(lo, hi))
    requires DataLogged(w, i, lo, hi) && |w.dirty| <= slots
    ensures hi - lo <= slots
  {
    forall bn: nat | lo <= bn < hi
      ensures SlotAddr(w.disk, w.inodes[i], DataPos(bn)) != 0
    {
      DataThere(w, i, lo, hi, bn);
    }
    DataFits(sb, w, i, lo, hi, slots);
  }
}
