/** The ledger while itrunc empties an inode place by place: each block goes back to the bitmap
    once, and nothing but bitmap bits is written on the way. */
module Truncate {
  import opened Blocks
  import opened Bitmap
  import opened FsLayout
  import opened FileBytes

  /** Only bitmap blocks differ. */
  ghost predicate OnlyBitmap(sb: Super, d: Disk, e: Disk) {
    |d| == |e| && forall b: nat :: b < |d| && (b < sb.bmapstart || b >= sb.nmeta) ==> e[b] == d[b]
  }

  /** The ledger without the places of inode i below position p. */
  ghost predicate Without(owner: map<nat, Slot>, after: map<nat, Slot>, i: nat, p: nat) {
    && (forall a: nat :: a in after <==> a in owner && !(owner[a].inum == i && owner[a].pos < p))
    && (forall a: nat :: a in after ==> after[a] == owner[a])
  }

  ghost predicate Emptied(ns: seq<Dinode>, ms: seq<Dinode>, i: nat, p: nat) {
    && i < |ns| == |ms|
    && (forall k: nat :: k < |ns| && k != i ==> ms[k] == ns[k])
    && ms[i] == ns[i].(addrs := ms[i].addrs)
    && (forall q: nat :: q <= NDIRECT ==> ms[i].addrs[q] == if q < p then 0 else ns[i].addrs[q])
  }

  ghost predicate Cleared(sb: Super, v: View, w: View, i: nat, p: nat) {
    && Good(sb, w.disk, w.inodes, w.owner, {})
    && OnlyBitmap(sb, v.disk, w.disk)
    && Emptied(v.inodes, w.inodes, i, p)
    && Without(v.owner, w.owner, i, p)
  }

  lemma ClearedNothing(sb: Super, v: View, i: nat)
    requires Good(sb, v.disk, v.inodes, v.owner, {}) && i < |v.inodes|
    ensures Cleared(sb, v, v, i, 0)
  {
  }

  /** An empty place holds no block. */
  lemma ClearSkip(sb: Super, v: View, w: View, i: nat, p: nat)
    requires Cleared(sb, v, w, i, p) && p < NDIRECT && w.inodes[i].addrs[p] == 0
    ensures Cleared(sb, v, w, i, p + 1)
  {
    assert SlotAddr(w.disk, w.inodes[i], p) == 0;
    assert forall a: nat :: a in w.owner ==> w.owner[a] != Slot(i, p);
  }

  /** Freeing the block at a direct place: its bit was set, and the ledger stays exact. */
  lemma ClearDirect(sb: Super, v: View, w: View, x: View, i: nat, p: nat)
    requires Cleared(sb, v, w, i, p) && p < NDIRECT && w.inodes[i].addrs[p] != 0
    requires var a := w.inodes[i].addrs[p];
             && BlockOf(sb.bmapstart, a) < |w.disk|
             && x == View(Mark(w.disk, sb.bmapstart, a, false), w.inodes[i := Pointing(w.inodes[i], p, 0)],
                          w.owner - {a}, x.dirty)
    ensures InUse(w.disk, sb.bmapstart, w.inodes[i].addrs[p]) && Cleared(sb, v, x, i, p + 1)
  {
    var a := w.inodes[i].addrs[p];
    FreeDirect(sb, w, i, p);
    MarkOnlyBitmap(sb, v.disk, w.disk, a);
    assert Without(v.owner, w.owner - {a}, i, p + 1) by {
      OneLess(v.owner, w.owner, i, p, a);
    }
    OneEmptied(v.inodes, w.inodes, i, p);
  }

  lemma OneEmptied(ns: seq<Dinode>, ms: seq<Dinode>, i: nat, p: nat)
    requires Emptied(ns, ms, i, p) && p < NDIRECT
    ensures Emptied(ns, ms[i := Pointing(ms[i], p, 0)], i, p + 1)
  {
  }

  lemma MarkOnlyBitmap(sb: Super, d: Disk, e: Disk, a: nat)
    requires OnlyBitmap(sb, d, e) && BlockOf(sb.bmapstart, a) < sb.nmeta && BlockOf(sb.bmapstart, a) < |e|
    ensures OnlyBitmap(sb, d, Mark(e, sb.bmapstart, a, false))
  {
  }

  lemma OneLess(owner: map<nat, Slot>, after: map<nat, Slot>, i: nat, p: nat, a: nat)
    requires Without(owner, after, i, p) && a in after && after[a] == Slot(i, p)
    requires forall b: nat :: b in after && after[b] == Slot(i, p) ==> b == a
    ensures Without(owner, after - {a}, i, p + 1)
  {
  }

  lemma FreeDirect(sb: Super, w: View, i: nat, p: nat)
    requires Good(sb, w.disk, w.inodes, w.owner, {}) && i < |w.inodes| && p < NDIRECT && w.inodes[i].addrs[p] != 0
    ensures var a := w.inodes[i].addrs[p];
            && BlockOf(sb.bmapstart, a) < sb.nmeta <= a < sb.size && InUse(w.disk, sb.bmapstart, a)
            && Good(sb, Mark(w.disk, sb.bmapstart, a, false), w.inodes[i := Pointing(w.inodes[i], p, 0)],
                    w.owner - {a}, {})
            && a in w.owner && w.owner[a] == Slot(i, p)
            && forall b: nat :: b in w.owner && w.owner[b] == Slot(i, p) ==> b == a
  {
    var a := w.inodes[i].addrs[p];
    assert SlotAddr(w.disk, w.inodes[i], p) == a;
    assert w.owner[a] == Slot(i, p);
    var u := Under(w.owner, i, p);
    assert u == {a} by {
      forall b: nat | b in u
        ensures b == a
      {
        assert SlotAddr(w.disk, w.inodes[w.owner[b].inum], w.owner[b].pos) == b;
      }
    }
    var ms := w.inodes[i := Pointing(w.inodes[i], p, 0)];
    assert Good(sb, w.disk, ms, w.owner - {a}, {a}) by {
      UnlinkKeepsGood(sb, w.disk, w.inodes, w.owner, {}, i, p);
      assert {} + u == {a} && w.owner - u == w.owner - {a};
    }
    MarkKeepsGood(sb, w.disk, ms, w.owner - {a}, {a}, a, false);
    assert {a} - {a} == {};
  }

  // ---- the indirect block ----

  /** What is still to be freed once the first j words of the indirect block are done: the rest of
      the words and the block itself. */
  ghost function Left(owner: map<nat, Slot>, i: nat, j: nat): (s: set<nat>)
  {
    set a: nat | a in owner && owner[a].inum == i && (owner[a].pos == NDIRECT || owner[a].pos >= 13 + j)
  }

  /** The ledger after the inode has let go of its indirect block. */
  ghost predicate Freeing(sb: Super, w: View, e: Disk, i: nat, j: nat) {
    && i < |w.inodes|
    && Good(sb, e, w.inodes[i := Pointing(w.inodes[i], NDIRECT, 0)], w.owner - Left(w.owner, i, 0), Left(w.owner, i, j))
    && OnlyBitmap(sb, w.disk, e)
  }

  lemma FreeingStart(sb: Super, w: View, i: nat)
    requires Good(sb, w.disk, w.inodes, w.owner, {}) && i < |w.inodes|
    ensures Freeing(sb, w, w.disk, i, 0)
  {
    UnlinkKeepsGood(sb, w.disk, w.inodes, w.owner, {}, i, NDIRECT);
    assert Under(w.owner, i, NDIRECT) == Left(w.owner, i, 0);
    assert {} + Left(w.owner, i, 0) == Left(w.owner, i, 0);
  }

  /** A word of the indirect block is the next block to free, or nothing. */
  lemma NextLeft(sb: Super, w: View, i: nat, j: nat)
    requires Good(sb, w.disk, w.inodes, w.owner, {}) && i < |w.inodes| && w.inodes[i].addrs[NDIRECT] != 0
    requires j < NINDIRECT
    ensures var a := SlotAddr(w.disk, w.inodes[i], 13 + j);
            && Left(w.owner, i, j + 1) == Left(w.owner, i, j) - {a}
            && (a != 0 ==> a in Left(w.owner, i, j) && sb.nmeta <= a)
  {
    var a := SlotAddr(w.disk, w.inodes[i], 13 + j);
    assert a != 0 ==> w.owner[a] == Slot(i, 13 + j);
    forall b: nat | b in w.owner && w.owner[b] == Slot(i, 13 + j)
      ensures b == a
    {
      assert SlotAddr(w.disk, w.inodes[w.owner[b].inum], w.owner[b].pos) == b;
    }
  }

  lemma StillLeft(sb: Super, w: View, e: Disk, i: nat, j: nat)
    requires Freeing(sb, w, e, i, j) && Left(w.owner, i, j + 1) == Left(w.owner, i, j) - {0}
    ensures Freeing(sb, w, e, i, j + 1)
  {
    assert 0 !in Left(w.owner, i, j);
    assert Left(w.owner, i, j) - {0} == Left(w.owner, i, j);
  }

  lemma FreeingStep(sb: Super, w: View, e: Disk, i: nat, j: nat, k: nat, a: nat)
    requires Freeing(sb, w, e, i, j) && a in Left(w.owner, i, j)
    requires Left(w.owner, i, k) == Left(w.owner, i, j) - {a}
    ensures BlockOf(sb.bmapstart, a) < sb.nmeta <= a < sb.size && InUse(e, sb.bmapstart, a)
    ensures Freeing(sb, w, Mark(e, sb.bmapstart, a, false), i, k)
  {
    MarkKeepsGood(sb, e, w.inodes[i := Pointing(w.inodes[i], NDIRECT, 0)], w.owner - Left(w.owner, i, 0),
                  Left(w.owner, i, j), a, false);
  }

  /** After the 128 words only the indirect block is left. */
  lemma LastLeft(sb: Super, w: View, i: nat)
    requires Good(sb, w.disk, w.inodes, w.owner, {}) && i < |w.inodes| && w.inodes[i].addrs[NDIRECT] != 0
    ensures Left(w.owner, i, NINDIRECT) == {w.inodes[i].addrs[NDIRECT]}
  {
    var ind := w.inodes[i].addrs[NDIRECT];
    assert SlotAddr(w.disk, w.inodes[i], NDIRECT) == ind;
    assert w.owner[ind] == Slot(i, NDIRECT);
    forall b: nat | b in Left(w.owner, i, NINDIRECT)
      ensures b == ind
    {
      assert SlotAddr(w.disk, w.inodes[w.owner[b].inum], w.owner[b].pos) == b;
    }
  }

  lemma FreedAll(sb: Super, w: View, e: Disk, i: nat)
    requires Freeing(sb, w, e, i, NINDIRECT) && Left(w.owner, i, NINDIRECT) == {w.inodes[i].addrs[NDIRECT]}
    ensures var ind := w.inodes[i].addrs[NDIRECT];
            && BlockOf(sb.bmapstart, ind) < sb.nmeta <= ind < sb.size && InUse(e, sb.bmapstart, ind)
            && Good(sb, Mark(e, sb.bmapstart, ind, false), w.inodes[i := Pointing(w.inodes[i], NDIRECT, 0)],
                    w.owner - Left(w.owner, i, 0), {})
            && OnlyBitmap(sb, w.disk, Mark(e, sb.bmapstart, ind, false))
  {
    var ind := w.inodes[i].addrs[NDIRECT];
    MarkKeepsGood(sb, e, w.inodes[i := Pointing(w.inodes[i], NDIRECT, 0)], w.owner - Left(w.owner, i, 0),
                  {ind}, ind, false);
    assert {ind} - {ind} == {};
    MarkOnlyBitmap(sb, w.disk, e, ind);
  }

  /** With no indirect block the places behind it hold nothing. */
  lemma NoneLeft(sb: Super, w: View, i: nat)
    requires Good(sb, w.disk, w.inodes, w.owner, {}) && i < |w.inodes| && w.inodes[i].addrs[NDIRECT] == 0
    ensures Left(w.owner, i, 0) == {}
  {
    forall b: nat | b in w.owner && w.owner[b].inum == i
      ensures w.owner[b].pos < NDIRECT
    {
      assert SlotAddr(w.disk, w.inodes[w.owner[b].inum], w.owner[b].pos) == b;
    }
  }

  /** With the bits of disk e the inode can do without its indirect block. */
  ghost predicate IndirectGone(sb: Super, w: View, e: Disk, i: nat) {
    && i < |w.inodes| && OnlyBitmap(sb, w.disk, e)
    && Good(sb, e, w.inodes[i := Pointing(w.inodes[i], NDIRECT, 0)], w.owner - Left(w.owner, i, 0), {})
  }

  lemma NoIndirect(sb: Super, w: View, i: nat)
    requires Good(sb, w.disk, w.inodes, w.owner, {}) && i < |w.inodes| && w.inodes[i].addrs[NDIRECT] == 0
    ensures IndirectGone(sb, w, w.disk, i) && w.inodes[i := Pointing(w.inodes[i], NDIRECT, 0)] == w.inodes
  {
    NoneLeft(sb, w, i);
    FreeingStart(sb, w, i);
    assert w.inodes[i].addrs[NDIRECT := 0] == w.inodes[i].addrs;
  }

  lemma ClearIndirect(sb: Super, v: View, w: View, e: Disk, i: nat, dirty: set<nat>)
    requires Cleared(sb, v, w, i, NDIRECT) && IndirectGone(sb, w, e, i)
    ensures Cleared(sb, v, View(e, w.inodes[i := Pointing(w.inodes[i], NDIRECT, 0)], w.owner - Left(w.owner, i, 0),
                                dirty), i, POSITIONS)
  {
    assert Emptied(v.inodes, w.inodes[i := Pointing(w.inodes[i], NDIRECT, 0)], i, POSITIONS);
    assert Without(v.owner, w.owner - Left(w.owner, i, 0), i, POSITIONS) by {
      AllLess(sb, v, w, i);
    }
  }

  lemma AllLess(sb: Super, v: View, w: View, i: nat)
    requires Without(v.owner, w.owner, i, NDIRECT) && Held(sb, w.disk, w.inodes, w.owner)
    ensures Without(v.owner, w.owner - Left(w.owner, i, 0), i, POSITIONS)
  {
  }

  // ---- what is logged on the way ----

  /** The bitmap blocks that hold the bits of inode i's blocks. */
  ghost function BitsOf(sb: Super, owner: map<nat, Slot>, i: nat): (bs: set<nat>)
  {
    set a: nat | a in owner && owner[a].inum == i :: BlockOf(sb.bmapstart, a)
  }

  /** Of all that itrunc will have logged, the log lists what belongs to the blocks already freed. */
  ghost predicate Accounts(sb: Super, v: View, owner: map<nat, Slot>, dirty: set<nat>, i: nat, all: set<nat>) {
    && all == v.dirty + BitsOf(sb, v.owner, i)
    && v.dirty <= dirty <= all
    && forall a: nat :: a in v.owner && v.owner[a].inum == i && a !in owner ==> BlockOf(sb.bmapstart, a) in dirty
  }

  lemma AccountsStart(sb: Super, v: View, i: nat)
    ensures Accounts(sb, v, v.owner, v.dirty, i, v.dirty + BitsOf(sb, v.owner, i))
  {
  }

  lemma AccountsOne(sb: Super, v: View, w: View, i: nat, p: nat, a: nat, all: set<nat>)
    requires Cleared(sb, v, w, i, p) && p < NDIRECT && a == w.inodes[i].addrs[p] != 0
    requires Accounts(sb, v, w.owner, w.dirty, i, all)
    ensures BlockOf(sb.bmapstart, a) < |w.disk|
    ensures Accounts(sb, v, w.owner - {a}, w.dirty + {BlockOf(sb.bmapstart, a)}, i, all)
  {
    assert SlotAddr(w.disk, w.inodes[i], p) == a;
    assert a in w.owner && w.owner[a] == Slot(i, p);
    assert a in v.owner && v.owner[a].inum == i;
    assert a < sb.size && a / BPB <= sb.size / BPB;
  }

  /** The same for the blocks behind the indirect block, whose ledger entries go together. */
  ghost predicate LeavesLogged(sb: Super, w: View, dirty: set<nat>, i: nat, j: nat, all: set<nat>) {
    && w.dirty <= dirty <= all
    && (forall a: nat :: a in Left(w.owner, i, 0) ==> BlockOf(sb.bmapstart, a) in all)
    && forall a: nat :: a in Left(w.owner, i, 0) && a !in Left(w.owner, i, j) ==> BlockOf(sb.bmapstart, a) in dirty
  }

  ghost predicate LeavesGone(sb: Super, w: View, dirty: set<nat>, i: nat, all: set<nat>) {
    w.dirty <= dirty <= all && forall a: nat :: a in Left(w.owner, i, 0) ==> BlockOf(sb.bmapstart, a) in dirty
  }

  lemma LeavesStart(sb: Super, v: View, w: View, i: nat, all: set<nat>)
    requires Without(v.owner, w.owner, i, NDIRECT) && Accounts(sb, v, w.owner, w.dirty, i, all)
    ensures LeavesLogged(sb, w, w.dirty, i, 0, all)
  {
    forall a: nat | a in Left(w.owner, i, 0)
      ensures BlockOf(sb.bmapstart, a) in all
    {
      assert a in v.owner && v.owner[a].inum == i;
    }
  }

  lemma LeafLogged(sb: Super, w: View, dirty: set<nat>, i: nat, j: nat, k: nat, a: nat, all: set<nat>)
    requires LeavesLogged(sb, w, dirty, i, j, all) && a in Left(w.owner, i, j)
    requires Left(w.owner, i, k) == Left(w.owner, i, j) - {a}
    ensures LeavesLogged(sb, w, dirty + {BlockOf(sb.bmapstart, a)}, i, k, all)
  {
    assert a in Left(w.owner, i, 0);
  }

  lemma LeafSkipped(sb: Super, w: View, dirty: set<nat>, i: nat, j: nat, all: set<nat>)
    requires LeavesLogged(sb, w, dirty, i, j, all) && Left(w.owner, i, j + 1) == Left(w.owner, i, j) - {0}
    requires Good(sb, w.disk, w.inodes, w.owner, {})
    ensures LeavesLogged(sb, w, dirty, i, j + 1, all)
  {
    assert 0 !in Left(w.owner, i, j);
    assert Left(w.owner, i, j) - {0} == Left(w.owner, i, j);
  }

  lemma LastLogged(sb: Super, w: View, dirty: set<nat>, i: nat, ind: nat, all: set<nat>)
    requires LeavesLogged(sb, w, dirty, i, NINDIRECT, all) && Left(w.owner, i, NINDIRECT) == {ind}
    ensures LeavesGone(sb, w, dirty + {BlockOf(sb.bmapstart, ind)}, i, all)
  {
    assert ind in Left(w.owner, i, NINDIRECT);
    assert ind in Left(w.owner, i, 0);
  }

  lemma AccountsRest(sb: Super, v: View, w: View, dirty: set<nat>, i: nat, all: set<nat>)
    requires Accounts(sb, v, w.owner, w.dirty, i, all) && LeavesGone(sb, w, dirty, i, all)
    ensures Accounts(sb, v, w.owner - Left(w.owner, i, 0), dirty, i, all)
  {
  }

  /** Once all its blocks are freed, all of it is logged. */
  lemma AllAccounted(sb: Super, v: View, w: View, i: nat, all: set<nat>)
    requires Accounts(sb, v, w.owner, w.dirty, i, all) && Without(v.owner, w.owner, i, POSITIONS)
    requires forall a: nat :: a in v.owner ==> v.owner[a].pos < POSITIONS
    ensures w.dirty == all
  {
    forall b: nat | b in all
      ensures b in w.dirty
    {
      if b !in v.dirty {
        var a: nat :| a in v.owner && v.owner[a].inum == i && b == BlockOf(sb.bmapstart, a);
        assert a !in w.owner;
      }
    }
  }
}
