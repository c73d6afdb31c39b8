/** bio.c over the synchronous disk of memide.c: a fixed array of buffers on a circular
    doubly linked list, most recently released first. A buffer is named by its index in
    the array; the list head has index NBUF. */
module BufferCache {
  import opened Counting
  import opened Blocks

  const NBUF: nat := 30
  const ROOTDEV: nat := 1

  datatype Buf = Buf(valid: bool, dirty: bool, dev: nat, blockno: nat, locked: bool, refcnt: nat, data: Block) {
    predicate Caches(d: nat, b: nat) { dev == d && blockno == b }

    /** May be given to another block: not in use and not waiting to be committed. */
    predicate Recyclable() { refcnt == 0 && !dirty }

    /** A buffer in use belongs to a real block; one that no one holds and that is not waiting
        to be written equals the disk. */
    ghost predicate Ok(disk: Disk) {
      && (dev != 0 ==> dev == ROOTDEV && blockno < |disk|)
      && (locked ==> refcnt > 0)
      && (refcnt > 0 || dirty ==> dev != 0)
      && (dirty ==> valid)
      && (dev != 0 && valid && !dirty && !locked ==> data == disk[blockno])
    }
  }

  /** ring lists the head and then all n buffers once, as the links run. */
  ghost predicate Linked(n: nat, prev: seq<nat>, next: seq<nat>, ring: seq<nat>) {
    && |prev| == |next| == NBUF + 1 && |ring| == n + 1 && n <= NBUF
    && ring[0] == NBUF
    && (forall i :: 1 <= i <= n ==> ring[i] < NBUF)
    && (forall i, j :: 0 <= i < j <= n ==> ring[i] != ring[j])
    && (forall i {:trigger next[ring[i]]} :: 0 <= i < n ==> next[ring[i]] == ring[i + 1])
    && (forall i {:trigger prev[ring[i]]} :: 0 < i <= n ==> prev[ring[i]] == ring[i - 1])
    && next[ring[n]] == NBUF && prev[NBUF] == ring[n]
  }

  /** Every buffer of a real device is the one buffer of its block. */
  ghost predicate Unique(buf: seq<Buf>, where: map<nat, nat>) {
    && (forall x :: 0 <= x < |buf| && buf[x].dev != 0 ==> buf[x].blockno in where && where[buf[x].blockno] == x)
    && (forall b :: b in where ==> where[b] < |buf| && buf[where[b]].Caches(ROOTDEV, b))
  }

  /** The list runs from latest to earliest release. */
  ghost predicate ByRecency(ring: seq<nat>, released: seq<nat>, clock: nat) {
    && |released| == NBUF
    && (forall x :: 0 <= x < NBUF ==> released[x] <= clock)
    && (forall i, j :: 1 <= i < j < |ring| && ring[i] < NBUF && ring[j] < NBUF ==> released[ring[i]] > released[ring[j]])
  }

  ghost predicate AllOk(buf: seq<Buf>, disk: Disk) {
    |buf| == NBUF && forall x :: 0 <= x < NBUF ==> buf[x].Ok(disk)
  }

  ghost function ViewAt(buf: seq<Buf>, where: map<nat, nat>, disk: Disk, b: nat): (d: Block)
    requires b < |disk|
  {
    if b in where && where[b] < |buf| && buf[where[b]].valid then buf[where[b]].data else disk[b]
  }

  ghost function PinnedIn(buf: seq<Buf>, where: map<nat, nat>): (bs: set<nat>) {
    set b | b in where && where[b] < |buf| && buf[where[b]].dirty
  }

  ghost function Moved(where: map<nat, nat>, b: nat, blockno: nat): (r: map<nat, nat>) {
    (map a | a in where && where[a] != b :: where[a])[blockno := b]
  }

  /** Giving a clean unused buffer to another block shows in no block and unpins none. */
  lemma RecycleUnseen(buf: seq<Buf>, where: map<nat, nat>, disk: Disk, b: nat, blockno: nat)
    requires Unique(buf, where) && AllOk(buf, disk) && b < NBUF && buf[b].Recyclable() && blockno !in where
    ensures var buf' := buf[b := Buf(false, false, ROOTDEV, blockno, true, 1, buf[b].data)];
            var where' := Moved(where, b, blockno);
            && Unique(buf', where') && PinnedIn(buf', where') == PinnedIn(buf, where)
            && forall a :: 0 <= a < |disk| ==> ViewAt(buf', where', disk, a) == ViewAt(buf, where, disk, a)
  {
  }

  /** Unlocking a buffer and dropping a reference shows in no block and unpins none. */
  lemma ReleaseUnseen(buf: seq<Buf>, after: seq<Buf>, where: map<nat, nat>, disk: Disk, b: nat)
    requires Unique(buf, where) && AllOk(buf, disk) && b < NBUF && buf[b].locked
    requires after == buf[b := buf[b].(locked := false, refcnt := buf[b].refcnt - 1)]
    ensures Unique(after, where) && PinnedIn(after, where) == PinnedIn(buf, where)
    ensures AllOk(after, disk) <==> (buf[b].valid && !buf[b].dirty ==> buf[b].data == disk[buf[b].blockno])
    ensures forall a :: 0 <= a < |disk| ==> ViewAt(after, where, disk, a) == ViewAt(buf, where, disk, a)
  {
  }

  class Cache {
    var disk: Disk
    var buf: seq<Buf>
    var prev: seq<nat>
    var next: seq<nat>
    ghost var ring: seq<nat>
    ghost var where: map<nat, nat>  // the buffer of each cached block
    ghost var released: seq<nat>    // when the last user let go of each buffer
    ghost var clock: nat
    ghost var history: seq<Disk>    // the disk after every block write so far

    ghost predicate Valid()
      reads this
    {
      Linked(NBUF, prev, next, ring) && Unique(buf, where) && ByRecency(ring, released, clock) && AllOk(buf, disk)
    }

    /** The plain block map that the cache stands for. */
    ghost function View(blockno: nat): (d: Block)
      requires Valid() && blockno < |disk|
      reads this
    {
      ViewAt(buf, where, disk, blockno)
    }

    /** Blocks whose buffers must stay until they are written. */
    ghost function Pinned(): (bs: set<nat>)
      requires Valid()
      reads this
    {
      PinnedIn(buf, where)
    }

    /** Nobody holds or waits for a buffer. */
    ghost predicate Idle()
      reads this
    {
      forall x :: 0 <= x < |buf| ==> buf[x].refcnt == 0
    }

    /** binit, on a disk with the given contents. */
    constructor (d: Disk)
      ensures Valid() && disk == d && history == []
      ensures forall x :: 0 <= x < NBUF ==> buf[x].Recyclable() && buf[x].dev == 0
    {
      disk, history, where, clock := d, [], map[], NBUF;
      buf := seq(NBUF, _ => Buf(false, false, 0, 0, false, 0, ZERO_BLOCK));
      released := seq(NBUF, i => i);
      prev, next, ring := seq(NBUF + 1, _ => NBUF), seq(NBUF + 1, _ => NBUF), [NBUF];
      new;
      var b := 0;
      while b < NBUF
        invariant b <= NBUF && Linked(b, prev, next, ring) && where == map[] && clock == NBUF
        invariant forall i :: 1 <= i < |ring| ==> ring[i] == b - i
        invariant released == seq(NBUF, i => i)
        invariant |buf| == NBUF && forall x :: 0 <= x < NBUF ==> buf[x] == Buf(false, false, 0, 0, false, 0, ZERO_BLOCK)
        invariant disk == d && history == []
      {
        PushFront(b, b);
        b := b + 1;
      }
    }

    /** Pointer surgery shared by binit and brelse: put b right after the head. */
    method PushFront(b: nat, ghost n: nat)
      requires Linked(n, prev, next, ring) && n < NBUF && b < NBUF && b !in ring
      modifies this`ring, this`prev, this`next
      ensures Linked(n + 1, prev, next, ring) && ring == [NBUF, b] + old(ring)[1..]
    {
      ghost var first := if n > 0 then ring[1] else NBUF;
      assert next[ring[0]] == first;
      next := next[b := next[NBUF]];
      prev := prev[b := NBUF];
      prev := prev[next[NBUF] := b];
      next := next[NBUF := b];
      ring := [NBUF, b] + ring[1..];
    }

    method Unlink(b: nat, ghost n: nat, ghost k: nat)
      requires Linked(n, prev, next, ring) && 1 <= k <= n && ring[k] == b
      modifies this`ring, this`prev, this`next
      ensures Linked(n - 1, prev, next, ring) && ring == old(ring)[..k] + old(ring)[k + 1..]
    {
      ghost var after := if k < n then ring[k + 1] else NBUF;
      assert next[ring[k]] == after && prev[ring[k]] == ring[k - 1];
      prev := prev[next[b] := prev[b]];
      next := next[prev[b] := next[b]];
      ring := ring[..k] + ring[k + 1..];
    }

    /** bget's first loop, from the front of the list. */
    method Lookup(dev: nat, blockno: nat) returns (b: nat)
      requires Valid()
      ensures if b == NBUF then forall x :: 0 <= x < NBUF ==> !buf[x].Caches(dev, blockno)
              else b < NBUF && buf[b].Caches(dev, blockno)
    {
      b := next[NBUF];
      ghost var k := 1;
      assert next[ring[0]] == ring[1];
      while b != NBUF
        invariant 1 <= k <= NBUF + 1 && b == if k <= NBUF then ring[k] else NBUF
        invariant forall i :: 1 <= i < k ==> !buf[ring[i]].Caches(dev, blockno)
        decreases NBUF + 1 - k
      {
        if buf[b].dev == dev && buf[b].blockno == blockno {
          return;
        }
        b, k := next[b], k + 1;
      }
      forall x | 0 <= x < NBUF ensures !buf[x].Caches(dev, blockno) {
        AllOnRing(ring, x);
      }
    }

    /** bget's second loop, from the back of the list. */
    method LeastRecent() returns (b: nat)
      requires Valid()
      ensures if b == NBUF then forall x :: 0 <= x < NBUF ==> !buf[x].Recyclable()
              else b < NBUF && buf[b].Recyclable() && forall x :: 0 <= x < NBUF && buf[x].Recyclable() ==> released[b] <= released[x]
    {
      b := prev[NBUF];
      ghost var k := NBUF;
      while b != NBUF
        invariant 0 <= k <= NBUF && b == ring[k]
        invariant forall i :: k < i <= NBUF ==> !buf[ring[i]].Recyclable()
        decreases k
      {
        if buf[b].refcnt == 0 && !buf[b].dirty {
          break;
        }
        b, k := prev[b], k - 1;
      }
      forall x | 0 <= x < NBUF && buf[x].Recyclable() ensures b != NBUF && released[b] <= released[x] {
        AllOnRing(ring, x);
        var i :| 0 <= i <= NBUF && ring[i] == x;
        assert 1 <= i <= k;
      }
    }

    /** A locked buffer for the block: the one that has it, else the least recently released
        clean unused one; NBUF (the panic "no buffers") when neither exists. */
    method Bget(dev: nat, blockno: nat) returns (b: nat)
      requires Valid() && dev == ROOTDEV && blockno < |disk|
      requires blockno in where ==> !buf[where[blockno]].locked
      modifies this`where, this`buf
      ensures Valid() && Pinned() == old(Pinned())
      ensures forall a :: 0 <= a < |disk| ==> View(a) == old(View(a))
      ensures b == NBUF <==> blockno !in old(where) && forall x :: 0 <= x < NBUF ==> !old(buf)[x].Recyclable()
      ensures b == NBUF ==> buf == old(buf) && where == old(where)
      ensures b != NBUF && blockno in old(where) ==>
                && b == old(where)[blockno] && where == old(where)
                && buf == old(buf)[b := old(buf)[b].(locked := true, refcnt := old(buf)[b].refcnt + 1)]
      ensures b != NBUF && blockno !in old(where) ==>
                && b < NBUF && old(buf)[b].Recyclable()
                && buf == old(buf)[b := Buf(false, false, dev, blockno, true, 1, old(buf)[b].data)]
                && (forall x :: 0 <= x < NBUF && old(buf)[x].Recyclable() ==> released[b] <= released[x])
                && where == Moved(old(where), b, blockno)
    {
      b := Lookup(dev, blockno);
      if b != NBUF {
        buf := buf[b := buf[b].(locked := true, refcnt := buf[b].refcnt + 1)];
      } else {
        b := LeastRecent();
        if b != NBUF {
          RecycleUnseen(buf, where, disk, b, blockno);
          where := Moved(where, b, blockno);
          buf := buf[b := buf[b].(dev := dev, blockno := blockno, valid := false, refcnt := 1, locked := true)];
        }
      }
    }

    /** memide.c: write a dirty buffer, or fill an invalid one. !ok is one of its four panics: the buffer is
        not locked, there is nothing to do, or it is not for a block of this disk. */
    method Iderw(b: nat) returns (ok: bool)
      requires |buf| == NBUF && b < NBUF
      modifies this`buf, this`disk, this`history
      ensures ok <==> old(buf[b].locked && (!buf[b].valid || buf[b].dirty) && buf[b].dev == ROOTDEV && buf[b].blockno < |disk|)
      ensures if !ok then
                disk == old(disk) && history == old(history) && buf == old(buf)
              else if old(buf[b].dirty) then
                && disk == old(disk[buf[b].blockno := buf[b].data]) && history == old(history) + [disk]
                && buf == old(buf)[b := old(buf)[b].(dirty := false, valid := true)]
              else
                && disk == old(disk) && history == old(history)
                && buf == old(buf)[b := old(buf)[b].(data := old(disk[buf[b].blockno]), valid := true)]
    {
      ok := buf[b].locked && (!buf[b].valid || buf[b].dirty) && buf[b].dev == ROOTDEV && buf[b].blockno < |disk|;
      if !ok {
        return;
      }
      if buf[b].dirty {
        disk := disk[buf[b].blockno := buf[b].data];
        history := history + [disk];
        buf := buf[b := buf[b].(dirty := false)];
      } else {
        buf := buf[b := buf[b].(data := disk[buf[b].blockno])];
      }
      buf := buf[b := buf[b].(valid := true)];
    }

    /** A locked buffer with the contents of the block; the block map is unchanged. */
    method Bread(dev: nat, blockno: nat) returns (b: nat)
      requires Valid() && dev == ROOTDEV && blockno < |disk|
      requires blockno in where ==> !buf[where[blockno]].locked
      modifies this`where, this`buf, this`disk, this`history
      ensures Valid() && disk == old(disk) && history == old(history)
      ensures Pinned() == old(Pinned())
      ensures forall a :: 0 <= a < |disk| ==> View(a) == old(View(a))
      ensures b == NBUF <==> blockno !in old(where) && forall x :: 0 <= x < NBUF ==> !old(buf)[x].Recyclable()
      ensures b != NBUF ==>
                && b < NBUF && buf[b].valid && buf[b].locked && buf[b].Caches(dev, blockno)
                && buf[b].data == old(View(blockno)) && blockno in where && where[blockno] == b
                && buf[b].dirty == (blockno in old(where) && old(buf)[b].dirty)
                && (blockno in old(where) || old(buf)[b].Recyclable())
                && (!buf[b].dirty ==> buf[b].data == disk[blockno])
                && buf[b].refcnt == 1 + (if blockno in old(where) then old(buf)[b].refcnt else 0)
                && (forall x :: 0 <= x < NBUF && x != b ==> buf[x] == old(buf)[x])
    {
      b := Bget(dev, blockno);
      if b != NBUF && !buf[b].valid {
        ReadIn(b);
      }
    }

    /** The disk read of bread, into a buffer that does not show its block yet. */
    method ReadIn(b: nat)
      requires Valid() && b < NBUF && buf[b].locked && !buf[b].valid && !buf[b].dirty
      requires buf[b].dev == ROOTDEV && buf[b].blockno < |disk|
      modifies this`buf, this`disk, this`history
      ensures Valid() && disk == old(disk) && history == old(history) && Pinned() == old(Pinned())
      ensures buf == old(buf)[b := old(buf)[b].(data := disk[old(buf)[b].blockno], valid := true)]
      ensures forall a :: 0 <= a < |disk| ==> View(a) == old(View(a))
    {
      var ok := Iderw(b);
    }

    /** memmove into a locked buffer. */
    method Fill(b: nat, data: Block)
      requires Valid() && b < NBUF && buf[b].locked && buf[b].valid
      modifies this`buf
      ensures Valid() && buf == old(buf)[b := old(buf)[b].(data := data)] && Pinned() == old(Pinned())
      ensures forall a :: 0 <= a < |disk| ==> View(a) == if a == buf[b].blockno then data else old(View(a))
    {
      buf := buf[b := buf[b].(data := data)];
    }

    /** log_write's part in the cache: keep the buffer until it is written. */
    method Pin(b: nat)
      requires Valid() && b < NBUF && buf[b].locked && buf[b].valid
      modifies this`buf
      ensures Valid() && buf == old(buf)[b := old(buf)[b].(dirty := true)] && Pinned() == old(Pinned()) + {buf[b].blockno}
      ensures forall a :: 0 <= a < |disk| ==> View(a) == old(View(a))
    {
      buf := buf[b := buf[b].(dirty := true)];
    }

    /** Write the buffer to its block. */
    method Bwrite(b: nat)
      requires Valid() && b < NBUF && buf[b].locked && buf[b].valid
      modifies this`buf, this`disk, this`history
      ensures Valid()
      ensures disk == old(disk)[buf[b].blockno := buf[b].data] && history == old(history) + [disk]
      ensures buf == old(buf)[b := old(buf)[b].(dirty := false)]
      ensures Pinned() == old(Pinned()) - {buf[b].blockno}
      ensures forall a :: 0 <= a < |disk| ==> View(a) == old(View(a))
    {
      buf := buf[b := buf[b].(dirty := true)];
      var ok := Iderw(b);
    }

    /** Let go of the buffer; the last user to do so puts it at the front of the list. The cache stays true
        to the disk exactly if what its holder changed in it has been written or logged. */
    method Brelse(b: nat)
      requires Valid() && b < NBUF && buf[b].locked
      modifies this`buf, this`ring, this`prev, this`next, this`released, this`clock
      ensures Linked(NBUF, prev, next, ring) && ByRecency(ring, released, clock)
      ensures Valid() <==> old(buf[b].valid && !buf[b].dirty ==> buf[b].data == disk[buf[b].blockno])
      ensures buf == old(buf)[b := old(buf)[b].(locked := false, refcnt := old(buf)[b].refcnt - 1)]
      ensures if buf[b].refcnt == 0 then ring[1] == b && released == old(released)[b := old(clock) + 1]
              else ring == old(ring) && released == old(released)
      ensures PinnedIn(buf, where) == old(Pinned())
      ensures forall a :: 0 <= a < |disk| ==> ViewAt(buf, where, disk, a) == old(View(a))
    {
      buf := buf[b := buf[b].(locked := false)];
      buf := buf[b := buf[b].(refcnt := buf[b].refcnt - 1)];
      ReleaseUnseen(old(buf), buf, where, disk, b);
      if buf[b].refcnt == 0 {
        MoveToFront(b);
      }
    }

    /** Take b, the k-th on the ring, out of the list and put it in at the front. */
    method Relink(b: nat, ghost k: nat)
      requires Linked(NBUF, prev, next, ring) && 1 <= k <= NBUF && ring[k] == b && b < NBUF
      modifies this`ring, this`prev, this`next
      ensures Linked(NBUF, prev, next, ring)
      ensures ring == [old(ring)[0], b] + (old(ring)[..k] + old(ring)[k + 1..])[1..]
    {
      Unlink(b, NBUF, k);
      assert forall i :: 0 <= i < |ring| ==> ring[i] == old(ring)[if i < k then i else i + 1] != b;
      PushFront(b, NBUF - 1);
    }

    method MoveToFront(b: nat)
      requires Linked(NBUF, prev, next, ring) && ByRecency(ring, released, clock) && b < NBUF
      modifies this`ring, this`prev, this`next, this`released, this`clock
      ensures Linked(NBUF, prev, next, ring) && ByRecency(ring, released, clock)
      ensures ring[1] == b && released == old(released)[b := old(clock) + 1]
    {
      AllOnRing(ring, b);
      ghost var k :| 0 <= k < |ring| && ring[k] == b;
      NewestFirst(ring, k, released, clock);
      Relink(b, k);
      clock := clock + 1;
      released := released[b := clock];
    }
  }

  /** With nothing in use and fewer pinned blocks than buffers, bget finds one to recycle. */
  lemma FreeBuffer(buf: seq<Buf>, where: map<nat, nat>, pinned: set<nat>)
    requires |buf| == NBUF && Unique(buf, where) && |pinned| < NBUF
    requires forall x :: 0 <= x < NBUF ==> buf[x].refcnt == 0 && (buf[x].dirty ==> buf[x].dev != 0 && buf[x].blockno in pinned)
    ensures exists x :: 0 <= x < NBUF && buf[x].Recyclable()
  {
    if forall x :: 0 <= x < NBUF ==> buf[x].dirty {
      var s := seq(NBUF, x requires 0 <= x < NBUF => buf[x].blockno);
      forall i, j | 0 <= i < j < NBUF ensures s[i] != s[j] {
        assert where[buf[i].blockno] == i && where[buf[j].blockno] == j;
      }
      DistinctCount(s);
      SubsetCount(Elems(s), pinned);
    }
  }

  /** Moving the buffer just released to the front keeps the list in order of release. */
  lemma NewestFirst(ring: seq<nat>, k: nat, released: seq<nat>, clock: nat)
    requires ByRecency(ring, released, clock) && 1 <= k < |ring| && forall i :: 1 <= i < |ring| ==> ring[i] < NBUF
    requires forall i, j :: 0 <= i < j < |ring| ==> ring[i] != ring[j]
    ensures ByRecency([ring[0], ring[k]] + (ring[..k] + ring[k + 1..])[1..], released[ring[k] := clock + 1], clock + 1)
  {
    var r := [ring[0], ring[k]] + (ring[..k] + ring[k + 1..])[1..];
    assert forall i :: 2 <= i < |r| ==> r[i] == if i <= k then ring[i - 1] else ring[i];
  }

  function Elems(s: seq<nat>): (xs: set<nat>) { set x | x in s }

  lemma {:induction false} DistinctCount(s: seq<nat>)
    requires forall i, j :: 0 <= i < j < |s| ==> s[i] != s[j]
    ensures |Elems(s)| == |s|
    decreases |s|
  {
    if s != [] {
      var t := s[..|s| - 1];
      DistinctCount(t);
      assert s == t + [s[|s| - 1]] && s[|s| - 1] !in t;
      assert Elems(s) == Elems(t) + {s[|s| - 1]};
    }
  }

  lemma {:induction false} CountBelow(n: nat, xs: set<nat>)
    requires forall x :: x in xs ==> x < n
    ensures |xs| <= n
    decreases n
  {
    if n > 0 {
      CountBelow(n - 1, xs - {n - 1});
      assert n - 1 in xs ==> |xs| == |xs - {n - 1}| + 1;
      assert n - 1 !in xs ==> xs - {n - 1} == xs;
    }
  }

  /** NBUF + 1 distinct numbers up to NBUF are all of them: the list misses no buffer. */
  lemma AllOnRing(ring: seq<nat>, x: nat)
    requires |ring| == NBUF + 1 && (forall i :: 0 <= i < |ring| ==> ring[i] <= NBUF)
    requires forall i, j :: 0 <= i < j < |ring| ==> ring[i] != ring[j]
    requires x <= NBUF
    ensures x in ring
  {
    var all := Elems(ring);
    DistinctCount(ring);
    if x !in ring {
      assert forall y :: y in all ==> y in ring && y <= NBUF;
      CountBelow(NBUF + 1, all + {x});
    }
  }
}
