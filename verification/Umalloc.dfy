/** umalloc.c: the allocator of section 8.7 of The C Programming Language (2nd edition).
    Addresses count units of one Header (8 bytes). */
module Umalloc {
  import opened Options
  import opened Growproc
  import opened Words

  datatype Header = Header(ptr: nat, size: nat)

  /** The memory together with what it stands for. fl: the free list by address, starting with
      the static header base; blocks: the size of every block by the address of its header;
      owner: the block of every unit obtained from sbrk; live: the blocks handed out. */
  datatype Heap = Heap(base: nat, mem: map<nat, Header>, fl: seq<nat>, blocks: map<nat, nat>, owner: map<nat, nat>, live: set<nat>)

  // ------------------------------------------------------- blocks and their units

  ghost predicate Covers(blocks: map<nat, nat>, a: nat, u: nat) {
    a in blocks && a <= u < a + blocks[a]
  }

  /** The blocks are a partition of the units. */
  ghost predicate Partition(blocks: map<nat, nat>, owner: map<nat, nat>) {
    && (forall a :: a in blocks ==> blocks[a] >= 1)
    && (forall u :: u in owner ==> Covers(blocks, owner[u], u))
    && (forall a, u {:trigger Covers(blocks, a, u)} :: Covers(blocks, a, u) ==> u in owner && owner[u] == a)
  }

  lemma Merge(blocks: map<nat, nat>, owner: map<nat, nat>, a: nat, b: nat)
    requires Partition(blocks, owner) && a in blocks && b in blocks && a + blocks[a] == b
    ensures Partition((blocks - {b})[a := blocks[a] + blocks[b]], map u | u in owner :: if owner[u] == b then a else owner[u])
  {
    var blocks' := (blocks - {b})[a := blocks[a] + blocks[b]];
    forall c: nat, u: nat | Covers(blocks', c, u) ensures u in owner && (if owner[u] == b then a else owner[u]) == c {
      assert Covers(blocks, c, u) || (c == a && Covers(blocks, b, u));
    }
    forall u | u in owner ensures Covers(blocks', if owner[u] == b then a else owner[u], u) {
      assert Covers(blocks, owner[u], u);
    }
  }

  lemma Split(blocks: map<nat, nat>, owner: map<nat, nat>, a: nat, n: nat)
    requires Partition(blocks, owner) && a in blocks && 1 <= n < blocks[a]
    ensures var b := a + blocks[a] - n;
            && b !in blocks
            && Partition(blocks[a := blocks[a] - n][b := n], map u | u in owner :: if owner[u] == a && u >= b then b else owner[u])
  {
    var b := a + blocks[a] - n;
    assert Covers(blocks, a, b) && (b in blocks ==> Covers(blocks, b, b));
    var blocks' := blocks[a := blocks[a] - n][b := n];
    forall c: nat, u: nat | Covers(blocks', c, u) ensures u in owner && (if owner[u] == a && u >= b then b else owner[u]) == c {
      assert Covers(blocks, if c == b then a else c, u);
    }
    forall u | u in owner ensures Covers(blocks', if owner[u] == a && u >= b then b else owner[u], u) {
      assert Covers(blocks, owner[u], u);
    }
  }

  lemma Apart(blocks: map<nat, nat>, owner: map<nat, nat>, a: nat, b: nat)
    requires Partition(blocks, owner) && a in blocks && b in blocks && a < b
    ensures a + blocks[a] <= b
  {
    assert Covers(blocks, b, b) && owner[b] == b;
    assert !Covers(blocks, a, b);
  }

  /** A block owns the unit of its own header. */
  lemma OwnHeader(h: Heap, a: nat)
    requires Partition(h.blocks, h.owner) && a in h.blocks
    ensures a in h.owner && h.owner[a] == a
  {
    assert Covers(h.blocks, a, a);
  }

  ghost function UnitsOf(h: Heap, a: nat): (us: set<nat>) { set u | u in h.owner && h.owner[u] == a }

  /** The units that can be handed out. */
  ghost function FreeUnits(h: Heap): (us: set<nat>) { set u | u in h.owner && h.owner[u] !in h.live }

  // ------------------------------------------------------------------ the free list

  function After(i: nat, n: nat): (j: nat)
    ensures n > 0 ==> j < n
  {
    if i + 1 < n then i + 1 else 0
  }

  /** Following the pointers goes once around fl, but for the pointer of fl[except]. */
  ghost predicate Linked(mem: map<nat, Header>, fl: seq<nat>, except: int) {
    && |fl| >= 1
    && (forall i :: 0 <= i < |fl| ==> fl[i] in mem)
    && (forall i {:trigger After(i, |fl|)} :: 0 <= i < |fl| && i != except ==> mem[fl[i]].ptr == fl[After(i, |fl|)])
  }

  /** Ascending addresses, and no two free blocks touch. */
  ghost predicate Ordered(fl: seq<nat>, blocks: map<nat, nat>) {
    && (forall i, j :: 0 <= i < j < |fl| ==> fl[i] < fl[j])
    && (forall i :: 1 <= i < |fl| ==> fl[i] in blocks)
    && (forall i, j :: 1 <= i < j < |fl| ==> fl[i] + blocks[fl[i]] < fl[j])
  }

  /** Headers hold the sizes of the blocks, and the list holds the blocks that are not live. */
  ghost predicate Headers(h: Heap) {
    && |h.fl| >= 1 && h.fl[0] == h.base && h.base in h.mem && h.mem[h.base].size == 0
    && (forall a :: a in h.blocks ==> h.base < a && a in h.mem && h.mem[a].size == h.blocks[a])
    && h.owner.Keys <= h.mem.Keys && h.live <= h.blocks.Keys
    && (forall a {:trigger a in h.fl} :: a in h.blocks && a !in h.live <==> a in h.fl && a != h.base)
  }

  ghost predicate Good(h: Heap) {
    Headers(h) && Linked(h.mem, h.fl, -1) && Ordered(h.fl, h.blocks) && Partition(h.blocks, h.owner)
  }

  /** bp lies in the gap after fl[g]. */
  ghost predicate InGap(fl: seq<nat>, bp: nat, g: nat) {
    g < |fl| && fl[g] < bp && (g + 1 < |fl| ==> bp < fl[g + 1])
  }

  /** The live block bp lies in the gap after fl[g], clear of the block above, and its own
      pointer is set to the block above; that of fl[g] is still to be changed. */
  ghost predicate Hooked(h: Heap, bp: nat, g: nat) {
    && Headers(h) && Ordered(h.fl, h.blocks) && Partition(h.blocks, h.owner)
    && bp in h.live && InGap(h.fl, bp, g) && Linked(h.mem, h.fl, g)
    && h.mem[bp].ptr == h.fl[After(g, |h.fl|)]
    && (g + 1 < |h.fl| ==> bp + h.blocks[bp] < h.fl[g + 1])
  }

  function Drop(fl: seq<nat>, k: nat): (r: seq<nat>)
    requires k < |fl|
  {
    fl[..k] + fl[k + 1..]
  }

  function Insert(fl: seq<nat>, k: nat, a: nat): (r: seq<nat>)
    requires k <= |fl|
  {
    fl[..k] + [a] + fl[k..]
  }

  /** r is fl without its element number k. */
  ghost predicate Dropped(fl: seq<nat>, k: nat, r: seq<nat>) {
    k < |fl| && |r| == |fl| - 1 && forall i {:trigger r[i]} :: 0 <= i < |r| ==> r[i] == fl[if i < k then i else i + 1]
  }

  /** r is fl with a before its element number k. */
  ghost predicate Inserted(fl: seq<nat>, k: nat, a: nat, r: seq<nat>) {
    && k <= |fl| && |r| == |fl| + 1 && r[k] == a
    && forall i {:trigger r[i]} :: 0 <= i < |r| && i != k ==> r[i] == fl[if i < k then i else i - 1]
  }

  lemma DropInsert(fl: seq<nat>, k: nat, a: nat)
    requires k <= |fl|
    ensures k < |fl| ==> Dropped(fl, k, Drop(fl, k))
    ensures Inserted(fl, k, a, Insert(fl, k, a))
  {
  }

  lemma DroppedMembers(fl: seq<nat>, k: nat, r: seq<nat>)
    requires Dropped(fl, k, r) && forall i, j :: 0 <= i < j < |fl| ==> fl[i] < fl[j]
    ensures forall a :: a in r <==> a in fl && a != fl[k]
  {
    forall a | a in fl && a != fl[k] ensures a in r {
      var i :| 0 <= i < |fl| && fl[i] == a;
      assert r[if i < k then i else i - 1] == a;
    }
  }

  /** Pointing past fl[k], which only fl[k - 1] and the block a outside the list see. */
  lemma DroppedLinks(mem: map<nat, Header>, fl: seq<nat>, k: nat, r: seq<nat>, a: nat, size: nat)
    requires Linked(mem, fl, -1) && 1 <= k && Dropped(fl, k, r) && a !in fl
    ensures var mem' := mem[a := Header(mem[fl[k]].ptr, size)];
            Linked(mem', r, k - 1) && mem'[a].ptr == r[After(k - 1, |r|)]
  {
    var mem' := mem[a := Header(mem[fl[k]].ptr, size)];
    assert mem[fl[k]].ptr == fl[After(k, |fl|)];
    forall i | 0 <= i < |r| && i != k - 1 ensures mem'[r[i]].ptr == r[After(i, |r|)] {
      var j := if i < k then i else i + 1;
      assert mem[fl[j]].ptr == fl[After(j, |fl|)] && fl[j] in fl;
    }
  }

  lemma InsertedMembers(fl: seq<nat>, k: nat, a: nat, r: seq<nat>)
    requires Inserted(fl, k, a, r)
    ensures forall b :: b in r <==> b in fl || b == a
  {
    forall b | b in fl ensures b in r {
      var i :| 0 <= i < |fl| && fl[i] == b;
      assert r[if i < k then i else i + 1] == b;
    }
    assert r[k] == a;
  }

  lemma InsertedLinks(mem: map<nat, Header>, fl: seq<nat>, g: nat, a: nat, r: seq<nat>)
    requires g < |fl| && Linked(mem, fl, g) && Inserted(fl, g + 1, a, r) && a !in fl && a in mem
    requires mem[a].ptr == fl[After(g, |fl|)] && forall i, j :: 0 <= i < j < |fl| ==> fl[i] < fl[j]
    ensures Linked(mem[fl[g] := mem[fl[g]].(ptr := a)], r, -1)
  {
    var mem' := mem[fl[g] := mem[fl[g]].(ptr := a)];
    assert fl[g] in fl;
    forall i | 0 <= i < |r| ensures mem'[r[i]].ptr == r[After(i, |r|)] {
      if i <= g {
        assert i < g ==> mem[fl[i]].ptr == fl[After(i, |fl|)];
      } else if i > g + 1 {
        assert mem[fl[i - 1]].ptr == fl[After(i - 1, |fl|)];
      }
    }
  }

  // -------------------------------------------------------------------------- free

  /** First half of free, the block above being free and adjacent: merge it into bp. */
  ghost function MergedUp(h: Heap, bp: nat, g: nat, r: seq<nat>): (h': Heap)
    requires Good(h) && bp in h.live && InGap(h.fl, bp, g) && g + 1 < |h.fl|
  {
    var q := h.fl[g + 1];
    h.(mem := h.mem[bp := Header(h.mem[q].ptr, h.blocks[bp] + h.blocks[q])],
    fl := r,
    blocks := (h.blocks - {q})[bp := h.blocks[bp] + h.blocks[q]],
    owner := map u | u in h.owner :: if h.owner[u] == q then bp else h.owner[u])
  }

  lemma MergedUpOrdered(h: Heap, bp: nat, g: nat, r: seq<nat>)
    requires Good(h) && bp in h.live && InGap(h.fl, bp, g) && g + 1 < |h.fl| && bp + h.blocks[bp] == h.fl[g + 1]
    requires Dropped(h.fl, g + 1, r)
    ensures var h' := MergedUp(h, bp, g, r);
            && Ordered(r, h'.blocks) && InGap(r, bp, g) && (g + 1 < |r| ==> bp + h'.blocks[bp] < r[g + 1])
  {
    assert bp !in h.fl;
  }

  lemma MergedUpHeaders(h: Heap, bp: nat, g: nat, r: seq<nat>)
    requires Good(h) && bp in h.live && InGap(h.fl, bp, g) && g + 1 < |h.fl| && bp + h.blocks[bp] == h.fl[g + 1]
    requires Dropped(h.fl, g + 1, r)
    ensures Headers(MergedUp(h, bp, g, r))
  {
    assert h.fl[g + 1] in h.fl;
    DroppedMembers(h.fl, g + 1, r);
  }

  lemma MergedUpPartition(h: Heap, bp: nat, g: nat, r: seq<nat>)
    requires Good(h) && bp in h.live && InGap(h.fl, bp, g) && g + 1 < |h.fl| && bp + h.blocks[bp] == h.fl[g + 1]
    ensures Partition(MergedUp(h, bp, g, r).blocks, MergedUp(h, bp, g, r).owner)
  {
    Merge(h.blocks, h.owner, bp, h.fl[g + 1]);
  }

  lemma MergedUpLinked(h: Heap, bp: nat, g: nat, r: seq<nat>)
    requires Good(h) && bp in h.live && InGap(h.fl, bp, g) && g + 1 < |h.fl| && bp + h.blocks[bp] == h.fl[g + 1]
    requires Dropped(h.fl, g + 1, r)
    ensures var m := MergedUp(h, bp, g, r).mem; Linked(m, r, g) && m[bp].ptr == r[After(g, |r|)]
  {
    assert bp !in h.fl;
    DroppedLinks(h.mem, h.fl, g + 1, r, bp, h.blocks[bp] + h.blocks[h.fl[g + 1]]);
  }

  lemma MergedUpHooked(h: Heap, bp: nat, g: nat, r: seq<nat>)
    requires Good(h) && bp in h.live && InGap(h.fl, bp, g) && g + 1 < |h.fl| && bp + h.blocks[bp] == h.fl[g + 1]
    requires Dropped(h.fl, g + 1, r)
    ensures Hooked(MergedUp(h, bp, g, r), bp, g)
  {
    var h' := MergedUp(h, bp, g, r);
    assert Ordered(r, h'.blocks) && InGap(r, bp, g) && (g + 1 < |r| ==> bp + h'.blocks[bp] < r[g + 1]) by {
      MergedUpOrdered(h, bp, g, r);
    }
    assert Headers(h') by { MergedUpHeaders(h, bp, g, r); }
    MergedUpPartition(h, bp, g, r);
    MergedUpLinked(h, bp, g, r);
  }

  /** First half of free, otherwise: point to the block above. */
  lemma PointedHooked(h: Heap, bp: nat, g: nat)
    requires Good(h) && bp in h.live && InGap(h.fl, bp, g) && bp + h.blocks[bp] != h.fl[After(g, |h.fl|)]
    ensures Hooked(h.(mem := h.mem[bp := h.mem[bp].(ptr := h.fl[After(g, |h.fl|)])]), bp, g)
  {
    assert bp !in h.fl;
    if g + 1 < |h.fl| {
      Apart(h.blocks, h.owner, bp, h.fl[g + 1]);
    }
  }

  /** Second half of free, the block below being adjacent: merge bp into it. */
  ghost function MergedDown(h: Heap, bp: nat, g: nat): (h': Heap)
    requires Hooked(h, bp, g) && 1 <= g
  {
    var p := h.fl[g];
    h.(mem := h.mem[p := Header(h.mem[bp].ptr, h.blocks[p] + h.blocks[bp])],
    blocks := (h.blocks - {bp})[p := h.blocks[p] + h.blocks[bp]],
    owner := map u | u in h.owner :: if h.owner[u] == bp then p else h.owner[u],
    live := h.live - {bp})
  }

  lemma MergedDownLinks(mem: map<nat, Header>, fl: seq<nat>, g: nat, a: nat, size: nat)
    requires g < |fl| && Linked(mem, fl, g) && a in mem && mem[a].ptr == fl[After(g, |fl|)]
    requires forall i, j :: 0 <= i < j < |fl| ==> fl[i] < fl[j]
    ensures Linked(mem[fl[g] := Header(mem[a].ptr, size)], fl, -1)
  {
    var mem' := mem[fl[g] := Header(mem[a].ptr, size)];
    forall i | 0 <= i < |fl| ensures mem'[fl[i]].ptr == fl[After(i, |fl|)] {
      assert i != g ==> mem[fl[i]].ptr == fl[After(i, |fl|)];
    }
  }

  lemma MergedDownOrdered(fl: seq<nat>, blocks: map<nat, nat>, g: nat, a: nat)
    requires Ordered(fl, blocks) && 1 <= g < |fl| && a in blocks && a !in fl && fl[g] + blocks[fl[g]] == a
    requires g + 1 < |fl| ==> a + blocks[a] < fl[g + 1]
    ensures Ordered(fl, (blocks - {a})[fl[g] := blocks[fl[g]] + blocks[a]])
  {
    assert forall i :: 0 <= i < |fl| ==> fl[i] in fl;
  }

  lemma MergedDownHeaders(h: Heap, bp: nat, g: nat)
    requires Hooked(h, bp, g) && 1 <= g && h.fl[g] + h.blocks[h.fl[g]] == bp
    ensures Headers(MergedDown(h, bp, g))
  {
    assert bp !in h.fl && h.fl[g] in h.fl && h.fl[0] != h.fl[g];
  }

  lemma MergedDownLinked(h: Heap, bp: nat, g: nat)
    requires Hooked(h, bp, g) && 1 <= g
    ensures Linked(MergedDown(h, bp, g).mem, h.fl, -1)
  {
    MergedDownLinks(h.mem, h.fl, g, bp, h.blocks[h.fl[g]] + h.blocks[bp]);
  }

  lemma MergedDownInOrder(h: Heap, bp: nat, g: nat)
    requires Hooked(h, bp, g) && 1 <= g && h.fl[g] + h.blocks[h.fl[g]] == bp
    ensures Ordered(h.fl, MergedDown(h, bp, g).blocks)
  {
    assert bp !in h.fl;
    MergedDownOrdered(h.fl, h.blocks, g, bp);
  }

  lemma MergedDownPartition(h: Heap, bp: nat, g: nat)
    requires Hooked(h, bp, g) && 1 <= g && h.fl[g] + h.blocks[h.fl[g]] == bp
    ensures Partition(MergedDown(h, bp, g).blocks, MergedDown(h, bp, g).owner)
  {
    Merge(h.blocks, h.owner, h.fl[g], bp);
  }

  lemma MergedDownGood(h: Heap, bp: nat, g: nat)
    requires Hooked(h, bp, g) && 1 <= g && h.fl[g] + h.blocks[h.fl[g]] == bp
    ensures Good(MergedDown(h, bp, g))
  {
    MergedDownPartition(h, bp, g);
    MergedDownHeaders(h, bp, g);
    MergedDownLinked(h, bp, g);
    MergedDownInOrder(h, bp, g);
  }

  /** Second half of free, otherwise: bp becomes a member of the list. */
  ghost function Threaded(h: Heap, bp: nat, g: nat, r: seq<nat>): (h': Heap)
    requires Hooked(h, bp, g)
  {
    h.(mem := h.mem[h.fl[g] := h.mem[h.fl[g]].(ptr := bp)], fl := r, live := h.live - {bp})
  }

  lemma ThreadedOrdered(fl: seq<nat>, blocks: map<nat, nat>, g: nat, a: nat, r: seq<nat>)
    requires Ordered(fl, blocks) && Inserted(fl, g + 1, a, r) && InGap(fl, a, g) && a in blocks
    requires 1 <= g ==> fl[g] + blocks[fl[g]] < a
    requires g + 1 < |fl| ==> a + blocks[a] < fl[g + 1]
    ensures Ordered(r, blocks)
  {
    forall i, j | 0 <= i < j < |r|
      ensures r[i] < r[j]
    {
      ThreadedPair(fl, blocks, g, a, r, i, j);
    }
    forall i, j | 1 <= i < j < |r|
      ensures r[i] in blocks && r[j] in blocks && r[i] + blocks[r[i]] < r[j]
    {
      ThreadedPair(fl, blocks, g, a, r, i, j);
    }
    assert |r| == 2 ==> r[1] == a;
  }

  lemma ThreadedPair(fl: seq<nat>, blocks: map<nat, nat>, g: nat, a: nat, r: seq<nat>, i: nat, j: nat)
    requires Ordered(fl, blocks) && Inserted(fl, g + 1, a, r) && InGap(fl, a, g) && a in blocks
    requires 1 <= g ==> fl[g] + blocks[fl[g]] < a
    requires g + 1 < |fl| ==> a + blocks[a] < fl[g + 1]
    requires i < j < |r|
    ensures r[i] < r[j] && (1 <= i ==> r[i] in blocks && r[j] in blocks && r[i] + blocks[r[i]] < r[j])
  {
    assert r[i] == if i <= g then fl[i] else if i == g + 1 then a else fl[i - 1];
    assert r[j] == if j <= g then fl[j] else if j == g + 1 then a else fl[j - 1];
  }

  lemma ThreadedShape(h: Heap, bp: nat, g: nat, r: seq<nat>)
    requires Hooked(h, bp, g) && Inserted(h.fl, g + 1, bp, r)
    requires 1 <= g ==> h.fl[g] + h.blocks[h.fl[g]] != bp
    ensures Linked(Threaded(h, bp, g, r).mem, r, -1) && Ordered(r, h.blocks)
  {
    assert bp !in h.fl;
    if 1 <= g {
      Apart(h.blocks, h.owner, h.fl[g], bp);
    }
    InsertedLinks(h.mem, h.fl, g, bp, r);
    ThreadedOrdered(h.fl, h.blocks, g, bp, r);
  }

  lemma ThreadedGood(h: Heap, bp: nat, g: nat, r: seq<nat>)
    requires Hooked(h, bp, g) && Inserted(h.fl, g + 1, bp, r)
    requires 1 <= g ==> h.fl[g] + h.blocks[h.fl[g]] != bp
    ensures Good(Threaded(h, bp, g, r))
  {
    assert bp !in h.fl && h.fl[g] in h.fl;
    InsertedMembers(h.fl, g + 1, bp, r);
    ThreadedShape(h, bp, g, r);
  }

  /** Every unit of the live blocks other than `but` keeps its block and its contents. */
  ghost predicate LiveKept(h: Heap, h': Heap, but: nat) {
    forall u :: u in h.owner && h.owner[u] in h.live && h.owner[u] != but ==>
      u in h'.owner && h'.owner[u] == h.owner[u] && u in h.mem && u in h'.mem && h'.mem[u] == h.mem[u]
  }

  /** What the first half of free changes, seen from outside. */
  ghost predicate HalfFreed(h: Heap, h': Heap, bp: nat) {
    && h'.base == h.base && h'.live == h.live && h'.owner.Keys == h.owner.Keys && LiveKept(h, h', bp)
    && FreeUnits(h') + UnitsOf(h', bp) == FreeUnits(h) + UnitsOf(h, bp)
  }

  lemma MergedUpUnits(h: Heap, bp: nat, g: nat, r: seq<nat>)
    requires Good(h) && bp in h.live && InGap(h.fl, bp, g) && g + 1 < |h.fl|
    ensures HalfFreed(h, MergedUp(h, bp, g, r), bp)
  {
    var q := h.fl[g + 1];
    assert q in h.fl && q !in h.live;
    OwnHeader(h, bp);
  }

  /** What free changes, seen from outside: the units of bp become free, nothing else. */
  ghost predicate Freed(h: Heap, h': Heap, bp: nat) {
    && h'.base == h.base && h'.live == h.live - {bp} && h'.owner.Keys == h.owner.Keys && LiveKept(h, h', bp)
    && FreeUnits(h') == FreeUnits(h) + UnitsOf(h, bp)
  }

  lemma MergedDownUnits(h: Heap, bp: nat, g: nat)
    requires Hooked(h, bp, g) && 1 <= g
    ensures Freed(h, MergedDown(h, bp, g), bp)
  {
    var p := h.fl[g];
    assert p in h.fl && p !in h.live;
    OwnHeader(h, p);
    OwnHeader(h, bp);
  }

  lemma ThreadedUnits(h: Heap, bp: nat, g: nat, r: seq<nat>)
    requires Hooked(h, bp, g)
    ensures Freed(h, Threaded(h, bp, g, r), bp)
  {
    var p := h.fl[g];
    assert p in h.fl;
    if p != h.base {
      OwnHeader(h, p);
    }
  }

  // -------------------------------------------------------------------- morecore

  function Region<T>(a: nat, n: nat, v: T): (m: map<nat, T>)
    ensures forall u :: u in m <==> a <= u < a + n
    ensures forall u :: u in m ==> m[u] == v
  {
    if n == 0 then map[] else Region(a, n - 1, v)[a + n - 1 := v]
  }

  /** New core, as one more live block of n units at a. */
  ghost function Grown(h: Heap, a: nat, n: nat): (h': Heap) {
    h.(mem := (h.mem + Region(a, n, Header(0, 0)))[a := Header(0, n)], blocks := h.blocks[a := n],
    owner := h.owner + Region(a, n, a), live := h.live + {a})
  }

  ghost predicate Unused(h: Heap, a: nat, n: nat) {
    h.base < a && n >= 1 && forall u :: u in h.owner ==> !(a <= u < a + n)
  }

  lemma GrownPartition(blocks: map<nat, nat>, owner: map<nat, nat>, a: nat, n: nat)
    requires Partition(blocks, owner) && n >= 1 && a !in blocks && forall u :: u in owner ==> !(a <= u < a + n)
    ensures Partition(blocks[a := n], owner + Region(a, n, a))
  {
    var blocks', owner' := blocks[a := n], owner + Region(a, n, a);
    forall c: nat, u: nat | Covers(blocks', c, u) ensures u in owner' && owner'[u] == c {
      assert c != a ==> Covers(blocks, c, u);
    }
    forall u | u in owner' ensures Covers(blocks', owner'[u], u) {
      assert u in owner ==> Covers(blocks, owner[u], u);
    }
  }

  lemma NotInUnused(h: Heap, a: nat, n: nat, b: nat)
    requires Good(h) && Unused(h, a, n) && (b in h.blocks || b in h.fl)
    ensures !(a <= b < a + n)
  {
    if b in h.blocks {
      OwnHeader(h, b);
    }
  }

  lemma GrownHeaders(h: Heap, a: nat, n: nat)
    requires Good(h) && Unused(h, a, n)
    ensures a !in h.blocks && Headers(Grown(h, a, n)) && Linked(Grown(h, a, n).mem, h.fl, -1)
  {
    var h' := Grown(h, a, n);
    forall b | b in h.blocks || b in h.fl ensures !(a <= b < a + n) && h'.mem[b] == h.mem[b] {
      NotInUnused(h, a, n, b);
    }
    forall i | 0 <= i < |h.fl| ensures h'.mem[h.fl[i]].ptr == h.fl[After(i, |h.fl|)] {
      assert h.fl[i] in h.fl;
    }
    assert h.base in h.fl;
  }

  lemma GrownGood(h: Heap, a: nat, n: nat)
    requires Good(h) && Unused(h, a, n)
    ensures Good(Grown(h, a, n)) && a !in h.blocks
  {
    GrownHeaders(h, a, n);
    GrownPartition(h.blocks, h.owner, a, n);
  }

  lemma GrownUnits(h: Heap, a: nat, n: nat)
    requires Good(h) && Unused(h, a, n)
    ensures FreeUnits(Grown(h, a, n)) == FreeUnits(h)
    ensures forall u :: u in UnitsOf(Grown(h, a, n), a) <==> a <= u < a + n
    ensures LiveKept(h, Grown(h, a, n), a)
  {
    var h' := Grown(h, a, n);
    forall u | u in h.owner ensures h'.owner[u] == h.owner[u] && h.owner[u] != a && h'.mem[u] == h.mem[u] {
      assert Covers(h.blocks, h.owner[u], u);
      NotInUnused(h, a, n, h.owner[u]);
    }
  }

  // ---------------------------------------------------------------------- malloc

  /** What a successful search changes, seen from outside: a block of n free units is live. */
  ghost predicate Allocated(h: Heap, h': Heap, a: nat, n: nat) {
    && h'.base == h.base && a !in h.live && h'.live == h.live + {a} && h'.owner.Keys == h.owner.Keys
    && a in h'.blocks && h'.blocks[a] == n && LiveKept(h, h', a)
    && UnitsOf(h', a) <= FreeUnits(h) && FreeUnits(h') == FreeUnits(h) - UnitsOf(h', a)
  }

  /** An exact fit leaves the list. */
  ghost function Taken(h: Heap, k: nat, r: seq<nat>): (h': Heap)
    requires Good(h) && 1 <= k < |h.fl|
  {
    h.(mem := h.mem[h.fl[k - 1] := h.mem[h.fl[k - 1]].(ptr := h.mem[h.fl[k]].ptr)], fl := r, live := h.live + {h.fl[k]})
  }

  lemma TakenLinks(mem: map<nat, Header>, fl: seq<nat>, k: nat, r: seq<nat>)
    requires Linked(mem, fl, -1) && 1 <= k && Dropped(fl, k, r) && forall i, j :: 0 <= i < j < |fl| ==> fl[i] < fl[j]
    ensures Linked(mem[fl[k - 1] := mem[fl[k - 1]].(ptr := mem[fl[k]].ptr)], r, -1)
  {
    var mem' := mem[fl[k - 1] := mem[fl[k - 1]].(ptr := mem[fl[k]].ptr)];
    forall i | 0 <= i < |r| ensures mem'[r[i]].ptr == r[After(i, |r|)] {
      var j := if i < k - 1 then i else i + 1;
      assert mem[fl[j]].ptr == fl[After(j, |fl|)];
    }
  }

  lemma TakenOrdered(fl: seq<nat>, blocks: map<nat, nat>, k: nat, r: seq<nat>)
    requires Ordered(fl, blocks) && 1 <= k && Dropped(fl, k, r)
    ensures Ordered(r, blocks)
  {
  }

  lemma TakenGood(h: Heap, k: nat, r: seq<nat>)
    requires Good(h) && 1 <= k && Dropped(h.fl, k, r)
    ensures Good(Taken(h, k, r)) && r[k - 1] == h.fl[k - 1]
  {
    assert h.fl[k] in h.fl && h.fl[k - 1] in h.fl;
    DroppedMembers(h.fl, k, r);
    TakenLinks(h.mem, h.fl, k, r);
    TakenOrdered(h.fl, h.blocks, k, r);
  }

  lemma TakenUnits(h: Heap, k: nat, r: seq<nat>)
    requires Good(h) && 1 <= k && Dropped(h.fl, k, r)
    ensures Allocated(h, Taken(h, k, r), h.fl[k], h.blocks[h.fl[k]])
  {
    assert h.fl[k] in h.fl && h.fl[k - 1] in h.fl;
    if h.fl[k - 1] != h.base {
      OwnHeader(h, h.fl[k - 1]);
    }
  }

  /** A larger block gives up its tail. */
  ghost function Carved(h: Heap, k: nat, n: nat): (h': Heap)
    requires Good(h) && 1 <= k < |h.fl| && 1 <= n < h.blocks[h.fl[k]]
  {
    var p := h.fl[k];
    var b := p + h.blocks[p] - n;
    assert Covers(h.blocks, p, b);
    h.(mem := h.mem[p := h.mem[p].(size := h.blocks[p] - n)][b := h.mem[b].(size := n)],
    blocks := h.blocks[p := h.blocks[p] - n][b := n],
    owner := map u | u in h.owner :: if h.owner[u] == p && u >= b then b else h.owner[u],
    live := h.live + {b})
  }

  lemma CarvedOrdered(fl: seq<nat>, blocks: map<nat, nat>, k: nat, n: nat, b: nat)
    requires Ordered(fl, blocks) && 1 <= k < |fl| && n < blocks[fl[k]] && b !in fl
    ensures Ordered(fl, blocks[fl[k] := blocks[fl[k]] - n][b := n])
  {
    var blocks' := blocks[fl[k] := blocks[fl[k]] - n][b := n];
    forall i | 1 <= i < |fl| ensures fl[i] in blocks' && blocks'[fl[i]] <= blocks[fl[i]] {
      assert fl[i] in fl;
    }
  }

  lemma CarvedLinks(mem: map<nat, Header>, fl: seq<nat>, k: nat, size: nat, b: nat, n: nat)
    requires Linked(mem, fl, -1) && k < |fl| && b !in fl && b in mem
    ensures Linked(mem[fl[k] := mem[fl[k]].(size := size)][b := mem[b].(size := n)], fl, -1)
  {
    var mem' := mem[fl[k] := mem[fl[k]].(size := size)][b := mem[b].(size := n)];
    forall i | 0 <= i < |fl| ensures mem'[fl[i]].ptr == fl[After(i, |fl|)] {
      assert fl[i] in fl && mem[fl[i]].ptr == fl[After(i, |fl|)];
    }
  }

  lemma CarvedHeaders(h: Heap, k: nat, n: nat)
    requires Good(h) && 1 <= k < |h.fl| && 1 <= n < h.blocks[h.fl[k]]
    ensures Headers(Carved(h, k, n)) && h.fl[k] + h.blocks[h.fl[k]] - n !in h.fl
  {
    var h', p := Carved(h, k, n), h.fl[k];
    var b := p + h.blocks[p] - n;
    Split(h.blocks, h.owner, p, n);
    assert p in h.fl && h.fl[0] < p;
    assert b !in h.fl;
  }

  lemma CarvedGood(h: Heap, k: nat, n: nat)
    requires Good(h) && 1 <= k < |h.fl| && 1 <= n < h.blocks[h.fl[k]]
    ensures Good(Carved(h, k, n))
  {
    var p := h.fl[k];
    var b := p + h.blocks[p] - n;
    var h' := Carved(h, k, n);
    CarvedHeaders(h, k, n);
    assert Ordered(h'.fl, h'.blocks) by { CarvedOrdered(h.fl, h.blocks, k, n, b); }
    assert Linked(h'.mem, h'.fl, -1) by {
      assert Covers(h.blocks, p, b);
      CarvedLinks(h.mem, h.fl, k, h.blocks[p] - n, b, n);
    }
    CarvedPartition(h, k, n);
  }

  lemma CarvedPartition(h: Heap, k: nat, n: nat)
    requires Good(h) && 1 <= k < |h.fl| && 1 <= n < h.blocks[h.fl[k]]
    ensures Partition(Carved(h, k, n).blocks, Carved(h, k, n).owner)
  {
    Split(h.blocks, h.owner, h.fl[k], n);
  }

  lemma CarvedUnits(h: Heap, k: nat, n: nat)
    requires Good(h) && 1 <= k < |h.fl| && 1 <= n < h.blocks[h.fl[k]]
    ensures Allocated(h, Carved(h, k, n), h.fl[k] + h.blocks[h.fl[k]] - n, n)
  {
    var p := h.fl[k];
    var b := p + h.blocks[p] - n;
    assert p in h.fl && Covers(h.blocks, p, b);
    OwnHeader(h, p);
    Split(h.blocks, h.owner, p, n);
  }

  /** Some free block has n units. */
  ghost predicate Fits(h: Heap, n: nat) {
    exists a :: a in h.blocks && a !in h.live && h.blocks[a] >= n
  }

  lemma NotTouching(h: Heap, c: nat, d: nat)
    requires Good(h) && c in h.blocks && c !in h.live && d in h.blocks && d !in h.live && c < d
    ensures c + h.blocks[c] < d
  {
    assert c in h.fl && d in h.fl;
    var i, j :| 0 <= i < |h.fl| && 0 <= j < |h.fl| && h.fl[i] == c && h.fl[j] == d;
  }

  /** Because free blocks are joined, a run of free units always lies within one block. */
  lemma {:induction false} FreeRun(h: Heap, a: nat, n: nat)
    requires Good(h) && n >= 1 && forall u :: a <= u < a + n ==> u in FreeUnits(h)
    ensures a in h.owner
    ensures var c := h.owner[a]; c in h.blocks && c !in h.live && c <= a && a + n <= c + h.blocks[c]
    decreases n
  {
    assert a in FreeUnits(h);
    var c := h.owner[a];
    assert Covers(h.blocks, c, a);
    if n > 1 {
      FreeRun(h, a, n - 1);
      var u := a + n - 1;
      assert u in FreeUnits(h);
      var d := h.owner[u];
      assert Covers(h.blocks, d, u);
      if d < c {
        Apart(h.blocks, h.owner, d, c);
      } else if c < d {
        NotTouching(h, c, d);
      }
    }
  }

  // ------------------------------------------------------------------- the program

  class Allocator {
    const base: nat
    var mem: map<nat, Header>
    var freep: Option<nat>  // None before the first malloc
    var process: Process
    ghost var h: Heap

    ghost predicate Valid()
      reads this
    {
      && h.mem == mem && h.base == base && base in mem
      && (freep.None? ==> h.blocks == map[] && h.owner == map[] && h.live == {})
      && (freep.Some? ==> Good(h) && freep.value in h.fl)
    }

    /** Every unit the allocator keeps account of is memory of the process. */
    ghost predicate Backed()
      reads this
    {
      Running(process) && process.sz % UNIT == 0 && InMemory(h, process.top)
    }

    constructor (static_header: nat, p: Process)
      requires Running(p) && p.sz % UNIT == 0 && UNIT * static_header + UNIT <= p.sz
      ensures Valid() && Backed() && freep.None? && base == static_header && process == p
    {
      base, freep, process := static_header, None, p;
      mem := map[static_header := Header(0, 0)];
      h := Heap(static_header, map[static_header := Header(0, 0)], [static_header], map[], map[], {});
    }

    /** The for loop of free: walk to the free block below bp, at most once around. */
    method FindGap(bp: nat) returns (p: nat, ghost g: nat)
      requires freep.Some? && Linked(mem, h.fl, -1) && h.fl[0] < bp && bp !in h.fl && freep.value in h.fl
      requires forall i, j :: 0 <= i < j < |h.fl| ==> h.fl[i] < h.fl[j]
      ensures InGap(h.fl, bp, g) && p == h.fl[g]
      ensures p in h.fl && p < bp && forall j :: 0 <= j < |h.fl| && h.fl[j] < bp ==> h.fl[j] <= p
    {
      ghost var fl := h.fl;
      ghost var i :| 0 <= i < |fl| && fl[i] == freep.value;
      ghost var next := After(i, |fl|);
      g := GapBelow(fl, bp);
      p := freep.value;
      while !(bp > p && bp < mem[p].ptr)
        invariant 0 <= i < |fl| && p == fl[i] && mem[p].ptr == fl[After(i, |fl|)]
        decreases if i <= g then g - i else g + |fl| - i
      {
        if p >= mem[p].ptr && (bp > p || bp < mem[p].ptr) {
          break;
        }
        p, i := mem[p].ptr, After(i, |fl|);
        next := After(i, |fl|);
      }
    }

    /** First half of free: join the block above, or point to it. */
    method JoinUpper(bp: nat, p: nat, ghost g: nat)
      requires Valid() && freep.Some? && bp in h.live && InGap(h.fl, bp, g) && p == h.fl[g]
      modifies this`mem, this`h
      ensures Hooked(h, bp, g) && h.mem == mem && p == h.fl[g] && HalfFreed(old(h), h, bp)
    {
      ghost var next := After(g, |h.fl|);
      var q := mem[p].ptr;
      assert q == h.fl[next];
      if bp + mem[bp].size == q {
        ghost var r := Drop(h.fl, g + 1);
        DropInsert(h.fl, g + 1, bp);
        MergedUpHooked(h, bp, g, r);
        MergedUpUnits(h, bp, g, r);
        ghost var n := MergedUp(h, bp, g, r);
        mem := mem[bp := Header(mem[q].ptr, mem[bp].size + mem[q].size)];
        assert n.mem == mem && n.fl[g] == p;
        h := n;
      } else {
        PointUpper(bp, p, g, q);
      }
    }

    method PointUpper(bp: nat, p: nat, ghost g: nat, q: nat)
      requires Valid() && freep.Some? && bp in h.live && InGap(h.fl, bp, g) && p == h.fl[g]
      requires q == h.fl[After(g, |h.fl|)] && bp + mem[bp].size != q
      modifies this`mem, this`h
      ensures Hooked(h, bp, g) && h.mem == mem && p == h.fl[g] && HalfFreed(old(h), h, bp)
    {
      PointedHooked(h, bp, g);
      OwnHeader(h, bp);
      mem := mem[bp := mem[bp].(ptr := q)];
      h := h.(mem := mem);
    }

    /** Second half of free: join the block below, or have it point here. */
    method JoinLower(bp: nat, p: nat, ghost g: nat)
      requires Hooked(h, bp, g) && h.mem == mem && p == h.fl[g]
      modifies this`mem, this`h
      ensures Good(h) && h.mem == mem && p in h.fl && Freed(old(h), h, bp)
    {
      if p + mem[p].size == bp {
        MergedDownGood(h, bp, g);
        MergedDownUnits(h, bp, g);
        ghost var n := MergedDown(h, bp, g);
        mem := mem[p := Header(mem[bp].ptr, mem[p].size + mem[bp].size)];
        assert n.mem == mem && n.fl[g] == p;
        h := n;
      } else {
        PointLower(bp, p, g);
      }
    }

    method PointLower(bp: nat, p: nat, ghost g: nat)
      requires Hooked(h, bp, g) && h.mem == mem && p == h.fl[g] && p + mem[p].size != bp
      modifies this`mem, this`h
      ensures Good(h) && h.mem == mem && p in h.fl && Freed(old(h), h, bp)
    {
      ghost var r := Insert(h.fl, g + 1, bp);
      DropInsert(h.fl, g + 1, bp);
      ThreadedGood(h, bp, g, r);
      ThreadedUnits(h, bp, g, r);
      ghost var n := Threaded(h, bp, g, r);
      mem := mem[p := mem[p].(ptr := bp)];
      assert n.mem == mem && r[g] == p;
      h := n;
    }

    /** Give back a block that malloc handed out. */
    method Free(ap: nat)
      requires Valid() && freep.Some? && ap >= 1 && ap - 1 in h.live
      modifies this
      ensures Valid() && freep.Some? && Freed(old(h), h, ap - 1) && process == old(process)
    {
      var bp := ap - 1;
      assert bp !in h.fl;
      ghost var was := h;
      var p, g := FindGap(bp);
      JoinUpper(bp, p, g);
      ghost var half := h;
      JoinLower(bp, p, g);
      WhollyFreed(was, half, h, bp);
      freep := Some(p);
    }

    /** Ask sbrk for at least 4096 units and enter what it is taken to have granted as one block. */
    method Morecore(nunits: nat, memory: bool, ghost grant: Option<nat>) returns (p: Option<nat>)
      requires Valid() && freep.Some? && 1 <= nunits <= MAXUNITS && Running(process)
      requires grant == Grant(process, nunits, memory)
      requires grant.Some? ==> Unused(h, grant.value, Core(nunits))
      modifies this
      ensures Valid() && freep.Some? && process == AfterSbrk(old(process), nunits, memory)
      ensures grant.None? ==> p.None? && h == old(h) && freep == old(freep)
      ensures grant.Some? ==> p == freep && CoreAdded(old(h), h, grant.value, Core(nunits)) && Fits(h, nunits)
    {
      var nu := if nunits < 4096 then 4096 else nunits;
      var answer := Sbrk(process, AsInt(nu * UNIT % WORD), memory);
      process := answer.process;
      if answer.addr.None? {
        return None;
      }
      Enter(answer.addr.value / UNIT, nu);
      p := freep;
    }

    /** The new units at hp become a block, which free puts in the list. */
    method Enter(hp: nat, nu: nat)
      requires Valid() && freep.Some? && Unused(h, hp, nu)
      modifies this
      ensures Valid() && freep.Some? && process == old(process)
      ensures CoreAdded(old(h), h, hp, nu) && Fits(h, nu)
    {
      GrownGood(h, hp, nu);
      ghost var was, grown := h, Grown(h, hp, nu);
      mem := (mem + Region(hp, nu, Header(0, 0)))[hp := Header(0, nu)];
      h := grown;
      Free(hp + 1);
      Entered(was, grown, h, hp, nu);
    }

    /** An exact fit: unlink p, whose predecessor in the list is prevp. */
    method TakeWhole(prevp: nat, p: nat, ghost k: nat)
      requires Valid() && freep.Some? && 1 <= k < |h.fl| && p == h.fl[k] && prevp == h.fl[k - 1]
      modifies this`mem, this`h
      ensures Good(h) && h.mem == mem && prevp in h.fl && Allocated(old(h), h, p, old(mem)[p].size)
    {
      ghost var s := Drop(h.fl, k);
      DropInsert(h.fl, k, 0);
      TakenGood(h, k, s);
      TakenUnits(h, k, s);
      mem := mem[prevp := mem[prevp].(ptr := mem[p].ptr)];
      h := Taken(h, k, s);
      assert s[k - 1] == prevp;
    }

    /** A larger block: keep it in the list and hand out its tail. */
    method TakeTail(p: nat, n: nat, ghost k: nat) returns (b: nat)
      requires Valid() && freep.Some? && 1 <= k < |h.fl| && p == h.fl[k] && 1 <= n < mem[p].size
      modifies this`mem, this`h
      ensures Good(h) && h.mem == mem && h.fl == old(h.fl) && Allocated(old(h), h, b, n) && b + n == p + old(mem)[p].size
    {
      b := p + (mem[p].size - n);
      assert Covers(h.blocks, p, b);
      CarvedGood(h, k, n);
      CarvedUnits(h, k, n);
      h := Carved(h, k, n);
      mem := mem[p := mem[p].(size := mem[p].size - n)];
      mem := mem[b := mem[b].(size := n)];
    }

    method Take(prevp: nat, p: nat, n: nat, ghost k: nat) returns (ap: nat)
      requires Valid() && freep.Some? && 1 <= k < |h.fl| && p == h.fl[k] && prevp == h.fl[k - 1] && 1 <= n <= mem[p].size
      modifies this
      ensures Valid() && freep == Some(prevp) && ap >= 1 && Allocated(old(h), h, ap - 1, n) && process == old(process)
      ensures ap - 1 + n == p + old(mem)[p].size
    {
      var a := p;
      if mem[p].size == n {
        TakeWhole(prevp, p, k);
      } else {
        a := TakeTail(p, n, k);
        assert h.fl[k - 1] == prevp;
      }
      ap := a + 1;
      freep := Some(prevp);
    }

    /** Where the search stands after j steps from freep: nothing seen so far fits. */
    ghost predicate Searched(prevp: nat, p: nat, f: nat, j: nat, n: nat)
      reads this
    {
      && Valid() && freep.Some? && f < |h.fl| && h.fl[f] == freep.value && 1 <= j <= |h.fl|
      && prevp == h.fl[Around(f, j - 1, |h.fl|)] && p == h.fl[Around(f, j, |h.fl|)]
      && forall i {:trigger Around(f, i, |h.fl|)} :: 1 <= i < j ==> mem[h.fl[Around(f, i, |h.fl|)]].size < n
    }

    /** A lap without success means that no free block is large enough. */
    lemma LapFailed(prevp: nat, p: nat, f: nat, j: nat, n: nat)
      requires Searched(prevp, p, f, j, n) && mem[p].size < n && p == freep.value
      ensures !Fits(h, n)
    {
      NothingFits(h, f, n);
    }

    lemma Found(prevp: nat, p: nat, f: nat, j: nat, n: nat)
      requires Searched(prevp, p, f, j, n) && mem[p].size >= n >= 1
      ensures Fits(h, n)
      ensures var k := Around(f, j, |h.fl|); 1 <= k < |h.fl| && p == h.fl[k] && prevp == h.fl[k - 1]
    {
      assert p in h.fl && p in h.blocks;
    }

    /** A search for n units since the heap was `was` and the process `before`; asked: sbrk was called. */
    ghost predicate Looking(prevp: nat, p: nat, f: nat, j: nat, n: nat, memory: bool, was: Heap, before: Process, asked: bool)
      reads this
    {
      && 1 <= n <= MAXUNITS && Running(before) && Searched(prevp, p, f, j, n)
      && Supplied(was, h, asked, Grant(before, n, memory), n)
      && process == if asked then AfterSbrk(before, n, memory) else before
    }

    method Advance(p: nat, n: nat, ghost prevp: nat, ghost f: nat, ghost j: nat, ghost memory: bool, ghost was: Heap,
                   ghost before: Process, ghost asked: bool)
      returns (next: nat)
      requires Looking(prevp, p, f, j, n, memory, was, before, asked) && mem[p].size < n && p != freep.value
      ensures Looking(p, next, f, j + 1, n, memory, was, before, asked) && j < |h.fl|
    {
      NextAround(mem, h.fl, f, j);
      next := mem[p].ptr;
    }

    /** The search has ended at p. */
    lemma Arrived(prevp: nat, p: nat, f: nat, j: nat, n: nat, memory: bool, was: Heap, before: Process, asked: bool)
      requires Looking(prevp, p, f, j, n, memory, was, before, asked) && mem[p].size >= n
      ensures asked == !Fits(was, n)
      ensures var k := Around(f, j, |h.fl|); 1 <= k < |h.fl| && p == h.fl[k] && prevp == h.fl[k - 1]
    {
      Found(prevp, p, f, j, n);
      SuppliedFits(was, h, asked, Grant(before, n, memory), n);
    }

    /** The first call sets up a list of the static header alone. */
    method Start(n: nat) returns (p: nat, ghost f: nat)
      requires Valid()
      modifies this
      ensures freep.Some? && Searched(freep.value, p, f, 1, n) && SameBlocks(old(h), h) && process == old(process)
      ensures freep.value == if old(freep).Some? then old(freep).value else base
    {
      if freep.None? {
        mem := mem[base := Header(base, 0)];
        freep := Some(base);
        h := Heap(base, mem, [base], map[], map[], {});
      }
      f :| 0 <= f < |h.fl| && h.fl[f] == freep.value;
      NextAround(mem, h.fl, f, 0);
      p := mem[freep.value].ptr;
    }

    method Refill(n: nat, memory: bool, ghost grant: Option<nat>) returns (p: Option<nat>, ghost f: nat)
      requires Valid() && freep.Some? && 1 <= n <= MAXUNITS && Running(process) && grant == Grant(process, n, memory)
      requires grant.Some? ==> Unused(h, grant.value, Core(n))
      modifies this
      ensures Valid() && freep.Some? && process == AfterSbrk(old(process), n, memory)
      ensures grant.None? ==> p.None? && h == old(h)
      ensures grant.Some? ==> CoreAdded(old(h), h, grant.value, Core(n)) && Fits(h, n)
      ensures grant.Some? ==> p.Some? && Searched(freep.value, p.value, f, 1, n)
    {
      var more := Morecore(n, memory, grant);
      f := 0;
      if more.None? {
        p := None;
      } else {
        f :| 0 <= f < |h.fl| && h.fl[f] == freep.value;
        NextAround(mem, h.fl, f, 0);
        p := Some(mem[more.value].ptr);
      }
    }

    /** A block for nbytes bytes, or None when no free block is large enough and sbrk refuses. h0
        is the heap that was searched last. Memory that is not the process's own enters the books
        exactly when nbytes, rounded up and with a header, is 2 GB or more and does not wrap; with
        the wrapping requests, for which the block is too small, that leaves as the requests served
        as promised exactly those up to 0x7FFFFFF0. The block is the tail of p, the first that is large
        enough on the way round from where the last call left off. */
    method Malloc(nbytes: nat, memory: bool) returns (r: Option<nat>, ghost h0: Heap, ghost from: nat, ghost p: nat)
      requires Valid() && Backed() && nbytes < WORD
      modifies this
      ensures Valid() && freep.Some?
      ensures var grant := Grant(old(process), Nunits(nbytes), memory);
              && (r.None? <==> grant.None? && !Fits(old(h), Nunits(nbytes)))
              && Supplied(old(h), h0, r.Some? && !Fits(old(h), Nunits(nbytes)), grant, Nunits(nbytes))
      ensures if r.None? then h == h0 else r.value >= 1 && Allocated(h0, h, r.value - 1, Nunits(nbytes))
      ensures r.Some? ==> TailOfNextFit(h0, from, p, Nunits(nbytes), r.value - 1)
      ensures r.Some? && Fits(old(h), Nunits(nbytes)) ==> from == if old(freep).Some? then old(freep).value else base
      ensures Backed() <==> nbytes <= 0x7FFF_FFF0 || nbytes > 0xFFFF_FFF8
      ensures r.Some? ==>
                (Backed() && UNIT * (h.blocks[r.value - 1] - 1) >= nbytes <==> nbytes <= 0x7FFF_FFF0)
      ensures r.Some? ==> UNIT * (h.blocks[r.value - 1] - 1) < nbytes + UNIT
    {
      var n := Nunits(nbytes);
      Rounded(nbytes);
      ghost var was, before, grant := h, process, Grant(process, n, memory);
      GrantUnused(h, process, n, memory);
      r, h0, from, p := Search(n, memory, grant);
      BackedAfter(was, h0, before, n, memory);
      if r.Some? {
        AllocatedBacked(h0, h, process.top, r.value - 1, n);
      }
    }

    method Search(n: nat, memory: bool, ghost grant: Option<nat>)
      returns (r: Option<nat>, ghost h0: Heap, ghost from: nat, ghost p: nat)
      requires Valid() && 1 <= n <= MAXUNITS && Running(process) && grant == Grant(process, n, memory)
      requires grant.Some? ==> Unused(h, grant.value, Core(n))
      modifies this
      ensures Valid() && freep.Some?
      ensures process == if Fits(old(h), n) then old(process) else AfterSbrk(old(process), n, memory)
      ensures r.None? <==> grant.None? && !Fits(old(h), n)
      ensures Supplied(old(h), h0, r.Some? && !Fits(old(h), n), grant, n)
      ensures if r.None? then h == h0 else r.value >= 1 && Allocated(h0, h, r.value - 1, n)
      ensures r.Some? ==> TailOfNextFit(h0, from, p, n, r.value - 1)
      ensures r.Some? && Fits(old(h), n) ==> from == if old(freep).Some? then old(freep).value else base
    {
      var found, prevp, at, k := FindFit(n, memory, grant);
      h0, from, p := h, freep.value, at;
      if found {
        var ap := Take(prevp, at, n, k);
        r := Some(ap);
      } else {
        r := None;
      }
    }

    /** A lap has failed: ask sbrk, which happens at most once. */
    method AskCore(n: nat, memory: bool, ghost prevp: nat, p: nat, ghost f0: nat, ghost j: nat, ghost was: Heap,
                   ghost before: Process, ghost asked: bool)
      returns (next: Option<nat>, ghost f: nat)
      requires Looking(prevp, p, f0, j, n, memory, was, before, asked) && mem[p].size < n && p == freep.value
      requires var grant := Grant(before, n, memory); grant.Some? ==> Unused(was, grant.value, Core(n))
      modifies this
      ensures !asked && !Fits(was, n) && Valid() && freep.Some? && process == AfterSbrk(before, n, memory)
      ensures next.None? ==> Grant(before, n, memory).None? && Supplied(was, h, false, None, n)
      ensures next.Some? ==> Looking(freep.value, next.value, f, 1, n, memory, was, before, true)
    {
      ghost var grant := Grant(before, n, memory);
      LapFailed(prevp, p, f0, j, n);
      SuppliedFits(was, h, asked, grant, n);
      ghost var h0 := h;
      next, f := Refill(n, memory, grant);
      if grant.Some? {
        StartThenCore(was, h0, h, grant.value, Core(n));
      }
    }

    /** A step of malloc's loop: to the next free block, or through morecore. */
    method StepOn(n: nat, memory: bool, ghost prevp0: nat, p0: nat, ghost f0: nat, ghost j0: nat, ghost was: Heap,
                  ghost before: Process, ghost asked0: bool)
      returns (more: bool, prevp: nat, p: nat, ghost f: nat, ghost j: nat, ghost asked: bool)
      requires Looking(prevp0, p0, f0, j0, n, memory, was, before, asked0) && mem[p0].size < n
      requires var grant := Grant(before, n, memory); grant.Some? ==> Unused(was, grant.value, Core(n))
      modifies this
      ensures if more then Looking(prevp, p, f, j, n, memory, was, before, asked) else Valid() && freep.Some?
      ensures more && asked == asked0 ==> h == old(h) && j0 < j <= |h.fl| && freep == old(freep)
      ensures more && asked != asked0 ==> asked
      ensures !more ==> !asked && Grant(before, n, memory).None? && !Fits(was, n)
      ensures !more ==> Supplied(was, h, false, None, n) && process == AfterSbrk(before, n, memory)
    {
      more, prevp, p, f, j, asked := true, p0, p0, f0, j0, asked0;
      if p0 == freep.value {
        var next;
        next, f := AskCore(n, memory, prevp0, p0, f0, j0, was, before, asked0);
        if next.None? {
          more := false;
        } else {
          asked, j := true, 1;
          prevp, p := freep.value, next.value;
        }
      } else {
        p := Advance(p0, n, prevp0, f0, j0, memory, was, before, asked0);
        j := j0 + 1;
      }
    }

    /** The loop of malloc. At most one request is made: the lap after it succeeds, even when
        the new core was joined to freep itself. */
    method FindFit(n: nat, memory: bool, ghost grant: Option<nat>) returns (found: bool, prevp: nat, p: nat, ghost k: nat)
      requires Valid() && 1 <= n <= MAXUNITS && Running(process) && grant == Grant(process, n, memory)
      requires grant.Some? ==> Unused(h, grant.value, Core(n))
      modifies this
      ensures Valid() && freep.Some?
      ensures process == if Fits(old(h), n) then old(process) else AfterSbrk(old(process), n, memory)
      ensures !found <==> grant.None? && !Fits(old(h), n)
      ensures Supplied(old(h), h, found && !Fits(old(h), n), grant, n)
      ensures found ==> 1 <= k < |h.fl| && p == h.fl[k] && prevp == h.fl[k - 1] && mem[p].size >= n
      ensures found ==> NextFit(h, freep.value, p, n)
      ensures found && Fits(old(h), n) ==> freep.value == if old(freep).Some? then old(freep).value else base
    {
      ghost var f, asked := 0, false;
      p, f := Start(n);
      found, prevp, p, k, asked := SearchFrom(n, memory, grant, freep.value, p, f, old(h), process);
    }

    method SearchFrom(n: nat, memory: bool, ghost grant: Option<nat>, prevp0: nat, p0: nat, ghost f0: nat,
                      ghost was: Heap, ghost before: Process)
      returns (found: bool, prevp: nat, p: nat, ghost k: nat, ghost asked: bool)
      requires Looking(prevp0, p0, f0, 1, n, memory, was, before, false) && grant == Grant(before, n, memory)
      requires grant.Some? ==> Unused(was, grant.value, Core(n))
      modifies this
      ensures Valid() && freep.Some?
      ensures process == if Fits(was, n) then before else AfterSbrk(before, n, memory)
      ensures !found <==> grant.None? && !Fits(was, n)
      ensures asked == (found && !Fits(was, n)) && Supplied(was, h, asked, grant, n)
      ensures found ==> 1 <= k < |h.fl| && p == h.fl[k] && prevp == h.fl[k - 1] && mem[p].size >= n
      ensures found ==> NextFit(h, freep.value, p, n) && (Fits(was, n) ==> freep == old(freep))
    {
      prevp, p, asked := prevp0, p0, false;
      ghost var f, j := f0, 1;
      found, k := true, 0;
      while mem[p].size < n
        invariant Looking(prevp, p, f, j, n, memory, was, before, asked) && (!asked ==> freep == old(freep))
        decreases !asked, |h.fl| - j
      {
        found, prevp, p, f, j, asked := StepOn(n, memory, prevp, p, f, j, was, before, asked);
        if !found {
          return;
        }
      }
      Arrived(prevp, p, f, j, n, memory, was, before, asked);
      k := Around(f, j, |h.fl|);
      assert FitAt(h, freep.value, p, n, f, j);
    }
  }

  /** Block p is the j-th on the way round the list from the f-th, which is from, and the first that has
      n units. */
  ghost predicate FitAt(h: Heap, from: nat, p: nat, n: nat, f: nat, j: nat) {
    && f < |h.fl| && h.fl[f] == from && 1 <= j <= |h.fl| && p == h.fl[Around(f, j, |h.fl|)]
    && p in h.mem && h.mem[p].size >= n
    && forall i {:trigger Around(f, i, |h.fl|)} :: 1 <= i < j ==>
         h.fl[Around(f, i, |h.fl|)] in h.mem && h.mem[h.fl[Around(f, i, |h.fl|)]].size < n
  }

  ghost predicate NextFit(h: Heap, from: nat, p: nat, n: nat) { exists f: nat, j: nat :: FitAt(h, from, p, n, f, j) }

  /** The last n units of the next fit start at a. */
  ghost predicate TailOfNextFit(h: Heap, from: nat, p: nat, n: nat, a: int) {
    NextFit(h, from, p, n) && p in h.mem && a + n == p + h.mem[p].size
  }

  /** The heap that malloc searches: as it was, or with new core if nothing in it was large enough. */
  ghost predicate Supplied(h: Heap, h0: Heap, asked: bool, grant: Option<nat>, n: nat) {
    if asked then grant.Some? && CoreAdded(h, h0, grant.value, Core(n)) && Fits(h0, n) && !Fits(h, n)
    else SameBlocks(h, h0)
  }

  lemma SuppliedFits(h: Heap, h0: Heap, asked: bool, grant: Option<nat>, n: nat)
    requires Supplied(h, h0, asked, grant, n)
    ensures if asked then Fits(h0, n) && !Fits(h, n) else Fits(h0, n) <==> Fits(h, n)
  {
  }

  ghost function Around(f: nat, j: nat, n: nat): (i: int) { if f + j < n then f + j else f + j - n }

  ghost predicate SameBlocks(h: Heap, h0: Heap) {
    h0.base == h.base && h0.live == h.live && h0.owner == h.owner && h0.blocks == h.blocks && LiveKept(h, h0, h.base)
  }

  lemma StartThenCore(h: Heap, h0: Heap, h1: Heap, a: nat, n: nat)
    requires SameBlocks(h, h0) && CoreAdded(h0, h1, a, n)
    requires h.base !in h.live
    ensures CoreAdded(h, h1, a, n)
  {
    assert FreeUnits(h) == FreeUnits(h0);
  }

  /** nbytes rounded up to units, plus one for the header, in 32-bit arithmetic. */
  function Nunits(nbytes: nat): (n: nat)
    requires nbytes < 0x1_0000_0000
    ensures n >= 1
  {
    (nbytes + 7) % 0x1_0000_0000 / 8 + 1
  }

  lemma NextAround(mem: map<nat, Header>, fl: seq<nat>, f: nat, j: nat)
    requires Linked(mem, fl, -1) && f < |fl| && j < |fl|
    ensures 0 <= Around(f, j, |fl|) < |fl| && 0 <= Around(f, j + 1, |fl|) < |fl|
    ensures mem[fl[Around(f, j, |fl|)]].ptr == fl[Around(f, j + 1, |fl|)]
  {
    assert After(Around(f, j, |fl|), |fl|) == Around(f, j + 1, |fl|);
  }

  // ------------------------------------------------------- the memory behind the units

  const UNIT: nat := 8
  const MAXUNITS: nat := 0x2000_0000

  ghost predicate InMemory(h: Heap, top: nat) {
    UNIT * h.base + UNIT <= top && forall u :: u in h.owner ==> UNIT * u + UNIT <= top
  }

  /** The unit at which morecore, asking for n units, is told that its memory starts. */
  function Grant(p: Process, n: nat, memory: bool): (a: Option<nat>)
    requires Running(p) && n <= MAXUNITS
  {
    var addr := Sbrk(p, AsInt(Core(n) * UNIT % WORD), memory).addr;
    if addr.None? then None else Some(addr.value / UNIT)
  }

  ghost function AfterSbrk(p: Process, n: nat, memory: bool): (r: Process)
    requires Running(p) && n <= MAXUNITS
  {
    Sbrk(p, AsInt(Core(n) * UNIT % WORD), memory).process
  }

  /** nbytes and the header, in units, against the two limits. */
  lemma Rounded(nbytes: nat)
    requires nbytes < WORD
    ensures 1 <= Nunits(nbytes) <= MAXUNITS
    ensures UNIT * (Nunits(nbytes) - 1) >= nbytes <==> nbytes <= 0xFFFF_FFF8
    ensures UNIT * (Nunits(nbytes) - 1) < nbytes + UNIT
    ensures UNIT * Nunits(nbytes) < KERNBASE <==> nbytes <= 0x7FFF_FFF0 || nbytes > 0xFFFF_FFF8
  {
  }

  /** What sbrk hands out lies above everything the allocator has. */
  lemma GrantUnused(h: Heap, p: Process, n: nat, memory: bool)
    requires Running(p) && p.sz % UNIT == 0 && InMemory(h, p.sz) && 1 <= n <= MAXUNITS
    ensures var grant := Grant(p, n, memory); grant.Some? ==> UNIT * grant.value == p.sz && Unused(h, grant.value, Core(n))
  {
    Granted(p, Core(n) * UNIT, memory);
  }

  lemma FitsBelow(h: Heap, top: nat, n: nat)
    requires Partition(h.blocks, h.owner) && InMemory(h, top) && Fits(h, n) && n >= 1
    ensures UNIT * n <= top
  {
    var a: nat :| a in h.blocks && a !in h.live && h.blocks[a] >= n;
    assert Covers(h.blocks, a, a + n - 1);
  }

  /** Whether all units are still memory after a search for n units that found h0. */
  lemma BackedAfter(h: Heap, h0: Heap, p: Process, n: nat, memory: bool)
    requires Running(p) && p.sz % UNIT == 0 && InMemory(h, p.sz) && 1 <= n <= MAXUNITS && Partition(h.blocks, h.owner)
    requires var grant := Grant(p, n, memory); Supplied(h, h0, grant.Some? && !Fits(h, n), grant, n)
    ensures var q := if Fits(h, n) then p else AfterSbrk(p, n, memory);
            Running(q) && q.sz % UNIT == 0 && InMemory(h0, q.top) <==> UNIT * n < KERNBASE
  {
    Granted(p, Core(n) * UNIT, memory);
    if Fits(h, n) {
      FitsBelow(h, p.sz, n);
    } else {
      GrantUnused(h, p, n, memory);
      var grant := Grant(p, n, memory);
      if grant.Some? {
        assert grant.value in h0.owner;
      }
    }
  }

  lemma AllocatedBacked(h: Heap, h': Heap, top: nat, a: nat, n: nat)
    requires Allocated(h, h', a, n)
    ensures InMemory(h', top) <==> InMemory(h, top)
  {
    assert forall u :: u in h'.owner.Keys <==> u in h.owner.Keys;
  }

  /** The smallest request that is not served as promised: its byte count, read as an int, is
      negative, and sbrk reports success without granting a byte. */
  lemma TwoGigabytes(p: Process, memory: bool)
    requires Running(p)
    ensures Core(Nunits(0x7FFF_FFF1)) * UNIT == 0x8000_0000
    ensures Sbrk(p, AsInt(Core(Nunits(0x7FFF_FFF1)) * UNIT % WORD), memory) == Answer(p, Some(p.sz))
  {
    assert (p.sz - 0x8000_0000) % WORD == p.sz + 0x8000_0000;
  }

  /** A block owns exactly the units from its header on, so distinct blocks never overlap. */
  lemma BlockUnits(h: Heap, a: nat)
    requires Good(h) && a in h.blocks
    ensures forall u :: u in UnitsOf(h, a) <==> a <= u < a + h.blocks[a]
    ensures forall b :: b in h.blocks && b != a ==> b + h.blocks[b] <= a || a + h.blocks[a] <= b
  {
    forall u: nat | a <= u < a + h.blocks[a] ensures u in UnitsOf(h, a) {
      assert Covers(h.blocks, a, u);
    }
    forall b | b in h.blocks && b != a ensures b + h.blocks[b] <= a || a + h.blocks[a] <= b {
      if b < a {
        Apart(h.blocks, h.owner, b, a);
      } else {
        Apart(h.blocks, h.owner, a, b);
      }
    }
  }

  /** A lap without success means that no free block is large enough. */
  lemma NothingFits(h: Heap, f: nat, n: nat)
    requires Good(h) && f < |h.fl| && n >= 1
    requires forall i {:trigger Around(f, i, |h.fl|)} :: 1 <= i <= |h.fl| ==> h.mem[h.fl[Around(f, i, |h.fl|)]].size < n
    ensures !Fits(h, n)
  {
    forall a | a in h.blocks && a !in h.live ensures h.blocks[a] < n {
      assert a in h.fl;
      var k :| 0 <= k < |h.fl| && h.fl[k] == a;
      var i := if k > f then k - f else k + |h.fl| - f;
      assert Around(f, i, |h.fl|) == k;
    }
  }

  /** morecore never asks for less than 4096 units. */
  function Core(nunits: nat): (nu: nat)
    ensures nu >= 4096 && nu >= nunits && (nu == 4096 || nu == nunits)
  {
    if nunits < 4096 then 4096 else nunits
  }

  /** What morecore changes, seen from outside: n units at a are new and free. */
  ghost predicate CoreAdded(h: Heap, h': Heap, a: nat, n: nat) {
    && h'.base == h.base && h'.live == h.live && LiveKept(h, h', a)
    && (forall u :: u in h'.owner <==> u in h.owner || a <= u < a + n)
    && (forall u :: u in FreeUnits(h') <==> u in FreeUnits(h) || a <= u < a + n)
  }

  lemma WhollyFreed(h: Heap, half: Heap, h': Heap, bp: nat)
    requires HalfFreed(h, half, bp) && Freed(half, h', bp)
    ensures Freed(h, h', bp)
  {
  }

  /** New units become a block, and the block is freed. */
  lemma Entered(h: Heap, grown: Heap, h': Heap, a: nat, n: nat)
    requires Good(h) && Unused(h, a, n) && grown == Grown(h, a, n) && Good(h') && Freed(grown, h', a) && a !in h.blocks
    ensures CoreAdded(h, h', a, n) && Fits(h', n)
  {
    GrownUnits(h, a, n);
    FreeRun(h', a, n);
  }

  lemma {:induction false} GapBelow(fl: seq<nat>, bp: nat) returns (g: nat)
    requires |fl| >= 1 && fl[0] < bp && bp !in fl && forall i, j :: 0 <= i < j < |fl| ==> fl[i] < fl[j]
    ensures InGap(fl, bp, g)
    decreases |fl|
  {
    if fl[|fl| - 1] < bp {
      g := |fl| - 1;
    } else {
      g := GapBelow(fl[..|fl| - 1], bp);
    }
  }
}
