/** Physical pages, the free list threaded through them and two-level page tables, with the ledger
    that says what every page handed out by kalloc is used for. */
module PageTables {
  import opened Words

  const NENTRIES: nat := 1024
  const PGSIZE: nat := 4096
  /** PHYSTOP / PGSIZE: physical pages. */
  const NPAGES: nat := 0xE000
  /** KERNBASE / PGSIZE: virtual pages below the kernel. */
  const USERPAGES: nat := 0x8_0000
  const ALLPAGES: nat := 0x10_0000

  /** A page as its 1024 words. */
  type Page = p: seq<Word> | |p| == NENTRIES witness seq(1024, _ => 0)

  predicate Present(w: Word) { w % 2 == 1 }

  function PageOf(w: Word): (p: nat) { w / PGSIZE }

  function Flags(w: Word): (f: nat) { w % PGSIZE }

  /** What a page in use is for: a page directory, the table behind entry i of a directory, the
      user page at virtual page v, or something outside the page tables (its dir is 0). */
  datatype Role = Dir | Table(i: nat) | User(v: nat) | Other

  datatype Use = Use(dir: nat, role: Role)

  /** hands holds the pages that were taken from the list and are not yet, or no longer, on the ledger. */
  datatype View = View(mem: seq<Page>, head: nat, free: seq<nat>, owner: map<nat, Use>, hands: set<nat>)

  predicate IsDir(owner: map<nat, Use>, d: nat) { d in owner && owner[d] == Use(d, Dir) }

  function Pde(mem: seq<Page>, d: nat, i: nat): (w: Word)
  {
    if d < |mem| && i < NENTRIES then mem[d][i] else 0
  }

  /** The table entry for virtual page v, 0 when its table is missing. */
  function Pte(mem: seq<Page>, d: nat, v: nat): (w: Word)
  {
    var pde := Pde(mem, d, v / NENTRIES);
    if Present(pde) && PageOf(pde) < |mem| then mem[PageOf(pde)][v % NENTRIES] else 0
  }

  // ---- the ledger ----

  /** A directory entry leads to a table of its own and leaves the permissions to the table's entries:
      present, writable and open to the user. */
  ghost predicate TablesClaimed(mem: seq<Page>, owner: map<nat, Use>) {
    forall d: nat, i: nat {:trigger Pde(mem, d, i)} :: IsDir(owner, d) && Present(Pde(mem, d, i)) ==>
      && PageOf(Pde(mem, d, i)) in owner && owner[PageOf(Pde(mem, d, i))] == Use(d, Table(i))
      && Flags(Pde(mem, d, i)) == 7
  }

  ghost predicate UsersClaimed(mem: seq<Page>, owner: map<nat, Use>) {
    forall d: nat, v: nat {:trigger Pte(mem, d, v)} :: IsDir(owner, d) && v < USERPAGES && Present(Pte(mem, d, v)) ==>
      PageOf(Pte(mem, d, v)) in owner && owner[PageOf(Pte(mem, d, v))] == Use(d, User(v))
  }

  ghost predicate HeldAt(lo: nat, mem: seq<Page>, owner: map<nat, Use>, p: nat)
    requires p in owner
  {
    && lo <= p < NPAGES
    && (owner[p].role.Dir? ==> owner[p].dir == p)
    && (owner[p].role.Other? ==> owner[p].dir == 0)
    && (owner[p].role.Table? ==> TableAt(mem, owner, p, owner[p].dir, owner[p].role.i))
    && (owner[p].role.User? ==> UserAt(mem, owner, p, owner[p].dir, owner[p].role.v))
  }

  predicate TableAt(mem: seq<Page>, owner: map<nat, Use>, p: nat, d: nat, i: nat) {
    IsDir(owner, d) && Present(Pde(mem, d, i)) && PageOf(Pde(mem, d, i)) == p
  }

  predicate UserAt(mem: seq<Page>, owner: map<nat, Use>, p: nat, d: nat, v: nat) {
    IsDir(owner, d) && v < USERPAGES && Present(Pte(mem, d, v)) && PageOf(Pte(mem, d, v)) == p
  }

  ghost predicate Held(lo: nat, mem: seq<Page>, owner: map<nat, Use>) {
    forall p: nat :: p in owner ==> HeldAt(lo, mem, owner, p)
  }

  // ---- the free list ----

  /** A free page's first word holds the number of the next one. */
  ghost predicate Linked(mem: seq<Page>, head: nat, free: seq<nat>) {
    && (free == [] ==> head == 0)
    && (free != [] ==> head == free[0])
    && forall k: nat {:trigger NextOf(free, k)} :: k < |free| ==> free[k] < |mem| && mem[free[k]][0] == NextOf(free, k)
  }

  function NextOf(free: seq<nat>, k: nat): (p: nat) { if k + 1 < |free| then free[k + 1] else 0 }

  ghost predicate NoRepeats(free: seq<nat>) {
    forall i: nat, j: nat :: i < j < |free| ==> free[i] != free[j]
  }

  /** Every managed page is on the free list, in use, or in somebody's hands, and only one of them. */
  ghost predicate Parted(lo: nat, free: seq<nat>, owner: map<nat, Use>, hands: set<nat>) {
    && NoRepeats(free)
    && (forall p: nat :: p in free ==> lo <= p < NPAGES && p !in owner && p !in hands)
    && (forall p: nat :: p in hands ==> lo <= p < NPAGES && p !in owner)
    && (forall p: nat :: lo <= p < NPAGES ==> p in free || p in owner || p in hands)
  }

  ghost predicate Good(lo: nat, k: View) {
    && 0 < lo && |k.mem| == NPAGES
    && Linked(k.mem, k.head, k.free)
    && Parted(lo, k.free, k.owner, k.hands)
    && Ledger(lo, k.mem, k.owner)
  }

  ghost predicate Ledger(lo: nat, mem: seq<Page>, owner: map<nat, Use>) {
    TablesClaimed(mem, owner) && UsersClaimed(mem, owner) && Held(lo, mem, owner)
  }

  // ---- page writes ----

  /** Writing a page that is neither a directory nor a table changes no mapping. */
  lemma PlainWrite(lo: nat, mem: seq<Page>, owner: map<nat, Use>, q: nat, x: Page, d: nat, v: nat)
    requires TablesClaimed(mem, owner) && IsDir(owner, d) && q < |mem|
    requires q !in owner || owner[q].role.User? || owner[q].role.Other?
    ensures Pde(mem[q := x], d, v) == Pde(mem, d, v) && Pte(mem[q := x], d, v) == Pte(mem, d, v)
  {
    assert Pde(mem, d, v / NENTRIES) == Pde(mem[q := x], d, v / NENTRIES);
  }

  lemma PlainWriteKeeps(lo: nat, mem: seq<Page>, owner: map<nat, Use>, q: nat, x: Page)
    requires Ledger(lo, mem, owner) && q < |mem|
    requires q !in owner || owner[q].role.User? || owner[q].role.Other?
    ensures Ledger(lo, mem[q := x], owner)
  {
    var m := mem[q := x];
    forall d: nat, v: nat | IsDir(owner, d)
      ensures Pde(m, d, v) == Pde(mem, d, v) && Pte(m, d, v) == Pte(mem, d, v)
    {
      PlainWrite(lo, mem, owner, q, x, d, v);
    }
    assert TablesClaimed(m, owner) && UsersClaimed(m, owner);
    forall p: nat | p in owner
      ensures HeldAt(lo, m, owner, p)
    {
      assert HeldAt(lo, mem, owner, p);
    }
  }

  /** kalloc takes the head of the list. */
  lemma TakeKeepsGood(lo: nat, k: View)
    requires Good(lo, k) && k.free != []
    ensures k.head == k.free[0] && lo <= k.head < NPAGES && k.head !in k.owner && k.head !in k.hands
    ensures Good(lo, View(k.mem, k.mem[k.head][0], k.free[1..], k.owner, k.hands + {k.head}))
  {
    TailMembers(k.free);
    TailLinked(k.mem, k.head, k.free);
    assert k.free[0] in k.free;
    TailParted(lo, k.free, k.owner, k.hands);
  }

  lemma TailMembers(free: seq<nat>)
    requires NoRepeats(free) && free != []
    ensures NoRepeats(free[1..])
    ensures forall p: nat :: p in free[1..] <==> p in free && p != free[0]
  {
    var rest := free[1..];
    assert free == [free[0]] + rest;
    forall p: nat | p in rest
      ensures p != free[0]
    {
      var j :| 0 <= j < |rest| && rest[j] == p;
      assert rest[j] == free[j + 1];
    }
  }

  lemma LinkedAt(mem: seq<Page>, head: nat, free: seq<nat>, k: nat)
    requires Linked(mem, head, free) && k < |free|
    ensures free[k] < |mem| && mem[free[k]][0] == NextOf(free, k)
  {
  }

  lemma TailLinked(mem: seq<Page>, head: nat, free: seq<nat>)
    requires Linked(mem, head, free) && free != []
    ensures head < |mem| && Linked(mem, mem[head][0], free[1..])
  {
    var rest := free[1..];
    LinkedAt(mem, head, free, 0);
    forall j: nat | j < |rest|
      ensures rest[j] < |mem| && mem[rest[j]][0] == NextOf(rest, j)
    {
      assert rest[j] == free[j + 1] && NextOf(rest, j) == NextOf(free, j + 1);
    }
  }

  lemma TailParted(lo: nat, free: seq<nat>, owner: map<nat, Use>, hands: set<nat>)
    requires Parted(lo, free, owner, hands) && free != []
    ensures Parted(lo, free[1..], owner, hands + {free[0]})
  {
    TailMembers(free);
    assert free[0] in free;
  }

  /** kfree puts a page nobody uses back at the head. */
  lemma PutKeepsGood(lo: nat, k: View, p: nat, x: Page)
    requires Good(lo, k) && p in k.hands && x[0] == k.head
    ensures Good(lo, View(k.mem[p := x], p, [p] + k.free, k.owner, k.hands - {p}))
  {
    PlainWriteKeeps(lo, k.mem, k.owner, p, x);
    var m, f := k.mem[p := x], [p] + k.free;
    assert p !in k.free;
    forall j: nat | j < |f|
      ensures f[j] < |m| && m[f[j]][0] == NextOf(f, j)
    {
      if j > 0 {
        assert f[j] == k.free[j - 1] && f[j] in k.free && NextOf(f, j) == NextOf(k.free, j - 1);
      }
    }
    forall q: nat | lo <= q < NPAGES
      ensures q in f || q in k.owner || q in k.hands - {p}
    {
      assert f[0] == p && (q in k.free ==> q in f);
    }
  }

  lemma LinkedFrame(mem: seq<Page>, head: nat, free: seq<nat>, q: nat, x: Page)
    requires Linked(mem, head, free) && q < |mem| && q !in free
    ensures Linked(mem[q := x], head, free)
  {
    forall k: nat | k < |free|
      ensures free[k] < |mem| && mem[q := x][free[k]][0] == NextOf(free, k)
    {
      assert NextOf(free, k) == mem[free[k]][0] && free[k] in free;
    }
  }

  // ---- table entries ----

  function VPage(i: nat, j: nat): (v: nat) { i * NENTRIES + j }

  /** Writing entry j of the table behind directory entry i changes one mapping. */
  lemma EntryWrite(mem: seq<Page>, owner: map<nat, Use>, d: nat, i: nat, t: nat, j: nat, w: Word, e: nat, v: nat)
    requires TablesClaimed(mem, owner) && IsDir(owner, d) && IsDir(owner, e)
    requires Present(Pde(mem, d, i)) && PageOf(Pde(mem, d, i)) == t < |mem| && j < NENTRIES
    ensures Pde(mem[t := mem[t][j := w]], e, v) == Pde(mem, e, v)
    ensures Pte(mem[t := mem[t][j := w]], e, v) == if e == d && v == VPage(i, j) then w else Pte(mem, e, v)
  {
    var m, k := mem[t := mem[t][j := w]], v / NENTRIES;
    assert owner[t] == Use(d, Table(i));
    assert Pde(m, e, k) == Pde(mem, e, k);
    assert v == k * NENTRIES + v % NENTRIES;
    if Present(Pde(mem, e, k)) && PageOf(Pde(mem, e, k)) == t {
      assert owner[t] == Use(e, Table(k));
    }
  }

  /** Hanging a blank table into a missing directory entry maps nothing yet. */
  lemma DirWrite(mem: seq<Page>, owner: map<nat, Use>, d: nat, i: nat, w: Word, e: nat, v: nat)
    requires TablesClaimed(mem, owner) && IsDir(owner, d) && IsDir(owner, e) && d < |mem| && i < NENTRIES
    requires !Present(Pde(mem, d, i)) && PageOf(w) < |mem| && PageOf(w) !in owner
    requires forall j: nat :: j < NENTRIES ==> mem[PageOf(w)][j] == 0
    ensures var m := mem[d := mem[d][i := w]];
            && Pde(m, e, v) == (if e == d && v == i then w else Pde(mem, e, v))
            && Pte(m, e, v) == Pte(mem, e, v)
  {
    var m, k := mem[d := mem[d][i := w]], v / NENTRIES;
    assert Pde(m, e, k) == if e == d && k == i then w else Pde(mem, e, k);
    if Present(Pde(mem, e, k)) {
      assert owner[PageOf(Pde(mem, e, k))] == Use(e, Table(k));
    }
  }

  /** The ledger grows by a table when one directory entry has come to point at a loose page. */
  lemma TableBooked(lo: nat, mem: seq<Page>, owner: map<nat, Use>, m: seq<Page>, d: nat, i: nat, t: nat, w: Word)
    requires Ledger(lo, mem, owner) && IsDir(owner, d) && t !in owner && lo <= t < NPAGES
    requires !Present(Pde(mem, d, i)) && Present(w) && Flags(w) == 7 && PageOf(w) == t
    requires forall e: nat, v: nat {:trigger Pde(m, e, v)} :: IsDir(owner, e) ==>
      Pde(m, e, v) == if e == d && v == i then w else Pde(mem, e, v)
    requires forall e: nat, v: nat {:trigger Pte(m, e, v)} :: IsDir(owner, e) ==> Pte(m, e, v) == Pte(mem, e, v)
    ensures Ledger(lo, m, owner[t := Use(d, Table(i))])
  {
    var own := owner[t := Use(d, Table(i))];
    forall e: nat
      ensures IsDir(own, e) <==> IsDir(owner, e)
    {
    }
    forall p: nat | p in own
      ensures HeldAt(lo, m, own, p)
    {
      if p == t {
        assert Pde(m, d, i) == w;
      } else {
        assert HeldAt(lo, mem, owner, p);
      }
    }
  }

  /** walkpgdir's new table. */
  lemma NewTable(lo: nat, k: View, d: nat, i: nat, t: nat, w: Word)
    requires Good(lo, k) && IsDir(k.owner, d) && i < NENTRIES && !Present(Pde(k.mem, d, i))
    requires t in k.hands && Present(w) && Flags(w) == 7 && PageOf(w) == t
    requires forall j: nat :: j < NENTRIES ==> k.mem[t][j] == 0
    ensures d < |k.mem|
    ensures Good(lo, View(k.mem[d := k.mem[d][i := w]], k.head, k.free, k.owner[t := Use(d, Table(i))], k.hands - {t}))
  {
    assert HeldAt(lo, k.mem, k.owner, d);
    var m := k.mem[d := k.mem[d][i := w]];
    assert Ledger(lo, m, k.owner[t := Use(d, Table(i))]) by {
      forall e: nat, v: nat | IsDir(k.owner, e)
        ensures Pde(m, e, v) == if e == d && v == i then w else Pde(k.mem, e, v)
        ensures Pte(m, e, v) == Pte(k.mem, e, v)
      {
        DirWrite(k.mem, k.owner, d, i, w, e, v);
      }
      TableBooked(lo, k.mem, k.owner, m, d, i, t, w);
    }
    LinkedFrame(k.mem, k.head, k.free, d, k.mem[d][i := w]);
    assert Parted(lo, k.free, k.owner[t := Use(d, Table(i))], k.hands - {t});
  }

  /** The mappings of the directories in owner differ between mem and m at most in entry v of d. */
  ghost predicate OneEntry(mem: seq<Page>, m: seq<Page>, owner: map<nat, Use>, d: nat, v: nat, w: Word) {
    && (forall e: nat, u: nat {:trigger Pde(m, e, u)} :: IsDir(owner, e) ==> Pde(m, e, u) == Pde(mem, e, u))
    && (forall e: nat, u: nat {:trigger Pte(m, e, u)} :: IsDir(owner, e) ==>
          Pte(m, e, u) == if e == d && u == v then w else Pte(mem, e, u))
  }

  lemma EntryWritten(mem: seq<Page>, owner: map<nat, Use>, d: nat, i: nat, t: nat, j: nat, w: Word)
    requires TablesClaimed(mem, owner) && IsDir(owner, d)
    requires Present(Pde(mem, d, i)) && PageOf(Pde(mem, d, i)) == t < |mem| && j < NENTRIES
    ensures OneEntry(mem, mem[t := mem[t][j := w]], owner, d, VPage(i, j), w)
  {
    var m := mem[t := mem[t][j := w]];
    forall e: nat, u: nat | IsDir(owner, e)
      ensures Pde(m, e, u) == Pde(mem, e, u)
      ensures Pte(m, e, u) == if e == d && u == VPage(i, j) then w else Pte(mem, e, u)
    {
      EntryWrite(mem, owner, d, i, t, j, w, e, u);
    }
  }

  /** The ledger grows by a user page when one user entry has come to point at a loose page. */
  lemma UserBooked(lo: nat, mem: seq<Page>, owner: map<nat, Use>, m: seq<Page>, d: nat, v: nat, p: nat, w: Word)
    requires Ledger(lo, mem, owner) && IsDir(owner, d) && p !in owner && lo <= p < NPAGES && v < USERPAGES
    requires !Present(Pte(mem, d, v)) && Present(w) && PageOf(w) == p && OneEntry(mem, m, owner, d, v, w)
    ensures Ledger(lo, m, owner[p := Use(d, User(v))])
  {
    var own := owner[p := Use(d, User(v))];
    forall e: nat
      ensures IsDir(own, e) <==> IsDir(owner, e)
    {
    }
    forall q: nat | q in own
      ensures HeldAt(lo, m, own, q)
    {
      if q == p {
        assert Pte(m, d, v) == w;
      } else {
        assert HeldAt(lo, mem, owner, q);
      }
    }
  }

  /** Clearing a user entry takes its page off the ledger. */
  lemma UserDropped(lo: nat, mem: seq<Page>, owner: map<nat, Use>, m: seq<Page>, d: nat, v: nat)
    requires Ledger(lo, mem, owner) && IsDir(owner, d) && v < USERPAGES && Present(Pte(mem, d, v))
    requires OneEntry(mem, m, owner, d, v, 0)
    ensures Ledger(lo, m, owner - {PageOf(Pte(mem, d, v))})
  {
    var p := PageOf(Pte(mem, d, v));
    var own := owner - {p};
    assert owner[p] == Use(d, User(v));
    forall e: nat
      ensures IsDir(own, e) <==> IsDir(owner, e)
    {
    }
    forall q: nat | q in own
      ensures HeldAt(lo, m, own, q)
    {
      assert HeldAt(lo, mem, owner, q);
    }
    forall e: nat, u: nat | IsDir(own, e) && u < USERPAGES && Present(Pte(m, e, u))
      ensures PageOf(Pte(m, e, u)) in own && own[PageOf(Pte(m, e, u))] == Use(e, User(u))
    {
      assert Pte(mem, e, u) == Pte(m, e, u);
    }
    forall e: nat, i: nat | IsDir(own, e) && Present(Pde(m, e, i))
      ensures PageOf(Pde(m, e, i)) in own && own[PageOf(Pde(m, e, i))] == Use(e, Table(i))
    {
      assert Pde(mem, e, i) == Pde(m, e, i);
    }
  }

  /** Entries above the user part are not on the ledger. */
  lemma KernelUnbooked(lo: nat, mem: seq<Page>, owner: map<nat, Use>, m: seq<Page>, d: nat, v: nat, w: Word)
    requires Ledger(lo, mem, owner) && IsDir(owner, d) && v >= USERPAGES && OneEntry(mem, m, owner, d, v, w)
    ensures Ledger(lo, m, owner)
  {
    forall q: nat | q in owner
      ensures HeldAt(lo, m, owner, q)
    {
      assert HeldAt(lo, mem, owner, q);
    }
  }
}
