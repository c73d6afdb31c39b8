/** kalloc.c and the user part of vm.c. Kernel pointers and physical addresses of pages are page
    numbers here; 0 is the null pointer, and page 0 is never handed out. */
module Kvm {
  import opened Words
  import opened PageTables
  import opened PageBill
  import opened Growproc

  datatype MapResult = Mapped | NoMemory | Remap

  const PTE_W: nat := 2
  const PTE_U: nat := 4

  /** From k to l directory d has only gained pages: everything on the ledger stays on it, and only
      d itself and its tables were written among the pages in use. */
  ghost predicate GrewBy(k: View, l: View, d: nat) {
    && |l.mem| == |k.mem|
    && (forall p: nat :: p in k.owner ==> p in l.owner && l.owner[p] == k.owner[p])
    && (forall p: nat :: p in k.owner && p < |k.mem| && !Structure(k.owner[p], d) ==> l.mem[p] == k.mem[p])
    && (forall p: nat :: p in l.owner && p !in k.owner ==>
          l.owner[p].dir == d && (l.owner[p].role.Table? || l.owner[p].role.User?))
    && (forall p: nat :: p in k.hands && p < |k.mem| ==> l.mem[p] == k.mem[p])
    && (forall p: nat :: p in l.free ==> p in k.free)
  }

  predicate Structure(u: Use, d: nat) { u.dir == d && (u.role.Dir? || u.role.Table?) }

  ghost predicate SameMaps(k: View, l: View) {
    forall e: nat, u: nat {:trigger Pte(l.mem, e, u)} :: IsDir(k.owner, e) ==> Pte(l.mem, e, u) == Pte(k.mem, e, u)
  }

  /** Entry v of d is now w; all other mappings are as before. */
  ghost predicate SetEntry(k: View, l: View, d: nat, v: nat, w: Word) {
    forall e: nat, u: nat {:trigger Pte(l.mem, e, u)} :: IsDir(k.owner, e) ==>
      Pte(l.mem, e, u) == if e == d && u == v then w else Pte(k.mem, e, u)
  }

  /** Between k and l the ledger has gained only tables of d and, for a user entry, the page mapped at v. */
  ghost predicate Gained(k: View, l: View, d: nat, v: nat, w: Word) {
    && (forall p: nat :: p in l.owner && p !in k.owner ==>
          (l.owner[p].dir == d && l.owner[p].role.Table?) || (v < USERPAGES && p == PageOf(w)))
    && (v < USERPAGES ==> PageOf(w) in l.owner && l.owner[PageOf(w)] == Use(d, User(v)))
    && l.hands == (if v < USERPAGES then k.hands - {PageOf(w)} else k.hands)
  }

  class Vm {
    /** The first page after the kernel. */
    const lo: nat
    var mem: seq<Page>
    var head: nat
    ghost var free: seq<nat>
    ghost var owner: map<nat, Use>
    ghost var hands: set<nat>

    ghost function Now(): (k: View)
      reads this
    {
      View(mem, head, free, owner, hands)
    }

    ghost predicate Valid()
      reads this
    {
      Good(lo, Now())
    }

    /** kinit1 and kinit2: freerange hands every page from first up to PHYSTOP to kfree. */
    constructor (first: nat, ram: seq<Page>)
      requires 0 < first <= NPAGES == |ram|
      ensures Valid() && lo == first && owner == map[] && hands == {}
      ensures forall p: nat :: p in free <==> first <= p < NPAGES
    {
      lo, mem, head := first, ram, 0;
      free, owner, hands := [], map[], From(first);
      new;
      Untouched(lo, Now());
      var p := lo;
      while p < NPAGES
        invariant lo <= p <= NPAGES && Valid() && owner == map[] && hands == From(p)
      {
        FromNext(p);
        var ok := Release(p);
        p := p + 1;
      }
    }

    /** kfree: !ok is panic("kfree"). The page is filled with junk and goes to the head of the list. */
    method Kfree(p: nat) returns (ok: bool, ghost x: Page)
      requires ListOk(lo, mem, head, free) && p !in free
      modifies `mem, `head, `free
      ensures ok == (lo <= p < NPAGES)
      ensures !ok ==> mem == old(mem) && head == old(head) && free == old(free)
      ensures ok ==> x[0] == old(head) && mem == old(mem)[p := x] && head == p && free == [p] + old(free)
    {
      ok := lo <= p < NPAGES;
      var junk: seq<Word> := seq(NENTRIES, _ => 0x0101_0101);
      x := junk;
      if ok {
        ListHead(lo, mem, head, free);
        junk := junk[0 := head];
        x := junk;
        mem := mem[p := junk];
        head, free := p, [p] + free;
      }
    }

    /** Freeing a page in hand. */
    method Release(p: nat) returns (ok: bool)
      requires Valid() && p in hands
      modifies this
      ensures ok && Valid() && owner == old(owner) && hands == old(hands) - {p} && free == [p] + old(free)
      ensures forall q: nat :: q < NPAGES && q != p ==> mem[q] == old(mem)[q]
    {
      ghost var k, x := Now(), mem[0];
      ok, x := Kfree(p);
      PutKeepsGood(lo, k, p, x);
      hands := hands - {p};
    }

    /** The page taken, or 0 when the list is empty. */
    method Kalloc() returns (p: nat)
      requires Valid()
      modifies this
      ensures Valid() && owner == old(owner) && mem == old(mem)
      ensures p == 0 <==> old(free) == []
      ensures p == 0 ==> Now() == old(Now())
      ensures p != 0 ==> old(free) == [p] + free && hands == old(hands) + {p} && p !in old(hands) && p !in owner
      ensures p != 0 ==> lo <= p < NPAGES && (forall q: nat :: q in free ==> q in old(free))
    {
      p := head;
      if p != 0 {
        TakeKeepsGood(lo, Now());
        assert free == [p] + free[1..];
        head := mem[p][0];
        free, hands := free[1..], hands + {p};
      } else {
        NullHead(lo, Now());
      }
    }

    /** walkpgdir with alloc 0: the page of the table that holds v's entry, or 0. */
    method FindTable(d: nat, v: nat) returns (t: nat)
      requires Valid() && IsDir(owner, d) && v < ALLPAGES
      ensures t == 0 <==> !Present(Pde(mem, d, v / NENTRIES))
      ensures t != 0 ==> t < NPAGES && t == PageOf(Pde(mem, d, v / NENTRIES))
    {
      assert HeldAt(lo, mem, owner, d);
      var pde := mem[d][v / NENTRIES];
      t := 0;
      if Present(pde) {
        t := PageOf(pde);
        TableInRange(lo, Now(), d, v / NENTRIES);
      }
    }

    /** walkpgdir with alloc 1: a missing table is added. 0 when memory is out. */
    method Walkpgdir(d: nat, v: nat) returns (t: nat)
      requires Valid() && IsDir(owner, d) && v < ALLPAGES
      modifies this
      ensures Valid() && SameMaps(old(Now()), Now()) && GrewBy(old(Now()), Now(), d) && hands == old(hands)
      ensures t != 0 ==> t < NPAGES && Present(Pde(mem, d, v / NENTRIES)) && PageOf(Pde(mem, d, v / NENTRIES)) == t
      ensures t == 0 <==> !old(Present(Pde(mem, d, v / NENTRIES))) && old(free) == []
      ensures t == 0 || old(Present(Pde(mem, d, v / NENTRIES))) ==> Now() == old(Now())
      ensures t != 0 ==> Spent(old(Now()), Now(), d, v, v + 1, 0)
      ensures forall p: nat :: p in owner && p !in old(owner) ==> owner[p] == Use(d, Table(v / NENTRIES))
      ensures forall e: nat, i: nat {:trigger Pde(mem, e, i)} :: IsDir(owner, e) && (e != d || i != v / NENTRIES) ==>
        Pde(mem, e, i) == old(Pde(mem, e, i))
    {
      t := FindTable(d, v);
      ghost var k := Now();
      if t == 0 {
        assert HeldAt(lo, mem, owner, d);
        t := Kalloc();
        if t != 0 {
          AddTable(d, v / NENTRIES, t);
          SpentOnTable(k, Now(), d, v);
        }
      } else {
        SpentOnTable(k, k, d, v);
      }
    }

    method AddTable(d: nat, i: nat, t: nat)
      requires Valid() && IsDir(owner, d) && i < NENTRIES && !Present(Pde(mem, d, i)) && t in hands && d < NPAGES
      modifies this
      ensures Valid() && SameMaps(old(Now()), Now()) && owner == old(owner)[t := Use(d, Table(i))]
      ensures hands == old(hands) - {t} && free == old(free)
      ensures Present(Pde(mem, d, i)) && PageOf(Pde(mem, d, i)) == t
      ensures forall q: nat :: q < NPAGES && q != t && q != d ==> mem[q] == old(mem)[q]
      ensures forall e: nat, k: nat {:trigger Pde(mem, e, k)} :: IsDir(old(owner), e) && (e != d || k != i) ==>
        Pde(mem, e, k) == old(Pde(mem, e, k))
    {
      var blank: seq<Word> := seq(NENTRIES, _ => 0);
      ghost var k := Now();
      BlankPage(lo, k, t, blank);
      mem := mem[t := blank];
      ghost var l := Now();
      var w := t * PGSIZE + (1 + PTE_W + PTE_U);
      NewTable(lo, l, d, i, t, w);
      TableHung(lo, k, l, d, i, t, w);
      mem := mem[d := mem[d][i := w]];
      owner, hands := owner[t := Use(d, Table(i))], hands - {t};
    }

    /** The body of mappages' loop: v is mapped by the entry w. A user page must be in hand. */
    method MapOne(d: nat, v: nat, w: Word, ghost k: View) returns (r: MapResult, ghost n: View)
      requires k == Now() && Valid() && IsDir(owner, d) && v < ALLPAGES && Present(w)
      requires v < USERPAGES ==> PageOf(w) in hands
      modifies this
      ensures Valid() && n == Now()
      ensures r.Remap? <==> Present(Pte(k.mem, d, v))
      ensures !r.Mapped? ==> n == k
      ensures r.NoMemory? ==> k.free == [] && !HasTable(k.mem, d, v / NENTRIES)
      ensures r.Mapped? ==> Spent(k, n, d, v, v + 1, 0)
      ensures r.Mapped? ==> GrewBy(k, n, d) && SetEntry(k, n, d, v, w) && Gained(k, n, d, v, w)
    {
      var t := Walkpgdir(d, v);
      n := Now();
      if t == 0 {
        return NoMemory, n;
      }
      var j := v % NENTRIES;
      assert mem[t][j] == Pte(mem, d, v) == Pte(k.mem, d, v);
      if Present(mem[t][j]) {
        return Remap, n;
      }
      ghost var l := n;
      EntryBooked(lo, l, d, v, t, w);
      TablesKept(lo, l, d, v / NENTRIES, t, mem[t][j := w]);
      mem := mem[t := mem[t][j := w]];
      if v < USERPAGES {
        owner, hands := owner[PageOf(w) := Use(d, User(v))], hands - {PageOf(w)};
      }
      n := Now();
      assert n == Booked(l, d, v, t, w);
      MapComposed(k, l, n, d, v, w);
      r := Mapped;
    }

    /** A pass of mappages' loop after the first. */
    method MapNext(d: nat, v: nat, pp: nat, perm: nat, ghost k: View, ghost m: View, ghost first: nat, ghost pp0: nat)
      returns (r: MapResult, ghost n: View)
      requires m == Now() && Valid() && IsDir(owner, d) && IsDir(k.owner, d) && USERPAGES <= first <= v < ALLPAGES
      requires pp == pp0 + (v - first) < ALLPAGES && perm < PGSIZE && Ranging(k, m, d, first, v, pp0, perm)
      modifies this
      ensures Valid() && n == Now() && (r.Remap? ==> Present(Pte(m.mem, d, v))) && (!r.Mapped? ==> n == m)
      ensures IsDir(owner, d) && (r.Mapped? ==> Ranging(k, n, d, first, v + 1, pp0, perm))
      ensures r.NoMemory? ==> m.free == [] && !HasTable(m.mem, d, v / NENTRIES)
    {
      var w := EntryFor(v, v, pp, perm);
      EntryIs(v, v, pp, perm);
      r, n := MapOne(d, v, w, m);
      if r.Mapped? {
        RangingNext(k, m, n, d, first, v, pp0, pp, perm);
      }
    }

    /** mappages: -1 is NoMemory and a panic is Remap. A range in the user part must be one page, and
        that page in hand; the kernel's ranges may be long. The free pages run out exactly when there
        are fewer than tables missing, unless a page that is mapped is met before. */
    method Mappages(d: nat, va: Word, size: Word, pa: Word, perm: nat, ghost k: View)
      returns (r: MapResult, ghost n: View)
      requires k == Now() && Valid() && IsDir(owner, d) && size > 0 && va + size <= 0x1_0000_0000
      requires pa % PGSIZE == 0 && perm < PGSIZE && pa / PGSIZE + (LastPage(va, size) - va / PGSIZE) < ALLPAGES
      requires va / PGSIZE < USERPAGES ==> va / PGSIZE == LastPage(va, size) && pa / PGSIZE in hands
      modifies this
      ensures Valid() && n == Now()
      ensures r.Remap? ==> exists u: nat :: va / PGSIZE <= u <= LastPage(va, size) && Present(Pte(k.mem, d, u))
      ensures va / PGSIZE == LastPage(va, size) ==> (r.Remap? <==> Present(Pte(k.mem, d, va / PGSIZE)))
      ensures r.Mapped? ==> Ranging(k, n, d, va / PGSIZE, LastPage(va, size) + 1, pa / PGSIZE, perm)
      ensures r.NoMemory? ==> TooFew(k, d, va / PGSIZE, LastPage(va, size))
      ensures r.NoMemory? && va / PGSIZE == LastPage(va, size) ==> n == k
      ensures r.NoMemory? && va / PGSIZE >= USERPAGES ==> GrewBy(k, n, d) && n.hands == k.hands
    {
      var first, last, pp := va / PGSIZE, LastPage(va, size), pa / PGSIZE;
      r, n := MapFirst(d, first, pp, perm, k, last);
      if r.Mapped? && first != last {
        r, n := MapRest(d, first, last, pp, perm, k, n);
      }
    }

    method MapFirst(d: nat, v: nat, pp: nat, perm: nat, ghost k: View, ghost last: nat) returns (r: MapResult, ghost n: View)
      requires k == Now() && Valid() && IsDir(owner, d) && v <= last < ALLPAGES && pp < ALLPAGES && perm < PGSIZE
      requires v < USERPAGES ==> pp in hands
      modifies this
      ensures Valid() && n == Now() && (r.Remap? <==> Present(Pte(k.mem, d, v))) && (!r.Mapped? ==> n == k)
      ensures r.Mapped? ==> Ranging(k, n, d, v, v + 1, pp, perm)
      ensures r.NoMemory? ==> TooFew(k, d, v, last)
    {
      var w := EntryFor(v, v, pp, perm);
      EntryIs(v, v, pp, perm);
      r, n := MapOne(d, v, w, k);
      if r.Mapped? {
        RangingOne(k, n, d, v, pp, perm);
      } else {
        FewFirst(k, d, v, last);
      }
    }

    /** mappages' loop once its first pass is done. */
    method MapRest(d: nat, first: nat, last: nat, pp0: nat, perm: nat, ghost k: View, ghost m: View)
      returns (r: MapResult, ghost n: View)
      requires m == Now() && Valid() && IsDir(owner, d) && IsDir(k.owner, d) && USERPAGES <= first < last < ALLPAGES && perm < PGSIZE
      requires pp0 + (last - first) < ALLPAGES && Ranging(k, m, d, first, first + 1, pp0, perm)
      modifies this
      ensures Valid() && n == Now()
      ensures r.Remap? ==> exists u: nat :: first <= u <= last && Present(Pte(k.mem, d, u))
      ensures r.Mapped? ==> Ranging(k, n, d, first, last + 1, pp0, perm)
      ensures r.NoMemory? ==> TooFew(k, d, first, last) && GrewBy(k, n, d) && n.hands == k.hands
    {
      var v, pp := first, pp0;
      r, n := Mapped, m;
      while v != last
        invariant first <= v <= last && pp == pp0 + (v - first) && n == Now() && Valid() && r.Mapped?
        invariant IsDir(owner, d) && Ranging(k, n, d, first, v + 1, pp0, perm)
      {
        v, pp := v + 1, pp + 1;
        ghost var l := n;
        r, n := MapNext(d, v, pp, perm, k, l, first, pp0);
        if !r.Mapped? {
          RangeStops(k, l, d, first, v, pp0, perm);
          FewNext(k, l, d, first, v, last);
          return;
        }
      }
    }

    /** deallocuvm's step for a mapped page: kfree it, then clear its entry. ok is false where the
        source panics. */
    method UnmapOne(d: nat, v: nat, t: nat, ghost k: View, ghost l: View, ghost a: nat) returns (ok: bool, ghost n: View)
      requires Good(lo, k) && IsDir(k.owner, d) && l == Now() && Unmapped(lo, k, l, d, a, v) && a <= v < USERPAGES
      requires Present(Pte(mem, d, v)) && Present(Pde(mem, d, v / NENTRIES)) && t == PageOf(Pde(mem, d, v / NENTRIES)) < NPAGES
      modifies this
      ensures ok && n == Now() && Unmapped(lo, k, n, d, a, v + 1)
    {
      var j := v % NENTRIES;
      var p := PageOf(mem[t][j]);
      assert IsDir(l.owner, d) && mem[t][j] == Pte(l.mem, d, v);
      EntryCleared(lo, l, d, v, t, p);
      ghost var x;
      ok, x := Kfree(p);
      ok := ok && p != 0;
      mem := mem[t := mem[t][j := 0]];
      owner := owner - {p};
      n := Now();
      PutLoosened(l, n, v, t, p, x);
      UnmappedNext(lo, k, l, n, d, a, v, t, p, x);
    }

    /** A pass of deallocuvm's loop: where a whole table is missing it jumps to the next directory entry. */
    method UnmapPass(d: nat, v: nat, ghost hi: nat, ghost k: View, ghost l: View, ghost a: nat)
      returns (next: nat, ok: bool, ghost reached: nat, ghost n: View)
      requires Good(lo, k) && IsDir(k.owner, d) && a <= v < hi <= USERPAGES
      requires l == Now() && Unmapped(lo, k, l, d, a, v)
      modifies this
      ensures ok && next > v && reached == (if next < hi then next else hi) && n == Now()
      ensures Unmapped(lo, k, n, d, a, reached)
    {
      ok, n := true, l;
      var t := FindTable(d, v);
      next := if t == 0 then NextTable(v) else v + 1;
      reached := if next < hi then next else hi;
      if t == 0 {
        UnmappedTable(lo, k, l, d, a, v, reached);
      } else {
        ok, n := UnmapEntry(d, v, t, k, l, a);
      }
    }

    method UnmapEntry(d: nat, v: nat, t: nat, ghost k: View, ghost l: View, ghost a: nat) returns (ok: bool, ghost n: View)
      requires Good(lo, k) && IsDir(k.owner, d) && l == Now() && Unmapped(lo, k, l, d, a, v) && a <= v < USERPAGES
      requires Present(Pde(mem, d, v / NENTRIES)) && t == PageOf(Pde(mem, d, v / NENTRIES)) < NPAGES
      modifies this
      ensures ok && n == Now() && Unmapped(lo, k, n, d, a, v + 1)
    {
      ok, n := true, l;
      if Present(mem[t][v % NENTRIES]) {
        ok, n := UnmapOne(d, v, t, k, l, a);
      } else {
        UnmappedSkip(lo, k, l, d, a, v, v + 1);
      }
    }

    /** deallocuvm: the effect is that of visiting every page from PGROUNDUP(newsz) on. */
    method Deallocuvm(d: nat, oldsz: Word, newsz: Word) returns (sz: Word, ok: bool)
      requires Valid() && IsDir(owner, d) && oldsz <= KERNBASE
      modifies this
      ensures ok && Valid() && sz == if newsz >= oldsz then oldsz else newsz
      ensures newsz >= oldsz ==> Now() == old(Now())
      ensures newsz < oldsz ==> Unmapped(lo, old(Now()), Now(), d, PageUp(newsz), PageUp(oldsz))
    {
      ok := true;
      if newsz >= oldsz {
        return oldsz, ok;
      }
      var v := PageUp(newsz);
      ghost var k, l, a, hi, reached := Now(), Now(), v, PageUp(oldsz), v;
      UnmappedNothing(lo, k, d, a);
      while v * PGSIZE < oldsz
        invariant ok && a <= v && reached == (if v < hi then v else hi) && l == Now()
        invariant Unmapped(lo, k, l, d, a, reached)
      {
        v, ok, reached, l := UnmapPass(d, v, hi, k, l, a);
      }
      sz := newsz;
    }

    /** A fresh page filled with x: kalloc, then memset or memmove. 0 when memory is out. */
    method TakePage(x: Page) returns (p: nat)
      requires Valid()
      modifies this
      ensures Valid() && owner == old(owner)
      ensures p == 0 <==> old(free) == []
      ensures p == 0 ==> Now() == old(Now())
      ensures p != 0 ==> lo <= p < NPAGES && p !in owner && p !in old(hands) && hands == old(hands) + {p}
      ensures p != 0 ==> |old(free)| == |free| + 1
      ensures p != 0 ==> mem == old(mem)[p := x] && SameMaps(old(Now()), Now()) && GrewBy(old(Now()), Now(), 0)
    {
      p := Kalloc();
      if p != 0 {
        ghost var k := Now();
        BlankPage(lo, k, p, x);
        mem := mem[p := x];
        assert Now() == k.(mem := k.mem[p := x]);
      }
    }

    /** kalloc, fill the page with x, and mappages it at v; the passes of allocuvm's and copyuvm's
        loops, without their ways out. */
    method AddPage(d: nat, v: nat, x: Page, flags: nat, ghost k: View, ghost l: View, ghost a: nat,
                   ghost img: seq<Image>, ghost next: nat, ghost top: nat)
      returns (p: nat, r: MapResult, ghost n: View, ghost more: seq<Image>)
      requires Good(lo, k) && IsDir(k.owner, d) && v == a + |img| < USERPAGES
      requires l == Now() && Added(lo, k, l, d, a, img, 0) && Spent(k, l, d, a, v, |img|)
      requires flags < PGSIZE && flags % 2 == 1 && next == v + 1 <= top
      modifies this
      ensures r.Mapped? ==> Spent(k, n, d, a, next, |more|)
      ensures r.NoMemory? ==> |k.free| < Bill(k, d, a, top)
      ensures n == Now() && more == img + [Image(flags, x)] && (r.Remap? ==> Present(Pte(k.mem, d, v)))
      ensures r.Mapped? ==> !Present(Pte(k.mem, d, v))
      ensures r.Mapped? ==> Added(lo, k, n, d, a, more, 0)
      ensures r.NoMemory? ==> Added(lo, k, n, d, a, img, p)
    {
      more := img + [Image(flags, x)];
      p := TakePage(x);
      n := Now();
      if p == 0 {
        CannotPay(k, l, d, a, v, top);
        return p, NoMemory, n, more;
      }
      ghost var m := n;
      AddedTaken(lo, k, l, m, d, a, img, p, x);
      r, n := PlacePage(d, v, p, x, flags, k, m, a, img, more);
      PagePaid(k, l, m, n, d, a, v, |img|, p, x, r, next, top);
    }

    method PlacePage(d: nat, v: nat, p: nat, ghost x: Page, flags: nat, ghost k: View, ghost m: View, ghost a: nat,
                     ghost img: seq<Image>, ghost more: seq<Image>)
      returns (r: MapResult, ghost n: View)
      requires Good(lo, k) && IsDir(k.owner, d) && v == a + |img| < USERPAGES
      requires m == Now() && Added(lo, k, m, d, a, img, p) && 0 < p < NPAGES && mem[p] == x
      requires flags < PGSIZE && flags % 2 == 1 && more == img + [Image(flags, x)]
      modifies this
      ensures n == Now() && (r.Remap? <==> Present(Pte(k.mem, d, v)))
      ensures r.Mapped? ==> Added(lo, k, n, d, a, more, 0) && Spent(m, n, d, v, v + 1, 0)
      ensures r.NoMemory? ==> n == m && TooFew(m, d, v, v)
    {
      OnePage(v, p, flags);
      AddedSame(lo, k, m, d, a, img, p, v);
      r, n := Mappages(d, v * PGSIZE, PGSIZE, p * PGSIZE, flags, m);
      if r.Mapped? {
        AddedPlaced(lo, k, m, n, d, a, img, v, p, flags, x, more);
      }
    }

    /** The way out of allocuvm: give back every user page taken, and the one in hand if any. */
    method GiveBack(d: nat, newsz: Word, oldsz: Word, p: nat, ghost k: View, ghost l: View, ghost img: seq<Image>,
                    ghost a: nat, ghost top: nat)
      requires Good(lo, k) && IsDir(k.owner, d) && l == Now() && oldsz <= newsz < KERNBASE
      requires a == PageUp(oldsz) && top == PageUp(newsz)
      requires Added(lo, k, l, d, a, img, p) && a + |img| < top
      modifies this
      ensures Valid() && (NoneMapped(k, d, a, top) ==> Undone(lo, k, Now(), d, 0))
      ensures Emptied(k, Now(), d, a, top)
    {
      var sz, ok := Deallocuvm(d, newsz, oldsz);
      ghost var clean := NoneMapped(k, d, a, top);
      ghost var m := Now();
      AddedEmptied(lo, k, l, m, d, a, img, top, p);
      if clean {
        AddedUndone(lo, k, l, m, d, a, img, top, p);
      }
      if p != 0 {
        ok := Release(p);
        EmptiedPut(lo, k, m, Now(), d, a, top, p);
        if clean {
          UndonePut(lo, k, m, Now(), d, p);
        }
      }
    }

    /** allocuvm. On failure the address space maps what it did before, and the only pages it has
        not given back are tables. Both need the pages above oldsz to be unmapped, without which it
        does not succeed: one that is mapped leads to mappages' panic or, if memory runs out before, is
        unmapped and freed on the way out. */
    method Allocuvm(d: nat, oldsz: Word, newsz: Word)
      returns (sz: Word, panics: bool, ghost ok: bool, ghost img: seq<Image>)
      requires Valid() && IsDir(owner, d)
      modifies this
      ensures panics ==> !ok && oldsz <= newsz < KERNBASE && !NoneMapped(old(Now()), d, PageUp(oldsz), PageUp(newsz))
      ensures ok ==> newsz < KERNBASE && sz == if newsz < oldsz then oldsz else newsz
      ensures !ok ==> sz == 0
      ensures newsz >= KERNBASE ==> !ok
      ensures newsz >= KERNBASE || newsz < oldsz ==> Now() == old(Now())
      ensures ok && newsz >= oldsz ==> |img| == PageUp(newsz) - PageUp(oldsz) && Zeroed(img)
      ensures ok && newsz >= oldsz ==> NoneMapped(old(Now()), d, PageUp(oldsz), PageUp(newsz))
      ensures ok && newsz >= oldsz ==> Added(lo, old(Now()), Now(), d, PageUp(oldsz), img, 0)
      ensures !ok && newsz < KERNBASE && NoneMapped(old(Now()), d, PageUp(oldsz), PageUp(newsz)) ==>
                Undone(lo, old(Now()), Now(), d, 0)
      ensures !ok && !panics && newsz < KERNBASE ==> Emptied(old(Now()), Now(), d, PageUp(oldsz), PageUp(newsz))
      ensures oldsz <= newsz < KERNBASE && !panics ==>
                (ok <==> Bill(old(Now()), d, PageUp(oldsz), PageUp(newsz)) <= |old(free)|)
      ensures ok && newsz >= oldsz ==> |free| + Bill(old(Now()), d, PageUp(oldsz), PageUp(newsz)) == |old(free)|
    {
      ok, img, panics := true, [], false;
      if newsz >= KERNBASE {
        ok := false;
        return 0, panics, ok, img;
      }
      if newsz < oldsz {
        return oldsz, panics, ok, img;
      }
      sz, panics, ok, img := AllocPages(d, oldsz, newsz, Now());
    }

    /** allocuvm's loop. */
    method AllocPages(d: nat, oldsz: Word, newsz: Word, ghost k: View)
      returns (sz: Word, panics: bool, ghost ok: bool, ghost img: seq<Image>)
      requires Valid() && IsDir(owner, d) && oldsz <= newsz < KERNBASE && k == Now()
      modifies this
      ensures panics ==> !ok && !NoneMapped(k, d, PageUp(oldsz), PageUp(newsz))
      ensures sz == if ok then newsz else 0
      ensures ok ==> |img| == PageUp(newsz) - PageUp(oldsz) && Zeroed(img) && NoneMapped(k, d, PageUp(oldsz), PageUp(newsz))
      ensures ok ==> Added(lo, k, Now(), d, PageUp(oldsz), img, 0)
      ensures !ok && NoneMapped(k, d, PageUp(oldsz), PageUp(newsz)) ==> Undone(lo, k, Now(), d, 0)
      ensures !ok && !panics ==> Emptied(k, Now(), d, PageUp(oldsz), PageUp(newsz))
      ensures ok ==> |free| + Bill(k, d, PageUp(oldsz), PageUp(newsz)) == |k.free|
      ensures !ok && !panics ==> |k.free| < Bill(k, d, PageUp(oldsz), PageUp(newsz))
    {
      ok, img, panics := true, [], false;
      var v := PageUp(oldsz);
      var blank: seq<Word> := seq(NENTRIES, _ => 0);
      ghost var l, a := k, v;
      AddedNothing(lo, k, d, a);
      SpentNothing(k, d, a);
      while v * PGSIZE < newsz
        invariant a <= v <= PageUp(newsz) && v == a + |img| && l == Now()
        invariant Added(lo, k, l, d, a, img, 0) && Fresh(k, d, a, img) && Spent(k, l, d, a, v, |img|)
        decreases PageUp(newsz) - v
      {
        var r;
        BelowTop(v, newsz);
        r, v, l, img := AllocPass(d, v, blank, oldsz, newsz, k, l, a, img, PageUp(newsz));
        if !r.Mapped? {
          ok := false;
          return 0, r.Remap?, ok, img;
        }
      }
      sz := newsz;
      AllFresh(k, d, a, img, PageUp(newsz));
    }

    /** A pass of allocuvm's loop, with its way out when memory runs out. */
    method AllocPass(d: nat, v: nat, blank: Page, oldsz: Word, newsz: Word, ghost k: View, ghost l: View, ghost a: nat,
                     ghost img: seq<Image>, ghost top: nat)
      returns (r: MapResult, next: nat, ghost n: View, ghost more: seq<Image>)
      requires Good(lo, k) && IsDir(k.owner, d) && v == a + |img| < top <= USERPAGES
      requires a == PageUp(oldsz) && top == PageUp(newsz) && oldsz <= newsz < KERNBASE && forall j: nat :: j < NENTRIES ==> blank[j] == 0
      requires l == Now() && Added(lo, k, l, d, a, img, 0) && Fresh(k, d, a, img) && Spent(k, l, d, a, v, |img|)
      modifies this
      ensures next == v + 1 && |more| == |img| + 1 && (r.Remap? ==> !NoneMapped(k, d, a, top))
      ensures r.Mapped? ==> n == Now() && Added(lo, k, n, d, a, more, 0) && Fresh(k, d, a, more)
      ensures r.Mapped? ==> Spent(k, n, d, a, next, |more|)
      ensures r.NoMemory? ==> |k.free| < Bill(k, d, a, top) && Emptied(k, Now(), d, a, top)
      ensures r.NoMemory? && NoneMapped(k, d, a, top) ==> Undone(lo, k, Now(), d, 0)
    {
      var p;
      next := v + 1;
      p, r, n, more := AddZeroed(d, v, blank, k, l, a, img, next, top);
      if r.NoMemory? {
        GiveBack(d, newsz, oldsz, p, k, n, img, a, top);
      }
    }

    method AddZeroed(d: nat, v: nat, x: Page, ghost k: View, ghost l: View, ghost a: nat, ghost img: seq<Image>,
                     ghost next: nat, ghost top: nat)
      returns (p: nat, r: MapResult, ghost n: View, ghost more: seq<Image>)
      requires Good(lo, k) && IsDir(k.owner, d) && v == a + |img| < USERPAGES
      requires l == Now() && Added(lo, k, l, d, a, img, 0) && Fresh(k, d, a, img) && forall j: nat :: j < NENTRIES ==> x[j] == 0
      requires Spent(k, l, d, a, v, |img|) && next == v + 1 <= top
      modifies this
      ensures r.Mapped? ==> Spent(k, n, d, a, next, |more|)
      ensures r.NoMemory? ==> |k.free| < Bill(k, d, a, top)
      ensures n == Now() && |more| == |img| + 1 && (r.Remap? ==> Present(Pte(k.mem, d, v)))
      ensures r.Mapped? ==> Added(lo, k, n, d, a, more, 0) && Fresh(k, d, a, more)
      ensures r.NoMemory? ==> Added(lo, k, n, d, a, img, p)
    {
      p, r, n, more := AddPage(d, v, x, 1 + PTE_W + PTE_U, k, l, a, img, next, top);
      if r.Mapped? {
        FreshMore(k, d, a, v, img, more, Image(1 + PTE_W + PTE_U, x));
      }
    }

    /** growproc, for a process of size sz: it answers as Growproc.dfy says, where memory tells whether
        allocuvm found its pages, and the pages of the process follow suit. ok is false for -1. */
    method Growproc(d: nat, sz: Word, n: int) returns (newsz: Word, ok: bool, panics: bool, ghost memory: bool)
      requires Valid() && IsDir(owner, d) && 0 < sz < KERNBASE && -0x8000_0000 <= n < 0x8000_0000
      modifies this
      ensures panics ==> n > 0 && !NoneMapped(old(Now()), d, PageUp(sz), PageUp(sz + n))
      ensures n > 0 && sz + n < KERNBASE && !panics ==> (memory <==> Bill(old(Now()), d, PageUp(sz), PageUp(sz + n)) <= |old(free)|)
      ensures !panics ==>
                var a := Sbrk(Process(sz, sz), n, memory);
                && ok == a.addr.Some? && newsz == a.process.sz
                && (n > 0 && ok ==> Extended(lo, old(Now()), Now(), d, PageUp(sz), PageUp(newsz)))
                && (n <= 0 && a.process.top == sz ==> Now() == old(Now()))
                && (a.process.top < sz ==> Unmapped(lo, old(Now()), Now(), d, PageUp(a.process.top), PageUp(sz)))
    {
      newsz, ok, panics, memory := sz, true, false, true;
      if n > 0 {
        var s, to: Word := 0, (sz + n) % WORD;
        ghost var done, img;
        assert sz + n < WORD ==> to == sz + n;
        s, panics, done, img := Allocuvm(d, sz, to);
        memory := done;
        ok := s != 0;
        newsz := if ok then s else sz;
      } else if n < 0 {
        var s, fine := Deallocuvm(d, sz, (sz + n) % WORD);
        ok := s != 0;
        newsz := if ok then s else sz;
      }
    }

    /** freevm: every page d owns goes back to the free list, once. */
    method Freevm(d: nat) returns (ok: bool)
      requires Valid() && IsDir(owner, d)
      modifies this
      ensures ok && DirFreed(lo, old(Now()), Now(), d)
    {
      ghost var k := Now();
      var sz;
      sz, ok := Deallocuvm(d, KERNBASE, 0);
      ghost var l := Now();
      assert PageUp(KERNBASE) == USERPAGES && PageUp(0) == 0;
      AllUnmapped(lo, k, l, d);
      ok := FreeDirectory(d, l);
      DirPutAway(lo, k, l, Now(), d);
    }

    /** The ledger lets go of d, and its tables and d itself go back. */
    method FreeDirectory(d: nat, ghost l: View) returns (ok: bool)
      requires l == Now() && Valid() && IsDir(owner, d) && NoUsers(owner, d)
      modifies this
      ensures ok && Valid() && owner == l.owner - Behind(l.owner, d, 0) && hands == l.hands
      ensures forall q: nat :: q in owner && q < NPAGES ==> mem[q] == l.mem[q]
    {
      ghost var gone := Behind(l.owner, d, 0);
      DirDropped(lo, l, d);
      owner, hands := owner - gone, hands + gone;
      ok := FreeTables(d, l, Now());
    }

    /** freevm's loop over the directory and its last kfree, once the ledger has let go of d. */
    method FreeTables(d: nat, ghost l: View, ghost m: View) returns (ok: bool)
      requires Good(lo, l) && IsDir(l.owner, d) && NoUsers(l.owner, d)
      requires m == Now() && Valid() && m == l.(owner := l.owner - Behind(l.owner, d, 0), hands := l.hands + Behind(l.owner, d, 0))
      modifies this
      ensures ok && Valid() && owner == m.owner && hands == l.hands
      ensures forall q: nat :: q in owner && q < NPAGES ==> mem[q] == l.mem[q]
    {
      ok := true;
      var i := 0;
      DirIsBehind(lo, l, d);
      while i < NENTRIES
        invariant i <= NENTRIES && ok && Valid() && owner == m.owner && hands == l.hands + Behind(l.owner, d, i)
        invariant mem[d] == l.mem[d]
        invariant forall q: nat :: q in owner && q < NPAGES ==> mem[q] == l.mem[q]
      {
        BehindNext(lo, l, d, i);
        if Present(mem[d][i]) {
          ok := Release(PageOf(mem[d][i]));
        }
        i := i + 1;
      }
      BehindLast(lo, l, d);
      ok := Release(d);
    }

    /** A blank page directory. 0 when memory is out. */
    method NewDirectory() returns (d: nat, ghost n: View)
      requires Valid()
      modifies this
      ensures n == Now() && (d == 0 ==> n == old(Now()))
      ensures d != 0 ==> NewSpace(lo, old(Now()), n, d) && forall v: nat :: Pte(n.mem, d, v) == 0
      ensures d == 0 <==> old(free) == []
      ensures d != 0 ==> |n.free| + 1 == |old(free)| && forall i: nat :: !HasTable(n.mem, d, i)
    {
      ghost var k := Now();
      var blank: seq<Word> := seq(NENTRIES, _ => 0);
      d := TakePage(blank);
      if d != 0 {
        ghost var l := Now();
        DirAdded(lo, k, l, d);
        owner, hands := owner[d := Use(d, Dir)], hands - {d};
        assert Now() == l.(owner := l.owner[d := Use(d, Dir)], hands := l.hands - {d});
      }
      n := Now();
    }

    /** Giving up on a new address space. */
    method Abandon(d: nat, ghost k: View, ghost m: View) returns (ghost n: View)
      requires m == Now() && NewSpace(lo, k, m, d)
      modifies this
      ensures n == Now() && Intact(lo, k, n)
    {
      var ok := Freevm(d);
      n := Now();
      SpaceFreed(lo, k, m, n, d);
    }

    /** A pass of setupkvm's loop; when memory runs out the whole address space is given back. */
    method MapRange(d: nat, j: nat, data: nat, ghost k: View, ghost m: View) returns (ok: bool, ghost n: View)
      requires m == Now() && NewSpace(lo, k, m, d) && KERNLINK_PAGE < data < USERPAGES + NPAGES && j < 4
      requires RangesMapped(m, d, j, data) && Furnished(k, m, d, j, data)
      modifies this
      ensures n == Now() && (!ok ==> Intact(lo, k, n))
      ensures ok ==> NewSpace(lo, k, n, d) && RangesMapped(n, d, j + 1, data)
      ensures if ok then Furnished(k, n, d, j + 1, data) else |k.free| < KERNEL_PAGES
    {
      var g := Kmap(j, data);
      KmapFits(j, data);
      var r;
      RangeFree(m, d, j, data);
      r, n := Mappages(d, g.virt, g.size, g.phys, g.perm, m);
      ok := r.Mapped?;
      if ok {
        SpaceMapped(lo, k, m, n, d, j, data);
        RangePaid(k, m, n, d, j, data);
      } else {
        RangeUnpaid(k, m, d, j, data);
        SpaceGrew(lo, k, m, n, d);
        n := Abandon(d, k, n);
      }
    }

    /** setupkvm: the kernel's four ranges and nothing below them, or 0 with every page given back, which
        happens exactly when fewer than 65 pages are free. data is the virtual page of the kernel's
        data segment. */
    method Setupkvm(data: nat) returns (d: nat, ghost n: View)
      requires Valid() && KERNLINK_PAGE < data < USERPAGES + NPAGES
      modifies this
      ensures n == Now()
      ensures d == 0 ==> Intact(lo, old(Now()), n)
      ensures d != 0 ==> NewSpace(lo, old(Now()), n, d)
      ensures d != 0 ==> KernelMapped(n, d, data) && NoneMapped(n, d, 0, USERPAGES)
      ensures d == 0 <==> |old(free)| < 65
      ensures d != 0 ==> |n.free| + 65 == |old(free)| && forall i: nat :: i < 512 ==> !HasTable(n.mem, d, i)
    {
      ghost var k := Now();
      d, n := NewDirectory();
      if d == 0 {
        return;
      }
      var j := 0;
      while j < 4
        invariant j <= 4 && n == Now() && NewSpace(lo, k, n, d)
        invariant RangesMapped(n, d, j, data) && Furnished(k, n, d, j, data)
      {
        var ok;
        ok, n := MapRange(d, j, data, k, n);
        if !ok {
          return 0, n;
        }
        j := j + 1;
      }
      AllRanges(n, d, j, data);
      AllFurnished(k, n, d, j, data);
    }

    /** A pass of copyuvm's loop; ok is false where the source panics, which is at a page that is not
        mapped. */
    method CopyPage(src: nat, d: nat, v: nat, ghost k: View, ghost k1: View, ghost l: View, ghost img: seq<Image>,
                    ghost next: nat, ghost top: nat)
      returns (p: nat, r: MapResult, ok: bool, ghost n: View, ghost more: seq<Image>)
      requires NewSpace(lo, k, k1, d) && IsDir(k.owner, src) && v == |img| < USERPAGES
      requires l == Now() && Added(lo, k1, l, d, 0, img, 0) && !Present(Pte(k1.mem, d, v)) && Imaged(k, src, img)
      requires Spent(k1, l, d, 0, v, |img|) && next == v + 1 <= top
      modifies this
      ensures ok && r.Mapped? ==> Spent(k1, n, d, 0, next, |more|)
      ensures ok && r.NoMemory? ==> |k1.free| < Bill(k1, d, 0, top)
      ensures ok <==> Present(Pte(k.mem, src, v))
      ensures ok ==> !r.Remap? && n == Now() && |more| == |img| + 1 && Imaged(k, src, more)
      ensures ok && r.Mapped? ==> Added(lo, k1, n, d, 0, more, 0)
      ensures ok && r.NoMemory? ==> Added(lo, k1, n, d, 0, img, p)
    {
      var x, flags;
      x, flags, ok := Look(src, d, v, k, k1, l, img);
      p, r, n, more := 0, Mapped, l, img;
      if ok {
        ImagedMore(k, src, img, Image(flags, x));
        p, r, n, more := AddPage(d, v, x, flags, k1, l, 0, img, next, top);
      }
    }

    /** The flags and the contents copyuvm finds at v; ok is false where it panics. */
    method Look(src: nat, ghost d: nat, v: nat, ghost k: View, ghost k1: View, ghost l: View, ghost img: seq<Image>)
      returns (x: Page, flags: nat, ok: bool)
      requires NewSpace(lo, k, k1, d) && IsDir(k.owner, src) && v < USERPAGES
      requires l == Now() && Added(lo, k1, l, d, 0, img, 0)
      ensures ok <==> Present(Pte(k.mem, src, v))
      ensures ok ==> flags < PGSIZE && flags % 2 == 1
      ensures ok ==> PageOf(Pte(k.mem, src, v)) < |k.mem| && Image(flags, x) == ImageOf(k, src, v)
    {
      SourceSame(lo, k, k1, l, d, src, v, img);
      x, flags, ok := mem[0], 0, false;
      var t := FindTable(src, v);
      if t == 0 {
        return;
      }
      var w := mem[t][v % NENTRIES];
      ok := Present(w);
      if ok {
        SourcePage(lo, k, k1, l, d, src, v, img);
        x, flags := mem[PageOf(w)], Flags(w);
        OddFlags(w);
      }
    }

    /** copyuvm: a new address space whose first sz bytes show what those of src do, or 0 with every
        page given back, which happens exactly when there are too few free pages. !ok is a panic, at
        the first page below sz that src does not map. */
    method Copyuvm(src: nat, sz: Word, data: nat) returns (d: nat, ok: bool, ghost n: View)
      requires Valid() && IsDir(owner, src) && sz <= KERNBASE && KERNLINK_PAGE < data < USERPAGES + NPAGES
      modifies this
      ensures !ok ==> !AllMapped(old(Now()), src, PageUp(sz))
      ensures ok ==> n == Now() && (d == 0 ==> Intact(lo, old(Now()), n))
      ensures ok && d != 0 ==> NewSpace(lo, old(Now()), n, d) && Copied(old(Now()), n, src, d, PageUp(sz))
      ensures ok && d != 0 ==> AllMapped(old(Now()), src, PageUp(sz)) && KernelMapped(n, d, data)
      ensures ok ==> (d == 0 <==> |old(free)| < CopyBill(PageUp(sz)))
      ensures ok && d != 0 ==> |n.free| + CopyBill(PageUp(sz)) == |old(free)|
    {
      ok := true;
      ghost var k := Now();
      d, n := Setupkvm(data);
      if d == 0 {
        return;
      }
      FreshBill(n, d, PageUp(sz));
      d, ok, n := CopyPages(src, d, sz, data, k, n);
    }

    /** copyuvm's loop. */
    method CopyPages(src: nat, d: nat, sz: Word, ghost data: nat, ghost k: View, ghost k1: View)
      returns (r: nat, ok: bool, ghost n: View)
      requires k1 == Now() && NewSpace(lo, k, k1, d) && IsDir(k.owner, src) && sz <= KERNBASE && d != 0
      requires NoneMapped(k1, d, 0, USERPAGES) && KernelMapped(k1, d, data)
      modifies this
      ensures !ok ==> !AllMapped(k, src, PageUp(sz))
      ensures ok ==> n == Now() && (r == 0 || r == d) && (r == 0 ==> Intact(lo, k, n))
      ensures ok && r != 0 ==> NewSpace(lo, k, n, d) && Copied(k, n, src, d, PageUp(sz))
      ensures ok && r != 0 ==> AllMapped(k, src, PageUp(sz)) && KernelMapped(n, d, data)
      ensures ok && r == 0 ==> |k1.free| < Bill(k1, d, 0, PageUp(sz))
      ensures ok && r != 0 ==> |n.free| + Bill(k1, d, 0, PageUp(sz)) == |k1.free|
    {
      ok, n := true, k1;
      ghost var img := [];
      AddedNothing(lo, k1, d, 0);
      SpentNothing(k1, d, 0);
      var v := 0;
      while v * PGSIZE < sz
        invariant ok && v == |img| <= PageUp(sz) && n == Now()
        invariant Added(lo, k1, n, d, 0, img, 0)
        invariant Spent(k1, n, d, 0, v, |img|)
        invariant Imaged(k, src, img)
        invariant AllMapped(k, src, v)
        decreases PageUp(sz) - v
      {
        var full;
        full, ok, v, n, img := CopyPass(src, d, v, k, k1, n, img, PageUp(sz));
        if !ok || full {
          return 0, ok, n;
        }
      }
      CopyFinished(lo, k, k1, n, src, d, img, data, PageUp(sz));
      r := d;
    }

    /** A pass of copyuvm's loop, with its ways out: !ok is the panic, and full means that memory has run
        out and the copy is given back. */
    method CopyPass(src: nat, d: nat, v: nat, ghost k: View, ghost k1: View, ghost l: View, ghost img: seq<Image>,
                    ghost top: nat)
      returns (full: bool, ok: bool, next: nat, ghost n: View, ghost more: seq<Image>)
      requires NewSpace(lo, k, k1, d) && IsDir(k.owner, src) && v == |img| < top <= USERPAGES
      requires l == Now() && Added(lo, k1, l, d, 0, img, 0) && NoneMapped(k1, d, 0, USERPAGES) && Imaged(k, src, img)
      requires Spent(k1, l, d, 0, v, |img|) && AllMapped(k, src, v)
      modifies this
      ensures next == v + 1 && (!ok ==> !AllMapped(k, src, top))
      ensures ok && full ==> |k1.free| < Bill(k1, d, 0, top) && n == Now() && Intact(lo, k, n)
      ensures ok && !full ==> n == Now() && |more| == next && Added(lo, k1, n, d, 0, more, 0) && Imaged(k, src, more)
      ensures ok && !full ==> Spent(k1, n, d, 0, next, |more|) && AllMapped(k, src, next)
    {
      var p, r;
      next, full := v + 1, false;
      p, r, ok, n, more := CopyPage(src, d, v, k, k1, l, img, next, top);
      if !ok {
        NotAllMapped(k, src, v, top);
      } else if r.Mapped? {
        OneMoreMapped(k, src, v);
      } else {
        full := true;
        n := DropCopy(d, p, k, k1, n, img);
      }
    }

    /** The way out of copyuvm: kfree the page in hand, then freevm. */
    method DropCopy(d: nat, p: nat, ghost k: View, ghost k1: View, ghost l: View, ghost img: seq<Image>)
      returns (ghost n: View)
      requires NewSpace(lo, k, k1, d) && l == Now() && Added(lo, k1, l, d, 0, img, p)
      modifies this
      ensures n == Now() && Intact(lo, k, n)
    {
      if p != 0 {
        var ok := Release(p);
      }
      ghost var m := Now();
      OffLedger(lo, l, p);
      SpaceReleased(lo, k, k1, l, m, d, p);
      n := Abandon(d, k, m);
    }
  }

  ghost function ImageOf(k: View, src: nat, v: nat): (x: Image)
    requires PageOf(Pte(k.mem, src, v)) < |k.mem|
  {
    Image(Flags(Pte(k.mem, src, v)), k.mem[PageOf(Pte(k.mem, src, v))])
  }

  ghost predicate Imaged(k: View, src: nat, img: seq<Image>) {
    forall j: nat :: j < |img| ==> PageOf(Pte(k.mem, src, j)) < |k.mem| && img[j] == ImageOf(k, src, j)
  }

  lemma ImagedMore(k: View, src: nat, img: seq<Image>, x: Image)
    requires Imaged(k, src, img) && PageOf(Pte(k.mem, src, |img|)) < |k.mem| && x == ImageOf(k, src, |img|)
    ensures Imaged(k, src, img + [x])
  {
  }

  lemma OddFlags(w: Word)
    requires Present(w)
    ensures Flags(w) % 2 == 1
  {
  }

  /** The first b pages of d show what those of src did, nothing else is mapped for the user in d,
      and every other address space maps what it did. */
  ghost predicate Copied(k: View, n: View, src: nat, d: nat, b: nat) {
    && (forall j: nat {:trigger Pte(n.mem, d, j)} :: j < b ==>
          PageOf(Pte(k.mem, src, j)) < |k.mem| && Shows(n, d, j, ImageOf(k, src, j)))
    && (forall j: nat {:trigger Pte(n.mem, d, j)} :: b <= j < USERPAGES ==> !Present(Pte(n.mem, d, j)))
    && SameMaps(k, n)
  }

  /** Directories of k read the same in n. */
  lemma SpaceMaps(lo: nat, k: View, n: View, d: nat)
    requires NewSpace(lo, k, n, d)
    ensures SameMaps(k, n)
  {
    forall e: nat, u: nat | IsDir(k.owner, e)
      ensures Pte(n.mem, e, u) == Pte(k.mem, e, u)
    {
      var i := u / NENTRIES;
      assert HeldAt(lo, k.mem, k.owner, e);
      assert Pde(n.mem, e, i) == Pde(k.mem, e, i);
    }
  }

  lemma BelowTop(v: nat, newsz: Word)
    requires v * PGSIZE < newsz < KERNBASE
    ensures v < PageUp(newsz) <= USERPAGES
  {
  }

  lemma ZeroedMore(img: seq<Image>, more: seq<Image>, x: Image)
    requires Zeroed(img) && more == img + [x] && Zeroed([x])
    ensures Zeroed(more)
  {
    assert [x][0] == x;
  }

  /** The pages img from a on are zero, and were unmapped in k. */
  ghost predicate Fresh(k: View, d: nat, a: nat, img: seq<Image>) { Zeroed(img) && NoneMapped(k, d, a, a + |img|) }

  lemma FreshMore(k: View, d: nat, a: nat, v: nat, img: seq<Image>, more: seq<Image>, x: Image)
    requires Fresh(k, d, a, img) && v == a + |img| && !Present(Pte(k.mem, d, v)) && more == img + [x] && Zeroed([x])
    ensures Fresh(k, d, a, more)
  {
    ZeroedMore(img, more, x);
  }

  lemma AllFresh(k: View, d: nat, a: nat, img: seq<Image>, b: nat)
    requires Fresh(k, d, a, img) && a + |img| == b
    ensures Zeroed(img) && NoneMapped(k, d, a, b)
  {
  }

  /** Pages a, ..., b - 1 of d are new and zero. */
  ghost predicate Extended(lo: nat, k: View, l: View, d: nat, a: nat, b: nat) {
    exists img :: |img| == b - a && Zeroed(img) && Added(lo, k, l, d, a, img, 0)
  }

  ghost predicate AllMapped(k: View, src: nat, n: nat) { forall v: nat :: v < n ==> Present(Pte(k.mem, src, v)) }

  lemma NotAllMapped(k: View, src: nat, v: nat, n: nat)
    requires v < n && !Present(Pte(k.mem, src, v))
    ensures !AllMapped(k, src, n)
  {
  }

  lemma OneMoreMapped(k: View, src: nat, v: nat)
    requires AllMapped(k, src, v) && Present(Pte(k.mem, src, v))
    ensures AllMapped(k, src, v + 1)
  {
  }

  /** What copyuvm has added so far leaves src as it was. */
  lemma SourceSame(lo: nat, k: View, k1: View, l: View, d: nat, src: nat, v: nat, img: seq<Image>)
    requires NewSpace(lo, k, k1, d) && IsDir(k.owner, src) && v < USERPAGES
    requires Added(lo, k1, l, d, 0, img, 0)
    ensures IsDir(l.owner, src) && Pte(l.mem, src, v) == Pte(k.mem, src, v)
  {
    SpaceMaps(lo, k, k1, d);
    assert src != d && Pte(l.mem, src, v) == Pte(k1.mem, src, v) == Pte(k.mem, src, v);
  }

  lemma SourcePage(lo: nat, k: View, k1: View, l: View, d: nat, src: nat, v: nat, img: seq<Image>)
    requires NewSpace(lo, k, k1, d) && IsDir(k.owner, src) && v < USERPAGES && Present(Pte(k.mem, src, v))
    requires Added(lo, k1, l, d, 0, img, 0)
    ensures PageOf(Pte(k.mem, src, v)) < NPAGES && |k.mem| == NPAGES
    ensures l.mem[PageOf(Pte(k.mem, src, v))] == k.mem[PageOf(Pte(k.mem, src, v))]
  {
    SpaceMaps(lo, k, k1, d);
    var p := PageOf(Pte(k.mem, src, v));
    assert k.owner[p] == Use(src, User(v)) && HeldAt(lo, k.mem, k.owner, p);
    assert src != d && k1.owner[p] == k.owner[p];
  }

  lemma OffLedger(lo: nat, l: View, p: nat)
    requires Good(lo, l) && (p == 0 || p in l.hands)
    ensures p !in l.owner
  {
    assert p in l.owner ==> HeldAt(lo, l.mem, l.owner, p);
  }

  lemma SpaceReleased(lo: nat, k: View, k1: View, l: View, m: View, d: nat, p: nat)
    requires NewSpace(lo, k, k1, d) && GrewBy(k1, l, d) && IsDir(l.owner, d) && Good(lo, m)
    requires p !in l.owner && if p == 0 then l.hands == k1.hands else p !in k1.hands && l.hands == k1.hands + {p}
    requires m.owner == l.owner && m.hands == l.hands - {p} && |m.mem| == |l.mem|
    requires forall q: nat :: q < |l.mem| && q != p ==> m.mem[q] == l.mem[q]
    ensures NewSpace(lo, k, m, d)
  {
    assert 0 !in k1.hands;
    assert m.hands == k.hands;
    forall q: nat | q in k.owner
      ensures q in m.owner && m.owner[q] == k.owner[q] && (q < |k.mem| ==> m.mem[q] == k.mem[q])
    {
      assert q in k1.owner && k1.owner[q] == k.owner[q] && q in l.owner && q != p;
    }
  }

  lemma CopyFinished(lo: nat, k: View, k1: View, n: View, src: nat, d: nat, img: seq<Image>, data: nat, top: nat)
    requires NewSpace(lo, k, k1, d) && Added(lo, k1, n, d, 0, img, 0) && Imaged(k, src, img) && |img| == top <= USERPAGES
    requires NoneMapped(k1, d, 0, USERPAGES) && KernelMapped(k1, d, data) && Spent(k1, n, d, 0, top, |img|)
    ensures NewSpace(lo, k, n, d) && Copied(k, n, src, d, top) && KernelMapped(n, d, data)
    ensures |n.free| + Bill(k1, d, 0, top) == |k1.free|
  {
    CopyDone(lo, k, k1, n, src, d, img);
    KernelKept(lo, k, k1, n, d, img, data);
  }

  lemma CopyDone(lo: nat, k: View, k1: View, n: View, src: nat, d: nat, img: seq<Image>)
    requires NewSpace(lo, k, k1, d) && Added(lo, k1, n, d, 0, img, 0) && Imaged(k, src, img)
    requires NoneMapped(k1, d, 0, USERPAGES)
    ensures NewSpace(lo, k, n, d) && Copied(k, n, src, d, |img|)
  {
    SpaceGrew(lo, k, k1, n, d);
    SpaceMaps(lo, k, n, d);
    forall j: nat | j < |img|
      ensures PageOf(Pte(k.mem, src, j)) < |k.mem| && Shows(n, d, j, ImageOf(k, src, j))
    {
      assert Shows(n, d, 0 + j, img[j]);
    }
  }

  const KERNLINK_PAGE: nat := 0x8_0100

  datatype Range = Range(virt: Word, size: Word, phys: Word, perm: nat)

  /** The kmap table. */
  function Kmap(j: nat, data: nat): (g: Range)
    requires KERNLINK_PAGE < data < USERPAGES + NPAGES
  {
    if j == 0 then Range(0x8000_0000, 0x10_0000, 0, PTE_W)
    else if j == 1 then Range(0x8010_0000, (data - KERNLINK_PAGE) * PGSIZE, 0x10_0000, 0)
    else if j == 2 then Range(data * PGSIZE, (USERPAGES + NPAGES - data) * PGSIZE, (data - USERPAGES) * PGSIZE, PTE_W)
    else Range(0xFE00_0000, 0x200_0000, 0xFE00_0000, PTE_W)
  }

  /** The entry of virtual page v once the first j ranges are mapped. */
  function KernelEntry(j: nat, v: nat, data: nat): (w: Word)
    requires KERNLINK_PAGE < data < USERPAGES + NPAGES
  {
    if j == 0 then 0
    else
      var g := Kmap(j - 1, data);
      if g.size > 0 && g.virt / PGSIZE <= v <= LastPage(g.virt, g.size)
      then EntryFor(g.virt / PGSIZE, v, g.phys / PGSIZE, g.perm) else KernelEntry(j - 1, v, data)
  }

  lemma KmapFits(j: nat, data: nat)
    requires KERNLINK_PAGE < data < USERPAGES + NPAGES && j < 4
    ensures var g := Kmap(j, data);
            && g.size > 0 && g.virt + g.size <= 0x1_0000_0000 && g.phys % PGSIZE == 0 && g.perm < PGSIZE
            && g.phys / PGSIZE + (LastPage(g.virt, g.size) - g.virt / PGSIZE) < ALLPAGES
            && USERPAGES <= g.virt / PGSIZE <= LastPage(g.virt, g.size) < ALLPAGES
  {
  }

  /** A range of the table does not meet the ones before it. */
  lemma KmapApart(j: nat, i: nat, v: nat, data: nat)
    requires KERNLINK_PAGE < data < USERPAGES + NPAGES && i <= j < 4
    requires var g := Kmap(j, data); g.size > 0 && g.virt / PGSIZE <= v <= LastPage(g.virt, g.size)
    ensures KernelEntry(i, v, data) == 0
    decreases i
  {
    if i > 0 {
      KmapApart(j, i - 1, v, data);
    }
  }

  predicate Writable(w: Word) { w / 2 % 2 == 1 }

  const DEVSPACE_PAGE: nat := 0xF_E000

  /** The kernel's own view of memory: physical memory from USERPAGES on, read-only between the kernel's
      link address and its data; the devices at their own addresses; nothing in between. No such
      entry has a flag other than present and writable, so none is open to the user. */
  ghost predicate KernelPage(v: nat, w: Word, data: nat) {
    if v < USERPAGES + NPAGES then
      && Present(w) && PageOf(w) == v - USERPAGES && Flags(w) < 4 && (Writable(w) <==> !(KERNLINK_PAGE <= v < data))
    else if v < DEVSPACE_PAGE then w == 0
    else Present(w) && PageOf(w) == v && Flags(w) < 4 && Writable(w)
  }

  ghost predicate KernelMapped(n: View, d: nat, data: nat) {
    forall v: nat {:trigger Pte(n.mem, d, v)} :: USERPAGES <= v < ALLPAGES ==> KernelPage(v, Pte(n.mem, d, v), data)
  }

  /** The rows of kmap in pages. */
  lemma KmapPages(j: nat, data: nat)
    requires KERNLINK_PAGE < data < USERPAGES + NPAGES && j < 4
    ensures var g := Kmap(j, data);
            && g.size > 0 && g.virt / PGSIZE == [USERPAGES, KERNLINK_PAGE, data, DEVSPACE_PAGE][j]
            && LastPage(g.virt, g.size) + 1 == [KERNLINK_PAGE, data, USERPAGES + NPAGES, ALLPAGES][j]
            && g.phys / PGSIZE == (if j == 3 then DEVSPACE_PAGE else g.virt / PGSIZE - USERPAGES)
            && g.perm == if j == 1 then 0 else 2
  {
  }

  /** What the first j rows of kmap come to, page by page. */
  lemma {:induction false} KernelEntryIs(j: nat, v: nat, data: nat)
    requires KERNLINK_PAGE < data < USERPAGES + NPAGES && j <= 4 && v < ALLPAGES
    ensures var w := KernelEntry(j, v, data);
            w == 0 || (USERPAGES <= v && KernelPage(v, w, data))
    ensures v < USERPAGES ==> KernelEntry(j, v, data) == 0
    ensures j > 0 && USERPAGES <= v < [KERNLINK_PAGE, data, USERPAGES + NPAGES, USERPAGES + NPAGES][j - 1] ==>
              KernelEntry(j, v, data) != 0
    ensures j == 4 && v >= DEVSPACE_PAGE ==> KernelEntry(j, v, data) != 0
    decreases j
  {
    if j > 0 {
      KernelEntryIs(j - 1, v, data);
      KmapPages(j - 1, data);
      var g := Kmap(j - 1, data);
      if g.virt / PGSIZE <= v <= LastPage(g.virt, g.size) {
        EntryIs(g.virt / PGSIZE, v, g.phys / PGSIZE, g.perm);
      }
    }
  }

  /** The first j rows of kmap are mapped in d, and nothing else. */
  ghost predicate RangesMapped(n: View, d: nat, j: nat, data: nat)
    requires KERNLINK_PAGE < data < USERPAGES + NPAGES
  {
    forall v: nat :: v < ALLPAGES ==> Pte(n.mem, d, v) == KernelEntry(j, v, data)
  }

  lemma AllRanges(n: View, d: nat, j: nat, data: nat)
    requires KERNLINK_PAGE < data < USERPAGES + NPAGES && j == 4
    requires RangesMapped(n, d, j, data)
    ensures KernelMapped(n, d, data) && NoneMapped(n, d, 0, USERPAGES)
  {
    forall v: nat | v < ALLPAGES
      ensures v < USERPAGES ==> !Present(Pte(n.mem, d, v))
      ensures v >= USERPAGES ==> KernelPage(v, Pte(n.mem, d, v), data)
    {
      KernelEntryIs(j, v, data);
    }
  }

  /** The user's pages of a copy are added without a change to the kernel's part. */
  lemma KernelKept(lo: nat, k: View, k1: View, n: View, d: nat, img: seq<Image>, data: nat)
    requires NewSpace(lo, k, k1, d) && Added(lo, k1, n, d, 0, img, 0) && |img| <= USERPAGES && KernelMapped(k1, d, data)
    ensures KernelMapped(n, d, data)
  {
    forall v: nat | USERPAGES <= v < ALLPAGES
      ensures KernelPage(v, Pte(n.mem, d, v), data)
    {
      assert Pte(n.mem, d, v) == Pte(k1.mem, d, v);
    }
  }

  // ---- what the kernel's part takes ----

  /** The directory, 56 tables for the physical memory and 8 for the devices. */
  const KERNEL_PAGES: nat := 65

  /** The virtual page up to which the first j rows of kmap reach, not counting the devices. */
  function ReachOf(j: nat, data: nat): (v: nat) {
    if j == 0 then USERPAGES else if j == 1 then KERNLINK_PAGE else if j == 2 then data else USERPAGES + NPAGES
  }

  /** The directory and the tables for the first j rows. */
  function CostOf(j: nat, data: nat): (n: int) {
    if j == 0 then 1 else if j == 4 then KERNEL_PAGES else (ReachOf(j, data) - 1) / NENTRIES - 510
  }

  /** d has the tables for the first j rows and no others, and they and d are what was taken since k. */
  ghost predicate Furnished(k: View, n: View, d: nat, j: nat, data: nat) {
    && (forall i: nat {:trigger HasTable(n.mem, d, i)} ::
          HasTable(n.mem, d, i) <==> Serves(i, USERPAGES, ReachOf(j, data)) || (j == 4 && Serves(i, DEVSPACE_PAGE, ALLPAGES)))
    && |n.free| + CostOf(j, data) == |k.free|
  }

  /** The tables that row j needs are those that add to the cost. */
  lemma RangeBill(k: View, m: View, d: nat, j: nat, data: nat)
    requires KERNLINK_PAGE < data < USERPAGES + NPAGES && j < 4 && Furnished(k, m, d, j, data)
    ensures var g := Kmap(j, data);
            g.size > 0 && LackingTables(m, d, g.virt / PGSIZE, LastPage(g.virt, g.size) + 1) == CostOf(j + 1, data) - CostOf(j, data)
  {
    KmapPages(j, data);
    var g := Kmap(j, data);
    var a, b := g.virt / PGSIZE, LastPage(g.virt, g.size) + 1;
    var c := if j == 3 then 1016 else if j == 0 then 512 else (ReachOf(j, data) - 1) / NENTRIES + 1;
    forall i: nat | Serves(i, a, b)
      ensures HasTable(m.mem, d, i) <==> i < c
    {
    }
    LackingFrom(m, d, a, b, c);
  }

  lemma RangePaid(k: View, m: View, n: View, d: nat, j: nat, data: nat)
    requires KERNLINK_PAGE < data < USERPAGES + NPAGES && j < 4 && Furnished(k, m, d, j, data)
    requires var g := Kmap(j, data); g.size > 0 && Spent(m, n, d, g.virt / PGSIZE, LastPage(g.virt, g.size) + 1, 0)
    ensures Furnished(k, n, d, j + 1, data)
  {
    KmapPages(j, data);
    RangeBill(k, m, d, j, data);
  }

  lemma RangeUnpaid(k: View, m: View, d: nat, j: nat, data: nat)
    requires KERNLINK_PAGE < data < USERPAGES + NPAGES && j < 4 && Furnished(k, m, d, j, data)
    requires var g := Kmap(j, data); g.size > 0 && TooFew(m, d, g.virt / PGSIZE, LastPage(g.virt, g.size))
    ensures |k.free| < KERNEL_PAGES
  {
    RangeBill(k, m, d, j, data);
    assert CostOf(j + 1, data) <= KERNEL_PAGES;
  }

  lemma AllFurnished(k: View, n: View, d: nat, j: nat, data: nat)
    requires Furnished(k, n, d, j, data) && j == 4
    ensures |n.free| + 65 == |k.free| && forall i: nat :: i < 512 ==> !HasTable(n.mem, d, i)
  {
  }

  /** A new address space of b user pages takes the kernel's part, a page each, and a table for every
      1024 of them. */
  function CopyBill(b: nat): (n: nat) { 65 + b + (b + 1023) / 1024 }

  lemma FreshBill(k: View, d: nat, b: nat)
    requires b <= USERPAGES && forall i: nat :: i < 512 ==> !HasTable(k.mem, d, i)
    ensures Bill(k, d, 0, b) == b + (b + 1023) / 1024
  {
    if b > 0 {
      forall i: nat | Serves(i, 0, b)
        ensures !HasTable(k.mem, d, i)
      {
      }
      LackingFrom(k, d, 0, b, 0);
    }
  }

  lemma RangeFree(m: View, d: nat, j: nat, data: nat)
    requires KERNLINK_PAGE < data < USERPAGES + NPAGES && j < 4
    requires RangesMapped(m, d, j, data)
    ensures var g := Kmap(j, data);
            g.size > 0 && forall u: nat :: g.virt / PGSIZE <= u <= LastPage(g.virt, g.size) ==> !Present(Pte(m.mem, d, u))
  {
    var g := Kmap(j, data);
    KmapFits(j, data);
    forall u: nat | g.virt / PGSIZE <= u <= LastPage(g.virt, g.size)
      ensures !Present(Pte(m.mem, d, u))
    {
      KmapApart(j, j, u, data);
    }
  }

  /** n has the directory d, and pages for it, on top of what k has. */
  ghost predicate NewSpace(lo: nat, k: View, n: View, d: nat) {
    && Good(lo, k) && Good(lo, n) && n.hands == k.hands && d !in k.owner && IsDir(n.owner, d)
    && (forall q: nat :: q in k.owner ==> q in n.owner && n.owner[q] == k.owner[q] && k.owner[q].dir != d)
    && (forall q: nat :: q in k.owner && q < |k.mem| ==> n.mem[q] == k.mem[q])
    && (forall q: nat :: q in n.owner && q !in k.owner ==> Belongs(n.owner[q], d))
  }

  /** The ledger and every page on it are as they were. */
  ghost predicate Intact(lo: nat, k: View, n: View) {
    && Good(lo, n) && n.hands == k.hands && n.owner == k.owner && |n.mem| == |k.mem|
    && (forall q: nat :: q in k.owner && q < |k.mem| ==> n.mem[q] == k.mem[q])
  }

  lemma DirAdded(lo: nat, k: View, l: View, d: nat)
    requires Good(lo, k) && Good(lo, l) && l.owner == k.owner && d in l.hands && d !in k.hands && l.hands == k.hands + {d}
    requires GrewBy(k, l, 0) && forall j: nat :: j < NENTRIES ==> l.mem[d][j] == 0
    ensures NewSpace(lo, k, l.(owner := l.owner[d := Use(d, Dir)], hands := l.hands - {d}), d)
    ensures forall v: nat :: Pte(l.mem, d, v) == 0
  {
    var own := l.owner[d := Use(d, Dir)];
    assert lo <= d < NPAGES && d !in l.owner;
    BlankDir(l.mem, d);
    DirBooked(lo, l.mem, l.owner, d);
    assert Parted(lo, l.free, own, l.hands - {d});
    assert l.hands - {d} == k.hands;
    forall q: nat | q in k.owner
      ensures k.owner[q].dir != d
    {
      assert HeldAt(lo, k.mem, k.owner, q);
    }
  }

  lemma BlankDir(mem: seq<Page>, d: nat)
    requires d < |mem| && forall j: nat :: j < NENTRIES ==> mem[d][j] == 0
    ensures forall v: nat :: Pde(mem, d, v) == 0
    ensures forall v: nat :: Pte(mem, d, v) == 0
  {
    forall v: nat
      ensures Pte(mem, d, v) == 0
    {
      assert Pde(mem, d, v / NENTRIES) == 0;
    }
  }

  lemma DirBooked(lo: nat, mem: seq<Page>, owner: map<nat, Use>, d: nat)
    requires Ledger(lo, mem, owner) && lo <= d < NPAGES && d !in owner
    requires (forall v: nat :: Pde(mem, d, v) == 0) && (forall v: nat :: Pte(mem, d, v) == 0)
    ensures Ledger(lo, mem, owner[d := Use(d, Dir)])
  {
    var own := owner[d := Use(d, Dir)];
    forall e: nat
      ensures IsDir(own, e) <==> IsDir(owner, e) || e == d
    {
    }
    forall p: nat | p in own
      ensures HeldAt(lo, mem, own, p)
    {
      if p != d {
        assert HeldAt(lo, mem, owner, p);
      }
    }
  }

  lemma SpaceGrew(lo: nat, k: View, m: View, n: View, d: nat)
    requires NewSpace(lo, k, m, d) && Good(lo, n) && GrewBy(m, n, d) && n.hands == m.hands
    ensures NewSpace(lo, k, n, d)
  {
  }

  lemma SpaceFreed(lo: nat, k: View, m: View, n: View, d: nat)
    requires NewSpace(lo, k, m, d) && DirFreed(lo, m, n, d)
    ensures Intact(lo, k, n)
  {
    assert n.owner == k.owner;
  }

  lemma SpaceMapped(lo: nat, k: View, m: View, n: View, d: nat, j: nat, data: nat)
    requires NewSpace(lo, k, m, d) && Good(lo, n) && KERNLINK_PAGE < data < USERPAGES + NPAGES && j < 4
    requires RangesMapped(m, d, j, data)
    requires var g := Kmap(j, data);
      g.size > 0 && RangeSet(m, n, d, g.virt / PGSIZE, LastPage(g.virt, g.size) + 1, g.phys / PGSIZE, g.perm)
      && Gained(m, n, d, g.virt / PGSIZE, EntryFor(g.virt / PGSIZE, g.virt / PGSIZE, g.phys / PGSIZE, g.perm))
    ensures NewSpace(lo, k, n, d)
    ensures RangesMapped(n, d, j + 1, data)
  {
    KmapFits(j, data);
    SpaceGrew(lo, k, m, n, d);
  }

  /** PGROUNDDOWN(va + size - 1) / PGSIZE. */
  function LastPage(va: nat, size: nat): (v: nat)
    requires size > 0
  {
    (va + size - 1) / PGSIZE
  }

  /** The entry for u in a range that starts at virtual page first and physical page pp. */
  function EntryFor(first: nat, u: nat, pp: nat, perm: nat): (w: Word)
  {
    if first <= u && pp + (u - first) < ALLPAGES && perm < PGSIZE
    then (pp + (u - first)) * PGSIZE + (if perm % 2 == 1 then perm else perm + 1)
    else 0
  }

  lemma EntryIs(first: nat, u: nat, pp: nat, perm: nat)
    requires first <= u && pp + (u - first) < ALLPAGES && perm < PGSIZE
    ensures var w := EntryFor(first, u, pp, perm);
            Present(w) && PageOf(w) == pp + (u - first) && Flags(w) == if perm % 2 == 1 then perm else perm + 1
  {
    EntryParts(pp + (u - first), if perm % 2 == 1 then perm else perm + 1, EntryFor(first, u, pp, perm));
  }

  /** Virtual pages first to b - 1 of d map physical pages from pp on. */
  ghost predicate RangeSet(k: View, n: View, d: nat, first: nat, b: nat, pp: nat, perm: nat) {
    && GrewBy(k, n, d)
    && forall e: nat, u: nat {:trigger Pte(n.mem, e, u)} :: IsDir(k.owner, e) ==>
         Pte(n.mem, e, u) == if e == d && first <= u < b then EntryFor(first, u, pp, perm) else Pte(k.mem, e, u)
  }

  lemma RangeOne(k: View, n: View, d: nat, first: nat, pp: nat, perm: nat)
    requires GrewBy(k, n, d) && SetEntry(k, n, d, first, EntryFor(first, first, pp, perm))
    ensures RangeSet(k, n, d, first, first + 1, pp, perm)
  {
  }

  /** Pages first, ..., b - 1 were unmapped in k and have been mapped since. */
  ghost predicate Ranging(k: View, n: View, d: nat, first: nat, b: nat, pp: nat, perm: nat) {
    && RangeSet(k, n, d, first, b, pp, perm) && NoneMapped(k, d, first, b)
    && Gained(k, n, d, first, EntryFor(first, first, pp, perm)) && Spent(k, n, d, first, b, 0)
  }

  lemma RangingOne(k: View, n: View, d: nat, first: nat, pp: nat, perm: nat)
    requires GrewBy(k, n, d) && SetEntry(k, n, d, first, EntryFor(first, first, pp, perm)) && !Present(Pte(k.mem, d, first))
    requires Gained(k, n, d, first, EntryFor(first, first, pp, perm)) && Spent(k, n, d, first, first + 1, 0)
    ensures Ranging(k, n, d, first, first + 1, pp, perm)
  {
    RangeOne(k, n, d, first, pp, perm);
  }

  lemma RangingNext(k: View, m: View, n: View, d: nat, first: nat, v: nat, pp: nat, at: nat, perm: nat)
    requires Ranging(k, m, d, first, v, pp, perm) && !Present(Pte(m.mem, d, v)) && Spent(m, n, d, v, v + 1, 0)
    requires IsDir(k.owner, d) && USERPAGES <= first <= v && at == pp + (v - first)
    requires GrewBy(m, n, d) && SetEntry(m, n, d, v, EntryFor(v, v, at, perm)) && Gained(m, n, d, v, EntryFor(v, v, at, perm))
    ensures Ranging(k, n, d, first, v + 1, pp, perm)
  {
    assert NoneMapped(k, d, first, v + 1) by { StillNone(k, m, d, first, v, pp, perm); }
    assert Spent(k, n, d, first, v + 1, 0) by { SpentNext(k, m, n, d, first, v, 0, 0); }
    RangeNext(k, m, n, d, first, v, pp, at, perm);
  }

  /** There are fewer free pages than tables missing. */
  ghost predicate TooFew(k: View, d: nat, first: nat, last: nat) {
    |k.free| < LackingTables(k, d, first, last + 1)
  }

  /** A page was taken for v, and mapped there unless its table was missing and there was no page for it. */
  lemma PagePaid(k: View, l: View, m: View, n: View, d: nat, a: nat, v: nat, pages: nat, p: nat, x: Page, r: MapResult,
                 next: nat, top: nat)
    requires a <= v && Spent(k, l, d, a, v, pages) && |l.free| == |m.free| + 1 && pages == v - a && next == v + 1 <= top
    requires p < |l.mem| && m.mem == l.mem[p := x] && p != d
    requires r.Mapped? ==> Spent(m, n, d, v, v + 1, 0)
    requires r.NoMemory? ==> TooFew(m, d, v, v)
    ensures r.Mapped? ==> Spent(k, n, d, a, next, pages + 1)
    ensures r.NoMemory? ==> |k.free| < Bill(k, d, a, top)
  {
    assert forall i: nat :: HasTable(m.mem, d, i) == HasTable(l.mem, d, i);
    assert Spent(k, m, d, a, v, pages + 1);
    if r.Mapped? {
      SpentNext(k, m, n, d, a, v, pages + 1, 0);
    } else if r.NoMemory? {
      assert LackingTables(m, d, v, v) == 0;
      CannotPay(k, l, d, a, v, top);
    }
  }

  lemma FewFirst(k: View, d: nat, v: nat, last: nat)
    requires v <= last
    ensures k.free == [] && !HasTable(k.mem, d, v / NENTRIES) ==> TooFew(k, d, v, last)
  {
    SpentNothing(k, d, v);
    if k.free == [] && !HasTable(k.mem, d, v / NENTRIES) {
      NoTableFor(k, k, d, v, v, last);
    }
  }

  lemma FewNext(k: View, m: View, d: nat, first: nat, v: nat, last: nat)
    requires first <= v <= last && Spent(k, m, d, first, v, 0)
    ensures m.free == [] && !HasTable(m.mem, d, v / NENTRIES) ==> TooFew(k, d, first, last)
  {
    if m.free == [] && !HasTable(m.mem, d, v / NENTRIES) {
      NoTableFor(k, m, d, first, v, last);
    }
  }

  lemma StillNone(k: View, m: View, d: nat, first: nat, v: nat, pp: nat, perm: nat)
    requires RangeSet(k, m, d, first, v, pp, perm) && IsDir(k.owner, d) && NoneMapped(k, d, first, v) && first <= v
    requires !Present(Pte(m.mem, d, v))
    ensures NoneMapped(k, d, first, v + 1)
  {
  }

  lemma RangeNext(k: View, m: View, n: View, d: nat, first: nat, v: nat, pp: nat, at: nat, perm: nat)
    requires RangeSet(k, m, d, first, v, pp, perm) && Gained(k, m, d, first, EntryFor(first, first, pp, perm))
    requires IsDir(k.owner, d) && USERPAGES <= first <= v && at == pp + (v - first)
    requires GrewBy(m, n, d) && SetEntry(m, n, d, v, EntryFor(v, v, at, perm)) && Gained(m, n, d, v, EntryFor(v, v, at, perm))
    ensures RangeSet(k, n, d, first, v + 1, pp, perm) && Gained(k, n, d, first, EntryFor(first, first, pp, perm))
  {
    assert EntryFor(first, v, pp, perm) == EntryFor(v, v, at, perm);
    forall e: nat, u: nat | IsDir(k.owner, e)
      ensures Pte(n.mem, e, u) == if e == d && first <= u < v + 1 then EntryFor(first, u, pp, perm) else Pte(k.mem, e, u)
    {
      assert IsDir(m.owner, e);
      assert Pte(n.mem, e, u) == if e == d && u == v then EntryFor(v, v, at, perm) else Pte(m.mem, e, u);
    }
  }

  lemma RangeStops(k: View, m: View, d: nat, first: nat, v: nat, pp: nat, perm: nat)
    requires RangeSet(k, m, d, first, v, pp, perm) && IsDir(k.owner, d) && first <= v
    ensures Pte(m.mem, d, v) == Pte(k.mem, d, v)
  {
  }

  /** The directory d and its tables from entry i on. */
  ghost function Behind(owner: map<nat, Use>, d: nat, i: nat): (s: set<nat>) {
    set p: nat | p in owner && owner[p].dir == d && (owner[p].role.Dir? || (owner[p].role.Table? && owner[p].role.i >= i))
  }

  ghost predicate NoUsers(owner: map<nat, Use>, d: nat) {
    forall p: nat :: p in owner && owner[p].dir == d ==> !owner[p].role.User?
  }

  lemma DirIsBehind(lo: nat, l: View, d: nat)
    requires Good(lo, l) && IsDir(l.owner, d)
    ensures lo <= d < NPAGES && forall i: nat :: d in Behind(l.owner, d, i)
  {
    assert HeldAt(lo, l.mem, l.owner, d);
  }

  /** A directory without user pages can be taken off the ledger with its tables. */
  lemma DirDropped(lo: nat, l: View, d: nat)
    requires Good(lo, l) && IsDir(l.owner, d) && NoUsers(l.owner, d)
    ensures Good(lo, l.(owner := l.owner - Behind(l.owner, d, 0), hands := l.hands + Behind(l.owner, d, 0)))
  {
    var own := l.owner - Behind(l.owner, d, 0);
    forall e: nat
      ensures IsDir(own, e) <==> IsDir(l.owner, e) && e != d
    {
    }
    forall p: nat | p in own
      ensures HeldAt(lo, l.mem, own, p)
    {
      assert HeldAt(lo, l.mem, l.owner, p);
    }
    forall p: nat | p in Behind(l.owner, d, 0)
      ensures lo <= p < NPAGES
    {
      assert HeldAt(lo, l.mem, l.owner, p);
    }
    assert TablesClaimed(l.mem, own) && UsersClaimed(l.mem, own);
  }

  /** Entry i of the directory is the next table to free, or nothing. */
  lemma BehindNext(lo: nat, l: View, d: nat, i: nat)
    requires Good(lo, l) && IsDir(l.owner, d) && i < NENTRIES
    ensures var w := Pde(l.mem, d, i);
            && (Present(w) ==> PageOf(w) in Behind(l.owner, d, i) && PageOf(w) != d && PageOf(w) !in l.hands)
            && (Present(w) ==> Behind(l.owner, d, i + 1) == Behind(l.owner, d, i) - {PageOf(w)})
            && (Present(w) ==> l.hands + Behind(l.owner, d, i) - {PageOf(w)} == l.hands + Behind(l.owner, d, i + 1))
            && (!Present(w) ==> Behind(l.owner, d, i + 1) == Behind(l.owner, d, i))
  {
    var w := Pde(l.mem, d, i);
    forall p: nat | p in l.owner && l.owner[p] == Use(d, Table(i))
      ensures Present(w) && p == PageOf(w)
    {
      assert HeldAt(lo, l.mem, l.owner, p);
    }
  }

  lemma BehindLast(lo: nat, l: View, d: nat)
    requires Good(lo, l) && IsDir(l.owner, d)
    ensures d !in l.hands && Behind(l.owner, d, NENTRIES) == {d} && l.hands + {d} - {d} == l.hands
  {
    forall p: nat | p in l.owner && l.owner[p].dir == d && l.owner[p].role.Table?
      ensures l.owner[p].role.i < NENTRIES
    {
      assert HeldAt(lo, l.mem, l.owner, p);
    }
    forall p: nat | p in l.owner && l.owner[p].dir == d && l.owner[p].role.Dir?
      ensures p == d
    {
      assert HeldAt(lo, l.mem, l.owner, p);
    }
  }

  predicate Belongs(u: Use, d: nat) { u.dir == d && !u.role.Other? }

  /** Exactly the pages of d have left the ledger; the others are as they were. */
  ghost predicate DirFreed(lo: nat, k: View, n: View, d: nat) {
    && Good(lo, n) && n.hands == k.hands && |n.mem| == |k.mem|
    && (forall p: nat :: p in n.owner <==> p in k.owner && !Belongs(k.owner[p], d))
    && (forall p: nat :: p in n.owner ==> n.owner[p] == k.owner[p])
    && (forall p: nat :: p in n.owner && p < |k.mem| ==> n.mem[p] == k.mem[p])
  }

  lemma AllUnmapped(lo: nat, k: View, l: View, d: nat)
    requires Good(lo, k) && IsDir(k.owner, d) && Unmapped(lo, k, l, d, 0, USERPAGES)
    ensures IsDir(l.owner, d) && NoUsers(l.owner, d)
  {
    forall p: nat | p in l.owner
      ensures HeldAt(lo, l.mem, l.owner, p)
    {
    }
  }

  lemma DirPutAway(lo: nat, k: View, l: View, n: View, d: nat)
    requires Good(lo, k) && Unmapped(lo, k, l, d, 0, USERPAGES) && Good(lo, n)
    requires n.owner == l.owner - Behind(l.owner, d, 0) && n.hands == l.hands && |n.mem| == |l.mem|
    requires forall q: nat :: q in n.owner && q < |l.mem| ==> n.mem[q] == l.mem[q]
    ensures DirFreed(lo, k, n, d)
  {
    forall p: nat | p in k.owner
      ensures p in n.owner <==> !Belongs(k.owner[p], d)
    {
      assert HeldAt(lo, k.mem, k.owner, p);
    }
  }

  /** Pages of zeros, present, writable and open to the user. */
  ghost predicate Zeroed(img: seq<Image>) {
    forall j: nat :: j < |img| ==> img[j].flags == 7 && forall w: nat :: w < NENTRIES ==> img[j].page[w] == 0
  }

  ghost predicate NoneMapped(k: View, d: nat, a: nat, b: nat) {
    forall u: nat :: a <= u < b ==> !Present(Pte(k.mem, d, u))
  }

  ghost predicate SamePresent(k: View, m: View) {
    forall e: nat, u: nat {:trigger Pte(m.mem, e, u)} :: IsDir(k.owner, e) ==>
      SameEntry(Pte(m.mem, e, u), Pte(k.mem, e, u))
  }

  /** The same entry, or no mapping either way. */
  predicate SameEntry(x: Word, y: Word) { x == y || (!Present(x) && !Present(y)) }

  /** The mappings of k are back, and the ledger has gained at most tables of d. */
  ghost predicate Undone(lo: nat, k: View, m: View, d: nat, p: nat) {
    && Good(lo, m) && SamePresent(k, m) && |m.mem| == |k.mem|
    && (p == 0 ==> m.hands == k.hands) && (p != 0 ==> p !in k.hands && m.hands == k.hands + {p})
    && (forall q: nat :: q in k.owner ==> q in m.owner && m.owner[q] == k.owner[q])
    && (forall q: nat :: q in k.owner && q < |k.mem| && !Structure(k.owner[q], d) ==> m.mem[q] == k.mem[q])
    && (forall q: nat :: q in m.owner && q !in k.owner ==> m.owner[q].dir == d && m.owner[q].role.Table?)
  }

  /** Pages a, ..., b - 1 of d are unmapped in m; the others are as in k. */
  ghost predicate Emptied(k: View, m: View, d: nat, a: nat, b: nat) {
    && (forall p: nat :: p in k.owner && IsDir(k.owner, p) ==> IsDir(m.owner, p))
    && forall e: nat, u: nat {:trigger Pte(m.mem, e, u)} :: IsDir(k.owner, e) ==>
         if e == d && a <= u < b then !Present(Pte(m.mem, e, u)) else Pte(m.mem, e, u) == Pte(k.mem, e, u)
  }

  lemma AddedEmptied(lo: nat, k: View, l: View, m: View, d: nat, a: nat, img: seq<Image>, b: nat, p: nat)
    requires Good(lo, k) && IsDir(k.owner, d) && Added(lo, k, l, d, a, img, p) && Unmapped(lo, l, m, d, a, b)
    requires a + |img| <= b
    ensures Emptied(k, m, d, a, b)
  {
    forall e: nat, u: nat | IsDir(k.owner, e)
      ensures if e == d && a <= u < b then !Present(Pte(m.mem, e, u)) else Pte(m.mem, e, u) == Pte(k.mem, e, u)
    {
      assert IsDir(l.owner, e);
      assert Pte(m.mem, e, u) == if e == d && a <= u < b && Present(Pte(l.mem, e, u)) then 0 else Pte(l.mem, e, u);
    }
  }

  lemma EmptiedPut(lo: nat, k: View, m: View, n: View, d: nat, a: nat, b: nat, p: nat)
    requires Emptied(k, m, d, a, b) && Good(lo, m) && p !in m.owner && n.owner == m.owner && |n.mem| == |m.mem|
    requires forall q: nat :: q < |m.mem| && q != p ==> n.mem[q] == m.mem[q]
    ensures Emptied(k, n, d, a, b)
  {
    forall e: nat, u: nat | IsDir(k.owner, e)
      ensures Pte(n.mem, e, u) == Pte(m.mem, e, u)
    {
      SamePages(lo, m, n, e, u, p);
    }
  }

  lemma AddedUndone(lo: nat, k: View, l: View, m: View, d: nat, a: nat, img: seq<Image>, b: nat, p: nat)
    requires Good(lo, k) && IsDir(k.owner, d) && Added(lo, k, l, d, a, img, p) && Unmapped(lo, l, m, d, a, b)
    requires a + |img| <= b <= USERPAGES && NoneMapped(k, d, a, b)
    ensures Undone(lo, k, m, d, p)
  {
    forall e: nat, u: nat | IsDir(k.owner, e)
      ensures SameEntry(Pte(m.mem, e, u), Pte(k.mem, e, u))
    {
      assert IsDir(l.owner, e);
      assert Pte(m.mem, e, u) == if e == d && a <= u < b && Present(Pte(l.mem, e, u)) then 0 else Pte(l.mem, e, u);
    }
    forall q: nat | q in k.owner
      ensures !Mine(k.owner[q], d, a, b)
    {
      assert HeldAt(lo, k.mem, k.owner, q);
    }
  }

  lemma UndonePut(lo: nat, k: View, m: View, n: View, d: nat, p: nat)
    requires Good(lo, k) && Undone(lo, k, m, d, p) && p != 0 && Good(lo, n)
    requires n.owner == m.owner && n.hands == m.hands - {p} && |n.mem| == |m.mem|
    requires forall q: nat :: q < |m.mem| && q != p ==> n.mem[q] == m.mem[q]
    ensures Undone(lo, k, n, d, 0)
  {
    forall e: nat, u: nat | IsDir(k.owner, e)
      ensures SameEntry(Pte(n.mem, e, u), Pte(k.mem, e, u))
    {
      assert IsDir(m.owner, e) && SameEntry(Pte(m.mem, e, u), Pte(k.mem, e, u));
      SamePages(lo, m, n, e, u, p);
    }
    assert n.hands == k.hands;
  }

  /** A page off the ledger can change without a trace in the mappings. */
  lemma SamePages(lo: nat, m: View, n: View, e: nat, u: nat, p: nat)
    requires Good(lo, m) && IsDir(m.owner, e) && p !in m.owner && |n.mem| == |m.mem|
    requires forall q: nat :: q < |m.mem| && q != p ==> n.mem[q] == m.mem[q]
    ensures Pte(n.mem, e, u) == Pte(m.mem, e, u) && Pde(n.mem, e, u) == Pde(m.mem, e, u)
  {
    assert Pde(n.mem, e, u / NENTRIES) == Pde(m.mem, e, u / NENTRIES);
  }


  /** PGROUNDUP(sz) / PGSIZE. */
  function PageUp(sz: nat): (v: nat) { (sz + PGSIZE - 1) / PGSIZE }

  /** The first page behind the next directory entry. */
  function NextTable(v: nat): (u: nat)
    ensures u > v
  {
    (v / NENTRIES + 1) * NENTRIES
  }

  lemma UnmappedTable(lo: nat, k: View, l: View, d: nat, a: nat, v: nat, c: nat)
    requires Good(lo, k) && IsDir(k.owner, d) && Unmapped(lo, k, l, d, a, v) && a <= v <= c <= USERPAGES
    requires !Present(Pde(l.mem, d, v / NENTRIES)) && c <= NextTable(v)
    ensures Unmapped(lo, k, l, d, a, c)
  {
    forall u: nat | v <= u < c
      ensures !Present(Pte(k.mem, d, u))
    {
      assert u / NENTRIES == v / NENTRIES;
      assert Pde(l.mem, d, u / NENTRIES) == Pde(k.mem, d, u / NENTRIES);
    }
    UnmappedSkip(lo, k, l, d, a, v, c);
  }

  /** The state after entry v of d, kept in table t, is set to w. */
  ghost function Booked(l: View, d: nat, v: nat, t: nat, w: Word): (n: View)
    requires t < |l.mem|
  {
    var m := l.mem[t := l.mem[t][v % NENTRIES := w]];
    if v < USERPAGES
    then View(m, l.head, l.free, l.owner[PageOf(w) := Use(d, User(v))], l.hands - {PageOf(w)})
    else View(m, l.head, l.free, l.owner, l.hands)
  }

  lemma EntryBooked(lo: nat, l: View, d: nat, v: nat, t: nat, w: Word)
    requires Good(lo, l) && IsDir(l.owner, d) && v < ALLPAGES && Present(w) && (v < USERPAGES ==> PageOf(w) in l.hands)
    requires Present(Pde(l.mem, d, v / NENTRIES)) && PageOf(Pde(l.mem, d, v / NENTRIES)) == t < |l.mem|
    requires !Present(Pte(l.mem, d, v))
    ensures Good(lo, Booked(l, d, v, t, w))
    ensures GrewBy(l, Booked(l, d, v, t, w), d) && SetEntry(l, Booked(l, d, v, t, w), d, v, w)
    ensures Gained(l, Booked(l, d, v, t, w), d, v, w)
  {
    var i, j := v / NENTRIES, v % NENTRIES;
    var n := Booked(l, d, v, t, w);
    assert l.owner[t] == Use(d, Table(i)) && VPage(i, j) == v;
    EntryWritten(l.mem, l.owner, d, i, t, j, w);
    LinkedFrame(l.mem, l.head, l.free, t, l.mem[t][j := w]);
    if v < USERPAGES {
      UserBooked(lo, l.mem, l.owner, n.mem, d, v, PageOf(w), w);
      assert Parted(lo, n.free, n.owner, n.hands);
    } else {
      KernelUnbooked(lo, l.mem, l.owner, n.mem, d, v, w);
    }
  }

  /** A walk followed by setting the entry. */
  lemma MapComposed(k: View, l: View, n: View, d: nat, v: nat, w: Word)
    requires SameMaps(k, l) && GrewBy(k, l, d) && l.hands == k.hands
    requires forall p: nat :: p in l.owner && p !in k.owner ==> l.owner[p].dir == d && l.owner[p].role.Table?
    requires GrewBy(l, n, d) && SetEntry(l, n, d, v, w) && Gained(l, n, d, v, w)
    ensures GrewBy(k, n, d) && SetEntry(k, n, d, v, w) && Gained(k, n, d, v, w)
  {
    forall e: nat, u: nat | IsDir(k.owner, e)
      ensures Pte(n.mem, e, u) == if e == d && u == v then w else Pte(k.mem, e, u)
    {
      assert IsDir(l.owner, e) && Pte(l.mem, e, u) == Pte(k.mem, e, u);
    }
  }

  ghost predicate ListOk(lo: nat, mem: seq<Page>, head: nat, free: seq<nat>) {
    0 < lo && |mem| == NPAGES && Linked(mem, head, free) && forall p: nat :: p in free ==> lo <= p < NPAGES
  }

  lemma ListHead(lo: nat, mem: seq<Page>, head: nat, free: seq<nat>)
    requires ListOk(lo, mem, head, free)
    ensures head < NPAGES
  {
    assert free == [] || head in free;
  }

  // ---- unmapping ----

  predicate Mine(u: Use, d: nat, a: nat, b: nat) { u.dir == d && u.role.User? && a <= u.role.v < b }

  /** The user pages of d at virtual pages a to b - 1 have been unmapped and are off the ledger. */
  ghost predicate Unmapped(lo: nat, k: View, l: View, d: nat, a: nat, b: nat) {
    && Good(lo, l) && l.hands == k.hands && |k.mem| == |l.mem|
    && (forall e: nat, u: nat {:trigger Pte(l.mem, e, u)} :: IsDir(k.owner, e) ==>
          Pte(l.mem, e, u) == if e == d && a <= u < b && Present(Pte(k.mem, e, u)) then 0 else Pte(k.mem, e, u))
    && SameDirs(k, l)
    && (forall p: nat :: p in l.owner <==> p in k.owner && !Mine(k.owner[p], d, a, b))
    && (forall p: nat :: p in l.owner ==> l.owner[p] == k.owner[p])
    && (forall p: nat :: p in l.owner && p < |k.mem| && !Structure(l.owner[p], d) ==> l.mem[p] == k.mem[p])
  }

  lemma UnmappedNothing(lo: nat, k: View, d: nat, a: nat)
    requires Good(lo, k)
    ensures Unmapped(lo, k, k, d, a, a)
  {
  }

  /** Virtual pages that are not mapped can be passed over, one or a whole directory entry at a time. */
  lemma UnmappedSkip(lo: nat, k: View, l: View, d: nat, a: nat, b: nat, c: nat)
    requires Good(lo, k) && IsDir(k.owner, d) && Unmapped(lo, k, l, d, a, b) && a <= b <= c <= USERPAGES
    requires forall u: nat :: b <= u < c ==> !Present(Pte(k.mem, d, u))
    ensures Unmapped(lo, k, l, d, a, c)
  {
    forall p: nat | p in k.owner
      ensures Mine(k.owner[p], d, a, c) <==> Mine(k.owner[p], d, a, b)
    {
      assert HeldAt(lo, k.mem, k.owner, p);
    }
  }

  /** The state after user entry v, kept in table t, is cleared: its page p is in hand. */
  ghost function Loosened(l: View, v: nat, t: nat, p: nat): (n: View)
    requires t < |l.mem|
  {
    View(l.mem[t := l.mem[t][v % NENTRIES := 0]], l.head, l.free, l.owner - {p}, l.hands + {p})
  }

  lemma EntryCleared(lo: nat, l: View, d: nat, v: nat, t: nat, p: nat)
    requires Good(lo, l) && IsDir(l.owner, d) && v < USERPAGES && Present(Pte(l.mem, d, v))
    requires Present(Pde(l.mem, d, v / NENTRIES)) && PageOf(Pde(l.mem, d, v / NENTRIES)) == t < |l.mem|
    requires p == PageOf(Pte(l.mem, d, v))
    ensures lo <= p < NPAGES && p != t && p !in l.free && p !in l.hands && p in l.owner && l.owner[p] == Use(d, User(v))
    ensures Good(lo, Loosened(l, v, t, p))
    ensures OneEntry(l.mem, Loosened(l, v, t, p).mem, l.owner, d, v, 0)
  {
    var i, j := v / NENTRIES, v % NENTRIES;
    assert l.owner[t] == Use(d, Table(i)) && VPage(i, j) == v && l.owner[p] == Use(d, User(v));
    assert HeldAt(lo, l.mem, l.owner, p);
    var n := Loosened(l, v, t, p);
    EntryWritten(l.mem, l.owner, d, i, t, j, 0);
    LinkedFrame(l.mem, l.head, l.free, t, l.mem[t][j := 0]);
    UserDropped(lo, l.mem, l.owner, n.mem, d, v);
    assert Parted(lo, n.free, n.owner, n.hands);
  }

  ghost function Put(l: View, p: nat, x: Page): (n: View)
    requires p < |l.mem|
  {
    View(l.mem[p := x], p, [p] + l.free, l.owner, l.hands - {p})
  }

  ghost predicate SameDirs(k: View, l: View) {
    forall e: nat, i: nat {:trigger Pde(l.mem, e, i)} :: IsDir(k.owner, e) ==> Pde(l.mem, e, i) == Pde(k.mem, e, i)
  }

  lemma PagePut(lo: nat, l: View, p: nat, x: Page)
    requires Good(lo, l) && p in l.hands && x[0] == l.head
    ensures Good(lo, Put(l, p, x)) && SameMaps(l, Put(l, p, x)) && SameDirs(l, Put(l, p, x))
  {
    PutKeepsGood(lo, l, p, x);
    var m := l.mem[p := x];
    forall e: nat, u: nat | IsDir(l.owner, e)
      ensures Pte(m, e, u) == Pte(l.mem, e, u) && Pde(m, e, u) == Pde(l.mem, e, u)
    {
      PlainWrite(lo, l.mem, l.owner, p, x, e, u);
    }
  }

  /** The next mapped page is unmapped and freed. */
  lemma PutLoosened(l: View, n: View, v: nat, t: nat, p: nat, x: Page)
    requires t < |l.mem| && p < |l.mem| && p != t && p !in l.hands
    requires n == View(l.mem[p := x][t := l.mem[t][v % NENTRIES := 0]], p, [p] + l.free, l.owner - {p}, l.hands)
    ensures n == Put(Loosened(l, v, t, p), p, x)
  {
    assert l.hands + {p} - {p} == l.hands;
  }

  lemma UnmappedNext(lo: nat, k: View, l: View, n: View, d: nat, a: nat, v: nat, t: nat, p: nat, x: Page)
    requires Good(lo, k) && IsDir(k.owner, d) && Unmapped(lo, k, l, d, a, v) && a <= v < USERPAGES
    requires Present(Pte(l.mem, d, v)) && x[0] == l.head
    requires Present(Pde(l.mem, d, v / NENTRIES)) && PageOf(Pde(l.mem, d, v / NENTRIES)) == t < |l.mem|
    requires p == PageOf(Pte(l.mem, d, v)) < |l.mem| && n == Put(Loosened(l, v, t, p), p, x)
    ensures Unmapped(lo, k, n, d, a, v + 1)
  {
    assert IsDir(l.owner, d);
    EntryCleared(lo, l, d, v, t, p);
    PagePut(lo, Loosened(l, v, t, p), p, x);
    assert n.hands == l.hands;
    UnmappedMaps(k, l, Loosened(l, v, t, p), n, d, a, v, p);
    UnmappedPages(lo, k, l, n, d, a, v, t, p);
  }

  lemma UnmappedMaps(k: View, l: View, mid: View, n: View, d: nat, a: nat, v: nat, p: nat)
    requires OneEntry(l.mem, mid.mem, l.owner, d, v, 0) && SameMaps(mid, n) && SameDirs(mid, n)
    requires a <= v && Present(Pte(l.mem, d, v)) && IsDir(k.owner, d)
    requires forall e: nat :: IsDir(k.owner, e) ==> IsDir(l.owner, e) && IsDir(mid.owner, e)
    requires forall e: nat, u: nat {:trigger Pte(l.mem, e, u)} :: IsDir(k.owner, e) ==>
      Pte(l.mem, e, u) == if e == d && a <= u < v && Present(Pte(k.mem, e, u)) then 0 else Pte(k.mem, e, u)
    requires SameDirs(k, l)
    ensures SameDirs(k, n)
    ensures forall e: nat, u: nat {:trigger Pte(n.mem, e, u)} :: IsDir(k.owner, e) ==>
      Pte(n.mem, e, u) == if e == d && a <= u < v + 1 && Present(Pte(k.mem, e, u)) then 0 else Pte(k.mem, e, u)
  {
    forall e: nat, u: nat | IsDir(k.owner, e)
      ensures Pte(n.mem, e, u) == if e == d && a <= u < v + 1 && Present(Pte(k.mem, e, u)) then 0 else Pte(k.mem, e, u)
      ensures Pde(n.mem, e, u) == Pde(k.mem, e, u)
    {
      assert Pte(n.mem, e, u) == Pte(mid.mem, e, u) && Pde(n.mem, e, u) == Pde(mid.mem, e, u);
      assert Pte(l.mem, d, v) == Pte(k.mem, d, v);
    }
  }

  lemma UnmappedPages(lo: nat, k: View, l: View, n: View, d: nat, a: nat, v: nat, t: nat, p: nat)
    requires Good(lo, k) && Unmapped(lo, k, l, d, a, v) && a <= v
    requires p in l.owner && l.owner[p] == Use(d, User(v)) && n.owner == l.owner - {p} && |n.mem| == |l.mem|
    requires t in l.owner && Structure(l.owner[t], d)
    requires forall q: nat :: q < |l.mem| && q != p && q != t ==> n.mem[q] == l.mem[q]
    ensures forall q: nat :: q in n.owner <==> q in k.owner && !Mine(k.owner[q], d, a, v + 1)
    ensures forall q: nat :: q in n.owner ==> n.owner[q] == k.owner[q]
    ensures forall q: nat :: q in n.owner && q < |k.mem| && !Structure(n.owner[q], d) ==> n.mem[q] == k.mem[q]
  {
    forall q: nat | q in l.owner && l.owner[q] == Use(d, User(v))
      ensures q == p
    {
      assert HeldAt(lo, l.mem, l.owner, q) && HeldAt(lo, l.mem, l.owner, p);
    }
  }

  lemma NullHead(lo: nat, k: View)
    requires Good(lo, k) && k.head == 0
    ensures k.free == []
  {
    assert k.free == [] || k.head in k.free;
  }

  lemma TableInRange(lo: nat, k: View, d: nat, i: nat)
    requires Good(lo, k) && IsDir(k.owner, d) && Present(Pde(k.mem, d, i))
    ensures lo <= PageOf(Pde(k.mem, d, i)) < NPAGES
  {
    assert HeldAt(lo, k.mem, k.owner, PageOf(Pde(k.mem, d, i)));
  }

  lemma BlankPage(lo: nat, k: View, t: nat, x: Page)
    requires Good(lo, k) && t in k.hands
    ensures Good(lo, k.(mem := k.mem[t := x])) && SameMaps(k, k.(mem := k.mem[t := x]))
    ensures forall e: nat, i: nat {:trigger Pde(k.mem[t := x], e, i)} :: IsDir(k.owner, e) ==>
      Pde(k.mem[t := x], e, i) == Pde(k.mem, e, i)
  {
    var m := k.mem[t := x];
    PlainWriteKeeps(lo, k.mem, k.owner, t, x);
    LinkedFrame(k.mem, k.head, k.free, t, x);
    forall e: nat, u: nat | IsDir(k.owner, e)
      ensures Pte(m, e, u) == Pte(k.mem, e, u) && Pde(m, e, u) == Pde(k.mem, e, u)
    {
      PlainWrite(lo, k.mem, k.owner, t, x, e, u);
    }
  }

  lemma TableHung(lo: nat, k: View, l: View, d: nat, i: nat, t: nat, w: Word)
    requires Good(lo, l) && IsDir(l.owner, d) && i < NENTRIES && !Present(Pde(l.mem, d, i)) && d < |l.mem|
    requires k.owner == l.owner && SameMaps(k, l)
    requires t in l.hands && PageOf(w) == t && forall j: nat :: j < NENTRIES ==> l.mem[t][j] == 0
    ensures var m := l.mem[d := l.mem[d][i := w]];
            && (forall e: nat, u: nat {:trigger Pte(m, e, u)} :: IsDir(k.owner, e) ==> Pte(m, e, u) == Pte(k.mem, e, u))
            && (forall e: nat, u: nat {:trigger Pde(m, e, u)} :: IsDir(k.owner, e) ==>
                 Pde(m, e, u) == if e == d && u == i then w else Pde(l.mem, e, u))
  {
    var m := l.mem[d := l.mem[d][i := w]];
    forall e: nat, u: nat | IsDir(k.owner, e)
      ensures Pte(m, e, u) == Pte(k.mem, e, u)
      ensures Pde(m, e, u) == if e == d && u == i then w else Pde(l.mem, e, u)
    {
      DirWrite(l.mem, l.owner, d, i, w, e, u);
      assert Pte(l.mem, e, u) == Pte(k.mem, e, u);
    }
  }

  ghost function From(p: nat): (s: set<nat>) {
    set q: nat | p <= q < NPAGES && IsPage(q)
  }

  predicate IsPage(q: nat) { q < NPAGES }

  lemma FromNext(p: nat)
    requires p < NPAGES
    ensures p in From(p) && From(p + 1) == From(p) - {p}
  {
  }

  lemma Untouched(lo: nat, k: View)
    requires 0 < lo && |k.mem| == NPAGES && k.head == 0 && k.free == [] && k.owner == map[] && k.hands == From(lo)
    ensures Good(lo, k)
  {
  }

  // ---- growing ----

  /** What a virtual page shows: the flags of its entry and the contents of its page. */
  datatype Image = Image(flags: nat, page: Page)

  ghost predicate Shows(l: View, d: nat, v: nat, x: Image) {
    var w := Pte(l.mem, d, v);
    Present(w) && Flags(w) == x.flags && PageOf(w) < |l.mem| && l.mem[PageOf(w)] == x.page
  }

  /** Virtual pages of d from a on have been given new pages that show img; p, unless 0, is in hand. */
  ghost predicate Added(lo: nat, k: View, l: View, d: nat, a: nat, img: seq<Image>, p: nat) {
    && Good(lo, l) && GrewBy(k, l, d) && IsDir(l.owner, d)
    && (p == 0 ==> l.hands == k.hands) && (p != 0 ==> p !in k.hands && l.hands == k.hands + {p})
    && (forall e: nat, u: nat {:trigger Pte(l.mem, e, u)} :: IsDir(k.owner, e) && !(e == d && a <= u < a + |img|) ==>
          Pte(l.mem, e, u) == Pte(k.mem, e, u))
    && (forall j: nat :: j < |img| ==> Shows(l, d, a + j, img[j]))
    && (forall q: nat :: q in l.owner && q !in k.owner ==>
          l.owner[q].dir == d && (l.owner[q].role.Table? || Mine(l.owner[q], d, a, a + |img|)))
  }

  lemma AddedSame(lo: nat, k: View, l: View, d: nat, a: nat, img: seq<Image>, p: nat, v: nat)
    requires Added(lo, k, l, d, a, img, p) && IsDir(k.owner, d) && v == a + |img|
    ensures Pte(l.mem, d, v) == Pte(k.mem, d, v)
  {
  }

  lemma AddedNothing(lo: nat, k: View, d: nat, a: nat)
    requires Good(lo, k) && IsDir(k.owner, d)
    ensures Added(lo, k, k, d, a, [], 0)
  {
  }

  /** Taking one more page. */
  lemma AddedTaken(lo: nat, k: View, l: View, m: View, d: nat, a: nat, img: seq<Image>, p: nat, x: Page)
    requires Good(lo, k) && IsDir(k.owner, d) && Added(lo, k, l, d, a, img, 0) && a + |img| <= USERPAGES
    requires Good(lo, m) && m.owner == l.owner && p != 0 && p !in l.owner && p !in l.hands && m.hands == l.hands + {p}
    requires p < |l.mem| && m.mem == l.mem[p := x] && SameMaps(l, m) && GrewBy(l, m, 0)
    ensures Added(lo, k, m, d, a, img, p)
  {
    forall j: nat | j < |img|
      ensures Shows(m, d, a + j, img[j])
    {
      assert Shows(l, d, a + j, img[j]) && Pte(m.mem, d, a + j) == Pte(l.mem, d, a + j);
      assert PageOf(Pte(l.mem, d, a + j)) in l.owner;
    }
    forall e: nat, u: nat | IsDir(k.owner, e) && !(e == d && a <= u < a + |img|)
      ensures Pte(m.mem, e, u) == Pte(k.mem, e, u)
    {
      assert IsDir(l.owner, e) && Pte(l.mem, e, u) == Pte(k.mem, e, u);
    }
  }

  /** Mapping it. */
  lemma ShowsNext(lo: nat, m: View, n: View, d: nat, a: nat, img: seq<Image>, p: nat, flags: nat, w: Word, x: Page,
                  more: seq<Image>, j: nat)
    requires Good(lo, m) && Good(lo, n) && IsDir(m.owner, d) && p < |m.mem| && m.mem[p] == x && p in m.hands
    requires more == img + [Image(flags, x)] && j < |more| && a + |img| < USERPAGES
    requires w == p * PGSIZE + flags && flags < PGSIZE && flags % 2 == 1
    requires GrewBy(m, n, d) && SetEntry(m, n, d, a + |img|, w) && Gained(m, n, d, a + |img|, w)
    requires forall i: nat :: i < |img| ==> Shows(m, d, a + i, img[i])
    ensures Shows(n, d, a + j, more[j])
  {
    EntryParts(p, flags, w);
    if j < |img| {
      assert Shows(m, d, a + j, img[j]) && Pte(n.mem, d, a + j) == Pte(m.mem, d, a + j);
      assert m.owner[PageOf(Pte(m.mem, d, a + j))] == Use(d, User(a + j));
    } else {
      assert Pte(n.mem, d, a + |img|) == w;
    }
  }

  lemma AddedNext(lo: nat, k: View, m: View, n: View, d: nat, a: nat, img: seq<Image>, p: nat, flags: nat, w: Word,
                  x: Page, more: seq<Image>)
    requires Good(lo, k) && IsDir(k.owner, d) && Added(lo, k, m, d, a, img, p) && p != 0 && p < |m.mem|
    requires m.mem[p] == x && more == img + [Image(flags, x)]
    requires a + |img| < USERPAGES && Good(lo, n)
    requires w == p * PGSIZE + flags && flags < PGSIZE && flags % 2 == 1
    requires GrewBy(m, n, d) && SetEntry(m, n, d, a + |img|, w) && Gained(m, n, d, a + |img|, w)
    ensures Added(lo, k, n, d, a, more, 0)
  {
    EntryParts(p, flags, w);
    forall j: nat | j < |more|
      ensures Shows(n, d, a + j, more[j])
    {
      ShowsNext(lo, m, n, d, a, img, p, flags, w, x, more, j);
    }
    EntriesNext(lo, k, m, n, d, a, img, p, w);
    GrewOn(k, m, n, d);
    LedgerNext(lo, k, m, n, d, a, img, p, w, |more|);
  }

  lemma GrewOn(k: View, m: View, n: View, d: nat)
    requires GrewBy(k, m, d) && GrewBy(m, n, d) && k.hands <= m.hands
    ensures GrewBy(k, n, d)
  {
  }

  lemma LedgerNext(lo: nat, k: View, m: View, n: View, d: nat, a: nat, img: seq<Image>, p: nat, w: Word, len: nat)
    requires Added(lo, k, m, d, a, img, p) && p != 0 && PageOf(w) == p && a + |img| < USERPAGES && len == |img| + 1
    requires GrewBy(m, n, d) && Gained(m, n, d, a + |img|, w)
    ensures n.hands == k.hands
    ensures forall q: nat :: q in n.owner && q !in k.owner ==>
      n.owner[q].dir == d && (n.owner[q].role.Table? || Mine(n.owner[q], d, a, a + len))
  {
  }

  lemma EntriesNext(lo: nat, k: View, m: View, n: View, d: nat, a: nat, img: seq<Image>, p: nat, w: Word)
    requires Added(lo, k, m, d, a, img, p) && SetEntry(m, n, d, a + |img|, w)
    ensures forall e: nat, u: nat {:trigger Pte(n.mem, e, u)} ::
      IsDir(k.owner, e) && !(e == d && a <= u < a + |img| + 1) ==> Pte(n.mem, e, u) == Pte(k.mem, e, u)
  {
    forall e: nat, u: nat | IsDir(k.owner, e) && !(e == d && a <= u < a + |img| + 1)
      ensures Pte(n.mem, e, u) == Pte(k.mem, e, u)
    {
      assert IsDir(m.owner, e) && Pte(m.mem, e, u) == Pte(k.mem, e, u);
    }
  }

  /** An aligned range of PGSIZE bytes is one page, so the loop of mappages runs once. */
  lemma OnePage(v: nat, p: nat, flags: nat)
    requires v < ALLPAGES && p < NPAGES && flags < PGSIZE && flags % 2 == 1
    ensures v * PGSIZE / PGSIZE == v == LastPage(v * PGSIZE, PGSIZE) && p * PGSIZE / PGSIZE == p
    ensures v * PGSIZE + PGSIZE <= 0x1_0000_0000 && p * PGSIZE % PGSIZE == 0
    ensures EntryFor(v, v, p, flags) == p * PGSIZE + flags
  {
  }

  lemma AddedPlaced(lo: nat, k: View, m: View, n: View, d: nat, a: nat, img: seq<Image>, v: nat, p: nat, flags: nat,
                    x: Page, more: seq<Image>)
    requires Good(lo, k) && IsDir(k.owner, d) && Added(lo, k, m, d, a, img, p) && p != 0 && p < |m.mem|
    requires m.mem[p] == x && more == img + [Image(flags, x)] && v == a + |img| < USERPAGES && Good(lo, n)
    requires flags < PGSIZE && flags % 2 == 1
    requires RangeSet(m, n, d, v, v + 1, p, flags) && Gained(m, n, d, v, EntryFor(v, v, p, flags))
    ensures Added(lo, k, n, d, a, more, 0)
  {
    var w := EntryFor(v, v, p, flags);
    OnePage(v, p, flags);
    assert SetEntry(m, n, d, v, w);
    AddedNext(lo, k, m, n, d, a, img, p, flags, w, x, more);
  }

  lemma EntryParts(p: nat, flags: nat, w: Word)
    requires w == p * PGSIZE + flags && flags < PGSIZE && flags % 2 == 1
    ensures PageOf(w) == p && Flags(w) == flags && Present(w)
  {
  }

  /** No page is mapped by two entries, within one address space or across two. */
  lemma NoSharing(lo: nat, k: View, d: nat, v: nat, e: nat, u: nat)
    requires Good(lo, k) && IsDir(k.owner, d) && IsDir(k.owner, e) && v < USERPAGES && u < USERPAGES
    requires Present(Pte(k.mem, d, v)) && Present(Pte(k.mem, e, u))
    requires PageOf(Pte(k.mem, d, v)) == PageOf(Pte(k.mem, e, u))
    ensures d == e && v == u
  {
    assert k.owner[PageOf(Pte(k.mem, d, v))] == Use(d, User(v));
  }

  /** The pages of a copy come from the free list, not from any address space there was. */
  lemma CopyIsApart(lo: nat, k: View, n: View, d: nat, v: nat)
    requires NewSpace(lo, k, n, d) && v < USERPAGES && Present(Pte(n.mem, d, v))
    ensures PageOf(Pte(n.mem, d, v)) !in k.owner && PageOf(Pte(n.mem, d, v)) in k.free
  {
    var p := PageOf(Pte(n.mem, d, v));
    assert n.owner[p] == Use(d, User(v)) && HeldAt(lo, n.mem, n.owner, p);
  }
}
