/** How many physical pages the page tables of a range of virtual pages take. */
module PageBill {
  import opened PageTables

  predicate HasTable(mem: seq<Page>, d: nat, i: nat) { Present(Pde(mem, d, i)) }

  /** Directory entry i serves one of the virtual pages a, ..., b - 1. */
  predicate Serves(i: nat, a: nat, b: nat) { a < b && i * NENTRIES < b && a < (i + 1) * NENTRIES }

  /** Virtual page v is the first of those from a on that its directory entry serves. */
  predicate FirstUse(a: nat, v: nat) { v == a || v % NENTRIES == 0 }

  /** The tables that d lacks for virtual pages a, ..., b - 1. */
  ghost function LackingTables(k: View, d: nat, a: nat, b: nat): (n: nat)
    decreases b
  {
    if a >= b then 0
    else
      LackingTables(k, d, a, b - 1) + if FirstUse(a, b - 1) && !HasTable(k.mem, d, (b - 1) / NENTRIES) then 1 else 0
  }

  /** The pages needed to map a, ..., b - 1 in d: one for each, and the tables that are missing. */
  ghost function Bill(k: View, d: nat, a: nat, b: nat): (n: nat)
    requires a <= b
  {
    b - a + LackingTables(k, d, a, b)
  }

  /** From k to n directory d has got the tables that a, ..., b - 1 go through, and no others. */
  ghost predicate GotTables(k: View, n: View, d: nat, a: nat, b: nat) {
    forall i: nat {:trigger HasTable(n.mem, d, i)} :: HasTable(n.mem, d, i) <==> HasTable(k.mem, d, i) || Serves(i, a, b)
  }

  /** Those tables, and so many pages besides, are what has been taken from the free list. */
  ghost predicate Spent(k: View, n: View, d: nat, a: nat, b: nat, pages: nat) {
    GotTables(k, n, d, a, b) && |n.free| + LackingTables(k, d, a, b) + pages == |k.free|
  }

  lemma SpentNothing(k: View, d: nat, a: nat)
    ensures Spent(k, k, d, a, a, 0)
  {
  }

  /** One more page of the range: from m to n its table, if it was missing, and q pages were taken. */
  lemma SpentNext(k: View, m: View, n: View, d: nat, a: nat, v: nat, p: nat, q: nat)
    requires a <= v && Spent(k, m, d, a, v, p) && Spent(m, n, d, v, v + 1, q)
    ensures Spent(k, n, d, a, v + 1, p + q)
  {
    var i := v / NENTRIES;
    assert LackingTables(m, d, v, v) == 0;
    TableOfNext(a, v);
    forall j: nat
      ensures HasTable(n.mem, d, j) <==> HasTable(k.mem, d, j) || Serves(j, a, v + 1)
    {
      assert HasTable(m.mem, d, j) <==> HasTable(k.mem, d, j) || Serves(j, a, v);
      ServesNext(j, a, v);
    }
    assert HasTable(m.mem, d, i) <==> HasTable(k.mem, d, i) || Serves(i, a, v);
  }

  lemma TableOfNext(a: nat, v: nat)
    requires a <= v
    ensures Serves(v / NENTRIES, a, v) <==> !FirstUse(a, v)
  {
    assert a / NENTRIES <= v / NENTRIES;
    if a < v {
      assert (v - 1) / NENTRIES <= v / NENTRIES <= (v - 1) / NENTRIES + 1;
      assert v % NENTRIES == 0 <==> (v - 1) / NENTRIES < v / NENTRIES;
    }
  }

  lemma ServesNext(j: nat, a: nat, v: nat)
    requires a <= v
    ensures Serves(j, a, v + 1) <==> Serves(j, a, v) || j == v / NENTRIES
  {
    assert a / NENTRIES <= v / NENTRIES;
    if a < v {
      assert (v - 1) / NENTRIES <= v / NENTRIES <= (v - 1) / NENTRIES + 1;
    }
  }

  /** The table of v was there, or is the one page that was taken. */
  lemma SpentOnTable(k: View, n: View, d: nat, v: nat)
    requires HasTable(n.mem, d, v / NENTRIES)
    requires forall j: nat {:trigger Pde(n.mem, d, j)} :: j != v / NENTRIES ==> Pde(n.mem, d, j) == Pde(k.mem, d, j)
    requires |k.free| == |n.free| + if HasTable(k.mem, d, v / NENTRIES) then 0 else 1
    ensures Spent(k, n, d, v, v + 1, 0)
  {
    assert LackingTables(k, d, v, v) == 0;
  }

  /** Writing an entry of a table of d adds no table. */
  lemma TablesKept(lo: nat, l: View, d: nat, i: nat, t: nat, x: Page)
    requires Good(lo, l) && IsDir(l.owner, d) && Present(Pde(l.mem, d, i)) && PageOf(Pde(l.mem, d, i)) == t < |l.mem|
    ensures forall j: nat {:trigger HasTable(l.mem[t := x], d, j)} :: HasTable(l.mem[t := x], d, j) == HasTable(l.mem, d, j)
  {
    assert l.owner[t] == Use(d, Table(i));
    assert forall j: nat :: Pde(l.mem[t := x], d, j) == Pde(l.mem, d, j);
  }

  lemma {:induction false} LackingGrows(k: View, d: nat, a: nat, b: nat, c: nat)
    requires b <= c
    ensures LackingTables(k, d, a, b) <= LackingTables(k, d, a, c)
    decreases c
  {
    if b < c {
      LackingGrows(k, d, a, b, c - 1);
    }
  }

  /** The tables of a, ..., v - 1 are there, and the list is empty before the one for v. */
  lemma NoTableFor(k: View, m: View, d: nat, a: nat, v: nat, last: nat)
    requires a <= v <= last && Spent(k, m, d, a, v, 0) && m.free == [] && !HasTable(m.mem, d, v / NENTRIES)
    ensures |k.free| < LackingTables(k, d, a, last + 1)
  {
    TableOfNext(a, v);
    LackingGrows(k, d, a, v + 1, last + 1);
  }

  /** Whatever was spent on a, ..., v - 1, the list is now empty, but for a page taken for v itself that
      lacks its table: the bill for the whole range was too high from the start. */
  lemma CannotPay(k: View, l: View, d: nat, a: nat, v: nat, b: nat)
    requires a <= v < b && Spent(k, l, d, a, v, v - a)
    requires l.free == [] || (|l.free| == 1 && !HasTable(l.mem, d, v / NENTRIES))
    ensures |k.free| < Bill(k, d, a, b)
  {
    TableOfNext(a, v);
    LackingGrows(k, d, a, v + 1, b);
  }

  /** Of the entries that serve a, ..., b - 1, those from c on have no table. */
  lemma {:induction false} LackingFrom(k: View, d: nat, a: nat, b: nat, c: nat)
    requires a < b && a / NENTRIES <= c
    requires forall i: nat :: Serves(i, a, b) ==> (HasTable(k.mem, d, i) <==> i < c)
    ensures LackingTables(k, d, a, b) == if (b - 1) / NENTRIES < c then 0 else (b - 1) / NENTRIES + 1 - c
    decreases b
  {
    var i := (b - 1) / NENTRIES;
    assert Serves(i, a, b);
    if a < b - 1 {
      TableOfNext(a, b - 1);
      LackingFrom(k, d, a, b - 1, c);
      assert (b - 2) / NENTRIES <= i <= (b - 2) / NENTRIES + 1;
      assert (b - 1) % NENTRIES == 0 <==> (b - 2) / NENTRIES < i;
    } else {
      assert LackingTables(k, d, a, a) == 0;
    }
  }
}
