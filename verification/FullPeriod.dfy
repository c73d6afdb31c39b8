/** The register of rand.c has full period: started anywhere but at 0 it goes through all 65535
    nonzero states before it repeats. Its output obeys a linear recurrence, so a jump of n steps is a
    polynomial in the single step, and jumps are put together by multiplying their polynomials
    modulo that of the recurrence, z^16 + z^5 + z^3 + z^2 + 1. States and polynomials are both
    words of sixteen bits, lowest first. */
module FullPeriod {
  import opened Rand

  datatype Nib = Nib(b0: bool, b1: bool, b2: bool, b3: bool)
  datatype Word = Word(n0: Nib, n1: Nib, n2: Nib, n3: Nib)

  // ---- the register ----

  function Down(n: Nib, next: bool): (m: Nib) { Nib(n.b1, n.b2, n.b3, next) }

  function Fed(v: Word): (b: bool) { v.n0.b0 != (v.n0.b2 != (v.n0.b3 != v.n1.b1)) }

  /** rand, bit by bit. */
  function Shift(v: Word): (w: Word) {
    Word(Down(v.n0, v.n1.b0), Down(v.n1, v.n2.b0), Down(v.n2, v.n3.b0), Down(v.n3, Fed(v)))
  }

  function Iter(v: Word, n: nat): (w: Word)
    decreases n
  {
    if n == 0 then v else Shift(Iter(v, n - 1))
  }

  lemma {:induction false} IterPlus(v: Word, m: nat, n: nat)
    ensures Iter(v, m + n) == Iter(Iter(v, m), n)
    decreases n
  {
    if n > 0 {
      IterPlus(v, m, n - 1);
    }
  }

  function Four(v: Word): (w: Word) { Shift(Shift(Shift(Shift(v)))) }

  // ---- polynomials, and their values on a state ----

  function PlusNib(a: Nib, b: Nib): (c: Nib) { Nib(a.b0 != b.b0, a.b1 != b.b1, a.b2 != b.b2, a.b3 != b.b3) }

  function Plus(a: Word, b: Word): (c: Word) {
    Word(PlusNib(a.n0, b.n0), PlusNib(a.n1, b.n1), PlusNib(a.n2, b.n2), PlusNib(a.n3, b.n3))
  }

  function Up(carry: bool, n: Nib): (m: Nib) { Nib(carry, n.b0, n.b1, n.b2) }

  /** Times z, before reduction. */
  function Raised(r: Word): (s: Word) { Word(Up(false, r.n0), Up(r.n0.b3, r.n1), Up(r.n1.b3, r.n2), Up(r.n2.b3, r.n3)) }

  const NONE: Nib := Nib(false, false, false, false)
  const ZERO: Word := Word(NONE, NONE, NONE, NONE)
  const ONE: Word := Word(Nib(true, false, false, false), NONE, NONE, NONE)

  /** What z^16 comes to. */
  const LOW: Word := Word(Nib(true, false, true, true), Nib(false, true, false, false), NONE, NONE)

  function TimesZ(r: Word): (s: Word) { if r.n3.b3 then Plus(Raised(r), LOW) else Raised(r) }

  /** x plus the products of the bits of a and v, modulo 2. */
  predicate Dot(x: bool, a: Nib, v: Nib) {
    (((x != (a.b0 && v.b0)) != (a.b1 && v.b1)) != (a.b2 && v.b2)) != (a.b3 && v.b3)
  }

  predicate Val(a: Word, v: Word) { Dot(Dot(Dot(Dot(false, a.n0, v.n0), a.n1, v.n1), a.n2, v.n2), a.n3, v.n3) }

  lemma DotPlus(x: bool, y: bool, a: Nib, b: Nib, v: Nib)
    ensures Dot(x != y, PlusNib(a, b), v) <==> (Dot(x, a, v) != Dot(y, b, v))
  {
  }

  lemma PlusVal(a: Word, b: Word, v: Word)
    ensures Val(Plus(a, b), v) <==> (Val(a, v) != Val(b, v))
  {
    var x0, y0 := Dot(false, a.n0, v.n0), Dot(false, b.n0, v.n0);
    var x1, y1 := Dot(x0, a.n1, v.n1), Dot(y0, b.n1, v.n1);
    var x2, y2 := Dot(x1, a.n2, v.n2), Dot(y1, b.n2, v.n2);
    DotPlus(false, false, a.n0, b.n0, v.n0);
    DotPlus(x0, y0, a.n1, b.n1, v.n1);
    DotPlus(x1, y1, a.n2, b.n2, v.n2);
    DotPlus(x2, y2, a.n3, b.n3, v.n3);
  }

  lemma DotUp(x: bool, y: bool, carry: bool, r: Nib, v: Nib, next: bool)
    requires x <==> (y != (carry && v.b0))
    ensures Dot(y, Up(carry, r), v) <==> (Dot(x, r, Down(v, next)) != (r.b3 && next))
  {
  }

  lemma RaisedVal(r: Word, v: Word)
    ensures Val(Raised(r), v) <==> (Val(r, Shift(v)) != (r.n3.b3 && Fed(v)))
  {
    var s, w := Raised(r), Shift(v);
    var x0, y0 := Dot(false, r.n0, w.n0), Dot(false, s.n0, v.n0);
    var x1, y1 := Dot(x0, r.n1, w.n1), Dot(y0, s.n1, v.n1);
    var x2, y2 := Dot(x1, r.n2, w.n2), Dot(y1, s.n2, v.n2);
    DotUp(false, false, false, r.n0, v.n0, v.n1.b0);
    DotUp(x0, y0, r.n0.b3, r.n1, v.n1, v.n2.b0);
    DotUp(x1, y1, r.n1.b3, r.n2, v.n2, v.n3.b0);
    DotUp(x2, y2, r.n2.b3, r.n3, v.n3, Fed(v));
  }

  lemma LowVal(v: Word)
    ensures Val(LOW, v) <==> Fed(v)
  {
  }

  /** Multiplying by z is looking one step ahead. */
  lemma TimesVal(r: Word, v: Word)
    ensures Val(TimesZ(r), v) <==> Val(r, Shift(v))
  {
    RaisedVal(r, v);
    PlusVal(Raised(r), LOW, v);
    LowVal(v);
  }

  function Term(x: bool, b: Word, m: Word): (c: Word) { if x then Plus(b, TimesZ(m)) else TimesZ(m) }

  function MulNib(a: Nib, b: Word, m: Word): (c: Word) {
    Term(a.b0, b, Term(a.b1, b, Term(a.b2, b, Term(a.b3, b, m))))
  }

  /** The product, by Horner's rule. */
  function Mul(a: Word, b: Word): (c: Word) {
    MulNib(a.n0, b, MulNib(a.n1, b, MulNib(a.n2, b, MulNib(a.n3, b, ZERO))))
  }

  lemma TermVal(x: bool, b: Word, m: Word, v: Word)
    ensures Val(Term(x, b, m), v) <==> ((x && Val(b, v)) != Val(m, Shift(v)))
  {
    TimesVal(m, v);
    PlusVal(b, TimesZ(m), v);
  }

  /** w shows the values of b on four states in a row. */
  predicate Shows(b: Word, v: Word, w: Nib) {
    && w.b0 == Val(b, v) && w.b1 == Val(b, Shift(v)) && w.b2 == Val(b, Shift(Shift(v)))
    && w.b3 == Val(b, Shift(Shift(Shift(v))))
  }

  lemma MulNibVal(x: bool, a: Nib, b: Word, m: Word, v: Word, w: Nib)
    requires Shows(b, v, w)
    ensures (x != Val(MulNib(a, b, m), v)) <==> (Dot(x, a, w) != Val(m, Four(v)))
  {
    var v1, v2, v3 := Shift(v), Shift(Shift(v)), Shift(Shift(Shift(v)));
    var m3 := Term(a.b3, b, m);
    var m2 := Term(a.b2, b, m3);
    var m1 := Term(a.b1, b, m2);
    TermVal(a.b0, b, m1, v);
    TermVal(a.b1, b, m2, v1);
    TermVal(a.b2, b, m3, v2);
    TermVal(a.b3, b, m, v3);
  }

  lemma MulVal(a: Word, b: Word, v: Word, w: Word)
    requires Shows(b, v, w.n0) && Shows(b, Four(v), w.n1) && Shows(b, Four(Four(v)), w.n2)
    requires Shows(b, Four(Four(Four(v))), w.n3)
    ensures Val(Mul(a, b), v) <==> Val(a, w)
  {
    var m3 := MulNib(a.n3, b, ZERO);
    var m2 := MulNib(a.n2, b, m3);
    var m1 := MulNib(a.n1, b, m2);
    var x0 := Dot(false, a.n0, w.n0);
    var x1 := Dot(x0, a.n1, w.n1);
    var x2 := Dot(x1, a.n2, w.n2);
    MulNibVal(false, a.n0, b, m1, v, w.n0);
    MulNibVal(x0, a.n1, b, m2, Four(v), w.n1);
    MulNibVal(x1, a.n2, b, m3, Four(Four(v)), w.n2);
    MulNibVal(x2, a.n3, b, ZERO, Four(Four(Four(v))), w.n3);
    ZeroVal(Four(Four(Four(Four(v)))));
  }

  lemma ZeroVal(v: Word)
    ensures !Val(ZERO, v)
  {
  }

  // ---- jumps ----

  /** The output n steps ahead is the value of r. */
  ghost predicate Jump(n: nat, r: Word) { forall v: Word :: Iter(v, n).n0.b0 == Val(r, v) }

  lemma {:induction false} ShiftIter(v: Word, n: nat)
    ensures Shift(Iter(v, n)) == Iter(Shift(v), n)
    decreases n
  {
    if n > 0 {
      ShiftIter(v, n - 1);
    }
  }

  lemma FourIter(v: Word, n: nat)
    ensures Four(Iter(v, n)) == Iter(Four(v), n)
  {
    ShiftIter(v, n);
    ShiftIter(Shift(v), n);
    ShiftIter(Shift(Shift(v)), n);
    ShiftIter(Shift(Shift(Shift(v))), n);
  }

  lemma JumpShows(n: nat, r: Word, v: Word)
    requires Jump(n, r)
    ensures Shows(r, v, Iter(v, n).n0)
  {
    var w := Iter(v, n);
    ShiftIter(v, n);
    ShiftIter(Shift(v), n);
    ShiftIter(Shift(Shift(v)), n);
    assert w.n0.b1 == Iter(Shift(v), n).n0.b0;
    assert w.n0.b2 == Iter(Shift(Shift(v)), n).n0.b0;
    assert w.n0.b3 == Iter(Shift(Shift(Shift(v))), n).n0.b0;
  }

  lemma FourMoves(w: Word)
    ensures Four(w).n0 == w.n1 && Four(w).n1 == w.n2 && Four(w).n2 == w.n3
  {
  }

  /** The whole state n steps ahead shows r on sixteen states in a row. */
  lemma JumpWindow(n: nat, r: Word, v: Word)
    requires Jump(n, r)
    ensures var w := Iter(v, n);
            && Shows(r, v, w.n0) && Shows(r, Four(v), w.n1) && Shows(r, Four(Four(v)), w.n2)
            && Shows(r, Four(Four(Four(v))), w.n3)
  {
    var w := Iter(v, n);
    FourIter(v, n);
    FourIter(Four(v), n);
    FourIter(Four(Four(v)), n);
    FourMoves(w);
    FourMoves(Four(w));
    FourMoves(Four(Four(w)));
    JumpShows(n, r, v);
    JumpShows(n, r, Four(v));
    JumpShows(n, r, Four(Four(v)));
    JumpShows(n, r, Four(Four(Four(v))));
  }

  /** Two jumps in a row. */
  lemma JumpPlus(m: nat, a: Word, n: nat, b: Word)
    requires Jump(m, a) && Jump(n, b)
    ensures Jump(n + m, Mul(a, b))
  {
    forall v: Word
      ensures Iter(v, n + m).n0.b0 == Val(Mul(a, b), v)
    {
      IterPlus(v, n, m);
      JumpWindow(n, b, v);
      MulVal(a, b, v, Iter(v, n));
    }
  }

  /** A jump with the polynomial 1 leads back. */
  lemma JumpBack(n: nat, v: Word)
    requires Jump(n, ONE)
    ensures Iter(v, n) == v
  {
    JumpWindow(n, ONE, v);
    FourMoves(v);
    FourMoves(Four(v));
    FourMoves(Four(Four(v)));
  }

  // ---- states that a jump does not move ----

  /** Such a state gives 0 to the polynomial of the jump less 1. */
  lemma FixedVal(n: nat, r: Word, v: Word)
    requires Jump(n, r) && Iter(v, n) == v
    ensures !Val(Plus(r, ONE), v) && Iter(Shift(v), n) == Shift(v)
  {
    PlusVal(r, ONE, v);
    ShiftIter(v, n);
  }

  lemma FixedShows(n: nat, r: Word, v: Word)
    requires Jump(n, r) && Iter(v, n) == v
    ensures Shows(Plus(r, ONE), v, NONE) && Iter(Four(v), n) == Four(v)
  {
    FixedVal(n, r, v);
    FixedVal(n, r, Shift(v));
    FixedVal(n, r, Shift(Shift(v)));
    FixedVal(n, r, Shift(Shift(Shift(v))));
  }

  /** So if that polynomial has an inverse, t, the state's lowest bit is 0. */
  lemma FixedBit(n: nat, r: Word, t: Word, v: Word)
    requires Jump(n, r) && Iter(v, n) == v && Mul(t, Plus(r, ONE)) == ONE
    ensures !v.n0.b0
  {
    FixedShows(n, r, v);
    FixedShows(n, r, Four(v));
    FixedShows(n, r, Four(Four(v)));
    FixedShows(n, r, Four(Four(Four(v))));
    MulVal(t, Plus(r, ONE), v, ZERO);
    assert !Val(t, ZERO);
    assert Val(ONE, v) == v.n0.b0;
  }

  lemma FixedNib(n: nat, r: Word, t: Word, v: Word)
    requires Jump(n, r) && Iter(v, n) == v && Mul(t, Plus(r, ONE)) == ONE
    ensures v.n0 == NONE && Iter(Four(v), n) == Four(v)
  {
    FixedShows(n, r, v);
    FixedVal(n, r, v);
    FixedVal(n, r, Shift(v));
    FixedVal(n, r, Shift(Shift(v)));
    FixedBit(n, r, t, v);
    FixedBit(n, r, t, Shift(v));
    FixedBit(n, r, t, Shift(Shift(v)));
    FixedBit(n, r, t, Shift(Shift(Shift(v))));
  }

  /** And so are the others. */
  lemma OnlyZeroStays(n: nat, r: Word, t: Word, v: Word)
    requires Jump(n, r) && Iter(v, n) == v && Mul(t, Plus(r, ONE)) == ONE
    ensures v == ZERO
  {
    FixedNib(n, r, t, v);
    FixedNib(n, r, t, Four(v));
    FixedNib(n, r, t, Four(Four(v)));
    FixedNib(n, r, t, Four(Four(Four(v))));
    FourMoves(v);
    FourMoves(Four(v));
    FourMoves(Four(Four(v)));
  }

  // ---- the jumps that decide the period ----

  lemma Step(m: nat, a: Word, n: nat, b: Word, c: Word)
    requires Jump(m, a) && Jump(n, b) && Mul(a, b) == c
    ensures Jump(m + n, c)
  {
    JumpPlus(m, a, n, b);
  }

  /** The sixteen hexadecimal digits. */
  const H0: Nib := Nib(false, false, false, false)
  const H1: Nib := Nib(true, false, false, false)
  const H2: Nib := Nib(false, true, false, false)
  const H3: Nib := Nib(true, true, false, false)
  const H4: Nib := Nib(false, false, true, false)
  const H5: Nib := Nib(true, false, true, false)
  const H6: Nib := Nib(false, true, true, false)
  const H7: Nib := Nib(true, true, true, false)
  const H8: Nib := Nib(false, false, false, true)
  const H9: Nib := Nib(true, false, false, true)
  const HA: Nib := Nib(false, true, false, true)
  const HB: Nib := Nib(true, true, false, true)
  const HC: Nib := Nib(false, false, true, true)
  const HD: Nib := Nib(true, false, true, true)
  const HE: Nib := Nib(false, true, true, true)
  const HF: Nib := Nib(true, true, true, true)

  /** The polynomials of the jumps by their length. */
  const Z1: Word := Word(H2, H0, H0, H0)
  const Z2: Word := Word(H4, H0, H0, H0)
  const Z4: Word := Word(H0, H1, H0, H0)
  const Z8: Word := Word(H0, H0, H1, H0)
  const Z16: Word := Word(HD, H2, H0, H0)
  const Z32: Word := Word(H1, H5, H4, H0)
  const Z64: Word := Word(H1, HD, H3, H1)
  const Z128: Word := Word(H8, H9, HC, H7)
  const Z256: Word := Word(HA, H8, H1, H0)
  const Z257: Word := Word(H4, H1, H3, H0)
  const Z514: Word := Word(H9, H8, H1, H0)
  const Z771: Word := Word(HE, HE, H5, H8)
  const Z1542: Word := Word(H6, HB, H7, H1)
  const Z3084: Word := Word(HD, H5, HA, H6)
  const Z3855: Word := Word(H4, HB, HC, HA)
  const Z6168: Word := Word(HF, HF, HE, H7)
  const Z12336: Word := Word(HB, H2, H5, H1)
  const Z13107: Word := Word(HA, HF, H6, H8)
  const Z4369: Word := Word(HF, H0, HC, H3)
  const Z8738: Word := Word(H5, HC, H0, H9)
  const Z21845: Word := Word(HA, HC, HC, HA)
  const Z43690: Word := Word(HB, HC, HC, HA)
  const Z65535: Word := Word(H1, H0, H0, H0)
  const Z3: Word := Word(H8, H0, H0, H0)
  const Z6: Word := Word(H0, H4, H0, H0)
  const Z12: Word := Word(H0, H0, H0, H1)
  const Z15: Word := Word(H0, H0, H0, H8)
  const Z30: Word := Word(HF, H1, H1, H4)
  const Z60: Word := Word(H2, H2, H1, HD)
  const Z120: Word := Word(HC, H6, H8, HB)
  const Z240: Word := Word(HF, H0, H7, HC)
  const Z255: Word := Word(H5, HC, H0, H0)

  lemma Jump1()
    ensures Jump(1, Z1)
  {
  }

  lemma Jump2()
    ensures Jump(2, Z2)
  {
    Jump1();
    Step(1, Z1, 1, Z1, Z2);
  }

  lemma Jump4()
    ensures Jump(4, Z4)
  {
    Jump2();
    Step(2, Z2, 2, Z2, Z4);
  }

  lemma Jump8()
    ensures Jump(8, Z8)
  {
    Jump4();
    Step(4, Z4, 4, Z4, Z8);
  }

  lemma Jump16()
    ensures Jump(16, Z16)
  {
    Jump8();
    Step(8, Z8, 8, Z8, Z16);
  }

  lemma Jump32()
    ensures Jump(32, Z32)
  {
    Jump16();
    Step(16, Z16, 16, Z16, Z32);
  }

  lemma Jump64()
    ensures Jump(64, Z64)
  {
    Jump32();
    Step(32, Z32, 32, Z32, Z64);
  }

  lemma Jump128()
    ensures Jump(128, Z128)
  {
    Jump64();
    Step(64, Z64, 64, Z64, Z128);
  }

  lemma Jump256()
    ensures Jump(256, Z256)
  {
    Jump128();
    Step(128, Z128, 128, Z128, Z256);
  }

  lemma Jump257()
    ensures Jump(257, Z257)
  {
    Jump1();
    Jump256();
    Step(1, Z1, 256, Z256, Z257);
  }

  lemma Jump514()
    ensures Jump(514, Z514)
  {
    Jump257();
    Step(257, Z257, 257, Z257, Z514);
  }

  lemma Jump771()
    ensures Jump(771, Z771)
  {
    Jump257();
    Jump514();
    Step(257, Z257, 514, Z514, Z771);
  }

  lemma Jump1542()
    ensures Jump(1542, Z1542)
  {
    Jump771();
    Step(771, Z771, 771, Z771, Z1542);
  }

  lemma Jump3084()
    ensures Jump(3084, Z3084)
  {
    Jump1542();
    Step(1542, Z1542, 1542, Z1542, Z3084);
  }

  lemma Jump3855()
    ensures Jump(3855, Z3855)
  {
    Jump771();
    Jump3084();
    Step(771, Z771, 3084, Z3084, Z3855);
  }

  lemma Jump6168()
    ensures Jump(6168, Z6168)
  {
    Jump3084();
    Step(3084, Z3084, 3084, Z3084, Z6168);
  }

  lemma Jump12336()
    ensures Jump(12336, Z12336)
  {
    Jump6168();
    Step(6168, Z6168, 6168, Z6168, Z12336);
  }

  lemma Jump13107()
    ensures Jump(13107, Z13107)
  {
    Jump771();
    Jump12336();
    Step(771, Z771, 12336, Z12336, Z13107);
  }

  lemma Jump4369()
    ensures Jump(4369, Z4369)
  {
    Jump514();
    Jump3855();
    Step(514, Z514, 3855, Z3855, Z4369);
  }

  lemma Jump8738()
    ensures Jump(8738, Z8738)
  {
    Jump4369();
    Step(4369, Z4369, 4369, Z4369, Z8738);
  }

  lemma Jump21845()
    ensures Jump(21845, Z21845)
  {
    Jump8738();
    Jump13107();
    Step(8738, Z8738, 13107, Z13107, Z21845);
  }

  lemma Jump43690()
    ensures Jump(43690, Z43690)
  {
    Jump21845();
    Step(21845, Z21845, 21845, Z21845, Z43690);
  }

  lemma Jump65535()
    ensures Jump(65535, Z65535)
  {
    Jump21845();
    Jump43690();
    Step(21845, Z21845, 43690, Z43690, Z65535);
  }

  lemma Jump3()
    ensures Jump(3, Z3)
  {
    Jump1();
    Jump2();
    Step(1, Z1, 2, Z2, Z3);
  }

  lemma Jump6()
    ensures Jump(6, Z6)
  {
    Jump3();
    Step(3, Z3, 3, Z3, Z6);
  }

  lemma Jump12()
    ensures Jump(12, Z12)
  {
    Jump6();
    Step(6, Z6, 6, Z6, Z12);
  }

  lemma Jump15()
    ensures Jump(15, Z15)
  {
    Jump3();
    Jump12();
    Step(3, Z3, 12, Z12, Z15);
  }

  lemma Jump30()
    ensures Jump(30, Z30)
  {
    Jump15();
    Step(15, Z15, 15, Z15, Z30);
  }

  lemma Jump60()
    ensures Jump(60, Z60)
  {
    Jump30();
    Step(30, Z30, 30, Z30, Z60);
  }

  lemma Jump120()
    ensures Jump(120, Z120)
  {
    Jump60();
    Step(60, Z60, 60, Z60, Z120);
  }

  lemma Jump240()
    ensures Jump(240, Z240)
  {
    Jump120();
    Step(120, Z120, 120, Z120, Z240);
  }

  lemma Jump255()
    ensures Jump(255, Z255)
  {
    Jump15();
    Jump240();
    Step(15, Z15, 240, Z240, Z255);
  }

  lemma Moves255(v: Word)
    requires v != ZERO
    ensures Iter(v, 255) != v
  {
    Jump255();
    if Iter(v, 255) == v {
      OnlyZeroStays(255, Z255, Word(H0, H7, HA, HA), v);
    }
  }

  lemma Moves3855(v: Word)
    requires v != ZERO
    ensures Iter(v, 3855) != v
  {
    Jump3855();
    if Iter(v, 3855) == v {
      OnlyZeroStays(3855, Z3855, Word(H7, H7, HF, H7), v);
    }
  }

  lemma Moves13107(v: Word)
    requires v != ZERO
    ensures Iter(v, 13107) != v
  {
    Jump13107();
    if Iter(v, 13107) == v {
      OnlyZeroStays(13107, Z13107, Word(HF, H0, HC, H3), v);
    }
  }

  lemma Moves21845(v: Word)
    requires v != ZERO
    ensures Iter(v, 21845) != v
  {
    Jump21845();
    if Iter(v, 21845) == v {
      OnlyZeroStays(21845, Z21845, Word(HA, HC, HC, HA), v);
    }
  }

  lemma FullCircle(v: Word)
    ensures Iter(v, 65535) == v
  {
    Jump65535();
    JumpBack(65535, v);
  }

  // ---- periods ----

  /** Periods can be subtracted, so their greatest common divisor is one. */
  lemma {:induction false} CommonPeriod(v: Word, a: nat, b: nat) returns (g: nat, p: nat, q: nat)
    requires 0 < a && 0 < b && Iter(v, a) == v && Iter(v, b) == v
    ensures 0 < g && a == p * g && b == q * g && Iter(v, g) == v
    decreases a + b
  {
    if a == b {
      g, p, q := a, 1, 1;
    } else if a < b {
      IterPlus(v, a, b - a);
      g, p, q := CommonPeriod(v, a, b - a);
      assert b == p * g + q * g == (p + q) * g;
      q := p + q;
    } else {
      IterPlus(v, b, a - b);
      g, p, q := CommonPeriod(v, a - b, b);
      assert a == p * g + q * g == (p + q) * g;
      p := p + q;
    }
  }

  lemma {:induction false} ManyTimes(v: Word, g: nat, k: nat)
    requires Iter(v, g) == v
    ensures Iter(v, k * g) == v
    decreases k
  {
    if k > 0 {
      ManyTimes(v, g, k - 1);
      assert k * g == (k - 1) * g + g;
      IterPlus(v, (k - 1) * g, g);
    } else {
      assert k * g == 0;
    }
  }

  lemma UnitModulo(p: nat, m: nat, s: nat) returns (u: nat)
    requires p > 1 && (s * (m % p)) % p == 1
    ensures s * m == p * u + 1
  {
    var a, r := m / p, m % p;
    var k := s * r / p;
    u := s * a + k;
    calc {
      s * m;
      s * (p * a + r);
      s * (p * a) + s * r;
      { assert s * r == p * k + 1; }
      s * (p * a) + p * k + 1;
      { assert s * (p * a) == p * (s * a); }
      p * (s * a) + p * k + 1;
      p * u + 1;
    }
  }

  /** If s is the inverse of m modulo p, and p divides m * g, it divides g. */
  lemma OtherMultiple(p: nat, m: nat, g: nat, n: nat, s: nat) returns (h: nat)
    requires p > 1 && m * g == p * n && (s * (m % p)) % p == 1
    ensures g == p * h
  {
    var u := UnitModulo(p, m, s);
    calc {
      p * (s * n);
      s * (p * n);
      s * (m * g);
      (s * m) * g;
      (p * u + 1) * g;
      (p * u) * g + g;
      p * (u * g) + g;
    }
    h := Difference(p, s * n, u * g, g);
  }

  lemma Ordered(a: nat, b: nat, c: nat)
    ensures a <= b ==> a * c <= b * c && c * a <= c * b
  {
    if a <= b {
      assert b * c == a * c + (b - a) * c;
    }
  }

  lemma Difference(p: nat, a: nat, b: nat, g: nat) returns (h: nat)
    requires p > 1 && p * a == p * b + g
    ensures g == p * h
  {
    Ordered(a + 1, b, p);
    h := a - b;
    assert p * a == p * b + p * h;
  }

  const INVERSE17: seq<nat> := [0, 1, 9, 6, 13, 7, 3, 5, 15, 2, 12, 14, 10, 4, 11, 8, 16]

  lemma Inverse17(r: nat)
    requires 0 < r < 17
    ensures (INVERSE17[r] * r) % 17 == 1
  {
  }

  const INVERSE5: seq<nat> := [0, 1, 3, 2, 4]

  lemma Inverse5(r: nat)
    requires 0 < r < 5
    ensures (INVERSE5[r] * r) % 5 == 1
  {
  }

  lemma NoFactor(a: nat, b: nat)
    requires 2 <= a <= 16
    ensures a * b != 257
  {
    assert 257 % a != 0;
    assert (a * b) % a == 0;
  }

  lemma Prime257(m: nat, g: nat)
    requires m * g == 257 && m > 1
    ensures g == 1
  {
    Ordered(g, 0, m);
    Ordered(17, g, m);
    Ordered(17, m, 17);
    if m <= 16 {
      NoFactor(m, g);
    } else if 2 <= g <= 16 {
      NoFactor(g, m);
    }
  }

  /** A divisor other than 17 * 257 itself divides 17 or 257. */
  lemma DivisorOf4369(m: nat, g: nat) returns (q: nat, k: nat)
    requires m * g == 4369 && m > 1
    ensures (q == 17 || q == 257) && q == k * g
  {
    if m % 17 == 0 {
      q, k := 257, m / 17;
      assert (17 * k) * g == 17 * (k * g);
    } else {
      Inverse17(m % 17);
      var h := OtherMultiple(17, m, g, 257, INVERSE17[m % 17]);
      assert m * (17 * h) == 17 * (m * h);
      Prime257(m, h);
      q, k := 17, 1;
    }
  }

  lemma DivisorOf21845(m: nat, g: nat) returns (q: nat, k: nat)
    requires m * g == 21845 && m > 1
    ensures (q == 85 || q == 1285 || q == 4369) && q == k * g
  {
    if m % 5 == 0 {
      q, k := 4369, m / 5;
      assert (5 * k) * g == 5 * (k * g);
    } else {
      Inverse5(m % 5);
      var h := OtherMultiple(5, m, g, 4369, INVERSE5[m % 5]);
      assert m * (5 * h) == 5 * (m * h);
      q, k := DivisorOf4369(m, h);
      q := 5 * q;
      assert k * (5 * h) == 5 * (k * h);
    }
  }

  /** 65535 is 3 * 5 * 17 * 257, so a divisor other than itself divides 65535 over one of these. */
  lemma DivisorOf65535(m: nat, g: nat) returns (q: nat, k: nat)
    requires m * g == 65535 && m > 1
    ensures (q == 255 || q == 3855 || q == 13107 || q == 21845) && q == k * g
  {
    if m % 3 == 0 {
      q, k := 21845, m / 3;
      assert (3 * k) * g == 3 * (k * g);
    } else {
      var h := OtherMultiple(3, m, g, 21845, m % 3);
      assert m * (3 * h) == 3 * (m * h);
      q, k := DivisorOf21845(m, h);
      q := 3 * q;
      assert k * (3 * h) == 3 * (k * h);
    }
  }

  lemma SeveralTimes(p: nat, m: nat, g: nat)
    requires p * g < m * g
    ensures p < m
  {
    Ordered(m, p, g);
  }

  lemma Moves(v: Word, n: nat)
    requires v != ZERO && (n == 255 || n == 3855 || n == 13107 || n == 21845)
    ensures Iter(v, n) != v
  {
    if n == 255 {
      Moves255(v);
    } else if n == 3855 {
      Moves3855(v);
    } else if n == 13107 {
      Moves13107(v);
    } else {
      Moves21845(v);
    }
  }

  /** No state but 0 comes back before 65535 steps. */
  lemma NoShorterPeriod(v: Word, n: nat, all: nat)
    requires v != ZERO && 0 < n < all == 65535
    ensures Iter(v, n) != v
  {
    if Iter(v, n) == v {
      FullCircle(v);
      var g, p, m := CommonPeriod(v, n, all);
      SeveralTimes(p, m, g);
      Ordered(p, 0, g);
      var q, k := DivisorOf65535(m, g);
      ManyTimes(v, g, k);
      Moves(v, q);
    }
  }

  // ---- the register as a number ----

  function Num1(b: bool): (n: nat) { if b then 1 else 0 }

  function NumNib(n: Nib): (x: nat)
    ensures x < 16
  {
    Num1(n.b0) + 2 * Num1(n.b1) + 4 * Num1(n.b2) + 8 * Num1(n.b3)
  }

  function Num(v: Word): (x: nat)
    ensures x < RANGE
  {
    NumNib(v.n0) + 16 * NumNib(v.n1) + 256 * NumNib(v.n2) + 4096 * NumNib(v.n3)
  }

  function NibOf(x: nat): (n: Nib) { Nib(x % 2 == 1, x / 2 % 2 == 1, x / 4 % 2 == 1, x / 8 % 2 == 1) }

  lemma NibOfNum(x: nat)
    requires x < 16
    ensures NumNib(NibOf(x)) == x
  {
  }

  /** Every number of sixteen bits is that of a word. */
  lemma WordOf(x: nat) returns (v: Word)
    requires x < RANGE
    ensures Num(v) == x && (x > 0 ==> v != ZERO)
  {
    var y := x / 16;
    var z := y / 16;
    v := Word(NibOf(x % 16), NibOf(y % 16), NibOf(z % 16), NibOf(z / 16));
    NibOfNum(x % 16);
    NibOfNum(y % 16);
    NibOfNum(z % 16);
    NibOfNum(z / 16);
    assert Num(ZERO) == 0;
  }

  lemma DownNum(n: Nib, next: bool)
    ensures 2 * NumNib(Down(n, next)) == NumNib(n) - Num1(n.b0) + 16 * Num1(next)
  {
  }

  /** The shift halves the number and puts the new bit at its top. */
  lemma ShiftNum(v: Word)
    ensures 2 * Num(Shift(v)) == Num(v) - Num1(v.n0.b0) + RANGE * Num1(Fed(v))
  {
    DownNum(v.n0, v.n1.b0);
    DownNum(v.n1, v.n2.b0);
    DownNum(v.n2, v.n3.b0);
    DownNum(v.n3, Fed(v));
  }

  lemma FeedbackNum(v: Word)
    ensures Feedback(Num(v)) == Num1(Fed(v)) && Num(v) % 2 == Num1(v.n0.b0)
  {
    var x, h := Num(v), NumNib(v.n1) + 16 * NumNib(v.n2) + 256 * NumNib(v.n3);
    Quarters(v.n0, x, h);
    assert x / 32 == h / 2;
    var g := Num1(v.n1.b2) + 2 * Num1(v.n1.b3) + 4 * NumNib(v.n2) + 64 * NumNib(v.n3);
    assert h / 2 == Num1(v.n1.b1) + 2 * g;
    SumParity(v.n0.b0, x / 2, v.n0.b2, Num1(v.n0.b3) + 2 * h, v.n0.b3, h, v.n1.b1, g);
  }

  lemma SumParity(p: bool, a: nat, q: bool, b: nat, r: bool, c: nat, s: bool, d: nat)
    ensures (Num1(p) + 2 * a + (Num1(q) + 2 * b) + (Num1(r) + 2 * c) + (Num1(s) + 2 * d)) % 2 == Num1(p != (q != (r != s)))
  {
  }

  lemma Quarters(n: Nib, x: nat, h: nat)
    requires x == NumNib(n) + 16 * h
    ensures x / 4 == Num1(n.b2) + 2 * (Num1(n.b3) + 2 * h) && x / 8 == Num1(n.b3) + 2 * h && x % 2 == Num1(n.b0)
  {
  }

  lemma NextIsShift(v: Word)
    ensures NextState(Num(v)) == Num(Shift(v))
  {
    ShiftNum(v);
    FeedbackNum(v);
  }

  lemma {:induction false} DrawIsIter(v: Word, n: nat)
    ensures Draw(Num(v), n) == Num(Iter(v, n))
    decreases n
  {
    if n > 0 {
      DrawIsIter(v, n - 1);
      NextIsShift(Iter(v, n - 1));
    }
  }

  lemma NumInjective(v: Word, w: Word)
    requires Num(v) == Num(w)
    ensures v == w
  {
    NibInjective(v.n0, w.n0);
    NibInjective(v.n1, w.n1);
    NibInjective(v.n2, w.n2);
    NibInjective(v.n3, w.n3);
  }

  lemma NibInjective(m: Nib, n: Nib)
    ensures NumNib(m) == NumNib(n) ==> m == n
  {
  }

  /** Started anywhere but at 0, the register comes back to where it was after 65535 draws, and not
      before. */
  lemma FullPeriod(x: nat, n: nat, all: nat)
    requires 0 < x < RANGE && 0 < n <= all == 65535
    ensures Draw(x, n) == x <==> n == all
  {
    var v := WordOf(x);
    DrawIsIter(v, n);
    if n == all {
      FullCircle(v);
    } else {
      NoShorterPeriod(v, n, all);
      if Draw(x, n) == x {
        NumInjective(Iter(v, n), v);
      }
    }
  }
}
