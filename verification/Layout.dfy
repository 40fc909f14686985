/**
  32-bit words, the bitwise operators the macros of kernel/paging.h are written with,
  and the address arithmetic those macros compute.
 */
module Layout {

  const WORDS := 0x1_0000_0000
  type Word = x: int | 0 <= x < 0x1_0000_0000

  const PGSIZE := 4096
  const ENTRIES := 1024
  const KERNBASE: Word := 0x8000_0000
  const DEVSPACE: Word := 0xFE00_0000
  const DEVSIZE: Word := 0xF0_0000
  const PTE_P: Word := 1
  const PTE_W: Word := 2
  const PTE_U: Word := 4

  /** Number of 4096-byte pages in a 32-bit address space. */
  const PAGES := 0x10_0000
  /** Number of pages below KERNBASE. */
  const UPAGES := 0x8_0000
  /** Page-directory slots below KERNBASE. */
  const USLOTS := 512

  datatype Option<+T> = None | Some(value: T)

  /** How a kernel routine ends: it returns (Fail is the return value -1) or never comes back from panic(). */
  datatype Status = Ok | Fail | Panic(message: string)

  // Bitwise operators of C on unsigned integers.

  function Pow2(k: nat): (p: nat)
    ensures p > 0
  {
    if k == 0 then 1 else 2 * Pow2(k - 1)
  }

  function And(x: nat, y: nat): (r: nat)
    ensures r <= x && r <= y
  {
    if x == 0 || y == 0 then 0 else (if x % 2 == 1 && y % 2 == 1 then 1 else 0) + 2 * And(x / 2, y / 2)
  }

  function Or(x: nat, y: nat): (r: nat)
    ensures r >= x && r >= y
  {
    if x == 0 then y
    else if y == 0 then x
    else (if x % 2 == 1 || y % 2 == 1 then 1 else 0) + 2 * Or(x / 2, y / 2)
  }

  lemma AndDouble(x: nat, y: nat)
    ensures And(x, 2 * y) == 2 * And(x / 2, y)
    ensures And(x, 2 * y + 1) == x % 2 + 2 * And(x / 2, y)
  {
    assert (2 * y) / 2 == y && (2 * y) % 2 == 0;
    assert (2 * y + 1) / 2 == y && (2 * y + 1) % 2 == 1;
  }

  /** Masking with k low ones keeps the remainder modulo 2^k. */
  lemma {:induction false} AndLow(x: nat, k: nat)
    ensures And(x, Pow2(k) - 1) == x % Pow2(k)
  {
    if k > 0 {
      var p := Pow2(k - 1);
      AndLow(x / 2, k - 1);
      AndLowStep(x, p);
    }
  }

  lemma AndLowStep(x: nat, p: nat)
    requires p > 0 && And(x / 2, p - 1) == (x / 2) % p
    ensures And(x, 2 * p - 1) == x % (2 * p)
  {
    hide And;
    AndDouble(x, p - 1);
    assert 2 * (p - 1) + 1 == 2 * p - 1;
    HalfMod(x, p);
  }

  /** An n-bit word is the sum of its k low bits and the rest. */
  lemma {:induction false} AndHigh(x: nat, k: nat, n: nat)
    requires k <= n && x < Pow2(n)
    ensures Pow2(k) <= Pow2(n)
    ensures And(x, Pow2(n) - Pow2(k)) + And(x, Pow2(k) - 1) == x
  {
    hide And;
    if k == 0 {
      AndLow(x, n);
      ModUnique(x, Pow2(n), 0, x);
    } else {
      var p, q := Pow2(k - 1), Pow2(n - 1);
      assert Pow2(k) == 2 * p && Pow2(n) == 2 * q;
      AndHigh(x / 2, k - 1, n - 1);
      AndHighStep(x, p, q);
    }
  }

  lemma AndHighStep(x: nat, p: nat, q: nat)
    requires 0 < p <= q
    requires And(x / 2, q - p) + And(x / 2, p - 1) == x / 2
    ensures And(x, 2 * q - 2 * p) + And(x, 2 * p - 1) == x
  {
    hide And;
    AndDouble(x, q - p);
    AndDouble(x, p - 1);
    assert 2 * (q - p) == 2 * q - 2 * p && 2 * (p - 1) + 1 == 2 * p - 1;
  }

  lemma HalfMod(x: nat, m: nat)
    requires m > 0
    ensures x % (2 * m) == x % 2 + 2 * ((x / 2) % m)
  {
    var q, r := x / 2 / m, x / 2 % m;
    assert x == 2 * (q * m + r) + x % 2;
    assert x == (2 * m) * q + (2 * r + x % 2);
    ModUnique(x, 2 * m, q, 2 * r + x % 2);
  }

  lemma ModUnique(x: int, m: int, q: int, r: int)
    requires m > 0 && x == m * q + r && 0 <= r < m
    ensures x / m == q && x % m == r
  {
    var d := x / m - q;
    assert m * d == r - x % m;
    MulSize(m, d);
  }

  lemma MulSize(m: int, d: int)
    requires m > 0
    ensures d >= 1 ==> m * d >= m
    ensures d <= -1 ==> m * d <= -m
  {
  }

  /** Or works bit position by bit position: low operands leave the high part alone. */
  lemma {:induction false} OrSplit(p: nat, x: nat, y: nat, k: nat)
    requires p % Pow2(k) == 0 && x < Pow2(k) && y < Pow2(k)
    ensures Or(p + x, y) == p + Or(x, y)
  {
    if k > 0 {
      HalfMod(p, Pow2(k - 1));
      OrSplit(p / 2, x / 2, y / 2, k - 1);
      assert (p + x) / 2 == p / 2 + x / 2 && (p + x) % 2 == x % 2;
      OrHalf(p + x, y);
      OrHalf(x, y);
    }
  }

  lemma OrHalf(x: nat, y: nat)
    ensures Or(x, y) == (if x % 2 == 1 || y % 2 == 1 then 1 else 0) + 2 * Or(x / 2, y / 2)
  {
  }

  lemma {:induction false} OrBound(x: nat, y: nat, k: nat)
    requires x < Pow2(k) && y < Pow2(k)
    ensures Or(x, y) < Pow2(k)
  {
    if x != 0 && y != 0 {
      OrBound(x / 2, y / 2, k - 1);
    }
  }

  lemma OrZero(x: nat)
    ensures Or(0, x) == x
  {
  }

  lemma OrOne(x: nat)
    ensures Or(x, 1) == x + 1 - x % 2
  {
  }

  lemma Powers()
    ensures Pow2(1) == 2 && Pow2(10) == 1024 && Pow2(12) == PGSIZE && Pow2(22) == 0x40_0000 && Pow2(32) == WORDS
  {
    assert Pow2(4) == 16;
    assert Pow2(8) == 256;
    assert Pow2(12) == 4096;
    assert Pow2(16) == 0x1_0000;
    assert Pow2(20) == 0x10_0000;
    assert Pow2(24) == 0x100_0000;
    assert Pow2(28) == 0x1000_0000;
  }

  /** 32-bit unsigned arithmetic wraps around. */
  function Wrap(x: int): (w: Word) { x % 0x1_0000_0000 }

  /** a += PGSIZE */
  function NextPage(a: Word): (w: Word) { Wrap(a + PGSIZE) }

  // The macros, in arithmetic form.

  function Pdx(va: Word): (r: nat) { va / 0x40_0000 }
  function Ptx(va: Word): (r: nat) { va / PGSIZE % ENTRIES }
  function Vpn(va: Word): (r: nat) { va / PGSIZE }
  function PgRoundDown(a: Word): (r: Word) { a - a % PGSIZE }
  function PgRoundUp(a: Word): (r: Word) { PgRoundDown(Wrap(a + PGSIZE - 1)) }
  function V2P(v: Word): (r: Word) { Wrap(v - KERNBASE) }
  function P2V(p: Word): (r: Word) { Wrap(p + KERNBASE) }
  function PgAddr(d: nat, t: nat, o: nat): (r: Word) { Wrap(d * 0x40_0000 + t * PGSIZE + o) }

  predicate Present(w: Word) { w % 2 == 1 }
  predicate User(w: Word) { w / 4 % 2 == 1 }

  /** PTE_ADDR as a frame number. */
  function FrameOf(w: Word): (f: nat)
    ensures f < PAGES
  {
    w / PGSIZE
  }

  /** The entry walkpgdir stores for a new table. */
  function MakePde(pgtab: Word): (w: Word)
  {
    OrWord(V2P(pgtab), PTE_P);
    OrWord(Or(V2P(pgtab), PTE_P), PTE_W);
    OrWord(Or(Or(V2P(pgtab), PTE_P), PTE_W), PTE_U);
    Or(Or(Or(V2P(pgtab), PTE_P), PTE_W), PTE_U)
  }

  lemma MakePdeDecodes(f: nat)
    requires f < UPAGES
    ensures MakePde(KERNBASE + f * PGSIZE) == f * PGSIZE + 7
  {
    hide Or, Pow2;
    var p := f * PGSIZE;
    OrDisjointPage(p, PTE_P);
    SmallOrs();
    OrSplit(p, 1, PTE_W, 2);
    OrSplit(p, 3, PTE_U, 3);
  }

  lemma SmallOrs()
    ensures Pow2(2) == 4 && Pow2(3) == 8 && Or(1, 2) == 3 && Or(3, 4) == 7
  {
  }

  /** The entry mappages stores: pa | perm | PTE_P. */
  function MakePte(pa: Word, perm: Word): (w: Word)
  {
    OrWord(pa, perm);
    OrWord(Or(pa, perm), PTE_P);
    Or(Or(pa, perm), PTE_P)
  }

  lemma OrWord(x: Word, y: Word)
    ensures Or(x, y) < WORDS
  {
    Powers();
    OrBound(x, y, 32);
  }

  /** The index and flag macros, written with the shifts and masks of the header, compute their arithmetic forms. */
  lemma MacroForms(a: Word)
    ensures And(a / Pow2(22), 0x3FF) == Pdx(a)
    ensures And(a / Pow2(12), 0x3FF) == Ptx(a)
    ensures And(a, 0xFFF) == a - FrameOf(a) * PGSIZE
    ensures And(a, PTE_P) != 0 <==> Present(a)
  {
    hide And, Pow2;
    Powers();
    AndLow(a / 0x40_0000, 10);
    AndLow(a / PGSIZE, 10);
    AndLow(a, 12);
    AndLow(a, 1);
  }

  /** The rounding macros: the next multiple of 4096 below and above. */
  lemma RoundForms(a: Word)
    ensures And(a, WORDS - PGSIZE) == PgRoundDown(a) == FrameOf(a) * PGSIZE
    ensures And(Wrap(a + 0xFFF), WORDS - PGSIZE) == PgRoundUp(a)
    ensures PgRoundDown(a) % 4096 == 0 && PgRoundDown(a) <= a < PgRoundDown(a) + 4096
    ensures a <= 0xFFFF_F000 ==> PgRoundUp(a) % 4096 == 0 && a <= PgRoundUp(a) < a + 4096
  {
    hide And, Pow2, PgRoundDown, FrameOf;
    RoundMask(a);
    RoundMask(Wrap(a + 0xFFF));
    Aligned(a);
    Aligned(Wrap(a + 0xFFF));
  }

  lemma Aligned(a: Word)
    ensures var d := PgRoundDown(a);
            d % 4096 == 0 && d == FrameOf(a) * PGSIZE && d <= a < d + 4096
  {
    ModUnique(a - a % 4096, 4096, a / 4096, 0);
  }

  lemma RoundMask(a: Word)
    ensures And(a, WORDS - PGSIZE) == PgRoundDown(a)
  {
    hide And, Pow2;
    Powers();
    AndLow(a, 12);
    AndHigh(a, 12, 32);
  }

  /** V2P and P2V undo each other, 2 GB apart. */
  lemma WindowForms(a: Word)
    ensures V2P(P2V(a)) == a && P2V(V2P(a)) == a
    ensures a < 0x8000_0000 ==> P2V(a) == a + 0x8000_0000
    ensures a >= 0x8000_0000 ==> V2P(a) == a - 0x8000_0000
  {
  }

  /** PGADDR puts together what PDX and PTX take apart. */
  lemma PgAddrInverts(a: Word)
    requires a % PGSIZE == 0
    ensures PgAddr(Pdx(a), Ptx(a), 0) == a
  {
    var q, r := a / 0x40_0000, a % 0x40_0000;
    ModUnique(a, 4096, q * 1024 + r / 4096, r % 4096);
    ModUnique(q * 1024 + r / 4096, 1024, q, r / 4096);
  }

  /** PGADDR, with its shifts and ors; a directory index of 1024 is shifted out of the word. */
  lemma PgAddrForm(d: nat, t: nat, o: nat)
    requires t < ENTRIES && o < PGSIZE
    ensures Or(Or(Wrap(d * Pow2(22)), t * Pow2(12)), o) == PgAddr(d, t, o)
  {
    hide Or, Pow2;
    Powers();
    var x := Wrap(d * 0x40_0000);
    ShiftedOut(d, t * PGSIZE + o);
    OrSplit(x, 0, t * PGSIZE, 22);
    OrZero(t * PGSIZE);
    LowAligned(x, t);
    OrSplit(x + t * PGSIZE, 0, o, 12);
    OrZero(o);
  }

  lemma ShiftedOut(d: nat, y: nat)
    requires y < 0x40_0000
    ensures Wrap(d * 0x40_0000) % 0x40_0000 == 0 && Wrap(d * 0x40_0000 + y) == Wrap(d * 0x40_0000) + y
  {
    var q, r := d / 1024, d % 1024;
    ModUnique(d * 0x40_0000, 0x1_0000_0000, q, r * 0x40_0000);
    ModUnique(d * 0x40_0000 + y, 0x1_0000_0000, q, r * 0x40_0000 + y);
  }

  lemma LowAligned(x: nat, t: nat)
    requires x % 0x40_0000 == 0
    ensures (x + t * 4096) % 4096 == 0
  {
    ModUnique(x + t * 4096, 4096, x / 0x40_0000 * 1024 + t, 0);
  }

  /**
    The entry mappages writes is present for every pa and perm. It decodes to the frame
    of pa with exactly the flags perm | PTE_P when pa is page-aligned and perm is a flag set.
   */
  lemma MakePteDecodes(pa: Word, perm: Word)
    ensures Present(MakePte(pa, perm))
    ensures pa % PGSIZE == 0 && perm < PGSIZE ==>
              && MakePte(pa, perm) == pa + Or(perm, PTE_P)
              && Or(perm, PTE_P) < PGSIZE
              && FrameOf(MakePte(pa, perm)) == pa / PGSIZE
  {
    hide Or, FrameOf;
    OrOne(Or(pa, perm));
    OddOver(Or(pa, perm));
    OrOne(perm);
    OrDisjointPage(pa, perm);
    if pa % PGSIZE == 0 && perm < PGSIZE {
      LowBits(pa, perm);
    }
  }

  lemma OddOver(z: nat)
    ensures (z + 1 - z % 2) % 2 == 1
  {
  }

  /** Setting the lowest bit stays in the page. */
  lemma LowBits(pa: Word, perm: Word)
    requires pa % PGSIZE == 0 && perm < PGSIZE
    ensures perm + 1 - perm % 2 < PGSIZE && (pa + perm) % 2 == perm % 2
    ensures var w := pa + (perm + 1 - perm % 2); w < WORDS && FrameOf(w) == pa / PGSIZE
  {
    var q := pa / 4096;
    assert pa == 4096 * q;
    ModUnique(pa + perm, 2, 2048 * q + perm / 2, perm % 2);
    ModUnique(pa + (perm + 1 - perm % 2), 4096, q, perm + 1 - perm % 2);
  }

  lemma OrDisjointPage(pa: Word, perm: Word)
    ensures pa % PGSIZE == 0 && perm < PGSIZE ==> Or(pa, perm) == pa + perm
  {
    hide Or, Pow2;
    Powers();
    if pa % PGSIZE == 0 && perm < PGSIZE {
      OrSplit(pa, 0, perm, 12);
      OrZero(perm);
    }
  }
}
