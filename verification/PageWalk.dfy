// vtpmo.c: the four-level page walk that says whether a virtual address is mapped (Intel SDM Vol. 3A, section 4.5).
// Addresses and table entries are 64-bit words, written as naturals.
module PageWalk {
  import opened Sizes

  const NO_MAP: int := -1
  const PAGE_SIZE: nat := 0x1000
  const LARGE_PAGE: nat := 0x20_0000
  const ENTRIES: nat := 512

  /** The entries of the tables, by physical address of the table and index; cr3 holds the address of the first. */
  datatype Tables = Tables(cr3: nat, entry: (nat, nat) -> nat)

  /** (long long) of an unsigned word. */
  function Signed(a: nat): int
    requires a < WORD
  {
    if a < WORD / 2 then a else a - WORD
  }

  /** ((long long)(addr) >> shift) & 0x1ff: the shift keeps the sign, the mask the low nine bits. */
  function Index(addr: nat, unit: nat): (i: nat)
    requires addr < WORD && unit > 0
    ensures i < ENTRIES
  {
    (Signed(addr) / unit) % ENTRIES
  }

  const PML4_UNIT: nat := 0x80_0000_0000
  const PDP_UNIT: nat := 0x4000_0000
  const PDE_UNIT: nat := 0x20_0000
  const PTE_UNIT: nat := 0x1000

  predicate IsValid(e: nat) { e % 2 == 1 }

  predicate IsLarge(e: nat) { (e / 0x80) % 2 == 1 }

  /** e & 0x7ffffffffffff000. */
  function Frame(e: nat): nat { (e / 0x1000 * 0x1000) % 0x8000_0000_0000_0000 }

  /** (int)(frame_addr >> 12). */
  function FrameNumber(frame: nat): int {
    var n := (frame / 0x1000) % 0x1_0000_0000;
    if n < 0x8000_0000 then n else n - 0x1_0000_0000
  }

  function Pml4e(t: Tables, a: nat): nat
    requires a < WORD
  {
    t.entry(t.cr3 / 0x1000 * 0x1000, Index(a, PML4_UNIT))
  }

  function Pdpe(t: Tables, a: nat): nat
    requires a < WORD
  {
    t.entry(Frame(Pml4e(t, a)), Index(a, PDP_UNIT))
  }

  function Pde(t: Tables, a: nat): nat
    requires a < WORD
  {
    t.entry(Frame(Pdpe(t, a)), Index(a, PDE_UNIT))
  }

  function Pte(t: Tables, a: nat): nat
    requires a < WORD
  {
    t.entry(Frame(Pde(t, a)), Index(a, PTE_UNIT))
  }

  function Vtpmo(t: Tables, a: nat): int
    requires a < WORD
  {
    if !IsValid(Pml4e(t, a)) then NO_MAP
    else if !IsValid(Pdpe(t, a)) then NO_MAP
    else if !IsValid(Pde(t, a)) then NO_MAP
    else if IsLarge(Pde(t, a)) then FrameNumber(Frame(Pde(t, a)))
    else if !IsValid(Pte(t, a)) then NO_MAP
    else FrameNumber(Frame(Pte(t, a)))
  }

  /** Every entry the walk looks at is valid. */
  predicate Mapped(t: Tables, a: nat)
    requires a < WORD
  {
    && IsValid(Pml4e(t, a)) && IsValid(Pdpe(t, a)) && IsValid(Pde(t, a))
    && (IsLarge(Pde(t, a)) || IsValid(Pte(t, a)))
  }

  /** The entry that ends a successful walk. */
  function LastEntry(t: Tables, a: nat): nat
    requires a < WORD
  {
    if IsLarge(Pde(t, a)) then Pde(t, a) else Pte(t, a)
  }

  // --------------------------------------------------------------------------------------------------------

  /** The sign of the shift does not reach the nine bits that are kept. */
  lemma IndexUnsigned(a: nat)
    requires a < WORD
    ensures Index(a, PML4_UNIT) == (a / PML4_UNIT) % ENTRIES
    ensures Index(a, PDP_UNIT) == (a / PDP_UNIT) % ENTRIES
    ensures Index(a, PDE_UNIT) == (a / PDE_UNIT) % ENTRIES
    ensures Index(a, PTE_UNIT) == (a / PTE_UNIT) % ENTRIES
  {
    UpperUnsigned(a);
    LowerUnsigned(a);
  }

  lemma UpperUnsigned(a: nat)
    requires a < WORD
    ensures Index(a, PML4_UNIT) == (a / PML4_UNIT) % ENTRIES && Index(a, PDP_UNIT) == (a / PDP_UNIT) % ENTRIES
  {
    if a >= WORD / 2 {
      assert (a - WORD) / PML4_UNIT == a / PML4_UNIT - 0x200_0000;
      assert (a - WORD) / PDP_UNIT == a / PDP_UNIT - 0x4_0000_0000;
      MultipleOff(a / PML4_UNIT, 0x1_0000);
      MultipleOff(a / PDP_UNIT, 0x200_0000);
    }
  }

  lemma LowerUnsigned(a: nat)
    requires a < WORD
    ensures Index(a, PDE_UNIT) == (a / PDE_UNIT) % ENTRIES && Index(a, PTE_UNIT) == (a / PTE_UNIT) % ENTRIES
  {
    if a >= WORD / 2 {
      assert (a - WORD) / PDE_UNIT == a / PDE_UNIT - 0x800_0000_0000;
      assert (a - WORD) / PTE_UNIT == a / PTE_UNIT - 0x10_0000_0000_0000;
      MultipleOff(a / PDE_UNIT, 0x4_0000_0000);
      MultipleOff(a / PTE_UNIT, 0x800_0000_0000);
    }
  }

  lemma MultipleOff(n: int, k: nat)
    ensures (n - ENTRIES * k) % ENTRIES == n % ENTRIES
  {}

  /** The four indices and the offset in the page are the low 48 bits of the address. */
  lemma IndicesReassemble(a: nat)
    requires a < WORD
    ensures Index(a, PML4_UNIT) * PML4_UNIT + Index(a, PDP_UNIT) * PDP_UNIT + Index(a, PDE_UNIT) * PDE_UNIT
         + Index(a, PTE_UNIT) * PTE_UNIT + a % PAGE_SIZE == a % 0x1_0000_0000_0000
  {
    IndexUnsigned(a);
    PteBits(a);
    PdeBits(a);
    PdpBits(a);
    Pml4Bits(a);
  }

  lemma PteBits(a: nat)
    ensures a % PDE_UNIT == (a / PTE_UNIT) % ENTRIES * PTE_UNIT + a % PTE_UNIT
  {
    assert a / PDE_UNIT == (a / PTE_UNIT) / ENTRIES;
  }

  lemma PdeBits(a: nat)
    ensures a % PDP_UNIT == (a / PDE_UNIT) % ENTRIES * PDE_UNIT + a % PDE_UNIT
  {
    assert a / PDP_UNIT == (a / PDE_UNIT) / ENTRIES;
  }

  lemma PdpBits(a: nat)
    ensures a % PML4_UNIT == (a / PDP_UNIT) % ENTRIES * PDP_UNIT + a % PDP_UNIT
  {
    assert a / PML4_UNIT == (a / PDP_UNIT) / ENTRIES;
  }

  lemma Pml4Bits(a: nat)
    ensures a % 0x1_0000_0000_0000 == (a / PML4_UNIT) % ENTRIES * PML4_UNIT + a % PML4_UNIT
  {
    assert a / 0x1_0000_0000_0000 == (a / PML4_UNIT) / ENTRIES;
  }

  /** Addresses of one large page have the same upper indices, addresses of one page all four. */
  lemma SameUnit(a: nat, b: nat)
    requires a < WORD && b < WORD && a / LARGE_PAGE == b / LARGE_PAGE
    ensures Index(a, PML4_UNIT) == Index(b, PML4_UNIT)
    ensures Index(a, PDP_UNIT) == Index(b, PDP_UNIT)
    ensures Index(a, PDE_UNIT) == Index(b, PDE_UNIT)
  {
    IndexUnsigned(a);
    IndexUnsigned(b);
    assert a / PDP_UNIT == (a / LARGE_PAGE) / 0x200 && b / PDP_UNIT == (b / LARGE_PAGE) / 0x200;
    assert a / PML4_UNIT == (a / LARGE_PAGE) / 0x4_0000 && b / PML4_UNIT == (b / LARGE_PAGE) / 0x4_0000;
  }

  /** One answer for all addresses of a 4 KiB page: so probing one of them is enough. */
  lemma OnePageOneAnswer(t: Tables, a: nat, b: nat)
    requires a < WORD && b < WORD && a / PAGE_SIZE == b / PAGE_SIZE
    ensures Vtpmo(t, a) == Vtpmo(t, b) && Mapped(t, a) == Mapped(t, b)
  {
    assert a / LARGE_PAGE == (a / PAGE_SIZE) / 0x200 && b / LARGE_PAGE == (b / PAGE_SIZE) / 0x200;
    SameUnit(a, b);
    IndexUnsigned(a);
    IndexUnsigned(b);
  }

  /** One answer for all addresses of a 2 MiB region that is mapped as a large page. */
  lemma OneLargePageOneAnswer(t: Tables, a: nat, b: nat)
    requires a < WORD && b < WORD && a / LARGE_PAGE == b / LARGE_PAGE
    requires IsLarge(Pde(t, a))
    ensures Vtpmo(t, a) == Vtpmo(t, b) && Mapped(t, a) == Mapped(t, b)
  {
    SameUnit(a, b);
  }

  /**
   * Exactly when the walk answers NO_MAP: an entry it visits is not valid, or the frame number it returns, cut to
   * 32 bits, happens to be the value of NO_MAP.
   */
  lemma NoMapExactly(t: Tables, a: nat)
    requires a < WORD
    ensures Vtpmo(t, a) == NO_MAP <==>
      !Mapped(t, a) || (Frame(LastEntry(t, a)) / 0x1000) % 0x1_0000_0000 == 0xFFFF_FFFF
  {}

  /** With frames below 2^43, NO_MAP means not mapped and nothing else. */
  lemma NoMapMeansUnmapped(t: Tables, a: nat)
    requires a < WORD
    requires forall base, i :: Frame(t.entry(base, i)) < 0x800_0000_0000
    ensures Vtpmo(t, a) == NO_MAP <==> !Mapped(t, a)
  {
    NoMapExactly(t, a);
    var e := LastEntry(t, a);
    assert Frame(e) < 0x800_0000_0000 by {
      assert Frame(t.entry(Frame(Pde(t, a)), Index(a, PTE_UNIT))) < 0x800_0000_0000;
      assert Frame(t.entry(Frame(Pdpe(t, a)), Index(a, PDE_UNIT))) < 0x800_0000_0000;
    }
  }

  /** And it does happen: a mapped address for which the walk answers NO_MAP. */
  lemma NoMapThoughMapped() returns (t: Tables, a: nat)
    ensures a < WORD && Mapped(t, a) && Vtpmo(t, a) == NO_MAP
  {
    // every entry is valid and a large page, of frame number 0xffffffff
    t, a := Tables(0, (base, i) => 0xfff_ffff_f081), 0;
    NoMapExactly(t, a);
  }

  // --------------------------------------------------------------------------------------------------------
  // The walk against tables in which one page is mapped, and nothing else

  lemma FrameIs(e: nat)
    ensures Frame(e) == e % 0x8000_0000_0000_0000 / 0x1000 * 0x1000
  {
    var q, r := e / 0x8000_0000_0000_0000, e % 0x8000_0000_0000_0000;
    assert e / 0x1000 == q * 0x8_0000_0000_0000 + r / 0x1000;
    MultipleAway(q, r / 0x1000 * 0x1000);
  }

  lemma MultipleAway(q: nat, r: nat)
    requires r < 0x8000_0000_0000_0000
    ensures (q * 0x8000_0000_0000_0000 + r) % 0x8000_0000_0000_0000 == r
  {}

  lemma FrameAligned(n: nat)
    ensures n * 0x1000 / 0x1000 == n
  {}

  /** Addresses with the same four indices have the same page number in their low 48 bits, and the other way round. */
  lemma SameIndices(a: nat, b: nat)
    requires a < WORD && b < WORD
    ensures a % 0x1_0000_0000_0000 / 0x1000 == b % 0x1_0000_0000_0000 / 0x1000 <==>
      && a / 0x80_0000_0000 % 512 == b / 0x80_0000_0000 % 512 && a / 0x4000_0000 % 512 == b / 0x4000_0000 % 512
      && a / 0x20_0000 % 512 == b / 0x20_0000 % 512 && a / 0x1000 % 512 == b / 0x1000 % 512
    ensures a % 0x1_0000_0000_0000 / 0x20_0000 == b % 0x1_0000_0000_0000 / 0x20_0000 <==>
      && a / 0x80_0000_0000 % 512 == b / 0x80_0000_0000 % 512 && a / 0x4000_0000 % 512 == b / 0x4000_0000 % 512
      && a / 0x20_0000 % 512 == b / 0x20_0000 % 512
  {
    PageNumber(a);
    PageNumber(b);
    SameDigits(a / 0x80_0000_0000 % 512, a / 0x4000_0000 % 512, b / 0x80_0000_0000 % 512, b / 0x4000_0000 % 512);
    SameDigits(a / 0x80_0000_0000 % 512 * 512 + a / 0x4000_0000 % 512, a / 0x20_0000 % 512,
               b / 0x80_0000_0000 % 512 * 512 + b / 0x4000_0000 % 512, b / 0x20_0000 % 512);
    SameDigits(a % 0x1_0000_0000_0000 / 0x20_0000, a / 0x1000 % 512,
               b % 0x1_0000_0000_0000 / 0x20_0000, b / 0x1000 % 512);
  }

  lemma SameDigits(x: nat, y: nat, z: nat, w: nat)
    requires y < 512 && w < 512
    ensures x * 512 + y == z * 512 + w <==> x == z && y == w
  {}

  /** The page number of the low 48 bits, from the indices. */
  lemma PageNumber(a: nat)
    ensures a % 0x1_0000_0000_0000 / 0x20_0000
         == (a / 0x80_0000_0000 % 512 * 512 + a / 0x4000_0000 % 512) * 512 + a / 0x20_0000 % 512
    ensures a % 0x1_0000_0000_0000 / 0x1000 == a % 0x1_0000_0000_0000 / 0x20_0000 * 512 + a / 0x1000 % 512
  {
    PteBits(a);
    PdeBits(a);
    PdpBits(a);
    Pml4Bits(a);
  }

  /** Entry e of a table is valid and leads to the table at address base. */
  predicate Leads(e: nat, base: nat) {
    e % 2 == 1 && e % 0x8000_0000_0000_0000 / 0x1000 * 0x1000 == base
  }

  ghost predicate OnlyThese(t: Tables, entries: set<(nat, nat)>) {
    forall base: nat, i: nat :: t.entry(base, i) != 0 ==> (base, i) in entries
  }

  /** The lower 32 bits of n as an int of C. */
  function AsInt(n: nat): int {
    var m := n % 0x1_0000_0000;
    if m < 0x8000_0000 then m else m - 0x1_0000_0000
  }

  /**
   * When four tables map the page of one address to frame f and all other entries are zero, the walk answers f, as an
   * int, for every address with that page number in its low 48 bits, and NO_MAP for every other.
   */
  lemma OneMappedPage(t: Tables, a: nat, b: nat, t0: nat, t1: nat, t2: nat, t3: nat, f: nat)
    requires a < WORD && b < WORD && |{t0, t1, t2, t3}| == 4 && t.cr3 / 0x1000 * 0x1000 == t0
    requires Leads(t.entry(t0, a / 0x80_0000_0000 % 512), t1) && Leads(t.entry(t1, a / 0x4000_0000 % 512), t2)
    requires Leads(t.entry(t2, a / 0x20_0000 % 512), t3) && t.entry(t2, a / 0x20_0000 % 512) / 0x80 % 2 == 0
    requires Leads(t.entry(t3, a / 0x1000 % 512), f * 0x1000)
    requires OnlyThese(t, {(t0, a / 0x80_0000_0000 % 512), (t1, a / 0x4000_0000 % 512), (t2, a / 0x20_0000 % 512),
                           (t3, a / 0x1000 % 512)})
    ensures Mapped(t, b) <==> b % 0x1_0000_0000_0000 / 0x1000 == a % 0x1_0000_0000_0000 / 0x1000
    ensures Vtpmo(t, b) == if b % 0x1_0000_0000_0000 / 0x1000 == a % 0x1_0000_0000_0000 / 0x1000 then AsInt(f) else -1
  {
    IndexUnsigned(b);
    SameIndices(a, b);
    FrameAligned(f);
    forall e: nat ensures Frame(e) == e % 0x8000_0000_0000_0000 / 0x1000 * 0x1000 { FrameIs(e); }
  }

  /** The same with a large page, which the third table maps. */
  lemma OneMappedLargePage(t: Tables, a: nat, b: nat, t0: nat, t1: nat, t2: nat, f: nat)
    requires a < WORD && b < WORD && |{t0, t1, t2}| == 3 && t.cr3 / 0x1000 * 0x1000 == t0
    requires Leads(t.entry(t0, a / 0x80_0000_0000 % 512), t1) && Leads(t.entry(t1, a / 0x4000_0000 % 512), t2)
    requires Leads(t.entry(t2, a / 0x20_0000 % 512), f * 0x1000) && t.entry(t2, a / 0x20_0000 % 512) / 0x80 % 2 == 1
    requires OnlyThese(t, {(t0, a / 0x80_0000_0000 % 512), (t1, a / 0x4000_0000 % 512), (t2, a / 0x20_0000 % 512)})
    ensures Mapped(t, b) <==> b % 0x1_0000_0000_0000 / 0x20_0000 == a % 0x1_0000_0000_0000 / 0x20_0000
    ensures Vtpmo(t, b)
         == if b % 0x1_0000_0000_0000 / 0x20_0000 == a % 0x1_0000_0000_0000 / 0x20_0000 then AsInt(f) else -1
  {
    IndexUnsigned(b);
    SameIndices(a, b);
    FrameAligned(f);
    forall e: nat ensures Frame(e) == e % 0x8000_0000_0000_0000 / 0x1000 * 0x1000 { FrameIs(e); }
  }
}
