// sysCall_Discovery.c, the search: finding the system call table by its pattern, without touching unmapped pages.
module TableSearch {
  import opened PageWalk
  import opened Sizes

  const START: nat := 0xffff_ffff_0000_0000
  const MAX_ADDR: nat := 0xffff_ffff_fff0_0000
  const KERNEL_LOW: nat := 0xffff_ffff_0000_0000
  const FIRST_NI: nat := 134
  const LAST_NI: nat := 236
  const ENTRY: nat := 8

  /** The other places of the pattern, after the first. */
  const NI_PLACES: seq<nat> := [174, 182, 183, 214, 215, 236]

  datatype Memory = Memory(tables: Tables, word: nat -> nat)

  predicate CanRead(m: Memory, a: nat) { a < WORD && Vtpmo(m.tables, a) != NO_MAP }

  /** One load; callers must show that the address is mapped. */
  function Load(m: Memory, a: nat): nat
    requires CanRead(m, a)
  {
    m.word(a)
  }

  /** addr[k] of a table that starts at base. */
  function EntryAt(base: nat, k: nat): nat { base + k * ENTRY }

  /** All 237 entries of the table at base can be read. */
  predicate Readable(m: Memory, base: nat) {
    forall k :: 0 <= k <= LAST_NI ==> CanRead(m, EntryAt(base, k))
  }

  predicate Placeholder(w: nat) { w % 4 == 0 && w != 0 && w > KERNEL_LOW }

  /** The pattern of validate_page and good_area on the words at base. */
  predicate Pattern(m: Memory, base: nat) {
    var ni := m.word(EntryAt(base, FIRST_NI));
    && Placeholder(ni)
    && (forall p :: p in NI_PLACES ==> m.word(EntryAt(base, p)) == ni)
    && (forall k :: 1 <= k < FIRST_NI ==> m.word(EntryAt(base, k)) != ni)
  }

  predicate IsTable(m: Memory, base: nat) { Readable(m, base) && Pattern(m, base) }

  lemma PlacesAre(P: nat -> bool)
    ensures (forall p :: p in NI_PLACES ==> P(p)) <==> P(174) && P(182) && P(183) && P(214) && P(215) && P(236)
  {
    assert NI_PLACES[0] == 174 && NI_PLACES[1] == 182 && NI_PLACES[2] == 183;
    assert NI_PLACES[3] == 214 && NI_PLACES[4] == 215 && NI_PLACES[5] == 236;
  }

  /** The pattern in the numbers of the source. */
  lemma PatternIs(m: Memory, base: nat)
    ensures var ni := m.word(EntryAt(base, 134)); Pattern(m, base) <==>
      && ni % 4 == 0 && ni > 0xffff_ffff_0000_0000
      && m.word(EntryAt(base, 174)) == ni && m.word(EntryAt(base, 182)) == ni && m.word(EntryAt(base, 183)) == ni
      && m.word(EntryAt(base, 214)) == ni && m.word(EntryAt(base, 215)) == ni && m.word(EntryAt(base, 236)) == ni
      && forall k :: 1 <= k <= 133 ==> m.word(EntryAt(base, k)) != ni
  {
    var ni := m.word(EntryAt(base, 134));
    var P := (p: nat) => m.word(EntryAt(base, p)) == ni;
    PlacesAre(P);
  }

  predicate Aligned(a: nat) { a % ENTRY == 0 }

  /** A page start with room for another page after it. */
  predicate IsPage(page: nat) { page % PAGE_SIZE == 0 && page + 2 * PAGE_SIZE <= WORD }

  /** P holds at no aligned address from lo to hi. */
  predicate None(P: nat -> bool, lo: nat, hi: nat) {
    forall b :: lo <= b < hi && Aligned(b) ==> !P(b)
  }

  function TablesOf(m: Memory): nat -> bool { (b: nat) => IsTable(m, b) }

  lemma NoneGrows(P: nat -> bool, lo: nat, x: nat)
    requires None(P, lo, x) && Aligned(x) && !P(x)
    ensures None(P, lo, x + ENTRY)
  {
    forall b | lo <= b < x + ENTRY && Aligned(b) ensures !P(b) {
      if b >= x { assert b == x; }
    }
  }

  lemma NoneJoins(P: nat -> bool, lo: nat, mid: nat, hi: nat)
    requires None(P, lo, mid) && None(P, mid, hi)
    ensures None(P, lo, hi)
  {}

  // --------------------------------------------------------------------------------------------------------

  /** If the page of base is mapped, and the page of its last entry, so is everything between. */
  lemma ReadableByEnds(m: Memory, page: nat, base: nat)
    requires IsPage(page) && page <= base < page + PAGE_SIZE
    requires CanRead(m, page)
    requires EntryAt(base, LAST_NI) >= page + PAGE_SIZE ==> CanRead(m, EntryAt(base, LAST_NI))
    ensures Readable(m, base)
  {
    forall k | 0 <= k <= LAST_NI ensures CanRead(m, EntryAt(base, k)) {
      var a := EntryAt(base, k);
      if a < page + PAGE_SIZE {
        assert a / PAGE_SIZE == page / PAGE_SIZE;
        OnePageOneAnswer(m.tables, a, page);
      } else {
        var last := EntryAt(base, LAST_NI);
        assert a / PAGE_SIZE == page / PAGE_SIZE + 1 && last / PAGE_SIZE == page / PAGE_SIZE + 1;
        OnePageOneAnswer(m.tables, a, last);
      }
    }
  }

  /** One probe that fails in the next page rules out every later base of this page. */
  lemma UnreadableFrom(m: Memory, page: nat, base: nat)
    requires IsPage(page) && page <= base < page + PAGE_SIZE
    requires EntryAt(base, LAST_NI) >= page + PAGE_SIZE && !CanRead(m, EntryAt(base, LAST_NI))
    ensures None(TablesOf(m), base, page + PAGE_SIZE)
  {
    forall later | base <= later < page + PAGE_SIZE && Aligned(later) ensures !IsTable(m, later) {
      var a, b := EntryAt(base, LAST_NI), EntryAt(later, LAST_NI);
      assert a / PAGE_SIZE == page / PAGE_SIZE + 1 && b / PAGE_SIZE == page / PAGE_SIZE + 1;
      OnePageOneAnswer(m.tables, a, b);
      assert !CanRead(m, b);
    }
  }

  lemma UnmappedPageHasNone(m: Memory, page: nat)
    requires page % PAGE_SIZE == 0 && page + PAGE_SIZE <= WORD && !CanRead(m, page)
    ensures None(TablesOf(m), page, page + PAGE_SIZE)
  {
    forall base | page <= base < page + PAGE_SIZE && Aligned(base) ensures !IsTable(m, base) {
      assert base / PAGE_SIZE == page / PAGE_SIZE;
      OnePageOneAnswer(m.tables, page, base);
      assert EntryAt(base, 0) == base;
    }
  }

  // --------------------------------------------------------------------------------------------------------

  /** good_area: no entry from 1 to 133 is the placeholder. */
  method GoodArea(m: Memory, base: nat) returns (good: bool)
    requires Readable(m, base)
    ensures good <==> forall k :: 1 <= k < FIRST_NI ==> m.word(EntryAt(base, k)) != m.word(EntryAt(base, FIRST_NI))
  {
    var i := 1;
    while i < FIRST_NI
      invariant 1 <= i <= FIRST_NI
      invariant forall k :: 1 <= k < i ==> m.word(EntryAt(base, k)) != m.word(EntryAt(base, FIRST_NI))
    {
      if Load(m, EntryAt(base, i)) == Load(m, EntryAt(base, FIRST_NI)) {
        return false;
      }
      i := i + 1;
    }
    return true;
  }

  /** The conditions of lines 63-70, in their order. */
  method Matches(m: Memory, base: nat) returns (yes: bool)
    requires Readable(m, base)
    ensures yes <==> Pattern(m, base)
  {
    var ni := Load(m, EntryAt(base, FIRST_NI));
    if !(ni % 4 == 0 && ni != 0 && ni > KERNEL_LOW) {
      return false;
    }
    var n := 0;
    while n < |NI_PLACES|
      invariant 0 <= n <= |NI_PLACES|
      invariant forall j :: 0 <= j < n ==> m.word(EntryAt(base, NI_PLACES[j])) == ni
    {
      if Load(m, EntryAt(base, NI_PLACES[n])) != ni {
        assert NI_PLACES[n] in NI_PLACES;
        return false;
      }
      n := n + 1;
    }
    yes := GoodArea(m, base);
  }

  /** The test of line 59: the table at base would run into the next page, and that page is not there. */
  predicate RunsOut(m: Memory, page: nat, base: nat) {
    var newPage := EntryAt(base, LAST_NI);
    page + PAGE_SIZE == newPage / PAGE_SIZE * PAGE_SIZE && !CanRead(m, newPage)
  }

  lemma RunsOutMeans(m: Memory, page: nat, base: nat)
    requires IsPage(page) && page <= base < page + PAGE_SIZE
    requires CanRead(m, page) && Aligned(base)
    ensures RunsOut(m, page, base) ==> None(TablesOf(m), base, page + PAGE_SIZE) && !IsTable(m, base)
    ensures !RunsOut(m, page, base) ==> Readable(m, base)
  {
    NextPage(page, EntryAt(base, LAST_NI));
    if RunsOut(m, page, base) {
      UnreadableFrom(m, page, base);
      assert !TablesOf(m)(base);
    } else {
      ReadableByEnds(m, page, base);
    }
  }

  datatype Verdict = Stop | Miss | Hit(ni: nat)

  /** One round of the loop of validate_page: Stop is the break of line 60. */
  method TryBase(m: Memory, page: nat, base: nat) returns (v: Verdict)
    requires IsPage(page) && page <= base < page + PAGE_SIZE
    requires CanRead(m, page) && Aligned(base)
    ensures v.Hit? <==> TablesOf(m)(base)
    ensures v.Hit? ==> v.ni == m.word(EntryAt(base, FIRST_NI))
    ensures v.Stop? ==> None(TablesOf(m), base, page + PAGE_SIZE)
  {
    RunsOutMeans(m, page, base);
    if RunsOut(m, page, base) {
      return Stop;
    }
    var yes := Matches(m, base);
    return if yes then Hit(Load(m, EntryAt(base, FIRST_NI))) else Miss;
  }

  /** validate_page: the lowest table base in a mapped page, if there is one; every load is of a mapped address. */
  method ValidatePage(m: Memory, page: nat) returns (found: bool, base: nat, ni: nat)
    requires IsPage(page) && CanRead(m, page)
    ensures found ==> page <= base < page + PAGE_SIZE && Aligned(base) && TablesOf(m)(base)
    ensures found ==> ni == m.word(EntryAt(base, FIRST_NI))
    ensures None(TablesOf(m), page, if found then base else page + PAGE_SIZE)
  {
    ghost var P := TablesOf(m);
    FirstBase(page);
    base := page;
    while base < page + PAGE_SIZE
      invariant page <= base <= page + PAGE_SIZE && Aligned(base)
      invariant None(P, page, base)
    {
      var v := TryBase(m, page, base);
      if v.Stop? {
        NoneJoins(P, page, base, page + PAGE_SIZE);
        return false, 0, 0;
      }
      if v.Hit? {
        return true, base, v.ni;
      }
      NoneGrows(P, page, base);
      NextBase(page, base);
      base := base + ENTRY;
    }
    return false, 0, 0;
  }

  lemma FirstBase(page: nat)
    requires IsPage(page)
    ensures Aligned(page)
  {}

  lemma NextBase(page: nat, base: nat)
    requires IsPage(page) && page <= base < page + PAGE_SIZE && Aligned(base)
    ensures Aligned(base + ENTRY) && base + ENTRY <= page + PAGE_SIZE
  {
    var q, r := page / PAGE_SIZE, base / ENTRY;
    assert page == 8 * (512 * q) && base == 8 * r;
  }

  /** From page to page the search stays on page starts. */
  lemma NextCandidate(k: nat)
    requires START <= k < MAX_ADDR && k % PAGE_SIZE == 0
    ensures IsPage(k) && (k + PAGE_SIZE) % PAGE_SIZE == 0 && k + PAGE_SIZE <= MAX_ADDR && k + PAGE_SIZE <= WORD
  {
    var q := k / PAGE_SIZE;
    assert k == PAGE_SIZE * q && MAX_ADDR == PAGE_SIZE * 0xf_ffff_ffff_ff00;
  }

  lemma NextPage(page: nat, a: nat)
    requires page % PAGE_SIZE == 0 && page <= a < page + 2 * PAGE_SIZE
    ensures a >= page + PAGE_SIZE <==> a / PAGE_SIZE * PAGE_SIZE == page + PAGE_SIZE
  {}

  /** syscall_table_finder: the first table in the whole range. */
  method FindTable(m: Memory) returns (found: bool, base: nat, ni: nat)
    ensures found ==> START <= base < MAX_ADDR && Aligned(base) && TablesOf(m)(base)
    ensures found ==> ni == m.word(EntryAt(base, FIRST_NI))
    ensures None(TablesOf(m), START, if found then base else MAX_ADDR)
  {
    ghost var P := TablesOf(m);
    var k := START;
    while k < MAX_ADDR
      invariant START <= k <= MAX_ADDR && k % PAGE_SIZE == 0
      invariant None(P, START, k)
    {
      NextCandidate(k);
      if CanRead(m, k) {
        found, base, ni := ValidatePage(m, k);
        NoneJoins(P, START, k, if found then base else k + PAGE_SIZE);
        if found {
          return;
        }
      } else {
        UnmappedPageHasNone(m, k);
        NoneJoins(P, START, k, k + PAGE_SIZE);
      }
      k := k + PAGE_SIZE;
    }
    return false, 0, 0;
  }
}
