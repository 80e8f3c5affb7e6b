// sysCall_Discovery.c, the other half: free entries of the table found, pointers installed in them, and the table
// put back.
module TableInstall {
  import TableSearch

  const MAX_FREE: nat := 10
  const TO_EXPLORE: nat := 256

  /** The places that the search has seen to hold the placeholder. */
  const PLACES: seq<nat> := [134, 174, 182, 183, 214, 215, 236]

  /** What the search promises of the words of a table. */
  predicate Accepted(tbl: seq<nat>, ni: nat) {
    && |tbl| > TableSearch.LAST_NI
    && (forall j :: 0 <= j < |PLACES| ==> tbl[PLACES[j]] == ni)
    && (forall k :: 1 <= k < TableSearch.FIRST_NI ==> tbl[k] != ni)
  }

  function Words(m: TableSearch.Memory, base: nat): seq<nat> {
    seq<nat>(TableSearch.LAST_NI + 1, (k: nat) => m.word(TableSearch.EntryAt(base, k)))
  }

  lemma FoundIsAccepted(m: TableSearch.Memory, base: nat)
    requires TableSearch.IsTable(m, base)
    ensures Accepted(Words(m, base), m.word(TableSearch.EntryAt(base, TableSearch.FIRST_NI)))
  {
    forall j | 0 <= j < |PLACES|
      ensures Words(m, base)[PLACES[j]] == m.word(TableSearch.EntryAt(base, TableSearch.FIRST_NI))
    {
      assert j > 0 ==> PLACES[j] == TableSearch.NI_PLACES[j - 1];
    }
  }

  // --------------------------------------------------------------------------------------------------------

  predicate Increasing(hs: seq<nat>) { forall i, j :: 0 <= i < j < |hs| ==> hs[i] < hs[j] }

  /** hs lists, in order, the indices below end that hold x. */
  predicate Holes(hs: seq<nat>, tbl: seq<nat>, x: nat, end: nat) {
    && Increasing(hs)
    && (forall j :: 0 <= j < |hs| ==> hs[j] < end && hs[j] < |tbl| && tbl[hs[j]] == x)
    && (forall k :: 0 <= k < end && k < |tbl| && tbl[k] == x ==> k in hs)
  }

  /** hs lists, in order, the first |hs| indices that hold x. */
  predicate FirstHoles(hs: seq<nat>, tbl: seq<nat>, x: nat) {
    Holes(hs, tbl, x, if hs == [] then 0 else hs[|hs| - 1] + 1)
  }

  lemma NotMissed(a: seq<nat>, b: seq<nat>, tbl: seq<nat>, x: nat, i: nat)
    requires FirstHoles(a, tbl, x) && FirstHoles(b, tbl, x) && i < |a| && i < |b| && a[..i] == b[..i]
    ensures a[i] >= b[i]
  {
    forall p | 0 <= p < i ensures a[p] == b[p] {
      assert a[..i][p] == b[..i][p];
    }
    if a[i] < b[i] {
      assert false;
    }
  }

  /** The list is determined by its length. */
  lemma {:induction false} FirstHolesUnique(a: seq<nat>, b: seq<nat>, tbl: seq<nat>, x: nat, n: nat)
    requires FirstHoles(a, tbl, x) && FirstHoles(b, tbl, x) && n <= |a| && n <= |b|
    ensures a[..n] == b[..n]
  {
    if n == 0 {
    } else {
      FirstHolesUnique(a, b, tbl, x, n - 1);
      NotMissed(a, b, tbl, x, n - 1);
      NotMissed(b, a, tbl, x, n - 1);
      assert a[..n] == a[..n - 1] + [a[n - 1]] && b[..n] == b[..n - 1] + [b[n - 1]];
    }
  }

  /** One more entry looked at. */
  lemma HolesNext(hs: seq<nat>, tbl: seq<nat>, x: nat, i: nat)
    requires Holes(hs, tbl, x, i) && i < |tbl|
    ensures Holes(if tbl[i] == x then hs + [i] else hs, tbl, x, i + 1)
    ensures tbl[i] == x ==> FirstHoles(hs + [i], tbl, x)
  {
    assert tbl[i] == x ==> (hs + [i])[|hs|] == i;
    forall k | k in hs ensures k in hs + [i] {}
  }

  /** The first n places exist and hold x. */
  predicate PlacesHold(tbl: seq<nat>, x: nat, n: nat) {
    && 1 <= n <= |PLACES| && PLACES[n - 1] < |tbl|
    && (forall j :: 0 <= j < n ==> PLACES[j] < |tbl| && tbl[PLACES[j]] == x)
  }

  function HolesBelow(tbl: seq<nat>, x: nat, end: nat): seq<nat>
    requires end <= |tbl|
  {
    if end == 0 then []
    else if tbl[end - 1] == x then HolesBelow(tbl, x, end - 1) + [end - 1]
    else HolesBelow(tbl, x, end - 1)
  }

  lemma {:induction false} HolesBelowAre(tbl: seq<nat>, x: nat, end: nat)
    requires end <= |tbl|
    ensures Holes(HolesBelow(tbl, x, end), tbl, x, end)
  {
    if end == 0 {
    } else {
      var i := end - 1;
      var hs := HolesBelow(tbl, x, i);
      HolesBelowAre(tbl, x, i);
      HolesNext(hs, tbl, x, i);
      assert HolesBelow(tbl, x, end) == if tbl[i] == x then hs + [i] else hs;
    }
  }

  lemma AcceptedHolds(tbl: seq<nat>, ni: nat)
    requires Accepted(tbl, ni)
    ensures PlacesHold(tbl, ni, 4)
  {}

  /** While fewer than n holes are known, the search has not passed the n-th place. */
  lemma NotPast(tbl: seq<nat>, x: nat, i: nat, n: nat)
    requires PlacesHold(tbl, x, n) && i <= |tbl| && |HolesBelow(tbl, x, i)| < n
    ensures i <= PLACES[n - 1] && i < TO_EXPLORE && i < |tbl|
  {
    var hs := HolesBelow(tbl, x, i);
    HolesBelowAre(tbl, x, i);
    if i > PLACES[n - 1] {
      forall j | 0 <= j < n ensures PLACES[j] in hs {
        assert PLACES[j] <= PLACES[n - 1];
      }
      var at := PlacesFill(hs, n);
    }
  }

  /**
   * What a search for n entries comes back with: the first ones that hold x, n of them or all that there are; and
   * when x is at the first n known places, n of them, none after the n-th place.
   */
  predicate Found(hs: seq<nat>, tbl: seq<nat>, x: nat, n: nat) {
    && |hs| <= n && FirstHoles(hs, tbl, x)
    && (|hs| < n ==> Holes(hs, tbl, x, TO_EXPLORE))
    && (PlacesHold(tbl, x, n) ==> |hs| == n && hs[n - 1] <= PLACES[n - 1])
  }

  /** The n-th hole is at i: the first n are known. */
  lemma Complete(tbl: seq<nat>, x: nat, i: nat, n: nat)
    requires 1 <= n && i < |tbl| && |HolesBelow(tbl, x, i)| == n - 1 && tbl[i] == x
    ensures Found(HolesBelow(tbl, x, i + 1), tbl, x, n) && |HolesBelow(tbl, x, i + 1)| == n
  {
    if PlacesHold(tbl, x, n) {
      NotPast(tbl, x, i, n);
    }
    HolesBelowAre(tbl, x, i + 1);
  }

  /** There are fewer than n. */
  lemma Exhausted(tbl: seq<nat>, x: nat, n: nat)
    requires TO_EXPLORE <= |tbl| && |HolesBelow(tbl, x, TO_EXPLORE)| < n && !PlacesHold(tbl, x, n)
    ensures Found(HolesBelow(tbl, x, TO_EXPLORE), tbl, x, n)
  {
    HolesBelowAre(tbl, x, TO_EXPLORE);
    HolesFirst(HolesBelow(tbl, x, TO_EXPLORE), tbl, x, TO_EXPLORE);
  }

  /** The search reads only what can be read. */
  lemma StillInside(tbl: seq<nat>, x: nat, i: nat, n: nat)
    requires |tbl| >= TO_EXPLORE || PlacesHold(tbl, x, n)
    requires i <= |tbl| && |HolesBelow(tbl, x, i)| < n
    ensures PlacesHold(tbl, x, n) ==> i < TO_EXPLORE
    ensures i < TO_EXPLORE ==> i < |tbl|
  {
    if PlacesHold(tbl, x, n) {
      NotPast(tbl, x, i, n);
    }
  }

  lemma HolesFirst(hs: seq<nat>, tbl: seq<nat>, x: nat, end: nat)
    requires Holes(hs, tbl, x, end)
    ensures FirstHoles(hs, tbl, x)
  {}

  /** A list that contains the first n places has at least n members, the n-th place not before position n - 1. */
  lemma {:induction false} PlacesFill(hs: seq<nat>, n: nat) returns (at: nat)
    requires 1 <= n <= |PLACES| && Increasing(hs)
    requires forall j :: 0 <= j < n ==> PLACES[j] in hs
    ensures n - 1 <= at < |hs| && hs[at] == PLACES[n - 1]
  {
    assert PLACES[n - 1] in hs;
    at :| 0 <= at < |hs| && hs[at] == PLACES[n - 1];
    if n == 1 {
    } else {
      var before := PlacesFill(hs, n - 1);
      assert PLACES[n - 2] < PLACES[n - 1];
      assert before < at;
    }
  }

  // --------------------------------------------------------------------------------------------------------

  /** The globals, by value. */
  datatype Globals = Globals(tbl: seq<nat>, free: seq<nat>, next: nat)

  predicate Sound(s: Globals) {
    && |s.free| == MAX_FREE && s.next <= MAX_FREE
    && (forall k :: 0 <= k < MAX_FREE ==> s.free[k] < |s.tbl|)
  }

  function Added(s: Globals, p: nat): (r: Globals)
    requires Sound(s)
  {
    if s.next < MAX_FREE then Globals(s.tbl[s.free[s.next] := p], s.free, s.next + 1) else s
  }

  function AddedAll(s: Globals, ps: seq<nat>): (r: Globals)
    requires Sound(s)
    ensures Sound(r) && r.free == s.free && |r.tbl| == |s.tbl|
    decreases |ps|
  {
    if ps == [] then s else AddedAll(Added(s, ps[0]), ps[1..])
  }

  function Restored(s: Globals, ni: nat): (r: Globals)
    requires Sound(s)
    ensures Sound(r) && r.free == s.free && |r.tbl| == |s.tbl| && r.next == 0
    decreases s.next
  {
    if s.next == 0 then s else Restored(Globals(s.tbl[s.free[s.next - 1] := ni], s.free, s.next - 1), ni)
  }

  /** Restoring writes the placeholder to the entries in use, and nothing else. */
  lemma {:induction false} RestoredAt(s: Globals, ni: nat, k: nat)
    requires Sound(s) && k < |s.tbl|
    ensures Restored(s, ni).tbl[k] == if k in s.free[..s.next] then ni else s.tbl[k]
    decreases s.next
  {
    if s.next == 0 {
    } else {
      var t := Globals(s.tbl[s.free[s.next - 1] := ni], s.free, s.next - 1);
      RestoredAt(t, ni, k);
      assert s.free[..s.next] == s.free[..t.next] + [s.free[t.next]];
    }
  }

  /** Adding changes only the entries it then counts as in use. */
  lemma {:induction false} AddedAllAt(s: Globals, ps: seq<nat>, k: nat)
    requires Sound(s) && k < |s.tbl|
    ensures var r := AddedAll(s, ps);
            && r.next == (if s.next + |ps| <= MAX_FREE then s.next + |ps| else MAX_FREE)
            && (k !in s.free[s.next..r.next] ==> r.tbl[k] == s.tbl[k])
    decreases |ps|
  {
    if ps == [] {
    } else {
      AddedAllAt(Added(s, ps[0]), ps[1..], k);
      var r := AddedAll(s, ps);
      if s.next < MAX_FREE {
        assert s.free[s.next..r.next] == [s.free[s.next]] + s.free[s.next + 1..r.next];
      }
    }
  }

  /** With distinct free entries every pointer stays where its own call put it. */
  lemma {:induction false} InstalledStay(s: Globals, ps: seq<nat>, j: nat)
    requires Sound(s) && j < |ps| && s.next + |ps| <= MAX_FREE
    requires Increasing(s.free[..s.next + |ps|])
    ensures AddedAll(s, ps).tbl[s.free[s.next + j]] == ps[j]
    decreases |ps|
  {
    var t := Added(s, ps[0]);
    if j > 0 {
      InstalledStay(t, ps[1..], j - 1);
    } else {
      var k := s.free[s.next];
      AddedAllAt(t, ps[1..], k);
      var all := s.free[..s.next + |ps|];
      forall i | t.next <= i < s.next + |ps| ensures s.free[i] != k {
        assert all[i] == s.free[i] && all[s.next] == k;
      }
    }
  }

  /** The globals after a search that found some entries, none in use; the rest of free_entries is as zeroed. */
  predicate Fresh(s: Globals, ni: nat, found: nat) {
    && Sound(s) && s.next == 0 && 0 < found <= MAX_FREE
    && FirstHoles(s.free[..found], s.tbl, ni)
    && (forall k :: found <= k < MAX_FREE ==> s.free[k] == 0)
  }

  /** One entry of the table after any number of calls and the restore. */
  lemma AddedThenRestored(s: Globals, ni: nat, ps: seq<nat>, k: nat)
    requires Sound(s) && s.next == 0 && k < |s.tbl|
    ensures var n := if |ps| <= MAX_FREE then |ps| else MAX_FREE;
            Restored(AddedAll(s, ps), ni).tbl[k] == if k in s.free[..n] then ni else s.tbl[k]
  {
    var t := AddedAll(s, ps);
    AddedAllAt(s, ps, k);
    RestoredAt(t, ni, k);
    assert s.free[0..t.next] == s.free[..t.next];
  }

  /**
   * Install and restore: the table comes back, unless more calls were made than entries were found and entry 0 was in
   * use.
   */
  lemma RoundTrip(s: Globals, ni: nat, found: nat, ps: seq<nat>)
    requires Fresh(s, ni, found)
    ensures var r := Restored(AddedAll(s, ps), ni);
            && r.next == 0
            && (r.tbl == s.tbl <==> |ps| <= found || found == MAX_FREE || s.tbl[0] == ni)
  {
    var n := if |ps| <= MAX_FREE then |ps| else MAX_FREE;
    if n <= found || s.tbl[0] == ni {
      ComesBack(s, ni, found, ps);
    } else {
      LosesFirst(s, ni, found, ps);
    }
  }

  lemma ComesBack(s: Globals, ni: nat, found: nat, ps: seq<nat>)
    requires Fresh(s, ni, found) && (|ps| <= found || found >= MAX_FREE || s.tbl[0] == ni)
    ensures var r := Restored(AddedAll(s, ps), ni); r.next == 0 && r.tbl == s.tbl
  {
    var r := Restored(AddedAll(s, ps), ni);
    var n := if |ps| <= MAX_FREE then |ps| else MAX_FREE;
    forall k | 0 <= k < |s.tbl| ensures r.tbl[k] == s.tbl[k] {
      AddedThenRestored(s, ni, ps, k);
      UsedHold(s, ni, found, n, k);
    }
  }

  lemma LosesFirst(s: Globals, ni: nat, found: nat, ps: seq<nat>)
    requires Fresh(s, ni, found) && found < |ps| && found < MAX_FREE && s.tbl[0] != ni
    ensures var r := Restored(AddedAll(s, ps), ni); r.next == 0 && r.tbl != s.tbl
  {
    var n := if |ps| <= MAX_FREE then |ps| else MAX_FREE;
    AddedThenRestored(s, ni, ps, 0);
    assert s.free[..n][found] == 0;
  }

  /** A table that the search accepts, with entry 0 in use, after four free entries were looked for. */
  function FourFound(ni: nat, used: nat): Globals {
    Globals(seq(TableSearch.LAST_NI + 1, (k: nat) => if k in PLACES then ni else used),
            [134, 174, 182, 183, 0, 0, 0, 0, 0, 0], 0)
  }

  const FIRST_FOUR: seq<nat> := [134, 174, 182, 183]

  lemma FirstFour(tbl: seq<nat>, ni: nat)
    requires |tbl| > 183 && tbl[134] == ni && tbl[174] == ni && tbl[182] == ni && tbl[183] == ni
    requires forall k :: 0 <= k < 184 && tbl[k] == ni ==> k in PLACES
    ensures FirstHoles(FIRST_FOUR, tbl, ni)
  {
    forall k | 0 <= k < 184 && tbl[k] == ni ensures k in FIRST_FOUR {
      assert k in PLACES;
    }
  }

  predicate AtPlaces(tbl: seq<nat>, ni: nat, used: nat) {
    |tbl| == TableSearch.LAST_NI + 1 && forall k :: 0 <= k < |tbl| ==> tbl[k] == if k in PLACES then ni else used
  }

  lemma AtPlacesAccepted(tbl: seq<nat>, ni: nat, used: nat)
    requires ni != used && AtPlaces(tbl, ni, used)
    ensures Accepted(tbl, ni)
  {
    forall j | 0 <= j < |PLACES| ensures tbl[PLACES[j]] == ni {
      assert PLACES[j] in PLACES;
    }
  }

  lemma AtPlacesFour(tbl: seq<nat>, ni: nat, used: nat)
    requires ni != used && AtPlaces(tbl, ni, used)
    ensures FirstHoles(FIRST_FOUR, tbl, ni) && tbl[0] == used
  {
    FirstFour(tbl, ni);
  }

  lemma FourFoundFits(ni: nat, used: nat)
    requires ni != used
    ensures var s := FourFound(ni, used); Accepted(s.tbl, ni) && Fresh(s, ni, 4) && s.tbl[0] == used
  {
    var s := FourFound(ni, used);
    AtPlacesAccepted(s.tbl, ni, used);
    AtPlacesFour(s.tbl, ni, used);
    assert s.free[..4] == FIRST_FOUR;
  }

  /** A fifth call then loses entry 0 of the table. */
  lemma FifthLoses(ni: nat, used: nat, ps: seq<nat>)
    requires ni != used && |ps| == 5
    ensures Fresh(FourFound(ni, used), ni, 4) && FourFound(ni, used).tbl[0] == used
    ensures Restored(AddedAll(FourFound(ni, used), ps), ni).tbl[0] == ni
  {
    var s := FourFound(ni, used);
    FourFoundFits(ni, used);
    AddedThenRestored(s, ni, ps, 0);
    assert s.free[..5][4] == 0;
  }

  lemma UsedHold(s: Globals, ni: nat, found: nat, n: nat, k: nat)
    requires Fresh(s, ni, found) && n <= MAX_FREE && k < |s.tbl| && (n <= found || s.tbl[0] == ni)
    ensures k in s.free[..n] ==> s.tbl[k] == ni
  {
    if k in s.free[..n] {
      var j :| 0 <= j < n && s.free[j] == k;
      if j < found {
        assert s.free[..found][j] == k;
      }
    }
  }

  // --------------------------------------------------------------------------------------------------------

  /** How many entries a call of foundFree_entries looks for; the test of line 117 follows the first store. */
  function Wanted(num: int): (n: nat) {
    if num < 1 then 1 else if num > MAX_FREE then MAX_FREE else num
  }

  /** The globals hacked_syscall_tbl, hacked_ni_syscall, free_entries and nextFree. */
  class Installer {
    var tbl: array?<nat>
    var ni: nat
    const free: array<nat>
    var next: nat

    ghost predicate Valid()
      reads this, tbl, free
    {
      && free.Length == MAX_FREE && tbl != free
      && if tbl == null then next == 0 else tbl.Length > 0 && Sound(Model())
    }

    ghost function Model(): Globals
      reads this, tbl, free
    {
      Globals(if tbl == null then [] else tbl[..], free[..], next)
    }

    constructor ()
      ensures tbl == null && next == 0 && fresh(free) && free.Length == MAX_FREE
      ensures forall k :: 0 <= k < MAX_FREE ==> free[k] == 0
    {
      tbl, ni, next := null, 0, 0;
      free := new nat[MAX_FREE](i => 0);
    }

    /**
     * foundFree_entries after its search: either all that it may look at can be read, or the table holds the
     * placeholder at as many known places as are asked for, and then nothing after the last of them is looked at.
     */
    method FindFree(num: int) returns (found: int)
      requires free.Length == MAX_FREE && tbl != free
      requires tbl != null ==> tbl.Length >= TO_EXPLORE || PlacesHold(tbl[..], ni, Wanted(num))
      modifies free
      ensures tbl == null ==> found == -1 && free[..] == old(free[..])
      ensures tbl != null ==> 0 <= found <= MAX_FREE && Found(free[..found], tbl[..], ni, Wanted(num))
      ensures tbl != null ==> forall k :: found <= k < free.Length ==> free[k] == old(free[k])
    {
      if tbl == null {
        return -1;
      }
      ghost var t, want, hs := tbl[..], Wanted(num), [];
      var j, i := 0, 0;
      while i < TO_EXPLORE
        invariant 0 <= i <= |t| && i <= TO_EXPLORE && |hs| == j < want
        invariant free[..j] == hs == HolesBelow(t, ni, i)
        invariant forall k :: j <= k < free.Length ==> free[k] == old(free[k])
      {
        StillInside(t, ni, i, want);
        if tbl[i] == ni {
          free[j] := i;
          hs := hs + [i];
          j := j + 1;
          assert free[..j] == hs;
          if j >= (if MAX_FREE < num then MAX_FREE else num) {
            Complete(t, ni, i, want);
            return j;
          }
        }
        i := i + 1;
      }
      StillInside(t, ni, i, want);
      Exhausted(t, ni, want);
      return j;
    }

    /** add_syscall; the result is the entry used. */
    method AddSyscall(p: nat) returns (r: int)
      requires Valid() && tbl != null
      modifies this`next, tbl
      ensures Valid() && tbl == old(tbl) && Model() == Added(old(Model()), p)
      ensures r == if old(next) < MAX_FREE then free[old(next)] else -1
    {
      if next < MAX_FREE {
        tbl[free[next]] := p;
        next := next + 1;
        return free[next - 1];
      }
      return -1;
    }

    /** removeAllSyscall. */
    method RemoveAll()
      requires Valid()
      modifies this`next, tbl
      ensures Valid() && next == 0 && tbl == old(tbl)
      ensures if tbl == null then Model() == old(Model()) else Model() == Restored(old(Model()), ni)
    {
      while next > 0
        invariant Valid() && tbl == old(tbl)
        invariant tbl == null ==> Model() == old(Model())
        invariant tbl != null ==> Restored(Model(), ni) == Restored(old(Model()), ni)
        decreases next
      {
        ghost var s := Model();
        tbl[free[next - 1]] := ni;
        next := next - 1;
        assert Model() == Globals(s.tbl[s.free[s.next - 1] := ni], s.free, s.next - 1);
      }
    }

    /** The calls that main.c makes through exposeNewSyscall. */
    method Expose(ps: seq<nat>) returns (numbers: seq<int>)
      requires Valid() && tbl != null && next == 0 && |ps| <= MAX_FREE
      modifies this`next, tbl
      ensures Valid() && tbl == old(tbl) && Model() == AddedAll(old(Model()), ps)
      ensures |numbers| == |ps| && forall j :: 0 <= j < |ps| ==> numbers[j] == free[j]
    {
      ghost var s := Model();
      numbers := [];
      while |numbers| < |ps|
        invariant Valid() && tbl == old(tbl) && free[..] == s.free && next == |numbers| <= |ps|
        invariant AddedAll(Model(), ps[next..]) == AddedAll(s, ps)
        invariant forall j :: 0 <= j < next ==> numbers[j] == free[j]
      {
        assert ps[next..] == [ps[next]] + ps[next + 1..];
        var r := AddSyscall(ps[next]);
        numbers := numbers + [r];
      }
    }

    method FindFour() returns (ghost s: Globals)
      requires Valid() && tbl != null && next == 0 && Accepted(tbl[..], ni)
      requires forall k :: 0 <= k < MAX_FREE ==> free[k] == 0
      modifies free
      ensures Valid() && tbl == old(tbl) && next == 0 && s == Model() && s.tbl == old(tbl[..]) && Fresh(s, ni, 4)
    {
      AcceptedHolds(tbl[..], ni);
      var found := FindFree(4);
      s := Model();
    }

    /** The load of the module in main.c: it looks for four entries and fills them. */
    method Load(ps: seq<nat>) returns (numbers: seq<int>, ghost s: Globals)
      requires Valid() && tbl != null && next == 0 && Accepted(tbl[..], ni) && |ps| <= 4
      requires forall k :: 0 <= k < MAX_FREE ==> free[k] == 0
      modifies this`next, tbl, free
      ensures Valid() && tbl == old(tbl) && s.tbl == old(tbl[..]) && Fresh(s, ni, 4) && Model() == AddedAll(s, ps)
      ensures |numbers| == |ps| && forall j :: 0 <= j < |ps| ==> numbers[j] == free[j]
    {
      s := FindFour();
      numbers := Expose(ps);
    }

    /** The load and then the unload. */
    method LoadThenUnload(ps: seq<nat>) returns (numbers: seq<int>)
      requires Valid() && tbl != null && next == 0 && Accepted(tbl[..], ni) && |ps| <= 4
      requires forall k :: 0 <= k < MAX_FREE ==> free[k] == 0
      modifies this`next, tbl, free
      ensures tbl == old(tbl) && tbl[..] == old(tbl[..]) && next == 0
      ensures |numbers| == |ps| && FirstHoles(free[..4], tbl[..], ni)
      ensures forall j :: 0 <= j < |ps| ==> numbers[j] == free[j]
    {
      ghost var s;
      numbers, s := Load(ps);
      RoundTrip(s, ni, 4, ps);
      RemoveAll();
    }
  }
}
