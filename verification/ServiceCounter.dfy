// serviceCount when calls overlap: creations and removals as steps, under the reader-writer lock searchLock.
module ServiceCounter {
  import opened Sizes

  datatype Op = CreatePrivate | CreatePublic | Remove

  datatype Pc =
    | Check      // line 36: compare serviceCount with the capacity
    | Insert     // lines 46 and 63: take the first free slot, under the write lock
    | CountUp    // line 53 after the unlock for a private key, line 70 before it for a public one
    | Clear      // line 424, under the read lock
    | CountDown  // line 427, under the read lock
    | Done
    | Refused    // ETOOMANYREFS
    | Stuck      // no free slot: the call returns with the write lock held (lines 47-50, 64-67)

  datatype Call = Call(op: Op, pc: Pc, slot: nat)

  /** taken: the occupied slots; writer: the call that holds the write lock between two steps. */
  datatype State = State(taken: set<nat>, count: nat, calls: map<nat, Call>, writer: set<nat>)

  datatype Action = Arrive(id: nat, op: Op, slot: nat) | Go(id: nat)

  /** The calls that hold the read lock between two steps. */
  predicate Reading(s: State) {
    exists id :: id in s.calls && s.calls[id].pc == CountDown
  }

  predicate Enabled(s: State, a: Action) {
    match a
    case Arrive(id, op, slot) => id !in s.calls
    case Go(id) =>
      && id in s.calls
      && match s.calls[id].pc
         case Check => true
         case Insert => s.writer == {} && !Reading(s)
         case CountUp => true
         // the tag was found under the lock, and removals do not overlap
         case Clear => s.writer == {} && s.calls[id].slot in s.taken && !Reading(s)
         case CountDown => true
         case _ => false
  }

  predicate IsFirstFree(taken: set<nat>, i: nat) {
    i < SERVICES && i !in taken && forall j :: 0 <= j < i ==> j in taken
  }

  predicate Full(taken: set<nat>) { forall j :: 0 <= j < SERVICES ==> j in taken }

  function Inserted(s: State, id: nat, i: nat): State
    requires id in s.calls
  {
    var c := s.calls[id];
    s.(taken := s.taken + {i}, calls := s.calls[id := c.(pc := CountUp, slot := i)],
       writer := if c.op == CreatePublic then {id} else {})
  }

  /** The state after a step; i is the slot that the scan of new_TAG_Service finds, if there is one. */
  ghost predicate Next(s: State, a: Action, s': State)
    requires Enabled(s, a)
  {
    match a
    case Arrive(id, op, slot) =>
      s' == s.(calls := s.calls[id := Call(op, if op == Remove then Clear else Check, slot)])
    case Go(id) =>
      var c := s.calls[id];
      match c.pc
      case Check => s' == s.(calls := s.calls[id := c.(pc := if s.count >= SERVICES then Refused else Insert)])
      case Insert =>
        if Full(s.taken) then s' == s.(calls := s.calls[id := c.(pc := Stuck)], writer := {id})
        else exists i :: IsFirstFree(s.taken, i) && s' == Inserted(s, id, i)
      case CountUp =>
        s' == s.(count := (s.count + 1) % UINT_RANGE, calls := s.calls[id := c.(pc := Done)],
                 writer := if c.op == CreatePublic then {} else s.writer)
      case Clear => s' == s.(taken := s.taken - {c.slot}, calls := s.calls[id := c.(pc := CountDown)])
      case CountDown => s' == s.(count := (s.count - 1) % UINT_RANGE, calls := s.calls[id := c.(pc := Done)])
      case _ => s' == s
  }

  predicate Init(s: State) { s == State({}, 0, map[], {}) }

  ghost predicate Run(ss: seq<State>, acts: seq<Action>) {
    && |ss| == |acts| + 1 && Init(ss[0])
    && forall i {:trigger acts[i]} :: 0 <= i < |acts| ==> Enabled(ss[i], acts[i]) && Next(ss[i], acts[i], ss[i + 1])
  }

  // --------------------------------------------------------------------------------------------------------

  function At(calls: map<nat, Call>, pc: Pc): set<nat> {
    set id | id in calls && calls[id].pc == pc
  }

  lemma AtUpdate(calls: map<nat, Call>, id: nat, c: Call, pc: Pc)
    ensures |At(calls[id := c], pc)| == |At(calls, pc)| + Bin(c.pc == pc) - Bin(id in calls && calls[id].pc == pc)
  {
    var before, after := At(calls, pc), At(calls[id := c], pc);
    assert after - {id} == before - {id};
    assert |after| == |after - {id}| + Bin(id in after) && |before| == |before - {id}| + Bin(id in before);
  }

  /** Occupied slots less what the counter will have caught up with. */
  function Owed(s: State): int {
    |s.taken| - |At(s.calls, CountUp)| + |At(s.calls, CountDown)|
  }

  predicate Balanced(s: State) {
    && s.count < UINT_RANGE && s.count == Owed(s) % UINT_RANGE
    && (forall i :: i in s.taken ==> i < SERVICES)
    && (forall id :: id in s.calls && s.calls[id].pc in {Clear, CountDown} ==> s.calls[id].op == Remove)
  }

  lemma NextBalanced(s: State, a: Action, s': State)
    requires Balanced(s) && Enabled(s, a) && Next(s, a, s')
    ensures Balanced(s')
  {
    var c' := s'.calls[a.id];
    assert s'.calls == s.calls[a.id := c'];
    AtUpdate(s.calls, a.id, c', CountUp);
    AtUpdate(s.calls, a.id, c', CountDown);
    ModStep(s.count, Owed(s));
  }

  lemma ModStep(n: int, m: int)
    requires n == m % UINT_RANGE
    ensures (n + 1) % UINT_RANGE == (m + 1) % UINT_RANGE && (n - 1) % UINT_RANGE == (m - 1) % UINT_RANGE
  {}

  /**
   * In every interleaving: the counter, plus the creations that have a slot and are not counted yet, minus the
   * removals that have given theirs up and are not counted yet, is the number of occupied slots, modulo 2^32.
   */
  lemma {:induction false} CounterInterleaved(ss: seq<State>, acts: seq<Action>, n: nat)
    requires Run(ss, acts) && n < |ss|
    ensures Balanced(ss[n])
    ensures (ss[n].count + |At(ss[n].calls, CountUp)| - |At(ss[n].calls, CountDown)|) % UINT_RANGE
         == |ss[n].taken| % UINT_RANGE
  {
    if n > 0 {
      CounterInterleaved(ss, acts, n - 1);
      assert Enabled(ss[n - 1], acts[n - 1]) && Next(ss[n - 1], acts[n - 1], ss[n]);
      NextBalanced(ss[n - 1], acts[n - 1], ss[n]);
    } else {
      assert At(ss[0].calls, CountUp) == {} && At(ss[0].calls, CountDown) == {};
    }
    ModSum(ss[n].count, |ss[n].taken|, |At(ss[n].calls, CountDown)| - |At(ss[n].calls, CountUp)|);
  }

  lemma ModSum(n: int, m: int, d: int)
    requires n == (m + d) % UINT_RANGE
    ensures (n - d) % UINT_RANGE == m % UINT_RANGE
  {}

  /** The counter reads the exact number of services when as many removals as creations await their count. */
  lemma CounterExactWhenEven(ss: seq<State>, acts: seq<Action>, n: nat)
    requires Run(ss, acts) && n < |ss|
    ensures ss[n].count == |ss[n].taken| <==>
      (|At(ss[n].calls, CountUp)| - |At(ss[n].calls, CountDown)|) % UINT_RANGE == 0
  {
    CounterInterleaved(ss, acts, n);
    TakenBound(ss[n].taken, SERVICES);
  }

  lemma {:induction false} TakenBound(s: set<nat>, n: nat)
    requires forall i :: i in s ==> i < n
    ensures |s| <= n
    decreases n
  {
    if n > 0 {
      TakenBound(s - {n - 1}, n - 1);
    } else {
      assert s == {};
    }
  }

  /**
   * The counter can pass below zero: a private service removed before its creation is counted leaves it at
   * 2^32 - 1 with every slot free, and a creator that looks then is refused.
   */
  lemma RemovedBeforeCounted() returns (ss: seq<State>, acts: seq<Action>)
    ensures Run(ss, acts) && ss[|acts|].taken == {} && 2 in ss[|acts|].calls
    ensures ss[|acts|].count == UINT_RANGE - 1 && ss[|acts|].calls[2] == Call(CreatePublic, Refused, 0)
  {
    acts := [Arrive(0, CreatePrivate, 0), Go(0), Go(0), Arrive(1, Remove, 0), Go(1), Go(1),
             Arrive(2, CreatePublic, 0), Go(2)];
    var c0 := Call(CreatePrivate, Check, 0);
    var c1 := Call(Remove, Clear, 0);
    var c2 := Call(CreatePublic, Check, 0);
    var inserted := map[0 := c0.(pc := CountUp)];
    var removed := inserted[1 := c1.(pc := Done)];
    assert IsFirstFree({}, 0) && {0 as nat} == {} + {0};
    ss := [State({}, 0, map[], {}),
           State({}, 0, map[0 := c0], {}),
           State({}, 0, map[0 := c0.(pc := Insert)], {}),
           State({0}, 0, inserted, {}),
           State({0}, 0, inserted[1 := c1], {}),
           State({}, 0, inserted[1 := c1.(pc := CountDown)], {}),
           State({}, UINT_RANGE - 1, removed, {}),
           State({}, UINT_RANGE - 1, removed[2 := c2], {}),
           State({}, UINT_RANGE - 1, removed[2 := c2.(pc := Refused)], {})];
  }

  // --------------------------------------------------------------------------------------------------------
  // The call that finds no slot: the check of line 36 and the insertion are not one step

  lemma RunStep(ss: seq<State>, acts: seq<Action>, n: nat)
    requires Run(ss, acts) && n < |acts|
    ensures Enabled(ss[n], acts[n]) && Next(ss[n], acts[n], ss[n + 1])
  {}

  predicate HasPc(s: State, id: nat, pc: Pc) { id in s.calls && s.calls[id].pc == pc }

  /** The step at which a call came to where it is. */
  lemma {:induction false} LastStep(ss: seq<State>, acts: seq<Action>, n: nat, id: nat, pc: Pc) returns (m: nat)
    requires Run(ss, acts) && n < |ss| && HasPc(ss[n], id, pc)
    ensures m < n && acts[m].id == id && HasPc(ss[m + 1], id, pc) && (acts[m].Go? ==> !HasPc(ss[m], id, pc))
    ensures forall q :: m < q < n ==> acts[q].id != id
    decreases n
  {
    RunStep(ss, acts, n - 1);
    if acts[n - 1].id == id {
      m := n - 1;
    } else {
      m := LastStep(ss, acts, n - 1, id, pc);
    }
  }

  /** Step q takes a slot. */
  ghost predicate Takes(ss: seq<State>, acts: seq<Action>, q: nat)
    requires Run(ss, acts)
  {
    q < |acts| && HasPc(ss[q], acts[q].id, Insert) && acts[q].Go? && ss[q].taken < ss[q + 1].taken
  }

  lemma {:induction false} WhoTook(ss: seq<State>, acts: seq<Action>, m: nat, n: nat) returns (q: nat)
    requires Run(ss, acts) && m <= n < |ss| && |ss[m].taken| < |ss[n].taken|
    ensures m <= q < n && Takes(ss, acts, q)
    decreases n
  {
    RunStep(ss, acts, n - 1);
    if |ss[n - 1].taken| < |ss[n].taken| {
      q := n - 1;
    } else {
      q := WhoTook(ss, acts, m, n - 1);
    }
  }

  lemma {:induction false} HoldsAll(s: set<nat>, n: nat)
    requires forall j :: 0 <= j < n ==> j in s
    ensures |s| >= n
    decreases n
  {
    if n > 0 {
      HoldsAll(s - {n - 1}, n - 1);
    }
  }

  /** The creator of a public service counts before it unlocks. */
  predicate Counting(s: State, id: nat) { HasPc(s, id, CountUp) && s.calls[id].op == CreatePublic }

  /** Removals do not overlap, and the write lock belongs to one call. */
  ghost predicate Locked(s: State) {
    && (forall i: nat, j: nat :: HasPc(s, i, CountDown) && HasPc(s, j, CountDown) ==> i == j)
    && (forall i: nat :: HasPc(s, i, Stuck) || Counting(s, i) ==> s.writer == {i})
  }

  lemma {:induction false} LockedRun(ss: seq<State>, acts: seq<Action>, n: nat)
    requires Run(ss, acts) && n < |ss|
    ensures Locked(ss[n])
  {
    if n == 0 {
    } else {
      LockedRun(ss, acts, n - 1);
      RunStep(ss, acts, n - 1);
      LockedNext(ss[n - 1], acts[n - 1], ss[n]);
    }
  }

  lemma LockedNext(s: State, a: Action, s': State)
    requires Locked(s) && Enabled(s, a) && Next(s, a, s')
    ensures Locked(s')
  {
    forall i: nat, pc: Pc | i != a.id ensures HasPc(s', i, pc) <==> HasPc(s, i, pc) {}
    forall i: nat | i != a.id ensures Counting(s', i) <==> Counting(s, i) {}
    forall i: nat | HasPc(s', i, Stuck) || Counting(s', i) ensures s'.writer == {i} {
      if i != a.id {
        assert s.writer == {i} && i in s.writer;
        assert Counting(s, a.id) ==> s.writer == {a.id};
      }
    }
    assert forall i: nat :: HasPc(s, i, CountDown) ==> Reading(s);
    assert HasPc(s', a.id, CountDown) ==> !Reading(s);
  }

  /** With no creation waiting for its count, the counter is not below the number of services. */
  lemma NotBelow(ss: seq<State>, acts: seq<Action>, n: nat)
    requires Run(ss, acts) && n < |ss| && At(ss[n].calls, CountUp) == {}
    ensures |ss[n].taken| <= ss[n].count
  {
    CounterInterleaved(ss, acts, n);
    LockedRun(ss, acts, n);
    TakenBound(ss[n].taken, SERVICES);
    var down := At(ss[n].calls, CountDown);
    if id :| id in down {
      assert forall j :: j in down ==> HasPc(ss[n], j, CountDown);
      assert down == {id};
    }
  }

  /**
   * A creation that finds no slot has overlapped with another: when it passed line 36, at step m, a creation that had
   * its slot was not counted yet, or between then and its own insertion, at step n, another call took a slot.
   */
  lemma StuckNeedsOverlap(ss: seq<State>, acts: seq<Action>, k: nat, id: nat) returns (m: nat, n: nat)
    requires Run(ss, acts) && k < |ss| && HasPc(ss[k], id, Stuck)
    ensures m < n < k && acts[m] == Go(id) == acts[n] && HasPc(ss[m], id, Check) && HasPc(ss[n], id, Insert)
    ensures Full(ss[n].taken) && HasPc(ss[n + 1], id, Stuck)
    ensures At(ss[m].calls, CountUp) != {} || exists q :: m < q < n && acts[q].id != id && Takes(ss, acts, q)
  {
    n := LastStep(ss, acts, k, id, Stuck);
    RunStep(ss, acts, n);
    m := LastStep(ss, acts, n, id, Insert);
    RunStep(ss, acts, m);
    HoldsAll(ss[n].taken, SERVICES);
    if At(ss[m].calls, CountUp) == {} {
      NotBelow(ss, acts, m);
      var q := WhoTook(ss, acts, m, n);
    }
  }

  /** Its return leaves the write lock held: from then on no slot is taken or given up. */
  lemma {:induction false} StuckForGood(ss: seq<State>, acts: seq<Action>, n: nat, k: nat, id: nat)
    requires Run(ss, acts) && n <= k < |ss| && HasPc(ss[n], id, Stuck)
    ensures HasPc(ss[k], id, Stuck) && ss[k].writer == {id} && ss[k].taken == ss[n].taken
    decreases k
  {
    LockedRun(ss, acts, k);
    if k > n {
      StuckForGood(ss, acts, n, k - 1, id);
      RunStep(ss, acts, k - 1);
    }
  }

  // --------------------------------------------------------------------------------------------------------
  // And it can happen whenever line 36 lets a creator pass

  predicate Prefix(ss: seq<State>, acts: seq<Action>, ss': seq<State>, acts': seq<Action>) {
    ss <= ss' && acts <= acts'
  }

  lemma Then(ss: seq<State>, acts: seq<Action>, a: Action, s': State) returns (ss': seq<State>, acts': seq<Action>)
    requires Run(ss, acts) && Enabled(ss[|acts|], a) && Next(ss[|acts|], a, s')
    ensures Run(ss', acts') && Prefix(ss, acts, ss', acts') && |acts'| == |acts| + 1 && ss'[|acts'|] == s'
  {
    ss', acts' := ss + [s'], acts + [a];
    forall i {:trigger acts'[i]} | 0 <= i < |acts'|
      ensures Enabled(ss'[i], acts'[i]) && Next(ss'[i], acts'[i], ss'[i + 1])
    {
      if i < |acts| {
        RunStep(ss, acts, i);
        assert ss'[i] == ss[i] && ss'[i + 1] == ss[i + 1];
      }
    }
  }

  /** No lock is held, and line 36 lets a creator pass. */
  predicate LetsPass(s: State) { s.writer == {} && !Reading(s) && s.count < SERVICES }

  lemma {:induction false} FirstFree(taken: set<nat>, n: nat) returns (i: nat)
    requires n <= SERVICES && (forall j :: 0 <= j < n ==> j in taken) && !Full(taken)
    ensures IsFirstFree(taken, i)
    decreases SERVICES - n
  {
    if n in taken {
      i := FirstFree(taken, n + 1);
    } else {
      i := n;
    }
  }

  lemma {:induction false} NewId(s: set<nat>) returns (id: nat)
    ensures forall i :: i in s ==> i < id
    decreases |s|
  {
    if s == {} {
      id := 0;
    } else {
      var a :| a in s;
      id := NewId(s - {a});
      id := if id <= a then a + 1 else id;
      assert forall i :: i in s ==> i == a || i in s - {a};
    }
  }

  /** A creator of a private service comes in and passes line 36. */
  lemma Passes(ss: seq<State>, acts: seq<Action>) returns (ss': seq<State>, acts': seq<Action>, id: nat)
    requires Run(ss, acts) && LetsPass(ss[|acts|])
    ensures Run(ss', acts') && Prefix(ss, acts, ss', acts') && id !in ss[|acts|].calls
    ensures var s, s' := ss[|acts|], ss'[|acts'|];
      LetsPass(s') && s' == s.(calls := s.calls[id := Call(CreatePrivate, Insert, 0)])
  {
    var s := ss[|acts|];
    id := NewId(s.calls.Keys);
    var c := Call(CreatePrivate, Check, 0);
    var s1 := s.(calls := s.calls[id := c]);
    var ss1, acts1 := Then(ss, acts, Arrive(id, CreatePrivate, 0), s1);
    var s2 := s.(calls := s.calls[id := c.(pc := Insert)]);
    assert s2 == s1.(calls := s1.calls[id := c.(pc := Insert)]);
    ss', acts' := Then(ss1, acts1, Go(id), s2);
    assert forall i :: HasPc(s2, i, CountDown) ==> HasPc(s, i, CountDown);
  }

  /** It takes a slot; its count comes later. */
  lemma TakesSlot(ss: seq<State>, acts: seq<Action>, id: nat) returns (ss': seq<State>, acts': seq<Action>)
    requires Run(ss, acts) && LetsPass(ss[|acts|]) && !Full(ss[|acts|].taken)
    requires id in ss[|acts|].calls && ss[|acts|].calls[id] == Call(CreatePrivate, Insert, 0)
    ensures Run(ss', acts') && Prefix(ss, acts, ss', acts')
    ensures var s, s' := ss[|acts|], ss'[|acts'|];
      && LetsPass(s') && |s'.taken| == |s.taken| + 1 && s'.calls.Keys == s.calls.Keys && s'.count == s.count
      && s'.calls[id].pc == CountUp && s'.calls[id].op == CreatePrivate
  {
    var s := ss[|acts|];
    var i := FirstFree(s.taken, 0);
    var s' := Inserted(s, id, i);
    ss', acts' := Then(ss, acts, Go(id), s');
    assert forall j :: HasPc(s', j, CountDown) ==> HasPc(s, j, CountDown);
  }

  /**
   * From every reachable state without a lock held in which line 36 lets a creator pass: as many creators as there
   * are free slots, and one more, pass before any of them is counted, and the last one finds no slot. With one slot
   * left, two creators are enough.
   */
  lemma {:induction false} OneTooMany(ss: seq<State>, acts: seq<Action>)
    returns (ss': seq<State>, acts': seq<Action>, id: nat)
    requires Run(ss, acts) && LetsPass(ss[|acts|])
    ensures Run(ss', acts') && Prefix(ss, acts, ss', acts') && HasPc(ss'[|acts'|], id, Stuck)
    ensures |ss'[|acts'|].calls| == |ss[|acts|].calls| + (SERVICES - |ss[|acts|].taken|) + 1
    decreases SERVICES - |ss[|acts|].taken|
  {
    var s := ss[|acts|];
    CounterInterleaved(ss, acts, |acts|);
    TakenBound(s.taken, SERVICES);
    var ss1, acts1;
    ss1, acts1, id := Passes(ss, acts);
    var s1 := ss1[|acts1|];
    assert s1.calls.Keys == s.calls.Keys + {id};
    assert |s1.calls| == |s1.calls.Keys| && |s.calls| == |s.calls.Keys|;
    if Full(s.taken) {
      HoldsAll(s.taken, SERVICES);
      ss', acts' := Then(ss1, acts1, Go(id),
                         s1.(calls := s1.calls[id := s1.calls[id].(pc := Stuck)], writer := {id}));
      assert ss'[|acts'|].calls.Keys == s1.calls.Keys;
      assert |ss'[|acts'|].calls| == |ss'[|acts'|].calls.Keys|;
    } else {
      FreeMeansFewer(s.taken);
      var ss2, acts2 := TakesSlot(ss1, acts1, id);
      assert |ss2[|acts2|].calls| == |ss2[|acts2|].calls.Keys|;
      ss', acts', id := OneTooMany(ss2, acts2);
    }
  }

  lemma FreeMeansFewer(taken: set<nat>)
    requires (forall i :: i in taken ==> i < SERVICES) && !Full(taken)
    ensures |taken| < SERVICES
  {
    var j :| 0 <= j < SERVICES && j !in taken;
    TakenBound(taken + {j}, SERVICES);
  }

  /** A run of n creations, one after the other. */
  lemma {:induction false} Fills(n: nat) returns (ss: seq<State>, acts: seq<Action>)
    requires n < SERVICES
    ensures Run(ss, acts) && LetsPass(ss[|acts|]) && |ss[|acts|].taken| == ss[|acts|].count == n
    decreases n
  {
    if n == 0 {
      ss, acts := [State({}, 0, map[], {})], [];
    } else {
      ss, acts := Fills(n - 1);
      var id;
      CounterInterleaved(ss, acts, |acts|);
      ss, acts, id := Passes(ss, acts);
      HoldsFewer(ss[|acts|].taken);
      ss, acts := TakesSlot(ss, acts, id);
      var s := ss[|acts|];
      var s' := s.(count := n, calls := s.calls[id := s.calls[id].(pc := Done)]);
      ss, acts := Then(ss, acts, Go(id), s');
      assert forall i :: HasPc(s', i, CountDown) ==> HasPc(s, i, CountDown);
    }
  }

  lemma HoldsFewer(taken: set<nat>)
    requires |taken| < SERVICES
    ensures !Full(taken)
  {
    if Full(taken) {
      HoldsAll(taken, SERVICES);
    }
  }

  /** A run in which two creators come when one slot is left and the counter is exact; both pass line 36. */
  lemma TwoForOneSlot() returns (ss: seq<State>, acts: seq<Action>, n: nat, id: nat)
    ensures Run(ss, acts) && n < |acts| && |ss[n].taken| == ss[n].count == SERVICES - 1
    ensures |ss[|acts|].calls| == |ss[n].calls| + 2 && HasPc(ss[|acts|], id, Stuck)
  {
    var ss1, acts1 := Fills(SERVICES - 1);
    n := |acts1|;
    ss, acts, id := OneTooMany(ss1, acts1);
  }
}
