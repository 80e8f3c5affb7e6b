// The gap between lines 188 and 189: exactly when a lookup fails to be linearizable, and that it does happen.
module EpochGap {
  import opened EpochMachine
  import opened EpochChain
  import opened EpochShape
  import opened EpochCounters
  import opened EpochLookup
  import opened EpochLevels
  import opened EpochScenario
  import opened Sizes

  /** At every instant up to state n at which t was registered, the list had an element of its level. */
  ghost predicate AlwaysThere(vs: seq<View>, n: nat, t: nat)
    requires n < |vs|
  {
    forall m :: 0 <= m <= n && t in vs[m].c.readers && Registered(vs[m].c.readers[t]) ==>
      HasLevel(vs[m], vs[m].c.readers[t].key)
  }

  /** Reader t has nothing left to find. */
  predicate Lost(v: View, t: nat) {
    && t in v.c.readers && v.c.readers[t].pc in {Walk, Leave, Uncount, Returned} && v.c.readers[t].cur == NULL
  }

  lemma LostStays(v: View, a: Action, t: nat)
    requires Enabled(v.c, a) && Lost(v, t)
    ensures Lost(Step(v, a), t)
  {
    if a.Read? {
      ReadFrame(v.c, a.t);
    } else if a.Write? {
      WriteFrame(v.c, a.w);
    }
  }

  lemma {:induction false} LostFrom(vs: seq<View>, acts: seq<Action>, m: nat, n: nat, t: nat)
    requires Run(vs, acts) && m <= n < |vs| && Lost(vs[m], t)
    ensures Lost(vs[n], t)
    decreases n - m
  {
    if m == n {
    } else {
      RunStep(vs, acts, m);
      LostStays(vs[m], acts[m], t);
      LostFrom(vs, acts, m + 1, n, t);
    }
  }

  /** The step off the gap. */
  lemma StepsOff(vs: seq<View>, acts: seq<Action>, m: nat, t: nat)
    requires Run(vs, acts) && m < |acts| && acts[m] == Read(t) && CutOff(vs[m], t)
    ensures Lost(vs[m + 1], t)
  {
    RunShape(vs, acts, m);
    RunStep(vs, acts, m);
    assert WriterOk(vs[m], vs[m].c.lock.w);
    WalkAhead(vs[m], t);
  }

  lemma NeverNull(vs: seq<View>, acts: seq<Action>, n: nat, t: nat)
    requires Run(vs, acts) && n < |vs|
    ensures AlwaysThere(vs, n, t) <==> !WasRight(vs, n, t, NULL)
  {
    forall m | 0 <= m <= n && t in vs[m].c.readers && Registered(vs[m].c.readers[t])
      ensures HasLevel(vs[m], vs[m].c.readers[t].key) <==> !RightNow(vs[m], t, NULL)
    {
      RunShape(vs, acts, m);
      FirstThere(vs[m], vs[m].c.readers[t].key);
    }
  }

  /**
   * The exact limit of lookups: what a lookup returns was the right answer at no instant at which it was registered
   * if and only if it stepped off an element published but not yet linked, with an element of its level behind,
   * and its level was in the list all the time.
   */
  lemma LookupFailsExactly(vs: seq<View>, acts: seq<Action>, n: nat, t: nat)
    requires Run(vs, acts) && n < |vs| && t in vs[n].c.readers && HasReturned(vs[n].c.readers[t])
    ensures !WasRight(vs, n, t, vs[n].c.readers[t].cur) <==> SteppedOff(vs, acts, n, t) && AlwaysThere(vs, n, t)
    ensures SteppedOff(vs, acts, n, t) ==> vs[n].c.readers[t].cur == NULL
  {
    LookupLinearizes(vs, acts, n, t);
    NeverNull(vs, acts, n, t);
    if SteppedOff(vs, acts, n, t) {
      var m :| 0 <= m < n && acts[m] == Read(t) && CutOff(vs[m], t);
      StepsOff(vs, acts, m, t);
      LostFrom(vs, acts, m + 1, n, t);
    }
  }

  /**
   * On the list of a service in use, where every level is always there: a lookup returns an element of its level
   * that was the right one at some instant, unless it stepped off the gap, and then it returns NULL.
   */
  lemma ServiceLookup(vs: seq<View>, acts: seq<Action>, n: nat, t: nat)
    requires Run(vs, acts) && InUse(acts) && AllLevels(vs[0])
    requires n < |vs| && t in vs[n].c.readers && HasReturned(vs[n].c.readers[t])
    ensures var x := vs[n].c.readers[t].cur;
      && (x == NULL <==> SteppedOff(vs, acts, n, t))
      && (x == NULL <==> !WasRight(vs, n, t, x))
  {
    ServiceLevels(vs, acts, n, t);
    LookupFailsExactly(vs, acts, n, t);
    NeverNull(vs, acts, n, t);
  }

  lemma ServiceLevels(vs: seq<View>, acts: seq<Action>, n: nat, t: nat)
    requires Run(vs, acts) && InUse(acts) && AllLevels(vs[0]) && n < |vs|
    ensures AlwaysThere(vs, n, t)
  {
    forall m | 0 <= m <= n && t in vs[m].c.readers && Registered(vs[m].c.readers[t])
      ensures HasLevel(vs[m], vs[m].c.readers[t].key)
    {
      LevelsStay(vs, acts, m);
      RunShape(vs, acts, m);
      LevelThere(vs[m], vs[m].c.readers[t].key);
    }
  }

  // --------------------------------------------------------------------------------------------------------
  // From the gap to the failed lookup

  /** Reader t stays lost with its next step, and its level stays in the list. */
  lemma LostGoesOn(vs: seq<View>, acts: seq<Action>, t: nat) returns (vs': seq<View>, acts': seq<Action>)
    requires Run(vs, acts) && Lost(vs[|acts|], t) && vs[|acts|].c.readers[t].pc in {Walk, Leave}
    requires vs[|acts|].c.Wf() && AlwaysThere(vs, |acts|, t)
    ensures Run(vs', acts') && vs <= vs' && acts' == acts + [Read(t)]
    ensures Lost(vs'[|acts'|], t) && vs'[|acts'|].c.Wf() && AlwaysThere(vs', |acts'|, t)
    ensures vs'[|acts'|].c.readers[t].pc == if vs[|acts|].c.readers[t].pc == Walk then Leave else Uncount
  {
    var v := vs[|acts|];
    LostStays(v, Read(t), t);
    ReadFrame(v.c, t);
    vs', acts' := Then(vs, acts, Read(t));
    forall m | 0 <= m <= |acts'| && t in vs'[m].c.readers && Registered(vs'[m].c.readers[t])
      ensures HasLevel(vs'[m], vs'[m].c.readers[t].key)
    {
      if m <= |acts| {
        assert vs'[m] == vs[m];
      } else {
        assert HasLevel(v, v.c.readers[t].key);
      }
    }
  }

  lemma GapGoesOn(vs: seq<View>, acts: seq<Action>, t: nat) returns (vs': seq<View>, acts': seq<Action>)
    requires Run(vs, acts) && CutOff(vs[|acts|], t) && AlwaysThere(vs, |acts|, t)
    ensures Run(vs', acts') && vs <= vs' && acts' == acts + [Read(t)]
    ensures Lost(vs'[|acts'|], t) && vs'[|acts'|].c.Wf() && AlwaysThere(vs', |acts'|, t)
    ensures vs'[|acts'|].c.readers[t].pc == Walk
  {
    var v := vs[|acts|];
    RunShape(vs, acts, |acts|);
    assert WriterOk(v, v.c.lock.w);
    WalkAhead(v, t);
    ReadFrame(v.c, t);
    vs', acts' := Then(vs, acts, Read(t));
    forall m | 0 <= m <= |acts'| && t in vs'[m].c.readers && Registered(vs'[m].c.readers[t])
      ensures HasLevel(vs'[m], vs'[m].c.readers[t].key)
    {
      if m <= |acts| {
        assert vs'[m] == vs[m];
      } else {
        assert HasLevel(v, v.c.readers[t].key);
      }
    }
  }

  /** From every state in the gap, three steps of the reader end its lookup with NULL, which was right at no instant. */
  lemma GapLoses(vs: seq<View>, acts: seq<Action>, t: nat) returns (vs': seq<View>, acts': seq<Action>)
    requires Run(vs, acts) && CutOff(vs[|acts|], t) && AlwaysThere(vs, |acts|, t)
    ensures Run(vs', acts') && vs <= vs' && acts' == acts + [Read(t), Read(t), Read(t)]
    ensures t in vs'[|acts'|].c.readers && HasReturned(vs'[|acts'|].c.readers[t])
    ensures vs'[|acts'|].c.readers[t].cur == NULL && !WasRight(vs', |acts'|, t, NULL)
    ensures AlwaysThere(vs', |acts'|, t)
  {
    vs', acts' := GapGoesOn(vs, acts, t);
    vs', acts' := LostGoesOn(vs', acts', t);
    vs', acts' := LostGoesOn(vs', acts', t);
    NeverNull(vs', acts', |acts'|, t);
  }

  // --------------------------------------------------------------------------------------------------------
  // A run into the gap, on the list of any service: a reader of level 0 is released by AWAKE_ALL and stands on the
  // first element when a send of level 30 publishes its element behind it.

  const SENT: int := LEVELS - 2

  /** The first two elements of the list, and the last. */
  predicate Ends(v: View, head: Addr, second: Addr) {
    && v.c.head == head && v.c.Next(head) == second && head != NULL && second != NULL
    && v.c.Level(head) == LEVELS - 1 && v.c.Level(second) == SENT
    && |v.live| == LEVELS && v.live[0] == head && NULL !in v.live && head in v.c.next
    && v.c.Level(v.live[LEVELS - 1]) == 0
    && (forall a :: a in v.live ==> a in v.c.next)
  }

  lemma InitEnds(v: View)
    requires Init(v) && AllLevels(v)
    ensures Ends(v, v.live[0], v.live[1])
  {
    forall a | a in v.live ensures a in v.c.next && a != NULL {
      ChainMember(v.c.next, v.c.head, v.live, a);
    }
    assert Chain(v.c.next, v.c.next[v.c.head], v.live[1..]) && v.live[1..][0] == v.live[1];
    assert v.live[0] in v.live && v.live[1] in v.live;
    assert v.c.Level(v.live[LEVELS - 1]) == 0;
  }

  lemma SendPublishes(R: View -> bool, v0: View, head: Addr, second: Addr, p: Addr) returns (v: View)
    requires KeptBySteps(R, IN_SERVICE, false) && R(v0) && v0.c.Wf() && Ends(v0, head, second)
    requires v0.c.lock == Open && v0.c.writers.Keys == {1} && p != NULL && p !in v0.c.next && p !in v0.c.level
    requires v0.path == map[0 := v0.live]
    ensures R(v) && v.c.Wf() && v.live == [head, p] + Drop1(Suffix(v0.live, head)) && v.path == map[0 := v.live]
    ensures v.c == v0.c.(next := v0.c.next[p := NULL][head := p], level := v0.c.level[p := SENT], lock := Held(2),
                         writers := v0.c.writers[2 := Writer(Send, SENT, Relink, p, head, second, 0)])
  {
    v := Acquires(R, IN_SERVICE, false, v0, 2, Send, SENT, p);
    v := Looks(R, IN_SERVICE, false, v, 2, Writer(Send, SENT, Look, p, NULL, NULL, 0));
    var x := Writer(Send, SENT, Seek, p, head, NULL, 0);
    assert Reroute(v.live, head, NewTail(v.live, x)) == [head, p] + Drop1(Suffix(v0.live, head));
    v := Publishes(R, IN_SERVICE, false, v, 2, x);
  }

  lemma EntersGap(R: View -> bool, v0: View) returns (v: View)
    requires KeptBySteps(R, IN_SERVICE, false) && R(v0) && Init(v0) && AllLevels(v0)
    ensures R(v) && CutOff(v, 0)
  {
    var head, second := v0.live[0], v0.live[1];
    InitEnds(v0);
    var p := Above(v0.c.next.Keys);
    v := StandsOnHead(R, IN_SERVICE, false, v0);
    var v1 := SendPublishes(R, v, head, second, p);
    v := Reads(R, IN_SERVICE, false, v1, 0, Reader(0, v0.c.epoch, Walk, head));
    BehindTheGap(v0, v1, head, second, p);
  }

  lemma BehindTheGap(v0: View, v: View, head: Addr, second: Addr, p: Addr)
    requires Ends(v0, head, second) && p !in v0.c.next
    requires v.live == [head, p] + Drop1(Suffix(v0.live, head)) && v.c.level == v0.c.level[p := SENT]
    ensures First(v.c.level, Suffix(v.live, p), 0) != NULL
  {
    var rest := v0.live[2..];
    assert Drop1(Suffix(v0.live, head)) == rest;
    assert v.live[1..] == [p] + rest && ([p] + rest)[1..] == rest;
    assert Suffix(v.live, p) == rest;
    var last := rest[LEVELS - 3];
    assert last == v0.live[LEVELS - 1] && last in rest && last in v0.live;
    assert LevelOf(v.c.level, last) == 0;
    assert forall a :: a in rest ==> a in v0.live;
    FirstInList(v.c.level, rest, 0);
  }

  /**
   * So it happens on the list of every service: without signals, with readers, sends and AWAKE_ALLs only, a lookup
   * returns NULL though its level was in the list all the time.
   */
  lemma LookupCanFail(v0: View) returns (vs: seq<View>, acts: seq<Action>, t: nat)
    requires Init(v0) && AllLevels(v0)
    ensures Run(vs, acts) && vs[0] == v0 && SignalFree(acts) && InUse(acts)
    ensures t in vs[|acts|].c.readers && HasReturned(vs[|acts|].c.readers[t]) && vs[|acts|].c.readers[t].cur == NULL
    ensures AlwaysThere(vs, |acts|, t) && !WasRight(vs, |acts|, t, NULL)
  {
    t := 0;
    ReachedIsKept(v0, IN_SERVICE, false);
    StartReached(v0, IN_SERVICE, false);
    var v := EntersGap(v => Reached(v0, IN_SERVICE, false, v), v0);
    vs, acts :| RunFrom(v0, vs, acts, IN_SERVICE, false) && vs[|acts|] == v;
    ServiceLevels(vs, acts, |acts|, t);
    vs, acts := GapLoses(vs, acts, t);
  }

  // --------------------------------------------------------------------------------------------------------
  // There is such a list

  function Levels(n: nat): seq<Addr> { seq(n, i requires 0 <= i < n => n - i) }

  predicate IsCell(a: Addr) { 1 <= a <= LEVELS }

  function ServiceCore(): Core {
    var below := map a | 1 <= a <= LEVELS && IsCell(a) :: a - 1;
    Core(below, below, LEVELS, {}, 0, [0, 0], seq(LEVELS, _ => false), seq(LEVELS, _ => 0), map[], map[], Open)
  }

  lemma {:induction false} LevelsChain(m: map<Addr, Addr>, n: nat)
    requires forall a :: 1 <= a <= n ==> a in m && m[a] == a - 1
    ensures Chain(m, n, Levels(n))
  {
    if n == 0 {
    } else {
      LevelsChain(m, n - 1);
      assert Levels(n)[1..] == Levels(n - 1);
    }
  }

  /** The list that new_TAG_Service makes. */
  lemma NewService() returns (v: View)
    ensures Init(v) && AllLevels(v)
  {
    v := View(ServiceCore(), Levels(LEVELS), map[]);
    LevelsChain(v.c.next, LEVELS);
  }
}
