// What the counters of the list count, in every reachable state, signals included.
module EpochCounters {
  import opened EpochMachine
  import opened EpochShape
  import opened Sizes

  datatype Group =
    | Inside(b: Bit)        // registered with snapshot b
    | Interrupted(b: Bit)   // ended by a signal with snapshot b, line 42 done
    | Waiting(k: int)       // between lines 39 and 43 or 57, of level k

  predicate In(g: Group, r: Reader) {
    match g
    case Inside(b) => Registered(r) && r.snap == b
    case Interrupted(b) => r.pc in {IntrUncount, IntrReturned} && r.snap == b
    case Waiting(k) => r.key == k && r.pc !in {Reset, Count, Returned, IntrReturned}
  }

  function Members(rs: map<nat, Reader>, g: Group): set<nat> {
    set t | t in rs && In(g, rs[t])
  }

  lemma MembersUpdate(rs: map<nat, Reader>, t: nat, r: Reader, g: Group)
    ensures |Members(rs[t := r], g)| == |Members(rs, g)| + Bin(In(g, r)) - Bin(t in rs && In(g, rs[t]))
  {
    var before, after := Members(rs, g), Members(rs[t := r], g);
    assert after - {t} == before - {t};
    assert |after| == |after - {t}| + Bin(t in after) && |before| == |before - {t}| + Bin(t in before);
  }

  predicate Conserved(c: Core) {
    && c.Wf()
    && (forall b: Bit :: c.standing[b] == |Members(c.readers, Inside(b))| - |Members(c.readers, Interrupted(b))|)
    && (forall k :: 0 <= k < LEVELS ==> c.waiters[k] == |Members(c.readers, Waiting(k))|)
  }

  /** Gain of group g when t's record becomes r. */
  function Gain(rs: map<nat, Reader>, t: nat, r: Reader, g: Group): int {
    Bin(In(g, r)) - Bin(t in rs && In(g, rs[t]))
  }

  /** Each store to a counter goes with the change of program counter it stands for. */
  lemma ReadBalance(c: Core, t: nat, b: Bit, k: int)
    requires c.Wf() && t in c.readers && 0 <= k < LEVELS
    ensures var c' := ReaderNext(c, t); var r' := c'.readers[t];
      && c'.standing[b] - c.standing[b] == Gain(c.readers, t, r', Inside(b)) - Gain(c.readers, t, r', Interrupted(b))
      && c'.waiters[k] - c.waiters[k] == Gain(c.readers, t, r', Waiting(k))
  {}

  lemma ReadConserves(c: Core, t: nat)
    requires Conserved(c) && t in c.readers && ReaderNext(c, t).Wf()
    ensures Conserved(ReaderNext(c, t))
  {
    var c' := ReaderNext(c, t);
    var r' := c'.readers[t];
    assert c'.readers == c.readers[t := r'];
    forall b: Bit ensures c'.standing[b] == |Members(c'.readers, Inside(b))| - |Members(c'.readers, Interrupted(b))| {
      ReadBalance(c, t, b, 0);
      MembersUpdate(c.readers, t, r', Inside(b));
      MembersUpdate(c.readers, t, r', Interrupted(b));
    }
    forall k | 0 <= k < LEVELS ensures c'.waiters[k] == |Members(c'.readers, Waiting(k))| {
      ReadBalance(c, t, 0, k);
      MembersUpdate(c.readers, t, r', Waiting(k));
    }
  }

  lemma QuietConserves(c: Core, c': Core, t: nat)
    requires Conserved(c) && c'.Wf() && t in c'.readers && c'.readers == c.readers[t := c'.readers[t]]
    requires c'.standing == c.standing && c'.waiters == c.waiters
    requires forall g: Group :: Gain(c.readers, t, c'.readers[t], g) == 0
    ensures Conserved(c')
  {
    var rs, r' := c.readers, c'.readers[t];
    forall b: Bit ensures c'.standing[b] == |Members(c'.readers, Inside(b))| - |Members(c'.readers, Interrupted(b))| {
      MembersUpdate(rs, t, r', Inside(b));
      MembersUpdate(rs, t, r', Interrupted(b));
      assert Gain(rs, t, r', Inside(b)) == 0 && Gain(rs, t, r', Interrupted(b)) == 0;
    }
    forall k | 0 <= k < LEVELS ensures c'.waiters[k] == |Members(c'.readers, Waiting(k))| {
      MembersUpdate(rs, t, r', Waiting(k));
      assert Gain(rs, t, r', Waiting(k)) == 0;
    }
  }

  lemma StepConserves(v: View, a: Action)
    requires Conserved(v.c) && Enabled(v.c, a) && Step(v, a).c.Wf()
    ensures Conserved(Step(v, a).c)
  {
    match a
    case Enter(t, _) => QuietConserves(v.c, Step(v, a).c, t);
    case Interrupt(t) => QuietConserves(v.c, Step(v, a).c, t);
    case Read(t) => ReadConserves(v.c, t);
    case Start(_, _, _, _) => {}
    case Write(w) => WriteFrame(v.c, w);
  }

  lemma InitConserved(v: View)
    requires Init(v)
    ensures Conserved(v.c)
  {
    forall g: Group ensures Members(v.c.readers, g) == {} {}
  }

  lemma ConservedNext(vs: seq<View>, acts: seq<Action>, n: nat)
    requires Run(vs, acts) && n < |acts| && Conserved(vs[n].c)
    ensures Conserved(vs[n + 1].c)
  {
    RunShape(vs, acts, n + 1);
    RunStep(vs, acts, n);
    StepConserves(vs[n], acts[n]);
  }

  /**
   * In every reachable state standing[b] is the number of readers registered with snapshot b less the number of
   * readers a signal has ended with snapshot b, and waiters[k] is the number of readers of level k under way.
   */
  lemma {:induction false} CountersConserve(vs: seq<View>, acts: seq<Action>, n: nat)
    requires Run(vs, acts) && n < |vs|
    ensures Conserved(vs[n].c)
  {
    if n == 0 {
      InitConserved(vs[0]);
    } else {
      CountersConserve(vs, acts, n - 1);
      ConservedNext(vs, acts, n - 1);
    }
  }

  ghost predicate SignalFree(acts: seq<Action>) {
    forall i :: 0 <= i < |acts| ==> !acts[i].Interrupt?
  }

  predicate NobodyInterrupted(c: Core) {
    forall t :: t in c.readers ==> c.readers[t].pc !in {IntrLeave, IntrUncount, IntrReturned}
  }

  lemma {:induction false} SignalFreeRun(vs: seq<View>, acts: seq<Action>, n: nat)
    requires Run(vs, acts) && SignalFree(acts) && n < |vs|
    ensures NobodyInterrupted(vs[n].c)
  {
    if n == 0 {
    } else {
      SignalFreeRun(vs, acts, n - 1);
      RunStep(vs, acts, n - 1);
      KeepsUninterrupted(vs[n - 1], acts[n - 1]);
    }
  }

  lemma KeepsUninterrupted(v: View, a: Action)
    requires NobodyInterrupted(v.c) && Enabled(v.c, a) && !a.Interrupt?
    ensures NobodyInterrupted(Step(v, a).c)
  {
    if a.Write? { WriteFrame(v.c, a.w); }
    if a.Read? { ReadFrame(v.c, a.t); }
  }

  /** No reader under snapshot b has been taken off the counter by a signal. */
  predicate NoneInterrupted(c: Core, b: Bit) {
    forall u :: u in c.readers ==> !In(Interrupted(b), c.readers[u])
  }

  lemma NoneWithoutSignals(vs: seq<View>, acts: seq<Action>, n: nat, b: Bit)
    requires Run(vs, acts) && SignalFree(acts) && n < |vs|
    ensures NoneInterrupted(vs[n].c, b)
  {
    SignalFreeRun(vs, acts, n);
  }

  lemma InterruptedStays(v: View, a: Action, u: nat, b: Bit)
    requires Enabled(v.c, a) && u in v.c.readers && In(Interrupted(b), v.c.readers[u])
    ensures u in Step(v, a).c.readers && In(Interrupted(b), Step(v, a).c.readers[u])
  {
    if a.Write? {
      WriteFrame(v.c, a.w);
    } else if a.Read? {
      ReadFrame(v.c, a.t);
    }
  }

  lemma {:induction false} NoneBefore(vs: seq<View>, acts: seq<Action>, i: nat, j: nat, b: Bit)
    requires Run(vs, acts) && i <= j < |vs| && NoneInterrupted(vs[j].c, b)
    ensures NoneInterrupted(vs[i].c, b)
    decreases j - i
  {
    if i == j {
    } else {
      NoneBefore(vs, acts, i + 1, j, b);
      RunStep(vs, acts, i);
      forall u | u in vs[i].c.readers ensures !In(Interrupted(b), vs[i].c.readers[u]) {
        if In(Interrupted(b), vs[i].c.readers[u]) {
          InterruptedStays(vs[i], acts[i], u, b);
        }
      }
    }
  }

  /**
   * As long as no signal has undercounted it, a counter is never negative, and is at zero exactly when nobody is
   * registered under it.
   */
  lemma ZeroMeansNobody(vs: seq<View>, acts: seq<Action>, n: nat, b: Bit)
    requires Run(vs, acts) && n < |vs| && NoneInterrupted(vs[n].c, b)
    ensures vs[n].c.Wf() && vs[n].c.standing[b] >= 0
    ensures vs[n].c.standing[b] <= 0 <==>
      forall t :: t in vs[n].c.readers && Registered(vs[n].c.readers[t]) ==> vs[n].c.readers[t].snap != b
  {
    var c := vs[n].c;
    CountersConserve(vs, acts, n);
    assert Members(c.readers, Interrupted(b)) == {};
    if c.standing[b] > 0 {
      var t :| t in Members(c.readers, Inside(b));
    } else {
      assert Members(c.readers, Inside(b)) == {};
      forall t | t in c.readers && Registered(c.readers[t]) ensures c.readers[t].snap != b {
        assert t !in Members(c.readers, Inside(b));
      }
    }
  }

  lemma Then(vs: seq<View>, acts: seq<Action>, a: Action) returns (vs': seq<View>, acts': seq<Action>)
    requires Run(vs, acts) && Enabled(vs[|acts|].c, a)
    ensures Run(vs', acts') && |vs'| == |vs| + 1 && vs' == vs + [Step(vs[|acts|], a)] && acts' == acts + [a]
    ensures vs'[|acts'|] == Step(vs[|acts|], a) && vs'[|acts'|].c.Wf() && vs'[0] == vs[0]
  {
    Extend(vs, acts, a);
    vs', acts' := vs + [Step(vs[|acts|], a)], acts + [a];
    RunShape(vs', acts', |acts'|);
  }
}
