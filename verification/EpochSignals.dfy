// What a signal that has struck does to the grace periods: an interrupted reader takes one off a counter it was never
// added to (line 42), and the drain of that counter can then end too early.
module EpochSignals {
  import opened EpochMachine
  import opened EpochShape
  import opened EpochCounters
  import opened EpochGrace
  import opened EpochDrain
  import opened EpochExposure
  import opened EpochScenario
  import opened Sizes

  /** A signal has ended the wait of reader u, which sampled epoch b. */
  predicate EndedBySignal(c: Core, u: nat, b: Bit) {
    u in c.readers && c.readers[u].snap == b && c.readers[u].pc in {IntrLeave, IntrUncount, IntrReturned}
  }

  ghost predicate Undercut(c: Core, b: Bit) { exists u :: EndedBySignal(c, u, b) }

  ghost predicate NoSignalFrom(acts: seq<Action>, n: nat) {
    forall i :: n <= i < |acts| ==> !acts[i].Interrupt?
  }

  /** Some continuation without further signals puts a traversing reader on the element that w frees. */
  ghost predicate CanStillEndOnFreed(vs: seq<View>, acts: seq<Action>, w: nat, e: Addr) {
    exists vs', acts', j, t :: Run(vs', acts') && Prefix(vs, acts, vs', acts') && NoSignalFrom(acts', |acts|)
      && |acts| <= j < |vs'| && OnFreed(vs'[j], w, t, e)
  }

  // --------------------------------------------------------------------------------------------------------
  // Only where a signal has struck

  lemma SignalBack(v: View, a: Action, u: nat, b: Bit)
    requires Enabled(v.c, a) && !a.Interrupt? && EndedBySignal(Step(v, a).c, u, b)
    ensures EndedBySignal(v.c, u, b)
  {
    if a.Write? {
      WriteFrame(v.c, a.w);
    } else if a.Read? {
      ReadFrame(v.c, a.t);
    }
  }

  lemma {:induction false} SignalSince(vs: seq<View>, acts: seq<Action>, i: nat, j: nat, u: nat, b: Bit)
    requires Run(vs, acts) && NoSignalFrom(acts, i) && i <= j < |vs| && EndedBySignal(vs[j].c, u, b)
    ensures EndedBySignal(vs[i].c, u, b)
    decreases j
  {
    if i == j {
    } else {
      RunStep(vs, acts, j - 1);
      SignalBack(vs[j - 1], acts[j - 1], u, b);
      SignalSince(vs, acts, i, j - 1, u, b);
    }
  }

  lemma OnlyUndercut(vs: seq<View>, acts: seq<Action>, i: nat, j: nat, w: nat, t: nat, e: Addr)
    requires Run(vs, acts) && NoSignalFrom(acts, i) && i <= j < |vs|
    requires JustUpdated(vs[i], w, e) && OnFreed(vs[j], w, t, e) && vs[j].c.writers[w].op == Remove
    ensures Approaching(vs[i], t, e) && Undercut(vs[i].c, vs[i].c.readers[t].snap)
  {
    RunShape(vs, acts, j);
    assert ReaderOk(vs[j], t) && vs[j].path[t][0] == e;
    ApproachedSince(vs, acts, i, j, t, e);
    HeldSince(vs, acts, i, j, t, e);
    var b := vs[j].c.readers[t].snap;
    if NoneInterrupted(vs[j].c, b) {
      RemoveGrace(vs, acts, j, w, t);
    } else {
      var u :| u in vs[j].c.readers && In(Interrupted(b), vs[j].c.readers[u]);
      SignalSince(vs, acts, i, j, u, b);
    }
  }

  // --------------------------------------------------------------------------------------------------------
  // Wherever a signal has struck

  /** What the schedule below keeps until the writer goes on. */
  predicate Waiting(v: View, w: nat, t: nat, e: Addr) {
    && v.c.Wf() && w in v.c.writers && Approaching(v, t, e) && e != NULL
    && v.c.writers[w].op in {Remove, Send} && v.c.writers[w].pc in {DrainOther, Flip} && v.c.writers[w].gone == e
  }

  /** The interrupted reader takes its one off the counter. */
  lemma TakesOff(vs: seq<View>, acts: seq<Action>, w: nat, t: nat, e: Addr, u: nat)
    returns (vs': seq<View>, acts': seq<Action>)
    requires Run(vs, acts) && Waiting(vs[|acts|], w, t, e)
    requires EndedBySignal(vs[|acts|].c, u, vs[|acts|].c.readers[t].snap)
    ensures Run(vs', acts') && Prefix(vs, acts, vs', acts') && GoesOnFrom(acts', |acts|)
    ensures Waiting(vs'[|acts'|], w, t, e) && vs'[|acts'|].c.readers[t] == vs[|acts|].c.readers[t]
    ensures u in Members(vs'[|acts'|].c.readers, Interrupted(vs[|acts|].c.readers[t].snap))
  {
    if vs[|acts|].c.readers[u].pc == IntrLeave {
      ReadFrame(vs[|acts|].c, u);
      vs', acts' := Then(vs, acts, Read(u));
    } else {
      vs', acts' := vs, acts;
    }
  }

  lemma ComesUp(vs: seq<View>, acts: seq<Action>, w: nat, t: nat, e: Addr, u: nat)
    returns (vs': seq<View>, acts': seq<Action>)
    requires Run(vs, acts) && Waiting(vs[|acts|], w, t, e)
    requires u in Members(vs[|acts|].c.readers, Interrupted(vs[|acts|].c.readers[t].snap))
    ensures Run(vs', acts') && Prefix(vs, acts, vs', acts') && GoesOnFrom(acts', |acts|)
    ensures Waiting(vs'[|acts'|], w, t, e) && vs'[|acts'|].c.readers[t].cur == e
    ensures vs'[|acts'|].c.readers[t].snap == vs[|acts|].c.readers[t].snap
    ensures u in Members(vs'[|acts'|].c.readers, Interrupted(vs[|acts|].c.readers[t].snap))
  {
    vs', acts' := WalksUp(vs, acts, w, t, e);
    assert vs[|acts|].c.readers[u].pc != vs[|acts|].c.readers[t].pc;
  }

  /** Everyone but t leaves the counter of epoch b. */
  lemma Empties(vs: seq<View>, acts: seq<Action>, w: nat, t: nat, e: Addr, u: nat, b: Bit)
    returns (vs': seq<View>, acts': seq<Action>)
    requires Run(vs, acts) && Waiting(vs[|acts|], w, t, e) && vs[|acts|].c.readers[t].cur == e
    requires b == vs[|acts|].c.readers[t].snap ==> u in Members(vs[|acts|].c.readers, Interrupted(b))
    ensures Run(vs', acts') && Prefix(vs, acts, vs', acts') && GoesOnFrom(acts', |acts|)
    ensures Waiting(vs'[|acts'|], w, t, e) && vs'[|acts'|].c.readers[t] == vs[|acts|].c.readers[t]
    ensures vs'[|acts'|].c.standing[b] <= 0
    ensures vs'[|acts'|].c.standing[1 - b] == vs[|acts|].c.standing[1 - b]
  {
    StaysUncounted(vs[|acts|].c, t, u, b);
    vs', acts' := CounterCanEmpty(vs, acts, b, {t});
    forall m | |acts| <= m < |acts'| ensures acts'[m].Read? {
      assert Leaves(vs'[m], acts'[m], b, {t});
    }
  }

  lemma StaysUncounted(c: Core, t: nat, u: nat, b: Bit)
    requires t in c.readers && (b == c.readers[t].snap ==> u in Members(c.readers, Interrupted(b)))
    ensures MayStay(c, b, {t})
  {
    var both := {t} * Members(c.readers, Inside(b));
    if b == c.readers[t].snap {
      SubsetSize(both, {t});
      SubsetSize({u}, Members(c.readers, Interrupted(b)));
    } else {
      assert both == {};
    }
  }

  /** With both counters empty the writer goes on, while t stands on e. */
  predicate Passing(v: View, w: nat, t: nat, e: Addr, pcs: set<WPc>) {
    && v.c.Wf() && w in v.c.writers && t in v.c.readers && Traversing(v.c.readers[t]) && v.c.readers[t].cur == e
    && e != NULL && v.c.writers[w].op in {Remove, Send} && v.c.writers[w].pc in pcs && v.c.writers[w].gone == e
    && (forall b: Bit :: v.c.standing[b] <= 0)
  }

  lemma GoesOn(vs: seq<View>, acts: seq<Action>, w: nat, t: nat, e: Addr)
    returns (vs': seq<View>, acts': seq<Action>)
    requires Run(vs, acts) && Passing(vs[|acts|], w, t, e, {DrainOther, Flip, Drain, Unlock, Free})
    ensures Run(vs', acts') && Prefix(vs, acts, vs', acts') && acts' == acts + [Write(w)]
    ensures var x, v' := vs[|acts|].c.writers[w], vs'[|acts'|];
      && Passing(v', w, t, e, {PhaseMove(vs[|acts|].c, x).pc}) && (x.pc == Free ==> e in v'.c.freed)
  {
    WriteFrame(vs[|acts|].c, w);
    vs', acts' := Then(vs, acts, Write(w));
  }

  /** The steps from a program counter to the release of the element. */
  function ToFree(pc: WPc): nat {
    match pc
    case DrainOther => 5
    case Flip => 4
    case Drain => 3
    case Unlock => 2
    case Free => 1
    case _ => 0
  }

  lemma {:induction false} FreesUnder(vs: seq<View>, acts: seq<Action>, w: nat, t: nat, e: Addr)
    returns (vs': seq<View>, acts': seq<Action>)
    requires Run(vs, acts) && Passing(vs[|acts|], w, t, e, {DrainOther, Flip, Drain, Unlock, Free})
    ensures Run(vs', acts') && Prefix(vs, acts, vs', acts') && GoesOnFrom(acts', |acts|)
    ensures OnFreed(vs'[|acts'|], w, t, e)
    decreases ToFree(vs[|acts|].c.writers[w].pc)
  {
    var vs1, acts1 := GoesOn(vs, acts, w, t, e);
    if vs[|acts|].c.writers[w].pc == Free {
      vs', acts' := vs1, acts1;
    } else {
      vs', acts' := FreesUnder(vs1, acts1, w, t, e);
    }
  }

  lemma BothEmpty(vs: seq<View>, acts: seq<Action>, w: nat, t: nat, e: Addr, u: nat)
    returns (vs': seq<View>, acts': seq<Action>)
    requires Run(vs, acts) && Waiting(vs[|acts|], w, t, e) && vs[|acts|].c.readers[t].cur == e
    requires u in Members(vs[|acts|].c.readers, Interrupted(vs[|acts|].c.readers[t].snap))
    ensures Run(vs', acts') && Prefix(vs, acts, vs', acts') && GoesOnFrom(acts', |acts|)
    ensures Passing(vs'[|acts'|], w, t, e, {DrainOther, Flip})
  {
    var b := vs[|acts|].c.readers[t].snap;
    var vs1, acts1 := Empties(vs, acts, w, t, e, u, b);
    vs', acts' := Empties(vs1, acts1, w, t, e, u, 1 - b);
    assert vs'[|acts'|].c.standing[b] <= 0 && vs'[|acts'|].c.standing[1 - b] <= 0;
  }

  /** Whatever the writer, after its update and the relink it is waiting, with everybody else where they were. */
  lemma IsWaiting(vs: seq<View>, acts: seq<Action>, w: nat, t: nat, e: Addr)
    returns (vs': seq<View>, acts': seq<Action>)
    requires Run(vs, acts) && JustUpdated(vs[|acts|], w, e) && vs[|acts|].c.writers[w].op in {Remove, Send}
    requires Approaching(vs[|acts|], t, e)
    ensures Run(vs', acts') && Prefix(vs, acts, vs', acts') && GoesOnFrom(acts', |acts|)
    ensures Waiting(vs'[|acts'|], w, t, e) && vs'[|acts'|].c.readers == vs[|acts|].c.readers
    ensures vs'[|acts'|].c.epoch == vs[|acts|].c.epoch
  {
    RunShape(vs, acts, |acts|);
    if vs[|acts|].c.writers[w].pc == Relink {
      Relinks(vs[|acts|], w, t, e);
      vs', acts' := Then(vs, acts, Write(w));
    } else {
      assert WriterOk(vs[|acts|], w);
      vs', acts' := vs, acts;
    }
  }

  /** Line 189. */
  lemma Relinks(v: View, w: nat, t: nat, e: Addr)
    requires Enabled(v.c, Write(w)) && v.c.writers[w].pc == Relink && Approaching(v, t, e)
    requires v.c.writers[w].op == Send && v.c.writers[w].gone == e && e != NULL
    ensures var v' := Step(v, Write(w));
      (v'.c.Wf() ==> Waiting(v', w, t, e)) && v'.c.readers == v.c.readers && v'.c.epoch == v.c.epoch
  {
    WriteFrame(v.c, w);
  }

  lemma WaitingGetsThere(vs: seq<View>, acts: seq<Action>, w: nat, t: nat, e: Addr, u: nat)
    returns (vs': seq<View>, acts': seq<Action>)
    requires Run(vs, acts) && Waiting(vs[|acts|], w, t, e)
    requires EndedBySignal(vs[|acts|].c, u, vs[|acts|].c.readers[t].snap)
    ensures Run(vs', acts') && Prefix(vs, acts, vs', acts') && GoesOnFrom(acts', |acts|)
    ensures OnFreed(vs'[|acts'|], w, t, e)
  {
    var vs1, acts1 := TakesOff(vs, acts, w, t, e, u);
    var vs2, acts2 := ComesUp(vs1, acts1, w, t, e, u);
    var vs3, acts3 := BothEmpty(vs2, acts2, w, t, e, u);
    vs', acts' := FreesUnder(vs3, acts3, w, t, e);
  }

  lemma UndercutGetsThere(vs: seq<View>, acts: seq<Action>, w: nat, t: nat, e: Addr)
    returns (vs': seq<View>, acts': seq<Action>)
    requires Run(vs, acts) && JustUpdated(vs[|acts|], w, e) && vs[|acts|].c.writers[w].op in {Remove, Send}
    requires Approaching(vs[|acts|], t, e) && Undercut(vs[|acts|].c, vs[|acts|].c.readers[t].snap)
    ensures Run(vs', acts') && Prefix(vs, acts, vs', acts') && GoesOnFrom(acts', |acts|)
    ensures OnFreed(vs'[|acts'|], w, t, e)
  {
    var u :| EndedBySignal(vs[|acts|].c, u, vs[|acts|].c.readers[t].snap);
    var vs1, acts1 := IsWaiting(vs, acts, w, t, e);
    vs', acts' := WaitingGetsThere(vs1, acts1, w, t, e, u);
  }

  /**
   * The limit of remove's two drains if no signal comes after the unlink: a traversing reader can then end up on the
   * freed element if and only if, at the unlink, some reader is on its way to it with a snapshot under which a signal
   * has already ended another reader's wait. For signals at any time see RemoveSafeExactly in EpochStrike.
   */
  lemma RemoveSafeWithoutMoreSignals(vs: seq<View>, acts: seq<Action>, w: nat, e: Addr)
    requires Run(vs, acts) && JustUpdated(vs[|acts|], w, e) && vs[|acts|].c.writers[w].op == Remove
    ensures CanStillEndOnFreed(vs, acts, w, e) <==>
      exists t :: Approaching(vs[|acts|], t, e) && Undercut(vs[|acts|].c, vs[|acts|].c.readers[t].snap)
  {
    if CanStillEndOnFreed(vs, acts, w, e) {
      var vs', acts', j, t :| Run(vs', acts') && Prefix(vs, acts, vs', acts') && NoSignalFrom(acts', |acts|)
        && |acts| <= j < |vs'| && OnFreed(vs'[j], w, t, e);
      OpStays(vs', acts', |acts|, j, w);
      OnlyUndercut(vs', acts', |acts|, j, w, t, e);
    }
    if t :| Approaching(vs[|acts|], t, e) && Undercut(vs[|acts|].c, vs[|acts|].c.readers[t].snap) {
      var vs', acts' := UndercutGetsThere(vs, acts, w, t, e);
      assert OnFreed(vs'[|acts'|], w, t, e);
    }
  }

  lemma {:induction false} OpStays(vs: seq<View>, acts: seq<Action>, i: nat, j: nat, w: nat)
    requires Run(vs, acts) && i <= j < |vs| && w in vs[i].c.writers
    ensures w in vs[j].c.writers && vs[j].c.writers[w].op == vs[i].c.writers[w].op
    decreases j
  {
    if i == j {
    } else {
      OpStays(vs, acts, i, j - 1, w);
      RunStep(vs, acts, j - 1);
      if acts[j - 1].Write? {
        WriteFrame(vs[j - 1].c, acts[j - 1].w);
      }
    }
  }

  // --------------------------------------------------------------------------------------------------------
  // One signal is enough for a negative counter

  lemma TakesOne(R: View -> bool, v: View, t: nat) returns (v': View)
    requires KeptBySteps(R, ANY, true) && R(v) && v.c.Wf() && t in v.c.readers && v.c.readers[t].pc == IntrLeave
    ensures R(v') && v'.c.standing == Add(v.c.standing, v.c.readers[t].snap, -1)
  {
    v' := Step(v, Read(t));
  }

  lemma ParksAt(R: View -> bool, v0: View, t: nat, key: int) returns (v: View)
    requires KeptBySteps(R, ANY, true) && R(v0) && v0.c.Wf() && t !in v0.c.readers && 0 <= key < LEVELS
    ensures R(v) && v.c.Wf() && v.live == v0.live && v.path == v0.path && !v.c.ready[key]
    ensures v.c == v0.c.(readers := v0.c.readers[t := Reader(key, v0.c.epoch, Parked, NULL)],
                         ready := v.c.ready, waiters := v.c.waiters)
  {
    var e := v0.c.epoch;
    v := Enters(R, ANY, true, v0, t, key);
    v := Reads(R, ANY, true, v, t, Reader(key, e, Reset, NULL));
    v := Reads(R, ANY, true, v, t, Reader(key, e, Count, NULL));
    v := Reads(R, ANY, true, v, t, Reader(key, e, Test, NULL));
  }

  lemma Strikes(R: View -> bool, v: View, t: nat) returns (v': View)
    requires KeptBySteps(R, ANY, true) && R(v) && v.c.Wf() && t in v.c.readers
    requires v.c.readers[t].pc == Parked && !v.c.ready[v.c.readers[t].key]
    ensures R(v') && v'.c.Wf() && v'.live == v.live && v'.path == v.path
    ensures v'.c == v.c.(readers := v.c.readers[t := v.c.readers[t].(pc := IntrLeave)])
  {
    v' := Step(v, Interrupt(t));
  }

  lemma Undercounts(R: View -> bool, v0: View, t: nat, key: int) returns (v: View)
    requires KeptBySteps(R, ANY, true) && R(v0) && Init(v0) && 0 <= key < LEVELS
    ensures R(v) && |v.c.standing| == 2 && v.c.standing[v0.c.epoch] == -1
  {
    v := ParksAt(R, v0, t, key);
    v := Strikes(R, v, t);
    v := TakesOne(R, v, t);
  }

  /** One reader, alone, interrupted while parked. */
  lemma SignalUndercounts(v: View, t: nat, key: int) returns (vs: seq<View>, acts: seq<Action>)
    requires Init(v) && 0 <= key < LEVELS
    ensures Run(vs, acts) && vs[0] == v && vs[|acts|].c.Wf() && vs[|acts|].c.standing[v.c.epoch] == -1
  {
    ReachedIsKept(v, ANY, true);
    StartReached(v, ANY, true);
    var end := Undercounts(v' => Reached(v, ANY, true, v'), v, t, key);
    vs, acts :| RunFrom(v, vs, acts, ANY, true) && vs[|acts|] == end;
    RunShape(vs, acts, |acts|);
  }
}
