// The exact limits of the grace periods of remove and replace when signals can strike at any time.
module EpochStrike {
  import opened EpochMachine
  import opened EpochShape
  import opened EpochCounters
  import opened EpochGrace
  import opened EpochDrain
  import opened EpochExposure
  import opened EpochScenario
  import opened EpochSignals
  import opened Sizes

  /** A signal has ended the wait of reader u, which sampled epoch b, or still can. */
  predicate MayBeStruck(c: Core, u: nat, b: Bit) {
    && u in c.readers && c.readers[u].snap == b
    && c.readers[u].pc in {Reset, Count, Test, Parked, IntrLeave, IntrUncount, IntrReturned}
  }

  /** A reader on its way to e has a snapshot that a signal can undercut: the one that entrants take, or another's. */
  ghost predicate Endangered(v: View, t: nat, e: Addr) {
    && Approaching(v, t, e)
    && (v.c.readers[t].snap == v.c.epoch || exists u :: MayBeStruck(v.c, u, v.c.readers[t].snap))
  }

  /** Some continuation, signals or not, puts a traversing reader on the element that w frees. */
  ghost predicate MayEndOnFreed(vs: seq<View>, acts: seq<Action>, w: nat, e: Addr) {
    exists vs', acts', j, t :: Run(vs', acts') && Prefix(vs, acts, vs', acts')
      && |acts| <= j < |vs'| && OnFreed(vs'[j], w, t, e)
  }

  // --------------------------------------------------------------------------------------------------------
  // The signal strikes while the writer waits

  /** As far as writer w, reader t and the way to e go, nothing has happened; the others have at most been added to. */
  predicate Undisturbed(v: View, v': View, t: nat) {
    && v'.c.writers == v.c.writers && v'.c.level == v.c.level && v'.c.epoch == v.c.epoch && v'.c.Wf()
    && t in v.c.readers && t in v'.c.readers && v'.c.readers[t] == v.c.readers[t]
    && t in v.path && t in v'.path && v'.path[t] == v.path[t]
  }

  /** A step of reader u before it registers. */
  lemma EarlyRead(vs: seq<View>, acts: seq<Action>, t: nat, u: nat) returns (vs': seq<View>, acts': seq<Action>)
    requires Run(vs, acts) && vs[|acts|].c.Wf() && t in vs[|acts|].c.readers && t in vs[|acts|].path && u != t
    requires u in vs[|acts|].c.readers && vs[|acts|].c.readers[u].pc in {Reset, Count, Test}
    ensures Run(vs', acts') && Prefix(vs, acts, vs', acts') && Undisturbed(vs[|acts|], vs'[|acts'|], t)
    ensures var c, c' := vs[|acts|].c, vs'[|acts'|].c;
      && c'.readers == c.readers[u := ReaderMove(c, c.readers[u])]
      && c'.ready == if c.readers[u].pc == Reset then c.ready[c.readers[u].key := false] else c.ready
  {
    vs', acts' := Then(vs, acts, Read(u));
  }

  lemma Arrives(vs: seq<View>, acts: seq<Action>, t: nat, key: int)
    returns (vs': seq<View>, acts': seq<Action>, u: nat)
    requires Run(vs, acts) && vs[|acts|].c.Wf() && t in vs[|acts|].c.readers && t in vs[|acts|].path
    requires 0 <= key < LEVELS
    ensures Run(vs', acts') && Prefix(vs, acts, vs', acts') && Undisturbed(vs[|acts|], vs'[|acts'|], t)
    ensures u !in vs[|acts|].c.readers && var c, c' := vs[|acts|].c, vs'[|acts'|].c;
      && c'.readers == c.readers[u := Reader(key, c.epoch, Reset, NULL)] && c'.ready == c.ready
  {
    u := Above(vs[|acts|].c.readers.Keys);
    vs', acts' := Then(vs, acts, Enter(u, key));
  }

  /** A reader that enters lowers the flag of its level; the others stay where they are. */
  lemma Lowers(vs: seq<View>, acts: seq<Action>, t: nat, key: int) returns (vs': seq<View>, acts': seq<Action>)
    requires Run(vs, acts) && vs[|acts|].c.Wf() && t in vs[|acts|].c.readers && t in vs[|acts|].path
    requires 0 <= key < LEVELS
    ensures Run(vs', acts') && Prefix(vs, acts, vs', acts') && Undisturbed(vs[|acts|], vs'[|acts'|], t)
    ensures var c, c' := vs[|acts|].c, vs'[|acts'|].c;
      && (forall u :: u in c.readers ==> u in c'.readers && c'.readers[u] == c.readers[u]) && !c'.ready[key]
  {
    var vs1, acts1, u := Arrives(vs, acts, t, key);
    vs', acts' := EarlyRead(vs1, acts1, t, u);
  }

  function ToPark(pc: RPc): nat {
    match pc
    case Reset => 3
    case Count => 2
    case Test => 1
    case _ => 0
  }

  /** With its flag down, reader u parks. */
  lemma {:induction false} GoesToPark(vs: seq<View>, acts: seq<Action>, t: nat, u: nat)
    returns (vs': seq<View>, acts': seq<Action>)
    requires Run(vs, acts) && vs[|acts|].c.Wf() && t in vs[|acts|].c.readers && t in vs[|acts|].path && u != t
    requires u in vs[|acts|].c.readers && !vs[|acts|].c.ready[vs[|acts|].c.readers[u].key]
    requires vs[|acts|].c.readers[u].pc in {Reset, Count, Test, Parked}
    ensures Run(vs', acts') && Prefix(vs, acts, vs', acts') && Undisturbed(vs[|acts|], vs'[|acts'|], t)
    ensures u in vs'[|acts'|].c.readers && vs'[|acts'|].c.readers[u] == vs[|acts|].c.readers[u].(pc := Parked)
    ensures !vs'[|acts'|].c.ready[vs[|acts|].c.readers[u].key]
    decreases ToPark(vs[|acts|].c.readers[u].pc)
  {
    if vs[|acts|].c.readers[u].pc == Parked {
      vs', acts' := vs, acts;
    } else {
      var vs1, acts1 := EarlyRead(vs, acts, t, u);
      vs', acts' := GoesToPark(vs1, acts1, t, u);
    }
  }

  lemma IsStruck(vs: seq<View>, acts: seq<Action>, t: nat, u: nat) returns (vs': seq<View>, acts': seq<Action>)
    requires Run(vs, acts) && t in vs[|acts|].c.readers && t in vs[|acts|].path && u != t
    requires Enabled(vs[|acts|].c, Interrupt(u))
    ensures Run(vs', acts') && Prefix(vs, acts, vs', acts') && Undisturbed(vs[|acts|], vs'[|acts'|], t)
    ensures EndedBySignal(vs'[|acts'|].c, u, vs[|acts|].c.readers[u].snap)
  {
    vs', acts' := Then(vs, acts, Interrupt(u));
  }

  /** A reader that has not registered can always be brought to where a signal ends its wait. */
  lemma Strikes(vs: seq<View>, acts: seq<Action>, t: nat, u: nat) returns (vs': seq<View>, acts': seq<Action>)
    requires Run(vs, acts) && t in vs[|acts|].c.readers && t in vs[|acts|].path && u != t
    requires u in vs[|acts|].c.readers && vs[|acts|].c.readers[u].pc in {Reset, Count, Test, Parked}
    ensures Run(vs', acts') && Prefix(vs, acts, vs', acts') && Undisturbed(vs[|acts|], vs'[|acts'|], t)
    ensures EndedBySignal(vs'[|acts'|].c, u, vs[|acts|].c.readers[u].snap)
  {
    RunShape(vs, acts, |acts|);
    var vs1, acts1 := Lowers(vs, acts, t, vs[|acts|].c.readers[u].key);
    var vs2, acts2 := GoesToPark(vs1, acts1, t, u);
    vs', acts' := IsStruck(vs2, acts2, t, u);
  }

  lemma StrikesNew(vs: seq<View>, acts: seq<Action>, t: nat)
    returns (vs': seq<View>, acts': seq<Action>, u: nat)
    requires Run(vs, acts) && t in vs[|acts|].c.readers && t in vs[|acts|].path
    ensures Run(vs', acts') && Prefix(vs, acts, vs', acts') && Undisturbed(vs[|acts|], vs'[|acts'|], t)
    ensures EndedBySignal(vs'[|acts'|].c, u, vs[|acts|].c.epoch)
  {
    RunShape(vs, acts, |acts|);
    var vs1, acts1;
    vs1, acts1, u := Arrives(vs, acts, t, 0);
    vs', acts' := Strikes(vs1, acts1, t, u);
  }

  /** Every endangered reader can get there. */
  lemma EndangeredGetsThere(vs: seq<View>, acts: seq<Action>, w: nat, t: nat, e: Addr)
    returns (vs': seq<View>, acts': seq<Action>)
    requires Run(vs, acts) && JustUpdated(vs[|acts|], w, e) && vs[|acts|].c.writers[w].op in {Remove, Send}
    requires Endangered(vs[|acts|], t, e)
    ensures Run(vs', acts') && Prefix(vs, acts, vs', acts') && OnFreed(vs'[|acts'|], w, t, e)
  {
    var b := vs[|acts|].c.readers[t].snap;
    var vs1, acts1 := IsWaiting(vs, acts, w, t, e);
    if b == vs[|acts|].c.epoch {
      var vs2, acts2, u := StrikesNew(vs1, acts1, t);
      vs', acts' := WaitingGetsThere(vs2, acts2, w, t, e, u);
    } else {
      var u :| MayBeStruck(vs[|acts|].c, u, b);
      if vs[|acts|].c.readers[u].pc in {Reset, Count, Test, Parked} {
        var vs2, acts2 := Strikes(vs1, acts1, t, u);
        vs', acts' := WaitingGetsThere(vs2, acts2, w, t, e, u);
      } else {
        vs', acts' := WaitingGetsThere(vs1, acts1, w, t, e, u);
      }
    }
  }

  // --------------------------------------------------------------------------------------------------------
  // Only an endangered reader can get there

  /** While w spins on b, nobody comes to have snapshot b. */
  lemma StruckBack(v: View, a: Action, w: nat, u: nat, b: Bit)
    requires Shape(v) && Enabled(v.c, a) && Spinning(v, w, b) && MayBeStruck(Step(v, a).c, u, b)
    ensures MayBeStruck(v.c, u, b)
  {
    assert WriterOk(v, w);
    if a.Write? {
      WriteFrame(v.c, a.w);
    } else if a.Read? {
      ReadFrame(v.c, a.t);
    }
  }

  lemma StruckBefore(vs: seq<View>, acts: seq<Action>, k: nat, w: nat, u: nat, b: Bit)
    requires Run(vs, acts) && k < |acts| && Spinning(vs[k], w, b) && MayBeStruck(vs[k + 1].c, u, b)
    ensures MayBeStruck(vs[k].c, u, b)
  {
    RunShape(vs, acts, k);
    RunStep(vs, acts, k);
    StruckBack(vs[k], acts[k], w, u, b);
  }

  lemma {:induction false} StruckSince(vs: seq<View>, acts: seq<Action>, i: nat, m: nat, w: nat, u: nat, b: Bit)
    requires Run(vs, acts) && i <= m < |vs| && Spinning(vs[i], w, b)
    requires (forall k :: i <= k < m ==> acts[k] != Write(w)) && MayBeStruck(vs[m].c, u, b)
    ensures MayBeStruck(vs[i].c, u, b)
    decreases m
  {
    if i == m {
    } else {
      SpinBounded(vs, acts, i, m - 1, w, b);
      StruckBefore(vs, acts, m - 1, w, u, b);
      StruckSince(vs, acts, i, m - 1, w, u, b);
    }
  }

  /** Where the spin on b ends with reader t registered under b, a signal has undercut b. */
  lemma SpinEndsUndercut(vs: seq<View>, acts: seq<Action>, m: nat, w: nat, t: nat, b: Bit) returns (u: nat)
    requires Run(vs, acts) && m < |acts| && acts[m] == Write(w) && Spinning(vs[m], w, b)
    requires t in vs[m].c.readers && Registered(vs[m].c.readers[t]) && vs[m].c.readers[t].snap == b
    ensures MayBeStruck(vs[m].c, u, b)
  {
    RunStep(vs, acts, m);
    CountersConserve(vs, acts, m);
    var rs := vs[m].c.readers;
    SubsetSize({t}, Members(rs, Inside(b)));
    u :| u in Members(rs, Interrupted(b));
  }

  lemma OnlyEndangered(vs: seq<View>, acts: seq<Action>, i: nat, j: nat, w: nat, t: nat, e: Addr)
    requires Run(vs, acts) && i <= j < |vs| && JustUpdated(vs[i], w, e) && OnFreed(vs[j], w, t, e)
    requires vs[i].c.writers[w].op == Remove
    ensures Endangered(vs[i], t, e)
  {
    Arrived(vs, acts, i, j, w, t, e);
    var b := vs[i].c.readers[t].snap;
    if b != vs[i].c.epoch {
      RunShape(vs, acts, i);
      assert WriterOk(vs[i], w) && Spinning(vs[i], w, b);
      HeldSince(vs, acts, i, j, t, e);
      var u := SpunUndercut(vs, acts, i, j, w, t, e, b);
    }
  }

  /** Where the spin from i on has ended with t still on its way, a signal has undercut b since. */
  lemma SpunUndercut(vs: seq<View>, acts: seq<Action>, i: nat, j: nat, w: nat, t: nat, e: Addr, b: Bit)
    returns (u: nat)
    requires Run(vs, acts) && i <= j < |vs| && Spinning(vs[i], w, b) && !Spinning(vs[j], w, b)
    requires Off(vs[i], e) && !Clean(vs[j], t, e) && t in vs[j].c.readers && vs[j].c.readers[t].snap == b
    ensures MayBeStruck(vs[i].c, u, b)
  {
    var m := FirstWrite(acts, i, j, w);
    SpinBounded(vs, acts, i, m, w, b);
    assert m < j;
    OffSince(vs, acts, i, m, e);
    HeldSince(vs, acts, m, j, t, e);
    u := SpinEndsUndercut(vs, acts, m, w, t, b);
    StruckSince(vs, acts, i, m, w, u, b);
  }

  /** Who stands on e was on its way to it all the time. */
  lemma Arrived(vs: seq<View>, acts: seq<Action>, i: nat, j: nat, w: nat, t: nat, e: Addr)
    requires Run(vs, acts) && i <= j < |vs| && Off(vs[i], e) && OnFreed(vs[j], w, t, e)
    ensures Approaching(vs[i], t, e) && !Clean(vs[j], t, e)
  {
    RunShape(vs, acts, j);
    assert ReaderOk(vs[j], t) && vs[j].path[t][0] == e;
    ApproachedSince(vs, acts, i, j, t, e);
  }

  lemma {:induction false} OffSince(vs: seq<View>, acts: seq<Action>, i: nat, m: nat, e: Addr)
    requires Run(vs, acts) && i <= m < |vs| && Off(vs[i], e)
    ensures Off(vs[m], e)
    decreases m - i
  {
    if i == m {
    } else {
      HeldStep(vs, acts, i, e);
      OffSince(vs, acts, i + 1, m, e);
    }
  }

  // --------------------------------------------------------------------------------------------------------

  /**
   * The exact limit of remove's two drains, over all continuations, signals at any time included: a traversing reader
   * can end up on the freed element if and only if, at the unlink, some reader is on its way to it, and its snapshot
   * is the current epoch, or that of another reader that a signal has struck or still can.
   */
  lemma RemoveSafeExactly(vs: seq<View>, acts: seq<Action>, w: nat, e: Addr)
    requires Run(vs, acts) && JustUpdated(vs[|acts|], w, e) && vs[|acts|].c.writers[w].op == Remove
    ensures MayEndOnFreed(vs, acts, w, e) <==> exists t :: Endangered(vs[|acts|], t, e)
  {
    if MayEndOnFreed(vs, acts, w, e) {
      var vs', acts', j, t :| Run(vs', acts') && Prefix(vs, acts, vs', acts')
        && |acts| <= j < |vs'| && OnFreed(vs'[j], w, t, e);
      OnlyEndangered(vs', acts', |acts|, j, w, t, e);
    }
    if t :| Endangered(vs[|acts|], t, e) {
      var vs', acts' := EndangeredGetsThere(vs, acts, w, t, e);
      assert OnFreed(vs'[|acts'|], w, t, e);
    }
  }

  /**
   * The exact limit of replace's single drain when signals can strike: a traversing reader can end up on the freed
   * element if and only if, at the swap, any reader at all is on its way to it.
   */
  lemma ReplaceWithSignalsExactly(vs: seq<View>, acts: seq<Action>, w: nat, e: Addr)
    requires Run(vs, acts) && JustUpdated(vs[|acts|], w, e) && vs[|acts|].c.writers[w].op == Send
    ensures MayEndOnFreed(vs, acts, w, e) <==> exists t :: Approaching(vs[|acts|], t, e)
  {
    if MayEndOnFreed(vs, acts, w, e) {
      var vs', acts', j, t :| Run(vs', acts') && Prefix(vs, acts, vs', acts')
        && |acts| <= j < |vs'| && OnFreed(vs'[j], w, t, e);
      Arrived(vs', acts', |acts|, j, w, t, e);
    }
    if t :| Approaching(vs[|acts|], t, e) {
      var vs', acts';
      if Exposed(vs[|acts|], t, e) {
        vs', acts' := ExposedGetsThere(vs, acts, w, t, e);
      } else {
        vs', acts' := EndangeredGetsThere(vs, acts, w, t, e);
      }
      assert OnFreed(vs'[|acts'|], w, t, e);
    }
  }

  // --------------------------------------------------------------------------------------------------------
  // It happens on every list that is not empty

  lemma TakesLock(R: View -> bool, v: View, w: nat, key: int) returns (v': View)
    requires KeptBySteps(R, ANY, true) && R(v) && v.c.Wf() && w !in v.c.writers && v.c.lock == Open
    ensures R(v') && v'.c.Wf() && v'.live == v.live && v'.path == v.path
    ensures v'.c == v.c.(lock := Held(w), writers := v.c.writers[w := Writer(Remove, key, Look, NULL, NULL, NULL, 0)])
  {
    v' := Step(v, Start(w, Remove, key, NULL));
    v' := Step(v', Write(w));
  }

  /** Reader 0 stands on the head when writer 2 removes it. */
  lemma Scene(R: View -> bool, v0: View) returns (v: View)
    requires KeptBySteps(R, ANY, true) && R(v0) && Init(v0) && v0.live != []
    ensures R(v) && v.c.Wf() && Endangered(v, 0, v0.c.head) && v0.c.head != NULL
    ensures 2 in v.c.writers && v.c.writers[2].op == Remove && v.c.writers[2].pc == DrainOther
    ensures v.c.writers[2].gone == v0.c.head
  {
    var key := v0.c.Level(v0.c.head);
    v := StandsOnHead(R, ANY, true, v0);
    v := TakesLock(R, v, 2, key);
    v := TakesHead(R, ANY, true, v, 2, Writer(Remove, key, Look, NULL, NULL, NULL, 0));
  }

  /** So, on every list that is not empty, a signal can make remove free an element under a traversing reader. */
  lemma SignalBreaksRemove(v0: View) returns (vs: seq<View>, acts: seq<Action>, w: nat, t: nat)
    requires Init(v0) && v0.live != []
    ensures Run(vs, acts) && vs[0] == v0
    ensures OnFreed(vs[|acts|], w, t, v0.c.head) && vs[|acts|].c.writers[w].op == Remove
  {
    ReachedIsKept(v0, ANY, true);
    StartReached(v0, ANY, true);
    var v := Scene(v => Reached(v0, ANY, true, v), v0);
    vs, acts :| RunFrom(v0, vs, acts, ANY, true) && vs[|acts|] == v;
    RunShape(vs, acts, |acts|);
    assert Off(v, v0.c.head);
    w, t := 2, 0;
    var n := |acts|;
    vs, acts := EndangeredGetsThere(vs, acts, w, t, v0.c.head);
    OpStays(vs, acts, n, |acts|, w);
  }
}
