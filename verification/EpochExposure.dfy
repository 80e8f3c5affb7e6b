// Replace drains one counter only. Exactly when can a traversing reader end up on the element it frees?
module EpochExposure {
  import opened EpochMachine
  import opened EpochChain
  import opened EpochShape
  import opened EpochCounters
  import opened EpochGrace
  import opened EpochDrain
  import opened EpochLookup

  /** e is on xs and no element of level k comes before it. */
  predicate OnWay(level: map<Addr, int>, xs: seq<Addr>, e: Addr, k: int) {
    xs != [] && (xs[0] == e || (LevelOf(level, xs[0]) != k && OnWay(level, xs[1..], e, k)))
  }

  /** Reader t stands on e, or will if it goes on. */
  predicate Approaching(v: View, t: nat, e: Addr) {
    && t in v.c.readers && t in v.path
    && var r := v.c.readers[t];
    && (r.pc == Walk || (r.pc == Leave && r.cur == e))
    && OnWay(v.c.level, v.path[t], e, r.key)
  }

  /** Just after the swap: t approaches the replaced element under the epoch that will not be drained. */
  predicate Exposed(v: View, t: nat, e: Addr) {
    Approaching(v, t, e) && v.c.readers[t].snap == 1 - v.c.epoch
  }

  /** A traversing reader's cursor is on the element that w has freed. */
  predicate OnFreed(v: View, w: nat, t: nat, e: Addr) {
    FreedBy(v.c, e, w) && e in v.c.freed && t in v.c.readers && Traversing(v.c.readers[t]) && v.c.readers[t].cur == e
  }

  // --------------------------------------------------------------------------------------------------------
  // Only exposed readers can get there

  lemma {:induction false} OnWayMember(level: map<Addr, int>, xs: seq<Addr>, e: Addr, k: int)
    requires OnWay(level, xs, e, k)
    ensures e in xs
    decreases |xs|
  {
    if xs[0] == e {
    } else {
      OnWayMember(level, xs[1..], e, k);
    }
  }

  lemma {:induction false} OnWayFrame(level: map<Addr, int>, level': map<Addr, int>, xs: seq<Addr>, e: Addr, k: int)
    requires OnWay(level', xs, e, k) && forall a :: a in xs ==> LevelOf(level', a) == LevelOf(level, a)
    ensures OnWay(level, xs, e, k)
    decreases |xs|
  {
    if xs[0] == e {
    } else {
      assert xs[0] in xs;
      OnWayFrame(level, level', xs[1..], e, k);
    }
  }

  /** Rerouting puts nothing that is off the list in anyone's way. */
  lemma {:induction false} OnWayReroute(level: map<Addr, int>, xs: seq<Addr>, x: Addr, tail: seq<Addr>, e: Addr, k: int)
    requires OnWay(level, Reroute(xs, x, tail), e, k) && e !in tail
    ensures OnWay(level, xs, e, k)
    decreases |xs|
  {
    var ys := Reroute(xs, x, tail);
    if xs == [] || xs[0] == e {
    } else {
      if xs[0] == x {
        assert ys[1..] == tail;
        OnWayMember(level, tail, e, k);
      } else {
        assert ys[1..] == Reroute(xs[1..], x, tail);
        OnWayReroute(level, xs[1..], x, tail, e, k);
      }
    }
  }

  lemma ApproachBack(v: View, a: Action, t: nat, e: Addr)
    requires Shape(v) && Enabled(v.c, a) && Off(v, e) && Approaching(Step(v, a), t, e)
    ensures Approaching(v, t, e)
  {
    var v' := Step(v, a);
    OnWayMember(v'.c.level, v'.path[t], e, v'.c.readers[t].key);
    OffStays(v, a, e);
    assert t in v.c.readers && !Clean(v, t, e);
    assert ReaderOk(v, t);
    match a
    case Enter(_, _) => {}
    case Interrupt(_) => {}
    case Read(u) => ReadApproachBack(v, u, t, e);
    case Start(_, _, _, _) => StartApproachBack(v, a, t, e);
    case Write(w) => WriteApproachBack(v, w, t, e);
  }

  lemma ReadApproachBack(v: View, u: nat, t: nat, e: Addr)
    requires Shape(v) && Enabled(v.c, Read(u)) && Approaching(Step(v, Read(u)), t, e)
    requires t in v.c.readers && Traversing(v.c.readers[t]) && t in v.path && e in v.path[t]
    ensures Approaching(v, t, e)
  {
    ReadFrame(v.c, u);
    assert ReaderOk(v, t);
  }

  lemma StartApproachBack(v: View, a: Action, t: nat, e: Addr)
    requires Shape(v) && a.Start? && Enabled(v.c, a) && Approaching(Step(v, a), t, e)
    requires t in v.c.readers && Traversing(v.c.readers[t]) && t in v.path
    ensures Approaching(v, t, e)
  {
    assert ReaderOk(v, t);
    assert v.c.lock.Held? ==> WriterOk(v, v.c.lock.w);
    var v' := Step(v, a);
    forall b | b in v.path[t] ensures LevelOf(v'.c.level, b) == LevelOf(v.c.level, b) {
      ChainMember(Links(v.c), v.c.readers[t].cur, v.path[t], b);
    }
    OnWayFrame(v.c.level, v'.c.level, v.path[t], e, v.c.readers[t].key);
  }

  lemma WriteApproachBack(v: View, w: nat, t: nat, e: Addr)
    requires Shape(v) && Enabled(v.c, Write(w)) && Off(v, e) && Approaching(Step(v, Write(w)), t, e)
    requires t in v.c.readers && Traversing(v.c.readers[t]) && t in v.path
    ensures Approaching(v, t, e)
  {
    assert WriterOk(v, w);
    WriteFrame(v.c, w);
    WriteLevels(v.c, w);
    var x := v.c.writers[w];
    if x.pc == Seek && SeekHit(v.c, x) {
      var gone, rest := SeekFinds(v, w);
      assert e !in NewTail(v.live, x);
      OnWayReroute(v.c.level, v.path[t], x.elem, NewTail(v.live, x), e, v.c.readers[t].key);
    }
  }

  lemma {:induction false} ApproachedSince(vs: seq<View>, acts: seq<Action>, i: nat, j: nat, t: nat, e: Addr)
    requires Run(vs, acts) && i <= j < |vs| && Off(vs[i], e) && Approaching(vs[j], t, e)
    ensures Approaching(vs[i], t, e)
    decreases j - i
  {
    if i == j {
    } else {
      RunShape(vs, acts, i);
      RunStep(vs, acts, i);
      OffStays(vs[i], acts[i], e);
      ApproachedSince(vs, acts, i + 1, j, t, e);
      ApproachBack(vs[i], acts[i], t, e);
    }
  }

  lemma OnlyExposed(vs: seq<View>, acts: seq<Action>, i: nat, j: nat, w: nat, t: nat, e: Addr)
    requires Run(vs, acts) && SignalFree(acts) && i <= j < |vs|
    requires JustUpdated(vs[i], w, e) && vs[i].c.writers[w].op == Send && OnFreed(vs[j], w, t, e)
    ensures Exposed(vs[i], t, e)
  {
    RunShape(vs, acts, j);
    assert ReaderOk(vs[j], t) && vs[j].path[t][0] == e;
    ApproachedSince(vs, acts, i, j, t, e);
    if vs[i].c.readers[t].snap == vs[i].c.epoch {
      NoneWithoutSignals(vs, acts, j, vs[i].c.readers[t].snap);
      GracePeriod(vs, acts, i, j, w, t);
    }
  }

  // --------------------------------------------------------------------------------------------------------
  // Every exposed reader can get there

  /** The state of writer w, and of reader t on its way to e, at one point of the schedule below. */
  predicate Stage(v: View, w: nat, t: nat, e: Addr, pcs: set<WPc>) {
    && v.c.Wf() && w in v.c.writers && t in v.c.readers
    && var x, r := v.c.writers[w], v.c.readers[t];
    && x.op == Send && x.gone == e && e != NULL && x.pc in pcs && Traversing(r)
  }

  lemma Relinked(vs: seq<View>, acts: seq<Action>, w: nat, t: nat, e: Addr)
    returns (vs': seq<View>, acts': seq<Action>)
    requires Run(vs, acts) && Exposed(vs[|acts|], t, e)
    requires Stage(vs[|acts|], w, t, e, {Relink, Flip})
    ensures Run(vs', acts') && Prefix(vs, acts, vs', acts') && GoesOnFrom(acts', |acts|)
    ensures Exposed(vs'[|acts'|], t, e)
    ensures Stage(vs'[|acts'|], w, t, e, {Flip})
  {
    if vs[|acts|].c.writers[w].pc == Relink {
      WriteFrame(vs[|acts|].c, w);
      vs', acts' := Then(vs, acts, Write(w));
    } else {
      vs', acts' := vs, acts;
    }
  }

  /** Only reader t has moved between v and v', and its record is still one of a registered reader. */
  predicate OnlyReader(v: View, v': View, t: nat) {
    && v'.live == v.live && v'.c.next == v.c.next && v'.c.level == v.c.level && v'.c.head == v.c.head
    && v'.c.writers == v.c.writers && v'.c.lock == v.c.lock && v'.c.epoch == v.c.epoch && v'.c.freed == v.c.freed
    && v'.c.standing == v.c.standing && t in v.c.readers && t in v'.c.readers
    && v'.c.readers == v.c.readers[t := v.c.readers[t].(cur := v'.c.readers[t].cur)]
  }

  lemma WalksOne(v: View, w: nat, t: nat, e: Addr)
    requires Shape(v) && Approaching(v, t, e) && v.c.readers[t].cur != e
    requires w in v.c.writers && v.c.writers[w].pc in {DrainOther, Flip}
    ensures Enabled(v.c, Read(t)) && var v' := Step(v, Read(t));
      OnlyReader(v, v', t) && Approaching(v', t, e) && t in v.path && |v'.path[t]| < |v.path[t]|
  {
    assert ReaderOk(v, t) && WriterOk(v, w);
    OnWayMember(v.c.level, v.path[t][1..], e, v.c.readers[t].key);
    assert Links(v.c) == v.c.next;
    assert Chain(v.c.next, v.c.next[v.c.readers[t].cur], v.path[t][1..]);
    ReadFrame(v.c, t);
    assert Step(v, Read(t)).path[t] == v.path[t][1..];
  }

  /** Reader t walks up to e while w holds the list as it is. */
  lemma {:induction false} WalksUp(vs: seq<View>, acts: seq<Action>, w: nat, t: nat, e: Addr)
    returns (vs': seq<View>, acts': seq<Action>)
    requires Run(vs, acts) && Approaching(vs[|acts|], t, e)
    requires w in vs[|acts|].c.writers && vs[|acts|].c.writers[w].pc in {DrainOther, Flip}
    ensures Run(vs', acts') && Prefix(vs, acts, vs', acts')
    ensures forall m :: |acts| <= m < |acts'| ==> acts'[m] == Read(t)
    ensures OnlyReader(vs[|acts|], vs'[|acts'|], t) && Approaching(vs'[|acts'|], t, e)
    ensures vs'[|acts'|].c.readers[t].cur == e && vs'[|acts'|].c.Wf()
    decreases |vs[|acts|].path[t]|
  {
    var v := vs[|acts|];
    RunShape(vs, acts, |acts|);
    if v.c.readers[t].cur == e {
      vs', acts' := vs, acts;
    } else {
      WalksOne(v, w, t, e);
      var vs1, acts1 := Then(vs, acts, Read(t));
      vs', acts' := WalksUp(vs1, acts1, w, t, e);
    }
  }

  lemma RelinkedAndUp(vs: seq<View>, acts: seq<Action>, w: nat, t: nat, e: Addr)
    returns (vs': seq<View>, acts': seq<Action>)
    requires Run(vs, acts) && Exposed(vs[|acts|], t, e)
    requires Stage(vs[|acts|], w, t, e, {Relink, Flip})
    ensures Run(vs', acts') && Prefix(vs, acts, vs', acts') && GoesOnFrom(acts', |acts|)
    ensures Exposed(vs'[|acts'|], t, e)
    ensures Stage(vs'[|acts'|], w, t, e, {Flip}) && vs'[|acts'|].c.readers[t].cur == e
  {
    var vs1, acts1 := Relinked(vs, acts, w, t, e);
    vs', acts' := WalksUp(vs1, acts1, w, t, e);
  }

  lemma FlipsAndDrains(vs: seq<View>, acts: seq<Action>, w: nat, t: nat, e: Addr)
    returns (vs': seq<View>, acts': seq<Action>)
    requires Run(vs, acts) && Exposed(vs[|acts|], t, e)
    requires Stage(vs[|acts|], w, t, e, {Flip}) && vs[|acts|].c.readers[t].cur == e
    ensures Run(vs', acts') && Prefix(vs, acts, vs', acts') && GoesOnFrom(acts', |acts|)
    ensures Stage(vs'[|acts'|], w, t, e, {Drain}) && vs'[|acts'|].c.readers[t].cur == e
    ensures Enabled(vs'[|acts'|].c, Write(w))
  {
    WriteFrame(vs[|acts|].c, w);
    var b := vs[|acts|].c.epoch;
    var vs1, acts1 := Then(vs, acts, Write(w));
    assert Spinning(vs1[|acts1|], w, b);
    vs', acts' := SpinCanEnd(vs1, acts1, w, b);
    forall m | |acts1| <= m < |acts'| ensures acts'[m].Read? {
      assert Leaves(vs'[m], acts'[m], b, {});
    }
  }

  lemma WriterGoesOn(vs: seq<View>, acts: seq<Action>, w: nat, t: nat, e: Addr)
    returns (vs': seq<View>, acts': seq<Action>)
    requires Run(vs, acts) && Stage(vs[|acts|], w, t, e, {Drain, Unlock, Free})
    requires Enabled(vs[|acts|].c, Write(w)) && vs[|acts|].c.readers[t].cur == e
    ensures Run(vs', acts') && Prefix(vs, acts, vs', acts') && GoesOnFrom(acts', |acts|)
    ensures var x, v' := vs[|acts|].c.writers[w], vs'[|acts'|];
      && Stage(v', w, t, e, {PhaseMove(vs[|acts|].c, x).pc}) && v'.c.readers[t].cur == e
      && (x.pc == Free ==> e in v'.c.freed)
  {
    WriteFrame(vs[|acts|].c, w);
    vs', acts' := Then(vs, acts, Write(w));
  }

  lemma DrainsAndFrees(vs: seq<View>, acts: seq<Action>, w: nat, t: nat, e: Addr)
    returns (vs': seq<View>, acts': seq<Action>)
    requires Run(vs, acts) && Stage(vs[|acts|], w, t, e, {Drain})
    requires Enabled(vs[|acts|].c, Write(w)) && vs[|acts|].c.readers[t].cur == e
    ensures Run(vs', acts') && Prefix(vs, acts, vs', acts') && GoesOnFrom(acts', |acts|)
    ensures OnFreed(vs'[|acts'|], w, t, e)
  {
    var vs1, acts1 := WriterGoesOn(vs, acts, w, t, e);
    var vs2, acts2 := WriterGoesOn(vs1, acts1, w, t, e);
    vs', acts' := WriterGoesOn(vs2, acts2, w, t, e);
  }

  lemma ExposedGetsThere(vs: seq<View>, acts: seq<Action>, w: nat, t: nat, e: Addr)
    returns (vs': seq<View>, acts': seq<Action>)
    requires Run(vs, acts)
    requires JustUpdated(vs[|acts|], w, e) && vs[|acts|].c.writers[w].op == Send && Exposed(vs[|acts|], t, e)
    ensures Run(vs', acts') && Prefix(vs, acts, vs', acts') && GoesOnFrom(acts', |acts|)
    ensures OnFreed(vs'[|acts'|], w, t, e)
  {
    RunShape(vs, acts, |acts|);
    assert WriterOk(vs[|acts|], w);
    var vs1, acts1 := RelinkedAndUp(vs, acts, w, t, e);
    var vs2, acts2 := FlipsAndDrains(vs1, acts1, w, t, e);
    vs', acts' := DrainsAndFrees(vs2, acts2, w, t, e);
  }

  /** Some signal-free continuation puts a traversing reader on the element w frees. */
  ghost predicate CanEndOnFreed(vs: seq<View>, acts: seq<Action>, w: nat, e: Addr) {
    exists vs', acts', j, t :: Run(vs', acts') && SignalFree(acts') && Prefix(vs, acts, vs', acts')
      && |acts| <= j < |vs'| && OnFreed(vs'[j], w, t, e)
  }

  /**
   * The exact limit of replace's single drain when no signal strikes: a traversing reader can end up on the freed
   * element if and only if, at the swap, some reader is on its way to it under the epoch that is not current.
   */
  lemma ReplaceSafeExactly(vs: seq<View>, acts: seq<Action>, w: nat, e: Addr)
    requires Run(vs, acts) && SignalFree(acts)
    requires JustUpdated(vs[|acts|], w, e) && vs[|acts|].c.writers[w].op == Send
    ensures CanEndOnFreed(vs, acts, w, e) <==> exists t :: Exposed(vs[|acts|], t, e)
  {
    if CanEndOnFreed(vs, acts, w, e) {
      var vs', acts', j, t :| Run(vs', acts') && SignalFree(acts') && Prefix(vs, acts, vs', acts')
        && |acts| <= j < |vs'| && OnFreed(vs'[j], w, t, e);
      OnlyExposed(vs', acts', |acts|, j, w, t, e);
    }
    if t :| Exposed(vs[|acts|], t, e) {
      var vs', acts' := ExposedGetsThere(vs, acts, w, t, e);
      assert OnFreed(vs'[|acts'|], w, t, e);
    }
  }

  /** In particular: with nobody registered under the other epoch at the swap, replace is as safe as remove. */
  lemma ReplaceSafeWhenAlone(vs: seq<View>, acts: seq<Action>, i: nat, j: nat, w: nat, t: nat, e: Addr)
    requires Run(vs, acts) && SignalFree(acts) && i <= j < |vs|
    requires JustUpdated(vs[i], w, e) && vs[i].c.writers[w].op == Send
    requires vs[i].c.Wf() && vs[i].c.standing[1 - vs[i].c.epoch] <= 0
    ensures !OnFreed(vs[j], w, t, e)
  {
    if OnFreed(vs[j], w, t, e) {
      OnlyExposed(vs, acts, i, j, w, t, e);
      NoneWithoutSignals(vs, acts, i, 1 - vs[i].c.epoch);
      ZeroMeansNobody(vs, acts, i, 1 - vs[i].c.epoch);
    }
  }
}
