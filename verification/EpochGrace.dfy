// Grace periods: which readers may still hold an element when the writer that took it out frees it.
module EpochGrace {
  import opened EpochMachine
  import opened EpochShape
  import opened EpochCounters

  /** The list has been updated, and the drains are not over. */
  predicate Closing(x: Writer) { x.pc in {Relink, DrainOther, Flip, Drain} }

  /** The drains are over. */
  predicate Closed(x: Writer) { x.pc in {Unlock, Free, Check, Raise, Finished} }

  /** Registered at some time. */
  predicate WasInside(r: Reader) { r.pc in {ReadHead, Walk, Leave, Uncount, Returned} }

  // --------------------------------------------------------------------------------------------------------
  // An element that is off the list is never picked up again

  lemma OffStays(v: View, a: Action, e: Addr)
    requires Shape(v) && Enabled(v.c, a) && Off(v, e)
    ensures Off(Step(v, a), e)
    ensures forall t :: (t in v.c.readers ==> Clean(v, t, e)) ==> Clean(Step(v, a), t, e)
  {
    var v' := Step(v, a);
    match a
    case Enter(t, _) => OtherMoves(v, a); MovesKeepReader(v, v', t);
    case Interrupt(t) => OtherMoves(v, a); MovesKeepReader(v, v', t);
    case Read(t) =>
      assert ReaderOk(v, t);
      ReadMoves(v, t);
      MovesKeepReader(v, v', t);
    case Start(_, _, _, _) => {}
    case Write(w) =>
      if Stores(v.c, v.c.writers[w]) {
        StoreRewires(v, w);
        RewireKeepsOff(v, v', w, e);
      } else {
        WriteQuiet(v, w);
      }
  }

  lemma SnapStays(v: View, a: Action, t: nat)
    requires Enabled(v.c, a) && t in v.c.readers
    ensures t in Step(v, a).c.readers && Step(v, a).c.readers[t].snap == v.c.readers[t].snap
  {
    if a.Write? {
      WriteFrame(v.c, a.w);
    } else if a.Read? {
      ReadFrame(v.c, a.t);
    }
  }

  /** Whoever still has e on its way at j had it on its way at i, when e was already off the list. */
  lemma {:induction false} HeldSince(vs: seq<View>, acts: seq<Action>, i: nat, j: nat, t: nat, e: Addr)
    requires Run(vs, acts) && i <= j < |vs| && Off(vs[i], e) && !Clean(vs[j], t, e)
    ensures t in vs[i].c.readers && !Clean(vs[i], t, e) && vs[i].c.readers[t].snap == vs[j].c.readers[t].snap
    decreases j - i
  {
    if i == j {
    } else {
      HeldStep(vs, acts, i, e);
      HeldSince(vs, acts, i + 1, j, t, e);
      RunStep(vs, acts, i);
      SnapStays(vs[i], acts[i], t);
    }
  }

  lemma HeldStep(vs: seq<View>, acts: seq<Action>, i: nat, e: Addr)
    requires Run(vs, acts) && i < |acts| && Off(vs[i], e)
    ensures Off(vs[i + 1], e)
    ensures forall t :: (t in vs[i].c.readers ==> Clean(vs[i], t, e)) ==> Clean(vs[i + 1], t, e)
  {
    RunShape(vs, acts, i);
    RunStep(vs, acts, i);
    OffStays(vs[i], acts[i], e);
  }

  // --------------------------------------------------------------------------------------------------------
  // The readers a writer waits for

  /** Reader t is one that writer w must see off, and has seen off once its drains are over. */
  predicate WaitsFor(v: View, w: nat, t: nat) {
    && w in v.c.writers && t in v.c.readers
    && var x, r := v.c.writers[w], v.c.readers[t];
    && WasInside(r)
    && (|| (x.pc in {Relink, DrainOther} && (r.snap == v.c.epoch || x.op == Remove))
        || (x.pc == Flip && (r.snap == v.c.epoch || (x.op == Remove && !Registered(r))))
        || (x.pc == Drain && (r.snap == x.grace || (x.op == Remove && !Registered(r))))
        || (Closed(x) && !Registered(r)))
  }

  /** A reader that is registered is counted. */
  predicate Counted(v: View, t: nat) {
    v.c.Wf() && t in v.c.readers && (Registered(v.c.readers[t]) ==> v.c.standing[v.c.readers[t].snap] > 0)
  }

  lemma WaitStep(v: View, a: Action, w: nat, t: nat)
    requires Shape(v) && Enabled(v.c, a) && WaitsFor(v, w, t) && Counted(v, t)
    ensures WaitsFor(Step(v, a), w, t)
  {
    match a
    case Enter(_, _) =>
    case Interrupt(_) =>
    case Start(_, _, _, _) =>
    case Read(u) => WaitRead(v, u, w, t);
    case Write(u) =>
      if u != w {
        WaitOther(v, u, w, t);
      } else {
        WaitWrite(v, w, t);
      }
  }

  lemma WaitRead(v: View, u: nat, w: nat, t: nat)
    requires Enabled(v.c, Read(u)) && WaitsFor(v, w, t)
    ensures WaitsFor(Step(v, Read(u)), w, t)
  {
    ReadFrame(v.c, u);
  }

  lemma WaitOther(v: View, u: nat, w: nat, t: nat)
    requires Shape(v) && Enabled(v.c, Write(u)) && u != w && WaitsFor(v, w, t)
    ensures WaitsFor(Step(v, Write(u)), w, t)
  {
    assert WriterOk(v, w) && WriterOk(v, u);
    OtherWriter(v.c, u, w);
  }

  lemma OtherWriter(c: Core, u: nat, w: nat)
    requires Enabled(c, Write(u)) && u != w && w in c.writers
    ensures var c' := WriterNext(c, u);
      w in c'.writers && c'.writers[w] == c.writers[w] && c'.readers == c.readers
      && (c.writers[u].pc != Flip ==> c'.epoch == c.epoch)
  {
    WriteFrame(c, u);
  }

  /** The first step of w from state i on. */
  lemma {:induction false} FirstWrite(acts: seq<Action>, i: nat, j: nat, w: nat) returns (m: nat)
    requires i <= j <= |acts|
    ensures i <= m <= j && (m < j ==> acts[m] == Write(w)) && forall k :: i <= k < m ==> acts[k] != Write(w)
    decreases j - i
  {
    if i == j || acts[i] == Write(w) {
      m := i;
    } else {
      m := FirstWrite(acts, i + 1, j, w);
    }
  }

  /** Between its own steps a call stays where it is. */
  lemma {:induction false} WriterStays(vs: seq<View>, acts: seq<Action>, i: nat, j: nat, w: nat)
    requires Run(vs, acts) && i <= j < |vs| && w in vs[i].c.writers
    requires forall k :: i <= k < j ==> acts[k] != Write(w)
    ensures w in vs[j].c.writers && vs[j].c.writers[w] == vs[i].c.writers[w]
    decreases j
  {
    if i == j {
    } else {
      WriterStays(vs, acts, i, j - 1, w);
      StaysOne(vs, acts, j - 1, w);
    }
  }

  lemma StaysOne(vs: seq<View>, acts: seq<Action>, n: nat, w: nat)
    requires Run(vs, acts) && n < |acts| && w in vs[n].c.writers && acts[n] != Write(w)
    ensures w in vs[n + 1].c.writers && vs[n + 1].c.writers[w] == vs[n].c.writers[w]
  {
    RunStep(vs, acts, n);
    if acts[n].Write? {
      OtherWriter(vs[n].c, acts[n].w, w);
    }
  }

  /** The phases of a writer that has updated the list. */
  lemma WaitPhase(c: Core, w: nat)
    requires Enabled(c, Write(w)) && (Closing(c.writers[w]) || Closed(c.writers[w]))
    ensures var c', x := WriterNext(c, w), c.writers[w]; w in c'.writers && var x' := c'.writers[w];
      && c'.readers == c.readers && x'.op == x.op
      && (x.pc == Relink ==> x'.pc == Flip && c'.epoch == c.epoch)
      && (x.pc == DrainOther ==> x'.pc == Flip && c'.epoch == c.epoch && x'.grace == x.grace)
      && (x.pc == Flip ==> x'.pc == Drain && x'.grace == GraceOf(c, x))
      && (x.pc == Drain ==> x'.pc == Unlock)
      && (Closed(x) ==> Closed(x'))
  {
    if c.writers[w].pc != Relink { assert WriterNext(c, w) == PhaseNext(c, w); }
  }

  lemma WaitWrite(v: View, w: nat, t: nat)
    requires Shape(v) && Enabled(v.c, Write(w)) && WaitsFor(v, w, t) && Counted(v, t)
    ensures WaitsFor(Step(v, Write(w)), w, t)
  {
    assert WriterOk(v, w);
    WaitPhase(v.c, w);
    WaitMove(v, Step(v, Write(w)), w, t);
  }

  /** A spin ends only when the counter says that nobody is registered. */
  lemma WaitMove(v: View, v': View, w: nat, t: nat)
    requires v.c.Wf() && WaitsFor(v, w, t) && Counted(v, t) && v'.c.readers == v.c.readers && w in v'.c.writers
    requires var x, x' := v.c.writers[w], v'.c.writers[w];
      && x'.op == x.op && OpPc(x)
      && (x.pc in {DrainOther, Drain} ==> v.c.standing[if x.pc == Drain then x.grace else 1 - x.grace] <= 0)
      && (x.pc == DrainOther ==> x.grace == v.c.epoch)
      && (x.pc == Relink ==> x'.pc == Flip && v'.c.epoch == v.c.epoch)
      && (x.pc == DrainOther ==> x'.pc == Flip && v'.c.epoch == v.c.epoch)
      && (x.pc == Flip ==> x'.pc == Drain && x'.grace == GraceOf(v.c, x))
      && (x.pc == Flip && x.op == Remove ==> x.grace == v.c.epoch)
      && (x.pc == Drain ==> x'.pc == Unlock)
      && (Closed(x) ==> Closed(x'))
    ensures WaitsFor(v', w, t)
  {}

  lemma WaitsNext(vs: seq<View>, acts: seq<Action>, i: nat, w: nat, t: nat)
    requires Run(vs, acts) && i < |acts| && WaitsFor(vs[i], w, t)
    requires NoneInterrupted(vs[i].c, vs[i].c.readers[t].snap)
    ensures WaitsFor(vs[i + 1], w, t) && vs[i + 1].c.readers[t].snap == vs[i].c.readers[t].snap
  {
    RunShape(vs, acts, i);
    RunStep(vs, acts, i);
    ZeroMeansNobody(vs, acts, i, vs[i].c.readers[t].snap);
    WaitStep(vs[i], acts[i], w, t);
    SnapStays(vs[i], acts[i], t);
  }

  lemma {:induction false} WaitsOn(vs: seq<View>, acts: seq<Action>, i: nat, j: nat, w: nat, t: nat)
    requires Run(vs, acts) && i <= j < |vs| && WaitsFor(vs[i], w, t)
    requires NoneInterrupted(vs[j].c, vs[i].c.readers[t].snap)
    ensures WaitsFor(vs[j], w, t)
    decreases j - i
  {
    if i == j {
    } else {
      NoneBefore(vs, acts, i, j, vs[i].c.readers[t].snap);
      WaitsNext(vs, acts, i, w, t);
      WaitsOn(vs, acts, i + 1, j, w, t);
    }
  }

  /**
   * A reader registered when the list is updated, under the epoch then current, has left before the writer's drains
   * are over; for remove, which drains both counters, so has every registered reader. All that it takes is that no
   * signal has interrupted a reader with the same snapshot.
   */
  lemma GracePeriod(vs: seq<View>, acts: seq<Action>, i: nat, j: nat, w: nat, t: nat)
    requires Run(vs, acts) && i <= j < |vs|
    requires w in vs[i].c.writers && var x := vs[i].c.writers[w];
      x.pc in {Relink, DrainOther} || (x.pc == Flip && x.op != Remove)
    requires t in vs[i].c.readers && Registered(vs[i].c.readers[t])
    requires NoneInterrupted(vs[j].c, vs[i].c.readers[t].snap)
    requires vs[i].c.readers[t].snap == vs[i].c.epoch || vs[i].c.writers[w].op == Remove
    requires w in vs[j].c.writers && Closed(vs[j].c.writers[w])
    ensures t in vs[j].c.readers && !Registered(vs[j].c.readers[t])
  {
    WaitsOn(vs, acts, i, j, w, t);
  }

  // --------------------------------------------------------------------------------------------------------

  /** The instant after the store that takes out the element w will free. */
  predicate JustUpdated(v: View, w: nat, e: Addr) {
    && w in v.c.writers
    && var x := v.c.writers[w];
    && x.gone == e && e != NULL && Off(v, e)
    && (x.pc in {Relink, DrainOther} || (x.pc == Flip && x.op == Send))
  }

  lemma OwnWriteBack(v: View, w: nat)
    requires Shape(v) && Enabled(v.c, Write(w)) && w in Step(v, Write(w)).c.writers
    requires Step(v, Write(w)).c.writers[w].gone != NULL
    ensures var v' := Step(v, Write(w)); var x, x' := v.c.writers[w], v'.c.writers[w];
      x.op == x'.op && (x.gone == x'.gone || JustUpdated(v', w, x'.gone))
  {
    var v' := Step(v, Write(w));
    assert WriterOk(v, w);
    if Stores(v.c, v.c.writers[w]) {
      StoreRewires(v, w);
      GoneStaysOff(v, v', w, w);
    } else {
      WriteQuiet(v, w);
    }
  }

  lemma WriterBack(v: View, a: Action, w: nat)
    requires Shape(v) && Enabled(v.c, a) && w in Step(v, a).c.writers && Step(v, a).c.writers[w].gone != NULL
    ensures w in v.c.writers && v.c.writers[w].op == Step(v, a).c.writers[w].op
    ensures v.c.writers[w].gone == Step(v, a).c.writers[w].gone || JustUpdated(Step(v, a), w, Step(v,
        a).c.writers[w].gone)
  {
    var v' := Step(v, a);
    if a.Write? {
      if a.w == w {
        OwnWriteBack(v, w);
      } else {
        OtherWriter(v.c, a.w, w);
      }
    }
  }

  lemma GoneBack(vs: seq<View>, acts: seq<Action>, j: nat, w: nat)
    requires Run(vs, acts) && j < |vs| && w in vs[j].c.writers && vs[j].c.writers[w].gone != NULL
    ensures j > 0
    ensures var x, v := vs[j].c.writers[w], vs[j - 1].c;
      && w in v.writers && v.writers[w].op == x.op
      && (v.writers[w].gone == x.gone || JustUpdated(vs[j], w, x.gone))
  {
    RunShape(vs, acts, j - 1);
    RunStep(vs, acts, j - 1);
    WriterBack(vs[j - 1], acts[j - 1], w);
  }

  /** A writer that has taken out an element did so at some instant of the run. */
  lemma {:induction false} UpdateInstant(vs: seq<View>, acts: seq<Action>, j: nat, w: nat) returns (i: nat)
    requires Run(vs, acts) && j < |vs| && w in vs[j].c.writers && vs[j].c.writers[w].gone != NULL
    ensures i <= j && JustUpdated(vs[i], w, vs[j].c.writers[w].gone) && vs[i].c.writers[w].op == vs[j].c.writers[w].op
    decreases j
  {
    GoneBack(vs, acts, j, w);
    if JustUpdated(vs[j], w, vs[j].c.writers[w].gone) {
      i := j;
    } else {
      i := UpdateInstant(vs, acts, j - 1, w);
    }
  }

  /**
   * Grace period of remove: once its drains are over, and so when it frees its element and ever after, no reader
   * has that element under its cursor or anywhere ahead, unless a signal has interrupted a reader with the same
   * snapshot; stale snapshots and concurrent replaces do not matter.
   */
  lemma RemoveGrace(vs: seq<View>, acts: seq<Action>, j: nat, w: nat, t: nat)
    requires Run(vs, acts) && j < |vs|
    requires w in vs[j].c.writers && vs[j].c.writers[w].op == Remove && Closed(vs[j].c.writers[w])
    requires vs[j].c.writers[w].gone != NULL && t in vs[j].c.readers && Traversing(vs[j].c.readers[t])
    requires NoneInterrupted(vs[j].c, vs[j].c.readers[t].snap)
    ensures t in vs[j].path && vs[j].c.writers[w].gone !in vs[j].path[t]
    ensures vs[j].c.readers[t].cur != vs[j].c.writers[w].gone
  {
    var e := vs[j].c.writers[w].gone;
    RunShape(vs, acts, j);
    assert ReaderOk(vs[j], t);
    var i := UpdateInstant(vs, acts, j, w);
    if e in vs[j].path[t] {
      HeldSince(vs, acts, i, j, t, e);
      RunShape(vs, acts, i);
      assert WriterOk(vs[i], w);
      GracePeriod(vs, acts, i, j, w, t);
    }
  }

  /**
   * Grace period of replace: a reader that holds or can reach the replaced element once the drain is over was
   * already traversing at the swap, with that element ahead, under the epoch that replace does not drain.
   */
  lemma ReplaceGrace(vs: seq<View>, acts: seq<Action>, j: nat, w: nat, t: nat) returns (i: nat)
    requires Run(vs, acts) && j < |vs|
    requires w in vs[j].c.writers && vs[j].c.writers[w].op == Send && Closed(vs[j].c.writers[w])
    requires vs[j].c.writers[w].gone != NULL && !Clean(vs[j], t, vs[j].c.writers[w].gone)
    requires NoneInterrupted(vs[j].c, vs[j].c.readers[t].snap)
    ensures i <= j && JustUpdated(vs[i], w, vs[j].c.writers[w].gone) && vs[i].c.writers[w].op == Send
    ensures t in vs[i].c.readers && Traversing(vs[i].c.readers[t]) && !Clean(vs[i], t, vs[j].c.writers[w].gone)
    ensures vs[i].c.readers[t].snap == 1 - vs[i].c.epoch
  {
    i := UpdateInstant(vs, acts, j, w);
    HeldSince(vs, acts, i, j, t, vs[j].c.writers[w].gone);
    if vs[i].c.readers[t].snap == vs[i].c.epoch {
      RunShape(vs, acts, i);
      assert WriterOk(vs[i], w);
      GracePeriod(vs, acts, i, j, w, t);
    }
  }

  // --------------------------------------------------------------------------------------------------------

  predicate FreedBy(c: Core, e: Addr, w: nat) {
    && w in c.writers && c.writers[w].gone == e && e != NULL && c.writers[w].op in {Remove, Send}
    && c.writers[w].pc in {Check, Raise, Finished}
  }

  lemma FreedBack(v: View, a: Action, e: Addr)
    requires Shape(v) && Enabled(v.c, a) && e in Step(v, a).c.freed
    ensures e in v.c.freed || (a.Write? && FreedBy(Step(v, a).c, e, a.w))
  {
    if a.Write? {
      assert WriterOk(v, a.w);
      if Stores(v.c, v.c.writers[a.w]) { StoreWf(v.c, a.w); StoreRewires(v, a.w); }
      else { WriteQuietFrame(v.c, a.w); }
    }
  }

  lemma FreedByStays(v: View, a: Action, e: Addr, w: nat)
    requires Shape(v) && Enabled(v.c, a) && FreedBy(v.c, e, w)
    ensures FreedBy(Step(v, a).c, e, w)
  {
    if a.Write? && a.w != w { OtherWriter(v.c, a.w, w); }
    if a.Write? && a.w == w { WriteQuietFrame(v.c, w); }
  }

  /** Every freed element was freed by a remove or a replace that had taken it out. */
  lemma {:induction false} WhoFreed(vs: seq<View>, acts: seq<Action>, j: nat, e: Addr) returns (w: nat)
    requires Run(vs, acts) && j < |vs| && e in vs[j].c.freed
    ensures FreedBy(vs[j].c, e, w)
    decreases j
  {
    RunShape(vs, acts, j - 1);
    RunStep(vs, acts, j - 1);
    FreedBack(vs[j - 1], acts[j - 1], e);
    if e in vs[j - 1].c.freed {
      w := WhoFreed(vs, acts, j - 1, e);
      FreedByStays(vs[j - 1], acts[j - 1], e, w);
    } else {
      w := acts[j - 1].w;
    }
  }

  ghost predicate ReplaceFree(acts: seq<Action>) {
    forall i :: 0 <= i < |acts| && acts[i].Start? ==> acts[i].op != Send
  }

  lemma {:induction false} NoSenders(vs: seq<View>, acts: seq<Action>, j: nat, w: nat)
    requires Run(vs, acts) && ReplaceFree(acts) && j < |vs| && w in vs[j].c.writers
    ensures vs[j].c.writers[w].op != Send
    decreases j
  {
    var v, a := vs[j - 1], acts[j - 1];
    RunStep(vs, acts, j - 1);
    if w in v.c.writers {
      NoSenders(vs, acts, j - 1, w);
    }
    if a.Write? { WriteFrame(v.c, a.w); }
  }

  /**
   * In every run of readers, inserts and removes, no registered reader's cursor is on a freed element, nor will it
   * get there, unless a signal has interrupted a reader with the same snapshot.
   */
  lemma NoCursorOnFreed(vs: seq<View>, acts: seq<Action>, j: nat, t: nat)
    requires Run(vs, acts) && ReplaceFree(acts) && j < |vs|
    requires t in vs[j].c.readers && Traversing(vs[j].c.readers[t])
    requires NoneInterrupted(vs[j].c, vs[j].c.readers[t].snap)
    ensures vs[j].c.readers[t].cur !in vs[j].c.freed
    ensures t in vs[j].path && forall e :: e in vs[j].path[t] ==> e !in vs[j].c.freed
  {
    RunShape(vs, acts, j);
    assert ReaderOk(vs[j], t);
    forall e | e in vs[j].path[t] ensures e !in vs[j].c.freed {
      if e in vs[j].c.freed {
        var w := WhoFreed(vs, acts, j, e);
        NoSenders(vs, acts, j, w);
        RemoveGrace(vs, acts, j, w, t);
      }
    }
    if vs[j].c.readers[t].cur == NULL && NULL in vs[j].c.freed {
      var w := WhoFreed(vs, acts, j, NULL);
    }
  }
}
