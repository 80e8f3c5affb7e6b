// Who is woken: what a send does about the readers that sleep on its level, what AWAKE_ALL does, and what can undo it.
module EpochWake {
  import opened EpochMachine
  import opened EpochShape
  import opened EpochCounters
  import opened EpochGrace
  import opened EpochChain
  import opened EpochCalls
  import opened EpochScenario
  import opened Sizes

  /** Lines 244-250 of TAG_Messaging.c: has the level a sleeper? */
  lemma CheckStep(vs: seq<View>, acts: seq<Action>, c: nat, w: nat)
    requires Run(vs, acts) && c < |acts| && acts[c] == Write(w)
    requires w in vs[c].c.writers && vs[c].c.writers[w].pc == Check
    ensures w in vs[c + 1].c.writers && vs[c + 1].c.ready == vs[c].c.ready
    ensures var x := vs[c].c.writers[w];
      vs[c + 1].c.writers[w] == x.(pc :=
        if exists t :: t in vs[c].c.readers && vs[c].c.readers[t].pc == Parked && vs[c].c.readers[t].key == x.key
        then Raise else Finished)
  {
    RunStep(vs, acts, c);
  }

  /** Lines 255 and 371-374: the flag goes up. */
  lemma RaiseStep(vs: seq<View>, acts: seq<Action>, m: nat, w: nat)
    requires Run(vs, acts) && m < |acts| && acts[m] == Write(w)
    requires w in vs[m].c.writers && vs[m].c.writers[w].pc == Raise
    ensures var x := vs[m].c.writers[w];
      && w in vs[m + 1].c.writers && vs[m].c.Wf() && |vs[m + 1].c.ready| == 32
      && (0 <= x.key < 32 ==> vs[m + 1].c.ready == vs[m].c.ready[x.key := true])
      && vs[m + 1].c.writers[w]
         == if x.op == Awake && x.key < 31 then x.(key := x.key + 1) else x.(pc := Finished)
  {
    RunStep(vs, acts, m);
  }

  /**
   * A send that finds a reader asleep on its level after the update, and has come back, has raised the flag of the
   * level in between.
   */
  lemma SendWakes(vs: seq<View>, acts: seq<Action>, c: nat, n: nat, w: nat, t: nat) returns (m: nat)
    requires Run(vs, acts) && c < n < |vs| && acts[c] == Write(w)
    requires w in vs[c].c.writers && vs[c].c.writers[w].op == Send && vs[c].c.writers[w].pc == Check
    requires t in vs[c].c.readers && vs[c].c.readers[t].pc == Parked
    requires vs[c].c.readers[t].key == vs[c].c.writers[w].key
    requires w in vs[n].c.writers && vs[n].c.writers[w].pc == Finished
    ensures c < m < n && acts[m] == Write(w)
    ensures var k := vs[c].c.writers[w].key; 0 <= k < |vs[m + 1].c.ready| && vs[m + 1].c.ready[k]
  {
    RunShape(vs, acts, c);
    CheckStep(vs, acts, c, w);
    m := FirstWrite(acts, c + 1, n, w);
    WriterStays(vs, acts, c + 1, m, w);
    assert vs[m].c.writers[w].pc == Raise;
    RaiseStep(vs, acts, m, w);
  }

  /** A call that has come back takes no more steps. */
  lemma {:induction false} FinishedStays(vs: seq<View>, acts: seq<Action>, i: nat, n: nat, w: nat)
    requires Run(vs, acts) && i <= n < |vs| && w in vs[i].c.writers && vs[i].c.writers[w].pc == Finished
    ensures w in vs[n].c.writers && vs[n].c.writers[w].pc == Finished
    ensures forall m :: i <= m < n ==> acts[m] != Write(w)
    decreases n
  {
    if i == n {
    } else {
      FinishedStays(vs, acts, i, n - 1, w);
      FinishedOne(vs, acts, n - 1, w);
    }
  }

  lemma FinishedOne(vs: seq<View>, acts: seq<Action>, n: nat, w: nat)
    requires Run(vs, acts) && n < |acts| && w in vs[n].c.writers && vs[n].c.writers[w].pc == Finished
    ensures acts[n] != Write(w) && w in vs[n + 1].c.writers && vs[n + 1].c.writers[w].pc == Finished
  {
    RunStep(vs, acts, n);
    StaysOne(vs, acts, n, w);
  }

  /** A send that finds nobody asleep on its level comes back at once, with all flags as they were. */
  lemma SendWakesNobody(vs: seq<View>, acts: seq<Action>, c: nat, n: nat, w: nat)
    requires Run(vs, acts) && c < n < |vs| && acts[c] == Write(w)
    requires w in vs[c].c.writers && vs[c].c.writers[w].op == Send && vs[c].c.writers[w].pc == Check
    requires forall t :: t in vs[c].c.readers && vs[c].c.readers[t].key == vs[c].c.writers[w].key ==>
      vs[c].c.readers[t].pc != Parked
    ensures vs[c + 1].c.ready == vs[c].c.ready && w in vs[n].c.writers && vs[n].c.writers[w].pc == Finished
    ensures forall m :: c < m < n ==> acts[m] != Write(w)
  {
    CheckStep(vs, acts, c, w);
    FinishedStays(vs, acts, c + 1, n, w);
  }

  // --------------------------------------------------------------------------------------------------------

  /** A send that has updated the list comes back through the check. */
  lemma CheckBefore(vs: seq<View>, acts: seq<Action>, n: nat, w: nat)
    requires Run(vs, acts) && n < |acts| && w in vs[n + 1].c.writers && vs[n + 1].c.writers[w].gone != NULL
    requires vs[n + 1].c.writers[w].op == Send && vs[n + 1].c.writers[w].pc in {Raise, Finished}
    ensures w in vs[n].c.writers && var x, x' := vs[n].c.writers[w], vs[n + 1].c.writers[w];
      && x.op == Send && x.key == x'.key && x.gone == x'.gone
      && x.pc in {Check, Raise, Finished} && (x.pc == Check ==> acts[n] == Write(w))
  {
    RunStep(vs, acts, n);
    CallBack(vs[n], acts[n], w);
    if acts[n] == Write(w) {
      CallMove(vs[n].c, w);
    } else {
      StaysOne(vs, acts, n, w);
    }
  }

  lemma {:induction false} CheckedAt(vs: seq<View>, acts: seq<Action>, n: nat, w: nat) returns (c: nat)
    requires Run(vs, acts) && n < |vs| && w in vs[n].c.writers && vs[n].c.writers[w].gone != NULL
    requires vs[n].c.writers[w].op == Send && vs[n].c.writers[w].pc in {Raise, Finished}
    ensures c < n && acts[c] == Write(w) && w in vs[c].c.writers && vs[c].c.writers[w].pc == Check
    ensures vs[c].c.writers[w].op == Send && vs[c].c.writers[w].key == vs[n].c.writers[w].key
    decreases n
  {
    CheckBefore(vs, acts, n - 1, w);
    if vs[n - 1].c.writers[w].pc == Check {
      c := n - 1;
    } else {
      c := CheckedAt(vs, acts, n - 1, w);
    }
  }

  /** What a send has taken out is an element. */
  lemma SentGone(vs: seq<View>, acts: seq<Action>, n: nat, w: nat)
    requires Run(vs, acts) && n < |vs| && w in vs[n].c.writers && Done(vs[n].c.writers[w])
    requires vs[n].c.writers[w].op == Send
    ensures vs[n].c.writers[w].gone != NULL
  {
    var u, f := UpdatedAt(vs, acts, n, w);
    RunShape(vs, acts, u);
    ChainMember(Links(vs[u].c), vs[u].c.head, vs[u].live, vs[u].live[f]);
  }

  /**
   * Every send that has come back: at u it put its element in the place of the first of its level; after that, at c,
   * it looked for sleepers on the level; if there was one, it raised the flag of the level then, at m.
   */
  lemma SendDone(vs: seq<View>, acts: seq<Action>, n: nat, w: nat) returns (u: nat, f: nat, c: nat, m: nat)
    requires Run(vs, acts) && n < |vs| && w in vs[n].c.writers
    requires vs[n].c.writers[w].op == Send && vs[n].c.writers[w].pc == Finished
    ensures u < c < n && acts[u] == Write(w) == acts[c] && Updates(vs[u], vs[u + 1], vs[n].c.writers[w], f)
    ensures var k := vs[n].c.writers[w].key;
      (exists t :: t in vs[c].c.readers && vs[c].c.readers[t].pc == Parked && vs[c].c.readers[t].key == k) ==>
        c < m < n && acts[m] == Write(w) && 0 <= k < |vs[m + 1].c.ready| && vs[m + 1].c.ready[k]
  {
    SentGone(vs, acts, n, w);
    c := CheckedAt(vs, acts, n, w);
    u, f := UpdatedAt(vs, acts, n, w);
    UpdateBefore(vs, acts, u, c, w);
    m := 0;
    var k := vs[n].c.writers[w].key;
    if t :| t in vs[c].c.readers && vs[c].c.readers[t].pc == Parked && vs[c].c.readers[t].key == k {
      m := SendWakes(vs, acts, c, n, w, t);
    }
  }

  /** A call does not search again. */
  lemma {:induction false} NoWayBack(vs: seq<View>, acts: seq<Action>, i: nat, j: nat, w: nat)
    requires Run(vs, acts) && i <= j < |vs| && w in vs[i].c.writers && Done(vs[i].c.writers[w])
    ensures w in vs[j].c.writers && Done(vs[j].c.writers[w])
    decreases j
  {
    if i == j {
    } else {
      NoWayBack(vs, acts, i, j - 1, w);
      StaysDone(vs, acts, j - 1, w);
    }
  }

  lemma StaysDone(vs: seq<View>, acts: seq<Action>, n: nat, w: nat)
    requires Run(vs, acts) && n < |acts| && w in vs[n].c.writers && Done(vs[n].c.writers[w])
    ensures w in vs[n + 1].c.writers && Done(vs[n + 1].c.writers[w])
  {
    RunStep(vs, acts, n);
    if acts[n] == Write(w) {
      WriteFrame(vs[n].c, w);
      CallMove(vs[n].c, w);
    } else {
      StaysOne(vs, acts, n, w);
    }
  }

  lemma UpdateBefore(vs: seq<View>, acts: seq<Action>, u: nat, c: nat, w: nat)
    requires Run(vs, acts) && u < |vs| && c < |vs| && w in vs[u].c.writers && vs[u].c.writers[w].pc in {Look, Seek}
    requires w in vs[c].c.writers && vs[c].c.writers[w].pc == Check && vs[c].c.writers[w].op == Send
    ensures u < c
  {
    if c <= u { NoWayBack(vs, acts, c, u, w); }
  }

  // --------------------------------------------------------------------------------------------------------

  /** The flag of level k has gone up when the loop of AWAKE_ALL is past it. */
  predicate PastLevel(x: Writer, k: int) { x.op == Awake && (x.pc == Finished || (x.pc == Raise && k < x.key)) }

  lemma PastBefore(vs: seq<View>, acts: seq<Action>, n: nat, w: nat, k: nat)
    requires Run(vs, acts) && n < |acts| && k < 32 && w in vs[n + 1].c.writers && PastLevel(vs[n + 1].c.writers[w], k)
    ensures w in vs[n].c.writers && vs[n].c.writers[w].op == Awake
    ensures PastLevel(vs[n].c.writers[w], k)
      || (acts[n] == Write(w) && k < |vs[n + 1].c.ready| && vs[n + 1].c.ready[k])
  {
    RunStep(vs, acts, n);
    RunShape(vs, acts, n);
    if acts[n] == Write(w) {
      WriteFrame(vs[n].c, w);
      assert WriterOk(vs[n], w);
      if vs[n].c.writers[w].pc == Raise { RaiseStep(vs, acts, n, w); }
    } else if w in vs[n].c.writers {
      StaysOne(vs, acts, n, w);
    }
  }

  /** An AWAKE_ALL that has come back has raised the flag of every level. */
  lemma {:induction false} AwakeRaises(vs: seq<View>, acts: seq<Action>, n: nat, w: nat, k: nat) returns (m: nat)
    requires Run(vs, acts) && n < |vs| && k < 32 && w in vs[n].c.writers && PastLevel(vs[n].c.writers[w], k)
    ensures m < n && acts[m] == Write(w) && k < |vs[m + 1].c.ready| && vs[m + 1].c.ready[k]
    decreases n
  {
    PastBefore(vs, acts, n - 1, w, k);
    if PastLevel(vs[n - 1].c.writers[w], k) {
      m := AwakeRaises(vs, acts, n - 1, w, k);
    } else {
      m := n - 1;
    }
  }

  // --------------------------------------------------------------------------------------------------------
  // From the flag to the reader

  /** From the check of a send that sees reader t asleep, two steps of the send and one of t release it. */
  lemma ParkedIsReleased(vs: seq<View>, acts: seq<Action>, w: nat, t: nat) returns (vs': seq<View>, acts': seq<Action>)
    requires Run(vs, acts) && w in vs[|acts|].c.writers && vs[|acts|].c.writers[w].op == Send
    requires vs[|acts|].c.writers[w].pc == Check && t in vs[|acts|].c.readers
    requires vs[|acts|].c.readers[t].pc == Parked && vs[|acts|].c.readers[t].key == vs[|acts|].c.writers[w].key
    ensures Run(vs', acts') && vs <= vs' && acts' == acts + [Write(w), Write(w), Read(t)]
    ensures w in vs'[|acts'|].c.writers && vs'[|acts'|].c.writers[w].pc == Finished
    ensures t in vs'[|acts'|].c.readers && vs'[|acts'|].c.readers[t] == vs[|acts|].c.readers[t].(pc := Register)
  {
    var n := |acts|;
    RunShape(vs, acts, n);
    var vs1, acts1 := Goes(vs, acts, w);
    CheckStep(vs1, acts1, n, w);
    var vs2, acts2 := Goes(vs1, acts1, w);
    RaiseStep(vs2, acts2, n + 1, w);
    vs', acts' := Passes(vs2, acts2, t);
    StaysOne(vs', acts', n + 2, w);
  }

  lemma Goes(vs: seq<View>, acts: seq<Action>, w: nat) returns (vs': seq<View>, acts': seq<Action>)
    requires Run(vs, acts) && Enabled(vs[|acts|].c, Write(w))
    ensures Run(vs', acts') && vs <= vs' && acts' == acts + [Write(w)]
    ensures vs'[|acts'|].c.readers == vs[|acts|].c.readers && vs'[|acts'|].c.Wf()
  {
    WriteFrame(vs[|acts|].c, w);
    vs', acts' := Then(vs, acts, Write(w));
  }

  lemma Passes(vs: seq<View>, acts: seq<Action>, t: nat) returns (vs': seq<View>, acts': seq<Action>)
    requires Run(vs, acts) && t in vs[|acts|].c.readers && vs[|acts|].c.Wf()
    requires vs[|acts|].c.readers[t].pc == Parked && vs[|acts|].c.ready[vs[|acts|].c.readers[t].key]
    ensures Run(vs', acts') && vs <= vs' && acts' == acts + [Read(t)]
    ensures t in vs'[|acts'|].c.readers && vs'[|acts'|].c.readers[t] == vs[|acts|].c.readers[t].(pc := Register)
  {
    vs', acts' := Then(vs, acts, Read(t));
  }

  /** A reader whose flag is up when it gets to the wait does not park. */
  lemma TestStep(vs: seq<View>, acts: seq<Action>, i: nat, t: nat)
    requires Run(vs, acts) && i < |acts| && acts[i] == Read(t)
    requires t in vs[i].c.readers && vs[i].c.readers[t].pc == Test
    ensures 0 <= vs[i].c.readers[t].key < |vs[i].c.ready| && t in vs[i + 1].c.readers
    ensures vs[i + 1].c.readers[t].pc == if vs[i].c.ready[vs[i].c.readers[t].key] then Register else Parked
  {
    RunStep(vs, acts, i);
  }

  predicate Struck(r: Reader) { r.pc in {IntrLeave, IntrUncount, IntrReturned} }

  lemma StruckOne(vs: seq<View>, acts: seq<Action>, n: nat, t: nat)
    requires Run(vs, acts) && n < |acts| && t in vs[n + 1].c.readers && Struck(vs[n + 1].c.readers[t])
    ensures t in vs[n].c.readers && vs[n].c.Wf()
    ensures Struck(vs[n].c.readers[t]) || (acts[n] == Interrupt(t)
      && vs[n].c.readers[t].pc == Parked && !vs[n].c.ready[vs[n].c.readers[t].key])
  {
    RunStep(vs, acts, n);
    if acts[n].Write? { WriteFrame(vs[n].c, acts[n].w); }
    if acts[n].Read? { ReadFrame(vs[n].c, acts[n].t); }
  }

  /** A signal ends a wait only while the flag is down. */
  lemma {:induction false} StruckWhileDown(vs: seq<View>, acts: seq<Action>, n: nat, t: nat) returns (i: nat)
    requires Run(vs, acts) && n < |vs| && t in vs[n].c.readers && Struck(vs[n].c.readers[t])
    ensures i < n && acts[i] == Interrupt(t) && t in vs[i].c.readers && vs[i].c.Wf()
    ensures vs[i].c.readers[t].pc == Parked && !vs[i].c.ready[vs[i].c.readers[t].key]
    decreases n
  {
    StruckOne(vs, acts, n - 1, t);
    if Struck(vs[n - 1].c.readers[t]) {
      i := StruckWhileDown(vs, acts, n - 1, t);
    } else {
      i := n - 1;
    }
  }

  /** But the flag is all there is: a reader that enters the level first lowers it, and t sleeps on. */
  lemma EntrantTakesTheFlag(vs: seq<View>, acts: seq<Action>, t: nat)
    returns (vs': seq<View>, acts': seq<Action>, u: nat)
    requires Run(vs, acts) && t in vs[|acts|].c.readers && vs[|acts|].c.readers[t].pc == Parked
    ensures Run(vs', acts') && vs <= vs' && u !in vs[|acts|].c.readers
    ensures acts' == acts + [Enter(u, vs[|acts|].c.readers[t].key), Read(u)]
    ensures t in vs'[|acts'|].c.readers && vs'[|acts'|].c.readers[t] == vs[|acts|].c.readers[t]
    ensures !Enabled(vs'[|acts'|].c, Read(t))
  {
    RunShape(vs, acts, |acts|);
    u := Above(vs[|acts|].c.readers.Keys);
    var vs1, acts1 := Comes(vs, acts, u, vs[|acts|].c.readers[t].key);
    vs', acts' := Resets(vs1, acts1, u);
  }

  lemma Comes(vs: seq<View>, acts: seq<Action>, u: nat, key: int) returns (vs': seq<View>, acts': seq<Action>)
    requires Run(vs, acts) && vs[|acts|].c.Wf() && u !in vs[|acts|].c.readers && 0 <= key < LEVELS
    ensures Run(vs', acts') && vs <= vs' && acts' == acts + [Enter(u, key)] && vs'[|acts'|].c.Wf()
    ensures vs'[|acts'|].c.readers == vs[|acts|].c.readers[u := Reader(key, vs[|acts|].c.epoch, Reset, NULL)]
  {
    vs', acts' := Then(vs, acts, Enter(u, key));
  }

  lemma Resets(vs: seq<View>, acts: seq<Action>, u: nat) returns (vs': seq<View>, acts': seq<Action>)
    requires Run(vs, acts) && vs[|acts|].c.Wf() && u in vs[|acts|].c.readers && vs[|acts|].c.readers[u].pc == Reset
    ensures Run(vs', acts') && vs <= vs' && acts' == acts + [Read(u)] && |vs'[|acts'|].c.ready| == LEVELS
    ensures var c, c' := vs[|acts|].c, vs'[|acts'|].c;
      c'.readers == c.readers[u := c.readers[u].(pc := Count)] && !c'.ready[c.readers[u].key]
  {
    vs', acts' := Then(vs, acts, Read(u));
  }

  /** Before a reader reads the head, and after a signal, its cursor is NULL. */
  predicate NoCursor(r: Reader) { r.pc in {ReadHead, Walk, Leave, Uncount, Returned} || r.cur == NULL }

  lemma NoCursorStep(v: View, a: Action, t: nat)
    requires Enabled(v.c, a) && t in Step(v, a).c.readers && (t in v.c.readers ==> NoCursor(v.c.readers[t]))
    ensures NoCursor(Step(v, a).c.readers[t])
  {
    if a.Write? { WriteFrame(v.c, a.w); }
    if a.Read? { ReadFrame(v.c, a.t); }
  }

  lemma {:induction false} NoCursorYet(vs: seq<View>, acts: seq<Action>, n: nat, t: nat)
    requires Run(vs, acts) && n < |vs| && t in vs[n].c.readers
    ensures NoCursor(vs[n].c.readers[t])
    decreases n
  {
    if n > 0 {
      RunStep(vs, acts, n - 1);
      if t in vs[n - 1].c.readers { NoCursorYet(vs, acts, n - 1, t); }
      NoCursorStep(vs[n - 1], acts[n - 1], t);
    }
  }

  /** So what a reader returns after a signal is NULL. */
  lemma StruckReturnsNull(vs: seq<View>, acts: seq<Action>, n: nat, t: nat)
    requires Run(vs, acts) && n < |vs| && t in vs[n].c.readers && vs[n].c.readers[t].pc == IntrReturned
    ensures vs[n].c.readers[t].cur == NULL
  {
    NoCursorYet(vs, acts, n, t);
  }
}
