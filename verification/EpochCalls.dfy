// What a call of a writer has done to the list, over whole runs: where its update was, and that it was the only one.
module EpochCalls {
  import opened EpochMachine
  import opened EpochChain
  import opened EpochShape
  import opened EpochGrace

  /** The search of the call is over, and it found what it needs. */
  predicate Done(x: Writer) { x.op != Awake && x.pc !in {Acquire, Look, Seek, Leaked} }

  /** f is the position of the first element of level k. */
  predicate IsFirst(v: View, f: nat, k: int) {
    f < |v.live| && v.c.Level(v.live[f]) == k && forall g :: 0 <= g < f ==> v.c.Level(v.live[g]) != k
  }

  predicate NoneOf(v: View, k: int) { forall a :: a in v.live ==> v.c.Level(a) != k }

  /** What call x, with its element and the one it has taken out, makes of the list. */
  predicate Updates(v: View, v': View, x: Writer, f: nat) {
    match x.op
    case Insert => v'.live == [x.node] + v.live && v.c.Level(x.node) == x.key
    case Remove =>
      if x.gone == NULL then NoneOf(v, x.key) && v'.live == v.live
      else IsFirst(v, f, x.key) && v.live[f] == x.gone && v'.live == v.live[..f] + v.live[f + 1..]
    case Send =>
      && IsFirst(v, f, x.key) && v.live[f] == x.gone && v'.live == v.live[f := x.node] && v.c.Level(x.node) == x.key
    case Awake => false
  }

  // --------------------------------------------------------------------------------------------------------

  /** Rerouting by position. */
  lemma {:induction false} RerouteAt(level: map<Addr, int>, xs: seq<Addr>, e: Addr, k: int, gone: Addr,
                                     rest: seq<Addr>, n: Addr)
    returns (f: nat)
    requires Clear(level, xs, e, k) && Suffix(xs, e) == [gone] + rest
    ensures f < |xs| && xs[f] == gone && forall g :: 0 <= g < f ==> LevelOf(level, xs[g]) != k
    ensures Reroute(xs, e, rest) == xs[..f] + xs[f + 1..] && Reroute(xs, e, [n] + rest) == xs[f := n]
    decreases |xs|
  {
    var ys := xs[1..];
    assert xs == [xs[0]] + ys;
    if xs[0] == e {
      f := 1;
      assert ys == [gone] + rest;
    } else {
      f := RerouteAt(level, ys, e, k, gone, rest, n);
      Behind(xs[0], ys, f, n);
      assert forall g :: 0 < g < f + 1 ==> xs[g] == ys[g - 1];
      f := f + 1;
    }
  }

  lemma Behind(x: Addr, ys: seq<Addr>, f: nat, n: Addr)
    requires f < |ys|
    ensures var xs := [x] + ys;
      && xs[..f + 1] + xs[f + 2..] == [x] + (ys[..f] + ys[f + 1..]) && xs[f + 1 := n] == [x] + ys[f := n]
      && xs[f + 1] == ys[f]
  {}

  lemma AbsentThere(v: View, k: int)
    requires Shape(v) && First(v.c.level, v.live, k) == NULL
    ensures NoneOf(v, k)
  {
    if NULL in v.live {
      ChainMember(Links(v.c), v.c.head, v.live, NULL);
    }
    FirstInList(v.c.level, v.live, k);
  }

  lemma LookUpdates(v: View, w: nat)
    requires Shape(v) && Enabled(v.c, Write(w)) && v.c.writers[w].pc == Look
    ensures var v' := Step(v, Write(w));
      && w in v'.c.writers
      && (Done(v'.c.writers[w]) ==> Updates(v, v', v'.c.writers[w], 0))
      && (v'.c.writers[w].pc == Leaked ==> NoneOf(v, v.c.writers[w].key))
  {
    assert WriterOk(v, w);
    LookFrame(v.c, w);
    assert v.c.head != NULL ==> v.live != [] && v.live[0] == v.c.head;
  }

  lemma SeekUpdates(v: View, w: nat) returns (f: nat)
    requires Shape(v) && Enabled(v.c, Write(w)) && v.c.writers[w].pc == Seek
    ensures var v' := Step(v, Write(w));
      && w in v'.c.writers
      && (Done(v'.c.writers[w]) ==> Updates(v, v', v'.c.writers[w], f))
      && (v'.c.writers[w].pc == Leaked ==> NoneOf(v, v.c.writers[w].key))
  {
    var x := v.c.writers[w];
    assert WriterOk(v, w);
    SeekFrame(v.c, w);
    f := 0;
    if SeekHit(v.c, x) {
      var gone, rest := SeekFinds(v, w);
      f := RerouteAt(v.c.level, v.live, x.elem, x.key, gone, rest, x.node);
    } else if x.elem == NULL {
      AbsentThere(v, x.key);
    }
  }

  /** Where a step of its own takes a call. */
  lemma CallMove(c: Core, w: nat)
    requires Enabled(c, Write(w))
    ensures w in WriterNext(c, w).writers && var x, x' := c.writers[w], WriterNext(c, w).writers[w];
      && (x.pc in {Look, Seek} ==> x'.pc in {DrainOther, Flip, Leaked, Seek, Relink} && x'.key == x.key)
      && (x.pc == Relink ==> x' == x.(pc := Flip))
      && (x.pc !in {Look, Seek, Relink} ==> x' == PhaseMove(c, x))
  {
    LookFrame(c, w);
    SeekFrame(c, w);
  }

  lemma PhaseBack(c: Core, x: Writer)
    requires x.op != Awake && x.pc !in {Look, Seek, Relink, Leaked}
    ensures var x' := PhaseMove(c, x);
      && x'.key == x.key && x'.gone == x.gone && x'.pc != Leaked && (x'.pc == Look || (Done(x) && Done(x')))
      && (x'.pc in {Check, Raise, Finished} ==> x.pc in {Free, Check, Raise, Finished} || x.op == Insert)
  {}

  predicate Settled(x: Writer) { Done(x) || x.pc == Leaked }

  /** How a call got to where it is in one step. */
  lemma CallBack(v: View, a: Action, w: nat)
    requires Enabled(v.c, a) && w in Step(v, a).c.writers && Settled(Step(v, a).c.writers[w])
    requires Step(v, a).c.writers[w].op != Awake
    ensures w in v.c.writers && var x, x' := v.c.writers[w], Step(v, a).c.writers[w];
      && x'.op == x.op && x'.key == x.key && x'.node == x.node
      && ((a == Write(w) && x.pc in {Look, Seek})
          || (x'.gone == x.gone && (Done(x) <==> Done(x')) && (x.pc == Leaked <==> x'.pc == Leaked)))
  {
    if a.Write? {
      if a.w == w {
        WriteFrame(v.c, w);
        CallMove(v.c, w);
        if v.c.writers[w].pc !in {Look, Seek} { OwnBack(v.c, w); }
      } else {
        OtherWriter(v.c, a.w, w);
      }
    }
  }

  lemma OwnBack(c: Core, w: nat)
    requires Enabled(c, Write(w)) && c.writers[w].op != Awake && c.writers[w].pc !in {Look, Seek}
    requires w in WriterNext(c, w).writers && Settled(WriterNext(c, w).writers[w])
    ensures var x, x' := c.writers[w], WriterNext(c, w).writers[w];
      x'.key == x.key && x'.gone == x.gone && Done(x) && Done(x')
  {
    CallMove(c, w);
    if c.writers[w].pc != Relink {
      PhaseBack(c, c.writers[w]);
    }
  }

  /**
   * Every call that has updated the list did so at one instant of its own: an insert put its element in front; a
   * remove took out the first element of its level, or found none; a replace put its element in the place of the
   * first of its level. f is the position.
   */
  lemma {:induction false} UpdatedAt(vs: seq<View>, acts: seq<Action>, n: nat, w: nat) returns (u: nat, f: nat)
    requires Run(vs, acts) && n < |vs| && w in vs[n].c.writers && Done(vs[n].c.writers[w])
    ensures u < n && acts[u] == Write(w) && w in vs[u].c.writers && vs[u].c.writers[w].pc in {Look, Seek}
    ensures Updates(vs[u], vs[u + 1], vs[n].c.writers[w], f)
    decreases n
  {
    RunStep(vs, acts, n - 1);
    CallBack(vs[n - 1], acts[n - 1], w);
    if Done(vs[n - 1].c.writers[w]) {
      u, f := UpdatedAt(vs, acts, n - 1, w);
    } else {
      u := n - 1;
      RunShape(vs, acts, u);
      f := 0;
      if vs[u].c.writers[w].pc == Look {
        LookUpdates(vs[u], w);
      } else {
        f := SeekUpdates(vs[u], w);
      }
    }
  }

  /** A replace that has given up, with the lock held, found no element of its level at an instant of its own. */
  lemma {:induction false} LeakedAt(vs: seq<View>, acts: seq<Action>, n: nat, w: nat) returns (u: nat)
    requires Run(vs, acts) && n < |vs| && w in vs[n].c.writers && vs[n].c.writers[w].pc == Leaked
    requires vs[n].c.writers[w].op == Send
    ensures u < n && acts[u] == Write(w) && NoneOf(vs[u], vs[n].c.writers[w].key)
    decreases n
  {
    RunStep(vs, acts, n - 1);
    CallBack(vs[n - 1], acts[n - 1], w);
    if vs[n - 1].c.writers[w].pc == Leaked {
      u := LeakedAt(vs, acts, n - 1, w);
    } else {
      u := n - 1;
      RunShape(vs, acts, u);
      if vs[u].c.writers[w].pc == Look {
        LookUpdates(vs[u], w);
      } else {
        var f := SeekUpdates(vs[u], w);
      }
    }
  }

  /** Nothing else changes the list: whatever step does is the update of a call that had not made one. */
  lemma OnlyUpdates(v: View, a: Action) returns (f: nat)
    requires Shape(v) && Enabled(v.c, a) && Step(v, a).live != v.live
    ensures a.Write? && a.w in v.c.writers && !Done(v.c.writers[a.w])
    ensures var v' := Step(v, a);
      a.w in v'.c.writers && Done(v'.c.writers[a.w]) && Updates(v, v', v'.c.writers[a.w], f)
  {
    assert WriterOk(v, a.w);
    f := 0;
    if v.c.writers[a.w].pc == Look {
      LookUpdates(v, a.w);
    } else {
      f := SeekUpdates(v, a.w);
    }
  }

  // --------------------------------------------------------------------------------------------------------

  lemma FreedStays(v: View, a: Action)
    requires Enabled(v.c, a)
    ensures v.c.freed <= Step(v, a).c.freed
  {
    if a.Write? {
      FreedGrows(v.c, a.w);
    }
  }

  lemma FreedGrows(c: Core, w: nat)
    requires Enabled(c, Write(w))
    ensures c.freed <= WriterNext(c, w).freed
    ensures c.writers[w].pc == Free && c.writers[w].gone != NULL ==> c.writers[w].gone in WriterNext(c, w).freed
  {}

  lemma FreedNext(vs: seq<View>, acts: seq<Action>, n: nat, w: nat)
    requires Run(vs, acts) && n < |acts| && HasTaken(vs[n + 1].c, w)
    ensures vs[n + 1].c.writers[w].gone in vs[n + 1].c.freed
      || (HasTaken(vs[n].c, w) && vs[n].c.writers[w].gone == vs[n + 1].c.writers[w].gone)
    ensures vs[n].c.freed <= vs[n + 1].c.freed
  {
    RunStep(vs, acts, n);
    FreedBefore(vs[n], acts[n], w);
    FreedStays(vs[n], acts[n]);
  }

  /** Call w, a remove or replace, is past the release of the element it took out. */
  predicate HasTaken(c: Core, w: nat) {
    && w in c.writers && c.writers[w].op in {Remove, Send} && c.writers[w].pc in {Check, Raise, Finished}
    && c.writers[w].gone != NULL
  }

  /** A remove or replace that is over has freed what it took out. */
  lemma {:induction false} DoneHasFreed(vs: seq<View>, acts: seq<Action>, n: nat, w: nat)
    requires Run(vs, acts) && n < |vs| && HasTaken(vs[n].c, w)
    ensures vs[n].c.writers[w].gone in vs[n].c.freed
    decreases n
  {
    FreedNext(vs, acts, n - 1, w);
    if vs[n].c.writers[w].gone !in vs[n].c.freed {
      DoneHasFreed(vs, acts, n - 1, w);
    }
  }

  lemma FreedBefore(v: View, a: Action, w: nat)
    requires Enabled(v.c, a) && w in Step(v, a).c.writers && Step(v, a).c.writers[w].op in {Remove, Send}
    requires Step(v, a).c.writers[w].pc in {Check, Raise, Finished} && Step(v, a).c.writers[w].gone != NULL
    ensures w in v.c.writers && v.c.writers[w].op == Step(v, a).c.writers[w].op
    ensures Step(v, a).c.writers[w].gone in Step(v, a).c.freed
      || (v.c.writers[w].pc in {Check, Raise, Finished} && v.c.writers[w].gone == Step(v, a).c.writers[w].gone)
  {
    CallBack(v, a, w);
    if a == Write(w) { CallMove(v.c, w); }
    FreedOne(v, a, w);
  }

  lemma FreedOne(v: View, a: Action, w: nat)
    requires Enabled(v.c, a) && w in v.c.writers && w in Step(v, a).c.writers && v.c.writers[w].op in {Remove, Send}
    requires Step(v, a).c.writers[w].pc in {Check, Raise, Finished}
    requires v.c.writers[w].gone == Step(v, a).c.writers[w].gone != NULL
    ensures v.c.writers[w].pc in {Check, Raise, Finished} || v.c.writers[w].gone in Step(v, a).c.freed
  {
    if a.Write? {
      if a.w == w {
        FreedGrows(v.c, w);
        CallMove(v.c, w);
        if v.c.writers[w].pc !in {Look, Seek, Relink} { PhaseBack(v.c, v.c.writers[w]); }
      } else {
        OtherWriter(v.c, a.w, w);
      }
    }
  }
}
