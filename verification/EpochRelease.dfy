// Why a sleeping reader is released, and how fresh what it then finds is.
module EpochRelease {
  import opened EpochMachine
  import opened EpochShape
  import opened EpochLookup
  import opened EpochGrace
  import opened Sizes

  /** Action a is the store ready[k] = 1 of a send (line 255) or of AWAKE_ALL (line 372). */
  predicate Raises(v: View, a: Action, k: int) {
    a.Write? && a.w in v.c.writers && v.c.writers[a.w].pc == Raise && v.c.writers[a.w].key == k
  }

  /** Action a is the store ready[k] = 0 with which reader t enters (line 38). */
  predicate Lowers(v: View, a: Action, t: nat, k: int) {
    a == Read(t) && t in v.c.readers && v.c.readers[t].pc == Reset && v.c.readers[t].key == k
  }

  /** Past the wait, without a signal. */
  predicate WasReleased(r: Reader) { r.pc in {Register, ReadHead, Walk, Leave, Uncount, Returned} }

  predicate Flag(v: View, k: int) { 0 <= k < |v.c.ready| && v.c.ready[k] }

  /** Only a raise sets a flag, and only a reader that enters the level clears it. */
  lemma FlagStep(v: View, a: Action, k: int)
    requires Enabled(v.c, a) && 0 <= k < LEVELS
    ensures !Flag(v, k) && Flag(Step(v, a), k) ==> Raises(v, a, k)
    ensures Flag(v, k) && !Flag(Step(v, a), k) ==> a.Read? && Lowers(v, a, a.t, k)
  {}

  lemma {:induction false} RaisedBetween(vs: seq<View>, acts: seq<Action>, i: nat, j: nat, k: int) returns (m: nat)
    requires Run(vs, acts) && i <= j < |vs| && 0 <= k < LEVELS && !Flag(vs[i], k) && Flag(vs[j], k)
    ensures i <= m < j && Raises(vs[m], acts[m], k)
    decreases j
  {
    RunStep(vs, acts, j - 1);
    FlagStep(vs[j - 1], acts[j - 1], k);
    if Flag(vs[j - 1], k) {
      m := RaisedBetween(vs, acts, i, j - 1, k);
    } else {
      m := j - 1;
    }
  }

  /** Once raised, a flag stays up until another reader enters the level. */
  lemma {:induction false} StaysRaised(vs: seq<View>, acts: seq<Action>, i: nat, j: nat, k: int)
    requires Run(vs, acts) && i <= j < |vs| && 0 <= k < LEVELS && Flag(vs[i], k)
    requires forall m, t :: i <= m < j ==> !Lowers(vs[m], acts[m], t, k)
    ensures Flag(vs[j], k)
    decreases j
  {
    if i == j {
    } else {
      StaysRaised(vs, acts, i, j - 1, k);
      RunStep(vs, acts, j - 1);
      FlagStep(vs[j - 1], acts[j - 1], k);
      assert acts[j - 1].Read? ==> !Lowers(vs[j - 1], acts[j - 1], acts[j - 1].t, k);
    }
  }

  // --------------------------------------------------------------------------------------------------------

  /** How reader t got to its program counter in one step. */
  lemma ReaderBack(v: View, a: Action, t: nat)
    requires Enabled(v.c, a) && t in Step(v, a).c.readers && Step(v, a).c.readers[t].pc != Reset
    ensures t in v.c.readers && v.c.readers[t].key == Step(v, a).c.readers[t].key
    ensures a == Read(t) || a == Interrupt(t) || v.c.readers[t] == Step(v, a).c.readers[t]
    ensures a == Interrupt(t) ==> Step(v, a).c.readers[t].pc == IntrLeave
    ensures a == Read(t) ==> Step(v, a).c.readers[t] == ReaderMove(v.c, v.c.readers[t])
    ensures a == Read(t) ==> (v.c.readers[t].pc == Parked ==> v.c.ready[v.c.readers[t].key])
  {
    if a.Write? { WriteFrame(v.c, a.w); }
    if a.Read? { ReadFrame(v.c, a.t); }
  }

  /** The same along a run: t went past the flag, or into the wait, by a step of its own, or was there before. */
  lemma CameFrom(vs: seq<View>, acts: seq<Action>, n: nat, t: nat)
    requires Run(vs, acts) && n < |vs| && t in vs[n].c.readers && vs[n].c.readers[t].pc != Reset
    ensures n > 0 && t in vs[n - 1].c.readers && vs[n - 1].c.readers[t].key == vs[n].c.readers[t].key
    ensures WasReleased(vs[n].c.readers[t]) && !WasReleased(vs[n - 1].c.readers[t]) ==>
      && acts[n - 1] == Read(t) && vs[n - 1].c.readers[t].pc in {Test, Parked}
      && Flag(vs[n - 1], vs[n].c.readers[t].key)
    ensures vs[n].c.readers[t].pc in {Count, Test, Parked} && vs[n - 1].c.readers[t].pc !in {Count, Test, Parked} ==>
      Lowers(vs[n - 1], acts[n - 1], t, vs[n].c.readers[t].key)
  {
    RunStep(vs, acts, n - 1);
    ReaderBack(vs[n - 1], acts[n - 1], t);
  }

  /** The step with which t went past the flag. */
  lemma {:induction false} PassInstant(vs: seq<View>, acts: seq<Action>, n: nat, t: nat) returns (p: nat)
    requires Run(vs, acts) && n < |vs| && t in vs[n].c.readers && WasReleased(vs[n].c.readers[t])
    ensures p < n && acts[p] == Read(t) && t in vs[p].c.readers && vs[p].c.readers[t].pc in {Test, Parked}
    ensures vs[p].c.readers[t].key == vs[n].c.readers[t].key && Flag(vs[p], vs[n].c.readers[t].key)
    ensures forall m :: p < m <= n ==> t in vs[m].c.readers && WasReleased(vs[m].c.readers[t])
    decreases n
  {
    CameFrom(vs, acts, n, t);
    if WasReleased(vs[n - 1].c.readers[t]) {
      p := PassInstant(vs, acts, n - 1, t);
    } else {
      p := n - 1;
    }
  }

  /** The step with which t, which now waits, cleared the flag. */
  lemma {:induction false} ResetInstant(vs: seq<View>, acts: seq<Action>, n: nat, t: nat) returns (r: nat)
    requires Run(vs, acts) && n < |vs| && t in vs[n].c.readers && vs[n].c.readers[t].pc in {Count, Test, Parked}
    ensures r < n && Lowers(vs[r], acts[r], t, vs[n].c.readers[t].key)
    decreases n
  {
    CameFrom(vs, acts, n, t);
    if vs[n - 1].c.readers[t].pc == Reset {
      r := n - 1;
    } else {
      r := ResetInstant(vs, acts, n - 1, t);
    }
  }

  /** Once registered, a reader never goes back behind the flag. */
  lemma InsideStays(v: View, a: Action, t: nat)
    requires Enabled(v.c, a) && t in v.c.readers && WasInside(v.c.readers[t])
    ensures t in Step(v, a).c.readers && WasInside(Step(v, a).c.readers[t])
  {
    if a.Write? { WriteFrame(v.c, a.w); }
    if a.Read? { ReadFrame(v.c, a.t); }
  }

  lemma {:induction false} StaysPast(vs: seq<View>, acts: seq<Action>, m: nat, p: nat, t: nat)
    requires Run(vs, acts) && m <= p < |vs| && t in vs[m].c.readers && WasInside(vs[m].c.readers[t])
    ensures t in vs[p].c.readers && WasInside(vs[p].c.readers[t])
    decreases p - m
  {
    if m == p {
    } else {
      RunStep(vs, acts, m);
      InsideStays(vs[m], acts[m], t);
      StaysPast(vs, acts, m + 1, p, t);
    }
  }

  /**
   * A reader that leaves the wait without a signal was released: after its own reset of the flag of its level (r)
   * and before it passed the flag (p), a send on that level or an AWAKE_ALL raised it (i).
   */
  lemma ReleaseHasCause(vs: seq<View>, acts: seq<Action>, n: nat, t: nat) returns (r: nat, i: nat, p: nat)
    requires Run(vs, acts) && n < |vs| && t in vs[n].c.readers && WasReleased(vs[n].c.readers[t])
    ensures r < i < p < n && var k := vs[n].c.readers[t].key;
      && Lowers(vs[r], acts[r], t, k) && Raises(vs[i], acts[i], k)
      && acts[p] == Read(t) && t in vs[p].c.readers && vs[p].c.readers[t].pc in {Test, Parked}
  {
    p := PassInstant(vs, acts, n, t);
    r := ResetInstant(vs, acts, p, t);
    RunStep(vs, acts, r);
    var k := vs[n].c.readers[t].key;
    assert 0 <= k < LEVELS && !Flag(vs[r + 1], k);
    i := RaisedBetween(vs, acts, r + 1, p, k);
  }

  /** A send that raises a flag has updated the list before. */
  lemma RaiseFollowsUpdate(vs: seq<View>, acts: seq<Action>, i: nat, k: int) returns (u: nat)
    requires Run(vs, acts) && i < |acts| && Raises(vs[i], acts[i], k) && vs[i].c.writers[acts[i].w].op == Send
    ensures u < i && JustUpdated(vs[u], acts[i].w, vs[i].c.writers[acts[i].w].gone)
  {
    RunShape(vs, acts, i);
    assert WriterOk(vs[i], acts[i].w);
    u := UpdateInstant(vs, acts, i, acts[i].w);
  }

  lemma {:induction false} OffFrom(vs: seq<View>, acts: seq<Action>, i: nat, j: nat, e: Addr)
    requires Run(vs, acts) && i <= j < |vs| && Off(vs[i], e)
    ensures Off(vs[j], e)
    decreases j - i
  {
    if i == j {
    } else {
      RunShape(vs, acts, i);
      RunStep(vs, acts, i);
      OffStays(vs[i], acts[i], e);
      OffFrom(vs, acts, i + 1, j, e);
    }
  }

  /**
   * Freshness, with the relink of replace as one step: what a released reader returns was the right answer at an
   * instant m after the release i; if a send released it, m is after that send's list update u too, and the
   * answer is not the element that send replaced.
   */
  lemma ReleasedReadIsFresh(vs: seq<View>, acts: seq<Action>, n: nat, t: nat) returns (i: nat, m: nat, u: nat)
    requires Run(vs, acts) && RelinkAtomic(vs, acts)
    requires n < |vs| && t in vs[n].c.readers && HasReturned(vs[n].c.readers[t])
    ensures i < m <= n && Raises(vs[i], acts[i], vs[n].c.readers[t].key) && RightNow(vs[m], t, vs[n].c.readers[t].cur)
    ensures vs[i].c.writers[acts[i].w].op == Send ==>
      u < i && JustUpdated(vs[u], acts[i].w, vs[i].c.writers[acts[i].w].gone)
      && vs[n].c.readers[t].cur != vs[i].c.writers[acts[i].w].gone
  {
    var r, p;
    r, i, p := ReleaseHasCause(vs, acts, n, t);
    m := LookupLinearizesAtomic(vs, acts, n, t);
    if m <= p { StaysPast(vs, acts, m, p, t); }
    u := 0;
    if vs[i].c.writers[acts[i].w].op == Send {
      u := RaiseFollowsUpdate(vs, acts, i, vs[n].c.readers[t].key);
      OffFrom(vs, acts, u, m, vs[i].c.writers[acts[i].w].gone);
      RunShape(vs, acts, m);
      RightNowMeaning(vs[m], t, vs[n].c.readers[t].cur);
    }
  }
}
