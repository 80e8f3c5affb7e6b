// On the list of any service, a stale snapshot can expose a reader to replace. The reader samples the epoch, sleeps
// through a send that flips it, is woken by AWAKE_ALL, and stands on the head when a second send takes that out.
module EpochStale {
  import opened EpochMachine
  import opened EpochShape
  import opened EpochCounters
  import opened EpochGrace
  import opened EpochExposure
  import opened EpochLevels
  import opened EpochScenario
  import opened Sizes

  /** The level of the first element. */
  const TOP: int := LEVELS - 1

  /** Reader 0 of level 0 sleeps, with a snapshot of the epoch now current. */
  lemma Parks(R: View -> bool, v0: View) returns (v: View)
    requires KeptBySteps(R, IN_SERVICE, false) && R(v0) && v0.c.Wf() && v0.c.readers == map[]
    ensures R(v) && v.c.Wf() && v.live == v0.live && v.path == v0.path
    ensures v.c == v0.c.(readers := map[0 := Reader(0, v0.c.epoch, Parked, NULL)],
                         ready := v.c.ready, waiters := v.c.waiters)
  {
    var e := v0.c.epoch;
    v := Enters(R, IN_SERVICE, false, v0, 0, 0);
    v := Reads(R, IN_SERVICE, false, v, 0, Reader(0, e, Reset, NULL));
    v := Reads(R, IN_SERVICE, false, v, 0, Reader(0, e, Count, NULL));
    v := Reads(R, IN_SERVICE, false, v, 0, Reader(0, e, Test, NULL));
  }

  /** Writer w swaps the head for p. */
  lemma SwapsHead(R: View -> bool, v0: View, w: nat, p: Addr) returns (v: View)
    requires KeptBySteps(R, IN_SERVICE, false) && R(v0) && v0.c.Wf() && v0.c.lock == Open && w !in v0.c.writers
    requires v0.c.head in v0.c.next && v0.c.head != NULL && v0.c.Level(v0.c.head) == TOP
    requires p != NULL && p !in v0.c.next
    ensures R(v) && v.c.Wf() && v.path == v0.path && v.live == [p] + Drop1(v0.live)
    ensures v.c == v0.c.(next := v0.c.next[p := v0.c.Next(v0.c.head)], level := v0.c.level[p := TOP], head := p,
                         lock := Held(w),
                         writers := v0.c.writers[w := Writer(Send, TOP, Flip, p, NULL, v0.c.head, v0.c.epoch)])
  {
    v := Acquires(R, IN_SERVICE, false, v0, w, Send, TOP, p);
    v := TakesHead(R, IN_SERVICE, false, v, w, Writer(Send, TOP, Look, p, NULL, NULL, 0));
    assert v.c.next == v0.c.next[p := v0.c.Next(v0.c.head)];
  }

  lemma Flips(R: View -> bool, v0: View, w: nat) returns (v: View)
    requires KeptBySteps(R, IN_SERVICE, false) && R(v0) && v0.c.Wf() && w in v0.c.writers
    requires v0.c.writers[w].pc == Flip && v0.c.writers[w].op == Send
    ensures R(v) && v.c.Wf() && v.live == v0.live && v.path == v0.path
    ensures v.c == v0.c.(epoch := 1 - v0.c.epoch,
                         writers := v0.c.writers[w := v0.c.writers[w].(pc := Drain, grace := v0.c.epoch)])
  {
    v := Phases(R, IN_SERVICE, false, v0, w);
  }

  /** Nobody holds up the drain: w flips the epoch and unlocks. */
  lemma FlipsAndUnlocks(R: View -> bool, v0: View, w: nat) returns (v: View)
    requires KeptBySteps(R, IN_SERVICE, false) && R(v0) && v0.c.Wf() && w in v0.c.writers
    requires v0.c.writers[w].pc == Flip && v0.c.writers[w].op == Send && v0.c.standing == [0, 0]
    ensures R(v) && v.c.Wf() && v.live == v0.live && v.path == v0.path && v.c.writers.Keys == v0.c.writers.Keys
    ensures v.c == v0.c.(epoch := 1 - v0.c.epoch, lock := Open, writers := v.c.writers)
  {
    v := Flips(R, v0, w);
    v := Phases(R, IN_SERVICE, false, v, w);
    v := Phases(R, IN_SERVICE, false, v, w);
  }

  /** AWAKE_ALL raises the flag of level 0. */
  lemma Wakes(R: View -> bool, v0: View) returns (v: View)
    requires KeptBySteps(R, IN_SERVICE, false) && R(v0) && v0.c.Wf() && v0.c.writers.Keys == {1}
    ensures R(v) && v.c.Wf() && v.c.writers.Keys == {1, 2} && v.c.ready[0]
    ensures v.c == v0.c.(writers := v.c.writers, ready := v.c.ready) && v.live == v0.live && v.path == v0.path
  {
    v := StartsAwake(R, IN_SERVICE, false, v0, 2);
    v := Raises(R, IN_SERVICE, false, v, 2, 0);
  }

  /** Reader 0 sleeps, and the epoch is no longer the one it has sampled. */
  predicate Stale(v: View, p: Addr) {
    && v.c.Wf() && v.c.readers == map[0 := Reader(0, 1 - v.c.epoch, Parked, NULL)] && v.path == map[]
    && v.c.writers.Keys == {1} && v.c.lock == Open && v.live != [] && v.live[0] == p
    && p == v.c.head && p != NULL && p in v.c.next && v.c.Level(p) == TOP
  }

  lemma GoesStale(R: View -> bool, v0: View) returns (v: View, p: Addr)
    requires KeptBySteps(R, IN_SERVICE, false) && R(v0) && Init(v0) && AllLevels(v0)
    ensures R(v) && Stale(v, p)
  {
    p := Above(v0.c.next.Keys);
    v := Parks(R, v0);
    v := SwapsHead(R, v, 1, p);
    v := FlipsAndUnlocks(R, v, 1);
  }

  lemma SwapsUnder(R: View -> bool, v0: View, p: Addr) returns (v: View)
    requires KeptBySteps(R, IN_SERVICE, false) && R(v0) && Stale(v0, p)
    ensures R(v) && v.c.Wf() && Exposed(v, 0, p) && p != NULL
    ensures 3 in v.c.writers && v.c.writers[3].op == Send && v.c.writers[3].pc == Flip && v.c.writers[3].gone == p
  {
    var q := Above(v0.c.next.Keys);
    v := Wakes(R, v0);
    v := WalksIn(R, IN_SERVICE, false, v, 0, Reader(0, 1 - v0.c.epoch, Parked, NULL));
    v := SwapsHead(R, v, 3, q);
  }

  lemma GetsExposed(v0: View) returns (vs: seq<View>, acts: seq<Action>, p: Addr)
    requires Init(v0) && AllLevels(v0)
    ensures Run(vs, acts) && vs[0] == v0 && SignalFree(acts) && InUse(acts)
    ensures JustUpdated(vs[|acts|], 3, p) && vs[|acts|].c.writers[3].op == Send && Exposed(vs[|acts|], 0, p)
  {
    ReachedIsKept(v0, IN_SERVICE, false);
    StartReached(v0, IN_SERVICE, false);
    var v1;
    v1, p := GoesStale(v => Reached(v0, IN_SERVICE, false, v), v0);
    var v := SwapsUnder(v => Reached(v0, IN_SERVICE, false, v), v1, p);
    vs, acts :| RunFrom(v0, vs, acts, IN_SERVICE, false) && vs[|acts|] == v;
    RunShape(vs, acts, |acts|);
    assert Off(v, p);
  }

  /**
   * So the single drain of replace is not enough on the list of any service: without signals, with readers, sends and
   * AWAKE_ALLs only, a traversing reader ends up on a freed element.
   */
  lemma ReplaceIsNotEnough(v0: View) returns (vs: seq<View>, acts: seq<Action>, t: nat)
    requires Init(v0) && AllLevels(v0)
    ensures Run(vs, acts) && vs[0] == v0 && SignalFree(acts) && InUse(acts)
    ensures t in vs[|acts|].c.readers && Traversing(vs[|acts|].c.readers[t])
    ensures vs[|acts|].c.readers[t].cur in vs[|acts|].c.freed
  {
    var p;
    vs, acts, p := GetsExposed(v0);
    vs, acts := ExposedGetsThere(vs, acts, 3, 0, p);
    t := 0;
  }
}
