// How to exhibit a run: states that can be reached, one named step at a time.
module EpochScenario {
  import opened EpochMachine
  import opened EpochCounters
  import opened Sizes

  const ANY: set<Op> := {Insert, Remove, Send, Awake}

  /** The calls that the list of a service in use sees. */
  const IN_SERVICE: set<Op> := {Send, Awake}

  /** Calls of these operations only, and signals only if they are allowed. */
  predicate Allowed(a: Action, ops: set<Op>, signals: bool) {
    (a.Start? ==> a.op in ops) && (a.Interrupt? ==> signals)
  }

  /** A set of states that the allowed steps do not leave. */
  ghost predicate KeptBySteps(R: View -> bool, ops: set<Op>, signals: bool) {
    forall v, a :: R(v) && Enabled(v.c, a) && Allowed(a, ops, signals) ==> R(Step(v, a)) && Step(v, a).c.Wf()
  }

  ghost predicate RunFrom(v0: View, vs: seq<View>, acts: seq<Action>, ops: set<Op>, signals: bool) {
    Run(vs, acts) && vs[0] == v0 && forall i :: 0 <= i < |acts| ==> Allowed(acts[i], ops, signals)
  }

  ghost predicate Reached(v0: View, ops: set<Op>, signals: bool, v: View) {
    exists vs, acts :: RunFrom(v0, vs, acts, ops, signals) && vs[|acts|] == v
  }

  lemma ReachedIsKept(v0: View, ops: set<Op>, signals: bool)
    ensures KeptBySteps(v => Reached(v0, ops, signals, v), ops, signals)
  {
    forall v, a | Reached(v0, ops, signals, v) && Enabled(v.c, a) && Allowed(a, ops, signals)
      ensures Reached(v0, ops, signals, Step(v, a)) && Step(v, a).c.Wf()
    {
      var vs, acts :| RunFrom(v0, vs, acts, ops, signals) && vs[|acts|] == v;
      vs, acts := Then(vs, acts, a);
      assert RunFrom(v0, vs, acts, ops, signals) && vs[|acts|] == Step(v, a);
    }
  }

  lemma StartReached(v0: View, ops: set<Op>, signals: bool)
    requires Init(v0)
    ensures Reached(v0, ops, signals, v0)
  {
    var none: seq<Action> := [];
    assert RunFrom(v0, [v0], none, ops, signals) && [v0][|none|] == v0;
  }

  // --------------------------------------------------------------------------------------------------------

  /** One step of a reader, by program counter; what it does to the flags and waiters is mostly left open. */
  lemma Reads(R: View -> bool, ops: set<Op>, signals: bool, v: View, t: nat, r: Reader) returns (v': View)
    requires KeptBySteps(R, ops, signals) && R(v) && v.c.Wf() && t in v.c.readers && v.c.readers[t] == r
    requires r.pc in {Reset, Count, Test, Parked, Register, ReadHead, Walk} && (r.pc == Parked ==> v.c.ready[r.key])
    ensures R(v') && v'.c.Wf() && v'.live == v.live && v'.c.readers == v.c.readers[t := ReaderMove(v.c, r)]
    ensures v'.c == v.c.(readers := v'.c.readers, ready := v'.c.ready, waiters := v'.c.waiters,
        standing := v'.c.standing)
    ensures r.pc in {Reset, Count, Test, Parked} ==> v'.c.standing == v.c.standing
    ensures r.pc == Reset ==> !v'.c.ready[r.key]
    ensures r.pc != Reset ==> v'.c.ready == v.c.ready
    ensures r.pc in {Reset, Count, Test, Parked, Register} ==> v'.path == v.path
    ensures r.pc == ReadHead ==> v'.path == v.path[t := v.live]
    ensures r.pc == Walk && r.cur != NULL && v.c.Level(r.cur) != r.key && v.c.Next(r.cur) != NULL && t in v.path ==>
      v'.path == v.path[t := Drop1(v.path[t])]
  {
    v' := Step(v, Read(t));
  }

  lemma Enters(R: View -> bool, ops: set<Op>, signals: bool, v: View, t: nat, key: int) returns (v': View)
    requires KeptBySteps(R, ops, signals) && R(v) && v.c.Wf() && t !in v.c.readers && 0 <= key < LEVELS
    ensures R(v') && v'.c.Wf() && v'.live == v.live && v'.path == v.path
    ensures v'.c == v.c.(readers := v.c.readers[t := Reader(key, v.c.epoch, Reset, NULL)])
  {
    v' := Step(v, Enter(t, key));
  }

  /** A call takes the lock. */
  lemma Acquires(R: View -> bool, ops: set<Op>, signals: bool, v: View, w: nat, op: Op, key: int, n: Addr)
    returns (v': View)
    requires KeptBySteps(R, ops, signals) && op in ops && R(v) && v.c.Wf() && w !in v.c.writers && v.c.lock == Open
    requires op in {Insert, Send} && n != NULL && n !in v.c.next && 0 <= key < LEVELS
    ensures R(v') && v'.c.Wf() && v'.live == v.live && v'.path == v.path
    ensures v'.c == v.c.(next := v.c.next[n := NULL], level := v.c.level[n := key], lock := Held(w),
                         writers := v.c.writers[w := Writer(op, key, Look, n, NULL, NULL, 0)])
  {
    v' := Step(v, Start(w, op, key, n));
    v' := Step(v', Write(w));
  }

  lemma StartsAwake(R: View -> bool, ops: set<Op>, signals: bool, v: View, w: nat) returns (v': View)
    requires KeptBySteps(R, ops, signals) && Awake in ops && R(v) && v.c.Wf() && w !in v.c.writers
    ensures R(v') && v'.c.Wf() && v'.live == v.live && v'.path == v.path
    ensures v'.c == v.c.(writers := v.c.writers[w := Writer(Awake, 0, Raise, NULL, NULL, NULL, 0)])
  {
    v' := Step(v, Start(w, Awake, 0, NULL));
  }

  /** One turn of the loop of AWAKE_ALL. */
  lemma Raises(R: View -> bool, ops: set<Op>, signals: bool, v: View, w: nat, k: int) returns (v': View)
    requires KeptBySteps(R, ops, signals) && R(v) && v.c.Wf() && w in v.c.writers && 0 <= k < LEVELS - 1
    requires v.c.writers[w] == Writer(Awake, k, Raise, NULL, NULL, NULL, 0)
    ensures R(v') && v'.c.Wf() && v'.live == v.live && v'.path == v.path
    ensures v'.c == v.c.(writers := v.c.writers[w := Writer(Awake, k + 1, Raise, NULL, NULL, NULL, 0)],
                         ready := v.c.ready[k := true])
  {
    v' := Step(v, Write(w));
  }

  /** The search of a replace does not start at the head. */
  lemma Looks(R: View -> bool, ops: set<Op>, signals: bool, v: View, w: nat, x: Writer) returns (v': View)
    requires KeptBySteps(R, ops, signals) && R(v) && v.c.Wf() && w in v.c.writers && v.c.writers[w] == x
    requires x.op == Send && x.pc == Look && v.c.head != NULL && v.c.Level(v.c.head) != x.key
    ensures R(v') && v'.c.Wf() && v'.live == v.live && v'.path == v.path
    ensures v'.c == v.c.(writers := v.c.writers[w := x.(pc := Seek, elem := v.c.head)])
  {
    v' := Step(v, Write(w));
  }

  /** Line 188 of a replace. */
  lemma Publishes(R: View -> bool, ops: set<Op>, signals: bool, v: View, w: nat, x: Writer) returns (v': View)
    requires KeptBySteps(R, ops, signals) && R(v) && v.c.Wf() && w in v.c.writers && v.c.writers[w] == x
    requires x.op == Send && x.pc == Seek && SeekHit(v.c, x)
    ensures R(v') && v'.c.Wf() && v'.live == Reroute(v.live, x.elem, NewTail(v.live, x))
    ensures v'.path == map t | t in v.path :: Reroute(v.path[t], x.elem, NewTail(v.live, x))
    ensures v'.c == v.c.(writers := v.c.writers[w := x.(pc := Relink, gone := v.c.Next(x.elem))],
                         next := v.c.next[x.elem := x.node])
  {
    v' := Step(v, Write(w));
  }

  /** A replace or a remove finds its level at the head. */
  lemma TakesHead(R: View -> bool, ops: set<Op>, signals: bool, v: View, w: nat, x: Writer) returns (v': View)
    requires KeptBySteps(R, ops, signals) && R(v) && v.c.Wf() && w in v.c.writers && v.c.writers[w] == x
    requires x.op in {Send, Remove} && x.pc == Look && v.c.head != NULL && v.c.Level(v.c.head) == x.key
    ensures R(v') && v'.c.Wf() && v'.path == v.path
    ensures v'.live == (if x.op == Remove then [] else [x.node]) + Drop1(v.live)
    ensures var c := v.c.(writers := v.c.writers[w := Updated(v.c, x, v.c.head)]);
      v'.c == if x.op == Remove then c.(head := v.c.Next(v.c.head))
              else c.(head := x.node, next := v.c.next[x.node := v.c.Next(v.c.head)])
  {
    v' := Step(v, Write(w));
  }

  /** The steps that leave the list alone. */
  lemma Phases(R: View -> bool, ops: set<Op>, signals: bool, v: View, w: nat) returns (v': View)
    requires KeptBySteps(R, ops, signals) && R(v) && Enabled(v.c, Write(w))
    requires v.c.writers[w].pc !in {Look, Seek, Relink}
    ensures R(v') && v'.c.Wf() && v'.live == v.live && v'.path == v.path && v'.c == PhaseNext(v.c, w)
  {
    v' := Step(v, Write(w));
  }

  // --------------------------------------------------------------------------------------------------------

  /** An address above all others. */
  lemma {:induction false} Above(s: set<nat>) returns (p: nat)
    ensures p > 0 && forall a :: a in s ==> a < p
    decreases |s|
  {
    if s == {} {
      p := 1;
    } else {
      var a :| a in s;
      p := Above(s - {a});
      if p <= a {
        p := a + 1;
      }
      assert forall b :: b in s ==> b == a || b in s - {a};
    }
  }

  /** A reader whose flag is up registers and stands on the head. */
  lemma WalksIn(R: View -> bool, ops: set<Op>, signals: bool, v0: View, t: nat, r: Reader) returns (v: View)
    requires KeptBySteps(R, ops, signals) && R(v0) && v0.c.Wf() && t in v0.c.readers && v0.c.readers[t] == r
    requires r.pc in {Test, Parked} && v0.c.ready[r.key]
    ensures R(v) && v.c.Wf() && v.live == v0.live && v.path == v0.path[t := v0.live]
    ensures v.c == v0.c.(readers := v0.c.readers[t := r.(pc := Walk, cur := v0.c.head)],
                         ready := v.c.ready, waiters := v.c.waiters, standing := v.c.standing)
  {
    v := Reads(R, ops, signals, v0, t, r);
    v := Reads(R, ops, signals, v, t, r.(pc := Register));
    v := Reads(R, ops, signals, v, t, r.(pc := ReadHead));
  }

  /** Reader 0 enters level 0, is released by AWAKE_ALL and stands on the head under the epoch now current. */
  lemma StandsOnHead(R: View -> bool, ops: set<Op>, signals: bool, v0: View) returns (v: View)
    requires KeptBySteps(R, ops, signals) && Awake in ops && R(v0) && v0.c.Wf()
    requires v0.c.readers == map[] && v0.c.writers == map[] && v0.path == map[]
    ensures R(v) && v.c.Wf() && v.live == v0.live && v.path == map[0 := v0.live] && v.c.writers.Keys == {1}
    ensures v.c == v0.c.(readers := map[0 := Reader(0, v0.c.epoch, Walk, v0.c.head)], writers := v.c.writers,
                         ready := v.c.ready, waiters := v.c.waiters, standing := v.c.standing)
  {
    var e := v0.c.epoch;
    v := Enters(R, ops, signals, v0, 0, 0);
    v := Reads(R, ops, signals, v, 0, Reader(0, e, Reset, NULL));
    v := Reads(R, ops, signals, v, 0, Reader(0, e, Count, NULL));
    v := StartsAwake(R, ops, signals, v, 1);
    v := Raises(R, ops, signals, v, 1, 0);
    v := WalksIn(R, ops, signals, v, 0, Reader(0, e, Test, NULL));
  }
}
