// The spins of the writers end: the readers they wait for only become fewer, and have only so many steps left.
module EpochDrain {
  import opened EpochMachine
  import opened EpochShape
  import opened EpochCounters
  import opened Sizes

  /** An upper bound on the steps reader t takes before it stops being counted, while the list does not change. */
  function StepsLeft(v: View, t: nat): nat
    requires t in v.c.readers
  {
    match v.c.readers[t].pc
    case Reset => |v.live| + 8
    case Count => |v.live| + 7
    case Test => |v.live| + 6
    case Parked => |v.live| + 5
    case Register => |v.live| + 4
    case ReadHead => |v.live| + 3
    case Walk => (if t in v.path then |v.path[t]| else 0) + 2
    case Leave | IntrLeave => 1
    case Uncount | Returned | IntrUncount | IntrReturned => 0
  }

  /** One item for each step that a reader with snapshot b has left. */
  function Work(v: View, b: Bit): set<(nat, nat)> {
    set t, i | t in v.c.readers && v.c.readers[t].snap == b && 0 <= i < StepsLeft(v, t) :: (t, i)
  }

  /** Action a is a step of a reader with snapshot b that has not yet been taken off the counter. */
  predicate StepOf(v: View, a: Action, b: Bit) {
    && (a.Read? || a.Interrupt?) && a.t in v.c.readers && v.c.readers[a.t].snap == b && StepsLeft(v, a.t) > 0
  }

  predicate Spinning(v: View, w: nat, b: Bit) {
    w in v.c.writers && SpinsOn(v.c.writers[w], b)
  }

  lemma SubsetSize<T>(a: set<T>, b: set<T>)
    requires a <= b
    ensures |a| <= |b| && (a != b ==> |a| < |b|)
  {
    assert b == a + (b - a);
    assert |b| == |a| + |b - a|;
  }

  /** While w spins nobody else can change the list, and a reader that arrives takes the other epoch. */
  lemma SpinStep(v: View, a: Action, w: nat, b: Bit)
    requires Shape(v) && Enabled(v.c, a) && Spinning(v, w, b) && a != Write(w)
    ensures var v' := Step(v, a);
      && v'.live == v.live && v'.c.epoch == v.c.epoch == 1 - b
      && w in v'.c.writers && v'.c.writers[w] == v.c.writers[w]
      && (forall t :: t in v.c.readers && !((a.Read? || a.Interrupt?) && a.t == t) ==>
            && t in v'.c.readers && v'.c.readers[t] == v.c.readers[t]
            && (t in v.path ==> t in v'.path && v'.path[t] == v.path[t]))
  {
    match a
    case Write(u) => SpinWrite(v, u, w, b);
    case Read(t) =>
      assert WriterOk(v, w);
      ReadFrame(v.c, t);
    case _ => assert WriterOk(v, w);
  }

  lemma SpinWrite(v: View, u: nat, w: nat, b: Bit)
    requires Shape(v) && Enabled(v.c, Write(u)) && Spinning(v, w, b) && u != w
    ensures var v' := Step(v, Write(u));
      && v'.live == v.live && v'.c.epoch == v.c.epoch == 1 - b && v'.path == v.path && v'.c.readers == v.c.readers
      && w in v'.c.writers && v'.c.writers[w] == v.c.writers[w]
  {
    assert WriterOk(v, w) && WriterOk(v, u);
    WriteFrame(v.c, u);
  }

  lemma OwnStep(v: View, a: Action, b: Bit)
    requires Shape(v) && Enabled(v.c, a) && (a.Read? || a.Interrupt?)
    ensures var v' := Step(v, a);
      && a.t in v'.c.readers && v'.c.readers[a.t].snap == v.c.readers[a.t].snap
      && StepsLeft(v', a.t) <= StepsLeft(v, a.t)
      && (StepsLeft(v, a.t) > 0 ==> StepsLeft(v', a.t) < StepsLeft(v, a.t))
  {
    if a.Read? {
      ReadLeaves(v, a.t);
      OwnMove(v, Step(v, a), a.t);
    }
  }

  predicate Moved(v: View, v': View, t: nat)
    requires v.c.Wf() && t in v.c.readers
  {
    var r := v.c.readers[t];
    && v'.live == v.live && t in v'.c.readers && v'.c.readers[t] == ReaderMove(v.c, r)
    && (r.pc == ReadHead ==> t in v'.path && v'.path[t] == v.live)
    && (r.pc == Walk && v'.c.readers[t].pc == Walk ==>
          t in v.path && v.path[t] != [] && t in v'.path && |v'.path[t]| < |v.path[t]|)
  }

  lemma OwnMove(v: View, v': View, t: nat)
    requires v.c.Wf() && t in v.c.readers && Moved(v, v', t)
    requires v.c.readers[t].pc !in {Returned, IntrReturned}
    ensures t in v'.c.readers && v'.c.readers[t].snap == v.c.readers[t].snap && StepsLeft(v', t) <= StepsLeft(v, t)
    ensures StepsLeft(v, t) > 0 ==> StepsLeft(v', t) < StepsLeft(v, t)
  {}

  /** One step of a reader, as far as its record and its path go. */
  lemma ReadLeaves(v: View, t: nat)
    requires Shape(v) && Enabled(v.c, Read(t))
    ensures Moved(v, Step(v, Read(t)), t)
  {
    assert ReaderOk(v, t);
  }

  /** The work left under b never grows while w spins on b, and shrinks with every step of a reader under b. */
  lemma WorkShrinks(v: View, a: Action, w: nat, b: Bit)
    requires Shape(v) && Enabled(v.c, a) && Spinning(v, w, b) && a != Write(w)
    ensures Spinning(Step(v, a), w, b)
    ensures Work(Step(v, a), b) <= Work(v, b)
    ensures StepOf(v, a, b) ==> |Work(Step(v, a), b)| < |Work(v, b)|
  {
    var v' := Step(v, a);
    SpinStep(v, a, w, b);
    if a.Read? || a.Interrupt? { OwnStep(v, a, b); }
    forall p | p in Work(v', b) ensures p in Work(v, b) {
      if p.0 in v.c.readers {
        LeftShrinks(v, a, w, b, p.0);
      } else {
        ArrivesOther(v, a, p.0);
      }
    }
    if StepOf(v, a, b) {
      var p := (a.t, StepsLeft(v, a.t) - 1);
      assert p in Work(v, b) && p !in Work(v', b);
    }
    SubsetSize(Work(v', b), Work(v, b));
  }

  lemma LeftShrinks(v: View, a: Action, w: nat, b: Bit, t: nat)
    requires Shape(v) && Enabled(v.c, a) && Spinning(v, w, b) && a != Write(w) && t in v.c.readers
    ensures var v' := Step(v, a);
      t in v'.c.readers && v'.c.readers[t].snap == v.c.readers[t].snap && StepsLeft(v', t) <= StepsLeft(v, t)
  {
    if (a.Read? || a.Interrupt?) && a.t == t {
      OwnStep(v, a, b);
    } else {
      SpinStep(v, a, w, b);
      assert ReaderOk(v, t);
    }
  }

  lemma ArrivesOther(v: View, a: Action, t: nat)
    requires Enabled(v.c, a) && t !in v.c.readers && t in Step(v, a).c.readers
    ensures Step(v, a).c.readers[t].snap == v.c.epoch
  {
    if a.Write? { WriteFrame(v.c, a.w); }
  }

  /** The steps of readers under b among acts[i..j]. */
  ghost function StepsUnder(vs: seq<View>, acts: seq<Action>, i: nat, j: nat, b: Bit): nat
    requires i <= j <= |acts| < |vs|
  {
    if i == j then 0 else StepsUnder(vs, acts, i, j - 1, b) + Bin(StepOf(vs[j - 1], acts[j - 1], b))
  }

  /**
   * However long a writer spins on standing[b], the readers it waits for take no more steps in all than the work
   * they had left when it began.
   */
  lemma {:induction false} SpinBounded(vs: seq<View>, acts: seq<Action>, i: nat, j: nat, w: nat, b: Bit)
    requires Run(vs, acts) && i <= j <= |acts| && Spinning(vs[i], w, b)
    requires forall m :: i <= m < j ==> acts[m] != Write(w)
    ensures Spinning(vs[j], w, b)
    ensures StepsUnder(vs, acts, i, j, b) + |Work(vs[j], b)| <= |Work(vs[i], b)|
    decreases j
  {
    if i == j {
    } else {
      SpinBounded(vs, acts, i, j - 1, w, b);
      RunShape(vs, acts, j - 1);
      RunStep(vs, acts, j - 1);
      WorkShrinks(vs[j - 1], acts[j - 1], w, b);
      SubsetSize(Work(vs[j], b), Work(vs[j - 1], b));
    }
  }

  /** As long as the counter is positive, some registered reader under b can take a step. */
  lemma SomeoneMoves(vs: seq<View>, acts: seq<Action>, n: nat, b: Bit) returns (t: nat)
    requires Run(vs, acts) && n < |vs| && vs[n].c.Wf() && vs[n].c.standing[b] > 0
    ensures t in vs[n].c.readers && Registered(vs[n].c.readers[t]) && vs[n].c.readers[t].snap == b
    ensures Enabled(vs[n].c, Read(t)) && StepOf(vs[n], Read(t), b)
  {
    CountersConserve(vs, acts, n);
    t :| t in Members(vs[n].c.readers, Inside(b));
  }

  /** Nothing but the readers under b outside keep has moved between v and v'. */
  predicate OnlyUnder(v: View, v': View, b: Bit, keep: set<nat>) {
    && v'.live == v.live && v'.c.level == v.c.level && v'.c.writers == v.c.writers && v'.c.lock == v.c.lock
    && v'.c.epoch == v.c.epoch && v'.c.head == v.c.head && v'.c.next == v.c.next && v'.c.freed == v.c.freed
    && v.c.Wf() && v'.c.Wf() && v'.c.standing[1 - b] == v.c.standing[1 - b]
    && (forall t :: t in v.c.readers && (v.c.readers[t].snap != b || t in keep) ==>
          && t in v'.c.readers && v'.c.readers[t] == v.c.readers[t]
          && (t in v.path ==> t in v'.path && v'.path[t] == v.path[t]))
  }

  predicate Prefix(vs: seq<View>, acts: seq<Action>, vs': seq<View>, acts': seq<Action>) {
    vs <= vs' && acts <= acts'
  }

  /** From state n on, calls that are under way go on, and nothing else happens. */
  ghost predicate GoesOnFrom(acts: seq<Action>, n: nat) {
    forall i :: n <= i < |acts| ==> acts[i].Read? || acts[i].Write?
  }

  /** From state n on, only registered readers under b outside keep take steps. */
  ghost predicate OnlyLeave(vs: seq<View>, acts: seq<Action>, n: nat, b: Bit, keep: set<nat>) {
    |acts| < |vs| && forall m :: n <= m < |acts| ==> Leaves(vs[m], acts[m], b, keep)
  }

  predicate Leaves(v: View, a: Action, b: Bit, keep: set<nat>) {
    a.Read? && a.t !in keep && a.t in v.c.readers && Registered(v.c.readers[a.t]) && v.c.readers[a.t].snap == b
  }

  /** Readers that may stay when standing[b] is to reach zero: no more than signals have undercounted. */
  predicate MayStay(c: Core, b: Bit, keep: set<nat>) {
    |keep * Members(c.readers, Inside(b))| <= |Members(c.readers, Interrupted(b))|
  }

  lemma ReadOnlyUnder(v: View, t: nat, b: Bit, keep: set<nat>)
    requires Shape(v) && Enabled(v.c, Read(t)) && v.c.readers[t].snap == b && t !in keep
    ensures OnlyUnder(v, Step(v, Read(t)), b, keep)
  {
    ReadFrame(v.c, t);
  }

  lemma ReadShrinks(v: View, t: nat, b: Bit)
    requires Shape(v) && Enabled(v.c, Read(t)) && StepOf(v, Read(t), b)
    ensures |Work(Step(v, Read(t)), b)| < |Work(v, b)|
  {
    var v' := Step(v, Read(t));
    OwnStep(v, Read(t), b);
    ReadFrame(v.c, t);
    forall p | p in Work(v', b) ensures p in Work(v, b) {
      assert p.0 != t ==> StepsLeft(v', p.0) == StepsLeft(v, p.0) by {
        assert p.0 in v.c.readers && ReaderOk(v, p.0);
      }
    }
    var p := (t, StepsLeft(v, t) - 1);
    assert p in Work(v, b) && p !in Work(v', b);
    SubsetSize(Work(v', b), Work(v, b));
  }

  lemma ReadMayStay(v: View, t: nat, b: Bit, keep: set<nat>)
    requires Enabled(v.c, Read(t)) && Registered(v.c.readers[t]) && t !in keep && MayStay(v.c, b, keep)
    ensures MayStay(Step(v, Read(t)).c, b, keep)
  {
    ReadFrame(v.c, t);
    var rs, rs' := v.c.readers, Step(v, Read(t)).c.readers;
    assert keep * Members(rs', Inside(b)) == keep * Members(rs, Inside(b));
    assert Members(rs', Interrupted(b)) == Members(rs, Interrupted(b));
  }

  /** As long as the counter is positive, a reader outside keep is registered under b. */
  lemma SomeoneElse(vs: seq<View>, acts: seq<Action>, b: Bit, keep: set<nat>) returns (t: nat)
    requires Run(vs, acts) && vs[|acts|].c.Wf() && vs[|acts|].c.standing[b] > 0 && MayStay(vs[|acts|].c, b, keep)
    ensures Leaves(vs[|acts|], Read(t), b, keep)
    ensures Enabled(vs[|acts|].c, Read(t)) && StepOf(vs[|acts|], Read(t), b)
  {
    var c := vs[|acts|].c;
    CountersConserve(vs, acts, |acts|);
    var inside := Members(c.readers, Inside(b));
    assert inside <= keep ==> keep * inside == inside;
    t :| t in inside && t !in keep;
  }

  lemma OnlyUnderTrans(v: View, v1: View, v2: View, b: Bit, keep: set<nat>)
    requires OnlyUnder(v, v1, b, keep) && OnlyUnder(v1, v2, b, keep)
    ensures OnlyUnder(v, v2, b, keep)
  {}

  lemma OnlyUnderNext(vs: seq<View>, acts: seq<Action>, m: nat, b: Bit, keep: set<nat>)
    requires Run(vs, acts) && m < |acts| && Leaves(vs[m], acts[m], b, keep)
    ensures OnlyUnder(vs[m], vs[m + 1], b, keep)
  {
    RunShape(vs, acts, m);
    RunStep(vs, acts, m);
    ReadOnlyUnder(vs[m], acts[m].t, b, keep);
  }

  lemma {:induction false} OnlyUnderRun(vs: seq<View>, acts: seq<Action>, n: nat, m: nat, b: Bit, keep: set<nat>)
    requires Run(vs, acts) && OnlyLeave(vs, acts, n, b, keep) && n < m <= |acts|
    ensures OnlyUnder(vs[n], vs[m], b, keep)
    decreases m
  {
    assert Leaves(vs[m - 1], acts[m - 1], b, keep);
    OnlyUnderNext(vs, acts, m - 1, b, keep);
    if m > n + 1 {
      OnlyUnderRun(vs, acts, n, m - 1, b, keep);
      OnlyUnderTrans(vs[n], vs[m - 1], vs[m], b, keep);
    }
  }

  lemma LeavesOne(vs: seq<View>, acts: seq<Action>, b: Bit, keep: set<nat>)
    returns (vs': seq<View>, acts': seq<Action>)
    requires Run(vs, acts) && vs[|acts|].c.Wf() && vs[|acts|].c.standing[b] > 0 && MayStay(vs[|acts|].c, b, keep)
    ensures Run(vs', acts') && Prefix(vs, acts, vs', acts') && |acts'| == |acts| + 1
    ensures Leaves(vs[|acts|], acts'[|acts|], b, keep) && MayStay(vs'[|acts'|].c, b, keep)
    ensures |Work(vs'[|acts'|], b)| < |Work(vs[|acts|], b)|
  {
    var v := vs[|acts|];
    var t := SomeoneElse(vs, acts, b, keep);
    RunShape(vs, acts, |acts|);
    ReadShrinks(v, t, b);
    ReadMayStay(v, t, b, keep);
    vs', acts' := Then(vs, acts, Read(t));
  }

  lemma {:induction false} EmptiesCounter(vs: seq<View>, acts: seq<Action>, b: Bit, keep: set<nat>)
    returns (vs': seq<View>, acts': seq<Action>)
    requires Run(vs, acts) && MayStay(vs[|acts|].c, b, keep)
    ensures Run(vs', acts') && Prefix(vs, acts, vs', acts') && OnlyLeave(vs', acts', |acts|, b, keep)
    ensures vs'[|acts'|].c.Wf() && vs'[|acts'|].c.standing[b] <= 0
    decreases |Work(vs[|acts|], b)|
  {
    RunShape(vs, acts, |acts|);
    if vs[|acts|].c.standing[b] <= 0 {
      vs', acts' := vs, acts;
    } else {
      var vs1, acts1 := LeavesOne(vs, acts, b, keep);
      vs', acts' := EmptiesCounter(vs1, acts1, b, keep);
      assert vs'[|acts|] == vs[|acts|] && acts'[|acts|] == acts1[|acts|];
    }
  }

  /** The readers under b can always leave, except as many as signals have undercounted. */
  lemma CounterCanEmpty(vs: seq<View>, acts: seq<Action>, b: Bit, keep: set<nat>)
    returns (vs': seq<View>, acts': seq<Action>)
    requires Run(vs, acts) && MayStay(vs[|acts|].c, b, keep)
    ensures Run(vs', acts') && Prefix(vs, acts, vs', acts') && OnlyLeave(vs', acts', |acts|, b, keep)
    ensures OnlyUnder(vs[|acts|], vs'[|acts'|], b, keep) && vs'[|acts'|].c.standing[b] <= 0
  {
    vs', acts' := EmptiesCounter(vs, acts, b, keep);
    if |acts'| > |acts| {
      OnlyUnderRun(vs', acts', |acts|, |acts'|, b, keep);
    }
  }

  /** The spin can always end, by steps of the registered readers under b alone. */
  lemma SpinCanEnd(vs: seq<View>, acts: seq<Action>, w: nat, b: Bit)
    returns (vs': seq<View>, acts': seq<Action>)
    requires Run(vs, acts) && Spinning(vs[|acts|], w, b)
    ensures Run(vs', acts') && Prefix(vs, acts, vs', acts') && OnlyLeave(vs', acts', |acts|, b, {})
    ensures OnlyUnder(vs[|acts|], vs'[|acts'|], b, {})
    ensures Enabled(vs'[|acts'|].c, Write(w))
  {
    assert {} * Members(vs[|acts|].c.readers, Inside(b)) == {};
    vs', acts' := CounterCanEmpty(vs, acts, b, {});
  }
}
