// No deadlock: from every state of the list of a service in use, every call can come back; a replace that does not
// find its level would block all others for good.
module EpochProgress {
  import opened EpochMachine
  import opened EpochChain
  import opened EpochShape
  import opened EpochCounters
  import opened EpochGrace
  import opened EpochDrain
  import opened EpochLevels
  import opened EpochCalls
  import opened Sizes

  /** Holding the lock, with more to do. */
  predicate Working(x: Writer) { InLock(x.pc) && x.pc != Leaked }

  /** How far a call is from giving the lock back. */
  function Rank(live: seq<Addr>, x: Writer): nat {
    match x.pc
    case Look => |live| + 9
    case Seek => if x.elem == NULL then 7 else |Suffix(live, x.elem)| + 8
    case Relink => 6
    case DrainOther => 5
    case Flip => 4
    case Drain => 3
    case Unlock => 2
    case _ => 0
  }

  /** Each turn of the search loop leaves less of the list. */
  lemma SuffixNext(m: map<Addr, Addr>, level: map<Addr, int>, p: Addr, xs: seq<Addr>, e: Addr, k: int)
    requires Chain(m, p, xs) && Clear(level, xs, e, k)
    ensures e in m && (m[e] != NULL ==> |Suffix(xs, m[e])| < |Suffix(xs, e)|)
  {
    ClearAdvance(m, level, p, xs, e, k);
    ClearSuffix(level, xs, e, k);
    if m[e] != NULL {
      ChainSuffix(m, p, xs, e);
      var s := Suffix(xs, e);
      assert m[e] in s;
      SameSuffix(m, p, xs, m[e], s, m[e]);
    }
  }

  lemma SeekRank(v: View, w: nat)
    requires Shape(v) && Enabled(v.c, Write(w)) && v.c.writers[w].pc == Seek && !SeekHit(v.c, v.c.writers[w])
    requires v.c.writers[w].elem != NULL
    ensures Rank(v.live, v.c.writers[w].(elem := v.c.Next(v.c.writers[w].elem))) < Rank(v.live, v.c.writers[w])
  {
    var x := v.c.writers[w];
    assert WriterOk(v, w);
    PlainLinks(v, w);
    SuffixNext(v.c.next, v.c.level, v.c.head, v.live, x.elem, x.key);
  }

  /** What a step of the holder of the lock leaves: less to do, or the lock free, or a leak. */
  predicate Nearer(v: View, v': View, w: nat) {
    && w in v.c.writers && w in v'.c.writers && v'.c.writers == v.c.writers[w := v'.c.writers[w]]
    && var x, x' := v.c.writers[w], v'.c.writers[w];
    || (Working(x') && Rank(v'.live, x') < Rank(v.live, x))
    || (x'.pc in {Free, Finished} && v'.c.lock == Open)
    || x'.pc == Leaked
  }

  lemma SearchNearer(v: View, w: nat)
    requires Shape(v) && Enabled(v.c, Write(w)) && v.c.writers[w].pc in {Look, Seek}
    ensures Nearer(v, Step(v, Write(w)), w)
  {
    var x := v.c.writers[w];
    assert WriterOk(v, w);
    WriteFrame(v.c, w);
    CallMove(v.c, w);
    if x.pc == Look {
      assert v.c.head != NULL ==> v.live != [] && v.live[0] == v.c.head;
    } else if x.elem != NULL && !SeekHit(v.c, x) {
      SeekRank(v, w);
    }
  }

  lemma PhaseNearer(v: View, w: nat)
    requires Shape(v) && Enabled(v.c, Write(w)) && Working(v.c.writers[w]) && v.c.writers[w].pc !in {Look, Seek}
    ensures Nearer(v, Step(v, Write(w)), w)
  {
    WriteFrame(v.c, w);
    CallMove(v.c, w);
  }

  // --------------------------------------------------------------------------------------------------------

  /** A run on the list of a service in use. */
  ghost predicate Service(vs: seq<View>, acts: seq<Action>) {
    Run(vs, acts) && InUse(acts) && AllLevels(vs[0])
  }

  /** Calls and readers under way have gone on, and of the calls only w has. */
  ghost predicate GoneOn(vs: seq<View>, acts: seq<Action>, vs': seq<View>, acts': seq<Action>, w: nat) {
    && Service(vs, acts) && Service(vs', acts') && Prefix(vs, acts, vs', acts') && GoesOnFrom(acts', |acts|)
    && vs'[|acts'|].c.writers.Keys == vs[|acts|].c.writers.Keys
    && forall u :: u in vs[|acts|].c.writers && u != w ==> vs'[|acts'|].c.writers[u] == vs[|acts|].c.writers[u]
  }

  lemma StaysService(vs: seq<View>, acts: seq<Action>, vs': seq<View>, acts': seq<Action>)
    requires Service(vs, acts) && Run(vs', acts') && Prefix(vs, acts, vs', acts') && GoesOnFrom(acts', |acts|)
    ensures Service(vs', acts')
  {
    assert vs'[0] == vs[0];
    forall i | 0 <= i < |acts'| && acts'[i].Start? ensures acts'[i].op in {Send, Awake} {
      assert i < |acts| ==> acts'[i] == acts[i];
    }
  }

  /** A writer that spins can be let go. */
  lemma LetGo(vs: seq<View>, acts: seq<Action>, w: nat) returns (vs': seq<View>, acts': seq<Action>)
    requires Service(vs, acts) && w in vs[|acts|].c.writers && Working(vs[|acts|].c.writers[w])
    ensures GoneOn(vs, acts, vs', acts', w) && vs'[|acts'|].live == vs[|acts|].live
    ensures vs'[|acts'|].c.writers == vs[|acts|].c.writers && Enabled(vs'[|acts'|].c, Write(w))
  {
    RunShape(vs, acts, |acts|);
    var x := vs[|acts|].c.writers[w];
    if x.pc in {DrainOther, Drain} {
      var b := if x.pc == Drain then x.grace else 1 - x.grace;
      vs', acts' := SpinCanEnd(vs, acts, w, b);
      forall m | |acts| <= m < |acts'| ensures acts'[m].Read? {
        assert Leaves(vs'[m], acts'[m], b, {});
      }
      StaysService(vs, acts, vs', acts');
    } else {
      vs', acts' := vs, acts;
    }
  }

  lemma GoesNearer(vs: seq<View>, acts: seq<Action>, w: nat) returns (vs': seq<View>, acts': seq<Action>)
    requires Service(vs, acts) && Enabled(vs[|acts|].c, Write(w)) && Working(vs[|acts|].c.writers[w])
    ensures GoneOn(vs, acts, vs', acts', w) && Nearer(vs[|acts|], vs'[|acts'|], w)
    ensures w in vs'[|acts'|].c.writers && vs'[|acts'|].c.writers[w].pc != Leaked
  {
    RunShape(vs, acts, |acts|);
    StepNearer(vs[|acts|], w);
    vs', acts' := OneWrite(vs, acts, w);
    LevelsStay(vs', acts', |acts'|);
  }

  lemma StepNearer(v: View, w: nat)
    requires Shape(v) && Enabled(v.c, Write(w)) && Working(v.c.writers[w])
    ensures Nearer(v, Step(v, Write(w)), w)
  {
    if v.c.writers[w].pc in {Look, Seek} {
      SearchNearer(v, w);
    } else {
      PhaseNearer(v, w);
    }
  }

  lemma OneWrite(vs: seq<View>, acts: seq<Action>, w: nat) returns (vs': seq<View>, acts': seq<Action>)
    requires Service(vs, acts) && Enabled(vs[|acts|].c, Write(w))
    ensures GoneOn(vs, acts, vs', acts', w) && vs'[|acts'|] == Step(vs[|acts|], Write(w)) && acts' == acts + [Write(w)]
  {
    WriteFrame(vs[|acts|].c, w);
    vs', acts' := Then(vs, acts, Write(w));
    StaysService(vs, acts, vs', acts');
  }

  lemma GoneOnTrans(vs: seq<View>, acts: seq<Action>, vs1: seq<View>, acts1: seq<Action>, vs2: seq<View>,
                    acts2: seq<Action>, w: nat)
    requires GoneOn(vs, acts, vs1, acts1, w) && GoneOn(vs1, acts1, vs2, acts2, w)
    ensures GoneOn(vs, acts, vs2, acts2, w)
  {
    forall i | |acts| <= i < |acts2| ensures acts2[i].Read? || acts2[i].Write? {
      assert i < |acts1| ==> acts2[i] == acts1[i];
    }
  }

  /** Whoever holds the lock can give it back. */
  lemma {:induction false} GivesBack(vs: seq<View>, acts: seq<Action>, w: nat)
    returns (vs': seq<View>, acts': seq<Action>)
    requires Service(vs, acts) && w in vs[|acts|].c.writers && Working(vs[|acts|].c.writers[w])
    ensures GoneOn(vs, acts, vs', acts', w) && w in vs'[|acts'|].c.writers
    ensures vs'[|acts'|].c.writers[w].pc in {Free, Finished} && vs'[|acts'|].c.lock == Open
    decreases Rank(vs[|acts|].live, vs[|acts|].c.writers[w])
  {
    var vs1, acts1 := LetGo(vs, acts, w);
    var vs2, acts2 := GoesNearer(vs1, acts1, w);
    GoneOnTrans(vs, acts, vs1, acts1, vs2, acts2, w);
    if vs2[|acts2|].c.writers[w].pc in {Free, Finished} {
      vs', acts' := vs2, acts2;
    } else {
      vs', acts' := GivesBack(vs2, acts2, w);
      GoneOnTrans(vs, acts, vs2, acts2, vs', acts', w);
    }
  }

  // --------------------------------------------------------------------------------------------------------

  /** What is left after the lock. */
  function Rest(x: Writer): int {
    match x.pc
    case Free => 40
    case Check => 39
    case Raise => LEVELS - x.key
    case _ => 0
  }

  lemma RestDrops(v: View, w: nat)
    requires Enabled(v.c, Write(w)) && v.c.writers[w].pc in {Free, Check, Raise}
    requires v.c.writers[w].op in {Send, Awake}
    ensures var v' := Step(v, Write(w)); w in v'.c.writers
    ensures Step(v, Write(w)).c.writers == v.c.writers[w := Step(v, Write(w)).c.writers[w]]
    ensures var x, x' := v.c.writers[w], Step(v, Write(w)).c.writers[w];
      && x'.pc in {Check, Raise, Finished} && x'.op == x.op && 0 <= Rest(x') < Rest(x)
  {
    WriteFrame(v.c, w);
    CallMove(v.c, w);
    assert 0 <= v.c.writers[w].key < LEVELS;
  }

  lemma RestNext(vs: seq<View>, acts: seq<Action>, w: nat) returns (vs': seq<View>, acts': seq<Action>)
    requires Service(vs, acts) && w in vs[|acts|].c.writers && vs[|acts|].c.writers[w].pc in {Free, Check, Raise}
    ensures GoneOn(vs, acts, vs', acts', w) && w in vs'[|acts'|].c.writers
    ensures var x, x' := vs[|acts|].c.writers[w], vs'[|acts'|].c.writers[w];
      x'.pc in {Check, Raise, Finished} && 0 <= Rest(x') < Rest(x)
  {
    RunShape(vs, acts, |acts|);
    LevelsStay(vs, acts, |acts|);
    RestDrops(vs[|acts|], w);
    vs', acts' := OneWrite(vs, acts, w);
  }

  lemma {:induction false} ComesToEnd(vs: seq<View>, acts: seq<Action>, w: nat)
    returns (vs': seq<View>, acts': seq<Action>)
    requires Service(vs, acts) && w in vs[|acts|].c.writers
    requires vs[|acts|].c.writers[w].pc in {Free, Check, Raise, Finished}
    ensures GoneOn(vs, acts, vs', acts', w)
    ensures w in vs'[|acts'|].c.writers && vs'[|acts'|].c.writers[w].pc == Finished
    decreases Rest(vs[|acts|].c.writers[w])
  {
    if vs[|acts|].c.writers[w].pc == Finished {
      vs', acts' := vs, acts;
    } else {
      var vs1, acts1 := RestNext(vs, acts, w);
      vs', acts' := ComesToEnd(vs1, acts1, w);
      GoneOnTrans(vs, acts, vs1, acts1, vs', acts', w);
    }
  }

  /** With the lock free a call takes it. */
  lemma TakesIt(vs: seq<View>, acts: seq<Action>, w: nat) returns (vs': seq<View>, acts': seq<Action>)
    requires Service(vs, acts) && w in vs[|acts|].c.writers && vs[|acts|].c.writers[w].pc == Acquire
    requires vs[|acts|].c.lock == Open
    ensures GoneOn(vs, acts, vs', acts', w)
    ensures w in vs'[|acts'|].c.writers && vs'[|acts'|].c.writers[w].pc == Look
  {
    RunShape(vs, acts, |acts|);
    CallMove(vs[|acts|].c, w);
    vs', acts' := OneWrite(vs, acts, w);
  }

  /** Whoever has the lock gives it back, and call w takes it. */
  lemma GetsLock(vs: seq<View>, acts: seq<Action>, w: nat) returns (vs': seq<View>, acts': seq<Action>)
    requires Service(vs, acts) && w in vs[|acts|].c.writers && vs[|acts|].c.writers[w].pc == Acquire
    ensures Service(vs', acts') && Prefix(vs, acts, vs', acts') && GoesOnFrom(acts', |acts|)
    ensures w in vs'[|acts'|].c.writers && vs'[|acts'|].c.writers[w].pc == Look
  {
    var vs1, acts1 := vs, acts;
    RunShape(vs, acts, |acts|);
    LevelsStay(vs, acts, |acts|);
    if vs[|acts|].c.lock.Held? {
      var h := vs[|acts|].c.lock.w;
      assert WriterOk(vs[|acts|], h) && WriterOk(vs[|acts|], w);
      vs1, acts1 := GivesBack(vs, acts, h);
    }
    vs', acts' := TakesIt(vs1, acts1, w);
    forall i | |acts| <= i < |acts'| ensures acts'[i].Read? || acts'[i].Write? {
      assert i < |acts1| ==> acts'[i] == acts1[i];
    }
  }

  /**
   * From every reachable state of the list of a service in use, signals included, every send and AWAKE_ALL can come
   * back, by steps of calls and registered readers that are under way already.
   */
  lemma EveryCallCanReturn(vs: seq<View>, acts: seq<Action>, w: nat) returns (vs': seq<View>, acts': seq<Action>)
    requires Run(vs, acts) && InUse(acts) && AllLevels(vs[0]) && w in vs[|acts|].c.writers
    ensures Run(vs', acts') && Prefix(vs, acts, vs', acts') && GoesOnFrom(acts', |acts|)
    ensures w in vs'[|acts'|].c.writers && vs'[|acts'|].c.writers[w].pc == Finished
  {
    LevelsStay(vs, acts, |acts|);
    var vs1, acts1 := vs, acts;
    if vs[|acts|].c.writers[w].pc == Acquire {
      vs1, acts1 := GetsLock(vs, acts, w);
    }
    var vs2, acts2 := vs1, acts1;
    if Working(vs1[|acts1|].c.writers[w]) {
      vs2, acts2 := GivesBack(vs1, acts1, w);
    }
    vs', acts' := ComesToEnd(vs2, acts2, w);
    forall i | |acts| <= i < |acts'| ensures acts'[i].Read? || acts'[i].Write? {
      assert i < |acts2| ==> acts'[i] == acts2[i];
      assert i < |acts1| ==> acts'[i] == acts1[i];
    }
  }

  // --------------------------------------------------------------------------------------------------------

  predicate Blocked(c: Core, w: nat, u: nat) {
    w in c.writers && c.writers[w].pc == Leaked && u in c.writers && c.writers[u].pc == Acquire
  }

  lemma LeakHolds(vs: seq<View>, acts: seq<Action>, n: nat, w: nat, u: nat)
    requires Run(vs, acts) && n < |vs| && Blocked(vs[n].c, w, u)
    ensures vs[n].c.lock == Held(w)
  {
    RunShape(vs, acts, n);
    assert WriterOk(vs[n], w);
  }

  lemma LeakOne(vs: seq<View>, acts: seq<Action>, n: nat, w: nat, u: nat)
    requires Run(vs, acts) && n < |acts| && Blocked(vs[n].c, w, u)
    ensures Blocked(vs[n + 1].c, w, u)
  {
    LeakHolds(vs, acts, n, w, u);
    RunStep(vs, acts, n);
    StaysOne(vs, acts, n, w);
    StaysOne(vs, acts, n, u);
  }

  /** A replace that has not found its level keeps the lock for good, and a call that waits for it never gets it. */
  lemma {:induction false} LeakBlocks(vs: seq<View>, acts: seq<Action>, i: nat, j: nat, w: nat, u: nat)
    requires Run(vs, acts) && i <= j < |vs| && w in vs[i].c.writers && vs[i].c.writers[w].pc == Leaked
    requires u in vs[i].c.writers && vs[i].c.writers[u].pc == Acquire
    ensures w in vs[j].c.writers && vs[j].c.writers[w].pc == Leaked && vs[j].c.lock == Held(w)
    ensures u in vs[j].c.writers && vs[j].c.writers[u].pc == Acquire
    decreases j
  {
    if i < j {
      LeakBlocks(vs, acts, i, j - 1, w, u);
      LeakOne(vs, acts, j - 1, w, u);
    }
    LeakHolds(vs, acts, j, w, u);
  }
}
