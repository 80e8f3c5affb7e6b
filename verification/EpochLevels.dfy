// The list of a TAG service while it is in use: readers, sends and AWAKE_ALL only, on the levels that
// new_TAG_Service has put there. No level is ever absent, so replace always finds its element.
module EpochLevels {
  import opened EpochMachine
  import opened EpochChain
  import opened EpochShape
  import opened EpochLookup
  import opened Sizes

  /** The list holds the levels 31 down to 0. */
  predicate AllLevels(v: View) {
    |v.live| == LEVELS && forall i :: 0 <= i < LEVELS ==> v.c.Level(v.live[i]) == LEVELS - 1 - i
  }

  ghost predicate InUse(acts: seq<Action>) {
    forall i :: 0 <= i < |acts| && acts[i].Start? ==> acts[i].op in {Send, Awake}
  }

  /** The calls on the way, none of which has come back without finding its level. */
  predicate Senders(c: Core) {
    forall w :: w in c.writers ==> c.writers[w].op in {Send, Awake} && c.writers[w].pc != Leaked
  }

  /** The list has an element of level k. */
  predicate HasLevel(v: View, k: int) {
    exists a :: a in v.live && v.c.Level(a) == k
  }

  lemma LevelThere(v: View, k: int)
    requires AllLevels(v) && 0 <= k < LEVELS
    ensures HasLevel(v, k)
  {
    assert v.live[LEVELS - 1 - k] in v.live;
  }

  /** Being there, and being found. */
  lemma FirstThere(v: View, k: int)
    requires Shape(v)
    ensures First(v.c.level, v.live, k) != NULL <==> HasLevel(v, k)
  {
    if NULL in v.live {
      ChainMember(Links(v.c), v.c.head, v.live, NULL);
    }
    FirstInList(v.c.level, v.live, k);
  }

  // --------------------------------------------------------------------------------------------------------

  /** Swapping an element for another of its level keeps the levels of the list. */
  lemma {:induction false} SwapKeepsLevels(level: map<Addr, int>, xs: seq<Addr>, e: Addr, gone: Addr, rest: seq<Addr>,
                                           n: Addr)
    requires e in xs && Suffix(xs, e) == [gone] + rest && LevelOf(level, n) == LevelOf(level, gone)
    ensures var ys := Reroute(xs, e, [n] + rest);
      |ys| == |xs| && forall i :: 0 <= i < |xs| ==> LevelOf(level, ys[i]) == LevelOf(level, xs[i])
    decreases |xs|
  {
    var ys := Reroute(xs, e, [n] + rest);
    if xs[0] == e {
      assert xs[1..] == [gone] + rest && ys == [e] + ([n] + rest);
      forall i | 0 <= i < |xs| ensures LevelOf(level, ys[i]) == LevelOf(level, xs[i]) {
        assert i > 0 ==> xs[i] == xs[1..][i - 1];
      }
    } else {
      SwapKeepsLevels(level, xs[1..], e, gone, rest, n);
      var zs := Reroute(xs[1..], e, [n] + rest);
      assert ys == [xs[0]] + zs;
      forall i | 0 <= i < |xs| ensures LevelOf(level, ys[i]) == LevelOf(level, xs[i]) {
        assert i > 0 ==> xs[i] == xs[1..][i - 1] && ys[i] == zs[i - 1];
      }
    }
  }

  /** Lines 177-182. */
  lemma LookKeeps(v: View, w: nat)
    requires Shape(v) && AllLevels(v) && Senders(v.c) && Enabled(v.c, Write(w)) && v.c.writers[w].pc == Look
    ensures var v' := Step(v, Write(w));
      AllLevels(v') && w in v'.c.writers && v'.c.writers[w].op == v.c.writers[w].op && v'.c.writers[w].pc != Leaked
  {
    var x, v' := v.c.writers[w], Step(v, Write(w));
    assert WriterOk(v, w);
    assert v.live[0] == v.c.head;
    WriteLevels(v.c, w);
    if HeadHit(v.c, w) {
      assert v'.live == [x.node] + v.live[1..];
    } else {
      assert v'.live == v.live;
    }
  }

  /** Lines 184-197. */
  lemma SeekKeeps(v: View, w: nat)
    requires Shape(v) && AllLevels(v) && Senders(v.c) && Enabled(v.c, Write(w)) && v.c.writers[w].pc == Seek
    ensures var v' := Step(v, Write(w));
      AllLevels(v') && w in v'.c.writers && v'.c.writers[w].op == v.c.writers[w].op && v'.c.writers[w].pc != Leaked
  {
    var x := v.c.writers[w];
    assert WriterOk(v, w);
    WriteLevels(v.c, w);
    if SeekHit(v.c, x) {
      var gone, rest := SeekFinds(v, w);
      SwapKeepsLevels(v.c.level, v.live, x.elem, gone, rest, x.node);
      assert NewTail(v.live, x) == [x.node] + rest;
    } else {
      LevelThere(v, x.key);
      FirstThere(v, x.key);
    }
  }

  lemma WriteKeeps(v: View, w: nat)
    requires Shape(v) && AllLevels(v) && Senders(v.c) && Enabled(v.c, Write(w))
    ensures AllLevels(Step(v, Write(w))) && Senders(Step(v, Write(w)).c)
  {
    var x := v.c.writers[w];
    WriteFrame(v.c, w);
    if x.pc == Look {
      LookKeeps(v, w);
    } else if x.pc == Seek {
      SeekKeeps(v, w);
    } else {
      assert WriterOk(v, w);
      WriteLevels(v.c, w);
    }
  }

  lemma StartKeeps(v: View, a: Action)
    requires Shape(v) && AllLevels(v) && Senders(v.c) && Enabled(v.c, a) && a.Start? && a.op in {Send, Awake}
    ensures AllLevels(Step(v, a)) && Senders(Step(v, a).c)
  {
    forall i | 0 <= i < LEVELS ensures Step(v, a).c.Level(v.live[i]) == v.c.Level(v.live[i]) {
      ChainMember(Links(v.c), v.c.head, v.live, v.live[i]);
      assert v.c.lock.Held? ==> WriterOk(v, v.c.lock.w);
    }
  }

  lemma StepKeepsLevels(v: View, a: Action)
    requires Shape(v) && AllLevels(v) && Senders(v.c) && Enabled(v.c, a) && (a.Start? ==> a.op in {Send, Awake})
    ensures AllLevels(Step(v, a)) && Senders(Step(v, a).c)
  {
    match a
    case Enter(_, _) =>
    case Interrupt(_) =>
    case Read(t) => ReadFrame(v.c, t);
    case Start(_, _, _, _) => StartKeeps(v, a);
    case Write(w) => WriteKeeps(v, w);
  }

  /**
   * In every run of readers, sends and AWAKE_ALLs on a list with all levels, signals included, the list keeps its
   * levels in order, and no send comes back without having found its level.
   */
  lemma {:induction false} LevelsStay(vs: seq<View>, acts: seq<Action>, n: nat)
    requires Run(vs, acts) && InUse(acts) && AllLevels(vs[0]) && n < |vs|
    ensures AllLevels(vs[n]) && Senders(vs[n].c)
  {
    if n == 0 {
    } else {
      LevelsStay(vs, acts, n - 1);
      RunShape(vs, acts, n - 1);
      RunStep(vs, acts, n - 1);
      StepKeepsLevels(vs[n - 1], acts[n - 1]);
    }
  }
}
