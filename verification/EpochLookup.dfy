// What rcu_list_search finds while writers run: the answer was right at some instant of the traversal.
module EpochLookup {
  import opened EpochMachine
  import opened EpochChain
  import opened EpochShape

  /** Reader t is registered and x is the right answer for it now. */
  predicate RightNow(v: View, t: nat, x: Addr) {
    && t in v.c.readers && Registered(v.c.readers[t])
    && x == First(v.c.level, v.live, v.c.readers[t].key)
  }

  /** Replace has published its element (line 188) but not yet linked what follows (line 189). */
  predicate InGap(c: Core) {
    c.lock.Held? && c.lock.w in c.writers && c.writers[c.lock.w].pc == Relink
  }

  /** Reader t stands on the element just published, and an element of its level lies behind it. */
  predicate CutOff(v: View, t: nat) {
    && InGap(v.c) && t in v.c.readers
    && var r := v.c.readers[t];
    && var n := v.c.writers[v.c.lock.w].node;
    && r.pc == Walk && r.cur == n && v.c.Level(n) != r.key
    && First(v.c.level, Suffix(v.live, n), r.key) != NULL
  }

  predicate HasReturned(r: Reader) { r.pc in {Uncount, Returned} }

  /** At or before state n, x was the right answer for t while t was registered. */
  ghost predicate WasRight(vs: seq<View>, n: nat, t: nat, x: Addr)
    requires n < |vs|
  {
    exists m :: 0 <= m <= n && RightNow(vs[m], t, x)
  }

  /** Before state n, t stepped off the gap. */
  ghost predicate SteppedOff(vs: seq<View>, acts: seq<Action>, n: nat, t: nat)
    requires n < |vs| && n <= |acts|
  {
    exists m :: 0 <= m < n && acts[m] == Read(t) && CutOff(vs[m], t)
  }

  ghost predicate Explained(vs: seq<View>, acts: seq<Action>, n: nat, t: nat, x: Addr)
    requires n < |vs| && n <= |acts|
  {
    WasRight(vs, n, t, x) || (x == NULL && SteppedOff(vs, acts, n, t))
  }

  /** What t will find if nobody interferes any more. */
  function Ahead(v: View, t: nat): Addr
    requires t in v.c.readers && t in v.path
  {
    First(v.c.level, v.path[t], v.c.readers[t].key)
  }

  // --------------------------------------------------------------------------------------------------------

  /** A step of the walk finds the same, except off the gap. */
  lemma WalkAhead(v: View, t: nat)
    requires Shape(v) && t in v.c.readers && v.c.readers[t].pc == Walk
    requires v.c.readers[t].cur != NULL && v.c.Level(v.c.readers[t].cur) != v.c.readers[t].key
    requires Enabled(v.c, Read(t))
    ensures t in v.path && var v' := Step(v, Read(t));
      && v'.c.readers[t].pc == Walk && t in v'.path
      && (Ahead(v', t) != Ahead(v, t) <==> CutOff(v, t))
      && (CutOff(v, t) ==> v'.c.readers[t].cur == NULL && Ahead(v', t) == NULL)
  {
    var v' := Step(v, Read(t));
    var r := v.c.readers[t];
    assert ReaderOk(v, t) && v.path[t][0] == r.cur;
    if InGap(v.c) && r.cur == v.c.writers[v.c.lock.w].node {
      var n := r.cur;
      assert WriterOk(v, v.c.lock.w);
      SameSuffix(Links(v.c), v.c.head, v.live, n, v.path[t], n);
      assert Suffix(v.path[t], n) == v.path[t][1..];
      assert v'.path[t] == [];
    } else {
      if InGap(v.c) { assert WriterOk(v, v.c.lock.w); }
      assert Links(v.c)[r.cur] == v.c.Next(r.cur);
      assert Chain(Links(v.c), v.c.Next(r.cur), v.path[t][1..]);
      assert v'.path[t] == v.path[t][1..];
    }
  }

  /** The store in the search loop: a walker finds what it would have found, or what is first in the new list. */
  lemma SeekAhead(v: View, v': View, w: nat, t: nat)
    requires Shape(v) && w in v.c.writers && v.c.writers[w].op in {Remove, Send} && SeekStep(v, v', w)
    requires t in v.c.readers && Traversing(v.c.readers[t])
    requires v'.c.level == v.c.level && v'.c.readers == v.c.readers
    ensures t in v.path && t in v'.path
    ensures Ahead(v', t) == Ahead(v, t) || Ahead(v', t) == First(v'.c.level, v'.live, v.c.readers[t].key)
  {
    var x, k, level := v.c.writers[w], v.c.readers[t].key, v.c.level;
    assert ReaderOk(v, t) && WriterOk(v, w);
    var gone, rest := SeekFinds(v, w);
    var tail := NewTail(v.live, x);
    FirstReroute(level, v.path[t], x.elem, tail, k);
    if Clear(level, v.path[t], x.elem, k) {
      ClearSuffix(level, v.path[t], x.elem, k);
      SameSuffix(Links(v.c), v.c.head, v.live, v.c.readers[t].cur, v.path[t], x.elem);
      assert ([gone] + rest)[1..] == rest && ([x.node] + rest)[1..] == rest;
      assert LevelOf(level, gone) == x.key;
      assert x.op == Send ==> LevelOf(level, x.node) == x.key;
      if k == x.key {
        FirstReroute(level, v.live, x.elem, tail, k);
      }
    }
  }

  /** One step, seen from a walker: its answer stays, or is right now, or is lost in the gap. */
  lemma StepAhead(v: View, a: Action, t: nat)
    requires Shape(v) && Enabled(v.c, a)
    requires var r' := Step(v, a).c.readers; t in r' && Traversing(r'[t])
    ensures var v' := Step(v, a);
      && t in v.c.readers && v'.c.readers[t].key == v.c.readers[t].key && t in v'.path
      && (|| RightNow(v', t, Ahead(v', t))
          || (Traversing(v.c.readers[t]) && t in v.path && Ahead(v', t) == Ahead(v, t))
          || (Ahead(v', t) == NULL && a == Read(t) && CutOff(v, t)))
  {
    var v' := Step(v, a);
    match a
    case Enter(u, _) => if u != t { assert ReaderOk(v, t); }
    case Interrupt(u) => if u != t { assert ReaderOk(v, t); }
    case Read(u) => ReadAhead(v, u, t);
    case Start(_, _, _, node) =>
      assert ReaderOk(v, t);
      StartAhead(v, a, t);
    case Write(w) => WriteAhead(v, w, t);
  }

  lemma ReadAhead(v: View, u: nat, t: nat)
    requires Shape(v) && Enabled(v.c, Read(u))
    requires var r' := Step(v, Read(u)).c.readers; t in r' && Traversing(r'[t])
    ensures var v' := Step(v, Read(u));
      && t in v.c.readers && v'.c.readers[t].key == v.c.readers[t].key && t in v'.path
      && (|| RightNow(v', t, Ahead(v', t))
          || (Traversing(v.c.readers[t]) && t in v.path && Ahead(v', t) == Ahead(v, t))
          || (Ahead(v', t) == NULL && u == t && CutOff(v, t)))
  {
    assert ReaderOk(v, t);
    if u == t {
      var r := v.c.readers[t];
      if r.pc == Walk && r.cur != NULL && v.c.Level(r.cur) != r.key { WalkAhead(v, t); }
    } else {
      ReadFrame(v.c, u);
    }
  }

  lemma StartAhead(v: View, a: Action, t: nat)
    requires Shape(v) && a.Start? && Enabled(v.c, a) && t in v.c.readers && Traversing(v.c.readers[t])
    ensures t in v.path && Ahead(Step(v, a), t) == Ahead(v, t)
  {
    assert ReaderOk(v, t);
    assert v.c.lock.Held? ==> WriterOk(v, v.c.lock.w);
    var v' := Step(v, a);
    forall b | b in v.path[t] ensures LevelOf(v'.c.level, b) == LevelOf(v.c.level, b) {
      ChainMember(Links(v.c), v.c.readers[t].cur, v.path[t], b);
    }
    FirstFrame(v.c.level, v'.c.level, v.path[t], v.c.readers[t].key);
  }

  lemma WriteAhead(v: View, w: nat, t: nat)
    requires Shape(v) && Enabled(v.c, Write(w)) && t in v.c.readers && Traversing(v.c.readers[t])
    ensures var v' := Step(v, Write(w));
      && v'.c.readers == v.c.readers && t in v'.path && t in v.path
      && (Ahead(v', t) == Ahead(v, t) || RightNow(v', t, Ahead(v', t)))
  {
    assert ReaderOk(v, t) && WriterOk(v, w);
    var x := v.c.writers[w];
    WriteFrame(v.c, w);
    WriteLevels(v.c, w);
    if Stores(v.c, x) {
      if x.pc == Seek {
        StoreWf(v.c, w);
        SeekAhead(v, Step(v, Write(w)), w, t);
      }
    } else {
      WriteQuiet(v, w);
    }
  }

  lemma WriteLevels(c: Core, w: nat)
    requires Enabled(c, Write(w))
    ensures WriterNext(c, w).level == c.level
  {}

  /** When the walk stops, the cursor is the answer. */
  lemma StopsAtAnswer(v: View, t: nat)
    requires Shape(v) && t in v.c.readers && v.c.readers[t].pc == Walk
    requires v.c.readers[t].cur == NULL || v.c.Level(v.c.readers[t].cur) == v.c.readers[t].key
    ensures t in v.path && Ahead(v, t) == v.c.readers[t].cur
  {
    assert ReaderOk(v, t);
  }

  /** The answer of a reader, while it walks and after it has left. */
  predicate AnswerIs(v: View, t: nat, x: Addr) {
    && t in v.c.readers
    && var r := v.c.readers[t];
    && (r.pc == Walk ==> t in v.path && x == Ahead(v, t))
    && (r.pc in {Leave, Uncount, Returned} ==> x == r.cur)
    && (r.pc in {Walk, Leave, Uncount, Returned})
  }

  lemma AnswerStep(v: View, a: Action, t: nat, x: Addr)
    requires Shape(v) && Enabled(v.c, a) && AnswerIs(Step(v, a), t, x)
    ensures || RightNow(Step(v, a), t, x)
            || AnswerIs(v, t, x)
            || (x == NULL && a == Read(t) && CutOff(v, t))
  {
    var v' := Step(v, a);
    if v'.c.readers[t].pc == Walk {
      StepAhead(v, a, t);
    } else {
      LateStep(v, a, t);
    }
  }

  lemma LateStep(v: View, a: Action, t: nat)
    requires Shape(v) && Enabled(v.c, a)
    requires var r' := Step(v, a).c.readers; t in r' && r'[t].pc in {Leave, Uncount, Returned}
    ensures AnswerIs(v, t, Step(v, a).c.readers[t].cur)
  {
    match a
    case Enter(_, _) => {}
    case Interrupt(_) => {}
    case Start(_, _, _, _) => {}
    case Read(u) =>
      if u == t {
        if v.c.readers[t].pc == Walk { StopsAtAnswer(v, t); }
      } else {
        ReadFrame(v.c, u);
      }
    case Write(w) => WriteFrame(v.c, w);
  }

  lemma {:induction false} AnswerExplained(vs: seq<View>, acts: seq<Action>, n: nat, t: nat, x: Addr)
    requires Run(vs, acts) && n < |vs| && AnswerIs(vs[n], t, x)
    ensures Explained(vs, acts, n, t, x)
    decreases n
  {
    if n > 0 && !RightNow(vs[n], t, x) {
      AnswerBack(vs, acts, n, t, x);
      if AnswerIs(vs[n - 1], t, x) {
        AnswerExplained(vs, acts, n - 1, t, x);
      }
    }
  }

  lemma AnswerBack(vs: seq<View>, acts: seq<Action>, n: nat, t: nat, x: Addr)
    requires Run(vs, acts) && 0 < n < |vs| && AnswerIs(vs[n], t, x)
    ensures RightNow(vs[n], t, x) || AnswerIs(vs[n - 1], t, x)
      || (x == NULL && acts[n - 1] == Read(t) && CutOff(vs[n - 1], t))
  {
    RunShape(vs, acts, n - 1);
    RunStep(vs, acts, n - 1);
    AnswerStep(vs[n - 1], acts[n - 1], t, x);
  }

  /**
   * Lookups are linearizable, but for one gap: what a lookup returns was the first element of its level in the
   * list, or NULL with no such element in the list, at an instant at which the lookup was registered; otherwise
   * it is NULL, and the lookup has walked off an element that replace had published but not yet linked, with an
   * element of its level behind it.
   */
  lemma LookupLinearizes(vs: seq<View>, acts: seq<Action>, n: nat, t: nat)
    requires Run(vs, acts) && n < |vs| && t in vs[n].c.readers && HasReturned(vs[n].c.readers[t])
    ensures Explained(vs, acts, n, t, vs[n].c.readers[t].cur)
  {
    AnswerExplained(vs, acts, n, t, vs[n].c.readers[t].cur);
  }

  /** Nobody steps between lines 188 and 189. */
  ghost predicate RelinkAtomic(vs: seq<View>, acts: seq<Action>)
    requires |vs| == |acts| + 1
  {
    forall i :: 0 <= i < |acts| && InGap(vs[i].c) ==> acts[i] == Write(vs[i].c.lock.w)
  }

  /** With the relink as one step, lookups are linearizable without exception. */
  lemma LookupLinearizesAtomic(vs: seq<View>, acts: seq<Action>, n: nat, t: nat) returns (m: nat)
    requires Run(vs, acts) && n < |vs| && t in vs[n].c.readers && HasReturned(vs[n].c.readers[t])
    requires RelinkAtomic(vs, acts)
    ensures m <= n && RightNow(vs[m], t, vs[n].c.readers[t].cur)
  {
    LookupLinearizes(vs, acts, n, t);
    m :| 0 <= m <= n && RightNow(vs[m], t, vs[n].c.readers[t].cur);
  }

  /** RightNow in terms of the memory: the answer is reached from head, and is of the right level or absent. */
  lemma RightNowMeaning(v: View, t: nat, x: Addr)
    requires Shape(v) && RightNow(v, t, x)
    ensures Chain(Links(v.c), v.c.head, v.live)
    ensures forall xs :: Chain(Links(v.c), v.c.head, xs) ==> xs == v.live
    ensures var k := v.c.readers[t].key;
      if x == NULL then forall a :: a in v.live ==> v.c.Level(a) != k
      else exists i :: 0 <= i < |v.live| && v.live[i] == x && v.c.Level(x) == k
             && forall j :: 0 <= j < i ==> v.c.Level(v.live[j]) != k
  {
    if NULL in v.live { ChainMember(Links(v.c), v.c.head, v.live, NULL); }
    forall xs | Chain(Links(v.c), v.c.head, xs) ensures xs == v.live {
      ChainUnique(Links(v.c), v.c.head, xs, v.live);
    }
    FirstInList(v.c.level, v.live, v.c.readers[t].key);
    if x != NULL { var i := FirstIndex(v.c.level, v.live, v.c.readers[t].key); }
  }

  lemma {:induction false} FirstIndex(level: map<Addr, int>, xs: seq<Addr>, k: int) returns (i: nat)
    requires First(level, xs, k) != NULL
    ensures i < |xs| && xs[i] == First(level, xs, k) && LevelOf(level, xs[i]) == k
    ensures forall j :: 0 <= j < i ==> LevelOf(level, xs[j]) != k
    decreases |xs|
  {
    if LevelOf(level, xs[0]) == k {
      i := 0;
    } else {
      i := FirstIndex(level, xs[1..], k);
      i := i + 1;
      assert forall j :: 1 <= j < i ==> xs[j] == xs[1..][j - 1];
    }
  }
}
