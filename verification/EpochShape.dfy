// The structural invariant of the machine: it holds in every reachable state, signals included.
module EpochShape {
  import opened EpochMachine
  import opened EpochChain
  import opened Sizes

  /** a is an allocated element that has left the list, or never was in it, for good. */
  predicate Off(v: View, a: Addr) {
    && a in v.c.next && a != NULL && a !in v.live
    && forall w :: w in v.c.writers && Private(v.c.writers[w]) ==> v.c.writers[w].node != a
  }

  /** No element a on what reader t still has to walk. */
  predicate Clean(v: View, t: nat, a: Addr) {
    t in v.c.readers && Traversing(v.c.readers[t]) && t in v.path ==> a !in v.path[t]
  }

  predicate WriterOk(v: View, w: nat)
    requires w in v.c.writers
  {
    var x := v.c.writers[w];
    && OpPc(x)
    && (InLock(x.pc) <==> v.c.lock == Held(w))
    && (Private(x) ==>
          && x.node in v.c.next && x.node !in v.live && v.c.Next(x.node) == NULL && v.c.Level(x.node) == x.key)
    && (x.pc == Seek ==>
          if x.elem == NULL then First(v.c.level, v.live, x.key) == NULL
          else Clear(v.c.level, v.live, x.elem, x.key))
    && (x.pc in {Acquire, Look, Seek} ==> x.gone == NULL)
    && (x.pc in {Check, Raise} && x.op == Send ==> x.gone != NULL)
    && (x.pc == Relink ==>
          && x.gone != NULL && x.node in v.live && x.node in v.c.next && v.c.Next(x.node) == NULL
          && v.c.Level(x.node) == x.key)
    && (x.pc == DrainOther || (x.pc == Flip && x.op == Remove) ==> v.c.epoch == x.grace)
    && (x.pc in {Drain, Unlock} ==> v.c.epoch == 1 - x.grace)
  }

  predicate ReaderOk(v: View, t: nat)
    requires t in v.c.readers
  {
    var r := v.c.readers[t];
    Traversing(r) ==> t in v.path && Chain(Links(v.c), r.cur, v.path[t])
  }

  predicate Heap(v: View) {
    && v.c.next.Keys == v.c.level.Keys && NULL !in v.c.next
    && (v.c.lock.Held? ==> v.c.lock.w in v.c.writers)
    && Chain(Links(v.c), v.c.head, v.live)
    && (forall w, u :: w in v.c.writers && u in v.c.writers && w != u && Private(v.c.writers[w])
          && Private(v.c.writers[u])
          ==> v.c.writers[w].node != v.c.writers[u].node)
  }

  predicate Shape(v: View) {
    && v.c.Wf()
    && Heap(v)
    && (forall w :: w in v.c.writers ==> WriterOk(v, w))
    && (forall t :: t in v.c.readers ==> ReaderOk(v, t))
    && (forall w :: w in v.c.writers && v.c.writers[w].gone != NULL ==> Off(v, v.c.writers[w].gone))
    && (forall w, t :: w in v.c.writers && t in v.c.readers && Private(v.c.writers[w]) ==>
          Clean(v, t, v.c.writers[w].node))
  }

  lemma InitShape(v: View)
    requires Init(v)
    ensures Shape(v)
  {}

  // --------------------------------------------------------------------------------------------------------
  // Steps of readers

  /** Nothing a writer owns or reads has changed. */
  predicate SameList(v: View, v': View) {
    && v'.c.next == v.c.next && v'.c.level == v.c.level && v'.c.head == v.c.head && v'.c.epoch == v.c.epoch
    && v'.c.writers == v.c.writers && v'.c.lock == v.c.lock && v'.c.freed == v.c.freed && v'.live == v.live
  }

  /** What one step of a reader does to its own record and path. */
  predicate ReaderMoves(v: View, v': View, t: nat) {
    && v'.c.Wf()
    && t in v'.c.readers && v'.c.readers == v.c.readers[t := v'.c.readers[t]]
    && (forall u :: u in v.c.readers && u != t && u in v.path ==> u in v'.path && v'.path[u] == v.path[u])
    && var r' := v'.c.readers[t];
    && (Traversing(r') ==> t in v'.path)
    && (Traversing(r') && t in v.c.readers ==>
        var r := v.c.readers[t];
        || (r.pc == ReadHead && r'.cur == v.c.head && v'.path[t] == v.live)
        || (Traversing(r) && t in v.path && r'.cur == r.cur && v'.path[t] == v.path[t])
        || (Traversing(r) && t in v.path && r.cur != NULL && v.c.Level(r.cur) != r.key && r'.cur == v.c.Next(r.cur)
            && v'.path[t] == if r'.cur == NULL then [] else Drop1(v.path[t])))
    && (Traversing(r') ==> t in v.c.readers)
  }

  lemma ReadMoves(v: View, t: nat)
    requires v.c.Wf() && t in v.c.readers && (Traversing(v.c.readers[t]) ==> t in v.path) && Enabled(v.c, Read(t))
    ensures SameList(v, Step(v, Read(t))) && ReaderMoves(v, Step(v, Read(t)), t)
  {
    ReadFrame(v.c, t);
    var r, v' := v.c.readers[t], Step(v, Read(t));
    if r.pc == Walk {
    } else if r.pc == ReadHead {
    } else {
      assert v'.path == v.path && v'.c.readers[t].cur == r.cur;
    }
  }

  /** A reader step changes its own record, the flags and the counters. */
  lemma ReadFrame(c: Core, t: nat)
    requires c.Wf() && t in c.readers
    ensures var c' := ReaderNext(c, t);
      && |c'.standing| == 2 && |c'.ready| == |c'.waiters| == LEVELS
      && t in c'.readers && c'.readers == c.readers[t := c'.readers[t]] && c'.readers[t].key == c.readers[t].key
      && c'.readers[t].snap == c.readers[t].snap
      && c' == c.(readers := c'.readers, standing := c'.standing, ready := c'.ready, waiters := c'.waiters)
      && c'.Wf()
  {
    assert forall u :: u in c.readers ==> 0 <= c.readers[u].key < LEVELS;
  }

  lemma OtherMoves(v: View, a: Action)
    requires Enabled(v.c, a) && (a.Enter? || a.Interrupt?)
    ensures SameList(v, Step(v, a)) && ReaderMoves(v, Step(v, a), a.t)
  {}

  lemma MovesKeepReader(v: View, v': View, t: nat)
    requires Shape(v) && SameList(v, v') && ReaderMoves(v, v', t)
    ensures ReaderOk(v', t)
    ensures forall a :: Off(v, a) && Clean(v, t, a) ==> Clean(v', t, a)
  {
    assert Links(v'.c) == Links(v.c);
    if t in v.c.readers {
      assert ReaderOk(v, t);
      if v.c.lock.Held? { assert WriterOk(v, v.c.lock.w); }
    }
  }

  lemma MovesKeepShape(v: View, v': View, t: nat)
    requires Shape(v) && SameList(v, v') && ReaderMoves(v, v', t)
    ensures Shape(v')
  {
    MovesKeepReader(v, v', t);
    assert Links(v'.c) == Links(v.c);
    forall w | w in v'.c.writers ensures WriterOk(v', w) {
      assert WriterOk(v, w);
    }
    forall u | u in v'.c.readers ensures ReaderOk(v', u) {
      if u != t { assert ReaderOk(v, u); }
    }
    forall w, u | w in v'.c.writers && u in v'.c.readers && Private(v'.c.writers[w])
      ensures Clean(v', u, v'.c.writers[w].node)
    {
      var a := v.c.writers[w].node;
      assert WriterOk(v, w);
      if u != t {
        assert Clean(v, u, a) && ReaderOk(v, u);
      } else {
        PrivateStaysClean(v, v', t, w);
      }
    }
  }

  lemma PrivateStaysClean(v: View, v': View, t: nat, w: nat)
    requires Shape(v) && SameList(v, v') && ReaderMoves(v, v', t) && w in v.c.writers && Private(v.c.writers[w])
    ensures Clean(v', t, v.c.writers[w].node)
  {
    assert WriterOk(v, w);
    if t in v.c.readers { assert Clean(v, t, v.c.writers[w].node) && ReaderOk(v, t); }
  }

  // --------------------------------------------------------------------------------------------------------
  // Steps of writers that leave the list alone

  predicate SameMemory(v: View, v': View) {
    && v'.c.next == v.c.next && v'.c.level == v.c.level && v'.c.head == v.c.head
    && v'.c.readers == v.c.readers && v'.c.standing == v.c.standing && v'.live == v.live && v'.path == v.path
  }

  /** Writer w has moved on without a store to the list. */
  predicate WriterMoves(v: View, v': View, w: nat) {
    && v'.c.Wf()
    && w in v.c.writers && w in v'.c.writers && v'.c.writers == v.c.writers[w := v'.c.writers[w]]
    && var x, x' := v.c.writers[w], v'.c.writers[w];
    && x'.op == x.op && x'.node == x.node && x'.gone == x.gone
    && x.pc != Relink && x'.pc != Relink && (Private(x') ==> Private(x))
    && (v'.c.lock == v.c.lock || (v.c.lock == Open && v'.c.lock == Held(w)) || (v.c.lock == Held(w)
          && v'.c.lock == Open))
    && (v'.c.epoch == v.c.epoch || v.c.lock == Held(w))
  }

  predicate Stores(c: Core, x: Writer) {
    match x.pc
    case Look => x.op == Insert || (c.head != NULL && c.Level(c.head) == x.key)
    case Seek => SeekHit(c, x)
    case Relink => true
    case _ => false
  }

  /** A writer's step changes its own record, the memory, the flags and the epoch, not the readers' counters. */
  predicate WriterFrame(c: Core, c': Core, w: nat)
    requires w in c.writers
  {
    && w in c'.writers && c'.writers == c.writers[w := c'.writers[w]]
    && c'.readers == c.readers && c'.standing == c.standing && c'.waiters == c.waiters
    && c'.writers[w].op == c.writers[w].op && c'.writers[w].node == c.writers[w].node
  }

  lemma LookFrame(c: Core, w: nat)
    requires w in c.writers
    ensures WriterFrame(c, LookNext(c, w), w) && LookNext(c, w).epoch == c.epoch
    ensures LookNext(c, w).ready == c.ready && LookNext(c, w).writers[w].key == c.writers[w].key
  {}

  lemma SeekFrame(c: Core, w: nat)
    requires w in c.writers
    ensures WriterFrame(c, SeekNext(c, w), w) && SeekNext(c, w).epoch == c.epoch
    ensures SeekNext(c, w).ready == c.ready && SeekNext(c, w).writers[w].key == c.writers[w].key
  {}

  lemma WriteFrame(c: Core, w: nat)
    requires Enabled(c, Write(w))
    ensures WriterFrame(c, WriterNext(c, w), w)
    ensures c.writers[w].pc != Flip ==> WriterNext(c, w).epoch == c.epoch
  {
    LookFrame(c, w);
    SeekFrame(c, w);
  }

  lemma WriteQuietFrame(c: Core, w: nat)
    requires Enabled(c, Write(w)) && OpPc(c.writers[w]) && !Stores(c, c.writers[w])
    ensures var c' := WriterNext(c, w);
      && w in c'.writers && c'.writers == c.writers[w := c'.writers[w]]
      && c' == c.(writers := c'.writers, lock := c'.lock, epoch := c'.epoch, ready := c'.ready, freed := c'.freed)
      && |c'.ready| == LEVELS
      && c'.writers[w].op == c.writers[w].op && c'.writers[w].node == c.writers[w].node
      && (c'.writers[w].op in {Send, Awake} ==> 0 <= c'.writers[w].key < LEVELS)
      && (c'.writers[w].gone == c.writers[w].gone || c.writers[w].pc == Seek)
  {
    assert c.writers[w].op in {Send, Awake} ==> 0 <= c.writers[w].key < LEVELS;
  }

  lemma WriteQuiet(v: View, w: nat)
    requires Shape(v) && Enabled(v.c, Write(w)) && !Stores(v.c, v.c.writers[w])
    ensures SameMemory(v, Step(v, Write(w))) && WriterMoves(v, Step(v, Write(w)), w)
    ensures WriterOk(Step(v, Write(w)), w)
  {
    assert WriterOk(v, w);
    var v' := Step(v, Write(w));
    WriteQuietFrame(v.c, w);
    assert SameMemory(v, v');
    assert v'.c.Wf();
    assert v'.c.writers[w].gone == v.c.writers[w].gone;
    if v.c.writers[w].pc in {Look, Seek} {
      SearchOk(v, v', w);
    } else {
      PhaseOk(v, v', w);
    }
  }

  /** The search of remove and replace goes on, or ends without a match. */
  lemma SearchOk(v: View, v': View, w: nat)
    requires Shape(v) && Enabled(v.c, Write(w)) && v.c.writers[w].pc in {Look, Seek} && !Stores(v.c, v.c.writers[w])
    requires v'.c == WriterNext(v.c, w) && SameMemory(v, v') && v'.c.Wf()
    ensures WriterMoves(v, v', w) && WriterOk(v', w)
  {
    assert WriterOk(v, w);
    var x := v.c.writers[w];
    if x.pc == Look {
      if v.c.head != NULL { assert v.live[0] == v.c.head; }
    } else if x.elem != NULL {
      ClearAdvance(Links(v.c), v.c.level, v.c.head, v.live, x.elem, x.key);
    }
  }

  lemma PhaseOk(v: View, v': View, w: nat)
    requires Shape(v) && Enabled(v.c, Write(w)) && v.c.writers[w].pc !in {Look, Seek, Relink}
    requires v'.c == WriterNext(v.c, w) && SameMemory(v, v') && v'.c.Wf()
    ensures WriterMoves(v, v', w) && WriterOk(v', w)
  {
    assert WriterOk(v, w);
    PhaseWriterOk(v, v', w);
  }

  lemma PhaseWriterOk(v: View, v': View, w: nat)
    requires Heap(v) && Enabled(v.c, Write(w)) && v.c.writers[w].pc !in {Look, Seek, Relink} && WriterOk(v, w)
    requires v'.c == PhaseNext(v.c, w) && SameMemory(v, v')
    ensures WriterOk(v', w)
  {}

  lemma OthersStayOk(v: View, v': View, w: nat, u: nat)
    requires Shape(v) && SameMemory(v, v') && WriterMoves(v, v', w) && u in v.c.writers && u != w
    ensures u in v'.c.writers && WriterOk(v', u)
  {
    assert WriterOk(v, u) && WriterOk(v, w);
  }

  lemma WriterMovesKeepShape(v: View, v': View, w: nat)
    requires Shape(v) && SameMemory(v, v') && WriterMoves(v, v', w) && WriterOk(v', w)
    ensures Shape(v')
  {
    assert Links(v'.c) == Links(v.c);
    forall u | u in v'.c.writers ensures WriterOk(v', u) {
      if u != w { OthersStayOk(v, v', w, u); }
    }
    forall u | u in v'.c.readers ensures ReaderOk(v', u) {
      assert ReaderOk(v, u);
    }
    forall u, t | u in v'.c.writers && t in v'.c.readers && Private(v'.c.writers[u])
      ensures Clean(v', t, v'.c.writers[u].node)
    {
      assert Clean(v, t, v.c.writers[u].node);
    }
    forall u | u in v'.c.writers && v'.c.writers[u].gone != NULL ensures Off(v', v'.c.writers[u].gone) {
      assert Off(v, v.c.writers[u].gone);
    }
  }

  // --------------------------------------------------------------------------------------------------------
  // Steps of writers that store into the list

  /** Writer w, holding the lock, has changed links; no element enters the list or a path but its own new one. */
  predicate Rewires(v: View, v': View, w: nat) {
    && v'.c.Wf()
    && w in v.c.writers && v.c.lock == Held(w) && w in v'.c.writers
    && v'.c == v.c.(next := v'.c.next, head := v'.c.head, writers := v.c.writers[w := v'.c.writers[w]])
    && v'.c.next.Keys == v.c.next.Keys
    && var x, x' := v.c.writers[w], v'.c.writers[w];
    && InLock(x'.pc) && !Private(x') && x'.node == x.node
    && (forall a :: a in v'.live ==> a in v.live || (Private(x) && a == x.node))
    && (forall u :: u in v.c.writers && u != w && Private(v.c.writers[u]) ==> v'.c.Next(v.c.writers[u].node) == NULL)
    && (x'.gone == x.gone || x'.gone in v.live)
    && x'.gone !in v'.live
    && Chain(Links(v'.c), v'.c.head, v'.live)
    && v'.path.Keys == v.path.Keys
    && (forall t :: t in v.path ==>
          (forall a :: a in v'.path[t] ==> a in v.path[t] || a in v.live || (Private(x) && a == x.node)))
    && (forall t :: t in v.c.readers && Traversing(v.c.readers[t]) ==>
          t in v.path && Chain(Links(v'.c), v.c.readers[t].cur, v'.path[t]))
  }

  lemma RewireKeepsOff(v: View, v': View, w: nat, a: Addr)
    requires Shape(v) && Rewires(v, v', w) && Off(v, a)
    ensures Off(v', a)
    ensures forall t :: t in v.c.readers && Clean(v, t, a) ==> Clean(v', t, a)
  {
    forall t | t in v.c.readers && Clean(v, t, a) ensures Clean(v', t, a) {
      assert ReaderOk(v, t);
    }
  }

  lemma RewireKeepsShape(v: View, v': View, w: nat)
    requires Shape(v) && Rewires(v, v', w) && WriterOk(v', w)
    ensures Shape(v')
  {
    assert WriterOk(v, w);
    forall u | u in v'.c.writers ensures WriterOk(v', u) {
      if u != w { assert WriterOk(v, u); }
    }
    forall u | u in v'.c.writers && v'.c.writers[u].gone != NULL ensures Off(v', v'.c.writers[u].gone) {
      GoneStaysOff(v, v', w, u);
    }
    forall u, t | u in v'.c.writers && t in v'.c.readers && Private(v'.c.writers[u])
      ensures Clean(v', t, v'.c.writers[u].node)
    {
      assert WriterOk(v, u) && Clean(v, t, v.c.writers[u].node);
      if Traversing(v.c.readers[t]) { assert ReaderOk(v, t); }
    }
    forall t | t in v'.c.readers ensures ReaderOk(v', t) {}
  }

  lemma GoneStaysOff(v: View, v': View, w: nat, u: nat)
    requires Shape(v) && Rewires(v, v', w) && u in v'.c.writers && v'.c.writers[u].gone != NULL
    ensures Off(v', v'.c.writers[u].gone)
  {
    var a := v'.c.writers[u].gone;
    if a == v.c.writers[u].gone {
      assert Off(v, a);
      RewireKeepsOff(v, v', w, a);
    } else {
      ChainMember(Links(v.c), v.c.head, v.live, a);
      assert WriterOk(v, w);
      forall q | q in v'.c.writers && Private(v'.c.writers[q]) ensures v'.c.writers[q].node != a {
        assert WriterOk(v, q);
      }
    }
  }

  /** While the lock holder searches, the links are the stored ones. */
  lemma PlainLinks(v: View, w: nat)
    requires Shape(v) && w in v.c.writers && InLock(v.c.writers[w].pc) && v.c.writers[w].pc != Relink
    ensures v.c.lock == Held(w) && Links(v.c) == v.c.next
  {
    assert WriterOk(v, w);
  }

  /** Lines 87-88: the new element goes in front. */
  lemma InsertRewires(v: View, w: nat)
    requires Shape(v) && Enabled(v.c, Write(w)) && v.c.writers[w].pc == Look && v.c.writers[w].op == Insert
    ensures Rewires(v, Step(v, Write(w)), w) && WriterOk(Step(v, Write(w)), w)
  {
    var v', x := Step(v, Write(w)), v.c.writers[w];
    InsertOk(v, v', w);
    PlainLinks(v, w);
    PrivateStore(v, w, v.c.head);
    assert ([x.node] + v.live)[1..] == v.live;
    assert Links(v'.c) == v'.c.next == v.c.next[x.node := v.c.head];
    OtherPrivate(v, w);
    if NULL in v.live { ChainMember(v.c.next, v.c.head, v.live, NULL); }
  }

  lemma InsertOk(v: View, v': View, w: nat)
    requires Shape(v) && w in v.c.writers && v.c.writers[w].pc == Look && v.c.writers[w].op == Insert
    requires v'.c == LookNext(v.c, w)
    ensures WriterOk(v', w) && v.c.lock == Held(w) && Private(v.c.writers[w]) && v.c.writers[w].node in v.c.next
    ensures v'.c.writers[w] == v.c.writers[w].(pc := Flip, grace := v.c.epoch) && v.c.writers[w].gone == NULL
    ensures v'.c == v.c.(next := v.c.next[v.c.writers[w].node := v.c.head], head := v.c.writers[w].node,
                         writers := v.c.writers[w := v'.c.writers[w]])
  {
    assert WriterOk(v, w);
  }

  /** Storing into the private element changes no chain. */
  lemma PrivateStore(v: View, w: nat, q: Addr)
    requires Shape(v) && w in v.c.writers && Private(v.c.writers[w]) && Links(v.c) == v.c.next
    ensures var m := v.c.next[v.c.writers[w].node := q];
      && Chain(m, v.c.head, v.live)
      && forall t :: t in v.c.readers && Traversing(v.c.readers[t]) ==>
           t in v.path && Chain(m, v.c.readers[t].cur, v.path[t])
  {
    var n := v.c.writers[w].node;
    var m := v.c.next[n := q];
    assert WriterOk(v, w);
    ChainFrame(v.c.next, m, v.c.head, v.live);
    forall t | t in v.c.readers && Traversing(v.c.readers[t])
      ensures t in v.path && Chain(m, v.c.readers[t].cur, v.path[t])
    {
      assert ReaderOk(v, t) && Clean(v, t, n);
      ChainFrame(v.c.next, m, v.c.readers[t].cur, v.path[t]);
    }
  }

  /** The elements other writers have allocated but not published are not in the list and differ from w's. */
  lemma OtherPrivate(v: View, w: nat)
    requires Shape(v) && w in v.c.writers && Private(v.c.writers[w])
    ensures forall u :: u in v.c.writers && u != w && Private(v.c.writers[u]) ==>
      v.c.writers[u].node != v.c.writers[w].node && v.c.writers[u].node !in v.live
          && v.c.Next(v.c.writers[u].node) == NULL
  {
    forall u | u in v.c.writers && u != w && Private(v.c.writers[u])
      ensures v.c.writers[u].node !in v.live && v.c.Next(v.c.writers[u].node) == NULL
    {
      assert WriterOk(v, u);
    }
  }

  predicate HeadHit(c: Core, w: nat) {
    && w in c.writers && c.writers[w].pc == Look && c.writers[w].op in {Remove, Send}
    && c.head != NULL && c.Level(c.head) == c.writers[w].key
  }

  /** Lines 123-127: remove takes the first element. */
  lemma HeadRemoveRewires(v: View, v': View, w: nat)
    requires Shape(v) && HeadHit(v.c, w) && v.c.writers[w].op == Remove
    requires v'.c == LookNext(v.c, w) && v'.live == Drop1(v.live) && v'.path == v.path && v'.c.Wf()
    ensures Rewires(v, v', w) && WriterOk(v', w)
  {
    var m := v.c.head;
    assert WriterOk(v, w);
    PlainLinks(v, w);
    assert v.live[0] == m && Chain(v.c.next, v.c.next[m], v.live[1..]);
    ChainNoRepeat(v.c.next, m, v.live, m);
    assert Links(v'.c) == v.c.next;
    forall t | t in v.c.readers && Traversing(v.c.readers[t])
      ensures t in v.path && Chain(Links(v'.c), v.c.readers[t].cur, v'.path[t])
    {
      assert ReaderOk(v, t);
    }
    PrivateNull(v);
  }

  /** Lines 177-182: replace puts its element in the place of the first. */
  lemma HeadSendRewires(v: View, v': View, w: nat)
    requires Shape(v) && HeadHit(v.c, w) && v.c.writers[w].op == Send
    requires v'.c == LookNext(v.c, w) && v'.live == [v.c.writers[w].node] + Drop1(v.live)
    requires v'.path == v.path && v'.c.Wf()
    ensures Rewires(v, v', w) && WriterOk(v', w)
  {
    var x, m := v.c.writers[w], v.c.head;
    HeadSendOk(v, v', w);
    PlainLinks(v, w);
    assert v.live[0] == m && Chain(v.c.next, v.c.next[m], v.live[1..]);
    ChainNoRepeat(v.c.next, m, v.live, m);
    PrivateStore(v, w, v.c.Next(m));
    assert v'.live[1..] == v.live[1..];
    assert Links(v'.c) == v'.c.next == v.c.next[x.node := v.c.Next(m)];
    ChainFrame(v.c.next, v'.c.next, v.c.next[m], v.live[1..]);
    OtherPrivate(v, w);
  }

  lemma HeadSendOk(v: View, v': View, w: nat)
    requires Shape(v) && HeadHit(v.c, w) && v.c.writers[w].op == Send
    requires v'.c == LookNext(v.c, w)
    ensures WriterOk(v', w) && v.c.lock == Held(w) && Private(v.c.writers[w])
    ensures v.c.writers[w].node in v.c.next && v.c.writers[w].node !in v.live
    ensures v'.c.writers[w] == v.c.writers[w].(pc := Flip, gone := v.c.head, grace := v.c.epoch)
    ensures v'.c == v.c.(next := v.c.next[v.c.writers[w].node := v.c.Next(v.c.head)], head := v.c.writers[w].node,
                         writers := v.c.writers[w := v'.c.writers[w]])
  {
    assert WriterOk(v, w);
  }

  lemma PrivateNull(v: View)
    requires Shape(v)
    ensures forall u :: u in v.c.writers && Private(v.c.writers[u]) ==> v.c.Next(v.c.writers[u].node) == NULL
    ensures forall u :: u in v.c.writers && Private(v.c.writers[u]) ==> v.c.writers[u].node !in v.live
  {
    forall u | u in v.c.writers && Private(v.c.writers[u])
      ensures v.c.Next(v.c.writers[u].node) == NULL && v.c.writers[u].node !in v.live
    {
      assert WriterOk(v, u);
    }
  }

  /** What the search of writer w has found: gone = the first match, followed by rest. */
  lemma SeekFinds(v: View, w: nat) returns (gone: Addr, rest: seq<Addr>)
    requires Shape(v) && w in v.c.writers && v.c.writers[w].pc == Seek && SeekHit(v.c, v.c.writers[w])
    ensures var x := v.c.writers[w];
      && Links(v.c) == v.c.next && x.elem in v.live && Clear(v.c.level, v.live, x.elem, x.key)
      && x.elem in v.c.next && gone == v.c.next[x.elem] && gone in v.c.next && gone != NULL
      && Suffix(v.live, x.elem) == [gone] + rest && Drop1(Suffix(v.live, x.elem)) == rest
      && Chain(v.c.next, v.c.next[gone], rest)
      && gone in v.live && gone != x.elem && gone !in rest && x.elem !in rest
      && (forall a :: a in rest ==> a in v.live)
  {
    var x := v.c.writers[w];
    assert WriterOk(v, w);
    PlainLinks(v, w);
    ClearSuffix(v.c.level, v.live, x.elem, x.key);
    ChainSuffix(v.c.next, v.c.head, v.live, x.elem);
    ChainNoRepeat(v.c.next, v.c.head, v.live, x.elem);
    gone := v.c.next[x.elem];
    var s := Suffix(v.live, x.elem);
    rest := s[1..];
    assert s[0] == gone && s == [gone] + rest;
    ChainNoRepeat(v.c.next, gone, s, gone);
  }

  predicate SeekStep(v: View, v': View, w: nat)
    requires w in v.c.writers
  {
    && v.c.writers[w].pc == Seek && SeekHit(v.c, v.c.writers[w])
    && v'.c == SeekNext(v.c, w) && v'.c.Wf()
    && v'.live == Reroute(v.live, v.c.writers[w].elem, NewTail(v.live, v.c.writers[w]))
    && v'.path == map t | t in v.path :: Reroute(v.path[t], v.c.writers[w].elem, NewTail(v.live, v.c.writers[w]))
  }

  /** Lines 130-132: remove unlinks its match. */
  lemma SeekRemoveRewires(v: View, v': View, w: nat)
    requires Shape(v) && w in v.c.writers && v.c.writers[w].op == Remove && SeekStep(v, v', w)
    ensures Rewires(v, v', w) && WriterOk(v', w)
  {
    var gone, rest := SeekFinds(v, w);
    SeekRemoveOk(v, v', w, gone);
    SeekRemovePaths(v, v', w, gone, rest);
    PrivateNull(v);
  }

  lemma SeekRemoveOk(v: View, v': View, w: nat, gone: Addr)
    requires Shape(v) && w in v.c.writers && v.c.writers[w].op == Remove && SeekStep(v, v', w)
    requires gone == v.c.Next(v.c.writers[w].elem) && v.c.writers[w].elem in v.c.next && gone in v.c.next
    ensures WriterOk(v', w) && v.c.lock == Held(w)
    ensures v'.c.writers[w].gone == gone && InLock(v'.c.writers[w].pc) && !Private(v'.c.writers[w])
    ensures v'.c.writers[w].node == v.c.writers[w].node && v'.c.writers[w].pc == DrainOther
    ensures v'.c == v.c.(next := v.c.next[v.c.writers[w].elem := v.c.next[gone]],
        writers := v.c.writers[w := v'.c.writers[w]])
  {
    assert WriterOk(v, w);
  }

  lemma SeekRemovePaths(v: View, v': View, w: nat, gone: Addr, rest: seq<Addr>)
    requires Shape(v) && w in v.c.writers && v.c.writers[w].op == Remove && SeekStep(v, v', w)
    requires var x := v.c.writers[w];
      && Links(v.c) == v.c.next && x.elem in v.c.next && gone == v.c.next[x.elem] && gone in v.c.next
      && x.elem in v.live && Suffix(v.live, x.elem) == [gone] + rest && Drop1(Suffix(v.live, x.elem)) == rest
      && Chain(v.c.next, v.c.next[gone], rest)
      && gone in v.live && gone !in rest && x.elem !in rest && (forall a :: a in rest ==> a in v.live)
    ensures Chain(Links(v'.c), v'.c.head, v'.live) && gone !in v'.live && v'.path.Keys == v.path.Keys
    ensures forall t :: t in v.c.readers && Traversing(v.c.readers[t]) ==>
      t in v.path && Chain(Links(v'.c), v.c.readers[t].cur, v'.path[t])
    ensures forall a :: a in v'.live ==> a in v.live
    ensures forall t :: t in v.path ==> forall a :: a in v'.path[t] ==> a in v.path[t] || a in v.live
  {
    var x, q := v.c.writers[w], v.c.next[gone];
    SeekRemoveOk(v, v', w, gone);
    assert Links(v'.c) == v'.c.next == v.c.next[x.elem := q];
    ChainFrame(v.c.next, v'.c.next, q, rest);
    AllPaths(v);
    RewirePaths(v, v', w, v.c.next, q, rest);
    NotRerouted(v.c.next, v.c.head, v.live, x.elem, gone, rest);
  }

  lemma AllPaths(v: View)
    requires Shape(v)
    ensures forall t :: t in v.c.readers && Traversing(v.c.readers[t]) ==>
      t in v.path && Chain(Links(v.c), v.c.readers[t].cur, v.path[t])
  {
    forall t | t in v.c.readers && Traversing(v.c.readers[t])
      ensures t in v.path && Chain(Links(v.c), v.c.readers[t].cur, v.path[t])
    {
      assert ReaderOk(v, t);
    }
  }

  /** The old successor of e is not in the rerouted chain. */
  lemma {:induction false} NotRerouted(m: map<Addr, Addr>, p: Addr, xs: seq<Addr>, e: Addr, gone: Addr, tail: seq<Addr>)
    requires Chain(m, p, xs) && e in xs && Suffix(xs, e) != [] && Suffix(xs, e)[0] == gone
    requires gone !in tail
    ensures gone !in Reroute(xs, e, tail)
    decreases |xs|
  {
    if xs[0] == e {
      ChainNoRepeat(m, p, xs, e);
      assert gone in Suffix(xs, e);
    } else {
      ChainSuffix(m, m[p], xs[1..], e);
      ChainNoRepeat(m, p, xs, xs[0]);
      assert gone in Suffix(xs[1..], e);
      NotRerouted(m, m[p], xs[1..], e, gone, tail);
    }
  }

  /** The store to elem's next reroutes the list and every reader's path in the same way. */
  lemma RewirePaths(v: View, v': View, w: nat, m: map<Addr, Addr>, q: Addr, tail: seq<Addr>)
    requires Shape(v) && w in v.c.writers && v.c.writers[w].elem != NULL
    requires Chain(m, v.c.head, v.live)
    requires forall t :: t in v.c.readers && Traversing(v.c.readers[t]) ==>
      t in v.path && Chain(m, v.c.readers[t].cur, v.path[t])
    requires Chain(m[v.c.writers[w].elem := q], q, tail)
    requires v'.live == Reroute(v.live, v.c.writers[w].elem, tail)
    requires v'.path == map t | t in v.path :: Reroute(v.path[t], v.c.writers[w].elem, tail)
    ensures var m' := m[v.c.writers[w].elem := q];
      && Chain(m', v.c.head, v'.live)
      && forall t :: t in v.c.readers && Traversing(v.c.readers[t]) ==>
           t in v.path && Chain(m', v.c.readers[t].cur, v'.path[t])
    ensures forall a :: a in v'.live ==> a in v.live || a in tail
    ensures forall t :: t in v.path ==> forall a :: a in v'.path[t] ==> a in v.path[t] || a in tail
  {
    var e := v.c.writers[w].elem;
    ChainReroute(m, v.c.head, v.live, e, q, tail);
    forall t | t in v.c.readers && Traversing(v.c.readers[t])
      ensures t in v.path && Chain(m[e := q], v.c.readers[t].cur, v'.path[t])
    {
      ChainReroute(m, v.c.readers[t].cur, v.path[t], e, q, tail);
    }
    forall a | a in v'.live ensures a in v.live || a in tail { RerouteMembers(v.live, e, tail, a); }
    forall t, a | t in v.path && a in v'.path[t] ensures a in v.path[t] || a in tail {
      RerouteMembers(v.path[t], e, tail, a);
    }
  }

  /** Line 188: replace publishes its element; with line 189 taken as done, the list is the swapped one. */
  lemma SeekSendRewires(v: View, v': View, w: nat)
    requires Shape(v) && w in v.c.writers && v.c.writers[w].op == Send && SeekStep(v, v', w)
    ensures Rewires(v, v', w) && WriterOk(v', w)
  {
    var gone, rest := SeekFinds(v, w);
    SeekSendPaths(v, v', w, gone, rest);
    SeekSendOk(v, v', w, gone);
    SeekSendFrame(v, v', w);
  }

  lemma SeekSendOk(v: View, v': View, w: nat, gone: Addr)
    requires Shape(v) && w in v.c.writers && v.c.writers[w].op == Send && SeekStep(v, v', w)
    requires gone == v.c.Next(v.c.writers[w].elem) && gone != NULL && v.c.writers[w].node in v'.live
    requires v.c.writers[w].elem in v.live
    ensures WriterOk(v', w) && v.c.lock == Held(w) && Private(v.c.writers[w])
    ensures v'.c.writers[w].gone == gone && InLock(v'.c.writers[w].pc) && !Private(v'.c.writers[w])
    ensures v'.c == v.c.(next := v.c.next[v.c.writers[w].elem := v.c.writers[w].node],
        writers := v.c.writers[w := v'.c.writers[w]])
  {
    assert WriterOk(v, w);
  }

  lemma SeekSendFrame(v: View, v': View, w: nat)
    requires Shape(v) && w in v.c.writers && Private(v.c.writers[w]) && v.c.writers[w].elem in v.live
    requires v'.c.next == v.c.next[v.c.writers[w].elem := v.c.writers[w].node] && v.c.writers[w].elem in v.c.next
    ensures v'.c.next.Keys == v.c.next.Keys
    ensures forall u :: u in v.c.writers && u != w && Private(v.c.writers[u]) ==> v'.c.Next(v.c.writers[u].node) == NULL
  {
    OtherPrivate(v, w);
  }

  lemma SeekSendLinks(v: View, v': View, w: nat, gone: Addr)
    requires Shape(v) && w in v.c.writers && v.c.writers[w].op == Send && SeekStep(v, v', w)
    requires var x := v.c.writers[w];
      x.elem in v.c.next && gone == v.c.next[x.elem] && gone in v.c.next && gone != x.elem && x.elem in v.live
          && gone in v.live
    ensures var x := v.c.writers[w];
      && Private(x) && x.node !in v.live && x.node in v.c.next && v'.c.head == v.c.head
      && Links(v'.c) == v.c.next[x.node := v.c.next[gone]][x.elem := x.node]
  {
    var x := v.c.writers[w];
    assert WriterOk(v, w);
    assert Links(v'.c) == v.c.next[x.elem := x.node][x.node := v.c.next[gone]];
  }

  lemma SeekSendPaths(v: View, v': View, w: nat, gone: Addr, rest: seq<Addr>)
    requires Shape(v) && w in v.c.writers && v.c.writers[w].op == Send && SeekStep(v, v', w)
    requires var x := v.c.writers[w];
      && Links(v.c) == v.c.next && x.elem in v.c.next && gone == v.c.next[x.elem] && gone in v.c.next
      && x.elem in v.live && Suffix(v.live, x.elem) == [gone] + rest && Chain(v.c.next, v.c.next[gone], rest)
      && gone in v.live && gone != x.elem && gone !in rest && x.elem !in rest && (forall a :: a in rest ==> a in v.live)
    ensures var x := v.c.writers[w];
      && Chain(Links(v'.c), v'.c.head, v'.live)
      && (forall t :: t in v.c.readers && Traversing(v.c.readers[t]) ==>
            t in v.path && Chain(Links(v'.c), v.c.readers[t].cur, v'.path[t]))
      && (forall a :: a in v'.live ==> a in v.live || a == x.node)
      && (forall t :: t in v.path ==> forall a :: a in v'.path[t] ==> a in v.path[t] || a in v.live || a == x.node)
      && gone !in v'.live && x.node in v'.live
  {
    var x := v.c.writers[w];
    var q, tail := v.c.next[gone], [x.node] + rest;
    var m := v.c.next[x.node := q];
    var m' := m[x.elem := x.node];
    SeekSendLinks(v, v', w, gone);
    PrivateStore(v, w, q);
    assert tail[1..] == rest && Drop1([gone] + rest) == rest;
    ChainFrame(v.c.next, m', q, rest);
    RewirePaths(v, v', w, m, x.node, tail);
    NotRerouted(v.c.next, v.c.head, v.live, x.elem, gone, tail);
    RerouteIdle(v.live, x.elem, tail);
    assert x.node in tail;
  }

  /** Line 189 completes the swap that Links has anticipated. */
  lemma RelinkRewires(v: View, w: nat)
    requires Shape(v) && Enabled(v.c, Write(w)) && v.c.writers[w].pc == Relink
    ensures Rewires(v, Step(v, Write(w)), w) && WriterOk(Step(v, Write(w)), w)
  {
    var v', x := Step(v, Write(w)), v.c.writers[w];
    assert WriterOk(v, w);
    assert Links(v'.c) == v'.c.next == Links(v.c);
    assert Off(v, x.gone);
    forall t | t in v.c.readers && Traversing(v.c.readers[t])
      ensures t in v.path && Chain(Links(v'.c), v.c.readers[t].cur, v'.path[t])
    {
      assert ReaderOk(v, t);
    }
    forall u | u in v.c.writers && u != w && Private(v.c.writers[u]) ensures v'.c.Next(v.c.writers[u].node) == NULL {
      assert WriterOk(v, u);
    }
  }

  lemma StoreWf(c: Core, w: nat)
    requires Enabled(c, Write(w)) && Stores(c, c.writers[w])
    ensures WriterNext(c, w).Wf()
  {
    LookFrame(c, w);
    SeekFrame(c, w);
  }

  lemma StoreRewires(v: View, w: nat)
    requires Shape(v) && Enabled(v.c, Write(w)) && Stores(v.c, v.c.writers[w])
    ensures Rewires(v, Step(v, Write(w)), w) && WriterOk(Step(v, Write(w)), w)
  {
    var x, v' := v.c.writers[w], Step(v, Write(w));
    assert WriterOk(v, w);
    StoreWf(v.c, w);
    if x.pc == Relink { RelinkRewires(v, w); }
    else if x.pc == Look && x.op == Insert { InsertRewires(v, w); }
    else if x.pc == Look && x.op == Remove { assert v'.live == Drop1(v.live); HeadRemoveRewires(v, v', w); }
    else if x.pc == Look { HeadSendRewires(v, v', w); }
    else if x.op == Remove { SeekRemoveRewires(v, v', w); }
    else { SeekSendRewires(v, v', w); }
  }

  // --------------------------------------------------------------------------------------------------------

  /** A new call: its element, if it has one, is fresh. */
  lemma StartShape(v: View, a: Action)
    requires Shape(v) && a.Start? && Enabled(v.c, a)
    ensures Shape(Step(v, a))
  {
    var v' := Step(v, a);
    forall b | b in v.live ensures b in v.c.next { ChainMember(Links(v.c), v.c.head, v.live, b); }
    forall u | u in v.c.writers ensures WriterOk(v', u) && WriterOk(v, u) {
      StartKeepsWriter(v, a, u);
    }
    StartKeepsPaths(v, a);
    StartKeepsOrder(v, a);
    StartWriterOk(v, a);
    forall u | u in v'.c.writers && v'.c.writers[u].gone != NULL ensures Off(v', v'.c.writers[u].gone) {
      assert Off(v, v.c.writers[u].gone);
    }
    StartKeepsPrivate(v, a);
  }

  lemma StartKeepsOrder(v: View, a: Action)
    requires Shape(v) && a.Start? && Enabled(v.c, a)
    requires forall u :: u in v.c.writers ==> WriterOk(v, u)
    ensures var v' := Step(v, a);
      forall w, u :: w in v'.c.writers && u in v'.c.writers && w != u && Private(v'.c.writers[w])
          && Private(v'.c.writers[u])
        ==> v'.c.writers[w].node != v'.c.writers[u].node
  {
    var v' := Step(v, a);
    forall w, u | w in v'.c.writers && u in v'.c.writers && w != u && Private(v'.c.writers[w])
        && Private(v'.c.writers[u])
      ensures v'.c.writers[w].node != v'.c.writers[u].node
    {
      if w == a.w { assert WriterOk(v, u); }
      else if u == a.w { assert WriterOk(v, w); }
    }
  }

  lemma StartWriterOk(v: View, a: Action)
    requires Shape(v) && a.Start? && Enabled(v.c, a)
    requires forall b :: b in v.live ==> b in v.c.next
    ensures Step(v, a).c.Wf() && WriterOk(Step(v, a), a.w)
  {
    var v' := Step(v, a);
    assert v'.c.lock == v.c.lock && v'.live == v.live && v'.path == v.path && a.w in v'.c.writers;
    if a.op in {Insert, Send} { assert v'.c.Next(a.node) == NULL && v'.c.Level(a.node) == a.key; }
    StartedOk(v, v', a.w);
  }

  lemma StartedOk(v: View, v': View, w: nat)
    requires Heap(v) && w !in v.c.writers && w in v'.c.writers
    requires v'.live == v.live && v'.c.lock == v.c.lock
    requires var x := v'.c.writers[w];
      && x.pc == (if x.op == Awake then Raise else Acquire) && x.gone == NULL
      && (x.op in {Insert, Send} ==>
            x.node !in v.live && x.node in v'.c.next && v'.c.Next(x.node) == NULL && v'.c.Level(x.node) == x.key)
    ensures WriterOk(v', w)
  {}

  lemma StartKeepsPaths(v: View, a: Action)
    requires Shape(v) && a.Start? && Enabled(v.c, a)
    ensures var v' := Step(v, a);
      Chain(Links(v'.c), v'.c.head, v'.live) && forall t :: t in v'.c.readers ==> ReaderOk(v', t)
  {
    var v' := Step(v, a);
    assert v.c.lock.Held? ==> WriterOk(v, v.c.lock.w);
    ChainFrame(Links(v.c), Links(v'.c), v.c.head, v.live);
    forall t | t in v'.c.readers ensures ReaderOk(v', t) {
      assert ReaderOk(v, t);
      if Traversing(v.c.readers[t]) { ChainFrame(Links(v.c), Links(v'.c), v.c.readers[t].cur, v.path[t]); }
    }
  }

  lemma StartKeepsPrivate(v: View, a: Action)
    requires Shape(v) && a.Start? && Enabled(v.c, a)
    ensures var v' := Step(v, a);
      forall u, t :: u in v'.c.writers && t in v'.c.readers && Private(v'.c.writers[u]) ==>
        Clean(v', t, v'.c.writers[u].node)
  {
    var v' := Step(v, a);
    forall u, t | u in v'.c.writers && t in v'.c.readers && Private(v'.c.writers[u])
      ensures Clean(v', t, v'.c.writers[u].node)
    {
      assert ReaderOk(v, t);
      if u != a.w { assert Clean(v, t, v.c.writers[u].node); }
      else if Traversing(v.c.readers[t]) && a.node in v.path[t] {
        assert v.c.lock.Held? ==> WriterOk(v, v.c.lock.w);
        ChainMember(Links(v.c), v.c.readers[t].cur, v.path[t], a.node);
      }
    }
  }

  lemma StartKeepsWriter(v: View, a: Action, u: nat)
    requires Shape(v) && a.Start? && Enabled(v.c, a) && u in v.c.writers
    requires forall b :: b in v.live ==> b in v.c.next
    ensures WriterOk(v, u) && WriterOk(Step(v, a), u)
  {
    var v' := Step(v, a);
    assert WriterOk(v, u);
    forall b | b in v.live ensures LevelOf(v'.c.level, b) == LevelOf(v.c.level, b) {}
    FirstFrame(v.c.level, v'.c.level, v.live, v.c.writers[u].key);
  }

  /** Every step keeps the structural invariant. */
  lemma StepKeepsShape(v: View, a: Action)
    requires Shape(v) && Enabled(v.c, a)
    ensures Shape(Step(v, a))
  {
    var v' := Step(v, a);
    match a
    case Enter(t, _) => OtherMoves(v, a); MovesKeepShape(v, v', t);
    case Interrupt(t) => OtherMoves(v, a); MovesKeepShape(v, v', t);
    case Read(t) =>
      assert ReaderOk(v, t);
      ReadMoves(v, t);
      MovesKeepShape(v, v', t);
    case Start(_, _, _, _) => StartShape(v, a);
    case Write(w) =>
      if Stores(v.c, v.c.writers[w]) {
        StoreRewires(v, w);
        RewireKeepsShape(v, v', w);
      } else {
        WriteQuiet(v, w);
        WriterMovesKeepShape(v, v', w);
      }
  }

  lemma {:induction false} RunShape(vs: seq<View>, acts: seq<Action>, n: nat)
    requires Run(vs, acts) && n < |vs|
    ensures Shape(vs[n])
  {
    if n == 0 {
      InitShape(vs[0]);
    } else {
      RunShape(vs, acts, n - 1);
      ShapeNext(vs, acts, n - 1);
    }
  }

  lemma ShapeNext(vs: seq<View>, acts: seq<Action>, n: nat)
    requires Run(vs, acts) && n < |acts| && Shape(vs[n])
    ensures Shape(vs[n + 1])
  {
    RunStep(vs, acts, n);
    StepKeepsShape(vs[n], acts[n]);
  }

  lemma RunStep(vs: seq<View>, acts: seq<Action>, n: nat)
    requires Run(vs, acts) && n < |acts|
    ensures Enabled(vs[n].c, acts[n]) && vs[n + 1] == Step(vs[n], acts[n])
  {
    assert Taken(acts, n) == acts[n];
  }

  /** A run can go on with any enabled action. */
  lemma Extend(vs: seq<View>, acts: seq<Action>, a: Action)
    requires Run(vs, acts) && Enabled(vs[|acts|].c, a)
    ensures Run(vs + [Step(vs[|acts|], a)], acts + [a])
  {
    var vs', acts' := vs + [Step(vs[|acts|], a)], acts + [a];
    forall i | 0 <= i < |acts'|
      ensures Enabled(vs'[i].c, Taken(acts', i)) && vs'[i + 1] == Step(vs'[i], Taken(acts', i))
    {
      if i < |acts| {
        RunStep(vs, acts, i);
        assert vs'[i] == vs[i] && vs'[i + 1] == vs[i + 1] && Taken(acts', i) == acts[i];
      }
    }
  }

  /** The history variables constrain nothing: every run of cores is the core part of a run of views. */
  lemma {:induction false} RunsLift(cs: seq<Core>, acts: seq<Action>, live: seq<Addr>) returns (vs: seq<View>)
    requires |cs| == |acts| + 1 && Init(View(cs[0], live, map[]))
    requires forall i :: 0 <= i < |acts| ==> Enabled(cs[i], acts[i]) && cs[i + 1] == Apply(cs[i], acts[i])
    ensures Run(vs, acts) && forall i :: 0 <= i < |cs| ==> vs[i].c == cs[i]
    decreases |acts|
  {
    if acts == [] {
      vs := [View(cs[0], live, map[])];
    } else {
      var n := |acts| - 1;
      var us := RunsLift(cs[..n + 1], acts[..n], live);
      Extend(us, acts[..n], acts[n]);
      vs := us + [Step(us[n], acts[n])];
      assert acts[..n] + [acts[n]] == acts;
    }
  }
}
