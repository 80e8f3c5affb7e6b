// The epoch list of rcu-list.c as a machine of small steps: any number of readers and writers, each with its
// own program counter, over one shared memory. Steps are sequentially consistent.
module EpochMachine {
  import opened Sizes

  type Addr = nat
  const NULL: Addr := 0

  type Bit = b: nat | b < 2

  /** Program counters of rcu_list_search, in the order of its lines. */
  datatype RPc =
    | Reset | Count | Test | Parked | Register | ReadHead | Walk | Leave | Uncount | Returned
    | IntrLeave | IntrUncount | IntrReturned

  datatype Reader = Reader(key: int, snap: Bit, pc: RPc, cur: Addr)

  /** Send is rcu_list_replace as tag_send calls it; Awake is the loop of AWAKE_ALL, which takes no list lock. */
  datatype Op = Insert | Remove | Send | Awake

  datatype WPc =
    | Acquire | Look | Seek | Relink | DrainOther | Flip | Drain | Unlock | Free | Check | Raise
    | Finished | Leaked

  datatype Writer = Writer(op: Op, key: int, pc: WPc, node: Addr, elem: Addr, gone: Addr, grace: Bit)

  datatype Lock = Open | Held(w: nat)

  datatype Core = Core(
    next: map<Addr, Addr>,
    level: map<Addr, int>,
    head: Addr,
    freed: set<Addr>,
    epoch: Bit,
    standing: seq<int>,
    ready: seq<bool>,
    waiters: seq<int>,
    readers: map<nat, Reader>,
    writers: map<nat, Writer>,
    lock: Lock)
  {
    /** The array sizes of the C structure, and the index ranges its callers keep. */
    predicate Wf() {
      && |standing| == 2 && |ready| == LEVELS && |waiters| == LEVELS
      && (forall t :: t in readers ==> 0 <= readers[t].key < LEVELS)
      && (forall w :: w in writers && writers[w].op in {Send, Awake} ==> 0 <= writers[w].key < LEVELS)
    }

    function Next(a: Addr): Addr { if a in next then next[a] else NULL }

    function Level(a: Addr): int { LevelOf(level, a) }
  }

  function LevelOf(level: map<Addr, int>, a: Addr): int { if a in level then level[a] else 0 }

  datatype Action =
    | Enter(t: nat, key: int)                       // line 35: the epoch is sampled on entry
    | Read(t: nat)                                  // the next step of reader t
    | Interrupt(t: nat)                             // line 41: a signal ends the wait
    | Start(w: nat, op: Op, key: int, node: Addr)   // a writer call, its element allocated
    | Write(w: nat)                                 // the next step of writer w

  predicate Enabled(c: Core, a: Action) {
    c.Wf() &&
    match a
    case Enter(t, key) => t !in c.readers && 0 <= key < LEVELS
    case Read(t) =>
      && t in c.readers && c.readers[t].pc !in {Returned, IntrReturned}
      && (c.readers[t].pc == Parked ==> c.ready[c.readers[t].key])
    case Interrupt(t) => t in c.readers && c.readers[t].pc == Parked && !c.ready[c.readers[t].key]
    case Start(w, op, key, node) =>
      && w !in c.writers
      && (if op in {Insert, Send} then node != NULL && node !in c.next else node == NULL)
      && (op == Send ==> 0 <= key < LEVELS)
      && (op == Awake ==> key == 0)
    case Write(w) =>
      && w in c.writers
      && match c.writers[w].pc
         case Acquire => c.lock.Open?
         case DrainOther => c.standing[1 - c.writers[w].grace] <= 0
         case Drain => c.standing[c.writers[w].grace] <= 0
         case Finished | Leaked => false
         case _ => true
  }

  function Apply(c: Core, a: Action): Core
    requires Enabled(c, a)
  {
    match a
    case Enter(t, key) => c.(readers := c.readers[t := Reader(key, c.epoch, Reset, NULL)])
    case Read(t) => ReaderNext(c, t)
    case Interrupt(t) => SetReader(c, t, c.readers[t].(pc := IntrLeave))
    case Start(w, op, key, node) =>
      var pc := if op == Awake then Raise else Acquire;
      var c' := c.(writers := c.writers[w := Writer(op, key, pc, node, NULL, NULL, 0)]);
      if op in {Insert, Send} then c'.(next := c.next[node := NULL], level := c.level[node := key]) else c'
    case Write(w) => WriterNext(c, w)
  }

  function SetReader(c: Core, t: nat, r: Reader): Core {
    c.(readers := c.readers[t := r])
  }

  function SetWriter(c: Core, w: nat, x: Writer): Core {
    c.(writers := c.writers[w := x])
  }

  /** rcu_list_search, one step at a time: where the reader goes, and what it does to the flag and the counters. */
  function ReaderNext(c: Core, t: nat): Core
    requires c.Wf() && t in c.readers
  {
    var r := c.readers[t];
    c.(readers := c.readers[t := ReaderMove(c, r)],
       ready := if r.pc == Reset then c.ready[r.key := false] else c.ready,
       waiters := Add(c.waiters, r.key, if r.pc == Count then 1 else if r.pc in {Uncount, IntrUncount} then -1 else 0),
       standing := Add(c.standing, r.snap, if r.pc == Register then 1 else if r.pc in {Leave,
           IntrLeave} then -1 else 0))
  }

  function Add(s: seq<int>, i: nat, d: int): seq<int>
    requires i < |s|
  {
    s[i := s[i] + d]
  }

  function ReaderMove(c: Core, r: Reader): Reader
    requires c.Wf() && 0 <= r.key < LEVELS
  {
    match r.pc
    case Reset => r.(pc := Count)                                             // line 38
    case Count => r.(pc := Test)                                              // line 39
    case Test => r.(pc := if c.ready[r.key] then Register else Parked)        // line 40, first look at the flag
    case Parked => r.(pc := Register)                                         // line 40, woken
    case Register => r.(pc := ReadHead)                                       // line 46
    case ReadHead => r.(pc := Walk, cur := c.head)                            // line 48
    case Walk =>                                                              // lines 50-55
      if r.cur == NULL || c.Level(r.cur) == r.key then r.(pc := Leave)
      else r.(cur := c.Next(r.cur))
    case Leave => r.(pc := Uncount)                                           // line 56
    case Uncount => r.(pc := Returned)                                        // line 57
    case IntrLeave => r.(pc := IntrUncount)                                   // line 42
    case IntrUncount => r.(pc := IntrReturned)                                // line 43
    case Returned | IntrReturned => r
  }

  /** rcu_list_insert, rcu_list_remove, rcu_list_replace with the wake-up of tag_send, and AWAKE_ALL. */
  function WriterNext(c: Core, w: nat): Core
    requires c.Wf() && w in c.writers
  {
    var x := c.writers[w];
    if x.pc == Look then LookNext(c, w)
    else if x.pc == Seek then SeekNext(c, w)
    else if x.pc == Relink then SetWriter(c, w, x.(pc := Flip)).(next := c.next[x.node := c.Next(x.gone)])  // line 189
    else PhaseNext(c, w)
  }

  /** The steps that leave the list alone. */
  function PhaseNext(c: Core, w: nat): Core
    requires c.Wf() && w in c.writers
  {
    var x := c.writers[w];
    c.(writers := c.writers[w := PhaseMove(c, x)],
       lock := if x.pc == Acquire then Held(w) else if x.pc == Unlock then Open else c.lock,
       epoch := if x.pc == Flip then 1 - GraceOf(c, x) else c.epoch,
       freed := if x.pc == Free && x.gone != NULL then c.freed + {x.gone} else c.freed,
       ready := if x.pc == Raise && 0 <= x.key < LEVELS then c.ready[x.key := true] else c.ready)
  }

  /** Remove has read the epoch before its first drain (line 139), the others read it here (lines 94, 198). */
  function GraceOf(c: Core, x: Writer): Bit {
    if x.op == Remove then x.grace else c.epoch
  }

  function PhaseMove(c: Core, x: Writer): Writer {
    match x.pc
    case Acquire => x.(pc := Look)
    case DrainOther => x.(pc := Flip)                                         // line 142
    case Flip => x.(pc := Drain, grace := GraceOf(c, x))                      // lines 94-97, 143, 198-203
    case Drain => x.(pc := Unlock)                                            // lines 101, 146, 209
    case Unlock => x.(pc := if x.op == Insert then Finished else Free)
    case Free => x.(pc := if x.op == Send && x.gone != NULL then Check else Finished)
    case Check => x.(pc := if HasSleepers(c, x.key) then Raise else Finished)
    case Raise =>  // line 255, and lines 371-374 level by level
      if x.op == Awake && x.key + 1 < LEVELS then x.(key := x.key + 1) else x.(pc := Finished)
    case _ => x
  }

  /** The list has been updated: remove reads the epoch now (line 139), the others when they flip it. */
  function Updated(c: Core, x: Writer, gone: Addr): Writer {
    x.(pc := if x.op == Remove then DrainOther else Flip, gone := gone, grace := c.epoch)
  }

  /** Lines 87-88, 123-127 and 174-182: the part of the update that looks at the head only. */
  function LookNext(c: Core, w: nat): Core
    requires w in c.writers
  {
    var x := c.writers[w];
    if x.op == Insert then
      SetWriter(c, w, Updated(c, x, NULL)).(next := c.next[x.node := c.head], head := x.node)
    else if c.head != NULL && c.Level(c.head) == x.key then
      var c' := SetWriter(c, w, Updated(c, x, c.head));
      if x.op == Remove then c'.(head := c.Next(c.head))
      else c'.(next := c.next[x.node := c.Next(c.head)], head := x.node)
    else if c.head == NULL && x.op == Send then
      SetWriter(c, w, x.(pc := Leaked))
    else
      SetWriter(c, w, x.(pc := Seek, elem := c.head))
  }

  /** Lines 129-136 and 184-197: one turn of the search loop, with the store that unlinks or publishes. */
  function SeekNext(c: Core, w: nat): Core
    requires w in c.writers
  {
    var x := c.writers[w];
    if x.elem == NULL then
      SetWriter(c, w, if x.op == Remove then Updated(c, x, NULL) else x.(pc := Leaked))
    else if SeekHit(c, x) then
      var m := c.Next(x.elem);
      if x.op == Remove then SetWriter(c, w, Updated(c, x, m)).(next := c.next[x.elem := c.Next(m)])
      else SetWriter(c, w, x.(pc := Relink, gone := m)).(next := c.next[x.elem := x.node])
    else
      SetWriter(c, w, x.(elem := c.Next(x.elem)))
  }

  predicate SeekHit(c: Core, x: Writer) {
    x.elem != NULL && c.Next(x.elem) != NULL && c.Level(c.Next(x.elem)) == x.key
  }

  /** waitqueue_active on the queue of one level. */
  predicate HasSleepers(c: Core, key: int) {
    exists t :: t in c.readers && c.readers[t].pc == Parked && c.readers[t].key == key
  }

  // --------------------------------------------------------------------------------------------------------
  // What the program counters mean

  /** Counted in standing[snap]: after line 46 and before line 56. */
  predicate Registered(r: Reader) { r.pc in {ReadHead, Walk, Leave} }

  /** Has read the head and may still touch its cursor. */
  predicate Traversing(r: Reader) { r.pc in {Walk, Leave} }

  predicate InLock(pc: WPc) { pc in {Look, Seek, Relink, DrainOther, Flip, Drain, Unlock, Leaked} }

  /** The new element is not yet reachable by anyone else. */
  predicate Private(x: Writer) { x.op in {Insert, Send} && x.pc in {Acquire, Look, Seek} }

  /** A writer waiting for standing[b] to drain (lines 101, 142, 146, 209). */
  predicate SpinsOn(x: Writer, b: Bit) {
    || (x.pc == DrainOther && b == 1 - x.grace)
    || (x.pc == Drain && b == x.grace)
  }

  predicate OpPc(x: Writer) {
    match x.pc
    case Acquire | Look | Flip | Drain | Unlock => x.op != Awake
    case Seek | Free => x.op in {Remove, Send}
    case Relink | Check | Leaked => x.op == Send
    case DrainOther => x.op == Remove
    case Raise => x.op in {Send, Awake}
    case Finished => true
  }

  // --------------------------------------------------------------------------------------------------------
  // History variables. No guard and no core step reads them: see Enabled and Apply, which see the core only.

  /** live: the list as the lock holder has left it. path[t]: what reader t still has to walk. */
  datatype View = View(c: Core, live: seq<Addr>, path: map<nat, seq<Addr>>)

  /** xs with everything after the first e replaced by tail. */
  function Reroute(xs: seq<Addr>, e: Addr, tail: seq<Addr>): seq<Addr> {
    if xs == [] then []
    else if xs[0] == e then [e] + tail
    else [xs[0]] + Reroute(xs[1..], e, tail)
  }

  /** What follows the first e in xs. */
  function Suffix(xs: seq<Addr>, e: Addr): seq<Addr> {
    if xs == [] then []
    else if xs[0] == e then xs[1..]
    else Suffix(xs[1..], e)
  }

  function Drop1(xs: seq<Addr>): seq<Addr> { if xs == [] then [] else xs[1..] }

  /** What follows elem in the list once writer x has taken out (remove) or swapped (replace) its match. */
  function NewTail(live: seq<Addr>, x: Writer): seq<Addr> {
    var rest := Drop1(Suffix(live, x.elem));
    if x.op == Remove then rest else [x.node] + rest
  }

  function Step(v: View, a: Action): View
    requires Enabled(v.c, a)
  {
    View(Apply(v.c, a), LiveNext(v, a), PathNext(v, a))
  }

  function LiveNext(v: View, a: Action): seq<Addr> {
    if !a.Write? || a.w !in v.c.writers then v.live
    else
      var x := v.c.writers[a.w];
      if x.pc == Look then
        if x.op == Insert then [x.node] + v.live
        else if v.c.head != NULL && v.c.Level(v.c.head) == x.key then
          (if x.op == Remove then [] else [x.node]) + Drop1(v.live)
        else v.live
      else if x.pc == Seek && SeekHit(v.c, x) then Reroute(v.live, x.elem, NewTail(v.live, x))
      else v.live
  }

  function PathNext(v: View, a: Action): map<nat, seq<Addr>> {
    match a
    case Read(t) =>
      if t !in v.c.readers then v.path
      else
        var r := v.c.readers[t];
        if r.pc == ReadHead then v.path[t := v.live]
        else if r.pc == Walk && r.cur != NULL && v.c.Level(r.cur) != r.key && t in v.path then
          v.path[t := if v.c.Next(r.cur) == NULL then [] else Drop1(v.path[t])]
        else v.path
    case Write(w) =>
      if w in v.c.writers && v.c.writers[w].pc == Seek && SeekHit(v.c, v.c.writers[w]) then
        var x := v.c.writers[w];
        map t | t in v.path :: Reroute(v.path[t], x.elem, NewTail(v.live, x))
      else v.path
    case _ => v.path
  }

  /** p, then its successors under next, are exactly xs, and the last successor is NULL. */
  predicate Chain(next: map<Addr, Addr>, p: Addr, xs: seq<Addr>)
    decreases |xs|
  {
    if xs == [] then p == NULL
    else p != NULL && p == xs[0] && p in next && Chain(next, next[p], xs[1..])
  }

  /** The links with the interior relink of replace (lines 188-189) taken as complete. */
  function Links(c: Core): map<Addr, Addr> {
    if c.lock.Held? && c.lock.w in c.writers && c.writers[c.lock.w].pc == Relink then
      c.next[c.writers[c.lock.w].node := c.Next(c.writers[c.lock.w].gone)]
    else c.next
  }

  /** The first element of level k in xs, or NULL. */
  function First(level: map<Addr, int>, xs: seq<Addr>, k: int): Addr {
    if xs == [] then NULL
    else if LevelOf(level, xs[0]) == k then xs[0]
    else First(level, xs[1..], k)
  }

  /** Any list may be there at the start; nobody is running and both counters are zero. */
  predicate Init(v: View) {
    && v.c.Wf()
    && v.c.next.Keys == v.c.level.Keys && NULL !in v.c.next
    && v.c.readers == map[] && v.c.writers == map[] && v.c.lock == Open && v.c.freed == {}
    && v.c.standing == [0, 0] && (forall k :: 0 <= k < LEVELS ==> v.c.waiters[k] == 0)
    && Chain(v.c.next, v.c.head, v.live)
    && v.path == map[]
  }

  function Taken(acts: seq<Action>, i: nat): Action
    requires i < |acts|
  {
    acts[i]
  }

  /** vs[i] is the state before action acts[i]. */
  ghost predicate Run(vs: seq<View>, acts: seq<Action>) {
    && |vs| == |acts| + 1
    && Init(vs[0])
    && (forall i {:trigger Taken(acts, i)} :: 0 <= i < |acts| ==>
          Enabled(vs[i].c, Taken(acts, i)) && vs[i + 1] == Step(vs[i], Taken(acts, i)))
  }
}
