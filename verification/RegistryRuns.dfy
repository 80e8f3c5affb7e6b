// What every run of calls keeps in the registry, and who can change what.
module RegistryRuns {
  import opened ListSpec
  import opened RegistrySpec
  import opened Sizes

  /** Wakes: a parked reader of a level leaves its wait, woken or interrupted; the answer is that of its tag_receive. */
  datatype Event =
    | Get(c: Caller, key: int, command: int, perm: int)
    | Send(c: Caller, tag: int, level: nat, buffer: Buffer, size: nat)
    | Receive(c: Caller, tag: int, level: nat, buffer: Buffer, size: nat)
    | Ctl(c: Caller, tag: int, command: int)
    | Wakes(tag: int, level: nat, interrupted: bool, size: nat)

  function Next(r: Reg, e: Event): (Reg, Answer)
    requires Sized(r)
  {
    match e
    case Get(c, key, command, perm) => TagGet(r, c, key, command, perm)
    case Send(c, tag, level, buffer, size) => TagSend(r, c, tag, level, buffer, size)
    case Receive(c, tag, level, buffer, size) => TagReceive(r, c, tag, level, buffer, size)
    case Ctl(c, tag, command) => TagCtl(r, c, tag, command)
    case Wakes(tag, level, interrupted, size) =>
      (Leave(r, tag, level), Woken(r, tag, level, interrupted, size))
  }

  /** copy_from_user gets the bytes of a send. */
  predicate Copied(e: Event)
    requires e.Send?
  {
    e.buffer.Bytes? && e.size <= |e.buffer.content|
  }

  /** The number of taken slots. */
  function Occupied(slots: seq<Option<Svc>>): nat {
    if slots == [] then 0
    else Occupied(slots[..|slots| - 1]) + if slots[|slots| - 1].Some? then 1 else 0
  }

  predicate SvcOk(s: Svc, i: nat) {
    && s.tag == i && s.key != 0 && s.perm in {OPEN_ROOM, PRIVATE_ROOM}
    && |s.ready| == LEVELS && |s.sleepers| == LEVELS
    && |s.levels| == LEVELS && forall k :: 0 <= k < LEVELS ==> s.levels[k].level == LEVELS - 1 - k
  }

  predicate KeysDistinct(slots: seq<Option<Svc>>) {
    forall i, j :: 0 <= i < j < |slots| && slots[i].Some? && slots[j].Some? && slots[i].value.key == slots[j].value.key
      ==> slots[i].value.key == TAG_IPC_PRIVATE
  }

  predicate Inv(r: Reg) {
    && |r.slots| == SERVICES
    && (forall i :: 0 <= i < SERVICES && r.slots[i].Some? ==> SvcOk(r.slots[i].value, i))
    && KeysDistinct(r.slots)
    && r.count == Occupied(r.slots)
  }

  // --------------------------------------------------------------------------------------------------------
  // Counting slots

  lemma {:induction false} OccupiedUpdate(slots: seq<Option<Svc>>, i: nat, x: Option<Svc>)
    requires i < |slots|
    ensures Occupied(slots[i := x])
         == Occupied(slots) + (if x.Some? then 1 else 0) - if slots[i].Some? then 1 else 0
    decreases |slots|
  {
    var n := |slots| - 1;
    if i < n {
      OccupiedUpdate(slots[..n], i, x);
      assert slots[i := x][..n] == slots[..n][i := x];
    } else {
      assert slots[i := x][..n] == slots[..n];
    }
  }

  lemma {:induction false} OccupiedBound(slots: seq<Option<Svc>>)
    ensures Occupied(slots) <= |slots|
    ensures Occupied(slots) == |slots| <==> forall i :: 0 <= i < |slots| ==> slots[i].Some?
    ensures Occupied(slots) == 0 <==> forall i :: 0 <= i < |slots| ==> slots[i].None?
    decreases |slots|
  {
    if slots == [] {
    } else {
      var n := |slots| - 1;
      OccupiedBound(slots[..n]);
      assert forall i :: 0 <= i < n ==> slots[i] == slots[..n][i];
    }
  }

  /** The pigeonhole behind the capacity check: a count below the capacity leaves a slot free. */
  lemma FreeSlot(r: Reg)
    requires |r.slots| == SERVICES && r.count == Occupied(r.slots)
    ensures r.count < SERVICES <==> FreeIndex(r.slots) < SERVICES
  {
    OccupiedBound(r.slots);
    var f := FreeIndex(r.slots);
    if f < SERVICES { assert r.slots[f].None?; }
  }

  // --------------------------------------------------------------------------------------------------------
  // The invariant

  lemma InvSized(r: Reg)
    requires Inv(r)
    ensures Sized(r)
  {
    forall i | 0 <= i < |r.slots| && r.slots[i].Some?
      ensures |r.slots[i].value.ready| == LEVELS && |r.slots[i].value.sleepers| == LEVELS
    {
      assert SvcOk(r.slots[i].value, i);
    }
  }

  /** The scan for a tag finds the slot with that number, if it is taken. */
  lemma TagScanIsIndexing(r: Reg, tag: int)
    requires Inv(r)
    ensures TagIndex(r.slots, tag) == if 0 <= tag < SERVICES && r.slots[tag].Some? then tag else SERVICES
  {
    var i := TagIndex(r.slots, tag);
    if i < SERVICES { assert SvcOk(r.slots[i].value, i); }
    if 0 <= tag < SERVICES && r.slots[tag].Some? { assert SvcOk(r.slots[tag].value, tag); }
  }

  lemma InitInv()
    ensures Inv(NoServices())
  {
    OccupiedBound(NoServices().slots);
  }

  /** A slot whose service keeps its identity, and its list in shape, may be rewritten. */
  lemma RewriteKeepsInv(r: Reg, i: nat, s: Svc)
    requires Inv(r) && i < SERVICES && r.slots[i].Some? && SvcOk(s, i) && s.key == r.slots[i].value.key
    ensures Inv(r.(slots := r.slots[i := Some(s)]))
  {
    OccupiedUpdate(r.slots, i, Some(s));
    var slots' := r.slots[i := Some(s)];
    forall j, k | 0 <= j < k < SERVICES && slots'[j].Some? && slots'[k].Some?
        && slots'[j].value.key == slots'[k].value.key
      ensures slots'[j].value.key == TAG_IPC_PRIVATE
    {
      assert r.slots[j].Some? && r.slots[k].Some?;
    }
  }

  lemma NewSvcOk(key: int, i: nat, creator: int, perm: int)
    requires key != 0 && perm in {OPEN_ROOM, PRIVATE_ROOM}
    ensures SvcOk(NewSvc(key, i, creator, perm), i)
  {}

  /** With an exact count the branches for a missing free slot are dead. */
  lemma CreateForm(r: Reg, c: Caller, key: int, perm: int)
    requires |r.slots| == SERVICES && r.count == Occupied(r.slots) < SERVICES
    requires key == TAG_IPC_PRIVATE || KeyIndex(r.slots, key) == SERVICES
    ensures var f := FreeIndex(r.slots);
      f < SERVICES && Create(r, c, key, perm) == (Reg(r.slots[f := Some(NewSvc(key, f, c.pid, perm))], r.count + 1),
          Ok(f))
  {
    FreeSlot(r);
    CountOne(r.count);
  }

  lemma CountOne(n: nat)
    requires n < SERVICES
    ensures (n + 1) % UINT_RANGE == n + 1
  {}

  lemma PlaceKeepsInv(r: Reg, f: nat, s: Svc)
    requires Inv(r) && f < SERVICES && r.slots[f].None? && SvcOk(s, f)
    requires s.key == TAG_IPC_PRIVATE ||
      forall j :: 0 <= j < SERVICES && r.slots[j].Some? ==> r.slots[j].value.key != s.key
    ensures Inv(Reg(r.slots[f := Some(s)], r.count + 1))
  {
    OccupiedUpdate(r.slots, f, Some(s));
    var slots' := r.slots[f := Some(s)];
    forall j, k | 0 <= j < k < SERVICES && slots'[j].Some? && slots'[k].Some?
        && slots'[j].value.key == slots'[k].value.key
      ensures slots'[j].value.key == TAG_IPC_PRIVATE
    {
      if j != f { assert r.slots[j].Some?; }
      if k != f { assert r.slots[k].Some?; }
    }
  }

  lemma CreateKeepsInv(r: Reg, c: Caller, key: int, perm: int)
    requires Inv(r) && key != 0 && perm in {OPEN_ROOM, PRIVATE_ROOM}
    ensures Inv(Create(r, c, key, perm).0)
  {
    var f, k := FreeIndex(r.slots), KeyIndex(r.slots, key);
    if r.count < SERVICES && (key == TAG_IPC_PRIVATE || k == SERVICES) {
      CreateForm(r, c, key, perm);
      NewSvcOk(key, f, c.pid, perm);
      PlaceKeepsInv(r, f, NewSvc(key, f, c.pid, perm));
    }
  }

  lemma RemoveKeepsInv(r: Reg, c: Caller, tag: int)
    requires Inv(r)
    ensures Inv(Remove(r, c, tag).0)
  {
    var i := TagIndex(r.slots, tag);
    if i < SERVICES {
      OccupiedUpdate(r.slots, i, None);
      OccupiedBound(r.slots);
    }
  }

  lemma DeliveredOk(s: Svc, i: nat, it: Item)
    requires SvcOk(s, i) && 0 <= it.level < LEVELS
    ensures SvcOk(Delivered(s, it), i)
  {}

  lemma SendKeepsInv(r: Reg, e: Event)
    requires Inv(r) && Sized(r) && e.Send?
    ensures Inv(Next(r, e).0)
  {
    var i := TagIndex(r.slots, e.tag);
    if i < SERVICES && e.level < LEVELS && Copied(e) {
      var s, it := r.slots[i].value, Sent(e.level, e.buffer, e.size);
      assert SvcOk(s, i);
      DeliveredOk(s, i, it);
      RewriteKeepsInv(r, i, Delivered(s, it));
    }
  }

  lemma ReceiveKeepsInv(r: Reg, e: Event)
    requires Inv(r) && Sized(r) && e.Receive?
    ensures Inv(Next(r, e).0)
  {
    var i := TagIndex(r.slots, e.tag);
    if i < SERVICES && e.level < LEVELS {
      assert SvcOk(r.slots[i].value, i);
      RewriteKeepsInv(r, i, Parked(r.slots[i].value, e.level));
    }
  }

  lemma LeaveKeepsInv(r: Reg, tag: int, level: nat)
    requires Inv(r) && Sized(r)
    ensures Inv(Leave(r, tag, level))
  {
    var i := TagIndex(r.slots, tag);
    if i < SERVICES && level < LEVELS {
      var s := r.slots[i].value;
      assert SvcOk(s, i);
      if s.sleepers[level] > 0 {
        RewriteKeepsInv(r, i, s.(sleepers := s.sleepers[level := s.sleepers[level] - 1]));
      }
    }
  }

  lemma AwakeKeepsInv(r: Reg, c: Caller, tag: int)
    requires Inv(r)
    ensures Inv(AwakeAll(r, c, tag).0)
  {
    var i := TagIndex(r.slots, tag);
    if i < SERVICES {
      assert SvcOk(r.slots[i].value, i);
      RewriteKeepsInv(r, i, Raised(r.slots[i].value));
    }
  }

  /** Every call keeps tags equal to slot numbers, public keys distinct and nonzero, and the count exact. */
  lemma NextKeepsInv(r: Reg, e: Event)
    requires Inv(r)
    ensures Sized(r) && Inv(Next(r, e).0)
  {
    InvSized(r);
    match e
    case Get(c, key, command, perm) =>
      if key != 0 && perm in {OPEN_ROOM, PRIVATE_ROOM} { CreateKeepsInv(r, c, key, perm); }
    case Ctl(c, tag, command) =>
      AwakeKeepsInv(r, c, tag);
      RemoveKeepsInv(r, c, tag);
    case Send(_, _, _, _, _) => SendKeepsInv(r, e);
    case Receive(_, _, _, _, _) => ReceiveKeepsInv(r, e);
    case Wakes(tag, level, _, _) => LeaveKeepsInv(r, tag, level);
  }

  /** States from the empty registry on, the events between them, and what each call answered. */
  ghost predicate Run(rs: seq<Reg>, es: seq<Event>, answers: seq<Answer>) {
    && |rs| == |es| + 1 && |answers| == |es| && rs[0] == NoServices()
    && forall i {:trigger Called(es, i)} :: 0 <= i < |es| ==> Follows(rs[i], Called(es, i), rs[i + 1], answers[i])
  }

  function Called(es: seq<Event>, i: nat): Event
    requires i < |es|
  {
    es[i]
  }

  predicate Follows(r: Reg, e: Event, r': Reg, a: Answer) { Sized(r) && Next(r, e) == (r', a) }

  lemma RunStep(rs: seq<Reg>, es: seq<Event>, answers: seq<Answer>, n: nat)
    requires Run(rs, es, answers) && n < |es|
    ensures Sized(rs[n]) && Next(rs[n], es[n]) == (rs[n + 1], answers[n])
  {
    assert Called(es, n) == es[n];
  }

  lemma {:induction false} RunKeepsInv(rs: seq<Reg>, es: seq<Event>, answers: seq<Answer>, n: nat)
    requires Run(rs, es, answers) && n < |rs|
    ensures Inv(rs[n])
  {
    if n == 0 {
      InitInv();
    } else {
      RunKeepsInv(rs, es, answers, n - 1);
      RunStep(rs, es, answers, n - 1);
      NextKeepsInv(rs[n - 1], es[n - 1]);
    }
  }

  // --------------------------------------------------------------------------------------------------------
  // What the answers say

  predicate Full(r: Reg) { forall i :: 0 <= i < |r.slots| ==> r.slots[i].Some? }

  /** Some service has this key, which is not the private one. */
  predicate Taken(r: Reg, key: int) {
    key != TAG_IPC_PRIVATE && exists i :: 0 <= i < |r.slots| && r.slots[i].Some? && r.slots[i].value.key == key
  }

  /** When a creation succeeds, and what it does; the branches for a missing free slot are never taken. */
  lemma CreateExactly(r: Reg, c: Caller, key: int, perm: int)
    requires Inv(r)
    ensures var (r', a) := Create(r, c, key, perm);
      if Full(r) then a == Err(ETOOMANYREFS) && r' == r
      else if Taken(r, key) then a == Err(EBADR) && r' == r
      else
        && a.Ok? && 0 <= a.value < SERVICES && r.slots[a.value].None?
        && (forall j :: 0 <= j < a.value ==> r.slots[j].Some?)
        && r' == Reg(r.slots[a.value := Some(NewSvc(key, a.value, c.pid, perm))], r.count + 1)
  {
    OccupiedBound(r.slots);
    var k := KeyIndex(r.slots, key);
    if k < SERVICES { assert r.slots[k].Some?; }
    if r.count < SERVICES && (key == TAG_IPC_PRIVATE || k == SERVICES) { CreateForm(r, c, key, perm); }
  }

  /** Opening a public key answers the tag of the one service that has it. */
  lemma OpenExactly(r: Reg, c: Caller, key: int, tag: int)
    requires Inv(r)
    ensures Open(r, c, key) == Ok(tag) <==>
      key != TAG_IPC_PRIVATE && 0 <= tag < SERVICES && r.slots[tag].Some?
      && r.slots[tag].value.key == key && Valid(r.slots[tag].value, c)
  {
    var i := KeyIndex(r.slots, key);
    if i < SERVICES { assert SvcOk(r.slots[i].value, i); }
    if 0 <= tag < SERVICES && r.slots[tag].Some? && r.slots[tag].value.key == key && tag != i {
      assert i < SERVICES;
      assert r.slots[i].value.key == r.slots[tag].value.key;
    }
  }

  /** An admitted send always succeeds: the message is the one a lookup of its level finds, other levels stay. */
  lemma SendDelivers(r: Reg, c: Caller, tag: int, level: nat, buffer: Buffer, size: nat)
    requires Inv(r) && buffer.Bytes? && size <= MAX_MESSAGE_SIZE && size <= |buffer.content| && level < LEVELS
    requires 0 <= tag < SERVICES && r.slots[tag].Some? && Valid(r.slots[tag].value, c)
    ensures Sized(r) && var (r', a) := TagSend(r, c, tag, level, buffer, size);
      && a == Ok(0) && |r'.slots| == SERVICES && r'.slots[tag].Some?
      && var s, s' := r.slots[tag].value, r'.slots[tag].value;
      && FirstAt(s'.levels, level) < |s'.levels|
      && s'.levels[FirstAt(s'.levels, level)] == Sent(level, buffer, size)
      && (forall k :: 0 <= k < LEVELS && k != level ==>
            FirstAt(s'.levels, k) == FirstAt(s.levels, k) < |s.levels| == |s'.levels|
            && s'.levels[FirstAt(s'.levels, k)] == s.levels[FirstAt(s.levels, k)])
      && (forall k :: 0 <= k < LEVELS ==> s'.ready[k] == (s.ready[k] || (k == level && s.sleepers[k] > 0)))
  {
    InvSized(r);
    TagScanIsIndexing(r, tag);
    var s := r.slots[tag].value;
    assert SvcOk(s, tag);
    NextKeepsInv(r, Send(c, tag, level, buffer, size));
    forall k | 0 <= k < LEVELS ensures FirstAt(s.levels, k) == LEVELS - 1 - k {
      FirstAtIs(s.levels, k, LEVELS - 1 - k);
    }
    var s' := Delivered(s, Sent(level, buffer, size));
    assert TagSend(r, c, tag, level, buffer, size).0.slots[tag] == Some(s');
    assert SvcOk(s', tag);
    forall k | 0 <= k < LEVELS ensures FirstAt(s'.levels, k) == LEVELS - 1 - k {
      FirstAtIs(s'.levels, k, LEVELS - 1 - k);
    }
  }

  // --------------------------------------------------------------------------------------------------------
  // Isolation

  /** The messages, the flags and the identity of a service, without the readers it happens to hold. */
  function Core(x: Option<Svc>): Option<Svc> {
    if x.None? then None else Some(x.value.(sleepers := []))
  }

  lemma GetIsolates(r: Reg, e: Event, i: nat)
    requires Inv(r) && i < SERVICES && e.Get? && r.slots[i].Some?
    ensures Sized(r) && |Next(r, e).0.slots| == SERVICES && Next(r, e).0.slots[i] == r.slots[i]
  {
    NextKeepsInv(r, e);
    var f := FreeIndex(r.slots);
    assert f < SERVICES ==> r.slots[f].None?;
  }

  /** A call addressed to one tag leaves every other slot alone; a creation fills only a free slot. */
  lemma NextIsolates(r: Reg, e: Event, i: nat)
    requires Inv(r) && i < SERVICES
    ensures Sized(r) && |Next(r, e).0.slots| == SERVICES
    ensures (if e.Get? then r.slots[i].Some? else e.tag != i) ==> Next(r, e).0.slots[i] == r.slots[i]
  {
    NextKeepsInv(r, e);
    if e.Get? {
      if r.slots[i].Some? { GetIsolates(r, e, i); }
    } else {
      TagScanIsIndexing(r, e.tag);
      if e.tag != i { OneSlot(r, e, i); }
    }
  }

  lemma OneSlot(r: Reg, e: Event, i: nat)
    requires Sized(r) && !e.Get? && i < |r.slots| && TagIndex(r.slots, e.tag) != i
    ensures Next(r, e).0.slots[i] == r.slots[i]
  {}

  /** A private service, its messages and its flags change only in calls of its creator or of uid 0. */
  lemma PrivateStays(r: Reg, e: Event, i: nat)
    requires Inv(r) && i < SERVICES && r.slots[i].Some? && r.slots[i].value.perm == PRIVATE_ROOM
    requires !e.Wakes? ==> e.c.uid != 0 && e.c.pid != r.slots[i].value.creator
    ensures Sized(r) && |Next(r, e).0.slots| == SERVICES && Core(Next(r, e).0.slots[i]) == Core(r.slots[i])
  {
    NextIsolates(r, e, i);
    if !e.Get? { TagScanIsIndexing(r, e.tag); }
  }

  /** Over a whole stretch of a run in which neither the creator nor uid 0 calls, a private service stays as it is. */
  lemma {:induction false} PrivateRun(rs: seq<Reg>, es: seq<Event>, answers: seq<Answer>, a: nat, b: nat, i: nat,
      s: Svc)
    requires Run(rs, es, answers) && a <= b < |rs| && i < SERVICES && |rs[a].slots| == SERVICES
    requires rs[a].slots[i] == Some(s) && s.perm == PRIVATE_ROOM
    requires forall n :: a <= n < b && !es[n].Wakes? ==> es[n].c.uid != 0 && es[n].c.pid != s.creator
    ensures |rs[b].slots| == SERVICES && Core(rs[b].slots[i]) == Core(Some(s))
    decreases b
  {
    if a == b {
    } else {
      PrivateRun(rs, es, answers, a, b - 1, i, s);
      RunKeepsInv(rs, es, answers, b - 1);
      RunStep(rs, es, answers, b - 1);
      PrivateStays(rs[b - 1], es[b - 1], i);
    }
  }

  // --------------------------------------------------------------------------------------------------------
  // The messages of a service, over a run

  predicate Lives(r: Reg, tag: nat) { tag < |r.slots| == SERVICES && r.slots[tag].Some? }

  /** What a lookup of level k in the list of service tag finds. */
  function Found(r: Reg, tag: nat, k: int): Option<Item> {
    if Lives(r, tag) then Holds(r.slots[tag].value.levels, k) else None
  }

  /** Event e, answered by a, stored a message at level k of service tag. */
  predicate Stores(e: Event, a: Answer, tag: nat, k: int) {
    e.Send? && e.tag == tag && e.level == k && Copied(e) && a == Ok(0)
  }

  /** The last message stored at level k of service tag by the calls a to b - 1, or the empty one. */
  ghost function Last(es: seq<Event>, answers: seq<Answer>, a: nat, b: nat, tag: nat, k: int): Item
    requires a <= b <= |es| == |answers|
    decreases b
  {
    if a == b then Item(k, "", 0)
    else
      var e := es[b - 1];
      if Stores(e, answers[b - 1], tag, k) then Sent(k, e.buffer, e.size) else Last(es, answers, a, b - 1, tag, k)
  }

  lemma FoundAt(r: Reg, tag: nat, k: int)
    requires Inv(r) && Lives(r, tag) && 0 <= k < LEVELS
    ensures Found(r, tag, k) == Some(r.slots[tag].value.levels[LEVELS - 1 - k])
  {
    assert SvcOk(r.slots[tag].value, tag);
    FirstAtIs(r.slots[tag].value.levels, k, LEVELS - 1 - k);
  }

  lemma SendFound(r: Reg, e: Event, tag: nat, k: int)
    requires Inv(r) && Sized(r) && Lives(r, tag) && 0 <= k < LEVELS && e.Send? && e.tag == tag
    ensures Lives(Next(r, e).0, tag)
    ensures Next(r, e).0.slots[tag].value.levels[LEVELS - 1 - k]
         == if Stores(e, Next(r, e).1, tag, k) then Sent(k, e.buffer, e.size)
            else r.slots[tag].value.levels[LEVELS - 1 - k]
  {
    TagScanIsIndexing(r, tag);
    assert SvcOk(r.slots[tag].value, tag);
    if e.level < LEVELS {
      FirstAtIs(r.slots[tag].value.levels, e.level, LEVELS - 1 - e.level);
    }
  }

  /** One call changes what a lookup finds exactly when it stores a message there. */
  lemma FoundStep(r: Reg, e: Event, tag: nat, k: int)
    requires Inv(r) && Lives(r, tag) && 0 <= k < LEVELS && Sized(r) && Lives(Next(r, e).0, tag)
    ensures Found(Next(r, e).0, tag, k)
         == if Stores(e, Next(r, e).1, tag, k) then Some(Sent(k, e.buffer, e.size)) else Found(r, tag, k)
  {
    NextKeepsInv(r, e);
    FoundAt(r, tag, k);
    FoundAt(Next(r, e).0, tag, k);
    if e.Send? && e.tag == tag {
      SendFound(r, e, tag, k);
    } else {
      NextIsolates(r, e, tag);
      if !e.Get? { TagScanIsIndexing(r, e.tag); }
    }
  }

  /**
   * From its creation on, as long as it is not removed, a lookup in a service finds at each level the last message
   * that was accepted for it, or the empty one of the start.
   */
  lemma {:induction false} LastMessageIsFound(rs: seq<Reg>, es: seq<Event>, answers: seq<Answer>, a: nat, b: nat,
      tag: nat, k: int)
    requires Run(rs, es, answers) && a <= b <= |es| && 0 <= k < LEVELS
    requires forall n {:trigger rs[n]} :: a <= n <= b ==> Lives(rs[n], tag)
    requires Found(rs[a], tag, k) == Some(Item(k, "", 0))
    ensures Found(rs[b], tag, k) == Some(Last(es, answers, a, b, tag, k))
    decreases b
  {
    if a == b {
    } else {
      LastMessageIsFound(rs, es, answers, a, b - 1, tag, k);
      FoundNext(rs, es, answers, b - 1, tag, k);
    }
  }

  lemma FoundNext(rs: seq<Reg>, es: seq<Event>, answers: seq<Answer>, n: nat, tag: nat, k: int)
    requires Run(rs, es, answers) && n < |es| && 0 <= k < LEVELS && Lives(rs[n], tag) && Lives(rs[n + 1], tag)
    ensures Found(rs[n + 1], tag, k)
         == if Stores(es[n], answers[n], tag, k) then Some(Sent(k, es[n].buffer, es[n].size)) else Found(rs[n], tag, k)
  {
    RunKeepsInv(rs, es, answers, n);
    RunStep(rs, es, answers, n);
    FoundStep(rs[n], es[n], tag, k);
  }

  /** A message accepted at state a is found until another is accepted for its level. */
  lemma {:induction false} SentIsFound(rs: seq<Reg>, es: seq<Event>, answers: seq<Answer>, a: nat, b: nat, tag: nat,
      k: int)
    requires Run(rs, es, answers) && a < b <= |es| && 0 <= k < LEVELS && Stores(es[a], answers[a], tag, k)
    requires forall n {:trigger rs[n]} :: a <= n <= b ==> Lives(rs[n], tag)
    requires forall n :: a < n < b ==> !Stores(es[n], answers[n], tag, k)
    ensures Found(rs[b], tag, k) == Some(Sent(k, es[a].buffer, es[a].size))
    decreases b
  {
    FoundNext(rs, es, answers, b - 1, tag, k);
    if b == a + 1 {
    } else {
      SentIsFound(rs, es, answers, a, b - 1, tag, k);
    }
  }

  /** A service just created has the empty message at every level. */
  lemma CreatedEmpty(r: Reg, c: Caller, key: int, perm: int, k: int)
    requires Inv(r) && key != 0 && perm in {OPEN_ROOM, PRIVATE_ROOM} && 0 <= k < LEVELS && Create(r, c, key, perm).1.Ok?
    ensures var (r', a) := Create(r, c, key, perm); a.value >= 0 && Found(r', a.value, k) == Some(Item(k, "", 0))
  {
    CreateExactly(r, c, key, perm);
    CreateKeepsInv(r, c, key, perm);
    var (r', a) := Create(r, c, key, perm);
    FoundAt(r', a.value, k);
  }
}
