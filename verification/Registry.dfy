// TAG_Messaging.c and TAG_Messagin_help.c: the array of services, updated in place.
module Registry {
  import opened ListSpec
  import opened RegistrySpec
  import opened RcuList
  import opened StatusText
  import opened CopyOut
  import opened Sizes

  class Service {
    const key: int
    const tag: int
    const creator: int
    const perm: int
    const levels: List
    var sleepers: seq<nat>     // the readers in each wait queue
    ghost var value: Svc

    /** value is what the fields, the list and its elements amount to. */
    ghost predicate Ok()
      reads this, levels, levels.nodes
    {
      && levels.Valid() && !levels.locked && |sleepers| == LEVELS && levels.waiters == sleepers
      && value == Svc(key, tag, creator, perm, ItemsOf(levels.nodes), levels.ready, sleepers)
      && AllWhole(value.levels)
    }

    /** The assignments of new_TAG_Service, list_init and the loop over the levels included. */
    constructor (key: int, tag: int, creator: int, perm: int)
      ensures Ok() && value == NewSvc(key, tag, creator, perm)
      ensures fresh(levels) && forall n :: n in levels.nodes ==> fresh(n)
    {
      var l := LevelStore.NewLevels();
      this.key, this.tag, this.creator, this.perm := key, tag, creator, perm;
      levels := l;
      sleepers := seq(LEVELS, _ => 0);
      value := NewSvc(key, tag, creator, perm);
    }

    /**
     * rcu_list_replace on the level. A replace that does not find its level leaves the lock held; the lock counts as
     * released.
     */
    method Store(it: Item) returns (r: int)
      requires Ok() && Whole(it)
      modifies this`value, levels, levels.nodes
      ensures Ok() && forall n :: n in levels.nodes ==> n in old(levels.nodes) || fresh(n)
      ensures r == if Has(old(value).levels, it.level) then 1 else 0
      ensures value == if r == 1 then old(value).(levels := Swapped(old(value).levels, it)) else old(value)
    {
      ghost var was := levels.nodes;
      ItemsFirst(was, it.level);
      r := levels.Replace(it.level, it.message, it.size, true);
      if r == 1 {
        ItemsAfterReplace(was, levels.nodes[FirstOf(was, it.level)]);
        value := value.(levels := ItemsOf(levels.nodes));
      } else {
        levels.locked := false;
      }
    }

    /** Lines 244-255 of TAG_Messaging.c. */
    method WakeUp(level: int)
      requires Ok() && 0 <= level < LEVELS
      modifies this`value, levels`ready
      ensures Ok()
      ensures value == if old(value).sleepers[level] > 0
                       then old(value).(ready := old(value).ready[level := true]) else old(value)
    {
      if sleepers[level] > 0 {
        levels.ready := levels.ready[level := true];
        value := value.(ready := levels.ready);
      }
    }

    method Deliver(it: Item) returns (r: int)
      requires Ok() && Whole(it) && 0 <= it.level < LEVELS
      modifies this`value, levels, levels.nodes
      ensures Ok() && forall n :: n in levels.nodes ==> n in old(levels.nodes) || fresh(n)
      ensures r == if Has(old(value).levels, it.level) then 1 else 0
      ensures value == if r == 1 then Delivered(old(value), it) else old(value)
    {
      r := Store(it);
      if r == 1 {
        WakeUp(it.level);
      }
    }

    /** The loop of AWAKE_ALL (lines 371-374). */
    method RaiseAll()
      requires Ok()
      modifies this`value, levels`ready
      ensures Ok() && value == Raised(old(value))
    {
      var i := 0;
      while i < LEVELS
        invariant 0 <= i <= LEVELS && |levels.ready| == LEVELS && forall j :: 0 <= j < i ==> levels.ready[j]
        invariant value == old(value)
      {
        levels.ready := levels.ready[i := true];
        i := i + 1;
      }
      value := Raised(value);
      assert levels.ready == value.ready;
    }

    /** The start of rcu_list_search: the flag goes down and the reader parks (lines 35-40). */
    method Park(level: nat) returns (myEpoch: int)
      requires Ok() && level < LEVELS
      modifies this`sleepers, this`value, levels`ready, levels`waiters
      ensures Ok() && value == Parked(old(value), level) && myEpoch in {0, 1}
    {
      myEpoch := levels.Enter(level);
      sleepers := sleepers[level := sleepers[level] + 1];
      value := Parked(value, level);
    }

    /** The rest of rcu_list_search, for a reader that sampled myEpoch: woken or interrupted, it leaves. */
    method Unpark(level: nat, myEpoch: int, interrupted: bool) returns (e: Element?)
      requires Ok() && level < LEVELS && myEpoch in {0, 1} && sleepers[level] > 0
      modifies this`sleepers, this`value, levels`standing, levels`waiters
      ensures Ok() && value == old(value).(sleepers := old(sleepers)[level := old(sleepers)[level] - 1])
      ensures (if e == null then None else Some(ItemOf(e)))
           == if interrupted then None else Holds(value.levels, level)
      ensures e != null ==> Whole(ItemOf(e))
    {
      sleepers := sleepers[level := sleepers[level] - 1];
      value := value.(sleepers := sleepers);
      e := null;
      if interrupted {
        levels.GiveUp(level, myEpoch);
      } else {
        ItemsFirst(levels.nodes, level);
        e := levels.Traverse(level, myEpoch);
      }
    }

    /** The loop of REMOVE (lines 403-410). */
    method IsQuiet() returns (quiet: bool)
      requires |sleepers| == LEVELS
      ensures quiet <==> forall k :: 0 <= k < LEVELS ==> sleepers[k] == 0
    {
      var level := 0;
      while level < LEVELS
        invariant 0 <= level <= LEVELS && forall k :: 0 <= k < level ==> sleepers[k] == 0
      {
        if sleepers[level] > 0 {
          return false;
        }
        level := level + 1;
      }
      return true;
    }

    method IsValidFor(c: Caller) returns (ok: bool)
      ensures ok <==> c.uid == 0 || perm == OPEN_ROOM || (perm == PRIVATE_ROOM && creator == c.pid)
    {
      if c.uid == 0 {
        return true;
      }
      if perm == OPEN_ROOM {
        return true;
      }
      return perm == PRIVATE_ROOM && creator == c.pid;
    }
  }

  ghost function ValueOf(s: Service?): Option<Svc>
    reads s
  {
    if s == null then None else Some(s.value)
  }

  /** A service stays as it should be when nothing of it changes. */
  twostate lemma Untouched(s: Service)
    requires old(s.Ok()) && unchanged(s) && unchanged(s.levels) && forall n :: n in old(s.levels.nodes) ==> unchanged(n)
    ensures s.Ok()
  {
    var es := s.levels.nodes;
    forall k | 0 <= k < |es| ensures es[k].next == old(es[k].next) {
      assert es[k] in old(s.levels.nodes);
    }
  }

  class Table {
    var slots: array<Service?>
    var serviceCount: nat
    ghost var repr: set<object>   // the services in the slots, their lists, and the elements of these

    /** initService; the slots are taken to start empty. */
    constructor ()
      ensures Valid() && fresh(slots) && repr == {} && Model() == NoServices()
    {
      slots := new Service?[SERVICES](_ => null);
      serviceCount := 0;
      repr := {};
      new;
      AllOwned(SERVICES);
    }

    ghost predicate SlotOwned(i: nat)
      requires i < slots.Length
      reads this`slots, this`repr, slots, repr
    {
      slots[i] != null ==>
        && slots[i] in repr && slots[i].levels in repr && (forall n :: n in slots[i].levels.nodes ==> n in repr)
        && slots[i].Ok()
    }

    /** The services in the first n slots are as they should be. */
    ghost predicate Owned(n: nat)
      requires n <= slots.Length
      reads this`slots, this`repr, slots, repr
    {
      n == 0 || (SlotOwned(n - 1) && Owned(n - 1))
    }

    lemma {:induction false} OwnedEach(n: nat, i: nat)
      requires i < n <= slots.Length && Owned(n)
      ensures SlotOwned(i)
    {
      if i == n - 1 {
      } else {
        OwnedEach(n - 1, i);
      }
    }

    lemma {:induction false} AllOwned(n: nat)
      requires n <= slots.Length && forall i :: 0 <= i < n ==> SlotOwned(i)
      ensures Owned(n)
    {
      if n == 0 {
      } else {
        AllOwned(n - 1);
      }
    }

    /** The fields that the searches look at agree with the values. */
    ghost predicate Basic()
      reads this`slots, slots, slots[..]
    {
      && slots.Length == SERVICES
      && (forall i, j :: 0 <= i < j < SERVICES && slots[i] != null && slots[j] != null ==>
            slots[i].levels != slots[j].levels)
      && forall i :: 0 <= i < SERVICES && slots[i] != null ==>
           && slots[i].tag == i == slots[i].value.tag && slots[i].key == slots[i].value.key
           && slots[i].creator == slots[i].value.creator && slots[i].perm == slots[i].value.perm
           && slots[i].sleepers == slots[i].value.sleepers
           && |slots[i].value.ready| == LEVELS && |slots[i].sleepers| == LEVELS
    }

    ghost predicate Valid()
      reads this`slots, this`repr, slots, slots[..], repr
    {
      this !in repr && slots !in repr && Basic() && Owned(slots.Length)
    }

    ghost function Model(): (r: Reg)
      reads this, slots, slots[..]
      ensures |r.slots| == slots.Length && forall i :: 0 <= i < slots.Length ==> r.slots[i] == ValueOf(slots[i])
      ensures Basic() ==> Sized(r)
    {
      Reg(seq(slots.Length, i requires 0 <= i < slots.Length reads this, slots, slots[..] => ValueOf(slots[i])),
          serviceCount)
    }

    /** searchTAG_Service_withKey. */
    method SearchKey(key: int) returns (s: Service?, ghost at: nat)
      requires Basic()
      ensures at == KeyIndex(Model().slots, key)
      ensures s == if KeyIndex(Model().slots, key) < SERVICES then slots[KeyIndex(Model().slots, key)] else null
      ensures at < SERVICES ==> s != null
    {
      var i := 0;
      ghost var m := Model().slots;
      while i < SERVICES
        invariant 0 <= i <= SERVICES
        invariant forall j :: 0 <= j < i && slots[j] != null ==> slots[j].key != key
      {
        if slots[i] != null && slots[i].key == key {
          KeyIndexIs(m, key, i);
          return slots[i], i;
        }
        i := i + 1;
      }
      KeyIndexIs(m, key, i);
      return null, SERVICES;
    }

    /** searchTAG_Service_withTag. */
    method SearchTag(tag: int) returns (s: Service?, ghost at: nat)
      requires Basic()
      ensures at == TagIndex(Model().slots, tag)
      ensures s == if TagIndex(Model().slots, tag) < SERVICES then slots[TagIndex(Model().slots, tag)] else null
      ensures at < SERVICES ==> s != null
    {
      var i := 0;
      ghost var m := Model().slots;
      while i < SERVICES
        invariant 0 <= i <= SERVICES
        invariant forall j :: 0 <= j < i && slots[j] != null ==> slots[j].tag != tag
      {
        if slots[i] != null && slots[i].tag == tag {
          TagIndexIs(m, tag, i);
          return slots[i], i;
        }
        i := i + 1;
      }
      TagIndexIs(m, tag, i);
      return null, SERVICES;
    }

    /** A service of its own goes into a free slot. */
    method Put(i: nat, s: Service)
      requires Valid() && i < SERVICES && slots[i] == null && s.Ok() && s.tag == i
      requires s !in repr && s.levels !in repr && forall n :: n in s.levels.nodes ==> n !in repr
      modifies slots, this`repr
      ensures Valid() && Model() == old(Model()).(slots := old(Model()).slots[i := Some(s.value)])
      ensures repr == old(repr) + {s, s.levels} + set n | n in s.levels.nodes
    {
      ghost var m := Model().slots;
      OwnedParts();
      PutIn(i, s);
      AllOwned(SERVICES);
      assert Model().slots == m[i := Some(s.value)];
    }

    method PutIn(i: nat, s: Service)
      requires i < slots.Length && s.Ok()
      requires s.levels !in repr
      requires forall j :: 0 <= j < slots.Length ==> SlotOwned(j)
      modifies slots, this`repr
      ensures slots[..] == old(slots[..])[i := s] && repr == old(repr) + {s, s.levels} + set n | n in s.levels.nodes
      ensures forall j :: 0 <= j < slots.Length ==> SlotOwned(j)
      ensures forall j :: 0 <= j < slots.Length && j != i && slots[j] != null ==> slots[j].levels != s.levels
    {
      slots[i] := s;
      repr := repr + {s, s.levels} + set n | n in s.levels.nodes;
      forall j | 0 <= j < slots.Length
        ensures SlotOwned(j) && (j != i && slots[j] != null ==> slots[j].levels != s.levels)
      {
        assert old(SlotOwned(j));
      }
    }

    method SearchFree() returns (i: nat)
      requires Basic()
      ensures i == FreeIndex(Model().slots) && i <= SERVICES && (i < SERVICES ==> slots[i] == null)
    {
      i := 0;
      ghost var m := Model().slots;
      while i < SERVICES && slots[i] != null
        invariant 0 <= i <= SERVICES
        invariant forall j :: 0 <= j < i ==> slots[j] != null
      {
        i := i + 1;
      }
      FreeIndexIs(m, i);
    }

    method AddAt(i: nat, key: int, creator: int, perm: int) returns (s: Service)
      requires Valid() && i < SERVICES && slots[i] == null
      modifies slots, this`repr
      ensures Valid() && fresh(repr - old(repr)) && s.tag == i
      ensures Model() == old(Model()).(slots := old(Model()).slots[i := Some(NewSvc(key, i, creator, perm))])
    {
      ghost var m := Model();
      s := new Service(key, i, creator, perm);
      assert Model() == m;
      Put(i, s);
    }

    /** new_TAG_Service. */
    method NewService(key: int, creator: int, perm: int) returns (s: Service?)
      requires Valid()
      modifies slots, this`repr
      ensures Valid() && fresh(repr - old(repr))
      ensures (Model(), if s == null then None else Some(s.tag)) == Place(old(Model()), key, creator, perm)
    {
      var i := SearchFree();
      if i == SERVICES {
        return null;
      }
      s := AddAt(i, key, creator, perm);
    }

    method CountUp()
      requires Valid()
      modifies this`serviceCount
      ensures Valid() && Model() == Counted(old(Model()), 1)
    {
      ghost var m := Model().slots;
      serviceCount := (serviceCount + 1) % UINT_RANGE;
      assert Model().slots == m;
    }

    /** Lines 43-53 of TAG_Messaging.c. */
    method CreatePrivate(c: Caller, perm: int) returns (a: Answer)
      requires Valid() && serviceCount < SERVICES
      modifies this`serviceCount, slots, this`repr
      ensures Valid() && fresh(repr - old(repr))
      ensures (Model(), a) == RegistrySpec.Create(old(Model()), c, TAG_IPC_PRIVATE, perm)
    {
      var service := NewService(TAG_IPC_PRIVATE, c.pid, perm);
      if service == null {
        return Err(EBADR);
      }
      CountUp();
      return Ok(service.tag);
    }

    /** Lines 55-71. */
    method CreatePublic(c: Caller, key: int, perm: int) returns (a: Answer)
      requires Valid() && serviceCount < SERVICES && key != TAG_IPC_PRIVATE
      modifies this`serviceCount, slots, this`repr
      ensures Valid() && fresh(repr - old(repr))
      ensures (Model(), a) == RegistrySpec.Create(old(Model()), c, key, perm)
    {
      var found: Service?, at := SearchKey(key);
      if found != null {
        return Err(EBADR);
      }
      var service := NewService(key, c.pid, perm);
      if service == null {
        return Err(EFAULT);
      }
      CountUp();
      return Ok(service.tag);
    }

    /** tag_get_CREATE. */
    method Create(c: Caller, key: int, perm: int) returns (a: Answer)
      requires Valid()
      modifies this`serviceCount, slots, this`repr
      ensures Valid() && fresh(repr - old(repr)) && (Model(), a) == RegistrySpec.Create(old(Model()), c, key, perm)
    {
      if serviceCount >= SERVICES {
        return Err(ETOOMANYREFS);
      }
      if key == TAG_IPC_PRIVATE {
        a := CreatePrivate(c, perm);
      } else {
        a := CreatePublic(c, key, perm);
      }
    }

    /** tag_get_OPEN. */
    method Open(c: Caller, key: int) returns (a: Answer)
      requires Basic()
      ensures a == RegistrySpec.Open(Model(), c, key)
    {
      if key == TAG_IPC_PRIVATE {
        return Err(EBADSLT);
      }
      var service: Service?, at := SearchKey(key);
      if service != null {
        var ok := service.IsValidFor(c);
        if !ok {
          return Err(EBADRQC);
        }
        return Ok(service.tag);
      }
      return Err(ENOMSG);
    }

    method TagGet(c: Caller, key: int, command: int, perm: int) returns (a: Answer)
      requires Valid()
      modifies this`serviceCount, slots, this`repr
      ensures Valid() && fresh(repr - old(repr)) && (Model(), a) == RegistrySpec.TagGet(old(Model()), c, key,
          command, perm)
    {
      if perm != OPEN_ROOM && perm != PRIVATE_ROOM {
        return Err(EBADRQC);
      }
      if key == 0 {
        return Err(EILSEQ);
      }
      if command == CREATE {
        a := Create(c, key, perm);
      } else if command == OPEN {
        a := Open(c, key);
      } else {
        a := Err(EILSEQ);
      }
    }

    lemma OwnedParts()
      requires Valid()
      ensures forall j :: 0 <= j < SERVICES ==> SlotOwned(j)
    {
      forall j | 0 <= j < SERVICES ensures SlotOwned(j) {
        OwnedEach(SERVICES, j);
      }
    }

    twostate lemma StillOwned(j: nat)
      requires unchanged(this`slots) && unchanged(slots) && j < slots.Length && old(SlotOwned(j)) && old(repr) <= repr
      requires slots[j] != null ==>
        && unchanged(slots[j]) && unchanged(slots[j].levels)
        && forall n :: n in old(slots[j].levels.nodes) ==> unchanged(n)
      ensures SlotOwned(j)
    {
      if slots[j] != null {
        Untouched(slots[j]);
      }
    }

    /** The elements of one service are taken into account. */
    ghost method Adopt(service: Service, at: nat)
      requires at < slots.Length && slots[at] == service && service in repr && service.levels in repr && service.Ok()
      requires forall j :: 0 <= j < slots.Length && j != at ==> SlotOwned(j)
      modifies this`repr
      ensures repr == old(repr) + set n | n in service.levels.nodes
      ensures forall j :: 0 <= j < slots.Length ==> SlotOwned(j)
    {
      repr := repr + set n | n in service.levels.nodes;
      forall j | 0 <= j < slots.Length ensures SlotOwned(j) {
        assert j != at ==> old(SlotOwned(j));
      }
    }

    /** Slot at is taken, and its service shares nothing with the others. */
    ghost predicate Apart(at: nat)
      reads this`slots, this`repr, slots, repr
    {
      && at < slots.Length && slots[at] != null && this !in repr && slots !in repr
      && (forall j :: 0 <= j < slots.Length ==> SlotOwned(j))
      && forall j :: 0 <= j < slots.Length && j != at && slots[j] != null ==>
           slots[j] != slots[at] && slots[j].levels != slots[at].levels
    }

    /** The service in slot at, and nothing of the others, is touched. */
    method DeliverIn(service: Service, ghost at: nat, it: Item) returns (r: int)
      requires Apart(at) && slots[at] == service && 0 <= it.level < LEVELS && Whole(it)
      requires |service.value.ready| == LEVELS == |service.value.sleepers|
      modifies this`repr, repr
      ensures this !in repr && slots !in repr && fresh(repr - old(repr)) && old(repr) <= repr
      ensures forall j :: 0 <= j < slots.Length ==> SlotOwned(j)
      ensures forall j :: 0 <= j < slots.Length && j != at && slots[j] != null ==>
        unchanged(slots[j])
      ensures service.sleepers == old(service.sleepers)
      ensures r == if Has(old(service.value).levels, it.level) then 1 else 0
      ensures service.value == if r == 1 then Delivered(old(service.value), it) else old(service.value)
    {
      assert SlotOwned(at);
      ghost var touched := service.levels.nodes;
      r := service.Deliver(it);
      forall j | 0 <= j < slots.Length && j != at ensures SlotOwned(j) {
        assert old(SlotOwned(j));
        assert slots[j] != null ==> forall n :: n in slots[j].levels.nodes ==> n !in touched;
        StillOwned(j);
      }
      Adopt(service, at);
    }

    /** The end of tag_send, once the service is found and the caller admitted. */
    method DeliverAt(service: Service, ghost at: nat, it: Item) returns (a: Answer)
      requires Valid() && at < SERVICES && slots[at] == service && 0 <= it.level < LEVELS && Whole(it)
      modifies this`repr, repr
      ensures Valid() && fresh(repr - old(repr)) && var m := old(Model());
        if Has(m.slots[at].value.levels, it.level) then
          a == Ok(0) && Model() == m.(slots := m.slots[at := Some(Delivered(m.slots[at].value, it))])
        else a == Err(EBADMSG) && Model() == m
    {
      ghost var m := Model().slots;
      OwnedParts();
      var r := DeliverIn(service, at, it);
      AllOwned(SERVICES);
      assert Model().slots == m[at := Some(service.value)];
      if r != 1 {
        return Err(EBADMSG);
      }
      return Ok(0);
    }

    /** A reader of the service in slot at parks, and nothing of the others is touched. */
    method ParkIn(service: Service, ghost at: nat, level: nat) returns (myEpoch: int)
      requires Apart(at) && slots[at] == service && level < LEVELS
      modifies repr
      ensures forall j :: 0 <= j < slots.Length ==> SlotOwned(j)
      ensures forall j :: 0 <= j < slots.Length && j != at && slots[j] != null ==> unchanged(slots[j])
      requires |service.value.ready| == LEVELS == |service.value.sleepers|
      ensures service.value == Parked(old(service.value), level) && service.sleepers == service.value.sleepers
      ensures myEpoch in {0, 1}
    {
      assert SlotOwned(at);
      myEpoch := service.Park(level);
      forall j | 0 <= j < slots.Length ensures SlotOwned(j) {
        assert old(SlotOwned(j));
        if j != at {
          StillOwned(j);
        }
      }
    }

    /** The wait of tag_receive. */
    method ParkAt(service: Service, ghost at: nat, level: nat)
      requires Valid() && at < SERVICES && slots[at] == service && level < LEVELS
      modifies repr
      ensures Valid() && var m := old(Model());
        Model() == m.(slots := m.slots[at := Some(Parked(m.slots[at].value, level))])
    {
      ghost var m := Model().slots;
      OwnedParts();
      var myEpoch := ParkIn(service, at, level);
      AllOwned(SERVICES);
      assert Model().slots == m[at := Some(service.value)];
    }

    /** The reader of the service in slot at leaves, and nothing of the others is touched. */
    method LeaveIn(service: Service, ghost at: nat, level: nat, myEpoch: int, interrupted: bool)
      returns (e: Element?)
      requires Apart(at) && slots[at] == service && level < LEVELS && myEpoch in {0, 1}
      requires |service.sleepers| == LEVELS && service.sleepers[level] > 0
      modifies repr
      ensures forall j :: 0 <= j < slots.Length ==> SlotOwned(j)
      ensures forall j :: 0 <= j < slots.Length && j != at && slots[j] != null ==> unchanged(slots[j])
      ensures service.value == old(service.value).(
        sleepers := old(service.sleepers)[level := old(service.sleepers)[level] - 1])
      ensures service.sleepers == service.value.sleepers
      ensures (if e == null then None else Some(ItemOf(e)))
           == if interrupted then None else Holds(old(service.value).levels, level)
      ensures e != null ==> Whole(ItemOf(e))
    {
      assert SlotOwned(at);
      e := service.Unpark(level, myEpoch, interrupted);
      forall j | 0 <= j < slots.Length ensures SlotOwned(j) {
        assert old(SlotOwned(j));
        if j != at {
          StillOwned(j);
        }
      }
    }

    /** tag_receive after the wait: the service is the one found before it. */
    method Leave(service: Service, ghost at: nat, level: nat, myEpoch: int, interrupted: bool) returns (e: Element?)
      requires Valid() && at < SERVICES && slots[at] == service && level < LEVELS && myEpoch in {0, 1}
      requires service.sleepers[level] > 0
      modifies repr
      ensures Valid() && Model() == RegistrySpec.Leave(old(Model()), at, level)
      ensures (if e == null then None else Some(ItemOf(e)))
           == if interrupted then None else Holds(old(Model()).slots[at].value.levels, level)
      ensures e != null ==> Whole(ItemOf(e))
    {
      ghost var m := Model().slots;
      OwnedParts();
      TagIndexIs(m, at, at);
      e := LeaveIn(service, at, level, myEpoch, interrupted);
      AllOwned(SERVICES);
      assert Model().slots == m[at := Some(service.value)];
    }

    /** Lines 325-340 of TAG_Messaging.c, for a reader that sampled myEpoch when it parked. */
    method FinishReceive(service: Service, ghost at: nat, level: nat, myEpoch: int, interrupted: bool,
                         buffer: array<char>, size: nat)
      returns (a: Answer)
      requires Valid() && at < SERVICES && slots[at] == service && level < LEVELS && myEpoch in {0, 1}
      requires service.sleepers[level] > 0 && size <= buffer.Length && buffer !in repr
      modifies repr, buffer
      ensures Valid() && Model() == RegistrySpec.Leave(old(Model()), at, level)
      ensures a == Woken(old(Model()), at, level, interrupted, size)
      ensures a.Ok? ==>
        var found := Holds(old(Model()).slots[at].value.levels, level).value;
        0 <= a.value <= buffer.Length && buffer[..a.value] == Take(found.message, size)
      ensures forall k :: (if a.Ok? then a.value else 0) <= k < buffer.Length ==> buffer[k] == old(buffer[k])
    {
      TagIndexIs(Model().slots, at, at);
      var e := Leave(service, at, level, myEpoch, interrupted);
      if e == null {
        return Err(EUCLEAN);
      }
      var bSize := Deliver(ItemOf(e), buffer, size);
      return Ok(bSize);
    }

    method RaiseIn(service: Service, ghost at: nat)
      requires Apart(at) && slots[at] == service
      modifies repr
      ensures forall j :: 0 <= j < slots.Length ==> SlotOwned(j)
      ensures forall j :: 0 <= j < slots.Length && j != at && slots[j] != null ==> unchanged(slots[j])
      ensures service.value == Raised(old(service.value)) && service.sleepers == old(service.sleepers)
    {
      assert SlotOwned(at);
      service.RaiseAll();
      forall j | 0 <= j < slots.Length ensures SlotOwned(j) {
        assert old(SlotOwned(j));
        if j != at {
          StillOwned(j);
        }
      }
    }

    /** The loop of AWAKE_ALL. */
    method RaiseAt(service: Service, ghost at: nat)
      requires Valid() && at < SERVICES && slots[at] == service
      modifies repr
      ensures Valid() && var m := old(Model());
        Model() == m.(slots := m.slots[at := Some(Raised(m.slots[at].value))])
    {
      ghost var m := Model().slots;
      OwnedParts();
      RaiseIn(service, at);
      AllOwned(SERVICES);
      assert Model().slots == m[at := Some(service.value)];
    }

    method TagSend(c: Caller, tag: int, level: nat, buffer: Buffer, size: nat) returns (a: Answer)
      requires Valid()
      modifies this`repr, repr
      ensures Valid() && fresh(repr - old(repr)) && (Model(), a) == RegistrySpec.TagSend(old(Model()), c, tag, level,
          buffer, size)
    {
      if size > MAX_MESSAGE_SIZE || buffer.Absent? {
        return Err(EXFULL);
      }
      if size > |buffer.content| {
        return Err(ENODATA);
      }
      var service: Service?, at := SearchTag(tag);
      if service == null {
        return Err(ENOMSG);
      }
      var ok := service.IsValidFor(c);
      if !ok {
        return Err(EBADRQC);
      }
      if level >= LEVELS {
        return Err(EBADSLT);
      }
      a := DeliverAt(service, at, Sent(level, buffer, size));
    }

    /** tag_receive up to the wait. */
    method TagReceive(c: Caller, tag: int, level: nat, buffer: Buffer, size: nat) returns (a: Answer)
      requires Valid()
      modifies repr
      ensures Valid() && (Model(), a) == RegistrySpec.TagReceive(old(Model()), c, tag, level, buffer, size)
    {
      if size > MAX_MESSAGE_SIZE || buffer.Absent? {
        return Err(EXFULL);
      }
      var service: Service?, at := SearchTag(tag);
      if service == null {
        return Err(ENOMSG);
      }
      var ok := service.IsValidFor(c);
      if !ok {
        return Err(EBADRQC);
      }
      if level >= LEVELS {
        return Err(EBADSLT);
      }
      ParkAt(service, at, level);
      return Sleeps;
    }

    /** tag_ctl_TBDE_AWAKE_ALL: the flags go up level by level. */
    method AwakeAll(c: Caller, tag: int) returns (a: Answer)
      requires Valid()
      modifies repr
      ensures Valid() && (Model(), a) == RegistrySpec.AwakeAll(old(Model()), c, tag)
    {
      var service: Service?, at := SearchTag(tag);
      if service == null {
        return Err(ENOMSG);
      }
      var ok := service.IsValidFor(c);
      if !ok {
        return Err(EBADRQC);
      }
      RaiseAt(service, at);
      return Ok(0);
    }

    /** Lines 423-424. */
    method Clear(tag: int)
      requires Valid() && 0 <= tag < SERVICES
      modifies slots
      ensures Valid() && Model() == old(Model()).(slots := old(Model()).slots[tag := None])
    {
      ghost var m := Model().slots;
      OwnedParts();
      slots[tag] := null;
      forall j | 0 <= j < SERVICES ensures SlotOwned(j) {
        assert old(SlotOwned(j));
      }
      AllOwned(SERVICES);
      assert Model().slots == m[tag := None];
    }

    method CountDown()
      requires Valid()
      modifies this`serviceCount
      ensures Valid() && Model() == Counted(old(Model()), -1)
    {
      ghost var m := Model().slots;
      serviceCount := (serviceCount - 1) % UINT_RANGE;
      assert Model().slots == m;
    }

    /** The checks of REMOVE, in their order; at is the slot of a service that may go. */
    method MayRemove(c: Caller, tag: int) returns (refused: Option<Errno>, at: int)
      requires Basic()
      ensures var i, m := TagIndex(Model().slots, tag), Model().slots;
        if i == SERVICES then refused == Some(ENODATA)
        else if !RegistrySpec.Valid(m[i].value, c) then refused == Some(EBADRQC)
        else if !Quiet(m[i].value) then refused == Some(EADDRINUSE)
        else refused.None? && at == i
    {
      at := 0;
      var service: Service?, slot := SearchTag(tag);
      if service == null {
        refused := Some(ENODATA);
        return;
      }
      at := service.tag;
      var ok := service.IsValidFor(c);
      if !ok {
        refused := Some(EBADRQC);
        return;
      }
      var quiet := service.IsQuiet();
      refused := if quiet then None else Some(EADDRINUSE);
    }

    /** tag_ctl_TBDE_REMOVE: refused while anyone sleeps on a level. */
    method Remove(c: Caller, tag: int) returns (a: Answer)
      requires Valid()
      modifies this`serviceCount, slots
      ensures Valid() && (Model(), a) == RegistrySpec.Remove(old(Model()), c, tag)
    {
      var refused, at := MayRemove(c, tag);
      if refused.Some? {
        return Err(refused.value);
      }
      Clear(at);
      CountDown();
      return Ok(0);
    }

    method TagCtl(c: Caller, tag: int, command: int) returns (a: Answer)
      requires Valid()
      modifies this`serviceCount, slots, repr
      ensures Valid() && (Model(), a) == RegistrySpec.TagCtl(old(Model()), c, tag, command)
    {
      if tag < 0 {
        return Err(ENOSR);
      }
      if command == AWAKE_ALL {
        a := AwakeAll(c, tag);
      } else if command == REMOVE {
        a := Remove(c, tag);
      } else {
        a := Err(EILSEQ);
      }
    }
  }

  lemma KeyIndexIs(m: seq<Option<Svc>>, key: int, i: nat)
    requires i <= |m| && (i < |m| ==> m[i].Some? && m[i].value.key == key)
    requires forall j :: 0 <= j < i && m[j].Some? ==> m[j].value.key != key
    ensures KeyIndex(m, key) == i
  {
    var f := KeyIndex(m, key);
    assert f < |m| ==> m[f].Some?;
  }

  lemma TagIndexIs(m: seq<Option<Svc>>, tag: int, i: nat)
    requires i <= |m| && (i < |m| ==> m[i].Some? && m[i].value.tag == tag)
    requires forall j :: 0 <= j < i && m[j].Some? ==> m[j].value.tag != tag
    ensures TagIndex(m, tag) == i
  {
    var f := TagIndex(m, tag);
    assert f < |m| ==> m[f].Some?;
  }

  lemma FreeIndexIs(m: seq<Option<Svc>>, i: nat)
    requires i <= |m| && (i < |m| ==> m[i].None?) && forall j :: 0 <= j < i ==> m[j].Some?
    ensures FreeIndex(m) == i
  {
    var f := FreeIndex(m);
    assert f < |m| ==> m[f].None?;
  }
}
