// What each call on the registry answers and leaves behind, field by field, with the numbers of the source.
module RegistryAnswers {
  import opened ListSpec
  import opened RegistrySpec
  import opened RegistryRuns

  /** Slot tag holds a service. */
  predicate InUse(r: Reg, tag: int) { 0 <= tag < |r.slots| && r.slots[tag].Some? }

  /** uid 0, an open room, or the creator's own private room. */
  predicate Admits(s: Svc, c: Caller) { c.uid == 0 || s.perm == 0 || (s.perm == 1 && s.creator == c.pid) }

  /** Nothing has changed outside slot tag. */
  predicate Elsewhere(r: Reg, r': Reg, tag: int) {
    |r'.slots| == |r.slots| && forall j :: 0 <= j < |r.slots| && j != tag ==> r'.slots[j] == r.slots[j]
  }

  /** A service that nobody has used. */
  predicate Unused(s: Svc) {
    && |s.ready| == |s.sleepers| == |s.levels| == 32
    && (forall k :: 0 <= k < 32 ==> !s.ready[k] && s.sleepers[k] == 0)
    && (forall k :: 0 <= k < 32 ==> s.levels[31 - k] == Item(k, "", 0))
  }

  // --------------------------------------------------------------------------------------------------------
  // tag_get

  /** The checks of permission, key and command. */
  lemma GetRefuses(r: Reg, c: Caller, key: int, command: int, perm: int)
    requires Inv(r) && (perm !in {0, 1} || key == 0 || command !in {0, 1})
    ensures Sized(r) && Next(r, Get(c, key, command, perm)) == (r, Err(if perm !in {0, 1} then EBADRQC else EILSEQ))
  {
    InvSized(r);
  }

  /** CREATE: command 0. */
  lemma CreateAnswers(r: Reg, c: Caller, key: int, perm: int)
    requires Inv(r) && key != 0 && perm in {0, 1}
    ensures Sized(r) && var (r', a) := Next(r, Get(c, key, 0, perm));
      if forall i :: 0 <= i < 256 ==> InUse(r, i) then a == Err(ETOOMANYREFS) && r' == r
      else if key != -1 && exists i :: InUse(r, i) && r.slots[i].value.key == key then a == Err(EBADR) && r' == r
      else
        && a.Ok? && 0 <= a.value < 256 && !InUse(r, a.value) && (forall j :: 0 <= j < a.value ==> InUse(r, j))
        && Elsewhere(r, r', a.value) && r'.count == r.count + 1 && InUse(r', a.value)
        && var s := r'.slots[a.value].value;
        && s.key == key && s.tag == a.value && s.creator == c.pid && s.perm == perm && Unused(s)
  {
    InvSized(r);
    CreateExactly(r, c, key, perm);
    if Full(r) {
      assert forall i :: 0 <= i < 256 ==> InUse(r, i);
    } else {
      var i :| 0 <= i < |r.slots| && !r.slots[i].Some?;
      assert !InUse(r, i);
      assert Taken(r, key) <==> key != -1 && exists i :: InUse(r, i) && r.slots[i].value.key == key;
    }
  }

  /** OPEN: command 1; the permission passed does not matter. */
  lemma OpenAnswers(r: Reg, c: Caller, key: int, perm: int)
    requires Inv(r) && key != 0 && perm in {0, 1}
    ensures Sized(r) && var (r', a) := Next(r, Get(c, key, 1, perm));
      && r' == r
      && (key == -1 ==> a == Err(EBADSLT))
      && (key != -1 && (forall i :: InUse(r, i) ==> r.slots[i].value.key != key) ==> a == Err(ENOMSG))
      && (forall i :: InUse(r, i) && r.slots[i].value.key == key && key != -1 ==>
            a == if Admits(r.slots[i].value, c) then Ok(i) else Err(EBADRQC))
  {
    InvSized(r);
    var k := KeyIndex(r.slots, key);
    if k < |r.slots| { assert InUse(r, k) && SvcOk(r.slots[k].value, k); }
    forall i | InUse(r, i) && r.slots[i].value.key == key && key != -1 ensures i == k {}
  }

  // --------------------------------------------------------------------------------------------------------
  // tag_send and tag_receive

  /** What a send leaves of the service: the message at its level, the flag up if somebody sleeps there. */
  predicate HasTaken(s: Svc, s': Svc, level: nat, it: Item) {
    && level < 32 && |s.levels| == |s.ready| == |s.sleepers| == 32
    && s'.key == s.key && s'.tag == s.tag && s'.creator == s.creator && s'.perm == s.perm
    && s'.sleepers == s.sleepers && s'.levels == s.levels[31 - level := it]
    && s'.ready == if s.sleepers[level] > 0 then s.ready[level := true] else s.ready
  }

  lemma SendAnswers(r: Reg, c: Caller, tag: int, level: nat, buffer: Buffer, size: nat)
    requires Inv(r)
    ensures Sized(r) && var (r', a) := Next(r, Send(c, tag, level, buffer, size));
      if size > 4096 || buffer.Absent? then (r', a) == (r, Err(EXFULL))
      else if size > |buffer.content| then (r', a) == (r, Err(ENODATA))
      else if !InUse(r, tag) then (r', a) == (r, Err(ENOMSG))
      else if !Admits(r.slots[tag].value, c) then (r', a) == (r, Err(EBADRQC))
      else if level >= 32 then (r', a) == (r, Err(EBADSLT))
      else
        && a == Ok(0) && Elsewhere(r, r', tag) && r'.count == r.count && InUse(r', tag)
        && HasTaken(r.slots[tag].value, r'.slots[tag].value, level, Item(level, buffer.content[..size], size))
  {
    InvSized(r);
    TagScanIsIndexing(r, tag);
    if InUse(r, tag) && level < 32 {
      assert SvcOk(r.slots[tag].value, tag);
      FirstAtIs(r.slots[tag].value.levels, level, 31 - level);
    }
  }

  /** What a receive leaves of the service: the flag down, one more sleeper. */
  predicate HasParked(s: Svc, s': Svc, level: nat) {
    && level < 32 && |s.ready| == |s.sleepers| == 32
    && s'.key == s.key && s'.tag == s.tag && s'.creator == s.creator && s'.perm == s.perm && s'.levels == s.levels
    && s'.ready == s.ready[level := false] && s'.sleepers == s.sleepers[level := s.sleepers[level] + 1]
  }

  lemma ReceiveAnswers(r: Reg, c: Caller, tag: int, level: nat, buffer: Buffer, size: nat)
    requires Inv(r)
    ensures Sized(r) && var (r', a) := Next(r, Receive(c, tag, level, buffer, size));
      if size > 4096 || buffer.Absent? then (r', a) == (r, Err(EXFULL))
      else if !InUse(r, tag) then (r', a) == (r, Err(ENOMSG))
      else if !Admits(r.slots[tag].value, c) then (r', a) == (r, Err(EBADRQC))
      else if level >= 32 then (r', a) == (r, Err(EBADSLT))
      else
        && a == Sleeps && Elsewhere(r, r', tag) && r'.count == r.count && InUse(r', tag)
        && HasParked(r.slots[tag].value, r'.slots[tag].value, level)
  {
    InvSized(r);
    TagScanIsIndexing(r, tag);
    if InUse(r, tag) { assert SvcOk(r.slots[tag].value, tag); }
  }

  /** What a reader that leaves changes: one sleeper less. */
  predicate HasLeft(s: Svc, s': Svc, level: nat) {
    && level < 32 && |s.sleepers| == 32 && s.sleepers[level] > 0
    && s'.key == s.key && s'.tag == s.tag && s'.creator == s.creator && s'.perm == s.perm && s'.levels == s.levels
    && s'.ready == s.ready && s'.sleepers == s.sleepers[level := s.sleepers[level] - 1]
  }

  /** A reader that sleeps is woken or interrupted. */
  lemma WakeAnswers(r: Reg, tag: int, level: nat, interrupted: bool, size: nat)
    requires Inv(r) && InUse(r, tag) && level < 32
    ensures Sized(r) && |r.slots[tag].value.sleepers| == |r.slots[tag].value.levels| == 32
    ensures r.slots[tag].value.sleepers[level] > 0 ==> var (r', a) := Next(r, Wakes(tag, level, interrupted, size));
      && Elsewhere(r, r', tag) && r'.count == r.count && InUse(r', tag)
      && HasLeft(r.slots[tag].value, r'.slots[tag].value, level)
      && var it := r.slots[tag].value.levels[31 - level];
      && a == if interrupted then Err(EUCLEAN) else Ok(if size < it.size then size else it.size)
  {
    InvSized(r);
    TagScanIsIndexing(r, tag);
    assert SvcOk(r.slots[tag].value, tag);
    FirstAtIs(r.slots[tag].value.levels, level, 31 - level);
  }

  // --------------------------------------------------------------------------------------------------------
  // tag_ctl

  lemma CtlRefuses(r: Reg, c: Caller, tag: int, command: int)
    requires Inv(r) && (tag < 0 || command !in {0, 1})
    ensures Sized(r) && Next(r, Ctl(c, tag, command)) == (r, Err(if tag < 0 then ENOSR else EILSEQ))
  {
    InvSized(r);
  }

  /** AWAKE_ALL: command 0. */
  lemma AwakeAnswers(r: Reg, c: Caller, tag: nat)
    requires Inv(r)
    ensures Sized(r) && var (r', a) := Next(r, Ctl(c, tag, 0));
      if !InUse(r, tag) then (r', a) == (r, Err(ENOMSG))
      else if !Admits(r.slots[tag].value, c) then (r', a) == (r, Err(EBADRQC))
      else
        && a == Ok(0) && Elsewhere(r, r', tag) && r'.count == r.count && InUse(r', tag)
        && var s, s' := r.slots[tag].value, r'.slots[tag].value;
        && s'.key == s.key && s'.tag == s.tag && s'.creator == s.creator && s'.perm == s.perm
        && s'.levels == s.levels && s'.sleepers == s.sleepers
        && |s'.ready| == 32 && forall k :: 0 <= k < 32 ==> s'.ready[k]
  {
    InvSized(r);
    TagScanIsIndexing(r, tag);
  }

  /** Somebody sleeps on a level of the service. */
  predicate Busy(s: Svc) { exists k :: 0 <= k < |s.sleepers| && s.sleepers[k] > 0 }

  /** REMOVE: command 1. */
  lemma RemoveAnswers(r: Reg, c: Caller, tag: nat)
    requires Inv(r)
    ensures Sized(r) && var (r', a) := Next(r, Ctl(c, tag, 1));
      if !InUse(r, tag) then (r', a) == (r, Err(ENODATA))
      else if !Admits(r.slots[tag].value, c) then (r', a) == (r, Err(EBADRQC))
      else if Busy(r.slots[tag].value) then (r', a) == (r, Err(EADDRINUSE))
      else a == Ok(0) && Elsewhere(r, r', tag) && r'.slots[tag].None? && r'.count == r.count - 1
  {
    InvSized(r);
    TagScanIsIndexing(r, tag);
    OccupiedBound(r.slots);
    if InUse(r, tag) {
      assert SvcOk(r.slots[tag].value, tag);
      assert r.count > 0;
    }
  }
}
