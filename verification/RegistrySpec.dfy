// The TAG service registry as a function of its state: what each system call answers and leaves behind, with calls
// taken one at a time. A call that returns an error with a lock still held counts as releasing it.
module RegistrySpec {
  import opened ListSpec
  import LevelStore
  import opened Sizes

  const MAX_MESSAGE_SIZE: nat := 4096

  const TAG_IPC_PRIVATE: int := -1
  const CREATE: int := 0
  const OPEN: int := 1
  const OPEN_ROOM: int := 0
  const PRIVATE_ROOM: int := 1
  const AWAKE_ALL: int := 0
  const REMOVE: int := 1

  datatype Option<+T> = None | Some(value: T)

  datatype Errno =
    | ETOOMANYREFS | EBADR | EFAULT | EBADSLT | EBADRQC | ENOMSG | EILSEQ | EXFULL | ENODATA | EBADMSG
    | ENOSR | EADDRINUSE | EUCLEAN

  /** Sleeps: the caller is now parked on its level. */
  datatype Answer = Ok(value: int) | Err(error: Errno) | Sleeps

  /** current_cred()->uid and current->tgid. */
  datatype Caller = Caller(uid: int, pid: int)

  /** levels: the message list; ready: the flags; sleepers: the readers parked on each level. */
  datatype Svc = Svc(key: int, tag: int, creator: int, perm: int, levels: seq<Item>, ready: seq<bool>,
      sleepers: seq<nat>)

  datatype Reg = Reg(slots: seq<Option<Svc>>, count: nat)

  /** The registry after initService. */
  function NoServices(): Reg { Reg(seq(SERVICES, _ => None), 0) }

  /** A user buffer: absent, or the bytes that can be read from its address on. */
  datatype Buffer = Absent | Bytes(content: string)

  /** The message that tag_send copies in: exactly size bytes. */
  function Sent(level: int, buffer: Buffer, size: nat): Item
    requires buffer.Bytes? && size <= |buffer.content|
  {
    Item(level, buffer.content[..size], size)
  }

  // --------------------------------------------------------------------------------------------------------

  predicate Valid(s: Svc, c: Caller) {
    c.uid == 0 || s.perm == OPEN_ROOM || (s.perm == PRIVATE_ROOM && s.creator == c.pid)
  }

  /** The first slot whose service satisfies the scan of searchTAG_Service_withKey, or |slots|. */
  function KeyIndex(slots: seq<Option<Svc>>, key: int): (i: nat)
    ensures i <= |slots|
    ensures i < |slots| ==> slots[i].Some? && slots[i].value.key == key
    ensures forall j :: 0 <= j < i && slots[j].Some? ==> slots[j].value.key != key
  {
    if slots == [] || (slots[0].Some? && slots[0].value.key == key) then 0
    else
      var i := KeyIndex(slots[1..], key);
      assert forall j :: 1 <= j < i + 1 ==> slots[j] == slots[1..][j - 1];
      i + 1
  }

  function TagIndex(slots: seq<Option<Svc>>, tag: int): (i: nat)
    ensures i <= |slots|
    ensures i < |slots| ==> slots[i].Some? && slots[i].value.tag == tag
    ensures forall j :: 0 <= j < i && slots[j].Some? ==> slots[j].value.tag != tag
  {
    if slots == [] || (slots[0].Some? && slots[0].value.tag == tag) then 0
    else
      var i := TagIndex(slots[1..], tag);
      assert forall j :: 1 <= j < i + 1 ==> slots[j] == slots[1..][j - 1];
      i + 1
  }

  function FreeIndex(slots: seq<Option<Svc>>): (i: nat)
    ensures i <= |slots|
    ensures i < |slots| ==> slots[i].None?
    ensures forall j :: 0 <= j < i ==> slots[j].Some?
  {
    if slots == [] || slots[0].None? then 0
    else
      var i := FreeIndex(slots[1..]);
      assert forall j :: 1 <= j < i + 1 ==> slots[j] == slots[1..][j - 1];
      i + 1
  }

  function NewSvc(key: int, tag: int, creator: int, perm: int): Svc {
    Svc(key, tag, creator, perm, LevelStore.Empty(LEVELS), seq(LEVELS, _ => false), seq(LEVELS, _ => 0))
  }

  /** new_TAG_Service: the first free slot, whose number becomes the tag; None when all are taken. */
  function Place(r: Reg, key: int, creator: int, perm: int): (Reg, Option<int>) {
    var i := FreeIndex(r.slots);
    if i == |r.slots| then (r, None)
    else (r.(slots := r.slots[i := Some(NewSvc(key, i, creator, perm))]), Some(i))
  }

  function Counted(r: Reg, d: int): Reg {
    r.(count := (r.count + d) % UINT_RANGE)
  }

  function Create(r: Reg, c: Caller, key: int, perm: int): (Reg, Answer) {
    if r.count >= SERVICES then (r, Err(ETOOMANYREFS))
    else if key != TAG_IPC_PRIVATE && KeyIndex(r.slots, key) < |r.slots| then (r, Err(EBADR))
    else
      match Place(r, key, c.pid, perm)
      case (r', Some(tag)) => (Counted(r', 1), Ok(tag))
      case (_, None) => (r, Err(if key == TAG_IPC_PRIVATE then EBADR else EFAULT))
  }

  function Open(r: Reg, c: Caller, key: int): Answer {
    if key == TAG_IPC_PRIVATE then Err(EBADSLT)
    else
      var i := KeyIndex(r.slots, key);
      if i == |r.slots| then Err(ENOMSG)
      else if !Valid(r.slots[i].value, c) then Err(EBADRQC)
      else Ok(r.slots[i].value.tag)
  }

  function TagGet(r: Reg, c: Caller, key: int, command: int, perm: int): (Reg, Answer) {
    if perm != OPEN_ROOM && perm != PRIVATE_ROOM then (r, Err(EBADRQC))
    else if key == 0 then (r, Err(EILSEQ))
    else if command == CREATE then Create(r, c, key, perm)
    else if command == OPEN then (r, Open(r, c, key))
    else (r, Err(EILSEQ))
  }

  /** The part of tag_send and tag_receive that finds the service and checks the caller and the level. */
  function Access(r: Reg, c: Caller, tag: int, level: int): (e: Option<Errno>)
    ensures e.None? ==>
      && TagIndex(r.slots, tag) < |r.slots| && Valid(r.slots[TagIndex(r.slots, tag)].value, c) && level < LEVELS
  {
    var i := TagIndex(r.slots, tag);
    if i == |r.slots| then Some(ENOMSG)
    else if !Valid(r.slots[i].value, c) then Some(EBADRQC)
    else if level >= LEVELS then Some(EBADSLT)
    else None
  }

  function TagSend(r: Reg, c: Caller, tag: int, level: nat, buffer: Buffer, size: nat): (Reg, Answer)
    requires Sized(r)
  {
    if size > MAX_MESSAGE_SIZE || buffer.Absent? then (r, Err(EXFULL))
    else if size > |buffer.content| then (r, Err(ENODATA))
    else
      match Access(r, c, tag, level)
      case Some(e) => (r, Err(e))
      case None =>
        var i := TagIndex(r.slots, tag);
        var s := r.slots[i].value;
        if !Has(s.levels, level) then (r, Err(EBADMSG))
        else (r.(slots := r.slots[i := Some(Delivered(s, Sent(level, buffer, size)))]), Ok(0))
  }

  /** The message is swapped in; the flag goes up only if somebody sleeps on the level. */
  function Delivered(s: Svc, it: Item): Svc
    requires 0 <= it.level < |s.ready| && |s.ready| == |s.sleepers|
  {
    var ready := if s.sleepers[it.level] > 0 then s.ready[it.level := true] else s.ready;
    s.(levels := Swapped(s.levels, it), ready := ready)
  }

  /** The flag goes down and one more reader sleeps. */
  function Parked(s: Svc, level: nat): Svc
    requires level < |s.ready| && |s.ready| == |s.sleepers|
  {
    s.(ready := s.ready[level := false], sleepers := s.sleepers[level := s.sleepers[level] + 1])
  }

  /** tag_receive up to the wait of rcu_list_search: the flag goes down and the caller parks. */
  function TagReceive(r: Reg, c: Caller, tag: int, level: nat, buffer: Buffer, size: nat): (Reg, Answer)
    requires Sized(r)
  {
    if size > MAX_MESSAGE_SIZE || buffer.Absent? then (r, Err(EXFULL))
    else
      match Access(r, c, tag, level)
      case Some(e) => (r, Err(e))
      case None =>
        var i := TagIndex(r.slots, tag);
        var s := r.slots[i].value;
        (r.(slots := r.slots[i := Some(Parked(s, level))]), Sleeps)
  }

  /** A reader of one service leaves the wait, woken or interrupted. */
  function Leave(r: Reg, tag: int, level: nat): Reg
    requires Sized(r)
  {
    var i := TagIndex(r.slots, tag);
    if i == |r.slots| || level >= LEVELS || r.slots[i].value.sleepers[level] == 0 then r
    else
      var s := r.slots[i].value;
      r.(slots := r.slots[i := Some(s.(sleepers := s.sleepers[level := s.sleepers[level] - 1]))])
  }

  /** The message that a search of the level finds. */
  function Holds(xs: seq<Item>, level: int): Option<Item> {
    if Has(xs, level) then Some(xs[FirstAt(xs, level)]) else None
  }

  /** tag_receive after the wait: what it answers to the reader that leaves. */
  function Woken(r: Reg, tag: int, level: nat, interrupted: bool, size: nat): Answer {
    var i := TagIndex(r.slots, tag);
    if interrupted || i == |r.slots| then Err(EUCLEAN)
    else
      match Holds(r.slots[i].value.levels, level)
      case Some(it) => Ok(Min(size, it.size))
      case None => Err(EUCLEAN)
  }

  /** All flags go up. */
  function Raised(s: Svc): Svc { s.(ready := seq(LEVELS, _ => true)) }

  function AwakeAll(r: Reg, c: Caller, tag: int): (Reg, Answer) {
    var i := TagIndex(r.slots, tag);
    if i == |r.slots| then (r, Err(ENOMSG))
    else if !Valid(r.slots[i].value, c) then (r, Err(EBADRQC))
    else (r.(slots := r.slots[i := Some(Raised(r.slots[i].value))]), Ok(0))
  }

  predicate Quiet(s: Svc) {
    forall k :: 0 <= k < |s.sleepers| ==> s.sleepers[k] == 0
  }

  function Remove(r: Reg, c: Caller, tag: int): (Reg, Answer) {
    var i := TagIndex(r.slots, tag);
    if i == |r.slots| then (r, Err(ENODATA))
    else if !Valid(r.slots[i].value, c) then (r, Err(EBADRQC))
    else if !Quiet(r.slots[i].value) then (r, Err(EADDRINUSE))
    else (Counted(r.(slots := r.slots[i := None]), -1), Ok(0))
  }

  function TagCtl(r: Reg, c: Caller, tag: int, command: int): (Reg, Answer) {
    if tag < 0 then (r, Err(ENOSR))
    else if command == AWAKE_ALL then AwakeAll(r, c, tag)
    else if command == REMOVE then Remove(r, c, tag)
    else (r, Err(EILSEQ))
  }

  /** The array sizes of the C structures. */
  predicate Sized(r: Reg) {
    forall i :: 0 <= i < |r.slots| && r.slots[i].Some? ==>
      |r.slots[i].value.ready| == LEVELS && |r.slots[i].value.sleepers| == LEVELS
  }
}
