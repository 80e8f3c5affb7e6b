// The life of a room over whole runs of calls: who it lets in, who sleeps in it, when it can go, and that it is gone.
module RoomHistory {
  import opened RegistrySpec
  import opened RegistryRuns
  import opened RegistryAnswers
  import opened Sizes

  /** A creation was answered with this tag. */
  predicate Creates(e: Event, a: Answer, tag: int) { e.Get? && e.command == 0 && a == Ok(tag) }

  /** The removal of this tag succeeded. */
  predicate Removes(e: Event, a: Answer, tag: int) { e.Ctl? && e.tag == tag && e.command == 1 && a == Ok(0) }

  predicate NotRemoved(es: seq<Event>, answers: seq<Answer>, a: nat, n: nat, tag: int)
    requires n <= |es| == |answers|
  {
    forall m :: a <= m < n ==> !Removes(es[m], answers[m], tag)
  }

  predicate SameRoom(s: Svc, s': Svc) {
    s'.key == s.key && s'.tag == s.tag && s'.creator == s.creator && s'.perm == s.perm
  }

  /** Only its removal ends a room, and nothing changes whose it is. */
  lemma RoomStep(r: Reg, e: Event, tag: nat)
    requires Inv(r) && Sized(r) && InUse(r, tag) && !Removes(e, Next(r, e).1, tag)
    ensures InUse(Next(r, e).0, tag) && SameRoom(r.slots[tag].value, Next(r, e).0.slots[tag].value)
  {
    NextIsolates(r, e, tag);
    if !e.Get? && e.tag == tag {
      AddressedStep(r, e, tag);
    }
  }

  lemma AddressedStep(r: Reg, e: Event, tag: nat)
    requires Inv(r) && Sized(r) && InUse(r, tag) && !e.Get? && e.tag == tag && !Removes(e, Next(r, e).1, tag)
    ensures InUse(Next(r, e).0, tag) && SameRoom(r.slots[tag].value, Next(r, e).0.slots[tag].value)
  {
    match e
    case Send(c, _, level, buffer, size) => SendAnswers(r, c, tag, level, buffer, size);
    case Receive(c, _, level, buffer, size) => ReceiveAnswers(r, c, tag, level, buffer, size);
    case Ctl(c, _, command) =>
      if command !in {0, 1} {
        CtlRefuses(r, c, tag, command);
      } else {
        AwakeAnswers(r, c, tag);
        RemoveAnswers(r, c, tag);
      }
    case Wakes(_, level, interrupted, size) => WakeStep(r, tag, level, interrupted, size);
  }

  lemma WakeStep(r: Reg, tag: nat, level: nat, interrupted: bool, size: nat)
    requires Inv(r) && Sized(r) && InUse(r, tag)
    ensures var r' := Next(r, Wakes(tag, level, interrupted, size)).0;
      InUse(r', tag) && SameRoom(r.slots[tag].value, r'.slots[tag].value)
  {}

  /** From its creation until its removal, a room is what it was created as. */
  lemma {:induction false} RoomStays(rs: seq<Reg>, es: seq<Event>, answers: seq<Answer>, a: nat, n: nat, tag: nat)
    requires Run(rs, es, answers) && a < n <= |es| && Creates(es[a], answers[a], tag)
    requires NotRemoved(es, answers, a + 1, n, tag)
    ensures InUse(rs[n], tag) && var s := rs[n].slots[tag].value;
      s.key == es[a].key && s.tag == tag && s.creator == es[a].c.pid && s.perm == es[a].perm
    decreases n
  {
    RunKeepsInv(rs, es, answers, n - 1);
    RunStep(rs, es, answers, n - 1);
    if n == a + 1 {
      CreatedRoom(rs[a], es[a], tag);
    } else {
      RoomStays(rs, es, answers, a, n - 1, tag);
      RoomStep(rs[n - 1], es[n - 1], tag);
    }
  }

  lemma CreatedRoom(r: Reg, e: Event, tag: nat)
    requires Inv(r) && Sized(r) && Creates(e, Next(r, e).1, tag)
    ensures !InUse(r, tag) && InUse(Next(r, e).0, tag) && var s := Next(r, e).0.slots[tag].value;
      && s.key == e.key && s.tag == tag && s.creator == e.c.pid && s.perm == e.perm && e.perm in {0, 1} && e.key != 0
      && Unused(s)
  {
    if e.perm !in {0, 1} || e.key == 0 {
      GetRefuses(r, e.c, e.key, e.command, e.perm);
    } else {
      CreateAnswers(r, e.c, e.key, e.perm);
    }
  }

  // --------------------------------------------------------------------------------------------------------
  // Whom a private room lets in

  /** The call is addressed to the room with this tag and key. */
  predicate AsksFor(e: Event, tag: nat, key: int) {
    match e
    case Get(_, k, command, _) => command == 1 && k == key
    case Send(_, t, _, _, _) => t == tag
    case Receive(_, t, _, _, _) => t == tag
    case Ctl(_, t, _) => t == tag
    case Wakes(_, _, _, _) => false
  }

  /** The call gets past the checks that come before the one of the caller. */
  predicate WellFormed(e: Event) {
    match e
    case Get(_, key, _, perm) => key !in {0, -1} && perm in {0, 1}
    case Send(_, _, _, buffer, size) => size <= 4096 && buffer.Bytes? && size <= |buffer.content|
    case Receive(_, _, _, buffer, size) => size <= 4096 && buffer.Bytes?
    case Ctl(_, _, command) => command in {0, 1}
    case Wakes(_, _, _, _) => false
  }

  lemma ForeignRefused(r: Reg, e: Event, tag: nat)
    requires Inv(r) && Sized(r) && InUse(r, tag) && !e.Wakes? && AsksFor(e, tag, r.slots[tag].value.key)
    requires !Admits(r.slots[tag].value, e.c)
    ensures var (r', a) := Next(r, e); r' == r && a.Err? && (WellFormed(e) ==> a == Err(EBADRQC))
  {
    match e
    case Get(c, key, command, perm) =>
      if key == 0 || perm !in {0, 1} {
        GetRefuses(r, c, key, command, perm);
      } else {
        OpenAnswers(r, c, key, perm);
      }
    case Send(c, _, level, buffer, size) => SendAnswers(r, c, tag, level, buffer, size);
    case Receive(c, _, level, buffer, size) => ReceiveAnswers(r, c, tag, level, buffer, size);
    case Ctl(c, _, command) =>
      if command !in {0, 1} {
        CtlRefuses(r, c, tag, command);
      } else {
        AwakeAnswers(r, c, tag);
        RemoveAnswers(r, c, tag);
      }
  }

  /**
   * From the creation of a private room until its removal, every call for it by a caller that is neither its creator
   * nor uid 0 fails and changes nothing; if nothing else is wrong with the call, the answer is EBADRQC.
   */
  lemma PrivateRefuses(rs: seq<Reg>, es: seq<Event>, answers: seq<Answer>, a: nat, n: nat, tag: nat)
    requires Run(rs, es, answers) && a < n < |es| && Creates(es[a], answers[a], tag) && es[a].perm == 1
    requires NotRemoved(es, answers, a + 1, n, tag) && !es[n].Wakes? && AsksFor(es[n], tag, es[a].key)
    requires es[n].c.uid != 0 && es[n].c.pid != es[a].c.pid
    ensures rs[n + 1] == rs[n] && answers[n].Err? && (WellFormed(es[n]) ==> answers[n] == Err(EBADRQC))
  {
    RoomStays(rs, es, answers, a, n, tag);
    RunKeepsInv(rs, es, answers, n);
    RunStep(rs, es, answers, n);
    ForeignRefused(rs[n], es[n], tag);
  }

  // --------------------------------------------------------------------------------------------------------
  // Who sleeps in a room

  predicate Parks(e: Event, a: Answer, tag: nat, k: nat) {
    e.Receive? && e.tag == tag && e.level == k && a == Sleeps
  }

  /** A wake that found somebody. */
  predicate Unparks(r: Reg, e: Event, tag: nat, k: nat) {
    && e.Wakes? && e.tag == tag && e.level == k && InUse(r, tag)
    && k < |r.slots[tag].value.sleepers| && r.slots[tag].value.sleepers[k] > 0
  }

  /** The receives of calls a to n - 1 that sleep on level k, less those that have left. */
  ghost function Asleep(rs: seq<Reg>, es: seq<Event>, answers: seq<Answer>, a: nat, n: nat, tag: nat, k: nat): int
    requires a <= n <= |es| == |answers| && |es| < |rs|
    decreases n
  {
    if n == a then 0
    else
      Asleep(rs, es, answers, a, n - 1, tag, k) + Bin(Parks(es[n - 1], answers[n - 1], tag, k))
      - Bin(Unparks(rs[n - 1], es[n - 1], tag, k))
  }

  lemma SleepersStep(r: Reg, e: Event, tag: nat, k: nat)
    requires Inv(r) && Sized(r) && InUse(r, tag) && k < 32 && !Removes(e, Next(r, e).1, tag)
    ensures var (r', a) := Next(r, e);
      && InUse(r', tag) && |r.slots[tag].value.sleepers| == |r'.slots[tag].value.sleepers| == 32
      && r'.slots[tag].value.sleepers[k]
         == r.slots[tag].value.sleepers[k] + Bin(Parks(e, a, tag, k)) - Bin(Unparks(r, e, tag, k))
  {
    NextIsolates(r, e, tag);
    if !e.Get? && e.tag == tag {
      AddressedSleepers(r, e, tag, k);
    }
  }

  lemma AddressedSleepers(r: Reg, e: Event, tag: nat, k: nat)
    requires Inv(r) && Sized(r) && InUse(r, tag) && k < 32 && !Removes(e, Next(r, e).1, tag)
    requires !e.Get? && e.tag == tag
    ensures var (r', a) := Next(r, e);
      && InUse(r', tag) && |r'.slots[tag].value.sleepers| == 32
      && r'.slots[tag].value.sleepers[k]
         == r.slots[tag].value.sleepers[k] + Bin(Parks(e, a, tag, k)) - Bin(Unparks(r, e, tag, k))
  {
    match e
    case Send(c, _, level, buffer, size) => SendAnswers(r, c, tag, level, buffer, size);
    case Receive(c, _, level, buffer, size) => ReceiveAnswers(r, c, tag, level, buffer, size);
    case Ctl(c, _, command) =>
      if command !in {0, 1} {
        CtlRefuses(r, c, tag, command);
      } else {
        AwakeAnswers(r, c, tag);
        RemoveAnswers(r, c, tag);
      }
    case Wakes(_, level, interrupted, size) =>
      if level < 32 && r.slots[tag].value.sleepers[level] > 0 {
        WakeAnswers(r, tag, level, interrupted, size);
      } else {
        WakeNobody(r, tag, level, interrupted, size);
      }
  }

  lemma WakeNobody(r: Reg, tag: nat, level: nat, interrupted: bool, size: nat)
    requires Inv(r) && Sized(r) && InUse(r, tag) && (level < 32 ==> r.slots[tag].value.sleepers[level] == 0)
    ensures Next(r, Wakes(tag, level, interrupted, size)).0 == r
  {
    TagScanIsIndexing(r, tag);
  }

  /** From its creation on, the sleepers of a level are the receives that have parked there and not left. */
  lemma {:induction false} SleepersCounted(rs: seq<Reg>, es: seq<Event>, answers: seq<Answer>, a: nat, n: nat, tag: nat,
      k: nat)
    requires Run(rs, es, answers) && a < n <= |es| && Creates(es[a], answers[a], tag) && k < 32
    requires NotRemoved(es, answers, a + 1, n, tag)
    ensures InUse(rs[n], tag) && |rs[n].slots[tag].value.sleepers| == 32
    ensures rs[n].slots[tag].value.sleepers[k] == Asleep(rs, es, answers, a + 1, n, tag, k)
    decreases n
  {
    RunKeepsInv(rs, es, answers, n - 1);
    RunStep(rs, es, answers, n - 1);
    if n == a + 1 {
      CreatedRoom(rs[a], es[a], tag);
    } else {
      SleepersCounted(rs, es, answers, a, n - 1, tag, k);
      SleepersStep(rs[n - 1], es[n - 1], tag, k);
    }
  }

  /** As long as a receive sleeps on some level of a room, the room cannot be removed. */
  lemma SleeperKeepsRoom(rs: seq<Reg>, es: seq<Event>, answers: seq<Answer>, a: nat, n: nat, tag: nat, k: nat)
    requires Run(rs, es, answers) && a < n < |es| && Creates(es[a], answers[a], tag) && k < 32
    requires NotRemoved(es, answers, a + 1, n, tag) && Asleep(rs, es, answers, a + 1, n, tag, k) > 0
    requires es[n].Ctl? && es[n].tag == tag && es[n].command == 1
    ensures rs[n + 1] == rs[n] && answers[n] in {Err(EADDRINUSE), Err(EBADRQC)}
  {
    SleepersCounted(rs, es, answers, a, n, tag, k);
    RunKeepsInv(rs, es, answers, n);
    RunStep(rs, es, answers, n);
    RemoveAnswers(rs[n], es[n].c, tag);
  }

  // --------------------------------------------------------------------------------------------------------
  // After the removal

  predicate NotCreated(es: seq<Event>, answers: seq<Answer>, a: nat, n: nat, tag: nat)
    requires n <= |es| == |answers|
  {
    forall m :: a <= m < n ==> !Creates(es[m], answers[m], tag)
  }

  /** A slot is taken only by a creation, and with its key. */
  lemma SlotBack(r: Reg, e: Event, i: nat)
    requires Inv(r) && Sized(r) && InUse(Next(r, e).0, i)
    ensures var (r', a) := Next(r, e);
      || (InUse(r, i) && r'.slots[i].value.key == r.slots[i].value.key)
      || (Creates(e, a, i) && r'.slots[i].value.key == e.key)
  {
    NextKeepsInv(r, e);
    if e.Get? {
      GetBack(r, e, i);
    } else {
      NextIsolates(r, e, i);
      if e.tag == i && InUse(r, i) && !Removes(e, Next(r, e).1, i) {
        RoomStep(r, e, i);
      } else if e.tag == i {
        AddressedBack(r, e, i);
      }
    }
  }

  lemma GetBack(r: Reg, e: Event, i: nat)
    requires Inv(r) && Sized(r) && e.Get? && InUse(Next(r, e).0, i)
    ensures var (r', a) := Next(r, e);
      || (InUse(r, i) && r'.slots[i].value.key == r.slots[i].value.key)
      || (Creates(e, a, i) && r'.slots[i].value.key == e.key)
  {
    if e.perm !in {0, 1} || e.key == 0 || e.command !in {0, 1} {
      GetRefuses(r, e.c, e.key, e.command, e.perm);
    } else if e.command == 0 {
      CreateAnswers(r, e.c, e.key, e.perm);
    } else {
      OpenAnswers(r, e.c, e.key, e.perm);
    }
  }

  /** A call on a tag that no service has leaves its slot empty, and a removal that succeeds empties it. */
  lemma AddressedBack(r: Reg, e: Event, i: nat)
    requires Inv(r) && Sized(r) && i < 256 && !e.Get? && e.tag == i
    requires !InUse(r, i) || Removes(e, Next(r, e).1, i)
    ensures !InUse(Next(r, e).0, i)
  {
    TagScanIsIndexing(r, i);
    match e
    case Send(c, _, level, buffer, size) => SendAnswers(r, c, i, level, buffer, size);
    case Receive(c, _, level, buffer, size) => ReceiveAnswers(r, c, i, level, buffer, size);
    case Ctl(c, _, command) =>
      if command !in {0, 1} {
        CtlRefuses(r, c, i, command);
      } else {
        AwakeAnswers(r, c, i);
        RemoveAnswers(r, c, i);
      }
    case Wakes(_, _, _, _) =>
  }

  /** A removed room stays away until a creation is answered with its tag. */
  lemma {:induction false} GoneStays(rs: seq<Reg>, es: seq<Event>, answers: seq<Answer>, a: nat, n: nat, tag: nat)
    requires Run(rs, es, answers) && a < n <= |es| && Removes(es[a], answers[a], tag)
    requires NotCreated(es, answers, a + 1, n, tag)
    ensures !InUse(rs[n], tag)
    decreases n
  {
    RunKeepsInv(rs, es, answers, n - 1);
    RunStep(rs, es, answers, n - 1);
    if n == a + 1 {
      RemoveAnswers(rs[a], es[a].c, tag);
    } else {
      GoneStays(rs, es, answers, a, n - 1, tag);
      if InUse(rs[n], tag) { SlotBack(rs[n - 1], es[n - 1], tag); }
    }
  }

  /** Until then every call for its tag fails, and no open answers it. */
  lemma GoneRefuses(rs: seq<Reg>, es: seq<Event>, answers: seq<Answer>, a: nat, n: nat, tag: nat)
    requires Run(rs, es, answers) && a < n < |es| && Removes(es[a], answers[a], tag)
    requires NotCreated(es, answers, a + 1, n, tag) && WellFormed(es[n])
    ensures es[n].Get? && es[n].command == 1 ==> answers[n] != Ok(tag)
    ensures !es[n].Get? && es[n].tag == tag ==> rs[n + 1] == rs[n]
    ensures (es[n].Send? || es[n].Receive?) && es[n].tag == tag ==> answers[n] == Err(ENOMSG)
    ensures es[n].Ctl? && es[n].tag == tag ==> answers[n] == Err(if es[n].command == 0 then ENOMSG else ENODATA)
  {
    GoneStays(rs, es, answers, a, n, tag);
    RunKeepsInv(rs, es, answers, n);
    RunStep(rs, es, answers, n);
    match es[n]
    case Get(c, key, command, perm) => if command == 1 { OpenTagged(rs[n], c, key, perm); }
    case Send(c, t, level, buffer, size) => SendAnswers(rs[n], c, t, level, buffer, size);
    case Receive(c, t, level, buffer, size) => ReceiveAnswers(rs[n], c, t, level, buffer, size);
    case Ctl(c, t, command) =>
      if t == tag {
        AwakeAnswers(rs[n], c, tag);
        RemoveAnswers(rs[n], c, tag);
      }
  }

  /** What an open answers is the tag of a room in use. */
  lemma OpenTagged(r: Reg, c: Caller, key: int, perm: int)
    requires Inv(r) && Sized(r) && key != 0 && perm in {0, 1}
    ensures var a := Next(r, Get(c, key, 1, perm)).1; a.Ok? ==> InUse(r, a.value)
  {
    OpenAnswers(r, c, key, perm);
    if i :| InUse(r, i) && r.slots[i].value.key == key {
      assert key != -1 ==> Next(r, Get(c, key, 1, perm)).1 in {Ok(i), Err(EBADRQC)};
    }
  }

  /** No service has this key. */
  predicate Absent(r: Reg, key: int) {
    forall i :: 0 <= i < |r.slots| && r.slots[i].Some? ==> r.slots[i].value.key != key
  }

  /** A public key that is free stays so until a creation with it succeeds. */
  lemma {:induction false} KeyStaysFree(rs: seq<Reg>, es: seq<Event>, answers: seq<Answer>, a: nat, n: nat, key: int)
    requires Run(rs, es, answers) && a <= n <= |es| && Absent(rs[a], key)
    requires forall m :: a <= m < n && es[m].Get? && es[m].command == 0 && es[m].key == key ==> answers[m].Err?
    ensures Absent(rs[n], key)
    decreases n
  {
    if n == a {
    } else {
      KeyStaysFree(rs, es, answers, a, n - 1, key);
      RunKeepsInv(rs, es, answers, n - 1);
      RunStep(rs, es, answers, n - 1);
      forall i | 0 <= i < |rs[n].slots| && rs[n].slots[i].Some? ensures rs[n].slots[i].value.key != key {
        SlotBack(rs[n - 1], es[n - 1], i);
      }
    }
  }

  /** So the public key of a removed room is free at once, and opening it fails until it is created again. */
  lemma KeyGone(rs: seq<Reg>, es: seq<Event>, answers: seq<Answer>, a: nat, n: nat, tag: nat, key: int)
    requires Run(rs, es, answers) && a < n < |es| && Removes(es[a], answers[a], tag) && InUse(rs[a], tag)
    requires key == rs[a].slots[tag].value.key && key != -1
    requires forall m :: a < m < n && es[m].Get? && es[m].command == 0 && es[m].key == key ==> answers[m].Err?
    requires es[n].Get? && es[n].command == 1 && es[n].key == key && es[n].perm in {0, 1}
    ensures key != 0 && answers[n] == Err(ENOMSG)
  {
    RunKeepsInv(rs, es, answers, a);
    RunStep(rs, es, answers, a);
    RemoveAnswers(rs[a], es[a].c, tag);
    assert SvcOk(rs[a].slots[tag].value, tag);
    assert Absent(rs[a + 1], key);
    KeyStaysFree(rs, es, answers, a + 1, n, key);
    RunKeepsInv(rs, es, answers, n);
    RunStep(rs, es, answers, n);
    OpenAnswers(rs[n], es[n].c, key, es[n].perm);
  }
}
