// The status of the registries that the system calls make: what scan_Service shows of them, and what it tells.
module StatusRegistry {
  import opened RegistrySpec
  import opened RegistryRuns
  import opened StatusText
  import opened StatusReading
  import opened Sizes

  /** The waiters of a list are the readers that sleep on its levels. */
  function Waiters(s: Svc): seq<int> {
    seq(|s.sleepers|, k requires 0 <= k < |s.sleepers| => s.sleepers[k])
  }

  /** What is shown of a slot. */
  function ShownSlot(x: Option<Svc>): Slot {
    match x
    case None => Free
    case Some(s) => Used(Row(s.tag, s.creator, s.key, Waiters(s)))
  }

  function Shown(slots: seq<Option<Svc>>): seq<Slot> {
    seq(|slots|, i requires 0 <= i < |slots| => ShownSlot(slots[i]))
  }

  /** The text in the buffer that the device asks for, without its terminator. */
  function StatusOf(r: Reg): string { Take(Listing(WORDS, Shown(r.slots), |r.slots|), STATUS_SIZE_MAX - 1) }

  lemma {:induction false} UsedIsOccupied(slots: seq<Option<Svc>>, n: nat)
    requires n <= |slots|
    ensures UsedCount(Shown(slots), n) == Occupied(slots[..n])
  {
    if n == 0 {
    } else {
      UsedIsOccupied(slots, n - 1);
      assert slots[..n][..n - 1] == slots[..n - 1];
    }
  }

  /** In every registry that calls can make, services stand in place, and the counter says how many are shown. */
  lemma ShownInPlace(r: Reg)
    requires Inv(r)
    ensures InPlace(Shown(r.slots)) && UsedCount(Shown(r.slots), |r.slots|) == r.count
  {
    UsedIsOccupied(r.slots, |r.slots|);
    assert r.slots[..|r.slots|] == r.slots;
    forall i | 0 <= i < |r.slots| && r.slots[i].Some? ensures InPlaceAt(Shown(r.slots)[i], i) {
      assert SvcOk(r.slots[i].value, i);
    }
  }

  // --------------------------------------------------------------------------------------------------------
  // The numbers shown are ints

  /** The arguments that are stored are ints of C. */
  predicate CInts(e: Event) { e.Get? ==> Int32(e.key) && Int32(e.c.pid) }

  predicate NarrowSvc(s: Svc, n: nat) {
    Int32(s.creator) && Int32(s.key) && forall k :: 0 <= k < |s.sleepers| ==> s.sleepers[k] <= n
  }

  predicate Narrow(slots: seq<Option<Svc>>, n: nat) {
    forall i :: 0 <= i < |slots| && slots[i].Some? ==> NarrowSvc(slots[i].value, n)
  }

  /** Slot i is rewritten, with a service that keeps its numbers and has at most one more sleeper. */
  lemma NarrowUpdate(slots: seq<Option<Svc>>, i: nat, x: Option<Svc>, n: nat)
    requires i < |slots| && Narrow(slots, n) && (x.Some? ==> NarrowSvc(x.value, n + 1))
    ensures Narrow(slots[i := x], n + 1)
  {
    var slots' := slots[i := x];
    forall j | 0 <= j < |slots| && slots'[j].Some? ensures NarrowSvc(slots'[j].value, n + 1) {
      assert j != i ==> NarrowSvc(slots[j].value, n);
    }
  }

  lemma NextNarrow(r: Reg, e: Event, n: nat)
    requires Inv(r) && Sized(r) && Narrow(r.slots, n) && CInts(e)
    ensures Narrow(Next(r, e).0.slots, n + 1)
  {
    NarrowMore(r.slots, n);
    match e
    case Get(c, key, command, perm) =>
      var f := FreeIndex(r.slots);
      if f < SERVICES {
        NarrowUpdate(r.slots, f, Some(NewSvc(key, f, c.pid, perm)), n);
      }
    case Ctl(c, tag, command) => CtlNarrow(r, c, tag, command, n);
    case _ => ReaderNarrow(r, e, n);
  }

  lemma NarrowMore(slots: seq<Option<Svc>>, n: nat)
    requires Narrow(slots, n)
    ensures Narrow(slots, n + 1)
  {
    forall i | 0 <= i < |slots| && slots[i].Some? ensures NarrowSvc(slots[i].value, n + 1) {
      assert NarrowSvc(slots[i].value, n);
    }
  }

  lemma CtlNarrow(r: Reg, c: Caller, tag: int, command: int, n: nat)
    requires Inv(r) && Narrow(r.slots, n) && Narrow(r.slots, n + 1)
    ensures Narrow(TagCtl(r, c, tag, command).0.slots, n + 1)
  {
    var i := TagIndex(r.slots, tag);
    if i < SERVICES {
      assert NarrowSvc(r.slots[i].value, n);
      NarrowUpdate(r.slots, i, Some(Raised(r.slots[i].value)), n);
      NarrowUpdate(r.slots, i, None, n);
    }
  }

  lemma ReaderNarrow(r: Reg, e: Event, n: nat)
    requires Inv(r) && Sized(r) && Narrow(r.slots, n) && Narrow(r.slots, n + 1) && (e.Send? || e.Receive? || e.Wakes?)
    ensures Narrow(Next(r, e).0.slots, n + 1)
  {
    var i := TagIndex(r.slots, e.tag);
    if i < SERVICES && e.level < LEVELS {
      var s := r.slots[i].value;
      assert NarrowSvc(s, n);
      if e.Send? && Copied(e) {
        NarrowUpdate(r.slots, i, Some(Delivered(s, Sent(e.level, e.buffer, e.size))), n);
      } else if e.Receive? {
        NarrowUpdate(r.slots, i, Some(Parked(s, e.level)), n);
      } else if e.Wakes? && s.sleepers[e.level] > 0 {
        NarrowUpdate(r.slots, i, Some(s.(sleepers := s.sleepers[e.level := s.sleepers[e.level] - 1])), n);
      }
    }
  }

  lemma {:induction false} RunNarrow(rs: seq<Reg>, es: seq<Event>, answers: seq<Answer>, n: nat)
    requires Run(rs, es, answers) && n < |rs| && forall i :: 0 <= i < |es| ==> CInts(es[i])
    ensures Narrow(rs[n].slots, n)
  {
    if n == 0 {
    } else {
      RunNarrow(rs, es, answers, n - 1);
      RunKeepsInv(rs, es, answers, n - 1);
      RunStep(rs, es, answers, n - 1);
      NextNarrow(rs[n - 1], es[n - 1], n - 1);
    }
  }

  /** A registry that fewer than 2^31 calls have made from the empty one, with ints as arguments. */
  ghost predicate Made(r: Reg) {
    exists rs, es, answers :: MadeBy(r, rs, es, answers)
  }

  ghost predicate MadeBy(r: Reg, rs: seq<Reg>, es: seq<Event>, answers: seq<Answer>) {
    Run(rs, es, answers) && rs[|es|] == r && |es| < 0x8000_0000 && forall i :: 0 <= i < |es| ==> CInts(es[i])
  }

  /** What it shows are rows as the reading of the status takes them. */
  lemma MadeRowsOk(r: Reg)
    requires Made(r)
    ensures Inv(r) && RowsOk(Shown(r.slots))
  {
    var rs, es, answers :| MadeBy(r, rs, es, answers);
    RunKeepsInv(rs, es, answers, |es|);
    RunNarrow(rs, es, answers, |es|);
    forall i | 0 <= i < |r.slots| && Shown(r.slots)[i].Used? ensures RowOk(Shown(r.slots)[i].row) {
      assert SvcOk(r.slots[i].value, i) && NarrowSvc(r.slots[i].value, |es|);
    }
  }

  // --------------------------------------------------------------------------------------------------------

  /** The two registries agree on slot i as far as the status goes. */
  predicate Agree(x: Option<Svc>, y: Option<Svc>) {
    && (x.Some? <==> y.Some?)
    && (x.Some? ==>
          && x.value.tag == y.value.tag && x.value.key == y.value.key && x.value.creator == y.value.creator
          && x.value.sleepers == y.value.sleepers)
  }

  lemma SameShown(x: Option<Svc>, y: Option<Svc>)
    requires ShownSlot(x) == ShownSlot(y)
    ensures Agree(x, y)
  {
    if x.Some? {
      var a, b := Waiters(x.value), Waiters(y.value);
      forall k | 0 <= k < |x.value.sleepers| ensures x.value.sleepers[k] == y.value.sleepers[k] {
        assert a[k] == b[k];
      }
      assert |a| == |x.value.sleepers| && |b| == |y.value.sleepers|;
    }
  }

  /**
   * Of two registries that calls have made, with up to 23 services each, the status is the same if and only if they
   * have the same services in the same slots, with the same keys, creators and numbers of sleepers.
   */
  lemma StatusTells(r: Reg, q: Reg)
    requires Made(r) && Made(q) && r.count <= 23 && q.count <= 23
    ensures |r.slots| == |q.slots| == SERVICES
    ensures StatusOf(r) == StatusOf(q) <==> forall i :: 0 <= i < SERVICES ==> Agree(r.slots[i], q.slots[i])
  {
    MadeRowsOk(r);
    MadeRowsOk(q);
    ShownInPlace(r);
    ShownInPlace(q);
    if StatusOf(r) == StatusOf(q) {
      StatusInjective(Shown(r.slots), Shown(q.slots));
      forall i | 0 <= i < SERVICES ensures Agree(r.slots[i], q.slots[i]) {
        assert Shown(r.slots)[i] == Shown(q.slots)[i];
        SameShown(r.slots[i], q.slots[i]);
      }
    }
    if forall i :: 0 <= i < SERVICES ==> Agree(r.slots[i], q.slots[i]) {
      forall i | 0 <= i < SERVICES ensures Shown(r.slots)[i] == Shown(q.slots)[i] {
        assert Agree(r.slots[i], q.slots[i]);
      }
      assert Shown(r.slots) == Shown(q.slots);
    }
  }

  /** With 36 services the status of a registry that calls have made is cut. */
  lemma FullerIsCut(r: Reg)
    requires Inv(r) && r.count >= 36
    ensures StatusOf(r) < Listing(WORDS, Shown(r.slots), |r.slots|)
  {
    ShownInPlace(r);
    ThirtySixDoNotFit(Shown(r.slots));
  }
}
