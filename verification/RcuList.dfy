// rcu-list.c as it runs alone: a linked list on the heap, proved against sequences. With nobody else inside, the spins
// of the grace periods end at once; with others, they are in EpochMachine.
module ListSpec {
  datatype Item = Item(level: int, message: string, size: nat)

  /** A message is as long as its size says. */
  predicate Whole(it: Item) { |it.message| == it.size }

  predicate AllWhole(xs: seq<Item>) { forall i :: 0 <= i < |xs| ==> Whole(xs[i]) }

  /** The position of the first item of level k, or |xs|. */
  function FirstAt(xs: seq<Item>, k: int): (i: nat)
    ensures i <= |xs|
    ensures i < |xs| ==> xs[i].level == k
  {
    if xs == [] || xs[0].level == k then 0 else 1 + FirstAt(xs[1..], k)
  }

  lemma {:induction false} NoneBefore(xs: seq<Item>, k: int, j: nat)
    requires j < FirstAt(xs, k)
    ensures xs[j].level != k
    decreases |xs|
  {
    if j == 0 {
    } else {
      NoneBefore(xs[1..], k, j - 1);
    }
  }

  predicate Has(xs: seq<Item>, k: int) { FirstAt(xs, k) < |xs| }

  /** xs without its first item of level k. */
  function Without(xs: seq<Item>, k: int): seq<Item> {
    if Has(xs, k) then xs[..FirstAt(xs, k)] + xs[FirstAt(xs, k) + 1..] else xs
  }

  /** xs with it in the place of the first item of its level. */
  function Swapped(xs: seq<Item>, it: Item): seq<Item> {
    if Has(xs, it.level) then xs[FirstAt(xs, it.level) := it] else xs
  }

  /** FirstAt is the only position that fits. */
  lemma FirstAtIs(xs: seq<Item>, k: int, i: nat)
    requires i <= |xs| && (i < |xs| ==> xs[i].level == k) && forall j :: 0 <= j < i ==> xs[j].level != k
    ensures FirstAt(xs, k) == i
  {
    if i < FirstAt(xs, k) { NoneBefore(xs, k, i); }
  }
}

module RcuList {
  import opened ListSpec
  import opened Sizes

  class Element {
    var next: Element?
    const level: int
    const message: string
    const size: nat
    ghost const owner: List   // the list it was made for

    constructor (level: int, message: string, size: nat, ghost owner: List)
      ensures this.level == level && this.message == message && this.size == size && next == null
      ensures this.owner == owner
    {
      this.owner := owner;
      this.level := level;
      this.message := message;
      this.size := size;
      next := null;
    }
  }

  /** The position of the first element of level k, or |es|. */
  function FirstOf(es: seq<Element>, k: int): (i: nat)
    ensures i <= |es|
    ensures i < |es| ==> es[i].level == k
    ensures forall j :: 0 <= j < i ==> es[j].level != k
  {
    if es == [] || es[0].level == k then 0
    else
      var i := FirstOf(es[1..], k);
      assert forall j :: 1 <= j < i + 1 ==> es[j] == es[1..][j - 1];
      i + 1
  }

  lemma FirstOfIs(es: seq<Element>, k: int, i: nat)
    requires i <= |es| && (i < |es| ==> es[i].level == k) && forall j :: 0 <= j < i ==> es[j].level != k
    ensures FirstOf(es, k) == i
  {
    var f := FirstOf(es, k);
    assert f < |es| ==> es[f].level == k;
    assert i < |es| ==> es[i].level == k;
  }

  predicate Present(es: seq<Element>, k: int) { FirstOf(es, k) < |es| }

  predicate Distinct(es: seq<Element>) {
    forall i, j :: 0 <= i < j < |es| ==> es[i] != es[j]
  }

  function Cut(es: seq<Element>, i: nat): seq<Element>
    requires i < |es|
  {
    es[..i] + es[i + 1..]
  }

  lemma CutDistinct(es: seq<Element>, i: nat)
    requires i < |es| && Distinct(es)
    ensures Distinct(Cut(es, i))
  {
    var cut := Cut(es, i);
    forall j, k | 0 <= j < k < |cut| ensures cut[j] != cut[k] {
      assert cut[j] == es[if j < i then j else j + 1] && cut[k] == es[if k < i then k else k + 1];
    }
  }

  /** Each element of es points to the following one, the last one to null. */
  ghost predicate Spells(es: seq<Element>)
    reads es
  {
    && (forall i, j :: 0 <= i && i + 1 == j < |es| ==> es[i].next == es[j])
    && (es != [] ==> es[|es| - 1].next == null)
  }

  lemma CutSpells(es: seq<Element>, i: nat)
    requires i < |es|
    requires forall a, b :: 0 <= a && a + 1 == b < |es| && a != i - 1 ==> es[a].next == es[b]
    requires i + 1 < |es| ==> es[|es| - 1].next == null
    requires i > 0 ==> es[i - 1].next == if i + 1 < |es| then es[i + 1] else null
    ensures Spells(Cut(es, i))
  {
    var cut := Cut(es, i);
    forall a, b | 0 <= a && a + 1 == b < |cut| ensures cut[a].next == cut[b] {
      assert cut[a] == es[if a < i then a else a + 1] && cut[b] == es[if b < i then b else b + 1];
    }
  }

  lemma SwapSpells(es: seq<Element>, i: nat, e: Element)
    requires i < |es|
    requires forall a, b :: 0 <= a && a + 1 == b < |es| && a != i - 1 && a != i ==> es[a].next == es[b]
    requires i + 1 < |es| ==> es[|es| - 1].next == null
    requires i > 0 ==> es[i - 1].next == e
    requires e.next == if i + 1 < |es| then es[i + 1] else null
    ensures Spells(es[i := e])
  {}

  lemma SwapDistinct(es: seq<Element>, i: nat, e: Element)
    requires i < |es| && Distinct(es) && e !in es
    ensures Distinct(es[i := e])
  {}

  class List {
    var head: Element?
    var epoch: int
    var locked: bool            // the write lock is held
    var standing: seq<int>
    var ready: seq<bool>
    var waiters: seq<int>
    ghost var nodes: seq<Element>

    /** The element at position i, or null past the end. */
    ghost function NodeAt(i: nat): Element?
      reads this
    {
      if i < |nodes| then nodes[i] else null
    }

    /** head and the next pointers spell out nodes. */
    ghost predicate Linked()
      reads this, nodes
    {
      head == NodeAt(0) && Spells(nodes)
    }

    ghost predicate Owns() reads this { forall n :: n in nodes ==> n.owner == this }

    /** Nobody is inside: no spin on either counter goes round. */
    ghost predicate Alone()
      reads this
    {
      |standing| == 2 && standing[0] <= 0 && standing[1] <= 0
    }

    ghost predicate Valid()
      reads this, nodes
    {
      && epoch in {0, 1} && |ready| == LEVELS && |waiters| == LEVELS && Alone()
      && Linked()
      && Distinct(nodes) && Owns()
    }

    /** rcu_list_init. */
    constructor ()
      ensures Valid() && nodes == [] && epoch == 0 && !locked
      ensures standing == [0, 0] && ready == seq(LEVELS, _ => false) && waiters == seq(LEVELS, _ => 0)
    {
      head, epoch, locked := null, 0, false;
      standing, ready, waiters := [0, 0], seq(LEVELS, _ => false), seq(LEVELS, _ => 0);
      nodes := [];
    }

    /** The start of rcu_list_search (lines 35-39): the epoch is sampled, the flag goes down. */
    method Enter(key: nat) returns (myEpoch: int)
      requires Valid() && key < LEVELS
      modifies this`ready, this`waiters
      ensures Valid() && myEpoch == epoch && epoch in {0, 1}
      ensures ready == old(ready)[key := false] && waiters == old(waiters)[key := old(waiters)[key] + 1]
    {
      myEpoch := epoch;
      ready := ready[key := false];
      waiters := waiters[key := waiters[key] + 1];
    }

    /** A signal ends the wait (lines 42-43): one off a counter that was not raised before. */
    method GiveUp(key: nat, myEpoch: int)
      requires Valid() && key < LEVELS && myEpoch in {0, 1}
      modifies this`standing, this`waiters
      ensures Valid() && waiters == old(waiters)[key := old(waiters)[key] - 1]
      ensures standing == old(standing)[myEpoch := old(standing)[myEpoch] - 1]
    {
      standing := standing[myEpoch := standing[myEpoch] - 1];
      waiters := waiters[key := waiters[key] - 1];
    }

    /** What follows the wait otherwise (lines 46-66). */
    method Traverse(key: nat, myEpoch: int) returns (p: Element?)
      requires Valid() && key < LEVELS && myEpoch in {0, 1}
      modifies this`standing, this`waiters
      ensures Valid() && waiters == old(waiters)[key := old(waiters)[key] - 1] && standing == old(standing)
      ensures p == if Present(nodes, key) then nodes[FirstOf(nodes, key)] else null
    {
      standing := standing[myEpoch := standing[myEpoch] + 1];
      p := Find(key);
      standing := standing[myEpoch := standing[myEpoch] - 1];
      waiters := waiters[key := waiters[key] - 1];
    }

    /** rcu_list_search, alone: somebody raises the flag of the reader at once, or a signal interrupts it. */
    method Search(key: nat, interrupted: bool) returns (p: Element?)
      requires Valid() && key < LEVELS
      modifies this`standing, this`ready, this`waiters
      ensures Valid() && waiters == old(waiters) && ready == old(ready)[key := !interrupted]
      ensures standing == if interrupted then old(standing)[epoch := old(standing)[epoch] - 1] else old(standing)
      ensures p == if !interrupted && Present(nodes, key) then nodes[FirstOf(nodes, key)] else null
    {
      var myEpoch := Enter(key);
      if interrupted {
        GiveUp(key, myEpoch);
        return null;
      }
      ready := ready[key := true];   // by whoever releases this reader
      p := Traverse(key, myEpoch);
    }

    /** The traversal of rcu_list_search (lines 48-55). */
    method Find(key: int) returns (p: Element?)
      requires Linked()
      ensures p == null <==> !Present(nodes, key)
      ensures p != null ==> p == nodes[FirstOf(nodes, key)]
    {
      p := head;
      ghost var i := 0;
      while p != null
        invariant 0 <= i <= |nodes| && p == NodeAt(i)
        invariant forall j :: 0 <= j < i ==> nodes[j].level != key
        decreases |nodes| - i
      {
        if p.level == key {
          break;
        }
        p := p.next;
        i := i + 1;
      }
      FirstOfIs(nodes, key, i);
    }

    /** Lines 94-102, 143-147 and 198-210: the epoch flips, the spin ends at once, the lock is released. */
    method Flip()
      requires Valid()
      modifies this`epoch, this`locked
      ensures Valid() && !locked && epoch == 1 - old(epoch)
    {
      ghost var graceEpoch := epoch;
      epoch := (epoch + 1) % 2;
      assert standing[graceEpoch] <= 0;
      locked := false;
    }

    /** rcu_list_insert: the new element goes in front. hasMemory says whether kmalloc succeeds. */
    method Insert(key: int, message: string, size: nat, hasMemory: bool) returns (r: int)
      requires Valid() && !locked
      modifies this`head, this`epoch, this`locked, this`nodes
      ensures Valid() && !locked
      ensures r == if hasMemory then 1 else 0
      ensures !hasMemory ==> nodes == old(nodes) && epoch == old(epoch)
      ensures hasMemory ==> |nodes| > 0 && fresh(nodes[0]) && nodes[1..] == old(nodes) && epoch == 1 - old(epoch)
      ensures hasMemory ==> nodes[0].level == key && nodes[0].message == message && nodes[0].size == size
    {
      if !hasMemory {
        return 0;
      }
      var p := new Element(key, message, size, this);
      locked := true;
      p.next := head;
      head := p;
      ghost var was := nodes;
      nodes := [p] + was;
      Flip();
      return 1;
    }

    /** Lines 122-137: the first element of the level is unlinked. */
    method Unlink(key: int) returns (removed: Element?)
      requires Linked() && Distinct(nodes) && Owns()
      modifies this`head, this`nodes, nodes
      ensures Linked() && Distinct(nodes) && Owns()
      ensures var was, f := old(nodes), FirstOf(old(nodes), key);
        if Present(was, key) then removed == was[f] && nodes == was[..f] + was[f + 1..]
        else removed == null && nodes == was
    {
      removed := null;
      var p := head;
      ghost var was, i := nodes, 0;
      if p != null && p.level == key {
        removed := p;
        head := removed.next;
      } else {
        while p != null && !(p.next != null && p.next.level == key)
          invariant 0 <= i <= |nodes| && p == NodeAt(i)
          invariant forall j :: 0 <= j <= i && j < |nodes| ==> nodes[j].level != key
          decreases |nodes| - i
        {
          p := p.next;
          i := i + 1;
        }
        if p != null {
          removed := p.next;
          p.next := p.next.next;
          i := i + 1;
        }
      }
      FirstOfIs(was, key, i);
      if removed != null {
        CutDistinct(was, i);
        CutSpells(was, i);
        assert Cut(was, i) == [] ==> |was| == 1;
        assert Cut(was, i) != [] ==> Cut(was, i)[0] == was[if i == 0 then 1 else 0];
        nodes := Cut(was, i);
      }
    }

    /** rcu_list_remove: the first element of the level leaves, the others stay as they are. */
    method Remove(key: int) returns (r: int)
      requires Valid() && !locked
      modifies this`head, this`epoch, this`locked, this`nodes, nodes
      ensures Valid() && !locked && epoch == 1 - old(epoch)
      ensures r == if Present(old(nodes), key) then 1 else 0
      ensures var was, f := old(nodes), FirstOf(old(nodes), key);
        nodes == if r == 1 then was[..f] + was[f + 1..] else was
    {
      locked := true;
      var removed := Unlink(key);
      assert standing[(epoch + 1) % 2] <= 0;   // line 142
      Flip();
      if removed != null {
        return 1;
      }
      return 0;
    }

    /** Lines 177-194, on a list that is not empty: the first element of the level is swapped for another. */
    method SwapIn(added: Element) returns (found: bool)
      requires Linked() && Distinct(nodes) && Owns()
      requires head != null && added !in nodes && added.next == null && added.owner == this
      modifies this`head, this`nodes, nodes, added
      ensures Linked() && Distinct(nodes) && Owns()
      ensures found <==> Present(old(nodes), added.level)
      ensures nodes == if found then old(nodes)[FirstOf(old(nodes), added.level) := added] else old(nodes)
    {
      var key := added.level;
      var removed: Element? := null;
      var elem := head;
      ghost var was, i := nodes, 0;
      if elem.level == key {
        removed := elem;
        added.next := removed.next;
        head := added;
      } else {
        while elem != null && !(elem.next != null && elem.next.level == key)
          invariant 0 <= i <= |nodes| && elem == NodeAt(i)
          invariant forall j :: 0 <= j <= i && j < |nodes| ==> nodes[j].level != key
          decreases |nodes| - i
        {
          elem := elem.next;
          i := i + 1;
        }
        if elem != null {
          removed := elem.next;
          elem.next := added;
          added.next := removed.next;
          i := i + 1;
        }
      }
      FirstOfIs(was, key, i);
      found := elem != null;
      if found {
        SwapDistinct(was, i, added);
        SwapSpells(was, i, added);
        nodes := was[i := added];
      }
    }

    /**
     * rcu_list_replace: the first element of the level is swapped, in place. When the level is absent the call
     * returns 0 with the write lock still held (lines 176 and 196).
     */
    method Replace(key: int, message: string, size: nat, hasMemory: bool) returns (r: int)
      requires Valid() && !locked
      modifies this`head, this`epoch, this`locked, this`nodes, nodes
      ensures Valid()
      ensures r == if hasMemory && Present(old(nodes), key) then 1 else 0
      ensures locked <==> hasMemory && !Present(old(nodes), key)
      ensures epoch == if r == 1 then 1 - old(epoch) else old(epoch)
      ensures var f := FirstOf(old(nodes), key);
        if r == 1 then
          && |nodes| == |old(nodes)|
          && fresh(nodes[f]) && nodes[f].level == key && nodes[f].message == message && nodes[f].size == size
          && nodes == old(nodes)[f := nodes[f]]
        else nodes == old(nodes)
    {
      if !hasMemory {
        return 0;
      }
      var added := new Element(key, message, size, this);
      locked := true;
      if head == null {
        return 0;
      }
      var found := SwapIn(added);
      if !found {
        return 0;
      }
      Flip();
      return 1;
    }
  }

  // --------------------------------------------------------------------------------------------------------
  // The same, in terms of items

  function ItemOf(e: Element): Item { Item(e.level, e.message, e.size) }

  function ItemsOf(es: seq<Element>): (xs: seq<Item>)
    ensures |xs| == |es| && forall i :: 0 <= i < |es| ==> xs[i] == ItemOf(es[i])
  {
    seq(|es|, i requires 0 <= i < |es| => ItemOf(es[i]))
  }

  lemma ItemsFirst(es: seq<Element>, k: int)
    ensures FirstAt(ItemsOf(es), k) == FirstOf(es, k)
  {
    FirstAtIs(ItemsOf(es), k, FirstOf(es, k));
  }

  /** What Insert, Remove and Replace do to the elements, as items. */
  lemma ItemsAfterInsert(es: seq<Element>, e: Element)
    ensures ItemsOf([e] + es) == [ItemOf(e)] + ItemsOf(es)
  {}

  lemma ItemsAfterCut(es: seq<Element>, f: nat)
    requires f < |es|
    ensures ItemsOf(Cut(es, f)) == ItemsOf(es)[..f] + ItemsOf(es)[f + 1..]
  {
    var xs, ys := ItemsOf(Cut(es, f)), ItemsOf(es)[..f] + ItemsOf(es)[f + 1..];
    assert |xs| == |ys|;
    forall i | 0 <= i < |xs| ensures xs[i] == ys[i] {
      assert Cut(es, f)[i] == es[if i < f then i else i + 1];
    }
  }

  lemma ItemsAfterRemove(es: seq<Element>, k: int)
    ensures Present(es, k) <==> Has(ItemsOf(es), k)
    ensures Present(es, k) ==> ItemsOf(Cut(es, FirstOf(es, k))) == Without(ItemsOf(es), k)
  {
    ItemsFirst(es, k);
    if Present(es, k) {
      ItemsAfterCut(es, FirstOf(es, k));
    }
  }

  lemma ItemsAfterReplace(es: seq<Element>, e: Element)
    requires Present(es, e.level)
    ensures ItemsOf(es[FirstOf(es, e.level) := e]) == Swapped(ItemsOf(es), ItemOf(e))
  {
    ItemsFirst(es, e.level);
  }
}
