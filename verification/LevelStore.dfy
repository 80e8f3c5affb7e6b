// The list of a TAG service as a store with one message per level.
module LevelStore {
  import opened ListSpec
  import opened RcuList
  import opened Sizes

  /** Empty items of levels n - 1 down to 0. */
  function Empty(n: nat): seq<Item> {
    seq(n, i requires 0 <= i < n => Item(n - 1 - i, "", 0))
  }

  /** Inserting the next level in front. */
  lemma EmptyGrows(n: nat)
    ensures [Item(n, "", 0)] + Empty(n) == Empty(n + 1)
  {}

  /** The list after a history of sends. */
  function After(n: nat, sends: seq<Item>): seq<Item> {
    if sends == [] then Empty(n) else Swapped(After(n, sends[..|sends| - 1]), sends[|sends| - 1])
  }

  predicate InRange(n: nat, sends: seq<Item>) {
    forall i :: 0 <= i < |sends| ==> 0 <= sends[i].level < n
  }

  /** The last item of level k sent, or the empty one of the start. */
  function LastSent(sends: seq<Item>, k: int): Item {
    if sends == [] then Item(k, "", 0)
    else if sends[|sends| - 1].level == k then sends[|sends| - 1]
    else LastSent(sends[..|sends| - 1], k)
  }

  /** Every history keeps the levels n-1, ..., 0 in place, and what is stored at each is the last message sent. */
  lemma {:induction false} StoreKeepsLevels(n: nat, sends: seq<Item>)
    requires InRange(n, sends)
    ensures var xs := After(n, sends);
      |xs| == n && forall i :: 0 <= i < n ==> xs[i].level == n - 1 - i && xs[i] == LastSent(sends, n - 1 - i)
    decreases |sends|
  {
    if sends == [] {
    } else {
      var before, it := sends[..|sends| - 1], sends[|sends| - 1];
      StoreKeepsLevels(n, before);
      FirstAtIs(After(n, before), it.level, n - 1 - it.level);
    }
  }

  /** A lookup of a level finds it, with the last message sent there; and replace finds every level to swap. */
  lemma StoreRefinesMap(n: nat, sends: seq<Item>, k: int)
    requires InRange(n, sends) && 0 <= k < n
    ensures var xs := After(n, sends);
      Has(xs, k) && FirstAt(xs, k) == n - 1 - k && xs[FirstAt(xs, k)] == LastSent(sends, k)
  {
    StoreKeepsLevels(n, sends);
    FirstAtIs(After(n, sends), k, n - 1 - k);
  }

  /** One turn of the loop of new_TAG_Service. */
  method AddLevel(l: List, j: nat)
    requires l.Valid() && !l.locked && ItemsOf(l.nodes) == Empty(j)
    modifies l`head, l`epoch, l`locked, l`nodes
    ensures l.Valid() && !l.locked && ItemsOf(l.nodes) == Empty(j + 1)
    ensures forall n :: n in l.nodes ==> n in old(l.nodes) || fresh(n)
  {
    ghost var was := l.nodes;
    var r := l.Insert(j, "", 0, true);
    ItemsAfterInsert(was, l.nodes[0]);
    assert l.nodes == [l.nodes[0]] + was;
    EmptyGrows(j);
  }

  /** The loop of new_TAG_Service over the levels, on a list just initialised. */
  method NewLevels() returns (l: List)
    ensures l.Valid() && !l.locked && fresh(l) && ItemsOf(l.nodes) == Empty(LEVELS)
    ensures l.ready == seq(LEVELS, _ => false) && l.waiters == seq(LEVELS, _ => 0)
    ensures forall n :: n in l.nodes ==> fresh(n)
  {
    l := new List();
    var j := 0;
    while j < LEVELS
      invariant 0 <= j <= LEVELS && fresh(l) && l.Valid() && !l.locked && ItemsOf(l.nodes) == Empty(j)
      invariant l.ready == seq(LEVELS, _ => false) && l.waiters == seq(LEVELS, _ => 0)
      invariant forall n :: n in l.nodes ==> fresh(n)
    {
      AddLevel(l, j);
      j := j + 1;
    }
  }

  /** One send to a list with history: replace succeeds, the lock is released, and the history grows by one. */
  method Store(l: List, ghost sends: seq<Item>, it: Item) returns (r: int)
    requires l.Valid() && !l.locked && InRange(LEVELS, sends) && 0 <= it.level < LEVELS
    requires ItemsOf(l.nodes) == After(LEVELS, sends)
    modifies l`head, l`epoch, l`locked, l`nodes, l.nodes
    ensures r == 1 && l.Valid() && !l.locked && ItemsOf(l.nodes) == After(LEVELS, sends + [it])
  {
    ghost var was := l.nodes;
    StoreRefinesMap(LEVELS, sends, it.level);
    ItemsFirst(was, it.level);
    r := l.Replace(it.level, it.message, it.size, true);
    ghost var e := l.nodes[FirstOf(was, it.level)];
    ItemsAfterReplace(was, e);
    assert (sends + [it])[..|sends|] == sends;
  }

  /** The traversal of a receive on a list with history: it delivers the last message sent to the level. */
  method Load(l: List, ghost sends: seq<Item>, k: int) returns (p: Element?)
    requires l.Valid() && InRange(LEVELS, sends) && 0 <= k < LEVELS
    requires ItemsOf(l.nodes) == After(LEVELS, sends)
    ensures p != null && ItemOf(p) == LastSent(sends, k)
  {
    StoreRefinesMap(LEVELS, sends, k);
    ItemsFirst(l.nodes, k);
    p := l.Find(k);
  }
}
