// Copies to user space: the loop shared by tag_receive and dev_read, and the device file that hands out a status.
module CopyOut {
  import opened ListSpec
  import opened RcuList
  import opened RegistrySpec
  import opened StatusText
  import opened Sizes

  /** copy_to_user: it may stop early, as long as it moves something; the result is the number of bytes not copied. */
  method CopyToUser(dst: array<char>, at: nat, src: seq<char>, from: nat, n: nat) returns (notSent: nat)
    requires 0 < n && at + n <= dst.Length && from + n <= |src|
    modifies dst
    ensures notSent < n
    ensures dst[..at + n - notSent] == old(dst[..at]) + src[from..from + n - notSent]
    ensures forall k :: at + n - notSent <= k < dst.Length ==> dst[k] == old(dst[k])
  {
    var moved :| 1 <= moved <= n;
    forall k | 0 <= k < moved {
      dst[at + k] := src[from + k];
    }
    notSent := n - moved;
  }

  /** The loop of TAG_Messaging.c:332-335 and charDev.c:40-43. */
  method CopyAll(dst: array<char>, src: seq<char>, from: nat, n: nat)
    requires n <= dst.Length && from + n <= |src|
    modifies dst
    ensures dst[..n] == src[from..from + n]
    ensures forall k :: n <= k < dst.Length ==> dst[k] == old(dst[k])
  {
    var offset := 0;
    while n - offset > 0
      invariant 0 <= offset <= n
      invariant dst[..offset] == src[from..from + offset]
      invariant forall k :: n <= k < dst.Length ==> dst[k] == old(dst[k])
      decreases n - offset
    {
      ghost var o := offset;
      var notSent := CopyToUser(dst, offset, src, from + offset, n - offset);
      offset := offset + (n - offset) - notSent;
      assert src[from..from + offset] == src[from..from + o] + src[from + o..from + offset];
    }
  }

  /** The end of tag_receive: the buffer gets the first bytes of the message found, as many as both sizes allow. */
  method Deliver(e: Item, buffer: array<char>, size: nat) returns (bSize: nat)
    requires Whole(e) && size <= buffer.Length
    modifies buffer
    ensures bSize <= size && buffer[..bSize] == Take(e.message, size)
    ensures forall k :: bSize <= k < buffer.Length ==> buffer[k] == old(buffer[k])
  {
    bSize := Min(size, e.size);
    CopyAll(buffer, e.message, 0, bSize);
    assert e.message[0..0 + bSize] == Take(e.message, size);
  }

  lemma {:induction false} LastIsWhole(sends: seq<Item>, k: int)
    requires AllWhole(sends)
    ensures Whole(LevelStore.LastSent(sends, k))
  {
    if sends == [] || sends[|sends| - 1].level == k {
    } else {
      LastIsWhole(sends[..|sends| - 1], k);
    }
  }

  /** Lines 325-339 of TAG_Messaging.c on a list with history: None stands for EUCLEAN. */
  method Receive(l: List, ghost sends: seq<Item>, level: nat, interrupted: bool, buffer: array<char>, size: nat)
    returns (r: Option<nat>)
    requires l.Valid() && LevelStore.InRange(LEVELS, sends) && level < LEVELS && size <= buffer.Length
    requires ItemsOf(l.nodes) == LevelStore.After(LEVELS, sends)
    requires AllWhole(sends)
    modifies l`standing, l`ready, l`waiters, buffer
    ensures l.Valid() && (r.None? <==> interrupted)
    ensures r.Some? ==> r.value <= size && buffer[..r.value] == Take(LevelStore.LastSent(sends, level).message, size)
    ensures forall k :: (if r.Some? then r.value else 0) <= k < buffer.Length ==> buffer[k] == old(buffer[k])
  {
    LevelStore.StoreRefinesMap(LEVELS, sends, level);
    ItemsFirst(l.nodes, level);
    LastIsWhole(sends, level);
    var e := l.Search(level, interrupted);
    if e == null {
      return None;
    }
    assert ItemOf(e) == LevelStore.LastSent(sends, level);
    var bSize := Deliver(ItemOf(e), buffer, size);
    return Some(bSize);
  }

  // --------------------------------------------------------------------------------------------------------

  /** The length that dev_read settles on; the sum is taken in 64 bits. */
  function ReadLen(pos: nat, len: nat, size: nat): nat {
    if pos >= size then 0
    else if (pos + len) % WORD > size then size - pos
    else len
  }

  /** The read stays inside the snapshot exactly when the sum does not wrap. */
  lemma InBoundsExactly(pos: nat, len: nat, size: nat)
    requires size < WORD && len < WORD && pos < size
    ensures pos + ReadLen(pos, len, size) <= size <==> pos + len < WORD
  {
    if pos + len >= WORD {
      assert (pos + len) % WORD == pos + len - WORD;
    }
  }

  /** It does leave it, from position 1 on with the greatest length. */
  lemma LeavesSnapshot(size: nat)
    requires 1 < size < WORD
    ensures ReadLen(1, WORD - 1, size) == WORD - 1 && 1 + ReadLen(1, WORD - 1, size) > size
  {
    InBoundsExactly(1, WORD - 1, size);
  }

  /** One call: the bytes handed out and the new position. */
  function ReadBytes(status: seq<char>, pos: nat, len: nat): seq<char> {
    var n := ReadLen(pos, len, |status|);
    if pos + n <= |status| then status[pos..pos + n] else []
  }

  /** The position after a run of calls. */
  function PosAfter(size: nat, pos: nat, lens: seq<nat>): nat
    decreases |lens|
  {
    if lens == [] then pos else PosAfter(size, pos + ReadLen(pos, lens[0], size), lens[1..])
  }

  /** All that a run of calls hands out. */
  function Received(status: seq<char>, pos: nat, lens: seq<nat>): seq<char>
    decreases |lens|
  {
    if lens == [] then []
    else ReadBytes(status, pos, lens[0]) + Received(status, pos + ReadLen(pos, lens[0], |status|), lens[1..])
  }

  function Sum(lens: seq<nat>): nat {
    if lens == [] then 0 else lens[0] + Sum(lens[1..])
  }

  /** No call of the run wraps its sum. */
  predicate NoWrap(size: nat, pos: nat, lens: seq<nat>)
    decreases |lens|
  {
    lens == [] || (Fits(size, pos, lens[0]) && NoWrap(size, pos + ReadLen(pos, lens[0], size), lens[1..]))
  }

  predicate Fits(size: nat, pos: nat, len: nat) { pos >= size || pos + len < WORD }

  lemma OneRead(size: nat, pos: nat, len: nat)
    requires size < WORD && pos <= size && Fits(size, pos, len)
    ensures ReadLen(pos, len, size) == Min(len, size - pos)
  {}

  lemma Slices(s: seq<char>, a: nat, b: nat, c: nat)
    requires a <= b <= c <= |s|
    ensures s[a..b] + s[b..c] == s[a..c]
  {}

  /** A run of reads returns the next part of the snapshot: as much as was asked for in all, or what is left. */
  lemma {:induction false} ReadsReassemble(status: seq<char>, pos: nat, lens: seq<nat>)
    requires |status| < WORD && pos <= |status| && NoWrap(|status|, pos, lens)
    ensures var end := PosAfter(|status|, pos, lens);
            && end == Min(|status|, pos + Sum(lens))
            && Received(status, pos, lens) == status[pos..end]
    decreases |lens|
  {
    if lens == [] {
    } else {
      OneRead(|status|, pos, lens[0]);
      var next := pos + ReadLen(pos, lens[0], |status|);
      ReadsReassemble(status, next, lens[1..]);
      Slices(status, pos, next, PosAfter(|status|, next, lens[1..]));
    }
  }

  /** What dev_open takes as the snapshot. */
  function StatusOf(slots: seq<Slot>): seq<char> {
    Take(Listing(WORDS, slots, |slots|), STATUS_SIZE_MAX - 1) + ['\0']
  }

  /** Reading on until enough was asked for gives the whole snapshot, and the next read then returns 0. */
  lemma WholeStatus(slots: seq<Slot>, lens: seq<nat>, more: nat)
    requires var size := |StatusOf(slots)|; NoWrap(size, 0, lens) && Sum(lens) >= size
    ensures Received(StatusOf(slots), 0, lens) == StatusOf(slots)
    ensures var size := |StatusOf(slots)|; ReadLen(PosAfter(size, 0, lens), more, size) == 0
  {
    var status := StatusOf(slots);
    ReadsReassemble(status, 0, lens);
    assert status[0..|status|] == status;
  }

  /** An open device file: the snapshot, at the beginning of the memory it lies in, and the offset. */
  class OpenFile {
    const memory: seq<char>
    const size: nat
    var pos: nat

    ghost predicate Valid() { size <= |memory| }

    ghost function Status(): seq<char>
      requires Valid()
    {
      memory[..size]
    }

    constructor (slots: seq<Slot>, beyond: seq<char>)
      ensures Valid() && Status() == StatusOf(slots) && pos == 0 && memory == Status() + beyond
    {
      var text, n := ScanService(slots, STATUS_SIZE_MAX);
      memory, size := text[..n] + beyond, n;
      pos := 0;
    }

    /** dev_read: the memory from the offset on, which is the snapshot when the sum does not wrap. */
    method DevRead(buff: array<char>, len: nat) returns (r: nat)
      requires Valid() && len <= buff.Length && size < WORD
      requires pos < size ==> pos + ReadLen(pos, len, size) <= |memory|
      modifies this`pos, buff
      ensures r == ReadLen(old(pos), len, size) && pos == old(pos) + r
      ensures old(pos) < size ==> buff[..r] == memory[old(pos)..pos]
      ensures Fits(size, old(pos), len) ==> buff[..r] == ReadBytes(Status(), old(pos), len)
      ensures Fits(size, old(pos), len) && old(pos) <= size ==> pos <= size
      ensures forall k :: r <= k < buff.Length ==> buff[k] == old(buff[k])
    {
      if pos >= size {
        return 0;
      }
      r := len;
      if (pos + len) % WORD > size {
        r := size - pos;
      }
      CopyAll(buff, memory, pos, r);
      assert pos + r <= size ==> memory[pos..pos + r] == Status()[pos..pos + r];
      pos := pos + r;
    }
  }
}
