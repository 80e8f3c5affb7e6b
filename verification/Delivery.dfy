// From the sender's buffer to the receiver's, over whole runs of calls.
module Delivery {
  import opened RegistrySpec
  import opened Registry
  import opened RegistryRuns
  import opened StatusText
  import opened Sizes

  /** What the beginning of the message stored by a send is. */
  lemma BeginningOfSent(e: Event, k: int, n: nat)
    requires e.Send? && Copied(e)
    ensures Take(Sent(k, e.buffer, e.size).message, n) == e.buffer.content[..Min(n, e.size)]
  {
    var size := e.size;
    assert e.buffer.content[..size][..Min(n, size)] == e.buffer.content[..Min(n, size)];
  }

  /**
   * As long as no other message has been accepted for the level, a reader that is woken gets the beginning of the one
   * that call a stored: its buffer holds the first min(size, size sent) bytes of the sender's, which is the answer.
   */
  method ReceiveSent(t: Table, service: Service, tag: nat, level: nat, myEpoch: int, buffer: array<char>, size: nat,
                     ghost rs: seq<Reg>, ghost es: seq<Event>, ghost answers: seq<Answer>, ghost a: nat)
    returns (r: Answer)
    requires t.Valid() && Run(rs, es, answers) && a < |es| && rs[|es|] == t.Model()
    requires tag < SERVICES && t.slots[tag] == service && level < LEVELS && myEpoch in {0, 1}
    requires service.sleepers[level] > 0 && size <= buffer.Length && buffer !in t.repr
    requires Stores(es[a], answers[a], tag, level)
    requires forall m {:trigger rs[m]} :: a <= m <= |es| ==> Lives(rs[m], tag)
    requires forall m :: a < m < |es| ==> !Stores(es[m], answers[m], tag, level)
    modifies t.repr, buffer
    ensures t.Valid() && (t.Model(), r) == Next(rs[|es|], Wakes(tag, level, false, size))
    ensures r == Ok(Min(size, es[a].size))
    ensures buffer[..r.value] == es[a].buffer.content[..r.value]
    ensures forall k :: r.value <= k < buffer.Length ==> buffer[k] == old(buffer[k])
  {
    SentIsFound(rs, es, answers, a, |es|, tag, level);
    BeginningOfSent(es[a], level, size);
    TagIndexIs(t.Model().slots, tag, tag);
    r := t.FinishReceive(service, tag, level, myEpoch, false, buffer, size);
  }
}
