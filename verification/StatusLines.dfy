// The status as text, line by line: which number stands after which words, and in which order.
module StatusLines {
  import opened RegistrySpec
  import opened StatusText
  import opened StatusRegistry

  /** The texts, from the first to the last. */
  function Flat(texts: seq<string>): string {
    if texts == [] then "" else texts[0] + Flat(texts[1..])
  }

  /** The line of a service and one of its levels. */
  function LineOf(tag: int, creator: int, key: int, level: int, waiters: int): string {
    ("Tag descriptor: " + Dec(tag) + ";") + ("Tag Creator: " + Dec(creator) + ";")
    + ("TAG ID: " + Dec(tag) + "; KEY: " + Dec(key) + "; Level: " + Dec(level) + ", Waiters: " + Dec(waiters)) + "\n"
  }

  function LinesOf(s: Svc): seq<string> {
    seq(|s.sleepers|, k requires 0 <= k < |s.sleepers| => LineOf(s.tag, s.creator, s.key, k, s.sleepers[k]))
  }

  /** A service has a line for each of its levels, and an empty one; a free slot has nothing. */
  function ParagraphOf(x: Option<Svc>): string {
    match x
    case None => ""
    case Some(s) => Flat(LinesOf(s)) + "\n"
  }

  function ParagraphsOf(slots: seq<Option<Svc>>): seq<string> {
    seq(|slots|, i requires 0 <= i < |slots| => ParagraphOf(slots[i]))
  }

  // --------------------------------------------------------------------------------------------------------

  lemma {:induction false} FlatMore(texts: seq<string>, x: string)
    ensures Flat(texts + [x]) == Flat(texts) + x
    decreases |texts|
  {
    if texts == [] {
      assert ([] + [x])[1..] == [];
    } else {
      FlatMore(texts[1..], x);
      assert (texts + [x])[1..] == texts[1..] + [x];
      assert texts[0] + (Flat(texts[1..]) + x) == texts[0] + Flat(texts[1..]) + x;
    }
  }

  lemma LastText(texts: seq<string>, n: nat)
    requires 0 < n <= |texts|
    ensures Flat(texts[..n]) == Flat(texts[..n - 1]) + texts[n - 1]
  {
    FlatMore(texts[..n - 1], texts[n - 1]);
    assert texts[..n] == texts[..n - 1] + [texts[n - 1]];
  }

  lemma {:induction false} LinesFlat(f: Words, r: Row, n: nat, lines: seq<string>)
    requires n <= |r.waiters| == |lines| && forall k :: 0 <= k < n ==> lines[k] == Line(f, r, k)
    ensures Lines(f, r, n) == Flat(lines[..n])
  {
    if n == 0 {
    } else {
      LinesFlat(f, r, n - 1, lines);
      LastText(lines, n);
    }
  }

  lemma {:induction false} ListingFlat(f: Words, slots: seq<Slot>, n: nat, texts: seq<string>)
    requires n <= |slots| == |texts| && forall i :: 0 <= i < n ==> texts[i] == Paragraph(f, slots[i])
    ensures Listing(f, slots, n) == Flat(texts[..n])
  {
    if n == 0 {
    } else {
      ListingFlat(f, slots, n - 1, texts);
      LastText(texts, n);
    }
  }

  lemma LineIs(s: Svc, k: nat)
    requires k < |s.sleepers|
    ensures |Waiters(s)| == |s.sleepers|
    ensures Line(WORDS, Row(s.tag, s.creator, s.key, Waiters(s)), k) == LinesOf(s)[k]
  {}

  lemma ParagraphIs(x: Option<Svc>)
    ensures Paragraph(WORDS, ShownSlot(x)) == ParagraphOf(x)
  {
    if x.Some? {
      var s := x.value;
      forall k | 0 <= k < |s.sleepers| ensures LinesOf(s)[k] == Line(WORDS, ShownSlot(x).row, k) {
        LineIs(s, k);
      }
      LinesFlat(WORDS, ShownSlot(x).row, |s.sleepers|, LinesOf(s));
      assert LinesOf(s)[..|s.sleepers|] == LinesOf(s);
    }
  }

  /** The listing is the paragraphs of the slots in their order, each with its lines by level. */
  lemma ListingIs(slots: seq<Option<Svc>>)
    ensures Listing(WORDS, Shown(slots), |slots|) == Flat(ParagraphsOf(slots))
  {
    var texts := ParagraphsOf(slots);
    forall i | 0 <= i < |slots| ensures texts[i] == Paragraph(WORDS, Shown(slots)[i]) {
      ParagraphIs(slots[i]);
    }
    ListingFlat(WORDS, Shown(slots), |slots|, texts);
    assert texts[..|slots|] == texts;
  }

  /** The status of every registry is the beginning of this text, as much as fits. */
  lemma StatusIs(r: Reg)
    ensures StatusOf(r) == Take(Flat(ParagraphsOf(r.slots)), 20 * 4096 - 1)
  {
    ListingIs(r.slots);
  }
}
