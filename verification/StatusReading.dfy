// What a reader of the status can rely on: how many services fit in it, and that a status that is not cut tells
// exactly which services there are.
module StatusReading {
  import opened StatusText
  import opened Sizes

  const SHORTEST_LINE: nat := 73
  const SHORTEST_SERVICE: nat := 2337
  const LONGEST_LINE: nat := 108
  const LONGEST_SERVICE: nat := 3457

  function UsedCount(slots: seq<Slot>, n: nat): nat
    requires n <= |slots|
  {
    if n == 0 then 0 else UsedCount(slots, n - 1) + Bin(slots[n - 1].Used?)
  }

  predicate Int32(n: int) { -0x8000_0000 <= n < 0x8000_0000 }

  /** The tag is the number of a slot, the rest are ints of C; there is a counter for every level. */
  predicate RowOk(r: Row) {
    && 0 <= r.tag < SERVICES && Int32(r.creator) && Int32(r.key)
    && |r.waiters| == LEVELS && forall k :: 0 <= k < LEVELS ==> Int32(r.waiters[k])
  }

  predicate RowsOk(slots: seq<Slot>) {
    forall i :: 0 <= i < |slots| && slots[i].Used? ==> RowOk(slots[i].row)
  }

  // --------------------------------------------------------------------------------------------------------
  // How much fits

  function Power10(k: nat): nat { if k == 0 then 1 else 10 * Power10(k - 1) }

  lemma {:induction false} DigitsAtMost(n: nat, k: nat)
    requires k > 0 && n < Power10(k)
    ensures |Digits(n)| <= k
  {
    if n < 10 {
    } else {
      DigitsAtMost(n / 10, k - 1);
    }
  }

  lemma DecAtMost(n: int)
    ensures Int32(n) ==> |Dec(n)| <= 11
    ensures 0 <= n < 1000 ==> |Dec(n)| <= 3
    ensures 0 <= n < 100 ==> |Dec(n)| <= 2
  {
    assert Power10(2) == 100 && Power10(3) == 1000 && Power10(10) == 100_0000_0000;
    if Int32(n) {
      DigitsAtMost(if n < 0 then -n else n, 10);
    }
    if 0 <= n < 1000 {
      DigitsAtMost(n, 3);
    }
    if 0 <= n < 100 {
      DigitsAtMost(n, 2);
    }
  }

  lemma LineLength(r: Row, level: nat)
    requires level < |r.waiters|
    ensures |Line(WORDS, r, level)| == 67 + 2 * |Dec(r.tag)| + |Dec(r.creator)| + |Dec(r.key)| + |Dec(level)|
                                       + |Dec(r.waiters[level])|
  {}

  lemma LineBounds(r: Row, level: nat)
    requires level < |r.waiters|
    ensures |Line(WORDS, r, level)| >= SHORTEST_LINE
    ensures RowOk(r) ==> |Line(WORDS, r, level)| <= LONGEST_LINE
  {
    LineLength(r, level);
    if RowOk(r) {
      DecAtMost(r.tag);
      DecAtMost(r.creator);
      DecAtMost(r.key);
      DecAtMost(level);
      DecAtMost(r.waiters[level]);
    }
  }

  lemma {:induction false} LinesAtLeast(f: Words, r: Row, n: nat)
    requires n <= |r.waiters| && forall k :: 0 <= k < n ==> |Line(f, r, k)| >= SHORTEST_LINE
    ensures |Lines(f, r, n)| >= n * SHORTEST_LINE
  {
    if n == 0 {
    } else {
      LinesAtLeast(f, r, n - 1);
      assert |Line(f, r, n - 1)| >= SHORTEST_LINE;
    }
  }

  lemma {:induction false} LinesAtMost(f: Words, r: Row, n: nat)
    requires n <= |r.waiters| && forall k :: 0 <= k < n ==> |Line(f, r, k)| <= LONGEST_LINE
    ensures |Lines(f, r, n)| <= n * LONGEST_LINE
  {
    if n == 0 {
    } else {
      LinesAtMost(f, r, n - 1);
      assert |Line(f, r, n - 1)| <= LONGEST_LINE;
    }
  }

  lemma ParagraphLength(s: Slot)
    requires s.Used? ==> |s.row.waiters| == LEVELS
    ensures s.Used? ==> |Paragraph(WORDS, s)| >= SHORTEST_SERVICE
    ensures s.Used? && RowOk(s.row) ==> |Paragraph(WORDS, s)| <= LONGEST_SERVICE
  {
    if s.Used? {
      forall k | 0 <= k < LEVELS
        ensures |Line(WORDS, s.row, k)| >= SHORTEST_LINE && (RowOk(s.row) ==> |Line(WORDS, s.row, k)| <= LONGEST_LINE)
      {
        LineBounds(s.row, k);
      }
      LinesAtLeast(WORDS, s.row, LEVELS);
      if RowOk(s.row) {
        LinesAtMost(WORDS, s.row, LEVELS);
      }
    }
  }

  lemma {:induction false} ListingLength(slots: seq<Slot>, n: nat)
    requires n <= |slots|
    requires forall i :: 0 <= i < |slots| && slots[i].Used? ==> |slots[i].row.waiters| == LEVELS
    ensures |Listing(WORDS, slots, n)| >= UsedCount(slots, n) * SHORTEST_SERVICE
    ensures RowsOk(slots) ==> |Listing(WORDS, slots, n)| <= UsedCount(slots, n) * LONGEST_SERVICE
  {
    if n == 0 {
    } else {
      ListingLength(slots, n - 1);
      ParagraphLength(slots[n - 1]);
      var before, paragraph := Listing(WORDS, slots, n - 1), Paragraph(WORDS, slots[n - 1]);
      assert Listing(WORDS, slots, n) == before + paragraph;
    }
  }

  /** With 36 services of 32 levels the buffer that the device asks for never holds the whole listing. */
  lemma ThirtySixDoNotFit(slots: seq<Slot>)
    requires forall i :: 0 <= i < |slots| && slots[i].Used? ==> |slots[i].row.waiters| == LEVELS
    requires UsedCount(slots, |slots|) >= 36
    ensures var all := Listing(WORDS, slots, |slots|);
      var shown := Take(all, STATUS_SIZE_MAX - 1);
      |shown| == STATUS_SIZE_MAX - 1 && shown < all
  {
    ListingLength(slots, |slots|);
  }

  /** And up to 23 always fit. */
  lemma TwentyThreeFit(slots: seq<Slot>)
    requires RowsOk(slots) && UsedCount(slots, |slots|) <= 23
    ensures var all := Listing(WORDS, slots, |slots|); Take(all, STATUS_SIZE_MAX - 1) == all
  {
    ListingLength(slots, |slots|);
  }

  // --------------------------------------------------------------------------------------------------------
  // The numbers in the text can be read back

  function Value(s: string): int
  {
    if s == "" then 0 else 10 * Value(s[..|s| - 1]) + (s[|s| - 1] as int - '0' as int)
  }

  predicate IsDigit(c: char) { '0' <= c <= '9' }

  lemma {:induction false} DigitsReadBack(n: nat)
    ensures Value(Digits(n)) == n && (forall i :: 0 <= i < |Digits(n)| ==> IsDigit(Digits(n)[i]))
  {
    if n < 10 {
      assert Digits(n)[..0] == "";
    } else {
      DigitsReadBack(n / 10);
      var s := Digits(n);
      assert |Digits(n % 10)| == 1;
      assert s[..|s| - 1] == Digits(n / 10);
    }
  }

  /** A character that ends a number. */
  predicate Ends(c: char) { !IsDigit(c) && c != '-' }

  lemma DecSign(n: int)
    ensures Dec(n) != "" && (Dec(n)[0] == '-' <==> n < 0) && (forall i :: 0 <= i < |Dec(n)| ==> !Ends(Dec(n)[i]))
    ensures Value(if n < 0 then Dec(n)[1..] else Dec(n)) == if n < 0 then -n else n
  {
    DigitsReadBack(if n < 0 then -n else n);
    if n < 0 {
      assert Dec(n)[1..] == Digits(-n);
    }
  }

  /** Different numbers are printed differently. */
  lemma DecInjective(a: int, b: int)
    requires Dec(a) == Dec(b)
    ensures a == b
  {
    DecSign(a);
    DecSign(b);
  }

  lemma PrefixSplit(p: string, x: string, y: string)
    requires p + x == p + y
    ensures x == y
  {
    assert (p + x)[|p|..] == x && (p + y)[|p|..] == y;
  }

  lemma NotShorter(a: int, b: int, x: string, y: string)
    requires x != "" && Ends(x[0]) && Dec(a) + x == Dec(b) + y
    ensures |Dec(a)| >= |Dec(b)|
  {
    DecSign(b);
    assert (Dec(a) + x)[|Dec(a)|] == x[0];
    assert forall k :: 0 <= k < |Dec(b)| ==> (Dec(b) + y)[k] == Dec(b)[k];
  }

  /** A number followed by something that ends it can be read off. */
  lemma NumberSplit(a: int, b: int, x: string, y: string)
    requires x != "" && Ends(x[0]) && y != "" && Ends(y[0]) && Dec(a) + x == Dec(b) + y
    ensures a == b && x == y
  {
    NotShorter(a, b, x, y);
    NotShorter(b, a, y, x);
    assert (Dec(a) + x)[..|Dec(a)|] == Dec(a) && (Dec(b) + y)[..|Dec(b)|] == Dec(b);
    DecInjective(a, b);
    PrefixSplit(Dec(a), x, y);
  }

  /** A word, a number, and the rest of the text. */
  function Field(word: string, n: int, rest: string): string { word + (Dec(n) + rest) }

  predicate Opens(rest: string) { rest != "" && Ends(rest[0]) }

  lemma FieldSplit(word: string, a: int, b: int, x: string, y: string)
    requires Opens(x) && Opens(y) && Field(word, a, x) == Field(word, b, y)
    ensures a == b && x == y
  {
    PrefixSplit(word, Dec(a) + x, Dec(b) + y);
    NumberSplit(a, b, x, y);
  }

  predicate WordsEnd(f: Words) {
    f.key != "" && Ends(f.key[0]) && f.level != "" && Ends(f.level[0]) && f.waiters != "" && Ends(f.waiters[0])
  }

  /** The fields of a line, one inside the other. */
  function LineThen(f: Words, r: Row, level: nat, rest: string): string
    requires level < |r.waiters|
  {
    Field(f.descriptor, r.tag, ";" + CreatorThen(f, r, level, rest))
  }

  function CreatorThen(f: Words, r: Row, level: nat, rest: string): string
    requires level < |r.waiters|
  {
    Field(f.creator, r.creator, ";" + TagThen(f, r, level, rest))
  }

  function TagThen(f: Words, r: Row, level: nat, rest: string): string
    requires level < |r.waiters|
  {
    Field(f.tag, r.tag, Field(f.key, r.key, Field(f.level, level, Field(f.waiters, r.waiters[level], "\n" + rest))))
  }

  lemma Nested(a: string, b: string, c: string, d: string, rest: string)
    ensures a + b + c + d + rest == a + (b + (c + (d + rest)))
  {
    Assoc(a + b + c, d, rest);
    Assoc(a + b, c, d + rest);
    Assoc(a, b, c + (d + rest));
  }

  lemma LevelIsFields(f: Words, r: Row, level: nat, rest: string)
    requires level < |r.waiters|
    ensures Level(f, r, level) + ("\n" + rest) == TagThen(f, r, level, rest)
  {
    var l, w, end := Dec(level), Dec(r.waiters[level]), "\n" + rest;
    var front := f.tag + Dec(r.tag) + f.key + Dec(r.key);
    Assoc(front + f.level + l + f.waiters, w, end);
    Assoc(front + f.level + l, f.waiters, w + end);
    Assoc(front + f.level, l, f.waiters + (w + end));
    Assoc(front, f.level, l + (f.waiters + (w + end)));
    Nested(f.tag, Dec(r.tag), f.key, Dec(r.key), f.level + (l + (f.waiters + (w + end))));
  }

  lemma FieldIs(word: string, n: int, rest: string)
    ensures word + Dec(n) + ";" + rest == Field(word, n, ";" + rest)
  {
    Assoc(word + Dec(n), ";", rest);
    Assoc(word, Dec(n), ";" + rest);
  }

  lemma LineIsFields(f: Words, r: Row, level: nat, rest: string)
    requires level < |r.waiters|
    ensures Line(f, r, level) + rest == LineThen(f, r, level, rest)
  {
    Nested(Descriptor(f, r), Creator(f, r), Level(f, r, level), "\n", rest);
    LevelIsFields(f, r, level, rest);
    FieldIs(f.creator, r.creator, TagThen(f, r, level, rest));
    FieldIs(f.descriptor, r.tag, CreatorThen(f, r, level, rest));
  }

  lemma TagSplit(f: Words, r: Row, q: Row, level: nat, x: string, y: string)
    requires WordsEnd(f) && level < |r.waiters| && level < |q.waiters|
    requires TagThen(f, r, level, x) == TagThen(f, q, level, y)
    ensures r.tag == q.tag && r.key == q.key && r.waiters[level] == q.waiters[level] && x == y
  {
    var x3, y3 := Field(f.waiters, r.waiters[level], "\n" + x), Field(f.waiters, q.waiters[level], "\n" + y);
    var x2, y2 := Field(f.level, level, x3), Field(f.level, level, y3);
    var x1, y1 := Field(f.key, r.key, x2), Field(f.key, q.key, y2);
    FieldSplit(f.tag, r.tag, q.tag, x1, y1);
    FieldSplit(f.key, r.key, q.key, x2, y2);
    FieldSplit(f.level, level, level, x3, y3);
    FieldSplit(f.waiters, r.waiters[level], q.waiters[level], "\n" + x, "\n" + y);
    PrefixSplit("\n", x, y);
  }

  /** A line can be read off. */
  lemma LineSplit(f: Words, r: Row, q: Row, level: nat, x: string, y: string)
    requires WordsEnd(f) && level < |r.waiters| && level < |q.waiters|
    requires Line(f, r, level) + x == Line(f, q, level) + y
    ensures r.tag == q.tag && r.creator == q.creator && r.key == q.key && r.waiters[level] == q.waiters[level]
    ensures x == y
  {
    LineIsFields(f, r, level, x);
    LineIsFields(f, q, level, y);
    var c, d := CreatorThen(f, r, level, x), CreatorThen(f, q, level, y);
    FieldSplit(f.descriptor, r.tag, q.tag, ";" + c, ";" + d);
    PrefixSplit(";", c, d);
    var s, t := TagThen(f, r, level, x), TagThen(f, q, level, y);
    FieldSplit(f.creator, r.creator, q.creator, ";" + s, ";" + t);
    PrefixSplit(";", s, t);
    TagSplit(f, r, q, level, x, y);
  }

  lemma LastLine(f: Words, r: Row, n: nat, x: string)
    requires 0 < n <= |r.waiters|
    ensures Lines(f, r, n) + x == Lines(f, r, n - 1) + (Line(f, r, n - 1) + x)
  {
    Assoc(Lines(f, r, n - 1), Line(f, r, n - 1), x);
  }

  lemma FirstSame<T>(a: seq<T>, b: seq<T>, n: nat)
    requires 0 < n <= |a| && n <= |b| && a[..n - 1] == b[..n - 1] && a[n - 1] == b[n - 1]
    ensures a[..n] == b[..n]
  {
    assert a[..n] == a[..n - 1] + [a[n - 1]] && b[..n] == b[..n - 1] + [b[n - 1]];
  }

  lemma {:induction false} LinesSplit(f: Words, r: Row, q: Row, n: nat, x: string, y: string)
    requires WordsEnd(f) && n <= |r.waiters| && n <= |q.waiters|
    requires Lines(f, r, n) + x == Lines(f, q, n) + y
    ensures x == y && r.waiters[..n] == q.waiters[..n]
    ensures n > 0 ==> r.tag == q.tag && r.creator == q.creator && r.key == q.key
  {
    if n == 0 {
      assert "" + x == x && "" + y == y;
    } else {
      LastLine(f, r, n, x);
      LastLine(f, q, n, y);
      LinesSplit(f, r, q, n - 1, Line(f, r, n - 1) + x, Line(f, q, n - 1) + y);
      LineSplit(f, r, q, n - 1, x, y);
      FirstSame(r.waiters, q.waiters, n);
    }
  }

  lemma ParagraphSplit(f: Words, r: Row, q: Row, x: string, y: string)
    requires WordsEnd(f) && |r.waiters| == |q.waiters| > 0
    requires Paragraph(f, Used(r)) + x == Paragraph(f, Used(q)) + y
    ensures r == q && x == y
  {
    var n := |r.waiters|;
    Assoc(Lines(f, r, n), "\n", x);
    Assoc(Lines(f, q, n), "\n", y);
    LinesSplit(f, r, q, n, "\n" + x, "\n" + y);
    assert r.waiters[..n] == r.waiters && q.waiters[..n] == q.waiters;
    PrefixSplit("\n", x, y);
  }

  // --------------------------------------------------------------------------------------------------------
  // The whole listing

  /** Text that is over, or starts with a service of tag n or more. */
  ghost predicate Later(f: Words, x: string, n: nat) {
    x == "" || exists j: nat, rest :: j >= n && x == Field(f.descriptor, j, ";" + rest)
  }

  lemma {:induction false} LinesStartWith(f: Words, r: Row, n: nat, x: string) returns (rest: string)
    requires 0 < n <= |r.waiters|
    ensures Lines(f, r, n) + x == Field(f.descriptor, r.tag, ";" + rest)
  {
    var a := Line(f, r, n - 1);
    if n == 1 {
      assert Lines(f, r, 1) == a;
      LineIsFields(f, r, 0, x);
      rest := CreatorThen(f, r, 0, x);
    } else {
      Assoc(Lines(f, r, n - 1), a, x);
      rest := LinesStartWith(f, r, n - 1, a + x);
    }
  }

  lemma ParagraphStartsWith(f: Words, r: Row, x: string) returns (rest: string)
    requires |r.waiters| > 0
    ensures Paragraph(f, Used(r)) + x == Field(f.descriptor, r.tag, ";" + rest)
  {
    var n := |r.waiters|;
    Assoc(Lines(f, r, n), "\n", x);
    rest := LinesStartWith(f, r, n, "\n" + x);
  }

  /** Each service stands in the slot of its tag, with a counter for every level. */
  predicate InPlace(slots: seq<Slot>) {
    forall i :: 0 <= i < |slots| && slots[i].Used? ==> slots[i].row.tag == i && |slots[i].row.waiters| == LEVELS
  }

  lemma SlotIsLater(f: Words, slots: seq<Slot>, i: nat, x: string)
    requires InPlace(slots) && i < |slots| && Later(f, x, i + 1)
    ensures Later(f, Paragraph(f, slots[i]) + x, i)
  {
    if slots[i].Used? {
      var rest := ParagraphStartsWith(f, slots[i].row, x);
    } else {
      assert "" + x == x;
    }
  }

  /** A service in slot i is not the beginning of a text that starts later. */
  lemma NotLater(f: Words, r: Row, i: nat, x: string, y: string)
    requires r.tag == i && |r.waiters| > 0 && Later(f, y, i + 1)
    ensures Paragraph(f, Used(r)) + x != y
  {
    var rest := ParagraphStartsWith(f, r, x);
    if Paragraph(f, Used(r)) + x == y {
      DecSign(i);
      assert y != "";
      var j: nat, tail :| j >= i + 1 && y == Field(f.descriptor, j, ";" + tail);
      FieldSplit(f.descriptor, i, j, ";" + rest, ";" + tail);
    }
  }

  lemma SlotSplit(f: Words, a: Slot, b: Slot, i: nat, x: string, y: string)
    requires WordsEnd(f) && InPlaceAt(a, i) && InPlaceAt(b, i) && Later(f, x, i + 1) && Later(f, y, i + 1)
    requires Paragraph(f, a) + x == Paragraph(f, b) + y
    ensures a == b && x == y
  {
    assert "" + x == x && "" + y == y;
    if a.Used? && b.Used? {
      ParagraphSplit(f, a.row, b.row, x, y);
    } else if a.Used? {
      NotLater(f, a.row, i, x, y);
    } else if b.Used? {
      NotLater(f, b.row, i, y, x);
    }
  }

  predicate InPlaceAt(s: Slot, i: nat) { s.Used? ==> s.row.tag == i && |s.row.waiters| == LEVELS }

  lemma LastSlot(f: Words, slots: seq<Slot>, n: nat, x: string)
    requires 0 < n <= |slots|
    ensures Listing(f, slots, n) + x == Listing(f, slots, n - 1) + (Paragraph(f, slots[n - 1]) + x)
  {
    Assoc(Listing(f, slots, n - 1), Paragraph(f, slots[n - 1]), x);
  }

  lemma {:induction false} ListingSplit(f: Words, a: seq<Slot>, b: seq<Slot>, n: nat, x: string, y: string)
    requires WordsEnd(f) && InPlace(a) && InPlace(b) && n <= |a| && n <= |b| && Later(f, x, n) && Later(f, y, n)
    requires Listing(f, a, n) + x == Listing(f, b, n) + y
    ensures a[..n] == b[..n] && x == y
  {
    if n == 0 {
      assert "" + x == x && "" + y == y;
    } else {
      var i := n - 1;
      LastSlot(f, a, n, x);
      LastSlot(f, b, n, y);
      SlotIsLater(f, a, i, x);
      SlotIsLater(f, b, i, y);
      ListingSplit(f, a, b, i, Paragraph(f, a[i]) + x, Paragraph(f, b[i]) + y);
      SlotSplit(f, a[i], b[i], i, x, y);
      FirstSame(a, b, n);
    }
  }

  lemma TheWordsEnd()
    ensures WordsEnd(WORDS)
  {}

  /** The full listing tells exactly which services there are, with all that it shows of them. */
  lemma ListingInjective(a: seq<Slot>, b: seq<Slot>)
    requires InPlace(a) && InPlace(b) && |a| == |b| && Listing(WORDS, a, |a|) == Listing(WORDS, b, |b|)
    ensures a == b
  {
    TheWordsEnd();
    SameSlots(WORDS, a, b);
  }

  lemma SameSlots(f: Words, a: seq<Slot>, b: seq<Slot>)
    requires WordsEnd(f) && InPlace(a) && InPlace(b) && |a| == |b| && Listing(f, a, |a|) == Listing(f, b, |b|)
    ensures a == b
  {
    ListingSplit(f, a, b, |a|, "", "");
    assert a[..|a|] == a && b[..|b|] == b;
  }

  /** So does the status itself, with up to 23 services. */
  lemma StatusInjective(a: seq<Slot>, b: seq<Slot>)
    requires InPlace(a) && InPlace(b) && |a| == |b| && RowsOk(a) && RowsOk(b)
    requires UsedCount(a, |a|) <= 23 && UsedCount(b, |b|) <= 23
    requires Take(Listing(WORDS, a, |a|), STATUS_SIZE_MAX - 1) == Take(Listing(WORDS, b, |b|), STATUS_SIZE_MAX - 1)
    ensures a == b
  {
    TwentyThreeFit(a);
    TwentyThreeFit(b);
    ListingInjective(a, b);
  }
}
