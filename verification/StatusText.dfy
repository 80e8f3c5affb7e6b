// TAG_Messagin_help.c, scan_Service: the listing behind the device, written by truncating appends into one buffer.
module StatusText {
  const STATUS_SIZE_MAX: nat := 20 * 4096

  datatype Row = Row(tag: int, creator: int, key: int, waiters: seq<int>)

  datatype Slot = Free | Used(row: Row)

  // --------------------------------------------------------------------------------------------------------
  // The full text.

  function Digits(n: nat): (s: string)
    ensures |s| > 0
  {
    if n < 10 then [('0' as int + n) as char] else Digits(n / 10) + Digits(n % 10)
  }

  /** What %d prints. */
  function Dec(n: int): string {
    if n < 0 then "-" + Digits(-n) else Digits(n)
  }

  /** The fixed words of the format strings. */
  datatype Words = Words(descriptor: string, creator: string, tag: string, key: string, level: string, waiters: string)

  const WORDS: Words := Words("Tag descriptor: ", "Tag Creator: ", "TAG ID: ", "; KEY: ", "; Level: ", ", Waiters: ")

  function Descriptor(f: Words, r: Row): string { f.descriptor + Dec(r.tag) + ";" }

  function Creator(f: Words, r: Row): string { f.creator + Dec(r.creator) + ";" }

  function Level(f: Words, r: Row, level: nat): string
    requires level < |r.waiters|
  {
    f.tag + Dec(r.tag) + f.key + Dec(r.key) + f.level + Dec(level) + f.waiters + Dec(r.waiters[level])
  }

  function Joined(a: string, b: string, c: string): string { a + b + c + "\n" }

  function Line(f: Words, r: Row, level: nat): string
    requires level < |r.waiters|
  {
    Joined(Descriptor(f, r), Creator(f, r), Level(f, r, level))
  }

  function Lines(f: Words, r: Row, n: nat): string
    requires n <= |r.waiters|
  {
    if n == 0 then "" else Lines(f, r, n - 1) + Line(f, r, n - 1)
  }

  function Paragraph(f: Words, s: Slot): string {
    if s.Used? then Lines(f, s.row, |s.row.waiters|) + "\n" else ""
  }

  function Listing(f: Words, slots: seq<Slot>, n: nat): string
    requires n <= |slots|
  {
    if n == 0 then "" else Listing(f, slots, n - 1) + Paragraph(f, slots[n - 1])
  }

  // --------------------------------------------------------------------------------------------------------
  // Truncation.

  /** The first k characters, or all if there are fewer. */
  function Take(s: string, k: nat): string { if |s| <= k then s else s[..k] }

  lemma TakeAppend(a: string, s: string, k: nat)
    ensures Take(a + s, k) == Take(a, k) + Take(s, k - |Take(a, k)|)
  {
    if |a| > k {
      assert (a + s)[..k] == a[..k];
    }
  }

  /** scnprintf on a size of at least 1: at most size - 1 characters and a terminator. */
  method Scnprintf(text: array<char>, at: nat, size: nat, s: string) returns (n: nat)
    requires size > 0 && at + size <= text.Length
    modifies text
    ensures n == |Take(s, size - 1)| < size
    ensures text[..at + n] == old(text[..at]) + Take(s, size - 1)
    ensures text[at + n] == '\0'
    ensures forall k :: at + n < k < text.Length ==> text[k] == old(text[k])
  {
    n := 0;
    while n < |s| && n < size - 1
      invariant n <= |s| && n <= size - 1
      invariant text[..at + n] == old(text[..at]) + s[..n]
      invariant forall k :: at + n <= k < text.Length ==> text[k] == old(text[k])
    {
      ghost var before := text[..at + n];
      text[at + n] := s[n];
      assert text[..at + n + 1] == before + [s[n]];
      n := n + 1;
    }
    ghost var before := text[..at + n];
    text[at + n] := '\0';
    assert text[..at + n] == before;
  }

  /** One append of scan_Service; the subtraction is the size it passes. */
  method Append(text: array<char>, w: nat, len: nat, s: string, ghost full: string) returns (w': nat)
    requires w < len <= text.Length && text[..w] == Take(full, len - 1)
    modifies text
    ensures w' < len && text[..w'] == Take(full + s, len - 1)
  {
    TakeAppend(full, s, len - 1);
    var n := Scnprintf(text, w, len - w, s);
    w' := w + n;
  }

  method Terminate(text: array<char>, w: nat) returns (len': nat)
    requires w < text.Length
    modifies text
    ensures len' == w + 1 && text[..len'] == old(text[..w]) + ['\0']
  {
    text[w] := '\0';
    len' := w + 1;
  }

  /** scan_Service: the result is the full listing cut to len - 1 characters, then a terminator; len' counts both. */
  method ScanService(slots: seq<Slot>, len: nat) returns (text: array<char>, len': nat)
    requires len > 0
    ensures fresh(text) && text.Length == len && 0 < len' <= len
    ensures text[..len'] == Take(Listing(WORDS, slots, |slots|), len - 1) + ['\0']
  {
    text, len' := ScanWith(WORDS, slots, len);
  }

  method ScanWith(f: Words, slots: seq<Slot>, len: nat) returns (text: array<char>, len': nat)
    requires len > 0
    ensures fresh(text) && text.Length == len && 0 < len' <= len
    ensures text[..len'] == Take(Listing(f, slots, |slots|), len - 1) + ['\0']
  {
    text := new char[len](_ => '\0');
    var w, i := 0, 0;
    ghost var full := "";
    while i < |slots|
      invariant 0 <= i <= |slots| && 0 <= w < len
      invariant full == Listing(f, slots, i)
      invariant text[..w] == Take(full, len - 1)
    {
      ListingNext(f, slots, i);
      w := AppendSlot(f, text, w, len, slots[i], full);
      full := full + Paragraph(f, slots[i]);
      i := i + 1;
    }
    len' := Terminate(text, w);
  }

  lemma ListingNext(f: Words, slots: seq<Slot>, i: nat)
    requires i < |slots|
    ensures Listing(f, slots, i + 1) == Listing(f, slots, i) + Paragraph(f, slots[i])
  {}

  /** The four appends of one round of the inner loop. */
  method AppendLine(text: array<char>, w0: nat, len: nat, a: string, b: string, c: string, ghost full: string)
    returns (w: nat)
    requires w0 < len <= text.Length && text[..w0] == Take(full, len - 1)
    modifies text
    ensures w < len && text[..w] == Take(full + Joined(a, b, c), len - 1)
  {
    w := Append(text, w0, len, a, full);
    w := Append(text, w, len, b, full + a);
    w := Append(text, w, len, c, full + a + b);
    w := Append(text, w, len, "\n", full + a + b + c);
    assert full + a + b + c + "\n" == full + Joined(a, b, c);
  }

  lemma Assoc(a: string, b: string, c: string)
    ensures a + b + c == a + (b + c)
  {}

  lemma LinesStart(f: Words, full: string, r: Row)
    ensures full + Lines(f, r, 0) == full
  {}

  lemma LinesNext(f: Words, full: string, r: Row, level: nat)
    requires level < |r.waiters|
    ensures full + Lines(f, r, level) + Joined(Descriptor(f, r), Creator(f, r), Level(f, r,
        level)) == full + Lines(f, r, level + 1)
  {
    Assoc(full, Lines(f, r, level), Line(f, r, level));
  }

  lemma ParagraphEnds(f: Words, full: string, r: Row)
    ensures full + Lines(f, r, |r.waiters|) + "\n" == full + Paragraph(f, Used(r))
  {
    Assoc(full, Lines(f, r, |r.waiters|), "\n");
  }

  /** The inner loop, one line a level, and the empty line after it. */
  method AppendService(f: Words, text: array<char>, w0: nat, len: nat, r: Row, ghost full: string) returns (w: nat)
    requires w0 < len <= text.Length && text[..w0] == Take(full, len - 1)
    modifies text
    ensures w < len && text[..w] == Take(full + Paragraph(f, Used(r)), len - 1)
  {
    w := w0;
    var level := 0;
    LinesStart(f, full, r);
    while level < |r.waiters|
      invariant 0 <= level <= |r.waiters| && w < len
      invariant text[..w] == Take(full + Lines(f, r, level), len - 1)
    {
      w := AppendLine(text, w, len, Descriptor(f, r), Creator(f, r), Level(f, r, level), full + Lines(f, r, level));
      LinesNext(f, full, r, level);
      level := level + 1;
    }
    w := Append(text, w, len, "\n", full + Lines(f, r, level));
    ParagraphEnds(f, full, r);
  }

  /** One round of the outer loop. */
  method AppendSlot(f: Words, text: array<char>, w0: nat, len: nat, s: Slot, ghost full: string) returns (w: nat)
    requires w0 < len <= text.Length && text[..w0] == Take(full, len - 1)
    modifies text
    ensures w < len && text[..w] == Take(full + Paragraph(f, s), len - 1)
  {
    if s.Used? {
      w := AppendService(f, text, w0, len, s.row, full);
    } else {
      w := w0;
      assert full + "" == full;
    }
  }
}
