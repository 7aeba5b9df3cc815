// The writer of the PDF fixtures, and a reader that follows the file structure of ISO 32000-1, section 7.5.
module PdfFile {
  import opened Wrappers
  import opened Texts
  import opened Decimal
  import opened PdfText

  // ---------- writing ----------

  const HEADER := "%PDF-1.4\n"
  const TABLE_START := "xref\n0 "
  const FREE_ENTRY := "0000000000 65535 f \n"
  const ENTRY_END := " 00000 n \n"
  const STARTXREF := "startxref\n"
  const FILE_END := "\n%%EOF\n"
  const OFFSET_DIGITS := 10
  const ENTRY_LENGTH := 20

  function ObjectText(k: nat, content: string): string {
    Print(k) + " 0 obj\n" + content + "\nendobj\n"
  }

  function Body(objects: seq<string>): string {
    if objects == [] then HEADER
    else Body(objects[..|objects| - 1]) + ObjectText(|objects|, objects[|objects| - 1])
  }

  /** The byte at which object k, counted from one, begins. */
  function OffsetOf(objects: seq<string>, k: nat): nat
    requires 1 <= k <= |objects|
  {
    |Encode(Body(objects[..k - 1]))|
  }

  function Entry(offset: nat): string {
    PrintPadded(offset, OFFSET_DIGITS) + ENTRY_END
  }

  function Offsets(objects: seq<string>): (offsets: seq<nat>)
    ensures |offsets| == |objects|
  {
    seq(|objects|, i requires 0 <= i < |objects| => OffsetOf(objects, i + 1))
  }

  function Entries(offsets: seq<nat>): string {
    if offsets == [] then "" else Entries(offsets[..|offsets| - 1]) + Entry(offsets[|offsets| - 1])
  }

  function TableHead(n: nat): string {
    TABLE_START + Print(n + 1) + "\n" + FREE_ENTRY
  }

  function Trailer(n: nat): string {
    "trailer\n<< /Size " + Print(n + 1) + " /Root 1 0 R >>\n" + STARTXREF
  }

  function FileText(objects: seq<string>): string {
    Body(objects) + TableHead(|objects|) + Entries(Offsets(objects))
    + Trailer(|objects|) + Print(|Encode(Body(objects))|) + FILE_END
  }

  lemma BodyGrows(objects: seq<string>, n: nat)
    requires n < |objects|
    ensures Body(objects[..n + 1]) == Body(objects[..n]) + ObjectText(n + 1, objects[n])
    ensures |Encode(Body(objects[..n]))| == OffsetOf(objects, n + 1)
  {
    assert objects[..n + 1][..n] == objects[..n];
  }

  lemma BodyOfAll(objects: seq<string>)
    ensures Body(objects[..0]) == HEADER && Body(objects[..|objects|]) == Body(objects)
  {
    assert objects[..|objects|] == objects;
  }

  lemma AllOffsets(objects: seq<string>, offsets: seq<nat>)
    requires |offsets| == |objects| + 1 && offsets[0] == 0
    requires forall k | 1 <= k <= |objects| :: offsets[k] == OffsetOf(objects, k)
    ensures offsets == [0] + Offsets(objects)
  {
  }

  method WriteObjects(objects: seq<string>) returns (pdf: string, offsets: seq<nat>)
    ensures pdf == Body(objects) && offsets == [0] + Offsets(objects)
  {
    hide *;
    pdf, offsets := HEADER, [0];
    BodyOfAll(objects);
    for index := 0 to |objects|
      invariant pdf == Body(objects[..index])
      invariant |offsets| == index + 1 && offsets[0] == 0
      invariant forall k | 1 <= k <= index :: offsets[k] == OffsetOf(objects, k)
    {
      BodyGrows(objects, index);
      offsets := offsets + [|Encode(pdf)|];
      pdf := pdf + ObjectText(index + 1, objects[index]);
    }
    AllOffsets(objects, offsets);
  }

  method WriteEntries(offsets: seq<nat>) returns (entries: string)
    requires offsets != []
    ensures entries == Entries(offsets[1..])
  {
    entries := "";
    for k := 1 to |offsets|
      invariant entries == Entries(offsets[1..][..k - 1])
    {
      assert offsets[1..][..k][..k - 1] == offsets[1..][..k - 1];
      entries := entries + Entry(offsets[k]);
    }
    assert offsets[1..][..|offsets| - 1] == offsets[1..];
  }

  method MakePdf(objects: seq<string>) returns (file: string)
    ensures file == Encode(FileText(objects))
  {
    var pdf, offsets := WriteObjects(objects);
    var xref := |Encode(pdf)|;
    var entries := WriteEntries(offsets);
    pdf := pdf + TableHead(|objects|) + entries;
    pdf := pdf + Trailer(|objects|) + Print(xref) + FILE_END;
    file := Encode(pdf);
  }

  // ---------- reading ----------

  /** The line that begins object k (section 7.3.10). */
  function ObjectHead(k: nat): string {
    Print(k) + " 0 obj\n"
  }

  predicate AllDigits(text: string) {
    forall i | 0 <= i < |text| :: IsDigit(text[i])
  }

  /** Where the digits that begin at a position end. */
  function DigitsEnd(file: string, at: nat): (end: nat)
    requires at <= |file|
    ensures at <= end <= |file| && AllDigits(file[at..end])
    decreases |file| - at
  {
    if at < |file| && IsDigit(file[at]) then DigitsEnd(file, at + 1) else at
  }

  /** Where the digits that end at a position begin. */
  function DigitsStart(file: string, end: nat): (start: nat)
    requires end <= |file|
    ensures start <= end && AllDigits(file[start..end])
  {
    if end > 0 && IsDigit(file[end - 1]) then
      var start := DigitsStart(file, end - 1);
      assert file[start..end] == file[start..end - 1] + [file[end - 1]];
      start
    else end
  }

  /** The offset of the cross-reference table, from the end of the file (section 7.5.5). */
  function ReadStartXref(file: string): Option<nat> {
    if |file| < |FILE_END| || !StandsAt(FILE_END, file, |file| - |FILE_END|) then None
    else
      var end := |file| - |FILE_END|;
      var start := DigitsStart(file, end);
      if start == end || start < |STARTXREF| || !StandsAt(STARTXREF, file, start - |STARTXREF|) then None
      else Some(Read(file[start..end]))
  }

  /** How many objects the one section of the table covers, and where its entries begin (section 7.5.4). */
  function ReadTableHead(file: string, at: nat): Option<(nat, nat)> {
    if !StandsAt(TABLE_START, file, at) then None
    else
      var start := at + |TABLE_START|;
      var end := DigitsEnd(file, start);
      if start == end || !StandsAt("\n", file, end) then None else Some((Read(file[start..end]), end + 1))
  }

  /** The offset in an in-use entry: ten digits. */
  function ReadEntry(file: string, at: nat): Option<nat> {
    if at + ENTRY_LENGTH > |file| then None
    else
      var digits, tail := file[at..at + OFFSET_DIGITS], file[at + OFFSET_DIGITS..at + ENTRY_LENGTH];
      if AllDigits(digits) && EntryTail(tail) then Some(Read(digits)) else None
  }

  /** Space, five digits, space, n, and a line end of two bytes. */
  predicate EntryTail(tail: string) {
    && |tail| == ENTRY_LENGTH - OFFSET_DIGITS
    && tail[0] == ' ' && (forall i | 1 <= i <= 5 :: IsDigit(tail[i])) && tail[6] == ' ' && tail[7] == 'n'
    && ((tail[8] == ' ' && (tail[9] == '\r' || tail[9] == '\n')) || (tail[8] == '\r' && tail[9] == '\n'))
  }

  /** Follow startxref to the table, and its entry k to the object. */
  function FindObject(file: string, k: nat): Option<nat> {
    match ReadStartXref(file)
    case None => None
    case Some(xref) =>
      match ReadTableHead(file, xref)
      case None => None
      case Some((count, entries)) => if k < count then ReadEntry(file, entries + ENTRY_LENGTH * k) else None
  }

  lemma {:induction false} DigitsEndIs(file: string, at: nat, end: nat)
    requires at <= end <= |file| && AllDigits(file[at..end])
    requires end == |file| || !IsDigit(file[end])
    ensures DigitsEnd(file, at) == end
    decreases end - at
  {
    if at < end {
      assert file[at] == file[at..end][0];
      assert file[at + 1..end] == file[at..end][1..];
      DigitsEndIs(file, at + 1, end);
    }
  }

  lemma {:induction false} DigitsStartIs(file: string, start: nat, end: nat)
    requires start <= end <= |file| && AllDigits(file[start..end])
    requires start == 0 || !IsDigit(file[start - 1])
    ensures DigitsStart(file, end) == start
  {
    if start < end {
      assert file[end - 1] == file[start..end][end - 1 - start];
      assert file[start..end - 1] == file[start..end][..end - 1 - start];
      DigitsStartIs(file, start, end - 1);
    }
  }

  // ---------- the bytes of the file ----------

  lemma DigitsAreAscii(text: string)
    requires AllDigits(text)
    ensures Ascii(text)
  {
  }

  lemma AsciiConcat(a: string, b: string)
    requires Ascii(a) && Ascii(b)
    ensures Ascii(a + b)
  {
  }

  lemma EntryIsAscii(offset: nat)
    ensures Ascii(Entry(offset))
  {
    DigitsAreAscii(PrintPadded(offset, OFFSET_DIGITS));
    AsciiConcat(PrintPadded(offset, OFFSET_DIGITS), ENTRY_END);
  }

  lemma {:induction false} EntriesAreAscii(offsets: seq<nat>)
    ensures Ascii(Entries(offsets))
  {
    if offsets != [] {
      var last := |offsets| - 1;
      EntriesAreAscii(offsets[..last]);
      EntryIsAscii(offsets[last]);
      AsciiConcat(Entries(offsets[..last]), Entry(offsets[last]));
    }
  }

  lemma TableHeadIsAscii(n: nat)
    ensures Ascii(TableHead(n))
  {
    DigitsAreAscii(Print(n + 1));
    AsciiConcat(TABLE_START, Print(n + 1));
    AsciiConcat(TABLE_START + Print(n + 1), "\n");
    AsciiConcat(TABLE_START + Print(n + 1) + "\n", FREE_ENTRY);
  }

  function TrailerFront(n: nat): string {
    "trailer\n<< /Size " + Print(n + 1) + " /Root 1 0 R >>\n"
  }

  lemma TrailerIsAscii(n: nat)
    ensures Ascii(Trailer(n))
  {
    DigitsAreAscii(Print(n + 1));
    AsciiConcat("trailer\n<< /Size ", Print(n + 1));
    AsciiConcat("trailer\n<< /Size " + Print(n + 1), " /Root 1 0 R >>\n");
    AsciiConcat(TrailerFront(n), STARTXREF);
  }

  /** What follows the objects and the table: it ends with the offset of the table. */
  function Ending(n: nat, xref: nat): string {
    Trailer(n) + Print(xref) + FILE_END
  }

  lemma EndingIsAscii(n: nat, xref: nat)
    ensures Ascii(Ending(n, xref))
  {
    TrailerIsAscii(n);
    DigitsAreAscii(Print(xref));
    AsciiConcat(Trailer(n), Print(xref));
    AsciiConcat(Trailer(n) + Print(xref), FILE_END);
  }

  lemma EncodeWithAsciiEnd(body: string, end: string)
    requires Ascii(end)
    ensures Encode(body + end) == Encode(body) + end
  {
    EncodeConcat(body, end);
    EncodeAscii(end);
  }

  /** The table and what follows it. */
  function Back(n: nat, entries: string, xref: nat): string {
    TableHead(n) + (entries + Ending(n, xref))
  }

  /** The file is: body, table, ending. */
  predicate LaidOut(file: string, body: string, n: nat, entries: string) {
    file == body + Back(n, entries, |body|)
  }

  lemma SixParts(a: string, b: string, c: string, d: string, e: string, f: string)
    ensures a + b + c + d + e + f == a + (b + (c + (d + e + f)))
  {
  }

  /** Everything after the objects is ASCII, so it is one byte a character. */
  lemma FileIsLaidOut(objects: seq<string>)
    ensures LaidOut(Encode(FileText(objects)), Encode(Body(objects)), |objects|, Entries(Offsets(objects)))
  {
    var body, n, entries := Body(objects), |objects|, Entries(Offsets(objects));
    var xref := |Encode(body)|;
    EntriesAreAscii(Offsets(objects));
    EndingIsAscii(n, xref);
    AsciiConcat(entries, Ending(n, xref));
    TableHeadIsAscii(n);
    AsciiConcat(TableHead(n), entries + Ending(n, xref));
    EncodeWithAsciiEnd(body, Back(n, entries, xref));
    SixParts(body, TableHead(n), entries, Trailer(n), Print(xref), FILE_END);
  }

  // ---------- finding the table ----------

  lemma FourParts(a: string, b: string, c: string, d: string)
    ensures a + (b + (c + d)) == a + b + c + d
  {
  }

  lemma EndingParts(front: string, trailer: string, digits: string)
    ensures var file, start := front + (trailer + digits + FILE_END), |front| + |trailer|;
            && StandsAt(trailer, file, |front|) && StandsAt(digits, file, start)
            && StandsAt(FILE_END, file, start + |digits|) && |file| == start + |digits| + |FILE_END|
  {
    FourParts(front, trailer, digits, FILE_END);
    Regroup(trailer, digits, FILE_END);
    StandsBetween(front, trailer, digits + FILE_END);
    StandsBetween(front + trailer, digits, FILE_END);
    StandsBetween(front + trailer + digits, FILE_END, "");
    Regroup(front + trailer, digits, FILE_END);
    assert front + trailer + digits + FILE_END + "" == front + trailer + digits + FILE_END;
  }

  lemma DigitsFollowStartXref(file: string, start: nat, digits: string)
    requires AllDigits(digits) && StandsAt(digits, file, start)
    requires start >= |STARTXREF| && StandsAt(STARTXREF, file, start - |STARTXREF|)
    ensures file[start..start + |digits|] == digits && DigitsStart(file, start + |digits|) == start
  {
    assert file[start - 1] == STARTXREF[|STARTXREF| - 1] == '\n';
    DigitsStartIs(file, start, start + |digits|);
  }

  lemma StartXrefIsRead(file: string, start: nat, digits: string)
    requires digits != "" && AllDigits(digits) && StandsAt(digits, file, start)
    requires |file| == start + |digits| + |FILE_END| && StandsAt(FILE_END, file, start + |digits|)
    requires start >= |STARTXREF| && StandsAt(STARTXREF, file, start - |STARTXREF|)
    ensures ReadStartXref(file) == Some(Read(digits))
  {
    hide StandsAt, DigitsStart, AllDigits, Read;
    DigitsFollowStartXref(file, start, digits);
  }

  lemma TableIsLocated(front: string, n: nat, xref: nat)
    ensures ReadStartXref(front + Ending(n, xref)) == Some(xref)
  {
    var file, trailer := front + Ending(n, xref), Trailer(n);
    EndingParts(front, trailer, Print(xref));
    StandsBetween(TrailerFront(n), STARTXREF, "");
    assert TrailerFront(n) + STARTXREF + "" == trailer;
    StandsDeeper(STARTXREF, trailer, file, |trailer| - |STARTXREF|, |front|);
    ReadPrinted(xref);
    StartXrefIsRead(file, |front| + |trailer|, Print(xref));
  }

  lemma StartXrefOfFile(file: string, body: string, n: nat, entries: string)
    requires LaidOut(file, body, n, entries)
    ensures ReadStartXref(file) == Some(|body|)
  {
    FourParts(body, TableHead(n), entries, Ending(n, |body|));
    TableIsLocated(body + TableHead(n) + entries, n, |body|);
  }

  lemma TableIsRead(file: string, front: string, n: nat, back: string)
    requires file == front + (TableHead(n) + back)
    ensures ReadTableHead(file, |front|) == Some((n + 1, |front| + |TableHead(n)| - |FREE_ENTRY|))
  {
    var digits := Print(n + 1);
    var start := |front| + |TABLE_START|;
    var end := start + |digits|;
    assert file == front + TABLE_START + digits + "\n" + FREE_ENTRY + back;
    assert StandsAt(TABLE_START, file, |front|);
    assert file[start..end] == digits;
    assert StandsAt("\n", file, end) && file[end] == '\n';
    DigitsEndIs(file, start, end);
    ReadPrinted(n + 1);
  }

  lemma HeadOfFile(file: string, body: string, n: nat, entries: string)
    requires LaidOut(file, body, n, entries)
    ensures |TableHead(n)| >= |FREE_ENTRY| == ENTRY_LENGTH
    ensures ReadTableHead(file, |body|) == Some((n + 1, |body| + |TableHead(n)| - |FREE_ENTRY|))
  {
    TableIsRead(file, body, n, entries + Ending(n, |body|));
  }

  // ---------- reading the entries ----------

  predicate Fits(offset: nat) {
    offset < Power10(OFFSET_DIGITS)
  }

  lemma EntryLength(offset: nat)
    requires Fits(offset)
    ensures |Entry(offset)| == ENTRY_LENGTH
  {
    PrintedLength(offset, OFFSET_DIGITS);
  }

  lemma {:induction false} EntriesLength(offsets: seq<nat>)
    requires forall j | 0 <= j < |offsets| :: Fits(offsets[j])
    ensures |Entries(offsets)| == ENTRY_LENGTH * |offsets|
  {
    if offsets != [] {
      EntriesLength(offsets[..|offsets| - 1]);
      EntryLength(offsets[|offsets| - 1]);
    }
  }

  /** An entry stands 20 bytes further per entry before it, as long as none of those is too wide. */
  lemma {:induction false} EntryStands(offsets: seq<nat>, k: nat)
    requires k < |offsets| && forall j | 0 <= j <= k :: Fits(offsets[j])
    ensures StandsAt(Entry(offsets[k]), Entries(offsets), ENTRY_LENGTH * k)
  {
    var last := |offsets| - 1;
    var front, entry := Entries(offsets[..last]), Entry(offsets[last]);
    if k < last {
      EntryStands(offsets[..last], k);
      StandsInMiddle(Entry(offsets[k]), "", front, entry, ENTRY_LENGTH * k);
      assert "" + (front + entry) == front + entry;
    } else {
      EntriesLength(offsets[..last]);
      StandsBetween(front, entry, "");
      assert front + entry + "" == front + entry;
    }
  }

  lemma EntryParts(offset: nat, file: string, at: nat)
    requires Fits(offset) && StandsAt(Entry(offset), file, at)
    ensures |PrintPadded(offset, OFFSET_DIGITS)| == OFFSET_DIGITS
    ensures StandsAt(PrintPadded(offset, OFFSET_DIGITS), file, at) && StandsAt(ENTRY_END, file, at + OFFSET_DIGITS)
  {
    var digits := PrintPadded(offset, OFFSET_DIGITS);
    PrintedLength(offset, OFFSET_DIGITS);
    StandsBetween("", digits, ENTRY_END);
    assert "" + digits + ENTRY_END == Entry(offset);
    StandsDeeper(digits, Entry(offset), file, 0, at);
    StandsBetween(digits, ENTRY_END, "");
    assert digits + ENTRY_END + "" == Entry(offset);
    StandsDeeper(ENTRY_END, Entry(offset), file, OFFSET_DIGITS, at);
  }

  lemma EntryIsRead(offset: nat, file: string, at: nat)
    requires Fits(offset) && StandsAt(Entry(offset), file, at)
    ensures ReadEntry(file, at) == Some(offset)
  {
    hide PrintPadded, Print, Read, Entry, StandsAt;
    EntryParts(offset, file, at);
    ReadPadded(offset, OFFSET_DIGITS);
    StandingIsSlice(PrintPadded(offset, OFFSET_DIGITS), file, at);
    StandingIsSlice(ENTRY_END, file, at + OFFSET_DIGITS);
  }

  lemma FindObjectInSteps(file: string, k: nat, xref: nat, count: nat, entries: nat, offset: nat)
    requires ReadStartXref(file) == Some(xref) && ReadTableHead(file, xref) == Some((count, entries)) && k < count
    requires ReadEntry(file, entries + ENTRY_LENGTH * k) == Some(offset)
    ensures FindObject(file, k) == Some(offset)
  {
  }

  lemma EntryOfFile(file: string, body: string, n: nat, entries: string, k: nat, offset: nat)
    requires LaidOut(file, body, n, entries)
    requires 1 <= k && Fits(offset) && StandsAt(Entry(offset), entries, ENTRY_LENGTH * (k - 1))
    ensures ReadEntry(file, |body| + |TableHead(n)| + ENTRY_LENGTH * (k - 1)) == Some(offset)
  {
    var head, ending, inner := body + TableHead(n), Ending(n, |body|), ENTRY_LENGTH * (k - 1);
    Regroup(body, TableHead(n), entries + ending);
    StandsInMiddle(Entry(offset), head, entries, ending, inner);
    EntryIsRead(offset, head + (entries + ending), |head| + inner);
  }

  /** The reader finds entry k of the table, wherever the table stands and whatever the other entries are. */
  lemma TableIsFollowed(file: string, body: string, n: nat, entries: string, k: nat, offset: nat)
    requires LaidOut(file, body, n, entries)
    requires 1 <= k <= n && Fits(offset) && StandsAt(Entry(offset), entries, ENTRY_LENGTH * (k - 1))
    ensures FindObject(file, k) == Some(offset)
  {
    hide *;
    StartXrefOfFile(file, body, n, entries);
    HeadOfFile(file, body, n, entries);
    EntryOfFile(file, body, n, entries, k, offset);
    FindObjectInSteps(file, k, |body|, n + 1, |body| + |TableHead(n)| - ENTRY_LENGTH, offset);
  }

  // ---------- the whole file ----------

  lemma {:induction false} OffsetsGrow(objects: seq<string>, j: nat, k: nat)
    requires 1 <= j <= k <= |objects|
    ensures OffsetOf(objects, j) <= OffsetOf(objects, k)
  {
    if j < k {
      OffsetsGrow(objects, j, k - 1);
      assert objects[..k - 1][..k - 2] == objects[..k - 2];
      EncodeConcat(Body(objects[..k - 2]), ObjectText(k - 1, objects[k - 2]));
    }
  }

  lemma EncodedBodyGrows(objects: seq<string>)
    requires objects != []
    ensures var last := |objects| - 1;
            Encode(Body(objects)) == Encode(Body(objects[..last])) + Encode(ObjectText(|objects|, objects[last]))
  {
    EncodeConcat(Body(objects[..|objects| - 1]), ObjectText(|objects|, objects[|objects| - 1]));
  }

  lemma OffsetOfPrefix(objects: seq<string>, n: nat, k: nat)
    requires 1 <= k <= n <= |objects|
    ensures OffsetOf(objects[..n], k) == OffsetOf(objects, k)
    ensures k == n ==> OffsetOf(objects, k) == |Encode(Body(objects[..n - 1]))|
  {
    assert objects[..n][..k - 1] == objects[..k - 1];
  }

  lemma {:induction false} ObjectStands(objects: seq<string>, k: nat)
    requires 1 <= k <= |objects|
    ensures StandsAt(Encode(ObjectText(k, objects[k - 1])), Encode(Body(objects)), OffsetOf(objects, k))
  {
    hide *;
    var last := |objects| - 1;
    var front, written := Encode(Body(objects[..last])), Encode(ObjectText(|objects|, objects[last]));
    EncodedBodyGrows(objects);
    if k < |objects| {
      ObjectStands(objects[..last], k);
      OffsetOfPrefix(objects, last, k);
      StandsInMiddle(Encode(ObjectText(k, objects[k - 1])), "", front, written, OffsetOf(objects, k));
      assert "" + (front + written) == front + written;
    } else {
      OffsetOfPrefix(objects, |objects|, k);
      StandsBetween(front, written, "");
      assert front + written + "" == front + written;
    }
  }

  lemma OffsetsFit(objects: seq<string>, k: nat)
    requires 1 <= k <= |objects| && Fits(OffsetOf(objects, k))
    ensures Offsets(objects)[k - 1] == OffsetOf(objects, k)
    ensures forall j | 0 <= j < k :: Fits(Offsets(objects)[j])
  {
    forall j | 0 <= j < k ensures Fits(Offsets(objects)[j]) {
      OffsetsGrow(objects, j + 1, k);
    }
  }

  lemma TableLeadsToOffset(objects: seq<string>, k: nat)
    requires 1 <= k <= |objects| && Fits(OffsetOf(objects, k))
    ensures FindObject(Encode(FileText(objects)), k) == Some(OffsetOf(objects, k))
  {
    hide *;
    var offsets := Offsets(objects);
    FileIsLaidOut(objects);
    OffsetsFit(objects, k);
    EntryStands(offsets, k - 1);
    TableIsFollowed(Encode(FileText(objects)), Encode(Body(objects)), |objects|, Entries(offsets), k, offsets[k - 1]);
  }

  lemma ObjectStandsInFile(objects: seq<string>, k: nat)
    requires 1 <= k <= |objects|
    ensures StandsAt(ObjectHead(k), Encode(FileText(objects)), OffsetOf(objects, k))
    ensures StandsAt(Encode(ObjectText(k, objects[k - 1])), Encode(FileText(objects)), OffsetOf(objects, k))
  {
    var body := Encode(Body(objects));
    FileIsLaidOut(objects);
    ObjectStands(objects, k);
    ObjectBegins(k, objects[k - 1]);
    StandsInPrefix(ObjectHead(k), Encode(ObjectText(k, objects[k - 1])), body,
                   Back(|objects|, Entries(Offsets(objects)), |body|), OffsetOf(objects, k));
  }

  /** Following startxref and entry k of the table lands on object k, whenever its offset fits ten digits. */
  lemma TablePointsAtItsObjects(objects: seq<string>, k: nat)
    requires 1 <= k <= |objects| && Fits(OffsetOf(objects, k))
    ensures var file := Encode(FileText(objects));
            && FindObject(file, k) == Some(OffsetOf(objects, k))
            && StandsAt(ObjectHead(k), file, OffsetOf(objects, k))
            && StandsAt(Encode(ObjectText(k, objects[k - 1])), file, OffsetOf(objects, k))
  {
    TableLeadsToOffset(objects, k);
    ObjectStandsInFile(objects, k);
  }

  const OBJECT_END := "\nendobj\n"

  lemma ObjectHeadIsAscii(k: nat)
    ensures Ascii(ObjectHead(k))
  {
    DigitsAreAscii(Print(k));
    AsciiConcat(Print(k), " 0 obj\n");
  }

  lemma EncodeBetweenAscii(head: string, content: string, end: string)
    requires Ascii(head) && Ascii(end)
    ensures Encode(head + content + end) == head + (Encode(content) + end)
  {
    EncodeAscii(head);
    EncodeWithAsciiEnd(content, end);
    Regroup(head, content, end);
    EncodeConcat(head, content + end);
  }

  lemma EncodedObject(k: nat, content: string)
    ensures Encode(ObjectText(k, content)) == ObjectHead(k) + (Encode(content) + OBJECT_END)
  {
    ObjectHeadIsAscii(k);
    EncodeBetweenAscii(ObjectHead(k), content, OBJECT_END);
  }

  lemma ObjectBegins(k: nat, content: string)
    ensures StandsAt(ObjectHead(k), Encode(ObjectText(k, content)), 0)
  {
    EncodedObject(k, content);
    StandsBetween("", ObjectHead(k), Encode(content) + OBJECT_END);
    assert "" + ObjectHead(k) + (Encode(content) + OBJECT_END) == ObjectHead(k) + (Encode(content) + OBJECT_END);
  }

  // ---------- header and trailer ----------

  const SIZE_KEY := "trailer\n<< /Size "
  const ROOT_KEY := " /Root "
  const TRAILER_END := " 0 R >>\n"

  /** The trailer dictionary at a position: number of entries and object of the catalogue (section 7.5.5). */
  function ReadTrailerAt(file: string, at: nat): Option<(nat, nat)> {
    if !StandsAt(SIZE_KEY, file, at) then None
    else
      var size := at + |SIZE_KEY|;
      var end := DigitsEnd(file, size);
      if !StandsAt(ROOT_KEY, file, end) then None
      else
        var root := end + |ROOT_KEY|;
        var last := DigitsEnd(file, root);
        if size == end || root == last || !StandsAt(TRAILER_END, file, last) then None
        else Some((Read(file[size..end]), Read(file[root..last])))
  }

  /** The trailer follows the entries of the table that startxref leads to. */
  function ReadTrailer(file: string): Option<(nat, nat)> {
    match ReadStartXref(file)
    case None => None
    case Some(xref) =>
      match ReadTableHead(file, xref)
      case None => None
      case Some((count, entries)) => ReadTrailerAt(file, entries + ENTRY_LENGTH * count)
  }

  lemma FiveParts(front: string, a: string, b: string, c: string, d: string, e: string)
    ensures var file := front + (a + (b + (c + (d + e))));
            && StandsAt(a, file, |front|) && StandsAt(b, file, |front| + |a|) && StandsAt(c, file, |front| + |a| + |b|)
            && StandsAt(d, file, |front| + |a| + |b| + |c|)
  {
    StandsInMiddle(a, front, a, b + (c + (d + e)), 0);
    Regroup(front, a, b + (c + (d + e)));
    StandsInMiddle(b, front + a, b, c + (d + e), 0);
    Regroup(front + a, b, c + (d + e));
    StandsInMiddle(c, front + a + b, c, d + e, 0);
    Regroup(front + a + b, c, d + e);
    StandsInMiddle(d, front + a + b + c, d, e, 0);
  }

  lemma TrailerParts(n: nat, back: string)
    ensures Trailer(n) + back == SIZE_KEY + (Print(n + 1) + (ROOT_KEY + ("1" + (TRAILER_END + STARTXREF + back))))
  {
    assert " /Root 1 0 R >>\n" == ROOT_KEY + "1" + TRAILER_END;
    assert Trailer(n) == SIZE_KEY + Print(n + 1) + (ROOT_KEY + "1" + TRAILER_END) + STARTXREF;
    Nested(SIZE_KEY, Print(n + 1), ROOT_KEY, "1", TRAILER_END, STARTXREF, back);
  }

  lemma Nested(a: string, b: string, c: string, d: string, e: string, f: string, g: string)
    ensures a + b + (c + d + e) + f + g == a + (b + (c + (d + (e + f + g))))
  {
  }

  lemma NumberIsFollowed(file: string, digits: string, next: string, at: nat)
    requires AllDigits(digits) && StandsAt(digits, file, at) && StandsAt(next, file, at + |digits|)
    requires next != "" && !IsDigit(next[0])
    ensures DigitsEnd(file, at) == at + |digits| && file[at..at + |digits|] == digits
  {
    var end := at + |digits|;
    assert file[end] == file[end..end + |next|][0];
    DigitsEndIs(file, at, end);
  }

  lemma TrailerPartsStand(file: string, front: string, n: nat, back: string)
    requires file == front + (Trailer(n) + back)
    ensures var size := |front| + |SIZE_KEY|;
            var root := size + |Print(n + 1)| + |ROOT_KEY|;
            && StandsAt(SIZE_KEY, file, |front|) && StandsAt(Print(n + 1), file, size)
            && StandsAt(ROOT_KEY, file, size + |Print(n + 1)|) && StandsAt("1", file, root) && StandsAt(TRAILER_END, file, root + 1)
  {
    hide Trailer, Print, StandsAt;
    TrailerParts(n, back);
    FiveParts(front, SIZE_KEY, Print(n + 1), ROOT_KEY, "1", TRAILER_END + STARTXREF + back);
    Regroup(TRAILER_END, STARTXREF, back);
    EndStands(front, SIZE_KEY, Print(n + 1), ROOT_KEY, "1", TRAILER_END, STARTXREF + back);
  }

  lemma TrailerDigits(file: string, at: nat, end: nat, root: nat, last: nat, size: string, catalogue: string)
    requires StandsAt(SIZE_KEY, file, at) && StandsAt(ROOT_KEY, file, end) && StandsAt(TRAILER_END, file, last)
    requires at + |SIZE_KEY| < end <= |file| && root == end + |ROOT_KEY| && root < last <= |file|
    requires DigitsEnd(file, at + |SIZE_KEY|) == end && file[at + |SIZE_KEY|..end] == size && AllDigits(size)
    requires DigitsEnd(file, root) == last && file[root..last] == catalogue && AllDigits(catalogue)
    ensures ReadTrailerAt(file, at) == Some((Read(size), Read(catalogue)))
  {
    hide StandsAt, DigitsEnd, AllDigits, Read;
  }

  lemma PrintsDigits(n: nat)
    ensures Print(n) != "" && AllDigits(Print(n))
  {
  }

  lemma OneIsRead()
    ensures AllDigits("1") && Read("1") == 1
  {
  }

  lemma KeysAreNoDigits()
    ensures ROOT_KEY != "" && !IsDigit(ROOT_KEY[0]) && TRAILER_END != "" && !IsDigit(TRAILER_END[0])
  {
  }

  lemma TrailerInParts(file: string, at: nat, digits: string, catalogue: string, end: nat, root: nat, last: nat)
    requires digits != "" && AllDigits(digits) && catalogue != "" && AllDigits(catalogue)
    requires end == at + |SIZE_KEY| + |digits| && root == end + |ROOT_KEY| && last == root + |catalogue|
    requires StandsAt(SIZE_KEY, file, at) && StandsAt(digits, file, at + |SIZE_KEY|) && StandsAt(ROOT_KEY, file, end)
    requires StandsAt(catalogue, file, root) && StandsAt(TRAILER_END, file, last)
    ensures ReadTrailerAt(file, at) == Some((Read(digits), Read(catalogue)))
  {
    hide *;
    KeysAreNoDigits();
    StandingIsSlice(digits, file, at + |SIZE_KEY|);
    StandingIsSlice(catalogue, file, root);
    NumberIsFollowed(file, digits, ROOT_KEY, at + |SIZE_KEY|);
    NumberIsFollowed(file, catalogue, TRAILER_END, root);
    TrailerDigits(file, at, end, root, last, digits, catalogue);
  }

  lemma TrailerIsReadAt(file: string, front: string, n: nat, back: string)
    requires file == front + (Trailer(n) + back)
    ensures ReadTrailerAt(file, |front|) == Some((n + 1, 1))
  {
    hide *;
    TrailerPartsStand(file, front, n, back);
    ReadPrinted(n + 1);
    PrintsDigits(n + 1);
    OneIsRead();
    var end := |front| + |SIZE_KEY| + |Print(n + 1)|;
    TrailerInParts(file, |front|, Print(n + 1), "1", end, end + |ROOT_KEY|, end + |ROOT_KEY| + 1);
  }

  lemma EndStands(front: string, a: string, b: string, c: string, d: string, e: string, f: string)
    ensures StandsAt(e, front + (a + (b + (c + (d + (e + f))))), |front| + |a| + |b| + |c| + |d|)
  {
    Regroup(front, a, b + (c + (d + (e + f))));
    Regroup(front + a, b, c + (d + (e + f)));
    Regroup(front + a + b, c, d + (e + f));
    Regroup(front + a + b + c, d, e + f);
    StandsInMiddle(e, front + a + b + c + d, e, f, 0);
  }

  lemma TrailerInSteps(file: string, xref: nat, count: nat, entries: nat, found: (nat, nat))
    requires ReadStartXref(file) == Some(xref) && ReadTableHead(file, xref) == Some((count, entries))
    requires ReadTrailerAt(file, entries + ENTRY_LENGTH * count) == Some(found)
    ensures ReadTrailer(file) == Some(found)
  {
    hide ReadStartXref, ReadTableHead, ReadTrailerAt;
  }

  /** Behind the table a reader finds the trailer: as many entries as objects and the free one, and object 1 as catalogue. */
  lemma TrailerIsRead(objects: seq<string>)
    requires objects != [] && Fits(OffsetOf(objects, |objects|))
    ensures ReadTrailer(Encode(FileText(objects))) == Some((|objects| + 1, 1))
  {
    hide *;
    var file, body, n := Encode(FileText(objects)), Encode(Body(objects)), |objects|;
    var offsets := Offsets(objects);
    var entries := Entries(offsets);
    FileIsLaidOut(objects);
    OffsetsFit(objects, n);
    EntriesLength(offsets);
    StartXrefOfFile(file, body, n, entries);
    HeadOfFile(file, body, n, entries);
    TrailerStands(file, body, n, entries);
    TrailerInSteps(file, |body|, n + 1, |body| + |TableHead(n)| - ENTRY_LENGTH, (n + 1, 1));
  }

  lemma TrailerStands(file: string, body: string, n: nat, entries: string)
    requires LaidOut(file, body, n, entries)
    ensures ReadTrailerAt(file, |body| + |TableHead(n)| + |entries|) == Some((n + 1, 1))
  {
    hide Trailer, Print, TableHead, ReadTrailerAt;
    var front, back := body + TableHead(n) + entries, Print(|body|) + FILE_END;
    FourParts(body, TableHead(n), entries, Ending(n, |body|));
    Regroup(Trailer(n), Print(|body|), FILE_END);
    assert file == front + (Trailer(n) + back);
    TrailerIsReadAt(file, front, n, back);
  }

  lemma {:induction false} BodyBeginsWithHeader(objects: seq<string>)
    ensures StandsAt("%PDF-1.4\n", Encode(Body(objects)), 0)
  {
    if objects == [] {
      EncodeAscii(HEADER);
    } else {
      var last := |objects| - 1;
      var front, more := Encode(Body(objects[..last])), Encode(ObjectText(|objects|, objects[last]));
      BodyBeginsWithHeader(objects[..last]);
      EncodedBodyGrows(objects);
      StandsInMiddle("%PDF-1.4\n", "", front, more, 0);
      assert "" + (front + more) == front + more;
    }
  }

  /** The file begins with its version, and entry 0 of the table heads the list of free objects (section 7.5.4). */
  lemma FileIsFramed(objects: seq<string>)
    ensures var file, body := Encode(FileText(objects)), Encode(Body(objects));
            && StandsAt("%PDF-1.4\n", file, 0)
            && ReadStartXref(file) == Some(|body|) && ReadTableHead(file, |body|).Some?
            && ReadTableHead(file, |body|).value.0 == |objects| + 1
            && StandsAt("0000000000 65535 f \n", file, ReadTableHead(file, |body|).value.1)
  {
    hide *;
    var file, body, n := Encode(FileText(objects)), Encode(Body(objects)), |objects|;
    var entries := Entries(Offsets(objects));
    FileIsLaidOut(objects);
    BodyBeginsWithHeader(objects);
    FramedFile(file, body, n, entries);
  }

  lemma FramedFile(file: string, body: string, n: nat, entries: string)
    requires LaidOut(file, body, n, entries) && StandsAt("%PDF-1.4\n", body, 0)
    ensures StandsAt("%PDF-1.4\n", file, 0) && ReadStartXref(file) == Some(|body|)
    ensures var table := ReadTableHead(file, |body|);
            table.Some? && table.value.0 == n + 1 && StandsAt("0000000000 65535 f \n", file, table.value.1)
  {
    HeaderStays("%PDF-1.4\n", body, Back(n, entries, |body|));
    hide StandsAt, Ending, TableHead, ReadStartXref, ReadTableHead;
    StartXrefOfFile(file, body, n, entries);
    HeadOfFile(file, body, n, entries);
    FreeEntryStands(body, n, entries + Ending(n, |body|));
  }

  lemma HeaderStays(header: string, body: string, back: string)
    requires StandsAt(header, body, 0)
    ensures StandsAt(header, body + back, 0)
  {
    StandsInMiddle(header, "", body, back, 0);
    assert "" + (body + back) == body + back;
  }

  lemma FreeEntryStands(front: string, n: nat, back: string)
    ensures |TableHead(n)| >= |FREE_ENTRY|
    ensures StandsAt(FREE_ENTRY, front + (TableHead(n) + back), |front| + |TableHead(n)| - |FREE_ENTRY|)
  {
    var head := TABLE_START + Print(n + 1) + "\n";
    StandsBetween(head, FREE_ENTRY, "");
    assert head + FREE_ENTRY + "" == TableHead(n);
    StandsInMiddle(FREE_ENTRY, front, TableHead(n), back, |head|);
  }

  // ---------- the content stream ----------

  const LENGTH_KEY := "<< /Length "
  const STREAM_START := " >>\nstream\n"
  const STREAM_END := "\nendstream"

  function StreamObject(stream: string): string {
    LENGTH_KEY + Print(|Encode(stream)|) + STREAM_START + stream + STREAM_END
  }

  /** The bytes of a stream object: as many as its dictionary announces, then endstream (section 7.3.8). */
  function ReadStream(bytes: string): Option<string> {
    if !StandsAt(LENGTH_KEY, bytes, 0) then None
    else
      var end := DigitsEnd(bytes, |LENGTH_KEY|);
      var start := end + |STREAM_START|;
      if !StandsAt(STREAM_START, bytes, end) then None
      else
        var length := Read(bytes[|LENGTH_KEY|..end]);
        if StandsAt(STREAM_END, bytes, start + length) then Some(bytes[start..start + length]) else None
  }

  lemma ReadStreamInSteps(bytes: string, end: nat, content: string)
    requires StandsAt(LENGTH_KEY, bytes, 0) && |LENGTH_KEY| <= end <= |bytes| && DigitsEnd(bytes, |LENGTH_KEY|) == end
    requires AllDigits(bytes[|LENGTH_KEY|..end]) && Read(bytes[|LENGTH_KEY|..end]) == |content|
    requires StandsAt(STREAM_START, bytes, end) && StandsAt(content, bytes, end + |STREAM_START|)
    requires StandsAt(STREAM_END, bytes, end + |STREAM_START| + |content|)
    ensures ReadStream(bytes) == Some(content)
  {
    hide StandsAt, DigitsEnd, AllDigits, Read;
    StandingIsSlice(content, bytes, end + |STREAM_START|);
  }

  /** The bytes begin with: dictionary with the digits of a length, content, endstream. */
  predicate StreamLaidOut(bytes: string, digits: string, content: string, back: string) {
    bytes == LENGTH_KEY + digits + STREAM_START + (content + (STREAM_END + back))
  }

  lemma LengthOfStream(bytes: string, digits: string, content: string, back: string)
    requires AllDigits(digits) && StreamLaidOut(bytes, digits, content, back)
    ensures var end := |LENGTH_KEY| + |digits|;
            && StandsAt(LENGTH_KEY, bytes, 0) && end <= |bytes|
            && bytes[|LENGTH_KEY|..end] == digits && DigitsEnd(bytes, |LENGTH_KEY|) == end
  {
    var end := |LENGTH_KEY| + |digits|;
    assert bytes[|LENGTH_KEY|..end] == digits && bytes[end] == ' ';
    DigitsEndIs(bytes, |LENGTH_KEY|, end);
  }

  lemma ContentOfStream(bytes: string, digits: string, content: string, back: string)
    requires StreamLaidOut(bytes, digits, content, back)
    ensures var end := |LENGTH_KEY| + |digits|;
            && StandsAt(STREAM_START, bytes, end) && StandsAt(content, bytes, end + |STREAM_START|)
            && StandsAt(STREAM_END, bytes, end + |STREAM_START| + |content|)
  {
    var front := LENGTH_KEY + digits;
    var head := front + STREAM_START;
    StandsBetween(front, STREAM_START, content + (STREAM_END + back));
    StandsInMiddle(content, head, content, STREAM_END + back, 0);
    FourParts(head, content, STREAM_END, back);
    StandsBetween(head + content, STREAM_END, back);
  }

  lemma AnnouncedStreamIsRead(bytes: string, digits: string, content: string, back: string)
    requires AllDigits(digits) && Read(digits) == |content| && StreamLaidOut(bytes, digits, content, back)
    ensures ReadStream(bytes) == Some(content)
  {
    LengthOfStream(bytes, digits, content, back);
    ContentOfStream(bytes, digits, content, back);
    ReadStreamInSteps(bytes, |LENGTH_KEY| + |digits|, content);
  }

  lemma StreamHeadIsAscii(length: nat)
    ensures Ascii(LENGTH_KEY + Print(length) + STREAM_START)
  {
    DigitsAreAscii(Print(length));
    AsciiConcat(LENGTH_KEY, Print(length));
    AsciiConcat(LENGTH_KEY + Print(length), STREAM_START);
  }

  lemma EncodedStreamObject(stream: string, back: string)
    ensures StreamLaidOut(Encode(StreamObject(stream)) + back, Print(|Encode(stream)|), Encode(stream), back)
  {
    var head := LENGTH_KEY + Print(|Encode(stream)|) + STREAM_START;
    StreamHeadIsAscii(|Encode(stream)|);
    EncodeBetweenAscii(head, stream, STREAM_END);
    Nest(head, Encode(stream), STREAM_END, back);
  }

  lemma Nest(a: string, b: string, c: string, d: string)
    ensures a + (b + c) + d == a + (b + (c + d))
  {
  }

  /** The announced length is the length in bytes, whatever characters the stream holds and whatever follows. */
  lemma StreamIsReadBack(stream: string, back: string)
    ensures ReadStream(Encode(StreamObject(stream)) + back) == Some(Encode(stream))
  {
    ReadPrinted(|Encode(stream)|);
    EncodedStreamObject(stream, back);
    AnnouncedStreamIsRead(Encode(StreamObject(stream)) + back, Print(|Encode(stream)|), Encode(stream), back);
  }

  /** What a reader finds behind the head of object k, as FindObject locates it. */
  function ContentAt(file: string, k: nat): Option<string> {
    match FindObject(file, k)
    case None => None
    case Some(offset) =>
      if StandsAt(ObjectHead(k), file, offset) then ReadStream(file[offset + |ObjectHead(k)|..]) else None
  }

  lemma FollowsHead(whole: string, head: string, bytes: string, tail: string, file: string, offset: nat)
    requires whole == head + (bytes + tail) && StandsAt(whole, file, offset)
    ensures offset + |head| <= |file| && bytes <= file[offset + |head|..]
  {
    StandsInMiddle(bytes, head, bytes, tail, 0);
    StandsDeeper(bytes, whole, file, |head|, offset);
  }

  lemma StreamPrefixIsRead(stream: string, bytes: string)
    requires Encode(StreamObject(stream)) <= bytes
    ensures ReadStream(bytes) == Some(Encode(stream))
  {
    var back := bytes[|Encode(StreamObject(stream))|..];
    assert bytes == Encode(StreamObject(stream)) + back;
    StreamIsReadBack(stream, back);
  }

  lemma ContentInSteps(file: string, k: nat, offset: nat, content: string)
    requires FindObject(file, k) == Some(offset) && StandsAt(ObjectHead(k), file, offset)
    requires ReadStream(file[offset + |ObjectHead(k)|..]) == Some(content)
    ensures ContentAt(file, k) == Some(content)
  {
    hide FindObject, StandsAt, ReadStream, ObjectHead;
  }

  lemma StreamObjectIsRead(file: string, k: nat, offset: nat, stream: string)
    requires StandsAt(Encode(ObjectText(k, StreamObject(stream))), file, offset)
    ensures offset + |ObjectHead(k)| <= |file|
    ensures ReadStream(file[offset + |ObjectHead(k)|..]) == Some(Encode(stream))
  {
    var bytes := Encode(StreamObject(stream));
    EncodedObject(k, StreamObject(stream));
    FollowsHead(Encode(ObjectText(k, StreamObject(stream))), ObjectHead(k), bytes, OBJECT_END, file, offset);
    StreamPrefixIsRead(stream, file[offset + |ObjectHead(k)|..]);
  }

  /** End to end: a reader that starts at the end of the file and follows the table to a stream object reads the
      bytes of that stream, no fewer and no more. */
  lemma ReaderReachesStream(objects: seq<string>, k: nat, stream: string)
    requires 1 <= k <= |objects| && objects[k - 1] == StreamObject(stream) && Fits(OffsetOf(objects, k))
    ensures ContentAt(Encode(FileText(objects)), k) == Some(Encode(stream))
  {
    hide *;
    var file, offset := Encode(FileText(objects)), OffsetOf(objects, k);
    TablePointsAtItsObjects(objects, k);
    StreamObjectIsRead(file, k, offset, stream);
    ContentInSteps(file, k, offset, Encode(stream));
  }
}
