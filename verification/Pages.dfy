// The text of a document joined from its pages, and excerpts cited from it by offset.
module Pages {
  import opened Wrappers
  import opened Tables
  import opened Basics
  import opened Texts

  datatype Page = Page(number: nat, text: string, start: nat, end: nat)

  datatype Document = Document(text: string, pages: seq<Page>)

  datatype Excerpt = Excerpt(text: string, start: nat, end: nat)

  const LIMIT := 500

  // ---------- joining ----------

  /** The page texts, a newline between each and the next. */
  function Joined(texts: seq<string>): string {
    if texts == [] then ""
    else if |texts| == 1 then texts[0]
    else Joined(texts[..|texts| - 1]) + "\n" + texts[|texts| - 1]
  }

  /** Where page k starts: after the pages before it and their newlines. */
  function StartOf(texts: seq<string>, k: nat): nat
    requires k < |texts|
  {
    if k == 0 then 0 else StartOf(texts, k - 1) + |texts[k - 1]| + 1
  }

  function PageAt(texts: seq<string>, k: nat): Page
    requires k < |texts|
  {
    Page(k + 1, texts[k], StartOf(texts, k), StartOf(texts, k) + |texts[k]|)
  }

  function DocumentOf(texts: seq<string>): Document {
    Document(Joined(texts), seq(|texts|, k requires 0 <= k < |texts| => PageAt(texts, k)))
  }

  predicate HasText(texts: seq<string>) {
    exists k | 0 <= k < |texts| :: texts[k] != ""
  }

  lemma {:induction false} StartOfPrefix(texts: seq<string>, n: nat, k: nat)
    requires k < n <= |texts|
    ensures StartOf(texts[..n], k) == StartOf(texts, k)
  {
    if k > 0 {
      StartOfPrefix(texts, n, k - 1);
    }
  }

  lemma {:induction false} JoinedLength(texts: seq<string>)
    requires texts != []
    ensures |Joined(texts)| == PageAt(texts, |texts| - 1).end
  {
    if |texts| > 1 {
      var last := |texts| - 1;
      JoinedLength(texts[..last]);
      StartOfPrefix(texts, last, last - 1);
    }
  }

  method ParsePages(texts: seq<string>) returns (document: Option<Document>)
    ensures document == if HasText(texts) then Some(DocumentOf(texts)) else None
  {
    if !HasText(texts) {
      return None;
    }
    var pages: seq<Page> := [];
    var parts, offset := "", 0;
    assert texts[..0] == [];
    for k := 0 to |texts|
      invariant parts == Joined(texts[..k])
      invariant offset == |parts|
      invariant |pages| == k && forall i | 0 <= i < k :: pages[i] == PageAt(texts, i)
    {
      assert texts[..k + 1][..k] == texts[..k];
      if k > 0 {
        JoinedLength(texts[..k]);
        StartOfPrefix(texts, k, k - 1);
        parts := parts + "\n";
        offset := offset + 1;
      }
      var start := offset;
      parts := parts + texts[k];
      offset := offset + |texts[k]|;
      pages := pages + [Page(k + 1, texts[k], start, offset)];
    }
    assert texts[..|texts|] == texts;
    assert pages == DocumentOf(texts).pages;
    document := Some(Document(parts, pages));
  }

  lemma JoinedGrows(texts: seq<string>)
    requires |texts| > 1
    ensures var last := |texts| - 1;
            Joined(texts) == Joined(texts[..last]) + "\n" + texts[last]
            && |Joined(texts[..last])| == PageAt(texts, last - 1).end == PageAt(texts, last).start - 1
  {
    var last := |texts| - 1;
    JoinedLength(texts[..last]);
    StartOfPrefix(texts, last, last - 1);
  }

  lemma SliceOfPrefix(front: string, back: string, start: nat, end: nat)
    requires start <= end <= |front|
    ensures (front + "\n" + back)[start..end] == front[start..end]
    ensures (front + "\n" + back)[|front| + 1..|front| + 1 + |back|] == back
  {
  }

  /** Slicing the document at a page's offsets returns that page. */
  lemma {:induction false} SliceIsPage(texts: seq<string>, k: nat)
    requires k < |texts|
    ensures var p := PageAt(texts, k);
            p.end <= |Joined(texts)| && Joined(texts)[p.start..p.end] == texts[k]
    decreases |texts|
  {
    if |texts| > 1 {
      hide Joined;
      var last := |texts| - 1;
      var front := Joined(texts[..last]);
      JoinedGrows(texts);
      if k < last {
        SliceIsPage(texts[..last], k);
        StartOfPrefix(texts, last, k);
        SliceOfPrefix(front, texts[last], PageAt(texts, k).start, PageAt(texts, k).end);
      } else {
        SliceOfPrefix(front, texts[last], 0, 0);
      }
    }
  }

  /** Page k is numbered from one, has this text, and the document has it at its offsets. */
  predicate PageStands(d: Document, k: nat, text: string) {
    && k < |d.pages| && d.pages[k].number == k + 1 && d.pages[k].text == text
    && d.pages[k].start <= d.pages[k].end <= |d.text| && d.text[d.pages[k].start..d.pages[k].end] == text
  }

  /** Page k + 1 begins after the newline that follows page k. */
  predicate NextPageFollows(d: Document, k: nat) {
    && k + 1 < |d.pages| && d.pages[k + 1].start == d.pages[k].end + 1
    && d.pages[k].end < |d.text| && d.text[d.pages[k].end] == '\n'
  }

  lemma PageOfDocument(texts: seq<string>, k: nat)
    requires k < |texts|
    ensures PageStands(DocumentOf(texts), k, texts[k])
    ensures k + 1 < |texts| ==> NextPageFollows(DocumentOf(texts), k)
  {
    SliceIsPage(texts, k);
    if k + 1 < |texts| {
      NewlineAfterPage(texts, k);
    }
    hide Joined;
  }

  /** The document is its pages, each standing at its offsets, one newline apart, together the whole text. */
  lemma DocumentIsItsPages(texts: seq<string>)
    requires texts != []
    ensures var d := DocumentOf(texts);
            && |d.pages| == |texts| && d.pages[0].start == 0 && d.pages[|texts| - 1].end == |d.text|
            && (forall k | 0 <= k < |texts| :: PageStands(d, k, texts[k]))
            && (forall k | 0 <= k < |texts| - 1 :: NextPageFollows(d, k))
  {
    JoinedLength(texts);
    hide PageStands, NextPageFollows, Joined;
    forall k | 0 <= k < |texts| ensures PageStands(DocumentOf(texts), k, texts[k]) {
      PageOfDocument(texts, k);
    }
    forall k | 0 <= k < |texts| - 1 ensures NextPageFollows(DocumentOf(texts), k) {
      PageOfDocument(texts, k);
    }
  }

  // ---------- the page of an offset ----------

  predicate Holds(p: Page, offset: nat) {
    p.start <= offset <= p.end
  }

  function PageForOffset(document: Document, offset: nat): Option<nat> {
    match FindFirst(document.pages, (p: Page) => Holds(p, offset))
    case None => None
    case Some(k) => Some(document.pages[k].number)
  }

  lemma {:induction false} LaterPagesStartLater(texts: seq<string>, j: nat, k: nat)
    requires j < k < |texts|
    ensures PageAt(texts, j).end < PageAt(texts, k).start
  {
    if j + 1 < k {
      LaterPagesStartLater(texts, j, k - 1);
    }
  }

  lemma {:induction false} SomePageHolds(texts: seq<string>, offset: nat) returns (k: nat)
    requires texts != [] && offset <= |Joined(texts)|
    ensures k < |texts| && Holds(PageAt(texts, k), offset)
  {
    var last := |texts| - 1;
    JoinedLength(texts);
    if PageAt(texts, last).start <= offset {
      k := last;
    } else {
      JoinedLength(texts[..last]);
      StartOfPrefix(texts, last, last - 1);
      k := SomePageHolds(texts[..last], offset);
      StartOfPrefix(texts, last, k);
    }
  }

  /** Every offset of the text, its end and the newlines included, lies in exactly one page, the one looked up;
      no page holds an offset beyond. */
  lemma EveryOffsetHasOnePage(texts: seq<string>, offset: nat)
    requires texts != []
    ensures offset <= |Joined(texts)| ==>
              exists k :: 0 <= k < |texts| && Holds(PageAt(texts, k), offset)
                          && PageForOffset(DocumentOf(texts), offset) == Some(k + 1)
                          && forall j | 0 <= j < |texts| && Holds(PageAt(texts, j), offset) :: j == k
    ensures offset > |Joined(texts)| ==> PageForOffset(DocumentOf(texts), offset) == None
  {
    forall j, k | 0 <= j < k < |texts| ensures !(Holds(PageAt(texts, j), offset) && Holds(PageAt(texts, k), offset)) {
      LaterPagesStartLater(texts, j, k);
    }
    if offset <= |Joined(texts)| {
      var k := SomePageHolds(texts, offset);
      assert Holds(DocumentOf(texts).pages[k], offset);
    } else {
      forall k | 0 <= k < |texts| ensures !Holds(PageAt(texts, k), offset) {
        SliceIsPage(texts, k);
      }
    }
  }

  // ---------- excerpts ----------

  /** The characters that str.strip() removes: white space and the four information separators. */
  predicate IsSpace(c: char) {
    IsWhiteSpace(c) || 28 <= c as int <= 31
  }

  /** The position after the last newline in text[..end]; 0 without one. */
  function LineStart(text: string, end: nat): (start: nat)
    requires end <= |text|
    ensures start <= end && (start == 0 || text[start - 1] == '\n')
    ensures forall i | start <= i < end :: text[i] != '\n'
  {
    if end == 0 || text[end - 1] == '\n' then end else LineStart(text, end - 1)
  }

  /** The first newline at or after start, or the end of the text. */
  function LineEnd(text: string, start: nat): (end: nat)
    requires start <= |text|
    ensures start <= end <= |text| && (end == |text| || text[end] == '\n')
    ensures forall i | start <= i < end :: text[i] != '\n'
    decreases |text| - start
  {
    if start == |text| || text[start] == '\n' then start else LineEnd(text, start + 1)
  }

  function SkipLeft(text: string, start: nat, end: nat): (left: nat)
    requires start <= end <= |text|
    ensures start <= left <= end && (left < end ==> !IsSpace(text[left]))
    ensures forall i | start <= i < left :: IsSpace(text[i])
    decreases end - start
  {
    if start < end && IsSpace(text[start]) then SkipLeft(text, start + 1, end) else start
  }

  function SkipRight(text: string, start: nat, end: nat): (right: nat)
    requires start <= end <= |text|
    ensures start <= right <= end && (start < right ==> !IsSpace(text[right - 1]))
    ensures forall i | right <= i < end :: IsSpace(text[i])
  {
    if start < end && IsSpace(text[end - 1]) then SkipRight(text, start, end - 1) else end
  }

  /** text[start..end] without the white space at either end. */
  function Strip(text: string, start: nat, end: nat): string
    requires start <= end <= |text|
  {
    var left := SkipLeft(text, start, end);
    text[left..SkipRight(text, left, end)]
  }

  function Cut(text: string): string {
    Take(text, LIMIT)
  }

  /** What is stripped and cut: the line of the offset, or a window around the offset when that line is blank. */
  function Source(text: string, offset: nat): (range: (nat, nat))
    requires offset <= |text|
    ensures range.0 <= range.1 <= |text|
  {
    var start, end := LineStart(text, offset), LineEnd(text, offset);
    if Strip(text, start, end) != "" then (start, end)
    else (if offset <= 100 then 0 else offset - 100, Min(|text|, offset + 200))
  }

  function LineExcerpt(text: string, offset: nat): Excerpt
    requires offset <= |text|
  {
    var (start, end) := Source(text, offset);
    Excerpt(Cut(Strip(text, start, end)), start, Min(end, start + LIMIT))
  }

  /** Where the excerpt stands in the text. */
  function FoundAt(text: string, offset: nat): nat
    requires offset <= |text|
  {
    var (start, end) := Source(text, offset);
    SkipLeft(text, start, end)
  }

  /** The part is found within text[low..high]. */
  ghost predicate Occurs(part: string, text: string, low: nat, high: nat) {
    exists at: nat :: low <= at && at + |part| <= high && StandsAt(part, text, at)
  }

  lemma StrippedStands(text: string, start: nat, end: nat)
    requires start <= end <= |text|
    ensures var part, at := Cut(Strip(text, start, end)), SkipLeft(text, start, end);
            && at + |part| <= end && StandsAt(part, text, at)
            && (part != "" ==> !IsSpace(part[0]))
  {
    var left := SkipLeft(text, start, end);
    TakeOfSlice(text, left, SkipRight(text, left, end), LIMIT);
  }

  lemma TakeOfSlice(text: string, left: nat, right: nat, n: nat)
    requires left <= right <= |text|
    ensures var part := Take(text[left..right], n);
            && |part| == Min(n, right - left) && StandsAt(part, text, left) && (part != "" ==> part[0] == text[left])
  {
    var part := Take(text[left..right], n);
    assert part == text[left..left + |part|];
  }

  /** Every excerpt is a verbatim part of the text, of at most 500 characters, cited within the text, with nothing
      but white space between the start cited and the excerpt. */
  lemma ExcerptsAreVerbatim(text: string, offset: nat)
    requires offset <= |text|
    ensures var e, at := LineExcerpt(text, offset), FoundAt(text, offset);
            && |e.text| <= LIMIT && e.start <= e.end <= |text| && e.end - e.start <= LIMIT
            && e.start <= at && StandsAt(e.text, text, at)
            && (e.text != "" ==> !IsSpace(e.text[0]))
            && (forall i | e.start <= i < at :: IsSpace(text[i]))
  {
    var (start, end) := Source(text, offset);
    StrippedStands(text, start, end);
  }

  /** The stretch is the line of the offset: nothing in it ends a line, and newlines or the ends of the text enclose it. */
  predicate IsLineOf(text: string, offset: nat, start: nat, end: nat) {
    && start <= offset <= end <= |text| && (forall i | start <= i < end :: text[i] != '\n')
    && (start == 0 || text[start - 1] == '\n') && (end == |text| || text[end] == '\n')
  }

  predicate AllSpace(text: string, start: nat, end: nat) {
    forall i | start <= i < end && i < |text| :: IsSpace(text[i])
  }

  /** The excerpt is what is left of the stretch without white space at either end, as far as 500 characters. */
  predicate ExcerptOf(e: Excerpt, text: string, start: nat, end: nat, at: nat) {
    && e.start == start && e.end == (if end <= start + 500 then end else start + 500)
    && start <= at && StandsAt(e.text, text, at) && AllSpace(text, start, at) && at + |e.text| <= end
    && (|e.text| == 500 || (|e.text| < 500 && AllSpace(text, at + |e.text|, end)))
    && (e.text != "" ==> !IsSpace(e.text[0]) && (|e.text| < 500 ==> !IsSpace(e.text[|e.text| - 1])))
  }

  lemma LinesAreFound(text: string, offset: nat)
    requires offset <= |text|
    ensures IsLineOf(text, offset, LineStart(text, offset), LineEnd(text, offset))
  {
  }

  lemma StripIsEmptyIff(text: string, start: nat, end: nat)
    requires start <= end <= |text|
    ensures Strip(text, start, end) == "" <==> AllSpace(text, start, end)
  {
  }

  /** The excerpt for an offset is that of its line, or, where the line is blank, of the 100 characters before the offset and
      the 200 after it. */
  lemma ExcerptIsOfItsLine(text: string, offset: nat)
    requires offset <= |text|
    ensures var e, at := LineExcerpt(text, offset), FoundAt(text, offset);
            exists start: nat, end: nat | start <= |text| && end <= |text| ::
              && IsLineOf(text, offset, start, end)
              && (!AllSpace(text, start, end) ==> ExcerptOf(e, text, start, end, at))
              && (AllSpace(text, start, end) ==>
                    ExcerptOf(e, text, if offset <= 100 then 0 else offset - 100,
                              if offset + 200 <= |text| then offset + 200 else |text|, at))
  {
    var start, end := LineStart(text, offset), LineEnd(text, offset);
    LinesAreFound(text, offset);
    StripIsEmptyIff(text, start, end);
    var source := Source(text, offset);
    StrippedIsExcerpt(text, source.0, source.1);
    hide LineStart, LineEnd, Strip, AllSpace, ExcerptOf, IsLineOf;
  }

  lemma StrippedIsExcerpt(text: string, start: nat, end: nat)
    requires start <= end <= |text|
    ensures ExcerptOf(Excerpt(Cut(Strip(text, start, end)), start, Min(end, start + LIMIT)), text, start, end,
                      SkipLeft(text, start, end))
  {
    var left := SkipLeft(text, start, end);
    var right := SkipRight(text, left, end);
    var part := Take(text[left..right], LIMIT);
    TakeOfSlice(text, left, right, LIMIT);
    assert right - left <= LIMIT ==> part == text[left..right];
    assert part != "" && |part| < LIMIT ==> part[|part| - 1] == text[right - 1];
    hide StandsAt, IsSpace, Take;
  }

  lemma StandsAfterSpace(part: string, text: string, low: nat, at: nat, p: nat)
    requires part != "" && !IsSpace(part[0]) && StandsAt(part, text, p) && low <= p
    requires low <= at <= |text| && forall i | low <= i < at :: IsSpace(text[i])
    ensures at <= p
  {
    assert text[p] == text[p..p + |part|][0];
  }

  /** No white space in front of what is stripped, or white space and text together within the limit. */
  predicate FitsCitation(text: string, offset: nat)
    requires offset <= |text|
  {
    var (start, end) := Source(text, offset);
    var left := SkipLeft(text, start, end);
    left == start || SkipRight(text, left, end) <= start + LIMIT
  }

  /** The cited offsets enclose the excerpt if and only if the line has no leading white space or fits the limit. */
  lemma CitationEnclosesExcerptIffItFits(text: string, offset: nat)
    requires offset <= |text|
    ensures var e := LineExcerpt(text, offset);
            Occurs(e.text, text, e.start, e.end) <==> FitsCitation(text, offset)
  {
    var e, at := LineExcerpt(text, offset), FoundAt(text, offset);
    var (start, end) := Source(text, offset);
    StrippedStands(text, start, end);
    if FitsCitation(text, offset) {
      assert StandsAt(e.text, text, at) && at + |e.text| <= e.end;
    } else if Occurs(e.text, text, e.start, e.end) {
      var p: nat :| e.start <= p && p + |e.text| <= e.end && StandsAt(e.text, text, p);
      StandsAfterSpace(e.text, text, start, at, p);
    }
  }

  /** An indented long line of a job description, cited for its first word: the excerpt ends one past what is cited. */
  lemma LongIndentedLineOverruns()
    ensures var line := "Go " + seq(LIMIT - 3, i => 'x');
            var e := LineExcerpt(" " + line, 1);
            e == Excerpt(line, 0, LIMIT) && !Occurs(e.text, " " + line, e.start, e.end)
  {
    var line := "Go " + seq(LIMIT - 3, i => 'x');
    var text := " " + line;
    assert text[0] == ' ' && text[1] == 'G' && text[LIMIT] == 'x' && forall i | 1 <= i <= LIMIT :: text[i] != '\n';
    var end := LineEnd(text, 1);
    assert LineStart(text, 1) == 0 && end == LIMIT + 1;
    assert IsSpace(text[0]) && !IsSpace(text[1]) && !IsSpace(text[LIMIT]);
    assert SkipLeft(text, 0, end) == 1;
    assert SkipRight(text, 1, end) == end;
    assert text[1..end] == line;
    CitationEnclosesExcerptIffItFits(text, 1);
  }

  // ---------- the page cited for an excerpt ----------

  predicate BlankLine(text: string, offset: nat)
    requires offset <= |text|
  {
    Strip(text, LineStart(text, offset), LineEnd(text, offset)) == ""
  }

  /** A line never runs over a page end. */
  lemma LineStaysInPage(texts: seq<string>, k: nat, start: nat, end: nat)
    requires k < |texts| && Holds(PageAt(texts, k), start) && OneLine(Joined(texts), start, end)
    ensures end <= PageAt(texts, k).end
  {
    var p := PageAt(texts, k);
    if p.end < end {
      if k + 1 < |texts| {
        NewlineAfterPage(texts, k);
      } else {
        JoinedLength(texts);
      }
    }
  }

  lemma {:induction false} NewlineAfterPage(texts: seq<string>, k: nat)
    requires k + 1 < |texts|
    ensures PageAt(texts, k).end < |Joined(texts)| && Joined(texts)[PageAt(texts, k).end] == '\n'
    decreases |texts|
  {
    var last := |texts| - 1;
    JoinedLength(texts[..last]);
    if k + 1 < last {
      NewlineAfterPage(texts[..last], k);
      StartOfPrefix(texts, last, k);
    } else {
      StartOfPrefix(texts, last, k);
    }
  }

  /** What stands in the text between the offsets of a page stands in that page. */
  lemma StandsInPage(texts: seq<string>, k: nat, part: string, at: nat)
    requires k < |texts| && StandsAt(part, Joined(texts), at)
    requires PageAt(texts, k).start <= at && at + |part| <= PageAt(texts, k).end
    ensures Occurs(part, texts[k], 0, |texts[k]|)
  {
    var p := PageAt(texts, k);
    SliceIsPage(texts, k);
    StandsInSlice(part, Joined(texts), at, p.start, p.end);
  }

  predicate OneLine(text: string, start: nat, end: nat) {
    start < end <= |text| && forall i | start <= i < end :: text[i] != '\n'
  }

  lemma NonBlankSourceIsOneLine(text: string, offset: nat)
    requires offset <= |text| && !BlankLine(text, offset)
    ensures OneLine(text, Source(text, offset).0, Source(text, offset).1)
  {
  }

  lemma HoldingPageIsFound(texts: seq<string>, offset: nat, k: nat)
    requires k < |texts| && Holds(PageAt(texts, k), offset)
    ensures PageForOffset(DocumentOf(texts), offset) == Some(k + 1)
  {
    SliceIsPage(texts, k);
    EveryOffsetHasOnePage(texts, offset);
  }

  /** The stretch that is left after stripping ends within page k. */
  predicate EndsInPage(texts: seq<string>, offset: nat, k: nat)
    requires offset <= |Joined(texts)| && k < |texts|
  {
    var (start, end) := Source(Joined(texts), offset);
    SkipRight(Joined(texts), SkipLeft(Joined(texts), start, end), end) <= PageAt(texts, k).end
  }

  /** The excerpt, where it was found, lies in the page cited for it if and only if its line is not blank or the
      stripped window ends in that page. */
  lemma CitedPageHoldsExcerptIff(texts: seq<string>, offset: nat, k: nat)
    requires texts != [] && offset <= |Joined(texts)|
    requires k < |texts| && Holds(PageAt(texts, k), Source(Joined(texts), offset).0)
    ensures var e, at := LineExcerpt(Joined(texts), offset), FoundAt(Joined(texts), offset);
            && PageForOffset(DocumentOf(texts), e.start) == Some(k + 1) && PageAt(texts, k).start <= at
            && (at + |e.text| <= PageAt(texts, k).end <==> !BlankLine(Joined(texts), offset) || EndsInPage(texts, offset, k))
  {
    var text := Joined(texts);
    var start, end := Source(text, offset).0, Source(text, offset).1;
    HoldingPageIsFound(texts, start, k);
    StrippedStands(text, start, end);
    if !BlankLine(text, offset) {
      NonBlankSourceIsOneLine(text, offset);
      LineStaysInPage(texts, k, start, end);
    }
  }

  /** So unless the line is blank, the page cited for an excerpt is a page that contains it. */
  lemma CitedPageContainsExcerpt(texts: seq<string>, offset: nat)
    requires texts != [] && offset <= |Joined(texts)| && !BlankLine(Joined(texts), offset)
    ensures var e := LineExcerpt(Joined(texts), offset);
            exists k :: 0 <= k < |texts| && PageForOffset(DocumentOf(texts), e.start) == Some(k + 1)
                        && Occurs(e.text, texts[k], 0, |texts[k]|)
  {
    var text := Joined(texts);
    var k := SomePageHolds(texts, Source(text, offset).0);
    CitedPageHoldsExcerptIff(texts, offset, k);
    assert StandsAt(LineExcerpt(text, offset).text, text, FoundAt(text, offset)) by {
      StrippedStands(text, Source(text, offset).0, Source(text, offset).1);
    }
    StandsInPage(texts, k, LineExcerpt(text, offset).text, FoundAt(text, offset));
  }

  /** An offset as the extraction passes it: on a line with text, or 0 when it found no line to cite. */
  predicate Passed(text: string, offset: nat)
    requires offset <= |text|
  {
    offset == 0 || !BlankLine(text, offset)
  }

  /** The first line is blank exactly if the first page is empty, pages being stripped. */
  lemma FirstLineIsBlankIff(texts: seq<string>)
    requires HasText(texts) && (texts[0] == "" || !IsSpace(texts[0][0]))
    ensures BlankLine(Joined(texts), 0) <==> texts[0] == ""
    ensures texts[0] == "" ==> FoundAt(Joined(texts), 0) > 0
  {
    var text := Joined(texts);
    SliceIsPage(texts, 0);
    if texts[0] == "" {
      NewlineAfterPage(texts, 0);
      assert IsSpace(text[0]) && LineEnd(text, 0) == 0;
    } else {
      assert text[0] == text[0..|texts[0]|][0];
      assert text[0] != '\n' && LineEnd(text, 0) > 0;
    }
  }

  /** For the offsets that are passed, the excerpt lies in the page cited for it unless nothing was found to cite and
      the first page is empty. */
  lemma PassedOffsetIsCitedRightlyIff(texts: seq<string>, offset: nat, k: nat)
    requires HasText(texts) && (texts[0] == "" || !IsSpace(texts[0][0]))
    requires offset <= |Joined(texts)| && Passed(Joined(texts), offset)
    requires k < |texts| && Holds(PageAt(texts, k), Source(Joined(texts), offset).0)
    ensures var e, at := LineExcerpt(Joined(texts), offset), FoundAt(Joined(texts), offset);
            && PageForOffset(DocumentOf(texts), e.start) == Some(k + 1)
            && (PageAt(texts, k).start <= at && at + |e.text| <= PageAt(texts, k).end <==> offset > 0 || texts[0] != "")
  {
    CitedPageHoldsExcerptIff(texts, offset, k);
    FirstLineIsBlankIff(texts);
    assert offset == 0 ==> k == 0;
  }

  /** A first page without text and a CV that is a name alone: the empty page is cited for the excerpt. */
  lemma EmptyFirstPageIsCitedWrongly()
    ensures var texts := ["", "Jane Doe"];
            var e := LineExcerpt(Joined(texts), 0);
            && e.text == "Jane Doe" && PageForOffset(DocumentOf(texts), e.start) == Some(1)
            && !Occurs(e.text, texts[0], 0, |texts[0]|)
  {
    var texts := ["", "Jane Doe"];
    var text := Joined(texts);
    assert texts[..1] == [""];
    assert text == "\nJane Doe";
    assert LineStart(text, 0) == 0 && LineEnd(text, 0) == 0;
    assert !IsSpace(text[1]) && !IsSpace(text[8]);
    assert SkipLeft(text, 0, 9) == 1;
    assert SkipRight(text, 1, 9) == 9;
    assert text[1..9] == "Jane Doe";
    HoldingPageIsFound(texts, 0, 0);
  }
}
