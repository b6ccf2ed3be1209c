/**
 Printing the tables module Winget parses, and the round trip: under any of the four headers winget
 uses, parsing a printed table gives back exactly the rows, in order.
 */
module WingetPrinter {
  import opened Text
  import opened Winget

  // ---------------------------------------------------------------- the printer

  function Blanks(n: nat): string { seq(n, _ => ' ') }

  /** Every cell but the last padded to its width. */
  function Render(cells: seq<string>, widths: seq<nat>): string
    requires Fits(cells, widths)
  {
    if |cells| == 1 then cells[0]
    else cells[0] + Blanks(widths[0] - |cells[0]|) + Render(cells[1..], widths[1..])
  }

  predicate Fits(cells: seq<string>, widths: seq<nat>) {
    0 < |cells| == |widths| + 1 && forall k :: 0 <= k < |widths| ==> |cells[k]| <= widths[k]
  }

  datatype Field = Name | Id | Version | Available | Source

  function Title(f: Field): string {
    match f
    case Name => "Name"
    case Id => "Id"
    case Version => "Version"
    case Available => "Available"
    case Source => "Source"
  }

  function Cell(e: Entry, f: Field): string {
    match f
    case Name => e.name
    case Id => e.id
    case Version => e.version
    case Available => e.available
    case Source => e.source
  }

  function Titles(cols: seq<Field>): seq<string> { seq(|cols|, k requires 0 <= k < |cols| => Title(cols[k])) }

  function Cells(e: Entry, cols: seq<Field>): seq<string> { seq(|cols|,
                 k requires 0 <= k < |cols| => Cell(e, cols[k])) }

  /** The four tables winget prints: name, id, version and possibly available and source. */
  predicate Shape(cols: seq<Field>) {
    && 3 <= |cols| <= 5 && cols[0] == Name && cols[1] == Id && cols[2] == Version
    && (|cols| == 4 ==> cols[3] == Available || cols[3] == Source)
    && (|cols| == 5 ==> cols[3] == Available && cols[4] == Source)
  }

  function Where(cols: seq<Field>): Columns
    requires Shape(cols)
  {
    Columns(0, 1, 2, if |cols| > 3 && cols[3] == Available then 3 else -1,
            if |cols| > 3 && cols[|cols| - 1] == Source then |cols| - 1 else -1)
  }

  /** Each title leaves at least one blank before the next column. */
  predicate Roomy(cols: seq<Field>, widths: seq<nat>) {
    |cols| == |widths| + 1 && forall k :: 0 <= k < |widths| ==> |Title(cols[k])| < widths[k]
  }

  function HeaderLine(cols: seq<Field>, widths: seq<nat>): string
    requires Shape(cols) && Roomy(cols, widths)
  {
    Render(Titles(cols), widths)
  }

  /** The cells are trimmed and fit, fields without a column are empty, and there is a name or an id. */
  predicate Printable(e: Entry, cols: seq<Field>, widths: seq<nat>)
    requires Shape(cols)
  {
    && Fits(Cells(e, cols), widths)
    && (forall k :: 0 <= k < |cols| ==> Trimmed(Cell(e, cols[k])))
    && (Where(cols).available == -1 ==> e.available == "")
    && (Where(cols).source == -1 ==> e.source == "")
    && (e.name != "" || e.id != "")
  }

  /** A body line: a printed row, or something the row filters drop. */
  datatype Line = Row(e: Entry) | Noise(text: string)

  ghost predicate Admissible(lower: char -> char, line: Line, cols: seq<Field>, widths: seq<nat>)
    requires Shape(cols)
  {
    match line
    case Row(e) => Printable(e, cols, widths) && !NoRow(lower, Render(Cells(e, cols), widths))
    case Noise(text) => NoRow(lower, text)
  }

  function LineText(line: Line, cols: seq<Field>, widths: seq<nat>): string {
    match line
    case Row(e) => if Fits(Cells(e, cols), widths) then Render(Cells(e, cols), widths) else ""
    case Noise(text) => text
  }

  function LineTexts(body: seq<Line>, cols: seq<Field>, widths: seq<nat>): seq<string> {
    seq(|body|, k requires 0 <= k < |body| => LineText(body[k], cols, widths))
  }

  function RowOf(line: Line): seq<Entry> { if line.Row? then [line.e] else [] }

  function RowsOf(body: seq<Line>): seq<Entry> {
    if body == [] then [] else RowsOf(body[..|body| - 1]) + RowOf(body[|body| - 1])
  }

  // ---------------------------------------------------------------- printed columns are found again

  function Offset(widths: seq<nat>, k: nat): nat
    requires k <= |widths|
  {
    if k == 0 then 0 else Offset(widths, k - 1) + widths[k - 1]
  }

  function Offsets(widths: seq<nat>): seq<nat> {
    seq(|widths| + 1, k requires 0 <= k <= |widths| => Offset(widths, k))
  }

  lemma {:induction false} OffsetShift(widths: seq<nat>, k: nat)
    requires 0 < k <= |widths|
    ensures Offset(widths, k) == widths[0] + Offset(widths[1..], k - 1)
  {
    if k <= 1 {
    } else {
      OffsetShift(widths, k - 1);
    }
  }

  lemma {:induction false} OffsetsIncrease(widths: seq<nat>, k: nat, l: nat)
    requires k < l <= |widths| && forall i :: 0 <= i < |widths| ==> widths[i] > 0
    ensures Offset(widths, k) < Offset(widths, l)
    decreases l
  {
    if k >= l - 1 {
    } else {
      OffsetsIncrease(widths, k, l - 1);
    }
  }

  /** From the offset of column k on, the line is the rendering of the cells from k on. */
  lemma {:induction false} RenderFrom(cells: seq<string>, widths: seq<nat>, k: nat)
    requires Fits(cells, widths) && k < |cells|
    ensures Fits(cells[k..], widths[k..])
    ensures Offset(widths, k) <= |Render(cells, widths)|
    ensures Render(cells, widths)[Offset(widths, k)..] == Render(cells[k..], widths[k..])
    decreases |cells|
  {
    if k == 0 {
      assert cells[0..] == cells && widths[0..] == widths;
    } else {
      RenderFrom(cells[1..], widths[1..], k - 1);
      OffsetShift(widths, k);
      assert cells[1..][k - 1..] == cells[k..] && widths[1..][k - 1..] == widths[k..];
      var head := cells[0] + Blanks(widths[0] - |cells[0]|);
      var tail := Render(cells[1..], widths[1..]);
      assert (head + tail)[widths[0]..] == tail;
      assert (head + tail)[widths[0] + Offset(widths[1..], k - 1)..] == tail[Offset(widths[1..], k - 1)..];
    }
  }

  lemma {:induction false} SliceOfSlice(s: string, i: nat, j: nat, k: nat)
    requires i + j <= i + k <= |s|
    ensures s[i..][j..k] == s[i + j..i + k]
  {}

  /** What stands between two offsets is the padded cell. */
  lemma {:induction false} PaddedCell(cells: seq<string>, widths: seq<nat>, k: nat)
    requires Fits(cells, widths) && k < |widths|
    ensures Offset(widths, k + 1) <= |Render(cells, widths)|
    ensures Render(cells, widths)[Offset(widths, k)..Offset(widths, k + 1)]
            == cells[k] + Blanks(widths[k] - |cells[k]|)
  {
    var line, at, w := Render(cells, widths), Offset(widths, k), widths[k];
    RenderFrom(cells, widths, k);
    RenderFrom(cells, widths, k + 1);
    var cell := cells[k] + Blanks(w - |cells[k]|);
    var tail := Render(cells[k..][1..], widths[k..][1..]);
    assert line[at..] == cell + tail;
    assert line[at..][0..w] == cell;
    SliceOfSlice(line, at, 0, w);
  }

  lemma {:induction false} MiddleColumn(cells: seq<string>, widths: seq<nat>, k: nat)
    requires Fits(cells, widths) && k < |widths| && Increasing(Offsets(widths))
    ensures RawColumn(Offsets(widths), Render(cells, widths), k) == cells[k] + Blanks(widths[k] - |cells[k]|)
  {
    PaddedCell(cells, widths, k);
    assert Offsets(widths)[k] == Offset(widths, k) && Offsets(widths)[k + 1] == Offset(widths, k + 1);
    assert Offsets(widths)[k] < Offsets(widths)[k + 1];
  }

  lemma {:induction false} LastColumn(cells: seq<string>, widths: seq<nat>, k: nat)
    requires Fits(cells, widths) && k == |widths| && Increasing(Offsets(widths))
    ensures RawColumn(Offsets(widths), Render(cells, widths), k) == cells[k]
  {
    RenderFrom(cells, widths, k);
    var line, at := Render(cells, widths), Offset(widths, k);
    assert Offsets(widths)[k] == at;
    assert Render(cells[k..], widths[k..]) == cells[k];
    if at == |line| {
      assert line[at..] == "";
    }
  }

  lemma {:induction false} RenderedColumn(cells: seq<string>, widths: seq<nat>, k: nat)
    requires Fits(cells, widths) && k < |cells| && Trimmed(cells[k]) && Increasing(Offsets(widths))
    ensures ExtractColumn(Offsets(widths), Render(cells, widths), k) == cells[k]
  {
    if k < |widths| {
      MiddleColumn(cells, widths, k);
      TrimOfPadded(cells[k], Blanks(widths[k] - |cells[k]|));
    } else {
      LastColumn(cells, widths, k);
      TrimOfPadded(cells[k], "");
      assert cells[k] + "" == cells[k];
    }
  }

  /** The spans that the words of a rendering have, when it starts at position `p`. */
  function WordSpans(words: seq<string>, widths: seq<nat>, p: nat): seq<Span>
    requires Fits(words, widths)
  {
    seq(|words|, k requires 0 <= k < |words| => Span(p + Offset(widths, k), p + Offset(widths, k) + |words[k]|))
  }

  lemma {:induction false} SkipBlanks(header: string, i: nat, j: nat)
    requires i <= j <= |header| && AllSpace(header[i..j])
    ensures Spans(header, i) == Spans(header, j)
    decreases j - i
  {
    if i >= j {
    } else {
      assert IsSpace(header[i..j][0]);
      assert header[i..j][1..] == header[i + 1..j];
      SkipBlanks(header, i + 1, j);
    }
  }

  /** A rendering is the first word, its padding, and the rendering of the rest. */
  lemma {:induction false} FirstParts(header: string, p: nat, words: seq<string>, widths: seq<nat>)
    requires Fits(words, widths) && p <= |header| && header[p..] == Render(words, widths) && |words| > 1
    requires |words[0]| < widths[0]
    ensures p + widths[0] <= |header|
    ensures header[p..p + |words[0]|] == words[0]
    ensures header[p + |words[0]|..p + widths[0]] == Blanks(widths[0] - |words[0]|)
    ensures header[p + widths[0]..] == Render(words[1..], widths[1..])
  {
    ThreeParts(header, p, words[0], Blanks(widths[0] - |words[0]|), Render(words[1..], widths[1..]));
  }

  /** The first word of a rendering is the next span, and the blanks behind it are skipped. */
  lemma {:induction false} FirstSpan(header: string, p: nat, words: seq<string>, widths: seq<nat>)
    requires Fits(words, widths) && p <= |header| && header[p..] == Render(words, widths) && |words| > 1
    requires words[0] != [] && NoSpace(words[0]) && |words[0]| < widths[0]
    ensures p + widths[0] <= |header| && header[p + widths[0]..] == Render(words[1..], widths[1..])
    ensures Spans(header, p) == [Span(p, p + |words[0]|)] + Spans(header, p + widths[0])
  {
    FirstParts(header, p, words, widths);
    PaddedSpan(header, p, words[0], widths[0]);
  }

  lemma {:induction false} PaddedSpan(header: string, p: nat, w: string, width: nat)
    requires w != [] && NoSpace(w) && |w| < width && p + width <= |header|
    requires header[p..p + |w|] == w && header[p + |w|..p + width] == Blanks(width - |w|)
    ensures Spans(header, p) == [Span(p, p + |w|)] + Spans(header, p + width)
  {
    NextSpan(header, p, p + |w|, p + width);
  }

  lemma {:induction false} NextSpan(header: string, p: nat, q: nat, r: nat)
    requires p < q < r <= |header| && NoSpace(header[p..q]) && AllSpace(header[q..r])
    ensures Spans(header, p) == [Span(p, q)] + Spans(header, r)
  {
    assert IsSpace(header[q..r][0]);
    SpanHere(header, p, q);
    SkipBlanks(header, q, r);
  }

  lemma {:induction false} ThreeParts(s: string, p: nat, a: string, b: string, c: string)
    requires p <= |s| && s[p..] == a + b + c
    ensures p + |a| + |b| <= |s|
    ensures s[p..p + |a|] == a && s[p + |a|..p + |a| + |b|] == b && s[p + |a| + |b|..] == c
  {
    SliceOfSlice(s, p, 0, |a|);
    SliceOfSlice(s, p, |a|, |a| + |b|);
    SliceOfSlice(s, p, |a| + |b|, |s| - p);
  }

  /** Words, without white space and shorter than their columns. */
  predicate AreWords(words: seq<string>, widths: seq<nat>)
    requires Fits(words, widths)
  {
    && (forall k :: 0 <= k < |words| ==> words[k] != [] && NoSpace(words[k]))
    && (forall k :: 0 <= k < |widths| ==> |words[k]| < widths[k])
  }

  lemma {:induction false} RestAreWords(words: seq<string>, widths: seq<nat>)
    requires Fits(words, widths) && AreWords(words, widths) && |words| > 1
    ensures Fits(words[1..], widths[1..]) && AreWords(words[1..], widths[1..])
  {}

  lemma {:induction false} RenderedSpans(header: string, p: nat, words: seq<string>, widths: seq<nat>)
    requires Fits(words, widths) && AreWords(words, widths)
    requires p <= |header| && header[p..] == Render(words, widths)
    ensures Spans(header, p) == WordSpans(words, widths, p)
    decreases |words|
  {
    if |words| == 1 {
      OnlySpan(header, p, words, widths);
    } else {
      RestAreWords(words, widths);
      FirstSpan(header, p, words, widths);
      RenderedSpans(header, p + widths[0], words[1..], widths[1..]);
      WordSpansSplit(words, widths, p);
    }
  }

  lemma {:induction false} OnlySpan(header: string, p: nat, words: seq<string>, widths: seq<nat>)
    requires Fits(words, widths) && |words| == 1 && words[0] != [] && NoSpace(words[0])
    requires p <= |header| && header[p..] == words[0]
    ensures Spans(header, p) == WordSpans(words, widths, p)
  {
    assert |header| == p + |words[0]|;
    LastSpan(header, p);
    OneWordSpan(words, widths, p);
  }

  lemma {:induction false} OneWordSpan(words: seq<string>, widths: seq<nat>, p: nat)
    requires Fits(words, widths) && |words| == 1
    ensures WordSpans(words, widths, p) == [Span(p, p + |words[0]|)]
  {}

  lemma {:induction false} LastSpan(header: string, p: nat)
    requires p < |header| && NoSpace(header[p..])
    ensures Spans(header, p) == [Span(p, |header|)]
  {
    assert header[p..|header|] == header[p..];
    SpanHere(header, p, |header|);
  }

  lemma {:induction false} WordSpansSplit(words: seq<string>, widths: seq<nat>, p: nat)
    requires Fits(words, widths) && |words| > 1
    ensures WordSpans(words, widths, p) == [Span(p, p + |words[0]|)] + WordSpans(words[1..], widths[1..], p + widths[0])
  {
    forall k | 0 < k < |words|
      ensures WordSpans(words, widths, p)[k] == WordSpans(words[1..], widths[1..], p + widths[0])[k - 1]
    {
      OffsetShift(widths, k);
    }
  }

  // ---------------------------------------------------------------- the header is recognised

  /** `lower` agrees with ASCII on the letters the titles use. */
  predicate LowersAscii(lower: char -> char) {
    forall c :: 'A' <= c <= 'z' ==> lower(c) == if c <= 'Z' then (c as int + 32) as char else c
  }

  lemma {:induction false} ByteLenAtLeast(s: string)
    ensures ByteLen(s) >= |s|
  {
    if s == [] {
    } else {
      ByteLenAtLeast(s[1..]);
    }
  }

  lemma {:induction false} ContainsMiddle(a: string, b: string, c: string)
    ensures Contains(a + b + c, b)
    decreases |a|
  {
    if a == [] {
      assert a + b + c == b + c;
      assert HasPrefix(b + c, b);
    } else {
      assert (a + b + c)[1..] == a[1..] + b + c;
      ContainsMiddle(a[1..], b, c);
    }
  }

  function LowTitle(f: Field): string {
    match f
    case Name => "name"
    case Id => "id"
    case Version => "version"
    case Available => "available"
    case Source => "source"
  }

  lemma {:induction false} LowerTitle(lower: char -> char, f: Field)
    requires LowersAscii(lower)
    ensures Lower(lower, Title(f)) == LowTitle(f)
  {}

  /** The column of a field, put at position `i`. */
  function PlaceAt(c: Columns, f: Field, i: nat): Columns {
    match f
    case Name => c.(name := i)
    case Id => c.(id := i)
    case Version => c.(version := i)
    case Available => c.(available := i)
    case Source => c.(source := i)
  }

  lemma {:induction false} AssignTitle(c: Columns, f: Field, i: nat)
    ensures Assign(c, LowTitle(f), i) == PlaceAt(c, f, i)
  {}

  lemma {:induction false} TitlesAreWords(cols: seq<Field>)
    ensures forall k :: 0 <= k < |cols| ==> Title(cols[k]) != [] && NoSpace(Title(cols[k]))
  {}

  /** A rendering contains each of its words. */
  lemma {:induction false} RenderedWord(words: seq<string>, widths: seq<nat>, k: nat, s: string)
    requires Fits(words, widths) && k < |words| && s == Render(words, widths)
    ensures exists a, c :: s == a + words[k] + c
  {
    RenderFrom(words, widths, k);
    var at := Offset(widths, k);
    assert words[k] <= s[at..];
    assert s == s[..at] + words[k] + s[at + |words[k]|..];
  }

  lemma {:induction false} LowerContains(lower: char -> char, s: string, w: string)
    requires exists a, c :: s == a + w + c
    ensures Contains(Lower(lower, s), Lower(lower, w))
  {
    var a, c :| s == a + w + c;
    assert Lower(lower, s) == Lower(lower, a) + Lower(lower, w) + Lower(lower, c);
    ContainsMiddle(Lower(lower, a), Lower(lower, w), Lower(lower, c));
  }

  lemma {:induction false} RenderEnds(words: seq<string>, widths: seq<nat>)
    requires Fits(words, widths)
    requires forall k :: 0 <= k < |words| ==> words[k] != [] && NoSpace(words[k])
    ensures Trimmed(Render(words, widths))
    ensures |Render(words, widths)| == Offset(widths, |widths|) + |words[|words| - 1]|
  {
    var s, n := Render(words, widths), |words| - 1;
    RenderFrom(words, widths, n);
    RenderFrom(words, widths, 0);
    assert s[Offset(widths, n)..] == words[n];
    assert s[0] == words[0][0];
    assert s[|s| - 1] == words[n][|words[n]| - 1];
  }

  lemma {:induction false} HeaderLong(cols: seq<Field>, widths: seq<nat>)
    requires Shape(cols) && Roomy(cols, widths)
    ensures |HeaderLine(cols, widths)| >= 10
  {
    var words := Titles(cols);
    RenderFrom(words, widths, 2);
    assert |Title(Name)| == 4 && |Title(Id)| == 2 && |words[2]| == 7;
    assert widths[0] > 4 by { assert |Title(cols[0])| < widths[0]; }
    assert Offset(widths, 1) == Offset(widths, 0) + widths[0];
    assert Offset(widths, 2) == Offset(widths, 1) + widths[1];
  }

  lemma {:induction false} HeaderRecognised(lower: char -> char, cols: seq<Field>, widths: seq<nat>)
    requires LowersAscii(lower) && Shape(cols) && Roomy(cols, widths)
    ensures IsHeader(lower, HeaderLine(cols, widths))
  {
    var s, words := HeaderLine(cols, widths), Titles(cols);
    assert TrimSpace(s) == s by {
      TitlesAreWords(cols);
      RenderEnds(words, widths);
      TrimOfPadded(s, "");
      assert s + "" == s;
    }
    LowerTitle(lower, Name);
    LowerTitle(lower, Id);
    LowerTitle(lower, Version);
    HeaderContains(lower, cols, widths, 0);
    HeaderContains(lower, cols, widths, 1);
    HeaderContains(lower, cols, widths, 2);
    HeaderLong(cols, widths);
    ByteLenAtLeast(Lower(lower, s));
  }

  lemma {:induction false} HeaderContains(lower: char -> char, cols: seq<Field>, widths: seq<nat>, k: nat)
    requires Shape(cols) && Roomy(cols, widths) && k < |cols|
    ensures Contains(Lower(lower, HeaderLine(cols, widths)), Lower(lower, Title(cols[k])))
  {
    RenderedWord(Titles(cols), widths, k, HeaderLine(cols, widths));
    LowerContains(lower, HeaderLine(cols, widths), Title(cols[k]));
  }

  lemma {:induction false} HeaderSpans(cols: seq<Field>, widths: seq<nat>)
    requires Shape(cols) && Roomy(cols, widths)
    ensures Spans(HeaderLine(cols, widths), 0) == WordSpans(Titles(cols), widths, 0)
    ensures Starts(Spans(HeaderLine(cols, widths), 0)) == Offsets(widths)
  {
    TitlesAreWords(cols);
    assert HeaderLine(cols, widths)[0..] == HeaderLine(cols, widths);
    RenderedSpans(HeaderLine(cols, widths), 0, Titles(cols), widths);
  }

  lemma {:induction false} WordAt(lower: char -> char, header: string, spans: seq<Span>, k: nat, text: string)
    requires forall i :: 0 <= i < |spans| ==> spans[i].start <= spans[i].end <= |header|
    requires k < |spans| && header[spans[k].start..spans[k].end] == text
    ensures Words(lower, header, spans)[k] == Lower(lower, text)
  {}

  lemma {:induction false} HeaderWord(lower: char -> char, cols: seq<Field>, widths: seq<nat>, k: nat)
    requires Shape(cols) && Roomy(cols, widths) && k < |cols|
    ensures var spans := Spans(HeaderLine(cols, widths), 0);
            |spans| == |cols| && Words(lower, HeaderLine(cols, widths), spans)[k] == Lower(lower, Title(cols[k]))
  {
    HeaderSpans(cols, widths);
    RenderedCell(Titles(cols), widths, k);
    WordAt(lower, HeaderLine(cols, widths), Spans(HeaderLine(cols, widths), 0), k, Titles(cols)[k]);
  }

  lemma {:induction false} RenderedCell(cells: seq<string>, widths: seq<nat>, k: nat)
    requires Fits(cells, widths) && k < |cells|
    ensures var at := Offset(widths, k);
            at + |cells[k]| <= |Render(cells, widths)| && Render(cells, widths)[at..at + |cells[k]|] == cells[k]
  {
    RenderFrom(cells, widths, k);
    SliceOfSlice(Render(cells, widths), Offset(widths, k), 0, |cells[k]|);
  }

  function Placed(cols: seq<Field>, n: nat): Columns
    requires n <= |cols|
  {
    if n == 0 then Columns(0, 1, 2, -1, -1) else PlaceAt(Placed(cols, n - 1), cols[n - 1], n - 1)
  }

  lemma {:induction false} ColumnsOfTitles(lower: char -> char, words: seq<string>, cols: seq<Field>, n: nat)
    requires LowersAscii(lower) && |words| == |cols| && n <= |cols|
    requires forall k :: 0 <= k < |cols| ==> words[k] == Lower(lower, Title(cols[k]))
    ensures ColumnsOf(words, n) == Placed(cols, n)
  {
    if n == 0 {
    } else {
      ColumnsOfTitles(lower, words, cols, n - 1);
      LowerTitle(lower, cols[n - 1]);
      AssignTitle(Placed(cols, n - 1), cols[n - 1], n - 1);
    }
  }

  lemma {:induction false} PlacedWhere(cols: seq<Field>)
    requires Shape(cols)
    ensures Placed(cols, |cols|) == Where(cols)
  {
    assert Placed(cols, 1) == Columns(0, 1, 2, -1, -1);
    assert Placed(cols, 2) == Columns(0, 1, 2, -1, -1);
    assert Placed(cols, 3) == Columns(0, 1, 2, -1, -1);
    if |cols| > 4 {
      assert Placed(cols, 4) == PlaceAt(Placed(cols, 3), cols[3], 3);
    }
  }

  lemma {:induction false} HeaderLayout(lower: char -> char, cols: seq<Field>, widths: seq<nat>)
    requires LowersAscii(lower) && Shape(cols) && Roomy(cols, widths)
    ensures Layout(lower, HeaderLine(cols, widths)) == (Where(cols), Offsets(widths))
    ensures |Spans(HeaderLine(cols, widths), 0)| == |cols|
  {
    HeaderSpans(cols, widths);
    var words := Words(lower, HeaderLine(cols, widths), Spans(HeaderLine(cols, widths), 0));
    forall k | 0 <= k < |cols|
      ensures words[k] == Lower(lower, Title(cols[k]))
    {
      HeaderWord(lower, cols, widths, k);
    }
    ColumnsOfTitles(lower, words, cols, |cols|);
    PlacedWhere(cols);
  }

  // ---------------------------------------------------------------- the round trip

  lemma {:induction false} EntryRoundTrip(e: Entry, cols: seq<Field>, widths: seq<nat>)
    requires Shape(cols) && Printable(e, cols, widths) && Increasing(Offsets(widths))
    ensures RowEntry((Where(cols), Offsets(widths)), Render(Cells(e, cols), widths)) == e
  {
    var cells := Cells(e, cols);
    RenderedColumn(cells, widths, 0);
    RenderedColumn(cells, widths, 1);
    RenderedColumn(cells, widths, 2);
    if Where(cols).available != -1 {
      RenderedColumn(cells, widths, Where(cols).available);
    }
    if Where(cols).source != -1 {
      RenderedColumn(cells, widths, Where(cols).source);
    }
  }

  lemma {:induction false} RowRoundTrip(lower: char -> char, e: Entry, cols: seq<Field>, widths: seq<nat>)
    requires LowersAscii(lower) && Shape(cols) && Roomy(cols, widths)
    requires Admissible(lower, Row(e), cols, widths)
    ensures ParseRow(lower, Layout(lower, HeaderLine(cols, widths)), Render(Cells(e, cols), widths)) == [e]
  {
    HeaderLayout(lower, cols, widths);
    EntryRoundTrip(e, cols, widths);
    NoRowIs(lower, Render(Cells(e, cols), widths));
  }

  lemma {:induction false} LineRoundTrip(lower: char -> char, line: Line, cols: seq<Field>, widths: seq<nat>)
    requires LowersAscii(lower) && Shape(cols) && Roomy(cols, widths) && Admissible(lower, line, cols, widths)
    ensures ParseRow(lower, Layout(lower, HeaderLine(cols, widths)), LineText(line, cols, widths)) == RowOf(line)
  {
    if line.Row? {
      RowRoundTrip(lower, line.e, cols, widths);
    } else {
      NoRowIs(lower, line.text);
    }
  }

  lemma {:induction false} ParseSnoc(lower: char -> char, layout: (Columns, seq<nat>), lines: seq<string>, line: string)
    requires Increasing(layout.1)
    ensures ParseRows(lower, layout, lines + [line]) == ParseRows(lower, layout, lines) + ParseRow(lower, layout, line)
  {
    assert (lines + [line])[..|lines|] == lines;
  }

  lemma {:induction false} LineTextsSnoc(body: seq<Line>, cols: seq<Field>, widths: seq<nat>)
    requires body != []
    ensures LineTexts(body, cols, widths)
            == LineTexts(body[..|body| - 1], cols, widths) + [LineText(body[|body| - 1], cols, widths)]
  {}

  lemma {:induction false} BodyRoundTrip(lower: char -> char, body: seq<Line>, cols: seq<Field>, widths: seq<nat>)
    requires LowersAscii(lower) && Shape(cols) && Roomy(cols, widths)
    requires forall k :: 0 <= k < |body| ==> Admissible(lower, body[k], cols, widths)
    ensures ParseRows(lower, Layout(lower, HeaderLine(cols, widths)), LineTexts(body, cols, widths)) == RowsOf(body)
    decreases |body|
  {
    if body == [] {
    } else {
      var init, last := body[..|body| - 1], body[|body| - 1];
      var layout := Layout(lower, HeaderLine(cols, widths));
      BodyRoundTrip(lower, init, cols, widths);
      LineTextsSnoc(body, cols, widths);
      ParseSnoc(lower, layout, LineTexts(init, cols, widths), LineText(last, cols, widths));
      LineRoundTrip(lower, last, cols, widths);
    }
  }

  lemma {:induction false} HeaderAfter(lower: char -> char, before: seq<string>, header: string, rest: seq<string>)
    requires IsHeader(lower, header) && forall i :: 0 <= i < |before| ==> !IsHeader(lower, before[i])
    ensures HeaderIndex(lower, before + [header] + rest) == |before|
    decreases |before|
  {
    if before == [] {
    } else {
      assert (before + [header] + rest)[1..] == before[1..] + [header] + rest;
      HeaderAfter(lower, before[1..], header, rest);
    }
  }

  /**
   Printing a table under any of the four headers, after any lines that do not look like a header and with
   any skipped lines in between, and parsing the lines gives back exactly the rows, in order.
   */
  lemma {:induction false} LinesRoundTrip(lower: char -> char, before: seq<string>, body: seq<Line>, cols: seq<Field>,
                                          widths: seq<nat>)
    requires LowersAscii(lower) && Shape(cols) && Roomy(cols, widths)
    requires forall i :: 0 <= i < |before| ==> !IsHeader(lower, before[i])
    requires forall k :: 0 <= k < |body| ==> Admissible(lower, body[k], cols, widths)
    ensures ParseLines(lower, before + [HeaderLine(cols, widths)] + LineTexts(body, cols, widths)) == RowsOf(body)
  {
    var header, texts := HeaderLine(cols, widths), LineTexts(body, cols, widths);
    HeaderRecognised(lower, cols, widths);
    HeaderAfter(lower, before, header, texts);
    HeaderLayout(lower, cols, widths);
    assert (before + [header] + texts)[|before| + 1..] == texts;
    BodyRoundTrip(lower, body, cols, widths);
  }

  /** No character of the line ends a line. */
  predicate OneLine(s: string) { '\n' !in s && '\r' !in s }

  lemma {:induction false} NormalizePlain(a: string, t: string)
    requires OneLine(a)
    ensures Normalize(a + t) == a + Normalize(t)
    decreases |a|
  {
    if a == [] {
      assert a + t == t;
    } else {
      assert a[0] in a && (a + t)[0] == a[0];
      assert (a + t)[1..] == a[1..] + t;
      NormalizePlain(a[1..], t);
    }
  }

  /** Whichever of the three line ends separates the lines, normalising leaves line feeds. */
  lemma {:induction false} NormalizeJoin(lines: seq<string>, sep: string)
    requires forall i :: 0 <= i < |lines| ==> OneLine(lines[i])
    requires sep in ["\n", "\r\n", "\r"]
    ensures Normalize(Join(lines, sep)) == Join(lines, "\n")
    decreases |lines|
  {
    if |lines| == 1 {
      NormalizePlain(lines[0], "");
      assert lines[0] + "" == lines[0];
    } else if |lines| > 1 {
      var t := Join(lines[1..], sep);
      NormalizeJoin(lines[1..], sep);
      assert lines[0] + sep + t == lines[0] + (sep + t);
      NormalizePlain(lines[0], sep + t);
      if sep == "\r" {
        StartOfJoin(lines[1..]);
      }
      NormalizeSeparator(sep, t);
    }
  }

  lemma {:induction false} NormalizeSeparator(sep: string, t: string)
    requires sep == "\n" || sep == "\r\n" || (sep == "\r" && (t == [] || t[0] != '\n'))
    ensures Normalize(sep + t) == "\n" + Normalize(t)
  {
    assert (sep + t)[|sep|..] == t;
  }

  lemma {:induction false} StartOfJoin(lines: seq<string>)
    requires lines != [] && forall i :: 0 <= i < |lines| ==> OneLine(lines[i])
    ensures Join(lines, "\r") == [] || Join(lines, "\r")[0] != '\n'
  {
    if lines[0] != [] {
      assert lines[0][0] in lines[0];
    }
  }

  lemma {:induction false} ParseJoined(lower: char -> char, lines: seq<string>, sep: string)
    requires lines != [] && sep in ["\n", "\r\n", "\r"]
    requires forall i :: 0 <= i < |lines| ==> OneLine(lines[i])
    ensures ParseTable(lower, Join(lines, sep)) == ParseLines(lower, lines)
  {
    NormalizeJoin(lines, sep);
    SplitOfJoin(lines, '\n');
  }

  lemma {:induction false} OutputLinesAreLines(before: seq<string>, body: seq<Line>, cols: seq<Field>, widths: seq<nat>,
                                               i: nat)
    requires Shape(cols) && Roomy(cols, widths)
    requires forall k :: 0 <= k < |before| ==> OneLine(before[k])
    requires forall k :: 0 <= k < |body| ==> OneLine(LineText(body[k], cols, widths))
    requires i < |before + [HeaderLine(cols, widths)] + LineTexts(body, cols, widths)|
    ensures OneLine((before + [HeaderLine(cols, widths)] + LineTexts(body, cols, widths))[i])
  {
    HeaderIsOneLine(cols, widths);
    if i > |before| {
      assert LineTexts(body, cols, widths)[i - |before| - 1] == LineText(body[i - |before| - 1], cols, widths);
    }
  }

  /** The round trip on the text of the whole output, with line feeds, carriage returns or both between the lines. */
  lemma {:induction false} TableRoundTrip(lower: char -> char, before: seq<string>, body: seq<Line>, cols: seq<Field>,
                                          widths: seq<nat>, sep: string)
    requires LowersAscii(lower) && Shape(cols) && Roomy(cols, widths) && sep in ["\n", "\r\n", "\r"]
    requires forall i :: 0 <= i < |before| ==> OneLine(before[i]) && !IsHeader(lower, before[i])
    requires forall k :: 0 <= k < |body| ==>
               Admissible(lower, body[k], cols, widths) && OneLine(LineText(body[k], cols, widths))
    ensures var lines := before + [HeaderLine(cols, widths)] + LineTexts(body, cols, widths);
            ParseTable(lower, Join(lines, sep)) == RowsOf(body)
  {
    var lines := before + [HeaderLine(cols, widths)] + LineTexts(body, cols, widths);
    forall i | 0 <= i < |lines|
      ensures OneLine(lines[i])
    {
      OutputLinesAreLines(before, body, cols, widths, i);
    }
    ParseJoined(lower, lines, sep);
    LinesRoundTrip(lower, before, body, cols, widths);
  }

  lemma {:induction false} RenderIsOneLine(cells: seq<string>, widths: seq<nat>)
    requires Fits(cells, widths) && forall k :: 0 <= k < |cells| ==> OneLine(cells[k])
    ensures OneLine(Render(cells, widths))
    decreases |cells|
  {
    if |cells| <= 1 {
    } else {
      RenderIsOneLine(cells[1..], widths[1..]);
    }
  }

  lemma {:induction false} HeaderIsOneLine(cols: seq<Field>, widths: seq<nat>)
    requires Shape(cols) && Roomy(cols, widths)
    ensures OneLine(HeaderLine(cols, widths))
  {
    RenderIsOneLine(Titles(cols), widths);
  }
}
