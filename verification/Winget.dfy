/**
 The fixed-width table that `winget list` prints.

 Columns are cut at the positions where the header words start, counted in characters. The parser
 is a method with the source's loops; `ParseTable` is the function it computes. Its partner is the
 printer of module WingetPrinter.
 `lower` stands for `unicode.ToLower` on one character.
 */
module Winget {
  import opened Options
  import opened Text

  datatype Entry = Entry(name: string, id: string, version: string, available: string, source: string)

  function Lower(lower: char -> char, s: string): string {
    seq(|s|, i requires 0 <= i < |s| => lower(s[i]))
  }

  /** Length in bytes of the UTF-8 encoding. */
  function ByteLen(s: string): nat {
    if s == [] then 0
    else (if s[0] < '\U{0080}' then 1 else if s[0] < '\U{0800}' then 2 else if s[0] < '\U{10000}' then 3 else 4)
         + ByteLen(s[1..])
  }

  // ---------------------------------------------------------------- the header line

  predicate IsHeader(lower: char -> char, line: string) {
    var low := Lower(lower, TrimSpace(line));
    ByteLen(low) >= 10 && Contains(low, "name") && Contains(low, "id") && Contains(low, "version")
  }

  /** Start and end of a header word. */
  datatype Span = Span(start: nat, end: nat)

  /** The words of the header from position `i` on. */
  function Spans(header: string, i: nat): (spans: seq<Span>)
    requires i <= |header|
    ensures forall k :: 0 <= k < |spans| ==> i <= spans[k].start < spans[k].end <= |header|
    ensures forall k, l :: 0 <= k < l < |spans| ==> spans[k].end <= spans[l].start
    decreases |header| - i
  {
    if i == |header| then []
    else if IsSpace(header[i]) then Spans(header, i + 1)
    else
      var n := WordLen(header[i..]);
      [Span(i, i + n)] + Spans(header, i + n)
  }

  /** Which column holds which field; -1 for a field without a column. */
  datatype Columns = Columns(name: int, id: int, version: int, available: int, source: int)

  function Assign(c: Columns, word: string, i: nat): Columns {
    if HasSuffix(word, "name") then c.(name := i)
    else if HasSuffix(word, "id") then c.(id := i)
    else if HasSuffix(word, "version") then c.(version := i)
    else if HasSuffix(word, "available") then c.(available := i)
    else if HasSuffix(word, "source") then c.(source := i)
    else c
  }

  /** The assignment after the first `n` header words, in lower case. */
  function ColumnsOf(words: seq<string>, n: nat): Columns
    requires n <= |words|
  {
    if n == 0 then Columns(0, 1, 2, -1, -1) else Assign(ColumnsOf(words, n - 1), words[n - 1], n - 1)
  }

  function Words(lower: char -> char, header: string, spans: seq<Span>): seq<string>
    requires forall k :: 0 <= k < |spans| ==> spans[k].start <= spans[k].end <= |header|
  {
    seq(|spans|, k requires 0 <= k < |spans| => Lower(lower, header[spans[k].start..spans[k].end]))
  }

  function Layout(lower: char -> char, header: string): (layout: (Columns, seq<nat>))
    ensures Increasing(layout.1)
  {
    var spans := Spans(header, 0);
    (ColumnsOf(Words(lower, header, spans), Min(|spans|, 5)), Starts(spans))
  }

  function Starts(spans: seq<Span>): seq<nat> {
    seq(|spans|, k requires 0 <= k < |spans| => spans[k].start)
  }

  // ---------------------------------------------------------------- the rows

  predicate Increasing(starts: seq<nat>) {
    forall k, l :: 0 <= k < l < |starts| ==> starts[k] < starts[l]
  }

  /** The characters of one column, untrimmed; empty for a column that does not exist. */
  function RawColumn(starts: seq<nat>, line: string, col: int): string
    requires Increasing(starts)
  {
    if col < 0 || col >= |starts| || starts[col] >= |line| then ""
    else line[starts[col]..if col + 1 < |starts| then Min(starts[col + 1], |line|) else |line|]
  }

  function ExtractColumn(starts: seq<nat>, line: string, col: int): string
    requires Increasing(starts)
  {
    TrimSpace(RawColumn(starts, line, col))
  }

  predicate IsRule(s: string) {
    forall i :: 0 <= i < |s| ==> s[i] == '-' || s[i] == '_' || IsRegexpSpace(s[i])
  }

  /** `\s` of Go regular expressions, which is narrower than Unicode white space. */
  predicate IsRegexpSpace(c: char) {
    c == '\t' || c == '\n' || c == '\U{000C}' || c == '\r' || c == ' '
  }

  predicate IsProgress(line: string) {
    exists i :: 0 <= i < |line| && (line[i] == '\U{2588}' || line[i] == '\U{2592}' || line[i] == '\U{2591}')
  }

  /** Blank lines, rules, progress bars and the closing count are not rows. */
  predicate Skipped(lower: char -> char, line: string) {
    TrimSpace(line) == "" || IsRule(TrimSpace(line)) || IsProgress(line) || Contains(Lower(lower, line), "package(s)")
  }

  function RowEntry(layout: (Columns, seq<nat>), line: string): Entry
    requires Increasing(layout.1)
  {
    var (c, starts) := layout;
    Entry(ExtractColumn(starts, line, c.name), ExtractColumn(starts, line, c.id),
          ExtractColumn(starts, line, c.version), ExtractColumn(starts, line, c.available),
          ExtractColumn(starts, line, c.source))
  }

  function ParseRow(lower: char -> char, layout: (Columns, seq<nat>), line: string): seq<Entry>
    requires Increasing(layout.1)
  {
    if Skipped(lower, line) then []
    else
      var e := RowEntry(layout, line);
      if e.name == "" && e.id == "" then [] else [e]
  }

  function ParseRows(lower: char -> char, layout: (Columns, seq<nat>), lines: seq<string>): seq<Entry>
    requires Increasing(layout.1)
  {
    if lines == [] then []
    else ParseRows(lower, layout, lines[..|lines| - 1]) + ParseRow(lower, layout, lines[|lines| - 1])
  }

  function HeaderIndex(lower: char -> char, lines: seq<string>): (n: nat)
    ensures n <= |lines|
  {
    if lines == [] || IsHeader(lower, lines[0]) then 0 else 1 + HeaderIndex(lower, lines[1..])
  }

  /** The header is the first line that looks like one. */
  lemma {:induction false} HeaderIsFirst(lower: char -> char, lines: seq<string>)
    ensures var n := HeaderIndex(lower, lines);
            (n < |lines| ==> IsHeader(lower, lines[n])) && forall i :: 0 <= i < n ==> !IsHeader(lower, lines[i])
  {
    if lines == [] || IsHeader(lower, lines[0]) {
    } else {
      HeaderIsFirst(lower, lines[1..]);
    }
  }

  /** What a header with at least three columns makes of the lines below it. */
  function ParseBelow(lower: char -> char, header: string, below: seq<string>): seq<Entry> {
    if |Spans(header, 0)| < 3 then [] else ParseRows(lower, Layout(lower, header), below)
  }

  function ParseLines(lower: char -> char, lines: seq<string>): seq<Entry> {
    ParseFrom(lower, lines, HeaderIndex(lower, lines))
  }

  /** What is read when the header is line `h`; nothing if there is none. */
  function ParseFrom(lower: char -> char, lines: seq<string>, h: nat): seq<Entry>
    requires h <= |lines|
  {
    if h == |lines| then [] else ParseBelow(lower, lines[h], lines[h + 1..])
  }

  /** Carriage returns end lines too: first pairs, then single ones become line feeds. */
  function Normalize(text: string): string {
    if text == [] then []
    else if |text| >= 2 && text[0] == '\r' && text[1] == '\n' then ['\n'] + Normalize(text[2..])
    else [if text[0] == '\r' then '\n' else text[0]] + Normalize(text[1..])
  }

  function ParseTable(lower: char -> char, output: string): seq<Entry> {
    ParseLines(lower, Split(Normalize(output), '\n'))
  }

  /** The scanning loop over the header. */
  method FindSpans(header: string) returns (spans: seq<Span>)
    ensures spans == Spans(header, 0)
  {
    spans := [];
    var i := 0;
    while i < |header|
      invariant i <= |header|
      invariant spans + Spans(header, i) == Spans(header, 0)
    {
      if IsSpace(header[i]) {
        i := i + 1;
        continue;
      }
      var start := i;
      i := WordEnd(header, start);
      SpanHere(header, start, i);
      spans := spans + [Span(start, i)];
    }
  }

  method WordEnd(header: string, start: nat) returns (i: nat)
    requires start < |header| && !IsSpace(header[start])
    ensures start < i <= |header| && NoSpace(header[start..i]) && (i < |header| ==> IsSpace(header[i]))
  {
    i := start;
    while i < |header| && !IsSpace(header[i])
      invariant start <= i <= |header|
      invariant forall k :: start <= k < i ==> !IsSpace(header[k])
    {
      i := i + 1;
    }
  }

  /** A maximal run without white space is the next span. */
  lemma {:induction false} SpanHere(header: string, start: nat, end: nat)
    requires start < end <= |header| && NoSpace(header[start..end]) && (end < |header| ==> IsSpace(header[end]))
    ensures Spans(header, start) == [Span(start, end)] + Spans(header, end)
  {
    assert header[start..] == header[start..end] + header[end..];
    WordLenOf(header[start..end], header[end..]);
    assert !IsSpace(header[start..end][0]);
  }

  method FindHeader(lower: char -> char, lines: seq<string>) returns (h: nat)
    ensures h == HeaderIndex(lower, lines)
  {
    h := 0;
    while h < |lines| && !IsHeader(lower, lines[h])
      invariant h <= |lines|
      invariant HeaderIndex(lower, lines) == h + HeaderIndex(lower, lines[h..])
    {
      assert lines[h..][1..] == lines[h + 1..];
      h := h + 1;
    }
    if h < |lines| {
      assert lines[h..][0] == lines[h];
    }
  }

  method MapColumns(words: seq<string>) returns (c: Columns)
    ensures c == ColumnsOf(words, Min(|words|, 5))
  {
    c := Columns(0, 1, 2, -1, -1);
    for i := 0 to Min(|words|, 5)
      invariant c == ColumnsOf(words, i)
    {
      c := Assign(c, words[i], i);
    }
  }

  method ReadRows(lower: char -> char, layout: (Columns, seq<nat>), lines: seq<string>) returns (entries: seq<Entry>)
    requires Increasing(layout.1)
    ensures entries == ParseRows(lower, layout, lines)
  {
    entries := [];
    for i := 0 to |lines|
      invariant entries == ParseRows(lower, layout, lines[..i])
    {
      assert lines[..i + 1][..i] == lines[..i];
      if Skipped(lower, lines[i]) {
        continue;
      }
      var e := RowEntry(layout, lines[i]);
      if e.name == "" && e.id == "" {
        continue;
      }
      entries := entries + [e];
    }
    assert lines[..|lines|] == lines;
  }

  method ReadBelow(lower: char -> char, header: string, below: seq<string>) returns (entries: seq<Entry>)
    ensures entries == ParseBelow(lower, header, below)
  {
    var spans := FindSpans(header);
    if |spans| < 3 {
      return [];
    }
    var c := MapColumns(Words(lower, header, spans));
    entries := ReadRows(lower, (c, Starts(spans)), below);
  }

  method ReadFrom(lower: char -> char, lines: seq<string>, h: nat) returns (entries: seq<Entry>)
    requires h <= |lines|
    ensures entries == ParseFrom(lower, lines, h)
  {
    if h == |lines| {
      return [];
    }
    entries := ReadBelow(lower, lines[h], lines[h + 1..]);
  }

  method ParseWingetLines(lower: char -> char, lines: seq<string>) returns (entries: seq<Entry>)
    ensures entries == ParseLines(lower, lines)
  {
    var h := FindHeader(lower, lines);
    entries := ReadFrom(lower, lines, h);
  }

  method ParseWingetTable(lower: char -> char, output: string) returns (entries: seq<Entry>)
    ensures entries == ParseTable(lower, output)
  {
    entries := ParseWingetLines(lower, Split(Normalize(output), '\n'));
  }

  // ---------------------------------------------------------------- arbitrary text

  function Tiles(starts: seq<nat>, line: string, n: nat): string
    requires Increasing(starts) && n <= |starts|
  {
    if n == 0 then "" else Tiles(starts, line, n - 1) + RawColumn(starts, line, n - 1)
  }

  /** Whatever the header and the line, the columns cut the line from the first start on without gap or overlap. */
  lemma {:induction false} ColumnsTileLine(lower: char -> char, header: string, line: string)
    requires Layout(lower, header).1 != []
    ensures var starts := Layout(lower, header).1;
            Tiles(starts, line, |starts|) == line[Min(starts[0], |line|)..]
  {
    var starts := Layout(lower, header).1;
    TilesPrefix(starts, line, |starts|, CutAt(starts, line, 0));
  }

  function CutAt(starts: seq<nat>, line: string, n: nat): nat {
    if n < |starts| then Min(starts[n], |line|) else |line|
  }

  lemma {:induction false} ColumnIsSlice(starts: seq<nat>, line: string, n: nat)
    requires Increasing(starts) && n < |starts|
    ensures CutAt(starts, line, n) <= CutAt(starts, line, n + 1) <= |line|
    ensures RawColumn(starts, line, n) == line[CutAt(starts, line, n)..CutAt(starts, line, n + 1)]
  {}

  lemma {:induction false} Glue(line: string, a: nat, b: nat, c: nat)
    requires a <= b <= c <= |line|
    ensures line[a..b] + line[b..c] == line[a..c]
  {}

  lemma {:induction false} TilesStep(starts: seq<nat>, line: string, n: nat, from: nat)
    requires Increasing(starts) && n < |starts| && from <= CutAt(starts, line, n) <= |line|
    requires Tiles(starts, line, n) == line[from..CutAt(starts, line, n)]
    ensures CutAt(starts, line, n) <= CutAt(starts, line, n + 1) <= |line|
    ensures Tiles(starts, line, n + 1) == line[from..CutAt(starts, line, n + 1)]
  {
    ColumnIsSlice(starts, line, n);
    Glue(line, from, CutAt(starts, line, n), CutAt(starts, line, n + 1));
  }

  lemma {:induction false} TilesPrefix(starts: seq<nat>, line: string, n: nat, from: nat)
    requires Increasing(starts) && n <= |starts| && from == CutAt(starts, line, 0)
    ensures from <= CutAt(starts, line, n) <= |line| && Tiles(starts, line, n) == line[from..CutAt(starts, line, n)]
    decreases n
  {
    if n == 0 {
      assert line[from..from] == "";
    } else {
      TilesPrefix(starts, line, n - 1, from);
      TilesStep(starts, line, n - 1, from);
    }
  }

  /** Rows are parsed one by one: the rows of a text are the rows of its parts. */
  lemma {:induction false} RowsConcatenate(lower: char -> char, layout: (Columns, seq<nat>),
                                           a: seq<string>, b: seq<string>)
    requires Increasing(layout.1)
    ensures ParseRows(lower, layout, a + b) == ParseRows(lower, layout, a) + ParseRows(lower, layout, b)
    decreases |b|
  {
    if b == [] {
      assert a + b == a;
    } else {
      assert (a + b)[..|a + b| - 1] == a + b[..|b| - 1];
      RowsConcatenate(lower, layout, a, b[..|b| - 1]);
    }
  }

  predicate Clean(e: Entry) {
    && Trimmed(e.name) && Trimmed(e.id) && Trimmed(e.version) && Trimmed(e.available) && Trimmed(e.source)
    && (e.name != "" || e.id != "")
  }

  lemma {:induction false} ColumnIsTrimmed(starts: seq<nat>, line: string, col: int)
    requires Increasing(starts)
    ensures Trimmed(ExtractColumn(starts, line, col))
  {
    TrimSpaceIsTrimmed(RawColumn(starts, line, col));
  }

  lemma {:induction false} CellsAreTrimmed(layout: (Columns, seq<nat>), line: string)
    requires Increasing(layout.1)
    ensures var e := RowEntry(layout, line);
            Trimmed(e.name) && Trimmed(e.id) && Trimmed(e.version) && Trimmed(e.available) && Trimmed(e.source)
  {
    var (c, starts) := layout;
    ColumnIsTrimmed(starts, line, c.name);
    ColumnIsTrimmed(starts, line, c.id);
    ColumnIsTrimmed(starts, line, c.version);
    ColumnIsTrimmed(starts, line, c.available);
    ColumnIsTrimmed(starts, line, c.source);
  }

  lemma {:induction false} RowIsClean(lower: char -> char, layout: (Columns, seq<nat>), line: string, e: Entry)
    requires Increasing(layout.1) && e in ParseRow(lower, layout, line)
    ensures Clean(e)
  {
    assert e == RowEntry(layout, line);
    CellsAreTrimmed(layout, line);
  }

  lemma {:induction false} RowsAreClean(lower: char -> char, layout: (Columns, seq<nat>), lines: seq<string>, e: Entry)
    requires Increasing(layout.1) && e in ParseRows(lower, layout, lines)
    ensures Clean(e)
    decreases |lines|
  {
    var init, last := lines[..|lines| - 1], lines[|lines| - 1];
    if e in ParseRows(lower, layout, init) {
      RowsAreClean(lower, layout, init, e);
    } else {
      RowIsClean(lower, layout, last, e);
    }
  }

  /** Whatever the header and the lines below it, every entry has trimmed fields and a name or an id. */
  lemma {:induction false} EntriesAreClean(lower: char -> char, header: string, below: seq<string>, e: Entry)
    requires e in ParseBelow(lower, header, below)
    ensures Clean(e)
  {
    RowsAreClean(lower, Layout(lower, header), below, e);
  }

  // ---------------------------------------------------------------- which lines are rows, in characters

  predicate RuleCharacter(c: char) { c in "-_ \t\n\r\U{000C}" }

  /** A rule of dashes: between white space, dashes, underscores and blanks only. A blank line is one without dashes. */
  predicate RuleLine(line: string) {
    exists i, j | 0 <= i <= j <= |line| :: AllSpace(line[..i]) && AllSpace(line[j..])
                                          && forall k :: i <= k < j ==> RuleCharacter(line[k])
  }

  /** A progress bar has a full block or a shade in it. */
  predicate ProgressLine(line: string) { '\U{2588}' in line || '\U{2592}' in line || '\U{2591}' in line }

  /** The closing line that counts packages. */
  ghost predicate CountLine(lower: char -> char, line: string) {
    exists i: nat :: StandsAt(Lower(lower, line), "package(s)", i)
  }

  ghost predicate NoRow(lower: char -> char, line: string) {
    RuleLine(line) || ProgressLine(line) || CountLine(lower, line)
  }

  lemma {:induction false} TrimLeftCut(s: string) returns (i: nat)
    ensures i <= |s| && AllSpace(s[..i]) && TrimLeft(s) == s[i..]
    decreases |s|
  {
    if s == [] || !IsSpace(s[0]) {
      i := 0;
    } else {
      var k := TrimLeftCut(s[1..]);
      i := k + 1;
      assert s[..i] == [s[0]] + s[1..][..k] && s[i..] == s[1..][k..];
    }
  }

  lemma {:induction false} TrimRightCut(s: string) returns (j: nat)
    ensures j <= |s| && AllSpace(s[j..]) && TrimRight(s) == s[..j]
    decreases |s|
  {
    if s == [] || !IsSpace(s[|s| - 1]) {
      j := |s|;
    } else {
      var init := s[..|s| - 1];
      j := TrimRightCut(init);
      assert s[j..] == init[j..] + [s[|s| - 1]] && s[..j] == init[..j];
    }
  }

  /** Trimming leaves a slice with white space on both sides. */
  lemma {:induction false} TrimIsSlice(s: string) returns (i: nat, j: nat)
    ensures i <= j <= |s| && AllSpace(s[..i]) && AllSpace(s[j..]) && TrimSpace(s) == s[i..j]
  {
    i := TrimLeftCut(s);
    var k := TrimRightCut(s[i..]);
    j := i + k;
    Slices(s, i, k);
  }

  lemma {:induction false} Slices(s: string, i: nat, k: nat)
    requires i + k <= |s|
    ensures s[i..][k..] == s[i + k..] && s[i..][..k] == s[i..i + k]
  {}

  lemma {:induction false} SpaceAround(s: string, i: nat, j: nat)
    requires i <= j <= |s| && AllSpace(s[..i]) && AllSpace(s[j..])
    ensures forall k :: 0 <= k < i || j <= k < |s| ==> IsSpace(s[k])
  {
    forall k | 0 <= k < i || j <= k < |s|
      ensures IsSpace(s[k])
    {
      assert k < i ==> s[..i][k] == s[k];
      assert k >= j ==> s[j..][k - j] == s[k];
    }
  }

  /** What trimming leaves of a slice with white space on both sides are characters of the slice. */
  lemma {:induction false} TrimmedIsInside(s: string, i: nat, j: nat, k: nat)
    requires i <= j <= |s| && AllSpace(s[..i]) && AllSpace(s[j..]) && k < |TrimSpace(s)|
    ensures exists l :: i <= l < j && s[l] == TrimSpace(s)[k]
  {
    var a, b := TrimIsSlice(s);
    TrimSpaceIsTrimmed(s);
    var t := TrimSpace(s);
    assert t[0] == s[a] && t[|t| - 1] == s[b - 1];
    SpaceAround(s, i, j);
    assert !IsSpace(s[a]) && !IsSpace(s[b - 1]);
    assert i <= a && b <= j;
    assert s[a + k] == t[k];
  }

  lemma {:induction false} RuleLineIs(line: string)
    ensures RuleLine(line) <==> IsRule(TrimSpace(line))
  {
    var i, j := TrimIsSlice(line);
    if IsRule(TrimSpace(line)) {
      forall k | i <= k < j
        ensures RuleCharacter(line[k])
      {
        assert TrimSpace(line)[k - i] == line[k];
      }
    }
    if a, b :| 0 <= a <= b <= |line| && AllSpace(line[..a]) && AllSpace(line[b..])
               && forall k :: a <= k < b ==> RuleCharacter(line[k]) {
      forall k | 0 <= k < |TrimSpace(line)|
        ensures RuleCharacter(TrimSpace(line)[k])
      {
        TrimmedIsInside(line, a, b, k);
      }
    }
  }

  lemma {:induction false} NoRowIs(lower: char -> char, line: string)
    ensures NoRow(lower, line) <==> Skipped(lower, line)
  {
    RuleLineIs(line);
    ContainsMeaning(Lower(lower, line), "package(s)");
  }

  /**
   A rule, a progress bar and the closing count give no entry; any other line gives exactly one, the cells of its
   columns, unless both name and id are empty.
   */
  lemma {:induction false} RowExact(lower: char -> char, layout: (Columns, seq<nat>), line: string)
    requires Increasing(layout.1)
    ensures var e := RowEntry(layout, line);
            ParseRow(lower, layout, line) == if NoRow(lower, line) || (e.name == "" && e.id == "") then [] else [e]
  {
    NoRowIs(lower, line);
  }

  /** In particular a line of dashes, underscores and blanks below a header is no package. */
  lemma {:induction false} DashesGiveNothing(lower: char -> char, layout: (Columns, seq<nat>), line: string)
    requires Increasing(layout.1) && forall k :: 0 <= k < |line| ==> line[k] == '-' || line[k] == '_' || line[k] == ' '
    ensures ParseRow(lower, layout, line) == []
  {
    assert AllSpace(line[..0]) && AllSpace(line[|line|..]);
    assert RuleLine(line);
    RowExact(lower, layout, line);
  }

  // ---------------------------------------------------------------- which lines are headers

  /** At least ten bytes, and the three titles somewhere in the line, in any case. */
  lemma {:induction false} HeaderMeaning(lower: char -> char, line: string)
    ensures var low := Lower(lower, TrimSpace(line));
            IsHeader(lower, line) <==>
              && ByteLen(low) >= 10 && (exists i: nat :: StandsAt(low, "name", i))
              && (exists i: nat :: StandsAt(low, "id", i)) && (exists i: nat :: StandsAt(low, "version", i))
  {
    var low := Lower(lower, TrimSpace(line));
    ContainsMeaning(low, "name");
    ContainsMeaning(low, "id");
    ContainsMeaning(low, "version");
  }

  lemma {:induction false} ByteLenOfAscii(s: string)
    requires forall i :: 0 <= i < |s| ==> s[i] < '\U{0080}'
    ensures ByteLen(s) == |s|
    decreases |s|
  {
    if s == "" {
    } else {
      ByteLenOfAscii(s[1..]);
    }
  }

  /** The words of the header are its fields. */
  lemma {:induction false} SpansAreFields(header: string, i: nat)
    requires i <= |header|
    ensures |Spans(header, i)| == |Fields(header[i..])|
    decreases |header| - i
  {
    if i == |header| {
    } else if IsSpace(header[i]) {
      assert header[i..][1..] == header[i + 1..];
      SpansAreFields(header, i + 1);
    } else {
      var n := WordLen(header[i..]);
      assert header[i..][n..] == header[i + n..];
      SpansAreFields(header, i + n);
    }
  }

  /** A header of fewer than three words gives nothing. */
  lemma {:induction false} ShortHeaderGivesNothing(lower: char -> char, header: string, below: seq<string>)
    requires |Fields(header)| < 3
    ensures ParseBelow(lower, header, below) == []
  {
    assert header[0..] == header;
    SpansAreFields(header, 0);
  }

  lemma {:induction false} CharacterOfEnding(s: string, x: string, k: nat)
    requires HasSuffix(s, x) && k < |x|
    ensures |x| <= |s| && s[|s| - 1 - k] == x[|x| - 1 - k]
  {
    assert s[|s| - |x|..][|x| - 1 - k] == s[|s| - 1 - k];
  }

  /** A word cannot have two endings that differ `k` characters before the end. */
  lemma {:induction false} EndingsDiffer(s: string, x: string, y: string, k: nat)
    requires HasSuffix(s, x) && k < |x| && k < |y| && x[|x| - 1 - k] != y[|y| - 1 - k]
    ensures !HasSuffix(s, y)
  {
    CharacterOfEnding(s, x, k);
    if HasSuffix(s, y) {
      CharacterOfEnding(s, y, k);
    }
  }

  /** Of two endings, at most one holds. */
  lemma {:induction false} OneEnding(word: string)
    ensures HasSuffix(word, "name") ==>
              !HasSuffix(word, "id") && !HasSuffix(word, "version") && !HasSuffix(word, "available")
    ensures HasSuffix(word, "name") ==> !HasSuffix(word, "source")
    ensures HasSuffix(word, "available") ==> !HasSuffix(word, "source")
  {
    if HasSuffix(word, "name") {
      EndingsDiffer(word, "name", "id", 0);
      EndingsDiffer(word, "name", "version", 0);
      EndingsDiffer(word, "name", "available", 1);
      EndingsDiffer(word, "name", "source", 1);
    }
    if HasSuffix(word, "available") {
      EndingsDiffer(word, "available", "source", 1);
    }
  }

  lemma {:induction false} OneShortEnding(word: string)
    ensures HasSuffix(word, "id") ==>
              !HasSuffix(word, "version") && !HasSuffix(word, "available") && !HasSuffix(word, "source")
    ensures HasSuffix(word, "version") ==> !HasSuffix(word, "available") && !HasSuffix(word, "source")
  {
    if HasSuffix(word, "id") {
      EndingsDiffer(word, "id", "version", 0);
      EndingsDiffer(word, "id", "available", 0);
      EndingsDiffer(word, "id", "source", 0);
    }
    if HasSuffix(word, "version") {
      EndingsDiffer(word, "version", "available", 0);
      EndingsDiffer(word, "version", "source", 0);
    }
  }

  /** A header word decides by how it ends, so "SearchName" is a name; other words decide nothing. */
  lemma {:induction false} EndingDecides(c: Columns, word: string, i: nat)
    ensures HasSuffix(word, "name") ==> Assign(c, word, i) == c.(name := i)
    ensures HasSuffix(word, "id") ==> Assign(c, word, i) == c.(id := i)
    ensures HasSuffix(word, "version") ==> Assign(c, word, i) == c.(version := i)
    ensures HasSuffix(word, "available") ==> Assign(c, word, i) == c.(available := i)
    ensures HasSuffix(word, "source") ==> Assign(c, word, i) == c.(source := i)
    ensures (forall title :: title in {"name", "id", "version", "available", "source"} ==> !HasSuffix(word, title))
            ==> Assign(c, word, i) == c
  {
    OneEnding(word);
    OneShortEnding(word);
  }

  /** Only the first five words count. */
  lemma {:induction false} FiveWordsCount(words: seq<string>, others: seq<string>)
    requires |words| >= 5 && |others| >= 5 && words[..5] == others[..5]
    ensures ColumnsOf(words, Min(|words|, 5)) == ColumnsOf(others, Min(|others|, 5)) == ColumnsOf(words[..5], 5)
  {
    SameColumns(words, words[..5], 5);
    SameColumns(others, others[..5], 5);
  }

  lemma {:induction false} SameColumns(words: seq<string>, others: seq<string>, n: nat)
    requires n <= |words| && n <= |others| && forall i :: 0 <= i < n ==> words[i] == others[i]
    ensures ColumnsOf(words, n) == ColumnsOf(others, n)
  {
    if n == 0 {
    } else {
      SameColumns(words, others, n - 1);
    }
  }
}
