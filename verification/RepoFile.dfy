/**
 DNF `.repo` files: sections of key=value lines.

 The scanner fills the fields of the section in progress and emits its repositories at the next
 section header or at the end of the file. `lower` stands for `strings.ToLower`.
 */
module RepoFile {
  import opened Options
  import opened Text
  import opened Repositories

  datatype Section = Section(
    id: string, name: string, baseurls: seq<string>, mirrorlist: string, metalink: string, enabled: Option<bool>)

  type Lowering = string -> string

  // ---------------------------------------------------------------- one section

  function OneUrl(url: string): seq<string> {
    if url != "" && IsValidRepoURL(url) then [url] else []
  }

  /** dnf.conf(5): base URLs in their order, then the metalink, then the mirror list. */
  function Urls(s: Section): seq<string> {
    Filter(s.baseurls, IsValidRepoURL) + OneUrl(s.metalink) + OneUrl(s.mirrorlist)
  }

  function Expand(s: Section): seq<Repository> {
    if s.enabled == Some(false) then [] else Records(s, Urls(s))
  }

  function Records(s: Section, urls: seq<string>): seq<Repository> {
    seq(|urls|, i requires 0 <= i < |urls| => Repository(s.id, urls[i], s.name, "", "rpm", true, IsSecureURL(urls[i])))
  }

  method ProcessRepoEntry(s: Section) returns (repositories: seq<Repository>)
    ensures repositories == Expand(s)
  {
    repositories := [];
    var isEnabled := true;
    if s.enabled.Some? {
      isEnabled := s.enabled.value;
    }
    if !isEnabled {
      return;
    }
    var urls := [];
    for i := 0 to |s.baseurls|
      invariant urls == Filter(s.baseurls[..i], IsValidRepoURL)
    {
      assert s.baseurls[..i + 1][..i] == s.baseurls[..i];
      if IsValidRepoURL(s.baseurls[i]) {
        urls := urls + [s.baseurls[i]];
      }
    }
    assert s.baseurls[..|s.baseurls|] == s.baseurls;
    if s.metalink != "" && IsValidRepoURL(s.metalink) {
      urls := urls + [s.metalink];
    }
    if s.mirrorlist != "" && IsValidRepoURL(s.mirrorlist) {
      urls := urls + [s.mirrorlist];
    }
    assert urls == Urls(s);
    for i := 0 to |urls|
      invariant repositories == Records(s, urls[..i])
    {
      repositories := repositories + [Repository(s.id, urls[i], s.name, "", "rpm", isEnabled, IsSecureURL(urls[i]))];
    }
    assert urls[..|urls|] == urls;
  }

  // ---------------------------------------------------------------- lines

  predicate IsHeader(line: string) { HasPrefix(line, "[") && HasSuffix(line, "]") }

  predicate IsIgnored(line: string) { line == "" || IsComment(line) }

  function TrimBrackets(s: string): string {
    if s != [] && (s[0] == '[' || s[0] == ']') then TrimBrackets(s[1..])
    else if s != [] && (s[|s| - 1] == '[' || s[|s| - 1] == ']') then TrimBrackets(s[..|s| - 1])
    else s
  }

  function Open(header: string): Section { Section(TrimBrackets(header), "", [], "", "", None) }

  function SetField(s: Section, line: string, lower: Lowering): Section {
    if '=' !in line then s
    else
      var (key, value) := KeyValue(line, '=');
      if key == "name" then s.(name := value)
      else if key == "baseurl" then s.(baseurls := s.baseurls + Fields(value))
      else if key == "mirrorlist" then s.(mirrorlist := value)
      else if key == "metalink" then s.(metalink := value)
      else if key == "enabled" then s.(enabled := Some(value == "1" || lower(value) == "true"))
      else s
  }

  // ---------------------------------------------------------------- the scanner

  datatype Scan = Scan(current: Option<Section>, repos: seq<Repository>)

  function Emit(current: Option<Section>): seq<Repository> {
    if current.None? then [] else Expand(current.value)
  }

  function Feed(sc: Scan, raw: string, lower: Lowering): Scan {
    var line := TrimSpace(raw);
    if IsIgnored(line) then sc
    else if IsHeader(line) then Scan(Some(Open(line)), sc.repos + Emit(sc.current))
    else if sc.current.None? then sc
    else sc.(current := Some(SetField(sc.current.value, line, lower)))
  }

  function FeedAll(sc: Scan, lines: seq<string>, lower: Lowering): Scan {
    if lines == [] then sc else Feed(FeedAll(sc, lines[..|lines| - 1], lower), lines[|lines| - 1], lower)
  }

  /** At the end of the file the section in progress is emitted. */
  function Close(sc: Scan): seq<Repository> { sc.repos + Emit(sc.current) }

  function Parse(lines: seq<string>, lower: Lowering): seq<Repository> {
    Close(FeedAll(Scan(None, []), lines, lower))
  }

  method ParseRepoFile(lines: seq<string>, lower: Lowering) returns (repositories: seq<Repository>)
    ensures repositories == Parse(lines, lower)
  {
    repositories := [];
    var current: Option<Section> := None;
    for i := 0 to |lines|
      invariant Scan(current, repositories) == FeedAll(Scan(None, []), lines[..i], lower)
    {
      assert lines[..i + 1][..i] == lines[..i];
      var line := TrimSpace(lines[i]);
      if line == "" || IsComment(line) {
        continue;
      }
      if IsHeader(line) {
        if current.Some? {
          var repos := ProcessRepoEntry(current.value);
          repositories := repositories + repos;
        }
        current := Some(Open(line));
        continue;
      }
      if current.None? {
        continue;
      }
      if '=' in line {
        var (key, value) := KeyValue(line, '=');
        var s := current.value;
        if key == "name" {
          s := s.(name := value);
        } else if key == "baseurl" {
          s := s.(baseurls := s.baseurls + Fields(value));
        } else if key == "mirrorlist" {
          s := s.(mirrorlist := value);
        } else if key == "metalink" {
          s := s.(metalink := value);
        } else if key == "enabled" {
          s := s.(enabled := Some(value == "1" || lower(value) == "true"));
        }
        current := Some(s);
      }
    }
    assert lines[..|lines|] == lines;
    if current.Some? {
      var repos := ProcessRepoEntry(current.value);
      repositories := repositories + repos;
    }
  }

  // ---------------------------------------------------------------- laws

  lemma {:induction false} FeedAppend(sc: Scan, a: seq<string>, b: seq<string>, lower: Lowering)
    ensures FeedAll(sc, a + b, lower) == FeedAll(FeedAll(sc, a, lower), b, lower)
    decreases |b|
  {
    if b == [] {
      assert a + b == a;
    } else {
      assert (a + b)[..|a + b| - 1] == a + b[..|b| - 1];
      FeedAppend(sc, a, b[..|b| - 1], lower);
    }
  }

  lemma {:induction false} HeaderIsRead(line: string)
    requires IsHeader(line)
    ensures !IsIgnored(line)
  {
    assert line[0] == "["[0] && "#"[0] == '#';
  }

  lemma {:induction false} FeedSingle(sc: Scan, line: string, lower: Lowering)
    ensures FeedAll(sc, [line], lower) == Feed(sc, line, lower)
  {
    assert [line][..0] == [];
  }

  function Behind(repos: seq<Repository>, sc: Scan): Scan { sc.(repos := repos + sc.repos) }

  lemma {:induction false} FeedOneBehind(repos: seq<Repository>, sc: Scan, raw: string, lower: Lowering)
    ensures Feed(Behind(repos, sc), raw, lower) == Behind(repos, Feed(sc, raw, lower))
  {
    Associates(repos, sc.repos, Emit(sc.current));
  }

  lemma {:induction false} FeedHeader(sc: Scan, header: string, lower: Lowering)
    requires IsHeader(TrimSpace(header))
    ensures Feed(sc, header, lower) == Behind(sc.repos + Emit(sc.current), Feed(Scan(None, []), header, lower))
  {
    HeaderIsRead(TrimSpace(header));
  }

  /** From a section header on, the lines are read as if they stood alone behind what has been emitted. */
  lemma {:induction false} FeedFromHeader(sc: Scan, lines: seq<string>, lower: Lowering)
    requires lines != [] && IsHeader(TrimSpace(lines[0]))
    ensures FeedAll(sc, lines, lower) == Behind(sc.repos + Emit(sc.current), FeedAll(Scan(None, []), lines, lower))
    decreases |lines|
  {
    var init, last := lines[..|lines| - 1], lines[|lines| - 1];
    if |lines| == 1 {
      assert lines == [last];
      FeedSingle(sc, last, lower);
      FeedSingle(Scan(None, []), last, lower);
      FeedHeader(sc, last, lower);
    } else {
      FeedFromHeader(sc, init, lower);
      FeedOneBehind(sc.repos + Emit(sc.current), FeedAll(Scan(None, []), init, lower), last, lower);
    }
  }

  lemma {:induction false} CloseBehind(repos: seq<Repository>, sc: Scan)
    ensures Close(Behind(repos, sc)) == repos + Close(sc)
  {
    Associates(repos, sc.repos, Emit(sc.current));
  }

  /** A file cut before a section header reads as its two parts, one after the other. */
  lemma {:induction false} ParseSplitsAtHeader(a: seq<string>, b: seq<string>, lower: Lowering)
    requires b != [] && IsHeader(TrimSpace(b[0]))
    ensures Parse(a + b, lower) == Parse(a, lower) + Parse(b, lower)
  {
    FeedAppend(Scan(None, []), a, b, lower);
    FeedFromHeader(FeedAll(Scan(None, []), a, lower), b, lower);
    CloseBehind(Parse(a, lower), FeedAll(Scan(None, []), b, lower));
  }

  /** Comments and blank lines change nothing, anywhere. */
  lemma {:induction false} IgnoredLines(a: seq<string>, ignored: string, b: seq<string>, lower: Lowering)
    requires IsIgnored(TrimSpace(ignored))
    ensures Parse(a + [ignored] + b, lower) == Parse(a + b, lower)
  {
    var start := Scan(None, []);
    FeedAppend(start, a + [ignored], b, lower);
    FeedAppend(start, a, [ignored], lower);
    FeedAppend(start, a, b, lower);
    FeedSingle(FeedAll(start, a, lower), ignored, lower);
  }

  /** Whatever stands before the first header is not read. */
  lemma {:induction false} NothingBeforeFirstHeader(lines: seq<string>, lower: Lowering)
    requires forall i :: 0 <= i < |lines| ==> !IsHeader(TrimSpace(lines[i]))
    ensures FeedAll(Scan(None, []), lines, lower) == Scan(None, []) && Parse(lines, lower) == []
    decreases |lines|
  {
    if lines == [] {
    } else {
      NothingBeforeFirstHeader(lines[..|lines| - 1], lower);
    }
  }

  /** The fields a section's lines leave behind. */
  function Body(s: Section, lines: seq<string>, lower: Lowering): Section {
    if lines == [] then s
    else
      var line := TrimSpace(lines[|lines| - 1]);
      var rest := Body(s, lines[..|lines| - 1], lower);
      if IsIgnored(line) then rest else SetField(rest, line, lower)
  }

  /** One section: its header and its lines give exactly the repositories of the fields they set. */
  lemma {:induction false} ParseOneSection(header: string, lines: seq<string>, lower: Lowering)
    requires IsHeader(TrimSpace(header))
    requires forall i :: 0 <= i < |lines| ==> !IsHeader(TrimSpace(lines[i]))
    ensures FeedAll(Scan(None, []), [header] + lines, lower)
            == Scan(Some(Body(Open(TrimSpace(header)), lines, lower)), [])
    ensures Parse([header] + lines, lower) == Expand(Body(Open(TrimSpace(header)), lines, lower))
    decreases |lines|
  {
    var start := Scan(None, []);
    HeaderIsRead(TrimSpace(header));
    if lines == [] {
      assert [header] + lines == [header] && [header][..0] == [];
      assert FeedAll(start, [header], lower) == Feed(FeedAll(start, [], lower), header, lower);
    } else {
      ParseOneSection(header, lines[..|lines| - 1], lower);
      FeedLast(start, header, lines, lower);
    }
  }

  lemma {:induction false} FeedLast(sc: Scan, header: string, lines: seq<string>, lower: Lowering)
    requires lines != []
    ensures FeedAll(sc, [header] + lines, lower)
            == Feed(FeedAll(sc, [header] + lines[..|lines| - 1], lower), lines[|lines| - 1], lower)
  {
    var all, front := [header] + lines, [header] + lines[..|lines| - 1];
    assert all[..|all| - 1] == front && all[|all| - 1] == lines[|lines| - 1];
    assert FeedAll(sc, all, lower) == Feed(FeedAll(sc, front, lower), all[|all| - 1], lower);
  }

  /** Every repository of a section is remote and enabled, and the base URLs come first. */
  lemma {:induction false} SectionUrls(s: Section)
    requires s.enabled != Some(false)
    ensures |Expand(s)| == |Urls(s)|
    ensures forall i :: 0 <= i < |Expand(s)| ==> IsValidRepoURL(Expand(s)[i].url) && Expand(s)[i].enabled
    ensures Filter(s.baseurls, IsValidRepoURL) <= Urls(s)
    ensures IsValidRepoURL(s.mirrorlist) ==> Urls(s) != [] && Urls(s)[|Urls(s)| - 1] == s.mirrorlist
  {
    ValidOnly(s.baseurls);
    assert !IsValidRepoURL("");
    forall i | 0 <= i < |Urls(s)|
      ensures IsValidRepoURL(Urls(s)[i])
    {
      if i < |Filter(s.baseurls, IsValidRepoURL)| {
        assert Urls(s)[i] == Filter(s.baseurls, IsValidRepoURL)[i];
      }
    }
  }

  lemma {:induction false} ValidOnly(urls: seq<string>)
    ensures forall i :: 0 <= i < |Filter(urls, IsValidRepoURL)| ==> IsValidRepoURL(Filter(urls, IsValidRepoURL)[i])
  {
    if urls == [] {
    } else {
      ValidOnly(urls[..|urls| - 1]);
    }
  }

  // ---------------------------------------------------------------- what the lines of a section say

  lemma {:induction false} KeyValueOf(key: string, value: string, c: char)
    requires c !in key && Trimmed(key) && Trimmed(value)
    ensures KeyValue(key + [c] + value, c) == (key, value)
  {
    var line := key + [c] + value;
    assert line[|key|] == c && forall i :: 0 <= i < |key| ==> line[i] == key[i];
    assert Find(line, c) == |key|;
    assert line[..|key|] == key && line[|key| + 1..] == value;
    TrimmedStays(key);
    TrimmedStays(value);
  }

  /** Each of the five keys sets its own field, base URLs add up, and other keys set nothing. */
  lemma {:induction false} FieldLine(s: Section, key: string, value: string, lower: Lowering)
    requires '=' !in key && Trimmed(key) && Trimmed(value)
    ensures var line := key + ['='] + value;
            SetField(s, line, lower)
            == match key
               case "name" => Section(s.id, value, s.baseurls, s.mirrorlist, s.metalink, s.enabled)
               case "baseurl" => Section(s.id, s.name, s.baseurls + Fields(value), s.mirrorlist, s.metalink, s.enabled)
               case "mirrorlist" => Section(s.id, s.name, s.baseurls, value, s.metalink, s.enabled)
               case "metalink" => Section(s.id, s.name, s.baseurls, s.mirrorlist, value, s.enabled)
               case "enabled" => Section(s.id, s.name, s.baseurls, s.mirrorlist, s.metalink,
                                         Some(value == "1" || lower(value) == "true"))
               case _ => s
  {
    KeyValueOf(key, value, '=');
    assert (key + ['='] + value)[|key|] == '=';
  }

  /** A line without an equals sign sets nothing. */
  lemma {:induction false} OtherLine(s: Section, line: string, lower: Lowering)
    requires '=' !in line
    ensures SetField(s, line, lower) == s
  {}

  /** A header starts with an opening bracket and ends with a closing one. */
  lemma {:induction false} HeaderLines(line: string)
    ensures IsHeader(line) <==> line != "" && line[0] == '[' && line[|line| - 1] == ']'
    ensures IsIgnored(line) <==> line == "" || line[0] == '#'
  {}

  /** The id of a section stands between the brackets of its header, and nothing is set yet. */
  lemma {:induction false} HeaderNames(id: string)
    requires '[' !in id && ']' !in id
    ensures Open("[" + id + "]") == Section(id, "", [], "", "", None)
  {
    var header := "[" + id + "]";
    assert header[1..] == id + "]";
    TrimClosing(id);
  }

  lemma {:induction false} TrimClosing(id: string)
    requires '[' !in id && ']' !in id
    ensures TrimBrackets(id + "]") == id
  {
    var s := id + "]";
    NoBrackets(id);
    if id == "" {
      assert s[1..] == "";
    } else {
      assert s[0] == id[0] && id[0] in id;
      assert s[..|s| - 1] == id;
    }
  }

  lemma {:induction false} NoBrackets(id: string)
    requires '[' !in id && ']' !in id
    ensures TrimBrackets(id) == id
  {
    assert id != "" ==> id[0] in id && id[|id| - 1] in id;
  }

  /**
   Exactly what a section gives: nothing when it is switched off; else one enabled rpm repository for each remote base
   URL, then for the metalink, then for the mirror list, if those are remote.
   */
  lemma {:induction false} SectionExact(s: Section)
    ensures s.enabled == Some(false) ==> Expand(s) == []
    ensures s.enabled != Some(false) ==>
              var urls := Filter(s.baseurls, IsValidRepoURL)
                          + (if IsValidRepoURL(s.metalink) then [s.metalink] else [])
                          + (if IsValidRepoURL(s.mirrorlist) then [s.mirrorlist] else []);
              && |Expand(s)| == |urls|
              && forall i :: 0 <= i < |urls| ==>
                   Expand(s)[i] == Repository(s.id, urls[i], s.name, "", "rpm", true, "https://" <= urls[i])
  {
    assert !IsValidRepoURL("");
  }
}
