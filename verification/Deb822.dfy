/**
 APT sources: stanzas in DEB822 form, and one-line entries.

 The scanner keeps the stanza read so far in a mutable map and emits repositories when a blank line or
 the end of the file closes it. `Parse` is what the loop computes. The laws say that it works stanza by
 stanza, and what one stanza yields.
 `nameOf` stands for the naming of a repository, from the given name, URI, suite and components.
 */
module Deb822 {
  import opened Options
  import opened Text
  import opened Repositories

  type Stanza = map<string, string>

  type Naming = (string, string, string, string) -> string

  const DEB := "deb"
  const DEB_SRC := "deb-src"

  function Get(entry: Stanza, key: string): string {
    if key in entry then entry[key] else ""
  }

  /** sources.list(5): an exact path has no components, a distribution has some. */
  predicate IsValidSuiteComponents(suite: string, components: string) {
    HasSuffix(suite, "/") <==> components == ""
  }

  // ---------------------------------------------------------------- one stanza

  function Types(entry: Stanza): seq<string> {
    var types := Fields(Get(entry, "Types"));
    if |types| == 0 then [DEB] else types
  }

  predicate Supported(repoType: string) { repoType == DEB || repoType == DEB_SRC }

  predicate Disables(value: string) { value == "no" || value == "false" }

  predicate IsEnabled(entry: Stanza) { !Disables(Get(entry, "Enabled")) }

  function RepoOf(entry: Stanza, nameOf: Naming, repoType: string, uri: string, suite: string): Repository {
    var components := Get(entry, "Components");
    Repository(nameOf(Get(entry, "X-Repolib-Name"), uri, suite, components), uri, suite, components, repoType,
               IsEnabled(entry), IsSecureURL(uri))
  }

  function ForSuites(entry: Stanza, nameOf: Naming, repoType: string, uri: string,
                     suites: seq<string>): seq<Repository> {
    seq(|suites|, i requires 0 <= i < |suites| => RepoOf(entry, nameOf, repoType, uri, suites[i]))
  }

  function ForUris(entry: Stanza, nameOf: Naming, repoType: string, uris: seq<string>,
                   suites: seq<string>): seq<Repository> {
    if uris == [] then []
    else ForUris(entry, nameOf, repoType, uris[..|uris| - 1], suites)
         + ForSuites(entry, nameOf, repoType, uris[|uris| - 1], suites)
  }

  function ForTypes(entry: Stanza, nameOf: Naming, types: seq<string>, uris: seq<string>,
                    suites: seq<string>): seq<Repository> {
    if types == [] then []
    else ForTypes(entry, nameOf, types[..|types| - 1], uris, suites)
         + ForUris(entry, nameOf, types[|types| - 1], uris, suites)
  }

  function UsableTypes(entry: Stanza): seq<string> { Filter(Types(entry), Supported) }

  function UsableUris(entry: Stanza): seq<string> { Filter(Fields(Get(entry, "URIs")), IsValidRepoURL) }

  function SuiteRule(components: string): string -> bool {
    suite => IsValidSuiteComponents(suite, components)
  }

  function UsableSuites(entry: Stanza): seq<string> {
    Filter(Fields(Get(entry, "Suites")), SuiteRule(Get(entry, "Components")))
  }

  /** Every usable combination, in nested order: types, then URIs, then suites. */
  function Expand(entry: Stanza, nameOf: Naming): seq<Repository> {
    ForTypes(entry, nameOf, UsableTypes(entry), UsableUris(entry), UsableSuites(entry))
  }

  method ProcessEntry(entry: Stanza, nameOf: Naming) returns (repositories: seq<Repository>)
    ensures repositories == Expand(entry, nameOf)
  {
    if Get(entry, "URIs") == "" || Get(entry, "Suites") == "" {
      ExpandNothing(entry, nameOf);
      return [];
    }
    var typeList := Fields(Get(entry, "Types"));
    if |typeList| == 0 {
      typeList := [DEB];
    }
    repositories := ProcessTypes(entry, nameOf, typeList);
  }

  /** The loops over types, URIs and suites, one method each. */
  method ProcessTypes(entry: Stanza, nameOf: Naming, typeList: seq<string>) returns (repositories: seq<Repository>)
    ensures repositories == ForTypes(entry, nameOf, Filter(typeList, Supported), UsableUris(entry), UsableSuites(entry))
  {
    repositories := [];
    for t := 0 to |typeList|
      invariant repositories == ForTypes(entry, nameOf, Filter(typeList[..t], Supported), UsableUris(entry),
                  UsableSuites(entry))
    {
      FilterStep(typeList, t, Supported);
      if typeList[t] != DEB && typeList[t] != DEB_SRC {
        continue;
      }
      var forType := ProcessUris(entry, nameOf, typeList[t], Fields(Get(entry, "URIs")));
      TypesStep(entry, nameOf, Filter(typeList[..t], Supported), typeList[t], UsableUris(entry), UsableSuites(entry));
      repositories := repositories + forType;
    }
    assert typeList[..|typeList|] == typeList;
  }

  method ProcessUris(entry: Stanza, nameOf: Naming, repoType: string, uriList: seq<string>)
    returns (repositories: seq<Repository>)
    ensures repositories == ForUris(entry, nameOf, repoType, Filter(uriList, IsValidRepoURL), UsableSuites(entry))
  {
    repositories := [];
    for u := 0 to |uriList|
      invariant repositories == ForUris(entry, nameOf, repoType, Filter(uriList[..u], IsValidRepoURL),
                  UsableSuites(entry))
    {
      FilterStep(uriList, u, IsValidRepoURL);
      if !IsValidRepoURL(uriList[u]) {
        continue;
      }
      var forUri := ProcessSuites(entry, nameOf, repoType, uriList[u], Fields(Get(entry, "Suites")));
      UrisStep(entry, nameOf, repoType, Filter(uriList[..u], IsValidRepoURL), uriList[u], UsableSuites(entry));
      repositories := repositories + forUri;
    }
    assert uriList[..|uriList|] == uriList;
  }

  method ProcessSuites(entry: Stanza, nameOf: Naming, repoType: string, uri: string, suiteList: seq<string>)
    returns (repositories: seq<Repository>)
    requires forall i :: 0 <= i < |suiteList| ==> suiteList[i] != ""
    ensures var usable := Filter(suiteList, SuiteRule(Get(entry, "Components")));
            repositories == ForSuites(entry, nameOf, repoType, uri, usable)
  {
    var rule := SuiteRule(Get(entry, "Components"));
    repositories := [];
    for s := 0 to |suiteList|
      invariant repositories == ForSuites(entry, nameOf, repoType, uri, Filter(suiteList[..s], rule))
    {
      FilterStep(suiteList, s, rule);
      if suiteList[s] == "" || !IsValidSuiteComponents(suiteList[s], Get(entry, "Components")) {
        continue;
      }
      SuitesSnoc(entry, nameOf, repoType, uri, Filter(suiteList[..s], rule), suiteList[s]);
      repositories := repositories + [RepoOf(entry, nameOf, repoType, uri, suiteList[s])];
    }
    assert suiteList[..|suiteList|] == suiteList;
  }

  lemma {:induction false} SuitesSnoc(entry: Stanza, nameOf: Naming, repoType: string, uri: string, suites: seq<string>,
                                      suite: string)
    ensures ForSuites(entry, nameOf, repoType, uri, suites + [suite])
            == ForSuites(entry, nameOf, repoType, uri, suites) + [RepoOf(entry, nameOf, repoType, uri, suite)]
  {}

  lemma {:induction false} FilterStep(xs: seq<string>, i: nat, keep: string -> bool)
    requires i < |xs|
    ensures Filter(xs[..i + 1], keep) == if keep(xs[i]) then Filter(xs[..i], keep) + [xs[i]] else Filter(xs[..i], keep)
  {
    assert xs[..i + 1][..i] == xs[..i];
  }

  lemma {:induction false} UrisStep(entry: Stanza, nameOf: Naming, repoType: string, uris: seq<string>, uri: string,
                                    suites: seq<string>)
    ensures ForUris(entry, nameOf, repoType, uris + [uri], suites)
            == ForUris(entry, nameOf, repoType, uris, suites) + ForSuites(entry, nameOf, repoType, uri, suites)
  {
    assert (uris + [uri])[..|uris|] == uris;
  }

  lemma {:induction false} TypesStep(entry: Stanza, nameOf: Naming, types: seq<string>, repoType: string,
                                     uris: seq<string>, suites: seq<string>)
    ensures ForTypes(entry, nameOf, types + [repoType], uris, suites)
            == ForTypes(entry, nameOf, types, uris, suites) + ForUris(entry, nameOf, repoType, uris, suites)
  {
    assert (types + [repoType])[..|types|] == types;
  }

  lemma {:induction false} ExpandNothing(entry: Stanza, nameOf: Naming)
    requires Get(entry, "URIs") == "" || Get(entry, "Suites") == ""
    ensures Expand(entry, nameOf) == []
  {
    assert Fields("") == [];
    StanzaCount(entry, nameOf);
    assert UsableUris(entry) == [] || UsableSuites(entry) == [];
    ZeroProduct(|UsableTypes(entry)|, |UsableUris(entry)|, |UsableSuites(entry)|);
  }

  lemma {:induction false} ZeroProduct(a: nat, b: nat, c: nat)
    requires b == 0 || c == 0
    ensures a * (b * c) == 0
  {}

  lemma {:induction false} ForUrisCount(entry: Stanza, nameOf: Naming, repoType: string, uris: seq<string>,
                                        suites: seq<string>)
    ensures |ForUris(entry, nameOf, repoType, uris, suites)| == |uris| * |suites|
    decreases |uris|
  {
    if uris == [] {
    } else {
      ForUrisCount(entry, nameOf, repoType, uris[..|uris| - 1], suites);
      assert |uris| * |suites| == (|uris| - 1) * |suites| + |suites|;
    }
  }

  lemma {:induction false} ForTypesCount(entry: Stanza, nameOf: Naming, types: seq<string>, uris: seq<string>,
                                         suites: seq<string>)
    ensures |ForTypes(entry, nameOf, types, uris, suites)| == |types| * (|uris| * |suites|)
    decreases |types|
  {
    if types == [] {
    } else {
      ForTypesCount(entry, nameOf, types[..|types| - 1], uris, suites);
      ForUrisCount(entry, nameOf, types[|types| - 1], uris, suites);
      var n := |uris| * |suites|;
      assert |types| * n == (|types| - 1) * n + n;
    }
  }

  lemma {:induction false} FilterExact(xs: seq<string>, keep: string -> bool)
    ensures forall x :: x in Filter(xs, keep) <==> x in xs && keep(x)
  {
    if xs == [] {
    } else {
      FilterExact(xs[..|xs| - 1], keep);
      assert xs == xs[..|xs| - 1] + [xs[|xs| - 1]];
    }
  }

  /** A stanza yields one repository per supported type, valid URI and valid suite. */
  lemma {:induction false} StanzaCount(entry: Stanza, nameOf: Naming)
    ensures |Expand(entry, nameOf)| == |UsableTypes(entry)| * (|UsableUris(entry)| * |UsableSuites(entry)|)
  {
    ForTypesCount(entry, nameOf, UsableTypes(entry), UsableUris(entry), UsableSuites(entry));
  }

  lemma {:induction false} UrisPrefix(entry: Stanza, nameOf: Naming, repoType: string, uris: seq<string>,
                                      suites: seq<string>, u: nat)
    requires u <= |uris|
    ensures ForUris(entry, nameOf, repoType, uris[..u], suites) <= ForUris(entry, nameOf, repoType, uris, suites)
    decreases |uris|
  {
    if u < |uris| {
      var init := uris[..|uris| - 1];
      assert init[..u] == uris[..u];
      UrisPrefix(entry, nameOf, repoType, init, suites, u);
    } else {
      assert uris[..u] == uris;
    }
  }

  lemma {:induction false} TypesPrefix(entry: Stanza, nameOf: Naming, types: seq<string>, uris: seq<string>,
                                       suites: seq<string>, t: nat)
    requires t <= |types|
    ensures ForTypes(entry, nameOf, types[..t], uris, suites) <= ForTypes(entry, nameOf, types, uris, suites)
    decreases |types|
  {
    if t < |types| {
      var init := types[..|types| - 1];
      assert init[..t] == types[..t];
      TypesPrefix(entry, nameOf, init, uris, suites, t);
    } else {
      assert types[..t] == types;
    }
  }

  lemma {:induction false} UrisOrder(entry: Stanza, nameOf: Naming, repoType: string, uris: seq<string>,
                                     suites: seq<string>, u: nat, s: nat)
    requires u < |uris| && s < |suites|
    ensures var all := ForUris(entry, nameOf, repoType, uris, suites);
            var at := |ForUris(entry, nameOf, repoType, uris[..u], suites)| + s;
            at < |all| && all[at] == RepoOf(entry, nameOf, repoType, uris[u], suites[s])
  {
    var before := ForUris(entry, nameOf, repoType, uris[..u], suites);
    var here := ForSuites(entry, nameOf, repoType, uris[u], suites);
    assert uris[..u + 1] == uris[..u] + [uris[u]];
    UrisStep(entry, nameOf, repoType, uris[..u], uris[u], suites);
    UrisPrefix(entry, nameOf, repoType, uris, suites, u + 1);
    InPrefix(before, here, ForUris(entry, nameOf, repoType, uris, suites), s);
  }

  lemma {:induction false} InPrefix(a: seq<Repository>, b: seq<Repository>, all: seq<Repository>, i: nat)
    requires a + b <= all && i < |b|
    ensures |a| + i < |all| && all[|a| + i] == b[i]
  {
    assert (a + b)[|a| + i] == b[i];
  }

  lemma {:induction false} EarlierTypes(entry: Stanza, nameOf: Naming, types: seq<string>, uris: seq<string>,
                                        suites: seq<string>, t: nat)
    requires t < |types|
    ensures ForTypes(entry, nameOf, types[..t], uris, suites) + ForUris(entry, nameOf, types[t], uris, suites)
            <= ForTypes(entry, nameOf, types, uris, suites)
  {
    assert types[..t + 1] == types[..t] + [types[t]];
    TypesStep(entry, nameOf, types[..t], types[t], uris, suites);
    TypesPrefix(entry, nameOf, types, uris, suites, t + 1);
  }

  /**
   The nested order: suite s of URI u is number u * |suites| + s of its type, and behind it stand t times as many as
   each type has.
   */
  lemma {:induction false} StanzaOrder(entry: Stanza, nameOf: Naming, types: seq<string>, uris: seq<string>,
                                       suites: seq<string>, t: nat, u: nat, s: nat, perType: nat, inType: nat)
    requires t < |types| && u < |uris| && s < |suites|
    requires perType == |uris| * |suites| && inType == u * |suites| + s
    ensures t * perType + inType < |ForTypes(entry, nameOf, types, uris, suites)|
    ensures ForTypes(entry, nameOf, types, uris, suites)[t * perType + inType]
            == RepoOf(entry, nameOf, types[t], uris[u], suites[s])
  {
    UriAt(entry, nameOf, types[t], uris, suites, u, s, inType);
    TypeAt(entry, nameOf, types, uris, suites, t, inType, perType);
  }

  lemma {:induction false} UriAt(entry: Stanza, nameOf: Naming, repoType: string, uris: seq<string>,
                                 suites: seq<string>, u: nat, s: nat, at: nat)
    requires u < |uris| && s < |suites| && at == u * |suites| + s
    ensures at < |ForUris(entry, nameOf, repoType, uris, suites)|
    ensures ForUris(entry, nameOf, repoType, uris, suites)[at] == RepoOf(entry, nameOf, repoType, uris[u], suites[s])
  {
    UrisOrder(entry, nameOf, repoType, uris, suites, u, s);
    ForUrisCount(entry, nameOf, repoType, uris[..u], suites);
  }

  lemma {:induction false} TypeAt(entry: Stanza, nameOf: Naming, types: seq<string>, uris: seq<string>,
                                  suites: seq<string>, t: nat, i: nat, perType: nat)
    requires t < |types| && i < |ForUris(entry, nameOf, types[t], uris, suites)| && perType == |uris| * |suites|
    ensures t * perType + i < |ForTypes(entry, nameOf, types, uris, suites)|
    ensures ForTypes(entry, nameOf, types, uris, suites)[t * perType + i]
            == ForUris(entry, nameOf, types[t], uris, suites)[i]
  {
    TypesOrder(entry, nameOf, types, uris, suites, t, i);
    ForTypesCount(entry, nameOf, types[..t], uris, suites);
  }

  lemma {:induction false} TypesOrder(entry: Stanza, nameOf: Naming, types: seq<string>, uris: seq<string>,
                                      suites: seq<string>, t: nat, i: nat)
    requires t < |types| && i < |ForUris(entry, nameOf, types[t], uris, suites)|
    ensures var all := ForTypes(entry, nameOf, types, uris, suites);
            var at := |ForTypes(entry, nameOf, types[..t], uris, suites)| + i;
            at < |all| && all[at] == ForUris(entry, nameOf, types[t], uris, suites)[i]
  {
    EarlierTypes(entry, nameOf, types, uris, suites, t);
    InPrefix(ForTypes(entry, nameOf, types[..t], uris, suites), ForUris(entry, nameOf, types[t], uris, suites),
             ForTypes(entry, nameOf, types, uris, suites), i);
  }

  lemma {:induction false} UrisSound(entry: Stanza, nameOf: Naming, repoType: string, uris: seq<string>,
                                     suites: seq<string>, r: Repository)
    requires r in ForUris(entry, nameOf, repoType, uris, suites)
    ensures exists u, s | u in uris && s in suites :: r == RepoOf(entry, nameOf, repoType, u, s)
    decreases |uris|
  {
    var init, last := uris[..|uris| - 1], uris[|uris| - 1];
    var here := ForSuites(entry, nameOf, repoType, last, suites);
    if r in here {
      var i :| 0 <= i < |here| && here[i] == r;
      assert last in uris && suites[i] in suites;
    } else {
      UrisSound(entry, nameOf, repoType, init, suites, r);
      var u, s :| u in init && s in suites && r == RepoOf(entry, nameOf, repoType, u, s);
      assert u in uris;
    }
  }

  lemma {:induction false} TypesSound(entry: Stanza, nameOf: Naming, types: seq<string>, uris: seq<string>,
                                      suites: seq<string>, r: Repository)
    requires r in ForTypes(entry, nameOf, types, uris, suites)
    ensures exists t, u, s | t in types && u in uris && s in suites :: r == RepoOf(entry, nameOf, t, u, s)
    decreases |types|
  {
    var init, last := types[..|types| - 1], types[|types| - 1];
    if r in ForTypes(entry, nameOf, init, uris, suites) {
      TypesSound(entry, nameOf, init, uris, suites, r);
      var t, u, s :| t in init && u in uris && s in suites && r == RepoOf(entry, nameOf, t, u, s);
      assert t in types;
    } else {
      UrisSound(entry, nameOf, last, uris, suites, r);
      assert last in types;
    }
  }

  /** Every repository of a stanza obeys the suite rule and comes from a usable type, URI and suite. */
  lemma {:induction false} StanzaSound(entry: Stanza, nameOf: Naming, r: Repository)
    requires r in Expand(entry, nameOf)
    ensures IsValidSuiteComponents(r.distribution, r.components) && r.components == Get(entry, "Components")
    ensures r.repoType in Types(entry) && Supported(r.repoType)
    ensures r.url in Fields(Get(entry, "URIs")) && IsValidRepoURL(r.url) && (r.secure <==> IsSecureURL(r.url))
    ensures r.distribution in Fields(Get(entry, "Suites"))
  {
    FilterExact(Types(entry), Supported);
    FilterExact(Fields(Get(entry, "URIs")), IsValidRepoURL);
    FilterExact(Fields(Get(entry, "Suites")), SuiteRule(Get(entry, "Components")));
    TypesSound(entry, nameOf, UsableTypes(entry), UsableUris(entry), UsableSuites(entry), r);
  }

  // ---------------------------------------------------------------- the scanner

  /** The stanza in progress, if any field has been read, and what has been emitted. */
  datatype Scan = Scan(current: Option<Stanza>, repos: seq<Repository>)

  function Emit(current: Option<Stanza>, nameOf: Naming): seq<Repository> {
    if current.None? then [] else Expand(current.value, nameOf)
  }

  function AddField(current: Option<Stanza>, line: string): Option<Stanza>
    requires ':' in line
  {
    var (key, value) := KeyValue(line, ':');
    Some((if current.None? then map[] else current.value)[key := value])
  }

  predicate IsBlank(raw: string) { TrimSpace(raw) == "" }

  function Feed(sc: Scan, raw: string, nameOf: Naming): Scan {
    var line := TrimSpace(raw);
    if IsComment(line) then sc
    else if line == "" then Scan(None, sc.repos + Emit(sc.current, nameOf))
    else if ':' in line then sc.(current := AddField(sc.current, line))
    else sc
  }

  function FeedAll(sc: Scan, lines: seq<string>, nameOf: Naming): Scan {
    if lines == [] then sc else Feed(FeedAll(sc, lines[..|lines| - 1], nameOf), lines[|lines| - 1], nameOf)
  }

  /** At the end of the file the stanza in progress is emitted. */
  function Close(sc: Scan, nameOf: Naming): seq<Repository> { sc.repos + Emit(sc.current, nameOf) }

  function Parse(lines: seq<string>, nameOf: Naming): seq<Repository> {
    Close(FeedAll(Scan(None, []), lines, nameOf), nameOf)
  }

  method ParseDEB822Sources(lines: seq<string>, nameOf: Naming) returns (repositories: seq<Repository>)
    ensures repositories == Parse(lines, nameOf)
  {
    repositories := [];
    var currentEntry: Option<Stanza> := None;
    for i := 0 to |lines|
      invariant Scan(currentEntry, repositories) == FeedAll(Scan(None, []), lines[..i], nameOf)
    {
      assert lines[..i + 1][..i] == lines[..i];
      var line := TrimSpace(lines[i]);
      if IsComment(line) {
        continue;
      }
      if line == "" {
        if currentEntry.Some? {
          var repos := ProcessEntry(currentEntry.value, nameOf);
          repositories := repositories + repos;
          currentEntry := None;
        }
        continue;
      }
      if ':' in line {
        if currentEntry.None? {
          currentEntry := Some(map[]);
        }
        var (key, value) := KeyValue(line, ':');
        currentEntry := Some(currentEntry.value[key := value]);
      }
    }
    assert lines[..|lines|] == lines;
    if currentEntry.Some? {
      var repos := ProcessEntry(currentEntry.value, nameOf);
      repositories := repositories + repos;
    }
  }

  // ---------------------------------------------------------------- laws of the scanner

  lemma {:induction false} FeedAppend(sc: Scan, a: seq<string>, b: seq<string>, nameOf: Naming)
    ensures FeedAll(sc, a + b, nameOf) == FeedAll(FeedAll(sc, a, nameOf), b, nameOf)
    decreases |b|
  {
    if b == [] {
      assert a + b == a;
    } else {
      assert (a + b)[..|a + b| - 1] == a + b[..|b| - 1];
      FeedAppend(sc, a, b[..|b| - 1], nameOf);
    }
  }

  /** What has been emitted before does not influence the rest. */
  lemma {:induction false} FeedBehind(sc: Scan, lines: seq<string>, nameOf: Naming)
    ensures FeedAll(sc, lines, nameOf) == Behind(sc.repos, FeedAll(Scan(sc.current, []), lines, nameOf))
    decreases |lines|
  {
    if lines == [] {
    } else {
      FeedBehind(sc, lines[..|lines| - 1], nameOf);
      FeedOneBehind(sc.repos, FeedAll(Scan(sc.current, []), lines[..|lines| - 1], nameOf), lines[|lines| - 1], nameOf);
    }
  }

  function Behind(repos: seq<Repository>, sc: Scan): Scan { sc.(repos := repos + sc.repos) }

  lemma {:induction false} FeedOneBehind(repos: seq<Repository>, sc: Scan, raw: string, nameOf: Naming)
    ensures Feed(Behind(repos, sc), raw, nameOf) == Behind(repos, Feed(sc, raw, nameOf))
  {
    Associates(repos, sc.repos, Emit(sc.current, nameOf));
  }

  lemma {:induction false} FeedSingle(sc: Scan, line: string, nameOf: Naming)
    ensures FeedAll(sc, [line], nameOf) == Feed(sc, line, nameOf)
  {
    assert [line][..0] == [];
  }

  /** A blank line ends the stanza: what follows is read from a scan that holds what the text so far gives. */
  lemma {:induction false} FeedPastBlankLine(a: seq<string>, blank: string, b: seq<string>, nameOf: Naming)
    requires IsBlank(blank)
    ensures FeedAll(Scan(None, []), a + [blank] + b, nameOf) == FeedAll(Scan(None, Parse(a, nameOf)), b, nameOf)
  {
    var start := Scan(None, []);
    FeedAppend(start, a + [blank], b, nameOf);
    FeedAppend(start, a, [blank], nameOf);
    FeedSingle(FeedAll(start, a, nameOf), blank, nameOf);
  }

  lemma {:induction false} CloseBehind(repos: seq<Repository>, sc: Scan, nameOf: Naming)
    ensures Close(Behind(repos, sc), nameOf) == repos + Close(sc, nameOf)
  {
    Associates(repos, sc.repos, Emit(sc.current, nameOf));
  }

  /**
   The repositories of two texts with a blank line between them are those of the first and then those of the
   second.
   */
  lemma {:induction false} ParseSplitsAtBlankLine(a: seq<string>, blank: string, b: seq<string>, nameOf: Naming)
    requires IsBlank(blank)
    ensures Parse(a + [blank] + b, nameOf) == Parse(a, nameOf) + Parse(b, nameOf)
  {
    var first := Parse(a, nameOf);
    FeedPastBlankLine(a, blank, b, nameOf);
    FeedBehind(Scan(None, first), b, nameOf);
    CloseBehind(first, FeedAll(Scan(None, []), b, nameOf), nameOf);
  }

  /** Comment lines change nothing, anywhere. */
  lemma {:induction false} CommentsIgnored(a: seq<string>, comment: string, b: seq<string>, nameOf: Naming)
    requires IsComment(TrimSpace(comment))
    ensures Parse(a + [comment] + b, nameOf) == Parse(a + b, nameOf)
  {
    var start := Scan(None, []);
    FeedAppend(start, a + [comment], b, nameOf);
    FeedAppend(start, a, [comment], nameOf);
    FeedAppend(start, a, b, nameOf);
    FeedSingle(FeedAll(start, a, nameOf), comment, nameOf);
  }

  /** A blank line at the end changes nothing. */
  lemma {:induction false} TrailingBlankLine(a: seq<string>, blank: string, nameOf: Naming)
    requires IsBlank(blank)
    ensures Parse(a + [blank], nameOf) == Parse(a, nameOf)
  {
    ParseSplitsAtBlankLine(a, blank, [], nameOf);
    assert a + [blank] + [] == a + [blank];
    assert Parse([], nameOf) == [];
  }

  /** Further blank lines behind a blank line change nothing. */
  lemma {:induction false} ExtraBlankLinesIgnored(a: seq<string>, blank: string, more: string, b: seq<string>,
                                                  nameOf: Naming)
    requires IsBlank(blank) && IsBlank(more)
    ensures Parse(a + [blank] + [more] + b, nameOf) == Parse(a + [blank] + b, nameOf)
  {
    ParseSplitsAtBlankLine(a + [blank], more, b, nameOf);
    TrailingBlankLine(a, blank, nameOf);
    ParseSplitsAtBlankLine(a, blank, b, nameOf);
  }

  /** The fields of a paragraph, the last of equal names winning; None if no line is a field. */
  function FieldsOf(paragraph: seq<string>): Option<Stanza> {
    if paragraph == [] then None
    else
      var line := TrimSpace(paragraph[|paragraph| - 1]);
      var rest := FieldsOf(paragraph[..|paragraph| - 1]);
      if IsComment(line) || ':' !in line then rest else AddField(rest, line)
  }

  /** Paragraphs: the runs of lines between blank lines. */
  function Paragraphs(lines: seq<string>): (ps: seq<seq<string>>)
    ensures |ps| > 0
  {
    if lines == [] then [[]]
    else
      var ps := Paragraphs(lines[..|lines| - 1]);
      var last := lines[|lines| - 1];
      if IsBlank(last) then ps + [[]] else ps[..|ps| - 1] + [ps[|ps| - 1] + [last]]
  }

  function ExpandAll(ps: seq<seq<string>>, nameOf: Naming): seq<Repository> {
    if ps == [] then [] else ExpandAll(ps[..|ps| - 1], nameOf) + Emit(FieldsOf(ps[|ps| - 1]), nameOf)
  }

  /** The scanner computes the paragraph-by-paragraph reading of the file. */
  lemma {:induction false} ParseIsByParagraph(lines: seq<string>, nameOf: Naming)
    ensures Parse(lines, nameOf) == ExpandAll(Paragraphs(lines), nameOf)
    ensures var ps := Paragraphs(lines);
            FeedAll(Scan(None, []), lines, nameOf) == Scan(FieldsOf(ps[|ps| - 1]), ExpandAll(ps[..|ps| - 1], nameOf))
    decreases |lines|
  {
    if lines == [] {
    } else {
      var init, last := lines[..|lines| - 1], lines[|lines| - 1];
      ParseIsByParagraph(init, nameOf);
      var ps, qs := Paragraphs(init), Paragraphs(lines);
      if IsBlank(last) {
        assert qs[..|qs| - 1] == ps;
      } else {
        assert qs[..|qs| - 1] == ps[..|ps| - 1];
        assert qs[|qs| - 1][..|qs[|qs| - 1]| - 1] == ps[|ps| - 1];
      }
    }
  }

  // ---------------------------------------------------------------- exactly the repositories of a stanza

  predicate Combination(entry: Stanza, t: string, u: string, s: string) {
    var types, components := Fields(Get(entry, "Types")), Get(entry, "Components");
    && (if types == [] then t == "deb" else t in types && (t == "deb" || t == "deb-src"))
    && u in Fields(Get(entry, "URIs")) && IsValidRepoURL(u)
    && s in Fields(Get(entry, "Suites")) && (s != "" && s[|s| - 1] == '/' <==> components == "")
  }

  /** The record of a combination, field by field. */
  function RecordOf(entry: Stanza, nameOf: Naming, t: string, u: string, s: string): Repository {
    Repository(nameOf(Get(entry, "X-Repolib-Name"), u, s, Get(entry, "Components")), u, s, Get(entry, "Components"), t,
               Get(entry, "Enabled") != "no" && Get(entry, "Enabled") != "false", "https://" <= u)
  }

  lemma {:induction false} CombinationIsUsable(entry: Stanza, t: string, u: string, s: string)
    ensures Combination(entry, t, u, s) <==>
            t in UsableTypes(entry) && u in UsableUris(entry) && s in UsableSuites(entry)
  {
    FilterExact(Types(entry), Supported);
    FilterExact(Fields(Get(entry, "URIs")), IsValidRepoURL);
    FilterExact(Fields(Get(entry, "Suites")), SuiteRule(Get(entry, "Components")));
    assert HasSuffix(s, "/") <==> s != "" && s[|s| - 1] == '/';
  }

  /**
   A stanza gives exactly the records of its combinations: a type, `deb` if none is named; a remote URI; a suite that
   is an exact path iff there are no components.
   */
  lemma {:induction false} StanzaExact(entry: Stanza, nameOf: Naming, r: Repository)
    ensures r in Expand(entry, nameOf) <==>
            exists t, u, s :: Combination(entry, t, u, s) && r == RecordOf(entry, nameOf, t, u, s)
  {
    if r in Expand(entry, nameOf) {
      TypesSound(entry, nameOf, UsableTypes(entry), UsableUris(entry), UsableSuites(entry), r);
      var t, u, s :| t in UsableTypes(entry) && u in UsableUris(entry) && s in UsableSuites(entry)
                     && r == RepoOf(entry, nameOf, t, u, s);
      CombinationIsUsable(entry, t, u, s);
      assert r == RecordOf(entry, nameOf, t, u, s);
    }
    if t, u, s :| Combination(entry, t, u, s) && r == RecordOf(entry, nameOf, t, u, s) {
      CombinationIsUsable(entry, t, u, s);
      CombinationIsGiven(entry, nameOf, UsableTypes(entry), UsableUris(entry), UsableSuites(entry), t, u, s);
    }
  }

  lemma {:induction false} PlaceOf(xs: seq<string>, x: string) returns (i: nat)
    requires x in xs
    ensures i < |xs| && xs[i] == x
  {
    i :| i < |xs| && xs[i] == x;
  }

  lemma {:induction false} InUris(entry: Stanza, nameOf: Naming, repoType: string, uris: seq<string>,
                                  suites: seq<string>, u: string, s: string) returns (m: nat)
    requires u in uris && s in suites
    ensures var all := ForUris(entry, nameOf, repoType, uris, suites);
            m < |all| && all[m] == RepoOf(entry, nameOf, repoType, u, s)
  {
    var j := PlaceOf(uris, u);
    var k := PlaceOf(suites, s);
    UrisOrder(entry, nameOf, repoType, uris, suites, j, k);
    m := |ForUris(entry, nameOf, repoType, uris[..j], suites)| + k;
  }

  lemma {:induction false} CombinationIsGiven(entry: Stanza, nameOf: Naming, types: seq<string>, uris: seq<string>,
                                              suites: seq<string>, t: string, u: string, s: string)
    requires t in types && u in uris && s in suites
    ensures RepoOf(entry, nameOf, t, u, s) in ForTypes(entry, nameOf, types, uris, suites)
  {
    var i := PlaceOf(types, t);
    var m := InUris(entry, nameOf, t, uris, suites, u, s);
    TypesOrder(entry, nameOf, types, uris, suites, i, m);
  }

  /** A line of a paragraph sets the field before its first colon to what stands behind it, blanks aside. */
  lemma {:induction false} FieldLineRead(paragraph: seq<string>, key: string, value: string)
    requires ':' !in key && Trimmed(key) && Trimmed(value) && key != "" && value != "" && key[0] != '#'
    ensures var before := FieldsOf(paragraph);
            FieldsOf(paragraph + [key + [':'] + value])
            == Some((if before.Some? then before.value else map[])[key := value])
  {
    var line, next := key + [':'] + value, paragraph + [key + [':'] + value];
    assert line[|key|] == ':' && forall i :: 0 <= i < |key| ==> line[i] == key[i];
    assert Find(line, ':') == |key|;
    assert line[..|key|] == key && line[|key| + 1..] == value;
    TrimmedStays(key);
    TrimmedStays(value);
    assert line[0] == key[0] && line[|line| - 1] == value[|value| - 1];
    TrimmedStays(line);
    assert next[..|next| - 1] == paragraph;
  }
}
