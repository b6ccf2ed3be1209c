/**
 The aggregates of the compliance dashboard over the latest completed scans: the worst score of each host, the most
 recent scan of each key, tallies by status, type and age, and totals by profile and profile type.

 Instants are milliseconds. A missing score is null, which reads as zero. Averages and rounding for display are
 left out.
 */
module ComplianceDashboard {
  import opened Options

  /** `joinedType` is the type the profile joined to the scan has; None when the join finds no profile. */
  datatype Scan = Scan(
    host: string, profile: string, joinedType: Option<string>, score: Option<real>, completedAt: int,
    passed: int, failed: int, warnings: int, rules: int)

  function Score(s: Scan): real { if s.score.Some? then s.score.value else 0.0 }

  /** The type of the scan's profile in the separately fetched table of profiles. */
  function Kind(s: Scan, types: map<string, string>): string {
    if s.profile in types && types[s.profile] != "" then types[s.profile] else "unknown"
  }

  // ---------------------------------------------------------------- one scan for each key

  type Key = Scan -> string
  type Cost = Scan -> real

  function ByHost(): Key { (s: Scan) => s.host }
  function ByHostAndKind(types: map<string, string>): Key { (s: Scan) => s.host + ":" + Kind(s, types) }
  function ByScore(): Cost { (s: Scan) => Score(s) }
  function ByAge(): Cost { (s: Scan) => -(s.completedAt as real) }

  /** For each key the scan that a later one of the same key replaces only if it costs strictly less. */
  function Pick(scans: seq<Scan>, key: Key, cost: Cost): map<string, Scan> {
    if scans == [] then map[]
    else
      var m, s := Pick(scans[..|scans| - 1], key, cost), scans[|scans| - 1];
      if key(s) !in m || cost(s) < cost(m[key(s)]) then m[key(s) := s] else m
  }

  datatype Worst = Worst(score: real, kind: string)

  ghost predicate Summarises(worst: map<string, Worst>, picked: map<string, Scan>, types: map<string, string>) {
    worst.Keys == picked.Keys && forall h :: h in worst ==> worst[h] == Worst(Score(picked[h]), Kind(picked[h], types))
  }

  method HostWorstScores(scans: seq<Scan>, types: map<string, string>) returns (worst: map<string, Worst>)
    ensures Summarises(worst, Pick(scans, ByHost(), ByScore()), types)
  {
    worst := map[];
    for i := 0 to |scans|
      invariant Summarises(worst, Pick(scans[..i], ByHost(), ByScore()), types)
    {
      assert scans[..i + 1][..i] == scans[..i];
      var scan := scans[i];
      var scanScore := Score(scan);
      var scanType := Kind(scan, types);
      if scan.host !in worst || scanScore < worst[scan.host].score {
        worst := worst[scan.host := Worst(scanScore, scanType)];
      }
    }
    assert scans[..|scans|] == scans;
  }

  /** The most recent scan of each key: by host for the table of hosts, by host and type for the ages. */
  method MostRecent(scans: seq<Scan>, key: Key) returns (latest: map<string, Scan>)
    ensures latest == Pick(scans, key, ByAge())
  {
    latest := map[];
    for i := 0 to |scans|
      invariant latest == Pick(scans[..i], key, ByAge())
    {
      assert scans[..i + 1][..i] == scans[..i];
      var scan := scans[i];
      if key(scan) !in latest || scan.completedAt > latest[key(scan)].completedAt {
        latest := latest[key(scan) := scan];
      }
    }
    assert scans[..|scans|] == scans;
  }

  /** The first of the cheapest scans of its key. */
  ghost predicate FirstLeast(scans: seq<Scan>, i: nat, key: Key, cost: Cost) {
    i < |scans| && forall j :: 0 <= j < |scans| && key(scans[j]) == key(scans[i]) ==>
      cost(scans[i]) <= cost(scans[j]) && (j < i ==> cost(scans[i]) < cost(scans[j]))
  }

  ghost predicate Chosen(scans: seq<Scan>, key: Key, cost: Cost, k: string, s: Scan) {
    exists i: nat :: FirstLeast(scans, i, key, cost) && key(scans[i]) == k && scans[i] == s
  }

  lemma {:induction false} PickKeys(scans: seq<Scan>, key: Key, cost: Cost, k: string)
    ensures k in Pick(scans, key, cost) <==> exists i :: 0 <= i < |scans| && key(scans[i]) == k
    decreases |scans|
  {
    if scans == [] {
    } else {
      var n := |scans| - 1;
      var init := scans[..n];
      PickKeys(init, key, cost, k);
      if i :| 0 <= i < |scans| && key(scans[i]) == k {
        assert i < n ==> init[i] == scans[i];
      }
      if i :| 0 <= i < |init| && key(init[i]) == k {
        assert scans[i] == init[i];
      }
    }
  }

  /** Exactly the keys that occur, each with the first of its cheapest scans. */
  lemma {:induction false} PickExact(scans: seq<Scan>, key: Key, cost: Cost, k: string)
    requires k in Pick(scans, key, cost)
    ensures Chosen(scans, key, cost, k, Pick(scans, key, cost)[k])
    decreases |scans|
  {
    var n := |scans| - 1;
    var init, last := scans[..n], scans[n];
    var before := Pick(init, key, cost);
    if k in before {
      PickExact(init, key, cost, k);
      var i: nat :| FirstLeast(init, i, key, cost) && key(init[i]) == k && init[i] == before[k];
      if key(last) == k && cost(last) < cost(before[k]) {
        assert FirstLeast(scans, n, key, cost);
      } else {
        assert FirstLeast(scans, i, key, cost);
      }
    } else {
      PickKeys(init, key, cost, k);
      assert forall j :: 0 <= j < n ==> scans[j] == init[j];
      assert FirstLeast(scans, n, key, cost);
    }
  }

  lemma {:induction false} PickMember(scans: seq<Scan>, key: Key, cost: Cost, k: string)
    requires k in Pick(scans, key, cost)
    ensures var s := Pick(scans, key, cost)[k];
            s in scans && key(s) == k && forall t :: t in scans && key(t) == k ==> cost(s) <= cost(t)
  {
    PickExact(scans, key, cost, k);
  }

  lemma {:induction false} MemberPicked(scans: seq<Scan>, key: Key, cost: Cost, s: Scan)
    requires s in scans
    ensures key(s) in Pick(scans, key, cost)
  {
    var i :| 0 <= i < |scans| && scans[i] == s;
    PickKeys(scans, key, cost, key(s));
  }

  /** The keys and the cost kept for each do not depend on the order of the scans. */
  lemma {:induction false} PickCostIsOrderFree(a: seq<Scan>, b: seq<Scan>, key: Key, cost: Cost, k: string)
    requires multiset(a) == multiset(b)
    ensures k in Pick(a, key, cost) <==> k in Pick(b, key, cost)
    ensures k in Pick(a, key, cost) ==> cost(Pick(a, key, cost)[k]) == cost(Pick(b, key, cost)[k])
  {
    if k in Pick(a, key, cost) {
      PickFrom(a, b, key, cost, k);
      PickFrom(b, a, key, cost, k);
    } else if k in Pick(b, key, cost) {
      PickFrom(b, a, key, cost, k);
    }
  }

  lemma {:induction false} PickFrom(a: seq<Scan>, b: seq<Scan>, key: Key, cost: Cost, k: string)
    requires multiset(a) == multiset(b) && k in Pick(a, key, cost)
    ensures k in Pick(b, key, cost) && cost(Pick(b, key, cost)[k]) <= cost(Pick(a, key, cost)[k])
  {
    PickMember(a, key, cost, k);
    var s := Pick(a, key, cost)[k];
    assert s in multiset(a);
    MemberPicked(b, key, cost, s);
    PickMember(b, key, cost, k);
  }

  // ---------------------------------------------------------------- hosts by their worst score

  datatype Status = Compliant | Warning | Critical

  function StatusOf(score: real): Status {
    if score >= 80.0 then Compliant else if score >= 60.0 then Warning else Critical
  }

  function Hosts(scans: seq<Scan>): set<string> { set s | s in scans :: s.host }

  function HostsWith(scans: seq<Scan>, status: Status): set<string> {
    var worst := Pick(scans, ByHost(), ByScore());
    set h | h in worst && StatusOf(Score(worst[h])) == status
  }

  ghost predicate AllAtLeast(scans: seq<Scan>, host: string, score: real) {
    forall s :: s in scans && s.host == host ==> Score(s) >= score
  }

  lemma {:induction false} WorstIsAtLeast(scans: seq<Scan>, host: string, score: real)
    requires host in Pick(scans, ByHost(), ByScore())
    ensures Score(Pick(scans, ByHost(), ByScore())[host]) >= score <==> AllAtLeast(scans, host, score)
  {
    PickMember(scans, ByHost(), ByScore(), host);
    var w := Pick(scans, ByHost(), ByScore())[host];
    assert ByHost()(w) == w.host && ByScore()(w) == Score(w);
    forall s | s in scans && s.host == host
      ensures Score(s) >= Score(w)
    {
      assert ByHost()(s) == s.host && ByScore()(s) == Score(s);
    }
  }

  /** A host is compliant iff all its scans reach 80, critical iff one is below 60, and in between otherwise. */
  lemma {:induction false} HostStatusMeaning(scans: seq<Scan>, host: string)
    ensures host in HostsWith(scans, Compliant) <==> host in Hosts(scans) && AllAtLeast(scans, host, 80.0)
    ensures host in HostsWith(scans, Critical) <==> host in Hosts(scans) && !AllAtLeast(scans, host, 60.0)
    ensures host in HostsWith(scans, Warning)
            <==> host in Hosts(scans) && AllAtLeast(scans, host, 60.0) && !AllAtLeast(scans, host, 80.0)
  {
    PickedHosts(scans, host);
    if host in Hosts(scans) {
      WorstIsAtLeast(scans, host, 80.0);
      WorstIsAtLeast(scans, host, 60.0);
    }
  }

  lemma {:induction false} PickedHosts(scans: seq<Scan>, host: string)
    ensures host in Pick(scans, ByHost(), ByScore()) <==> host in Hosts(scans)
  {
    if host in Pick(scans, ByHost(), ByScore()) {
      PickMember(scans, ByHost(), ByScore(), host);
    }
    if host in Hosts(scans) {
      var s :| s in scans && s.host == host;
      MemberPicked(scans, ByHost(), ByScore(), s);
    }
  }

  /** Every scanned host is counted under exactly one status. */
  lemma {:induction false} HostsPartition(scans: seq<Scan>)
    ensures |HostsWith(scans, Compliant)| + |HostsWith(scans, Warning)| + |HostsWith(scans, Critical)| == |Hosts(scans)|
  {
    var c, w, k := HostsWith(scans, Compliant), HostsWith(scans, Warning), HostsWith(scans, Critical);
    forall h
      ensures h in c + w + k <==> h in Hosts(scans)
    {
      PickedHosts(scans, h);
    }
    assert c + w + k == Hosts(scans);
    assert c !! w && (c + w) !! k;
  }

  lemma {:induction false} HostCountsAreOrderFree(a: seq<Scan>, b: seq<Scan>, status: Status)
    requires multiset(a) == multiset(b)
    ensures HostsWith(a, status) == HostsWith(b, status)
  {
    var pa, pb := Pick(a, ByHost(), ByScore()), Pick(b, ByHost(), ByScore());
    forall h
      ensures h in HostsWith(a, status) <==> h in HostsWith(b, status)
    {
      PickCostIsOrderFree(a, b, ByHost(), ByScore(), h);
      if h in pa {
        assert ByScore()(pa[h]) == Score(pa[h]) && ByScore()(pb[h]) == Score(pb[h]);
      }
    }
  }

  // ---------------------------------------------------------------- the type blamed for a host's status

  /** A scan with the worst score of its host. */
  ghost predicate IsWorst(scans: seq<Scan>, s: Scan) {
    s in scans && forall t :: t in scans && t.host == s.host ==> Score(s) <= Score(t)
  }

  ghost predicate SameKindAnyOrder(scans: seq<Scan>, types: map<string, string>, host: string)
    requires host in Pick(scans, ByHost(), ByScore())
  {
    forall other: seq<Scan> :: multiset(other) == multiset(scans) && host in Pick(other, ByHost(), ByScore()) ==>
      Kind(Pick(other, ByHost(), ByScore())[host], types) == Kind(Pick(scans, ByHost(), ByScore())[host], types)
  }

  lemma {:induction false} PickedIsWorst(scans: seq<Scan>, host: string)
    requires host in Pick(scans, ByHost(), ByScore())
    ensures var w := Pick(scans, ByHost(), ByScore())[host]; w.host == host && IsWorst(scans, w)
  {
    PickMember(scans, ByHost(), ByScore(), host);
    WorstIsAtLeast(scans, host, Score(Pick(scans, ByHost(), ByScore())[host]));
  }

  /** A worst scan put first is the one kept. */
  lemma {:induction false} WorstFirst(rest: seq<Scan>, s: Scan)
    requires IsWorst([s] + rest, s)
    ensures s.host in Pick([s] + rest, ByHost(), ByScore()) && Pick([s] + rest, ByHost(), ByScore())[s.host] == s
  {
    var scans := [s] + rest;
    assert scans[0] == s && ByHost()(s) == s.host;
    MemberPicked(scans, ByHost(), ByScore(), s);
    PickExact(scans, ByHost(), ByScore(), s.host);
    var i: nat :| FirstLeast(scans, i, ByHost(), ByScore()) && ByHost()(scans[i]) == s.host
                  && scans[i] == Pick(scans, ByHost(), ByScore())[s.host];
    assert scans[i].host == s.host && scans[i] in scans;
    assert ByScore()(scans[i]) == Score(scans[i]) && ByScore()(scans[0]) == Score(s);
  }

  /** The type blamed is the same in every order of the scans iff all worst scans of the host have one type. */
  lemma {:induction false} BlamedKindIsOrderFreeIff(scans: seq<Scan>, types: map<string, string>, host: string)
    requires host in Pick(scans, ByHost(), ByScore())
    ensures SameKindAnyOrder(scans, types, host) <==>
            forall s, t :: IsWorst(scans, s) && IsWorst(scans, t) && s.host == t.host == host ==>
              Kind(s, types) == Kind(t, types)
  {
    var kept := Pick(scans, ByHost(), ByScore())[host];
    PickedIsWorst(scans, host);
    if SameKindAnyOrder(scans, types, host) {
      forall s | IsWorst(scans, s) && s.host == host
        ensures Kind(s, types) == Kind(kept, types)
      {
        WorstCanBeKept(scans, s);
      }
    } else {
      var other: seq<Scan> :| multiset(other) == multiset(scans) && host in Pick(other, ByHost(), ByScore())
        && Kind(Pick(other, ByHost(), ByScore())[host], types) != Kind(kept, types);
      PickedIsWorst(other, host);
      SameWorst(other, scans, Pick(other, ByHost(), ByScore())[host]);
    }
  }

  lemma {:induction false} SameWorst(a: seq<Scan>, b: seq<Scan>, s: Scan)
    requires multiset(a) == multiset(b) && IsWorst(a, s)
    ensures IsWorst(b, s)
  {
    assert s in multiset(a);
    forall t | t in b
      ensures t in a
    {
      assert t in multiset(b);
    }
  }

  lemma {:induction false} MoveToFront(scans: seq<Scan>, i: nat)
    requires i < |scans|
    ensures multiset([scans[i]] + (scans[..i] + scans[i + 1..])) == multiset(scans)
  {
    assert scans == scans[..i] + [scans[i]] + scans[i + 1..];
  }

  lemma {:induction false} WorstCanBeKept(scans: seq<Scan>, s: Scan)
    requires IsWorst(scans, s)
    ensures exists other: seq<Scan> :: && multiset(other) == multiset(scans)
                                       && s.host in Pick(other, ByHost(), ByScore())
                                       && Pick(other, ByHost(), ByScore())[s.host] == s
  {
    var i :| 0 <= i < |scans| && scans[i] == s;
    var rest := scans[..i] + scans[i + 1..];
    MoveToFront(scans, i);
    SameWorst(scans, [s] + rest, s);
    WorstFirst(rest, s);
  }

  /** Two scans of one host with the same score and different types: the one fetched first is blamed. */
  lemma {:induction false} BlamedKindCanDependOnOrder()
    ensures var types := map["p" := "openscap", "q" := "docker-bench"];
            var s := Scan("h", "p", Some("openscap"), Some(50.0), 0, 0, 0, 0, 0);
            var t := Scan("h", "q", Some("docker-bench"), Some(50.0), 0, 0, 0, 0, 0);
            var first, second := Pick([s, t], ByHost(), ByScore()), Pick([t, s], ByHost(), ByScore());
            && "h" in first && Kind(first["h"], types) == "openscap"
            && "h" in second && Kind(second["h"], types) == "docker-bench"
  {
    var s := Scan("h", "p", Some("openscap"), Some(50.0), 0, 0, 0, 0, 0);
    var t := Scan("h", "q", Some("docker-bench"), Some(50.0), 0, 0, 0, 0, 0);
    assert [s] + [t] == [s, t] && [t] + [s] == [t, s];
    WorstFirst([t], s);
    WorstFirst([s], t);
  }

  // ---------------------------------------------------------------- tallies

  /** The keys counted in a cell of a table. */
  function InCell<C(==)>(m: map<string, Scan>, cell: Scan -> C, c: C): set<string> {
    set k | k in m && cell(m[k]) == c
  }

  lemma {:induction false} CountOneMore<C>(m: map<string, Scan>, cell: Scan -> C, c: C, done: set<string>, k: string)
    requires k in m && k !in done
    ensures |(done + {k}) * InCell(m, cell, c)| == |done * InCell(m, cell, c)| + if c == cell(m[k]) then 1 else 0
  {
    var cs := InCell(m, cell, c);
    if c == cell(m[k]) {
      assert (done + {k}) * cs == done * cs + {k};
    } else {
      assert (done + {k}) * cs == done * cs;
    }
  }

  ghost predicate Counts<C(!new)>(table: map<C, nat>, m: map<string, Scan>, cell: Scan -> C, done: set<string>) {
    forall c :: c in table ==> table[c] == |done * InCell(m, cell, c)|
  }

  function Bump<C(==)>(table: map<C, nat>, c: C): (r: map<C, nat>)
    ensures r.Keys == table.Keys
  {
    if c in table then table[c := table[c] + 1] else table
  }

  lemma {:induction false} CountsOneMore<C(!new)>(table: map<C, nat>, m: map<string, Scan>, cell: Scan -> C,
                                                  done: set<string>, k: string)
    requires k in m && k !in done && Counts(table, m, cell, done)
    ensures Counts(Bump(table, cell(m[k])), m, cell, done + {k})
  {
    forall c | c in table
      ensures |(done + {k}) * InCell(m, cell, c)| == table[c] + if c == cell(m[k]) then 1 else 0
    {
      CountOneMore(m, cell, c, done, k);
    }
  }

  lemma {:induction false} CountsNothing<C(!new)>(table: map<C, nat>, m: map<string, Scan>, cell: Scan -> C)
    requires forall c :: c in table ==> table[c] == 0
    ensures Counts(table, m, cell, {})
  {
    forall c | c in table
      ensures table[c] == |{} * InCell(m, cell, c)|
    {
      assert {} * InCell(m, cell, c) == {};
    }
  }

  lemma {:induction false} CountsAll<C(!new)>(table: map<C, nat>, m: map<string, Scan>, cell: Scan -> C,
                                              done: set<string>)
    requires Counts(table, m, cell, done) && done == m.Keys
    ensures forall c :: c in table ==> table[c] == |InCell(m, cell, c)|
  {
    forall c | c in table
      ensures table[c] == |InCell(m, cell, c)|
    {
      assert m.Keys * InCell(m, cell, c) == InCell(m, cell, c);
    }
  }

  /** The loops that fill the status table and the age table; what falls in no cell of the table is skipped. */
  method Tally<C(==, !new)>(m: map<string, Scan>, cell: Scan -> C, cells: set<C>) returns (table: map<C, nat>)
    ensures table.Keys == cells && forall c :: c in cells ==> table[c] == |InCell(m, cell, c)|
  {
    table := map c | c in cells :: 0;
    CountsNothing(table, m, cell);
    var rest := m.Keys;
    assert m.Keys - rest == {};
    while rest != {}
      invariant rest <= m.Keys
      invariant table.Keys == cells && Counts(table, m, cell, m.Keys - rest)
      decreases |rest|
    {
      var k :| k in rest;
      CountsOneMore(table, m, cell, m.Keys - rest, k);
      TakeOne(m.Keys, rest, k);
      table := Bump(table, cell(m[k]));
      rest := rest - {k};
    }
    CountsAll(table, m, cell, m.Keys - rest);
  }

  lemma {:induction false} TakeOne(all: set<string>, rest: set<string>, k: string)
    requires k in rest && rest <= all
    ensures all - rest + {k} == all - (rest - {k})
  {}

  function StatusCell(types: map<string, string>): Scan -> (Status, string) {
    (s: Scan) => (StatusOf(Score(s)), Kind(s, types))
  }

  function StatusColumn(scans: seq<Scan>, types: map<string, string>, status: Status, kind: string): set<string> {
    InCell(Pick(scans, ByHost(), ByScore()), StatusCell(types), (status, kind))
  }

  lemma {:induction false} StatusColumnMember(scans: seq<Scan>, types: map<string, string>, status: Status,
                                              kind: string, h: string)
    ensures h in StatusColumn(scans, types, status, kind)
            <==> h in HostsWith(scans, status) && Kind(Pick(scans, ByHost(), ByScore())[h], types) == kind
  {
    var worst := Pick(scans, ByHost(), ByScore());
    if h in worst {
      assert StatusCell(types)(worst[h]) == (StatusOf(Score(worst[h])), Kind(worst[h], types));
    }
  }

  /** Scans blamed for a host of the status: the first with the worst score of its host. */
  ghost predicate Blamed(scans: seq<Scan>, i: nat, status: Status) {
    FirstLeast(scans, i, ByHost(), ByScore()) && StatusOf(Score(scans[i])) == status
  }

  /** The scan kept for a host is the blamed one. */
  lemma {:induction false} BlamedIsPicked(scans: seq<Scan>, i: nat)
    requires FirstLeast(scans, i, ByHost(), ByScore())
    ensures var worst := Pick(scans, ByHost(), ByScore()); scans[i].host in worst && worst[scans[i].host] == scans[i]
  {
    var host := scans[i].host;
    assert ByHost()(scans[i]) == host;
    MemberPicked(scans, ByHost(), ByScore(), scans[i]);
    PickExact(scans, ByHost(), ByScore(), host);
    var j: nat :| FirstLeast(scans, j, ByHost(), ByScore()) && ByHost()(scans[j]) == host
                  && scans[j] == Pick(scans, ByHost(), ByScore())[host];
    assert i == j;
  }

  lemma {:induction false} PickedIsBlamed(scans: seq<Scan>, host: string) returns (i: nat)
    requires host in Pick(scans, ByHost(), ByScore())
    ensures FirstLeast(scans, i, ByHost(), ByScore()) && scans[i] == Pick(scans, ByHost(), ByScore())[host]
    ensures scans[i].host == host
  {
    PickExact(scans, ByHost(), ByScore(), host);
    i :| FirstLeast(scans, i, ByHost(), ByScore()) && ByHost()(scans[i]) == host
         && scans[i] == Pick(scans, ByHost(), ByScore())[host];
    assert ByHost()(scans[i]) == scans[i].host;
  }

  predicate HasColumn(kind: string) { kind == "openscap" || kind == "docker-bench" }

  /** The two columns of a status add up to its hosts iff no scan blamed for a host of it is of a third type. */
  lemma {:induction false} StatusColumnsCompleteIff(scans: seq<Scan>, types: map<string, string>, status: Status)
    ensures var sum := |StatusColumn(scans, types, status, "openscap")|
            + |StatusColumn(scans, types, status, "docker-bench")|;
            && sum <= |HostsWith(scans, status)|
            && (sum == |HostsWith(scans, status)| <==>
                forall i: nat :: Blamed(scans, i, status) ==> HasColumn(Kind(scans[i], types)))
  {
    var all := HostsWith(scans, status);
    var worst := Pick(scans, ByHost(), ByScore());
    var a, b := StatusColumn(scans, types, status, "openscap"), StatusColumn(scans, types, status, "docker-bench");
    forall h
      ensures h in a <==> h in all && Kind(worst[h], types) == "openscap"
      ensures h in b <==> h in all && Kind(worst[h], types) == "docker-bench"
    {
      StatusColumnMember(scans, types, status, "openscap", h);
      StatusColumnMember(scans, types, status, "docker-bench", h);
    }
    TwoParts(a, b, all);
    ColumnsByScan(scans, types, status);
  }

  /** A host whose only scan is of type oscap-docker stands in neither column of its status. */
  lemma {:induction false} ThirdTypeIsMissing(s: Scan, types: map<string, string>)
    requires s.profile in types && types[s.profile] == "oscap-docker"
    ensures var status := StatusOf(Score(s));
            && HostsWith([s], status) == {s.host}
            && StatusColumn([s], types, status, "openscap") == {} == StatusColumn([s], types, status, "docker-bench")
  {
    var status := StatusOf(Score(s));
    assert [s][..0] == [];
    assert ByHost()(s) == s.host;
    assert Pick([s], ByHost(), ByScore()) == map[s.host := s];
    forall h
      ensures h !in StatusColumn([s], types, status, "openscap")
      ensures h !in StatusColumn([s], types, status, "docker-bench")
    {
      StatusColumnMember([s], types, status, "openscap", h);
      StatusColumnMember([s], types, status, "docker-bench", h);
    }
  }

  lemma {:induction false} ColumnsByScan(scans: seq<Scan>, types: map<string, string>, status: Status)
    ensures var worst := Pick(scans, ByHost(), ByScore());
            (forall h :: h in HostsWith(scans, status) ==> HasColumn(Kind(worst[h], types))) <==>
            (forall i: nat :: Blamed(scans, i, status) ==> HasColumn(Kind(scans[i], types)))
  {
    var worst := Pick(scans, ByHost(), ByScore());
    if forall h :: h in HostsWith(scans, status) ==> HasColumn(Kind(worst[h], types)) {
      forall i: nat | Blamed(scans, i, status)
        ensures HasColumn(Kind(scans[i], types))
      {
        BlamedIsPicked(scans, i);
        assert scans[i].host in HostsWith(scans, status);
      }
    }
    if forall i: nat :: Blamed(scans, i, status) ==> HasColumn(Kind(scans[i], types)) {
      forall h | h in HostsWith(scans, status)
        ensures HasColumn(Kind(worst[h], types))
      {
        var i := PickedIsBlamed(scans, h);
        assert Blamed(scans, i, status);
      }
    }
  }

  lemma {:induction false} TwoParts(a: set<string>, b: set<string>, all: set<string>)
    requires a !! b && a <= all && b <= all
    ensures |a| + |b| <= |all| && (|a| + |b| == |all| <==> forall h :: h in all ==> h in a || h in b)
  {
    assert |a + b| == |a| + |b|;
    Subset(a + b, all);
  }

  lemma {:induction false} Subset(a: set<string>, b: set<string>)
    requires a <= b
    ensures |a| <= |b| && (|a| == |b| <==> a == b)
  {
    assert b == a + (b - a) && a !! (b - a);
    assert |b| == |a| + |b - a|;
  }

  // ---------------------------------------------------------------- the age of the data

  datatype Age = Today | ThisWeek | ThisMonth | Older

  const DAY := 24 * 60 * 60 * 1000

  function AgeOf(at: int, now: int): Age {
    if at >= now - DAY then Today
    else if at >= now - 7 * DAY then ThisWeek
    else if at >= now - 30 * DAY then ThisMonth
    else Older
  }

  function AgeCell(types: map<string, string>, now: int): Scan -> (Age, string) {
    (s: Scan) => (AgeOf(s.completedAt, now), Kind(s, types))
  }

  function Latest(scans: seq<Scan>, types: map<string, string>): map<string, Scan> {
    Pick(scans, ByHostAndKind(types), ByAge())
  }

  function AgeCount(scans: seq<Scan>, types: map<string, string>, now: int, age: Age, kind: string): nat {
    |InCell(Latest(scans, types), AgeCell(types, now), (age, kind))|
  }

  function HostsOfKind(scans: seq<Scan>, types: map<string, string>, kind: string): set<string> {
    set s | s in scans && Kind(s, types) == kind :: s.host
  }

  function KeysOfKind(scans: seq<Scan>, types: map<string, string>, kind: string): set<string> {
    set k | k in Latest(scans, types) && Kind(Latest(scans, types)[k], types) == kind
  }

  lemma {:induction false} AgeMember(scans: seq<Scan>, types: map<string, string>, now: int, age: Age, kind: string,
                                     k: string)
    ensures k in InCell(Latest(scans, types), AgeCell(types, now), (age, kind))
            <==> k in KeysOfKind(scans, types, kind) && AgeOf(Latest(scans, types)[k].completedAt, now) == age
  {
    var m := Latest(scans, types);
    if k in m {
      assert AgeCell(types, now)(m[k]) == (AgeOf(m[k].completedAt, now), Kind(m[k], types));
    }
  }

  function OfAge(scans: seq<Scan>, types: map<string, string>, now: int, kind: string, age: Age): set<string> {
    set k | k in KeysOfKind(scans, types, kind) && AgeOf(Latest(scans, types)[k].completedAt, now) == age
  }

  lemma {:induction false} AgeCountIs(scans: seq<Scan>, types: map<string, string>, now: int, age: Age, kind: string)
    ensures AgeCount(scans, types, now, age, kind) == |OfAge(scans, types, now, kind, age)|
  {
    var cell := InCell(Latest(scans, types), AgeCell(types, now), (age, kind));
    forall k
      ensures k in cell <==> k in OfAge(scans, types, now, kind, age)
    {
      AgeMember(scans, types, now, age, kind, k);
    }
    assert cell == OfAge(scans, types, now, kind, age);
  }

  lemma {:induction false} AgesPartitionKeys(scans: seq<Scan>, types: map<string, string>, now: int, kind: string)
    ensures |OfAge(scans, types, now, kind, Today)| + |OfAge(scans, types, now, kind, ThisWeek)|
            + |OfAge(scans, types, now, kind, ThisMonth)| + |OfAge(scans, types, now, kind, Older)|
            == |KeysOfKind(scans, types, kind)|
  {
    var t, w, n, o := OfAge(scans, types, now, kind, Today), OfAge(scans, types, now, kind, ThisWeek),
                      OfAge(scans, types, now, kind, ThisMonth), OfAge(scans, types, now, kind, Older);
    FourParts(t, w, n, o, KeysOfKind(scans, types, kind));
  }

  lemma {:induction false} FourParts(a: set<string>, b: set<string>, c: set<string>, d: set<string>, all: set<string>)
    requires a !! b && (a + b) !! c && (a + b + c) !! d
    requires forall k :: k in all <==> k in a || k in b || k in c || k in d
    ensures |a| + |b| + |c| + |d| == |all|
  {
    assert all == a + b + c + d;
  }

  predicate NoColon(s: string) { ':' !in s }

  function UpToColon(s: string): string {
    if s == "" || s[0] == ':' then "" else [s[0]] + UpToColon(s[1..])
  }

  lemma {:induction false} UpToColonIsHost(host: string, kind: string)
    requires NoColon(host)
    ensures UpToColon(host + ":" + kind) == host
  {
    if host != "" {
      UpToColonIsHost(host[1..], kind);
      assert (host + ":" + kind)[1..] == host[1..] + ":" + kind;
    } else {
      assert ("" + ":" + kind)[0] == ':';
    }
  }

  lemma {:induction false} KeyIsInjective(host: string, kind: string, otherHost: string, otherKind: string)
    requires NoColon(host) && NoColon(otherHost)
    requires host + ":" + kind == otherHost + ":" + otherKind
    ensures host == otherHost && kind == otherKind
  {
    UpToColonIsHost(host, kind);
    UpToColonIsHost(otherHost, otherKind);
    assert kind == (host + ":" + kind)[|host| + 1..];
    assert otherKind == (otherHost + ":" + otherKind)[|otherHost| + 1..];
  }

  /** Host ids are UUIDs, so a key names one host and one type. */
  lemma {:induction false} KeysAreHosts(scans: seq<Scan>, types: map<string, string>, kind: string)
    requires forall s :: s in scans ==> NoColon(s.host)
    ensures |KeysOfKind(scans, types, kind)| == |HostsOfKind(scans, types, kind)|
  {
    var hosts := HostsOfKind(scans, types, kind);
    forall k
      ensures k in KeysOfKind(scans, types, kind) <==> k in KeysFor(hosts, kind)
    {
      KeyOfKindIff(scans, types, kind, k);
    }
    assert KeysOfKind(scans, types, kind) == KeysFor(hosts, kind);
    KeysForCount(hosts, kind);
  }

  function KeysFor(hosts: set<string>, kind: string): set<string> { set h | h in hosts :: h + ":" + kind }

  lemma {:induction false} KeysForCount(hosts: set<string>, kind: string)
    requires forall h :: h in hosts ==> NoColon(h)
    ensures |KeysFor(hosts, kind)| == |hosts|
    decreases |hosts|
  {
    if hosts == {} {
      assert KeysFor(hosts, kind) == {};
    } else {
      var h :| h in hosts;
      var key := h + ":" + kind;
      KeysForCount(hosts - {h}, kind);
      if key in KeysFor(hosts - {h}, kind) {
        var g :| g in hosts - {h} && g + ":" + kind == key;
        KeyIsInjective(g, kind, h, kind);
      }
      assert KeysFor(hosts, kind) == KeysFor(hosts - {h}, kind) + {key};
    }
  }

  lemma {:induction false} KeyOfKindIff(scans: seq<Scan>, types: map<string, string>, kind: string, k: string)
    requires forall s :: s in scans ==> NoColon(s.host)
    ensures k in KeysOfKind(scans, types, kind) <==> k in KeysFor(HostsOfKind(scans, types, kind), kind)
  {
    var key := ByHostAndKind(types);
    var m := Latest(scans, types);
    if k in KeysOfKind(scans, types, kind) {
      PickMember(scans, key, ByAge(), k);
      assert key(m[k]) == m[k].host + ":" + kind;
      assert m[k].host in HostsOfKind(scans, types, kind);
    }
    if k in KeysFor(HostsOfKind(scans, types, kind), kind) {
      var h :| h in HostsOfKind(scans, types, kind) && h + ":" + kind == k;
      var s :| s in scans && Kind(s, types) == kind && s.host == h;
      assert key(s) == k;
      MemberPicked(scans, key, ByAge(), s);
      PickMember(scans, key, ByAge(), k);
      assert key(m[k]) == m[k].host + ":" + Kind(m[k], types);
      KeyIsInjective(m[k].host, Kind(m[k], types), h, kind);
    }
  }

  /** For each type the four ages count every host with a scan of that type exactly once. */
  lemma {:induction false} AgesCountEachHostOnce(scans: seq<Scan>, types: map<string, string>, now: int, kind: string)
    requires forall s :: s in scans ==> NoColon(s.host)
    ensures AgeCount(scans, types, now, Today, kind) + AgeCount(scans, types, now, ThisWeek, kind)
            + AgeCount(scans, types, now, ThisMonth, kind) + AgeCount(scans, types, now, Older, kind)
            == |HostsOfKind(scans, types, kind)|
  {
    AgesPartitionKeys(scans, types, now, kind);
    AgeCountIs(scans, types, now, Today, kind);
    AgeCountIs(scans, types, now, ThisWeek, kind);
    AgeCountIs(scans, types, now, ThisMonth, kind);
    AgeCountIs(scans, types, now, Older, kind);
    KeysAreHosts(scans, types, kind);
  }

  /** The age counted for a host and a type is that of its most recent scan, in any order of the scans. */
  lemma {:induction false} AgeCountsAreOrderFree(a: seq<Scan>, b: seq<Scan>, types: map<string, string>, now: int,
                                                 age: Age, kind: string)
    requires multiset(a) == multiset(b)
    requires forall s :: s in a ==> NoColon(s.host)
    ensures AgeCount(a, types, now, age, kind) == AgeCount(b, types, now, age, kind)
  {
    var ma, mb, cell := Latest(a, types), Latest(b, types), AgeCell(types, now);
    forall k
      ensures k in InCell(ma, cell, (age, kind)) <==> k in InCell(mb, cell, (age, kind))
    {
      PickCostIsOrderFree(a, b, ByHostAndKind(types), ByAge(), k);
      if k in ma {
        SameCell(a, b, types, now, k);
      }
    }
    assert InCell(ma, cell, (age, kind)) == InCell(mb, cell, (age, kind));
  }

  lemma {:induction false} SameCell(a: seq<Scan>, b: seq<Scan>, types: map<string, string>, now: int, k: string)
    requires multiset(a) == multiset(b) && k in Latest(a, types) && k in Latest(b, types)
    requires forall s :: s in a ==> NoColon(s.host)
    ensures AgeCell(types, now)(Latest(a, types)[k]) == AgeCell(types, now)(Latest(b, types)[k])
  {
    var key := ByHostAndKind(types);
    PickCostIsOrderFree(a, b, key, ByAge(), k);
    PickMember(a, key, ByAge(), k);
    PickMember(b, key, ByAge(), k);
    var s, t := Latest(a, types)[k], Latest(b, types)[k];
    assert t in multiset(b);
    assert ByAge()(s) == -(s.completedAt as real) && ByAge()(t) == -(t.completedAt as real);
    assert key(s) == s.host + ":" + Kind(s, types) && key(t) == t.host + ":" + Kind(t, types);
    KeyIsInjective(s.host, Kind(s, types), t.host, Kind(t, types));
  }

  // ---------------------------------------------------------------- the readings in numbers

  /** A missing score reads as zero; a scan's type is its profile's, and unknown without one. */
  lemma {:induction false} ScanReadings(s: Scan, types: map<string, string>)
    ensures Score(s) == match s.score case None => 0.0 case Some(score) => score
    ensures s.profile in types && types[s.profile] != "" ==> Kind(s, types) == types[s.profile]
    ensures s.profile !in types || types[s.profile] == "" ==> Kind(s, types) == "unknown"
  {}

  /** The four ages by days of 86400000 milliseconds: up to one, up to seven, up to thirty, more. */
  lemma {:induction false} AgeMeaning(at: int, now: int)
    ensures AgeOf(at, now) == Today <==> now - at <= 86400000
    ensures AgeOf(at, now) == ThisWeek <==> 86400000 < now - at <= 7 * 86400000
    ensures AgeOf(at, now) == ThisMonth <==> 7 * 86400000 < now - at <= 30 * 86400000
    ensures AgeOf(at, now) == Older <==> 30 * 86400000 < now - at
  {}

  /** The scan the age of a host's type comes from is the first of the most recent ones of that host and type. */
  lemma {:induction false} LatestIsMostRecent(scans: seq<Scan>, types: map<string, string>, i: nat)
    requires i < |scans| && NoColon(scans[i].host) && forall s :: s in scans ==> NoColon(s.host)
    ensures var k := scans[i].host + ":" + Kind(scans[i], types);
            k in Latest(scans, types) &&
            exists j: nat :: && j < |scans| && Latest(scans, types)[k] == scans[j]
                             && scans[j].host == scans[i].host && Kind(scans[j], types) == Kind(scans[i], types)
                             && forall l :: 0 <= l < |scans| && scans[l].host == scans[i].host
                                            && Kind(scans[l], types) == Kind(scans[i], types) ==>
                                  scans[l].completedAt <= scans[j].completedAt
                                  && (l < j ==> scans[l].completedAt < scans[j].completedAt)
  {
    var key, cost := ByHostAndKind(types), ByAge();
    var k := scans[i].host + ":" + Kind(scans[i], types);
    assert key(scans[i]) == k;
    PickKeys(scans, key, cost, k);
    PickExact(scans, key, cost, k);
    var j: nat :| FirstLeast(scans, j, key, cost) && key(scans[j]) == k && scans[j] == Pick(scans, key, cost)[k];
    assert key(scans[j]) == scans[j].host + ":" + Kind(scans[j], types);
    assert scans[j] in scans;
    KeyIsInjective(scans[i].host, Kind(scans[i], types), scans[j].host, Kind(scans[j], types));
    forall l | 0 <= l < |scans| && scans[l].host == scans[i].host && Kind(scans[l], types) == Kind(scans[i], types)
      ensures scans[l].completedAt <= scans[j].completedAt
              && (l < j ==> scans[l].completedAt < scans[j].completedAt)
    {
      assert key(scans[l]) == k;
      assert cost(scans[l]) == -(scans[l].completedAt as real) && cost(scans[j]) == -(scans[j].completedAt as real);
    }
  }
}
