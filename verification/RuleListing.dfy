/**
 Listing compliance rules and the results of a scan: the comparators, the sort and what the pages show.

 `loc` stands for localeCompare and `base` for localeCompare with base sensitivity. An absent title or type is "".
 */
module RuleListing {
  import opened Options
  import opened Paging
  import opened Sorting

  datatype RuleRow = RuleRow(
    id: string, title: string, severity: Option<string>, profileType: string,
    passed: nat, failed: nat, warned: nat, total: nat)

  type Cmp = (RuleRow, RuleRow) -> int
  type Collation = (string, string) -> int

  function CountIn(statuses: seq<string>, among: seq<string>): nat {
    if statuses == [] then 0
    else CountIn(statuses[..|statuses| - 1], among) + if statuses[|statuses| - 1] in among then 1 else 0
  }

  const PASSED := ["pass", "passed"]
  const FAILED := ["fail", "failed", "failure"]
  const WARNED := ["warn", "warning", "warned"]

  /** A rule with the statuses its results have in the latest scans. */
  function WithCounts(id: string, title: string, severity: Option<string>, profileType: string,
                      statuses: seq<string>): RuleRow {
    RuleRow(id, title, severity, profileType, CountIn(statuses, PASSED), CountIn(statuses, FAILED),
            CountIn(statuses, WARNED), |statuses|)
  }

  /** No result is counted under two statuses. */
  lemma {:induction false} CountsFitTotal(statuses: seq<string>)
    ensures CountIn(statuses, PASSED) + CountIn(statuses, FAILED) + CountIn(statuses, WARNED) <= |statuses|
    decreases |statuses|
  {
    if statuses == [] {
    } else {
      CountsFitTotal(statuses[..|statuses| - 1]);
    }
  }

  lemma {:induction false} CountIsPositive(statuses: seq<string>, among: seq<string>)
    ensures CountIn(statuses, among) > 0 <==> exists i :: 0 <= i < |statuses| && statuses[i] in among
    decreases |statuses|
  {
    if statuses == [] {
    } else {
      var n := |statuses| - 1;
      var init := statuses[..n];
      CountIsPositive(init, among);
      assert forall i :: 0 <= i < n ==> init[i] == statuses[i];
    }
  }

  function SeverityRank(severity: Option<string>): int {
    match severity
    case Some("critical") => 4
    case Some("high") => 3
    case Some("medium") => 2
    case Some("low") => 1
    case _ => 0
  }

  function StatusRank(r: RuleRow): int {
    if r.failed > 0 then 3 else if r.warned > 0 then 2 else if r.passed > 0 then 1 else 0
  }

  /** The worst status any result of the rule has decides its rank. */
  lemma {:induction false} RankIsWorstStatus(id: string, title: string, severity: Option<string>, profileType: string,
                                             statuses: seq<string>)
    ensures var rank := StatusRank(WithCounts(id, title, severity, profileType, statuses));
            && (rank == 3 <==> exists i :: 0 <= i < |statuses| && statuses[i] in FAILED)
            && (rank >= 2 <==> exists i :: 0 <= i < |statuses| && statuses[i] in FAILED + WARNED)
            && (rank >= 1 <==> exists i :: 0 <= i < |statuses| && statuses[i] in FAILED + WARNED + PASSED)
  {
    CountIsPositive(statuses, FAILED);
    CountIsPositive(statuses, WARNED);
    CountIsPositive(statuses, PASSED);
  }

  function Column(sortBy: string, r: RuleRow): int {
    if sortBy == "hosts_passed" then r.passed
    else if sortBy == "hosts_failed" then r.failed
    else if sortBy == "hosts_warned" then r.warned
    else r.total
  }

  function Directed(asc: bool, va: int, vb: int): int { if asc then va - vb else vb - va }

  function CompareRules(sortBy: string, asc: bool, loc: Collation, base: Collation, a: RuleRow, b: RuleRow): int {
    if sortBy == "status" then
      if StatusRank(a) != StatusRank(b) then Directed(asc, StatusRank(a), StatusRank(b))
      else if SeverityRank(a.severity) != SeverityRank(b.severity)
      then Directed(asc, SeverityRank(a.severity), SeverityRank(b.severity))
      else if a.failed != b.failed then Directed(asc, a.failed, b.failed)
      else base(a.title, b.title)
    else if sortBy == "severity" then
      if SeverityRank(a.severity) != SeverityRank(b.severity)
      then Directed(asc, SeverityRank(a.severity), SeverityRank(b.severity))
      else if StatusRank(a) != StatusRank(b) then StatusRank(b) - StatusRank(a)
      else b.failed - a.failed
    else if sortBy == "title" then
      if asc then base(a.title, b.title) else base(b.title, a.title)
    else if sortBy == "profile_type" then
      if a.profileType != b.profileType
      then (if asc then loc(a.profileType, b.profileType) else loc(b.profileType, a.profileType))
      else base(a.title, b.title)
    else if sortBy in ["hosts_passed", "hosts_failed", "hosts_warned", "total_hosts"] then
      if Column(sortBy, a) != Column(sortBy, b) then Directed(asc, Column(sortBy, a), Column(sortBy, b))
      else base(a.title, b.title)
    else 0
  }

  function Comparator(sortBy: string, asc: bool, loc: Collation, base: Collation): Cmp {
    (a: RuleRow, b: RuleRow) => CompareRules(sortBy, asc, loc, base, a, b)
  }

  // ---------------------------------------------------------------- what the sort keys mean

  /** Ascending, smaller numbers come first, and descending larger ones. */
  predicate First(asc: bool, x: int, y: int) { if asc then x < y else y < x }

  /** The row may stand before the other: the sort key decides, then its tie-breakers in turn. */
  predicate MayPrecede(sortBy: string, asc: bool, loc: Collation, base: Collation, a: RuleRow, b: RuleRow) {
    match sortBy
    case "status" =>
      || First(asc, StatusRank(a), StatusRank(b))
      || (StatusRank(a) == StatusRank(b) && First(asc, SeverityRank(a.severity), SeverityRank(b.severity)))
      || (StatusRank(a) == StatusRank(b) && SeverityRank(a.severity) == SeverityRank(b.severity)
          && First(asc, a.failed, b.failed))
      || (StatusRank(a) == StatusRank(b) && SeverityRank(a.severity) == SeverityRank(b.severity)
          && a.failed == b.failed && base(a.title, b.title) <= 0)
    case "severity" =>
      || First(asc, SeverityRank(a.severity), SeverityRank(b.severity))
      || (SeverityRank(a.severity) == SeverityRank(b.severity) && StatusRank(a) > StatusRank(b))
      || (SeverityRank(a.severity) == SeverityRank(b.severity) && StatusRank(a) == StatusRank(b)
          && a.failed >= b.failed)
    case "title" => (asc && base(a.title, b.title) <= 0) || (!asc && base(b.title, a.title) <= 0)
    case "profile_type" =>
      || (a.profileType == b.profileType && base(a.title, b.title) <= 0)
      || (a.profileType != b.profileType && asc && loc(a.profileType, b.profileType) <= 0)
      || (a.profileType != b.profileType && !asc && loc(b.profileType, a.profileType) <= 0)
    case "hosts_passed" => First(asc, a.passed, b.passed) || (a.passed == b.passed && base(a.title, b.title) <= 0)
    case "hosts_failed" => First(asc, a.failed, b.failed) || (a.failed == b.failed && base(a.title, b.title) <= 0)
    case "hosts_warned" => First(asc, a.warned, b.warned) || (a.warned == b.warned && base(a.title, b.title) <= 0)
    case "total_hosts" => First(asc, a.total, b.total) || (a.total == b.total && base(a.title, b.title) <= 0)
    case _ => true
  }

  lemma {:induction false} ComparatorMeaning(sortBy: string, asc: bool, loc: Collation, base: Collation, a: RuleRow,
                                             b: RuleRow)
    ensures Comparator(sortBy, asc, loc, base)(a, b) <= 0 <==> MayPrecede(sortBy, asc, loc, base, a, b)
  {}

  const SEVERITIES: seq<string> := ["low", "medium", "high", "critical"]

  /** Severities from the mildest up; any other, and a missing one, is milder still. */
  lemma {:induction false} SeverityOrder(severity: Option<string>)
    ensures forall n :: 0 <= n < |SEVERITIES| ==> SeverityRank(Some(SEVERITIES[n])) == n + 1
    ensures severity.None? || severity.value !in SEVERITIES ==> SeverityRank(severity) == 0
  {
    assert SEVERITIES[0] == "low" && SEVERITIES[1] == "medium" && SEVERITIES[2] == "high";
    assert SEVERITIES[3] == "critical";
  }

  /** One more status of a result adds to its count and to the total, and to no other. */
  lemma {:induction false} OneMoreResult(id: string, title: string, severity: Option<string>, profileType: string,
                                         statuses: seq<string>, status: string)
    ensures var r, s := WithCounts(id, title, severity, profileType, statuses),
                        WithCounts(id, title, severity, profileType, statuses + [status]);
            && s.total == r.total + 1
            && s.passed == r.passed + (if status in {"pass", "passed"} then 1 else 0)
            && s.failed == r.failed + (if status in {"fail", "failed", "failure"} then 1 else 0)
            && s.warned == r.warned + if status in {"warn", "warning", "warned"} then 1 else 0
  {
    assert (statuses + [status])[..|statuses|] == statuses;
  }

  // ---------------------------------------------------------------- total preorders

  /** What a collation promises. */
  ghost predicate Consistent(c: Collation) {
    && (forall s, t :: c(s, t) > 0 <==> c(t, s) < 0)
    && (forall s, t, u :: c(s, t) <= 0 && c(t, u) <= 0 ==> c(s, u) <= 0)
  }

  function ByNumber(asc: bool, f: RuleRow -> int): Cmp { (a: RuleRow, b: RuleRow) => Directed(asc, f(a), f(b)) }
  function ByTitle(base: Collation, asc: bool): Cmp {
    (a: RuleRow, b: RuleRow) => if asc then base(a.title, b.title) else base(b.title, a.title)
  }
  function Then(first: Cmp, second: Cmp): Cmp {
    (a: RuleRow, b: RuleRow) => if first(a, b) != 0 then first(a, b) else second(a, b)
  }

  lemma {:induction false} NumberIsPreorder(asc: bool, f: RuleRow -> int, xs: seq<RuleRow>)
    ensures PreorderOn(ByNumber(asc, f), xs)
  {
    var c := ByNumber(asc, f);
    forall a, b, d | c(a, b) <= 0 && c(b, d) <= 0
      ensures c(a, d) <= 0
    {
      assert if asc then f(a) <= f(b) <= f(d) else f(a) >= f(b) >= f(d);
    }
    forall a: RuleRow, b: RuleRow
      ensures c(a, b) == -c(b, a)
    {
      assert c(a, b) == Directed(asc, f(a), f(b)) && c(b, a) == Directed(asc, f(b), f(a));
    }
  }

  lemma {:induction false} TitleIsPreorder(base: Collation, asc: bool, xs: seq<RuleRow>)
    requires Consistent(base)
    ensures PreorderOn(ByTitle(base, asc), xs)
  {
    var c := ByTitle(base, asc);
    forall a: RuleRow, b: RuleRow
      ensures c(a, b) == if asc then base(a.title, b.title) else base(b.title, a.title)
    {}
    forall a, b, d | c(a, b) <= 0 && c(b, d) <= 0
      ensures c(a, d) <= 0
    {
      if asc {
        assert base(a.title, b.title) <= 0 && base(b.title, d.title) <= 0;
      } else {
        assert base(d.title, b.title) <= 0 && base(b.title, a.title) <= 0;
      }
    }
  }

  lemma {:induction false} ThenChain(first: Cmp, second: Cmp, xs: seq<RuleRow>, p: RuleRow, q: RuleRow, r: RuleRow)
    requires PreorderOn(first, xs) && PreorderOn(second, xs) && p in xs && q in xs && r in xs
    requires Then(first, second)(p, q) <= 0 && Then(first, second)(q, r) <= 0
    ensures Then(first, second)(p, r) <= 0
  {
    assert first(p, q) <= 0 && first(q, r) <= 0;
    assert first(p, r) <= 0;
    if first(p, r) == 0 {
      assert first(r, p) <= 0;
      assert first(r, q) <= 0 && first(q, p) <= 0;
      assert second(p, q) <= 0 && second(q, r) <= 0;
    }
  }

  /** Breaking the ties of one preorder by another gives a preorder. */
  lemma {:induction false} ThenIsPreorder(first: Cmp, second: Cmp, xs: seq<RuleRow>)
    requires PreorderOn(first, xs) && PreorderOn(second, xs)
    ensures PreorderOn(Then(first, second), xs)
  {
    var c := Then(first, second);
    forall p, q | p in xs && q in xs
      ensures c(p, q) > 0 <==> c(q, p) < 0
    {
      assert c(p, q) == if first(p, q) != 0 then first(p, q) else second(p, q);
      assert c(q, p) == if first(q, p) != 0 then first(q, p) else second(q, p);
    }
    forall p, q, r | p in xs && q in xs && r in xs && c(p, q) <= 0 && c(q, r) <= 0
      ensures c(p, r) <= 0
    {
      ThenChain(first, second, xs, p, q, r);
    }
  }

  lemma {:induction false} SameComparator(c: Cmp, d: Cmp, xs: seq<RuleRow>)
    requires PreorderOn(c, xs) && forall a, b :: c(a, b) == d(a, b)
    ensures PreorderOn(d, xs)
  {}

  function Rank(): RuleRow -> int { (r: RuleRow) => StatusRank(r) }
  function Severity(): RuleRow -> int { (r: RuleRow) => SeverityRank(r.severity) }
  function Failed(): RuleRow -> int { (r: RuleRow) => r.failed }
  function InColumn(sortBy: string): RuleRow -> int { (r: RuleRow) => Column(sortBy, r) }

  lemma {:induction false} StatusIsPreorder(asc: bool, loc: Collation, base: Collation, xs: seq<RuleRow>)
    requires Consistent(base)
    ensures PreorderOn(Comparator("status", asc, loc, base), xs)
  {
    var c3 := Then(ByNumber(asc, Failed()), ByTitle(base, true));
    var c2 := Then(ByNumber(asc, Severity()), c3);
    NumberIsPreorder(asc, Failed(), xs);
    TitleIsPreorder(base, true, xs);
    ThenIsPreorder(ByNumber(asc, Failed()), ByTitle(base, true), xs);
    NumberIsPreorder(asc, Severity(), xs);
    ThenIsPreorder(ByNumber(asc, Severity()), c3, xs);
    NumberIsPreorder(asc, Rank(), xs);
    ThenIsPreorder(ByNumber(asc, Rank()), c2, xs);
    var c1, c := Then(ByNumber(asc, Rank()), c2), Comparator("status", asc, loc, base);
    forall a: RuleRow, b: RuleRow
      ensures c1(a, b) == c(a, b)
    {
      StatusTies(asc, loc, base, a, b);
    }
    SameComparator(c1, c, xs);
  }

  lemma {:induction false} StatusTies(asc: bool, loc: Collation, base: Collation, a: RuleRow, b: RuleRow)
    ensures var c3 := Then(ByNumber(asc, Failed()), ByTitle(base, true));
            Then(ByNumber(asc, Rank()), Then(ByNumber(asc, Severity()), c3))(a, b)
            == Comparator("status", asc, loc, base)(a, b)
  {
    var c3 := Then(ByNumber(asc, Failed()), ByTitle(base, true));
    var c2 := Then(ByNumber(asc, Severity()), c3);
    assert ByNumber(asc, Failed())(a, b) == Directed(asc, a.failed, b.failed);
    assert c3(a, b) == if a.failed != b.failed then Directed(asc, a.failed, b.failed) else base(a.title, b.title);
    assert ByNumber(asc, Severity())(a, b) == Directed(asc, SeverityRank(a.severity), SeverityRank(b.severity));
    assert c2(a, b) == if SeverityRank(a.severity) != SeverityRank(b.severity)
                       then Directed(asc, SeverityRank(a.severity), SeverityRank(b.severity)) else c3(a, b);
    assert ByNumber(asc, Rank())(a, b) == Directed(asc, StatusRank(a), StatusRank(b));
    assert Comparator("status", asc, loc, base)(a, b) == CompareRules("status", asc, loc, base, a, b);
  }

  lemma {:induction false} SeverityIsPreorder(asc: bool, loc: Collation, base: Collation, xs: seq<RuleRow>)
    ensures PreorderOn(Comparator("severity", asc, loc, base), xs)
  {
    var c2 := Then(ByNumber(false, Rank()), ByNumber(false, Failed()));
    NumberIsPreorder(false, Rank(), xs);
    NumberIsPreorder(false, Failed(), xs);
    ThenIsPreorder(ByNumber(false, Rank()), ByNumber(false, Failed()), xs);
    NumberIsPreorder(asc, Severity(), xs);
    ThenIsPreorder(ByNumber(asc, Severity()), c2, xs);
    var c1, c := Then(ByNumber(asc, Severity()), c2), Comparator("severity", asc, loc, base);
    forall a: RuleRow, b: RuleRow
      ensures c1(a, b) == c(a, b)
    {
      assert c2(a, b) == if StatusRank(a) != StatusRank(b) then StatusRank(b) - StatusRank(a) else b.failed - a.failed;
      assert c(a, b) == CompareRules("severity", asc, loc, base, a, b);
    }
    SameComparator(c1, c, xs);
  }

  lemma {:induction false} ColumnIsPreorder(sortBy: string, asc: bool, loc: Collation, base: Collation,
                                            xs: seq<RuleRow>)
    requires Consistent(base) && sortBy in ["hosts_passed", "hosts_failed", "hosts_warned", "total_hosts"]
    ensures PreorderOn(Comparator(sortBy, asc, loc, base), xs)
  {
    NumberIsPreorder(asc, InColumn(sortBy), xs);
    TitleIsPreorder(base, true, xs);
    ThenIsPreorder(ByNumber(asc, InColumn(sortBy)), ByTitle(base, true), xs);
    var c1, c := Then(ByNumber(asc, InColumn(sortBy)), ByTitle(base, true)), Comparator(sortBy, asc, loc, base);
    forall a: RuleRow, b: RuleRow
      ensures c1(a, b) == c(a, b)
    {
      assert ByNumber(asc, InColumn(sortBy))(a, b) == Directed(asc, Column(sortBy, a), Column(sortBy, b));
      assert c(a, b) == CompareRules(sortBy, asc, loc, base, a, b);
    }
    SameComparator(c1, c, xs);
  }

  /** For every `sort_by` but the profile type, in both directions, the rows are ranked consistently. */
  lemma {:induction false} ComparatorIsPreorder(sortBy: string, asc: bool, loc: Collation, base: Collation,
                                                xs: seq<RuleRow>)
    requires Consistent(base) && sortBy != "profile_type"
    ensures PreorderOn(Comparator(sortBy, asc, loc, base), xs)
  {
    if sortBy == "status" {
      StatusIsPreorder(asc, loc, base, xs);
    } else if sortBy == "severity" {
      SeverityIsPreorder(asc, loc, base, xs);
    } else if sortBy == "title" {
      TitleIsPreorder(base, asc, xs);
      SameComparator(ByTitle(base, asc), Comparator(sortBy, asc, loc, base), xs);
    } else if sortBy in ["hosts_passed", "hosts_failed", "hosts_warned", "total_hosts"] {
      ColumnIsPreorder(sortBy, asc, loc, base, xs);
    }
  }

  /**
   Two rules of one type that their titles order, and a rule of another type that the collation holds level with
   it.
   */
  ghost predicate Wedge(loc: Collation, base: Collation, a: RuleRow, b: RuleRow, c: RuleRow) {
    a.profileType == c.profileType != b.profileType && loc(a.profileType, b.profileType) == 0
    && base(a.title, c.title) > 0
  }

  lemma {:induction false} WedgeBreaksRanking(asc: bool, loc: Collation, base: Collation, xs: seq<RuleRow>, a: RuleRow,
                                              b: RuleRow, c: RuleRow)
    requires Consistent(loc) && Wedge(loc, base, a, b, c) && a in xs && b in xs && c in xs
    ensures !PreorderOn(Comparator("profile_type", asc, loc, base), xs)
  {
    var cmp := Comparator("profile_type", asc, loc, base);
    LevelBothWays(loc, a.profileType, b.profileType);
    assert cmp(a, b) <= 0 && cmp(b, c) <= 0 && cmp(a, c) > 0;
  }

  ghost predicate NoWedge(loc: Collation, base: Collation, xs: seq<RuleRow>) {
    forall a, b, c :: a in xs && b in xs && c in xs ==> !Wedge(loc, base, a, b, c)
  }

  /** By profile type the ranking is consistent exactly when the list holds no such three rules. */
  lemma {:induction false} ProfileTypeIsPreorderIff(asc: bool, loc: Collation, base: Collation, xs: seq<RuleRow>)
    requires Consistent(loc) && Consistent(base)
    ensures PreorderOn(Comparator("profile_type", asc, loc, base), xs) <==> NoWedge(loc, base, xs)
  {
    var cmp := Comparator("profile_type", asc, loc, base);
    if NoWedge(loc, base, xs) {
      forall p, q, r | p in xs && q in xs && r in xs && cmp(p, q) <= 0 && cmp(q, r) <= 0
        ensures cmp(p, r) <= 0
      {
        ProfileTypeChain(asc, loc, base, p, q, r);
      }
    } else {
      var a, b, c :| a in xs && b in xs && c in xs && Wedge(loc, base, a, b, c);
      WedgeBreaksRanking(asc, loc, base, xs, a, b, c);
    }
  }

  lemma {:induction false} LevelBothWays(c: Collation, s: string, t: string)
    requires Consistent(c)
    ensures c(s, t) == 0 <==> c(t, s) == 0
  {}

  lemma {:induction false} ProfileTypeChain(asc: bool, loc: Collation, base: Collation, p: RuleRow, q: RuleRow,
                                            r: RuleRow)
    requires Consistent(loc) && Consistent(base)
    requires CompareRules("profile_type", asc, loc, base, p, q) <= 0
             && CompareRules("profile_type", asc, loc, base, q, r) <= 0
    requires !Wedge(loc, base, p, q, r)
    ensures CompareRules("profile_type", asc, loc, base, p, r) <= 0
  {
    var s, t, u := p.profileType, q.profileType, r.profileType;
    if s == u && s != t {
      LevelBothWays(loc, s, t);
    }
  }

  // ---------------------------------------------------------------- pages

  /** What paging through one fetched list shows. */
  function RulesSeen(fetched: seq<RuleRow>, cmp: Cmp, limit: nat): seq<RuleRow>
    requires limit > 0
  {
    ClampedPages(StableSort(cmp, fetched), limit, 0)
  }

  /** What ranks the rows consistently. */
  ghost predicate Rankable(fetched: seq<RuleRow>, sortBy: string, loc: Collation, base: Collation) {
    Consistent(base) && (sortBy == "profile_type" ==> Consistent(loc) && NoWedge(loc, base, fetched))
  }

  lemma {:induction false} RankableIsPreorder(fetched: seq<RuleRow>, sortBy: string, asc: bool, loc: Collation,
                                              base: Collation)
    requires Rankable(fetched, sortBy, loc, base)
    ensures PreorderOn(Comparator(sortBy, asc, loc, base), fetched)
  {
    if sortBy == "profile_type" {
      ProfileTypeIsPreorderIff(asc, loc, base, fetched);
    } else {
      ComparatorIsPreorder(sortBy, asc, loc, base, fetched);
    }
  }

  lemma {:induction false} SortKeepsDistinct<T(!new)>(cmp: (T, T) -> int, xs: seq<T>)
    requires Distinct(xs)
    ensures Distinct(StableSort(cmp, xs))
  {
    var sorted := StableSort(cmp, xs);
    StableSortPermutes(cmp, xs);
    forall i, j | 0 <= i < j < |sorted|
      ensures sorted[i] != sorted[j]
    {
      DistinctOnce(xs, sorted[i]);
      TwiceIn(sorted, i, j);
    }
  }

  lemma {:induction false} TwiceIn<T>(xs: seq<T>, i: nat, j: nat)
    requires i < j < |xs|
    ensures xs[i] == xs[j] ==> multiset(xs)[xs[i]] >= 2
  {
    assert xs == xs[..j] + xs[j..];
    assert xs[i] in xs[..j] && xs[j] in xs[j..];
    assert multiset(xs) == multiset(xs[..j]) + multiset(xs[j..]);
  }

  /**
   Over a fetched list the pages show the rules in the order asked for, each as often as it was fetched, exactly when
   the list is no longer than the pages that start at or below offset 100000. Rows are different: they have ids.
   */
  lemma {:induction false} PagesShowEveryRuleSortedIff(fetched: seq<RuleRow>, sortBy: string, asc: bool, loc: Collation,
                                                       base: Collation, limit: nat)
    requires limit > 0 && Rankable(fetched, sortBy, loc, base) && Distinct(fetched)
    ensures var cmp := Comparator(sortBy, asc, loc, base); var seen := RulesSeen(fetched, cmp, limit);
            && (multiset(seen) == multiset(fetched) <==> |fetched| <= Reach(limit))
            && (|fetched| <= Reach(limit) ==> Sorted(cmp, seen))
            && (|fetched| <= Reach(limit) ==>
                  forall i, j :: 0 <= i < j < |seen| ==> MayPrecede(sortBy, asc, loc, base, seen[i], seen[j]))
  {
    var cmp := Comparator(sortBy, asc, loc, base);
    RankableIsPreorder(fetched, sortBy, asc, loc, base);
    StableSortPermutes(cmp, fetched);
    StableSortSorts(cmp, fetched, fetched);
    SortKeepsDistinct(cmp, fetched);
    ClampedPagesCompleteIff(StableSort(cmp, fetched), limit);
    SortedMeans(RulesSeen(fetched, cmp, limit), sortBy, asc, loc, base);
  }

  lemma {:induction false} SortedMeans(xs: seq<RuleRow>, sortBy: string, asc: bool, loc: Collation, base: Collation)
    ensures Sorted(Comparator(sortBy, asc, loc, base), xs) ==>
              forall i, j :: 0 <= i < j < |xs| ==> MayPrecede(sortBy, asc, loc, base, xs[i], xs[j])
  {
    forall i, j | 0 <= i < j < |xs|
      ensures Comparator(sortBy, asc, loc, base)(xs[i], xs[j]) <= 0 <==>
              MayPrecede(sortBy, asc, loc, base, xs[i], xs[j])
    {
      ComparatorMeaning(sortBy, asc, loc, base, xs[i], xs[j]);
    }
  }

  // ---------------------------------------------------------------- fetching again for every page

  /** No two different elements are level. */
  ghost predicate Separates<T(!new)>(cmp: (T, T) -> int, xs: seq<T>) {
    forall a, b :: a in xs && b in xs && a != b ==> cmp(a, b) != 0
  }

  /** The sorted list does not depend on the order in which the elements were fetched. */
  ghost predicate FetchOrderFree<T(!new)>(cmp: (T, T) -> int, xs: seq<T>) {
    forall ys: seq<T> :: multiset(ys) == multiset(xs) ==> StableSort(cmp, ys) == StableSort(cmp, xs)
  }

  lemma {:induction false} FrontOf<T>(xs: seq<T>)
    requires xs != []
    ensures multiset(xs[..|xs| - 1]) == multiset(xs) - multiset{xs[|xs| - 1]}
  {
    assert xs == xs[..|xs| - 1] + [xs[|xs| - 1]];
  }

  lemma {:induction false} SameFront<T>(xs: seq<T>, ys: seq<T>)
    requires multiset(xs) == multiset(ys) && |xs| == |ys| > 0 && xs[|xs| - 1] == ys[|ys| - 1]
    ensures multiset(xs[..|xs| - 1]) == multiset(ys[..|ys| - 1])
  {
    FrontOf(xs);
    FrontOf(ys);
  }

  lemma {:induction false} SameLength<T>(xs: seq<T>, ys: seq<T>)
    requires multiset(xs) == multiset(ys)
    ensures |xs| == |ys|
  {
    assert |xs| == |multiset(xs)| == |multiset(ys)|;
  }

  lemma {:induction false} FrontSorted<T(!new)>(cmp: (T, T) -> int, xs: seq<T>)
    requires xs != [] && Sorted(cmp, xs)
    ensures Sorted(cmp, xs[..|xs| - 1])
  {}

  lemma {:induction false} SortedIsUnique<T(!new)>(cmp: (T, T) -> int, xs: seq<T>, ys: seq<T>, all: seq<T>)
    requires PreorderOn(cmp, all) && Separates(cmp, all) && multiset(xs) == multiset(ys)
    requires forall x :: x in xs ==> x in all
    requires Sorted(cmp, xs) && Sorted(cmp, ys)
    ensures xs == ys
    decreases |xs|
  {
    SameLength(xs, ys);
    if xs == [] {
    } else {
      var n := |xs| - 1;
      SameElements(xs, ys);
      LastIsLast(cmp, xs, ys, all);
      SameFront(xs, ys);
      FrontSorted(cmp, xs);
      FrontSorted(cmp, ys);
      SortedIsUnique(cmp, xs[..n], ys[..n], all);
      assert xs == xs[..n] + [xs[n]] && ys == ys[..n] + [ys[n]];
    }
  }

  lemma {:induction false} LastIsTop<T(!new)>(cmp: (T, T) -> int, xs: seq<T>, y: T, all: seq<T>)
    requires PreorderOn(cmp, all) && Sorted(cmp, xs) && y in xs && y in all
    ensures cmp(y, xs[|xs| - 1]) <= 0
  {
    var i :| 0 <= i < |xs| && xs[i] == y;
    assert cmp(y, y) <= 0;
  }

  lemma {:induction false} LastIsLast<T(!new)>(cmp: (T, T) -> int, xs: seq<T>, ys: seq<T>, all: seq<T>)
    requires PreorderOn(cmp, all) && Separates(cmp, all)
    requires (forall x :: x in xs <==> x in ys) && forall x :: x in xs ==> x in all
    requires Sorted(cmp, xs) && Sorted(cmp, ys) && |xs| == |ys| > 0
    ensures xs[|xs| - 1] == ys[|ys| - 1]
  {
    var x, y := xs[|xs| - 1], ys[|ys| - 1];
    assert x in xs && y in ys;
    LastIsTop(cmp, xs, y, all);
    LastIsTop(cmp, ys, x, all);
  }

  lemma {:induction false} LevelOfSum<T>(cmp: (T, T) -> int, k: T, a: seq<T>, b: seq<T>)
    ensures Level(cmp, k, a + b) == Level(cmp, k, a) + Level(cmp, k, b)
    decreases |b|
  {
    if b == [] {
      assert a + b == a;
    } else {
      LevelOfSum(cmp, k, a, b[..|b| - 1]);
      assert (a + b)[..|a + b| - 1] == a + b[..|b| - 1];
    }
  }

  lemma {:induction false} LevelOfTwo<T>(cmp: (T, T) -> int, k: T, x: T, y: T)
    requires cmp(x, k) == 0 && cmp(y, k) == 0
    ensures Level(cmp, k, [x, y]) == [x, y]
  {
    assert [x, y][..1] == [x] && [x][..0] == [];
    assert Level(cmp, k, [x]) == [x];
  }

  /** Two level elements swapped at the front come out of the sort swapped. */
  lemma {:induction false} SwapShows<T(!new)>(cmp: (T, T) -> int, x: T, y: T, rest: seq<T>)
    requires PreorderOn(cmp, [x, y] + rest) && x != y && cmp(x, y) == 0
    ensures StableSort(cmp, [x, y] + rest) != StableSort(cmp, [y, x] + rest)
  {
    var all := [x, y] + rest;
    assert x in all && y in all;
    assert all[0] == x && all[1] == y;
    assert forall z :: z in [y, x] + rest ==> z in all;
    assert cmp(x, x) == 0 && cmp(y, x) == 0;
    StableSortKeepsLevels(cmp, all, x, all);
    StableSortKeepsLevels(cmp, [y, x] + rest, x, all);
    LevelOfSum(cmp, x, [x, y], rest);
    LevelOfSum(cmp, x, [y, x], rest);
    LevelOfTwo(cmp, x, x, y);
    LevelOfTwo(cmp, x, y, x);
    assert ([x, y] + Level(cmp, x, rest))[0] == x;
    assert ([y, x] + Level(cmp, x, rest))[0] == y;
  }

  /** Pages built from separate fetches agree in every case exactly when no two different rows are level. */
  lemma {:induction false} FetchOrderFreeIff<T(!new)>(cmp: (T, T) -> int, xs: seq<T>)
    requires PreorderOn(cmp, xs)
    ensures FetchOrderFree(cmp, xs) <==> Separates(cmp, xs)
  {
    if Separates(cmp, xs) {
      forall ys: seq<T> | multiset(ys) == multiset(xs)
        ensures StableSort(cmp, ys) == StableSort(cmp, xs)
      {
        SortsAgree(cmp, xs, ys);
      }
    }
    if !Separates(cmp, xs) {
      LevelPairShows(cmp, xs);
    }
  }

  lemma {:induction false} TwoOrdersDiffer<T(!new)>(cmp: (T, T) -> int, xs: seq<T>, ys: seq<T>, zs: seq<T>)
    requires multiset(ys) == multiset(xs) && multiset(zs) == multiset(xs)
    requires StableSort(cmp, ys) != StableSort(cmp, zs)
    ensures !FetchOrderFree(cmp, xs)
  {}

  lemma {:induction false} LevelPairShows<T(!new)>(cmp: (T, T) -> int, xs: seq<T>)
    requires PreorderOn(cmp, xs) && !Separates(cmp, xs)
    ensures !FetchOrderFree(cmp, xs)
  {
    var x, y :| x in xs && y in xs && x != y && cmp(x, y) == 0;
    var rest := TakeTwo(xs, x, y);
    SamePreorder(cmp, xs, [x, y] + rest);
    SwapShows(cmp, x, y, rest);
    SwapFront(x, y, rest);
    TwoOrdersDiffer(cmp, xs, [x, y] + rest, [y, x] + rest);
  }

  lemma {:induction false} SwapFront<T>(x: T, y: T, rest: seq<T>)
    ensures multiset([x, y] + rest) == multiset([y, x] + rest)
  {
    assert multiset([x, y]) == multiset([y, x]);
  }

  lemma {:induction false} SortsAgree<T(!new)>(cmp: (T, T) -> int, xs: seq<T>, ys: seq<T>)
    requires PreorderOn(cmp, xs) && Separates(cmp, xs) && multiset(ys) == multiset(xs)
    ensures StableSort(cmp, ys) == StableSort(cmp, xs)
  {
    StableSortPermutes(cmp, xs);
    StableSortPermutes(cmp, ys);
    SameElements(xs, ys);
    SameElements(StableSort(cmp, xs), xs);
    StableSortSorts(cmp, xs, xs);
    StableSortSorts(cmp, ys, xs);
    SortedIsUnique(cmp, StableSort(cmp, xs), StableSort(cmp, ys), xs);
  }

  lemma {:induction false} SamePreorder<T(!new)>(cmp: (T, T) -> int, xs: seq<T>, ys: seq<T>)
    requires PreorderOn(cmp, xs) && multiset(xs) == multiset(ys)
    ensures PreorderOn(cmp, ys)
  {
    SameElements(xs, ys);
  }

  lemma {:induction false} TakeOut<T>(xs: seq<T>, x: T) returns (rest: seq<T>)
    requires x in xs
    ensures multiset(rest) + multiset{x} == multiset(xs)
  {
    var i :| 0 <= i < |xs| && xs[i] == x;
    rest := xs[..i] + xs[i + 1..];
    assert xs == xs[..i] + [x] + xs[i + 1..];
  }

  lemma {:induction false} TakeTwo<T>(xs: seq<T>, x: T, y: T) returns (rest: seq<T>)
    requires x in xs && y in xs && x != y
    ensures multiset([x, y] + rest) == multiset(xs)
  {
    var ys := TakeOut(xs, x);
    assert y in multiset(xs);
    rest := TakeOut(ys, y);
    assert multiset([x, y] + rest) == multiset{x} + multiset{y} + multiset(rest);
  }

  /**
   Two level rows, one a page: if the second fetch returns them the other way round, one row shows twice and one
   never.
   */
  lemma {:induction false} LevelRowCanShowTwice<T(!new)>(cmp: (T, T) -> int, x: T, y: T)
    requires x != y && cmp(x, y) == 0 && cmp(y, x) == 0
    ensures Page(StableSort(cmp, [x, y]), 1, 0) == [x] && Page(StableSort(cmp, [y, x]), 1, 1) == [x]
  {
    SortTwoLevel(cmp, x, y);
    SortTwoLevel(cmp, y, x);
  }

  lemma {:induction false} SortTwoLevel<T(!new)>(cmp: (T, T) -> int, x: T, y: T)
    requires cmp(x, y) == 0
    ensures StableSort(cmp, [x, y]) == [x, y]
  {
    assert [x, y][..1] == [x] && [x][..0] == [];
    assert StableSort(cmp, [x]) == [x];
  }

  // ---------------------------------------------------------------- the results of one scan

  datatype ResultRow = ResultRow(id: string, status: string)

  /** Failed first, then warnings, then passed, then the rest; `lower` is lower-casing. */
  function ResultRank(status: string, lower: string -> string): int {
    var s := lower(status);
    if s in FAILED then 1 else if s in WARNED then 2 else if s in PASSED then 3 else 4
  }

  /** The spellings behind the four ranks of a result. */
  lemma {:induction false} ResultRanks(status: string, lower: string -> string)
    ensures lower(status) in {"fail", "failed", "failure"} ==> ResultRank(status, lower) == 1
    ensures lower(status) in {"warn", "warning", "warned"} ==> ResultRank(status, lower) == 2
    ensures lower(status) in {"pass", "passed"} ==> ResultRank(status, lower) == 3
    ensures lower(status) !in {"fail", "failed", "failure", "warn", "warning", "warned", "pass", "passed"} ==>
              ResultRank(status, lower) == 4
  {}

  function CompareResults(lower: string -> string): (ResultRow, ResultRow) -> int {
    (a: ResultRow, b: ResultRow) => ResultRank(a.status, lower) - ResultRank(b.status, lower)
  }

  lemma {:induction false} ResultsAreRanked(xs: seq<ResultRow>, lower: string -> string)
    ensures PreorderOn(CompareResults(lower), xs)
  {}

  /**
   Over one fetched list the pages show every result once, failures before warnings before passes, ties as
   fetched.
   */
  lemma {:induction false} PagesShowEveryResultRanked(fetched: seq<ResultRow>, lower: string -> string, limit: nat)
    requires limit > 0
    ensures var cmp := CompareResults(lower); var seen := AllPages(StableSort(cmp, fetched), limit, 0);
            && multiset(seen) == multiset(fetched)
            && (forall i, j :: 0 <= i < j < |seen| ==>
                  ResultRank(seen[i].status, lower) <= ResultRank(seen[j].status, lower))
            && (forall r :: r in fetched ==> Level(cmp, r, seen) == Level(cmp, r, fetched))
  {
    var cmp := CompareResults(lower);
    var sorted := StableSort(cmp, fetched);
    ResultsAreRanked(fetched, lower);
    StableSortPermutes(cmp, fetched);
    StableSortSorts(cmp, fetched, fetched);
    PagesConcatenate(sorted, limit, 0);
    assert sorted[0..] == sorted;
    forall i, j | 0 <= i < j < |sorted|
      ensures ResultRank(sorted[i].status, lower) <= ResultRank(sorted[j].status, lower)
    {
      assert cmp(sorted[i], sorted[j]) <= 0;
    }
    forall r | r in fetched
      ensures Level(cmp, r, sorted) == Level(cmp, r, fetched)
    {
      StableSortKeepsLevels(cmp, fetched, r, fetched);
    }
  }

  /** Results are fetched again for each page in no fixed order, so with two results of one rank pages may disagree. */
  lemma {:induction false} ResultPagesAgreeIff(fetched: seq<ResultRow>, lower: string -> string)
    ensures FetchOrderFree(CompareResults(lower), fetched) <==>
            forall a, b :: a in fetched && b in fetched && a != b ==>
              ResultRank(a.status, lower) != ResultRank(b.status, lower)
  {
    ResultsAreRanked(fetched, lower);
    FetchOrderFreeIff(CompareResults(lower), fetched);
    forall a: ResultRow, b: ResultRow
      ensures CompareResults(lower)(a, b) == ResultRank(a.status, lower) - ResultRank(b.status, lower)
    {}
  }
}
