/**
 The sums of the compliance dashboard: over all latest scans, by profile type and by profile.
 */
module ComplianceTotals {
  import opened Options
  import opened ComplianceDashboard

  /** One group: how many scans, and the sums of their columns. */
  datatype Totals = Totals(scans: nat, score: real, passed: int, failed: int, warnings: int, rules: int)

  const ZERO := Totals(0, 0.0, 0, 0, 0, 0)

  function Add(a: Totals, b: Totals): Totals {
    Totals(a.scans + b.scans, a.score + b.score, a.passed + b.passed, a.failed + b.failed,
           a.warnings + b.warnings, a.rules + b.rules)
  }

  function One(s: Scan): Totals { Totals(1, Score(s), s.passed, s.failed, s.warnings, s.rules) }

  function ByType(): Key { (s: Scan) => if s.joinedType.Some? then s.joinedType.value else "unknown" }
  function ByProfile(): Key { (s: Scan) => s.profile }

  /** The object a reduce over the scans fills; the order of its keys is not modelled. */
  function Group(scans: seq<Scan>, key: Key): map<string, Totals> {
    if scans == [] then map[]
    else
      var m, s := Group(scans[..|scans| - 1], key), scans[|scans| - 1];
      m[key(s) := Add(if key(s) in m then m[key(s)] else ZERO, One(s))]
  }

  method GroupTotals(scans: seq<Scan>, key: Key) returns (groups: map<string, Totals>)
    ensures groups == Group(scans, key)
  {
    groups := map[];
    for i := 0 to |scans|
      invariant groups == Group(scans[..i], key)
    {
      assert scans[..i + 1][..i] == scans[..i];
      var k := key(scans[i]);
      if k !in groups {
        groups := groups[k := ZERO];
      }
      groups := groups[k := Add(groups[k], One(scans[i]))];
    }
    assert scans[..|scans|] == scans;
  }

  /** Sums over the scans of one key, from the left. */
  function SumIf(scans: seq<Scan>, key: Key, k: string): Totals {
    if scans == [] then ZERO
    else
      var sum, s := SumIf(scans[..|scans| - 1], key, k), scans[|scans| - 1];
      if key(s) == k then Add(sum, One(s)) else sum
  }

  /** Sums over all scans, as the summary computes them. */
  function Sum(scans: seq<Scan>): Totals {
    if scans == [] then ZERO else Add(Sum(scans[..|scans| - 1]), One(scans[|scans| - 1]))
  }

  /** Each key that occurs has the sums of its scans. */
  lemma {:induction false} GroupExact(scans: seq<Scan>, key: Key, k: string)
    ensures k in Group(scans, key) <==> SumIf(scans, key, k).scans > 0
    ensures SumIf(scans, key, k) == if k in Group(scans, key) then Group(scans, key)[k] else ZERO
    decreases |scans|
  {
    if scans == [] {
    } else {
      GroupExact(scans[..|scans| - 1], key, k);
    }
  }

  // ---------------------------------------------------------------- conservation

  ghost function SumOver(keys: set<string>, m: map<string, Totals>): Totals
    requires keys <= m.Keys
    decreases |keys|
  {
    if keys == {} then ZERO
    else
      var k :| k in keys;
      Add(m[k], SumOver(keys - {k}, m))
  }

  lemma {:induction false} AddSwap(a: Totals, b: Totals, c: Totals)
    ensures Add(a, Add(b, c)) == Add(b, Add(a, c))
  {}

  lemma {:induction false} SumOverPick(keys: set<string>, m: map<string, Totals>, k: string)
    requires keys <= m.Keys && k in keys
    ensures SumOver(keys, m) == Add(m[k], SumOver(keys - {k}, m))
    decreases |keys|
  {
    var x :| x in keys && SumOver(keys, m) == Add(m[x], SumOver(keys - {x}, m));
    if x != k {
      SumOverPick(keys - {x}, m, k);
      SumOverPick(keys - {k}, m, x);
      assert keys - {x} - {k} == keys - {k} - {x};
      AddSwap(m[x], m[k], SumOver(keys - {x} - {k}, m));
    }
  }

  lemma {:induction false} SumOverSame(keys: set<string>, m: map<string, Totals>, n: map<string, Totals>)
    requires keys <= m.Keys && keys <= n.Keys && forall k :: k in keys ==> m[k] == n[k]
    ensures SumOver(keys, m) == SumOver(keys, n)
    decreases |keys|
  {
    if keys == {} {
    } else {
      var k :| k in keys;
      SumOverPick(keys, m, k);
      SumOverPick(keys, n, k);
      SumOverSame(keys - {k}, m, n);
    }
  }

  lemma {:induction false} AddToOneGroup(m: map<string, Totals>, k: string, t: Totals)
    ensures var n := m[k := Add(if k in m then m[k] else ZERO, t)];
            SumOver(n.Keys, n) == Add(SumOver(m.Keys, m), t)
  {
    var n := m[k := Add(if k in m then m[k] else ZERO, t)];
    SumOverPick(n.Keys, n, k);
    SumOverSame(n.Keys - {k}, m, n);
    if k in m {
      SumOverPick(m.Keys, m, k);
      assert n.Keys == m.Keys;
    } else {
      assert n.Keys - {k} == m.Keys;
    }
  }

  /** Every column of the groups adds up to the summary: scans, scores, passed, failed, warnings and rules. */
  lemma {:induction false} GroupsConserve(scans: seq<Scan>, key: Key)
    ensures SumOver(Group(scans, key).Keys, Group(scans, key)) == Sum(scans)
    ensures Sum(scans).scans == |scans|
    decreases |scans|
  {
    if scans == [] {
    } else {
      var init, s := scans[..|scans| - 1], scans[|scans| - 1];
      GroupsConserve(init, key);
      AddToOneGroup(Group(init, key), key(s), One(s));
    }
  }

  // ---------------------------------------------------------------- independence of the order

  lemma {:induction false} SumIfSnoc(init: seq<Scan>, s: Scan, key: Key, k: string)
    ensures SumIf(init + [s], key, k) == if key(s) == k then Add(SumIf(init, key, k), One(s)) else SumIf(init, key, k)
  {
    assert (init + [s])[..|init|] == init;
  }

  lemma {:induction false} AddLater(a: Totals, b: Totals, c: Totals)
    ensures Add(Add(a, b), c) == Add(Add(a, c), b)
  {}

  /** A scan may be taken out anywhere. */
  lemma {:induction false} SumIfWithout(scans: seq<Scan>, key: Key, k: string, i: nat)
    requires i < |scans|
    ensures var sum := SumIf(scans[..i] + scans[i + 1..], key, k);
            SumIf(scans, key, k) == if key(scans[i]) == k then Add(sum, One(scans[i])) else sum
    decreases |scans|
  {
    var n := |scans| - 1;
    var init, last := scans[..n], scans[n];
    if i == n {
      assert scans[..i] + scans[i + 1..] == init;
    } else {
      var rest := init[..i] + init[i + 1..];
      SumIfWithout(init, key, k, i);
      SumIfSnoc(rest, last, key, k);
      assert scans[..i] + scans[i + 1..] == rest + [last];
      AddLater(SumIf(rest, key, k), One(scans[i]), One(last));
    }
  }

  lemma {:induction false} SumIfIsOrderFree(a: seq<Scan>, b: seq<Scan>, key: Key, k: string)
    requires multiset(a) == multiset(b)
    ensures SumIf(a, key, k) == SumIf(b, key, k)
    decreases |a|
  {
    assert |a| == |multiset(a)| == |multiset(b)| == |b|;
    if a == [] {
    } else {
      var n := |a| - 1;
      assert a == a[..n] + [a[n]];
      assert a[n] in multiset(b);
      var i :| 0 <= i < |b| && b[i] == a[n];
      SameWithout(a, b, i);
      SumIfIsOrderFree(a[..n], b[..i] + b[i + 1..], key, k);
      SumIfWithout(b, key, k, i);
    }
  }

  lemma {:induction false} WithoutOne<T>(xs: seq<T>, i: nat)
    requires i < |xs|
    ensures multiset(xs[..i] + xs[i + 1..]) + multiset{xs[i]} == multiset(xs)
  {
    assert xs == xs[..i] + [xs[i]] + xs[i + 1..];
  }

  lemma {:induction false} SameRest<T>(a: multiset<T>, b: multiset<T>, x: T)
    requires a + multiset{x} == b + multiset{x}
    ensures a == b
  {
    assert a == (a + multiset{x}) - multiset{x};
    assert b == (b + multiset{x}) - multiset{x};
  }

  lemma {:induction false} SameWithout(a: seq<Scan>, b: seq<Scan>, i: nat)
    requires multiset(a) == multiset(b) && a != [] && i < |b| && b[i] == a[|a| - 1]
    ensures multiset(a[..|a| - 1]) == multiset(b[..i] + b[i + 1..])
  {
    var init, rest := a[..|a| - 1], b[..i] + b[i + 1..];
    WithoutOne(b, i);
    WithoutOne(a, |a| - 1);
    assert init + a[|a|..] == init;
    SameRest(multiset(init), multiset(rest), b[i]);
  }

  lemma {:induction false} SameMap(m: map<string, Totals>, n: map<string, Totals>)
    requires forall k :: (k in m <==> k in n) && (k in m ==> m[k] == n[k])
    ensures m == n
  {
    assert m.Keys == n.Keys;
  }

  /** The groups, and with them averages and host counts, do not depend on the order of the scans. */
  lemma {:induction false} GroupIsOrderFree(a: seq<Scan>, b: seq<Scan>, key: Key)
    requires multiset(a) == multiset(b)
    ensures Group(a, key) == Group(b, key)
  {
    forall k
      ensures k in Group(a, key) <==> k in Group(b, key)
      ensures k in Group(a, key) ==> Group(a, key)[k] == Group(b, key)[k]
    {
      GroupExact(a, key, k);
      GroupExact(b, key, k);
      SumIfIsOrderFree(a, b, key, k);
    }
    SameMap(Group(a, key), Group(b, key));
  }

  // ---------------------------------------------------------------- scans against hosts

  function HostsAt(scans: seq<Scan>, key: Key, k: string): set<string> {
    set s | s in scans && key(s) == k :: s.host
  }

  /** No host has two scans under the key. */
  predicate OneEach(scans: seq<Scan>, key: Key, k: string) {
    forall i, j :: 0 <= i < j < |scans| && key(scans[i]) == k && key(scans[j]) == k ==> scans[i].host != scans[j].host
  }

  lemma {:induction false} HostsAtStep(scans: seq<Scan>, key: Key, k: string)
    requires scans != []
    ensures var init, s := scans[..|scans| - 1], scans[|scans| - 1];
            HostsAt(scans, key, k) == if key(s) == k then HostsAt(init, key, k) + {s.host} else HostsAt(init, key, k)
  {
    var init, last := scans[..|scans| - 1], scans[|scans| - 1];
    assert scans == init + [last];
    assert forall s :: s in scans <==> s in init || s == last;
  }

  lemma {:induction false} OneEachStep(scans: seq<Scan>, key: Key, k: string)
    requires scans != []
    ensures var init, s := scans[..|scans| - 1], scans[|scans| - 1];
            OneEach(scans, key, k) <==> OneEach(init, key, k) && (key(s) == k ==> s.host !in HostsAt(init, key, k))
  {
    var n := |scans| - 1;
    var init, s := scans[..n], scans[n];
    assert forall i :: 0 <= i < n ==> init[i] == scans[i];
    if key(s) == k {
      if s.host in HostsAt(init, key, k) {
        var t :| t in init && key(t) == k && t.host == s.host;
        var i :| 0 <= i < n && init[i] == t;
        assert scans[i].host == scans[n].host;
      } else {
        forall i | 0 <= i < n && key(scans[i]) == k
          ensures scans[i].host != s.host
        {
          assert init[i] in init;
        }
      }
    }
  }

  /**
   A group's scan count, reported as a number of hosts, is never too small, and is the number of hosts exactly when no
   host has two scans in the group.
   */
  lemma {:induction false} ScansCountHostsIff(scans: seq<Scan>, key: Key, k: string)
    ensures |HostsAt(scans, key, k)| <= SumIf(scans, key, k).scans
    ensures |HostsAt(scans, key, k)| == SumIf(scans, key, k).scans <==> OneEach(scans, key, k)
    decreases |scans|
  {
    if scans == [] {
    } else {
      var init := scans[..|scans| - 1];
      ScansCountHostsIff(init, key, k);
      HostsAtStep(scans, key, k);
      OneEachStep(scans, key, k);
    }
  }

  /** What the query of the latest scans returns: one row for each host and profile. */
  predicate OnePerHostAndProfile(scans: seq<Scan>) {
    forall i, j :: 0 <= i < j < |scans| ==> scans[i].host != scans[j].host || scans[i].profile != scans[j].profile
  }

  /** So the host count of a profile is its number of hosts. */
  lemma {:induction false} ProfileHostCount(scans: seq<Scan>, profile: string)
    requires OnePerHostAndProfile(scans) && profile in Group(scans, ByProfile())
    ensures Group(scans, ByProfile())[profile].scans == |HostsAt(scans, ByProfile(), profile)|
  {
    GroupExact(scans, ByProfile(), profile);
    assert forall s: Scan :: ByProfile()(s) == s.profile;
    ScansCountHostsIff(scans, ByProfile(), profile);
  }

  /** The `hosts_scanned` of a type counts a host once for each of its profiles of that type. */
  lemma {:induction false} HostsScannedCanCountAHostTwice(a: Scan, b: Scan)
    requires a.host == b.host && a.profile != b.profile && a.joinedType == b.joinedType == Some("openscap")
    ensures OnePerHostAndProfile([a, b])
    ensures "openscap" in Group([a, b], ByType()) && Group([a, b], ByType())["openscap"].scans == 2
    ensures |HostsAt([a, b], ByType(), "openscap")| == 1
  {
    assert ByType()(a) == "openscap" && ByType()(b) == "openscap";
    assert HostsAt([a, b], ByType(), "openscap") == {a.host};
    SumIfSnoc([], a, ByType(), "openscap");
    SumIfSnoc([a], b, ByType(), "openscap");
    assert [a] + [b] == [a, b] && [] + [a] == [a];
    GroupExact([a, b], ByType(), "openscap");
  }

  // ---------------------------------------------------------------- scans by status

  function ScansWith(scans: seq<Scan>, status: Status): nat {
    if scans == [] then 0
    else ScansWith(scans[..|scans| - 1], status) + if StatusOf(Score(scans[|scans| - 1])) == status then 1 else 0
  }

  lemma {:induction false} ScansPartition(scans: seq<Scan>)
    ensures ScansWith(scans, Compliant) + ScansWith(scans, Warning) + ScansWith(scans, Critical) == |scans|
    decreases |scans|
  {
    if scans == [] {
    } else {
      ScansPartition(scans[..|scans| - 1]);
    }
  }

  // ---------------------------------------------------------------- column by column

  /** One more scan of the key adds one to the scans and its own number to each column; others add nothing. */
  lemma {:induction false} OneMoreScan(scans: seq<Scan>, s: Scan, key: Key, k: string)
    ensures var before, after := SumIf(scans, key, k), SumIf(scans + [s], key, k);
            after == if key(s) != k then before
                     else Totals(before.scans + 1, before.score + (if s.score.Some? then s.score.value else 0.0),
                                 before.passed + s.passed, before.failed + s.failed, before.warnings + s.warnings,
                                 before.rules + s.rules)
    ensures SumIf([], key, k) == Totals(0, 0.0, 0, 0, 0, 0)
  {
    assert (scans + [s])[..|scans|] == scans;
  }

  /** The summary over all scans, likewise. */
  lemma {:induction false} OneMoreInSummary(scans: seq<Scan>, s: Scan)
    ensures var before := Sum(scans);
            Sum(scans + [s])
            == Totals(before.scans + 1, before.score + (if s.score.Some? then s.score.value else 0.0),
                      before.passed + s.passed, before.failed + s.failed, before.warnings + s.warnings,
                      before.rules + s.rules)
    ensures Sum([]) == Totals(0, 0.0, 0, 0, 0, 0)
  {
    assert (scans + [s])[..|scans|] == scans;
  }

  /** Groups are by profile, and by the type of the joined profile, unknown where the join finds none. */
  lemma {:induction false} GroupKeys(s: Scan)
    ensures ByProfile()(s) == s.profile
    ensures s.joinedType.Some? ==> ByType()(s) == s.joinedType.value
    ensures s.joinedType.None? ==> ByType()(s) == "unknown"
  {}

  /** A scan counts as compliant from 80, as a warning from 60, and as critical below. */
  lemma {:induction false} OneMoreByStatus(scans: seq<Scan>, s: Scan)
    ensures var score := if s.score.Some? then s.score.value else 0.0;
            && ScansWith(scans + [s], Compliant) == ScansWith(scans, Compliant) + (if score >= 80.0 then 1 else 0)
            && ScansWith(scans + [s], Warning) == ScansWith(scans, Warning) + (if 60.0 <= score < 80.0 then 1 else 0)
            && ScansWith(scans + [s], Critical) == ScansWith(scans, Critical) + if score < 60.0 then 1 else 0
  {
    assert (scans + [s])[..|scans|] == scans;
  }
}
