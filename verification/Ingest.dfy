/**
 Storing the per-rule results of one compliance scan: deduplication, reconciliation with the rules the
 profile already has, one result row per rule, and the score.

 Absent, null and empty texts are all falsy in the source and are the empty string here.
 The rules are those of one profile; other profiles are not touched.
 */
module Ingest {
  import opened Options

  datatype Result = Result(
    ruleRef: string, ruleId: string, id: string, status: string, title: string, description: string,
    severity: string, section: string, remediation: string)

  /** rule_ref, else rule_id, else id. */
  function Ref(r: Result): string {
    if r.ruleRef != "" then r.ruleRef else if r.ruleId != "" then r.ruleId else r.id
  }

  function Priority(status: string): nat {
    if status == "fail" then 6
    else if status == "warn" then 5
    else if status == "pass" then 4
    else if status == "skip" then 3
    else if status == "notapplicable" then 2
    else if status == "error" then 1
    else 0
  }

  // ---------------------------------------------------------------- deduplication

  /** Where the result of a rule stands; the length if there is none. */
  function IndexOf(kept: seq<Result>, ref: string): (k: nat)
    ensures k <= |kept| && (k < |kept| ==> Ref(kept[k]) == ref)
    ensures forall i :: 0 <= i < k ==> Ref(kept[i]) != ref
  {
    if kept == [] || Ref(kept[0]) == ref then 0 else 1 + IndexOf(kept[1..], ref)
  }

  /** Setting a key of a JavaScript Map keeps its position. */
  function Absorb(kept: seq<Result>, r: Result): seq<Result> {
    if Ref(r) == "" then kept
    else
      var k := IndexOf(kept, Ref(r));
      if k == |kept| then kept + [r]
      else if Priority(r.status) > Priority(kept[k].status) then kept[k := r]
      else kept
  }

  function Dedupe(results: seq<Result>): seq<Result> {
    if results == [] then [] else Absorb(Dedupe(results[..|results| - 1]), results[|results| - 1])
  }

  /** One turn of the loop. */
  method SetUnique(kept: seq<Result>, r: Result) returns (unique: seq<Result>)
    ensures unique == Absorb(kept, r)
  {
    unique := kept;
    var ref := Ref(r);
    if ref == "" {
      return;
    }
    var k := IndexOf(unique, ref);
    if k == |unique| {
      unique := unique + [r];
    } else {
      var existingPriority, newPriority := Priority(unique[k].status), Priority(r.status);
      if newPriority > existingPriority {
        unique := unique[k := r];
      }
    }
  }

  method Deduplicate(results: seq<Result>) returns (unique: seq<Result>)
    ensures unique == Dedupe(results)
  {
    unique := [];
    for i := 0 to |results|
      invariant unique == Dedupe(results[..i])
    {
      assert results[..i + 1][..i] == results[..i];
      unique := SetUnique(unique, results[i]);
    }
    assert results[..|results|] == results;
  }

  predicate DistinctRefs(kept: seq<Result>) {
    forall i, j :: 0 <= i < j < |kept| ==> Ref(kept[i]) != Ref(kept[j])
  }

  /** The first result of the highest priority among those of its rule. */
  predicate Best(results: seq<Result>, i: nat) {
    i < |results| && Ref(results[i]) != ""
    && forall j :: 0 <= j < |results| && Ref(results[j]) == Ref(results[i]) ==>
         && Priority(results[j].status) <= Priority(results[i].status)
         && (j < i ==> Priority(results[j].status) < Priority(results[i].status))
  }

  ghost predicate Represents(results: seq<Result>, r: Result) {
    exists i: nat :: Best(results, i) && results[i] == r
  }

  ghost predicate AllRepresent(results: seq<Result>, kept: seq<Result>) {
    forall k :: 0 <= k < |kept| ==> Represents(results, kept[k])
  }

  predicate Has(kept: seq<Result>, ref: string) { IndexOf(kept, ref) < |kept| }

  predicate Covers(kept: seq<Result>, results: seq<Result>) {
    forall i :: 0 <= i < |results| && Ref(results[i]) != "" ==> Has(kept, Ref(results[i]))
  }

  lemma {:induction false} HasAt(kept: seq<Result>, k: nat)
    requires k < |kept|
    ensures Has(kept, Ref(kept[k]))
  {}

  lemma {:induction false} AbsorbStaysDistinct(kept: seq<Result>, r: Result)
    requires DistinctRefs(kept)
    ensures DistinctRefs(Absorb(kept, r))
  {}

  lemma {:induction false} AbsorbKeeps(kept: seq<Result>, r: Result, ref: string)
    requires Has(kept, ref)
    ensures Has(Absorb(kept, r), ref)
  {
    var m := IndexOf(kept, ref);
    assert Ref(Absorb(kept, r)[m]) == ref;
    HasAt(Absorb(kept, r), m);
  }

  lemma {:induction false} AbsorbAdds(kept: seq<Result>, r: Result)
    requires Ref(r) != ""
    ensures Has(Absorb(kept, r), Ref(r))
  {
    var k := IndexOf(kept, Ref(r));
    assert Ref(Absorb(kept, r)[k]) == Ref(r);
    HasAt(Absorb(kept, r), k);
  }

  lemma {:induction false} AbsorbCovers(kept: seq<Result>, init: seq<Result>, last: Result)
    requires Covers(kept, init)
    ensures Covers(Absorb(kept, last), init + [last])
  {
    var results, after := init + [last], Absorb(kept, last);
    forall i | 0 <= i < |results| && Ref(results[i]) != ""
      ensures Has(after, Ref(results[i]))
    {
      if i < |init| {
        AbsorbKeeps(kept, last, Ref(init[i]));
      } else {
        AbsorbAdds(kept, last);
      }
    }
  }

  lemma {:induction false} StaysBest(init: seq<Result>, last: Result, r: Result)
    requires Represents(init, r)
    requires Ref(last) != Ref(r) || Priority(last.status) <= Priority(r.status)
    ensures Represents(init + [last], r)
  {
    var i: nat :| Best(init, i) && init[i] == r;
    assert Best(init + [last], i);
  }

  /** A result that starts an entry is the only one of its rule so far. */
  lemma {:induction false} FirstIsBest(init: seq<Result>, kept: seq<Result>, last: Result)
    requires Covers(kept, init) && Ref(last) != "" && !Has(kept, Ref(last))
    ensures Represents(init + [last], last)
  {
    assert Best(init + [last], |init|);
  }

  /** A result of higher priority than the best so far is the best now. */
  lemma {:induction false} HigherIsBest(init: seq<Result>, last: Result, r: Result)
    requires Represents(init, r) && Ref(last) == Ref(r) && Priority(last.status) > Priority(r.status)
    ensures Represents(init + [last], last)
  {
    var i: nat :| Best(init, i) && init[i] == r;
    assert Best(init + [last], |init|);
  }

  lemma {:induction false} AbsorbRepresents(init: seq<Result>, kept: seq<Result>, last: Result)
    requires AllRepresent(init, kept) && Covers(kept, init) && DistinctRefs(kept)
    ensures AllRepresent(init + [last], Absorb(kept, last))
  {
    var after, k := Absorb(kept, last), IndexOf(kept, Ref(last));
    forall m | 0 <= m < |after|
      ensures Represents(init + [last], after[m])
    {
      if m == k && Ref(last) != "" && after[m] == last {
        if k == |kept| { FirstIsBest(init, kept, last); }
        else if Priority(last.status) > Priority(kept[k].status) { HigherIsBest(init, last, kept[k]); }
        else { StaysBest(init, last, kept[m]); }
      } else {
        KeptStays(init, kept, last, m);
      }
    }
  }

  lemma {:induction false} KeptStays(init: seq<Result>, kept: seq<Result>, last: Result, m: nat)
    requires AllRepresent(init, kept) && DistinctRefs(kept) && m < |kept|
    requires Ref(last) == "" || m != IndexOf(kept, Ref(last)) || Priority(last.status) <= Priority(kept[m].status)
    ensures Represents(init + [last], kept[m])
  {
    assert Represents(init, kept[m]);
    if Ref(last) == "" {
      var i: nat :| Best(init, i) && init[i] == kept[m];
    }
    StaysBest(init, last, kept[m]);
  }

  /** One survivor per non-empty reference: the first of maximal priority. */
  lemma {:induction false} DedupeExact(results: seq<Result>)
    ensures DistinctRefs(Dedupe(results))
    ensures AllRepresent(results, Dedupe(results))
    ensures Covers(Dedupe(results), results)
    decreases |results|
  {
    if results == [] {
    } else {
      var init, last := results[..|results| - 1], results[|results| - 1];
      assert results == init + [last];
      DedupeExact(init);
      AbsorbStaysDistinct(Dedupe(init), last);
      AbsorbRepresents(init, Dedupe(init), last);
      AbsorbCovers(Dedupe(init), init, last);
    }
  }

  /** The references in the order of their first appearance. */
  function FirstRefs(results: seq<Result>): seq<string> {
    if results == [] then []
    else
      var rest, ref := FirstRefs(results[..|results| - 1]), Ref(results[|results| - 1]);
      if ref == "" || ref in rest then rest else rest + [ref]
  }

  predicate RefsAre(kept: seq<Result>, refs: seq<string>) {
    |kept| == |refs| && forall i :: 0 <= i < |kept| ==> Ref(kept[i]) == refs[i]
  }

  lemma {:induction false} RefsAreMember(kept: seq<Result>, refs: seq<string>, ref: string)
    requires RefsAre(kept, refs)
    ensures ref in refs <==> Has(kept, ref)
  {
    if ref in refs {
      var i :| 0 <= i < |refs| && refs[i] == ref;
      HasAt(kept, i);
    }
  }

  /** The survivors stand in the order in which their references first appear. */
  lemma {:induction false} DedupeOrder(results: seq<Result>)
    ensures RefsAre(Dedupe(results), FirstRefs(results))
    decreases |results|
  {
    if results == [] {
    } else {
      var init := results[..|results| - 1];
      DedupeOrder(init);
      RefsAreMember(Dedupe(init), FirstRefs(init), Ref(results[|results| - 1]));
    }
  }

  // ---------------------------------------------------------------- reconciliation

  datatype Rule = Rule(
    id: string, ref: string, title: string, description: string, severity: string, section: string, remediation: string)

  /** `generic(title, ref)` stands for the comparison of a title with the reference spelt as words. */
  type Generic = (string, string) -> bool

  function Prefer(stored: string, sent: string): string { if stored == "" then sent else stored }

  function Refreshed(rule: Rule, r: Result, generic: Generic): Rule {
    var better := r.title != "" && r.title != rule.ref
                  && (rule.title == "" || rule.title == rule.ref || rule.title == "Unknown"
                      || generic(rule.title, rule.ref));
    Rule(rule.id, rule.ref, if better then r.title else rule.title, Prefer(rule.description, r.description),
         Prefer(rule.severity, r.severity), Prefer(rule.section, r.section), Prefer(rule.remediation, r.remediation))
  }

  function NewRule(r: Result, id: string): Rule {
    Rule(id, Ref(r), if r.title != "" then r.title else Ref(r), r.description, r.severity, r.section, r.remediation)
  }

  function RuleIndex(rules: seq<Rule>, ref: string): (k: nat)
    ensures k <= |rules| && (k < |rules| ==> rules[k].ref == ref)
    ensures forall i :: 0 <= i < k ==> rules[i].ref != ref
  {
    if rules == [] || rules[0].ref == ref then 0 else 1 + RuleIndex(rules[1..], ref)
  }

  datatype Row = Row(ruleId: string, status: string)

  /** Variants agents send, mapped to the stored values; `fold` is lower-casing and trimming. */
  function Normalized(status: string, fold: string -> string): string {
    var s := fold(status);
    if status == "" then ""
    else if s in ["fail", "failed", "failure"] then "fail"
    else if s in ["pass", "passed"] then "pass"
    else if s in ["warn", "warning", "warned"] then "warn"
    else if s in ["skip", "skipped"] then "skip"
    else if s in ["notapplicable", "not_applicable", "na"] then "notapplicable"
    else if s == "error" then "error"
    else status
  }

  function Normalizer(fold: string -> string): string -> string { (status: string) => Normalized(status, fold) }

  /** The id of the rule a reference belongs to, `id` being the new one it gets if the profile lacks it. */
  function RuleId(rules: seq<Rule>, ref: string, id: string): string {
    var k := RuleIndex(rules, ref);
    if k < |rules| then rules[k].id else id
  }

  type Normalization = string -> string
  type Ids = nat -> string

  /** The stored rules after the updates the first survivors cause. */
  function StoredAfter(rules: seq<Rule>, unique: seq<Result>, generic: Generic): (stored: seq<Rule>)
    ensures |stored| == |rules|
  {
    if unique == [] then rules
    else
      var stored, r := StoredAfter(rules, unique[..|unique| - 1], generic), unique[|unique| - 1];
      var k := RuleIndex(rules, Ref(r));
      if k < |rules| then stored[k := Refreshed(rules[k], r, generic)] else stored
  }

  /** The rules the first survivors create; survivor i uses the i-th new id. */
  function Created(rules: seq<Rule>, unique: seq<Result>, newId: Ids): seq<Rule> {
    if unique == [] then []
    else
      var i := |unique| - 1;
      var created := Created(rules, unique[..i], newId);
      if RuleIndex(rules, Ref(unique[i])) < |rules| then created else created + [NewRule(unique[i], newId(i))]
  }

  function Rows(rules: seq<Rule>, unique: seq<Result>, normalize: Normalization, newId: Ids): (rows: seq<Row>)
    ensures |rows| == |unique|
  {
    if unique == [] then []
    else
      var i := |unique| - 1;
      Rows(rules, unique[..i], normalize, newId)
      + [Row(RuleId(rules, Ref(unique[i]), newId(i)), normalize(unique[i].status))]
  }

  /** The source's map from references to rules, read off survivor by survivor. */
  function RuleIds(rules: seq<Rule>, unique: seq<Result>, newId: Ids): (ids: seq<string>)
    ensures |ids| == |unique|
  {
    if unique == [] then []
    else
      var i := |unique| - 1;
      RuleIds(rules, unique[..i], newId) + [RuleId(rules, Ref(unique[i]), newId(i))]
  }

  lemma {:induction false} RuleIdAt(rules: seq<Rule>, unique: seq<Result>, newId: Ids, i: nat)
    requires i < |unique|
    ensures RuleIds(rules, unique, newId)[i] == RuleId(rules, Ref(unique[i]), newId(i))
    decreases |unique|
  {
    if i == |unique| - 1 {
    } else {
      RuleIdAt(rules, unique[..|unique| - 1], newId, i);
    }
  }

  /** The loop over the survivors: which stored rules change, which rules are new, and each survivor's rule. */
  method ReconcileRules(rules: seq<Rule>, unique: seq<Result>, generic: Generic, newId: Ids)
    returns (stored: seq<Rule>, created: seq<Rule>, ruleIds: seq<string>)
    ensures stored == StoredAfter(rules, unique, generic)
    ensures created == Created(rules, unique, newId)
    ensures ruleIds == RuleIds(rules, unique, newId)
  {
    stored, created, ruleIds := rules, [], [];
    for i := 0 to |unique|
      invariant stored == StoredAfter(rules, unique[..i], generic)
      invariant created == Created(rules, unique[..i], newId)
      invariant ruleIds == RuleIds(rules, unique[..i], newId)
    {
      assert unique[..i + 1][..i] == unique[..i];
      var k := RuleIndex(rules, Ref(unique[i]));
      if k == |rules| {
        created := created + [NewRule(unique[i], newId(i))];
        ruleIds := ruleIds + [newId(i)];
      } else {
        stored := stored[k := Refreshed(rules[k], unique[i], generic)];
        ruleIds := ruleIds + [rules[k].id];
      }
    }
    assert unique[..|unique|] == unique;
  }

  lemma {:induction false} RowsStep(rules: seq<Rule>, unique: seq<Result>, normalize: Normalization, newId: Ids, i: nat)
    requires i < |unique|
    ensures Rows(rules, unique[..i + 1], normalize, newId)
            == Rows(rules, unique[..i], normalize, newId)
               + [Row(RuleIds(rules, unique, newId)[i], normalize(unique[i].status))]
  {
    assert unique[..i + 1][..i] == unique[..i];
    RuleIdAt(rules, unique, newId, i);
  }

  method ResultRows(rules: seq<Rule>, unique: seq<Result>, normalize: Normalization, ruleIds: seq<string>,
                    ghost newId: Ids)
    returns (rows: seq<Row>)
    requires ruleIds == RuleIds(rules, unique, newId)
    ensures rows == Rows(rules, unique, normalize, newId)
  {
    rows := [];
    for i := 0 to |unique|
      invariant rows == Rows(rules, unique[..i], normalize, newId)
    {
      RowsStep(rules, unique, normalize, newId, i);
      rows := rows + [Row(ruleIds[i], normalize(unique[i].status))];
    }
    assert unique[..|unique|] == unique;
  }

  /** The whole ingest of one scan's results. */
  method StoreResults(rules: seq<Rule>, results: seq<Result>, generic: Generic, normalize: Normalization, newId: Ids)
    returns (stored: seq<Rule>, created: seq<Rule>, rows: seq<Row>)
    ensures stored == StoredAfter(rules, Dedupe(results), generic)
    ensures created == Created(rules, Dedupe(results), newId)
    ensures rows == Rows(rules, Dedupe(results), normalize, newId)
  {
    var unique := Deduplicate(results);
    var ruleIds;
    stored, created, ruleIds := ReconcileRules(rules, unique, generic, newId);
    rows := ResultRows(rules, unique, normalize, ruleIds, newId);
  }

  predicate DistinctRules(rules: seq<Rule>) {
    forall i, j :: 0 <= i < j < |rules| ==> rules[i].ref != rules[j].ref && rules[i].id != rules[j].id
  }

  /** The generator hands out new, different ids. */
  ghost predicate FreshIds(rules: seq<Rule>, newId: Ids) {
    (forall i, j :: i != j ==> newId(i) != newId(j)) && forall i, k :: 0 <= k < |rules| ==> newId(i) != rules[k].id
  }

  /** One row per survivor, in order, with its rule and its normalised status. */
  lemma {:induction false} RowsExact(rules: seq<Rule>, unique: seq<Result>, normalize: Normalization, newId: Ids,
                                     i: nat)
    requires i < |unique|
    ensures Rows(rules, unique, normalize, newId)[i]
            == Row(RuleId(rules, Ref(unique[i]), newId(i)), normalize(unique[i].status))
    decreases |unique|
  {
    if i == |unique| - 1 {
    } else {
      RowsExact(rules, unique[..|unique| - 1], normalize, newId, i);
    }
  }

  lemma {:induction false} RuleIdsDiffer(rules: seq<Rule>, ref: string, other: string, i: nat, j: nat, newId: Ids)
    requires DistinctRules(rules) && FreshIds(rules, newId) && ref != other && i != j
    ensures RuleId(rules, ref, newId(i)) != RuleId(rules, other, newId(j))
  {}

  /** One row per distinct reference, no two for the same rule, so that skipping duplicates drops none. */
  lemma {:induction false} OneRowPerRule(rules: seq<Rule>, results: seq<Result>, normalize: Normalization, newId: Ids)
    requires DistinctRules(rules) && FreshIds(rules, newId)
    ensures var rows := Rows(rules, Dedupe(results), normalize, newId);
            && |rows| == |FirstRefs(results)|
            && forall i, j :: 0 <= i < j < |rows| ==> rows[i].ruleId != rows[j].ruleId
  {
    var unique := Dedupe(results);
    var rows := Rows(rules, unique, normalize, newId);
    DedupeExact(results);
    DedupeOrder(results);
    forall i, j | 0 <= i < j < |rows|
      ensures rows[i].ruleId != rows[j].ruleId
    {
      RowsExact(rules, unique, normalize, newId, i);
      RowsExact(rules, unique, normalize, newId, j);
      RuleIdsDiffer(rules, Ref(unique[i]), Ref(unique[j]), i, j, newId);
    }
  }

  /** A rule created for a survivor whose reference the profile did not have. */
  predicate NewRuleOf(c: Rule, rules: seq<Rule>, unique: seq<Result>, i: nat, newId: Ids) {
    i < |unique| && RuleIndex(rules, Ref(unique[i])) == |rules| && c == NewRule(unique[i], newId(i))
  }

  lemma {:induction false} CreatedIsNew(rules: seq<Rule>, unique: seq<Result>, newId: Ids, c: Rule)
    requires c in Created(rules, unique, newId)
    ensures exists i: nat :: NewRuleOf(c, rules, unique, i, newId)
    decreases |unique|
  {
    var n := |unique| - 1;
    var init := unique[..n];
    if c in Created(rules, init, newId) {
      CreatedIsNew(rules, init, newId, c);
      var i: nat :| NewRuleOf(c, rules, init, i, newId);
      assert NewRuleOf(c, rules, unique, i, newId);
    } else {
      assert NewRuleOf(c, rules, unique, n, newId);
    }
  }

  lemma {:induction false} NewIsCreated(rules: seq<Rule>, unique: seq<Result>, newId: Ids, i: nat, c: Rule)
    requires NewRuleOf(c, rules, unique, i, newId)
    ensures c in Created(rules, unique, newId)
    decreases |unique|
  {
    if i == |unique| - 1 {
    } else {
      NewIsCreated(rules, unique[..|unique| - 1], newId, i, c);
    }
  }

  lemma {:induction false} StoredKeepsIdAndRef(rules: seq<Rule>, unique: seq<Result>, generic: Generic, k: nat)
    requires k < |rules|
    ensures var rule := StoredAfter(rules, unique, generic)[k]; rule.id == rules[k].id && rule.ref == rules[k].ref
    decreases |unique|
  {
    if unique == [] {
    } else {
      StoredKeepsIdAndRef(rules, unique[..|unique| - 1], generic, k);
    }
  }

  /** Every survivor has its rule afterwards: the row's id is the id of a rule with the survivor's reference. */
  lemma {:induction false} EverySurvivorHasItsRule(rules: seq<Rule>, unique: seq<Result>, generic: Generic,
                                                   normalize: Normalization, newId: Ids, i: nat)
    requires i < |unique|
    ensures exists rule :: && rule in StoredAfter(rules, unique, generic) + Created(rules, unique, newId)
                           && rule.ref == Ref(unique[i]) && rule.id == Rows(rules, unique, normalize, newId)[i].ruleId
  {
    RowsExact(rules, unique, normalize, newId, i);
    var stored, created := StoredAfter(rules, unique, generic), Created(rules, unique, newId);
    var k := RuleIndex(rules, Ref(unique[i]));
    if k < |rules| {
      StoredKeepsIdAndRef(rules, unique, generic, k);
      assert stored[k] in stored + created;
    } else {
      var c := NewRule(unique[i], newId(i));
      NewIsCreated(rules, unique, newId, i, c);
      assert c in stored + created;
    }
  }

  lemma {:induction false} CreatedRefs(rules: seq<Rule>, unique: seq<Result>, newId: Ids, c: Rule)
    requires c in Created(rules, unique, newId)
    ensures exists i: nat :: i < |unique| && Ref(unique[i]) == c.ref
    ensures forall k :: 0 <= k < |rules| ==> rules[k].ref != c.ref
  {
    CreatedIsNew(rules, unique, newId, c);
  }

  lemma {:induction false} NotYetCreated(rules: seq<Rule>, unique: seq<Result>, newId: Ids, c: Rule)
    requires unique != [] && DistinctRefs(unique) && c in Created(rules, unique[..|unique| - 1], newId)
    ensures c.ref != Ref(unique[|unique| - 1])
  {
    var init := unique[..|unique| - 1];
    CreatedRefs(rules, init, newId, c);
    var i: nat :| i < |init| && Ref(init[i]) == c.ref;
    assert init[i] == unique[i];
  }

  /** No two rules created share a reference. */
  lemma {:induction false} CreatedRefsDistinct(rules: seq<Rule>, unique: seq<Result>, newId: Ids)
    requires DistinctRefs(unique)
    ensures var created := Created(rules, unique, newId);
            forall a, b :: 0 <= a < b < |created| ==> created[a].ref != created[b].ref
    decreases |unique|
  {
    if unique == [] {
    } else {
      var init := unique[..|unique| - 1];
      CreatedRefsDistinct(rules, init, newId);
      var before := Created(rules, init, newId);
      forall a | 0 <= a < |before|
        ensures before[a].ref != Ref(unique[|unique| - 1])
      {
        NotYetCreated(rules, unique, newId, before[a]);
      }
    }
  }

  /** References stay unique in the profile, so each survivor has exactly one rule. */
  lemma {:induction false} ReconcileKeepsRefsUnique(rules: seq<Rule>, unique: seq<Result>, generic: Generic, newId: Ids)
    requires DistinctRules(rules) && DistinctRefs(unique)
    ensures var after := StoredAfter(rules, unique, generic) + Created(rules, unique, newId);
            forall a, b :: 0 <= a < b < |after| ==> after[a].ref != after[b].ref
  {
    CreatedRefsDistinct(rules, unique, newId);
    var stored, created := StoredAfter(rules, unique, generic), Created(rules, unique, newId);
    forall k | 0 <= k < |rules|
      ensures stored[k].ref == rules[k].ref
    {
      StoredKeepsIdAndRef(rules, unique, generic, k);
    }
    forall c | c in created
      ensures forall k :: 0 <= k < |rules| ==> rules[k].ref != c.ref
    {
      CreatedRefs(rules, unique, newId, c);
    }
    assert forall k :: 0 <= k < |created| ==> created[k] in created;
  }

  /**
   What may change in a stored rule: empty fields are filled, and the title; nothing that was there is
   overwritten.
   */
  predicate OnlyFilled(before: Rule, after: Rule) {
    && after.id == before.id && after.ref == before.ref
    && (before.description != "" ==> after.description == before.description)
    && (before.severity != "" ==> after.severity == before.severity)
    && (before.section != "" ==> after.section == before.section)
    && (before.remediation != "" ==> after.remediation == before.remediation)
  }

  /** A rule no survivor names stays as it is. */
  lemma {:induction false} StoredRulesOnlyFilled(rules: seq<Rule>, unique: seq<Result>, generic: Generic, k: nat)
    requires k < |rules|
    ensures var after := StoredAfter(rules, unique, generic)[k];
            && OnlyFilled(rules[k], after)
            && ((forall i :: 0 <= i < |unique| ==> Ref(unique[i]) != rules[k].ref) ==> after == rules[k])
    decreases |unique|
  {
    if unique == [] {
    } else {
      var init := unique[..|unique| - 1];
      StoredRulesOnlyFilled(rules, init, generic, k);
      assert forall i :: 0 <= i < |init| ==> init[i] == unique[i];
    }
  }

  // ---------------------------------------------------------------- failures under other spellings

  /** Lower-casing and trimming leave the canonical statuses alone. */
  ghost predicate KeepsCanonical(fold: string -> string) {
    forall s :: Priority(s) > 0 ==> fold(s) == s
  }

  predicate ReadsFailed(r: Result, fold: string -> string) { Normalized(r.status, fold) == "fail" }

  predicate HasRawFail(results: seq<Result>, ref: string) {
    exists j :: 0 <= j < |results| && Ref(results[j]) == ref && results[j].status == "fail"
  }

  predicate NoneCanonical(results: seq<Result>, ref: string) {
    forall j :: 0 <= j < |results| && Ref(results[j]) == ref ==> Priority(results[j].status) == 0
  }

  lemma {:induction false} CanonicalReads(r: Result, fold: string -> string)
    requires KeepsCanonical(fold) && Priority(r.status) > 0
    ensures ReadsFailed(r, fold) <==> r.status == "fail"
  {}

  /**
   Priorities look at the status as sent, the stored row at the normalised one. The row of a rule says failed exactly
   when some result of the rule spells it "fail", or none of them is spelt canonically and the first reads as failed.
   */
  lemma {:induction false} FailureIsStoredIff(results: seq<Result>, i: nat, fold: string -> string)
    requires KeepsCanonical(fold) && Best(results, i)
    ensures var ref := Ref(results[i]);
            ReadsFailed(results[i], fold) <==>
            HasRawFail(results, ref)
            || (NoneCanonical(results, ref) && ReadsFailed(results[IndexOf(results, ref)], fold))
  {
    var ref := Ref(results[i]);
    if Priority(results[i].status) > 0 {
      CanonicalReads(results[i], fold);
      assert !NoneCanonical(results, ref);
    } else {
      var first := IndexOf(results, ref);
      assert first <= i;
      assert !HasRawFail(results, ref);
      assert NoneCanonical(results, ref);
      assert first == i;
    }
  }

  /** The same about the stored rows: row i of a scan. */
  lemma {:induction false} FailedRowIff(rules: seq<Rule>, results: seq<Result>, fold: string -> string, newId: Ids,
                                        i: nat)
    requires KeepsCanonical(fold) && i < |Dedupe(results)|
    ensures var ref := Ref(Dedupe(results)[i]);
            Rows(rules, Dedupe(results), Normalizer(fold), newId)[i].status == "fail" <==>
            HasRawFail(results, ref)
            || (NoneCanonical(results, ref) && IndexOf(results, ref) < |results|
               && ReadsFailed(results[IndexOf(results, ref)], fold))
  {
    DedupeExact(results);
    RowsExact(rules, Dedupe(results), Normalizer(fold), newId, i);
    var at: nat :| Best(results, at) && results[at] == Dedupe(results)[i];
    FailureIsStoredIff(results, at, fold);
  }

  /** "failed" followed by "pass" for one rule is stored as passed. */
  lemma {:induction false} VariantFailureCanBeHidden(failed: Result, passed: Result, fold: string -> string)
    requires Ref(failed) == Ref(passed) != "" && failed.status == "failed" && passed.status == "pass"
    requires fold("failed") == "failed" && fold("pass") == "pass"
    ensures ReadsFailed(failed, fold) && Dedupe([failed, passed]) == [passed] && !ReadsFailed(passed, fold)
  {
    assert [failed, passed][..1] == [failed] && [failed][..0] == [];
    assert Dedupe([failed]) == [failed];
  }

  // ---------------------------------------------------------------- the score

  function CountStatus(results: seq<Result>, status: string): nat {
    if results == [] then 0
    else CountStatus(results[..|results| - 1], status) + if results[|results| - 1].status == status then 1 else 0
  }

  /** The agent's own numbers, where it sends them. */
  datatype Reported = Reported(
    total: Option<int>, passed: Option<int>, skipped: Option<int>, notApplicable: Option<int>, score: Option<real>)

  function Or(reported: Option<int>, counted: int): int {
    if reported.Some? then reported.value else counted
  }

  function TotalOf(results: seq<Result>, rep: Reported): int { Or(rep.total, |results|) }
  function PassedOf(results: seq<Result>, rep: Reported): int { Or(rep.passed, CountStatus(results, "pass")) }
  function SkippedOf(results: seq<Result>, rep: Reported): int { Or(rep.skipped, CountStatus(results, "skip")) }
  function NotApplicableOf(results: seq<Result>, rep: Reported): int {
    Or(rep.notApplicable, CountStatus(results, "notapplicable"))
  }

  function Applicable(results: seq<Result>, rep: Reported): int {
    TotalOf(results, rep) - NotApplicableOf(results, rep) - SkippedOf(results, rep)
  }

  /** The nearest multiple of a hundredth, the larger of two. */
  function Hundredths(x: real): real { (x * 100.0 + 0.5).Floor as real / 100.0 }

  const FIXED_LIMIT: real := 1000000000000000000000.0

  /** `toFixed(2)` read back as a number: the size is rounded, the sign kept, and 10^21 and more is left as it is. */
  function ToFixed(x: real): real {
    if x >= FIXED_LIMIT || x <= -FIXED_LIMIT then x
    else if x < 0.0 then -Hundredths(-x)
    else Hundredths(x)
  }

  /** The share of applicable rules passed, in percent with two decimals; None when no rule applies. */
  function ComputedScore(results: seq<Result>, rep: Reported): Option<real> {
    if Applicable(results, rep) > 0
    then Some(ToFixed(PassedOf(results, rep) as real / Applicable(results, rep) as real * 100.0))
    else None
  }

  /** A score of zero sent by the agent is falsy and is stored as null; a computed one is the text "0.00". */
  function StoredScore(results: seq<Result>, rep: Reported): Option<real> {
    if rep.score.Some? then (if rep.score.value == 0.0 then None else rep.score) else ComputedScore(results, rep)
  }

  lemma {:induction false} StatusesDisjoint(results: seq<Result>)
    ensures CountStatus(results, "pass") + CountStatus(results, "skip")
            + CountStatus(results, "notapplicable") <= |results|
  {
    if results == [] {
    } else {
      StatusesDisjoint(results[..|results| - 1]);
    }
  }

  /** Rounding stays within half a hundredth. */
  lemma {:induction false} ToFixedIsNear(x: real)
    ensures -0.005 <= ToFixed(x) - x <= 0.005
  {
    var y := if x < 0.0 then -x else x;
    var n := (y * 100.0 + 0.5).Floor as real;
    assert n <= y * 100.0 + 0.5 < n + 1.0;
    assert Hundredths(y) * 100.0 == n;
  }

  /** What is rounded into 0..100: everything above minus half a hundredth and below 100 and half a hundredth. */
  lemma {:induction false} ToFixedRange(x: real)
    ensures 0.0 <= ToFixed(x) <= 100.0 <==> -0.005 < x < 100.005
  {
    ToFixedIsNear(x);
    if x < 0.0 {
      assert 0.0 <= -Hundredths(-x) <==> (-x * 100.0 + 0.5).Floor <= 0;
    } else {
      assert Hundredths(x) <= 100.0 <==> (x * 100.0 + 0.5).Floor <= 10000;
    }
  }

  lemma {:induction false} ShareScaled(p: real, n: real, x: real)
    requires n > 0.0 && x == p / n * 100.0
    ensures x * n == 100.0 * p
  {
    assert p / n * n == p;
  }

  lemma {:induction false} PercentRange(p: int, a: int, x: real)
    requires a > 0 && x == p as real / a as real * 100.0
    ensures -0.005 < x < 100.005 <==> -a < 20000 * p < 20001 * a
  {
    var n, scaled := a as real, 100.0 * p as real;
    ShareScaled(p as real, n, x);
    ScaledLess(-0.005, x, n, -0.005 * n, scaled);
    ScaledLess(x, 100.005, n, scaled, 100.005 * n);
    Casts(p, a);
  }

  lemma {:induction false} Casts(p: int, a: int)
    ensures -0.005 * a as real < 100.0 * p as real <==> -a < 20000 * p
    ensures 100.0 * p as real < 100.005 * a as real <==> 20000 * p < 20001 * a
  {}

  lemma {:induction false} ScaledLess(x: real, y: real, n: real, xn: real, yn: real)
    requires n > 0.0 && xn == x * n && yn == y * n
    ensures x < y <==> xn < yn
  {
    assert yn - xn == (y - x) * n;
  }

  /**
   A computed score is a percentage exactly when, in ten-thousandths of the applicable count, the passed count lies
   above minus one half and below 10000 and one half: two decimals hide a slight excess.
   */
  lemma {:induction false} ScoreInRangeIff(results: seq<Result>, rep: Reported)
    requires ComputedScore(results, rep).Some?
    ensures var a, p := Applicable(results, rep), PassedOf(results, rep);
            0.0 <= ComputedScore(results, rep).value <= 100.0 <==> -a < 20000 * p < 20001 * a
  {
    var a, p := Applicable(results, rep), PassedOf(results, rep);
    var x := p as real / a as real * 100.0;
    PercentRange(p, a, x);
    ToFixedRange(x);
  }

  /**
   The stored score on the payload. It is a percentage iff the one sent is one and not zero or, where none is sent,
   rules apply and passed, as a share of them, is one up to rounding; it is null iff zero is sent or none is sent and
   no rule applies.
   */
  lemma {:induction false} StoredScoreInRangeIff(results: seq<Result>, rep: Reported)
    ensures var stored := StoredScore(results, rep);
            var p, rest := PassedOf(results, rep), SkippedOf(results, rep) + NotApplicableOf(results, rep);
            var a := TotalOf(results, rep) - rest;
            && (stored.Some? && 0.0 <= stored.value <= 100.0 <==>
                  if rep.score.Some? then 0.0 < rep.score.value <= 100.0
                  else rest < TotalOf(results, rep) && -a < 20000 * p < 20001 * a)
            && (stored.None? <==> if rep.score.Some? then rep.score.value == 0.0 else TotalOf(results, rep) <= rest)
  {
    if rep.score.None? && Applicable(results, rep) > 0 {
      ScoreInRangeIff(results, rep);
    }
  }

  /** One passed rule too many among 30000 is rounded away. */
  lemma {:induction false} RoundingHidesExcess(results: seq<Result>)
    ensures ComputedScore(results, Reported(Some(30000), Some(30001), Some(0), Some(0), None)) == Some(100.0)
  {
    var x := 30001 as real / 30000 as real * 100.0;
    assert (x * 100.0 + 0.5).Floor == 10000;
  }

  /** Counted from the results alone it always is one. */
  lemma {:induction false} CountedScoreInRange(results: seq<Result>)
    ensures var s := ComputedScore(results, Reported(None, None, None, None, None));
            s.Some? ==> 0.0 <= s.value <= 100.0
  {
    StatusesDisjoint(results);
    var rep := Reported(None, None, None, None, None);
    if ComputedScore(results, rep).Some? {
      ScoreInRangeIff(results, rep);
    }
  }

  lemma {:induction false} CountSnoc(init: seq<Result>, r: Result, status: string)
    ensures CountStatus(init + [r], status) == CountStatus(init, status) + if r.status == status then 1 else 0
  {
    assert (init + [r])[..|init|] == init;
  }

  lemma {:induction false} CountTwo(r: Result, status: string)
    ensures CountStatus([r, r], status) == if r.status == status then 2 else 0
  {
    CountSnoc([], r, status);
    CountSnoc([r], r, status);
    assert [] + [r] == [r] && [r] + [r] == [r, r];
  }

  /** A reported total that is too small takes the score out of range. */
  lemma {:induction false} ReportedTotalCanBreakScore(r: Result)
    requires r.status == "pass"
    ensures ComputedScore([r, r], Reported(Some(1), None, None, None, None)) == Some(200.0)
  {
    CountTwo(r, "pass");
    CountTwo(r, "skip");
    CountTwo(r, "notapplicable");
    assert ToFixed(200.0) == 200.0;
  }

  // ---------------------------------------------------------------- what is stored, field by field

  /** The reference is the first of three texts that is not empty. */
  lemma {:induction false} RefIsFirstText(r: Result)
    ensures r.ruleRef != "" ==> Ref(r) == r.ruleRef
    ensures r.ruleRef == "" && r.ruleId != "" ==> Ref(r) == r.ruleId
    ensures r.ruleRef == "" && r.ruleId == "" ==> Ref(r) == r.id
  {}

  /** From the worst status down; any other spelling counts least. */
  const WORST_FIRST: seq<string> := ["fail", "warn", "pass", "skip", "notapplicable", "error"]

  lemma {:induction false} PriorityIsPlace(status: string)
    ensures forall n :: 0 <= n < |WORST_FIRST| && status == WORST_FIRST[n] ==> Priority(status) == 6 - n
    ensures status !in WORST_FIRST ==> Priority(status) == 0
    ensures Priority(status) > 0 ==> Priority(status) <= 6 && status == WORST_FIRST[6 - Priority(status)]
  {
    assert WORST_FIRST[0] == "fail" && WORST_FIRST[1] == "warn" && WORST_FIRST[2] == "pass";
    assert WORST_FIRST[3] == "skip" && WORST_FIRST[4] == "notapplicable" && WORST_FIRST[5] == "error";
  }

  /** The best result of a rule has the worst status any of its results is sent with. */
  lemma {:induction false} WorstStatusSurvives(results: seq<Result>, i: nat, j: nat, n: nat)
    requires Best(results, i) && j < |results| && Ref(results[j]) == Ref(results[i])
    requires n < |WORST_FIRST| && results[j].status == WORST_FIRST[n]
    ensures exists m: nat :: m <= n && results[i].status == WORST_FIRST[m]
  {
    PriorityIsPlace(results[i].status);
    PriorityIsPlace(results[j].status);
    assert results[i].status == WORST_FIRST[6 - Priority(results[i].status)];
  }

  /** The spellings that are understood. Anything else is stored as it was sent. */
  lemma {:induction false} SpellingsRead(status: string, fold: string -> string)
    requires status != ""
    ensures fold(status) in {"fail", "failed", "failure"} ==> Normalized(status, fold) == "fail"
    ensures fold(status) in {"pass", "passed"} ==> Normalized(status, fold) == "pass"
    ensures fold(status) in {"warn", "warning", "warned"} ==> Normalized(status, fold) == "warn"
    ensures fold(status) in {"skip", "skipped"} ==> Normalized(status, fold) == "skip"
    ensures fold(status) in {"notapplicable", "not_applicable", "na"} ==> Normalized(status, fold) == "notapplicable"
    ensures fold(status) == "error" ==> Normalized(status, fold) == "error"
    ensures fold(status) !in {"fail", "failed", "failure", "pass", "passed", "warn", "warning", "warned", "skip",
                              "skipped", "notapplicable", "not_applicable", "na", "error"} ==>
              Normalized(status, fold) == status
  {}

  /** A stored title gives way if it is empty, the reference, "Unknown" or the reference in words. */
  predicate Placeholder(rule: Rule, generic: Generic) {
    rule.title == "" || rule.title == rule.ref || rule.title == "Unknown" || generic(rule.title, rule.ref)
  }

  /** Each empty text is filled, and a placeholder gives way to a title that is neither empty nor the reference. */
  function Filled(rule: Rule, r: Result, generic: Generic): Rule {
    Rule(rule.id, rule.ref,
         if Placeholder(rule, generic) && r.title != "" && r.title != rule.ref then r.title else rule.title,
         if rule.description == "" then r.description else rule.description,
         if rule.severity == "" then r.severity else rule.severity,
         if rule.section == "" then r.section else rule.section,
         if rule.remediation == "" then r.remediation else rule.remediation)
  }

  lemma {:induction false} RefreshedIsFilled(rule: Rule, r: Result, generic: Generic)
    ensures Refreshed(rule, r, generic) == Filled(rule, r, generic)
  {}

  /** A stored rule some survivor is about is filled from it, whatever the other survivors are about. */
  lemma {:induction false} StoredRuleExact(rules: seq<Rule>, unique: seq<Result>, generic: Generic, i: nat)
    requires DistinctRefs(unique) && i < |unique| && RuleIndex(rules, Ref(unique[i])) < |rules|
    ensures var k := RuleIndex(rules, Ref(unique[i]));
            StoredAfter(rules, unique, generic)[k] == Filled(rules[k], unique[i], generic)
    decreases |unique|
  {
    if i == |unique| - 1 {
      RefreshedIsFilled(rules[RuleIndex(rules, Ref(unique[i]))], unique[i], generic);
    } else {
      StoredRuleExact(rules, unique[..|unique| - 1], generic, i);
      OtherRule(rules, unique, generic, RuleIndex(rules, Ref(unique[i])));
    }
  }

  lemma {:induction false} OtherRule(rules: seq<Rule>, unique: seq<Result>, generic: Generic, k: nat)
    requires unique != [] && k < |rules| && rules[k].ref != Ref(unique[|unique| - 1])
    ensures StoredAfter(rules, unique, generic)[k] == StoredAfter(rules, unique[..|unique| - 1], generic)[k]
  {}

  /** A survivor whose reference the profile lacks gets a rule with its texts and its title, or the reference. */
  lemma {:induction false} CreatedRuleExact(rules: seq<Rule>, unique: seq<Result>, newId: Ids, i: nat)
    requires i < |unique| && forall k :: 0 <= k < |rules| ==> rules[k].ref != Ref(unique[i])
    ensures var r := unique[i];
            Rule(newId(i), Ref(r), if r.title == "" then Ref(r) else r.title, r.description, r.severity, r.section,
                 r.remediation) in Created(rules, unique, newId)
  {
    NewIsCreated(rules, unique, newId, i, NewRule(unique[i], newId(i)));
  }

  // ---------------------------------------------------------------- the numbers of the score

  function Hits(results: seq<Result>, status: string): set<int> {
    set i | 0 <= i < |results| && results[i].status == status
  }

  lemma {:induction false} HitsSnoc(results: seq<Result>, status: string)
    requires results != []
    ensures var n := |results| - 1;
            Hits(results, status) == Hits(results[..n], status) + if results[n].status == status then {n} else {}
    ensures |results| - 1 !in Hits(results[..|results| - 1], status)
  {}

  lemma {:induction false} CountIsSize(results: seq<Result>, status: string)
    ensures CountStatus(results, status) == |Hits(results, status)|
    decreases |results|
  {
    if results == [] {
      assert Hits(results, status) == {};
    } else {
      CountIsSize(results[..|results| - 1], status);
      HitsSnoc(results, status);
    }
  }

  /** A number the agent sends is used, zero included; without one the results are counted. */
  lemma {:induction false} PayloadNumbers(results: seq<Result>, rep: Reported)
    ensures TotalOf(results, rep) == if rep.total.Some? then rep.total.value else |results|
    ensures PassedOf(results, rep) == if rep.passed.Some? then rep.passed.value
                                      else |Hits(results, "pass")|
    ensures SkippedOf(results, rep) == if rep.skipped.Some? then rep.skipped.value
                                       else |Hits(results, "skip")|
    ensures NotApplicableOf(results, rep)
            == if rep.notApplicable.Some? then rep.notApplicable.value
               else |Hits(results, "notapplicable")|
  {
    CountIsSize(results, "pass");
    CountIsSize(results, "skip");
    CountIsSize(results, "notapplicable");
  }

  lemma {:induction false} HundredthsOf(y: real)
    ensures Hundredths(y) * 100.0 == (y * 100.0 + 0.5).Floor as real
  {}

  lemma {:induction false} WholeStays(k: int, x: real)
    requires x == k as real
    ensures x.Floor as real == x
  {}

  lemma {:induction false} ToFixedIsHundredth(x: real)
    requires -FIXED_LIMIT < x < FIXED_LIMIT
    ensures (ToFixed(x) * 100.0).Floor as real == ToFixed(x) * 100.0
  {
    if x >= 0.0 {
      HundredthsOf(x);
      WholeStays((x * 100.0 + 0.5).Floor, ToFixed(x) * 100.0);
    } else {
      HundredthsOf(-x);
      WholeStays(-((-x * 100.0 + 0.5).Floor), ToFixed(x) * 100.0);
    }
  }

  /** The stored score is a multiple of a hundredth no further than half a hundredth from the share in percent. */
  lemma {:induction false} ScoreIsRoundedShare(results: seq<Result>, rep: Reported, share: real)
    requires ComputedScore(results, rep).Some?
    requires share == PassedOf(results, rep) as real / Applicable(results, rep) as real * 100.0
    ensures var score := ComputedScore(results, rep).value;
            && -0.005 <= score - share <= 0.005
            && (-FIXED_LIMIT < share < FIXED_LIMIT ==> (score * 100.0).Floor as real == score * 100.0)
  {
    ToFixedIsNear(share);
    if -FIXED_LIMIT < share < FIXED_LIMIT {
      ToFixedIsHundredth(share);
    }
  }
}
