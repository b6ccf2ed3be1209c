/**
 Merging the packages of the Windows registry with those winget lists.

 The method keeps the source's shape: the registry list is updated in place, and one mutable record
 per normalised name, reached through a map, carries the flags `matched` and `appended`.
 `Merged` is what it computes; the lemmas say what that means for names, versions and duplicates.
 `key` stands for the normalisation of names, any function.
 */
module WingetMerge {
  import opened Options

  datatype Package = Package(name: string, version: string, available: string, needsUpdate: bool, source: string)

  const LOCAL := "local"

  /** The normalised names of a list. */
  function Keys(packages: seq<Package>, key: string -> string): set<string> {
    if packages == [] then {} else Keys(packages[..|packages| - 1], key) + {key(packages[|packages| - 1].name)}
  }

  /** The record kept for a name is made from the last winget row that has it. */
  function LastRow(winget: seq<Package>, key: string -> string, k: string): (row: Option<Package>)
    ensures row.Some? <==> k in Keys(winget, key)
  {
    if winget == [] then None
    else if key(winget[|winget| - 1].name) == k then Some(winget[|winget| - 1])
    else LastRow(winget[..|winget| - 1], key, k)
  }

  function Enriched(p: Package, info: Option<Package>): Package {
    if info.None? then p.(source := LOCAL)
    else if info.value.needsUpdate then
      p.(needsUpdate := true, source := info.value.source,
         available := if p.available == "" then info.value.available else p.available)
    else p.(source := info.value.source)
  }

  function EnrichedAll(reg: seq<Package>, winget: seq<Package>, key: string -> string): seq<Package> {
    seq(|reg|, i requires 0 <= i < |reg| => Enriched(reg[i], LastRow(winget, key, key(reg[i].name))))
  }

  /** The winget rows whose key no registry package and no earlier row has, in order. */
  function NewRows(regKeys: set<string>, winget: seq<Package>, key: string -> string): seq<Package> {
    if winget == [] then []
    else
      var init, last := winget[..|winget| - 1], winget[|winget| - 1];
      NewRows(regKeys, init, key) + if key(last.name) in regKeys + Keys(init, key) then [] else [last]
  }

  function Merged(reg: seq<Package>, winget: seq<Package>, key: string -> string): seq<Package> {
    EnrichedAll(reg, winget, key) + NewRows(Keys(reg, key), winget, key)
  }

  // ---------------------------------------------------------------- the merge in place

  class WingetInfo {
    const available: string
    const needsUpdate: bool
    const source: string
    var matched: bool
    var appended: bool

    constructor (p: Package)
      ensures available == p.available && needsUpdate == p.needsUpdate && source == p.source
      ensures !matched && !appended
    {
      available, needsUpdate, source := p.available, p.needsUpdate, p.source;
      matched, appended := false, false;
    }
  }

  predicate Describes(info: WingetInfo, row: Option<Package>) {
    row.Some? && info.available == row.value.available && info.needsUpdate == row.value.needsUpdate
    && info.source == row.value.source
  }

  /** One record per key of `rows`, no record under two keys, each made from the last row of its key. */
  ghost predicate Index(infos: map<string, WingetInfo>, rows: seq<Package>, key: string -> string) {
    && infos.Keys == Keys(rows, key)
    && (forall k, l :: k in infos && l in infos && k != l ==> infos[k] != infos[l])
    && (forall k :: k in infos ==> Describes(infos[k], LastRow(rows, key, k)))
  }

  /** A key is the key of some position, and of every such position. */
  lemma {:induction false} KeysByPosition(packages: seq<Package>, key: string -> string)
    ensures forall i :: 0 <= i < |packages| ==> key(packages[i].name) in Keys(packages, key)
    ensures forall k :: k in Keys(packages, key) ==> exists i :: 0 <= i < |packages| && key(packages[i].name) == k
    decreases |packages|
  {
    if packages == [] {
    } else {
      var init := packages[..|packages| - 1];
      KeysByPosition(init, key);
      forall k | k in Keys(packages, key)
        ensures exists i :: 0 <= i < |packages| && key(packages[i].name) == k
      {
        if k in Keys(init, key) {
          var i :| 0 <= i < |init| && key(init[i].name) == k;
          assert packages[i] == init[i];
        }
      }
    }
  }

  lemma {:induction false} PrefixStep(rows: seq<Package>, i: nat)
    requires i < |rows|
    ensures rows[..i + 1][..i] == rows[..i] && rows[..i + 1][i] == rows[i] && rows[..i + 1] != []
  {}

  method BuildIndex(winget: seq<Package>, key: string -> string) returns (infos: map<string, WingetInfo>)
    ensures Index(infos, winget, key)
    ensures forall k :: k in infos ==> fresh(infos[k]) && !infos[k].matched && !infos[k].appended
  {
    infos := map[];
    for i := 0 to |winget|
      invariant Index(infos, winget[..i], key)
      invariant forall k :: k in infos ==> fresh(infos[k]) && !infos[k].matched && !infos[k].appended
    {
      PrefixStep(winget, i);
      var info := new WingetInfo(winget[i]);
      infos := infos[key(winget[i].name) := info];
    }
    assert winget[..|winget|] == winget;
  }

  /** One registry package, with the record of its key if there is one. */
  method EnrichOne(p: Package, info: Option<WingetInfo>, ghost row: Option<Package>) returns (q: Package)
    requires if info.Some? then Describes(info.value, row) else row.None?
    ensures q == Enriched(p, row)
  {
    q := p;
    if info.Some? {
      if info.value.needsUpdate {
        q := q.(needsUpdate := true);
        if q.available == "" {
          q := q.(available := info.value.available);
        }
      }
      q := q.(source := info.value.source);
    } else {
      q := q.(source := LOCAL);
    }
  }

  /** Exactly the records of these keys are marked matched. */
  ghost predicate MatchedAre(infos: map<string, WingetInfo>, keys: set<string>)
    reads infos.Values
  {
    forall k :: k in infos ==> (infos[k].matched <==> k in keys)
  }

  ghost predicate AppendedAre(infos: map<string, WingetInfo>, keys: set<string>)
    reads infos.Values
  {
    forall k :: k in infos ==> (infos[k].appended <==> k in keys)
  }

  lemma {:induction false} EnrichedSnoc(was: seq<Package>, winget: seq<Package>, key: string -> string, i: nat)
    requires i < |was|
    ensures EnrichedAll(was[..i + 1], winget, key)
            == EnrichedAll(was[..i], winget, key) + [Enriched(was[i], LastRow(winget, key, key(was[i].name)))]
  {}

  lemma {:induction false} KeysSnoc(rows: seq<Package>, key: string -> string, i: nat)
    requires i < |rows|
    ensures Keys(rows[..i + 1], key) == Keys(rows[..i], key) + {key(rows[i].name)}
  {
    PrefixStep(rows, i);
  }

  /** In place: `done` counts the packages handled. */
  ghost predicate EnrichedUpTo(reg: seq<Package>, was: seq<Package>, winget: seq<Package>, key: string -> string,
                               done: nat)
    requires done <= |reg| == |was|
  {
    reg[..done] == EnrichedAll(was[..done], winget, key) && reg[done..] == was[done..]
  }

  lemma {:induction false} EnrichStep(reg: seq<Package>, was: seq<Package>, winget: seq<Package>, key: string -> string,
                                      i: nat)
    requires i < |reg| == |was| && EnrichedUpTo(reg, was, winget, key, i)
    ensures reg[i] == was[i]
    ensures EnrichedUpTo(reg[i := Enriched(was[i], LastRow(winget, key, key(was[i].name)))], was, winget, key, i + 1)
  {
    assert reg[i..][0] == was[i..][0];
    EnrichedSnoc(was, winget, key, i);
    var after := reg[i := Enriched(was[i], LastRow(winget, key, key(was[i].name)))];
    assert after[..i + 1] == reg[..i] + [after[i]];
    assert after[i + 1..] == reg[i..][1..] && was[i + 1..] == was[i..][1..];
  }

  /** Marks the record of a key, if there is one. */
  method MarkMatched(infos: map<string, WingetInfo>, k: string, ghost keys: set<string>)
    requires forall a, b :: a in infos && b in infos && a != b ==> infos[a] != infos[b]
    requires MatchedAre(infos, keys)
    modifies infos.Values
    ensures MatchedAre(infos, keys + {k})
    ensures forall a :: a in infos ==> infos[a].appended == old(infos[a].appended)
  {
    if k in infos {
      infos[k].matched := true;
    }
  }

  method EnrichAt(reg: array<Package>, i: nat, ghost was: seq<Package>, winget: seq<Package>,
                  infos: map<string, WingetInfo>, key: string -> string)
    requires i < reg.Length == |was| && Index(infos, winget, key)
    requires EnrichedUpTo(reg[..], was, winget, key, i) && MatchedAre(infos, Keys(was[..i], key))
    modifies reg, infos.Values
    ensures EnrichedUpTo(reg[..], was, winget, key, i + 1) && MatchedAre(infos, Keys(was[..i + 1], key))
    ensures forall k :: k in infos ==> infos[k].appended == old(infos[k].appended)
  {
    ghost var before := reg[..];
    EnrichStep(before, was, winget, key, i);
    KeysSnoc(was, key, i);
    var k := key(reg[i].name);
    ghost var row := LastRow(winget, key, k);
    var q := EnrichOne(reg[i], if k in infos then Some(infos[k]) else None, row);
    MarkMatched(infos, k, Keys(was[..i], key));
    reg[i] := q;
    assert reg[..] == before[i := q];
  }

  method EnrichRegistry(reg: array<Package>, winget: seq<Package>, infos: map<string, WingetInfo>,
                        key: string -> string)
    requires Index(infos, winget, key) && MatchedAre(infos, {})
    modifies reg, infos.Values
    ensures reg[..] == EnrichedAll(old(reg[..]), winget, key)
    ensures MatchedAre(infos, Keys(old(reg[..]), key))
    ensures forall k :: k in infos ==> infos[k].appended == old(infos[k].appended)
  {
    ghost var was := reg[..];
    for i := 0 to reg.Length
      invariant EnrichedUpTo(reg[..], was, winget, key, i) && MatchedAre(infos, Keys(was[..i], key))
      invariant forall k :: k in infos ==> infos[k].appended == old(infos[k].appended)
    {
      EnrichAt(reg, i, was, winget, infos, key);
    }
    assert was[..reg.Length] == was;
  }

  lemma {:induction false} NewRowsSnoc(regKeys: set<string>, winget: seq<Package>, key: string -> string, i: nat)
    requires i < |winget|
    ensures NewRows(regKeys, winget[..i + 1], key)
            == NewRows(regKeys, winget[..i], key)
               + if key(winget[i].name) in regKeys + Keys(winget[..i], key) then [] else [winget[i]]
  {
    PrefixStep(winget, i);
  }

  method AppendNew(winget: seq<Package>, infos: map<string, WingetInfo>,
                   key: string -> string, ghost regKeys: set<string>)
    returns (extra: seq<Package>)
    requires Index(infos, winget, key) && MatchedAre(infos, regKeys) && AppendedAre(infos, {})
    modifies infos.Values
    ensures extra == NewRows(regKeys, winget, key)
  {
    extra := [];
    KeysByPosition(winget, key);
    assert Keys(winget[..0], key) - regKeys == {};
    for i := 0 to |winget|
      invariant extra == NewRows(regKeys, winget[..i], key)
      invariant MatchedAre(infos, regKeys) && AppendedAre(infos, Keys(winget[..i], key) - regKeys)
    {
      NewRowsSnoc(regKeys, winget, key, i);
      KeysSnoc(winget, key, i);
      var k := key(winget[i].name);
      if k in infos && !infos[k].matched && !infos[k].appended {
        extra := extra + [winget[i]];
        infos[k].appended := true;
      }
    }
    assert winget[..|winget|] == winget;
  }

  /** Without winget rows every registry package is local. */
  method AllLocal(reg: array<Package>, key: string -> string)
    modifies reg
    ensures reg[..] == Merged(old(reg[..]), [], key)
  {
    ghost var was := reg[..];
    for i := 0 to reg.Length
      invariant forall j :: 0 <= j < i ==> reg[j] == was[j].(source := LOCAL)
      invariant forall j :: i <= j < reg.Length ==> reg[j] == was[j]
    {
      reg[i] := reg[i].(source := LOCAL);
    }
    MergedWithNothing(was, key);
  }

  lemma {:induction false} MergedWithNothing(reg: seq<Package>, key: string -> string)
    ensures |Merged(reg, [], key)| == |reg|
    ensures forall j :: 0 <= j < |reg| ==> Merged(reg, [], key)[j] == reg[j].(source := LOCAL)
  {
    assert NewRows(Keys(reg, key), [], key) == [];
  }

  method MergeRegistryAndWinget(reg: array<Package>, winget: seq<Package>, key: string -> string)
    returns (merged: seq<Package>)
    modifies reg
    ensures merged == Merged(old(reg[..]), winget, key)
    ensures reg[..] == merged[..reg.Length]
  {
    ghost var was := reg[..];
    if |winget| == 0 {
      AllLocal(reg, key);
      return reg[..];
    }
    var infos := BuildIndex(winget, key);
    EnrichRegistry(reg, winget, infos, key);
    var extra := AppendNew(winget, infos, key, Keys(was, key));
    merged := reg[..] + extra;
  }

  // ---------------------------------------------------------------- what the merge means

  /**
   Every registry package stays in its place with its name and version. It needs an update if it did
   before or if the winget record of its key says so, and a known available version is not replaced.
   */
  /** Row `j` is the last of its key. */
  predicate LastOfKey(winget: seq<Package>, key: string -> string, k: string, j: nat) {
    j < |winget| && key(winget[j].name) == k && forall l :: j < l < |winget| ==> key(winget[l].name) != k
  }

  lemma {:induction false} LastRowIs(winget: seq<Package>, key: string -> string, k: string)
    ensures forall j: nat :: LastOfKey(winget, key, k, j) ==> LastRow(winget, key, k) == Some(winget[j])
    ensures (forall j :: 0 <= j < |winget| ==> key(winget[j].name) != k) ==> LastRow(winget, key, k) == None
    decreases |winget|
  {
    if winget == [] {
    } else {
      var init := winget[..|winget| - 1];
      LastRowIs(init, key, k);
      forall j: nat | LastOfKey(winget, key, k, j)
        ensures LastRow(winget, key, k) == Some(winget[j])
      {
        if j < |init| {
          assert LastOfKey(init, key, k, j);
        }
      }
    }
  }

  /**
   Field by field: from the last winget row of its key a registry package takes the source, the update flag if that is
   up, and with it the available version if none is known; without such a row only the source changes, to "local".
   */
  lemma {:induction false} EnrichedExact(reg: seq<Package>, winget: seq<Package>, key: string -> string, i: nat)
    requires i < |reg|
    ensures forall j: nat :: LastOfKey(winget, key, key(reg[i].name), j) ==>
              var p, row := reg[i], winget[j];
              Merged(reg, winget, key)[i]
              == Package(p.name, p.version,
                         if row.needsUpdate && p.available == "" then row.available else p.available,
                         p.needsUpdate || row.needsUpdate, row.source)
    ensures (forall j :: 0 <= j < |winget| ==> key(winget[j].name) != key(reg[i].name)) ==>
              var p := reg[i];
              Merged(reg, winget, key)[i] == Package(p.name, p.version, p.available, p.needsUpdate, "local")
  {
    LastRowIs(winget, key, key(reg[i].name));
  }

  lemma {:induction false} RegistryKept(reg: seq<Package>, winget: seq<Package>, key: string -> string, i: nat)
    requires i < |reg|
    ensures var p := Merged(reg, winget, key)[i];
            var row := LastRow(winget, key, key(reg[i].name));
            && p.name == reg[i].name && p.version == reg[i].version
            && (p.needsUpdate <==> reg[i].needsUpdate || (row.Some? && row.value.needsUpdate))
            && (reg[i].available != "" ==> p.available == reg[i].available)
            && (p.source == if row.Some? then row.value.source else LOCAL)
  {}

  ghost predicate DistinctKeys(packages: seq<Package>, key: string -> string) {
    forall i, j :: 0 <= i < j < |packages| ==> key(packages[i].name) != key(packages[j].name)
  }

  lemma {:induction false} DistinctKeysSum(a: seq<Package>, b: seq<Package>, key: string -> string)
    requires DistinctKeys(a, key) && DistinctKeys(b, key) && Keys(a, key) !! Keys(b, key)
    ensures DistinctKeys(a + b, key)
  {
    KeysByPosition(a, key);
    KeysByPosition(b, key);
  }

  lemma {:induction false} KeysOfSum(a: seq<Package>, b: seq<Package>, key: string -> string)
    ensures Keys(a + b, key) == Keys(a, key) + Keys(b, key)
    decreases |b|
  {
    if b == [] {
      assert a + b == a;
    } else {
      assert (a + b)[..|a + b| - 1] == a + b[..|b| - 1];
      KeysOfSum(a, b[..|b| - 1], key);
    }
  }

  /** The appended rows have distinct keys, none of them a registry key, and together they are all the missing keys. */
  lemma {:induction false} NewRowsExact(regKeys: set<string>, winget: seq<Package>, key: string -> string)
    ensures DistinctKeys(NewRows(regKeys, winget, key), key)
    ensures Keys(NewRows(regKeys, winget, key), key) == Keys(winget, key) - regKeys
    decreases |winget|
  {
    if winget == [] {
    } else {
      var init, last := winget[..|winget| - 1], winget[|winget| - 1];
      NewRowsExact(regKeys, init, key);
      var rows := NewRows(regKeys, init, key);
      if key(last.name) in regKeys + Keys(init, key) {
        assert NewRows(regKeys, winget, key) == rows;
        assert Keys(winget, key) - regKeys == Keys(init, key) - regKeys;
      } else {
        SingleKey(last, key);
        KeysOfSum(rows, [last], key);
        DistinctKeysSum(rows, [last], key);
        assert NewRows(regKeys, winget, key) == rows + [last];
      }
    }
  }

  lemma {:induction false} SingleKey(p: Package, key: string -> string)
    ensures Keys([p], key) == {key(p.name)}
  {
    assert [p][..0] == [];
  }

  lemma {:induction false} SameNamesSameKeys(a: seq<Package>, b: seq<Package>, key: string -> string)
    requires |a| == |b| && forall i :: 0 <= i < |a| ==> a[i].name == b[i].name
    ensures Keys(a, key) == Keys(b, key)
    decreases |a|
  {
    if a == [] {
    } else {
      SameNamesSameKeys(a[..|a| - 1], b[..|b| - 1], key);
    }
  }

  /** No key is lost and, if the registry has no duplicates, none is reported twice. */
  lemma {:induction false} MergeKeys(reg: seq<Package>, winget: seq<Package>, key: string -> string)
    ensures Keys(Merged(reg, winget, key), key) == Keys(reg, key) + Keys(winget, key)
    ensures DistinctKeys(reg, key) ==> DistinctKeys(Merged(reg, winget, key), key)
  {
    var kept, rows := EnrichedAll(reg, winget, key), NewRows(Keys(reg, key), winget, key);
    NewRowsExact(Keys(reg, key), winget, key);
    SameNamesSameKeys(kept, reg, key);
    KeysOfSum(kept, rows, key);
    if DistinctKeys(reg, key) {
      DistinctKeysSum(kept, rows, key);
    }
  }

  /** Which rows are appended: those that are first with their key, for keys the registry lacks. */
  predicate Chosen(regKeys: set<string>, winget: seq<Package>, key: string -> string, i: nat)
    requires i < |winget|
  {
    key(winget[i].name) !in regKeys && forall j :: 0 <= j < i ==> key(winget[j].name) != key(winget[i].name)
  }

  lemma {:induction false} ChosenIff(regKeys: set<string>, winget: seq<Package>, key: string -> string, i: nat)
    requires i < |winget|
    ensures Chosen(regKeys, winget, key, i) <==> key(winget[i].name) !in regKeys + Keys(winget[..i], key)
  {
    KeysByPosition(winget[..i], key);
    assert forall j :: 0 <= j < i ==> winget[j] == winget[..i][j];
  }

  lemma {:induction false} ChosenRow(regKeys: set<string>, winget: seq<Package>, key: string -> string, i: nat)
    requires i < |winget|
    ensures NewRows(regKeys, winget[..i + 1], key)
            == NewRows(regKeys, winget[..i], key) + if Chosen(regKeys, winget, key, i) then [winget[i]] else []
  {
    NewRowsSnoc(regKeys, winget, key, i);
    ChosenIff(regKeys, winget, key, i);
  }

  function Selected(regKeys: set<string>, winget: seq<Package>, key: string -> string, n: nat): seq<Package>
    requires n <= |winget|
  {
    if n == 0 then []
    else Selected(regKeys, winget, key, n - 1) + if Chosen(regKeys, winget, key, n - 1) then [winget[n - 1]] else []
  }

  lemma {:induction false} NewRowsInOrder(regKeys: set<string>, winget: seq<Package>, key: string -> string, n: nat)
    requires n <= |winget|
    ensures NewRows(regKeys, winget[..n], key) == Selected(regKeys, winget, key, n)
  {
    if n == 0 {
    } else {
      NewRowsInOrder(regKeys, winget, key, n - 1);
      ChosenRow(regKeys, winget, key, n - 1);
    }
  }
}
