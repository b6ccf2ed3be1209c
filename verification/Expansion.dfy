/** When two deb822 stanzas give the same repositories. */
module Expansion {
  import opened Text
  import opened Repositories
  import opened Deb822

  /** What a stanza is expanded over: types, URIs and suites. */
  datatype Lists = Lists(types: seq<string>, uris: seq<string>, suites: seq<string>)

  function Usable(entry: Stanza): Lists { Lists(UsableTypes(entry), UsableUris(entry), UsableSuites(entry)) }

  /** Some list is empty, so nothing is given. */
  predicate Idle(entry: Stanza) { UsableTypes(entry) == [] || UsableUris(entry) == [] || UsableSuites(entry) == [] }

  predicate SameNames(a: Stanza, b: Stanza, nameOf: Naming) {
    forall uri, suite :: uri in UsableUris(a) && suite in UsableSuites(a) ==>
      nameOf(Get(a, "X-Repolib-Name"), uri, suite, Get(a, "Components"))
      == nameOf(Get(b, "X-Repolib-Name"), uri, suite, Get(b, "Components"))
  }

  predicate Alike(a: Stanza, b: Stanza, nameOf: Naming) {
    && Usable(a) == Usable(b)
    && Get(a, "Components") == Get(b, "Components") && IsEnabled(a) == IsEnabled(b) && SameNames(a, b, nameOf)
  }

  lemma {:induction false} IdleIsEmpty(entry: Stanza, nameOf: Naming)
    ensures Idle(entry) <==> Expand(entry, nameOf) == []
  {
    StanzaCount(entry, nameOf);
    ProductIsZero(|UsableTypes(entry)|, |UsableUris(entry)|, |UsableSuites(entry)|);
  }

  lemma {:induction false} ProductIsZero(a: nat, b: nat, c: nat)
    ensures a * (b * c) == 0 <==> a == 0 || b == 0 || c == 0
  {}

  lemma {:induction false} SameForUris(a: Stanza, b: Stanza, nameOf: Naming, repoType: string, uris: seq<string>,
                                       suites: seq<string>)
    requires forall u, s :: u in uris && s in suites ==>
               RepoOf(a, nameOf, repoType, u, s) == RepoOf(b, nameOf, repoType, u, s)
    ensures ForUris(a, nameOf, repoType, uris, suites) == ForUris(b, nameOf, repoType, uris, suites)
    decreases |uris|
  {
    if uris == [] {
    } else {
      var init, last := uris[..|uris| - 1], uris[|uris| - 1];
      SameForUris(a, b, nameOf, repoType, init, suites);
      assert ForSuites(a, nameOf, repoType, last, suites) == ForSuites(b, nameOf, repoType, last, suites);
    }
  }

  lemma {:induction false} SameForTypes(a: Stanza, b: Stanza, nameOf: Naming, types: seq<string>, uris: seq<string>,
                                        suites: seq<string>)
    requires forall t, u, s :: t in types && u in uris && s in suites ==>
               RepoOf(a, nameOf, t, u, s) == RepoOf(b, nameOf, t, u, s)
    ensures ForTypes(a, nameOf, types, uris, suites) == ForTypes(b, nameOf, types, uris, suites)
    decreases |types|
  {
    if types == [] {
    } else {
      SameForTypes(a, b, nameOf, types[..|types| - 1], uris, suites);
      SameForUris(a, b, nameOf, types[|types| - 1], uris, suites);
    }
  }

  lemma {:induction false} AlikeExpandsAlike(a: Stanza, b: Stanza, nameOf: Naming)
    requires Alike(a, b, nameOf)
    ensures Expand(a, nameOf) == Expand(b, nameOf)
  {
    SameForTypes(a, b, nameOf, UsableTypes(a), UsableUris(a), UsableSuites(a));
  }

  function Product(entry: Stanza, nameOf: Naming, l: Lists): seq<Repository> {
    ForTypes(entry, nameOf, l.types, l.uris, l.suites)
  }

  predicate SameSizes(l: Lists, m: Lists) {
    |l.types| == |m.types| && |l.uris| == |m.uris| && |l.suites| == |m.suites|
  }

  predicate NoneEmpty(l: Lists) { l.types != [] && l.uris != [] && l.suites != [] }

  lemma {:induction false} RepositoryAt(entry: Stanza, nameOf: Naming, l: Lists, t: nat, u: nat, s: nat, perType: nat,
                                        inType: nat)
    requires t < |l.types| && u < |l.uris| && s < |l.suites|
    requires perType == |l.uris| * |l.suites| && inType == u * |l.suites| + s
    ensures t * perType + inType < |Product(entry, nameOf, l)|
    ensures Product(entry, nameOf, l)[t * perType + inType]
            == RepoOf(entry, nameOf, l.types[t], l.uris[u], l.suites[s])
  {
    StanzaOrder(entry, nameOf, l.types, l.uris, l.suites, t, u, s, perType, inType);
  }

  /** With lists of equal lengths, repositories of equal number are of equal type, URI and suite. */
  lemma {:induction false} SameAt(a: Stanza, b: Stanza, nameOf: Naming, l: Lists, m: Lists, t: nat, u: nat, s: nat)
    requires SameSizes(l, m) && Product(a, nameOf, l) == Product(b, nameOf, m)
    requires t < |l.types| && u < |l.uris| && s < |l.suites|
    ensures RepoOf(a, nameOf, l.types[t], l.uris[u], l.suites[s])
            == RepoOf(b, nameOf, m.types[t], m.uris[u], m.suites[s])
    ensures l.types[t] == m.types[t] && l.uris[u] == m.uris[u] && l.suites[s] == m.suites[s]
  {
    var perType, inType := |l.uris| * |l.suites|, u * |l.suites| + s;
    RepositoryAt(a, nameOf, l, t, u, s, perType, inType);
    RepositoryAt(b, nameOf, m, t, u, s, perType, inType);
  }

  /** Once the lists have equal lengths, equal repositories come from equal lists and equal fields. */
  lemma {:induction false} SameSizesAlike(a: Stanza, b: Stanza, nameOf: Naming, l: Lists, m: Lists)
    requires SameSizes(l, m) && NoneEmpty(l) && Product(a, nameOf, l) == Product(b, nameOf, m)
    ensures l == m
    ensures forall t, u, s :: t in l.types && u in l.uris && s in l.suites ==>
              RepoOf(a, nameOf, t, u, s) == RepoOf(b, nameOf, t, u, s)
  {
    EqualLists(a, b, nameOf, l, m);
    forall t, u, s | t in l.types && u in l.uris && s in l.suites
      ensures RepoOf(a, nameOf, t, u, s) == RepoOf(b, nameOf, t, u, s)
    {
      var i, j, k :| 0 <= i < |l.types| && l.types[i] == t && 0 <= j < |l.uris| && l.uris[j] == u
                     && 0 <= k < |l.suites| && l.suites[k] == s;
      SameAt(a, b, nameOf, l, m, i, j, k);
    }
  }

  lemma {:induction false} EqualLists(a: Stanza, b: Stanza, nameOf: Naming, l: Lists, m: Lists)
    requires SameSizes(l, m) && NoneEmpty(l) && Product(a, nameOf, l) == Product(b, nameOf, m)
    ensures l == m
  {
    forall t | 0 <= t < |l.types|
      ensures l.types[t] == m.types[t]
    {
      SameAt(a, b, nameOf, l, m, t, 0, 0);
    }
    forall u | 0 <= u < |l.uris|
      ensures l.uris[u] == m.uris[u]
    {
      SameAt(a, b, nameOf, l, m, 0, u, 0);
    }
    forall s | 0 <= s < |l.suites|
      ensures l.suites[s] == m.suites[s]
    {
      SameAt(a, b, nameOf, l, m, 0, 0, s);
    }
  }

  lemma {:induction false} SameSizesAreAlike(a: Stanza, b: Stanza, nameOf: Naming)
    requires SameSizes(Usable(a), Usable(b)) && Expand(a, nameOf) == Expand(b, nameOf) && !Idle(a)
    ensures Alike(a, b, nameOf)
  {
    var l := Usable(a);
    SameSizesAlike(a, b, nameOf, l, Usable(b));
    assert l.types[0] in l.types && l.uris[0] in l.uris && l.suites[0] in l.suites;
    assert RepoOf(a, nameOf, l.types[0], l.uris[0], l.suites[0])
           == RepoOf(b, nameOf, l.types[0], l.uris[0], l.suites[0]);
    forall uri, suite | uri in l.uris && suite in l.suites
      ensures nameOf(Get(a, "X-Repolib-Name"), uri, suite, Get(a, "Components"))
              == nameOf(Get(b, "X-Repolib-Name"), uri, suite, Get(b, "Components"))
    {
      assert RepoOf(a, nameOf, l.types[0], uri, suite) == RepoOf(b, nameOf, l.types[0], uri, suite);
    }
  }

  // ---------------------------------------------------------------- any two stanzas without repeated words

  predicate Distinct(xs: seq<string>) { forall i, j :: 0 <= i < j < |xs| ==> xs[i] != xs[j] }

  predicate DistinctLists(l: Lists) { Distinct(l.types) && Distinct(l.uris) && Distinct(l.suites) }

  function Elements(xs: seq<string>): set<string> { set x | x in xs }

  lemma {:induction false} DistinctSize(xs: seq<string>)
    requires Distinct(xs)
    ensures |Elements(xs)| == |xs|
  {
    if xs == [] {
      assert Elements(xs) == {};
    } else {
      var init, last := xs[..|xs| - 1], xs[|xs| - 1];
      DistinctSize(init);
      assert Elements(xs) == Elements(init) + {last};
    }
  }

  lemma {:induction false} SameElementsSameSize(xs: seq<string>, ys: seq<string>)
    requires Distinct(xs) && Distinct(ys) && Elements(xs) == Elements(ys)
    ensures |xs| == |ys|
  {
    DistinctSize(xs);
    DistinctSize(ys);
  }

  lemma {:induction false} RepositoryInProduct(entry: Stanza, nameOf: Naming, l: Lists, i: nat, j: nat, k: nat)
    requires i < |l.types| && j < |l.uris| && k < |l.suites|
    ensures RepoOf(entry, nameOf, l.types[i], l.uris[j], l.suites[k]) in Product(entry, nameOf, l)
  {
    RepositoryAt(entry, nameOf, l, i, j, k, |l.uris| * |l.suites|, j * |l.suites| + k);
  }

  /** The words of the lists can be read off the repositories. */
  lemma {:induction false} WordsAreSeen(a: Stanza, b: Stanza, nameOf: Naming, l: Lists, i: nat, j: nat, k: nat)
    requires Product(a, nameOf, l) == Expand(b, nameOf) && i < |l.types| && j < |l.uris| && k < |l.suites|
    ensures l.types[i] in UsableTypes(b) && l.uris[j] in UsableUris(b) && l.suites[k] in UsableSuites(b)
  {
    RepositoryInProduct(a, nameOf, l, i, j, k);
    RepositoryIsUsable(b, nameOf, RepoOf(a, nameOf, l.types[i], l.uris[j], l.suites[k]));
  }

  lemma {:induction false} ListsAreSeen(a: Stanza, b: Stanza, nameOf: Naming, l: Lists)
    requires Product(a, nameOf, l) == Expand(b, nameOf) && NoneEmpty(l)
    ensures Elements(l.types) <= Elements(UsableTypes(b)) && Elements(l.uris) <= Elements(UsableUris(b))
    ensures Elements(l.suites) <= Elements(UsableSuites(b))
  {
    forall i | 0 <= i < |l.types|
      ensures l.types[i] in UsableTypes(b)
    {
      WordsAreSeen(a, b, nameOf, l, i, 0, 0);
    }
    forall j | 0 <= j < |l.uris|
      ensures l.uris[j] in UsableUris(b)
    {
      WordsAreSeen(a, b, nameOf, l, 0, j, 0);
    }
    forall k | 0 <= k < |l.suites|
      ensures l.suites[k] in UsableSuites(b)
    {
      WordsAreSeen(a, b, nameOf, l, 0, 0, k);
    }
  }

  lemma {:induction false} RepositoryIsUsable(entry: Stanza, nameOf: Naming, r: Repository)
    requires r in Expand(entry, nameOf)
    ensures r.repoType in UsableTypes(entry) && r.url in UsableUris(entry) && r.distribution in UsableSuites(entry)
  {
    StanzaSound(entry, nameOf, r);
    FilterExact(Types(entry), Supported);
    FilterExact(Fields(Get(entry, "URIs")), IsValidRepoURL);
    FilterExact(Fields(Get(entry, "Suites")), SuiteRule(Get(entry, "Components")));
  }

  /**
   Two stanzas whose lists repeat no word give the same repositories exactly when both give none or they agree in the
   usable types, URIs and suites, the components, whether they are enabled, and the names made of them.
   */
  lemma {:induction false} SameRepositoriesIff(a: Stanza, b: Stanza, nameOf: Naming)
    requires DistinctLists(Usable(a)) && DistinctLists(Usable(b))
    ensures Expand(a, nameOf) == Expand(b, nameOf) <==> (Idle(a) && Idle(b)) || Alike(a, b, nameOf)
  {
    IdleIsEmpty(a, nameOf);
    IdleIsEmpty(b, nameOf);
    if Alike(a, b, nameOf) {
      AlikeExpandsAlike(a, b, nameOf);
    }
    if Expand(a, nameOf) == Expand(b, nameOf) && !Idle(a) {
      ListsAreSeen(a, b, nameOf, Usable(a));
      ListsAreSeen(b, a, nameOf, Usable(b));
      SameElementsSameSize(UsableTypes(a), UsableTypes(b));
      SameElementsSameSize(UsableUris(a), UsableUris(b));
      SameElementsSameSize(UsableSuites(a), UsableSuites(b));
      SameSizesAreAlike(a, b, nameOf);
    }
  }

  lemma {:induction false} FirstComponents(a: Stanza, b: Stanza, nameOf: Naming)
    requires Expand(a, nameOf) == Expand(b, nameOf) && !Idle(a)
    ensures Get(a, "Components") == Get(b, "Components")
  {
    IdleIsEmpty(a, nameOf);
    StanzaSound(a, nameOf, Expand(a, nameOf)[0]);
    StanzaSound(b, nameOf, Expand(a, nameOf)[0]);
  }
}
