/**
 Bringing every user's dashboard cards in line with the permissions of the user's role at start-up.

 For a user who has cards the changes form one transaction. An update of a row the same transaction
 has deleted fails, so the whole transaction is rolled back and the remaining users are not reached.
 `SyncUser` says exactly when that happens; the lemmas say what a committed sync achieves.
 */
module Dashboard {
  import opened Options

  datatype Pref = Pref(id: string, card: string, order: int, enabled: bool, span: int)

  /** One entry of the curated layout; `permission` gates it. */
  datatype Card = Card(card: string, permission: string, order: int, enabled: bool, span: int)

  datatype User = User(role: string, prefs: seq<Pref>, layout: bool)

  predicate DistinctCards(cards: seq<Card>) {
    forall i, j :: 0 <= i < j < |cards| ==> cards[i].card != cards[j].card
  }

  function CardNames(cards: seq<Card>): set<string> { set c | c in cards :: c.card }

  function PrefCards(prefs: seq<Pref>): set<string> { set p | p in prefs :: p.card }

  function PrefIds(prefs: seq<Pref>): set<string> { set p | p in prefs :: p.id }

  predicate DistinctPrefs(prefs: seq<Pref>) {
    forall i, j :: 0 <= i < j < |prefs| ==> prefs[i].id != prefs[j].id && prefs[i].card != prefs[j].card
  }

  /** The cards of the layout that the permissions allow, in layout order. */
  function Permitted(cards: seq<Card>, allowed: set<string>): seq<Card> {
    if cards == [] then []
    else Permitted(cards[..|cards| - 1], allowed)
         + if cards[|cards| - 1].permission in allowed then [cards[|cards| - 1]] else []
  }

  // ---------------------------------------------------------------- the pieces of the transaction

  function Missing(expected: seq<Card>, have: set<string>): seq<Card> {
    if expected == [] then []
    else Missing(expected[..|expected| - 1], have)
         + if expected[|expected| - 1].card in have then [] else [expected[|expected| - 1]]
  }

  function Retained(prefs: seq<Pref>, wanted: set<string>): seq<Pref> {
    if prefs == [] then []
    else Retained(prefs[..|prefs| - 1], wanted)
         + if prefs[|prefs| - 1].card in wanted then [prefs[|prefs| - 1]] else []
  }

  function MaxOrder(prefs: seq<Pref>): (m: int)
    ensures m >= -1 && forall p :: p in prefs ==> p.order <= m
  {
    if prefs == [] then -1
    else
      var rest := MaxOrder(prefs[..|prefs| - 1]);
      assert prefs == prefs[..|prefs| - 1] + [prefs[|prefs| - 1]];
      if prefs[|prefs| - 1].order > rest then prefs[|prefs| - 1].order else rest
  }

  /** Rows for the missing cards, ordered behind everything that was there. */
  function NewPrefs(missing: seq<Card>, after: int, newId: nat -> string): seq<Pref> {
    seq(|missing|, i requires 0 <= i < |missing| =>
      Pref(newId(i), missing[i].card, after + 1 + i, missing[i].enabled, missing[i].span))
  }

  /** The curated span of a card, if the layout has it. */
  function DefaultSpan(cards: seq<Card>, card: string): Option<int> {
    if cards == [] then None
    else if cards[|cards| - 1].card == card then Some(cards[|cards| - 1].span)
    else DefaultSpan(cards[..|cards| - 1], card)
  }

  /** Cards still at the migration default whose curated span differs. */
  predicate Widens(cards: seq<Card>, p: Pref) {
    var target := DefaultSpan(cards, p.card);
    target.Some? && target.value != 0 && target.value != 1 && p.span == 1
  }

  function Widened(cards: seq<Card>, prefs: seq<Pref>): seq<Pref> {
    seq(|prefs|, i requires 0 <= i < |prefs| =>
      if Widens(cards, prefs[i]) then prefs[i].(span := DefaultSpan(cards, prefs[i].card).value) else prefs[i])
  }

  /** Nothing the transaction deletes is also to be widened. */
  predicate Consistent(cards: seq<Card>, expected: seq<Card>, user: User) {
    user.layout || forall p :: p in user.prefs && Widens(cards, p) ==> p.card in CardNames(expected)
  }

  /** The user after a sync, or None when the transaction is rolled back. */
  function Synced(cards: seq<Card>, expected: seq<Card>, user: User, newId: nat -> string): Option<User> {
    if user.prefs == [] then
      Some(User(user.role, seq(|expected|, i requires 0 <= i < |expected| =>
        Pref(newId(i), expected[i].card, expected[i].order, expected[i].enabled, expected[i].span)), true))
    else if !Consistent(cards, expected, user) then None
    else
      var kept := Retained(user.prefs, CardNames(expected));
      var added := NewPrefs(Missing(expected, PrefCards(user.prefs)), MaxOrder(user.prefs), newId);
      Some(User(user.role, (if user.layout then kept else Widened(cards, kept)) + added, true))
  }

  // ---------------------------------------------------------------- permissions

  /** Permissions of a role without a row of its own, and when they cannot be read. */
  const ADMIN_PERMISSIONS := {
    "can_view_dashboard", "can_view_hosts", "can_manage_hosts", "can_view_packages", "can_manage_packages",
    "can_view_users", "can_manage_users", "can_view_reports", "can_export_data", "can_manage_settings"
  }

  function PermissionsOf(roles: map<string, set<string>>, role: string): set<string> {
    if role in roles then roles[role] else ADMIN_PERMISSIONS
  }

  // ---------------------------------------------------------------- the sync as the source runs it

  /** Widening restricted to some cards: the state of the update loop half way. */
  function WidenedIn(cards: seq<Card>, prefs: seq<Pref>, names: set<string>): seq<Pref> {
    seq(|prefs|, i requires 0 <= i < |prefs| =>
      if Widens(cards, prefs[i]) && prefs[i].card in names
      then prefs[i].(span := DefaultSpan(cards, prefs[i].card).value) else prefs[i])
  }

  lemma {:induction false} RetainedExact(prefs: seq<Pref>, wanted: set<string>)
    ensures forall p :: p in Retained(prefs, wanted) <==> p in prefs && p.card in wanted
    ensures DistinctPrefs(prefs) ==> DistinctPrefs(Retained(prefs, wanted))
    decreases |prefs|
  {
    if prefs == [] {
    } else {
      var init := prefs[..|prefs| - 1];
      assert prefs == init + [prefs[|prefs| - 1]];
      RetainedExact(init, wanted);
      var last := prefs[|prefs| - 1];
      assert DistinctPrefs(prefs) ==> forall p :: p in init ==> p.id != last.id && p.card != last.card;
    }
  }

  lemma {:induction false} MissingExact(expected: seq<Card>, have: set<string>)
    ensures forall c :: c in Missing(expected, have) <==> c in expected && c.card !in have
    ensures DistinctCards(expected) ==> DistinctCards(Missing(expected, have))
    decreases |expected|
  {
    if expected == [] {
    } else {
      var init := expected[..|expected| - 1];
      assert expected == init + [expected[|expected| - 1]];
      MissingExact(init, have);
      assert DistinctCards(expected) ==> forall c :: c in init ==> c.card != expected[|expected| - 1].card;
    }
  }

  /** The primary-key update of one row; None when the row does not exist. */
  method UpdateSpan(rows: seq<Pref>, id: string, span: int) returns (r: Option<seq<Pref>>)
    ensures r.None? <==> id !in PrefIds(rows)
    ensures r.Some? ==> exists k :: 0 <= k < |rows| && rows[k].id == id && r.value == rows[k := rows[k].(span := span)]
  {
    for k := 0 to |rows|
      invariant forall j :: 0 <= j < k ==> rows[j].id != id
    {
      if rows[k].id == id {
        assert rows[k] in rows;
        return Some(rows[k := rows[k].(span := span)]);
      }
    }
    return None;
  }

  /** One turn of the update loop: the row of the i-th preference is widened if it needs to be. */
  method WidenRow(cards: seq<Card>, prefs: seq<Pref>, i: nat, wanted: set<string>, ghost added: seq<Pref>,
                  rows: seq<Pref>)
    returns (r: Option<seq<Pref>>)
    requires DistinctPrefs(prefs) && i < |prefs| && forall p :: p in added ==> p.id !in PrefIds(prefs)
    requires rows == WidenedIn(cards, Retained(prefs, wanted), PrefCards(prefs[..i])) + added
    ensures r.Some? <==> (Widens(cards, prefs[i]) ==> prefs[i].card in wanted)
    ensures r.Some? ==> r.value == WidenedIn(cards, Retained(prefs, wanted), PrefCards(prefs[..i + 1])) + added
  {
    RetainedExact(prefs, wanted);
    WidenStep(cards, Retained(prefs, wanted), prefs, i);
    if !Widens(cards, prefs[i]) {
      return Some(rows);
    }
    RowToWiden(cards, prefs, i, wanted, added, rows);
    r := UpdateSpan(rows, prefs[i].id, DefaultSpan(cards, prefs[i].card).value);
  }

  /** The loop of span updates on the rows left after deletes and inserts; None when one of them finds no row. */
  method UpdateSpans(cards: seq<Card>, prefs: seq<Pref>, wanted: set<string>, added: seq<Pref>)
    returns (r: Option<seq<Pref>>)
    requires DistinctPrefs(prefs) && forall p :: p in added ==> p.id !in PrefIds(prefs)
    ensures r.Some? <==> forall p :: p in prefs && Widens(cards, p) ==> p.card in wanted
    ensures r.Some? ==> r.value == Widened(cards, Retained(prefs, wanted)) + added
  {
    var rows := Retained(prefs, wanted) + added;
    assert WidenedIn(cards, Retained(prefs, wanted), PrefCards([])) == Retained(prefs, wanted);
    for i := 0 to |prefs|
      invariant rows == WidenedIn(cards, Retained(prefs, wanted), PrefCards(prefs[..i])) + added
      invariant forall j :: 0 <= j < i && Widens(cards, prefs[j]) ==> prefs[j].card in wanted
    {
      var updated := WidenRow(cards, prefs, i, wanted, added, rows);
      if updated.None? {
        return None;
      }
      rows := updated.value;
    }
    assert prefs[..|prefs|] == prefs;
    WidenedInAll(cards, prefs, wanted);
    return Some(rows);
  }

  /** The transaction for one user: delete, insert, update, and None for a rollback. */
  method SyncUser(cards: seq<Card>, expected: seq<Card>, user: User, newId: nat -> string) returns (r: Option<User>)
    requires DistinctPrefs(user.prefs)
    requires forall i :: newId(i) !in PrefIds(user.prefs)
    ensures r == Synced(cards, expected, user, newId)
    ensures r.None? <==> user.prefs != [] && !Consistent(cards, expected, user)
  {
    if |user.prefs| == 0 {
      var prefs := seq(|expected|, i requires 0 <= i < |expected| =>
        Pref(newId(i), expected[i].card, expected[i].order, expected[i].enabled, expected[i].span));
      return Some(User(user.role, prefs, true));
    }
    var wanted := CardNames(expected);
    var added := NewPrefs(Missing(expected, PrefCards(user.prefs)), MaxOrder(user.prefs), newId);
    var rows := Retained(user.prefs, wanted) + added;
    if !user.layout {
      var updated := UpdateSpans(cards, user.prefs, wanted, added);
      if updated.None? {
        return None;
      }
      rows := updated.value;
    }
    return Some(User(user.role, rows, true));
  }

  /** Where the row of a preference stands in the half-updated table, and that nobody else has its id. */
  lemma {:induction false} RowToWiden(cards: seq<Card>, prefs: seq<Pref>, i: nat, wanted: set<string>, added: seq<Pref>,
                                      rows: seq<Pref>)
    requires DistinctPrefs(prefs) && i < |prefs|
    requires rows == WidenedIn(cards, Retained(prefs, wanted), PrefCards(prefs[..i])) + added
    requires forall p :: p in added ==> p.id !in PrefIds(prefs)
    ensures prefs[i].id in PrefIds(rows) <==> prefs[i].card in wanted
    ensures forall k :: 0 <= k < |rows| && rows[k].id == prefs[i].id ==>
              k < |Retained(prefs, wanted)| && Retained(prefs, wanted)[k] == prefs[i] && rows[k] == prefs[i]
  {
    var kept := Retained(prefs, wanted);
    RetainedExact(prefs, wanted);
    assert prefs[i] in prefs && prefs[i].card !in PrefCards(prefs[..i]);
    forall k | |kept| <= k < |rows|
      ensures rows[k].id != prefs[i].id
    {
      assert rows[k] in added;
    }
    forall k | 0 <= k < |kept|
      ensures kept[k].id == prefs[i].id ==> kept[k] == prefs[i]
    {
      assert kept[k] in kept && kept[k] in prefs;
    }
    if prefs[i].card in wanted {
      assert prefs[i] in kept;
      var k :| 0 <= k < |kept| && kept[k] == prefs[i];
      assert rows[k] in rows && rows[k].id == prefs[i].id;
    }
  }

  lemma {:induction false} WidenStep(cards: seq<Card>, kept: seq<Pref>, prefs: seq<Pref>, i: nat)
    requires i < |prefs| && DistinctPrefs(prefs) && (forall p :: p in kept ==> p in prefs) && DistinctPrefs(kept)
    ensures !Widens(cards, prefs[i]) ==>
              WidenedIn(cards, kept, PrefCards(prefs[..i + 1])) == WidenedIn(cards, kept, PrefCards(prefs[..i]))
    ensures forall k :: 0 <= k < |kept| && kept[k] == prefs[i] && Widens(cards, prefs[i]) ==>
              WidenedIn(cards, kept, PrefCards(prefs[..i + 1]))
              == WidenedIn(cards, kept, PrefCards(prefs[..i]))
                   [k := kept[k].(span := DefaultSpan(cards, kept[k].card).value)]
  {
    assert prefs[..i + 1] == prefs[..i] + [prefs[i]];
    assert PrefCards(prefs[..i + 1]) == PrefCards(prefs[..i]) + {prefs[i].card};
    forall k | 0 <= k < |kept| && kept[k].card == prefs[i].card
      ensures kept[k] == prefs[i]
    {
      assert kept[k] in prefs;
    }
  }

  lemma {:induction false} WidenedInAll(cards: seq<Card>, prefs: seq<Pref>, wanted: set<string>)
    ensures WidenedIn(cards, Retained(prefs, wanted), PrefCards(prefs)) == Widened(cards, Retained(prefs, wanted))
  {
    RetainedExact(prefs, wanted);
    forall k | 0 <= k < |Retained(prefs, wanted)|
      ensures Retained(prefs, wanted)[k].card in PrefCards(prefs)
    {
      assert Retained(prefs, wanted)[k] in prefs;
    }
  }

  /** Of the users that were there, the first `n` are synced and the rest are as before. */
  ghost predicate SyncedUpTo(now: seq<User>, was: seq<User>, n: nat, cards: seq<Card>, roles: map<string, set<string>>,
                             newId: (nat, nat) -> string)
    requires n <= |now| == |was|
  {
    && (forall u :: 0 <= u < n ==> SyncFor(cards, roles, was[u], u, newId) == Some(now[u]))
    && (forall u :: n <= u < |now| ==> now[u] == was[u])
  }

  /** All users, in order; the first rollback ends the whole initialisation. */
  method InitializeDashboardPreferences(cards: seq<Card>, roles: map<string, set<string>>, users: array<User>,
                                        newId: (nat, nat) -> string) returns (ok: bool)
    requires forall u :: 0 <= u < users.Length ==> DistinctPrefs(users[u].prefs)
    requires forall u, i :: 0 <= u < users.Length ==> newId(u, i) !in PrefIds(users[u].prefs)
    modifies users
    ensures ok ==> SyncedUpTo(users[..], old(users[..]), users.Length, cards, roles, newId)
    ensures !ok ==> exists f | 0 <= f < users.Length && SyncFor(cards, roles, old(users[f]), f, newId).None? ::
              SyncedUpTo(users[..], old(users[..]), f, cards, roles, newId)
  {
    ghost var was := users[..];
    for n := 0 to users.Length
      invariant SyncedUpTo(users[..], was, n, cards, roles, newId)
    {
      assert users[n] == was[n];
      var expected := Permitted(cards, PermissionsOf(roles, users[n].role));
      var synced := SyncUser(cards, expected, users[n], (i: nat) => newId(n, i));
      assert synced == SyncFor(cards, roles, was[n], n, newId);
      if synced.None? {
        return false;
      }
      users[n] := synced.value;
    }
    return true;
  }

  function SyncFor(cards: seq<Card>, roles: map<string, set<string>>, user: User, n: nat,
                   newId: (nat, nat) -> string): Option<User>
  {
    Synced(cards, Permitted(cards, PermissionsOf(roles, user.role)), user, (i: nat) => newId(n, i))
  }

  // ---------------------------------------------------------------- what a committed sync achieves

  lemma {:induction false} PermittedExact(cards: seq<Card>, allowed: set<string>)
    ensures forall c :: c in Permitted(cards, allowed) <==> c in cards && c.permission in allowed
    ensures DistinctCards(cards) ==> DistinctCards(Permitted(cards, allowed))
    decreases |cards|
  {
    if cards == [] {
    } else {
      var init := cards[..|cards| - 1];
      assert cards == init + [cards[|cards| - 1]];
      PermittedExact(init, allowed);
      assert DistinctCards(cards) ==> forall c :: c in init ==> c.card != cards[|cards| - 1].card;
    }
  }

  /** Behind the rows that stay come the rows of the missing cards. */
  lemma {:induction false} SyncedRow(cards: seq<Card>, expected: seq<Card>, user: User, newId: nat -> string, i: nat)
    requires Synced(cards, expected, user, newId).Some? && user.prefs != []
    ensures var after := Synced(cards, expected, user, newId).value.prefs;
            var kept, missing := Retained(user.prefs, CardNames(expected)), Missing(expected, PrefCards(user.prefs));
            && |after| == |kept| + |missing|
            && (i < |kept| ==> after[i].id == kept[i].id && after[i].card == kept[i].card)
            && (|kept| <= i < |after| ==> after[i].id == newId(i - |kept|) && after[i].card == missing[i - |kept|].card)
  {}

  lemma {:induction false} OnlyPermittedCards(cards: seq<Card>, expected: seq<Card>, user: User, newId: nat -> string,
                                              i: nat)
    requires Synced(cards, expected, user, newId).Some? && i < |Synced(cards, expected, user, newId).value.prefs|
    ensures Synced(cards, expected, user, newId).value.prefs[i].card in CardNames(expected)
  {
    if user.prefs == [] {
      assert expected[i] in expected;
    } else {
      var kept, missing := Retained(user.prefs, CardNames(expected)), Missing(expected, PrefCards(user.prefs));
      SyncedRow(cards, expected, user, newId, i);
      RetainedExact(user.prefs, CardNames(expected));
      MissingExact(expected, PrefCards(user.prefs));
      if i < |kept| {
        assert kept[i] in kept;
      } else {
        assert missing[i - |kept|] in missing;
      }
    }
  }

  lemma {:induction false} KeptCard(cards: seq<Card>, expected: seq<Card>, user: User, newId: nat -> string, c: Card)
    requires Synced(cards, expected, user, newId).Some? && user.prefs != []
    requires c in expected && c.card in PrefCards(user.prefs)
    ensures c.card in PrefCards(Synced(cards, expected, user, newId).value.prefs)
  {
    var after := Synced(cards, expected, user, newId).value.prefs;
    RetainedExact(user.prefs, CardNames(expected));
    var p :| p in user.prefs && p.card == c.card;
    var kept := Retained(user.prefs, CardNames(expected));
    assert p in kept;
    var i: nat :| i < |kept| && kept[i] == p;
    SyncedRow(cards, expected, user, newId, i);
    assert after[i] in after;
  }

  lemma {:induction false} MissingAt(expected: seq<Card>, have: set<string>, c: Card) returns (m: nat)
    requires c in expected && c.card !in have
    ensures m < |Missing(expected, have)| && Missing(expected, have)[m].card == c.card
  {
    MissingExact(expected, have);
    assert c in Missing(expected, have);
    m :| m < |Missing(expected, have)| && Missing(expected, have)[m] == c;
  }

  lemma {:induction false} AddedCard(cards: seq<Card>, expected: seq<Card>, user: User, newId: nat -> string, c: Card)
    requires Synced(cards, expected, user, newId).Some? && user.prefs != []
    requires c in expected && c.card !in PrefCards(user.prefs)
    ensures c.card in PrefCards(Synced(cards, expected, user, newId).value.prefs)
  {
    var m := MissingAt(expected, PrefCards(user.prefs), c);
    var i := |Retained(user.prefs, CardNames(expected))| + m;
    SyncedRow(cards, expected, user, newId, i);
    CardAt(Synced(cards, expected, user, newId).value.prefs, i);
  }

  lemma {:induction false} CardAt(prefs: seq<Pref>, i: nat)
    requires i < |prefs|
    ensures prefs[i].card in PrefCards(prefs)
  {
    assert prefs[i] in prefs;
  }

  lemma {:induction false} SeededCard(cards: seq<Card>, expected: seq<Card>, user: User, newId: nat -> string, c: Card)
    requires user.prefs == [] && c in expected
    ensures c.card in PrefCards(Synced(cards, expected, user, newId).value.prefs)
  {
    var after := Synced(cards, expected, user, newId).value.prefs;
    var i :| 0 <= i < |expected| && expected[i] == c;
    assert after[i] in after;
  }

  lemma {:induction false} EveryPermittedCard(cards: seq<Card>, expected: seq<Card>, user: User, newId: nat -> string,
                                              c: Card)
    requires Synced(cards, expected, user, newId).Some? && c in expected
    ensures c.card in PrefCards(Synced(cards, expected, user, newId).value.prefs)
  {
    if user.prefs == [] {
      SeededCard(cards, expected, user, newId, c);
    } else if c.card in PrefCards(user.prefs) {
      KeptCard(cards, expected, user, newId, c);
    } else {
      AddedCard(cards, expected, user, newId, c);
    }
  }

  /** The user has exactly the permitted cards afterwards. */
  lemma {:induction false} SyncMakesCardsPermitted(cards: seq<Card>, expected: seq<Card>, user: User,
                                                   newId: nat -> string)
    requires Synced(cards, expected, user, newId).Some?
    ensures PrefCards(Synced(cards, expected, user, newId).value.prefs) == CardNames(expected)
  {
    var after := Synced(cards, expected, user, newId).value.prefs;
    forall p | p in after
      ensures p.card in CardNames(expected)
    {
      var i: nat :| i < |after| && after[i] == p;
      OnlyPermittedCards(cards, expected, user, newId, i);
    }
    forall c | c in expected
      ensures c.card in PrefCards(after)
    {
      EveryPermittedCard(cards, expected, user, newId, c);
    }
  }

  /** What may change in a row that stays: only the span, and only when the layout record was missing. */
  predicate SameButSpan(cards: seq<Card>, before: Pref, after: Pref, layout: bool) {
    && after == before.(span := after.span)
    && after.span == if !layout && Widens(cards, before) then DefaultSpan(cards, before.card).value else before.span
  }

  /**
   For a user who has cards: the rows that stay come first, in their old sequence and with their order
   and enabled flag; behind them the new cards in layout order, ordered above everything that was there.
   */
  lemma {:induction false} SyncKeepsCustomisation(cards: seq<Card>, expected: seq<Card>, user: User,
                                                  newId: nat -> string)
    requires Synced(cards, expected, user, newId).Some? && user.prefs != []
    ensures var after := Synced(cards, expected, user, newId).value.prefs;
            var kept := Retained(user.prefs, CardNames(expected));
            && |kept| <= |after|
            && (forall i :: 0 <= i < |kept| ==> SameButSpan(cards, kept[i], after[i], user.layout))
            && (forall i, p :: |kept| <= i < |after| && p in user.prefs ==>
                  after[i].card != p.card && after[i].order > p.order)
            && (forall i, j :: |kept| <= i < j < |after| ==> after[i].order < after[j].order)
  {
    var missing := Missing(expected, PrefCards(user.prefs));
    MissingExact(expected, PrefCards(user.prefs));
    var after := Synced(cards, expected, user, newId).value.prefs;
    var kept := Retained(user.prefs, CardNames(expected));
    forall i | |kept| <= i < |after|
      ensures after[i].card !in PrefCards(user.prefs)
    {
      assert missing[i - |kept|] in missing;
    }
  }

  ghost predicate NewIds(prefs: seq<Pref>, newId: nat -> string) {
    (forall i, j :: i != j ==> newId(i) != newId(j)) && forall i :: newId(i) !in PrefIds(prefs)
  }

  lemma {:induction false} RowsDiffer(cards: seq<Card>, expected: seq<Card>, user: User, newId: nat -> string, i: nat,
                                      j: nat)
    requires Synced(cards, expected, user, newId).Some? && user.prefs != []
    requires DistinctPrefs(user.prefs) && DistinctCards(expected) && NewIds(user.prefs, newId)
    requires i < j < |Synced(cards, expected, user, newId).value.prefs|
    ensures var after := Synced(cards, expected, user, newId).value.prefs;
            after[i].id != after[j].id && after[i].card != after[j].card
  {
    var kept, missing := Retained(user.prefs, CardNames(expected)), Missing(expected, PrefCards(user.prefs));
    RetainedExact(user.prefs, CardNames(expected));
    MissingExact(expected, PrefCards(user.prefs));
    SyncedRow(cards, expected, user, newId, i);
    SyncedRow(cards, expected, user, newId, j);
    if i < |kept| <= j {
      assert kept[i] in kept && missing[j - |kept|] in missing;
      assert kept[i] in user.prefs;
    }
  }

  /** Card names and ids stay unique, so the table's uniqueness constraint is never violated. */
  lemma {:induction false} SyncStaysDistinct(cards: seq<Card>, expected: seq<Card>, user: User, newId: nat -> string)
    requires Synced(cards, expected, user, newId).Some?
    requires DistinctPrefs(user.prefs) && DistinctCards(expected) && NewIds(user.prefs, newId)
    ensures DistinctPrefs(Synced(cards, expected, user, newId).value.prefs)
  {
    var after := Synced(cards, expected, user, newId).value.prefs;
    if user.prefs != [] {
      forall i, j | 0 <= i < j < |after|
        ensures after[i].id != after[j].id && after[i].card != after[j].card
      {
        RowsDiffer(cards, expected, user, newId, i, j);
      }
    }
  }

  lemma {:induction false} RetainedAll(prefs: seq<Pref>, wanted: set<string>)
    requires PrefCards(prefs) <= wanted
    ensures Retained(prefs, wanted) == prefs
    decreases |prefs|
  {
    if prefs == [] {
    } else {
      assert prefs == prefs[..|prefs| - 1] + [prefs[|prefs| - 1]];
      assert prefs[|prefs| - 1] in prefs;
      assert PrefCards(prefs[..|prefs| - 1]) <= wanted;
      RetainedAll(prefs[..|prefs| - 1], wanted);
    }
  }

  lemma {:induction false} MissingNothing(expected: seq<Card>, have: set<string>)
    requires CardNames(expected) <= have
    ensures Missing(expected, have) == []
  {
    MissingExact(expected, have);
    var missing := Missing(expected, have);
    assert |missing| > 0 ==> missing[0] in missing && missing[0].card in CardNames(expected);
  }

  lemma {:induction false} NoNamesNoCards(expected: seq<Card>)
    ensures CardNames(expected) == {} ==> expected == []
  {
    if expected != [] {
      assert expected[0].card in CardNames(expected);
    }
  }

  /** A user with a layout record and exactly the permitted cards is left as is. */
  lemma {:induction false} SettledUser(cards: seq<Card>, expected: seq<Card>, user: User, newId: nat -> string)
    requires user.layout && PrefCards(user.prefs) == CardNames(expected)
    ensures Synced(cards, expected, user, newId) == Some(user)
  {
    if user.prefs == [] {
      NoNamesNoCards(expected);
      assert Synced(cards, expected, user, newId).value.prefs == [];
    } else {
      SettledCards(expected, user.prefs, newId);
    }
  }

  lemma {:induction false} SettledCards(expected: seq<Card>, prefs: seq<Pref>, newId: nat -> string)
    requires PrefCards(prefs) == CardNames(expected)
    ensures Retained(prefs, CardNames(expected))
            + NewPrefs(Missing(expected, PrefCards(prefs)), MaxOrder(prefs), newId) == prefs
  {
    MissingNothing(expected, PrefCards(prefs));
    RetainedAll(prefs, CardNames(expected));
  }

  /** Running the sync again with the same permissions changes nothing, whatever ids are then handed out. */
  lemma {:induction false} SyncIsIdempotent(cards: seq<Card>, expected: seq<Card>, user: User, newId: nat -> string,
                                            later: nat -> string)
    requires Synced(cards, expected, user, newId).Some?
    ensures var once := Synced(cards, expected, user, newId).value;
            Synced(cards, expected, once, later) == Some(once)
  {
    SyncMakesCardsPermitted(cards, expected, user, newId);
    SettledUser(cards, expected, Synced(cards, expected, user, newId).value, later);
  }

  /** The rollback is real: an upgrading user who lost the right to a wide card is never synced. */
  lemma {:induction false} UpgradeCanRollBack(wide: Card, plain: Card, cards: seq<Card>, user: User,
                                              newId: nat -> string)
    requires wide == Card("quickStats", "can_view_dashboard", 2, true, 2)
    requires plain == Card("totalHosts", "can_view_hosts", 0, true, 1) && cards == [wide, plain]
    requires user.role == "readonly" && !user.layout
    requires user.prefs == [Pref("p1", "quickStats", 0, true, 1), Pref("p2", "totalHosts", 1, true, 1)]
    ensures Synced(cards, Permitted(cards, {"can_view_hosts"}), user, newId) == None
  {
    var expected := Permitted(cards, {"can_view_hosts"});
    var p := user.prefs[0];
    PermittedExact(cards, {"can_view_hosts"});
    assert cards[..1] == [wide];
    assert DefaultSpan(cards[..1], "quickStats") == Some(2);
    assert DefaultSpan(cards, "quickStats") == Some(2);
    assert forall c :: c in expected ==> c.card != "quickStats";
    assert p in user.prefs && Widens(cards, p);
  }

  // ---------------------------------------------------------------- rows, field by field

  /** The filters keep the sequence they find. */
  lemma {:induction false} PermittedInSequence(a: seq<Card>, b: seq<Card>, allowed: set<string>)
    ensures Permitted(a + b, allowed) == Permitted(a, allowed) + Permitted(b, allowed)
    decreases |b|
  {
    if b == [] {
      assert a + b == a;
    } else {
      assert (a + b)[..|a + b| - 1] == a + b[..|b| - 1];
      PermittedInSequence(a, b[..|b| - 1], allowed);
    }
  }

  lemma {:induction false} MissingInSequence(a: seq<Card>, b: seq<Card>, have: set<string>)
    ensures Missing(a + b, have) == Missing(a, have) + Missing(b, have)
    decreases |b|
  {
    if b == [] {
      assert a + b == a;
    } else {
      assert (a + b)[..|a + b| - 1] == a + b[..|b| - 1];
      MissingInSequence(a, b[..|b| - 1], have);
    }
  }

  lemma {:induction false} RetainedInSequence(a: seq<Pref>, b: seq<Pref>, wanted: set<string>)
    ensures Retained(a + b, wanted) == Retained(a, wanted) + Retained(b, wanted)
    decreases |b|
  {
    if b == [] {
      assert a + b == a;
    } else {
      assert (a + b)[..|a + b| - 1] == a + b[..|b| - 1];
      RetainedInSequence(a, b[..|b| - 1], wanted);
    }
  }

  /** The highest order that was there, or -1. */
  lemma {:induction false} MaxOrderAttained(prefs: seq<Pref>)
    ensures MaxOrder(prefs) == -1 || exists i :: 0 <= i < |prefs| && prefs[i].order == MaxOrder(prefs)
    decreases |prefs|
  {
    if prefs == [] {
    } else {
      var init := prefs[..|prefs| - 1];
      MaxOrderAttained(init);
      if i :| 0 <= i < |init| && init[i].order == MaxOrder(init) {
        assert prefs[i] == init[i];
      }
    }
  }

  lemma {:induction false} AddedRows(cards: seq<Card>, expected: seq<Card>, user: User, newId: nat -> string)
    requires Synced(cards, expected, user, newId).Some? && user.prefs != []
    ensures var after, kept := Synced(cards, expected, user, newId).value.prefs,
                               |Retained(user.prefs, CardNames(expected))|;
            kept <= |after| && after[kept..]
            == NewPrefs(Missing(expected, PrefCards(user.prefs)), MaxOrder(user.prefs), newId)
  {}

  lemma {:induction false} NewPrefAt(missing: seq<Card>, after: int, newId: nat -> string, rows: seq<Pref>, kept: nat,
                                     m: nat)
    requires kept <= |rows| && rows[kept..] == NewPrefs(missing, after, newId) && m < |missing|
    ensures kept + m < |rows|
    ensures rows[kept + m] == Pref(newId(m), missing[m].card, after + 1 + m, missing[m].enabled, missing[m].span)
  {
    assert rows[kept + m] == rows[kept..][m];
  }

  /** A new card has the enabled flag and the span of the layout, and its place behind the highest order. */
  lemma {:induction false} NewCardsAreCurated(cards: seq<Card>, expected: seq<Card>, user: User, newId: nat -> string,
                                              after: seq<Pref>, missing: seq<Card>, kept: nat, m: nat)
    requires user.prefs != [] && Synced(cards, expected, user, newId) == Some(User(user.role, after, true))
    requires missing == Missing(expected, PrefCards(user.prefs)) && m < |missing|
    requires kept == |Retained(user.prefs, CardNames(expected))|
    ensures kept + m < |after|
    ensures after[kept + m]
            == Pref(newId(m), missing[m].card, MaxOrder(user.prefs) + 1 + m, missing[m].enabled, missing[m].span)
  {
    AddedRows(cards, expected, user, newId);
    NewPrefAt(missing, MaxOrder(user.prefs), newId, after, kept, m);
  }

  /** A user without cards gets the layout as it is, and every user keeps the role and has a layout record. */
  lemma {:induction false} SeededAsLayout(cards: seq<Card>, expected: seq<Card>, user: User, newId: nat -> string)
    requires Synced(cards, expected, user, newId).Some?
    ensures var after := Synced(cards, expected, user, newId).value;
            && after.role == user.role && after.layout
            && (user.prefs == [] ==>
                  && |after.prefs| == |expected|
                  && forall i :: 0 <= i < |expected| ==>
                       after.prefs[i] == Pref(newId(i), expected[i].card, expected[i].order, expected[i].enabled,
                                              expected[i].span))
  {}

  lemma {:induction false} SpanOfCard(cards: seq<Card>, c: Card)
    requires DistinctCards(cards) && c in cards
    ensures DefaultSpan(cards, c.card) == Some(c.span)
    decreases |cards|
  {
    var init, last := cards[..|cards| - 1], cards[|cards| - 1];
    assert cards == init + [last];
    if c == last {
    } else {
      SpanOfCard(init, c);
    }
  }

  lemma {:induction false} NoSpanOfOthers(cards: seq<Card>, name: string)
    requires forall c :: c in cards ==> c.card != name
    ensures DefaultSpan(cards, name) == None
    decreases |cards|
  {
    if cards == [] {
    } else {
      assert cards[|cards| - 1] in cards;
      NoSpanOfOthers(cards[..|cards| - 1], name);
    }
  }

  /** A card is widened iff it is still one column wide where the layout has it wider; it gets the layout's span. */
  lemma {:induction false} WidensIff(cards: seq<Card>, p: Pref)
    requires DistinctCards(cards)
    ensures Widens(cards, p) <==>
            p.span == 1 && exists c :: c in cards && c.card == p.card && c.span != 0 && c.span != 1
    ensures forall c :: c in cards && c.card == p.card ==> DefaultSpan(cards, p.card) == Some(c.span)
  {
    forall c | c in cards && c.card == p.card
      ensures DefaultSpan(cards, p.card) == Some(c.span)
    {
      SpanOfCard(cards, c);
    }
    if forall c :: c in cards ==> c.card != p.card {
      NoSpanOfOthers(cards, p.card);
    }
  }

  /** What a role may see: what its row allows, and without a row what an administrator may. */
  lemma {:induction false} PermittedForRole(cards: seq<Card>, roles: map<string, set<string>>, role: string, c: Card)
    ensures c in Permitted(cards, PermissionsOf(roles, role)) <==>
            && c in cards
            && (if role in roles then c.permission in roles[role]
                else c.permission in {"can_view_dashboard", "can_view_hosts", "can_manage_hosts", "can_view_packages",
                                      "can_manage_packages", "can_view_users", "can_manage_users", "can_view_reports",
                                      "can_export_data", "can_manage_settings"})
  {
    PermittedExact(cards, PermissionsOf(roles, role));
  }
}
