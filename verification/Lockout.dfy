/**
 Login and second-factor lockout: counters and locks kept in Redis under keys that expire.

 The handlers are methods of `AuthStore`, which change the keyed store command by command.
 Counter and lock belong to an identifier: for a login what was typed, in lower case, for the second
 factor the id of the user. What the handlers do to one identifier is the pure transition `AfterFailure`
 on its two cells; the theorems about whole timed runs are about the requests `Serve` applies.
 */
module Lockout {
  import opened Options

  /** A Redis value with the instant (in seconds) at which its key expires, if it has one. */
  datatype Cell = Cell(value: int, expiry: Option<int>)

  type Cells = map<string, Cell>

  predicate Live(cell: Option<Cell>, now: int) {
    cell.Some? && (cell.value.expiry.Some? ==> now < cell.value.expiry.value)
  }

  function Lookup(cells: Cells, key: string): Option<Cell> {
    if key in cells then Some(cells[key]) else None
  }

  /** Prefixes and limits of one lockout; `fold` is what the handler does to the identifier. */
  datatype Policy = Policy(
    lockPrefix: string,
    failPrefix: string,
    fold: string -> string,
    maxAttempts: int,
    failTtl: int,
    lockTtl: int)
  {
    function LockKey(id: string): string { lockPrefix + fold(id) }

    function FailKey(id: string): string { failPrefix + fold(id) }

    /** Failures after which the identifier is locked. A limit of zero or less locks at the first one. */
    function Limit(): nat { if maxAttempts < 1 then 1 else maxAttempts }

    /** The longest window the sliding bound speaks about. */
    function Window(): int { if failTtl < lockTtl then failTtl else lockTtl }

    /** The most failed checks such a window can hold while nobody succeeds. */
    function Bound(): nat { if Limit() == 1 then 1 else 2 * Limit() - 2 }
  }

  /** The cells one identifier owns under one policy. */
  datatype Account = Account(counter: Option<Cell>, lock: Option<Cell>)

  function AccountOf(cells: Cells, p: Policy, id: string): Account {
    Account(Lookup(cells, p.FailKey(id)), Lookup(cells, p.LockKey(id)))
  }

  function Attempts(a: Account, now: int): int {
    if Live(a.counter, now) then a.counter.value.value + 1 else 1
  }

  function AfterFailure(p: Policy, a: Account, now: int): Account {
    var n := Attempts(a, now);
    if n >= p.maxAttempts then
      Account(None, Some(Cell(now, Some(now + p.lockTtl))))
    else if n == 1 then
      a.(counter := Some(Cell(1, Some(now + p.failTtl))))
    else
      a.(counter := Some(Cell(n, a.counter.value.expiry)))
  }

  function AfterSuccess(a: Account): Account {
    a.(counter := None)
  }

  // ---------------------------------------------------------------- requests and runs

  const LOGIN_LOCK := "login:lockout:"
  const LOGIN_FAIL := "login:failed:"
  const TFA_LOCK := "tfa:lockout:"
  const TFA_FAIL := "tfa:failed:"

  /** What the deployment can set; `lower` stands for the case folding of login names. */
  datatype Config = Config(
    lower: string -> string,
    maxLogin: int,
    loginLockMinutes: int,
    maxTfa: int,
    tfaLockMinutes: int)
  {
    function PolicyOf(kind: Kind): Policy {
      match kind
      case Login => Policy(LOGIN_LOCK, LOGIN_FAIL, lower, maxLogin, 60 * 15, loginLockMinutes * 60)
      case Tfa => Policy(TFA_LOCK, TFA_FAIL, (id: string) => id, maxTfa, tfaLockMinutes * 60, tfaLockMinutes * 60)
    }
  }

  datatype Kind = Login | Tfa

  /** What the user table and the secret comparison say about a request. */
  datatype Verdict = UserNotFound | NoPassword | WrongSecret | RightSecret

  /** The lock is looked up at `checkAt`; the result is recorded at `recordAt`, after the hash comparison. */
  datatype Request = Request(kind: Kind, id: string, checkAt: int, recordAt: int, verdict: Verdict)

  datatype Outcome =
    | LockedOut(remaining: int)
    | Refused                        // no secret compared, nothing recorded
    | Failed(attempts: int, locked: bool)
    | Passed

  function Judge(p: Policy, a: Account, r: Request): (Account, Outcome) {
    if r.kind == Tfa && r.verdict == UserNotFound then
      (a, Refused)                   // the second factor looks the user up before the lock
    else if Live(a.lock, r.checkAt) then
      (a, LockedOut(if a.lock.value.expiry.Some? then a.lock.value.expiry.value - r.checkAt else -1))
    else match r.verdict
      case NoPassword => (a, Refused)
      case RightSecret => (AfterSuccess(a), Passed)
      case _ => (AfterFailure(p, a, r.recordAt),
                 Failed(Attempts(a, r.recordAt), Attempts(a, r.recordAt) >= p.maxAttempts))
  }

  function Store(cells: Cells, key: string, cell: Option<Cell>): Cells {
    if cell.Some? then cells[key := cell.value] else cells - {key}
  }

  function Put(cells: Cells, p: Policy, id: string, a: Account): Cells {
    Store(Store(cells, p.FailKey(id), a.counter), p.LockKey(id), a.lock)
  }

  function Serve(c: Config, cells: Cells, r: Request): (Cells, Outcome) {
    var p := c.PolicyOf(r.kind);
    var (a, out) := Judge(p, AccountOf(cells, p, r.id), r);
    (Put(cells, p, r.id, a), out)
  }

  /** One request at a time: each starts after the one before has recorded its result. */
  predicate Sequential(reqs: seq<Request>) {
    && (forall i :: 0 <= i < |reqs| ==> reqs[i].checkAt <= reqs[i].recordAt)
    && (forall i, j :: 0 <= i < j < |reqs| ==> reqs[i].recordAt <= reqs[j].checkAt)
  }

  function Run(c: Config, cells: Cells, reqs: seq<Request>): Cells
    decreases |reqs|
  {
    if reqs == [] then cells else Run(c, Serve(c, cells, reqs[0]).0, reqs[1..])
  }

  predicate About(c: Config, r: Request, kind: Kind, id: string) {
    r.kind == kind && c.PolicyOf(kind).fold(r.id) == c.PolicyOf(kind).fold(id)
  }

  predicate Within(r: Request, from: int, to: int) { from <= r.recordAt < to }

  /** How many requests of the run about this identifier failed (or passed) at an instant in [from, to). */
  function Count(c: Config, cells: Cells, reqs: seq<Request>, kind: Kind, id: string,
                 from: int, to: int, passed: bool): nat
    decreases |reqs|
  {
    if reqs == [] then 0
    else
      var (cells', out) := Serve(c, cells, reqs[0]);
      var hit := About(c, reqs[0], kind, id) && Within(reqs[0], from, to)
                 && (if passed then out.Passed? else out.Failed?);
      (if hit then 1 else 0) + Count(c, cells', reqs[1..], kind, id, from, to, passed)
  }

  function Failures(c: Config, cells: Cells, reqs: seq<Request>, kind: Kind, id: string, from: int, to: int): nat {
    Count(c, cells, reqs, kind, id, from, to, false)
  }

  function Passes(c: Config, cells: Cells, reqs: seq<Request>, kind: Kind, id: string, from: int, to: int): nat {
    Count(c, cells, reqs, kind, id, from, to, true)
  }

  // ---------------------------------------------------------------- keys of different identifiers

  /** Neither string starts with the other, so keys under the two prefixes never meet. */
  predicate Apart(x: string, y: string) {
    exists i :: 0 <= i < |x| && i < |y| && x[i] != y[i]
  }

  lemma {:induction false} ApartKeysDiffer(x: string, y: string, s: string, t: string)
    requires Apart(x, y)
    ensures x + s != y + t
  {
    var i :| 0 <= i < |x| && i < |y| && x[i] != y[i];
    assert (x + s)[i] != (y + t)[i];
  }

  lemma {:induction false} SamePrefixKeys(x: string, s: string, t: string)
    ensures x + s == x + t <==> s == t
  {
    assert (x + s)[|x|..] == s;
    assert (x + t)[|x|..] == t;
  }

  lemma {:induction false} PrefixesApart()
    ensures Apart(LOGIN_LOCK, LOGIN_FAIL) && Apart(TFA_LOCK, TFA_FAIL)
    ensures Apart(LOGIN_LOCK, TFA_LOCK) && Apart(LOGIN_LOCK, TFA_FAIL)
    ensures Apart(LOGIN_FAIL, TFA_LOCK) && Apart(LOGIN_FAIL, TFA_FAIL)
  {
    assert LOGIN_LOCK[6] != LOGIN_FAIL[6];
    assert TFA_LOCK[4] != TFA_FAIL[4];
    assert LOGIN_LOCK[0] != TFA_LOCK[0] && LOGIN_LOCK[0] != TFA_FAIL[0];
    assert LOGIN_FAIL[0] != TFA_LOCK[0] && LOGIN_FAIL[0] != TFA_FAIL[0];
  }

  lemma {:induction false} KeysOfIdentifiers(c: Config, k: Kind, id: string, k': Kind, id': string)
    ensures c.PolicyOf(k).FailKey(id) != c.PolicyOf(k').LockKey(id')
    ensures c.PolicyOf(k).FailKey(id) == c.PolicyOf(k').FailKey(id')
            <==> k == k' && c.PolicyOf(k).fold(id) == c.PolicyOf(k).fold(id')
    ensures c.PolicyOf(k).LockKey(id) == c.PolicyOf(k').LockKey(id')
            <==> k == k' && c.PolicyOf(k).fold(id) == c.PolicyOf(k).fold(id')
  {
    PrefixesApart();
    var p, p' := c.PolicyOf(k), c.PolicyOf(k');
    var s, t := p.fold(id), p'.fold(id');
    ApartKeysDiffer(p'.lockPrefix, p.failPrefix, t, s);
    if k == k' {
      SamePrefixKeys(p.failPrefix, s, t);
      SamePrefixKeys(p.lockPrefix, s, t);
    } else if k == Login {
      ApartKeysDiffer(p.failPrefix, p'.failPrefix, s, t);
      ApartKeysDiffer(p.lockPrefix, p'.lockPrefix, s, t);
    } else {
      ApartKeysDiffer(p'.failPrefix, p.failPrefix, t, s);
      ApartKeysDiffer(p'.lockPrefix, p.lockPrefix, t, s);
    }
  }

  lemma {:induction false} PutBack(c: Config, cells: Cells, kind: Kind, id: string)
    ensures Put(cells, c.PolicyOf(kind), id, AccountOf(cells, c.PolicyOf(kind), id)) == cells
  {
    KeysOfIdentifiers(c, kind, id, kind, id);
  }

  /** A request changes the identifier it is about as `Judge` says and no other of either kind. */
  lemma {:induction false} ServeTouchesOneIdentifier(c: Config, cells: Cells, r: Request, kind: Kind, id: string)
    ensures AccountOf(Serve(c, cells, r).0, c.PolicyOf(kind), id)
            == if About(c, r, kind, id)
               then Judge(c.PolicyOf(kind), AccountOf(cells, c.PolicyOf(kind), id), r).0
               else AccountOf(cells, c.PolicyOf(kind), id)
    ensures About(c, r, kind, id)
            ==> Serve(c, cells, r).1 == Judge(c.PolicyOf(kind), AccountOf(cells, c.PolicyOf(kind), id), r).1
  {
    KeysOfIdentifiers(c, r.kind, r.id, kind, id);
    KeysOfIdentifiers(c, kind, id, r.kind, r.id);
    KeysOfIdentifiers(c, r.kind, r.id, r.kind, r.id);
  }

  // ---------------------------------------------------------------- what every run keeps

  /** Between requests a counter is below the limit, and both keys carry an expiry. */
  predicate Sound(p: Policy, a: Account) {
    && (a.counter.Some? ==> a.counter.value.expiry.Some? && 1 <= a.counter.value.value < p.Limit())
    && (a.lock.Some? ==> a.lock.value.expiry.Some?)
  }

  lemma {:induction false} RunsStaySound(c: Config, cells: Cells, reqs: seq<Request>, kind: Kind, id: string)
    requires Sound(c.PolicyOf(kind), AccountOf(cells, c.PolicyOf(kind), id))
    ensures Sound(c.PolicyOf(kind), AccountOf(Run(c, cells, reqs), c.PolicyOf(kind), id))
    decreases |reqs|
  {
    if reqs == [] {
    } else {
      ServeTouchesOneIdentifier(c, cells, reqs[0], kind, id);
      RunsStaySound(c, Serve(c, cells, reqs[0]).0, reqs[1..], kind, id);
    }
  }

  /** In every run from an empty store the live counter stays below the limit and nothing lacks an expiry. */
  lemma {:induction false} CounterBelowLimit(c: Config, reqs: seq<Request>, kind: Kind, id: string)
    ensures Sound(c.PolicyOf(kind), AccountOf(Run(c, map[], reqs), c.PolicyOf(kind), id))
  {
    RunsStaySound(c, map[], reqs, kind, id);
  }

  // ---------------------------------------------------------------- the sliding-window bound

  /** How many more failures a window ending at `to` can see from this state of an identifier, if nobody succeeds. */
  function Budget(p: Policy, a: Account, to: int): nat
    requires Sound(p, a)
  {
    if a.lock.Some? && to <= a.lock.value.expiry.value then 0
    else if a.counter.None? then p.Limit()
    else if to <= a.counter.value.expiry.value then p.Limit() - a.counter.value.value
    else 2 * p.Limit() - 1 - a.counter.value.value
  }

  /** What `passes` successes add to the bound: each clears the counter. */
  function Extra(p: Policy, passes: nat): nat { (p.Limit() - 1) * passes }

  lemma {:induction false} ExtraStep(p: Policy, passes: nat)
    ensures Extra(p, passes + 1) == Extra(p, passes) + p.Limit() - 1
  {}

  lemma {:induction false} BudgetAtMostBound(p: Policy, a: Account, to: int)
    requires Sound(p, a)
    ensures Budget(p, a, to) <= p.Bound()
  {}

  lemma {:induction false} NothingAfterWindow(c: Config, cells: Cells, reqs: seq<Request>, kind: Kind, id: string,
                                              from: int, to: int)
    requires forall i :: 0 <= i < |reqs| ==> to <= reqs[i].recordAt
    ensures Failures(c, cells, reqs, kind, id, from, to) == 0
    decreases |reqs|
  {
    if reqs == [] {
    } else {
      NothingAfterWindow(c, Serve(c, cells, reqs[0]).0, reqs[1..], kind, id, from, to);
    }
  }

  /** One request inside the window uses up at least what it adds. */
  lemma {:induction false} JudgePaysForItself(p: Policy, a: Account, r: Request, from: int, to: int)
    requires Sound(p, a) && r.checkAt <= r.recordAt && Within(r, from, to) && to - from <= p.Window()
    ensures Sound(p, Judge(p, a, r).0)
    ensures Judge(p, a, r).1.Failed? ==> 1 + Budget(p, Judge(p, a, r).0, to) <= Budget(p, a, to)
    ensures Judge(p, a, r).1.Passed? ==> Budget(p, Judge(p, a, r).0, to) <= Budget(p, a, to) + p.Limit() - 1
    ensures !Judge(p, a, r).1.Failed? && !Judge(p, a, r).1.Passed? ==> Judge(p, a, r).0 == a
  {}

  lemma {:induction false} OneMore(c: Config, cells: Cells, reqs: seq<Request>, kind: Kind, id: string, from: int,
                                   to: int)
    requires reqs != []
    ensures var (cells', out) := Serve(c, cells, reqs[0]);
            var hit := About(c, reqs[0], kind, id) && Within(reqs[0], from, to);
            && Failures(c, cells, reqs, kind, id, from, to)
               == (if hit && out.Failed? then 1 else 0) + Failures(c, cells', reqs[1..], kind, id, from, to)
            && Passes(c, cells, reqs, kind, id, from, to)
               == (if hit && out.Passed? then 1 else 0) + Passes(c, cells', reqs[1..], kind, id, from, to)
  {}

  lemma {:induction false} BoundInsideWindow(c: Config, cells: Cells, reqs: seq<Request>, kind: Kind, id: string,
                                             from: int, to: int)
    requires Sequential(reqs) && Sound(c.PolicyOf(kind), AccountOf(cells, c.PolicyOf(kind), id))
    requires to - from <= c.PolicyOf(kind).Window()
    requires forall i :: 0 <= i < |reqs| ==> from <= reqs[i].recordAt
    ensures Failures(c, cells, reqs, kind, id, from, to)
            <= Budget(c.PolicyOf(kind), AccountOf(cells, c.PolicyOf(kind), id), to)
               + Extra(c.PolicyOf(kind), Passes(c, cells, reqs, kind, id, from, to))
    decreases |reqs|
  {
    if reqs == [] {
    } else {
      var p, r := c.PolicyOf(kind), reqs[0];
      var a := AccountOf(cells, p, id);
      if to <= r.recordAt {
        NothingAfterWindow(c, cells, reqs, kind, id, from, to);
      } else {
        var cells' := Serve(c, cells, r).0;
        ServeTouchesOneIdentifier(c, cells, r, kind, id);
        if About(c, r, kind, id) {
          JudgePaysForItself(p, a, r, from, to);
        }
        BoundInsideWindow(c, cells', reqs[1..], kind, id, from, to);
        ExtraStep(p, Passes(c, cells', reqs[1..], kind, id, from, to));
        OneMore(c, cells, reqs, kind, id, from, to);
      }
    }
  }

  /**
   In every sequential run from a sound store, a window no longer than both the counter's life
   and the lock's holds at most `Bound()` failed checks of one identifier, plus `Limit() - 1` for
   each success in the window. With no success that is 2 * Limit() - 2, or 1 when the limit is 1.
   */
  lemma {:induction false} SlidingWindowBound(c: Config, cells: Cells, reqs: seq<Request>, kind: Kind, id: string,
                                              from: int, to: int)
    requires Sequential(reqs) && Sound(c.PolicyOf(kind), AccountOf(cells, c.PolicyOf(kind), id))
    requires to - from <= c.PolicyOf(kind).Window()
    ensures Failures(c, cells, reqs, kind, id, from, to)
            <= c.PolicyOf(kind).Bound()
               + Extra(c.PolicyOf(kind), Passes(c, cells, reqs, kind, id, from, to))
    decreases |reqs|
  {
    if reqs == [] {
    } else {
      var p := c.PolicyOf(kind);
      if from <= reqs[0].recordAt {
        BudgetAtMostBound(p, AccountOf(cells, p, id), to);
        BoundInsideWindow(c, cells, reqs, kind, id, from, to);
      } else {
        RunsStaySound(c, cells, [reqs[0]], kind, id);
        assert Run(c, cells, [reqs[0]]) == Run(c, Serve(c, cells, reqs[0]).0, []);
        SlidingWindowBound(c, Serve(c, cells, reqs[0]).0, reqs[1..], kind, id, from, to);
      }
    }
  }

  /** The headline case: from an empty store and with no success in the window. */
  lemma {:induction false} NoSuccessNoMoreThanTwiceTheLimit(c: Config, reqs: seq<Request>, kind: Kind, id: string,
                                                            from: int, to: int)
    requires Sequential(reqs) && to - from <= c.PolicyOf(kind).Window()
    requires Passes(c, map[], reqs, kind, id, from, to) == 0
    ensures var limit := c.PolicyOf(kind).Limit();
            Failures(c, map[], reqs, kind, id, from, to) <= if limit == 1 then 1 else 2 * limit - 2
  {
    SlidingWindowBound(c, map[], reqs, kind, id, from, to);
  }

  // ---------------------------------------------------------------- unknown names

  /** A failed check: a wrong secret, or at the login a name nobody has. */
  predicate WrongGuess(r: Request) { r.verdict == WrongSecret || (r.kind == Login && r.verdict == UserNotFound) }

  /** A login for an unknown name leaves the same store and gets the same answer as one with a wrong password. */
  lemma {:induction false} UnknownNameLikeWrongPassword(c: Config, cells: Cells, r: Request)
    requires r.kind == Login
    ensures Serve(c, cells, r.(verdict := UserNotFound)) == Serve(c, cells, r.(verdict := WrongSecret))
    ensures !Live(AccountOf(cells, c.PolicyOf(Login), r.id).lock, r.checkAt) ==>
              Serve(c, cells, r.(verdict := UserNotFound)).1.Failed?
  {}

  /** The same requests, but for which of their failed checks are unknown names. */
  predicate Disguised(xs: seq<Request>, ys: seq<Request>) {
    && |xs| == |ys|
    && forall i :: 0 <= i < |xs| ==>
         xs[i] == ys[i] || (WrongGuess(xs[i]) && WrongGuess(ys[i]) && ys[i] == xs[i].(verdict := ys[i].verdict))
  }

  /** No run shows which names exist: stores and failures are the same for unknown names and wrong passwords. */
  lemma {:induction false} UnknownNamesNeverShow(c: Config, cells: Cells, xs: seq<Request>, ys: seq<Request>,
                                                 kind: Kind, id: string, from: int, to: int)
    requires Disguised(xs, ys)
    ensures Run(c, cells, xs) == Run(c, cells, ys)
    ensures Failures(c, cells, xs, kind, id, from, to) == Failures(c, cells, ys, kind, id, from, to)
    decreases |xs|
  {
    if xs == [] {
    } else {
      assert Serve(c, cells, xs[0]) == Serve(c, cells, ys[0]);
      UnknownNamesNeverShow(c, Serve(c, cells, xs[0]).0, xs[1..], ys[1..], kind, id, from, to);
    }
  }

  // ---------------------------------------------------------------- the bound is attained

  /** `n` wrong secrets for one identifier, all at instant `t`. */
  function Guesses(kind: Kind, id: string, t: int, n: nat): seq<Request> {
    seq(n, _ => Request(kind, id, t, t, WrongSecret))
  }

  lemma {:induction false} FailuresSplit(c: Config, cells: Cells, xs: seq<Request>, ys: seq<Request>,
                                         kind: Kind, id: string, from: int, to: int)
    ensures Failures(c, cells, xs + ys, kind, id, from, to)
            == Failures(c, cells, xs, kind, id, from, to) + Failures(c, Run(c, cells, xs), ys, kind, id, from, to)
    ensures Run(c, cells, xs + ys) == Run(c, Run(c, cells, xs), ys)
    decreases |xs|
  {
    if xs == [] {
      assert [] + ys == ys;
    } else {
      assert (xs + ys)[1..] == xs[1..] + ys;
      FailuresSplit(c, Serve(c, cells, xs[0]).0, xs[1..], ys, kind, id, from, to);
    }
  }

  /** The identifier is not locked at `t` and `n` failures there take it to its limit at most. */
  predicate CanGuess(p: Policy, a: Account, t: int, n: nat) {
    Sound(p, a) && !Live(a.lock, t) && Attempts(a, t) - 1 + n <= p.Limit() && p.failTtl > 0
  }

  /** Below the limit the failures are counted one by one; reaching it locks. */
  function AfterGuesses(p: Policy, a: Account, t: int, n: nat): Account {
    if n == 0 then a
    else if Attempts(a, t) - 1 + n == p.Limit() then Account(None, Some(Cell(t, Some(t + p.lockTtl))))
    else
      var expiry := if Live(a.counter, t) then a.counter.value.expiry else Some(t + p.failTtl);
      Account(Some(Cell(Attempts(a, t) - 1 + n, expiry)), a.lock)
  }

  lemma {:induction false} OneGuess(p: Policy, a: Account, r: Request, n: nat)
    requires n > 0 && CanGuess(p, a, r.recordAt, n) && r.checkAt == r.recordAt && WrongGuess(r)
    ensures var (b, out) := Judge(p, a, r);
            && out.Failed?
            && (n == 1 ==> b == AfterGuesses(p, a, r.recordAt, 1))
            && (n > 1 ==> CanGuess(p, b, r.recordAt, n - 1)
                          && AfterGuesses(p, b, r.recordAt, n - 1) == AfterGuesses(p, a, r.recordAt, n))
  {}

  /** Wrong guesses at one identifier at one instant, however its name is written and whether or not it is known. */
  predicate Burst(c: Config, reqs: seq<Request>, kind: Kind, id: string, t: int) {
    forall i :: 0 <= i < |reqs| ==>
      About(c, reqs[i], kind, id) && reqs[i].checkAt == t && reqs[i].recordAt == t && WrongGuess(reqs[i])
  }

  lemma {:induction false} BurstCounts(c: Config, cells: Cells, reqs: seq<Request>, kind: Kind, id: string, t: int,
                                       from: int, to: int)
    requires Burst(c, reqs, kind, id, t) && from <= t < to
    requires CanGuess(c.PolicyOf(kind), AccountOf(cells, c.PolicyOf(kind), id), t, |reqs|)
    ensures Failures(c, cells, reqs, kind, id, from, to) == |reqs|
    ensures var p := c.PolicyOf(kind);
            AccountOf(Run(c, cells, reqs), p, id) == AfterGuesses(p, AccountOf(cells, p, id), t, |reqs|)
    decreases |reqs|
  {
    if reqs == [] {
    } else {
      var p := c.PolicyOf(kind);
      var cells' := Serve(c, cells, reqs[0]).0;
      ServeTouchesOneIdentifier(c, cells, reqs[0], kind, id);
      OneGuess(p, AccountOf(cells, p, id), reqs[0], |reqs|);
      FirstOfBurst(c, cells, reqs, kind, id, from, to);
      if |reqs| > 1 {
        BurstCounts(c, cells', reqs[1..], kind, id, t, from, to);
      } else {
        assert reqs[1..] == [];
      }
    }
  }

  lemma {:induction false} FirstOfBurst(c: Config, cells: Cells, reqs: seq<Request>, kind: Kind, id: string, from: int,
                                        to: int)
    requires reqs != [] && About(c, reqs[0], kind, id) && Within(reqs[0], from, to)
             && Serve(c, cells, reqs[0]).1.Failed?
    ensures var cells' := Serve(c, cells, reqs[0]).0;
            && Failures(c, cells, reqs, kind, id, from, to) == 1 + Failures(c, cells', reqs[1..], kind, id, from, to)
            && Run(c, cells, reqs) == Run(c, cells', reqs[1..])
  {}

  lemma {:induction false} NothingBefore(c: Config, cells: Cells, reqs: seq<Request>, kind: Kind, id: string,
                                         from: int, to: int)
    requires forall i :: 0 <= i < |reqs| ==> reqs[i].recordAt < from
    ensures Failures(c, cells, reqs, kind, id, from, to) == 0
    decreases |reqs|
  {
    if reqs == [] {
    } else {
      NothingBefore(c, Serve(c, cells, reqs[0]).0, reqs[1..], kind, id, from, to);
    }
  }

  function Attack(p: Policy, kind: Kind, id: string): seq<Request>
    requires p.Limit() >= 2
  {
    Guesses(kind, id, p.failTtl - 1, p.Limit() - 2) + Guesses(kind, id, p.failTtl, p.Limit())
  }

  /** A counter of one that is about to expire leaves room for the limit less two now and for a fresh count then. */
  lemma {:induction false} RoomForTwoBursts(p: Policy, a: Account)
    requires p.Limit() >= 2 && p.failTtl >= 2 && a == Account(Some(Cell(1, Some(p.failTtl))), None)
    ensures CanGuess(p, a, p.failTtl - 1, p.Limit() - 2)
    ensures CanGuess(p, AfterGuesses(p, a, p.failTtl - 1, p.Limit() - 2), p.failTtl, p.Limit())
  {}

  lemma {:induction false} TwoBursts(c: Config, cells: Cells, kind: Kind, id: string)
    requires var p := c.PolicyOf(kind);
             p.Limit() >= 2 && AccountOf(cells, p, id) == Account(Some(Cell(1, Some(p.failTtl))), None)
    requires c.PolicyOf(kind).Window() >= 2
    ensures var p := c.PolicyOf(kind); var t := p.failTtl;
            Failures(c, cells, Attack(p, kind, id), kind, id, t - 1, t + 1) == p.Bound()
  {
    var p := c.PolicyOf(kind);
    var t, m := p.failTtl, p.Limit();
    RoomForTwoBursts(p, AccountOf(cells, p, id));
    BurstCounts(c, cells, Guesses(kind, id, t - 1, m - 2), kind, id, t - 1, t - 1, t + 1);
    SecondBurst(c, cells, kind, id, t, m, Guesses(kind, id, t - 1, m - 2), t - 1, t + 1);
  }

  lemma {:induction false} SecondBurst(c: Config, cells: Cells, kind: Kind, id: string, t: int, m: nat,
                                       ys: seq<Request>, from: int, to: int)
    requires from <= t < to && CanGuess(c.PolicyOf(kind), AccountOf(Run(c, cells, ys), c.PolicyOf(kind), id), t, m)
    ensures Failures(c, cells, ys + Guesses(kind, id, t, m), kind, id, from, to)
            == Failures(c, cells, ys, kind, id, from, to) + m
  {
    BurstCounts(c, Run(c, cells, ys), Guesses(kind, id, t, m), kind, id, t, from, to);
    FailuresSplit(c, cells, ys, Guesses(kind, id, t, m), kind, id, from, to);
  }

  lemma {:induction false} FirstGuess(c: Config, kind: Kind, id: string)
    requires c.PolicyOf(kind).Limit() >= 2
    ensures var p := c.PolicyOf(kind);
            AccountOf(Run(c, map[], Guesses(kind, id, 0, 1)), p, id) == Account(Some(Cell(1, Some(p.failTtl))), None)
  {
    var xs := Guesses(kind, id, 0, 1);
    assert xs[1..] == [];
    ServeTouchesOneIdentifier(c, map[], xs[0], kind, id);
  }

  lemma {:induction false} AttackIsSequential(p: Policy, kind: Kind, id: string)
    requires p.Limit() >= 2 && p.failTtl >= 2
    ensures Sequential(Guesses(kind, id, 0, 1) + Attack(p, kind, id))
  {}

  /** A counter started at 0, then the two bursts. */
  function FullAttack(p: Policy, kind: Kind, id: string): seq<Request>
    requires p.Limit() >= 2
  {
    Guesses(kind, id, 0, 1) + Attack(p, kind, id)
  }

  lemma {:induction false} AttackReachesBound(c: Config, kind: Kind, id: string)
    requires c.PolicyOf(kind).Limit() >= 2 && c.PolicyOf(kind).Window() >= 2
    ensures var p := c.PolicyOf(kind);
            Failures(c, map[], FullAttack(p, kind, id), kind, id, p.failTtl - 1, p.failTtl + 1) == p.Bound()
  {
    var p := c.PolicyOf(kind);
    var xs, ys := Guesses(kind, id, 0, 1), Attack(p, kind, id);
    FirstGuess(c, kind, id);
    var start: Cells := map[];
    TwoBursts(c, Run(c, start, xs), kind, id);
    assert forall i :: 0 <= i < |xs| ==> xs[i].recordAt < p.failTtl - 1;
    NothingBefore(c, start, xs, kind, id, p.failTtl - 1, p.failTtl + 1);
    FailuresSplit(c, start, xs, ys, kind, id, p.failTtl - 1, p.failTtl + 1);
  }

  /**
   The bound is sharp: for every limit of two or more some run puts 2 * Limit() - 2 failures into two seconds, whichever
   of them are logins for unknown names.
   */
  lemma {:induction false} BoundIsAttained(c: Config, kind: Kind, id: string) returns (reqs: seq<Request>)
    requires c.PolicyOf(kind).Limit() >= 2 && c.PolicyOf(kind).Window() >= 2
    ensures Sequential(reqs)
    ensures var t := c.PolicyOf(kind).failTtl;
            forall other :: Disguised(reqs, other) ==>
              Failures(c, map[], other, kind, id, t - 1, t + 1) == c.PolicyOf(kind).Bound()
  {
    reqs := FullAttack(c.PolicyOf(kind), kind, id);
    AttackIsSequential(c.PolicyOf(kind), kind, id);
    AttackReachesBound(c, kind, id);
    var t, start: Cells := c.PolicyOf(kind).failTtl, map[];
    forall other | Disguised(reqs, other)
      ensures Failures(c, start, other, kind, id, t - 1, t + 1) == c.PolicyOf(kind).Bound()
    {
      UnknownNamesNeverShow(c, start, reqs, other, kind, id, t - 1, t + 1);
    }
  }

  // ---------------------------------------------------------------- one user, two identifiers

  predicate SameIdentifier(c: Config, kind: Kind, a: string, b: string) {
    c.PolicyOf(kind).fold(a) == c.PolicyOf(kind).fold(b)
  }

  /** Failed checks of a user who can be named `a` or `b`: by user name or by e-mail address. */
  function UserFailures(c: Config, cells: Cells, reqs: seq<Request>, kind: Kind, a: string, b: string,
                        from: int, to: int): nat
    decreases |reqs|
  {
    if reqs == [] then 0
    else
      var (cells', out) := Serve(c, cells, reqs[0]);
      var hit := (About(c, reqs[0], kind, a) || About(c, reqs[0], kind, b)) && Within(reqs[0], from, to) && out.Failed?;
      (if hit then 1 else 0) + UserFailures(c, cells', reqs[1..], kind, a, b, from, to)
  }

  lemma {:induction false} UserFailuresAre(c: Config, cells: Cells, reqs: seq<Request>, kind: Kind, a: string,
                                           b: string,
                                           from: int, to: int)
    ensures UserFailures(c, cells, reqs, kind, a, b, from, to)
            == Failures(c, cells, reqs, kind, a, from, to)
               + if SameIdentifier(c, kind, a, b) then 0 else Failures(c, cells, reqs, kind, b, from, to)
    decreases |reqs|
  {
    if reqs == [] {
    } else {
      UserFailuresAre(c, Serve(c, cells, reqs[0]).0, reqs[1..], kind, a, b, from, to);
    }
  }

  /**
   Counters and locks belong to what was typed. A user named in two ways that do not fold to one has two of them, and
   twice the bound; named in ways that fold to one, the user has the bound.
   */
  lemma {:induction false} UserBound(c: Config, cells: Cells, reqs: seq<Request>, kind: Kind, a: string, b: string,
                                     from: int, to: int)
    requires var p := c.PolicyOf(kind); Sound(p, AccountOf(cells, p, a)) && Sound(p, AccountOf(cells, p, b))
    requires Sequential(reqs) && to - from <= c.PolicyOf(kind).Window()
    ensures var p := c.PolicyOf(kind);
            var once := p.Bound() + Extra(p, Passes(c, cells, reqs, kind, a, from, to));
            UserFailures(c, cells, reqs, kind, a, b, from, to)
            <= if SameIdentifier(c, kind, a, b) then once
               else once + p.Bound() + Extra(p, Passes(c, cells, reqs, kind, b, from, to))
  {
    UserFailuresAre(c, cells, reqs, kind, a, b, from, to);
    SlidingWindowBound(c, cells, reqs, kind, a, from, to);
    SlidingWindowBound(c, cells, reqs, kind, b, from, to);
  }

  /** From an empty store and with no success in the window. */
  lemma {:induction false} UserBoundWithoutSuccess(c: Config, reqs: seq<Request>, kind: Kind, a: string, b: string,
                                                   from: int, to: int)
    requires Sequential(reqs) && to - from <= c.PolicyOf(kind).Window()
    requires Passes(c, map[], reqs, kind, a, from, to) == 0 && Passes(c, map[], reqs, kind, b, from, to) == 0
    ensures UserFailures(c, map[], reqs, kind, a, b, from, to)
            <= if SameIdentifier(c, kind, a, b) then c.PolicyOf(kind).Bound() else 2 * c.PolicyOf(kind).Bound()
  {
    UserBound(c, map[], reqs, kind, a, b, from, to);
  }

  /** The requests about one identifier. */
  function Own(c: Config, reqs: seq<Request>, kind: Kind, id: string): seq<Request> {
    if reqs == [] then []
    else (if About(c, reqs[0], kind, id) then [reqs[0]] else []) + Own(c, reqs[1..], kind, id)
  }

  lemma {:induction false} OwnFirst(c: Config, cells: Cells, r: Request, rest: seq<Request>, kind: Kind, id: string,
                                    from: int, to: int)
    ensures Failures(c, cells, [r] + rest, kind, id, from, to)
            == (if About(c, r, kind, id) && Within(r, from, to) && Serve(c, cells, r).1.Failed? then 1 else 0)
               + Failures(c, Serve(c, cells, r).0, rest, kind, id, from, to)
  {
    assert ([r] + rest)[1..] == rest;
  }

  /** What happens to an identifier depends on the requests about it alone. */
  lemma {:induction false} OnlyOwnRequestsMatter(c: Config, cells: Cells, other: Cells, reqs: seq<Request>, kind: Kind,
                                                 id: string, from: int, to: int)
    requires AccountOf(cells, c.PolicyOf(kind), id) == AccountOf(other, c.PolicyOf(kind), id)
    ensures Failures(c, cells, reqs, kind, id, from, to)
            == Failures(c, other, Own(c, reqs, kind, id), kind, id, from, to)
    decreases |reqs|
  {
    if reqs == [] {
    } else {
      var r, rest := reqs[0], reqs[1..];
      ServeTouchesOneIdentifier(c, cells, r, kind, id);
      ServeTouchesOneIdentifier(c, other, r, kind, id);
      if About(c, r, kind, id) {
        OnlyOwnRequestsMatter(c, Serve(c, cells, r).0, Serve(c, other, r).0, rest, kind, id, from, to);
        OwnFirst(c, other, r, Own(c, rest, kind, id), kind, id, from, to);
      } else {
        OnlyOwnRequestsMatter(c, Serve(c, cells, r).0, other, rest, kind, id, from, to);
        assert [] + Own(c, rest, kind, id) == Own(c, rest, kind, id);
      }
    }
  }

  lemma {:induction false} OwnOfSum(c: Config, xs: seq<Request>, ys: seq<Request>, kind: Kind, id: string)
    ensures Own(c, xs + ys, kind, id) == Own(c, xs, kind, id) + Own(c, ys, kind, id)
    decreases |xs|
  {
    if xs == [] {
      assert [] + ys == ys;
    } else {
      assert (xs + ys)[1..] == xs[1..] + ys;
      OwnOfSum(c, xs[1..], ys, kind, id);
    }
  }

  lemma {:induction false} OwnOfGuesses(c: Config, kind: Kind, id: string, other: string, t: int, n: nat)
    ensures Own(c, Guesses(kind, other, t, n), kind, id)
            == if SameIdentifier(c, kind, other, id) then Guesses(kind, other, t, n) else []
    decreases n
  {
    var g := Guesses(kind, other, t, n);
    if n == 0 {
    } else {
      assert g[1..] == Guesses(kind, other, t, n - 1);
      assert g == [g[0]] + g[1..];
      OwnOfGuesses(c, kind, id, other, t, n - 1);
    }
  }

  /** Guesses at both identifiers, one after the other. */
  function Both(kind: Kind, a: string, b: string, t: int, n: nat): seq<Request> {
    Guesses(kind, a, t, n) + Guesses(kind, b, t, n)
  }

  lemma {:induction false} OwnOfBoth(c: Config, kind: Kind, a: string, b: string, t: int, n: nat)
    requires !SameIdentifier(c, kind, a, b)
    ensures Own(c, Both(kind, a, b, t, n), kind, a) == Guesses(kind, a, t, n)
    ensures Own(c, Both(kind, a, b, t, n), kind, b) == Guesses(kind, b, t, n)
  {
    OwnOfSum(c, Guesses(kind, a, t, n), Guesses(kind, b, t, n), kind, a);
    OwnOfSum(c, Guesses(kind, a, t, n), Guesses(kind, b, t, n), kind, b);
    OwnOfGuesses(c, kind, a, a, t, n);
    OwnOfGuesses(c, kind, a, b, t, n);
    OwnOfGuesses(c, kind, b, a, t, n);
    OwnOfGuesses(c, kind, b, b, t, n);
  }

  function DoubleAttack(p: Policy, kind: Kind, a: string, b: string): seq<Request>
    requires p.Limit() >= 2
  {
    Both(kind, a, b, 0, 1) + (Both(kind, a, b, p.failTtl - 1, p.Limit() - 2) + Both(kind, a, b, p.failTtl, p.Limit()))
  }

  lemma {:induction false} OwnOfDoubleAttack(c: Config, kind: Kind, a: string, b: string, id: string)
    requires c.PolicyOf(kind).Limit() >= 2 && !SameIdentifier(c, kind, a, b) && (id == a || id == b)
    ensures Own(c, DoubleAttack(c.PolicyOf(kind), kind, a, b), kind, id) == FullAttack(c.PolicyOf(kind), kind, id)
  {
    var p := c.PolicyOf(kind);
    var t, m := p.failTtl, p.Limit();
    OwnOfSum(c, Both(kind, a, b, 0, 1), Both(kind, a, b, t - 1, m - 2) + Both(kind, a, b, t, m), kind, id);
    OwnOfSum(c, Both(kind, a, b, t - 1, m - 2), Both(kind, a, b, t, m), kind, id);
    OwnOfBoth(c, kind, a, b, 0, 1);
    OwnOfBoth(c, kind, a, b, t - 1, m - 2);
    OwnOfBoth(c, kind, a, b, t, m);
  }

  predicate AllAt(reqs: seq<Request>, t: int) {
    forall i :: 0 <= i < |reqs| ==> reqs[i].checkAt == t && reqs[i].recordAt == t
  }

  lemma {:induction false} DoubleAttackIsSequential(p: Policy, kind: Kind, a: string, b: string)
    requires p.Limit() >= 2 && p.failTtl >= 2
    ensures Sequential(DoubleAttack(p, kind, a, b))
  {
    var xs, ys, zs := Both(kind, a, b, 0, 1), Both(kind, a, b, p.failTtl - 1, p.Limit() - 2),
                      Both(kind, a, b, p.failTtl, p.Limit());
    assert AllAt(xs, 0) && AllAt(ys, p.failTtl - 1) && AllAt(zs, p.failTtl);
    InOrder(xs, ys, zs, 0, p.failTtl - 1, p.failTtl);
  }

  lemma {:induction false} InOrder(xs: seq<Request>, ys: seq<Request>, zs: seq<Request>, s: int, t: int, u: int)
    requires AllAt(xs, s) && AllAt(ys, t) && AllAt(zs, u) && s <= t <= u
    ensures Sequential(xs + (ys + zs))
  {
    var all := xs + (ys + zs);
    forall i | 0 <= i < |all|
      ensures all[i].checkAt == all[i].recordAt
      ensures all[i].recordAt == if i < |xs| then s else if i < |xs| + |ys| then t else u
    {}
  }

  /** The user's bound is sharp too: guessing under both names puts twice the bound into two seconds. */
  lemma {:induction false} UserBoundIsAttained(c: Config, kind: Kind, a: string, b: string) returns (reqs: seq<Request>)
    requires c.PolicyOf(kind).Limit() >= 2 && c.PolicyOf(kind).Window() >= 2 && !SameIdentifier(c, kind, a, b)
    ensures Sequential(reqs)
    ensures var t := c.PolicyOf(kind).failTtl;
            UserFailures(c, map[], reqs, kind, a, b, t - 1, t + 1) == 2 * c.PolicyOf(kind).Bound()
  {
    var p, start: Cells := c.PolicyOf(kind), map[];
    reqs := DoubleAttack(p, kind, a, b);
    DoubleAttackIsSequential(p, kind, a, b);
    UserFailuresAre(c, start, reqs, kind, a, b, p.failTtl - 1, p.failTtl + 1);
    OnlyOwnRequestsMatter(c, start, start, reqs, kind, a, p.failTtl - 1, p.failTtl + 1);
    OnlyOwnRequestsMatter(c, start, start, reqs, kind, b, p.failTtl - 1, p.failTtl + 1);
    OwnOfDoubleAttack(c, kind, a, b, a);
    OwnOfDoubleAttack(c, kind, a, b, b);
    AttackReachesBound(c, kind, a);
    AttackReachesBound(c, kind, b);
  }

  // ---------------------------------------------------------------- requests in terms of keys

  /** A failed check on the two keys of an identifier: counted in one, which at `max` gives way to the other. */
  function CountedFailure(cells: Cells, fail: string, lock: string, max: int, life: int, pause: int, now: int):
    (Cells, Outcome)
  {
    var n := if Live(Lookup(cells, fail), now) then cells[fail].value + 1 else 1;
    if n >= max then (cells[lock := Cell(now, Some(now + pause))] - {fail}, Failed(n, true))
    else if n == 1 then (cells[fail := Cell(1, Some(now + life))], Failed(1, false))
    else (cells[fail := Cell(n, cells[fail].expiry)], Failed(n, false))
  }

  lemma {:induction false} PutUnchanged(cells: Cells, p: Policy, id: string)
    ensures Put(cells, p, id, AccountOf(cells, p, id)) == cells
  {}

  lemma {:induction false} FailureInKeys(cells: Cells, p: Policy, id: string, now: int)
    requires p.FailKey(id) != p.LockKey(id)
    ensures var a := AccountOf(cells, p, id);
            var n := Attempts(a, now);
            (Put(cells, p, id, AfterFailure(p, a, now)), Failed(n, n >= p.maxAttempts))
            == CountedFailure(cells, p.FailKey(id), p.LockKey(id), p.maxAttempts, p.failTtl, p.lockTtl, now)
  {
    var a, fail, lock := AccountOf(cells, p, id), p.FailKey(id), p.LockKey(id);
    var n := Attempts(a, now);
    if n >= p.maxAttempts {
      assert (cells - {fail})[lock := Cell(now, Some(now + p.lockTtl))]
             == cells[lock := Cell(now, Some(now + p.lockTtl))] - {fail};
    } else {
      var cell := Cell(n, if n == 1 then Some(now + p.failTtl) else a.counter.value.expiry);
      assert AfterFailure(p, a, now) == Account(Some(cell), a.lock);
      assert Put(cells, p, id, AfterFailure(p, a, now)) == cells[fail := cell];
    }
  }

  lemma {:induction false} SuccessInKeys(cells: Cells, p: Policy, id: string)
    requires p.FailKey(id) != p.LockKey(id)
    ensures Put(cells, p, id, AfterSuccess(AccountOf(cells, p, id))) == cells - {p.FailKey(id)}
  {}

  lemma {:induction false} ServeInKeys(c: Config, cells: Cells, r: Request, p: Policy)
    requires p == c.PolicyOf(r.kind)
    ensures var lock, fail := p.LockKey(r.id), p.FailKey(r.id);
            Serve(c, cells, r)
            == if r.kind == Tfa && r.verdict == UserNotFound then (cells, Refused)
               else if Live(Lookup(cells, lock), r.checkAt) then
                 (cells, LockedOut(if cells[lock].expiry.Some? then cells[lock].expiry.value - r.checkAt else -1))
               else if r.verdict == NoPassword then (cells, Refused)
               else if r.verdict == RightSecret then (cells - {fail}, Passed)
               else CountedFailure(cells, fail, lock, p.maxAttempts, p.failTtl, p.lockTtl, r.recordAt)
  {
    KeysOfIdentifiers(c, r.kind, r.id, r.kind, r.id);
    PutUnchanged(cells, p, r.id);
    FailureInKeys(cells, p, r.id, r.recordAt);
    SuccessInKeys(cells, p, r.id);
  }

  /** What a login does to the store, in the texts of its keys and the numbers of the configuration. */
  lemma {:induction false} LoginInKeys(c: Config, cells: Cells, r: Request)
    requires r.kind == Login
    ensures var lock, fail := "login:lockout:" + c.lower(r.id), "login:failed:" + c.lower(r.id);
            Serve(c, cells, r)
            == if Live(Lookup(cells, lock), r.checkAt) then
                 (cells, LockedOut(if cells[lock].expiry.Some? then cells[lock].expiry.value - r.checkAt else -1))
               else if r.verdict == NoPassword then (cells, Refused)
               else if r.verdict == RightSecret then (cells - {fail}, Passed)
               else CountedFailure(cells, fail, lock, c.maxLogin, 15 * 60, c.loginLockMinutes * 60, r.recordAt)
  {
    ServeInKeys(c, cells, r, c.PolicyOf(Login));
  }

  /** And a second factor, which is no request about any identifier when there is no such user. */
  lemma {:induction false} TfaInKeys(c: Config, cells: Cells, r: Request)
    requires r.kind == Tfa
    ensures var lock, fail := "tfa:lockout:" + r.id, "tfa:failed:" + r.id;
            Serve(c, cells, r)
            == if r.verdict == UserNotFound then (cells, Refused)
               else if Live(Lookup(cells, lock), r.checkAt) then
                 (cells, LockedOut(if cells[lock].expiry.Some? then cells[lock].expiry.value - r.checkAt else -1))
               else if r.verdict == NoPassword then (cells, Refused)
               else if r.verdict == RightSecret then (cells - {fail}, Passed)
               else CountedFailure(cells, fail, lock, c.maxTfa, c.tfaLockMinutes * 60, c.tfaLockMinutes * 60,
                                   r.recordAt)
  {
    ServeInKeys(c, cells, r, c.PolicyOf(Tfa));
  }

  // ---------------------------------------------------------------- the handlers

  /** The Redis client together with the handlers that use it. */
  class AuthStore {
    var cells: Cells

    constructor ()
      ensures cells == map[]
    {
      cells := map[];
    }

    method Get(key: string, now: int) returns (r: Option<int>)
      ensures r.Some? <==> Live(Lookup(cells, key), now)
      ensures r.Some? ==> r.value == cells[key].value
    {
      if key in cells && (cells[key].expiry.None? || now < cells[key].expiry.value) {
        return Some(cells[key].value);
      }
      return None;
    }

    /** Seconds left, or -1 for a key that does not expire. */
    method Ttl(key: string, now: int) returns (left: int)
      requires Live(Lookup(cells, key), now)
      ensures left == if cells[key].expiry.Some? then cells[key].expiry.value - now else -1
    {
      left := if cells[key].expiry.Some? then cells[key].expiry.value - now else -1;
    }

    method Incr(key: string, now: int) returns (n: int)
      modifies this
      ensures n == if Live(old(Lookup(cells, key)), now) then old(cells)[key].value + 1 else 1
      ensures cells == old(cells)[key := Cell(n, if Live(old(Lookup(cells, key)), now)
              then old(cells)[key].expiry else None)]
    {
      var was := Get(key, now);
      if was.Some? {
        n := was.value + 1;
        cells := cells[key := Cell(n, cells[key].expiry)];
      } else {
        n := 1;
        cells := cells[key := Cell(n, None)];
      }
    }

    method Expire(key: string, seconds: int, now: int)
      modifies this
      ensures cells == if Live(old(Lookup(cells, key)), now)
                       then old(cells)[key := Cell(old(cells)[key].value, Some(now + seconds))]
                       else old(cells)
    {
      var was := Get(key, now);
      if was.Some? {
        cells := cells[key := Cell(was.value, Some(now + seconds))];
      }
    }

    method Setex(key: string, seconds: int, value: int, now: int)
      modifies this
      ensures cells == old(cells)[key := Cell(value, Some(now + seconds))]
    {
      cells := cells[key := Cell(value, Some(now + seconds))];
    }

    method Del(key: string)
      modifies this
      ensures cells == old(cells) - {key}
    {
      cells := cells - {key};
    }

    method IsLocked(p: Policy, id: string, now: int) returns (locked: bool, remaining: int)
      ensures locked <==> Live(AccountOf(cells, p, id).lock, now)
      ensures locked && Sound(p, AccountOf(cells, p, id)) ==> 0 < remaining
      ensures !locked ==> remaining == 0
      ensures locked ==> remaining == if cells[p.LockKey(id)].expiry.Some?
                                      then cells[p.LockKey(id)].expiry.value - now else -1
    {
      var stamp := Get(p.LockKey(id), now);
      if stamp.Some? {
        remaining := Ttl(p.LockKey(id), now);
        return true, remaining;
      }
      return false, 0;
    }

    /** Increment, first-time expiry, lock and delete together make the one transition `AfterFailure`. */
    method RecordFailedAttempt(p: Policy, id: string, now: int) returns (attempts: int, locked: bool)
      requires p.FailKey(id) != p.LockKey(id)
      modifies this
      ensures cells == Put(old(cells), p, id, AfterFailure(p, old(AccountOf(cells, p, id)), now))
      ensures attempts == Attempts(old(AccountOf(cells, p, id)), now)
      ensures locked <==> attempts >= p.maxAttempts
    {
      var key := p.FailKey(id);
      attempts := Incr(key, now);
      if attempts == 1 {
        Expire(key, p.failTtl, now);
      }
      if attempts >= p.maxAttempts {
        Setex(p.LockKey(id), p.lockTtl, now, now);
        Del(key);
        return attempts, true;
      }
      return attempts, false;
    }

    method ClearFailedAttempts(p: Policy, id: string)
      requires p.FailKey(id) != p.LockKey(id)
      modifies this
      ensures cells == Put(old(cells), p, id, AfterSuccess(old(AccountOf(cells, p, id))))
    {
      Del(p.FailKey(id));
    }

    /** POST /login and POST /verify-tfa up to the decision about the secret. No secret is compared under a lock. */
    method Handle(c: Config, r: Request) returns (out: Outcome)
      modifies this
      ensures (cells, out) == Serve(c, old(cells), r)
      ensures Live(AccountOf(old(cells), c.PolicyOf(r.kind), r.id).lock, r.checkAt)
              ==> !out.Failed? && !out.Passed? && cells == old(cells)
    {
      var p := c.PolicyOf(r.kind);
      KeysOfIdentifiers(c, r.kind, r.id, r.kind, r.id);
      PutBack(c, cells, r.kind, r.id);
      if r.kind == Tfa && r.verdict == UserNotFound {
        return Refused;
      }
      var locked, remaining := IsLocked(p, r.id, r.checkAt);
      if locked {
        return LockedOut(remaining);
      }
      match r.verdict {
        case NoPassword =>
          out := Refused;
        case RightSecret =>
          ClearFailedAttempts(p, r.id);
          out := Passed;
        case _ =>
          var attempts, nowLocked := RecordFailedAttempt(p, r.id, r.recordAt);
          out := Failed(attempts, nowLocked);
      }
    }
  }
}
