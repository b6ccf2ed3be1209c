/**
 The daily quota of an auto-enrolment token.

 A request reads the token, checks the quota against what it read, creates its hosts one by one and then
 increments the counter by those it reports as enrolled; other requests run in between. A host is a row
 and, for a token with a default group, a group membership; if the second fails the row stays and is not
 counted. `Next` is the system of those steps. The theorems bound the counter, and say exactly how the
 hosts counted and the host rows differ from it. `Token` is the same code for one request at a time.
 */
module Quota {

  /**
   Creating one host: nothing is written, the row but not the membership, or everything. As the source stands, only
   requests for a single host get beyond the first: in the bulk endpoint the line that would set `updated_at` is part
   of a comment, the schema requires that column, and every host of a bulk request fails before its row.
   */
  datatype Outcome = NoRow | RowOnly | Complete

  /** A request for `weight` hosts: having read the token, or past the quota check and creating hosts. */
  datatype Req =
    | Waiting(weight: nat, limit: int, seen: nat, day: int)
    | Granted(weight: nat, limit: int, tried: nat, made: nat)

  /**
   The token row, today's date, the requests in flight, and three counts kept for the statements: hosts
   counted since the first reset for `resetDay`, resets made for that day, and host rows created since
   that first reset, together with those that were then still to be counted.
   */
  datatype State = State(
    today: int, limit: int, created: nat, resetDay: int, inflight: seq<Req>, counted: nat, resets: nat, rows: nat)

  datatype Event =
    | Midnight
    | SetLimit(limit: int)
    | Arrive(weight: nat)
    | Check(i: nat)
    | Host(i: nat, outcome: Outcome)
    | Count(i: nat)                  // increments the counter by the hosts reported as enrolled
    | Abort(i: nat)

  function Without(reqs: seq<Req>, i: nat): seq<Req>
    requires i < |reqs|
  {
    reqs[..i] + reqs[i + 1..]
  }

  predicate IsGranted(s: State, i: nat) { i < |s.inflight| && s.inflight[i].Granted? }

  predicate Enabled(s: State, e: Event) {
    match e
    case Midnight => true
    case SetLimit(limit) => 1 <= limit
    case Arrive(weight) => 1 <= weight
    case Check(i) => i < |s.inflight| && s.inflight[i].Waiting?
    case Host(i, _) => IsGranted(s, i) && s.inflight[i].tried < s.inflight[i].weight
    case Count(i) => IsGranted(s, i) && s.inflight[i].tried == s.inflight[i].weight
    case Abort(i) => i < |s.inflight|
  }

  /** The first reset for a new day. */
  predicate TurnsDay(s: State, e: Event)
    requires Enabled(s, e)
  {
    e.Check? && s.inflight[e.i].day != s.today && s.resetDay != s.today
  }

  /** A reset for a day that has been reset already: the date the request read is out of date. */
  predicate ResetsAgain(s: State, e: Event)
    requires Enabled(s, e)
  {
    e.Check? && s.inflight[e.i].day != s.today && s.resetDay == s.today
  }

  /** The quota check of both endpoints, on the values read earlier. */
  predicate Passes(limit: int, seen: nat, weight: nat) {
    seen < limit && weight <= limit - seen
  }

  /** A request passes iff all its hosts fit into what is left, as it was read. */
  lemma {:induction false} PassesIff(limit: int, seen: nat, weight: nat)
    requires 1 <= weight
    ensures Passes(limit, seen, weight) <==> seen + weight <= limit
  {}

  /** What the quota check makes of the requests in flight. */
  function Checked(s: State, i: nat): seq<Req>
    requires Enabled(s, Check(i))
  {
    var r := s.inflight[i];
    if Passes(r.limit, if r.day == s.today then r.seen else 0, r.weight)
    then s.inflight[i := Granted(r.weight, r.limit, 0, 0)]
    else Without(s.inflight, i)
  }

  function Tried(r: Req, outcome: Outcome): Req
    requires r.Granted?
  {
    r.(tried := r.tried + 1, made := r.made + if outcome.Complete? then 1 else 0)
  }

  function Next(s: State, e: Event): State
    requires Enabled(s, e)
  {
    match e
    case Midnight => s.(today := s.today + 1)
    case SetLimit(limit) => s.(limit := limit)
    case Arrive(weight) => s.(inflight := s.inflight + [Waiting(weight, s.limit, s.created, s.resetDay)])
    case Check(i) =>
      var reqs := Checked(s, i);
      if TurnsDay(s, e) then State(s.today, s.limit, 0, s.today, reqs, 0, 1, Sum(reqs, MadeOf))
      else if ResetsAgain(s, e) then s.(created := 0, resets := s.resets + 1, inflight := reqs)
      else s.(inflight := reqs)
    case Host(i, outcome) =>
      s.(inflight := s.inflight[i := Tried(s.inflight[i], outcome)], rows := s.rows + if outcome.NoRow? then 0 else 1)
    case Count(i) =>
      var made := s.inflight[i].made;
      s.(created := s.created + made, counted := s.counted + made, inflight := Without(s.inflight, i))
    case Abort(i) => s.(inflight := Without(s.inflight, i))
  }

  /** The check lets a request go on iff its hosts and the counter it read, on the same day, fit its limit. */
  lemma {:induction false} CheckGrantsIff(s: State, i: nat)
    requires Enabled(s, Check(i)) && 1 <= s.inflight[i].weight
    ensures var r := s.inflight[i];
            Next(s, Check(i)).inflight
            == if (if r.day == s.today then r.seen else 0) + r.weight <= r.limit
               then s.inflight[i := Granted(r.weight, r.limit, 0, 0)] else s.inflight[..i] + s.inflight[i + 1..]
  {}

  // ---------------------------------------------------------------- sums over the requests in flight

  function Sum(reqs: seq<Req>, f: Req -> nat): nat {
    if reqs == [] then 0 else Sum(reqs[..|reqs| - 1], f) + f(reqs[|reqs| - 1])
  }

  function WeightOf(r: Req): nat { r.weight }

  /** What a request can still add to the counter as it stands: nothing if it has seen the quota used up. */
  function LoadOf(r: Req): nat {
    if r.Granted? || r.seen < r.limit then r.weight else 0
  }

  /** Hosts a request will report but has not counted yet. */
  function MadeOf(r: Req): nat { if r.Granted? then r.made else 0 }

  predicate IsStale(r: Req, day: int) { r.Waiting? && r.day != day }

  /** Counts the requests that read the token before the reset for `day`. */
  function StaleAt(day: int): Req -> nat { (r: Req) => if IsStale(r, day) then 1 else 0 }

  lemma {:induction false} SumAtMost(reqs: seq<Req>, f: Req -> nat, g: Req -> nat)
    requires forall i :: 0 <= i < |reqs| ==> f(reqs[i]) <= g(reqs[i])
    ensures Sum(reqs, f) <= Sum(reqs, g)
  {
    if reqs == [] {
    } else {
      SumAtMost(reqs[..|reqs| - 1], f, g);
    }
  }

  lemma {:induction false} SumAppend(reqs: seq<Req>, r: Req, f: Req -> nat)
    ensures Sum(reqs + [r], f) == Sum(reqs, f) + f(r)
  {
    assert (reqs + [r])[..|reqs|] == reqs;
  }

  lemma {:induction false} SumWithout(reqs: seq<Req>, i: nat, f: Req -> nat)
    requires i < |reqs|
    ensures Sum(reqs, f) == Sum(Without(reqs, i), f) + f(reqs[i])
    decreases |reqs|
  {
    var init, last := reqs[..|reqs| - 1], reqs[|reqs| - 1];
    if i == |reqs| - 1 {
      assert Without(reqs, i) == init;
    } else {
      SumWithout(init, i, f);
      assert Without(reqs, i) == Without(init, i) + [last];
      SumAppend(Without(init, i), last, f);
    }
  }

  lemma {:induction false} SumReplace(reqs: seq<Req>, i: nat, r: Req, f: Req -> nat)
    requires i < |reqs|
    ensures Sum(reqs[i := r], f) + f(reqs[i]) == Sum(reqs, f) + f(r)
    decreases |reqs|
  {
    var init, last := reqs[..|reqs| - 1], reqs[|reqs| - 1];
    if i == |reqs| - 1 {
      assert reqs[i := r] == init + [r];
      SumAppend(init, r, f);
    } else {
      SumReplace(init, i, r, f);
      assert reqs[i := r] == init[i := r] + [last];
      SumAppend(init[i := r], last, f);
    }
  }

  // ---------------------------------------------------------------- runs

  predicate IsRun(s: State, events: seq<Event>)
    decreases |events|
  {
    events == [] || (Enabled(s, events[0]) && IsRun(Next(s, events[0]), events[1..]))
  }

  function After(s: State, events: seq<Event>): State
    requires IsRun(s, events)
    decreases |events|
  {
    if events == [] then s else After(Next(s, events[0]), events[1..])
  }

  /** At every moment the requests in flight ask for at most `k` hosts in all. */
  predicate Overlap(s: State, events: seq<Event>, k: nat)
    requires IsRun(s, events)
    decreases |events|
  {
    Sum(s.inflight, WeightOf) <= k && (events == [] || Overlap(Next(s, events[0]), events[1..], k))
  }

  /** A token that was just created. */
  predicate Fresh(s: State) {
    && 1 <= s.limit && s.created == 0 && s.resetDay == s.today && s.inflight == []
    && s.counted == 0 && s.resets == 1 && s.rows == 0
  }

  predicate LimitsAtMost(events: seq<Event>, top: int) {
    forall i :: 0 <= i < |events| && events[i].SetLimit? ==> events[i].limit <= top
  }

  lemma {:induction false} RunStep(s: State, e: Event, rest: seq<Event>)
    requires Enabled(s, e) && IsRun(Next(s, e), rest)
    ensures IsRun(s, [e] + rest) && After(s, [e] + rest) == After(Next(s, e), rest)
  {
    assert ([e] + rest)[1..] == rest;
  }

  // ---------------------------------------------------------------- the counter is bounded

  /** The highest value the counter can reach when no limit is above `top`. */
  function Ceiling(top: int, k: nat): int { top - 1 + k }

  /** A request asks for something, has read a limit that was in force, and has not read the future. */
  predicate Tidy(r: Req, top: int, day: int) {
    && r.weight >= 1 && r.limit <= top
    && (r.Waiting? ==> r.day <= day)
    && (r.Granted? ==> r.made <= r.tried <= r.weight)
  }

  predicate AllTidy(reqs: seq<Req>, top: int, day: int) {
    forall i :: 0 <= i < |reqs| ==> Tidy(reqs[i], top, day)
  }

  /** The most that earlier resets of the same day can have hidden from the counter. */
  function Prior(resets: nat, top: int, k: nat): int {
    if resets <= 1 then 0 else Prior(resets - 1, top, k) + Ceiling(top, k)
  }

  predicate Sound(s: State, top: int, k: nat) {
    && 1 <= s.limit <= top && 1 <= s.resets && s.resetDay <= s.today
    && AllTidy(s.inflight, top, s.resetDay)
    && s.created + Sum(s.inflight, LoadOf) <= Ceiling(top, k)
    && s.resets + Sum(s.inflight, StaleAt(s.resetDay)) <= k
    && s.counted <= Prior(s.resets, top, k) + s.created
  }

  lemma {:induction false} LoadAtMostWeight(reqs: seq<Req>)
    ensures Sum(reqs, LoadOf) <= Sum(reqs, WeightOf)
  {
    SumAtMost(reqs, LoadOf, WeightOf);
  }

  lemma {:induction false} StaleAtMostWeight(reqs: seq<Req>, top: int, day: int, other: int)
    requires AllTidy(reqs, top, day)
    ensures Sum(reqs, StaleAt(other)) <= Sum(reqs, WeightOf)
  {
    SumAtMost(reqs, StaleAt(other), WeightOf);
  }

  /** A request has left: all sums go down by what it stood for. */
  lemma {:induction false} LeaveSound(s: State, i: nat, top: int, k: nat)
    requires Sound(s, top, k) && i < |s.inflight|
    ensures Sound(s.(inflight := Without(s.inflight, i)), top, k)
    ensures Sum(Without(s.inflight, i), LoadOf) + LoadOf(s.inflight[i]) == Sum(s.inflight, LoadOf)
  {
    SumWithout(s.inflight, i, LoadOf);
    SumWithout(s.inflight, i, StaleAt(s.resetDay));
  }

  lemma {:induction false} CountSound(s: State, i: nat, top: int, k: nat)
    requires Sound(s, top, k) && Enabled(s, Count(i))
    ensures Sound(Next(s, Count(i)), top, k)
  {
    LeaveSound(s, i, top, k);
    assert Tidy(s.inflight[i], top, s.resetDay);
  }

  lemma {:induction false} HostSound(s: State, i: nat, outcome: Outcome, top: int, k: nat)
    requires Sound(s, top, k) && Enabled(s, Host(i, outcome))
    ensures Sound(Next(s, Host(i, outcome)), top, k)
  {
    var r := Tried(s.inflight[i], outcome);
    SumReplace(s.inflight, i, r, LoadOf);
    SumReplace(s.inflight, i, r, StaleAt(s.resetDay));
    assert Tidy(s.inflight[i], top, s.resetDay);
  }

  lemma {:induction false} ArriveTidy(reqs: seq<Req>, r: Req, top: int, day: int)
    requires AllTidy(reqs, top, day) && Tidy(r, top, day)
    ensures AllTidy(reqs + [r], top, day)
  {}

  /** What a request can add fits, since it can add something only if it saw the counter below its limit. */
  lemma {:induction false} ArriveLoad(reqs: seq<Req>, created: nat, weight: nat, limit: int, day: int, top: int, k: nat)
    requires created + Sum(reqs, LoadOf) <= Ceiling(top, k) && limit <= top
    requires Sum(reqs + [Waiting(weight, limit, created, day)], WeightOf) <= k
    ensures created + Sum(reqs + [Waiting(weight, limit, created, day)], LoadOf) <= Ceiling(top, k)
  {
    var r := Waiting(weight, limit, created, day);
    SumAppend(reqs, r, LoadOf);
    LoadAtMostWeight(reqs + [r]);
  }

  lemma {:induction false} ArriveSound(s: State, weight: nat, top: int, k: nat)
    requires Sound(s, top, k) && 1 <= weight && Sum(Next(s, Arrive(weight)).inflight, WeightOf) <= k
    ensures Sound(Next(s, Arrive(weight)), top, k)
  {
    var r := Waiting(weight, s.limit, s.created, s.resetDay);
    ArriveLoad(s.inflight, s.created, weight, s.limit, s.resetDay, top, k);
    SumAppend(s.inflight, r, StaleAt(s.resetDay));
    assert StaleAt(s.resetDay)(r) == 0;
    ArriveTidy(s.inflight, r, top, s.resetDay);
  }

  /** Granting or refusing a waiting request takes it out of the waiting ones and adds no weight. */
  lemma {:induction false} CheckedSums(s: State, i: nat, top: int, day: int)
    requires Enabled(s, Check(i)) && AllTidy(s.inflight, top, s.resetDay)
    ensures AllTidy(Checked(s, i), top, s.resetDay)
    ensures Sum(Checked(s, i), WeightOf) <= Sum(s.inflight, WeightOf)
    ensures Sum(Checked(s, i), StaleAt(day)) + StaleAt(day)(s.inflight[i]) == Sum(s.inflight, StaleAt(day))
    ensures s.inflight[i].day == s.today ==> Sum(Checked(s, i), LoadOf) <= Sum(s.inflight, LoadOf)
  {
    var r := s.inflight[i];
    var g := Granted(r.weight, r.limit, 0, 0);
    SumWithout(s.inflight, i, WeightOf);
    SumWithout(s.inflight, i, LoadOf);
    SumWithout(s.inflight, i, StaleAt(day));
    SumReplace(s.inflight, i, g, WeightOf);
    SumReplace(s.inflight, i, g, LoadOf);
    SumReplace(s.inflight, i, g, StaleAt(day));
    CheckedTidy(s, i, top);
  }

  lemma {:induction false} CheckedTidy(s: State, i: nat, top: int)
    requires Enabled(s, Check(i)) && AllTidy(s.inflight, top, s.resetDay)
    ensures AllTidy(Checked(s, i), top, s.resetDay)
  {
    assert Tidy(s.inflight[i], top, s.resetDay);
  }

  lemma {:induction false} CheckSound(s: State, i: nat, top: int, k: nat)
    requires Sound(s, top, k) && Sum(s.inflight, WeightOf) <= k && Enabled(s, Check(i))
    ensures Sound(Next(s, Check(i)), top, k)
  {
    var reqs := Checked(s, i);
    CheckedSums(s, i, top, s.resetDay);
    CheckedSums(s, i, top, s.today);
    LoadAtMostWeight(reqs);
    if TurnsDay(s, Check(i)) {
      StaleAtMostWeight(s.inflight, top, s.resetDay, s.today);
      assert StaleAt(s.today)(s.inflight[i]) == 1;
    } else if ResetsAgain(s, Check(i)) {
      assert StaleAt(s.resetDay)(s.inflight[i]) == 1;
    }
  }

  lemma {:induction false} StepSound(s: State, e: Event, top: int, k: nat)
    requires Sound(s, top, k) && Enabled(s, e) && (e.SetLimit? ==> e.limit <= top)
    requires Sum(s.inflight, WeightOf) <= k && Sum(Next(s, e).inflight, WeightOf) <= k
    ensures Sound(Next(s, e), top, k)
  {
    match e {
      case Arrive(weight) => ArriveSound(s, weight, top, k);
      case Check(i) => CheckSound(s, i, top, k);
      case Host(i, outcome) => HostSound(s, i, outcome, top, k);
      case Count(i) => CountSound(s, i, top, k);
      case Abort(i) => LeaveSound(s, i, top, k);
      case _ =>
    }
  }

  lemma {:induction false} RunsSound(s: State, events: seq<Event>, top: int, k: nat)
    requires Sound(s, top, k) && IsRun(s, events) && Overlap(s, events, k) && LimitsAtMost(events, top)
    ensures Sound(After(s, events), top, k)
    decreases |events|
  {
    if events == [] {
    } else {
      StepSound(s, events[0], top, k);
      RunsSound(Next(s, events[0]), events[1..], top, k);
    }
  }

  /**
   With at most `k` hosts' worth of requests overlapping and no limit above `top`, the counter together
   with everything that can still be added to it stays at or below top - 1 + k, over any number of
   requests, days and changes of the limit.
   */
  lemma {:induction false} CounterBounded(s: State, events: seq<Event>, top: int, k: nat)
    requires Fresh(s) && IsRun(s, events) && Overlap(s, events, k) && 1 <= k
    requires s.limit <= top && LimitsAtMost(events, top)
    ensures var end := After(s, events); end.created + Sum(end.inflight, LoadOf) <= top - 1 + k
  {
    RunsSound(s, events, top, k);
  }

  /**
   The counter need not hold all hosts counted: a request that read the token before midnight resets it
   again. Still, between the first reset for one day and the first for another, at most k * (top - 1 + k)
   hosts are counted; with k = 1 that is the highest limit.
   */
  lemma {:induction false} HostsCountedBounded(s: State, events: seq<Event>, top: int, k: nat)
    requires Fresh(s) && IsRun(s, events) && Overlap(s, events, k) && 1 <= k
    requires s.limit <= top && LimitsAtMost(events, top)
    ensures After(s, events).counted <= k * Ceiling(top, k)
  {
    RunsSound(s, events, top, k);
    CountedBound(After(s, events), top, k);
  }

  lemma {:induction false} CountedBound(s: State, top: int, k: nat)
    requires Sound(s, top, k)
    ensures s.counted <= k * Ceiling(top, k)
  {
    PriorAtMost(s.resets, k, top, k);
  }

  /** `n` resets hide at most n - 1 full counters. */
  lemma {:induction false} PriorAtMost(resets: nat, n: nat, top: int, k: nat)
    requires 1 <= resets <= n && 0 <= Ceiling(top, k)
    ensures Prior(resets, top, k) + Ceiling(top, k) <= n * Ceiling(top, k)
  {
    var c := Ceiling(top, k);
    assert n * c == (n - 1) * c + c;
    if resets < n {
      PriorAtMost(resets, n - 1, top, k);
    } else if resets > 1 {
      PriorAtMost(resets - 1, n - 1, top, k);
    }
  }

  // ---------------------------------------------------------------- what the counter misses

  /** The two ways in which hosts of the day escape the counter. */
  datatype Loss = Forgotten | Orphaned

  /** What one event loses: the counter value a further reset wipes out, or host rows nobody will count. */
  function Lost(kind: Loss, s: State, e: Event): nat
    requires Enabled(s, e)
  {
    match kind
    case Forgotten => if ResetsAgain(s, e) then s.created else 0
    case Orphaned =>
      if e.Host? && e.outcome.RowOnly? then 1 else if e.Abort? then MadeOf(s.inflight[e.i]) else 0
  }

  /** What has been lost since the first reset for the day the run ends in, starting from `lost`. */
  function LostIn(kind: Loss, s: State, events: seq<Event>, lost: nat): nat
    requires IsRun(s, events)
    decreases |events|
  {
    if events == [] then lost
    else
      var e := events[0];
      LostIn(kind, Next(s, e), events[1..], if TurnsDay(s, e) then 0 else lost + Lost(kind, s, e))
  }

  /** No event of the run is the first reset for a new day. */
  predicate SameDay(s: State, events: seq<Event>)
    requires IsRun(s, events)
    decreases |events|
  {
    events == [] || (!TurnsDay(s, events[0]) && SameDay(Next(s, events[0]), events[1..]))
  }

  /** Some event loses something, and no new day begins behind it. */
  predicate LosesToday(kind: Loss, s: State, events: seq<Event>)
    requires IsRun(s, events)
    decreases |events|
  {
    && events != []
    && var next := Next(s, events[0]);
       || (!TurnsDay(s, events[0]) && Lost(kind, s, events[0]) > 0 && SameDay(next, events[1..]))
       || LosesToday(kind, next, events[1..])
  }

  lemma {:induction false} LostInPositive(kind: Loss, s: State, events: seq<Event>, lost: nat)
    requires IsRun(s, events)
    ensures LostIn(kind, s, events, lost) > 0 <==> (lost > 0 && SameDay(s, events)) || LosesToday(kind, s, events)
    decreases |events|
  {
    if events == [] {
    } else {
      var e := events[0];
      LostInPositive(kind, Next(s, e), events[1..], if TurnsDay(s, e) then 0 else lost + Lost(kind, s, e));
    }
  }

  predicate Accounted(s: State, forgotten: nat, orphaned: nat) {
    && s.counted == s.created + forgotten
    && s.rows == s.counted + Sum(s.inflight, MadeOf) + orphaned
  }

  lemma {:induction false} CheckedMade(s: State, i: nat)
    requires Enabled(s, Check(i))
    ensures Sum(Checked(s, i), MadeOf) == Sum(s.inflight, MadeOf)
  {
    var r := s.inflight[i];
    SumWithout(s.inflight, i, MadeOf);
    SumReplace(s.inflight, i, Granted(r.weight, r.limit, 0, 0), MadeOf);
  }

  lemma {:induction false} CheckAccounts(s: State, i: nat, forgotten: nat, orphaned: nat)
    requires Accounted(s, forgotten, orphaned) && Enabled(s, Check(i))
    ensures TurnsDay(s, Check(i)) ==> Accounted(Next(s, Check(i)), 0, 0)
    ensures !TurnsDay(s, Check(i)) ==> Accounted(Next(s, Check(i)), forgotten + Lost(Forgotten, s, Check(i)), orphaned)
  {
    CheckedMade(s, i);
  }

  lemma {:induction false} HostAccounts(s: State, i: nat, outcome: Outcome, forgotten: nat, orphaned: nat)
    requires Accounted(s, forgotten, orphaned) && Enabled(s, Host(i, outcome))
    ensures Accounted(Next(s, Host(i, outcome)), forgotten, orphaned + Lost(Orphaned, s, Host(i, outcome)))
  {
    SumReplace(s.inflight, i, Tried(s.inflight[i], outcome), MadeOf);
  }

  lemma {:induction false} LeaveAccounts(s: State, e: Event, forgotten: nat, orphaned: nat)
    requires Accounted(s, forgotten, orphaned) && Enabled(s, e) && (e.Count? || e.Abort?)
    ensures Accounted(Next(s, e), forgotten, orphaned + Lost(Orphaned, s, e))
  {
    SumWithout(s.inflight, e.i, MadeOf);
  }

  lemma {:induction false} ArriveAccounts(s: State, weight: nat, forgotten: nat, orphaned: nat)
    requires Accounted(s, forgotten, orphaned) && 1 <= weight
    ensures Accounted(Next(s, Arrive(weight)), forgotten, orphaned)
  {
    SumAppend(s.inflight, Waiting(weight, s.limit, s.created, s.resetDay), MadeOf);
  }

  lemma {:induction false} StepAccounts(s: State, e: Event, forgotten: nat, orphaned: nat)
    requires Accounted(s, forgotten, orphaned) && Enabled(s, e)
    ensures TurnsDay(s, e) ==> Accounted(Next(s, e), 0, 0)
    ensures !TurnsDay(s, e) ==>
              Accounted(Next(s, e), forgotten + Lost(Forgotten, s, e), orphaned + Lost(Orphaned, s, e))
  {
    match e {
      case Arrive(weight) => ArriveAccounts(s, weight, forgotten, orphaned);
      case Check(i) => CheckAccounts(s, i, forgotten, orphaned);
      case Host(i, outcome) => HostAccounts(s, i, outcome, forgotten, orphaned);
      case Count(_) => LeaveAccounts(s, e, forgotten, orphaned);
      case Abort(_) => LeaveAccounts(s, e, forgotten, orphaned);
      case _ =>
    }
  }

  lemma {:induction false} RunsAccount(s: State, events: seq<Event>, forgotten: nat, orphaned: nat)
    requires Accounted(s, forgotten, orphaned) && IsRun(s, events)
    ensures Accounted(After(s, events), LostIn(Forgotten, s, events, forgotten), LostIn(Orphaned, s, events, orphaned))
    decreases |events|
  {
    if events == [] {
    } else {
      var e := events[0];
      StepAccounts(s, e, forgotten, orphaned);
      if TurnsDay(s, e) {
        RunsAccount(Next(s, e), events[1..], 0, 0);
      } else {
        RunsAccount(Next(s, e), events[1..], forgotten + Lost(Forgotten, s, e), orphaned + Lost(Orphaned, s, e));
      }
    }
  }

  /**
   Over every interleaving: what the counter lacks of the hosts counted is what further resets wiped out
   since the first reset for the day, so it holds them all exactly when no such reset met a counter above zero.
   */
  lemma {:induction false} CounterHoldsCountedIff(s: State, events: seq<Event>)
    requires Fresh(s) && IsRun(s, events)
    ensures After(s, events).counted == After(s, events).created + LostIn(Forgotten, s, events, 0)
    ensures After(s, events).counted == After(s, events).created <==> !LosesToday(Forgotten, s, events)
  {
    RunsAccount(s, events, 0, 0);
    LostInPositive(Forgotten, s, events, 0);
  }

  /**
   Host rows of the day are the counter, what resets wiped out, what requests in flight still have to
   count, and the rows nobody will count. With nothing in flight the counter is the number of rows exactly
   when no reset wiped anything out, no membership failed behind its row and no request ended uncounted.
   */
  lemma {:induction false} CounterHoldsRowsIff(s: State, events: seq<Event>)
    requires Fresh(s) && IsRun(s, events)
    ensures var end := After(s, events);
            end.rows == end.created + LostIn(Forgotten, s, events, 0) + Sum(end.inflight, MadeOf)
                        + LostIn(Orphaned, s, events, 0)
    ensures After(s, events).inflight == [] ==>
              (After(s, events).rows == After(s, events).created
               <==> !LosesToday(Forgotten, s, events) && !LosesToday(Orphaned, s, events))
  {
    RunsAccount(s, events, 0, 0);
    LostInPositive(Forgotten, s, events, 0);
    LostInPositive(Orphaned, s, events, 0);
  }

  // ---------------------------------------------------------------- concrete losses

  /** A request for one host, read and served without interruption from position `i` on. */
  lemma {:induction false} ServeOne(s: State, i: nat, rest: seq<Event>)
    requires i < |s.inflight| && s.inflight[i].Waiting? && s.inflight[i].weight == 1
    requires Passes(s.inflight[i].limit, if s.inflight[i].day == s.today then s.inflight[i].seen else 0, 1)
    requires IsRun(Served(s, i), rest)
    ensures var events := [Check(i)] + ([Host(i, Complete)] + ([Count(i)] + rest));
            IsRun(s, events) && After(s, events) == After(Served(s, i), rest)
  {
    var s1 := Next(s, Check(i));
    var s2 := Next(s1, Host(i, Complete));
    assert s2.inflight[i] == Granted(1, s.inflight[i].limit, 1, 1);
    RunStep(s2, Count(i), rest);
    RunStep(s1, Host(i, Complete), [Count(i)] + rest);
    RunStep(s, Check(i), [Host(i, Complete)] + ([Count(i)] + rest));
  }

  function Served(s: State, i: nat): State
    requires i < |s.inflight| && s.inflight[i].Waiting? && s.inflight[i].weight == 1
    requires Passes(s.inflight[i].limit, if s.inflight[i].day == s.today then s.inflight[i].seen else 0, 1)
  {
    var s1 := Next(s, Check(i));
    Next(Next(s1, Host(i, Complete)), Count(i))
  }

  function OneHost(i: nat, rest: seq<Event>): seq<Event> { [Check(i)] + ([Host(i, Complete)] + ([Count(i)] + rest)) }

  /** With limit 2: two requests read the token before midnight; three hosts are enrolled the next day. */
  lemma {:induction false} StaleResetForgets(s: State)
    requires s == State(0, 2, 0, 0, [], 0, 1, 0)
    ensures var nextDay := OneHost(0, [Arrive(1)] + OneHost(1, OneHost(0, [])));
            var events := [Arrive(1)] + ([Arrive(1)] + ([Midnight] + nextDay));
            && Fresh(s) && IsRun(s, events)
            && After(s, events).counted == 3 && After(s, events).created == 1 && s.limit == 2
  {
    var w := Waiting(1, 2, 0, 0);
    var s3 := State(1, 2, 0, 0, [w, w], 0, 1, 0);
    assert Next(Next(Next(s, Arrive(1)), Arrive(1)), Midnight) == s3;
    ServedFirst(s3, w);
    var s4 := State(1, 2, 1, 1, [w], 1, 1, 1);
    var s5 := Next(s4, Arrive(1));
    ServedFresh(s5, w);
    var s6 := State(1, 2, 2, 1, [w], 2, 1, 2);
    ServedStale(s6, w);
    ServeOne(s6, 0, []);
    ServeOne(s5, 1, OneHost(0, []));
    RunStep(s4, Arrive(1), OneHost(1, OneHost(0, [])));
    ServeOne(s3, 0, [Arrive(1)] + OneHost(1, OneHost(0, [])));
    var rest := OneHost(0, [Arrive(1)] + OneHost(1, OneHost(0, [])));
    var s1 := Next(s, Arrive(1));
    var s2 := Next(s1, Arrive(1));
    RunStep(s2, Midnight, rest);
    RunStep(s1, Arrive(1), [Midnight] + rest);
    RunStep(s, Arrive(1), [Arrive(1)] + ([Midnight] + rest));
  }

  lemma {:induction false} ServedFirst(s: State, w: Req)
    requires w == Waiting(1, 2, 0, 0) && s == State(1, 2, 0, 0, [w, w], 0, 1, 0)
    ensures Served(s, 0) == State(1, 2, 1, 1, [w], 1, 1, 1)
  {
    var s1 := Next(s, Check(0));
    assert Checked(s, 0) == [Granted(1, 2, 0, 0), w];
    assert Sum([Granted(1, 2, 0, 0), w], MadeOf) == 0 by {
      SumAppend([Granted(1, 2, 0, 0)], w, MadeOf);
      SumAppend([], Granted(1, 2, 0, 0), MadeOf);
      assert [] + [Granted(1, 2, 0, 0)] == [Granted(1, 2, 0, 0)];
      assert [Granted(1, 2, 0, 0)] + [w] == [Granted(1, 2, 0, 0), w];
    }
    assert s1 == State(1, 2, 0, 1, [Granted(1, 2, 0, 0), w], 0, 1, 0);
    assert Next(s1, Host(0, Complete)) == State(1, 2, 0, 1, [Granted(1, 2, 1, 1), w], 0, 1, 1);
  }

  lemma {:induction false} ServedFresh(s: State, w: Req)
    requires w == Waiting(1, 2, 0, 0) && s == State(1, 2, 1, 1, [w, Waiting(1, 2, 1, 1)], 1, 1, 1)
    ensures Served(s, 1) == State(1, 2, 2, 1, [w], 2, 1, 2)
  {
    var s1 := Next(s, Check(1));
    assert s1 == State(1, 2, 1, 1, [w, Granted(1, 2, 0, 0)], 1, 1, 1);
    assert Next(s1, Host(1, Complete)) == State(1, 2, 1, 1, [w, Granted(1, 2, 1, 1)], 1, 1, 2);
  }

  lemma {:induction false} ServedStale(s: State, w: Req)
    requires w == Waiting(1, 2, 0, 0) && s == State(1, 2, 2, 1, [w], 2, 1, 2)
    ensures Served(s, 0) == State(1, 2, 1, 1, [], 3, 2, 3)
  {
    var s1 := Next(s, Check(0));
    assert s1 == State(1, 2, 0, 1, [Granted(1, 2, 0, 0)], 2, 2, 2);
    assert Next(s1, Host(0, Complete)) == State(1, 2, 0, 1, [Granted(1, 2, 1, 1)], 2, 2, 3);
  }


  /** One request for one host whose group membership fails behind the row: at each step, what is in flight. */
  lemma {:induction false} FailingSteps(s: State)
    requires s.inflight == [] && s.resetDay == s.today && s.created < s.limit
    ensures var arrived := s.(inflight := [Waiting(1, s.limit, s.created, s.resetDay)]);
            var granted := s.(inflight := [Granted(1, s.limit, 0, 0)]);
            var tried := s.(inflight := [Granted(1, s.limit, 1, 0)], rows := s.rows + 1);
            && Enabled(s, Arrive(1)) && Next(s, Arrive(1)) == arrived
            && Enabled(arrived, Check(0)) && Next(arrived, Check(0)) == granted
            && Enabled(granted, Host(0, RowOnly)) && Next(granted, Host(0, RowOnly)) == tried
            && Enabled(tried, Count(0)) && Next(tried, Count(0)) == s.(rows := s.rows + 1)
  {
    assert Without([Granted(1, s.limit, 1, 0)], 0) == [];
  }

  function FailingRequest(rest: seq<Event>): seq<Event> {
    [Arrive(1)] + ([Check(0)] + ([Host(0, RowOnly)] + ([Count(0)] + rest)))
  }

  lemma {:induction false} FailingRound(s: State, rest: seq<Event>)
    requires s.inflight == [] && s.resetDay == s.today && s.created < s.limit
    requires IsRun(s.(rows := s.rows + 1), rest) && OneAtATime(s.(rows := s.rows + 1), rest)
    ensures IsRun(s, FailingRequest(rest)) && OneAtATime(s, FailingRequest(rest))
    ensures After(s, FailingRequest(rest)) == After(s.(rows := s.rows + 1), rest)
  {
    FailingSteps(s);
    StepOneAtATime(s.(inflight := [Granted(1, s.limit, 1, 0)], rows := s.rows + 1), Count(0), rest);
    StepOneAtATime(s.(inflight := [Granted(1, s.limit, 0, 0)]), Host(0, RowOnly), [Count(0)] + rest);
    var arrived := s.(inflight := [Waiting(1, s.limit, s.created, s.resetDay)]);
    StepOneAtATime(arrived, Check(0), [Host(0, RowOnly)] + ([Count(0)] + rest));
    StepOneAtATime(s, Arrive(1), [Check(0)] + ([Host(0, RowOnly)] + ([Count(0)] + rest)));
  }

  /**
   The quota does not bound host rows: for every `n` some run of one request at a time leaves `n` rows and an
   untouched counter.
   */
  lemma {:induction false} RowsAreUnbounded(s: State, n: nat) returns (events: seq<Event>)
    requires s.inflight == [] && s.resetDay == s.today && s.created < s.limit
    ensures IsRun(s, events) && OneAtATime(s, events) && After(s, events) == s.(rows := s.rows + n)
    decreases n
  {
    if n == 0 {
      events := [];
    } else {
      var rest := RowsAreUnbounded(s.(rows := s.rows + 1), n - 1);
      FailingRound(s, rest);
      events := FailingRequest(rest);
    }
  }

  // ---------------------------------------------------------------- one request at a time

  /** The only request in flight, if there is one, has seen the row as it still is. */
  predicate Alone(s: State) {
    && |s.inflight| <= 1 && s.counted == s.created && s.resetDay <= s.today
    && (|s.inflight| == 1 ==>
          match s.inflight[0]
          case Waiting(_, _, seen, day) => seen == s.created && day == s.resetDay
          case Granted(weight, limit, tried, made) => made <= tried <= weight && s.created + weight <= limit)
  }

  predicate OneAtATime(s: State, events: seq<Event>)
    requires IsRun(s, events)
    decreases |events|
  {
    |s.inflight| <= 1 && (events == [] || OneAtATime(Next(s, events[0]), events[1..]))
  }

  lemma {:induction false} CheckAlone(s: State, i: nat)
    requires Alone(s) && Enabled(s, Check(i))
    ensures Alone(Next(s, Check(i)))
  {
    assert i == 0 && Without(s.inflight, 0) == [];
  }

  lemma {:induction false} StepAlone(s: State, e: Event)
    requires Alone(s) && Enabled(s, e) && |Next(s, e).inflight| <= 1
    ensures Alone(Next(s, e))
    ensures e.Count? ==> Next(s, e).created <= s.inflight[e.i].limit
  {
    match e {
      case Check(i) => CheckAlone(s, i);
      case _ =>
    }
  }

  lemma {:induction false} RunsAlone(s: State, events: seq<Event>)
    requires Alone(s) && IsRun(s, events) && OneAtATime(s, events)
    ensures Alone(After(s, events))
    decreases |events|
  {
    if events == [] {
    } else {
      assert |Next(s, events[0]).inflight| <= 1;
      StepAlone(s, events[0]);
      RunsAlone(Next(s, events[0]), events[1..]);
    }
  }

  /**
   One request at a time, single or bulk, with limits changing and days passing: an increment never takes
   the counter above the limit its request read, and the counter holds all hosts counted.
   */
  lemma {:induction false} SequentialRunsWithinLimitRead(s: State, events: seq<Event>, e: Event)
    requires Fresh(s) && IsRun(s, events) && OneAtATime(s, events) && Enabled(After(s, events), e)
    ensures After(s, events).counted == After(s, events).created
    ensures e.Count? ==> Next(After(s, events), e).created <= After(s, events).inflight[e.i].limit
  {
    RunsAlone(s, events);
  }

  /** The read of the request in flight: the last arrival. */
  predicate ReadAt(events: seq<Event>, a: nat) {
    a < |events| && events[a].Arrive? && forall j :: a < j < |events| ==> !events[j].Arrive?
  }

  predicate NoArrival(events: seq<Event>) { forall j :: 0 <= j < |events| ==> !events[j].Arrive? }

  /** The limit is still the one that was read, or the last change of it came behind position `a`. */
  predicate LimitFrom(events: seq<Event>, a: int, read: int, limit: int) {
    limit == read || exists m :: a < m < |events| && 0 <= m && events[m] == SetLimit(limit)
  }

  lemma {:induction false} LimitFromShift(events: seq<Event>, a: int, read: int, limit: int)
    requires events != [] && -1 <= a && LimitFrom(events[1..], a, read, limit)
    ensures LimitFrom(events, a + 1, read, limit)
  {
    if limit != read {
      var m :| a < m < |events[1..]| && 0 <= m && events[1..][m] == SetLimit(limit);
      assert events[m + 1] == SetLimit(limit);
    }
  }

  /** The request in flight at the end was in flight at the start, and no other has arrived. */
  predicate Carried(s: State, events: seq<Event>, end: State)
    requires end.inflight != []
  {
    && NoArrival(events) && s.inflight != [] && s.inflight[0].limit == end.inflight[0].limit
    && LimitFrom(events, -1, s.limit, end.limit)
  }

  /** It arrived on the way. */
  ghost predicate Arrived(events: seq<Event>, end: State)
    requires end.inflight != []
  {
    exists a: nat :: ReadAt(events, a) && LimitFrom(events, a, end.inflight[0].limit, end.limit)
  }

  ghost predicate Traced(s: State, events: seq<Event>, end: State) {
    end.inflight != [] ==> Carried(s, events, end) || Arrived(events, end)
  }

  lemma {:induction false} ArrivedShift(events: seq<Event>, end: State)
    requires events != [] && end.inflight != [] && Arrived(events[1..], end)
    ensures Arrived(events, end)
  {
    var a: nat :| ReadAt(events[1..], a) && LimitFrom(events[1..], a, end.inflight[0].limit, end.limit);
    LimitFromShift(events, a, end.inflight[0].limit, end.limit);
    ReadShift(events, a);
  }

  lemma {:induction false} CarriedFromArrival(s: State, events: seq<Event>, end: State)
    requires events != [] && Enabled(s, events[0]) && events[0].Arrive? && s.inflight == [] && end.inflight != []
    requires Carried(Next(s, events[0]), events[1..], end)
    ensures Arrived(events, end)
  {
    LimitFromShift(events, -1, s.limit, end.limit);
    ReadFirst(events);
  }

  /** An event that brings no request keeps the limit the request in flight has read. */
  lemma {:induction false} SameRequest(s: State, e: Event)
    requires Enabled(s, e) && !e.Arrive? && |s.inflight| <= 1 && Next(s, e).inflight != []
    ensures s.inflight != [] && s.inflight[0].limit == Next(s, e).inflight[0].limit
  {
    assert e.Check? || e.Count? || e.Abort? ==> Without(s.inflight, 0) == [];
  }

  lemma {:induction false} CarriedOn(s: State, events: seq<Event>, end: State)
    requires events != [] && Enabled(s, events[0]) && !events[0].Arrive? && |s.inflight| <= 1 && end.inflight != []
    requires Carried(Next(s, events[0]), events[1..], end)
    ensures Carried(s, events, end)
  {
    SameRequest(s, events[0]);
    NoArrivalShift(events);
    LimitFromStart(s, events, end);
  }

  lemma {:induction false} TraceStep(s: State, events: seq<Event>, end: State)
    requires events != [] && Enabled(s, events[0]) && |s.inflight| <= 1 && |Next(s, events[0]).inflight| <= 1
    requires Traced(Next(s, events[0]), events[1..], end)
    ensures Traced(s, events, end)
  {
    if end.inflight == [] {
    } else if Arrived(events[1..], end) {
      ArrivedShift(events, end);
    } else if events[0].Arrive? {
      CarriedFromArrival(s, events, end);
    } else {
      CarriedOn(s, events, end);
    }
  }

  lemma {:induction false} ReadShift(events: seq<Event>, a: nat)
    requires events != [] && ReadAt(events[1..], a)
    ensures ReadAt(events, a + 1)
  {
    forall j | a + 1 < j < |events|
      ensures !events[j].Arrive?
    {
      assert events[j] == events[1..][j - 1];
    }
  }

  lemma {:induction false} ReadFirst(events: seq<Event>)
    requires events != [] && events[0].Arrive? && NoArrival(events[1..])
    ensures ReadAt(events, 0)
  {
    forall j | 0 < j < |events|
      ensures !events[j].Arrive?
    {
      assert events[j] == events[1..][j - 1];
    }
  }

  lemma {:induction false} NoArrivalShift(events: seq<Event>)
    requires events != [] && !events[0].Arrive? && NoArrival(events[1..])
    ensures NoArrival(events)
  {
    forall j | 0 <= j < |events|
      ensures !events[j].Arrive?
    {
      assert j > 0 ==> events[j] == events[1..][j - 1];
    }
  }

  lemma {:induction false} LimitFromStart(s: State, events: seq<Event>, end: State)
    requires events != [] && Enabled(s, events[0]) && LimitFrom(events[1..], -1, Next(s, events[0]).limit, end.limit)
    ensures LimitFrom(events, -1, s.limit, end.limit)
  {
    LimitFromShift(events, -1, Next(s, events[0]).limit, end.limit);
    if end.limit == Next(s, events[0]).limit && events[0].SetLimit? {
      assert events[0] == SetLimit(end.limit);
    }
  }

  lemma {:induction false} RunsTraced(s: State, events: seq<Event>)
    requires IsRun(s, events) && OneAtATime(s, events)
    ensures Traced(s, events, After(s, events))
    decreases |events|
  {
    if events == [] {
    } else {
      RunsTraced(Next(s, events[0]), events[1..]);
      assert |Next(s, events[0]).inflight| <= 1;
      TraceStep(s, events, After(s, events));
    }
  }

  /** An increment takes the counter above the limit in force only if that was lowered since the request read it. */
  lemma {:induction false} LimitInForceExceededOnlyIfLowered(s: State, events: seq<Event>, e: Event)
    requires Fresh(s) && IsRun(s, events) && OneAtATime(s, events) && Enabled(After(s, events), e) && e.Count?
    ensures var end := After(s, events);
            Next(end, e).created > end.limit ==>
              && end.limit < end.inflight[e.i].limit
              && exists a: nat, m: nat :: ReadAt(events, a) && a < m < |events| && events[m] == SetLimit(end.limit)
  {
    SequentialRunsWithinLimitRead(s, events, e);
    RunsTraced(s, events);
    RunsAlone(s, events);
    var end := After(s, events);
    if Next(end, e).created > end.limit {
      var a: nat :| ReadAt(events, a) && LimitFrom(events, a, end.inflight[0].limit, end.limit);
      var m :| a < m < |events| && 0 <= m && events[m] == SetLimit(end.limit);
    }
  }

  lemma {:induction false} StepOneAtATime(s: State, e: Event, rest: seq<Event>)
    requires Enabled(s, e) && IsRun(Next(s, e), rest) && |s.inflight| <= 1 && OneAtATime(Next(s, e), rest)
    ensures IsRun(s, [e] + rest) && OneAtATime(s, [e] + rest) && After(s, [e] + rest) == After(Next(s, e), rest)
  {
    RunStep(s, e, rest);
    assert ([e] + rest)[1..] == rest;
  }

  function LoweredMeanwhile(): seq<Event> {
    [Arrive(1)] + ([Check(0)] + ([SetLimit(1)] + ([Host(0, Complete)] + ([Count(0)] + []))))
  }

  lemma {:induction false} LoweredMeanwhileRuns(s: State)
    requires s == State(0, 2, 1, 0, [], 1, 1, 1)
    ensures IsRun(s, LoweredMeanwhile()) && OneAtATime(s, LoweredMeanwhile())
    ensures After(s, LoweredMeanwhile()).created == 2 && After(s, LoweredMeanwhile()).limit == 1
  {
    var s1 := Next(s, Arrive(1));
    var s2 := State(0, 2, 1, 0, [Granted(1, 2, 0, 0)], 1, 1, 1);
    assert Next(s1, Check(0)) == s2;
    var s3 := Next(s2, SetLimit(1));
    var s4 := State(0, 1, 1, 0, [Granted(1, 2, 1, 1)], 1, 1, 2);
    assert Next(s3, Host(0, Complete)) == s4;
    StepOneAtATime(s4, Count(0), []);
    StepOneAtATime(s3, Host(0, Complete), [Count(0)] + []);
    StepOneAtATime(s2, SetLimit(1), [Host(0, Complete)] + ([Count(0)] + []));
    StepOneAtATime(s1, Check(0), [SetLimit(1)] + ([Host(0, Complete)] + ([Count(0)] + [])));
    StepOneAtATime(s, Arrive(1), [Check(0)] + ([SetLimit(1)] + ([Host(0, Complete)] + ([Count(0)] + []))));
  }

  /** It can be: after one host, the limit is lowered from 2 to 1 while the second request creates its host. */
  lemma {:induction false} LimitInForceCanBeExceeded(s: State)
    requires s == State(0, 2, 0, 0, [], 0, 1, 0)
    ensures var events := [Arrive(1)] + OneHost(0, LoweredMeanwhile());
            && Fresh(s) && IsRun(s, events) && OneAtATime(s, events)
            && After(s, events).created == 2 && After(s, events).limit == 1
  {
    var rest := LoweredMeanwhile();
    var s1 := Next(s, Arrive(1));
    var s2 := State(0, 2, 0, 0, [Granted(1, 2, 0, 0)], 0, 1, 0);
    assert Next(s1, Check(0)) == s2;
    var s3 := State(0, 2, 0, 0, [Granted(1, 2, 1, 1)], 0, 1, 1);
    assert Next(s2, Host(0, Complete)) == s3;
    var s4 := State(0, 2, 1, 0, [], 1, 1, 1);
    assert Next(s3, Count(0)) == s4;
    LoweredMeanwhileRuns(s4);
    StepOneAtATime(s3, Count(0), rest);
    StepOneAtATime(s2, Host(0, Complete), [Count(0)] + rest);
    StepOneAtATime(s1, Check(0), [Host(0, Complete)] + ([Count(0)] + rest));
    StepOneAtATime(s, Arrive(1), OneHost(0, rest));
  }

  // ---------------------------------------------------------------- the endpoints

  /** The counter a request finds once the date has been checked. */
  function Base(created: nat, resetDay: int, today: int): nat {
    if resetDay == today then created else 0
  }

  function Successes(outcomes: seq<Outcome>): (n: nat)
    ensures n <= |outcomes|
  {
    if outcomes == [] then 0
    else Successes(outcomes[..|outcomes| - 1]) + if outcomes[|outcomes| - 1].Complete? then 1 else 0
  }

  function RowsMade(outcomes: seq<Outcome>): nat {
    if outcomes == [] then 0
    else RowsMade(outcomes[..|outcomes| - 1]) + if outcomes[|outcomes| - 1].NoRow? then 0 else 1
  }

  /** Only complete enrolments are reported as successes, and only a host without a row leaves none. */
  lemma {:induction false} OutcomesCounted(outcomes: seq<Outcome>)
    ensures Successes(outcomes) == multiset(outcomes)[Complete]
    ensures RowsMade(outcomes) + multiset(outcomes)[NoRow] == |outcomes|
    decreases |outcomes|
  {
    if outcomes == [] {
    } else {
      OutcomesCounted(outcomes[..|outcomes| - 1]);
      assert outcomes == outcomes[..|outcomes| - 1] + [outcomes[|outcomes| - 1]];
    }
  }

  function HostEvents(outcomes: seq<Outcome>): seq<Event> {
    seq(|outcomes|, j requires 0 <= j < |outcomes| => Host(0, outcomes[j]))
  }

  lemma {:induction false} RunSnoc(s: State, events: seq<Event>, e: Event)
    requires IsRun(s, events) && Enabled(After(s, events), e)
    ensures IsRun(s, events + [e]) && After(s, events + [e]) == Next(After(s, events), e)
    decreases |events|
  {
    if events == [] {
      assert [] + [e] == [e] && [e][1..] == [];
    } else {
      assert (events + [e])[1..] == events[1..] + [e];
      RunSnoc(Next(s, events[0]), events[1..], e);
    }
  }

  /** The request in flight creates further hosts. */
  lemma {:induction false} HostsOneByOne(s: State, r: Req, outcomes: seq<Outcome>)
    requires s.inflight == [r] && r.Granted? && r.tried + |outcomes| <= r.weight
    ensures IsRun(s, HostEvents(outcomes))
    ensures After(s, HostEvents(outcomes))
            == s.(inflight := [r.(tried := r.tried + |outcomes|, made := r.made + Successes(outcomes))],
                  rows := s.rows + RowsMade(outcomes))
    decreases |outcomes|
  {
    if outcomes == [] {
    } else {
      var init, last := outcomes[..|outcomes| - 1], outcomes[|outcomes| - 1];
      HostsOneByOne(s, r, init);
      assert HostEvents(outcomes) == HostEvents(init) + [Host(0, last)];
      RunSnoc(s, HostEvents(init), Host(0, last));
    }
  }

  /** Read and checked alone, a request finds the base and is granted iff it fits. */
  lemma {:induction false} AloneChecked(s: State, weight: nat)
    requires s.inflight == [] && 1 <= weight
    ensures var checked := Next(Next(s, Arrive(weight)), Check(0)); var base := Base(s.created, s.resetDay, s.today);
            && checked.resetDay == s.today && checked.created == base
            && checked.inflight == if Passes(s.limit, base, weight) then [Granted(weight, s.limit, 0, 0)] else []
  {
    var arrived := Next(s, Arrive(weight));
    assert Without(arrived.inflight, 0) == [];
    assert arrived.inflight[0] == Waiting(weight, s.limit, s.created, s.resetDay);
  }

  lemma {:induction false} CountedAlone(s: State, weight: nat, limit: int, made: nat)
    requires s.inflight == [Granted(weight, limit, weight, made)]
    ensures Enabled(s, Count(0))
    ensures Next(s, Count(0)) == s.(created := s.created + made, counted := s.counted + made, inflight := [])
  {
    assert Without(s.inflight, 0) == [];
  }

  /** Served alone, the steps of a request do to the row what the methods of `Token` do. */
  lemma {:induction false} AloneRequest(s: State, outcomes: seq<Outcome>)
    requires s.inflight == [] && outcomes != []
    ensures var checked := Next(Next(s, Arrive(|outcomes|)), Check(0));
            var base := Base(s.created, s.resetDay, s.today);
            && checked.resetDay == s.today && checked.created == base
            && (checked.inflight != [] <==> Passes(s.limit, base, |outcomes|))
            && (checked.inflight != [] ==>
                  && IsRun(checked, HostEvents(outcomes)) && Enabled(After(checked, HostEvents(outcomes)), Count(0))
                  && var end := Next(After(checked, HostEvents(outcomes)), Count(0));
                     && end.inflight == [] && end.created == base + Successes(outcomes)
                     && end.rows == checked.rows + RowsMade(outcomes))
  {
    AloneChecked(s, |outcomes|);
    var checked := Next(Next(s, Arrive(|outcomes|)), Check(0));
    if checked.inflight != [] {
      HostsOneByOne(checked, checked.inflight[0], outcomes);
      CountedAlone(After(checked, HostEvents(outcomes)), |outcomes|, s.limit, Successes(outcomes));
    }
  }

  // ---------------------------------------------------------------- when a lowered limit is exceeded

  function AllComplete(n: nat): seq<Outcome> { seq(n, _ => Complete) }

  lemma {:induction false} AllSucceed(n: nat)
    ensures Successes(AllComplete(n)) == n
  {
    if n == 0 {
    } else {
      assert AllComplete(n)[..n - 1] == AllComplete(n - 1);
      AllSucceed(n - 1);
    }
  }

  /** With these outcomes for its hosts still to be tried, the request in flight takes the counter above the limit. */
  ghost predicate EndsAbove(s: State, outcomes: seq<Outcome>) {
    && IsRun(s, HostEvents(outcomes)) && Enabled(After(s, HostEvents(outcomes)), Count(0))
    && Next(After(s, HostEvents(outcomes)), Count(0)).created > s.limit
  }

  lemma {:induction false} CountedBehind(s: State, events: seq<Event>, r: Req)
    requires IsRun(s, events) && After(s, events).inflight == [r] && r.Granted? && r.tried == r.weight
    ensures Enabled(After(s, events), Count(0))
    ensures Next(After(s, events), Count(0)).created == After(s, events).created + r.made
  {
    CountedAlone(After(s, events), r.weight, r.limit, r.made);
  }

  lemma {:induction false} HostsDone(s: State, r: Req, outcomes: seq<Outcome>)
    requires s.inflight == [r] && r.Granted? && r.tried + |outcomes| == r.weight
    ensures IsRun(s, HostEvents(outcomes)) && After(s, HostEvents(outcomes)).created == s.created
    ensures After(s, HostEvents(outcomes)).inflight == [r.(tried := r.weight, made := r.made + Successes(outcomes))]
  {
    HostsOneByOne(s, r, outcomes);
  }

  lemma {:induction false} EndOfRequest(s: State, r: Req, outcomes: seq<Outcome>)
    requires s.inflight == [r] && r.Granted? && r.tried + |outcomes| == r.weight
    ensures IsRun(s, HostEvents(outcomes)) && Enabled(After(s, HostEvents(outcomes)), Count(0))
    ensures Next(After(s, HostEvents(outcomes)), Count(0)).created == s.created + r.made + Successes(outcomes)
  {
    HostsDone(s, r, outcomes);
    CountedBehind(s, HostEvents(outcomes), r.(tried := r.weight, made := r.made + Successes(outcomes)));
  }

  /**
   Whether the limit in force can be exceeded by a request past its check is known while its hosts are created: some
   outcomes of the hosts still to be tried lead above it iff it is below the counter, the hosts made and those still
   to be tried.
   */
  lemma {:induction false} LimitInForceIsExceededIff(s: State, r: Req)
    requires s.inflight == [r] && r.Granted? && r.tried <= r.weight
    ensures (exists outcomes :: |outcomes| == r.weight - r.tried && EndsAbove(s, outcomes))
            <==> s.limit < s.created + r.made + (r.weight - r.tried)
  {
    var left := r.weight - r.tried;
    if s.limit < s.created + r.made + left {
      AllSucceed(left);
      EndOfRequest(s, r, AllComplete(left));
      assert EndsAbove(s, AllComplete(left));
    }
    if outcomes :| |outcomes| == left && EndsAbove(s, outcomes) {
      EndOfRequest(s, r, outcomes);
    }
  }

  /** The same for a request that has read the token but not been checked: it must pass, on the limit it has read. */
  lemma {:induction false} LimitInForceIsExceededByWaitingIff(s: State, r: Req)
    requires s.inflight == [r] && r.Waiting?
    ensures Enabled(s, Check(0))
    ensures var checked := Next(s, Check(0));
            var counter := if r.day == s.today then s.created else 0;
            checked.created == counter &&
            ((checked.inflight != [] && exists outcomes :: |outcomes| == r.weight && EndsAbove(checked, outcomes))
             <==> Passes(r.limit, if r.day == s.today then r.seen else 0, r.weight) && s.limit < counter + r.weight)
  {
    var checked := Next(s, Check(0));
    assert Without(s.inflight, 0) == [];
    if checked.inflight != [] {
      assert checked.inflight == [Granted(r.weight, r.limit, 0, 0)];
      LimitInForceIsExceededIff(checked, checked.inflight[0]);
    }
  }

  // ---------------------------------------------------------------- the token

  /** The token row and the number of host rows, with the middleware and the two endpoints. */
  class Token {
    var limit: int
    var created: nat
    var resetDay: int
    var rows: nat

    constructor (limit: int, today: int)
      requires 1 <= limit
      ensures this.limit == limit && created == 0 && resetDay == today && rows == 0
    {
      this.limit, created, resetDay, rows := limit, 0, today, 0;
    }

    /** The date reset and quota check of the middleware. */
    method Validate(today: int) returns (ok: bool)
      modifies this
      ensures limit == old(limit) && resetDay == today && rows == old(rows)
      ensures created == if old(resetDay) == today then old(created) else 0
      ensures ok <==> created < limit
    {
      if resetDay != today {
        created := 0;
        resetDay := today;
      }
      ok := created < limit;
    }

    /** The row, then the membership; a failure of either leaves the counter alone. */
    method Enroll(today: int, outcome: Outcome) returns (granted: bool)
      modifies this
      ensures limit == old(limit) && resetDay == today
      ensures granted <==> (if old(resetDay) == today then old(created) else 0) < limit
      ensures created == Base(old(created), old(resetDay), today) + if granted && outcome.Complete? then 1 else 0
      ensures rows == old(rows) + if granted && !outcome.NoRow? then 1 else 0
      ensures granted ==> created <= limit
    {
      granted := Validate(today);
      if !granted || outcome.NoRow? {
        return;
      }
      rows := rows + 1;
      if outcome.RowOnly? {
        return;
      }
      created := created + 1;
    }

    /** One outcome per host of the request; the counter grows by the hosts reported as enrolled. */
    method EnrollBulk(today: int, outcomes: seq<Outcome>) returns (granted: bool, success: nat, failed: nat)
      requires 1 <= |outcomes| <= 50
      modifies this
      ensures limit == old(limit) && resetDay == today
      ensures granted <==> (if old(resetDay) == today then old(created) else 0) + |outcomes| <= limit
      ensures granted ==> success == Successes(outcomes) && success + failed == |outcomes| && created <= limit
      ensures !granted ==> success == 0 && failed == 0
      ensures created == Base(old(created), old(resetDay), today) + success
      ensures rows == old(rows) + if granted then RowsMade(outcomes) else 0
    {
      success, failed := 0, 0;
      granted := Validate(today);
      if !granted {
        return;
      }
      var remaining := limit - created;
      if |outcomes| > remaining {
        granted := false;
        return;
      }
      var before := rows;
      for i := 0 to |outcomes|
        invariant success == Successes(outcomes[..i]) && success + failed == i
        invariant rows == before + RowsMade(outcomes[..i])
        invariant limit == old(limit) && resetDay == today && created == Base(old(created), old(resetDay), today)
      {
        assert outcomes[..i + 1][..i] == outcomes[..i];
        if !outcomes[i].NoRow? {
          rows := rows + 1;
        }
        if outcomes[i].Complete? {
          success := success + 1;
        } else {
          failed := failed + 1;
        }
      }
      assert outcomes[..|outcomes|] == outcomes;
      if success > 0 {
        created := created + success;
      }
    }
  }
}
