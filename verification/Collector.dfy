/**
 Discovering integrations and collecting from all of them concurrently.

 One goroutine per integration collects, takes the mutex, stores its record in the shared map and
 releases the mutex. Storing reads and writes the map in two steps, so it is the mutex that keeps
 updates from being lost. The theorems hold for every interleaving.
 */
module Collector {
  import opened Options
  import opened Sorting

  datatype Outcome = Data(text: string) | Failed(error: string)

  datatype Integration = Integration(name: string, priority: int, available: bool, outcome: Outcome)

  /** What is stored for an integration: its own data, or a record of its own error. */
  datatype Record = Collected(name: string, text: string) | Error(name: string, message: string)

  function RecordOf(i: Integration): Record {
    match i.outcome
    case Data(text) => Collected(i.name, text)
    case Failed(error) => Error(i.name, error)
  }

  // ---------------------------------------------------------------- discovery

  predicate Discoverable(i: Integration, checker: Option<string -> bool>) {
    i.available && (checker.Some? ==> checker.value(i.name))
  }

  function Discovered(all: seq<Integration>, checker: Option<string -> bool>): seq<Integration> {
    if all == [] then []
    else Discovered(all[..|all| - 1], checker)
         + if Discoverable(all[|all| - 1], checker) then [all[|all| - 1]] else []
  }

  /** Exactly the available integrations the checker, if there is one, enables, each as often as it is registered. */
  lemma {:induction false} DiscoveredExact(all: seq<Integration>, checker: Option<string -> bool>, i: Integration)
    ensures multiset(Discovered(all, checker))[i]
            == if i.available && (checker.None? || checker.value(i.name)) then multiset(all)[i] else 0
    decreases |all|
  {
    if all == [] {
    } else {
      var init, last := all[..|all| - 1], all[|all| - 1];
      DiscoveredExact(init, checker, i);
      assert all == init + [last];
    }
  }

  function ByPriority(a: Integration, b: Integration): int { a.priority - b.priority }

  class Manager {
    var integrations: seq<Integration>
    var isEnabledChecker: Option<string -> bool>

    constructor ()
      ensures integrations == [] && isEnabledChecker == None
    {
      integrations, isEnabledChecker := [], None;
    }

    method SetEnabledChecker(checker: string -> bool)
      modifies this`isEnabledChecker
      ensures isEnabledChecker == Some(checker)
    {
      isEnabledChecker := Some(checker);
    }

    method Register(i: Integration)
      modifies this`integrations
      ensures integrations == old(integrations) + [i]
    {
      integrations := integrations + [i];
    }

    /** The available and enabled ones, lowest priority number first. */
    method DiscoverIntegrations() returns (found: seq<Integration>)
      ensures multiset(found) == multiset(Discovered(integrations, isEnabledChecker))
      ensures forall i, j :: 0 <= i < j < |found| ==> found[i].priority <= found[j].priority
    {
      var available := [];
      for i := 0 to |integrations|
        invariant available == Discovered(integrations[..i], isEnabledChecker)
      {
        assert integrations[..i + 1][..i] == integrations[..i];
        if !integrations[i].available {
          continue;
        }
        if isEnabledChecker.Some? && !isEnabledChecker.value(integrations[i].name) {
          continue;
        }
        available := available + [integrations[i]];
      }
      assert integrations[..|integrations|] == integrations;
      var a := new Integration[|available|](i requires 0 <= i < |available| => available[i]);
      assert a[..] == available;
      SortSlice(a, ByPriority);
      found := a[..];
    }
  }

  // ---------------------------------------------------------------- the goroutines

  type Results = map<string, Record>

  datatype Phase =
    | Collecting
    | HasRecord
    | HasLock(seen: Results)     // has read the map under the mutex
    | Stored                     // has written it, still holds the mutex
    | Finished

  datatype State = State(results: Results, holder: Option<nat>, phases: seq<Phase>)

  function Start(n: nat): State {
    State(map[], None, seq(n, _ => Collecting))
  }

  predicate Enabled(s: State, i: nat) {
    i < |s.phases| && s.phases[i] != Finished && (s.phases[i] == HasRecord ==> s.holder == None)
  }

  /** One step of goroutine `i`. */
  function Step(found: seq<Integration>, s: State, i: nat): State
    requires |s.phases| == |found| && Enabled(s, i)
  {
    match s.phases[i]
    case Collecting => s.(phases := s.phases[i := HasRecord])
    case HasRecord => s.(holder := Some(i), phases := s.phases[i := HasLock(s.results)])
    case HasLock(seen) =>
      s.(results := seen[found[i].name := RecordOf(found[i])], phases := s.phases[i := Stored])
    case Stored => s.(holder := None, phases := s.phases[i := Finished])
    case Finished => s
  }

  predicate IsRun(found: seq<Integration>, s: State, schedule: seq<nat>)
    requires |s.phases| == |found|
    decreases |schedule|
  {
    schedule == [] || (Enabled(s, schedule[0]) && IsRun(found, Step(found, s, schedule[0]), schedule[1..]))
  }

  function After(found: seq<Integration>, s: State, schedule: seq<nat>): (end: State)
    requires |s.phases| == |found| && IsRun(found, s, schedule)
    ensures |end.phases| == |found|
    decreases |schedule|
  {
    if schedule == [] then s else After(found, Step(found, s, schedule[0]), schedule[1..])
  }

  predicate Past(p: Phase) { p == Stored || p == Finished }

  predicate AllFinished(s: State) { forall i :: 0 <= i < |s.phases| ==> s.phases[i] == Finished }

  /** At most the holder is inside the mutex, what it has read is current, and the map is what has been stored. */
  ghost predicate Sound(found: seq<Integration>, s: State) {
    && |s.phases| == |found|
    && (forall i :: 0 <= i < |s.phases| ==> ((s.phases[i].HasLock? || s.phases[i].Stored?) <==> s.holder == Some(i)))
    && (s.holder.Some? ==> s.holder.value < |s.phases|)
    && (forall i :: 0 <= i < |s.phases| && s.phases[i].HasLock? ==> s.phases[i].seen == s.results)
    && (forall i :: 0 <= i < |s.phases| && Past(s.phases[i]) ==> found[i].name in s.results)
    && (forall n :: n in s.results ==> exists i :: StoredAs(found, s, i, n))
  }

  ghost predicate StoredAs(found: seq<Integration>, s: State, i: nat, n: string) {
    i < |found| && i < |s.phases| && Past(s.phases[i]) && found[i].name == n
    && n in s.results && s.results[n] == RecordOf(found[i])
  }

  /** The part of soundness about the mutex and what its holder has read. */
  predicate MutexSound(s: State) {
    && (forall i :: 0 <= i < |s.phases| ==> ((s.phases[i].HasLock? || s.phases[i].Stored?) <==> s.holder == Some(i)))
    && (s.holder.Some? ==> s.holder.value < |s.phases|)
    && (forall i :: 0 <= i < |s.phases| && s.phases[i].HasLock? ==> s.phases[i].seen == s.results)
  }

  lemma {:induction false} MutexStep(found: seq<Integration>, s: State, i: nat)
    requires |s.phases| == |found| && MutexSound(s) && Enabled(s, i)
    ensures MutexSound(Step(found, s, i))
  {}

  /** Whoever was past storing still is, and only its own step brings a goroutine there. */
  lemma {:induction false} PastStep(found: seq<Integration>, s: State, i: nat)
    requires |s.phases| == |found| && Enabled(s, i)
    ensures var phases := Step(found, s, i).phases;
            forall j :: 0 <= j < |phases| ==>
              (Past(phases[j]) <==> Past(s.phases[j]) || (j == i && s.phases[i].HasLock?))
  {}

  lemma {:induction false} NamesStep(found: seq<Integration>, s: State, i: nat)
    requires Sound(found, s) && Enabled(s, i)
    ensures Step(found, s, i).results
            == if s.phases[i].HasLock? then s.results[found[i].name := RecordOf(found[i])] else s.results
  {}

  lemma {:induction false} StoredStep(found: seq<Integration>, s: State, i: nat, n: string)
    requires Sound(found, s) && Enabled(s, i) && n in Step(found, s, i).results
    ensures exists j :: StoredAs(found, Step(found, s, i), j, n)
  {
    var s' := Step(found, s, i);
    PastStep(found, s, i);
    NamesStep(found, s, i);
    if s.phases[i].HasLock? && n == found[i].name {
      assert StoredAs(found, s', i, n);
    } else {
      var j :| StoredAs(found, s, j, n);
      assert StoredAs(found, s', j, n);
    }
  }

  lemma {:induction false} StepSound(found: seq<Integration>, s: State, i: nat)
    requires Sound(found, s) && Enabled(s, i)
    ensures Sound(found, Step(found, s, i))
  {
    MutexStep(found, s, i);
    PastStep(found, s, i);
    NamesStep(found, s, i);
    forall n | n in Step(found, s, i).results
      ensures exists j :: StoredAs(found, Step(found, s, i), j, n)
    {
      StoredStep(found, s, i, n);
    }
  }

  lemma {:induction false} RunsSound(found: seq<Integration>, s: State, schedule: seq<nat>)
    requires Sound(found, s) && IsRun(found, s, schedule)
    ensures Sound(found, After(found, s, schedule))
    decreases |schedule|
  {
    if schedule == [] {
    } else {
      StepSound(found, s, schedule[0]);
      RunsSound(found, Step(found, s, schedule[0]), schedule[1..]);
    }
  }

  predicate DistinctNames(found: seq<Integration>) {
    forall i, j :: 0 <= i < j < |found| ==> found[i].name != found[j].name
  }

  lemma {:induction false} StoredByName(found: seq<Integration>, s: State, n: string)
    requires Sound(found, s) && n in s.results
    ensures exists i :: 0 <= i < |found| && found[i].name == n && s.results[n] == RecordOf(found[i])
  {
    var i :| StoredAs(found, s, i, n);
  }

  lemma {:induction false} StoredOwn(found: seq<Integration>, s: State, i: nat)
    requires Sound(found, s) && AllFinished(s) && DistinctNames(found) && i < |found|
    ensures found[i].name in s.results && s.results[found[i].name] == RecordOf(found[i])
  {
    assert Past(s.phases[i]);
    StoredByName(found, s, found[i].name);
    var j :| 0 <= j < |found| && found[j].name == found[i].name && s.results[found[i].name] == RecordOf(found[j]);
    assert i == j;
  }

  lemma {:induction false} FinishedNames(found: seq<Integration>, s: State)
    requires Sound(found, s) && AllFinished(s)
    ensures forall n :: n in s.results <==> exists i :: 0 <= i < |found| && found[i].name == n
  {
    forall n | n in s.results
      ensures exists i :: 0 <= i < |found| && found[i].name == n
    {
      StoredByName(found, s, n);
    }
    forall i | 0 <= i < |found|
      ensures found[i].name in s.results
    {
      assert Past(s.phases[i]);
    }
  }

  /**
   Whatever the interleaving, when all goroutines have finished the map has exactly the names of the
   integrations, and each record belongs to an integration of that name; with distinct names it is its own.
   */
  lemma {:induction false} CollectsEverything(found: seq<Integration>, schedule: seq<nat>)
    requires IsRun(found, Start(|found|), schedule) && AllFinished(After(found, Start(|found|), schedule))
    ensures var results := After(found, Start(|found|), schedule).results;
            && (forall n :: n in results <==> exists i :: 0 <= i < |found| && found[i].name == n)
            && (forall n :: n in results ==>
                  exists i :: 0 <= i < |found| && found[i].name == n && results[n] == RecordOf(found[i]))
            && (DistinctNames(found) ==>
                  forall i :: 0 <= i < |found| ==>
                    found[i].name in results && results[found[i].name] == RecordOf(found[i]))
            && (DistinctNames(found) ==>
                  forall i :: 0 <= i < |found| && found[i].outcome.Data? ==>
                    results[found[i].name] == Collected(found[i].name, found[i].outcome.text))
            && (DistinctNames(found) ==>
                  forall i :: 0 <= i < |found| && found[i].outcome.Failed? ==>
                    results[found[i].name] == Error(found[i].name, found[i].outcome.error))
  {
    RunsSound(found, Start(|found|), schedule);
    var s := After(found, Start(|found|), schedule);
    FinishedNames(found, s);
    forall n | n in s.results
      ensures exists i :: 0 <= i < |found| && found[i].name == n && s.results[n] == RecordOf(found[i])
    {
      StoredByName(found, s, n);
    }
    if DistinctNames(found) {
      forall i | 0 <= i < |found|
        ensures found[i].name in s.results && s.results[found[i].name] == RecordOf(found[i])
      {
        StoredOwn(found, s, i);
      }
    }
  }

  // ---------------------------------------------------------------- termination

  function Remaining(p: Phase): nat {
    match p
    case Collecting => 4
    case HasRecord => 3
    case HasLock(_) => 2
    case Stored => 1
    case Finished => 0
  }

  function Work(phases: seq<Phase>): nat {
    if phases == [] then 0 else Work(phases[..|phases| - 1]) + Remaining(phases[|phases| - 1])
  }

  lemma {:induction false} WorkUpdate(phases: seq<Phase>, i: nat, p: Phase)
    requires i < |phases|
    ensures Work(phases[i := p]) == Work(phases) - Remaining(phases[i]) + Remaining(p)
    decreases |phases|
  {
    var n := |phases| - 1;
    if i == n {
      assert phases[i := p][..n] == phases[..n];
    } else {
      assert phases[i := p][..n] == phases[..n][i := p];
      WorkUpdate(phases[..n], i, p);
    }
  }

  lemma {:induction false} WorkAtStart(n: nat)
    ensures Work(Start(n).phases) == 4 * n
  {
    if n == 0 {
    } else {
      assert Start(n).phases[..n - 1] == Start(n - 1).phases;
      WorkAtStart(n - 1);
    }
  }

  /** Every step uses up one unit of work. */
  lemma {:induction false} RunLength(found: seq<Integration>, s: State, schedule: seq<nat>)
    requires |s.phases| == |found| && IsRun(found, s, schedule)
    ensures |schedule| + Work(After(found, s, schedule).phases) == Work(s.phases)
    decreases |schedule|
  {
    if schedule == [] {
    } else {
      var s' := Step(found, s, schedule[0]);
      WorkUpdate(s.phases, schedule[0], s'.phases[schedule[0]]);
      RunLength(found, s', schedule[1..]);
    }
  }

  lemma {:induction false} NoWorkIffFinished(phases: seq<Phase>)
    ensures Work(phases) == 0 <==> forall i :: 0 <= i < |phases| ==> phases[i] == Finished
  {
    if phases == [] {
    } else {
      var init := phases[..|phases| - 1];
      NoWorkIffFinished(init);
      assert forall i :: 0 <= i < |init| ==> init[i] == phases[i];
    }
  }

  lemma {:induction false} SomeoneCanMove(found: seq<Integration>, s: State)
    requires Sound(found, s) && !AllFinished(s)
    ensures exists i :: Enabled(s, i)
  {
    var i :| 0 <= i < |s.phases| && s.phases[i] != Finished;
    assert if s.holder.Some? then Enabled(s, s.holder.value) else Enabled(s, i);
  }

  /** Whatever has happened so far, some goroutine that has not finished can go on. */
  lemma {:induction false} NeverStuck(found: seq<Integration>, schedule: seq<nat>)
    requires IsRun(found, Start(|found|), schedule)
    ensures !AllFinished(After(found, Start(|found|), schedule))
            ==> exists i :: Enabled(After(found, Start(|found|), schedule), i)
  {
    RunsSound(found, Start(|found|), schedule);
    if !AllFinished(After(found, Start(|found|), schedule)) {
      SomeoneCanMove(found, After(found, Start(|found|), schedule));
    }
  }

  /** No run is longer than 4 steps per goroutine, and the runs of that length are those in which all have finished. */
  lemma {:induction false} AlwaysFinishes(found: seq<Integration>, schedule: seq<nat>)
    requires IsRun(found, Start(|found|), schedule)
    ensures |schedule| <= 4 * |found|
    ensures AllFinished(After(found, Start(|found|), schedule)) <==> |schedule| == 4 * |found|
  {
    RunLength(found, Start(|found|), schedule);
    WorkAtStart(|found|);
    NoWorkIffFinished(After(found, Start(|found|), schedule).phases);
  }
}
