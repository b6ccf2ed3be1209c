/**
 The patch-window scheduler: a tick every minute that starts a job for each due window and moves the
 window to its next run.

 A tick awaits the database between its steps, so timer firings and administrators' edits fall between
 them. `Next` is the transition system of those steps; every call may fail. The theorems hold in every
 run from an idle state. `PatchScheduler.Tick` is the tick body as the source writes it.
 */
module Scheduler {
  import opened Options

  type Id = string

  datatype Kind = Once | Recurring | Unknown

  datatype Window = Window(kind: Kind, nextRun: Option<int>, lastRun: Option<int>, enabled: bool)

  type Windows = map<Id, Window>

  datatype Entry =
    | JobTried(tick: nat, window: Id, ok: bool)
    | AdvanceTried(tick: nat, window: Id, ok: bool)

  /** A tick body in flight: before its query, or working through the windows that were due. */
  datatype Body =
    | Starting
    | Working(now: int, snapshot: Windows, due: seq<Id>, done: nat, jobTried: bool)

  datatype State = State(running: bool, ticks: nat, windows: Windows, bodies: map<nat, Body>, log: seq<Entry>)

  datatype Event =
    | TimerFires
    | QueryFails(tick: nat)
    | QuerySucceeds(tick: nat, now: int, due: seq<Id>)
    | Job(tick: nat, ok: bool)
    | Advance(tick: nat, ok: bool, at: int, nextRun: Option<int>)
    | Finish(tick: nat, refreshed: Windows, at: int)
    | Edit(id: Id, window: Option<Window>)

  // ---------------------------------------------------------------- steps

  predicate IsDue(w: Window, now: int) {
    w.enabled && w.nextRun.Some? && w.nextRun.value <= now
  }

  /** The due windows of the snapshot, each once, in whatever order the query returned them. */
  predicate ListsDue(snapshot: Windows, now: int, due: seq<Id>) {
    && (forall id :: id in due ==> id in snapshot && IsDue(snapshot[id], now))
    && (forall id :: id in snapshot && IsDue(snapshot[id], now) ==> id in due)
    && (forall i, j :: 0 <= i < j < |due| ==> due[i] != due[j])
  }

  /** What the tick writes back for a window it has handled. */
  function Advanced(kind: Kind, window: Window, at: int, nextRun: Option<int>): Window {
    window.(nextRun := nextRun, lastRun := Some(at), enabled := nextRun.Some? || kind != Once)
  }

  /** Only recurring windows get a next run, and it lies after the moment it was computed. */
  predicate NextRunContract(kind: Kind, at: int, nextRun: Option<int>) {
    nextRun.Some? ==> kind == Recurring && at < nextRun.value
  }

  /** Refreshing fills in missing or stale runs of enabled recurring windows and touches nothing else. */
  predicate Refreshes(before: Windows, after: Windows, at: int) {
    && after.Keys == before.Keys
    && forall id :: id in before ==>
         || after[id] == before[id]
         || (&& before[id].enabled && before[id].kind == Recurring
             && (before[id].nextRun.Some? ==> before[id].nextRun.value <= at)
             && after[id].nextRun.Some? && at < after[id].nextRun.value
             && after[id] == before[id].(nextRun := after[id].nextRun))
  }

  predicate Enabled(s: State, e: Event) {
    match e
    case TimerFires => true
    case QueryFails(t) => t in s.bodies && s.bodies[t].Starting?
    case QuerySucceeds(t, now, due) => t in s.bodies && s.bodies[t].Starting? && ListsDue(s.windows, now, due)
    case Job(t, ok) =>
      t in s.bodies && s.bodies[t].Working? && s.bodies[t].done < |s.bodies[t].due| && !s.bodies[t].jobTried
    case Advance(t, ok, at, nextRun) =>
      && t in s.bodies && s.bodies[t].Working? && s.bodies[t].done < |s.bodies[t].due| && s.bodies[t].jobTried
      && s.bodies[t].now <= at
      && var id := s.bodies[t].due[s.bodies[t].done];
         && id in s.bodies[t].snapshot && NextRunContract(s.bodies[t].snapshot[id].kind, at, nextRun)
         && (ok ==> id in s.windows)        // updating a deleted row fails
    case Finish(t, refreshed, at) =>
      && t in s.bodies && s.bodies[t].Working? && s.bodies[t].done >= |s.bodies[t].due|
      && s.bodies[t].now <= at && Refreshes(s.windows, refreshed, at)
    case Edit(_, _) => true
  }

  function Next(s: State, e: Event): State
    requires Enabled(s, e)
  {
    match e
    case TimerFires =>
      if s.running then s
      else s.(running := true, ticks := s.ticks + 1, bodies := s.bodies[s.ticks + 1 := Starting])
    case QueryFails(t) =>
      s.(running := false, bodies := s.bodies - {t})
    case QuerySucceeds(t, now, due) =>
      s.(bodies := s.bodies[t := Working(now, s.windows, due, 0, false)])
    case Job(t, ok) =>
      var b := s.bodies[t];
      s.(bodies := s.bodies[t := b.(jobTried := true)], log := s.log + [JobTried(t, b.due[b.done], ok)])
    case Advance(t, ok, at, nextRun) =>
      var b := s.bodies[t];
      var id := b.due[b.done];
      s.(bodies := s.bodies[t := b.(done := b.done + 1, jobTried := false)],
         log := s.log + [AdvanceTried(t, id, ok)],
         windows := if ok then s.windows[id := Advanced(b.snapshot[id].kind, s.windows[id], at, nextRun)]
                    else s.windows)
    case Finish(t, refreshed, at) =>
      s.(running := false, bodies := s.bodies - {t}, windows := refreshed)
    case Edit(id, w) =>
      s.(windows := if w.Some? then s.windows[id := w.value] else s.windows - {id})
  }

  predicate IsRun(s: State, events: seq<Event>)
    decreases |events|
  {
    events == [] || (Enabled(s, events[0]) && IsRun(Next(s, events[0]), events[1..]))
  }

  function After(s: State, events: seq<Event>): State
    requires IsRun(s, events)
    decreases |events|
  {
    if events == [] then s else After(Next(s, events[0]), events[1..])
  }

  predicate Idle(s: State) {
    !s.running && s.bodies == map[] && s.log == []
  }

  // ---------------------------------------------------------------- ticks never overlap

  /** The guard flag says exactly whether the one possible body, that of the latest tick, is in flight. */
  predicate Exclusive(s: State) {
    s.bodies.Keys == if s.running then {s.ticks} else {}
  }

  /** The part of the log a tick has written: job and advance for each handled window, and the pending job. */
  function Attempts(log: seq<Entry>, t: nat): seq<(bool, Id)> {
    if log == [] then []
    else
      var e := log[|log| - 1];
      Attempts(log[..|log| - 1], t) + if e.tick == t then [(e.JobTried?, e.window)] else []
  }

  function Expected(due: seq<Id>, done: nat): seq<(bool, Id)>
    requires done <= |due|
  {
    if done == 0 then [] else Expected(due, done - 1) + [(true, due[done - 1]), (false, due[done - 1])]
  }

  /** What a body has left in the log, and that it lists what was due. */
  predicate BodySound(b: Body, log: seq<Entry>, t: nat) {
    match b
    case Starting => Attempts(log, t) == []
    case Working(now, snapshot, due, done, jobTried) =>
      && ListsDue(snapshot, now, due) && done <= |due| && (jobTried ==> done < |due|)
      && Attempts(log, t) == Expected(due, done) + if jobTried then [(true, due[done])] else []
  }

  predicate NoLaterThan(log: seq<Entry>, t: nat) { forall i :: 0 <= i < |log| ==> log[i].tick <= t }

  predicate Sound(s: State) {
    Exclusive(s) && (s.running ==> BodySound(s.bodies[s.ticks], s.log, s.ticks)) && NoLaterThan(s.log, s.ticks)
  }

  lemma {:induction false} NoAttemptsYet(log: seq<Entry>, t: nat)
    requires forall i :: 0 <= i < |log| ==> log[i].tick != t
    ensures Attempts(log, t) == []
    decreases |log|
  {
    if log == [] {
    } else {
      NoAttemptsYet(log[..|log| - 1], t);
    }
  }

  lemma {:induction false} LogStep(log: seq<Entry>, e: Entry, t: nat)
    ensures Attempts(log + [e], t) == Attempts(log, t) + if e.tick == t then [(e.JobTried?, e.window)] else []
  {
    assert (log + [e])[..|log|] == log;
  }

  lemma {:induction false} JobBodySound(b: Body, log: seq<Entry>, t: nat, ok: bool)
    requires BodySound(b, log, t) && b.Working? && b.done < |b.due| && !b.jobTried
    ensures BodySound(b.(jobTried := true), log + [JobTried(t, b.due[b.done], ok)], t)
  {
    LogStep(log, JobTried(t, b.due[b.done], ok), t);
  }

  lemma {:induction false} AdvanceBodySound(b: Body, log: seq<Entry>, t: nat, ok: bool)
    requires BodySound(b, log, t) && b.Working? && b.done < |b.due| && b.jobTried
    ensures BodySound(b.(done := b.done + 1, jobTried := false), log + [AdvanceTried(t, b.due[b.done], ok)], t)
  {
    LogStep(log, AdvanceTried(t, b.due[b.done], ok), t);
    var id := b.due[b.done];
    assert Expected(b.due, b.done) + [(true, id)] + [(false, id)]
           == Expected(b.due, b.done) + [(true, id), (false, id)];
  }

  lemma {:induction false} TimerSound(s: State)
    requires Sound(s)
    ensures Sound(Next(s, TimerFires))
  {
    if !s.running {
      NoAttemptsYet(s.log, s.ticks + 1);
    }
  }

  /** A body can only be that of the latest tick. */
  lemma {:induction false} OnlyLatest(s: State, t: nat)
    requires Exclusive(s) && t in s.bodies
    ensures s.running && t == s.ticks
  {}

  lemma {:induction false} JobSound(s: State, t: nat, ok: bool)
    requires Sound(s) && Enabled(s, Job(t, ok))
    ensures Sound(Next(s, Job(t, ok)))
  {
    OnlyLatest(s, t);
    JobBodySound(s.bodies[t], s.log, t, ok);
  }

  lemma {:induction false} AdvanceSound(s: State, e: Event)
    requires Sound(s) && Enabled(s, e) && e.Advance?
    ensures Sound(Next(s, e))
  {
    OnlyLatest(s, e.tick);
    AdvanceBodySound(s.bodies[e.tick], s.log, e.tick, e.ok);
  }

  lemma {:induction false} QuerySound(s: State, e: Event)
    requires Sound(s) && Enabled(s, e) && e.QuerySucceeds?
    ensures Sound(Next(s, e))
  {
    OnlyLatest(s, e.tick);
    assert Expected(e.due, 0) + [] == [];
  }

  lemma {:induction false} EndSound(s: State, e: Event)
    requires Sound(s) && Enabled(s, e) && (e.QueryFails? || e.Finish?)
    ensures Sound(Next(s, e))
  {
    OnlyLatest(s, e.tick);
    assert s.bodies.Keys - {e.tick} == {};
  }

  lemma {:induction false} StepSound(s: State, e: Event)
    requires Sound(s) && Enabled(s, e)
    ensures Sound(Next(s, e))
  {
    match e {
      case TimerFires => TimerSound(s);
      case QueryFails(_) => EndSound(s, e);
      case QuerySucceeds(_, _, _) => QuerySound(s, e);
      case Job(t, ok) => JobSound(s, t, ok);
      case Advance(_, _, _, _) => AdvanceSound(s, e);
      case Finish(_, _, _) => EndSound(s, e);
      case Edit(_, _) =>
    }
  }

  lemma {:induction false} RunsSound(s: State, events: seq<Event>)
    requires Sound(s) && IsRun(s, events)
    ensures Sound(After(s, events))
    decreases |events|
  {
    if events == [] {
    } else {
      StepSound(s, events[0]);
      RunsSound(Next(s, events[0]), events[1..]);
    }
  }

  /** However timer firings, failures and edits fall, at most one tick body is in flight. */
  lemma {:induction false} TicksNeverOverlap(s: State, events: seq<Event>)
    requires Idle(s) && IsRun(s, events)
    ensures |After(s, events).bodies| <= 1
    ensures After(s, events).running <==> |After(s, events).bodies| == 1
  {
    RunsSound(s, events);
    var s' := After(s, events);
    assert |s'.bodies| == |s'.bodies.Keys|;
  }

  /**
   When a tick is about to finish it has made, for each window that was due in its snapshot and for
   no other, one job attempt followed by one advance attempt, whatever failed in between.
   */
  lemma {:induction false} EachDueWindowOnce(s: State, events: seq<Event>, t: nat, refreshed: Windows, at: int)
    requires Idle(s) && IsRun(s, events) && Enabled(After(s, events), Finish(t, refreshed, at))
    ensures var end := After(s, events); var b := end.bodies[t];
            && ListsDue(b.snapshot, b.now, b.due)
            && Attempts(end.log, t) == Expected(b.due, |b.due|)
  {
    RunsSound(s, events);
  }

  // ---------------------------------------------------------------- one-time windows

  function JobTries(log: seq<Entry>, id: Id): nat {
    if log == [] then 0
    else
      var e := log[|log| - 1];
      JobTries(log[..|log| - 1], id) + if e.JobTried? && e.window == id then 1 else 0
  }

  function AdvanceTries(log: seq<Entry>, id: Id, ok: bool): nat {
    if log == [] then 0
    else
      var e := log[|log| - 1];
      AdvanceTries(log[..|log| - 1], id, ok) + if e.AdvanceTried? && e.window == id && e.ok == ok then 1 else 0
  }

  /** The body has tried the window's job and not yet its advance. */
  predicate PendingJob(b: Body, id: Id) {
    b.Working? && b.jobTried && b.done < |b.due| && b.due[b.done] == id
  }

  predicate Pending(s: State, id: Id) { s.ticks in s.bodies && PendingJob(s.bodies[s.ticks], id) }

  predicate Tallied(log: seq<Entry>, id: Id, pending: bool) {
    && JobTries(log, id) == AdvanceTries(log, id, true) + AdvanceTries(log, id, false) + (if pending then 1 else 0)
    && AdvanceTries(log, id, true) <= 1
  }

  /** The body has read a one-time window and, once an advance is written, does not have it before it any more. */
  predicate BodyOnce(b: Body, id: Id, written: bool) {
    b.Working? ==>
      && (id in b.snapshot ==> b.snapshot[id].kind == Once)
      && (written ==> forall i :: b.done <= i < |b.due| ==> b.due[i] != id)
  }

  predicate WindowOnce(windows: Windows, id: Id, written: bool) {
    id in windows && windows[id].kind == Once && (written ==> !windows[id].enabled)
  }

  /** A window whose advance was written is off, and no body still has it before it. */
  predicate OnceSound(s: State, id: Id) {
    var written := AdvanceTries(s.log, id, true) == 1;
    && WindowOnce(s.windows, id, written)
    && Tallied(s.log, id, Pending(s, id))
    && (s.ticks in s.bodies ==> BodyOnce(s.bodies[s.ticks], id, written))
  }

  predicate LeavesAlone(e: Event, id: Id) { e.Edit? ==> e.id != id }

  lemma {:induction false} CountStep(log: seq<Entry>, e: Entry, id: Id)
    ensures JobTries(log + [e], id) == JobTries(log, id) + if e.JobTried? && e.window == id then 1 else 0
    ensures forall ok :: (AdvanceTries(log + [e], id, ok)
              == AdvanceTries(log, id, ok) + if e.AdvanceTried? && e.window == id && e.ok == ok then 1 else 0)
  {
    assert (log + [e])[..|log|] == log;
  }

  lemma {:induction false} JobOnce(s: State, t: nat, ok: bool, id: Id)
    requires Sound(s) && OnceSound(s, id) && Enabled(s, Job(t, ok))
    ensures OnceSound(Next(s, Job(t, ok)), id)
  {
    OnlyLatest(s, t);
    CountStep(s.log, JobTried(t, s.bodies[t].due[s.bodies[t].done], ok), id);
  }

  /** Writing the advance of a one-time window turns it off; writing another leaves it alone. */
  lemma {:induction false} AdvanceWindow(s: State, e: Event, id: Id)
    requires Sound(s) && OnceSound(s, id) && Enabled(s, e) && e.Advance?
    ensures var b := s.bodies[e.tick]; var written := AdvanceTries(s.log, id, true) == 1;
            WindowOnce(Next(s, e).windows, id, written || (e.ok && b.due[b.done] == id))
  {
    OnlyLatest(s, e.tick);
  }

  lemma {:induction false} AdvanceBodyOnce(b: Body, id: Id, written: bool, ok: bool)
    requires b.Working? && b.done < |b.due| && ListsDue(b.snapshot, b.now, b.due) && BodyOnce(b, id, written)
    ensures BodyOnce(b.(done := b.done + 1, jobTried := false), id, written || (ok && b.due[b.done] == id))
  {}

  lemma {:induction false} AdvanceOnce(s: State, e: Event, id: Id)
    requires Sound(s) && OnceSound(s, id) && Enabled(s, e) && e.Advance?
    ensures OnceSound(Next(s, e), id)
  {
    OnlyLatest(s, e.tick);
    var b := s.bodies[e.tick];
    CountStep(s.log, AdvanceTried(e.tick, b.due[b.done], e.ok), id);
    AdvanceWindow(s, e, id);
    AdvanceBodyOnce(b, id, AdvanceTries(s.log, id, true) == 1, e.ok);
  }

  lemma {:induction false} QueryOnce(s: State, e: Event, id: Id)
    requires Sound(s) && OnceSound(s, id) && Enabled(s, e) && e.QuerySucceeds?
    ensures OnceSound(Next(s, e), id)
  {
    OnlyLatest(s, e.tick);
    forall i | 0 <= i < |e.due| && !s.windows[id].enabled
      ensures e.due[i] != id
    {
      assert e.due[i] in e.due;
    }
  }

  lemma {:induction false} EndOnce(s: State, e: Event, id: Id)
    requires Sound(s) && OnceSound(s, id) && Enabled(s, e) && (e.QueryFails? || e.Finish?)
    ensures OnceSound(Next(s, e), id)
  {
    OnlyLatest(s, e.tick);
    assert !Pending(s, id);
  }

  lemma {:induction false} StepOnceSound(s: State, e: Event, id: Id)
    requires Sound(s) && OnceSound(s, id) && Enabled(s, e) && LeavesAlone(e, id)
    ensures OnceSound(Next(s, e), id)
  {
    match e {
      case TimerFires =>
        assert !s.running ==> !Pending(s, id);
      case QueryFails(_) => EndOnce(s, e, id);
      case QuerySucceeds(_, _, _) => QueryOnce(s, e, id);
      case Job(t, ok) => JobOnce(s, t, ok, id);
      case Advance(_, _, _, _) => AdvanceOnce(s, e, id);
      case Finish(_, _, _) => EndOnce(s, e, id);
      case Edit(_, _) =>
    }
  }

  lemma {:induction false} RunsOnceSound(s: State, events: seq<Event>, id: Id)
    requires Sound(s) && OnceSound(s, id) && IsRun(s, events)
    requires forall i :: 0 <= i < |events| ==> LeavesAlone(events[i], id)
    ensures OnceSound(After(s, events), id)
    decreases |events|
  {
    if events == [] {
    } else {
      StepSound(s, events[0]);
      StepOnceSound(s, events[0], id);
      RunsOnceSound(Next(s, events[0]), events[1..], id);
    }
  }

  /**
   A one-time window nobody edits is triggered at most once more than its advance write fails; once a
   write has succeeded it is off, and it is never triggered again.
   */
  lemma {:induction false} OneTimeWindowRunsOnce(s: State, events: seq<Event>, id: Id)
    requires Idle(s) && IsRun(s, events) && id in s.windows && s.windows[id].kind == Once
    requires forall i :: 0 <= i < |events| ==> LeavesAlone(events[i], id)
    ensures var log := After(s, events).log;
            && JobTries(log, id) <= AdvanceTries(log, id, false) + 1
            && AdvanceTries(log, id, true) <= 1
            && id in After(s, events).windows
            && (AdvanceTries(log, id, true) == 1 ==>
                  !After(s, events).windows[id].enabled && JobTries(log, id) == AdvanceTries(log, id, false) + 1)
  {
    RunsOnceSound(s, events, id);
  }

  // ---------------------------------------------------------------- nothing due is left behind

  predicate Written(log: seq<Entry>, t: nat, id: Id) {
    AdvanceTried(t, id, true) in log
  }

  /**
   If the tick in flight has written the window, it has handled it, and it is not due at the tick's `now` any
   more.
   */
  predicate HandledSound(s: State, id: Id) {
    s.ticks in s.bodies && Written(s.log, s.ticks, id) ==>
      && s.bodies[s.ticks].Working?
      && id in s.windows && !IsDue(s.windows[id], s.bodies[s.ticks].now)
  }

  lemma {:induction false} TimerHandled(s: State, id: Id)
    requires Sound(s) && HandledSound(s, id)
    ensures HandledSound(Next(s, TimerFires), id)
  {
    if !s.running {
      assert !Written(s.log, s.ticks + 1, id) by {
        assert NoLaterThan(s.log, s.ticks);
      }
    }
  }

  lemma {:induction false} AdvanceHandled(s: State, e: Event, id: Id)
    requires Sound(s) && HandledSound(s, id) && Enabled(s, e) && e.Advance?
    ensures HandledSound(Next(s, e), id)
  {
    OnlyLatest(s, e.tick);
    var b := s.bodies[e.tick];
    var entry := AdvanceTried(e.tick, b.due[b.done], e.ok);
    assert Written(s.log + [entry], e.tick, id) <==> Written(s.log, e.tick, id) || (e.ok && b.due[b.done] == id);
  }

  lemma {:induction false} JobHandled(s: State, t: nat, ok: bool, id: Id)
    requires Sound(s) && HandledSound(s, id) && Enabled(s, Job(t, ok))
    ensures HandledSound(Next(s, Job(t, ok)), id)
  {
    OnlyLatest(s, t);
    var entry := JobTried(t, s.bodies[t].due[s.bodies[t].done], ok);
    assert Written(s.log + [entry], t, id) <==> Written(s.log, t, id);
  }

  lemma {:induction false} EndHandled(s: State, e: Event, id: Id)
    requires Sound(s) && Enabled(s, e) && (e.QueryFails? || e.Finish? || e.QuerySucceeds?)
    requires HandledSound(s, id)
    ensures HandledSound(Next(s, e), id)
  {
    OnlyLatest(s, e.tick);
  }

  lemma {:induction false} StepHandled(s: State, e: Event, id: Id)
    requires Sound(s) && HandledSound(s, id) && Enabled(s, e) && LeavesAlone(e, id)
    ensures HandledSound(Next(s, e), id)
  {
    match e {
      case TimerFires => TimerHandled(s, id);
      case QueryFails(_) => EndHandled(s, e, id);
      case QuerySucceeds(_, _, _) => EndHandled(s, e, id);
      case Job(t, ok) => JobHandled(s, t, ok, id);
      case Advance(_, _, _, _) => AdvanceHandled(s, e, id);
      case Finish(_, _, _) => EndHandled(s, e, id);
      case Edit(_, _) =>
    }
  }

  lemma {:induction false} RunsHandled(s: State, events: seq<Event>, id: Id)
    requires Sound(s) && HandledSound(s, id) && IsRun(s, events)
    requires forall i :: 0 <= i < |events| ==> LeavesAlone(events[i], id)
    ensures HandledSound(After(s, events), id)
    decreases |events|
  {
    if events == [] {
    } else {
      StepSound(s, events[0]);
      StepHandled(s, events[0], id);
      RunsHandled(Next(s, events[0]), events[1..], id);
    }
  }

  /** A tick that finishes leaves a window it has written, and that nobody has edited, not due at its own `now`. */
  lemma {:induction false} WrittenWindowsNoLongerDue(s: State, events: seq<Event>, t: nat, refreshed: Windows, at: int,
                                                     id: Id)
    requires Idle(s) && IsRun(s, events) && Enabled(After(s, events), Finish(t, refreshed, at))
    requires forall i :: 0 <= i < |events| ==> LeavesAlone(events[i], id)
    requires Written(After(s, events).log, t, id)
    ensures id in refreshed && !IsDue(refreshed[id], After(s, events).bodies[t].now)
  {
    RunsSound(s, events);
    RunsHandled(s, events, id);
    OnlyLatest(After(s, events), t);
  }

  /** Nobody writes a window on the tick's behalf that was not due: a written window is one of the tick's due ones. */
  lemma {:induction false} WrittenWindowsWereDue(s: State, events: seq<Event>, t: nat, refreshed: Windows, at: int,
                                                 id: Id)
    requires Idle(s) && IsRun(s, events) && Enabled(After(s, events), Finish(t, refreshed, at))
    requires Written(After(s, events).log, t, id)
    ensures id in After(s, events).bodies[t].due
  {
    EachDueWindowOnce(s, events, t, refreshed, at);
    var end := After(s, events);
    AttemptOfWrite(end.log, t, id);
    ExpectedAreDue(end.bodies[t].due, |end.bodies[t].due|, id);
  }

  lemma {:induction false} AttemptOfWrite(log: seq<Entry>, t: nat, id: Id)
    requires Written(log, t, id)
    ensures (false, id) in Attempts(log, t)
    decreases |log|
  {
    var n := |log| - 1;
    if log[n] == AdvanceTried(t, id, true) {
      assert Attempts(log, t)[|Attempts(log, t)| - 1] == (false, id);
    } else {
      assert log == log[..n] + [log[n]];
      AttemptOfWrite(log[..n], t, id);
    }
  }

  lemma {:induction false} ExpectedAreDue(due: seq<Id>, done: nat, id: Id)
    requires done <= |due| && (false, id) in Expected(due, done)
    ensures id in due
  {
    if due[done - 1] != id {
      ExpectedAreDue(due, done - 1, id);
    }
  }

  // ---------------------------------------------------------------- the tick body

  const MINUTE := 60 * 1000

  /** The search stops after 35 days. */
  const HORIZON := 50400

  function FirstCandidate(after: int): int { after / MINUTE * MINUTE + MINUTE }

  /**
   The next minute a cron expression matches, in milliseconds; `parses` and `matches` stand for its
   five fields in the window's time zone. The result is the first matching minute after `after`.
   */
  method ComputeNextRun(parses: bool, matches: int -> bool, after: int) returns (next: Option<int>)
    ensures next.Some? ==> after < next.value && matches(next.value)
    ensures next.Some? ==> exists i :: 0 <= i < HORIZON && next.value == FirstCandidate(after) + i * MINUTE
                                       && forall j :: 0 <= j < i ==> !matches(FirstCandidate(after) + j * MINUTE)
    ensures next.None? && parses ==> forall j :: 0 <= j < HORIZON ==> !matches(FirstCandidate(after) + j * MINUTE)
    ensures !parses ==> next.None?
  {
    if !parses {
      return None;
    }
    var candidate := FirstCandidate(after);
    for i := 0 to HORIZON
      invariant candidate == FirstCandidate(after) + i * MINUTE
      invariant forall j :: 0 <= j < i ==> !matches(FirstCandidate(after) + j * MINUTE)
    {
      if matches(candidate) {
        return Some(candidate);
      }
      candidate := candidate + MINUTE;
    }
    return None;
  }

  /** In milliseconds: the whole minutes after a moment, up to 35 days, are the candidates in their order. */
  lemma {:induction false} CandidatesAreMinutes(after: int, m: int)
    ensures (exists j :: 0 <= j < HORIZON && m == FirstCandidate(after) + j * MINUTE)
            <==> m % 60000 == 0 && after < m <= after + 35 * 24 * 60 * 60000
  {
    if m % 60000 == 0 && after < m <= after + 35 * 24 * 60 * 60000 {
      var j := (m - FirstCandidate(after)) / 60000;
      assert m == FirstCandidate(after) + j * MINUTE;
    }
  }

  /** How the calls for one due window turn out. */
  datatype Answer = Answer(jobOk: bool, writeOk: bool, at: int, nextRun: Option<int>)

  function Due(listed: seq<Id>, windows: Windows, now: int): seq<Id> {
    if listed == [] then []
    else
      var last := listed[|listed| - 1];
      Due(listed[..|listed| - 1], windows, now)
      + if last in windows && IsDue(windows[last], now) then [last] else []
  }

  function WriteOne(snapshot: Windows, windows: Windows, id: Id, a: Answer): Windows {
    if a.writeOk && id in windows && id in snapshot
    then windows[id := Advanced(snapshot[id].kind, windows[id], a.at,
                                if snapshot[id].kind == Recurring then a.nextRun else None)]
    else windows
  }

  function WrittenAll(snapshot: Windows, due: seq<Id>, answers: nat -> Answer): Windows {
    if due == [] then snapshot
    else WriteOne(snapshot, WrittenAll(snapshot, due[..|due| - 1], answers), due[|due| - 1], answers(|due| - 1))
  }

  function TickLog(t: nat, due: seq<Id>, answers: nat -> Answer): seq<Entry> {
    if due == [] then []
    else
      var i := |due| - 1;
      TickLog(t, due[..i], answers)
      + [JobTried(t, due[i], answers(i).jobOk), AdvanceTried(t, due[i], answers(i).writeOk)]
  }

  /** Filtering a listing of the enabled windows leaves exactly the due ones, each once. */
  lemma {:induction false} DueLists(listed: seq<Id>, windows: Windows, now: int)
    requires forall i, j :: 0 <= i < j < |listed| ==> listed[i] != listed[j]
    ensures forall id :: id in Due(listed, windows, now) <==>
              id in listed && id in windows
              && windows[id].enabled && windows[id].nextRun.Some? && windows[id].nextRun.value <= now
    ensures forall i, j | 0 <= i < j < |Due(listed, windows, now)| ::
              Due(listed, windows, now)[i] != Due(listed, windows, now)[j]
    decreases |listed|
  {
    if listed == [] {
    } else {
      var init := listed[..|listed| - 1];
      DueLists(init, windows, now);
      assert listed == init + [listed[|listed| - 1]];
      assert listed[|listed| - 1] !in init;
    }
  }

  /** What the writes of a tick leave, window by window. */
  lemma {:induction false} WrittenAllExact(snapshot: Windows, due: seq<Id>, answers: nat -> Answer)
    requires forall i, j :: 0 <= i < j < |due| ==> due[i] != due[j]
    ensures WrittenAll(snapshot, due, answers).Keys == snapshot.Keys
    ensures forall id :: id in snapshot && id !in due ==> WrittenAll(snapshot, due, answers)[id] == snapshot[id]
    ensures forall i :: 0 <= i < |due| && due[i] in snapshot ==>
              var w, a := snapshot[due[i]], answers(i);
              var run := if w.kind == Recurring then a.nextRun else None;
              WrittenAll(snapshot, due, answers)[due[i]]
              == if a.writeOk then Window(w.kind, run, Some(a.at), run.Some? || w.kind != Once) else w
    decreases |due|
  {
    if due == [] {
    } else {
      var n := |due| - 1;
      WrittenAllExact(snapshot, due[..n], answers);
      assert due == due[..n] + [due[n]];
      assert due[n] !in due[..n];
    }
  }

  /** A tick logs a job attempt and then an advance attempt for each due window, in order. */
  lemma {:induction false} TickLogExact(t: nat, due: seq<Id>, answers: nat -> Answer)
    ensures |TickLog(t, due, answers)| == 2 * |due|
    ensures forall i :: 0 <= i < |due| ==>
              && TickLog(t, due, answers)[2 * i] == JobTried(t, due[i], answers(i).jobOk)
              && TickLog(t, due, answers)[2 * i + 1] == AdvanceTried(t, due[i], answers(i).writeOk)
    decreases |due|
  {
    if due == [] {
    } else {
      TickLogExact(t, due[..|due| - 1], answers);
    }
  }

  /** A window the refresh must give a next run: enabled, recurring, with no run after `at`. */
  predicate LacksRun(w: Window, at: int) {
    w.enabled && w.kind == Recurring && (w.nextRun.Some? ==> w.nextRun.value <= at)
  }

  /** The next run of each window in `order` that lacks one is what computing it gives; nothing else changes. */
  predicate Refreshed(before: Windows, after: Windows, order: seq<Id>, at: int, next: Id -> Option<int>) {
    && after.Keys == before.Keys
    && forall id :: id in before ==>
         after[id] == if id in order && LacksRun(before[id], at) && next(id).Some?
                      then before[id].(nextRun := next(id)) else before[id]
  }

  /** No window is left without a future run that could have one. */
  lemma {:induction false} RefreshLeavesNoneBehind(before: Windows, after: Windows, order: seq<Id>, at: int,
                                                   next: Id -> Option<int>, id: Id)
    requires Refreshed(before, after, order, at, next) && (forall i :: next(i).Some? ==> at < next(i).value)
    requires id in before && id in order && before[id].enabled && before[id].kind == Recurring && next(id).Some?
    ensures after[id].nextRun.Some? && at < after[id].nextRun.value
    ensures before[id].nextRun.Some? && at < before[id].nextRun.value ==> after[id] == before[id]
  {}

  lemma {:induction false} RefreshedRefreshes(before: Windows, after: Windows, order: seq<Id>, at: int,
                                              next: Id -> Option<int>)
    requires Refreshed(before, after, order, at, next) && forall id :: next(id).Some? ==> at < next(id).value
    ensures Refreshes(before, after, at)
  {}

  class PatchScheduler {
    var running: bool
    var tickCount: nat
    var windows: Windows
    var log: seq<Entry>

    constructor (windows: Windows)
      ensures !running && tickCount == 0 && this.windows == windows && log == []
    {
      running, tickCount, log := false, 0, [];
      this.windows := windows;
    }

    /** `next(id)` is what computing the next run of a window gives at the moment `at`. */
    method RefreshWindowSchedules(order: seq<Id>, at: int, next: Id -> Option<int>)
      requires forall id :: next(id).Some? ==> at < next(id).value
      modifies `windows
      ensures windows.Keys == old(windows).Keys
      ensures forall id :: id in windows && id in order && LacksRun(old(windows)[id], at) && next(id).Some? ==>
                windows[id] == old(windows)[id].(nextRun := next(id))
      ensures forall id :: id in windows && !(id in order && LacksRun(old(windows)[id], at) && next(id).Some?) ==>
                windows[id] == old(windows)[id]
    {
      ghost var before := windows;
      for i := 0 to |order|
        invariant Refreshed(before, windows, order[..i], at, next)
      {
        var id := order[i];
        assert order[..i + 1] == order[..i] + [id];
        if id in windows && windows[id].enabled && windows[id].kind == Recurring {
          if windows[id].nextRun.Some? && windows[id].nextRun.value > at {
            continue;
          }
          if next(id).Some? {
            windows := windows[id := windows[id].(nextRun := next(id))];
          }
        }
      }
      assert order[..|order|] == order;
    }

    /** The loop over the due windows: a job attempt and an advance attempt each. */
    method HandleDue(due: seq<Id>, answers: nat -> Answer)
      modifies `windows, `log
      ensures log == old(log) + TickLog(tickCount, due, answers)
      ensures windows == WrittenAll(old(windows), due, answers)
    {
      var snapshot := windows;
      for i := 0 to |due|
        invariant log == old(log) + TickLog(tickCount, due[..i], answers)
        invariant windows == WrittenAll(snapshot, due[..i], answers)
      {
        assert due[..i + 1][..i] == due[..i];
        var id, a := due[i], answers(i);
        log := log + [JobTried(tickCount, id, a.jobOk)];
        if a.writeOk && id in windows && id in snapshot {
          var nextRun := if snapshot[id].kind == Recurring then a.nextRun else None;
          windows := windows[id := Advanced(snapshot[id].kind, windows[id], a.at, nextRun)];
        }
        log := log + [AdvanceTried(tickCount, id, a.writeOk)];
      }
      assert due[..|due|] == due;
    }

    /**
     One firing of the timer with nobody else writing meanwhile. A tick in progress makes it do nothing;
     otherwise the flag is down again afterwards, whatever failed.
     */
    method Tick(queryOk: bool, now: int, listed: seq<Id>, answers: nat -> Answer, at: int, next: Id -> Option<int>)
      requires forall id :: next(id).Some? ==> at < next(id).value
      modifies this
      ensures old(running) ==> running && tickCount == old(tickCount) && windows == old(windows) && log == old(log)
      ensures !old(running) ==> !running && tickCount == old(tickCount) + 1
      ensures !old(running) && !queryOk ==> windows == old(windows) && log == old(log)
      ensures !old(running) && queryOk ==>
                var due := Due(listed, old(windows), now);
                && log == old(log) + TickLog(tickCount, due, answers)
                && Refreshed(WrittenAll(old(windows), due, answers), windows, listed, at, next)
    {
      if running {
        return;
      }
      running := true;
      tickCount := tickCount + 1;
      if !queryOk {
        running := false;
        return;
      }
      var due := Due(listed, windows, now);
      HandleDue(due, answers);
      RefreshWindowSchedules(listed, at, next);
      running := false;
    }
  }
}
