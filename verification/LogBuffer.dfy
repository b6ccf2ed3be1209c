/**
 The bounded buffer of log entries that are shipped to the server.

 `Hook` keeps a Go slice: a backing array, an offset and a length. Appending writes into spare
 capacity or moves to a new array of a size the runtime chooses; a drained slice keeps its array.
 Its methods refine `Push`; the laws of whole runs are stated on `Step`.
 */
module LogBuffer {
  import opened Options

  datatype Entry = Entry(level: string, source: string, message: string, metadata: Option<map<string, string>>)

  /** A logrus entry; its field values are already strings. */
  datatype LogrusEntry = LogrusEntry(level: string, message: string, data: map<string, string>)

  const SOURCE_KEYS := ["integration", "component", "module", "source"]

  /** The first of the source fields that is present. */
  function SourceFrom(data: map<string, string>, keys: seq<string>): string {
    if keys == [] then "" else if keys[0] in data then data[keys[0]] else SourceFrom(data, keys[1..])
  }

  function MetadataOf(data: map<string, string>): Option<map<string, string>> {
    var rest := map k | k in data && k !in SOURCE_KEYS :: data[k];
    if rest == map[] then None else Some(rest)
  }

  function Captured(l: LogrusEntry): Entry {
    Entry(l.level, SourceFrom(l.data, SOURCE_KEYS), l.message, MetadataOf(l.data))
  }

  /** The source is the first of four fields that is there; the other fields, if there are any, are the metadata. */
  lemma {:induction false} CapturedMeaning(l: LogrusEntry)
    ensures Captured(l).level == l.level && Captured(l).message == l.message
    ensures Captured(l).source
            == if "integration" in l.data then l.data["integration"]
               else if "component" in l.data then l.data["component"]
               else if "module" in l.data then l.data["module"]
               else if "source" in l.data then l.data["source"] else ""
    ensures Captured(l).metadata.None? <==> l.data.Keys <= {"integration", "component", "module", "source"}
    ensures Captured(l).metadata.Some? ==>
              && Captured(l).metadata.value.Keys == l.data.Keys - {"integration", "component", "module", "source"}
              && forall k :: k in Captured(l).metadata.value ==> Captured(l).metadata.value[k] == l.data[k]
  {
    FourSources(l.data);
    var rest := map k | k in l.data && k !in SOURCE_KEYS :: l.data[k];
    assert forall k :: k in SOURCE_KEYS <==> k in {"integration", "component", "module", "source"};
    assert rest.Keys == l.data.Keys - {"integration", "component", "module", "source"};
    assert rest == map[] <==> rest.Keys == {};
  }

  lemma {:induction false} SourceStep(data: map<string, string>, keys: seq<string>, i: nat)
    requires i < |keys|
    ensures SourceFrom(data, keys[i..]) == if keys[i] in data then data[keys[i]] else SourceFrom(data, keys[i + 1..])
  {
    assert keys[i..][1..] == keys[i + 1..];
  }

  lemma {:induction false} FourSources(data: map<string, string>)
    ensures SourceFrom(data, SOURCE_KEYS)
            == if "integration" in data then data["integration"]
               else if "component" in data then data["component"]
               else if "module" in data then data["module"]
               else if "source" in data then data["source"] else ""
  {
    var keys := SOURCE_KEYS;
    SourceStep(data, keys, 3);
    SourceStep(data, keys, 2);
    SourceStep(data, keys, 1);
    SourceStep(data, keys, 0);
    assert keys[0..] == keys && keys[4..] == [];
  }

  // ---------------------------------------------------------------- the buffer as a value

  function Push(buf: seq<Entry>, e: Entry, max: nat): seq<Entry> {
    if |buf| >= max && buf != [] then buf[1..] + [e] else buf + [e]
  }

  function PushAll(buf: seq<Entry>, es: seq<Entry>, max: nat): seq<Entry> {
    if es == [] then buf else Push(PushAll(buf, es[..|es| - 1], max), es[|es| - 1], max)
  }

  /** The newest `max` of the entries. */
  function LastN(es: seq<Entry>, max: nat): seq<Entry> {
    if |es| <= max then es else es[|es| - max..]
  }

  lemma {:induction false} PushIsLastN(es: seq<Entry>, e: Entry, max: nat)
    requires max > 0
    ensures Push(LastN(es, max), e, max) == LastN(es + [e], max)
  {}

  lemma {:induction false} PushAllIsLastN(before: seq<Entry>, es: seq<Entry>, max: nat)
    requires max > 0
    ensures PushAll(LastN(before, max), es, max) == LastN(before + es, max)
    decreases |es|
  {
    if es == [] {
      assert before + es == before;
    } else {
      var init, last := es[..|es| - 1], es[|es| - 1];
      PushAllIsLastN(before, init, max);
      PushIsLastN(before + init, last, max);
      assert before + es == before + init + [last];
    }
  }

  // ---------------------------------------------------------------- the hook

  /** A Go slice; Nil is the nil slice. */
  datatype Slice = Nil | Slice(data: array<Entry>, off: nat, len: nat)

  ghost predicate InRange(s: Slice) {
    s.Slice? ==> s.off + s.len <= s.data.Length
  }

  ghost function Elements(s: Slice): seq<Entry>
    requires InRange(s)
    reads if s.Slice? then {s.data} else {}
  {
    match s
    case Nil => []
    case Slice(data, off, len) => data[off..off + len]
  }

  class Hook {
    var data: array<Entry>
    var off: nat
    var len: nat
    const maxSize: nat

    ghost predicate Valid()
      reads this
    {
      off + len <= data.Length && 0 < maxSize && len <= maxSize
    }

    ghost function Contents(): seq<Entry>
      requires Valid()
      reads this, data
    {
      data[off..off + len]
    }

    constructor (size: int)
      ensures Valid() && fresh(data) && Contents() == []
      ensures maxSize == if size <= 0 then 2000 else size
    {
      maxSize := if size <= 0 then 2000 else size;
      data := new Entry[if size <= 0 then 2000 else size](_ => Entry("", "", "", None));
      off, len := 0, 0;
    }

    /** append(entries, e), or append(entries[1:], e) when the buffer is full. */
    method Append(e: Entry)
      requires Valid()
      modifies this, data
      ensures Valid() && (data == old(data) || fresh(data))
      ensures Contents() == Push(old(Contents()), e, maxSize)
    {
      ghost var was := Contents();
      if len >= maxSize {
        off, len := off + 1, len - 1;
      }
      ghost var kept := data[off..off + len];
      assert kept + [e] == Push(was, e, maxSize);
      if off + len < data.Length {
        data[off + len] := e;
      } else {
        Move(e);
      }
      len := len + 1;
      assert data[off..off + len] == kept + [e];
    }

    /** Growing: the elements move to a new array of a size the runtime chooses, with `e` behind them. */
    method Move(e: Entry)
      requires off + len <= data.Length
      modifies this
      ensures fresh(data) && off == 0 && len == old(len) < data.Length
      ensures data[..len] == old(data[off..off + len]) && data[len] == e
    {
      var capacity :| capacity > len;
      var moved := new Entry[capacity](_ => e);
      forall i | 0 <= i < len {
        moved[i] := data[off + i];
      }
      data, off := moved, 0;
    }

    method Fire(l: LogrusEntry)
      requires Valid()
      modifies this, data
      ensures Valid() && (data == old(data) || fresh(data))
      ensures Contents() == Push(old(Contents()), Captured(l), maxSize)
    {
      var source := "";
      for i := 0 to |SOURCE_KEYS|
        invariant source == "" && SourceFrom(l.data, SOURCE_KEYS) == SourceFrom(l.data, SOURCE_KEYS[i..])
      {
        if SOURCE_KEYS[i] in l.data {
          source := l.data[SOURCE_KEYS[i]];
          break;
        }
      }
      Append(Entry(l.level, source, l.message, MetadataOf(l.data)));
    }

    method Inject(extra: seq<Entry>)
      requires Valid()
      modifies this, data
      ensures Valid() && (data == old(data) || fresh(data))
      ensures Contents() == PushAll(old(Contents()), extra, maxSize)
    {
      for i := 0 to |extra|
        invariant Valid() && (data == old(data) || fresh(data))
        invariant Contents() == PushAll(old(Contents()), extra[..i], maxSize)
      {
        assert extra[..i + 1][..i] == extra[..i];
        Append(extra[i]);
      }
      assert extra[..|extra|] == extra;
    }

    /** The caller owns the result: the hook goes on with a new array. */
    method Drain() returns (out: Slice)
      requires Valid()
      modifies this
      ensures Valid() && Contents() == []
      ensures InRange(out) && Elements(out) == old(Contents())
      ensures out == Nil <==> old(Contents()) == []
      ensures if out.Slice? then out.data == old(data) && fresh(data) else data == old(data)
    {
      if len == 0 {
        return Nil;
      }
      out := Slice(data, off, len);
      data := new Entry[maxSize](_ => Entry("", "", "", None));
      off, len := 0, 0;
    }

    method Len() returns (n: nat)
      requires Valid()
      ensures n == |Contents()|
    {
      n := len;
    }
  }

  // ---------------------------------------------------------------- whole runs

  datatype Op = FireOp(l: LogrusEntry) | InjectOp(extra: seq<Entry>) | DrainOp

  /** Whatever is done with the hook afterwards, and however its array is reused, a drained slice stays as it was. */
  method DrainedSliceIsStable(h: Hook, ops: seq<Op>) returns (out: Slice)
    requires h.Valid()
    modifies h, h.data
    ensures h.Valid() && InRange(out) && Elements(out) == old(h.Contents())
  {
    out := h.Drain();
    for i := 0 to |ops|
      invariant h.Valid() && InRange(out) && (out.Slice? ==> fresh(h.data) && out.data != h.data)
      invariant out.Nil? ==> h.data == old(h.data) || fresh(h.data)
      invariant Elements(out) == old(h.Contents())
    {
      match ops[i] {
        case FireOp(l) => h.Fire(l);
        case InjectOp(extra) => h.Inject(extra);
        case DrainOp => var _ := h.Drain();
      }
    }
  }

  /**
   The buffer and the batches drained so far; beside them, the entries of each closed interval and of the open
   one.
   */
  datatype State = State(buf: seq<Entry>, batches: seq<seq<Entry>>, intervals: seq<seq<Entry>>, since: seq<Entry>)

  function Step(s: State, op: Op, max: nat): State {
    match op
    case FireOp(l) => s.(buf := Push(s.buf, Captured(l), max), since := s.since + [Captured(l)])
    case InjectOp(extra) => s.(buf := PushAll(s.buf, extra, max), since := s.since + extra)
    case DrainOp => State([], s.batches + [s.buf], s.intervals + [s.since], [])
  }

  function Run(ops: seq<Op>, max: nat): State {
    if ops == [] then State([], [], [], []) else Step(Run(ops[..|ops| - 1], max), ops[|ops| - 1], max)
  }

  function Flatten(parts: seq<seq<Entry>>): seq<Entry> {
    if parts == [] then [] else Flatten(parts[..|parts| - 1]) + parts[|parts| - 1]
  }

  /** In every run the buffer holds the newest entries since the last drain, and so did every batch. */
  lemma {:induction false} RunKeepsNewest(ops: seq<Op>, max: nat)
    requires max > 0
    ensures var s := Run(ops, max);
            && s.buf == LastN(s.since, max)
            && |s.batches| == |s.intervals|
            && (forall i :: 0 <= i < |s.batches| ==> s.batches[i] == LastN(s.intervals[i], max))
            && (if |s.since| <= max then s.buf == s.since else s.buf == s.since[|s.since| - max..])
    decreases |ops|
  {
    if ops == [] {
    } else {
      RunKeepsNewest(ops[..|ops| - 1], max);
      var s, op := Run(ops[..|ops| - 1], max), ops[|ops| - 1];
      match op {
        case FireOp(l) => PushIsLastN(s.since, Captured(l), max);
        case InjectOp(extra) => PushAllIsLastN(s.since, extra, max);
        case DrainOp =>
      }
    }
  }

  /** `a` is what is left of `b` after dropping some entries. */
  predicate Subsequence(a: seq<Entry>, b: seq<Entry>)
    decreases |b|
  {
    a == [] || (b != [] && ((a[|a| - 1] == b[|b| - 1] && Subsequence(a[..|a| - 1], b[..|b| - 1]))
                            || Subsequence(a, b[..|b| - 1])))
  }

  lemma {:induction false} SubsequenceRefl(a: seq<Entry>)
    ensures Subsequence(a, a)
  {
    if a == [] {
    } else {
      SubsequenceRefl(a[..|a| - 1]);
    }
  }

  lemma {:induction false} SubsequenceAppend(a: seq<Entry>, b: seq<Entry>, c: seq<Entry>, d: seq<Entry>)
    requires Subsequence(a, b) && Subsequence(c, d)
    ensures Subsequence(a + c, b + d)
    decreases |d|
  {
    if d == [] {
      assert c == [] && a + c == a && b + d == b;
    } else if c == [] {
      SubsequenceAppend(a, b, c, d[..|d| - 1]);
      assert (b + d)[..|b + d| - 1] == b + d[..|d| - 1];
    } else {
      assert (b + d)[..|b + d| - 1] == b + d[..|d| - 1];
      assert (a + c)[..|a + c| - 1] == a + c[..|c| - 1];
      if c[|c| - 1] == d[|d| - 1] && Subsequence(c[..|c| - 1], d[..|d| - 1]) {
        SubsequenceAppend(a, b, c[..|c| - 1], d[..|d| - 1]);
      } else {
        SubsequenceAppend(a, b, c, d[..|d| - 1]);
      }
    }
  }

  lemma {:induction false} LastNSubsequence(es: seq<Entry>, max: nat)
    ensures Subsequence(LastN(es, max), es)
  {
    if |es| <= max {
      SubsequenceRefl(es);
    } else {
      var cut := |es| - max;
      assert es == es[..cut] + es[cut..] && LastN(es, max) == [] + es[cut..];
      SubsequenceRefl(es[cut..]);
      SubsequenceAppend([], es[..cut], es[cut..], es[cut..]);
    }
  }

  /** No interval logged more than the buffer holds. */
  predicate AllWithin(intervals: seq<seq<Entry>>, max: nat) {
    intervals == [] || (|intervals[|intervals| - 1]| <= max && AllWithin(intervals[..|intervals| - 1], max))
  }

  ghost predicate NewestOf(batches: seq<seq<Entry>>, intervals: seq<seq<Entry>>, max: nat) {
    |batches| == |intervals| && forall i :: 0 <= i < |batches| ==> batches[i] == LastN(intervals[i], max)
  }

  lemma {:induction false} BatchesSubsequence(batches: seq<seq<Entry>>, intervals: seq<seq<Entry>>, max: nat)
    requires NewestOf(batches, intervals, max)
    ensures Subsequence(Flatten(batches), Flatten(intervals))
    decreases |batches|
  {
    if batches == [] {
    } else {
      var n := |batches| - 1;
      BatchesSubsequence(batches[..n], intervals[..n], max);
      LastNSubsequence(intervals[n], max);
      SubsequenceAppend(Flatten(batches[..n]), Flatten(intervals[..n]), batches[n], intervals[n]);
    }
  }

  lemma {:induction false} LosslessIffWithin(batches: seq<seq<Entry>>, intervals: seq<seq<Entry>>, max: nat)
    requires NewestOf(batches, intervals, max)
    ensures |Flatten(batches)| <= |Flatten(intervals)|
    ensures |Flatten(batches)| == |Flatten(intervals)| <==> AllWithin(intervals, max)
    ensures AllWithin(intervals, max) ==> Flatten(batches) == Flatten(intervals)
    decreases |batches|
  {
    if batches == [] {
    } else {
      var n := |batches| - 1;
      LosslessIffWithin(batches[..n], intervals[..n], max);
    }
  }

  /**
   Over every run the drained batches, one after the other, are an order-preserving part of everything
   logged before the last drain, and they are all of it exactly when no interval exceeded the capacity.
   */
  lemma {:induction false} NothingReorderedOrInvented(ops: seq<Op>, max: nat)
    requires max > 0
    ensures var s := Run(ops, max);
            && Subsequence(Flatten(s.batches), Flatten(s.intervals))
            && (Flatten(s.batches) == Flatten(s.intervals) <==> AllWithin(s.intervals, max))
  {
    RunKeepsNewest(ops, max);
    var s := Run(ops, max);
    BatchesSubsequence(s.batches, s.intervals, max);
    LosslessIffWithin(s.batches, s.intervals, max);
  }

  function Logged(op: Op): seq<Entry> {
    match op
    case FireOp(l) => [Captured(l)]
    case InjectOp(extra) => extra
    case DrainOp => []
  }

  function Logs(ops: seq<Op>): seq<Entry> {
    if ops == [] then [] else Logs(ops[..|ops| - 1]) + Logged(ops[|ops| - 1])
  }

  lemma {:induction false} FlattenSnoc(parts: seq<seq<Entry>>, part: seq<Entry>)
    ensures Flatten(parts + [part]) == Flatten(parts) + part
  {
    assert (parts + [part])[..|parts|] == parts;
  }

  /** One operation adds what it logs to the open interval, or closes it. */
  lemma {:induction false} StepCuts(s: State, op: Op, max: nat)
    ensures var after := Step(s, op, max);
            Flatten(after.intervals) + after.since == Flatten(s.intervals) + s.since + Logged(op)
  {
    FlattenSnoc(s.intervals, s.since);
    assert Flatten(s.intervals) + (s.since + Logged(op)) == Flatten(s.intervals) + s.since + Logged(op);
  }

  /** The intervals cut the whole log: together with the open one they are everything logged, in order. */
  lemma {:induction false} IntervalsCutTheLog(ops: seq<Op>, max: nat)
    ensures Flatten(Run(ops, max).intervals) + Run(ops, max).since == Logs(ops)
    decreases |ops|
  {
    if ops == [] {
    } else {
      IntervalsCutTheLog(ops[..|ops| - 1], max);
      StepCuts(Run(ops[..|ops| - 1], max), ops[|ops| - 1], max);
    }
  }
}
