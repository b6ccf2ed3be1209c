/**
 Pages of a list: the slice a request gets for its limit and offset, and what a client sees that asks for one page
 after another. The rules endpoint clamps the offset, the results endpoint does not.
 */
module Paging {
  import opened Options

  /** `slice(offset, offset + limit)`, which never goes past the end. */
  function Page<T>(xs: seq<T>, limit: nat, offset: nat): seq<T> {
    xs[Min(offset, |xs|)..Min(offset + limit, |xs|)]
  }

  /** What the endpoints make of a number parameter; None when parseInt gives no number. */
  function SanitizeInt(parsed: Option<int>, default: int, min: int, max: int): int {
    if parsed.None? then default else Min(Max(parsed.value, min), max)
  }

  lemma {:induction false} ParameterInRange(parsed: Option<int>, default: int, min: int, max: int)
    requires min <= default <= max
    ensures min <= SanitizeInt(parsed, default, min, max) <= max
    ensures parsed.Some? && min <= parsed.value <= max ==> SanitizeInt(parsed, default, min, max) == parsed.value
    ensures parsed.Some? && parsed.value < min ==> SanitizeInt(parsed, default, min, max) == min
    ensures parsed.Some? && parsed.value > max ==> SanitizeInt(parsed, default, min, max) == max
    ensures parsed.None? ==> SanitizeInt(parsed, default, min, max) == default
  {}

  // ---------------------------------------------------------------- unclamped offsets

  /** What a client that asks for page after page has seen in the end. */
  function AllPages<T>(xs: seq<T>, limit: nat, offset: nat): seq<T>
    requires limit > 0
    decreases |xs| - offset
  {
    if offset >= |xs| then [] else Page(xs, limit, offset) + AllPages(xs, limit, offset + limit)
  }

  /** No row is lost or repeated as long as the list stays the same. */
  lemma {:induction false} PagesConcatenate<T>(xs: seq<T>, limit: nat, offset: nat)
    requires limit > 0
    ensures AllPages(xs, limit, offset) == xs[Min(offset, |xs|)..]
    decreases |xs| - offset
  {
    if offset >= |xs| {
    } else {
      PagesConcatenate(xs, limit, offset + limit);
    }
  }

  // ---------------------------------------------------------------- offsets clamped at 100000

  const MAX_OFFSET: nat := 100000

  function Clamped(offset: Option<int>): (r: nat)
    ensures r <= MAX_OFFSET
  {
    SanitizeInt(offset, 0, 0, MAX_OFFSET)
  }

  /** One request: the page at the clamped offset. */
  function Requested<T>(xs: seq<T>, limit: nat, offset: Option<int>): seq<T> {
    Page(xs, limit, Clamped(offset))
  }

  /** The pages of a client that asks for every multiple of the limit below the total, from page `i` on. */
  function ClampedPages<T>(xs: seq<T>, limit: nat, i: nat): seq<T>
    requires limit > 0
    decreases |xs| - i * limit
  {
    if i * limit >= |xs| then []
    else
      NextStart(i, limit);
      Requested(xs, limit, Some(i * limit)) + ClampedPages(xs, limit, i + 1)
  }

  lemma {:induction false} NextStart(i: nat, limit: nat)
    ensures (i + 1) * limit == i * limit + limit
  {}

  lemma {:induction false} StartsGrow(i: nat, j: nat, limit: nat)
    requires i <= j
    ensures i * limit <= j * limit
  {}

  /** The number of pages that start at or below the largest offset, and the rows they hold. */
  function PagesInReach(limit: nat): nat
    requires limit > 0
  {
    MAX_OFFSET / limit + 1
  }

  function Reach(limit: nat): nat
    requires limit > 0
  {
    PagesInReach(limit) * limit
  }

  lemma {:induction false} ReachBounds(limit: nat)
    requires limit > 0
    ensures MAX_OFFSET < Reach(limit) <= MAX_OFFSET + limit
  {
    var q := MAX_OFFSET / limit;
    assert MAX_OFFSET == q * limit + MAX_OFFSET % limit;
    NextStart(q, limit);
  }

  /** A page in reach starts at its own offset. */
  lemma {:induction false} InReach(i: nat, limit: nat)
    requires limit > 0 && i < PagesInReach(limit)
    ensures i * limit <= MAX_OFFSET
  {
    StartsGrow(i, MAX_OFFSET / limit, limit);
    ReachBounds(limit);
    NextStart(MAX_OFFSET / limit, limit);
  }

  lemma {:induction false} StartBelow(i: nat, limit: nat)
    requires limit > 0 && i * limit < Reach(limit)
    ensures i < PagesInReach(limit)
  {
    if i >= PagesInReach(limit) {
      StartsGrow(PagesInReach(limit), i, limit);
    }
  }

  lemma {:induction false} PageInReach<T>(xs: seq<T>, limit: nat, i: nat, at: nat, next: nat)
    requires limit > 0 && at == i * limit && next == (i + 1) * limit && at < |xs| && i < PagesInReach(limit)
    ensures next == at + limit
    ensures ClampedPages(xs, limit, i) == xs[at..Min(next, |xs|)] + ClampedPages(xs, limit, i + 1)
  {
    InReach(i, limit);
    NextStart(i, limit);
    ParameterInRange(Some(at), 0, 0, MAX_OFFSET);
  }

  lemma {:induction false} ShortListsAreShown<T>(xs: seq<T>, limit: nat, i: nat, at: nat)
    requires limit > 0 && |xs| <= Reach(limit) && at == i * limit
    ensures ClampedPages(xs, limit, i) == xs[Min(at, |xs|)..]
    decreases |xs| - at
  {
    if at >= |xs| {
    } else {
      var next := (i + 1) * limit;
      StartBelow(i, limit);
      PageInReach(xs, limit, i, at, next);
      ShortListsAreShown(xs, limit, i + 1, next);
    }
  }

  /** A longer list is shown as it is up to the reach, and goes on with the page at the largest offset. */
  lemma {:induction false} LongListsBegin<T>(xs: seq<T>, limit: nat, i: nat, at: nat, reach: nat)
    requires limit > 0 && reach == Reach(limit) < |xs| && i <= PagesInReach(limit) && at == i * limit
    ensures at <= reach
    ensures ClampedPages(xs, limit, i) == xs[at..reach] + ClampedPages(xs, limit, PagesInReach(limit))
    decreases PagesInReach(limit) - i
  {
    StartsGrow(i, PagesInReach(limit), limit);
    if i == PagesInReach(limit) {
    } else {
      var next := (i + 1) * limit;
      StartsGrow(i + 1, PagesInReach(limit), limit);
      NextStart(i, limit);
      PageInReach(xs, limit, i, at, next);
      LongListsBegin(xs, limit, i + 1, next, reach);
      GluePages(xs, at, next, reach, ClampedPages(xs, limit, PagesInReach(limit)));
    }
  }

  lemma {:induction false} GluePages<T>(xs: seq<T>, a: nat, b: nat, c: nat, tail: seq<T>)
    requires a <= b <= c <= |xs|
    ensures xs[a..b] + (xs[b..c] + tail) == xs[a..c] + tail
  {}

  lemma {:induction false} AfterReach<T>(xs: seq<T>, limit: nat)
    requires limit > 0 && |xs| > Reach(limit)
    ensures var tail := ClampedPages(xs, limit, PagesInReach(limit)); tail != [] && tail[0] == xs[MAX_OFFSET]
  {
    ReachBounds(limit);
  }

  predicate Distinct<T(==)>(xs: seq<T>) { forall i, j :: 0 <= i < j < |xs| ==> xs[i] != xs[j] }

  lemma {:induction false} DistinctOnce<T>(xs: seq<T>, x: T)
    requires Distinct(xs)
    ensures multiset(xs)[x] <= 1
  {
    if xs == [] {
    } else {
      var init, last := xs[..|xs| - 1], xs[|xs| - 1];
      assert xs == init + [last];
      DistinctOnce(init, x);
      if x == last {
        assert last !in init;
        assert last !in multiset(init);
      }
    }
  }

  /** The row at the largest offset is shown again. */
  lemma {:induction false} ShownTwice<T>(xs: seq<T>, limit: nat)
    requires limit > 0 && |xs| > Reach(limit)
    ensures multiset(ClampedPages(xs, limit, 0))[xs[MAX_OFFSET]] >= 2
  {
    ReachBounds(limit);
    LongListsBegin(xs, limit, 0, 0, Reach(limit));
    AfterReach(xs, limit);
    var x, front, tail := xs[MAX_OFFSET], xs[..Reach(limit)], ClampedPages(xs, limit, PagesInReach(limit));
    assert front[MAX_OFFSET] == x;
    assert x in multiset(front) && x in multiset(tail);
    assert multiset(front + tail) == multiset(front) + multiset(tail);
  }

  /**
   With a fixed list of different rows, page after page shows every row exactly once iff the list is no longer than
   the pages that start at or below the largest offset.
   */
  lemma {:induction false} ClampedPagesCompleteIff<T>(xs: seq<T>, limit: nat)
    requires limit > 0 && Distinct(xs)
    ensures multiset(ClampedPages(xs, limit, 0)) == multiset(xs) <==> |xs| <= Reach(limit)
    ensures |xs| <= Reach(limit) ==> ClampedPages(xs, limit, 0) == xs
  {
    if |xs| <= Reach(limit) {
      ShortListsAreShown(xs, limit, 0, 0);
    } else {
      ReachBounds(limit);
      ShownTwice(xs, limit);
      DistinctOnce(xs, xs[MAX_OFFSET]);
    }
  }

  /**
   Whatever the offset, a row is shown by some request iff it stands before the end of the page at the largest
   offset.
   */
  lemma {:induction false} RowCanBeShownIff<T(!new)>(xs: seq<T>, limit: nat, j: nat)
    requires limit > 0 && Distinct(xs) && j < |xs|
    ensures (exists offset: Option<int> :: xs[j] in Requested(xs, limit, offset)) <==> j < MAX_OFFSET + limit
  {
    if j < MAX_OFFSET + limit {
      var at := Min(j, MAX_OFFSET);
      assert Clamped(Some(at)) == at;
      assert Requested(xs, limit, Some(at))[j - at] == xs[j];
    }
    if offset: Option<int> :| xs[j] in Requested(xs, limit, offset) {
      var page := Requested(xs, limit, offset);
      var k :| 0 <= k < |page| && page[k] == xs[j];
      assert page[k] == xs[Min(Clamped(offset), |xs|) + k];
    }
  }
}
