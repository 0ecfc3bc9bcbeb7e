/** Time-advancing paging over Loki. The server is any log ordered by timestamp that answers a query
    with the earliest `limit` entries of the half-open range, grouped by stream in any way. */
module LokiReader {
  import opened Sequences

  datatype Entry = Entry(ts: int, line: string)

  const PAGE_SIZE: nat := 5000

  ghost predicate Ordered(log: seq<Entry>) { forall i, j :: 0 <= i <= j < |log| ==> log[i].ts <= log[j].ts }

  /** Number of entries before time `t`: the position of the first one at or after it. */
  function From(log: seq<Entry>, t: int): (n: nat)
    ensures n <= |log|
    ensures forall i :: 0 <= i < n ==> log[i].ts < t
    ensures n < |log| ==> log[n].ts >= t
  {
    if log == [] || log[0].ts >= t then 0
    else
      var n := 1 + From(log[1..], t);
      assert forall i :: 1 <= i < n ==> log[i] == log[1..][i - 1];
      n
  }

  function PageEnd(log: seq<Entry>, start: int, end: int, limit: nat): nat {
    var lo, hi := From(log, start), From(log, end);
    if lo + limit < hi then lo + limit else hi
  }

  /** A server for this log: the answer holds exactly the earliest `limit` entries of the range. */
  ghost predicate Serves(query: (int, int, nat) -> seq<Entry>, log: seq<Entry>) {
    forall start, end, limit: nat :: start < end ==>
      From(log, start) <= PageEnd(log, start, end, limit) <= |log|
      && multiset(query(start, end, limit)) == multiset(log[From(log, start)..PageEnd(log, start, end, limit)])
  }

  /** The positions the read hands out, page by page: `[lo, hi)` for each request. */
  function Pages(log: seq<Entry>, start: int, end: int, limit: nat): seq<(nat, nat)>
    requires limit >= 1 && Ordered(log)
    decreases end - start
  {
    if start >= end then []
    else
      var lo, hi := From(log, start), PageEnd(log, start, end, limit);
      if hi - lo < limit then [(lo, hi)]
      else
        [(lo, hi)] + Pages(log, log[hi - 1].ts + 1, end, limit)
  }

  /** One page and what follows it. */
  lemma PagesStep(log: seq<Entry>, start: int, end: int, limit: nat)
    requires limit >= 1 && Ordered(log) && start < end
    ensures var lo, hi := From(log, start), PageEnd(log, start, end, limit);
      && lo <= hi <= From(log, end) && hi <= lo + limit && (hi < lo + limit ==> hi == From(log, end))
      && Pages(log, start, end, limit) ==
           [(lo, hi)] + (if hi < lo + limit then [] else Pages(log, log[hi - 1].ts + 1, end, limit))
      && (lo < hi ==> start <= log[lo].ts <= log[hi - 1].ts < end)
  {
  }

  function Latest(entries: seq<Entry>, floor: int): (m: int)
    ensures m >= floor
    ensures forall e :: e in entries ==> e.ts <= m
    ensures m == floor || exists e :: e in entries && e.ts == m
  {
    if entries == [] then floor
    else
      var r := Latest(entries[1..], floor);
      assert forall e :: e in entries ==> e == entries[0] || e in entries[1..];
      if entries[0].ts > r then entries[0].ts else r
  }

  /** The largest timestamp of a page is that of its last position, whatever the grouping. */
  lemma LatestOfPage(log: seq<Entry>, lo: nat, hi: nat, start: int, page: seq<Entry>)
    requires Ordered(log) && lo < hi <= |log| && log[lo].ts >= start && multiset(page) == multiset(log[lo..hi])
    ensures Latest(page, start) == log[hi - 1].ts
  {
    var slice := log[lo..hi];
    assert slice[hi - 1 - lo] == log[hi - 1] && log[hi - 1] in multiset(slice);
    assert log[hi - 1] in page;
    forall e | e in page ensures e.ts <= log[hi - 1].ts {
      assert e in multiset(slice);
      var i :| 0 <= i < |slice| && slice[i] == e;
      assert e == log[lo + i];
    }
  }

  ghost predicate Holds(log: seq<Entry>, page: seq<Entry>, range: (nat, nat)) {
    range.0 <= range.1 <= |log| && multiset(page) == multiset(log[range.0..range.1])
  }

  /** The pages handed out hold exactly the entries at these positions. */
  ghost predicate Hands(log: seq<Entry>, out: seq<seq<Entry>>, ranges: seq<(nat, nat)>) {
    |out| == |ranges| && forall i :: 0 <= i < |out| ==> Holds(log, out[i], ranges[i])
  }

  function ClampLimit(raw: int): (r: nat)
    ensures 1 <= r <= PAGE_SIZE
    ensures 1 <= raw <= PAGE_SIZE ==> r == raw
    ensures (raw < 0 ==> r == 1) && (raw == 0 || raw > PAGE_SIZE ==> r == PAGE_SIZE)
  {
    if raw == 0 || raw > PAGE_SIZE then PAGE_SIZE else if raw < 1 then 1 else raw
  }

  /** One request: the page, whether it was full, and where the next one starts. */
  method Fetch(log: seq<Entry>, query: (int, int, nat) -> seq<Entry>, start: int, end: int, limit: nat)
    returns (page: seq<Entry>, full: bool, next: int, ghost range: (nat, nat))
    requires Ordered(log) && Serves(query, log) && start < end && limit >= 1
    ensures Holds(log, page, range)
    ensures Pages(log, start, end, limit) == [range] + if full then Pages(log, next, end, limit) else []
    ensures |page| <= limit && (full <==> |page| == limit) && (full <==> Full(range, limit))
    ensures full ==> start < next && next == log[range.1 - 1].ts + 1
  {
    hide Pages, From, Latest, Ordered, PageEnd;
    PagesStep(log, start, end, limit);
    page := query(start, end, limit);
    ghost var lo, hi := From(log, start), PageEnd(log, start, end, limit);
    range, next := (lo, hi), start;
    assert Holds(log, page, range);
    assert |page| == |multiset(page)| == |multiset(log[lo..hi])| == hi - lo;
    full := |page| >= limit;
    if full {
      next := Latest(page, start) + 1;
      LatestOfPage(log, lo, hi, start, page);
    }
  }

  function StartOf(cursor: Option<int>, windowStart: int): int { if cursor.Some? then cursor.value else windowStart }

  /** The cursor after these pages: as it was if there were none, right behind the last timestamp if
      the last page was full, and cleared if it was not. */
  ghost function CursorAfter(log: seq<Entry>, rs: seq<(nat, nat)>, limit: nat, cursor0: Option<int>): Option<int> {
    if rs == [] then cursor0
    else
      var r := rs[|rs| - 1];
      if Full(r, limit) && 1 <= r.1 <= |log| then Some(log[r.1 - 1].ts + 1) else None
  }

  /** `failAt` is the number of the request that fails, if one does. A read that fails leaves a cursor
      from which the next read hands out exactly the pages still missing. */
  method Read(log: seq<Entry>, query: (int, int, nat) -> seq<Entry>, cursor0: Option<int>, windowStart: int, end: int,
              rawLimit: int, failAt: Option<nat>)
    returns (out: seq<seq<Entry>>, cursor: Option<int>, completed: bool)
    requires Ordered(log) && Serves(query, log)
    ensures var limit := ClampLimit(rawLimit); var all := Pages(log, StartOf(cursor0, windowStart), end, limit);
      && |out| <= |all| && Hands(log, out, all[..|out|])
      && cursor == CursorAfter(log, all[..|out|], limit, cursor0)
      && (completed ==> |out| == |all|)
      && (!completed ==> failAt == Some(|out|) && all[|out|..] == Pages(log, StartOf(cursor, windowStart), end, limit))
  {
    hide Pages, Serves, Holds, ClampLimit;
    var limit := ClampLimit(rawLimit);
    var start := StartOf(cursor0, windowStart);
    ghost var all, done := Pages(log, start, end, limit), [];
    out, cursor, completed := [], cursor0, true;
    while start < end
      invariant all == done + Pages(log, start, end, limit)
      invariant Hands(log, out, done) && cursor == CursorAfter(log, done, limit, cursor0)
      invariant start == StartOf(cursor, windowStart)
      decreases end - start
    {
      if failAt == Some(|out|) {
        completed := false;
        return;
      }
      var page, full, next; ghost var range;
      page, full, next, range := Fetch(log, query, start, end, limit);
      HoldsInBounds(log, page, range);
      ghost var rest := Pages(log, next, end, limit);
      assert done + ([range] + rest) == done + [range] + rest;
      assert done + ([range] + []) == done + [range];
      out, done := out + [page], done + [range];
      if !full {
        cursor := None;
        assert all == done;
        return;
      }
      if next <= start {
        // the guard against a stuck cursor is never taken
        assert false;
      }
      start := next;
      cursor := Some(start);
    }
    PagesEnd(log, start, end, limit);
  }

  lemma HoldsInBounds(log: seq<Entry>, page: seq<Entry>, range: (nat, nat))
    requires Holds(log, page, range)
    ensures range.0 <= range.1 <= |log|
  {
  }

  lemma PagesEnd(log: seq<Entry>, start: int, end: int, limit: nat)
    requires limit >= 1 && Ordered(log) && start >= end
    ensures Pages(log, start, end, limit) == []
  {
  }

  // ---- What the read hands out ----

  ghost predicate InOrder(rs: seq<(nat, nat)>) {
    && (forall i :: 0 <= i < |rs| ==> rs[i].0 <= rs[i].1)
    && (forall i, j :: 0 <= i < j < |rs| ==> rs[i].1 <= rs[j].0)
  }

  /** Pages follow one another in the log and never overlap: no entry is handed out twice. */
  lemma {:induction false} NeverTwice(log: seq<Entry>, start: int, end: int, limit: nat)
    requires limit >= 1 && Ordered(log)
    ensures var rs := Pages(log, start, end, limit);
      InOrder(rs) && forall i :: 0 <= i < |rs| ==> From(log, start) <= rs[i].0 && rs[i].1 <= From(log, end)
    decreases end - start
  {
    hide Pages, From, Ordered, PageEnd;
    if start < end {
      PagesStep(log, start, end, limit);
      var lo, hi := From(log, start), PageEnd(log, start, end, limit);
      if hi == lo + limit {
        var next := log[hi - 1].ts + 1;
        NeverTwice(log, next, end, limit);
        NextPageStarts(log, hi);
      }
    } else {
      PagesEnd(log, start, end, limit);
    }
  }

  /** The next request starts behind every entry that shares the last timestamp. */
  lemma NextPageStarts(log: seq<Entry>, hi: nat)
    requires Ordered(log) && 1 <= hi <= |log|
    ensures var n := From(log, log[hi - 1].ts + 1);
      hi <= n && forall x :: hi <= x < n ==> log[x].ts == log[hi - 1].ts
  {
    hide From;
  }

  ghost predicate Covered(rs: seq<(nat, nat)>, x: nat) { exists i :: 0 <= i < |rs| && rs[i].0 <= x < rs[i].1 }

  predicate Full(r: (nat, nat), limit: nat) { r.1 == r.0 + limit }

  /** `x` lies behind the full page `r`, whose last entry has the same timestamp. */
  predicate CutBy(log: seq<Entry>, r: (nat, nat), limit: nat, x: nat)
    requires x < |log|
  {
    Full(r, limit) && 1 <= r.1 <= x && log[x].ts == log[r.1 - 1].ts
  }

  ghost predicate CutOff(log: seq<Entry>, rs: seq<(nat, nat)>, limit: nat, x: nat)
    requires x < |log|
  {
    exists i :: 0 <= i < |rs| && CutBy(log, rs[i], limit, x)
  }

  lemma ShiftCovered(r: (nat, nat), rs: seq<(nat, nat)>, x: nat)
    ensures Covered([r] + rs, x) <==> (r.0 <= x < r.1) || Covered(rs, x)
  {
    var all := [r] + rs;
    if Covered(rs, x) {
      var i :| 0 <= i < |rs| && rs[i].0 <= x < rs[i].1;
      assert all[i + 1] == rs[i];
    }
    if r.0 <= x < r.1 { assert all[0] == r; }
  }

  lemma ShiftCutOff(log: seq<Entry>, r: (nat, nat), rs: seq<(nat, nat)>, limit: nat, x: nat)
    requires x < |log|
    ensures CutOff(log, [r] + rs, limit, x) <==> CutBy(log, r, limit, x) || CutOff(log, rs, limit, x)
  {
    hide CutBy;
    var all := [r] + rs;
    if CutOff(log, rs, limit, x) {
      var i :| 0 <= i < |rs| && CutBy(log, rs[i], limit, x);
      assert all[i + 1] == rs[i];
    }
    if CutBy(log, r, limit, x) { assert all[0] == r; }
  }

  /** Pages after `n` neither hold nor cut off anything before `n`. */
  lemma NothingBefore(log: seq<Entry>, rs: seq<(nat, nat)>, limit: nat, n: nat, x: nat)
    requires limit >= 1 && InOrder(rs) && x < |log| && x < n && forall i :: 0 <= i < |rs| ==> n <= rs[i].0
    ensures !Covered(rs, x) && !CutOff(log, rs, limit, x)
  {
  }

  /** Exactly what is lost: an entry of the range is skipped if and only if it shares its timestamp with
      the last entry of some full page and lies behind it. */
  lemma {:induction false} SkippedIff(log: seq<Entry>, start: int, end: int, limit: nat, x: nat)
    requires limit >= 1 && Ordered(log) && x < |log| && start <= log[x].ts < end
    ensures var rs := Pages(log, start, end, limit); !Covered(rs, x) <==> CutOff(log, rs, limit, x)
    decreases end - start
  {
    hide Pages, From, Covered, CutOff, InOrder;
    PagesStep(log, start, end, limit);
    var lo, hi := From(log, start), PageEnd(log, start, end, limit);
    var next := if hi == lo + limit then log[hi - 1].ts + 1 else end;
    var rest := if hi == lo + limit then Pages(log, next, end, limit) else [];
    ShiftCovered((lo, hi), rest, x);
    ShiftCutOff(log, (lo, hi), rest, limit, x);
    if hi < lo + limit {
      EmptyPages(log, limit, x);
    } else {
      NextPageStarts(log, hi);
      if log[x].ts >= next {
        SkippedIff(log, next, end, limit, x);
      } else {
        NeverTwice(log, next, end, limit);
        assert x < From(log, next);
        NothingBefore(log, rest, limit, From(log, next), x);
      }
    }
  }

  lemma EmptyPages(log: seq<Entry>, limit: nat, x: nat)
    requires x < |log|
    ensures !Covered([], x) && !CutOff(log, [], limit, x)
  {
  }

  /** A full page ends between two entries with the same timestamp. */
  predicate Splits(log: seq<Entry>, r: (nat, nat), limit: nat) {
    Full(r, limit) && 1 <= r.1 < |log| && log[r.1].ts == log[r.1 - 1].ts
  }

  /** A read loses nothing exactly when no full page splits a group of equal timestamps. */
  lemma NoPageSplitsIff(log: seq<Entry>, start: int, end: int, limit: nat)
    requires limit >= 1 && Ordered(log)
    ensures var rs := Pages(log, start, end, limit);
      (forall x :: 0 <= x < |log| && start <= log[x].ts < end ==> Covered(rs, x))
      <==> (forall i :: 0 <= i < |rs| ==> !Splits(log, rs[i], limit))
  {
    var rs := Pages(log, start, end, limit);
    if i :| 0 <= i < |rs| && Splits(log, rs[i], limit) {
      SplitLoses(log, start, end, limit, i);
    }
    hide Pages, Covered;
    if x :| 0 <= x < |log| && start <= log[x].ts < end && !Covered(rs, x) {
      SkippedIff(log, start, end, limit, x);
      var i :| 0 <= i < |rs| && CutBy(log, rs[i], limit, x);
      assert log[rs[i].1 - 1].ts <= log[rs[i].1].ts <= log[x].ts;
      assert Splits(log, rs[i], limit);
    }
  }

  lemma SplitLoses(log: seq<Entry>, start: int, end: int, limit: nat, i: nat)
    requires limit >= 1 && Ordered(log) && i < |Pages(log, start, end, limit)|
    requires Splits(log, Pages(log, start, end, limit)[i], limit)
    ensures var x := Pages(log, start, end, limit)[i].1;
      x < |log| && start <= log[x].ts < end && !Covered(Pages(log, start, end, limit), x)
  {
    hide Pages, From, Covered;
    var rs := Pages(log, start, end, limit);
    var x := rs[i].1;
    NeverTwice(log, start, end, limit);
    assert From(log, start) <= x - 1 < From(log, end);
    assert log[From(log, start)].ts <= log[x - 1].ts;
    assert CutBy(log, rs[i], limit, x);
    SkippedIff(log, start, end, limit, x);
  }

  /** `x` lies a positive multiple of the page limit behind `lo`. */
  predicate Border(lo: nat, x: nat, limit: nat)
    requires limit >= 1
    decreases x - lo
  {
    x == lo + limit || (x > lo + limit && Border(lo + limit, x, limit))
  }

  /** No two entries with the same timestamp stand astride a multiple of the limit, counted from the first
      entry of the range: a condition on the log, the range and the limit alone. */
  ghost predicate Aligned(log: seq<Entry>, lo: nat, hi: nat, limit: nat)
    requires limit >= 1 && hi <= |log|
  {
    forall x: nat :: x < hi && Border(lo, x, limit) ==> log[x - 1].ts != log[x].ts
  }

  /** Alignment, one page at a time. */
  lemma AlignedStep(log: seq<Entry>, lo: nat, hi: nat, limit: nat)
    requires limit >= 1 && hi <= |log| && lo + limit < hi
    ensures Aligned(log, lo, hi, limit) <==>
      log[lo + limit - 1].ts != log[lo + limit].ts && Aligned(log, lo + limit, hi, limit)
  {
    assert Border(lo, lo + limit, limit);
    forall x: nat | x < hi && Border(lo + limit, x, limit) ensures Border(lo, x, limit) {}
  }

  /** A page that does not split is followed by the page right behind it. */
  lemma NextFollows(log: seq<Entry>, hi: nat)
    requires Ordered(log) && 1 <= hi < |log| && log[hi - 1].ts != log[hi].ts
    ensures From(log, log[hi - 1].ts + 1) == hi
  {
    hide From;
    NextPageStarts(log, hi);
  }

  ghost predicate NoneSplits(log: seq<Entry>, rs: seq<(nat, nat)>, limit: nat) {
    forall i :: 0 <= i < |rs| ==> !Splits(log, rs[i], limit)
  }

  /** A full page at the very end of the range splits nothing, and at most an empty page follows it. */
  lemma LastPage(log: seq<Entry>, end: int, hi: nat, limit: nat)
    requires limit >= 1 && Ordered(log) && 1 <= hi == From(log, end)
    ensures hi < |log| ==> log[hi].ts != log[hi - 1].ts
    ensures NoneSplits(log, Pages(log, log[hi - 1].ts + 1, end, limit), limit)
  {
    hide Pages, From;
    var next := log[hi - 1].ts + 1;
    assert log[hi - 1].ts < end;
    if next < end {
      PagesStep(log, next, end, limit);
      NextPageStarts(log, hi);
      assert Pages(log, next, end, limit) == [(hi, hi)];
    } else {
      PagesEnd(log, next, end, limit);
    }
  }

  lemma NoneSplitsCons(log: seq<Entry>, r: (nat, nat), rs: seq<(nat, nat)>, limit: nat)
    ensures NoneSplits(log, [r] + rs, limit) <==> !Splits(log, r, limit) && NoneSplits(log, rs, limit)
  {
    var all := [r] + rs;
    assert all[0] == r && forall i :: 0 <= i < |rs| ==> all[i + 1] == rs[i];
  }

  lemma {:induction false} AlignedIff(log: seq<Entry>, start: int, end: int, limit: nat)
    requires limit >= 1 && Ordered(log) && start < end
    ensures From(log, start) <= From(log, end)
    ensures NoneSplits(log, Pages(log, start, end, limit), limit)
      <==> Aligned(log, From(log, start), From(log, end), limit)
    decreases end - start
  {
    hide Pages, From, Aligned, NoneSplits, Ordered, PageEnd;
    PagesStep(log, start, end, limit);
    var lo, hi, top := From(log, start), PageEnd(log, start, end, limit), From(log, end);
    if hi < lo + limit {
      ShortIsAligned(log, lo, top, limit);
      NoneSplitsShort(log, lo, hi, limit);
      assert [(lo, hi)] + [] == [(lo, hi)];
    } else {
      var next := log[hi - 1].ts + 1;
      NoneSplitsCons(log, (lo, hi), Pages(log, next, end, limit), limit);
      if hi < top {
        AlignedStep(log, lo, top, limit);
        if log[hi - 1].ts != log[hi].ts {
          NextFollows(log, hi);
          AlignedIff(log, next, end, limit);
        }
      } else {
        ShortIsAligned(log, lo, top, limit);
        LastPage(log, end, hi, limit);
      }
    }
  }

  lemma ShortIsAligned(log: seq<Entry>, lo: nat, hi: nat, limit: nat)
    requires limit >= 1 && hi <= |log| && hi <= lo + limit
    ensures Aligned(log, lo, hi, limit)
  {
  }

  lemma NoneSplitsShort(log: seq<Entry>, lo: nat, hi: nat, limit: nat)
    requires hi < lo + limit
    ensures NoneSplits(log, [(lo, hi)], limit)
  {
  }

  /** A read loses nothing exactly when no two entries of the range with the same timestamp stand astride
      a multiple of the page limit, counted from the first entry of the range. */
  lemma CompleteIff(log: seq<Entry>, start: int, end: int, limit: nat)
    requires limit >= 1 && Ordered(log)
    ensures (forall x :: 0 <= x < |log| && start <= log[x].ts < end ==> Covered(Pages(log, start, end, limit), x))
      <==> Aligned(log, From(log, start), From(log, end), limit)
  {
    hide Pages, Covered, Aligned, From;
    if start < end {
      NoPageSplitsIff(log, start, end, limit);
      AlignedIff(log, start, end, limit);
    } else {
      ShortIsAligned(log, From(log, start), From(log, end), limit);
    }
  }

  /** Distinct timestamps give a complete read. */
  lemma DistinctTimestampsComplete(log: seq<Entry>, start: int, end: int, limit: nat, x: nat)
    requires limit >= 1 && Ordered(log) && (forall i, j :: 0 <= i < j < |log| ==> log[i].ts != log[j].ts)
    requires x < |log| && start <= log[x].ts < end
    ensures Covered(Pages(log, start, end, limit), x)
  {
    hide Pages, Covered;
    SkippedIff(log, start, end, limit, x);
  }

  lemma FromIs(log: seq<Entry>, t: int, n: nat)
    requires n <= |log| && (forall i :: 0 <= i < n ==> log[i].ts < t) && (n < |log| ==> log[n].ts >= t)
    ensures From(log, t) == n
  {
    hide From;
  }

  /** Two entries at the same instant and a page of one: the second is never handed out. */
  lemma SameInstantIsLost()
    ensures var log := [Entry(5, "a"), Entry(5, "b")]; Ordered(log) && !Covered(Pages(log, 0, 10, 1), 1)
  {
    hide From, Pages, Covered;
    var log := [Entry(5, "a"), Entry(5, "b")];
    FromIs(log, 0, 0);
    FromIs(log, 10, 2);
    PagesStep(log, 0, 10, 1);
    assert Pages(log, 0, 10, 1)[0] == (0, 1);
    SplitLoses(log, 0, 10, 1, 0);
  }

  /** Resuming at the cursor left after a full page continues the same sequence of pages. */
  lemma {:induction false} ResumeContinues(log: seq<Entry>, start: int, end: int, limit: nat, m: nat)
    requires limit >= 1 && Ordered(log) && 0 < m <= |Pages(log, start, end, limit)|
    requires Full(Pages(log, start, end, limit)[m - 1], limit)
    ensures var rs := Pages(log, start, end, limit);
      1 <= rs[m - 1].1 <= |log| && rs[m..] == Pages(log, log[rs[m - 1].1 - 1].ts + 1, end, limit)
    decreases m
  {
    hide Pages, From, Ordered, PageEnd;
    if start < end {
      PagesStep(log, start, end, limit);
      var hi := PageEnd(log, start, end, limit);
      if m > 1 {
        var rest := Pages(log, log[hi - 1].ts + 1, end, limit);
        assert Pages(log, start, end, limit) == [(From(log, start), hi)] + rest;
        ResumeContinues(log, log[hi - 1].ts + 1, end, limit, m - 1);
        assert ([(From(log, start), hi)] + rest)[m..] == rest[m - 1..];
      }
    } else {
      PagesEnd(log, start, end, limit);
    }
  }
}
