/** Cursor paging over the Datadog logs API. The server is any ordered event log with opaque cursors
    that obeys the page limit and whose cursors advance. */
module DatadogReader {
  import opened Sequences

  type Cursor = string

  /** An event of the response; one that is not a JSON object is skipped by the reader. */
  datatype Event = Event(isObject: bool, text: string)

  predicate IsObject(e: Event) { e.isObject }

  datatype Page = Page(data: seq<Event>, after: Option<Cursor>)

  datatype Server = Server(events: seq<Event>, position: Cursor -> nat, search: (Option<Cursor>, nat) -> Page)

  function Pos(s: Server, c: Option<Cursor>): nat { if c.None? then 0 else s.position(c.value) }

  /** One answer: the events from the cursor on, at most `limit` of them and none only at the end; the
      next cursor stands right behind them, and is missing only at the end. */
  ghost predicate AnswerOk(s: Server, c: Option<Cursor>, limit: nat) {
    var p, page := Pos(s, c), s.search(c, limit);
    && |page.data| <= limit && p + |page.data| <= |s.events|
    && page.data == s.events[p..p + |page.data|]
    && (page.data == [] ==> p == |s.events|)
    && (page.after.None? ==> p + |page.data| == |s.events|)
    && (page.after.Some? ==> Pos(s, page.after) == p + |page.data|)
  }

  ghost predicate Obeys(s: Server) {
    && (forall c: Cursor :: s.position(c) <= |s.events|)
    && (forall c, limit: nat :: limit >= 1 && Pos(s, c) <= |s.events| ==> AnswerOk(s, c, limit))
  }

  const PAGE_SIZE_MAX: nat := 1000

  function ClampPageSize(n: int): (r: nat)
    ensures 1 <= r <= PAGE_SIZE_MAX
    ensures 1 <= n <= PAGE_SIZE_MAX ==> r == n
    ensures (n < 1 ==> r == 1) && (n > PAGE_SIZE_MAX ==> r == PAGE_SIZE_MAX)
  {
    if n < 1 then 1 else if n > PAGE_SIZE_MAX then PAGE_SIZE_MAX else n
  }

  /** How a read ended: it ran to its end, the API failed, or the consumer stopped pulling lines. */
  datatype Ending = Completed | Unavailable | Abandoned

  /** What a read did: it started at one position, handed out the lines up to another, and left a
      cursor that stands at a third. */
  datatype Reading = Reading(start: nat, reached: nat, saved: nat, lines: seq<Event>, ending: Ending, more: bool)

  /** The promise of one read. Lines are exactly the objects between start and reached; the saved
      cursor never lies beyond what was handed out; a completed read saves its very end if the row
      cap stopped it, and otherwise has reached the end of the log. */
  ghost predicate Honest(s: Server, r: Reading, maxRows: nat) {
    && r.start <= r.reached <= |s.events| && r.saved <= |s.events|
    && r.lines == Filter(s.events[r.start..r.reached], IsObject)
    && |r.lines| <= maxRows
    && (r.ending == Completed && r.more ==> r.saved == r.reached && |r.lines| == maxRows)
    && (r.ending == Completed && !r.more ==> r.reached == |s.events|)
    && (r.ending != Completed ==> r.start <= r.saved <= r.reached)
  }

  /** A consumer who stops after this many lines, if ever, wants more than it has. */
  ghost predicate Wants(stopAfter: Option<nat>, has: nat) { stopAfter.Some? ==> has < stopAfter.value }

  lemma OneMoreLine(stopAfter: Option<nat>, has: nat)
    requires has >= 1 && Wants(stopAfter, has - 1)
    ensures stopAfter != Some(has) ==> Wants(stopAfter, has)
  {
  }

  lemma TakeOne(data: seq<Event>, taken: nat)
    requires taken < |data|
    ensures Filter(data[..taken + 1], IsObject)
      == Filter(data[..taken], IsObject) + if data[taken].isObject then [data[taken]] else []
  {
    assert data[..taken + 1] == data[..taken] + [data[taken]];
    FilterSnoc(data[..taken], data[taken], IsObject);
  }

  /** Hands out the objects of one page, until the row cap is reached or the consumer, who has taken
      `before` lines already, stops. */
  method YieldPage(data: seq<Event>, room: nat, before: nat, stopAfter: Option<nat>)
    returns (lines: seq<Event>, taken: nat, stopped: bool)
    requires |data| <= room && Wants(stopAfter, before)
    ensures taken <= |data| && lines == Filter(data[..taken], IsObject) && |lines| <= taken
    ensures !stopped ==> taken == |data|
    ensures if stopped then stopAfter == Some(before + |lines|) else Wants(stopAfter, before + |lines|)
  {
    lines, taken, stopped := [], 0, false;
    assert Filter(data[..0], IsObject) == [];
    hide *;
    while taken < |data|
      invariant taken <= |data| && lines == Filter(data[..taken], IsObject) && |lines| <= taken
      invariant Wants(stopAfter, before + |lines|)
    {
      var event := data[taken];
      TakeOne(data, taken);
      taken := taken + 1;
      if event.isObject {
        lines := lines + [event];
        OneMoreLine(stopAfter, before + |lines|);
        if stopAfter == Some(before + |lines|) {
          return lines, taken, true;
        }
        if |lines| >= room {
          break;
        }
      }
    }
  }

  /** Extends what has been handed out by a prefix of the next page. */
  lemma ExtendRead(s: Server, c: Option<Cursor>, limit: nat, start: nat, lines: seq<Event>, taken: nat,
                   more: seq<Event>)
    requires AnswerOk(s, c, limit) && start <= Pos(s, c) && taken <= |s.search(c, limit).data|
    requires lines == Filter(s.events[start..Pos(s, c)], IsObject)
    requires more == Filter(s.search(c, limit).data[..taken], IsObject)
    ensures lines + more == Filter(s.events[start..Pos(s, c) + taken], IsObject)
  {
    hide Filter;
    var p, page := Pos(s, c), s.search(c, limit);
    assert s.events[start..p + taken] == s.events[start..p] + page.data[..taken];
    FilterConcat(s.events[start..p], page.data[..taken], IsObject);
  }

  /** Between two requests: the cursor and the saved cursor agree and stand where the lines end. */
  ghost predicate AtCursor(s: Server, start: nat, cursor: Option<Cursor>, lines: seq<Event>, maxRows: nat) {
    && start <= Pos(s, cursor) <= |s.events| && |lines| < maxRows
    && lines == Filter(s.events[start..Pos(s, cursor)], IsObject)
  }

  ghost predicate EndsHonestly(s: Server, start: nat, reached: nat, refCursor: Option<Cursor>, lines: seq<Event>,
                               ending: Ending, maxRows: nat) {
    Honest(s, Reading(start, reached, Pos(s, refCursor), lines, ending, refCursor.Some?), maxRows)
  }

  /** The same promise in terms of what the consumer sees: the lines up to the saved cursor if the row
      cap stopped the read, all lines if it ran out, and at least those before the saved cursor if it
      was interrupted. */
  ghost predicate Delivers(s: Server, start: nat, refCursor: Option<Cursor>, lines: seq<Event>, ending: Ending,
                           maxRows: nat) {
    && |lines| <= maxRows && start <= |s.events|
    && (ending == Completed && refCursor.None? ==> lines == Filter(s.events[start..], IsObject))
    && (refCursor.Some? ==>
          start <= Pos(s, refCursor) <= |s.events| && Filter(s.events[start..Pos(s, refCursor)], IsObject) <= lines)
    && (ending == Completed && refCursor.Some? ==>
          |lines| == maxRows && lines == Filter(s.events[start..Pos(s, refCursor)], IsObject))
  }

  lemma HonestDelivers(s: Server, start: nat, reached: nat, refCursor: Option<Cursor>, lines: seq<Event>,
                       ending: Ending, maxRows: nat)
    requires EndsHonestly(s, start, reached, refCursor, lines, ending, maxRows)
    ensures Delivers(s, start, refCursor, lines, ending, maxRows)
  {
    hide Filter;
    assert s.events[start..|s.events|] == s.events[start..];
    if refCursor.Some? {
      var saved := Pos(s, refCursor);
      assert s.events[start..reached] == s.events[start..saved] + s.events[saved..reached];
      FilterConcat(s.events[start..saved], s.events[saved..reached], IsObject);
    }
  }

  /** One request and the page it brings. */
  method ReadPage(s: Server, ghost start: nat, cursor: Option<Cursor>, lines0: seq<Event>, limit: nat, maxRows: nat,
                  stopAfter: Option<nat>)
    returns (lines: seq<Event>, refCursor: Option<Cursor>, done: bool, ending: Ending, ghost reached: nat)
    requires AtCursor(s, start, cursor, lines0, maxRows) && 1 <= limit <= maxRows - |lines0|
      && AnswerOk(s, cursor, limit) && Wants(stopAfter, |lines0|)
    ensures reached <= Pos(s, cursor) + limit && (!done ==> reached == Pos(s, refCursor))
    ensures if done && ending == Abandoned then stopAfter == Some(|lines|) else Wants(stopAfter, |lines|)
    ensures ending != Unavailable
    ensures done ==> EndsHonestly(s, start, reached, refCursor, lines, ending, maxRows)
    ensures !done ==> AtCursor(s, start, refCursor, lines, maxRows) && Pos(s, cursor) < Pos(s, refCursor)
  {
    hide Filter;
    lines, refCursor, done, ending, reached := lines0, cursor, true, Completed, Pos(s, cursor);
    var page := s.search(cursor, limit);
    if page.data == [] {
      refCursor := None;
      return;
    }
    var more, taken, stopped := YieldPage(page.data, maxRows - |lines|, |lines|, stopAfter);
    ExtendRead(s, cursor, limit, start, lines0, taken, more);
    lines, reached := lines + more, reached + taken;
    if stopped {
      ending := Abandoned;
    } else if page.after.None? || page.after == cursor || |lines| >= maxRows {
      // keep the next-page cursor only when the row cap stopped the read
      refCursor := if |lines| >= maxRows && page.after.Some? && page.after != cursor then page.after else None;
    } else {
      refCursor, done := page.after, false;
    }
  }

  /** What this many pages can bring. */
  ghost function AtMost(pages: nat, pageSize: nat): nat { pages * pageSize }

  lemma OneMorePage(pages: nat, pageSize: nat)
    ensures AtMost(pages + 1, pageSize) == AtMost(pages, pageSize) + pageSize
  {
  }

  /** `failAt` is the number of the request that fails, `stopAfter` the number of lines after which
      the consumer stops, if either happens; `requests` is the number of requests that were answered, each
      with no more than one page. */
  method Read(s: Server, saved: Option<Cursor>, rawPageSize: int, rawMaxRows: int, failAt: Option<nat>,
              stopAfter: Option<nat>)
    returns (lines: seq<Event>, refCursor: Option<Cursor>, ending: Ending, requests: nat, ghost reached: nat)
    requires Obeys(s)
    ensures if ending == Abandoned then stopAfter == Some(|lines|) else Wants(stopAfter, |lines|)
    ensures failAt.Some? ==> requests <= failAt.value
    ensures ending == Unavailable ==> failAt == Some(requests)
    ensures reached <= Pos(s, saved) + AtMost(requests, ClampPageSize(rawPageSize))
    ensures EndsHonestly(s, Pos(s, saved), reached, refCursor, lines, ending, if rawMaxRows < 1 then 1 else rawMaxRows)
    ensures Delivers(s, Pos(s, saved), refCursor, lines, ending, if rawMaxRows < 1 then 1 else rawMaxRows)
  {
    var pageSize, maxRows: nat := ClampPageSize(rawPageSize), if rawMaxRows < 1 then 1 else rawMaxRows;
    ghost var start := Pos(s, saved);
    var done := false;
    requests := 0;
    assert s.events[start..start] == [];
    lines, refCursor, ending, reached := [], saved, Abandoned, start;
    assert AtCursor(s, start, refCursor, lines, maxRows);
    hide AtCursor, EndsHonestly, ClampPageSize, Delivers, AtMost, Filter, Wants;
    if stopAfter == Some(0) {
      HonestDelivers(s, start, reached, refCursor, lines, ending, maxRows);
      return;
    }
    while true // `yielded < max_rows` holds whenever another request is due
      invariant AtCursor(s, start, refCursor, lines, maxRows) && |lines| < maxRows && Pos(s, refCursor) <= |s.events|
      invariant Wants(stopAfter, |lines|) && (failAt.Some? ==> requests <= failAt.value)
      invariant Pos(s, refCursor) <= start + AtMost(requests, pageSize)
      decreases |s.events| - Pos(s, refCursor)
    {
      if failAt == Some(requests) {
        ending, reached := Unavailable, Pos(s, refCursor);
        HonestDelivers(s, start, reached, refCursor, lines, ending, maxRows);
        return;
      }
      OneMorePage(requests, pageSize);
      requests := requests + 1;
      var remaining := maxRows - |lines|;
      var limit := if pageSize < remaining then pageSize else remaining;
      assert AnswerOk(s, refCursor, limit);
      lines, refCursor, done, ending, reached := ReadPage(s, start, refCursor, lines, limit, maxRows, stopAfter);
      if done {
        HonestDelivers(s, start, reached, refCursor, lines, ending, maxRows);
        return;
      }
      AtCursorBounds(s, start, refCursor, lines, maxRows);
    }
  }

  lemma AtCursorBounds(s: Server, start: nat, cursor: Option<Cursor>, lines: seq<Event>, maxRows: nat)
    requires AtCursor(s, start, cursor, lines, maxRows)
    ensures |lines| < maxRows && Pos(s, cursor) <= |s.events|
  {
  }

  // ---- Chains of reads, each resumed from the cursor the previous one left ----

  ghost predicate Chain(s: Server, rs: seq<Reading>, maxRows: nat) {
    && rs != [] && rs[0].start == 0
    && (forall i :: 0 <= i < |rs| ==> Honest(s, rs[i], maxRows))
    && (forall i :: 0 <= i < |rs| - 1 ==> rs[i + 1].start == rs[i].saved)
  }

  function LinesOf(rs: seq<Reading>): seq<Event> {
    if rs == [] then [] else LinesOf(rs[..|rs| - 1]) + rs[|rs| - 1].lines
  }

  lemma Append(s: Server, a: nat, b: nat)
    requires a <= b <= |s.events|
    ensures Filter(s.events[..b], IsObject) == Filter(s.events[..a], IsObject) + Filter(s.events[a..b], IsObject)
  {
    assert s.events[..b] == s.events[..a] + s.events[a..b];
    FilterConcat(s.events[..a], s.events[a..b], IsObject);
  }

  /** Completed reads chained by their saved cursor hand out exactly the server's objects, in order,
      with no gap and no repeat; when the last one leaves no cursor, all of them. */
  lemma {:induction false} ChainedReadsAreExact(s: Server, rs: seq<Reading>, maxRows: nat)
    requires Chain(s, rs, maxRows) && forall i :: 0 <= i < |rs| ==> rs[i].ending == Completed
    requires forall i :: 0 <= i < |rs| - 1 ==> rs[i].more
    ensures LinesOf(rs) == Filter(s.events[..rs[|rs| - 1].reached], IsObject)
    ensures !rs[|rs| - 1].more ==> LinesOf(rs) == Filter(s.events, IsObject)
  {
    var n := |rs| - 1;
    var last := rs[n];
    Append(s, last.start, last.reached);
    assert s.events[..|s.events|] == s.events;
    assert Filter(s.events[..0], IsObject) == [];
    hide Filter;
    if n == 0 {
      assert LinesOf(rs[..0]) == [];
    } else {
      var front := rs[..n];
      ChainedReadsAreExact(s, front, maxRows);
      assert front[n - 1] == rs[n - 1] && rs[n - 1 + 1].start == rs[n - 1].saved;
    }
  }

  /** However reads are interrupted, resuming from the saved cursor may repeat events but never loses
      one: everything before the last saved cursor lies inside some read of the chain. */
  lemma {:induction false} InterruptionsLoseNothing(s: Server, rs: seq<Reading>, maxRows: nat, x: nat)
    requires Chain(s, rs, maxRows) && forall i :: 0 <= i < |rs| - 1 ==> rs[i].ending != Completed || rs[i].more
    requires x < rs[|rs| - 1].reached
    ensures exists i :: 0 <= i < |rs| && rs[i].start <= x < rs[i].reached
  {
    var n := |rs| - 1;
    if x < rs[n].start {
      var front := rs[..n];
      assert rs[n - 1 + 1].start == rs[n - 1].saved && front[n - 1] == rs[n - 1];
      InterruptionsLoseNothing(s, front, maxRows, x);
      var i :| 0 <= i < |front| && front[i].start <= x < front[i].reached;
      assert rs[i] == front[i];
    } else {
      assert rs[n].start <= x < rs[n].reached;
    }
  }
}
