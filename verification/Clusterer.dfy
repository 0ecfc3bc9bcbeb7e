/** Grouping log rows by fingerprint: the row scan and the server-side aggregation that replaced it. */
module Clusterer {
  import opened Sequences
  import opened Clusters

  datatype Row = Row(fingerprint: string, message: Option<string>, service: Option<string>,
                     level: Option<string>, timestamp: Option<int>, id: int)

  const MAX_CLUSTER_MEMBERS: nat := 100

  predicate Present(s: Option<string>) { s.Some? && s.value != "" }

  // ---- What a row contributes to ----

  function MessageKey(r: Row): Option<string> { if Present(r.message) then r.message else None }
  function ServiceKey(r: Row): Option<string> { if Present(r.service) then r.service else None }
  function LevelKey(r: Row): Option<string> { if Present(r.level) then r.level else None }
  /** The service of a problem line. */
  function ErrorKey(isError: string -> bool): Row -> Option<string> {
    (r: Row) => if Present(r.service) && Present(r.level) && isError(r.level.value) then r.service else None
  }
  function TimeOf(r: Row): Option<int> { r.timestamp }
  function IdOf(r: Row): int { r.id }

  predicate Falls(o: Option<string>, k: string) { o == Some(k) }

  /** Number of rows that contribute to `k`. */
  function Occurs(rs: seq<Row>, key: Row -> Option<string>, k: string): nat {
    if rs == [] then 0 else Occurs(rs[..|rs| - 1], key, k) + if Falls(key(rs[|rs| - 1]), k) then 1 else 0
  }

  function KeysIn(rs: seq<Row>, key: Row -> Option<string>): set<string> {
    set r | r in rs && key(r).Some? :: key(r).value
  }

  /** `SELECT key, count(*) ... GROUP BY key`. */
  function CountBy(rs: seq<Row>, key: Row -> Option<string>): Counts {
    map k | k in KeysIn(rs, key) :: Occurs(rs, key, k)
  }

  function Bump(m: Counts, o: Option<string>): Counts { if o.None? then m else m[o.value := Get(m, o.value) + 1] }

  lemma {:induction false} OccursIff(rs: seq<Row>, key: Row -> Option<string>, k: string)
    ensures Occurs(rs, key, k) > 0 <==> k in KeysIn(rs, key)
  {
    if rs != [] {
      var front, r := rs[..|rs| - 1], rs[|rs| - 1];
      OccursIff(front, key, k);
      assert rs == front + [r];
      if Falls(key(r), k) { assert r in rs; }
      if k in KeysIn(rs, key) {
        var q :| q in rs && key(q) == Some(k);
        assert q in front || q == r;
      }
    }
  }

  /** Counting one row at a time is grouping. */
  lemma CountBySnoc(rs: seq<Row>, r: Row, key: Row -> Option<string>)
    ensures CountBy(rs + [r], key) == Bump(CountBy(rs, key), key(r))
  {
    var more := rs + [r];
    assert more[..|rs|] == rs && more[|rs|] == r;
    var a, b := CountBy(more, key), Bump(CountBy(rs, key), key(r));
    forall k ensures Get(a, k) == Get(b, k) && (k in a <==> k in b) {
      OccursIff(rs, key, k);
      OccursIff(more, key, k);
    }
    assert a.Keys == b.Keys;
    assert forall k :: k in a ==> a[k] == Get(a, k) && b[k] == Get(b, k);
  }

  function Collect<T>(rs: seq<Row>, key: Row -> Option<T>): seq<T> {
    if rs == [] then []
    else
      var o := key(rs[|rs| - 1]);
      Collect(rs[..|rs| - 1], key) + if o.Some? then [o.value] else []
  }

  function Extend<T>(s: seq<T>, o: Option<T>): seq<T> { if o.Some? then s + [o.value] else s }

  lemma CollectSnoc<T>(rs: seq<Row>, r: Row, key: Row -> Option<T>)
    ensures Collect(rs + [r], key) == Extend(Collect(rs, key), key(r))
  {
    assert (rs + [r])[..|rs|] == rs;
  }

  // ---- The row scan ----

  /** One fingerprint's group; `count` is absent when the ids are the full membership. */
  datatype Group = Group(messages: seq<string>, services: Counts, levels: Counts, errors: Counts,
                         timestamps: seq<int>, ids: seq<int>, count: Option<nat>)

  const EMPTY := Group([], map[], map[], map[], [], [], None)

  function AddRow(g: Group, r: Row, isError: string -> bool): Group {
    Group(Extend(g.messages, MessageKey(r)), Bump(g.services, ServiceKey(r)), Bump(g.levels, LevelKey(r)),
          Bump(g.errors, ErrorKey(isError)(r)), Extend(g.timestamps, TimeOf(r)), g.ids + [r.id], g.count)
  }

  function OfFingerprint(fp: string): Row -> bool { (r: Row) => r.fingerprint == fp }

  function RowsOf(rows: seq<Row>, fp: string): seq<Row> { Filter(rows, OfFingerprint(fp)) }

  /** What the scan collects about the rows of one fingerprint. */
  function Scanned(rs: seq<Row>, isError: string -> bool): Group {
    Group(Collect(rs, MessageKey), CountBy(rs, ServiceKey), CountBy(rs, LevelKey), CountBy(rs, ErrorKey(isError)),
          Collect(rs, TimeOf), Map(rs, IdOf), None)
  }

  lemma ScannedSnoc(rs: seq<Row>, r: Row, isError: string -> bool)
    ensures Scanned(rs + [r], isError) == AddRow(Scanned(rs, isError), r, isError)
  {
    hide CountBy, Collect;
    CountBySnoc(rs, r, ServiceKey);
    CountBySnoc(rs, r, LevelKey);
    CountBySnoc(rs, r, ErrorKey(isError));
    CollectSnoc(rs, r, MessageKey);
    CollectSnoc(rs, r, TimeOf);
    assert Map(rs + [r], IdOf) == Map(rs, IdOf) + [r.id];
  }

  function Fingerprints(rows: seq<Row>): set<string> { set r | r in rows :: r.fingerprint }

  ghost predicate GroupsRows(groups: map<string, Group>, rows: seq<Row>, isError: string -> bool) {
    && groups.Keys == Fingerprints(rows)
    && forall fp :: fp in groups ==> groups[fp] == Scanned(RowsOf(rows, fp), isError)
  }

  lemma NoRows(rows: seq<Row>, fp: string)
    requires fp !in Fingerprints(rows)
    ensures RowsOf(rows, fp) == []
  {
    FilterNone(rows, OfFingerprint(fp));
  }

  function GroupFor(groups: map<string, Group>, fp: string): Group { if fp in groups then groups[fp] else EMPTY }

  lemma GroupForIsScanned(groups: map<string, Group>, rows: seq<Row>, fp: string, isError: string -> bool)
    requires GroupsRows(groups, rows, isError)
    ensures GroupFor(groups, fp) == Scanned(RowsOf(rows, fp), isError)
  {
    if fp !in groups {
      NoRows(rows, fp);
    }
  }

  lemma FingerprintsSnoc(rows: seq<Row>, r: Row)
    ensures Fingerprints(rows + [r]) == Fingerprints(rows) + {r.fingerprint}
  {
    var more := rows + [r];
    assert forall q :: q in more <==> q in rows || q == r;
    assert r in more;
  }

  lemma GroupRowsStep(groups: map<string, Group>, rows: seq<Row>, r: Row, isError: string -> bool)
    requires GroupsRows(groups, rows, isError)
    ensures var g := AddRow(GroupFor(groups, r.fingerprint), r, isError);
      GroupsRows(groups[r.fingerprint := g], rows + [r], isError)
  {
    hide Scanned, AddRow, Filter, Fingerprints, GroupFor;
    var fp, more := r.fingerprint, rows + [r];
    GroupForIsScanned(groups, rows, fp, isError);
    FingerprintsSnoc(rows, r);
    forall f | f in groups || f == fp
      ensures Scanned(RowsOf(more, f), isError) ==
        if f == fp then AddRow(GroupFor(groups, fp), r, isError) else groups[f]
    {
      FilterSnoc(rows, r, OfFingerprint(f));
      if f == fp {
        ScannedSnoc(RowsOf(rows, fp), r, isError);
      }
    }
  }

  lemma NothingGrouped(isError: string -> bool)
    ensures GroupsRows(map[], [], isError)
  {
  }

  method GroupRows(rows: seq<Row>, isError: string -> bool) returns (groups: map<string, Group>)
    ensures GroupsRows(groups, rows, isError)
  {
    hide *;
    groups := map[];
    NothingGrouped(isError);
    assert rows[..0] == [];
    for n := 0 to |rows|
      invariant GroupsRows(groups, rows[..n], isError)
    {
      var r := rows[n];
      GroupRowsStep(groups, rows[..n], r, isError);
      assert rows[..n + 1] == rows[..n] + [r];
      groups := groups[r.fingerprint := AddRow(GroupFor(groups, r.fingerprint), r, isError)];
    }
    assert rows[..|rows|] == rows;
  }

  // ---- Server-side aggregation ----

  /** Answer of query A for one fingerprint. */
  datatype Totals = Totals(fingerprint: string, count: nat, first: Option<int>, last: Option<int>, ids: seq<int>)
  /** Answers of queries C and D: fingerprint, level or message, count. */
  datatype Tally = Tally(fingerprint: string, key: string, count: nat)
  /** Answer of query B: fingerprint, service, count, count of error lines. */
  datatype ServiceTally = ServiceTally(fingerprint: string, key: string, count: nat, errors: nat)

  /** A sample of the ids of at most the cap, in whatever order the database delivers. */
  ghost predicate IsSample(sample: seq<int>, ids: seq<int>) {
    && multiset(sample) <= multiset(ids)
    && |sample| == if |ids| < MAX_CLUSTER_MEMBERS then |ids| else MAX_CLUSTER_MEMBERS
  }

  ghost predicate AnswersA(qa: seq<Totals>, rows: seq<Row>) {
    && (forall i, j :: 0 <= i < j < |qa| ==> qa[i].fingerprint != qa[j].fingerprint)
    && (set i | 0 <= i < |qa| :: qa[i].fingerprint) == Fingerprints(rows)
    && forall i :: 0 <= i < |qa| ==> TotalsOk(qa[i], RowsOf(rows, qa[i].fingerprint))
  }

  ghost predicate TotalsOk(t: Totals, rs: seq<Row>) {
    && t.count == |rs| && t.first == MinSeen(Map(rs, TimeOf)) && t.last == MaxSeen(Map(rs, TimeOf))
    && IsSample(t.ids, Map(rs, IdOf))
  }

  /** A grouped count: one answer row for every (fingerprint, key) that occurs, with its count. */
  ghost predicate AnswersCount(q: seq<Tally>, rows: seq<Row>, key: Row -> Option<string>) {
    && DistinctPairs(q)
    && (forall i :: 0 <= i < |q| ==> q[i].count == Occurs(RowsOf(rows, q[i].fingerprint), key, q[i].key))
    && (forall fp, k :: Occurs(RowsOf(rows, fp), key, k) > 0 ==> Lists(q, fp, k))
  }

  ghost predicate DistinctPairs(q: seq<Tally>) {
    forall i, j :: 0 <= i < j < |q| ==> !(q[i].fingerprint == q[j].fingerprint && q[i].key == q[j].key)
  }

  ghost predicate Lists(q: seq<Tally>, fp: string, k: string) {
    exists i :: 0 <= i < |q| && q[i].fingerprint == fp && q[i].key == k
  }

  function Put(m: Counts, t: Tally, fp: string): Counts {
    if t.fingerprint == fp && t.count > 0 then m[t.key := t.count] else m
  }

  /** The dictionary one fingerprint's answer rows fill in. */
  function Pivot(q: seq<Tally>, fp: string): Counts {
    if q == [] then map[] else Put(Pivot(q[..|q| - 1], fp), q[|q| - 1], fp)
  }

  lemma {:induction false} PivotAt(q: seq<Tally>, fp: string, k: string)
    requires DistinctPairs(q)
    ensures !Lists(q, fp, k) ==> k !in Pivot(q, fp)
    ensures forall i :: 0 <= i < |q| && q[i].fingerprint == fp && q[i].key == k ==> Get(Pivot(q, fp), k) == q[i].count
    ensures forall i :: 0 <= i < |q| && q[i].fingerprint == fp && q[i].key == k ==>
      (k in Pivot(q, fp) <==> q[i].count > 0)
  {
    if q != [] {
      var n := |q| - 1;
      var front := q[..n];
      PivotAt(front, fp, k);
      assert forall i :: 0 <= i < n ==> front[i] == q[i];
      if Lists(front, fp, k) {
        var i :| 0 <= i < |front| && front[i].fingerprint == fp && front[i].key == k;
        assert q[i] == front[i];
      }
      if q[n].fingerprint == fp && q[n].key == k {
        assert Lists(q, fp, k);
        assert !Lists(front, fp, k);
      }
    }
  }

  /** The pivoted answer of a grouped count is the dictionary the row scan counts up. */
  lemma PivotIsCountBy(q: seq<Tally>, rows: seq<Row>, key: Row -> Option<string>, fp: string)
    requires AnswersCount(q, rows, key)
    ensures Pivot(q, fp) == CountBy(RowsOf(rows, fp), key)
  {
    var rs := RowsOf(rows, fp);
    var a, b := Pivot(q, fp), CountBy(rs, key);
    hide Pivot, RowsOf;
    forall k ensures (k in a <==> k in b) && Get(a, k) == Get(b, k) {
      PivotAt(q, fp, k);
      OccursIff(rs, key, k);
      if Lists(q, fp, k) {
        var i :| 0 <= i < |q| && q[i].fingerprint == fp && q[i].key == k;
      }
    }
    assert a.Keys == b.Keys;
    assert forall k :: k in a ==> a[k] == Get(a, k) && b[k] == Get(b, k);
  }

  function CountTally(t: ServiceTally): Tally { Tally(t.fingerprint, t.key, t.count) }
  function ErrorTally(t: ServiceTally): Tally { Tally(t.fingerprint, t.key, t.errors) }

  /** Query B counts lines and, among the same lines, error lines. */
  ghost predicate AnswersB(qb: seq<ServiceTally>, rows: seq<Row>, isError: string -> bool) {
    && AnswersCount(Map(qb, CountTally), rows, ServiceKey)
    && forall i :: 0 <= i < |qb| ==>
      qb[i].errors == Occurs(RowsOf(rows, qb[i].fingerprint), ErrorKey(isError), qb[i].key)
  }

  lemma {:induction false} ErrorsAmongLines(rs: seq<Row>, isError: string -> bool, k: string)
    ensures Occurs(rs, ErrorKey(isError), k) <= Occurs(rs, ServiceKey, k)
  {
    if rs != [] {
      ErrorsAmongLines(rs[..|rs| - 1], isError, k);
    }
  }

  lemma ErrorsAnswered(qb: seq<ServiceTally>, rows: seq<Row>, isError: string -> bool)
    requires AnswersB(qb, rows, isError)
    ensures AnswersCount(Map(qb, ErrorTally), rows, ErrorKey(isError))
  {
    var lines, errors := Map(qb, CountTally), Map(qb, ErrorTally);
    hide RowsOf, Occurs;
    forall i, j | 0 <= i < j < |errors|
      ensures !(errors[i].fingerprint == errors[j].fingerprint && errors[i].key == errors[j].key)
    {
      assert !(lines[i].fingerprint == lines[j].fingerprint && lines[i].key == lines[j].key);
    }
    forall fp, k | Occurs(RowsOf(rows, fp), ErrorKey(isError), k) > 0 ensures Lists(errors, fp, k) {
      ErrorsAmongLines(RowsOf(rows, fp), isError, k);
      var i :| 0 <= i < |lines| && lines[i].fingerprint == fp && lines[i].key == k;
      assert errors[i].fingerprint == fp && errors[i].key == k;
    }
  }

  /** `m` is carried by at least as many rows as any other message. */
  ghost predicate IsMostCommon(rs: seq<Row>, m: string) {
    Occurs(rs, MessageKey, m) > 0 && forall k :: Occurs(rs, MessageKey, k) <= Occurs(rs, MessageKey, m)
  }

  /** The first answer row with the highest count, fingerprint by fingerprint. */
  ghost predicate BestSoFar(best: map<string, (nat, string)>, q: seq<Tally>) {
    && (forall fp :: fp in best ==> exists i :: 0 <= i < |q| && q[i] == Tally(fp, best[fp].1, best[fp].0))
    && (forall i :: 0 <= i < |q| ==> q[i].fingerprint in best && q[i].count <= best[q[i].fingerprint].0)
  }

  lemma BestStep(best: map<string, (nat, string)>, front: seq<Tally>, t: Tally)
    requires BestSoFar(best, front)
    ensures t.fingerprint !in best || t.count > best[t.fingerprint].0 ==>
      BestSoFar(best[t.fingerprint := (t.count, t.key)], front + [t])
    ensures t.fingerprint in best && t.count <= best[t.fingerprint].0 ==> BestSoFar(best, front + [t])
  {
    var more := front + [t];
    assert more[|front|] == t;
    forall fp | fp in best ensures exists i :: 0 <= i < |more| && more[i] == Tally(fp, best[fp].1, best[fp].0) {
      var i :| 0 <= i < |front| && front[i] == Tally(fp, best[fp].1, best[fp].0);
      assert more[i] == front[i];
    }
  }

  method BestMessages(q: seq<Tally>) returns (best: map<string, (nat, string)>)
    ensures BestSoFar(best, q)
  {
    best := map[];
    assert BestSoFar(best, q[..0]);
    hide BestSoFar;
    for n := 0 to |q|
      invariant BestSoFar(best, q[..n])
    {
      var t := q[n];
      assert q[..n + 1] == q[..n] + [t];
      BestStep(best, q[..n], t);
      if t.fingerprint !in best || t.count > best[t.fingerprint].0 {
        best := best[t.fingerprint := (t.count, t.key)];
      }
    }
    assert q[..|q|] == q;
  }

  lemma BestIsMostCommon(best: map<string, (nat, string)>, q: seq<Tally>, rows: seq<Row>, fp: string)
    requires BestSoFar(best, q) && AnswersCount(q, rows, MessageKey) && forall i :: 0 <= i < |q| ==> q[i].count > 0
    ensures var rs := RowsOf(rows, fp);
      if fp in best then IsMostCommon(rs, best[fp].1) else KeysIn(rs, MessageKey) == {}
  {
    var rs := RowsOf(rows, fp);
    hide RowsOf, Occurs;
    forall k | Occurs(rs, MessageKey, k) > 0 ensures fp in best && Occurs(rs, MessageKey, k) <= best[fp].0 {
      assert Lists(q, fp, k);
    }
    if fp !in best {
      forall k ensures k !in KeysIn(rs, MessageKey) { OccursIff(rs, MessageKey, k); }
    } else {
      var i :| 0 <= i < |q| && q[i] == Tally(fp, best[fp].1, best[fp].0);
    }
  }

  // ---- The aggregated groups ----

  function Known(ts: seq<Option<int>>): seq<int> {
    if ts == [] then [] else (if ts[0].Some? then [ts[0].value] else []) + Known(ts[1..])
  }

  /** What server-side aggregation collects about the rows of one fingerprint. */
  ghost predicate IsAggregate(g: Group, rs: seq<Row>, isError: string -> bool) {
    && g.count == Some(|rs|)
    && g.services == CountBy(rs, ServiceKey) && g.levels == CountBy(rs, LevelKey)
    && g.errors == CountBy(rs, ErrorKey(isError))
    && g.timestamps == Known([MinSeen(Map(rs, TimeOf)), MaxSeen(Map(rs, TimeOf))])
    && IsSample(g.ids, Map(rs, IdOf))
    && (if KeysIn(rs, MessageKey) == {} then g.messages == [] else |g.messages| == 1 && IsMostCommon(rs, g.messages[0]))
  }

  method PivotCounts(q: seq<Tally>) returns (m: map<string, Counts>)
    ensures forall fp :: (if fp in m then m[fp] else map[]) == Pivot(q, fp)
  {
    m := map[];
    for n := 0 to |q|
      invariant forall fp :: (if fp in m then m[fp] else map[]) == Pivot(q[..n], fp)
    {
      var t := q[n];
      ghost var before := m;
      if t.count > 0 {
        m := m[t.fingerprint := (if t.fingerprint in m then m[t.fingerprint] else map[])[t.key := t.count]];
      }
      assert q[..n + 1] == q[..n] + [t];
      forall fp ensures (if fp in m then m[fp] else map[]) == Pivot(q[..n + 1], fp) {
        assert (if fp in before then before[fp] else map[]) == Pivot(q[..n], fp);
      }
    }
    assert q[..|q|] == q;
  }

  /** The four grouped queries and the dictionary assembled from their answers. */
  method AggregateGroups(qa: seq<Totals>, qb: seq<ServiceTally>, qc: seq<Tally>, qd: seq<Tally>,
                         ghost rows: seq<Row>, ghost isError: string -> bool) returns (groups: map<string, Group>)
    requires AnswersA(qa, rows) && AnswersB(qb, rows, isError) && AnswersCount(qc, rows, LevelKey)
    requires AnswersCount(qd, rows, MessageKey) && forall i :: 0 <= i < |qd| ==> qd[i].count > 0
    ensures groups.Keys == Fingerprints(rows)
    ensures forall fp :: fp in groups ==> IsAggregate(groups[fp], RowsOf(rows, fp), isError)
  {
    hide IsAggregate, TotalsOk, AnswersB, AnswersCount, Pivot, BestSoFar, Fingerprints, Known, RowsOf, Map;
    var services := PivotCounts(Map(qb, CountTally));
    var errors := PivotCounts(Map(qb, ErrorTally));
    var levels := PivotCounts(qc);
    var best := BestMessages(qd);
    groups := map[];
    for n := 0 to |qa|
      invariant groups.Keys == set i | 0 <= i < n :: qa[i].fingerprint
      invariant forall fp :: fp in groups ==> IsAggregate(groups[fp], RowsOf(rows, fp), isError)
    {
      var t := qa[n];
      var fp := t.fingerprint;
      var g := Group(
        if fp in best then [best[fp].1] else [],
        if fp in services then services[fp] else map[],
        if fp in levels then levels[fp] else map[],
        if fp in errors then errors[fp] else map[],
        Known([t.first, t.last]), t.ids, Some(t.count));
      AssembledIsAggregate(t, qb, qc, qd, best, rows, isError, g);
      groups := groups[fp := g];
    }
  }

  lemma AssembledIsAggregate(t: Totals, qb: seq<ServiceTally>, qc: seq<Tally>, qd: seq<Tally>,
                             best: map<string, (nat, string)>,
                             rows: seq<Row>, isError: string -> bool, g: Group)
    requires TotalsOk(t, RowsOf(rows, t.fingerprint)) && AnswersB(qb, rows, isError) && AnswersCount(qc, rows, LevelKey)
    requires AnswersCount(qd, rows, MessageKey) && (forall i :: 0 <= i < |qd| ==>
      qd[i].count > 0) && BestSoFar(best, qd)
    requires g == Group(if t.fingerprint in best then [best[t.fingerprint].1] else [],
      Pivot(Map(qb, CountTally), t.fingerprint), Pivot(qc, t.fingerprint), Pivot(Map(qb, ErrorTally), t.fingerprint),
      Known([t.first, t.last]), t.ids, Some(t.count))
    ensures IsAggregate(g, RowsOf(rows, t.fingerprint), isError)
  {
    hide Pivot, CountBy, RowsOf, Known, Occurs, AnswersCount, BestSoFar;
    var fp := t.fingerprint;
    ErrorsAnswered(qb, rows, isError);
    PivotIsCountBy(Map(qb, CountTally), rows, ServiceKey, fp);
    PivotIsCountBy(Map(qb, ErrorTally), rows, ErrorKey(isError), fp);
    PivotIsCountBy(qc, rows, LevelKey, fp);
    BestIsMostCommon(best, qd, rows, fp);
    if fp in best {
      OccursIff(RowsOf(rows, fp), MessageKey, best[fp].1);
    }
  }
}
