/** What a cluster record says of the rows it was built from, whichever way they were grouped. */
module ClusterRecords {
  import opened Sequences
  import opened Clusters
  import opened Clusterer
  import opened ClusterBuilder

  // ---- Rows, by what they carry ----

  function OfService(k: string): Row -> bool { (r: Row) => k != "" && r.service == Some(k) }

  function OfLevel(k: string): Row -> bool { (r: Row) => k != "" && r.level == Some(k) }

  /** A problem line of a service. */
  function OfFailing(k: string, isError: string -> bool): Row -> bool {
    (r: Row) => k != "" && r.service == Some(k) && r.level.Some? && r.level.value != "" && isError(r.level.value)
  }

  function OfMessage(m: string): Row -> bool { (r: Row) => m != "" && r.message == Some(m) }

  function CountRows(rs: seq<Row>, which: Row -> bool): nat { |Filter(rs, which)| }

  lemma CountRowsSnoc(rs: seq<Row>, r: Row, which: Row -> bool)
    ensures CountRows(rs + [r], which) == CountRows(rs, which) + if which(r) then 1 else 0
  {
    FilterSnoc(rs, r, which);
  }

  lemma {:induction false} OccursCounts(rs: seq<Row>, key: Row -> Option<string>, k: string, which: Row -> bool)
    requires forall r :: which(r) <==> key(r) == Some(k)
    ensures Occurs(rs, key, k) == CountRows(rs, which)
  {
    if rs != [] {
      hide CountRows;
      var front, r := rs[..|rs| - 1], rs[|rs| - 1];
      OccursCounts(front, key, k, which);
      CountRowsSnoc(front, r, which);
      assert rs == front + [r];
    } else {
      assert Filter(rs, which) == [];
    }
  }

  /** A dictionary that holds, for each key, the number of rows that carry it, and no other keys. */
  ghost predicate Tallies(m: Counts, rs: seq<Row>, which: string -> Row -> bool) {
    forall k :: Get(m, k) == CountRows(rs, which(k)) && (k in m <==> CountRows(rs, which(k)) > 0)
  }

  lemma CountByTallies(rs: seq<Row>, key: Row -> Option<string>, which: string -> Row -> bool)
    requires forall k, r :: which(k)(r) <==> key(r) == Some(k)
    ensures Tallies(CountBy(rs, key), rs, which)
  {
    forall k ensures Get(CountBy(rs, key), k) == CountRows(rs, which(k))
      && (k in CountBy(rs, key) <==> CountRows(rs, which(k)) > 0)
    {
      OccursCounts(rs, key, k, which(k));
      OccursIff(rs, key, k);
    }
  }

  function OfFailingIn(isError: string -> bool): string -> Row -> bool { (k: string) => OfFailing(k, isError) }

  lemma ServicesTally(rs: seq<Row>)
    ensures Tallies(CountBy(rs, ServiceKey), rs, OfService)
  {
    CountByTallies(rs, ServiceKey, OfService);
  }

  lemma LevelsTally(rs: seq<Row>)
    ensures Tallies(CountBy(rs, LevelKey), rs, OfLevel)
  {
    CountByTallies(rs, LevelKey, OfLevel);
  }

  lemma FailingIs(isError: string -> bool, k: string, r: Row)
    ensures OfFailing(k, isError)(r) <==> ErrorKey(isError)(r) == Some(k)
  {
    var fails := Present(r.service) && Present(r.level) && isError(r.level.value);
    assert ErrorKey(isError)(r) == if fails then r.service else None;
    assert OfFailing(k, isError)(r) <==> fails && r.service == Some(k);
  }

  lemma ErrorsTally(rs: seq<Row>, isError: string -> bool)
    ensures Tallies(CountBy(rs, ErrorKey(isError)), rs, OfFailingIn(isError))
  {
    forall k, r ensures OfFailingIn(isError)(k)(r) <==> ErrorKey(isError)(r) == Some(k) {
      FailingIs(isError, k, r);
    }
    CountByTallies(rs, ErrorKey(isError), OfFailingIn(isError));
  }

  // ---- The record ----

  ghost predicate EarliestOf(t: Option<int>, rs: seq<Row>) {
    && (t.None? <==> forall r :: r in rs ==> r.timestamp.None?)
    && (t.Some? ==> exists r :: r in rs && r.timestamp == t)
    && (forall r :: r in rs && r.timestamp.Some? ==> t.Some? && t.value <= r.timestamp.value)
  }

  ghost predicate LatestOf(t: Option<int>, rs: seq<Row>) {
    && (t.None? <==> forall r :: r in rs ==> r.timestamp.None?)
    && (t.Some? ==> exists r :: r in rs && r.timestamp == t)
    && (forall r :: r in rs && r.timestamp.Some? ==> t.Some? && r.timestamp.value <= t.value)
  }

  /** A most common message of the rows, or none if no row has one. */
  ghost predicate Represents(m: string, rs: seq<Row>) {
    && (m == "" <==> forall r :: r in rs ==> r.message.None? || r.message == Some(""))
    && forall k :: k != "" ==> CountRows(rs, OfMessage(k)) <= CountRows(rs, OfMessage(m))
  }

  ghost predicate CountsFit(c: ClusterData, rs: seq<Row>, isError: string -> bool) {
    && c.count == |rs|
    && Tallies(c.services, rs, OfService)
    && Tallies(c.levels, rs, OfLevel)
    && Tallies(c.errorServices, rs, OfFailingIn(isError))
  }

  ghost predicate ScoresFit(c: ClusterData, fp: string, baseline: Counts, hooks: Hooks) {
    && c.fingerprint == fp && c.mergedFingerprints == []
    && c.baselineCount == (if fp in baseline then baseline[fp] else 0)
    && c.changeRatio == (c.count + 1) as real / (c.baselineCount + 1) as real
    && c.isTrigger == hooks.triggerMessage(c.message)
    && c.importance == hooks.score(c.count, c.levels, c.changeRatio, |c.services|, c.isTrigger)
  }

  lemma TimesAreHull(rs: seq<Row>)
    ensures EarliestOf(MinSeen(Map(rs, TimeOf)), rs) && LatestOf(MaxSeen(Map(rs, TimeOf)), rs)
  {
    var ts := Map(rs, TimeOf);
    SeenIsHull(ts);
    hide MinSeen, MaxSeen;
    forall t | t in ts ensures exists r :: r in rs && r.timestamp == t {
      var i :| 0 <= i < |ts| && ts[i] == t;
      assert rs[i] in rs;
    }
    forall r | r in rs ensures r.timestamp in ts {
      var i :| 0 <= i < |rs| && rs[i] == r;
      assert ts[i] == r.timestamp;
    }
  }

  lemma MostCommonRepresents(m: string, rs: seq<Row>)
    requires if KeysIn(rs, MessageKey) == {} then m == "" else IsMostCommon(rs, m)
    ensures Represents(m, rs)
  {
    hide KeysIn, Occurs, CountRows;
    forall k | k != "" ensures Occurs(rs, MessageKey, k) == CountRows(rs, OfMessage(k)) {
      OccursCounts(rs, MessageKey, k, OfMessage(k));
    }
    MessagesPresent(rs);
    NoEmptyMessage(rs);
    if m == "" {
      assert KeysIn(rs, MessageKey) == {};
      forall k | k != "" ensures CountRows(rs, OfMessage(k)) == 0 { OccursIff(rs, MessageKey, k); }
    }
  }

  lemma MessagesPresent(rs: seq<Row>)
    ensures KeysIn(rs, MessageKey) == {} <==> forall r :: r in rs ==> r.message.None? || r.message == Some("")
  {
    if r :| r in rs && !(r.message.None? || r.message == Some("")) {
      assert r.message.value in KeysIn(rs, MessageKey);
    }
  }

  lemma {:induction false} NoEmptyMessage(rs: seq<Row>)
    ensures Occurs(rs, MessageKey, "") == 0
  {
    if rs != [] {
      NoEmptyMessage(rs[..|rs| - 1]);
    }
  }

  lemma ScanEnds(rs: seq<Row>)
    ensures FirstOf(Collect(rs, TimeOf)) == MinSeen(Map(rs, TimeOf))
    ensures LastOf(Collect(rs, TimeOf)) == MaxSeen(Map(rs, TimeOf))
  {
    var seen, ts := Map(rs, TimeOf), Collect(rs, TimeOf);
    SeenIsHull(seen);
    forall t ensures t in ts <==> Some(t) in seen { CollectedTimes(rs, t); }
    hide Collect, FirstOf, LastOf, MinSeen, MaxSeen;
    EndsAreBounds(ts, seen);
  }

  /** The record built from the row scan, against the rows. */
  lemma ScanRecord(fp: string, rs: seq<Row>, baseline: Counts, hooks: Hooks, isError: string -> bool)
    ensures var c := BuildClusterData(fp, Scanned(rs, isError), baseline, hooks);
      && CountsFit(c, rs, isError) && ScoresFit(c, fp, baseline, hooks)
      && EarliestOf(c.firstSeen, rs) && LatestOf(c.lastSeen, rs) && Represents(c.message, rs)
      && c.logEntryIds == Map(rs, IdOf)
  {
    ScanPicksMostCommon(rs);
    hide CountBy, Collect, FirstOf, LastOf, MinSeen, MaxSeen, KeysIn, IsMostCommon, Tallies, EarliestOf, LatestOf,
      Represents, Leader;
    ServicesTally(rs);
    LevelsTally(rs);
    ErrorsTally(rs, isError);
    ScanEnds(rs);
    TimesAreHull(rs);
    MostCommonRepresents(Representative(Collect(rs, MessageKey)), rs);
  }

  /** The record built from server-side aggregation, against the rows. */
  lemma AggregateRecord(fp: string, rs: seq<Row>, g: Group, baseline: Counts, hooks: Hooks, isError: string -> bool)
    requires IsAggregate(g, rs, isError)
    ensures var c := BuildClusterData(fp, g, baseline, hooks);
      && CountsFit(c, rs, isError) && ScoresFit(c, fp, baseline, hooks)
      && EarliestOf(c.firstSeen, rs) && LatestOf(c.lastSeen, rs) && Represents(c.message, rs)
      && IsSample(c.logEntryIds, Map(rs, IdOf))
  {
    AggregationRefinesScan(fp, rs, g, baseline, hooks, isError);
    hide BuildClusterData, Scanned, IsAggregate, CountsFit, ScoresFit, EarliestOf, LatestOf, Represents, IsMostCommon,
      KeysIn;
    ScanRecord(fp, rs, baseline, hooks, isError);
    var a, b := BuildClusterData(fp, g, baseline, hooks), BuildClusterData(fp, Scanned(rs, isError), baseline, hooks);
    MostCommonRepresents(a.message, rs);
    SameCounts(a, b, rs, isError);
    OwnScores(fp, g, baseline, hooks);
  }

  lemma SameCounts(a: ClusterData, b: ClusterData, rs: seq<Row>, isError: string -> bool)
    requires CountsFit(b, rs, isError) && a.count == b.count
    requires a.services == b.services && a.levels == b.levels && a.errorServices == b.errorServices
    ensures CountsFit(a, rs, isError)
  {
    hide Tallies;
  }

  lemma OwnScores(fp: string, g: Group, baseline: Counts, hooks: Hooks)
    ensures ScoresFit(BuildClusterData(fp, g, baseline, hooks), fp, baseline, hooks)
  {
    hide Representative, FirstOf, LastOf;
  }
}
