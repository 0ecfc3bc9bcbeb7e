/** What becomes of a comparison when its two windows change places. */
module DiffMirror {
  import opened Sequences
  import opened Clusters
  import opened WindowDiff

  /** The fingerprints of one list. */
  ghost function FingerprintsIn(a: ByFingerprint, b: ByFingerprint, dir: Direction): set<string> {
    set fp | fp in a.Keys + b.Keys && DirectionIn(a, b, fp) == dir
  }

  ghost predicate MirrorsAt(a: ByFingerprint, b: ByFingerprint, fp: string) {
    DirectionIn(b, a, fp) == Flip(DirectionIn(a, b, fp))
  }

  lemma MirrorsAtIff(a: ByFingerprint, b: ByFingerprint, fp: string)
    requires fp in a || fp in b
    ensures MirrorsAt(a, b, fp) <==> !(fp in a && fp in b) || a[fp].count + b[fp].count >= 2
  {
    MirrorIff(CountIn(a, fp), CountIn(b, fp));
  }

  lemma DirectionsMirrorIff(a: ByFingerprint, b: ByFingerprint)
    ensures (forall dir :: FingerprintsIn(b, a, Flip(dir)) == FingerprintsIn(a, b, dir))
      <==> (forall fp :: fp in a || fp in b ==> MirrorsAt(a, b, fp))
  {
    hide DirectionIn;
    if forall dir :: FingerprintsIn(b, a, Flip(dir)) == FingerprintsIn(a, b, dir) {
      forall fp | fp in a || fp in b ensures MirrorsAt(a, b, fp) {
        var dir := DirectionIn(a, b, fp);
        assert fp in FingerprintsIn(a, b, dir) && fp in FingerprintsIn(b, a, Flip(dir));
      }
    }
    if forall fp :: fp in a || fp in b ==> MirrorsAt(a, b, fp) {
      forall dir ensures FingerprintsIn(b, a, Flip(dir)) == FingerprintsIn(a, b, dir) {
        forall fp | fp in a || fp in b ensures DirectionIn(b, a, fp) == Flip(dir) <==> DirectionIn(a, b, fp) == dir {
          assert MirrorsAt(a, b, fp);
        }
      }
    }
  }

  /** Swapping the windows swaps new with disappeared and increased with decreased and fixes stable,
      exactly when no fingerprint of both windows has at most one line in all. */
  lemma WindowsMirrorIff(a: ByFingerprint, b: ByFingerprint)
    ensures (forall dir :: FingerprintsIn(b, a, Flip(dir)) == FingerprintsIn(a, b, dir))
      <==> (forall fp :: fp in a && fp in b ==> a[fp].count + b[fp].count >= 2)
  {
    hide MirrorsAt, FingerprintsIn;
    DirectionsMirrorIff(a, b);
    forall fp | fp in a || fp in b
      ensures MirrorsAt(a, b, fp) <==> !(fp in a && fp in b) || a[fp].count + b[fp].count >= 2
    {
      MirrorsAtIff(a, b, fp);
    }
  }

  /** What a list shows of a fingerprint: its count in either window. */
  type Shown = (string, Option<nat>, Option<nat>)

  function Show(d: Diff): Shown { (d.fingerprint, d.countA, d.countB) }
  function ShowSwapped(d: Diff): Shown { (d.fingerprint, d.countB, d.countA) }

  /** The lists of the swapped comparison: the opposite lists show the same with the counts swapped. */
  ghost predicate Mirrored(ls: Lists, swapped: Lists)
    requires forall dir: Direction :: dir in ls && dir in swapped
  {
    forall dir :: multiset(Map(swapped[Flip(dir)], ShowSwapped)) == multiset(Map(ls[dir], Show))
  }

  ghost predicate IsList(list: seq<Diff>, a: ByFingerprint, b: ByFingerprint, fps: set<string>) {
    && NoRepeats(list) && (forall fp :: fp in fps ==> (fp in a || fp in b) && DiffFor(a, b, fp) in list)
    && forall d :: d in list ==> d.fingerprint in fps && d == DiffFor(a, b, d.fingerprint)
  }

  lemma BelongMeans(a: ByFingerprint, b: ByFingerprint, dir: Direction, d: Diff)
    ensures d in Belong(a, b, a.Keys + b.Keys, dir) <==>
      d.fingerprint in FingerprintsIn(a, b, dir) && d == DiffFor(a, b, d.fingerprint)
  {
    hide DirectionIn, CountIn;
  }

  lemma DiffForNames(a: ByFingerprint, b: ByFingerprint, fp: string)
    requires fp in a || fp in b
    ensures DiffFor(a, b, fp).fingerprint == fp
  {
  }

  lemma ListOfBelong(list: seq<Diff>, a: ByFingerprint, b: ByFingerprint, dir: Direction)
    requires NoRepeats(list) && forall d :: d in list <==> d in Belong(a, b, a.Keys + b.Keys, dir)
    ensures IsList(list, a, b, FingerprintsIn(a, b, dir))
  {
    hide Belong, DiffFor, NoRepeats, DirectionIn;
    forall d | d in list ensures d.fingerprint in FingerprintsIn(a, b, dir) && d == DiffFor(a, b, d.fingerprint) {
      BelongMeans(a, b, dir, d);
    }
    forall fp | fp in FingerprintsIn(a, b, dir) ensures (fp in a || fp in b) && DiffFor(a, b, fp) in list {
      DiffForNames(a, b, fp);
      BelongMeans(a, b, dir, DiffFor(a, b, fp));
    }
  }

  lemma FiledHolds(ls: Lists, a: ByFingerprint, b: ByFingerprint, dir: Direction)
    requires Filed(ls, a, b, a.Keys + b.Keys)
    ensures dir in ls && multiset(ls[dir]) == multiset(Belong(a, b, a.Keys + b.Keys, dir))
  {
    hide Belong;
  }

  lemma FiledIsList(ls: Lists, a: ByFingerprint, b: ByFingerprint, dir: Direction)
    requires Filed(ls, a, b, a.Keys + b.Keys)
    ensures dir in ls && IsList(ls[dir], a, b, FingerprintsIn(a, b, dir))
  {
    hide *;
    FiledHolds(ls, a, b, dir);
    ListedSet(ls[dir], Belong(a, b, a.Keys + b.Keys, dir));
    ListOfBelong(ls[dir], a, b, dir);
  }

  lemma ListShows(list: seq<Diff>, a: ByFingerprint, b: ByFingerprint, fps: set<string>, show: Diff -> Shown, x: Shown)
    requires IsList(list, a, b, fps) && forall d :: show(d).0 == d.fingerprint
    ensures multiset(Map(list, show))[x] == if x.0 in fps && show(DiffFor(a, b, x.0)) == x then 1 else 0
  {
    hide DiffFor, NoRepeats;
    var shown := Map(list, show);
    OncePerFingerprint(list, a, b, show);
    NoRepeatsMultiset(shown, x);
    if x in shown {
      var i :| 0 <= i < |shown| && shown[i] == x;
      assert list[i] in list;
    }
    if x.0 in fps && show(DiffFor(a, b, x.0)) == x {
      var i :| 0 <= i < |list| && list[i] == DiffFor(a, b, x.0);
      assert shown[i] == x;
    }
  }

  lemma OncePerFingerprint(list: seq<Diff>, a: ByFingerprint, b: ByFingerprint, show: Diff -> Shown)
    requires NoRepeats(list) && forall d :: show(d).0 == d.fingerprint
    requires forall d :: d in list ==> (d.fingerprint in a || d.fingerprint in b) && d == DiffFor(a, b, d.fingerprint)
    ensures NoRepeats(Map(list, show))
  {
    hide DiffFor;
    var shown := Map(list, show);
    forall i, j | 0 <= i < j < |shown| ensures shown[i] != shown[j] {
      assert list[i] in list && list[j] in list;
      assert shown[i].0 == list[i].fingerprint && shown[j].0 == list[j].fingerprint;
    }
  }

  lemma OneListMirrors(far: seq<Diff>, near: seq<Diff>, a: ByFingerprint, b: ByFingerprint, there: set<string>,
                       here: set<string>)
    requires IsList(far, b, a, there) && IsList(near, a, b, here)
    ensures multiset(Map(far, ShowSwapped)) == multiset(Map(near, Show)) <==> there == here
  {
    assert forall fp :: fp in there || fp in here ==> fp in a || fp in b;
    hide IsList, DiffFor, Show, ShowSwapped;
    forall fp | fp in a || fp in b ensures ShowSwapped(DiffFor(b, a, fp)) == Show(DiffFor(a, b, fp)) {
    }
    forall x: Shown
      ensures multiset(Map(far, ShowSwapped))[x] ==
        if x.0 in there && ShowSwapped(DiffFor(b, a, x.0)) == x then 1 else 0
      ensures multiset(Map(near, Show))[x] == if x.0 in here && Show(DiffFor(a, b, x.0)) == x then 1 else 0
    {
      ListShows(far, b, a, there, ShowSwapped, x);
      ListShows(near, a, b, here, Show, x);
    }
    SameShown(there, here, multiset(Map(far, ShowSwapped)), multiset(Map(near, Show)), a, b);
  }

  lemma SameShown(there: set<string>, here: set<string>, far: multiset<Shown>, near: multiset<Shown>,
                  a: ByFingerprint, b: ByFingerprint)
    requires forall fp :: fp in there || fp in here ==> fp in a || fp in b
    requires forall fp :: fp in a || fp in b ==> ShowSwapped(DiffFor(b, a, fp)) == Show(DiffFor(a, b, fp))
    requires forall x: Shown :: far[x] == if x.0 in there && ShowSwapped(DiffFor(b, a, x.0)) == x then 1 else 0
    requires forall x: Shown :: near[x] == if x.0 in here && Show(DiffFor(a, b, x.0)) == x then 1 else 0
    ensures far == near <==> there == here
  {
    hide ShowSwapped, CountIn;
    if far == near {
      forall fp | fp in a || fp in b ensures fp in there <==> fp in here {
        var x := Show(DiffFor(a, b, fp));
        assert far[x] == near[x];
      }
    }
  }

  lemma FiledHasAll(ls: Lists, a: ByFingerprint, b: ByFingerprint)
    requires Filed(ls, a, b, a.Keys + b.Keys)
    ensures forall dir: Direction :: dir in ls
  {
  }

  lemma FiledListMirrors(a: ByFingerprint, b: ByFingerprint, ls: Lists, swapped: Lists, dir: Direction)
    requires Filed(ls, a, b, a.Keys + b.Keys) && Filed(swapped, b, a, b.Keys + a.Keys)
    ensures dir in ls && Flip(dir) in swapped
    ensures multiset(Map(swapped[Flip(dir)], ShowSwapped)) == multiset(Map(ls[dir], Show))
      <==> FingerprintsIn(b, a, Flip(dir)) == FingerprintsIn(a, b, dir)
  {
    hide *;
    FiledIsList(swapped, b, a, Flip(dir));
    FiledIsList(ls, a, b, dir);
    OneListMirrors(swapped[Flip(dir)], ls[dir], a, b, FingerprintsIn(b, a, Flip(dir)), FingerprintsIn(a, b, dir));
  }

  lemma AllMirror(ls: Lists, swapped: Lists, a: ByFingerprint, b: ByFingerprint)
    requires forall dir: Direction :: dir in ls && dir in swapped
    requires forall dir :: (multiset(Map(swapped[Flip(dir)], ShowSwapped)) == multiset(Map(ls[dir], Show))
                            <==> FingerprintsIn(b, a, Flip(dir)) == FingerprintsIn(a, b, dir))
    ensures Mirrored(ls, swapped) <==> forall dir :: FingerprintsIn(b, a, Flip(dir)) == FingerprintsIn(a, b, dir)
  {
    hide FingerprintsIn, Show, ShowSwapped, Flip, Map;
  }

  lemma FiledListsMirrorIff(a: ByFingerprint, b: ByFingerprint, ls: Lists, swapped: Lists)
    requires Filed(ls, a, b, a.Keys + b.Keys) && Filed(swapped, b, a, b.Keys + a.Keys)
    ensures forall dir: Direction :: dir in ls && dir in swapped
    ensures Mirrored(ls, swapped) <==> forall fp :: fp in a && fp in b ==> a[fp].count + b[fp].count >= 2
  {
    hide *;
    FiledHasAll(ls, a, b);
    FiledHasAll(swapped, b, a);
    WindowsMirrorIff(a, b);
    forall dir
      ensures multiset(Map(swapped[Flip(dir)], ShowSwapped)) == multiset(Map(ls[dir], Show))
        <==> FingerprintsIn(b, a, Flip(dir)) == FingerprintsIn(a, b, dir)
    {
      FiledListMirrors(a, b, ls, swapped, dir);
    }
    AllMirror(ls, swapped, a, b);
  }

  /** Swapping the windows of a comparison mirrors all five lists, entry by entry, exactly when no
      fingerprint of both windows has at most one line in all. */
  lemma ListsMirrorIff(clustersA: seq<ClusterData>, clustersB: seq<ClusterData>, ps: Patterns, ls: Lists,
                       swapped: Lists)
    requires var a, b := Index(Collapsed(clustersA, ps)), Index(Collapsed(clustersB, ps));
      Filed(ls, a, b, a.Keys + b.Keys) && Filed(swapped, b, a, b.Keys + a.Keys)
    ensures forall dir: Direction :: dir in ls && dir in swapped
    ensures var a, b := Index(Collapsed(clustersA, ps)), Index(Collapsed(clustersB, ps));
      Mirrored(ls, swapped) <==> forall fp :: fp in a && fp in b ==> a[fp].count + b[fp].count >= 2
  {
    hide *;
    FiledListsMirrorIff(Index(Collapsed(clustersA, ps)), Index(Collapsed(clustersB, ps)), ls, swapped);
  }

  // ---- Triggers ----

  datatype Trigger = Trigger(message: string, service: string)

  function KeysOfTriggers(ts: seq<Trigger>, key: string -> string): set<string> { set t | t in ts :: key(t.message) }

  /** The triggers no key of the other window matches. */
  function Unmatched(keys: set<string>,
                     key: string -> string): Trigger -> bool { (t: Trigger) => key(t.message) !in keys }

  method OnlyHere(ts: seq<Trigger>, keys: set<string>, key: string -> string) returns (only: seq<Trigger>)
    ensures only == Filter(ts, Unmatched(keys, key))
  {
    only := [];
    assert ts[..0] == [];
    assert only == Filter(ts[..0], Unmatched(keys, key));
    hide Filter;
    for n := 0 to |ts|
      invariant only == Filter(ts[..n], Unmatched(keys, key))
    {
      assert ts[..n + 1] == ts[..n] + [ts[n]];
      FilterSnoc(ts[..n], ts[n], Unmatched(keys, key));
      if key(ts[n].message) !in keys {
        only := only + [ts[n]];
      }
    }
    assert ts[..|ts|] == ts;
  }

  /** `key` drops what two releases of one deployment differ in, such as a trailing version. */
  method CompareTriggers(ta: seq<Trigger>, tb: seq<Trigger>, key: string -> string) returns (appeared: seq<Trigger>,
                         dropped: seq<Trigger>)
    ensures (appeared, dropped) == TriggerDiff(ta, tb, key)
  {
    appeared := OnlyHere(ta, KeysOfTriggers(tb, key), key);
    dropped := OnlyHere(tb, KeysOfTriggers(ta, key), key);
  }

  function TriggerDiff(ta: seq<Trigger>, tb: seq<Trigger>, key: string -> string): (seq<Trigger>, seq<Trigger>) {
    (Filter(ta, Unmatched(KeysOfTriggers(tb, key), key)), Filter(tb, Unmatched(KeysOfTriggers(ta, key), key)))
  }

  /** Swapping the windows swaps new and dropped triggers; a trigger counts as new exactly when no
      trigger of the other window has its key, so no key is ever both new and dropped, and a window
      compared with itself reports nothing. */
  lemma TriggersMirror(ta: seq<Trigger>, tb: seq<Trigger>, key: string -> string, t: Trigger)
    ensures TriggerDiff(tb, ta, key) == (TriggerDiff(ta, tb, key).1, TriggerDiff(ta, tb, key).0)
    ensures t in TriggerDiff(ta, tb, key).0 <==> t in ta && forall u :: u in tb ==> key(u.message) != key(t.message)
    ensures forall u :: t in TriggerDiff(ta, tb, key).0 && u in TriggerDiff(ta, tb, key).1 ==>
      key(t.message) != key(u.message)
    ensures TriggerDiff(ta, ta, key) == ([], [])
  {
    hide Filter;
    forall u | u in ta ensures key(u.message) in KeysOfTriggers(ta, key) {}
    FilterNone(ta, Unmatched(KeysOfTriggers(ta, key), key));
  }
}
