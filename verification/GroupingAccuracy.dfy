/** Scoring an induced grouping of log lines against ground-truth labels. */
module GroupingAccuracy {
  import opened Sequences
  import opened Reals

  datatype Score = Score(value: real) | ValueError

  type Groups = map<string, set<nat>>

  /** The positions that carry a label. */
  function Positions(labels: seq<string>, l: string): set<nat> { set i: nat | i < |labels| && labels[i] == l }

  function LabelSet(labels: seq<string>): set<string> { set l | l in labels }

  /** Line `i` is grouped correctly: its predicted group is exactly its ground-truth group. */
  predicate Correct(truth: seq<string>, predicted: seq<string>, i: nat)
    requires |truth| == |predicted| && i < |truth|
  {
    Positions(predicted, predicted[i]) == Positions(truth, truth[i])
  }

  function CountCorrect(truth: seq<string>, predicted: seq<string>, n: nat): (c: nat)
    requires |truth| == |predicted| && n <= |truth|
    ensures c <= n
  {
    if n == 0 then 0 else CountCorrect(truth, predicted, n - 1) + if Correct(truth, predicted, n - 1) then 1 else 0
  }

  function AddTo(g: Groups, l: string, i: nat): Groups { g[l := (if l in g then g[l] else {}) + {i}] }

  ghost predicate Indexes(g: Groups, labels: seq<string>, n: nat)
    requires n <= |labels|
  {
    forall l :: (if l in g then g[l] else {}) == Positions(labels[..n], l)
  }

  lemma IndexStep(g: Groups, labels: seq<string>, n: nat)
    requires n < |labels| && Indexes(g, labels, n)
    ensures Indexes(AddTo(g, labels[n], n), labels, n + 1)
  {
    forall l ensures Positions(labels[..n + 1], l) == Positions(labels[..n], l) + if l == labels[n] then {n} else {} {
      assert forall i: nat :: i < n ==> labels[..n + 1][i] == labels[..n][i];
    }
  }

  method Accuracy(truth: seq<string>, predicted: seq<string>) returns (r: Score)
    ensures truth == [] ==> r == Score(0.0)
    ensures r.ValueError? <==> truth != [] && |predicted| != |truth|
    ensures truth != [] && |predicted| == |truth| ==>
      r == Score(CountCorrect(truth, predicted, |truth|) as real / |truth| as real)
  {
    var n := |truth|;
    if n == 0 {
      return Score(0.0);
    }
    if |predicted| != n {
      return ValueError;
    }
    var truthGroups: Groups, predictedGroups: Groups := map[], map[];
    for i := 0 to n
      invariant Indexes(truthGroups, truth, i) && Indexes(predictedGroups, predicted, i)
    {
      IndexStep(truthGroups, truth, i);
      IndexStep(predictedGroups, predicted, i);
      hide Indexes;
      truthGroups := AddTo(truthGroups, truth[i], i);
      predictedGroups := AddTo(predictedGroups, predicted[i], i);
    }
    assert truth[..n] == truth && predicted[..n] == predicted;
    var correct := 0;
    for i := 0 to n
      invariant correct == CountCorrect(truth, predicted, i)
    {
      var g := if truth[i] in truthGroups then truthGroups[truth[i]] else {};
      var p := if predicted[i] in predictedGroups then predictedGroups[predicted[i]] else {};
      assert g == Positions(truth, truth[i]) && p == Positions(predicted, predicted[i]);
      if p == g {
        correct := correct + 1;
      }
    }
    r := Score(correct as real / n as real);
  }

  // ---- What a perfect score means ----

  /** The two labelings put the same lines together. */
  ghost predicate SamePartition(truth: seq<string>, predicted: seq<string>)
    requires |truth| == |predicted|
  {
    forall i, j :: 0 <= i < |truth| && 0 <= j < |truth| ==> (truth[i] == truth[j] <==> predicted[i] == predicted[j])
  }

  lemma {:induction false} AllCorrectIff(truth: seq<string>, predicted: seq<string>, n: nat)
    requires |truth| == |predicted| && n <= |truth|
    ensures CountCorrect(truth, predicted, n) == n <==> forall i :: 0 <= i < n ==> Correct(truth, predicted, i)
  {
    if n > 0 {
      AllCorrectIff(truth, predicted, n - 1);
    }
  }

  lemma CorrectMeans(truth: seq<string>, predicted: seq<string>, i: nat)
    requires |truth| == |predicted| && i < |truth|
    ensures Correct(truth, predicted, i)
      <==> forall j :: 0 <= j < |truth| ==> (truth[j] == truth[i] <==> predicted[j] == predicted[i])
  {
    var p, t := Positions(predicted, predicted[i]), Positions(truth, truth[i]);
    if p == t {
      forall j | 0 <= j < |truth| ensures truth[j] == truth[i] <==> predicted[j] == predicted[i] {
        assert j in p <==> j in t;
      }
    }
  }

  lemma EveryLineIff(truth: seq<string>, predicted: seq<string>)
    requires |truth| == |predicted|
    ensures (forall i :: 0 <= i < |truth| ==> Correct(truth, predicted, i)) <==> SamePartition(truth, predicted)
  {
    hide Correct;
    forall i | 0 <= i < |truth|
      ensures Correct(truth, predicted, i)
        <==> forall j :: 0 <= j < |truth| ==> (truth[j] == truth[i] <==> predicted[j] == predicted[i])
    {
      CorrectMeans(truth, predicted, i);
    }
  }

  /** On non-empty input the score is 1 exactly when both labelings induce the same partition. */
  lemma PerfectIff(truth: seq<string>, predicted: seq<string>)
    requires truth != [] && |truth| == |predicted|
    ensures CountCorrect(truth, predicted, |truth|) as real / |truth| as real == 1.0
      <==> SamePartition(truth, predicted)
  {
    hide *;
    QuotientIs(CountCorrect(truth, predicted, |truth|) as real, |truth| as real, 1.0);
    AllCorrectIff(truth, predicted, |truth|);
    EveryLineIff(truth, predicted);
  }

  function TemplateCountRatio(truth: seq<string>, predicted: seq<string>): real {
    var gt := |LabelSet(truth)|;
    if gt == 0 then 0.0 else |LabelSet(predicted)| as real / gt as real
  }

  lemma LabelSetSnoc(front: seq<string>, l: string)
    ensures LabelSet(front + [l]) == LabelSet(front) + {l}
    ensures |LabelSet(front + [l])| == |LabelSet(front)| + if l in front then 0 else 1
  {
    var all := front + [l];
    assert forall x :: x in all <==> x in front || x == l;
    assert LabelSet(all) == LabelSet(front) + {l};
    if l in front { assert LabelSet(all) == LabelSet(front); }
  }

  /** Lines that share a label of `fine` share their label of `coarse`. */
  ghost predicate Refines(fine: seq<string>, coarse: seq<string>)
    requires |fine| == |coarse|
  {
    forall i, j :: 0 <= i < |fine| && 0 <= j < |fine| && fine[i] == fine[j] ==> coarse[i] == coarse[j]
  }

  lemma SeenBefore(fine: seq<string>, coarse: seq<string>)
    requires fine != [] && |fine| == |coarse| && Refines(fine, coarse)
    ensures var n := |fine| - 1; fine[n] in fine[..n] ==> coarse[n] in coarse[..n]
  {
    var n := |fine| - 1;
    if fine[n] in fine[..n] {
      var i :| 0 <= i < n && fine[..n][i] == fine[n];
      assert coarse[..n][i] == coarse[n];
    }
  }

  lemma SamePartitionSnoc(fine: seq<string>, coarse: seq<string>)
    requires fine != [] && |fine| == |coarse| && Refines(fine, coarse)
    requires var n := |fine| - 1; SamePartition(fine[..n], coarse[..n])
    requires var n := |fine| - 1; coarse[n] in coarse[..n] ==> fine[n] in fine[..n]
    ensures SamePartition(fine, coarse)
  {
    var n := |fine| - 1;
    var f, c := fine[..n], coarse[..n];
    forall i, j | 0 <= i < |fine| && 0 <= j < |fine| && coarse[i] == coarse[j] ensures fine[i] == fine[j] {
      var k := if i < n then i else j;
      if i < n && j < n {
        assert f[i] == f[j] <==> c[i] == c[j];
      } else if k < n {
        assert c[k] == coarse[n];
        var m :| 0 <= m < n && f[m] == fine[n];
        assert fine[m] == fine[n];
        assert f[m] == f[k] <==> c[m] == c[k];
      }
    }
  }

  /** A finer labeling has at least as many labels, and as many only if it is the same partition. */
  lemma {:induction false} FinerHasMoreLabels(fine: seq<string>, coarse: seq<string>)
    requires |fine| == |coarse| && Refines(fine, coarse)
    ensures |LabelSet(coarse)| <= |LabelSet(fine)|
    ensures |LabelSet(coarse)| == |LabelSet(fine)| ==> SamePartition(fine, coarse)
  {
    if fine == [] {
      assert fine == coarse;
    } else {
      var n := |fine| - 1;
      var f, c := fine[..n], coarse[..n];
      FinerHasMoreLabels(f, c);
      SeenBefore(fine, coarse);
      assert fine == f + [fine[n]] && coarse == c + [coarse[n]];
      LabelSetSnoc(f, fine[n]);
      LabelSetSnoc(c, coarse[n]);
      hide LabelSet;
      if |LabelSet(coarse)| == |LabelSet(fine)| {
        SamePartitionSnoc(fine, coarse);
      }
    }
  }

  lemma SameNumberOfLabels(truth: seq<string>, predicted: seq<string>)
    requires |truth| == |predicted| && SamePartition(truth, predicted)
    ensures |LabelSet(truth)| == |LabelSet(predicted)|
  {
    FinerHasMoreLabels(truth, predicted);
    FinerHasMoreLabels(predicted, truth);
  }

  /** Splitting ground-truth groups takes the ratio above 1 and merging them takes it below. */
  lemma RatioMeans(truth: seq<string>, predicted: seq<string>)
    requires truth != [] && |truth| == |predicted|
    ensures var r := TemplateCountRatio(truth, predicted);
      && (Refines(predicted, truth) ==> r >= 1.0)
      && (Refines(truth, predicted) ==> r <= 1.0)
      && (Refines(predicted, truth) || Refines(truth, predicted) ==> (r == 1.0 <==> SamePartition(truth, predicted)))
  {
    var t, p := LabelSet(truth), LabelSet(predicted);
    assert truth[0] in t;
    RatioAgainstOne(|p|, |t|);
    if SamePartition(truth, predicted) { SameNumberOfLabels(truth, predicted); }
    if Refines(predicted, truth) { FinerHasMoreLabels(predicted, truth); }
    if Refines(truth, predicted) { FinerHasMoreLabels(truth, predicted); }
  }

  lemma RatioAgainstOne(p: nat, t: nat)
    requires t > 0
    ensures (p as real / t as real >= 1.0 <==> p >= t) && (p as real / t as real <= 1.0 <==> p <= t)
  {
    QuotientAtLeast(p as real, t as real, 1.0);
    QuotientAtMost(p as real, t as real, 1.0);
  }

  /** The same partition forces a template-count ratio of 1. */
  lemma SamePartitionRatio(truth: seq<string>, predicted: seq<string>)
    requires truth != [] && |truth| == |predicted| && SamePartition(truth, predicted)
    ensures TemplateCountRatio(truth, predicted) == 1.0
  {
    RatioMeans(truth, predicted);
  }

  /** Renaming keeps apart the labels that occur. */
  ghost predicate OneToOne(rename: string -> string, labels: seq<string>) {
    forall a, b :: a in labels && b in labels && rename(a) == rename(b) ==> a == b
  }

  lemma RenamedPositions(labels: seq<string>, rename: string -> string, i: nat)
    requires OneToOne(rename, labels) && i < |labels|
    ensures var renamed := Map(labels, rename); Positions(renamed, renamed[i]) == Positions(labels, labels[i])
  {
    var renamed := Map(labels, rename);
    forall j: nat | j < |labels| ensures renamed[j] == renamed[i] <==> labels[j] == labels[i] {
      assert labels[j] in labels && labels[i] in labels;
    }
  }

  lemma {:induction false} RenamedCount(truth: seq<string>, predicted: seq<string>, f: string -> string,
                                        g: string -> string, n: nat)
    requires |truth| == |predicted| && n <= |truth| && OneToOne(f, truth) && OneToOne(g, predicted)
    ensures CountCorrect(Map(truth, f), Map(predicted, g), n) == CountCorrect(truth, predicted, n)
  {
    if n > 0 {
      hide Positions, OneToOne;
      RenamedCount(truth, predicted, f, g, n - 1);
      RenamedPositions(truth, f, n - 1);
      RenamedPositions(predicted, g, n - 1);
    }
  }

  lemma RenamedPartition(labels: seq<string>, rename: string -> string)
    requires OneToOne(rename, labels)
    ensures |LabelSet(Map(labels, rename))| == |LabelSet(labels)|
  {
    var renamed := Map(labels, rename);
    assert SamePartition(labels, renamed) by {
      forall i, j | 0 <= i < |labels| && 0 <= j < |labels|
        ensures labels[i] == labels[j] <==> renamed[i] == renamed[j]
      {
        assert labels[i] in labels && labels[j] in labels;
      }
    }
    SameNumberOfLabels(labels, renamed);
  }

  /** Renaming the labels of either side one-to-one changes neither the number of correctly grouped lines
      nor the template-count ratio. */
  lemma RenamingKeepsScore(truth: seq<string>, predicted: seq<string>, f: string -> string, g: string -> string)
    requires |truth| == |predicted| && OneToOne(f, truth) && OneToOne(g, predicted)
    ensures CountCorrect(Map(truth, f), Map(predicted, g), |truth|) == CountCorrect(truth, predicted, |truth|)
    ensures TemplateCountRatio(Map(truth, f), Map(predicted, g)) == TemplateCountRatio(truth, predicted)
  {
    hide LabelSet, CountCorrect, OneToOne;
    RenamedCount(truth, predicted, f, g, |truth|);
    RenamedPartition(truth, f);
    RenamedPartition(predicted, g);
  }
}
