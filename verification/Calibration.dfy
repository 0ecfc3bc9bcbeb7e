/** Expected calibration error over (probability, correct) pairs, in exact arithmetic. */
module Calibration {
  import opened Sequences
  import opened Reals

  datatype Pair = Pair(p: real, correct: bool)

  function Outcome(x: Pair): real { if x.correct then 1.0 else 0.0 }
  function Confidence(x: Pair): real { x.p }
  /** How far one prediction is off, with its sign. */
  function Gap(x: Pair): real { Outcome(x) - x.p }
  function One(x: Pair): real { 1.0 }

  function Abs(r: real): (a: real)
    ensures a >= r && a >= -r && a >= 0.0
  {
    if r < 0.0 then -r else r
  }

  function Sum<T>(s: seq<T>, f: T -> real): real { if s == [] then 0.0 else f(s[0]) + Sum(s[1..], f) }

  // ---- The computation ----

  predicate InBin(x: Pair, b: nat, bins: nat)
    requires bins >= 1
  {
    (b as real / bins as real < x.p <= (b + 1) as real / bins as real) || (b == 0 && x.p <= 0.0)
  }

  function Bin(b: nat, bins: nat): Pair -> bool
    requires bins >= 1
  {
    (x: Pair) => InBin(x, b, bins)
  }

  /** What one bin adds: the distance of its accuracy from its confidence, weighted by its share. */
  function Term(bucket: seq<Pair>, total: nat): real
    requires total >= 1
  {
    if bucket == [] then 0.0
    else
      var conf := Sum(bucket, Confidence) / |bucket| as real;
      var acc := Sum(bucket, Outcome) / |bucket| as real;
      Abs(acc - conf) * (|bucket| as real / total as real)
  }

  function TermOf(pairs: seq<Pair>, bins: nat): nat -> real
    requires bins >= 1 && pairs != []
  {
    (b: nat) => Term(Filter(pairs, Bin(b, bins)), |pairs|)
  }

  function SumBins(f: nat -> real, n: nat): real { if n == 0 then 0.0 else SumBins(f, n - 1) + f(n - 1) }

  method Ece(pairs: seq<Pair>, bins: nat) returns (out: real)
    ensures pairs == [] || bins == 0 ==> out == 0.0
    ensures pairs != [] && bins >= 1 ==> out == SumBins(TermOf(pairs, bins), bins)
  {
    out := 0.0;
    if pairs == [] {
      return;
    }
    for b := 0 to bins
      invariant bins >= 1 ==> out == SumBins(TermOf(pairs, bins), b)
      invariant bins == 0 ==> out == 0.0
    {
      var bucket := Filter(pairs, Bin(b, bins));
      out := out + Term(bucket, |pairs|);
    }
  }

  // ---- Every probability falls in exactly one bin ----

  lemma ScaleOrder(x: nat, y: nat, bins: nat)
    requires x <= y && bins >= 1
    ensures x as real / bins as real <= y as real / bins as real
  {
    var q := y as real / bins as real;
    QuotientTimes(y as real, bins as real, q);
    QuotientAtMost(x as real, bins as real, q);
  }

  lemma BinsDisjoint(x: Pair, b: nat, c: nat, bins: nat)
    requires bins >= 1 && InBin(x, b, bins) && InBin(x, c, bins)
    ensures b == c
  {
    if b < c {
      ScaleOrder(0, c, bins);
      ScaleOrder(b + 1, c, bins);
    } else if c < b {
      ScaleOrder(0, b, bins);
      ScaleOrder(c + 1, b, bins);
    }
  }

  lemma {:induction false} FindBin(x: Pair, bins: nat, k: nat) returns (b: nat)
    requires bins >= 1 && k >= 1 && x.p <= k as real / bins as real
    ensures b < k && InBin(x, b, bins)
    decreases k
  {
    if k == 1 || x.p > (k - 1) as real / bins as real {
      b := k - 1;
    } else {
      b := FindBin(x, bins, k - 1);
    }
  }

  /** A probability of at most 1 lies in exactly one bin: the first if it is not positive, else the one that
      scaling it to the number of bins and rounding up gives. */
  lemma ExactlyOneBin(x: Pair, bins: nat) returns (b: nat)
    requires bins >= 1 && x.p <= 1.0
    ensures b < bins && forall c: nat :: InBin(x, c, bins) <==> c == b
    ensures if x.p <= 0.0 then b == 0 else b as real < x.p * bins as real <= (b + 1) as real
  {
    SelfQuotient(bins as real);
    b := FindBin(x, bins, bins);
    forall c: nat | InBin(x, c, bins) ensures c == b {
      BinsDisjoint(x, b, c, bins);
    }
    if x.p <= 0.0 {
      assert InBin(x, 0, bins);
    } else {
      QuotientAtLeast(b as real, bins as real, x.p);
      QuotientAtLeast((b + 1) as real, bins as real, x.p);
    }
  }

  // ---- Summation over bins ----

  function Part(pairs: seq<Pair>, bins: nat, d: Pair -> real): nat -> real
    requires bins >= 1
  {
    (b: nat) => Sum(Filter(pairs, Bin(b, bins)), d)
  }

  lemma {:induction false} SumConcat<T>(s: seq<T>, t: seq<T>, f: T -> real)
    ensures Sum(s + t, f) == Sum(s, f) + Sum(t, f)
  {
    if s == [] {
      assert s + t == t;
    } else {
      assert (s + t)[1..] == s[1..] + t;
      SumConcat(s[1..], t, f);
    }
  }

  /** Adding `v` at one position adds `v` to the sum. */
  lemma {:induction false} SumBinsBump(f: nat -> real, g: nat -> real, n: nat, at: nat, v: real)
    requires forall b: nat :: b < n ==> g(b) == f(b) + if b == at then v else 0.0
    ensures SumBins(g, n) == SumBins(f, n) + if at < n then v else 0.0
  {
    if n > 0 {
      SumBinsBump(f, g, n - 1, at, v);
    }
  }

  lemma PartStep(pairs: seq<Pair>, bins: nat, d: Pair -> real, b: nat)
    requires bins >= 1 && pairs != []
    ensures Part(pairs, bins, d)(b)
      == Part(pairs[1..], bins, d)(b) + if InBin(pairs[0], b, bins) then d(pairs[0]) else 0.0
  {
    SumConcat(if InBin(pairs[0], b, bins) then [pairs[0]] else [], Filter(pairs[1..], Bin(b, bins)), d);
  }

  lemma SumBinsZero(f: nat -> real, n: nat)
    requires forall b: nat :: b < n ==> f(b) == 0.0
    ensures SumBins(f, n) == 0.0
  {
  }

  /** The bins partition the pairs: any additive measure splits over them without loss. */
  lemma {:induction false} BinsPartition(pairs: seq<Pair>, bins: nat, d: Pair -> real)
    requires bins >= 1 && forall x :: x in pairs ==> x.p <= 1.0
    ensures SumBins(Part(pairs, bins, d), bins) == Sum(pairs, d)
  {
    if pairs == [] {
      SumBinsZero(Part(pairs, bins, d), bins);
    } else {
      BinsPartition(pairs[1..], bins, d);
      var home := ExactlyOneBin(pairs[0], bins);
      var f, g := Part(pairs[1..], bins, d), Part(pairs, bins, d);
      forall b: nat | b < bins ensures g(b) == f(b) + if b == home then d(pairs[0]) else 0.0 {
        PartStep(pairs, bins, d, b);
      }
      SumBinsBump(f, g, bins, home, d(pairs[0]));
    }
  }

  lemma {:induction false} SumGap(s: seq<Pair>)
    ensures Sum(s, Gap) == Sum(s, Outcome) - Sum(s, Confidence)
  {
    if s != [] {
      SumGap(s[1..]);
    }
  }

  lemma {:induction false} SumOnes(s: seq<Pair>)
    ensures Sum(s, One) == |s| as real
  {
    if s != [] {
      SumOnes(s[1..]);
    }
  }

  lemma {:induction false} SumSame(s: seq<Pair>, f: Pair -> real, g: Pair -> real)
    requires forall x :: x in s ==> f(x) == g(x)
    ensures Sum(s, f) == Sum(s, g)
  {
    if s != [] {
      SumSame(s[1..], f, g);
    }
  }

  /** Summed outcomes count the correct predictions. */
  lemma {:induction false} OutcomesCount(s: seq<Pair>)
    ensures Sum(s, Outcome) == |Filter(s, (x: Pair) => x.correct)| as real
  {
    if s != [] {
      OutcomesCount(s[1..]);
    }
  }

  lemma {:induction false} GapBound(s: seq<Pair>)
    requires forall x :: x in s ==> 0.0 <= x.p <= 1.0
    ensures Abs(Sum(s, Gap)) <= Sum(s, One)
  {
    if s != [] {
      GapBound(s[1..]);
    }
  }

  lemma AbsScaled(y: real, n: real, d: real)
    requires n > 0.0 && y * n == d
    ensures Abs(y) * n == Abs(d)
  {
    ProductOrder(0.0, y, n);
    DifferenceTimes(0.0, y, n);
  }

  /** The distance of two means is the distance of the sums, over the number. */
  lemma MeansApart(a: real, c: real, n: real, p: real, q: real)
    requires n > 0.0 && p == a / n && q == c / n
    ensures Abs(p - q) * n == Abs(a - c)
  {
    hide Abs;
    QuotientTimes(a, n, p);
    QuotientTimes(c, n, q);
    DifferenceTimes(p, q, n);
    AbsScaled(p - q, n, a - c);
  }

  /** The weight of a bin turns a distance of means into a distance of sums. */
  lemma Weighted(y: real, d: real, n: real, total: real)
    requires n > 0.0 && total > 0.0 && y * n == d
    ensures total * (y * (n / total)) == d
  {
    var w := n / total;
    QuotientTimes(n, total, w);
    Reassociate(y, w, total);
    Commute(total, y * w);
  }

  lemma TermOfMeans(bucket: seq<Pair>, total: nat)
    requires total >= 1 && bucket != []
    ensures total as real * Term(bucket, total) == Abs(Sum(bucket, Outcome) - Sum(bucket, Confidence))
  {
    hide Sum, Abs;
    var n, a, c := |bucket| as real, Sum(bucket, Outcome), Sum(bucket, Confidence);
    var acc, conf := a / n, c / n;
    MeansApart(a, c, n, acc, conf);
    Weighted(Abs(acc - conf), Abs(a - c), n, total as real);
  }

  /** A bin's term is the size of its summed gap, as a share of all pairs: how far the number of its correct
      predictions is from the number its probabilities promise. */
  lemma TermIsGap(bucket: seq<Pair>, total: nat)
    requires total >= 1
    ensures total as real * Term(bucket, total) == Abs(Sum(bucket, Gap))
    ensures Sum(bucket, Gap) == |Filter(bucket, (x: Pair) => x.correct)| as real - Sum(bucket, (x: Pair) => x.p)
  {
    SumGap(bucket);
    OutcomesCount(bucket);
    SumSame(bucket, Confidence, (x: Pair) => x.p);
    if bucket == [] {
      assert Sum(bucket, Gap) == 0.0;
    } else {
      hide Sum, Abs, Term;
      TermOfMeans(bucket, total);
    }
  }

  lemma TermAt(pairs: seq<Pair>, bins: nat, b: nat)
    requires pairs != [] && bins >= 1
    ensures |pairs| as real * TermOf(pairs, bins)(b) == Abs(Part(pairs, bins, Gap)(b))
    ensures (forall x :: x in pairs ==> 0.0 <= x.p <= 1.0) ==>
      Abs(Part(pairs, bins, Gap)(b)) <= Part(pairs, bins, One)(b)
  {
    hide Term, Sum, Filter, Abs, InBin;
    var bucket := Filter(pairs, Bin(b, bins));
    TermIsGap(bucket, |pairs|);
    if forall x :: x in pairs ==> 0.0 <= x.p <= 1.0 {
      GapBound(bucket);
    }
  }

  lemma ScaledStep(n: real, sum: real, term: real, old0: real, part: real)
    requires Abs(old0) <= n * sum && n * term == Abs(part)
    ensures Abs(old0 + part) <= n * (sum + term)
  {
    Distribute(n, sum, term);
  }

  lemma ScaledBound(n: real, sum: real, term: real, old0: real, part: real)
    requires n * sum <= old0 && n * term <= part
    ensures n * (sum + term) <= old0 + part
  {
    Distribute(n, sum, term);
  }

  lemma {:induction false} TriangleOverBins(pairs: seq<Pair>, bins: nat, n: nat)
    requires pairs != [] && bins >= 1
    ensures Abs(SumBins(Part(pairs, bins, Gap), n)) <= |pairs| as real * SumBins(TermOf(pairs, bins), n)
  {
    hide TermOf, Part, Abs;
    if n == 0 {
      assert Abs(0.0) == 0.0 by { AbsZero(); }
    } else {
      var f, g := Part(pairs, bins, Gap), TermOf(pairs, bins);
      TriangleOverBins(pairs, bins, n - 1);
      TermAt(pairs, bins, n - 1);
      ScaledStep(|pairs| as real, SumBins(g, n - 1), g(n - 1), SumBins(f, n - 1), f(n - 1));
    }
  }

  lemma AbsZero()
    ensures Abs(0.0) == 0.0
  {
  }

  lemma {:induction false} TermsBounded(pairs: seq<Pair>, bins: nat, n: nat)
    requires pairs != [] && bins >= 1 && forall x :: x in pairs ==> 0.0 <= x.p <= 1.0
    ensures |pairs| as real * SumBins(TermOf(pairs, bins), n) <= SumBins(Part(pairs, bins, One), n)
  {
    hide TermOf, Part, Abs;
    if n > 0 {
      var f, g := Part(pairs, bins, One), TermOf(pairs, bins);
      TermsBounded(pairs, bins, n - 1);
      TermAt(pairs, bins, n - 1);
      ScaledBound(|pairs| as real, SumBins(g, n - 1), g(n - 1), SumBins(f, n - 1), f(n - 1));
    }
  }

  lemma MeanBounds(a: real, c: real, n: real, ece: real)
    requires n > 0.0 && Abs(a - c) <= n * ece && n * ece <= n
    ensures Abs(a / n - c / n) <= ece <= 1.0
  {
    hide Abs;
    var p, q := a / n, c / n;
    MeansApart(a, c, n, p, q);
    Commute(n, ece);
    ProductOrder(Abs(p - q), ece, n);
    ProductOrder(ece, 1.0, n);
  }

  lemma ScaledBounds(pairs: seq<Pair>, bins: nat)
    requires pairs != [] && bins >= 1 && forall x :: x in pairs ==> 0.0 <= x.p <= 1.0
    ensures var ece := SumBins(TermOf(pairs, bins), bins); var n := |pairs| as real;
      Abs(Sum(pairs, Outcome) - Sum(pairs, Confidence)) <= n * ece && n * ece <= n
  {
    hide SumBins, Sum, Part, TermOf, Abs, Outcome, Confidence, Gap, One;
    BinsPartition(pairs, bins, Gap);
    BinsPartition(pairs, bins, One);
    TriangleOverBins(pairs, bins, bins);
    TermsBounded(pairs, bins, bins);
    SumGap(pairs);
    SumOnes(pairs);
  }

  /** For probabilities in [0, 1] the calibration error is at least the distance between mean accuracy
      and mean confidence, and at most 1. */
  lemma EceBounds(pairs: seq<Pair>, bins: nat)
    requires pairs != [] && bins >= 1 && forall x :: x in pairs ==> 0.0 <= x.p <= 1.0
    ensures var ece := SumBins(TermOf(pairs, bins), bins); var n := |pairs| as real;
      Abs(Sum(pairs, Outcome) / n - Sum(pairs, Confidence) / n) <= ece <= 1.0
  {
    hide *;
    ScaledBounds(pairs, bins);
    MeanBounds(Sum(pairs, Outcome), Sum(pairs, Confidence), |pairs| as real, SumBins(TermOf(pairs, bins), bins));
  }
}
