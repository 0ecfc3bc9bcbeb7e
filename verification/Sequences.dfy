/** Sums, flattening, selection and stable sorting over sequences. */
module Sequences {

  datatype Option<+T> = None | Some(value: T)

  function MaxNat(a: nat, b: nat): nat { if a < b then b else a }

  function Total<T>(s: seq<T>, f: T -> nat): nat {
    if s == [] then 0 else f(s[0]) + Total(s[1..], f)
  }

  lemma {:induction false} TotalConcat<T>(s: seq<T>, t: seq<T>, f: T -> nat)
    ensures Total(s + t, f) == Total(s, f) + Total(t, f)
  {
    if s == [] {
      assert s + t == t;
    } else {
      assert (s + t)[1..] == s[1..] + t;
      TotalConcat(s[1..], t, f);
    }
  }

  lemma ConcatAssociative<T>(a: seq<T>, b: seq<T>, c: seq<T>)
    ensures (a + b) + c == a + (b + c)
  {
  }

  lemma TotalSnoc<T>(s: seq<T>, x: T, f: T -> nat)
    ensures Total(s + [x], f) == Total(s, f) + f(x)
  {
    TotalConcat(s, [x], f);
  }

  lemma RemoveOneElements<T>(t: seq<T>, k: nat)
    requires k < |t|
    ensures multiset(t[..k] + t[k + 1..]) == multiset(t) - multiset{t[k]}
  {
    assert t == t[..k] + [t[k]] + t[k + 1..];
  }

  lemma RemoveOneTotal<T>(t: seq<T>, k: nat, f: T -> nat)
    requires k < |t|
    ensures Total(t, f) == f(t[k]) + Total(t[..k] + t[k + 1..], f)
  {
    assert t == t[..k] + t[k..] && t[k..][1..] == t[k + 1..];
    TotalConcat(t[..k], t[k + 1..], f);
    TotalConcat(t[..k], t[k..], f);
  }

  lemma TotalHead<T>(s: seq<T>, f: T -> nat)
    ensures s != [] ==> Total(s, f) == f(s[0]) + Total(s[1..], f)
  {
  }

  lemma HeadRemoved<T>(s: seq<T>)
    requires s != []
    ensures multiset(s[1..]) == multiset(s) - multiset{s[0]}
  {
    assert s == [s[0]] + s[1..];
  }

  lemma OccursIn<T>(t: seq<T>, x: T) returns (k: nat)
    requires x in multiset(t)
    ensures k < |t| && t[k] == x
  {
    k :| 0 <= k < |t| && t[k] == x;
  }

  /** Removing one occurrence of the same element from both leaves the same elements. */
  lemma RemoveFromBoth<T>(s: seq<T>, t: seq<T>) returns (k: nat)
    requires multiset(s) == multiset(t) && s != []
    ensures k < |t| && t[k] == s[0] && multiset(s[1..]) == multiset(t[..k] + t[k + 1..])
  {
    assert s[0] in s && s[0] in multiset(s);
    k := OccursIn(t, s[0]);
    HeadRemoved(s);
    RemoveOneElements(t, k);
  }

  lemma NothingLeftOver<T>(t: seq<T>)
    requires multiset(t) == multiset{}
    ensures t == []
  {
    assert |multiset(t)| == 0;
  }

  /** Two sequences with the same elements have the same sum. */
  lemma {:induction false} TotalPermutation<T>(s: seq<T>, t: seq<T>, f: T -> nat)
    requires multiset(s) == multiset(t)
    ensures Total(s, f) == Total(t, f)
    decreases |s|
  {
    hide *;
    if s == [] {
      NothingLeftOver(t);
    } else {
      var k := RemoveFromBoth(s, t);
      TotalHead(s, f);
      RemoveOneTotal(t, k, f);
      TotalPermutation(s[1..], t[..k] + t[k + 1..], f);
    }
  }

  lemma {:induction false} TotalPointwise<S, T>(s: seq<S>, f: S -> nat, t: seq<T>, g: T -> nat)
    requires |s| == |t| && forall k :: 0 <= k < |s| ==> f(s[k]) == g(t[k])
    ensures Total(s, f) == Total(t, g)
  {
    if s != [] {
      assert f(s[0]) == g(t[0]);
      assert forall k :: 0 <= k < |s[1..]| ==> s[1..][k] == s[k + 1] && t[1..][k] == t[k + 1];
      TotalPointwise(s[1..], f, t[1..], g);
    }
  }

  lemma {:induction false} TotalBounds<T>(s: seq<T>, f: T -> nat, x: T)
    requires x in s
    ensures f(x) <= Total(s, f)
  {
    if x != s[0] {
      TotalBounds(s[1..], f, x);
    }
  }

  function Flatten<T>(ss: seq<seq<T>>): seq<T> {
    if ss == [] then [] else ss[0] + Flatten(ss[1..])
  }

  lemma {:induction false} FlattenConcat<T>(a: seq<seq<T>>, b: seq<seq<T>>)
    ensures Flatten(a + b) == Flatten(a) + Flatten(b)
  {
    if a == [] {
      assert a + b == b;
    } else {
      assert (a + b)[1..] == a[1..] + b;
      FlattenConcat(a[1..], b);
    }
  }

  /** Appending one element to one of the parts adds exactly that element to the whole. */
  lemma FlattenAppendAt<T>(ss: seq<seq<T>>, k: nat, x: T)
    requires k < |ss|
    ensures multiset(Flatten(ss[k := ss[k] + [x]])) == multiset(Flatten(ss)) + multiset{x}
  {
    var tt := ss[k := ss[k] + [x]];
    assert ss == ss[..k] + ([ss[k]] + ss[k + 1..]);
    assert tt == ss[..k] + ([tt[k]] + ss[k + 1..]);
    FlattenConcat(ss[..k], [ss[k]] + ss[k + 1..]);
    FlattenConcat(ss[..k], [tt[k]] + ss[k + 1..]);
    assert ([ss[k]] + ss[k + 1..])[1..] == ss[k + 1..];
    assert ([tt[k]] + ss[k + 1..])[1..] == ss[k + 1..];
  }

  lemma {:induction false} TotalOfParts<T>(ss: seq<seq<T>>, f: T -> nat)
    ensures Total(Flatten(ss), f) == Total(ss, (s: seq<T>) => Total(s, f))
  {
    if ss != [] {
      TotalOfParts(ss[1..], f);
      TotalConcat(ss[0], Flatten(ss[1..]), f);
    }
  }

  function Range(n: nat): (r: seq<nat>)
    ensures |r| == n && forall i :: 0 <= i < n ==> r[i] == i
  {
    seq(n, i => i)
  }

  function Map<S, T>(s: seq<S>, f: S -> T): (r: seq<T>)
    ensures |r| == |s| && forall i :: 0 <= i < |s| ==> r[i] == f(s[i])
  {
    seq(|s|, i requires 0 <= i < |s| => f(s[i]))
  }

  function Filter<T>(s: seq<T>, keep: T -> bool): (r: seq<T>)
    ensures forall x :: x in r ==> x in s && keep(x)
    ensures forall x :: x in s && keep(x) ==> x in r
  {
    if s == [] then [] else
      assert s == [s[0]] + s[1..];
      (if keep(s[0]) then [s[0]] else []) + Filter(s[1..], keep)
  }

  lemma {:induction false} FilterConcat<T>(s: seq<T>, t: seq<T>, keep: T -> bool)
    ensures Filter(s + t, keep) == Filter(s, keep) + Filter(t, keep)
  {
    if s == [] {
      assert s + t == t;
    } else {
      assert (s + t)[1..] == s[1..] + t;
      FilterConcat(s[1..], t, keep);
    }
  }

  lemma {:induction false} FilterNone<T>(s: seq<T>, keep: T -> bool)
    requires forall x :: x in s ==> !keep(x)
    ensures Filter(s, keep) == []
  {
    if s != [] {
      FilterNone(s[1..], keep);
    }
  }

  lemma FilterSnoc<T>(s: seq<T>, x: T, keep: T -> bool)
    ensures Filter(s + [x], keep) == if keep(x) then Filter(s, keep) + [x] else Filter(s, keep)
  {
    FilterConcat(s, [x], keep);
    assert Filter([x], keep) == if keep(x) then [x] else [];
  }

  lemma SomeMember<T>(s: seq<T>)
    ensures s == [] || exists x :: x in s
  {
    if s != [] {
      assert s[0] in s;
    }
  }

  ghost predicate NoRepeats<T>(s: seq<T>) { forall i, j :: 0 <= i < j < |s| ==> s[i] != s[j] }

  lemma {:induction false} NoRepeatsMultiset<T>(s: seq<T>, x: T)
    requires NoRepeats(s)
    ensures multiset(s)[x] == if x in s then 1 else 0
  {
    if s != [] {
      assert s == [s[0]] + s[1..];
      NoRepeatsMultiset(s[1..], x);
    }
  }

  ghost predicate DistinctBy<T, K>(s: seq<T>, key: T -> K) {
    forall i, j :: 0 <= i < j < |s| ==> key(s[i]) != key(s[j])
  }

  /** What filtering keeps differs in the key if everything did. */
  lemma {:induction false} FilterDistinctBy<T, K>(s: seq<T>, keep: T -> bool, key: T -> K)
    requires DistinctBy(s, key)
    ensures DistinctBy(Filter(s, keep), key)
  {
    if s != [] {
      var rest, r := s[1..], Filter(s[1..], keep);
      assert forall i :: 0 <= i < |rest| ==> rest[i] == s[i + 1];
      FilterDistinctBy(rest, keep, key);
      forall j | 0 <= j < |r| ensures key(r[j]) != key(s[0]) {
        assert r[j] in r;
        var m :| 0 <= m < |rest| && rest[m] == r[j];
      }
      assert Filter(s, keep) == if keep(s[0]) then [s[0]] + r else r;
    }
  }

  lemma FilterNoRepeats<T>(s: seq<T>, keep: T -> bool)
    requires NoRepeats(s)
    ensures NoRepeats(Filter(s, keep))
  {
    hide Filter;
    FilterDistinctBy(s, keep, (x: T) => x);
  }

  function Without<T>(s: seq<T>, k: nat): seq<T>
    requires k < |s|
  {
    s[..k] + s[k + 1..]
  }

  lemma UniqueOccurrence<T>(s: seq<T>, k: nat)
    requires k < |s|
    ensures multiset(s)[s[k]] >= 1
    ensures multiset(s)[s[k]] == 1 <==> forall j :: 0 <= j < |s| && j != k ==> s[j] != s[k]
  {
    RemoveOneElements(s, k);
    var rest := Without(s, k);
    if s[k] in multiset(rest) {
      var i :| 0 <= i < |rest| && rest[i] == s[k];
      assert s[if i < k then i else i + 1] == s[k];
    } else {
      forall j | 0 <= j < |s| && j != k ensures s[j] != s[k] {
        assert rest[if j < k then j else j - 1] == s[j];
      }
    }
  }

  /** Listing a set repeats nothing. */
  lemma ListedSet<T>(s: seq<T>, members: set<T>)
    requires multiset(s) == multiset(members)
    ensures NoRepeats(s) && forall x :: x in s <==> x in members
  {
    forall i, j | 0 <= i < j < |s| ensures s[i] != s[j] {
      UniqueOccurrence(s, i);
      assert s[i] in multiset(s);
    }
    forall x ensures x in s <==> x in members {
      assert x in s <==> x in multiset(s);
    }
  }

  // ---- Stable sorting (what `sorted` and `list.sort` do) ----

  ghost predicate TotalPreorder<T(!new)>(le: (T, T) -> bool) {
    && (forall x, y :: le(x, y) || le(y, x))
    && (forall x, y, z :: le(x, y) && le(y, z) ==> le(x, z))
  }

  ghost predicate SortedBy<T>(s: seq<T>, le: (T, T) -> bool) {
    forall i, j :: 0 <= i < j < |s| ==> le(s[i], s[j])
  }

  function Insert<T>(x: T, s: seq<T>, le: (T, T) -> bool): (r: seq<T>)
    ensures multiset(r) == multiset{x} + multiset(s)
  {
    if s == [] || le(x, s[0]) then [x] + s
    else
      assert s == [s[0]] + s[1..];
      [s[0]] + Insert(x, s[1..], le)
  }

  /** The stable sort of `s`: each element goes before the equal elements that followed it. */
  function Sort<T>(s: seq<T>, le: (T, T) -> bool): (r: seq<T>)
    ensures multiset(r) == multiset(s) && |r| == |s|
  {
    if s == [] then []
    else
      assert s == [s[0]] + s[1..];
      var r := Insert(s[0], Sort(s[1..], le), le);
      assert |multiset(r)| == |multiset(s)|;
      r
  }

  lemma {:induction false} InsertSorted<T(!new)>(x: T, s: seq<T>, le: (T, T) -> bool)
    requires TotalPreorder(le) && SortedBy(s, le)
    ensures SortedBy(Insert(x, s, le), le)
  {
    if s == [] || le(x, s[0]) {
    } else {
      var t := Insert(x, s[1..], le);
      InsertSorted(x, s[1..], le);
      forall j | 0 <= j < |t| ensures le(s[0], t[j]) {
        assert t[j] in multiset(t);
        assert t[j] == x || t[j] in s[1..];
      }
    }
  }

  lemma {:induction false} SortSorted<T(!new)>(s: seq<T>, le: (T, T) -> bool)
    requires TotalPreorder(le)
    ensures SortedBy(Sort(s, le), le)
  {
    if s != [] {
      SortSorted(s[1..], le);
      InsertSorted(s[0], Sort(s[1..], le), le);
    }
  }

  /** The elements of a one-element sequence that are kept. */
  function Just<T>(x: T, keep: T -> bool): seq<T> { if keep(x) then [x] else [] }

  lemma FilterCons<T>(x: T, s: seq<T>, keep: T -> bool)
    ensures Filter([x] + s, keep) == Just(x, keep) + Filter(s, keep)
  {
    assert ([x] + s)[1..] == s;
  }

  lemma InsertHead<T>(x: T, s: seq<T>, le: (T, T) -> bool)
    requires s != []
    ensures Insert(x, s, le) == if le(x, s[0]) then [x] + s else [s[0]] + Insert(x, s[1..], le)
  {
  }

  lemma EitherFirst<T>(a: seq<T>, h: seq<T>, rest: seq<T>)
    requires a == [] || h == []
    ensures h + (a + rest) == a + (h + rest)
  {
  }

  lemma {:induction false} InsertStable<T>(x: T, s: seq<T>, le: (T, T) -> bool, keep: T -> bool)
    requires forall y, z :: keep(y) && keep(z) ==> le(y, z)
    ensures Filter(Insert(x, s, le), keep) == Just(x, keep) + Filter(s, keep)
  {
    if s == [] {
      FilterCons(x, s, keep);
      assert Insert(x, s, le) == [x] + s;
    } else {
      InsertHead(x, s, le);
      assert [s[0]] + s[1..] == s;
      assert Just(x, keep) == [] || Just(s[0], keep) == [] || le(x, s[0]);
      hide *;
      if le(x, s[0]) {
        FilterCons(x, s, keep);
      } else {
        InsertStable(x, s[1..], le, keep);
        FilterCons(s[0], Insert(x, s[1..], le), keep);
        FilterCons(s[0], s[1..], keep);
        EitherFirst(Just(x, keep), Just(s[0], keep), Filter(s[1..], keep));
      }
    }
  }

  /** Sorting keeps the order of elements that compare equal. */
  lemma {:induction false} SortStable<T>(s: seq<T>, le: (T, T) -> bool, keep: T -> bool)
    requires forall y, z :: keep(y) && keep(z) ==> le(y, z)
    ensures Filter(Sort(s, le), keep) == Filter(s, keep)
  {
    if s != [] {
      SortStable(s[1..], le, keep);
      InsertStable(s[0], Sort(s[1..], le), le, keep);
    }
  }

  /** Sorting what is already in order moves nothing. */
  lemma {:induction false} SortFixed<T>(s: seq<T>, le: (T, T) -> bool)
    requires SortedBy(s, le)
    ensures Sort(s, le) == s
  {
    if s != [] {
      SortFixed(s[1..], le);
    }
  }
}
