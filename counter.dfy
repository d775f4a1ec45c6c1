/**
 * Python's `collections.Counter` over a sequence and its `most_common(n)`.
 *
 * `Counter(xs)` keeps its keys in first-encountered order, and `most_common(n)` is
 * `heapq.nlargest(n, items, key=count)`, which returns what the stable
 * `sorted(items, key=count, reverse=True)[:n]` returns. On keys in first-encountered
 * order that is the order "higher count first, then earlier first occurrence first",
 * a strict total order on the distinct elements; `Rank` sorts by it.
 */
module Counter {
  import opened Seqs

  /** `Counter(xs)`, built one element at a time as `Counter.update` does. */
  function Tally<T(==,!new)>(xs: seq<T>): (c: map<T, nat>)
    ensures forall x :: x in c <==> x in xs
    ensures forall x :: x in c ==> c[x] == Count(xs, x)
  {
    if xs == [] then map[]
    else
      var init, last := xs[..|xs| - 1], xs[|xs| - 1];
      assert xs == init + [last];
      var c := Tally(init);
      CountAppendAll(init, [last]);
      CountPositive(init, last);
      assert [last][1..] == [];
      assert forall x :: Count([last], x) == if x == last then 1 else 0;
      c[last := (if last in c then c[last] else 0) + 1]
  }

  /** Sum of the counts `c` holds for the keys `ks`. */
  function SumCounts<T(==)>(ks: seq<T>, c: map<T, nat>): nat
    requires forall i :: 0 <= i < |ks| ==> ks[i] in c
  {
    if ks == [] then 0 else c[ks[0]] + SumCounts(ks[1..], c)
  }

  /** Sum over `ks` of the number of occurrences of each in `xs`. */
  function SumOccurrences<T(==)>(ks: seq<T>, xs: seq<T>): nat
  {
    if ks == [] then 0 else Count(xs, ks[0]) + SumOccurrences(ks[1..], xs)
  }

  lemma {:induction false} SumOccurrencesCons<T>(ks: seq<T>, x: T, t: seq<T>)
    ensures SumOccurrences(ks, [x] + t) == Count(ks, x) + SumOccurrences(ks, t)
  {
    if ks != [] {
      assert ([x] + t)[1..] == t;
      SumOccurrencesCons(ks[1..], x, t);
    }
  }

  lemma {:induction false} CountOfNoDup<T>(ks: seq<T>, x: T)
    requires NoDup(ks)
    ensures Count(ks, x) == if x in ks then 1 else 0
  {
    if ks != [] {
      CountOfNoDup(ks[1..], x);
      assert ks[0] == x ==> x !in ks[1..];
      assert x in ks <==> ks[0] == x || x in ks[1..];
    }
  }

  /** Over distinct keys that cover `xs`, the occurrence counts add up to `|xs|`. */
  lemma {:induction false} SumOccurrencesCover<T>(ks: seq<T>, xs: seq<T>)
    requires NoDup(ks)
    requires forall x :: x in xs ==> x in ks
    ensures SumOccurrences(ks, xs) == |xs|
  {
    if xs == [] {
      SumOccurrencesEmpty(ks, xs);
    } else {
      assert xs == [xs[0]] + xs[1..];
      SumOccurrencesCons(ks, xs[0], xs[1..]);
      CountOfNoDup(ks, xs[0]);
      SumOccurrencesCover(ks, xs[1..]);
    }
  }

  lemma {:induction false} SumOccurrencesEmpty<T>(ks: seq<T>, xs: seq<T>)
    requires xs == []
    ensures SumOccurrences(ks, xs) == 0
  {
    if ks != [] {
      SumOccurrencesEmpty(ks[1..], xs);
    }
  }

  lemma {:induction false} SumCountsOfTally<T(!new)>(ks: seq<T>, xs: seq<T>)
    requires forall i :: 0 <= i < |ks| ==> ks[i] in xs
    ensures forall i :: 0 <= i < |ks| ==> ks[i] in Tally(xs)
    ensures SumCounts(ks, Tally(xs)) == SumOccurrences(ks, xs)
  {
    if ks != [] {
      SumCountsOfTally(ks[1..], xs);
    }
  }

  /** The counts of a `Counter` add up to the number of elements counted. */
  lemma TallyTotal<T(!new)>(xs: seq<T>)
    ensures forall i :: 0 <= i < |Distinct(xs)| ==> Distinct(xs)[i] in Tally(xs)
    ensures SumCounts(Distinct(xs), Tally(xs)) == |xs|
  {
    var d := Distinct(xs);
    assert forall i :: 0 <= i < |d| ==> d[i] in xs by {
      forall i | 0 <= i < |d| ensures d[i] in xs {
        assert d[i] in d;
      }
    }
    SumCountsOfTally(d, xs);
    SumOccurrencesCover(d, xs);
  }

  /** A distinct element with its count and the position where it first occurs. */
  datatype Entry<T> = Entry(key: T, count: nat, first: nat)

  /** `a` ranks ahead of `b`: higher count, or the same count and met earlier. */
  predicate Before<T>(a: Entry<T>, b: Entry<T>)
  {
    a.count > b.count || (a.count == b.count && a.first < b.first)
  }

  /** Strictly ordered by `Before`. */
  predicate Ranked<T>(es: seq<Entry<T>>)
  {
    forall i, j :: 0 <= i < j < |es| ==> Before(es[i], es[j])
  }

  function Insert<T(==,!new)>(x: Entry<T>, es: seq<Entry<T>>): (r: seq<Entry<T>>)
    ensures |r| == |es| + 1
    ensures forall e :: e in r <==> e == x || e in es
  {
    if es == [] || Before(x, es[0]) then [x] + es
    else [es[0]] + Insert(x, es[1..])
  }

  /** Insertion sort by `Before`. */
  function Rank<T(==,!new)>(es: seq<Entry<T>>): (r: seq<Entry<T>>)
    ensures |r| == |es|
    ensures forall e :: e in r <==> e in es
  {
    if es == [] then [] else Insert(es[0], Rank(es[1..]))
  }

  lemma {:induction false} InsertRanked<T(!new)>(x: Entry<T>, es: seq<Entry<T>>)
    requires Ranked(es)
    requires forall e :: e in es ==> e.first != x.first
    ensures Ranked(Insert(x, es))
  {
    if es != [] && !Before(x, es[0]) {
      assert Before(es[0], x);
      InsertRanked(x, es[1..]);
      var r := Insert(x, es[1..]);
      forall e | e in r ensures Before(es[0], e) {
        if e != x {
          var j :| 1 <= j < |es| && es[j] == e;
        }
      }
      assert ([es[0]] + r)[1..] == r;
      forall i, j | 0 <= i < j < |[es[0]] + r| ensures Before(([es[0]] + r)[i], ([es[0]] + r)[j]) {
        if i == 0 {
          assert ([es[0]] + r)[j] == r[j - 1];
          assert r[j - 1] in r;
        }
      }
    }
  }

  /** Entries with pairwise different first positions come out `Ranked`. */
  lemma {:induction false} RankRanked<T(!new)>(es: seq<Entry<T>>)
    requires forall i, j :: 0 <= i < j < |es| ==> es[i].first != es[j].first
    ensures Ranked(Rank(es))
  {
    if es != [] {
      RankRanked(es[1..]);
      forall e | e in Rank(es[1..]) ensures e.first != es[0].first {
        var j :| 0 <= j < |es[1..]| && es[1..][j] == e;
        assert es[j + 1] == e;
      }
      InsertRanked(es[0], Rank(es[1..]));
    }
  }

  /** `e` is the entry of `Counter(xs)` for `e.key`. */
  predicate EntryOf<T(==)>(xs: seq<T>, e: Entry<T>)
  {
    e.key in xs && e.count == Count(xs, e.key) && e.first == FirstIndex(xs, e.key)
  }

  /** The items of `Counter(xs)` in first-encountered order, each with its first position. */
  function Entries<T(==,!new)>(xs: seq<T>): (es: seq<Entry<T>>)
    ensures |es| == |Distinct(xs)|
    ensures forall e :: e in es ==> EntryOf(xs, e)
    ensures forall x :: x in xs ==> Entry(x, Count(xs, x), FirstIndex(xs, x)) in es
    ensures forall i, j :: 0 <= i < j < |es| ==> es[i].first != es[j].first
  {
    var d := Distinct(xs);
    var c := Tally(xs);
    var es := seq(|d|, i requires 0 <= i < |d| => Entry(d[i], c[d[i]], FirstIndex(xs, d[i])));
    assert forall x :: x in xs ==> Entry(x, Count(xs, x), FirstIndex(xs, x)) in es by {
      forall x | x in xs ensures Entry(x, Count(xs, x), FirstIndex(xs, x)) in es {
        var i :| 0 <= i < |d| && d[i] == x;
        assert es[i] == Entry(x, Count(xs, x), FirstIndex(xs, x));
      }
    }
    assert forall i, j :: 0 <= i < j < |es| ==> es[i].first != es[j].first by {
      forall i, j | 0 <= i < j < |es| ensures es[i].first != es[j].first {
        assert xs[es[i].first] == d[i] && xs[es[j].first] == d[j];
      }
    }
    es
  }

  /** Drop the first positions, keeping `(key, count)` pairs. */
  function Pairs<T>(es: seq<Entry<T>>): (ps: seq<(T, nat)>)
    ensures |ps| == |es|
  {
    seq(|es|, i requires 0 <= i < |es| => (es[i].key, es[i].count))
  }

  /**
   * `Counter(xs).most_common(n)`: at most `n` distinct elements with their true
   * counts, by non-increasing count with ties in first-encountered order, and no
   * omitted element ranks ahead of one that was listed.
   */
  function MostCommon<T(==,!new)>(xs: seq<T>, n: nat): (top: seq<(T, nat)>)
    ensures |top| == Min(n, |Distinct(xs)|)
    ensures forall i :: 0 <= i < |top| ==> top[i].0 in xs && top[i].1 == Count(xs, top[i].0)
    ensures NoDup(Keys(top))
    ensures forall i, j :: 0 <= i < j < |top| ==>
              top[i].1 > top[j].1 ||
              (top[i].1 == top[j].1 && FirstIndex(xs, top[i].0) < FirstIndex(xs, top[j].0))
    ensures forall x, i :: x in xs && x !in Keys(top) && 0 <= i < |top| ==>
              Count(xs, x) < top[i].1 ||
              (Count(xs, x) == top[i].1 && FirstIndex(xs, top[i].0) < FirstIndex(xs, x))
    ensures |top| < n ==> forall x :: x in xs ==> x in Keys(top)
  {
    var es := Entries(xs);
    var ranked := Rank(es);
    RankRanked(es);
    var k := Min(n, |ranked|);
    var top := Pairs(ranked[..k]);
    MostCommonFacts(xs, ranked, k, top);
    top
  }

  lemma MostCommonFacts<T(!new)>(xs: seq<T>, ranked: seq<Entry<T>>, k: nat, top: seq<(T, nat)>)
    requires Ranked(ranked)
    requires forall e :: e in ranked ==> EntryOf(xs, e)
    requires forall x :: x in xs ==> Entry(x, Count(xs, x), FirstIndex(xs, x)) in ranked
    requires k <= |ranked| && top == Pairs(ranked[..k])
    ensures forall i :: 0 <= i < |top| ==> top[i].0 in xs && top[i].1 == Count(xs, top[i].0)
    ensures NoDup(Keys(top))
    ensures forall i, j :: 0 <= i < j < |top| ==>
              top[i].1 > top[j].1 ||
              (top[i].1 == top[j].1 && FirstIndex(xs, top[i].0) < FirstIndex(xs, top[j].0))
    ensures forall x, i :: x in xs && x !in Keys(top) && 0 <= i < |top| ==>
              Count(xs, x) < top[i].1 ||
              (Count(xs, x) == top[i].1 && FirstIndex(xs, top[i].0) < FirstIndex(xs, x))
    ensures k < |ranked| || forall x :: x in xs ==> x in Keys(top)
  {
    assert forall i :: 0 <= i < k ==> ranked[i] in ranked && top[i] == (ranked[i].key, ranked[i].count);
    forall i, j | 0 <= i < j < |top| ensures Keys(top)[i] != Keys(top)[j] {
      assert Before(ranked[i], ranked[j]);
      assert EntryOf(xs, ranked[i]) && EntryOf(xs, ranked[j]);
    }
    forall x | x in xs && x !in Keys(top)
      ensures exists p :: k <= p < |ranked| && ranked[p] == Entry(x, Count(xs, x), FirstIndex(xs, x))
    {
      var e := Entry(x, Count(xs, x), FirstIndex(xs, x));
      var p :| 0 <= p < |ranked| && ranked[p] == e;
      assert forall q :: 0 <= q < k ==> Keys(top)[q] == ranked[q].key;
    }
    forall x, i | x in xs && x !in Keys(top) && 0 <= i < |top|
      ensures Count(xs, x) < top[i].1 ||
              (Count(xs, x) == top[i].1 && FirstIndex(xs, top[i].0) < FirstIndex(xs, x))
    {
      var p :| k <= p < |ranked| && ranked[p] == Entry(x, Count(xs, x), FirstIndex(xs, x));
      assert Before(ranked[i], ranked[p]);
    }
  }
}
