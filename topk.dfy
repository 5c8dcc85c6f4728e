/**
 * The stream pipeline shared by `ContextRetriever.retrieve` and
 * `printTopRankedMatches`: take the entries of the ranked map, sort them by
 * score in reverse order and keep the first k.
 *
 * The map is a HashMap, whose iteration order the code does not fix. The
 * model makes that order explicit: `order` is any enumeration of the keys,
 * and the sort applied to it is stable (as `Stream.sorted` is), so two equal
 * scores keep the relative position they had in `order`.
 */
module TopK {
  import opened Wrappers
  import opened Domain

  datatype Entry = Entry(segment: Segment, score: real)

  /** Non-increasing scores, between any two positions. */
  predicate Descending(es: seq<Entry>)
  {
    forall i, j :: 0 <= i < j < |es| ==> es[i].score >= es[j].score
  }

  /** No value occurs twice. */
  predicate Distinct<T(==)>(s: seq<T>)
  {
    forall i, j :: 0 <= i < j < |s| ==> s[i] != s[j]
  }

  /** An iteration order of a key set: every key exactly once. */
  predicate IsEnumeration(order: seq<Segment>, keys: set<Segment>)
  {
    Distinct(order) && (forall s :: s in order ==> s in keys) && (forall s :: s in keys ==> s in order)
  }

  /** The entry set of the map, read in the given order. */
  function Entries(m: map<Segment, real>, order: seq<Segment>): (es: seq<Entry>)
    requires forall s :: s in order ==> s in m
    ensures |es| == |order|
    ensures forall i :: 0 <= i < |order| ==> es[i] == Entry(order[i], m[order[i]])
  {
    if order == [] then [] else [Entry(order[0], m[order[0]])] + Entries(m, order[1..])
  }

  /** Put `e` in front of the first entry whose score is not greater than its own. */
  function Insert(e: Entry, sorted: seq<Entry>): (r: seq<Entry>)
    ensures multiset(r) == multiset(sorted) + multiset{e}
  {
    if sorted == [] || e.score >= sorted[0].score then [e] + sorted
    else
      assert sorted == [sorted[0]] + sorted[1..];
      [sorted[0]] + Insert(e, sorted[1..])
  }

  /** `sorted(comparingByValue().reversed())`: a stable insertion sort, highest score first. */
  function SortByScore(es: seq<Entry>): (r: seq<Entry>)
    ensures multiset(r) == multiset(es)
  {
    if es == [] then []
    else
      assert es == [es[0]] + es[1..];
      Insert(es[0], SortByScore(es[1..]))
  }

  /** `limit(k)` */
  function Take(es: seq<Entry>, k: nat): (r: seq<Entry>)
    ensures |r| == Min(k, |es|) && r == es[..|r|]
  {
    if k < |es| then es[..k] else es
  }

  /** The entries the pipeline keeps, for the iteration order `order`. */
  function SelectTop(m: map<Segment, real>, order: seq<Segment>, k: nat): seq<Entry>
    requires IsEnumeration(order, m.Keys)
  {
    Take(SortByScore(Entries(m, order)), k)
  }

  // ---- the sort ----

  /** No entry scores above v. */
  predicate AllAtMost(es: seq<Entry>, v: real)
  {
    forall i :: 0 <= i < |es| ==> es[i].score <= v
  }

  lemma {:induction false} InsertAtMost(e: Entry, sorted: seq<Entry>, v: real)
    requires AllAtMost(sorted, v) && e.score <= v
    ensures AllAtMost(Insert(e, sorted), v)
  {
    if sorted != [] && e.score < sorted[0].score {
      InsertAtMost(e, sorted[1..], v);
    }
  }

  lemma ConsDescending(x: Entry, rest: seq<Entry>)
    requires Descending(rest) && AllAtMost(rest, x.score)
    ensures Descending([x] + rest)
  {
  }

  lemma {:induction false} InsertDescending(e: Entry, sorted: seq<Entry>)
    requires Descending(sorted)
    ensures Descending(Insert(e, sorted))
  {
    if sorted == [] || e.score >= sorted[0].score {
      assert AllAtMost(sorted, e.score);
      ConsDescending(e, sorted);
    } else {
      var tail := sorted[1..];
      InsertDescending(e, tail);
      assert AllAtMost(tail, sorted[0].score);
      InsertAtMost(e, tail, sorted[0].score);
      ConsDescending(sorted[0], Insert(e, tail));
    }
  }

  /** The sort returns the same entries, highest score first. */
  lemma {:induction false} SortByScoreDescending(es: seq<Entry>)
    ensures Descending(SortByScore(es))
  {
    if es != [] {
      SortByScoreDescending(es[1..]);
      InsertDescending(es[0], SortByScore(es[1..]));
    }
  }

  /** An already descending list is left as it is: with `>=`, an entry goes in front of its equals. */
  lemma {:induction false} SortByScoreOfDescending(es: seq<Entry>)
    requires Descending(es)
    ensures SortByScore(es) == es
  {
    if es != [] {
      SortByScoreOfDescending(es[1..]);
      assert es == [es[0]] + es[1..];
    }
  }

  // ---- multiset facts ----

  lemma {:induction false} DistinctCount<T>(s: seq<T>, x: T)
    requires Distinct(s)
    ensures multiset(s)[x] <= 1
  {
    if s != [] {
      DistinctCount(s[1..], x);
      assert s == [s[0]] + s[1..];
      if s[0] == x {
        assert x !in s[1..];
      }
    }
  }

  lemma RepeatCount<T>(s: seq<T>, i: nat, j: nat)
    requires i < j < |s| && s[i] == s[j]
    ensures multiset(s)[s[i]] >= 2
  {
    assert s == s[..j] + [s[j]] + s[j + 1..];
    assert s[..j][i] == s[i];
    assert s[i] in multiset(s[..j]);
  }

  lemma {:induction false} DistinctCardinality<T>(s: seq<T>)
    requires Distinct(s)
    ensures |set x | x in s| == |s|
  {
    if s != [] {
      DistinctCardinality(s[1..]);
      assert (set x | x in s) == (set x | x in s[1..]) + {s[0]};
      assert s[0] !in s[1..];
    }
  }

  /** An enumeration has one position per key. */
  lemma EnumerationLength(order: seq<Segment>, keys: set<Segment>)
    requires IsEnumeration(order, keys)
    ensures |order| == |keys|
  {
    DistinctCardinality(order);
    assert (set x | x in order) == keys;
  }

  /** Reading the entries along an enumeration yields each key once, with its own score. */
  lemma EntriesFacts(m: map<Segment, real>, order: seq<Segment>)
    requires IsEnumeration(order, m.Keys)
    ensures Distinct(Entries(m, order))
    ensures forall e :: e in Entries(m, order) <==> e.segment in m && e.score == m[e.segment]
  {
    var es := Entries(m, order);
    forall e: Entry | e.segment in m && e.score == m[e.segment]
      ensures e in es
    {
      var i :| 0 <= i < |order| && order[i] == e.segment;
      assert es[i] == e;
    }
  }

  // ---- the selection ----

  /** The sorted entry list holds exactly the map's entries, each once, highest score first. */
  lemma SortedEntries(m: map<Segment, real>, order: seq<Segment>)
    requires IsEnumeration(order, m.Keys)
    ensures var sorted := SortByScore(Entries(m, order));
            |sorted| == |m| && Descending(sorted) &&
            (forall e :: e in sorted <==> e.segment in m && e.score == m[e.segment]) &&
            Distinct(sorted)
  {
    var es := Entries(m, order);
    var sorted := SortByScore(es);
    EnumerationLength(order, m.Keys);
    EntriesFacts(m, order);
    SortByScoreDescending(es);
    assert |sorted| == |multiset(sorted)| == |multiset(es)| == |es|;
    forall e
      ensures e in sorted <==> e in es
    {
      assert e in sorted <==> e in multiset(sorted);
    }
    forall i, j | 0 <= i < j < |sorted|
      ensures sorted[i] != sorted[j]
    {
      if sorted[i] == sorted[j] {
        RepeatCount(sorted, i, j);
        DistinctCount(es, sorted[i]);
      }
    }
  }

  /** limit(k) keeps min(k, |m|) entries, highest score first, each an entry of the map. */
  lemma SelectTopEntries(m: map<Segment, real>, order: seq<Segment>, k: nat)
    requires IsEnumeration(order, m.Keys)
    ensures var r := SelectTop(m, order, k);
            |r| == Min(k, |m|) && Descending(r) &&
            (forall e :: e in r ==> e.segment in m && e.score == m[e.segment])
  {
    SortedEntries(m, order);
  }

  /** No key is selected twice. */
  lemma SelectTopDistinct(m: map<Segment, real>, order: seq<Segment>, k: nat)
    requires IsEnumeration(order, m.Keys)
    ensures var r := SelectTop(m, order, k);
            forall i, j :: 0 <= i < j < |r| ==> r[i].segment != r[j].segment
  {
    var sorted := SortByScore(Entries(m, order));
    SortedEntries(m, order);
    var r := SelectTop(m, order, k);
    forall i, j | 0 <= i < j < |r|
      ensures r[i].segment != r[j].segment
    {
      assert r[i] == sorted[i] && r[j] == sorted[j];
      assert sorted[i] in sorted && sorted[j] in sorted;
    }
  }

  /**
   * Top-k: a key scoring strictly above a selected entry is itself selected,
   * so no key left out scores above any selected entry.
   */
  lemma SelectTopMaximal(m: map<Segment, real>, order: seq<Segment>, k: nat, e: Entry, s: Segment)
    requires IsEnumeration(order, m.Keys)
    requires e in SelectTop(m, order, k) && s in m && m[s] > e.score
    ensures Entry(s, m[s]) in SelectTop(m, order, k)
  {
    var sorted := SortByScore(Entries(m, order));
    SortedEntries(m, order);
    HigherInPrefix(sorted, |SelectTop(m, order, k)|, e, Entry(s, m[s]));
  }

  /** In a descending list, an entry scoring above one of the first n entries is itself among them. */
  lemma HigherInPrefix(es: seq<Entry>, n: nat, e: Entry, x: Entry)
    requires Descending(es) && n <= |es| && e in es[..n] && x in es && x.score > e.score
    ensures x in es[..n]
  {
    var q :| 0 <= q < n && es[..n][q] == e;
    var p :| 0 <= p < |es| && es[p] == x;
    assert es[q] == e;
    assert p < q;
    assert es[..n][p] == x;
  }


  /** When k is at least the number of entries, every key of the map is selected. */
  lemma SelectTopComplete(m: map<Segment, real>, order: seq<Segment>, k: nat)
    requires IsEnumeration(order, m.Keys) && k >= |m|
    ensures forall s :: s in m ==> Entry(s, m[s]) in SelectTop(m, order, k)
  {
    var es := Entries(m, order);
    EnumerationLength(order, m.Keys);
    EntriesFacts(m, order);
    forall s | s in m
      ensures Entry(s, m[s]) in SelectTop(m, order, k)
    {
      assert Entry(s, m[s]) in multiset(es);
    }
  }

  // ---- what the iteration order can change ----

  /** The score column of a list of entries. */
  function Scores(es: seq<Entry>): (r: seq<real>)
    ensures |r| == |es| && forall i :: 0 <= i < |es| ==> r[i] == es[i].score
  {
    seq(|es|, i requires 0 <= i < |es| => es[i].score)
  }

  lemma {:induction false} DistinctMultiset<T>(s: seq<T>, x: T)
    requires Distinct(s)
    ensures multiset(s)[x] == if x in s then 1 else 0
  {
    DistinctCount(s, x);
  }

  lemma ScoresAppend(a: seq<Entry>, b: seq<Entry>)
    ensures Scores(a + b) == Scores(a) + Scores(b)
  {
  }

  /** Permuting the entries permutes their scores. */
  lemma {:induction false} ScoresMultiset(a: seq<Entry>, b: seq<Entry>)
    requires multiset(a) == multiset(b)
    ensures multiset(Scores(a)) == multiset(Scores(b))
    decreases |a|
  {
    if a == [] {
      assert |b| == |multiset(b)| == 0;
    } else {
      assert a[0] in multiset(b);
      var i :| 0 <= i < |b| && b[i] == a[0];
      var a', b' := a[1..], b[..i] + b[i + 1..];
      assert multiset(a') == multiset(b') by {
        RemoveAt(b, i);
        assert a == [a[0]] + a';
        assert multiset(a') == multiset(a) - multiset{a[0]};
      }
      ScoresMultiset(a', b');
      ScoresCons(a);
      ScoresRemoveAt(b, i);
    }
  }

  lemma ScoresCons(es: seq<Entry>)
    requires es != []
    ensures multiset(Scores(es)) == multiset{es[0].score} + multiset(Scores(es[1..]))
  {
    assert Scores(es) == [es[0].score] + Scores(es[1..]);
  }

  /** Taking out the entry at position i takes one copy of it out of the multiset. */
  lemma RemoveAt(es: seq<Entry>, i: nat)
    requires i < |es|
    ensures multiset(es[..i] + es[i + 1..]) == multiset(es) - multiset{es[i]}
  {
    assert es == es[..i] + [es[i]] + es[i + 1..];
  }

  /** ... and one copy of its score out of the score multiset. */
  lemma ScoresRemoveAt(es: seq<Entry>, i: nat)
    requires i < |es|
    ensures multiset(Scores(es)) == multiset(Scores(es[..i] + es[i + 1..])) + multiset{es[i].score}
  {
    var pre, post := es[..i], es[i + 1..];
    assert es == pre + [es[i]] + post;
    ScoresAppend(pre + [es[i]], post);
    ScoresAppend(pre, [es[i]]);
    ScoresAppend(pre, post);
    assert Scores([es[i]]) == [es[i].score];
  }


  predicate NonIncreasing(x: seq<real>)
  {
    forall i, j :: 0 <= i < j < |x| ==> x[i] >= x[j]
  }

  lemma HeadIsMax(x: seq<real>, v: real)
    requires NonIncreasing(x) && v in x
    ensures x[0] >= v
  {
    var i :| 0 <= i < |x| && x[i] == v;
    if i > 0 { assert x[0] >= x[i]; }
  }

  /** Removing equal heads from two lists with the same elements leaves lists with the same elements. */
  lemma MultisetTail(x: seq<real>, y: seq<real>)
    requires x != [] && y != [] && x[0] == y[0] && multiset(x) == multiset(y)
    ensures multiset(x[1..]) == multiset(y[1..])
  {
    var x', y' := x[1..], y[1..];
    assert multiset(x) == multiset{x[0]} + multiset(x') by { assert x == [x[0]] + x'; }
    assert multiset(y) == multiset{y[0]} + multiset(y') by { assert y == [y[0]] + y'; }
    assert multiset(x') == multiset(x) - multiset{x[0]};
    assert multiset(y') == multiset(y) - multiset{y[0]};
  }

  /** Two non-increasing score lists holding the same scores are equal. */
  lemma {:induction false} SortedScoresUnique(x: seq<real>, y: seq<real>)
    requires NonIncreasing(x) && NonIncreasing(y)
    requires multiset(x) == multiset(y)
    ensures x == y
    decreases |x|
  {
    if x == [] {
      assert |y| == |multiset(y)| == 0;
    } else {
      assert x[0] in multiset(y);
      assert y != [];
      assert y[0] in multiset(x);
      HeadIsMax(y, x[0]);
      HeadIsMax(x, y[0]);
      MultisetTail(x, y);
      SortedScoresUnique(x[1..], y[1..]);
      assert x == [x[0]] + x[1..] && y == [y[0]] + y[1..];
    }
  }

  /**
   * The iteration order of the map decides only which of several equally
   * scored entries come first: the column of selected scores is the same
   * for every enumeration of the keys.
   */
  lemma SelectTopScoresDeterministic(m: map<Segment, real>, o1: seq<Segment>, o2: seq<Segment>, k: nat)
    requires IsEnumeration(o1, m.Keys) && IsEnumeration(o2, m.Keys)
    ensures Scores(SelectTop(m, o1, k)) == Scores(SelectTop(m, o2, k))
  {
    var s1, s2 := SortByScore(Entries(m, o1)), SortByScore(Entries(m, o2));
    SortedScores(m, o1, o2);
    TakeScores(s1, k);
    TakeScores(s2, k);
  }

  /** The sorted score column does not depend on the enumeration. */
  lemma SortedScores(m: map<Segment, real>, o1: seq<Segment>, o2: seq<Segment>)
    requires IsEnumeration(o1, m.Keys) && IsEnumeration(o2, m.Keys)
    ensures Scores(SortByScore(Entries(m, o1))) == Scores(SortByScore(Entries(m, o2)))
  {
    var s1, s2 := SortByScore(Entries(m, o1)), SortByScore(Entries(m, o2));
    SameSortedEntries(m, o1, o2);
    ScoresMultiset(s1, s2);
    SortByScoreDescending(Entries(m, o1));
    SortByScoreDescending(Entries(m, o2));
    DescendingScores(s1);
    DescendingScores(s2);
    SortedScoresUnique(Scores(s1), Scores(s2));
  }

  lemma TakeScores(es: seq<Entry>, k: nat)
    ensures Scores(Take(es, k)) == Scores(es)[..Min(k, |es|)]
  {
  }

  /** Whatever the enumeration, the sort receives and returns the same entries. */
  lemma SameSortedEntries(m: map<Segment, real>, o1: seq<Segment>, o2: seq<Segment>)
    requires IsEnumeration(o1, m.Keys) && IsEnumeration(o2, m.Keys)
    ensures multiset(SortByScore(Entries(m, o1))) == multiset(SortByScore(Entries(m, o2)))
  {
    SortedEntries(m, o1);
    SortedEntries(m, o2);
    DistinctSameMembers(SortByScore(Entries(m, o1)), SortByScore(Entries(m, o2)));
  }

  /** Two lists without repetitions that hold the same values are permutations of each other. */
  lemma DistinctSameMembers<T>(x: seq<T>, y: seq<T>)
    requires Distinct(x) && Distinct(y) && forall v :: v in x <==> v in y
    ensures multiset(x) == multiset(y)
  {
    forall v
      ensures multiset(x)[v] == multiset(y)[v]
    {
      DistinctMultiset(x, v);
      DistinctMultiset(y, v);
    }
  }


  lemma DescendingScores(es: seq<Entry>)
    requires Descending(es)
    ensures NonIncreasing(Scores(es))
  {
  }

  /** `entrySet()` of a HashMap: some enumeration of the keys, which the code does not fix. */
  method EnumerateKeys(m: map<Segment, real>) returns (order: seq<Segment>)
    ensures IsEnumeration(order, m.Keys)
  {
    order := [];
    var rest := m.Keys;
    while rest != {}
      invariant Distinct(order)
      invariant forall s :: s in order ==> s in m.Keys && s !in rest
      invariant forall s :: s in m.Keys ==> s in order || s in rest
      invariant rest <= m.Keys
      decreases |rest|
    {
      var s :| s in rest;
      order := order + [s];
      rest := rest - {s};
    }
  }
}
