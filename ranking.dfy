/** The `filter(score > 0).sort((a, b) => b.score - a.score).slice(0, topN)`
    chain that both structured searches and the document scorer end with.
    `Array.prototype.sort` is stable, so a descending sort by score keeps
    equal scores in their original order: the result is ordered by score
    descending and then by original index ascending. Each element carries
    that index as `pos`. */
module Ranking {

  /** An element being ranked, its score, and its index before sorting. */
  datatype Scored<T> = Scored(item: T, score: int, pos: nat)

  /** `x` comes before `y` in the sorted output: a higher score, or the same
      score and an earlier original index. */
  predicate Precedes<T>(x: Scored<T>, y: Scored<T>) {
    x.score > y.score || (x.score == y.score && x.pos < y.pos)
  }

  /** The elements appear in the order of their original indices. */
  predicate InInputOrder<T>(s: seq<Scored<T>>) {
    forall i, j :: 0 <= i < j < |s| ==> s[i].pos < s[j].pos
  }

  /** Scores never increase along `s`, and equal scores keep their original
      order: what a stable descending sort produces. */
  predicate Ranked<T>(s: seq<Scored<T>>) {
    forall i, j :: 0 <= i < j < |s| ==> Precedes(s[i], s[j])
  }

  /** `.filter(item => item.score > 0)`. */
  function Positive<T>(s: seq<Scored<T>>): (r: seq<Scored<T>>)
    ensures |r| <= |s|
    ensures forall k :: 0 <= k < |r| ==> r[k].score > 0
  {
    if s == [] then []
    else (if s[0].score > 0 then [s[0]] else []) + Positive(s[1..])
  }

  lemma {:induction false} PositiveMembers<T>(s: seq<Scored<T>>)
    ensures forall x :: x in Positive(s) ==> x in s && x.score > 0
    ensures forall x :: x in s && x.score > 0 ==> x in Positive(s)
  {
    if s != [] {
      PositiveMembers(s[1..]);
      assert s == [s[0]] + s[1..];
    }
  }

  /** Filtering keeps the original order. */
  lemma {:induction false} PositiveInOrder<T>(s: seq<Scored<T>>)
    requires InInputOrder(s)
    ensures InInputOrder(Positive(s))
  {
    if s != [] {
      var tail := s[1..];
      PositiveInOrder(tail);
      PositiveMembers(tail);
      var rest := Positive(tail);
      forall k | 0 <= k < |rest|
        ensures s[0].pos < rest[k].pos
      {
        assert rest[k] in rest;
        var i :| 0 <= i < |tail| && tail[i] == rest[k];
        assert s[i + 1] == rest[k];
      }
    }
  }

  /** Inserts `x` in front of the first element it precedes. */
  function Insert<T>(x: Scored<T>, s: seq<Scored<T>>): (r: seq<Scored<T>>)
    ensures |r| == |s| + 1
  {
    if s == [] then [x]
    else if Precedes(x, s[0]) then [x] + s
    else [s[0]] + Insert(x, s[1..])
  }

  /** Sorting by `Precedes`: what the stable descending sort computes. */
  function SortRanked<T>(s: seq<Scored<T>>): (r: seq<Scored<T>>)
    ensures |r| == |s|
  {
    if s == [] then [] else Insert(s[0], SortRanked(s[1..]))
  }

  lemma {:induction false} InsertPermutes<T>(x: Scored<T>, s: seq<Scored<T>>)
    ensures multiset(Insert(x, s)) == multiset(s) + multiset{x}
  {
    if s != [] && !Precedes(x, s[0]) {
      var t := Insert(x, s[1..]);
      InsertPermutes(x, s[1..]);
      assert Insert(x, s) == [s[0]] + t;
      assert multiset([s[0]] + t) == multiset{s[0]} + multiset(t);
      assert multiset(s) == multiset{s[0]} + multiset(s[1..]) by {
        assert s == [s[0]] + s[1..];
      }
    }
  }

  lemma {:induction false} InsertRanked<T>(x: Scored<T>, s: seq<Scored<T>>)
    requires Ranked(s)
    requires forall k :: 0 <= k < |s| ==> s[k].pos != x.pos
    ensures Ranked(Insert(x, s))
  {
    if s != [] && !Precedes(x, s[0]) {
      InsertRanked(x, s[1..]);
      InsertPermutes(x, s[1..]);
      var t := Insert(x, s[1..]);
      forall j | 0 <= j < |t|
        ensures Precedes(s[0], t[j])
      {
        assert t[j] in multiset(t);
        if t[j] != x {
          assert t[j] in s[1..];
        }
      }
    }
  }

  /** The sort returns a permutation of its input that is `Ranked`. */
  lemma {:induction false} SortRankedCorrect<T>(s: seq<Scored<T>>)
    requires InInputOrder(s)
    ensures multiset(SortRanked(s)) == multiset(s)
    ensures Ranked(SortRanked(s))
  {
    if s != [] {
      SortRankedCorrect(s[1..]);
      var t := SortRanked(s[1..]);
      forall k | 0 <= k < |t|
        ensures t[k].pos != s[0].pos
      {
        assert t[k] in multiset(s[1..]);
      }
      InsertPermutes(s[0], t);
      InsertRanked(s[0], t);
      assert s == [s[0]] + s[1..];
    }
  }

  /** The head of a ranked sequence precedes every other element. */
  lemma RankedHeadFirst<T>(s: seq<Scored<T>>, x: Scored<T>)
    requires Ranked(s) && x in s
    ensures x == s[0] || Precedes(s[0], x)
  {
  }

  /** There is only one `Ranked` arrangement of a collection: any two ranked
      sequences with the same elements are equal. So every stable descending
      sort of the same list gives the same result. */
  lemma {:induction false} RankedUnique<T>(a: seq<Scored<T>>, b: seq<Scored<T>>)
    requires Ranked(a) && Ranked(b)
    requires multiset(a) == multiset(b)
    ensures a == b
    decreases |a|
  {
    if a == [] {
      assert |b| == |multiset(b)| == 0;
    } else {
      HeadsEqual(a, b);
      TailMultiset(a);
      TailMultiset(b);
      RankedTail(a);
      RankedTail(b);
      RankedUnique(a[1..], b[1..]);
      assert a == [a[0]] + a[1..];
      assert b == [b[0]] + b[1..];
    }
  }

  /** Two ranked arrangements of the same non-empty collection start with
      the same element. */
  lemma HeadsEqual<T>(a: seq<Scored<T>>, b: seq<Scored<T>>)
    requires Ranked(a) && Ranked(b) && multiset(a) == multiset(b) && a != []
    ensures b != [] && a[0] == b[0]
  {
    assert a[0] in multiset(b);
    assert b[0] in multiset(a);
    RankedHeadFirst(b, a[0]);
    RankedHeadFirst(a, b[0]);
  }

  lemma RankedTail<T>(a: seq<Scored<T>>)
    requires Ranked(a) && a != []
    ensures Ranked(a[1..])
  {
    forall i, j | 0 <= i < j < |a| - 1 ensures Precedes(a[1..][i], a[1..][j]) {
      assert a[1..][i] == a[i + 1] && a[1..][j] == a[j + 1];
    }
  }

  lemma TailMultiset<T>(a: seq<T>)
    requires a != []
    ensures multiset(a[1..]) == multiset(a) - multiset{a[0]}
  {
    assert a == [a[0]] + a[1..];
    assert multiset(a) == multiset{a[0]} + multiset(a[1..]);
  }

  /** `.slice(0, n)`. */
  function Take<T>(s: seq<T>, n: nat): (r: seq<T>)
    ensures |r| <= n && |r| <= |s|
    ensures r == s[..|r|]
    ensures |r| == n || r == s
  {
    if |s| <= n then s else s[..n]
  }

  /** `.map(item => item.item)`. */
  function Items<T>(s: seq<Scored<T>>): (r: seq<T>)
    ensures |r| == |s|
    ensures forall k :: 0 <= k < |s| ==> r[k] == s[k].item
  {
    seq(|s|, k requires 0 <= k < |s| => s[k].item)
  }

  /** The whole chain: drop the non-positive scores, sort stably by score
      descending, keep the first `n`. */
  function Rank<T>(s: seq<Scored<T>>, n: nat): seq<Scored<T>> {
    Take(SortRanked(Positive(s)), n)
  }

  /** What the chain guarantees: at most `n` elements, all with positive
      scores and taken from the input, in `Ranked` order; as many as there
      are positive elements up to `n`; and a positive element is left out
      only when the result is full and every element kept outranks it. */
  lemma RankProperties<T>(s: seq<Scored<T>>, n: nat)
    requires InInputOrder(s)
    ensures |Rank(s, n)| <= n
    ensures |Rank(s, n)| == n || |Rank(s, n)| == |Positive(s)|
    ensures Ranked(Rank(s, n))
    ensures forall k :: 0 <= k < |Rank(s, n)| ==> Rank(s, n)[k].score > 0 && Rank(s, n)[k] in s
    ensures forall x :: x in s && x.score > 0 && x !in Rank(s, n) ==>
      |Rank(s, n)| == n && forall k :: 0 <= k < n ==> Precedes(Rank(s, n)[k], x)
  {
    var p := Positive(s);
    PositiveInOrder(s);
    PositiveMembers(s);
    SortRankedCorrect(p);
    var sorted := SortRanked(p);
    var r := Rank(s, n);
    TakeRanked(sorted, n, r);
    TakeKeeps(p, sorted, n, r);
    TakeLeavesOut(p, sorted, n, r);
  }

  /** A prefix of a ranked sequence is ranked. */
  lemma TakeRanked<T>(sorted: seq<Scored<T>>, n: nat, r: seq<Scored<T>>)
    requires Ranked(sorted) && r == Take(sorted, n)
    ensures Ranked(r)
  {
    forall i, j | 0 <= i < j < |r| ensures Precedes(r[i], r[j]) {
      assert r[i] == sorted[i] && r[j] == sorted[j];
    }
  }

  /** What the first `n` of a permutation of `p` keep comes from `p`. */
  lemma TakeKeeps<T>(p: seq<Scored<T>>, sorted: seq<Scored<T>>, n: nat, r: seq<Scored<T>>)
    requires multiset(sorted) == multiset(p) && r == Take(sorted, n)
    ensures forall k :: 0 <= k < |r| ==> r[k] in p
  {
    forall k | 0 <= k < |r| ensures r[k] in p {
      assert r[k] == sorted[k];
      assert sorted[k] in multiset(p);
    }
  }

  /** An element of `p` missing from the first `n` of a ranked permutation
      of `p` comes after all `n` of them. */
  lemma TakeLeavesOut<T>(p: seq<Scored<T>>, sorted: seq<Scored<T>>, n: nat, r: seq<Scored<T>>)
    requires multiset(sorted) == multiset(p) && Ranked(sorted) && r == Take(sorted, n)
    ensures forall x :: x in p && x !in r ==> |r| == n && forall k :: 0 <= k < n ==> Precedes(r[k], x)
  {
    forall x | x in p && x !in r
      ensures |r| == n && forall k :: 0 <= k < n ==> Precedes(r[k], x)
    {
      assert x in multiset(sorted);
      var j :| 0 <= j < |sorted| && sorted[j] == x;
      assert j >= |r|;
      forall k | 0 <= k < n ensures Precedes(r[k], x) {
        assert r[k] == sorted[k];
      }
    }
  }

  /** One positive element: the ranking keeps it, or it is outranked by all
      `n` elements kept. */
  lemma RankKeepsOrOutranks<T>(s: seq<Scored<T>>, n: nat, x: Scored<T>)
    requires InInputOrder(s) && x in s && x.score > 0
    ensures x in Rank(s, n) || (|Rank(s, n)| == n && forall k :: 0 <= k < n ==> Precedes(Rank(s, n)[k], x))
  {
    RankProperties(s, n);
  }

  /** The chain agrees with any stable descending sort: whatever arrangement
      of the positive elements is `Ranked`, its first `n` elements are the
      result. */
  lemma RankIsStableSort<T>(s: seq<Scored<T>>, n: nat, sorted: seq<Scored<T>>)
    requires InInputOrder(s)
    requires multiset(sorted) == multiset(Positive(s))
    requires Ranked(sorted)
    ensures Rank(s, n) == Take(sorted, n)
  {
    PositiveInOrder(s);
    SortRankedCorrect(Positive(s));
    RankedUnique(SortRanked(Positive(s)), sorted);
  }
}
