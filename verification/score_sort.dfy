/** The stable sort by descending score that `scored.sort(key=lambda x: x["score"],
    reverse=True)` performs in the MCP servers. Python's sort keeps equal keys
    in their original order even with `reverse=True`; stability is stated here
    as "for every score, the entries with that score keep their relative order". */
module ScoreSort {

  /** One entry of the `scored` list: `{"score", "path", "keywords"}`. */
  datatype ScoredDoc = ScoredDoc(score: nat, path: string, keywords: seq<string>)

  /** Scores never increase along the sequence. */
  ghost predicate SortedByScore(s: seq<ScoredDoc>) {
    forall i, j :: 0 <= i < j < |s| ==> s[i].score >= s[j].score
  }

  /** The entries of `s` with score `k`, in their order in `s`. */
  function WithScore(s: seq<ScoredDoc>, k: nat): (r: seq<ScoredDoc>)
    ensures |r| <= |s|
  {
    if s == [] then []
    else (if s[0].score == k then [s[0]] else []) + WithScore(s[1..], k)
  }

  /** The group of score `k` holds exactly the entries with score `k`. */
  lemma {:induction false} WithScoreMembers(s: seq<ScoredDoc>, k: nat, x: ScoredDoc)
    ensures x in WithScore(s, k) <==> x in s && x.score == k
    decreases |s|
  {
    if s != [] {
      WithScoreMembers(s[1..], k, x);
      assert s == [s[0]] + s[1..];
    }
  }

  /** `r` holds the entries of `s` with every group of equal scores in its original order. */
  ghost predicate StableArrangement(r: seq<ScoredDoc>, s: seq<ScoredDoc>) {
    forall k: nat :: WithScore(r, k) == WithScore(s, k)
  }

  lemma {:induction false} WithScoreAppend(u: seq<ScoredDoc>, v: seq<ScoredDoc>, k: nat)
    ensures WithScore(u + v, k) == WithScore(u, k) + WithScore(v, k)
    decreases |u|
  {
    if u == [] {
      assert u + v == v;
    } else {
      var head := if u[0].score == k then [u[0]] else [];
      calc {
        WithScore(u + v, k);
        { assert (u + v)[0] == u[0]; assert (u + v)[1..] == u[1..] + v; }
        head + WithScore(u[1..] + v, k);
        { WithScoreAppend(u[1..], v, k); }
        head + (WithScore(u[1..], k) + WithScore(v, k));
        WithScore(u, k) + WithScore(v, k);
      }
    }
  }

  /** An entry occurs in the group of its own score as often as in the whole sequence. */
  lemma {:induction false} WithScoreCount(s: seq<ScoredDoc>, x: ScoredDoc)
    ensures multiset(WithScore(s, x.score))[x] == multiset(s)[x]
    decreases |s|
  {
    if s != [] {
      WithScoreCount(s[1..], x);
      assert s == [s[0]] + s[1..];
    }
  }

  /** A stable arrangement is a permutation. */
  lemma StableIsPermutation(r: seq<ScoredDoc>, s: seq<ScoredDoc>)
    requires StableArrangement(r, s)
    ensures multiset(r) == multiset(s)
  {
    forall x | true
      ensures multiset(r)[x] == multiset(s)[x]
    {
      WithScoreCount(r, x);
      WithScoreCount(s, x);
      assert WithScore(r, x.score) == WithScore(s, x.score);
    }
  }

  /** At most one of two entries with different scores is in a given group,
      so their order does not show in it. */
  lemma PairGroups(x: ScoredDoc, y: ScoredDoc, k: nat)
    requires x.score != y.score
    ensures WithScore([x, y], k) == WithScore([y, x], k)
  {
    assert [x, y][1..] == [y] && [y, x][1..] == [x];
    assert [y][1..] == [] && [x][1..] == [];
  }

  /** Exchanging two neighbours with different scores keeps every score group as it was. */
  lemma SwapKeepsGroups(a: seq<ScoredDoc>, j: int, k: nat)
    requires 0 < j < |a|
    requires a[j - 1].score != a[j].score
    ensures WithScore(a[j - 1 := a[j]][j := a[j - 1]], k) == WithScore(a, k)
  {
    var u, v := a[..j - 1], a[j + 1..];
    var x, y := a[j - 1], a[j];
    assert a == u + ([x, y] + v);
    assert a[j - 1 := y][j := x] == u + ([y, x] + v);
    WithScoreAppend(u, [x, y] + v, k);
    WithScoreAppend(u, [y, x] + v, k);
    WithScoreAppend([x, y], v, k);
    WithScoreAppend([y, x], v, k);
    PairGroups(x, y, k);
  }

  /** Inserts `x` in front of the first entry with a strictly lower score. */
  function InsertByScore(x: ScoredDoc, s: seq<ScoredDoc>): seq<ScoredDoc>
  {
    if s == [] || x.score >= s[0].score then [x] + s
    else [s[0]] + InsertByScore(x, s[1..])
  }

  /** Reference stable sort by descending score (insertion sort). */
  function SortByScore(s: seq<ScoredDoc>): seq<ScoredDoc>
  {
    if s == [] then [] else InsertByScore(s[0], SortByScore(s[1..]))
  }

  lemma {:induction false} InsertByScorePermutes(x: ScoredDoc, s: seq<ScoredDoc>)
    ensures multiset(InsertByScore(x, s)) == multiset([x] + s)
    decreases |s|
  {
    if !(s == [] || x.score >= s[0].score) {
      InsertByScorePermutes(x, s[1..]);
      assert s == [s[0]] + s[1..];
    }
  }

  /** An entry scoring at least as much as every entry of a sorted sequence
      can be put in front of it. */
  lemma SortedCons(h: ScoredDoc, t: seq<ScoredDoc>)
    requires SortedByScore(t)
    requires forall j :: 0 <= j < |t| ==> h.score >= t[j].score
    ensures SortedByScore([h] + t)
  {
    var s := [h] + t;
    forall i, j | 0 <= i < j < |s|
      ensures s[i].score >= s[j].score
    {
      assert s[j] == t[j - 1];
      if i > 0 {
        assert s[i] == t[i - 1];
      }
    }
  }

  lemma {:induction false} InsertByScoreSorted(x: ScoredDoc, s: seq<ScoredDoc>)
    requires SortedByScore(s)
    ensures SortedByScore(InsertByScore(x, s))
    decreases |s|
  {
    if s == [] || x.score >= s[0].score {
      SortedCons(x, s);
    } else {
      var t := InsertByScore(x, s[1..]);
      assert SortedByScore(s[1..]);
      InsertByScoreSorted(x, s[1..]);
      InsertByScorePermutes(x, s[1..]);
      forall j | 0 <= j < |t|
        ensures s[0].score >= t[j].score
      {
        assert t[j] in multiset([x] + s[1..]);
        assert t[j] == x || t[j] in s[1..];
      }
      SortedCons(s[0], t);
    }
  }

  lemma {:induction false} InsertByScoreGroups(x: ScoredDoc, s: seq<ScoredDoc>, k: nat)
    ensures WithScore(InsertByScore(x, s), k) == WithScore([x] + s, k)
    decreases |s|
  {
    if !(s == [] || x.score >= s[0].score) {
      var s0, rest := s[0], s[1..];
      var t := InsertByScore(x, rest);
      calc {
        WithScore(InsertByScore(x, s), k);
        { assert InsertByScore(x, s) == [s0] + t; }
        WithScore([s0] + t, k);
        { WithScoreAppend([s0], t, k); }
        WithScore([s0], k) + WithScore(t, k);
        { InsertByScoreGroups(x, rest, k); WithScoreAppend([x], rest, k); }
        WithScore([s0], k) + (WithScore([x], k) + WithScore(rest, k));
        { assert [s0] + [x] == [s0, x]; WithScoreAppend([s0], [x], k); }
        WithScore([s0, x], k) + WithScore(rest, k);
        { PairGroups(s0, x, k); }
        WithScore([x, s0], k) + WithScore(rest, k);
        { WithScoreAppend([x, s0], rest, k); }
        WithScore([x, s0] + rest, k);
        { assert [x, s0] + rest == [x] + s; }
        WithScore([x] + s, k);
      }
    }
  }

  /** The reference sort is sorted and stable. */
  lemma {:induction false} SortByScoreCorrect(s: seq<ScoredDoc>)
    ensures SortedByScore(SortByScore(s))
    ensures StableArrangement(SortByScore(s), s)
    ensures multiset(SortByScore(s)) == multiset(s)
    decreases |s|
  {
    if s != [] {
      SortByScoreCorrect(s[1..]);
      InsertByScoreSorted(s[0], SortByScore(s[1..]));
      InsertByScorePermutes(s[0], SortByScore(s[1..]));
      assert s == [s[0]] + s[1..];
      forall k: nat
        ensures WithScore(SortByScore(s), k) == WithScore(s, k)
      {
        InsertByScoreGroups(s[0], SortByScore(s[1..]), k);
        WithScoreAppend([s[0]], SortByScore(s[1..]), k);
        WithScoreAppend([s[0]], s[1..], k);
      }
    }
  }

  /** The group of the first entry's score starts with that entry. */
  lemma GroupOfHead(s: seq<ScoredDoc>)
    requires s != []
    ensures WithScore(s, s[0].score) == [s[0]] + WithScore(s[1..], s[0].score)
  {
  }

  /** Two sorted, stable arrangements of the same entries start with the same entry. */
  lemma StableHeadsAgree(r: seq<ScoredDoc>, t: seq<ScoredDoc>)
    requires SortedByScore(r) && SortedByScore(t)
    requires r != [] && t != []
    requires WithScore(r, r[0].score) == WithScore(t, r[0].score)
    requires WithScore(r, t[0].score) == WithScore(t, t[0].score)
    ensures r[0] == t[0]
  {
    var a, b := r[0].score, t[0].score;
    GroupOfHead(t);
    assert t[0] in WithScore(t, b);
    assert t[0] in WithScore(r, b);
    WithScoreMembers(r, b, t[0]);
    var i :| 0 <= i < |r| && r[i] == t[0];
    assert a >= b;
    GroupOfHead(r);
    assert r[0] in WithScore(r, a);
    assert r[0] in WithScore(t, a);
    WithScoreMembers(t, a, r[0]);
    var j :| 0 <= j < |t| && t[j] == r[0];
    assert b >= a;
    assert WithScore(r, a)[0] == r[0];
    assert WithScore(t, a)[0] == t[0];
  }

  /** Removing the same first entry from two stable arrangements leaves stable arrangements. */
  lemma StableTails(r: seq<ScoredDoc>, t: seq<ScoredDoc>, k: nat)
    requires forall k: nat :: WithScore(r, k) == WithScore(t, k)
    requires r != [] && t != [] && r[0] == t[0]
    ensures WithScore(r[1..], k) == WithScore(t[1..], k)
  {
    var head := if r[0].score == k then [r[0]] else [];
    assert WithScore(r, k) == head + WithScore(r[1..], k);
    assert WithScore(t, k) == head + WithScore(t[1..], k);
    assert WithScore(r[1..], k) == WithScore(r, k)[|head|..];
    assert WithScore(t[1..], k) == WithScore(t, k)[|head|..];
  }

  /** Sortedness and stability fix the arrangement: there is only one. */
  lemma {:induction false} StableSortUnique(r: seq<ScoredDoc>, t: seq<ScoredDoc>)
    requires SortedByScore(r) && SortedByScore(t)
    requires forall k: nat :: WithScore(r, k) == WithScore(t, k)
    ensures r == t
    decreases |r|
  {
    StableIsPermutation(r, t);
    assert |r| == |multiset(r)| == |multiset(t)| == |t|;
    if r != [] {
      assert WithScore(r, r[0].score) == WithScore(t, r[0].score);
      assert WithScore(r, t[0].score) == WithScore(t, t[0].score);
      StableHeadsAgree(r, t);
      forall k: nat
        ensures WithScore(r[1..], k) == WithScore(t[1..], k)
      {
        StableTails(r, t, k);
      }
      assert SortedByScore(r[1..]) && SortedByScore(t[1..]);
      StableSortUnique(r[1..], t[1..]);
      assert r == [r[0]] + r[1..] && t == [t[0]] + t[1..];
    }
  }

  /** Truncating a sequence keeps a prefix of every score group. */
  lemma {:induction false} WithScoreTake(s: seq<ScoredDoc>, n: nat, k: nat)
    requires n <= |s|
    ensures WithScore(s[..n], k) <= WithScore(s, k)
  {
    assert s == s[..n] + s[n..];
    WithScoreAppend(s[..n], s[n..], k);
  }

  /** A prefix of a sorted sequence is sorted. */
  lemma SortedPrefix(s: seq<ScoredDoc>, n: nat)
    requires SortedByScore(s) && n <= |s|
    ensures SortedByScore(s[..n])
  {
    forall i, j | 0 <= i < j < n
      ensures s[..n][i].score >= s[..n][j].score
    {
      assert s[..n][i] == s[i] && s[..n][j] == s[j];
    }
  }

  /** In a sorted sequence, an entry beyond the first `n` scores no higher than
      any of the first `n`. */
  lemma SortedPrefixIsTop(s: seq<ScoredDoc>, n: nat, e: ScoredDoc, i: int)
    requires SortedByScore(s) && n <= |s|
    requires multiset(s[..n])[e] < multiset(s)[e]
    requires 0 <= i < n
    ensures s[i].score >= e.score
  {
    assert s == s[..n] + s[n..];
    assert multiset(s) == multiset(s[..n]) + multiset(s[n..]);
    assert e in multiset(s[n..]);
    var m :| 0 <= m < |s[n..]| && s[n..][m] == e;
    assert s[n + m] == e;
  }

  /** `list.sort(key=score, reverse=True)` on a list held in a local variable:
      an insertion sort that exchanges neighbours only when the left one scores
      strictly less, so equal scores never pass each other. */
  method SortDescending(scored: seq<ScoredDoc>) returns (a: seq<ScoredDoc>)
    ensures a == SortByScore(scored)
    ensures SortedByScore(a) && multiset(a) == multiset(scored)
  {
    a := scored;
    var i := 0;
    while i < |a|
      invariant |a| == |scored| && 0 <= i <= |a|
      invariant forall x, y :: 0 <= x < y < i ==> a[x].score >= a[y].score
      invariant a[i..] == scored[i..]
      invariant StableArrangement(a, scored)
    {
      var j := i;
      while j > 0 && a[j - 1].score < a[j].score
        invariant 0 <= j <= i && |a| == |scored|
        invariant forall x, y :: 0 <= x < y <= i && x != j && y != j ==> a[x].score >= a[y].score
        invariant forall y :: j < y <= i ==> a[j].score > a[y].score
        invariant a[i + 1..] == scored[i + 1..]
        invariant StableArrangement(a, scored)
      {
        forall k: nat
          ensures WithScore(a[j - 1 := a[j]][j := a[j - 1]], k) == WithScore(scored, k)
        {
          SwapKeepsGroups(a, j, k);
        }
        a := a[j - 1 := a[j]][j := a[j - 1]];
        j := j - 1;
      }
      i := i + 1;
    }
    SortByScoreCorrect(scored);
    StableSortUnique(a, SortByScore(scored));
  }
}
