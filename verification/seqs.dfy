// Generic facts about sequences and multisets that the model's inductive
// proofs share; stating them over an element type `T` keeps the elements'
// own structure out of the solver's way.

module Seqs {

  /** The positions of `s` whose element satisfies `f`. */
  ghost function Positions<T>(s: seq<T>, f: T -> bool): set<int>
  {
    set i | 0 <= i < |s| && f(s[i])
  }

  /** Extending a sequence adds its last position when that element satisfies `f`. */
  lemma PositionsSnoc<T>(s: seq<T>, f: T -> bool)
    requires s != []
    ensures var n := |s| - 1;
      |Positions(s, f)| == |Positions(s[..n], f)| + if f(s[n]) then 1 else 0
  {
    var n := |s| - 1;
    var before := Positions(s[..n], f);
    assert forall i :: 0 <= i < n ==> s[..n][i] == s[i];
    if f(s[n]) {
      assert Positions(s, f) == before + {n};
    } else {
      assert Positions(s, f) == before;
    }
  }

  /** Occurrences in a concatenation add up. */
  lemma CountAppend<T>(u: seq<T>, v: seq<T>, x: T)
    ensures multiset(u + v)[x] == multiset(u)[x] + multiset(v)[x]
  {
  }

  /** Appending nothing leaves a sequence unchanged. */
  lemma RightUnit<T>(u: seq<T>)
    ensures u + [] == u
  {
  }

  /** The prefix and last element of a concatenation with a non-empty right side. */
  lemma InitOfAppend<T>(u: seq<T>, v: seq<T>)
    requires v != []
    ensures (u + v)[..|u + v| - 1] == u + v[..|v| - 1]
    ensures (u + v)[|u + v| - 1] == v[|v| - 1]
  {
  }

  /** Moving the middle part of a concatenation to the end keeps its multiset. */
  lemma Regroup<T>(u: seq<T>, v: seq<T>, w: seq<T>)
    ensures multiset(u + v + w) == multiset(u + w) + multiset(v)
  {
  }

  /** A common element cancels from both sides of a multiset equation. */
  lemma Cancel<T>(a: multiset<T>, b: multiset<T>, x: T)
    requires a + multiset{x} == b + multiset{x}
    ensures a == b
  {
    assert forall y :: a[y] == (a + multiset{x})[y] - multiset{x}[y];
  }

  /** The multiset of a non-empty sequence: its prefix's and its last element. */
  lemma SnocMultiset<T>(s: seq<T>)
    requires s != []
    ensures multiset(s) == multiset(s[..|s| - 1]) + multiset{s[|s| - 1]}
  {
    assert s == s[..|s| - 1] + [s[|s| - 1]];
  }

  /** A sequence splits around any of its positions. */
  lemma SplitAround<T>(s: seq<T>, k: int)
    requires 0 <= k < |s|
    ensures s == s[..k] + [s[k]] + s[k + 1..]
    ensures multiset(s) == multiset(s[..k] + s[k + 1..]) + multiset{s[k]}
  {
    assert s == s[..k] + [s[k]] + s[k + 1..];
  }

  /** A singleton's empty prefix. */
  lemma EmptyInit<T>(x: T)
    ensures [x][..0] == []
  {
  }

  /** A non-empty sequence is its prefix followed by its last element. */
  lemma SplitLast<T>(s: seq<T>)
    requires s != []
    ensures s == s[..|s| - 1] + [s[|s| - 1]]
  {
  }
}
