/** The agent's context router (agent/context_router.py). It differs from the
    MCP servers' selector: keywords are compared as written against the
    lower-cased prompt, candidates are `(hits, path)` tuples sorted in reverse
    tuple order, only paths are returned, and a failed read is not caught. */
module ContextRouter {
  import opened Text
  import opened Resources
  import opened Seqs

  const DefaultMaxDocs: nat := 3
  const PartSeparator := "\n\n"

  /** `sum(1 for k in d["when"] if k in p)`: the keywords are not lower-cased. */
  function AgentHits(p: string, keywords: seq<string>): (n: nat)
    ensures n <= |keywords|
  {
    if keywords == [] then 0
    else (AgentHits(p, keywords[..|keywords| - 1])
      + if Contains(p, keywords[|keywords| - 1]) then 1 else 0)
  }

  /** Positions of the keywords that, as written, occur in `p`. */
  ghost function AgentMatchedPositions(p: string, keywords: seq<string>): set<int>
  {
    set i | 0 <= i < |keywords| && Contains(p, keywords[i])
  }

  /** The hit count is the number of keywords found, as written, in the prompt. */
  lemma {:induction false} AgentHitsCountsMatches(p: string, keywords: seq<string>)
    ensures AgentHits(p, keywords) == |AgentMatchedPositions(p, keywords)|
    decreases |keywords|
  {
    if keywords != [] {
      var n := |keywords| - 1;
      var init := keywords[..n];
      AgentHitsCountsMatches(p, init);
      var before := AgentMatchedPositions(p, init);
      assert forall i :: 0 <= i < n ==> init[i] == keywords[i];
      if Contains(p, keywords[n]) {
        assert AgentMatchedPositions(p, keywords) == before + {n};
      } else {
        assert AgentMatchedPositions(p, keywords) == before;
      }
    }
  }

  /** No keyword with an upper-case letter is ever found, wherever it stands
      in the list: the prompt it is compared with has been lower-cased. */
  lemma UpperKeywordsNeverMatch(prompt: string, keywords: seq<string>)
    ensures forall i :: 0 <= i < |keywords| && HasUpper(keywords[i]) ==>
      i !in AgentMatchedPositions(Lower(prompt), keywords)
  {
    forall i | 0 <= i < |keywords| && HasUpper(keywords[i])
      ensures !Contains(Lower(prompt), keywords[i])
    {
      UpperNotInLower(prompt, keywords[i]);
    }
  }

  /** A keyword with an upper-case letter never counts: the prompt it is
      compared with has been lower-cased. */
  lemma UpperKeywordNeverCounts(prompt: string, keywords: seq<string>, k: string)
    requires HasUpper(k)
    ensures AgentHits(Lower(prompt), keywords + [k]) == AgentHits(Lower(prompt), keywords)
  {
    UpperNotInLower(prompt, k);
    assert (keywords + [k])[..|keywords|] == keywords;
  }

  /** One `(hits, path)` tuple of the `scored` list. */
  datatype Hit = Hit(hits: nat, path: string)

  /** Python's `<` on strings: lexicographic by code point, a proper prefix first. */
  predicate StrLess(a: string, b: string)
    decreases |a|
  {
    if a == [] then b != []
    else if b == [] then false
    else if a[0] != b[0] then a[0] < b[0]
    else StrLess(a[1..], b[1..])
  }

  /** Python's `<` on `(hits, path)` tuples. */
  predicate HitLess(x: Hit, y: Hit) {
    x.hits < y.hits || (x.hits == y.hits && StrLess(x.path, y.path))
  }

  lemma {:induction false} StrLessAsymmetric(a: string, b: string)
    ensures StrLess(a, b) ==> !StrLess(b, a)
    decreases |a|
  {
    if a != [] && b != [] && a[0] == b[0] {
      StrLessAsymmetric(a[1..], b[1..]);
    }
  }

  lemma {:induction false} StrLessIrreflexive(a: string)
    ensures !StrLess(a, a)
    decreases |a|
  {
    if a != [] {
      StrLessIrreflexive(a[1..]);
    }
  }

  lemma {:induction false} StrLessTransitive(a: string, b: string, c: string)
    requires StrLess(a, b) && StrLess(b, c)
    ensures StrLess(a, c)
    decreases |a|
  {
    if a != [] && a[0] == b[0] && b[0] == c[0] {
      StrLessTransitive(a[1..], b[1..], c[1..]);
    }
  }

  lemma {:induction false} StrLessTotal(a: string, b: string)
    requires a != b
    ensures StrLess(a, b) || StrLess(b, a)
    decreases |a|
  {
    if a != [] && b != [] && a[0] == b[0] {
      assert a == [a[0]] + a[1..] && b == [b[0]] + b[1..];
      StrLessTotal(a[1..], b[1..]);
    }
  }

  lemma HitLessAsymmetric(x: Hit, y: Hit)
    ensures HitLess(x, y) ==> !HitLess(y, x)
  {
    StrLessAsymmetric(x.path, y.path);
  }

  lemma HitLessTotal(x: Hit, y: Hit)
    requires x != y
    ensures HitLess(x, y) || HitLess(y, x)
  {
    if x.hits == y.hits {
      StrLessTotal(x.path, y.path);
    }
  }

  lemma HitNotLessTransitive(x: Hit, y: Hit, z: Hit)
    requires !HitLess(x, y) && !HitLess(y, z)
    ensures !HitLess(x, z)
  {
    if x != y && y != z {
      HitLessTotal(x, y);
      HitLessTotal(y, z);
      if x.hits == z.hits && StrLess(x.path, z.path) {
        StrLessTransitive(z.path, y.path, x.path);
        StrLessAsymmetric(x.path, z.path);
      }
    }
  }

  /** The order `scored.sort(reverse=True)` produces: no tuple is smaller than a later one. */
  ghost predicate Descending(s: seq<Hit>) {
    forall i, j :: 0 <= i < j < |s| ==> !HitLess(s[i], s[j])
  }

  /** Inserts `x` in front of the first tuple smaller than it. */
  function InsertHit(x: Hit, s: seq<Hit>): seq<Hit>
  {
    if s == [] || !HitLess(x, s[0]) then [x] + s
    else [s[0]] + InsertHit(x, s[1..])
  }

  /** Reference sort in descending tuple order (insertion sort). */
  function SortHits(s: seq<Hit>): seq<Hit>
  {
    if s == [] then [] else InsertHit(s[0], SortHits(s[1..]))
  }

  lemma {:induction false} InsertHitPermutes(x: Hit, s: seq<Hit>)
    ensures multiset(InsertHit(x, s)) == multiset([x] + s)
    decreases |s|
  {
    if !(s == [] || !HitLess(x, s[0])) {
      InsertHitPermutes(x, s[1..]);
      assert s == [s[0]] + s[1..];
    }
  }

  lemma {:induction false} InsertHitSorted(x: Hit, s: seq<Hit>)
    requires Descending(s)
    ensures Descending(InsertHit(x, s))
    decreases |s|
  {
    if s == [] {
    } else if !HitLess(x, s[0]) {
      forall j | 0 < j < |s|
        ensures !HitLess(x, s[j])
      {
        HitNotLessTransitive(x, s[0], s[j]);
      }
    } else {
      var t := InsertHit(x, s[1..]);
      InsertHitSorted(x, s[1..]);
      InsertHitPermutes(x, s[1..]);
      HitLessAsymmetric(x, s[0]);
      forall y | y in t
        ensures !HitLess(s[0], y)
      {
        assert y in multiset([x] + s[1..]);
      }
    }
  }

  lemma {:induction false} SortHitsCorrect(s: seq<Hit>)
    ensures Descending(SortHits(s))
    ensures multiset(SortHits(s)) == multiset(s)
    decreases |s|
  {
    if s != [] {
      SortHitsCorrect(s[1..]);
      InsertHitSorted(s[0], SortHits(s[1..]));
      InsertHitPermutes(s[0], SortHits(s[1..]));
      assert s == [s[0]] + s[1..];
    }
  }

  /** Two descending arrangements of the same tuples start with the same tuple. */
  lemma DescendingHeadsAgree(r: seq<Hit>, t: seq<Hit>)
    requires Descending(r) && Descending(t)
    requires r != [] && t != []
    requires r[0] in t && t[0] in r
    ensures r[0] == t[0]
  {
    StrLessIrreflexive(r[0].path);
    StrLessIrreflexive(t[0].path);
    var k :| 0 <= k < |t| && t[k] == r[0];
    assert !HitLess(t[0], r[0]);
    var m :| 0 <= m < |r| && r[m] == t[0];
    assert !HitLess(r[0], t[0]);
    if r[0] != t[0] {
      HitLessTotal(r[0], t[0]);
    }
  }

  /** Removing the same first element from two permutations of each other
      leaves permutations of each other. */
  lemma TailsPermute(r: seq<Hit>, t: seq<Hit>)
    requires r != [] && t != [] && r[0] == t[0]
    requires multiset(r) == multiset(t)
    ensures multiset(r[1..]) == multiset(t[1..])
  {
    assert r == [r[0]] + r[1..] && t == [t[0]] + t[1..];
    forall x | true
      ensures multiset(r[1..])[x] == multiset(t[1..])[x]
    {
      assert multiset(r)[x] == multiset([r[0]])[x] + multiset(r[1..])[x];
      assert multiset(t)[x] == multiset([r[0]])[x] + multiset(t[1..])[x];
    }
  }

  /** Tuples are totally ordered, so the descending arrangement of a multiset is unique. */
  lemma {:induction false} DescendingUnique(r: seq<Hit>, t: seq<Hit>)
    requires Descending(r) && Descending(t)
    requires multiset(r) == multiset(t)
    ensures r == t
    decreases |r|
  {
    assert |r| == |multiset(r)| == |multiset(t)| == |t|;
    if r != [] {
      assert r[0] in multiset(t) && t[0] in multiset(r);
      DescendingHeadsAgree(r, t);
      TailsPermute(r, t);
      DescendingUnique(r[1..], t[1..]);
      assert r == [r[0]] + r[1..] && t == [t[0]] + t[1..];
    }
  }

  /** The tuples up to `i`, ignoring the one at `j`, are in descending order,
      and the one at `j` is greater than every tuple after it. */
  ghost predicate Inserting(a: seq<Hit>, i: int, j: int)
    requires 0 <= j <= i < |a|
  {
    && (forall x, y :: 0 <= x < y <= i && x != j && y != j ==> !HitLess(a[x], a[y]))
    && (forall y :: j < y <= i ==> HitLess(a[y], a[j]))
  }

  /** Exchanging the moving tuple with a smaller left neighbour keeps the
      insertion invariant one place to the left. */
  lemma SwapStep(a: seq<Hit>, i: int, j: int)
    requires 0 < j <= i < |a|
    requires Inserting(a, i, j)
    requires HitLess(a[j - 1], a[j])
    ensures Inserting(a[j - 1 := a[j]][j := a[j - 1]], i, j - 1)
    ensures multiset(a[j - 1 := a[j]][j := a[j - 1]]) == multiset(a)
  {
    var b := a[j - 1 := a[j]][j := a[j - 1]];
    forall x, y | 0 <= x < y <= i && x != j - 1 && y != j - 1
      ensures !HitLess(b[x], b[y])
    {
      var x' := if x == j then j - 1 else x;
      var y' := if y == j then j - 1 else y;
      assert b[x] == a[x'] && b[y] == a[y'];
    }
    forall y | j - 1 < y <= i
      ensures HitLess(b[y], b[j - 1])
    {
      if y > j {
        assert b[y] == a[y];
      }
    }
  }

  /** Once the moving tuple is not greater than its left neighbour, the
      tuples up to `i` are in descending order. */
  lemma InsertionDone(a: seq<Hit>, i: int, j: int)
    requires 0 <= j <= i < |a|
    requires Inserting(a, i, j)
    requires j == 0 || !HitLess(a[j - 1], a[j])
    ensures forall x, y :: 0 <= x < y <= i ==> !HitLess(a[x], a[y])
  {
    forall x, y | 0 <= x < y <= i
      ensures !HitLess(a[x], a[y])
    {
      if y == j && x < j - 1 {
        HitNotLessTransitive(a[x], a[j - 1], a[j]);
      } else if x == j {
        HitLessAsymmetric(a[y], a[j]);
      }
    }
  }

  /** `scored.sort(reverse=True)` on the local list: an insertion sort that
      exchanges neighbours while the left tuple is the smaller. */
  method SortDescending(scored: seq<Hit>) returns (a: seq<Hit>)
    ensures a == SortHits(scored)
    ensures Descending(a) && multiset(a) == multiset(scored)
  {
    a := scored;
    var i := 0;
    while i < |a|
      invariant |a| == |scored| && 0 <= i <= |a|
      invariant forall x, y :: 0 <= x < y < i ==> !HitLess(a[x], a[y])
      invariant multiset(a) == multiset(scored)
    {
      var j := i;
      while j > 0 && HitLess(a[j - 1], a[j])
        invariant 0 <= j <= i && |a| == |scored|
        invariant Inserting(a, i, j)
        invariant multiset(a) == multiset(scored)
      {
        SwapStep(a, i, j);
        a := a[j - 1 := a[j]][j := a[j - 1]];
        j := j - 1;
      }
      InsertionDone(a, i, j);
      i := i + 1;
    }
    SortHitsCorrect(scored);
    DescendingUnique(a, SortHits(scored));
  }

  /** The `scored` list before sorting: a tuple per descriptor with at least one hit. */
  function HitList(p: string, docs: seq<Descriptor>): (r: seq<Hit>)
    ensures |r| <= |docs|
  {
    if docs == [] then []
    else HitList(p, docs[..|docs| - 1]) + HitEntry(p, docs[|docs| - 1])
  }

  /** What one descriptor contributes: its tuple when it has a hit. */
  function HitEntry(p: string, d: Descriptor): (r: seq<Hit>)
    ensures |r| <= 1
  {
    var h := AgentHits(p, d.when);
    if h > 0 then [Hit(h, d.path)] else []
  }

  /** Every tuple comes from a manifest descriptor with at least one hit. */
  lemma {:induction false} HitListSound(p: string, docs: seq<Descriptor>)
    ensures forall h :: h in HitList(p, docs) ==>
      h.hits >= 1 && exists d :: d in docs && d.path == h.path && AgentHits(p, d.when) == h.hits
    decreases |docs|
  {
    if docs != [] {
      var n := |docs| - 1;
      HitListSound(p, docs[..n]);
      assert docs == docs[..n] + [docs[n]];
    }
  }

  /** The manifest positions whose descriptor yields the tuple `h`. */
  ghost function Sources(p: string, docs: seq<Descriptor>, h: Hit): set<int>
  {
    Positions(docs, d => Yields(p, d, h))
  }

  /** The descriptor `d` yields the tuple `h`: same path, and `h`'s hit count. */
  predicate Yields(p: string, d: Descriptor, h: Hit)
  {
    d.path == h.path && AgentHits(p, d.when) == h.hits
  }

  /** A tuple with a hit occurs once per manifest position that yields it:
      duplicates are not merged, and only descriptors without hits are dropped. */
  lemma {:induction false} HitListCount(p: string, docs: seq<Descriptor>, h: Hit)
    requires h.hits > 0
    ensures multiset(HitList(p, docs))[h] == |Sources(p, docs, h)|
    decreases |docs|
  {
    if docs != [] {
      var n := |docs| - 1;
      HitListCount(p, docs[..n], h);
      CountAppend(HitList(p, docs[..n]), HitEntry(p, docs[n]), h);
      HitEntryCount(p, docs[n], h);
      SourcesSnoc(p, docs, h);
    }
  }

  /** A descriptor contributes `h` once when it yields it, and otherwise not at all. */
  lemma HitEntryCount(p: string, d: Descriptor, h: Hit)
    requires h.hits > 0
    ensures multiset(HitEntry(p, d))[h] == if Yields(p, d, h) then 1 else 0
  {
  }

  /** Extending the manifest by one descriptor adds its position when it yields `h`. */
  lemma SourcesSnoc(p: string, docs: seq<Descriptor>, h: Hit)
    requires docs != []
    ensures var n := |docs| - 1;
      |Sources(p, docs, h)| == |Sources(p, docs[..n], h)| + if Yields(p, docs[n], h) then 1 else 0
  {
    PositionsSnoc(docs, d => Yields(p, d, h));
  }

  /** Every manifest descriptor with a hit has its tuple in the list. */
  lemma HitListComplete(p: string, docs: seq<Descriptor>, d: Descriptor)
    requires d in docs && AgentHits(p, d.when) > 0
    ensures Hit(AgentHits(p, d.when), d.path) in HitList(p, docs)
  {
    var h := Hit(AgentHits(p, d.when), d.path);
    var i :| 0 <= i < |docs| && docs[i] == d;
    assert Yields(p, docs[i], h);
    assert i in Sources(p, docs, h);
    HitListCount(p, docs, h);
  }

  /** The ranked tuples: sorted in reverse, cut to `max_docs`. */
  function Ranked(prompt: string, docs: seq<Descriptor>, maxDocs: nat): seq<Hit>
  {
    var sorted := SortHits(HitList(Lower(prompt), docs));
    if maxDocs < |sorted| then sorted[..maxDocs] else sorted
  }

  function Paths(hits: seq<Hit>): (r: seq<string>)
    ensures |r| == |hits|
  {
    seq(|hits|, i requires 0 <= i < |hits| => hits[i].path)
  }

  /** `select_docs(prompt, manifest, max_docs)`: a manifest that cannot be
      read or parsed raises, here an error result. */
  function SelectDocs(prompt: string, manifest: ManifestLoad, maxDocs: nat): Result<seq<string>>
  {
    match manifest
    case Unavailable(reason) => Err(reason)
    case Loaded(docs) => Ok(Paths(Ranked(prompt, docs, maxDocs)))
  }

  /** The imperative `select_docs`: collect the tuples in a loop, sort them in
      place in reverse, return the paths of the first `max_docs`. */
  method SelectDocsImpl(prompt: string, manifest: ManifestLoad, maxDocs: nat) returns (r: Result<seq<string>>)
    ensures r == SelectDocs(prompt, manifest, maxDocs)
  {
    var p := Lower(prompt);
    if manifest.Unavailable? {
      return Err(manifest.reason);
    }
    var docs := manifest.docs;
    var scored: seq<Hit> := [];
    var i := 0;
    while i < |docs|
      invariant 0 <= i <= |docs|
      invariant scored == HitList(p, docs[..i])
    {
      var hits := AgentHits(p, docs[i].when);
      if hits > 0 {
        scored := scored + [Hit(hits, docs[i].path)];
      }
      assert docs[..i + 1][..i] == docs[..i];
      i := i + 1;
    }
    assert docs[..i] == docs;
    scored := SortDescending(scored);
    var top := if maxDocs < |scored| then scored[..maxDocs] else scored;
    r := Ok(Paths(top));
  }

  /** At most `max_docs` paths, each from a descriptor with at least one hit. */
  lemma SelectDocsBounded(prompt: string, docs: seq<Descriptor>, maxDocs: nat)
    ensures |Ranked(prompt, docs, maxDocs)| <= maxDocs
    ensures forall h :: h in Ranked(prompt, docs, maxDocs) ==>
      h.hits >= 1 && exists d :: d in docs && d.path == h.path && AgentHits(Lower(prompt), d.when) == h.hits
  {
    var s := HitList(Lower(prompt), docs);
    SortHitsCorrect(s);
    HitListSound(Lower(prompt), docs);
    var full := SortHits(s);
    var r := Ranked(prompt, docs, maxDocs);
    forall h | h in r
      ensures h in s
    {
      var i :| 0 <= i < |r| && r[i] == h;
      assert full[i] == h;
      assert h in multiset(full);
    }
  }

  /** The ranked tuples are the first `max_docs` of a descending permutation of the tuple list. */
  lemma RankedIsPrefix(prompt: string, docs: seq<Descriptor>, maxDocs: nat)
    ensures var s := HitList(Lower(prompt), docs);
      var full := SortHits(s);
      && |full| == |s| && Descending(full) && multiset(full) == multiset(s)
      && Ranked(prompt, docs, maxDocs) == full[..if maxDocs < |s| then maxDocs else |s|]
  {
    var s := HitList(Lower(prompt), docs);
    SortHitsCorrect(s);
    assert |SortHits(s)| == |multiset(SortHits(s))| == |multiset(s)| == |s|;
  }

  /** Exactly `max_docs` paths, or all of the matching ones when fewer match. */
  lemma RankedLength(prompt: string, docs: seq<Descriptor>, maxDocs: nat)
    ensures |Ranked(prompt, docs, maxDocs)|
      == if maxDocs < |HitList(Lower(prompt), docs)| then maxDocs else |HitList(Lower(prompt), docs)|
  {
    RankedIsPrefix(prompt, docs, maxDocs);
  }

  /** The truncation keeps the greatest tuples: no tuple left out is greater
      than a kept one. */
  lemma RankedTopN(prompt: string, docs: seq<Descriptor>, maxDocs: nat, h: Hit, i: int)
    requires multiset(Ranked(prompt, docs, maxDocs))[h] < multiset(HitList(Lower(prompt), docs))[h]
    requires 0 <= i < |Ranked(prompt, docs, maxDocs)|
    ensures !HitLess(Ranked(prompt, docs, maxDocs)[i], h)
  {
    RankedIsPrefix(prompt, docs, maxDocs);
    DescendingPrefixIsTop(SortHits(HitList(Lower(prompt), docs)), |Ranked(prompt, docs, maxDocs)|, h, i);
  }

  /** In a descending sequence, a tuple beyond the first `n` is not greater than any of the first `n`. */
  lemma DescendingPrefixIsTop(s: seq<Hit>, n: nat, h: Hit, i: int)
    requires Descending(s) && n <= |s|
    requires multiset(s[..n])[h] < multiset(s)[h]
    requires 0 <= i < n
    ensures !HitLess(s[i], h)
  {
    assert s == s[..n] + s[n..];
    CountAppend(s[..n], s[n..], h);
    assert h in multiset(s[n..]);
    var m :| 0 <= m < |s[n..]| && s[n..][m] == h;
    assert s[n + m] == h;
  }

  /** Higher hit counts come first; equal hit counts come in descending path order. */
  lemma SelectDocsOrder(prompt: string, docs: seq<Descriptor>, maxDocs: nat)
    ensures forall i, j :: 0 <= i < j < |Ranked(prompt, docs, maxDocs)| ==>
      Ranked(prompt, docs, maxDocs)[i].hits >= Ranked(prompt, docs, maxDocs)[j].hits
      && (Ranked(prompt, docs, maxDocs)[i].hits == Ranked(prompt, docs, maxDocs)[j].hits ==>
          !StrLess(Ranked(prompt, docs, maxDocs)[i].path, Ranked(prompt, docs, maxDocs)[j].path))
  {
    SortHitsCorrect(HitList(Lower(prompt), docs));
  }

  /** Reads every path in order; the first failed read stops the whole call. */
  function ReadAll(read: Reader, paths: seq<string>): Result<seq<string>>
  {
    if paths == [] then Ok([])
    else match read(paths[0])
      case Err(msg) => Err(msg)
      case Ok(body) =>
        match ReadAll(read, paths[1..])
        case Err(msg) => Err(msg)
        case Ok(rest) => Ok([body] + rest)
  }

  /** ReadAll succeeds exactly when every read does, and then yields the bodies in order. */
  lemma {:induction false} ReadAllOk(read: Reader, paths: seq<string>)
    ensures ReadAll(read, paths).Ok? <==> forall i :: 0 <= i < |paths| ==> read(paths[i]).Ok?
    ensures ReadAll(read, paths).Ok? ==>
      |ReadAll(read, paths).value| == |paths|
      && forall i :: 0 <= i < |paths| ==> ReadAll(read, paths).value[i] == read(paths[i]).value
    decreases |paths|
  {
    if paths != [] {
      ReadAllOk(read, paths[1..]);
      assert forall i :: 1 <= i < |paths| ==> paths[1..][i - 1] == paths[i];
    }
  }

  /** `build_system_context(prompt)`: the base text, then the selected bodies
      joined by a blank line; any failed read is the call's failure. */
  function BuildSystemContext(prompt: string, manifest: ManifestLoad, read: Reader): Result<string>
  {
    match read(BasePath)
    case Err(msg) => Err(msg)
    case Ok(base) =>
      match SelectDocs(prompt, manifest, DefaultMaxDocs)
      case Err(msg) => Err(msg)
      case Ok(docs) =>
        match ReadAll(read, docs)
        case Err(msg) => Err(msg)
        case Ok(bodies) =>
          var extra := Join(PartSeparator, bodies);
          Ok(base + (if extra != "" then PartSeparator + extra else ""))
  }

  /** When every read succeeds, the result is the base text exactly when no
      document is selected or the one selected document is empty; otherwise
      it is the base text, a blank line and the bodies joined by blank lines. */
  lemma SystemContextShape(prompt: string, docs: seq<Descriptor>, read: Reader)
    requires read(BasePath).Ok?
    requires forall i :: 0 <= i < |Ranked(prompt, docs, DefaultMaxDocs)| ==>
      read(Ranked(prompt, docs, DefaultMaxDocs)[i].path).Ok?
    ensures var paths := Paths(Ranked(prompt, docs, DefaultMaxDocs));
      var r := BuildSystemContext(prompt, Loaded(docs), read);
      var base := read(BasePath).value;
      && r.Ok?
      && (r.value == base <==> (|paths| == 0 || (|paths| == 1 && read(paths[0]).value == "")))
      && (r.value != base ==>
            r.value == base + PartSeparator + Join(PartSeparator, ReadAll(read, paths).value))
  {
    var paths := Paths(Ranked(prompt, docs, DefaultMaxDocs));
    ReadAllOk(read, paths);
    var bodies := ReadAll(read, paths).value;
    JoinEmptyIff(PartSeparator, bodies);
  }

  /** A missing base file, an unreadable manifest or an unreadable selected
      document makes the whole call fail. */
  lemma SystemContextFailures(prompt: string, manifest: ManifestLoad, read: Reader)
    ensures read(BasePath).Err? ==> BuildSystemContext(prompt, manifest, read) == Err(read(BasePath).msg)
    ensures read(BasePath).Ok? && manifest.Unavailable? ==>
      BuildSystemContext(prompt, manifest, read) == Err(manifest.reason)
    ensures read(BasePath).Ok? && manifest.Loaded? ==>
      (BuildSystemContext(prompt, manifest, read).Err? <==>
        exists p :: p in Paths(Ranked(prompt, manifest.docs, DefaultMaxDocs)) && read(p).Err?)
  {
    if manifest.Loaded? {
      var paths := Paths(Ranked(prompt, manifest.docs, DefaultMaxDocs));
      ReadAllOk(read, paths);
    }
  }

  /** The tuple list of a concatenated manifest is the concatenation of the tuple lists. */
  lemma {:induction false} HitListAppend(p: string, u: seq<Descriptor>, v: seq<Descriptor>)
    ensures HitList(p, u + v) == HitList(p, u) + HitList(p, v)
    decreases |v|
  {
    if v == [] {
      RightUnit(u);
    } else {
      var n := |v| - 1;
      HitListAppend(p, u, v[..n]);
      InitOfAppend(u, v);
      calc {
        HitList(p, u + v);
        HitList(p, u + v[..n]) + HitEntry(p, v[n]);
        HitList(p, u) + HitList(p, v[..n]) + HitEntry(p, v[n]);
      }
    }
  }

  /** A manifest holding the same descriptors in another order yields the same tuples. */
  lemma {:induction false} HitListPermutes(p: string, docs: seq<Descriptor>, other: seq<Descriptor>)
    requires multiset(docs) == multiset(other)
    ensures multiset(HitList(p, docs)) == multiset(HitList(p, other))
    decreases |docs|
  {
    if docs == [] {
      assert |other| == |multiset(other)| == 0;
    } else {
      var n := |docs| - 1;
      var x := docs[n];
      SnocMultiset(docs);
      assert x in multiset(other);
      var k :| 0 <= k < |other| && other[k] == x;
      var before, after := other[..k], other[k + 1..];
      SplitAround(other, k);
      Cancel(multiset(docs[..n]), multiset(before + after), x);
      HitListPermutes(p, docs[..n], before + after);
      HitListAppend(p, before, after);
      HitListAround(p, other, k);
      Regroup(HitList(p, before), HitEntry(p, x), HitList(p, after));
    }
  }

  /** The tuple list splits around any one descriptor of the manifest. */
  lemma HitListAround(p: string, docs: seq<Descriptor>, k: int)
    requires 0 <= k < |docs|
    ensures HitList(p, docs) == HitList(p, docs[..k]) + HitEntry(p, docs[k]) + HitList(p, docs[k + 1..])
  {
    var before, x, after := docs[..k], docs[k], docs[k + 1..];
    SplitAround(docs, k);
    HitListAppend(p, before + [x], after);
    HitListAppend(p, before, [x]);
    assert HitList(p, [x]) == HitEntry(p, x) by {
      EmptyInit(x);
    }
  }

  /** The ranking does not depend on manifest order: the tuples are sorted
      completely, so two manifests holding the same descriptors rank alike. */
  lemma RankedIgnoresOrder(prompt: string, docs: seq<Descriptor>, other: seq<Descriptor>, maxDocs: nat)
    requires multiset(docs) == multiset(other)
    ensures Ranked(prompt, docs, maxDocs) == Ranked(prompt, other, maxDocs)
  {
    var p := Lower(prompt);
    HitListPermutes(p, docs, other);
    SortHitsCorrect(HitList(p, docs));
    SortHitsCorrect(HitList(p, other));
    DescendingUnique(SortHits(HitList(p, docs)), SortHits(HitList(p, other)));
  }

  /** Equal hit counts are ordered by path, descending: two documents that
      both match "mock" come back as `b.md` before `a.md`, in either manifest
      order (the MCP servers keep manifest order instead). */
  lemma ExampleTieBreak()
    ensures SelectDocs("mock", Loaded([Descriptor("a.md", ["mock"]), Descriptor("b.md", ["mock"])]), DefaultMaxDocs)
      == Ok(["b.md", "a.md"])
    ensures SelectDocs("mock", Loaded([Descriptor("b.md", ["mock"]), Descriptor("a.md", ["mock"])]), DefaultMaxDocs)
      == Ok(["b.md", "a.md"])
  {
    var a := Descriptor("a.md", ["mock"]);
    var b := Descriptor("b.md", ["mock"]);
    var p := Lower("mock");
    assert p == "mock";
    assert ["mock"][..0] == [];
    assert AgentHits(p, ["mock"]) == 1;
    assert [a, b][..1] == [a];
    assert [a][..0] == [];
    var ha, hb := Hit(1, "a.md"), Hit(1, "b.md");
    assert HitList(p, [a, b]) == [ha, hb];
    assert StrLess("a.md", "b.md");
    assert SortHits([hb]) == [hb];
    assert SortHits([ha, hb]) == InsertHit(ha, [hb]) == [hb, ha];
    assert Ranked("mock", [a, b], DefaultMaxDocs) == [hb, ha];
    var paths := Paths([hb, ha]);
    assert paths[0] == "b.md" && paths[1] == "a.md";
    assert paths == ["b.md", "a.md"];
    assert multiset([a, b]) == multiset([b, a]);
    RankedIgnoresOrder("mock", [a, b], [b, a], DefaultMaxDocs);
  }
}
