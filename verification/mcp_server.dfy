/** The tool handler shared by the stdio MCP server (mcp_server.py) and the
    HTTP/SSE MCP server (mcp_server_http.py), whose handler code is the same
    text: keyword-overlap document selection, context assembly, the listing
    of all documents, and the dispatch of the three tools. The manifest load
    and the file reader are parameters. */
module McpServer {
  import opened Text
  import opened Resources
  import opened Seqs
  import opened ScoreSort

  const DefaultMaxDocs: nat := 3
  const BaseHeader := "=== Base Context ===\n"
  const RelevantHeader := "\n=== Relevant Documentation ==="
  const NoMatchSentinel := "\n" + "=== No specific documentation matched your query ==="
  const PartSeparator := "\n\n"
  const ListingHeader := "Available Context Documents:\n"
  const PromptMissing := "Error: Please provide a prompt to match against context files."
  const FilePathMissing := "Error: Please provide a file_path."

  /** `read_text`: a read failure becomes an inline message instead of an exception. */
  function ReadText(read: Reader, path: string): string
  {
    match read(path)
    case Ok(text) => text
    case Err(msg) => "Error reading " + path + ": " + msg
  }

  /** `load_manifest().get("docs", [])`: any failure degrades to no descriptors. */
  function LoadManifest(manifest: ManifestLoad): seq<Descriptor>
  {
    match manifest
    case Loaded(docs) => docs
    case Unavailable(_) => []
  }

  // ---------------------------------------------------------------- selection

  /** `sum(1 for keyword in when if keyword.lower() in p)`, where `p` is the
      already lower-cased prompt. */
  function Hits(p: string, keywords: seq<string>): (n: nat)
    ensures n <= |keywords|
  {
    if keywords == [] then 0
    else (Hits(p, keywords[..|keywords| - 1])
      + if Contains(p, Lower(keywords[|keywords| - 1])) then 1 else 0)
  }

  /** Positions of the keywords that, lower-cased, occur in `p`. */
  ghost function MatchedPositions(p: string, keywords: seq<string>): set<int>
  {
    set i | 0 <= i < |keywords| && Contains(p, Lower(keywords[i]))
  }

  /** The score is the number of keywords found in the prompt. */
  lemma {:induction false} HitsCountsMatches(p: string, keywords: seq<string>)
    ensures Hits(p, keywords) == |MatchedPositions(p, keywords)|
    decreases |keywords|
  {
    if keywords != [] {
      var n := |keywords| - 1;
      var init := keywords[..n];
      HitsCountsMatches(p, init);
      var before := MatchedPositions(p, init);
      assert forall i :: 0 <= i < n ==> init[i] == keywords[i];
      if Contains(p, Lower(keywords[n])) {
        assert MatchedPositions(p, keywords) == before + {n};
      } else {
        assert MatchedPositions(p, keywords) == before;
      }
    }
  }

  /** The score is zero exactly when no keyword is found in the prompt. */
  lemma {:induction false} HitsZeroIff(p: string, keywords: seq<string>)
    ensures Hits(p, keywords) == 0 <==> forall i :: 0 <= i < |keywords| ==> !Contains(p, Lower(keywords[i]))
    decreases |keywords|
  {
    if keywords != [] {
      var n := |keywords| - 1;
      HitsZeroIff(p, keywords[..n]);
      assert forall i :: 0 <= i < n ==> keywords[..n][i] == keywords[i];
    }
  }

  /** The `scored` list before sorting: one entry per descriptor with a
      positive score, in manifest order, carrying the descriptor's full
      keyword list. */
  function Scored(p: string, docs: seq<Descriptor>): (r: seq<ScoredDoc>)
    ensures |r| <= |docs|
  {
    if docs == [] then []
    else Scored(p, docs[..|docs| - 1]) + Entry(p, docs[|docs| - 1])
  }

  /** What one descriptor contributes to `scored`: its entry when it scores. */
  function Entry(p: string, d: Descriptor): (r: seq<ScoredDoc>)
    ensures |r| <= 1
  {
    var h := Hits(p, d.when);
    if h > 0 then [ScoredDoc(h, d.path, d.when)] else []
  }

  /** Every entry of `scored` is a manifest descriptor with a positive score
      equal to its number of matching keywords. */
  lemma {:induction false} ScoredSound(p: string, docs: seq<Descriptor>)
    ensures forall e :: e in Scored(p, docs) ==>
      e.score >= 1 && e.score == Hits(p, e.keywords) && Descriptor(e.path, e.keywords) in docs
    decreases |docs|
  {
    if docs != [] {
      var n := |docs| - 1;
      ScoredSound(p, docs[..n]);
      assert docs == docs[..n] + [docs[n]];
    }
  }

  /** Every descriptor with a positive score has its entry in `scored`, once
      per occurrence in the manifest: duplicates are not merged, and nothing is
      dropped but zero scores. */
  lemma ScoredComplete(p: string, docs: seq<Descriptor>, d: Descriptor)
    requires Hits(p, d.when) > 0
    ensures multiset(Scored(p, docs))[ScoredDoc(Hits(p, d.when), d.path, d.when)] == multiset(docs)[d]
    ensures d in docs ==> ScoredDoc(Hits(p, d.when), d.path, d.when) in Scored(p, docs)
  {
    var e := ScoredDoc(Hits(p, d.when), d.path, d.when);
    assert Entry(p, d) == [e];
    EntryOccurrences(p, docs, d, e);
  }

  /** The entry `e` of descriptor `d` occurs in `scored` as often as `d` in the manifest. */
  lemma {:induction false} EntryOccurrences(p: string, docs: seq<Descriptor>, d: Descriptor, e: ScoredDoc)
    requires Entry(p, d) == [e]
    ensures multiset(Scored(p, docs))[e] == multiset(docs)[d]
    decreases |docs|
  {
    if docs != [] {
      var n := |docs| - 1;
      EntryOccurrences(p, docs[..n], d, e);
      SplitLast(docs);
      CountAppend(docs[..n], [docs[n]], d);
      CountAppend(Scored(p, docs[..n]), Entry(p, docs[n]), e);
      EntryCount(p, docs[n], d, e);
    }
  }

  /** A descriptor contributes the entry of `d` exactly when it is `d`. */
  lemma EntryCount(p: string, x: Descriptor, d: Descriptor, e: ScoredDoc)
    requires Entry(p, d) == [e]
    ensures multiset(Entry(p, x))[e] == multiset([x])[d]
  {
  }

  /** `select_relevant_docs(prompt, max_docs)` over the given descriptors. */
  function Select(prompt: string, docs: seq<Descriptor>, maxDocs: nat): seq<ScoredDoc>
  {
    var ranked := SortByScore(Scored(Lower(prompt), docs));
    if maxDocs < |ranked| then ranked[..maxDocs] else ranked
  }

  /** The selection is the first `max_docs` entries of a sorted permutation of `scored`. */
  lemma SelectIsPrefix(prompt: string, docs: seq<Descriptor>, maxDocs: nat)
    ensures var s := Scored(Lower(prompt), docs);
      var full := SortByScore(s);
      && |full| == |s| && SortedByScore(full) && multiset(full) == multiset(s)
      && Select(prompt, docs, maxDocs) == full[..if maxDocs < |s| then maxDocs else |s|]
  {
    var s := Scored(Lower(prompt), docs);
    SortByScoreCorrect(s);
    assert |SortByScore(s)| == |multiset(SortByScore(s))| == |multiset(s)| == |s|;
  }

  /** One entry of `scored`: a manifest descriptor with a positive score equal to its hits. */
  lemma ScoredEntry(p: string, docs: seq<Descriptor>, e: ScoredDoc)
    requires e in Scored(p, docs)
    ensures e.score >= 1 && e.score == Hits(p, e.keywords) && Descriptor(e.path, e.keywords) in docs
  {
    ScoredSound(p, docs);
  }

  /** At most `max_docs` entries, all of them with score at least one, in
      non-increasing score order; fewer only when fewer descriptors matched. */
  lemma SelectionBounded(prompt: string, docs: seq<Descriptor>, maxDocs: nat)
    ensures |Select(prompt, docs, maxDocs)| <= maxDocs
    ensures |Select(prompt, docs, maxDocs)| == if maxDocs < |Scored(Lower(prompt), docs)| then maxDocs else |Scored(Lower(prompt), docs)|
    ensures forall i :: 0 <= i < |Select(prompt, docs, maxDocs)| ==> Select(prompt, docs, maxDocs)[i].score >= 1
    ensures SortedByScore(Select(prompt, docs, maxDocs))
  {
    var s := Scored(Lower(prompt), docs);
    var full := SortByScore(s);
    SelectIsPrefix(prompt, docs, maxDocs);
    var r := Select(prompt, docs, maxDocs);
    SortedPrefix(full, |r|);
    forall i | 0 <= i < |r|
      ensures r[i].score >= 1
    {
      assert r[i] == full[i];
      assert full[i] in multiset(s);
      ScoredEntry(Lower(prompt), docs, full[i]);
    }
  }

  /** Every selected entry is a manifest descriptor with its full keyword
      list, scored by the number of its keywords that occur, lower-cased, in
      the lower-cased prompt. */
  lemma SelectionScores(prompt: string, docs: seq<Descriptor>, maxDocs: nat, i: int)
    requires 0 <= i < |Select(prompt, docs, maxDocs)|
    ensures Descriptor(Select(prompt, docs, maxDocs)[i].path, Select(prompt, docs, maxDocs)[i].keywords) in docs
    ensures Select(prompt, docs, maxDocs)[i].score
      == |MatchedPositions(Lower(prompt), Select(prompt, docs, maxDocs)[i].keywords)|
  {
    var s := Scored(Lower(prompt), docs);
    var full := SortByScore(s);
    SelectIsPrefix(prompt, docs, maxDocs);
    var e := Select(prompt, docs, maxDocs)[i];
    assert e == full[i];
    assert e in multiset(s);
    ScoredEntry(Lower(prompt), docs, e);
    HitsCountsMatches(Lower(prompt), e.keywords);
  }

  /** Python's sort is stable under `reverse=True`: within each score the
      manifest order is kept, and the truncation keeps the earliest entries of
      each score. */
  lemma SelectionStable(prompt: string, docs: seq<Descriptor>, maxDocs: nat, k: nat)
    ensures WithScore(Select(prompt, docs, maxDocs), k) <= WithScore(Scored(Lower(prompt), docs), k)
  {
    var s := Scored(Lower(prompt), docs);
    var full := SortByScore(s);
    var r := Select(prompt, docs, maxDocs);
    SortByScoreCorrect(s);
    SelectIsPrefix(prompt, docs, maxDocs);
    WithScoreTake(full, |r|, k);
    assert WithScore(full, k) == WithScore(s, k);
  }

  /** The truncation keeps the best: no positive match left out scores
      higher than a selected entry. */
  lemma SelectionTopN(prompt: string, docs: seq<Descriptor>, maxDocs: nat, e: ScoredDoc, i: int)
    requires multiset(Select(prompt, docs, maxDocs))[e] < multiset(Scored(Lower(prompt), docs))[e]
    requires 0 <= i < |Select(prompt, docs, maxDocs)|
    ensures Select(prompt, docs, maxDocs)[i].score >= e.score
  {
    var s := Scored(Lower(prompt), docs);
    var full := SortByScore(s);
    var r := Select(prompt, docs, maxDocs);
    SelectIsPrefix(prompt, docs, maxDocs);
    SortedPrefixIsTop(full, |r|, e, i);
  }

  /** Matching ignores letter case: prompts that differ only in the case of
      ASCII letters select the same documents. */
  lemma SelectionIgnoresCase(p1: string, p2: string, docs: seq<Descriptor>, maxDocs: nat)
    requires SameUpToCase(p1, p2)
    ensures Select(p1, docs, maxDocs) == Select(p2, docs, maxDocs)
  {
    SameUpToCaseLower(p1, p2);
  }

  /** An empty keyword is found in every prompt, so it always scores. */
  lemma EmptyKeywordHits(p: string, keywords: seq<string>)
    requires "" in keywords
    ensures Hits(p, keywords) > 0
  {
    var j :| 0 <= j < |keywords| && keywords[j] == "";
    assert Lower(keywords[j]) == "";
    EmptyIsContained(p);
    HitsZeroIff(p, keywords);
  }

  /** On the empty prompt only an empty keyword scores. */
  lemma EmptyPromptHits(keywords: seq<string>)
    requires Hits("", keywords) > 0
    ensures "" in keywords
  {
    HitsZeroIff("", keywords);
    var j :| 0 <= j < |keywords| && Contains("", Lower(keywords[j]));
    ContainedInEmpty(Lower(keywords[j]));
    assert keywords[j] == "";
  }

  /** An empty keyword occurs in every prompt, so the empty prompt selects
      something exactly when some descriptor has an empty keyword. */
  lemma EmptyPromptSelection(docs: seq<Descriptor>, maxDocs: nat)
    ensures Select("", docs, maxDocs) == [] <==>
      (maxDocs == 0 || forall d, k :: d in docs && k in d.when ==> k != "")
  {
    assert Lower("") == "";
    var s := Scored("", docs);
    SelectIsPrefix("", docs, maxDocs);
    assert Select("", docs, maxDocs) == [] <==> (maxDocs == 0 || s == []);
    if exists d, k :: d in docs && k in d.when && k == "" {
      var d, k :| d in docs && k in d.when && k == "";
      EmptyKeywordHits("", d.when);
      ScoredComplete("", docs, d);
      assert ScoredDoc(Hits("", d.when), d.path, d.when) in s;
    }
    if s != [] {
      var e := s[0];
      ScoredSound("", docs);
      assert e in s;
      EmptyPromptHits(e.keywords);
      assert Descriptor(e.path, e.keywords) in docs;
    }
  }

  /** The imperative `select_relevant_docs`: score each descriptor in a loop,
      append the positive ones, sort by descending score, keep `max_docs`. */
  method SelectRelevantDocs(prompt: string, manifest: ManifestLoad, maxDocs: nat) returns (r: seq<ScoredDoc>)
    ensures r == Select(prompt, LoadManifest(manifest), maxDocs)
  {
    var docs := LoadManifest(manifest);
    var p := Lower(prompt);
    var scored: seq<ScoredDoc> := [];
    var i := 0;
    while i < |docs|
      invariant 0 <= i <= |docs|
      invariant scored == Scored(p, docs[..i])
    {
      var doc := docs[i];
      var hits := Hits(p, doc.when);
      if hits > 0 {
        scored := scored + [ScoredDoc(hits, doc.path, doc.when)];
      }
      assert docs[..i + 1][..i] == docs[..i];
      i := i + 1;
    }
    assert docs[..i] == docs;
    scored := SortDescending(scored);
    r := if maxDocs < |scored| then scored[..maxDocs] else scored;
  }

  // ----------------------------------------------------------------- assembly

  /** The section of one selected document: its path, its full keyword list and its body. */
  function DocSection(d: ScoredDoc, read: Reader): string
  {
    "\n--- " + d.path + " (matched keywords: " + Join(", ", d.keywords) + ") ---\n" + ReadText(read, d.path)
  }

  function DocSections(selected: seq<ScoredDoc>, read: Reader): (r: seq<string>)
    ensures |r| == |selected|
  {
    seq(|selected|, i requires 0 <= i < |selected| => DocSection(selected[i], read))
  }

  /** The base part, present only when requested. */
  function BasePart(includeBase: bool, read: Reader): (r: seq<string>)
    ensures |r| == if includeBase then 1 else 0
  {
    if includeBase then [BaseHeader + ReadText(read, BasePath)] else []
  }

  /** The `parts` list of `build_context_response` for a given selection. */
  function Parts(selected: seq<ScoredDoc>, includeBase: bool, read: Reader): seq<string>
  {
    BasePart(includeBase, read)
      + (if selected != [] then [RelevantHeader] + DocSections(selected, read) else [NoMatchSentinel])
  }

  /** `build_context_response(prompt, include_base)`: the parts over the
      default selection of at most three documents, joined by a blank line. */
  function ContextResponse(prompt: string, includeBase: bool, manifest: ManifestLoad, read: Reader): string
  {
    Join(PartSeparator, Parts(Select(prompt, LoadManifest(manifest), DefaultMaxDocs), includeBase, read))
  }

  /** The loop of `build_context_response` that appends one section per
      selected document, reading each document as it goes. */
  method AppendSections(parts: seq<string>, relevant: seq<ScoredDoc>, read: Reader) returns (r: seq<string>)
    ensures r == parts + DocSections(relevant, read)
  {
    r := parts;
    var i := 0;
    while i < |relevant|
      invariant 0 <= i <= |relevant|
      invariant r == parts + DocSections(relevant[..i], read)
    {
      var content := ReadText(read, relevant[i].path);
      var section := "\n--- " + relevant[i].path + " (matched keywords: " + Join(", ", relevant[i].keywords) + ") ---\n" + content;
      assert section == DocSection(relevant[i], read);
      DocSectionsSnoc(relevant, i, read);
      assert (parts + DocSections(relevant[..i], read)) + [section]
        == parts + (DocSections(relevant[..i], read) + [section]);
      r := r + [section];
      i := i + 1;
    }
    assert relevant[..i] == relevant;
  }

  /** The imperative `build_context_response`: append the parts, then join them. */
  method BuildContextResponse(prompt: string, includeBase: bool, manifest: ManifestLoad, read: Reader)
    returns (r: string)
    ensures r == ContextResponse(prompt, includeBase, manifest, read)
  {
    var parts: seq<string> := [];
    if includeBase {
      var baseContent := ReadText(read, BasePath);
      parts := parts + [BaseHeader + baseContent];
    }
    ghost var lead := parts;
    assert lead == BasePart(includeBase, read);
    var relevant := SelectRelevantDocs(prompt, manifest, DefaultMaxDocs);
    if relevant != [] {
      parts := parts + [RelevantHeader];
      parts := AppendSections(parts, relevant, read);
      assert parts == lead + ([RelevantHeader] + DocSections(relevant, read));
    } else {
      parts := parts + [NoMatchSentinel];
    }
    assert parts == Parts(relevant, includeBase, read);
    r := Join(PartSeparator, parts);
  }

  /** Appending one document's section to the sections of a prefix. */
  lemma DocSectionsSnoc(selected: seq<ScoredDoc>, i: int, read: Reader)
    requires 0 <= i < |selected|
    ensures DocSections(selected[..i + 1], read) == DocSections(selected[..i], read) + [DocSection(selected[i], read)]
  {
    var u := DocSections(selected[..i + 1], read);
    var v := DocSections(selected[..i], read) + [DocSection(selected[i], read)];
    forall j | 0 <= j < |u|
      ensures u[j] == v[j]
    {
      assert selected[..i + 1][j] == selected[j];
    }
  }

  /** Positions in `u + [h] + v`, whatever the elements are. */
  lemma AfterHeader<T>(u: seq<T>, h: T, v: seq<T>, i: int)
    requires 0 <= i < |v|
    ensures |u + ([h] + v)| == |u| + 1 + |v|
    ensures (u + ([h] + v))[|u|] == h
    ensures (u + ([h] + v))[|u| + 1 + i] == v[i]
  {
  }

  /** With a non-empty selection, the sections sit after the optional base
      part and the documentation header. */
  lemma PartsSectionAt(selected: seq<ScoredDoc>, includeBase: bool, read: Reader, i: int)
    requires 0 <= i < |selected|
    ensures var lead := if includeBase then 1 else 0;
      && |Parts(selected, includeBase, read)| == lead + 1 + |selected|
      && Parts(selected, includeBase, read)[lead] == RelevantHeader
      && Parts(selected, includeBase, read)[lead + 1 + i] == DocSection(selected[i], read)
  {
    var u := BasePart(includeBase, read);
    var v := DocSections(selected, read);
    var parts := Parts(selected, includeBase, read);
    assert parts == u + ([RelevantHeader] + v);
    AfterHeader(u, RelevantHeader, v, i);
    assert v[i] == DocSection(selected[i], read);
  }

  /** Layout of the parts: the base part first exactly when requested, then
      either the documentation header and one section per selected document in
      selection order, or the no-match sentinel alone. */
  lemma PartsLayout(selected: seq<ScoredDoc>, includeBase: bool, read: Reader)
    ensures var parts := Parts(selected, includeBase, read);
      var lead := if includeBase then 1 else 0;
      && (includeBase ==> parts[0] == BaseHeader + ReadText(read, BasePath))
      && (!includeBase ==> parts[0] in {RelevantHeader, NoMatchSentinel})
      && (selected == [] ==> |parts| == lead + 1 && parts[lead] == NoMatchSentinel)
      && (selected != [] ==>
        (&& |parts| == lead + 1 + |selected|
         && parts[lead] == RelevantHeader
         && forall i :: 0 <= i < |selected| ==> parts[lead + 1 + i] == DocSection(selected[i], read)))
  {
    if selected == [] {
      var base := [BaseHeader + ReadText(read, BasePath)];
      assert Parts(selected, includeBase, read) == (if includeBase then base else []) + [NoMatchSentinel];
    } else {
      forall i | 0 <= i < |selected|
        ensures Parts(selected, includeBase, read)[(if includeBase then 1 else 0) + 1 + i] == DocSection(selected[i], read)
      {
        PartsSectionAt(selected, includeBase, read, i);
      }
      PartsSectionAt(selected, includeBase, read, 0);
    }
  }

  /** Each selected document has exactly one section, in selection order, and
      its header echoes the full `when` list of a manifest descriptor, not
      only the keywords that matched. */
  lemma SectionEchoesAllKeywords(prompt: string, includeBase: bool, manifest: ManifestLoad, read: Reader, i: int)
    requires 0 <= i < |Select(prompt, LoadManifest(manifest), DefaultMaxDocs)|
    ensures var selected := Select(prompt, LoadManifest(manifest), DefaultMaxDocs);
      var parts := Parts(selected, includeBase, read);
      var d := selected[i];
      var lead := if includeBase then 1 else 0;
      && |parts| == lead + 1 + |selected|
      && Descriptor(d.path, d.keywords) in LoadManifest(manifest)
      && parts[lead + 1 + i] == "\n--- " + d.path + " (matched keywords: " + Join(", ", d.keywords) + ") ---\n" + ReadText(read, d.path)
  {
    var selected := Select(prompt, LoadManifest(manifest), DefaultMaxDocs);
    SelectionScores(prompt, LoadManifest(manifest), DefaultMaxDocs, i);
    PartsLayout(selected, includeBase, read);
  }

  /** The response opens with the base part exactly when it was requested,
      and then the base part is followed by the part separator. */
  lemma BaseFirstIffRequested(prompt: string, includeBase: bool, manifest: ManifestLoad, read: Reader)
    ensures BaseHeader <= ContextResponse(prompt, includeBase, manifest, read) <==> includeBase
    ensures includeBase ==>
      BaseHeader + ReadText(read, BasePath) + PartSeparator <= ContextResponse(prompt, includeBase, manifest, read)
  {
    var selected := Select(prompt, LoadManifest(manifest), DefaultMaxDocs);
    var parts := Parts(selected, includeBase, read);
    var response := Join(PartSeparator, parts);
    PartsLayout(selected, includeBase, read);
    JoinStartsWithFirst(PartSeparator, parts);
    if includeBase {
      assert response == parts[0] + PartSeparator + Join(PartSeparator, parts[1..]);
    } else {
      if selected == [] {
        assert parts[0] == NoMatchSentinel;
        assert NoMatchSentinel[0] == '\n';
      } else {
        assert parts[0] == RelevantHeader;
        assert RelevantHeader[0] == '\n';
      }
      assert response[0] == '\n' != BaseHeader[0];
    }
  }

  /** When nothing is selected, the response is the optional base part and
      the no-match sentinel, and nothing else. */
  lemma NoMatchResponse(prompt: string, includeBase: bool, manifest: ManifestLoad, read: Reader)
    requires Select(prompt, LoadManifest(manifest), DefaultMaxDocs) == []
    ensures ContextResponse(prompt, includeBase, manifest, read)
      == (if includeBase then BaseHeader + ReadText(read, BasePath) + PartSeparator else "") + NoMatchSentinel
  {
    var parts := Parts([], includeBase, read);
    assert ContextResponse(prompt, includeBase, manifest, read) == Join(PartSeparator, parts);
    if includeBase {
      var base := BaseHeader + ReadText(read, BasePath);
      assert parts == [base, NoMatchSentinel];
      assert parts[1..] == [NoMatchSentinel];
      assert Join(PartSeparator, parts) == base + PartSeparator + Join(PartSeparator, [NoMatchSentinel]);
    } else {
      assert parts == [NoMatchSentinel];
    }
  }

  /** A manifest that cannot be loaded, or one without documents, selects
      nothing and answers with the no-match sentinel. */
  lemma EmptyManifestGivesSentinel(prompt: string, includeBase: bool, manifest: ManifestLoad, read: Reader, maxDocs: nat)
    requires manifest.Unavailable? || manifest == Loaded([])
    ensures Select(prompt, LoadManifest(manifest), maxDocs) == []
    ensures ContextResponse(prompt, includeBase, manifest, read)
      == (if includeBase then BaseHeader + ReadText(read, BasePath) + PartSeparator else "") + NoMatchSentinel
  {
    assert LoadManifest(manifest) == [];
    NoMatchResponse(prompt, includeBase, manifest, read);
  }

  /** A document that cannot be read yields an inline error text in its own
      section, and the other parts are assembled as usual: the number of parts
      does not depend on what the reads return. */
  lemma ReadFailureIsInline(selected: seq<ScoredDoc>, includeBase: bool, read: Reader, other: Reader, i: int)
    requires 0 <= i < |selected|
    requires read(selected[i].path).Err?
    ensures var lead := if includeBase then 1 else 0;
      Parts(selected, includeBase, read)[lead + 1 + i]
        == "\n--- " + selected[i].path + " (matched keywords: " + Join(", ", selected[i].keywords) + ") ---\n"
           + ("Error reading " + selected[i].path + ": " + read(selected[i].path).msg)
    ensures |Parts(selected, includeBase, read)| == |Parts(selected, includeBase, other)|
  {
    var path := selected[i].path;
    assert ReadText(read, path) == "Error reading " + path + ": " + read(path).msg;
    PartsSectionAt(selected, includeBase, read, i);
    PartsSectionAt(selected, includeBase, other, i);
  }

  // ------------------------------------------------------------------ listing

  /** The `result` list of `list_all_contexts`. */
  function ListingLines(docs: seq<Descriptor>): seq<string>
  {
    if docs == [] then [ListingHeader]
    else
      var d := docs[|docs| - 1];
      ListingLines(docs[..|docs| - 1]) + ["- " + d.path, "  Keywords: " + Join(", ", d.when) + "\n"]
  }

  function ListingText(manifest: ManifestLoad): string
  {
    Join("\n", ListingLines(LoadManifest(manifest)))
  }

  /** The listing is the header line followed by two lines per descriptor,
      in manifest order: its path, then its keywords. */
  lemma {:induction false} ListingLayout(docs: seq<Descriptor>)
    ensures |ListingLines(docs)| == 1 + 2 * |docs|
    ensures ListingLines(docs)[0] == ListingHeader
    ensures forall i :: 0 <= i < |docs| ==>
      ListingLines(docs)[1 + 2 * i] == "- " + docs[i].path
      && ListingLines(docs)[2 + 2 * i] == "  Keywords: " + Join(", ", docs[i].when) + "\n"
    decreases |docs|
  {
    if docs != [] {
      var n := |docs| - 1;
      ListingLayout(docs[..n]);
      assert forall i :: 0 <= i < n ==> docs[..n][i] == docs[i];
    }
  }

  /** The listing text opens with its header. */
  lemma ListingStartsWithHeader(manifest: ManifestLoad)
    ensures ListingHeader <= ListingText(manifest)
  {
    ListingLayout(LoadManifest(manifest));
    JoinStartsWithFirst("\n", ListingLines(LoadManifest(manifest)));
  }

  /** The imperative `list_all_contexts`: append two lines per descriptor, then join. */
  method ListAllContexts(manifest: ManifestLoad) returns (r: string)
    ensures r == ListingText(manifest)
  {
    var docs := LoadManifest(manifest);
    var result := [ListingHeader];
    var i := 0;
    while i < |docs|
      invariant 0 <= i <= |docs|
      invariant result == ListingLines(docs[..i])
    {
      var keywords := Join(", ", docs[i].when);
      result := result + ["- " + docs[i].path];
      result := result + ["  Keywords: " + keywords + "\n"];
      assert docs[..i + 1][..i] == docs[..i];
      i := i + 1;
    }
    assert docs[..i] == docs;
    r := Join("\n", result);
  }

  // ----------------------------------------------------------------- dispatch

  /** The `arguments` object of a tool call; an absent key is `None`. */
  datatype ToolArgs = ToolArgs(prompt: Option<string>, includeBase: Option<bool>, filePath: Option<string>)

  function GetOr<T>(o: Option<T>, default: T): T
  {
    match o
    case Some(v) => v
    case None => default
  }

  /** `call_tool(name, arguments)`: the text of the one `TextContent` it returns. */
  function CallTool(name: string, args: ToolArgs, manifest: ManifestLoad, read: Reader): (r: string)
    ensures name == "load_context" && GetOr(args.prompt, "") != "" ==>
      r == ContextResponse(GetOr(args.prompt, ""), GetOr(args.includeBase, true), manifest, read)
    ensures name == "list_contexts" ==> r == ListingText(manifest)
    ensures name == "get_context_file" && GetOr(args.filePath, "") != "" ==>
      r == "=== " + GetOr(args.filePath, "") + " ===\n\n" + ReadText(read, GetOr(args.filePath, ""))
    ensures name !in {"load_context", "list_contexts", "get_context_file"} ==>
      r == "Error: Unknown tool '" + name + "'"
  {
    if name == "load_context" then
      var prompt := GetOr(args.prompt, "");
      var includeBase := GetOr(args.includeBase, true);
      if prompt == "" then PromptMissing
      else ContextResponse(prompt, includeBase, manifest, read)
    else if name == "list_contexts" then
      ListingText(manifest)
    else if name == "get_context_file" then
      var filePath := GetOr(args.filePath, "");
      if filePath == "" then FilePathMissing
      else "=== " + filePath + " ===\n\n" + ReadText(read, filePath)
    else
      "Error: Unknown tool '" + name + "'"
  }

  /** A missing or empty prompt or file path is answered with a fixed error
      text, whatever the manifest and the files hold: nothing is read or assembled. */
  lemma CallToolRejectsEmptyInput(name: string, args: ToolArgs, m1: ManifestLoad, m2: ManifestLoad, r1: Reader, r2: Reader)
    requires (name == "load_context" && GetOr(args.prompt, "") == "")
      || (name == "get_context_file" && GetOr(args.filePath, "") == "")
    ensures CallTool(name, args, m1, r1) == CallTool(name, args, m2, r2)
    ensures CallTool(name, args, m1, r1) == if name == "load_context" then PromptMissing else FilePathMissing
  {
  }

  const ExamplePrompt := "how do I mock with gmock"

  lemma ExamplePromptLowered()
    ensures Lower(ExamplePrompt) == "how do i mock with gmock"
  {
  }

  /** A keyword counts once however often it occurs: "mock mock" scores 1
      for the keyword list ["mock"]. */
  lemma ExampleRepeatedKeyword()
    ensures Hits("mock mock", ["mock"]) == 1
  {
    LowerWithoutUpper("mock");
    assert "mock mock"[0..4] == "mock";
    OccursContains("mock mock", "mock", 0);
    assert ["mock"][..0] == [];
  }

  /** In the example prompt "mock" and "gmock" are found, "ctest" is not. */
  lemma ExampleKeywordMatches()
    ensures Contains(Lower(ExamplePrompt), Lower("mock"))
    ensures Contains(Lower(ExamplePrompt), Lower("gmock"))
    ensures !Contains(Lower(ExamplePrompt), Lower("ctest"))
  {
    var p := "how do i mock with gmock";
    ExamplePromptLowered();
    LowerWithoutUpper("mock");
    LowerWithoutUpper("gmock");
    LowerWithoutUpper("ctest");
    assert p[9..13] == "mock";
    OccursContains(p, "mock", 9);
    assert p[19..24] == "gmock";
    OccursContains(p, "gmock", 19);
    ExampleMissesCtest();
  }

  /** "ctest" has an `e`, and the lower-cased example prompt has none. */
  lemma ExampleMissesCtest()
    ensures !Contains("how do i mock with gmock", "ctest")
  {
    assert "ctest"[2] !in "how do i mock with gmock";
    MissingCharNotContained("how do i mock with gmock", "ctest", 2);
  }

  /** The worked example: with descriptors `a.md` (mock, gmock) and `b.md`
      (ctest), the prompt "how do I mock with gmock" selects `a.md` alone, with score 2. */
  lemma ExampleSelection()
    ensures Select(ExamplePrompt,
      [Descriptor("a.md", ["mock", "gmock"]), Descriptor("b.md", ["ctest"])], DefaultMaxDocs)
      == [ScoredDoc(2, "a.md", ["mock", "gmock"])]
  {
    ExampleKeywordMatches();
    var p := Lower(ExamplePrompt);
    var a := Descriptor("a.md", ["mock", "gmock"]);
    var b := Descriptor("b.md", ["ctest"]);
    var e := ScoredDoc(2, "a.md", ["mock", "gmock"]);
    assert ["mock", "gmock"][..1] == ["mock"];
    assert ["mock"][..0] == [];
    assert Hits(p, ["mock"]) == 1;
    assert Hits(p, a.when) == 2;
    assert ["ctest"][..0] == [];
    assert Hits(p, b.when) == 0;
    assert [a, b][..1] == [a];
    assert [a][..0] == [];
    assert Scored(p, [a]) == [e];
    assert Scored(p, [a, b]) == [e];
    assert SortByScore([e]) == [e];
  }
}
