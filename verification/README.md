# Context loader: keyword-overlap document selection

This project models the core of a context loader for coding assistants. A JSON
manifest lists markdown documents, each with a `path` and a `when` list of
keywords. Two selectors choose documents for a prompt by counting how many of
each document's keywords occur in it, each keyword once however often it
occurs. A third front end, the skills CLI, looks a document up by name.

- **The MCP tool handler** (`mcp_server.py`; `mcp_server_http.py` holds the same
  handler code, text for text).
  - `select_relevant_docs` scores each descriptor by the number of its keywords
    that, lower-cased, occur in the lower-cased prompt.
  - It keeps the positive scores, sorts them stably by descending score, and
    returns at most `max_docs` entries.
  - `build_context_response` assembles the optional base document, a header
    and one section per selected document, or a no-match sentinel, joined by
    blank lines.
  - `list_all_contexts` lists every descriptor.
  - `call_tool` dispatches the three tools `load_context`, `list_contexts` and
    `get_context_file`.
- **The agent router** (`agent/context_router.py`).
  - `select_docs` compares keywords as written (not lower-cased) with the
    lower-cased prompt.
  - It sorts `(hits, path)` tuples in reverse tuple order and returns only
    paths.
  - `build_system_context` appends the selected bodies to the base text.
  - Unlike the MCP handler, any read failure fails the whole call.
- **The skills CLI** (`skills.py`).
  - A skill is named by the stem of its document's path (`Path(path).stem`).
  - `get_skill_by_name` finds the first descriptor whose stem equals the name,
    ignoring case.
  - `load_skill` returns the document's text and hands it to one of four
    destinations, with a `# Context:` header for the editor.

The file system and the JSON parser are parameters:

- a `Reader` (path to text or error);
- a `ManifestLoad` (the parsed descriptor list, or the reason it could not be had);
- for the skills CLI, `SkillFiles` (for each path: missing, present but unreadable, or its text).

Modules:

- `Text` holds ASCII lower-casing, Python's substring test and `str.join`.
- `Resources` holds the descriptors and the I/O abstractions.
- `ScoreSort` holds the stable sort by descending score.
- `Seqs` holds generic facts about sequences and multisets that the proofs share.
- `McpServer`, `ContextRouter` and `Skills` follow the three source files.

In the MCP handler and the agent router, the sort is a call to `list.sort` on a
local list. Each is modelled twice:

- a reference insertion sort written as a function, whose properties are proved;
- an in-place insertion-sort method over the local sequence, proved equal to that function.

The method equals the reference because sortedness and stability (or, for
tuples, total order) admit only one arrangement.

## Model

| member | source | states |
|---|---|---|
| Text.Lower | mcp_server.py:41 | `str.lower()` keeps the length and leaves no upper-case ASCII letter |
| Text.ContainsIffOccurs | mcp_server.py:46 | `needle in hay` holds exactly when the needle occurs at some position of the haystack |
| Text.EmptyIsContained | mcp_server.py:46 | the empty keyword is found in every prompt, the empty prompt included |
| Text.UpperNotInLower | agent/context_router.py:10-14 | a keyword with an upper-case letter is never found in a lower-cased prompt |
| Text.JoinAppend | mcp_server.py:78 | joining one more part adds the separator and the part at the end |
| Text.JoinEmptyIff | agent/context_router.py:23-24 | with a non-empty separator the join is empty exactly for no parts or a single empty part |
| ScoreSort.SortByScoreCorrect | mcp_server.py:55 | the reference sort is ordered by non-increasing score, keeps each equal-score group in its original order, and is a permutation |
| ScoreSort.StableIsPermutation | mcp_server.py:55 | an arrangement that keeps every score group is a permutation |
| ScoreSort.StableSortUnique | mcp_server.py:55 | two sorted arrangements with the same score groups are equal, so the stable sort's result is unique |
| ScoreSort.SortDescending | mcp_server.py:55 | the in-place sort yields the reference arrangement: sorted, stable and a permutation |
| ScoreSort.WithScoreTake | mcp_server.py:56 | truncation keeps a prefix of every score group |
| ScoreSort.SortedPrefixIsTop | mcp_server.py:55-56 | in a sorted list an entry cut off by the truncation scores no higher than any kept entry |
| McpServer.Hits | mcp_server.py:46 | a descriptor's score is at most its number of keywords |
| McpServer.HitsCountsMatches | mcp_server.py:46 | the score is the number of keyword positions whose lower-cased keyword occurs in the prompt |
| McpServer.HitsZeroIff | mcp_server.py:46-47 | the score is zero exactly when no keyword occurs |
| McpServer.ScoredSound | mcp_server.py:43-52 | every collected entry has a positive score equal to its hits and comes from a manifest descriptor with its full keyword list |
| McpServer.ScoredComplete | mcp_server.py:43-52 | a descriptor with a positive score has its entry in the collected list exactly as many times as it occurs in the manifest |
| McpServer.SelectIsPrefix | mcp_server.py:55-56 | the selection is the first `max_docs` entries of a sorted permutation of the collected entries |
| McpServer.SelectionBounded | mcp_server.py:35-56 | at most `max_docs` entries, fewer only when fewer matched, all with positive scores, in non-increasing score order |
| McpServer.SelectionScores | mcp_server.py:44-52 | each selected entry is a manifest descriptor whose score counts its keywords found in the lower-cased prompt |
| McpServer.SelectionStable | mcp_server.py:55-56 | within each score the selection keeps manifest order (stability of `sort(reverse=True)`) |
| McpServer.SelectionTopN | mcp_server.py:55-56 | no matched entry left out scores higher than a selected one |
| McpServer.SelectionIgnoresCase | mcp_server.py:41-46 | prompts differing only in letter case select the same documents |
| McpServer.EmptyKeywordHits | mcp_server.py:46 | a descriptor with an empty keyword scores on every prompt |
| McpServer.EmptyPromptHits | mcp_server.py:46 | on the empty prompt only an empty keyword scores |
| McpServer.EmptyPromptSelection | mcp_server.py:35-56 | the empty prompt selects something exactly when `max_docs > 0` and some descriptor has an empty keyword |
| McpServer.SelectRelevantDocs | mcp_server.py:35-56 | the imperative loop, sort and slice compute the selection over the loaded manifest (no descriptors when it cannot be loaded) |
| McpServer.AppendSections | mcp_server.py:72-74 | the loop appends one section per selected document, in order |
| McpServer.BuildContextResponse | mcp_server.py:58-78 | the imperative assembly produces the joined parts over the default selection of three |
| McpServer.PartsSectionAt | mcp_server.py:70-74 | with a non-empty selection the header follows the optional base part and section `i` describes document `i` |
| McpServer.PartsLayout | mcp_server.py:60-76 | base part first exactly when requested, then the header and one section per document, or the sentinel alone |
| McpServer.SectionEchoesAllKeywords | mcp_server.py:72-74 | each section names a manifest path and its full keyword list, not only the matched ones, followed by the body |
| McpServer.BaseFirstIffRequested | mcp_server.py:63-65 | the response opens with the base header exactly when the base was requested, and the base part is then followed by a blank line |
| McpServer.NoMatchResponse | mcp_server.py:75-78 | with nothing selected the response is the optional base part and the no-match sentinel |
| McpServer.EmptyManifestGivesSentinel | mcp_server.py:26-33 | an unloadable or empty manifest selects nothing and yields the sentinel |
| McpServer.ReadFailureIsInline | mcp_server.py:19-24 | an unreadable document yields an inline error text in its own section; the number of parts does not depend on the reads |
| McpServer.ListingLayout | mcp_server.py:80-90 | the listing is the header and then two lines per descriptor, in manifest order: path, then keywords |
| McpServer.ListingStartsWithHeader | mcp_server.py:84-90 | the listing text opens with its header |
| McpServer.ListAllContexts | mcp_server.py:80-90 | the imperative loop builds that listing |
| McpServer.CallTool | mcp_server.py:147-186 | each tool name is answered by its operation and an unknown name by the error text naming it |
| McpServer.CallToolRejectsEmptyInput | mcp_server_http.py:157-177 | a missing or empty prompt or file path gets a fixed error text, independent of manifest and files |
| McpServer.ExampleRepeatedKeyword | mcp_server.py:46 | a keyword occurring twice in the prompt adds one to the score, not two |
| McpServer.ExampleKeywordMatches | mcp_server.py:46 | "mock" and "gmock" are found in the lower-cased example prompt and "ctest" is not |
| McpServer.ExampleSelection | mcp_server.py:35-56 | the example prompt selects the gmock document alone with score 2 |
| ContextRouter.AgentHits | agent/context_router.py:14 | a tuple's hit count is at most its number of keywords |
| ContextRouter.AgentHitsCountsMatches | agent/context_router.py:14 | the hit count is the number of keyword positions whose keyword, as written, occurs in the lower-cased prompt |
| ContextRouter.UpperKeywordsNeverMatch | agent/context_router.py:10-14 | no position holding a keyword with an upper-case letter is among the matched positions, wherever it stands in the list |
| ContextRouter.UpperKeywordNeverCounts | agent/context_router.py:10-14 | a keyword with an upper-case letter never adds a hit |
| ContextRouter.StrLessTotal | agent/context_router.py:17 | distinct paths are ordered one way or the other by Python's string `<` |
| ContextRouter.StrLessTransitive | agent/context_router.py:17 | Python's string `<` is transitive |
| ContextRouter.HitNotLessTransitive | agent/context_router.py:17 | "not smaller" on `(hits, path)` tuples is transitive |
| ContextRouter.SortHitsCorrect | agent/context_router.py:17 | the reference sort puts the tuples in descending tuple order and is a permutation |
| ContextRouter.DescendingUnique | agent/context_router.py:17 | two descending arrangements of the same tuples are equal |
| ContextRouter.SortDescending | agent/context_router.py:17 | the in-place sort yields the reference arrangement, descending and a permutation |
| ContextRouter.HitListSound | agent/context_router.py:12-16 | every tuple comes from a manifest descriptor with at least one hit |
| ContextRouter.HitListCount | agent/context_router.py:13-16 | a tuple with a hit occurs in the list once per manifest position whose descriptor has its path and hit count: duplicates are not merged |
| ContextRouter.HitListComplete | agent/context_router.py:13-16 | every manifest descriptor with at least one hit has its `(hits, path)` tuple in the list |
| ContextRouter.HitListPermutes | agent/context_router.py:13-16 | manifests holding the same descriptors in different orders yield the same tuples, up to order |
| ContextRouter.RankedIsPrefix | agent/context_router.py:17-18 | the kept tuples are the first `max_docs` of a descending permutation of the collected tuples |
| ContextRouter.RankedLength | agent/context_router.py:18 | exactly `max_docs` tuples are kept, or all of them when fewer matched |
| ContextRouter.RankedTopN | agent/context_router.py:17-18 | no collected tuple left out is greater, in tuple order, than a kept one |
| ContextRouter.RankedIgnoresOrder | agent/context_router.py:13-18 | the ranking does not depend on manifest order |
| ContextRouter.SelectDocsImpl | agent/context_router.py:9-18 | the imperative loop, sort and slice return the selected paths; an unreadable manifest is an error |
| ContextRouter.SelectDocsBounded | agent/context_router.py:17-18 | at most `max_docs` paths, each of a descriptor with at least one hit |
| ContextRouter.SelectDocsOrder | agent/context_router.py:17-18 | more hits first; equal hits in descending path order |
| ContextRouter.ReadAllOk | agent/context_router.py:23 | reading the selected paths succeeds exactly when every read does, giving the bodies in order |
| ContextRouter.SystemContextShape | agent/context_router.py:20-24 | the result is the base text exactly when nothing is selected or the single body is empty; otherwise base, blank line, bodies joined by blank lines |
| ContextRouter.SystemContextFailures | agent/context_router.py:20-24 | a failed base read, an unreadable manifest or any failed document read fails the call |
| ContextRouter.ExampleTieBreak | agent/context_router.py:17-18 | two documents matching "mock" once come back as `b.md` before `a.md`, in both manifest orders |
| Skills.LastIndexOf | skills.py:37 | `rfind` returns -1 or an index holding the character |
| Skills.LastIndexOfIsLast | skills.py:37 | no occurrence follows the index `rfind` returns |
| Skills.StripTrailingSlashes | skills.py:37 | the stripped path is a prefix not ending in a separator, and only separators were dropped |
| Skills.FileNameHasNoSeparator | skills.py:37 | the last component holds no separator |
| Skills.StemIsPrefixOfName | skills.py:37 | the stem is a non-empty prefix of a non-empty name, cut just before a dot when shorter |
| Skills.StemOfComposed | skills.py:37 | the stem of `dir/name.ext` is `name` |
| Skills.ExampleStem | skills.py:37 | the stem of `context/x/GTest_Mock.md` is `GTest_Mock` |
| Skills.FindFirstNoneIff | skills.py:44-50 | the search yields nothing exactly when no descriptor has the key |
| Skills.FindFirstIsFirst | skills.py:44-50 | a result is the first descriptor, in manifest order, with the key |
| Skills.FindSkillIgnoresCase | skills.py:46-48 | names differing only in letter case find the same skill |
| Skills.StemMatchesAnyCase | skills.py:48 | a stem matches every spelling of it that differs only in letter case |
| Skills.SkillsManager.constructor | skills.py:15-19 | the manager holds the manifest's descriptors |
| Skills.SkillsManager.GetSkillByName | skills.py:44-50 | the loop returns the first descriptor whose lower-cased stem equals the lower-cased name, or none |
| Skills.SkillsManager.LoadSkill | skills.py:52-101 | an unknown name and a path that does not exist are reported errors; an existing file that cannot be read propagates its own error; otherwise the content is returned unchanged and delivered with the editor header, bare, or with a trailing newline on standard output |

## Left out

- The MCP protocol, stdio, HTTP and SSE transports, `list_tools`, `main`, and the argument parsing of the skills CLI are left out: they are wiring, not logic.
- Reading files and parsing JSON are parameters (`Reader`, `ManifestLoad`, `SkillFiles`).
- A manifest without a `docs` key is the `Unavailable` load. The MCP handler's `.get("docs", [])` then sees no descriptors, as it does for a load failure. The agent's `manifest["docs"]` raises, which is `SelectDocs`'s error.
- Other malformed manifests are not modelled. These include JSON that is not an object, `{"docs": null}`, and a `docs` value that is not a list of objects. They parse without error inside `load_manifest`, then raise `AttributeError` or `TypeError` in `select_relevant_docs` and `list_all_contexts`.
- A descriptor without `when` is modelled only for the MCP handler, where `.get("when", [])` makes it a descriptor with no keywords. In the agent `d["when"]` raises a `KeyError`, which is not modelled.
- A descriptor without `path` is not modelled: `doc["path"]` raises in both selectors once the descriptor has a hit.
- In the MCP handler a truthy non-string `prompt` makes `prompt.lower()` raise (a falsy one gets the empty-prompt error text), and a non-boolean `include_base` is tested by its truth value. Neither is modelled: the model's arguments are typed as `string` and `bool`.
- `max_docs` is a `nat`: Python's slicing with a negative bound is not modelled.
- Lower-casing is ASCII only. Python's `str.lower` also folds non-ASCII letters, and the model keeps those unchanged.
- `Path.stem` is modelled as in Python up to 3.13, where a trailing dot is not a suffix, for `/`-separated paths. Python 3.14, which treats a single trailing dot as a suffix, is not modelled. Pathlib's collapsing of `//` and `.` components and Windows separators are not modelled.
- Skills.SkillsManager.LoadSkill: the file-missing message names the document's path rather than the path joined with the script's directory. An unreadable file's exception is modelled as its message, not as a traceback. `sys.exit`, printed progress messages, the listing of available skills on stderr, the clipboard, the temporary files and the editor subprocess are not modelled. What each destination receives is modelled as the `delivered` text.
- `list_skills` and `show_skill` are not modelled. They print the same stems and call `load_skill` with standard output.
- `async` execution and concurrency of the servers are left out.
- `agent/llm_agent.py`, `agent/server.py` and the test scripts are not part of this model.
- The empty keyword: Python's `"" in p` is true, so a descriptor with an empty keyword matches every prompt, the empty prompt included. `call_tool` rejects an empty prompt before selecting (mcp_server.py:154-158), so the empty prompt reaches the selector only through a direct call (McpServer.EmptyPromptSelection).
- The agent's `if extra` is also false when exactly one document is selected and its body is empty; the result is then the bare base text (ContextRouter.SystemContextShape).
- The two selectors break ties differently. The MCP handler keeps manifest order among equal scores. The agent orders equal hits by descending path.
