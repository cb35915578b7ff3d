/** The skills CLI's lookup (skills.py): a skill is named by the stem of its
    document's path, found case-insensitively, and loaded as the document's
    text, with a header when it is handed to the editor. */
module Skills {
  import opened Text
  import opened Resources

  /** `s.rfind(c)`: the last index of `c`, or -1. */
  function LastIndexOf(s: string, c: char): (i: int)
    ensures -1 <= i < |s|
    ensures i >= 0 ==> s[i] == c
  {
    if s == [] then -1
    else if s[|s| - 1] == c then |s| - 1
    else LastIndexOf(s[..|s| - 1], c)
  }

  /** No occurrence of `c` follows the index `rfind` returns; -1 means `c` does not occur. */
  lemma {:induction false} LastIndexOfIsLast(s: string, c: char)
    ensures forall j :: LastIndexOf(s, c) < j < |s| ==> s[j] != c
    decreases |s|
  {
    if s != [] && s[|s| - 1] != c {
      LastIndexOfIsLast(s[..|s| - 1], c);
    }
  }

  /** A path without its trailing separators, as pathlib stores it. */
  function StripTrailingSlashes(s: string): (r: string)
    ensures r <= s
    ensures r == [] || r[|r| - 1] != '/'
    ensures forall i :: |r| <= i < |s| ==> s[i] == '/'
  {
    if s != [] && s[|s| - 1] == '/' then StripTrailingSlashes(s[..|s| - 1]) else s
  }

  /** `Path(path).name`: the last component. */
  function FileName(path: string): string
  {
    var t := StripTrailingSlashes(path);
    t[LastIndexOf(t, '/') + 1..]
  }

  /** `Path(path).stem` as in Python up to 3.13: the name without its last
      suffix; a leading dot or a trailing dot is not a suffix. */
  function Stem(path: string): string
  {
    var n := FileName(path);
    var i := LastIndexOf(n, '.');
    if 0 < i < |n| - 1 then n[..i] else n
  }

  /** The name has no separator. */
  lemma FileNameHasNoSeparator(path: string)
    ensures '/' !in FileName(path)
  {
    var t := StripTrailingSlashes(path);
    var last := LastIndexOf(t, '/');
    LastIndexOfIsLast(t, '/');
    var n := t[last + 1..];
    assert FileName(path) == n;
    forall i | 0 <= i < |n|
      ensures n[i] != '/'
    {
      assert n[i] == t[last + 1 + i];
    }
  }

  /** The stem is a prefix of the name, non-empty when the name is, and cut
      just before a dot when it is shorter. */
  lemma StemIsPrefixOfName(path: string)
    ensures Stem(path) <= FileName(path)
    ensures |Stem(path)| == |FileName(path)| || FileName(path)[|Stem(path)|] == '.'
    ensures FileName(path) != [] ==> Stem(path) != []
  {
    var n := FileName(path);
    var i := LastIndexOf(n, '.');
    assert Stem(path) == if 0 < i < |n| - 1 then n[..i] else n;
  }

  /** The stem of `dir/name.ext` is `name` when the extension has no dot and
      neither part has a separator. */
  lemma StemOfComposed(dir: string, name: string, ext: string)
    requires name != [] && ext != []
    requires '/' !in name && '/' !in ext && '.' !in ext
    ensures Stem(dir + "/" + name + "." + ext) == name
  {
    var path := dir + "/" + name + "." + ext;
    assert path[|path| - 1] == ext[|ext| - 1];
    assert StripTrailingSlashes(path) == path;
    var file := name + "." + ext;
    assert path == (dir + "/") + file;
    var slash := LastIndexOf(path, '/');
    LastIndexOfIsLast(path, '/');
    assert path[|dir|] == '/';
    forall j | |dir| < j < |path|
      ensures path[j] != '/'
    {
      assert path[j] == file[j - |dir| - 1];
      if j - |dir| - 1 < |name| {
        assert file[j - |dir| - 1] == name[j - |dir| - 1];
      } else if j - |dir| - 1 > |name| {
        assert file[j - |dir| - 1] == ext[j - |dir| - 2 - |name|];
      }
    }
    assert slash == |dir|;
    assert FileName(path) == file;
    var dot := LastIndexOf(file, '.');
    LastIndexOfIsLast(file, '.');
    assert file[|name|] == '.';
    forall j | |name| < j < |file|
      ensures file[j] != '.'
    {
      assert file[j] == ext[j - |name| - 1];
    }
    assert dot == |name|;
    assert file[..|name|] == name;
  }

  /** The skill name of the guide shipped as `context/x/GTest_Mock.md`. */
  lemma ExampleStem()
    ensures Stem("context/x/GTest_Mock.md") == "GTest_Mock"
  {
    assert "context/x/GTest_Mock.md" == "context/x" + "/" + "GTest_Mock" + "." + "md";
    StemOfComposed("context/x", "GTest_Mock", "md");
  }

  /** `Path(path).stem.lower()`: the key a skill is looked up by. */
  function SkillKey(path: string): string {
    Lower(Stem(path))
  }

  /** The first descriptor, in manifest order, whose path has the key `key`
      under `keyOf`: the linear search of `get_skill_by_name`, which does not
      depend on how the key is computed. */
  function FindFirst(docs: seq<Descriptor>, keyOf: string -> string, key: string): Option<Descriptor>
  {
    if docs == [] then None
    else if keyOf(docs[0].path) == key then Some(docs[0])
    else FindFirst(docs[1..], keyOf, key)
  }

  /** No result exactly when no descriptor has the key. */
  lemma {:induction false} FindFirstNoneIff(docs: seq<Descriptor>, keyOf: string -> string, key: string)
    ensures FindFirst(docs, keyOf, key).None? <==> forall i :: 0 <= i < |docs| ==> keyOf(docs[i].path) != key
    decreases |docs|
  {
    if docs != [] {
      var tail := docs[1..];
      FindFirstNoneIff(tail, keyOf, key);
      if FindFirst(docs, keyOf, key).None? {
        forall i | 0 <= i < |docs|
          ensures keyOf(docs[i].path) != key
        {
          if i > 0 {
            assert docs[i] == tail[i - 1];
          }
        }
      } else if keyOf(docs[0].path) != key {
        var j :| 0 <= j < |tail| && keyOf(tail[j].path) == key;
        assert docs[j + 1] == tail[j];
      }
    }
  }

  /** A result is the first descriptor, in manifest order, with the key. */
  lemma {:induction false} FindFirstIsFirst(docs: seq<Descriptor>, keyOf: string -> string, key: string)
    requires FindFirst(docs, keyOf, key).Some?
    ensures exists i :: (0 <= i < |docs| && docs[i] == FindFirst(docs, keyOf, key).value
      && keyOf(docs[i].path) == key
      && forall j :: 0 <= j < i ==> keyOf(docs[j].path) != key)
    decreases |docs|
  {
    if keyOf(docs[0].path) != key {
      var tail := docs[1..];
      FindFirstIsFirst(tail, keyOf, key);
      var i :| 0 <= i < |tail| && tail[i] == FindFirst(tail, keyOf, key).value
        && keyOf(tail[i].path) == key
        && forall j :: 0 <= j < i ==> keyOf(tail[j].path) != key;
      assert docs[i + 1] == tail[i];
      forall j | 0 <= j < i + 1
        ensures keyOf(docs[j].path) != key
      {
        if j > 0 {
          assert docs[j] == tail[j - 1];
        }
      }
    }
  }

  /** `get_skill_by_name(name)` as a value: the first descriptor whose
      lower-cased stem equals the lower-cased name. */
  function FindSkill(docs: seq<Descriptor>, name: string): Option<Descriptor>
  {
    FindFirst(docs, SkillKey, Lower(name))
  }

  /** Names differing only in letter case find the same skill. */
  lemma FindSkillIgnoresCase(docs: seq<Descriptor>, a: string, b: string)
    requires SameUpToCase(a, b)
    ensures FindSkill(docs, a) == FindSkill(docs, b)
  {
    SameUpToCaseLower(a, b);
  }

  /** A stem matches every spelling of it that differs only in letter case. */
  lemma StemMatchesAnyCase(path: string, name: string)
    requires SameUpToCase(Stem(path), name)
    ensures SkillKey(path) == Lower(name)
  {
    SameUpToCaseLower(Stem(path), name);
  }

  /** Where `load_skill` sends the document. */
  datatype OutputMode = Copilot | Clipboard | Stdout | File

  /** What `load_skill` returns (`content`) and the text it hands to the chosen
      destination (`delivered`). */
  datatype SkillText = SkillText(content: string, delivered: string)

  /** The text sent to each destination: a `# Context:` header naming the query
      for the editor, the bare content for the clipboard and the file, and the
      content with `print`'s newline on standard output. */
  function Delivered(name: string, content: string, output: OutputMode): string
  {
    match output
    case Copilot => "# Context: " + name + "\n\n" + content
    case Clipboard => content
    case Stdout => content + "\n"
    case File => content
  }

  /** What the file system holds at a skill's path: nothing (the existence
      check fails), a file that cannot be opened or decoded (a directory, no
      read permission, invalid UTF-8: `open`/`read` raise), or its text. */
  datatype SkillFile = Missing | Unreadable(reason: string) | Contents(text: string)

  /** The file system, as seen from the skills directory. */
  type SkillFiles = string -> SkillFile

  function NotFound(name: string): string {
    "Error: Skill '" + name + "' not found"
  }

  function FileMissing(path: string): string {
    "Error: Skill file not found at " + path
  }

  /** `SkillsManager`: the manifest's `docs` list is loaded once, when the
      manager is created, and never changed afterwards. */
  class SkillsManager {
    const docs: seq<Descriptor>

    constructor(manifest: seq<Descriptor>)
      ensures docs == manifest
    {
      docs := manifest;
    }

    /** `get_skill_by_name`: a scan of the manifest that returns at the first
        descriptor whose path stem equals the name, ignoring case. */
    method GetSkillByName(name: string) returns (r: Option<Descriptor>)
      ensures r == FindSkill(docs, name)
    {
      var key := Lower(name);
      var i := 0;
      while i < |docs|
        invariant 0 <= i <= |docs|
        invariant FindFirst(docs[i..], SkillKey, key) == FindSkill(docs, name)
      {
        assert docs[i..][1..] == docs[i + 1..];
        if SkillKey(docs[i].path) == key {
          return Some(docs[i]);
        }
        i := i + 1;
      }
      return None;
    }

    /** `load_skill`: an unknown name or a path that does not exist is a
        reported failure (the CLI exits); a file that exists but cannot be read
        raises, and its error escapes unchanged; otherwise the content is
        returned unchanged, whatever the mode. */
    method LoadSkill(name: string, output: OutputMode, files: SkillFiles) returns (r: Result<SkillText>)
      ensures FindSkill(docs, name).None? ==> r == Err(NotFound(name))
      ensures FindSkill(docs, name).Some? ==>
        var path := FindSkill(docs, name).value.path;
        match files(path)
        case Missing => r == Err(FileMissing(path))
        case Unreadable(reason) => r == Err(reason)
        case Contents(content) =>
          r.Ok? && r.value.content == content && r.value.delivered == Delivered(name, content, output)
    {
      var skill := GetSkillByName(name);
      if skill.None? {
        return Err(NotFound(name));
      }
      var path := skill.value.path;
      match files(path)
      case Missing =>
        return Err(FileMissing(path));
      case Unreadable(reason) =>
        return Err(reason);
      case Contents(content) =>
        return Ok(SkillText(content, Delivered(name, content, output)));
    }
  }
}
