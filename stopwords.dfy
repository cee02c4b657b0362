/**
 * Where the text analyzer's stopwords come from: the explicit list of the
 * options, and the files of a per-language directory, one word per line.
 */
module Stopwords {
  import opened Wrappers
  import opened Bytes
  import opened TextOptions

  const STOPWORD_PATH_ENV_VARIABLE: string := "IRESEARCH_TEXT_STOPWORD_PATH"

  /** A directory entry, as the visitor of the stopword directory sees it. */
  datatype Entry =
    | StatFailed          // whether it is a file cannot be determined
    | NotAFile            // a sub-directory or other non-file: skipped
    | Unreadable          // a file that cannot be opened
    | File(lines: seq<Bytes>)

  /**
   * The environment and the file system: `getenv`, the working directory,
   * the absoluteness test (None when it cannot be determined), path
   * concatenation, the directory test, and the visit of a directory's
   * entries (None when the directory cannot be listed).
   */
  datatype FsEnv = FsEnv(
    getenv: string -> Option<Bytes>,
    cwd: Bytes,
    isAbsolute: Bytes -> Option<bool>,
    join: (Bytes, Bytes) -> Bytes,
    isDirectory: Bytes -> bool,
    list: Bytes -> Option<seq<Entry>>)

  // ---------------------------------------------------------------------------
  // The line rule
  // ---------------------------------------------------------------------------

  /** The index of the first whitespace byte of `line` at or after `i`, or its length. */
  function SpaceIndexFrom(line: Bytes, i: nat): (r: nat)
    requires i <= |line|
    ensures i <= r <= |line|
    ensures forall k :: i <= k < r ==> !IsSpace(line[k])
    ensures r < |line| ==> IsSpace(line[r])
    decreases |line| - i
  {
    if i == |line| || IsSpace(line[i]) then i else SpaceIndexFrom(line, i + 1)
  }

  /** The word a line contributes: everything before its first whitespace, if that is not empty. */
  function StopwordOfLine(line: Bytes): (r: Option<Bytes>)
    ensures r.Some? <==> |line| > 0 && !IsSpace(line[0])
    ensures r.Some? ==> (
      && 0 < |r.value| <= |line| && line[..|r.value|] == r.value
      && (forall k :: 0 <= k < |r.value| ==> !IsSpace(r.value[k]))
      && (|r.value| == |line| || IsSpace(line[|r.value|])))
  {
    var i := SpaceIndexFrom(line, 0);
    if i > 0 then Some(line[..i]) else None
  }

  /** "the  a" contributes "the"; a line starting with a blank contributes nothing. */
  lemma LineRuleExamples()
    ensures StopwordOfLine([116, 104, 101, 32, 32, 97]) == Some([116, 104, 101])
    ensures StopwordOfLine([32, 97]) == None
    ensures StopwordOfLine([]) == None
  {
    var line: Bytes := [116, 104, 101, 32, 32, 97];
    assert SpaceIndexFrom(line, 3) == 3;
    assert SpaceIndexFrom(line, 0) == 3;
    assert line[..3] == [116, 104, 101];
  }

  /** The words of a file's lines. */
  function LinesWords(lines: seq<Bytes>): set<Bytes>
  {
    if |lines| == 0 then {}
    else
      var last := StopwordOfLine(lines[|lines| - 1]);
      LinesWords(lines[..|lines| - 1]) + (if last.Some? then {last.value} else {})
  }

  /** A word comes from a file exactly when some line contributes it. */
  lemma {:induction false} LinesWordsMembers(lines: seq<Bytes>, w: Bytes)
    ensures w in LinesWords(lines) <==> exists k :: 0 <= k < |lines| && StopwordOfLine(lines[k]) == Some(w)
    decreases |lines|
  {
    if |lines| > 0 {
      var init := lines[..|lines| - 1];
      LinesWordsMembers(init, w);
      if w in LinesWords(init) {
        var k :| 0 <= k < |init| && StopwordOfLine(init[k]) == Some(w);
        assert lines[k] == init[k];
      }
      if exists k :: 0 <= k < |lines| && StopwordOfLine(lines[k]) == Some(w) {
        var k :| 0 <= k < |lines| && StopwordOfLine(lines[k]) == Some(w);
        if k < |init| {
          assert init[k] == lines[k];
        }
      }
    }
  }

  /** The words of a directory's entries, or None when an entry cannot be read. */
  function EntriesWords(entries: seq<Entry>): Option<set<Bytes>>
  {
    if |entries| == 0 then Some({})
    else
      var before := EntriesWords(entries[..|entries| - 1]);
      match entries[|entries| - 1]
      case StatFailed => None
      case Unreadable => None
      case NotAFile => before
      case File(lines) => if before.None? then None else Some(before.value + LinesWords(lines))
  }

  predicate Failing(e: Entry)
  {
    e.StatFailed? || e.Unreadable?
  }

  /** Loading fails exactly when some entry cannot be read; otherwise it gives the files' words. */
  lemma {:induction false} EntriesWordsFails(entries: seq<Entry>)
    ensures EntriesWords(entries).None? <==> exists k :: 0 <= k < |entries| && Failing(entries[k])
    ensures EntriesWords(entries).Some? ==> forall w ::
      (w in EntriesWords(entries).value <==>
        exists k :: 0 <= k < |entries| && entries[k].File? && w in LinesWords(entries[k].lines))
    decreases |entries|
  {
    if |entries| > 0 {
      var init := entries[..|entries| - 1];
      EntriesWordsFails(init);
      assert forall k :: 0 <= k < |init| ==> init[k] == entries[k];
      if EntriesWords(entries).Some? {
        forall w
          ensures w in EntriesWords(entries).value <==>
            exists k :: 0 <= k < |entries| && entries[k].File? && w in LinesWords(entries[k].lines)
        {
          if w in EntriesWords(entries).value && w !in EntriesWords(init).value {
            assert entries[|entries| - 1].File?;
          }
        }
      }
    }
  }

  // ---------------------------------------------------------------------------
  // The directory
  // ---------------------------------------------------------------------------

  /**
   * The directory holding the per-language directories: the given path,
   * else the environment variable, else the working directory; a relative
   * path is taken against the working directory.
   */
  function StopwordRoot(fs: FsEnv, path: Option<Bytes>): (r: Option<Bytes>)
    ensures path.None? && fs.getenv(STOPWORD_PATH_ENV_VARIABLE).None? ==> r == Some(fs.cwd)
    ensures path.Some? ==> r == CustomRoot(fs, path.value)
    ensures path.None? && fs.getenv(STOPWORD_PATH_ENV_VARIABLE).Some? ==>
      r == CustomRoot(fs, fs.getenv(STOPWORD_PATH_ENV_VARIABLE).value)
  {
    var custom := if path.Some? then path else fs.getenv(STOPWORD_PATH_ENV_VARIABLE);
    if custom.None? then Some(fs.cwd) else CustomRoot(fs, custom.value)
  }

  /** A custom path made absolute, or None when its absoluteness is unknown. */
  function CustomRoot(fs: FsEnv, custom: Bytes): (r: Option<Bytes>)
    ensures r.None? <==> fs.isAbsolute(custom).None?
    ensures fs.isAbsolute(custom) == Some(true) ==> r == Some(custom)
    ensures fs.isAbsolute(custom) == Some(false) ==> r == Some(fs.join(fs.cwd, custom))
  {
    match fs.isAbsolute(custom)
    case None => None
    case Some(true) => Some(custom)
    case Some(false) => Some(fs.join(fs.cwd, custom))
  }

  /** The language directory, when both it and its parent are directories. */
  function StopwordDirectory(fs: FsEnv, path: Option<Bytes>, language: Bytes): (r: Option<Bytes>)
    ensures r.Some? <==>
      StopwordRoot(fs, path).Some? && fs.isDirectory(StopwordRoot(fs, path).value)
      && fs.isDirectory(fs.join(StopwordRoot(fs, path).value, language))
    ensures r.Some? ==> r.value == fs.join(StopwordRoot(fs, path).value, language)
  {
    var root := StopwordRoot(fs, path);
    if root.None? || !fs.isDirectory(root.value) then None
    else
      var dir := fs.join(root.value, language);
      if fs.isDirectory(dir) then Some(dir) else None
  }

  /** A given path makes the environment variable irrelevant. */
  lemma GivenPathIgnoresEnvironment(fs: FsEnv, path: Bytes, language: Bytes, g: string -> Option<Bytes>)
    ensures StopwordDirectory(fs, Some(path), language) == StopwordDirectory(fs.(getenv := g), Some(path), language)
  {
  }

  /** `get_stopwords` as a value: the words of the language directory, or None on any failure. */
  function LoadStopwords(fs: FsEnv, path: Option<Bytes>, language: Bytes): Option<set<Bytes>>
  {
    var dir := StopwordDirectory(fs, path, language);
    if dir.None? then None
    else
      var entries := fs.list(dir.value);
      if entries.None? then None else EntriesWords(entries.value)
  }

  /**
   * `get_stopwords`: collects the words of every file of the language
   * directory and adds them to `buf` only when every entry was read.
   */
  method GetStopwords(buf: set<Bytes>, fs: FsEnv, language: Bytes, path: Option<Bytes>)
    returns (ok: bool, out: set<Bytes>)
    ensures ok == LoadStopwords(fs, path, language).Some?
    ensures ok ==> out == buf + LoadStopwords(fs, path, language).value
    ensures !ok ==> out == buf
  {
    out := buf;
    var dir := StopwordDirectory(fs, path, language);
    if dir.None? {
      return false, out;
    }
    var listing := fs.list(dir.value);
    if listing.None? {
      return false, out;
    }
    var entries := listing.value;
    var stopwords: set<Bytes> := {};
    var i := 0;
    while i < |entries|
      invariant 0 <= i <= |entries|
      invariant EntriesWords(entries[..i]) == Some(stopwords)
    {
      assert entries[..i + 1][..i] == entries[..i];
      if Failing(entries[i]) {
        EntriesWordsFails(entries);
        return false, out;
      }
      if entries[i].File? {
        var words := ReadLines(entries[i].lines);
        stopwords := stopwords + words;
      }
      i := i + 1;
    }
    assert entries[..i] == entries;
    return true, buf + stopwords;
  }

  /** The loop over one file's lines. */
  method ReadLines(lines: seq<Bytes>) returns (words: set<Bytes>)
    ensures words == LinesWords(lines)
  {
    words := {};
    var j := 0;
    while j < |lines|
      invariant 0 <= j <= |lines|
      invariant words == LinesWords(lines[..j])
    {
      assert lines[..j + 1][..j] == lines[..j];
      var line := lines[j];
      var k := 0;
      while k < |line| && !IsSpace(line[k])
        invariant 0 <= k <= |line|
        invariant SpaceIndexFrom(line, k) == SpaceIndexFrom(line, 0)
      {
        k := k + 1;
      }
      if k > 0 {
        words := words + {line[..k]};
      }
      j := j + 1;
    }
    assert lines[..j] == lines;
  }

  // ---------------------------------------------------------------------------
  // The decision table
  // ---------------------------------------------------------------------------

  /**
   * `build_stopwords`: the explicit words always; with a path, also that
   * path's words; with neither a path nor an explicit list, the words of
   * the default location; None when loading was tried and failed.
   */
  function BuildStopwords(o: Options, fs: FsEnv, language: Bytes -> Bytes): (r: Option<set<Bytes>>)
    ensures r.Some? ==> o.explicitStopwords <= r.value
    ensures r.None? <==>
      if o.stopwordsPath.Explicit? then LoadStopwords(fs, Some(o.stopwordsPath.path), language(o.locale)).None?
      else !o.explicitStopwordsSet && o.explicitStopwords == {} && LoadStopwords(fs, None, language(o.locale)).None?
    ensures o.stopwordsPath.Unset? && (o.explicitStopwordsSet || o.explicitStopwords != {}) ==>
      r == Some(o.explicitStopwords)
  {
    if o.stopwordsPath.Explicit? then
      var loaded := LoadStopwords(fs, Some(o.stopwordsPath.path), language(o.locale));
      if loaded.None? then None else Some(o.explicitStopwords + loaded.value)
    else if !o.explicitStopwordsSet && |o.explicitStopwords| == 0 then
      LoadStopwords(fs, None, language(o.locale))
    else
      Some(o.explicitStopwords)
  }

  /** The rows of the decision table. */
  lemma BuildStopwordsTable(o: Options, fs: FsEnv, language: Bytes -> Bytes)
    ensures BuildStopwords(o, fs, language).Some? ==> o.explicitStopwords <= BuildStopwords(o, fs, language).value
    ensures o.stopwordsPath.Explicit? ==>
      (BuildStopwords(o, fs, language).Some? <==> LoadStopwords(fs, Some(o.stopwordsPath.path), language(o.locale)).Some?)
    ensures o.stopwordsPath.Explicit? && BuildStopwords(o, fs, language).Some? ==>
      BuildStopwords(o, fs, language).value
        == o.explicitStopwords + LoadStopwords(fs, Some(o.stopwordsPath.path), language(o.locale)).value
    ensures o.stopwordsPath.Unset? && !o.explicitStopwordsSet && o.explicitStopwords == {} ==>
      BuildStopwords(o, fs, language) == LoadStopwords(fs, None, language(o.locale))
    ensures o.stopwordsPath.Unset? && (o.explicitStopwordsSet || o.explicitStopwords != {}) ==>
      BuildStopwords(o, fs, language) == Some(o.explicitStopwords)
  {
  }

  /** With a path, the default location (and so the environment variable) is never consulted. */
  lemma PathNeverTriesDefaults(o: Options, fs: FsEnv, language: Bytes -> Bytes, g: string -> Option<Bytes>)
    requires o.stopwordsPath.Explicit?
    ensures BuildStopwords(o, fs, language) == BuildStopwords(o, fs.(getenv := g), language)
  {
    GivenPathIgnoresEnvironment(fs, o.stopwordsPath.path, language(o.locale), g);
  }

  /** Default options load the default location's words and nothing else. */
  lemma DefaultsLoadDefaultLocation(locale: Bytes, fs: FsEnv, language: Bytes -> Bytes)
    ensures BuildStopwords(Defaults(locale), fs, language) == LoadStopwords(fs, None, language(locale))
  {
  }
}
