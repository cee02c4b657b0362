/**
 * Analyzer names: an analyzer is named `vocbase::name`, where a missing
 * prefix (NIL) means the active database and an empty prefix (`::name`)
 * means the system database.
 */
module AnalyzerNames {
  import opened Wrappers

  /** `ANALYZER_PREFIX_DELIM`: the prefix delimiter is two of these. */
  const DELIM: char := ':'

  /** The two-character delimiter ends at index i. */
  predicate DelimEndsAt(s: string, i: nat)
  {
    1 <= i < |s| && s[i] == DELIM && s[i - 1] == DELIM
  }

  /** No `::` in `s`. */
  predicate NoDelim(s: string)
  {
    forall i :: 0 <= i < |s| ==> !DelimEndsAt(s, i)
  }

  /** The first index from `i` on at which the delimiter ends. */
  function FirstDelimFrom(s: string, i: nat): (r: Option<nat>)
    requires i >= 1
    ensures r.Some? ==> i <= r.value && DelimEndsAt(s, r.value)
    ensures r.Some? ==> forall j :: i <= j < r.value ==> !DelimEndsAt(s, j)
    ensures r.None? ==> forall j :: i <= j < |s| ==> !DelimEndsAt(s, j)
    decreases |s| - i
  {
    if i >= |s| then None
    else if DelimEndsAt(s, i) then Some(i)
    else FirstDelimFrom(s, i + 1)
  }

  /**
   * `splitAnalyzerName`: the vocbase part before the first `::` (searching
   * from index 1) and the name after it; a name without `::` is unprefixed,
   * with a NIL (None) vocbase part.
   */
  function Split(s: string): (r: (Option<string>, string))
  {
    match FirstDelimFrom(s, 1)
    case None => (None, s)
    case Some(i) => (Some(s[..i - 1]), s[i + 1..])
  }

  /** `normalizedAnalyzerName(database, analyzer)`. */
  function NormalizedName(database: string, analyzer: string): (r: string)
    ensures |r| == |database| + 2 + |analyzer|
    ensures r[..|database|] == database && r[|database| + 2..] == analyzer
    ensures r[|database|] == DELIM && r[|database| + 1] == DELIM
  {
    database + [DELIM, DELIM] + analyzer
  }

  /**
   * What splitting gives: an unprefixed name has no `::` and comes back
   * whole; otherwise the name is prefix, `::`, suffix, with the prefix
   * holding no `::` and not ending in `:`.
   */
  lemma SplitCases(s: string)
    ensures Split(s).0.None? <==> NoDelim(s)
    ensures Split(s).0.None? ==> Split(s).1 == s
    ensures Split(s).0.Some? ==>
      var (p, n) := (Split(s).0.value, Split(s).1);
      && s == NormalizedName(p, n)
      && NoDelim(p)
      && (p == [] || p[|p| - 1] != DELIM)
  {
    var f := FirstDelimFrom(s, 1);
    if f.None? {
      assert !DelimEndsAt(s, 0);
    } else {
      var i := f.value;
      var p := s[..i - 1];
      assert s == p + [DELIM, DELIM] + s[i + 1..];
      forall j | 0 <= j < |p|
        ensures !DelimEndsAt(p, j)
      {
        if j >= 1 {
          assert !DelimEndsAt(s, j);
        }
      }
      if p != [] {
        assert 1 <= i - 1 && !DelimEndsAt(s, i - 1);
      }
    }
  }

  /**
   * Splitting a normalized name gives back its parts, whenever the database
   * name holds no `::` and does not end in `:`.
   */
  lemma SplitNormalized(database: string, analyzer: string)
    requires NoDelim(database) && (database == [] || database[|database| - 1] != DELIM)
    ensures Split(NormalizedName(database, analyzer)) == (Some(database), analyzer)
  {
    var s := NormalizedName(database, analyzer);
    var d := |database|;
    assert DelimEndsAt(s, d + 1);
    forall j | 1 <= j < d + 1
      ensures !DelimEndsAt(s, j)
    {
      if j < d {
        assert !DelimEndsAt(database, j);
      } else {
        assert s[j - 1] == database[d - 1];
      }
    }
    FirstIsTheOne(s, 1, d + 1);
  }

  lemma {:induction false} FirstIsTheOne(s: string, i: nat, k: nat)
    requires 1 <= i <= k && DelimEndsAt(s, k)
    requires forall j :: i <= j < k ==> !DelimEndsAt(s, j)
    ensures FirstDelimFrom(s, i) == Some(k)
    decreases k - i
  {
    if i < k {
      FirstIsTheOne(s, i + 1, k);
    }
  }

  /** `splitAnalyzerName` with its loop over the characters of the name. */
  method SplitAnalyzerName(s: string) returns (vocbase: Option<string>, name: string)
    ensures (vocbase, name) == Split(s)
  {
    var i := 1;
    while i < |s|
      invariant 1 <= i
      invariant FirstDelimFrom(s, 1) == FirstDelimFrom(s, i)
      decreases |s| - i
    {
      if s[i] == DELIM && s[i - 1] == DELIM {
        assert FirstDelimFrom(s, i) == Some(i);
        vocbase := Some(if i > 1 then s[..i - 1] else []);
        name := if i < |s| - 1 then s[i + 1..] else [];
        assert vocbase == Some(s[..i - 1]) && name == s[i + 1..];
        return;
      }
      i := i + 1;
    }
    return None, s;
  }

  /** The names of the databases a name is normalized against. */
  datatype Vocbases = Vocbases(active: string, system: string, sameVocbase: bool)

  /**
   * `IResearchAnalyzerFeature::normalize`: static analyzers keep their
   * name; with expansion an unprefixed name gets the active database's
   * name and an empty prefix the system database's; without expansion the
   * active database's prefix is dropped and the system database's becomes
   * empty; any other name is returned as it is.
   */
  function Normalize(name: string, isStatic: string -> bool, dbs: Vocbases, expand: bool): (r: string)
    ensures isStatic(name) ==> r == name
    ensures var analyzer := Split(name).1;
      |analyzer| <= |r| && r[|r| - |analyzer|..] == analyzer
    ensures var analyzer := Split(name).1;
      || r == name || r == analyzer || r == NormalizedName([], analyzer)
      || r == NormalizedName(dbs.active, analyzer) || r == NormalizedName(dbs.system, analyzer)
  {
    SplitCases(name);
    if isStatic(name) then name
    else
      var (prefix, suffix) := Split(name);
      if expand then
        if prefix.None? then NormalizedName(dbs.active, suffix)
        else if prefix.value == [] then NormalizedName(dbs.system, suffix)
        else name
      else if dbs.sameVocbase || prefix.None? || prefix.value == dbs.active then suffix
      else if prefix.value == [] || prefix.value == dbs.system then NormalizedName([], suffix)
      else name
  }

  /** A database name that normalized names can be split back into. */
  predicate GoodVocbaseName(d: string)
  {
    d != [] && NoDelim(d) && d[|d| - 1] != DELIM
  }

  /**
   * With expansion every non-static name comes out prefixed: by the active
   * database for an unprefixed name, by the system database for an empty
   * prefix, by its own prefix otherwise, and always with the same analyzer
   * part.
   */
  lemma NormalizeExpanded(name: string, isStatic: string -> bool, dbs: Vocbases)
    requires !isStatic(name) && GoodVocbaseName(dbs.active) && GoodVocbaseName(dbs.system)
    ensures var r := Normalize(name, isStatic, dbs, true);
      && Split(r).0.Some? && Split(r).0.value != []
      && Split(r).1 == Split(name).1
      && (Split(name).0.None? ==> Split(r).0 == Some(dbs.active))
      && (Split(name).0 == Some([]) ==> Split(r).0 == Some(dbs.system))
      && (Split(name).0.Some? && Split(name).0.value != [] ==> r == name)
  {
    var (prefix, suffix) := Split(name);
    if prefix.None? {
      SplitNormalized(dbs.active, suffix);
    } else if prefix.value == [] {
      SplitNormalized(dbs.system, suffix);
    }
  }

  /** Normalizing with expansion twice is normalizing once. */
  lemma NormalizeIdempotent(name: string, isStatic: string -> bool, dbs: Vocbases)
    requires GoodVocbaseName(dbs.active) && GoodVocbaseName(dbs.system)
    requires !isStatic(Normalize(name, isStatic, dbs, true))
    ensures var r := Normalize(name, isStatic, dbs, true);
      Normalize(r, isStatic, dbs, true) == r
  {
    if !isStatic(name) {
      NormalizeExpanded(name, isStatic, dbs);
      NormalizeExpanded(Normalize(name, isStatic, dbs, true), isStatic, dbs);
    }
  }

  /** Without expansion a name in the active database loses its prefix. */
  lemma NormalizeCompactActive(analyzer: string, isStatic: string -> bool, dbs: Vocbases)
    requires GoodVocbaseName(dbs.active)
    requires !isStatic(NormalizedName(dbs.active, analyzer))
    ensures Normalize(NormalizedName(dbs.active, analyzer), isStatic, dbs, false) == analyzer
  {
    SplitNormalized(dbs.active, analyzer);
  }
}
