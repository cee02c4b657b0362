/**
 * The JSON form of the text analyzer's options: what `make_json` accepts
 * and what `make_json_config` writes.
 */
module TextConfig {
  import opened Wrappers
  import opened Bytes
  import opened Json
  import opened TextOptions
  import Stopwords

  /** An optional member: missing, present with a usable value, or present but unusable. */
  datatype Field<T> = Absent | Present(value: T) | Invalid
  {
    function Or(default: T): (r: T)
      ensures Present? ==> r == value
      ensures !Present? ==> r == default
    {
      if Present? then value else default
    }
  }

  /** The names of the case-conversion modes. */
  function CaseName(c: CaseConvert): (r: Bytes)
  {
    match c
    case Lower => Ascii("lower")
    case NoConvert => Ascii("none")
    case Upper => Ascii("upper")
  }

  function CaseOfName(s: Bytes): (r: Option<CaseConvert>)
    ensures r.Some? ==> CaseName(r.value) == s
  {
    if s == Ascii("lower") then Some(Lower)
    else if s == Ascii("none") then Some(NoConvert)
    else if s == Ascii("upper") then Some(Upper)
    else None
  }

  /** The three names are told apart, so every mode reads back from its name. */
  lemma CaseNameRoundTrip(c: CaseConvert)
    ensures CaseOfName(CaseName(c)) == Some(c)
  {
    assert Ascii("lower")[0] as int == 108;
    assert Ascii("none")[0] as int == 110;
    assert Ascii("upper")[0] as int == 117;
  }

  /** The strings of a JSON array as C strings, or None when one of its elements is not a string. */
  function StringsOf(items: seq<Json>): (r: Option<set<Bytes>>)
    decreases |items|
  {
    if |items| == 0 then Some({})
    else if !items[|items| - 1].JString? then None
    else
      var before := StringsOf(items[..|items| - 1]);
      if before.None? then None else Some(before.value + {CStr(items[|items| - 1].s)})
  }

  /**
   * An array reads as a set exactly when all its elements are strings, and
   * it holds those strings, each up to its first 0 byte.
   */
  lemma StringsOfMembers(items: seq<Json>)
    ensures StringsOf(items).Some? <==> forall k :: 0 <= k < |items| ==> items[k].JString?
    ensures StringsOf(items).Some? ==>
      forall w :: w in StringsOf(items).value <==>
        exists k :: 0 <= k < |items| && items[k].JString? && CStr(items[k].s) == w
  {
    StringsOfDefined(items);
    if StringsOf(items).Some? {
      forall w
        ensures w in StringsOf(items).value <==>
          exists k :: 0 <= k < |items| && items[k].JString? && CStr(items[k].s) == w
      {
        StringsOfHolds(items, w);
      }
    }
  }

  lemma {:induction false} StringsOfDefined(items: seq<Json>)
    ensures StringsOf(items).Some? <==> forall k :: 0 <= k < |items| ==> items[k].JString?
    decreases |items|
  {
    if |items| > 0 {
      var init := items[..|items| - 1];
      StringsOfDefined(init);
      assert forall k :: 0 <= k < |init| ==> init[k] == items[k];
    }
  }

  lemma {:induction false} StringsOfHolds(items: seq<Json>, w: Bytes)
    requires StringsOf(items).Some?
    ensures w in StringsOf(items).value <==>
      exists k :: 0 <= k < |items| && items[k].JString? && CStr(items[k].s) == w
    decreases |items|
  {
    if |items| > 0 {
      var init := items[..|items| - 1];
      var last := items[|items| - 1];
      assert StringsOf(items).value == StringsOf(init).value + {CStr(last.s)};
      StringsOfHolds(init, w);
      if w in StringsOf(init).value {
        var k :| 0 <= k < |init| && init[k].JString? && CStr(init[k].s) == w;
        assert items[k] == init[k];
      } else if w == CStr(last.s) {
        assert items[|items| - 1] == last;
      } else {
        forall k | 0 <= k < |items| && items[k].JString?
          ensures CStr(items[k].s) != w
        {
          if k < |init| {
            assert items[k] == init[k];
          }
        }
      }
    }
  }

  function CaseField(j: Json): (r: Field<CaseConvert>)
    requires j.JObject?
    ensures r.Absent? <==> "caseConvert" !in j.members
    ensures r.Present? <==>
      "caseConvert" in j.members && j.members["caseConvert"].JString?
      && CaseOfName(CStr(j.members["caseConvert"].s)).Some?
    ensures r.Present? ==> r.value == CaseOfName(CStr(j.members["caseConvert"].s)).value
  {
    if "caseConvert" !in j.members then Absent
    else
      match j.members["caseConvert"]
      case JString(s) => if CaseOfName(CStr(s)).Some? then Present(CaseOfName(CStr(s)).value) else Invalid
      case _ => Invalid
  }

  function StopwordsField(j: Json): (r: Field<set<Bytes>>)
    requires j.JObject?
    ensures r.Absent? <==> "stopwords" !in j.members
    ensures r.Present? <==>
      "stopwords" in j.members && j.members["stopwords"].JArray?
      && StringsOf(j.members["stopwords"].items).Some?
    ensures r.Present? ==> r.value == StringsOf(j.members["stopwords"].items).value
  {
    if "stopwords" !in j.members then Absent
    else
      match j.members["stopwords"]
      case JArray(items) => if StringsOf(items).Some? then Present(StringsOf(items).value) else Invalid
      case _ => Invalid
  }

  function StringField(j: Json, key: string): (r: Field<Bytes>)
    requires j.JObject?
    ensures r.Absent? <==> key !in j.members
    ensures r.Present? <==> key in j.members && j.members[key].JString?
    ensures r.Present? ==> r.value == CStr(j.members[key].s)
  {
    if key !in j.members then Absent
    else if j.members[key].JString? then Present(CStr(j.members[key].s))
    else Invalid
  }

  function BoolField(j: Json, key: string): (r: Field<bool>)
    requires j.JObject?
    ensures r.Absent? <==> key !in j.members
    ensures r.Present? <==> key in j.members && j.members[key].JBool?
    ensures r.Present? ==> j.members[key] == JBool(r.value)
  {
    if key !in j.members then Absent
    else if j.members[key].JBool? then Present(j.members[key].b)
    else Invalid
  }

  /**
   * The options of an object argument of `make_json`: `locale` is a required
   * string; every other member is optional, and a member of the wrong kind
   * (or an unknown case name, or a non-string stopword) rejects the whole
   * object. A `stopwords` member, even an empty array, marks the list as
   * explicit.
   */
  function ParseOptions(j: Json): (r: Option<Options>)
    ensures r.Some? <==>
      && j.JObject? && StringMember(j, "locale").Some?
      && !CaseField(j).Invalid? && !StopwordsField(j).Invalid?
      && !StringField(j, "stopwordsPath").Invalid?
      && !BoolField(j, "noAccent").Invalid? && !BoolField(j, "noStem").Invalid?
    ensures r.Some? ==> (
      && r.value.locale == CStrMember(j, "locale").value
      && r.value.caseConvert == CaseField(j).Or(Lower)
      && r.value.explicitStopwords == StopwordsField(j).Or({})
      && (r.value.explicitStopwordsSet <==> "stopwords" in j.members)
      && r.value.noAccent == BoolField(j, "noAccent").Or(true)
      && r.value.noStem == BoolField(j, "noStem").Or(false)
      && r.value.stopwordsPath == FromRaw(StringField(j, "stopwordsPath").Or(UNSET_PATH))
      && r.value.stopwordsPath.WellFormed()
      && (r.value.stopwordsPath.Explicit? <==> "stopwordsPath" in j.members))
  {
    if !j.JObject? || StringMember(j, "locale").None? then None
    else
      var caseConvert := CaseField(j);
      var stopwords := StopwordsField(j);
      var path := StringField(j, "stopwordsPath");
      var noAccent := BoolField(j, "noAccent");
      var noStem := BoolField(j, "noStem");
      if caseConvert.Invalid? || stopwords.Invalid? || path.Invalid? || noAccent.Invalid? || noStem.Invalid? then
        None
      else
        Some(Options(caseConvert.Or(Lower), stopwords.Or({}), stopwords.Present?,
          CStrMember(j, "locale").value, noAccent.Or(true), noStem.Or(false),
          FromRaw(path.Or(UNSET_PATH))))
  }

  /** The elements of a set, in some order and without repetition. */
  ghost function SetToSeq(s: set<Bytes>): (r: seq<Bytes>)
    ensures |r| == |s|
    ensures forall w :: w in r <==> w in s
    decreases |s|
  {
    if s == {} then []
    else
      var w :| w in s;
      [w] + SetToSeq(s - {w})
  }

  /** The JSON strings of a sequence of words. */
  function JStrings(ws: seq<Bytes>): (r: seq<Json>)
    ensures |r| == |ws| && forall k :: 0 <= k < |ws| ==> r[k] == JString(ws[k])
  {
    seq(|ws|, k requires 0 <= k < |ws| => JString(ws[k]))
  }

  /**
   * `make_json_config`: the locale, the case name, the stopwords when the
   * list is explicit or not empty (in the set's iteration order), the two
   * flags, and the path unless it is the sentinel.
   */
  ghost function WriteOptions(o: Options): (r: Json)
    ensures r.JObject?
    ensures r.members.Keys == {"locale", "caseConvert", "noAccent", "noStem"}
      + (if o.explicitStopwords != {} || o.explicitStopwordsSet then {"stopwords"} else {})
      + (if o.stopwordsPath.Explicit? then {"stopwordsPath"} else {})
  {
    WrittenKeys(o);
    JObject(RequiredMembers(o) + OptionalMembers(o))
  }

  lemma WrittenKeys(o: Options)
    ensures (RequiredMembers(o) + OptionalMembers(o)).Keys == {"locale", "caseConvert", "noAccent", "noStem"}
      + (if o.explicitStopwords != {} || o.explicitStopwordsSet then {"stopwords"} else {})
      + (if o.stopwordsPath.Explicit? then {"stopwordsPath"} else {})
  {
    var required := RequiredMembers(o).Keys;
    var optional := OptionalMembers(o).Keys;
    RequiredKeys(o);
    OptionalKeys(o);
    assert (RequiredMembers(o) + OptionalMembers(o)).Keys == required + optional;
  }

  lemma RequiredKeys(o: Options)
    ensures RequiredMembers(o).Keys == {"locale", "caseConvert", "noAccent", "noStem"}
  {
  }

  lemma OptionalKeys(o: Options)
    ensures OptionalMembers(o).Keys
      == (if o.explicitStopwords != {} || o.explicitStopwordsSet then {"stopwords"} else {})
      + (if o.stopwordsPath.Explicit? then {"stopwordsPath"} else {})
  {
    var a: map<string, Json> := if o.explicitStopwords != {} || o.explicitStopwordsSet
      then map["stopwords" := JArray(JStrings(SetToSeq(o.explicitStopwords)))] else map[];
    var b: map<string, Json> := if o.stopwordsPath.Explicit? then map["stopwordsPath" := JString(o.stopwordsPath.path)] else map[];
    assert OptionalMembers(o) == a + b;
    assert (a + b).Keys == a.Keys + b.Keys;
  }

  /** The members written for every options record. */
  function RequiredMembers(o: Options): map<string, Json>
  {
    map[
      "locale" := JString(o.locale),
      "caseConvert" := JString(CaseName(o.caseConvert)),
      "noAccent" := JBool(o.noAccent),
      "noStem" := JBool(o.noStem)]
  }

  /** The stopword list and the path, each written only when it is set. */
  ghost function OptionalMembers(o: Options): (r: map<string, Json>)
    ensures r.Keys <= {"stopwords", "stopwordsPath"}
  {
    (if o.explicitStopwords != {} || o.explicitStopwordsSet
     then map["stopwords" := JArray(JStrings(SetToSeq(o.explicitStopwords)))] else map[])
    + (if o.stopwordsPath.Explicit? then map["stopwordsPath" := JString(o.stopwordsPath.path)] else map[])
  }

  /** The options the written JSON stands for: a non-empty list is always explicit. */
  function Normalize(o: Options): (r: Options)
    ensures r.explicitStopwordsSet <==> o.explicitStopwordsSet || o.explicitStopwords != {}
    ensures r.(explicitStopwordsSet := o.explicitStopwordsSet) == o
  {
    o.(explicitStopwordsSet := o.explicitStopwordsSet || o.explicitStopwords != {})
  }

  /** Every word cut at its first 0 byte. */
  function CutWords(s: set<Bytes>): (r: set<Bytes>)
    ensures forall w :: w in r <==> exists v :: v in s && CStr(v) == w
    ensures (forall v :: v in s ==> (0 as byte) !in v) ==> r == s
  {
    set v | v in s :: CStr(v)
  }

  /** An array of strings reads back as the set of those strings, each up to its first 0 byte. */
  lemma {:induction false} StringsOfJStrings(ws: seq<Bytes>)
    ensures StringsOf(JStrings(ws)) == Some(CutWords(set w | w in ws))
    decreases |ws|
  {
    if |ws| > 0 {
      var init := ws[..|ws| - 1];
      var last := ws[|ws| - 1];
      assert ws == init + [last];
      var items := JStrings(ws);
      assert items[..|ws| - 1] == JStrings(init);
      assert items[|ws| - 1] == JString(last);
      StringsOfJStrings(init);
      assert StringsOf(items) == Some(CutWords(set w | w in init) + {CStr(last)});
      SetOfSnoc(init, last);
      CutWordsAdd((set w | w in init), last);
    } else {
      assert (set w | w in ws) == {};
    }
  }

  lemma SetOfSnoc(ws: seq<Bytes>, last: Bytes)
    ensures (set w | w in ws + [last]) == (set w | w in ws) + {last}
  {
    assert forall w :: w in ws + [last] <==> w in ws || w == last;
  }

  lemma CutWordsAdd(s: set<Bytes>, w: Bytes)
    ensures CutWords(s + {w}) == CutWords(s) + {CStr(w)}
  {
    forall v | v in CutWords(s + {w})
      ensures v in CutWords(s) + {CStr(w)}
    {
      var u :| u in s + {w} && CStr(u) == v;
      if u != w {
        assert u in s;
      }
    }
  }

  /** A written stopword set reads back as the same set, each word up to its first 0 byte. */
  lemma StopwordListRoundTrip(s: set<Bytes>)
    ensures StringsOf(JStrings(SetToSeq(s))) == Some(CutWords(s))
  {
    StringsOfJStrings(SetToSeq(s));
    assert (set w | w in SetToSeq(s)) == s;
  }

  /** The members the written object always has. */
  lemma WrittenRequiredMembers(o: Options)
    ensures var m := WriteOptions(o).members;
      && "locale" in m && m["locale"] == JString(o.locale)
      && "caseConvert" in m && m["caseConvert"] == JString(CaseName(o.caseConvert))
      && "noAccent" in m && m["noAccent"] == JBool(o.noAccent)
      && "noStem" in m && m["noStem"] == JBool(o.noStem)
  {
    var opt := OptionalMembers(o);
    assert "locale" !in opt && "caseConvert" !in opt && "noAccent" !in opt && "noStem" !in opt;
  }

  /** The members the written object has only for some options. */
  lemma WrittenOptionalMembers(o: Options)
    ensures var m := WriteOptions(o).members;
      && ("stopwords" in m <==> o.explicitStopwords != {} || o.explicitStopwordsSet)
      && ("stopwords" in m ==> m["stopwords"] == JArray(JStrings(SetToSeq(o.explicitStopwords))))
      && ("stopwordsPath" in m <==> o.stopwordsPath.Explicit?)
      && ("stopwordsPath" in m ==> m["stopwordsPath"] == JString(o.stopwordsPath.path))
  {
    OptionalMembersShape(o);
    var req := RequiredMembers(o);
    assert |"stopwords"| == 9 && |"stopwordsPath"| == 13 && |"caseConvert"| == 11 && |"noAccent"| == 8;
    assert |"locale"| == 6 && |"noStem"| == 6;
    assert "stopwords" !in req && "stopwordsPath" !in req;
  }

  lemma OptionalMembersShape(o: Options)
    ensures var opt := OptionalMembers(o);
      && ("stopwords" in opt <==> o.explicitStopwords != {} || o.explicitStopwordsSet)
      && ("stopwords" in opt ==> opt["stopwords"] == JArray(JStrings(SetToSeq(o.explicitStopwords))))
      && ("stopwordsPath" in opt <==> o.stopwordsPath.Explicit?)
      && ("stopwordsPath" in opt ==> opt["stopwordsPath"] == JString(o.stopwordsPath.path))
  {
    var a: map<string, Json> := if o.explicitStopwords != {} || o.explicitStopwordsSet
      then map["stopwords" := JArray(JStrings(SetToSeq(o.explicitStopwords)))] else map[];
    var b: map<string, Json> := if o.stopwordsPath.Explicit? then map["stopwordsPath" := JString(o.stopwordsPath.path)] else map[];
    assert |"stopwords"| == 9 && |"stopwordsPath"| == 13;
    assert "stopwords" !in b && "stopwordsPath" !in a;
    assert OptionalMembers(o) == a + b;
  }

  /** Each member of the written object reads back as the option it came from. */
  lemma WrittenFields(o: Options)
    ensures var j := WriteOptions(o);
      && CStrMember(j, "locale") == Some(CStr(o.locale))
      && CaseField(j) == Present(o.caseConvert)
      && StopwordsField(j) == (if o.explicitStopwords != {} || o.explicitStopwordsSet
                               then Present(CutWords(o.explicitStopwords)) else Absent)
      && BoolField(j, "noAccent") == Present(o.noAccent)
      && BoolField(j, "noStem") == Present(o.noStem)
      && StringField(j, "stopwordsPath") == (if o.stopwordsPath.Explicit? then Present(CStr(o.stopwordsPath.path)) else Absent)
  {
    WrittenRequiredFields(o);
    WrittenOptionalFields(o);
  }

  lemma WrittenRequiredFields(o: Options)
    ensures var j := WriteOptions(o);
      && CStrMember(j, "locale") == Some(CStr(o.locale))
      && CaseField(j) == Present(o.caseConvert)
      && BoolField(j, "noAccent") == Present(o.noAccent)
      && BoolField(j, "noStem") == Present(o.noStem)
  {
    WrittenRequiredMembers(o);
    CaseNameRoundTrip(o.caseConvert);
    CaseNameNulFree(o.caseConvert);
  }

  lemma WrittenOptionalFields(o: Options)
    ensures var j := WriteOptions(o);
      && StopwordsField(j) == (if o.explicitStopwords != {} || o.explicitStopwordsSet
                               then Present(CutWords(o.explicitStopwords)) else Absent)
      && StringField(j, "stopwordsPath") == (if o.stopwordsPath.Explicit? then Present(CStr(o.stopwordsPath.path)) else Absent)
  {
    WrittenOptionalMembers(o);
    StopwordListRoundTrip(o.explicitStopwords);
  }

  /** The case names hold no 0 byte, so they survive being read as C strings. */
  lemma CaseNameNulFree(c: CaseConvert)
    ensures CStr(CaseName(c)) == CaseName(c)
  {
    var n := CaseName(c);
    assert forall k :: 0 <= k < |n| ==> n[k] != 0 by {
      assert Ascii("lower") == [108, 111, 119, 101, 114];
      assert Ascii("none") == [110, 111, 110, 101];
      assert Ascii("upper") == [117, 112, 112, 101, 114];
    }
  }

  /** No string of the options holds a 0 byte. */
  predicate NulFree(o: Options)
  {
    && 0 !in o.locale
    && (forall w :: w in o.explicitStopwords ==> (0 as byte) !in w)
    && (o.stopwordsPath.Explicit? ==> 0 !in o.stopwordsPath.path)
  }

  /** The options as they read back through C strings: each string up to its first 0 byte. */
  function CutAtNul(o: Options): (r: Options)
    ensures r.locale == CStr(o.locale) && r.explicitStopwords == CutWords(o.explicitStopwords)
    ensures r.stopwordsPath.Unset? <==> o.stopwordsPath.Unset?
    ensures r.stopwordsPath.Explicit? ==> r.stopwordsPath.path == CStr(o.stopwordsPath.path)
    ensures r.(locale := o.locale, explicitStopwords := o.explicitStopwords, stopwordsPath := o.stopwordsPath) == o
    ensures NulFree(o) ==> r == o
  {
    o.(locale := CStr(o.locale), explicitStopwords := CutWords(o.explicitStopwords),
       stopwordsPath := if o.stopwordsPath.Explicit? then Explicit(CStr(o.stopwordsPath.path)) else Unset)
  }

  /**
   * Parsing the written configuration gives back the options, each string up
   * to its first 0 byte, so exactly the options when no string holds one.
   */
  lemma WriteParseRoundTrip(o: Options)
    ensures ParseOptions(WriteOptions(o)) == Some(CutAtNul(Normalize(o)))
    ensures NulFree(o) ==> ParseOptions(WriteOptions(o)) == Some(Normalize(o))
  {
    var j := WriteOptions(o);
    var p := CutAtNul(Normalize(o));
    WrittenFields(o);
    var r := ParseOptions(j);
    assert r.Some?;
    assert r.value.explicitStopwordsSet == p.explicitStopwordsSet by {
      WrittenOptionalMembers(o);
    }
    assert r.value.stopwordsPath == p.stopwordsPath by {
      if o.stopwordsPath.Explicit? {
        assert FromRaw(CStr(o.stopwordsPath.path)) == p.stopwordsPath;
      }
    }
    assert r.value.locale == p.locale && r.value.explicitStopwords == p.explicitStopwords;
    assert r.value.caseConvert == p.caseConvert && r.value.noAccent == p.noAccent && r.value.noStem == p.noStem;
    if NulFree(o) {
      assert NulFree(Normalize(o));
    }
  }

  /** Marking a non-empty list explicit changes nothing about which stopwords are built. */
  lemma NormalizeKeepsStopwords(o: Options, fs: Stopwords.FsEnv, language: Bytes -> Bytes)
    ensures Stopwords.BuildStopwords(Normalize(o), fs, language) == Stopwords.BuildStopwords(o, fs, language)
  {
  }
}
