/**
 * The options record of the text analyzer and the buffer-backed term
 * attribute it reports tokens through.
 */
module TextOptions {
  import opened Wrappers
  import opened Bytes

  datatype CaseConvert = Lower | NoConvert | Upper

  /**
   * `stopwordsPath`: a string whose first character is NUL means "no value
   * set"; any other string, the empty one included, is a path.
   */
  datatype PathSpec = Unset | Explicit(path: Bytes)
  {
    /** Only paths that do not start with NUL can be told apart from the sentinel. */
    predicate WellFormed()
    {
      Explicit? ==> (|path| == 0 || path[0] != 0)
    }
  }

  /** The one-character string holding NUL that the options start with. */
  const UNSET_PATH: Bytes := [0]

  /** How a stored path string reads. */
  function FromRaw(raw: Bytes): (r: PathSpec)
    ensures r.WellFormed()
    ensures r.Unset? <==> |raw| > 0 && raw[0] == 0
    ensures r.Explicit? ==> r.path == raw
  {
    if |raw| > 0 && raw[0] == 0 then Unset else Explicit(raw)
  }

  /** The string a path setting is stored as. */
  function ToRaw(p: PathSpec): (r: Bytes)
  {
    match p
    case Unset => UNSET_PATH
    case Explicit(s) => s
  }

  /** Storing and reading back a well-formed setting is the identity, and the sentinel reads as unset. */
  lemma PathRoundTrip(p: PathSpec)
    requires p.WellFormed()
    ensures FromRaw(ToRaw(p)) == p
    ensures FromRaw(UNSET_PATH) == Unset && ToRaw(Unset) == UNSET_PATH
  {
  }

  /** A stored string other than a NUL-prefixed non-sentinel survives reading and storing. */
  lemma RawRoundTrip(raw: Bytes)
    ensures ToRaw(FromRaw(raw)) == raw <==> !(|raw| > 0 && raw[0] == 0) || raw == UNSET_PATH
  {
    if |raw| > 0 && raw[0] == 0 && raw != UNSET_PATH {
      assert ToRaw(FromRaw(raw)) == UNSET_PATH;
    }
  }

  datatype Options = Options(
    caseConvert: CaseConvert,
    explicitStopwords: set<Bytes>,
    /** An explicit list was given, even an empty one: do not load the defaults. */
    explicitStopwordsSet: bool,
    locale: Bytes,
    noAccent: bool,
    noStem: bool,
    stopwordsPath: PathSpec)

  /** A default-constructed options record, with the locale filled in. */
  function Defaults(locale: Bytes): (r: Options)
    ensures r.caseConvert == Lower && r.noAccent && !r.noStem
    ensures !r.explicitStopwordsSet && r.explicitStopwords == {}
    ensures r.stopwordsPath == FromRaw(UNSET_PATH) && r.locale == locale
  {
    Options(Lower, {}, false, locale, true, false, Unset)
  }

  /**
   * The term attribute: either a reference to bytes held elsewhere (the
   * stemmer's output) or a copy held in its own buffer. None is NIL.
   */
  class BytesTerm {
    var buf: Bytes
    var value: Option<Bytes>

    /** The value is the owned buffer's contents. */
    ghost predicate Owned()
      reads this
    {
      value == Some(buf)
    }

    constructor ()
      ensures buf == [] && value.None?
    {
      buf := [];
      value := None;
    }

    /** `clear`: empties the buffer and makes the value NIL. */
    method Clear()
      modifies this
      ensures buf == [] && value.None? && !Owned()
    {
      buf := [];
      value := None;
    }

    /** `value(bstring&&)`: takes the bytes into the buffer; the value then shows the buffer. */
    method ValueOwned(data: Bytes)
      modifies this
      ensures buf == data && value == Some(data) && Owned()
    {
      buf := data;
      value := Some(buf);
    }

    /** `value(bytes_ref)`: points the value elsewhere; the buffer is left as it was. */
    method ValueRef(data: Bytes)
      modifies this`value
      ensures value == Some(data) && buf == old(buf)
      ensures Owned() <==> data == buf
    {
      value := Some(data);
    }
  }
}
