# Token analyzers and coordinator helpers, modelled in Dafny

This project models the token-analysis layer of the iresearch search engine
that ships with ArangoDB, together with the purely computational helpers
around it, and proves properties of that model.

- **Token streams.** Each analyzer is a class that is `reset` with an input
  and then drained with `next`:
  - the delimiter analyzer (`DelimitedTokenStream`): quote-aware delimiter
    search, quoted-literal decoding, uint32 offsets with their wrap-around
    bootstrap;
  - the n-gram analyzer (`NgramTokenStream`): every slice whose length lies
    between the minimum and the maximum, longest first per start position,
    then optionally the whole input;
  - the single-token stemming analyzer (`StemmingTokenStream`);
  - the identity analyzer (`AnalyzerFeature.IdentityAnalyzer`);
  - the locale text analyzer, split into its options record and term buffer
    (`TextOptions`), stopwords (`Stopwords`), JSON options (`TextConfig`),
    the configuration cache (`TextCache`) and the stream itself
    (`TextTokenStream`).
- **`dynamic_bitset`** (`Bitset`): index arithmetic over an array of 64-bit
  words, modifying the words in place.
- **Analyzer registry helpers**: the `vocbase::name` naming scheme
  (`AnalyzerNames`), and the analyzer pool, its packed configuration buffer
  and the insertion and removal rules of the analyzer map
  (`AnalyzerFeature`).
- **Cluster coordinator helpers** (`ClusterHelpers`):
  - round-robin shard placement;
  - scattering documents onto shards and merging the answers back;
  - the NOT_FOUND merge across shards;
  - communication-status errors;
  - header filtering;
  - shard-key change detection.
- **Support modules**: `Wrappers` (Option), `Bytes` (bytes and fixed-width
  limits), `Json` (an abstract JSON/VelocyPack value), `ErrorCodes` and
  `Decimal` (`itoa`).

ICU, Snowball, the encoding converter, the filesystem and the environment are
not implemented. They are passed in as function-typed fields of environment
values (`TextEnv`, `StemEnv`, `FsEnv`). The word segmenter of the text
analyzer is such a function: it returns the boundary list that ICU's break
iterator would walk.

Where the code and the description of the system differ, the model follows
the code:

- **Delimiter analyzer, empty delimiter.** An empty but non-null delimiter
  splits the input between every byte. `find_delimiter` matches the empty
  delimiter at every position after the first. Only a null delimiter yields
  the whole input as one token.
- **Text analyzer, JSON-object configuration.** `make_json` builds the
  stopword set, reading stopword files, on every call, before it looks up
  the cache. Only the bare-locale path looks the key up first.
- **Text analyzer, bare-string configuration.** The raw argument text,
  quotes included, is both the cache key and the locale name.
- **Stemming analyzer.** The stemmer is not created only once. `reset`
  retries creating it every time while the previous attempt returned null.
- **N-gram analyzer.** `reset` does not set the position increment back to
  1. After the original has been emitted with increment 0, the n-grams of
  the next input keep increment 0. The model keeps this behaviour.

## Model

| member | source | states |
|---|---|---|
| DelimitedTokenStream.FirstDelimiterFrom | 3rdParty/iresearch/core/analysis/delimited_token_stream.cpp:72-95 | the result is the first position at or after `k` that is outside quotes, holds the delimiter and is not an empty match at 0; `|d|` when there is none |
| DelimitedTokenStream.DelimiterPosition | 3rdParty/iresearch/core/analysis/delimited_token_stream.cpp:65-96 | the token end is at most `|d|`, is `|d|` for a null delimiter, is an unquoted delimiter match when below `|d|`, and no earlier position is one |
| DelimitedTokenStream.NoRoomNoDelimiter | 3rdParty/iresearch/core/analysis/delimited_token_stream.cpp:81-83 | once fewer bytes remain than the delimiter is long, no delimiter is found later |
| DelimitedTokenStream.FindDelimiter | 3rdParty/iresearch/core/analysis/delimited_token_stream.cpp:65-96 | the single pass with the `quoted` flag returns exactly `DelimiterPosition` |
| DelimitedTokenStream.DecodedTerm | 3rdParty/iresearch/core/analysis/delimited_token_stream.cpp:32-35 | an input that is empty or does not start with `"` is its own term |
| DelimitedTokenStream.DecodeQuote | 3rdParty/iresearch/core/analysis/delimited_token_stream.cpp:32-63 | the quoted literal of any bytes is well formed and decodes back to those bytes |
| DelimitedTokenStream.DecodedTermShape | 3rdParty/iresearch/core/analysis/delimited_token_stream.cpp:32-63 | a term either decodes to itself or is exactly the quoted literal of its decoding |
| DelimitedTokenStream.EscapeUnescape | 3rdParty/iresearch/core/analysis/delimited_token_stream.cpp:43-59 | re-escaping a well-formed literal body gives the body back |
| DelimitedTokenStream.WellEscapedAppend | 3rdParty/iresearch/core/analysis/delimited_token_stream.cpp:42-60 | after a well-formed prefix, the whole body is well formed iff the rest is, and decoding distributes over the split |
| DelimitedTokenStream.BrokenPair | 3rdParty/iresearch/core/analysis/delimited_token_stream.cpp:50-54 | a closing quote followed by a non-quote inside the body makes the literal ill formed |
| DelimitedTokenStream.BrokenLast | 3rdParty/iresearch/core/analysis/delimited_token_stream.cpp:62 | a body that ends in a lone quote makes the literal ill formed |
| DelimitedTokenStream.EvalTerm | 3rdParty/iresearch/core/analysis/delimited_token_stream.cpp:32-63 | the returned term is `DecodedTerm(data)`; an unquoted input leaves the buffer alone and a decoded literal is left in the buffer |
| DelimitedTokenStream.Rest | 3rdParty/iresearch/core/analysis/delimited_token_stream.cpp:225-244 | the remaining input is NIL once the token reaches the end, else strictly shorter by `max(1, size + |delim|)` |
| DelimitedTokenStream.JoinPayloads | 3rdParty/iresearch/core/analysis/delimited_token_stream.cpp:219-247 | the payloads of a stream, joined with the delimiter, give back its input |
| DelimitedTokenStream.MakeJson | 3rdParty/iresearch/core/analysis/delimited_token_stream.cpp:104-134 | a bare string is the delimiter; an object yields its string `delimiter` member or nothing; any other value or a parse error yields no analyzer; the delimiter is the string read through `GetString()`, so it ends before its first 0 byte |
| DelimitedTokenStream.JsonConfigRoundTrip | 3rdParty/iresearch/core/analysis/delimited_token_stream.cpp:104-163 | the JSON configuration written for a delimiter reads back as that delimiter cut at its first 0 byte, so exactly as the same delimiter when it holds no 0 byte |
| DelimitedTokenStream.WriteJsonConfig | 3rdParty/iresearch/core/analysis/delimited_token_stream.cpp:141-163 | the written configuration is an object whose only member is `delimiter`, holding the delimiter |
| DelimitedTokenStream.DelimitedStream.constructor | 3rdParty/iresearch/core/analysis/delimited_token_stream.cpp:193-206 | a new stream keeps the delimiter and has no input |
| DelimitedTokenStream.DelimitedStream.Reset | 3rdParty/iresearch/core/analysis/delimited_token_stream.cpp:249-255 | always succeeds, sets the input and start 0, and sets end to `0 - |delim|` mod 2^32 so that end + `|delim|` wraps to 0 |
| DelimitedTokenStream.DelimitedStream.Next | 3rdParty/iresearch/core/analysis/delimited_token_stream.cpp:219-247 | false on NIL input or when the end offset would pass the uint32 maximum, with nothing changed; otherwise offsets start at previous end + `|delim|` and span the payload, the term is the payload or its decoding, and the rest is `Rest`, so the payloads emitted are `Payloads` in order |
| DelimitedTokenStream.SplitsAtComma | 3rdParty/iresearch/core/analysis/delimited_token_stream.cpp:219-247 | "a,b,c" split at "," yields "a", "b", "c" |
| NgramTokenStream.Clamp | 3rdParty/iresearch/core/analysis/ngram_token_stream.cpp:193-194 | the adjusted options satisfy 1 <= min <= max, with min raised to 1 and max raised to min, and options that already satisfy this are kept |
| NgramTokenStream.GramsAtIndex | 3rdParty/iresearch/core/analysis/ngram_token_stream.cpp:223-237 | at one start position the k-th n-gram has length `len - k`, so lengths run down from `len` to min |
| NgramTokenStream.GramsFromBounded | 3rdParty/iresearch/core/analysis/ngram_token_stream.cpp:223-237 | every n-gram is a slice inside the input with a length between min and max |
| NgramTokenStream.GramsFromComplete | 3rdParty/iresearch/core/analysis/ngram_token_stream.cpp:203-237 | every slice with a length between min and max is among the n-grams |
| NgramTokenStream.AllGramsExactly | 3rdParty/iresearch/core/analysis/ngram_token_stream.cpp:203-237 | an emission is an n-gram of the input iff it is a slice of it with a length between min and max |
| NgramTokenStream.ThreeBytesOneToTwo | 3rdParty/iresearch/core/analysis/ngram_token_stream.cpp:203-237 | a 3-byte input with min 1 and max 2 yields (0,2), (0,1), (1,2), (1,1), (2,1) |
| NgramTokenStream.NewStartPosition | 3rdParty/iresearch/core/analysis/ngram_token_stream.cpp:223-230 | moving to the next start position wraps or bumps the start offset to that position, picks min(max, remaining) as the length and keeps what is pending |
| NgramTokenStream.SameStartPosition | 3rdParty/iresearch/core/analysis/ngram_token_stream.cpp:233-237 | emitting at the current position takes the n-gram of the current length off the head of what is pending |
| NgramTokenStream.NoMoreGrams | 3rdParty/iresearch/core/analysis/ngram_token_stream.cpp:206-222 | once fewer than min bytes remain, only the original (if due) is pending |
| NgramTokenStream.NgramStream.constructor | 3rdParty/iresearch/core/analysis/ngram_token_stream.cpp:189-199 | a new stream has the clamped options and nothing pending |
| NgramTokenStream.NgramStream.Reset | 3rdParty/iresearch/core/analysis/ngram_token_stream.cpp:242-263 | refuses inputs longer than the uint32 maximum with nothing changed; otherwise the cursor is before byte 0 with length 0, offsets are the uint32 maximum, the original is due iff longer than max and preserved, and what is pending is all n-grams then the original if due |
| NgramTokenStream.NgramStream.Next | 3rdParty/iresearch/core/analysis/ngram_token_stream.cpp:202-240 | returns true iff something is pending; then the term and offsets show the first pending emission and it is removed; false leaves term and offsets alone |
| NgramTokenStream.NgramStream.EmitOriginal | 3rdParty/iresearch/core/analysis/ngram_token_stream.cpp:206-222 | past the last start position the original is emitted once, with offsets [0, size) and increment 0, and then nothing is pending |
| NgramTokenStream.NgramStream.NextStartPosition | 3rdParty/iresearch/core/analysis/ngram_token_stream.cpp:223-230 | advancing the start position keeps what is pending and leaves a length of at least min |
| NgramTokenStream.NgramStream.EmitCurrent | 3rdParty/iresearch/core/analysis/ngram_token_stream.cpp:233-239 | reports `data[begin..begin+length]` with end = start + length and takes it off what is pending |
| NgramTokenStream.Uint64Member | 3rdParty/iresearch/core/analysis/ngram_token_stream.cpp:32-49 | present iff the member exists and is a number; the value is below 2^64 and equals the number when it is in range |
| NgramTokenStream.BoolMember | 3rdParty/iresearch/core/analysis/ngram_token_stream.cpp:51-68 | present iff the member exists and is a boolean, and then it is that boolean |
| NgramTokenStream.ParseOptions | 3rdParty/iresearch/core/analysis/ngram_token_stream.cpp:80-133 | options are made iff the input is an object with numeric `min` and `max` and boolean `preserveOriginal`, and then they are those values |
| NgramTokenStream.OptionsRoundTrip | 3rdParty/iresearch/core/analysis/ngram_token_stream.cpp:80-170 | the written options parse back to themselves, and clamping twice is clamping once |
| NgramTokenStream.WriteOptions | 3rdParty/iresearch/core/analysis/ngram_token_stream.cpp:138-170 | the written configuration is an object with exactly `min`, `max` and `preserveOriginal`, holding the two sizes and the flag |
| StemmingTokenStream.TruncateToInt | 3rdParty/iresearch/core/analysis/text_token_stemming_stream.cpp:212-218 | the buffer is cut to a prefix of INT_MAX bytes when longer and kept otherwise |
| StemmingTokenStream.StemmedTermCases | 3rdParty/iresearch/core/analysis/text_token_stemming_stream.cpp:211-242 | the term is the stemmer's output when a stemmer exists and yields one, else the encoded input (cut to INT_MAX bytes only when a stemmer was asked) |
| StemmingTokenStream.StemmingStream.constructor | 3rdParty/iresearch/core/analysis/text_token_stemming_stream.cpp:145-155 | a new stream has no stemmer, no term and nothing pending |
| StemmingTokenStream.StemmingStream.Next | 3rdParty/iresearch/core/analysis/text_token_stemming_stream.cpp:168-176 | true iff a token was pending, and afterwards none is |
| StemmingTokenStream.StemmingStream.Reset | 3rdParty/iresearch/core/analysis/text_token_stemming_stream.cpp:178-243 | the stemmer is created only while missing; the result is true iff the input converts; a failure leaves no term and nothing pending; a success leaves one token pending with offsets [0, size), the raw input as payload and the stemmed term |
| StemmingTokenStream.ResetThenDrain | 3rdParty/iresearch/core/analysis/text_token_stemming_stream.cpp:168-206 | after a successful `reset` `next` is true once and then false; after a failed one it is false |
| StemmingTokenStream.MakeJson | 3rdParty/iresearch/core/analysis/text_token_stemming_stream.cpp:40-80 | a bare string is the locale; an object yields its string `locale` member or nothing; any other value or a parse error yields no analyzer; the locale name ends before the string's first 0 byte |
| StemmingTokenStream.JsonConfigRoundTrip | 3rdParty/iresearch/core/analysis/text_token_stemming_stream.cpp:40-106 | the written configuration reads back as the locale's canonical name cut at its first 0 byte, so as that name itself when it holds no 0 byte |
| StemmingTokenStream.WriteJsonConfig | 3rdParty/iresearch/core/analysis/text_token_stemming_stream.cpp:87-106 | the written configuration is an object whose only member is `locale`, holding the locale's canonical name |
| TextOptions.FromRaw | 3rdParty/iresearch/core/analysis/text_token_stream.hpp:48 | a stored path reads as unset iff it starts with NUL, and otherwise as that path |
| TextOptions.PathRoundTrip | 3rdParty/iresearch/core/analysis/text_token_stream.hpp:48 | storing and reading back a path setting gives it back, and the one-NUL default string is "unset" |
| TextOptions.RawRoundTrip | 3rdParty/iresearch/core/analysis/text_token_stream.hpp:48 | a stored string survives reading and storing iff it does not start with NUL or is exactly the sentinel |
| TextOptions.Defaults | 3rdParty/iresearch/core/analysis/text_token_stream.hpp:38-49 | the defaults are lower case, accents removed, stemming on, no explicit stopwords (flag unset) and the unset path |
| TextOptions.BytesTerm.constructor | 3rdParty/iresearch/core/analysis/text_token_stream.hpp:53-73 | a new term has an empty buffer and a NIL value |
| TextOptions.BytesTerm.Clear | 3rdParty/iresearch/core/analysis/text_token_stream.hpp:55-58 | empties the buffer and makes the value NIL |
| TextOptions.BytesTerm.ValueOwned | 3rdParty/iresearch/core/analysis/text_token_stream.hpp:62-65 | takes the bytes into the buffer, and the value then shows the buffer |
| TextOptions.BytesTerm.ValueRef | 3rdParty/iresearch/core/analysis/text_token_stream.hpp:67-69 | sets the value and leaves the buffer as it was |
| Stopwords.SpaceIndexFrom | 3rdParty/iresearch/core/analysis/text_token_stream.cpp:202-205 | the result is the first whitespace position at or after `i`, or the line's length |
| Stopwords.StopwordOfLine | 3rdParty/iresearch/core/analysis/text_token_stream.cpp:201-211 | a line contributes a word iff it is non-empty and does not start with whitespace; the word is the line's prefix up to its first whitespace |
| Stopwords.LineRuleExamples | 3rdParty/iresearch/core/analysis/text_token_stream.cpp:201-211 | "the  a" contributes "the"; " a" and the empty line contribute nothing |
| Stopwords.LinesWordsMembers | 3rdParty/iresearch/core/analysis/text_token_stream.cpp:201-211 | a word is among a file's words iff some line contributes it |
| Stopwords.EntriesWordsFails | 3rdParty/iresearch/core/analysis/text_token_stream.cpp:175-218 | loading fails iff some entry cannot be examined or opened; otherwise the words are exactly those of the files' lines, non-files skipped |
| Stopwords.StopwordRoot | 3rdParty/iresearch/core/analysis/text_token_stream.cpp:136-162 | the root is the given path, else the environment variable's value, else the working directory |
| Stopwords.CustomRoot | 3rdParty/iresearch/core/analysis/text_token_stream.cpp:143-158 | a path of unknown absoluteness fails; an absolute one is kept; a relative one is joined to the working directory |
| Stopwords.StopwordDirectory | 3rdParty/iresearch/core/analysis/text_token_stream.cpp:164-172 | the language directory is found iff the root and root/language are both directories |
| Stopwords.GivenPathIgnoresEnvironment | 3rdParty/iresearch/core/analysis/text_token_stream.cpp:138-141 | with a given path the environment variable does not matter |
| Stopwords.GetStopwords | 3rdParty/iresearch/core/analysis/text_token_stream.cpp:131-229 | succeeds iff the directory loads; on success the caller's set gains exactly the loaded words, on failure it is unchanged |
| Stopwords.ReadLines | 3rdParty/iresearch/core/analysis/text_token_stream.cpp:201-211 | the loop over a file's lines collects exactly the words of its lines |
| Stopwords.BuildStopwordsTable | 3rdParty/iresearch/core/analysis/text_token_stream.cpp:239-259 | explicit words are always kept; a set path decides success alone and adds its words; only an unset path with no explicit list (flag unset) loads the defaults; otherwise the explicit list is the result |
| Stopwords.PathNeverTriesDefaults | 3rdParty/iresearch/core/analysis/text_token_stream.cpp:246-251 | with a path the default location, and so the environment variable, is never consulted |
| Stopwords.DefaultsLoadDefaultLocation | 3rdParty/iresearch/core/analysis/text_token_stream.cpp:252-256 | default options load the default location's words and nothing else |
| Stopwords.BuildStopwords | 3rdParty/iresearch/core/analysis/text_token_stream.cpp:239-259 | the explicit words are always kept; it fails iff the stopword loading it runs fails: from the path when one is set, otherwise from the default location when the list is empty and not marked explicit; with no path and an explicit or non-empty list the result is that list |
| TextCache.Cache.constructor | 3rdParty/iresearch/core/analysis/text_token_stream.cpp:115 | the cache starts empty |
| TextCache.Cache.ConstructWith | 3rdParty/iresearch/core/analysis/text_token_stream.cpp:265-301 | the entry under the key is returned; it is stored only when the key had none, and an existing entry is kept unchanged |
| TextCache.Cache.ConstructFromKey | 3rdParty/iresearch/core/analysis/text_token_stream.cpp:306-343 | a cached key returns its entry; otherwise default options for the key's locale are stored with their built stopwords, or nothing is made when those fail to load |
| TextCache.Cache.MakeJson | 3rdParty/iresearch/core/analysis/text_token_stream.cpp:544-686 | a parse error or invalid options make nothing; a bare string takes the key path; an object's stopwords are built before the cache is consulted and the first entry stored under the argument text wins; the options are those `ParseOptions` reads, strings cut at their first 0 byte |
| TextCache.FirstInsertWins | 3rdParty/iresearch/core/analysis/text_token_stream.cpp:265-301 | constructing twice under a new key gives the first configuration both times |
| TextConfig.Field.Or | 3rdParty/iresearch/core/analysis/text_token_stream.cpp:572-667 | a present member gives its value, an absent one leaves the default of the options record |
| TextConfig.CaseOfName | 3rdParty/iresearch/core/analysis/text_token_stream.cpp:428-434 | a name that is recognised is the name of the mode it gives |
| TextConfig.CaseNameRoundTrip | 3rdParty/iresearch/core/analysis/text_token_stream.cpp:428-434 | every case mode reads back from the name written for it |
| TextConfig.StringsOfMembers | 3rdParty/iresearch/core/analysis/text_token_stream.cpp:609-619 | an array reads as a stopword set iff every element is a string, and then holds exactly those strings, each cut at its first 0 byte |
| TextConfig.CaseField | 3rdParty/iresearch/core/analysis/text_token_stream.cpp:576-596 | `caseConvert` is absent iff missing, usable iff a string whose text before its first 0 byte names a mode, and then that mode |
| TextConfig.StopwordsField | 3rdParty/iresearch/core/analysis/text_token_stream.cpp:599-619 | `stopwords` is absent iff missing, usable iff an array of strings, and then the set of those strings cut at their first 0 byte |
| TextConfig.StringField | 3rdParty/iresearch/core/analysis/text_token_stream.cpp:620-641 | a string member is absent iff missing and usable iff it is a string, and then its text before the first 0 byte |
| TextConfig.BoolField | 3rdParty/iresearch/core/analysis/text_token_stream.cpp:643-667 | a boolean member is absent iff missing and usable iff it is a boolean |
| TextConfig.ParseOptions | 3rdParty/iresearch/core/analysis/text_token_stream.cpp:559-667 | options are made iff the object has a string `locale` and no member of the wrong kind; each option is its member, strings cut at their first 0 byte, or its default; a `stopwords` member, even empty, sets the explicit flag, and the path is explicit iff `stopwordsPath` is present |
| TextConfig.JStrings | 3rdParty/iresearch/core/analysis/text_token_stream.cpp:485-490 | the array holds one JSON string per word, in order |
| TextConfig.Normalize | 3rdParty/iresearch/core/analysis/text_token_stream.cpp:483 | the flag is set iff it was set or the list is non-empty, and nothing else changes |
| TextConfig.CutWords | 3rdParty/iresearch/core/analysis/text_token_stream.cpp:618 | a word is in the result iff it is some word of the set cut at its first 0 byte; a set without 0 bytes is unchanged |
| TextConfig.CutAtNul | 3rdParty/iresearch/core/analysis/text_token_stream.cpp:574-641 | the locale, the stopwords and an explicit path are cut at their first 0 byte, every other option is kept, and options without 0 bytes are unchanged |
| TextConfig.WriteOptions | 3rdParty/iresearch/core/analysis/text_token_stream.cpp:441-534 | the written object has exactly `locale`, `caseConvert`, `noAccent` and `noStem`, plus `stopwords` iff the list is non-empty or explicit and `stopwordsPath` iff the path is explicit |
| TextConfig.StringsOfJStrings | 3rdParty/iresearch/core/analysis/text_token_stream.cpp:609-619 | an array of written words reads back as the set of those words, each cut at its first 0 byte |
| TextConfig.StopwordListRoundTrip | 3rdParty/iresearch/core/analysis/text_token_stream.cpp:441-534 | a written stopword set reads back as the same set with every word cut at its first 0 byte |
| TextConfig.WrittenRequiredMembers | 3rdParty/iresearch/core/analysis/text_token_stream.cpp:450-510 | the written object always has `locale`, `caseConvert`, `noAccent` and `noStem` with the options' values |
| TextConfig.WrittenOptionalMembers | 3rdParty/iresearch/core/analysis/text_token_stream.cpp:482-522 | `stopwords` is written iff the list is non-empty or explicit, and `stopwordsPath` iff the path is not the sentinel |
| TextConfig.WrittenFields | 3rdParty/iresearch/core/analysis/text_token_stream.cpp:441-530 | each member of the written object reads back as the option it came from |
| TextConfig.WriteParseRoundTrip | 3rdParty/iresearch/core/analysis/text_token_stream.cpp:441-667 | parsing the written configuration of any options gives them back with a non-empty list marked explicit and every string cut at its first 0 byte; options whose strings hold no 0 byte come back exactly |
| TextConfig.NormalizeKeepsStopwords | 3rdParty/iresearch/core/analysis/text_token_stream.cpp:239-259 | marking a non-empty list explicit changes nothing about the stopwords that are built |
| TextTokenStream.TermOfCases | 3rdParty/iresearch/core/analysis/text_token_stream.cpp:383-418 | a word is dropped iff its processed form is a stopword; otherwise the term is the stem when a stemmer exists and yields one, else the processed form |
| TextTokenStream.NormalizationFallback | 3rdParty/iresearch/core/analysis/text_token_stream.cpp:356-360 | a failed normalization acts as if the normalizer had returned the word unchanged |
| TextTokenStream.PlainPipeline | 3rdParty/iresearch/core/analysis/text_token_stream.cpp:353-386 | with no case conversion and no transliterator, a word is only normalized and encoded |
| TextTokenStream.Sub | 3rdParty/iresearch/core/analysis/text_token_stream.cpp:864 | `tempSubString(start, end - start)` is the slice between the boundaries when they lie inside the text, and never longer than it |
| TextTokenStream.NextToken | 3rdParty/iresearch/core/analysis/text_token_stream.cpp:856-873 | the result is the first segment from `k` on that yields a term, with every segment before it skipped, or the number of boundaries when none does |
| TextTokenStream.NextTokenStep | 3rdParty/iresearch/core/analysis/text_token_stream.cpp:863-866 | the search stops at a segment that yields a term and goes on past one that does not |
| TextTokenStream.NextTokenIsFirst | 3rdParty/iresearch/core/analysis/text_token_stream.cpp:852-874 | the token `next` reports is the first of the remaining tokens, and no token remains iff the search runs to the end |
| TextTokenStream.TokensAreWords | 3rdParty/iresearch/core/analysis/text_token_stream.cpp:856-870 | every token comes from a word segment, has the segment's boundary pair as offsets, and carries the pipeline's term of the segment's text |
| TextTokenStream.TextStream.constructor | 3rdParty/iresearch/core/analysis/text_token_stream.cpp:731-738 | a new analyzer keeps its options and stopwords and has no ICU objects, no text and no boundaries |
| TextTokenStream.TextStream.ProcessTerm | 3rdParty/iresearch/core/analysis/text_token_stream.cpp:345-419 | the scratch buffer holds the processed word; the result is false iff it is a stopword, leaving the term alone; otherwise the term is `TermOf` the word |
| TextTokenStream.TextStream.Step | 3rdParty/iresearch/core/analysis/text_token_stream.cpp:859-870 | one round of the loop moves past the current segment and reports a token exactly when the segment yields a term, setting the term and the segment's offsets |
| TextTokenStream.TextStream.Next | 3rdParty/iresearch/core/analysis/text_token_stream.cpp:852-874 | true iff a later segment yields a term; then the offsets are that segment's boundary pair and the term is its term; false runs to the end and leaves offsets and term alone |
| TextTokenStream.TextStream.Reset | 3rdParty/iresearch/core/analysis/text_token_stream.cpp:755-850 | each ICU object is created only while missing, in order, stopping at the first failure; a missing stemmer is no error; success needs a break iterator, a converted input and at most INT32_MAX bytes, and sets the text and its boundaries; failure leaves the previous text |
| TextTokenStream.TextStream.PrepareResources | 3rdParty/iresearch/core/analysis/text_token_stream.cpp:756-812 | creates the locale, normalizer, transliterator (only with `noAccent`) and break iterator while missing, stopping at the first failure, and succeeds iff a break iterator exists |
| TextTokenStream.Drain | 3rdParty/iresearch/core/analysis/text_token_stream.cpp:852-874 | calling `next` until it fails after a reset yields exactly `TokensFrom` the first boundary, in order |
| Bitset.BitInWord | 3rdParty/iresearch/core/utils/bitset.hpp:70-72 | `bit(i)` is below the word width |
| Bitset.IndexSplit | 3rdParty/iresearch/core/utils/bitset.hpp:70-82 | `bit_offset(word(i)) + bit(i) == i`, and bit i lies inside its word |
| Bitset.BitToWords | 3rdParty/iresearch/core/utils/bitset.hpp:213-218 | the words hold the bits with less than one word to spare (the ceiling of bits/64), and there are none exactly for no bits |
| Bitset.Flatten | 3rdParty/iresearch/core/utils/bitset.hpp:233-235 | a run of words holds 64 bits per word |
| Bitset.FlattenIndex | 3rdParty/iresearch/core/utils/bitset.hpp:165-179 | bit i of the run is bit `i % 64` of word `i / 64` |
| Bitset.UpdateBit | 3rdParty/iresearch/core/utils/bitset.hpp:165-175 | changing one bit of one word changes that bit of the run and no other |
| Bitset.ClearTop | 3rdParty/iresearch/core/utils/bitset.hpp:228-230 | masking the last word clears exactly the tail of the run |
| Bitset.FlattenZeros | 3rdParty/iresearch/core/utils/bitset.hpp:196-201 | zeroed words hold no set bit |
| Bitset.FlattenInjective | 3rdParty/iresearch/core/utils/bitset.hpp:128-134 | runs of the same number of words are equal only when their words are |
| Bitset.CountTrue | 3rdParty/iresearch/core/utils/bitset.hpp:204-210 | a count never exceeds the number of bits |
| Bitset.CountTrueAppend | 3rdParty/iresearch/core/utils/bitset.hpp:204-210 | counting is additive over concatenation, so word-by-word popcounts sum to the whole count |
| Bitset.CountTrueZero | 3rdParty/iresearch/core/utils/bitset.hpp:181-190 | the count is zero iff no bit is set |
| Bitset.CountTrueAll | 3rdParty/iresearch/core/utils/bitset.hpp:192-194 | the count equals the length iff every bit is set |
| Bitset.ByteBits | 3rdParty/iresearch/core/utils/bitset.hpp:160-161 | a byte is eight bits whose little-endian value is the byte |
| Bitset.BytesBits | 3rdParty/iresearch/core/utils/bitset.hpp:160-161 | `n` bytes are `8n` bits |
| Bitset.LowBits | 3rdParty/iresearch/core/utils/bitset.hpp:160-161 | the `k` low bits of a value below `2^k`, lowest first, have that value |
| Bitset.BytesBitsPlacement | 3rdParty/iresearch/core/utils/bitset.hpp:160-161 | byte `k` of a buffer is bits `8k .. 8k+7` of its bit string, lowest bit first (a little-endian word layout) |
| Bitset.ReplaceByte | 3rdParty/iresearch/core/utils/bitset.hpp:160-161 | writing byte k of the words writes bits `8k..8k+7` of the run and nothing else |
| Bitset.DynamicBitset.Size | 3rdParty/iresearch/core/utils/bitset.hpp:141 | `size()` is the number of bits held |
| Bitset.DynamicBitset.Capacity | 3rdParty/iresearch/core/utils/bitset.hpp:143-146 | `capacity()` is a multiple of 64 that is at least `size()` and less than a word above it |
| Bitset.DynamicBitset.Empty | 3rdParty/iresearch/core/utils/bitset.hpp:84-87 | the default bitset holds no bits and no words |
| Bitset.DynamicBitset.constructor | 3rdParty/iresearch/core/utils/bitset.hpp:89-92 | `dynamic_bitset(bits)` holds `bits` clear bits in a new buffer |
| Bitset.DynamicBitset.Move | 3rdParty/iresearch/core/utils/bitset.hpp:94-100 | the move constructor takes the bits and the buffer, and leaves the source with 0 bits and 0 words |
| Bitset.DynamicBitset.MoveAssign | 3rdParty/iresearch/core/utils/bitset.hpp:102-112 | move assignment transfers bits, words and buffer and empties the source; self-assignment changes nothing |
| Bitset.DynamicBitset.Clear | 3rdParty/iresearch/core/utils/bitset.hpp:196-201 | every word in use becomes zero and the words beyond them are left as they were |
| Bitset.DynamicBitset.ClearedIsValid | 3rdParty/iresearch/core/utils/bitset.hpp:196-201 | zeroed words in use make a valid bitset with every bit clear |
| Bitset.DynamicBitset.Reset | 3rdParty/iresearch/core/utils/bitset.hpp:114-126 | size becomes `bits` and words `bit_to_words(bits)`, every bit is clear, and a new buffer is allocated only when more words are needed than held |
| Bitset.DynamicBitset.Test | 3rdParty/iresearch/core/utils/bitset.hpp:177-179 | `test(i)` is bit i |
| Bitset.DynamicBitset.FlattenIndexOf | 3rdParty/iresearch/core/utils/bitset.hpp:165-179 | bit i lives in word `word(i)`, which is in use, at `bit(i)` |
| Bitset.DynamicBitset.ResetBit | 3rdParty/iresearch/core/utils/bitset.hpp:173-175 | `reset(i, v)` makes bit i equal to v and changes no other bit |
| Bitset.DynamicBitset.Set | 3rdParty/iresearch/core/utils/bitset.hpp:165-167 | `set(i)` sets bit i and changes no other bit |
| Bitset.DynamicBitset.Unset | 3rdParty/iresearch/core/utils/bitset.hpp:169-171 | `unset(i)` clears bit i and changes no other bit |
| Bitset.DynamicBitset.ViewAndPadding | 3rdParty/iresearch/core/utils/bitset.hpp:220-231 | the words in use hold the bits followed by clear padding |
| Bitset.DynamicBitset.Count | 3rdParty/iresearch/core/utils/bitset.hpp:204-210 | the word-by-word popcount sum is the number of set bits |
| Bitset.DynamicBitset.Any | 3rdParty/iresearch/core/utils/bitset.hpp:181-186 | some word in use is non-zero iff some bit is set |
| Bitset.DynamicBitset.None | 3rdParty/iresearch/core/utils/bitset.hpp:188-190 | `none()` holds iff no bit is set |
| Bitset.DynamicBitset.All | 3rdParty/iresearch/core/utils/bitset.hpp:192-194 | `count() == size()` iff every bit is set |
| Bitset.DynamicBitset.Sanitize | 3rdParty/iresearch/core/utils/bitset.hpp:220-231 | the bits below `size()` are kept and every bit past them in the last word is cleared |
| Bitset.DynamicBitset.Memset | 3rdParty/iresearch/core/utils/bitset.hpp:155-163 | at most `words * 8` bytes of the source are copied over the words, and the bits are what those bytes make of the first `size()` positions, with the padding cleared |
| Bitset.DynamicBitset.CopyBytes | 3rdParty/iresearch/core/utils/bitset.hpp:161 | the first n bytes of the source replace the first 8n bits of the words, and the rest is kept |
| Bitset.DynamicBitset.WriteByte | 3rdParty/iresearch/core/utils/bitset.hpp:161 | writing one byte replaces the eight bits it covers |
| Bitset.DynamicBitset.Equals | 3rdParty/iresearch/core/utils/bitset.hpp:128-134 | the corrected comparison holds iff the two bitsets hold the same bits |
| Bitset.NonZeroWord | 3rdParty/iresearch/core/utils/bitset.hpp:184 | a word is non-zero iff one of its bits is set |
| Bitset.NotEquals | 3rdParty/iresearch/core/utils/bitset.hpp:136-138 | `!=` holds iff the bits differ |
| Bitset.PrefixHasTrue | 3rdParty/iresearch/core/utils/bitset.hpp:181-186 | a set bit in the first words is a set bit of the run |
| Bitset.EqualsAsWrittenOverreads | 3rdParty/iresearch/core/utils/bitset.hpp:128-134 | with equal sizes the comparison as written, whose `memcmp` is defined only within both buffers, reads past the words in use iff the size exceeds 8 bits; up to 8 bits it holds iff the first `size()` bytes agree |
| Bitset.NineBitsOverread | 3rdParty/iresearch/core/utils/bitset.hpp:128-134 | 9 bits take one 8-byte word, but 9 bytes are compared |
| AnalyzerNames.FirstDelimFrom | arangod/IResearch/IResearchAnalyzerFeature.cpp:425-439 | the first index from i on at which `::` ends, with no earlier one; None when there is none |
| AnalyzerNames.NormalizedName | arangod/IResearch/IResearchAnalyzerFeature.cpp:315-320 | the result is the database name, two `:`, then the analyzer name |
| AnalyzerNames.SplitCases | arangod/IResearch/IResearchAnalyzerFeature.cpp:418-442 | a name comes back unprefixed, and whole, iff it holds no `::`; otherwise it is prefix + `::` + suffix, with a prefix that holds no `::` and does not end in `:` |
| AnalyzerNames.SplitNormalized | arangod/IResearch/IResearchAnalyzerFeature.cpp:422-442 | splitting a normalized name returns its database and analyzer parts whenever the database name holds no `::` and does not end in `:` |
| AnalyzerNames.FirstIsTheOne | arangod/IResearch/IResearchAnalyzerFeature.cpp:425-439 | the search finds exactly the first `::` past its starting point |
| AnalyzerNames.SplitAnalyzerName | arangod/IResearch/IResearchAnalyzerFeature.cpp:422-442 | the loop's result is the split: prefix before the first `::` (EMPTY when the name starts with it), suffix after it (EMPTY at the end), NIL prefix and the whole name when there is none |
| AnalyzerNames.NormalizeExpanded | arangod/IResearch/IResearchAnalyzerFeature.cpp:1626-1663 | with expansion every non-static name comes out prefixed with a non-empty database: the active one for an unprefixed name, the system one for an empty prefix, its own otherwise, and with the same analyzer part |
| AnalyzerNames.NormalizeIdempotent | arangod/IResearch/IResearchAnalyzerFeature.cpp:1626-1663 | normalizing with expansion a second time changes nothing |
| AnalyzerNames.NormalizeCompactActive | arangod/IResearch/IResearchAnalyzerFeature.cpp:1649-1656 | without expansion a name prefixed by the active database loses its prefix |
| AnalyzerNames.Normalize | arangod/IResearch/IResearchAnalyzerFeature.cpp:1626-1663 | a static analyzer name is returned as it is; otherwise the result ends with the analyzer part of the name, and is the name, the analyzer part, or that part under the empty, the active or the system database prefix |
| AnalyzerFeature.IdentityAnalyzer.constructor | arangod/IResearch/IResearchAnalyzerFeature.cpp:110-114 | a new identity analyzer has no pending token |
| AnalyzerFeature.IdentityAnalyzer.Reset | arangod/IResearch/IResearchAnalyzerFeature.cpp:130-135 | `reset(data)` makes the data the pending token and succeeds |
| AnalyzerFeature.IdentityAnalyzer.Next | arangod/IResearch/IResearchAnalyzerFeature.cpp:120-128 | `next()` publishes the pending value (NIL when none) as the term, clears it, and reports whether a token was pending |
| AnalyzerFeature.IdentityYieldsInputOnce | arangod/IResearch/IResearchAnalyzerFeature.cpp:120-135 | after `reset(data)` the analyzer yields `data` exactly once |
| AnalyzerFeature.EqualAnalyzerByContent | arangod/IResearch/IResearchAnalyzerFeature.cpp:263-272 | a pool equals a configuration exactly when it equals the configuration's contents, a NIL type or properties comparing as empty; every valid pool equals its own type, properties and features, and equality implies the same features |
| AnalyzerFeature.AnalyzerPool.Read | arangod/IResearch/IResearchAnalyzerFeature.cpp:650-656 | a reference reads NIL iff it is NIL, and otherwise exactly its size in characters |
| AnalyzerFeature.AnalyzerPool.constructor | arangod/IResearch/IResearchAnalyzerFeature.cpp:632-633 | a new pool carries its name and an empty configuration with NIL type, properties and key |
| AnalyzerFeature.AnalyzerPool.Init | arangod/IResearch/IResearchAnalyzerFeature.cpp:635-687 | init succeeds iff the type is non-empty and an analyzer can be made from the type and properties, a NIL reference reading as no characters; then the buffer is type + properties and `type()`/`properties()` read back what was given, with the features stored; on failure everything is cleared; the key is NIL either way |
| AnalyzerFeature.AnalyzerPool.SetKey | arangod/IResearch/IResearchAnalyzerFeature.cpp:689-717 | the key is appended to the buffer and `_key` reads it back; `type()` and `properties()` read as before; a NIL key only makes `_key` NIL |
| AnalyzerFeature.AppendKeepsSlice | arangod/IResearch/IResearchAnalyzerFeature.cpp:707-716 | appending to the buffer leaves every reference into the old part reading the same |
| AnalyzerFeature.InitThenSetKeyKeepsConfiguration | arangod/IResearch/IResearchAnalyzerFeature.cpp:635-717 | a pool initialized from a configuration is `equalAnalyzer` to it, before and after its key is set |
| AnalyzerFeature.CheckFeatures | arangod/IResearch/IResearchAnalyzerFeature.cpp:825-846 | the feature loop accepts iff every feature is frequency, norm or position and position comes with frequency |
| AnalyzerFeature.AnalyzerRegistry.constructor | arangod/IResearch/IResearchAnalyzerFeature.cpp:747-757 | the registry starts with no analyzers (static analyzers are loaded later, by `prepare`) |
| AnalyzerFeature.AnalyzerRegistry.EmplaceAnalyzer | arangod/IResearch/IResearchAnalyzerFeature.cpp:807-904 | bad name, unsupported feature, properties over 1 MiB, null pool, failed init and name collision are each BAD_PARAMETER and leave the map as it was; an equal existing pool is returned without insertion; otherwise a fresh pool equal to the configuration is inserted under the name |
| AnalyzerFeature.AnalyzerRegistry.Remove | arangod/IResearch/IResearchAnalyzerFeature.cpp:1677-1730 | a built-in name is FORBIDDEN, an unknown name or null pool is DOCUMENT_NOT_FOUND (the null entry being erased), a pool in use is CONFLICT unless forced; on a DB-server the entry is erased, elsewhere persisted removal follows |
| AnalyzerFeature.EmplaceTwiceSamePool | arangod/IResearch/IResearchAnalyzerFeature.cpp:807-904 | emplacing the same configuration twice returns the same pool, inserted only the first time |
| ClusterHelpers.HandleGeneralCommErrors | arangod/Cluster/ClusterMethods.cpp:658-682 | only a timeout, a communication error or an unavailable backend is an error; a timeout is CLUSTER_TIMEOUT, and an unavailable backend is BACKEND_UNAVAILABLE exactly when a complete response came back, CONNECTION_LOST otherwise |
| ClusterHelpers.ShardId | arangod/Cluster/ClusterMethods.cpp:596-597 | a shard id is `s` followed by the decimal digits of `id + i` taken as a uint64 |
| ClusterHelpers.ShardIdInjective | arangod/Cluster/ClusterMethods.cpp:564-600 | the shards made in one call get pairwise different ids |
| ClusterHelpers.Wrap | arangod/Cluster/ClusterMethods.cpp:581-592 | a cursor that passes the end of the server list restarts at 0 |
| ClusterHelpers.FollowerPosition | arangod/Cluster/ClusterMethods.cpp:587-593 | the follower cursor yields a server that is not the leader's whenever there are two; it is the cursor's own position iff that is not the leader's |
| ClusterHelpers.FollowerRun | arangod/Cluster/ClusterMethods.cpp:584-594 | `count` followers taken from a cursor are `count` positions, and the cursor is left just past the last of them (where it started when none is taken) |
| ClusterHelpers.FollowerRunPositions | arangod/Cluster/ClusterMethods.cpp:584-594 | every position a run of the follower cursor takes is a server's, and none is the leader's once there are two servers |
| ClusterHelpers.FollowerCursor | arangod/Cluster/ClusterMethods.cpp:563-600 | the shared follower cursor is 0 before the first shard and always a valid server position |
| ClusterHelpers.PlacementDetermined | arangod/Cluster/ClusterMethods.cpp:567-596 | the servers of shard `i` are determined by the servers, the copy count and `i` |
| ClusterHelpers.TakesFollowersStep | arangod/Cluster/ClusterMethods.cpp:587-594 | one more follower extends the shard's followers by the server the cursor yields and moves the cursor just past it |
| ClusterHelpers.PickFollower | arangod/Cluster/ClusterMethods.cpp:587-593 | the do/while takes a server that is not the leader: the one at the follower cursor, or the next one when that is the leader, and advances the cursor past it |
| ClusterHelpers.NextFollower | arangod/Cluster/ClusterMethods.cpp:587-593 | the follower taken sits at the next offset from the cursor's start that is not the leader's; it is the server at the cursor, or the one after it when the cursor is at the leader, and the cursor is left just past it |
| ClusterHelpers.PickServers | arangod/Cluster/ClusterMethods.cpp:568-595 | a shard gets `min(replicationFactor, servers)` distinct known servers, led by the server at the leader cursor, with no follower equal to the leader; the followers are the servers at the follower cursor's successive positions, the leader's skipped, and the follower cursor ends just past the last; the leader cursor moves by one |
| ClusterHelpers.TrackedStep | arangod/Cluster/ClusterMethods.cpp:587-594 | each follower taken keeps the record of increasing offsets, none the leader's |
| ClusterHelpers.FollowersDistinct | arangod/Cluster/ClusterMethods.cpp:568-595 | followers at distinct offsets short of a full turn, none at the leader's, are distinct servers different from the leader |
| ClusterHelpers.TakeFollower | arangod/Cluster/ClusterMethods.cpp:586-594 | one pass of the follower do/while appends exactly one server, keeping the picked servers distinct, not the leader, and those the cursor yields |
| ClusterHelpers.ModSuccessor | arangod/Cluster/ClusterMethods.cpp:581-584 | advancing a wrapping cursor from `i mod n` gives `(i + 1) mod n`, so shard i is led by server `i mod n` |
| ClusterHelpers.DistributeShardsEvenly | arangod/Cluster/ClusterMethods.cpp:541-603 | an empty server list gives no shards; otherwise exactly the shards `0 .. numberOfShards-1` are made, each under its id with `min(rf, n)` servers (all of them for rf 0) led by server `i mod n`; its followers are taken by one follower cursor shared by all shards, starting at 0 and continuing where the previous shard left it |
| ClusterHelpers.PlaceNextShard | arangod/Cluster/ClusterMethods.cpp:565-600 | placing shard `i` adds it under its id with its determined servers, moves the leader cursor to `(i+1) mod n` and leaves the follower cursor where shard `i+1` expects it |
| ClusterHelpers.PickShardServers | arangod/Cluster/ClusterMethods.cpp:565-594 | the servers picked for shard `i` from the cursors it expects are its placement, and the leader and follower cursors are left where shard `i+1` expects them |
| ClusterHelpers.PickedPlacement | arangod/Cluster/ClusterMethods.cpp:565-594 | servers taken by the inner loop from the leader cursor `i mod n` and the shared follower cursor are the placement of shard `i`, and both cursors move on to shard `i+1` |
| ClusterHelpers.PlaceShard | arangod/Cluster/ClusterMethods.cpp:596-599 | the id of a new shard is not yet in the map, and adding it extends the shards placed by one |
| ClusterHelpers.AddToShard | arangod/Cluster/ClusterMethods.cpp:395-403 | the document is appended to its shard's list (a new shard gets a list of one), no other shard changes, and the reverse mapping records the shard and the position |
| ClusterHelpers.AddToShardKeepsScattered | arangod/Cluster/ClusterMethods.cpp:481-489 | after appending, every reverse-mapping entry still points at its document, in request order |
| ClusterHelpers.ShardScatter.constructor | arangod/Cluster/ClusterMethods.cpp:367-371 | scattering starts with an empty shard map and reverse mapping |
| ClusterHelpers.ShardScatter.Add | arangod/Cluster/ClusterMethods.cpp:395-403 | adding keeps every reverse-mapping entry pointing at its document and records the new one |
| ClusterHelpers.DistributeBabyOnShards | arangod/Cluster/ClusterMethods.cpp:367-405 | the document is located as it is, or as the object `{_key: value}` when it is a bare string; DATA_SOURCE_NOT_FOUND becomes SHARD_GONE, another lookup error is returned, and either leaves the maps unchanged; a located document is appended to its shard |
| ClusterHelpers.KeyedPlacementKeys | arangod/Cluster/ClusterMethods.cpp:437-479 | an object placed gets a generated key iff it had no `_key`, and keeps its own key only when restoring or when the collection shards by `_key` and allows user keys |
| ClusterHelpers.KeyedRefusalsAreErrors | arangod/Cluster/ClusterMethods.cpp:420-479 | every refusal carries an error code |
| ClusterHelpers.DistributeKeyedBabyOnShards | arangod/Cluster/ClusterMethods.cpp:414-491 | a non-object goes to the first shard; a smart-join failure, SHARD_GONE or MUST_NOT_SPECIFY_KEY leaves the maps unchanged; a placed document is appended with its key to its shard |
| ClusterHelpers.ErrorOf | arangod/Cluster/ClusterMethods.cpp:261-271 | a shard's error answer is rethrown with its `errorNum` and, when it is a string, its `errorMessage` |
| ClusterHelpers.Merge | arangod/Cluster/ClusterMethods.cpp:254-276 | merging succeeds iff no entry meets an error answer or an answer too short; then the body has one result per entry, taken from that shard's answer at that position; a shard failure is reported only when some shard answered with an error |
| ClusterHelpers.MergeFrom | arangod/Cluster/ClusterMethods.cpp:259-274 | each entry's answer decides before the rest is merged |
| ClusterHelpers.ThenThen | arangod/Cluster/ClusterMethods.cpp:273 | appending results one at a time builds the same body |
| ClusterHelpers.MergeResults | arangod/Cluster/ClusterMethods.cpp:254-276 | the loop gives the merge, stopping at the first error |
| ClusterHelpers.Respond | arangod/Cluster/ClusterMethods.cpp:254-276 | a shard answers one result per document it was sent, in order |
| ClusterHelpers.MergeRestoresOrder | arangod/Cluster/ClusterMethods.cpp:254-276 | scattering then merging restores the request order: the merged body holds each document's result at its place in the request |
| ClusterHelpers.FirstFound | arangod/Cluster/ClusterMethods.cpp:313-324 | the result for a document is NOT_FOUND iff every shard answered NOT_FOUND for it |
| ClusterHelpers.FirstFoundAt | arangod/Cluster/ClusterMethods.cpp:313-324 | the answer of the first shard that has the document is the one taken |
| ClusterHelpers.NotFoundCount | arangod/Cluster/ClusterMethods.cpp:325-329 | the number of documents no shard had is at most the number expected |
| ClusterHelpers.NotFoundCountZero | arangod/Cluster/ClusterMethods.cpp:325-334 | nothing is counted missing iff some shard had every document |
| ClusterHelpers.NotFoundCountAll | arangod/Cluster/ClusterMethods.cpp:325-334 | every document is counted missing iff no shard had any of them |
| ClusterHelpers.ScanShards | arangod/Cluster/ClusterMethods.cpp:313-324 | the inner loop finds a result iff some shard had the document, and then it is the first such answer |
| ClusterHelpers.MergeResultsAllShards | arangod/Cluster/ClusterMethods.cpp:295-335 | one result per expected document, each the first answer that is not NOT_FOUND, else NOT_FOUND; the NOT_FOUND count is recorded only when positive, every other count unchanged |
| ClusterHelpers.GetForwardableRequestHeaders | arangod/Cluster/ClusterMethods.cpp:688-711 | every forwardable header is kept with its value, no other header, and `content-length` is the request's content length in decimal; apart from `content-length`, no key of the result is `authorization`, the HLC header, the error-codes header or a CORS header |
| ClusterHelpers.ShardKeysChanged | arangod/Cluster/ClusterMethods.cpp:718-762 | true iff either document is no object or some shard key other than `_key` compares differently, a key left out of a patch not counting and a missing key reading as null |
| ClusterHelpers.SameDocumentKeepsShardKeys | arangod/Cluster/ClusterMethods.cpp:718-762 | storing a document as it was never changes its shard keys |
| ClusterHelpers.PatchWithoutShardKeys | arangod/Cluster/ClusterMethods.cpp:736-740 | a patch that mentions no shard key never changes the shard keys |
| ClusterHelpers.ReplaceDroppingShardKey | arangod/Cluster/ClusterMethods.cpp:743-756 | a replacement that drops a non-null shard key changes the shard keys |
| Decimal.Itoa | arangod/Cluster/ClusterMethods.cpp:597 | `itoa` gives at least one digit and no leading zero |
| Decimal.ValueItoa | arangod/Cluster/ClusterMethods.cpp:597 | reading the digits back gives the number |
| Decimal.ItoaInjective | arangod/Cluster/ClusterMethods.cpp:597 | different numbers give different strings |

## Left out

- ICU and Snowball are oracle functions whose results are taken as given:
  - the break iterator, normalizer, transliterator, case mapping and
    `sb_stemmer_*`;
  - the `locale_utils` encoding conversion.

  Word segmentation (Unicode Standard Annex #29, section 4) and NFC
  normalization (Unicode Standard Annex #15) are not implemented.
- Filesystem and environment access in `get_stopwords` is passed in through
  `FsEnv`: file reading, directory visiting, `getenv`, path joining and
  existence tests.
- rapidjson and VelocyPack parsing and writing are replaced by the `Json`
  datatype:
  - numbers are integers;
  - member order and duplicate members are not modelled;
  - `make_json_config` output is compared as a value, not as text.
- Mutexes and atomics are left out. The text analyzer cache and the analyzer
  map are modelled as sequential state.
- The `make_text`/`make_text_config` text-format entry points of the
  analyzers are left out. Only their JSON forms are modelled.
- IResearchAnalyzerFeature.cpp outside the named operations is left out:
  - `loadAnalyzers`, `storeAnalyzer`, `visitAnalyzers`,
    `getAnalyzerCollection`;
  - the upgrade tasks and the AQL `TOKENS` function;
  - `prepare`'s loading of the static analyzers.

  All of these need transactions, collections and cluster access.
- AnalyzerFeature.AnalyzerRegistry.Remove: stops where the persisted
  removal begins. For that case it reports `PersistedRemoval`; the key and
  recovery checks and the store update that follow are not modelled.
- AnalyzerFeature.AnalyzerPool.Init: the analyzer cache of the pool is
  reduced to whether an instance can be made (the `instantiate` parameter).
  Exceptions thrown during creation count as failure, as in the source.
- AnalyzerFeature.AnalyzerRegistry.EmplaceAnalyzer takes its collaborators
  as parameters:
  - `TRI_vocbase_t::IsAllowedName` is the `allowedName` parameter;
  - unknown features are those `Feature.Other` stands for;
  - an allocation failure of a new pool is not modelled.
- The use count of a pool and the server role passed to `remove` are
  parameters.
- ClusterComm request and response handling, the agency, transaction headers
  and `extractErrorCodes` are left out.
- ClusterHelpers.DistributeShardsEvenly takes its variable inputs as
  parameters:
  - `uniqid` is the `id` parameter;
  - the server list is already fetched and shuffled (the `dbServers`
    parameter);
  - the warning log is dropped.
- ClusterHelpers.DistributeShardsEvenly requires distinct server names. The
  follower do/while of the source never ends when every other server equals
  the leader, e.g. servers `["a", "a"]` with replication factor 2.
- ClusterHelpers.ShardKeysChanged takes VelocyPack `compare` as a parameter.
  `DEBUG_SYNC_REPLICATION` builds are not modelled.
- ClusterHelpers.DistributeKeyedBabyOnShards takes its collaborators as
  parameters:
  - the smart-join check, the key generator and the shard lookup;
  - `track` of user keys by the key generator is left out;
  - `getShardList` is the `firstShard` parameter.
- ClusterHelpers.MergeResults requires every shard of the reverse mapping
  to have an answer; the source dereferences `resultMap.find(...)` without a
  check. An answer that is not an array, or too short, is reported as
  `Malformed` instead of the exception VelocyPack throws.
- ClusterHelpers.MergeResultsAllShards requires every shard's answer to be an
  array of at least `expectedResults` entries. The source asserts the array
  and lets `at()` throw otherwise.
- `StaticStrings` is not part of this model. The header and attribute names
  it defines are written out as constants whose values are assumed, not read
  from its definition: `x-arango-hlc` for `HLCHeader`, `x-arango-error-codes`
  for `ErrorCodes` (the header the HTTP interface documents as
  `X-Arango-Error-Codes`), `_key` for `KeyString`, and `error`, `errorNum`
  and `errorMessage` for `Error`, `ErrorNum` and `ErrorMessage`. The
  forwarding filter drops headers by these names.
- Error messages are not modelled, only error codes.
- Bitset words are modelled as sequences of 64 booleans, not as machine
  integers, so `popcount` and the shifts are element counts and updates.
- The iteration order of the feature set in `emplaceAnalyzer` is not
  modelled. `CheckFeatures` takes features in arbitrary order, with the
  same result.
- The stopword set of the text options is written out by `SetToSeq` in an
  unspecified order. The round-trip lemmas are about sets.
- A string read from a rapidjson value through `GetString()` is a C string,
  so every string option ends before its first 0 byte (`Json.CStr`). The
  JSON configuration round trips of the delimiter, stemming and text
  analyzers therefore hold exactly only for strings without a 0 byte; the
  lemmas state both the general and the exact form. How the writer escapes
  a 0 byte in the JSON text is not modelled, only the value it stands for.
- Bitset.BytesBits: bytes are laid out in the bit string lowest bit first,
  which is the word layout of a little-endian machine; a big-endian layout
  of `data()` is not modelled.

## Findings

| source | as written | input that shows it | evidently intended | confidence | as-written member | corrected member |
|---|---|---|---|---|---|---|
| 3rdParty/iresearch/core/utils/bitset.hpp:128-134 | `operator==` passes `size()`, a number of bits, to `memcmp` as a number of bytes | two equal-size bitsets of 9 bits: they hold one 8-byte word each, and 9 bytes are compared | compare the words in use, `words() * sizeof(word_t)` bytes | not executed | Bitset.EqualsAsWritten, exhibited by Bitset.EqualsAsWrittenOverreads and Bitset.NineBitsOverread | Bitset.DynamicBitset.Equals |
