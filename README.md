# PSBS core in Dafny

A model of the core of PSBS, the PuzzleScript build system. The model covers:

- **The parser.** `PSParser` in psbs/psparser.py:
  - comment redaction;
  - splitting a game into its ten sections;
  - cleaning and prelude options;
  - the engine address in a readme;
  - object records;
  - the legend and its synonym table;
  - the fixpoint resolution of properties and aggregates;
  - the construction of glyphs as stacks of sprites ordered by collision layers.
- **The template filters.** `add_prefix`, `levels_to_list` and `combine_levels` in psbs/extensions/filters.py.
- **`url_join`** from psbs/utils.py.
- **The two template skeletons.** psbs/template.py and psbs/templatebuilder.py, plus the post-processing pipeline of `Template`.
- **Images to objects.** psbs/images.py and the `Images` extension.
- **The Tiled extension, without its image and XML handling.** This covers:
  - reading sprites back into colour grids;
  - palette resolution;
  - tile numbering;
  - level conversion.
- **Configuration merging** in psbs/config.py.
- **The `Extension` base class** in psbs/extension.py.

There is one module per source file or component:

| module | what it holds |
|---|---|
| `Wrappers`, `Text` | Python string operations on `seq<char>` |
| `Dict` | a Python `dict`: insertion-ordered keys and a map |
| `Redact`, `Sections`, `Patterns`, `Objects`, `Legend`, `Resolve`, `Glyphs`, `Parser` | psbs/psparser.py |
| `Filters` | filters.py |
| `Urls` | `url_join` |
| `Template`, `TemplateBuilder` | the two template files |
| `Images`, `ImagesExtension` | the two image files |
| `Palettes`, `Tiled` | tiled.py |
| `Config` | config.py |
| `Extensions` | extension.py |

Loops in the source are methods with loop invariants. Each is proved equal to a specification function, and the properties the code promises are lemmas about that function. Classes whose methods update fields are Dafny classes:

- `PSParser`;
- `Template` and its post-processing list;
- `Extension` and its registration tables;
- the `Images` extension with its configuration and image cache;
- the source tree that the older `make_template` changes in place.

Exceptions are modelled as `Result` errors that name the Python exception they stand for.

### Where the code and its documentation differ

In each of these cases the model of `PSParser` follows the code, and every member built on it (`get_objects`, `get_glyphs`, the Tiled extension) inherits the code's behaviour. Where the code departs from what was evidently intended, the intended behaviour is modelled and proved beside it, under its own name, in the findings below.

- **One-line object records.** The documentation says an object record that cannot be parsed is skipped with a warning. In the code, a record of fewer than two lines raises `ValueError`, which the `except IndexError` does not catch, so `get_objects` raises. An empty OBJECTS section is such a record. See the first finding below.
- **Synonym resolution.** The code comment promises a "resolve synonyms" step after the synonym table is built. The comprehension that implements it is the identity, and `get_glyphs` uses the table unresolved. See the second finding below.
- **Idempotence.** Cleaning a section and redacting comments are described as idempotent. With the default placeholder, a space, redaction is: `Redact.SpaceIdempotent` proves it for every text. Header detection uses that placeholder. With the empty placeholder, which `__clean` uses, neither is idempotent. Deleting a comment can move a `message ` keyword within the first eight emitted elements, where the `len(output) > 8` test no longer sees it. `Sections.CleanNotIdempotent` and `Redact.EmptyPlaceholderNotIdempotent` prove this on the text `()message (a`. The code's behaviour is modelled as written.

## Model

| member | source | states |
|---|---|---|
| Text.Strip | psbs/psparser.py:143 | `strip()` leaves no whitespace at either end and never lengthens |
| Text.Lower | psbs/psparser.py:247 | `lower()` lower-cases each character in place |
| Text.Words | psbs/psparser.py:250 | `split()` yields only non-empty words |
| Text.SplitLines | psbs/psparser.py:143 | no line of `splitlines()` holds a newline |
| Text.SplitLinesJoin | psbs/psparser.py:143 | joining the lines with newlines gives the text back, less at most one final newline |
| Redact.RedactComments | psbs/psparser.py:77-125 | the loop's output is the concatenation of the elements of the specification scan, one element per input character |
| Redact.ElementShape | psbs/psparser.py:113-118 | every character is emitted either as itself or as the placeholder, and a newline is always emitted as itself |
| Redact.CharacterRules | psbs/psparser.py:95-123 | how one character is handled, given the scan before it: <br>• the message flag is set only by the "message " test and cleared by a newline <br>• inside a message a character passes through and parentheses leave the depth alone <br>• outside one, `(` is redacted and deepens the comment <br>• a `)` that closes a comment is redacted and decrements the depth <br>• at depth 0 everything except `(` passes through |
| Redact.PrefixStable | psbs/psparser.py:95-123 | the pass is one left-to-right scan: the elements for a prefix of the input are the prefix of the elements |
| Redact.LengthPreserved | psbs/psparser.py:113-118 | with a one-character placeholder, such as the default space, the output has the input's length and differs from it only where the placeholder stands |
| Redact.NewlinesPreserved | psbs/psparser.py:113-118 | any placeholder without a newline, the empty one included, keeps the number of newlines |
| Redact.NoCommentUnchanged | psbs/psparser.py:107-108 | a text without `(` comes out unchanged, whatever the placeholder |
| Redact.NoCommentText | psbs/psparser.py:107-108 | the joined output of a text without `(` is that text |
| Redact.EmptyPlaceholderNotIdempotent | psbs/psparser.py:98 | redacting `()message (a` with "" gives `message (a`; redacting that again gives `message ` |
| Redact.SpaceSecondPass | psbs/psparser.py:77-125 | redacting the output of a pass with the default space placeholder reads each emitted element back as itself, never entering a comment, with the same message flag |
| Redact.SpaceIdempotent | psbs/psparser.py:77-125 | with the default space placeholder, redacting twice is redacting once |
| Sections.AllSectionsListed | psbs/psparser.py:176-187 | the ten sections, in the source's order, with no section listed twice |
| Sections.HeaderNameMeaning | psbs/psparser.py:190-195 | a line is the header of section `s` exactly when `s` is not the prelude and the line, with trailing spaces removed and lower-cased, is `s`'s name |
| Sections.Headers | psbs/psparser.py:191-195 | header matches lie inside the text, come in order without overlapping, and never name the prelude |
| Sections.Redacted | psbs/psparser.py:193 | the text searched for headers has the source's length, so match offsets index the source |
| Sections.DropRule | psbs/psparser.py:202 | removing a leading `=` rule and its spaces leaves a line that does not start with a space and is no longer |
| Sections.SplitPs | psbs/psparser.py:164-216 | the loop builds exactly `SourceTree(source)`: each segment between headers is appended as one block to its section, and empty optional sections are then pruned |
| Sections.Prune | psbs/psparser.py:211-214 | the result keeps every section except a `tags` or `mappings` section with no block; kept values are unchanged; the first key stays first |
| Sections.EmptyTree | psbs/psparser.py:176-187 | before any block is added, every section is present with an empty list |
| Sections.TreeShape | psbs/psparser.py:197-214 | for segments starting with the prelude, the tree is a valid dict whose first key is the prelude, with a non-empty prelude list <br>• a section is present unless it is an optional section without blocks <br>• each section holds its blocks in order |
| Sections.BlockCount | psbs/psparser.py:200-209 | every segment contributes exactly one block |
| Sections.SourceBlockCount | psbs/psparser.py:200-209 | a source with `n` headers yields `n + 1` blocks in total |
| Sections.SourceTree | psbs/psparser.py:164-216 | the tree of any source is a valid dict that starts with a non-empty prelude; a section is present unless it is `tags` or `mappings` without a block, and holds the blocks between its headers, in order |
| Sections.NoHeadersAllPrelude | psbs/psparser.py:207-209 | a source without headers is one prelude block, and every other section is empty |
| Sections.Clean | psbs/psparser.py:128-144 | every line of a cleaned text equals its own `strip()`; a text without `(` loses nothing but the whitespace around its lines |
| Sections.StrippedLinesSplit | psbs/psparser.py:143 | lines without newlines, stripped and joined with newlines, split back into lines that are their own `strip()` |
| Sections.CleanNotIdempotent | psbs/psparser.py:140-143 | cleaning `()message (a` gives `message (a`; cleaning that again gives `message` |
| Sections.CleanSections | psbs/psparser.py:42-45 | the cleaned sections have the tree's keys, in the tree's order |
| Sections.ParsePrelude | psbs/psparser.py:51-71 | the loop builds the dict of the prelude lines' entries, in order |
| Sections.PreludeOf | psbs/psparser.py:61-71 | the options are a valid dict, and each holds the entry of some prelude line that set it |
| Sections.PreludeLastWins | psbs/psparser.py:63-70 | an option is present exactly when some line sets it, and it holds the value of the last such line: a bare keyword is a flag, a keyword with text is a value |
| Sections.BlankLineIgnored | psbs/psparser.py:64-70 | a blank line sets no option |
| Sections.EngineFrom | psbs/psparser.py:158 | there is a match exactly when some line has `http` followed later on the same line by `editor.html`; the match is the text from the leftmost such `http` up to the last `editor.html` on its line |
| Sections.GetEngine | psbs/psparser.py:147-162 | the public engine exactly when the pattern matches nowhere; otherwise the leftmost, greedy `http…` address before an `editor.html` on its line |
| Sections.EngineOfLink | psbs/psparser.py:158-162 | a one-line link `<address>editor.html` with an address starting `http` gives back exactly the address |
| Patterns.FirstBreak | psbs/psparser.py:228-230 | the leftmost match of the blank-line pattern at or after a position, or none |
| Patterns.SplitBlankLines | psbs/psparser.py:228-230 | the split always yields at least one piece |
| Patterns.NoBreakWhole | psbs/psparser.py:228-230 | a text where the pattern never matches is returned whole |
| Patterns.PiecesUnbroken | psbs/psparser.py:228-230 | no piece contains a match: every run of two or more newlines between non-space characters was cut |
| Patterns.PieceEnds | psbs/psparser.py:228-230 | every piece after the first starts with a non-space character, and every piece before the last ends with one |
| Patterns.LegendLine | psbs/psparser.py:300-304 | a matched line yields a non-empty key that starts the line and non-empty values |
| Patterns.LegendLineOfWords | psbs/psparser.py:300-304 | `key = w1 c1 w2 …`, with every second word `and` or `or`, is matched with exactly those two groups |
| Patterns.SplitConn | psbs/psparser.py:305-312 | the split at ` and ` or ` or ` always yields at least one piece |
| Patterns.NoConnWhole | psbs/psparser.py:305-312 | values without a connector are one piece |
| Patterns.ConnPiecesUnbroken | psbs/psparser.py:305-312 | no piece contains a match of the connector pattern |
| Patterns.SplitLayers | psbs/psparser.py:350-352 | the collision-layer split always yields at least one piece |
| Patterns.LayerPieces | psbs/psparser.py:350-352 | no piece holds a comma or whitespace |
| Patterns.LayersOfNames | psbs/psparser.py:350-352 | names written with `", "` between them are split back into the names |
| Objects.NameTokens | psbs/psparser.py:252-257 | the only error of the token loop is an unknown `copy:` target (`KeyError`) |
| Objects.NameTokensMeaning | psbs/psparser.py:252-257 | the loop fails exactly when some `copy:` names an unstored object; otherwise the synonyms are the other tokens in order, and the body is the last copied object's body or the record's own |
| Objects.Synonyms | psbs/psparser.py:256-257 | no synonym is a `copy:` directive |
| Objects.LastCopy | psbs/psparser.py:253-255 | the copied name is the target of some `copy:` token |
| Objects.ParseRecord | psbs/psparser.py:236-268 | corrected record parse: a stored record has at least two lines, a non-empty name, and its second line as colours; the only failure is an unknown copy |
| Objects.StoredNameLower | psbs/psparser.py:246-251 | unless the game is case sensitive, a stored name is lower case |
| Objects.ParseRecordAsWritten | psbs/psparser.py:236-268 | as written: a record of fewer than two lines fails with `ValueError`; any other record is parsed as by `ParseRecord` |
| Objects.SingleLineRecordAborts | psbs/psparser.py:238 | as written, a one-line record makes `get_objects` raise |
| Objects.SingleLineRecordSkipped | psbs/psparser.py:265-268 | corrected, the same record is skipped |
| Objects.ObjectsOf | psbs/psparser.py:233-270 | the records are read as written, one-line records raising `ValueError`; a successful parse is a valid dict |
| Objects.ShortRecordRaises | psbs/psparser.py:236-238 | once the records before it were read, a record of fewer than two lines ends the parse with its `ValueError`, whatever follows |
| Objects.EmptySectionRaises | psbs/psparser.py:233-238 | an empty OBJECTS section is one record without lines, so `get_objects` raises `ValueError` |
| Objects.ReadNameTokens | psbs/psparser.py:250-257 | the token loop computes `NameTokens` |
| Objects.ReadRecord | psbs/psparser.py:236-268 | the loop body computes `ParseRecordAsWritten`, the `ValueError` of a short record included |
| Objects.GetObjects | psbs/psparser.py:218-270 | the method returns the table of the blank-line-separated records read as written, or the first exception, `ValueError` of a short record included |
| Objects.ErrorStops | psbs/psparser.py:235-268 | once a record raises, the later records do not matter |
| Objects.ObjectsAreEntries | psbs/psparser.py:259-264 | the table is the dict built by assigning each stored record's entry in order |
| Objects.ObjectsLastWins | psbs/psparser.py:259-264 | a name is in the table exactly when some record stored it, and it holds what the last such record stored |
| Legend.Classify | psbs/psparser.py:305-314 | a definition is an aggregate exactly when the values contain ` and `, otherwise a property exactly when they contain ` or `, otherwise a synonym keeping the values |
| Legend.ReadLegend | psbs/psparser.py:299-314 | the legend loop fills the three tables with every matched line's definition |
| Legend.TablesOf | psbs/psparser.py:299-314 | the three tables are valid dicts, and every key holds the definition some matched line gave it |
| Legend.LegendLastWins | psbs/psparser.py:300-314 | a synonym is present exactly when some line defines it, and holds the value of its last defining line |
| Legend.PropertyLastWins | psbs/psparser.py:299-312 | a property is present exactly when some line defines it, and holds the definition of the last such line |
| Legend.AggregateLastWins | psbs/psparser.py:299-308 | an aggregate is present exactly when some line defines it, and holds the definition of the last such line |
| Legend.ObjectSynonymEntries | psbs/psparser.py:317-323 | every entry maps a synonym to an object that lists it |
| Legend.SynonymTable | psbs/psparser.py:316-324 | the synonym table is a valid dict |
| Legend.ObjectNamesWin | psbs/psparser.py:324 | every object name maps to itself, whatever the legend and other objects say |
| Legend.ObjectSynonymsOverride | psbs/psparser.py:317-323 | an object synonym that is no object's name maps to an object that lists it, overriding the legend |
| Legend.LegendSynonymKept | psbs/psparser.py:316-324 | a legend synonym no object mentions keeps the legend's value |
| Legend.ResolveSynonymsAsWritten | psbs/psparser.py:326-329 | as written, the resolution step keeps the table's keys |
| Legend.AsWrittenIsIdentity | psbs/psparser.py:327-329 | as written, the step returns the table unchanged |
| Legend.ResolveSynonyms | psbs/psparser.py:326-329 | corrected: every value is looked up once more in the table; keys are unchanged |
| Legend.SynonymChainResolved | psbs/psparser.py:326-329 | corrected, a synonym of a synonym reaches what the second one names |
| Legend.ChainCounterexample | psbs/psparser.py:326-329 | for `q = p`, `p = player`, the step as written leaves `q` naming `p`; the corrected step gives `player` |
| Resolve.Through | psbs/psparser.py:412-414 | without synonyms a list maps to the empty list; otherwise each member maps to its synonym |
| Resolve.ExpandFlat | psbs/psparser.py:408-414 | a list naming no entry is only mapped through the synonyms |
| Resolve.ExpandMembers | psbs/psparser.py:405-416 | the inner loop returns the rewritten list, and `changed` exactly when a member names an entry |
| Resolve.FirstPassLoop | psbs/psparser.py:401-416 | the first pass writes a fresh table from the input and reports whether any list named an entry |
| Resolve.LaterPassLoop | psbs/psparser.py:401-423 | a later pass rewrites the table it reads, each entry seeing the entries rewritten before it |
| Resolve.ResolveDict | psbs/psparser.py:381-423 | the `while True` loop computes `ResolveTable` within the allowed passes |
| Resolve.FirstRunKeys | psbs/psparser.py:398-416 | the first pass writes every key it reads, in the input's order |
| Resolve.FirstChangedMeaning | psbs/psparser.py:409-411 | the first pass sets `changed` exactly when some list names an entry of the input |
| Resolve.LaterPassKeys | psbs/psparser.py:404-416 | a later pass keeps the keys and their order |
| Resolve.LaterRunOthers | psbs/psparser.py:404-416 | a later pass leaves the entries it has not yet reached unchanged |
| Resolve.ResolveFinal | psbs/psparser.py:419-420 | a resolved table has the input's keys in order, and is a table naming none of its keys, mapped through the synonyms: the loop stops only after a pass that changed nothing |
| Resolve.NoSynonymsEmpties | psbs/psparser.py:412-414 | with no synonyms, every resolved list is empty |
| Resolve.FlatInputOnePass | psbs/psparser.py:419-420 | a table whose lists name no entry is resolved by the first pass alone |
| Resolve.ResolveFuel | psbs/psparser.py:400-423 | more passes never change a result that fewer passes reached |
| Resolve.FixedPointNeverResolves | psbs/psparser.py:400-423 | a table that every later pass gives back while reporting a change is never resolved, whatever the number of passes |
| Resolve.CycleNeverResolves | psbs/psparser.py:400-423 | the table `a = a` is never resolved, however many passes are allowed |
| Glyphs.BackgroundName | psbs/psparser.py:291-294 | the first object named "background" in any letter case, or "background" |
| Glyphs.Renamed | psbs/psparser.py:349 | each name mapped through the synonyms, or kept |
| Glyphs.CollisionOrderMembers | psbs/psparser.py:348-356 | a name is in the collision order exactly when some layer word stands for it |
| Glyphs.SynonymGlyphs | psbs/psparser.py:336-340 | one-character synonyms get the aggregate their object names, or that object alone |
| Glyphs.AggregateGlyphs | psbs/psparser.py:343-345 | one-character aggregates are glyphs of their own |
| Glyphs.GlyphTable | psbs/psparser.py:336-345 | the glyph table is a valid dict |
| Glyphs.GlyphTableEntry | psbs/psparser.py:336-345 | the glyphs are exactly the one-character synonyms and aggregates; an aggregate wins over a synonym of the same name |
| Glyphs.WithBackground | psbs/psparser.py:360-361 | the stack then contains the background, and at most one copy is added |
| Glyphs.Missing | psbs/psparser.py:362-367 | the first stacked name without a collision position, found exactly when one exists |
| Glyphs.SortByRank | psbs/psparser.py:363 | sorting by collision position is a permutation of the stack |
| Glyphs.SortSorted | psbs/psparser.py:363 | the sorted stack is in non-decreasing collision position |
| Glyphs.SortOfSorted | psbs/psparser.py:363 | sorting a sorted stack changes nothing, as the sort is stable |
| Glyphs.Layers | psbs/psparser.py:369-377 | every stacked object becomes its stripped colours and body; the first name that is no object raises `KeyError` |
| Glyphs.MissingRaised | psbs/psparser.py:362-367 | a stacked name, the background included, without a collision layer raises `ParseError`, and only then |
| Glyphs.GlyphStack | psbs/psparser.py:359-377 | a finished glyph is its names plus the background, in collision order, each as its sprite |
| Glyphs.BackgroundShown | psbs/psparser.py:360-377 | every finished glyph shows the background sprite |
| Glyphs.SharedListHarmless | psbs/psparser.py:359-367 | glyphs sharing one aggregate list see it already prepared, and preparing it again changes nothing |
| Glyphs.BuildGlyphsOk | psbs/psparser.py:359-377 | the glyph loop succeeds exactly when every glyph does |
| Glyphs.BuildGlyphsError | psbs/psparser.py:362-367 | a failed loop reports the error of the first failing glyph |
| Glyphs.BuildGlyphsKeys | psbs/psparser.py:359-377 | a successful loop keeps the glyphs and their order |
| Glyphs.BuildGlyphsVisited | psbs/psparser.py:369-377 | each visited glyph holds what the step made of its list |
| Glyphs.BuildGlyphsStops | psbs/psparser.py:364-367 | an error stops the loop |
| Glyphs.SynonymsOf | psbs/psparser.py:316-329 | the table `get_glyphs` uses is a valid dict, and is the synonym table unchanged, as the code's resolution step leaves it |
| Glyphs.GlyphsOf | psbs/psparser.py:272-378 | the table `get_glyphs` returns, from the unresolved synonyms, is a valid dict |
| Glyphs.BuildGlyphsValid | psbs/psparser.py:359-377 | the glyph loop turns a valid table into a valid table |
| Glyphs.EveryGlyphShowsBackground | psbs/psparser.py:359-377 | every glyph returned shows the background object's sprite |
| Glyphs.StackGlyphs | psbs/psparser.py:359-378 | the glyph loop computes `BuildGlyphs` with the stacking step |
| Glyphs.GetGlyphs | psbs/psparser.py:272-378 | the method computes `GlyphsOf` step by step, with the synonym table as the code leaves it |
| Parser.AlwaysPresent | psbs/psparser.py:211-214 | every section other than `tags` and `mappings` is always in the tree and in the cleaned sections |
| Parser.SourceGlyphs | psbs/psparser.py:272-378 | a successful `get_glyphs` gives a valid dict; a `ValueError` of the objects is passed on |
| Parser.PSParser.constructor | psbs/psparser.py:37-48 | the fields are the split tree, the cleaned sections and the prelude options of the source |
| Parser.PSParser.GetObjects | psbs/psparser.py:218-270 | returns the objects of the cleaned OBJECTS section, case folded unless `case_sensitive`, or the `ValueError` of a one-line record |
| Parser.PSParser.GetGlyphs | psbs/psparser.py:272-378 | returns the glyphs of the source |
| Filters.PrefixedLines | psbs/extensions/filters.py:73-78 | a blank line becomes empty; any other line gets the prefix and a space |
| Filters.AddPrefix | psbs/extensions/filters.py:60-79 | the loop computes the prefixed lines of the comment-free text, joined |
| Filters.Uncommented | psbs/extensions/filters.py:71 | text without `(` is returned unchanged |
| Filters.AddPrefixOf | psbs/extensions/filters.py:60-79 | the output has one line per line of the comment-free input: empty for a blank line, otherwise the prefix, a space and the line |
| Filters.PrefixedSplit | psbs/extensions/filters.py:73-79 | the prefixed lines, joined with newlines, split back into those lines |
| Filters.LevelLines | psbs/extensions/filters.py:93-95 | each line is cut before `message` and stripped |
| Filters.LevelsOf | psbs/extensions/filters.py:91-96 | there is always at least one level |
| Filters.LevelsToList | psbs/extensions/filters.py:81-96 | the loop computes `LevelsOf` |
| Filters.LevelsUnbroken | psbs/extensions/filters.py:96 | no level holds a blank-line break |
| Filters.RowsOfLevel | psbs/extensions/filters.py:139-141 | the rows of a level are the lines of the stripped level, each stripped |
| Filters.Merge | psbs/extensions/filters.py:140-145 | merging is as long as the longer of the lines and the rows |
| Filters.RowLines | psbs/extensions/filters.py:136-146 | the row is as tall as its tallest level, and line `i` is the concatenation of the `i`-th rows of the levels that have one |
| Filters.MergeStep | psbs/extensions/filters.py:142-145 | one line either appends a new output line or extends an existing one |
| Filters.ColumnBeyond | psbs/extensions/filters.py:136-146 | past the tallest level every output line is empty |
| Filters.CombineRow | psbs/extensions/filters.py:136-146 | `combine_row` joins the row's lines with newlines |
| Filters.AddLevel | psbs/extensions/filters.py:138-145 | the inner loop merges one level's rows into the lines |
| Filters.ChunksCover | psbs/extensions/filters.py:129-134 | the chunks, put back together, are the levels in order |
| Filters.ChunksSizes | psbs/extensions/filters.py:129-134 | every chunk but the last holds `columns` levels; the last holds between 1 and `columns` |
| Filters.TextNeverEmpty | psbs/extensions/filters.py:110-112 | level text never makes `combine_levels` fail |
| Filters.EmptyFails | psbs/extensions/filters.py:119 | `combine_levels` fails exactly on an empty list (`IndexError`) |
| Filters.CombineLevelsOf | psbs/extensions/filters.py:98-148 | `combine_levels` fails exactly on an empty flat or nested list, with `IndexError` |
| Filters.CombinedRows | psbs/extensions/filters.py:148 | each row is combined by `combine_row` |
| Filters.CombineLevels | psbs/extensions/filters.py:98-148 | the method computes `CombineLevelsOf`: text, flat or nested levels, chunked when `columns > 0` |
| Filters.CombineRows | psbs/extensions/filters.py:148 | the comprehension computes `CombinedRows` |
| Urls.Trimmed | psbs/utils.py:149 | every part loses its trailing `/` |
| Urls.UrlJoin | psbs/utils.py:137-150 | the result is the trimmed parts joined with single `/` |
| Urls.PiecesJoin | psbs/utils.py:147-150 | joining the `/`-pieces again restores every part, interior slashes included |
| Urls.SinglePart | psbs/utils.py:137-150 | one part gives that part without its trailing slashes, and only slashes were removed |
| Urls.TwoParts | psbs/utils.py:147-150 | two parts without trailing slashes give `a + "/" + b` |
| Urls.TrailingSlashesIgnored | psbs/utils.py:149 | adding trailing slashes to any part does not change the result |
| Template.Rule | psbs/template.py:148-150 | a rule is `=` repeated one more time than the name is long |
| Template.IncludeFiles | psbs/template.py:153-158 | a section with `n` blocks includes `max(1, n)` files, the `i`-th named by `FileName` |
| Template.IncludeLines | psbs/template.py:155-160 | one `(% include … +%)` line per included file |
| Template.MakeTemplate | psbs/template.py:129-161 | the method computes the stripped join of the sections' lines, in tree order |
| Template.AddSection | psbs/template.py:143-160 | one section appends its header, unless it is the prelude, and then its includes |
| Template.AddIncludes | psbs/template.py:155-160 | the inner loop appends one include line per block |
| Template.SingleInclude | psbs/template.py:153-158 | zero or one block includes the bare `<section>.pss` |
| Template.NumberedIncludes | psbs/template.py:155-158 | several blocks include `<section><i>.pss` for `i` from 1, all different |
| Template.StripKeepsTemplate | psbs/template.py:161 | the final `strip()` removes nothing from a non-empty tree |
| Template.LinesShape | psbs/template.py:142-161 | the first line starts with `=` or `(`, and the last line ends with `)` |
| Template.PipelineAppend | psbs/template.py:124-126 | running two step lists in turn is running their concatenation |
| Template.Template.constructor | psbs/template.py:66-81 | the steps are every extension's `post` list, in load order |
| Template.Template.Postprocess | psbs/template.py:114-126 | the steps are applied in list order, each to the previous result |
| Template.PipelineEmpty | psbs/template.py:124-126 | with no steps, post-processing returns its input |
| Template.LaterExtensionsRunLater | psbs/template.py:72-81 | a later-loaded extension post-processes the output of the earlier ones |
| TemplateBuilder.MakeHeader | psbs/templatebuilder.py:1-6 | a header starts with `=` |
| TemplateBuilder.HeaderLines | psbs/templatebuilder.py:1-6 | the header is the rule, the upper-cased name, the rule, then a blank line |
| TemplateBuilder.Defaulted | psbs/templatebuilder.py:14-15 | every empty block list becomes `[""]`; other lists and the key order are unchanged |
| TemplateBuilder.MakeTemplate | psbs/templatebuilder.py:9-23 | the tree is left defaulted in place, and the output is the stripped text of the original tree |
| TemplateBuilder.MakeSections | psbs/templatebuilder.py:11-22 | the loop defaults the sections it visits and writes each section |
| TemplateBuilder.MakeSection | psbs/templatebuilder.py:12-22 | one pass defaults the section's list and appends its text |
| TemplateBuilder.FullyDefaulted | psbs/templatebuilder.py:14-15 | after every section is visited, the tree is `Defaulted` |
| TemplateBuilder.DefaultedSection | psbs/templatebuilder.py:14-21 | an empty section is written as one block |
| TemplateBuilder.AddSection | psbs/templatebuilder.py:12-22 | one section appends its header unless it is the prelude, then its includes and a blank line |
| TemplateBuilder.AddIncludes | psbs/templatebuilder.py:16-21 | the inner loop appends one `{% include … %}` line per block |
| TemplateBuilder.DefaultedIdempotent | psbs/templatebuilder.py:14-15 | a second call leaves the tree as the first left it |
| TemplateBuilder.StripRemovesLastBlankLine | psbs/templatebuilder.py:22-23 | the final `strip()` removes exactly the last two newlines |
| TemplateBuilder.SectionFramed | psbs/templatebuilder.py:12-22 | a section starts with `=` or `{` and ends with `}` and two newlines |
| TemplateBuilder.TextFramed | psbs/templatebuilder.py:10-22 | so does the whole text |
| TemplateBuilder.IncludesShape | psbs/templatebuilder.py:16-21 | the includes start with `{` and end with `}` and a newline |
| Images.Channels | psbs/images.py:10-11 | four channels are written with alpha, three without |
| Images.HexDigit | psbs/images.py:13 | a lowercase hexadecimal digit that reads back as its value |
| Images.Hex2Digits | psbs/images.py:13 | a channel is written as exactly two digits, high digit first |
| Images.RgbaToHex | psbs/images.py:6-14 | the loop computes `HexCode` |
| Images.HexCodeDecodes | psbs/images.py:10-14 | a visible pixel's code is `#` plus two digits per channel, 7 or 9 characters, and every channel reads back |
| Images.TransparentIffClear | psbs/images.py:8-9 | `transparent` is the code of exactly the pixels with alpha 0 |
| Images.HexCodeInjective | psbs/images.py:8-14 | visible pixels share a code only when their written channels agree |
| Images.Codes | psbs/images.py:20-21 | one code per pixel |
| Images.UniqueMembers | psbs/images.py:18-23 | the colour list holds each code and nothing else |
| Images.UniqueDistinct | psbs/images.py:18-23 | no code is listed twice |
| Images.UniqueFirst | psbs/images.py:18-19 | `transparent`, inserted first, is listed first |
| Images.UniqueOrder | psbs/images.py:18-23 | codes are listed in order of first appearance |
| Images.UniqueOfUnique | psbs/extensions/images.py:25-29 | updating a dict with another dict's keys equals inserting the original values |
| Images.UniqueLength | psbs/images.py:18-23 | the list is no longer than its input |
| Images.WrapRows | psbs/images.py:33-34 | the rows put back together are the sprite; every row but the last holds `width` characters, and none is empty |
| Images.ColorTable | psbs/images.py:18-23 | the loop computes the colour list |
| Images.PixelListToSprite | psbs/images.py:17-35 | returns the colour list and the wrapped sprite |
| Images.SpriteString | psbs/images.py:25-31 | the loop writes one text per pixel |
| Images.PixelChar | psbs/images.py:28-31 | `.` exactly for the first (transparent) entry; otherwise a digit `d` whose entry `d + 1` is the code |
| Images.SpriteOneCharEach | psbs/images.py:27-31 | with at most ten visible colours, every pixel is exactly one character |
| Images.ImageToObject | psbs/images.py:38-58 | the method computes the object text: name, listed colours, sprite, stripped |
| Images.ObjectOf | psbs/images.py:57-58 | the object text has no whitespace at either end, and stripping it again changes nothing |
| Images.TableStartsTransparent | psbs/images.py:57 | `transparent` is the head of the list and nowhere else, so `pop` drops exactly the head |
| Images.FewColoursKept | psbs/images.py:46-56 | within the colour limit the image is not quantized, and the result does not depend on the quantizer |
| Images.ListedColourNamed | psbs/images.py:17-35 | sprite digit `d` names the `d`-th listed colour, and `.` marks exactly the transparent pixels |
| ImagesExtension.HexDigitsAgree | psbs/extensions/images.py:22 | the joined two-digit channels equal psbs/images.py's digits |
| ImagesExtension.SpriteChar | psbs/extensions/images.py:34-39 | `.` exactly for -1; a digit for 0-9; a letter `a`-`z` for 10-35 |
| ImagesExtension.SpriteCharInjective | psbs/extensions/images.py:32-39 | different colour indexes give different characters |
| ImagesExtension.Table | psbs/extensions/images.py:25-29 | the dict-update colour list equals psbs/images.py's list |
| ImagesExtension.TableLength | psbs/extensions/images.py:25-29 | the list has between 1 and pixels + 1 entries and holds every pixel's code |
| ImagesExtension.OneCharEach | psbs/extensions/images.py:31-42 | every pixel is one character, `SpriteChar` of its index minus one |
| ImagesExtension.AgreesWithDecimalSprite | psbs/extensions/images.py:31-42 | with at most ten visible colours, the sprite equals psbs/images.py's sprite |
| ImagesExtension.ListedTable | psbs/extensions/images.py:96-98 | the listed colours are the visible codes in order, or `transparent` alone exactly when no pixel is visible |
| ImagesExtension.Clamped | psbs/extensions/images.py:55-57 | `max_colors` above 36 becomes 36; other values are kept |
| ImagesExtension.WithinLimitNotQuantized | psbs/extensions/images.py:81-94 | an image within the limit is written as it is, independent of the quantizer |
| ImagesExtension.Images.constructor | psbs/extensions/images.py:8-11 | the configuration is as given and the image cache is empty |
| ImagesExtension.Images.RgbaToHex | psbs/extensions/images.py:17-22 | the same code psbs/images.py writes, with alpha taken from the configuration |
| ImagesExtension.Images.PixelListToSprite | psbs/extensions/images.py:24-44 | returns the colour list and the wrapped one-character-per-pixel sprite |
| ImagesExtension.Images.SpriteString | psbs/extensions/images.py:31-39 | the loop writes one character per pixel |
| ImagesExtension.Images.ImageToObject | psbs/extensions/images.py:46-100 | the clamp persists; a cached image is reused without being reopened; an unreadable file raises; a new image is cached; the result renders the cropped image |
| ImagesExtension.Images.RenderImage | psbs/extensions/images.py:75-100 | from the cropped image on, computes `Render` |
| ImagesExtension.Render | psbs/extensions/images.py:75-100 | the cropped image renders unless it has width 0, where `textwrap.wrap` raises `ValueError` |
| ImagesExtension.Images.FinalSprite | psbs/extensions/images.py:75-94 | the first pass and, when there are too many colours, the quantized second pass |
| Palettes.ListedPalettesExist | psbs/extensions/tiled.py:419-434 | every name in the numbered list has a palette |
| Tiled.PyIndex | psbs/extensions/tiled.py:436-439 | an index succeeds exactly in Python's range `-len <= i < len` |
| Tiled.PaletteNumbers | psbs/extensions/tiled.py:435-439 | numbers 1-14 select a listed palette; `0` selects the last one; larger numbers and names stay as they are |
| Tiled.UnknownPaletteFallsBack | psbs/extensions/tiled.py:440-442 | an unknown name selects `arnecolors` |
| Tiled.WithTransparent | psbs/extensions/tiled.py:443 | `transparent` is added as `#00000000`; every other name keeps its code |
| Tiled.PaletteFor | psbs/extensions/tiled.py:487-489 | a bare `color_palette` keyword selects no palette; any value selects one mapping `transparent` to `#00000000` |
| Tiled.ResolveColor | psbs/extensions/tiled.py:444-446 | a colour is replaced only by its own palette entry, and only when it does not start with `#` |
| Tiled.ColorResolution | psbs/extensions/tiled.py:443-446 | `transparent` is `#00000000`; `#…` passes; a palette name becomes its code; unknown names pass through |
| Tiled.DecodeChar | psbs/extensions/tiled.py:41-47 | a character decodes exactly when it is a letter, `.` or a digit, to an index from -1 to 35 |
| Tiled.DecodeInvertsSpriteChar | psbs/extensions/tiled.py:41-47 | decoding the images extension's character for an index gives that index |
| Tiled.SpriteCharInvertsDecode | psbs/extensions/tiled.py:41-47 | every decodable character is the character written for its index, up to letter case |
| Tiled.Copies | psbs/extensions/tiled.py:28 | `[s] * n` is `n` copies of `s` |
| Tiled.FirstNewline | psbs/extensions/tiled.py:30 | the position of the first newline |
| Tiled.ResolveColours | psbs/extensions/tiled.py:31-35 | the loop resolves every colour word against the palette |
| Tiled.ObjectToPixels | psbs/extensions/tiled.py:23-50 | the method computes `ObjectPixels`: the colour line, then one list of colours per sprite row |
| Tiled.ObjectPixels | psbs/extensions/tiled.py:23-49 | with a colour word and no palette the call fails; a decoded object has one row per sprite line |
| Tiled.GridPixels | psbs/extensions/tiled.py:37-49 | a decoded grid has one row per line |
| Tiled.LinePixels | psbs/extensions/tiled.py:38-48 | the loop decodes one row |
| Tiled.RowStops | psbs/extensions/tiled.py:39-48 | once a row fails, the characters after it do not matter |
| Tiled.GridStops | psbs/extensions/tiled.py:37-49 | once a grid fails, the rows after it do not matter |
| Tiled.RowShape | psbs/extensions/tiled.py:38-48 | a decoded row has one colour per character, `colors[index + 1]` |
| Tiled.SpriteCharReadsBack | psbs/extensions/tiled.py:31-48 | the character written for a colour index reads back as that listed colour |
| Tiled.NoSpriteIsFirstColour | psbs/extensions/tiled.py:26-28 | an object without a sprite is `size` rows of `size` pixels of its first colour |
| Tiled.GridConstant | psbs/extensions/tiled.py:28 | copies of one decodable row decode to copies of its colours |
| Tiled.SplitRows | psbs/extensions/tiled.py:567 | `split(",\n")` yields at least one row |
| Tiled.SplitRowsNoComma | psbs/extensions/tiled.py:567 | text without `,` is one row |
| Tiled.ParseLevel | psbs/extensions/tiled.py:565-573 | no CSV text gives no output; otherwise the rows are converted |
| Tiled.LevelRows | psbs/extensions/tiled.py:568-572 | the row loop computes `LevelGlyphs` |
| Tiled.RowText | psbs/extensions/tiled.py:569-571 | the tile loop computes `RowGlyphs` |
| Tiled.LevelLines | psbs/extensions/tiled.py:565-573 | a converted level has one line per row |
| Tiled.LevelIsLines | psbs/extensions/tiled.py:565-573 | the output is the rows' glyph lines, each followed by a newline, and fails exactly when a row does |
| Tiled.LevelLineOfRow | psbs/extensions/tiled.py:568-572 | line `i` holds the glyphs of row `i` |
| Tiled.SingleTileLevel | psbs/extensions/tiled.py:565-573 | gid `t` gives `tileset[str(t - 1)]` and a newline, or `KeyError` |
| Tiled.SpriteSizeOption | psbs/extensions/tiled.py:483-486 | `sprite_size n` gives `n`; any other text or no option gives 5; a bare keyword raises |
| Tiled.TilesNumbered | psbs/extensions/tiled.py:506-536 | tile `i` is glyph `i`, with id `i` and file `images/<i>.png` |
| Tiled.TileFilesDistinct | psbs/extensions/tiled.py:533 | different ids give different files |
| Tiled.DrawStack | psbs/extensions/tiled.py:509-522 | drawing a stack fails on its first undrawable object |
| Tiled.DrawTile | psbs/extensions/tiled.py:508-522 | one glyph's tile fails on an empty stack or an undrawable object |
| Tiled.TileEntries | psbs/extensions/tiled.py:506-536 | the glyph loop computes `TilesFor` |
| Tiled.WriteTilesetFiles | psbs/extensions/tiled.py:481-541 | the source passes through unchanged whenever the call returns; the tileset written is `TilesetOf` the prelude options and glyphs |
| Tiled.TilesetOf | psbs/extensions/tiled.py:481-541 | a bare `sprite_size` raises; without `generate_tileset` nothing is written; a `ParseError` of `get_glyphs` writes nothing, any other error propagates; a tileset is written only from glyphs |
| Tiled.TilesetNumbered | psbs/extensions/tiled.py:506-536 | a written tileset numbers every glyph in key order from 0, each with its own file |
| Config.Coerced | psbs/config.py:61-64 | a string for a list setting becomes a one-element list; `None` for a string setting becomes `""`; other values are unchanged |
| Config.UpdateDictValues | psbs/config.py:50-73 | the loop and the recursion compute `MergeDict` on both dictionaries |
| Config.UpdateKey | psbs/config.py:53-73 | one key computes `MergeValue` |
| Config.VisitedStep | psbs/config.py:51-53 | visiting a key rewrites that key alone, and only if the update has it |
| Config.MergeKeepsShape | psbs/config.py:55-67 | every setting keeps its exact type and every nested table its keys, at any depth |
| Config.MergeKeepsKeys | psbs/config.py:51-53 | the target gains and loses no key; keys only the update has are ignored |
| Config.MergeUntouched | psbs/config.py:51-53 | a setting the document does not mention keeps its default |
| Config.ListFromString | psbs/config.py:61-62 | a string for a list setting becomes a one-element list in both dictionaries |
| Config.StringFromNone | psbs/config.py:63-64 | `None` for a string setting becomes `""` in both dictionaries |
| Config.ExactTypeOrDefault | psbs/config.py:65-73 | a value of the exact default type replaces it, any other is ignored, and the update keeps the coerced value |
| Config.MergeStable | psbs/config.py:50-73 | merging the merged result with the rewritten document changes neither |
| Config.Defaults | psbs/config.py:30-35 | the four default keys in order, with their values |
| Config.Update | psbs/config.py:37 | `dict.update` keeps the dict valid and well formed |
| Config.UpdateLookup | psbs/config.py:47 | after `update`, the keys of both are present and the other dict's values win |
| Config.GetConfig | psbs/config.py:13-77 | no file gives the extended defaults; a non-mapping document raises; otherwise the merged table |
| Config.WithExtensions | psbs/config.py:37 | adding the extension tables keeps the table well formed |
| Extensions.DefaultedConfig | psbs/extension.py:49-52 | the configuration has exactly the keys of `get_config()`, in its order |
| Extensions.DefaultedValue | psbs/extension.py:49-52 | a missing or `None` user value gets the default; any other user value is kept |
| Extensions.ExtraSettingsDropped | psbs/extension.py:49-52 | user keys the extension does not declare are dropped |
| Extensions.SetDefault | psbs/extension.py:62 | `setdefault` keeps the dict valid |
| Extensions.Registered | psbs/extension.py:54-62 | a registration table is a valid dict |
| Extensions.FirstRegistrationWins | psbs/extension.py:62 | the first function registered under a name is the one kept |
| Extensions.RegisteredNames | psbs/extension.py:62 | a name is registered exactly when some call registered it |
| Extensions.Extension.constructor | psbs/extension.py:44-52 | every table starts empty and the configuration is defaulted |
| Extensions.Extension.Register | psbs/extension.py:54-62 | `register` is `setdefault` on the methods table |
| Extensions.Extension.RegisterFilter | psbs/extension.py:64-72 | `register_filter` is `setdefault` on the filters table |
| Extensions.Extension.RegisterPost | psbs/extension.py:74-81 | `register_post` appends, keeping duplicates |
| Extensions.BaseConfig | psbs/extension.py:83-95 | the base class declares no settings |
| Extensions.UserExtensionList | psbs/extension.py:117-120 | a string becomes a one-element list, a list is kept, and anything else becomes empty |
| Extensions.ConfigEntries | psbs/extension.py:147-149 | one entry per class, present exactly when its table is non-empty |
| Extensions.GetExtensionConfigs | psbs/extension.py:134-150 | the loop computes the dict of those entries |
| Extensions.ExtensionConfigsSelect | psbs/extension.py:146-150 | a class name is a key exactly when a class of that name has a non-empty table, and it maps to the last such table |

## Left out

- The network, file-system, browser and command-line parts of PSBS: psbs/gister.py, psbs/htmlbuilder.py, psbs/project.py, psbs/token.py, psbs/psbs.py, psbs/__main__.py and setup.py. They are I/O. psbs/errors.py is one exception class. None of them is part of this model.
- psbs/utils.py apart from `url_join`: file, YAML and browser I/O. `read_yaml` is the parameter `loaded` of `Config.GetConfig`.
- psbs/extensions/build.py: it only binds Jinja globals.
- The Jinja environment and `Template.render`: library code.
  - Template.Template.constructor keeps only the post-processing list.
  - The `config.setdefault` and the extension instances it makes are not modelled.
- `Extension.get_extensions`: it imports modules. Its result is a parameter: a list of (class name, `get_config()`) pairs.
  - `Extensions.UserExtensionList` models only the normalisation of its argument.
- `Filters.wrap_to_width`: it passes its text through `textwrap.wrap`. Only fixed-width wrapping of whitespace-free sprites is modelled, as `Images.Wrap`.
- The image library: opening, converting, cropping, quantizing, pasting and saving images, and `ImageColor.getcolor`. Pixels are a sequence of RGBA tuples. `open`, `crop` and `quantize` are function parameters, and a colour stays the text it resolves to. The tileset XML, and reading the Tiled level and tileset files, are left out. `Tiled.ParseLevel` starts from the CSV text and the tileset dict.
- Tiled.DrawStack: pasting overlays is not modelled. Only whether each object of the stack can be drawn is.
- Tiled.ObjectPixels: the final `Image.fromarray(array(image_list, dtype=uint8), mode="RGBA")` (psbs/extensions/tiled.py:49) is not modelled. The grid is returned as colour texts. So numpy's `ValueError` for sprite rows of unequal length, and `fromarray`'s checks on the array's shape, are not modelled; such a sprite decodes here.
- The `print` warnings. A skipped record or a kept default is the observable result.
- Regular expressions. The header, legend, connector, blank-line, layer and engine patterns are written out as scanners over `seq<char>`.
- Case folding and whitespace are ASCII only. `splitlines` splits at `\n` only.
- Resolve.ResolveDict: the source loops until a pass changes nothing. The model allows `fuel` passes and returns `None` when they run out. `Resolve.CycleNeverResolves` shows that the source does not terminate on the table `a = a`. `Resolve.FixedPointNeverResolves` extends this to any table that a pass gives back unchanged while reporting a change. Other cyclic legends are not covered.
- Glyphs.GetGlyphs: the same `fuel` bounds each table resolution. `Unresolved` stands for the non-terminating loop. The same holds for Parser.PSParser.GetGlyphs and Tiled.WriteTilesetFiles.
- Config.UpdateDictValues: the in-place updates of `target_dict` and `update_dict` are modelled on values. The method returns both dictionaries as the call leaves them. Aliasing between nested dictionaries is not modelled.
- Config.Value: YAML floats, dates and other scalar types are not modelled.
- ImagesExtension.Images.PixelListToSprite: images are limited to 55000 pixels so that the letter a colour index is written as stays a Dafny `char`. Python has no such limit.
- Glyphs.SortByRank: `list.sort` is modelled as a stable insertion sort on values. Sorting in place is not modelled. `Glyphs.SharedListHarmless` covers the one aliasing the source has.

## Findings

| source | as written | input that shows it | evidently intended | confidence | as-written member | corrected member |
|---|---|---|---|---|---|---|
| psbs/psparser.py:238 | `name, colors, *body = object_str.splitlines()` raises `ValueError` for a record of fewer than two lines. Only `IndexError` is caught (line 266), so the whole parse aborts. | an OBJECTS section whose record is the single line `player`, with no colour line | the record is skipped with the warning, as the `except` clause and its "incomplete object strings" comment intend | not executed | Objects.ParseRecordAsWritten, Objects.SingleLineRecordAborts | Objects.ParseRecord, Objects.SingleLineRecordSkipped |
| psbs/psparser.py:327-329 | `synonyms.get(synonym, synonym)` looks up the key itself, which is always present. The "resolve synonyms" step is the identity. | the legend `q = p` and `p = player`, over an object `player` | each value is looked up once more, so that `q` names `player` | not executed | Legend.ResolveSynonymsAsWritten, Legend.AsWrittenIsIdentity, Legend.ChainCounterexample | Legend.ResolveSynonyms, Legend.SynonymChainResolved |

`get_objects`, `get_glyphs` and the Tiled extension are modelled on the members in the as-written column, as the code behaves. The members in the corrected column state the intended behaviour and are proved beside them.
