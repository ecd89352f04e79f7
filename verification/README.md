# gulp-wp-pot in Dafny

A model of `wpPot`, the gulp plugin that reads WordPress PHP sources, finds
the calls to the translation functions (`__`, `_e`, `_x`, `_n`, `_nx`,
`_n_noop`, `_nx_noop`) and writes one gettext POT template for the whole run.
The model covers the behaviour that `test.js` asserts; the implementation
file `index.js` is not modelled.

The pipeline, one module per stage:

- `Text`: the string toolkit.
  - Trimming and substring search. `IndexOf` is JavaScript's `indexOf`.
  - `NumberOfMatches` is the test's non-overlapping match count.
  - Line joining and decimal numerals.
- `Literal`: decoding of PHP quoted literals.
  - Single quotes know only `\\` and `\'`.
  - Double quotes turn `\"` into `"`.
  - Raw newlines stay newlines.
  - The domain argument is kept as its raw token, without its quotes when it is a literal.
- `Scanner`: a state machine for code, single-quoted and double-quoted text, at a parenthesis depth.
  - It finds a call's closing parenthesis.
  - It splits the argument text at top-level commas.
  - It trims every argument and strips one layer of wrapping parentheses.
- `Extractor`: the signature table of the seven functions.
  - A call is recognised anywhere, including inside another call, when the name is not part of a longer identifier and is followed by `(`.
  - Arguments are mapped to roles and the count argument is skipped.
  - The record carries the 1-based line of the call.
- `CatalogBuilder`: the domain filter and deduplication.
  - The filter compares raw tokens exactly.
  - Entries are keyed on (context, msgid) in first-encounter order.
  - An entry keeps the first plural it is given.
  - Occurrences are recorded once each.
- `Pot`: the renderer, after chapter 3 "The Format of PO Files" of the GNU gettext manual.
  - Escaping of `\`, `"`, tab and newline.
  - The multi-line `msgid ""` form.
  - `#: path:line` comments with `\` turned into `/`.
  - A full, minimal or custom header.
- `Pipeline`: the entry point and the whole run.
  - A missing argument means the default configuration.
  - A non-object argument is refused with `Require a argument of type object.`
- `Sources` and `Scenarios`: the scenarios of `test.js`.
  - Each scenario is stated once for all texts of its shape, then for the test's own literals.

## Model

| member | source | states |
|---|---|---|
| Text.NumberOfMatches | test.js:9-11 | the count of non-overlapping matches of a needle never exceeds the haystack length divided by the needle length |
| Text.NoMatchesWhenAbsent | test.js:9-11 | a needle that does not occur is matched zero times |
| Text.MatchesCountLines | test.js:9-11 | in newline-joined lines, a needle that ends in a newline is matched once per line that ends with the rest of the needle |
| Text.IndexOf | test.js:34 | `indexOf` is -1 exactly when the needle does not occur; otherwise it is the first position where it occurs |
| Pipeline.Run | test.js:14-20 | a run is refused exactly when the argument is not an object, and then with the message the test expects |
| Pipeline.RefusedBeforeInput | test.js:14-20 | the refusal does not depend on the files or the date, so no input is read before the argument check |
| Pipeline.MissingIsDefault | test.js:298 | calling the plugin without an argument is calling it with the default configuration; a configuration object is used as given |
| Pipeline.ExtractAllAppend | test.js:37 | extraction works file by file: the records of two batches of files are those of the first batch followed by those of the second |
| Pipeline.ExtractAllPaths | test.js:378-392 | every record names a file of the run |
| Pipeline.GenerateShowsMsgid | test.js:34 | every admitted record's text appears in the template as a msgid |
| Pipeline.GenerateShowsContext | test.js:54 | every admitted record's context appears in the template as a msgctxt |
| Pipeline.GenerateShowsPlural | test.js:74 | the plural of the first admitted record of a key that has one appears as a msgid_plural |
| Pipeline.GenerateDropsFiltered | test.js:241-273 | a key that only records refused by the domain filter carry has no entry |
| Literal.DecodeEncodeSingle | test.js:103-121 | decoding a single-quoted body after escaping `\` and `'` gives back the text |
| Literal.SingleQuotedRoundTrip | test.js:103-121 | every text written as a single-quoted PHP literal is read back as that text |
| Literal.DecodeEncodeDouble | test.js:143-161 | decoding a double-quoted body after escaping `"` gives back any backslash-free text |
| Literal.DoubleQuotedRoundTrip | test.js:143-161 | every backslash-free text written as a double-quoted PHP literal is read back as that text |
| Literal.QuotingIrrelevant | test.js:123-161 | a backslash-free text reads the same whether it is written in single or double quotes |
| Literal.DecodePlain | test.js:26 | a literal body without backslashes stands for itself under either quoting grammar |
| Literal.Unquote | test.js:123-141 | a token has a text exactly when it is a quoted literal, and a body without backslashes is its own text |
| Literal.DomainMatches | test.js:241-273 | a domain free of quotes and backslashes is matched by exactly three spellings of the argument: bare (`$test`, `TEST`), single-quoted and double-quoted |
| Scanner.SeekHits | test.js:63 | the search for a call's closing parenthesis or an argument's comma stops at the first one at depth zero outside literals, and at no earlier position |
| Scanner.SplitJoin | test.js:63 | splitting at top-level commas and joining again with commas gives back the argument text |
| Scanner.JoinSplit | test.js:63 | arguments free of top-level commas, joined with commas, split back into the same arguments |
| Scanner.ArgList | test.js:183-201 | arguments joined with commas split into the arguments trimmed of surrounding spaces, tabs and newlines |
| Scanner.CleanWrapped | test.js:163-181 | an argument written as `(x)` between spaces, tabs or newlines, with no top-level `)` inside `x`, stands for `x` trimmed |
| Scanner.RunAppend | test.js:163-201 | the scanner state after two pieces of text is the state after the second, started from the state after the first |
| Extractor.AssignAccepts | test.js:61-101 | a call's arguments fill its signature exactly when every text, plural and context role gets a quoted literal; a missing domain is allowed |
| Extractor.AssignPlaces | test.js:203-219 | each role of a signature takes the decoded literal, or for the domain the raw token, at its own position; count positions are skipped |
| Extractor.AssignKeeps | test.js:24-39 | roles a signature lacks leave the record's field unset |
| Extractor.ExtractOrdered | test.js:392 | every record of a file carries a line between 1 and the file's line count, and records come in line order |
| Extractor.RecordsPath | test.js:378-392 | every record of a file names that file |
| Extractor.CallsShift | test.js:61-79 | the calls found in the rest of a file, from a point that does not cut a name, are the calls of that rest read alone with their lines moved down by the newlines before it |
| CatalogBuilder.IngestKeys | test.js:221-237 | folding in a record adds its key at the end exactly when the record is admitted and the key is new; otherwise the keys stay as they were |
| CatalogBuilder.IngestUnique | test.js:221-237 | folding in a record never gives a key a second entry |
| CatalogBuilder.Merge | test.js:221-237 | merging keeps the key, keeps the existing plural or takes the record's, and appends the record's occurrence at the end unless it is already listed, keeping the earlier occurrences in order |
| CatalogBuilder.BuildKeys | test.js:221-237 | the entries of a run are the keys of the admitted records, each once, in first-encounter order |
| CatalogBuilder.BuildUnique | test.js:221-237 | no key has two entries |
| CatalogBuilder.BuildEntries | test.js:221-237 | each entry's occurrences are the distinct places of its key's admitted records, and its plural is the first plural among them |
| Pot.EscapeRoundTrip | test.js:136 | POT escaping is undone by unescaping, so no text is lost or changed |
| Pot.EscapeSafe | test.js:176 | escaped text holds no raw newline and no unescaped double quote |
| Pot.QuoteRoundTrip | test.js:136 | a quoted POT string reads back as its text |
| Pot.StringLinesRoundTrip | test.js:176 | the one-line or multi-line POT form of a text reads back as that text |
| Pot.PiecesJoin | test.js:176 | the pieces of a multi-line text, each ending at a newline, join back into the text |
| Pot.NormaliseSeparators | test.js:398-418 | two paths that differ only in `/` against `\` are written alike, and a written path holds no backslash |
| Pot.NormaliseIdempotent | test.js:398-418 | normalising a path twice is normalising it once |
| Pot.RefRoundTrip | test.js:392 | an occurrence comment `path:line` reads back as the normalised path and the line |
| Text.DecimalRoundTrip | test.js:392 | a line number written in decimal reads back as that number |
| Pot.EntryShowsMsgid | test.js:34 | an entry's text shows its msgid lines |
| Pot.EntryShowsPlural | test.js:74 | an entry with a plural shows its msgid_plural lines |
| Pot.RenderShowsField | test.js:325 | every header field appears in the template as `Name: value\n` |
| Pot.HeaderCount | test.js:231-232 | no header line ends with a keyword line such as `msgid "…"`, so header lines add nothing to those counts |
| Pot.RenderLacks | test.js:369 | a character absent from the configuration, the paths and the texts, and from the fixed template text, is absent from the template |
| Scenarios.EMsgid | test.js:24-39 | `_e( "text", "domain" )` under that domain yields `msgid "text"` |
| Scenarios.GeneratesMsgid | test.js:24-39 | the first generate test: `msgid "Name"\n` is found |
| Scenarios.XContext | test.js:41-59 | `_x( "text", "ctx", "domain" )` yields `msgctxt "ctx"` |
| Scenarios.GeneratesContext | test.js:41-59 | the context test: `msgctxt "the name"\n` is found |
| Scenarios.NPlural | test.js:61-79 | `_n` nested in `sprintf( … )` is found, its count skipped, and its plural written as msgid_plural |
| Scenarios.GeneratesPlural | test.js:61-79 | the plural test: `msgid_plural "%s stars"\n` is found |
| Scenarios.NxLines | test.js:81-101 | `_nx` yields msgctxt, msgid and msgid_plural |
| Scenarios.GeneratesPluralContext | test.js:81-101 | the plural-with-context test: all three lines are found |
| Scenarios.ApostropheMsgid | test.js:103-121 | an escaped apostrophe in a single-quoted literal becomes a plain apostrophe in the msgid |
| Scenarios.GeneratesApostrophe | test.js:103-121 | the escaped single quote test: `msgid "It's escaped"\n` is found |
| Scenarios.InnerQuotesMsgid | test.js:123-141 | double quotes inside a single-quoted literal are escaped once in the msgid |
| Scenarios.GeneratesInnerQuotes | test.js:123-141 | the unescaped double quotes test: `msgid "Hello \"World\""\n` is found |
| Scenarios.EscapedQuotesMsgid | test.js:143-161 | escaped double quotes in a double-quoted literal are escaped once in the msgid |
| Scenarios.GeneratesEscapedQuotes | test.js:143-161 | the escaped double quotes test: the same msgid line as the previous test is found |
| Scenarios.WrappedMsgid | test.js:163-181 | a literal with a raw newline, inside extra parentheses, is written as `msgid ""` and one quoted line per piece |
| Scenarios.GeneratesWrapped | test.js:163-181 | the line break in argument test: `msgid ""\n"Hello\n"\n"World"\n` is found |
| Scenarios.SpreadMsgid | test.js:183-201 | newlines and tabs around the arguments of a call are not part of them |
| Scenarios.GeneratesSpread | test.js:183-201 | the line breaks in call test: `msgid "Hello World"\n` is found |
| Scenarios.NoopLines | test.js:203-219 | `_n_noop` yields msgid and msgid_plural with no count argument |
| Scenarios.GeneratesNoop | test.js:203-219 | the noop test: both lines are found |
| Scenarios.DupCatalog | test.js:221-237 | `_e` and `_n_noop` with the same text make one entry that carries the plural and one occurrence |
| Scenarios.KeywordLineTail | test.js:221-237 | a `kw "text"` line can end with another keyword's line only when the first keyword ends with the second, so `msgid_plural` lines never count as `msgid` lines |
| Scenarios.DupCounts | test.js:221-237 | for duplicated text the template holds exactly one msgid line and exactly one msgid_plural line |
| Scenarios.GeneratesOnce | test.js:221-237 | the duplicated strings test: each needle is matched exactly once |
| Scenarios.BareMsgid | test.js:241-273 | a bare domain token (a variable or a constant) matches a filter with the same spelling |
| Scenarios.DomainVariable | test.js:241-256 | the domain variable test: `$test` matches the filter `$test` |
| Scenarios.DomainConstant | test.js:258-273 | the domain constant test: `TEST` matches the filter `TEST` |
| Scenarios.NxNoopLines | test.js:275-292 | `_nx_noop` with a constant domain yields msgctxt, msgid and msgid_plural |
| Scenarios.GeneratesNoopContext | test.js:275-292 | the noop with context test: all three lines are found |
| Scenarios.NoDomainMsgids | test.js:294-308 | without a configuration, calls of every domain are kept |
| Scenarios.GeneratesWithoutDomain | test.js:294-308 | the no domain test: both msgids are found |
| Scenarios.CharsetField | test.js:311-330 | every full header holds `X-Poedit-SourceCharset: UTF-8\n` |
| Scenarios.GeneratesCharset | test.js:311-330 | the default headers test |
| Scenarios.CustomField | test.js:332-353 | every custom header field appears as `Name: value\n` |
| Scenarios.GeneratesCustomField | test.js:332-353 | the custom headers test: `Hello-World: This is a test\n` is found |
| Scenarios.MinimalHidesKeywords | test.js:355-374 | a minimal header has no `X-Poedit-KeywordsList` |
| Scenarios.GeneratesWithoutKeywords | test.js:355-374 | the headers-false test |
| Scenarios.PathComment | test.js:377-397 | the occurrence comment of a call on the first line is `#: <normalised path>:1` |
| Scenarios.GeneratesPathComment | test.js:377-397 | the file path test: `#: test/test.php:1` is found |
| Scenarios.GeneratesWindowsPathComment | test.js:398-418 | the Windows path test: `test\test.php` is also written `#: test/test.php:1` |

## Left out

- The vinyl `File`, the `Buffer`, the stream's `write`/`end`/`data` events and the mocha harness are left out. They are I/O and callback plumbing: a run takes the files as (path, contents) pairs and returns the template text.
- `POT-Creation-Date` comes from the clock, so the date is a parameter of every run.
- `index.js` is not modelled. Header fields that `test.js` does not check follow the usual WordPress layout.
- `numberOfMatches` builds a `RegExp` from the needle. The model counts non-overlapping plain substrings. This is the same for the test's needles, which hold no regular-expression metacharacter other than `%`, and `%` is literal.
- Whether a JavaScript `null` counts as "not an object" is not modelled. The argument is missing, a configuration record, or something else.
- Double-quoted literals decode only `\"`. Other PHP escapes and variable interpolation are kept verbatim, since no test touches them.
- Scenarios.EMsgid: like every generic scenario lemma, it assumes texts and domains that are `Simple`: no quote of either kind, no backslash, tab, newline or underscore. The test literals meet this, except the ones with escapes or newlines, which have lemmas of their own.
- Scenarios.DupCounts: requires a path without newlines and non-empty texts, because a raw newline in a path would add a line to the template.
- Scenarios.MinimalHidesKeywords: requires that the texts, the path, the date and the configuration hold no `X`. This is how the proof shows the keyword field is absent, so it is weaker than "absent whatever the texts are".
- Scenarios.GeneratesOnce: holds for any path without newlines, while the test uses vinyl's default path.
- Scenarios.GeneratesWithoutKeywords: holds for any path and date without an `X`.
