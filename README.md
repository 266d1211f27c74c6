# I18n message extractor — a Dafny model

This project models the message extractor of the CakePHP i18n plugin's
`i18n extract` console command (`I18nExtractCommand`). The command reads PHP
source files as token lists. It finds calls to the eight translation markers
(`__`, `__n`, `__d`, `__dn`, `__x`, `__xn`, `__dx`, `__dxn`) and pulls out
their literal arguments. A call whose arguments cannot be read is reported
as a marker error. The command then saves every message, once per locale,
into a translation table.

Modules:

- `Wrappers`: an `Option` datatype.
- `Text`: PHP string helpers:
  - `explode` and `implode`;
  - `str_replace`, with the empty-search case;
  - decimal rendering of line numbers;
  - `array_unique`;
  - a stable sort by length.
- `Escapes`: `_formatString`:
  - `stripcslashes` for double-quoted literals, with octal, hex and letter escapes;
  - the two-escape `strtr` for single-quoted literals;
  - CRLF to LF;
  - `addcslashes($s, "\0..\37\\\"")`.
- `Tokens`: the token datatype (a bare punctuation character, or a kind/text/line triple), the whitespace and inline-HTML filter, and the marker table.
- `Arguments`: `_getStrings` as a specification function over the tokens. It keeps the source's quirks:
  - the count is read before the append, so the count lags;
  - a past-the-end token acts as a stop;
  - a `.`-joined run of literals becomes one value.

  This is the code as written, and `_parse`'s model reads arguments with it. The module also holds the corrected loop `CollectIntended` that the finding below describes; the corrected outcome of a call site (`Scan.SiteAtIntended`) and the method `GetStringsIntended` are built on it.
- `Scan`: what `_parse` does for one marker:
  - the call sites it visits;
  - the outcome of each site;
  - how values bind to roles;
  - the diagnostic `_markerError` prints;
  - the effects on the aggregator calls, the error counter and the error stream.
- `Persistence`: the record store as a class over a list of six-field records, and the check-then-insert of `_save`.
- `Messages`: `_saveMessages`:
  - the reference strings;
  - the strip list sorted by length;
  - the domain filter and merging;
  - the null conversions;
  - the resulting sequence of `_save` calls.
- `Languages`: `_getLanguages`, including `Hash::normalize` (first position, last value).
- `Search`: the exclude filter of `_searchFiles`, applied to given file listings, followed by `array_unique`.
- `Command`: the class `ExtractCommand`. Its fields are `_files`, `_file`, `_tokens`, `_countMarkerError` and `_languages`, plus two logs:
  - the calls handed to `_addTranslation`;
  - the writes to the error stream.

  Its methods are the imperative parts of the command:
  - the scan loop, the argument loop and the marker-error loop;
  - the save loops;
  - the language list.

  Each method is proved against the specification functions of the modules above.

## Model

| member | source | states |
|---|---|---|
| Text.Explode | src/Command/I18nExtractCommand.php:168 | `Explode` (PHP `explode`) always yields at least one piece, and the first piece is a prefix of the subject |
| Text.ExplodePiecesAvoidSeparator | src/Command/I18nExtractCommand.php:168 | no piece produced by `explode` contains the separator |
| Text.JoinExplode | src/Command/I18nExtractCommand.php:168 | `Join` (`implode`) undoes `Explode`: `implode(sep, explode(sep, s)) == s` for every non-empty separator |
| Text.ReplaceAllIsJoinOfExplode | src/Command/I18nExtractCommand.php:230-231 | `ReplaceAll` (the left-to-right scan of `str_replace` for a non-empty search, wrapped by `StrReplace`) equals exploding on the search string and imploding with the replacement |
| Text.ReplaceAllAbsent | src/Command/I18nExtractCommand.php:518 | `ReplaceAll` of a string that does not occur (`Contains` is false) changes nothing |
| Text.ReplaceCharRemovesIt | src/Command/I18nExtractCommand.php:231 | after replacing a character by a string that does not contain it, the character no longer occurs |
| Text.NatToString | src/Command/I18nExtractCommand.php:227 | a line number renders as a non-empty string of decimal digits |
| Text.NatToStringReadsBack | src/Command/I18nExtractCommand.php:227 | the decimal rendering of a line number reads back as that number, so the rendering is injective |
| Text.Unique | src/Command/I18nExtractCommand.php:226 | `array_unique` keeps exactly the elements of its input and no duplicates; their order is stated by `UniqueKeepsFirstOccurrences` |
| Text.FirstIndex | src/Command/I18nExtractCommand.php:226 | the first position of a value in a list: it holds the value and no earlier position does |
| Text.UniqueKeepsFirstOccurrences | src/Command/I18nExtractCommand.php:226 | `array_unique` keeps each value at its first occurrence: the values come out in the order in which they first appear |
| Text.InsertByLength | src/Command/I18nExtractCommand.php:201-203 | one insertion step of the sort adds exactly the inserted path |
| Text.InsertKeepsSorted | src/Command/I18nExtractCommand.php:201-203 | inserting into a list sorted by length keeps it sorted by length |
| Text.SortByLength | src/Command/I18nExtractCommand.php:201-203 | the `usort` by `strlen` result is sorted by length and is a permutation of its input |
| Escapes.Octal3 | src/Command/I18nExtractCommand.php:520 | the three-digit octal escape of a byte consists of octal digits whose value is the byte |
| Escapes.EscapeCharPrintable | src/Command/I18nExtractCommand.php:520 | the escape of any one character contains no control byte below 32 |
| Escapes.AddCSlashesPrintable | src/Command/I18nExtractCommand.php:520 | `addcslashes` with the range `\0..\37` leaves no byte below 32 in its result |
| Escapes.AddCSlashesWellEscaped | src/Command/I18nExtractCommand.php:520 | in the `addcslashes` result every backslash starts an escape and every double quote is escaped |
| Escapes.StripEscapeChar | src/Command/I18nExtractCommand.php:514-520 | `StripCSlashes` (`stripcslashes`) decodes the escape `EscapeChar` writes for any one character (`addcslashes` per character) back to that character |
| Escapes.StripAddCSlashes | src/Command/I18nExtractCommand.php:514-520 | `StripCSlashes(AddCSlashes(s)) == s`: the stored form decodes to the text it was made from |
| Escapes.UnescapeEscapeSingle | src/Command/I18nExtractCommand.php:516 | `UnescapeSingle` (the `strtr` with only `\'` and `\\`) inverts escaping of backslashes and single quotes |
| Escapes.UnescapeSinglePlain | src/Command/I18nExtractCommand.php:516 | a single-quoted body without backslashes is taken unchanged |
| Escapes.FormatStringStorageSafe | src/Command/I18nExtractCommand.php:509-521 | `FormatString` (`_formatString`: `Decoded` picks the unescape by the first character, then CRLF to LF, then `AddCSlashes`) has no control byte, is well escaped, and decodes to the unescaped body with CRLF turned into LF |
| Tokens.Significant | src/Command/I18nExtractCommand.php:376-381 | the kept tokens are exactly the input tokens that are not whitespace or inline HTML, and there are no more of them than input tokens; their order is stated by `SignificantAppend` |
| Tokens.SignificantAppend | src/Command/I18nExtractCommand.php:376-381 | the filter goes token by token and keeps the order: filtering a concatenation filters each part; with `SignificantOne` (a token is kept exactly when `Kept`), this fixes the result as the in-order subsequence of kept tokens |
| Tokens.MarkerTableWellFormed | src/Command/I18nExtractCommand.php:353-362 | the table has eight markers, and each has one to four distinct roles including the singular; used by `MarkerBindsByPosition` |
| Arguments.RunEnd | src/Command/I18nExtractCommand.php:482-490 | the inner loop ends within the tokens, and it moves on whenever it starts on a literal or a `.` |
| Arguments.RunCoversStretch | src/Command/I18nExtractCommand.php:482-490 | every token the inner loop passes is a literal or `.`, and the token it stops at is neither |
| Arguments.CollectGrows | src/Command/I18nExtractCommand.php:491-496 | `Collect` (the outer loop of `_getStrings`) only appends: the strings found so far stay a prefix of the result |
| Arguments.CollectBound | src/Command/I18nExtractCommand.php:472-479 | because the count lags one append behind, the loop can return at most target + 1 values |
| Arguments.StringsFromBound | src/Command/I18nExtractCommand.php:472-479 | `StringsFrom` (`_getStrings`) returns at most target + 1 values; `RunThenArgumentOvershoots` shows the bound is reached |
| Arguments.FirstValue | src/Command/I18nExtractCommand.php:480-491 | a `.`-joined run of literals at the start becomes the first value: the concatenation of the formatted pieces up to the first token that is neither a literal nor `.` |
| Arguments.Values | src/Command/I18nExtractCommand.php:492-496 | k plain arguments give k values |
| Arguments.ValuesAreArguments | src/Command/I18nExtractCommand.php:492-496 | the j-th value is the formatted j-th literal or the text of the j-th integer |
| Arguments.NoDotAfterArgument | src/Command/I18nExtractCommand.php:480 | in a comma-separated argument list, no plain argument is followed by `.` |
| Arguments.PlainValueStep | src/Command/I18nExtractCommand.php:492-497 | reading the j-th plain argument appends the j-th value |
| Arguments.PlainArgumentStep | src/Command/I18nExtractCommand.php:472-498 | reading the j-th plain argument and the comma after it leads to the state for argument j + 1 |
| Arguments.PlainArgumentsEnd | src/Command/I18nExtractCommand.php:472-498 | after the last argument, or once the target is reached, the values so far are the result |
| Arguments.CollectPlain | src/Command/I18nExtractCommand.php:472-498 | from argument j of a comma-separated list on, the result is the first min(k, target) values |
| Arguments.PlainArgumentsExtracted | src/Command/I18nExtractCommand.php:472-498 | for k comma-separated literal or integer arguments, ending at the call's `)` or at a comma before an argument that is neither a literal nor an integer (`__n('a', 'b', $n)`), `StringsFrom` returns exactly the first min(k, target) of their values, with no extra value from the count lag |
| Arguments.RunThenArgumentOvershoots | src/Command/I18nExtractCommand.php:479-497 | as written, on `__('a' . 'b', 'c')` the loop with target 1 returns two values: the run skips the comma that would have absorbed the lag of `$count` |
| Arguments.ArgumentEnd | src/Command/I18nExtractCommand.php:480-497 | an argument ends after its `.`-joined run or after its single token, always past its start |
| Arguments.ArgumentTexts | src/Command/I18nExtractCommand.php:480-497 | an argument list of k arguments, runs included, has k values |
| Arguments.CollectIntendedArguments | src/Command/I18nExtractCommand.php:468-501 | `CollectIntended`, the corrected loop (stop once the target is reached; resume at the token that ended a run), appends from any point of an argument list exactly the next min(k, room) argument values |
| Arguments.ArgumentsExtractedIntended | src/Command/I18nExtractCommand.php:468-501 | with the corrected loop `StringsIntended`, k comma-separated arguments, runs included, ending at the call's `)` or at a comma before a non-literal argument, give exactly the first min(k, target) argument values |
| Arguments.PlainArgumentsAreList | src/Command/I18nExtractCommand.php:472-498 | k comma-separated literal or integer arguments form an argument list (`ArgumentList`) whose values are the plain values |
| Arguments.CorrectionAgreesWithoutRuns | src/Command/I18nExtractCommand.php:468-501 | on comma-separated lists of single literals or integers (`PlainArguments`: no `.` after any of them, ending at the call's `)` or at a comma before a non-literal argument), `_getStrings` as written (`StringsFrom`) and the corrected loop (`StringsIntended`) return the same values |
| Arguments.PluralWithCountExtracted | src/Command/I18nExtractCommand.php:468-501 | in `__n(a, b, $count)` the literal arguments end at the comma before `$count`, and both loops take exactly the two decoded literals |
| Arguments.RunThenArgumentIntended | src/Command/I18nExtractCommand.php:468-501 | the corrected loop takes from `__('a' . 'b', 'c')` the one value asked for: the joined run |
| Arguments.RunSkipValueFills | src/Command/I18nExtractCommand.php:479-497 | as written, a `.`-joined run, then any token, a comma, a literal or integer and a comma, yields two values with target 2: the `$position++` after the run skips the token that ended it, and the value after the next comma becomes the second value |
| Arguments.RunThenCloseReadsPastCall | src/Command/I18nExtractCommand.php:479-497 | as written, in `sprintf(__n('a' . 'b'), 'x', 3)` the loop skips the `)` that closes `__n` and takes `'x'`, an argument of `sprintf`, as the second value, stopping after the comma past it |
| Arguments.RunThenStopIntended | src/Command/I18nExtractCommand.php:468-501 | the corrected loop stops at the token that ends a run when that token is neither a comma, a literal nor an integer: the run is the only value and the position is that token |
| Arguments.RunThenCloseIntended | src/Command/I18nExtractCommand.php:468-501 | the corrected loop takes from `__n('a' . 'b')` only the joined run and stops at the `)` of the call |
| Scan.BoundByPosition | src/Command/I18nExtractCommand.php:437 | `extract(array_combine($map, $strings))` binds each role of the signature to the value at its position, and leaves every other role unbound |
| Scan.BindRoles | src/Command/I18nExtractCommand.php:435-451 | `Bind` (the `extract` and `$details` of a recorded call) takes each role's value by position. Domain defaults to `'default'` and singular to `''`. Plural and context are set only when bound. The line is the marker's line. `ReferenceFile`: with relative paths, the file is `'.'` plus the path with the root removed |
| Scan.MarkerBindsByPosition | src/Command/I18nExtractCommand.php:353-362 | for every marker of the table, each of its roles is bound to the value at that role's position, and the singular is always bound |
| Scan.SitesInOrder | src/Command/I18nExtractCommand.php:409-457 | the visited call sites come in strictly increasing index order, below the loop bound |
| Scan.SitesOutcomes | src/Command/I18nExtractCommand.php:419-455 | every visited site is a call site, and its outcome is the one `_parse` as written derives from its own tokens (`SiteAt`, extraction with `StringsFrom`) |
| Scan.SitesCoverCallSites | src/Command/I18nExtractCommand.php:409-457 | every call site below the bound is visited: the scan never skips ahead past a call |
| Scan.SitesAreTheCallSites | src/Command/I18nExtractCommand.php:409-457 | `Sites` (the indices `_parse` acts on) are exactly the call sites (the marker name as an identifier, then exactly `(`), each once, in increasing order, and each has the `SiteAt` outcome: argument extraction at i + 2 by `_getStrings` as written (`StringsFrom`), recorded when the value count equals the arity and a marker error otherwise |
| Scan.CallWithPlainArguments | src/Command/I18nExtractCommand.php:431-455 | as written (`SiteAt`): a call whose k comma-separated arguments are literals or integers, ending at the call's `)` or at a comma before a non-literal argument, is recorded exactly when k reaches the arity, binding the first arity values by role; otherwise it is a marker error |
| Scan.PluralWithCountRecorded | src/Command/I18nExtractCommand.php:431-451 | as written, `__n(a, b, $count)` is recorded with the decoded a as its message and the decoded b as its plural |
| Scan.CallWithArguments | src/Command/I18nExtractCommand.php:431-455 | `SiteAtIntended` (extraction from i + 2 with the corrected loop): a call whose k comma-separated arguments are literals, integers or `.`-joined runs, ending at the call's `)` or at a comma before a non-literal argument, is recorded exactly when k reaches the arity. The call then binds the first arity values by role; otherwise it is a marker error |
| Scan.RunThenArgumentMalformed | src/Command/I18nExtractCommand.php:431-455 | as written, `__('a' . 'b', 'c')` is a call site of `__` whose extracted value count differs from the arity, so its `SiteAt` outcome is a marker error |
| Scan.RunThenArgumentReported | src/Command/I18nExtractCommand.php:404-457 | scanning `__('a' . 'b', 'c')` for `__` adds no aggregator call, raises the marker-error counter by one unless the file is under the core include path, and writes the diagnostic only when the marker-error flag is on |
| Scan.RunThenArgumentRecorded | src/Command/I18nExtractCommand.php:431-455 | with the corrected extraction (`SiteAtIntended`), `__('a' . 'b', 'c')` is recorded, with the joined run as its singular |
| Scan.TwoValuesRecorded | src/Command/I18nExtractCommand.php:431-451 | a singular-and-plural call from which `_getStrings` takes two values is recorded with the first as message and the second as plural |
| Scan.RunSkipValueRecorded | src/Command/I18nExtractCommand.php:431-451 | as written, a `__n` call whose arguments start with a run, followed by any token, a comma, a literal or integer and a comma, is recorded with the run as singular and that value, read past the token that ended the run, as plural |
| Scan.RunThenCloseRecorded | src/Command/I18nExtractCommand.php:404-457 | as written, scanning for `__n` the tokens from `__n` to the end of `sprintf(__n('a' . 'b'), 'x', 3);` records one call with singular `'ab'` and plural `'x'` (the `sprintf` argument), and counts and writes no marker error |
| Scan.RunThenCloseMalformedIntended | src/Command/I18nExtractCommand.php:431-455 | with the corrected extraction, `__n('a' . 'b')` yields one value for arity 2 and is a marker error |
| Scan.EchoFrom | src/Command/I18nExtractCommand.php:548-562 | from any point of the echo loop, it writes the tokens up to the one that brings the depth back to 0, or up to the end |
| Scan.EchoSpan | src/Command/I18nExtractCommand.php:544-562 | `Echo` (the loop of `_markerError`) writes the tokens from i + 2 up to and including the `)` that closes the depth, or up to the end of the tokens, one write per token; `Diagnostic` wraps it in the `Header` line and a newline |
| Scan.ApplyAccounts | src/Command/I18nExtractCommand.php:431-455 | `Apply` of `Step` over the sites (as in `AfterParse`): each call site adds exactly one aggregator call or is counted as one malformed call. The counter grows by the malformed count unless the file is under the core include path. Nothing is written when the marker-error flag is off |
| Persistence.CountKey | src/Command/I18nExtractCommand.php:264-266 | the `find()->where(domain, locale, singular)->count()` is positive exactly when a record has that key |
| Persistence.Store.constructor | src/Command/I18nExtractCommand.php:264-278 | a new store holds no records |
| Persistence.Store.Count | src/Command/I18nExtractCommand.php:264-266 | the store's count for a key is positive exactly when a stored record has that key; context plays no part |
| Persistence.Store.Insert | src/Command/I18nExtractCommand.php:269-278 | saving a new entity appends it and leaves every existing record unchanged |
| Persistence.SaveAllAppend | src/Command/I18nExtractCommand.php:234-240 | saving two lists of requests one after the other is the same as saving them concatenated |
| Persistence.HasKeyGrows | src/Command/I18nExtractCommand.php:264-268 | once a key is present, it stays present as records are added |
| Persistence.SaveOneEffect | src/Command/I18nExtractCommand.php:263-280 | `SaveOne` (`_save`) only appends records, each for one of the locales. Afterwards every locale has a record with the (domain, singular) key |
| Persistence.SaveOneNoop | src/Command/I18nExtractCommand.php:264-268 | when every locale already has the key, `_save` inserts nothing |
| Persistence.SaveOneIdempotent | src/Command/I18nExtractCommand.php:263-280 | calling `_save` twice with the same arguments inserts nothing the second time |
| Persistence.ContextIgnored | src/Command/I18nExtractCommand.php:264-266 | a second `_save` with the same domain and singular but any other plural, context or references inserts nothing |
| Persistence.SaveOneKeepsKeysUnique | src/Command/I18nExtractCommand.php:263-280 | if no two records share a (domain, locale, singular) key, that still holds after `_save` |
| Persistence.SaveAllExtends | src/Command/I18nExtractCommand.php:212-280 | `SaveAll` (the `_save` calls in turn) keeps the old records as a prefix, and leaves every request's key present for every locale |
| Persistence.SaveAllNoop | src/Command/I18nExtractCommand.php:263-280 | when every requested key is already present for every locale, saving changes nothing |
| Persistence.SaveAllIdempotent | src/Command/I18nExtractCommand.php:212-280 | running the whole save a second time on the same translations inserts nothing |
| Messages.LineStrings | src/Command/I18nExtractCommand.php:227 | each line number becomes its decimal string, in order |
| Messages.OccurrenceLinesOnce | src/Command/I18nExtractCommand.php:226-227 | an occurrence's line list names every line of the file once and names nothing else |
| Messages.Occurrences | src/Command/I18nExtractCommand.php:225-228 | there is one `Occurrence` (`file:l1;l2`) per referenced file, in order |
| Messages.ReferencesUseForwardSlash | src/Command/I18nExtractCommand.php:229-231 | after `References` strips the paths (`StripPaths`) and replaces the separator, the reference string contains no directory separator other than `/` |
| Messages.StripOrder | src/Command/I18nExtractCommand.php:197-203 | the strip list is the scan roots plus the application root, sorted by ascending length (shortest first) |
| Messages.ContextRequestsContents | src/Command/I18nExtractCommand.php:220-240 | the i-th `_save` call for a message (`RequestFor` the i-th context) carries that msgid and domain, the context's plural, the context itself when truthy and null otherwise, and `References` of that context or null under `--no-location` |
| Messages.ContextRequestAt | src/Command/I18nExtractCommand.php:220-240 | `ContextRequests` has one `_save` call per context, and the i-th is `RequestFor` the i-th context |
| Messages.ContextRequestsComplete | src/Command/I18nExtractCommand.php:220-241 | every context of a message gets its `_save` call |
| Messages.ContextRequestIncluded | src/Command/I18nExtractCommand.php:219-242 | a `_save` call for one message of a domain is among `MessageRequests`, the calls for all its messages |
| Messages.MessageRequestsComplete | src/Command/I18nExtractCommand.php:219-242 | every context of every message of a domain gets its `_save` call |
| Messages.DomainRequestIncluded | src/Command/I18nExtractCommand.php:212-243 | a `_save` call for the messages of a domain that is not `Skipped` (under `'default'` when merging) is among all of `Requests` |
| Messages.RequestsComplete | src/Command/I18nExtractCommand.php:212-243 | every (msgid, context) of a domain that `DomainFilter` keeps (the `--domains` filter) gets its `_save` call, under `'default'` when merging |
| Messages.RequestOrigin | src/Command/I18nExtractCommand.php:212-243 | every `_save` call comes from some context of some message of a domain that passes the filter, and is `RequestFor` that context |
| Messages.RequestsSound | src/Command/I18nExtractCommand.php:212-243 | every `_save` call is the one for some context of some message of a domain that passes the filter; with `RequestsComplete`, the calls are exactly those |
| Messages.MessageRequestOrigin | src/Command/I18nExtractCommand.php:219-242 | a `_save` call for a domain's messages comes from one of its contexts |
| Messages.ContextRequestOrigin | src/Command/I18nExtractCommand.php:220-241 | a `_save` call for one message comes from one of its contexts |
| Messages.SavedForEveryLocale | src/Command/I18nExtractCommand.php:212-280 | after `_saveMessages`, every message of every domain that passes the filter has a record for every locale, under `'default'` when merging |
| Languages.Assign | src/Command/I18nExtractCommand.php:178 | an array assignment adds the key, keeps keys unique, and changes only that key's value |
| Languages.InKeys | src/Command/I18nExtractCommand.php:178 | a key is among `Keys` of a normalized array exactly when some entry has it |
| Languages.KeysCons | src/Command/I18nExtractCommand.php:178 | the keys of a non-empty normalized array are its first key plus the keys of the rest, and they are unique exactly when the rest has unique keys and does not contain the first |
| Languages.Normalize | src/Command/I18nExtractCommand.php:178 | `Hash::normalize` yields an array without repeated keys; the key order is stated by `NormalizeKeepsFirstPosition` |
| Languages.AssignKeySeq | src/Command/I18nExtractCommand.php:178 | assigning to a present key keeps the key order; assigning a new key puts it last |
| Languages.NormalizeKeepsFirstPosition | src/Command/I18nExtractCommand.php:178 | `Hash::normalize` puts each key where it first appears in the configuration: its keys, in order, are the configured keys with repeats dropped |
| Languages.NormalizeKeys | src/Command/I18nExtractCommand.php:178 | the normalized keys are exactly the configured keys (bare entries count as keys) |
| Languages.NormalizeKeepsLastSetting | src/Command/I18nExtractCommand.php:178-185 | each key's value after normalizing is the setting of the last entry with that key |
| Languages.Locales | src/Command/I18nExtractCommand.php:179-185 | each normalized entry gives its `locale` setting if it has one, else its key, in order |
| Search.Needle | src/Command/I18nExtractCommand.php:577-579 | an exclude entry is prefixed with the separator unless it already starts with it; on a non-backslash separator, the result always starts with the separator |
| Search.Needles | src/Command/I18nExtractCommand.php:576-581 | each exclude entry becomes its needle, in order |
| Search.Remaining | src/Command/I18nExtractCommand.php:591-593 | filtering never adds files |
| Search.RemainingFiles | src/Command/I18nExtractCommand.php:591-593 | a file survives the filter exactly when it is listed and contains no exclude needle (`Allowed`) |
| Search.NothingExcluded | src/Command/I18nExtractCommand.php:573-594 | with no exclude entries, the listing passes unchanged |
| Search.GatheredFiles | src/Command/I18nExtractCommand.php:585-596 | a file is `Gathered` exactly when some listing has it and no exclude entry matches it |
| Command.Sources | src/Command/I18nExtractCommand.php:365-374 | each file is paired with its own token list, in order |
| Command.ExtractCommand.constructor | src/Command/I18nExtractCommand.php:19-33 | a fresh command has no tokens, no errors, no recorded calls, no output and no languages |
| Command.ExtractCommand.AddTranslation | src/Command/I18nExtractCommand.php:452 | a recorded call is handed to the aggregator once, after all earlier ones |
| Command.ExtractCommand.GetStrings | src/Command/I18nExtractCommand.php:468-501 | the `_getStrings` loop as written returns the values and the new position `StringsFrom` gives; with `StringsFromBound` and `PlainArgumentsExtracted`, at most target + 1 values, and exactly min(k, target) for k plain arguments |
| Command.ExtractCommand.GetStringsIntended | src/Command/I18nExtractCommand.php:468-501 | the corrected loop (see Findings) returns the values and the new position `StringsIntended` gives; with `ArgumentsExtractedIntended`, k arguments, runs included, yield exactly the first min(k, target) values |
| Command.ExtractCommand.JoinRun | src/Command/I18nExtractCommand.php:480-491 | the inner loop stops at the end of the run and returns the concatenation of its formatted literals |
| Command.ExtractCommand.MarkerError | src/Command/I18nExtractCommand.php:533-564 | the counter grows by exactly 1 if and only if the current file is not under the core include path. Without the marker-error flag nothing is written; with it, the header, the echoed call and a newline are written |
| Command.ExtractCommand.EchoCall | src/Command/I18nExtractCommand.php:544-562 | the depth-tracking loop writes exactly the echo of the call's tokens |
| Command.ExtractCommand.ParseCallSite | src/Command/I18nExtractCommand.php:418-455 | at a call site, the depth loop ends at i + 2. Argument extraction then either records the call or reports a marker error, exactly as that site's outcome says |
| Command.ExtractCommand.Parse | src/Command/I18nExtractCommand.php:404-459 | scanning the tokens for one marker has exactly the effect of applying the outcomes of all its call sites in order |
| Command.ExtractCommand.ExtractFile | src/Command/I18nExtractCommand.php:365-386 | a file's tokens are filtered, then scanned once per marker in table order |
| Command.ExtractCommand.ExtractTokens | src/Command/I18nExtractCommand.php:346-394 | the effect of extracting every file in order, each with every marker |
| Command.ExtractCommand.GetLanguages | src/Command/I18nExtractCommand.php:164-186 | a truthy `--languages` option replaces the list with its comma-separated parts. Otherwise each normalized configured entry appends its locale or key |
| Command.ExtractCommand.Save | src/Command/I18nExtractCommand.php:256-281 | the store afterwards is the check-then-insert of the request for each locale, in order |
| Command.ExtractCommand.BuildReferences | src/Command/I18nExtractCommand.php:221-232 | the loop builds the reference string: occurrences joined by newlines, strip paths removed shortest-first, separators turned into `/` |
| Command.ExtractCommand.SaveContexts | src/Command/I18nExtractCommand.php:220-241 | the inner loop saves one request per context, in order |
| Command.ExtractCommand.SaveMessageList | src/Command/I18nExtractCommand.php:219-242 | the middle loop saves every context of every message of one domain, in order: the store becomes `SaveAll` of `MessageRequests` |
| Command.ExtractCommand.SaveMessages | src/Command/I18nExtractCommand.php:195-244 | the store afterwards is the result of saving every request the translations give, with the filter, merge flag, location flag and sorted strip list the options give |
| Command.ExtractCommand.SearchFiles | src/Command/I18nExtractCommand.php:571-598 | the file list becomes the old list plus every filtered listing, without duplicates |

## Findings

| source | as written | input that shows it | evidently intended | confidence | as-written member | corrected member |
|---|---|---|---|---|---|---|
| src/Command/I18nExtractCommand.php:479-497 | `$count` is refreshed before the append, so the guard lags one value behind. After a `.`-joined run, the `$position++` at line 497 also skips the token that ended the run. When that token is the comma before the next argument, nothing absorbs the lag, and the loop takes one value more than its target. When that token is the `)` that closes the call, the loop goes on reading past the call | `__('a' . 'b', 'c')`: with target 1, `_getStrings` returns two values, so the call is reported as a marker error, while `__('ab', 'c')` is recorded. `__d('dom', 'x' . 'y', 'z')` is rejected the same way. `sprintf(__n('a' . 'b'), 'x', 3)`: the run ends at `)`, which is skipped, and `'x'` is taken as the plural, so the call is recorded with plural `'x'` instead of being a marker error | stop once `target` values are taken, and resume at the token that ended a run. Then k comma-separated arguments, runs included, give exactly the first min(k, target) values, and nothing past the call is read | not executed; shown by proof on the model | Arguments.RunThenArgumentOvershoots, Scan.RunThenArgumentMalformed, Scan.RunThenArgumentReported, Arguments.RunThenCloseReadsPastCall, Scan.RunThenCloseRecorded | Arguments.ArgumentsExtractedIntended, Scan.CallWithArguments, Scan.RunThenCloseMalformedIntended, Command.ExtractCommand.GetStringsIntended |

## Left out

- Console I/O is left out. This covers the progress bar, the verbose messages and the summary of marker errors that `_extract` prints. The error stream of `_markerError` is kept, as a log of writes.
- Option parsing and the interactive prompts are left out. `execute`, `buildOptionParser`, the path and output prompts, `_isExtractingApp` and `_isPathUsable` are console plumbing and environment checks. The options the core reads are parameters.
- `file_get_contents`, `token_get_all` and the `preg_match` fast path are left out. Each file's token list is an input. A file the fast path skips is not distinguished from one that has no call sites.
- The directory walk of `_searchFiles` (`realpath`, `findRecursive`, `sort`) is left out. Each scan root's sorted listing is an input; only the exclude filter and `array_unique` are modelled.
- `_addTranslation` and `_getPaths` belong to the parent class, which is not part of this model. Their effects appear only as the log of handed-over calls. `_saveMessages` takes the aggregated translations as its input.
- `I18nModelTrait::_loadModel` and the ORM are left out. The table is a list of records in the `Store` class. Records are matched on (domain, locale, singular) by exact string equality.
- `in_array` is modelled with strict string equality. PHP's loose comparison, and its conversion of numeric-string array keys to integers, are not modelled. A consequence is not captured: the file declares `strict_types=1` (line 2), so a decimal-integer msgid such as `__('404')`, a truthy integer context, or an integer domain when not merging reaches `_save`'s `string` parameters (lines 256-262) as an int, and PHP throws a `TypeError` that ends the command.
- Messages.SavedForEveryLocale and Messages.RequestsComplete: the model keeps every key a string and saves the messages above; these lemmas promise records for them that the PHP never writes, because it throws first.
- The `_merge` flag is a parameter of `SaveMessages`; how it is set is not modelled.
- `_extract`, which resets the state and calls the steps in turn, is left out. Each step is modelled on its own.
- `Hash::normalize` and `isset` are modelled by behaviour, not by their code. A configured `locale` that is null counts as absent, as with `isset`.
- Command.ExtractCommand.ParseCallSite, Command.ExtractCommand.EchoCall, Command.ExtractCommand.SaveMessageList and Command.ExtractCommand.SaveContexts are not separate methods in the source. They are the body of `_parse` for one call site, the echo loop of `_markerError`, and the two inner loops of `_saveMessages`, split out as methods of their own.
- PHP strings are byte strings. The model uses `char` for a byte: escapes produce values below 256, and there is no encoding.
- Integer overflow of the token counters and line numbers is not modelled; they are unbounded naturals.
- Command.ExtractCommand.GetStringsIntended is not a method of the source. It is the corrected loop of the finding, proved on its own; `_parse`'s model (`Scan.SiteAt`, `ParseCallSite`, `Parse`) uses `GetStrings`, the loop as written. `CorrectionAgreesWithoutRuns` shows the two agree on comma-separated lists of single literals or integers that end at the call's `)` or at a comma before a non-literal argument; other run-free shapes, such as an integer followed by `.`, are not covered by it.
