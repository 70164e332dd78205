# uconf configuration parser — a Dafny model

The model covers `uconf`, a Go package that reads configuration files laid out like
`haproxy.conf`. A file is a sequence of lines. The first word of a line is its name and the
remaining words are its values. The comment is the text after the first `;` or `#` or, on a
line with neither, after the last `|`.

- A line whose name the caller has declared as a section name opens a new instance of
  that section.
- Every other line is a key of the instance opened last.
- A key that comes before any section lands in an implicit `DEFAULT` section.

The model has two parts:

- **The line parser** (`Property.Load` and the `Property` accessors):
  - the comment split that Go's regular expression performs;
  - `strings.Fields`;
  - the right-to-left loop that pairs the values into a keyword map.
- **The `ConfigFile` store:**
  - header records and key tables per section instance;
  - the routing of keys to the current table;
  - the queries;
  - `LoadFile` and `Reload` over a file system given as a value.

Modules, one per file:

| file | module | contents |
|---|---|---|
| `wrappers.dfy` | `Wrappers` | `Option`, the error kinds and their messages, and `Answer` (ok, error or runtime panic) |
| `fields.dfy` | `TextFields` | `unicode.IsSpace`, `strings.Fields`, and `JoinSpace` as its reference inverse |
| `comment.dfy` | `CommentSplit` | the match of `(?P<content>[^;#]*)[;|#](?P<comment>.*)$`, with Go's leftmost-first semantics, and what it amounts to |
| `property.dfy` | `Properties` | the `Property` value, the mutable `Property` object with `Load`, the pairing loop, and lemmas about a parsed line |
| `store.dfy` | `ConfigStore` | the store as a value, one function per operation, and the invariants and lemmas |
| `configfile.dfy` | `ConfigFiles` | class `ConfigFile`: Go's methods updating its fields, each proved equal to the `ConfigStore` function, plus the queries |
| `examples.dfy` | `DocExamples` | the lines of the package's sample file and what its sample program reads back |

Points where this model departs from a reading of the package's prose:

- **The comment class `[;|#]` also contains `|`.** When a line holds no `;` or `#`, it is
  split at its last `|` (`CommentSplit.SplitAtLastBar`). A newline
  anywhere after a line's only delimiter defeats the match (`CommentSplit.NewlineAfterComment`).
- **Load records the comment before checking for fields.** A comment-only line returns
  false but has already overwritten `keycomment`.
- **The queries' errors follow the code:** "section not found" from `GetSection` and "key
  not found" from `GetALLKeys`. "index out of range" is reported only for an index
  greater than the length (see Findings).
- **Reload starts from `NewConfigFile()`, which has no recognised section names.** The
  model reproduces this, and the Findings table records it.

How Go's aliasing is modelled:

- `CurrentKeys` aliases the key table appended last. The model stores its position instead,
  as `KeyRef(section, index)`. The invariant `ConfigStore.Valid` says that this position
  is always the last table of its section.
- Go's `*c = *cfg` in `Reload` becomes a copy of every field.

## Model

| member | source | states |
|---|---|---|
| Wrappers.ConfError.Message | conf.go:237-310 | every error has a non-empty message, and it starts with `open ` exactly for a read error |
| Wrappers.MessageDetermines | conf.go:237-310 | different errors have different messages, so the Go text identifies the error and, for a read error, its file |
| TextFields.IsSpace | conf.go:120 | on the Latin-1 range, white space is exactly tab, newline, vertical tab, form feed, carriage return, space, U+0085 and U+00A0, as `unicode.IsSpace` says |
| TextFields.Fields | conf.go:120-126 | every word `strings.Fields` returns is non-empty and free of white space |
| TextFields.FieldsEmptyIffAllSpace | conf.go:120-123 | the field list is empty exactly when the text is all white space (the `length == 0` test of Load) |
| TextFields.FieldsOfField | conf.go:125-126 | a single word with no white space splits into itself |
| TextFields.FieldsSplit | conf.go:120-126 | a white-space character separates the fields of the text before it from those after it |
| TextFields.FieldsOfJoin | conf.go:120-126 | round trip: the fields of words joined by single spaces are those words |
| TextFields.FieldsSkipsLeadingSpace | conf.go:120-126 | leading indentation contributes no field |
| CommentSplit.RunEnd | conf.go:112 | the greedy `[^;#]*` started at a position stops at the first `;`/`#` or at the end |
| CommentSplit.BacktrackSound | conf.go:112 | a match found by giving back characters ends at a `[;|#]` delimiter, is followed by a newline-free rest, and its groups are the text before and after it |
| CommentSplit.FindSubmatch | conf.go:112-113 | a match, when there is one, has content, delimiter and comment laid end to end, the rest free of newlines |
| CommentSplit.NoDelimiterNoMatch | conf.go:112-115 | a line with no `;`, `|` or `#` does not match, so all of it is content |
| CommentSplit.SplitAtFirstCommentStart | conf.go:112-119 | a line with a `;` or `#` and one line after the first of them splits there: content before, comment after |
| CommentSplit.SplitAtLastBar | conf.go:112-119 | a line with no `;` or `#` splits at its last `|` |
| CommentSplit.SplitAfter | conf.go:112-119 | `a + [d] + b` with `d` the first `;`/`#` splits into `a` and `b` |
| CommentSplit.BacktrackComplete | conf.go:112 | giving back characters misses no place to end: with no match no position in range ends the content, and a match ends at the rightmost one that does |
| CommentSplit.BacktrackSkips | conf.go:112 | positions that cannot end the content are given back without changing the outcome |
| CommentSplit.MatchFrom | conf.go:112-113 | a match found from any start position is a match of the whole line: content free of `;`/`#`, a delimiter, and a one-line comment running to the end |
| CommentSplit.NoMatchWhenNewlineFollows | conf.go:112-115 | for a line whose only delimiter is followed, somewhere after it, by a newline, no start position yields a match |
| CommentSplit.NewlineAfterComment | conf.go:112-115 | any such line does not match at all, because `.` and `$` stop at the newline, so the whole line is content |
| CommentSplit.NewlineAfterCommentExample | conf.go:112-115 | the line `a;b` + newline + `c` does not match |
| Properties.PropertyValue.GetAllSliceValue | conf.go:152-154 | returns the stored values after the name themselves |
| Properties.PropertyValue.GetAllMapValue | conf.go:157-159 | returns the stored pair map itself |
| Properties.PropertyValue.GetValue | conf.go:162-165 | a lookup in `GetAllMapValue()` that, like Go's map index, yields `""` for a missing key |
| Properties.PropertyValue.GetValueIndex | conf.go:168-171 | the element at `index` of `GetAllSliceValue()` |
| Properties.NewPropertyIsBlank | conf.go:95-101 | `newProperty(name)` has the given name, no values, an empty pair map, `GetValue` of every key equal to `""`, and an empty comment |
| Properties.PairFrom | conf.go:128-130 | the loop only writes entries: every key of the map before it is still a key after it |
| Properties.Keywords | conf.go:128-130 | the pairing of Load's values keeps every key the map already had |
| Properties.Content | conf.go:112-119 | the content is never longer than the line, and is the whole line when the pattern does not match |
| Properties.ContentOfMatch | conf.go:112-119 | when the pattern matches, the content holds no `;` and no `#` |
| Properties.ParseOutcome | conf.go:313-316 | `newProperty("")` then `Load`: a record exactly when the content is not all white space, named by a single word, with an empty comment when the line does not match, and left blank when it is no record |
| Properties.Loaded | conf.go:108-132 | `Load` as a function: it reports true exactly when the content left after the comment split is not all white space, and then the name is a single word |
| Properties.Property.constructor | conf.go:96-102 | `newProperty(name)`: that name, no values, an empty map, an empty comment |
| Properties.Property.AppendList | conf.go:136-138 | the values are appended after those held, and nothing else changes |
| Properties.Property.SetValue | conf.go:141-143 | exactly one map entry is written |
| Properties.Property.SetComments | conf.go:146-148 | the comment is replaced and the name argument is ignored |
| Properties.Property.Load | conf.go:109-132 | the receiver and the result end as `Loaded` prescribes; the pairing loop keeps `PairFrom(kwvals, values, i)` equal to the final map, with `i` within `-1..len(values)-1` |
| Properties.PairFromUntouched | conf.go:128-130 | a key that is no pair's left half keeps its old entry, or stays absent |
| Properties.PairFromLeftmost | conf.go:128-130 | a repeated left half ends with the value of its leftmost pair, which is written last |
| Properties.PairFromKeys | conf.go:128-130 | the keys after the loop are the old keys plus the left halves `v[i-1], v[i-3], ...` |
| Properties.PairFromSize | conf.go:128-130 | the loop adds at most one key per iteration |
| Properties.KeywordsSize | conf.go:128-130 | at most ⌊len(values)/2⌋ keys are written |
| Properties.KeywordsKeys | conf.go:128-130 | the map's keys are exactly the left halves of the pairs |
| Properties.KeywordsLeftmost | conf.go:128-130 | the value under a key is that of the leftmost pair with that left half |
| Properties.KeywordsOddSkipsFirst | conf.go:128-130 | with an odd number of values the first one is never a key, unless it repeats at a left position |
| Properties.LoadedFields | conf.go:120-127 | Load returns false exactly when the content has no fields, and then name, values and map are untouched; otherwise the name is the first field and the old values are followed by the remaining fields |
| Properties.LoadedComment | conf.go:113-119 | a match sets the comment to its comment group, even when Load then returns false; no match leaves it unchanged |
| Properties.ParsePlainLine | conf.go:112-130 | a line without delimiters is all content, its words are name and values, and the comment stays empty |
| Properties.ParseCommentedLine | conf.go:112-130 | for `a + [d] + b` the words of `a` are parsed and `b` is the comment, whether or not `a` has words |
| Properties.GetValueOfLeftmostPair | conf.go:162-165 | `GetValue` of a left half reads the value of its leftmost pair |
| Properties.GetValueOfUnpairedWord | conf.go:162-165 | `GetValue` of a word that is no left half is the empty string |
| Properties.GetValueIndexOfParsedLine | conf.go:168-171 | `GetValueIndex(i)` of a parsed line is the word at position `i + 1` of the content, itself a field |
| ConfigStore.Empty | conf.go:199-205 | `NewConfigFile()`: no file names, no recognised names, no current table, and empty header and key maps |
| ConfigStore.EmptyIsValid | conf.go:199-205 | `NewConfigFile()` satisfies the store invariant |
| ConfigStore.SetSectionName | conf.go:226-228 | the names are appended to the recognised names, and nothing else changes; the invariant is kept |
| ConfigStore.AddSectionValue | conf.go:260-271 | one header record and one empty key table are appended to the section, which is created when absent; other sections are unchanged; the new table becomes current; the invariant is kept |
| ConfigStore.PutTable | conf.go:281-285 | the write through `CurrentKeys`: the designated table is replaced; every section keeps its number of instances, every other table is unchanged, and so are the headers, the recognised names, the current position and the file names |
| ConfigStore.AddRecord | conf.go:281-285 | the record is appended under its name after the earlier ones, and the table's other keys keep their records |
| ConfigStore.WithOpenSection | conf.go:277-280 | with no table current, `DEFAULT` is appended to the recognised names and an instance headed by `newProperty("DEFAULT")` is opened; otherwise nothing changes |
| ConfigStore.SetKey | conf.go:275-286 | the invariant is kept, and the result is the store of `WithOpenSection` with `AddRecord` applied to its current table |
| ConfigStore.SetKeyTouchesOnlyCurrent | conf.go:275-286 | only the current table changes, and the new record follows the earlier ones of its name; headers, names, the current position, the file names and every other table are unchanged |
| ConfigStore.Contains | conf.go:360-367 | the linear scan reports true exactly when the name is in the list |
| ConfigStore.LoadString | conf.go:313-326 | the invariant is kept and the file names are unchanged |
| ConfigStore.LoadRecord | conf.go:315-325 | the dispatch on a parsed line keeps the invariant and the file names; what it does is stated by `ConfigStore.LoadStringDispatch` |
| ConfigStore.LoadStringDispatch | conf.go:313-326 | a line that is all white space before its comment changes nothing; a recognised first word opens a section instance; any other line becomes a key |
| ConfigStore.LoadLines | conf.go:338-341 | the lines of a file, loaded in order, keep the invariant |
| ConfigStore.LoadFiles | conf.go:331-346 | the walk over the files keeps the invariant and leaves the file names alone |
| ConfigStore.LoadFilesNext | conf.go:331-341 | after files that could all be opened, the next name either loads its lines or ends the walk with a read error naming it |
| ConfigStore.LoadFilesStopsAtError | conf.go:331-335 | once a file cannot be opened no later file is read, and what was loaded before stays |
| ConfigStore.LoadFile | conf.go:329-348 | the new names are appended to the recorded ones and the invariant is kept |
| ConfigStore.Reload | conf.go:351-358 | on error the store is left as it was; otherwise it becomes a fresh store with the recorded files loaded |
| ConfigStore.AddRecordKeepsGrouped | conf.go:281-285 | appending a record under its own name keeps every record of the table under its own name |
| ConfigStore.AddSectionKeepsGrouped | conf.go:260-271 | opening an instance keeps every header under its own section name and every key record under its own name |
| ConfigStore.DefaultSectionIsField | conf.go:84 | `DEFAULT` is a single word, so it can be a section name |
| ConfigStore.SetKeyKeepsGrouped | conf.go:275-286 | adding a key keeps the grouping, including when `DEFAULT` is opened |
| ConfigStore.LoadStringKeepsGrouped | conf.go:313-326 | loading a line keeps the grouping |
| ConfigStore.LoadLinesKeepsGrouped | conf.go:338-341 | loading any number of lines keeps the grouping |
| ConfigStore.RepeatedHeaderRecords | conf.go:321-322 | two header records with one recognised name are appended as two instances, each with its own empty key table, the second current |
| ConfigStore.RepeatedSectionsAreDistinct | conf.go:321-322 | two header lines with one recognised name give two distinct instances, each with its own empty key table |
| ConfigStore.RepeatedKeyRecords | conf.go:281-285 | two key records with one name are both appended, in order, to the current table; headers and the current position are unchanged |
| ConfigStore.RepeatedKeysKeepOrder | conf.go:281-285 | two key lines with one name keep both records, in file order, in the current table |
| ConfigStore.KeyBeforeAnySectionGoesToDefault | conf.go:277-280 | a key before any header creates `DEFAULT`, registers it as a recognised name, and lands in its table |
| ConfigStore.LoadLinesIgnoresFileNames | conf.go:338-341 | loading lines never reads or changes the recorded file names |
| ConfigStore.LoadFileRewalksEarlierFiles | conf.go:330-331 | a second `LoadFile` walks the first file again before the new one |
| ConfigStore.LoadLinesOnlyDefault | conf.go:313-326 | with only `DEFAULT` recognised, loading lines creates no other section |
| ConfigStore.LoadFilesOnlyDefault | conf.go:331-346 | the same holds across a walk over files |
| ConfigStore.ReloadLandsInDefault | conf.go:351-358 | after a successful reload, `DEFAULT` is the only section with instances |
| ConfigStore.LoadStringGrows | conf.go:313-326 | loading a line never removes a recognised name or a section |
| ConfigStore.LoadLinesGrows | conf.go:338-341 | the same holds for the lines of a file |
| ConfigStore.LoadFilesGrows | conf.go:331-346 | the same holds for a walk over files |
| ConfigStore.LoadLinesOpensHeader | conf.go:321-322 | a line of the file whose first word is recognised from the start yields an instance of that section |
| ConfigStore.LoadFilesReadsAll | conf.go:331-346 | when every file can be opened, the walk reports no error |
| ConfigStore.LoadFilesReportsMissing | conf.go:331-335 | the first recorded file that cannot be opened ends the walk with a read error naming it, keeping what the earlier files loaded |
| ConfigStore.ReloadReportsMissing | conf.go:351-358 | a reload after a recorded file has become unopenable reports the read error for the first such file and leaves the store as it was |
| ConfigStore.LoadFilesKeepsInstance | conf.go:331-346 | an instance present after an error-free walk over some names is still present after walking more names |
| ConfigStore.LoadFilesKeepsInstanceFrom | conf.go:331-346 | an instance present part-way through an error-free walk is still present at its end |
| ConfigStore.LoadFilesOpensHeaderAt | conf.go:331-346 | when every file can be opened, the walk up to the file holding a recognised header line has no error and has an instance of that section |
| ConfigStore.LoadFilesOpensHeader | conf.go:331-346 | a header line of any walked file whose name is recognised from the start yields an instance of that section |
| ConfigStore.ReloadDropsSections | conf.go:351-358 | as written, after a successful reload no recognised section other than `DEFAULT` has instances, even when its header lines are in the files |
| ConfigStore.ReloadKeepingSections | conf.go:351-358 | corrected reload: on error nothing changes; on success every name recognised before is still recognised |
| ConfigStore.ReloadKeepingSectionsKeepsSections | conf.go:351-358 | with the corrected reload, the header line of a recognised section opens an instance of it again |
| ConfigStore.LoadFilesIgnoresFileNames | conf.go:331-346 | the walk never reads or changes the recorded file names |
| ConfigStore.LoadFilesAppend | conf.go:331-346 | walking `a + b` is walking `a`, then, if that had no error, `b` |
| ConfigStore.LoadFileNewOnly | conf.go:329-348 | corrected `LoadFile`: records the new names, walks only them, and keeps the invariant |
| ConfigStore.LoadFileNewOnlyComposes | conf.go:329-348 | with the corrected walk, loading `a` and then `b` equals loading `a + b` in one call |
| ConfigStore.KeyRecordOnce | conf.go:277-285 | a key record stored into a new store is the only record of a fresh `DEFAULT` instance |
| ConfigStore.KeyRecordTwice | conf.go:281-285 | the same record stored once more is a second record under its key |
| ConfigStore.KeyLineOnce | conf.go:277-285 | one key line loaded into a new store is the only record of a fresh `DEFAULT` instance |
| ConfigStore.KeyLineTwice | conf.go:281-285 | the same line loaded once more adds a second record under its key |
| ConfigStore.TwoCallsLoadKeyTwice | conf.go:330-341 | `LoadFile(a)` then `LoadFile(b)`, with `a` holding one key line and `b` empty, leaves two records of the key |
| ConfigStore.OneCallLoadsKeyOnce | conf.go:330-341 | `LoadFile(a, b)` on the same files leaves one record |
| ConfigStore.LoadFileTwiceDuplicates | conf.go:330-341 | as written, `LoadFile(a)` then `LoadFile(b)` holds two copies of `a`'s key, where `LoadFile(a, b)` holds one |
| ConfigFiles.ConfigFile.constructor | conf.go:199-205 | the fields are those of the empty store, which satisfies the invariant |
| ConfigFiles.ConfigFile.SetSectionName | conf.go:226-228 | the new field values are `ConfigStore.SetSectionName` of the old ones |
| ConfigFiles.ConfigFile.AddSectionValue | conf.go:260-271 | the in-place appends give exactly `ConfigStore.AddSectionValue` of the old state, and keep the invariant |
| ConfigFiles.ConfigFile.SetKey | conf.go:275-286 | a write through the current table gives exactly `ConfigStore.SetKey` of the old state, and keeps the invariant |
| ConfigFiles.ConfigFile.LoadString | conf.go:313-326 | `newProperty("")`, `Load`, `contains`, then dispatch, giving exactly `ConfigStore.LoadString` of the old state |
| ConfigFiles.ConfigFile.LoadLines | conf.go:338-341 | the scanner loop feeds each line to `LoadString` in order, giving exactly `ConfigStore.LoadLines` of the old state |
| ConfigFiles.ConfigFile.LoadFile | conf.go:329-348 | the loop over the recorded files gives exactly `ConfigStore.LoadFile`'s state and error |
| ConfigFiles.ConfigFile.Reload | conf.go:351-358 | a fresh object loads the recorded files and its fields are copied in only on success, as `ConfigStore.Reload` says |
| ConfigFiles.ConfigFile.GetALLSection | conf.go:232-234 | returns the header map itself, whose sections are exactly those `GetSection` finds; as a function of the fields it cannot change the store |
| ConfigFiles.ConfigFile.GetSection | conf.go:237-243 | fails with "section not found" exactly when the name has no instance, and otherwise returns all its headers |
| ConfigFiles.ConfigFile.GetSectionIndex | conf.go:246-255 | not found exactly when absent; "index out of range" exactly when index > len; a panic exactly when index < 0 or index == len; otherwise the header at that index |
| ConfigFiles.ConfigFile.GetALLKeys | conf.go:290-297 | fails with "key not found" exactly when the section is absent, and otherwise returns all its key tables |
| ConfigFiles.ConfigFile.GetKeysIndex | conf.go:301-310 | the same four-way outcome as `GetSectionIndex`, for the key tables |
| ConfigFiles.ConfigFile.GetSectionIndexChecked | conf.go:251-254 | corrected guard: never panics, and reports "index out of range" exactly when the index is outside `0..len-1` |
| ConfigFiles.ConfigFile.GetKeysIndexChecked | conf.go:306-309 | the corrected guard for the key tables |
| ConfigFiles.QueriesAligned | conf.go:290-297 | a section has headers exactly when it has key tables, and the two index ranges agree |
| ConfigFiles.QueryErrorTexts | conf.go:237-310 | an error from `GetSection` reads "section not found", one from `GetALLKeys` "key not found", and one from either index query "index out of range" when the section exists and its not-found text otherwise |
| ConfigFiles.IndexAtLengthPanics | conf.go:251-254 | index == len passes Go's guard and panics in both queries; both corrected guards report it as "index out of range" |
| DocExamples.JoinNoDelimiter | conf.go:17-23 | words without delimiters joined by spaces contain no delimiter |
| DocExamples.IndentedWords | conf.go:15-23 | the words of a tab-indented line are those words |
| DocExamples.ParseIndented | conf.go:15-23 | a tab-indented key line parses into its words, with an empty comment |
| DocExamples.ParseIndentedCommented | conf.go:104-108 | the same line followed by `;` and a comment keeps its words and takes the comment |
| DocExamples.ParseJoined | conf.go:14-19 | an unindented header line parses into its words |
| DocExamples.Server1Keywords | conf.go:22 | the pairs of line 22 are fall:3, rise:18, inter:5s, 25:check, 10.0.0.x:443:maxconn |
| DocExamples.Server1Pairs | conf.go:22 | line 22 parses with name `server`, and `GetValue("inter")` is `5s` |
| DocExamples.Server2Keywords | conf.go:23 | the pairs of line 23 are fall:2, rise:8, inter:4s, 25:check, 10.0.0.x:443:maxconn |
| DocExamples.Server2Pairs | conf.go:23 | line 23 parses with name `server`, and `GetValue("inter")` is `4s` |
| DocExamples.Server0Keywords | conf.go:17 | line 17 has eleven values; the first is never a left half, so `10.0.0.x:80` maps to `maxconn` |
| DocExamples.Server0Pairs | conf.go:17 | line 17 parses with that map |
| DocExamples.CommentedLine | conf.go:104-108 | the tab-indented line `server s1 1.2.3.4:80 check; primary` has three values and the comment ` primary` |
| DocExamples.Listen443Header | conf.go:19 | the header `listen s 0.0.0.0:443` gives `GetValue("s")` and `GetValueIndex(1)` equal to `0.0.0.0:443` |
| DocExamples.HeaderThenTwoKeys | conf.go:313-326 | with one recognised name, a header and two keys with one name give one instance holding both records in order |
| DocExamples.ListenThenTwoServers | conf.go:58-66 | a `listen` header and two `server` lines give one instance whose two `server` records read `inter` as the two lines say, in file order |
| DocExamples.ListenScenario | conf.go:58-66 | lines 19, 22 and 23 give one `listen` instance whose `server` records read `inter` as `5s` and `4s` |

## Left out

- `Property.Print` and `ConfigFile.PrintConf`: they write to standard output, and `PrintConf` follows Go's unordered map iteration.
- The `lock` field: it is never taken, so there is no concurrency to model.
- `CurrentSection`: it points to a local copy and is never read.
- Aliasing of returned values:
  - `GetSectionIndex` returns `&s[index]`, a pointer into the stored slice, and the other queries return Go maps and slices shared with the store.
  - The model returns values, so writes through those results are not modelled.
- Opening and reading files (`os.Open`, `bufio.Scanner`, `defer f.Close`) are replaced by a map from file names to their lines. A name the map lacks is a file that cannot be opened.
  - The text of the error is reduced to `open <name>`.
  - Scanner errors, the `log.Fatal` exit, and the scanner's line-length limit are not modelled.
- The regular-expression engine and the Unicode tables are not modelled as engines. The comment split is what the pattern matches, written out, and white space is Go's `unicode.IsSpace` set.
- Byte versus rune offsets: strings are sequences of characters, so invalid UTF-8 is not modelled.
- Properties.PropertyValue.GetValueIndex: requires `0 <= index < len(avals)`. Go indexes unchecked and panics outside that range, and that panic is not modelled.
- Properties.Property.Load: writes the map directly, as Go's `p.kwvals[...] = ...` does, rather than through `SetValue`.
- ConfigStore.SetKey: its contract gives the new store by construction. What that store keeps is stated by `ConfigStore.SetKeyTouchesOnlyCurrent`.
- DocExamples.ListenScenario: loads only lines 19, 22 and 23 into a store that recognises only `listen`. It does not load the whole sample file with the four names the sample program declares (conf.go:36), so it does not show that this instance is the one `GetKeysIndex("listen", 1)` reads (conf.go:58). Unfolding the walk over every line of the file exceeds the verifier's resource limit.
- CommentSplit.Backtrack: carries no contract of its own. Its soundness, completeness and skipping are stated by `CommentSplit.BacktrackSound`, `CommentSplit.BacktrackComplete` and `CommentSplit.BacktrackSkips`.
- Properties.Parse: carries no contract of its own, so that lemmas mentioning a parsed line stay cheap. What it yields is stated by `Properties.ParseOutcome`, `Properties.LoadedFields` and `Properties.LoadedComment`.
- ConfigStore.LoadString: states only the invariant and the file names. What it does to a line is stated by `ConfigStore.LoadStringDispatch`.

## Findings

| source | as written | input that shows it | evidently intended | confidence | as-written member | corrected member |
|---|---|---|---|---|---|---|
| conf.go:251-254 | `if len(s) < index` lets `index == len(s)` and negative indexes reach `&s[index]` | `GetSectionIndex("listen", 1)` with one `listen` instance panics instead of returning "index out of range" | report every index outside `0..len-1` | high (not executed) | ConfigFiles.IndexAtLengthPanics | ConfigFiles.ConfigFile.GetSectionIndexChecked |
| conf.go:306-309 | the same guard in `GetKeysIndex` | `GetKeysIndex("listen", 1)` with one `listen` instance panics | the same | high (not executed) | ConfigFiles.IndexAtLengthPanics | ConfigFiles.ConfigFile.GetKeysIndexChecked |
| conf.go:351-358 | `Reload` loads into `NewConfigFile()`, whose recognised section names are empty | `SetSectionName("listen")`, load a file with `listen s 0.0.0.0:443`, then `Reload()`: no `listen` instance is left, and the header becomes a key of `DEFAULT` | redo the same load with the same section names | high (not executed) | ConfigStore.ReloadDropsSections | ConfigStore.ReloadKeepingSections |
| conf.go:330-331 | `LoadFile` walks every recorded name, not only the new ones | `LoadFile("a")` then `LoadFile("b")`, with `a` holding one key line: the key has two records | load each file once | medium (not executed) | ConfigStore.LoadFileTwiceDuplicates | ConfigStore.LoadFileNewOnly |
