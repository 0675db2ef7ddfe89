# Verification of the voice agent platform's infrastructure

A Dafny model of the code that decides what reaches a log line, of the lifecycle of the process's resources, and of the
migration graph, with proofs of what each of them guarantees. `dafny verify dfyconfig.toml` checks all of it.

Each loop or class that updates state in the source is a method or class here, tied by its postcondition to a function
of its inputs or of its old state; the guarantees are lemmas about those functions.

**The log sanitiser** (`redaction.py`). Values are a graph of objects addressed by identity: any function, so shared,
cyclic and unbounded graphs are all included. `Sanitizing` is the specification of the structured sanitiser over a budget
value (`Ledgers`), `Sanitizer` the class with the mutable budget that refines it. On it are proved that it ends, expands
each container once and reports only real cycles (`Expansion`), how far its allowance of visits can be overdrawn
and when (`Allowance`), how long its JSON can get (`OutputBound`), which strings can occur in it and where they come from
(`Emission`), that nothing under the name of sensitive data has any effect on it (`Secrecy`), and when a second pass
changes nothing (`Resanitizing`). `Assembly` and `Tracebacks` cover the fields that are one text. The text rules are
`Spans` (masking), `Fragments` (embedded JSON held as placeholders), `Scanning` and `Pairs` (keys and their values) and
`Urls`. `Text`, `Json` and `Values` hold what they share.

**The logging pipeline** (`logging.py`). `Events` is the event dict, `Pipeline` the two passes over it, `TwoRuns` what a
caller cannot influence and how long a line can get, `Template` the check of format strings against the grammar they are
read by.

**The lifecycle** (`runtime.py`, `session.py`, `redis_client.py`). `Lifecycle` is a state machine whose steps are the
stretches of code between two awaits, with every outcome and cancellation as an event; `Runtime` has the classes whose
methods are these stretches.

**The migration graph** (`migration_graph.py`, `gen_revisions.py`, `db_migrate.py`). `Migrations` reads, walks and
reports on a package, `Baseline` has the generator, the comparison with the frozen baseline and the deployment gate.

Code that is not modelled is a parameter of the functions and appears as a field of `Host`, `Reader`, `Names`, `Traces`,
`Surroundings` or `Reads`: key classification, the scrubber as seen by the structured sanitiser, the description of an
exception, JSON decoding, character classes, the port grammar, identifier grammars. The lemmas hold for all of them; where
one has to be lawful the lemma says so. A scrubber is lawful if it gives no visit back, takes none from a spent allowance
and overdraws one by at most one visit for each level of JSON left to unwrap; that the sanitiser, on values decoded from
JSON, keeps the same law one level up is `Allowance.TheLawIsKept`. An identifier grammar accepts printable ASCII only.

## Where the code and its documentation differ

- `password=b`: a final letter that could prefix a string literal is taken for the prefix of a quote that is not there,
  and the scanner indexes past the end (`Scanning.BrokenIffFinalPrefix`, and `Pairs.RaisesIffFatal` for a whole text). The
  public entry points then return a fixed word.
- "every unit this module emits is one the text rules leave unchanged or mask further": given budget enough, the structured
  part is a fixed point exactly if `Settled` holds of it. A mask cut by the end of the budget is not, and if what had
  taken its room is not part of the result a second pass writes the whole mask (`Resanitizing.ACutMaskIsCompleted`).
- `MAX_EVENT_NODES` values are visited: the mask of a sensitive value takes its visit without asking, so an event can end
  one visit below zero (`Allowance.TheAllowanceIsOverdrawn`), and one more for each level of JSON. None does exactly if no
  text does and no name of sensitive data takes the last visit (`Allowance.NeverOverdrawnIffNamesLeaveAVisit`).
- "so wait for it to finish and re-raise afterwards": a caller that was cancelled and awaits the release again loses the
  cancellation if the task then crashes (`Lifecycle.ACrashLosesACancellation`); `Lifecycle.ReleaseIsAwaited` says exactly
  when it is raised.
- "the scan follows the interpreter's own reading of a `%` directive": it does not read a length modifier
  (`Template.AcceptedTemplatesAreBounded`).
- "calling `stop()` again retries it": a call that joins a running task does not retry what that task has already given
  up, and ends in STOPPING; the call after it does (`Lifecycle.ATaskGivesUpRedis`, `Lifecycle.AFurtherStopReleases`).
- A duplicate revision identifier is only recorded as a defect; the walk runs all the same and need not end
  (`Migrations.ADuplicateCanLoop`).
- A traceback whose newest exception alone is longer than the limit, as 32 frames with long file names are, is the
  truncation marker alone (`Tracebacks.NewestIsShownIffItFits`, `Tracebacks.LongFramesHideEverything`).
- The third check of the deployment gate cannot refuse: the graph was validated against the same head before
  (`Baseline.Gate`).

## Model

| member | source | states |
|---|---|---|
| `Sanitizer.Budget.constructor` | backend/voice_agent/platform/infrastructure/observability/redaction.py:410-417 | a new budget holds the whole allowance, no container on the path and none seen |
| `Sanitizer.Budget.Charge` | backend/voice_agent/platform/infrastructure/observability/redaction.py:423-436 | a length and its separator are taken from the output, or the output is spent and the value does not fit; inside JSON nothing is charged |
| `Sanitizer.Budget.Emit` | backend/voice_agent/platform/infrastructure/observability/redaction.py:1392-1407 | a string that is too long for the output is cut to a share of what is left, by its widest escape, and the output is spent |
| `Ledgers.EmitPays` | backend/voice_agent/platform/infrastructure/observability/redaction.py:1392-1407 | whatever string is emitted, its JSON rendering is paid for, or it is the bare marker and the output is spent |
| `Sanitizer.Budget.Marker` | backend/voice_agent/platform/infrastructure/observability/redaction.py:1470-1471 | a marker that does not fit becomes the truncation marker |
| `Sanitizer.Budget.Sanitize` | backend/voice_agent/platform/infrastructure/observability/redaction.py:1474-1517 | one visit is the specification `Sanitizing.Sanitize` on the whole budget state: every branch by type, its charge and its marker; ends on every graph by the node allowance |
| `Sanitizer.Budget.SanitizeContainer` | backend/voice_agent/platform/infrastructure/observability/redaction.py:1520-1557 | cycle, depth, unreadable, empty and repeated containers in the order of the source; any other is entered, read and left, and a failure inside becomes a marker |
| `Sanitizer.Budget.SanitizeKey` | backend/voice_agent/platform/infrastructure/observability/redaction.py:1560-1590 | a key is sensitive if it is too long to examine, or its text or its safe rendering is; the rendering is scrubbed, cut to 256 characters and charged |
| `Sanitizer.Budget.MaskedEntry` | backend/voice_agent/platform/infrastructure/observability/redaction.py:1629-1631 | the mask of a sensitive value takes a visit and is charged |
| `Sanitizer.Budget.SanitizeEntries` | backend/voice_agent/platform/infrastructure/observability/redaction.py:1593-1635 | the loop over a mapping: skipped names, the limit and its note, the budget note, the marker of an earlier pass as entry 201, every admitted entry |
| `Sanitizer.Budget.SanitizeSequence` | backend/voice_agent/platform/infrastructure/observability/redaction.py:1701-1727 | the loop over a sequence, its notes and the sorting of sets |
| `Sanitizer.SanitizeValue` | backend/voice_agent/platform/infrastructure/observability/redaction.py:450-455 | the public entry point: a fresh budget, and a marker for any exception that is left |
| `Sanitizer.SanitizeEvent` | backend/voice_agent/platform/infrastructure/observability/redaction.py:458-505 | the leading fields first and outside the limit, assembled if they are one text, then the others up to the limit |
| `Expansion.SanitizeKeeps` | backend/voice_agent/platform/infrastructure/observability/redaction.py:1474-1557 | whatever is sanitised, the path of open containers is restored, nothing seen is forgotten, no allowance grows, and no container is expanded twice |
| `Expansion.EachContainerIsExpandedOnce` | backend/voice_agent/platform/infrastructure/observability/redaction.py:1545-1557 | over one whole sanitisation of any graph, shared or cyclic, every container is expanded at most once, and the path ends empty |
| `Expansion.CyclesAreReal` | backend/voice_agent/platform/infrastructure/observability/redaction.py:1530-1532 | a container is reported as a cycle only if it contains itself through some chain of containers |
| `OutputBound.SanitizeSize` | backend/voice_agent/platform/infrastructure/observability/redaction.py:423-436 | the rendered size of any value is what was charged, 16 characters per visit, and a fixed part per open container once the budget is exhausted |
| `OutputBound.SanitizedIsBounded` | backend/voice_agent/platform/infrastructure/observability/redaction.py:216-218 | whatever graph is sanitised, the JSON of the result has at most 100,304 characters, below the bound on one line, infinite floats and an overdrawn allowance of visits included |
| `OutputBound.EventIsBounded` | backend/voice_agent/platform/infrastructure/observability/redaction.py:458-505 | the same for the fields of an event, the leading fields and their names included |
| `Allowance.SanitizeAbove` | backend/voice_agent/platform/infrastructure/observability/redaction.py:1474-1631 | however the allowance of visits ends, a value overdraws it by at most one mask and what the text inside it may take, and a spent allowance is not touched |
| `Allowance.TheLawIsKept` | backend/voice_agent/platform/infrastructure/observability/redaction.py:716-741 | what scrubbing does with the allowance is sanitising values decoded from the text one level deeper: if the texts of that level keep the law assumed of the scrubber, so does this one |
| `Allowance.TheAllowanceIsOverdrawn` | backend/voice_agent/platform/infrastructure/observability/redaction.py:1629-1631 | an event from whose sanitisation the allowance comes back below zero: a text that holds JSON of 2,045 values, and a name of sensitive data that holds JSON, whose reading takes the last visit and whose mask takes one more |
| `Allowance.NeverOverdrawnIffNamesLeaveAVisit` | backend/voice_agent/platform/infrastructure/observability/redaction.py:1617-1635 | no value, whatever the graph, ends with an allowance below zero exactly if no text and no exception does, and reading a name of sensitive data never takes the last visit |
| `Emission.SanitizedIsSafe` | backend/voice_agent/platform/infrastructure/observability/redaction.py:450-455 | the result is a tree of bounded depth and width; every string in it is a fixed marker, the renderer's text of a value that is no text and occurs in the graph, how much some container of the graph holds beyond the limit, or what the scrubber made of a text of the graph or an exception in it, whole or cut; numbers are the graph's own; nothing but a mask stands under a name that is sensitive as it is shown |
| `Emission.EventIsSafe` | backend/voice_agent/platform/infrastructure/observability/redaction.py:458-505 | the same for every field of any event, whose texts are those of its graph and what its values are assembled into: distinct names, each a leading one or safe, and at most 200 fields besides the leading ones and the marker |
| `Secrecy.HiddenValuesAreMasked` | backend/voice_agent/platform/infrastructure/observability/redaction.py:1617-1631 | under a name that is always read as one of sensitive data nothing but a mask is shown, also where the name is shown as something else |
| `Secrecy.SensitiveNamesAreHidden` | backend/voice_agent/platform/infrastructure/observability/redaction.py:1560-1590 | names that are sensitive as they are written, and names too long to examine, are such names |
| `Secrecy.SensitiveRenderingsAreHidden` | backend/voice_agent/platform/infrastructure/observability/redaction.py:1560-1590 | so are names of which every rendering is sensitive |
| `Secrecy.SensitiveValuesAreNotRead` | backend/voice_agent/platform/infrastructure/observability/redaction.py:1593-1635 | two graphs that differ only in what stands under such names, everything reachable from there included, give the same result and leave the same budget |
| `Secrecy.SensitiveFieldsAreNotRead` | backend/voice_agent/platform/infrastructure/observability/redaction.py:458-505 | the same for two events, whose leading fields are shown whatever their names |
| `Emission.OnlyScrubbedTextIsSafe` | backend/voice_agent/platform/infrastructure/observability/redaction.py:450-455 | of a text, exactly the markers and what the scrubber made of it, whole or cut, are safe: the text itself is not unless the scrubber returned it |
| `Resanitizing.SecondPass` | backend/voice_agent/platform/infrastructure/observability/redaction.py:1474-1727 | sanitising a copy of a result again, with budget enough and a scrubber that leaves its strings, returns what `Again` says of it, entry 201 and item 201 included |
| `Resanitizing.AgainIsIdentityIffSettled` | backend/voice_agent/platform/infrastructure/observability/redaction.py:1613-1635 | the second pass returns its input exactly if that input is settled: short keys, masks under sensitive names, a marker as item 201 |
| `Resanitizing.ResultIsAFixedPointIffSettled` | backend/voice_agent/platform/infrastructure/observability/redaction.py:1593-1635 | the result of a first pass over any graph, copied and sanitised again with any budget that covers what it needs, comes back unchanged exactly if it is settled |
| `Resanitizing.ACutMaskIsCompleted` | backend/voice_agent/platform/infrastructure/observability/redaction.py:1629-1631 | a graph whose result is changed by a second pass with a full budget: the mask of its last field was cut, since what had taken its room was then found unreadable |
| `Assembly.Collector.Collect` | backend/voice_agent/platform/infrastructure/observability/redaction.py:1653-1669 | the fragments of a nest of lists are appended in order while characters and values are left, updating both counters in place |
| `Assembly.Assemble` | backend/voice_agent/platform/infrastructure/observability/redaction.py:1672-1698 | the assembled text of a field, a marker if an iteration raises |
| `Assembly.AssemblyIsBounded` | backend/voice_agent/platform/infrastructure/observability/redaction.py:1672-1698 | at most 200 values are taken, each gives at most one fragment, and the length is bounded by 16,384 and the two markers, also for a list that contains itself |
| `Assembly.AssembledTextIsTheFlattening` | backend/voice_agent/platform/infrastructure/observability/redaction.py:1653-1698 | within the limits the text is the newline join of the nest's lines, left to right and depth first |
| `Spans.Merge` | backend/voice_agent/platform/infrastructure/observability/redaction.py:683-691 | sorted spans are merged into separated, non-empty ones that cover the same positions |
| `Spans.ReplaceSpans` | backend/voice_agent/platform/infrastructure/observability/redaction.py:679-699 | the output is one mask for every maximal run of covered positions and every other character in order |
| `Spans.OnlyPositionsMatter` | backend/voice_agent/platform/infrastructure/observability/redaction.py:679-699 | order, overlap, adjacency and empty spans make no difference to what is masked |
| `Spans.MaskedLength` | backend/voice_agent/platform/infrastructure/observability/redaction.py:692-699 | nothing is added or dropped but one mask per run of covered positions |
| `Fragments.ScrubJsonFragments` | backend/voice_agent/platform/infrastructure/observability/redaction.py:702-745 | the loop leaves the layout of the pieces, and the fragments of the held ones in order, of the scan `Extract` describes attempt by attempt |
| `Fragments.TheScanIsExact` | backend/voice_agent/platform/infrastructure/observability/redaction.py:716-744 | an opener is attempted exactly if it is the first behind what the attempts before it read and they left some allowance; every opener in kept text was attempted in vain or lies inside an empty container that was read; what is held or masked is a container that was read, except one mask from the first opener not read to the end, which stands there exactly if there is such an opener, and then the allowance is spent; the attempts read fewer than 9n + 1024 characters |
| `Fragments.WithoutMarks` | backend/voice_agent/platform/infrastructure/observability/redaction.py:394 | the characters that delimit placeholders are removed from every input and nothing else changes |
| `Fragments.LayoutIsSound` | backend/voice_agent/platform/infrastructure/observability/redaction.py:653-663 | in a text without such characters the placeholders are exactly those this call made, in order: no input forges one |
| `Fragments.MatchSurvives` | backend/voice_agent/platform/infrastructure/observability/redaction.py:388-394 | a complete placeholder of a masked text is one of the text before masking, unchanged |
| `Fragments.MaskingIsSound` | backend/voice_agent/platform/infrastructure/observability/redaction.py:666-671 | after any rule has replaced spans, each placeholder left is one of this call, its index is in range and it is put back at most once |
| `Fragments.HeldTextIsRestored` | backend/voice_agent/platform/infrastructure/observability/redaction.py:632-633 | restoring puts exactly the sanitised fragment where each piece of JSON was, if no rule masked anything |
| `Fragments.MaskedTextIsRestored` | backend/voice_agent/platform/infrastructure/observability/redaction.py:632-633 | after any rule, each placeholder left is replaced by its own fragment, the parts between the masks are restored each by itself, and the masks stay as they are |
| `Pairs.FindClosingQuote` | backend/voice_agent/platform/infrastructure/observability/redaction.py:929-956 | the loop finds the closing quote the specification names, or none before the limit |
| `Scanning.ClosingQuoteCloses` | backend/voice_agent/platform/infrastructure/observability/redaction.py:929-956 | every quote before the closing one is escaped or doubled, the closing one is neither |
| `Pairs.FindUnquotedEnd` | backend/voice_agent/platform/infrastructure/observability/redaction.py:959-1004 | the end of an unquoted value, brackets, quotes and escapes honoured |
| `Scanning.UnquotedStops` | backend/voice_agent/platform/infrastructure/observability/redaction.py:959-1004 | an unquoted value ends with the text, with its line or at a character that ends values |
| `Pairs.FindBlockEnd` | backend/voice_agent/platform/infrastructure/observability/redaction.py:1021-1033 | the lines of a block value: those indented below its key |
| `Pairs.FindBlockSpan` | backend/voice_agent/platform/infrastructure/observability/redaction.py:1007-1033 | the block below a key that ends its own line |
| `Pairs.FindTrailersEnd` | backend/voice_agent/platform/infrastructure/observability/redaction.py:1088-1110 | what may sit between a key and its separator: closing quotes and brackets, subscripts, held fragments |
| `Pairs.FindSpaceEnd` | backend/voice_agent/platform/infrastructure/observability/redaction.py:1111-1118 | whitespace, written as it is or as an escape |
| `Pairs.Locate` | backend/voice_agent/platform/infrastructure/observability/redaction.py:1082-1140 | where the value of a key starts and how it is introduced, if anything introduces one |
| `Pairs.FindQuotedValue` | backend/voice_agent/platform/infrastructure/observability/redaction.py:1198-1215 | a quoted value with its quotes, or with what follows them, masked |
| `Pairs.FindValueAt` | backend/voice_agent/platform/infrastructure/observability/redaction.py:1195-1225 | a value quoted, prefixed, escaped or plain; the end of the text where the source indexes past it |
| `Pairs.FindValue` | backend/voice_agent/platform/infrastructure/observability/redaction.py:1143-1225 | the span of a value by how it was introduced |
| `Pairs.FindPair` | backend/voice_agent/platform/infrastructure/observability/redaction.py:1228-1246 | the value of a key run, if the key is sensitive and has one |
| `Scanning.MasksEndAtBoundaries` | backend/voice_agent/platform/infrastructure/observability/redaction.py:1143-1246 | no mask ends inside a value: behind it stands the end of the text or a character that ends values |
| `Scanning.BrokenIffFinalPrefix` | backend/voice_agent/platform/infrastructure/observability/redaction.py:1196-1198 | the scan of a value raises exactly if the value is a final letter that could prefix a string literal |
| `Scanning.PasswordOfOneLetter` | backend/voice_agent/platform/infrastructure/observability/redaction.py:1196-1198 | the scan of the value of `password=b` raises |
| `Pairs.FindSwallowed` | backend/voice_agent/platform/infrastructure/observability/redaction.py:1249-1264 | whether a key inside the span has a value beyond it, counted to eight; if not, the span is closed |
| `Pairs.ScrubPairs` | backend/voice_agent/platform/infrastructure/observability/redaction.py:1267-1287 | the loop copies and masks what the specification `ScanPairs` cuts, and raises exactly when that does |
| `Pairs.PairMaskingIsClosed` | backend/voice_agent/platform/infrastructure/observability/redaction.py:1228-1287 | the masked parts are disjoint and in order, each behind a sensitive key and none ending inside a value; no key inside one has a value beyond it; every sensitive key of the text has its whole value masked, or was itself passed over behind the key of a mask |
| `Pairs.EveryKeyIsHandled` | backend/voice_agent/platform/infrastructure/observability/redaction.py:1272-1287 | no run of key characters the scan could meet is missed |
| `Pairs.PlaceholdersSurvivePairs` | backend/voice_agent/platform/infrastructure/observability/redaction.py:1267-1287 | held fragments survive pair masking |
| `Pairs.RaisesIffFatal` | backend/voice_agent/platform/infrastructure/observability/redaction.py:1249-1287 | the scan of a whole text raises exactly if it comes to a sensitive key whose value is a final prefix letter, or masks a span in which it looks at such a key |
| `Pairs.RaisesOnlyAtAPrefix` | backend/voice_agent/platform/infrastructure/observability/redaction.py:1196-1198 | so it raises only if the text ends with such a letter |
| `Pairs.PasswordOfOneLetterRaises` | backend/voice_agent/platform/infrastructure/observability/redaction.py:1196-1198 | the scan of `password=b` as a text raises |
| `Urls.UserinfoIsCovered` | backend/voice_agent/platform/infrastructure/observability/redaction.py:791-795 | if the authority has userinfo in the sense of section 3.2.1 of RFC 3986, the end found is its last `@` |
| `Urls.PasswordIsCovered` | backend/voice_agent/platform/infrastructure/observability/redaction.py:796-805 | with a colon before the first slash and no `@` in the authority, everything up to the next `@` is covered, and no `@` of the same token stands behind the end |
| `Urls.NoPasswordLeft` | backend/voice_agent/platform/infrastructure/observability/redaction.py:806-811 | with no `@` behind it an authority hides a password exactly if what follows its colon is no port, or the text was cut |
| `Urls.UserinfoEndIsInRange` | backend/voice_agent/platform/infrastructure/observability/redaction.py:773-811 | the end found is in the text: the search at line 805 cannot miss |
| `Urls.UrlsAreTheMarkers` | backend/voice_agent/platform/infrastructure/observability/redaction.py:889-897 | the URLs of a text are its `://`, each once |
| `Urls.FindUrls` | backend/voice_agent/platform/infrastructure/observability/redaction.py:885-900 | the loop finds every URL, its userinfo and where the parameters start |
| `Urls.FindSignedEnd` | backend/voice_agent/platform/infrastructure/observability/redaction.py:829-849 | the loop over the parameters of one URL |
| `Urls.SignedIffAParameterSigns` | backend/voice_agent/platform/infrastructure/observability/redaction.py:829-849 | a URL is signed exactly if one of its parameters signs it, wherever it stands, and then the end found lies behind the values of all of them |
| `Urls.FindSignedSpan` | backend/voice_agent/platform/infrastructure/observability/redaction.py:903-912 | the span of a signed URL, from its scheme to the end of its last parameter |
| `Urls.FindSignedUrls` | backend/voice_agent/platform/infrastructure/observability/redaction.py:901-912 | the signed URLs, each up to the next one |
| `Urls.FindParameters` | backend/voice_agent/platform/infrastructure/observability/redaction.py:916-925 | the walk over the parameters |
| `Urls.SensitiveValuesAreMasked` | backend/voice_agent/platform/infrastructure/observability/redaction.py:913-925 | exactly the values of parameters with sensitive names are masked, also of those that start inside another masked value |
| `Urls.ScrubUrls` | backend/voice_agent/platform/infrastructure/observability/redaction.py:872-926 | one mask for every maximal run of userinfo, signed URLs and sensitive parameter values, everything else kept in order; held fragments survive |
| `Tracebacks.FindChain` | backend/voice_agent/platform/infrastructure/observability/redaction.py:1893-1907 | the loop over the chain of exceptions |
| `Tracebacks.ChainIsSound` | backend/voice_agent/platform/infrastructure/observability/redaction.py:1893-1907 | on any chain, cyclic or not, the walk ends after at most ten exceptions, each the cause or unsuppressed context of the one before it, none twice, none left out before the limit |
| `Tracebacks.KeepFrames` | backend/voice_agent/platform/infrastructure/observability/redaction.py:1870-1881 | the last 32 of the first 4,096 trace links, in order, and whether there are more |
| `Tracebacks.BuildFrames` | backend/voice_agent/platform/infrastructure/observability/redaction.py:1882-1885 | one line per kept frame, with what is left of the budget passed on |
| `Tracebacks.BuildBlock` | backend/voice_agent/platform/infrastructure/observability/redaction.py:1917-1929 | the lines of one exception: its link, header and frames, its description last and shortened |
| `Tracebacks.BuildUnits` | backend/voice_agent/platform/infrastructure/observability/redaction.py:1909-1940 | the blocks that fit, newest first, printed oldest first |
| `Tracebacks.NewestFirst` | backend/voice_agent/platform/infrastructure/observability/redaction.py:1910-1940 | the blocks shown are those of the newest exceptions, in order, within 192 lines and 16,320 characters; the first one left out does not fit into what they leave, and there is none exactly if nothing was left out |
| `Tracebacks.NewestIsShownIffItFits` | backend/voice_agent/platform/infrastructure/observability/redaction.py:1930-1936 | a traceback is the marker alone exactly if the newest exception's own lines are too long |
| `Tracebacks.LongFramesHideEverything` | backend/voice_agent/platform/infrastructure/observability/redaction.py:1870-1936 | with at least 32 frames whose lines have 510 characters each, the marker is all that is shown, whatever the message |
| `Tracebacks.TracebackFits` | backend/voice_agent/platform/infrastructure/observability/redaction.py:1887-1940 | the complete form is at most 16,384 characters |
| `Tracebacks.TracebackText` | backend/voice_agent/platform/infrastructure/observability/redaction.py:1963-2016 | the first of four forms the scrubber leaves unchanged, a fixed word if there is none or something raises |
| `Tracebacks.ShownTracebacksAreComplete` | backend/voice_agent/platform/infrastructure/observability/redaction.py:1963-2016 | a traceback that is shown is one the scrubber leaves unchanged with every frame, header and link line in it in order; a traceback the scrubber leaves unchanged as built is shown as built |
| `Template.FindPartsEnd` | backend/voice_agent/platform/infrastructure/observability/logging.py:653-665 | width and precision, each at most three digits and 256, none from the arguments |
| `Template.IsBoundedTemplate` | backend/voice_agent/platform/infrastructure/observability/logging.py:630-671 | the loop accepts a template exactly if the specification does, having seen the same directives |
| `Template.SameDirective` | backend/voice_agent/platform/infrastructure/observability/logging.py:646-665 | a directive the check accepts is bounded for the interpreter, and the check stops at its modifier or its conversion |
| `Template.AcceptedTemplatesAreBounded` | backend/voice_agent/platform/infrastructure/observability/logging.py:630-671 | in an accepted template the check saw exactly the directives the interpreter reads if and only if none has a length modifier with a `%` right behind it; then there are at most 64, each bounded, and padding adds at most 64 times 256 characters |
| `Template.AModifiedPercentIsMisread` | backend/voice_agent/platform/infrastructure/observability/logging.py:666-671 | a template that is accepted although the interpreter reads a width of nine digits in it |
| `Events.SetKeeps` | backend/voice_agent/platform/infrastructure/observability/logging.py:317 | assigning a field leaves the others in their order and keeps names unique: what is left when some names are dropped is as if the assignment had been made to that |
| `Events.SetGets` | backend/voice_agent/platform/infrastructure/observability/logging.py:317 | after an assignment a field reads as assigned, every other one as before |
| `Events.WithoutKeeps` | backend/voice_agent/platform/infrastructure/observability/logging.py:373 | taking a field out leaves none of that name and every other field as it was |
| `Pipeline.MergeVariable` | backend/voice_agent/platform/infrastructure/observability/logging.py:326-347 | one context variable: passed over, admitted while there is room, or the marker that fields are left out |
| `Pipeline.MergeBoundedContextvars` | backend/voice_agent/platform/infrastructure/observability/logging.py:298-348 | the loop over the context, at most 800 variables looked at |
| `TwoRuns.MergeIsBounded` | backend/voice_agent/platform/infrastructure/observability/logging.py:298-348 | the context never changes a field of the call but the request ID it binds, and fills at most the places left of 200; one marker more |
| `Pipeline.TrustedIsStable` | backend/voice_agent/platform/infrastructure/observability/redaction.py:508-526 | validating a validated identifier leaves it as it is |
| `Pipeline.EventPipeline.EstablishIdentity` | backend/voice_agent/platform/infrastructure/observability/logging.py:452-472 | level, logger, service, environment and time are validated or replaced |
| `Pipeline.EventPipeline.EstablishRequestId` | backend/voice_agent/platform/infrastructure/observability/logging.py:475-490 | the request ID of the server, outside a request the one of the event |
| `Pipeline.EventPipeline.RenderInfo` | backend/voice_agent/platform/infrastructure/observability/logging.py:364-397 | `stack_info` and `exc_info` are taken out and replaced by constructed texts |
| `Pipeline.EventPipeline.Assemble` | backend/voice_agent/platform/infrastructure/observability/logging.py:493-502 | the metadata in its order, then the sanitised fields under names that are free; a fixed record if sanitising raises |
| `Pipeline.EventPipeline.Process` | backend/voice_agent/platform/infrastructure/observability/logging.py:504-523 | the first pass over an event |
| `Pipeline.EventPipeline.Finish` | backend/voice_agent/platform/infrastructure/observability/logging.py:525-547 | the final pass over an event of either origin |
| `TwoRuns.SkippingIsFiltering` | backend/voice_agent/platform/infrastructure/observability/redaction.py:1611-1615 | the cap on entries looked at never cuts off a field: skipping names comes to the same as an event without them |
| `TwoRuns.SanitizedAgrees` | backend/voice_agent/platform/infrastructure/observability/logging.py:254-258 | fields under the names of operational metadata have no part in what is sanitised, also in which other fields are admitted |
| `TwoRuns.ProcessedAgrees` | backend/voice_agent/platform/infrastructure/observability/logging.py:504-523 | the first pass makes the same event of two calls that differ only in such fields |
| `TwoRuns.FinishedWithinARequest` | backend/voice_agent/platform/infrastructure/observability/logging.py:525-547 | within a request the final pass keeps, besides the metadata, exactly the fields under other names |
| `TwoRuns.NamesOfMetadataAreNotRead` | backend/voice_agent/platform/infrastructure/observability/logging.py:261-547 | the two-run property through both passes: two events that differ only in fields named as metadata give the same line within a request; outside one, if they carry the same request ID |
| `TwoRuns.OutsideARequestTheIdIsRead` | backend/voice_agent/platform/infrastructure/observability/logging.py:475-490 | why that condition is there: outside a request the ID of the event is the one shown |
| `TwoRuns.OperationalMetadataIsEstablished` | backend/voice_agent/platform/infrastructure/observability/logging.py:525-547 | within a request every line starts with six identifiers from the record, the configuration and the server, whatever the event holds, and no other field has one of their names |
| `TwoRuns.LineIsBounded` | backend/voice_agent/platform/infrastructure/observability/logging.py:261-284 | the JSON line of any event is within 131,072 characters |
| `TwoRuns.NoLineIsOversized` | backend/voice_agent/platform/infrastructure/observability/logging.py:751-753 | no line of either path, laid out as JSON, is replaced for being oversized |
| `Runtime.Database.BeginDispose` | backend/voice_agent/platform/infrastructure/db/session.py:138-140 | disposal begins unless it has completed |
| `Runtime.Database.EndDispose` | backend/voice_agent/platform/infrastructure/db/session.py:141-142 | the second flag is set only after the pool is closed |
| `Runtime.RedisClient.BeginClose` | backend/voice_agent/platform/infrastructure/cache/redis_client.py:105-107 | closing begins unless it has completed |
| `Runtime.RedisClient.EndClose` | backend/voice_agent/platform/infrastructure/cache/redis_client.py:108-109 | the second flag is set only after the pool is released |
| `Runtime.InfrastructureRuntime.constructor` | backend/voice_agent/platform/infrastructure/runtime.py:73-81 | a new runtime owns nothing |
| `Runtime.InfrastructureRuntime.BeginStart` | backend/voice_agent/platform/infrastructure/runtime.py:105-116 | start() up to its first suspension; from any state but NEW it is refused and nothing changes |
| `Runtime.InfrastructureRuntime.ContinueStart` | backend/voice_agent/platform/infrastructure/runtime.py:116-128 | start() once the database answered |
| `Runtime.InfrastructureRuntime.BeginStop` | backend/voice_agent/platform/infrastructure/runtime.py:140-156 | stop() up to the release, by state |
| `Runtime.InfrastructureRuntime.BeginReadiness` | backend/voice_agent/platform/infrastructure/runtime.py:158-165 | the readiness check up to its first await |
| `Runtime.InfrastructureRuntime.ContinueReadiness` | backend/voice_agent/platform/infrastructure/runtime.py:166-168 | the readiness check once the database answered |
| `Runtime.InfrastructureRuntime.JoinRelease` | backend/voice_agent/platform/infrastructure/runtime.py:181-189 | an unfinished release task is joined, otherwise a new one takes its place |
| `Runtime.InfrastructureRuntime.WakeRelease` | backend/voice_agent/platform/infrastructure/runtime.py:190-204 | what a caller does each time it is woken: await the task again, or leave, by how it was woken and how the task ended |
| `Runtime.InfrastructureRuntime.ResumeRelease` | backend/voice_agent/platform/infrastructure/runtime.py:206-237 | the release task between two of its suspensions |
| `Runtime.InfrastructureRuntime.ReleaseDatabase` | backend/voice_agent/platform/infrastructure/runtime.py:213-217 | the second half of the release task |
| `Runtime.InfrastructureRuntime.EndRelease` | backend/voice_agent/platform/infrastructure/runtime.py:218-222 | STOPPED only if nothing is owned |
| `Lifecycle.NextKeeps` | backend/voice_agent/platform/infrastructure/runtime.py:105-237 | every step, in any interleaving, keeps the invariant of the lifecycle |
| `Lifecycle.EveryRunIsSafe` | backend/voice_agent/platform/infrastructure/runtime.py:105-237 | in every run STOPPED owns nothing, READY owns both resources, at most one release task is unfinished, a reference is dropped only after its own release returned, nothing is released twice |
| `Lifecycle.NothingIsAdmittedAfterwards` | backend/voice_agent/platform/infrastructure/db/session.py:86-113 | once the release of a resource began, no later step admits a transaction or ping on it |
| `Lifecycle.NothingIsAcquiredDuringRelease` | backend/voice_agent/platform/infrastructure/runtime.py:206-222 | from STOPPING on, what is owned never grows |
| `Lifecycle.ReleaseIsAwaited` | backend/voice_agent/platform/infrastructure/runtime.py:181-204 | in every run a call leaves the release only when its task is done, however often it was cancelled; a cancellation it received is raised then exactly if the task was not cancelled itself and either no await followed the cancellation or the task did not crash; otherwise it leaves as the task ended |
| `Lifecycle.CancellationsAreKept` | backend/voice_agent/platform/infrastructure/runtime.py:190-204 | what a waiting call remembers is what the run did: cancelled at some time, and not woken since |
| `Lifecycle.DoneTasksEndTheirCalls` | backend/voice_agent/platform/infrastructure/runtime.py:191-204 | a call whose task is done can always be woken, and that ends it |
| `Lifecycle.ACrashLosesACancellation` | backend/voice_agent/platform/infrastructure/runtime.py:191-199 | a run in which a caller is cancelled, awaits the task again, and leaves with the crash of the task instead |
| `Lifecycle.ReadinessIsHonest` | backend/voice_agent/platform/infrastructure/runtime.py:158-179 | a report is ready only if both pings were answered in order; otherwise the first failure is named and nothing after it was tried |
| `Lifecycle.SettledIsReached` | backend/voice_agent/platform/infrastructure/runtime.py:206-222 | the world in which everything still awaited completes is reached by steps of the task alone |
| `Lifecycle.AFurtherStopReleases` | backend/voice_agent/platform/infrastructure/runtime.py:140-156 | from any STOPPING run one further stop() whose releases complete reaches STOPPED exactly if it does not join a task that has already given up Redis; if it does, the stop() after it reaches STOPPED |
| `Lifecycle.ATaskGivesUpRedis` | backend/voice_agent/platform/infrastructure/runtime.py:140-156 | a run that comes to such a task, and the further stop() that ends in STOPPING |
| `Migrations.ReadRevisions` | backend/voice_agent/platform/infrastructure/db/migration_graph.py:70-94 | the loop over the revision files, what is kept and what is reported of each |
| `Migrations.BuildChildren` | backend/voice_agent/platform/infrastructure/db/migration_graph.py:98-101 | the map from a revision to those that follow it |
| `Migrations.WalkChain` | backend/voice_agent/platform/infrastructure/db/migration_graph.py:97-107 | the walk from the sole root, if it visits as many revisions as there are; watched for any number of steps, it is still walking exactly if the walk is longer |
| `Migrations.EndsIffNothingRepeats` | backend/voice_agent/platform/infrastructure/db/migration_graph.py:104-106 | the walk ends exactly if it meets no revision twice, and then within as many steps as there are revisions |
| `Migrations.DistinctWalksEnd` | backend/voice_agent/platform/infrastructure/db/migration_graph.py:104-106 | with distinct identifiers the walk from a root ends |
| `Migrations.ADuplicateCanLoop` | backend/voice_agent/platform/infrastructure/db/migration_graph.py:148-163 | a package with a duplicate identifier, one root and no branch whose walk never ends |
| `Migrations.ChainIffLinear` | backend/voice_agent/platform/infrastructure/db/migration_graph.py:97-107 | with distinct identifiers the chain is non-empty exactly if some ordering of all revisions starts at a sole root and links each to its predecessor, and then it is that ordering |
| `Migrations.FindRevisionDefects` | backend/voice_agent/platform/infrastructure/db/migration_graph.py:150-154 | the loop over what each revision refers to |
| `Migrations.Inspect` | backend/voice_agent/platform/infrastructure/db/migration_graph.py:134-181 | the report on a package: counts, roots, heads, chain and every defect in order, unless the walk is still under way after the given number of steps |
| `Migrations.InspectionReturnsIffWalkable` | backend/voice_agent/platform/infrastructure/db/migration_graph.py:104-106 | watched for as many steps as there are revisions or more, the inspection of a package is still under way exactly if it never returns |
| `Baseline.HeadIsLast` | backend/voice_agent/platform/infrastructure/db/migration_graph.py:160-162 | the head list of a line of revisions is exactly its last one |
| `Baseline.Generate` | docs/phase-05-database-design/5K/alembic/gen_revisions.py:68-87 | the loop links each revision file to the one before it |
| `Baseline.NumberedFilesAreSorted` | docs/phase-05-database-design/5K/alembic/gen_revisions.py:14 | files numbered from 001, listed in any order, are sorted into the order of their numbers |
| `Baseline.GeneratedPackagesAreValid` | docs/phase-05-database-design/5K/alembic/gen_revisions.py:68-87 | generator and validator undo each other: for any non-empty list of stems numbered 001 to N, listed in any order, the report has no defect, the chain is the stems in the order of their numbers, the first is the root and the last the head |
| `Baseline.NothingViolated` | backend/voice_agent/platform/infrastructure/db/migration_graph.py:184-204 | the list is empty exactly if nothing differs |
| `Baseline.BaselineIsOneLine` | backend/voice_agent/platform/infrastructure/db/migration_graph.py:184-216 | a package without violations is one line of the expected length from root to head, numbered from 001, every revision with its SQL file |
| `Baseline.TheGateIsExact` | backend/scripts/db_migrate.py:222-243 | with a baseline repository the gate sees no problem exactly for a database at the frozen head; at another revision of the chain the reported distance is the number of down-revision links from the head |
| `Baseline.Gate` | backend/scripts/db_migrate.py:323-372 | the gate passes exactly if every condition holds; each refusal is given exactly if its own condition fails and those before it hold, in the order of the source; all findings are reported |

## Left out

- Migrations.WalkChain: the source takes no number of steps; a walk that never ends is told apart by watching it longer than the list of revisions (`Migrations.InspectionReturnsIffWalkable`).
- Secrecy.SensitiveValuesAreNotRead: what is visible has the same identities in both graphs; that results do not depend on how identities are chosen is not stated.
- Spans.ReplaceSpans: requires that every non-empty span lies within the text, which all callers in the source ensure and `Urls.ScrubUrls` proves for its own.
- Template.AcceptedTemplatesAreBounded: bounds the directives only without a length modifier directly before a `%`; with one, the two readings differ, and a counterexample is given.
- Resanitizing.ResultIsAFixedPointIffSettled: assumes that the budget of the second pass covers what the result needs, which can be read off the result (`Covers`, `NeedOf`; a fresh budget covers short ones), and a scrubber that leaves the emitted strings alone; that the scrubber does is a property of its pattern lists.
- TwoRuns.NamesOfMetadataAreNotRead: outside a request it requires that the two events carry the same request ID, which the source then reads from the event.
- Lifecycle.AFurtherStopReleases: the second stop() is needed when the first joined a task past Redis; this is what the code does.
- Baseline.Generate: the fixed count of 75 files asserted by the script is not modelled, so that the round trip covers every count up to 999.
- Sanitizing.SanitizeSequence: an iteration is a finite list with an ending; an unbounded iterator is represented by its first elements, of which at most 201 are read.
- Values.Value: a subclass of `str` counts as text; the one place where only an exact `str` is accepted as an earlier pass's marker is not told apart, nor is an exact `str` required of an identifier.
- The identities of containers parsed from JSON inside a string are not part of the model's `seen`: they are new objects that the graph cannot reach.
- The recursion limit of the interpreter: depth is bounded by `MAX_DEPTH` and `MAX_JSON_NESTING` before it matters.
- Lone surrogates: characters are Unicode scalar values.
- Regular expressions: token forms, PEM blocks, signed references without a scheme and bare authorities are not modelled; each replaces spans by a mask, for which `Fragments.MaskingIsSound` holds.
- Detection by the word lists of sensitive names: classification is a parameter, and nothing is claimed about which names it contains.
- Percent, entity, backslash and compatibility decoding and the comparison of decoded views: foreign functions of the text.
- The rendering of dates, decimals, paths and bytes: fixed renderers that yield plain ASCII, represented by their result.
- The parts of an exception's description: one function of the exception and the budget.
- Reading frame metadata: the line of a frame is one function of the frame and the budget, so the checks on file and function names are not modelled.
- The class name in a fixed failure record is a parameter; the record that replaces an event when a step other than sanitising raises is not modelled, since no modelled step raises.
- `_admitted` and the bound logger: the same admission rule applied before structlog copies a call.
- The handler around the formatter, emergency lines, uvicorn routing and configuration: straight-line code.
- asyncio itself: suspension, shielding and cancellation are the events of the state machine; a time-out of a release is a release that did not complete.
- Logging done by the runtime, settings, SQL and Redis traffic and the checks of server versions.
- File reading, `ast` parsing, the package digest (a parameter), subprocess calls, argument parsing and printing.
- `migration_target` and `missing_prerequisites`: straight-line checks; the gate takes the derived target as a parameter.
- `\d` in a revision's ordinal also matches digits outside ASCII, which the model does not count as digits.
