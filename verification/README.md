# Verification of the evidence pipeline

The repository runs programs, keeps evidence of what they did, and re-checks that evidence later.
This project models the parts of that pipeline on which its conclusions rest, in Dafny, and proves
what each part promises:

* **Canonical JSON and the sealed ledger** (`tools/tour/jsonc.go`, the ledger in
  `tools/tour/executor.go`). The decoder is a class with a cursor and a path, the printer appends to
  a shared buffer; both are proved against a functional reading and writing of the format. These undo
  each other, and the reading is also compared with a grammar of all JSON texts: what it accepts and
  what it returns is exactly what the grammar says. Floats are a sign, shortest digits and a decimal
  point, with the printer's three layouts.
* **Process supervision** (`tools/corpus/process_lineage.rb`, its Go port `tools/tour/capture.go`,
  and `invoke_subprocess` in `tools/lowering/go_profile.rb`). Each launcher runs against a machine
  that may do anything between two of its steps: the leader ends, descendants fork, write, close
  their pipes or end, signals fail, clocks advance. The acceptors are separate predicates, and what
  the launchers produce is compared with them. Many launchers appending to one ledger are a state
  machine over their starts and appends.
* **Coordinates, source maps and text formats** (`byte_line_index`, `coordinate_problems`,
  `valid_source_map?`, `go_object_archive?`, `auditNormalize`, `validUTF8Strict`, both `splitQuoted`,
  `hashTree`). Two programs compute lines and columns from opposite ends; two split recipe lines; the
  rest are acceptors or framings whose inputs are proved to be read in one way only.
* **Diagnostics and the three-mode pipeline** (`tools/go-oracle/errorcheck.go`, `execute_mode` and
  `exact_verdict` in `tools/corpus/executor.rb` against `tools/go-full/resume.rb`).
* **Shared state** (the lease in `tools/fence-corpus/toolchains.go`, path overlap in
  `tools/go-full/subset.rb`).

One module stands for one component; `JsonSpelling`, `JsonGrammar`, `JsonLayout` and `ErrorReports` say
letter by letter what others compute. `ByteStrings`, `Lines` and `Digits` hold what several share, and
`SampleLaunches` the concrete launches that counterexamples are made of.
`dafny verify dfyconfig.toml` checks everything.

## Assumptions

A byte is an integer from 0 to 255, and Go and Ruby strings are sequences of bytes. Integers are
unbounded except where 64 bits matter: the JSON integers and the deadline of the Go launcher.
The process machines assume what the operating system gives: an empty group that the runner owns
stays empty, only processes of the group write the files of its launch, monotonic clocks do not go
back, spawning fails or yields a process, and a reap yields an exit code or a signal, never both. No
launch identifier is drawn twice, and a launch is started under a parent only after the parent's
launch returned. The number library's correct rounding is a parameter
(`nearest`), and a float is a decimal that rounding leaves alone. Regular expressions of annotations
are a predicate on the pattern's text and the diagnostic's text.

## Where a promise holds only under a condition

* A ledger's root is the digest of the file's own bytes if and only if the ledger is not empty: the
  root of no records is taken over a line feed, the file has no bytes (`Ledger.RootIsFileUnlessEmpty`).
* On an empty artifact `coordinate_problems` rejects every place, while the offset 0 has line 1 and
  column 1 in the other file's arithmetic (`Coordinates.EmptyArtifact`). On every other artifact the
  two agree.
* The acceptor, which reads the recorded files again, takes a receipt of the Ruby launcher if and only
  if no wait for the leader failed, the wall clock is not behind where it stood when the launch began,
  and no recorded file has changed since it was recorded; without survivors none can have. For the Go
  launcher start plus timeout must fit in 64 bits, too; a timeout of 2^63 - 1024 nanoseconds is refused
  for nothing else when the launch begins 1024 nanoseconds after the program
  (`Capture.WrappedDeadlineIsRefused`). Its failed wait leaves a receipt that is refused on Windows, and
  none on Unix, where the state that is missing is read all the same (`Capture.CaptureLaunch`). For
  every order there is an observation with all that is proved of launches, both denied sweeps and the
  whole grace included, whose leader is reaped and whose receipt a surviving descendant spoils by
  writing on (`Launcher.SurvivorSpoilsReceipt`).
* A ledger passes the joins if and only if every receipt found, when it was appended, the sources of its
  artifacts recorded; launches whose sources are recorded as they start suffice. Every order that
  `execute_mode` gives is such a one: it records the generated source before it goes on, and fails on
  a link. So a ledger that passed the joins, or was empty, passes them afterwards, as long as the
  receipts of other launchers are joined (`Pipeline.ExecuteMode`).
* `invoke_subprocess` reports a clean end without having all bytes only for a pipe whose read broke
  with an error; every other pipe was read to its end. An outcome with all that is proved of outcomes,
  exit code 0 and none of the bytes that were written is `Invocation.BrokenReadLosesOutput`.
* The comment on `matchPrefix` gives a regular expression; the code follows it exactly for
  directories without a colon, and a colon in a directory hides a diagnostic
  (`ErrorCheck.ColonInDirectoryHides`).
* The order of the annotations matters if and only if in some order each of them has a text that no earlier
  one takes, and two of them would claim one text (`AnnotationOrder.OrderMattersExactly`). So two
  annotations of one line whose patterns no text meets together may stand in either order. If nothing is
  known of the patterns, then, for plainly named files and generated code aside, the order never matters
  if and only if one is repeated or no two share a line (`AnnotationOrder.AlwaysOrderFreeExactly`).
* A complete run passes the shape checks of the re-check if and only if its streams were captured apart:
  `stage!` fetches both streams, and the record of a combined capture has neither
  (`Verdicts.AcceptedIffSeparate`). On separate streams the two verdicts agree. On combined ones the
  re-check's own verdict would not look at the output, and could pass what the executor fails
  (`Verdicts.CombinedVerdictsDiffer`); `Verdicts.VerdictsDiffer` says by exactly how much the two differ.
* `canonical_path` returns a path if and only if replacing first links comes to an end there without a
  component that is read through more than forty links; how many links there are side by side does not
  matter (`CanonicalPath.ResolvesExactly`).
* `overlapping?` is containment by components except when one path is the root, where it only sees
  equality (`CanonicalPath.OverlapsExactly`).
* The Go and the Python splitter agree on all lines if and only if their notions of space agree on
  every rune other than quotes and backslash. Go's and Python's own notions do not: they split a line
  differently if and only if one of U+001C to U+001F stands in it outside quotes and without a backslash
  (`SpaceNotions.SeparatorTellsThemApart`, `SpaceNotions.LanguagesDifferExactly`).

## Model

| member | source | states |
|---|---|---|
| JsonRoundTrip.DecodingUndoesPrinting | tools/tour/jsonc.go:28-133 | for every nested value of null, booleans, byte strings, int64, floats, lists and maps, the decoder returns from the canonical text that very value |
| JsonRoundTrip.CanonicalInjective | tools/tour/jsonc.go:430-432 | equal canonical texts come from equal values only, so comparing texts decides equality of values |
| JsonRoundTrip.PrintingNormalizes | tools/tour/jsonc.go:185-197 | any accepted text, printed canonically, decodes to the same value again |
| JsonGrammar.DecodesExactly | tools/tour/jsonc.go:185-419 | data decodes to a value if and only if it is a JSON text that means the value: tokens with any runs of space, tab, line feed and carriage return before, between and after them; strings of raw bytes, escapes, code units and surrogate pairs; any numeral; later fields replacing earlier ones |
| JsonGrammar.SpacedTextDecodes | tools/tour/jsonc.go:199-207 | the tokens of a value's canonical text, with any space before, between and after them, decode to that value |
| JsonGrammar.SpaceMeansNothing | tools/tour/jsonc.go:199-207 | texts that differ in space only mean the same |
| JsonGrammar.CanonicalHasTokens | tools/tour/jsonc.go:28-133 | every canonical text is one of those texts, and means the value that was printed |
| JsonGrammar.ReadText | tools/tour/jsonc.go:658-666 | every JSON text is read to its end, with its keys in the order of the text, each under the keys that lead to its object |
| JsonRoundTrip.ParsedIsStorable | tools/tour/jsonc.go:210-232 | whatever the decoder returns is printable, and its numbers are floats if rounding returns floats |
| JsonRoundTrip.ReadValue | tools/tour/jsonc.go:210-232 | a canonical text inside any data is read up to its last byte, provided that a number is stopped by a byte that no number contains; with the order of keys that the text shows |
| JsonRoundTrip.ReadQuoted | tools/tour/jsonc.go:280-336 | the string reader undoes the escaping of every byte string |
| JsonSpelling.ReadPieces | tools/tour/jsonc.go:280-336 | every spelling of a string is read as the bytes that it spells: letters after a backslash, hex digits in either case, pairs of surrogates, and the replacement character for a lone one |
| JsonSpelling.FindPieces | tools/tour/jsonc.go:280-336 | and nothing else is read as a string |
| JsonSpelling.ReadNumeral | tools/tour/jsonc.go:242-278 | every numeral is read as the integer that it writes if it fits, and otherwise as the float nearest to its exact decimal |
| JsonSpelling.FindNumeral | tools/tour/jsonc.go:242-278 | and nothing else is read as a number |
| JsonRoundTrip.IntIsClassified | tools/tour/jsonc.go:242-278 | the text of every int64 is read back as that integer |
| JsonRoundTrip.FloatIsClassified | tools/tour/jsonc.go:242-278 | the text of every float is one number token, read as a float and never as an integer |
| JsonRoundTrip.CanonicalIsOneLine | tools/tour/jsonc.go:105-133 | a canonical text has no control byte, so that it can be a line of a ledger |
| JsonLayout.CanonicalSpells | tools/tour/jsonc.go:37-103 | the words, signs, brackets and commas of each kind of value, letter by letter and without space, and the fields of an object by increasing keys |
| JsonLayout.EscapeSpells | tools/tour/jsonc.go:105-133 | which bytes of a string are escaped, and how each of them is |
| Floats.FloatRoundTrip | tools/tour/jsonc.go:139-172 | every layout reads back to the very digits and decimal point it was printed from |
| Floats.LayoutKeepsWorth | tools/tour/jsonc.go:139-172 | every layout, read as a numeral, is worth sign times digits times a power of ten as the float is |
| JsonLayout.ExponentShows | tools/tour/jsonc.go:139-172 | a float is printed with an exponent if and only if it is less than 0.0001 or at least ten to the sixteenth |
| JsonLayout.PaddedSpells | tools/tour/jsonc.go:139-172 | the exponent has its sign and at least two digits, and spells its number |
| Floats.NormalizeKeepsWorth | tools/tour/jsonc.go:139-172 | stripping zeros changes neither the sign nor the number, so reading loses nothing |
| Floats.ReadRubyFloat | tools/tour/jsonc.go:139-172 | the printed text spells exactly its layout: zeros, digits, point and exponent |
| JsonDecoder.Decoder.Number | tools/tour/jsonc.go:242-278 | the scan takes the longest number token and fails or classifies it as specified, whatever stood in the decoder |
| JsonDecoder.Decoder.Str | tools/tour/jsonc.go:280-336 | the cursor loop over quotes, escapes and surrogate pairs reads the specified string or fails as specified |
| JsonDecoder.Decoder.DecodeValue | tools/tour/jsonc.go:210-232 | the same failure or the same value, cursor, path and key orders as the specified parse |
| JsonDecoder.Decoder.DecodeList | tools/tour/jsonc.go:338-367 | the loop over items reads the specified list, and leaves the path as it was |
| JsonDecoder.Decoder.DecodeObject | tools/tour/jsonc.go:369-419 | the loop over keys reads the specified map, with later keys replacing earlier ones, and leaves the path as it was |
| JsonDecoder.ParseJsonText | tools/tour/jsonc.go:185-197 | one value and nothing but space around it, or a failure; which texts have which value is said by `JsonGrammar.DecodesExactly` |
| JsonDecoder.ParseJsonOrdered | tools/tour/jsonc.go:658-666 | the value and, by dotted path, the keys in the order in which they were met |
| JsonDecoder.RecordTells | tools/tour/jsonc.go:386-390 | under each dotted path stand the keys that were met there, in their order, and under no other path anything |
| JsonDecoder.DottedSpells | tools/tour/jsonc.go:386-390 | a dotted path is its keys with points between them |
| JsonPrinter.WriteJsonString | tools/tour/jsonc.go:105-133 | appends the quoted and escaped string and changes nothing before it |
| JsonPrinter.SortStrings | tools/tour/jsonc.go:584-591 | the keys in increasing bytewise order, none lost and none added |
| JsonPrinter.WriteJson | tools/tour/jsonc.go:37-103 | appends exactly the canonical text, or fails on a number that is not finite |
| JsonPrinter.CanonicalText | tools/tour/jsonc.go:29-35 | the canonical text of a printable value |
| ByteStrings.IncreasingUnique | tools/tour/jsonc.go:584-591 | a set of keys has one increasing listing, so the sorted printer has one possible output |
| Ledger.WriteLedger | tools/tour/executor.go:1101-1111 | the file is the canonical lines, each with its line feed |
| Ledger.LedgerRootInput | tools/tour/executor.go:1093-1099 | the bytes fed to the digest are the joined lines and one line feed |
| Ledger.ReadLedger | tools/tour/executor.go:1113-1142 | the line loop returns the specified records or the first specified error |
| Ledger.ReadExactly | tools/tour/executor.go:1113-1142 | a file is read as these records if and only if it is their canonical text, up to carriage returns and the missing or present last line end |
| Ledger.ReadUndoesWrite | tools/tour/executor.go:1101-1142 | reading what was written returns the same records |
| Ledger.RootInjective | tools/tour/executor.go:1093-1099 | different record lists have different bytes under the digest |
| Ledger.RootIsFileUnlessEmpty | tools/tour/executor.go:1093-1111 | the digest is over the file's own bytes if and only if there are records |
| Utf8.ValidIsGrammar | tools/tour/executor.go:527-559 | the strict scan accepts exactly UTF8-octets of section 4 of RFC 3629 |
| Utf8.ValidIsEncoding | tools/tour/executor.go:527-559 | it accepts exactly what encoding Unicode scalar values produces: no overlong form, no surrogate, nothing above U+10FFFF |
| Normalizer.ValidUtf8Strict | tools/tour/executor.go:527-559 | the index loop decides validity |
| Normalizer.AuditNormalize | tools/tour/executor.go:483-523 | the two loops equal folding of line ends, then leftmost replacement of addresses, and refuse invalid text |
| Normalizer.FoldCarriageReturns | tools/tour/executor.go:488-498 | CR and CRLF become LF |
| Normalizer.FoldSpells | tools/tour/executor.go:488-498 | each CRLF and each other CR is one line feed, and everything else stays |
| Normalizer.MaskAddresses | tools/tour/executor.go:499-521 | the in-place scan equals leftmost replacement of word-bounded `0x` runs of eight or more hex digits |
| Normalizer.AddressSpells | tools/tour/executor.go:499-521 | `0x` and eight or more hex digits with no word byte on either side become `0xADDR`, and what stands before and after is replaced apart |
| Normalizer.NothingReplaced | tools/tour/executor.go:499-521 | text without an address is left as it is |
| Normalizer.ReplaceSplits | tools/tour/executor.go:499-521 | two parts are replaced apart wherever no word goes on from the one to the other |
| Normalizer.AddressIsWord | tools/tour/executor.go:499-521 | an address is a whole word of the text |
| Normalizer.ReplaceIdempotent | tools/tour/executor.go:499-521 | replacing twice is replacing once |
| Normalizer.NormalizedIsStable | tools/tour/executor.go:483-523 | normalized text is valid UTF-8, has no CR and normalizes to itself |
| Launcher.Run.SignalGroup | tools/corpus/process_lineage.rb:66-84 | exactly one event more, of the group and for the reason, whether or not the signal was delivered |
| Launcher.WaitGroupEmpty | tools/corpus/process_lineage.rb:86-96 | says empty only when the group is |
| Launcher.AwaitLeader | tools/corpus/process_lineage.rb:124-139 | the polling loop reaps the leader unless a wait fails; a leader that was found running at its deadline was killed then, and a deadline is claimed in no other case |
| Launcher.KillAndWait | tools/corpus/process_lineage.rb:131-136 | past the deadline the group is sent one signal for that reason before the leader is waited for |
| Launcher.SweepDescendants | tools/corpus/process_lineage.rb:140-144 | a leak is claimed only with a sweep on record |
| Launcher.RecordArtifacts | tools/corpus/process_lineage.rb:156-167 | the streams of the output mode, and of the declared artifacts exactly those that are regular files, under their declared parents |
| Launcher.Supervise | tools/corpus/process_lineage.rb:110-155 | whatever the machine does, state, events and times are consistent with it |
| Launcher.Launch | tools/corpus/process_lineage.rb:98-184 | the acceptor, the second look at the files included, takes the receipt if and only if no wait failed, the wall clock is not behind its start and no recorded file changed; the receipt names the order field by field and reports the machine truthfully: its times, each signal and how it was received, a kill at the deadline exactly for a leader that was found running then, and a sweep exactly when descendants were found; success means exit 0, no kill and an empty group; an order is refused only for its arguments, a label kept for streams or a stream that is no plain file |
| Launcher.Verdict | tools/corpus/process_lineage.rb:302-358 | the acceptor's clauses on the receipt alone hold if and only if three conditions on the launch do |
| Launcher.SurvivorSpoilsReceipt | tools/corpus/process_lineage.rb:359-363 | for every order an observation with all that is proved of launches, of a reaped leader whose descendants survived both sweeps and the grace, whose receipt is accepted as recorded and refused after a survivor wrote to a file |
| Launcher.SuccessIsClean | tools/corpus/executor.rb:241-243 | a successful stage had no kill event, one reap, no descendant and an empty group |
| Capture.LaunchIdIsAccepted | tools/tour/capture.go:64-73 | the identifier made of any sixteen random bytes meets the acceptor's pattern for version 4 UUIDs |
| Capture.AwaitWaiter | tools/tour/capture.go:249-271 | with a waiter beside it the poll loop ends with one event, which has a status unless the wait failed; a leader that was not found ended at its deadline was killed then, and a deadline is claimed in no other case |
| Capture.CaptureLaunch | tools/tour/capture.go:170-346 | the Ruby acceptor takes the Go receipt if and only if no wait for the leader failed, the deadline fits in 64 bits, the wall clock is not behind its start and no recorded file changed; a receipt without survivors tells the truth, after a failed registration, too; success is clean, and times, signals and deadline are the machine's, as in Ruby; a failed wait leaves no receipt exactly where a missing state cannot be read |
| Capture.WrappedDeadlineIsRefused | tools/tour/capture.go:194-197 | for every start and timeout in 64 bits, the receipt of a prompt launch is valid if and only if their sum fits, and is always valid with the true sum |
| Joins.EveryLedgerIsAccepted | tools/corpus/process_lineage.rb:280-300 | for every interleaving of launchers that start after their parents returned, when the artifacts that each launch is to be made from are recorded as it starts, the ledger passes the joins at every moment |
| Joins.AcceptedIffJoined | tools/corpus/process_lineage.rb:280-300 | for every interleaving, whatever artifact parents the launches name, the ledger passes if and only if every appended receipt found its sources recorded |
| Joins.AppendKeeps | tools/corpus/process_lineage.rb:240-250 | appending changes nothing, either way, about the joins of earlier receipts |
| Joins.FollowerJoins | tools/corpus/process_lineage.rb:240-250 | the receipt of an order that was entitled when it departed is joined, whatever was appended in between |
| Joins.PrefixIsAccepted | tools/corpus/process_lineage.rb:280-300 | every prefix of an accepted ledger is accepted |
| Joins.ParentsReachRoot | tools/corpus/process_lineage.rb:280-300 | following parents from any launch ends at one without a parent |
| Joins.ChainIsUnique | tools/corpus/process_lineage.rb:280-300 | and there is one such chain |
| Invocation.WaitGroupEmpty | tools/lowering/go_profile.rb:188-195 | says empty only when the group is, within the grace |
| Invocation.KillGroup | tools/lowering/go_profile.rb:204-221 | TERM, and KILL only for a group that is still alive after the grace; no signal for an empty one; within a bounded time |
| Invocation.Session.NoticeEnd | tools/lowering/go_profile.rb:255-259 | the leader's end is noticed once and starts the drain grace |
| Invocation.Session.Judge | tools/lowering/go_profile.rb:262-281 | the child is cut short only when its time is up: at its timeout if it was just waited for in vain, or when the grace after its end is over and something is outstanding |
| Invocation.Session.Pump | tools/lowering/go_profile.rb:282-313 | what was read stays in order and without gaps, and a pipe is dropped only at its end or when it breaks |
| Invocation.Session.Observe | tools/lowering/go_profile.rb:254-314 | the loop ends, by a bound on timeout, graces and slices, with the tree finished or cut short |
| Invocation.Session.Finish | tools/lowering/go_profile.rb:316-343 | the leader is reaped, and the group is empty or reported as unreapable |
| Invocation.InvokeSubprocess | tools/lowering/go_profile.rb:237-361 | the child is cut short exactly when the lifecycle is not clean, and only when its time is up: at the timeout with a leader that was just waited for in vain, or a grace after its leader was joined, with a pipe not over or the group just found alive; it is signalled only after that, KILL only after TERM and the grace; every pipe is watched in every turn and read when ready, and after the cut for the whole final drain; a clean lifecycle implies a reaped leader, an empty group, no signal, and all bytes of every pipe that did not break; on any return the group is empty or unreapable, sent KILL and found alive after the last grace; the exit code is that of the leader, or 124; the loop is bounded |
| Invocation.BrokenReadLosesOutput | tools/lowering/go_profile.rb:237-361 | for either pipe and any bytes, a clean outcome with exit code 0 that keeps all promises and has none of them, after a read that broke |
| Lines.SplitUndoesJoin | tools/tour/executor.go:1093-1142 | lines without line feeds come back from their joined text |
| Lines.LinesStand | tools/lowering/go_profile.rb:831-840 | a line of a split text stands at the sum of the lines before it and ends at a line feed or the end |
| Coordinates.ByteLineIndex | tools/lowering/go_profile.rb:831-840 | the running offset gives where each line stands in the text |
| Coordinates.CoordinateProblems | tools/lowering/go_profile.rb:853-876 | at most one problem, the first that keeps the triple from being a place, and exactly that one; none if and only if the place is accepted |
| Coordinates.PositionIsCoordinate | tools/corpus/executor.rb:182-189 | the newline count and last newline of any offset give a line and column that lead back to the offset |
| Coordinates.OffsetIsPosition | tools/lowering/go_profile.rb:853-876 | the offset of any line and column has that line and column by the other file's arithmetic |
| Coordinates.LeadsToExactly | tools/corpus/executor.rb:182-189 | counting line feeds before an offset finds exactly the line and column from which walking the lines leads back to it, on empty contents too |
| Coordinates.Bijection | tools/lowering/go_profile.rb:831-876 | offsets 0 to size and the valid lines and columns of a non-empty artifact correspond one to one |
| Coordinates.PositionsDiffer | tools/corpus/executor.rb:182-189 | different offsets have different positions |
| Coordinates.EmptyArtifact | tools/lowering/go_profile.rb:831-876 | on an empty artifact no place is accepted, though offset 0 has a position |
| Coordinates.ContinuesInside | tools/lowering/go_profile.rb:853-876 | the bytes that are taken for the inside of a character are those after the first byte of a character's encoding |
| SourceMap.ExpectedPositions | tools/corpus/executor.rb:150-163 | the loop with its pending marker finds the marked lines, or refuses a malformed or dangling marker |
| SourceMap.MarkersSpell | tools/corpus/executor.rb:154-161 | which lines are markers, numbered markers and blank, letter by letter |
| SourceMap.IndentSpells | tools/corpus/executor.rb:160-160 | the column of a line of code is the length of the longest run of tabs and spaces at its start, and one |
| ByteStrings.StripsExactly | tools/corpus/executor.rb:155-156 | stripping takes the white bytes at both ends and nothing else |
| SourceMap.CheckSources | tools/corpus/executor.rb:127-148 | accepts exactly sources laid end to end with one spare offset each, at their true sizes |
| SourceMap.CheckEntry | tools/corpus/executor.rb:167-195 | accepts exactly the entries whose global offset falls on the source they name at their local offset, whose line and column lead to that offset by walking the lines, and which point into the emitted lines |
| SourceMap.ValidSourceMap | tools/corpus/executor.rb:108-200 | accepts exactly the maps whose sources, markers and entries fit |
| SourceMap.BasesGrow | tools/corpus/executor.rb:141-148 | the address ranges of sources never touch |
| SourceMap.OffsetDecodesOnce | tools/corpus/executor.rb:141-148 | a global offset falls on one source at most |
| SourceMap.OffsetDecodes | tools/corpus/executor.rb:141-148 | every offset below the end falls on some source |
| SourceMap.EntriesDecode | tools/corpus/executor.rb:167-195 | in an accepted map each entry names the one source and local offset that its global offset decodes to |
| SourceMap.EntriesFollowMarkers | tools/corpus/executor.rb:150-165 | in an accepted map the entries rise line by line, stand on exactly the first line of code after each run of markers, and point at its first character |
| SourceMap.CheckersAgree | tools/corpus/executor.rb:167-195 | the other file's coordinate checker accepts every accepted entry, unless its source is empty or the place is inside a character |
| ObjectArchive.GoObjectArchive | tools/corpus/executor.rb:82-106 | the loop ends and accepts exactly the bytes that split into magic and padded members to the last byte, with distinct names, both Go members and the object's magic |
| ObjectArchive.HeaderSpells | tools/corpus/executor.rb:89-100 | a member is well formed if and only if its header of sixty bytes gives its size in decimal in ten bytes from the forty-ninth, ends with a grave accent and a line feed, and one byte pads an odd body |
| ObjectArchive.NameSpells | tools/corpus/executor.rb:96-97 | the name is the first sixteen bytes without the white bytes at their end |
| ObjectArchive.MagicSpells | tools/corpus/executor.rb:104-104 | the object's magic is a zero byte, `go`, digits and `ld`, anywhere |
| ObjectArchive.SplitsOnce | tools/corpus/executor.rb:82-106 | there is one such split |
| ObjectArchive.ParseEnds | tools/corpus/executor.rb:88-101 | walking headers finds a list of members if and only if their texts make up the rest of the file |
| ObjectArchive.ReadMemberStands | tools/corpus/executor.rb:89-95 | a member is read at an offset if and only if it is well formed and stands there |
| SplitQuoted.SplitInGo | tools/go-oracle/recipe.go:410-454 | never writes past its buffer of one rune for each byte, and returns or refuses as the state machine says |
| SplitQuoted.SplitInPython | tools/go-full/inventory.py:144-169 | returns or refuses as the same state machine |
| SplitQuoted.AgreeIffSameSpaces | tools/go-full/inventory.py:144-169 | two splitters agree on every line if and only if they agree on what space is, quotes and backslashes apart |
| SpaceNotions.SeparatorTellsThemApart | tools/go-oracle/recipe.go:433-440 | the line U+001C is one argument for Go and none for Python |
| SpaceNotions.GoSpaceSpells | tools/go-oracle/recipe.go:433-440 | the twenty-five code points that Go takes for space |
| SpaceNotions.LanguagesDifferExactly | tools/go-full/inventory.py:160-164 | Go and Python split a line differently if and only if a separator stands in it outside quotes and without a backslash |
| SpaceNotions.DifferExactly | tools/go-full/inventory.py:160-164 | the same for any two notions of space of which one is narrower |
| SplitQuoted.SplittingUndoesQuoting | tools/go-oracle/recipe.go:410-454 | every list of arguments, empty ones too, is recovered from its quoted and escaped rendering, with either quote, any further escapes and any gaps |
| QuotingGrammar.AcceptsExactly | tools/go-oracle/recipe.go:410-454 | a line has these arguments if and only if it reads as gaps, plain runes, escapes and closed quoted sections whose words they are; a line that does not read so is refused |
| QuotingGrammar.AcceptedIsLine | tools/go-full/inventory.py:144-169 | every accepted line reads as such tokens |
| QuotingGrammar.LineIsRead | tools/go-full/inventory.py:144-169 | from any state between tokens the machine ends a word exactly at a gap, and a word is open exactly when a token of it was read |
| TreeHash.HashTree | tools/bridge-corpus/bridgecorpus.go:206-235 | the bytes fed to the hash are the frames of the files in the order of their names, however the walk met them |
| TreeHash.FrameSpells | tools/bridge-corpus/bridgecorpus.go:226-233 | a frame is the length of the name, the name, the length of the contents and the contents, with colons between them |
| TreeHash.UnframeUndoesStream | tools/bridge-corpus/bridgecorpus.go:226-233 | a decoder recovers every list of names and contents from its stream |
| TreeHash.UnframedIsStream | tools/bridge-corpus/bridgecorpus.go:226-233 | and takes nothing that is not the stream of what it returns |
| TreeHash.StreamInjective | tools/bridge-corpus/bridgecorpus.go:226-233 | different lists have different streams |
| TreeHash.TreesDiffer | tools/bridge-corpus/bridgecorpus.go:206-235 | two trees have equal streams if and only if they are equal |
| ErrorCheck.MatchesAsDocumented | tools/go-oracle/errorcheck.go:66-83 | for the place of a file a match is the documented form with a colon-free directory, both ways |
| ErrorCheck.ColonInDirectoryHides | tools/go-oracle/errorcheck.go:66-83 | a diagnostic of the documented form that is not matched |
| ErrorCheck.PlacesExclude | tools/go-oracle/errorcheck.go:66-83 | no diagnostic matches two different places |
| ErrorCheck.PartitionStrings | tools/go-oracle/errorcheck.go:85-94 | both parts in order, nothing lost |
| ErrorCheck.CheckOne | tools/go-oracle/errorcheck.go:179-207 | one turn leaves the unmatched behind the others, and complains exactly as it should |
| ErrorCheck.ErrorCheck | tools/go-oracle/errorcheck.go:160-232 | the list of reports, which is empty if and only if every annotation is served and no local diagnostic is left |
| ErrorReports.HitsSpell | tools/go-oracle/errorcheck.go:179-202 | an annotation takes what stands at its file and line, or at `<autogenerated>`, with a message, after the first space, that its pattern matches |
| ErrorReports.AtPlaceSpells | tools/go-oracle/errorcheck.go:66-83 | a diagnostic stands at a plainly named file's line if and only if it is a directory without a colon, the file, a colon, the line in decimal, and a colon or a bracket |
| ErrorReports.GeneratedSpells | tools/go-oracle/errorcheck.go:66-83 | a diagnostic stands at `<autogenerated>` if and only if that word follows such a directory, and a colon follows it, or a bracket and then, with no slash between, a colon |
| ErrorReports.TurnTells | tools/go-oracle/errorcheck.go:179-207 | in its turn an annotation is reported missing if nothing unclaimed stands at its place, and unmatched, with what stands there, if nothing of it matches |
| ErrorReports.ReportsTell | tools/go-oracle/errorcheck.go:179-232 | the list holds what each annotation is told in its turn, and every unclaimed diagnostic of the files under a heading of its own |
| ErrorCheck.DiagnosticsAreConserved | tools/go-oracle/errorcheck.go:179-207 | through the whole loop every diagnostic is still pending or was taken by one annotation, counting repetitions |
| ErrorCheck.TakenAreHits | tools/go-oracle/errorcheck.go:192-202 | an annotation takes only diagnostics at its place and of its pattern |
| ErrorCheck.ConsumedCounts | tools/go-oracle/errorcheck.go:179-207 | each annotation takes exactly what no earlier one claims |
| ErrorCheck.NilMeansPasses | tools/go-oracle/errorcheck.go:179-232 | nothing is reported if and only if each annotation is the first to claim some diagnostic and no unclaimed one is local |
| ErrorCheck.OrderDoesNotMatter | tools/go-oracle/errorcheck.go:179-232 | for annotations on distinct lines every order gives the same verdict |
| AnnotationOrder.OrderMattersExactly | tools/go-oracle/errorcheck.go:179-232 | for every list of annotations, every meaning of their patterns and every list of file names, two orders differ on some output if and only if in some order each annotation hits a text that no earlier one hits, and some text is hit by two annotations |
| AnnotationOrder.PassesIfSeparable | tools/go-oracle/errorcheck.go:179-232 | some order passes on some output if and only if in some order each annotation hits a text that no earlier one hits, whatever the file names are |
| AnnotationOrder.AlwaysOrderFreeExactly | tools/go-oracle/errorcheck.go:179-232 | for files named without colon and slash, the order matters under no meaning of the patterns if and only if an annotation is repeated or no two share a line |
| ErrorCheck.OrderMattersOnOneLine | tools/go-oracle/errorcheck.go:179-232 | two annotations of one line that pass in one order only |
| Pipeline.ExecuteMode | tools/corpus/executor.rb:653-804 | for every outcome of launches and inspections the stages are a prefix of the recipe, launched one under the other, nothing follows a failure, complete means the whole recipe, and a record with intact inputs that is complete or failed at a stage is shaped as `tools/go-full/resume.rb:99-164` demands, and accepted unless a run was combined; a run counts as complete if and only if it started and ended by itself; the standing is the one that the stages and the looks at files call for, in all modes, and the looks are listed as they turned out; a record is missing only when a launch was refused, a product is a link or a source is left where the program runs; each receipt is filed under its stage with its stage's artifacts; each order names a recorded parent and recorded sources, made from a regular file; a joined ledger passes the joins again at the end |
| Pipeline.DepartureIsSound | tools/corpus/executor.rb:722-733 | the order of a stage is entitled on the ledger of that moment, whatever was appended since the stage before, and names sources only of a generated source that is a regular file |
| Pipeline.MakeProduct | tools/corpus/executor.rb:747-775 | a transpilation is recorded only when both products are regular files, and is missing when one of two regular files is empty; a link where a file is looked for ends the mode |
| SampleLaunches.WellEndedIsAccepted | tools/corpus/process_lineage.rb:359-363 | for every order that can be launched and any files that hold its streams, the receipt of a leader that ended at once with code 0 is accepted on these files, follows the order and records exactly the declared files that are there |
| Staging.Journal.CaptureStage | tools/corpus/executor.rb:826-845 | a launch of that order beside other launchers, whose receipt is appended after it; if the order is entitled and the others' receipts are joined, a joined ledger stays joined |
| Pipeline.RunCommands | tools/corpus/executor.rb:703-777 | the same for the loop alone, with a look at the inputs before and after each command |
| Pipeline.RunNative | tools/corpus/executor.rb:780-801 | the same for the run of what was built |
| Pipeline.EffectsTell | tools/corpus/executor.rb:853-857 | runs from equal directories have equal effects if and only if they leave equal directories; the effects are the paths that changed, and undoing them gives the directory from before |
| Verdicts.VerdictsDiffer | tools/corpus/executor.rb:859-874 | the executor passes a record if and only if the re-check does, the modes stand in order and the captures are the same |
| Verdicts.ExactPassSpells | tools/corpus/executor.rb:859-874 | the executor passes a record if and only if its modes are the three in order, complete and intact, and, when run, all ended by themselves without a signal, with one exit code, one set of effects and the same digests of each stream |
| Verdicts.ExecutionPassSpells | tools/go-full/resume.rb:166-176 | the re-check passes a record if and only if its modes are complete and intact, and, when run, all ended so, with one exit code, one set of effects and the same digests of the streams that were captured apart |
| Verdicts.SeparateVerdictsAgree | tools/go-full/resume.rb:166-176 | for modes that were executed with separate streams both give the same verdict |
| Verdicts.AcceptedIffSeparate | tools/go-full/resume.rb:64-70 | a complete run of the executor passes the shape checks if and only if its streams were captured apart |
| Verdicts.AcceptedIffExecuted | tools/go-full/resume.rb:99-164 | the shape checks take a record of separate streams if and only if the executor may have written it, complete or failed at a stage |
| Verdicts.MissingProductIsRefused | tools/go-full/resume.rb:145-157 | a record is refused in which a stage that succeeded left too little, or a compilation a program |
| Verdicts.CombinedVerdictsDiffer | tools/go-full/resume.rb:166-176 | a record of modes that the executor may write, with one descriptor for both streams, that the executor fails and the verdict of the re-check would pass; its shape checks refuse every mode. Each receipt follows its stage's order and is accepted, and together they pass the joins |
| Lease.StepIsSound | tools/fence-corpus/toolchains.go:82-210 | every step of every run keeps one holder, a held lock, and the mode that each walk has reached |
| Lease.LeaseIsSafe | tools/fence-corpus/toolchains.go:123-130 | in every history at most one run holds the lease, and the three trees are read-only while any run executes cases |
| Lease.TreesSpell | tools/fence-corpus/toolchains.go:148-148 | the shared trees are `bin`, `python` and `uv` |
| Lease.OnlyTheHolderChanges | tools/fence-corpus/toolchains.go:92-112 | whenever files or modes change, the one holder changed them |
| Lease.CasesSeeOneTree | tools/fence-corpus/toolchains.go:203-210 | from the first case of a run to its last no file and no mode changes |
| Lease.FreeMeansThawed | tools/fence-corpus/toolchains.go:95-105 | when no run is killed and no walk fails on release, a free directory is writable all over |
| Lease.Directory.ToolMode | tools/fence-corpus/toolchains.go:60-80 | the walk, among the steps of other runs, visits everything or stops early |
| Lease.Directory.FenceProvision | tools/fence-corpus/toolchains.go:82-210 | among any steps of other runs the code ends with the lease and frozen trees, or with everything released |
| Lease.Directory.EndLease | tools/fence-corpus/toolchains.go:95-105 | unless a change of mode or the removal fails, the whole directory is writable when the lock goes |
| CanonicalPath.CanonicalPath | tools/go-full/subset.rb:42-57 | the loop with its recursion ends on every graph of links and computes the resolution, or refuses at the depth bound |
| CanonicalPath.LinkLeads | tools/go-full/subset.rb:45-50 | a link whose text goes up some directories and then down some names leads there, from its own directory if the text is relative and from the root if it is absolute, never above the root; what follows the link is appended |
| CanonicalPath.IdlePartsVanish | tools/go-full/subset.rb:45-50 | an empty part, a `.`, or a name with `..` after it may be left out of a link's text without changing how any path resolves |
| CanonicalPath.TextSpells | tools/go-full/subset.rb:44-46 | the text of a path has a slash before each name |
| CanonicalPath.ResolvedIsFixed | tools/go-full/subset.rb:42-57 | a returned path has no link in it and resolves to itself, and a path resolves to itself if and only if it has no link |
| CanonicalPath.ResolvedIsExpanded | tools/go-full/subset.rb:45-45 | a returned path is made of plain names, so expanding it again changes nothing |
| CanonicalPath.ResolvesByRewriting | tools/go-full/subset.rb:42-57 | what is returned is the end of replacing first links one by one, and every such end within forty replacements is returned |
| CanonicalPath.ResolvesExactly | tools/go-full/subset.rb:42-57 | a path is returned if and only if it has no link and replacing first links leads to it, with no component read through more links than the bound allows |
| CanonicalPath.RewritingIsDeterministic | tools/go-full/subset.rb:42-57 | that end is unique |
| CanonicalPath.OverlapsExactly | tools/go-full/subset.rb:59-61 | the text test is equality or containment by components of two paths other than the root, and it is symmetric |

## Left out

- SHA-256 and every digest comparison: the theorems are about the bytes that are hashed.
- Shortest digits and correct rounding of `strconv`: a parameter; exponents too large for a machine integer are not modelled.
- `writeJSON` on Go `int` and `[]string`: they print like int64 and lists.
- Error texts and byte positions in error messages.
- `parseJSONOrdered` keys its orders by the dotted path, so that two objects whose keys contain dots can share an entry; the model keeps this and claims nothing beyond it.
- `valid_source_map?`: schema, digests and types of the decoded JSON; the model starts from a decoded map and the files' contents.
- `go_object_archive?`: the file tests before the bytes are read.
- `splitOutput`, `replacePrefix` and the reading of annotations in `tools/go-oracle/errorcheck.go`: the model starts from the lists of diagnostics and annotations, on a system without volume names.
- `execute_mode`: copying of files, arguments, environments and identity receipts; each look at files on disk, the generated source and its map apart, may turn out either way. Which bytes make a valid map or archive is the subject of their own modules.
- `execution!`: provenance, environment, argument and digest comparison; the model has its checks on stages, input checks and products, and its demand for both streams of every stage.
- A launch of the three-mode pipeline that draws an identifier drawn before counts as a refusal.
- Failures to spawn in `invoke_subprocess`, and a wall clock that goes back during it: it measures time with `Time.now`, which is assumed not to go back.
- The waiter goroutine of the Go launcher is a wait that may have ended, or failed, at any poll; registering the process tree either succeeds or fails on a leader that is suspended and never runs. That killing such a leader fails is not modelled.
- The digest of the launch environment: only the order of its keys is modelled.
- `~` in a link's text, and links that change while a path is resolved.
- The lease: files outside the three trees, replacing a whole tree by way of the toolchain directory itself, and run scratch directories placed inside a shared toolchain directory. Case processes may create files wherever they find a writable directory, but do not change modes.
- The other rules of the tour's executor (`stageFailure`, `observationStatus`, semantic windows), `unique_streams!`, recipe actions beyond splitting, and package classification: each is a branch or two on recorded fields.
- `GoFullStageResolver`, which refuses some terminals that a launcher can record, is not claimed to take every receipt.
- Reading of archives, downloads, manifests, command lines and reports.
