# AutoNAT testbed: a verified model

The testbed runs AutoNAT v2 experiments: it expands scenario files into runs,
starts nodes and mock servers in containers, collects their spans, and computes
metrics, assertions and figures from the trace files. This project models the
logic of those programs in Dafny and proves what they rely on.

| file | models |
|---|---|
| `Text.dfy` | split, join, delete, decimal printing and parsing, as the scripts use them |
| `Labels.dfy`, `Validation.dfy`, `Matrix.dfy`, `Runs.dfy` | run labels and their parser, the checks of a scenario, the two matrix expansions, result files of an experiment |
| `MockServer.dfy`, `MockHandler.dfy` | the mock AutoNAT v2 server: interleaved handlers over one dialer host, and the handler methods in imperative form |
| `AddrFiles.dfy` | peer address files written by the Go node and read by the JS node |
| `Otel.dfy`, `Analyze.dfy`, `Bytes.dfy`, `Stats.dfy` | trace files, the analyzer's five metrics, its byte estimate and the figure script's copy, its statistics |
| `Migration.dfy`, `Export.dfy` | the two trace formats, and the export from the span store |
| `Rates.dfy` | the two error rates, read off the trace files |
| `Assertions.dfy`, `Filters.dfy`, `Agreement.dfy` | the assertion evaluator, what its filters see of an event, and its agreement with the analyzer |
| `Trackers.dfy`, `Externals.dfy`, `TrackerMetrics.dfy` | the JS and the Rust reachability tracker, the addresses the former takes for external, and what the analyzer makes of their traces |
| `Toggles.dfy` | mid-test toggles: polling the span store with a timeout |
| `Oscillation.dfy` | the refined oscillation query |

The loops that update state or collect results are methods proved equal to a
specification function (in a class with fields where the source updates an
object); the theorems are lemmas about those functions, or invariants of the
classes. The filters and comprehensions of the source are functions, and so is
the early-return loop of the assertion evaluator's `matches`.

Conventions. A JSON text inside an attribute is read by a `decode` parameter, so
every theorem holds for any decoder. An attribute value is an integer, a string
or a list of strings. What a library call, the clock or the random source does
is an arbitrary outcome: a record per handler step in the mock server, an
arbitrary advance of the clock and of the store in the toggles.

## Where the code and its promises part

- **Negative latency.** The scenario schema (`docs/scenario-schema.md:71`) says
  `latency_ms` is at least 0, but validation never checks it. `lat-5` prints a
  second dash, and reading the label raises. `Labels.LabelRoundTrip` proves that
  this is the only failure; such labels are still distinct
  (`Labels.LabelDeterminesRun`).
- **Overwritten results.** A label shows the settings as parsed, of the number of
  runs only whether there are several, and of every other key, such as
  `timeout_s`, nothing. Two values of a matrix list that look alike on a label
  (7 and "7", 2 and 3 runs, any two timeouts) make a run overwrite another's
  file, and nothing else does: `Runs.NoResultIsOverwritten`.
- **Address files.** `AddrFiles.AddrFilesRoundTrip` is about every address string,
  not only those a libp2p host returns. What it adds for real addresses is that
  relay addresses, with `/p2p/` inside, are filed under the right peer; the
  strings that would not be are those that end in an odd number of `/p2p`, which
  nothing here shows a host to produce.
- **Mirrored byte estimate.** The figure script counts characters where the
  analyzer counts bytes, and drops the request message when `num_bytes` is not
  positive: `Bytes.MirrorAgrees`. The figure in fact passes no events at all, so
  it also guesses the dial-back from the verdict: `Bytes.MirrorWithoutEvents`.
- **Time to confidence.** When the first event that shows a reachable address has
  no usable `elapsed_ms`, the analyzer looks further while the `info` assertion
  does not: `Agreement.InfoIsTimeToConfidence`.
- **Failed counts.** A span query that fails counts as zero. With answered polls
  and a positive timeout, the detections that no fresh span backs are exactly
  those for which a count before the toggle failed while such spans were there:
  `Toggles.FalseDetectionExactly`, with an instance in
  `Toggles.FalseDetectionHappens`.
- **p95.** For two different samples the reported p95 is the minimum, below the
  median; for every other sample it is not: `Stats.P95Rank`.
- **Row threshold.** `HAVING count(*) >= 2`, meant as two observations, counts
  joined rows. `Oscillation.TotalCountsObservations`: besides the peers observed
  twice the total counts those observed once whose version was logged more than
  once, so it is the promised number exactly when there are none of these;
  `Oscillation.OneObservationIsCounted` is an instance.

## Model

| member | source | states |
|---|---|---|
| `Text.DecimalRoundTrip` | results/generate_figures.py:149-153 | `int()` of a printed integer, negative ones included, is that integer |
| `Text.ParseIntReads` | results/generate_figures.py:149-153 | a text of digits reads as its number, with a plus sign too, and with a minus sign as the negative |
| `Text.ParseIntNeedsDigits` | results/generate_figures.py:149-153 | whatever reads as a number is digits, with or without a sign |
| `Text.SplitJoin` | results/generate_figures.py:122-123 | splitting at a dash undoes joining with dashes when no part contains one |
| `Text.DeleteSuffix` | results/generate_figures.py:122 | deleting ".json" from a name that ends in it and has no other dot leaves the rest |
| `Labels.BuildRunLabel` | testbed/run.py:976-990 | the label built by appending is the dash-joined list of its fields, for named and unnamed scenarios |
| `Labels.AppendOptionals` | testbed/run.py:982-989 | each optional field is appended with its dash exactly when its setting calls for it |
| `Labels.GuardIsRedundant` | results/generate_figures.py:145-153 | the substring test that guards each scan never changes what the scan finds |
| `Labels.ScanLoop` | results/generate_figures.py:146-153 | a guarded loop gives the last number behind its key, or fails on the first part that is no number |
| `Labels.ParseScenarioName` | results/generate_figures.py:120-154 | the branching parser returns the specified result: unknown, a raised number error, or NAT type, transport and extras |
| `Labels.SplitLabel` | results/generate_figures.py:122-123 | the parts the parser sees are exactly the tokens the printer wrote, two-word NAT types and negative latencies included |
| `Labels.LabelRoundTrip` | results/generate_figures.py:120-154 | for every valid unnamed scenario and run the parser returns its NAT type, transport and non-zero loss and latency if and only if the latency is not negative, and raises otherwise |
| `Labels.LabelDeterminesRun` | testbed/run.py:976-990 | equal labels of valid unnamed scenarios without mocks mean scenarios that agree on every setting but the number of runs, and on whether there are several, whatever the sign of the latency; with several runs, also the same run |
| `Labels.RunNumbersMatch` | testbed/run.py:988-989 | a label that ends in a run number is never the label of a scenario with a single run |
| `Validation.Examine` | testbed/run.py:455-481 | a scenario gets no complaint if and only if its label's settings are valid and its mocks known, and otherwise the first one that applies |
| `Validation.Validate` | testbed/run.py:453-481 | the runner goes on if and only if every scenario is fine, and otherwise stops at the first that is not, with its first complaint |
| `Validation.FineMeansNoComplaint` | testbed/run.py:457-481 | a scenario is fine if and only if no complaint applies to it |
| `Matrix.ProductAt` | testbed/run.py:422-426 | the product holds each choice of values at the mixed-radix position whose last key is least significant, and that position decodes to the choice |
| `Matrix.JqAt` | testbed/run.sh:71-77 | the reduction holds each choice at the position whose first key is least significant, and that position decodes to the choice |
| `Matrix.PyDigitsOnto` | testbed/run.py:426 | every position of the product is the position of some choice |
| `Matrix.JqDigitsOnto` | testbed/run.sh:72-77 | every position of the reduction is the position of some choice |
| `Matrix.ExpansionsPermute` | testbed/run.sh:71-77 | both expansions have as many elements as the product of the list lengths, and two mutually inverse index maps carry each onto the other |
| `Matrix.EachCombinationOnce` | testbed/run.py:422-426 | with distinct values in each list every combination is in each expansion at exactly one position |
| `Runs.ParsedSetting` | testbed/run.py:369-415 | a matrix value overrides the default and is what the label of the parsed scenario shows for its key |
| `Runs.DefaultsFillIn` | testbed/run.py:369-415 | a key the matrix leaves out has the setting of the experiment's defaults, and the literal fallback only when they leave it out too |
| `Runs.NumbersAreRead` | testbed/run.py:393-396 | loss, latency and the number of runs are the numbers read from the entry that wins: the matrix, the defaults, or 0, 10 and 1 |
| `Runs.ParsesWhenReadable` | testbed/run.py:393-396 | parsing succeeds if and only if the winning entries of the three numbers read as numbers |
| `Runs.NumbersAsText` | testbed/run.py:389-396 | a number and its decimal text come to the same on a label |
| `Runs.SettingsDetermine` | testbed/run.py:369-415 | raw scenarios whose values look the same on a label parse to scenarios with the same label, whatever else the matrix varies |
| `Runs.SettingAt` | testbed/run.py:441-446 | what the label of the i-th scenario shows for a key is the matrix value its position selects |
| `Runs.DefaultsReachAll` | testbed/run.py:429-446 | every scenario of a matrix takes what the matrix leaves out from the defaults, or the fallback |
| `Runs.DefaultRuns` | testbed/run.py:429-446 | without a matrix key for it, every scenario is run as often as the defaults say, or once |
| `Runs.RepeatedSettingCollides` | testbed/run.py:1060-1064 | a matrix list with two values that look the same on a label makes two different runs write the same file |
| `Runs.NoResultIsOverwritten` | testbed/run.py:1060-1064 | over a whole validated experiment, with any scalar matrix keys but the name, all (scenario, run) pairs have distinct labels if and only if no list repeats what its values come to on a label or there is nothing to run |
| `MockServer.DeterminedIsPossible` | testbed/mock_server.go:189-209 | whatever is drawn, the effective behaviour is the transport override when one applies, one of the two outcomes of a probabilistic setting, or the configured behaviour |
| `MockServer.DrawDecides` | testbed/mock_server.go:198-207 | without an override a probabilistic setting means reachable if and only if the draw is below the configured probability, or below one half when that is not positive, and unreachable otherwise |
| `MockServer.DrawsDecide` | testbed/mock_server.go:198-207 | in every run a request left to chance was decided in one of its handler's own steps, and that step's draw alone says how |
| `MockServer.CertainlyReachable` | testbed/mock_server.go:198-207 | with probability one and draws below one every request left to chance is treated as reachable |
| `MockServer.DialNeedsHost` | testbed/mock_server.go:116-127 | an effective behaviour that dials back implies that the configuration asks for a dialer host |
| `MockServer.HostWhenUsed` | testbed/mock_server.go:101-127 | a dialer host is set up if and only if some request would dial back or meet a probabilistic override |
| `MockServer.HandlerStep` | testbed/mock_server.go:224-321 | every step of a handler keeps the tie between its phase, its decided behaviour, its job and what it has written |
| `MockServer.DialerStep` | testbed/mock_server.go:343-413 | after any step all the dialer host knows about a peer is still owed to a handler for that peer that has not cleaned up |
| `MockServer.InvStep` | testbed/mock_server.go:140-171 | the server invariant survives every arrival, handler step, lost connection and expired address |
| `MockServer.InvRun` | testbed/mock_server.go:140-171 | the server invariant holds after every interleaving |
| `MockServer.DialerSafety` | testbed/mock_server.go:343-413 | in every interleaving each peer known to the dialer host has a handler inside its dial section, the host is empty when no handler is inside, and a nil host is never used |
| `MockServer.WrongNonceDiffers` | testbed/mock_server.go:301-309 | the wrapped 64-bit predecessor of a nonce is never the nonce, zero included |
| `MockServer.OkIsCausal` | testbed/mock_server.go:271-320 | the handler invariant implies the outside view of its wire log: one response, its statuses, and which DialBack came before it |
| `MockServer.ResponseCausality` | testbed/mock_server.go:271-320 | in every reachable state a finished request has attempted one response unless its behaviour is silent; success is reported under force-reachable exactly after a DialBack with the request's nonce, under wrong-nonce exactly after one with the previous nonce, and no other behaviour writes a DialBack |
| `MockServer.SilenceIsConfigured` | testbed/mock_server.go:189-209 | a finished request got no answer only if the override for its transport is timeout or probabilistic, or without an override the server behaviour is timeout |
| `MockServer.TurnsDescend` | testbed/mock_server.go:224-321 | every turn of a handler lowers its remaining work until it is done or hangs, whatever the others do |
| `MockServer.TwelveTurnsSuffice` | testbed/mock_server.go:224-321 | under any schedule twelve turns of its own finish a request, unless it hangs under timeout |
| `MockHandler.Server.constructor` | testbed/mock_server.go:151-166 | a dialer host, empty, is created exactly when some configured behaviour needs one |
| `MockHandler.Server.PerformDialBack` | testbed/mock_server.go:343-381 | the dial-back with its deferred clean-up leaves the host, the status and the wire as the state machine does, and reports success exactly when the DialBack was written |
| `MockHandler.Server.PerformConnectOnly` | testbed/mock_server.go:385-413 | the connect-only dial writes nothing and leaves the host as the state machine does, whatever fails on the way |
| `MockHandler.Server.ActOn` | testbed/mock_server.go:273-320 | the switch answers, dials or stays silent as the state machine does, and never uses a missing host |
| `MockHandler.Server.HandleDialRequest` | testbed/mock_server.go:224-321 | a request served from start to finish ends with the log and the dialer host of the state machine, and has responded exactly when the log holds one response |
| `MockHandler.SoloIsARun` | testbed/mock_server.go:224-321 | serving one request without interruption, with or without a dialer host, is one of the interleavings, and touches no other handler |
| `AddrFiles.WriteAddrFile` | testbed/main.go:513-524 | the file content is the lines joined with newlines and closed by one |
| `AddrFiles.ConnectFromDir` | testbed/docker/node-js/src/index.ts:334-355 | the nested loops group the lines of all files by the last part after "/p2p/", skipping blank lines and entries that are no files |
| `AddrFiles.GroupLine` | testbed/docker/node-js/src/index.ts:344-353 | one line is appended to its peer's list, which is created when missing |
| `AddrFiles.GroupOneMore` | testbed/docker/node-js/src/index.ts:349-352 | filing one more line extends exactly that peer's list |
| `AddrFiles.LineRoundTrip` | testbed/docker/node-js/src/index.ts:346-348 | the id read from a written line is the id written, unless the address ends in an odd number of "/p2p" components, when it is "p2p/" and the id |
| `AddrFiles.SplitContent` | testbed/docker/node-js/src/index.ts:343 | splitting a written file at newlines gives its lines and a blank last one |
| `AddrFiles.AddrFilesRoundTrip` | testbed/docker/node-js/src/index.ts:334-355 | for any hosts with ids and addresses free of white space and ids free of slashes, reading their files gives the map from the ids that have an address to their lines in order, if and only if no address ends in an odd number of "/p2p" components |
| `AddrFiles.DistinctIdsKeepTheirLines` | testbed/main.go:513-524 | with distinct ids each id is mapped to its own host's lines and no others |
| `AddrFiles.TrimUndoesPadding` | testbed/docker/node-js/src/index.ts:344 | trimming takes off any white space around a text and nothing of the text |
| `AddrFiles.SpaceByCode` | testbed/docker/node-js/src/index.ts:344 | the characters trimmed are the 25 code points ECMAScript counts as white space or line terminators |
| `AddrFiles.PaddingIsIgnored` | testbed/docker/node-js/src/index.ts:343-353 | a written line with any white space around it, such as a carriage return, is filed like the line itself |
| `AddrFiles.JunkIsSkipped` | testbed/docker/node-js/src/index.ts:345-347 | a blank line, and a line without the mark, is not filed |
| `Otel.FlattenAttrs` | testbed/analyze.py:38-46 | the loop builds the specified dictionary |
| `Otel.FlattenKeepsLast` | testbed/analyze.py:38-46 | a key is present exactly when some attribute has it, with the value of the last such attribute |
| `Otel.NumbersRead` | testbed/analyze.py:49-55 | a number reads the same from a number and from its text, and a list or a missing value as none |
| `Otel.ListsRead` | testbed/analyze.py:155-167 | a list reads the same from a list and from a bracketed text that decodes to it, and everything else as empty |
| `Stats.SortSorts` | testbed/analyze.py:293 | the sorted samples are in order and the same multiset |
| `Stats.P95Rank` | testbed/analyze.py:290-303 | for every non-empty sample the p95 index is in range, at least max(1, floor(95n/100)) samples do not exceed the reported p95, it lies between minimum and maximum, and it is below the median only for two different samples |
| `Stats.SummaryRanks` | testbed/analyze.py:290-303 | every number of a summary is the one sample of its rank: the p95 of floor(95n/100) or 1, the minimum of 1, the maximum of n, and the median halfway between those of the two middle ranks |
| `Stats.RankIsUnique` | testbed/analyze.py:290-303 | there is only one sample of each rank |
| `Bytes.ProbeByteEstimate` | testbed/analyze.py:374-441 | the estimate of one probe, message by message, is the specified one |
| `Bytes.FirstRequestedBytes` | testbed/analyze.py:409-414 | the loop stops at the first dial_data_requested event and takes its num_bytes when usable |
| `Bytes.FigureProbeByteEstimate` | results/generate_figures.py:984-1028 | the figure script's estimate is the specified pair |
| `Bytes.Utf8AtLeastChars` | results/generate_figures.py:997 | a string has at least as many UTF-8 bytes as characters, and as many exactly when it is ASCII |
| `Bytes.Utf8LengthIsLeast` | testbed/analyze.py:398 | a character takes the least number of UTF-8 bytes that has room for it |
| `Bytes.TotalsOfJoined` | testbed/analyze.py:398 | the bytes, and the characters, of a list of addresses are those of the addresses written one after the other |
| `Bytes.RequestCarriesAddrs` | testbed/analyze.py:385-399 | both estimators charge a request twelve bytes and the addresses its span stores, as a list or as the text of one, and just the twelve when none can be read |
| `Bytes.EstimateAddsUp` | testbed/analyze.py:401-441 | the parts of an estimate add up to its total, and each fixed part is there exactly when its event is |
| `Bytes.MirrorAgrees` | results/generate_figures.py:984-1028 | the mirror always returns the analyzer's amplification, and its total if and only if the addresses are ASCII and the first dial_data_requested event, if any, carries a positive byte count |
| `Bytes.MirrorWithoutEvents` | results/generate_figures.py:1056 | without events the mirror reports no amplification; its total is the analyzer's, for a byte count that is not negative, if and only if no data was requested and, for ASCII addresses, there were no events or a dial-back was received exactly when the verdict is public, and for others, exactly twelve bytes were missed and a dial-back wrongly guessed; a negative count has one value that makes up for the rest |
| `Analyze.ParseTraceFile` | testbed/analyze.py:58-138 | one pass over the file gives the last session span, the probes, cycles and selections in order, and the testbed spans appended to the session's events |
| `Analyze.ComputeFnr` | testbed/analyze.py:178-212 | total, hits, rate and per-trace details of false negatives are the specified ones, which `Rates.FnrOverFiles` reads off the files |
| `Analyze.ComputeFpr` | testbed/analyze.py:222-254 | total, hits, rate and per-trace details of false positives are the specified ones, which `Rates.FprOverFiles` reads off the files |
| `Analyze.FirstTimes` | testbed/analyze.py:277-281 | one pass finds both times, each that of the first event that lists an address and has a usable time |
| `Analyze.ComputeTimeToConfidence` | testbed/analyze.py:268-311 | each trace counts once, by its reachable time, else its unreachable time, else as never converging |
| `Analyze.ConfidenceListsTimes` | testbed/analyze.py:283-311 | the times summarised are the reachable times of the traces that have one and the unreachable times of the others that have one, each once and in trace order |
| `Analyze.FindFlip` | testbed/analyze.py:332-344 | the loop with its break finds the specified first flip |
| `Analyze.ComputeTimeToUpdate` | testbed/analyze.py:326-357 | the flips are listed in trace order and the other traces counted |
| `Analyze.UpdatesListFlips` | testbed/analyze.py:346-357 | the flips reported are those of the traces that have one, each once and in trace order, and the others are counted |
| `Analyze.EstimateProbes` | testbed/analyze.py:469-478 | the inner loop appends one estimate per probe and sums the session |
| `Analyze.ComputeProtocolOverhead` | testbed/analyze.py:444-481 | the lists and counters over all traces are the specified ones |
| `Analyze.BytesAreConserved` | testbed/analyze.py:444-481 | over any traces the session totals, the probe totals, and protocol bytes plus amplification have one and the same sum, every probe is counted once, and at most all are amplified |
| `Analyze.RatesAreDisjoint` | testbed/analyze.py:178-254 | no trace is a false negative and a false positive, and together they are all traces exactly when each contradicts its probes |
| `Rates.ConvergedInFile` | testbed/analyze.py:190-193 | the analyzer sees convergence if and only if a change event on the last session span, or a change span, has a last `reachable` attribute that lists an address |
| `Rates.ProbesInFile` | testbed/analyze.py:185-188 | it sees a public probe if and only if some probe span of the file, whichever, has "public" as its last reachability attribute |
| `Rates.FnrOverFiles` | testbed/analyze.py:178-212 | for any trace files the hits are those with a public probe and no change event that shows an address, their number is the count reported, and the rate is their share, 0 when there are no files |
| `Rates.FprOverFiles` | testbed/analyze.py:222-254 | the same with a change event that shows an address and no public probe |
| `Analyze.ConfidenceAccountsForAll` | testbed/analyze.py:283-311 | reachable times, unreachable times and traces without convergence add up to all traces |
| `Analyze.FirstListedIsEarliest` | testbed/analyze.py:277-281 | the time found is that of the earliest event that lists an address and has a usable time, and none is found only when there is no such event |
| `Analyze.FlipIsEarliestChange` | testbed/analyze.py:332-344 | the flip found is the earliest change of status against the event just before with a usable time, with the status it left, and none is found only when there is no such change |
| `Migration.MigratedAlike` | testbed/analyze.py:75-138 | moving the last known-name events of the one session span out to top-level spans, in order and anywhere in the file, gives a trace that no metric can tell apart; events with other names may lie between them and stay behind |
| `Migration.AnySuffixCanMove` | testbed/analyze.py:124-130 | every suffix of the session's known-name events is such a move |
| `Migration.FilterKnown` | testbed/analyze.py:145-148 | looking up a known event name gives the same events with or without those of unknown names |
| `Migration.AlikeReports` | testbed/analyze.py:178-509 | traces that agree in names, times and lists of their known-name events, and in their probes, have the same five reports |
| `Migration.MigrationPreservesMetrics` | testbed/analyze.py:69-73 | migrating any of the trace files leaves all five metrics as they were |
| `Export.ExportEntries` | testbed/run.py:73-80 | attributes are exported in order, digit strings as numbers |
| `Export.ExportTraceJsonl` | testbed/run.py:262-304 | spans, events and attributes are exported in order, each converted as specified |
| `Export.NormalKeepsReadings` | testbed/analyze.py:49-55 | the conversion of values is idempotent and keeps how every value reads as a number, as a list and as "public" |
| `Export.ExportParseRoundTrip` | testbed/run.py:262-304 | parsing an export gives the trace of the same spans in the same order with every attribute normalised and nothing else changed |
| `Export.ExportPreservesMetrics` | testbed/run.py:262-304 | all five metrics of exported runs are those of the spans written down as they are |
| `Assertions.LoadEventsFile` | testbed/eval-assertions.py:44-99 | each span contributes its hosted events and then itself when it is no library span and has attributes, in file order |
| `Assertions.MatchedSome` | testbed/eval-assertions.py:155-168 | something matched exactly when some loaded event meets the type and every filter |
| `Assertions.NoEventNegatesHasEvent` | testbed/eval-assertions.py:157-175 | `no_event` passes exactly when `has_event` on the same filter fails |
| `Filters.MatchesByName` | testbed/eval-assertions.py:116-147 | an event matches if and only if it has the name asked for and every filter holds |
| `Filters.FlatKeeps` | testbed/eval-assertions.py:71-79 | a flattened event has its name, span and time under keys of their own, a usable elapsed_ms as a number, and every other attribute as it is |
| `Filters.ContainsFilters` | testbed/eval-assertions.py:124-130 | the two containment filters hold if and only if the text occurs in what is written for the addresses, or for the event |
| `Filters.ReachabilityFilter` | testbed/eval-assertions.py:131-133 | the reachability filter holds if and only if the last such attribute is the value asked for |
| `Filters.EmptinessFilters` | testbed/eval-assertions.py:134-143 | not_empty holds if and only if the last attribute of the field lists something, is_empty if and only if it does not |
| `Filters.EqualsFilter` | testbed/eval-assertions.py:144-146 | any other filter compares the text of the last attribute, or the empty text |
| `Filters.VerdictCounts` | testbed/eval-assertions.py:155-175 | the matched count is the number of matching events, no_event passes when it is zero, has_event when it is not, an unknown type never |
| `Filters.InfoReports` | testbed/eval-assertions.py:177-193 | info passes and reports the field of the first matching event, or of the last when asked, and nothing when none matches |
| `Agreement.FlatKeepsView` | testbed/eval-assertions.py:70-97 | a flattened event passes the not_empty filter on "reachable" exactly when the analyzer reads a non-empty list, and keeps its usable time |
| `Agreement.PassesWhenShown` | testbed/eval-assertions.py:150-175 | the assertion finds an event exactly when some span shows a reachable address |
| `Agreement.LastSessionAt` | testbed/analyze.py:116-117 | the session kept is the last span of that name, and none exactly when there is no such span |
| `Agreement.ConvergedWhenShown` | testbed/analyze.py:190-193 | the analyzer sees convergence exactly when the last session span hosts a showing event or a testbed span shows one |
| `Agreement.HasEventIffConverged` | testbed/eval-assertions.py:150-175 | for every file in either format or a mixture, `has_event` passes if and only if the analyzer sees convergence or an event on a span it never reads shows a reachable address |
| `Agreement.FalseNegativesFail` | testbed/analyze.py:195-197 | over any files the false negatives are at most the failing assertions plus the files with such a stray event |
| `Agreement.NoStrayFiles` | testbed/analyze.py:116-130 | no file is counted as stray exactly when none has a showing event on a span the analyzer never reads |
| `Agreement.ShownAgree` | testbed/analyze.py:132-136 | in a single-format file both readers meet the same showing events in the same order |
| `Agreement.InfoIsTimeToConfidence` | testbed/eval-assertions.py:177-191 | in a single-format file the `info` value is the analyzer's time to confidence if and only if nothing is shown, the first showing event has a usable time, or no later one has; otherwise it is no number while the analyzer looks further |
| `Trackers.ExternalSetIs` | testbed/docker/node-js/src/index.ts:219-234 | the filtered addresses, as a set, are the external ones |
| `Externals.ExternalByOctets` | testbed/docker/node-js/src/index.ts:219-228 | an address that begins with /ip4/a.b.c.d/ is external if and only if a is not 0, 10 or 127 and a.b is neither 192.168 nor 169.254 |
| `Externals.ExternalByText` | testbed/docker/node-js/src/index.ts:219-228 | the same for octets written in any digits, by their text |
| `Externals.ExternalHasQuad` | testbed/docker/node-js/src/index.ts:220-222 | every external address holds four runs of digits joined by dots between "/ip4/" and a slash |
| `Externals.NoPrivateIsReported` | testbed/docker/node-js/src/index.ts:219-260 | no address of a private range is ever held by the JS tracker or in any span it emitted |
| `Externals.AllReportedExternal` | testbed/docker/node-js/src/index.ts:232-260 | whatever the JS tracker holds or ever emitted is an external address |
| `Trackers.Unchanged` | testbed/docker/node-js/src/index.ts:236-240 | nothing is added and nothing removed exactly when the external set is the same |
| `Trackers.MovesTrack` | testbed/docker/node-js/src/index.ts:244-253 | adding the added and removing the removed addresses takes both sets to their place for the new external set |
| `Trackers.PeerTracker.OnPeerUpdate` | testbed/docker/node-js/src/index.ts:232-260 | after any updates the reachable set is the current external set, the unreachable set is every other address ever external, all of them external, and exactly one span is emitted when the external set changed and none otherwise |
| `Trackers.PeerTracker.Moved` | testbed/docker/node-js/src/index.ts:244-251 | a loop moves its addresses from one set into the other and nothing else |
| `Trackers.ReportsAlternate` | testbed/docker/node-js/src/index.ts:230-260 | over every run each report splits addresses ever external into two disjoint sets, the first reports some, and consecutive ones differ |
| `Trackers.EmptyAgainIsLoss` | testbed/docker/node-js/src/index.ts:236-240 | an external set that is empty after a report became empty after being non-empty |
| `Trackers.LatestPartition` | testbed/docker/node-rust/src/main.rs:527-544 | the addresses last seen reachable and those last seen unreachable partition the addresses ever tested |
| `Trackers.LatestOneMore` | testbed/docker/node-rust/src/main.rs:527-544 | one more result moves its address and no other |
| `Trackers.ProbeTracker.HandleAutonatEvent` | testbed/docker/node-rust/src/main.rs:518-565 | after any events each address is in the set of its most recent result, and each event emits one span that says so |
| `Trackers.Collect` | testbed/docker/node-rust/src/main.rs:546-547 | the collected vector has each member of the set once |
| `TrackerMetrics.ReadBack` | testbed/docker/node-js/src/index.ts:92-108 | the analyzer reads back the name, the time and both lists of an emitted span |
| `TrackerMetrics.AnalyzerSees` | testbed/analyze.py:124-136 | the change events the analyzer sees are the tracker's emissions in order, whatever other spans lie between |
| `TrackerMetrics.JsEmissionsAlternate` | testbed/docker/node-js/src/index.ts:230-260 | in every state of the JS tracker its two sets are disjoint and make up all addresses ever external, and consecutive emitted reachable sets differ, the first being non-empty |
| `TrackerMetrics.JsFlipIsFirstLoss` | testbed/analyze.py:326-349 | for every JS run the analyzer reports a flip if and only if the external set became empty after being non-empty; it is the first such moment, and always from reachable to unreachable |
| `TrackerMetrics.JsConvergesWhenExternal` | testbed/analyze.py:268-288 | a JS run converges exactly when an external address was ever seen, dated by the first update that brought one |
| `TrackerMetrics.RustConvergesWhenProbed` | testbed/analyze.py:190-193 | a Rust run converges exactly when some probe succeeded |
| `TrackerMetrics.RustFlipIsFirstToggle` | testbed/analyze.py:326-349 | for every Rust run the analyzer reports a flip if and only if some probe after the first changed whether any address is reachable; it is the first such probe, with its time and the status it left |
| `Toggles.CountLoop` | testbed/run.py:243-253 | the loop counts the spans of a name |
| `Toggles.MoreMeansFresh` | testbed/run.py:685-688 | on a growing store the count rises exactly when a span of that name entered it |
| `Toggles.Testbed.CountSpans` | testbed/run.py:243-253 | a query returns the count of the store at that moment, or 0 when it fails |
| `Toggles.Testbed.WaitForNewSpan` | testbed/run.py:672-691 | the wait ends with the first poll that sees more than before, which is what detection means, or when that much time has passed on the clock; every poll is a query of the store as it then was, polls are three seconds apart, there is one when the timeout is positive, and the elapsed time is the clock at the end less the clock at the start, in whole seconds |
| `Toggles.Testbed.WaitForEither` | testbed/run.py:760-777 | the same for two names at once, the elapsed time being read before each poll; it detects exactly when its last poll sees one of the counts risen, and exactly when it ends below the timeout |
| `Toggles.WaitExactly` | testbed/run.py:672-691 | a wait detects if and only if an answered poll sees more than before, so with answered polls and a positive timeout it cannot miss what was there when it began |
| `Toggles.Testbed.Settle` | testbed/run.py:736-750 | waiting for convergence sleeps only after a detection, waiting by sleep always, and neither otherwise |
| `Toggles.Testbed.RunToggle` | testbed/run.py:736-786 | one turn settles, counts both names, acts once, and polls, in this order and with no other step; detection is what the last poll saw against those counts, and the time reported is the clock at the last look less the clock when it acted, in whole seconds |
| `Toggles.Testbed.RunToggles` | testbed/run.py:716-788 | one result per toggle, phases 1 to n, each telling what its own polls saw and when; the steps of the whole run are those of its toggles in order, on one growing store and one clock |
| `Toggles.RunActsInOrder` | testbed/run.py:757-758 | a run acts on the router once per toggle, in the order given, and never otherwise |
| `Toggles.MoreIsExplained` | testbed/run.py:769-771 | a later query sees more than an earlier one if and only if it was answered and a span entered in between or the earlier one failed to see a span that was there |
| `Toggles.DetectedExactly` | testbed/run.py:760-777 | whatever queries fail, a toggle is detected if and only if one of its polls was answered after a fresh change span or after one that a failed count had missed |
| `Toggles.FalseDetectionExactly` | testbed/run.py:752-775 | no detection without a fresh span or a misled count; with answered polls and a positive timeout a detection that no fresh span backs happens if and only if a count before the toggle failed while such spans were there |
| `Toggles.FalseDetectionHappens` | testbed/run.py:752-775 | an instance: the count before the toggle fails, no span ever arrives, and the old span is reported as a detection |
| `Toggles.PollsTakeTime` | testbed/run.py:760-777 | each poll but the one that detects costs three of the seconds reported, which have passed on the clock, and a toggle that is not detected has waited for its whole timeout |
| `Toggles.RunTakesItsTime` | testbed/run.py:716-788 | a whole run takes at least all its reported times and all the sleeps before its counts |
| `Toggles.MaxPollsIsCeiling` | testbed/run.py:680-690 | the bound on polls is the timeout divided by three, rounded up |
| `Toggles.DetectionsAreDistinct` | testbed/run.py:752-775 | over a whole run the store gained at least one change span per backed detection, so no span is counted for two toggles |
| `Toggles.DetectionsNeedSpans` | testbed/run.py:752-775 | at most as many toggles are detected as change spans were gained, plus the toggles misled by a failed count |
| `Oscillation.ExtremesAreSeen` | results/nebula-analysis/queries/06_oscillation_refined.sql:65 | the maximum is one and the minimum zero exactly when a kad-on and a kad-off row exist |
| `Oscillation.DrivenMeansToggles` | results/nebula-analysis/queries/06_oscillation_refined.sql:64-67 | a group is AutoNAT-driven exactly when it toggles kad and some kad-on row is not Inconsistent |
| `Oscillation.CountingTheorem` | results/nebula-analysis/queries/06_oscillation_refined.sql:60-81 | for every table and version driven ≤ toggling ≤ total, and the difference counts exactly the groups that toggle kad while every kad-on row is Inconsistent |
| `Oscillation.OrderAndRepetitionDoNotMatter` | results/nebula-analysis/queries/06_oscillation_refined.sql:60-71 | tables with the same rows and the same groups of two or more rows give the same counts, whatever their order and repetition |
| `Oscillation.ShufflingDoesNotMatter` | results/nebula-analysis/queries/06_oscillation_refined.sql:60-71 | shuffling a table changes no count |
| `Oscillation.JoinMultiplies` | results/nebula-analysis/queries/06_oscillation_refined.sql:55-57 | a group has one row per recent observation of the peer times per version row of that bucket |
| `Oscillation.QueryCountsPeers` | results/nebula-analysis/queries/06_oscillation_refined.sql:13-81 | for any two tables the total of a version is the number of peers whose recent observations times logged versions in the bucket make at least two rows, and the other columns stay below it; `Oscillation.MetricsOnTables` counts them |
| `Oscillation.MetricsOnTables` | results/nebula-analysis/queries/06_oscillation_refined.sql:38-81 | on the two tables, of the peers of a bucket with two joined rows, kad_toggling counts those with a recent observation that lists the kad protocol and one that does not, autonat_driven those with one that lists both protocols and one without kad |
| `Oscillation.GroupHolds` | results/nebula-analysis/queries/06_oscillation_refined.sql:42-57 | a group holds exactly the combinations of the two protocols observed of its peer in the window |
| `Oscillation.GroupSizeOnTables` | results/nebula-analysis/queries/06_oscillation_refined.sql:15-57 | a group has one row per recent protocol row of the peer and recent agent row that puts the peer into the bucket |
| `Oscillation.BucketByMinor` | results/nebula-analysis/queries/06_oscillation_refined.sql:18-32 | a Kubo agent is bucketed by the digits of its minor version: those that start with 1, those that start with 2, each of 30 to 39, and everything else |
| `Oscillation.TotalCountsObservations` | results/nebula-analysis/queries/06_oscillation_refined.sql:70 | the total is the number of peers with two recent observations and a logged version plus the number with one observation and several logged versions; it is the former alone if and only if there are none of the latter |
| `Oscillation.OneObservationIsCounted` | results/nebula-analysis/queries/06_oscillation_refined.sql:70 | an instance: one observation of a peer whose version was logged twice gives a total of one, with no peer observed twice |

## Left out

- LabelDeterminesRun: leaves out named scenarios, whose names nothing checks for uniqueness, and scenarios with mocks, whose labels all say "mock".
- NoResultIsOverwritten: is about matrix values that are scalars; values that are lists or null, and a matrix key for names or mocks, are outside it. It does not check the settings that no label mentions, so it also covers experiments the runner rejects for them.
- HandleDialRequest: serves a request whose stream is released in the end; before that the timeout behaviour just blocks, which the state machine shows as `Hanging`.
- ParseTraceFile: starts from parsed lines; blank and undecodable lines, which the source skips, are not there.
- P95Rank: takes the index as floor(95n/100) - 1 instead of the floating-point product, and the median as twice its value; the mean and the rounding of both are not modelled.
- RustConvergesWhenProbed: reads the string lists of the trace file; the debug-formatted text the Rust node sends to the span store is not modelled.
- RustFlipIsFirstToggle: the same.
- The libp2p libraries: connecting, opening streams, writing, peerstore expiry and lost connections are arbitrary outcomes; background activity of the dialer host beyond these is not there.
- Delays, jitter and real time of the mock server, and closing it.
- Parsing of multiaddrs and of behaviour names; the address-file readers of the Go and Rust nodes, which hand each line to a multiaddr library.
- Values that are floats, booleans or lists of anything but strings; texts that decode to something other than a list are treated as undecodable.
- Validate: checks what a label shows and the mock behaviours; the runner's checks of timeouts, ports, the other mock settings, toggles and assertions are not modelled.
- What Python's `int` accepts besides an optional sign and ASCII digits: white space, underscores and other digits.
- The order of a Rust HashSet is arbitrary; that of a JavaScript Set is insertion order.
- The percentages, rounding and ordering of the oscillation query's output.
- The HTTP query for spans with its search limits, waiting for convergence, docker, the command line, profiles, plotting and text reports.
- Negative sleep times of toggles, and time that passes between the start of a wait and its first look at the clock.
