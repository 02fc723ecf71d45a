# dark-canary, modelled in Dafny

dark-canary answers a request from the primary service, sends a copy to a shadow service, and
reports how the two answers differ. This project models its core and proves what the pieces, and
the pieces together, promise.

| module | what it models |
|---|---|
| `Text`, `Sorting` | byte strings, splitting, numerals, the byte order, sorting |
| `Glob` | the path globs of the noise rules and the single-pass matcher |
| `Json` | decoded JSON, structural equivalence, JSON pointers (RFC 6901) |
| `Diff` | the comparison: the events of the recursive walk, and the class `Sink` that collects them |
| `DiffPaths`, `DiffRules` | where differences are, that none is missed, what rules can and cannot do |
| `DiffMeaning`, `DiffOrder` | what a comparison says and in which order, told by the two responses alone |
| `Noise` | the rules: matching, normalisers, suppression, the post-hoc pass |
| `NoiseMeaning` | what the rules hide, told by the words of a rule and the two values |
| `NoiseLaws`, `NoiseApply` | what the rules promise, where the promise ends, ignoring during against ignoring afterwards |
| `Collector` | the correlating buffer: its locked sections as functions, and the class `Buffer` that performs them in place on a map and an array |
| `CollectorRuns`, `CollectorHistory`, `CollectorExpiry` | the buffer under every interleaving of locked sections, channel sends and receives: conservation, soundness of pairs, order, expiry |
| `CollectorQueue` | the backlog: first in, first out, each pair once |
| `Tee` | where captured bodies come from, and the door into the buffer |
| `Proxy` | proxy mode as a state machine: slots, numbers, captures |
| `ProxyProgress` | that it gets things done: every turn is taken, and an answered request leaves its captures |
| `Edge` | the proxy feeding the buffer |
| `Report`, `Pipeline` | the aggregator, the consumer and the report |

Conventions. A string is a sequence of bytes, one `char` each; letter case and white space are
ASCII. A run of the buffer or of the proxy is any sequence of events whatsoever: an event whose
turn has not come leaves the state alone, so a statement about all sequences is a statement about
all interleavings. Number values, the stable rendering used for equality, the rendering used for
reports, JSON decoding and scrubbing are arbitrary functions; where a statement needs something of
them it says so (`Library.Faithful`: different values render differently; `ReadsNumeralsOnly`:
"number" or "3 items" is not a numeral). Clocks are parameters.

Where the code and its own words disagree, the code is modelled, and what it does is stated exactly:

- `internal/collector/collector.go:204` says that whatever is expired is a prefix of the list. That
  holds if and only if nothing overdue is listed behind something younger (`ExpireByAge`); a repeated
  side (`RefreshBreaksTiming`) and a clock reading taken before the lock (`LateReadingBreaksTiming`)
  each break it. So an overdue partner is still paired if and only if something younger is listed
  before it (`PairsIffFreshBefore`), and a run pairs in time if and only if that never happens and no
  partner bears a later time (`TimelyIffNeverLate`). Fed by the proxy alone no side is repeated
  (`ProxyFeedsSafely`).
- `docs/architecture.md:178` says that the counters account for every capture. They do if and only if
  nothing was superseded and no pair was lost to a full backlog (`Accounting`); each of the two alone
  breaks it (`RepeatIsNotShown`, `LossIsNotShown`).
- `internal/noise/noise.go:115` and `internal/diff/diff.go:74` say that rules suppress only values
  that differ. Two arrays the comparison takes for equal are hidden and counted if and only if the
  governing rule ignores, or their renderings differ and the rule is `len`, or is `sort` and the
  items' renderings are the same up to order (`EqualArraysHidden`). Nothing else is ever hidden for
  nothing (`HiddenForNothing`). All three happen (`IgnoreCountsEqualArrays`, `SortCountsEqualArrays`,
  `LengthCountsEqualArrays`).
- `internal/noise/noise.go:129` offers the post-hoc pass as what the rules would have hidden. With
  rules that only ignore, it reports the same as the comparison under those rules, for every pair of
  responses, if and only if whatever place in a body is ignored, so is everything an array there could
  hold (`PassesAgreeIffReachingDown`). The rules of a fresh install are of that kind
  (`DefaultPassesAgree`); ignoring an array by its plain path, such as `/body/items`, is not
  (`PlainIgnoreDisagrees`).
- `internal/diff/diff.go:50` calls the suppressed count the number of raw differences removed. Two
  arrays hidden as a whole count once, whatever differs in them: the raw differences are the reported
  ones and what the hidden ones are worth, so the comment holds if and only if they are worth as much
  as they count, which is so whenever no whole arrays were hidden (`SuppressedStandsFor`). One
  suppression can stand for two differences (`OneHidesTwo`) and for none (`IgnoreCountsEqualArrays`).
- A `len` rule measures type names and item counts too (`LengthHidesTypeChange`,
  `LengthHidesCounts`), because the walk offers those to the rules as strings.
- A reported body difference shows the same value on both sides if and only if it is a key that holds
  null on one side and is missing from the other (`EqualSidesAreNullKeys`, `NullKeyAgainstNone`). So a
  report shows such a difference if and only if, somewhere in both documents, an object holds null
  under a key that the other lacks (`LooksEqualIffNullKey`).
- Where two header names of one response differ in letter case only, the original reads whichever its
  map iteration meets first. The model allows either: the result is that of the pair with one spelling
  kept per name (`Diff.Compare`).

## Model

| member | source | states |
|---|---|---|
| `Glob.MatchSegments` | `internal/noise/noise.go:326-350` | The single-pass matcher, which retries only the last `**`, answers exactly what the recursive meaning of `*` and `**` says, and its main loop runs at most (path+1)·(pattern+1)−1 times for any number of `**`. |
| `Glob.MatchesIffLaid` | `internal/noise/noise.go:323-350` | A pattern matches a path exactly when it can be laid over it: `**` takes any stretch of segments, `*` any one, and every other segment one that is equal to it. The matcher answers exactly that. |
| `Glob.StarFreeMatches` | `internal/noise/noise.go:334` | Without `**`, pattern and path are equally long and agree segment by segment, where `*` agrees with every segment. |
| `Glob.SegmentsOfPath` | `internal/noise/noise.go:315-321` | The segments of a path are what stands between its slashes, with the first slash or without it. |
| `Glob.NextStar` | `internal/noise/noise.go:331-333` | The exchange step: when a second `**` is reached, the answer no longer depends on where the first one stopped. |
| `Glob.Retry` | `internal/noise/noise.go:337-343` | On a mismatch the current start of the last `**` has failed; the next start keeps the whole answer, and without a `**` there is no match. |
| `Glob.PathExhausted` | `internal/noise/noise.go:345-349` | At the end of the path no later start of the last `**` can do better. |
| `Glob.MatchesConcat` | `internal/noise/noise.go:323-350` | Patterns compose: a joined pattern matches exactly the paths that split into two matched parts. |
| `Glob.StarAcceptsExtensions` | `internal/noise/noise.go:326-350` | A pattern followed by `**` matches exactly the paths that have a prefix the pattern matches. |
| `Glob.SelfMatch` | `internal/noise/noise.go:326-350` | Every path, read as a pattern, matches itself, even when its segments are `*` or `**`. |
| `Glob.MatchGlob` | `internal/noise/noise.go:311-321` | Matching of strings: both sides in lower case, one leading slash off, split at slashes. |
| `Glob.PathMatchesItself` | `internal/noise/noise.go:309-321` | A path matches itself in any letter case. |
| `Json.EscapeMeans` | `internal/diff/diff.go:369-372` | In a path each `~` of a key is written `~0` and each slash `~1`; everything else stays. |
| `Json.UnescapeEscape` | `internal/diff/diff.go:369-372` | Unescaping by section 4 of RFC 6901 undoes the escaping of section 3 on every key. |
| `Json.ParsePointerOfPointer` | `internal/diff/diff.go:276-278` | A path, parsed as a JSON pointer, gives back exactly the keys and indices it was built from. |
| `Json.PointerInjective` | `internal/diff/diff.go:369-372` | A key cannot forge a path: different positions have different paths. |
| `Json.IndexRoundTrip` | `internal/diff/diff.go:304-306` | An array index written in decimal is the only array-index token that denotes it. |
| `Json.EquivReflexive` | `internal/diff/diff.go:254-272` | Structural equivalence holds of every value and itself, numbers without a value included. |
| `Json.EquivSymmetric` | `internal/diff/diff.go:348-355` | Structural equivalence does not depend on the sides. |
| `Json.EquivTransitive` | `internal/diff/diff.go:348-355` | Structural equivalence chains, although 1 and 1.0 are equal and differently spelled. |
| `Json.EquivOfLeaves` | `internal/diff/diff.go:346-355` | Strings and Booleans are equivalent when they are equal, null only to null, numbers by value where both have one and by spelling otherwise, and leaves of different types never. |
| `Diff.Sink.Suppressed` | `internal/diff/diff.go:148-154` | Counts one suppression exactly when the rules say so. |
| `Diff.Sink.Add` | `internal/diff/diff.go:136-146` | Appends the difference or counts the suppression, never both. |
| `Diff.Sink.Compare` | `internal/diff/diff.go:254-272` | The walk leaves in the sink exactly the events of the recursive comparison of the two values, in order. |
| `Diff.Sink.CompareObjects` | `internal/diff/diff.go:276-290` | Objects are compared key by key over the union of the keys in byte order. |
| `Diff.Sink.CompareArrays` | `internal/diff/diff.go:295-307` | The two arrays are offered whole first; then the length, then the indices both have. |
| `Diff.Sink.CompareHeaders` | `internal/diff/diff.go:174-197` | Headers are compared by lower-case name, sorted, without the transport headers; of names that differ in letter case only, any one is read. |
| `Diff.Sink.CompareBodies` | `internal/diff/diff.go:210-228` | Two documents are walked, one document against none is one shape difference, no documents are compared as bytes. |
| `Diff.SortedKeys` | `internal/diff/diff.go:309-323` | However the two maps are iterated, the sorted list of their keys is the same. |
| `Diff.FindHeader` | `internal/diff/diff.go:199-206` | The values, joined, of one of the headers with that name in any letter case; nothing when there is none. |
| `Diff.Compare` | `internal/diff/diff.go:118-127` | One comparison returns exactly the reported differences, in order, and the number of hidden ones, of the pair as it is read: with one spelling of each header name. |
| `Diff.ReadAsIs` | `internal/diff/diff.go:199-206` | Where no two names of a response differ in letter case only, there is one way to read the pair. |
| `DiffPaths.BodyDifferenceResolves` | `internal/diff/diff.go:254-307` | The path of every reported body difference is a JSON pointer that leads, on both sides, to what the difference says is there: two values that differ, or a key that one side lacks. |
| `DiffPaths.EveryDivergenceIsReported` | `internal/diff/diff.go:254-307` | Without rules, wherever two documents diverge a difference is reported at that place or above it. |
| `DiffPaths.SilentIffEquivalent` | `internal/diff/diff.go:254-307` | Without rules, nothing is reported if and only if the two documents are structurally equivalent. |
| `DiffPaths.IdenticalIffSame` | `internal/diff/diff.go:118-127` | Without rules, a pair is identical if and only if status, non-transport headers and bodies are the same. |
| `DiffPaths.EqualSidesAreNullKeys` | `internal/diff/diff.go:280-286` | A reported body difference has the same value on both sides if and only if it is a null key against no key. |
| `DiffPaths.LooksEqualIffNullKey` | `internal/diff/diff.go:276-290` | Without rules, comparing two bodies reports a difference with equal sides if and only if both are documents and, at some place in both, an object holds null under a key the other lacks. |
| `DiffPaths.NullKeyAgainstNone` | `internal/diff/diff.go:280-286` | A null key against no key is reported, as null against null. |
| `DiffPaths.WalkPathsApart` | `internal/diff/diff.go:276-307` | No two events of one walk, reported or hidden, share a path. |
| `DiffPaths.PairPathsApart` | `internal/diff/diff.go:93-98` | Nor do any two of a whole comparison: status, headers and body never collide. |
| `DiffPaths.ResultPathsUnique` | `internal/diff/diff.go:118-127` | Within one result every path is reported at most once. |
| `DiffMeaning.DifferenceIsReported` | `internal/diff/diff.go:254-307` | Without rules, wherever a pointer leads to different strings, Booleans or number values, to arrays of different lengths, to values of different types or to something on one side only, a difference is reported there or above. |
| `DiffMeaning.SilentIffSameEverywhere` | `internal/diff/diff.go:254-307` | Without rules, two documents report nothing if and only if every pointer leads to the same on both sides. |
| `DiffMeaning.KindsAreNamed` | `internal/diff/diff.go:255-258` | Two values of different types are reported as their two words, primary first, and as nothing else. |
| `DiffMeaning.LengthsAreNamed` | `internal/diff/diff.go:299-303` | Two arrays of different lengths are reported with both lengths before anything in them. |
| `DiffMeaning.StatusIsReported` | `internal/diff/diff.go:121-123` | Two status codes are reported, primary first, if and only if they differ and the rules let it pass. |
| `DiffMeaning.HeaderIsReported` | `internal/diff/diff.go:174-206` | In a pair as it is read, with one spelling of each header name, a header is reported under its lower-case name, primary first, if and only if its two joined values differ, it is none of the nine transport headers and the rules let it pass; and nothing else is reported there. |
| `DiffMeaning.JoinMeans` | `internal/diff/diff.go:202` | Several values of one header are joined by a comma and a space. |
| `DiffMeaning.BytesAreReported` | `internal/diff/diff.go:225-227` | When neither body is a document, both are reported whole if and only if their bytes differ and the rules let it pass. |
| `DiffMeaning.OneDocumentIsReported` | `internal/diff/diff.go:219-223` | When only one body is a document, that is what is reported of the bodies, primary first. |
| `DiffMeaning.IdenticalMeans` | `internal/diff/diff.go:118-128` | Without rules a pair, as it is read, is identical if and only if the status codes are equal, all headers but the transport ones read the same, and the bodies are the same bytes or, where both are documents, lead to the same under every pointer. |
| `DiffMeaning.KeptReadingIsAReading` | `internal/diff/diff.go:199-206` | What is read of a pair with one spelling kept of each header name is one of the readings of the pair itself. |
| `DiffOrder.WalkOrdered` | `internal/diff/diff.go:276-323` | The events of a walk, reported or hidden, come in document order: a value before what is in it, items by index, keys by their bytes. |
| `DiffOrder.ReportOrder` | `internal/diff/diff.go:118-128` | The differences of a result always come in one order: the status, the headers by the bytes of their names, the body in document order. |
| `DiffRules.RulesOnlyTakeAway` | `internal/diff/diff.go:136-154` | Whatever the rules: the reported differences are a subsequence of the raw ones, each missing one was given up by the rules or lies at or under two arrays they gave up, and nothing suppressed means the raw result. |
| `DiffRules.NothingBelowCut` | `internal/diff/diff.go:292-298` | In one walk nothing is reported at or below two arrays hidden as a whole. |
| `DiffRules.HiddenWasAsked` | `internal/diff/diff.go:148-154` | Every suppression counted is a place and two values for which the rules answered yes. |
| `DiffRules.SuppressedStandsFor` | `internal/diff/diff.go:43-51` | Conservation: the raw differences are the reported ones and those the suppressions stand for, where two arrays hidden as a whole stand for all the differences between them. So the suppressed count is the number of raw differences removed if and only if what is hidden stands for as many as it counts, and always when no whole arrays are hidden. |
| `DiffRules.OneHidesTwo` | `internal/diff/diff.go:292-298` | Two arrays with two type changes, hidden as a whole, are one suppression for two raw differences. |
| `DiffRules.SidesAreSymmetric` | `internal/diff/diff.go:118-127` | Exchanging primary and shadow gives the same differences in the same order with the sides exchanged, and the same suppressed count, for rules that do not mind the sides. |
| `Noise.FindMatch` | `internal/noise/noise.go:104-113` | The loop over the rules finds the last one whose glob matches. |
| `NoiseLaws.MatchIsLast` | `internal/noise/noise.go:102-113` | A rule is returned exactly when its glob matches and no later one's does; none when none matches. |
| `NoiseLaws.MergeOverrides` | `internal/noise/noise.go:96-100` | After a merge an operator's rule governs every path it matches, the defaults the others. |
| `Noise.ToSortedStrings` | `internal/noise/noise.go:273-284` | The renderings of an array's items, sorted. |
| `NoiseLaws.NormalisedEquality` | `internal/noise/noise.go:186-210` | Each normaliser compares normal forms, and a value it cannot judge equals nothing; so it is symmetric and transitive. |
| `NoiseLaws.SortAcceptsPermutations` | `internal/noise/noise.go:222-234` | `sort` accepts two values exactly when both are arrays with the same renderings up to order, hence, if renderings are faithful, the same items up to order. |
| `NoiseLaws.RoundedEqualMeansClose` | `internal/noise/noise.go:212-220` | Numbers that `round:N` takes for equal differ by less than 10^−N. |
| `NoiseLaws.RulesAreImpartial` | `internal/noise/noise.go:117-127` | No rule minds which side a value is on. |
| `NoiseLaws.SidesAreSymmetricUnderRules` | `internal/noise/noise.go:117-127` | So under any rules, and under none, exchanging the sides exchanges the two sides of every difference and nothing else. |
| `NoiseMeaning.SpecsMean` | `internal/noise/noise.go:157-170` | `sort`, `trim`, `lower` and `len` are those words; `round:` is followed by a number from 0 to 15, with a sign and leading zeros if one likes; nothing else is a normalisation. |
| `NoiseMeaning.SuppressMeans` | `internal/noise/noise.go:117-127` | Two values are hidden if and only if the last rule whose glob matches ignores, or their renderings differ and it takes them for the same: the same renderings up to order, the same string but for white space at its ends, or but for letter case, the same length, or numbers that round to the same at N decimal places, half away from zero. |
| `NoiseMeaning.AppliesMeans` | `internal/noise/noise.go:240-254` | The post-hoc pass hides a difference if and only if the last rule whose glob matches ignores, or the two texts shown differ and a rule other than `sort` takes them for the same. |
| `NoiseMeaning.ApplyMeans` | `internal/noise/noise.go:136-148` | It leaves every difference no rule hides, as often as it was there and in the same order, and nothing else, and adds the rest to the suppressed count. |
| `NoiseMeaning.Pow10Means` | `internal/noise/noise.go:218` | Rounding to N places scales by the number written as a one and N zeros. |
| `NoiseMeaning.DefaultIgnores` | `internal/noise/noise.go:57-67` | A fresh install ignores exactly seven headers, in any letter case. |
| `NoiseMeaning.DefaultIgnoresHeadersOnly` | `internal/noise/noise.go:57-67` | And neither the status nor any place in a body. |
| `NoiseLaws.EqualValuesAreHiddenByIgnoreOnly` | `internal/noise/noise.go:115-127` | Values with the same rendering are hidden if and only if the governing rule ignores: the comment's claim holds for normalising rules and fails for ignoring ones. |
| `NoiseLaws.EqualArraysSuppressed` | `internal/noise/noise.go:115-127` | Two arrays the comparison takes for equal are suppressed if and only if the governing rule ignores, or their renderings differ and it is `len`, or `sort` with the same renderings up to order. |
| `NoiseLaws.EqualArraysHidden` | `internal/diff/diff.go:292-298` | Comparing two such arrays counts a suppression, where without rules there is nothing to report, if and only if the governing rule is of that kind. |
| `NoiseLaws.HiddenForNothing` | `internal/diff/diff.go:292-298` | Something hidden by a comparison hides no raw difference at its path or below it if and only if it is two whole equivalent arrays, and then the governing rule is of the kind just named. |
| `NoiseLaws.IgnoreCountsEqualArrays` | `internal/noise/noise.go:122-124` | Two equal arrays at an ignored path are counted as suppressed although nothing differs. |
| `NoiseLaws.SortCountsEqualArrays` | `internal/noise/noise.go:297-305` | Under a `sort` rule two arrays with the same items in another order and spelling are hidden and counted although the raw walk is empty. |
| `NoiseLaws.LengthCountsEqualArrays` | `internal/noise/noise.go:203-206` | Under a `len` rule so are two arrays with one item, spelled differently. |
| `NoiseLaws.GentleRulesKeepStructure` | `internal/noise/noise.go:186-210` | Under rules that only round, sort, trim or fold case, every type change, one-sided key and length change is reported, unless it lies at or under two arrays a `sort` rule gave up as permutations. |
| `NoiseLaws.StructureIsNotHidden` | `internal/diff/diff.go:254-306` | No normaliser but `len` takes a type change or a length change for equal, and none takes a one-sided key for equal. |
| `NoiseLaws.OneSidedKeysSurvive` | `internal/noise/noise.go:186-210` | Under rules that never ignore, `len` included, every one-sided key of the raw result is reported, unless it lies at or under two arrays of one length given up as a whole. |
| `NoiseLaws.LengthHidesTypeChange` | `internal/diff/diff.go:255-257` | Under a `len` rule a type change is hidden exactly when both types are among number, string and object, whose names are equally long. |
| `NoiseLaws.LengthHidesCounts` | `internal/diff/diff.go:299-303` | Under a `len` rule a length change is hidden exactly when both counts have equally many digits. |
| `Noise.Apply` | `internal/noise/noise.go:136-148` | The post-hoc pass keeps, in order, the differences no rule applies to and conserves differences plus suppressed. |
| `NoiseApply.IgnoringDuringAndAfter` | `internal/noise/noise.go:129-148` | With rules that only ignore, the comparison reports a subsequence of what the post-hoc pass leaves of the raw result, and all of it if and only if every raw difference below two arrays hidden as a whole is ignored by itself. |
| `NoiseApply.CutIsFinal` | `internal/diff/diff.go:295-298` | Once two whole arrays are hidden nothing at or below them is reported. |
| `NoiseApply.ReachingDownAgrees` | `internal/noise/noise.go:129-148` | If whatever place in a body is ignored, so is everything an array there could hold, the two passes report the same. |
| `NoiseApply.CutLosesBelow` | `internal/noise/noise.go:129-148` | If not, there is a pair of responses on which they disagree. |
| `NoiseApply.PassesAgreeIffReachingDown` | `internal/noise/noise.go:129-148` | So the two passes agree on every pair of responses if and only if the rules are of that kind, which is a condition on the rules alone. |
| `NoiseApply.PlainIgnoreDisagrees` | `internal/noise/noise.go:129-148` | Ignoring an array by its plain path, the two passes disagree on a pair whose arrays differ in an item. |
| `NoiseApply.DefaultPassesAgree` | `internal/noise/noise.go:57-67` | Under the ruleset of a fresh install the two passes agree. |
| `NoiseApply.OpenGlobReachesDown` | `internal/noise/noise.go:309-321` | A glob that ends in `**` matches everything below what it matches. |
| `NoiseApply.OpenIgnoresAgree` | `internal/noise/noise.go:129-148` | When every ignoring glob ends in `**` or is not about bodies, the two passes agree. |
| `Collector.Options.WithDefaults` | `internal/collector/collector.go:106-114` | Each option that is set is kept, each unset one gets its default. |
| `Collector.Buffer.constructor` | `internal/collector/collector.go:104-122` | A new buffer is empty and valid. |
| `Collector.Buffer.CompactOrder` | `internal/collector/collector.go:246-254` | Compaction in place is an order-preserving filter by what is still pending. |
| `Collector.Buffer.ScanInPlace` | `internal/collector/collector.go:201-216` | The loop over the list takes stale ids out of the map, counts them and stops at the first fresh one. |
| `Collector.Buffer.ExpireAt` | `internal/collector/collector.go:201-221` | The scan with its early stop, in place, is the specified expiry, and returns how many it removed. |
| `Collector.Buffer.EvictOldestInPlace` | `internal/collector/collector.go:224-233` | Removes the first listed id that is still pending and counts it as dropped. |
| `Collector.Buffer.RemoveInPlace` | `internal/collector/collector.go:236-239` | Takes one id out of the map and the list. |
| `Collector.Buffer.IngestLocked` | `internal/collector/collector.go:135-169` | The locked section computes the specified new state and the pair it completes, if any. |
| `Collector.Buffer.FileStamped` | `internal/collector/collector.go:149-188` | After expiry a capture replaces its own side, completes the pair with the other side, or waits, if need be in place of the oldest. |
| `Collector.Buffer.Offer` | `internal/collector/collector.go:171-181` | The non-blocking send: queued if there is room, otherwise dropped and no longer counted as paired. |
| `Collector.Buffer.Ingest` | `internal/collector/collector.go:132-189` | Filing one capture keeps the buffer valid and has exactly the specified effect on map, list, counters and backlog. |
| `Collector.Buffer.Sweep` | `internal/collector/collector.go:194-198` | Expires exactly the stale prefix of the list and returns its length. |
| `Collector.Buffer.Receive` | `internal/collector/collector.go:124-126` | Pairs leave the backlog in the order they entered it. |
| `Collector.ExpireTakesStalePrefix` | `internal/collector/collector.go:201-221` | Expiry removes exactly the maximal prefix of the list whose captures are at least Timeout old. |
| `Collector.StalePrefixIsMaximal` | `internal/collector/collector.go:205-213` | Everything in that prefix is stale and what follows it is not. |
| `Collector.EvictTakesHead` | `internal/collector/collector.go:224-233` | In a valid state eviction takes the head of the list and nothing else. |
| `Collector.LockKeepsValid` | `internal/collector/collector.go:135-188` | After every locked section the list holds exactly the pending ids, each once, and they are at most MaxPending. |
| `Collector.LockCounts` | `internal/collector/collector.go:136-142` | Every capture is counted as received, and as discarded if and only if it is malformed. |
| `CollectorRuns.IngestIsLock` | `internal/collector/collector.go:135-169` | A step of the interleaved system changes the buffer exactly as the buffer's own locked section does. |
| `CollectorRuns.RunKeepsBooks` | `internal/collector/collector.go:132-189` | In every interleaving each filed capture is in exactly one place, the counters count those places, and the channel holds the queued pairs, each once and never too many. |
| `CollectorRuns.Accounting` | `internal/collector/collector.go:256-266` | In every interleaving the visible counters fall short of Received by exactly the superseded captures plus one per lost pair; they add up if and only if there were none of either. |
| `CollectorRuns.RepeatIsNotShown` | `internal/collector/collector.go:149-157` | A run in which a side is repeated: two captures received, one accounted for. |
| `CollectorRuns.LossIsNotShown` | `internal/collector/collector.go:171-181` | A run without a repeat in which a pair is lost to a full backlog: the counters fall short by one. |
| `CollectorHistory.PairsAreSound` | `internal/collector/collector.go:138-169` | In every interleaving a pair joins a primary and a shadow capture of one id with nothing of that id filed in between, and no capture is in two pairs. |
| `CollectorHistory.OrderIsInsertionOrder` | `internal/collector/collector.go:183-187` | In every interleaving the list is the pending ids without repeats in the order they entered, within the bound; eviction takes the one that entered first. |
| `CollectorQueue.FirstInFirstOut` | `internal/collector/collector.go:171-181` | In every interleaving the pairs whose sends went through are those the consumer got, in the same order, followed by those still queued. |
| `CollectorQueue.EachGoesInOnce` | `internal/collector/collector.go:171-181` | No pair goes into the backlog twice, so none comes out twice. |
| `CollectorQueue.FullBacklogRefuses` | `internal/collector/collector.go:171-174` | A send that finds the backlog full refuses the pair and touches nothing else. |
| `CollectorQueue.RefusedIsLost` | `internal/collector/collector.go:175-178` | The second locked section counts a refused pair as dropped and no longer as paired. |
| `CollectorExpiry.ExpireSparesFresh` | `internal/collector/collector.go:210-212` | Expiry never takes a capture younger than Timeout. |
| `CollectorExpiry.ExpireLeavesOverdue` | `internal/collector/collector.go:204-212` | It leaves an overdue capture behind exactly when that one is listed after a younger one. |
| `CollectorExpiry.ExpireByAge` | `internal/collector/collector.go:204-212` | So the comment that everything expired is a prefix holds if and only if nothing overdue is listed after something younger. |
| `CollectorExpiry.SurvivesExpiry` | `internal/collector/collector.go:201-221` | An id survives expiry exactly when it, or something listed before it, is younger than Timeout. |
| `CollectorExpiry.PairsIffFreshBefore` | `internal/collector/collector.go:147-169` | A locked section makes a pair exactly when the partner waits and it, or something listed before it, is younger than Timeout. |
| `CollectorExpiry.LockDiscards` | `internal/collector/collector.go:138-142` | A capture without an id, or of neither side, is counted as received and discarded, and changes nothing else. |
| `CollectorExpiry.LockFilesOn` | `internal/collector/collector.go:132-148` | A well-formed capture, stamped if it bears no time, is counted as received and filed in what is left once the stale prefix of the list has timed out. |
| `CollectorExpiry.SweptIsValid` | `internal/collector/collector.go:147` | What is left then still lists exactly the pending ids, each once, within the bound. |
| `CollectorExpiry.FileMeans` | `internal/collector/collector.go:149-188` | Filing: with the other side a capture makes a pair, primary first, and both leave; the same side it replaces in place; otherwise it waits at the end of the list, and if the buffer is full the one listed longest is dropped for it. |
| `CollectorExpiry.SweepMeans` | `internal/collector/collector.go:194-221` | In every run a sweep times out exactly the stale prefix of the list and touches no pair. |
| `CollectorExpiry.SmoothRunsExpireByAge` | `internal/collector/collector.go:201-221` | While the locked sections' clock readings do not go back and no held side is repeated, expiry is by age and every pair joins captures filed less than Timeout apart. |
| `CollectorExpiry.TimelyIffNeverLate` | `internal/collector/collector.go:132-169` | In every interleaving all pairs join captures filed in order and less than Timeout apart if and only if no arrival found an overdue partner behind something younger, or one that bears a later time. |
| `CollectorExpiry.RefreshBreaksTiming` | `internal/collector/collector.go:149-157` | A run with a steady clock in which a repeated side supersedes a capture, refreshed in place, and a pair older than Timeout gets through. |
| `CollectorExpiry.LateReadingBreaksTiming` | `internal/collector/collector.go:133-135` | A run without any repeat in which a clock reading taken before the lock does the same. |
| `Tee.TeeBody.Read` | `cmd/dark-canary/proxy.go:205-211` | The client gets every byte unchanged and the buffer holds the first max bytes that passed. |
| `Tee.TeeBody.Close` | `cmd/dark-canary/proxy.go:213-219` | The first Close hands over what was kept, a second one nothing. |
| `Tee.Stream` | `cmd/dark-canary/proxy.go:140-151` | However a response is cut into reads, the capture is its first max bytes. |
| `Tee.ReadLimited` | `cmd/dark-canary/proxy.go:176-178` | However the shadow's response arrives, its first max bytes are kept. |
| `Tee.ReadRequest` | `cmd/dark-canary/proxy.go:102-116` | A request body is mirrored exactly when it is complete and within the limit; the primary gets all of it in any case. |
| `Tee.Prepare` | `cmd/dark-canary/main.go:262-279` | Each stored body is the scrubbed one or as many of its first bytes as the limit allows, each stored header what the scrubber makes of its name and values, under the same names; id, side, method, URL, status and time stay. |
| `Tee.OnlyScrubbedIsStored` | `cmd/dark-canary/main.go:258-271` | No raw body or header reaches the buffer: captures that the scrubber makes the same of, and that are otherwise the same, are stored the same. |
| `Tee.EqualBodiesAreSilent` | `internal/diff/diff.go:210-228` | Equal bodies give no difference under any rules. |
| `Tee.SameBytesSameBody` | `cmd/dark-canary/proxy.go:176-219` | A primary response read to the end and a shadow response with the same bytes are stored with equal bodies and compared without any body difference. |
| `Proxy.SlotsAreHeld` | `cmd/dark-canary/proxy.go:84-115` | In every interleaving the used slots are the requests reading their body plus the live shadow goroutines, at most the limit; no release can block; and `skipped` counts exactly the requests that were to be mirrored but run on without a shadow. |
| `ProxyProgress.SlotIsTried` | `cmd/dark-canary/proxy.go:71-91` | A request that is to be mirrored takes a slot if and only if one is free, and is refused otherwise; any other is left alone. |
| `ProxyProgress.RequestsAreArrivals` | `cmd/dark-canary/proxy.go:93-97` | The requests of a run are its arrivals, and each is to be mirrored exactly when its arrival said so. |
| `ProxyProgress.DrawsANumber` | `cmd/dark-canary/proxy.go:100` | An admitted request draws the next number; nobody else draws one. |
| `ProxyProgress.ReadsItsBody` | `cmd/dark-canary/proxy.go:105-122` | A body read in full starts the shadow, which takes over the slot. |
| `ProxyProgress.BailsOut` | `cmd/dark-canary/proxy.go:108-109` | A body that is too large or breaks off gives the slot back. |
| `ProxyProgress.IsSkipped` | `cmd/dark-canary/proxy.go:88-110` | Whoever found no slot, or gave it back, is counted as skipped, once. |
| `ProxyProgress.PrimaryResponds` | `cmd/dark-canary/proxy.go:124` | The primary answers a forwarded request, and nobody else. |
| `ProxyProgress.PrimaryGivesUp` | `cmd/dark-canary/proxy.go:124` | Or it fails, and leaves no capture. |
| `ProxyProgress.PrimaryIsCaptured` | `cmd/dark-canary/proxy.go:130-151` | When the primary's response is closed one capture of it is handed over, with what was kept of the body and no request body. |
| `ProxyProgress.ShadowIsCaptured` | `cmd/dark-canary/proxy.go:182-192` | When the shadow answers one capture of it is handed over, with the body the request was mirrored with. |
| `ProxyProgress.ShadowGivesUp` | `cmd/dark-canary/proxy.go:171-176` | A shadow that fails leaves none. |
| `ProxyProgress.ShadowLeaves` | `cmd/dark-canary/proxy.go:156` | Either way the slot is given back. |
| `ProxyProgress.TraceIsComplete` | `cmd/dark-canary/proxy.go:130-192` | In every interleaving a request has exactly one capture of a side it handed over, and none of a side it did not. |
| `ProxyProgress.PrimaryLeavesCapture` | `cmd/dark-canary/proxy.go:93-151` | An admitted request that draws, reads its body, is answered by the primary and closed leaves the primary's capture under the number it drew, whatever happens before, in between and after. |
| `ProxyProgress.ShadowLeavesCapture` | `cmd/dark-canary/proxy.go:93-193` | And one whose shadow answers leaves the shadow's. |
| `Proxy.IdsClash` | `cmd/dark-canary/proxy.go:100` | Two request numbers get the same correlation id exactly when they are equal modulo 2^64. |
| `Proxy.IdSpells` | `cmd/dark-canary/proxy.go:100` | The id is the request's number modulo 2^64, written in base 36 with digits and small letters. |
| `Proxy.OneCapturePerSide` | `cmd/dark-canary/proxy.go:93-193` | In every interleaving that draws fewer than 2^64 numbers no side is captured twice under one id, and captures with one id belong to one request. |
| `Proxy.TraceIsGiven` | `cmd/dark-canary/proxy.go:130-191` | Whatever is handed over is what its request saw of that side, under the id that request drew. |
| `Edge.NoRepeats` | `internal/collector/collector.go:149-157` | A run that files no side twice supersedes nothing, and with a steady clock it is smooth. |
| `Edge.ProxyFeedsSafely` | `cmd/dark-canary/main.go:258-272` | A buffer fed only by the proxy, in any order of its goroutines, supersedes nothing, accounts for every capture but one per lost pair, and with a steady clock expires by age and pairs in time. |
| `Edge.PairIsOneRequest` | `cmd/dark-canary/proxy.go:98-124` | Both halves of every pair are one request's two responses, under the id it drew: side, method, URL and status as they were seen, bodies and headers as the scrubber makes them, bodies cut to the limit. |
| `Edge.PairsAreOfDifferentRequests` | `cmd/dark-canary/proxy.go:98-124` | Two pairs belong to two requests and bear two ids. |
| `Report.KeyInjective` | `internal/report/report.go:135` | One key for each kind and path: groups never merge two findings. |
| `Report.TallyMeans` | `internal/report/report.go:134-152` | There is a group exactly for what occurred, and it counts the occurrences. |
| `Report.TallyOpens` | `internal/report/report.go:137-148` | A group's example and first time are those of the first occurrence. |
| `Report.TallyCloses` | `internal/report/report.go:151-152` | A group's last time is that of the last occurrence added. |
| `Report.CountsArePairs` | `internal/report/report.go:134-153` | When no result reports a path twice, a group's count is the number of pairs that show it. |
| `Report.RatesAreShares` | `internal/report/report.go:171-175` | Then its rate is the share of compared pairs that show it, above 0 and at most 1, and its count is at most the divergent pairs. |
| `Report.CountsAddUp` | `internal/report/report.go:134-153` | The counts under all keys add up to the differences added. |
| `Report.NothingOccurredIffAllIdentical` | `internal/report/report.go:129-132` | Nothing is recorded exactly when every result was identical. |
| `Report.AgreementRateMeans` | `internal/report/report.go:91-97` | The agreement rate lies between 0 and 1 and is 1 exactly when pairs were compared and none diverged. |
| `Report.Aggregator.AddGroups` | `internal/report/report.go:134-153` | The loop over one result's differences opens or updates the group of each, so that the groups tally the history and the differences just read. |
| `Report.Aggregator.Add` | `internal/report/report.go:122-154` | Adding a result keeps every counter and every group equal to what the history of results amounts to. |
| `Report.SortedMeans` | `internal/report/report.go:177-188` | In a sorted report status codes come before everything, shapes and one-sided keys before headers and values; within one such class counts do not increase, and equal counts come in byte order of path. Each kind bears its word: high, medium or low. |
| `Report.Aggregator.Summarise` | `internal/report/report.go:156-189` | The groups are the stored ones with their rates, in the order of severity, count and path just described; their counts sum to all differences; there are none exactly when nothing diverged. |
| `Report.EveryGroupTells` | `internal/report/report.go:134-153` | A line shows the request and the two values of the first pair that differed there, when that was, and when it was last so. |
| `Pipeline.Consume` | `cmd/dark-canary/main.go:281-290` | The consumer adds the results of the pairs in backlog order, each as it is read, touches nothing else of the buffer, and never adds a result that reports a path twice. |
| `Pipeline.ReadReport` | `cmd/dark-canary/main.go:321-340` | Whatever was consumed under whatever rules, the report's headline numbers add up, its lines come in their order, and every line counts pairs, shows their true share and tells of the first and the last of them. |
| `Pipeline.LinesCountRequests` | `internal/report/report.go:134-153` | When no two results bear one id, a line counts the correlation ids, hence the requests, that show its difference. |
| `Pipeline.OutcomesCountRequests` | `cmd/dark-canary/main.go:281-290` | Consuming pairs of different ids makes such lines. |
| `Text.FormatInjective` | `cmd/dark-canary/proxy.go:100` | Two numbers never share a numeral. |
| `Text.FormatDigits` | `cmd/dark-canary/proxy.go:100` | The digit k places from the right is what remains of the number, divided by the base k times; digits are 0 to 9, then the small letters. |
| `Text.LowerMeans` | `internal/noise/noise.go:312` | Lower case, letter by letter of the alphabet. |
| `Text.SameTrim` | `internal/noise/noise.go:195-198` | Two strings have the same trimmed form if and only if they are the same but for white space at their ends. |
| `Text.LeqMeans` | `internal/diff/diff.go:321` | Strings are sorted by the first byte in which they differ, a prefix first. |
| `Sorting.SortCanonical` | `internal/diff/diff.go:189` | Sorting the keys of a map gives the same list whatever order they were iterated in. |
| `Sorting.SortedAscends` | `internal/diff/diff.go:189` | The sorted keys are all of them, each once, each before the next by its bytes. |
| `Sorting.OneSortedArrangement` | `internal/noise/noise.go:282` | A list of strings has one sorted arrangement only. |

## Left out

- Glob.MatchGlob: folds the case of ASCII letters only, where the original folds Unicode.
- Glob.PathMatchesItself: the same.
- NoiseApply.OpenGlobReachesDown: the same.
- Diff.FindHeader: the same, for header names, which are ASCII on the wire.
- NoiseLaws.RoundedEqualMeansClose: is about exact reals, not about 64-bit floats; in exact reals 1.005 and 1.0049 round apart at two places, although the original's own test has them equal, and infinities and not-a-number are taken to have no value.
- DiffRules.SidesAreSymmetric: relates two comparisons of one pair under one reading of the header names that differ in letter case only; the original may read another spelling the second time. `Diff.ReadAsIs` covers every pair without such names.
- NoiseLaws.SidesAreSymmetricUnderRules: the same.
- DiffMeaning.HeaderIsReported: is about the pair as it is read, in which no two header names differ in letter case only; `Diff.Compare` says that every result is that of such a pair, and `KeptReadingIsAReading` that what is read of it is a reading of the original one.
- DiffMeaning.IdenticalMeans: the same.
- NoiseApply.IgnoringDuringAndAfter: the same, and so `PassesAgreeIffReachingDown` and the statements built on it.
- DiffRules.RulesOnlyTakeAway: the same, and so `SuppressedStandsFor`: the raw result is that of the same reading.
- Proxy.OneCapturePerSide: fewer than 2^64 numbers, because the counter wraps; `IdsClash` says exactly what happens beyond.
- Edge.ProxyFeedsSafely: the clauses on expiry need that the clock readings of the locked sections never go back, which the original does not enforce, since it reads the clock before it takes the lock.
- The captures' latency: no decision depends on it.
- The snapshot that adds the number of pending captures and the length of the backlog to the counters: both are read off the state directly.
- The counters' 64-bit width: they are unbounded here.
- Two concurrent Close calls on one response body, and the aliasing of a capture's header map with the live response: a capture is a value here.
- Truncation of rendered values, the text report and its column widths: display only. Differences keep whole values.
- The order of groups that tie in severity, count and path (different kinds at one path): the original leaves it to map iteration, the model too.
- JSON decoding, which stops after the first value, and JSON encoding: arbitrary functions here.
- Unicode white space, and Unicode case folding in the `lower` normaliser.
- Loading and validating rule files, configuration, tokens, the kill switch file, signals, HTTP serving and forwarding, and the shadow request itself: their outcomes are the events of a run.
- The regular expressions of the scrubber and its configuration cache.
- The OpenResty hook in `lua/`, which feeds the buffer over HTTP: there a side can be repeated, and only the statements about all runs apply.
