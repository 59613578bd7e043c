# Bandwidth scanner and generator: a model with proofs

sbws measures the relays of a Tor network and writes a bandwidth file that directory
authorities vote with. This project models its three connected parts and proves what they
promise, for every input, run or interleaving.

* **The generator.** A relay's results pass through a chain of rules (`Generator`), the relays
  that are left are scaled by Torflow's method (`Torflow`, `TorflowLaws`; section B.4 of the Tor
  bandwidth file specification, with the limit of its section 2.3), capped and rounded to
  significant digits (`Rounding`; Tor proposal 276), and all of them become one file with counts
  and voting marks (`BandwidthFiles`, `BandwidthFileLaws`). `GeneratorLaws` and
  `GeneratedBandwidths` say what a line tells about the results it is made from, and which
  bandwidth a file gives a relay. The text format, its parser and the round trip between them are
  in `Text`, `FileKeys`, `BandwidthFileText`, `FileFormat`, `LineRoundTrip`, `HeaderRoundTrip` and
  `FileRoundTrip`; `GeneratedText` says what becomes of a generated file that is written and read.
* **Windows and stores.** Timestamps in bounded windows mirrored into a state file (`Timestamps`,
  `StateFiles`), results in memory and on disk (`ResultStore`, `ResultLoading`,
  `AddressChanges`), the queue between measuring and storing (`ResultQueue`), the list of relays
  with the consensuses each was in (`RelayLists`, `RecentConsensuses`) and the lock around refreshing it
  (`RefreshLock`). Each incremental structure is proved equal to one pass over its history.
* **The scanner's control logic.** The adaptive download sizes (`Downloads`), the two hops of a
  measurement circuit (`Circuits`), which relays come next (`Prioritizer`), and when a web server
  is given up and tried again (`Destinations`).

`BandwidthLines`, `Results`, `Sequences`, `Arithmetic` and `Wrappers` hold what they share.

Floats are exact reals and Python's `round` is round half to even. The clock, random choice, the
consensus, the network's answers and the scheduler are parameters. What the program changes in
place is a class with a method for each operation; each such method is proved against a function
of its arguments and the state before, and the laws are lemmas about that function.

## What the program does not keep

Where a property fails, the code is modelled as it is and the exact condition is proved.

* The download loop does not end on every link. For any thresholds, sizes and limits
  `Downloads.CollectsIff` says when it does, by how many requests are ever kept; for thresholds in
  ascending order that is when the second request or the target size, multiplied by five as long
  as it is too fast, is kept (`Downloads.CollectsAscendingIff`). It does not end when the smallest
  request takes too long (`Downloads.CollectsIffSmallestIsFastEnough`), nor on links below one
  byte per second whose target truncates to too little (`Downloads.TruncationStarvesSlowLink`).
* A first request larger than the content, which the configuration allows, raises an error
  (`Downloads.RaisedIffFirstTooLarge`).
* The network averages `mu` and `muf` are written to the header but dropped when it is read
  (`HeaderRoundTrip.HeaderSurvivesIff`), and a bandwidth that is not known is written as `None` and
  makes the file unreadable (`FileRoundTrip.FileIsReread`,
  `FileRoundTrip.UnknownIntegerCannotBeRead`). So a generated file can be read back exactly when
  average and burst of every eligible relay are known (`GeneratedText.GeneratedReadableIff`), and
  prints the same again only if no relay is eligible (`GeneratedText.GeneratedRoundTripsIff`).
* A relay without observed bandwidth gets a line without a `vote` key, although a comment says it
  has `vote=0` (sbws/lib/v3bwfile.py:882-885); see `Generator.ExcludedLine` and
  `BandwidthFileLaws.VotableExactly`.
* A bounded window that is given timestamps out of order can forget an entry that is still fresh:
  exactly when an earlier update had no room for it (`Timestamps.WindowForgetsIff`, with a run in
  `Timestamps.OutOfOrderWindowForgets`). The count of a window that can hold nothing is missing
  instead of zero (`StateFiles.CountIsLength`).
* Results dated after today are in the data directory but are not loaded
  (`ResultLoading.RecentDaysSuffice`). Results put after the consumer has left are never handled,
  so a success is lost exactly when one is left in the queue (`ResultQueue.LatePutsAreLost`,
  `ResultQueue.AllSuccessesStoredIff`, with a run in `ResultQueue.SuccessPutTooLate`).
* An error about destinations has the type of one about second relays (sbws/lib/resultdump.py:703-704),
  so it never shuts the scanner down (`ResultQueue.OnlyShutdownEnds`).
* A refresh whose consensus is an hour old again before minimum bandwidths are computed waits for
  the lock it holds (`RefreshLock.DeadlocksIffStale`), and a stale episode takes more than one
  refresh when the consensus recorded is stale itself (`RefreshLock.OneRefreshPerEpisodeIffFresh`).
* With the default settings and four or more threads no web server is ever found to be failing,
  since only ten attempts are stored (`Destinations.ManyThreadsNeverDisable`).
* A relay may be paired with itself. The relay measured is a copy, which may be older than the
  list: a copy measured as entry whose entry in the list has become a suitable exit is offered
  itself already at the first attempt (`Circuits.FirstAttemptOffersItselfIff`,
  `Circuits.OldCopyIsPairedWithItself`), and every relay measured as exit that the list has as a
  suitable exit is at the retry (`Circuits.RetryOffersRelayItself`).

## Model

| member | source | states |
|---|---|---|
| `Rounding.RoundSigDigAtLeastOne` | sbws/lib/v3bwfile.py:304-318 | rounding gives at least 1, and exactly 1 for bandwidths up to 1 |
| `Rounding.RoundSigDigMonotone` | sbws/lib/v3bwfile.py:304-318 | a larger number never rounds to a smaller one, also across powers of ten |
| `Rounding.RoundSigDigKeepsSigDigits` | sbws/lib/v3bwfile.py:304-318 | the result has at most the requested significant digits, also when rounding carries into a new digit |
| `Rounding.RoundSigDigFixpoint` | sbws/lib/v3bwfile.py:304-318 | a number with few enough digits is left alone |
| `Rounding.RoundSigDigIdempotent` | sbws/lib/v3bwfile.py:304-318 | rounding twice is rounding once |
| `Rounding.RoundSigDigHalfUnit` | sbws/lib/v3bwfile.py:304-318 | the error is at most half a unit of the last kept digit |
| `Rounding.RoundSigDigRelativeError` | sbws/lib/v3bwfile.py:304-318 | the relative error is at most half of ten to minus (digits - 1) whenever a digit is dropped |
| `Rounding.RoundSigDigOptimal` | sbws/lib/v3bwfile.py:304-318 | no number with that many significant digits, of any magnitude, is nearer |
| `Rounding.HasSigDigitsIff` | sbws/lib/v3bwfile.py:304-318 | a number has at most so many significant digits if and only if it is a number below ten to that with zeros after it |
| `Rounding.RoundHalfEvenIff` | sbws/lib/v3bwfile.py:304-318 | `round` gives the nearest integer, and of two the even one |
| `Generator.BwFiltAtLeastMean` | sbws/lib/scaling.py:10-29 | the filtered bandwidth is never below the rounded mean it filters by |
| `Generator.LastKnownIsLast` | sbws/lib/v3bwfile.py:1014-1030 | the descriptor value used is the one after which all are None, and only that |
| `Generator.NearFilterIsSpan` | sbws/lib/v3bwfile.py:939-950 | comparing all pairs of results is comparing the latest with the earliest, for two or more results |
| `Generator.AwayIff` | sbws/lib/v3bwfile.py:939-950 | all results are kept unless two or more lie within the given time, then none |
| `Generator.ResultsAreAccountedFor` | sbws/lib/v3bwfile.py:816-859 | every result is counted once: error, near, old, few or used; the line without observed bandwidth has no counts |
| `Generator.CountersMean` | sbws/lib/v3bwfile.py:816-859 | the error count is that of failed results, the near count that of results too near each other, the old count that of results too old |
| `Generator.ReasonIsFirstRuleBroken` | sbws/lib/v3bwfile.py:827-885 | each exclusion reason is given if and only if its rule is the first one broken |
| `Generator.EligibleIff` | sbws/lib/v3bwfile.py:789-914 | a relay is eligible if and only if its successes are spread out enough, enough of them are recent, and one knows the observed bandwidth |
| `Generator.EligibleLine` | sbws/lib/v3bwfile.py:887-914 | the line of an eligible relay can be scaled, may be voted on and has its filtered bandwidth at or above its mean |
| `Generator.ExcludedLine` | sbws/lib/v3bwfile.py:816-885 | an excluded line forbids voting and is marked unmeasured, except that without observed bandwidth, and has a bandwidth of one |
| `GeneratorLaws.UsedExactly` | sbws/lib/v3bwfile.py:816-859 | the results used are the successful and recent enough ones, in their order, and none if all successful ones are within the given time of each other |
| `GeneratorLaws.BandwidthsConcat` | sbws/lib/scaling.py:4-7 | every result counts alike, wherever it is in the list |
| `GeneratorLaws.BandwidthsOfOne` | sbws/lib/scaling.py:4-7 | a successful result counts with every one of its downloads, as the rate that times the duration is the amount |
| `GeneratorLaws.BandwidthsAreRates` | sbws/lib/scaling.py:4-7 | the measurements are the rates of all downloads |
| `GeneratorLaws.LineMeasures` | sbws/lib/v3bwfile.py:887-914 | the line of an eligible relay has the nearest integer to the mean of all rates of the results used, the same of those not below it, and the rounded median, which is at least one |
| `GeneratorLaws.ConstantRate` | sbws/lib/scaling.py:10-29 | a relay whose downloads all have the same rate gets that rate, rounded, as mean and as filtered mean |
| `GeneratorLaws.LineDescribes` | sbws/lib/v3bwfile.py:1014-1066 | the line has the last known average, burst and observed bandwidth of the results used, and the nearest integer to the mean of the observed ones |
| `Torflow.BwTorflowScale` | sbws/lib/v3bwfile.py:1388-1492 | the in-place loops over copies fail exactly on no lines or a division by zero, and otherwise return the scaled, capped, rounded lines sorted stably, with both network means |
| `Torflow.DeepCopy` | sbws/lib/v3bwfile.py:1404 | the copies are new objects with the same attributes |
| `Torflow.ScaleOne` | sbws/lib/v3bwfile.py:1415-1473 | the body of the loop scales one line in place and adds its bandwidth if its relay counts |
| `Torflow.ScaleAt` | sbws/lib/v3bwfile.py:1412-1473 | one turn of the loop scales the next line and adds to the total |
| `Torflow.ScaleInPlace` | sbws/lib/v3bwfile.py:1412-1473 | the loop scales every line in place and totals those that count, or stops at a division by zero |
| `Torflow.CapInPlace` | sbws/lib/v3bwfile.py:1475-1487 | every line ends with its capped bandwidth in kilobytes, rounded to significant digits |
| `Torflow.ScaleAndCap` | sbws/lib/v3bwfile.py:1412-1487 | both loops in place |
| `Torflow.ScaleCopies` | sbws/lib/v3bwfile.py:1404-1487 | the loops change copies, in the order of the lines |
| `Torflow.SortByBw` | sbws/lib/v3bwfile.py:1488-1489 | the line objects in the stable order of their bandwidths |
| `TorflowLaws.DescriptorClamp` | sbws/lib/v3bwfile.py:1415-1454 | the descriptor bandwidth is the least of observed, burst and average where known; a last observed bandwidth of zero counts as missing |
| `TorflowLaws.ScaledByLargerRatio` | sbws/lib/v3bwfile.py:1456-1463 | a relay gets its descriptor bandwidth times the larger of its ratios, which are its bandwidths over the network's, and nothing else changes |
| `TorflowLaws.SortedPermutation` | sbws/lib/v3bwfile.py:1404-1492 | the result has the relays of the input, each as often, by ascending or descending bandwidth |
| `TorflowLaws.OrderIsPreserved` | sbws/lib/v3bwfile.py:1475-1487 | cap and rounding keep the order of the scaled bandwidths |
| `TorflowLaws.CappedAtShareOfSum` | sbws/lib/v3bwfile.py:1464-1487 | every relay gets its scaled bandwidth over a thousand, rounded to significant digits, with the cap times the sum of the scaled bandwidths of the relays in the consensus, or of all if there is none, in its place if that is less |
| `TorflowLaws.DollarsAreDropped` | sbws/lib/v3bwfile.py:1468 | dollar signs and nothing else are dropped from a relay's name before it is looked up in the consensus |
| `TorflowLaws.BandwidthsAreBounded` | sbws/lib/v3bwfile.py:1464-1487 | every bandwidth is between 1 and the rounding of the cap times the total of the relays in the consensus |
| `TorflowLaws.UncountedNetworkGetsOnes` | sbws/lib/v3bwfile.py:1464-1487 | with a consensus that has none of the relays every bandwidth is 1 |
| `TorflowLaws.RatiosSumToCount` | sbws/lib/v3bwfile.py:1405-1458 | the stream ratios sum to the number of relays, and so do the filtered ones |
| `TorflowLaws.ChosenRatiosSum` | sbws/lib/v3bwfile.py:1405-1459 | the larger ratios of n relays sum to between n and 2n |
| `TorflowLaws.OnlyRatiosMatter` | sbws/lib/v3bwfile.py:1404-1492 | measurements that are all c times as fast fail alike, and give the same bandwidths, ratios and order |
| `BandwidthLines.SetUnderMinReport` | sbws/lib/v3bwfile.py:1275-1284 | every line, and nothing else of it, is marked as under the minimum and not to be voted on |
| `BandwidthFiles.MinimumIsAttainable` | sbws/lib/v3bwfile.py:1548-1550 | sixty percent of a consensus rounds to at least half of it and at most all of it, and never to nothing |
| `BandwidthFiles.UpdateProgress` | sbws/lib/v3bwfile.py:1527-1576 | it fails exactly on an empty consensus, and otherwise tells whether enough relays are eligible, which they are not when the consensus is unknown |
| `BandwidthFiles.AddMarked` | sbws/lib/v3bwfile.py:1190-1202 | the body of the loop over the relays adds one line to its list and counts its reason |
| `BandwidthFiles.NextRelay` | sbws/lib/v3bwfile.py:1190-1202 | lists and counts stay those of the relays seen so far |
| `BandwidthFiles.LinesFromResults` | sbws/lib/v3bwfile.py:1173-1202 | the loop leaves the eligible lines, the excluded lines and the count of each reason |
| `BandwidthFiles.MarkUnlessReached` | sbws/lib/v3bwfile.py:1238-1241 | scaled lines are marked exactly when too few are eligible |
| `BandwidthFiles.MarkedWithExcluded` | sbws/lib/v3bwfile.py:1238-1250 | the scaled lines, marked if too few are eligible, come before the excluded ones |
| `BandwidthFiles.ScaledLines` | sbws/lib/v3bwfile.py:1224-1250 | scaling, progress and marks of a file with eligible relays, or the failure of one of them |
| `BandwidthFiles.FileFromResults` | sbws/lib/v3bwfile.py:1128-1251 | the whole file as specified, or its failure |
| `BandwidthFileLaws.OneLinePerRelay` | sbws/lib/v3bwfile.py:1190-1251 | the file has exactly one line for every relay with results |
| `BandwidthFileLaws.ExclusionsAddUp` | sbws/lib/v3bwfile.py:1187-1204 | the header's four counts sum to the excluded relays but those without observed bandwidth; eligible and excluded relays are all relays |
| `BandwidthFileLaws.VotableExactly` | sbws/lib/v3bwfile.py:1206-1250 | a line may be voted on if and only if its relay is eligible and the minimum of a known consensus is reached, or it lacks observed bandwidth and some relay is eligible; every bandwidth is at least 1 |
| `BandwidthFileLaws.GeneratedIff` | sbws/lib/v3bwfile.py:1165-1251 | a file is written if and only if there are results, the consensus is not empty, and some eligible relay's mean does not round to zero unless none is eligible |
| `BandwidthFileLaws.HeaderTellsProgress` | sbws/lib/v3bwfile.py:1541-1576 | the header has progress exactly when the consensus is known: both counts, the minimum and percentage nearest to the exact ones, and the minimum is reached exactly as they say |
| `BandwidthFileLaws.HeaderTellsAverages` | sbws/lib/v3bwfile.py:687-689 | the header has the rounded means exactly when some relay is eligible |
| `BandwidthFileLaws.MeansVanish` | sbws/lib/v3bwfile.py:1405-1458 | one of the network's means is zero if and only if every relay's mean is |
| `GeneratedBandwidths.EligibleBandwidth` | sbws/lib/v3bwfile.py:1224-1251 | the line of an eligible relay in a generated file has that bandwidth, with the sum over the eligible relays whose fingerprints are in the consensus, or all if it is not known |
| `GeneratedBandwidths.EligibleComeFirst` | sbws/lib/v3bwfile.py:1250 | the lines of the eligible relays come first, in ascending order, and all others are of excluded relays with a bandwidth of one |
| `GeneratedBandwidths.EligibleMarks` | sbws/lib/v3bwfile.py:1238-1284 | the line of an eligible relay has `under_min_report=1` and `vote=0`, or neither, and neither if and only if the consensus is known and the minimum reached |
| `Text.SplitJoin` | sbws/lib/v3bwfile.py:586-592 | splitting undoes joining when no part has the separator |
| `Text.JoinSplit` | sbws/lib/v3bwfile.py:459-489 | joining undoes splitting, for every text |
| `Text.ParseDecimal` | sbws/lib/v3bwfile.py:929-931 | reading a printed integer gives it back |
| `Text.ParsesIffGrouped` | sbws/lib/v3bwfile.py:929-931 | a string of characters is read as a number if and only if it is digits with single underscores between them |
| `Text.ParsedIsNumber` | sbws/lib/v3bwfile.py:929-931 | the number is what the digits amount to |
| `Text.ParseSigned` | sbws/lib/v3bwfile.py:929-931 | a sign in front counts |
| `Text.ParseIgnoresSpace` | sbws/lib/v3bwfile.py:929-931 | white space around does not |
| `Text.CarriageReturnIsNewline` | sbws/lib/v3bwfile.py:1256-1257 | reading turns a carriage return, with a newline after it or not, into a newline |
| `Text.SortedKeysAreSorted` | sbws/lib/v3bwfile.py:560-571 | keys are written strictly in alphabetical order |
| `FileKeys.V1IsValid` | sbws/lib/v3bwfile.py:50-301 | the keys the program knows have no separator in them and are kept apart as the round trip needs |
| `FileKeys.CountsAreInts` | sbws/lib/v3bwfile.py:287-301 | the counts and bandwidths of a line are read as integers |
| `FileFormat.DefaultHeaderText` | sbws/lib/v3bwfile.py:340-362 | a header without arguments, letter by letter: timestamp, version, four attributes by their keys, and terminator |
| `FileFormat.SimplestLine` | sbws/lib/v3bwfile.py:1070-1098 | the line of a bandwidth and a relay, letter by letter |
| `FileFormat.DecimalDigits` | sbws/lib/v3bwfile.py:1088 | how integers are printed, digit by digit |
| `FileFormat.TwoDecimalsNearest` | sbws/lib/v3bwfile.py:1088 | floats are printed with two decimals as the nearest hundredth, of two the even one, and with their sign |
| `FileFormat.WordsAndMissing` | sbws/lib/v3bwfile.py:1088 | how truth values and missing values are printed |
| `LineRoundTrip.FieldsRoundTrip` | sbws/lib/v3bwfile.py:472-478 | parsing printed fields gives back exactly the known ones |
| `LineRoundTrip.PlainLineIff` | sbws/lib/v3bwfile.py:1081-1092 | a line has a separator in a value if and only if a text has; integers, floats, booleans and None never do |
| `LineRoundTrip.ParsePrintedLine` | sbws/lib/v3bwfile.py:920-937 | a printed line can be read if and only if its integer keys hold integers, and then all known attributes come back |
| `LineRoundTrip.LineSurvivesIff` | sbws/lib/v3bwfile.py:920-937 | a line prints the same after being read if and only if each integer key has the canonical text of an integer |
| `HeaderRoundTrip.DecimalTimestampIsPlain` | sbws/lib/v3bwfile.py:398 | the timestamps of generated headers are never mistaken for a key or a field |
| `HeaderRoundTrip.HeaderIsReread` | sbws/lib/v3bwfile.py:362-376 | reading a printed header gives its attributes without averages, or the defaults when its version does not start with one |
| `HeaderRoundTrip.HeaderSurvivesIff` | sbws/lib/v3bwfile.py:459-481 | a header prints the same after being read if and only if its version starts with one and it has no averages |
| `FileRoundTrip.FileSplits` | sbws/lib/v3bwfile.py:1123-1126 | the lines of a printed file are its header's, the terminator, one per relay and an empty one |
| `FileRoundTrip.HeaderIsFound` | sbws/lib/v3bwfile.py:465-481 | the parser finds the end of the header and hands on exactly the relays' lines |
| `FileRoundTrip.FileIsReread` | sbws/lib/v3bwfile.py:1253-1261 | a printed file can be read if and only if every integer key holds an integer, and what then comes back |
| `FileRoundTrip.UnknownIntegerCannotBeRead` | sbws/lib/v3bwfile.py:902-911 | a line with an integer key that is None makes the file unreadable |
| `FileRoundTrip.SameTextIff` | sbws/lib/v3bwfile.py:1123-1126 | two files have the same text if and only if they print the same lines |
| `FileRoundTrip.RoundTripsIff` | sbws/lib/v3bwfile.py:1123-1126 | printing, parsing and printing again gives the same text if and only if the version starts with one, there are no averages and all integers are canonical |
| `FileRoundTrip.V1RoundTripsIff` | sbws/lib/v3bwfile.py:1253-1261 | the same for the keys the program knows, for files without carriage returns in them, which reading would turn into line ends |
| `GeneratedText.V1FitsGenerator` | sbws/lib/v3bwfile.py:262-301 | the keys the program knows are as the generator needs them: the ratios are read as texts, the descriptor's bandwidths as integers |
| `GeneratedText.AllIsWritten` | sbws/lib/v3bwfile.py:1070-1098 | all that the generator computes for a line is among its attributes, whatever passes through: relay, bandwidth, ratios, counts, marks and statistics |
| `GeneratedText.StatsUnderKeys` | sbws/lib/v3bwfile.py:902-911 | each statistic under its key, also when it is not known |
| `GeneratedText.CountersUnderKeys` | sbws/lib/v3bwfile.py:819-859 | each count under its key, when there is one |
| `GeneratedText.MarksUnderKeys` | sbws/lib/v3bwfile.py:812-813 | each mark under its key, when there is one |
| `GeneratedText.AddedIsWritten` | sbws/lib/v3bwfile.py:676-689 | all that the generator computes for the header is among its attributes |
| `GeneratedText.ExclusionsUnderKeys` | sbws/lib/v3bwfile.py:676-685 | each count of excluded relays under its key |
| `GeneratedText.ProgressUnderKeys` | sbws/lib/v3bwfile.py:1541-1560 | the progress under its keys, with a minimum of sixty percent |
| `GeneratedText.GeneratedReadableIff` | sbws/lib/v3bwfile.py:789-937 | a generated file that is written can be read back if and only if some result used for each eligible relay knows the average, and some the burst, and what passes through is integers where read so |
| `GeneratedText.GeneratedRoundTripsIff` | sbws/lib/v3bwfile.py:1123-1261 | a generated file prints the same after being read if and only if no relay is eligible, its version starts with one and the integers that pass through are canonical |
| `Timestamps.UpdatedIsSuffix` | sbws/util/timestamps.py:26-36 | one update of a suffix of an ascending history is a suffix of it again, and which |
| `Timestamps.OldAfterFiveDays` | sbws/util/timestamps.py:26-29 | a timestamp is trimmed if and only if it is more than five days old |
| `Timestamps.WindowIsSuffix` | sbws/util/timestamps.py:26-36 | a window updated any number of times is the end of its history, cut where the last trim or the maximum length cuts |
| `Timestamps.WindowIsFilteredHistory` | sbws/util/timestamps.py:26-36 | trimming at every update equals trimming the whole history once, at the last one |
| `Timestamps.WindowIsLastFreshEntries` | sbws/util/timestamps.py:26-36 | the window is the last entries that are not old of everything ever added |
| `Timestamps.UnboundedWindow` | sbws/util/timestamps.py:26-36 | a window without maximum is its history filtered once, in any order of timestamps |
| `Timestamps.WindowAfterCuts` | sbws/util/timestamps.py:26-36 | in any order a bounded window is what is not old of its history after the largest cut any update made |
| `Timestamps.WindowForgetsIff` | sbws/util/timestamps.py:26-36 | in any order a bounded window equals its history filtered and cut once, if and only if no entry that is still fresh with room after it was crowded out by an earlier update |
| `Timestamps.OutOfOrderWindowForgets` | sbws/util/timestamps.py:26-36 | a run that forgets in this way, so that not every run keeps what the ascending ones do |
| `StateFiles.StateFile.constructor` | sbws/util/state.py:49-51 | a state file that does not exist is empty |
| `StateFiles.State.constructor` | sbws/util/state.py:45-47 | the state starts as the file is |
| `StateFiles.State.Get` | sbws/util/state.py:65-71 | the value is the one on disk now |
| `StateFiles.State.Contains` | sbws/util/state.py:93-95 | the answer is for the file on disk now |
| `StateFiles.State.SetItem` | sbws/util/state.py:82-87 | only that key of the file changes, so keys other objects wrote survive |
| `StateFiles.State.DelItem` | sbws/util/state.py:77-80 | only that key goes; without it there is an error and no change |
| `StateFiles.State.Count` | sbws/util/state.py:97-110 | the length, the sum or the value of what is on disk, or None |
| `StateFiles.CountExactly` | sbws/util/state.py:97-110 | what counting gives for every kind of value, and nothing for what is missing, false, zero or empty |
| `StateFiles.StampIsWholeSecond` | sbws/util/timestamps.py:33 | an update without a timestamp adds the clock without its fraction of a second |
| `StateFiles.DateTimeSeq.constructor` | sbws/util/timestamps.py:20-24 | starts with the end of what it is given |
| `StateFiles.DateTimeSeq.Update` | sbws/util/timestamps.py:31-36 | one update of the window, mirrored under the state key and nowhere else |
| `StateFiles.DateTimeIntSeq.constructor` | sbws/util/timestamps.py:57-61 | starts with the end of what it is given |
| `StateFiles.DateTimeIntSeq.Update` | sbws/util/timestamps.py:69-78 | the same with a number per timestamp |
| `StateFiles.CountIsLength` | sbws/util/state.py:97-110 | counting the mirrored key gives the window's length if and only if the window can hold anything |
| `StateFiles.CountIsSum` | sbws/util/state.py:97-110 | counting the mirrored key gives the sum of its numbers if and only if the window can hold anything |
| `ResultStore.MergeResultDicts` | sbws/lib/resultdump.py:20-30 | the loop appends the second dictionary's lists to the first's |
| `ResultStore.MergeRelay` | sbws/lib/resultdump.py:26-29 | the body of the loop appends one list to the first dictionary's, or to an empty one |
| `ResultStore.TrimRelay` | sbws/lib/resultdump.py:79-83 | the inner loop adds the fresh results of one relay, and no empty list |
| `ResultStore.FreshForDays` | sbws/lib/resultdump.py:72-83 | a result is kept if and only if it is no older than that many times 86400 seconds |
| `ResultStore.TrimResults` | sbws/lib/resultdump.py:72-87 | exactly the fresh results stay, in order, and relays without any go |
| `ResultStore.StoreMergesOne` | sbws/lib/resultdump.py:875-882 | storing is merging one result and trimming |
| `ResultStore.StoreAllIsOneTrim` | sbws/lib/resultdump.py:875-882 | trimming at every store equals one trim, at the last store, of the loaded results followed by everything stored, relay by relay |
| `ResultStore.ResultDump.constructor` | sbws/lib/resultdump.py:962-965 | starts from the results loaded |
| `ResultStore.ResultDump.StoreResult` | sbws/lib/resultdump.py:875-882 | the dictionary in memory stays the one of the log of everything stored |
| `ResultStore.ResultDump.ResultsForRelay` | sbws/lib/resultdump.py:988-993 | what a caller gets is everything of the relay, loaded or stored, in order, that was fresh at the last store |
| `AddressChanges.TrimRelayIpChanged` | sbws/lib/resultdump.py:107-124 | either branch keeps, in order, exactly the results under the address of the newest one, which is among them |
| `AddressChanges.OneAddressKeepsAll` | sbws/lib/resultdump.py:110-124 | a relay that never changed its address keeps everything |
| `AddressChanges.TrimResultsIpChanged` | sbws/lib/resultdump.py:90-131 | every relay keeps the results under its latest address, if asked to |
| `AddressChanges.CurrentIsOneAddress` | sbws/lib/resultdump.py:107-124 | what is kept has one address, that of the newest result, and is kept when trimmed again |
| `ResultLoading.MergeByRelay` | sbws/lib/resultdump.py:20-30 | merging the dictionaries of two lists gives the dictionary of both |
| `ResultLoading.LoadResultFile` | sbws/lib/resultdump.py:33-69 | the dictionary of the lines that can be decoded, or of the successes among them |
| `ResultLoading.KeptMembers` | sbws/lib/resultdump.py:33-69 | a result is loaded if and only if one of the lines is it and, if only successes are asked for, it is one |
| `ResultLoading.KeptOnce` | sbws/lib/resultdump.py:33-69 | a line gives one result at most |
| `ResultLoading.VisitedLines` | sbws/lib/resultdump.py:144-167 | the lines visited are all lines of all files of the days |
| `ResultLoading.VisitedDays` | sbws/lib/resultdump.py:144-150 | the days are today and those before it, as many as results are fresh and two more |
| `ResultLoading.LoadRecentResults` | sbws/lib/resultdump.py:134-183 | loading day by day and file by file equals trimming all visited lines once, then by address if asked to |
| `ResultLoading.WrittenStaysWellFiled` | sbws/lib/resultdump.py:186-195 | writing a result keeps every result in a file of its own day |
| `ResultLoading.WrittenIsLast` | sbws/lib/resultdump.py:186-195 | the result written is the last of its file, and nothing else changes |
| `ResultLoading.FreshOfAllDays` | sbws/lib/resultdump.py:134-167 | the fresh results of any wider range of days are those of the visited days and everything dated after today |
| `ResultLoading.RecentDaysSuffice` | sbws/lib/resultdump.py:134-167 | reading only the visited days equals reading the whole directory if and only if nothing kept is dated after today |
| `ResultQueue.RunKeepsInv` | sbws/lib/resultdump.py:945-986 | in every interleaving nothing is lost, duplicated or reordered, only errors are ignored and only while shutting down |
| `ResultQueue.OnlyShutdownEnds` | sbws/lib/resultdump.py:930-939 | in every run the end event is set if and only if somebody else set it: no handled result does, not even an error about destinations |
| `ResultQueue.ResultsAreConserved` | sbws/lib/resultdump.py:888-902 | results put are those stored, ignored, in the consumer's hand and still queued |
| `ResultQueue.NoSuccessIsLost` | sbws/lib/resultdump.py:966-986 | when the consumer has left, every success put before is stored, in order |
| `ResultQueue.LatePutsAreLost` | sbws/core/scanner.py:849-862 | what is put after the consumer has left is never handled |
| `ResultQueue.AllSuccessesStoredIff` | sbws/lib/resultdump.py:966-986 | once the consumer has left, all successes ever put are stored if and only if none is left in the queue |
| `ResultQueue.SuccessPutTooLate` | sbws/lib/resultdump.py:966-986 | such a run: the end event is set, the consumer finds the queue empty and leaves, and the success put then is never stored |
| `ResultQueue.ErrorsAreIgnoredOnceShutDown` | sbws/lib/resultdump.py:888-902 | of what is handled once the end event is set, exactly the errors are not stored |
| `ResultQueue.AllIsStoredBeforeShutDown` | sbws/lib/resultdump.py:888-902 | what is handled before that is stored, errors too |
| `ResultQueue.ConsumerCanLeave` | sbws/lib/resultdump.py:966-986 | from any state of any run with the end event set the consumer can go on alone until it leaves, with every success put so far stored |
| `ResultQueue.ContentsOfOne` | sbws/lib/resultdump.py:904-943 | a list put counts with all its results, and what is no result with none |
| `ResultQueue.KindsDiffer` | sbws/lib/resultdump.py:695-704 | every kind of error has a type of its own, except those about destinations |
| `RelayLists.ByFingerprint` | sbws/lib/relaylist.py:435-436 | the dictionary has the fingerprints of the statuses, each with a status of its own |
| `RelayLists.KeyOrder` | sbws/lib/relaylist.py:482-484 | the dictionary's keys, each once |
| `RelayLists.KeyOrderIsFirstListed` | sbws/lib/relaylist.py:435-436 | of two relays the one the consensus lists first comes first |
| `RelayLists.SeenKeepsSuffix` | sbws/lib/relaylist.py:190-191 | a relay's window that ends like the list's still does after both see a consensus |
| `RelayLists.SeenExactly` | sbws/lib/relaylist.py:65-72 | a window of consensuses has the last 120 that are not old |
| `RelayLists.RefreshedFingerprints` | sbws/lib/relaylist.py:426-500 | a refreshed list has exactly the relays of the consensus, each once: known ones in their order, then new ones in the consensus' order |
| `RelayLists.LastStatusWins` | sbws/lib/relaylist.py:435-436 | of several statuses of a relay the last one is used |
| `RelayLists.RefreshedAreUpToDate` | sbws/lib/relaylist.py:453-484 | every relay of a refreshed list, known or new, has the status and descriptor of the consensus, and its time last in its window |
| `RelayLists.RefreshKeepsConsistent` | sbws/lib/relaylist.py:426-504 | a refresh keeps windows suffixes and relays distinct |
| `RelayLists.EveryListIsConsistent` | sbws/lib/bwfile_health.py:148-151 | after any refreshes in order no relay was in more recent consensuses than were seen, and the list is that of the last consensus |
| `RecentConsensuses.WindowSinceMissing` | sbws/lib/relaylist.py:453-484 | a relay in the list has the window of one that saw the consensuses since it was last missing, each when it was updated, and no others |
| `RecentConsensuses.RelayHasListsWindow` | sbws/lib/relaylist.py:453-484 | with the list's clock, that is the window the list would have had it seen only those consensuses |
| `RecentConsensuses.AlwaysThereHasListsWindow` | sbws/lib/relaylist.py:190-191 | a relay that was in all consensuses has the list's window, and its count |
| `RelayLists.RelayList.Create` | sbws/lib/relaylist.py:325-343 | constructing ends with the list of its first consensus and its minimum bandwidths, or the error of one without exits |
| `RelayLists.RelayList.InitRelays` | sbws/lib/relaylist.py:426-500 | the loops over known and new relays compute the refreshed list and record the consensus |
| `RelayLists.RelayList.ReplaceRelays` | sbws/lib/relaylist.py:502-504 | the list becomes the refreshed one, with each relay of the consensus once |
| `RelayLists.RelayList.KeepRelays` | sbws/lib/relaylist.py:453-479 | the loop over the previous list keeps the relays of the consensus, in order, and takes them out of the dictionary |
| `RelayLists.RelayList.AddNewRelays` | sbws/lib/relaylist.py:481-484 | the relays that were not known, in the order of the consensus |
| `RelayLists.RelayList.Refresh` | sbws/lib/relaylist.py:502-515 | the whole new state of the list, also when the consensus has no exits |
| `RelayLists.RelayList.CalculateMinBwSecondHop` | sbws/lib/relaylist.py:677-703 | both minimum bandwidths; the one of non-exits only changes when there are four or more |
| `RelayLists.MinBwKeepsThreeQuarters` | sbws/lib/relaylist.py:677-703 | all but at most a quarter of the relays have the minimum bandwidth, and one has exactly it, a thousand times the consensus' number |
| `RelayLists.MinBwIsQuartile` | sbws/lib/relaylist.py:677-703 | at most a quarter of the relays are below the minimum, and more than a quarter are not above it |
| `RefreshLock.RefreshesAreExclusive` | sbws/lib/relaylist.py:356-384 | for any threads and interleaving only the holder of the lock refreshes, and only a stale list |
| `RefreshLock.StaleAfterAnHour` | sbws/lib/relaylist.py:345-349 | a list is stale 3600 seconds after its consensus became valid |
| `RefreshLock.FreshReadersDoNotWait` | sbws/lib/relaylist.py:356-384 | who reads a list that is not stale does not wait for the lock |
| `RefreshLock.OneRefreshPerEpisodeIffFresh` | sbws/lib/relaylist.py:345-384 | each stale episode takes exactly one refresh if and only if every refresh records a consensus less than an hour old |
| `RefreshLock.FreshReadersSeeLastConsensus` | sbws/lib/relaylist.py:356-384 | the list read is that of the recorded consensus, except while a thread is between recording and assigning |
| `RefreshLock.DeadlocksIffStale` | sbws/lib/relaylist.py:502-515 | in every run some thread ends up waiting for the lock it holds if and only if some thread computed the minimum bandwidths while its list was stale again |
| `RefreshLock.SlowRefreshDeadlocks` | sbws/lib/relaylist.py:502-515 | a run of one thread whose refresh outlasts the hour of its consensus does |
| `RefreshLock.DeadlockIsForever` | sbws/lib/relaylist.py:512-514 | after that the list is never refreshed again |
| `Downloads.GetRandomRange` | sbws/core/scanner.py:124-143 | the range has the size asked for and lies within the content; there is none exactly when the content is smaller |
| `Downloads.MeasureBandwidthToServer` | sbws/core/scanner.py:176-214 | the requests are made one after the other with the sizes the step function says; a request fails if and only if the last one made does, and then nothing is returned; otherwise the results are exactly the replies that count, in order, with sizes and durations; an error is raised exactly when some request is larger than the content |
| `Downloads.MakeRequests` | sbws/core/scanner.py:193-214 | the loop itself, in terms of its state |
| `Downloads.CountingAreReplies` | sbws/core/scanner.py:210-213 | a result is the reply to a request that was made, in less than the maximum time and, unless it has the largest size, no less than the minimum |
| `Downloads.RaisedIffFirstTooLarge` | sbws/core/scanner.py:134 | for a content as large as the largest request the error is raised if and only if the first request is larger than the content |
| `Downloads.DefaultsAreWorkable` | sbws/config.default.ini:47-64 | the default thresholds suit a link if and only if it has at least one byte per second |
| `Downloads.LinkStep` | sbws/core/scanner.py:800-846 | on a constant link durations can be read as sizes, truncation included |
| `Downloads.KeptSettles` | sbws/core/scanner.py:828-846 | after a kept request the size stays for ever |
| `Downloads.TargetSettles` | sbws/core/scanner.py:828-846 | aiming at the target settles the size at once |
| `Downloads.DiscardDecreases` | sbws/core/scanner.py:828-846 | every discarded request lowers a bound on how many more can be |
| `Downloads.GrowthIsLogarithmic` | sbws/core/scanner.py:831-833 | multiplying by five reaches the limit in logarithmically many steps |
| `Downloads.ConstantLinkInvariant` | sbws/core/scanner.py:193-214 | what a whole run has wasted and may still waste stays within the bound |
| `Downloads.FewRequestsAreDiscarded` | sbws/core/scanner.py:193-214 | at most logarithmically many requests, base five, and two more are discarded |
| `Downloads.KeptThenAlwaysKept` | sbws/core/scanner.py:193-214 | once a request is kept every later one is |
| `Downloads.EndsWithAllResults` | sbws/core/scanner.py:193-214 | the loop ends with exactly the wanted number of results |
| `Downloads.RunKeepsUpTo` | sbws/core/scanner.py:193-214 | the loop keeps what an endless one keeps of its first requests, up to as many as it wants |
| `Downloads.SupplyInvariant` | sbws/core/scanner.py:828-846 | what is kept of the first n requests and what is kept from the next size on add up to the same for every n |
| `Downloads.SupplyIsDelivered` | sbws/core/scanner.py:828-846 | a limited supply is kept in full after some requests |
| `Downloads.UnlimitedSupply` | sbws/core/scanner.py:828-846 | with an unlimited one any number of requests is kept after some |
| `Downloads.CollectsIff` | sbws/core/scanner.py:193-214 | for any thresholds, in any order, and any constant link, sizes and limits, the loop ends if and only if the first request and what is kept from the second on are as many as it wants |
| `Downloads.CollectsAscendingIff` | sbws/core/scanner.py:193-214 | with the too fast time at most the minimum, that at most the target and that below the maximum: if and only if what the second request or the target size grows to is kept, or the first is all that is wanted |
| `Downloads.CollectsWithinClampsIff` | sbws/core/scanner.py:193-214 | where, besides, the first request is within the limits: if and only if what its size or the target size grows to is kept |
| `Downloads.CollectsRoomyIff` | sbws/core/scanner.py:193-214 | where the target is as far above the minimum as the too fast time and five of those are at most the maximum, growth need not be followed: the second request or the target size itself is kept |
| `Downloads.GrowthCanMatter` | sbws/core/scanner.py:831-833 | without that room only the third size may be kept, and the loop ends |
| `Downloads.TooSlowForSmallest` | sbws/core/scanner.py:828-846 | when the smallest request takes too long no run keeps more than a first request smaller than that |
| `Downloads.CollectsIffSmallestIsFastEnough` | sbws/core/scanner.py:193-214 | where the target is a byte or more above the minimum, the loop ends if and only if the smallest request takes less than the maximum time, or one result is wanted and a smaller first request gives it |
| `Downloads.TruncationStarvesSlowLink` | sbws/core/scanner.py:834-842 | with the default thresholds and a smallest size of one byte, the slow links on which truncation keeps the loop from ending, 0.3 bytes per second among them, are exactly those whose truncated target is too small |
| `Circuits.EntryCandidates` | sbws/core/scanner.py:469-535 | the helpers of a relay measured as entry are exactly the suitable exits, or, in a testing network without any, the fallback ones |
| `Circuits.SuitableExactly` | sbws/lib/relaylist.py:260-265 | what a suitable exit is, in flags, ports and consensus parameters |
| `Circuits.AsExitIffSuitable` | sbws/core/scanner.py:415-466 | a relay is measured as exit if and only if it is a suitable one |
| `Circuits.ExitCandidates` | sbws/core/scanner.py:415-535 | a relay measured as exit is a suitable exit, and its helpers are exactly the other relays that are not exits |
| `Circuits.RetryOffersRelayItself` | sbws/core/scanner.py:663-668 | as entry, so at every retry, a relay is offered itself as helper if and only if the list has it as a suitable exit |
| `Circuits.FirstAttemptOffersItselfIff` | sbws/core/scanner.py:527-535 | the first attempt offers a relay itself if and only if it is measured as entry although the list by now has it as a suitable exit |
| `Circuits.UpToDateCopies` | sbws/core/scanner.py:527-535 | a copy the list still agrees with is never offered itself at first, and at the retry exactly when it is listed |
| `Circuits.TryRung` | sbws/util/stem.py:357-371 | any candidate fast enough for one factor, or none when there is none |
| `Circuits.PickIdealSecondHop` | sbws/core/scanner.py:309-366 | the helper is a candidate that meets the largest factor any candidate meets, or else the fastest |
| `Circuits.IdealHelperIff` | sbws/core/scanner.py:324-366 | an ideal helper has the largest of 2, 1.75, 1.5, 1.25 and 1 times the relay's bandwidth that any candidate has together with the minimum of its position, and is the fastest if none has any |
| `Circuits.FirstRungHelper` | sbws/core/scanner.py:324-366 | the factors one after the other, and then the fastest |
| `Circuits.CreatePathRelay` | sbws/core/scanner.py:379-400 | the relay and an ideal helper in the right positions, or an error exactly without candidates |
| `Circuits.PathExitsAcceptably` | sbws/core/scanner.py:379-535 | the relay in exit position is a good exit for the port, with or without congestion control as the consensus says (Tor proposal 324, section 6.5.1) |
| `Circuits.FirstHopsAreDistinct` | sbws/core/scanner.py:549-616 | the hops of the first attempt are always different relays if and only if the relay is measured as exit or no entry the list has of it is an ideal helper |
| `Circuits.OldCopyIsPairedWithItself` | sbws/lib/relayprioritizer.py:107-110 | a relay copied before the list had it as an exit can be paired with itself |
| `Circuits.MeasureRelay` | sbws/core/scanner.py:549-713 | every circuit of both attempts exits acceptably, the first has one relay twice only if the list has it as an exit by now; how many circuits are built, and what each failure leads to |
| `Circuits.RetriesIff` | sbws/core/scanner.py:629-663 | there is a retry if and only if the relay is a suitable exit that could not connect, and the consensus does not say to upload |
| `Prioritizer.Weight` | sbws/lib/resultdump.py:477-491 | a failed result still counts for something |
| `Prioritizer.Freshness` | sbws/lib/relayprioritizer.py:121-144 | a result adds to the priority if and only if it is fresh |
| `Prioritizer.LaterAddsDifference` | sbws/lib/relayprioritizer.py:121-144 | of two fresh results the later one adds more by exactly the difference in time, or a tenth, four tenths or half of it for errors that are prioritized |
| `Prioritizer.PriorityAddsUp` | sbws/lib/relayprioritizer.py:118-146 | what results add does not depend on where they are in the list |
| `Prioritizer.PositiveIffWithinPeriod` | sbws/lib/relayprioritizer.py:115-146 | a relay has positive priority if and only if it has a result of within the period |
| `Prioritizer.PriorityIsPositive` | sbws/lib/relayprioritizer.py:116-146 | a relay has positive priority if and only if it has a result that is still fresh |
| `Prioritizer.ComputePriority` | sbws/lib/relayprioritizer.py:118-146 | the loop over one relay's results sums their freshness |
| `Prioritizer.Prioritize` | sbws/lib/relayprioritizer.py:116-146 | the loop over the relays gives each its priority |
| `Prioritizer.SortedPrefixIsBest` | sbws/lib/relayprioritizer.py:147-160 | the sorted prefix has distinct relays, and nothing left out has smaller priority |
| `Prioritizer.Best` | sbws/lib/relayprioritizer.py:107-168 | the relays returned are a best prefix of the size asked for |
| `Prioritizer.RelayPrioritizer.constructor` | sbws/lib/relayprioritizer.py:14-36 | the data period in seconds, the minimum and the fraction to return, and two empty windows with their maximum lengths and keys that share one state |
| `Prioritizer.RelayPrioritizer.UpperLimit` | sbws/lib/relayprioritizer.py:157-160 | all relays, or the larger of the minimum and the fraction of them rounded down |
| `Prioritizer.RelayPrioritizer.BestPriority` | sbws/lib/relayprioritizer.py:64-180 | a best prefix of the fraction or minimum of the relays; the run and its size are recorded |
| `Prioritizer.ShortRunIsMeasuredInTime` | sbws/lib/relayprioritizer.py:115-146 | in a run from an empty store, shorter than the data period and with a result stored for every relay returned, the store holds a fresh result of each of them and none of the others |
| `Prioritizer.UnmeasuredComeFirst` | sbws/lib/relayprioritizer.py:147-168 | a round of such a run that leaves an unmeasured relay out returns only unmeasured ones |
| `Prioritizer.RoundProgresses` | sbws/lib/relayprioritizer.py:147-168 | each round returns as many new relays as it may, until none is left |
| `Prioritizer.CoverageGrows` | sbws/lib/relayprioritizer.py:116-168 | so do any number of rounds of such a run |
| `Prioritizer.EveryRelayIsReturned` | sbws/lib/relayprioritizer.py:116-168 | after n over the limit rounds of such a run, rounded up, every relay has been returned |
| `Destinations.FailureTestSeesWholeHistory` | sbws/lib/destination.py:208-226 | the test on the bounded record is true if and only if the record is long enough and the last attempts ever made all failed |
| `Destinations.ManyThreadsNeverDisable` | sbws/lib/destination.py:352-369 | with the defaults and four or more threads the test is never true |
| `Destinations.ConfiguredFailures` | sbws/lib/destination.py:352-369 | the number configured, or three if none or zero is, times the threads |
| `Destinations.BackoffStep` | sbws/lib/destination.py:228-246 | one increment is one more power of the factor under the cap |
| `Destinations.DefaultDelays` | sbws/globals.py:175-190 | with the default settings the delay reaches its cap at the sixth granted retry, and not before |
| `Destinations.DelayAfterRetries` | sbws/lib/destination.py:263-321 | after k granted retries without success the delay is the default times the factor to the k, or the cap |
| `Destinations.DelayStaysBounded` | sbws/lib/destination.py:228-246 | in every run the delay stays between the default and the cap |
| `Destinations.Destination.constructor` | sbws/lib/destination.py:182-206 | starts as if it had just succeeded |
| `Destinations.Destination.IncrementTimeToRetry` | sbws/lib/destination.py:228-246 | the delay is multiplied and capped |
| `Destinations.Destination.IsFunctional` | sbws/lib/destination.py:263-321 | the answer in terms of all attempts ever made, and how the delay changes |
| `Destinations.Destination.AddFailure` | sbws/lib/destination.py:323-324 | one more failed attempt |
| `Destinations.Destination.AddSuccess` | sbws/lib/destination.py:326-327 | one more successful attempt |

## Left out

- The Tor controller, HTTP sessions, circuit building, file locks, signals and logging: their
  outcomes are parameters (a reply, an attempt, an interleaving).
- Floating point error and the inaccuracy of the logarithm: numbers are exact and digits are
  counted. `RoundTo` is the rounding of exact numbers, not of doubles near a tie.
- `sbws/settings.py` is not part of this model; its end event is a flag that threads set.
- The formatting of timestamps: `iso` is any function from strings to strings that may fail.
- JSON encoding and decoding: a line of a result file is a result or cannot be decoded.
- Text.ParseDecimal: `ParseInt` reads ASCII; other digits and white space that Python's `int`
  accepts are not modelled, nor its limit on the number of digits.
- BandwidthFiles.FileFromResults: Torflow's scaling only; the sbws scaling method, plain
  kilobytes, the warnings on differences to the consensus and the header's other keys are not
  computed, because they would only add easy members.
- Attributes of a line that only pass through the generator: round-trip times, consensus
  bandwidth, nickname, keys and monitoring counts. The text format has them all, as any attributes.
- The time to report half of the network, and the mirror of the progress in the state file.
- A line without measurements cannot be scaled in the model; the program would raise an exception.
  No line that reaches the scaling is one (`Generator.EligibleLine`).
- Parsing a bandwidth file of version 1.0.0, and printing infinite or undefined floats.
- ResultStore.MergeResultDicts: dictionaries are maps and their lists are values, so that the first
  dictionary and its lists are changed in place, and may be shared, is not captured; nor is the
  order of keys.
- Addresses are a function of the result (`AddressChanges`); IPv6 ones only lead to a warning.
- The clock is read once per update, filter or trim, and once per relay where a loop reads it.
- The window of a relay in the list of relays is a value rather than an object of its own.
- Prioritizer.RelayPrioritizer.BestPriority: the set of relays is given, because the program
  removes authorities by comparing copies of relays with the relays themselves, which are never
  equal; the counters on its copies of relays are not kept.
- `State` reads and writes the file as one step; the program takes the file lock twice.
- Destinations.Destination.IsFunctional: single calls only; the list of web servers that calls it
  twice in a row is not modelled.
- Uploads, round-trip measurements and what follows a usable connection in the scanner.
