# Verified model of the NeonSec log analyser

NeonSec reads log lines, keeps them in sliding windows, runs detectors and rules over the windows and emits findings.
This project models its algorithms in Dafny and proves what they promise. `dafny verify dfyconfig.toml` checks all of it.

The repository holds several generations of the program. Modelled are the current version at the top level, the window
of the version before it, and the much larger original project at the bottom of the `legacy` tree.

| module | what it models |
|---|---|
| `Glob` | the wildcard matcher of selectors and suppressions |
| `Sha256Spec`, `Sha256Stream`, `Hmac` | the incremental SHA-256 and both copies of HMAC, against FIPS 180-4 and RFC 2104 |
| `FirstPrimes`, `Sha256Constants`, `Sha256Example` | where the constants come from, and the example of the standard |
| `WorkQueue` | reader, bounded queue, workers: mutex, condition variable, spurious wakeups |
| `Records`, `Window`, `Analysis` | the current sliding window with its five count maps, the three detectors, a whole run |
| `PortScan` | where the port-scan detector meets the description in its test |
| `Pipeline` | queue, parser, window, detectors, counters and exit code of the current version in one |
| `ApexWindow` | the previous window, which keeps zero entries and sums over ports |
| `KeyedWindow`, `RulesEngine`, `OriginalDetectors`, `Welford` | the original project's capped windows, rules and detectors |
| `RulesLoader`, `RulesLayout` | the hand-written loader of rule files, and what it makes of them in every layout |
| `RateLimiter`, `Emit`, `Utf8` | the output stage of the original project |
| `Ndjson` | the line reader of the current version |
| `Common`, `Text`, `Decimal`, `Expiry`, `Tally`, `Positions` | shared: texts, numbers, popping of stale records, count maps and their sums, positions in a history |

Classes stand for the objects that the program updates in place; each method is proved against a function of its
inputs or of the operations so far, and the main results are lemmas about that function. What these functions compare,
filter and count is said once more without them, on the fields of the records or on the bytes. Several results are negative
for some inputs; there the exact condition is proved.

- The rule loader never moves past a number (`rules.cpp`, lines 15 to 18). A rule file with a numeric span, count or
  byte sum, such as the example file that the documentation names, is refused, and no rule that does load has a threshold
  (`LoadedRulesAreUnlimited`, `RulesRoundTrip`).
- The wildcard matcher tests the literal branch first, so a `*` in the text can use up a `*` of the pattern
  (`ExactForText`, `ExactForPattern`).
- With a negative `--window` the queue stays empty and the maps keep a one for every key ever added
  (`MapsAgreeWithQueue`, `StreamedIsNaiveExactly`).
- With `--threads 0` the reader blocks for ever once the queue is full, and a shorter input is left unprocessed
  (`DeadlockFreedom`, `EveryCompleteRunProcessesAll`).
- The separator of the dedupe keys is an empty C string, so different types and keys can be taken for repetitions
  (`DedupeExactness`).
- The NDJSON reader finds a key also in a string value, so a source address that reads `src_port` diverts it
  (`DivertedLine`, `LineRoundTrip`).
- The test of the current port-scan detector expects attempts on different ports to add up; the code counts one source,
  destination and port (`ThreePortsUnreported`, `DetectorExactness`, `RunExactness`).

## Model

| member | source | states |
|---|---|---|
| Glob.MatchGlob | legacy/previous_apex/legacy/previous_ultra/legacy/previous_max/legacy/previous_final/legacy/original_project/src/main.cpp:113-124 | The matcher's loop terminates on every text and pattern, never accepts a text that the pattern does not mean, and decides the meaning exactly when text or pattern is free of `*` |
| Glob.AcceptsIsSound | legacy/previous_apex/legacy/previous_ultra/legacy/previous_max/legacy/previous_final/legacy/original_project/src/main.cpp:115-123 | Acceptance implies the meaning of `*` and `?`, also for texts that contain a literal `*` |
| Glob.PatternMeans | legacy/previous_apex/legacy/previous_ultra/legacy/previous_max/legacy/previous_final/legacy/original_project/src/main.cpp:113-124 | What a pattern means, character by character: `?` any character, `*` any number of them, any other one itself |
| Glob.RetryMovesToNewStar | legacy/previous_apex/legacy/previous_ultra/legacy/previous_max/legacy/previous_final/legacy/original_project/src/main.cpp:118-119 | A retry of an older star that would succeed still succeeds from a newer star, so remembering only the last one loses nothing |
| Glob.AcceptsIsComplete | legacy/previous_apex/legacy/previous_ultra/legacy/previous_max/legacy/previous_final/legacy/original_project/src/main.cpp:116-123 | For a text without `*`, or a pattern without one, acceptance and meaning are the same |
| Glob.ExactForText | legacy/previous_apex/legacy/previous_ultra/legacy/previous_max/legacy/previous_final/legacy/original_project/src/main.cpp:117-118 | A text is matched correctly by every pattern if and only if it contains no `*`: the literal branch comes first, so a `*` of the text swallows one of the pattern |
| Glob.ExactForPattern | legacy/previous_apex/legacy/previous_ultra/legacy/previous_max/legacy/previous_final/legacy/original_project/src/main.cpp:117-118 | A pattern is decided correctly on every text if and only if it contains no `*` |
| Sha256Spec.BigEndianDecodes | legacy/previous_apex/legacy/previous_ultra/legacy/previous_max/legacy/previous_final/legacy/original_project/include/neonsec/crypto.hpp:52 | The length field written by the padding decodes to the bit count whenever it fits |
| Sha256Spec.LengthFieldWraps | legacy/previous_apex/legacy/previous_ultra/legacy/previous_max/legacy/previous_final/legacy/original_project/include/neonsec/crypto.hpp:40 | A bit counter kept modulo 2^64 yields the same eight length bytes |
| Sha256Constants.ConstantsAreCubeRoots | legacy/previous_apex/legacy/previous_ultra/legacy/previous_max/legacy/previous_final/legacy/original_project/include/neonsec/crypto.hpp:62-71 | Each of the 64 constants holds the first 32 bits of the fractional part of the cube root of its prime |
| Sha256Constants.InitialWordsAreSquareRoots | legacy/previous_apex/legacy/previous_ultra/legacy/previous_max/legacy/previous_final/legacy/original_project/include/neonsec/crypto.hpp:21-23 | Each initial word holds the first 32 bits of the fractional part of the square root of its prime |
| Sha256Constants.RootsAreUnique | legacy/previous_apex/legacy/previous_ultra/legacy/previous_max/legacy/previous_final/legacy/original_project/include/neonsec/crypto.hpp:21-71 | The roots meant here are unique |
| FirstPrimes.ListIsComplete | legacy/previous_apex/legacy/previous_ultra/legacy/previous_max/legacy/previous_final/legacy/original_project/include/neonsec/crypto.hpp:62-71 | The primes meant here are the first 64, in order and without gaps |
| Sha256Constants.ChChooses | legacy/previous_apex/legacy/previous_ultra/legacy/previous_max/legacy/previous_final/legacy/original_project/include/neonsec/crypto.hpp:14 | On every set of bits on which the first word has only ones the choice is the second word, on every set where it has only zeros the third |
| Sha256Constants.MajIsMajority | legacy/previous_apex/legacy/previous_ultra/legacy/previous_max/legacy/previous_final/legacy/original_project/include/neonsec/crypto.hpp:15 | On every set of bits on which two of the words agree the majority agrees with them |
| Sha256Example.DigestOfAbc | legacy/previous_apex/legacy/previous_ultra/legacy/previous_max/legacy/previous_final/legacy/original_project/include/neonsec/crypto.hpp:21-61 | The digest of the three bytes abc is that of the example in FIPS 180-4, which ties down every constant, rotation and byte order |
| Sha256Stream.BigSigmasAgree | legacy/previous_apex/legacy/previous_ultra/legacy/previous_max/legacy/previous_final/legacy/original_project/include/neonsec/crypto.hpp:13-17 | The shift-and-or rotations in the two big sigmas are the rotations of section 3.2 of FIPS 180-4 |
| Sha256Stream.SmallSigmasAgree | legacy/previous_apex/legacy/previous_ultra/legacy/previous_max/legacy/previous_final/legacy/original_project/include/neonsec/crypto.hpp:13-19 | The same for the two small sigmas of the message schedule |
| Sha256Stream.Sha256.Init | legacy/previous_apex/legacy/previous_ultra/legacy/previous_max/legacy/previous_final/legacy/original_project/include/neonsec/crypto.hpp:21-25 | The hasher stands for the empty message |
| Sha256Stream.Sha256.Expand | legacy/previous_apex/legacy/previous_ultra/legacy/previous_max/legacy/previous_final/legacy/original_project/include/neonsec/crypto.hpp:27-29 | The 64 words computed in place are the message schedule of section 6.2.2 of FIPS 180-4 |
| Sha256Stream.Sha256.Mix | legacy/previous_apex/legacy/previous_ultra/legacy/previous_max/legacy/previous_final/legacy/original_project/include/neonsec/crypto.hpp:30-36 | The round loop over eight variables adds the 64 rounds of the standard to the hash value |
| Sha256Stream.Sha256.Block | legacy/previous_apex/legacy/previous_ultra/legacy/previous_max/legacy/previous_final/legacy/original_project/include/neonsec/crypto.hpp:26-37 | Folding the buffer is one compression step of the standard |
| Sha256Stream.Sha256.Update | legacy/previous_apex/legacy/previous_ultra/legacy/previous_max/legacy/previous_final/legacy/original_project/include/neonsec/crypto.hpp:38-47 | Whatever the length of the chunk and of what is buffered, the hasher afterwards stands for the message with the chunk appended; fewer than 64 bytes stay buffered and no index leaves the buffer |
| Sha256Stream.BlockFilled | legacy/previous_apex/legacy/previous_ultra/legacy/previous_max/legacy/previous_final/legacy/original_project/include/neonsec/crypto.hpp:45 | A full buffer extends the chain of intermediate hash values by one block |
| Sha256Stream.PadInOneBlock | legacy/previous_apex/legacy/previous_ultra/legacy/previous_max/legacy/previous_final/legacy/original_project/include/neonsec/crypto.hpp:49-53 | With fewer than 56 bytes buffered the padding of section 5.1.1 of FIPS 180-4 ends in the same block |
| Sha256Stream.PadInTwoBlocks | legacy/previous_apex/legacy/previous_ultra/legacy/previous_max/legacy/previous_final/legacy/original_project/include/neonsec/crypto.hpp:50 | With 56 or more it takes one block more |
| Sha256Stream.Sha256.FinishBlocks | legacy/previous_apex/legacy/previous_ultra/legacy/previous_max/legacy/previous_final/legacy/original_project/include/neonsec/crypto.hpp:49-53 | The in-place padding leaves the hash value of the padded message |
| Sha256Stream.Sha256.Final | legacy/previous_apex/legacy/previous_ultra/legacy/previous_max/legacy/previous_final/legacy/original_project/include/neonsec/crypto.hpp:48-60 | The 32 bytes written are the digest of everything absorbed |
| Hmac.HashChunks | legacy/previous_apex/legacy/previous_ultra/legacy/previous_max/legacy/previous_final/legacy/original_project/include/neonsec/crypto.hpp:38-60 | A message hashed in any sequence of chunks has the digest of their concatenation |
| Hmac.LoadKey | legacy/previous_apex/legacy/previous_ultra/legacy/previous_max/legacy/previous_final/legacy/original_project/include/neonsec/crypto.hpp:75-81 | The key buffer is the key padded with zeros, or its digest when it is longer than 64 bytes |
| Hmac.MacMeans | legacy/previous_apex/legacy/previous_ultra/legacy/previous_max/legacy/previous_final/legacy/original_project/include/neonsec/crypto.hpp:73-85 | The code, byte by byte: zero-filled key, xor 0x36 inside, xor 0x5c outside |
| Hmac.HmacSha256Hex | legacy/previous_apex/legacy/previous_ultra/legacy/previous_max/legacy/previous_final/legacy/original_project/include/neonsec/crypto.hpp:73-89 | The result is the code of section 2 of RFC 2104, for keys of any length |
| Hmac.RecordHmac | legacy/previous_apex/legacy/previous_ultra/legacy/previous_max/legacy/previous_final/legacy/original_project/src/main.cpp:328-341 | The second copy computes the same code, so both agree, and writes it into the record; without a secret the record stays as it is |
| Hmac.SignedTexts | legacy/previous_apex/legacy/previous_ultra/legacy/previous_max/legacy/previous_final/legacy/original_project/src/main.cpp:339-341 | What the record with the code looks like in each format, written out |
| Hmac.SignedReadsBack | legacy/previous_apex/legacy/previous_ultra/legacy/previous_max/legacy/previous_final/legacy/original_project/src/main.cpp:339-341 | From a record with a code a receiver gets back the code and the text over which it was made, up to a final newline of the line formats; a JSON record without a closing brace carries no code |
| Hmac.HexDecodes | legacy/previous_apex/legacy/previous_ultra/legacy/previous_max/legacy/previous_final/legacy/original_project/include/neonsec/crypto.hpp:86-87 | The hexadecimal text determines the bytes |
| WorkQueue.StepKeepsInv | include/neonsec/bounded_queue.hpp:16-39 | Every step of every thread keeps mutual exclusion, the meaning of both flags, the reason of every sleeper, the order of lines and their conservation |
| WorkQueue.FirstInFirstOut | src/main.cpp:157-182 | In every interleaving the lines popped followed by those queued are the lines pushed, in order, within the bound; each popped line is in one worker's hands or processed, once |
| WorkQueue.RetryBranchIsDead | src/main.cpp:179-180 | A worker that pops nothing always sees `done` set, so it never retries |
| WorkQueue.NoLineGivenUp | include/neonsec/bounded_queue.hpp:25 | The reader never pushes into a closed queue, and the queue is closed only after the last line |
| WorkQueue.SleepersHaveCause | include/neonsec/bounded_queue.hpp:24-33 | A thread asleep in push means open and full, one asleep in pop open and empty: no wakeup is lost and the two kinds never sleep together |
| WorkQueue.FinalMeansAllProcessed | src/main.cpp:202-205 | When all threads have exited, the whole input has been popped in order and processed, each line exactly once |
| WorkQueue.EveryRunIsBounded | include/neonsec/bounded_queue.hpp:22-39 | Apart from spurious wakeups, and two steps for each of them, every run has a number of steps bounded by the input and the number of workers |
| WorkQueue.DeadlockFreedom | src/main.cpp:155-203 | The program always comes to its end if and only if there is nothing to read, or there is room for a line and either a worker or room for the whole input; with `--threads 0` it blocks on a longer input |
| WorkQueue.EveryCompleteRunProcessesAll | src/main.cpp:155-205 | Every run that cannot go on has processed the whole input, each line once, if and only if there is nothing to read, or there are room for a line and a worker |
| WorkQueue.OneWorkerInOrder | src/main.cpp:178-182 | In every interleaving, what a single worker has processed is a front of the input, in its order, and all of it when the run cannot go on |
| Window.SlidingWindow.Add | include/neonsec/window.hpp:15-28 | The queue becomes the old one with the record, popped up to the cutoff; the maps then hold exactly the multiplicities of the queue if and only if the span is not negative; nothing is asked of the calls before |
| Window.MapsAgreeWithQueue | include/neonsec/window.hpp:15-60 | After any sequence of adds and prunes, in any order of time stamps: all five maps hold exactly the multiplicities of the queue, and no other key, if and only if the span is not negative or nothing has been added |
| Window.RunIsSound | include/neonsec/window.hpp:15-60 | Under a negative span the queue is always empty, and each map holds a one for every key ever added, the newest destination among them |
| Window.NegativeSpanFails | src/main.cpp:103 | With `--window -1` one record is enough: the queue is empty and the totals count the record |
| Window.PopsArePaidFor | include/neonsec/window.hpp:30-60 | All passes of the pruning loop in a run and the records still queued are together as many as the records added, so the passes never exceed the adds |
| Window.SlidingWindow.Prune | include/neonsec/window.hpp:30-60 | A call from outside pops the stale prefix; the window stays that of its calls so far, and the passes are counted |
| Window.SlidingWindow.PopStale | include/neonsec/window.hpp:30-60 | The popping loop removes the stale prefix from the queue and takes its records, one by one, out of the maps, whatever the maps hold |
| Window.TakeAllCounts | include/neonsec/window.hpp:32-57 | Taking out the records that are popped leaves the maps exact for the rest of the queue |
| Window.ReenterMarks | include/neonsec/window.hpp:15-57 | Taken out before it was entered, and then entered, a record leaves a one for each of its keys |
| Window.MapsMean | include/neonsec/window.hpp:15-28 | Each entry of the five maps is the number of positions in the queue with its addresses, port or user, for failed logins those with action login and one of the three statuses |
| Window.SlidingWindow.PortAttempts | include/neonsec/window.hpp:62-65 | The number of queued records with this source, destination and port; under a negative span, one if there ever was such a record |
| Window.SlidingWindow.UniqAttackers | include/neonsec/window.hpp:66-72 | The scan of the pair map gives the number of distinct sources for the destination among the queued records; under a negative span, among all records ever added |
| Window.SlidingWindow.AuthFailures | include/neonsec/window.hpp:73-76 | The number of queued failed logins of the user; under a negative span, one if there ever was one |
| Tally.BumpCounts | include/neonsec/window.hpp:18-27 | An increment turns the exact count map of a queue into that of the queue with the record appended |
| Tally.UnbumpCounts | include/neonsec/window.hpp:33-57 | A decrement that erases at zero turns it into that of the queue without its first record |
| Analysis.DetectPortscan | include/neonsec/detectors.hpp:24-30 | Appends the report on the count of the triple |
| Analysis.DetectDdos | include/neonsec/detectors.hpp:32-38 | Appends the report on the number of distinct sources for the destination |
| Analysis.VerdictIsCalledFor | include/neonsec/detectors.hpp:24-47 | What is said of a record, in terms of positions in the history alone: a port scan at the limit of records of its source, destination and port, an attack at the limit of distinct sources, guessing at the limit of failed logins of a named user; with key, time and details |
| Analysis.FindingsAreCalledFor | include/neonsec/detectors.hpp:24-47 | Over an ordered stream the findings are those that the records call for in these terms, one record after the other |
| Analysis.DetectBruteforce | include/neonsec/detectors.hpp:40-47 | Appends the report on the count of failed logins of the user |
| Analysis.QueueIsFresh | include/neonsec/window.hpp:15-31 | For non-decreasing time stamps the queue holds exactly the records of the history that are within the span |
| Analysis.QueueIsSuffix | include/neonsec/window.hpp:30-60 | For time stamps in any order the queue is exactly the suffix of the records added that begins with the first one that no later record is more than the span newer than |
| Analysis.RunIsQueue | include/neonsec/window.hpp:15-31 | This queue is that of the window to which only records are added |
| Analysis.StreamedIsNaive | include/neonsec/detectors.hpp:24-47 | Over any stream with non-decreasing time stamps the findings are those of an analyser that searches the whole history for every record |
| Analysis.StreamedIsNaiveExactly | src/main.cpp:103 | This holds, for all thresholds and all ordered streams, if and only if the span is not negative |
| Analysis.AnalyzeRecord | src/main.cpp:185-189 | The findings for one record follow from the window after the record has been added |
| Analysis.Analyze | src/main.cpp:178-199 | The worker's loop over the records returns the streamed findings, for any span; for ordered streams and a span that is not negative those that the records call for |
| PortScan.OnePortCountsAll | include/neonsec/window.hpp:62-65 | The count of one port is that of the pair if and only if the source has tried no other port of the destination |
| PortScan.DetectorExactness | include/neonsec/detectors.hpp:24-30 | Every source that reaches the threshold against the destination, on whatever ports, is reported, for all thresholds, if and only if all its queued attempts went to the port of the record |
| PortScan.RunExactness | include/neonsec/detectors.hpp:24-30 | Over a whole ordered stream: every record with which a source reaches the threshold is reported, for all thresholds, if and only if no source tries two ports of one destination within the span |
| PortScan.ScanUnreported | include/neonsec/detectors.hpp:24-30 | However many ports of the destination a source tries, each of them once, nothing is reported |
| PortScan.ThreePortsUnreported | tests/test_detectors.cpp:14-21 | The records and thresholds of the test: three attempts on three ports reach the threshold of three, and nothing is reported |
| Pipeline.CountFindings | src/main.cpp:191-193 | The counters hold exactly the number of findings of each type |
| Pipeline.ProcessLines | src/main.cpp:178-199 | The worker's loop over the lines, with those that do not parse skipped: the findings are the streamed ones of the records parsed, naive for ordered records, and the counters count them |
| Pipeline.FailOnGate | src/main.cpp:215-222 | The exit code is 3 if and only if the findings of some type are as many as its limit |
| Pipeline.WholeProgram | src/main.cpp:155-205 | In every interleaving of the reader and one worker the findings so far are the beginning of those of the whole input; at rest, for ordered records, they are those of the naive analyser |
| Pipeline.RecordsToFindings | src/main.cpp:155-205 | Records written as NDJSON lines and sent through the program: at rest, in every interleaving, the findings are those of the naive analyser on the records |
| ApexWindow.ApexSlidingWindow.Add | legacy/previous_apex/include/neonsec/window.hpp:14-24 | The same agreement of queue and maps for the version that keeps zero entries, under the same condition, whatever the calls before |
| ApexWindow.MapsAgreeWithQueue | legacy/previous_apex/include/neonsec/window.hpp:14-39 | After any sequence of adds and prunes the maps cover the queue if and only if the span is not negative or nothing has been added |
| ApexWindow.MapsMean | legacy/previous_apex/include/neonsec/window.hpp:14-24 | Each entry of the five maps is the number of positions in the queue with its addresses, port or user, for refusals those with one of the two statuses |
| ApexWindow.SameQueue | legacy/previous_apex/include/neonsec/window.hpp:26-39 | This version and the current one always hold the same queue |
| ApexWindow.ApexSlidingWindow.PopStale | legacy/previous_apex/include/neonsec/window.hpp:26-39 | Its popping loop, which pops before it decrements and touches absent entries, takes the stale prefix out of the maps |
| ApexWindow.ApexSlidingWindow.PortAttempts | legacy/previous_apex/include/neonsec/window.hpp:43-45 | The sum over map entries, zeros included, is the number of queued records between the two addresses, and the sum over all ports of the current version's count; under a negative span it is the number of ports ever seen |
| ApexWindow.SumOverPortsIsAttempts | include/neonsec/window.hpp:62-65 | The current version's counts of single ports add up to the count of the pair |
| ApexWindow.ApexSlidingWindow.UniqAttackers | legacy/previous_apex/include/neonsec/window.hpp:46-48 | The scan that skips zero entries gives the number of distinct sources, under a negative span those ever seen |
| ApexWindow.ApexSlidingWindow.AuthFailures | legacy/previous_apex/include/neonsec/window.hpp:49-52 | The number of queued refused records of the user; under a negative span, one if there ever was one |
| KeyedWindow.KeyedSlidingWindow.Add | legacy/previous_apex/legacy/previous_ultra/legacy/previous_max/legacy/previous_final/legacy/original_project/src/sliding_window.cpp:4-7 | Push and cap act on the queue of one key and leave the others alone |
| KeyedWindow.KeyedSlidingWindow.Evict | legacy/previous_apex/legacy/previous_ultra/legacy/previous_max/legacy/previous_final/legacy/original_project/src/sliding_window.cpp:8-10 | The scan over all keys pops the stale prefix of every queue |
| KeyedWindow.KeyedSlidingWindow.Get | legacy/previous_apex/legacy/previous_ultra/legacy/previous_max/legacy/previous_final/legacy/original_project/src/sliding_window.cpp:11-13 | The queue of the key, empty if there is none |
| KeyedWindow.ContentIsTail | legacy/previous_apex/legacy/previous_ultra/legacy/previous_max/legacy/previous_final/legacy/original_project/src/sliding_window.cpp:4-10 | After operations in time order every queue is a suffix of the records added under its key, within the cap, and of the last `cap` records only stale ones are missing; for any cap and span |
| KeyedWindow.ClosedForm | legacy/previous_apex/legacy/previous_ultra/legacy/previous_max/legacy/previous_final/legacy/original_project/src/sliding_window.cpp:4-13 | After any interleaving of adds and evictions over many keys, in time order and ending in an eviction, the queue of a key is the last `cap` records ever added under it, filtered by the span |
| KeyedWindow.LastIsSub | legacy/previous_apex/legacy/previous_ultra/legacy/previous_max/legacy/previous_final/legacy/original_project/src/sliding_window.cpp:6 | The last `cap` records are those with fewer than `cap` behind them |
| KeyedWindow.LastMeans | legacy/previous_apex/legacy/previous_ultra/legacy/previous_max/legacy/previous_final/legacy/original_project/src/sliding_window.cpp:6 | They are a suffix, of `cap` records if there are so many |
| RulesEngine.Engine.MatchesRecord | legacy/previous_apex/legacy/previous_ultra/legacy/previous_max/legacy/previous_final/legacy/original_project/src/rules.cpp:90-105 | The loop decides whether all conditions hold of the record |
| RulesEngine.EqualityConditions | legacy/previous_apex/legacy/previous_ultra/legacy/previous_max/legacy/previous_final/legacy/original_project/src/rules.cpp:79-104 | For each of the nine field names: a rule with one condition matches just the records whose field has the value, or for difference has it not |
| RulesEngine.UnknownField | legacy/previous_apex/legacy/previous_ultra/legacy/previous_max/legacy/previous_final/legacy/original_project/src/rules.cpp:92-103 | A name that is not a field stands for an empty text |
| RulesEngine.LibraryConditions | legacy/previous_apex/legacy/previous_ultra/legacy/previous_max/legacy/previous_final/legacy/original_project/src/rules.cpp:83-87 | The other operators are those of the library |
| RulesEngine.ConditionsTogether | legacy/previous_apex/legacy/previous_ultra/legacy/previous_max/legacy/previous_final/legacy/original_project/src/rules.cpp:90-105 | Several conditions hold together, and no condition always holds |
| RulesEngine.GroupOfRecord | legacy/previous_apex/legacy/previous_ultra/legacy/previous_max/legacy/previous_final/legacy/original_project/src/rules.cpp:106-113 | The group of a record is its value of the field that the rule names, or empty |
| RulesEngine.FindingsAreEmitted | legacy/previous_apex/legacy/previous_ultra/legacy/previous_max/legacy/previous_final/legacy/original_project/src/rules.cpp:114-128 | A rule emits, with its type and details, the group and the time, if the record matches and, where they are set, the number of relevant positions in the history and the bytes at them reach the thresholds |
| RulesEngine.KeysCollide | legacy/previous_apex/legacy/previous_ultra/legacy/previous_max/legacy/previous_final/legacy/original_project/src/rules.cpp:118 | Two rule names can share a window key if and only if one of them, with its colon, begins the other |
| RulesEngine.ColonFreeNamesSeparate | legacy/previous_apex/legacy/previous_ultra/legacy/previous_max/legacy/previous_final/legacy/original_project/src/rules.cpp:118 | Distinct names without a colon never share one |
| RulesEngine.AddedIsMatching | legacy/previous_apex/legacy/previous_ultra/legacy/previous_max/legacy/previous_final/legacy/original_project/src/rules.cpp:116-119 | Under the key of a rule and group stand exactly the records of the history that match the rule and fall into the group |
| RulesEngine.QueueIsRelevant | legacy/previous_apex/legacy/previous_ultra/legacy/previous_max/legacy/previous_final/legacy/original_project/src/rules.cpp:118-120 | What a rule finds right after entering a record is the last `cap` matching records of its group within the engine's span |
| RulesEngine.Engine.Feed | legacy/previous_apex/legacy/previous_ultra/legacy/previous_max/legacy/previous_final/legacy/original_project/src/rules.cpp:114-128 | For ordered records and rules that keep apart, the findings are those of thresholds tested naively on the history, and in terms of positions in it |
| RulesLoader.ParseNumber | legacy/previous_apex/legacy/previous_ultra/legacy/previous_max/legacy/previous_final/legacy/original_project/src/rules.cpp:15-18 | The number parser returns with the index in front of the number that it has read |
| RulesLoader.ParseQuoted | legacy/previous_apex/legacy/previous_ultra/legacy/previous_max/legacy/previous_final/legacy/original_project/src/rules.cpp:10-14 | The loop over a quoted string, which also accepts one that the end of the text cuts off |
| RulesLoader.ParseObject | legacy/previous_apex/legacy/previous_ultra/legacy/previous_max/legacy/previous_final/legacy/original_project/src/rules.cpp:25-32 | The loop over the members of an object: terminates, and gives up at the first missing colon |
| RulesLoader.ParseConditions | legacy/previous_apex/legacy/previous_ultra/legacy/previous_max/legacy/previous_final/legacy/original_project/src/rules.cpp:22-36 | The loop over the conditions of a rule |
| RulesLoader.ParseRule | legacy/previous_apex/legacy/previous_ultra/legacy/previous_max/legacy/previous_final/legacy/original_project/src/rules.cpp:53-69 | The loop over the members of a rule, with its branches, defaults and error messages |
| RulesLoader.LoadRules | legacy/previous_apex/legacy/previous_ultra/legacy/previous_max/legacy/previous_final/legacy/original_project/src/rules.cpp:40-78 | The loader terminates on every text, with its index never past the end |
| RulesLoader.LoadedRulesAreUnlimited | legacy/previous_apex/legacy/previous_ultra/legacy/previous_max/legacy/previous_final/legacy/original_project/src/rules.cpp:55-68 | On every text: if the loader succeeds, no rule that it returns has a count or byte threshold, or a span other than 60 or 0, because every loop gives up in front of a number |
| RulesLoader.LoadedRulesAlwaysEmit | legacy/previous_apex/legacy/previous_ultra/legacy/previous_max/legacy/previous_final/legacy/original_project/src/rules.cpp:121-126 | Hence a rule from a file emits for every record that it matches |
| RulesLayout.MatchMeans | legacy/previous_apex/legacy/previous_ultra/legacy/previous_max/legacy/previous_final/legacy/original_project/src/rules.cpp:8-9 | The token matcher skips all white space and then takes its character if it stands there; otherwise it stops in front of what does |
| RulesLayout.QuoteRead | legacy/previous_apex/legacy/previous_ultra/legacy/previous_max/legacy/previous_final/legacy/original_project/src/rules.cpp:10-14 | A quoted string reads back, with any white space in front and any of its characters behind a backslash, as quotes and backslashes must be |
| RulesLayout.CutOffRead | legacy/previous_apex/legacy/previous_ultra/legacy/previous_max/legacy/previous_final/legacy/original_project/src/rules.cpp:12 | A string that the end of the text cuts off is read up to there |
| RulesLayout.NumberValue | legacy/previous_apex/legacy/previous_ultra/legacy/previous_max/legacy/previous_final/legacy/original_project/src/rules.cpp:15-18 | The number parser takes all the characters that can belong to a number and leaves the index in front of them |
| RulesLayout.OperatorsAgree | legacy/previous_apex/legacy/previous_ultra/legacy/previous_max/legacy/previous_final/legacy/original_project/src/rules.cpp:34 | The operators by name; every other name means equality |
| RulesLayout.ClausesRead | legacy/previous_apex/legacy/previous_ultra/legacy/previous_max/legacy/previous_final/legacy/original_project/src/rules.cpp:19-39 | A list of conditions reads back for every layout |
| RulesLayout.RuleRead | legacy/previous_apex/legacy/previous_ultra/legacy/previous_max/legacy/previous_final/legacy/original_project/src/rules.cpp:53-72 | A rule is what its members, in any order and number, make of a new one; with a number in it the loader gives up |
| RulesLayout.FileLoads | legacy/previous_apex/legacy/previous_ultra/legacy/previous_max/legacy/previous_final/legacy/original_project/src/rules.cpp:40-78 | For every layout of a file, that is any white space, commas and escapes, any order of members, and members that the loader does not know: it loads as the rules that it spells if there is no number in it, and otherwise loading fails |
| RulesLayout.StrayValueRefused | legacy/previous_apex/legacy/previous_ultra/legacy/previous_max/legacy/previous_final/legacy/original_project/src/rules.cpp:66-75 | An unknown member whose value is neither a string nor a number, such as a word, a list or an object, makes loading fail |
| RulesLayout.UnknownPairRefused | legacy/previous_apex/legacy/previous_ultra/legacy/previous_max/legacy/previous_final/legacy/original_project/src/rules.cpp:25-32 | So does an unknown member of a condition, a threshold or an emit object: its value is taken for a name |
| RulesLayout.TopErrors | legacy/previous_apex/legacy/previous_ultra/legacy/previous_max/legacy/previous_final/legacy/original_project/src/rules.cpp:43-50 | What is refused at the top of a file, with its message |
| RulesLayout.ListErrors | legacy/previous_apex/legacy/previous_ultra/legacy/previous_max/legacy/previous_final/legacy/original_project/src/rules.cpp:24-57 | What is refused in a list of rules, in a rule and in a list of conditions, with its message |
| RulesLayout.ValueErrors | legacy/previous_apex/legacy/previous_ultra/legacy/previous_max/legacy/previous_final/legacy/original_project/src/rules.cpp:20-65 | What is refused as the value of a member of a rule, with its message |
| RulesLayout.RulesRoundTrip | legacy/previous_apex/legacy/previous_ultra/legacy/previous_max/legacy/previous_final/legacy/original_project/src/rules.cpp:40-78 | Loading the file of a rule list, in any layout, returns the list if and only if no rule in it has a threshold or a span of its own; otherwise loading fails |
| RulesLayout.RulesWritten | legacy/previous_apex/legacy/previous_ultra/legacy/previous_max/legacy/previous_final/legacy/original_project/src/rules.cpp:40-78 | For any white space in front of the tokens there is such a text |
| Welford.OnePassIsTwoPass | legacy/previous_apex/legacy/previous_ultra/legacy/previous_max/legacy/previous_final/legacy/original_project/src/detectors.cpp:15 | Over the reals the one-pass update keeps the mean and the sum of squared deviations of all numbers seen |
| Welford.ZTestIsAnomalous | legacy/previous_apex/legacy/previous_ultra/legacy/previous_max/legacy/previous_final/legacy/original_project/src/detectors.cpp:15 | The z-score test on the running statistics is the two-pass test, free of roots: squared distance times n-1 against squared threshold times deviation |
| Welford.AnomalousMeans | legacy/previous_apex/legacy/previous_ultra/legacy/previous_max/legacy/previous_final/legacy/original_project/src/detectors.cpp:15 | The two-pass test in terms of the standard deviation: at least six numbers, not all the same, and the last one z deviations from the mean |
| OriginalDetectors.Detectors.TrailingFailures | legacy/previous_apex/legacy/previous_ultra/legacy/previous_max/legacy/previous_final/legacy/original_project/src/detectors.cpp:13 | The backward loop counts the authentications behind the last one that did not fail |
| OriginalDetectors.Detectors.DistinctPorts | legacy/previous_apex/legacy/previous_ultra/legacy/previous_max/legacy/previous_final/legacy/original_project/src/detectors.cpp:11 | The set of ports of the connect records |
| OriginalDetectors.Detectors.UpdateBytes | legacy/previous_apex/legacy/previous_ultra/legacy/previous_max/legacy/previous_final/legacy/original_project/src/detectors.cpp:15 | The statistics of the source are updated, those of others left alone |
| OriginalDetectors.QueueIsRecent | legacy/previous_apex/legacy/previous_ultra/legacy/previous_max/legacy/previous_final/legacy/original_project/src/detectors.cpp:9-11 | The window of an address holds the last `cap` records of that address within the span |
| OriginalDetectors.VerdictIsJudged | legacy/previous_apex/legacy/previous_ultra/legacy/previous_max/legacy/previous_final/legacy/original_project/src/detectors.cpp:10-15 | The verdicts in terms of positions in the history alone: ports of connect records, failed authentications behind the last success, records and sources for the destination |
| OriginalDetectors.Detectors.Feed | legacy/previous_apex/legacy/previous_ultra/legacy/previous_max/legacy/previous_final/legacy/original_project/src/detectors.cpp:7-17 | For ordered records all four detectors find what the positions in the whole history say |
| RateLimiter.Limiter.RateLimitOk | legacy/previous_apex/legacy/previous_ultra/legacy/previous_max/legacy/previous_final/legacy/original_project/src/main.cpp:485-492 | After every sequence of calls, for every key, the histories and the accepted times are those of the calls so far; one call decides and updates its key alone |
| RateLimiter.Limiter.Admit | legacy/previous_apex/legacy/previous_ultra/legacy/previous_max/legacy/previous_final/legacy/original_project/src/main.cpp:485-492 | The popping loop and the test of the size on the history of one key |
| RateLimiter.Limiter.WithinRate | legacy/previous_apex/legacy/previous_ultra/legacy/previous_max/legacy/previous_final/legacy/original_project/src/main.cpp:485-492 | Of a limiter in use, called in time order: no closed interval of the window's length holds more than `rate` accepted times of a key |
| RateLimiter.NeverMoreThanRate | legacy/previous_apex/legacy/previous_ultra/legacy/previous_max/legacy/previous_final/legacy/original_project/src/main.cpp:485-492 | For non-decreasing times no closed interval of the window's length holds more than `rate` accepted findings of a key, over the whole run and whatever other keys are called |
| RateLimiter.RefusedExactlyWhenFull | legacy/previous_apex/legacy/previous_ultra/legacy/previous_max/legacy/previous_final/legacy/original_project/src/main.cpp:488-489 | A finding is refused if and only if exactly `rate` accepted ones lie in its own trailing window |
| RateLimiter.InactiveAcceptsAll | legacy/previous_apex/legacy/previous_ultra/legacy/previous_max/legacy/previous_final/legacy/original_project/src/main.cpp:486 | Without a positive rate and window every finding passes |
| Emit.Emitter.Decide | legacy/previous_apex/legacy/previous_ultra/legacy/previous_max/legacy/previous_final/legacy/original_project/src/main.cpp:712-725 | The tests in the order of the pipeline give the outcome that the passed findings determine |
| Emit.Emitter.SelectorDrops | legacy/previous_apex/legacy/previous_ultra/legacy/previous_max/legacy/previous_final/legacy/original_project/src/main.cpp:715-722 | Time limits and the only/skip patterns of type, key and details |
| Emit.OutcomeMeans | legacy/previous_apex/legacy/previous_ultra/legacy/previous_max/legacy/previous_final/legacy/original_project/src/main.cpp:712-725 | The outcome of a call in terms of the options: sampling, time limits and patterns with the meaning of the wildcards, the last like finding within the window, the baseline, the first suppression that hits, repetitions |
| Emit.RunPasses | legacy/previous_apex/legacy/previous_ultra/legacy/previous_max/legacy/previous_final/legacy/original_project/src/main.cpp:711-727 | A run passes just the findings that the options let through, in their order |
| Emit.PassedAreAllowed | legacy/previous_apex/legacy/previous_ultra/legacy/previous_max/legacy/previous_final/legacy/original_project/src/main.cpp:715-725 | Whatever has passed is within the limits and patterns, not in the baseline and hit by no suppression |
| Emit.EverythingPasses | legacy/previous_apex/legacy/previous_ultra/legacy/previous_max/legacy/previous_final/legacy/original_project/src/main.cpp:711-727 | Without options every finding passes that is not sampled out |
| Emit.Emitter.Emit | legacy/previous_apex/legacy/previous_ultra/legacy/previous_max/legacy/previous_final/legacy/original_project/src/main.cpp:711-727 | Each call changes counters, sets, tables and output as its outcome says and in no other way |
| Emit.Emitter.Print | legacy/previous_apex/legacy/previous_ultra/legacy/previous_max/legacy/previous_final/legacy/original_project/src/main.cpp:725 | Output, pending list, truncation and limit flags follow the passed findings |
| Emit.GapsAboveWindow | legacy/previous_apex/legacy/previous_ultra/legacy/previous_max/legacy/previous_final/legacy/original_project/src/main.cpp:723-726 | With a dedupe window, and time stamps in any order, findings of one type and key that pass have strictly increasing times with every gap above the window |
| Emit.NoRepeats | legacy/previous_apex/legacy/previous_ultra/legacy/previous_max/legacy/previous_final/legacy/original_project/src/main.cpp:725 | With the dedupe set no two findings with the same key pass |
| Emit.DedupeExactness | legacy/previous_apex/legacy/previous_ultra/legacy/previous_max/legacy/previous_final/legacy/original_project/src/main.cpp:723-726 | The separator is empty, so keys are plain concatenations: in the dedupe set as in the dedupe window they tell repetitions of a type and key if and only if no type begins another one |
| Emit.PassedCounted | legacy/previous_apex/legacy/previous_ultra/legacy/previous_max/legacy/previous_final/legacy/original_project/src/main.cpp:725 | The class of passed calls is as large as the list of passed findings |
| Emit.Emitter.TotalsAgree | legacy/previous_apex/legacy/previous_ultra/legacy/previous_max/legacy/previous_final/legacy/original_project/src/main.cpp:725-727 | Calls are the sum of all drop counters, suppressions, repetitions and findings; type totals, bucket totals, bucket rows and bucket columns all add up to the finding count and to each other |
| Emit.Emitter.CountersMean | legacy/previous_apex/legacy/previous_ultra/legacy/previous_max/legacy/previous_final/legacy/original_project/src/main.cpp:712-725 | Each counter is the number of calls with its outcome |
| Emit.Emitter.TablesMean | legacy/previous_apex/legacy/previous_ultra/legacy/previous_max/legacy/previous_final/legacy/original_project/src/main.cpp:725-727 | The tables hold the numbers of passed findings by type, by bucket and by both |
| Emit.Emitter.OutputMeans | legacy/previous_apex/legacy/previous_ultra/legacy/previous_max/legacy/previous_final/legacy/original_project/src/main.cpp:725 | What is printed, what waits, and when the output is truncated or stopped |
| Emit.BucketMeans | legacy/previous_apex/legacy/previous_ultra/legacy/previous_max/legacy/previous_final/legacy/original_project/src/main.cpp:727 | A bucket begins at a multiple of its size; the division truncates towards zero |
| Ndjson.ParseInt | include/neonsec/ndjson_reader.hpp:10-19 | The digit loop, with the accumulator kept within a long long or the overflow reported |
| Ndjson.GetJsonInt | include/neonsec/ndjson_reader.hpp:30-37 | The space-skipping loop in front of the integer |
| Ndjson.FoundInLine | include/neonsec/ndjson_reader.hpp:21-31 | On a line of fields the first occurrence of a quoted name is the field itself, if no earlier string value equals it |
| Ndjson.ValueRead | include/neonsec/ndjson_reader.hpp:21-37 | Reading a name on such a line gives the value of its field, string or integer |
| Ndjson.DivertedRead | include/neonsec/ndjson_reader.hpp:21-37 | If an earlier string value equals the name, what is read is the value of the field behind that value |
| Ndjson.NameRead | include/neonsec/ndjson_reader.hpp:21-37 | On every line of fields, whatever the string values are, each name gives the value of the field on which the search lands; a string read where a number stands is the next name |
| Ndjson.DivertedLine | include/neonsec/ndjson_reader.hpp:42 | A record whose source address reads `src_port` cannot be read back |
| Ndjson.LineRoundTrip | include/neonsec/ndjson_reader.hpp:39-51 | For every record whatever: its canonical line reads back as the record if and only if no string holds a quote, the numbers fit, and each name, searched for, leads to its own field or by chance to an equal value |
| Ndjson.ReadableRoundTrip | include/neonsec/ndjson_reader.hpp:39-51 | In particular a record without quotes, with numbers that fit, reads back if no string is the name of a later field; nothing overflows |
| Ndjson.ReadIsPlain | include/neonsec/ndjson_reader.hpp:10-51 | Whatever the line is, a record that is read holds no quote and only numbers that fit |
| Ndjson.LineOfFields | include/neonsec/ndjson_reader.hpp:39-51 | For lines with any fields in any order, no string value being one of the nine names: the first missing one of the five fields in front is reported, the other four have the defaults connect, ok, 0 and - |
| Ndjson.SpacesSkipped | include/neonsec/ndjson_reader.hpp:28-36 | White space between the colon and the value is skipped |
| Ndjson.SignsRead | include/neonsec/ndjson_reader.hpp:10-19 | A plus sign is passed; without digits there is no number |
| Ndjson.PortIsCut | include/neonsec/ndjson_reader.hpp:45-46 | A port that does not fit is cut to its last 32 bits |
| Utf8.Sanitize | legacy/previous_apex/legacy/previous_ultra/legacy/previous_max/legacy/previous_final/legacy/original_project/src/main.cpp:295-309 | The scanning loop; without the strict flag the text is left alone |
| Utf8.MasksAreRanges | legacy/previous_apex/legacy/previous_ultra/legacy/previous_max/legacy/previous_final/legacy/original_project/src/main.cpp:299-305 | The mask tests are the byte ranges of the table in section 3 of RFC 3629 |
| Utf8.UnitsAreEncodings | legacy/previous_apex/legacy/previous_ultra/legacy/previous_max/legacy/previous_final/legacy/original_project/src/main.cpp:299-305 | A unit of n bytes is what the table makes of some character number |
| Utf8.TextPasses | legacy/previous_apex/legacy/previous_ultra/legacy/previous_max/legacy/previous_final/legacy/original_project/src/main.cpp:295-309 | Text in UTF-8 passes unchanged |
| Utf8.OutputIsWellShaped | legacy/previous_apex/legacy/previous_ultra/legacy/previous_max/legacy/previous_final/legacy/original_project/src/main.cpp:300-307 | The output is always a concatenation of a lead byte and its continuation bytes |
| Utf8.OutputIsInputOrQuestion | legacy/previous_apex/legacy/previous_ultra/legacy/previous_max/legacy/previous_final/legacy/original_project/src/main.cpp:302-306 | The length is kept, and every byte is the input byte or a question mark |
| Utf8.IdentityExactlyOnWellShaped | legacy/previous_apex/legacy/previous_ultra/legacy/previous_max/legacy/previous_final/legacy/original_project/src/main.cpp:300-307 | The text is unchanged if and only if it already has that shape |
| Utf8.UnitsInFrontPass | legacy/previous_apex/legacy/previous_ultra/legacy/previous_max/legacy/previous_final/legacy/original_project/src/main.cpp:302-305 | Units in front pass unchanged, whatever follows them |
| Utf8.StrayIsReplaced | legacy/previous_apex/legacy/previous_ultra/legacy/previous_max/legacy/previous_final/legacy/original_project/src/main.cpp:306 | A byte with which no unit starts is replaced, and only that byte |
| Utf8.Idempotent | legacy/previous_apex/legacy/previous_ultra/legacy/previous_max/legacy/previous_final/legacy/original_project/src/main.cpp:295-309 | Sanitising twice changes nothing more |

## Left out

- Metrics servers, TLS, sockets, plugins, packet capture, system logging and files: input and output.
- Argument parsing, help, report formats, configuration merging and release tools.
- Analysis.Analyze: models one worker and no plugins; the window and the counters are shared by the workers without a
  lock, and no claim is made about several workers updating them at once. It starts from records; parsing, skipped
  lines, counters and exit code are in Pipeline.ProcessLines and Pipeline.FailOnGate.
- Pipeline.ProcessLines: takes the parser as an arbitrary function, which for NDJSON skips a line whose number overflows;
  in the program such an overflow is undefined. Metrics and the written findings are not modelled.
- WorkQueue.FirstInFirstOut: takes the processing of one line as one step, and the lines as they are pushed, after the
  skipping of a CSV header.
- Counters and sizes of type `int` are unbounded; the wrap-around after two thousand million records is not modelled, nor
  is overflow of `now - span`.
- Welford.OnePassIsTwoPass: is about real numbers, not about rounding; the square root is an exact one.
- OriginalDetectors.Detectors.Feed: assumes a single instance, since the program keeps its counts in one static map.
- RulesEngine.Engine.Feed: takes comparisons of strings as numbers, and regular expressions, as an arbitrary function.
- RulesLoader.LoadRules: takes `std::stod` with the cast behind it as an arbitrary function that may throw; the
  index, which the program passes by reference, is returned next to the value. The four loops over the members of an
  object are one, with the names as parameters.
- RulesLayout.FileLoads: is about files whose unknown members have strings or numbers as values, and whose inner objects
  have the members that the loader knows; others are in RulesLayout.StrayValueRefused and RulesLayout.UnknownPairRefused.
- RulesLayout.RulesRoundTrip: the program has no printer, so the file of a rule list is the obvious one, in any layout.
- Ndjson.LineRoundTrip: the program writes no log lines, so the canonical line is the obvious one, without spaces.
- Emit.Emitter.Emit: takes findings after redaction and the shift in time, and the sampling decision as an input; the
  text that is printed, the tee file and the byte limit, which can also raise the drop flag, are not modelled.
- Emit.Emitter.Print: takes findings for what is printed; the text, the record number and the byte limit are not modelled.
- Utf8.OutputIsWellShaped: is about shapes only; like the code it admits overlong forms, surrogates and lead bytes
  F5 to F7.
- The CSV reader, the time stamp parser, pseudonyms, chaining of records, and the other copies of windows, queues and
  readers between the previous version and the original project.
- Hash collisions and the iteration order of unordered maps: the scans are proved for every order.
