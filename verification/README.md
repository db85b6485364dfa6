# A verified model of the dead-letter investigation pipeline

The repository investigates packets that ended on a dead-letter topic. Most of it is I/O and prompts; a
few parts carry a correctness argument that is easy to get wrong. This project models those parts and
proves what they promise, for all inputs, all runs and all interleavings.

| file | what it models |
|---|---|
| `JsonText`, `Redaction`, `RedactionTheorems`, `RedactedTree` | redaction of JSON values inside text that has itself been string-escaped |
| `Versions` | the ordering of versions, in which "equal" is not transitive |
| `CodeCheck`, `PrecheckVerdicts`, `Deployment`, `DeploymentCases` | the replay precheck, every verdict in terms of what the repositories answer, the verdict against the history, and histories on which it is wrong |
| `Claims` | one analysis per record: a create-only claim with takeover |
| `SingleFlight`, `AnalysisLane` | one investigation per fingerprint at a time, and the lane around that gate |
| `GroupRecord`, `GroupStore` | counts derived from create-only objects, the record they replaced, and the two caches in front |
| `AutoReplay`, `Parked` | the replay gate, and the queue of replays that wait for a version |
| `Verdicts`, `Corroborate` | the trace against the logs |
| `Fetcher`, `RateLimiter`, `PromptFit`, `AgentPublication` | capped paging, the sliding-window limiter, prompt trimming, publication of the agent graph |
| `Options`, `Machines` | optional values, and runs of a step machine |

`dafny verify dfyconfig.toml` checks the whole project.

Clocks are numbers that do not decrease. A store is a map with create-only, put, load and list, and one
operation on it is one step. Settings are parameters. Patterns and hashes are uninterpreted functions,
except the key pattern of the redactor, which is written out and shown to be what the matcher decides.
Loops of the source are loops here, proved equal to functions that the theorems are about; protocols are
step relations, and the theorems are about every run of them.

Methods that change an object (`ClaimStore`, `FlightTable`, `Process`, `ParkedQueue`, `Limiter`) state
their whole new state as a function of the old one, so what is proved of the functions is proved of them.

## What came out

Properties that do not hold of the code as it is, each with the exact condition under which they do, and
an input or a run on which they fail:

- FIX_DEPLOYED is right of whatever builds run if and only if the version file held a version below the
  required one just below each resolved candidate (`Deployment.FixDeployedIsRightExactly`): one read at the
  parent commit tells. It fails for a nested version file, which counts by its name, and as much for the
  root one edited without a bump (`DeploymentCases.NestedVersionFileMisleads`), and for a commit whose time
  cannot be read, which is taken to have shipped in the oldest bump listed
  (`DeploymentCases.UnreadableTimeMisleads`).
- NOT_DEPLOYED is right of whatever builds run if and only if the version already reached the required one
  at the newest resolved candidate (`Deployment.NotDeployedIsRightExactly`); where builds are cut at bumps
  only, it is (`Deployment.BumpBuildsAreExact`).
- NO_CHANGE is right if and only if no two checked frames share a path and differ in their repository
  (`Deployment.NoChangeIsRightExactly`): lookups are remembered by path alone
  (`DeploymentCases.TwinPathMisleads`).
- "The lowest running build is at least the required version" says it of every build, for every version one
  could require, exactly when the lowest is not a bare version tied with a numbered build
  (`Versions.FloorIsSafeExactly`). Builds uniform in carrying a counter are one case of that.
- All winning deliveries of a record carry one reference if and only if no takeover occurs
  (`Claims.OneWinnerExactly`). A finished holder can be replaced if and only if a delivery of another
  reference is by then about to overwrite the claim, or has read one that it would take over
  (`Claims.FinishedHolderLostExactly`, with a run in `Claims.FinishedHolderReplaced`).
- A recommendation that explains one occurrence is served to another if and only if the group was last read
  for that request after its code check, which takes no new decision, and none usable was on file then
  (`AnalysisLane.ServedUnusableExactly`). A timed-out wait can bring that about
  (`AnalysisLane.TimedOutWaitMisserves`), and so can a write of another process
  (`AnalysisLane.OtherWriterMisserves`); in one process without timeouts it does not happen.
- The single-document record counts a case again exactly when the case comes back after it has dropped out
  of the capped member list (`GroupRecord.CountsAgreeExactly`).
- A reader of the agent graph can be handed a graph older than the catalog it validated exactly when a
  build does not assign the graph first; the dead-letter lane does not (`AgentPublication.DeadLetterLaneIsNot`).
- The header of `src/dlt/group_store.py` lists `code_checks/` objects as blind writes; the code creates
  them once (lines 290-296), and the model follows the code.

## Model

| member | source | states |
|---|---|---|
| JsonText.EscapeTimesIsLift | src/log_pipeline/redaction.py:135-137 | escaping a text k times turns every quote and backslash into a run of known length, the levels 0, 1, 3, 7 and on |
| JsonText.PrintedAndEscaped | src/log_pipeline/redaction.py:135-137 | serialising a tree and then escaping it k times is printing it at level 2^k-1 |
| JsonText.HeldIsString | src/log_pipeline/redaction.py:135-137 | a tree whose text is held in a string of another tree is printed one escaping further, as that string is |
| Redaction.BackslashesBefore | src/log_pipeline/redaction.py:172-176 | the loop finds the length of the backslash run, which is what the scanner's automaton carries modulo the period |
| Redaction.FindQuote | src/log_pipeline/redaction.py:191-193 | the next quote at or after an index, and none before it |
| Redaction.StringEnd | src/log_pipeline/redaction.py:179-196 | the quote-hopping loop computes what a character-by-character automaton over backslash runs computes |
| Redaction.ContainerEnd | src/log_pipeline/redaction.py:199-216 | the depth-counting loop, with its jumps over strings, computes the automaton's end of a container |
| Redaction.ValueEndOf | src/log_pipeline/redaction.py:222-244 | the value scanner with all the cases in which there is nothing to redact |
| Redaction.Search | src/log_pipeline/redaction.py:257-259 | the leftmost match of the key pattern at or after a position |
| Redaction.RedactJsonFields | src/log_pipeline/redaction.py:247-273 | the loop over pieces gives the text and the count of the recursive rewriting |
| RedactionTheorems.StringEndsExactly | src/log_pipeline/redaction.py:179-196 | for any content of quotes, backslashes and plain characters, at any level, the scan of a string stops just past its own closing quote |
| RedactionTheorems.ContainerEndsExactly | src/log_pipeline/redaction.py:199-216 | for any printed object or array, strings that hold other trees included, the scan stops just past its own closing bracket |
| RedactionTheorems.ValueEndsExactly | src/log_pipeline/redaction.py:222-244 | for any value at a known level: its exact end, or nothing to redact exactly for an empty string, null, a boolean, an already redacted value or an unknown level |
| RedactionTheorems.ScalarsReplacedExactly | src/log_pipeline/redaction.py:241-244 | a scalar is left alone if and only if it spells null, true or false, letter by letter in either case; a number is always replaced, to its end |
| RedactionTheorems.ScalarEndsWhere | src/log_pipeline/redaction.py:219-219 | in any text a scalar ends at the first comma, closing bracket, space, quote or backslash |
| RedactedTree.MatcherDecidesPattern | src/log_pipeline/redaction.py:152-157 | for keys that are not empty and spell no quote or backslash, the direct matcher answers exactly when the key pattern, written out, matches there, with the same level and end |
| RedactedTree.KnownLevels | src/log_pipeline/redaction.py:135-137 | the level after k escapings is one of those recognised exactly for k up to 3 |
| RedactedTree.KnownLevelsExactly | src/log_pipeline/redaction.py:135-137 | the levels recognised are those of up to three escapings and no others |
| RedactedTree.RedactsLine | src/log_pipeline/redaction.py:247-273 | in any line where no match begins before the printed tree and what follows cannot turn it into a key, redacting the text is redacting the tree, the hits are counted, and the rest of the line is redacted as from there |
| RedactedTree.RedactsEscapedTree | src/log_pipeline/redaction.py:247-273 | for every tree whose strings spell no quote, or hold the text of such a tree, escaped k times, in any such line: the text of the tree with each redactable value of a listed key replaced; from 4 escapings on unchanged |
| RedactedTree.UnknownLevelKeeps | src/log_pipeline/redaction.py:230-231 | beyond the recognised levels nothing is replaced, at any depth of held trees |
| RedactedTree.NothingLeft | src/log_pipeline/redaction.py:222-244 | a redacted tree has nothing left to redact |
| RedactedTree.RedactionIsIdempotent | src/log_pipeline/redaction.py:247-273 | a second redaction of such text in a line of its own changes nothing and counts nothing |
| Versions.CompareMeaning | src/dlt/versions.py:202-228 | the padded, branch-by-branch comparison decides a strict order on infinite zero-extended cores, snapshots and counters, in both directions |
| Versions.CompareAntisymmetric | src/dlt/versions.py:202-228 | swapping the sides negates the result |
| Versions.CompareTransitive | src/dlt/versions.py:202-228 | strictly below is transitive across cores of any lengths |
| Versions.TrailingZeros | src/dlt/versions.py:196-199 | trailing zero components change no comparison |
| Versions.EqualIsNotTransitive | src/dlt/versions.py:223-228 | a bare version compares equal with two builds of it that are not equal |
| Versions.FindLowest | src/dlt/versions.py:255-281 | the loop computes the first winner of the strict comparison, or nothing when a version is missing |
| Versions.LowestMeaning | src/dlt/versions.py:255-281 | the lowest is one of the versions and none is strictly below it; it declines exactly when there are none or one cannot be read |
| Versions.LowestIsFloor | src/dlt/versions.py:231-240 | if the lowest is at least a required version so is every member, when members are uniform in carrying a counter or the required version has none |
| Versions.FloorIsSafeExactly | src/dlt/versions.py:255-281 | exactly when that inference is safe for every required version |
| Versions.UniformExactly | src/dlt/versions.py:223-228 | uniform versions all carry a counter or none does |
| CodeCheck.ProbePath | src/dlt/code_check.py:245-273 | the loop with its memory of paths asks each path once, in the repository of the first frame on it |
| CodeCheck.HighestRequired | src/dlt/code_check.py:426-457 | the nested loops over probes and candidates compute the highest resolved version, each commit once, "never cut" only when nothing resolved |
| CodeCheck.EvaluateCheck | src/dlt/code_check.py:339-520 | the whole verdict with its unknown cases, as a function of the repository's answers |
| PrecheckVerdicts.ResolutionExactly | src/dlt/code_check.py:276-313 | a commit was never cut, or resolves to a version, exactly by what its change set, the list of the version file and the versions there say |
| PrecheckVerdicts.VerdictByCase | src/dlt/code_check.py:339-520 | the verdict and the required version in every case, in terms of the frames and the answers |
| PrecheckVerdicts.NeverCutExactly | src/dlt/code_check.py:446-465 | NOT_DEPLOYED without a version if and only if no candidate resolves and, for some candidate, nothing that may follow it touches the version file |
| PrecheckVerdicts.NeverCutIsRight | src/dlt/code_check.py:459-465 | with the whole list of bumps, no build cut at a bump contains a candidate that was never cut |
| PrecheckVerdicts.UnknownExactly | src/dlt/code_check.py:341-507 | UNKNOWN if and only if the check is off, the path was not read, the changes are in several repositories, no candidate tells anything, the running builds cannot be read, the version did not move, or no failing build is on record for a fix that runs |
| Deployment.SinceMeaning | src/dlt/bitbucket.py:466-473 | the time filter keeps exactly the commits at or after an instant and those without a readable time |
| Deployment.ResolvesToVersion | src/dlt/code_check.py:276-313 | a resolved version is one the history held, and in general no more |
| Deployment.ResolvesToBump | src/dlt/code_check.py:276-313 | where every edit of the version file is a bump, a resolved version is the version at a bump that is not older than the commit |
| Deployment.ResolvesToFirstBump | src/dlt/code_check.py:276-313 | with the whole list of bumps as well, it is the first such bump |
| Deployment.HighestMeaning | src/dlt/code_check.py:426-457 | the required version is one a candidate resolved to, and no candidate resolved above it |
| Deployment.ChangedAnswersOwn | src/dlt/code_check.py:418-425 | when the changes are in one repository, every probe was answered by that repository, in spite of the memory of paths |
| Deployment.FixDeployedIsSound | src/dlt/code_check.py:476-512 | on any history whose version never decreases, FIX_DEPLOYED implies that every running build contains a resolved candidate whose parent was behind what it resolved to, and everything older, and that the required version is strictly ahead of the baseline |
| Deployment.FixDeployedIsRightExactly | src/dlt/code_check.py:480-512 | FIX_DEPLOYED, whatever builds run, implies that each contains every resolved candidate, if and only if the version at the parent of each was below the required one |
| Deployment.ContainedExactly | src/dlt/code_check.py:276-313 | every build labelled at least a version contains a commit if and only if the version just below that commit was below it |
| Deployment.NotDeployedIsRightExactly | src/dlt/code_check.py:501-520 | NOT_DEPLOYED, whatever builds run, implies that one lacks a resolved candidate, if and only if the version at the newest of those already reached the required one |
| Deployment.VerdictIsExact | src/dlt/code_check.py:426-520 | the verdict is right of every builds that may run, cut from any commits, if and only if both hold: parents behind, and the newest candidate reaching it |
| Deployment.RightExactlyWhenSeparated | src/dlt/code_check.py:426-520 | of builds cut from given commits, the verdict is always right if and only if the version at those commits tells which contain every resolved candidate |
| Deployment.BumpsPutParentsBehind | src/dlt/code_check.py:276-313 | where every edit of the version file is a bump and times can be read, every parent is behind |
| Deployment.BumpBuildsAreExact | src/dlt/code_check.py:426-520 | and with the whole list of bumps the verdict is right of all builds cut at bumps |
| DeploymentCases.ExactVerdictApplies | src/dlt/code_check.py:294-298 | a history, answers and builds that meet every hypothesis and both conditions of the exactness theorems |
| Deployment.NoChangeIsSound | src/dlt/code_check.py:398-412 | NO_CHANGE implies that every commit touching a mapped file, in the repository its path was looked up in, landed before the failure |
| Deployment.NoChangeExactly | src/dlt/code_check.py:341-412 | NO_CHANGE exactly when the check is on, some frame is mapped and every lookup answered with nothing |
| Deployment.NoChangeIsRightExactly | src/dlt/code_check.py:252-273 | NO_CHANGE, whatever the repositories hold, implies that each mapped frame is untouched in its own repository, if and only if no two checked frames share a path and differ in their repository, or one has no path |
| DeploymentCases.UnreadableTimeTakesOldest | src/dlt/code_check.py:299-313 | a commit without a readable time resolves to the oldest listed bump |
| DeploymentCases.UnreadableTimeMisleads | src/dlt/code_check.py:299-313 | a history and answers for which FIX_DEPLOYED is wrong, because the time of the fix cannot be read |
| DeploymentCases.NestedVersionFileMisleads | src/dlt/bitbucket.py:754-760 | a history and answers for which FIX_DEPLOYED is wrong, because a nested version file counts by its name |
| DeploymentCases.TwinPathMisleads | src/dlt/code_check.py:259-271 | answers for which NO_CHANGE is wrong, because the memory is keyed on the path alone |
| Claims.ClaimStore.Create | src/dlt/claims.py:115-118 | create-only: writes exactly when nothing is there |
| Claims.ClaimStore.ClaimCase | src/dlt/claims.py:94-145 | an attempt nobody interferes with: the new claim, the outcome and the holder, other records untouched |
| Claims.WinsExactly | src/dlt/claims.py:124-145 | an uninterrupted attempt wins exactly when its reference passes the analysis check afterwards, and exactly for a free, own or dead claim |
| Claims.UnclaimedMayBeAnalysed | src/api/dlt_routes.py:688-696 | every delivery passes the analysis check while nobody holds the record, and then only the holder |
| Claims.OneWinner | src/dlt/claims.py:111-145 | in every interleaving without a takeover all winning deliveries carry one reference, and exactly that one passes the analysis check |
| Claims.OneWinnerExactly | src/dlt/claims.py:111-145 | in every interleaving, all winning deliveries carry one reference if and only if no takeover occurs |
| Claims.TakeoverIsJustified | src/dlt/claims.py:120-143 | in every interleaving a takeover follows a read of another holder's claim, found unfinished and older than the limit |
| Claims.UninterruptedIsAttempt | src/dlt/claims.py:111-145 | the steps of one delivery taken without a pause are one attempt |
| Claims.MovesAreSteps | src/dlt/claims.py:111-145 | the moves of the uninterrupted record are the steps of the interleaved one |
| Claims.ChangesAreApart | src/dlt/claims.py:130-143 | with attempts uninterrupted, two changes of holder are more than the limit apart |
| Claims.ChangeIsOfHolder | src/dlt/claims.py:124-126 | the claim changes exactly when its holder does: a redelivery of the holder renews nothing |
| Claims.FinishedIsFinal | src/dlt/claims.py:127-128 | with attempts uninterrupted, once the holder has finished no other reference ever passes the analysis check |
| Claims.FinishedHolderLostExactly | src/dlt/claims.py:120-143 | over every interleaving, a finished holder can be replaced if and only if a delivery of another reference is already about to overwrite the claim, or has read one that it would take over |
| Claims.FinishedHolderReplaced | src/dlt/claims.py:127-143 | a run in which the holder finishes between the check of another delivery and its overwrite |
| Claims.TakersAllWin | src/dlt/claims.py:132-143 | any two deliveries that reached the overwrite both win, and only the last passes the analysis check |
| Claims.RacingTakeoversBothWin | src/dlt/claims.py:132-136 | a run in which two references win |
| SingleFlight.FlightTable.Arrives | src/dlt/single_flight.py:96-100 | takes or makes the fingerprint's entry and counts itself in, keeping the gate sound |
| SingleFlight.FlightTable.Acquires | src/dlt/single_flight.py:107-108 | the lock is granted exactly when free |
| SingleFlight.FlightTable.GivesUp | src/dlt/single_flight.py:109-113 | a wait that times out leaves lock and count alone |
| SingleFlight.FlightTable.Exits | src/dlt/single_flight.py:117-122 | releases what it holds, counts itself out, drops an entry nobody is in |
| SingleFlight.StaysSound | src/dlt/single_flight.py:94-122 | every step keeps the gate sound: tickets current, counts exact, one holder per locked entry |
| SingleFlight.OneHolder | src/dlt/single_flight.py:94-122 | in every interleaving the count is the number inside, an entry exists exactly while it is positive, and one fingerprint has at most one holder across deletion and re-creation |
| SingleFlight.StatusSettles | src/dlt/single_flight.py:105-119 | a wait ends once: who holds the gate or gave up stays so until he leaves |
| AnalysisLane.AwaitsExactly | src/dlt/reuse.py:57-103 | a message waits for the cache exactly when it needs the model and any usable recommendation would have been served instead; one is served exactly to a business failure without discrepancy, with reuse on |
| AnalysisLane.UsableExactly | src/dlt/groups.py:242-268 | usable is a draft or final finding with no mark of a discrepancy on it or in its verdict |
| AnalysisLane.DiscrepanciesAreInert | src/api/dlt_routes.py:949-970 | erasing any set of CONTRADICTED or PARTIAL requests from any concurrent run leaves a run in which every other request is decided, gated, served and cached as before |
| AnalysisLane.OnFileExactly | src/api/dlt_routes.py:940-970 | in every run, on file for a fingerprint is what was last written: by another process, or the finding, as a draft with the verdict of its request, of a run on a message without discrepancy that was not withheld and not lost |
| AnalysisLane.ServedIsNeverWithheld | src/api/dlt_routes.py:958-970 | whatever is served was produced by an earlier run of the fingerprint without discrepancy and was neither withheld nor lost |
| AnalysisLane.GatedExactly | src/api/dlt_routes.py:822-825 | only business failures without a discrepancy go through the gate, with gate and reuse on, and a run past it is of a discrepancy |
| AnalysisLane.ModelRunsAreBounded | src/api/dlt_routes.py:822-857 | in one process, gated runs of the model number at most one, plus those that left nothing usable, plus the requests whose wait timed out; when none did, what is served is usable |
| AnalysisLane.RunsExactly | src/api/dlt_routes.py:827-880 | a request counts as a run exactly when at some moment the model was running for it behind the gate, and as late exactly when its wait timed out |
| AnalysisLane.AccountsExactly | src/api/dlt_routes.py:949-970 | what counts as a run without fruit, in the terms of the request and its finding |
| AnalysisLane.ServedUnusableExactly | src/api/dlt_routes.py:798-859 | in every run, with any timeouts, writers and settings, a served recommendation is not usable if and only if the last read of the group for it was the one after the code check and found none usable |
| AnalysisLane.UnrefreshedServedUsable | src/api/dlt_routes.py:827-859 | a request for which no code check was attached is served only what may be served |
| AnalysisLane.ServedOnceUsable | src/dlt/reuse.py:82-103 | once something usable is on file, no gated request is running the model |
| AnalysisLane.BothRun | src/dlt/single_flight.py:109-113 | a run in which a timed-out wait makes two requests of a fingerprint run the model |
| AnalysisLane.TimedOutWaitMisserves | src/api/dlt_routes.py:798-811 | a run in which a request is served a recommendation that explains another occurrence |
| AnalysisLane.OtherWriterMisserves | src/api/dlt_routes.py:798-811 | a run without timeouts in which a write of another process does the same |
| GroupRecord.RecordsFirst | src/dlt/group_store.py:202-244 | after any recordings each case has one object, its first recording |
| GroupRecord.ComposeCounts | src/dlt/group_store.py:356-404 | a composed count and histogram are the legacy ones plus the unlisted objects, whatever the listing order |
| GroupRecord.ComposeCountsChecks | src/dlt/group_store.py:373-377 | each check object counts its verdict once on top of the legacy histogram |
| GroupRecord.ComposesParts | src/dlt/group_store.py:383-414 | recommendation and code check are the stored ones, and the legacy ones exactly where none is stored |
| GroupRecord.MembersExactly | src/dlt/group_store.py:356-407 | the members are the last of the non-blank legacy members followed by the unlisted cases, each once, by time and tiebreaker |
| GroupRecord.NovelExactly | src/dlt/group_store.py:349-353 | a fingerprint is novel exactly when nothing is stored for it |
| GroupRecord.CountsDistinctCases | src/dlt/group_store.py:202-244 | after any recordings with any repetition: legacy count plus the distinct cases not listed by case id or reference, each adding its first verdict once |
| GroupRecord.CountsAgreeExactly | src/dlt/groups.py:164-192 | the old record's count is the new one plus its readmissions |
| GroupRecord.SortsIntoArrivals | src/dlt/group_store.py:166-180 | with ascending stamps the objects sort into the order of arrival |
| GroupRecord.ComposesArrivals | src/dlt/group_store.py:359-407 | with ascending stamps: the distinct cases counted, the newest of them as members in order of arrival, the histogram of their first verdicts |
| GroupRecord.RecordsAgree | src/dlt/groups.py:164-192 | within the cap and with ascending stamps both records agree on count, members and histogram |
| GroupRecord.ReturningCaseCountsTwice | src/dlt/groups.py:172-177 | past the cap they need not agree |
| GroupStore.Process.ReadAll | src/dlt/group_store.py:305-322 | the records of the store, in listing order, whatever the object cache holds or drops |
| GroupStore.Process.LoadGroup | src/dlt/group_store.py:325-418 | the composition of a moment less than the cache's lifetime ago and not before the last write from here; with no other writer, of now |
| GroupStore.Process.Refill | src/dlt/group_store.py:342-418 | a miss composes what is stored now and remembers when |
| GroupStore.Process.RecordOccurrence | src/dlt/group_store.py:202-244 | one create-only object per case, and the group as of this write |
| GroupStore.Process.AttachRecommendation | src/dlt/group_store.py:247-266 | the last writer's recommendation is in the group returned |
| GroupStore.Process.AttachCodeCheck | src/dlt/group_store.py:269-298 | one create-only object per case, and the check just attached is in the group returned |
| GroupStore.Process.Elsewhere | src/dlt/group_store.py:14-22 | other processes create objects and put parts, and every promise of the caches still holds |
| GroupStore.Process.Evict | src/dlt/group_store.py:145-150 | evictions cost no correctness |
| AutoReplay.CheckOnlyVetoes | src/dlt/auto_replay.py:176-268 | a verdict never adds a replay, never changes another reason, and withholds exactly by NO_CHANGE and NOT_DEPLOYED |
| Parked.NotBoth | src/dlt/parked.py:99-115 | no finding is both replayed and parked |
| Parked.ParkedExactlyWhenWithheld | src/dlt/parked.py:118-226 | newly parked exactly when withheld solely by NOT_DEPLOYED with a version, with parking on, a usable key, no entry and room |
| Parked.ParkedQueue.Park | src/dlt/parked.py:118-191 | create-only and capped: exactly when each answer is given, and the whole new entry |
| Parked.ParkedQueue.MaybePark | src/dlt/parked.py:212-226 | parks only what the gate withheld, with its reference, version and time |
| Parked.ParkedQueue.Examine | src/dlt/parked.py:313-360 | what becomes of one waiting entry, and what is sent |
| Parked.ParkedQueue.ReleaseReady | src/dlt/parked.py:286-362 | every waiting entry is dealt with once: the new queue, what was sent, and the summary |
| Parked.SplitsExactly | src/dlt/parked.py:309-316 | a summary splits what it examined exactly into its five counts |
| Parked.QueueIsSafe | src/dlt/parked.py:118-362 | over any parks and releases: each case sent at most once, status only from waiting to released or expired, nothing else of an entry changes, waiting never grows past the cap |
| Parked.LeftExactly | src/dlt/parked.py:318-360 | what a release makes of each waiting entry, outcome by outcome, and all it leaves of it |
| Parked.ParkedComesBack | src/dlt/parked.py:164-191 | a packet parked for a version, whatever is parked and released after it, waits until the first release that finds it overdue, or every pod at the version and gets it queued; that one expires or releases it, and it is sent exactly when released |
| Parked.SentIsDeployed | src/dlt/parked.py:330-351 | whatever pod a released packet lands on runs at least the version it waited for, unless that carries a counter and the lowest build is a bare version tied with a numbered one |
| Parked.DryRunPredicts | src/dlt/parked.py:340-343 | a dry run changes nothing, and its lines are those of the real run exactly when every attempt succeeds |
| Corroborate.NearestOpener | src/dlt/corroborate.py:85-91 | the last record opener at or above a line |
| Corroborate.ScanLines | src/dlt/corroborate.py:168-186 | the one-pass flag gives each line the attribution of the nearest opener above it |
| Corroborate.FindMatch | src/dlt/corroborate.py:273-282 | the first spelling of the root that occurs, on the first line it occurs on |
| Corroborate.Corroborate | src/dlt/corroborate.py:196-418 | the loops together give the verdict that the lemmas below characterise line by line, the unexplained exceptions it rests on, and the lines to check it by |
| Corroborate.CitationsCanBeChecked | src/dlt/corroborate.py:318-322 | the line a match rests on is always cited, and first; no text twice; only the match and error lines; and short of the limit every error line |
| Corroborate.DiscrepancyExactly | src/dlt/corroborate.py:359-388 | a discrepancy exactly when logs could be read and an own error line names an unexplained exception |
| Corroborate.VerdictExactly | src/dlt/corroborate.py:359-388 | each verdict in terms of the lines: whether some line confirms the root and whether some line accuses it |
| Corroborate.NamesExactly | src/dlt/corroborate.py:264-282 | a spelling is found exactly when the text holds the root, the last part of its name, or the business code |
| Corroborate.ForeignExactly | src/dlt/corroborate.py:291-294 | an exception is unexplained exactly when it is not the root, shares no last part with it, and is no link of the chain |
| Corroborate.WeakLinesNeverConvict | src/dlt/corroborate.py:257-263 | blocks of context or of warnings inserted between records, however many, never make a discrepancy |
| Corroborate.OneBlockNeverConvicts | src/dlt/corroborate.py:257-263 | the same for one block, spelled out |
| Corroborate.WeakLinesNeverAcquit | src/dlt/corroborate.py:257-263 | nor do lines inserted between records remove one, unless they say the fetch was skipped or empty |
| Fetcher.Scan | src/log_pipeline/fetcher.py:272-321 | the paging loop ends with the newest documents the cap allows |
| Fetcher.FetchLogs | src/log_pipeline/fetcher.py:266-334 | in ascending order exactly the newest min(total, cap); truncation reported exactly when they reach the cap, and otherwise all of them |
| RateLimiter.PruneIsHarmless | src/api/routes.py:527-527 | pruning early loses nothing that counts later |
| RateLimiter.RecentCounts | src/api/routes.py:527-529 | what pruning keeps is as many as the accepted requests less than a window old |
| RateLimiter.WindowHoldsLimit | src/api/routes.py:529-532 | accepted requests spaced as they are, no window holds more than the limit |
| RateLimiter.Limiter.Evict | src/api/routes.py:517-521 | eviction keeps every later decision |
| RateLimiter.Limiter.Admit | src/api/routes.py:507-532 | the decision is the one the full history makes; an exempt address is never counted |
| RateLimiter.Limiter.AtMostLimitPerWindow | src/api/routes.py:507-532 | after any requests, at most the limit per address in any window |
| PromptFit.RenderAround | src/core/rejection_context.py:327-329 | whatever body a section is given, the text around it is the same |
| PromptFit.ShorterWhenSmaller | src/core/rejection_context.py:353-355 | a smaller count is never printed longer |
| PromptFit.TrimmedFits | src/core/rejection_context.py:345-361 | the trimmed logs fit the room exactly when the logs or the omission notice do |
| PromptFit.FitIsExact | src/core/rejection_context.py:332-364 | the prompt is within the cap exactly when they do, so always with the least room left; every other section survives verbatim |
| PromptFit.NothingDroppedUnsaid | src/core/rejection_context.py:353-357 | of logs that do not fit where there is room, both ends are kept, the count as printed makes up the rest, and all but one character and the unneeded digits of the room is used |
| PromptFit.KeptWholeOrOmitted | src/core/rejection_context.py:345-360 | logs that fit are kept whole, and replaced outright exactly where there is too little room |
| PromptFit.SectionSurvives | src/core/rejection_context.py:327-364 | every other section is in the prompt verbatim, under its heading |
| PromptFit.DecimalReadsBack | src/core/rejection_context.py:353-355 | the count is printed in digits without a leading zero and reads back |
| AgentPublication.RejectionLaneIsSafe | src/core/agent_orchestrator.py:996-1011 | in every interleaving the graph returned was built no earlier than the catalog and prompts its reader validated |
| AgentPublication.ReturnedIsMatched | src/core/agent_orchestrator.py:984-1000 | whatever the order, a reader is handed a graph that was built, and without the lock has validated prompts of the revision it took |
| AgentPublication.SafeExactlyWhenGraphFirst | src/core/agent_orchestrator.py:2077-2079 | among all orders of the three assignments, exactly those that assign the graph first are safe |
| AgentPublication.DeadLetterLaneIsNot | src/dlt/orchestrator.py:349-349 | a run in which the dead-letter lane hands out a graph older than the catalog validated |

## Left out

- Model calls, prompts' wording, service packs, tracing and metrics: a finding is an arbitrary value.
- HTTP, Kafka, Kubernetes, Elasticsearch and Bitbucket transport, and the storage backends: foreign calls.
- Store errors: claims, group writes and parking fail open or log on an error; the theorems are about stores that answer.
- Parsing of version strings: versions arrive parsed, and a version file that does not parse is an unreadable one.
- Resolving a frame to a file of a repository: taken as given, and a failed lookup there is an unmapped frame.
- The time-limited memory of repository reads in `src/dlt/bitbucket.py`: answers are one consistent set per check.
- Deployment.FixDeployedIsSound: about candidates whose version was resolved, as candidates that were never cut or could not be read are skipped once another resolves; the exactness theorems are about those too, on histories whose version never decreases and whose versions are uniform in carrying a counter.
- Redaction of unterminated or malformed text, of keys holding a quote or backslash, of keys that begin with a bracket, a comma or a colon, and of trees whose strings spell a quote other than in the text of a tree: there the scanner's extents are proved, the rewriting of the whole text is not.
- Case folding in the key pattern: listed keys are a predicate on the key as it stands in the text.
- Aliases of a record, and the wording of outcomes: operator conveniences.
- The budget of a wait or a run: whether one times out is the environment's choice.
- AnalysisLane.DiscrepanciesAreInert: about the recommendation served and the need for the model; the occurrence counts quoted in fixed treatments do count every occurrence.
- Descriptive fields of a group (signature, class, first and last seen) and the cleaning of a corrupt legacy record: passed through.
- Threads inside one group-store operation: a load that began before a write can refill the cache after it; here an operation is one step.
- The order in which a release goes through the queue: any order of the waiting entries, of which oldest-first is one.
- Parks of one case racing each other: a park is one step.
- Corroborate.Corroborate: frame hits and the set-aside details, which no verdict rests on, are not modelled, and exception names are read line by line.
- The late-result guard and status files: check-then-write, without a guarantee over a whole run.
- Path listing, deployed versions, registries, headers, windows, identity, classification and supervision: table look-ups or single branches, which would add only easy members.
