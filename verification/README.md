# Revera: a verified model

This project models the parts of Revera, an automated code reviewer for pull requests, whose
correctness does not show from any one function, and proves what they promise. Functions and lemmas
model the code that computes; classes, methods and loops model the code that changes things in place,
and each such method is proved against a specification function or a stated property.

Verify the whole project with `dafny verify dfyconfig.toml` (Dafny 4.11).

## What is modelled

**Scoring.** `Matching` is the augmenting-path matching both scorers run: a recursive search over a
shared `seen` set and `owner` map. A *dead region*, which no augmenting path can leave, shows that the
result is maximum. `Scoring` and `Classification` are the accounting on top, which depends on
maximality: "matched other defect" is a true label, and a finding is called a duplicate exactly when
the matching left it out although it matches a confirmed defect.

**Secrets.** `Redaction` is the registry of secrets behind a cached matcher. Its meaning is a history of
events; every matcher handed out, cached or rebuilt, masks exactly what that history makes live.
`Masking` is the masker: both ways of finding occurrences fill the same table, and the output has one
marker for each chain of strictly overlapping occurrences.

**The agent loop.** `Transcript` and `AgentLoop` model the budgeted conversation with a model provider.
For every behaviour of the provider and the tools the loop ends, within `max_tool_calls + 4` requests
and `total + 20 s + 2 d` of time, where `d` is the longest any await ran past its limit; every request
carries a transcript in which all earlier tool calls are answered. What the loop does next - ask, run
tools, send the notice, repair, nudge, remind or end - is stated as a law on the trace of a run alone, and
every run obeys it: a submission that the check accepts is the last thing asked for and is what the run
returns, and a request for a repair carries the error of the check.

**The life of a finding.** `Findings` and `Grouping` (collapsing), `Canonicalization`, `Dedup` (duplicate
judgment),
`ReviewState` (the tracked findings and their public projection), `ReviewRun` (validator sessions,
rechecks, severity gates, state update), `Anchoring` (which findings are shown inline), `Publication`
(inline comments and their markers) and `ReviewHistory` (any number of runs, from rechecks to saved
state). After a run the open ids are exactly the published findings and the carried ones; nothing below
the severity threshold is handed to a validator or reported. Once a run's review has landed, every finding
it shows inline is on the pull request unless state called it posted before, and nothing else is. Over any
number of runs, whatever fails and whatever saved state is lost, no finding is commented on twice
exactly when no run plans a finding whose comment is there and which pruning has dropped; none does
while every run ends with at most 200 open or uncertain findings.

**Printers and parsers.** `UnifiedDiff`, `DiffReading`, `DiffNumbering` and `DiffRoundTrip` prove
exactly when parsing a rendered diff gives it back, and `GitDiffs` what parsing makes of the diffs that git
prints; `Budgeting` and `DiffBudget` model the greedy byte
budget; `Decimal` and `EvidenceRefs` the stored evidence references; `CodeSpans` and `FencedBlocks` the
delimiters around literal text, read by CommonMark 0.31.2, sections 6.1 and 4.5; `Suggestions` the check
on suggested replacements and what a comment shows of one that passes.

**Delivery.** `Delivery` models the non-forced fast-forward of an approved branch against other pushers
on an acyclic commit graph, and the search for a free branch name.

`Counterexamples` collects concrete inputs on which a promise fails. `TextOps`, `Places`
and `Wrappers` hold string operations, lists of positions, and the option and result types.

## What the proofs found

- With more than 200 open or uncertain findings, pruning drops the oldest of them, and a finding that
  is dropped while its comment is on the pull request can be commented on again.
  `ReviewState.PruneKeepsExactly` says which ones are kept, `ReviewHistory.RepostsExactly` and
  `ReviewHistory.OnceExactly` when a run and any number of runs comment twice, and
  `Counterexamples.SecondComment` gives a run that does.
- The duplicate judge may name a carried finding that the run then loses. `ReviewRun.Finish` states that
  every duplicate refers to a publishable finding of the report or to an id carried when the judge was
  asked, and that such an id is in the report's carried list exactly when no accepted recheck of it is
  below the severity threshold and it is among the newest 200 open or uncertain entries. Otherwise
  neither the carried finding nor its new duplicate is reported (`ReviewRun.DuplicateOfDemoted`;
  `Counterexamples.BothLost` is such a run).
- A stored evidence reference reads back exactly when its path holds no colon followed by digits and a
  space (`EvidenceRefs.RefRoundTrip`).
- A code span fails to show its text when the text is empty, or is white space other than spaces with a
  space at both ends: the code asks whether the trimmed text is empty where CommonMark asks whether the
  text is all spaces (`CodeSpans.CodeSpanRoundTrip`).
- A deleted line that starts with "-- ", or an added one that starts with "++ ", is read back as a file
  header (`DiffRoundTrip.RoundTrip`, `Counterexamples.DeletedDashes`).
- Where git prints a name that holds a space without quoting it, a new or deleted file gets a wrong path on
  the side that `/dev/null` stands for, and a file without hunks - empty, binary, or changed in mode only - on
  both sides. A move without changes loses a leading "a/" or "b/" of a path. `GitDiffs.PathsRead` is the exact
  condition; `Counterexamples.SpacedName` and `Counterexamples.MovedInsideA` are inputs.
- A branch that was moved back behind the approved head between the check and the update is advanced
  all the same (`Delivery.AdvancesExactly`).

## Model

| member | source | states |
|---|---|---|
| `Matching.Matcher.Augment` | eval/score.py:71-79 | A search that fails leaves `owner` as it was and closes what it saw; one that succeeds adds one vertex, keeps everything matched and never enters the dead region; `seen` only grows, so it ends |
| `Matching.MaximumMatching` | eval/score.py:63-83 | The owner map is a matching along candidate edges and no matching is larger |
| `Matching.SearchNext` | eval/prs/score.py:44-61 | Each round of the loop keeps the region and matches or kills one more left vertex |
| `Matching.OtherIsSmall` | eval/score.py:63-83 | Any other matching has at most one edge per dead right vertex and one per live left vertex |
| `Matching.OwnerIsLarge` | eval/score.py:63-83 | The owner map has at least that many |
| `Matching.DeadRegionBound` | eval/score.py:81-83 | Once every defect is matched or in the dead region, the owner map is maximum |
| `Scoring.MatchFindings` | eval/score.py:63-83 | The association returned is a maximum pairing of defects and findings |
| `Scoring.NoFreePair` | eval/score.py:63-83 | A match of a defect left out is always taken by another defect |
| `Scoring.SelectionMatchesNoMore` | eval/score.py:141-145 | Inline findings cannot match more defects than all accepted ones: `tp_inline <= tp` |
| `Scoring.Score` | eval/score.py:114-149 | `tp + fn` is the number of defects, `tp + fp + extra_valid` the number of accepted findings; both matchings are maximum, `tp_inline <= tp`, one stage per missed defect |
| `Scoring.CountExactly` | eval/score.py:139-149 | What is counted are the elements at unused places that satisfy the test, each once |
| `Scoring.DownDecides` | eval/score.py:33-44 | The first finding turned down that matches a missed defect gives its stage |
| `Scoring.AcceptedDecides` | eval/score.py:45-47 | Without one, the stage is "matched other defect" exactly when an accepted finding matches |
| `Scoring.DropDecides` | eval/score.py:48-60 | And without that it is the first recorded drop that matches, or none was ever proposed |
| `Scoring.StageAt` | eval/score.py:149 | The stages are listed in the order of the missed defects |
| `Scoring.OtherDefectIsTrue` | eval/score.py:33-60 | "matched_other_defect" names an accepted finding that matches the missed defect and was given to a different one |
| `Classification.LabelOf` | eval/prs/score.py:64-97 | Which defect, of which kind, decides the bucket of an unmatched finding |
| `Classification.Classify` | eval/prs/score.py:64-97 | Every finding is matched or in exactly the bucket of its label, once |
| `Classification.DuplicatesAreHit` | eval/prs/score.py:64-97 | A finding is called a duplicate exactly when it is unmatched and matches a confirmed defect, and then every confirmed defect it matches is hit by another finding |
| `Redaction.Registry.Register` | src/redact.rs:35-41 | Appends to the history; the tables and the cache still represent it |
| `Redaction.Registry.RegisterUntil` | src/redact.rs:42-62 | The same for an expiring value, through pruning, promotion and extension without a rebuild |
| `Redaction.Registry.AddScoped` | src/redact.rs:63-70 | The same for an opened scope |
| `Redaction.Registry.RemoveScoped` | src/redact.rs:71-80 | The same for a closed scope; the count never underflows |
| `Redaction.Registry.GetMatcher` | src/redact.rs:89-106 | The matcher handed out masks exactly the live values, and is the cached one while none of its values has expired |
| `Redaction.Registry.SharedMatcher` | src/redact.rs:208-220 | So does the one the read-locked fast path hands out without pruning, and then no table changes |
| `Redaction.Earliest` | src/redact.rs:89-106 | The expiry stamp is the least deadline in the table |
| `Masking.OccurrenceOnBoundaries` | src/redact.rs:143-196 | An occurrence of a whole-character secret starts and ends at character boundaries |
| `Masking.EncodedIsUtf8` | src/redact.rs:143-196 | The UTF-8 encoding of every code point is what these results take for whole characters |
| `Masking.Utf8Append` | src/redact.rs:143-196 | And so are two sequences of whole characters together, so every text is |
| `Masking.NextStart` | src/redact.rs:160-168 | Advancing by one character after an occurrence misses none |
| `Masking.ReachByScanning` | src/redact.rs:158-171 | The fallback scan fills the table for exactly all occurrences |
| `Masking.ReachByAutomaton` | src/redact.rs:152-157 | The automaton's hits fill it for the same |
| `Masking.Render` | src/redact.rs:172-196 | The nested loops write the masked form of the text |
| `Masking.OneMarkerPerChain` | src/redact.rs:172-196 | Two covered bytes share a marker exactly when a chain of strictly overlapping occurrences connects them |
| `Masking.Mask` | src/redact.rs:143-196 | Both branches return the masked form, which depends on the set of secrets only |
| `Transcript.PushAnswered` | src/agent.rs:409-524 | An assistant message with answers to all its calls keeps a transcript valid |
| `Transcript.RepairAnswers` | src/agent.rs:419-434 | The rejected terminal call and its siblings are all answered, once each when ids differ |
| `AgentLoop.SoftDeadline` | src/agent.rs:192-216 | It lies in the second half of the budget and leaves room for two of the slowest replies |
| `AgentLoop.SoftDeadlineMonotone` | src/agent.rs:213-216 | Slower replies never move it back |
| `AgentLoop.SoftLeft` | src/agent.rs:218-223 | An ordinary wait never runs past the budget |
| `AgentLoop.SoftDeadlineIs` | src/agent.rs:205-216 | It is the latest time that leaves the reserve and room for two of the slowest replies, or half of the budget |
| `AgentLoop.ReserveIs` | src/agent.rs:196-199 | The reserve: a quarter of a short budget, then ten seconds, a fifth, and at most ninety seconds |
| `AgentLoop.CarriesExactly` | src/agent.rs:353-410 | What a reply submits: its first call of the terminal tool, or its text if it has no calls |
| `AgentLoop.TopOfLoop` | src/agent.rs:234-261 | The notice is sent exactly when the time or the tool budget is up, and uses up no further request |
| `AgentLoop.HandleTimeout` | src/agent.rs:315-334 | A timed-out request brings the notice, or the end after the notice |
| `AgentLoop.HandleText` | src/agent.rs:353-406 | Text is a submission, a repair, a nudge, a reminder or the end; each continuation uses up an allowance |
| `AgentLoop.HandleTerminal` | src/agent.rs:409-435 | A terminal call ends the run or is repaired once, with every call answered |
| `AgentLoop.HandleLateCalls` | src/agent.rs:440-470 | Calls after the notice are answered, never run |
| `AgentLoop.HandleCalls` | src/agent.rs:474-524 | The calls the budget allows run exactly while the soft deadline has not passed, all of them are counted, and every call is answered: with its result, or with a refusal |
| `AgentLoop.GraceElapsed` | src/agent.rs:263-283 | A run in budget but for one grace request ends by `total + 20 s + 2 d` |
| `AgentLoop.RunAgentChecked` | src/agent.rs:162-526 | Every run ends: at most `max_tool_calls + 4` requests, within time, each with a valid transcript that the next ones extend; every action and its limit is the one the trace before it calls for, the reason it gives is the one its last reply calls for, an accepted submission is the last thing asked for and is returned, and every repair answers a rejected submission with the error of the check |
| `AgentLoop.AcceptsEnd` | src/agent.rs:341-418 | A reply with a submission that the check accepts is the last action of the run, which stops as Terminal with that submission |
| `AgentLoop.RepairsAreAnswers` | src/agent.rs:341-435 | A repair message answers a submission that the check rejects and carries its error, and no rejected submission but the last message goes without one |
| `Decimal.ParseOfPrint` | src/state.rs:98-109 | A printed 32-bit number parses back |
| `EvidenceRefs.RefRoundTrip` | src/state.rs:98-158 | A stored reference reads back to its path exactly when the path does not look like a line reference, and then line and note come back too |
| `Findings.Collapse` | src/findings.rs:281-329 | The loop computes the collapsed list |
| `Findings.CollapsedIsDuplicateFree` | src/findings.rs:281-329 | No element of the result duplicates an earlier one, and each lists its own source |
| `Findings.CollapsedRepresents` | src/findings.rs:281-329 | Every candidate has an element in its file, at least as severe, with its sources and evidence |
| `Findings.CollapseIdempotent` | src/findings.rs:281-329 | Collapsing twice is collapsing once |
| `Grouping.DuplicatesExactly` | src/findings.rs:253-295 | Two findings are merged exactly when they are in one file and have one key, or overlap with titles that share at least 0.6 of the longer one's words |
| `Grouping.OverlapIsShared` | src/findings.rs:261-265 | Findings on line ranges overlap exactly when a line is in both |
| `Grouping.CollapsedExactly` | src/findings.rs:281-329 | The result has one finding a group - each candidate joins the first group whose first member it is like - with the place of the first member, the highest severity, the longest claim, the first category and fix given, and the sources and evidence of the group and no others |
| `Findings.EvidenceOnce` | src/findings.rs:305-311 | No evidence is added that is there already |
| `Findings.SourcesOnce` | src/findings.rs:312-316 | Nor any source |
| `Canonicalization.CollapsedIdsDistinct` | src/findings.rs:281-329 | Their ids are distinct if no two pairs of file and defect key share an id |
| `ReviewState.StoredReadsBack` | src/state.rs:82-168 | A finding read back from state has its id, place, title and severity, and its evidence so far as references read back |
| `ReviewState.StoredKeeps` | src/state.rs:82-168 | Storing and reading back keeps all but the verdict, the fix and the sources, with the claim clipped and the first six pieces of evidence |
| `ReviewState.TrackedExactly` | src/state.rs:314-334 | An id counts as tracked or posted by what its one entry says |
| `ReviewState.Tracker.Upsert` | src/state.rs:345-363 | The new list, and that a closed finding coming back is reported as reopened |
| `ReviewState.Tracker.MarkPosted` | src/state.rs:366-373 | Exactly the entries named become posted |
| `ReviewState.Tracker.Prune` | src/state.rs:290-305 | The loop computes the pruned list |
| `ReviewState.LookUpserted` | src/state.rs:345-363 | An upsert sets one id's standing and leaves every other id as it was |
| `ReviewState.UpsertedOrder` | src/state.rs:345-363 | Every entry keeps its place, and a new one goes to the end |
| `ReviewState.UpsertedKeepsConsistent` | src/state.rs:345-363 | Ids stay unique, and each is the id of the finding stored under it |
| `ReviewState.PrunedKeepsNewestLive` | src/state.rs:290-305 | Pruning keeps the newest 200 open and uncertain entries |
| `ReviewState.PruneLosesNothingLive` | src/state.rs:290-305 | None of them is lost exactly when there are at most 200 |
| `ReviewState.PruneKeepsExactly` | src/state.rs:290-305 | An id is open or uncertain after pruning exactly when one of the newest 200 live entries has it, and then its entry is unchanged |
| `ReviewState.OldestGoes` | src/state.rs:290-305 | With more than 200 entries, all live, the oldest is not kept |
| `ReviewState.LookPruned` | src/state.rs:290-305 | Then every live id keeps its entry |
| `ReviewState.ProjectedKeepsRecord` | src/state.rs:229-251 | The public projection keeps every open entry and, for every id, whether it is posted and live |
| `ReviewState.ProjectedKeepsConsistent` | src/state.rs:229-251 | It keeps ids unique and true to their findings |
| `ReviewState.ProjectedExactly` | src/state.rs:229-251 | What is stored of every entry, by its standing |
| `ReviewState.ProjectedInOrder` | src/state.rs:229-251 | The projection keeps the order, by which pruning later goes |
| `ReviewState.ProjectedOnce` | src/state.rs:229-251 | Projecting twice is projecting once |
| `Dedup.CheckGroups` | src/pipeline/dedup.rs:107-125 | Groups are accepted exactly when each has two refs, all refs are known and none repeats |
| `Dedup.Apply` | src/pipeline/dedup.rs:88-183 | Bad groups change nothing; good ones drop exactly the returned number of publishable findings, and findings outside groups are untouched |
| `Dedup.CarriedGroupOutcome` | src/pipeline/dedup.rs:154-181 | Every new finding of a group with a carried one refers to the carried finding of least index in the group, and keeps all else |
| `Dedup.NewGroupOutcome` | src/pipeline/dedup.rs:143-181 | Without one, the earliest of the most severe stays and only gains evidence, and every other refers to it |
| `Dedup.WinnerGathers` | src/pipeline/dedup.rs:160-176 | It gains the places that the others bring, and nothing else |
| `Dedup.PlacesOnce` | src/pipeline/dedup.rs:168-176 | No place is added that is there already |
| `Dedup.WinnerIsMostSevere` | src/pipeline/dedup.rs:143-153 | A group of new findings keeps the earliest of its most severe members |
| `Dedup.NewGroupKeepsWinner` | src/pipeline/dedup.rs:154-181 | That member stays publishable, and every other one refers to it |
| `Dedup.DuplicateTargets` | src/pipeline/dedup.rs:154-181 | A duplicate refers to a carried id or to another finding that is still publishable |
| `Canonicalization.Canonicalize` | src/pipeline/common.rs:720-753 | The loop with its position map computes the canonical list |
| `Canonicalization.CanonicalIds` | src/pipeline/common.rs:720-753 | Ids become distinct and none is lost |
| `Canonicalization.CanonicalKeepsAccepted` | src/pipeline/common.rs:717-753 | An id is publishable afterwards exactly when some finding with it was |
| `Canonicalization.CanonicalKeepsEvidence` | src/pipeline/common.rs:724-746 | The finding that stands for an id has the evidence and sources of every finding with that id |
| `Canonicalization.CanonicalExactly` | src/pipeline/common.rs:717-753 | One finding stands for all with its id: the first publishable one, or else the first, with the evidence and sources of all and no others |
| `Canonicalization.CanonicalOrder` | src/pipeline/common.rs:720-753 | The ids come in the order in which they first appear |
| `Canonicalization.AddedOnce` | src/pipeline/common.rs:736-746 | No evidence is added that is there already |
| `ReviewRun.Validate` | src/pipeline/validate.rs:212-330 | Every finding gets what its own session gives it: only a well-formed, explained verdict can accept it or change it, anything else leaves it uncertain with nothing changed, and the run is clean exactly when every session gave such a verdict |
| `ReviewRun.Recheck` | src/pipeline/common.rs:611-652 | Every open or uncertain entry is open after an accepted recheck, resolved after a rejected one and uncertain otherwise, the others stay, and only findings this run accepted are open |
| `ReviewRun.Gather` | src/pipeline/common.rs:765-829 | The run's findings: collapsed, gated, untracked or coming back, judged, one an id; every recheck that comes back is among them |
| `ReviewRun.ReviewedFrom` | src/pipeline/common.rs:765-829 | What is handed to a validator session: exactly the collapsed candidates that reach the threshold and are not tracked open or whose id comes back from a recheck; and which rechecks come back |
| `ReviewRun.JudgeDuplicates` | src/pipeline/common.rs:864-867 | Good groups are applied, bad ones and a failed judgment change nothing, and a duplicate refers to a carried id or to a finding that stays |
| `ReviewRun.UpdateState` | src/pipeline/common.rs:904-936 | Where every id stands, and what its entry says, after the removal of duplicates, the demotions and the upserts; what stays keeps its order, and what is new follows in the order of the report |
| `ReviewRun.SettledAccounts` | src/pipeline/common.rs:904-959 | The open ids are exactly the publishable findings of the report and the carried ones |
| `ReviewRun.PrunedAccounts` | src/state.rs:290-305 | Pruning keeps that identity while at most 200 entries are live |
| `ReviewRun.CarriedIs` | src/report.rs:230-240 | A carried id is open, posted and not in the report |
| `ReviewRun.CarriedInOrder` | src/report.rs:230-240 | The carried ids, by whose places the duplicate judge names them, come in the order of the state |
| `ReviewRun.PostedNotReviewed` | src/pipeline/common.rs:775-797 | A posted id that is tracked open is never among the findings a run reviews |
| `ReviewRun.CarriedSurvives` | src/pipeline/common.rs:833-959 | A carried id that the run does not report is carried in the report exactly when no accepted recheck of it fell below the threshold and pruning keeps it |
| `ReviewRun.DuplicateOfDemoted` | src/pipeline/common.rs:833-867 | A duplicate of a finding demoted in the same run is reported nowhere, and neither is its target |
| `ReviewRun.Finish` | src/pipeline/common.rs:758-959 | All of this for a whole run: everything reported reaches the threshold, and an id is reported exactly when its reviewed finding does; which ids fell below it, where every id stands, what its entry says and in which order, the accounting identity, that every duplicate refers to a publishable finding or an id carried when the judge was asked, and exactly when such an id is still carried in the report |
| `ReviewRun.ReportedIds` | src/pipeline/common.rs:869-902 | The report has a finding, and a publishable one, for exactly the ids that had one before placement |
| `ReviewRun.ReportOrder` | src/pipeline/common.rs:869-902 | The publishable findings come first and the others after them, each in order, and only the end lines of the former may go |
| `Anchoring.Anchor` | src/pipeline/anchor.rs:23-83 | Every finding keeps its place in the list, its end line exactly if that is a head-side line of the diff not before its start; only findings that are on the head side and severe enough are inline, at most `max` of them, and one of these that is not gave way to `max` others that are more severe, or as severe and earlier by file, line and position |
| `Anchoring.OnHeadSideExactly` | src/diff.rs:49-70 | A line is on the head side exactly when a hunk of the first file with that path has a line of that new number which is not deleted |
| `Anchoring.InlineAreFirst` | src/pipeline/anchor.rs:64-82 | An eligible finding sent to the summary gave way to `max` findings that come before it |
| `Anchoring.RankOrderOrdered` | src/pipeline/anchor.rs:64-77 | The ranking is a stable sort |
| `Publication.MarkerRoundTrip` | src/github/publish.rs:97-105 | The marker appended to a comment is the one read back, whatever the prose says |
| `Publication.MarkerExactly` | src/github/publish.rs:97-105 | The id read from a comment is the one in the marker that is its last line but for white space, and there is none without such a marker |
| `Publication.OnPullRequestIsPosted` | src/github/publish.rs:185-201 | An id already on the pull request counts as posted exactly when it is tracked open |
| `Publication.Publish` | src/github/publish.rs:151-265 | What is on the pull request and what is marked posted after each outcome of the review POST |
| `Publication.PostsExactly` | src/github/publish.rs:182-230 | A planned finding that had no comment gets one in a publish that lands exactly if state did not call it posted and fewer than `max` wanted comments precede it |
| `Publication.PostsOnlyPlanned` | src/github/publish.rs:182-230 | Nothing else appears: what was there stays, and the rest are planned comments of ours, from a fresh and listed publish that landed |
| `Publication.PostsInOrder` | src/github/publish.rs:193-213 | The new comments come in the order of the plan |
| `Publication.SucceedsExactly` | src/github/publish.rs:182-265 | Which publishes fail |
| `Publication.ConfirmedExactly` | src/github/publish.rs:185-262 | Which ids state then marks as posted |
| `Publication.ConfirmedIsPosted` | src/github/publish.rs:182-265 | A finding is marked posted only if its comment is there |
| `Publication.PublishKeepsDistinct` | src/github/publish.rs:182-265 | One publish never leaves two of our comments for one id |
| `Publication.NeverTwice` | src/github/publish.rs:134-265 | Nor do any number of them, with other people's comments in between |
| `Publication.PlanOfRun` | src/pipeline/common.rs:880-903 | The plan of a run whose report accounts for the state has distinct ids, each tracked open |
| `Publication.DuplicateExactlyWhenUntracked` | src/github/publish.rs:185-230 | A comment is posted twice exactly when an id already there is planned and not tracked |
| `ReviewHistory.StoredIsConsistent` | src/github/publish.rs:281-300 | What the summary comment stores, once everything shown counts as posted, has unique ids, each that of its finding |
| `ReviewHistory.StoredExactly` | src/github/publish.rs:281-300 | What is stored of every entry: it counts as posted if it did or if the report shows it |
| `ReviewHistory.InlineIdsAnchored` | src/pipeline/common.rs:869-902 | The comments planned are those of the findings that `anchor` places inline |
| `ReviewHistory.InlineIdsExactly` | src/pipeline/common.rs:880-903 | They are the ids of the findings at the places that `anchor` marks inline |
| `ReviewHistory.PlanFits` | src/pipeline/anchor.rs:78-82 | A run never plans more inline comments than it may post |
| `ReviewHistory.InlineIsPosted` | src/github/publish.rs:182-230 | Once a run's review has landed every finding its report shows inline is on the pull request, unless state called it posted before |
| `ReviewHistory.OnlyInlinePosted` | src/github/publish.rs:182-230 | Every comment that was not there before is that of such a finding |
| `ReviewHistory.ReviewOnce` | src/pipeline/common.rs:611-959 | One run from any consistent saved state: its publish is that of a report and a state that account for each other, and what it saves before, after and in the summary comment |
| `ReviewHistory.ReviewMany` | src/cli.rs:596-760 | The comments after any number of runs, each from any state an earlier one saved on disk or in the summary comment, or from none |
| `ReviewHistory.RepostsExactly` | src/github/publish.rs:182-265 | A run leaves two of our comments for one finding exactly when its review lands and plans a finding whose comment is there and which pruning dropped |
| `ReviewHistory.OnceExactly` | src/github/publish.rs:134-345 | Any number of runs leave none exactly when no run does that |
| `ReviewHistory.NeverTwiceOverRuns` | src/github/publish.rs:134-345 | So they leave none while every run ends with at most 200 open or uncertain findings |
| `UnifiedDiff.RenderFile` | src/diff.rs:215-234 | The pushes write the header, each hunk header and each line, in order |
| `UnifiedDiff.ParseUnified` | src/diff.rs:541-668 | The loop computes the parse |
| `DiffReading.HunkHeaderParses` | src/diff.rs:438-455 | A printed hunk header parses to its four numbers |
| `DiffReading.RereadIsSame` | src/diff.rs:504-528 | A file header reads back exactly when its paths hold no white space and the status is plain |
| `DiffReading.FoldAll` | src/diff.rs:541-668 | Reading the rendered lines of files whose bodies are readable appends exactly those files |
| `DiffNumbering.ParsedIsNumbered` | src/diff.rs:541-668 | Whatever the text, every parsed hunk numbers its lines consecutively from its header's starts |
| `DiffNumbering.ParsedCounts` | src/diff.rs:618-661 | The number of a line on a side is the start of that side plus the lines on it before, modulo 2^32 |
| `DiffNumbering.FoldSize` | src/diff.rs:541-668 | Parsing never yields more hunk lines than the text has lines that are no header |
| `DiffRoundTrip.RoundTrip` | src/diff.rs:163-165 | Parsing a rendered set gives it back exactly for readable sets: plain status, paths without white space, consecutive numbering, 32-bit headers, no text that ends in a carriage return or renders like a header |
| `GitDiffs.BodyReads` | src/diff.rs:618-661 | The body of a hunk is read by the first character of each line, in order |
| `GitDiffs.MarkerIgnored` | src/diff.rs:623-626 | A line that starts with a backslash changes nothing, wherever it is put in |
| `GitDiffs.AtLineReads` | src/diff.rs:438-455 | The line before a hunk gives its ranges, with length 1 where none is printed |
| `GitDiffs.GitReads` | src/diff.rs:541-668 | What git prints for any files is read as a file for each, with its status, its ranges and the lines of its hunks |
| `GitDiffs.PathsRead` | src/diff.rs:456-605 | Exactly when the old and the new path of each file are right |
| `GitDiffs.QuotesPossible` | src/diff.rs:466-503 | There is a way to print and quote names that is as these results assume |
| `GitDiffs.ReplacedLine` | src/diff.rs:623-643 | One line replaced in a file without a line feed at its end: the new line is line 1 |
| `Budgeting.OrderIsStable` | src/diff.rs:178-179 | Files are taken in stable priority order |
| `Budgeting.UsedIsWritten` | src/diff.rs:180-192 | What the selection reckons is what is written, and what is kept whole fits the budget |
| `Budgeting.AllChosen` | src/diff.rs:177-193 | Everything is kept exactly when everything together fits |
| `DiffBudget.SelectedFiles` | src/diff.rs:177-193 | The loop selects exactly the chosen files |
| `DiffBudget.RenderTruncated` | src/diff.rs:203-213 | The text is each file or its note, in position order |
| `DiffBudget.OmittedFiles` | src/diff.rs:168-175 | The omitted paths are those of the files not chosen |
| `DiffBudget.TruncatedLength` | src/diff.rs:177-213 | The length of the text is the selected renderings plus the notes, as reckoned in priority order |
| `DiffBudget.BytesCount` | src/diff.rs:180-192 | Lengths are counted in bytes of UTF-8 |
| `DiffBudget.FitsAtTurn` | src/diff.rs:184-191 | A file is omitted exactly when it did not fit at its turn |
| `DiffBudget.DependsOnEarlier` | src/diff.rs:177-193 | A file's fate depends only on itself and the files before it by priority and position |
| `DiffBudget.CompleteWhenItFits` | src/diff.rs:163-213 | Nothing is omitted, and the text is the plain rendering, exactly when that fits |
| `DiffBudget.OmittedAndChosen` | src/diff.rs:168-175 | Selected and omitted files partition the set |
| `CodeSpans.CodeSpanRoundTrip` | src/report.rs:350-369 | A text is the content of the one span read back exactly when it is neither empty nor an odd blank |
| `CodeSpans.NeutralHasNoOpener` | src/report.rs:350-353 | No comment opener survives, so text cannot forge a marker |
| `CodeSpans.NeutralBreaks` | src/report.rs:350-353 | The first opener is broken in the middle with nothing changed before it, and then the next |
| `CodeSpans.ShownPlain` | src/report.rs:350-353 | A text of one line that opens no comment is shown as it is |
| `CodeSpans.ShownIsInert` | src/report.rs:350-353 | What a span shows is one line without a comment opener |
| `FencedBlocks.FencedRoundTrip` | src/report.rs:392-411 | A fence longer than every run of its text is closed by nothing in it |
| `FencedBlocks.ClosesExactly` | src/report.rs:392-411 | What closes a fence: at most three spaces, enough backticks, and nothing but spaces and tabs |
| `FencedBlocks.FixBlockRoundTrip` | src/report.rs:392-399 | The suggested remedy is read back line for line |
| `FencedBlocks.SuggestionRoundTrip` | src/report.rs:400-410 | A suggestion block holds exactly the replacement's lines if and only if the replacement is not empty |
| `Suggestions.PassedReadsBack` | src/findings.rs:203-243 | Every suggestion that passes the check is read back line for line from the comment that shows it |
| `Suggestions.PassedIsShown` | src/pipeline/anchor.rs:37-50 | Anchoring keeps the range of its finding, so the comment stands on exactly the suggested lines, shows the suggestion, and may be inline unless it is not severe enough |
| `Suggestions.PassedReplacesLines` | src/findings.rs:240-242 | What it replaces is whole lines of the file at the place it names, and the rest of the file is around them |
| `Suggestions.PassesExactly` | src/findings.rs:203-243 | Exactly when a suggestion passes: for the lines of an accepted finding, at most ten, small, clean, not in a sensitive file, all added by one hunk, and quoting what stands on these lines of the file |
| `Delivery.NoTwoWays` | src/fix/deliver.rs:270-306 | Two commits that reach each other are one commit |
| `Delivery.AdvancesExactly` | src/fix/deliver.rs:279-305 | The update is possible exactly when the branch is at our commit, at the approved head or behind it; never when it moved past |
| `Delivery.AdvanceLosesNothing` | src/fix/deliver.rs:1-3 | A permitted update keeps every reachable commit reachable |
| `Delivery.FastForwardBranch` | src/fix/deliver.rs:270-306 | Under any pushes in between: the update is sent exactly after both checks, nothing reachable before it is lost, it succeeds exactly when the branch is at or behind the approved head or at our commit, and a branch moved past it is left alone with an error |
| `Delivery.BranchNamesDiffer` | src/fix/deliver.rs:218-223 | The eight names tried are distinct |
| `Delivery.OpenDraft` | src/fix/deliver.rs:203-268 | A name is tried only after those before it were taken; only a free name is created, no existing branch is touched, and the exact fate of the last attempt behind each outcome |
| `Delivery.OutcomeTells` | src/fix/deliver.rs:218-267 | Success, a failed draft and a malformed answer mean the branch was created, a taken name that it was not; a failed request leaves it open |
| `Counterexamples.PathLikeALine` | src/state.rs:129-158 | An evidence path that does not read back |
| `Counterexamples.TabBetweenSpaces` | src/report.rs:350-364 | A text that a code span does not show |
| `Counterexamples.DeletedDashes` | src/diff.rs:588-596 | A deleted line that is read back as a file header |
| `Counterexamples.SpacedName` | src/diff.rs:504-575 | A new empty file with a space in its name that is read with other names |
| `Counterexamples.MovedInsideA` | src/diff.rs:577-584 | A file moved without changes inside a directory "a" that is read with other paths |
| `Counterexamples.SecondComment` | src/github/publish.rs:193-213 | A run, from its rechecks to its publish, that adds a 201st finding, prunes the oldest and comments on it a second time |
| `Counterexamples.BothLost` | src/pipeline/common.rs:833-936 | A run, from its rechecks to its report, that loses a duplicate and the demoted finding it refers to |

## Left out

- Scoring: whether a finding matches a defect (`is_tp`, `matches`) and whether it is inline are arbitrary relations; the order inside the matched list and Python's recursion limit are not modelled.
- Redaction patterns for well-known token shapes, JSON redaction and the compiled automaton's internals; `Masking.Utf8` admits overlong and surrogate encodings that Rust's `str` does not.
- ReviewHistory.NeverTwiceOverRuns: assumes that no run ends with more than 200 open or uncertain findings, because beyond that the promise is false; `ReviewHistory.OnceExactly` has no such assumption.
- DiffNumbering.ParsedIsNumbered: line numbers wrap at 32 bits, as they do in a release build; a debug build stops there.
- Agent loop: provider, tools, the terminal check and the reading of a text reply as a submission are arbitrary functions, and JSON arguments are opaque strings; only awaits take time; the wording of messages is not modelled beyond its kind.
- Review runs with validation switched off, which store and publish nothing.
- What a validator session, the panel and the duplicate judge answer is arbitrary, and so is the order in which sessions end.
- Category normalization, and the trigger, impact, rationale and suggestion fields of findings (`Suggestions` takes the suggestion beside its finding); ids are an arbitrary function of file and defect key.
- Suggestions.Checked: redaction and the sensitive paths are arbitrary.
- AgentLoop.RunAgentChecked: no lemma exhibits a provider that reaches the bound of `max_tool_calls + 4` requests.
- The title words and the clipping of stored text are arbitrary functions; claim lengths are compared in characters.
- Reuse of an unchanged review, the summary comment's text and its own upsert; the stored state travels as a value.
- Concurrent publishers on one pull request: the code does not guard against them, so runs are serialized.
- Undoing git's C-style path quoting in diffs is an arbitrary function.
- GitDiffs.GitReads: assumes that git ends a name on a `---` or `+++` line with a tab when it holds a space, and prints a name either as it is, without quotes and without white space other than spaces, or quoted; copies are not among its changes.
- DiffBudget.SelectedFiles: the priority of a path is an arbitrary number, and sizes do not saturate at the machine word, which texts held in memory cannot reach.
- `diff_context` and the per-file excerpts.
- Inline prose neutralization (`public_text`) beyond comment openers.
- Checks of repository, branch and object names, the creation of the fix commit, and the texts of GitHub's errors.
- Configuration, the command line, the server, the panel, guidance, timing and the sandbox.
