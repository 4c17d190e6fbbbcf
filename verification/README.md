# Verified models of the Revoot core

Revoot reviews merge requests: it reads a unified diff, turns its lines into trusted anchors,
partitions the changed files into work units, runs the units through a scheduler, aggregates the
findings and publishes them as comments. This project models the deterministic core of that
pipeline and proves what it promises. Every algorithm that the program writes with loops and
mutable state is a method or a class here, proved against a specification function; the theorems are
lemmas about those functions, for all inputs, runs or reachable states.

| component | files | main results |
|---|---|---|
| Partition planner | `PartitionInputs`, `PartitionPacking`, `PartitionPlan`, `PartitionOutcome`, `PartitionPriority`, `PartitionReason`, `PartitionReplay` | the builder and the independent replay checker agree on every input but for a digest collision; every plan conserves its files, keeps six limits and is maximal; a less valuable file never displaces a more valuable one; every omission has a reason that holds in the finished plan; the input order does not matter |
| Publication plan | `Markers`, `PublicationPlan`, `PublicationLaw`, `PublicationReplan` | marker round trips in both directions; exact success, failure and panic conditions of planning; what a plan does about each candidate; planning again is idempotent exactly when no lineage clash exists, and a published review with a clash is exhibited |
| Publication journal | `PublicationJournal`, `PublicationReach`, `PublicationHost`, `PublicationProgress` | a journal passes replay validation exactly when the public calls can reach it; every reply means what it says; exact acceptance and panic conditions of a retained journal; at-most-once publication over every run against a lossy host; nothing is posted behind a stop; recovery can always finish |
| Execution graph | `ExecutionPlan`, `ExecutionGraph`, `ExecutionLaw` | Kahn's algorithm is exact; whole-run safety; the summary adds up what the run has done; nothing that depends on a failed node starts; the event budget cannot run out; no deadlock and every unspoiled run can be completed |
| Unified diff reader | `DiffHeader`, `DiffHunks`, `DiffPanic`, `DiffParser`, `DiffLaw`, `DiffFile` | the reader accepts exactly the prints of well-formed diffs and panics exactly on prints broken by a line it cannot slice; line accounting is exact and its internal errors are unreachable; refused lines are refused where and for what stops them; each reported line carries the digests of its record and of its surroundings |
| Anchors | `Anchors` | exact acceptance of anchor tables; parser output is anchored exactly when no position repeats; binary search is a scan |
| Pagination | `Pagination`, `PaginationServer`, `PaginationLaw` | collecting accepts exactly the valid page sequences and undoes paging; agreement with the independent completeness check; a response is understood exactly if it says so of itself |
| Findings | `Findings`, `FindingsOrder` | deduplication keeps the most severe and most confident finding of each key; the order of the envelopes does not matter exactly when no two work units tie for a key, which disjointly issued anchors ensure |
| Civil dates | `CivilDate` | the closed day formula is the naive count, rises by one each day and compares like dates; written dates round trip |
| Evaluation | `Evaluation`, `EvaluationLaw` | counts balance and are those of the places in the reports; the floored recall lies between the category recalls; the gate passes exactly when every threshold is met |

`Orders`, `Texts`, `TextLaw` and `ChangedPaths` hold what the components share: machine integers, digests, stable
sorting by a comparison, sequences, Rust string operations with the UTF-8 length of a text (RFC 3629), changed paths and line positions.

## How the model reads the program

- SHA-256 and canonical JSON are function parameters (`Hashes`, `Derivation`, `LineDigests`, `Pipeline`).
  Where a result needs that different values get different digests, it says so of the values of that one
  input. A snapshot identity stands for its canonical form.
- Machine integers are subset types (`u8`, `u32`, `u64`); checked and saturating operations are written out.
- Ordered maps and sets are `map`, `set` or, where their order shows, sequences ordered by key.
- `sort_by` is stable insertion by a comparison; the orders that the program derives are proved to be
  orders, and results never depend on how ties are broken because ties are excluded.
- Errors are `Result` and `Option` values. Calls that can panic return an `Attempt`, with a panic outcome of
  its own.
- Where the code and its own comments differ, the model follows the code:
  - `prepare_publication` unwraps a result that is an error for some valid input (publication.rs, line 540): a
    body of at most 16384 bytes that exceeds 16384 bytes once its marker is appended makes planning panic, so
    the `BodyTooLarge` returns for marked bodies (lines 316 and 412) are dead code.
    `PublicationPlans.BuildPlan`, `PublicationPlans.ValidateReplay` and `PublicationJournals` state exactly when
    this happens, `PublicationPlans.OversizedExactly` gives the length, `PublicationPlans.LongLettersPanic` an input.
  - inside an unfinished hunk the reader slices a line behind its first byte before it looks at that byte, so
    a line there that starts with a multi-byte character panics (diff.rs, line 631). `DiffPanics.PanicsExactly`
    states when, `DiffPanics.AccentedLinePanics` gives a diff of two lines. Where a hunk header is expected,
    such a line is refused as trailing content.
  - planning again after publication is not always a no-op: `PublicationReplanning.NotAlwaysIdempotent` gives a
    review that is planned, published and cannot be planned again, `PublicationReplanning.ReplanningIsIdempotent`
    the exact condition.
  - deduplication depends on the order of the envelopes when two work units tie for a key:
    `FindingsOrder.SharedAnchorsHappen` gives an accepted input, `FindingsOrder.OrderMattersExactly` the exact
    condition.
  - the diff reader does not compare hunks with each other: `Anchors.OverlapIsNotAnchored` gives an accepted
    diff that cannot be anchored.

## Model

| member | source | states |
|---|---|---|
| PartitionInputs.ValidatePolicy | crates/revoot-core/src/partition.rs:205-252 | accepts a selection policy exactly when its label, pattern count, every pattern list and its byte limit are valid, and otherwise names the first of these that is not |
| PartitionInputs.ValidatePatterns | crates/revoot-core/src/partition.rs:227-246 | accepts a pattern list exactly when its patterns are nonempty, bounded, free of control characters and all different |
| PartitionInputs.LimitsIssue | crates/revoot-core/src/partition.rs:254-284 | reports no issue exactly for usable limits, and otherwise the first unusable dimension |
| PartitionInputs.SelectionReason | crates/revoot-core/src/partition.rs:1179-1252 | a file is selected if and only if its path is neither sensitive nor unwanted, its class can be reviewed, and it has objects, an exact diff and no more bytes than the policy allows |
| PartitionInputs.RulesHaveFixedPrecedence | crates/revoot-core/src/partition.rs:1179-1252 | a path that is kept out hides the class and the contents of a file, a class that is kept out hides its contents, and each kind of reason is given exactly when its rules say so |
| PartitionInputs.PreparedFileValid | crates/revoot-core/src/partition.rs:1129-1177 | an admitted file passes the checker, is a reordering of its input and claims only unused anchors; an omitted one claims none |
| PartitionPacking.FirstFit | crates/revoot-core/src/partition.rs:990-1018 | the chosen unit is the first one that can still take the file |
| PartitionPacking.PackedIffRoom | crates/revoot-core/src/partition.rs:935-1066 | a file is packed exactly when the review budgets allow it and some unit or a fresh unit can take it |
| PartitionPacking.PackingWithinLimits | crates/revoot-core/src/partition.rs:966-1066 | all six limits hold of the packing, and the running totals are the totals of the packed files |
| PartitionPacking.PackingConserves | crates/revoot-core/src/partition.rs:966-1066 | every file ends in exactly one unit or once among the omissions |
| PartitionPacking.PackingSelects | crates/revoot-core/src/partition.rs:966-1066 | nothing is packed that was not offered, and nothing twice |
| PartitionPacking.PackingIsMaximal | crates/revoot-core/src/partition.rs:935-1066 | no file omitted by packing could be added to any unit, or to a fresh unit, of the finished packing without breaking a limit |
| PartitionPacking.PackFiles | crates/revoot-core/src/partition.rs:966-1066 | the packing loop computes the packing that the results above are about |
| PartitionPlans.UnitsReplay | crates/revoot-core/src/partition.rs:1068-1092 | assembled work units hold exactly the packed files and satisfy everything the checker asks of units if and only if their identities are distinct |
| PartitionPlans.OmissionsReplay | crates/revoot-core/src/partition.rs:1093-1127 | the assembled omission list is strictly ordered, sound and disjoint from the packed files |
| PartitionPlans.PipelineConserves | crates/revoot-core/src/partition.rs:851-1127 | the packing of the whole pipeline accounts for every input path, once for each file that comes in |
| PartitionPlans.PipelinePacksWell | crates/revoot-core/src/partition.rs:851-1127 | the packing of the whole pipeline is within all limits and holds files with paths and anchors of their own |
| PartitionPlans.BuiltPlansReplay | crates/revoot-core/src/partition.rs:851-874 | a plan that is assembled passes the replay checker if and only if no two of its work units share an identity |
| PartitionPlans.OnlyCollisionsShareIds | crates/revoot-core/src/partition.rs:1068-1127 | two work units of a plan only share an identity when the digest collides on their files |
| PartitionPlans.BuildingIgnoresOrder | crates/revoot-core/src/partition.rs:880-917 | permuting the input files changes neither whether a plan is built nor the plan |
| PartitionOutcomes.PlansConserve | crates/revoot-core/src/partition.rs:851-1127 | every input path occurs once, among the files of the plan's work units or among its omissions, and nothing else does |
| PartitionOutcomes.PlansAreMaximal | crates/revoot-core/src/partition.rs:935-1127 | the work units of a plan hold admitted files only, and an admitted file in none of them fits no work unit of the plan and no fresh one within the limits |
| PartitionOutcomes.PlansKeepLimits | crates/revoot-core/src/partition.rs:935-1127 | every review and work-unit limit holds of the plan, whatever its identities are |
| PartitionOutcomes.PlanNamesItsInputs | crates/revoot-core/src/partition.rs:866-873 | a plan names its snapshot, its limits and the rules of its policy, with the excluded patterns in the order that the checker demands |
| PartitionPriorities.SortedIsInReviewOrder | crates/revoot-core/src/partition.rs:906-916 | files are packed by tier from high to low, then by score from high to low, then by bytes and by path from low to high |
| PartitionPriorities.ReviewValueDecides | crates/revoot-core/src/partition.rs:906-1066 | an admitted file of at least some value is in the plan if and only if it is packed when the admitted files of at least that value, in review order, are all there is |
| PartitionPriorities.LessValuableNeverDisplace | crates/revoot-core/src/partition.rs:906-1066 | if leaving out inputs leaves out exactly the admitted files below some value, the plan without them holds the same ones of the others |
| PartitionPriorities.PlanWithoutLessValuable | crates/revoot-core/src/partition.rs:851-1066 | the same of whole plans: a file is in the plan of the input if and only if it is in the plan of the input without the less valuable files, when no two inputs claim one anchor |
| PartitionReasons.SelectionIsTold | crates/revoot-core/src/partition.rs:1179-1252 | each of the eleven selection reasons is given exactly when its own rule applies and no rule before it |
| PartitionReasons.AdmissionIsTold | crates/revoot-core/src/partition.rs:1129-1177 | a selected file is refused exactly for a role or an anchor that comes twice, an anchor in use or too many bytes, and otherwise gets its objects in the order of their roles, its anchors in alphabetical order and its exact size |
| PartitionReasons.PackingReasonIsTold | crates/revoot-core/src/partition.rs:935-1053 | a file whose turn has come is left out with a reason exactly when that reason holds of it and of the units so far |
| PartitionReasons.PackingExplains | crates/revoot-core/src/partition.rs:966-1066 | every offered file is packed, or left out with a reason that still holds of the finished packing |
| PartitionReasons.OmissionsAreExplained | crates/revoot-core/src/partition.rs:851-1127 | every omission of a plan was turned away by a selection or admission rule, or was admitted and has a reason that holds of the finished packing |
| PartitionReasons.AnchorsGoToTheFirst | crates/revoot-core/src/partition.rs:880-917 | a selected file with roles and anchors of its own is admitted if and only if no admitted file ahead of it in path order has one of its anchors |
| PartitionReasons.PlansAreInOrder | crates/revoot-core/src/partition.rs:1068-1127 | in a valid plan the work units stand by identity, and their files and the omissions by old path, new path and kind |
| PartitionReasons.LowBytesAreTold | crates/revoot-core/src/partition.rs:1044-1047 | the low-signal bytes are the bytes of the files of the lowest tier |
| PartitionReasons.CoverageIsTold | crates/revoot-core/src/partition.rs:1093-1112 | the coverage counts the inputs, the included files and bytes, the omissions and each reason exactly, and says complete exactly when every input is included |
| PartitionReplay.ValidateFile | crates/revoot-core/src/partition.rs:1267-1303 | accepts a file exactly when it is canonical, its byte count is right, and its path and anchors are new |
| PartitionReplay.ValidateUnitFiles | crates/revoot-core/src/partition.rs:1254-1311 | accepts the files of a unit exactly when they are valid, strictly ordered and new, and returns their exact totals |
| PartitionReplay.ValidateUnits | crates/revoot-core/src/partition.rs:704-748 | accepts the units exactly when each replays behind those before it, with exact running totals |
| PartitionReplay.UnitsPassedExactly | crates/revoot-core/src/partition.rs:704-748 | passing the unit loop means: every unit valid, identities strictly increasing, no path and no anchor twice anywhere |
| PartitionReplay.ValidateOmissions | crates/revoot-core/src/partition.rs:755-766 | accepts the omissions exactly when they are strictly ordered, sound and new, and counts their reasons |
| PartitionReplay.OmissionsPassedExactly | crates/revoot-core/src/partition.rs:755-766 | passing the omission loop means a strictly ordered, sound list of paths that occur nowhere else |
| PartitionReplay.ValidateReplay | crates/revoot-core/src/partition.rs:686-787 | the checker accepts exactly the valid plans; any other plan it refuses with the first check that fails, found in the file, unit or omission where it fails |
| PartitionReplay.CheckInputs | crates/revoot-core/src/partition.rs:880-905 | the input checks pass exactly for sound, valued files with different new paths, and otherwise name the first input that fails and why |
| PartitionReplay.PrepareInputs | crates/revoot-core/src/partition.rs:880-917 | the preparation loop splits the inputs into admitted files, omissions and claimed anchors as the specification does |
| PartitionReplay.BuildPlan | crates/revoot-core/src/partition.rs:851-874 | succeeds exactly on buildable input whose work units get different identities, with a plan the checker accepts; returns `InternalReplay` exactly when identities collide, and otherwise the first configuration or input check that fails |
| Markers.ParseRendered | crates/revoot-core/src/publication.rs:146-181 | parsing a rendered publication marker gives the marker back |
| Markers.ParsedWasRendered | crates/revoot-core/src/publication.rs:146-181 | only rendered publication markers parse |
| Markers.RenderedShape | crates/revoot-core/src/publication.rs:148-158 | a rendered marker is one ASCII line of 178 or 179 bytes |
| Markers.ParseRenderedLineage | crates/revoot-core/src/publication.rs:76-132 | a lineage marker made by `new` survives rendering and parsing |
| Markers.ParsedLineageWasRendered | crates/revoot-core/src/publication.rs:108-132 | only rendered lineage markers with the right occurrence digest parse |
| Markers.MarkerIsNotLineage | crates/revoot-core/src/publication.rs:97-158 | a publication marker is never taken for a lineage marker |
| Markers.TerminalOfMarked | crates/revoot-core/src/publication.rs:215-224 | the terminal marker of a marked body is the marker that was appended |
| Markers.LineageOfMarked | crates/revoot-core/src/publication.rs:480-492 | the lineage of a fresh comment is the one its body embeds, or the compatibility identity of its own marker |
| TextLaws.ByteLengthIsEncodedLength | crates/revoot-core/src/publication.rs:514 | the length of a text is the number of bytes of its UTF-8 encoding |
| TextLaws.ContainsIsOccurrence | crates/revoot-core/src/publication.rs:527 | a text contains a part exactly if the part stands somewhere in it |
| TextLaws.LinesAreTold | crates/revoot-core/src/publication.rs:139 | a line ends at a line feed and loses one carriage return before it |
| TextLaws.AfterLastIsTold | crates/revoot-core/src/publication.rs:217-222 | the last piece of a text stands behind its last separator or is all of it |
| PublicationPlans.MarkedLength | crates/revoot-core/src/publication.rs:552-590 | marking adds 179 bytes to an inline body and 180 to a summary |
| PublicationPlans.InventoryIssue | crates/revoot-core/src/publication.rs:494-508 | accepts exactly complete, bounded inventories with positive, unique note identities |
| PublicationPlans.ValidateAction | crates/revoot-core/src/publication.rs:293-331 | accepts an action exactly when it is its own preparation, in order, with a new fingerprint and a real note; panics exactly on an action in order whose body is too long once marked; otherwise names the first check that fails |
| PublicationPlans.OversizedExactly | crates/revoot-core/src/publication.rs:510-590 | a body is valid but too long once marked exactly when it is valid and longer than a comment minus 179 bytes, or 180 for a summary |
| PublicationPlans.LongLettersPanic | crates/revoot-core/src/publication.rs:405-425 | a candidate of that many plain letters makes planning panic |
| PublicationPlans.ValidateReplay | crates/revoot-core/src/publication.rs:279-340 | accepts exactly the valid plans; panics exactly when the first action that stops the loop is in order and has a valid body that is too long once marked; otherwise names the first check that fails |
| PublicationPlans.PassedExactly | crates/revoot-core/src/publication.rs:290-333 | passing the replay loop means: every action valid, strictly ordered, fingerprints unique, a summary only at the end |
| PublicationPlans.PrepareAll | crates/revoot-core/src/publication.rs:405-425 | the candidate loop succeeds exactly for valid candidates, and panics exactly when the first failing candidate is valid but too long once marked |
| PublicationPlans.DecideAll | crates/revoot-core/src/publication.rs:427-462 | the decision loop succeeds exactly when no publication matches two notes |
| PublicationPlans.BuildPlan | crates/revoot-core/src/publication.rs:391-475 | succeeds exactly on plannable input with the specified plan, states exactly when it panics, never fails its own replay, and otherwise names the first check that fails |
| PublicationPlans.BuiltPlansReplay | crates/revoot-core/src/publication.rs:391-475 | every built plan passes the replay checker |
| PublicationPlans.PlanningIgnoresOrder | crates/revoot-core/src/publication.rs:391-475 | permuting candidates or notes changes neither whether planning succeeds nor the plan |
| PublicationLaws.CandidateIssueIsTold | crates/revoot-core/src/publication.rs:510-531 | a body is refused for the first of four rules it breaks: only white space, more than 16384 bytes of UTF-8, a control character other than line feed and tab, or a marker start inside |
| PublicationLaws.InventoryIsTold | crates/revoot-core/src/publication.rs:494-508 | the inventories that are accepted: complete, bounded, with positive identities and authors and no identity twice |
| PublicationLaws.MarkerText | crates/revoot-core/src/publication.rs:148-158 | the text of a publication marker in full |
| PublicationLaws.LineageText | crates/revoot-core/src/publication.rs:97-106 | the text of a lineage marker in full |
| PublicationLaws.TerminalMarkerIsTold | crates/revoot-core/src/publication.rs:215-224 | a comment ends with a marker exactly if its last line is the text of that marker |
| PublicationLaws.LineageIsTold | crates/revoot-core/src/publication.rs:480-492 | the lineage of a comment is the one its only lineage marker names, or else the digest of the fingerprint in its only publication marker, or else none |
| PublicationLaws.PlansAreRight | crates/revoot-core/src/publication.rs:391-475 | a plan has one action for each candidate, with its scope, fingerprint, kind and marker line; inline comments by fingerprint, a summary last; it creates a comment exactly if no note by the bot bears its marker or is on its finding, and otherwise keeps the one that does |
| PublicationLaws.AmbiguityIsTold | crates/revoot-core/src/publication.rs:427-458 | a comment is ambiguous exactly if two notes by the bot bear its marker, or none does and two are on its finding |
| PublicationLaws.ReplayIsTold | crates/revoot-core/src/publication.rs:279-340 | the plans that replay, in full: order, fingerprints, admissible bodies, markers, lengths and digest |
| PublicationReplanning.ReplanOne | crates/revoot-core/src/publication.rs:427-462 | what one publication matches once the created notes are in the inventory |
| PublicationReplanning.ReplanningIsIdempotent | crates/revoot-core/src/publication.rs:391-475 | planning again succeeds if and only if no lineage clash exists, and then every action is a no-op on the note that stands for it |
| PublicationReplanning.ExactPlansNeverClash | crates/revoot-core/src/publication.rs:427-462 | without lineage matching there is no clash |
| PublicationReplanning.ClashExists | crates/revoot-core/src/publication.rs:427-492 | whatever the digests are, a review with a lineage clash is planned, as long as its two candidates have different fingerprints |
| PublicationReplanning.ClashStopsReplanning | crates/revoot-core/src/publication.rs:391-475 | a review with a clash cannot be planned again once its comments are published under new identities |
| PublicationReplanning.NotAlwaysIdempotent | crates/revoot-core/src/publication.rs:391-475 | digests, a review and inventories before and after publication: planned before, refused after |
| PublicationJournaling.StepSound | crates/revoot-core/src/publication.rs:809-1018 | every call keeps the journal valid, only appends entries, leaves terminal states alone and is never refused for its retained state |
| PublicationJournaling.JournalsStayValid | crates/revoot-core/src/publication.rs:701-1018 | every journal reachable by any sequence of calls passes replay validation |
| PublicationJournaling.NewJournalValid | crates/revoot-core/src/publication.rs:701-718 | a new journal of an intact plan is valid |
| PublicationJournaling.StepIsLawful | crates/revoot-core/src/publication.rs:809-1018 | what each reply to each call says of the journal before it and behind it, spelled out state by state |
| PublicationJournaling.LawDecides | crates/revoot-core/src/publication.rs:809-1018 | these laws leave exactly one new journal and one reply to every call |
| PublicationReachability.ValidIsReachable | crates/revoot-core/src/publication.rs:724-1018 | a journal passes replay validation if and only if its plan does and some sequence of calls leads to it from the new journal of that plan |
| PublicationJournals.PublicationJournal.TryNew | crates/revoot-core/src/publication.rs:701-718 | creates a journal exactly for intact plans, and panics exactly when the replay check of the plan does |
| PublicationJournals.PublicationJournal.ValidateReplay | crates/revoot-core/src/publication.rs:724-800 | accepts exactly the valid journals, panics exactly when the replay check of its plan does, and otherwise names the first check that fails |
| PublicationJournals.PublicationJournal.BeginNext | crates/revoot-core/src/publication.rs:809-835 | begins the next action exactly in a ready journal on its own snapshot; on another snapshot it stops the journal as stale and changes nothing else |
| PublicationJournals.PublicationJournal.Confirm | crates/revoot-core/src/publication.rs:840-860 | records the note of an action in progress, of a no-op only its own note; another identity fails the journal |
| PublicationJournals.PublicationJournal.MarkAmbiguous | crates/revoot-core/src/publication.rs:865-880 | marks exactly a creation in progress as ambiguous; a no-op fails the journal |
| PublicationJournals.PublicationJournal.ReconcileAmbiguous | crates/revoot-core/src/publication.rs:886-925 | an ambiguous creation is ready again if no note by the bot bears its marker, recorded if one does, failed if several do; a bad inventory changes nothing |
| PublicationJournals.PublicationJournal.StopStale | crates/revoot-core/src/publication.rs:931-943 | accepts exactly a ready journal, and leaves it stopped before its next action with its entries unchanged |
| PublicationJournals.PublicationJournal.Fail | crates/revoot-core/src/publication.rs:948-961 | accepts exactly a live journal, and leaves it failed at its current action with its entries unchanged |
| PublicationJournals.PublicationJournal.CompleteCurrent | crates/revoot-core/src/publication.rs:970-1002 | appends the entry of the current action and moves behind it |
| PublicationJournals.PublicationJournal.FailCurrent | crates/revoot-core/src/publication.rs:1004-1018 | moves a live journal to its failed state and reports the error |
| PublicationHosts.PlannedWorldConsistent | crates/revoot-core/src/publication.rs:391-475 | a plan built from the host's notes starts with no note for any Create action |
| PublicationHosts.InspectFinds | crates/revoot-core/src/publication.rs:886-925 | reconciliation finds the note if and only if the request took effect, and never two |
| PublicationHosts.NextConsistent | crates/revoot-core/src/publication.rs:809-961 | every enabled event keeps journal, request and host notes consistent |
| PublicationHosts.AtMostOncePublication | crates/revoot-core/src/publication.rs:809-923 | over every run with lost requests, lost responses, reconciliations and retries, no Create action has two notes, and a completed journal has exactly one for each under its recorded identity |
| PublicationHosts.StoppingIsFinal | crates/revoot-core/src/publication.rs:809-961 | a ready journal that learns that the merge request has moved on stops in front of its next action, and no later event of any run adds a note by the bot |
| PublicationProgress.CanAlwaysFinish | crates/revoot-core/src/publication.rs:809-961 | from every consistent world in which the journal has not stopped or failed, some continuation completes it |
| ExecutionPlans.ValidateAcyclic | crates/revoot-core/src/execution_graph.rs:164-191 | accepts if and only if there is no dependency cycle; the pop order is topological, and on rejection the unvisited nodes contain a cycle |
| ExecutionPlans.TopologicalIsAcyclic | crates/revoot-core/src/execution_graph.rs:164-191 | a topological order excludes cycles |
| ExecutionPlans.StuckNodesCycle | crates/revoot-core/src/execution_graph.rs:164-191 | nodes that each wait for another of them contain a cycle |
| ExecutionPlans.TryNew | crates/revoot-core/src/execution_graph.rs:107-151 | every outcome of building a plan: limits, duplicates, missing and self dependencies told apart by the first offender, cycles, and the accepted plan |
| ExecutionPlans.PlanHasTopologicalOrder | crates/revoot-core/src/execution_graph.rs:164-191 | every acyclic closed graph has a topological order |
| ExecutionJournals.HistoriesDecideStates | crates/revoot-core/src/execution_graph.rs:433-460 | node states are the replay of the journal; each node has at most one Started and one terminal event |
| ExecutionJournals.StartsFollowDependencies | crates/revoot-core/src/execution_graph.rs:313-356 | every Started event comes behind the Completed event of each dependency |
| ExecutionJournals.SequencesAndTimes | crates/revoot-core/src/execution_graph.rs:433-460 | sequence numbers are contiguous and times never decrease |
| ExecutionJournals.ParallelismBounded | crates/revoot-core/src/execution_graph.rs:313-339 | no prefix of a journal has more running nodes than the plan allows |
| ExecutionJournals.BudgetHolds | crates/revoot-core/src/execution_graph.rs:125-133 | recorded and still possible events never exceed two per node |
| ExecutionScheduling.ReadyNodesExact | crates/revoot-core/src/execution_graph.rs:313-339 | ready nodes are runnable and fill the parallelism cap unless there are no more of them |
| ExecutionScheduling.ApplySound | crates/revoot-core/src/execution_graph.rs:341-460 | every public call keeps the invariant, appends only, changes nothing on error, and never exhausts the budget or misses a node |
| ExecutionScheduling.RunsAreSafe | crates/revoot-core/src/execution_graph.rs:341-460 | the same over every sequence of calls and clock readings |
| ExecutionScheduling.CancellationIsTotal | crates/revoot-core/src/execution_graph.rs:410-431 | cancelling fails exactly when the clock ran backwards with work left, changing nothing; otherwise no node stays pending or running and finished nodes keep their state |
| ExecutionScheduling.NoDeadlock | crates/revoot-core/src/execution_graph.rs:313-382 | an unfinished run without failure or cancellation has a running or a ready node |
| ExecutionScheduling.CanAlwaysComplete | crates/revoot-core/src/execution_graph.rs:341-387 | such a run can be driven to completion by accepted start and complete calls alone |
| ExecutionScheduling.StatesPartition | crates/revoot-core/src/execution_graph.rs:480-498 | the five state counts add up to the number of nodes |
| ExecutionScheduling.EventsPerNode | crates/revoot-core/src/execution_graph.rs:480-498 | the summary agrees with the journal: two events for a finished node, one for a running one, one or two for a cancelled one |
| ExecutionScheduling.SummaryTellsCompletion | crates/revoot-core/src/execution_graph.rs:473-498 | a run is complete exactly when the summary counts every node as completed |
| ExecutionLaws.ApplyIsLawful | crates/revoot-core/src/execution_graph.rs:341-460 | what each call does to the states, the journal, the clock, the usage and the facts, and when each error is returned, spelled out |
| ExecutionLaws.LawDecides | crates/revoot-core/src/execution_graph.rs:341-460 | these laws leave exactly one new state and one outcome to every call |
| ExecutionLaws.RunsAddUp | crates/revoot-core/src/execution_graph.rs:363-384 | over every sequence of calls the usage and the facts are the sum and the union of the contributions of the accepted completions |
| ExecutionLaws.SummariesAddUp | crates/revoot-core/src/execution_graph.rs:363-498 | so are those of the summary of every run |
| ExecutionLaws.SummaryCounts | crates/revoot-core/src/execution_graph.rs:480-498 | each count of the summary is the number of nodes in that state |
| ExecutionLaws.FinishedStaysForever | crates/revoot-core/src/execution_graph.rs:341-460 | a completed, failed or cancelled node stays so in every continuation |
| ExecutionLaws.DependentsOfFailedNeverStart | crates/revoot-core/src/execution_graph.rs:313-460 | behind a failure no node that depends on the failed one ever starts |
| ExecutionGraphs.ExecutionGraph.constructor | crates/revoot-core/src/execution_graph.rs:294-311 | a new graph is the initial state of the transition system |
| ExecutionGraphs.ExecutionGraph.ReadyNodes | crates/revoot-core/src/execution_graph.rs:313-339 | the filtering loop computes the specified ready nodes |
| ExecutionGraphs.ExecutionGraph.Start | crates/revoot-core/src/execution_graph.rs:341-357 | keeps the object valid; starts exactly a pending node with completed dependencies while there is capacity, and changes only that node |
| ExecutionGraphs.ExecutionGraph.Complete | crates/revoot-core/src/execution_graph.rs:363-384 | keeps the object valid; completes exactly a running node, changes only that node, and adds the usage field by field and the facts |
| ExecutionGraphs.ExecutionGraph.Fail | crates/revoot-core/src/execution_graph.rs:389-404 | keeps the object valid; fails exactly a running node and changes only that node, to failed |
| ExecutionGraphs.ExecutionGraph.CancelRemaining | crates/revoot-core/src/execution_graph.rs:410-431 | keeps the object valid; cancels every pending and running node and no other |
| ExecutionGraphs.ExecutionGraph.Transition | crates/revoot-core/src/execution_graph.rs:433-460 | state and outcome are those of the transition system |
| ExecutionGraphs.ExecutionGraph.Summarize | crates/revoot-core/src/execution_graph.rs:480-490 | the five counts, the usage and the facts of the current state, which tell completion |
| DiffHeaders.ParsePrinted | crates/revoot-core/src/diff.rs:573-583 | every printed 32-bit number parses |
| DiffHeaders.ParsedIsPrinted | crates/revoot-core/src/diff.rs:573-583 | nothing but printed numbers parses |
| DiffHeaders.ParseHeader | crates/revoot-core/src/diff.rs:518-571 | an accepted header has ranges that start at line one or later, end within 32 bits, are not both empty and keep the limit |
| DiffHeaders.HeaderRoundTrip | crates/revoot-core/src/diff.rs:518-571 | every acceptable header, printed with any section heading, parses back |
| DiffHunks.ConsumedIsNext | crates/revoot-core/src/diff.rs:622-724 | an accepted line is the next record of the hunk, numbered start plus the records of its side so far |
| DiffHunks.NextIsConsumed | crates/revoot-core/src/diff.rs:622-724 | the next record of a hunk is accepted |
| DiffHunks.InternalErrorsUnreachable | crates/revoot-core/src/diff.rs:622-696 | `LineNumberOverflow` and the inner `InvalidRangeStart` cannot happen, a rejected line changes nothing, and `HunkCountExceeded` means a declared range is used up |
| DiffHunks.MarkerStep | crates/revoot-core/src/diff.rs:376-404 | a no-newline marker behind a record line is read together with it, as a flag of that record |
| DiffHunks.ReadIsSound | crates/revoot-core/src/diff.rs:364-405 | reading a hunk stops exactly behind the printed records that fill its declared ranges |
| DiffHunks.PrintedIsRead | crates/revoot-core/src/diff.rs:364-405 | printed records that fill a hunk are read back, with their no-newline flags |
| DiffHunks.ReadExactly | crates/revoot-core/src/diff.rs:337-405 | lines are read as hunks if and only if they are the print of those hunks and the hunks fill their ranges, are numbered consecutively, suit the file change and keep the limits |
| DiffHunks.PrintsAreUnambiguous | crates/revoot-core/src/diff.rs:337-405 | no two well-formed diffs print alike |
| DiffHunks.RecordNumbers | crates/revoot-core/src/diff.rs:698-724 | in an accepted hunk the k-th record of a side is numbered start plus k, counting from zero |
| DiffLaws.HeadersAreTold | crates/revoot-core/src/diff.rs:518-590 | a header is accepted exactly if it is the text of two ranges in order, a count of one may be left out, and anything may follow behind a space |
| DiffLaws.RangesAreJudged | crates/revoot-core/src/diff.rs:556-590 | what is made of any two written numbers: overflow, a zero start or the range |
| DiffLaws.HeadersAreJudged | crates/revoot-core/src/diff.rs:518-553 | the error of a header with two ranges, in the order of the checks |
| DiffLaws.ForeignIsTold | crates/revoot-core/src/diff.rs:483-504 | exactly combined and binary diffs are refused as foreign |
| DiffLaws.LinesAreConsumedRightly | crates/revoot-core/src/diff.rs:622-724 | the sign of a line decides its side, its content is the rest, its number is the next one; and each refusal of a line gives its reason |
| DiffLaws.HunksAreTold | crates/revoot-core/src/diff.rs:364-405 | a hunk is well-formed exactly if its text is a header, its records fill the ranges, and they keep the limit |
| DiffLaws.ReadAllStops | crates/revoot-core/src/diff.rs:337-439 | a diff that is refused prints some hunks and records up to the line that stops it, and the error says why that line does |
| DiffLaws.SmallDiffIsRead | crates/revoot-core/src/diff.rs:337-405 | the records and line numbers of a diff of five lines in full |
| DiffParsers.HunkAccounting.ConsumeLine | crates/revoot-core/src/diff.rs:622-684 | new accounting and result are those of the specification, in every branch |
| DiffParsers.HunkAccounting.ConsumeOld | crates/revoot-core/src/diff.rs:698-710 | the old-side counters advance as specified, with the overflow error |
| DiffParsers.HunkAccounting.ConsumeNew | crates/revoot-core/src/diff.rs:712-724 | the new-side counters advance as specified, with the overflow error |
| DiffParsers.Parser.ParseHunk | crates/revoot-core/src/diff.rs:364-405 | records, rest of the input and error are those of the specification |
| DiffParsers.Parser.AppendCommentable | crates/revoot-core/src/diff.rs:407-439 | appends one commentable line for each record, with its position, its own digest and that of its surroundings, or refuses exactly beyond the limit and changes nothing |
| DiffParsers.Parser.ParseHunks | crates/revoot-core/src/diff.rs:337-362 | succeeds exactly when the lines are read as hunks, having counted them and collected one commentable line per record |
| DiffParsers.HunksAreReported | crates/revoot-core/src/diff.rs:427-439 | the lines of each hunk stand together, one for each record: its position, its exact digest, and the digest of a stretch of the same hunk that reaches the radius on each side or the end of the hunk |
| DiffPanics.PanicsExactly | crates/revoot-core/src/diff.rs:337-405 | reading panics at a line if and only if the lines print admissible hunks, an accepted header and numbered records that leave the hunk unfinished, and go on, at that line, with one that starts with a multi-byte character |
| DiffPanics.AsciiStartsNeverPanic | crates/revoot-core/src/diff.rs:622-631 | lines that start with ASCII characters never make the reader panic |
| DiffPanics.AccentedLinePanics | crates/revoot-core/src/diff.rs:622-631 | a hunk header followed by a line that starts with an accented letter panics |
| DiffFiles.ParseFileDiff | crates/revoot-core/src/diff.rs:196-223 | succeeds exactly on prints of well-formed diffs, with their hunk count and one line per record that carries the digests of the record and of the records around it; panics exactly on broken prints; refuses other lines at the line that stops it |
| Anchors.FromAnchors | crates/revoot-core/src/snapshot.rs:1321-1363 | returns the anchors in identifier order, or the first issue in the order of the checks |
| Anchors.RestoredExactly | crates/revoot-core/src/snapshot.rs:1321-1363 | a table is restored if and only if every anchor is genuine and no coordinate or identifier repeats |
| Anchors.RestoredIsSorted | crates/revoot-core/src/snapshot.rs:1361-1362 | the identifiers of a restored table increase strictly |
| Anchors.FirstIssueIsTold | crates/revoot-core/src/snapshot.rs:1321-1363 | the error of a table is what is wrong with the first anchor that offends, in the order of the checks |
| Anchors.TableIsTold | crates/revoot-core/src/snapshot.rs:1297-1313 | a built table holds one anchor for each line, with its path, position and both digests, and the identifier of that line |
| Anchors.ScanFinds | crates/revoot-core/src/snapshot.rs:1373-1378 | a scan finds the anchor with an identifier exactly when there is one |
| Anchors.Resolve | crates/revoot-core/src/snapshot.rs:1373-1378 | binary search agrees with the scan for every string |
| Strings.LessIsLexicographic | crates/revoot-core/src/snapshot.rs:1362 | the order of strings is decided by the first character in which they differ, and a proper prefix comes first |
| Anchors.Build | crates/revoot-core/src/snapshot.rs:1297-1313 | derives an identifier for every line and restores the table, with one anchor for each line in identifier order |
| Anchors.BuildFailsForRepeats | crates/revoot-core/src/snapshot.rs:1297-1363 | sound lines are refused exactly for a repeated coordinate |
| Anchors.ParserOutputAnchors | crates/revoot-core/src/snapshot.rs:1297-1363 | the lines of an accepted diff are anchored if and only if no position is reported twice |
| Anchors.SeparateHunksAnchor | crates/revoot-core/src/snapshot.rs:1297-1363 | diffs whose hunks declare no common line are always anchored, one anchor per line |
| Anchors.OverlapIsNotAnchored | crates/revoot-core/src/diff.rs:337-362 | an accepted diff that cannot be anchored |
| Pagination.CheckPage | crates/revoot-core/src/gitlab_wire.rs:777-818 | a page passes exactly when it follows the one before and agrees with the first page, its items and the totals, and otherwise gives the first check that fails |
| Pagination.CollectCompletePages | crates/revoot-core/src/gitlab_wire.rs:757-841 | accepts exactly the valid page sequences and returns their items in order with one receipt per page, and otherwise gives the first check that fails |
| Pagination.Completeness | crates/revoot-core/src/snapshot.rs:384-450 | reports exactly the issues of the receipts |
| Pagination.CompleteExactly | crates/revoot-core/src/snapshot.rs:384-450 | complete means consecutive receipts, only the last without a next page, that account for all items |
| Pagination.CollectedIsComplete | crates/revoot-core/src/gitlab_wire.rs:757-841 | whatever is collected is complete under the independent check |
| PaginationServers.CollectServed | crates/revoot-core/src/gitlab_wire.rs:757-841 | a list within the limits, cut into pages with or without totals, is accepted and collected back unchanged |
| PaginationServers.AcceptedIsServed | crates/revoot-core/src/gitlab_wire.rs:757-841 | with totals nothing else is accepted: the pages are the list cut into max(1, ceil(total / per page)) pages |
| PaginationServers.TrueTotals | crates/revoot-core/src/gitlab_wire.rs:1377-1410 | the true totals of a list are accepted on every page and give the true next page |
| PaginationServers.HonestResponses | crates/revoot-core/src/gitlab_wire.rs:1271-1438 | a response whose headers tell the truth is understood as the page it is, and refused as ambiguous exactly when it is silent about a full page |
| PaginationLaws.TotalsAreTold | crates/revoot-core/src/gitlab_wire.rs:1377-1410 | totals are accepted exactly when the list takes that many pages and this page holds that many of its items, and they give the next page |
| PaginationLaws.ParsingIsTold | crates/revoot-core/src/gitlab_wire.rs:1271-1345 | a response is read as a page exactly if it repeats its request, its signals agree with each other and with the totals, and a next page is the one behind a page with items |
| PaginationLaws.RefusalsAreTold | crates/revoot-core/src/gitlab_wire.rs:1271-1345 | what every error says of the response |
| PaginationLaws.CollectingIsTold | crates/revoot-core/src/gitlab_wire.rs:757-841 | the sequences that are collected, in full: numbers, next pages, counts, limits and exact totals |
| PaginationLaws.IssuesAreTold | crates/revoot-core/src/snapshot.rs:387-435 | the completeness check reports exactly the issues that the acquisition has |
| Findings.ValidateRankAndRender | crates/revoot-core/src/findings.rs:349-426 | accepts exactly the acceptable inputs and otherwise gives the first check that fails; no finding stands behind a less severe or, equally severe, less confident one; each reported key is kept once, with a finding that none of its key surpasses; the others are counted as duplicates |
| Findings.RankEnvelope | crates/revoot-core/src/findings.rs:378-412 | the findings of one envelope are all bound to issued, trusted anchors within the limit, or the first that is not gives the error |
| Findings.KeptExactly | crates/revoot-core/src/findings.rs:396-408 | a finding is kept if and only if it is the first of the preferred findings with its key |
| Findings.BestIsMinimal | crates/revoot-core/src/findings.rs:396-408 | no finding with the same key is preferred to the kept one |
| Findings.OutcomeIsRanked | crates/revoot-core/src/findings.rs:396-426 | the result is strictly ranked and holds exactly the best finding of every key |
| Findings.PreferredIsWeak | crates/revoot-core/src/findings.rs:525-534 | the ranking is a strict weak order |
| Findings.OutcomeIsWellRanked | crates/revoot-core/src/findings.rs:396-426 | the result in terms of severities and confidence: reading order, one finding for each reported key, and none of its key is more severe, or equally severe and more confident |
| Findings.RankedStems | crates/revoot-core/src/findings.rs:396-445 | what is ranked are exactly the reported findings, with their own unit, anchor, key, digest and text |
| Findings.AnchorShapeIsTold | crates/revoot-core/src/findings.rs:384-388 | an anchor identifier is `ga1_` and 64 lower-case hexadecimal digits |
| FindingsOrder.AcceptanceForgetsOrder | crates/revoot-core/src/findings.rs:349-426 | permuting the envelopes never changes whether they are accepted |
| FindingsOrder.OrderMattersExactly | crates/revoot-core/src/findings.rs:349-426 | for accepted envelopes every order gives the same result if and only if no two work units tie for a key |
| FindingsOrder.DisjointIsUncontested | crates/revoot-core/src/findings.rs:525-534 | with disjointly issued anchors no two work units tie |
| FindingsOrder.OrderIsForgotten | crates/revoot-core/src/findings.rs:349-426 | with disjointly issued anchors, permuting the envelopes changes neither acceptance nor the result |
| FindingsOrder.SharedAnchorsRememberOrder | crates/revoot-core/src/findings.rs:349-426 | two work units that hold one anchor and report the same finding are accepted in both orders, with different results |
| FindingsOrder.SharedAnchorsHappen | crates/revoot-core/src/findings.rs:349-426 | a pipeline and an input where that happens |
| CivilDates.EpochIsZero | crates/revoot/src/config.rs:932-941 | day zero is 1970-01-01 |
| CivilDates.NextDay | crates/revoot/src/config.rs:922-941 | the day number rises by exactly one from every valid date to the next |
| CivilDates.CountsDays | crates/revoot/src/config.rs:922-941 | the closed formula is the count of days by years and months since the epoch |
| CivilDates.ComparesDates | crates/revoot/src/config.rs:932-941 | comparing day numbers is comparing dates |
| CivilDates.DateOfDay | crates/revoot/src/config.rs:932-941 | every day from the epoch on has a date |
| CivilDates.WrittenIsRead | crates/revoot/src/config.rs:902-920 | every written date from 1970 to 9999 is read as its day number |
| CivilDates.ReadIsWritten | crates/revoot/src/config.rs:902-920 | nothing but written valid dates is read |
| CivilDates.ExampleDates | crates/revoot/src/config.rs:902-941 | 1972-03-01 is day 790, and 1973-02-29 is no date |
| Evaluation.Score | crates/revoot-core/src/evaluation.rs:254-296 | scores exactly the well-formed cases, with the counts of the set comparison, and otherwise gives the first rule that is violated |
| Evaluation.CaseBalances | crates/revoot-core/src/evaluation.rs:254-296 | hits and misses make up the expectations; hits, false alarms and repetitions make up the reports |
| Evaluation.CorpusBalances | crates/revoot-core/src/evaluation.rs:150-189 | the same of a corpus; adding true and false positives never saturates |
| Evaluation.CategoriesAddUp | crates/revoot-core/src/evaluation.rs:147-184 | the category counts add up to the corpus totals |
| Evaluation.RecallBetween | crates/revoot-core/src/evaluation.rs:186-198 | the floored recall lies between the smallest and largest floored category recall |
| Evaluation.RatioAtLeast | crates/revoot-core/src/evaluation.rs:233-243 | the ratio of a part to its whole is the exact floor in basis points and is never capped |
| Evaluation.CountExpected | crates/revoot-core/src/evaluation.rs:165-168 | the loop counts the expected defects of every category |
| Evaluation.CountFound | crates/revoot-core/src/evaluation.rs:169-184 | the loop counts the observed expected defects of every category |
| Evaluation.ScoreCorpus | crates/revoot-core/src/evaluation.rs:132-198 | exact totals, ratios and category recalls, or an error exactly when a case cannot be scored or a total does not fit |
| Evaluation.NoFailuresExactly | crates/revoot-core/src/evaluation.rs:200-219 | the failure list is empty exactly when every threshold is met |
| Evaluation.EvaluateCorpus | crates/revoot-core/src/evaluation.rs:122-226 | the gate passes exactly when the exact score meets every threshold; an error names the threshold rule or the first case that fails |
| EvaluationLaws.CountsAreTold | crates/revoot-core/src/evaluation.rs:278-296 | each count of a case by places: expected defects that are reported and that are not, first reports of what nobody expects, and reports of what was reported before |
| EvaluationLaws.TotalsAreTold | crates/revoot-core/src/evaluation.rs:147-189 | each case adds those numbers to the totals |
| EvaluationLaws.ScoresAreTold | crates/revoot-core/src/evaluation.rs:186-198 | precision is the share of the true among the different reports and recall the share of the found among the expected defects, in floored basis points, and what they are when there is nothing to share |
| EvaluationLaws.CategoryRecallIsTold | crates/revoot-core/src/evaluation.rs:165-198 | recall is given for exactly the categories in which something is expected |
| EvaluationLaws.CategoriesAreTold | crates/revoot-core/src/evaluation.rs:165-184 | each case adds its expected and its found defects to each category |
| EvaluationLaws.FailuresAreTold | crates/revoot-core/src/evaluation.rs:200-219 | each failure is listed exactly when its threshold is missed, in a fixed order |

## Left out

- SHA-256, canonical serialization and the domain-separation prefixes of hashed fields: digests are functions of the hashed values.
- `classify_review_value` and `is_sensitive_model_context_path`: literal tables; class, value and sensitivity are inputs.
- The diff prelude, UTF-8 decoding and the byte, line-count and line-length limits in front of it (diff.rs, lines 225-335): reading starts at the first hunk header line, on lines already split.
- HTTP headers, the Link header and JSON in `gitlab_wire.rs`: pagination starts from parsed numbers and signals; `collect_discussion_inventory` adds only uniqueness checks and is not modelled.
- Content checks and Markdown rendering in `findings.rs`: the checks of an envelope, the renderers and the finding key are functions of the pipeline.
- The work-unit and plan digest views in `partition.rs`: one function each.
- Snapshot readiness and blob coverage in `snapshot.rs`: field-by-field checks.
- The rest of `config.rs`, the agent, egress and provider code, repository access and cancellation flags: I/O or field-by-field checks.
- PublicationHosts.AtMostOncePublication: assumes that a request is decided before the next inventory read, that confirmations carry the host's identity, and that nobody else posts as the bot; a host that breaks these can duplicate a comment.
- PublicationProgress.CanAlwaysFinish: shows that a completing continuation exists, not that a particular driver takes it; the driver's retry policy is not part of this model.
- DiffParsers.Parser.ParseHunks: says nothing about the parser object after an error, because the program drops it there.
- CivilDates.NextDay: is over unbounded integers; years that overflow 64-bit arithmetic cannot be written in the accepted four-digit form.
