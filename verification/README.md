# Verification model of raven_heart's agent core

A Dafny model of the logic in `agent_core/` that decides what reaches a prompt, what an event reader receives, and
what a resumed run may do, with proofs about it. Run `dafny verify dfyconfig.toml` to check the whole project.

**Context budget.** Materials are triaged, ranked and chosen greedily under a count cap and a byte cap (`Selector`,
`Greedy`); the selected ones become injections, are put in priority order and pass a policy with per-item and total
byte budgets (`InjectionPolicy`), which cuts texts with a trimmer that works on UTF-8 bytes (`Trim`, `Utf8`, `Utf8Char`).
`SelectionToPrompt` joins the two halves. UTF-8 is modelled from sections 3 and 4 of RFC 3629, and decoding with
`errors="ignore"` on arbitrary bytes, so that no cut ever splits a character is a theorem and not an assumption.

**Events.** An append-only log read by paged cursors while writers keep appending is a step system (`EventStream`);
`EventTail` is the bounded drain, `TraceChecks` the evaluator's sequence checks. The three sinks are classes
(`SinkObjects`); the Markdown file format is modelled down to its characters: Base64 as in section 4 of RFC 4648
(`Base64`), the JSON envelope (`RecordCodec`), the comment scanner of the regular expression (`RecordComments`) and
a file format that events and approvals share (`MarkdownFiles`, `EventSinks`, `ApprovalFiles`).

**Guards.** The approval queue, in memory and in a Markdown file, over whole runs of submissions and decisions, and the
grants a resumed run is given (`Approvals`, `ApprovalFiles`); the loop and stall detector (`LoopGuard`).

**Comparators, selectors and arithmetic.** Replay comparison (`ReplayDiff`), storage backend selection and the walk over
component manifests (`Backends`, `ComponentWalk`), cosine similarity, text embeddings and semantic ranking (`Cosine`,
`SemanticRanking`), embedding provider routing (`EmbeddingRouting`), capability discovery and recall
(`Capabilities`), and the tool inventory of a prompt (`ToolInventory`).

`Sequences`, `StableSort`, `Text`, `Json`, `Numbers` and `Options` hold what the others share: `sorted` is a stable insertion sort
that is proved to be the only stable sort, strings are compared by code point, and a JSON value is a datatype.

## Reading the model

- Text is a sequence of Unicode scalar values. In arithmetic, floats are real numbers and a square root is any function
  that squares back. In JSON a float is one of the finite values of the 64-bit format, an integer is kept apart from it,
  and Python's `==`, for which 1, 1.0 and True are equal, is modelled beside structural equality (`Json`).
- What Python does around the modelled code is a parameter: `json.dumps` and `json.loads` (assumed only to round-trip),
  `str` of a value that is not a string, the clock, fresh ids, `str.casefold`, `round`. A provider's answer to an
  embedding request, the score and target of a material, and the ranking of each capability source are parameters too.
- The clock and fresh ids are drawn anew whenever a Markdown file is read (`Json.Draw`): theorems over runs hold for all
  draws. One draw serves a whole reading. Two payloads without an id then share one, which the code draws for each;
  in both, such a file reads differently each time, and the theorems say so.
- A file is its text, a database table its rows in insertion order, and an exception is a `Result`, an `Option` or a
  case of the outcome. Asynchronous methods run to completion one at a time, and other writers are actions of the run.
- Where a property fails in general, a lemma shows an input on which it fails, and another proves the deciding condition
  in both directions: `EventStream.EqualSequencesLoseAnEvent` and `ExactlyOnceIffIncreasing`;
  `InjectionPolicy.BlankAfterTrimming` and `IncludedBlankIff`; `ApprovalFiles.ListedIdMayBeUnknown` and
  `FileMirrorsQueue`; `ReplayDiff.SpellingBreaksStrictness` and
  `OrderIsStricterIff`; `EmbeddingRouting.AnsweredCallMayBeLost` and `CallIsKeptIff`;
  `EmbeddingRouting.RecordedRouteMayBeWrong` and `RecordedRouteIsWrongIff`.
- `ApprovalCenter.resume_context` takes a run id and a subject, but no record is filtered by them
  (`agent_core/approvals.py:358-372`, `390-400`). The model follows the code: only the ids and the statuses narrow.

## Model

| member | source | states |
|---|---|---|
| Utf8.RoundTrip | agent_core/context.py:1704-1719 | Both the strict and the lenient decoder undo the UTF-8 encoder on every text. |
| Utf8.StrictAcceptsEncodings | agent_core/context.py:1704-1719 | The strict decoder accepts a byte sequence as a text exactly when it is that text's encoding. |
| Utf8.DecodeIgnoreShrinks | agent_core/context.py:1704-1719 | On arbitrary bytes the lenient decoder never yields a text that encodes into more bytes than it read. |
| Utf8.CutPrefix | agent_core/context.py:1714-1718 | Decoding the first n bytes of an encoding gives the longest prefix of whole characters that fits n bytes. |
| Utf8.CutSuffix | agent_core/context.py:1714-1718 | Decoding the last bytes of an encoding gives the longest suffix of whole characters that fits them. |
| Trim.CutKeeps | agent_core/context.py:1704-1719 | A trimmed text is, before the strip, the longest fitting head, the marker and the longest fitting tail, taken from disjoint parts of the text. |
| Trim.CutUsesBudget | agent_core/context.py:1711-1719 | The cut text stays within the budget and wastes at most six bytes of it. |
| Trim.TrimFits | agent_core/context.py:1704-1719 | For every text, budget and marker the result encodes into at most max(0, budget) bytes. |
| Trim.TrimBelowMarker | agent_core/context.py:1709-1712 | When the marker does not fit, the result is the longest prefix within the budget. |
| Trim.TrimmedToBlankIff | agent_core/context.py:1704-1719 | A text that is not blank is trimmed to white space exactly when the marker does not fit and the longest prefix within the budget is white space. |
| Trim.TwiceTrimmedToBlankIff | agent_core/context.py:1204-1240 | The same for the two trims of the policy, by the item limit and by what is left of the total. |
| Trim.TrimIdempotent | agent_core/context.py:1704-1719 | A text is unchanged exactly when it fits, and trimming twice is trimming once. |
| InjectionPolicy.Apply | agent_core/context.py:1193-1267 | The loop decides each injection in order: its status, reason, final content and recorded metadata are the right ones given the bytes granted before it. |
| InjectionPolicy.ApplyOne | agent_core/context.py:1196-1266 | One round keeps both budgets and gives the right status: denied for its target, else empty when blank, else refused when the total is used up, else granted, and trimmed exactly when a limit cut it. |
| InjectionPolicy.AllRightly | agent_core/context.py:1193-1267 | Each of the five statuses is given exactly under its own condition on target, content and the two limits, with its reason; what is granted has its policy record and keeps its other metadata. |
| InjectionPolicy.DecideWithinBudget | agent_core/context.py:1193-1267 | One decision keeps both budgets, never grows a text, and is `trimmed` exactly when it shrank the content of an admitted injection. |
| InjectionPolicy.BudgetsHold | agent_core/context.py:1193-1267 | Over every list, all bytes granted fit the total, each decision fits the item limit, and a refusal for the total happens only when it is used up exactly. |
| InjectionPolicy.DecisionsExtend | agent_core/context.py:1193-1267 | Decisions on a list are a prefix of the decisions on any longer list; the rest depend only on the bytes granted. |
| InjectionPolicy.ReapplyKeeps | agent_core/context.py:1193-1267 | Putting the included injections through the policy again includes every one that is not blank with the same content. |
| InjectionPolicy.BlankAfterTrimming | agent_core/context.py:1205-1240 | The exception is real: a trimmed injection can be blank, and is then `empty` the second time. |
| InjectionPolicy.IncludedBlankIff | agent_core/context.py:1193-1267 | An included injection is blank exactly when its target is allowed, it was not blank, the tighter limit cuts it without room for the marker to leading white space, and the item limit, if it cuts, has no room for the marker either. |
| InjectionPolicy.OrderedByKey | agent_core/context.py:1408-1414 | The builder's order goes by priority downwards, then by bucket in alphabetical order (dynamic first, timeline_open last), then name, and keeps injections with equal keys in their order. |
| InjectionPolicy.LowerPriorityNeverInterferes | agent_core/context.py:1313-1318 | In the builder's order, injections below a priority never change the decisions on those at or above it, wherever they stand. |
| InjectionPolicy.SectionsPartition | agent_core/context.py:1394-1405 | Every included injection that renders to text lands in exactly one of the six prompt buckets. |
| InjectionPolicy.SectionMeans | agent_core/context.py:1394-1405 | A bucket holds the rendered texts of its own injections that are not blank, in their order. |
| InjectionPolicy.RenderMeans | agent_core/context.py:1121-1126 | A rendered injection is a heading with its name and source, and its content without the outer white space. |
| Selector.Select | agent_core/context.py:1001-1096 | The selector returns the labelled ranking followed by the materials set aside, each with the status, score, target, rank and reason that the material calls for. |
| Selector.Triage | agent_core/context.py:1007-1045 | The first loop separates what is set aside at once, with its reason, from the candidates; `SelectionMeans` says which. |
| Selector.SelectionMeans | agent_core/context.py:1001-1096 | A material is set aside as empty, denied or below the threshold exactly when it is blank, or else its target is not allowed, or else it scores less than the minimum; all others are ranked, and whatever is selected reaches the minimum. |
| Selector.VerdictsMean | agent_core/context.py:1055-1080 | A ranked material is refused for the count, else for its bytes, and else selected, by what was selected before it. |
| Selector.Rank | agent_core/context.py:1051-1090 | The second loop gives every candidate in rank order its greedy verdict. |
| Selector.SelectionPartitions | agent_core/context.py:1001-1096 | Every material of the request comes out exactly once, as a multiset. |
| Selector.RankedInOrder | agent_core/context.py:1047-1054 | Candidates are ranked from 1 by score, then priority, then their place in the request. |
| Selector.SelectionKeepsCaps | agent_core/context.py:1051-1090 | Both caps hold; a material refused for bytes would still overflow at the end, one refused for the count sees a full count. |
| Selector.CountCapSelectsPrefix | agent_core/context.py:1051-1090 | A count cap of m selects exactly the first m materials selected without it. |
| Greedy.GreedyIsBest | agent_core/context.py:1054-1090 | A choice is the greedy one exactly when it respects the caps and no choice that does takes a better-ranked item it passed over. |
| SelectionToPrompt.InjectionsMeasured | agent_core/context.py:924-974 | The injections of a selection are as many, and as large, as the selected materials. |
| SelectionToPrompt.InjectionMeans | agent_core/context.py:924-945 | The injection repeats the selected material, names its source or else its role, and records score, rank, reason and target beside its metadata. |
| SelectionToPrompt.IncludedIff | agent_core/context.py:1193-1267 | A policy includes a list unchanged exactly when it allows each item alone and their sum fits the total. |
| SelectionToPrompt.SelectionSurvivesIff | agent_core/context.py:969-1267 | In any order, everything selected reaches the prompt untouched exactly when the policy allows each item and the selected bytes fit its total. |
| SelectionToPrompt.SelectingForThePolicyIsSafe | agent_core/context.py:1001-1318 | When the selector's limits are no wider than the policy's and no selected material is over the item limit, the builder trims and drops nothing. |
| Events.SelfNumberedLog | agent_core/events.py:273-276 | A log of events that come without sequences numbers them 1, 2, 3, and so on. |
| Events.AppendMeans | agent_core/events.py:273-276 | An emitted event comes last, with its own positive sequence or else the next number. |
| Events.ScopedMeans | agent_core/events.py:278-282 | The records of a run are the log's events of that run, each as often. |
| EventStream.CursorIsNormal | agent_core/events.py:98-101 | Normalizing a cursor drops repeated event types and raises a negative sequence to 0 and a limit to at least 1, and changes nothing about the events it matches beyond sequence 0. |
| EventStream.SelectedIsPending | agent_core/events.py:125-147 | Filtering one run's records and sorting is the same as sorting the whole log and filtering. |
| EventStream.SelectedMeans | agent_core/events.py:125-141 | A cursor selects, in order of sequence and as often as the log holds them, exactly the events behind its sequence with the run, run key, session and one of the types it asks for. |
| EventStream.FromLogMeans | agent_core/events.py:142-157 | A page is a prefix of the selection, shortened by the limit alone, with its last sequence; it is terminal exactly when it holds an event that ended a run. |
| EventStream.CursorAdvances | agent_core/events.py:125-157 | A poll never moves the cursor back, and moves it strictly forward exactly when its page holds events. |
| EventStream.PollTakesNext | agent_core/events.py:125-157 | A poll of a reader in step returns the next owed events, up to the limit, and tells whether more are left. |
| EventStream.ExactlyOnce | agent_core/events.py:125-157 | Over every interleaving of emits and polls, pages concatenate to the wanted events up to the cursor, none lost and none repeated, if their sequences increase. |
| EventStream.ExactlyOnceIffIncreasing | agent_core/events.py:125-157 | Every reader under every schedule and page limit gets exactly its events if and only if the wanted events were written with strictly increasing sequences. |
| EventStream.SelfNumberedDelivers | agent_core/events.py:273-276 | A sink that numbers its own events satisfies that condition for every query. |
| EventStream.EqualSequencesLoseAnEvent | agent_core/events.py:136-136 | Two events with one sequence on both sides of a page boundary: the second is never delivered. |
| EventTail.TailFromLog | agent_core/events.py:181-208 | The drain loop collects the pages of the recursive drain, with at least one and at most max(1, max_batches). |
| EventTail.TailIsPrefix | agent_core/events.py:181-224 | With distinct sequences and no terminal stop, m pages hold the first m × limit selected events, and the next cursor selects the remaining ones. |
| EventTail.TailIsPrefixIff | agent_core/events.py:181-224 | Without a terminal stop, m pages hold the first m × limit selected events if and only if no two of them with one sequence lie on both sides of a page boundary that the drain crosses. |
| EventTail.TailsCompose | agent_core/events.py:181-224 | Draining m pages and then n from the next cursor reads what draining m + n pages reads, whatever the sequences are. |
| EventTail.TailStopsAtTerminal | agent_core/events.py:194-201 | With the stop, the drain is the shortest number of whole pages that holds a terminal event, the batch bound, or everything. |
| EventTail.LastPageHasMore | agent_core/events.py:194-208 | Without the stop, the last page has more behind it exactly when m full pages do not span the selection. |
| EventTail.NoMoreMeansDone | agent_core/events.py:181-219 | With or without the terminal stop, a tail reports no more exactly when it met a terminal event or delivered everything selected. |
| TraceChecks.DuplicatesAreSurplus | agent_core/evals.py:3935-3937 | The duplicate count is the number of events beyond one per sequence, and zero exactly when all sequences differ. |
| TraceChecks.MonotonicHasNoDuplicates | agent_core/evals.py:3935-3943 | A log that passes the monotonicity check has no duplicates. |
| TraceChecks.MonotonicIffAllReadersServed | agent_core/evals.py:3940-3943 | The monotonicity check passes exactly when every reader of the log, whatever it asks for, gets its events exactly once. |
| Base64.Base64RoundTrip | agent_core/events.py:447-453 | Decoding an encoding gives the bytes back. |
| Base64.DecodesIff | agent_core/events.py:455-457 | Symbols and padding are decoded exactly when every group of four is complete or has the padding it lacks. |
| Base64.AlphabetIs | agent_core/events.py:447-453 | The alphabet of RFC 4648. |
| Base64.EncodedIsPayload | agent_core/events.py:441-453 | An encoding consists of characters the comment pattern accepts. |
| RecordComments.ScanSplitsAtTick | agent_core/events.py:441-444 | The scanner's matches in a text with a back-tick are those on its two sides: printed fields cannot join with the comments around them. |
| RecordComments.ScanComment | agent_core/events.py:391-444 | A printed comment is found with exactly its payload, whatever follows it. |
| RecordComments.ScanFile | agent_core/events.py:424-439 | The matches in a printed file are, in order, those of its lines: each comment, and whatever its printed fields hide. |
| RecordComments.PlainHidesNothing | agent_core/events.py:441-444 | A text without an opening bracket hides no record. |
| RecordCodec.CodecRoundTrip | agent_core/events.py:447-457 | JSON, UTF-8 and Base64 together give an object back. |
| MarkdownFiles.MarkdownRoundTrip | agent_core/events.py:397-439 | Reading a written file gives the same items, in order or as a multiset, exactly when each item survives its own codec and its printed fields hide no readable record. |
| EventSinks.StorableComesBack | agent_core/events.py:472-486 | An event survives the payload codec exactly when it has a known type and a creation time. |
| EventSinks.PayloadReads | agent_core/events.py:472-486 | A payload is read exactly when its type is known and its sequence is a number or missing; what it lacks gets its default. |
| EventSinks.OneEventFile | agent_core/events.py:424-439 | The lines an event is printed as. |
| EventSinks.EventLogRoundTrip | agent_core/events.py:397-439 | Scanning what the sink printed gives back the same events exactly when each is storable and hides no readable record in its printed fields. |
| EventSinks.KeepsIff | agent_core/events.py:397-486 | A file gives the events of one reading at every other one exactly when its readable events carry their creation times. |
| SinkObjects.ListEventSink.Emit | agent_core/events.py:273-276 | The event is appended, numbered with the next number if it has none. |
| SinkObjects.ListEventSink.Records | agent_core/events.py:278-282 | The records are the whole log, or those of one run in order. |
| SinkObjects.SQLiteEventSink.Emit | agent_core/events.py:302-320 | After any emits the rows are those of the list's log. |
| SinkObjects.SQLiteEventSink.Records | agent_core/events.py:322-334 | Reading returns the list sink's records, for every run filter, exactly when each of them is storable. |
| SinkObjects.DatabaseRoundTrip | agent_core/events.py:302-334 | Writing rows and reading them back, filtered or not, gives the same events exactly under that condition. |
| SinkObjects.MarkdownEventSink.constructor | agent_core/events.py:385-389 | Opening keeps an existing file and its events, and otherwise starts a file without events; every reading finds the same events exactly when the readable ones carry their creation times. |
| SinkObjects.MarkdownEventSink.Emit | agent_core/events.py:391-395 | The file is rewritten with the new event behind the records that it held; with good events it keeps holding the list's log. |
| SinkObjects.MarkdownEventSink.Records | agent_core/events.py:397-407 | With good events the file returns the list sink's records, filtered or not. |
| SinkObjects.MarkdownAgreesWithList | agent_core/events.py:391-439 | Over every run of emits on every initial file, each reading drawing its own time, the file holds at all times the log of a list begun with its events, exactly when those carry their creation times and, once anything is emitted, they and every emitted event are good. |
| SinkObjects.FreshMarkdownAgreesWithList | agent_core/events.py:391-439 | From a fresh file the condition is that every emitted event is good. |
| Approvals.InMemoryApprovalStore.constructor | agent_core/approvals.py:439-443 | A store built from coherent records is well formed, and keeps them as they are when their ids differ. |
| Approvals.InMemoryApprovalStore.Submit | agent_core/approvals.py:445-461 | Submitting stores one pending record without a decision and changes nothing else. |
| Approvals.InMemoryApprovalStore.Decide | agent_core/approvals.py:463-471 | Deciding fails, changing nothing, on an unknown or resolved id; otherwise it resolves exactly that record. |
| Approvals.InMemoryApprovalStore.PendingRecords | agent_core/approvals.py:476-477 | The pending records are exactly the undecided ones, in order of creation. |
| Approvals.ListedMeans | agent_core/approvals.py:479-480 | Records are listed by creation time, those of one time in store order, none lost. |
| Approvals.RefusalMeans | agent_core/approvals.py:463-471 | A decision fails as unknown exactly when no record has the id, and as resolved exactly when its record has a decision. |
| Approvals.RunsStayWellFormed | agent_core/approvals.py:445-471 | After any run ids are unique, a record is pending exactly when it has no decision, and a decided one has its decision's status. |
| Approvals.FirstDecisionWins | agent_core/approvals.py:463-471 | The first decision on a pending record settles it for good; later ones change nothing. |
| Approvals.SubmittedFate | agent_core/approvals.py:445-471 | A submitted record stays in the store and carries the first decision made after its submission. |
| Approvals.NothingElseStored | agent_core/approvals.py:445-471 | An id in the store was there at the start or was submitted. |
| Approvals.PendingAdds | agent_core/approvals.py:445-477 | The pending count is the initial one plus the submissions less the decisions that went through. |
| Approvals.ResumeGrantsWanted | agent_core/approvals.py:349-376 | Building a resume context never raises and grants exactly the decided records with a wanted id and status. |
| Approvals.ApprovedFor | agent_core/approvals.py:144-150 | A grant is found for a subject exactly when some grant approves that subject. |
| Approvals.GateNeedsApproval | agent_core/approvals.py:144-150 | Over every run of a store with any initial records, a resumed run passes the gate for a subject exactly when a wanted request about it was approved already, or was pending or submitted and first decided by an approval. |
| ApprovalFiles.StorableComesBack | agent_core/approvals.py:723-779 | A record survives the payload codec exactly when it has an id and its times are not empty. |
| ApprovalFiles.RecordReads | agent_core/approvals.py:751-791 | A payload is read exactly when it has a request, a status of the four or none, readable metadata and, if it holds a decision, a readable one; what it lacks gets its default. |
| ApprovalFiles.DecisionReads | agent_core/approvals.py:757-765 | A decision is read exactly when its status is one of three or missing, which means approved. |
| ApprovalFiles.OneRecordFile | agent_core/approvals.py:685-707 | The lines a record is printed as. |
| ApprovalFiles.RecordsRoundTrip | agent_core/approvals.py:651-707 | Reading written records gives the same ones, in order or as a multiset, exactly when each is good. |
| ApprovalFiles.SaveMirrors | agent_core/approvals.py:679-707 | Saving into a file that mirrors the queue mirrors its next state exactly when all its records are good. |
| ApprovalFiles.SaveKeeps | agent_core/approvals.py:679-707 | The same for every pair of readings, before and after the save, each with its own time and ids. |
| ApprovalFiles.MarkdownApprovalStore.Submit | agent_core/approvals.py:614-630 | The file becomes the one the run specification gives, and mirrors the queue while all records are good. |
| ApprovalFiles.MarkdownApprovalStore.Decide | agent_core/approvals.py:632-640 | While the file mirrors the queue, deciding has the in-memory store's outcome, errors included. |
| ApprovalFiles.MarkdownApprovalStore.Get | agent_core/approvals.py:642-646 | While the file mirrors the queue, looking up an id finds what the in-memory store holds. |
| ApprovalFiles.MarkdownApprovalStore.constructor | agent_core/approvals.py:610-612 | An existing file is opened as it is, and mirrors the queue of its records at every reading exactly when its readable payloads carry their ids and times and it lists no id twice. |
| ApprovalFiles.FileMirrorsQueue | agent_core/approvals.py:614-707 | Over every run on every initial file, each reading drawing its own time and ids, the Markdown store holds the in-memory store's records at all times exactly when each readable payload of the file carries its id and times, the file lists no id twice, and all records are good whenever it is written. |
| ApprovalFiles.FileMirrorsQueueIffSuppliesGood | agent_core/approvals.py:614-707 | The same, with the condition on what is supplied: the file's payloads and records, each submitted record, and the time and the actor of each decision that goes through. |
| ApprovalFiles.OpeningKeeps | agent_core/approvals.py:651-661 | A file gives the records of one reading at every other one exactly when its readable payloads carry their ids and times and it lists no id twice. |
| ApprovalFiles.ListedIdMayBeUnknown | agent_core/approvals.py:632-757 | A file whose one payload lacks an id: nothing is written, and the id that one reading lists cannot be decided on at the next. |
| ApprovalFiles.SameListing | agent_core/approvals.py:651-661 | With distinct creation times both stores list their records in the same order. |
| ApprovalFiles.InOrderMeans | agent_core/approvals.py:661-661 | The file's records are listed by creation time, those of one time by id, none lost. |
| LoopGuard.Guard.Observe | agent_core/loop_guard.py:53-111 | The count is the length of the run of equal fingerprints that ends the history; `stalled` and `warning` hold exactly when the last max(1, limit) observations are equal. |
| LoopGuard.Guard.Reset | agent_core/loop_guard.py:113-115 | Resetting starts an empty history. |
| LoopGuard.RepeatsIsLongest | agent_core/loop_guard.py:83-96 | The count is maximal: k equal fingerprints end the history exactly when k is at most the count. |
| ReplayDiff.Compare | agent_core/evals.py:3682-3714 | The comparator reports exactly the issues of the specification, and is ok when there are none. |
| ReplayDiff.CompareOrderedSteps | agent_core/evals.py:3802-3850 | The index loop reports a mismatch, a missing or an unexpected step for each place that differs. |
| ReplayDiff.CompareCounts | agent_core/evals.py:3779-3800 | The loop over one counter difference appends one issue for each signature that occurs more often on that side. |
| ReplayDiff.OrderedAgree | agent_core/evals.py:3802-3850 | Ordered comparison finds nothing exactly when the projected step sequences are equal. |
| ReplayDiff.OrderedIssuesMean | agent_core/evals.py:3802-3850 | Ordered comparison reports every place that differs, as unexpected, missing or different, and nothing else. |
| ReplayDiff.BagIssuesMean | agent_core/evals.py:3777-3800 | Unordered comparison reports as missing what the expected steps have more of and as unexpected what the actual ones have more of, with the surplus and the other side's count, and nothing else. |
| ReplayDiff.FieldIssuesMean | agent_core/evals.py:3720-3765 | Field and summary comparison reports exactly the listed fields whose values differ, with both values. |
| ReplayDiff.SeenMeans | agent_core/evals.py:4308-4314 | Two steps project alike exactly when type, and on demand source and payload, are equal, payloads by Python's `==`. |
| ReplayDiff.SignatureMeans | agent_core/evals.py:4317-4323 | Two steps have one signature exactly when type, and on demand source and printed payload, are the same. |
| ReplayDiff.ViewMeans | agent_core/evals.py:4308-4314 | An issue shows a step's type, and on demand its source and payload. |
| Json.SameObjects | agent_core/evals.py:3840-3842 | Dictionaries are equal exactly when they have the same keys with equal values. |
| Json.IntEqualsFloat | agent_core/evals.py:4337-4344 | A whole number and a float are equal exactly when the float is that number. |
| Json.BoolEqualsInt | agent_core/evals.py:3840-3842 | True equals 1, false equals 0, and a bool equals no other whole number. |
| Json.FloatEdges | agent_core/evals.py:4337-4344 | The edges of the finite 64-bit floats. |
| Json.IntAtMeans | agent_core/events.py:478-478 | A missing or empty sequence is 0, a whole number itself, and the rest is left to `int`. |
| Json.DictAtMeans | agent_core/approvals.py:764-778 | Missing or empty metadata is an empty dictionary, a dictionary itself, and the rest is left to `dict`. |
| Json.FalsyMeans | agent_core/events.py:254-261 | What `or` replaces by a default: null, a number equal to 0, and whatever is empty. |
| Json.TextAtMeans | agent_core/events.py:254-261 | An entry read as text equals a text that is not empty exactly when it is there and is that text or prints as it. |
| ReplayDiff.CountsAreDifferences | agent_core/evals.py:3779-3800 | The counts reported on one side add up to the multiset difference. |
| ReplayDiff.BagsAgree | agent_core/evals.py:3767-3800 | Unordered comparison finds nothing exactly when the signature multisets are equal; missing less unexpected is the difference in length. |
| ReplayDiff.BagIssuesInOrder | agent_core/evals.py:3779-3800 | What is missing is reported before what is unexpected, each in the order of the signatures. |
| ReplayDiff.OkMeansSameShape | agent_core/evals.py:3682-3714 | Ok means equal projections under the spec, so for a fixed spec it is an equivalence of traces. |
| ReplayDiff.OrderedOkImpliesBagOk | agent_core/evals.py:3767-3850 | When payloads are not compared, traces that compare ok in order compare ok out of order. |
| ReplayDiff.OrderIsStricterIff | agent_core/evals.py:3767-3850 | Order is the stricter comparison on a domain of payloads if and only if payloads are not compared or equal payloads of the domain are written alike. |
| ReplayDiff.SpellingBreaksStrictness | agent_core/evals.py:4308-4323 | With payloads compared, 1 against 1.0 is ok in order and a missing and an unexpected step out of order. |
| ReplayDiff.IgnoredStepsAreInvisible | agent_core/evals.py:4300-4305 | Inserting a step of an ignored type anywhere changes no issue. |
| Backends.Evaluate | agent_core/backends.py:395-453 | The candidate is matched exactly when the backend satisfies the requirement, no candidate scores above the requirement's full score, and every matched one reaches it. |
| Backends.MatchedMeansSatisfied | agent_core/backends.py:395-453 | A candidate is matched exactly when it satisfies the requirement, and all matched candidates have the same, highest score. |
| Backends.ReasonsMean | agent_core/backends.py:395-453 | Each reason is given exactly when the fields of backend and requirement call for it, and a requirement is satisfied exactly when none does. |
| Backends.ScoreMeans | agent_core/backends.py:395-453 | Four points for the kind, three for a namespace asked for, two for each flag asked for, one for each capability, where they hold. |
| Backends.SelectsFirstBest | agent_core/backends.py:456-470 | The selected candidate is the first-registered greatest one among the matched, and there is one if any matched. |
| Backends.SelectedIsMaximum | agent_core/backends.py:232-470 | The selected backend is, among the registered ones of the role that satisfy the requirement, the lexicographic maximum by durable, transactional, queryable and name. |
| Backends.SelectReadyMeans | agent_core/backends.py:232-265 | A selection is ready exactly when some registered backend of the role satisfies the requirement. |
| Backends.PreflightReadyMeans | agent_core/backends.py:164-174 | Preflight is ready exactly when something is required and some registered backend satisfies each requirement. |
| Backends.BlockingMeans | agent_core/backends.py:172-174 | The blocking count is the number of requirements that no registered backend of their role satisfies. |
| Backends.RegisteringKeepsReady | agent_core/backends.py:217-276 | Registering more backends never turns a ready preflight into a blocked one. |
| Backends.Catalog.Register | agent_core/backends.py:217-220 | Registering appends, and keeps every ready preflight ready. |
| Backends.Catalog.Check | agent_core/backends.py:267-276 | The preflight of the catalog, with what its readiness means. |
| ComponentWalk.FromComponents | agent_core/backends.py:297-331 | The recursive walk with its mutable list and set yields the first manifest of each key in walk order. |
| ComponentWalk.Extraction.Add | agent_core/backends.py:305-316 | A manifest is added unless its key was seen. |
| ComponentWalk.WalkCollectsReachable | agent_core/backends.py:318-327 | The walk collects exactly the backend manifests that a path of children reaches without passing through another one. |
| ComponentWalk.BackendMeans | agent_core/backends.py:318-321 | A dictionary is a backend manifest exactly when its schema version is that of storage backends. |
| ComponentWalk.SameKeyMeans | agent_core/backends.py:305-312 | Manifests have one key exactly when role, kind, name, namespace and location read the same. |
| ComponentWalk.ExtractionCoversReachable | agent_core/backends.py:297-331 | Everything extracted is a reachable backend manifest, and every reachable one has its key among the extracted. |
| ComponentWalk.ExtractionIsCanonical | agent_core/backends.py:297-331 | Extracted manifests have distinct keys, cover every reachable key, keep first occurrences in order, and extracting again changes nothing. |
| Cosine.CauchySchwarz | agent_core/embeddings.py:452-461 | The square of a dot product is at most the product of the squares. |
| Cosine.CosineBounds | agent_core/embeddings.py:452-461 | For all vectors, of any lengths, the similarity is between -1 and 1 and symmetric. |
| Cosine.CosineIgnoresScale | agent_core/embeddings.py:452-461 | Multiplying a vector by a positive factor does not change its similarity to anything. |
| Cosine.CosineOneMeansParallel | agent_core/embeddings.py:452-461 | Two non-zero vectors of one length have similarity 1 exactly when one is a positive multiple of the other. |
| Cosine.CosineMinusOneMeansOpposed | agent_core/embeddings.py:452-461 | They have similarity -1 exactly when one is a positive multiple of the other turned round. |
| Cosine.LawOfCosines | agent_core/embeddings.py:452-461 | The law of cosines for two non-zero vectors of one length, which fixes the similarity. |
| Cosine.SimilarityTimesLengths | agent_core/embeddings.py:452-461 | The similarity times both lengths is the product of the vectors. |
| Cosine.DotPicksSlot | agent_core/embeddings.py:457-457 | The product with an axis is the vector's slot there, so with linearity it is the sum of the products of the slots. |
| Cosine.CosineSign | agent_core/embeddings.py:452-461 | The similarity has the sign of the product and is 0 with a zero vector. |
| Cosine.CosineOfPrefixes | agent_core/embeddings.py:452-456 | Only the slots that both vectors have count, and an empty vector is similar to nothing. |
| Cosine.TextEmbedding | agent_core/embeddings.py:438-449 | An embedding has max(1, dimensions) slots, is zero or of unit length, and points where the signed token weights add up to. |
| Cosine.Weight | agent_core/embeddings.py:444-445 | A token adds or takes away 1 and a 24th for each character, up to 2. |
| Cosine.SlotSumIgnoresOrder | agent_core/embeddings.py:441-445 | What the tokens add up to does not depend on their order. |
| SemanticRanking.Rank | agent_core/embeddings.py:402-435 | The hits are the top of the ranking of the documents with a positive similarity, numbered from 1. |
| SemanticRanking.HitsMean | agent_core/embeddings.py:420-435 | Hits are as many as the limit allows, and exactly the documents whose vectors have a positive product with the query's over the shared slots are ranked. |
| SemanticRanking.RankingMeans | agent_core/embeddings.py:420-429 | Scores are above 0 and at most 1 and do not rise, ties fall to priority and name, and a document is ranked exactly when its similarity is positive. |
| SemanticRanking.RankingIgnoresLengths | agent_core/embeddings.py:402-461 | Stretching the vectors, each by its own positive factor, changes neither the hits nor their scores. |
| EmbeddingRouting.Center.Register | agent_core/embeddings.py:191-218 | Registering needs a name and replaces the entry of that name only. |
| EmbeddingRouting.Center.FindEntry | agent_core/embeddings.py:304-314 | The search for an entry, in order of priority and name, finds exactly the chosen one, errors included. |
| EmbeddingRouting.Center.Embed | agent_core/embeddings.py:253-284 | A call is recorded exactly when a provider was reached; the result carries the route of the second selection, fails exactly when the call is lost, and names the provider called exactly when the route is stable, as it is with sound defaults. |
| EmbeddingRouting.SelectedMeans | agent_core/embeddings.py:296-314 | The entry is the one asked for by name if it supports the request, or else the supporting entry that precedes all others. |
| EmbeddingRouting.ChosenIsSelected | agent_core/embeddings.py:112-314 | On the fields of the specs: the chosen provider has the model on its list, room for the inputs and no other width, and is the one asked for, or else precedes all that meet this. |
| EmbeddingRouting.NoneIsChosen | agent_core/embeddings.py:296-314 | Selection fails exactly when no provider meets this, and names what was asked for. |
| EmbeddingRouting.InputLimit | agent_core/embeddings.py:116-117 | A provider that serves a request serves it with fewer inputs, and one with a limit up to just that many. |
| EmbeddingRouting.RouteIsStableIff | agent_core/embeddings.py:244-332 | Selecting again with the routed request finds the provider that was called if and only if it lists the routed model and no earlier provider takes the request over. |
| EmbeddingRouting.CallIsKeptIff | agent_core/embeddings.py:253-332 | An answered call is kept if and only if its provider lists the routed model, or none was asked for by name and some registered provider takes that model, these inputs and this width. |
| EmbeddingRouting.RecordedRouteIsWrongIff | agent_core/embeddings.py:253-332 | The recorded route names a provider that was not called if and only if the call is kept and the route is not stable. |
| EmbeddingRouting.NamedModelsKeepTheirRoute | agent_core/embeddings.py:244-332 | A request that names its model keeps its route whatever is registered. |
| EmbeddingRouting.SoundDefaultsKeepRoutes | agent_core/embeddings.py:112-120 | If each provider lists its default model, or the center's where it has none, every route is stable and recorded truly. |
| EmbeddingRouting.AnsweredCallMayBeLost | agent_core/embeddings.py:253-284 | An input on which a provider answers and the call still fails. |
| EmbeddingRouting.RecordedRouteMayBeWrong | agent_core/embeddings.py:279-283 | An input on which the recorded route names a provider that was never called. |
| Capabilities.DiscoveryAccounts | agent_core/capabilities.py:279-290 | Shown and omitted matches add up to all matches, and as many are shown as the limit allows. |
| Capabilities.DiscoveredInOrder | agent_core/capabilities.py:262-290 | What is shown stands for items of the sources, with one part in the rank as its score, by score, kind and name. |
| Capabilities.DiscoveryIsFair | agent_core/capabilities.py:275-286 | When the item ranked i in one source is shown, every item ranked ahead of i in any other source is shown. |
| Capabilities.ScoreMatches | agent_core/capabilities.py:319-330 | The loop scores what the whitelist admits, with the boost and the penalty of each name. |
| Capabilities.Recall | agent_core/capabilities.py:292-345 | Shown, omitted and whitelist-dropped matches add up to all matches, and no shown tool is outside the whitelist. |
| Capabilities.RecallConsiders | agent_core/capabilities.py:297-333 | Recall ranks, by score and name, exactly the allowed ones among the best three times the limit of discovery. |
| Capabilities.ScoreMeans | agent_core/capabilities.py:319-325 | A recall score is the match's own, one part in its place, 0.2 more for a recent name and 0.35 less for a failed one. |
| Capabilities.BarredMeans | agent_core/capabilities.py:301-321 | Exactly the tools of the catalog or a server that a whitelist with some text does not list are barred. |
| Capabilities.RecallKeepsOrderAmongAlike | agent_core/capabilities.py:318-331 | Recall moves only what is recent or has failed: candidates alike in both keep the order discovery gave them. |
| Capabilities.OvertakingNeedsFavour | agent_core/capabilities.py:318-331 | A candidate overtakes one that discovery put ahead of it only if that one has failed and it has not, or if they are alike in that and only it is recent. |
| Capabilities.PlainRecallIsDiscovery | agent_core/capabilities.py:292-333 | With no recent tools, failures or whitelist, recall shows what discovery shows under the same limit. |
| ToolInventory.RenderInventory | agent_core/capabilities.py:627-676 | Shown and reported-omitted tools add up to the enabled ones, and the lines shown are the ordered tools fitted to the budget. |
| ToolInventory.FixedToolsInOrder | agent_core/capabilities.py:631-650 | Once there is a fixed tool, exactly the fixed tools are listed, in the order of the priority list and then of their names. |
| ToolInventory.FixedMeans | agent_core/capabilities.py:679-686 | A tool is fixed by its name, a flag of its metadata or one of its tags. |
| ToolInventory.OtherToolsInOrder | agent_core/capabilities.py:645-650 | Without a fixed tool, up to twenty tools are listed by name, and more are not listed. |
| ToolInventory.PlainLine | agent_core/capabilities.py:689-693 | A tool that has only a name is listed by it. |
| ToolInventory.FullLine | agent_core/capabilities.py:689-693 | Tags, aliases and description follow the name, lists with commas. |
| ToolInventory.LineTakes | agent_core/capabilities.py:660-661 | A line takes its bytes and one for the line break. |
| ToolInventory.FitLines | agent_core/capabilities.py:654-671 | The line loop, with its early exit, shows and counts what the greedy choice does. |
| ToolInventory.ShownLinesFit | agent_core/capabilities.py:654-671 | The lines shown fit the budget unless there is none or a single line alone is over it. |
| ToolInventory.OmittedLinesOverflow | agent_core/capabilities.py:654-671 | When the first line fits, every line left out would overflow four bytes a token. |
| ToolInventory.InventoryIsBest | agent_core/capabilities.py:654-671 | When the first line fits, no choice within the budget takes a line that was passed over without giving up an earlier one. |
| StableSort.StableSortIsUnique | agent_core/context.py:1408-1414 | A sequence is the result of `sorted` exactly when it is sorted and keeps elements with equal keys in their order. |
| Text.StrLeqMeans | agent_core/embeddings.py:286-294 | Strings are ordered by the first character that differs, a prefix first. |
| Text.DecimalReads | agent_core/events.py:433-437 | A printed sequence reads back as its number. |
| Text.SpacesAre | agent_core/context.py:1212-1212 | The 29 characters that `str.strip` removes. |
| StableSort.FilterCommutesWithSort | agent_core/events.py:131-141 | Sorting and filtering commute, which is what stability means for every subset. |

## Left out

- Cosine.CosineBounds: reals with an exact square root stand for floats; rounding can leave a similarity just outside the bounds.
- Cosine.TextEmbedding: tokens come as their SHA-256 slot number, sign and length; tokenization and hashing are not modelled.
- EventSinks.EventLogRoundTrip: a number such as `1e999` is read as an infinity, and as a hidden record's sequence it raises an `OverflowError` that `records()` does not catch (`agent_core/events.py:400-404`), so that every later read fails where the model skips the record.
- SinkObjects.SQLiteEventSink.Emit: the table is a sequence of rows, without SQLite's 64-bit integer range or its storage.
- SinkObjects.MarkdownEventSink.Emit: a file is text; line-ending translation by the operating system is not modelled.
- Approvals.InMemoryApprovalStore.Submit: the id and the time are the caller's; the theorems over runs assume fresh ids.
- Backends.Evaluate: the reasons are constructors of a datatype and not texts.
- LoopGuard.Guard.Observe: the fingerprint stands for the hash of action and result; the messages are not modelled.
- Capabilities.Recall: each source's ranking of its own items by the query is given; the search index is not modelled.
- Lone surrogates, which `str` admits and UTF-8 encoding refuses, are not texts of the model.
- NaN and the infinities, which `json.dumps` writes although RFC 8259 has no such numbers, are not JSON values of the model.
- `ContextMaterialCenter.search` and the material stores: merged results are scored anew after metadata is added, so no global ranking holds.
- Material scores, target aliases and search terms are parameters of the selector.
- The header of a rendered injection is added outside the budget, so no bound on rendered prompt bytes is claimed.
- The rest of the prompt builder: system text, tools, skills, timeline and capabilities sections.
- `SQLiteApprovalStore` and `NullApprovalStore`: the same life cycle over rows, and a store that keeps nothing.
- `ApprovalCenter.view` and the manifests of all components: projections without further logic.
- The extraction of replay steps from a trace, and the evaluator's independent one-branch checks.
- The spelling of backend specs from dictionaries and classes, and the rendering of prompts from discovery and recall results.
- Concurrency inside one operation: each operation of a store or sink is one step of a run.
