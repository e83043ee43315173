# gRParse: a verified model of the document core

gRParse turns pages, text layers and office files into one `Document`: arenas of items that refer to each
other by name, a body tree, and a stream of events that carries the result to a client. This project models
the parts of it whose correctness is hard to read off the code, and proves what they are for.

`dafny verify dfyconfig.toml` checks everything. The modules, by component:

- **Fast matching.** `EditDistance` holds the Levenshtein distance (as least cost of an edit script) and the
  banded, early-exiting programs that compute it; `Titles` the title normalization and similarity;
  `BookmarkLevels` the bookmark matching that puts an exact-title index and a shrinking distance limit on top.
- **The streaming reactor.** `StreamReactor` is the state machine of `DocumentStreamReactor`, one step a
  locked handler, with the scheduler, the collectors and gRPC as an environment (`Allowed` says what the
  environment promises). `ReactorInvariant` proves the invariant step by step, `ReactorRuns` what holds of
  every run, `ReactorReports` how the outcomes of a call's parts decide its end and `ReactorTickets` when its
  page run is called off, and `ReactorObject` is the class with the program's fields, each method proved equal
  to its step.
- **Documents.** `Documents` is the data model: a canonical reference such as `#/texts/12` is `At(Texts, 12)`;
  a document is well-formed when items sit where their names say, every reference resolves, parent and
  child links agree, and nothing is listed twice. `DocumentMerge`, `RenameLog`, `Retirement` with
  `RetirementKeeps`, `RetirementOrder` and `RetirementChains`, `Continuations` with `ContinuationRules`,
  `TitleLines`, `GroupSplit` with `FloatSplit`, and `ListGroups` are the operations that rename, drop, join,
  split and gather items.
- **Reading order.** `XyCut` (with `Sorting`) is the recursive cut, `CutChoice` says what its choice of an
  axis means for the order and `CutDepth` when it ends; `BodyChains`, `BodyOrder` and `BodyLayout` order the
  body page by page, and `PageRules` says what stands before what on a page; `BlockExtents` floods text blocks;
  `OcrPages` binds a page's lines to its regions, `LineOrder` orders them, `LineRules` says what may follow
  what, and `TableLines` and `TableGrid` share them between tables and prose.
- **Texts and positions.** `Hyphenation` rejoins hyphenated words and remaps positions, and `HyphenRules` says
  which bytes go; `Joining` joins the texts of a continued paragraph and moves their ranges, and `JoinRules`
  says how the halves meet; `Utf8`, `ListMarker` and `MarkerSplit` read list markers, and `MarkerForms` lists
  their forms; `PageOffsets` writes the offset table beside the plain text, which `PageTexts` reads back;
  `LeadBytes` counts code points by lead bytes.
- **Byte formats.** `CompoundFile` and `CompoundStreams` read [MS-CFB] compound files, and `CompoundBytes` says
  where each field stands; `Base64` is RFC 4648 section 4, and `Base64Digits` the numbers its quads write.

Program loops are methods proved equal to specification functions; what the program promises is proved of
those functions, and the modules named for rules, forms, choice, order, reports and bytes state it again by
positions, boxes and bytes, without the functions themselves. Coordinates and similarities are reals. The
program's exceptions are results.

## What turned out not to hold

Each of these is proved: the code fails on the input named, and the stated condition is exact.

- The rename log is not the composition of the renames once an item that kept its own name, and had another
  absorbed into it, is itself renamed: with items a and b, a renamed to b and then b to c
  (`RenameLog.AbsorbedThenMoved`). For any items, it is exact after a step if and only if the step renames no
  such item (`RenameLog.RecordExactIff`, `RenameLog.LogIsCompositionIff`); a name that was no item's at first
  may be renamed at will (`RenameLog.FreshNameMoves`).
- The next page in turn, accepted after the Finish call, starts a write: `on_page` tests only that the client
  is still there (`ReactorRuns.LatePageHappens`). A write is started after Finish if and only if a page is
  accepted after Finish at its turn; one that is out of turn is held and starts none
  (`ReactorRuns.WritesAfterFinish`). At the Finish call itself nothing waits and nothing is being written
  (`ReactorRuns.FinishesIdle`).
- Splitting a group around a float leaves a document whose group's second text is a code item with links that
  do not agree (`GroupSplit.CodeItemIsLeftBehind`). The links stay two-sided if and only if no code item is
  among the children that move; a code item keeps naming the old group its parent
  (`GroupSplit.SplitWellFormedIff`).
- Retirement follows chains of absorption to the end when it hands on children, but looks a survivor up only
  in what it has renumbered so far when it renames references. With text 1 absorbed by text 2 and that by
  text 0, visited in this order, a link to text 1 dangles; visited the other way round the document stays
  well-formed (`RetirementChains.VisitOrderDecides`). For any chains: every reference is followed to the text its
  chain ends with if and only if each retired survivor is visited before the texts it absorbed
  (`RetirementChains.AllFollowedIff`). No reference of the document dangles if and only if that holds along
  the chain of each reference still held, or the old name it is left with is one some text has taken since
  (`RetirementChains.ChainedRetireClosedIff`), and the document stays well-formed if and only if, besides,
  every item finds its parent (`RetirementChains.ChainedRetireWellFormedIff`). Chains are latent in the code as
  it stands: retirement has two callers, and neither the continuation pass (`Continuations.CollectContinuations`)
  nor the merging of title lines (`TitleLines.TitleAbsorption`, src/heading_hierarchy.cpp:467-480) produces one.
- The recursive cut never ends on two equal boxes whose bottom is above their top
  (`CutDepth.InvertedPairNeverEnds`). For any boxes, a cut leaves its near side empty, and hands the same boxes
  on, if and only if each of them starts beyond the gap; one of them is then turned inside out
  (`CutDepth.NoProgressIff`). The recursion ends if and only if no cut on the way down is of that kind
  (`CutDepth.CutEndsIff`), as on boxes none of which is turned inside out (`CutDepth.UprightEnds`); the boxes
  of placements and of lines never are.
- Base64 decoding accepts a last symbol with unused bits set: `QR==` decodes, and what it decodes to encodes
  to `QQ==` (`Base64.UnusedBitsAreLost`). What decodes encodes back to itself if and only if those bits are
  zero (`Base64.EncodesBackIff`). The empty byte string encodes, and does not decode (`Base64.RoundTrip`).

## Model

| member | source | states |
|---|---|---|
| `EditDistance.DistanceIsLeastScript` | src/heading_hierarchy.cpp:866-870 | the reference distance: some edit script attains it and none costs less |
| `EditDistance.DistanceSymmetric` | src/heading_hierarchy.cpp:872 | swapping the operands changes no distance, which is what lets the shorter one lead |
| `EditDistance.DistanceBounds` | src/heading_hierarchy.cpp:876 | the distance is at least the difference in length, at most the longer length |
| `EditDistance.RowExceeds` | src/heading_hierarchy.cpp:893 | once a whole band row is over the limit, so is the final distance |
| `EditDistance.FillRow` | src/heading_hierarchy.cpp:879-895 | one band row: the true distances up to the limit, and a row minimum over the limit exactly when the whole row is |
| `EditDistance.BandedDistance` | src/heading_hierarchy.cpp:870-897 | the band with early exit gives the distance, or limit + 1 when it is over the limit, and computes exactly the cells of the band down to the first row that is wholly over the limit |
| `EditDistance.BoundedEditDistance` | src/heading_hierarchy.cpp:870-897 | the same for any two texts, whichever is longer, with the exact number of cells |
| `EditDistance.CellsAtMost` | src/heading_hierarchy.cpp:870-897 | which is at most the whole band of the shorter text |
| `EditDistance.EditDistanceByRow` | src/heading_hierarchy.cpp:842-852 | the one-row program computes the distance |
| `EditDistance.NextRow` | src/heading_hierarchy.cpp:846-850 | one row overwritten in place by the next |
| `Titles.NormalizeTitle` | src/heading_hierarchy.cpp:819-833 | the title program computes the normalized title |
| `Titles.NormalizedIsNormal` | src/heading_hierarchy.cpp:819-833 | lower-case words, one space between two, none at the ends |
| `Titles.NormalizedIdempotent` | src/heading_hierarchy.cpp:819-833 | normalizing twice is normalizing once |
| `Titles.NormalizedKeepsLetters` | src/heading_hierarchy.cpp:819-833 | no letter or digit is lost, added or moved |
| `Titles.NormalizedNext` | src/heading_hierarchy.cpp:819-833 | byte by byte: what is no ASCII letter or digit and inside ASCII is dropped; a byte of a word follows in lower case, behind one space exactly where a word other than the first starts |
| `Titles.HeadingTitleSimilarity` | src/heading_hierarchy.cpp:837-855 | similarity lies in 0..1 and is 1 exactly for titles equal once normalized |
| `Titles.SimilarityRange` | src/heading_hierarchy.cpp:840-854 | similarity of normalized titles lies in 0..1 and is 1 exactly for equal ones |
| `Titles.SimilarityIs` | src/heading_hierarchy.cpp:853-854 | similarity times the longer length is that length less the distance |
| `BookmarkLevels.CutOffIsBelowFloor` | src/heading_hierarchy.cpp:950-955 | a comparison stopped at the shrinking limit could not have reached the floor |
| `BookmarkLevels.WithinLimitReachesFloor` | src/heading_hierarchy.cpp:950-955 | the limit is tight: a distance is within it exactly when its similarity reaches the floor, up to the rounding the program absorbs |
| `BookmarkLevels.CompareWithin` | src/heading_hierarchy.cpp:944-957 | the true similarity, or the certainty that it is below the floor, and exactly the cells the comparison costs |
| `BookmarkLevels.IndexTitles` | src/heading_hierarchy.cpp:915-921 | the index lists, for every title, all its positive-level entries in outline order |
| `BookmarkLevels.ExactIsFirstBest` | src/heading_hierarchy.cpp:930-938 | the first page-compatible entry of the equal title is the first best of the whole outline |
| `BookmarkLevels.FindExact` | src/heading_hierarchy.cpp:930-938 | the exact lookup finds that entry, with similarity 1 |
| `BookmarkLevels.ScanFindsFirstBest` | src/heading_hierarchy.cpp:939-962 | the plain scan finds the first entry of greatest similarity among those the header may match |
| `BookmarkLevels.ScanOutline` | src/heading_hierarchy.cpp:939-962 | the cut-off scan holds, of what it has read, what the plain scan holds, up to what is below the threshold, and costs exactly what its comparisons cost; it reads the whole outline unless a comparison made in full passes the cell budget |
| `BookmarkLevels.MatchHeader` | src/heading_hierarchy.cpp:923-966 | a header takes exactly the reference level when its own cost stays within the budget, and past it when an entry has its title; what it spends is its cost, or more than the budget where that is |
| `BookmarkLevels.LevelsFromOutline` | src/heading_hierarchy.cpp:906-970 | the levels are the plain full comparison's, and the cells spent exactly the pass's cost, whenever that cost, or a bound computed from the lengths of the titles, is within the budget; past it every level given is justified by an entry and exact titles still get theirs |
| `BookmarkLevels.ReferenceIs` | src/heading_hierarchy.cpp:939-966 | the reference: of the entries with a level whose page, where both are known, is the heading's, the most alike, the first of several, gives the last heading of a name its level, no more than the ceiling, when it reaches the threshold |
| `BookmarkLevels.ReferenceNames` | src/heading_hierarchy.cpp:939-966 | and no other name has one |
| `BookmarkLevels.PassBounds` | src/heading_hierarchy.cpp:939-962 | the cost of the pass is at most the bound computed from headers, outline and threshold |
| `ReactorInvariant.StepInv` | src/document_streaming_service.cpp:77-1312 | every handler, on every allowed input, keeps the reactor's invariant |
| `ReactorInvariant.WindowHolds` | src/document_streaming_service.cpp:910-925 | while the environment keeps its window a page is always accepted |
| `ReactorRuns.RunInv` | src/document_streaming_service.cpp:77-1312 | the invariant holds after every allowed run, with nothing due left undone |
| `ReactorRuns.OneWriteAtATime` | src/document_streaming_service.cpp:1220-1231 | at most one write is outstanding and it is the queue's front |
| `ReactorRuns.FinishesIdle` | src/document_streaming_service.cpp:1220-1231 | at the step that calls Finish the queue is empty, every write started has completed, and the call is made once, with the settled status |
| `ReactorRuns.CreditsAreConserved` | src/document_streaming_service.cpp:90-136 | the buffer count equals credited events queued plus pages held, and accepted pages less released credits |
| `ReactorRuns.NeverExhausted` | src/document_streaming_service.cpp:913-925 | a scheduler within its window never meets the RESOURCE_EXHAUSTED branch |
| `ReactorRuns.PagesQueuedInOrder` | src/document_streaming_service.cpp:927-947 | for any delivery order, pages are queued consecutively with the data one cursor assembles in page order |
| `ReactorRuns.CvSuccessMeansEveryPage` | src/document_streaming_service.cpp:952-973 | the CV part counts as a success exactly when the scheduler reports one, uncancelled, and every page up to the total is queued |
| `ReactorRuns.ErrorIsFinal` | src/document_streaming_service.cpp:1198-1212 | no handler changes a status that is not OK |
| `ReactorRuns.ErrorStaysFinal` | src/document_streaming_service.cpp:1198-1212 | the same over the rest of any run |
| `ReactorRuns.WritesAfterFinish` | src/document_streaming_service.cpp:910-947 | a write is started after Finish if and only if the next page in turn is accepted after Finish |
| `ReactorRuns.LatePageHappens` | src/document_streaming_service.cpp:912 | a run in which that happens |
| `ReactorReports.ReportsDecide` | src/document_streaming_service.cpp:978-1121 | over every run the counters are what the parts reported, the call is asked to finish exactly when the reports ask for it, and the first error asked for is its status |
| `ReactorReports.FinishedWell` | src/document_streaming_service.cpp:1089-1121 | Finish happens at most once; of an OK finish some part reported success, exactly one complete event went out, last of all, and no event was dropped |
| `ReactorReports.PartsDecide` | src/document_streaming_service.cpp:1067-1121 | where nothing cancels, faults or fails to be written, the call is asked to finish exactly when every planned part has reported: OK if one succeeded, else with the first failure's status |
| `ReactorReports.QueueIsAnnounced` | src/document_streaming_service.cpp:978-1066 | besides the scheduler's pages the queue holds what was announced, in order: streamed pages, the documents of the successful collectors in order of arrival, each behind its own pages, and the complete event |
| `ReactorReports.DocumentInOnePiece` | src/document_streaming_service.cpp:1030-1066 | a successful collector's pages, repair event and document are queued with nothing between them |
| `ReactorTickets.TicketsFollow` | src/document_streaming_service.cpp:1198-1218 | over every run the page run that was submitted is taken off the scheduler once the call is to end with an error, and never before the call is asked to finish |
| `ReactorObject.DocumentStreamReactor.Pump` | src/document_streaming_service.cpp:1220-1231 | the method is the machine's pump |
| `ReactorObject.DocumentStreamReactor.RequestFinish` | src/document_streaming_service.cpp:1198-1212 | the method is the machine's finish request |
| `ReactorObject.DocumentStreamReactor.PartDone` | src/document_streaming_service.cpp:1089-1121 | the method is the machine's settling of a part |
| `ReactorObject.DocumentStreamReactor.OnWriteDone` | src/document_streaming_service.cpp:117-136 | the method is the machine's write completion, good or failed |
| `ReactorObject.DocumentStreamReactor.OnCancel` | src/document_streaming_service.cpp:138-142 | the method is the machine's cancellation |
| `ReactorObject.DocumentStreamReactor.OnPage` | src/document_streaming_service.cpp:910-950 | the method is the machine's page step, overflow included |
| `ReactorObject.DocumentStreamReactor.DrainInOrder` | src/document_streaming_service.cpp:929-947 | the loop queues every held page whose turn has come |
| `ReactorObject.DocumentStreamReactor.OnSchedulerFinish` | src/document_streaming_service.cpp:952-973 | the method is the machine's end of the CV part |
| `ReactorObject.DocumentStreamReactor.OnStreamedPage` | src/document_streaming_service.cpp:879-908 | the method is the machine's fast-path page |
| `ReactorObject.DocumentStreamReactor.OnCollectorDone` | src/document_streaming_service.cpp:978-1074 | the method is the machine's end of a collector part |
| `ReactorObject.DocumentStreamReactor.ResolvePlan` | src/document_streaming_service.cpp:478-510 | the loop counts the plan's parts as the machine's plan step does |
| `DocumentMerge.RenumberingShifts` | src/document_merge.cpp:84-94 | the reference map moves exactly the source's items, each by the size of the target's arena |
| `DocumentMerge.MergeShifts` | src/document_merge.cpp:368-420 | target items stay untouched in front; source items follow with every reference shifted; child lists append |
| `DocumentMerge.MergeTwoSided` | src/document_merge.cpp:368-420 | parent and child links of the merge agree both ways |
| `DocumentMerge.MergeKeepsWellFormed` | src/document_merge.cpp:29-61 | the merge of well-formed documents is closed, in place, linked both ways and listed once |
| `DocumentMerge.MergeAssociative` | src/document_merge.cpp:495-498 | folding documents in pairs is associative |
| `DocumentMerge.MergeLeftIdentity` | src/document_merge.cpp:495-498 | the empty document is an identity on the left |
| `DocumentMerge.MergeRightIdentity` | src/document_merge.cpp:495-498 | and on the right |
| `DocumentMerge.RegisterArena` | src/document_merge.cpp:84-94 | the loop registers one arena's names and new places |
| `DocumentMerge.AppendArenas` | src/document_merge.cpp:391-406 | the loop appends every rewritten arena |
| `DocumentMerge.MergeDocuments` | src/document_merge.cpp:368-420 | the program, in place, computes the merge |
| `RenameLog.ReferenceRenameLog.Record` | src/document_merge.cpp:443-460 | recording a step leaves exactly what a record of it must hold |
| `RenameLog.RecordIsUnique` | src/document_merge.cpp:443-460 | which is determined |
| `RenameLog.RecordExactIff` | src/document_merge.cpp:443-460 | a step keeps the log exact on the items' first names if and only if it renames no item that kept its name and absorbed another |
| `RenameLog.LogIsCompositionIff` | src/document_merge.cpp:428-460 | after every step the log is, on those names, the composition of the renames exactly when every step was safe |
| `RenameLog.AbsorbedThenMoved` | src/document_merge.cpp:443-460 | two items and two steps after which the log is wrong |
| `RenameLog.FreshNameMoves` | src/document_merge.cpp:443-460 | one item renamed twice, by way of a name no item had at first: the log is right |
| `RenameLog.NestedLogHandsOnComposition` | src/document_merge.cpp:438-441 | a nested log hands its composition outward as one step |
| `RenameLog.ReferenceRenameLog.CloseInto` | src/document_merge.cpp:438-441 | closing records the composition with the enclosing log |
| `RenameLog.ApplyStep` | src/document_merge.cpp:443-460 | the in-place pass over a step's names has the effect of the simultaneous step |
| `Retirement.RetireTextItems` | src/document_repair.cpp:1053-1095 | the program computes the retirement, in place |
| `Retirement.AdoptChildren` | src/document_repair.cpp:1025-1049 | the loop hands retired items' children to their survivors |
| `Retirement.AdoptAllIs` | src/document_repair.cpp:1025-1049 | after it a survivor lists its own children and exactly those of the items it absorbed, none twice |
| `Retirement.KeptAt` | src/document_repair.cpp:1073-1080 | the items that stay keep their order, at dense places |
| `Retirement.RenumberingNames` | src/document_repair.cpp:1070-1085 | every reference goes to its item's new place, a retired item's to its survivor's |
| `Retirement.PruneDocument` | src/document_repair.cpp:1002-1020 | every root, group and retired item's parent drops the retired references |
| `Retirement.RewriteReferences` | src/document_repair.cpp:1087-1094 | every reference of the document is rewritten |
| `RetirementKeeps.RetiredItem` | src/document_repair.cpp:1070-1094 | an item that stays keeps its content at its new place and name |
| `RetirementKeeps.RetiredChildren` | src/document_repair.cpp:1002-1049 | a node that stays lists exactly its kept and adopted children, once, under their new names |
| `RetirementOrder.RetiredOrder` | src/document_repair.cpp:973-1049 | of two children a node is to list, its own stand as they stood; own come before adopted; adopted come by the visits of what was absorbed, and within one absorbed item as they stood there |
| `RetirementOrder.ComesOneWay` | src/document_repair.cpp:973-1049 | which tells the order of any two, so it is the whole order |
| `RetirementOrder.RetiredBody` | src/document_repair.cpp:973-980 | the body lists the children that stay, under their new names, in the order in which they stood |
| `RetirementKeeps.RetiredLinkedBothWays` | src/document_repair.cpp:1053-1095 | parent and child links agree both ways afterwards |
| `RetirementKeeps.RetireCloses` | src/document_repair.cpp:1087-1094 | no reference dangles afterwards |
| `RetirementKeeps.RetireKeepsWellFormed` | src/document_repair.cpp:1053-1095 | retirement keeps a document well-formed when every survivor stays, whatever the order |
| `RetirementChains.SamePruned` | src/document_repair.cpp:1025-1049 | adoption and pruning do not tell a chain of absorptions from its end |
| `RetirementChains.ReferencesFollow` | src/document_repair.cpp:1082-1085 | every reference is followed up its chain exactly as far as the order of the visits allows |
| `RetirementChains.FollowedIff` | src/document_repair.cpp:1082-1085 | it leaves the retired texts exactly when each retired survivor on its chain is visited before the text it absorbed |
| `RetirementChains.AllFollowedIff` | src/document_repair.cpp:1082-1085 | all references do exactly when every retired survivor is visited before the texts it absorbed |
| `RetirementChains.ChainedItem` | src/document_repair.cpp:1070-1094 | an item that stays keeps its place and name, its parent and links followed that far |
| `RetirementChains.ChainedRetireClosedIff` | src/document_repair.cpp:1053-1095 | no reference dangles exactly when those still held reach their chains' ends or are left with a name a text has taken |
| `RetirementChains.ChainedRetireWellFormedIff` | src/document_repair.cpp:1053-1095 | the document stays well-formed exactly when, besides, every item that stays finds its parent |
| `RetirementChains.RetireInChainOrder` | src/document_repair.cpp:1053-1095 | visited survivors first, any chains keep the document well-formed |
| `RetirementChains.VisitOrderDecides` | src/document_repair.cpp:1082-1085 | a document that one order of the visits leaves with a dangling link and the other well-formed |
| `TitleLines.TitleAbsorption` | src/heading_hierarchy.cpp:467-480 | title lines folded away are distinct children of the body, absorbed by one that stays: retirement gets no chain |
| `TitleLines.TitleOutcome` | src/heading_hierarchy.cpp:454-482 | whatever the order of the visits, the document stays well-formed, the body keeps its order, the first line has all the text in line order, and every other text stays as it was |
| `TitleLines.CollectTitleLines` | src/heading_hierarchy.cpp:466-479 | the loop folds exactly the lines that follow one another in the body, up to the first that does not |
| `TitleLines.MergeTitleLines` | src/heading_hierarchy.cpp:454-482 | the program merges the longest such run of lines, or changes nothing when there is none, and counts the lines folded away |
| `Continuations.CollectContinuations` | src/document_repair.cpp:1097-1126 | the walk absorbs exactly the continuing paragraphs, never in a chain, and joins their texts |
| `Continuations.CollectedAbsorption` | src/document_repair.cpp:1118-1120 | what is absorbed and what absorbs are direct body children, and no survivor is absorbed |
| `Continuations.MergeContinuations` | src/document_repair.cpp:1097-1130 | the document stays well-formed, the body keeps its order, and every text that stays carries its own text and links with those it absorbed joined behind them in body order |
| `Continuations.WalkCarries` | src/document_repair.cpp:1097-1126 | what is joined into the walk's head is the head and the items it absorbed, in body order, and the head is never an absorbed one |
| `ContinuationRules.AbsorbedExactly` | src/document_repair.cpp:1097-1126 | a child of the body is absorbed exactly when it and the last child before it that is no furniture are prose, fewer than the maximum were absorbed before it, and that one's paragraph, with all it has taken so far, is found to go on with it; the paragraph's head is what absorbs it |
| `Joining.JoinTexts` | src/document_repair.cpp:916-935 | the program computes the joined text |
| `JoinRules.JoinedReads` | src/document_repair.cpp:916-935 | by positions: the head to its last and the tail from its first byte that is no white space, with one space between; where a letter and a hyphen end the head and a letter starts the tail, and no pair follows, without the space, and without the hyphen unless the word before it is a prefix that keeps it |
| `Joining.TailMoves` | src/document_repair.cpp:937-956 | the tail's text past the blanks trimmed off it stands in the joined text, its code points moved by the shift |
| `Joining.HeadStays` | src/document_repair.cpp:937-946 | what stays of the head's text stands where it stood |
| `Joining.Absorb` | src/document_repair.cpp:937-956 | the head's ranges stay and the tail's follow, each moved by the shift |
| `GroupSplit.SplitPosition` | src/document_reading_order.cpp:231-256 | finds the child where a float splits a group, exactly when it sits inside it |
| `FloatSplit.SplitsAtIff` | src/document_reading_order.cpp:231-256 | by the boxes alone: a float splits a group at a child exactly when all children are texts and the placed ones on its page, the child is placed and does not start above the float, every placed child before it does and there is one, and the group, from its leftmost to its rightmost edge, lies beside the float |
| `GroupSplit.SplitGroup` | src/document_reading_order.cpp:260-281 | the in-place program makes the split |
| `GroupSplit.SplitKeepsContent` | src/document_reading_order.cpp:260-281 | the body read through its groups is unchanged |
| `FloatSplit.SplitSeparates` | src/document_reading_order.cpp:260-281 | the old group keeps what stands above the float, the new one, right behind it in the body, starts with what does not |
| `GroupSplit.SplitItems` | src/document_reading_order.cpp:260-281 | what the split makes of every item: the two groups' lists, the new group's name and other fields, the parents of the texts that move, and nothing else |
| `GroupSplit.SplitLowersExcess` | src/document_reading_order.cpp:260-281 | each split takes exactly one from the groups' sizes beyond one |
| `GroupSplit.SplitWellFormedIff` | src/document_reading_order.cpp:270-275 | the document stays well-formed if and only if no code item moves |
| `GroupSplit.CodeItemIsLeftBehind` | src/document_reading_order.cpp:270-275 | a well-formed document that a split leaves not well-formed |
| `GroupSplit.SplitOneGroupAroundAFloat` | src/document_reading_order.cpp:285-302 | makes the first split there is, in body order, or tells that there is none |
| `GroupSplit.SplitGroupsAroundFloats` | src/document_reading_order.cpp:306-312 | terminates with no float inside a group, the body's content untouched, and as many splits as the excess fell |
| `ListGroups.GatherRun` | src/document_assembly.cpp:775-788 | one maximal run of list items moves into a new group |
| `ListGroups.WrapKeepsWellFormed` | src/document_assembly.cpp:775-792 | wrapping a run keeps a document well-formed |
| `ListGroups.WrapKeepsContent` | src/document_assembly.cpp:775-792 | and leaves the body, read through its groups, as it was |
| `ListGroups.GroupListItems` | src/document_assembly.cpp:747-794 | well-formed, same content, no bare list item left in the body, in the groups made nothing but list items of the body, and no two of them side by side |
| `Sorting.SortedAscends` | src/reading_order.cpp:158-162 | the stable sort is sorted |
| `Sorting.SortedPermutes` | src/reading_order.cpp:158-162 | holds the same elements |
| `Sorting.SortedKeepsTies` | src/reading_order.cpp:158-162 | and keeps the order of equal keys |
| `XyCut.WidestGap` | src/reading_order.cpp:23-42 | the sweep computes the specified gap |
| `XyCut.WidestGapIs` | src/reading_order.cpp:23-42 | which no box crosses, none is wider than, and is found whenever there is one |
| `XyCut.CutSeparates` | src/reading_order.cpp:143-152 | a cut leaves boxes on both sides, those before ending where those after have not begun |
| `XyCut.OrderMembers` | src/reading_order.cpp:129-164 | the recursive program appends the specified order |
| `XyCut.OrderPermutes` | src/reading_order.cpp:129-164 | which holds every member once |
| `XyCut.OrderReadsForward` | src/reading_order.cpp:123-164 | a box precedes another only when wholly above it, wholly to its left, or starting no later |
| `XyCut.ReadsDownColumns` | src/reading_order.cpp:171-189 | every box once, and boxes that overlap horizontally read from top to bottom however the page is cut |
| `XyCut.GutterlessIsSort` | src/reading_order.cpp:123-164 | where no gap counts as a gutter, all the cutting comes to one sort by top, then left |
| `CutChoice.GutterReadsColumns` | src/reading_order.cpp:141-152 | where the widest vertical gap passes the gutter test and no horizontal gap is as wide as the policy asks against it, every box left of it comes before every box right of it, and each side is ordered as if it stood alone |
| `CutChoice.BandReadsDown` | src/reading_order.cpp:141-152 | where the widest horizontal gap is that wide, or there is no gutter, every box above it comes before every box below it |
| `CutChoice.UndividedIsSorted` | src/reading_order.cpp:155-161 | where no gap divides the boxes, the higher comes first, of level ones the one to the left |
| `CutChoice.OrderIsByGaps` | src/reading_order.cpp:129-162 | at every depth, the order is the one the gaps call for |
| `CutChoice.ComesOneWay` | src/reading_order.cpp:129-162 | which tells the order of any two boxes whose top left corners differ |
| `CutDepth.NoProgressIff` | src/reading_order.cpp:143-152 | on any boxes a cut leaves its near side empty exactly when every member starts beyond the gap; it then hands the same members on, one of them turned inside out |
| `CutDepth.CutEndsIff` | src/reading_order.cpp:129-164 | the recursion ends, within as many nested calls as there are members and one, exactly when every cut on the way down leaves somebody on the near side |
| `CutDepth.UprightEnds` | src/reading_order.cpp:129-164 | on boxes none of which is turned inside out it ends with the specified order |
| `CutDepth.InvertedPairNeverEnds` | src/reading_order.cpp:129-152 | two equal boxes turned inside out on which it never ends |
| `BodyChains.BuildChains` | src/document_reading_order.cpp:65-88 | every body position lands in one chain, that of the item it rides with |
| `PageRules.HeadOfIs` | src/document_reading_order.cpp:54-88 | an unplaced item rides with the last placed item before it that is no page header, page footer or footnote; before any, with the unplaced items it stands among |
| `BodyOrder.TargetIsNearest` | src/document_reading_order.cpp:123-146 | a caption binds to a nearest float it may label, whenever there is one |
| `BodyOrder.CaptionTarget` | src/document_reading_order.cpp:123-146 | the loop finds that float, the earlier one on a tie |
| `PageRules.TargetIs` | src/document_reading_order.cpp:123-146 | of the page's tables and pictures that share three tenths of the caption's width and lie within one and a half of its height, the nearest, the first of several; none exactly when there is none |
| `PageRules.GapIs` | src/document_reading_order.cpp:133-140 | the distance compared is the least between a height of the one box and a height of the other |
| `BodyOrder.CutOrderIs` | src/document_reading_order.cpp:111-119 | the cut keeps every chain, reads down each column, and puts one chain before another wherever the gaps between their boxes call for it |
| `BodyOrder.OrderPage` | src/document_reading_order.cpp:150-188 | the program computes the page's order |
| `BodyOrder.PagePermutes` | src/document_reading_order.cpp:150-188 | which holds each of the page's chains once |
| `BodyOrder.PagePhases` | src/document_reading_order.cpp:148-188 | the phases ascend |
| `PageRules.PageRanks` | src/document_reading_order.cpp:148-188 | main text before footnotes, footnotes before page headers and footers |
| `PageRules.PartsAre` | src/document_reading_order.cpp:150-178 | the three parts that are cut: the main text with the captions no float claims, the footnotes, the page furniture |
| `BodyOrder.PageByGaps` | src/document_reading_order.cpp:174-187 | two chains of one part stand in the page's order as the gaps of that part call for |
| `BodyOrder.CaptionsFollow` | src/document_reading_order.cpp:179-184 | captions bound to a float stand right behind it, in body order |
| `PageRules.CaptionsBehind` | src/document_reading_order.cpp:163-184 | behind every chain of the main text stand exactly the captions that label it, in body order |
| `BodyLayout.LayoutPermutes` | src/document_reading_order.cpp:314-332 | the whole order holds every body position once |
| `BodyLayout.LayoutInPageOrder` | src/document_reading_order.cpp:314-332 | pages ascend, and what rides with an item stays right behind it in body order |
| `BodyLayout.LayoutByGaps` | src/document_reading_order.cpp:314-332 | on a page that is cut, the items of one chain come before those of another wherever the gaps call for it |
| `BodyLayout.BodyReadingOrder` | src/document_reading_order.cpp:314-332 | the program's order is such a permutation, each page by its own cut, with what the gaps call for, or left as it was |
| `BodyLayout.CountItems` | src/document_reading_order.cpp:91-99 | tells whether enough of a page's items are placed |
| `BodyLayout.EnoughIff` | src/document_reading_order.cpp:91-99 | enough means at least half as many boxes as items, and some item |
| `BlockExtents.ComponentExtent` | src/document_repair.cpp:186-193 | a component flooded once is what each of its members reaches |
| `BlockExtents.Flood` | src/document_repair.cpp:199-221 | one flood marks a whole component and measures it |
| `BlockExtents.NearIff` | src/document_repair.cpp:206-211 | neighbours share a stretch horizontally, and what lies between them vertically is no higher than either |
| `BlockExtents.Extents` | src/document_repair.cpp:194-225 | every item's extent is the least top and greatest bottom over exactly the items it reaches through neighbours |
| `OcrPages.MeasureLine` | src/text_geometry.cpp:9-22 | the loop measures a line's box |
| `OcrPages.BoundingBoxIsHull` | src/text_geometry.cpp:9-22 | every point lies in that box and each of its sides holds one |
| `OcrPages.CenterIs` | src/text_geometry.cpp:9-22 | the center lies halfway between the sides, rounded toward zero, and a box holds a point exactly when taking it in would not widen the box |
| `OcrPages.BestRegion` | src/region_geometry.cpp:16-25 | the first of greatest confidence among the regions that hold a point, none exactly when no region does |
| `OcrPages.RegionForLine` | src/region_geometry.cpp:14-26 | the loop binds a line to the surest region that holds its center |
| `LineOrder.UnitsHoldLines` | src/reading_order.cpp:192-225 | every line with text and a place is in one unit, once, and no other line is in any |
| `LineOrder.UnitsAre` | src/reading_order.cpp:194-225 | a unit holds the lines of one region, or one line of none, and its box is the hull of theirs |
| `LineOrder.ReadingOrderListsLines` | src/reading_order.cpp:191-275 | the reading order lists every line with text and a place once, and nothing else |
| `LineOrder.ReadingOrderReadsOn` | src/reading_order.cpp:243-274 | of two lines the later is in the same unit and not above or level and to the left, or its unit does not start above the other's and overlap it horizontally; a trusted page keeps emission order instead |
| `LineRules.OrderFollows` | src/reading_order.cpp:243-274 | the same in terms of the lines' and units' boxes and of emission alone |
| `LineOrder.ReadingOrderByGaps` | src/reading_order.cpp:243-274 | each line of one unit comes before each line of another wherever the gaps between the units' boxes call for it |
| `LineOrder.BuildUnits` | src/reading_order.cpp:192-225 | the loop builds the units |
| `LineOrder.OrderLines` | src/reading_order.cpp:191-275 | the program computes the reading order |
| `LineOrder.PageBlocks` | src/assembly_blocks.cpp:132-164 | a page's blocks laid end to end are its reading order, from its lines and regions alone |
| `LineOrder.PageBlocksHoldEach` | src/assembly_blocks.cpp:132-164 | every line with text and a place stands in one of a page's blocks, once |
| `TableLines.TableClaimedLines` | src/assembly_blocks.cpp:20-43 | the lines a table claims: those bound to it whose center some recognized cell holds, or those of its grid |
| `TableLines.BuildTextBlocks` | src/assembly_blocks.cpp:132-164 | the blocks laid end to end are the reading order, each wholly suppressed or wholly prose, merged exactly as the rule says |
| `TableLines.JoinsIff` | src/assembly_blocks.cpp:46-51 | the rule: same region and same suppression, and suppressed, or prose of a region that is neither list nor table, or of a list whose visual line goes on |
| `TableLines.SuppressedIff` | src/assembly_blocks.cpp:20-43 | a line is suppressed exactly when its region is a table that holds its center in a recognized cell or, without any, has it in its grid |
| `TableLines.OneBlockEach` | src/assembly_blocks.cpp:132-164 | for any order that lists every readable line once, each stands in one block, once |
| `TableLines.TableOrProse` | src/assembly_table_data.cpp:58-86 | a block is suppressed exactly when one cell of its table, and only one, carries the line's text |
| `TableLines.TakeLines` | src/assembly_table_data.cpp:76-86 | one cell takes the lines no earlier cell took |
| `TableLines.CellTexts` | src/assembly_table_data.cpp:61-88 | each cell's text is that of the lines whose centers it is the first cell to hold, in table order |
| `TableGrid.ClaimPositions` | src/assembly_table_data.cpp:89-95 | a cell claims the free positions among those it covers |
| `TableGrid.BuildGrid` | src/assembly_table_data.cpp:30-111 | the least grid holding every cell, each position the first covering cell's or blank |
| `TableGrid.GridIsCells` | src/assembly_table_data.cpp:97-110 | a position is blank exactly when no cell covers it |
| `Hyphenation.RejoinedIsDeletion` | src/document_repair.cpp:712-762 | the output is the input with the recorded runs deleted, and the runs are sorted and disjoint |
| `Hyphenation.OnlyHyphensAreDropped` | src/document_repair.cpp:712-762 | a deleted run is a hyphen and its line break, or the soft form |
| `HyphenRules.DroppedExactly` | src/document_repair.cpp:712-762 | byte by byte, from the text and the output before it: what goes is every soft hyphen, the break behind one when a letter follows, the break behind a hyphen that breaks a word, and that hyphen unless the word before it is a prefix that keeps it |
| `HyphenRules.HyphenGoesIff` | src/document_repair.cpp:743-761 | a hyphen breaks a word exactly when a lower-case letter ends the output, a line break follows it, then two letters or more, the first in lower case, with at most punctuation up to the next space, and no conjunction with the second half of a pair |
| `HyphenRules.SuspendedIs` | src/document_repair.cpp:605-634 | a pair is suspended exactly when the first word is one of nine conjunctions and the next has a hyphen in it or, after a German one, a capital |
| `HyphenRules.CompoundIs` | src/document_repair.cpp:567-573 | a hyphen is kept exactly behind self, well and non, and behind pre, post, co and re before a vowel |
| `HyphenRules.HyphenAt` | src/document_repair.cpp:712-762 | the whole output for any text with one hyphen at a line break |
| `HyphenRules.OneSoftHyphen` | src/document_repair.cpp:732-741 | and for any text with one soft hyphen |
| `HyphenRules.JoinedWord` | src/document_repair.cpp:743-761 | a word broken over a line end is joined |
| `HyphenRules.KeptCompound` | src/document_repair.cpp:753-755 | a compound keeps its hyphen and loses the break |
| `HyphenRules.SuspendedPair` | src/document_repair.cpp:605-634 | a suspended hyphen stays with its break |
| `HyphenRules.NoWordBehind` | src/document_repair.cpp:599-603 | letters with a digit behind them are no word: the break stays |
| `HyphenRules.SoftHyphens` | src/document_repair.cpp:732-741 | a soft hyphen goes with its break before a letter and without it before a digit |
| `Hyphenation.RejoinHyphenatedWords` | src/document_repair.cpp:712-762 | the program records the runs and their code-point positions; it counts as soft hyphens exactly the runs that start at one and as rejoined all others |
| `Hyphenation.AdvanceCursor` | src/document_repair.cpp:645-660 | the cursor counts code points up to a byte |
| `Hyphenation.PositionRemap.constructor` | src/document_repair.cpp:668-675 | the prefix sums of the runs' lengths |
| `Hyphenation.PositionRemap.LowerBound` | src/document_repair.cpp:678-680 | the binary search finds the first run at or past a position |
| `Hyphenation.PositionRemap.At` | src/document_repair.cpp:677-688 | a position less the removed code points before it |
| `Hyphenation.KeptCodePointIsFound` | src/document_repair.cpp:666-693 | every kept code point is found at its remapped position |
| `Hyphenation.RejoinItem` | src/document_repair.cpp:764-800 | an item's text is rejoined and each of its ranges moved past the removed runs before its ends; skipping the item changes neither |
| `Utf8.DecodesEncoding` | src/list_marker.cpp:23-54 | every RFC 3629 encoding reads back as its code point |
| `Utf8.DecodedIsEncoded` | src/list_marker.cpp:23-54 | what reads as well-formed is the encoding of its value |
| `Utf8.MalformedIff` | src/list_marker.cpp:11-21 | a byte reads as the one-byte U+FFFD exactly where no encoding stands |
| `Utf8.ReadAt` | src/list_marker.cpp:23-54 | the program computes the decoder |
| `Utf8.CountCodePoints` | src/list_marker.cpp:56-60 | the loop counts the code points |
| `Utf8.CodePointsSplit` | src/list_marker.cpp:56-60 | cut where a code point ends, a text's code points are those of its parts |
| `ListMarker.SpacesNoDecimals` | src/list_marker.cpp:67-100 | no whitespace code point is a decimal digit |
| `ListMarker.RunIsPlus` | src/list_marker.cpp:114-124 | where no more of a class can follow, the greedy run is the only match of its repetition |
| `ListMarker.NumberLetterIs` | src/list_marker.cpp:146-152 | the number-letter scanner finds exactly what its expression matches |
| `ListMarker.Digits` | src/list_marker.cpp:114-118 | the loop is the greedy run of digits |
| `ListMarker.ScanDottedOutline` | src/list_marker.cpp:134-144 | the loop is the dotted-outline scanner |
| `ListMarker.ScanPattern` | src/list_marker.cpp:155-176 | each of the fourteen scanners, its digit runs and groups read by loops, is the specified one |
| `MarkerSplit.DottedIs` | src/list_marker.cpp:130-144 | with a separator behind it a dotted outline matches in one way, the greedy one |
| `MarkerSplit.ScanFits` | src/list_marker.cpp:130-187 | for each pattern, what its expression matches before a separator and more text is what its scanner returns |
| `MarkerSplit.NumberedMarkerEnd` | src/list_marker.cpp:178-187 | the end is that of the first pattern that fits anywhere, and there is none exactly when none fits |
| `MarkerSplit.SplitListMarker` | src/list_marker.cpp:228-254 | the program computes the split |
| `MarkerSplit.SplitIff` | src/list_marker.cpp:228-246 | a split is made exactly where a bullet stands before a separator or a numbered pattern fits |
| `MarkerForms.AsciiMarkers` | src/list_marker.cpp:126-254 | of visible ASCII characters before a blank and more text exactly a dash, an asterisk, a plus sign and the fourteen forms, each given by the characters at its places, are markers; the split is marker and text as they stand |
| `MarkerForms.Bullets` | src/list_marker.cpp:83-93 | the bullet characters |
| `MarkerSplit.SplitRebuilds` | src/list_marker.cpp:247-253 | marker, one whitespace code point and text rebuild the input, and the prefix counts the code points taken off |
| `MarkerSplit.PrefixLeads` | src/document_assembly.cpp:473-484 | counted by lead bytes the prefix is the same, so subtracting it leaves the text's own count |
| `LeadBytes.CountLeads` | src/document_assembly.cpp:201-207 | the loop counts lead bytes |
| `PageOffsets.MergeBlock` | src/document_assembly.cpp:376-397 | the merged text, its code points, and each member line's charspan in it |
| `PageTexts.MergedReads` | src/document_assembly.cpp:376-397 | every line stands in the merged text where its charspan says, lines parted by one line break in code and by one space elsewhere, and by nothing while all before is empty |
| `PageOffsets.AssemblyCursor.EmitBlock` | src/document_assembly.cpp:398-544 | a block too long is refused, a blank one skipped, any other becomes one item whose row is as wide as its text |
| `PageOffsets.AppendPageData` | src/document_assembly.cpp:209-544 | a page's items and rows in order, the cursor behind them |
| `PageTexts.ItemsInOrder` | src/document_assembly.cpp:398-484 | every block that is more than white space is one item, in order, and shows all its text or, of a list item that starts with a marker, what stands behind it |
| `PageOffsets.AppendPageToDocument` | src/document_assembly.cpp:673-732 | folding a page keeps plain text, rows and cursor in step |
| `PageOffsets.AssemblePages` | src/document_assembly.cpp:673-732 | over any pages: the plain text of all items and a row for each, refused exactly when some block is too long |
| `PageTexts.PagesFollow` | src/document_assembly.cpp:673-732 | the items of a page stand behind those of all the pages before it |
| `PageOffsets.RowsLocateItems` | src/document_assembly.cpp:538-544 | each row's start is the code-point count of the plain text before its item, and rows lie one apart |
| `PageTexts.PlainReads` | src/document_assembly.cpp:673-732 | the items' texts stand in the plain text one behind the other, one line break between any two |
| `CompoundFile.ReadChain` | src/content_sniff.cpp:657-666 | the sector chain, capped at the sector count |
| `CompoundFile.ChainIsWhole` | src/content_sniff.cpp:657-666 | on an acyclic chain in range the walk gives the whole chain |
| `CompoundFile.Pigeonhole` | src/content_sniff.cpp:657-666 | distinct sector numbers fit under the cap |
| `CompoundFile.ReadFatSectorIds` | src/content_sniff.cpp:626-647 | the FAT's sectors from the header and the DIFAT chain ([MS-CFB] 2.5) |
| `CompoundFile.ReadFat` | src/content_sniff.cpp:626-654 | the FAT is those sectors' entries, or the reader refuses |
| `CompoundFile.ReadChainValues` | src/content_sniff.cpp:669-678 | the mini FAT is the entries of as many sectors of its chain as are declared, up to the first unreadable one ([MS-CFB] 2.4) |
| `CompoundFile.ReadSectors` | src/content_sniff.cpp:609-614 | the wanted prefix of a chain's sectors |
| `CompoundFile.ReadMini` | src/content_sniff.cpp:591-607 | the mini-stream walk is the specified one on any bytes, its steps capped by the mini FAT's size |
| `CompoundStreams.MiniSectorIsSlice` | src/content_sniff.cpp:596-603 | a mini sector is its 64-byte slice of the mini stream ([MS-CFB] 2.4) |
| `CompoundBytes.MiniSectorStands` | src/content_sniff.cpp:596-603 | a mini sector is there exactly when the mini stream has its 64 bytes and the file the sector they fall in, and is these bytes |
| `CompoundStreams.HeadIsContent` | src/content_sniff.cpp:586-616 | on a sound chain the head is the first bytes of the stream, through the FAT and through the mini stream |
| `CompoundStreams.WalkDirectory` | src/content_sniff.cpp:564-582 | the walk ends within the directory's capacity, lists only its entries, and on a tree that fits lists it in tree order |
| `CompoundStreams.DistinctTreeFits` | src/content_sniff.cpp:569 | a tree of distinct ids always fits |
| `CompoundStreams.File.constructor` | src/content_sniff.cpp:540-559 | the reader is usable exactly when the bytes open as a compound file |
| `CompoundBytes.OpenedHeader` | src/content_sniff.cpp:540-556 | what an opened file took from its header, by places and little-endian bytes: signature, both sector sizes, the directory's first sector, the cutoff, the mini FAT's first sector and number of sectors; and the root entry in its place ([MS-CFB] 2.2) |
| `CompoundBytes.EntryStandsAt` | src/content_sniff.cpp:681-705 | a directory entry is there exactly when its sector is, and each of its fields is the little-endian number, or the narrowed name, at its place ([MS-CFB] 2.6.1) |
| `CompoundBytes.FatSectorsStand` | src/content_sniff.cpp:626-634 | the FAT's sectors are the numbers from byte 76 on, as many as declared at byte 44, then those of the DIFAT chain from the sector at byte 68 |
| `CompoundBytes.DifatSectorStands` | src/content_sniff.cpp:637-647 | a DIFAT sector lists its numbers but the last, which names the next |
| `CompoundBytes.TableStands` | src/content_sniff.cpp:648-653 | an entry of a table is the number at its place in the sector its index falls in |
| `CompoundStreams.File.RootChildren` | src/content_sniff.cpp:564-582 | nothing of a file that does not open; the tree's entries of one that does |
| `CompoundStreams.HeadIsOnDisk` | src/content_sniff.cpp:586-616 | with the stream, the root storage's stream and the mini FAT on whole chains, each byte of the head is the one that stands in the file where these chains lead ([MS-CFB] 2.3, 2.4) |
| `CompoundStreams.File.Head` | src/content_sniff.cpp:586-616 | the specified head of a stream, on any bytes; on whole chains, the bytes of the file itself |
| `Base64.ScalarEncode` | src/base64.cpp:67-98 | the program computes the encoding |
| `Base64Digits.EncodeWrites` | src/base64.cpp:67-98 | three bytes and their four symbols are one number, in base 256 and in base 64; zero bits and pads fill the last quad (RFC 4648 section 4) |
| `Base64Digits.EncodeLength` | src/base64.cpp:67-98 | four symbols for every three bytes begun |
| `Base64.ScalarDecode` | src/base64.cpp:15-65 | the program computes the decoding, or throws |
| `Base64Digits.DecodeReads` | src/base64.cpp:39-61 | each quad reads back as the bytes of its number, the bits past the last byte dropped |
| `Base64.RoundTrip` | src/base64.cpp:15-98 | decoding an encoding gives the bytes back, of every byte string but the empty one |
| `Base64.BlanksIgnored` | src/base64.cpp:35-38 | white space put in anywhere changes no decode and no refusal |
| `Base64.DecodesIff` | src/base64.cpp:39-61 | decoding succeeds exactly on complete quads with padding only in the last, and gives three bytes a quad less the pads |
| `Base64.EncodesBackIff` | src/base64.cpp:55-61 | what decodes encodes back if and only if its unused last bits are zero |
| `Base64.UnusedBitsAreLost` | src/base64.cpp:55-61 | `QR==` decodes to one byte, which encodes to `QQ==` |

## Left out

- Floating-point rounding: similarities, coordinates and shares are reals, so ties and limits fall exactly.
- Boxes with a non-finite edge: `xy_cut_order` puts them last; placements never have one.
- The two tests that let a vertical gap count as a gutter are a parameter of the cut; the theorems hold for any such tests.
- The order `std::sort` leaves equal keys in: table lines at the same place are taken in page order.
- The geometry grid of tables without recognized cells, and the test that a list line goes on reading a visual line, are parameters of a page.
- Item geometry (`item_placement`), labels, prose tests, the continuation test and, for continued paragraphs and title lines, the joining of two texts are parameters; that placements have area and a page from 1 on is assumed of them.
- Protobuf reflection: an item's references are explicit fields; field sources, claims, metadata maps and provenance entries are not modelled.
- Items without a variant (ITEM_NOT_SET), and references that are not canonical, beyond being foreign names.
- The order in which `std::map` visits absorptions, that of the references as strings, is a parameter of retirement; the results hold for every order or say exactly for which.
- RetirementKeeps.RetireKeepsWellFormed: does not cover a retired text that is the child of another, because the passes absorb direct children of the body.
- RetirementChains.ChainedRetireWellFormedIff: does not cover absorptions that go round in a circle, because no pass makes one; adoption then stops after as many steps as there are texts.
- BookmarkLevels.LevelsFromOutline: does not say which entry wins a fuzzy match once the cell budget is spent, because the scan then stops comparing; it says every level given is an entry's, and exact titles keep theirs.
- GroupSplit.SplitWellFormedIff: does not cover groups with children that are no texts, because the pass never splits one.
- Pages that arrive before the ticket is assigned, and releasing on a ticket no longer valid, are races outside the lock.
- Chunk upload, in-flight byte accounting, option validation, metrics and logs of the reactor; the contents of events beyond their kind, credit and page data.
- Integer widths, apart from the charspan limit: lengths, offsets and sector numbers are unbounded.
- The simdutf fast path of base64, zip names, encryption probes and mimetype ladders.
- Page furniture detection, font runs, polygons, captions and barcodes of the page assembly; captions claimed by a float keep their row.
- Heading numbering, height clusters and the prose heuristics of the hierarchy pass.
- Continuations.MergeContinuations: does not carry a join's provenance, comments, sources and second (original) text, because items here have one text and one list of links; `Joining` treats the text and its ranges.
- Anchoring of pictures by provenance and the compound-word list.
