# Verified models of the Brasil Lens back end

Dafny models of the algorithms and protocols of the Brasil Lens back end that are hardest to get right,
with proofs of what they promise. Each module follows one component:

| module | component |
|---|---|
| `LineSimplification`, `LineClipping`, `LineMerging` | the hydrography layer: explicit-stack Douglas-Peucker, Liang-Barsky clipping, greedy chaining of river stretches |
| `FarthestPointSampling` | the farthest-point order of the municipalities of a state, whose prefixes are the weather samples |
| `PushDelivery`, `NotificationDispatch`, `DispatchMeaning`, `DispatchProvenance`, `DispatchExamples` | push notifications: one delivery row, the protocol of several dispatchers over a shared database, what its steps amount to, where its pushes come from, and two runs of note |
| `TileImport` | the resumable import of transport tiles: staging, retries, swap |
| `Bytes`, `Shapefile` | shapefile records to well-known binary, by copying bytes |
| `ElectionStage`, `ElectionRollup`, `ElectionLive` | staging of election results in batches, roll-up to states and country, completion with the live count |
| `Cache`, `AttemptLimiter` | the in-memory cache with lifetimes and eviction, and the limiter of sign-in attempts built on it |
| `WeatherFetch`, `GridCells` | shared fetching of weather readings with fallback, and one measured city per grid cell |
| `Quantiles` | quantile classes of an indicator |
| `Options`, `Planar` | an option type; points, segments and lines of the plane |

Code that changes things step by step is modelled by methods and classes with loops, each proved equal to a
specification function; the theorems are lemmas about those functions. The dispatch protocol, where processes
interleave, is a state machine over its database transactions with an invariant for every run. `WeatherFetch`
gives each stretch between two suspensions a method, so that its class invariant holds for every interleaving.

Conventions. Coordinates and clock times are real numbers. SQL tables are maps, NULL is `None`. Errors and
missing values are values of a datatype, not preconditions. Bytes are numbers below 256, and a point of a
shapefile is 16 opaque bytes. The binary formats are those of the ESRI Shapefile Technical Description (July
1998), for PolyLine record contents, and clause 8 of OGC 06-103r4, for WKB.

`dafny verify dfyconfig.toml` checks the whole project.

Four results that differ from what one might expect:

- The two candidate merges, in memory and in SQL, do not always agree. `ElectionStage.MergesAgree` gives the
  exact condition. Files with rounds from one on and a fixed office and scope per candidate meet it, and then the
  batch limit makes no difference; `ElectionStage.LimitMatters` shows that otherwise it can.
- The grid of 0.1 degrees does not nest in that of 0.25, so that refining to it can drop a representative.
  `GridCells.TenthsDropSome` is such a state, and `GridCells.KeptOnTenths` says exactly when it does not happen.
- A push is not always checked against the alert as stored. One session serves a whole run and does not expire its
  objects on commit (app/db/session.py:17-21), and the loop still refers to the last row's alert when the next is
  picked, so a run of rows about one alert is compared with the alert as first loaded. docs/alerts.md:13 says that
  the version is verified again before each push, and docs/alerts.md:17 that the time to live does not exceed the
  alert's validity; the code ensures both only for the first row of such a series.
  `DispatchProvenance.SendsAreDue` says what holds, and exactly when the text is current;
  `DispatchExamples.StalePush` is a run in which it is not.
- Without assuming that a commit follows every accepted push, a row may be pushed once more for each commit lost
  in between. `NotificationDispatch.AcceptedAtMostOnce` counts them exactly, and `DispatchExamples.PushedTwice` is such a run.

## Model

| member | source | states |
|---|---|---|
| `LineSimplification.SimplifyLine` | app/services/hydrography.py:217-238 | the line is the vertices at ascending positions with both ends, where each vertex between two neighbours is within the tolerance of their segment, and each kept inside is the first of those farthest from a segment between two kept vertices around it, and beyond the tolerance from it; it is reduced to its ends if and only if nothing on it is beyond the tolerance from their segment; lines of fewer than three points come back as they are |
| `LineSimplification.KeptIsJustified` | app/services/hydrography.py:217-238 | so it is for every line and tolerance: every vertex is kept or dropped for its reason |
| `LineSimplification.TwoEndsExactly` | app/services/hydrography.py:222-238 | the ends suffice exactly when all vertices are within the tolerance of the segment between them |
| `LineSimplification.SimplifyLong` | app/services/hydrography.py:220-238 | the same for the loop proper; it terminates because every iteration lowers the sum, over the stack, of twice each span's length less one |
| `LineSimplification.FindSplit` | app/services/hydrography.py:224-234 | the scan of a span finds the first vertex of greatest distance beyond the tolerance, or none |
| `LineSimplification.StackStep` | app/services/hydrography.py:222-237 | popping a span, whether or not it splits, keeps vertices kept plus vertices still to come constant, so the order in which the stack is worked off does not matter |
| `LineSimplification.SplitIsUnique` | app/services/hydrography.py:228-234 | there is only one first farthest vertex beyond the tolerance |
| `LineSimplification.PickSorted` | app/services/hydrography.py:238 | the kept positions, whatever set they were gathered in, come out in ascending order, each once |
| `LineSimplification.SegmentDist2IsLeast` | app/services/hydrography.py:231-232 | the clamped projection gives the distance to the nearest point of the segment, also when its two ends coincide |
| `LineSimplification.SegmentDist2Meaning` | app/services/hydrography.py:231-233 | not exceeding the tolerance means that some point of the segment is within it, and conversely |
| `LineSimplification.KeptAscending` | app/services/hydrography.py:238 | kept vertices keep their order |
| `LineSimplification.DroppedWithinTolerance` | app/services/hydrography.py:222-238 | every dropped vertex is within the tolerance of the segment between the two kept vertices around it |
| `LineSimplification.KeptNested` | app/services/hydrography.py:217-238 | a larger tolerance keeps a subset of the vertices |
| `LineSimplification.SimplifyComposes` | app/services/hydrography.py:217-238 | simplifying a simplified line at a tolerance at least as large gives what the original line gives |
| `LineSimplification.SimplifyIdempotent` | app/services/hydrography.py:217-238 | simplifying again at the same tolerance removes nothing |
| `LineSimplification.ZoomLevelsNest` | app/services/hydrography.py:207-238 | across the zoom levels of the layer, zooming in only adds vertices, and the coarse line can be computed from the fine one |
| `LineClipping.ClipSegment` | app/services/hydrography.py:247-261 | the two parameters delimit exactly the part of the segment in the box; the segment is skipped exactly when no part is |
| `LineClipping.BoundsAreTheBox` | app/services/hydrography.py:251 | the four half-planes in the order tried mean being in the box |
| `LineClipping.NarrowStep` | app/services/hydrography.py:251-259 | each half-plane narrows the parameters to exactly those that meet it as well, in all three sign cases |
| `LineClipping.ClipLine` | app/services/hydrography.py:241-267 | a point is on some output line if and only if it is on the input line and in the box; the lines hold the visible pieces in order, each once, running the way the input does, and could not be joined further; a line inside the box comes back as it is |
| `LineClipping.ClippingIsUnique` | app/services/hydrography.py:241-267 | exact cuts and lines that cannot be joined further are determined by the line and the box, so there is no other output of that kind |
| `LineClipping.JoiningIsUnique` | app/services/hydrography.py:262-266 | edges can be joined into such lines in one way only |
| `LineClipping.AddPiece` | app/services/hydrography.py:263-266 | a piece goes on with the last line when that ends where the piece begins, and otherwise begins another |
| `LineClipping.VisibleStep` | app/services/hydrography.py:262-266 | appending to the last line, or starting a new one, adds exactly the piece just found |
| `LineClipping.JoinKeepsPieces` | app/services/hydrography.py:263-264 | joining adds one edge, from where the last line ended, and no other |
| `LineClipping.NewLineKeepsPieces` | app/services/hydrography.py:265-266 | starting a line adds one edge and leaves the others |
| `LineClipping.ClipIsExact` | app/services/hydrography.py:241-267 | from exact cuts joined without loss: a point is visible if and only if it is on an output line |
| `LineMerging.MergeLines` | app/services/hydrography.py:96-122 | the loop returns one chain per group of lines: every group begins with the first free line, headwaters before the others, goes on with the first free line that starts where the last one ends, and ends when there is none; the chain is the edges of its lines, line after line |
| `LineMerging.AllGroupsAreGreedy` | app/services/hydrography.py:103-121 | the groups take the first free line at every choice, in terms of indices, starts and ends alone, until all lines are used |
| `LineMerging.GreedyGroupsAreUnique` | app/services/hydrography.py:103-121 | and no other groups do |
| `LineMerging.MergedIsSpelled` | app/services/hydrography.py:112-121 | each chain starts where its first line does and consists of the edges of its lines in order |
| `LineMerging.NonEmptyKeeps` | app/services/hydrography.py:102 | exactly the empty lines are dropped, and the others keep their order |
| `LineMerging.IndexByStart` | app/services/hydrography.py:103-105 | for every point, the index holds the lines that start there, in input order |
| `LineMerging.ExtendChain` | app/services/hydrography.py:112-120 | the inner loop builds the chain of one group and marks exactly its lines as used; it terminates |
| `LineMerging.MergeInOrder` | app/services/hydrography.py:109-122 | the outer loop builds one chain per unused line in the given order |
| `LineMerging.GroupIsProper` | app/services/hydrography.py:113-120 | a chain is linked end to start, uses unused lines only, each once, and stops only when no unused line continues it |
| `LineMerging.MergeConservesEdges` | app/services/hydrography.py:96-122 | the multiset of consecutive point pairs of the output is that of the input |
| `LineMerging.LinesUsedOnce` | app/services/hydrography.py:107-121 | every non-empty line is in exactly one chain, once |
| `LineMerging.MergedOrdered` | app/services/hydrography.py:110-121 | the end of a chain is never the start of a chain returned after it |
| `LineMerging.HeadwaterBegins` | app/services/hydrography.py:106-120 | a headwater can only be the first line of a chain |
| `LineMerging.HeadwatersFirst` | app/services/hydrography.py:109-114 | the first chains begin at the headwaters, one each and in input order, and no later chain does |
| `FarthestPointSampling.FarthestPointOrder` | app/repositories/territories.py:212-260 | the places come back in greedy farthest-point order, none lost or repeated, beginning with the one at the start index, or, out of range, with the first or the last; none or one come back unchanged |
| `FarthestPointSampling.SelectOrder` | app/repositories/territories.py:228-258 | the loops with the incrementally kept distances compute the greedy order of all places; the early exit is never taken and nothing is left to append |
| `FarthestPointSampling.PickFarthest` | app/repositories/territories.py:238-243 | the scan finds the first unvisited place of greatest kept distance, and nothing only when all are visited |
| `FarthestPointSampling.LowerDistances` | app/repositories/territories.py:248-254 | unvisited places get the lesser of their distance and that to the new place; visited ones keep theirs |
| `FarthestPointSampling.OrderIsPermutation` | app/repositories/territories.py:237-260 | every place is returned exactly once |
| `FarthestPointSampling.GreedyIsUnique` | app/repositories/territories.py:237-247 | the order is determined by the positions and the start |
| `FarthestPointSampling.GreedyExists` | app/repositories/territories.py:237-247 | and there always is one |
| `FarthestPointSampling.InsertionDistancesFall` | app/repositories/territories.py:237-254 | no place is farther from those before it than the place chosen just before was |
| `FarthestPointSampling.PrefixCovers` | app/repositories/territories.py:212-260 | the first k places cover all places within four times the squared radius that any k centres, anywhere in the plane, achieve |
| `FarthestPointSampling.SampleCovers` | app/repositories/territories.py:212-309 | so for every place, a sample of the first k returned has one within that distance |
| `PushDelivery.DeliveryRow.Attempt` | app/services/notifications.py:112-147 | by the answer: accepted marks the row sent and costs an attempt; 404 and 410 remove it; 400 uses up the five attempts; 401, 403, 429 and a configuration failure leave the count and stop the batch; any other failure costs an attempt and does not; the next attempt waits 600, 1200, 2400 and then 3600 seconds |
| `PushDelivery.BackoffNumbers` | app/services/notifications.py:131-133 | ten minutes, doubled by every attempt, at most an hour |
| `PushDelivery.TtlMeans` | app/services/notifications.py:108-109 | the time to live is zero exactly in the alert's last second; otherwise as many whole seconds as are left, at most an hour, so that no push outlives the alert it was computed from |
| `PushDelivery.DeliveryRow.Handle` | app/services/notifications.py:101-147 | one pass of the loop: a row not due, or with less than a second to live, is cancelled; any other is attempted |
| `PushDelivery.SettledFacts` | app/services/notifications.py:112-145 | the count stays within five; a row is marked sent exactly when accepted and never cancelled as well; an attempt is charged except when the failure is the sender's own; the next attempt waits for the back-off |
| `PushDelivery.FlushedFacts` | app/db/session.py:17-21 | the same of the stored row when the mapped object is older than it and only the changes are written: the row stays in range, the sender's own failures leave the stored count, and the next attempt is put off by the back-off that the object counted |
| `NotificationDispatch.LockKeeps` | app/repositories/notifications.py:150-153 | taking the advisory lock keeps the invariant: at most one dispatcher is inside a transaction of the loop |
| `NotificationDispatch.PickKeeps` | app/repositories/notifications.py:118-147 | picking a pending row keeps the invariant: the stored row is open and due, and so is the object that the session may have kept of it |
| `NotificationDispatch.EnqueueKeeps` | app/repositories/notifications.py:92-115 | adding events and deliveries and dropping old events keeps the invariant: no event is duplicated, and no settled row revived |
| `NotificationDispatch.DecideKeeps` | app/services/notifications.py:101-112 | cancelling, or going on to send, keeps the invariant: what is sent agrees with the alert as the session sees it, is eligible, and has a second left by that alert |
| `NotificationDispatch.StepKept` | app/services/notifications.py:97-100 | every step keeps this: what a session still holds of its last row is no newer than the row, and open if the row is |
| `NotificationDispatch.CommitKeeps` | app/services/notifications.py:123-147 | committing an answer keeps the invariant |
| `DispatchMeaning.CandidatesMean` | app/repositories/notifications.py:36-54 | the candidates are the opted-in followers of municipalities that an unexpired alert affects, with what it says |
| `DispatchMeaning.EnqueuedEvents` | app/repositories/notifications.py:92-114 | after enqueueing, every candidate has an event, unless its alert expired more than thirty days ago; exactly such events are dropped |
| `DispatchMeaning.EnqueuedRows` | app/repositories/notifications.py:95-115 | there is then a delivery row for every event and device it reaches, due at once if it is new; old rows are as they were, and go only with their event |
| `DispatchMeaning.Decided` | app/services/notifications.py:101-111 | a picked row is sent exactly when its alert, as the session sees it, still says the same and has a second left, and its target was eligible when the run began; otherwise it is cancelled |
| `DispatchMeaning.CommitOfOwnFailure` | app/services/notifications.py:124-147 | committing a 401, 403, 429 or configuration failure leaves the stored count, puts the row off by ten minutes or more and ends the run |
| `DispatchMeaning.CommitOfAnswer` | app/services/notifications.py:112-145 | after any other answer the run goes on: accepted, the row is sent and counted; a device gone goes with all its rows; 400 leaves five attempts; other failures cost one |
| `DispatchMeaning.RunWithinLimit` | app/services/notifications.py:92-93 | a run sends no more than the limit it began with |
| `NotificationDispatch.CrashKeeps` | app/services/notifications.py:94 | losing a process at any point, with its transaction rolled back, keeps the invariant |
| `NotificationDispatch.StepKeeps` | app/services/notifications.py:74-148 | every step of every dispatcher, of other requests and of the clock keeps the invariant |
| `NotificationDispatch.ExecutionKeeps` | app/services/notifications.py:74-148 | the invariant holds in every state of every run |
| `NotificationDispatch.AcceptedAtMostOnce` | app/services/notifications.py:74-148 | in every run, the pushes accepted for a row are exactly: one if it is recorded as sent, one if in flight, and one for each commit lost after acceptance; so at most one when no commit is lost |
| `DispatchExamples.PushedTwice` | app/services/notifications.py:112-145 | a run in which one row is pushed twice, its first commit being lost |
| `NotificationDispatch.NoRepeatedNotification` | app/repositories/notifications.py:92-115 | one text is not accepted twice for a subscription while both event rows exist, if no commit was lost |
| `DispatchProvenance.SendsAreDue` | app/services/notifications.py:74-121 | in every run, every accepted push goes back to steps of one dispatcher: by what the database held when its run began, the user was eligible; by what it held when the row was picked, the row was open and the user opted in; and by what it held at the first of the run's unbroken series of picks for that alert, the alert said what the event says, with at least a second left at the decision to send. The text is current at the pick exactly when the alert says the same at both |
| `DispatchProvenance.AlertOfStreak` | app/services/notifications.py:97-107 | the alert a pick sees is the one the database held at the first pick of that series, since the session keeps the object as long as the loop refers to it |
| `DispatchProvenance.FirstOfStreakIsCurrent` | app/services/notifications.py:97-121 | a row picked first in its run, or right after one about another alert, is sent only with the text the alert has then, and at least a second before it expires |
| `DispatchExamples.StalePush` | app/services/notifications.py:97-121 | a run in which the second device of a user is sent a text that the database no longer held when the row was picked |
| `DispatchProvenance.RunEnded` | app/services/notifications.py:91-99 | a run returns for want of iterations, for somebody else's lock, for a failure of its own, or because every pending row was locked by others when it looked |
| `NotificationDispatch.AttemptsSpaced` | app/services/notifications.py:131-133 | an attempt on a row comes at least the back-off after every earlier committed attempt on it, by the count of that attempt |
| `NotificationDispatch.RowsStaySound` | app/repositories/notifications.py:133-140 | in every run, counts stay within five and no row is both sent and cancelled |
| `NotificationDispatch.FinalRowsStay` | app/repositories/notifications.py:133-140 | a sent or cancelled row never changes again |
| `NotificationDispatch.ReturnedCount` | app/services/notifications.py:91-148 | a run returns the number of rows it committed as sent |
| `TileImport.FlipIsBijection` | app/jobs/import_transport_tiles.py:56 | the flip of tile rows is its own inverse and a bijection of the rows of a zoom |
| `TileImport.FlipCountsBack` | app/jobs/import_transport_tiles.py:56 | the file's bottom row is the map's last, and one row up in the file is one row back on the map |
| `TileImport.FlipKeepsHalves` | app/jobs/import_transport_tiles.py:56 | at zoom 0 there is one row; the upper half of a row, one level further in, is the upper half of the same row on the map |
| `TileImport.KeyIsInjective` | app/jobs/import_transport_tiles.py:55-57 | file rows share a key only when the file numbers them alike |
| `TileImport.TileStore.PrepareStaging` | app/jobs/import_transport_tiles.py:74-91 | staging is kept if it is for the same file and emptied and marked if not, exactly when the transaction commits; the keys returned are those staged |
| `TileImport.TileStore.Write` | app/jobs/import_transport_tiles.py:94-107 | however often the batch is retried, it is staged once if any attempt committed and not at all otherwise; it gives up only when the process dies or the fifth attempt fails |
| `TileImport.TileStore.StageRows` | app/jobs/import_transport_tiles.py:119-125 | after the batches the whole file is staged, with what was there before, unless a transaction failed |
| `TileImport.BatchStaged` | app/jobs/import_transport_tiles.py:120-125 | skipping the keys staged by an earlier run still leaves the whole batch staged |
| `TileImport.TileStore.Swap` | app/jobs/import_transport_tiles.py:129-154 | the swap is all or nothing, by whether its transaction commits |
| `TileImport.CountGuard` | app/jobs/import_transport_tiles.py:138-140 | with all its tiles staged and no others, the count matches exactly when the file numbers no tile twice, and then the staged table shows the file |
| `TileImport.WholeFileIsUnique` | app/jobs/import_transport_tiles.py:141-143 | two tables that are the whole file are equal |
| `TileImport.TileStore.Ingest` | app/jobs/import_transport_tiles.py:110-158 | staging holds only tiles of the file its mark names, wherever the run is cut off; the live table is untouched or the whole new file; a resumed run only adds; a file that repeats a key is refused; a run is interrupted only by a transaction that fails, and with none failing a file of distinct keys is imported |
| `TileImport.TileStore.Publish` | app/jobs/import_transport_tiles.py:138-144 | the live table changes only to show the whole file: a mismatch of the counts leaves it alone |
| `TileImport.WholeFileIsUpright` | app/jobs/import_transport_tiles.py:56 | holding the file's tiles under their keys is the same as showing, at every place of the map, the row of the file that lies there, counted from the other side |
| `TileImport.ImportAll` | app/jobs/import_transport_tiles.py:110-158 | after any number of runs on any files, each cut off anywhere, the live table is what it was or exactly one of the files |
| `Shapefile.WkbRoundTrip` | app/providers/shapefile.py:29-34 | parsing the multi-line string gives back its parts |
| `Shapefile.EncodePolyline` | app/providers/shapefile.py:37-53 | the loop over slices computes the encoder's specification on any bytes, unpacking errors included |
| `Shapefile.LinesAre` | app/providers/shapefile.py:45-46 | the parts with two points or more are the lines, in order |
| `Shapefile.CopyParts` | app/providers/shapefile.py:41-49 | the chunks and the count after the loop over the parts |
| `Shapefile.CopiedAreLines` | app/providers/shapefile.py:43-49 | copying slices writes the bytes of decoding the parts and encoding those with at least two points |
| `Shapefile.EncoderIsDecodeThenEncode` | app/providers/shapefile.py:37-53 | on every well-formed record the encoder yields byte for byte the multi-line string of the decoded parts of at least two points, and nothing exactly when there are none |
| `Shapefile.EncodedReadsBack` | app/providers/shapefile.py:37-53 | parsing what the encoder wrote gives those parts |
| `Shapefile.WrittenRecordEncodes` | app/providers/shapefile.py:37-53 | a PolyLine record laid out as in the ESRI Shapefile Technical Description (July 1998) encodes to the binary of its parts |
| `Shapefile.ReadShapes` | app/providers/shapefile.py:56-78 | the reader yields the shapes of the specification, after the checks of the header |
| `Shapefile.HeaderMeans` | app/providers/shapefile.py:57-61 | a file is refused unless it has a hundred bytes, begins with 9994 and says it holds points or lines |
| `Shapefile.OtherKinds` | app/providers/shapefile.py:68-77 | a null shape yields nothing, a point its byte order, kind and coordinates, and any other kind but a line an error |
| `Bytes.SignedReadsBack` | app/providers/shapefile.py:57-66 | integers are read as written in either byte order, negative ones too |
| `Bytes.LeastFirst` | app/providers/shapefile.py:26-31 | the little-endian form begins with the least significant byte |
| `Shapefile.ReadRecords` | app/providers/shapefile.py:63-78 | the loop over the records yields shapes until the data ends or a record is refused |
| `Shapefile.RecordsReadBack` | app/providers/shapefile.py:65-78 | any records after any prefix are read one by one, in order; too short a tail is ignored |
| `Shapefile.FileReadsBack` | app/providers/shapefile.py:56-78 | a header followed by any readable records yields one decoded value per record, in file order |
| `Shapefile.PolylineFileReadsBack` | app/providers/shapefile.py:37-78 | a file of PolyLine records reads back, record by record, as the binaries of their parts |
| `ElectionStage.MergesAgree` | app/providers/tse.py:380-419 | the merge in memory equals the upsert exactly when the candidate keeps office and scope and is not remembered as elected in a round zero that a row not elected follows |
| `ElectionStage.UpsertAssociates` | app/providers/tse.py:411-419 | upserting twice is upserting once with the merge of the two |
| `ElectionStage.Stage.SaveCandidates` | app/providers/tse.py:411-419 | saving merges every remembered candidate into its stored row and leaves the others |
| `ElectionStage.Stage.InsertVotes` | app/providers/tse.py:348-352 | a batch adds to each vote cell the entries for it |
| `ElectionStage.RowRemembered` | app/providers/tse.py:378-402 | taking a row that fits into memory is the same as writing everything pending and then the row |
| `ElectionStage.Stage.LoadCandidateRows` | app/providers/tse.py:353-409 | the tables after any rows, in batches of any size; for regular rows, as if each had been written at once |
| `ElectionStage.LimitIsIrrelevant` | app/providers/tse.py:353-409 | for rows of rounds from one on, with a fixed office and scope per candidate, the batch limit makes no difference |
| `ElectionStage.LoadedVotes` | app/providers/tse.py:400-407 | to the votes it never does |
| `ElectionStage.LimitMatters` | app/providers/tse.py:380-419 | two pairs of rows that load differently in one batch and in two: a candidate that changes office, and one that loses after a win in round zero |
| `ElectionStage.Stage.LoadPartyRows` | app/providers/tse.py:362-366 | whatever the batch limit, a party has a cell exactly when some row of its contest and place knows both counts and they are not zero together; the cell grows by nominal and legend votes over all such rows |
| `ElectionStage.PartiesAddUp` | app/providers/tse.py:362-366 | so for any rows and any table to begin with: an unknown value stays unknown, and an empty table ends with the sums |
| `ElectionStage.VotesAddUp` | app/providers/tse.py:400-402 | a candidate has a cell exactly when some row of the contest and place gives it votes, and the cell grows by their sum |
| `ElectionStage.CountsAddUp` | app/providers/tse.py:333-361 | each of the seven fields of a contest and place grows by its sum over the rows, and is NULL as soon as a row does not know it |
| `ElectionStage.Stage.InsertTotals` | app/providers/tse.py:333-343 | a batch of turnout rows adds to all seven fields |
| `ElectionStage.Stage.LoadDetailRows` | app/providers/tse.py:353-360 | whatever the batch limit, the seven fields end as if all rows had been written at once |
| `ElectionStage.LoadedCandidates` | app/providers/tse.py:378-419 | a loaded candidate is elected in the greatest round it won, and shows the last row that says elected, or else its last row |
| `ElectionStage.CandidateIntroduced` | app/providers/tse.py:369-419 | and keeps the office and scope of the row that introduced it |
| `ElectionStage.AccumulatedAreSums` | app/providers/tse.py:335-352 | a cell holds the sum of the entries for it, NULL as soon as one is |
| `ElectionStage.SumIgnoresOrder` | app/providers/tse.py:335-352 | the sums do not depend on the order of the rows |
| `ElectionStage.LoadingIgnoresOrder` | app/providers/tse.py:353-409 | neither does the loaded table |
| `ElectionRollup.GroupBy` | app/providers/tse.py:428-445 | one scan, in any order, tallies every group: rows, known values and their sum |
| `ElectionRollup.StrictSumMeaning` | app/providers/tse.py:440 | the guarded sum is NULL exactly when some row of the group is |
| `ElectionRollup.RollUp` | app/providers/tse.py:428-445 | the two statements insert the state groups and then the national ones, and neither meets a row with the same key |
| `ElectionRollup.StatesNotCounted` | app/providers/tse.py:435-445 | the national statement reads the municipalities only: the state rows just inserted are not counted again |
| `ElectionRollup.ParentsAreSums` | app/providers/tse.py:428-445 | each state row is the sum of its municipalities and each national row the sum of all, NULL exactly when one of them is; votes have no state rows for municipal offices, and national ones for presidents only; municipal rows stay; there are no other rows |
| `ElectionRollup.CountryIsSumOfStates` | app/providers/tse.py:428-445 | each national row is also the sum of its states, NULL exactly when one of them is |
| `ElectionRollup.KeptRows` | app/providers/tse.py:422-427 | the totals that survive the deletions are those of rounds one and two in which somebody voted or the votes are nowhere known |
| `ElectionRollup.DeleteEmptyContests` | app/providers/tse.py:424-427 | the rows of contests whose known votes add up to zero go, from every field |
| `ElectionRollup.Aggregate` | app/providers/tse.py:421-445 | the three tables after all statements in order |
| `ElectionRollup.LoadedIsStaged` | app/providers/tse.py:353-366 | what loading leaves is what the roll-up asks for: municipal codes, and no NULL outside the totals |
| `ElectionLive.PublishedContests` | app/providers/tse.py:279-284 | the contests whose known votes add up to more than zero |
| `ElectionLive.PublishedMeans` | app/providers/tse.py:281-283 | that is, the known votes of the office and round, over all places, add up to more than zero |
| `ElectionLive.OpenRowsAre` | app/providers/tse.py:285-300 | what is loaded are the rows of the items of other contests that have one, each once and in order |
| `ElectionLive.LoadLive` | app/providers/tse.py:277-301 | only items of other contests are loaded, into all the tables; nothing at all when no turnout item, filtered out later or not, is among them |
| `ElectionLive.PublishedPrevails` | app/providers/tse.py:278-292 | every vote, party and totals cell of a published contest stays as staged |
| `Cache.TtlCache.Get` | app/core/cache.py:22-36 | a hit moves the entry to the end and counts; an entry found expired is dropped; a disabled cache answers and counts nothing |
| `Cache.TtlCache.Set` | app/core/cache.py:38-47 | the entry goes to the end with its own or the cache's lifetime, and the oldest go while there are too many; a lifetime of zero or less stores nothing |
| `Cache.CacheIsBounded` | app/core/cache.py:22-50 | after any calls, keys are distinct and no more than the limit |
| `Cache.FoundIsLastSet` | app/core/cache.py:22-50 | after any calls, every entry is what the last effective set of its key stored |
| `Cache.EntriesInOrder` | app/core/cache.py:34-47 | after any calls, entries are in order of recency: later ones were touched since earlier ones were |
| `Cache.GoneBecause` | app/core/cache.py:22-50 | an entry goes only when cleared, when found expired, or when evicted after at least as many other keys as the limit were touched since it was |
| `Cache.HitsExactly` | app/core/cache.py:22-50 | a hit is the entry of the last effective set, unexpired; and while the entry is undisturbed, get hits exactly until it expires |
| `Cache.HitWasSet` | app/core/cache.py:22-47 | in terms of the calls: a hit answers with the last value set under the key with a positive lifetime, not cleared since, no later than that lifetime, or else the cache's, after it was set |
| `Cache.SetIsHit` | app/core/cache.py:22-47 | and while the entry is undisturbed, for exactly that long |
| `AttemptLimiter.Limiter.Check` | app/core/auth.py:59-77 | an attempt is rejected exactly when the e-mail is locked, its account has ten attempts in the window or its address, if known, thirty; admitted, it counts under both; rejected, no counter changes; a counter is forgotten only when the cache is full |
| `AttemptLimiter.NotedUnderKeys` | app/core/auth.py:67-77 | an admitted attempt is noted under the account, and under the address when that is known |
| `AttemptLimiter.RejectedWhenFull` | app/core/auth.py:70-77 | a counter rejects only when as many attempts as its limit were admitted since 300 seconds and the limit ago |
| `AttemptLimiter.Limiter.Count` | app/core/auth.py:70-75 | the counters the attempt would have, or a rejection when one is full |
| `AttemptLimiter.Limiter.RecordFailure` | app/core/auth.py:80-89 | a failure is added to those of the e-mail |
| `AttemptLimiter.Limiter.Forgive` | app/core/auth.py:96-99 | the account and the e-mail start over; the address does not |
| `AttemptLimiter.ForgivenStartsOver` | app/core/auth.py:96-99 | a key that starts over is neither full nor locked |
| `AttemptLimiter.BucketBounds` | app/core/auth.py:72-77 | a counter never exceeds its limit, and is forgotten at most one second per attempt after its window, in spite of the rounded lifetime |
| `AttemptLimiter.Released` | app/core/auth.py:72-77 | once as many seconds as the limit have passed since the window's end, an attempt is admitted, in a new window |
| `AttemptLimiter.NextWindow` | app/core/auth.py:70-77 | a window admits at most the limit: a new one opens within as many attempts |
| `AttemptLimiter.AttemptsInAnyInterval` | app/core/auth.py:70-77 | any half-open interval as long as a window has at most twice the limit of admitted attempts |
| `AttemptLimiter.LimitsHold` | app/core/auth.py:59-77 | so no account of a limiter has more than twenty, and no address more than sixty, admitted attempts in any 300 seconds, whatever was called, since the key was last cleared or evicted |
| `AttemptLimiter.Lock` | app/core/auth.py:87-88 | no lock for the first five failures, one of at most an hour after |
| `AttemptLimiter.LockedForTheLadder` | app/core/auth.py:63-66 | while failures come less than a day apart, an e-mail is locked for 60, 300 and 900 seconds after the sixth, seventh and eighth failure, for an hour after any later one, and not before |
| `WeatherFetch.Fetcher.StartFetch` | app/services/weather_forecast.py:216-230 | the new task is registered under all its keys, and every other registration stays |
| `WeatherFetch.Fetcher.Complete` | app/services/weather_forecast.py:191-211 | a batch is refused as a whole unless every city is recent; otherwise each city gets what the source said of it, as of now |
| `WeatherFetch.Fetcher.Store` | app/services/weather_forecast.py:212-213 | once saved, the readings become the result of the task unchanged |
| `WeatherFetch.Fetcher.Release` | app/services/weather_forecast.py:222-227 | the callback removes exactly the registrations of its task |
| `WeatherFetch.Fetcher.Join` | app/services/weather_forecast.py:236-244 | every city is awaited from a task still in flight that has it; a task is started exactly when some city was not in flight |
| `WeatherFetch.Fetcher.Gather` | app/services/weather_forecast.py:245-254 | fails exactly when an awaited task did; returns exactly the readings that the awaited tasks brought for the cities wanted from them, and one for every city unless it failed |
| `WeatherFetch.OneTaskPerCity` | app/services/weather_forecast.py:216-244 | in every reachable state, two unfinished tasks of a variant have no city in common |
| `WeatherFetch.AwaitsLater` | app/services/weather_forecast.py:247-249 | whatever happens to the tasks meanwhile, a caller goes on waiting for the right ones |
| `WeatherFetch.Classify` | app/services/weather_forecast.py:266-282 | which cities are usable, may serve as fallback, are missing, are to be renewed, and are to be forced |
| `WeatherFetch.Fetcher.Finish` | app/services/weather_forecast.py:284-302 | each city has what an awaited task brought, or else what was known if at most two hours old at the request, or, only when outdated, twelve; nothing of the kind is withheld; not outdated, no city is missing, and what was known serves when forced, and is fresh or being fetched again; an error is raised only when there is nothing to give |
| `WeatherFetch.Fetcher.Resolve` | app/services/weather_forecast.py:257-302 | the same end to end, whatever tasks, callbacks and other callers do while it waits; and not outdated, every reading was at most two hours old at the request, or when the source answered an awaited task: no earlier than the caller joined it, unless that task had its answer already and was still in flight |
| `WeatherFetch.WaitsForTheRest` | app/services/weather_forecast.py:269-287 | a caller waits for exactly the cities for which nothing known serves: at most two hours old and, when forced, fetched less than five minutes before |
| `WeatherFetch.LimitsInSeconds` | app/services/weather_forecast.py:42-46 | the age limits in seconds |
| `WeatherFetch.AnswerIsTimely` | app/services/weather_forecast.py:284-302 | the second of these, from the first and from what may happen meanwhile |
| `WeatherFetch.LaterStill` | app/services/weather_forecast.py:247-249 | what may happen in two stretches of waiting may happen in one |
| `GridCells.Atlas.CellRepresentatives` | app/services/weather_forecast.py:572-595 | with or without the memo, the representatives are those of the specification, coarser levels preferred after the sample |
| `GridCells.Elect` | app/services/weather_forecast.py:585-593 | the loop keeps the best city of every cell |
| `GridCells.ElectedAreBest` | app/services/weather_forecast.py:585-593 | exactly the occupied cells have a representative, in the cell, that no city of the cell precedes |
| `GridCells.NearestRepresents` | app/services/weather_forecast.py:587-593 | sample cities come before those chosen on coarser grids and these before the others; among equals, none is nearer to the centre of the cell than the representative, and none as near has a smaller code |
| `GridCells.OffCentreIsDistance` | app/services/weather_forecast.py:588-591 | the rank is by the squared distance, in both coordinates, to the point halfway between the corners of the cell |
| `GridCells.InItsCell` | app/services/weather_forecast.py:568-569 | a city lies between the corners of its cell, one size apart |
| `GridCells.SampleIsPrefix` | app/services/weather_forecast.py:578 | the sample is of the first twenty cities |
| `GridCells.CoarserAre` | app/services/weather_forecast.py:579-584 | the others preferred are the representatives on all coarser grids |
| `GridCells.OrderDoesNotMatter` | app/services/weather_forecast.py:578-593 | for a fixed sample, the representatives do not depend on the order of the cities |
| `GridCells.SampleComesFirst` | app/services/weather_forecast.py:578-592 | a cell with a city of the sample is represented by one |
| `GridCells.CellsNest` | app/services/weather_forecast.py:568-569 | cities in one cell share the cell of every coarser grid of 1, 0.5 and 0.25 degrees |
| `GridCells.RefiningKeeps` | app/services/weather_forecast.py:579-592 | on the grids of 1, 0.5 and 0.25 degrees, a representative outside the sample stays the representative of its own finer cell |
| `GridCells.KeptOnTenths` | app/services/weather_forecast.py:579-592 | on the grid of 0.1 degrees it stays exactly when no city of the sample shares its cell and no city nearer to the centre that a coarser grid chose |
| `GridCells.TenthsDropSome` | app/services/weather_forecast.py:555-593 | a state, sampled in farthest-point order, in which a city outside the sample is chosen on the grid of 0.25 degrees and dropped on that of 0.1 |
| `Quantiles.SortedAscends` | app/services/classification.py:79 | the present values are sorted |
| `Quantiles.SortedIsComplete` | app/services/classification.py:79 | and none is lost |
| `Quantiles.SortedIsPermutation` | app/services/classification.py:79 | every present value occurs as often as it was given |
| `Quantiles.DescribedFacts` | app/services/classification.py:79-92 | there is a distribution exactly when some value is present; it counts present and missing values, and its bounds are values that bound the others |
| `Quantiles.InterpolatedBounds` | app/services/classification.py:65-71 | a percentile lies between its two neighbours |
| `Quantiles.BreakMeans` | app/services/classification.py:65-97 | a break is the value at its position when that is whole, and otherwise the two values around it weighted by tenths, rounded |
| `Quantiles.HalfEvenMeans` | app/services/classification.py:16-17 | rounding is to the nearest, and halfway to the even number |
| `Quantiles.BreaksAscend` | app/services/classification.py:94-99 | breaks never go down, and the last is the greatest value |
| `Quantiles.BisectLeftMeans` | app/services/classification.py:55 | the insertion point is at most i exactly when the value is at most the i-th break |
| `Quantiles.ClassOfValue` | app/services/classification.py:51-56 | class indices are in range and monotone; a described value is in the first class whose break is not below it; greater values are in the last |
| `Quantiles.ClassesHoldTheirShare` | app/services/classification.py:74-101 | classes 0 to i together hold at least floor((i+1)(n-1)/10)+1 of the values, in spite of interpolation and rounding |

## Left out

- LineSimplification.SimplifyLine: does not round the kept points to four decimals or drop further coordinates, because the properties are about which vertices are kept.
- LineClipping.ClipLine: is over exact numbers; with floating point the cut ends are rounded.
- FarthestPointSampling.FarthestPointOrder: takes the cosine of the mean latitude as a parameter, any real number, and exact distances.
- NotificationDispatch.PickKeeps: any pending row may be picked, locked or not, so the order by creation time is not modelled; the proofs hold for any order. The keys of a subscription, which the session may keep from the last row as well, are not modelled.
- NotificationDispatch.AcceptedAtMostOnce: a push is accepted when the dispatcher has the answer; one whose answer is lost with the process is not counted.
- NotificationDispatch.EnqueueKeeps: the geometric match of alerts without listed municipalities is a given set of affected municipalities.
- DispatchProvenance.SendsAreDue: the version of an alert stands for its content, that is, hashes do not collide.
- NotificationDispatch.StepKeeps: other requests cannot delete the event or the subscription of a row that a dispatcher has picked, since deleting the row with them would wait for its lock.
- TileImport.TileStore.Ingest: takes one importer at a time and a mark that identifies the file, which the file's size and replication time do not quite do; the job log and the printed progress are not modelled.
- Shapefile.ReadShapes: a record whose negative length makes it end before the file begins stops the reading with an error of its own; the original then counts offsets from the end of the file, which is not modelled.
- Shapefile.ReadRecords: the same.
- ElectionLive.LoadLive: takes each item with the office and round it names and the row the filters leave of it; building the items from the documents of the live count is not modelled.
- ElectionStage.Stage.LoadCandidateRows: starts from rows that passed the filter by year, geography and office; the filter itself, its counters and the newest timestamp are not modelled.
- ElectionRollup.Aggregate: the tables of the two leading candidates and parties are not modelled, nor is an insert that fails because a staged code is not municipal.
- AttemptLimiter.Limiter.Check: reads the clock once per call; hashed keys are taken to be distinct.
- AttemptLimiter.LimitsHold: counts attempts since the key was last cleared or evicted, since a successful sign-in forgives the earlier ones of the account, and a full cache forgets its oldest keys.
- WeatherFetch.Fetcher.Complete: the request itself, the cool-downs after errors and the stored copies in the local and shared caches are not modelled; neither is cancelling a task. Saving the readings always succeeds.
- WeatherFetch.Classify: takes the readings found in the caches as given.
- GridCells.Atlas.CellRepresentatives: coordinates divide exactly by the size of a cell; codes compare as numbers, since they all have as many digits.
- Quantiles.ClassesHoldTheirShare: is for the ten classes that are always asked for, and for values in whole millionths; the mean, the median and the normalised value are not modelled.
- Interpolation of municipal weather: its means are of floating-point weights, and cities without a reading count in the total weight.
- Reading of dBASE tables, parsing of bounding boxes and the polygon rings of the hydrography layer: they would add only simple members.
- HTTP clients, Redis, routes, schemas, migrations, logging, password hashing and push encryption: plumbing or declarations.
- Statements computed by PostGIS, such as transport totals and boundary queries: their meaning is in the database.
