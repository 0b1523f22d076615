# A verified model of the SRS stream source and configuration

This project models two parts of the SRS streaming server and the small protocols around them, and
proves what they are for.

**The live source** (`simple-server/srs_app_source.cpp`). A publisher's messages pass through an
optional reorder queue, are copied to every consumer through a timestamp corrector, and enter a bounded
queue over a growable array. A cache of the current group of pictures and a cache of codec headers let a
client that joins late start at once. Aggregate messages are split by a byte-level parser
(section 7.1.6 of Adobe's RTMP 1.0 specification).

**The configuration** (`simple-server/srs_app_config.cpp`). A tokenizer and a recursive block parser read
it, a printer writes it back, a migration rewrites SRS1/2 vhosts to the SRS3 layout in place, a reload
tells subscribers what changed, and an API edits the list of streams to record.

**Around them**, as step systems over every interleaving: the publish lock with the idleness clock of a
source, and the hand-off between the receiving thread and the playing loop.

## How it is built

Every object whose methods update fields is a class here, and every loop of the program is a loop. Each
method is proved equal to a function of the old state; the properties are lemmas about those functions
and about runs of them. `SourceSpec.dfy` and `ConfReload.dfy` hold such functions for the two largest
classes. What these functions compute is then said again without them, in bytes, names, times and codes:
`AggregateOffers`, `LateJoin`, `ConfWritten`, `ConfSettings` and `ConfReloadTold` do little else.

| files | what they model |
|---|---|
| `Messages`, `Jitter`, `FastVector`, `MessageQueue`, `Consumer` | the path from a source to one client |
| `GopCache`, `MixQueue`, `Aggregate`, `AggregateOffers` | the caches, the reorder queue, the splitting of aggregates and what consumers get of one |
| `SourceSpec`, `Source`, `SourceRuns` | the source itself, and runs of it |
| `LateJoin`, `JoinHeaders` | what a client that joins after any run is given: which frames, under which headers |
| `PublishLock`, `PublishRace`, `RecvHandoff` | the two protocols; the lock with and without the assumption that taking it is one step |
| `ConfDirective`, `ConfLexer`, `ConfParser`, `ConfWritten`, `ConfPrinter`, `ConfRoundTrip` | reading and writing a configuration |
| `ConfTransform`, `ConfMigration`, `ConfRefer`, `ConfTransformVhost`, `ConfSettings` | the migration |
| `ConfReload`, `ConfReloadDiff`, `ConfReloadHttp`, `ConfReloadSharp`, `ConfReloadRun`, `ConfReloadTold` | the reload |
| `DvrFilter` | the list of streams to record |

`dafny verify dfyconfig.toml` checks everything.

## Where the code falls short of the obvious claim

In each case the code is modelled as it is and the exact condition is proved; lemmas at one concrete
input show it.

- FULL correction can send time backward: exactly when the input goes back by at most 250 ms and the
  earlier output was positive (`FullBackwardIff`, `FullCanGoBackward`).
- ZERO correction takes a first timestamp of -1 for "not started" (`ZeroStartsAtZeroIff`,
  `ZeroCanRestart`). A publisher's own times are never negative; an aggregate can give -1 to a sub-message
  that is not its leading one, so for a consumer that was there before it the leading one has to be neither
  audio nor video. Metadata that then gives the base can send the next audio below zero
  (`ZeroMonotoneIff`, `ZeroCanGoBackward`).
- In an aggregate a delta of exactly -1 reads as "not yet known", and the spacing of the sub-messages is
  lost with it (`SpacingKeptIff`, `SpacingCanBeLost`).
- A late joiner misses an audio message when that message was the first audio, is AAC and ends before its
  packet type, and pictures are cached already; the gap stays open until the cache starts anew, and not
  longer (`StepGapIff`, `LateJoinerSeesNoGapIff`, `LateJoinerCanMissAudio`).
- What a late joiner is given ahead of the pictures is part of the stream in order only when the cached
  audio is a codec header, or happens to stand right there (`OpeningContiguousIff`, `DumpCanBeStray`); in a
  stream that is not AAC the cached audio is the first audio message itself.
- A header that comes in the middle of a group of pictures replaces the cached header and leaves the cached
  pictures, so a late joiner is given pictures under a header they were not sent under. It is shown what was
  sent exactly when all that is cached was sent under the headers that are cached by now; a header that
  comes and goes between two frames does no harm (`JoinerSeesSentHeadersIff`, `OldPictureNewHeader`).
- A video header that the codec parser refuses goes out to nobody but is cached, and everybody who joins
  later is given it (`DumpedWentOutLast`, `RefusedHeaderIsDumped`).
- A consumer is listed before it is filled. A frame that is dispatched between the two is given to it twice,
  or out of order, unless nothing is cached by then (`TwoStepJoinIff`).
- With a negative queue length an enqueue that overflows never returns, and the first message of a new
  consumer always does (`LoopEndsIff`, `FillingEndsIff`, `MinusOneSecondNeverEnds`).
- The publish lock is tested and cleared in two calls, and connections are threads: two owners are in
  reach exactly when one connection passes the test before another has cleared the flag (`TwoOwnersIff`,
  `TwoTestsTwoOwners`).
- A directive is numbered by the line of the character behind the first one of its name, so a name of one
  character at the end of its line is numbered a line late (`LexWritten`, `OneLetterIsALineLate`).
- The migration loses the list of an old-style `refer` when it runs into it while opening the section
  (`OldReferSurvivesIff`, `AllListCanBeLost`); `ReferAfter` says what a vhost ends up with in every case.
- The migration leaves the refer check off when what becomes the section says so, although a legacy
  directive moved in (`ReferCheckIsOnIff`, `CheckCanStayOff`).
- The migration takes out one `hstrs` per pass (`TransformIdempotentIff`, `SecondPassChangesMore`).
- A reload misses a change of the recording section exactly when something it passes over faces something
  else (`ReloadIsDiffIff`, `DvrChangeCanBeMissed`).
- Disabling the recording of a stream does nothing for it when the list says `all`, alone or beside the
  stream, or names the stream twice (`DisableWorksIff`, `DisablingDuplicateFails`).

## Model

| member | source | states |
|---|---|---|
| Messages.VideoByBytes | src/kernel/srs_kernel_codec.cpp:100-167 | which first bytes make a keyframe, an H.264 frame, a video header and a frame the source accepts |
| Messages.AudioByBytes | src/kernel/srs_kernel_codec.cpp:169-197 | which first bytes make an audio header, and which message the parser refuses first |
| FastVectors.FastVector.PushBack | simple-server/srs_app_source.cpp:217-235 | appends one element, whether or not the array has to be doubled first |
| FastVectors.FastVector.Erase | simple-server/srs_app_source.cpp:204-215 | shifting in place removes exactly the positions from begin up to end |
| FastVectors.FastVector.Free | simple-server/srs_app_source.cpp:237-245 | every element held is released once, and the vector is empty |
| Jitter.RtmpJitter.Correct | simple-server/srs_app_source.cpp:88-152 | the corrected message and the new state for each of the three algorithms |
| Jitter.RunToFirstAv | simple-server/srs_app_source.cpp:114-151 | metadata does not move the corrector; the first audio/video message moves it by one accepted step |
| Jitter.FullOutputsNonNegative | simple-server/srs_app_source.cpp:112-151 | from any state and input, outputs are non-negative, metadata is stamped 0, and nothing but the time changes |
| Jitter.FullSuccessive | simple-server/srs_app_source.cpp:124-151 | over a whole run, each output is the previous one plus the accepted step, clamped at zero |
| Jitter.FullStepBounded | simple-server/srs_app_source.cpp:124-151 | successive audio/video outputs differ by at most 250 |
| Jitter.FullBackwardIff | simple-server/srs_app_source.cpp:134-150 | when exactly an output goes backward |
| Jitter.FullCanGoBackward | simple-server/srs_app_source.cpp:124-151 | audio at 1000, 1010 and 1000 again comes out at 9, 19 and 9 |
| Jitter.FullKeepsSmallSteps | simple-server/srs_app_source.cpp:124-151 | input steps from 0 to 250 come out unchanged |
| Jitter.FullMonotone | simple-server/srs_app_source.cpp:112-151 | nondecreasing input gives nondecreasing output, whatever jumps it contains |
| Jitter.FullOffsetConstant | simple-server/srs_app_source.cpp:112-151 | two correctors in different states fed the same nondecreasing messages stay a constant distance apart |
| Jitter.ZeroStartsAtZeroIff | simple-server/srs_app_source.cpp:92-105 | ZERO subtracts the first timestamp throughout, exactly unless that one is -1 and a later one is not |
| Jitter.ZeroCanRestart | simple-server/srs_app_source.cpp:98-105 | a first audio at -1 and then 40 and 80: the base is taken again |
| Jitter.ZeroMonotoneIff | simple-server/srs_app_source.cpp:98-105 | when exactly ZERO keeps nondecreasing input nondecreasing |
| Jitter.ZeroCanGoBackward | simple-server/srs_app_source.cpp:98-105 | audio at -1, metadata at 100, audio at 5 comes out at 0 and -95 |
| MessageQueues.MessageQueue.Enqueue | simple-server/srs_app_source.cpp:274-298 | the new queue, what was freed, and that the overflow loop ends whenever it can |
| MessageQueues.LoopEndsIff | simple-server/srs_app_source.cpp:274-298 | the overflow loop ends exactly when the size is not negative or the message does not overflow |
| MessageQueues.RoundsTooLongIff | simple-server/srs_app_source.cpp:354-399 | after one round and after any number of them, the loop goes on exactly for a negative size |
| MessageQueues.MinusOneSecondNeverEnds | simple-server/srs_app_source.cpp:269-298 | a configured length of -1 and any message |
| MessageQueues.MessageQueue.DumpPackets | simple-server/srs_app_source.cpp:300-332 | the front of the queue moves to the caller's array and nothing else in it changes |
| MessageQueues.MessageQueue.Shrink | simple-server/srs_app_source.cpp:354-399 | what is kept, in which order and at which time, and the bag of messages freed |
| MessageQueues.MessageQueue.FreeAllButHeaders | simple-server/srs_app_source.cpp:356-378 | the loop finds the last header of each kind and frees everything else once |
| MessageQueues.MessageQueue.Clear | simple-server/srs_app_source.cpp:401-417 | everything queued is freed and both times are unset |
| MessageQueues.ShrinkSplits | simple-server/srs_app_source.cpp:354-399 | shrinking keeps or frees each queued message, never both and never neither |
| MessageQueues.OwnershipConserved | simple-server/srs_app_source.cpp:274-417 | in every run each enqueued message is exactly one of delivered, queued, freed once |
| MessageQueues.LosslessIsFifo | simple-server/srs_app_source.cpp:274-332 | in a run without overflow, delivered and then queued is the enqueued sequence |
| MessageQueues.EnqueueKeepsHeaders | simple-server/srs_app_source.cpp:274-298 | enqueueing, with or without overflow, keeps the output under the codec headers it was enqueued under |
| MessageQueues.HeadersSurvive | simple-server/srs_app_source.cpp:274-399 | for one queue: however often it shrank, the header in force at the end is the one enqueued last, and no frame comes out under a header it was not sent under |
| MessageQueues.LastHeaderNotLost | simple-server/srs_app_source.cpp:274-399 | the header enqueued last was handed out or is still queued |
| MessageQueues.OverflowsIff | simple-server/srs_app_source.cpp:274-298 | a queue overflows exactly when a message is later than the first audio or video it was given by more than the length |
| MessageQueues.OverflowsAfterClearIff | simple-server/srs_app_source.cpp:401-417 | a queue that was cleared counts anew, and metadata does not count |
| MessageQueues.OverflowsAfterDumpIff | simple-server/srs_app_source.cpp:300-332 | after a dump the time counts from the last message handed out |
| MessageQueues.OverflowsAfterOverflowIff | simple-server/srs_app_source.cpp:354-399 | after an overflow it counts from where that happened, and what is left is at most one codec header of each kind at that time |
| Consumers.Consumer.Enqueue | simple-server/srs_app_source.cpp:470-489 | corrects a copy unless atc is on, and queues it |
| Consumers.Consumer.DumpPackets | simple-server/srs_app_source.cpp:521-553 | nothing while paused; otherwise the front of the queue, at most what was asked and fits |
| Consumers.AskedGets | simple-server/srs_app_source.cpp:521-553 | nothing while paused; otherwise the front of the queue, as much as there is, or the array holds, or was asked for, where 0 asks for everything |
| Consumers.EnqueueKeepsOrder | simple-server/srs_app_source.cpp:274-298 | a queue keeps the order of what enters it, also when it shrinks and re-stamps the headers |
| Consumers.DeliveryMonotone | simple-server/srs_app_source.cpp:88-553 | nondecreasing input reaches the client nondecreasing, with and without atc and for all three corrections, through every interleaving of offers, dumps, pauses and resizings; for ZERO under a condition on the input that `Jitter.ZeroMonotoneIff` shows to be exact for the corrector |
| GopCaches.GopCache.Cache | simple-server/srs_app_source.cpp:636-693 | the new cache and counters, in every branch |
| GopCaches.CachedConsistent | simple-server/srs_app_source.cpp:618-706 | each call keeps the counters equal to the videos and the trailing audios of the content, and the content playable |
| GopCaches.ConsistentShape | simple-server/srs_app_source.cpp:636-693 | the content starts with a video, has a keyframe nowhere else, and at most 115 trailing audios |
| GopCaches.CacheIsLongestPlayableSuffix | simple-server/srs_app_source.cpp:618-706 | after any history the cache holds the longest suffix of the cacheable messages that a player can start from |
| GopCaches.AudiosBehindVideo | simple-server/srs_app_source.cpp:636-693 | in a new source up to 115 audios behind a video are cached with it, and one more empties the cache |
| GopCaches.OffStaysEmpty | simple-server/srs_app_source.cpp:618-706 | switched off the cache is emptied and stays empty, switched on it keeps what it has |
| MixQueues.MixQueue.Push | simple-server/srs_app_source.cpp:798-807 | inserts behind equal timestamps and counts the message |
| MixQueues.MixQueue.Pop | simple-server/srs_app_source.cpp:809-844 | hands out the earliest message when the counters allow it, and never reads an empty queue |
| MixQueues.BoundedReordering | simple-server/srs_app_source.cpp:785-844 | between two calls at most nine messages wait |
| MixQueues.HandsOutIff | simple-server/srs_app_source.cpp:809-844 | a message is handed out exactly when audio and video are queued, or ten messages |
| MixQueues.RunConserves | simple-server/srs_app_source.cpp:798-844 | nothing is lost or duplicated in any run, whatever the timestamps |
| MixQueues.KindOrderPreserved | simple-server/srs_app_source.cpp:1449-1467 | messages of a kind that come in order leave in order, none missing |
| MixQueues.MergeCorrect | simple-server/srs_app_source.cpp:1576-1593 | two ordered streams come out as one sorted sequence with the same messages, as long as every pop found both kinds |
| Aggregates.Buffer.Initialize | src/kernel/srs_kernel_buffer.cpp:63-84 | an empty payload is refused and leaves the buffer as it was |
| Aggregates.Buffer.Read3Bytes | src/kernel/srs_kernel_buffer.cpp:139-150 | three bytes, most significant first, and the position behind them |
| Aggregates.Buffer.ReadSub | simple-server/srs_app_source.cpp:1677-1755 | reads one sub-message exactly when a complete one is there, and rebases its time |
| Aggregates.SplitUnique | simple-server/srs_app_source.cpp:1664-1770 | any way to read bytes as complete sub-messages and a rest that starts with none is what the splitter finds |
| Aggregates.SplitExists | simple-server/srs_app_source.cpp:1664-1770 | on any bytes such a reading exists: the splitter takes exactly the well-formed prefix |
| Aggregates.DecodeEncode | simple-server/srs_app_source.cpp:1676-1767 | splitting the encoding of any sub-messages gives them back and leaves nothing |
| Aggregates.TagByBytes | simple-server/srs_app_source.cpp:1676-1755 | which byte of a sub-message says what |
| Aggregates.RebasedKnown | simple-server/srs_app_source.cpp:1714-1719 | once the delta is known every time is moved by it |
| Aggregates.SpacingKeptIff | simple-server/srs_app_source.cpp:1714-1719 | when exactly the dispatched times are the header time plus the distance from the first |
| Aggregates.SpacingCanBeLost | simple-server/srs_app_source.cpp:1714-1719 | a header at 99 and audio at 100 and 140: both are stamped 99 |
| Sources.MetaCache.Dumps | simple-server/srs_app_source.cpp:890-917 | a consumer gets metadata, audio header, video header, in this order |
| Sources.MetaCache.Restamp | simple-server/srs_app_source.cpp:1524-1532 | which cached messages are moved to the time of an audio or video |
| Sources.ConsumerList.CopyToAll | simple-server/srs_app_source.cpp:1486-1496 | every consumer is fed the message, and feeding one leaves the others alone |
| Sources.ConsumerList.Remove | simple-server/srs_app_source.cpp:1896-1902 | erases a consumer when it is listed and keeps the others in order |
| Sources.Source.OnAudioImp | simple-server/srs_app_source.cpp:1469-1535 | caches, copies and return code for each branch, including an unchanged header and a refused one |
| Sources.Source.OnVideoImp | simple-server/srs_app_source.cpp:1596-1662 | the same for video, where the header is parsed before anything is copied |
| Sources.Source.OnAudio | simple-server/srs_app_source.cpp:1422-1467 | direct, or through the reorder queue |
| Sources.Source.OnVideo | simple-server/srs_app_source.cpp:1537-1594 | the same, after dropping frames in no known codec |
| Sources.Source.OnMetaData | simple-server/srs_app_source.cpp:1374-1420 | metadata replaces the cached one and goes to everybody unless it is dropped for reduction |
| Sources.Source.OnAggregate | simple-server/srs_app_source.cpp:1664-1770 | terminates on any payload and does what its sub-messages do one by one |
| Sources.Source.ProcessSubs | simple-server/srs_app_source.cpp:1676-1769 | the splitting loop processes the complete sub-messages at the front and reports what is left over |
| Sources.Source.DumpGop | simple-server/srs_app_source.cpp:708-723 | the whole cache goes to the consumer in order |
| Sources.Source.Fill | simple-server/srs_app_source.cpp:1854-1875 | headers, then the group of pictures, with the atc times |
| Sources.Source.CreateConsumer | simple-server/srs_app_source.cpp:1844-1894 | a new consumer is filled and listed last, and the others do not notice |
| SourceSpec.FillingEndsIff | simple-server/srs_app_source.cpp:1844-1894 | filling a new consumer returns exactly when its length is not negative or there is nothing to give it |
| Sources.Source.OnConsumerDestroy | simple-server/srs_app_source.cpp:1896-1909 | the consumer leaves the list and the idleness clock starts when nobody is left |
| Sources.Source.OnPublish | simple-server/srs_app_source.cpp:1772-1809 | the flag goes down and the reorder queue is emptied |
| Sources.Source.OnUnpublish | simple-server/srs_app_source.cpp:1811-1842 | the flag goes up, the picture cache is emptied, and the idleness clock starts without consumers |
| SourceSpec.FirstAudioRefusedIff | src/kernel/srs_kernel_codec.cpp:532-578 | a codec parser that has seen nothing refuses an audio message that is no header exactly when it is AAC and one byte long |
| SourceRuns.SubsAreRun | simple-server/srs_app_source.cpp:1676-1769 | dispatching sub-messages is a run of their events, cut off after the first that fails |
| SourceRuns.AggregateOfEncoded | simple-server/srs_app_source.cpp:1664-1770 | an encoded list of sub-messages does what its audio and video members would do alone at the rebased times |
| SourceRuns.AggregateOnAnyBytes | simple-server/srs_app_source.cpp:1664-1770 | on any payload, and when exactly the call succeeds |
| AggregateOffers.AggregateOffered | simple-server/srs_app_source.cpp:1664-1770 | the audio and video of an aggregate are offered in order, as audio exactly for type 8, with their own bytes, at the time of the aggregate plus the distance from the first |
| AggregateOffers.AggregateCode | simple-server/srs_app_source.cpp:1664-1770 | the code of an aggregate: 3038 when it is empty, the first failure, or 2024 when something is left over |
| SourceRuns.ImpGapIff | simple-server/srs_app_source.cpp:1469-1662 | one processed message keeps the cache a suffix of the frames offered, exactly when no frame was lost |
| SourceRuns.StepGapIff | simple-server/srs_app_source.cpp:1374-1914 | the same for every event of a source |
| LateJoins.StepCache | simple-server/srs_app_source.cpp:636-706 | an event that loses no frame leaves in the cache what was there and the frame it offered, or that frame alone, or nothing; and exactly which events start it anew |
| LateJoins.RunGapIff | simple-server/srs_app_source.cpp:1374-1914 | after any run the cache is a contiguous end of the frames offered exactly when no frame was lost since the cache last started anew |
| LateJoins.LateJoinerSeesNoGapIff | simple-server/srs_app_source.cpp:1844-1894 | metadata, audio header, video header, and then frames starting with a video that with the live ones are a contiguous end of all frames offered, exactly when no gap is open at the join |
| LateJoins.TwoStepJoinIff | simple-server/srs_app_source.cpp:1848-1875 | with anything dispatched between listing and filling: the frames are in order exactly when nothing is cached by then, or no frame came between and no gap is open |
| LateJoins.OpeningContiguousIff | simple-server/srs_app_source.cpp:1844-1894 | when exactly everything a late joiner is given, the dumped headers included, is contiguous, times aside |
| LateJoins.DumpCanBeStray | simple-server/srs_app_source.cpp:1503-1510 | MP3 twice and then a keyframe: a late joiner is given the first audio, not the second, and the picture |
| LateJoins.LateJoinerCanMissAudio | simple-server/srs_app_source.cpp:1503-1521 | a keyframe and then the one byte of an AAC message: it is offered and not cached |
| LateJoins.FrameMovesHeaders | simple-server/srs_app_source.cpp:1523-1532 | with atc an audio moves the cached audio header and the metadata to its time, a video the video header and the metadata; otherwise nothing cached moves |
| LateJoins.HeaderIsCached | simple-server/srs_app_source.cpp:1501-1515 | every header replaces the cached one of its kind, a refused one too, and leaves the pictures |
| LateJoins.MediaCode | simple-server/srs_app_source.cpp:1469-1662 | the code of a call is what the parser says of a header, or 3001 for a first audio it refuses |
| LateJoins.OtherVideo | simple-server/srs_app_source.cpp:1537-1662 | a video that is not H.264 is offered and not cached, or dropped at once when its head is unknown |
| LateJoins.MixedFrames | simple-server/srs_app_source.cpp:1449-1594 | with the reorder queue on, consumers are offered the frames it lets go, in its order |
| LateJoins.OpeningIsInTime | simple-server/srs_app_source.cpp:1854-1875 | with atc everything dumped carries the time of the first cached picture, so the opening is in order when the pictures are |
| LateJoins.OpeningAsCached | simple-server/srs_app_source.cpp:890-917 | otherwise metadata, audio header and video header come as they are cached, and then the pictures |
| JoinHeaders.JoinerSeesSentHeadersIff | simple-server/srs_app_source.cpp:1844-1894 | when exactly a late joiner is shown an end of what was sent, each frame under the header of its kind that it was sent under |
| JoinHeaders.CacheShownIff | simple-server/srs_app_source.cpp:1854-1875 | the same for the cached frames alone, whatever headers the client was given before them |
| JoinHeaders.DumpedWentOutLast | simple-server/srs_app_source.cpp:890-917 | the audio header dumped is always the one that went out last, and the video header unless one was refused |
| JoinHeaders.AudioHeaderHeldBackIff | simple-server/srs_app_source.cpp:1469-1500 | after any run an audio header is held back exactly when headers are reduced and the last one that went out has the same bytes |
| JoinHeaders.VideoHeaderHeldBackIff | simple-server/srs_app_source.cpp:1596-1640 | the same for video, where a refused header is held back too |
| JoinHeaders.MetaDataHeldBackIff | simple-server/srs_app_source.cpp:1374-1420 | metadata is cached, sets the atc of the source, and is held back exactly when headers are reduced |
| JoinHeaders.OldPictureNewHeader | simple-server/srs_app_source.cpp:1616-1645 | header, keyframe, other header: a late joiner is given the second header and then the picture |
| JoinHeaders.RefusedHeaderIsDumped | simple-server/srs_app_source.cpp:1616-1620 | a refused video header goes to no consumer present and to every later one |
| PublishLock.ExactlyOneOwner | simple-server/srs_app_rtmp_conn.cpp:886-1070 | in every interleaving the flag is down exactly when one connection holds the stream, and no second one does |
| PublishLock.BusyNeverReleases | simple-server/srs_app_rtmp_conn.cpp:886-929 | in every run, a connection that was refused leaves the flag and every other connection alone |
| PublishLock.OwnersRelease | simple-server/srs_app_rtmp_conn.cpp:905-924 | in every run, an owner that failed or finished gives the flag back when it leaves |
| PublishLock.StreamComesBack | simple-server/srs_app_rtmp_conn.cpp:886-929 | in every run, a stream that is taken has an owner that gives it back, with whatever code its publishing ends |
| PublishLock.PublishingIff | simple-server/srs_app_rtmp_conn.cpp:886-1070 | in every run a connection publishes exactly from when it took the free stream and was accepted until its publishing ends |
| PublishRace.StepSafeIff | simple-server/srs_app_rtmp_conn.cpp:1032-1059 | with the test and the clearing in two steps, the lock stops being safe exactly when a connection passes the test while another is between the two |
| PublishRace.TwoOwnersIff | simple-server/srs_app_rtmp_conn.cpp:1032-1059 | somewhere along a run two owners are in reach exactly when that happened along it |
| PublishRace.RaceFreeIsSafe | simple-server/srs_app_rtmp_conn.cpp:1032-1059 | otherwise the flag is down exactly when there is an owner, and one only |
| PublishRace.TwoTestsTwoOwners | simple-server/srs_app_rtmp_conn.cpp:1032-1059 | two tests and then two clearings: two owners |
| PublishRace.RefusedComesAgain | simple-server/srs_app_rtmp_conn.cpp:886-1059 | who was refused can come again and has the stream then if it is free |
| PublishLock.DieAtIsIdleStart | simple-server/srs_app_source.cpp:1811-1909 | in every state of every run in which only listed consumers leave, the clock of an idle source is unset or shows when idleness began |
| PublishLock.IdleSinceIsReal | simple-server/srs_app_source.cpp:1811-1909 | what "began" means: every state since then was idle |
| PublishLock.ExpiredMeansIdle | simple-server/srs_app_source.cpp:1190-1213 | expiry implies more than 30000 ms of unbroken idleness |
| PublishLock.ExpiredIff | simple-server/srs_app_source.cpp:1190-1213 | in every run in which only listed consumers leave, a source expires exactly when it has been in use and for more than 30000 ms since had neither publisher nor consumer |
| RecvHandoff.HandoffSafe | simple-server/srs_app_recv_thread.cpp:126-167 | in every interleaving at most one message waits, and everything received was pumped in order or is that one |
| RecvHandoff.ErrorAfterAllPumped | simple-server/srs_app_rtmp_conn.cpp:754-772 | when the playing loop leaves on an error, every message received before was pumped |
| RecvHandoff.ErrorIsFinal | simple-server/srs_app_recv_thread.cpp:216-258 | a visible error stays, and nothing is received after it |
| RecvHandoff.NextGetsThrough | simple-server/srs_app_recv_thread.cpp:126-167 | while nobody has raised the stop flag the next message is received and pumped |
| RecvHandoff.StopEndsReceiving | simple-server/srs_app_recv_thread.cpp:126-167 | once it is up at most the message that is being received still comes in |
| RecvHandoff.LeavesWithReasonIff | simple-server/srs_app_rtmp_conn.cpp:754-772 | the playing loop has left a run exactly when a message could not be processed or the error was read, and with that code |
| ConfDirectives.EqualsIffSamePlain | simple-server/srs_app_config.cpp:173-226 | the comparison holds exactly of trees that differ at most in line numbers |
| ConfDirectives.SamePlainIffSameWords | simple-server/srs_app_config.cpp:173-226 | being the same up to line numbers is having the same words at every path of child positions |
| ConfLexer.ConfigBuffer.ReadToken | simple-server/srs_app_config.cpp:993-1131 | on any text, the token, the rest and the line number |
| ConfLexer.ConfigBuffer.OnChar | simple-server/srs_app_config.cpp:1019-1126 | what one character does to the tokenizer's flags, words and line numbers |
| ConfParser.ParseConf | simple-server/srs_app_config.cpp:929-990 | terminates on any text; the tree, or the error code, and what is left |
| ConfParser.ParserIffBalanced | simple-server/srs_app_config.cpp:929-990 | a text is accepted exactly when every block is closed, no brace is left over and no directive is empty; then all of it was read, and the tree says what the tokens say |
| ConfParser.OutlineDetermines | simple-server/srs_app_config.cpp:929-990 | what the tokens say determines the tree |
| ConfWritten.LexWritten | simple-server/srs_app_config.cpp:993-1131 | the words of a directive, bare or in either kind of quotes, with any white space and comments between them |
| ConfWritten.ParseWritten | simple-server/srs_app_config.cpp:929-1131 | every text laid out in this way is read as the tree it was written as, with its lines |
| ConfWritten.ParseFile | simple-server/srs_app_config.cpp:929-1131 | so is a whole file, whose last comment may lack its line feed |
| ConfWritten.OneLetterIsALineLate | simple-server/srs_app_config.cpp:1081-1085 | a name of one character, a line feed and a semicolon: a directive on line 2 |
| ConfWritten.CommentIsNothing | simple-server/srs_app_config.cpp:1021-1069 | a comment up to its line feed only counts a line, whatever follows |
| ConfWritten.CutOffIsRefused | simple-server/srs_app_config.cpp:1007-1066 | a directive without words, and words cut off by a closing brace or the end of the text, are refused with code 1023 |
| ConfWritten.GluedIsRefused | simple-server/srs_app_config.cpp:1030-1045 | so is a quoted word with anything but white space or an end behind its quote |
| ConfWritten.UnbalancedIsRefused | simple-server/srs_app_config.cpp:951-968 | the codes for a brace that closes nothing and for a block the file ends in |
| ConfPrinter.Persistence | simple-server/srs_app_config.cpp:806-896 | the text written for a tree at a level |
| ConfPrinter.PrintedLooksLike | simple-server/srs_app_config.cpp:806-896 | a block of one level as it is written, character by character |
| ConfRoundTrip.LexWords | simple-server/srs_app_config.cpp:993-1131 | a printed line of plain words is one token with these words |
| ConfRoundTrip.ParsePrinted | simple-server/srs_app_config.cpp:806-990 | parsing printed directives at any depth and in front of any rest |
| ConfRoundTrip.NumberIsOutputLine | simple-server/srs_app_config.cpp:806-896 | the line number of a parsed directive is its line in the text |
| ConfRoundTrip.RoundTrip | simple-server/srs_app_config.cpp:806-1131 | parsing what was printed gives back every tree of plain words, with these line numbers |
| ConfTransform.EraseCount | simple-server/srs_app_config.cpp:348-526 | each round that erases leaves fewer legacy directives: the iteration ends although it appends to its own list |
| ConfTransform.MovedLookup | simple-server/srs_app_config.cpp:740-765 | moving a setting changes that setting of that section and no other |
| ConfTransform.MoveKeepsMeaning | simple-server/srs_app_config.cpp:381-520 | erasing a legacy directive and moving what it says keeps the meaning of every setting |
| ConfTransform.InPlaceKeepsMeaning | simple-server/srs_app_config.cpp:359-504 | so does rewriting in place |
| ConfMigrations.MovedShape | simple-server/srs_app_config.cpp:740-765 | a move edits the first section of its name or appends one, and touches nothing else |
| ConfMigrations.MigrateSettles | simple-server/srs_app_config.cpp:348-526 | no legacy form is left |
| ConfMigrations.MigrateKeepsOthers | simple-server/srs_app_config.cpp:348-526 | everything else keeps its content, rewritten in place at most, and its order |
| ConfMigrations.InPlaceKeepsContent | simple-server/srs_app_config.cpp:359-504 | a rewritten directive keeps its line, its arguments and its settings except hstrs; an old-style forward keeps its targets and is on |
| ConfMigrations.MigrateKeepsMeaning | simple-server/srs_app_config.cpp:348-526 | the SRS3 lookup of a play, publish or cluster setting finds what the last legacy directive about it gave, or else what was nested |
| ConfMigrations.MigrateIdempotentIff | simple-server/srs_app_config.cpp:366-373 | a second pass changes nothing exactly when no http_remux has a second hstrs |
| ConfMigrations.SecondPassChangesMore | simple-server/srs_app_config.cpp:369-374 | an http_remux with two hstrs loses one with each pass |
| ConfRefers.MigratedRefer | simple-server/srs_app_config.cpp:375-405 | what every refer setting is after the migration, the switch included, whatever the vhost was |
| ConfRefers.MigrateKeepsRefer | simple-server/srs_app_config.cpp:375-405 | where no old-style refer is swallowed, every refer setting keeps its meaning, and a legacy refer directive switches on what has no switch |
| ConfRefers.OldReferSurvivesIff | simple-server/srs_app_config.cpp:381-399 | when exactly the list of the last old-style refer survives |
| ConfRefers.AllListCanBeLost | simple-server/srs_app_config.cpp:381-399 | refer_play and then an old-style refer: the list is gone |
| ConfRefers.PlayAndPublishSurvive | simple-server/srs_app_config.cpp:381-399 | refer_play and refer_publish are never lost |
| ConfRefers.ReferCheckIsOnIff | simple-server/srs_app_config.cpp:4530-4551 | when exactly a vhost with a legacy refer directive has its refer check on afterwards |
| ConfRefers.CheckCanStayOff | simple-server/srs_app_config.cpp:381-399 | a section that is switched off and refer_play: the list moves in and the check stays off |
| ConfTransformVhost.TransformOne | simple-server/srs_app_config.cpp:349-525 | each branch of the loop body erases and moves, or rewrites and goes on |
| ConfTransformVhost.TransformChildren | simple-server/srs_app_config.cpp:347-526 | the loop that edits the list it iterates over |
| ConfTransformVhost.TransformVhost | simple-server/srs_app_config.cpp:327-530 | every top-level directive is renamed, migrated or left alone |
| ConfTransformVhost.TransformLeavesNoLegacy | simple-server/srs_app_config.cpp:327-530 | no legacy form is left anywhere |
| ConfTransformVhost.TransformKeepsVhosts | simple-server/srs_app_config.cpp:327-530 | per vhost: settings keep their meaning, the rest its content and order |
| ConfTransformVhost.TransformIdempotentIff | simple-server/srs_app_config.cpp:327-530 | transforming twice is transforming once, exactly when no http_remux of a vhost has a second hstrs |
| ConfTransformVhost.GettersAfterMigration | simple-server/srs_app_config.cpp:4378-4420 | the two SRS3 getters read on the migrated vhost what it said in either style |
| ConfSettings.SettingsMove | simple-server/srs_app_config.cpp:381-520 | where each of the legacy names of play, publish and cluster is found afterwards, name by name: the last child of that name, or else what was nested |
| ConfSettings.ReferListsMove | simple-server/srs_app_config.cpp:381-405 | the last refer_play and the last refer_publish are found as the play and publish lists of refer |
| ConfSettings.NothingElseMoves | simple-server/srs_app_config.cpp:348-526 | every other setting of the three sections is what it was |
| ConfSettings.OnlyThreeAreRewritten | simple-server/srs_app_config.cpp:359-504 | what stays in place keeps its name but for http, and only http, an http_remux with hstrs and an old-style forward change |
| ConfSettings.TopLevel | simple-server/srs_app_config.cpp:327-345 | on the top level only the name of http_stream and the insides of vhosts change |
| ConfReloadRun.Config.Notify | simple-server/srs_app_config.cpp:3330-3385 | subscribers are told in order up to the first that refuses |
| ConfReloadRun.TranscodeHasChanged | simple-server/srs_app_config.cpp:1760-1803 | the three scans find a removed, added or changed transcoder |
| ConfReloadRun.Config.ReloadIngest | simple-server/srs_app_config.cpp:1820-1913 | removals, additions and updates are announced in this order, until one is refused |
| ConfReloadRun.Config.ReloadOne | simple-server/srs_app_config.cpp:1262-1484 | what one vhost announces, and that a change of role stops the reload with its own code |
| ConfReloadRun.Config.ReloadVhost | simple-server/srs_app_config.cpp:1225-1488 | the notices of all vhosts in order, and the return code |
| ConfReloadDiff.TranscodeDiffersIff | simple-server/srs_app_config.cpp:1736-1818 | transcoders are announced exactly when they are not the same up to line numbers |
| ConfReloadDiff.PartsLearned | simple-server/srs_app_config.cpp:1300-1470 | following the notices re-reads exactly the changed parts |
| ConfReloadDiff.IngestsLearned | simple-server/srs_app_config.cpp:1820-1913 | following the notices turns the old running ingesters into the new ones, contents included |
| ConfReloadDiff.MaskSameIff | simple-server/srs_app_config.cpp:228-254 | the comparison that passes over children is one of masked trees exactly when everything passed over faces its like |
| ConfReloadDiff.ReloadIsDiffIff | simple-server/srs_app_config.cpp:1225-1488 | following the notices of a reload turns a copy of the old enabled vhosts into the new ones, for unique names and ids, exactly when no change of a recording section is missed |
| ConfReloadDiff.DvrChangeCanBeMissed | simple-server/srs_app_config.cpp:228-254 | a recording section whose plan gives way to a filter: the comparison sees no change, and the other way round it does |
| ConfReloadHttp.HttpIsDiff | simple-server/srs_app_config.cpp:1225-1488 | although its notice names no vhost, every http_static section held is the new one |
| ConfReloadSharp.NoIdleNotice | simple-server/srs_app_config.cpp:1225-1488 | no notice that names its vhost is sent in vain: each changes that copy when it arrives |
| ConfReloadRun.TellAllHeard | simple-server/srs_app_config.cpp:3330-3385 | every subscriber hears the notices in order from the first on, and all of them on success |
| ConfReloadRun.EverySubscriberIsUpToDate | simple-server/srs_app_config.cpp:1225-1488 | after a successful reload every subscriber that follows what it heard holds the new configuration, http_static included, exactly when no change of a recording section was missed |
| ConfReloadTold.ReloadCodeIff | simple-server/srs_app_config.cpp:1225-1298 | the code of a reload is the first refusal of a subscriber, or 2023 exactly when a vhost that is on in both configurations or in neither is an edge in one of them only, or 0 |
| ConfReloadTold.UnchangedVhostReloads | simple-server/srs_app_config.cpp:1288-1295 | a vhost that says nothing, twice: the reload succeeds and says nothing |
| ConfReloadTold.NewEdgeIsRefused | simple-server/srs_app_config.cpp:1288-1295 | the same vhost with a cluster in remote mode from now on: 2023 |
| ConfReloadTold.EverySubscriberIsToldIff | simple-server/srs_app_config.cpp:1225-1488 | after a reload that succeeds, a subscriber has been sent a notice exactly when what it says is true of the two configurations, part by part and name by name |
| ConfReloadTold.DetailsInPlace | simple-server/srs_app_config.cpp:1300-1480 | what is announced about a vhost that stays on is in this order: fourteen parts, transcoders, ingesters that stop, that start, that changed |
| DvrFilters.DvrApply.RawEnableDvr | simple-server/srs_app_config.cpp:3141-3165 | the new list, also when a subscriber refuses |
| DvrFilters.DvrApply.RawDisableDvr | simple-server/srs_app_config.cpp:3167-3193 | the new list, which is never empty |
| DvrFilters.DvrApply.Accepts | simple-server/srs_app_config.cpp:301-320 | whether a stream of an app is to be recorded |
| DvrFilters.FilterIsLastEnabled | simple-server/srs_app_config.cpp:3141-3193 | from none, the filter accepts exactly the streams whose last operation was enable; the list is never empty and has no duplicates |
| DvrFilters.RecordsLastEnabled | simple-server/srs_app_config.cpp:301-320 | after any run of operations a stream of an app is recorded exactly when its last operation was enable |
| DvrFilters.EnabledIff | simple-server/srs_app_config.cpp:3141-3165 | on any list: which streams are accepted after one is enabled; a list that accepted everything is replaced by it |
| DvrFilters.DisableWorksIff | simple-server/srs_app_config.cpp:3167-3193 | on any list, when exactly disabling a stream takes effect |
| DvrFilters.DisablingDuplicateFails | simple-server/srs_app_config.cpp:3167-3193 | a list that names a stream twice |

## Left out

- Configuration trees and messages are values: an edit in place gives a new tree, so aliasing between directives is not modelled. A message carries the number of its payload block, which its copies share.
- Timestamps are unbounded integers, except for the 24-bit and 31-bit fields of an aggregate.
- What the codec parser answers to a sequence header, whether headers are to be reduced and which block a new message gets are parameters of each event (`Env`); what a subscriber answers to a reload is a function of everything sent before; what the source's handler answers to a publish is a parameter.
- The codes a publish handler and a publishing loop return are any but the one for "busy", which only the refusal returns (`simple-server/srs_app_rtmp_conn.cpp:1039`).
- Failures of the file that is written or read, sockets, handshake, chunking and AMF0 are left out: they are I/O, or code that is not part of this model.
- The branch for a negative data size in an aggregate is left out: three unsigned bytes are never negative.
- Logging, source ids, statistics and the detection of non-monotonic streams for the log are left out.
- Edge and forward hubs, whose code is commented out, the pool of sources and the reload handlers of a source are left out.
- Waiting and waking of consumers are left out: the switch for it is off in `include/core/srs_core_performance.hpp:124`.
- PublishLock.ExactlyOneOwner: taking the lock is assumed to be one step; `PublishRace` drops that and says when it matters.
- Sources.Source.CreateConsumer: a call of the source is one step; `LateJoins.TwoStepJoinIff` drops that and says what a dispatch between listing and filling does. A negative length is admitted only when there is nothing to fill with, because otherwise the call does not return.
- LateJoins.TwoStepJoinIff: supposes that no two frames of the run have the same block, bytes and time; the dumped headers are left aside, and the list and the filling are one step each.
- Sources.Source.OnAudioImp: like everything else that dispatches, requires that no consumer has a negative queue length, because a dispatch to it may not return.
- RecvHandoff.HandoffSafe: the listed steps of the two loops are atomic, and termination of the receiving thread is not claimed, because its adapter runs the cycle again after an error.
- ConfRoundTrip.RoundTrip: words that would need quotes are excluded, because the printer never quotes; `ConfWritten.ParseWritten` reads them.
- ConfWritten.ParseWritten: words have no NUL character, at which the program cuts a word off.
- AggregateOffers.AggregateOffered: the reorder queue and header reduction are off, and every call succeeds; `SourceRuns.AggregateOnAnyBytes` drops that in terms of single messages.
- ConfReloadSharp.NoIdleNotice: the notice about http_static is exempt, because it names no vhost and the second of two such notices is in vain.
- ConfReloadDiff.ReloadIsDiffIff: line numbers are not part of the copy, nor what stands in the `dvr_apply` children inside the recording section; `dvr_apply` itself is a part of its own.
- The fourteen like blocks of the reload of one vhost are one loop over the list of their parts.
- Deep copies of a tree, JSON dumps, default-value getters other than those the properties need, and the name checks of a configuration are left out: they would add easy members only.
