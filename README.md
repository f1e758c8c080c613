# Hardware video decode test client, app-window frame geometry, docs feature platforms

This project models three pieces of a Chromium source tree and proves properties of them in Dafny.

- **The hardware video decode test client** (`video_decode_accelerator_unittest.cc`). It has five parts, each in its own module:
  - **Bitstream fragmenters** (`Fragmenter`). These cut an H.264 Annex B byte stream into NAL units at the start code `00 00 00 01`. The first fragment of a play-through is the first sequence parameter set (SPS); the units before it are skipped and counted. For VP8, they cut an IVF file into frames: a 32-byte file header, then for each frame a 12-byte frame header, whose first four bytes are the payload size in little-endian order, and the payload.
  - **The submission state machine of `GLRenderingVDAClient`** (`ClientModel`). The client is a value and each callback is a function on it. A callback returns either the next client or the CHECK that aborts the process. Requests to the decoder are logged in `calls` and state notifications in `trace`.
    - `ClientProperties` proves what single callbacks promise: the decode accounting, the "delete at state X" rule with its cascade, the picture-buffer pool and PictureReady.
    - `DriverLifecycle` proves whole runs against a decoder that returns every buffer.
  - **The same client as an object** (`RenderingClient.GLRenderingClient`). Its fields are updated in place, and each method is proved to do exactly what the matching `ClientModel` function does.
  - **The throttling wrapper** (`Throttling.Throttler`). It paces pictures to a frame rate through a FIFO queue, drops late frames, and discards stale ticks after a reset.
  - **The parsing of the test-video list** (`TestVideoData`).
- **App-window frame geometry** (`FrameView`, from `shell_window_frame_view.cc`). This covers the client and window bounds around the 25-pixel caption, the minimum and maximum sizes, the right-to-left button layout, and the order of decisions in the non-client hit test.
- **Feature platform resolution** (`FeaturesBundle`, from `features_bundle.py`). `_AddPlatformsFromDependencies` resolves `type:name` dependencies against the API, manifest and permission feature maps. It writes the union of their platforms into the feature.

Modelling choices:
- A CHECK or DCHECK that fails is modelled as an abort (`Crash`, `Fail`, `Err`). DCHECKs count as checks because the test's `main` enables them.
- The H.264/VP8 choice made by comparing the profile with `H264PROFILE_MAX` is a boolean. The profile enumeration is not part of this model.
- Time is an integer clock passed to each throttler callback. A null `TimeTicks` counts as 0.
- The throttler's message loop is an explicit list of posted tasks, which the caller runs in any order.
- The frame duration is a positive integer.
- Texture ids handed out by the rendering helper are a parameter (`newTextures`).
- Widget flags, button sizes and foreign hit-test answers are parameters of the frame-view functions. The hit-test codes are the Windows `HT*` values: HTNOWHERE 0, HTCLIENT 1, HTCAPTION 2, HTCLOSE 20.

Paths in the table are relative to the repository root.

## Model

| member | source | states |
|---|---|---|
| Fragmenter.ScanForStartCode | src/content/common/gpu/media/video_decode_accelerator_unittest.cc:835-838 | The scan stops at the first start code at or after its cursor, or where fewer than four bytes remain, and passes over no start code. |
| Fragmenter.NextNaluEnd | src/content/common/gpu/media/video_decode_accelerator_unittest.cc:828-841 | When the unit end is found, it lies between the cursor and the end of the data; with four bytes available, it lies at least four past the cursor. |
| Fragmenter.NoOverlappingStartCodes | src/content/common/gpu/media/video_decode_accelerator_unittest.cc:768-771 | No start code begins one to three bytes after another, so the scan can resume four bytes on. |
| Fragmenter.LookingAtNal | src/content/common/gpu/media/video_decode_accelerator_unittest.cc:768-771 | The four bytes at the cursor are `00 00 00 01`. `NoOverlappingStartCodes` proves two start codes never overlap and `NextNaluEndCharacterized` proves the CHECK on it fails exactly when no start code is at the cursor. |
| Fragmenter.NextNaluEndCharacterized | src/content/common/gpu/media/video_decode_accelerator_unittest.cc:828-841 | With four bytes available, the `LookingAtNAL` CHECK fails exactly when no start code sits at the cursor. Otherwise the end is the unique position at least four on, at the data's end or at a start code, with no start code strictly in between. |
| Fragmenter.GetBytesForNextNalu | src/content/common/gpu/media/video_decode_accelerator_unittest.cc:828-841 | The scanning loop computes exactly `NextNaluEnd`, including the CHECK failure and the snap to the data's end when fewer than four bytes follow. |
| Fragmenter.FindFirstSps | src/content/common/gpu/media/video_decode_accelerator_unittest.cc:799-808 | The skipping loop computes exactly `FindSps`: it stops at a unit of `nal_unit_type` 7, counts one skip per unit stepped over, and fails where a skipped unit has no start code. |
| Fragmenter.FindSps | src/content/common/gpu/media/video_decode_accelerator_unittest.cc:799-808 | The SPS search that the loop of `FindFirstSps` is proved to compute. `FindSpsCountsSkipped` proves a found unit has type 7 and the skip count equals the start codes stepped over. |
| Fragmenter.NextH264Fragment | src/content/common/gpu/media/video_decode_accelerator_unittest.cc:814-823 | One NAL unit from the cursor, counted as queued exactly when it is non-empty. `H264TailChain` proves a tail queues one unit per start code and skips none, and `AnnexBNaluEnd` that on a stream built of units each fragment is one unit. |
| Fragmenter.FirstH264Fragment | src/content/common/gpu/media/video_decode_accelerator_unittest.cc:796-808 | The first SPS unit with the units before it counted as skipped, or an empty fragment at the start when there is none. `FirstFragmentAtSps` proves it is exactly the bytes of the first SPS unit. |
| Fragmenter.NextIvfFrame | src/content/common/gpu/media/video_decode_accelerator_unittest.cc:843-856 | The frame header skipped after the 32-byte file header at cursor 0, the payload of the little-endian size, and the cursor past it. `IvfFrameRead` proves it returns the written payload and advances by 12 plus its size, and `IvfHeaderOnlyFails` that a header-only file fails. |
| Fragmenter.FragmentAt | src/content/common/gpu/media/video_decode_accelerator_unittest.cc:866-874 | The first fragment at cursor 0 and the next one elsewhere, as DecodeNextFragment chooses. `RenderingClient.NextFragment` computes it with the scanning loops. |
| Fragmenter.PlayChain | src/content/common/gpu/media/video_decode_accelerator_unittest.cc:858-897 | One play-through: fragments taken until the cursor reaches the end. `H264PlayThroughCountsEveryNalu`, `AnnexBPlayThrough`, `IvfChainQueuesEveryFrame` and `IvfPlayThrough` give its counts, and `DriverLifecycle.DecodeTimesAlong` ties the client's submissions to it. |
| Fragmenter.CountStartCodes | src/content/common/gpu/media/video_decode_accelerator_unittest.cc:1114-1116 | An independent count of the stream's NAL units that the test compares with skipped plus queued. `H264PlayThroughCountsEveryNalu` proves the play-through's totals equal it. |
| Fragmenter.LittleEndian32 | src/content/common/gpu/media/video_decode_accelerator_unittest.cc:850 | The frame size read is a 32-bit unsigned value. |
| Fragmenter.NaluHoldsOneStartCode | src/content/common/gpu/media/video_decode_accelerator_unittest.cc:828-841 | A unit from a start code to its end holds exactly one start code. |
| Fragmenter.FindSpsCountsSkipped | src/content/common/gpu/media/video_decode_accelerator_unittest.cc:797-808 | When the SPS search finds a unit, that unit has type 7 and the skip count grows by exactly the number of start codes stepped over. |
| Fragmenter.H264TailChain | src/content/common/gpu/media/video_decode_accelerator_unittest.cc:814-826 | From a non-zero cursor, each H.264 fragment is one unit and is queued, none is skipped, and the queue count equals the number of start codes left. |
| Fragmenter.H264PlayThroughCountsEveryNalu | src/content/common/gpu/media/video_decode_accelerator_unittest.cc:1114-1116 | One H.264 play-through gives skipped + queued == the stream's number of start codes, with one queued fragment per submission. |
| Fragmenter.IvfChainQueuesEveryFrame | src/content/common/gpu/media/video_decode_accelerator_unittest.cc:843-856 | Every VP8 fragment is queued and none is skipped. |
| Fragmenter.AnnexBNaluEnd | src/content/common/gpu/media/video_decode_accelerator_unittest.cc:828-841 | In a stream built from a start code, a unit free of start codes and a tail that starts with a start code or is empty, the unit ends where the tail begins. |
| Fragmenter.AnnexBPlayThrough | src/content/common/gpu/media/video_decode_accelerator_unittest.cc:797-826 | An Annex B stream of n units whose first SPS is unit j plays through in n-j fragments, skipping j and queueing n-j. |
| Fragmenter.FirstFragmentAtSps | src/content/common/gpu/media/video_decode_accelerator_unittest.cc:797-803 | The first H.264 fragment is exactly the bytes of the first SPS unit, with the skipped units counted. |
| Fragmenter.LittleEndianRoundTrip | src/content/common/gpu/media/video_decode_accelerator_unittest.cc:850 | Reading the four size bytes back gives the 32-bit size that was written. |
| Fragmenter.IvfFrameRead | src/content/common/gpu/media/video_decode_accelerator_unittest.cc:843-856 | At a frame, or at cursor 0 with a 32-byte file header in front, the fragment is the frame's payload and the cursor moves 12 + size past the frame's start; one fragment is queued. |
| Fragmenter.IvfPlayThrough | src/content/common/gpu/media/video_decode_accelerator_unittest.cc:843-856 | An IVF file of n well-formed frames plays through in n fragments, all queued. |
| Fragmenter.IvfHeaderOnlyFails | src/content/common/gpu/media/video_decode_accelerator_unittest.cc:847-850 | A file with only its 32-byte header has no play-through: the first frame size would be read past the end. |
| ClientModel.NewClient | src/content/common/gpu/media/video_decode_accelerator_unittest.cc:511-554 | The constructor succeeds exactly when the in-flight budget and the play-through count are positive and the rate is not negative. It starts in CS_CREATED, with no decoder and an empty trace, and throttles exactly when the rate is positive. |
| ClientModel.StatesAbove | src/content/common/gpu/media/video_decode_accelerator_unittest.cc:793-794 | The cascade visits every state above the current one, in increasing order, up to CS_DESTROYED. |
| ClientModel.SetState | src/content/common/gpu/media/video_decode_accelerator_unittest.cc:773-780 | A state change leaves every counter alone and never brings a decoder back. |
| ClientModel.DeleteDecoder | src/content/common/gpu/media/video_decode_accelerator_unittest.cc:782-795 | After a deletion that does not abort, the decoder is gone and the counters are unchanged. |
| ClientModel.Cascade | src/content/common/gpu/media/video_decode_accelerator_unittest.cc:793-794 | The rest of the states notified after a deletion. `ClientProperties.CascadeClosedForm` proves it aborts exactly on a second deletion and otherwise notifies every higher state in order. |
| ClientModel.DecodeNextFragment | src/content/common/gpu/media/video_decode_accelerator_unittest.cc:858-897 | One submission. `ClientProperties.SubmissionAccounting`, `FlushAccounting` and `SubmitAccounting` give the flush at the end, the Decode request, the id masked to 30 bits, the cursor and the outstanding count; `DecodeNextFragmentFrame` proves the pool changes only through a deletion. |
| ClientModel.DecodeTimes | src/content/common/gpu/media/video_decode_accelerator_unittest.cc:692-694 | n submissions in a row. `DriverLifecycle.DecodeTimesAlong` proves they advance n fragments of the play-through, `ClientProperties.DecodeTimesWithoutDecoder` that they do nothing without a decoder. |
| ClientModel.CreateDecoder | src/content/common/gpu/media/video_decode_accelerator_unittest.cc:565-605 | A decoder already present aborts (`DecoderAlreadySet`). Otherwise a decoder is created and CS_DECODER_SET notified; if that notification deleted it, nothing more happens, and otherwise a failed `Initialize` aborts (`InitializeFailed`) and a successful one is logged. `DriverLifecycle.Opening` proves the opening notifications and `ClientProperties.PoolInvPreserved` that it keeps the pool invariant from an empty map. |
| ClientModel.NotifyInitializeDone | src/content/common/gpu/media/video_decode_accelerator_unittest.cc:683-695 | CS_INITIALIZED and then the in-flight budget of submissions. `DriverLifecycle.InitializeDoneStarts` proves that it submits exactly `numInFlight` fragments. |
| ClientModel.NotifyEndOfBitstreamBuffer | src/content/common/gpu/media/video_decode_accelerator_unittest.cc:697-706 | A returned buffer is counted done and one more fragment submitted. `DriverLifecycle.EndOfBufferSubmits` and `EndOfBufferFlushes` prove the replacement before the end and the Flush at the end. |
| ClientModel.NotifyFlushDone | src/content/common/gpu/media/video_decode_accelerator_unittest.cc:708-718 | CS_FLUSHED, one play-through fewer, then Reset and CS_RESETTING unless the decoder was deleted. `DriverLifecycle.FlushDoneContinues` and `FlushDoneLast` prove both cases. |
| ClientModel.NotifyResetDone | src/content/common/gpu/media/video_decode_accelerator_unittest.cc:720-744 | The mid-stream and start-of-stream restarts, the next play-through, or CS_RESET. `DriverLifecycle.ResetDoneMidStream`, `ResetDoneStartOfStream`, `ResetDoneReplays` and `ResetDoneLast` prove each branch. |
| ClientModel.NotifyError | src/content/common/gpu/media/video_decode_accelerator_unittest.cc:746-748 | A state change to CS_ERROR. `ClientProperties.SetStateDeletes` gives when it deletes or aborts, and `NothingAskedOfDeletedDecoder` that it asks nothing of a deleted decoder. |
| ClientModel.NumDecodedFrames | src/content/common/gpu/media/video_decode_accelerator_unittest.cc:899-902 | The throttler's arrival count when throttling, else the client's own. `ClientProperties.PictureReadyMeaning` uses it for the reset and buffer-reuse rules. |
| ClientModel.PictureReady | src/content/common/gpu/media/video_decode_accelerator_unittest.cc:641-681 | A delivered picture. `ClientProperties.PictureReadyMeaning` gives its abort conditions, the frame count, the mid-stream reset and the buffer hand-back. |
| ClientModel.ProvidePictureBuffers | src/content/common/gpu/media/video_decode_accelerator_unittest.cc:607-629 | New buffers for the new textures, handed to the decoder. `ClientProperties.AddBuffersSucceeds`, `AddBuffersMap`, `AddBuffersHands` and `AddBuffersKeepsShape` give when it succeeds, the new map, the handed list and the kept invariant. |
| ClientModel.DismissPictureBuffer | src/content/common/gpu/media/video_decode_accelerator_unittest.cc:631-639 | A buffer and its texture removed. `ClientProperties.DismissOnLivePool` proves it succeeds exactly when the id is present and keeps the invariant, and `DismissAfterDeletion` that it aborts once the textures are gone. |
| ClientModel.NotifyFrameDropped | src/content/common/gpu/media/video_decode_accelerator_unittest.cc:764-766 | The buffer handed straight back. `ClientProperties.OnlyBufferCallbacksTouchPool` proves it keeps the pool. |
| ClientModel.Destruct | src/content/common/gpu/media/video_decode_accelerator_unittest.cc:556-561 | The decoder deleted, the picture-buffer map emptied, and CS_DESTROYED notified. `ClientProperties.OnlyBufferCallbacksTouchPool` proves the map is empty afterwards and the textures go with the decoder. |
| ClientModel.Step | src/content/common/gpu/media/video_decode_accelerator_unittest.cc:556-766 | A callback of the decoder or the test, dispatched to its function. `ClientProperties.PoolInvPreserved` proves every step keeps the pool invariant. |
| ClientModel.Run | src/content/common/gpu/media/video_decode_accelerator_unittest.cc:1073-1095 | A schedule of callbacks applied until one aborts, as the test drives the client. `DriverLifecycle.RunAppend` proves runs compose, and `DriverLifecycle.WholeRun` gives the whole test's trace. |
| ClientProperties.Deleted | src/content/common/gpu/media/video_decode_accelerator_unittest.cc:782-795 | After a deletion, there is no decoder, no outstanding texture, and the state is CS_DESTROYED. |
| ClientProperties.CascadeClosedForm | src/content/common/gpu/media/video_decode_accelerator_unittest.cc:793-794 | The cascade above state s aborts exactly when no play-through remains and the deletion state lies above s (its `CHECK(!decoder_deleted())` fires). Otherwise it notifies every state above s. |
| ClientProperties.DeleteDecoderClosedForm | src/content/common/gpu/media/video_decode_accelerator_unittest.cc:782-795 | DeleteDecoder is a no-op without a decoder. With one, it aborts exactly in that cascade case, and otherwise empties the data and the texture set, sends one Destroy, and notifies every state above the current one. |
| ClientProperties.DeleteDecoderIdempotent | src/content/common/gpu/media/video_decode_accelerator_unittest.cc:783-784 | A second DeleteDecoder changes nothing. |
| ClientProperties.SetStateDeletes | src/content/common/gpu/media/video_decode_accelerator_unittest.cc:773-780 | SetState aborts exactly when no play-through remains, the new state is the deletion state and the decoder is already gone. It deletes exactly when no play-through remains and the state is the deletion state. The trace is extended by the new state and, on deletion, by the cascade. |
| ClientProperties.SubmissionAccounting | src/content/common/gpu/media/video_decode_accelerator_unittest.cc:858-897 | Each submission uses the current bitstream id and advances it modulo 2^30, staying within 30 bits, and adds one outstanding decode. A Flush is asked for exactly at the end of the data with nothing outstanding. Otherwise nothing changes. Earlier requests are kept. |
| ClientProperties.FlushAccounting | src/content/common/gpu/media/video_decode_accelerator_unittest.cc:861-866 | At the end of the data with nothing outstanding, the next request is Flush and the id and the outstanding count stay. |
| ClientProperties.SubmitAccounting | src/content/common/gpu/media/video_decode_accelerator_unittest.cc:870-891 | Away from the end of the data, the next request is a Decode with the current id, the id advances by one modulo 2^30 and one more decode is outstanding. |
| ClientProperties.DecodeTimesWithoutDecoder | src/content/common/gpu/media/video_decode_accelerator_unittest.cc:859-860 | Without a decoder, any number of DecodeNextFragment calls change nothing. |
| ClientProperties.NothingAskedOfDeletedDecoder | src/content/common/gpu/media/video_decode_accelerator_unittest.cc:641-766 | Once the decoder is deleted, no callback except CreateDecoder makes any request of a decoder or brings one back. |
| ClientProperties.NewBuffers | src/content/common/gpu/media/video_decode_accelerator_unittest.cc:615-625 | The buffers created are numbered consecutively from the map's size and take the new textures in order. |
| ClientProperties.FreshTexturesStep | src/content/common/gpu/media/video_decode_accelerator_unittest.cc:619 | The textures are all fresh exactly when the first is new and the rest are fresh after adding it. |
| ClientProperties.FreeIdsStep | src/content/common/gpu/media/video_decode_accelerator_unittest.cc:621-622 | Adding a buffer under the map's size grows the map by one and keeps the following ids free. |
| ClientProperties.AddOneKeepsShape | src/content/common/gpu/media/video_decode_accelerator_unittest.cc:615-625 | One turn of the loop keeps the pool invariant: every buffer sits under its own id, with distinct textures, and the textures in the map are the outstanding ones. |
| ClientProperties.AddBuffersSucceeds | src/content/common/gpu/media/video_decode_accelerator_unittest.cc:615-625 | ProvidePictureBuffers' loop succeeds exactly when every new texture is fresh and every id it uses is free. Otherwise one of its two CHECKs aborts. |
| ClientProperties.AddedInOrderStep | src/content/common/gpu/media/video_decode_accelerator_unittest.cc:615-625 | Adding one buffer and then the rest is the same as adding all of them in order. |
| ClientProperties.AddBuffersHands | src/content/common/gpu/media/video_decode_accelerator_unittest.cc:615-628 | The decoder is handed exactly the new buffers, numbered from the map's size, in texture order. |
| ClientProperties.NewBuffersCons | src/content/common/gpu/media/video_decode_accelerator_unittest.cc:615-625 | The list of new buffers is the first buffer followed by the rest. |
| ClientProperties.AddBuffersMap | src/content/common/gpu/media/video_decode_accelerator_unittest.cc:615-625 | The map gains exactly one buffer per new texture, under consecutive ids, and keeps every old entry. |
| ClientProperties.AddBuffersKeepsShape | src/content/common/gpu/media/video_decode_accelerator_unittest.cc:615-625 | Every new texture becomes outstanding and the pool invariant is kept. |
| ClientProperties.AddBuffersTextures | src/content/common/gpu/media/video_decode_accelerator_unittest.cc:615-625 | When the loop succeeds, the outstanding textures are the old ones together with every texture it was handed. |
| ClientProperties.DismissOnLivePool | src/content/common/gpu/media/video_decode_accelerator_unittest.cc:631-639 | While the decoder exists, a dismissal succeeds exactly when the id is in the map. It removes the buffer and its texture and keeps the invariant. |
| ClientProperties.DismissAfterDeletion | src/content/common/gpu/media/video_decode_accelerator_unittest.cc:631-639 | After DeleteDecoder has emptied the texture set, any dismissal aborts. |
| ClientProperties.PoolFrameTransitive | src/content/common/gpu/media/video_decode_accelerator_unittest.cc:782-795 | The pool-frame relation composes: the map stays, and the textures stay or are all released. |
| ClientProperties.SetStateFrame | src/content/common/gpu/media/video_decode_accelerator_unittest.cc:773-780 | SetState leaves the buffer map alone, and the texture set too unless it deletes the decoder. |
| ClientProperties.DeleteDecoderFrame | src/content/common/gpu/media/video_decode_accelerator_unittest.cc:786-791 | DeleteDecoder leaves the buffer map and only releases textures. |
| ClientProperties.DecodeNextFragmentFrame | src/content/common/gpu/media/video_decode_accelerator_unittest.cc:858-897 | DecodeNextFragment touches the pool only through a deletion. |
| ClientProperties.DecodeTimesFrame | src/content/common/gpu/media/video_decode_accelerator_unittest.cc:858-897 | So does any run of DecodeNextFragment calls. |
| ClientProperties.InitializeDoneFrame | src/content/common/gpu/media/video_decode_accelerator_unittest.cc:683-695 | So does NotifyInitializeDone. |
| ClientProperties.FlushDoneFrame | src/content/common/gpu/media/video_decode_accelerator_unittest.cc:708-718 | So does NotifyFlushDone. |
| ClientProperties.ResetDoneFrame | src/content/common/gpu/media/video_decode_accelerator_unittest.cc:720-744 | So does NotifyResetDone. |
| ClientProperties.OnlyBufferCallbacksTouchPool | src/content/common/gpu/media/video_decode_accelerator_unittest.cc:641-766 | Only ProvidePictureBuffers and DismissPictureBuffer change the buffer map. |
| ClientProperties.PoolInvPreserved | src/content/common/gpu/media/video_decode_accelerator_unittest.cc:607-639 | Every callback keeps the pool invariant: the textures referenced by the map are the outstanding ones until DeleteDecoder empties the set. This needs CreateDecoder to start from an empty map. |
| ClientProperties.PictureReadyMeaning | src/content/common/gpu/media/video_decode_accelerator_unittest.cc:641-681 | PictureReady aborts exactly after CS_RESET, or with a decoder on a future bitstream id or an unknown buffer. Otherwise it counts the frame, resets mid-stream exactly on the last play-through when the count reaches the reset frame (rewinding the cursor), and returns the buffer, after a delay once the count passes the delay threshold. |
| DriverLifecycle.Repeat | src/content/common/gpu/media/video_decode_accelerator_unittest.cc:697-706 | n copies of one callback. |
| DriverLifecycle.PlayThroughEvents | src/content/common/gpu/media/video_decode_accelerator_unittest.cc:1074-1090 | One play-through: k buffer returns, then FlushDone, then ResetDone. |
| DriverLifecycle.Schedule | src/content/common/gpu/media/video_decode_accelerator_unittest.cc:1051-1095 | The test's schedule: CreateDecoder and InitializeDone, then the events of P play-throughs. |
| DriverLifecycle.RoundsLength | src/content/common/gpu/media/video_decode_accelerator_unittest.cc:1074-1090 | P play-throughs of k fragments are P * (k + 2) callbacks. |
| DriverLifecycle.RunAppend | src/content/common/gpu/media/video_decode_accelerator_unittest.cc:1061-1095 | Running two schedules one after the other is running their concatenation, up to the first abort. |
| DriverLifecycle.SubmitAlong | src/content/common/gpu/media/video_decode_accelerator_unittest.cc:858-897 | Part-way through a play-through, a submission takes the next fragment of the play-through, counts it and adds an outstanding decode. |
| DriverLifecycle.DecodeTimesAlong | src/content/common/gpu/media/video_decode_accelerator_unittest.cc:692-693 | m submissions, for m up to the fragments left, move the cursor m fragments on with m more outstanding. |
| DriverLifecycle.InitializeDoneStarts | src/content/common/gpu/media/video_decode_accelerator_unittest.cc:683-695 | NotifyInitializeDone at the start of a play-through notifies CS_INITIALIZED and submits exactly `numInFlight` fragments. The final skip and queue counts are then fixed. |
| DriverLifecycle.EndOfBufferSubmits | src/content/common/gpu/media/video_decode_accelerator_unittest.cc:697-706 | A returned buffer before the end of the data is counted as done and replaced by the next fragment. |
| DriverLifecycle.EndOfBufferFlushes | src/content/common/gpu/media/video_decode_accelerator_unittest.cc:697-706 | The last returned buffer at the end of the data leads to Flush and CS_FLUSHING. |
| DriverLifecycle.Drain | src/content/common/gpu/media/video_decode_accelerator_unittest.cc:697-706 | Returning every buffer of a play-through submits the rest of it, counts every buffer done, and ends in a single Flush with CS_FLUSHING. |
| DriverLifecycle.FlushDoneContinues | src/content/common/gpu/media/video_decode_accelerator_unittest.cc:708-718 | FlushDone with play-throughs left notifies CS_FLUSHED and CS_RESETTING, uses one play-through and asks for Reset. |
| DriverLifecycle.ResetDoneReplays | src/content/common/gpu/media/video_decode_accelerator_unittest.cc:720-744 | ResetDone with play-throughs left rewinds the cursor and starts the next play-through. |
| DriverLifecycle.FlushDoneLast | src/content/common/gpu/media/video_decode_accelerator_unittest.cc:708-718 | The last FlushDone brings the count to 0. It deletes the decoder, with the cascade CS_RESET, CS_ERROR, CS_DESTROYED, exactly when the deletion state is CS_RESETTING. |
| DriverLifecycle.ResetDoneLast | src/content/common/gpu/media/video_decode_accelerator_unittest.cc:720-744 | The last ResetDone notifies CS_RESET and deletes the decoder, through CS_ERROR to CS_DESTROYED. It aborts exactly when the deletion state is CS_ERROR or CS_DESTROYED, which the cascade notifies again after deletion. |
| DriverLifecycle.FlushAndReplay | src/content/common/gpu/media/video_decode_accelerator_unittest.cc:708-744 | FlushDone then ResetDone between play-throughs restart the play-through. |
| DriverLifecycle.FlushAndDelete | src/content/common/gpu/media/video_decode_accelerator_unittest.cc:708-744 | FlushDone then ResetDone after the last play-through end the run with the decoder deleted, or abort as above. |
| DriverLifecycle.RoundContinues | src/content/common/gpu/media/video_decode_accelerator_unittest.cc:1074-1090 | A play-through that is not the last ends ready for the next, with its buffers done and its fragments counted. |
| DriverLifecycle.RoundEnds | src/content/common/gpu/media/video_decode_accelerator_unittest.cc:1074-1095 | The last play-through ends the run with the closing states. |
| DriverLifecycle.PlayThroughs | src/content/common/gpu/media/video_decode_accelerator_unittest.cc:1074-1095 | P play-throughs notify CS_FLUSHING, CS_FLUSHED, CS_RESETTING each, with CS_INITIALIZED between them, then the closing states. Done counts P times the fragments; the skip and queue counts grow once per play-through. |
| DriverLifecycle.TestClient | src/content/common/gpu/media/video_decode_accelerator_unittest.cc:1034-1048 | The client the test builds, with an end-of-stream reset, exists exactly when the constructor's checks pass. |
| DriverLifecycle.Opening | src/content/common/gpu/media/video_decode_accelerator_unittest.cc:1051-1073 | CreateDecoder and InitializeDone notify CS_DECODER_SET and CS_INITIALIZED and start the first play-through. |
| DriverLifecycle.WholeRun | src/content/common/gpu/media/video_decode_accelerator_unittest.cc:1051-1095 | For every deletion state, the whole test notifies CS_DECODER_SET, CS_INITIALIZED, then per play-through CS_FLUSHING, CS_FLUSHED, CS_RESETTING with CS_INITIALIZED between play-throughs, then CS_RESET, CS_ERROR, CS_DESTROYED. Done, skipped and queued are P times one play-through's. It aborts exactly when the deletion state is CS_ERROR or CS_DESTROYED. |
| DriverLifecycle.SinglePlayThroughChecks | src/content/common/gpu/media/video_decode_accelerator_unittest.cc:1113-1119 | With one play-through, an end-of-stream reset and a deletion state that does not abort, the run succeeds and the test's checks hold: done == queued, and skipped + queued is the number of H.264 units, or the number of IVF frames with none skipped. |
| DriverLifecycle.ResetDoneMidStream | src/content/common/gpu/media/video_decode_accelerator_unittest.cc:724-728 | ResetDone after a mid-stream reset submits exactly the next fragment of the play-through and reverts to an end-of-stream reset. |
| DriverLifecycle.ResetDoneStartOfStream | src/content/common/gpu/media/video_decode_accelerator_unittest.cc:729-734 | ResetDone after a start-of-stream reset submits the next `numInFlight` fragments and reverts to an end-of-stream reset. |
| RenderingClient.NextFragment | src/content/common/gpu/media/video_decode_accelerator_unittest.cc:797-826 | GetBytesForFirstFragment and GetBytesForNextFragment, built from the scanning loops, return exactly `FragmentAt`. |
| RenderingClient.DecodeAtEnd | src/content/common/gpu/media/video_decode_accelerator_unittest.cc:861-866 | At the end of the data, DecodeNextFragment flushes exactly when nothing is outstanding. |
| RenderingClient.DecodeFails | src/content/common/gpu/media/video_decode_accelerator_unittest.cc:870-876 | A fragment that cannot be cut aborts the submission. |
| RenderingClient.DecodeSubmits | src/content/common/gpu/media/video_decode_accelerator_unittest.cc:877-896 | A submission applies the fragment's counts, the Decode request, the id and the cursor, and deletes the decoder when the "delete after N buffers" rule fires. |
| RenderingClient.GLRenderingClient.constructor | src/content/common/gpu/media/video_decode_accelerator_unittest.cc:511-554 | The object's fields are the client value `NewClient` gives. |
| RenderingClient.GLRenderingClient.SetState | src/content/common/gpu/media/video_decode_accelerator_unittest.cc:773-780 | In place, it does exactly what `ClientModel.SetState` says, aborting where that does. |
| RenderingClient.GLRenderingClient.DeleteDecoder | src/content/common/gpu/media/video_decode_accelerator_unittest.cc:782-795 | Its cascade loop does exactly what `ClientModel.DeleteDecoder` says. |
| RenderingClient.GLRenderingClient.DestroyDecoder | src/content/common/gpu/media/video_decode_accelerator_unittest.cc:785-791 | Destroying the decoder logs one Destroy request and empties the encoded data and the outstanding textures; every other field keeps its value. |
| RenderingClient.GLRenderingClient.DecodeNextFragment | src/content/common/gpu/media/video_decode_accelerator_unittest.cc:858-897 | In place, as `ClientModel.DecodeNextFragment`. |
| RenderingClient.GLRenderingClient.Submit | src/content/common/gpu/media/video_decode_accelerator_unittest.cc:886-891 | Handing a fragment over logs one Decode under the current id, advances the id modulo 2^30, adds one outstanding decode and puts the cursor at the fragment's end; only the counters, the call log, the id, the outstanding count and the cursor change. |
| RenderingClient.GLRenderingClient.DecodeRepeatedly | src/content/common/gpu/media/video_decode_accelerator_unittest.cc:692-694 | The loop of n submissions, as `ClientModel.DecodeTimes`. |
| RenderingClient.GLRenderingClient.CreateDecoder | src/content/common/gpu/media/video_decode_accelerator_unittest.cc:565-605 | In place, as `ClientModel.CreateDecoder`: it aborts on a decoder already present or a failed `Initialize`. |
| RenderingClient.GLRenderingClient.NotifyInitializeDone | src/content/common/gpu/media/video_decode_accelerator_unittest.cc:683-695 | As `ClientModel.NotifyInitializeDone`. |
| RenderingClient.GLRenderingClient.NotifyEndOfBitstreamBuffer | src/content/common/gpu/media/video_decode_accelerator_unittest.cc:697-706 | As `ClientModel.NotifyEndOfBitstreamBuffer`. |
| RenderingClient.GLRenderingClient.NotifyFlushDone | src/content/common/gpu/media/video_decode_accelerator_unittest.cc:708-718 | As `ClientModel.NotifyFlushDone`. |
| RenderingClient.GLRenderingClient.NotifyResetDone | src/content/common/gpu/media/video_decode_accelerator_unittest.cc:720-744 | As `ClientModel.NotifyResetDone`. |
| RenderingClient.GLRenderingClient.NotifyError | src/content/common/gpu/media/video_decode_accelerator_unittest.cc:746-748 | As `ClientModel.NotifyError`: just a state change to CS_ERROR. |
| RenderingClient.GLRenderingClient.PictureReady | src/content/common/gpu/media/video_decode_accelerator_unittest.cc:641-681 | As `ClientModel.PictureReady`. |
| RenderingClient.GLRenderingClient.RestartMidStream | src/content/common/gpu/media/video_decode_accelerator_unittest.cc:655-662 | The mid-stream reset marks the reset as started, logs one Reset request and moves the cursor back to 0; nothing else changes. |
| RenderingClient.GLRenderingClient.ProvidePictureBuffers | src/content/common/gpu/media/video_decode_accelerator_unittest.cc:607-629 | Its loop updates the map and the texture set in place, as `ClientModel.ProvidePictureBuffers`. |
| RenderingClient.GLRenderingClient.DismissPictureBuffer | src/content/common/gpu/media/video_decode_accelerator_unittest.cc:631-639 | As `ClientModel.DismissPictureBuffer`. |
| RenderingClient.GLRenderingClient.NotifyFrameDropped | src/content/common/gpu/media/video_decode_accelerator_unittest.cc:764-766 | As `ClientModel.NotifyFrameDropped`. |
| RenderingClient.GLRenderingClient.Destruct | src/content/common/gpu/media/video_decode_accelerator_unittest.cc:556-561 | In place, as `ClientModel.Destruct`: the decoder is deleted, the buffer map emptied and CS_DESTROYED notified. |
| Throttling.Departures | src/content/common/gpu/media/video_decode_accelerator_unittest.cc:338-348 | The pictures that have left the queue, delivered or recycled, in order. |
| Throttling.DeparturesAppend | src/content/common/gpu/media/video_decode_accelerator_unittest.cc:338-348 | The departures of two logs are those of each in turn. |
| Throttling.Recycles | src/content/common/gpu/media/video_decode_accelerator_unittest.cc:382-386 | Draining a queue recycles each of its pictures, in order. |
| Throttling.DeparturesOfRecycles | src/content/common/gpu/media/video_decode_accelerator_unittest.cc:382-386 | A drain's departures are exactly the drained queue. |
| Throttling.LiveTicksAppend | src/content/common/gpu/media/video_decode_accelerator_unittest.cc:323-326 | Live ticks of two task lists add up. |
| Throttling.LiveTicksRemove | src/content/common/gpu/media/video_decode_accelerator_unittest.cc:330-333 | Running a task removes one live tick exactly when it is a tick of the current version. |
| Throttling.LiveTicksStale | src/content/common/gpu/media/video_decode_accelerator_unittest.cc:330-333 | After the version is raised, no posted tick is live. |
| Throttling.AccountArrival | src/content/common/gpu/media/video_decode_accelerator_unittest.cc:312-314 | An arrival joins the back of the queue and keeps FIFO accounting. |
| Throttling.AccountDeparture | src/content/common/gpu/media/video_decode_accelerator_unittest.cc:338-348 | Delivering or recycling the front picture keeps FIFO accounting. |
| Throttling.AccountReset | src/content/common/gpu/media/video_decode_accelerator_unittest.cc:380-388 | Recycling the whole queue on reset keeps FIFO accounting, with the queue empty. |
| Throttling.PostTasks | src/content/common/gpu/media/video_decode_accelerator_unittest.cc:323-326 | Posting tasks of no later version keeps every tick at or before the current version. |
| Throttling.RecycleAll | src/content/common/gpu/media/video_decode_accelerator_unittest.cc:382-386 | The drain loop recycles exactly the queue, front first. |
| Throttling.Throttler.constructor | src/content/common/gpu/media/video_decode_accelerator_unittest.cc:287-297 | A fresh wrapper has an empty queue, a null delivery time, stream version 0 and its invariant. |
| Throttling.Throttler.NumDecodedFrames | src/content/common/gpu/media/video_decode_accelerator_unittest.cc:269 | The wrapper's decoded count is the number of pictures that reached it. |
| Throttling.Throttler.PictureReady | src/content/common/gpu/media/video_decode_accelerator_unittest.cc:312-328 | An arrival is counted and queued at the back. Exactly when the queue was empty, a tick of the current version is posted for the scheduled time, or for now when that is null. |
| Throttling.Throttler.CallClientPictureReady | src/content/common/gpu/media/video_decode_accelerator_unittest.cc:330-357 | A stale tick changes nothing. A live one finds the queue non-empty and advances the delivery time by exactly one frame from its base. It pops the front picture, recycling it when late and delivering it otherwise, and posts the next tick exactly when pictures remain. The first tick after construction or reset always delivers. |
| Throttling.Throttler.NotifyFlushDone | src/content/common/gpu/media/video_decode_accelerator_unittest.cc:368-378 | Flush-done is forwarded exactly when the queue is empty; otherwise a retry is posted. |
| Throttling.Throttler.NotifyResetDone | src/content/common/gpu/media/video_decode_accelerator_unittest.cc:380-388 | Reset raises the stream version by one, recycles the queue in order, nulls the delivery time and then forwards. Afterward every picture that arrived has left exactly once. |
| Throttling.Throttler.Forward | src/content/common/gpu/media/video_decode_accelerator_unittest.cc:301-310 | The other callbacks are passed through unchanged. |
| Throttling.Throttler.RunTask | src/content/common/gpu/media/video_decode_accelerator_unittest.cc:323-376 | Running any posted task keeps the invariant: FIFO exactly-once accounting, no tick ahead of the version, and one live tick exactly while pictures are queued. A stale tick only leaves the list; a live tick delivers or recycles the front picture, advances the schedule and reposts while pictures remain; a retried flush is forwarded when the queue is empty and posted again otherwise. |
| TestVideoData.Trim | src/content/common/gpu/media/video_decode_accelerator_unittest.cc:153 | A trimmed piece neither starts nor ends with whitespace. |
| TestVideoData.Pieces | src/content/common/gpu/media/video_decode_accelerator_unittest.cc:153 | Splitting gives at least one piece and no piece holds the separator. |
| TestVideoData.PiecesCount | src/content/common/gpu/media/video_decode_accelerator_unittest.cc:157 | A string with k separators has k + 1 pieces. |
| TestVideoData.SplitString | src/content/common/gpu/media/video_decode_accelerator_unittest.cc:153-154 | The split is empty, or has one piece more than there are separators; a string without a separator is its trimmed self, or nothing when blank. |
| TestVideoData.StringToInt | src/content/common/gpu/media/video_decode_accelerator_unittest.cc:162-163 | The number parse each optional field is CHECKed with. `StringToIntRoundTrip` proves every decimal `int` parses back to itself. |
| TestVideoData.StringToIntRoundTrip | src/content/common/gpu/media/video_decode_accelerator_unittest.cc:162-163 | Every int written in decimal parses back to itself. |
| TestVideoData.DivideBySize | src/content/common/gpu/media/video_decode_accelerator_unittest.cc:185 | An int divided by the size_t decoder count stays an int. |
| TestVideoData.DivideBySizeOfRate | src/content/common/gpu/media/video_decode_accelerator_unittest.cc:183-190 | For a rate that is not negative, that is plain integer division. |
| TestVideoData.FrameExpectations | src/content/common/gpu/media/video_decode_accelerator_unittest.cc:166-180 | With a positive frame count and a mid-stream reset, the reset frame is 1 for at most 100 frames and 100 otherwise. It never exceeds the frame count and is added to the expected frames. Otherwise the frame count stays and the reset point is used as given. |
| TestVideoData.FirstBadField | src/content/common/gpu/media/video_decode_accelerator_unittest.cc:161-192 | The first numeric field whose CHECK fails, or none exactly when every given field parses. |
| TestVideoData.BuildFile | src/content/common/gpu/media/video_decode_accelerator_unittest.cc:160-192 | An entry parses exactly when each non-empty numeric field parses. The file name is the first field. Width, height, fragment count and profile are their fields' numbers, -1 when empty. The two rates are their numbers divided by the decoder count through `DivideBySize`, -1 when empty. The frame and reset expectations follow the rule above. Without a frame-count field the reset stays at end of stream and the count at -1. |
| TestVideoData.ParseEntryAsWritten | src/content/common/gpu/media/video_decode_accelerator_unittest.cc:157-192 | As written: an entry with one to seven fields passes both count CHECKs, and then fields 1 to 7 are read in order. It fails the CHECK of its first present field that is not a number, and exactly when every present field parses it reads the first field it does not have. |
| TestVideoData.FileNameOnlyReadsPastEnd | src/content/common/gpu/media/video_decode_accelerator_unittest.cc:157-161 | The entry "test.h264" is such an entry. |
| TestVideoData.BadFieldFailsBeforeReadPastEnd | src/content/common/gpu/media/video_decode_accelerator_unittest.cc:162-163 | The entry `a:x` fails the CHECK on `fields[1]` before any absent field is read. |
| TestVideoData.PadFields | src/content/common/gpu/media/video_decode_accelerator_unittest.cc:145-147 | Omitted fields count as empty. |
| TestVideoData.ParseEntry | src/content/common/gpu/media/video_decode_accelerator_unittest.cc:155-197 | Corrected: an entry never reads past its fields, and parses exactly when it has one to eight fields and every given number parses. |
| TestVideoData.ParseEntryExtendsAsWritten | src/content/common/gpu/media/video_decode_accelerator_unittest.cc:155-197 | Wherever the code as written gives a file, the corrected parser gives the same one. A file name alone gives a file with every optional field -1 and an end-of-stream reset. |
| TestVideoData.ParseAll | src/content/common/gpu/media/video_decode_accelerator_unittest.cc:155-199 | Every entry parsed in order with the corrected `ParseEntry`, or the first failure. `ParseAllSucceeds` proves it succeeds exactly when every entry does and `ParseAllElements` puts each file at its entry's position. |
| TestVideoData.ParseAllSucceeds | src/content/common/gpu/media/video_decode_accelerator_unittest.cc:155-199 | The list parses exactly when every entry does. |
| TestVideoData.ParseAllElements | src/content/common/gpu/media/video_decode_accelerator_unittest.cc:155-199 | The list then holds each entry's file at the entry's position. |
| TestVideoData.ParseEntries | src/content/common/gpu/media/video_decode_accelerator_unittest.cc:155-199 | The loop over the entries pushes each file in turn and stops at the first failure, as `ParseAll`. |
| TestVideoData.ParseAndReadTestVideoData | src/content/common/gpu/media/video_decode_accelerator_unittest.cc:149-201 | An empty list fails its CHECK. Otherwise the result is `ParseAll`, which is built on the corrected `ParseEntry`, not on the parse as written (see Findings). |
| FrameView.HalfTowardZero | src/apps/ui/views/shell_window_frame_view.cc:153-154 | C++ division by 2, truncating toward zero. |
| FrameView.HeaderWidth | src/apps/ui/views/shell_window_frame_view.cc:153-155 | The header is the close button plus an even padding within one of the caption's spare height. |
| FrameView.BoundsForClientView | src/apps/ui/views/shell_window_frame_view.cc:132-137 | Frameless or fullscreen: the view's bounds. Otherwise the area below the 25-pixel caption, full width, with a height that is never negative. |
| FrameView.WindowBoundsForClientBounds | src/apps/ui/views/shell_window_frame_view.cc:139-160 | Frameless: the client bounds, or 1 by 1 when empty. Framed: the caption added above (y clamped at 0), and at least the header's width. |
| FrameView.FramedClientRoundTrip | src/apps/ui/views/shell_window_frame_view.cc:132-160 | For a framed window at least as wide as its header, the client area of the window bounds has the client's size. |
| FrameView.FramelessClientRoundTrip | src/apps/ui/views/shell_window_frame_view.cc:132-151 | For a frameless window, the client bounds come back unchanged. |
| FrameView.GetMinimumSize | src/apps/ui/views/shell_window_frame_view.cc:315-331 | The size computed step by step is `MinimumSize`. It is the client minimum when frameless; otherwise the client view's top is added to the height and the width is raised to the header's. |
| FrameView.MinimumSize | src/apps/ui/views/shell_window_frame_view.cc:315-331 | The client minimum, with the caption added to the height and the width raised to the header when framed. `MinimumSizeHoldsMinimumClient` proves it is the window size of a minimal client. |
| FrameView.MinimumSizeHoldsMinimumClient | src/apps/ui/views/shell_window_frame_view.cc:315-331 | For a framed window, the minimum size is the window size of a minimal client. |
| FrameView.GetMaximumSize | src/apps/ui/views/shell_window_frame_view.cc:333-344 | The size computed step by step is `MaximumSize`, which enlarges each non-zero component by the frame's extra size in that dimension. |
| FrameView.MaximumSize | src/apps/ui/views/shell_window_frame_view.cc:333-344 | Each non-zero component of the client maximum enlarged by the frame. `MaximumSizeAddsCaption` proves zero stays zero and the height gains the caption. |
| FrameView.MaximumSizeAddsCaption | src/apps/ui/views/shell_window_frame_view.cc:333-344 | A zero component stays zero. A framed window's height gains the caption and the width gains nothing. |
| FrameView.ResizeBorder | src/apps/ui/views/shell_window_frame_view.cc:187-189 | The resize border is 0 when maximized or fullscreen. |
| FrameView.NonClientHitTest | src/apps/ui/views/shell_window_frame_view.cc:162-218 | Fullscreen gives HTCLIENT. HTNOWHERE is given exactly outside the expanded bounds. A frame component wins next, then the frameless draggable region as HTCAPTION. HTCLOSE only on the visible close button. |
| FrameView.FirstClaim | src/apps/ui/views/shell_window_frame_view.cc:162-218 | The first claim in order, or the default. |
| FrameView.HitTestPriority | src/apps/ui/views/shell_window_frame_view.cc:162-218 | The hit test is the first claim among fullscreen, outside, frame, draggable, client and close, in that order, with HTCAPTION as default. |
| FrameView.Button.constructor | src/apps/ui/views/shell_window_frame_view.cc:234-279 | A new button is visible, enabled and in the normal state. |
| FrameView.ShellWindowFrame.constructor | src/apps/ui/views/shell_window_frame_view.cc:234-236 | A frameless frame has no buttons; a framed one has four distinct buttons. |
| FrameView.ShellWindowFrame.Layout | src/apps/ui/views/shell_window_frame_view.cc:234-279 | Close sits 3 from the right edge at y 0. Maximize and restore sit 1 to its left, and minimize 1 left of maximize, each at its preferred size. Exactly one of maximize and restore is visible, restore exactly when maximized. Maximize is enabled exactly when the window can resize. The hidden one of the two has its state reset to normal, and nothing else about the buttons changes. |
| FeaturesBundle.SplitColon | src/chrome/common/extensions/docs/server2/features_bundle.py:21 | `str.split(':')`: at least one piece, none holding a colon. |
| FeaturesBundle.JoinSplit | src/chrome/common/extensions/docs/server2/features_bundle.py:21 | Joining the pieces with colons gives the string back. |
| FeaturesBundle.SplitCountsColons | src/chrome/common/extensions/docs/server2/features_bundle.py:21 | There is one piece more than there are colons. |
| FeaturesBundle.MapFor | src/chrome/common/extensions/docs/server2/features_bundle.py:11-15 | Exactly `api`, `manifest` and `permission` name a map. |
| FeaturesBundle.Classify | src/chrome/common/extensions/docs/server2/features_bundle.py:21-28 | The unpacking raises ValueError exactly when the dependency does not hold exactly one colon. A resolved dependency names a known type and name with a `platforms` key. |
| FeaturesBundle.FirstFailure | src/chrome/common/extensions/docs/server2/features_bundle.py:20-28 | The first dependency that does not resolve. |
| FeaturesBundle.ResolveFrom | src/chrome/common/extensions/docs/server2/features_bundle.py:19-29 | The loop over the dependencies from index i with the union so far. `ResolveFromMeaning` proves it gives the union exactly when every dependency resolves, and `UnionIgnoresOrder` that the union depends only on the set of dependencies. |
| FeaturesBundle.ResolveFromMeaning | src/chrome/common/extensions/docs/server2/features_bundle.py:19-29 | The loop gives the union exactly when every dependency resolves. The union holds exactly the platforms of some dependency. Otherwise the first unresolvable one decides, by an exception or an early `[]`. |
| FeaturesBundle.UnionIgnoresOrder | src/chrome/common/extensions/docs/server2/features_bundle.py:19-29 | When all resolve, the platforms depend only on which dependencies are listed, not on order or repetition. |
| FeaturesBundle.UnresolvedReturnsEmpty | src/chrome/common/extensions/docs/server2/features_bundle.py:26-27 | An unknown name stops the loop with the early `return []`, even when every dependency before it resolved; the caller discards that value and the feature's platforms are not written. |
| FeaturesBundle.Feature.constructor | src/chrome/common/extensions/docs/server2/features_bundle.py:10 | A feature holds its dependencies and platforms. |
| FeaturesBundle.AddPlatformsFromDependencies | src/chrome/common/extensions/docs/server2/features_bundle.py:10-29 | No `dependencies` key returns `['apps', 'extensions']` and leaves the feature alone. If all resolve, it writes the union and returns None. Otherwise it raises or returns `[]` and leaves the feature alone. Only `platforms` is written. |

## Left out

- GL, EGL and X11 rendering are not part of this model: the rendering helper, texture creation, rendering and deletion, thumbnails, MD5 and PNG output, the golden-thumbnail file. Texture creation is reduced to a parameter of fresh ids.
- The platform decoders and their `Initialize` are foreign and hardware-specific. The decoder is the schedule of callbacks it may make, and initialization success is a parameter.
- Shared memory and handle duplication in DecodeNextFragment are not modelled, and neither are their CHECKs. A fragment of size zero, from an H.264 stream without an SPS, may abort there; the model submits it.
- File input and output (`ReadFileToString`, frame-delivery logs) are I/O and are left out.
- Threads, message loops, waitable events, weak pointers and `ClientStateNotification` are left out. The throttler's task list and integer clock stand in for them; the trace stands in for notifications.
- Floating point is left out: `frames_per_second`, the rendering rate and the fps-to-duration conversion. The frame duration is a positive integer.
- The test's `main`, switch parsing and parameter tables are left out as bootstrapping.
- `ShellWindowFrameView::Init`, `OnPaint`, `ButtonPressed` and `GetWindowMask` are UI plumbing and are left out.
- FrameView.ShellWindowFrame.Layout: `SetEnabled` only sets the maximize button's enabled flag. In views, disabling a custom button also moves it to its disabled state; that code is not part of this model, so the model does not capture the coupling.
- FrameView.NonClientHitTest: the expanded bounds, the frame component, the draggable region, the client-view answer and the (mirrored) close-button bounds are parameters, because the Aura insets, `GetHTComponentForFrame` and right-to-left mirroring are not part of this model.
- `_FeaturesCache` and the caching in `FeaturesBundle` are file-system and object-store access, and are left out.
- FeaturesBundle.AddPlatformsFromDependencies: the platforms written are a set, because `list(platforms)` of a Python set has no defined order.
- ClientModel.NewClient: the profile is reduced to the H.264/VP8 choice, because the profile ranges live in a header that is not part of this model.
- TestVideoData.SplitString: `base::SplitString` is not part of this model. It is taken to split at every separator, trim ASCII whitespace from each piece, and return no piece for a blank string without separators.
- TestVideoData.StringToInt: `base::StringToInt` is not part of this model. It is taken to accept an optional sign and one or more decimal digits with nothing else, within the range of `int`.
- TestVideoData.FrameExpectations: unbounded integers, so the `int` overflow of `num_frames + reset_after_frame_num` for a frame count within 100 of 2^31 is not modelled.
- TestVideoData.ParseAndReadTestVideoData: reading each video file and its CHECK are I/O and left out.
- Throttling.Throttler.CallClientPictureReady: time is an unbounded integer, so overflow of `TimeTicks` arithmetic is not modelled.

## Findings

| source | as written | input that shows it | evidently intended | confidence | as-written member | corrected member |
|---|---|---|---|---|---|---|
| src/content/common/gpu/media/video_decode_accelerator_unittest.cc:157-161 | The field count is checked to lie between 1 and 8, and then `fields[1]` to `fields[7]` are read in turn whatever the count. A shorter entry whose present fields all parse reads past the end of its vector. | the entry `test.h264`, which splits into one field | omitted trailing fields are unspecified (-1), as the function's comment says for optional fields | high that the read is out of bounds; not executed | TestVideoData.FileNameOnlyReadsPastEnd | TestVideoData.ParseEntry |
