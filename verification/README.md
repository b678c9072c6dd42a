# Verification models for the remote desktop client

Each module models one self-contained part of the repository, in the form that part has: code that
changes state step by step is a class or a method with loops, proved against a specification function;
the properties are lemmas about that function.

| module | models |
|---|---|
| `ScreenDiff` | the flat and the 3x3 grid comparison of two screen captures, and the tool that uses them |
| `ScreenCapture` | conversion of a strided BGRA frame to packed RGBA, and cropping to a signed region |
| `Workflow` | the recorder and replayer of tool calls |
| `AudioBuffer` | the audio jitter buffer with its occupancy histogram and adaptive dropping |
| `Keyboard` | the keyboard grab in map mode: keys to release, modifier flags, keys held remotely |
| `LanDiscovery` | the merge of discovery responses into the stored peers |
| `LoginProvenance` | where the login password comes from, and when it may be saved |
| `PortableMetadata` | the file of the portable packer, its writer and its reader |
| `ClipboardEcho` | echo suppression between two machines that synchronise their clipboards |
| `VirtualDisplays` | the comma-joined list of virtual displays |
| `SessionRegistry` | the registry of peer sessions and the UI sessions that show them |
| `StringColor` | the colour of a string |
| `ThrottledTicks` | the throttled interval |
| `PercentDecode` | percent decoding of paths (section 2.1 of RFC 3986) |
| `PortForward` | the two-phase relay of a port forward |
| `Common` | `Option`, `Result`, bytes |

`dafny verify dfyconfig.toml` checks the whole project.

## What turned out to be false

Some properties one would expect hold only under a condition. The code is modelled as it is; the
condition is proved to be exact, or a failing input is given.

- The two scans of `ScreenDiff` agree on all images of a size exactly if its bytes number at most
  2^32 (`ScansAgreeExactly`): past that the grid's `u32` offsets wrap and a change can go unseen.
- "Changed" comes with a reported region exactly for captures of one non-zero length
  (`ChangedMeansRegionExactly`, for sizes up to that bound). Captures of different lengths, or two empty ones,
  are 100% changed even if all pixels they have are black.
- A conversion yields the whole display exactly if the frame holds all its pixels (`ShowsExactly`). A crop
  has its full size exactly if the frame holds the last pixel of the region (`CropExactly`).
- A release of all keys leaves nothing held on the remote side, after every run of strokes from a set,
  exactly if all positions of a key in the set have the same remote code or none (`CleansExactly`), and so it is
  with what is held between calls (`NothingElseExactly`, `ExactExactly`). Only the latest press of a key is
  stored, so the two Enter keys of Windows, one key at two positions, fail (`EnterStaysHeld`). The two indexes
  agree in every run (`RunAgrees`).
- No peer is listed twice exactly if none was stored twice (`DistinctExactly`), which holds over all
  rounds from an empty file (`RoundsDistinct`). A responder is always listed with just the addresses of this
  round exactly if its id had not been answered, under another user name, when it first answered
  (`OnlyThisRoundExactly`, `StaleAddressKept`).
- A shared password is never saved, over all runs, exactly if the session does not switch sides with an
  unsaved shared password in its token, and the peer's salts make no difference to the shared passwords that it
  may use while something is to be remembered (`SharedNeverSaved`, `MayLeak`). A session without any shared
  password is safe whatever the salts (`NoSharedPassword`). Without hash collisions "no difference" means at
  most one salt (`OneSalt`).
- The recorded source describes the password in every run exactly if the salts make no difference to any
  shared password that the session may use (`SourceDescribesPassword`).
- The metadata file is read back exactly if the reader's marker width is that of "hoptodesk", nine, and no
  entry starts like the marker (`RoundTripExactly`). The shipped reader uses eight and rejects every
  file (`ShippedReaderRejectsAll`).
- Audio drops are 12 seconds apart in every run exactly if the clock never reads 12 seconds or more before
  the epoch (`DropsApartExactly`); otherwise a drop at zero can be followed by one 11.999 seconds later.
- The audio buffer holds whole frames of the current device in every run exactly if no stereo device comes
  together with the mono device of twice its rate (`AlignedExactly`).
- The registry is consistent throughout a run exactly if no attach takes a UI session from another peer
  session (`RunExactly`).
- Turning a virtual display on and off again restores the list, except for index -1 (`OnThenOff`).
- Percent decoding follows RFC 3986 exactly on inputs without an escape like `%+f`
  (`FollowsRfcExactly`).

## Model

| member | source | states |
|---|---|---|
| `ScreenDiff.PixelDiffPercentage` | src/mcp_server.rs:1594-1609 | The flat scan reports 100% for different lengths or no pixels, and otherwise the share of pixels that differ in red, green or blue by more than the threshold, counted once each |
| `ScreenDiff.CountIsSize` | src/mcp_server.rs:1599-1608 | Counting pixels in a loop gives the size of the set of those that satisfy the predicate |
| `ScreenDiff.FlatMeaning` | src/mcp_server.rs:1601-1604 | The flat scan takes a pixel for changed exactly if its red, green or blue went up or down by more than the threshold |
| `ScreenDiff.GridMeaning` | src/mcp_server.rs:1631-1639 | The grid takes pixel p for covered exactly if both captures have the four bytes at 4p modulo 2^32, and for changed exactly if red, green or blue there went up or down by more than ten |
| `ScreenDiff.ScanPixel` | src/mcp_server.rs:1631-1640 | With the offset computed in wrapping 32-bit steps, the two counters are bumped exactly if both buffers hold the pixel at four times its number modulo 2^32, and if that pixel changed |
| `ScreenDiff.ScanRow` | src/mcp_server.rs:1630-1641 | A row of a cell bumps the counters once for every pixel number of that row |
| `ScreenDiff.ScanCell` | src/mcp_server.rs:1629-1642 | The two inner loops count the changed and the covered pixels of the cell's rectangle, modulo 2^32 |
| `ScreenDiff.ReportCell` | src/mcp_server.rs:1622-1655 | A cell is reported with its label, rounded share and intensity exactly if it covers pixels and more than 0.5% of them changed |
| `ScreenDiff.GridDiff` | src/mcp_server.rs:1611-1658 | The reports of the nine cells, row by row |
| `ScreenDiff.CellUnique` | src/mcp_server.rs:1625-1628 | Along each axis every coordinate lies in exactly one cell, the last of which absorbs the remainder, for any size down to zero |
| `ScreenDiff.GridPartition` | src/mcp_server.rs:1621-1641 | Four nested loops over nine cells visit each pixel of any image exactly once: for every predicate, what the cells count adds up to what one flat loop counts |
| `ScreenDiff.ScansAgreeExactly` | src/mcp_server.rs:1594-1658 | For every image size, the grid's changed counts add up to the flat scan's count on all pairs of captures of equal length if and only if four times the pixel count is at most 2^32 |
| `ScreenDiff.HiddenPixel` | src/mcp_server.rs:1631-1631 | Past that size there are two images that the flat scan finds different and the grid does not |
| `ScreenDiff.CountersExact` | src/mcp_server.rs:1623-1638 | Up to that size the 32-bit counters of a cell never wrap |
| `ScreenDiff.ReportedExactly` | src/mcp_server.rs:1642-1654 | An area is in the report if and only if more than one in two hundred pixels of its cell changed, and then with its own share |
| `ScreenDiff.DescribeMeaning` | src/mcp_server.rs:1613-1651 | The area of each column and row of the grid; intensity is high exactly above 30% and medium exactly above 5% up to 30% |
| `ScreenDiff.RoundedMeaning` | src/mcp_server.rs:1650-1650 | A share is rounded to a multiple of a tenth, off by at most a twentieth |
| `ScreenDiff.BusiestCell` | src/mcp_server.rs:1594-1658 | Some cell that covers pixels changed at least as much, in proportion, as the whole capture |
| `ScreenDiff.ChangedMeansRegion` | src/mcp_server.rs:3277-3288 | Captures of equal non-zero length that are reported as changed come with a reported region, one whose share is at least the overall share |
| `ScreenDiff.ChangedMeansRegionExactly` | src/mcp_server.rs:3277-3288 | For given lengths, and sizes whose byte offsets fit 32 bits, every pair of captures reported as changed shows a region if and only if the lengths are equal and not zero |
| `ScreenDiff.LargeFramesShowNothing` | src/mcp_server.rs:1631-1632 | Captures that exceed 2^30 pixels by more than half a percent of theirs can be reported as changed without a region, even if their lengths are equal |
| `ScreenDiff.Compare` | src/mcp_server.rs:3277-3288 | The answer combines the rounded overall share, whether it exceeds 0.5%, and the reported regions, from the same two frames |
| `ScreenDiff.ComparisonMeaning` | src/mcp_server.rs:3277-3288 | Captures of different lengths, or two empty ones, are 100% changed; others are reported as changed exactly if more than one in two hundred of the pixel numbers differ, with that share to within a twentieth of a percent |
| `ScreenDiff.DiffTool.ScreenDiffSummary` | src/mcp_server.rs:3246-3292 | References older than a minute are dropped first; without an id a baseline is stored under the fresh id; with one, the call succeeds exactly if the reference is live, the capture works and the dimensions agree, and only then consumes the reference |
| `ScreenCapture.PushRow` | src/mcp_server.rs:1550-1558 | A row appends its pixels in order, leaving out those that the frame does not hold |
| `ScreenCapture.ToRgba` | src/mcp_server.rs:1548-1559 | The conversion is the concatenation of the rows, each read from its stride |
| `ScreenCapture.ConversionShows` | src/mcp_server.rs:1548-1559 | For every stride and size, each pixel (c, r) of the output of a complete frame is the source pixel at stride * r + 4 * c with red and blue swapped, and there is nothing else |
| `ScreenCapture.ShowsExactly` | src/mcp_server.rs:1548-1560 | The converted image shows the whole display if and only if the frame holds all its pixels; otherwise it is too short |
| `ScreenCapture.KeptMeaning` | src/mcp_server.rs:1573-1577 | For every signed region the origin is its own coordinate, or zero if that is negative; an extent that fits is kept as it is, one that overruns or is negative keeps everything up to the far edge; nothing is kept exactly if the extent is zero or the origin lies outside |
| `ScreenCapture.CopyRows` | src/mcp_server.rs:1580-1587 | The cropped buffer is the concatenation of the row slices that lie inside the image |
| `ScreenCapture.Crop` | src/mcp_server.rs:1572-1589 | A crop is an error exactly if nothing is kept, and otherwise has the kept size and the kept rows |
| `ScreenCapture.CropShows` | src/mcp_server.rs:1580-1588 | Cropping an image that shows a region of the display shows that region and nothing else, byte for byte |
| `ScreenCapture.CropExactly` | src/mcp_server.rs:1580-1588 | If source rows do not overlap, a crop of any frame, short or complete, has exactly its size if and only if the frame holds the last pixel of the region, and then shows the region |
| `ScreenCapture.WholeExactly` | src/mcp_server.rs:1548-1560 | The same for the whole display: its last pixel decides |
| `ScreenCapture.CaptureRgba` | src/mcp_server.rs:1546-1592 | Conversion and crop together, for every signed region: an error exactly if the region is empty or starts outside. Otherwise the offset is the region's own, or zero where it is negative, and the size is the region's, or what is left of the display where it overruns or is negative. A complete frame, of any stride, gives exactly width * height * 4 bytes, each the byte of the display at that place; if source rows do not overlap, any frame does so if and only if it holds the last pixel of the region |
| `Workflow.Recorder.StartRecording` | src/mcp_server.rs:3325-3331 | Recording is on and the steps are gone, whatever was recorded before |
| `Workflow.Recorder.StopRecording` | src/mcp_server.rs:3333-3353 | The answer holds every recorded step with its delay to the one before; recording is off and the steps are gone |
| `Workflow.RecordedStep` | src/mcp_server.rs:3337-3348 | A recorded step is answered with its tool, its arguments, the time since the step before, never negative, and its own time |
| `Workflow.Recorder.HandleToolsCall` | src/mcp_server.rs:1164-1226 | Any call changes the recording as its flattening into primitive calls says; a recorded step is stamped with the time since the start at which its call is done; pauses add up to the replay's |
| `Workflow.Recorder.ReplayStep` | src/mcp_server.rs:3360-3383 | A meta tool is skipped without effect; any other step pauses as `PauseMeaning` says, dispatches its call, and is reported under its number with the outcome of that call |
| `Workflow.Recorder.ReplayNext` | src/mcp_server.rs:3360-3384 | After each turn the recording has grown by the flattening of the steps so far, with their pauses between them |
| `Workflow.Recorder.ReplayAll` | src/mcp_server.rs:3360-3384 | The loop replays exactly the steps that are not meta tools, in order, and reports one result for each, under its own number and with its own outcome |
| `Workflow.Recorder.ReplayWorkflow` | src/mcp_server.rs:3355-3388 | A replay is an error exactly if there is no array of steps; otherwise it reports the outcome of every call that its steps flatten to; the mutual recursion with the dispatcher terminates |
| `Workflow.ReadsJson` | src/mcp_server.rs:3357-3363 | A tool that is no string is the empty one, a delay that is no unsigned number is none, and a multiplier that is no number is one |
| `Workflow.MetaTools` | src/mcp_server.rs:3365-3367 | The tools that a replay skips and a recording leaves out |
| `Workflow.ReplayedSteps` | src/mcp_server.rs:3360-3383 | A replay calls, pauses before and reports exactly the steps that are not meta tools, in order, each under its own number and with its own outcome |
| `Workflow.RecordsFlattening` | src/mcp_server.rs:1213-1226 | While recording, any list of calls, replays among them, is recorded as the concatenation of their flattenings |
| `Workflow.FlattenRecorded` | src/mcp_server.rs:3339-3348 | The answer of a stop, replayed, stands for exactly the recorded calls: tools and arguments survive the trip through JSON |
| `Workflow.ReplayRecordsTheSame` | src/mcp_server.rs:3325-3388 | Stopping, starting again and replaying the answer records the same calls at any delay multiplier |
| `Workflow.DelaysSumToTimestamps` | src/mcp_server.rs:3337-3348 | The recorded delays add up to the last timestamp |
| `Workflow.PauseMeaning` | src/mcp_server.rs:3363-3372 | For every multiplier: a step other than the first, with a delay, pauses for the delay times a positive multiplier, cut to whole milliseconds; any other step does not pause |
| `Workflow.ScaledPauses` | src/mcp_server.rs:3369-3372 | For every multiplier a replay of a recording pauses before each step but the first for the recorded gap times the multiplier, cut to whole milliseconds |
| `Workflow.UnitPauses` | src/mcp_server.rs:3369-3372 | At multiplier 1 that is exactly the time since the step before |
| `Workflow.ReplayPausesScaled` | src/mcp_server.rs:3369-3372 | For every positive multiplier the pauses add up to the span of the recording times the multiplier, short of it by at most a millisecond for each step after the first |
| `Workflow.ReplayPausesExactly` | src/mcp_server.rs:3369-3372 | At multiplier 1 the pauses add up to the last timestamp minus the first |
| `Workflow.ReplayIsNotFaster` | src/mcp_server.rs:3360-3384 | In a recording of a replay at any positive multiplier no gap between steps is shorter than the original one times the multiplier by a whole millisecond, and at multiplier 1 none is shorter at all |
| `Workflow.RecordAll` | src/mcp_server.rs:1164-1226 | Start, any calls, stop: what is answered are the flattened calls, in the order of their timestamps |
| `Workflow.Replay` | src/mcp_server.rs:3355-3388 | Replaying a recording while recording adds its calls, with its pauses between them |
| `Workflow.ReplayAfresh` | src/mcp_server.rs:3325-3388 | A replay right after a start records exactly the calls of the recording, with its pauses between them |
| `Workflow.RecordAndReplay` | src/mcp_server.rs:3325-3388 | Record, then record the replay: the same tools and arguments come back and no gap gets shorter |
| `AudioBuffer.ScanHistogram` | src/client.rs:1240-1262 | The scan that clears as it goes returns the leading empty run and the peak of the original histogram, and leaves it all zero |
| `AudioBuffer.LeadingMeaning` | src/client.rs:1244-1247 | The buckets before the first result are empty and the next one is not |
| `AudioBuffer.PeakMeaning` | src/client.rs:1249-1254 | The second result is the first fullest of buckets 1 to 29, and 0 exactly if they are all empty: bucket 0 never wins |
| `AudioBuffer.BucketMeaning` | src/client.rs:1221-1225 | Bucket k counts what lasts k to k + 1 tenths of a second, and the last one all that lasts longer |
| `AudioBuffer.RecordedCounts` | src/client.rs:1221-1225 | Recording counts one occupancy in its bucket and in no other |
| `AudioBuffer.DropsByRule` | src/client.rs:1256-1276 | When and how much is dropped: with z two thirds of the leading empty run and m the lesser of the peak and 4z, the candidate is the greatest even d up to cap * m / 120 + 1; it is dropped exactly if the peak is at 6 or later, it is positive, and it is less than a third of the occupancy |
| `AudioBuffer.PlanBound` | src/client.rs:1256-1272 | In playing time, what the histogram advises to drop is at most two thirds of any occupancy it counted, plus one sample |
| `AudioBuffer.DropBounds` | src/client.rs:1269-1276 | Every drop is even, less than a third of what is buffered, and at most two thirds of the lowest counted occupancy plus one sample |
| `AudioBuffer.AllWithin` | src/client.rs:1269-1276 | These bounds hold for all occupancies recorded since the histogram was last cleared |
| `AudioBuffer.PassesApartExactly` | src/client.rs:1227-1238 | Two passes of the gate are at least 12000 ms apart on every run of a clock, however it jumps, if and only if the clock never reads -12000 or less |
| `AudioBuffer.DropsApartExactly` | src/client.rs:1217-1277 | Drops by any buffers that share the gate, under every interleaving of their operations, are at least 12000 ms apart if and only if the clock never reads -12000 or less |
| `AudioBuffer.TwoDrops` | src/client.rs:1228-1237 | A pass at zero is taken for not yet started: a run in which a buffer drops at 0 and again at 11999 |
| `AudioBuffer.ResizedSound` | src/client.rs:1207-1215 | Capacity stays three times the rate through every resize, whether or not the buffer is replaced, so the rate is the one asked for |
| `AudioBuffer.AudioBuffer.constructor` | src/client.rs:1193-1203 | The default buffer holds three seconds of 48 kHz stereo and is empty |
| `AudioBuffer.AudioBuffer.Resize` | src/client.rs:1207-1215 | A device that needs another capacity gets an empty buffer of three seconds at its rate; otherwise nothing changes |
| `AudioBuffer.AudioBuffer.Record` | src/client.rs:1221-1225 | One more occupancy is counted, in tenths of a second, the last bucket taking the rest |
| `AudioBuffer.AudioBuffer.Drop` | src/client.rs:1240-1277 | The histogram is cleared and exactly the drop of `DropsByRule` is taken off the old end, by the leading run and the peak of the histogram as it was |
| `AudioBuffer.AudioBuffer.TryShrink` | src/client.rs:1217-1277 | Once the gate is 12000 ms old exactly the drop of `DropsByRule` is taken and the histogram cleared; before that one occupancy is counted and nothing is dropped. What is dropped is even, less than a third of what is buffered, and at most two thirds of every recorded occupancy, in playing time, plus one sample |
| `AudioBuffer.AudioBuffer.AppendPcm2` | src/client.rs:1282-1296 | An append leaves exactly the newest capacity-many samples of old followed by new, and returns the occupancy |
| `AudioBuffer.AppendedMeaning` | src/client.rs:1282-1296 | Appending loses nothing while there is room, and otherwise exactly the oldest samples that do not fit |
| `AudioBuffer.AudioBuffer.AppendPcm` | src/client.rs:1301-1304 | An append followed by a shrink with the occupancy it returned: the new gate time, the recorded occupancies, and a drop only when the gate passes and within the bounds for all of them |
| `AudioBuffer.AudioBuffer.Playback` | src/client.rs:1474-1515 | The output is the oldest samples, as many as there are up to the number asked for, then silence; those samples leave the buffer and the others stay |
| `AudioBuffer.StepKeeps` | src/client.rs:1207-1304 | Every append, shrink, resize and callback keeps the buffer the newest part of what was appended, and what was played in order |
| `AudioBuffer.RunInOrder` | src/client.rs:1207-1304 | Under every interleaving occupancy stays within capacity, and what was played followed by what is buffered is an in-order subsequence of what was appended |
| `AudioBuffer.RunAligned` | src/client.rs:1207-1304 | If no stereo device of the set comes with the mono device of twice its rate, every run that appends and plays whole frames keeps whole frames of the current device in the buffer, through every change of device |
| `AudioBuffer.AlignedExactly` | src/client.rs:1207-1215 | The buffer holds whole frames of the current device in all such runs, with mono and stereo devices from a set, if and only if the set has no stereo device together with the mono device of twice its rate |
| `Keyboard.Grab.Dispatch` | src/keyboard.rs:109-118 | One event updates both indexes, keeping the event itself, and sends the code of its position, unless it repeats a held modifier |
| `Keyboard.Grab.ProcessEvent` | src/keyboard.rs:109-118 | An event between calls keeps the two indexes in agreement, and with one code per key what is held among the stored codes |
| `Keyboard.EventSends` | src/keyboard.rs:551-588 | After any run, an event sends its code, up or down, exactly if its position has one and it is not the repeated press of a modifier that is down |
| `Keyboard.StoredIsDown` | src/keyboard.rs:569-588 | After any run a key is stored for release exactly if its last event was a press |
| `Keyboard.ProcessAgrees` | src/keyboard.rs:551-588 | After any event a modifier flag is set exactly if the key is to be released, and what is stored for a key is a press of it |
| `Keyboard.RunAgrees` | src/keyboard.rs:369-382 | So it is over every sequence of events, whatever positions the keys have |
| `Keyboard.ProcessWithin` | src/keyboard.rs:569-620 | If all positions of a key share one code, the remote side keeps holding only codes of keys to release |
| `Keyboard.NothingElseExactly` | src/keyboard.rs:569-588 | The remote side holds no code but those of the stored events, in every run of strokes from a set, if and only if all positions of a key in the set have the same code or none |
| `Keyboard.StaysHeld` | src/keyboard.rs:578-586 | A key pressed at one position and released at another, with another code, stays held with nothing to release |
| `Keyboard.SharedCodeLosesKey` | src/keyboard.rs:889-967 | Two keys with one code: pressing both and releasing one loses the other |
| `Keyboard.ExactExactly` | src/keyboard.rs:889-967 | The remote side holds exactly the codes of the stored events, in every run of strokes from a set, if and only if all positions of a key share one code and no two keys do |
| `Keyboard.ReleaseKeyProgress` | src/keyboard.rs:388-399 | Releasing one stored press, with the extra strokes of Alt and AltGr, leaves only the modifiers still to come marked down, and with one code per key only their codes held |
| `Keyboard.ReleaseKeySends` | src/keyboard.rs:388-399 | Releasing a key with a code sends its code up, and for Alt and AltGr its code up, down and up; a key without a code sends nothing |
| `Keyboard.ReleaseSends` | src/keyboard.rs:384-400 | After any run and in any order, a release of all keys appends these messages, key by key in that order |
| `Keyboard.ReleaseProgress` | src/keyboard.rs:388-399 | So it is part way through a release in any order |
| `Keyboard.ReleaseCleans` | src/keyboard.rs:384-400 | After any events a release, in any iteration order, leaves nothing to release and every modifier up; and no code held, if all positions of a key share one code |
| `Keyboard.CleansExactly` | src/keyboard.rs:384-400 | Every run of strokes from a set, followed by a release in any order, leaves no code held if and only if all positions of a key in the set have the same code or none |
| `Keyboard.EnterStaysHeld` | libs/rdev/src/keycodes/windows.rs:126-191 | Both Enter keys of Windows are one key with two positions: after both are pressed a release leaves the first held, and if the second is let go there is nothing left to release |
| `Keyboard.Grab.ReleaseOne` | src/keyboard.rs:389-398 | One key is released as `ReleaseKeySends` says: Alt and AltGr are struck once more |
| `Keyboard.Grab.ReleaseAll` | src/keyboard.rs:384-400 | In whatever order the map is visited, all keys are released and their messages sent in that order; both indexes are empty afterwards, and with one code per key nothing is held remotely |
| `LanDiscovery.MarkOffline` | src/lan.rs:306-309 | Every stored peer is marked offline and otherwise kept |
| `LanDiscovery.ReceiveOne` | src/lan.rs:316-325 | A response removes the first entry of the same peer, merges its addresses if the id was seen this round, and goes to the front |
| `LanDiscovery.HandleReceivedPeers` | src/lan.rs:305-344 | The file ends up with the list of the specification; on the way it is written exactly when and with what `WrittenMeaning` says, and once more at the end |
| `LanDiscovery.WrittenMeaning` | src/lan.rs:326-340 | During the round the file is written after the first response, and after each write next after the first response more than 300 ms later; each time with the list as it is then |
| `LanDiscovery.RemoveIsWithout` | src/lan.rs:318-319 | Removing the first match is removing the peer |
| `LanDiscovery.ReceiveRefines` | src/lan.rs:316-325 | One turn of the loop does to the list what one more response does to the specification |
| `LanDiscovery.LoopRefines` | src/lan.rs:305-344 | For every stored list and responses the final list is the entries of the responders, most recent first, followed by the unanswered stored peers |
| `LanDiscovery.RecentFirstMeaning` | src/lan.rs:316-325 | The responders are listed once each, and exactly they |
| `LanDiscovery.MostRecentFirst` | src/lan.rs:325-325 | A responder comes before another exactly because its last response is later |
| `LanDiscovery.FinalOrder` | src/lan.rs:305-344 | No peer is listed twice; the responders come first, then the unanswered peers |
| `LanDiscovery.OldOrder` | src/lan.rs:306-325 | After the responders the list has exactly the stored peers that did not answer, offline and in their old order |
| `LanDiscovery.DistinctExactly` | src/lan.rs:316-325 | No peer is listed twice at the end if and only if none was stored twice |
| `LanDiscovery.RoundsDistinct` | src/lan.rs:305-344 | Over any number of rounds from an empty file no peer is stored twice |
| `LanDiscovery.FinalPeers` | src/lan.rs:306-325 | A peer is online at the end exactly if it answered, with what it last said of itself; the others are as stored, offline |
| `LanDiscovery.EntryOnline` | src/lan.rs:316-325 | A responder is listed as online exactly if its last answer says so, if it answered more than once, or if it was stored and its id had been answered before it first did |
| `LanDiscovery.SamePeer` | src/lan.rs:318-318 | Two entries are the same peer exactly if both id and user name agree |
| `LanDiscovery.ListedAddresses` | src/lan.rs:317-323 | With which addresses a responder is listed in the end: those of this round, and over them the stored ones of its entry if its id had been answered, under another user name, when it first answered |
| `LanDiscovery.FinalAddresses` | src/lan.rs:320-323 | Every responder is listed with every address it answered from this round |
| `LanDiscovery.OnlyThisRoundExactly` | src/lan.rs:317-323 | Whatever was stored, a responder is listed with just the addresses of this round if and only if its id had not been answered, under another user name, when it first answered |
| `LanDiscovery.OneUserOnly` | src/lan.rs:317-323 | In particular if the id always comes with one user name |
| `LanDiscovery.StaleAddressKept` | src/lan.rs:317-323 | Two users of one machine: the second to answer is listed with an address of an earlier round |
| `LoginProvenance.LoginConfigHandler.constructor` | src/client.rs:1825-1877 | A session starts with the saved password remembered and with the password and source of its token; it is valid exactly if the salts to come make no difference to the shared passwords it may use, a token that outlives the first message is honest, and no unsaved shared password goes into a switch of sides |
| `LoginProvenance.LoginConfigHandler.HandleHashMessage` | src/client.rs:3378-3439 | The sources are tried in order; afterwards there is no password exactly if no source has one, or if sides are switched and there was none; nothing is saved, and a valid state stays valid |
| `LoginProvenance.LoginConfigHandler.HandleLoginError` | src/client.rs:3317-3331 | After a wrong or missing password there is none to hand on and the user may try again; any other error changes nothing; a valid state stays valid |
| `LoginProvenance.LoginConfigHandler.HandleLoginFromUi` | src/client.rs:3544-3562 | A typed password is never taken for a shared one and sets whether to remember it; without one the wish to remember and a password that is there stay; nothing is saved and a valid state stays valid |
| `LoginProvenance.LoginConfigHandler.HandlePeerInfoMessage` | src/client.rs:2506-2531 | A valid handler never saves a shared password: with remember the saved password becomes the current one unless there is none or it is shared, without it that of the personal address book or none; the configuration in memory is what was saved |
| `LoginProvenance.LoginConfigHandler.GetConnToken` | src/client.rs:2749-2759 | A token is handed on exactly if there is a password, and a valid session hands on an honest one, as a valid session needs to start |
| `LoginProvenance.NoSource` | src/client.rs:3390-3439 | After a hash message there is no password if and only if no source has one |
| `LoginProvenance.HashSound` | src/client.rs:3378-3439 | When the salts make no difference to the shared passwords to come, a hash message leaves a source that describes the password, the first one whatever salt the token was issued under |
| `LoginProvenance.HashDoes` | src/client.rs:3378-3439 | What a hash message does to the password, by the state before: a session's shared password replaces any other, a password from before stays, and otherwise a shared one can only be the built-in one, without a preset; nothing is saved |
| `LoginProvenance.SourceWins` | src/client.rs:3390-3439 | Which password is used when several sources have one: the shared password of the session, the one that is there, the preset, the saved one, the personal address book, the built-in default; with its source and its hash |
| `LoginProvenance.SwitchKeeps` | src/client.rs:3382-3388 | A session that switches sides keeps its password and forgets only where it is from |
| `LoginProvenance.StepKeeps` | src/client.rs:3315-3439 | Every message and user login, in any order, keeps the description right and a safe state safe, and after the first message writes no shared password from a safe state |
| `LoginProvenance.RunKeeps` | src/client.rs:3371-3439 | So does every run that begins with a message of the peer |
| `LoginProvenance.SourceDescribesPassword` | src/client.rs:1675-1706 | With a fixed preset and built-in default, the recorded source describes the current password after every run with salts from a set if and only if the salts make no difference to the shared passwords that the session may use: the built-in one without a preset, the session's own, and the token's if it outlives the first message |
| `LoginProvenance.SharedNeverSaved` | src/client.rs:2512-2531 | With a fixed preset and built-in default, a password of shared origin is never written to the peer config, over all runs with salts from a set, if and only if the session does not switch sides with an unsaved shared password in its token, and the salts make no difference to the shared passwords that it may use while something is to be remembered |
| `LoginProvenance.NoSharedPassword` | src/client.rs:2512-2531 | A session without a built-in default, a shared password or a shared token never saves a shared password, whatever the salts |
| `LoginProvenance.RunGuarded` | src/client.rs:2512-2531 | Under that condition every run keeps a current shared password unsaved, whatever salt comes next |
| `LoginProvenance.BuiltinLeaks` | src/client.rs:3427-3437 | Without a preset, two salts that make a difference to the built-in password allow a run that saves it |
| `LoginProvenance.SharedLeaks` | src/client.rs:3405-3415 | So do they for the session's shared password, if a password is saved or sides are switched |
| `LoginProvenance.TokenLeaks` | src/client.rs:1845-1848 | And for the token's, if it outlives the first message and another password is saved |
| `LoginProvenance.SwitchLeaks` | src/client.rs:3382-3388 | Switching sides with an unsaved shared password in the token saves it, with one salt |
| `LoginProvenance.OneSalt` | src/client.rs:1698-1705 | For a hash without collisions, salts make no difference if and only if there is at most one |
| `LoginProvenance.RememberOff` | src/client.rs:2522-2531 | After any run at all, a login without remember leaves the saved password empty, unless it is the one of the personal address book |
| `LoginProvenance.TypedPassword` | src/client.rs:3544-3562 | A typed password ends up saved exactly as the user asked |
| `PortableMetadata.LengthRoundTrip` | libs/portable/generate.py:47-51 | Four bytes, most significant first, give the length back |
| `PortableMetadata.WriteEntry` | libs/portable/generate.py:47-54 | An entry is written as path length, path, data length, data and digest |
| `PortableMetadata.EntryLayout` | libs/portable/generate.py:45-54 | Where each field of an entry stands: path length, path, data length, data, digest |
| `PortableMetadata.MagicSpells` | libs/portable/generate.py:41-41 | The marker is hoptodesk |
| `PortableMetadata.WriteMetadata` | libs/portable/generate.py:38-58 | Writing fails exactly if a length does not fit in four bytes, and otherwise gives marker, entries, marker, executable path |
| `PortableMetadata.BinaryReaderRead` | libs/portable/src/bin_reader.rs:71-122 | The reader's loop over positions parses entries up to the marker, and panics exactly where the specification has nothing to read |
| `PortableMetadata.ReadEntry` | libs/portable/src/bin_reader.rs:86-117 | One turn reads an entry by offsets: exactly the entry of the specification at that place, or a panic where it has none |
| `PortableMetadata.ReadCounted` | libs/portable/src/bin_reader.rs:88-98 | A field is its big-endian length and that many bytes after it, or a panic |
| `PortableMetadata.EntryRoundTrip` | libs/portable/src/bin_reader.rs:86-117 | An entry is read back from its bytes whatever follows it |
| `PortableMetadata.LookalikeBytes` | libs/portable/src/bin_reader.rs:81-82 | The bytes of an entry start with the marker if and only if its path length is the value of hopt and its path starts with odesk |
| `PortableMetadata.ReadsBack` | libs/portable/src/bin_reader.rs:80-118 | Either all entries are read back, or reading stops early at the first look-alike |
| `PortableMetadata.RoundTripExactly` | libs/portable/src/bin_reader.rs:71-122 | What was written is read back if and only if the reader's marker width is nine and no entry looks like the marker |
| `PortableMetadata.UniquelyDecodable` | libs/portable/generate.py:38-58 | Two packages without look-alikes that are written alike are the same |
| `PortableMetadata.ShippedReaderRejectsAll` | libs/portable/src/bin_reader.rs:13-77 | With the width of eight that the reader declares it rejects every file |
| `ClipboardEcho.ClipboardContext.GetFormatsFilter` | src/clipboard.rs:319-348 | Marked content yields nothing unless forced; otherwise the mark and empty texts are left out |
| `ClipboardEcho.FilterMeaning` | src/clipboard.rs:338-347 | What is synchronised are all entries but empty texts and the owner's format, in order |
| `ClipboardEcho.MarkMeaning` | src/clipboard.rs:331-333 | An entry names an owner exactly if it has the owner's format and its first byte has one of its two low bits set |
| `ClipboardEcho.SendMeaning` | src/clipboard.rs:61-68 | Something is sent exactly if some entry is neither an empty text nor the owner's and, unless forced, no entry names an owner |
| `ClipboardEcho.UpdateMeaning` | src/clipboard.rs:208-232 | Received content is followed by a mark that names the side it arrived on; empty content changes nothing |
| `ClipboardEcho.ClipboardContext.CheckClipboard` | src/clipboard.rs:52-76 | A message is sent, and cached, exactly if something is left to synchronise |
| `ClipboardEcho.ClipboardContext.UpdateClipboard` | src/clipboard.rs:200-232 | Received content is put on the clipboard and what is there then is never sent unless forced; empty content changes nothing |
| `ClipboardEcho.ContentIsOwn` | src/clipboard.rs:208-232 | In every run what a machine could send was copied by its own user |
| `ClipboardEcho.NothingEchoed` | src/clipboard.rs:52-76 | In every run, whatever the conversion does to content, every message a machine ever sent is an unmarked copy by its own user |
| `ClipboardEcho.NoPingPong` | src/clipboard.rs:52-76 | A machine whose user copies nothing never sends, however often its listener fires |
| `ClipboardEcho.StaysQuiet` | src/clipboard.rs:330-338 | A machine with unsendable content sends nothing until its own user copies |
| `ClipboardEcho.QuietAfterDelivery` | src/clipboard.rs:208-232 | Between a delivery and the next copy of its own user a machine sends nothing, in every run |
| `ClipboardEcho.CopyIsSent` | src/clipboard.rs:61-68 | A user's copy does arrive: its filtered content is sent when the listener fires |
| `VirtualDisplays.JoinSplit` | src/flutter.rs:1887-1901 | Joining what was split gives the string back, and no part has a comma |
| `VirtualDisplays.SplitJoin` | src/flutter.rs:1887-1901 | Splitting what was joined gives the parts back, if there is one and none has a comma |
| `VirtualDisplays.JoinMeaning` | src/flutter.rs:1897-1902 | Parts are joined by single commas |
| `VirtualDisplays.DecimalMeaning` | src/flutter.rs:1893-1913 | An index is written in base ten: digits without a leading zero that read back as it, after a minus sign if it is negative |
| `VirtualDisplays.DecimalInjective` | src/flutter.rs:1893-1913 | Different indexes are written differently |
| `VirtualDisplays.Session.UpdateVirtualDisplay` | src/flutter.rs:1878-1924 | The option is split, edited and joined, and stored only if its length changed; the result is that of one toggle |
| `VirtualDisplays.ToggleRefines` | src/flutter.rs:1878-1924 | Across split and join every toggle of the string is a toggle of the list it stands for |
| `VirtualDisplays.RunRefines` | src/flutter.rs:1878-1924 | From the empty string, which splits into one empty part, every run stores the list that the list operations give |
| `VirtualDisplays.RunOnceEach` | src/flutter.rs:1910-1916 | In every run each index but 0 is listed at most once |
| `VirtualDisplays.OffRemoves` | src/flutter.rs:1893-1895 | So turning an index off removes it, whatever came before |
| `VirtualDisplays.OnThenOff` | src/flutter.rs:1881-1916 | Turning on an absent index other than 0 and off again restores the exact string if and only if the index is not -1, which clears the list, or the string was empty |
| `VirtualDisplays.PushThenPop` | src/flutter.rs:1889-1911 | Index 0 pushes an entry and pops the last one, restoring the exact string |
| `SessionRegistry.OwnerUnique` | src/flutter.rs:1968-1982 | The registry determines the peer session that each UI session belongs to |
| `SessionRegistry.ConsistentMeans` | src/flutter.rs:1968-2008 | No UI session belongs to two peer sessions, and no peer session is registered without one |
| `SessionRegistry.HandlersMeaning` | src/flutter.rs:1990-2137 | Inserting stores a handler without displays, attaching one with the displays given, removing drops one; the handler of every other UI session of every peer session stays |
| `SessionRegistry.InsertOwned` | src/flutter.rs:2092-2103 | Inserting a UI session that is not known keeps the registry consistent |
| `SessionRegistry.AttachOwned` | src/flutter.rs:2106-2137 | Attaching a fresh UI session to a registered peer session keeps the registry consistent |
| `SessionRegistry.AttachExactly` | src/flutter.rs:2106-2137 | Attaching keeps the registry consistent if and only if the UI session does not already belong to another peer session |
| `SessionRegistry.RemoveOwned` | src/flutter.rs:1990-2008 | Removing a UI session forgets it alone, and its peer session exactly if it was the last |
| `SessionRegistry.StepExactly` | src/flutter.rs:1968-2137 | Of add, attach and remove, one step keeps a consistent registry consistent if and only if it is not an attach that takes a UI session from another peer session |
| `SessionRegistry.RunExactly` | src/flutter.rs:1968-2137 | The registry is consistent throughout a run from empty if and only if every attach in it is fresh when it is made |
| `SessionRegistry.AttachesExactly` | src/flutter.rs:1157-1170 | Beside arbitrary adds and removes every run with attaches from a set is consistent if and only if the set is empty, so freshness cannot be replaced by a fixed set of pairs |
| `SessionRegistry.Registry.GetSessionBySessionId` | src/flutter.rs:1969-1982 | The search, in any order, finds the one peer session that owns the id |
| `SessionRegistry.Registry.SessionAdd` | src/flutter.rs:1180-1260 | Adding is refused exactly if the UI session is known, and otherwise registers it under its peer and connection type |
| `SessionRegistry.Registry.InsertPeerSessionId` | src/flutter.rs:2106-2137 | Attaching succeeds exactly if the peer session is registered, and leaves the registry valid exactly if the id was not another's |
| `SessionRegistry.Registry.RemoveSessionBySessionId` | src/flutter.rs:1990-2008 | Removing takes out the id's handler and no other, and returns the peer session exactly when its last UI session goes |
| `StringColor.WrappingStep` | src/common.rs:1441-1441 | Despite wrapping shift, subtraction and addition one step multiplies by 31 and adds the byte, modulo 2^32 |
| `StringColor.SumOfPrefix` | src/common.rs:1439-1442 | One more byte multiplies every term of the sum by 31 |
| `StringColor.HornerIsSum` | src/common.rs:1439-1442 | The byte-by-byte polynomial is the sum of byte i times 31^(n - 1 - i) |
| `StringColor.Bits` | src/common.rs:1445-1445 | The mask clears bit 15 and leaves the bits below and above it |
| `StringColor.Str2Color` | src/common.rs:1435-1448 | For every string the colour is that sum modulo 2^24 under the alpha byte: bit 15 is clear, and bits 0 to 14 and 16 to 23 are those of the sum |
| `ThrottledTicks.ThrottledInterval.constructor` | src/common.rs:1285-1292 | The minimal interval is nine tenths of the period, and the first tick may come at once |
| `ThrottledTicks.ThrottledInterval.PollTick` | src/common.rs:1299-1314 | An inner tick passes exactly if the next tick is due, which moves it a minimal interval on; a tick held back asks to be polled again |
| `ThrottledTicks.ThrottledInterval.PollAll` | src/common.rs:1299-1314 | Poll by poll this gives the ticks of the specification |
| `ThrottledTicks.TicksAreInnerTicks` | src/common.rs:1299-1314 | The ticks are inner ticks, in order, each a minimal interval after the one before |
| `ThrottledTicks.TicksApart` | src/common.rs:1299-1314 | k ticks in a window of length L satisfy (k - 1) * minInterval <= L, however the clock behaves |
| `ThrottledTicks.DroppedExactly` | src/common.rs:1303-1309 | An inner tick is dropped exactly if it comes within a minimal interval of the last one passed on, or before the start |
| `PercentDecode.PercentDecodePath` | src/dashboard.rs:338-357 | The loop decodes as the recursive specification does, and never reads out of range |
| `PercentDecode.HexDigits` | src/dashboard.rs:344-347 | The hexadecimal digits and their values, in both cases |
| `PercentDecode.EscapeMeaning` | src/dashboard.rs:343-349 | An escape is a percent sign and two hexadecimal digits, or a plus sign and one, and stands for their value |
| `PercentDecode.DecodeInvertsEncoding` | src/dashboard.rs:338-357 | Decoding inverts every encoding by section 2.1 of RFC 3986 of every byte sequence, in either case of the digits |
| `PercentDecode.DecodedLength` | src/dashboard.rs:342-355 | Decoding takes two bytes off for every escape, so it never lengthens |
| `PercentDecode.UnchangedExactly` | src/dashboard.rs:343-354 | Input passes through byte for byte if and only if it has no complete escape; malformed and truncated ones are left alone |
| `PercentDecode.FollowsRfcExactly` | src/dashboard.rs:344-347 | The decoder does what the RFC says if and only if no escape has a plus sign for its first digit |
| `PortForward.PortForwarder.ConnectAndLogin` | src/port_forward.rs:122-184 | The login loop runs until it is accepted, refused or cut off, keeping local bytes in its buffer and sending them at the handover |
| `PortForward.PortForwarder.RunForward` | src/port_forward.rs:187-210 | The forwarding loop passes chunks both ways until one side ends |
| `PortForward.LoginPhase` | src/port_forward.rs:128-184 | What each event of the login phase does: only an accepted login starts forwarding, handing over the buffered bytes; a final refusal, a malformed message or the end of either side closes; a challenge, a delay test and a user's login are answered; local bytes are kept in order |
| `PortForward.ForwardPhase` | src/port_forward.rs:187-210 | What each event of the forwarding phase does: bytes pass to the other side, and only the end of a side closes |
| `PortForward.RawOnlyAfterLogin` | src/port_forward.rs:123-183 | In every run nothing raw is sent before the login is accepted, and nothing but raw bytes after |
| `PortForward.UpstreamConserved` | src/port_forward.rs:171-195 | Every local byte was given to the peer, waits in the login buffer, or was lost in a failed send; they arrive whole and in order if and only if none was lost |
| `PortForward.DownstreamConserved` | src/port_forward.rs:200-206 | The same for the bytes of the peer |
| `PortForward.RelaysInOrder` | src/port_forward.rs:122-210 | With successful sends the peer has been given a prefix of the local bytes, across the handover, and all of them while forwarding; the local side exactly the peer's bytes |

## Left out

- Sockets, IPC, the file system, the operating system's capture, clipboard and keyboard interfaces: what
  they return is an input, what they are given is part of the state.
- Rounding of floating point: percentages, delay multipliers and times are exact numbers.
- ScreenCapture.CaptureRgba: the retry loop around the capture and its errors are not part of this model.
- ScreenDiff.DiffTool.ScreenDiffSummary: the JSON text and the wording of errors are not modelled; the
  32-bit offsets wrap as they do without overflow checks.
- ScreenDiff.ChangedMeansRegionExactly: images of more than 2^30 pixels, whose offsets wrap, are left out;
  `LargeFramesShowNothing` says what goes wrong with larger captures of them, but not with shorter ones.
- ScreenCapture.CropExactly: a frame whose rows overlap, with a stride below four times the width, is covered
  only if it is complete.
- Workflow.Recorder.HandleToolsCall: the tools that act on the desktop take some time and succeed or fail;
  a JSON object is the fields this code reads, and an unknown tool is one of those that fail.
- Workflow.Recorder.ReplayWorkflow: counters of milliseconds are unbounded, so the saturation of a huge
  delay at 2^64 does not occur; lock errors do not occur.
- AudioBuffer.RunInOrder: each lock section is one event, so an append and its shrink are two; the sleep
  of the callback is the time between two events; resampling and rechannelling are not part of this model.
- AudioBuffer.AlignedExactly: for devices of more than two channels drops need not be whole frames, so nothing
  is claimed.
- The ring buffer is foreign; the class Ring gives it the contract of a bounded queue.
- Keyboard.RunAgrees: only map mode; a position is whichever code of the event the tables of the operating
  system start from, and lock-key modifiers, which accompany every key event, are not modelled. Legacy and
  translate mode are not part of this model.
- LanDiscovery.HandleReceivedPeers: a response is handled, and the file written, at one instant of the clock.
- LoginProvenance.LoginConfigHandler.HandleHashMessage: SHA-256 is any function whose results are not
  empty; the preset and the built-in default password are fixed for a session, and what the address book
  has is an input; the second hash of the login message and operating system credentials are not modelled.
- LoginProvenance.SharedNeverSaved: forgetting the saved password by hand during a session
  (src/ui_interface.rs:289) is no event of the model.
- PortableMetadata.WriteMetadata: the partial file that an error leaves behind, decompression and digest
  checks are not modelled; paths are bytes.
- ClipboardEcho.NothingEchoed: for sends that are not forced; conversion to and from protocol messages is
  an arbitrary function; file URLs and failures of the clipboard are not modelled.
- SessionRegistry.Registry.RemoveSessionBySessionId: each function is one atomic step; displays are stored,
  as natural numbers (a negative one wraps in the source), but renderers are not modelled.
- StringColor.Str2Color: shift and mask are written as multiplication, remainder and subtraction.
- ThrottledTicks.ThrottledInterval.PollTick: what the inner interval answers is an input.
- PercentDecode.PercentDecodePath: the final conversion of the bytes to text replaces invalid UTF-8; the
  model stops before it.
- PortForward.PortForwarder.ConnectAndLogin: a hash challenge, a delay test and a user's login are taken
  to send one protocol message each; what they say is not modelled.
- Option toggles, message constructors, connection set-up and the key exchange: easy or foreign.
- The ownership protocol of the privacy modes: its implementations are not part of this model.
