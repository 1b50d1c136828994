# Mari Paint: verified models

Mari Paint is a tile-canvas paint engine with an append-only evidence log for strokes and an agent interface
on top. This project models the parts of it in which state, arithmetic and order of events are hardest to get
right, and proves what those parts are for. `dafny verify dfyconfig.toml` checks everything.

## What is modelled

| part | files | main results |
|---|---|---|
| Selection mask | `Distance`, `EvenOdd`, `Polygon`, `Selection`, `SelectionMaking` | the sparse mask equals a dense canvas function under every operation; masks combine as sets; exact distance transform; a lasso covers the length of the even-odd interior; exact disk growth |
| Evidence log | `Bytes`, `Crc`, `CrcExample`, `Frame`, `Journal`, `JournalWriter`, `WireFormat` | recovery after a cut at any byte; one wrong byte is always noticed; what stands where in the bytes |
| Channel and publisher | `PipeSink`, `Delivery`, `Origin`, `Publisher`, `Channel` | over every run of publishing, partial writes, broken connections and resumption: consecutive frames per connection, everything delivered by one pump; resumption safe exactly under truthful greetings, and then no holes; the exact account of what was sent |
| Proof counts | `ProofLog`, `Recorder` | file, publisher and tally agree per origin; totals are conserved |
| Layer tree | `Forest`, `LayerTree`, `Circles` | index, parents and child lists describe one finite forest after every operation; exactly when a reattachment ties the parents into a circle |
| Snapshots | `Snapshot`, `Restore`, `SnapshotDiff` | the exact condition under which restoring gives back the recorded tree, and that removing a layer with all it holds is undone; no visible difference is missed; recordings of one tree are identical |
| Pictures | `Blend`, `Compositor` | what painting and erasing give, byte by byte; repainting dirty tiles equals repainting everything; no shortcut is visible |
| JSON | `Json`, `JsonParser`, `JsonRoundTrip`, `JsonEscapes` | printing and parsing undo each other; every way to write a character is read as its UTF-8 form |
| Hashes | `Sha256`, `Sha256Standard`, `Sha256Example`, `CanvasHash`, `Image` | streaming equals the definition in FIPS 180-4, whose functions, constants and example are checked; hashed bytes and visible pixels determine each other |
| Tiles and undo | `Tiles`, `Undo` | shared buffers behave like deep copies; undo and redo walk the recorded states; exactly when the limit holds |
| Events | `Events` | nothing is lost uncounted in any interleaving; over serialised fires every number is accounted for, in order |

Classes of the original are classes here, with their fields and methods; loops are loops. Each method is specified
by functions on values, and what the design promises is proved of those functions and of the invariants.

Conventions. Channel values and distances are real numbers. Coordinates are unbounded integers; where the window
arithmetic of `expand` could leave 32 bits it carries that bound as a precondition. A file is a sequence of bytes that
may stop taking more at any point. What the kernel does with each call, and what becomes of each greeting, is a script
(`PipeSink.Kernel`) about which nothing is assumed: any prefix may be taken, any connection break. A lock is an atomic
step: a run of the event hub is any sequence of the steps `Begin`, `TellNext`, `OfferNext`, `Wake`, `Landed` and
`BeginStop`. Layers and undo documents are kept in maps by number instead of by address. How two colours mix in a
blend mode is a parameter of the compositor. Bytes 57 to 59 of a frame are written as zero and ignored on reading.

## Where the code differs from what one would expect

* `published == sent + spooled` holds exactly while no peer has asked for a frame it was already sent: resent frames
  are counted again. With the frames rolled back added on the left it always holds
  (`Publisher.SiganPublisher.StatsBalance`). A pump keeps the equality iff it hears no request for a number between 1
  and the last one sent (`Channel.PumpBalance`). It breaks with a peer that tells the truth: a frame the sink took and
  never got onto the wire is sent again (`Channel.AskedAgain`).
* A peer whose greeting is lost, or that answers 0, is sent everything after the last frame handed to the old
  connection, also if the tail of that connection never arrived. `Publisher.TruthfulPeer` says for every greeting
  whether sending goes on safely, `Channel.RunChannel` that a run is safe iff every greeting heard in it was so, and
  `Delivery.HoleAfterBadResume` that the others leave a hole. Asking for everything each time is safe as long as no
  greeting is lost without the connection (`Channel.AskingForAll`).
* The counts of the proof log and those of the publisher agree exactly when every stroke in the journal starts with a
  Down frame (`ProofLog.LogAgrees`); the recorder's own calls guarantee it (`Recorder.RunSession`).
* A selection can be everything without `isAll` noticing (`SelectionMaking.HalvesUnited`).
* The escape of a surrogate that stands alone is accepted, and gives a string that is no UTF-8 text
  (`JsonEscapes.LoneSurrogate`).
* Values nested more than 64 deep can be printed but not parsed back (`JsonRoundTrip.RoundTrip`).
* Reattaching a removed group brings back whatever its child lists still name. Restoring therefore gives back the
  recorded tree if and only if each layer that has to be reattached names a tree of recorded layers none of which is
  attached by then (`Restore.RestoreSnapshot`, `Restore.Restorable`). That holds for a layer removed with all it holds
  (`Restore.RemovalUndone`) and while all groups are attached (`Restore.AttachedGroupsRestorable`); it fails when a
  recorded group was given a newer layer and removed (`Restore.RemovedGroupRevivesNewer`,
  `Restore.DetachedNotRestorable`). If something the group names is attached elsewhere, a layer ends up on two lists
  (`Layers.LayerTree.Reattach`, `Forest.HungBreaks`). The original goes on with the remaining layers; the model stops
  there. None of the moves, reattachments and settings that can follow makes the tree the recorded one, or any forest
  again (`Restore.NeverRepaired`). The original may also never return: if what the layer names is at or above the place
  where it is hung up, and only then, the parents run in a circle (`Circles.HungCircle`), and the walk of `isDescendant`
  before the next move need not end. Record a group, a group in it and a raster in that; move the inner group to the
  root and the outer one below it, remove the inner one and restore (`Circles.TieKnot`).
* Lowering the undo limit leaves the redo list alone. The limit then holds over every run of undoing and redoing iff
  what can be undone and redone together fits it (`Undo.RunSteps`, `Undo.RedoAll`); two commands undone, a limit of
  one and two redos pass it (`Undo.LimitPassed`). The next push restores it (`Undo.UndoStack.Push`).
* Comparing snapshots by buffer address counts a tile that was rewritten with its own pixels
  (`SnapshotDiff.SamePixelsCounted`).
* The guard `k < 0` of the distance transform is dead for finite floats (`Distance.FiniteNeverFalls`). For larger
  real inputs it can fire (`Distance.LargeFallOff`), and the result is exact even then (`Distance.Distance1D`).

## Model

| member | source | states |
|---|---|---|
| Distance.MeetOrders | core/src/selection.cpp:81-81 | The crossing of two parabolas splits the line: before it the earlier one is lower or equal, after it the later one |
| Distance.PopPieces | core/src/selection.cpp:79-90 | The popping loop keeps a lower envelope of the samples seen and stops at the piece the new parabola crosses; for finite samples the `k < 0` guard never fires |
| Distance.FiniteNeverFalls | core/src/selection.cpp:82-88 | For samples in float range every crossing lies above the sentinel, which is why the `k < 0` branch is dead code |
| Distance.LargeFallOff | core/src/selection.cpp:82-88 | For a sample beyond the float range a crossing can lie left of the sentinel, so the guard is not dead for all reals |
| Distance.BuildEnvelope | core/src/selection.cpp:75-95 | After all samples, `v` and `z` describe the lower envelope of all parabolas |
| Distance.ReadEnvelope | core/src/selection.cpp:96-104 | The query loop never runs past the envelope and reads the minimum at every position |
| Distance.Distance1D | core/src/selection.cpp:70-105 | For every real input array, `d[q]` is exactly the minimum over `p` of `(q-p)^2 + f[p]`, attained by some `p`; nothing beyond the row is written |
| Distance.TwoPasses | core/src/selection.cpp:108-131 | Minima along columns and then along rows are the two-dimensional minima |
| Distance.Distance2D | core/src/selection.cpp:108-131 | In place, every cell becomes the exact minimum over all cells of squared distance plus height |
| EvenOdd.OneLength | core/src/selection.cpp:48-67 | However the even-odd interior is cut into pieces, the lengths inside add up to the same: the length a span accumulator has to reach is determined |
| EvenOdd.OneLassoValue | core/src/selection.cpp:776-803 | The rule for a lasso pixel (the mean length of the interior on four lines, or on one, and its rounding) leaves one value |
| Polygon.OnTheLine | core/src/selection.cpp:787-788 | The crossing point lies on the line through the ends of the edge |
| Polygon.PassesLeftMeets | core/src/selection.cpp:786-788 | An edge is counted at or left of a point exactly when the point is level with it, its lower end included, and not to the left of it taken upwards, by the sign of a cross product |
| Polygon.CrossingsEven | core/src/selection.cpp:782-789 | On every sub-scanline the half-open rule finds an even number of crossings, whatever vertices it meets |
| Polygon.SpansAreInterior | core/src/selection.cpp:791-794 | A point lies in one of the sorted pairs iff an odd number of edges pass it on the left, by orientation alone: the even-odd interior |
| Polygon.SpansMeasureInterior | core/src/selection.cpp:791-794 | Summing the overlaps of the sorted pairs with an interval gives the length of the even-odd interior in it |
| Polygon.Sort | core/src/selection.cpp:791-791 | Sorted, with the same number of values below every bound |
| Polygon.AccumulateSpan | core/src/selection.cpp:49-67 | Adds to each pixel of the row exactly weight times the length of the span inside that pixel |
| Polygon.CoverageBounds | core/src/selection.cpp:776-795 | Total coverage of a pixel is between 0 and the share of sub-scanlines summed, so it never exceeds 1 |
| Polygon.OffBoxValue | core/src/selection.cpp:753-769 | Outside the integer bounding box of the points every pixel value is 0, so the box may be all that is scanned |
| Polygon.ValueMeans | core/src/selection.cpp:776-803 | Accumulating, averaging over the sub-scanlines and rounding gives the value that the even-odd rule asks for |
| Polygon.FromPolygon | core/src/selection.cpp:741-808 | At every canvas pixel the mask holds what the even-odd interior asks for: with antialiasing the byte nearest to the mean length of the interior on the four lines in the middles of the quarters of the row, without it 255 iff at least half of the middle line is inside; fewer than three points are refused |
| Selection.SelectionMask.WritableTile | core/src/selection.cpp:360-387 | Making a tile present changes no value anywhere |
| Selection.SelectionMask.FillRect | core/src/selection.cpp:389-414 | Exactly the canvas points of the area get the value; every other point keeps its own |
| Selection.SelectionMask.WriteRegion | core/src/selection.cpp:416-444 | Exactly the canvas points of the area take the source image, whatever tiles they fall in |
| Selection.SameDense | core/src/selection.cpp:446-480 | Dropping tiles that show nothing leaves the dense function alone |
| Selection.SelectionMask.Normalize | core/src/selection.cpp:446-480 | No value changes; afterwards every stored tile has a canvas pixel different from `outside` |
| Selection.SelectionMask.SetCanvasSize | core/src/selection.cpp:223-227 | Points of the new canvas keep their stored value; the mask is minimal again and the box is forgotten |
| Selection.SelectionMask.Invert | core/src/selection.cpp:484-499 | Touching only allocated tiles inverts every canvas pixel, and `outside` |
| Selection.SelectionMask.Combine | core/src/selection.cpp:501-555 | On the sparse form, also when a mask is combined with itself: where pixels are selected wholly or not at all the selected sets are replaced, united, subtracted, intersected or their symmetric difference taken; partial values give the larger one, the share of the first that the second leaves or takes, rounded down, or the distance. Unequal canvases are refused and change nothing |
| Selection.CombinedSets | core/src/selection.cpp:25-41 | Any masks whose values meet those bounds combine as sets of pixels when nothing is partly selected |
| Selection.SelectionMask.ComputeBounds | core/src/selection.cpp:276-320 | The tile loop computes the tight box of the nonzero pixels |
| Selection.SelectionMask.Bounds | core/src/selection.cpp:270-323 | The answer, cached or not, is the tight box of the nonzero pixels, and asking changes no value |
| Selection.NearIsInside | core/src/selection.cpp:576-583 | A pixel near a seed lies inside the grown box of the selection |
| Selection.FieldDecides | core/src/selection.cpp:585-603 | Inside the window, the transformed field is at most the squared radius exactly when a seed of the whole plane lies within it: the padding loses nothing |
| Selection.SeedIsMajority | core/src/selection.cpp:585-603 | A pixel is a seed of growing iff more than half of it is selected, and of shrinking iff not |
| Selection.SelectionMask.Expand | core/src/selection.cpp:557-612 | On the whole canvas: for `by > 0` a pixel becomes 255 iff a pixel of value at least 128 lies within `by`, for `by < 0` iff no point of value below 128, off-canvas points included, lies within the radius; masks that need no window take any step |
| SelectionMaking.NoTilesIffFlat | include/mari/core/selection.hpp:83-85 | A minimal mask has no tiles iff it is flat at `outside`: `isAll` and `isEmpty` hold exactly when the mask is flat and `outside` agrees with it |
| SelectionMaking.HalvesUnited | core/src/selection.cpp:501-555 | The union of two halves selects everything and is not `isAll`; its inverse selects nothing and is not `isEmpty` |
| SelectionMaking.FromRect | core/src/selection.cpp:681-697 | 255 exactly on the rectangle inside the canvas; `outside` is 255 exactly when that is the whole of a canvas that is not empty |
| SelectionMaking.FromTiles | core/src/selection.cpp:810-845 | At a canvas pixel the judgement of the layer pixel, or the starting value where the layer has no tile, in whatever order tiles come; a layer that is not RGBA8 is refused |
| Frame.DecodeEncode | sigan/src/frame.cpp:75-116 | Decoding an encoded frame gives the frame back |
| Frame.EncodeInjective | sigan/src/frame.cpp:75-95 | Different frames have different bytes |
| WireFormat.FrameLayout | include/mari/sigan/frame.hpp:85-97 | Each field stands little-endian at its offset: number at 0, time at 8, position at 16 and 20, and so on to the origin at 56, three zeros and the agent at 60 |
| WireFormat.FlagBits | include/mari/sigan/frame.hpp:26-37 | Down, Move, Up, Eraser and Synthetic are the bits 0 to 4 |
| WireFormat.PenOnWire | record/src/sigan_recorder.cpp:94-109 | Each part of a pen sample, the source and the two ids cut to 32 bits stand at their offsets in the journalled frame |
| Crc.TableIsBitSerial | sigan/src/frame.cpp:59-71 | One table step equals eight bit-serial steps of the polynomial |
| Crc.BuildTable | sigan/src/frame.cpp:61-69 | The table holds, for each byte, its bit-serial remainder |
| Crc.ComputeCrc32 | sigan/src/frame.cpp:125-131 | The table loop computes the bit-serial CRC-32 for every message and seed |
| Crc.WrongByteDetected | sigan/src/frame.cpp:125-131 | Changing any one byte of any message changes its CRC |
| CrcExample.CheckValue | tests/sigan/test_frame.cpp:158-158 | The CRC of the digits from 1 to 9 is CBF43926, byte after byte |
| CrcExample.LowestFirst | sigan/src/journal.cpp:12-17 | A stored checksum starts with its lowest byte |
| WireFormat.HeaderLayout | sigan/src/journal.cpp:72-77 | Name, version 1, size 32, session and wall clock stand at 0, 8, 12, 16 and 24 |
| WireFormat.Tags | include/mari/sigan/journal.hpp:28-33 | Frames, stroke ends and notes are stored as 1, 2 and 3 |
| WireFormat.RecordLayout | sigan/src/journal.cpp:99-106 | A record is the tag, the length in four bytes, the payload, and the checksum of all of these |
| Journal.ReadNext | sigan/src/journal.cpp:185-201 | The checks of one turn of the scan accept exactly the record that stands there whole with a right checksum |
| Journal.Scan | sigan/src/journal.cpp:160-234 | The cursor loop computes the recursive reading of the file; a broken header is an error |
| Journal.CutJournal | sigan/src/journal.cpp:160-234 | Cut anywhere after the header, the scan returns exactly the records wholly inside the prefix, with `truncated` iff the cut is not on a record boundary |
| Journal.ReplayMeaning | sigan/src/journal.cpp:202-230 | The scan result of good records is their frames and notes in order, and the count and number at the last stroke end |
| Journal.RecoverCut | sigan/src/publisher.cpp:182-194 | After a cut at any byte, recovery returns exactly the frames up to the last surviving stroke end, and says it dropped something iff it did |
| Journal.RecoverJournal | sigan/src/publisher.cpp:182-194 | The method computes that recovery |
| Journal.CorruptJournal | sigan/src/journal.cpp:160-234 | A wrong byte in the tag, payload or checksum of a record stops the scan at that record, whatever follows |
| Journal.NothingMissing | sigan/src/journal.cpp:41-53 | The list of skipped numbers is empty iff no neighbours skip one |
| Journal.SeqGaps | sigan/src/journal.cpp:41-53 | All skipped sequence numbers in order, or the first 1025 |
| JournalWriter.Writer.WriteRecord | sigan/src/journal.cpp:86-109 | File and buffer together grow by exactly the record, checksum included; a refused write adds nothing and leaves the sticky failure flag |
| JournalWriter.Writer.Flush | sigan/src/journal.cpp:135-158 | What was buffered is in the file, or the journal has failed for good |
| JournalWriter.Writer.FramesAfter | sigan/src/journal.cpp:236-251 | Flushing and reading the file back gives exactly the written frames with a larger number, in order |
| JournalWriter.ReadsBack | sigan/src/journal.cpp:236-251 | What was written reads back whole and not truncated |
| PipeSink.Sink.DrainResidual | sigan/src/pipe_sink.cpp:147-163 | Whatever prefixes the kernel takes, the wire is a prefix of the accepted writes and the rest is still in the residual |
| PipeSink.Sink.Write | sigan/src/pipe_sink.cpp:165-202 | Ok takes the whole write, now or from the residual later; WouldBlock takes nothing; Disconnected ends the connection with at most this write torn |
| PipeSink.Sink.Pump | sigan/src/pipe_sink.cpp:204-212 | Only moves residual bytes to the wire; if the kernel never refuses, the residual is empty afterwards |
| PipeSink.Sink.Close | sigan/src/pipe_sink.cpp:56-70 | The residual is forgotten; what is on the wire stays with the peer |
| Delivery.PeerSees | sigan/src/pipe_sink.cpp:165-202 | On a connection broken at any byte, the complete frames the peer has are the first accepted writes |
| Delivery.NoHoles | sigan/src/publisher.cpp:162-168 | If every connection resumes no later than the first missing frame, the peer holds exactly 1 up to the highest |
| Delivery.HoleAfterBadResume | sigan/src/publisher.cpp:162-175 | Resuming later than that leaves a hole as soon as one frame arrives: the condition is needed |
| Publisher.TruthfulPeer | sigan/src/publisher.cpp:162-175 | For every greeting: sending goes on no later than at the first frame the peer misses iff it asks for a number from 1 to that one, or already holds all that was sent |
| Publisher.SiganPublisher.ApplyCaps | sigan/src/publisher.cpp:46-58 | The wire frame is the journal frame with the layer id blanked iff that ability is missing, and the brush id likewise; nothing else differs |
| Publisher.SiganPublisher.Publish | sigan/src/publisher.cpp:60-111 | The next number; the stamped frame is appended to the journal whatever the pipe does; statistics per origin count the journal; no connection is begun, and the last one carries as many more frames as are counted as sent |
| Publisher.SiganPublisher.EndStroke | sigan/src/publisher.cpp:113-119 | A stroke-end record with the current number, flushed; no frame and no sending position changes |
| Publisher.SiganPublisher.ResendBacklog | sigan/src/publisher.cpp:121-142 | Sends the journal tail in order; with a sink that refuses nothing the peer is caught up |
| Publisher.SiganPublisher.Pump | sigan/src/publisher.cpp:144-180 | Keeps the invariant over reconnects with any greeting; adds one connection iff the kernel accepts it, starting exactly where the greeting heard says, and counts what that rolls back; one pump with an accepting sink leaves nothing unsent and nothing in the residual |
| Publisher.SiganPublisher.LinksCarry | sigan/src/publisher.cpp:60-180 | In every reachable state each connection, open or past, carries consecutive journal frames |
| Publisher.SiganPublisher.Gapless | sigan/src/publisher.cpp:60-180 | In every reachable state: what the peer decodes on any connection is the journal frame of that number but for blanked ids, and with safe resumption it holds exactly 1 up to the highest |
| Publisher.SiganPublisher.AllDelivered | sigan/src/publisher.cpp:144-180 | Caught up with an empty residual means the peer holds every published frame |
| Publisher.SiganPublisher.StatsBalance | docs/06-recording-contract.md:248-254 | In every reachable state the published frames and those rolled back are the sent and the spooled ones; without the second summand iff nothing was ever rolled back |
| Publisher.NoRewind | sigan/src/publisher.cpp:162-175 | A greeting rolls nothing back iff there is none or it does not ask for a number from 1 to the last sent |
| Channel.PumpBalance | sigan/src/publisher.cpp:144-180 | From a state in balance, a pump keeps `published == sent + spooled` iff it hears no request for what was already sent |
| Channel.AskedAgain | sigan/src/publisher.cpp:162-175 | A concrete run, with every call to the kernel given, that ends with one frame published, two sent and none spooled; nothing reached the peer on the first connection, resumption was safe, and the peer holds the frame |
| Channel.RunChannel | sigan/src/publisher.cpp:60-180 | Over any run of points, stroke ends and pumps: `heard` has one true entry for every connection made (the pump it came from, the greeting that came through, what the peer held and what had been sent); resumption was safe throughout iff it was before and every greeting was truthful, and then the peer holds exactly 1 up to the highest |
| Channel.AskingForAll | sigan/src/publisher.cpp:162-175 | If every answer asks for number 1 and no greeting is lost without its connection, every greeting of the run is truthful |
| ProofLog.SplitUnique | sigan/src/prooflog.cpp:35-73 | There is only one way to split a frame list into strokes |
| ProofLog.SummarizeStrokes | sigan/src/prooflog.cpp:35-73 | Each summary describes one of the consecutive blocks into which the frames fall |
| ProofLog.PointsAddUp | sigan/src/prooflog.cpp:35-73 | The point counts of the summaries sum to the number of frames |
| ProofLog.BrushStrokeStats | sigan/src/prooflog.cpp:83-91 | Counts the summaries that are not synthetic, per origin |
| ProofLog.RegionOpStats | sigan/src/prooflog.cpp:93-101 | Counts the synthetic summaries, per origin |
| ProofLog.TallyCount | sigan/src/prooflog.cpp:83-101 | Each slot is the number of summaries of that kind and origin; unknown origins are in slot 0 |
| Origin.DownsCount | sigan/src/publisher.cpp:84-92 | Each slot of the publisher is the number of frames with the Down bit, of that kind and origin |
| ProofLog.LogAgrees | sigan/src/prooflog.cpp:35-101 | The counts from the log equal the counts of Down frames the publisher keeps, on both axes, iff every stroke starts with a Down |
| Recorder.SiganRecorder.OnStrokePoint | record/src/sigan_recorder.cpp:94-109 | One point is one stamped frame; the source is passed on; a failed journal marks the recorder broken |
| Recorder.SiganRecorder.OnStrokeEnd | record/src/sigan_recorder.cpp:111-117 | The stroke is closed in the journal before the tally counts it and its tiles |
| Recorder.SiganRecorder.OnRegionOp | record/src/sigan_recorder.cpp:119-169 | A synthetic Down-Up pair at the corners, a stroke end and a note; empty areas, broken journals and journals that break here are errors that tally nothing |
| Recorder.SiganRecorder.ProofCounts | record/src/sigan_recorder.cpp:171-190 | While nothing failed, the counts recovered from the file are the recorder's tally |
| Recorder.StrokeEntry.Emit | app/src/stroke_entry.cpp:19-35 | Each call records exactly one frame: position, pressure, layer, brush, the flags of the phase and the eraser, and the given source |
| Recorder.StrokeEntry.Finish | app/src/stroke_entry.cpp:49-55 | Ends the stroke once; a second call does nothing |
| Recorder.PaintStroke | app/src/stroke_entry.cpp:37-55 | A whole stroke keeps file, publisher and tally in agreement and is tallied once for its origin |
| Recorder.RecordRegionOp | app/src/stroke_entry.cpp:57-74 | Nothing is recorded for an empty area; otherwise file, publisher and tally stay in agreement |
| Recorder.RunSession | record/src/sigan_recorder.cpp:94-190 | Over any run of strokes, region operations and pumps: while the journal did not fail, file, publisher and tally agree per origin on both axes |
| Recorder.Factory.Retire | record/src/sigan_recorder.cpp:230-244 | Moving a recorder from the live list to the closed sum conserves the total |
| Recorder.Factory.TotalTally | record/src/sigan_recorder.cpp:246-258 | The closed sum plus all live tallies, per origin and axis |
| Forest.CutKeeps | core/src/layer.cpp:115-131 | Cutting out a subtree leaves a coherent forest of the rest, and the subtree whole |
| Forest.InsertKeeps | core/src/layer.cpp:229-244 | Putting in a detached subtree disjoint from the tree leaves a coherent forest |
| Forest.HungBreaks | core/src/layer.cpp:246-251 | If what a reattached layer names is attached already, or named twice, some layer ends up on two lists or twice on one |
| Circles.HungCircle | core/src/layer.cpp:219-227 | After hanging up a layer the walk up from it reaches the root iff nothing it names was at or above the place; otherwise the walk ends only if it meets what it looks for |
| Circles.Knotting | core/src/layer.cpp:246-251 | The witness on values: from a coherent forest, hanging the inner group below the outer one it names puts each below the other |
| Circles.TieKnot | agent/src/snapshot.cpp:131-149 | A run on a new tree of additions, moves, a removal and two reattachments to recorded places, after which the walk before the next move never ends |
| Layers.LayerTree.IsDescendant | core/src/layer.cpp:219-227 | The parent walk terminates and answers exactly the descendant relation |
| Layers.LayerTree.IndexRecursive | core/src/layer.cpp:246-251 | Index and parents gain exactly what the child lists of the layer lead to, whatever that is |
| Layers.LayerTree.UnindexRecursive | core/src/layer.cpp:253-260 | Index and parents lose exactly the layers of the subtree, and the active id with them |
| Layers.LayerTree.Insert | core/src/layer.cpp:229-244 | Succeeds iff the parent is the root or a group; the layer stands at the clamped place, and the tree is coherent iff what it names is a tree of its own |
| Layers.LayerTree.Attach | core/src/layer.cpp:229-251 | After the checks, on any lists that lead nowhere in circles: everything the layer names is enrolled, it stands at the clamped place, and the answer says whether every entry was new and had one owner |
| Layers.LayerTree.Add | core/src/layer.cpp:101-113 | A fresh id, never used before, at the clamped place; a bad parent is an error that changes the tree not at all |
| Layers.LayerTree.Remove | core/src/layer.cpp:115-131 | Exactly the subtree goes, the tree stays coherent, the active id is live or none, and what went still names exactly itself |
| Layers.LayerTree.Move | core/src/layer.cpp:133-163 | Succeeds iff the layer and the parent exist, the parent is a group or the root and not inside the layer; then only the two lists and one parent change; a failed move changes nothing |
| Layers.LayerTree.Relocate | core/src/layer.cpp:153-163 | After the checks, whatever state the lists are in: the first entry goes from the old list and one comes at the clamped place of the new |
| Layers.MoveKeeps | core/src/layer.cpp:155-162 | A move is a cut and an insert, and keeps the forest coherent |
| Layers.LayerTree.SetActive | core/src/layer.cpp:167-176 | The active id is live or none; an unknown id changes nothing |
| Layers.LayerTree.Clone | core/src/layer.cpp:282-295 | A whole copy of a subtree in fresh ids: same shape, properties, pixels and masks |
| Layers.LayerTree.Duplicate | core/src/layer.cpp:299-311 | The copy stands right above the original, everything else where it was, and the tree is coherent |
| Layers.LayerTree.Reattach | core/src/layer.cpp:325-341 | Inserts a detached layer with all it names; the result is coherent under some order iff none of that is attached already or named twice |
| Snapshot.TakeSnapshot | agent/src/snapshot.cpp:94-104 | The recording matches the tree: every layer, parent, place, property and picture |
| Snapshot.MatchesDetermines | agent/src/snapshot.cpp:27-51 | Two trees that match one recording are the same, so restoring again gives the same tree |
| Snapshot.RecordedWhole | agent/src/snapshot.cpp:27-51 | The recursive walk records everything, parents first |
| Restore.RemoveNewer | agent/src/snapshot.cpp:108-129 | Afterwards exactly the recorded layers with nothing newer above them are attached |
| Restore.NextCanMove | agent/src/snapshot.cpp:132-149 | When the next node is placed its parent is already in place and it can be moved there |
| Restore.PlaceNode | agent/src/snapshot.cpp:131-171 | Fails iff the layer is detached and what it names is no tree of its own; otherwise one more node stands as recorded, the nodes placed before still do, and exactly what it names is attached with it |
| Restore.RestoreSnapshot | agent/src/snapshot.cpp:106-180 | Succeeds with exactly the recorded ids, parents, order, properties and pixels iff each layer to be reattached names, when its turn comes, a tree of recorded layers none of which is attached |
| Restore.RemovalUndone | agent/src/snapshot.cpp:131-143 | A layer removed with everything below it comes back: after the restore ids, parents, order, properties and pixels are those from before the removal |
| Restore.AttachedGroupsRestorable | agent/src/snapshot.cpp:108-149 | While every recorded group is attached below recorded groups, the restore works, whatever happened to other layers |
| Restore.SameLayersRestorable | agent/src/snapshot.cpp:144-171 | With the same layers attached, in whatever arrangement, the restore works |
| Restore.DetachedNotRestorable | agent/src/snapshot.cpp:134-143 | A detached recorded layer that names an unrecorded one makes the restore fail |
| Restore.NeverRepaired | agent/src/snapshot.cpp:131-171 | From a state with a layer on two lists, no run of moves, reattachments and settings, each as the code makes it on the lists as they are, ends in the recorded tree or in any forest |
| Restore.MoveIsStep | core/src/layer.cpp:133-163 | In any state in which the attached layers are on their parents' lists, a move takes one entry from the list of the old parent, puts one into that of the new, and keeps them so |
| Restore.ReattachIsStep | core/src/layer.cpp:229-251 | Likewise a reattachment adds one entry, detaches nothing and keeps every attached layer on its parent's list |
| Restore.RemovedGroupRevivesNewer | agent/src/snapshot.cpp:131-143 | A run whose restore fails: an empty group is recorded, gets a layer and is removed; whatever the restore returns, the tree is not the recorded one |
| SnapshotDiff.DiffSnapshots | agent/src/snapshot.cpp:182-261 | Added, removed, property-changed and pixel-changed layers in order, the number of changed tiles, and the smallest box around them |
| SnapshotDiff.NothingMissed | agent/src/snapshot.cpp:213-258 | Wherever a layer looks different, it is listed and the area reaches there |
| SnapshotDiff.PropsListed | agent/src/snapshot.cpp:206-214 | A layer is listed as changed in its properties iff it has another parent, place or property in its first node of the other snapshot |
| SnapshotDiff.IdenticalMeans | include/mari/agent/snapshot.hpp:96-113 | `identical` holds iff both have the same layers, each with the same place and properties and every tile shared or blank on both sides |
| SnapshotDiff.OneTreeIdentical | include/mari/agent/snapshot.hpp:96-113 | Comparing any two recordings of one tree whose tiles are the same buffers gives `identical`; so does a recording made right after a restore, compared with the one restored |
| SnapshotDiff.SamePixelsCounted | agent/src/snapshot.cpp:236-241 | A tile with the same pixels in another buffer is counted as changed |
| Blend.BlendNothing | core/src/blend.cpp:163-203 | A transparent source, or one at no strength, leaves the pixel alone in every mode, conversions to and from bytes included |
| Blend.OverIsBlend | core/src/blend.cpp:205-229 | The two shortcuts of the row blend are invisible |
| Blend.BlendMeans | core/src/blend.cpp:163-203 | In bytes: erasing keeps the colour and leaves the nearest byte to the alpha let through; painting covers 1 - (1 - backdrop)(1 - source), and each channel is the nearest byte to the light for that much cover, where the source colour counts by as much as nothing was there and the mixed one by as much as something was |
| Blend.StrengthIs | core/src/blend.cpp:209-215 | The strength of a pixel is the opacity, taken to lie between 0 and 1, times the mask byte over 255 |
| Blend.Erased | core/src/blend.cpp:166-170 | At full strength an eraser leaves the byte nearest to the product of the alphas, and an opaque one leaves none; the colours stay |
| Blend.ErasesMore | core/src/blend.cpp:166-170 | What an eraser leaves never grows with its alpha or its strength |
| Blend.OverNothing | core/src/blend.cpp:174-193 | Over a transparent backdrop every mode gives the colour of the source, at full strength the source itself |
| Blend.OpaqueOverOpaque | core/src/blend.cpp:174-193 | An opaque source at full strength over an opaque backdrop gives the mixed colour, opaque |
| Blend.BlendRow | core/src/blend.cpp:205-229 | Each pixel of the row becomes what painting or erasing it must give at the opacity times its mask value, as `Blend.Blended` says in bytes; no other pixel changes |
| Compositor.CompositeRaster | core/src/compositor.cpp:25-78 | Inside the area each pixel is the layer over what was there; nothing outside is written |
| Compositor.GroupOfOne | core/src/compositor.cpp:90-115 | An unmasked layer at full opacity that is alone in a group looks as without the group, in the mode of the group |
| Compositor.CompositeList | core/src/compositor.cpp:90-115 | Inside the window the buffer holds the layers from bottom to top, groups composited apart; nothing outside is written |
| Compositor.CompositeArea | core/src/compositor.cpp:133-142 | The buffer shows the tree on the area; empty areas, missing or narrow buffers and unknown formats are told apart |
| Compositor.DedupDirtyTiles | core/src/compositor.cpp:119-124 | The same tiles, in row order, each once |
| Compositor.CompositeDirty | core/src/compositor.cpp:145-169 | Exactly the pixels of dirty tiles are repainted; if the buffer showed the old tree and the trees look alike elsewhere, it now shows the new tree |
| Compositor.EditsStay | core/src/compositor.cpp:25-115 | Edits of tiles and masks show only in those tiles, through groups, masks and every skip |
| Compositor.EditedTilesSuffice | core/src/compositor.cpp:145-169 | So a tree edited only inside the dirty tiles meets the condition of the incremental repaint |
| Compositor.SkipsAreInvisible | core/src/compositor.cpp:25-115 | Skipping missing and blank tiles, missing mask tiles, layers of no opacity and empty groups gives the picture of a compositor that skips nothing |
| Json.Set | agent/src/json.cpp:502-516 | An existing key keeps its place and gets the value, a new one is appended; keys stay distinct |
| Json.EscapeInto | agent/src/json.cpp:30-67 | The loop appends the escaped text, control characters as four hex digits and high bytes raw |
| Json.AppendTo | agent/src/json.cpp:518-582 | The growing output string is the specified text, for every indentation and depth |
| Json.Dump | agent/src/json.cpp:584-589 | The text of a value |
| JsonParser.Parser.ParseString | agent/src/json.cpp:237-314 | The cursor moves over exactly one string literal, or fails, as the grammar function says; what that function reads is the subject of `JsonEscapes.StringMeans` |
| JsonParser.Parser.ParseNumber | agent/src/json.cpp:154-194 | The longest number at the cursor, integral ones exactly |
| JsonParser.Parser.ParseValue | agent/src/json.cpp:116-144 | The recursive descent equals the grammar function, depth limit included |
| JsonParser.Parser.ParseArray | agent/src/json.cpp:316-345 | Items up to the closing bracket, or failure, with the cursor after them |
| JsonParser.Parser.ParseObject | agent/src/json.cpp:347-385 | Members up to the closing brace, later keys overwriting earlier ones |
| JsonParser.Parser.ParseDocument | agent/src/json.cpp:82-98 | A value and nothing but space after it |
| JsonEscapes.ReadsUtf8 | agent/src/json.cpp:196-212 | For every code point, a reader of UTF-8 written apart takes the bytes of the parser for it, and no others, as that code point |
| JsonEscapes.OneUnit | agent/src/json.cpp:287-308 | The escape of every code point up to FFFF that is no surrogate, in digits of either case, is read as it |
| JsonEscapes.TwoUnits | agent/src/json.cpp:291-305 | The two escapes of every code point above are read as it |
| JsonEscapes.LoneSurrogate | agent/src/json.cpp:302-308 | The escape of a surrogate that stands alone is read into bytes that are no UTF-8 text |
| JsonEscapes.StringMeans | agent/src/json.cpp:237-314 | However the characters of a string are written, raw, by letter, by one unit or by two, the result is the UTF-8 text of exactly these characters |
| JsonEscapes.QuotedMeans | agent/src/json.cpp:30-67 | Quoting a text writes exactly its characters between two quotes |
| JsonEscapes.Signs | agent/src/json.cpp:101-144 | Brackets, colon, comma, quote, space, signs, digits and the three words are the characters of the grammar, and the depth limit is 64 |
| JsonRoundTrip.StringBack | agent/src/json.cpp:237-314 | Reading an escaped string gives back every byte of it |
| JsonRoundTrip.RoundTrip | agent/src/json.cpp:518-594 | For every built value of integral numbers and every indentation, parsing the dump gives the value back iff it nests at most 64 deep, and fails otherwise |
| JsonRoundTrip.DumpAndParse | agent/src/json.cpp:584-594 | The same for the methods that print and parse |
| Sha256.Sha256.Schedule | crypto/src/sha256.cpp:80-91 | The message schedule of section 6.2.2 of FIPS 180-4 |
| Sha256.Sha256.Compress | crypto/src/sha256.cpp:80-117 | Schedule, 64 rounds and the addition give the hash value FIPS 180-4 defines, over functions and constants that `Sha256Standard` describes and a message that `Sha256Example` works through |
| Sha256Standard.ChBit | crypto/src/sha256.cpp:37-37 | Each bit is that of the second word where the first has a one, and of the third where it has a zero |
| Sha256Standard.MajBit | crypto/src/sha256.cpp:38-40 | Each bit is set iff it is in at least two of the words |
| Sha256Standard.RotrBit | crypto/src/sha256.cpp:34-36 | Bit k of the rotated word is bit k + n, counted round the word |
| Sha256Standard.ShrBit | crypto/src/sha256.cpp:48-51 | Bit k of the shifted word is bit k + n, or zero beyond the word |
| Sha256Standard.BigSigmaBits | crypto/src/sha256.cpp:41-46 | Each bit is the parity of the three bits at the distances of the standard |
| Sha256Standard.SmallSigmaBits | crypto/src/sha256.cpp:47-52 | Likewise, with the third distance a shift |
| Sha256Standard.InitialIsRoots | crypto/src/sha256.cpp:28-32 | The starting words are the first 32 bits of the fractions of the square roots of the first eight primes |
| Sha256Standard.ConstantIsRoot | crypto/src/sha256.cpp:14-26 | The constant of each round is the first 32 bits of the fraction of the cube root of its prime |
| Sha256Example.LoadStore | crypto/src/sha256.cpp:54-65 | A word stored highest byte first is loaded back |
| Sha256Example.CompressedIs | crypto/src/sha256.cpp:80-111 | The block of the message "abc" gives, through its 64 words and 64 rounds, the published hash value |
| Sha256Example.DigestOfAbc | crypto/src/sha256.cpp:155-182 | The digest of "abc" is the published one |
| Sha256.ZeroCountSmallest | crypto/src/sha256.cpp:160-170 | The padding has the smallest number of zeros that works, as section 5.1.1 asks |
| Sha256.Sha256.Absorb | crypto/src/sha256.cpp:126-152 | Whole blocks are in the hash value and the rest in the buffer, for any split |
| Sha256.Sha256.Update | crypto/src/sha256.cpp:119-153 | The message grows by the data; after finishing nothing changes |
| Sha256.Sha256.Finish | crypto/src/sha256.cpp:155-182 | The digest of the whole message padded as the standard asks, however it was split, below 2^61 bytes; finishing again gives the same. For "abc" it is the published digest (`Sha256Example.DigestOfAbc`) |
| Sha256.Sha256.Padding | crypto/src/sha256.cpp:155-175 | The closing bytes are the padding of the standard, also where the byte counter has wrapped |
| Sha256.Sha256Of | crypto/src/sha256.cpp:195-201 | The one-shot function is the digest of its input |
| Tiles.ComputeBlank | core/src/tile.cpp:60-97 | The scan answers whether all alpha, or all bytes, are zero |
| Tiles.AlphaIsLast | core/src/tile.cpp:62-93 | Alpha is the last of four channels of one, two or four bytes: it counts as zero when all its bytes are, apart from the sign of a float; formats without alpha have one channel |
| Tiles.NewTile | core/src/tile.cpp:25-34 | A fresh all-zero tile nobody shares |
| Tiles.Clone | core/src/tile.cpp:25-58 | A second handle on one buffer; no byte is copied |
| Tiles.Write | core/src/tile.cpp:35-58 | The written tile changes, every other tile keeps its bytes though buffers are shared, and the cached blank answer stays right |
| Tiles.IsBlank | core/src/tile.cpp:43-54 | The answer, cached or not, is about the present pixels |
| Tiles.SparseTileMap.Writable | core/src/tile.cpp:124-135 | A missing tile is made, all zero; contents do not change otherwise |
| Tiles.SparseTileMap.Paint | core/src/tile.cpp:124-135 | Writing through one map changes that map as if it had its own copy, and no other map |
| Tiles.SparseTileMap.Snapshot | core/src/tile.cpp:164-170 | The new map has the contents of the old, as a deep copy would, and no map changes |
| Tiles.SparseTileMap.Erase | core/src/tile.cpp:119-175 | The tile is gone from this map only |
| Tiles.SparseTileMap.Clear | core/src/tile.cpp:119-175 | This map is empty; all others keep their contents |
| Tiles.SparseTileMap.CollectTiles | core/src/tile.cpp:137-161 | Both strategies list exactly the allocated tiles that meet the area |
| Undo.UndoExact | core/src/undo.cpp:86-95 | Restoring the captured tiles gives the document from before iff nothing was painted outside them, absent tiles included |
| Undo.UndoRedoExact | core/src/undo.cpp:86-102 | And redoing gives the document after |
| Undo.TileSnapshotCommand.CaptureBefore | core/src/undo.cpp:56-68 | Each tile is captured once, as it was before painting |
| Undo.TileSnapshotCommand.CaptureAfter | core/src/undo.cpp:70-76 | If painting stayed inside the captured tiles, the command links the two documents |
| Undo.TileSnapshotCommand.Restore | core/src/undo.cpp:86-95 | The target map with every captured tile put back, present or absent |
| Undo.TileSnapshotCommand.ChangedTileCount | core/src/undo.cpp:78-84 | The number of captured tiles that differ |
| Undo.UndoStack.Push | core/src/undo.cpp:111-118 | The redo branch is discarded; the oldest states are dropped until the limit holds |
| Undo.UndoStack.Undo | core/src/undo.cpp:128-142 | The document is exactly the previous recorded state |
| Undo.UndoStack.Redo | core/src/undo.cpp:144-158 | The document is exactly the next recorded state; the limit holds afterwards iff there was room below it |
| Undo.UndoStack.SetLimit | core/src/undo.cpp:165-169 | Only the far past is forgotten, the limit holds, and what was undone can still be redone |
| Undo.UndoThenRedo | core/src/undo.cpp:128-158 | Undoing k and redoing k is the identity on document and stacks |
| Undo.RunSteps | core/src/undo.cpp:128-169 | If what can be undone and redone together fits the limit, the limit holds over every run of undoing and redoing |
| Undo.RedoAll | core/src/undo.cpp:144-169 | Redoing everything keeps the limit iff it fits |
| Undo.LimitPassed | core/src/undo.cpp:144-169 | A state past the limit, reached from a new stack |
| CanvasHash.InkTells | crypto/src/canvas_hash.cpp:32-41 | Normalised bytes are equal iff the pixels look the same |
| CanvasHash.TileMapHash | crypto/src/canvas_hash.cpp:128-184 | The digest of the one stream that lists the contributing tiles in order; a map that is not RGBA8 is refused |
| CanvasHash.StreamTellsVisible | crypto/src/canvas_hash.cpp:128-184 | Two layers feed the same bytes iff they look the same at every pixel: allocation, order and hidden colours leave no trace, every visible difference does |
| WireFormat.LayerLayout | include/mari/crypto/canvas_hash.hpp:40-48 | The hashed bytes: the name of the format, the tile size 64, for each tile its coordinates as signed numbers and its pixels row by row, and at the end the number of tiles |
| CanvasHash.LookAlikeHashAlike | crypto/src/canvas_hash.cpp:128-184 | Layers that look the same have one hash |
| CanvasHash.CanvasHashOfPixels | crypto/src/canvas_hash.cpp:54-84 | The digest of size and normalised rows, with the refusals of the original |
| CanvasHash.CanvasStreamTells | crypto/src/canvas_hash.cpp:54-84 | The canvas stream is equal iff size and every visible pixel are |
| WireFormat.CanvasLayout | include/mari/crypto/canvas_hash.hpp:27-33 | The hashed bytes: the name of the format, width and height little-endian, then red, green, blue and alpha of each pixel row by row, all zero where there is no alpha |
| CanvasHash.BandRows | crypto/src/canvas_hash.cpp:98-108 | At least one row, at most a tile, within the budget where more than one |
| CanvasHash.CanvasHash | crypto/src/canvas_hash.cpp:86-126 | Compositing and hashing in bands digests the stream of the whole picture |
| CanvasHash.BandedIsWhole | crypto/src/canvas_hash.cpp:54-126 | The banded hash equals the hash of the full composite |
| Image.TileStore.ReadRegion | io/ora/src/image.cpp:188-224 | Every image pixel is the stored one, transparent where there is no tile; an empty area and a map that is not RGBA8 are refused |
| Image.TileStore.WriteRegion | io/ora/src/image.cpp:226-276 | What can be seen is the image inside the area and the old picture outside: not making tiles without ink is invisible; a map that is not RGBA8 is refused |
| Image.WriteThenRead | io/ora/src/image.cpp:188-276 | Everything visible that was written is read back |
| Events.Subscriber.Offer | app/src/events.cpp:39-60 | Never waits; a full queue loses its oldest event, counted, or the subscriber is cut off |
| Events.Subscriber.Wake | app/src/events.cpp:93-110 | The worker takes the oldest event, or leaves only when nothing is queued |
| Events.Subscriber.Landed | app/src/events.cpp:111-119 | After the callback the event is delivered, exactly once |
| Events.Subscriber.Accounting | app/src/events.cpp:39-119 | In every interleaving accepted = delivered + summarized + queued + in flight, and the queue never exceeds its capacity |
| Events.Subscriber.StopDrains | app/src/events.cpp:63-72 | When the worker can be joined, everything accepted was delivered or summarized |
| Events.Subscriber.DeliveredInOrder | app/src/events.cpp:39-119 | If events were offered in order, they are delivered in order |
| Events.Subscriber.HolesAreSummarized | app/src/events.cpp:39-119 | The missing sequence numbers are exactly the dropped events, `summarized` many |
| Events.EventHub.RemoveListener | app/src/events.cpp:157-165 | Takes out one entry, keeping the order of the others |
| Events.EventHub.Subscribe | app/src/events.cpp:185-199 | A new id and a running subscriber with the given policy and capacity, at least 1, and nothing accepted; without a callback nothing happens |
| Events.EventHub.Unsubscribe | app/src/events.cpp:201-217 | Takes out that subscriber, keeping the order of the others, and tells it to stop |
| Events.EventHub.Begin | app/src/events.cpp:307-314 | Number and copies of both lists are taken in one step |
| Events.EventHub.TellNext | app/src/events.cpp:316-320 | One more listener of this dispatch is called |
| Events.EventHub.EveryListenerOnce | app/src/events.cpp:307-327 | Whatever other threads do, a dispatch calls each listener registered when it began exactly once, and no other |
| Events.EventHub.OfferAll | app/src/events.cpp:307-327 | With serialised fires every subscriber accepts numbers in rising order, and a running Summarize subscriber accepts every event |
| Events.EventHub.Fire | app/src/events.cpp:307-327 | A fire no other overlaps: the next number, every listener called once with it, and every running Summarize subscriber has accepted the event |
| Events.RunSerial | app/src/events.cpp:157-327 | Over any serialised run with listeners and subscribers coming and going and workers stepping between: callbacks come in order, and delivered, summarized, queued and in flight add up to the numbers fired since subscribing |
| Events.SerialHoles | app/src/events.cpp:39-119 | In such a run the numbers a subscriber never gets are exactly those dropped from its queue, `summarized` many |
| Geometry.Rect.Intersected | include/mari/core/types.hpp:111-119 | Contains exactly the points of both; empty results are the zero rectangle |
| Geometry.Rect.United | include/mari/core/types.hpp:121-131 | The smallest rectangle with the points of both; an empty one contributes nothing |
| Geometry.TileIndexFor | include/mari/core/types.hpp:314-316 | Rounds down on both sides of zero |

## Left out

* A single model of the document: the layer tree and its snapshots know layers by id, while the compositor and the hashes see the same tree as a value, and no theorem links the two views. Tile maps outside `Tiles` are plain values, which is what `Tiles` justifies.
* Rounding of `f32`: distances, coverage and blending are over the reals. `feather`, `fromEllipse`, curves, smoothing, brush dynamics and the colour maths of the blend modes.
* 32-bit overflow of coordinates outside `expand`, and of 64-bit counters other than the two the code reduces (`spooled`, the bit count of SHA-256); a session is assumed to publish fewer than 2^64 frames.
* Failing allocations, and the error paths that only they can reach.
* Files, sockets, clocks and threads themselves: opening and closing files, `fflush` inside the C library, polling, connection set-up, and waiting for subscribers to become idle.
* Parsing and negotiating the greeting: the decoded resumption point and abilities are inputs. `localHandshake` and setting another sink during a session.
* Error messages, and which error code a failing call returns where a contract says only that it fails.
* Byte strides of pixel buffers: a buffer is a two-dimensional array of pixels, wide enough or refused. The packed-rows meaning of a stride of 0.
* Pixel formats other than RGBA8 in pictures and hashes (tiles have all formats). The hexadecimal spelling of digests. The hash of a group layer, which is that of a layer without tiles.
* The selection inside a document snapshot, which is assigned as a whole, and snapshot stores, labels, times and sizes. Masks are not recorded by snapshots in the original either.
* Undo commands of other kinds, and commands whose target map was replaced by a restore. Pixel buffers kept by callers beyond one write.
* Numbers that are not integers in JSON: reading and printing doubles is a parameter, and the round trip is about integral numbers. Equality of values is structural, which implies the equality of the original.
* The text layout of the proof log, the PNG codecs, imports and exports of other formats, command line and server front ends.
* Taking the event hub apart in its destructor, and the typed listener callbacks besides the general one.
- Restore.RestoreSnapshot: where a reattachment puts a layer on two lists the model stops with an error; the original goes on with the remaining nodes. Which layer is active afterwards is stated only if the snapshot recorded one, since otherwise the code leaves it as it is.
- Restore.PlaceNode: likewise stops where the original goes on after a reattachment that broke the tree.
- Snapshot.TakeSnapshot: does not record the selection, which is copied as a whole, nor label and time.
- Polygon.FromPolygon: does not model the refusal of points that are not finite, since every real is.
- PipeSink.Sink.Handshake: the greeting line is not part of the bytes counted as the wire, so a line cut short by a timeout (`sigan/src/pipe_sink.cpp:245-249`), after which the original keeps the connection, looks like silence; the peer then sees part of a line in front of the frames and loses their boundaries.
- PipeSink.Sink.RawWrite: the kernel's choice of prefix is arbitrary; an interrupted call that is retried is one call.
- Tiles.Release: a tile object dies when its map lets go of it; handles kept elsewhere are not modelled.
- Layers.LayerTree.Clone: allocation order of the new ids is fixed only for the top of the copy.
- Events.EventHub.OfferAll: order is promised only for fires that do not overlap, as in the original; overlapping fires keep the accounting but not the order.
- CanvasHash.CanvasHashOfPixels: the packed-rows meaning of a stride of 0 is not modelled. Equal digests mean equal bytes only up to collisions; the proofs are about the bytes.
