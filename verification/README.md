# Verified models of the Mayara radar server

Mayara is a server for marine radars. This project models the parts of it in
which state is kept over many messages, spokes or threads, and proves what those
parts promise for every input and every run.

| files | what is modelled | main results |
|---|---|---|
| `AisVessel`, `AisStore`, `AisProtocol`, `AisRuns` | the AIS vessel store: Signal K updates, delayed broadcasts, timeouts, all interleaved | `UpdateFromSignalK`, `NoLostUpdate`, `ClientViewSafety`, `BoundedStaleness`, `RateLimit`, `LostVesselWasSilent`, `Settles` |
| `Components`, `BlobDetector`, `BlobSweep`, `BlobRuns`, `BlobReport`, `SpokeArc` (with `Sorting`) | incremental detection of targets in the spokes of a turning radar | `ReportedAreTargets`, `RightExactly`, `DetectAll`, `FromBlob` |
| `Legend`, `RadarLegend`, `TrailAge`, `TrailZoom`, `Trails`, `TrailPosition` (with `Rows`, `Floors`) | target trails: ages of cells, rescaling, colours, and the offset of the true-motion image | `CellsAreAges`, `ZoomSpoke`, `UpdateRelativeTrails`, `TrailsMatchLegend`, `MovementConserved`, `AlwaysFraction` |
| `Slabs`, `RectangleClip`, `ExclusionMask`, `ExclusionCache` | exclusion zones: clipping of rectangles, the packed bit mask, and the cache in front of it | `ClipIsExact`, `ExcludedMeans`, `AddSpoke`, `ZonesThatPanic` |
| `Pcap`, `PcapMeaning`, `PcapWriter` | reading and writing packet captures | `CaptureMeans`, `CaptureRoundTrip`, `EncodingOfRecords`, `WriteParseRoundTrip`, `FixtureIsFaithful` |
| `FillSpokes` | filling the gaps between spokes on the display of the web viewer | `RowsShowLatest`, `TurnSweepsAll` |
| `Ranges` | range tables and their metric, nautical and mixed lists | `Partition`, `RebuildKeepsLists`, `RangeTable.Push` |
| `Cpa` | closest point of approach | `CpaIsMinimum`, `NoResultMeansNoApproach` |

Objects that the program updates in place are classes whose methods are proved
against functions on values. The theorems are about those functions and about
runs of them. Where a message, a spoke, a zone, a legend or a packet can make
the program panic, by an index out of range, an overflowing byte or a failed
assertion of a debug build, that is an outcome of the model (`None`, or
`ok == false`) with its exact condition. What stays a precondition is listed at
the end.

## Where the code does something else than its comments say

- The timeout task of the AIS store works in two critical sections. An update
  that arrives between them is dropped together with the vessel
  (`LostVesselWasSilent`, `LateUpdateIsDropped`).
- A spoke that meets a corner of a rectangle and goes on strictly between the
  two sides there meets both at the same distance, and only the corner is
  excluded. A spoke that meets a corner and then runs along an edge is clipped
  right (`ClipIsExact`, `CornerStretch`, `RectSpanIsExact`, `CornerEntryExample`,
  `ParallelNeverEnters`).
- On the closed ring the blob detector can join two targets that are apart in
  time. It is right after a spoke exactly when targets that come near each other
  on the ring are the same cells there (`SeparateIsExact`, `RightExactly`,
  `JoinsOnFourth`).
- The clamp of a sector zone is one pixel too far. It writes past the row
  exactly when the spoke length is a multiple of eight and an enabled zone
  reaches the range. Without spokes or without pixels the build fails too
  (`ZonesThatPanic`).
- The exclusion cache uses range 0 to say that it is invalid. At range 0 a mask
  built earlier for the same spoke length is kept, and is right exactly when it
  covers what the zones now held cover (`Refresh`, `StaleMaskAtRangeZero`).
- The running index of the trail zoom is reset once and not for each spoke.
  Radius 0 of every spoke but the first becomes 0 (`ZoomedRow`, `ZoomSpoke`).
- The saved rounding fraction of the trail image is a fraction only while every
  move fits 16 bits. The image starts at latitude and longitude 0, so the first
  position does not, and the moves after it reset the trails again and again
  (`AlwaysFraction`, `FirstPositionResets`).
- A trail buffer created without a value for the Doppler trails control takes
  every pixel for a strong return, empty ones included
  (`EmptyPixelLeavesTrail`).
- The trail buffer keeps the legend it was created with and ignores the one it
  is handed, while the radar's legend is rebuilt when Doppler, rain or the number
  of pixel values becomes known. Trails are drawn in the right colours of the
  legend in use exactly when its history colours start where they did, and in
  history entries at all exactly when they start at most one entry away
  (`RightColours`, `HistoryColours`, `TrailsMatchLegend`). On a radar with sixteen
  pixel values that turns out to have Doppler, the first shade is drawn as an
  approaching target (`LateDoppler`).
- A spoke with the same angle as the one before it counts as a whole turn and
  rewrites every row of the display (`RepeatSweepsWholeRing`).
- A new range table hands out its entries with the index they came with, which
  is their position exactly when the distances came in order
  (`OwnIndexIsPosition`).
- The writer of captures asserts, in debug builds, that payloads are at most
  65507 bytes. Without the assertion the round trip holds up to 65527
  (`WriteBytes`, `WriteParseRoundTrip`).
- The writer cuts seconds to 32 bits. A parsed capture that is written and parsed
  again keeps its times exactly when no packet lies 2^32 seconds or more after
  the first (`FixtureIsFaithful`, `LatePacketIsMoved`).
- Vessels with a squared relative speed below 1e-10 are said to keep their
  distance. They do exactly when the relative speed is zero (`StillIsConstant`).

## Model

| member | source | states |
|---|---|---|
| `AisVessel.UpdateFromSignalK` | src/lib/ais.rs:119-221 | after a message each of the nine fields is the last value under its own path (`navigation.headingTrue` for the heading, and so on), or what it was; a change is reported if and only if some entry says what the vessel did not hold before the message |
| `AisVessel.ApplyValues` | src/lib/ais.rs:126-217 | the same for the entries of one values array, with every path and every malformed value |
| `AisVessel.DecodeMeans` | src/lib/ais.rs:127-214 | an entry writes a field if and only if it has that field's path and a value of that field's shape; every other entry writes nothing |
| `AisVessel.EntryRoundTrip` | src/lib/ais.rs:127-214 | every write can be told by an entry and is decoded as told |
| `AisVessel.MessageTells` | src/lib/ais.rs:119-221 | the writes of a message leave in each field the last value under its path, and report a change if and only if some entry is news |
| `AisVessel.ClientsSee` | src/lib/ais.rs:83-100 | clients are shown each field under its own name, and dimensions if and only if one is known |
| `AisVessel.ApplyAllConcat` | src/lib/ais.rs:124-126 | a message split over several updates has the effect of its parts one after the other |
| `AisVessel.LastWriteWins` | src/lib/ais.rs:119-221 | every field after a message is the last value written to it, or what it was; identity, status and time are not written |
| `AisVessel.ChangeIsVisible` | src/lib/ais.rs:119-221 | a message that reports no change changed nothing, and one that reports a change leaves something known |
| `AisVessel.UnchangedForClients` | src/lib/ais.rs:83-100 | a message that reports no change is invisible to clients |
| `AisVessel.RepeatedMessage` | src/lib/ais.rs:119-221 | a message received twice leaves the vessel as received once, and the second time reports a change if and only if the message contradicts itself |
| `AisVessel.ApiIsFaithful` | src/lib/ais.rs:66-100 | what clients are sent determines every field except the time |
| `AisStore.ExtractMmsiFindsFirst` | src/lib/ais.rs:245-258 | a context names the digits after its first mark, and nothing when none follow |
| `AisStore.ExtractMmsiWithoutMark` | src/lib/ais.rs:245-258 | a context without the mark names no vessel |
| `AisStore.ExtractMmsiReads` | src/lib/ais.rs:245-258 | the decimals after the first `mmsi:` are the vessel's, however the context goes on, and none is no vessel |
| `AisStore.AisVesselStore.constructor` | src/lib/ais.rs:236-242 | the store starts empty |
| `AisStore.AisVesselStore.UpdateFields` | src/lib/ais.rs:271-279 | exactly one vessel is created blank or changed, to what the message says under each path, and whether that was news |
| `AisStore.AisVesselStore.ScheduleBroadcast` | src/lib/ais.rs:291-298 | a broadcast is due 100 ms after the first change; later changes do not move it |
| `AisStore.AisVesselStore.Update` | src/lib/ais.rs:262-287 | a context without vessel changes nothing; otherwise fields and schedule change together |
| `AisStore.AisVesselStore.CollectDue` | src/lib/ais.rs:307-317 | exactly the due vessels, once each |
| `AisStore.AisVesselStore.RemovePending` | src/lib/ais.rs:324-332 | exactly the collected entries leave the pending map |
| `AisStore.AisVesselStore.BroadcastVessels` | src/lib/ais.rs:335-343 | one message for each collected vessel that is still stored, in order |
| `AisStore.AisVesselStore.CollectTimedOut` | src/lib/ais.rs:367-378 | exactly the active vessels silent for more than 180 s, once each |
| `AisStore.AisVesselStore.DropLost` | src/lib/ais.rs:380-396 | the collected vessels are reported lost and removed, and no other vessel changes |
| `AisStore.AisVesselStore.GetAllActive` | src/lib/ais.rs:349-359 | every stored active vessel exactly once, as clients see it |
| `AisStore.BroadcastOnlyStored` | src/lib/ais.rs:402-410 | every message sent carries the state of a stored vessel |
| `AisStore.BroadcastAllStored` | src/lib/ais.rs:335-343 | every stored vessel of a batch is sent |
| `AisProtocol.ViewOfBroadcasts` | src/lib/ais.rs:335-343 | a batch tells clients about exactly the vessels of the batch that are stored |
| `AisProtocol.ViewAfter` | src/lib/ais.rs:402-410 | clients' view after a batch is the batch where it speaks and the old view elsewhere |
| `AisProtocol.InvStep` | src/lib/ais.rs:262-399 | every step of every task keeps the invariant that each stored vessel is known to clients, pending, in flight or blank |
| `AisProtocol.Reachable` | src/lib/ais.rs:262-399 | the invariant holds in every state of every interleaved run |
| `AisProtocol.NoLostUpdate` | src/lib/ais.rs:262-346 | in every interleaving, once nothing is pending or in flight, clients hold every stored vessel field for field |
| `AisProtocol.ClientViewSafety` | src/lib/ais.rs:349-399 | clients show a vessel as active only while it is stored, and stored vessels are active and keyed by their own identity |
| `AisProtocol.LateClientAgrees` | src/lib/ais.rs:349-359 | a client that connects when all is quiet is sent what an old client has put together |
| `AisProtocol.SentOrAwaiting` | src/lib/ais.rs:291-346 | news scheduled is, at every later state, sent or still on its way by its first due time |
| `AisProtocol.BoundedStaleness` | src/lib/ais.rs:225-346 | a change is sent, or the vessel reported lost, before a flush that starts 100 ms later has ended, however many updates follow |
| `AisProtocol.RateLimit` | src/lib/ais.rs:291-346 | two flushes that carry the same vessel start at least 100 ms apart |
| `AisProtocol.LostVesselWasSilent` | src/lib/ais.rs:363-399 | a vessel reported lost was silent for 180 s if and only if no update of it came between the two critical sections |
| `AisProtocol.SilentIsFound` | src/lib/ais.rs:363-378 | a timeout check finds exactly the vessels that were silent for more than 180 s when it began |
| `AisRuns.LateUpdateIsDropped` | src/lib/ais.rs:363-399 | for every vessel and every message that writes something: a run in which the message arrives between the two critical sections, is in the store, and is gone with the vessel after the drop |
| `AisRuns.SomeUpdateIsDropped` | src/lib/ais.rs:363-399 | there is such a run |
| `AisRuns.FirstWriteChanges` | src/lib/ais.rs:119-221 | the first write about a vessel is a change |
| `AisRuns.ComesToRest` | src/lib/ais.rs:281-346 | an update in progress and a started flush can always be brought to their end |
| `AisRuns.FlushesAll` | src/lib/ais.rs:302-346 | from rest one flush takes everything that was pending |
| `AisRuns.Settles` | src/lib/ais.rs:262-346 | every run can be continued, without news or timeouts, to a state in which nothing is on its way and clients agree with the store |
| `Components.ComponentsUnique` | src/lib/radar/target/blob.rs:442-531 | there is one partition of a set of cells into connected components, so that a state that is one is the one |
| `Components.MergeKeepsComponents` | src/lib/radar/target/blob.rs:488-530 | adding a cell and merging the parts it touches gives the components of the larger set |
| `Components.RemoveParts` | src/lib/radar/target/blob.rs:553-592 | taking whole parts away leaves the components of the rest |
| `Components.ComponentsOfApart` | src/lib/radar/target/blob.rs:533-551 | components of two sets that are apart are together the components of the union |
| `Components.ImagesAreComponents` | src/lib/radar/target/blob.rs:416-438 | the images of components are the components of the image if and only if no two different images come near |
| `BlobDetector.Detector.constructor` | src/lib/radar/target/blob.rs:232-252 | the detector starts without blobs, for any number of spokes to the turn; a threshold of zero becomes the default |
| `BlobDetector.NewDetector` | src/lib/radar/target/blob.rs:227-254 | no detector if and only if the Doppler band's start plus count exceed a byte or are both zero, so that the sum or the difference overflows; otherwise an intensity is Doppler if and only if it is in that band |
| `BlobDetector.DopplerBoundsMean` | src/lib/radar/target/blob.rs:237-239 | start and count as inclusive bounds select the band |
| `BlobDetector.Detector.AdjacentBlobIds` | src/lib/radar/target/blob.rs:416-438 | exactly the ids of the blobs with a cell in the 3 by 3 neighbourhood, across the zero spoke and at the edges, once each |
| `BlobDetector.Detector.AbsorbBlob` | src/lib/radar/target/blob.rs:505-517 | one blob's pixels and index entries go to the survivor, and nothing else changes |
| `BlobDetector.Detector.LowestId` | src/lib/radar/target/blob.rs:504-504 | the survivor is the smallest of the ids |
| `BlobDetector.Detector.MergeBlobs` | src/lib/radar/target/blob.rs:501-519 | all touching blobs become one under the lowest id |
| `BlobDetector.Detector.Place` | src/lib/radar/target/blob.rs:490-530 | a pixel starts a blob, extends one, or makes several one |
| `BlobDetector.Detector.AddPixel` | src/lib/radar/target/blob.rs:482-531 | after a pixel the blobs are again exactly the connected components of all indexed cells, and the index agrees with them |
| `BlobDetector.Detector.CollectStrong` | src/lib/radar/target/blob.rs:463-479 | exactly the pixels at or above the threshold or in the Doppler range |
| `BlobDetector.Detector.AddPixels` | src/lib/radar/target/blob.rs:481-531 | all strong pixels of a spoke are added and the invariant is kept |
| `BlobDetector.Detector.CollectFinished` | src/lib/radar/target/blob.rs:533-551 | exactly the blobs extended neither by this spoke nor by the one before |
| `BlobDetector.Detector.RemoveBlobs` | src/lib/radar/target/blob.rs:554-592 | finished blobs leave with all their index entries, and no other entry goes |
| `BlobDetector.Detector.ProcessSpoke` | src/lib/radar/target/blob.rs:459-557 | fails if and only if there are no spokes to the turn; otherwise, at the angle cut to 16 bits and taken round the turn, one step of the ring: held and finished blobs together are the components of the old cells plus the new, split by recency, and no two of them have the same cells |
| `BlobDetector.OnTurnMeans` | src/lib/radar/target/blob.rs:461-461 | the angle keeps its low 16 bits and is then taken round the turn |
| `BlobDetector.DistinctBodies` | src/lib/radar/target/blob.rs:482-531 | no two blobs of a reachable state have the same cells |
| `BlobRuns.StrongCellsAreNew` | src/lib/radar/target/blob.rs:461-479 | the strong pixels found on a spoke are the new cells of the sweep at that angle |
| `BlobSweep.WindowEmbeds` | src/lib/radar/target/blob.rs:416-438 | within one turn the ring brings nothing near that is not near on the unrolled strip |
| `BlobSweep.NarrowIsApart` | src/lib/radar/target/blob.rs:416-438 | while no growing target has a pixel a whole turn old, the targets stay apart on the ring |
| `BlobSweep.ApartIsSeparate` | src/lib/radar/target/blob.rs:416-438 | targets that are apart on the ring are separate there |
| `BlobSweep.OneCellOneBlob` | src/lib/radar/target/blob.rs:416-438 | two pixels that the ring makes one cell belong to targets that it makes one |
| `BlobSweep.TargetsSplit` | src/lib/radar/target/blob.rs:533-551 | a spoke leaves finished targets alone and regroups the rest |
| `BlobSweep.BodiesAreTargets` | src/lib/radar/target/blob.rs:482-551 | held and finished blobs are the regrouped targets if and only if no two targets of different cells come near on the ring |
| `BlobSweep.MeetsNew` | src/lib/radar/target/blob.rs:522-530 | a target meets the new cells on the ring if and only if it has a pixel of this spoke |
| `BlobSweep.OldPartIsTarget` | src/lib/radar/target/blob.rs:482-531 | a target without a pixel of this spoke is as it was |
| `BlobSweep.LastIsEnd` | src/lib/radar/target/blob.rs:74-93 | the noted last spoke of a blob is the time of its latest pixel |
| `BlobSweep.KeptIsRecent` | src/lib/radar/target/blob.rs:533-551 | a blob is kept if and only if it has a pixel of this spoke or the one before |
| `BlobSweep.SweepStep` | src/lib/radar/target/blob.rs:442-595 | if the detector holds the growing targets before a spoke, it does after it, and has handed over the just finished ones |
| `BlobRuns.ReportedAreTargets` | src/lib/radar/target/blob.rs:442-595 | over every run in which the targets stay separate on the ring, each spoke hands over exactly the connected targets of all spokes seen that it shows to be finished, and the detector holds exactly the others |
| `BlobRuns.RightExactly` | src/lib/radar/target/blob.rs:442-595 | over every run the detector is right after every spoke if and only if the targets stay separate |
| `BlobRuns.FinishedOnce` | src/lib/radar/target/blob.rs:533-551 | every finished target is handed over at one spoke only, two after its last pixel |
| `BlobRuns.EachIsOne` | src/lib/radar/target/blob.rs:533-551 | targets that stay apart on the ring are handed over as many blobs as there are targets |
| `BlobSweep.SeparateIsNeeded` | src/lib/radar/target/blob.rs:442-595 | when the detector is right after a spoke, targets near each other on the ring are the same cells there |
| `BlobSweep.SeparateIsExact` | src/lib/radar/target/blob.rs:442-595 | a detector that was right is right after a spoke if and only if targets near each other on the ring are the same cells there |
| `BlobSweep.SameImageSameBlob` | src/lib/radar/target/blob.rs:482-551 | a former target with the same cells on the ring as one without a pixel of this spoke also ends at the same time |
| `BlobRuns.RingJoins` | src/lib/radar/target/blob.rs:416-438 | two targets that are apart in time and near on a ring of four spokes |
| `BlobRuns.JoinsOnFourth` | src/lib/radar/target/blob.rs:442-595 | a detector of four spokes that is right for three of them and wrong after the fourth |
| `BlobRuns.DetectNext` | src/lib/radar/target/blob.rs:442-595 | one more spoke keeps the detector in step with the sweep |
| `BlobRuns.DetectAll` | src/lib/radar/target/blob.rs:442-595 | the detector fed any spokes: if the targets stay separate, every spoke hands over exactly the targets it shows to be finished, no blob twice, and the growing ones are held; if they stay apart, as many blobs as there are such targets |
| `BlobRuns.FinishedIsFinal` | src/lib/radar/target/blob.rs:533-595 | a target once finished is a target of every longer history |
| `SpokeArc.WidestGap` | src/lib/radar/target/blob.rs:137-162 | the first of the widest gaps between occupied spokes, round the ring |
| `SpokeArc.FromSpokes` | src/lib/radar/target/blob.rs:130-170 | the arc covers all the spokes, no covering arc is shorter, and the centre is half way along it |
| `SpokeArc.FromBlob` | src/lib/radar/target/blob.rs:122-170 | the same for a blob's spokes in any order and with repeats |
| `BlobReport.CalculateSize` | src/lib/radar/target/blob.rs:365-387 | with a range and pixels the size is the larger of the metres from the innermost to the outermost pixel and the metres of the smallest arc at the mean distance, and otherwise 0 |
| `BlobReport.SizeIsLarger` | src/lib/radar/target/blob.rs:371-386 | the computed size is at least either extent and equals one of them |
| `BlobReport.SizeIsUnique` | src/lib/radar/target/blob.rs:365-387 | a set of cells has one size |
| `BlobReport.ReportTargets` | src/lib/radar/target/blob.rs:553-587 | exactly the blobs of at least 25 pixels and 5 to 1000 m are reported, in order |
| `BlobReport.ProcessSpoke` | src/lib/radar/target/blob.rs:442-595 | a spoke as a whole: the last range and length that were not zero, a step of the ring, and the filter; fails if and only if there are no spokes to the turn |
| `SpokeArc.ComplementCovers` | src/lib/radar/target/blob.rs:114-121 | leaving out one gap leaves an arc over all spokes |
| `SpokeArc.NoSmallerArc` | src/lib/radar/target/blob.rs:108-116 | an arc over all spokes leaves out at most the widest gap |
| `Legend.ByteBudget` | src/lib/radar/mod.rs:926-950 | each byte operation checked in turn: the first overflow comes exactly when the bands exceed the budget |
| `Legend.DefaultLegend` | src/lib/radar/mod.rs:907-1094 | no legend if and only if two or three bands of Doppler levels and the colours of targets exceed 254; otherwise the bands follow each other without gap or overlap, each of its own type and length |
| `Legend.BrightnessFits` | src/lib/radar/mod.rs:1012-1017 | the brightness of a Doppler level is a byte, its product fits 16 bits, and no level is darker than the one before |
| `Legend.PushBand` | src/lib/radar/mod.rs:1011-1028 | a Doppler band has an entry for each level, of bytes that never get darker and end with the brightest |
| `Legend.PushIntensities` | src/lib/radar/mod.rs:952-1007 | the plain intensities, the thresholds at thirds, and the static background |
| `Legend.PushDoppler` | src/lib/radar/mod.rs:1009-1069 | three Doppler bands with their starts and counts |
| `Legend.PushHistory` | src/lib/radar/mod.rs:1071-1090 | 32 history colours at the end, unless targets are off |
| `Legend.FitsInBytes` | src/lib/radar/mod.rs:939-950 | a legend has at most 254 entries and every index in it is a byte |
| `Legend.BandsAreExact` | src/lib/radar/mod.rs:1000-1090 | an entry is of a Doppler type, or history, if and only if it lies in that band |
| `Legend.FitsHasHistoryBand` | src/lib/radar/mod.rs:1071-1090 | the history band lies whole within the legend, from 222 at the latest |
| `TrailAge.AgeCounts` | src/lib/radar/trail.rs:528-534 | an age is the number of updates since the last strong return, counting that one, and 0 from the wrap at 65536 on |
| `TrailAge.NoStrongNoAge` | src/lib/radar/trail.rs:528-557 | without a strong return since the last short spoke a cell is 0 |
| `TrailAge.AgePositive` | src/lib/radar/trail.rs:528-557 | a cell shows a trail if and only if it has a last strong return fewer than 65536 updates ago |
| `TrailAge.MaxAgeBound` | src/lib/radar/trail.rs:150-176 | with the lengths and rotation times that can be set, the maximum age is at most 1993 and is not truncated |
| `TrailAge.ShadeBound` | src/lib/radar/trail.rs:536-549 | the 16-bit product does not wrap and the shade is between 1 and 31 |
| `TrailAge.ShadeMonotone` | src/lib/radar/trail.rs:536-549 | an older trail never gets an earlier colour |
| `TrailZoom.OriginIsLeast` | src/lib/radar/trail.rs:563-580 | the closed form names the least old cell whose image reaches a new cell |
| `TrailZoom.ZoomSpoke` | src/lib/radar/trail.rs:567-582 | the loop with its running index gives each new cell the old cell of the closed form, or 0, and loses radius 0 unless the index starts at 0 |
| `Trails.CellsAreAges` | src/lib/radar/trail.rs:502-594 | over every run of updates, clears and range changes, each cell is the age of the echoes that what it shows has been through |
| `Trails.OtherAnglesKept` | src/lib/radar/trail.rs:519-521 | an update leaves the other angles as they are |
| `Trails.NoHistoryNoTrails` | src/lib/radar/trail.rs:528-534 | without history colours every cell stays 0 |
| `Trails.DrawnInHistoryBand` | src/lib/radar/trail.rs:536-550 | a pixel is left alone or becomes a byte among the first 31 history colours |
| `Trails.DrawnPixel` | src/lib/radar/trail.rs:536-550 | the same in every reachable state, for the legend of the buffer, with or without history colours |
| `Trails.SameStartSameColours` | src/lib/radar/trail.rs:178-183 | what is drawn in one legend's history colours is drawn in those of another that starts them at the same entry |
| `Trails.RightColours` | src/lib/radar/trail.rs:536-550 | every age that can be drawn gets a history colour of the legend in use, of the right shade, if and only if its history starts where the buffer's does |
| `Trails.HistoryColours` | src/lib/radar/trail.rs:536-550 | every age that can be drawn gets some history entry of the legend in use if and only if that legend has history colours that start where the buffer's do, one entry before, or one after with the static background between |
| `Trails.DopplerOnlyTrails` | src/lib/radar/trail.rs:596-602 | with Doppler trails only, a pixel counts as strong if and only if its legend entry is of a Doppler type |
| `Trails.EmptyPixelLeavesTrail` | src/lib/radar/trail.rs:53-60 | an empty pixel counts as a strong return if and only if the Doppler control is absent or the legend has at most three intensities |
| `Trails.AgeCell` | src/lib/radar/trail.rs:528-550 | one cell: the next age, and the pixel drawn for it, which changes only in relative motion, at a return of 0 or 1 and an age below the maximum |
| `Trails.ShownIsDrawn` | src/lib/radar/trail.rs:516-550 | which pixels are drawn over and with which colour, in terms of the length of trails and the time of a rotation |
| `Trails.AgeSpoke` | src/lib/radar/trail.rs:525-557 | the two loops age one row, clear its end, draw the spoke and touch no other cell, or index out of range exactly when the spoke is longer than the row |
| `Trails.SliceEnds` | src/lib/radar/trail.rs:519-521 | which angles have a slice of the buffer |
| `Trails.AgeRow` | src/lib/radar/trail.rs:519-557 | the same on the buffer seen as rows, with the slice taken first |
| `Trails.ZoomRows` | src/lib/radar/trail.rs:563-589 | every spoke is rescaled by the closed form; only the first keeps radius 0 |
| `Trails.TrailBuffer.constructor` | src/lib/radar/trail.rs:43-87 | all cells start at 0 and trails are off |
| `Trails.TrailBuffer.SetRelativeTrailsLength` | src/lib/radar/trail.rs:150-171 | one of seven lengths; other control values are ignored |
| `Trails.TrailBuffer.SetRotationSpeed` | src/lib/radar/mod.rs:496-517 | the rotation time when it is between 301 and 9999 ms, else 0 |
| `Trails.TrailBuffer.SetDopplerTrailOnly` | src/lib/radar/trail.rs:596-606 | which returns count as strong |
| `Trails.TrailBuffer.ClearTrails` | src/lib/radar/trail.rs:591-594 | a clear is recorded and every cell is 0 |
| `Trails.TrailBuffer.UpdateRelativeTrails` | src/lib/radar/trail.rs:502-560 | fails exactly when trails are on and the angle has no slice or the spoke is too long; otherwise one row is aged, cell by cell, and the others are kept; a pixel above 1, or any in true motion, is left alone, and a pixel of 0 or 1 becomes its shade if and only if its age is above 0 and below the length of trails in rotations; every changed pixel is a history colour of every legend whose history starts where the buffer's does |
| `Trails.TrailBuffer.ZoomRelativeTrails` | src/lib/radar/trail.rs:563-589 | a rescaling is one step of the run |
| `Trails.TrailBuffer.UpdateTrails` | src/lib/radar/trail.rs:178-205 | a change between two known ranges rescales by their quotient before the update; an unknown range changes nothing; the update is at the angle cut to 16 bits, in colours that are right for the legend in use if its history starts where the buffer's does; fails exactly as the update does |
| `RadarLegend.FitsStart` | src/lib/radar/mod.rs:907-1094 | where the history colours of a legend start, from the settings it was built with |
| `RadarLegend.RadarInfo.constructor` | src/lib/radar/mod.rs:357-395 | the legend of a new radar always fits, with one Doppler level or none |
| `RadarLegend.RadarInfo.Rebuild` | src/lib/radar/mod.rs:435-494 | a new legend for the settings now held, or the overflow, exactly when the budget is negative |
| `RadarLegend.RadarInfo.SetDoppler` | src/lib/radar/mod.rs:435-447 | a change of Doppler rebuilds the legend with one level or none |
| `RadarLegend.RadarInfo.SetDopplerLevels` | src/lib/radar/mod.rs:451-466 | the levels are set and the legend is rebuilt |
| `RadarLegend.RadarInfo.SetHasRainClass` | src/lib/radar/mod.rs:470-481 | a change of the rain class rebuilds the legend |
| `RadarLegend.RadarInfo.SetPixelValues` | src/lib/radar/mod.rs:483-494 | a change of the pixel values rebuilds the legend and never overflows |
| `RadarLegend.RadarInfo.TrailsMatchLegend` | src/lib/radar/mod.rs:1600-1601 | in every reachable state of the radar its trails are drawn in the right colours of its legend if and only if its settings start the history colours where the buffer's legend did |
| `RadarLegend.LateDoppler` | src/lib/radar/mod.rs:1600-1601 | a radar set to Doppler after its trail buffer was made, on which two spokes draw the pixel of an approaching target |
| `TrailPosition.FractionIsSmall` | src/lib/radar/trail.rs:320-330 | what the cast leaves over is below one if and only if the value fits 16 bits |
| `TrailPosition.SavedIsFraction` | src/lib/radar/trail.rs:315-330 | after a move each saved part is below one pixel if and only if that component, with the part saved before, fits 16 bits |
| `TrailPosition.AlwaysFraction` | src/lib/radar/trail.rs:261-361 | over every run less than a pixel is always saved if and only if every move fits |
| `TrailPosition.RemainderLasts` | src/lib/radar/trail.rs:320-346 | one move takes at most 32768 pixels off a remainder, and with one of 101 pixels or more it is a reset |
| `TrailPosition.KeepsResetting` | src/lib/radar/trail.rs:320-346 | while a remainder lasts every move resets the trails, however small, unless it is southward by more than a pixel |
| `TrailPosition.FirstPositionResets` | src/lib/radar/trail.rs:69-71 | after the scale has been set, a first position at 52 degrees north leaves 1411793 pixels, and each of the next 43 moves, none more than a pixel southward, resets the trails |
| `TrailPosition.TrailImage.constructor` | src/lib/radar/trail.rs:62-86 | no offset, no fraction, no scale |
| `TrailPosition.TrailImage.ShiftImageLatToCenter` | src/lib/radar/trail.rs:364-407 | an offset inside the margin becomes 0, another stays |
| `TrailPosition.TrailImage.ShiftImageLonToCenter` | src/lib/radar/trail.rs:410-453 | the same for longitude |
| `TrailPosition.TrailImage.SetScale` | src/lib/radar/trail.rs:188-195 | a new range sets the scale |
| `TrailPosition.TrailImage.TakeScale` | src/lib/radar/trail.rs:282-303 | a scale off by more than a factor of four ends the update; another new scale centres the image |
| `TrailPosition.TrailImage.ApplyMovement` | src/lib/radar/trail.rs:314-359 | whole pixels, saved fraction, the reset on huge shifts, and centring before the margin is passed |
| `TrailPosition.TrailImage.UpdateTrailPosition` | src/lib/radar/trail.rs:261-361 | one update is one step of the position run, and within the margin does what NextIsUpdated says; at range 0 it recentres an image that has left its margin and does nothing else |
| `TrailPosition.NextIsUpdated` | src/lib/radar/trail.rs:261-361 | one update in degrees, metres and pixels: when it is refused, when it recentres, how much of the movement along each axis is whole pixels and what is saved, and that 100 pixels or more are not applied |
| `TrailPosition.MarginKept` | src/lib/radar/trail.rs:261-361 | over every run both offsets stay strictly within 100 pixels |
| `TrailPosition.OffsetFollowsShift` | src/lib/radar/trail.rs:289-359 | the offset moves by the shift, and starts from the centre only after a new scale or when the margin would be passed |
| `TrailPosition.MovementConserved` | src/lib/radar/trail.rs:305-330 | over every run the exact movement is the whole pixels shifted plus the change of the saved fraction |
| `TrailPosition.LatitudeIsExact` | src/lib/radar/trail.rs:305-330 | at one scale the pixels shifted northward plus the fraction are the distance between first and last position, whatever the way |
| `RectangleClip.IsPointInPolygon` | src/lib/radar/exclusion.rs:43-79 | inside if and only if no two edges clearly disagree about the side |
| `RectangleClip.ClipRay` | src/lib/radar/exclusion.rs:163-208 | the loop over the four edges and the choice of the stretch |
| `RectangleClip.HitMeans` | src/lib/radar/exclusion.rs:170-188 | a hit is a distance ahead at which the ray meets the edge, if and only if the two are not parallel within the tolerance |
| `RectangleClip.InRectMeans` | src/lib/radar/exclusion.rs:132-154 | the rectangle lies to the right of its edge, within its ends and its width |
| `RectangleClip.StopsAtEntryMeans` | src/lib/radar/exclusion.rs:190-208 | the chosen stretch ends where it starts, although the ray goes on, if and only if the ray comes in through a corner |
| `RectangleClip.ClipIsExact` | src/lib/radar/exclusion.rs:132-208 | the excluded stretch of a spoke lies in the rectangle, and is all of the spoke in it if and only if the spoke does not meet a corner and go on strictly between the sides there; the origin test is right |
| `RectangleClip.CornerStretch` | src/lib/radar/exclusion.rs:190-208 | a spoke that enters through a corner is excluded at that corner and nowhere else |
| `RectangleClip.ParallelNeverEnters` | src/lib/radar/exclusion.rs:175-188 | a spoke parallel to a side never enters through a corner |
| `RectangleClip.CornerEntryExample` | src/lib/radar/exclusion.rs:193-208 | a rectangle and a spoke of which only the corner is excluded |
| `Bits.SetBitEffect` | src/lib/radar/exclusion.rs:119-123 | setting a bit sets that bit and disturbs no other |
| `ExclusionMask.SetBits` | src/lib/radar/exclusion.rs:116-123 | a run of bits is set, or the write leaves the row, and exactly when |
| `ExclusionMask.Paint` | src/lib/radar/exclusion.rs:103-124 | one zone on every spoke adds its pixels and removes none |
| `ExclusionMask.ZoneSpans` | src/lib/radar/exclusion.rs:101-118 | the spans of one zone on every spoke |
| `ExclusionMask.RectSpans` | src/lib/radar/exclusion.rs:132-212 | the spans of a rectangle: its corners, the origin test once, and an intersection with each spoke |
| `ExclusionMask.StretchPixels` | src/lib/radar/exclusion.rs:210-212 | the pixels from the first to the last of a stretch are those that some point of it falls on |
| `ExclusionMask.RectSpanIsExact` | src/lib/radar/exclusion.rs:132-219 | a rectangle excludes a pixel if and only if a point of the spoke on that pixel lies in it and, should the spoke enter through a corner, is that corner; at range 0 it excludes the whole spoke or nothing, the former if and only if the origin lies in it and the spoke goes on inside |
| `ExclusionMask.StretchExcludes` | src/lib/radar/exclusion.rs:190-212 | which points of a spoke a rectangle excludes, with corner entry and without |
| `ExclusionMask.SpanAtRangeZero` | src/lib/radar/exclusion.rs:210-219 | the case of range 0 |
| `ExclusionMask.SpanExists` | src/lib/radar/exclusion.rs:190-219 | a rectangle has a span on a spoke if and only if the spoke has a point in it |
| `ExclusionMask.ExcludedMeans` | src/lib/radar/exclusion.rs:90-240 | for every mask, range and spoke a pixel is excluded if and only if a sector has it or a rectangle excludes it in that sense |
| `ExclusionMask.NewMask` | src/lib/radar/exclusion.rs:90-228 | building panics if and only if a write leaves a row; otherwise a bit is set if and only if some zone covers that pixel |
| `ExclusionMask.CoveredMeans` | src/lib/radar/exclusion.rs:101-221 | coverage by zones is coverage by the spans painted |
| `ExclusionMask.OverrunsMeans` | src/lib/radar/exclusion.rs:116-123 | where a write leaves its row |
| `ExclusionCache.ApplyMask` | src/lib/radar/mod.rs:1512-1520 | exactly the excluded pixels become 0 |
| `ExclusionCache.EndReachesRange` | src/lib/radar/exclusion.rs:260-261 | the end pixel is the spoke length if and only if the zone reaches the range or there are no pixels |
| `ExclusionCache.SectorMeans` | src/lib/radar/exclusion.rs:244-269 | a zone has a pixel of a spoke if and only if the spoke lies on the forward arc between the spokes of its two turns and the pixel between its two distances, for every turn and distance |
| `ExclusionCache.SpokeWithinTurn` | src/lib/radar/exclusion.rs:253-257 | within the first turn the spoke of a turn is the one whose part of the turn holds it |
| `ExclusionCache.PlanExcludes` | src/lib/radar/mod.rs:1451-1490 | what the plan covers is what the enabled zones and rectangles exclude, by their configured turns and metres |
| `ExclusionCache.ZonesThatPanic` | src/lib/radar/exclusion.rs:98-123 | which zones make the build panic, if and only if, in terms of the configured distances, at every range, spoke length and number of spokes |
| `ExclusionCache.CommonRadar.constructor` | src/lib/radar/mod.rs:1434-1446 | no mask is held |
| `ExclusionCache.CommonRadar.SetZone` | src/lib/radar/mod.rs:1274-1302 | a changed zone invalidates the cache |
| `ExclusionCache.CommonRadar.SetRect` | src/lib/radar/mod.rs:1303-1330 | a changed rectangle invalidates the cache |
| `ExclusionCache.MaskOfAnother` | src/lib/radar/mod.rs:1439-1446 | a mask is that of another plan if and only if the plans cover the same pixels |
| `ExclusionCache.CommonRadar.Rebuild` | src/lib/radar/mod.rs:1448-1490 | a build under a new key gives the mask of the zones now held, none without zones, or the panic of a write past a row or of a remainder by no spokes |
| `ExclusionCache.CommonRadar.Refresh` | src/lib/radar/mod.rs:1434-1491 | in every reachable state, at a range above 0 or without a matching key the mask is then the one a fresh build gives; with a matching key it is kept, and is current if and only if there are zones, they do not panic and they cover what the mask was built from |
| `ExclusionCache.CommonRadar.AddSpoke` | src/lib/radar/mod.rs:1493-1522 | in every reachable state and at every range exactly the pixels that the held mask was built to cover are blanked, after the replay circle; above range 0 or without a matching key those are the pixels that the enabled zones exclude by their configured turns and metres |
| `ExclusionCache.StaleMaskAtRangeZero` | src/lib/radar/mod.rs:1439-1446 | a reachable state without zones whose mask still excludes a pixel at range 0 |
| `Bytes.SwapReadsBigEndian` | src/lib/pcap.rs:79-82 | reading little endian and swapping is reading big endian |
| `Pcap.ParseBytes` | src/lib/pcap.rs:60-125 | parsing computes the parse function on every input, with every error |
| `Pcap.ParseRecords` | src/lib/pcap.rs:93-125 | the loop over the records, within 64-bit arithmetic |
| `PcapMeaning.FrameMeans` | src/lib/pcap.rs:127-180 | on arbitrary bytes: a packet is found if and only if the frame has an IPv4 header of at least 20 bytes, UDP, neither fragment bits nor offset, and all of its datagram; addresses, ports and payload by their offsets, whatever the other flags, options and padding |
| `PcapMeaning.RecordsMean` | src/lib/pcap.rs:97-109 | the records by the offsets they start at, up to one that is cut off |
| `PcapMeaning.TimeMeans` | src/lib/pcap.rs:113-119 | a record's time after another in nanoseconds, and never below 0 |
| `PcapMeaning.PacketsMean` | src/lib/pcap.rs:93-125 | every UDP frame and nothing else gives a packet, in order, timed from the first of them |
| `PcapMeaning.ErrorsMean` | src/lib/pcap.rs:61-92 | which captures are refused and why, by their bytes |
| `PcapMeaning.CaptureMeans` | src/lib/pcap.rs:60-125 | what an accepted capture holds, from bytes to packets |
| `Pcap.TimestampFits` | src/lib/pcap.rs:113-119 | no product or sum of the timestamps overflows 64 bits |
| `Pcap.MagicTellsFormat` | src/lib/pcap.rs:65-77 | the four magic numbers tell the four formats apart in either byte order |
| `Pcap.RecordsOfEncoding` | src/lib/pcap.rs:97-109 | decoding undoes encoding of records in both byte orders |
| `Pcap.CaptureRoundTrip` | src/lib/pcap.rs:60-125 | a capture written in any of the four formats parses to its records, filtered |
| `Pcap.EncodingOfRecords` | src/lib/pcap.rs:97-109 | the records account for every byte up to an incomplete record |
| `Pcap.TruncationGivesPrefix` | src/lib/pcap.rs:97-106 | a capture cut anywhere after its header loses packets only from the end |
| `PcapWriter.WriteBytes` | src/lib/pcap.rs:185-241 | the loop produces the encoding of the packets, or in a debug build fails exactly when some payload exceeds 65507 bytes; what a debug build writes always parses back |
| `PcapWriter.FrameParses` | src/lib/pcap.rs:127-180 | what the parser makes of a written frame, for every payload length |
| `PcapWriter.FrameFields` | src/lib/pcap.rs:202-240 | the bytes of a written frame besides addresses, ports and payload |
| `PcapWriter.CaptureStarts` | src/lib/pcap.rs:188-197 | the 24 bytes that a written capture starts with |
| `PcapWriter.FrameRoundTrip` | src/lib/pcap.rs:202-240 | a written frame parses to the same packet if and only if its payload is at most 65527 bytes |
| `PcapWriter.MicrosExact` | src/lib/pcap.rs:206-208 | seconds and microseconds of a time are the time cut to microseconds |
| `PcapWriter.OnePacketPerRecord` | src/lib/pcap.rs:111-121 | at most one packet per record |
| `PcapWriter.WriteParseRoundTrip` | src/lib/pcap.rs:185-241 | parsing what is written gives back all packets, rebased and cut to microseconds, if and only if every payload is at most 65527 bytes |
| `PcapWriter.FixtureIsFaithful` | src/lib/pcap.rs:397-420 | whatever bytes were parsed, writing and parsing again changes only digits below a microsecond if and only if no packet lies 2^32 seconds or more after the first |
| `PcapWriter.LatePacketIsMoved` | src/lib/pcap.rs:206-208 | a capture of two packets of which the second comes back at another time |
| `PcapWriter.ParsedFit` | src/lib/pcap.rs:111-121 | every parsed packet fits a frame, and the first is at time 0 |
| `FillSpokes.PutRow` | web/gui/spoke_processor.js:152-169 | a row gets the spoke and zeros, or nothing when it would run past the buffer |
| `FillSpokes.FillSpokeProcessor.constructor` | web/gui/spoke_processor.js:119-122 | no angle has been seen |
| `FillSpokes.FillSpokeProcessor.Reset` | web/gui/spoke_processor.js:124-127 | no angle has been seen |
| `FillSpokes.FillSpokeProcessor.FillGap` | web/gui/spoke_processor.js:181-200 | the loop over the missing angles writes each of them, or none without spokes to the turn |
| `FillSpokes.FillSpokeProcessor.ProcessSpoke` | web/gui/spoke_processor.js:129-170 | one spoke: the gap, then the row, then the angle remembered |
| `FillSpokes.StepLands` | web/gui/spoke_processor.js:172-185 | the i-th step lands on an angle if and only if i is the gap to it |
| `FillSpokes.WriteRowRows` | web/gui/spoke_processor.js:152-169 | writing one row changes that row and no other |
| `FillSpokes.FillRowsRows` | web/gui/spoke_processor.js:181-200 | the gap loop rewrites exactly the rows strictly between two angles |
| `FillSpokes.ProcessedRows` | web/gui/spoke_processor.js:129-170 | a spoke rewrites exactly the circular interval after the last angle up to its own |
| `FillSpokes.RepeatSweepsWholeRing` | web/gui/spoke_processor.js:172-179 | a spoke rewrites every row if and only if it repeats the last angle |
| `FillSpokes.RowsShowLatest` | web/gui/spoke_processor.js:129-200 | over every run a row shows the spoke that last swept it |
| `FillSpokes.TurnSweepsAll` | web/gui/spoke_processor.js:129-200 | once the spokes have turned as far as a row, it has been swept |
| `Ranges.NearMeans` | src/lib/radar/range.rs:108-110 | near is within one of a multiple, and below zero only the multiples themselves |
| `Ranges.MetricMeans` | src/lib/radar/range.rs:118-136 | the metric distances are those within one of a multiple of 25 up to 100, of 50 up to 750 and of 500 beyond, and 125; below zero the multiples of 25 |
| `Ranges.ListedExactly` | src/lib/radar/range.rs:225-238 | a list holds exactly the positions that belong to it, each with its distance |
| `Ranges.ListedIncreasing` | src/lib/radar/range.rs:225-238 | no position is listed twice |
| `Ranges.Partition` | src/lib/radar/range.rs:225-238 | every position is in exactly one of the metric and nautical lists |
| `Ranges.MixedMeans` | src/lib/radar/range.rs:225-238 | mixed is metric up to 1000 and nautical beyond 1500 |
| `Ranges.SortSorts` | src/lib/radar/range.rs:224-224 | the table is ordered by distance and is a permutation |
| `Ranges.SortStable` | src/lib/radar/range.rs:224-224 | equal distances keep their order |
| `Ranges.SelectSort` | src/lib/radar/range.rs:224-238 | choosing from a sorted table is sorting what was chosen |
| `Ranges.OwnIndexIsPosition` | src/lib/radar/range.rs:239-245 | an entry's own index is its position if and only if the distances came in order |
| `Ranges.RebuildKeepsLists` | src/lib/config.rs:383-387 | a table rebuilt from persisted distances has the same lists, each in ascending order |
| `Ranges.RangeTable.constructor` | src/lib/radar/range.rs:218-246 | the loop builds exactly the three lists of the sorted table |
| `Ranges.RangeTable.ListDistance` | src/lib/radar/range.rs:226-237 | one distance enters the lists it belongs to |
| `Ranges.RangeTable.Push` | src/lib/radar/range.rs:282-303 | a distance is refused if and only if the table has it, and otherwise table and lists stay consistent |
| `Ranges.RangeTable.ListsLeadBack` | src/lib/radar/range.rs:305-311 | every entry of every list leads back to its own distance |
| `Ranges.NewByDistance` | src/lib/radar/range.rs:274-280 | the table of numbered distances |
| `Ranges.FromRange` | src/lib/radar/range.rs:261-272 | exactly the known distances within bounds, once each, ascending, with their own positions |
| `Sorting.SortSorts` | src/lib/radar/range.rs:269-269 | sorting orders and keeps the elements |
| `Sorting.DedupIncreases` | src/lib/radar/range.rs:269-270 | removing repeats from sorted distances keeps each once |
| `Cpa.Parabola` | src/lib/radar/cpa.rs:66-93 | the squared separation of the two vessels is a parabola in time |
| `Cpa.CpaIsMinimum` | src/lib/radar/cpa.rs:50-95 | a result is in the future, and the separation at every time is at least the result's, with equality at that time only |
| `Cpa.NoResultMeansNoApproach` | src/lib/radar/cpa.rs:70-85 | there is no result if and only if the squared relative speed is below 1e-10 or the vessels never come closer than now |
| `Cpa.StillIsConstant` | src/lib/radar/cpa.rs:73-76 | the distance is constant if and only if there is no relative motion at all |

## Left out

- Floating point: distances, angles, times and factors are exact reals or rationals; sines, cosines and square roots are given.
- ClipIsExact: excludes rays and rectangles for which a cross product is non-zero but within the code's tolerance of 1e-10, because the tolerance decides those and not the geometry.
- RectSpanIsExact: excludes the rays and rectangles that ClipIsExact excludes, as do ExcludedMeans and SpanExists, for the same reason.
- ProcessedRows: is about spokes whose angle and length fit the display, as are RowsShowLatest and TurnSweepsAll; ProcessSpoke is about all.
- ReportedAreTargets: is about detectors fed consecutive spokes on a ring of at least three, while the targets stay separate, because otherwise the ring joins what the sweep keeps apart; RightExactly says that this is exact. A turn with a skipped spoke is not a sweep.
- UpdateTrailPosition: at range 0 requires a spoke with pixels and a scale that was set, because otherwise the source divides zero by zero; which calls wipe the images is not modelled.
- UpdateTrails: is about spokes without a bearing, because the true-motion image that other spokes also update is not modelled.
- FromRange: takes the table of known distances as a parameter; the constants in it are not modelled.
- The pixel contents of the true-motion trail image and its zoom; only its offset bookkeeping is modelled. Its resets also clear the relative trails, which the model takes as clears of the run.
- ProcessSpoke: reported blobs carry their pixels; their contour, centre and guard zones are not modelled.
- Overflow of the 32-bit blob id counter.
- Colours of legend entries; only their types and positions are modelled.
- Lock poisoning, slow receivers of the broadcast channel, and messages sent while a client is connecting.
- A vessel is a value in the store's map, not an object of its own.
- File access, decompression and the error texts of the capture reader.
- Machine integers are unbounded except where a width is named; indices are 64 bits wide.
- The tracking filter for targets, the network protocols of the radar brands, the web server and the settings.
