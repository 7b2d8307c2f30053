# Timepix3 file import, modelled in Dafny

JCEP-Spectral-HOM reads raw Timepix3 recordings (`.tpx3` files: chunks of
little-endian 64-bit packets) and turns each file into a `Tpx3Image`. A
background `LoadRawFileThread` runs the import pipeline:

1. `parseRawData` decodes the chunks. It keeps the pixel packets that pass the
   two-band spatial mask and shifts each timestamp by the ToT calibration.
2. `sort_timestamps` stably sorts the hits by time of arrival.
3. `cluster` groups hits that are close in x, y and time, drops groups below
   the minimum size, and numbers the rest.
4. `centroid` computes one ToT-weighted position and one brightest-hit time
   per cluster.
5. `findCoincidences` groups centroids whose times fall within the coincidence
   window of the first centroid of a run.

Around the pipeline sit other parts of the program, also modelled here:

- the parallel-array hit record `PixelData`;
- the histograms of `Tpx3Image`;
- the two-line fit helpers of `LinePair`;
- the mask dialog that picks the line orientation and turns a fit into a `SpatialMask`;
- the settings panel with its ToT-calibration parser;
- the file list of the input panel;
- the queued/loading/loaded state of each file's progress bar.

One Dafny module per source file:

| module | file | form |
|---|---|---|
| `Tpx3` (tpx3.dfy) | `src/tpx3/tpx3.h`, `src/tpx3/PixelData.cpp` | datatypes and functions |
| `RawDecoder` | `parseRawData` | functions for the bit layout; `ParseRawData` is a loop method proved equal to `DecodeFile` |
| `TimestampSort` | `sort_timestamps` | specification of a stable sort, and a method that gathers the arrays through it |
| `Connectivity`, `Clustering` | `cluster` | box adjacency and its components; the labelling loop as methods with invariants |
| `Centroids` | `centroid` | the accumulation loop, proved against a recursive specification |
| `Coincidences` | `findCoincidences` | the scan loop, proved against a span decomposition |
| `Pipeline` | `execute`, `finish` | stage gating |
| `Tpx3Images` | `src/tpx3/Tpx3Image.cpp` | the count loops as methods |
| `LinePairs` | `src/tpx3/LinePair.cpp` | band and nearest-line functions; profile and guess loops |
| `MaskDialog` | `src/ui/SetImageMaskDialog.cpp` | a class with the dialog's state |
| `SettingsPanel` | `src/ui/FileInputSettingsPanel.cpp` | the calibration parser, and a class for the panel |
| `FileInputPanels` | `src/ui/FileInputPanel.cpp` | a class over the file list and the table rows |
| `ProgressBars` | `src/ui/FileImportProgressBar.cpp` | a class with the three flags, plus their transition function |

Modelling choices:

- Timestamps are integer ticks of 1.5625 ns. The ToT calibration enters the
  decoder as one integer tick offset per ToT code (`Pipeline.CorrectionTicks`
  rounds half away from zero, as `std::round` does).
- The octree range search of `cluster` is replaced by an exact box test:
  |dx|, |dy| ≤ the XY window, and |dt| ≤ the T window divided by 1.5625.
- The raw file is a byte sequence held in memory.
- Library sorts and the least-squares solver enter through their contracts or
  as parameters. So do `std::stod` and `std::stof`.
- The 16-bit cluster weight of `centroid` wraps, and the model keeps the wrap.
  `Centroids.WrappedWeightMisplacesCentroid` shows 65 hits whose computed
  column lies off the sensor. `Centroids.WrappedWeightTripsAssertion` shows a
  non-empty cluster that trips the zero-weight assertion.
  `Tpx3Images.WrappedWeightCentroidOffSensor` shows that such a centroid
  falls outside the grid of `clusterImage`.
- The mask test is strict at both ends of each band, as in the source.
- Record bodies are read without a truncation check. The model requires that
  complete chunk bodies are present, or it reports `TruncatedBody`.

## Model

| member | source | states |
|---|---|---|
| Tpx3.PixelData.NumPackets | src/tpx3/PixelData.cpp:18-23 | the packet count is the common length of addr, toa and tot |
| Tpx3.PixelData.IsEmpty | src/tpx3/PixelData.cpp:25-29 | empty exactly when there are no packets, i.e. all three arrays are empty |
| Tpx3.PixelData.MemSize | src/tpx3/PixelData.cpp:7-16 | the object size plus 2, 8 and 2 bytes per addr, toa and tot element; never below the object size |
| Tpx3.MemSizePush | src/tpx3/PixelData.cpp:7-16 | appending one hit adds exactly 12 bytes to memsize |
| Tpx3.PixelData.Push | src/tpx3/LoadRawFileThread.cpp:172-185 | appending one hit to all three arrays keeps them aligned, puts the hit last and keeps every earlier hit |
| Tpx3.Indices | src/tpx3/tpx3.h:61-64 | the set of packet positions 0..n-1, of size n |
| RawDecoder.WordBytes | src/tpx3/LoadRawFileThread.cpp:137-138 | an 8-byte little-endian image of a word |
| RawDecoder.WordBytesRoundTrip | src/tpx3/LoadRawFileThread.cpp:137-138 | assembling a word from its little-endian bytes gives the word back |
| RawDecoder.PacketKind | src/tpx3/LoadRawFileThread.cpp:125 | the top nibble of byte 7, a value in 0..15 |
| RawDecoder.ExtractFields | src/tpx3/LoadRawFileThread.cpp:139-150 | the address, fine, coarse, spidr and ToT fields, each within its bit width |
| RawDecoder.FieldsRoundTrip | src/tpx3/LoadRawFileThread.cpp:139-150 | encoding in-range fields into a 0xB word and extracting them gives the same fields, and the word's kind is 0xB |
| RawDecoder.PixelWordDeterminedByFields | src/tpx3/LoadRawFileThread.cpp:139-150 | a 0xB word is rebuilt exactly from its extracted fields, so no bit is lost |
| RawDecoder.RemapRoundTrip | src/tpx3/LoadRawFileThread.cpp:152-155 | the x and y bit sets of the super-pixel address are disjoint and cover the address: re-interleaving gives the address back |
| RawDecoder.UnmapRoundTrip | src/tpx3/LoadRawFileThread.cpp:152-155 | remapping an interleaved (x, y) gives (x, y) back |
| RawDecoder.PixelOf | src/tpx3/LoadRawFileThread.cpp:152-157 | x is the remapped column; y is the remapped row flipped to 255 - y |
| RawDecoder.PixelOfInjective | src/tpx3/LoadRawFileThread.cpp:152-157 | distinct addresses give distinct pixels |
| RawDecoder.PixelOfSurjective | src/tpx3/LoadRawFileThread.cpp:152-157 | every pixel of the 256 x 256 sensor is the image of some address |
| RawDecoder.CounterTicks | src/tpx3/LoadRawFileThread.cpp:169-174 | the combined counter ((spidr << 14 \| coarse) << 4) \| fine is non-negative |
| RawDecoder.ArrivalTicks | src/tpx3/LoadRawFileThread.cpp:169-174 | the arrival time uses the inverted fine nibble, and is non-negative |
| RawDecoder.FineInversion | src/tpx3/LoadRawFileThread.cpp:169 | xor with 0x0F on a nibble is 15 minus the nibble |
| RawDecoder.ArrivalOrIsSum | src/tpx3/LoadRawFileThread.cpp:150-174 | on 64-bit words, `(spidr << 14) \| coarse` is `(spidr << 14) + coarse`, and or-ing in the inverted fine count adds 15 minus the fine count, since the parts occupy disjoint bits |
| RawDecoder.CounterTicksRoundTrip | src/tpx3/LoadRawFileThread.cpp:169-174 | spidr, coarse and fine are recovered from the combined counter |
| RawDecoder.DecodePacket | src/tpx3/LoadRawFileThread.cpp:125-201 | a 0xB record that passes the mask gives a hit; 0x7 is skipped; 0x4 and 0x6 are not implemented; any other kind is unknown (each case if and only if) |
| RawDecoder.RecordAt | src/tpx3/LoadRawFileThread.cpp:121-123 | one record is the next 8 bytes of the chunk body |
| RawDecoder.DecodeFile | src/tpx3/LoadRawFileThread.cpp:61-224 | a successful decode gives aligned arrays |
| RawDecoder.ParseChunkBody | src/tpx3/LoadRawFileThread.cpp:119-201 | the record loop of one chunk equals the recursive record decoding |
| RawDecoder.ParseRawData | src/tpx3/LoadRawFileThread.cpp:61-224 | the chunk loop returns exactly DecodeFile's result |
| RawDecoder.RecordsKeepPrefix | src/tpx3/LoadRawFileThread.cpp:172-185 | decoding records only appends: earlier hits keep their positions |
| RawDecoder.ChunksKeepPrefix | src/tpx3/LoadRawFileThread.cpp:83-210 | decoding chunks only appends, and hits keep file order |
| RawDecoder.HeaderOutcomes | src/tpx3/LoadRawFileThread.cpp:85-117 | an empty file gives no hits; a partial header, a wrong magic, a chip index other than 0 or a length not divisible by 8 is an error |
| RawDecoder.KeptHits | src/tpx3/LoadRawFileThread.cpp:159-185 | the hits kept from a list of pixel records, aligned |
| RawDecoder.RecordsOfEncoded | src/tpx3/LoadRawFileThread.cpp:119-201 | decoding a body made of encoded pixel records gives exactly the kept hits |
| RawDecoder.ChunkHeader | src/tpx3/LoadRawFileThread.cpp:100-117 | a built chunk header has the magic, chip 0 and the body length |
| RawDecoder.SingleChunk | src/tpx3/LoadRawFileThread.cpp:83-210 | a file of one well-formed chunk decodes as that chunk's records |
| RawDecoder.EncodeDecodeChunk | src/tpx3/LoadRawFileThread.cpp:61-224 | encoding pixel records into one chunk and decoding it gives exactly the hits that pass the mask, in order |
| RawDecoder.GatherCons | src/tpx3/LoadRawFileThread.cpp:126-199 | one step of the record loop: a hit is pushed, a masked or control record is passed over, a 0x4/0x6 or unknown record ends the loop with its error |
| RawDecoder.GatherAppend | src/tpx3/LoadRawFileThread.cpp:119-201 | reading two runs of records one after the other is reading the first, then the second onto its hits, unless the first already stopped |
| RawDecoder.GatherSkipsControl | src/tpx3/LoadRawFileThread.cpp:194-196 | a control record anywhere in a run of records changes nothing |
| RawDecoder.GatherStopsAt | src/tpx3/LoadRawFileThread.cpp:188-199 | after records that read cleanly, a 0x4/0x6 record or one of an unknown kind ends the loop with that error, whatever follows |
| RawDecoder.RecordsAsGather | src/tpx3/LoadRawFileThread.cpp:119-201 | the record loop over the bytes is the loop over what each 8-byte record decodes to |
| RawDecoder.ChunkAsGather | src/tpx3/LoadRawFileThread.cpp:83-210 | a one-chunk file decodes as its body's records, each decoded and read in order |
| RawDecoder.BadRecordFails | src/tpx3/LoadRawFileThread.cpp:188-199 | in a one-chunk file whose leading records decode cleanly, a following record of kind 0x4 or 0x6 makes the decode the not-implemented error and one of a kind other than 0x4, 0x6, 0x7 and 0xB the unknown-packet error, whatever comes after it |
| RawDecoder.ControlRecordSkipped | src/tpx3/LoadRawFileThread.cpp:194-196 | a one-chunk file with a control record among whole records decodes exactly as the same file without it |
| TimestampSort.InsertByKey | src/tpx3/LoadRawFileThread.cpp:31 | inserting an index after all indices with time at most its own keeps the list sorted and stable |
| TimestampSort.StableOrderOf | src/tpx3/LoadRawFileThread.cpp:31 | the first n indices in stable time order: sorted by time, ties by index, each index once |
| TimestampSort.KeySortedDistinct | src/tpx3/LoadRawFileThread.cpp:31 | a list sorted by (time, index) has no repeated index |
| TimestampSort.StableOrderCorrect | src/tpx3/LoadRawFileThread.cpp:21-49 | the stable order is a stable sorting permutation |
| TimestampSort.StableOrderUnique | src/tpx3/LoadRawFileThread.cpp:31 | two (time, index)-sorted lists of the same indices are equal |
| TimestampSort.AnyStableSortIsStableOrder | src/tpx3/LoadRawFileThread.cpp:31 | every stable sorting permutation, whatever the sort algorithm, is the stable order |
| TimestampSort.PermutationCovers | src/tpx3/LoadRawFileThread.cpp:21-49 | a permutation of the positions contains every position |
| TimestampSort.CardOfImage | src/tpx3/LoadRawFileThread.cpp:21-49 | a list without repeats has as many distinct elements as entries |
| TimestampSort.SortTimestamps | src/tpx3/LoadRawFileThread.cpp:21-49 | the result is the input gathered through a stable sorting permutation: toa non-decreasing, equal times in input order, addr and tot moved with their toa |
| Connectivity.HalfWindows | src/tpx3/LoadRawFileThread.cpp:228-233 | the XY window as given; the T window converted to ticks (divided by 1.5625) |
| Connectivity.Neighbours | src/tpx3/LoadRawFileThread.cpp:300-320 | the box query returns exactly the hits adjacent to the given hit |
| Connectivity.AdjacentSymmetric | src/tpx3/LoadRawFileThread.cpp:300-320 | box adjacency is symmetric |
| Connectivity.Component | src/tpx3/LoadRawFileThread.cpp:294-348 | the hits reachable from a hit through adjacent hits |
| Connectivity.ReachableRefl | src/tpx3/LoadRawFileThread.cpp:294-348 | every hit reaches itself |
| Connectivity.ReachableStep | src/tpx3/LoadRawFileThread.cpp:294-348 | reachability extends by one adjacent hit |
| Connectivity.ReachableSymmetric | src/tpx3/LoadRawFileThread.cpp:294-348 | reachability is symmetric |
| Connectivity.ReachableTransitive | src/tpx3/LoadRawFileThread.cpp:294-348 | reachability is transitive |
| Connectivity.ClosedHoldsPath | src/tpx3/LoadRawFileThread.cpp:294-348 | a set closed under adjacency contains every path that starts in it |
| Connectivity.ClosedHoldsReachable | src/tpx3/LoadRawFileThread.cpp:294-348 | a set closed under adjacency contains everything reachable from it |
| Connectivity.SameComponent | src/tpx3/LoadRawFileThread.cpp:294-348 | connected hits have the same component |
| Connectivity.ComponentIsLeastClosed | src/tpx3/LoadRawFileThread.cpp:294-348 | the component contains its hit, is closed, and is inside every closed set containing the hit |
| Connectivity.LabelConstantOnPath | src/tpx3/LoadRawFileThread.cpp:300-301 | labels that agree across every adjacent pair agree along a path |
| Connectivity.LabelConstantOnComponent | src/tpx3/LoadRawFileThread.cpp:300-301 | such labels are constant on a component |
| Clustering.ExpandCluster | src/tpx3/LoadRawFileThread.cpp:297-348 | the frontier expansion from an unmarked hit finds exactly its component, and every hit found is still unmarked |
| Clustering.MarkAll | src/tpx3/LoadRawFileThread.cpp:364-368 | marking a set sets exactly its members |
| Clustering.MarkUnmarked | src/tpx3/LoadRawFileThread.cpp:370-379 | marking sets exactly the unmarked members, and reports whether there were any |
| Clustering.ExpansionFacts | src/tpx3/LoadRawFileThread.cpp:300-301 | an expansion from the earliest unmarked hit meets no marked hit and no earlier hit |
| Clustering.RejectStep | src/tpx3/LoadRawFileThread.cpp:364-368 | rejecting a small component keeps the labelling invariant |
| Clustering.RejectKeepsConnected | src/tpx3/LoadRawFileThread.cpp:364-368 | after rejection, hits with the same positive id are still connected |
| Clustering.RejectKeepsRejected | src/tpx3/LoadRawFileThread.cpp:364-368 | after rejection, id 0 still marks exactly the small components |
| Clustering.RejectKeepsLeaders | src/tpx3/LoadRawFileThread.cpp:364-368 | rejection leaves the earliest hit of each numbered cluster unchanged |
| Clustering.AcceptStep | src/tpx3/LoadRawFileThread.cpp:370-381 | numbering a component keeps the labelling invariant with the next id |
| Clustering.AcceptKeepsConnected | src/tpx3/LoadRawFileThread.cpp:370-379 | a new id goes to one component only, so hits sharing an id are connected |
| Clustering.AcceptKeepsRejected | src/tpx3/LoadRawFileThread.cpp:370-379 | a numbered component is not small, so id 0 still marks exactly the small ones |
| Clustering.AcceptKeepsLeaders | src/tpx3/LoadRawFileThread.cpp:370-381 | the new cluster's earliest hit comes after those of all earlier clusters |
| Clustering.AcceptLeadersMarked | src/tpx3/LoadRawFileThread.cpp:370-381 | after numbering, each cluster's first hit, the new one included, carries that cluster's id |
| Clustering.AcceptLeadersFirst | src/tpx3/LoadRawFileThread.cpp:370-381 | after numbering, no hit of a cluster comes before that cluster's first hit |
| Clustering.FinalState | src/tpx3/LoadRawFileThread.cpp:385-394 | at the end, ids lie in 0..current-1, connected hits share an id, and ids are dense in order of first hit |
| Clustering.VisitHit | src/tpx3/LoadRawFileThread.cpp:297-385 | one outer turn keeps the labelling invariant |
| Clustering.MarkComponent | src/tpx3/LoadRawFileThread.cpp:360-383 | marking an expanded component with 0 or with the next id keeps the labelling invariant; the nonempty guard always holds |
| Clustering.Cluster | src/tpx3/LoadRawFileThread.cpp:226-396 | ids are 0 or 1..num_clusters; ids are constant on components; same positive id means connected; id 0 exactly for components under the minimum size; ids are dense and ordered by earliest hit |
| Clustering.LargerIdAfterSmaller | src/tpx3/LoadRawFileThread.cpp:370-381 | a hit with a larger id than hit j comes after some hit connected to j |
| Clustering.OpeningHit | src/tpx3/LoadRawFileThread.cpp:370-381 | a kept hit with nothing connected before it has an id above every earlier id, and one more than some earlier id, or 1 |
| Clustering.OpeningIdsBounded | src/tpx3/LoadRawFileThread.cpp:370-381 | with the same earlier ids, an opening id is at most any id above them all |
| Clustering.LabelAgrees | src/tpx3/LoadRawFileThread.cpp:357-381 | two labellings meeting the contract that agree before a hit agree at it |
| Clustering.NumClustersBounded | src/tpx3/LoadRawFileThread.cpp:378-394 | labellings with the same ids have the same cluster count |
| Clustering.ClusteringUnique | src/tpx3/LoadRawFileThread.cpp:226-396 | the cluster contract determines the ids and the count, whatever the expansion order |
| Clustering.MarkPreservesBoxes | src/tpx3/LoadRawFileThread.cpp:300-301 | marking a whole unmarked component keeps marked hits away from unmarked neighbours |
| Centroids.WeightIn | src/tpx3/LoadRawFileThread.cpp:417-432 | a hit weighs its ToT in its own cluster and 0 elsewhere |
| Centroids.Weight16 | src/tpx3/LoadRawFileThread.cpp:406-432 | the 16-bit running total lies in 0..65535 |
| Centroids.AddHit | src/tpx3/LoadRawFileThread.cpp:417-437 | one loop turn adds the hit to its cluster's sums and updates the brightest hit |
| Centroids.StepOthers | src/tpx3/LoadRawFileThread.cpp:417-437 | a hit of another cluster, or with id 0, leaves a cluster's moments, weight and brightest hit unchanged |
| Centroids.StepMember | src/tpx3/LoadRawFileThread.cpp:423-430 | a member hit adds column times ToT and row times ToT to the moments, and its ToT modulo 2^16 to the weight |
| Centroids.ComputeCentroids | src/tpx3/LoadRawFileThread.cpp:398-457 | the loop gives exactly the recursive specification: the centroids, or the first cluster whose 16-bit weight is 0 |
| Centroids.DivideSums | src/tpx3/LoadRawFileThread.cpp:446-453 | dividing the accumulated sums gives exactly the specified centroids, or the first cluster whose 16-bit weight is 0 |
| Centroids.ErrPersists | src/tpx3/LoadRawFileThread.cpp:446-447 | once a cluster has zero 16-bit weight, the result is that error |
| Centroids.Weight16IsWrappedSum | src/tpx3/LoadRawFileThread.cpp:406-432 | the 16-bit total is the true weight sum modulo 65536 |
| Centroids.CentroidsOnePerCluster | src/tpx3/LoadRawFileThread.cpp:446-452 | success exactly when no 16-bit weight is 0; then one centroid per cluster, in id order |
| Centroids.OnlyMembersCount | src/tpx3/LoadRawFileThread.cpp:418-419 | hits of other clusters and id 0 contribute nothing |
| Centroids.BrightestIsFirstMaximum | src/tpx3/LoadRawFileThread.cpp:434-437 | the time is that of the first hit with the strictly largest ToT, or 0 when every ToT is 0 |
| Centroids.XMomentBounds | src/tpx3/LoadRawFileThread.cpp:427-429 | the x moment lies between the weight times the cluster's least and greatest column |
| Centroids.IntendedXWithinCluster | src/tpx3/LoadRawFileThread.cpp:448-452 | with the true weight, the centroid column lies inside the cluster's column range |
| Centroids.YMomentBounds | src/tpx3/LoadRawFileThread.cpp:427-430 | the y moment lies between the weight times the cluster's least and greatest row |
| Centroids.IntendedYWithinCluster | src/tpx3/LoadRawFileThread.cpp:448-452 | with the true weight, the centroid row lies inside the cluster's row range |
| Centroids.UniformSums | src/tpx3/LoadRawFileThread.cpp:427-432 | for n equal hits, the weight is n·t and the x moment is n·t·x |
| Centroids.WrappedWeightMisplacesCentroid | src/tpx3/LoadRawFileThread.cpp:406-452 | 65 hits of ToT 1023 at column 10 wrap to weight 959 and give a column off the sensor; the true mean is column 10 |
| Centroids.WrappedWeightTripsAssertion | src/tpx3/LoadRawFileThread.cpp:406-447 | 128 hits of ToT 512 wrap to weight 0 and reach the assertion |
| Centroids.SmallFileDividesByZero | src/tpx3/LoadRawFileThread.cpp:439 | with fewer than 100 hits the progress test divides by zero |
| Centroids.OnePercent | src/tpx3/LoadRawFileThread.cpp:439 | the corrected step is at least 1 and reaches 100 steps past the hit count |
| Centroids.ProgressDueAtMostHundred | src/tpx3/LoadRawFileThread.cpp:439-440 | with the corrected step, hit 0 reports, at most 100 hits report, and a hit reports exactly at multiples of the step |
| Coincidences.Times | src/tpx3/LoadRawFileThread.cpp:475-477 | the centroid times, position by position |
| Coincidences.RunEnd | src/tpx3/LoadRawFileThread.cpp:500-515 | the inner scan never shrinks the run and never passes the end of the list |
| Coincidences.RunEndStops | src/tpx3/LoadRawFileThread.cpp:500-515 | the run from a centroid ends at the end of the list or at the first centroid outside the window |
| Coincidences.RunEndInWindow | src/tpx3/LoadRawFileThread.cpp:488-515 | every centroid before the run end is within the window of the run's first centroid |
| Coincidences.Group | src/tpx3/LoadRawFileThread.cpp:500-515 | a group is the run's centroids in time order |
| Coincidences.FoundLone | src/tpx3/LoadRawFileThread.cpp:517-518 | an anchor with no partner in its window adds nothing to what the scan finds |
| Coincidences.SpansGroup | src/tpx3/LoadRawFileThread.cpp:500-533 | a run of 2 or more at the anchor is the first group, and the scan resumes after it |
| Coincidences.FoundGroup | src/tpx3/LoadRawFileThread.cpp:517-533 | a run of 2 or more at the anchor is classified in front of everything found after it |
| Coincidences.SpansFromFit | src/tpx3/LoadRawFileThread.cpp:488-534 | every group has at least two members and lies inside the time order |
| Coincidences.ClassifyCons | src/tpx3/LoadRawFileThread.cpp:519-530 | a group in front of other groups is classified first, then the rest |
| Coincidences.RecordGroup | src/tpx3/LoadRawFileThread.cpp:519-530 | appending a pair or n-fold to what was found so far is putting it in front of what comes after |
| Coincidences.ScanRun | src/tpx3/LoadRawFileThread.cpp:490-515 | the inner loop finds the run end and collects the run's ids |
| Coincidences.ScanStep | src/tpx3/LoadRawFileThread.cpp:517-533 | one outer turn emits the run's pair or n-fold and skips past it |
| Coincidences.FindCoincidences | src/tpx3/LoadRawFileThread.cpp:459-541 | the result is exactly the classification of the maximal in-window runs |
| Coincidences.SpansShape | src/tpx3/LoadRawFileThread.cpp:488-534 | the runs have length at least 2, lie inside the list and do not overlap, in increasing order |
| Coincidences.ConsWellFormed | src/tpx3/LoadRawFileThread.cpp:488-534 | a run before well-formed runs keeps them well formed |
| Coincidences.SpansAreMaximalRuns | src/tpx3/LoadRawFileThread.cpp:500-515 | each emitted run is in the window of its first centroid and cannot be extended |
| Coincidences.UncoveredHaveNoPartner | src/tpx3/LoadRawFileThread.cpp:517-533 | a dropped centroid has no successor within its window |
| Coincidences.ClassifySplits | src/tpx3/LoadRawFileThread.cpp:517-530 | runs of 2 become pairs and longer runs become n-folds, nothing else |
| Coincidences.GroupsDisjoint | src/tpx3/LoadRawFileThread.cpp:488-534 | no centroid belongs to two groups |
| Coincidences.SpansOrdered | src/tpx3/LoadRawFileThread.cpp:488-534 | earlier runs end before later runs begin |
| Pipeline.RoundHalfAway | src/tpx3/LoadRawFileThread.cpp:176-177 | the nearest integer, with halves rounded away from zero |
| Pipeline.RoundHalfAwayOdd | src/tpx3/LoadRawFileThread.cpp:176-177 | rounding commutes with negation |
| Pipeline.CorrectionTicks | src/tpx3/LoadRawFileThread.cpp:176-177 | each ToT code's correction is its offset in ticks, rounded |
| Pipeline.DecodedOrEmpty | src/tpx3/LoadRawFileThread.cpp:545-553 | a decode error other than the chip assertion gives no hits |
| Pipeline.Execute | src/tpx3/LoadRawFileThread.cpp:543-622 | the chip assertion crashes; raw-only stops after decoding; no hits gives an empty image; otherwise the outcome is what the later stages make of a stable sort of the hits and a labelling meeting cluster's contract: the zero-weight assertion on the first cluster whose 16-bit weight is 0, else the image of the centroids and coincidences |
| Pipeline.StagesReached | src/tpx3/LoadRawFileThread.cpp:568-597 | the sorted table and the labelling Execute computes witness its outcome |
| Pipeline.SortedUnique | src/tpx3/LoadRawFileThread.cpp:568 | the stable sort of the hits, and hence the sorted table, is unique |
| Pipeline.ImportDetermined | src/tpx3/LoadRawFileThread.cpp:568-597 | two outcomes that each meet the import's specification are equal: the outcome is a function of the input |
| Pipeline.ImportCrashesIff | src/tpx3/LoadRawFileThread.cpp:583-597 | for the sorted, clustered hits: a crash exactly when centroiding reports a zero 16-bit weight, on that first cluster; otherwise a finished image meeting every stage's contract |
| Tpx3Images.Tpx3Image.NumRawPackets | src/tpx3/Tpx3Image.cpp:47-51 | the packet count of the raw data |
| Tpx3Images.Tpx3Image.Empty | src/tpx3/Tpx3Image.cpp:59-63 | empty exactly when there are no raw packets |
| Tpx3Images.SumUpdate | src/tpx3/Tpx3Image.cpp:65-77 | adding d to one cell adds d to the total |
| Tpx3Images.SumZeros | src/tpx3/Tpx3Image.cpp:65-77 | a zero row totals 0 |
| Tpx3Images.SumAppend | src/tpx3/Tpx3Image.cpp:96-101 | the total of a list with one more entry |
| Tpx3Images.ZeroGrid | src/tpx3/Tpx3Image.cpp:67 | a 256 x 256 grid of zeros |
| Tpx3Images.Bump | src/tpx3/Tpx3Image.cpp:71-73 | incrementing a cell changes that cell by one and no other cell |
| Tpx3Images.GridTotalUpdate | src/tpx3/Tpx3Image.cpp:65-77 | replacing a row changes the grid total by the rows' difference |
| Tpx3Images.BumpTotal | src/tpx3/Tpx3Image.cpp:71-73 | incrementing a cell adds one to the grid total |
| Tpx3Images.GridTotalZero | src/tpx3/Tpx3Image.cpp:67 | the zero grid totals 0 |
| Tpx3Images.HitGrid | src/tpx3/Tpx3Image.cpp:65-77 | cell (x, y) is the number of hits at that address |
| Tpx3Images.RawPacketImage | src/tpx3/Tpx3Image.cpp:65-77 | the loop gives the hit count of every cell, and the cells total the packet count |
| Tpx3Images.ClusterImage | src/tpx3/Tpx3Image.cpp:107-122 | each centroid adds one count at its truncated pixel position, so the cells total the centroid count |
| Tpx3Images.WrappedWeightCentroidOffSensor | src/tpx3/Tpx3Image.cpp:114-118 | as written, 65 hits of ToT 1023 at column 10 give a centroid at pixel column 693, off the 256 x 256 grid that `++pixel_counts[px_x][px_y]` writes into |
| Tpx3Images.IntendedCentroidOnSensor | src/tpx3/Tpx3Image.cpp:114-118 | with the true weight, every centroid truncates to a pixel on the sensor, so clusterImage's precondition holds |
| Tpx3Images.TotsInSplit | src/tpx3/Tpx3Image.cpp:85-101 | counts over adjacent code ranges add up |
| Tpx3Images.TotsInAll | src/tpx3/Tpx3Image.cpp:85-101 | when every ToT is below 1024, the codes 0..1023 count every hit |
| Tpx3Images.NumToTBins | src/tpx3/Tpx3Image.cpp:93 | the bin count is ceil(1024 / b) |
| Tpx3Images.TableSumCounts | src/tpx3/Tpx3Image.cpp:96-101 | summing per-code counts over a range counts the hits in that range |
| Tpx3Images.CountToTs | src/tpx3/Tpx3Image.cpp:85-91 | the per-code histogram counts the hits of each code |
| Tpx3Images.SumCodes | src/tpx3/Tpx3Image.cpp:96-101 | the inner loop sums the codes of one bin |
| Tpx3Images.ToTDistribution | src/tpx3/Tpx3Image.cpp:79-105 | ceil(1024/b) bins; x[i] = i·b·25 ns; bin i counts the codes in [i·b, min((i+1)·b, 1024)) |
| Tpx3Images.ToTDistributionTotal | src/tpx3/Tpx3Image.cpp:85-101 | when every ToT is below 1024, the bins total the packet count |
| Tpx3Images.DefaultToTDistribution | src/tpx3/tpx3.h:121 | with the default bin width of 1: 1024 bins, x[i] = i·25 ns, bin i counts exactly the hits of ToT code i, and the bins total the packet count |
| Tpx3Images.BinsPrefix | src/tpx3/Tpx3Image.cpp:96-101 | the first m bins count the codes below min(m·b, 1024) |
| Tpx3Images.TotsInEmpty | src/tpx3/Tpx3Image.cpp:96-101 | an empty code range counts nothing |
| Tpx3Images.StartStopHistogram | src/tpx3/Tpx3Image.cpp:124-151 | an error exactly when there are fewer than 2 centroids; otherwise num_bins bins with x[i] = i·width; each bin counts the intervals between consecutive centroids (in id order) whose bin is that one, bin 0 doubled |
| Tpx3Images.DefaultBinIsTicks | src/tpx3/Tpx3Image.cpp:133-135 | with the default bin width of one tick, an interval of d >= 0 ticks lands in bin d and a negative one in bin d + 1 |
| Tpx3Images.DefaultStartStopHistogram | src/tpx3/tpx3.h:123 | with the defaults (one tick wide, 128 bins): an error exactly when there are fewer than 2 centroids; otherwise 128 bins with x[i] = i ticks, bin 0 doubled |
| Tpx3Images.CountIntervals | src/tpx3/Tpx3Image.cpp:131-138 | after the loop, bin b holds the number of consecutive-centroid intervals falling in bin b, and the bins sum to the intervals kept |
| Tpx3Images.BinStarts | src/tpx3/Tpx3Image.cpp:142-146 | num_bins left edges, edge i at i·width |
| LinePairs.LinePair.RectBounds | src/tpx3/LinePair.cpp:169-181 | min1/min2 are the lesser/greater lower edge and max1/max2 the lesser/greater upper edge, so min1 ≤ min2 and max1 ≤ max2 |
| LinePairs.LinePair.ClosestLine | src/tpx3/LinePair.cpp:183-201 | the answer is 1 or 2 |
| LinePairs.RectBoundsOrdered | src/tpx3/LinePair.cpp:169-181 | with non-negative widths, each band's lower edge is at most its upper edge |
| LinePairs.ClosestLineIsNearest | src/tpx3/LinePair.cpp:183-201 | line 1 is chosen exactly when the tested coordinate (y if vertical, else x) is at least as close to the lower line, ties included |
| LinePairs.RectBoundsSwap | src/tpx3/LinePair.cpp:169-181 | swapping the two lines leaves all four bounds unchanged |
| LinePairs.ClosestLineSwapAndSigma | src/tpx3/LinePair.cpp:183-201 | the answer ignores the sigmas and the order of the two lines |
| LinePairs.BandsDisjointIffGap | src/tpx3/LinePair.cpp:169-181 | the two bands share no point exactly when max1 < min2 |
| LinePairs.ProfileOf | src/tpx3/LinePair.cpp:113-131 | 256 entries, each a row or column sum held as an unsigned 32-bit value |
| LinePairs.ModAddStep | src/tpx3/LinePair.cpp:120-124 | adding to a 32-bit total agrees with adding before the wrap |
| LinePairs.SumLine | src/tpx3/LinePair.cpp:118-126 | the inner loop gives the line sum modulo 2^32 |
| LinePairs.BuildProfile | src/tpx3/LinePair.cpp:113-131 | the loop builds exactly the profile |
| LinePairs.LineSumTranspose | src/tpx3/LinePair.cpp:113-131 | a row sum of an image is the column sum of its transpose |
| LinePairs.ProfileTranspose | src/tpx3/LinePair.cpp:113-131 | the horizontal profile of an image is the vertical profile of its transpose |
| LinePairs.RunBreak | src/tpx3/LinePair.cpp:65-76 | the rank that breaks the run, if any, lies in the scanned range |
| LinePairs.RunBreakIsFirstGap | src/tpx3/LinePair.cpp:65-79 | no break exactly when every ranked index extends the run; otherwise the break is the first rank that does not |
| LinePairs.RunLowHigh | src/tpx3/LinePair.cpp:61-76 | the run's left end is at most its right end |
| LinePairs.InitialGuess | src/tpx3/LinePair.cpp:58-79 | the loop gives m1 = the top-ranked index and m2 = the first run breaker, or n/2 |
| LinePairs.MaxOf | src/tpx3/LinePair.cpp:82 | the largest sample, which is one of the samples |
| LinePairs.MaxElement | src/tpx3/LinePair.cpp:82 | the loop finds the largest sample |
| LinePairs.FitFromRanking | src/tpx3/LinePair.cpp:61-93 | the solver is started from amplitudes max y, centres from the run guess over the first 256 ranks, and widths 3 |
| LinePairs.FitData | src/tpx3/LinePair.cpp:32-95 | over the index list as written (512 entries: 256 zeros, then 0..255, sorted by profile), the solver starts from the run guess; with a unique peak at 0 both centres are guessed at 0 |
| LinePairs.FitDataCorrected | src/tpx3/LinePair.cpp:32-95 | over a ranking of 0..255, each once, the solver starts from the run guess, and a second centre found by a break lies outside the first run and differs from the first centre |
| LinePairs.ProfileSamples | src/tpx3/LinePair.cpp:133-137 | the profile as 256 real samples |
| LinePairs.SamplePositions | src/tpx3/LinePair.cpp:133-137 | the sample x values are 0..255 |
| LinePairs.Find | src/tpx3/LinePair.cpp:97-167 | the profile and positions returned are the samples; the fit runs on the index list as written; the fitted centres and widths are scaled by the pixel size; the orientation is h_lines |
| LinePairs.AsWrittenIndices | src/tpx3/LinePair.cpp:51-53 | the index list as written has 2n entries |
| LinePairs.AsWrittenGuessRepeatsPeak | src/tpx3/LinePair.cpp:51-79 | with the list as written and a peak at 0, the second guess is the peak again |
| LinePairs.RangeCountAtMostOne | src/tpx3/LinePair.cpp:51-53 | 0..n-1 holds each value at most once |
| LinePairs.RankingDistinct | src/tpx3/LinePair.cpp:51-56 | a ranking of 0..n-1 has no repeated index |
| LinePairs.RunIsContiguous | src/tpx3/LinePair.cpp:61-76 | while the run grows, its ranked indices fill exactly the run's interval |
| LinePairs.RankingGuessLeavesRun | src/tpx3/LinePair.cpp:61-79 | with a ranking of 0..n-1, a second guess lies outside the first peak's run and differs from m1 |
| MaskDialog.MaxEntry | src/ui/SetImageMaskDialog.cpp:142-143 | the largest entry, which is one of the entries |
| MaskDialog.PrefersHorizontalIff | src/ui/SetImageMaskDialog.cpp:142-148 | horizontal is chosen exactly when some h_slice entry exceeds every v_slice entry; ties choose vertical |
| MaskDialog.VerticalSlice | src/ui/SetImageMaskDialog.cpp:127-133 | the loop gives v_slice[r] = the 32-bit sum of row r |
| MaskDialog.HorizontalSlice | src/ui/SetImageMaskDialog.cpp:134-140 | the loop gives h_slice[c] = the 32-bit sum of column c |
| MaskDialog.MiddleVisible | src/ui/SetImageMaskDialog.cpp:219-242 | the middle rectangle shows exactly when max1 < min2 |
| MaskDialog.TruncBetween | src/ui/SetImageMaskDialog.cpp:253-256 | truncation toward zero lies within 1 of its argument, on the side of zero |
| MaskDialog.StrictlyInsideTruncated | src/ui/SetImageMaskDialog.cpp:253-256 | an integer strictly between two truncations is strictly between the reals |
| MaskDialog.MaskInsideBands | src/ui/SetImageMaskDialog.cpp:248-262 | every pixel the strict mask keeps lies strictly inside its fitted band |
| MaskDialog.ScaleBack | src/ui/SetImageMaskDialog.cpp:253-256 | dividing by the pixel size and multiplying back keeps the order |
| MaskDialog.SetImageMaskDialog.constructor | src/ui/SetImageMaskDialog.cpp:14-156 | the raw image is the reference's hit grid; the slider starts at 4 sigma; the orientation follows the profile maxima; the first fit is drawn |
| MaskDialog.SetImageMaskDialog.UpdateSlicePlot | src/ui/SetImageMaskDialog.cpp:159-246 | the last fit is the fit of the chosen profile; the middle rectangle is visible exactly when the bands do not overlap |
| MaskDialog.SetImageMaskDialog.AcceptClicked | src/ui/SetImageMaskDialog.cpp:248-268 | the mask is the fit's bands divided by the pixel size and truncated, with vertical = not horizontal; every kept pixel is inside a band |
| SettingsPanel.IndexOf | src/ui/FileInputSettingsPanel.cpp:309-311 | the first position of the delimiter, or the length when absent |
| SettingsPanel.GetlineSplit | src/ui/FileInputSettingsPanel.cpp:309-311 | no pieces exactly for the empty line; no piece contains the delimiter |
| SettingsPanel.SplitJoin | src/ui/FileInputSettingsPanel.cpp:309-311 | joining the pieces gives the line back, less one trailing delimiter |
| SettingsPanel.SkipSpace | src/ui/FileInputSettingsPanel.cpp:316 | a suffix that starts with no white space |
| SettingsPanel.DigitRun | src/ui/FileInputSettingsPanel.cpp:316 | the length of the leading digit run |
| SettingsPanel.Stoul | src/ui/FileInputSettingsPanel.cpp:316 | an unsigned 64-bit value, when the text starts with a number in range |
| SettingsPanel.StoulDigits | src/ui/FileInputSettingsPanel.cpp:316 | the digits' value below 2^64, negated modulo 2^64 after a minus sign |
| SettingsPanel.Decimal | src/ui/FileInputSettingsPanel.cpp:316 | a non-empty string of digits |
| SettingsPanel.DecimalValue | src/ui/FileInputSettingsPanel.cpp:316 | the digits of n have value n |
| SettingsPanel.DigitRunPrefix | src/ui/FileInputSettingsPanel.cpp:316 | the digit run stops at the first non-digit |
| SettingsPanel.StoulDecimal | src/ui/FileInputSettingsPanel.cpp:316 | stoul reads back n from its decimal digits followed by a non-digit |
| SettingsPanel.LineEntry | src/ui/FileInputSettingsPanel.cpp:306-320 | a line parses to an index below 1024 and an offset, or to an error |
| SettingsPanel.Zeros | src/ui/FileInputSettingsPanel.cpp:302-304 | 1024 zero entries |
| SettingsPanel.Entries | src/ui/FileInputSettingsPanel.cpp:306-322 | one parsed entry per line |
| SettingsPanel.TableOf | src/ui/FileInputSettingsPanel.cpp:302-322 | a successful table has 1024 entries |
| SettingsPanel.FirstErrorDecides | src/ui/FileInputSettingsPanel.cpp:306-321 | the first bad line decides the outcome of the whole file |
| SettingsPanel.CalibrationOf | src/ui/FileInputSettingsPanel.cpp:300-325 | a successful calibration has 1024 entries |
| SettingsPanel.TableStepOk | src/ui/FileInputSettingsPanel.cpp:322 | a good line sets its index to the negated offset |
| SettingsPanel.TableStepErr | src/ui/FileInputSettingsPanel.cpp:313-320 | a bad line makes the table that error |
| SettingsPanel.TableErrPersists | src/ui/FileInputSettingsPanel.cpp:313-320 | the first bad line decides the error |
| SettingsPanel.TableOkIff | src/ui/FileInputSettingsPanel.cpp:306-322 | the table succeeds exactly when every entry does |
| SettingsPanel.CalibrationOkIff | src/ui/FileInputSettingsPanel.cpp:306-322 | the file parses exactly when every line does |
| SettingsPanel.TableLastWins | src/ui/FileInputSettingsPanel.cpp:302-322 | each index holds the negated offset of the last line naming it, and 0 if none does |
| SettingsPanel.CalibrationLastWins | src/ui/FileInputSettingsPanel.cpp:302-322 | the same for the file's lines |
| SettingsPanel.LastOffsetNone | src/ui/FileInputSettingsPanel.cpp:302-304 | no last offset exactly when no line names the index |
| SettingsPanel.MalformedLineRejects | src/ui/FileInputSettingsPanel.cpp:313-314 | a line without exactly two fields, a blank one included, rejects the file |
| SettingsPanel.ReadCalibration | src/ui/FileInputSettingsPanel.cpp:300-325 | the read loop returns exactly the calibration of the lines |
| SettingsPanel.ReadLine | src/ui/FileInputSettingsPanel.cpp:306-322 | one line either writes minus its offset at its code or ends the file with its error |
| SettingsPanel.WriteEntry | src/ui/FileInputSettingsPanel.cpp:322 | the write changes the one entry named by the line and nothing else |
| SettingsPanel.ZeroTable | src/ui/FileInputSettingsPanel.cpp:301-303 | a new table holds 1024 zeros |
| SettingsPanel.NanosecondsToSeconds | src/ui/FileInputSettingsPanel.cpp:233 | the coincidence window in seconds times 10^9 is the value in ns |
| SettingsPanel.FileInputSettingsPanel.constructor | src/ui/FileInputSettingsPanel.cpp:26-198 | zero calibration; the default mask (horizontal, bands (0, 256)); default windows 5 and 750, 15 ns, minimum size 4; the "not set" labels |
| SettingsPanel.FileInputSettingsPanel.CurrentMask | src/ui/FileInputSettingsPanel.cpp:206-215 | the set mask, or the default mask when none is set |
| SettingsPanel.FileInputSettingsPanel.GetSettings | src/ui/FileInputSettingsPanel.cpp:202-236 | settings exactly when the three numbers parse; the mask, calibration, threads and minimum size as set; the window converted from ns to s |
| SettingsPanel.FileInputSettingsPanel.SetToACalibClick | src/ui/FileInputSettingsPanel.cpp:287-330 | a cancelled dialog changes nothing; a bad file changes nothing and reports the error; a good file replaces the calibration and the label |
| SettingsPanel.FileInputSettingsPanel.ClearToACalibClick | src/ui/FileInputSettingsPanel.cpp:332-339 | all 1024 entries become 0 and the label says none is set; nothing else changes |
| SettingsPanel.FileInputSettingsPanel.ClearImageMaskClick | src/ui/FileInputSettingsPanel.cpp:280-285 | no mask is set, so the settings use the default mask |
| SettingsPanel.FileInputSettingsPanel.ReceiveImageMask | src/ui/FileInputSettingsPanel.cpp:358-364 | the received mask is set and the label names its file |
| ProgressBars.Apply | src/ui/FileImportProgressBar.cpp:108-145 | no call makes a loaded bar also queued or loading |
| ProgressBars.RunConsistent | src/ui/FileImportProgressBar.cpp:108-145 | no series of calls breaks that consistency |
| ProgressBars.LoadedIffLastLoad | src/ui/FileImportProgressBar.cpp:115-145 | a new bar is loaded exactly when setLoaded was called with no setQueued or setIsLoading after it |
| ProgressBars.QueuedIffLastQueue | src/ui/FileImportProgressBar.cpp:115-138 | a new bar is queued exactly when setQueued was called with no setLoaded after it |
| ProgressBars.ProgressBar.constructor | src/ui/FileImportProgressBar.cpp:10-26 | no flags, no thread, range 0..100 at value 0, the percent format |
| ProgressBars.ProgressBar.Text | src/ui/FileImportProgressBar.cpp:28-35 | the format as it is when min == max, otherwise Qt's text |
| ProgressBars.ProgressBar.SetIndefinite | src/ui/FileImportProgressBar.cpp:37-45 | range (0, 0) when indefinite, else (0, 100); indefinite exactly when text() shows the format |
| ProgressBars.ProgressBar.ConnectThread | src/ui/FileImportProgressBar.cpp:87-106 | the bar follows the given thread; nothing else changes |
| ProgressBars.ProgressBar.DisconnectThread | src/ui/FileImportProgressBar.cpp:108-113 | no thread and not loading; the other flags unchanged |
| ProgressBars.ProgressBar.SetQueued | src/ui/FileImportProgressBar.cpp:115-125 | queued, not loaded, loading unchanged; orange "Queued"; range 0..100 at 0 |
| ProgressBars.ProgressBar.SetLoaded | src/ui/FileImportProgressBar.cpp:127-138 | loaded, not queued, not loading; green "Imported"; range 0..100 at 0 |
| ProgressBars.ProgressBar.SetIsLoading | src/ui/FileImportProgressBar.cpp:140-145 | loading, not loaded, queued unchanged |
| ProgressBars.ProgressBar.Clone | src/ui/FileImportProgressBar.cpp:59-71 | a new bar with the same label, colour, range, flags and thread, at value 0 |
| FileInputPanels.LessTransitive | src/ui/FileInputPanel.cpp:119 | the string order is transitive |
| FileInputPanels.LessTotal | src/ui/FileInputPanel.cpp:119 | distinct strings are ordered one way or the other |
| FileInputPanels.LessIrreflexive | src/ui/FileInputPanel.cpp:119 | no string is before itself |
| FileInputPanels.LessAsymmetric | src/ui/FileInputPanel.cpp:119 | no two strings are each before the other |
| FileInputPanels.Insert | src/ui/FileInputPanel.cpp:119 | inserting adds exactly the one element |
| FileInputPanels.InsertSorted | src/ui/FileInputPanel.cpp:119-120 | inserting into a strictly sorted list keeps it strictly sorted |
| FileInputPanels.SortUnique | src/ui/FileInputPanel.cpp:119-120 | sort plus unique keeps exactly the same elements |
| FileInputPanels.SortUniqueSorted | src/ui/FileInputPanel.cpp:119-120 | the result is strictly sorted, so it has no duplicates |
| FileInputPanels.SortedDetermined | src/ui/FileInputPanel.cpp:119-120 | two strictly sorted lists with the same elements are equal |
| FileInputPanels.SortUniqueOfSorted | src/ui/FileInputPanel.cpp:119-120 | sorting a strictly sorted list changes nothing |
| FileInputPanels.NewPaths | src/ui/FileInputPanel.cpp:111-116 | the paths not yet listed; none when all are listed |
| FileInputPanels.Added | src/ui/FileInputPanel.cpp:108-124 | the new list holds exactly the old entries and the new paths |
| FileInputPanels.AddedSorted | src/ui/FileInputPanel.cpp:119-120 | the new list is sorted ascending without duplicates |
| FileInputPanels.AddedIdempotent | src/ui/FileInputPanel.cpp:111-120 | adding only listed paths leaves the list unchanged |
| FileInputPanels.SelectedMembers | src/ui/FileInputPanel.cpp:241-250 | a file is selected exactly when some row shows it with the flag set |
| FileInputPanels.SelectedSorted | src/ui/FileInputPanel.cpp:241-250 | selection keeps list order |
| FileInputPanels.FreshBars | src/ui/FileInputPanel.cpp:140-171 | one new bar per listed file |
| FileInputPanels.RebuiltFlags | src/ui/FileInputPanel.cpp:128-171 | after a rebuild, a file is loaded exactly when it was loaded before, and queued otherwise |
| FileInputPanels.Erase | src/ui/FileInputPanel.cpp:185-196 | erasing removes exactly position row and keeps the rest in order |
| FileInputPanels.EraseSorted | src/ui/FileInputPanel.cpp:196 | erasing keeps the list strictly sorted |
| FileInputPanels.FileInputPanel.constructor | src/ui/FileInputPanel.cpp:23-85 | no files, no rows, start button disabled, not importing |
| FileInputPanels.SelectRows | src/ui/FileInputPanel.cpp:129-136 | the names, in row order, of exactly the rows whose bar has the flag asked for |
| FileInputPanels.BuildBars | src/ui/FileInputPanel.cpp:140-171 | each file gets a loaded bar if it was loaded before and a queued bar otherwise |
| FileInputPanels.FileInputPanel.QueuedFileList | src/ui/FileInputPanel.cpp:237-251 | the files whose bar is queued, in list order |
| FileInputPanels.FileInputPanel.GetFileRow | src/ui/FileInputPanel.cpp:267-282 | the first row showing the file, or -1 exactly when none does |
| FileInputPanels.FileInputPanel.UpdateFileTable | src/ui/FileInputPanel.cpp:126-175 | one row per file, loaded if it was loaded before and queued otherwise; import enabled exactly when something is queued |
| FileInputPanels.FileInputPanel.AddQueuedFiles | src/ui/FileInputPanel.cpp:108-124 | the list becomes the sorted union, and the table is rebuilt from it |
| FileInputPanels.FileInputPanel.RemoveTableRow | src/ui/FileInputPanel.cpp:177-201 | the row's file and bar are erased and the others keep their order; import is disabled when nothing is queued |
| FileInputPanels.FileInputPanel.ShiftRowsUp | src/ui/FileInputPanel.cpp:185-195 | the manual row deletion erases exactly that row of names and bars |
| FileInputPanels.ShiftUp | src/ui/FileInputPanel.cpp:185-195 | moving every later row up by one and dropping the last erases exactly the given row from both columns, keeping the rest in order |
| FileInputPanels.FileInputPanel.ClearAllRows | src/ui/FileInputPanel.cpp:203-209 | no files, no rows, start button disabled |
| FileInputPanels.FileInputPanel.ApplyToFile | src/ui/FileInputPanel.cpp:284-317 | the file's row is found and only its bar takes the call |
| FileInputPanels.FileInputPanel.ConnectFileThread | src/ui/FileInputPanel.cpp:284-297 | the file's bar shows loading and not loaded; other rows unchanged |
| FileInputPanels.FileInputPanel.SetFileLoaded | src/ui/FileInputPanel.cpp:299-307 | the file's bar becomes loaded only; other rows unchanged |
| FileInputPanels.FileInputPanel.SetFileQueued | src/ui/FileInputPanel.cpp:309-317 | the file's bar becomes queued and not loaded; other rows unchanged |
| FileInputPanels.FileInputPanel.UpdateLoadStatus | src/ui/FileInputPanel.cpp:319-334 | importing is done exactly when no row is loading |
| FileInputPanels.FileInputPanel.SetCancelBtnOnly | src/ui/FileInputPanel.cpp:211-235 | the importing mode is set, and the start/stop button is enabled exactly when something is queued |
| FileInputPanels.FileInputPanel.StartStopBtnClick | src/ui/FileInputPanel.cpp:253-265 | while importing, a stop request; with no files, nothing; otherwise importing mode and a start request |

## Left out

- The octree of `cluster` and its single-precision point coordinates (src/tpx3/LoadRawFileThread.cpp:245-274) are replaced by the exact box test. Hits that float rounding would put on the other side of a window edge are not modelled.
- TimestampSort.SortTimestamps: timsort is not modelled step by step. Any stable sort gives the same permutation (`AnyStableSortIsStableOrder`), so the method uses the stable order.
- Pipeline.Execute: `std::sort` of the centroids (LoadRawFileThread.cpp:475-477) is not stable. The model uses the stable order, which is one of the orders it may produce.
- Pipeline.Execute: progress signals, `shouldCancel`, the `emit` of errors and warnings, file streams and `tellg` are I/O and threading, so they are left out. The decoder reads a byte sequence in memory. Because of this, the model does not crash at the progress division for files under 100 hits (see Findings).
- RawDecoder.DecodeFile: a chunk whose body is shorter than its length says is reported as `TruncatedBody`. The source reads past the end without a check.
- Pipeline.DecodedOrEmpty: every decode error after the chip check yields an empty result, as `return {}` does. The message text is not modelled.
- Pipeline.CorrectionTicks: `static_cast<int>` of a correction outside the int range is undefined in C++. The model takes the rounded value as it is.
- Centroids.ComputeCentroids: centroid times stay in integer ticks, not seconds (LoadRawFileThread.cpp:424). Positions are the weighted sums times the pixel size, in exact reals rather than doubles.
- RawDecoder.CounterTicks: the 64-bit counter arithmetic cannot overflow for these field widths, so it is written on unbounded integers.
- The `Tpx3Image` constructor and `finish`: `finish` (LoadRawFileThread.cpp:616-618) passes a file name and six parts, while Tpx3Image.cpp:12 defines a constructor with four. The model builds the image from the five parts and leaves out the file name.
- `dToADistribution`, `spatialCorrelations`, `saveTo`, `filename` and `fullFilename` of `Tpx3Image` are not part of this model. They are floating-point statistics, have no definition in the source, or are string accessors.
- Tpx3Images.ClusterImage: centroids off the sensor are excluded by a precondition. The source writes outside the 256 x 256 grid for them, and its unsigned cast of a negative position is undefined. The wrapped 16-bit weight can produce such centroids (see Findings).
- Pipeline.Execute: each `assert` is modelled as in a build without NDEBUG, as an abort (`ChipIndexAssertion` at LoadRawFileThread.cpp:109, `ZeroWeightAssertion` at :447). With NDEBUG, a chunk of another chip would decode as chip 0, and a zero weight would give an infinite or NaN centroid. Neither is modelled.
- Tpx3Images.StartStopHistogram: a negative interval (centroids out of time order) gives a negative bin. The model drops it, as the bounds check does for bins at or beyond `num_bins`.
- The dlib Levenberg–Marquardt fit and the Gaussian model and residual (LinePair.cpp:24-30, 83-93) are floating-point numerics behind a foreign call. They enter as a `Solver` parameter.
- LinePairs.Find and MaskDialog: the "No line direction" exception and the QCustomPlot drawing are UI. The descending sort of the index list enters as a ranking `order`, related to the profile by a precondition; which of several equal values std::sort puts first is left open.
- LinePairs.LinePair: the `vertical` field holds the `h_lines` argument, as `find` passes it (LinePair.cpp:163-165).
- SettingsPanel: `std::stod` and `std::stof` are parameters of type `string -> Option<real>`. The `exp` fit in `tot_correction` (FileInputSettingsPanel.cpp:14-24) is floating point and is left out.
- SettingsPanel.FileInputSettingsPanel.SetToACalibClick: the file dialog and the file read are I/O. The file name and contents are parameters. The exception thrown for a bad line is returned as an error value, with the calibration unchanged, because the exception would leave the slot before that assignment.
- SettingsPanel.LineEntry: `std::stoul` into an `unsigned` truncates to 32 bits. The model keeps that (2^32 + 5 reads as 5).
- `setImageMaskClick` and `receiveImageMaskReference` of the settings panel start a thread and open the dialog. They are threading and UI.
- ProgressBars.ProgressBar: Qt's clamping of `setValue` to the range, the palette and the signal connections to the thread's progress are not modelled. The value stays where the flag calls put it.
- FileInputPanels.FileInputPanel: `openFileDialog`, `tableDoubleClick`, the `deleteFile` action of `removeTableRow` and the file size column are UI. The per-row progress bars are modelled by their flags.
- Spinbox and validator ranges of the settings panel (threads, minimum cluster size, the window validators) are Qt widgets and are not modelled.

## Findings

| source | as written | input that shows it | evidently intended | confidence | as-written member | corrected member |
|---|---|---|---|---|---|---|
| src/tpx3/LoadRawFileThread.cpp:439 | `ix % (data.numPackets()/100)` is computed for every clustered hit | any file with 1 to 99 hits of which one is clustered: the divisor is 0 | a step of at least 1, like `numPackets/100 + 1` in `cluster` and `findCoincidences` | high; not executed | Centroids.SmallFileDividesByZero | Centroids.ProgressDueAtMostHundred |
| src/tpx3/LinePair.cpp:51-53 | `std::vector<std::size_t> indices(max_ix)` makes 256 zeros, and 0..255 is then pushed after them | a profile whose only peak is at position 0: index 0 is ranked first and second, so the second line is guessed on the first | a ranking of 0..max_ix-1, each index once | high; not executed | LinePairs.FitData | LinePairs.FitDataCorrected |
| src/tpx3/Tpx3Image.cpp:114-118 | `++pixel_counts[px_x][px_y]` with no bounds check, on centroids whose weight is the wrapped 16-bit total of LoadRawFileThread.cpp:406-452 | 65 hits of one cluster at column 10 with ToT 1023: the weight wraps to 959, the centroid column is pixel 693, and the increment writes past the grid | centroids weighted by the true total, which stay within their cluster's pixels and so on the sensor | high; not executed | Tpx3Images.WrappedWeightCentroidOffSensor | Tpx3Images.IntendedCentroidOnSensor |
