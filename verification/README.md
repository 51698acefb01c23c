# Verified models of the recorder's stateful logic

A Dafny 4.11 project about the parts of the network video recorder that keep real
state, run loops or do arithmetic: region clustering, stationary-object suppression
and background averaging in the AI detector; the session, admission and restart
protocols; the log tailer, the event feed and the group tree; and the ONVIF cache.

`dafny verify dfyconfig.toml` checks everything. One module stands for one component:

| module | component |
|---|---|
| RegionGeometry, RegionClusters, RegionMethods | from motion boxes to square detector crops; the specification, then the program's loops proved against it |
| BoxOverlap | intersection over union and average boxes |
| Stationary | per-track suppression with hysteresis and expiry |
| MotionBackground | contrast ring, rescaling and background average |
| WebRtcProvider | Home Assistant WebRTC sessions; code between two awaits is one step |
| WhepOnDemand | admission of on-demand GB28181 streams; a section under the mutex is one step |
| Gb28181Restart | hot restart against INVITEs under a read/write lock, one statement a step |
| VoipRestart | replacing the VoIP server with rollback |
| LogTailer | following the service log in polls |
| EventFeed | the event stream's printer and parser, byte by byte (server-sent events, section 9.2 of the WHATWG HTML standard) |
| GroupTree | the device-group tree over arbitrary parent links |
| TtlCache | a cache whose removals nobody can see |
| Options, Sequences, Fractions | what several of these share |

Code that updates state is a class or a method with a loop; its contract names the
whole new state through a function on values, and the lemmas are about those
functions and about whole runs. Factors such as 1.35 are exact rationals, and the
integer part of a square root is the integer square root. Clocks, the recorder's and
the library's answers, and which of several goroutines or tasks moves next are
parameters, so every result holds for all of them.

## Where the code differs from what is said about it

- `compute_regions` loses boxes when `min_region` is below five: a 5x5 box in a 5x5
  frame gets a 4x4 crop. `RegionMethods.LosesNothingIff` shows that five is exact.
- `internal/middleware/logfile.go:47` says that a follower continues after the
  sequence number it gives. The stream sends the line with that number again
  (`LogTailer.ResumedSession`). One of 2^63 or more turns negative in a cast and ends the
  session before it sends anything.
- `NewApp` can leave the on-demand hook enabled with no GB28181 server behind it
  (`Gb28181Restart.StartHookBackedIff` says exactly when). It is harmless, since the
  start callback looks again, and no longer possible once a restart has completed.
- A running VoIP server's configuration need not be the one on record. A transport made
  of blanks normalizes to the empty string, which is recorded, and the new server
  normalizes that again, to `udp` (`VoipRestart.RestartOnBlanks`). The two are equal if
  and only if the transport asked for is empty or not all blanks
  (`VoipRestart.App.RestartVoIP`, `VoipRestart.Replay`).
- The WebRTC provider loses a token when an offer made under a live session's id is
  answered and overwrites that session (`WebRtcProvider.ReofferLosesToken`). In every run
  exactly as many tokens are lost as sessions are overwritten, so the ledger holds if and
  only if none is (`WebRtcProvider.LedgerIff`); fresh ids are enough for that
  (`WebRtcProvider.FreshRuns`).

## Model

| member | source | states |
|---|---|---|
| RegionMethods.EveryBoxCovered | docker/ai-detector/regions.py:146-172 | for every frame, minimum region of at least 5 and list of boxes inside the frame, each box lies wholly inside some region sent to the detector |
| RegionMethods.LosesNothingIff | docker/ai-detector/regions.py:146-172 | a minimum region loses no box of any frame if and only if it is at least 5 |
| RegionMethods.RegionsAreCroppedSquares | docker/ai-detector/regions.py:161-172 | every region is one square of side at least min_region cut to the frame, inside the frame, and non-empty when frame and min_region are |
| RegionMethods.ComputeRegions | docker/ai-detector/regions.py:146-172 | the regions are exactly the clamped crops of the clusters, pairwise distinct and no more numerous than the clusters |
| RegionMethods.RegionsOfClustering | docker/ai-detector/regions.py:146-172 | for the clustering that obeys the rules, the regions are exactly the squares around the clusters' hulls cut at the four sides of the frame, each once |
| RegionMethods.GetClusterCandidates | docker/ai-detector/regions.py:103-143 | the two nested scans with their used set, then sorting and the set: the result is the greedy clustering as a multiset, in any order |
| RegionMethods.GrowCluster | docker/ai-detector/regions.py:109-140 | the inner loop grows the seed's cluster exactly as the specification scan does, used set included |
| RegionMethods.ShouldCluster | docker/ai-detector/regions.py:126-135 | a potential cluster passes if its region has minimal width or no member is below 5% of the region's area |
| RegionMethods.GetClusterRegion | docker/ai-detector/regions.py:88-100 | the min/max loop computes the crop around the members' hull |
| RegionMethods.UniqueSorted | docker/ai-detector/regions.py:142-143 | sorting each cluster and collecting them in a set merges and drops none |
| RegionMethods.SortedIncreasing | docker/ai-detector/regions.py:142 | sorting an ascending cluster is the identity |
| RegionMethods.CandidatesDistinct | docker/ai-detector/regions.py:103-143 | no two clusters are equal and each is ascending |
| RegionMethods.MemberCovered | docker/ai-detector/regions.py:88-100 | a cluster's clamped crop holds each of its members |
| RegionClusters.ClusteringIff | docker/ai-detector/regions.py:103-143 | the clusterer's rules leave no choice: the list the two scans find is the only one that is a partition into ascending clusters with ascending seeds, where each member was added with its box inside the seed's boundary and the region minimal or no member below a twentieth of it, and each box of a later cluster was turned down by every earlier one for failing just that |
| RegionClusters.ClustersCorrect | docker/ai-detector/regions.py:103-143 | for any box list the scans' clusters obey those rules, with the boundary, width and 5% comparisons written out for members and for the boxes turned down |
| RegionClusters.JoinsUnlessTurnedDown | docker/ai-detector/regions.py:119-137 | a box is added unless it reaches out of the boundary on some side, or the region would be wider than the minimum with some member below a twentieth of it |
| RegionClusters.CandidatesCorrect | docker/ai-detector/regions.py:109-140 | the same from any point of the outer scan on |
| RegionClusters.GrowIsScanned | docker/ai-detector/regions.py:115-139 | the inner scan keeps a cluster ascending and sound, and every index it passed by was offered and rejected |
| RegionClusters.GrowAdds | docker/ai-detector/regions.py:115-139 | the inner scan marks as used exactly the members it adds, each unused before |
| RegionClusters.HullContains | docker/ai-detector/regions.py:88-97 | the hull holds every member |
| RegionClusters.HullInFrame | docker/ai-detector/regions.py:88-97 | the hull of boxes inside the frame is inside the frame |
| RegionClusters.HullLeast | docker/ai-detector/regions.py:88-97 | the hull is the least box holding the members and the scan's start values |
| RegionClusters.RegionOrderFree | docker/ai-detector/regions.py:88-100 | a cluster's region does not depend on the order of its members |
| RegionGeometry.CalculateRegionCovers | docker/ai-detector/regions.py:45-65 | the clamped crop of a hull inside the frame holds the hull, for a model size of at least 5 |
| RegionGeometry.CalculateRegionSize | docker/ai-detector/regions.py:47-50 | the crop is a square, its side the largest multiple of four within 1.35 times the hull's longer edge or the model size |
| RegionGeometry.CalculateRegionCentred | docker/ai-detector/regions.py:52-65 | its middle is as near the hull's as any place in the frame allows, on each axis |
| RegionGeometry.CropSizeCoversIff | docker/ai-detector/regions.py:45-50 | the crop is at least as long as the edge except for edges 1, 2 and 5, and there exactly when the model size makes up for it |
| RegionGeometry.CropSizeIsLargest | docker/ai-detector/regions.py:47-50 | the crop is the largest multiple of four within 1.35 times the edge, unless the model size is larger |
| RegionGeometry.CropOffsetCovers | docker/ai-detector/regions.py:52-63 | centring with truncation toward zero and both clamps keeps the interval inside the crop |
| RegionGeometry.CropOffsetNearest | docker/ai-detector/regions.py:52-63 | no other offset in the frame centres the crop better |
| RegionGeometry.CropOffsetInFrame | docker/ai-detector/regions.py:52-63 | the crop starts in the frame, and ends in it unless it is larger |
| RegionGeometry.CalculateRegionIsCroppedSquare | docker/ai-detector/regions.py:45-65 | a clamped crop is a square of at least the model size cut to the frame, for any hull at all |
| RegionGeometry.BoundaryIsUnionOfWindows | docker/ai-detector/regions.py:75-85 | up to rounding, a cluster boundary spans exactly the largest regions that hold the box with a tenth to spare |
| RegionGeometry.BoundaryHoldsWindows | docker/ai-detector/regions.py:68-85 | every such square lies in the boundary, give or take a pixel |
| RegionGeometry.BoundaryExact | docker/ai-detector/regions.py:75-85 | each side of the boundary is the middle of the box less or plus the reach, and the reach is the largest region less 0.55 of the box, both cut off toward zero |
| RegionGeometry.MaxRegionIsTenfold | docker/ai-detector/regions.py:69-73 | the largest region has ten times the box's area, to the pixel, or the minimum size |
| RegionGeometry.ISqrt | docker/ai-detector/regions.py:73 | the integer part of the square root |
| BoxOverlap.IntersectionOverUnion | docker/ai-detector/regions.py:19-27 | defined and within 0..1 for every pair of boxes, inverted ones too, and 0 only without overlap |
| BoxOverlap.OverlapIsPixelShare | docker/ai-detector/regions.py:19-27 | for upright boxes the value is the number of shared pixels over the number of pixels in either |
| BoxOverlap.OverlapIsShare | docker/ai-detector/regions.py:19-27 | with fractional coordinates too, the value is the common part's share of what the boxes cover together |
| BoxOverlap.OverlapSymmetric | docker/ai-detector/regions.py:19-27 | the order of the boxes does not matter |
| BoxOverlap.SelfOverlap | docker/ai-detector/regions.py:19-27 | a box overlaps itself by 1 if it has area and by 0 if not |
| BoxOverlap.PixelCount | docker/ai-detector/regions.py:15-16 | the area of an upright box counts its pixels |
| BoxOverlap.AverageWithin | docker/ai-detector/regions.py:35-42 | an average box lies within any bounds the boxes share |
| BoxOverlap.AverageOfCopies | docker/ai-detector/regions.py:35-42 | the average of copies of a box is that box |
| BoxOverlap.AverageExtends | docker/ai-detector/regions.py:35-42 | one more box moves each coordinate of the average toward it by its share |
| BoxOverlap.AverageWellFormed | docker/ai-detector/regions.py:35-42 | averages of boxes that are not inverted are not inverted |
| Stationary.VerdictsAreEpisodes | docker/ai-detector/stationary.py:41-92 | over every run of updates and prunes a track's answers are whole episodes: active, became_stationary once when the threshold is outlasted, stationary only after it |
| Stationary.VerdictNeedsEvidence | docker/ai-detector/stationary.py:41-92 | at every place of every run, the answer is became_stationary exactly when the latest updates of the track, as many as the threshold since its reset, were each unchanged, and stationary exactly when they were more |
| Stationary.Replay | docker/ai-detector/stationary.py:34-92 | over any run of updates and prunes every answer is the one its place calls for, and each track's history ends as the last boxes given for it, one more than its count up to ten |
| Stationary.StationarySuppressor.TablesExact | docker/ai-detector/stationary.py:34-83 | at every valid state the history is the last ten boxes of the track's run or all of them, the count one less than the run, and the flag whether it reached the threshold |
| Stationary.UnchangedExact | docker/ai-detector/stationary.py:51-66 | an update is unchanged when the box overlaps the average of the latest ten, itself included, by 0.9, or 0.6 once the track is stationary |
| Stationary.AnswerIsVerdict | docker/ai-detector/stationary.py:41-77 | that answer is the track's verdict for that update in the list of all of them |
| Stationary.RunIsGiven | docker/ai-detector/stationary.py:51-54 | the run kept for a track is a suffix of the boxes given for it |
| Stationary.RunsStaySteady | docker/ai-detector/stationary.py:51-69 | every box kept in a run but its first stayed with the average of those before it |
| Stationary.RestingVerdicts | docker/ai-detector/stationary.py:41-92 | a track repeating one box without expiring is active for exactly the threshold, became_stationary next and stationary ever after; without area it stays active |
| Stationary.CopiesUnchanged | docker/ai-detector/stationary.py:56-69 | a copy of the boxes so far counts as unchanged exactly when the box has area |
| Stationary.VerdictsContinue | docker/ai-detector/stationary.py:41-92 | the same as VerdictsAreEpisodes from any state, continuing the episode the track is in |
| Stationary.RestingStep | docker/ai-detector/stationary.py:41-92 | one step of a resting track lengthens its run by one copy, or keeps resetting it if the box has no area |
| Stationary.SteadyExtended | docker/ai-detector/stationary.py:68-69 | an unchanged update extends the evidence by one |
| Stationary.StationarySuppressor.constructor | docker/ai-detector/stationary.py:34-39 | starts with no track, in a valid state |
| Stationary.StationarySuppressor.Update | docker/ai-detector/stationary.py:41-77 | keeps the four tables a summary (same keys, flag iff the count reached the threshold, the latest ten boxes since the reset) of the run of boxes, and answers by its length |
| Stationary.Apply | docker/ai-detector/stationary.py:41-92 | one update or prune on the object is one step of the tracks |
| Stationary.StationarySuppressor.Judge | docker/ai-detector/stationary.py:51-77 | the part for a known track: append, trim, compare, then count or reset |
| Stationary.StationarySuppressor.StaysWith | docker/ai-detector/stationary.py:56-66 | the two comparisons with the average box |
| Stationary.StationarySuppressor.CountUnchanged | docker/ai-detector/stationary.py:68-77 | the count grows by one and the flag is raised when it reaches the threshold |
| Stationary.StationarySuppressor.MarkActive | docker/ai-detector/stationary.py:79-83 | the track's entries become those of a first sighting |
| Stationary.StationarySuppressor.Prune | docker/ai-detector/stationary.py:85-92 | removes exactly the tracks unseen for more than 60 seconds from all tables |
| GroupTree.TreeHoldsReachable | internal/api/handlers_group.go:303-324 | the tree holds each group exactly once if its parent chain reaches 0, and not at all otherwise, cycles and dangling links included |
| GroupTree.ForestPlaced | internal/api/handlers_group.go:303-324 | every node has as children all the groups naming it as parent and only those, in list order |
| GroupTree.BuildGroupTree | internal/api/handlers_group.go:304-324 | the recursion ends for any parent links when started from 0, and builds the specified forest |
| GroupTree.GetGroupTree | internal/api/handlers_group.go:289-301 | the handler's tree is the forest below parent 0 |
| GroupTree.DescentDecreases | internal/api/handlers_group.go:316 | each descent leaves fewer groups that are not on the path: why the recursion ends |
| GroupTree.ChainUnique | internal/api/handlers_group.go:306-307 | at most one chain of parents leads from 0 to a group |
| GroupTree.ChainDistinct | internal/api/handlers_group.go:306-307 | no group repeats along such a chain |
| GroupTree.FlattenForest | internal/api/handlers_group.go:304-324 | below any path hang exactly the ids whose chain passes through it, each once |
| GroupTree.UpdateGroup | internal/api/handlers_group.go:111-161 | an update of a known group stores its parent as asked, with the level, name and order that go with it, and leaves the others alone |
| GroupTree.Relink | internal/api/handlers_group.go:135-146 | updates can give the groups any parent links at all, cycles and dangling ones included |
| GroupTree.UpdatedInTreeIff | internal/api/handlers_group.go:135-146 | after an update a group is in the tree if and only if its new parent is the root or reached the root without passing through the group |
| GroupTree.OwnParentVanishes | internal/api/handlers_group.go:135-146 | an update that makes a group its own parent takes it out of the tree |
| LogTailer.Follow | internal/api/handlers_service_logs.go:210-290 | for any polls whatever, shrinking and rewritten files included, the client gets what splitting each text shown as a whole gives; a negative start gives nothing |
| LogTailer.GrowingSession | internal/api/handlers_service_logs.go:235-290 | on a log that only grows, however the polls cut it, the client gets every complete line after the start once, in order, at its true offset |
| LogTailer.GrowingSessionExact | internal/api/handlers_service_logs.go:235-290 | of the part of a growing file that was shown, a line is sent if and only if it is complete, starts at that offset, has lost exactly its trailing carriage returns, and passes the filter; offsets ascend strictly |
| LogTailer.SentIsDue | internal/api/handlers_service_logs.go:265-288 | the same of any text that is split and filtered |
| LogTailer.FoundIsLine | internal/api/handlers_service_logs.go:266-273 | every line found is a line of the text, from its beginning or a newline to the next newline |
| LogTailer.LineIsFound | internal/api/handlers_service_logs.go:266-273 | every such line is found, at its offset |
| LogTailer.TrimRightStrips | internal/api/handlers_service_logs.go:274 | trailing carriage returns are what is trimmed, all of them and nothing else |
| LogTailer.ReadExact | internal/api/handlers_service_logs.go:258-263 | a read gives the bytes between the offsets, and fewer only where the file ends |
| LogTailer.RotatedSession | internal/api/handlers_service_logs.go:242-290 | over any number of noticed rotations, the lines of the first text and then every complete line of each new file from its beginning |
| LogTailer.ShrinkStartsOver | internal/api/handlers_service_logs.go:247-251 | from a noticed shrink on a session goes like one begun at the start of the new file |
| LogTailer.ResumedSession | internal/api/handlers_service_logs.go:210-290 | a second session given the number of any line the first sent starts there while the file still holds it, sends that line again, everything sent after it, and then what the first would have gone on to send |
| LogTailer.Reconnect | internal/api/handlers_service_logs.go:210-290 | two runs of the session, the second with the number of the k-th line sent by the first: it begins with that line and repeats all after it |
| LogTailer.StartAtSeq | internal/api/handlers_service_logs.go:212-220 | a number below the size and 2^63 is where the session starts |
| LogTailer.StartExact | internal/api/handlers_service_logs.go:212-220 | where a session starts, for every after_seq of 64 bits |
| LogTailer.LineInText | internal/api/handlers_service_logs.go:265-273 | every line starts inside the text, so its number is below the file's size |
| LogTailer.ResumeFromSeq | internal/api/handlers_service_logs.go:265-288 | splitting and filtering from the offset of the k-th line sent gives the lines sent from the k-th on |
| LogTailer.SplitCorrect | internal/api/handlers_service_logs.go:265-273 | splitting loses and moves no byte: lines hold no newline, glue back to the text, and their offsets are their positions |
| LogTailer.SplitGlued | internal/api/handlers_service_logs.go:265-273 | conversely any such list of lines is what splitting their text gives |
| LogTailer.LinesFrom | internal/api/handlers_service_logs.go:265-273 | splitting from the offset of a line gives the lines from there |
| LogTailer.ScanAppend | internal/api/handlers_service_logs.go:263-274 | splitting in two pieces is splitting in one |
| LogTailer.SentAppend | internal/api/handlers_service_logs.go:274-288 | filtering works line by line |
| LogTailer.IndexOfNewline | internal/api/handlers_service_logs.go:266-269 | finds the first newline or says there is none |
| LogTailer.Tailer.constructor | internal/api/handlers_service_logs.go:232-233 | starts at an offset with nothing pending |
| LogTailer.Tailer.Poll | internal/api/handlers_service_logs.go:242-288 | extends the text seen by what was read, restarts at 0 after a shrink, keeps parsed + pending = offset, and has sent the filtered lines of all texts seen |
| LogTailer.Tailer.Append | internal/api/handlers_service_logs.go:258-288 | what was read joins what is pending, and all lines completed by it are sent |
| LogTailer.Tailer.SplitPending | internal/api/handlers_service_logs.go:265-288 | the inner loop leaves the split of everything seen: all complete lines sent, the rest pending |
| LogTailer.Tailer.SendLine | internal/api/handlers_service_logs.go:270-288 | one round takes the first pending line off, with its offset, and sends it trimmed if it is kept |
| LogTailer.Tailer.SendIfKept | internal/api/handlers_service_logs.go:278-287 | the line goes out exactly when the filter accepts it |
| EventFeed.FeedDelivers | custom_components/lalmax_nvr/api.py:249-264 | the client yields exactly the published events in order whatever the heartbeats, and a prefix of them if the stream is cut at any byte |
| EventFeed.BlockYields | custom_components/lalmax_nvr/api.py:250-264 | of any stream: the data of the lines up to a blank one, joined by newlines, is yielded if there is any and it is a JSON object |
| EventFeed.BlockCollects | custom_components/lalmax_nvr/api.py:261-264 | data is collected line by line, and the feed fails exactly when it exceeds 65536 characters |
| EventFeed.FailureIsFinal | custom_components/lalmax_nvr/api.py:251 | a line that is not UTF-8 ends the feed, and nothing is yielded for it or after it |
| EventFeed.StripExact | custom_components/lalmax_nvr/api.py:251 | line ends are what is stripped, all of them and nothing else |
| EventFeed.SkipSpacesExact | custom_components/lalmax_nvr/api.py:262 | leading blanks are what is skipped |
| EventFeed.ParsePrinted | custom_components/lalmax_nvr/api.py:249-264 | parsing what was printed returns the payloads |
| EventFeed.CutYieldsPrefix | custom_components/lalmax_nvr/api.py:249-264 | for any lines not starting with a carriage return, a cut yields a prefix of what the whole would |
| EventFeed.CutWire | custom_components/lalmax_nvr/api.py:250 | what the reader hands out of a cut stream is whole lines, then perhaps the beginning of the next |
| EventFeed.Serve | internal/api/handlers_home_assistant_events.go:113-137 | the handler's loop writes the frames of its events and heartbeats in order |
| EventFeed.PrintedIsFrame | internal/api/handlers_home_assistant_events.go:127-133 | each printed format is the framing of the WHATWG HTML standard, section 9.2 |
| EventFeed.PrintedText | internal/api/handlers_home_assistant_events.go:127-133 | the bytes printed are the ASCII of the two formats around the payload |
| EventFeed.Events | custom_components/lalmax_nvr/api.py:249-264 | the client's loop, up to its end or first error, is the line-by-line parser |
| EventFeed.TakeItem | custom_components/lalmax_nvr/api.py:249-264 | one event yields its payload and clears the data list; a heartbeat changes nothing |
| EventFeed.TakePartial | custom_components/lalmax_nvr/api.py:251-264 | the beginning of a line never ends an event |
| EventFeed.TakeMonotone | custom_components/lalmax_nvr/api.py:249-264 | nothing yielded is taken back |
| WebRtcProvider.LedgerIff | custom_components/lalmax_nvr/webrtc.py:53-115 | in every interleaving exactly as many tokens are lost as live sessions are overwritten, so every token is accounted for if and only if none is |
| WebRtcProvider.TokensConserved | custom_components/lalmax_nvr/webrtc.py:53-115 | in every interleaving no token is live and closed, closed twice or made up; without an overwrite each token obtained is live or was handed to exactly one close |
| WebRtcProvider.ReofferLosesToken | custom_components/lalmax_nvr/webrtc.py:64-70 | two offers answered under one id lose the first token: obtained, not live, never closed |
| WebRtcProvider.FreshRuns | custom_components/lalmax_nvr/webrtc.py:53-115 | when no offer reuses a live id, pending and sessions stay disjoint and nothing is overwritten |
| WebRtcProvider.ShutdownSettles | custom_components/lalmax_nvr/webrtc.py:109-115 | after shutdown nothing is stored or pending, whatever comes later; once the closes have returned every token was closed exactly once, if and only if no session was overwritten |
| WebRtcProvider.CompletionConservesIff | custom_components/lalmax_nvr/webrtc.py:66-70 | from any state whose ledger holds, a completing offer keeps it if and only if it does not overwrite a live session |
| WebRtcProvider.BeginKeepsDisjointIff | custom_components/lalmax_nvr/webrtc.py:64 | an offer keeps pending and live ids disjoint if and only if its id is not live |
| WebRtcProvider.StepInv | custom_components/lalmax_nvr/webrtc.py:53-115 | every step that can happen accounts for no token twice, stores nothing once closed, keeps every close running or returned, and loses a token exactly when it overwrites a live session |
| WebRtcProvider.DisjointStep | custom_components/lalmax_nvr/webrtc.py:53-115 | a step without a reused live id keeps pending and sessions disjoint and overwrites nothing |
| WebRtcProvider.RunInv | custom_components/lalmax_nvr/webrtc.py:53-115 | the same for every run, counting its overwrites, and closed is final |
| WebRtcProvider.PendingIff | custom_components/lalmax_nvr/webrtc.py:64-80 | an id is pending from the offer that names it until its answer, failure or close, its camera's removal, or shutdown |
| WebRtcProvider.StoredIff | custom_components/lalmax_nvr/webrtc.py:67-70 | a session is stored exactly when an answer comes for an id still pending, and stays, unchanged, until closed by id, with its camera or with the provider |
| WebRtcProvider.UnregisterExact | custom_components/lalmax_nvr/webrtc.py:101-107 | unregistering forgets exactly the ids with an offer or a session of the camera and hands each of their tokens to one close |
| WebRtcProvider.CloseMore | custom_components/lalmax_nvr/webrtc.py:101-107 | closing two sets of sessions one after the other is closing their union |
| WebRtcProvider.CloseOne | custom_components/lalmax_nvr/webrtc.py:90-99 | closing one session is closing the set of it |
| WebRtcProvider.NVRWebRTCProvider.constructor | custom_components/lalmax_nvr/webrtc.py:18-23 | starts open and empty |
| WebRtcProvider.NVRWebRTCProvider.OfferBegins | custom_components/lalmax_nvr/webrtc.py:53-66 | records the pending offer, unless closed or without a stream |
| WebRtcProvider.NVRWebRTCProvider.OfferCompletes | custom_components/lalmax_nvr/webrtc.py:66-71 | stores the session, or hands the token to a close when closed or forgotten meanwhile |
| WebRtcProvider.NVRWebRTCProvider.OfferFails | custom_components/lalmax_nvr/webrtc.py:72-80 | a failed negotiation forgets the pending offer |
| WebRtcProvider.NVRWebRTCProvider.OfferCloseReturns | custom_components/lalmax_nvr/webrtc.py:68-80 | the finally clause after the offer's own close |
| WebRtcProvider.NVRWebRTCProvider.CloseSession | custom_components/lalmax_nvr/webrtc.py:90-99 | forgets the pending offer and gives a stored token to one new close task |
| WebRtcProvider.NVRWebRTCProvider.CloseTaskReturns | custom_components/lalmax_nvr/webrtc.py:98-99 | a finished close task leaves the set |
| WebRtcProvider.NVRWebRTCProvider.CloseEach | custom_components/lalmax_nvr/webrtc.py:105-107 | the loop over a snapshot closes exactly that set, in any order |
| WebRtcProvider.NVRWebRTCProvider.UnregisterCamera | custom_components/lalmax_nvr/webrtc.py:101-107 | afterwards nothing pending or stored is of this camera, other ids are unchanged, and exactly one close was issued for each stored session removed |
| WebRtcProvider.NVRWebRTCProvider.Shutdown | custom_components/lalmax_nvr/webrtc.py:109-113 | closes for good, forgets every pending offer and closes every session |
| WhepOnDemand.Replay | cmd/lalmax-nvr/gb28181_whep_on_demand.go:65-129 | under a clock that never goes back, every interleaving of events, completions and toggles is decided as by a table never pruned, and admissions of one stream are at least 15 s apart |
| WhepOnDemand.Hook.OnHookEvent | cmd/lalmax-nvr/gb28181_whep_on_demand.go:65-129 | a worker starts exactly when an enabled hook is asked for an eligible missing WHEP stream of two 20-digit ids, in app live or none, that is not in flight, among fewer than four, and not admitted in the last 15 s; otherwise nothing changes |
| WhepOnDemand.AcceptsExact | cmd/lalmax-nvr/gb28181_whep_on_demand.go:66-101 | the same condition on the hook without pruning |
| WhepOnDemand.CoolingExact | cmd/lalmax-nvr/gb28181_whep_on_demand.go:93-96 | the cooldown question is whether the stream was admitted less than 15 s ago |
| WhepOnDemand.Hook.Record | cmd/lalmax-nvr/gb28181_whep_on_demand.go:109-110 | the admission enters both tables and the record |
| WhepOnDemand.Hook.Admit | cmd/lalmax-nvr/gb28181_whep_on_demand.go:87-111 | the section under the mutex, keeping in-flight equal to the running workers, one a stream and at most four, and admissions of a stream 15 s apart |
| WhepOnDemand.Hook.Prune | cmd/lalmax-nvr/gb28181_whep_on_demand.go:102-108 | above 512 entries exactly those older than two minutes go |
| WhepOnDemand.Hook.Done | cmd/lalmax-nvr/gb28181_whep_on_demand.go:114-118 | a worker's deferred clean-up frees its stream |
| WhepOnDemand.Hook.constructor | cmd/lalmax-nvr/gb28181_whep_on_demand.go:34-41 | starts disabled and empty |
| WhepOnDemand.Hook.SetEnabled | cmd/lalmax-nvr/gb28181_whep_on_demand.go:45-47 | sets the switch and nothing else |
| WhepOnDemand.PruningIsInvisible | cmd/lalmax-nvr/gb28181_whep_on_demand.go:93-108 | the cooldown question has one answer from the pruned and the full table |
| WhepOnDemand.AdmitKeepsTables | cmd/lalmax-nvr/gb28181_whep_on_demand.go:93-110 | an admission past its cooldown keeps all admissions of a stream spaced |
| WhepOnDemand.SplitStreamIdIff | cmd/lalmax-nvr/gb28181_whep_on_demand.go:49-55 | accepted ids are exactly two 20-digit ids joined by a colon, taken apart correctly |
| WhepOnDemand.SplitIffChannel | cmd/lalmax-nvr/gb28181_whep_on_demand.go:49-63 | a stream id is accepted if and only if it is two 20-digit ids joined by a colon |
| WhepOnDemand.CheckSipId | cmd/lalmax-nvr/gb28181_whep_on_demand.go:57-63 | true exactly for 20 decimal digits |
| WhepOnDemand.RunsStayCapped | cmd/lalmax-nvr/gb28181_whep_on_demand.go:97-101 | at most four workers at any moment of any run |
| WhepOnDemand.Handle | cmd/lalmax-nvr/gb28181_whep_on_demand.go:65-129 | one event on the hook is one step of the hook without pruning |
| Gb28181Restart.RunsAreSafe | cmd/lalmax-nvr/main.go:890-943 | in every interleaving of restarts and INVITEs each step leaves at most one unstopped server, INVITEs only on the installed running one, no server stopped during an INVITE, and an enabled hook backed by a server once a restart completed |
| Gb28181Restart.StepInv | cmd/lalmax-nvr/main.go:890-943 | every step keeps the invariant behind it |
| Gb28181Restart.InvSafe | cmd/lalmax-nvr/gb28181_whep_on_demand.go:146-164 | from the invariant every step is safe, the nil dereference included |
| Gb28181Restart.StartInv | cmd/lalmax-nvr/main.go:743-795 | start-up establishes the invariant for every configuration |
| Gb28181Restart.StartHookBackedIff | cmd/lalmax-nvr/main.go:778-795 | after start-up an enabled hook has a server if and only if on-demand play is off or unregistered or GB28181 is on with an id |
| Gb28181Restart.App.RestartGB28181 | cmd/lalmax-nvr/main.go:890-943 | a new server is installed exactly for an enabled, identified, valid configuration whose listeners open, the old one is stopped in any case, the hook follows, and an error says what failed; the call is the run of its steps from taking the lock to releasing it |
| Gb28181Restart.InviteIff | cmd/lalmax-nvr/gb28181_whep_on_demand.go:146-163 | an INVITE goes on exactly with a server and a known online device and channel, and is issued on the installed server |
| Gb28181Restart.LockExcludes | cmd/lalmax-nvr/main.go:891-892 | a restart enters when nobody is in, an INVITE when no restart is |
| Gb28181Restart.App.constructor | cmd/lalmax-nvr/main.go:743-795 | start-up gives the machine's start state |
| Gb28181Restart.RestartRun | cmd/lalmax-nvr/main.go:890-943 | what an uninterrupted call does to the state |
| VoipRestart.Replay | cmd/lalmax-nvr/voip.go:17-120 | over every run of restarts and stops one server is open at a time, the field holds the open one, what it runs was asked for by some accepted call and is the configuration on record if and only if that call's transport was not made of blanks, and nothing opens after a stop |
| VoipRestart.Apply | cmd/lalmax-nvr/voip.go:26-28 | a stop is final, no later call touching any server, and what is on record changes only to what the call asked for |
| VoipRestart.App.RestartVoIP | cmd/lalmax-nvr/voip.go:17-110 | each refusal has its exact condition and touches nothing; nor does an accepted call whose configuration is on record with its server open or disabled; any other accepted call closes the old server and opens one on the new configuration, or the old one again, or none; after a success the server runs what is on record if and only if the transport asked for is not made of blanks |
| VoipRestart.App.Replace | cmd/lalmax-nvr/voip.go:42-109 | the change itself with its rollback |
| VoipRestart.App.Create | cmd/lalmax-nvr/voip.go:47-97 | opens one server on the normalized configuration, or none |
| VoipRestart.App.CloseServer | cmd/lalmax-nvr/voip.go:43-46 | closes the open server, if any |
| VoipRestart.App.StopVoIP | cmd/lalmax-nvr/voip.go:112-120 | stops for good and closes the open server |
| VoipRestart.App.constructor | cmd/lalmax-nvr/voip.go:26-39 | before the first call nothing is open and nothing applied |
| VoipRestart.App.RunsItsRecordIff | cmd/lalmax-nvr/voip.go:98-108 | in any state a running server's configuration equals `voipApplied` if and only if the latter names a transport |
| VoipRestart.RestartOnBlanks | cmd/lalmax-nvr/voip.go:29-108 | a first call with the transport " " leaves the empty string on record and a server on udp |
| VoipRestart.AtMostOneOpen | cmd/lalmax-nvr/voip.go:43-108 | in such a history opened minus closed servers is 0 or 1 at every moment |
| VoipRestart.NormalizeIdempotentIff | internal/voip/config.go:50-85 | normalizing twice is normalizing once if and only if the transport is not made of blanks |
| VoipRestart.TrimSpaceTrims | internal/voip/config.go:54 | trimming leaves no blank at either end |
| VoipRestart.TrimSpaceCuts | internal/voip/config.go:54 | what trimming cuts off is blank on both sides, and nothing else goes |
| VoipRestart.LowerExact | internal/voip/config.go:54 | lower-casing changes capital letters only, each to its small letter |
| TtlCache.Replay | onvif/cache.go:113-168 | under a clock that never goes back every sequence of calls, clean-ups anywhere, gets the answers of a table that removes nothing for its age |
| TtlCache.AnswerMeans | onvif/cache.go:113-155 | in any sequence of calls a Get answers the value last set under its key, up to and including the end of its time to live, unless deleted or cleared since, and nothing otherwise |
| TtlCache.Handle | onvif/cache.go:113-168 | one call on the cache is one call on the table that forgets nothing |
| TtlCache.Cache.Get | onvif/cache.go:113-128 | answers as the never-removing table does, removing what has expired |
| TtlCache.Cache.Set | onvif/cache.go:131-139 | both tables take the entry with its expiry time |
| TtlCache.Cache.Delete | onvif/cache.go:142-147 | removes the key |
| TtlCache.Cache.Clear | onvif/cache.go:150-155 | removes everything |
| TtlCache.Cache.Cleanup | onvif/cache.go:158-168 | the loop removes exactly the expired entries, and nobody can tell |
| TtlCache.Cache.constructor | onvif/cache.go:106-110 | starts empty |
| TtlCache.Forgettable | onvif/cache.go:122-124 | an expired entry may go at any moment without changing an answer from now on |
| TtlCache.ForgettableOnlyForward | onvif/cache.go:122-124 | but not if the clock goes back |
| MotionBackground.MotionDetector.ImproveContrast | docker/ai-detector/motion.py:60-78 | after any number of frames the ring holds the last accepted limits padded with (0, 255), its mean limits are a grey level apart, and every pixel is rescaled between them into 0..255 |
| MotionBackground.MotionDetector.Record | docker/ai-detector/motion.py:66-72 | writing at the index and wrapping drops the oldest pair and appends the newest |
| MotionBackground.MotionDetector.Observe | docker/ai-detector/motion.py:109-135 | the calibration flag, the length of the current run of frames with boxes, and which frames enter the background at which weight |
| MotionBackground.MotionDetector.Absorb | docker/ai-detector/motion.py:119-135 | the averaging part: every quiet frame, and frames of motion from the tenth on |
| MotionBackground.MotionDetector.Accumulate | docker/ai-detector/motion.py:123-134 | blends every pixel, staying within grey levels for a weight in 0..1 |
| MotionBackground.MotionDetector.constructor | docker/ai-detector/motion.py:36-41 | starts calibrating with a neutral ring and a black background |
| MotionBackground.MeanUsable | docker/ai-detector/motion.py:74 | the mean limits of proper pairs are in range and at least one grey level apart |
| MotionBackground.MeanExtends | docker/ai-detector/motion.py:74 | one more pair moves the means toward it by its share |
| MotionBackground.RescaleInRange | docker/ai-detector/motion.py:75-78 | rescaling never divides by zero and stays in 0..255 |
| MotionBackground.RescaleExact | docker/ai-detector/motion.py:75-78 | a level between the limits lands in proportion, rounded down, one outside at the nearer end |
| MotionBackground.RescaleMonotone | docker/ai-detector/motion.py:75-78 | it keeps the order of grey levels and sends the limits to 0 and 255 |
| MotionBackground.BlendStaysGreyIff | docker/ai-detector/motion.py:123-134 | averaging stays in 0..255 for every image if and only if the weight is in 0..1 |
| MotionBackground.BlendExact | docker/ai-detector/motion.py:123-134 | the average moves the share alpha of the way to the pixel |
| MotionBackground.WindowAccept | docker/ai-detector/motion.py:66-72 | one more accepted pair shifts the window by one |
| MotionBackground.WindowEmpty | docker/ai-detector/motion.py:39-40 | before any frame is accepted the window holds (0, 255) throughout |
| MotionBackground.AveragesIff | docker/ai-detector/motion.py:119-135 | a frame enters the background when it has no box, or it and the nine before it all have |
| MotionBackground.MotionRunExact | docker/ai-detector/motion.py:119-135 | the count is the longest stretch of frames with boxes up to the last |

## Left out

- RegionMethods.EveryBoxCovered: a negative `min_region` is not modelled; it could make a region of area zero, which the size rule divides by.
- BoxOverlap.OverlapIsPixelShare: boxes with negative extent are left to the bounds on IntersectionOverUnion, since they have no pixels to count.
- BoxOverlap.IntersectionOverUnion: exact rationals, not floating point; so are the factors 1.35, 0.1, 1.1 and 0.05, the averages and the blending. Rounding at an exact threshold may differ.
- MotionBackground.MotionDetector.constructor: requires a contrast history of at least one frame; with none the source indexes an empty array.
- MotionBackground.MotionDetector.Observe: percentiles, resizing, blurring, thresholding and contours are OpenCV and numpy calls; their results are arguments of any value in range.
- VoipRestart.App.RestartVoIP: of the configuration only the switch and the fields Normalize treats in the two typical ways are kept apart, the rest being one opaque value; blanks and case are those of ASCII; a server that failed to open is taken to hold no listener.
- VoipRestart.App.constructor: the start-up call that applies the stored configuration is one more call of RestartVoIP.
- GroupTree.UpdateGroup: decoding the request and errors of the database are left out; the table is a list.
- GroupTree.BuildGroupTree: requires distinct ids other than 0, which the table's primary key gives (`internal/storage/db_group.go:45-46`); statistics are never filled in by the source.
- LogTailer.Follow: parsing a line, its level and its query filter are one predicate on the line; a log cut short and regrown past the old offset between two polls looks like an appended one to the code, and the text shown is then what was read; failing reads end the session; the heartbeat does not touch the state.
- EventFeed.FeedDelivers: decoding UTF-8 and JSON are library judgements given as predicates, and a payload is a UTF-8 line; the HTTP reader's own limit on line length is not modelled.
- WebRtcProvider.NVRWebRTCProvider.OfferBegins: the lookup of the published stream is its argument, and messages to the frontend are not recorded.
- WhepOnDemand.Hook.OnHookEvent: strings are sequences of bytes; the device lookup `eligible` is answered by the event; both callbacks are set; the worker's second look at the switch and its logging decide nothing here.
- Gb28181Restart.RunsAreSafe: the device and channel lookup before an INVITE is a boolean; a configuration that start-up rejects makes no App; the unlocked stop at process shutdown is excluded.
- TtlCache.Replay: each operation is atomic, although Get deletes under a read lock; a data race there is outside the model.
- Merging detections by non-maximum suppression (`reduce_detections`) and the tracker.
- ONVIF requests, media proxying, HTTP routing, WebSocket and SIP calls, authentication.
- Storage, recording, merging and the media engine, including cascaded deletion of groups.
- The client pool beside the cache, the map-tile cache, the event de-duplication window and the analysis semaphore: smaller copies of what is here.
