# A verified model of the media transfer core

This project models the receive side of a real-time media library and the stream codecs beside it,
and proves what they keep over whole runs. `dafny verify dfyconfig.toml` checks all of it.

**Video receive pipeline.** RTP packets are collected in a growable ring (`PacketBuffers`), complete
frames are taken out of it, and reference finders (`SeqNumFinder`, `Vp8Finder`, `RefFinder`) decide
when a frame may be passed on to the decoder. The central results: over every run of inserts, paddings and
clears every packet inserted has exactly one fate (`PacketFates`), what is handed out splits into proper frames,
and for codecs with frame flags no complete frame is held back; every delta frame handed off references a
frame handed off earlier, with nothing but padding in between; no waiting frame could be handed off; every
frame given in is handed off once, waiting, or lost for a stated reason; nothing older than the clear point
and nothing twice is ever returned.

**RTP demultiplexer.** Five routing tables and what is learned from packets, as a machine over any
interleaving of adding, removing and packets (`DemuxerTables`), and the class that refines it (`Demuxer`).

**Stream reassembly.** The deframer for packets over TCP (`Deframing`, section 2 of RFC 4571), the byte
buffer (`MsgBuffers`) and the incremental HTTP body and chunk parser (`HttpBody`, `HttpParsers`; section 7.1 of
RFC 9112). What they deliver depends on the bytes received and not on how the network cuts them.

**Codecs and arithmetic.** AMF 0 reader and writers (`AmfValues`, `AmfLemmas`, `AmfReader`, `AmfWriter`), URL
encoding (`UrlCodec`), the 24-bit absolute send time and its rewriting in place (`AbsSendTime`, sections 4.2
and 4.3 of RFC 8285), and delay differences between packet groups (`InterArrival`).

State that the library changes in place is a class whose methods are proved against functions of the old
state; the theorems are about those functions, or about `Run` methods that drive a new object through an
arbitrary sequence of operations.

## Conventions

- Sequence-number helpers that the library takes from elsewhere are defined here: `AheadOf` (less than half
  the ring ahead; at exactly half the larger number wins), `ForwardDiff`, and an unwrapper that moves by the
  shortest signed step. Containers ordered by age are sets, or sequences searched for the first
  entry that is not older; both are exact while the numbers lie within half the number space.
- Frames carry a tag that stands for the frame object, so that "the same frame" has a meaning, and the
  sender's unbounded number of their last packet, of which the wire has the low 16 bits; nothing decides by
  either. Padding is recorded by its unbounded number, so that a number reported a whole cycle ago does not count.
- `Slot(s, n)` is `s` modulo `n`, written by repeated subtraction.
- The finder's window is half the number space less the 100 numbers that its age limits reach back. A run
  stays live when for every operation there is a window that holds its numbers and the finder's live numbers at
  that time; the window moves on with the stream.

## Model

| member | source | states |
|---|---|---|
| SeqNums.SlotInDoubledRing | packet_buffer.cpp:186-203 | doubling a ring sends a slot's packets to the same slot or to the one a whole old ring later |
| SeqNums.SlotCoarser | packet_buffer.cpp:93-110 | numbers that collide in a large ring collide in every smaller one, so a collision at the largest size cannot be grown away |
| SeqNums.SlotsDistinct | packet_buffer.cpp:353-361 | fewer consecutive numbers than slots never share a slot, also across the 16-bit wrap |
| PacketRing.RehashStep | packet_buffer.cpp:195-200 | while a ring is doubled every packet finds its new slot free, so none overwrites another |
| PacketRing.RehashDone | packet_buffer.cpp:186-203 | the doubled ring finds exactly the packets the old one found |
| PacketRing.ConservedMore | packet_buffer.cpp:229-369 | taking frames out one after the other splits the ring into what is stored and what was returned, packet by packet |
| PacketRing.MarkStep | packet_buffer.cpp:232-234 | marking a packet that continues its frame leaves only its successor to be looked at |
| PacketRing.TakeStep | packet_buffer.cpp:349-365 | taking a finished frame out leaves every other mark right |
| PacketRing.WalkMeetsFirst | packet_buffer.cpp:255-309 | the backward search for the first packet cannot go round the ring without meeting it |
| PacketRing.NothingCompleteHeld | packet_buffer.cpp:205-240 | a settled ring stores no first-to-last run of one timestamp on consecutive numbers |
| PacketRing.SpanRun | packet_buffer.cpp:297-309 | with timestamps spread over less than half the ring, a run of occupied slots of one timestamp has consecutive numbers |
| PacketRing.SlotHolds | packet_buffer.cpp:303-306 | under the same condition a slot of the timestamp holds the very number looked for |
| MissingPackets.WindowKept | packet_buffer.cpp:371-394 | the missing numbers stay within the 1000 before the newest if and only if there is no jump of exactly half the number space from a newest number below 1000 with the oldest number missing |
| MissingPackets.WindowLost | packet_buffer.cpp:376-379 | a jump that does leave a stale missing number behind |
| MissingPackets.TrimmedKeepsNewest | packet_buffer.cpp:124-158 | clearing forgets the missing numbers up to the clear point, but for the newest of them |
| MissingPackets.TrimmedKeepsOne | packet_buffer.cpp:124-158 | clearing keeps what is missing ahead of the clear point and, if anything at or before it is missing, one such number, the newest |
| MissingPackets.UpdatedIs | packet_buffer.cpp:371-394 | a number ahead of the newest makes exactly the numbers in between missing that lie fewer than 1000 back, and forgets what is too old; any other number is missing no longer, and nothing else changes |
| FrameRuns.SearchFirstPacket | packet_buffer.cpp:238-260 | the search ends at a first packet along a gap-free chain of one timestamp and never meets an empty slot |
| FrameRuns.SearchTimestampRun | packet_buffer.cpp:255-309 | for H.264 the search takes every packet of the timestamp in the preceding slots, and gives key iff they carry an IDR (with SPS and PPS when forced), with the key frame's resolution; it gives up if and only if a packet of that run has a bad header |
| FrameRuns.ScanPacket | packet_buffer.cpp:261-290 | one packet's NALUs and resolution are added to what was seen before |
| FrameRuns.RunHasFrame | packet_buffer.cpp:267-279 | a NALU type seen in the ring's run is one carried by the frame returned, and conversely |
| FrameRuns.KeySizeIs | packet_buffer.cpp:281-290 | the resolution of a key frame is that of its oldest packet with a valid one from which on the run makes a key frame, or there is none |
| FrameRuns.HandedMore | packet_buffer.cpp:229-369 | one more frame keeps everything promised about the frames already found: proper frames, conserved packets, keys marked, delta frames gap-free, no packet of its timestamp left before it |
| FrameRuns.TakeOne | packet_buffer.cpp:353-361 | taking a run packet by packet touches no slot outside it and none twice |
| FrameRuns.ChainTaken | packet_buffer.cpp:349-365 | after a frame with flags was taken the marks that remain are right |
| FrameRuns.TypedKey | packet_buffer.cpp:326-339 | the frame type set on the first packet says whether the packets returned make a key frame |
| FrameRuns.TypedFrame | packet_buffer.cpp:247-361 | an H.264 run is a proper frame when timestamps span less than half the ring |
| FrameRuns.ChainExhausted | packet_buffer.cpp:232-234 | the bound by the ring's size never cuts a chain of frames short |
| FrameRuns.NotCrowded | packet_buffer.cpp:93-115 | a free slot shows that no stored packet needs it in a larger ring either |
| FrameRuns.SettledStore | packet_buffer.cpp:115-121 | storing a packet leaves only this packet unlooked-at |
| FrameRuns.ClearedSettled | packet_buffer.cpp:124-158 | clearing drops exactly the visited older packets, and keeps the marks right if and only if it cuts no partly received frame |
| FrameRuns.ClearedExactly | packet_buffer.cpp:124-158 | while everything stored is at or after the first number, clearing drops exactly what is older than the clear point |
| FrameRuns.UnfinishedSettled | packet_buffer.cpp:205-227 | two packets of an unfinished frame, rightly marked |
| FrameRuns.ClearCanCut | packet_buffer.cpp:124-158 | a clear that cuts this frame in two |
| PacketBuffers.Rehash | packet_buffer.cpp:193-201 | the loop moves every packet into a ring of twice the size and finds exactly the same packets there |
| PacketBuffers.PacketBuffer.ExpandBufferSize | packet_buffer.cpp:186-203 | doubles the ring unless it has its largest size, losing and merging nothing |
| PacketBuffers.PacketBuffer.PotentialNewFrame | packet_buffer.cpp:205-227 | holds iff all packets of the frame up to this one are here |
| PacketBuffers.PacketBuffer.UpdateMissingPackets | packet_buffer.cpp:371-394 | afterwards exactly those numbers are missing that were skipped fewer than 1000 back or were missing and are not too old; a number that is not ahead only leaves the set; the window is kept iff there is no half-range jump as named by WindowKept |
| PacketBuffers.PacketBuffer.AddSkipped | packet_buffer.cpp:383-389 | the loop records exactly the numbers in between |
| PacketBuffers.PacketBuffer.TakeFrame | packet_buffer.cpp:349-361 | moves exactly the packets of the run out of the ring, in order, with flags at the two ends |
| PacketBuffers.PacketBuffer.HandOutFrame | packet_buffer.cpp:238-365 | hands out the whole frame that ends here and leaves the ring right |
| PacketBuffers.PacketBuffer.HandOutH264Frame | packet_buffer.cpp:247-365 | hands out all of the run, as far back as the timestamp goes, marked key iff it is one, its first packet with the resolution that KeySizeIs names or its own, or withholds it, if and only if a packet of the run has a bad header or it is a delta frame with a missing packet at or before its start |
| PacketBuffers.PacketBuffer.SetFrameType | packet_buffer.cpp:323-339 | changes the type and resolution of the first packet and nothing else |
| PacketBuffers.PacketBuffer.ContinueFrame | packet_buffer.cpp:232-366 | one turn of the loop: marks a packet and hands out the frame it ends; it stops the search if and only if that is an H.264 frame to be withheld |
| PacketBuffers.PacketBuffer.FindFrames | packet_buffer.cpp:229-369 | what is returned splits into frames that end with a last packet; ring and frames together conserve the packets; the search passes number after number, leaving no last packet behind, and ends only once round the ring, at a number whose packet does not continue a frame, or at a last packet whose H.264 frame is withheld; for codecs with flags nothing complete stays behind |
| PacketBuffers.PacketBuffer.InsertPacket | packet_buffer.cpp:73-122 | drops old packets and duplicates, clears exactly on a collision at the largest size, and otherwise stores the packet losing none and searches for frames from it on, to where FindFrames ends; the missing numbers stay within 1000 of the newest unless a half-range jump occurs |
| PacketBuffers.PacketBuffer.StorePacket | packet_buffer.cpp:115-121 | the packet is stored, and the frames found from it on leave, up to where FindFrames ends |
| PacketBuffers.PacketBuffer.MakeRoom | packet_buffer.cpp:99-102 | growing ends with a free slot, or the slot is needed even in the largest ring |
| PacketBuffers.PacketBuffer.InsertPadding | packet_buffer.cpp:164-169 | fills a gap and hands out the frames found from the next number on, up to where FindFrames ends |
| PacketBuffers.PacketBuffer.ClearTo | packet_buffer.cpp:124-158 | drops the packets up to the number, keeps the marks right iff it cuts no frame, and keeps the missing window |
| PacketBuffers.PacketBuffer.ClearInternal | packet_buffer.cpp:175-184 | forgets everything but the ring's size |
| PacketBuffers.PacketBuffer.Clear | packet_buffer.cpp:160-162 | forgets everything but the ring's size |
| FrameRuns.RunInside | packet_buffer.cpp:297-309 | the run the search ends with is the longest one of the timestamp that ends there |
| FrameRuns.FoundStep | packet_buffer.cpp:232-367 | one turn of the search, a packet marked or a frame handed out, keeps everything promised about the frames found |
| FrameRuns.WholeTaken | packet_buffer.cpp:297-361 | taking out an H.264 run as far as it goes leaves no packet of its timestamp in the slot before it, also when it fills the ring |
| FrameRuns.WalkedOn | packet_buffer.cpp:232-367 | no later turn of the search brings back what it has passed: a number passed stores no last packet and no unmarked one |
| FrameRuns.SameWithheld | packet_buffer.cpp:323-347 | setting the type of a frame that is withheld does not change that it is |
| FrameRuns.FlagsKeptMore | packet_buffer.cpp:229-369 | the packets still stored have the flags they came with, and every frame taken out ends by such a flag |
| PacketFates.PassOver | packet_buffer.cpp:83-97 | an ignored or duplicate packet leaves every other packet accounted for, and nothing but a clear or a collision drops one |
| PacketFates.StoreNext | packet_buffer.cpp:112-121 | a packet stored is accounted for, and so are all others |
| PacketFates.TakeNext | packet_buffer.cpp:349-361 | packets handed out move, each to its own position of the output, and no other packet changes its fate; no clear of everything and no collision lies between the insert and the return |
| PacketFates.DropNext | packet_buffer.cpp:104-184 | packets dropped by a clear or a collision are accounted for by that operation, and a clear of everything or a collision leaves none stored |
| BufferRuns.Run | packet_buffer.cpp:73-369 | over every run for a codec with flags, every packet inserted is exactly one of ignored, duplicate, collided, returned at one position, stored, or dropped by a named operation, and none is stored or returned past a clear of everything or a collision; what is returned splits into gap-free frames of one timestamp with flags exactly at their ends; no complete frame is left in the ring; and the run ends early only at a clear that cuts a frame |
| BufferRuns.RunH264 | packet_buffer.cpp:73-394 | over every H.264 run whose packets of one timestamp lie less than half the first ring apart, the same accounting, and the buffer after each operation: a packet is stored exactly if it is not old, not a duplicate and has room in the largest ring, a collision or a clear of everything empties the buffer, and a clear drops exactly the visited older packets; the packets returned split into consecutive runs of one timestamp, whole ones that end with a last packet, each marked key iff it carries an IDR (with SPS and PPS when forced); no delta frame is handed out while a number at or before its start was skipped and neither inserted nor padded since, as DeltaWaits says; each search ends only where FindFrames does, so that a frame completed is handed out or withheld for a stated reason; and the missing numbers lie in the 1000 before the newest as long as there was no half-range jump |
| BufferSteps.WindowOverRun | packet_buffer.cpp:371-394 | over every such run the missing numbers lie in the 1000 before the newest, unless there was a half-range jump with the oldest number missing |
| BufferSteps.MissingAfterIs | packet_buffer.cpp:363-364 | after frames have been handed out exactly what lies ahead of all of them is still missing |
| BufferSteps.DeltaWaits | packet_buffer.cpp:341-394 | over every H.264 run, no delta frame is handed out while a number at or before its start has been jumped over and since then neither inserted nor padded, is at most 1000 behind the newest, and lies after the last frame handed out and the last clear |
| Unwrapping.PeekResidue | rtp_vp8_ref_finder.cpp:238-242 | an unwrapped value is always the wire value modulo the range |
| GopMap.HandedOffIff | rtp_seq_num_only_ref_finder.cc:51-111 | a frame that starts no group is handed off iff its group survives the age limit and, for a delta frame, its first packet directly follows what the group has |
| GopMap.KeyFrameDelivered | rtp_seq_num_only_ref_finder.cc:51-111 | a key frame is always handed off and finds its own group |
| GopMap.CleaningDeliversNothing | rtp_seq_num_only_ref_finder.cc:63-69 | forgetting old groups never makes a waiting frame deliverable |
| GopMap.InsertOrdered | rtp_seq_num_only_ref_finder.cc:53-57 | adding a key frame's group keeps the order of groups |
| GopMap.CleanedIs | rtp_seq_num_only_ref_finder.cc:63-69 | in a window exactly the groups are forgotten whose key lies more than 100 numbers back, but not the last group |
| SeqNumState.PadReach | rtp_seq_num_only_ref_finder.cc:137-171 | continuous padding stays inside the window and consists of padding only |
| SeqNumState.PadRuns | rtp_seq_num_only_ref_finder.cc:147-160 | padding is followed exactly to where the next number is not padding, and exactly the numbers stepped over are used up; only if every number is padding does it come back to where it started |
| SeqNumState.FollowsPadding | rtp_seq_num_only_ref_finder.cc:137-171 | the group found has moved its end over all padding that follows and has been re-keyed if its key was far behind; nothing else has changed |
| SeqNumState.PaddedCore | rtp_seq_num_only_ref_finder.cc:137-171 | joining padding to a group, and re-keying an old group, keep all records true |
| SeqNumState.DeltaSound | rtp_seq_num_only_ref_finder.cc:83-110 | a delta frame's reference is a frame handed off earlier, smaller in its id by exactly the distance of their unbounded numbers, with only padding in between |
| SeqNumState.ManagedCore | rtp_seq_num_only_ref_finder.cc:51-111 | every step keeps the invariant, so that every frame handed off is sound |
| SeqNumMachine.PassKeepsWaiting | rtp_seq_num_only_ref_finder.cc:113-135 | a retry that fails makes no earlier frame of the pass deliverable |
| SeqNumMachine.PassGood | rtp_seq_num_only_ref_finder.cc:118-133 | everything a pass hands off is sound, and after a pass that hands nothing off no waiting frame could be |
| SeqNumMachine.RetriedGood | rtp_seq_num_only_ref_finder.cc:113-135 | retrying ends at a fixpoint, and everything it hands off is sound |
| SeqNumMachine.MorePaddingCore | rtp_seq_num_only_ref_finder.cc:173-183 | reporting one more number as padding keeps the invariant |
| SeqNumMachine.MorePaddingIs | rtp_seq_num_only_ref_finder.cc:173-178 | stashed padding up to 100 numbers back is kept, what lies further back is forgotten, and the new number is added |
| SeqNumMachine.StillWaiting | rtp_seq_num_only_ref_finder.cc:29-49 | a frame that is not handed off leaves it and all other waiting frames waiting |
| SeqNumMachine.StepGood | rtp_seq_num_only_ref_finder.cc:29-194 | every operation whose numbers lie in the window keeps everything handed off sound and leaves no deliverable frame waiting |
| SeqNumMachine.MoveGood | rtp_seq_num_only_ref_finder.cc:162-170 | the window may move on with the stream as long as the live numbers stay in it |
| SeqNumMachine.RunGood | rtp_seq_num_only_ref_finder.cc:29-194 | over every run whose live numbers always fit a window that moves on with the stream, every delta frame handed off references a frame handed off strictly earlier, with every unbounded number in between reported as padding, and no waiting frame could be handed off |
| SeqNumRuns.RunSplits | rtp_seq_num_only_ref_finder.cc:29-194 | over every run, every frame given in is exactly one of handed off once, waiting, or lost |
| SeqNumRuns.RunLosses | rtp_seq_num_only_ref_finder.cc:29-194 | over every run that stays live, a frame is lost only because it starts before a clear point, is the oldest of a full stash, or every group left is newer |
| SeqNumRuns.RunKeys | rtp_seq_num_only_ref_finder.cc:53-57 | over every run that stays live, every key frame is handed off |
| SeqNumRuns.StashBounded | rtp_seq_num_only_ref_finder.cc:35-39 | at most 101 frames wait |
| SeqNumRuns.RunInOrder | rtp_seq_num_only_ref_finder.cc:29-194 | over every run, frames wait in the order in which they were given in, the newest first, so that a full stash loses the oldest |
| PerfectStream.StreamStaysLive | rtp_seq_num_only_ref_finder.cc:29-171 | a stream without loss stays live for ever, across every wrap, and each frame is handed off with its number as id and a reference to the one before |
| PaddedStream.PaddingDelivers | rtp_seq_num_only_ref_finder.cc:29-183 | in a stream of frames of any lengths with padding between them, across every wrap, every frame is handed off under the id of its last number with a reference to the frame before, whether it or the padding in front of it came first; nothing waits and nothing is lost |
| SeqNumFinder.SeqNumOnlyRefFinder.UpdateLastPictureIdWithPadding | rtp_seq_num_only_ref_finder.cc:137-171 | the loop moves the group's end over all continuous padding, up to a number that is not padding, and uses exactly that padding up |
| SeqNumFinder.SeqNumOnlyRefFinder.CleanOldGroups | rtp_seq_num_only_ref_finder.cc:63-69 | forgets the groups more than 100 numbers old, but never the last one |
| SeqNumFinder.SeqNumOnlyRefFinder.SetReferences | rtp_seq_num_only_ref_finder.cc:94-110 | gives the frame its id and reference and makes it the last of its group |
| SeqNumFinder.SeqNumOnlyRefFinder.ManageFrameInternal | rtp_seq_num_only_ref_finder.cc:51-111 | the in-place steps are exactly one step of the value machine about which soundness is proved |
| SeqNumFinder.SeqNumOnlyRefFinder.RetryFrame | rtp_seq_num_only_ref_finder.cc:120-132 | one waiting frame is tried again and leaves the stash iff it is handed off or dropped |
| SeqNumFinder.SeqNumOnlyRefFinder.RetryStashedFrames | rtp_seq_num_only_ref_finder.cc:113-135 | the nested loops end, and are exactly the passes of the machine whose fixpoint is proved |
| SeqNumFinder.SeqNumOnlyRefFinder.ManageFrame | rtp_seq_num_only_ref_finder.cc:29-49 | hands off, stashes or drops the frame and retries the others: one step of the machine |
| SeqNumFinder.SeqNumOnlyRefFinder.PaddingReceived | rtp_seq_num_only_ref_finder.cc:173-183 | forgets padding more than 100 numbers old, joins the new number to its group and retries: one step of the machine |
| SeqNumFinder.SeqNumOnlyRefFinder.ClearTo | rtp_seq_num_only_ref_finder.cc:185-194 | drops exactly the waiting frames that start before the number: one step of the machine |
| SeqNumFinder.Run | rtp_seq_num_only_ref_finder.cc:29-194 | every run hands off and keeps waiting exactly what the machine says; while its live numbers fit a moving window it is sound, leaves no deliverable frame waiting, hands off every key frame and loses frames only for a stated reason; every frame given in is exactly one of handed off once, waiting or lost |
| RefFinder.FrameReferenceFinder.AddPictureIdOffset | rtp_frame_reference_finder.cpp:192-199 | moves the id and every reference of every frame by the offset |
| RefFinder.FrameReferenceFinder.ManageFrame | rtp_frame_reference_finder.cpp:167-178 | drops a frame older than the clear point; otherwise returns, with the offset added, exactly what the finder called for hands off |
| RefFinder.FrameReferenceFinder.ManageByFinder | rtp_frame_reference_finder.cpp:57-155 | the descriptor, then the codec and its header select the finder; one of that kind is kept, a new one is made otherwise, and its answer is returned |
| RefFinder.FrameReferenceFinder.PaddingReceived | rtp_frame_reference_finder.cpp:180-185 | passes padding on to the finder that uses it and returns what it hands off |
| RefFinder.FrameReferenceFinder.ClearTo | rtp_frame_reference_finder.cpp:187-190 | sets the clear point and drops exactly the waiting frames before it |
| RefMachine.NeverStale | rtp_frame_reference_finder.cpp:127-190 | over every run, no frame that starts before the clear point in force is returned |
| RefMachine.NeverTwice | rtp_frame_reference_finder.cpp:147-190 | over every run, what was returned and what waits are different frames given in, also after switches of finders |
| RefMachine.FewWait | rtp_seq_num_only_ref_finder.cc:35-39 | at most 101 frames wait after every run, also across switches of finders |
| RefMachine.DescriptorDecides | rtp_frame_reference_finder.cpp:57-65 | a frame with a descriptor is returned with the id and references that this names, if these are at most five |
| RefMachine.FrameIdsFollow | rtp_frame_id_only_ref_finder.cpp:27-41 | frames that carry consecutive ids, across every wrap, are all returned at once under consecutive ids, each with a reference to the one before unless it is a key frame |
| RefMachine.RunIsFinderRun | rtp_frame_reference_finder.cpp:110-117 | a run that calls for the sequence-number finder only is that finder's run on the frames that are not too old, so that its soundness holds of what is returned |
| RefFinder.Run | rtp_frame_reference_finder.cpp:167-190 | every run returns, operation by operation, exactly what the machine says: no frame that starts before the clear point in force, across stashing, retries and switches, and no frame twice; at most 101 frames wait at any time |
| Vp8Layers.ScannedKnown | rtp_vp8_ref_finder.cpp:146-184 | a frame passes the scan of its layers only if every layer has an older id and no frame in between is awaited |
| Vp8Layers.ReferencesKnown | rtp_vp8_ref_finder.cpp:92-188 | a frame handed off has as many references as its layer asks for, and the i-th one is the id of a frame handed off before on layer i |
| Vp8Layers.PropagatedKeeps | rtp_vp8_ref_finder.cpp:190-212 | entering an id in the following base-layer frames keeps every entry known and every base layer set |
| Vp8Layers.EnteredOk | rtp_vp8_ref_finder.cpp:92-212 | the layers opened for a frame, with its id entered, hold only ids handed off |
| Vp8Layers.NamedResidue | rtp_vp8_ref_finder.cpp:238-242 | id and references are unwrapped to values equal to them modulo 2^15 |
| Vp8Layers.ManagedCore | rtp_vp8_ref_finder.cpp:50-212 | every frame keeps the invariant, so that a frame handed off has references to frames handed off before |
| Vp8Machine.RunCore | rtp_vp8_ref_finder.cpp:28-253 | over every run, every frame handed off has the right number of references, and the i-th one is, in 15 bits, the picture id of a frame handed off earlier on layer i |
| Vp8Machine.RunSplits | rtp_vp8_ref_finder.cpp:28-253 | over every run, the frames given in are, counted with repetitions, those waiting, those handed off and those lost, and a frame handed off differs from the one given in by its id and references only |
| Vp8Machine.RunLosses | rtp_vp8_ref_finder.cpp:28-253 | over every run, base-layer key frames never wait and are never lost, frames are cleared only if they start before a clear point, and at most 101 wait |
| Vp8Machine.KeptExactly | rtp_vp8_ref_finder.cpp:244-253 | clearing keeps exactly the waiting frames that do not start before the number |
| Vp8Machine.RetriedDry | rtp_vp8_ref_finder.cpp:214-236 | retrying ends with a pass that hands none off, and the frames that stay are exactly those decided to wait at their turn of it |
| Vp8Machine.NoneDeliverable | rtp_vp8_ref_finder.cpp:214-236 | if the frames tried in the last pass have been noted before, with base-layer counters within half their range, and none is given up in it, then no waiting frame could be handed off |
| Vp8Machine.RetriesCanMiss | rtp_vp8_ref_finder.cpp:104-236 | three frames after which one is left waiting that the next retry would hand off, because a frame given up later in the pass opened its layers |
| Vp8Laws.ExpectedIs | rtp_vp8_ref_finder.cpp:63-83 | a frame newer than the last picture makes exactly the ids it skips fewer than 100 back, and its own, not yet received; all others only make what is too old be forgotten |
| Vp8Laws.NotYetStays | rtp_vp8_ref_finder.cpp:63-210 | what is not yet received stays so until it is handed off, unless it is too old |
| Vp8Laws.ScannedIff | rtp_vp8_ref_finder.cpp:146-184 | a frame passes the scan of its layers iff every layer has an older id and no frame in between is awaited |
| Vp8Laws.LayerFrameIff | rtp_vp8_ref_finder.cpp:104-188 | when exactly a frame above the base layer is handed off |
| Vp8Laws.BaseFrameIff | rtp_vp8_ref_finder.cpp:92-130 | when exactly a base-layer frame is handed off |
| Vp8Laws.JumpWaits | rtp_vp8_ref_finder.cpp:63-184 | a frame that depends on its layers and jumps over a picture id that lies after one of them is not handed off |
| Vp8Laws.PropagatedIs | rtp_vp8_ref_finder.cpp:190-208 | the id is entered exactly in the base-layer frames that follow without a gap and have no newer id, on the frame's layer only |
| Vp8Laws.EntersItself | rtp_vp8_ref_finder.cpp:92-212 | a frame handed off is entered on its layer; a base-layer frame takes the other layers of the one before it, a key frame none |
| Vp8Stream.StreamDelivered | rtp_vp8_ref_finder.cpp:28-242 | in a stream without loss on up to five temporal layers, across every wrap, every frame is handed off at once under its number, with references to exactly the latest frames on the layers it depends on; none waits and none is lost |
| Vp8Finder.Vp8RefFinder.UpdateNotYetReceived | rtp_vp8_ref_finder.cpp:63-83 | the loop records exactly the ids skipped and forgets those too old |
| Vp8Finder.Vp8RefFinder.UpdateLayerInfo | rtp_vp8_ref_finder.cpp:190-212 | the loop enters the id on the layer of this and the following base-layer frames, up to one that has a newer id |
| Vp8Finder.Vp8RefFinder.UnwrapPictureIds | rtp_vp8_ref_finder.cpp:238-242 | the loop unwraps the references and then the id, as NamedResidue is about |
| Vp8Finder.Vp8RefFinder.ManageFrameInternal | rtp_vp8_ref_finder.cpp:50-188 | the in-place steps are exactly one step of the value machine: the decision by the layers, the layers and ids noted on every path, and the references of a frame handed off |
| Vp8Finder.Vp8RefFinder.RetryStashedFrames | rtp_vp8_ref_finder.cpp:214-236 | the nested loops end, and are exactly the passes of the machine, the last of which hands none off |
| Vp8Finder.Vp8RefFinder.ManageFrame | rtp_vp8_ref_finder.cpp:28-48 | hands off, stashes or drops the frame and retries the others: one step of the machine |
| Vp8Finder.Vp8RefFinder.ClearTo | rtp_vp8_ref_finder.cpp:244-253 | drops exactly the waiting frames that start before the number |
| Vp8Finder.Run | rtp_vp8_ref_finder.cpp:28-253 | every run hands off and keeps waiting exactly what the machine says: over every order of arrival, every frame handed off has a reference for each layer it depends on, which is, in 15 bits, the picture id of a frame handed off earlier on that layer; the frames given in are those waiting, at most 101, those handed off, and those lost; and every base-layer key frame is handed off |
| DemuxerTables.StepShape | rtp_demuxer.cpp:115-254 | every operation keeps the known MIDs exactly the registered ones, and no MID both alone and with an RSID |
| DemuxerTables.RunShape | rtp_demuxer.cpp:115-254 | the same after every run from an empty demultiplexer |
| DemuxerTables.RefusedIff | rtp_demuxer.cpp:161-212 | a sink is refused iff its MID is taken alone, its bare MID is taken in a pair, its pair is taken, or one of its SSRCs is |
| DemuxerTables.DuplicateRsidAccepted | rtp_demuxer.cpp:161-212 | a second sink for a bare RSID is accepted and never reached by it |
| DemuxerTables.RouteKnown | rtp_demuxer.cpp:265-362 | a packet only ever reaches a sink that some rule leads to |
| DemuxerTables.StepKnows | rtp_demuxer.cpp:241-254 | only adding makes an unknown sink known, and removing makes it unknown |
| DemuxerTables.RemovedNeverReceives | rtp_demuxer.cpp:241-362 | over every run, a removed sink receives no packet until it is added again |
| DemuxerTables.LearnedBindingsBounded | rtp_demuxer.cpp:415-435 | in every interleaving of operations, a packet leaves the SSRC table no larger than it was, or within 1000 |
| DemuxerTables.BindingsBounded | rtp_demuxer.cpp:115-435 | over every run the SSRC table holds at most 1000 entries more than were signalled |
| DemuxerTables.BareMidSticks | rtp_demuxer.cpp:265-373 | a stream routed by a bare MID, on the packet or latched, keeps reaching that sink without a MID, until the sink is removed or another known MID is shown |
| DemuxerTables.PairSticks | rtp_demuxer.cpp:265-362 | a stream routed by a MID together with an RSID, on the packet or latched, keeps reaching that sink without them, until the sink is removed or another known MID or another RSID is shown |
| DemuxerTables.RsidSticks | rtp_demuxer.cpp:265-362 | a stream without a MID routed by its RSID keeps reaching that sink without it, until the sink is removed or a known MID or another RSID is shown |
| DemuxerTables.BindingSticks | rtp_demuxer.cpp:330-435 | a stream without MID and RSID that has reached a sink keeps reaching it whatever its payload types, until the sink is removed or a known MID or an RSID is shown |
| DemuxerTables.AddedByMid | rtp_demuxer.cpp:115-320 | a sink that is accepted receives the packets that show its MID, or its MID and RSID |
| DemuxerTables.AddedByRsid | rtp_demuxer.cpp:115-335 | it receives those of streams without a MID that show its RSID, unless another sink had that RSID before |
| DemuxerTables.AddedBySsrc | rtp_demuxer.cpp:115-345 | of streams that nothing else identifies it receives those with one of its SSRCs |
| DemuxerTables.AddedByPt | rtp_demuxer.cpp:115-413 | and those with a payload type that only it has |
| DemuxerTables.SharedPtDoesNotDecide | rtp_demuxer.cpp:399-413 | a payload type that another sink has does not decide |
| DemuxerTables.UnknownMidIgnored | rtp_demuxer.cpp:265-300 | a packet with an unregistered MID reaches no sink and teaches nothing |
| DemuxerTables.OthersKeepReceiving | rtp_demuxer.cpp:241-254 | removing a sink leaves what reaches another one as it is |
| Demuxer.RtpDemuxer.CriteriaWouldConflict | rtp_demuxer.cpp:161-212 | the branches and the loop decide exactly the specified conflicts |
| Demuxer.RtpDemuxer.RefreshKnownMids | rtp_demuxer.cpp:214-226 | the known MIDs become exactly the registered ones |
| Demuxer.RtpDemuxer.AddSink | rtp_demuxer.cpp:115-159 | refuses and changes nothing, or registers the sink under all its criteria: one step of the machine |
| Demuxer.RtpDemuxer.RemoveSink | rtp_demuxer.cpp:241-254 | forgets every rule that leads to the sink and nothing else; tells whether there was one |
| Demuxer.RtpDemuxer.ResolveSink | rtp_demuxer.cpp:265-362 | the sink by the rules in order, with MID and RSID latched and the SSRC bound: one step of the machine |
| Demuxer.RtpDemuxer.ResolveSinkByPayloadType | rtp_demuxer.cpp:399-413 | a payload type decides only when a single sink has it |
| Demuxer.RtpDemuxer.AddSsrcSinkBinding | rtp_demuxer.cpp:415-435 | binds the stream to the sink; a full table is left as it is |
| Deframing.DeframeConserves | libgb28181/gb28181_session.cpp:109-137 | the encodings of the packets taken and what is left over are all bytes received |
| Deframing.DeframeResidue | libgb28181/gb28181_session.cpp:109-137 | what is left over holds no complete packet, except an empty one with nothing behind it |
| Deframing.DeframeCut | libgb28181/gb28181_session.cpp:82-137 | cutting the stream anywhere and carrying the rest over gives the same packets and the same rest |
| Deframing.DeframeEncoded | libgb28181/gb28181_session.cpp:109-137 | packets sent come out in order; all of them unless the last one is empty |
| Deframing.StepsOverPacket | libgb28181/gb28181_session.cpp:113-137 | the loop steps over exactly the packet announced if and only if its length has its top bit clear, and never moves on for length 65534 |
| Deframing.LoopStandsStill | libgb28181/gb28181_session.cpp:109-137 | three bytes at which the loop stands still |
| Deframing.Session.OnRead | libgb28181/gb28181_session.cpp:77-236 | the loop takes exactly the packets of the carried-over and new bytes and carries the rest over |
| Deframing.Run | libgb28181/gb28181_session.cpp:77-236 | over every segmentation, the packets and the carried-over bytes depend only on all bytes received, together they are those bytes, and no complete non-empty packet is carried over |
| Bytes.ReadWrite | libhttp/msg_buffer.cpp:143-269 | reading an integer in network order undoes writing it |
| Bytes.WriteRead | libhttp/msg_buffer.cpp:143-269 | writing undoes reading |
| MsgBuffers.EmptiedFits | libhttp/msg_buffer.cpp:97-210 | an emptied buffer has room for its head offset iff it was built for at least eight bytes |
| MsgBuffers.MsgBuffer.EnsureWritableBytes | libhttp/msg_buffer.cpp:102-123 | makes the room asked for, by moving or by a larger buffer, and keeps the contents |
| MsgBuffers.MsgBuffer.Append | libhttp/msg_buffer.cpp:131-142 | the contents grow by the data at their end |
| MsgBuffers.MsgBuffer.AddInFront | libhttp/msg_buffer.cpp:276-300 | the contents grow by the data at their front, in all three cases |
| MsgBuffers.MsgBuffer.AppendInt | libhttp/msg_buffer.cpp:143-157 | an integer is appended in network order |
| MsgBuffers.MsgBuffer.AddInFrontInt | libhttp/msg_buffer.cpp:159-173 | an integer is put in front in network order |
| MsgBuffers.MsgBuffer.PeekInt | libhttp/msg_buffer.cpp:175-192 | gives the integer whose encoding the contents start with |
| MsgBuffers.MsgBuffer.ReadInt | libhttp/msg_buffer.cpp:246-269 | gives it and takes only its bytes |
| MsgBuffers.MsgBuffer.Retrieve | libhttp/msg_buffer.cpp:194-202 | drops a prefix, or everything |
| MsgBuffers.MsgBuffer.RetrieveAll | libhttp/msg_buffer.cpp:203-210 | empties the buffer, which stays usable |
| MsgBuffers.MsgBuffer.Read | libhttp/msg_buffer.cpp:238-245 | gives the prefix dropped |
| MsgBuffers.MsgBuffer.FindCRLF | libhttp/msg_buffer.cpp:270-274 | the first CR LF of the contents, or there is none |
| HttpBody.BodyStep | libhttp/http_parser.cpp:206-221 | one call finishes a Content-Length body iff all of it has arrived, by the invariant that the remaining length is the space of the packet |
| HttpBody.BodyIndependent | libhttp/http_parser.cpp:113-117 | over every arrival of bytes and every choice of calls, the body is the next L bytes and the surplus stays unread |
| HttpBody.BodyComplete | libhttp/http_parser.cpp:206-221 | the body does not depend on the segmentation, and any call made once all of it is there completes it |
| HttpBody.LengthStep | libhttp/http_parser.cpp:123-164 | a chunk's length line is read exactly once all of it is there |
| HttpBody.InChunkStep | libhttp/http_parser.cpp:222-238 | a chunk's packet becomes its data without the final CR LF, and nothing behind it is consumed |
| HttpBody.ChunksIndependent | libhttp/http_parser.cpp:123-238 | over every arrival of a chunked stream and every choice of calls, the chunks delivered are the stream's, in order, with exactly their data, chunks above 1 MiB included |
| HttpBody.CallsDeliver | libhttp/http_parser.cpp:123-238 | once everything has arrived, two calls for each chunk deliver them all |
| HttpMessage.EmptyLineStep | libhttp/http_parser.cpp:174-184 | behind the last length line a message ends exactly once its final CR LF is there, and nothing behind it is consumed |
| HttpMessage.MessageIndependent | libhttp/http_parser.cpp:123-238 | over every arrival of a chunked message and every choice of calls up to its end, the chunks delivered are its chunks in order, and when it has ended all are delivered and exactly what follows it is unread |
| HttpMessage.NotBeforeItsEnd | libhttp/http_parser.cpp:174-184 | a message has ended only when its final CR LF has arrived |
| HttpMessage.CallsEnd | libhttp/http_parser.cpp:123-238 | once everything has arrived, two calls for each chunk and two more end the message |
| HttpStream.StreamIndependent | libhttp/http_parser.cpp:190-205 | over every arrival of a body without an announced length and every choice of calls, the packets delivered have 64 KiB, and with what is held and unread they are exactly the bytes that arrived |
| HttpBody.ChunkLenRefusedIff | libhttp/http_parser.cpp:123-164 | a length line is refused iff more than 32 bytes show no end of it; a length above 1 MiB is noted as a bad request, and the chunk is expected all the same |
| HttpBody.OversizedChunkRead | libhttp/http_parser.cpp:135-151 | the line 100001 is noted and read |
| HttpBody.LengthOfToHex | libhttp/http_parser.cpp:128-129 | a length written in hexadecimal is read back |
| HttpParsers.HttpParser.ClearForNextHttp | libhttp/http_parser.cpp:378-385 | back to the header state with no packet and no length |
| HttpParsers.HttpParser.ClearForNextChunk | libhttp/http_parser.cpp:386-405 | back to the state in which the next chunk starts |
| HttpParsers.HttpParser.ParseStream | libhttp/http_parser.cpp:190-205 | fills packets of 64 KiB |
| HttpParsers.HttpParser.ParseNormalBody | libhttp/http_parser.cpp:206-221 | the in-place steps are those of the value machine |
| HttpParsers.HttpParser.ParseChunk | libhttp/http_parser.cpp:222-238 | the in-place steps are those of the value machine |
| HttpParsers.HttpParser.ParseChunkLen | libhttp/http_parser.cpp:123-164 | the in-place steps are those of the value machine: white space, sign, 0x and digits are read and the rest of the line ignored, and a too large length is noted and read all the same |
| HttpParsers.HttpParser.ParseLastEmptyChunk | libhttp/http_parser.cpp:174-184 | the in-place steps are those of the value machine |
| HttpParsers.HttpParser.Parse | libhttp/http_parser.cpp:64-189 | one call is one step of the value machine on the buffer's contents |
| HttpParsers.ReadBody | libhttp/http_parser.cpp:113-117 | through the buffer, for every segmentation, the body is exactly the next L bytes and the surplus stays in the buffer |
| HttpParsers.ReadChunks | libhttp/http_parser.cpp:123-238 | through the buffer, for every segmentation, the chunks delivered are the first ones of the stream with exactly their data, and all of them once everything has arrived and two calls for each have followed |
| HttpParsers.ReadMessage | libhttp/http_parser.cpp:64-238 | through the buffer, for every segmentation, a whole chunked message is read up to its end: its chunks with exactly their data, the end not before its final CR LF, and exactly what follows it left in the buffer; it has ended once everything has arrived and two calls for each chunk and two more have followed |
| HttpParsers.ReadStream | libhttp/http_parser.cpp:190-205 | through the buffer, for every segmentation, a body without an announced length is delivered in packets of 64 KiB, nothing lost, added or moved |
| AmfLemmas.ItemConsumption | libflv/amf0.c:300-401 | a value consumes the same bytes whichever items are requested |
| AmfLemmas.ObjectConsumption | libflv/amf0.c:371-401 | an object consumes the same bytes whichever items are requested |
| AmfLemmas.ValueRead | libflv/amf0.c:97-401 | a value that was written, nested objects and arrays included, is read back into its slot, ending exactly behind it |
| AmfLemmas.PropsRead | libflv/amf0.c:371-401 | a property list that was written is read back, ending exactly behind the object end |
| AmfLemmas.ElementsRead | libflv/amf0.c:346-361 | the elements of an array that were written are read back, ending exactly behind the last one |
| AmfLemmas.EachLandsOnce | libflv/amf0.c:387-395 | with distinct names every property lands unchanged in the first slot of its name and type |
| AmfLemmas.NobodyWants | libflv/amf0.c:387-395 | a slot that no property is for is not touched |
| AmfLemmas.ElementLands | libflv/amf0.c:346-361 | element k of an array lands in the k-th slot if the types fit, and in no other |
| AmfLemmas.ArrayForObject | libflv/amf0.c:340-401 | an array with names lands in the first slot of its name if that asks for an object |
| AmfLemmas.TextFits | libflv/amf0.c:264-281 | a string is stored exactly if the slot has room for it and its terminator |
| AmfReader.FindItem | libflv/amf0.c:387-391 | the first slot of the name and a fitting type, or none |
| AmfReader.ReadItem | libflv/amf0.c:300-338 | ends on every input, within the bytes, with what the specification reads |
| AmfReader.ReadObject | libflv/amf0.c:371-401 | the loop reads properties up to the object end as specified, and stays within the bytes |
| AmfReader.ReadArray | libflv/amf0.c:346-361 | the loop reads as many elements as announced or present |
| AmfReader.ReadItems | libflv/amf0.c:403-417 | reads values into slots of fitting types only |
| AmfWriter.WriteInt16 | libflv/amf0.c:12-18 | writes the two bytes in place, or lacks room and changes nothing |
| AmfWriter.WriteInt32 | libflv/amf0.c:20-28 | writes the four bytes in place, or lacks room and changes nothing |
| AmfWriter.WriteChars | libflv/amf0.c:30-44 | writes a string behind its length, or nothing |
| AmfWriter.WriteBoolean | libflv/amf0.c:97-104 | writes a boolean value, or nothing |
| AmfWriter.WriteDouble | libflv/amf0.c:106-130 | writes a number in network order, or nothing |
| AmfWriter.WriteString | libflv/amf0.c:132-150 | writes a short or long string, or nothing |
| AmfWriter.WriteNamed | libflv/amf0.c:162-187 | writes name and value exactly when both fit, and touches nothing outside its room |
| AmfWriter.WriteObject | libflv/amf0.c:62-79 | an object with its properties and its end, written exactly when all of it fits |
| AmfWriter.RoundTrip | libflv/amf0.c:97-401 | written and read back: every property lands in its slot, every other slot keeps what it held, and the reader ends exactly behind the object |
| InterArrival.LastSendIs | congestion_controller/inter_arrival_delta.cpp:120-123 | a group's send time is the latest of its packets |
| InterArrival.Telescopes | congestion_controller/inter_arrival_delta.cpp:68-119 | the differences reported between resets add up to that between the first and the latest completed group |
| InterArrival.StartsApart | congestion_controller/inter_arrival_delta.cpp:135-152 | groups start more than the group length apart, per group in between |
| InterArrival.ExactSizes | congestion_controller/inter_arrival_delta.cpp:108-109 | size differences are exact while sizes fit 31 bits |
| InterArrival.JoinsIff | congestion_controller/inter_arrival_delta.cpp:135-175 | a packet joins the current group iff it was sent with the latest one, within the group length of the first, or arrived in a burst: closer than it was sent, at most 5 ms behind the latest and less than 100 ms after the first |
| InterArrival.BurstMembers | congestion_controller/inter_arrival_delta.cpp:152-175 | a packet of a group that was sent later than the group length allows arrived in such a burst |
| InterArrival.ReportsIff | congestion_controller/inter_arrival_delta.cpp:68-119 | all is forgotten iff the clocks moved 3 s apart or the third group in a row arrived before the one sent earlier; a difference is reported iff it is not negative in arrival and all is not forgotten |
| InterArrival.InterArrivalDelta.ComputeDeltas | congestion_controller/inter_arrival_delta.cpp:49-134 | reports exactly when a group is completed with a plausible difference, resets exactly on a clock jump of 3 s or the third reordered group in a row, and otherwise joins, starts or drops: one step of the machine, whose records are always those of the packets taken |
| InterArrival.InterArrivalDelta.Reset | congestion_controller/inter_arrival_delta.cpp:176-180 | forgets everything |
| InterArrival.Run | congestion_controller/inter_arrival_delta.cpp:49-180 | over every run there is one report for each packet, as the machine gives it; the differences reported between two resets are those of consecutive groups of the packets, non-negative in arrival, less than 3 s off the system clock, and telescope |
| AbsSendTime.DecodesToTime | rtp_utils.cc:57-85 | a time below 2^46 microseconds decodes to itself modulo 64 s, never late and at most 4 microseconds early |
| AbsSendTime.RecoversDelta | rtp_headers.h:110-124 | differences of up to 31.999996 s are recovered to less than 5 microseconds, across the wrap and in both directions |
| AbsSendTime.TooFarApart | rtp_headers.h:117-124 | one microsecond further the sign can be wrong |
| AbsSendTime.ValidateRtpHeader | rtp_utils.cc:201-251 | accepts exactly the headers that lie within the packet and gives their length |
| AbsSendTime.RewriteIsLocal | rtp_utils.cc:255-368 | at most three bytes change, all inside the extension block |
| AbsSendTime.RewriteReadsBack | rtp_utils.cc:255-368 | the rewritten header is valid, the element is found where it was, and it holds the send time |
| ExtensionLists.PacketCarries | rtp_utils.cc:255-291 | a packet put together from a fixed header, sources, form, length, block and payload is valid, and its block is found |
| ExtensionLists.FindsFirst | rtp_utils.cc:334-364 | in every packet with a list of elements, in one-byte or two-byte form and with zero padding behind them, the first element with the id is found by the position and length of its data, or it is missing |
| ExtensionLists.RewriteReplaces | rtp_utils.cc:255-368 | rewriting such a packet replaces the data of that element by the send time, if it has three bytes, and nothing else |
| AbsSendTime.UpdateValue | rtp_utils.cc:57-85 | writes the three bytes in place, for an element of that length only |
| AbsSendTime.FindElement | rtp_utils.cc:343-364 | the nested loops find the first element with the id, or report a broken or missing one |
| AbsSendTime.UpdateRtpAbsSendTimeExtension | rtp_utils.cc:255-368 | rewrites the packet in place as specified; true iff there is no extension or the element is found |
| UrlCodec.DecodeEncode | libhttp/http_utils.cpp:604-789 | decoding undoes encoding for every byte string |
| UrlCodec.EncodedIsSafe | libhttp/http_utils.cpp:619-720 | an encoded string has only plain characters, plus signs and complete escapes |
| UrlCodec.FixedIffLiteral | libhttp/http_utils.cpp:730-789 | a string decodes to itself iff it has no plus sign and no escape |
| UrlCodec.CharToHex | libhttp/http_utils.cpp:604-618 | the two hexadecimal digits whose value is the byte |
| UrlCodec.UrlEncode | libhttp/http_utils.cpp:619-720 | the loop's result decodes to its input |
| UrlCodec.NeedUrlDecoding | libhttp/http_utils.cpp:721-729 | holds iff there is a plus or percent sign |
| UrlCodec.UrlDecode | libhttp/http_utils.cpp:730-789 | the loop's result is the decoding, and the input of every encoding |
| UrlCodec.HttpRequest.SetPath | libhttp/http_request.cpp:246-256 | stores the decoded path on either branch |

## Where the code and its description disagree

- The demultiplexer's interface promises that a second sink for a bare RSID is refused; the code accepts it
  (`DemuxerTables.DuplicateRsidAccepted`).
- The missing-packet window is lost on one kind of jump (`MissingPackets.WindowKept`, `MissingPackets.WindowLost`).
- A clear can cut a partly received frame, after which its remaining packets are marked wrongly
  (`FrameRuns.ClearedSettled`, `FrameRuns.ClearCanCut`).
- RFC 4571 lengths go up to 65535; the session reads them as signed 16-bit numbers (`Deframing.StepsOverPacket`,
  `Deframing.LoopStandsStill`).
- Retries of waiting VP8 frames go on "until none is handed off", which can still leave one that could be
  (`Vp8Machine.RetriesCanMiss`).
- A message buffer built for fewer than eight bytes breaks when it is emptied (`MsgBuffers.EmptiedFits`).
- A chunk length above 1 MiB is noted as an error, but the state is overwritten and the chunk is read
  (`HttpBody.ChunkLenRefusedIff`, `HttpBody.OversizedChunkRead`).

## Left out

- PacketBuffers.PacketBuffer.InsertPacket: the largest ring size is at most 32768 and one kind of codec is stored; for a codec with flags the marks must be right, which only a clear that cuts a frame can change.
- BufferRuns.Run: ends at a clear that cuts a partly received frame; what the buffer does after such a clear is not stated.
- SeqNumFinder.Run: soundness and the fixpoint are promised while the live numbers lie within half the number space less 100, because the age limits reach 100 back; the accounting and the equality with the machine hold of every run.
- PaddedStream.PaddingDelivers: padding arrives in order, and a frame with the padding in front of it spans at most 22000 numbers, since numbers are compared within half the number space.
- Vp8Stream.StreamDelivered: frames arrive in order, and a frame depends on frames at most 16000 pictures back, since picture ids are compared within half their range.
- Vp8Machine.RetriedDry: that no waiting frame could be handed off after a retry is false of the code (`Vp8Machine.RetriesCanMiss`); `Vp8Machine.NoneDeliverable` says when it holds, in this direction only.
- Vp8Finder.Run: picture ids are compared in 15 bits; that two frames 2^15 apart are different frames is not stated.
- HttpParsers.HttpParser.Parse: the header state is not modelled.
- HttpParsers.HttpParser.ParseChunkLen: a negative length, for which the code asks for a packet of negative size, is read as an empty packet, and adding 2 does not wrap around.
- HttpParsers.ReadChunks: chunks have 1 to 2147483645 bytes and length lines, with their extensions, at most 31 bytes.
- HttpParsers.ReadMessage: the same; a message has no trailer lines, the first of which the code takes for the empty line.
- Deframing.Run: no length field with its top bit set is reached, and a read with what is carried over fits 8 MiB.
- Deframing.Session.OnRead: no length field with its top bit set is reached, since the loop may then stand still; the bytes the socket gives are a parameter; what becomes of each packet is not modelled.
- MsgBuffers.MsgBuffer.AppendInt: stands for the 8-, 16-, 32- and 64-bit operations, with the width as a parameter; aliasing of the copied range is not modelled.
- AmfWriter.WriteNamed: null, undefined, date, object and array writers have their encoding in the model but no method; null positions are not passed to the named writers.
- AmfReader.ReadItem: items are values returned and not memory written through pointers; an item without memory for its value is not modelled.
- InterArrival.InterArrivalDelta.ComputeDeltas: times are finite, and the difference of two 32-bit sizes does not overflow.
- AbsSendTime.UpdateRtpAbsSendTimeExtension: the authentication tag that follows is not modelled.
- The VP9 reference finder: its up-switch loop lowers the number of references without moving entries.
- The VP8 and VP9 branches of the finder's dispatch, which are not compiled, and the clearing of those finders through it.
- The demultiplexer's debug checks on criteria, and the notification of sinks.
- HTTP header lines, versions and status codes, the loop that calls the parser, and the next message after one has ended.
- Sockets, threads, timers, logging, encryption, rendering, codec libraries, SDP, floating-point estimators and the MPEG and FLV demultiplexers.
