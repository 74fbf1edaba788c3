# Verification model of libobs

This project models the small stateful algorithms at the heart of libobs, the OBS core library, and
proves what they promise over whole runs. It is written in Dafny 4.11; verify it with
`dafny verify dfyconfig.toml`. Each part has a specification (datatypes, transition functions and the
theorems about them) and an object or method that works the way the C code does: buffers spliced in
place, pointers relinked, counters moved, loops with early exits. The object's methods are proved equal
to the specification's steps, so every theorem about runs is a theorem about the methods.

## Parts

**Packet interleaver** (`CDivision`, `Interleaver`, `InterleaverBuffer`, `InterleaverRuns`,
`InterleaverConservation`, `InterleaverStart`, `InterleaverKeyframe`, `InterleaverLateTrack`,
`InterleaverOrder`, `InterleaverGate`, `InterleaverArrivals`, `InterleavedOutput`). Packets of one video
and several audio encoders are merged in one sorted buffer, pruned at the start, rebased by truncating division and let
through a gate. For any packets and any number of tracks none is lost or repeated, and it is fixed which
are freed and when the output starts; if each encoder keeps its own order none is overtaken within its
stream. With one audio track the gate opens when a later packet of the other kind is there and stays shut
when all are earlier, and the output is in time order, although the rebase can push a highest time stamp
one microsecond too far: the strict comparison of the gate absorbs exactly that.

**Encoders** (`EncoderClock`, `EncoderAudio`, `EncoderObject`). How packets are stamped with system
time, how audio is started in step with video, and how it is cut into codec frames. The stamps satisfy
what the interleaver needs, which gives one statement from the encoders to the output. The theorems on
frames hold for every input on which the source does not subtract below zero; that set is given exactly,
in terms of time stamps and block lengths, and contains all audio without gaps.

**Key name map** (`NameTrie`, `NameTable`, `NameMapObject`). A radix trie on heap nodes whose edges are
split in place and whose leaves come from a fixed pool. It answers as the chain of strcmp calls does. A
name inserted twice takes the new value except when a longer name extends it; the code does not do more,
and the condition is exact.

**Settings** (`DataItem`, `DataTree`, `DataJson`, `JsonOrder`, `DataStore`). One item packs up to three
values into one allocation, shifted by overlapping moves; getters find a value through the layout alone.
Items form a list sorted by name that is mapped to JSON and back, whatever order the members of a JSON
object are read in, and applied to other objects.

**H.264 byte streams** (`AvcStartCode`, `AvcStream`, `AvcRewriter`). The four-bytes-at-a-time search
for start codes, and the rewriting from start codes (Annex B of ITU-T H.264) to length prefixes.

**References** (`RefCounts`). Strong and weak references as interleaved atomic steps of any number of
threads, with the upgrade split into its load and its compare-and-swap, and with lookups in the object
list, which upgrade under the list's mutex without holding any reference. This part is a state machine
only: its subject is the interleaving, not a single caller.

**Audio ticks** (`AudioTicks`, `AudioDeepening`, `AudioCore`). The queue of output windows is deepened
when a source is behind. The windows handed out are the input windows in order, whatever was inserted
before them; a call waits exactly when a source is a frame late or more, and the depth reached is right up
to one sample although two divisions round.

**Scenes** (`SceneOrder`, `SceneList`, `SceneVisibility`, `SceneItemAudio`). The doubly linked list of
items with its moves and the reordering from an array, and the visibility of an item: at once for the
user, on the right frame for the sound, with references that keep the source active just long enough.

**Stream delay** (`StreamDelay`, `DelayedOutput`). A queue of packets and start/stop messages that
leaves its entries when they are older than the delay.

**Hotkeys** (`Hotkeys`, `HotkeyRounds`, `HotkeyPairs`, `HotkeyObject`, `HotkeySave`). When a binding is
pressed and released, press counters, the calls that hotkeys receive, pairs of which one side is in effect,
and the saved form of bindings.

**Shader constants** (`ConstantBuffer`, `ShaderUpload`, `ShaderObject`). The register layout of a
constant buffer and the upload that is skipped when nothing has changed.

`Octets`, `Keys`, `Sequences` and `Wrappers` hold what several parts share.

## Where the code differs from what one might expect

- A Map that fails after the change marks have been cleared loses the change: the next call succeeds
  without uploading. `ShaderUpload.CurrentIffMapped` gives the exact condition, and
  `ShaderUpload.MapFailureLosesChange` a run in every shader that has a constant; the two errors thrown
  before Map clear marks as well but are harmless, because what makes them go away marks something.
- `prune_premature_packets` decides by the last audio track only. `Interleaver.PrematureAgreesIff` says
  when that differs from a test of every track, and `InterleaverLateTrack.LateTrackGoesUnnoticed` follows
  a run in which it does.
- The first video packet that is sent need not be a keyframe: a premature start can cut the keyframe away
  and leave later video (`InterleaverKeyframe.BeginsWithoutKeyframe`). `InterleaverKeyframe.PrematureIff`
  says exactly when a call does that; without such a cut it is a keyframe (`KeyframeFirst`).
- A source that is late by less than a frame adds no tick, so it is not waited for
  (`AudioDeepening.LessThanAFrame`, with the exact condition in `AudioDeepening.CallbackRight`).
- A binding with a key and modifiers is pressed when the modifiers fitted in the previous round as well,
  whether or not the key was down then (`HotkeyRounds.PressedAfterRounds`).
- `start_from_buffer` subtracts below zero when audio has a gap just where the video starts
  (`EncoderAudio.GapUnderflows`). `EncoderAudio.ReachesIff` gives the exact condition.
- The second minimum search in `calc_min_ts` starts from the first one's result, so marking sources as
  pending never changes the minimum (`AudioTicks.CalcMinTs`). `AudioTicks.FreshSearchAgreesIff` says when
  that matters, and `AudioTicks.ShortSourceHoldsBack` is an input on which it does.
- `set_visibility` ignores a failing add (`SceneVisibility.LostRegistration`); the scene's own callers
  never reach that branch (`SceneVisibility.RegisteredForCallers`).
- `load_binding` is meant to skip empty bindings, but its condition looks at a pointer and never holds.
  `HotkeySave.LoadsEmptyIff` says which objects become such bindings; they are never pressed
  (`Hotkeys.EmptyNeverPressed`).
- The `obs_hotkeys_load_` functions add bindings to those that are there (`HotkeySave.SaveAndAppend`).
- The age of an entry in the delay queue is an unsigned difference, so an entry stamped after the moment
  it is looked at leaves at once (`StreamDelay.AheadLeavesAtOnce`). Two threads can bring that about: one
  takes the time, the other queues a message, the first one pops it.
- `set_order_position` treats a negative position as one.

## Model

| member | source | states |
|---|---|---|
| InterleaverOrder.SentInOrder | libobs/obs-output.c:868-885 | With one audio track, in every run the packets handed to encoded_packet have non-decreasing dts_usec, and nothing still buffered is older than anything already sent; this is what the comment on the send gate claims. |
| InterleaverOrder.SendInOrder | libobs/obs-output.c:859-885 | A head that passes the gate is not above the newest packet of either stream: the strict comparison absorbs the microsecond that rebasing may add to a highest timestamp. |
| InterleaverOrder.RebaseWithinOne | libobs/obs-output.c:1092-1096 | Re-deriving the highest timestamps after the rebase keeps each within one microsecond of the newest packet of its stream. |
| InterleaverOrder.RebaseCanOvershoot | libobs/obs-internal.h:42-45 | That microsecond is real: two packets of one encoder whose distance grows by one when rebased with truncating division. |
| InterleaverOrder.Step1 | libobs/obs-output.c:1147-1198 | Every call of interleave_packets with one audio track keeps the ordering invariant (the sent list sorted, every buffered packet at or above it, the highest timestamps tied to the newest packets). |
| InterleaverOrder.Run1 | libobs/obs-output.c:1147-1198 | The ordering invariant holds in every state of every run with one audio track. |
| InterleaverGate.GateInRuns | libobs/obs-output.c:859-885 | With one audio track, every call of every run decides about the packet in front, video or audio: it leaves, and is handed on unless the output is stopped, if a packet of the other kind still in the output is more than a microsecond later, and stays if all of them are earlier. |
| InterleaverGate.HighestTells | libobs/obs-output.c:859-897 | Each highest timestamp is that of the newest packet of its kind, to within a microsecond in either direction, so the test on it tells whether a later packet is there. |
| InterleaverArrivals.GateExactInRuns | libobs/obs-output.c:859-897 | For packets of any kind and any number of tracks: once a run has started, every call sends the packet in front exactly if a packet of the other kind that has come since is later, or the highest timestamp of that kind was when the run started. |
| InterleaverStart.EveryCallStarts | libobs/obs-output.c:1147-1198 | For packets of any kind and any number of tracks: while a stream is missing nothing is freed; when all are there the buffer is cut, and the output starts exactly if every stream still has a packet behind the cut; a running output frees nothing. |
| InterleaverStart.PruneCuts | libobs/obs-output.c:906-1020 | The cut is just past the first packets of all streams when the last track is more than a video frame late, and otherwise at the first video packet or the audio packet nearest to it, whichever comes first. |
| InterleaverStart.RejectTurns | libobs/obs-output.c:1158-1165 | A video packet that is no keyframe and finds no video is freed with exactly the leading audio that is earlier. |
| InterleaverKeyframe.KeyframeFirst | libobs/obs-output.c:1158-1165 | If no call cuts the buffer as premature, the first video packet that is kept is a keyframe. |
| InterleaverKeyframe.PrematureIff | libobs/obs-output.c:935-976 | A call that does leaves a first video packet that is no keyframe exactly if the buffer has such a packet behind the first ones of all streams. |
| InterleaverKeyframe.BeginsWithoutKeyframe | libobs/obs-output.c:935-1198 | A run in which that happens: the output begins with the third packet of the video encoder. |
| InterleaverRuns.RunInv | libobs/obs-output.c:1147-1198 | For any number of tracks, each with its packets in dts order, every reachable state has a sorted buffer and, per stream, its input split into freed, sent and buffered packets in order, rebased exactly when both streams have been received. |
| InterleaverRuns.StepInv | libobs/obs-output.c:1147-1198 | One call of interleave_packets keeps that invariant in every branch. |
| InterleaverRuns.LosslessInOrder | libobs/obs-output.c:978-987 | When every encoder delivers its packets in dts order, each stream is a freed prefix followed by what is sent or buffered, in the order of arrival, shifted by the dts of its first kept packet. |
| InterleaverRuns.InvLossless | libobs/obs-output.c:1147-1198 | The per-stream bookkeeping of the invariant gives the exactly-once statement for each stream. |
| InterleaverConservation.EveryPacketOnce | libobs/obs-output.c:1147-1198 | For packets of any kind, in any order and with any time stamps, and any number of tracks: every packet that came in is freed, sent or buffered, exactly once; with the offset added back it is the packet that came in. |
| InterleaverConservation.RebasedIffStarted | libobs/obs-output.c:1147-1198 | In every state the offsets have been taken once if both received flags are set, and never otherwise; before that nothing has been sent, and after it every packet sent or buffered has the microseconds of its own dts. |
| InterleaverConservation.RunInv | libobs/obs-output.c:1147-1198 | For every input the invariant behind this holds in every state: sorted buffer, the multiset balance, and no buffered video while the video flag is clear. |
| InterleaverConservation.AllDelivered | libobs/obs-output.c:868-885 | An output that is not stopped hands everything that leaves the buffer to encoded_packet. |
| InterleaverConservation.OnlyAudioBeforeVideo | libobs/obs-output.c:1130-1145 | For every input: while no video has been kept the buffer holds audio only, so discarding the audio below a rejected video packet loses no video. |
| InterleaverConservation.FramesCounted | libobs/obs-output.c:868-885 | For every input total_frames is the number of video packets that went through the gate. |
| InterleaverRuns.StartedForGood | libobs/obs-output.c:1147-1198 | In every run, once both kinds are received after k packets, they stay received to its end, and from then on the offsets do not change and nothing is freed. |
| InterleaverRuns.StartSortsAndKeepsTracks | libobs/obs-output.c:1050-1128 | A successful initialization and resort leave a sorted permutation of the rebased packets in which every track keeps its order, has its pts-dts distance unchanged and starts at dts 0. |
| InterleaverRuns.StartInv | libobs/obs-output.c:1174-1198 | The start-up attempt either starts the output with offsets applied or leaves it waiting with a received flag cleared, and keeps the invariant both ways. |
| InterleaverRuns.InitializeKeeps | libobs/obs-output.c:1050-1099 | A successful initialization shifts every stream by the dts of its own first packet and nothing else. |
| InterleaverRuns.InitializeOffsets | libobs/obs-output.c:1066-1083 | The offset taken for a track is the dts of its first buffered packet. |
| InterleaverRuns.RebasedStreamSorted | libobs/obs-output.c:1085-1099 | Within one stream the rebased packets are still in dts order. |
| Interleaver.FirstIdxLeast | libobs/obs-output.c:1022-1040 | The index found is the least one of that stream; -1 means that there is none. |
| Interleaver.ClosestIsNearest | libobs/obs-output.c:906-933 | The audio packet chosen as starting point is nearest to the first video packet, and the first among equally near ones. |
| Interleaver.PrematureDropsAllFirsts | libobs/obs-output.c:935-976 | Pruning a premature start drops the first packet of every stream. |
| Interleaver.PrematureAgreesIff | libobs/obs-output.c:935-976 | Only the last track decides about a premature start: testing every track would give the same verdict exactly if the last track is late or no other one is. With one track the two always agree. |
| InterleaverLateTrack.LateTrackGoesUnnoticed | libobs/obs-output.c:935-976 | A run in which they differ: two tracks, the first a second late. The output starts, and the late packet is rebased to time zero beside the first video packet. |
| InterleaverLateTrack.LateTrackPassesTest | libobs/obs-output.c:952-975 | On the buffer which that run reaches the first track is late by fifty video frames, and the test asks for no pruning. |
| InterleaverBuffer.InsertSorted | libobs/obs-output.c:1101-1114 | Inserting keeps the buffer sorted by dts_usec. |
| InterleaverBuffer.InsertOf | libobs/obs-output.c:1101-1114 | A packet not older than its own stream lands behind all packets of its stream. |
| InterleaverBuffer.ResortKeeps | libobs/obs-output.c:1116-1128 | Resorting gives a sorted permutation that keeps the order inside every stream. |
| CDivision.QuotDifference | libobs/obs-internal.h:42-45 | Rounding a difference of time stamps and taking the difference of rounded ones agree up to one unit, for truncating division of either sign. |
| CDivision.QuotTruncates | libobs/obs-internal.h:42-45 | The quotient is truncated toward zero for both signs. |
| InterleavedOutput.Output.InterleavePackets | libobs/obs-output.c:1147-1198 | The method on the output object, with its in-place buffer and flags, performs exactly one step of the transition function that the run theorems are about. |
| InterleavedOutput.Output.SendInterleaved | libobs/obs-output.c:868-885 | Pops and delivers the front packet exactly if the opposing stream is strictly past it. |
| InterleavedOutput.Output.FindFirstPacketTypeIdx | libobs/obs-output.c:1022-1040 | The loop finds the first packet of a stream. |
| InterleavedOutput.Output.GetInterleavedStartIdx | libobs/obs-output.c:906-933 | The loop finds the nearest audio packet and gives the smaller of its index and the first video packet's. |
| InterleavedOutput.Output.PrunePrematurePackets | libobs/obs-output.c:935-976 | Gives the index to prune to, or -1 with the missing stream's flag cleared. |
| InterleavedOutput.Output.PruneInterleavedPackets | libobs/obs-output.c:991-1020 | Discards a premature start, or everything before the starting point. |
| InterleavedOutput.Output.InitializeInterleavedPackets | libobs/obs-output.c:1050-1099 | Fails without a change unless every track has a packet; otherwise takes the offsets, rebases the buffer and re-derives the highest timestamps. |
| InterleavedOutput.Output.InsertInterleavedPacket | libobs/obs-output.c:1101-1114 | Inserts behind all packets that are not later. |
| InterleavedOutput.Output.ResortInterleavedPackets | libobs/obs-output.c:1116-1128 | Rebuilds the buffer by insertion. |
| InterleavedOutput.Output.DiscardUnusedAudioPackets | libobs/obs-output.c:1130-1145 | Frees the leading packets strictly below the video packet. |
| EncoderClock.EncodedToSentInOrder | libobs/obs-encoder.c:800-811 | From the encoders to the wire: a video encoder and one audio encoder that each produce packets in dts order are stamped so that, however their packets interleave, the output hands them on in time order. |
| EncoderClock.StampedWellTimed | libobs/obs-encoder.c:800-811 | What do_encode stamps is what the interleaver relies on: per encoder one constant between dts_usec and the packet's own time, and no negative dts_usec. |
| EncoderClock.AudioKeepsTime | libobs/obs-encoder.c:998-1002 | An audio encoder is marked as having received data before it encodes, so its first dts is never subtracted. |
| EncoderClock.VideoNotBeforeStart | libobs/obs-encoder.c:803-811 | No video packet is stamped earlier than the encoder's start. |
| EncoderClock.VideoFromFirst | libobs/obs-encoder.c:800-811 | A video packet is stamped with the encoder's start plus the time passed since the first packet of the encoder. |
| EncoderClock.SameOffset | libobs/obs-encoder.c:803-806 | All packets of one encoder are stamped with the same offset. |
| EncoderAudio.ReceiveKeepsInv | libobs/obs-encoder.c:968-1014 | Every call keeps the planes in step, the frames full and numbered k*framesize, and frames sent plus leftover equal to the bytes kept; a call that sends leaves less than a frame. |
| EncoderAudio.KeptFrom | libobs/obs-encoder.c:914-966 | From any moment after the start to the end of the run, what is kept is what was kept then followed by every later block, whole, on every plane. |
| EncoderAudio.Run | libobs/obs-encoder.c:992-1014 | In every run the planes are in step, frame k has pts k*framesize and full size on every plane, and the frames sent plus what is left over are exactly the bytes kept. |
| EncoderAudio.GapFreePossible | libobs/obs-encoder.c:891-966 | Audio whose blocks begin where the one before ends, up to one nanosecond of rounding, satisfies the condition on the input of all these theorems, whatever video the encoder is paired with. |
| EncoderAudio.WindowsGapFree | libobs/media-io/audio-io.c:259-274 | Consecutive windows of the audio thread, from any of them on and at any rate, are such audio. |
| EncoderAudio.ReachesIff | libobs/obs-encoder.c:882-911 | That condition on the input is exact: after possible calls, the size left in start_from_buffer is not negative at the next call if and only if the calls with it are possible, which speaks of time stamps and block lengths only. |
| EncoderAudio.GapUnderflows | libobs/obs-encoder.c:882-911 | A gap makes the source subtract below zero: two blocks at 48 kHz, a tenth of a second apart, with the video starting in between. |
| EncoderAudio.KeptAtStart | libobs/obs-encoder.c:928-954 | What is kept at a paired start, in terms of the calls alone: the block that reaches the video's start without the samples before it, or everything brought earlier without those; in the second case the block of that call is skipped. |
| EncoderAudio.WaitingKeepsAll | libobs/obs-encoder.c:922-939 | Until a paired encoder starts it sends nothing and buffers everything it got. |
| EncoderAudio.EarlyIff | libobs/obs-encoder.c:922-939 | A block ends before the video starts exactly if its samples last less than a nanosecond longer than the time until then. |
| EncoderAudio.StartsInsideBlock | libobs/obs-encoder.c:928-949 | A truncating start drops strictly less than the block, and the first kept sample starts at the video's start or less than one sample before it. |
| EncoderAudio.StartsInsideBuffer | libobs/obs-encoder.c:891-911 | The same for a start from buffered audio that ends at most a nanosecond before the block; the size does not underflow there. |
| EncoderAudio.DrainedKeeps | libobs/obs-encoder.c:1007-1008 | The sending loop ends with less than a frame and loses nothing. |
| EncoderAudio.BufferedConserves | libobs/obs-encoder.c:914-966 | Each way of starting, and every later push, keeps the balance of kept and buffered bytes. |
| EncoderObject.AudioEncoder.ReceiveAudio | libobs/obs-encoder.c:992-1014 | The method on the circular buffers performs exactly the modelled step. |
| EncoderObject.AudioEncoder.BufferAudio | libobs/obs-encoder.c:914-966 | Decides between waiting, truncating, starting from the buffer (the current block is then skipped) and running, and reports success exactly if it does not wait. |
| EncoderObject.AudioEncoder.StartFromBuffer | libobs/obs-encoder.c:891-911 | Keeps of every plane what lies behind the offset. |
| EncoderObject.AudioEncoder.PushBackAudio | libobs/obs-encoder.c:870-880 | Appends to every plane what lies behind the offset. |
| EncoderObject.AudioEncoder.SendAudioData | libobs/obs-encoder.c:968-989 | Takes one frame from the front of every plane and numbers it. |
| NameTable.LookupIsScan | libobs/obs-hotkey-name-map.c:244-292 | After the table of distinct names has been inserted, the map answers every query as the chain of strcmp calls does. |
| NameTable.InsertAnswers | libobs/obs-hotkey-name-map.c:193-242 | Inserting any name into a built map leaves every other name's answer unchanged, and changes its own unless it was present and a longer inserted name extends it; the condition is exact. |
| NameTable.ShadowedIffExtended | libobs/obs-hotkey-name-map.c:193-242 | A name that is present cannot be overwritten exactly if some other present name has it as a proper prefix. |
| NameTable.RepeatedNames | libobs/obs-hotkey-name-map.c:193-242 | Both cases of a repeated name: behind a longer name "ab" keeps its first value, on its own it takes the second one. |
| NameTable.InsertTakesOneLeaf | libobs/obs-hotkey-name-map.c:107-118 | An insertion takes one leaf from the pool, or none when it overwrites a leaf. |
| NameTable.PoolSuffices | libobs/obs-hotkey-name-map.c:347-362 | The tree built from a table has at most one leaf per name. |
| NameTrie.GetInsert | libobs/obs-hotkey-name-map.c:143-233 | Inserting changes the answer for that name only, and for it unless the name is shadowed by a longer one. |
| NameTrie.InsertShaped | libobs/obs-hotkey-name-map.c:143-233 | Siblings keep distinct first characters and empty edges keep leading to leaves. |
| NameTrie.LookupStep | libobs/obs-hotkey-name-map.c:254-288 | What one edge tells the search: go on, give up, descend, or finish. |
| NameMapObject.NameMap.Insert | libobs/obs-hotkey-name-map.c:193-233 | The recursive insertion on shared heap nodes yields exactly the inserted tree, keeps the footprints apart and moves next_leaf by at most one. |
| NameMapObject.NameMap.InsertName | libobs/obs-hotkey-name-map.c:235-242 | Inserting at the root keeps the map valid and takes at most one leaf. |
| NameMapObject.NameMap.ReduceEdge | libobs/obs-hotkey-name-map.c:143-165 | Splits an edge in place where it leaves the key. |
| NameMapObject.NameMap.SplitLeaf | libobs/obs-hotkey-name-map.c:195-207 | A key that runs past a leaf moves the leaf below an empty edge. |
| NameMapObject.NameMap.ComparePrefix | libobs/obs-hotkey-name-map.c:174-191 | Classifies a key against an edge. |
| NameMapObject.NameMap.Lookup | libobs/obs-hotkey-name-map.c:244-292 | The search loop over nodes and edges computes the lookup in the tree. |
| NameMapObject.InitNameMap | libobs/obs-hotkey-name-map.c:347-362 | Builds the map of the whole table with next_leaf never passing num_leaves. |
| NameMapObject.KeyFromName | libobs/obs-hotkey-name-map.c:364-377 | The key found through the map is that of the strcmp chain, for every string. |
| DataItem.Item.SetData | libobs/obs-data.c:378-407 | Setting the user value changes that value and no byte of the other two, through reallocation and overlapping moves. |
| DataItem.Item.SetDefaultData | libobs/obs-data.c:409-439 | The same for the default value. |
| DataItem.Item.SetAutoselectData | libobs/obs-data.c:441-465 | The same for the autoselect value. |
| DataItem.Item.UnsetUserValue | libobs/obs-data.c:1379-1394 | Removing the user value keeps the other two. |
| DataItem.Item.UnsetDefaultValue | libobs/obs-data.c:1396-1411 | Removing the default keeps the other two. |
| DataItem.Item.Clear | libobs/obs-data.c:962-988 | Clearing drops the user value only. |
| DataItem.Item.GetItemData | libobs/obs-data.c:91-101 | The pointer computed from the layout alone is that of the user value, else the default, else the autoselect value. |
| DataItem.Item.GetItemDefaultData | libobs/obs-data.c:103-111 | The default value is found behind the user value. |
| DataItem.Item.GetItemAutoselectData | libobs/obs-data.c:113-121 | The autoselect value is found behind both. |
| DataItem.Item.EnsureCapacity | libobs/obs-data.c:341-355 | Growing keeps every old byte and makes the total size fit. |
| DataItem.Item.constructor | libobs/obs-data.c:261-298 | A new item stands for its user value only. |
| DataItem.LayoutKept | libobs/obs-data.c:378-465 | Every setter keeps the rule by which the getters tell which sections are present, and leaves alone the lengths it need not change. |
| DataItem.AlignSizeRoundsUp | libobs/obs-data.c:67-71 | The aligned size is the multiple of the alignment from the size up to, and not including, the size plus the alignment; zero stays zero. |
| JsonOrder.SaveLoad | libobs/obs-data.c:472-617 | For every tree of strings, numbers, booleans, objects and arrays of objects, converting to JSON and back gives exactly the user-valued part, whatever order the objects of the JSON tree, at any depth, have their members read in. |
| JsonOrder.SameVal | libobs/obs-data.c:472-532 | Two JSON trees that differ in the order of members only, in objects at any depth and inside arrays, become the same value. |
| JsonOrder.SavedSame | libobs/obs-data.c:534-617 | What is saved has no key twice at any depth, so every reordering of it is covered. |
| DataJson.ApplyFind | libobs/obs-data.c:913-950 | Applying one object to another overwrites exactly the names the source has user values for, with deep copies. |
| DataJson.ApplyIdempotent | libobs/obs-data.c:937-950 | Applying twice is applying once. |
| DataJson.ApplySorted | libobs/obs-data.c:937-950 | Applying keeps the list sorted by name. |
| DataJson.CopyIsUserPart | libobs/obs-data.c:878-911 | A deep copy is the user-valued part of the copied value. |
| DataJson.UserItemsFind | libobs/obs-data.c:472-532 | What is saved of an object answers for exactly the names that have a user value. |
| JsonOrder.SaveLoadArray | libobs/obs-data.c:492-513 | Arrays of objects come back element by element, again in whatever order the members are read. |
| DataTree.SetUserFind | libobs/obs-data.c:824-839 | Setting a user value changes the answer for that name and no other. |
| DataTree.SetUserSorted | libobs/obs-data.c:779-822 | Setting a value keeps the list strictly sorted by name. |
| DataTree.SortedUnique | libobs/obs-data.c:779-822 | Two sorted lists that answer alike are the same list. |
| DataStore.Store.InsertItem | libobs/obs-data.c:779-822 | The loop with its two cursors inserts the item at its sorted place. |
| DataStore.Store.SetUserValue | libobs/obs-data.c:824-839 | Setting a value in place is the modelled update and keeps the list sorted. |
| DataStore.Store.GetItem | libobs/obs-data.c:763-777 | Finds the first item of a name. |
| AvcStream.StreamRoundTrip | libobs/obs-avc.c:105-133 | For every list of non-empty units without 00 00 01 and without a trailing zero, framed with any mix of three- and four-byte start codes, the length-prefixed form holds exactly these units and reading the lengths back recovers them. |
| AvcStream.NalsOfFrame | libobs/obs-avc.c:105-133 | Splitting the framed stream at its start codes yields exactly the units. |
| AvcStream.ReadBackEmit | libobs/obs-avc.c:120-131 | The four-byte lengths delimit the units again, whatever bytes they hold. |
| AvcStream.BigEndianRoundTrip | libobs/obs-avc.c:128-128 | A number that fits in k bytes survives being written and read in big-endian order. |
| AvcStartCode.ZeroMaskAt | libobs/obs-avc.c:57-62 | The mask of a word is non-zero exactly if one of its four bytes is zero. |
| AvcStartCode.ZeroMaskDetects | libobs/obs-avc.c:57-62 | The same on four separate bytes: no carry produces a false or a missing hit. |
| AvcStartCode.CodeIs | libobs/obs-avc.c:50-86 | A position with a start code and none before it is the answer, so the two conditions fix the result. |
| AvcStartCode.FindStartcodeInternal | libobs/obs-avc.c:50-86 | The unrolled word search returns, for every buffer, length and alignment, the first 00 00 01 before end-3, else the end, and reads inside the buffer only. |
| AvcRewriter.FindStartcode | libobs/obs-avc.c:88-93 | Backs up over one zero so that four-byte start codes are found whole. |
| AvcRewriter.StartIs | libobs/obs-avc.c:88-93 | The search ends at the first start code that has a byte behind it, one byte earlier when that byte is a zero, and else at the end of the data. |
| AvcRewriter.SerializeAvcData | libobs/obs-avc.c:105-133 | The loop writes exactly the length-prefixed units of its input, and sets keyframe and priority as the last slices say. |
| AvcRewriter.AvcKeyframe | libobs/obs-avc.c:22-45 | Finds whether the first slice is an IDR slice. |
| AvcRewriter.KeyframeTestsAgree | libobs/obs-avc.c:22-133 | The two keyframe tests agree exactly if the first and the last slice have the same type, or, without a slice, if the flag was clear before; in particular when all slices share one type. |
| AvcRewriter.ParseAvcPacket | libobs/obs-avc.c:135-150 | The rewritten packet, its flag and its drop priority. |
| AvcRewriter.GetSpsPps | libobs/obs-avc.c:160-188 | The last parameter sets of the stream. |
| AvcRewriter.ParseAvcHeader | libobs/obs-avc.c:190-223 | Builds the decoder configuration record, or copies data that has none. |
| AvcRewriter.RecordRoundTrip | libobs/obs-avc.c:203-219 | The parameter sets can be read back from the record. |
| AvcRewriter.RecordBegins | libobs/obs-avc.c:203-210 | The record begins with the version, three bytes of the parameter set and the two fixed bytes. |
| AvcRewriter.HeaderOfFrame | libobs/obs-avc.c:160-223 | For a framed list of clean units the header is the record of the last parameter sets, from which they are read back, and nothing when one of them is missing. |
| AvcRewriter.HeaderCopies | libobs/obs-avc.c:152-158 | Data that does not begin with a start code is its own header. |
| AvcRewriter.LastSliceDecides | libobs/obs-avc.c:118-126 | The flag and the priority are those of the last slice: type five, and the upper three bits. |
| AvcRewriter.DropPriorityRounds | libobs/obs-avc.c:95-103 | The drop priority is the least of the three that is not below the packet's own. |
| RefCounts.RunInv | libobs/obs-internal.h:424-460 | In every interleaving of atomic steps, those of lookups in the object list included, the counters equal the references held plus the steps under way. |
| RefCounts.StepInv | libobs/obs-internal.h:424-460 | Each atomic step keeps that balance. |
| RefCounts.AtMostOnce | libobs/obs-output.c:1666-1696 | The object is destroyed at most once and the control block freed at most once. |
| RefCounts.NothingLeaks | libobs/obs-output.c:1666-1696 | When no thread holds anything and none is under way, object and control block are gone, each exactly once. |
| RefCounts.DeadForGood | libobs/obs-internal.h:429-460 | Once the counter is -1 no step changes it. |
| RefCounts.ControlAlive | libobs/obs-output.c:1666-1696 | No step touches the control block after it has been freed or while a thread is about to, neither those of holders nor a lookup under the list mutex by a thread that holds nothing. |
| RefCounts.ListedAlive | libobs/obs.c:1250-1269 | An object on the list is not destroyed and still has its weak reference; while a thread walks the list, no other thread can take it off. |
| RefCounts.OrderMatters | libobs/obs-output.c:1672-1677 | Dropping the weak reference before taking the object off the list would let such a lookup load from a freed control block: a reachable state in which it could. |
| RefCounts.ObjectAlive | libobs/obs-internal.h:429-437 | The object exists while anyone holds a strong reference. |
| RefCounts.UpgradeOnlyAlive | libobs/obs-internal.h:449-460 | An upgrade, by a holder or by a lookup under the list mutex, succeeds exactly if the counter still is what was loaded, and then the object is alive; it gives up only when the object is dead. |
| RefCounts.UndisturbedUpgrade | libobs/obs-internal.h:449-460 | A load and a compare-and-swap with nothing in between end the upgrade: with one more reference on a live object, without one on a dead object. |
| RefCounts.UpgradeAcross | libobs/obs-internal.h:449-460 | With any steps of other threads in between: it gains a reference exactly if the object was alive at the load and the counter is the same now, tries again exactly if it was alive and the counter has changed, and gives up exactly if it was dead. |
| RefCounts.NeverStuck | libobs/obs-internal.h:424-460 | Every thread under way may take its next step, but for the mutex that another one holds, and what a thread holds it may use. |
| AudioTicks.DeliveredInOrder | libobs/obs-audio.c:356-474 | In every run the successful callbacks hand out exactly the starts of the first input windows, in order; missing are at most 45, one for every failed callback. |
| AudioTicks.QueueContiguousInRuns | libobs/obs-audio.c:218-281 | In every run whose input windows abut, the whole queue abuts, from the first tick waited for to the last input, and is as long as total_buffering_ticks. |
| AudioTicks.QueueContiguous | libobs/obs-audio.c:263-281 | The ticks waited for abut and the last ends where the oldest input starts. |
| AudioTicks.InputWindowsAbut | libobs/media-io/audio-io.c:259-274 | The windows of the audio thread abut from its start on, and each begins in the nanosecond in which its first sample does. |
| AudioTicks.CallbackKeepsInv | libobs/obs-audio.c:356-474 | Every callback keeps length, cap and anchor of the queue. |
| AudioTicks.CallbackTakesOldest | libobs/obs-audio.c:465-473 | A callback succeeds exactly when it takes the oldest input window, and then reports its start. |
| AudioDeepening.CallbackRight | libobs/obs-audio.c:218-281 | What a callback does, by its outcome: with no source late it reports the front and succeeds exactly if no tick is waited for; otherwise, unless the cap cuts, the front it reports is within a frame and a nanosecond of every source that counts and not much earlier than the earliest, and it waits if that one is a frame late or more; when the cap cuts, exactly the ticks that are left are added. |
| AudioDeepening.EveryCallRight | libobs/obs-audio.c:356-474 | Every call of every run does that. |
| AudioDeepening.LessThanAFrame | libobs/obs-audio.c:234-280 | A source that is late by less than a frame is not waited for: an input on which the callback succeeds at once. |
| AudioTicks.DeepenReachesMin | libobs/obs-audio.c:234-280 | Unless the cap cuts ticks off, deepening puts the front less than one frame and one nanosecond after the earliest source and less than 1023 frames and one nanosecond before it, for every rate, offset and number of ticks already waited for. |
| AudioTicks.TicksSpanOffset | libobs/obs-audio.c:234-272 | The two floor divisions lose less than one frame and one nanosecond together. |
| AudioTicks.CalcMinTs | libobs/obs-audio.c:314-348 | The second search does not start afresh, so sources just found short of samples still hold the time back: the result is the minimum over the sources as they came. |
| AudioTicks.FreshSearchAgreesIff | libobs/obs-audio.c:314-348 | A second search that did start afresh would give the same time exactly if some source that is not short is as early, or none is earlier than the tick. |
| AudioTicks.ShortSourceHoldsBack | libobs/obs-audio.c:314-348 | An input on which it would not: one source without samples, half a window behind. |
| AudioTicks.MarkInvalidSources | libobs/obs-audio.c:283-340 | Exactly the sources without enough samples become pending. |
| AudioTicks.InsufficientIff | libobs/obs-audio.c:283-312 | A source lacks samples exactly if those it has end before the tick does, in samples and nanoseconds, also when it begins after the tick. |
| AudioTicks.FindMinTs | libobs/obs-audio.c:314-325 | The earliest time stamp among the given one and the sources that count. |
| AudioCore.Audio.AudioCallback | libobs/obs-audio.c:356-474 | The method on the in-place queue performs exactly one modelled callback, and does what is said above about late sources. |
| AudioCore.Audio.AddAudioBuffering | libobs/obs-audio.c:218-281 | Deepens the queue as modelled; the window given back is the new front whenever a tick was added. |
| AudioCore.Audio.PushTicks | libobs/obs-audio.c:263-278 | The loop pushes one window in front for every tick. |
| AudioCore.StartPointInside | libobs/obs-audio.c:51-59 | Inside a window of the audio thread a source always starts within its 1024 frames, so the test for frame 1024 never holds there. |
| AudioCore.MixAudio | libobs/obs-audio.c:46-79 | The source's samples are added from the frame of its time stamp on and nowhere else. |
| SceneList.Scene.Detach | libobs/obs-scene.c:188-199 | Unlinks one item and keeps all other links consistent in both directions. |
| SceneList.Scene.Attach | libobs/obs-scene.c:201-218 | Links an item behind another, or in front of all. |
| SceneList.Scene.SetOrder | libobs/obs-scene.c:1263-1304 | The list afterwards is the old one with the item swapped with its upper or lower neighbour, or put behind or in front of all the others, and prev and next agree with it. |
| SceneList.Scene.SetOrderPosition | libobs/obs-scene.c:1306-1336 | The item ends at min(position, n-1), a negative position counting as one, and the others keep their order. |
| SceneList.Scene.SceneitemsMatch | libobs/obs-scene.c:1498-1525 | The nested loops say yes exactly for a permutation of the items, and that the order matches exactly if it is the current one. |
| SceneList.Scene.ReorderItems | libobs/obs-scene.c:1527-1562 | Relinks exactly if the array is a permutation different from the current order, and then the list is that array. |
| SceneList.Scene.Relink | libobs/obs-scene.c:1543-1553 | Rewrites all links to the given order. |
| SceneOrder.Pigeonhole | libobs/obs-scene.c:1498-1525 | Why the one-way scan and the count suffice: a duplicate-free list all of whose items occur in an array of its length is a permutation of it. |
| SceneOrder.MovedKeepsOthers | libobs/obs-scene.c:1263-1336 | A move places the item and keeps the order of all others. |
| SceneOrder.MovementRearranges | libobs/obs-scene.c:1263-1304 | Up and down swap the item with its neighbour if there is one, to the top and to the bottom put it behind and in front of all the others, whose order stays. |
| SceneOrder.StepSwaps | libobs/obs-scene.c:1276-1280 | A step between neighbours swaps the two and leaves every other item alone. |
| SceneOrder.PositionPlaces | libobs/obs-scene.c:1306-1336 | The item stands at min(position, n-1), a negative position counting as one, and the others are as they were. |
| SceneOrder.MoveBack | libobs/obs-scene.c:1263-1336 | Moving back undoes a move. |
| SceneVisibility.RunInv | libobs/obs-scene.c:409-629 | In every run active_refs is one for what is heard now plus one per pending show, the pending actions alternate and end at what the user sees, and registrations follow the references except for failed adds in set_visibility. |
| SceneVisibility.RegisteredIff | libobs/obs-scene.c:409-428 | The source is an active child exactly while referenced, if and only if no add inside set_visibility has failed; with nothing pending, visible equals user_visible. |
| SceneVisibility.RegisteredForCallers | libobs/obs-scene.c:409-462 | If set_visibility shows only what nothing has hidden yet, as the loader does with an item it has just added, the source is an active child exactly while it is visible or a show is pending. |
| SceneVisibility.LoaderShowsReferenced | libobs/obs-scene.c:430-462 | That rule on the sequence of calls makes every such call find the item referenced. |
| SceneVisibility.LostRegistration | libobs/obs-scene.c:415-423 | A failing add inside set_visibility leaves the item referenced but unregistered. |
| SceneVisibility.SetVisibleKeepsInv | libobs/obs-scene.c:1450-1496 | Showing or hiding keeps the invariant, also when adding the source fails. |
| SceneVisibility.SetVisibleRight | libobs/obs-scene.c:1450-1496 | Nothing changes if the user sees that already or an unreferenced source cannot be added; otherwise the user sees it at once, and the sound follows with an action of that time, or at once when the item has no audio. |
| SceneVisibility.RenderKeepsInv | libobs/obs-scene.c:548-629 | Taking the due actions and releasing the hidden ones keeps the invariant. |
| SceneVisibility.RenderTakes | libobs/obs-scene.c:548-629 | A window takes exactly the pending actions up to the first one due behind its last frame, provided that the first one is due before its end in whole nanoseconds, and what is heard then is what the last of them says. |
| SceneVisibility.SoundAt | libobs/obs-scene.c:563-592 | On every frame the sound follows the last action due before the frame ends. |
| SceneItemAudio.SceneItem.RenderAudio | libobs/obs-scene.c:603-629 | Performs the modelled render step; when it applies, every frame of the gate is the state after all actions up to that frame. |
| SceneItemAudio.SceneItem.ApplyAudioActions | libobs/obs-scene.c:548-601 | Fills the gate, takes the due actions and releases one reference per hide. |
| SceneItemAudio.SceneItem.TakeActions | libobs/obs-scene.c:563-588 | The loop over the pending actions stops at the first one past the window. |
| SceneItemAudio.SceneItem.ReleaseHidden | libobs/obs-scene.c:595-600 | Drops the references and unregisters the source when they reach zero. |
| SceneItemAudio.SceneItem.SetVisible | libobs/obs-scene.c:1450-1496 | Changes nothing and reports false if the state is the same or the source cannot be added; otherwise the user sees the new state at once. |
| SceneItemAudio.SceneItem.SetVisibility | libobs/obs-scene.c:409-428 | Drops pending actions and switches at once. |
| SceneItemAudio.SceneItem.constructor | libobs/obs-scene.c:1042-1094 | A new item is referenced once, with its show pending if it has audio. |
| StreamDelay.FirstInFirstOut | libobs/obs-output-delay.c:21-112 | In every run the entries handled, followed by those waiting, are exactly the entries pushed, in order: nothing lost, repeated or overtaken. |
| StreamDelay.AllHandledRight | libobs/obs-output-delay.c:35-104 | The unsigned age of a popped entry exceeds the delay; its true age does exactly if the entry is not stamped after the moment it is popped at. A packet is forwarded or freed, and a cleanup only frees. |
| StreamDelay.PopHandles | libobs/obs-output-delay.c:35-104 | In any run an attempt handles the oldest entry exactly if it is old enough and the queue is not held back, and a packet is forwarded exactly while the delay is active and capturing. |
| StreamDelay.ReactionsRight | libobs/obs-output-delay.c:54-67 | A cleanup frees everything that waits, pops nothing and leaves no delay; without one the queue stays as it is. |
| StreamDelay.PoppedOld | libobs/obs-output-delay.c:69-104 | With a clock that is not set back, every popped entry was strictly older than the delay. |
| StreamDelay.AheadLeavesAtOnce | libobs/obs-output-delay.c:80-89 | An entry stamped after the moment of the pop leaves at once, whatever the delay. |
| StreamDelay.ProcessLeavesYoung | libobs/obs-output-delay.c:106-112 | process_delay ends with the queue held back or with entries no older than the delay only, whatever the code behind the messages does. |
| StreamDelay.QueueTimely | libobs/obs-output-delay.c:21-33 | With a clock that is not set back the queue is ordered by time. |
| StreamDelay.ProcessIsRun | libobs/obs-output-delay.c:106-112 | The loop is a run of the atomic steps, so what holds of all runs holds of it. |
| DelayedOutput.Output.ProcessDelay | libobs/obs-output-delay.c:106-112 | The method with its loop performs exactly the modelled run. |
| DelayedOutput.Output.PopPacket | libobs/obs-output-delay.c:69-104 | Pops exactly a due entry, or adjusts the delay while held. |
| DelayedOutput.Output.ProcessDelayData | libobs/obs-output-delay.c:35-52 | Forwards a packet only while the delay is active and capturing. |
| Hotkeys.RunInv | libobs/obs-hotkey.c:1115-1232 | In every run of polls, injected events, registrations, loads and reloads, a hotkey's counter is the number of its pressed bindings, and its function hears presses and releases in turn, a press first. |
| Hotkeys.AppliedKeepsInv | libobs/obs-hotkey.c:1130-1158 | The counter crosses zero exactly when the hotkey is told. |
| Hotkeys.RoundedKeepsInv | libobs/obs-hotkey.c:1160-1232 | A round over all bindings keeps that. |
| Hotkeys.ReloadedKeepsInv | libobs/obs-hotkey.c:628-659 | Reloading the bindings keeps that. |
| Hotkeys.AppendedKeepsInv | libobs/obs-hotkey.c:647-714 | So does loading bindings behind the ones that are there, which the obs_hotkeys_load functions do. |
| Hotkeys.EmptyNeverPressed | libobs/obs-hotkey.c:1160-1196 | A binding without modifiers and without a key is never pressed in any run. |
| HotkeyRounds.RoundsRight | libobs/obs-hotkey.c:1115-1232 | Flag by flag and key by key, for polls and injected events, strict and not: a released binding is pressed exactly if the event holds it down and may press, and a pressed one is released exactly if the event is heard and does not hold it down. |
| HotkeyRounds.FitsMatch | libobs/obs-hotkey.c:1115-1122 | The mask test is that of flags: every flag wanted is held, and with strict modifiers no other. |
| HotkeyRounds.PressedAfterRounds | libobs/obs-hotkey.c:1160-1196 | After any rounds: a binding with a key and modifiers is pressed exactly in a round in which the key is down and the modifiers fit, when they fitted already in the last round that it heard. |
| HotkeyRounds.ReleasedInRuns | libobs/obs-hotkey.c:1160-1196 | In every run a pressed binding is released by a poll exactly if its modifiers no longer fit or its key is up, and by an injected event exactly if the modifiers fit and the event is not its key's press. |
| HotkeyRounds.ControlShiftKey | libobs/obs-hotkey.c:1115-1196 | An example: a binding of control and a key is pressed while shift is held as well. |
| Hotkeys.ReloadReleases | libobs/obs-hotkey.c:907-919 | After a reload the hotkey is not held and has been told so. |
| HotkeyPairs.PairExclusive | libobs/obs-hotkey.c:253-281 | A side of a pair is in effect only while its hotkey is down, and never together with the other side. |
| HotkeyPairs.PairInRuns | libobs/obs-hotkey.c:253-281 | The same in every run, whatever the two functions answer: a side in effect has a pressed binding. |
| HotkeyPairs.HeardRight | libobs/obs-hotkey.c:253-281 | A side's key puts it in effect if the other one is not and the press is accepted, its release ends that, and nothing it does changes the other side. |
| HotkeyObject.HotkeyCore.HandleEvent | libobs/obs-hotkey.c:1221-1289 | A poll or an injected event, binding by binding, is the modelled round, and presses and releases every binding as said above. |
| HotkeyObject.HotkeyCore.HandleBinding | libobs/obs-hotkey.c:1160-1196 | Every branch of handle_binding, with its update of modifiers_match; pressed and released as said above. |
| HotkeyObject.HotkeyCore.PressReleasedBinding | libobs/obs-hotkey.c:1130-1143 | Counts up and tells the hotkey of the first press only. |
| HotkeyObject.HotkeyCore.ReleasePressedBinding | libobs/obs-hotkey.c:1145-1158 | Counts down and tells the hotkey of the last release only. |
| HotkeyObject.HotkeyCore.RemoveBindings | libobs/obs-hotkey.c:907-919 | Releases and erases the bindings of one hotkey, first to last. |
| HotkeyObject.HotkeyCore.LoadBindings | libobs/obs-hotkey.c:628-659 | Replaces the bindings of a known hotkey. |
| HotkeyObject.HotkeyCore.AppendBindings | libobs/obs-hotkey.c:614-624 | The loop appends one unpressed binding for every combination. |
| HotkeyObject.HotkeyCore.RegisterHotkey | libobs/obs-hotkey.c:102-139 | A new hotkey gets the next id, is not pressed, and gets the bindings that its context's saved data has for it. |
| HotkeyObject.HotkeyPair.FirstFunc | libobs/obs-hotkey.c:253-266 | The first side ignores its key while the second is in effect. |
| HotkeyObject.HotkeyPair.SecondFunc | libobs/obs-hotkey.c:268-281 | The second side ignores its key while the first is in effect. |
| HotkeySave.SaveAndReload | libobs/obs-hotkey.c:594-624 | Saving a hotkey and loading what was saved restores its bindings exactly if each uses only the stored modifiers and a named key, and never touches another hotkey's. |
| HotkeySave.SavedBindingsReturn | libobs/obs-hotkey.c:744-790 | The saved list survives its JSON form, in whatever order the members of the saved objects are read, and loading gives the same combinations back under that condition and no other. |
| HotkeySave.LoadSaved | libobs/obs-hotkey.c:575-612 | What comes back of one binding: the four stored modifiers, and the key if it has a name. |
| HotkeySave.KeyRoundTrip | libobs/obs-hotkey-name-map.c:328-377 | Key to name to key through the map is the identity on the table and OBS_KEY_NONE outside it. |
| HotkeySave.KeyNamed | libobs/obs-hotkey.c:756-790 | The key is saved by its name, the first one of the table included. |
| HotkeySave.SaveHotkey | libobs/obs-hotkey.c:756-790 | Writes one object per binding of the hotkey. |
| HotkeySave.LoadHotkey | libobs/obs-hotkey.c:594-624 | Reads every object; the test meant to skip bindings looks at a pointer that is never null. |
| HotkeySave.LoadsEmptyIff | libobs/obs-hotkey.c:594-612 | That test would have skipped exactly the objects that set none of the four flags and name no key; they become bindings to nothing, and no others do. |
| HotkeySave.EmptyObjectIsLoaded | libobs/obs-hotkey.c:594-624 | The empty object is one of them: loading it adds one binding to the hotkey, which is never pressed. |
| HotkeySave.SaveAndAppend | libobs/obs-hotkey.c:647-714 | Loading what was saved without removing what is there gives every binding twice, exactly if the bindings can be stored. |
| ShaderUpload.ValuesOnGpu | libobs-d3d11/d3d11-shader.cpp:125-257 | For every list of numeric, vector, matrix and texture parameters and every run, a successful call leaves each value's bytes on the GPU at its register position, in a buffer of the computed size, if no Map has failed since the last write. |
| ShaderUpload.CurrentOnSuccess | libobs-d3d11/d3d11-shader.cpp:232-257 | In every run a successful call leaves the GPU copy equal to the current values, uploaded or skipped, if no Map has failed since the last write. |
| ShaderUpload.CurrentIffMapped | libobs-d3d11/d3d11-shader.cpp:222-256 | After setting a constant to other bytes and calling twice, the second call succeeds and the GPU is current exactly if the first Map succeeded: a failed Map forgets the change. |
| ShaderUpload.MapFailureLosesChange | libobs-d3d11/d3d11-shader.cpp:222-256 | Every shader with a constant has a run that loses a change: after one upload, a new value and a failed Map, the next call succeeds without sending, and the GPU keeps the old values. |
| ShaderUpload.SuccessCurrentIff | libobs-d3d11/d3d11-shader.cpp:232-257 | A successful call leaves the copy current exactly if something was marked changed or the copy was current before. |
| ShaderUpload.OutcomeIff | libobs-d3d11/d3d11-shader.cpp:201-257 | Which way a call ends: some constant never set, or everything set and the buffer full, and then by whether anything is marked changed and the Map succeeds. |
| ShaderUpload.RunInv | libobs-d3d11/d3d11-shader.cpp:201-326 | With nothing marked changed, all values set and no failed Map, the GPU has the current values. |
| ShaderUpload.UploadKeepsInv | libobs-d3d11/d3d11-shader.cpp:201-257 | Every way out of UploadParams keeps that, also the two errors that clear flags before they throw. |
| ShaderUpload.SetKeepsInv | libobs-d3d11/d3d11-shader.cpp:311-326 | Setting a value marks it unless the bytes are the same. |
| ShaderUpload.BuiltInv | libobs-d3d11/d3d11-shader.cpp:125-178 | A new buffer with arbitrary contents is covered: everything set is still to be sent. |
| ConstantBuffer.StartIsFirstFit | libobs-d3d11/d3d11-shader.cpp:152-162 | A constant starts at the first position behind the others that obeys the register rule. |
| ConstantBuffer.SizeCounts | libobs-d3d11/d3d11-shader.cpp:125-150 | A value takes four bytes for each number it consists of. |
| ConstantBuffer.LayoutDisjoint | libobs-d3d11/d3d11-shader.cpp:125-162 | Positions increase and do not overlap, inside the buffer. |
| ConstantBuffer.LayoutFitsRegisters | libobs-d3d11/d3d11-shader.cpp:102-162 | No value of at most 16 bytes crosses a register and matrices start on one. |
| ConstantBuffer.AssembledLength | libobs-d3d11/d3d11-shader.cpp:232-243 | Values of their declared sizes fill the buffer exactly, so the size test passes. |
| ConstantBuffer.AssembledAt | libobs-d3d11/d3d11-shader.cpp:201-220 | The assembled bytes have every value at its position. |
| ShaderObject.GsShader.constructor | libobs-d3d11/d3d11-shader.cpp:125-178 | The loops lay the parameters out and set their defaults. |
| ShaderObject.GsShader.PlaceParams | libobs-d3d11/d3d11-shader.cpp:125-162 | The layout loop gives every constant its position and the buffer its size. |
| ShaderObject.GsShader.UpdateParam | libobs-d3d11/d3d11-shader.cpp:201-230 | Pads, appends, and takes the change mark over. |
| ShaderObject.GsShader.UpdateParams | libobs-d3d11/d3d11-shader.cpp:232-240 | The loop assembles the bytes up to the first constant never set. |
| ShaderObject.GsShader.UploadParams | libobs-d3d11/d3d11-shader.cpp:232-257 | Every outcome of the call and the state it leaves. |

## Left out

- InterleaverOrder.SentInOrder: one audio track. With more tracks `highest_audio_ts` is shared, and the
  order between audio tracks is not modelled; the order within each track is.
- AvcStream.StreamRoundTrip: units of 2^32 bytes and more, whose length does not fit its prefix.
- JsonOrder.SaveLoad: the JSON text and its parser; the round trip is between settings and JSON trees.
  Doubles are reals, so rounding in their text form is not modelled.
- DataItem.Item.SetData: values are byte strings; the references that object and array values hold, and
  default values of another type under the same name, are not modelled.
- DataStore.Store.SetUserValue: `set_item_def` and the autoselect setters on the list; on the single item
  they are modelled.
- NameMapObject.NameMap.InsertName: names of 256 bytes and more, whose length does not fit the one-byte
  prefix length, and the two ways of storing short and long prefixes.
- EncoderObject.AudioEncoder.BufferAudio: what the source does after it has subtracted below zero in
  `start_from_buffer`. The inputs that lead there are given exactly (`EncoderAudio.ReachesIff`); audio
  without gaps is not among them.
- EncoderObject.AudioEncoder.StampPacket: the codec itself. Packets are inputs of the step, and a failing
  codec, the extra data of the first video packet and the callbacks are not modelled.
- SceneList.Scene.SetOrderPosition: a position above one in a scene of one item, where the source reads
  through a null pointer.
- AudioCore.Audio.AddAudioBuffering: without a tick the end of the window given back is unset in the
  source; it is a parameter here and nothing is claimed about it.
- AudioCore.MixAudio: samples are reals and one plane is mixed; the loops over mixes and channels repeat it.
- StreamDelay.AllHandledRight: payloads. Packets are numbers, and what the code behind a message does is
  given by reactions that may change the flags or clean the queue up.
- HotkeyObject.HotkeyCore.HandleEvent: one keyboard state per poll, and no rerouting of hotkeys.
- Hotkeys.RunInv: unregistering a hotkey while one of its bindings is pressed, where the source erases the
  hotkey before it releases the binding; the pointers from bindings to hotkeys are ids here.
- RefCounts.RunInv: memory ordering weaker than interleaved atomic steps; other objects on the same list;
  an encoder whose destruction is put off until it stops.
- SceneItemAudio.SceneItem.RenderAudio: the three operations are atomic steps; the source releases the
  hidden references after it has unlocked the actions.
- ShaderObject.GsShader.UploadParams: the Direct3D calls are a success flag and a byte string; loading
  textures is not modelled.
- Integer widths: counters, sizes and time stamps are unbounded; wrap-around of 32- and 64-bit values is
  not modelled, except for the ages in the delay queue and the 32-bit words of the start code search.
- Reference counts of packets and the copying of their data, in the interleaver and the delay queue.
- discard_audio and what sources render: the sources are inputs of a callback.
- Graphics subsystems other than the constant buffer, the HLSL-to-GLSL writer, key tables and platform
  hotkeys, module loading, faders, properties, services, reconnect threads, profiling and logging.
