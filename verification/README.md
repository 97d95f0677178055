# Gossip-based reinforcement learning: verified model

A Dafny model of the algorithmic cores of the gossip_rl system and proofs about them.

- **Shared-memory ring** (`SharedRing`, `SharedRingMachine`, `SharedRingLimits`, `SharedRingWitnesses`):
  the single-producer/single-consumer ring as a class, and as a state machine in which every atomic
  load, copied word and store is a step of its own and a load of the other thread's counter may be
  stale. It refines a bounded FIFO queue; where that ends, at the 2^64-th push, is proved too.
- **Gradient compression** (`TopK`, `ResidualSharp`, `Quantization`): contraction, run bounds, exact
  conservation and optimality of top-k with error feedback; faithfulness and idempotence of
  quantisation.
- **Membership** (`Peers`, `ClaimOrder`, `Membership`, `MembershipTimers`, `MembershipConfirmations`,
  `MembershipNetwork`, `MembershipReopening`, `MembershipEffects`): the peer record, the manager with its timers and
  confirmation tasks, and any number of managers that exchange messages which may be lost,
  duplicated and reordered.
- **Wire formats** (`GossipWire`, `GossipLayout`, `GossipRepack`, `GradientSerialization`, `RpcResponseWire`, over
  `Bytes` and `Buffers`): gossip messages, serialized gradients with a back-patched offset table,
  RPC responses.
- **Buffer pool** (`BufferPool`), **gradient cache and aggregation** (`GradientCache`), **peer selection**
  (`PeerSelection`) and **pending RPC requests** (`RpcClient`).
- **Numerics** (`Clipping`, `Gae`, `SigmaSearch`, `NoiseMonotonicity`, over `Vectors`): L2 clipping, generalised advantage
  estimation, the search for the noise multiplier. Gradients are vectors of reals.

State-changing code is a class whose methods are proved against a specification function of the old
state; the theorems about runs are lemmas about those functions. Where the code breaks its own
promise, the model follows the code and proves when it keeps the promise:

- an exhausted buffer pool reads the back of an empty list, or asks for an impossible allocation if it
  started above max_count, where null is documented (`AcquireExact`);
- an empty RPC response arrives with a four-byte payload (`RecoversExactly`);
- a tensor with 256 or more dimensions cannot be read back (`ParseRecoversExactly`), and the
  `total_size` that a comment in `serialize_gradients` says is filled in later never is
  (`GradientHeaderRecovers`);
- a PING takes a record's incarnation back, as nothing else does while the peer stays in the table
  (`RecordFallsExactly`), so old suspicions take effect again (`PingReopensOldSuspicions`); an ACK never revives a suspected peer
  (`AckNeverRevives`); whether a record depends on the order of claims can be read
  off the claims (`ClaimOrder.OrderIndependentExactly`);
- a suspicion may be confirmed before its own timeout by a confirmation that is still running, or by
  an armed timer whose table entry such a confirmation deleted (`EarlyConfirmationExactly`);
- after a reported disconnect, `disconnect()` fails no pending call (`DisconnectFailsAllExactly`), so calls
  wait until a response comes (`LostCallIsStranded`, `StrandedStays`); a call that `disconnect()` catches
  between its connection check and its send dereferences a null connection (`SendDefinedExactly`);
- the cache entry depends on the order of delivery unless one entry is newest in both counters and no
  different one has the same, as may happen when a trainer restarts from a checkpoint
  (`GradientCache.OrderIndependentExactly`); cached peers are counted without contributing after `set_gradients`, and
  always when their dimension differs (`ReportRightExactly`);
- epsilon may rise with more noise, because `get_epsilon` drops orders (`MonotoneExactly`, `EpsilonJumps`);
- the ring is a FIFO queue up to its 2^64-th push (`RunIsFifoExactly`);
- `size()` of the ring read by a third thread may exceed the capacity (`ThirdPartySizeExactly`).

Random draws, tie-breaking of top-k, timer firings, probe timeouts, whether a callback raises, and what the
connection and the pool answer are parameters or nondeterministic choices; uninitialised struct fields are
arbitrary inputs.

## Model

| member | source | states |
|---|---|---|
| SharedRing.SharedRingBuffer.TryPush | cpp/include/rpc/buffer_pool.hpp:286-297 | Fails exactly when the queue is full; otherwise appends at the tail; says what the 2^64-th push does to the counter |
| SharedRing.SharedRingBuffer.TryPop | cpp/include/rpc/buffer_pool.hpp:303-314 | Fails exactly when the queue is empty; otherwise returns and removes the head |
| SharedRing.SharedRingBuffer.Size | cpp/include/rpc/buffer_pool.hpp:316-320 | The number of queued elements |
| SharedRing.SlotsDistinct | cpp/include/rpc/buffer_pool.hpp:293-310 | Two live positions of one window never share a slot |
| SharedRingMachine.StepKeepsShape | cpp/include/rpc/buffer_pool.hpp:286-320 | No load, word copy or store of either thread indexes outside the shared memory, whatever the counters hold |
| SharedRingMachine.StepKeepsInv | cpp/include/rpc/buffer_pool.hpp:286-320 | Every step of either thread, with stale loads of the other counter, keeps the ring invariant while counters have not wrapped |
| SharedRingMachine.CopiesNeverCollide | cpp/include/rpc/buffer_pool.hpp:292-310 | A push copy and a pop copy in progress work on different slots |
| SharedRingMachine.StepRefinesFifo | cpp/include/rpc/buffer_pool.hpp:286-314 | The two release stores perform the push and pop of a bounded FIFO queue; every other step is invisible to it |
| SharedRingMachine.RunRefinesFifo | cpp/include/rpc/buffer_pool.hpp:286-314 | The same for every step of every run with fewer than 2^64 pushes |
| SharedRingMachine.RunIsFifo | cpp/include/rpc/buffer_pool.hpp:286-320 | In every interleaving, what was pushed is what was popped followed by slots [read_pos, write_pos), and at most capacity elements are queued |
| SharedRingMachine.FailuresAreJustified | cpp/include/rpc/buffer_pool.hpp:289-307 | A push fails exactly when the ring was full in the view it loaded, a pop exactly when it was empty in its view; with a fresh view, exactly when it is full or empty now |
| SharedRingMachine.SizeInRange | cpp/include/rpc/buffer_pool.hpp:316-320 | size() from either side stays in [0, capacity], over-counting on the pusher's side and under-counting on the popper's |
| SharedRingLimits.PushGuardAlwaysRight | cpp/include/rpc/buffer_pool.hpp:289-290 | The full test by unsigned subtraction is right for any counts, wrapped or not |
| SharedRingLimits.PopGuardExact | cpp/include/rpc/buffer_pool.hpp:306-307 | The empty test by comparison is right exactly when no multiple of 2^64 lies between the counts |
| SharedRingLimits.RunIsFifoExactly | cpp/include/rpc/buffer_pool.hpp:286-320 | In every run the ring is a FIFO queue exactly as long as fewer than 2^64 pushes have completed, and no run ever pops 2^64 elements |
| SharedRingLimits.RunKeepsCounters | cpp/include/rpc/buffer_pool.hpp:286-320 | What both counters and program counters keep in every run, wrapped or not |
| SharedRingWitnesses.FifoEndsAt2To64Pushes | cpp/include/rpc/buffer_pool.hpp:286-314 | A run with exactly 2^64 pushes after which one element is queued and no continuation ever pops anything |
| SharedRingLimits.ThirdPartySizeExactly | cpp/include/rpc/buffer_pool.hpp:316-320 | For a third thread that loads write_pos and later read_pos, size() exceeds the capacity exactly when more was popped by the second load than pushed by the first, and by less than 2^64 minus the capacity; when nothing overtook, it is the difference of the two counts |
| SharedRingWitnesses.ThirdPartySizeWraps | cpp/include/rpc/buffer_pool.hpp:316-320 | A run in which that happens |
| TopK.TopKCompressor.Compress | python/gossip_rl/gossip/compression.py:33-73 | Fails, changing nothing, on a shape mismatch or when k exceeds the length; otherwise sends k = max(1, trunc(n ratio)) entries, a top-k choice of gradient plus feedback, keeps the rest as new feedback, and takes the step the run theorems speak of |
| TopK.KeepCountUnique | python/gossip_rl/gossip/compression.py:52 | How many are kept: the only number at least 1 above n ratio - 1 that is 1 or at most n ratio |
| TopK.TopKCompressor.ResetErrorFeedback | python/gossip_rl/gossip/compression.py:95-97 | Resetting is the reset step of the run theorems |
| TopK.Decompress | python/gossip_rl/gossip/compression.py:75-93 | Zero outside the indices, the value at each; on a compressed vector exactly its kept part |
| TopK.TopKExists | python/gossip_rl/gossip/compression.py:53-58 | Every vector has a choice of k distinct positions, largest first, that dominates all others |
| TopK.Contraction | python/gossip_rl/gossip/compression.py:47-64 | Each call contracts, |e|^2 <= (1 - k/n)|v|^2, and energy is split exactly between what is sent and what is kept back |
| TopK.BestSparseApproximation | python/gossip_rl/gossip/compression.py:53-62 | No vector supported on k positions is closer to the input than what is sent |
| TopK.ResidualBound | python/gossip_rl/gossip/compression.py:47-64 | Over any run of calls, resets and feedback-free calls on gradients with |g|^2 <= G^2, d^2|e|^2 <= 2(1-d)(2-d)G^2 with d = k/n, whatever the ties |
| TopK.ResidualBoundSimple | python/gossip_rl/gossip/compression.py:47-64 | The looser d^2|e|^2 <= 4(1-d)G^2 over the same runs |
| ResidualSharp.SharpResidualBound | python/gossip_rl/gossip/compression.py:47-64 | A sharper bound from the contraction alone: (1 - s)^2|e|^2 <= s^2 G^2 with s >= 0 and s^2 = 1 - k/n, over the same runs |
| ResidualSharp.DenseResidualBound | python/gossip_rl/gossip/compression.py:47-64 | Over any run with 2k >= n: k|e|^2 <= (n - k)G^2, so the residual never outweighs one gradient |
| ResidualSharp.DenseResidual | python/gossip_rl/gossip/compression.py:53-64 | Its step: one call achieves this whatever was carried over, if that was zero on k positions, as every residual is |
| TopK.Conservation | python/gossip_rl/gossip/compression.py:47-97 | Per coordinate over any run: decompressed outputs + current residual + what resets and feedback-free calls drop = the sum of all inputs |
| TopK.FeedbackDiscardsNothing | python/gossip_rl/gossip/compression.py:47-64 | With feedback on every call nothing is dropped, so outputs + residual = inputs |
| Quantization.QuantizeIsFaithful | python/gossip_rl/gossip/compression.py:152-194 | At 1 to 8 bits: codes in [0, 2^bits - 1], order kept, error at most half a level in every coordinate, constant arrays included; the parameters are the attained minimum and maximum |
| Quantization.LevelCounts | python/gossip_rl/gossip/compression.py:150 | The levels double with each bit: 2, 4, ... 256 at 1 to 8 bits |
| Quantization.EightBits | python/gossip_rl/gossip/compression.py:152-194 | At 8 bits: codes up to 255, error at most (max - min)/510 |
| Quantization.CodesAreNearest | python/gossip_rl/gossip/compression.py:162-171 | Each code is the nearest to the scaled value, a tie going to the even one |
| Quantization.EndsAttained | python/gossip_rl/gossip/compression.py:152-194 | The decompressed array has exactly the minimum and maximum of the original |
| Quantization.Recompress | python/gossip_rl/gossip/compression.py:152-194 | Compressing the decompressed array gives the same codes and parameters |
| Quantization.ErrorBound | python/gossip_rl/gossip/compression.py:160-190 | One value is recovered within (max - min)/(2(levels - 1)) |
| Clipping.ClippedNorm | python/gossip_rl/privacy/mechanism.py:46-55 | The clipped vector has norm min(norm, C) |
| Clipping.ClipIdempotent | python/gossip_rl/privacy/mechanism.py:46-55 | Clipping twice is clipping once |
| Clipping.ClipNonExpansive | python/gossip_rl/privacy/mechanism.py:46-55 | |clip(x) - clip(y)|^2 <= |x - y|^2 at any length |
| Clipping.ClipSensitivity | python/gossip_rl/privacy/mechanism.py:46-64 | Two clipped gradients differ by at most 2C, the sensitivity privatize relies on |
| Clipping.ClipNearest | python/gossip_rl/privacy/mechanism.py:46-55 | No vector of norm at most C is closer to the gradient than its clipped version |
| Gae.ComputeAdvantages | python/gossip_rl/training/ppo.py:195-222 | The backward loop fills the array with the forward sum of TD errors, and the returns with advantage plus value |
| Gae.BackwardIsForward | python/gossip_rl/training/ppo.py:203-219 | The backward recursion equals the forward weighted sum of TD errors |
| Gae.WeightCut | python/gossip_rl/training/ppo.py:207-217 | The weights are powers of gamma lambda up to the first episode end and 0 after it |
| Gae.ReturnRecursion | python/gossip_rl/training/ppo.py:203-222 | returns[t] = r + gamma nt ((1 - lambda) V[t+1] + lambda returns[t+1]) |
| Gae.MonteCarloReturn | python/gossip_rl/training/ppo.py:203-222 | At lambda = 1 the return telescopes to the bootstrapped discounted sum of rewards |
| Gae.EpisodesAreIndependent | python/gossip_rl/training/ppo.py:207-217 | Two rollouts that agree up to and including a done step have the same advantages up to it |
| Gae.AdvantageBound | python/gossip_rl/training/ppo.py:203-219 | TD errors within D give advantages within D/(1 - gamma lambda) |
| BufferPool.BufferPool.AllocateBuffers | cpp/src/buffer_pool.cpp:27-45 | The loop adds the slices of one new block and frees them all |
| BufferPool.BufferPool.ExpandPool | cpp/src/buffer_pool.cpp:47-60 | Grows up to max_count; refuses only a positive request of a pool at max_count, and cannot serve one above it |
| BufferPool.BufferPool.AcquireBuffer | cpp/src/buffer_pool.cpp:62-93 | Takes the back of the free list, growing first when it is empty |
| BufferPool.BufferPool.ReleaseBuffer | cpp/src/buffer_pool.cpp:95-110 | Puts an index back; null and unknown indices are ignored |
| BufferPool.CreateValid | cpp/src/buffer_pool.cpp:14-18 | A new pool satisfies the ownership, memory and statistics invariant, also when it starts above max_count |
| BufferPool.AcquireExact | cpp/src/buffer_pool.cpp:62-75 | acquire never returns null; with an empty free list it is undefined exactly at max_count buffers, asks for an impossible allocation exactly above max_count, and succeeds exactly when a buffer is free or the pool can grow. The documented null (cpp/include/rpc/buffer_pool.hpp:148) never comes |
| BufferPool.AcquireKeepsValid | cpp/src/buffer_pool.cpp:62-93 | A successful acquire hands out a buffer nobody holds, disjoint in memory from all held ones, and keeps the invariant; peak usage is updated exactly |
| BufferPool.AcquireTakesLast | cpp/src/buffer_pool.cpp:62-93 | Which buffer comes: the last one freed, or after a growth by 256, or as many as max_count still allows, the last of the new ones |
| BufferPool.ReleaseThenAcquire | cpp/src/buffer_pool.cpp:62-110 | A released buffer is the next one acquired, and only the two counters show it |
| BufferPool.RunCountsOperations | cpp/src/buffer_pool.cpp:62-110 | Over every run the counters are the numbers of acquires and of releases |
| BufferPool.ReleaseKeepsValid | cpp/src/buffer_pool.cpp:95-110 | A release by the rightful owner keeps the invariant |
| BufferPool.ReleaseSafeExactly | cpp/src/buffer_pool.cpp:95-110 | A release keeps ownership consistent exactly when the index was held |
| BufferPool.RunKeepsValid | cpp/src/buffer_pool.cpp:27-110 | Over every run by rightful owners: free indices distinct and complementary to the held ones, memory disjoint, statistics exact, peak usage the running maximum, total at most max_count or the initial count |
| BufferPool.Exhaust | cpp/src/buffer_pool.cpp:62-75 | From any held set enough acquires take every buffer, and the next one fails in one of the two bad ways |
| BufferPool.ExhaustedPoolIsUndefined | cpp/src/buffer_pool.cpp:62-75 | The smallest such pool: one buffer, taken and asked for again |
| Buffers.Buffer.Write | cpp/include/rpc/buffer_pool.hpp:74-79 | Appends as much as fits and reports how much |
| Buffers.Buffer.Read | cpp/include/rpc/buffer_pool.hpp:82-88 | Returns the stored bytes from an offset, none at or past the end |
| Buffers.Buffer.SetSize | cpp/include/rpc/buffer_pool.hpp:61 | Clamps the size to the capacity |
| Buffers.BufferWriter.Write | cpp/include/rpc/serialization.hpp:109-115 | All or nothing |
| Buffers.BufferWriter.Reserve | cpp/include/rpc/serialization.hpp:143-149 | Leaves a hole and returns its position, or nothing when it does not fit |
| Buffers.BufferReader.Read | cpp/include/rpc/serialization.hpp:179-185 | Returns the next n bytes and moves on, or nothing and stays |
| Buffers.BufferReader.Seek | cpp/include/rpc/serialization.hpp:252-257 | Moves within the data or refuses |
| Bytes.LeRoundTrip | cpp/include/rpc/serialization.hpp:109-115 | A little-endian field of sufficient width is read back exactly |
| Bytes.BeRoundTrip | python/gossip_rl/gossip/message.py:62-66 | A big-endian field of sufficient width is read back exactly |
| Bytes.LeDigit | cpp/include/rpc/serialization.hpp:109-115 | The byte at position i has weight 256^i |
| Bytes.BeDigit | python/gossip_rl/gossip/message.py:62-66 | The byte at position i has weight 256^(width - 1 - i) |
| GradientSerialization.SerializeTensor | cpp/include/rpc/serialization.hpp:268-284 | Succeeds exactly when header, dims and data fit; then they are what is appended, whatever the reserved field holds; earlier contents stay |
| GradientSerialization.DtypeTable | cpp/include/rpc/serialization.hpp:21-52 | Codes and sizes of the seven dtypes, and that no other code is one |
| GradientSerialization.NumelIsProduct | cpp/include/rpc/serialization.hpp:273-276 | The element count is the product of the dims modulo 2^64 |
| GradientSerialization.TensorLayout | cpp/include/rpc/serialization.hpp:268-284 | Where magic number, dtype, dims and data stand, read as numbers |
| GradientSerialization.SerializeGradients | cpp/include/rpc/serialization.hpp:315-349 | Succeeds exactly when everything fits; then the message with its back-patched table follows the earlier contents, which stay untouched also on failure |
| GradientSerialization.OffsetsTile | cpp/include/rpc/serialization.hpp:329-346 | The table entries start at the end of the table, strictly increase, and each tensor ends where the next begins, the last at the final position |
| GradientSerialization.ReadTensor | cpp/include/rpc/serialization.hpp:168-263 | Seeking and reading through a BufferReader computes the parse of the bytes at the offset |
| GradientSerialization.ParseRecoversExactly | cpp/include/rpc/serialization.hpp:268-284 | Reading a serialized tensor recovers dtype, dims and data exactly when it has fewer than 256 dims, since the header keeps their number in one byte |
| GradientSerialization.DeepTensorUnreadable | cpp/include/rpc/serialization.hpp:268-284 | A tensor with 256 empty dims that cannot be read back |
| GradientSerialization.TableLeadsToTensors | cpp/include/rpc/serialization.hpp:315-349 | Every table entry leads a reader to its tensor, again exactly below 256 dims |
| GradientSerialization.GradientHeaderRecovers | cpp/include/rpc/serialization.hpp:320-348 | The magic number and step are read back, the number of tensors exactly when it fits four bytes, and total_size is what the field happened to hold before |
| Bytes.FromLeWraps | cpp/include/rpc/serialization.hpp:109-115 | A field too narrow keeps the value modulo its width |
| RpcResponseWire.SendResponse | cpp/src/rpc_server.cpp:173-207 | The successive truncating writes send exactly the start of the response message that the buffer can hold |
| RpcResponseWire.ParseResponse | cpp/src/rpc_client.cpp:222-268 | The client's parse with its running offset and its own payload buffer computes the parse of the bytes |
| RpcResponseWire.HeaderFields | cpp/src/rpc_client.cpp:227-245 | Request id and status survive whatever follows the header |
| RpcResponseWire.HeaderRest | cpp/include/rpc/rpc_server.hpp:27-37 | So do magic number, version, the size of the message modulo 2^32 and empty flags |
| RpcResponseWire.ParseParts | cpp/src/rpc_client.cpp:222-268 | What any data with a header, a length and something after it means to the client |
| RpcResponseWire.RecoversExactly | cpp/src/rpc_client.cpp:222-268 | With a buffer above 36 bytes the client recovers id, status, error and payload exactly when error or payload is non-empty, all fits the server's buffer, the error length fits 32 bits and the client finds room for the payload; an empty response survives only if the client is out of buffers |
| RpcResponseWire.RecoversInTinyBuffer | cpp/src/rpc_client.cpp:222-268 | The exact condition in buffers of at most 36 bytes |
| RpcResponseWire.EmptyResponseGainsPayload | cpp/src/rpc_client.cpp:249 | An empty OK response arrives with a payload of four zero bytes |
| RpcResponseWire.IdSurvivesCutting | cpp/src/rpc_client.cpp:222-245 | Any cut message is parsed exactly when the header is complete, and then carries its own id and status |
| GossipWire.Pack | python/gossip_rl/gossip/message.py:58-101 | Yields the packed bytes exactly when every field fits its width, else struct.error |
| GossipWire.Unpack | python/gossip_rl/gossip/message.py:103-169 | The parse with its running offset computes the specified one, exceptions included |
| GossipLayout.TypeCodes | python/gossip_rl/gossip/message.py:12-34 | The code of each message type, and that no other code is one |
| GossipLayout.FitsExactly | python/gossip_rl/gossip/message.py:58-101 | The width of every field, in bytes |
| GossipLayout.NormalExactly | python/gossip_rl/gossip/message.py:58-101 | A message is in normal form exactly when it has no metadata, no empty payload, and no indices, model version or step without a gradient |
| GossipLayout.HeadLayout | python/gossip_rl/gossip/message.py:58-72 | Where type, sender, sequence number, timestamp and flags stand and what they say |
| GossipLayout.TargetLayout | python/gossip_rl/gossip/message.py:74-78 | The target after them |
| GossipLayout.GradientLayout | python/gossip_rl/gossip/message.py:80-93 | Model version, step, gradient, indices, in that order |
| GossipLayout.TailLayout | python/gossip_rl/gossip/message.py:95-101 | Incarnation and payload at the end |
| GossipWire.RoundTrip | python/gossip_rl/gossip/message.py:58-169 | unpack(pack(m) + rest) is m in normal form, whatever follows, exactly when the array bytes are multiples of 4 and 8; else an exception |
| GossipWire.PackedNormal | python/gossip_rl/gossip/message.py:74-101 | The bytes depend on the normal form only |
| GossipWire.SelfDelimiting | python/gossip_rl/gossip/message.py:58-169 | Two packed messages with any rests that agree as bytes have the same normal form, bytes and rest: pack is injective on normal forms and prefix-free |
| GossipWire.CutMessage | python/gossip_rl/gossip/message.py:103-155 | A packed message cut short is refused exactly when the cut falls before the payload; a cut in the payload silently shortens it |
| GossipRepack.UnpackedFits | python/gossip_rl/gossip/message.py:103-169 | Every message unpack returns can be packed |
| GossipRepack.RepackExactly | python/gossip_rl/gossip/message.py:58-169 | Data unpack accepts starts with the packed message exactly when its flags are the ones pack writes for it and the announced payload is all there |
| Peers.Peer.MarkPeerAlive | python/gossip_rl/gossip/peer.py:58-72 | New record and reported change as specified by the incarnation rule |
| Peers.Peer.MarkPeerSuspect | python/gossip_rl/gossip/peer.py:74-85 | Likewise; the claim's incarnation is not stored |
| Peers.Peer.MarkPeerDead | python/gossip_rl/gossip/peer.py:87-98 | Likewise |
| Peers.MarksExactly | python/gossip_rl/gossip/peer.py:58-98 | Which claims change a record, and to what, with and without an incarnation |
| Peers.ChangeReportedExactly | python/gossip_rl/gossip/peer.py:58-98 | A mark reports a change exactly when the state differs afterwards |
| Peers.MarksProgress | python/gossip_rl/gossip/peer.py:58-98 | No sequence of marks moves a record back: the incarnation never falls, and within one only ALIVE, SUSPECT, DEAD in that order |
| ClaimOrder.OrderIndependentExactly | python/gossip_rl/gossip/peer.py:58-98 | Claims about a peer, each delivered at least once, leave the same record in every order exactly when none of them is an ALIVE claim newer than the record, or one such claim is newer than every SUSPECT and DEAD claim |
| ClaimOrder.Cleared | python/gossip_rl/gossip/peer.py:58-98 | In the second case the record is ALIVE at the newest incarnation claimed |
| ClaimOrder.StaleAlives | python/gossip_rl/gossip/peer.py:74-98 | In the first it is what the accusations of at least its own incarnation make of it |
| Peers.AliveSuspectCommuteExactly | python/gossip_rl/gossip/peer.py:58-85 | The case of one ALIVE and one SUSPECT claim: they commute exactly when the ALIVE one is stale or strictly newer |
| Peers.AliveDeadCommuteExactly | python/gossip_rl/gossip/peer.py:58-98 | The same for ALIVE and DEAD |
| Membership.MembershipManager.HandleMessage | python/gossip_rl/gossip/membership.py:143-157 | Dispatch by type; the whole new state and the reply |
| Membership.MembershipManager.OnPing | python/gossip_rl/gossip/membership.py:159-171 | Overwrites the sender's incarnation unchecked and acknowledges |
| Membership.MembershipManager.OnAck | python/gossip_rl/gossip/membership.py:184-205 | Marks the probe's target and forgets the probe, unless the callback raises |
| Membership.MembershipManager.OnAlive | python/gossip_rl/gossip/membership.py:207-223 | Marks alive and cancels the timer on a change |
| Membership.MembershipManager.OnSuspect | python/gossip_rl/gossip/membership.py:225-251 | Refutes a claim about the node itself; otherwise marks and starts the timer unless the callback raises |
| Membership.MembershipManager.OnDead | python/gossip_rl/gossip/membership.py:253-269 | Marks dead and cancels the timer on a change |
| Membership.MembershipManager.StartSuspicionTimer | python/gossip_rl/gossip/membership.py:271-282 | Arms a fresh handle unless the table has one |
| Membership.MembershipManager.ConfirmDeadStart | python/gossip_rl/gossip/membership.py:284-287 | The first half of a confirmation deletes the table entry, whichever timer it belongs to |
| Membership.MembershipManager.ConfirmDeadFinish | python/gossip_rl/gossip/membership.py:289-297 | The second half marks a peer dead only if it is suspected then |
| Membership.MembershipManager.OnProbeTimeout | python/gossip_rl/gossip/membership.py:400-422 | Marks the current record, starts the timer and queues a SUSPECT with the incarnation of the probed Peer object |
| Membership.MembershipManager.Add | python/gossip_rl/gossip/membership.py:93-105 | Replaces only an older incarnation |
| Membership.MembershipManager.Remove | python/gossip_rl/gossip/membership.py:107-114 | Removes and returns a peer; its timer stays |
| Membership.MembershipManager.GetPendingUpdates | python/gossip_rl/gossip/membership.py:424-429 | Takes the oldest queued updates |
| MembershipEffects.PingTakesEffectExactly | python/gossip_rl/gossip/membership.py:159-171 | Only the incarnation of a known sender changes, and an ACK with the same sequence number answers |
| MembershipEffects.AckTakesEffectExactly | python/gossip_rl/gossip/membership.py:184-205 | Only an ACK of a pending probe acts: like an ALIVE claim about the probed peer; the probe ends unless a revival is interrupted by a raising callback |
| MembershipEffects.AliveTakesEffectExactly | python/gossip_rl/gossip/membership.py:207-223 | Exactly a newer claim sets the record; a revival also deletes the timer entry and disarms its timer; nothing else changes |
| MembershipEffects.SuspectTakesEffectExactly | python/gossip_rl/gossip/membership.py:225-251 | About the node itself: an update with an incarnation above its own and the claimed one; about another: exactly an alive record no newer than the claim becomes suspected and gets a timer; nothing else changes |
| MembershipEffects.DeadTakesEffectExactly | python/gossip_rl/gossip/membership.py:253-269 | Exactly a record not dead and no newer than the claim becomes DEAD, its timer entry goes and the timer is disarmed; in every other case nothing changes |
| MembershipEffects.ProbeTimeoutTakesEffectExactly | python/gossip_rl/gossip/membership.py:400-422 | Exactly an alive peer becomes suspected and gets a timer, and unless the callback raises one SUSPECT update is queued |
| MembershipEffects.ConfirmationExactly | python/gossip_rl/gossip/membership.py:271-297 | A timer that fires and runs through undisturbed kills exactly a suspected peer and leaves no entry and no task |
| MembershipEffects.TableChangesExactly | python/gossip_rl/gossip/membership.py:93-114 | Adding replaces exactly an unknown or older record; removing removes that peer only; no timer changes |
| MembershipEffects.UpdatesAreConserved | python/gossip_rl/gossip/membership.py:424-429 | Updates leave in order; none is lost or repeated |
| MembershipEffects.ProbesExactly | python/gossip_rl/gossip/membership.py:339-358 | A probe is remembered under the next sequence number, and forgetting it restores the table of probes |
| MembershipTimers.SuspicionsAreNeverOrphaned | python/gossip_rl/gossip/membership.py:207-297 | In every state of every run with live added peers and callbacks that do not raise, each suspected peer has an armed timer or an unfinished confirmation |
| MembershipTimers.SuspectKeepsSoundExactly | python/gossip_rl/gossip/membership.py:244-251 | A suspicion keeps that invariant exactly when it changes nothing, the callback does not raise, or something still watches the peer |
| MembershipTimers.AddKeepsSoundExactly | python/gossip_rl/gossip/membership.py:93-105 | Adding a peer keeps it exactly when the peer is refused, not suspected, or still watched |
| MembershipTimers.EventKeepsSound | python/gossip_rl/gossip/membership.py:159-297 | Every ordinary event keeps it |
| MembershipTimers.ResolvedWhenQuiet | python/gossip_rl/gossip/membership.py:271-297 | With no task left and no timer of the peer armed, the peer is not suspected |
| MembershipConfirmations.EarlyConfirmationExactly | python/gossip_rl/gossip/membership.py:271-297 | A new suspicion can be confirmed before any timer started for it fires exactly when, at that moment, an older timer of the peer is armed or an older confirmation unfinished |
| MembershipConfirmations.OwnTimerConfirms | python/gossip_rl/gossip/membership.py:271-297 | Otherwise no confirmation of the peer starts or finishes while the suspicion's own timer is armed, in any continuation |
| MembershipConfirmations.RunKeepsTimers | python/gossip_rl/gossip/membership.py:93-297 | In every run, raising callbacks and suspected additions included, each table entry is armed or its fired task has yet to start: what the two results above need of a state |
| MembershipConfirmations.EventKeepsOnlyTimer | python/gossip_rl/gossip/membership.py:159-297 | Every event keeps a sole timer of a peer sole until it fires or is cancelled |
| MembershipConfirmations.MessageTiming | python/gossip_rl/gossip/membership.py:159-282 | A message starts or cancels the timer of at most one peer |
| MembershipTimers.StaleTaskConfirmsEarly | python/gossip_rl/gossip/membership.py:271-297 | A run of ordinary events in which the task of a refuted suspicion confirms the next one dead while its own timer is still armed; the timer it leaves behind is the other way to fail |
| MembershipNetwork.NetRunKeepsInv | python/gossip_rl/gossip/membership.py:159-269 | With loss, duplication and reordering: every record, detached Peer object and claim about p carries at most p's incarnation, which is its start plus the refutations it issued |
| MembershipNetwork.EventKeepsInv | python/gossip_rl/gossip/membership.py:143-297 | Every event at any node keeps these bounds |
| MembershipNetwork.OwnIncarnation | python/gossip_rl/gossip/membership.py:230-239 | A node's incarnation moves only by refutation, by exactly one when no claim is ahead of it |
| MembershipNetwork.RecordOrigin | python/gossip_rl/gossip/membership.py:159-223 | Where each incarnation in a table comes from |
| MembershipNetwork.MessageOrigin | python/gossip_rl/gossip/membership.py:299-310 | Where each queued or sent message comes from |
| MembershipNetwork.RefutationOutranks | python/gossip_rl/gossip/membership.py:230-239 | A refutation outranks every record and every ALIVE, SUSPECT and DEAD claim about the node in flight or queued anywhere |
| MembershipNetwork.FirstDeliveryRevives | python/gossip_rl/gossip/membership.py:207-223 | The first delivery of p's newest refutation makes any observer with a record of p see p ALIVE at that incarnation |
| MembershipNetwork.RecordFallsExactly | python/gossip_rl/gossip/membership.py:93-269 | While a peer stays in a table its record's incarnation falls exactly by a PING from it that carries less |
| MembershipNetwork.RefutationHolds | python/gossip_rl/gossip/membership.py:93-297 | In every continuation without a PING from p to n and without n removing p, n's record of p stays at its incarnation or above |
| MembershipNetwork.OldAccusationsIgnored | python/gossip_rl/gossip/membership.py:225-269 | So long, no SUSPECT or DEAD claim older than that changes any record of n |
| MembershipNetwork.PingReopensOldSuspicions | python/gossip_rl/gossip/membership.py:159-165 | In a reachable network the first PING from p takes its record to incarnation 0, after which any suspicion of p ever sent takes effect exactly if p is recorded ALIVE |
| MembershipReopening.OldSuspicionReturns | python/gossip_rl/gossip/membership.py:143-251 | A run of nine steps from an initial network in which a refuted suspicion, delivered again after a PING, is believed |
| MembershipNetwork.AckNeverRevives | python/gossip_rl/gossip/membership.py:184-205 | No ACK in the network ever changes a record: create_ack leaves the incarnation 0 |
| GradientCache.GossipProtocol.SetOwnGradients | python/gossip_rl/gossip/protocol.py:102-116 | Stores the own gradient and resets the aggregate to it |
| GradientCache.GossipProtocol.TryStore | python/gossip_rl/gossip/protocol.py:199-214 | Refuses exactly what is no newer in either counter; otherwise replaces the sender's entry |
| GradientCache.GossipProtocol.AggregateGradients | python/gossip_rl/gossip/protocol.py:223-238 | The loop collects the own gradient and the cached ones of its dimension and stores their mean |
| GradientCache.GossipProtocol.GetAggregatedGradients | python/gossip_rl/gossip/protocol.py:118-123 | The aggregate and cached entries plus one |
| GradientCache.AggregateExactly | python/gossip_rl/gossip/protocol.py:223-238 | In every coordinate the stored value times the number of vectors averaged is the own value plus the sum of the matching cached ones; with none matching nothing changes |
| GradientCache.QuiescentSum | python/gossip_rl/gossip/protocol.py:190-238 | With no handler in flight this holds of the current own gradient and cache, once a push finished and a cached gradient matches, over every interleaving |
| GradientCache.AllGradientsSum | python/gossip_rl/gossip/protocol.py:230-234 | The vectors averaged sum up to the own one and the matching cached ones |
| GradientCache.CacheBySender | python/gossip_rl/gossip/protocol.py:199-214 | The entry of a sender depends on that sender's deliveries only |
| GradientCache.KeepsNewest | python/gossip_rl/gossip/protocol.py:201-214 | An entry newest in both counters that shares them with no other is the one kept, in any order and multiplicity |
| GradientCache.OrderIndependentExactly | python/gossip_rl/gossip/protocol.py:199-214 | One sender's cache entry is the same in every order of delivery exactly when nothing was delivered or one entry is newest in both counters and no different one has the same counters |
| GradientCache.ChainHasNewest | python/gossip_rl/training/ppo.py:342 | The entries a trainer publishes, its step rising each time, always have such a one |
| GradientCache.AggregatesAgree | python/gossip_rl/gossip/protocol.py:190-238 | Two nodes with the same own gradient that hear the same entries, in any order and with repetition, compute the same aggregate if each sender's entries have such a one |
| GradientCache.MeanBetween | python/gossip_rl/gossip/protocol.py:236-237 | A mean lies componentwise between any bounds of its vectors |
| GradientCache.AllGradientsComplete | python/gossip_rl/gossip/protocol.py:230-234 | With equal dimensions every cached gradient is averaged |
| GradientCache.AggregateIsMeanExactly | python/gossip_rl/gossip/protocol.py:230-238 | After an aggregation the aggregate is the mean exactly when some cached gradient matches in dimension or it already was the own gradient |
| GradientCache.QuiescentAggregate | python/gossip_rl/gossip/protocol.py:190-238 | With no handler in flight, over every interleaving: the aggregate is the own gradient if no push finished since it was set, and otherwise, where the cached dimensions agree with it, the exact mean of it and all cached ones |
| GradientCache.AllAveragedExactly | python/gossip_rl/gossip/protocol.py:230-234 | The averaged vectors are as many as are reported exactly when all cached gradients have the own dimension |
| GradientCache.ReportRightExactly | python/gossip_rl/gossip/protocol.py:102-123 | With no handler in flight, the aggregate averages exactly the vectors it is reported for if and only if nothing is cached, or some push finished since set_gradients and all cached gradients have the own dimension |
| GradientCache.CountRightExactly | python/gossip_rl/gossip/protocol.py:118-123 | With equal dimensions the reported number is right exactly when nothing is cached or some push finished since set_gradients |
| PeerSelection.SelectGossipPeers | python/gossip_rl/gossip/protocol.py:295-334 | For every outcome of the samples: exactly max(0, min(fanout, available)) distinct alive peers outside backoff, an exact number of remote ones, and at least min(local, 2 fanout / 3) local ones, all with their numbers written out |
| PeerSelection.Draw | python/gossip_rl/gossip/protocol.py:316-332 | The three samples are distinct, come from the right peers and have exactly the stated sizes |
| PeerSelection.RemainingAfter | python/gossip_rl/gossip/protocol.py:331-332 | Of distinct local peers exactly the unselected remain for the last sample |
| RpcClient.RpcClient.CallAsync | cpp/src/rpc_client.cpp:137-194 | Rejected at once when unconnected or out of buffers; otherwise takes an id and registers |
| RpcClient.RpcClient.TakePending | cpp/src/rpc_client.cpp:230-241 | Removes and returns the future of an id |
| RpcClient.RpcClient.CompleteFuture | cpp/src/rpc_client.cpp:270-280 | Completes it with the response and runs its callback |
| RpcClient.RpcClient.OnSent | cpp/src/rpc_client.cpp:178-191 | A failed send completes a pending future without its callback |
| RpcClient.RpcClient.Disconnect | cpp/src/rpc_client.cpp:103-124 | The loop completes exactly the pending futures, once each, if the connection was marked up |
| RpcClient.RpcClient.OnDisconnect | cpp/src/rpc_client.cpp:283-288 | Only clears the flag |
| RpcClient.RpcClient.OnComplete | cpp/src/rpc_client.cpp:31-38 | Runs the callback at once on a completed future, else keeps it |
| RpcClient.AcceptExactly | cpp/src/rpc_client.cpp:158-175 | An accepted call adds one open future, pending under the next of the 64-bit ids |
| RpcClient.RejectExactly | cpp/src/rpc_client.cpp:137-156 | A rejected one adds one completed future and nothing else |
| RpcClient.SetCallbackExactly | cpp/src/rpc_client.cpp:31-38 | A callback is kept by an open future and run by a completed one; no other future changes |
| RpcClient.FinishExactly | cpp/src/rpc_client.cpp:270-280 | A completion sets the response and runs the kept callback once; no other future changes |
| RpcClient.SendFailsExactly | cpp/src/rpc_client.cpp:178-191 | A failed send takes the call under its id from the table and completes it without its callback |
| RpcClient.FailPendingExactly | cpp/src/rpc_client.cpp:110-122 | A disconnect empties the table and completes each call in it once with its callback, and no other |
| RpcClient.RunKeepsValid | cpp/src/rpc_client.cpp:103-281 | Under every interleaving of the first 2^64 calls: ids never reused, each future completed at most once and answered only under its own id, its callback run once unless the send failed, and an open one waits in the table, in a handler or before registration |
| RpcClient.StepKeepsValid | cpp/src/rpc_client.cpp:103-281 | Every critical section keeps that invariant |
| RpcClient.ReserveKeepsValid | cpp/src/rpc_client.cpp:158 | Taking an id keeps all ids distinct and the new future accounted for |
| RpcClient.CompletionIsFinal | cpp/src/rpc_client.cpp:103-281 | A completed future keeps its response whatever happens later |
| RpcClient.ResponseReachesItsCallOnly | cpp/src/rpc_client.cpp:230-280 | A response completes the future registered under its id and leaves the others alone |
| RpcClient.DisconnectFailsAllExactly | cpp/src/rpc_client.cpp:103-124 | disconnect() empties the table exactly when the connection is marked up or the table is empty: after on_disconnect it fails nobody |
| RpcClient.OpenAfterDisconnect | cpp/src/rpc_client.cpp:110-122 | After it the futures still open are exactly those being answered and those not yet registered |
| RpcClient.PendingLeavesExactly | cpp/src/rpc_client.cpp:103-281 | A registered call leaves the table exactly by a response or failed send under its id or by the critical section of a disconnect |
| RpcClient.StrandedStays | cpp/src/rpc_client.cpp:103-288 | A call in the table of a disconnected client stays open in every continuation without a response or failed send under its id or a new connection, however often disconnect is called |
| RpcClient.LostCallIsStranded | cpp/src/rpc_client.cpp:283-288 | A run that gets there: a call is waiting when the connection is reported lost |
| RpcClient.SendDefinedExactly | cpp/src/rpc_client.cpp:99-178 | A call that checked the connection finds it set when it sends exactly if every disconnect or failed connect that cleared it in between was followed by a successful connect; otherwise it dereferences null |
| RpcClient.CaughtCallIsUndefined | cpp/src/rpc_client.cpp:103-178 | A run in which a disconnect catches a call between its check and its send |
| RpcClient.RpcClient.ConnectTo | cpp/src/rpc_client.cpp:59-78 | A failed connect clears the connection and leaves the flag |
| RpcClient.NewCallSparesOthersExactly | cpp/src/rpc_client.cpp:158-175 | Registering a call leaves all pending entries alone exactly when its id is not pending; an id that comes round takes the first call's entry |
| SigmaSearch.RdpAccountant.ComputeRdp | python/gossip_rl/privacy/accountant.py:100-121 | The loop fills in the cost of one step at every order |
| SigmaSearch.RdpAccountant.Step | python/gossip_rl/privacy/accountant.py:80-98 | Composition adds that cost and records the step |
| SigmaSearch.RdpAccountant.GetEpsilon | python/gossip_rl/privacy/accountant.py:178-202 | The least positive value over the orders above 1, infinity if there is none |
| SigmaSearch.EpsilonExactly | python/gossip_rl/privacy/accountant.py:178-202 | Epsilon is at most a bound exactly when some order above 1 has a positive value of the conversion formula within it; no order counts at delta <= 0 |
| SigmaSearch.Calculus.Least | python/gossip_rl/privacy/accountant.py:188-202 | Some order attains it and none has a smaller positive value |
| SigmaSearch.CheckSigma | python/gossip_rl/privacy/mechanism.py:179-184 | A fresh accountant stepped n times has spent n times one step, and the check compares its epsilon with the target |
| SigmaSearch.MetExactly | python/gossip_rl/privacy/mechanism.py:179-184 | A sigma meets the target exactly when some order above 1 does, after all steps, by the formula |
| SigmaSearch.ComputeSigma | python/gossip_rl/privacy/mechanism.py:186-196 | Ends for every positive tolerance; the result meets the target unless it is max_sigma itself, and at most the tolerance below it lies a sigma that misses the target or the 0.1 floor, with no assumption on how the target depends on sigma |
| NoiseMonotonicity.MonotoneExactly | python/gossip_rl/privacy/accountant.py:112-115 | Without subsampling, more noise never loses a met target, whatever the target, exactly when no order's value can become negative |
| NoiseMonotonicity.DropsExactly | python/gossip_rl/privacy/accountant.py:188-197 | An order's value can become negative exactly when it exceeds 1, its product with delta exceeds 1, and something is spent |
| NoiseMonotonicity.EpsilonFalls | python/gossip_rl/privacy/accountant.py:178-202 | Epsilon falls as sigma grows if no order can be dropped |
| NoiseMonotonicity.EpsilonJumps | python/gossip_rl/privacy/accountant.py:196-202 | If one can be dropped there are two sigmas of which the larger has the larger epsilon, both reached by stepping an accountant |
| NoiseMonotonicity.NearlyOptimal | python/gossip_rl/privacy/mechanism.py:186-196 | Under that condition no sigma that meets the target lies more than the tolerance below the bisection's result |

## Left out

- The event loop, TCP transport, sockets, shared-memory mapping, connection framing and `ShmConnection` polling: kernel I/O and plumbing; ring memory is an array.
- Weak memory beyond stale counter loads: a store becomes visible with the data written before it, as acquire and release promise.
- Neural networks, the PPO loss and optimiser, environments, replay buffers, persistence, configuration, metrics and logging.
- Floating-point rounding: vectors are real; in wire formats floats are opaque bits, and the square root is any non-negative root.
- numpy broadcasting of one-element arrays, negative indices in decompress and dtypes other than float32 and int64 in gossip messages.
- UTF-8: ids on the wire are byte strings, so unpack's decoding errors do not occur.
- BufferPool.RunKeepsValid: runs stop before an acquire on an exhausted pool, whose effect is undefined or an exception; AcquireExact says when that is.
- Wrap-around of the pool's 64-bit statistics and of a block's size in bytes; an allocation of almost 2^64 buffers is taken to throw.
- RpcClient.RunKeepsValid: the first 2^64 calls; NewCallSparesOthersExactly says what a reused id does. Nothing says that a call is ever completed, and what follows an undefined send is not modelled beyond its being recorded; races on the pointer itself are left out.
- `RpcFuture` wait and cancel: only the completion they wait for is modelled; a response moved out by a first reader is not.
- GradientSerialization.SerializeTensor: data has the size its header announces, as the caller must ensure; that the header's count of dimensions fits one byte is not required.
- Gae.ComputeAdvantages: before the final normalisation of the advantages.
- GradientCache.GossipProtocol.AggregateGradients: sparse indices are stored but never used in averaging, so they are not modelled; gradients are one-dimensional.
- MembershipNetwork.NetRunKeepsInv: no code sends DEAD claims; a step that announces a peer recorded as dead stands for an application that would.
- Indirect probes: their lock is taken twice, so a probe timeout is one step into `_suspect_peer`.
- MembershipTimers.SuspicionsAreNeverOrphaned: between start and stop; stop cancels every timer.
- Convergence of membership tables: ClaimOrder.OrderIndependentExactly says when one record converges under claims; PINGs, which also change it, and whole tables are not included.
- Real time: timers fire and probes time out at any moment; backoff compares two given numbers.
- Subsampled RDP, the GLW accountant, logarithms and noise distributions: uninterpreted functions or left out, as are probabilistic privacy claims.
- NoiseMonotonicity.MonotoneExactly: full batches only; the cost of a subsampled step is uninterpreted. Of the logarithm only the sign of ln x + ln y is used.
- SigmaSearch.ComputeSigma: positive tolerances only; otherwise the loop over reals does not end.
