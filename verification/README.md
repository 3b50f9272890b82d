# V4L2 decoder driver: bitstream parsing and buffer protocols

This project models the parts of the Amlogic V4L2 decoder driver (`drivers/amvdec_ports`) that decide
something: the parsers that run before the firmware sees a stream, and the protocols that move capture
buffers between the decoder, the post-processors and the display.

| files | models |
|---|---|
| `HevcRpsSpec`, `HevcRps`, `HevcRpsSyntax`, `HevcRpsDecoder` | short-term reference picture sets: the in-place decoder, and sections 7.3.7 and 7.4.8 of H.265, as derivation and as syntax |
| `HevcScan`, `HevcScaling`, `HevcScalingRef`, `HevcScalingTable`, `HevcScalingDecoder` | scaling lists: scan tables, delta coding, references, and sections 6.5.3, 7.3.4 and 7.4.5 of H.265 |
| `BitReader`, `Bytes`, `Fifo`, `Basics` | the bit and Exp-Golomb readers, bytes and the AMLV header, bounded queues |
| `Ge2dMachine`, `Ge2dSafety`, `Ge2dBinding`, `Ge2d` | the GE2D wrapper: state machine, invariants over all interleavings, code |
| `VppMachine`, `Vpp`, `VppPools`, `VppBinding`, `VppOrder` | the VPP wrapper in local-buffer mode: back-pressure, conservation, binding, order |
| `StartCode` | the skipping MPEG-1/2 start-code search |
| `MjpegUnescape`, `MjpegLs` | JPEG and JPEG-LS unescaping |
| `Vp9Superframe`, `Vp9Prefix` | the VP9 superframe index and the in-place insertion of headers |
| `Av1Leb`, `Av1Obu`, `Av1Syntax` | LEB128, OBU framing, and OBUs as the standard writes them |
| `TaskChainSpec`, `TaskChain`, `TaskLifetime` | task chain: maps, frame slots, walks; reference counts |
| `CapturePoolSpec`, `CapturePoolSafety`, `CapturePool` | ownership of the capture buffers |
| `PageStats` | the moving-window page statistics |

Code that works in place is a class or a method over arrays, proved equal to a function of its input; the
properties are proved about that function. The concurrent wrappers are state machines with one step for each
queue, semaphore and lock operation; a run is any sequence of enabled steps of any actor. The methods of
`Ge2dWrapper` and `VppWrapper` carry the state of the machine in a ghost field and are paths through it.
`kfifo` is a bounded sequence whose put is refused when full, a semaphore is a counter, a mutex a flag.
A run speaks about any environment: frames pushed, capture buffers that cannot be bound yet, hardware
failures and the order in which the display returns buffers are choices of the step.

## Where the code departs from its purpose

- **A reference delta that cancels to 0.** The predicted set keeps it as a positive entry; section 7.4.8 of
  H.265 drops it. The sets agree if and only if that does not happen (`PredictMatchesStandard`,
  `ChainMatchesStandard`, `KeptZeroExample`).
- **A scaling list reference of 0x55555556 or 0xAAAAAAAB.** In the last 32x32 list the product with 3 wraps to
  2 or 1, so the driver accepts what the standard forbids and reads a matrix that was not coded
  (`AcceptedDeltas`, `MatchesStandard`).
- **A coded scaling list out of range.** Deltas outside -128 to 127, a dc outside 1 to 255 and coefficients of 0
  are accepted, modulo 256 (`RangesDecide`, `MatchesStandard`, `OutOfRangeExamples`).
- **Fill bytes before the marker that ends a JPEG-LS scan.** They are taken as data; the bits come back if and
  only if there are none (`BitsComeBack`).
- **JPEG-LS data cut off behind an FF.** The search steps two bytes back from the end, so a single FF takes the
  byte before it along (`ScanEndCutOff`).
- **A run of FFs before a stuffed zero.** Only a lone `FF 00` loses its zero; `FF FF 00` gives `FF 00`, and a
  single FF that ends the buffer is dropped (`ZeroAfterRun`, `RunAtEnd`, `RunExamples`).
- **A VP9 marker without a matching index.** `nb_frames` keeps its value, 0 for a new buffer; it is an outcome of
  its own (`NoIndexIs`, `NoIndexExample`).
- **AMLV sizes of 2^28 and more.** The 4-byte size field does not decode to the size (`FixedSizeDecodes`,
  `ReceiveUndoesOutput`).
- **A task item whose first slot is taken.** The walk then hands back the older frame (`PopUndoesPush`,
  `WalkReturnsAll`). With several frames out, one that is pushed after a pop overtakes those still out
  (`PushKeepsOrder`, `OvertakingExample`).
- **Cleaning a chain twice.** An item that a lookup still holds stays in the list after the first clean, and the
  second takes the lookup's reference away (`CleanIsRightWhenFirst`, `SecondCleanExample`).
- **Allocating with a token the table does not hold.** `fb_buff_from_queue` does not look it up, so the buffer is
  counted twice; callers have to allocate after a successful query only, and a token must not survive into the
  next session (`AllocNeedsToken`, `FreshTokensNeeded`).
- **A frame of 4096 pages or more.** Its count is written past the 16-entry histogram, at first into the ring of
  the window, and the total goes wrong (`RightBelowLimit`, `LimitDecides`, `BigSampleExample`).
- **`recycle_num` after 2^32 recycles.** The ring index jumps unless the window size divides 2^32
  (`TotalIsWindow`).

## Model

| member | source | states |
|---|---|---|
| `HevcRpsSpec.PredictMatchesStandard` | drivers/amvdec_ports/decoder/aml_hevc_parser.c:580-637 | the predicted set after sorting and flipping equals, entry by entry with its used flag, the set of H.265 section 7.4.8 if and only if no kept delta is 0 |
| `HevcRpsSpec.KeptZeroExample` | drivers/amvdec_ports/decoder/aml_hevc_parser.c:580-598 | a well-formed reference set, delta and flags whose kept delta is 0: the driver stores it as a positive entry, the standard drops it |
| `HevcRpsSpec.FinishIsOrdered` | drivers/amvdec_ports/decoder/aml_hevc_parser.c:605-637 | sort and flip permute what was kept; the first num_negative_pics entries are the negative ones, non-increasing, the rest non-decreasing |
| `HevcRpsSpec.PredictIsWellFormed` | drivers/amvdec_ports/decoder/aml_hevc_parser.c:553-637 | prediction from a set whose halves move strictly away from the current picture gives one, when no kept delta is 0 |
| `HevcRpsSpec.SortedIsUnique` | drivers/amvdec_ports/decoder/aml_hevc_parser.c:607-623 | an ascending arrangement of distinct deltas is determined by its multiset, used flags included |
| `HevcRps.ChainShape` | drivers/amvdec_ports/decoder/aml_hevc_parser.c:993-1001 | in every chain of accepted sets, set i has at most 31 entries, its negative entries first, and every delta within (15 + i) * 32768 |
| `HevcRps.ChainIsWellFormed` | drivers/amvdec_ports/decoder/aml_hevc_parser.c:540-678 | while no step keeps a zero both halves of every set of the chain move strictly away from the current picture, as the standard's do |
| `HevcRps.ChainMatchesStandard` | drivers/amvdec_ports/decoder/aml_hevc_parser.c:993-1001 | all sets of an accepted SPS are those of the standard if and only if no step of the standard's own chain keeps a zero |
| `HevcRps.StepMatchesStandard` | drivers/amvdec_ports/decoder/aml_hevc_parser.c:540-678 | one accepted set, coded or predicted, equals the standard's if and only if it keeps no zero, and both read the same bits |
| `HevcRpsSyntax.PredictedSetIs` | drivers/amvdec_ports/decoder/aml_hevc_parser.c:553-637 | the standard's predicted set is the one allowed set made of exactly the kept candidates other than the current picture, each reference delta plus delta_rps, or delta_rps itself, with its own used flag |
| `HevcRpsSyntax.DeltaRoundTrip` | drivers/amvdec_ports/decoder/aml_hevc_parser.c:573-579 | delta_rps written as section 7.3.7 has it, sign flag 1 for a negative one, is read back if it is within 2^15, and rejected otherwise |
| `HevcRpsSyntax.FlagsRoundTrip` | drivers/amvdec_ports/decoder/aml_hevc_parser.c:581-587 | used and use_delta flags are read back, with use_delta_flag written only where the picture is not used |
| `HevcRpsSyntax.HalfRoundTrip` | drivers/amvdec_ports/decoder/aml_hevc_parser.c:651-674 | the gaps and used flags of one half come back as its distances, preceding pictures negative, if and only if no gap is beyond 2^15 |
| `HevcRpsSyntax.CodedRoundTrip` | drivers/amvdec_ports/decoder/aml_hevc_parser.c:638-676 | a coded set comes back whole, preceding pictures first, if and only if it has at most 15 pictures on each side and no gap is beyond 2^15; otherwise it is rejected |
| `HevcRpsSyntax.SetsRoundTrip` | drivers/amvdec_ports/decoder/aml_hevc_parser.c:993-1001 | the sets an encoder writes into an SPS, coded or predicted, come back as sections 7.3.7 and 7.4.8 define them if and only if no kept picture cancels delta_rps |
| `HevcRpsSyntax.StdIsWellFormed` | drivers/amvdec_ports/decoder/aml_hevc_parser.c:553-637 | the standard predicts an ordered set from an ordered one |
| `HevcRpsDecoder.KeepIsPick` | drivers/amvdec_ports/decoder/aml_hevc_parser.c:580-598 | the loop over the candidates keeps, in order, those whose flags say so, and counts the negative ones |
| `HevcRpsDecoder.ShortTermRps.KeepCandidates` | drivers/amvdec_ports/decoder/aml_hevc_parser.c:580-598 | the loop over the reference set fills the arrays with the kept deltas and flags from index 0 on, writes no entry beyond the arrays, and counts kept and negative ones |
| `HevcRpsDecoder.ShortTermRps.SinkInto` | drivers/amvdec_ports/decoder/aml_hevc_parser.c:611-622 | one pass of the insertion sort turns a sorted prefix of length i and entry i into the sorted prefix of length i + 1 |
| `HevcRpsDecoder.ShortTermRps.SortUpwards` | drivers/amvdec_ports/decoder/aml_hevc_parser.c:608-623 | the in-place sort leaves SortUp of the entries |
| `HevcRpsDecoder.ShortTermRps.FlipNegatives` | drivers/amvdec_ports/decoder/aml_hevc_parser.c:624-637 | the swap loop reverses the negative prefix and nothing else |
| `HevcRpsDecoder.ShortTermRps.DecodeInter` | drivers/amvdec_ports/decoder/aml_hevc_parser.c:553-637 | the predicted branch over the arrays is ReadInter over the bits |
| `HevcRpsDecoder.ShortTermRps.StoreRun` | drivers/amvdec_ports/decoder/aml_hevc_parser.c:651-674 | one run of coded deltas accumulates into the arrays as ReadRun says |
| `HevcRpsDecoder.ShortTermRps.DecodeExplicit` | drivers/amvdec_ports/decoder/aml_hevc_parser.c:638-676 | the coded branch over the arrays is ReadExplicit over the bits |
| `HevcRpsDecoder.ShortTermRps.Decode` | drivers/amvdec_ports/decoder/aml_hevc_parser.c:540-678 | the whole function over the arrays is DecodeSet over the bits, rejections included |
| `HevcRpsDecoder.DecodeSets` | drivers/amvdec_ports/decoder/aml_hevc_parser.c:993-1001 | the loop over nb_st_rps sets computes DecodeChain, stopping at the first rejected set |
| `HevcScan.Walk8` | drivers/amvdec_ports/decoder/aml_hevc_parser.c:47-83 | the 8x8 tables list the up-right diagonal scan of H.265 section 6.5.3 |
| `HevcScan.Walk4` | drivers/amvdec_ports/decoder/aml_hevc_parser.c:33-45 | the 4x4 tables list the up-right diagonal scan |
| `HevcScan.WalkIsOneToOne` | drivers/amvdec_ports/decoder/aml_hevc_parser.c:33-83 | a table that follows the scan order over all positions repeats none |
| `HevcScan.Onto` | drivers/amvdec_ports/decoder/aml_hevc_parser.c:33-83 | every position of the block is visited |
| `HevcScaling.CoefsInvert` | drivers/amvdec_ports/decoder/aml_hevc_parser.c:517-519 | deltas decode to given coefficients if and only if each is the difference of neighbours modulo 256 |
| `HevcScaling.DeltasDecode` | drivers/amvdec_ports/decoder/aml_hevc_parser.c:517-519 | the 8-bit signed differences of any coefficients decode to them |
| `HevcScaling.ScanRestores` | drivers/amvdec_ports/decoder/aml_hevc_parser.c:509-520 | coefficients listed in scan order come back at every position of their list, and nothing else is written |
| `HevcScaling.DeltasRoundTrip` | drivers/amvdec_ports/decoder/aml_hevc_parser.c:509-520 | the deltas read are the deltas written |
| `HevcScaling.OneRoundTrip` | drivers/amvdec_ports/decoder/aml_hevc_parser.c:479-521 | one coded list, dc included, is restored from its bits over any earlier lists |
| `HevcScaling.ListsRoundTrip` | drivers/amvdec_ports/decoder/aml_hevc_parser.c:477-522 | the coded lists of any scaling data, written one after the other, are all restored from their bits |
| `HevcScalingRef.AcceptedDeltas` | drivers/amvdec_ports/decoder/aml_hevc_parser.c:481-490 | a reference is accepted if and only if the standard allows it or the 32-bit product wraps in the last list |
| `HevcScalingRef.ReferenceIsSettled` | drivers/amvdec_ports/decoder/aml_hevc_parser.c:486-496 | an accepted reference reads a lower-numbered matrix of the same size, coded before if and only if the product did not wrap |
| `HevcScalingRef.CopiedIsInferred` | drivers/amvdec_ports/decoder/aml_hevc_parser.c:492-496 | the copied list is the inference of section 7.4.5: every coefficient and the dc of the matrix that lies delta units before, nothing else |
| `HevcScalingTable.DefaultsAreTables` | drivers/amvdec_ports/decoder/aml_hevc_parser.c:85-104 | the defaults of all 24 matrices, read along the scan, are Tables 7-5 and 7-6: flat for 4x4, intra for matrix_id 0 to 2, inter for 3 to 5, dc 16 |
| `HevcScalingTable.CoefficientPlace` | drivers/amvdec_ports/decoder/aml_hevc_parser.c:509-520 | coefficient i of size_id and matrix_id is stored row by row at the i-th place of the scan |
| `HevcScalingTable.ListOrder` | drivers/amvdec_ports/decoder/aml_hevc_parser.c:477-478 | the lists come in the order of size_id and matrix_id, with matrices 0 and 3 only for size_id 3 |
| `HevcScalingTable.ChromaIs` | drivers/amvdec_ports/decoder/aml_hevc_parser.c:524-535 | with 4:4:4 chroma 32x32 matrices 1, 2, 4 and 5 are those of size 16x16, dc included, and all others stay |
| `HevcScalingTable.DataMatchesStandard` | drivers/amvdec_ports/decoder/aml_hevc_parser.c:469-538 | whatever the driver accepts it decodes as sections 7.3.4 and 7.4.5 define, with or without 4:4:4 chroma, if and only if no list departs |
| `HevcScalingRef.MatchesStandard` | drivers/amvdec_ports/decoder/aml_hevc_parser.c:439-522 | from the defaults, what the decoder rejects sections 7.3.4 and 7.4.5 reject too, and what it accepts it decodes as they define if and only if no list departs: no coded list has a value out of range and the last reference does not wrap |
| `HevcScalingRef.RangesDecide` | drivers/amvdec_ports/decoder/aml_hevc_parser.c:498-521 | the decoder accepts every coded list, the standard those whose dc, deltas and coefficients are in range |
| `HevcScalingRef.OutOfRangeExamples` | drivers/amvdec_ports/decoder/aml_hevc_parser.c:505-519 | a first delta of 128 is accepted, and a dc code of 300 is stored as 52; the standard rejects both |
| `HevcScalingRef.ExplicitAgrees` | drivers/amvdec_ports/decoder/aml_hevc_parser.c:498-521 | in range, the coded list is the one of the formula of section 7.4.5 |
| `HevcScalingDecoder.ScalingList.SetDefault` | drivers/amvdec_ports/decoder/aml_hevc_parser.c:439-467 | every entry of the default lists; the last 48 entries of the 4x4 lists keep what they held |
| `HevcScalingDecoder.ScalingList.ReadCoefs` | drivers/amvdec_ports/decoder/aml_hevc_parser.c:509-520 | the coefficient loop writes the decoded coefficients at their scan positions |
| `HevcScalingDecoder.ScalingList.MoveList` | drivers/amvdec_ports/decoder/aml_hevc_parser.c:492-494 | the copy moves the entries of the reference and keeps all others |
| `HevcScalingDecoder.ScalingList.CopyReference` | drivers/amvdec_ports/decoder/aml_hevc_parser.c:492-496 | the reference list and its dc are copied |
| `HevcScalingDecoder.ScalingList.CopyChroma` | drivers/amvdec_ports/decoder/aml_hevc_parser.c:524-535 | with 4:4:4 chroma the four remaining 32x32 lists are copied from size 16x16 |
| `HevcScalingDecoder.ScalingList.ScalingListData` | drivers/amvdec_ports/decoder/aml_hevc_parser.c:469-538 | the nested loops over the arrays decode exactly as the list-by-list definition does, rejections included |
| `HevcScalingDecoder.BadStays` | drivers/amvdec_ports/decoder/aml_hevc_parser.c:487-490 | a rejected reference rejects all the scaling data |
| `BitReader.UeRoundTrip` | drivers/amvdec_ports/utils/golomb.h:79-88 | the unsigned reader undoes Exp-Golomb coding for 0 to UINT_MAX - 1 and leaves the bits that follow |
| `BitReader.SeRoundTrip` | drivers/amvdec_ports/utils/golomb.h:173-203 | the signed reader undoes signed Exp-Golomb coding |
| `BitReader.BitsRoundTrip` | drivers/amvdec_ports/utils/get_bits.h:314-332 | n bits read, most significant first, are the n bits written |
| `BitReader.ZerosBehind` | drivers/amvdec_ports/utils/get_bits.h:314-332 | behind the end of the data the reader sees zeros |
| `Ge2dSafety.Safety` | drivers/amvdec_ports/aml_vcodec_ge2d.c:383-482 | in every interleaving of push, worker and recycling threads each pool buffer and vframe is in exactly one place, no put is refused, the "can not get" exits are never taken, frames come out in the order they went in, and a worker blocked on sem_out with an output buffer there has a wake-up on its way |
| `Ge2dSafety.StepKeeps` | drivers/amvdec_ports/aml_vcodec_ge2d.c:336-482 | the invariant behind Safety is kept by every step of every actor |
| `Ge2dSafety.QuietMeansDone` | drivers/amvdec_ports/aml_vcodec_ge2d.c:383-482 | in every run, when no actor but decoder and display can move, the worker waits for input with every pushed frame shown and returned, or waits for output with every buffer on display, or stopped on a hardware error |
| `Ge2dSafety.WaitingIsRight` | drivers/amvdec_ports/aml_vcodec_ge2d.c:405-411 | in every run, a worker blocked on sem_out with an output buffer there goes on after at most the two remaining steps of a recycling thread |
| `Ge2dBinding.BindingIsRight` | drivers/amvdec_ports/aml_vcodec_ge2d.c:419-463 | in every run the worker puts back only an output buffer without a capture buffer, converts only into one that has one, and every frame shown or on its way back is in such a buffer |
| `Ge2dBinding.RetryRotates` | drivers/amvdec_ports/aml_vcodec_ge2d.c:419-445 | a failed attempt to bind moves the output buffer from the front of its queue to the end and changes nothing else |
| `Ge2dBinding.RetriesRotate` | drivers/amvdec_ports/aml_vcodec_ge2d.c:402-445 | after k failed attempts the first k output buffers stand behind the others in their old order, so each is tried once before the queue is as it was |
| `Ge2dSafety.InitHolds` | drivers/amvdec_ports/aml_vcodec_ge2d.c:800-807 | the pool set-up establishes the invariant |
| `Ge2dSafety.PushMoves` | drivers/amvdec_ports/aml_vcodec_ge2d.c:919-992 | a push moves input buffers without losing or doubling one |
| `Ge2dSafety.ReturnMoves` | drivers/amvdec_ports/aml_vcodec_ge2d.c:336-366 | a recycling thread gives the buffer and its vframe back without losing or doubling one |
| `Ge2d.Ge2dWrapper.constructor` | drivers/amvdec_ports/aml_vcodec_ge2d.c:800-823 | fills the queues as the machine's initial state has them |
| `Ge2d.Ge2dWrapper.PushVframe` | drivers/amvdec_ports/aml_vcodec_ge2d.c:919-992 | -1 and no change without a free input buffer, otherwise the frame is queued and the worker woken |
| `Ge2d.Ge2dWrapper.VfPut` | drivers/amvdec_ports/aml_vcodec_ge2d.c:336-366 | vframe and buffer go back to the ends of their queues, then sem_out goes up |
| `Ge2d.Ge2dWrapper.GiveBackOutput` | drivers/amvdec_ports/aml_vcodec_ge2d.c:421-445 | without a capture buffer to bind the output buffer returns to the end of its queue |
| `Ge2d.Ge2dWrapper.PopInput` | drivers/amvdec_ports/aml_vcodec_ge2d.c:447-463 | the pop after binding finds the oldest pushed input buffer |
| `Ge2d.Ge2dWrapper.PopFrame` | drivers/amvdec_ports/aml_vcodec_ge2d.c:465-472 | the pop under the mutex finds a vframe |
| `Ge2d.Ge2dWrapper.FillOutputDone` | drivers/amvdec_ports/aml_vcodec_ge2d.c:237-290 | the finished frame is shown once and out_done_q is empty again |
| `Ge2d.Ge2dWrapper.EmptyInputDone` | drivers/amvdec_ports/aml_vcodec_ge2d.c:190-235 | the decoder frame is returned and the input buffer freed |
| `Ge2d.Ge2dWrapper.ThreadPass` | drivers/amvdec_ports/aml_vcodec_ge2d.c:383-482 | one pass pairs the oldest input, output and vframe, shows the frame and returns its source |
| `Vpp.BackPressure` | drivers/amvdec_ports/aml_vcodec_vpp.c:160-170 | over all interleavings in local-buffer mode processing never exceeds min(di_ibuf_num, di_obuf_num) + 1, and its length equals both counter differences when neither side is between its updates |
| `Vpp.BoundIsReached` | drivers/amvdec_ports/aml_vcodec_vpp.c:627-631 | with buffers enough some run reaches that bound, so the plus one is needed |
| `Vpp.NothingIsLost` | drivers/amvdec_ports/aml_vcodec_vpp.c:592-823 | over all interleavings no put is refused, every answer finds the pair handed over first, the "can not get" exits stay closed and a waiting worker will be woken |
| `VppOrder.FirstPushedFirstServed` | drivers/amvdec_ports/aml_vcodec_vpp.c:688-695 | in every run the deinterlacer gets the input buffers in the order they were pushed, and its answers meet the pairs in the order they were handed over |
| `VppOrder.QuietMeansDone` | drivers/amvdec_ports/aml_vcodec_vpp.c:605-703 | in every run, when only decoder, deinterlacer and display can still move, every pushed frame was given to the deinterlacer or no output buffer is left |
| `VppOrder.WaitingIsRight` | drivers/amvdec_ports/aml_vcodec_vpp.c:617-621 | in every run a worker blocked on sem_out with an output buffer there goes on, at the latest after the up that a return still owes |
| `VppBinding.BindingIsRight` | drivers/amvdec_ports/aml_vcodec_vpp.c:641-686 | in every run an output buffer is put back only for interlaced frames and only without a capture buffer; interlaced frames are held and shown in bound buffers only |
| `VppBinding.RetriesRotate` | drivers/amvdec_ports/aml_vcodec_vpp.c:617-667 | after k failed attempts to bind the first k output buffers stand behind the others in their old order |
| `VppPools.PoolsConserved` | drivers/amvdec_ports/aml_vcodec_vpp.c:592-823 | over all interleavings every output buffer and every input buffer is in exactly one place |
| `VppPools.StepMoves` | drivers/amvdec_ports/aml_vcodec_vpp.c:172-333 | no step of any actor loses or doubles a buffer |
| `Vpp.HandKeeps` | drivers/amvdec_ports/aml_vcodec_vpp.c:671-823 | pairing, queueing, feeding and counting keep the invariant |
| `Vpp.AnswerKeeps` | drivers/amvdec_ports/aml_vcodec_vpp.c:196-249 | each step of the callback keeps the invariant |
| `Vpp.VppWrapper.TryOutput` | drivers/amvdec_ports/aml_vcodec_vpp.c:621-640 | a full port changes nothing, otherwise the first output buffer is taken |
| `Vpp.VppWrapper.GiveBackOutput` | drivers/amvdec_ports/aml_vcodec_vpp.c:641-667 | without a capture buffer the output buffer goes to the end of its queue and the worker looks again |
| `Vpp.VppWrapper.PopInput` | drivers/amvdec_ports/aml_vcodec_vpp.c:688-703 | the oldest pushed input buffer and a vframe are there |
| `Vpp.VppWrapper.HandOver` | drivers/amvdec_ports/aml_vcodec_vpp.c:785-822 | the pair is queued before the input is fed, both counters go up after |
| `Vpp.VppWrapper.FillOutputDone` | drivers/amvdec_ports/aml_vcodec_vpp.c:172-252 | the oldest pair is shown, its input freed in progressive mode, both counters go up |
| `Vpp.VppWrapper.VfPut` | drivers/amvdec_ports/aml_vcodec_vpp.c:529-574 | buffer and vframe go back and the worker is woken |
| `StartCode.FindStartCode` | drivers/amvdec_ports/decoder/aml_mpeg12_parser.c:53-81 | the jumping search returns the position and 32-bit state of the byte-by-byte shift register, for every buffer and state |
| `StartCode.FreshScanFindsFirst` | drivers/amvdec_ports/decoder/aml_mpeg12_parser.c:53-81 | from the fresh state the search stops after the first start code, and reports none only if there is none |
| `StartCode.ScanPieces` | drivers/amvdec_ports/decoder/aml_mpeg12_parser.c:53-81 | searching two pieces with the carried state is searching their concatenation |
| `StartCode.Jump` | drivers/amvdec_ports/decoder/aml_mpeg12_parser.c:66-72 | no byte that a jump skips could have ended a start code |
| `MjpegUnescape.UnescapeScan` | drivers/amvdec_ports/decoder/aml_mjpeg_parser.c:71-119 | the lagging-pointer loop outputs exactly the byte transducer's output, never more than it consumed |
| `MjpegUnescape.UnescapeUndoesStuffing` | drivers/amvdec_ports/decoder/aml_mjpeg_parser.c:71-119 | data stuffed as in T.81 section B.1.1.5, with RSTm markers and fill bytes, closed by another marker, comes back as data and RST markers followed by one FF |
| `MjpegUnescape.ZeroAfterRun` | drivers/amvdec_ports/decoder/aml_mjpeg_parser.c:86-110 | a run of FFs before a zero turns into one FF if and only if it is a single FF, otherwise into FF 00 |
| `MjpegUnescape.RunAtEnd` | drivers/amvdec_ports/decoder/aml_mjpeg_parser.c:86-114 | a run of FFs that ends the buffer leaves nothing if and only if it is a single FF, otherwise one FF |
| `MjpegUnescape.RunExamples` | drivers/amvdec_ports/decoder/aml_mjpeg_parser.c:86-114 | FF FF 00 gives FF 00, a lone trailing FF gives nothing |
| `MjpegUnescape.MarkerDecides` | drivers/amvdec_ports/decoder/aml_mjpeg_parser.c:105-110 | FFs followed by D0 to D7 pass and the scan goes on; followed by 01 to CF or D8 to FE they end the output with one FF |
| `MjpegUnescape.TailIsIgnored` | drivers/amvdec_ports/decoder/aml_mjpeg_parser.c:71-119 | nothing behind the first marker that is not RSTn changes the output |
| `MjpegUnescape.EndOfImageExample` | drivers/amvdec_ports/decoder/aml_mjpeg_parser.c:105-110 | 11 FF D9 22 gives 11 FF |
| `MjpegUnescape.Output.CopyRun` | drivers/amvdec_ports/decoder/aml_mjpeg_parser.c:89-113 | one run of FFs copies what the transducer outputs for it |
| `MjpegUnescape.Output.CopyPiece` | drivers/amvdec_ports/decoder/aml_mjpeg_parser.c:83-116 | one turn of the loop outputs what the transducer does for the byte or the run |
| `MjpegUnescape.FindMarker` | drivers/amvdec_ports/decoder/aml_mjpeg_parser.c:35-59 | the returned marker is the first FF followed by C0 to FE, and -1 means there is none |
| `MjpegUnescape.MarkerIsFound` | drivers/amvdec_ports/decoder/aml_mjpeg_parser.c:35-59 | behind bytes without FF and any fill bytes the first marker is where it was written, if its code is C0 to FE |
| `MjpegLs.UnescapeLs` | drivers/amvdec_ports/decoder/aml_mjpeg_parser.c:124-165 | the JPEG-LS branch outputs the destuffed bits of the scan, padded to bytes, of size ceil((8t - pairs) / 8) |
| `MjpegLs.FindScanEnd` | drivers/amvdec_ports/decoder/aml_mjpeg_parser.c:131-142 | the marker search stops where the recursive definition of the end of the scan does |
| `MjpegLs.DestuffUndoesStuff` | drivers/amvdec_ports/decoder/aml_mjpeg_parser.c:146-160 | destuffing gives back any bit string stuffed as in T.87, up to padding of the final byte |
| `MjpegLs.ScanEndOfStuffed` | drivers/amvdec_ports/decoder/aml_mjpeg_parser.c:131-142 | the scan found for stuffed data ends at the marker, with fill bytes before the marker taken as data |
| `MjpegLs.ScanEndWithoutMarker` | drivers/amvdec_ports/decoder/aml_mjpeg_parser.c:131-142 | without a marker the scan is the whole buffer |
| `MjpegLs.ScanEndCutOff` | drivers/amvdec_ports/decoder/aml_mjpeg_parser.c:131-142 | a buffer cut off within a marker: a single FF at its end takes the last byte of the scan with it, of more FFs two are dropped |
| `MjpegLs.UnescapeLsUndoesStuffing` | drivers/amvdec_ports/decoder/aml_mjpeg_parser.c:124-165 | the whole branch undoes stuffing of a scan closed by a marker |
| `MjpegLs.BitsComeBack` | drivers/amvdec_ports/decoder/aml_mjpeg_parser.c:124-165 | the original bits come back, up to padding, if and only if the closing marker has no fill bytes |
| `MjpegLs.DestuffSize` | drivers/amvdec_ports/decoder/aml_mjpeg_parser.c:144-163 | the number of bits output is 8t less one per FF pair |
| `Vp9Superframe.AcceptedFramesTile` | drivers/amvdec_ports/decoder/vdec_vp9_if.c:624-708 | the frames of an accepted index tile a prefix of the data, back to back, and end before the index |
| `Vp9Superframe.SplitUndoesJoin` | drivers/amvdec_ports/decoder/vdec_vp9_if.c:624-708 | for 1 to 8 frames with a well-formed Annex B index the parser returns exactly the frame sizes |
| `Vp9Superframe.SuperframeIs` | drivers/amvdec_ports/decoder/vdec_vp9_if.c:639-676 | the data is accepted as a superframe of these sizes if and only if it is some bytes, the marker for their width and number, the sizes in little-endian entries and the marker again, with room for all frames |
| `Vp9Superframe.IndexDecides` | drivers/amvdec_ports/decoder/vdec_vp9_if.c:639-676 | data with an index is split as the index says, or rejected if and only if a size is beyond a C int or the frames do not fit before the index |
| `Vp9Superframe.UnmarkedIs` | drivers/amvdec_ports/decoder/vdec_vp9_if.c:640 | the data is one plain frame if and only if its last byte is not C0 to DF |
| `Vp9Superframe.MarkersAre` | drivers/amvdec_ports/decoder/vdec_vp9_if.c:640-643 | the markers are C0 to DF, one for each width from 1 to 4 and number of frames from 1 to 8 |
| `Vp9Superframe.PrefixIsSeen` | drivers/amvdec_ports/decoder/vdec_vp9_if.c:629-637 | data that was framed before is recognised by its header |
| `Vp9Superframe.NoIndexIs` | drivers/amvdec_ports/decoder/vdec_vp9_if.c:639-676 | the outcome without an index: the last byte is a marker and the data is too short for its index or the index does not begin with that byte |
| `Vp9Superframe.NoIndexExample` | drivers/amvdec_ports/decoder/vdec_vp9_if.c:639-676 | the single byte C0 has that outcome |
| `Vp9Superframe.SuperframeSplit.Filter` | drivers/amvdec_ports/decoder/vdec_vp9_if.c:624-708 | accepted, single-frame, unmatched-index and invalid outcomes, with nb_frames, size and sizes in each, and prefix_size when the data already has a header |
| `Vp9Superframe.SuperframeSplit.ReadIndex` | drivers/amvdec_ports/decoder/aml_vp9_parser.c:229-249 | the index loop fills sizes as the recursive reader does and rejects an entry that runs over |
| `Vp9Superframe.FrameInConcat` | drivers/amvdec_ports/decoder/vdec_vp9_if.c:650-664 | frame i of a joined superframe starts at the sum of the earlier sizes |
| `Vp9Prefix.AddPrefixData` | drivers/amvdec_ports/decoder/vdec_vp9_if.c:570-621 | the back-to-front moves leave header and bytes of every frame, in order |
| `Vp9Prefix.PlaceFrame` | drivers/amvdec_ports/decoder/vdec_vp9_if.c:590-617 | one round moves one frame behind its header and overwrites no byte of the earlier ones |
| `Vp9Prefix.MemMove` | drivers/amvdec_ports/decoder/vdec_vp9_if.c:595 | an overlapping move copies the old bytes and keeps the rest |
| `Vp9Prefix.FramedLength` | drivers/amvdec_ports/decoder/vdec_vp9_if.c:577 | the framed data is the frames plus 16 bytes for each |
| `Vp9Prefix.UnframeUndoesFraming` | drivers/amvdec_ports/decoder/vdec_vp9_if.c:570-621 | reading the headers back recovers the original frames |
| `Vp9Prefix.SuperframeSurvives` | drivers/amvdec_ports/decoder/vdec_vp9_if.c:570-708 | splitting a joined superframe, framing it and reading the headers gives the frames that were joined |
| `Bytes.AmlvRoundTrip` | drivers/amvdec_ports/decoder/vdec_vp9_if.c:598-616 | the 16-byte header passes its own check and gives its size back |
| `Bytes.HeaderBytes` | drivers/amvdec_ports/decoder/vdec_vp9_if.c:598-616 | byte by byte: the size most significant byte first, each of these bytes inverted, 00 00 00 01, "AMLV" |
| `Bytes.HeaderIsChecked` | drivers/amvdec_ports/decoder/vdec_vp9_if.c:598-616 | the check of the redundant part accepts exactly the headers that are written |
| `Av1Leb.UlebSizeInBytes` | drivers/amvdec_ports/decoder/vdec_av1_if.c:542-551 | the length of the shortest LEB128 code |
| `Av1Leb.UlebDecode` | drivers/amvdec_ports/decoder/vdec_av1_if.c:553-584 | the value and length of the number the bytes start with, or an error when it does not end in 8 bytes or overflows the word |
| `Av1Leb.UlebEncode` | drivers/amvdec_ports/decoder/vdec_av1_if.c:586-609 | the LEB128 code of the value, or an error when it is above the maximum or does not fit |
| `Av1Leb.DecodeUndoesEncode` | drivers/amvdec_ports/decoder/vdec_av1_if.c:553-609 | every encodable value decodes to itself with its length, whatever follows |
| `Av1Leb.EncodedIsShortest` | drivers/amvdec_ports/decoder/vdec_av1_if.c:586-609 | no other code of the value is shorter |
| `Av1Leb.FixedSizeDecodes` | drivers/amvdec_ports/decoder/vdec_av1_if.c:831-835 | the 4-byte size field decodes to the size if and only if it is below 2^28 |
| `Av1Obu.ReadObuHeaderAndSize` | drivers/amvdec_ports/decoder/vdec_av1_if.c:637-752 | accepts exactly the headers of sections 5.3.1 and 5.3.2 with a size field, and returns type, header length and payload length |
| `Av1Obu.CheckOrder` | drivers/amvdec_ports/decoder/vdec_av1_if.c:845-974 | the order flag tells whether an OBU may follow those before it, and when the frame is finished |
| `Av1Obu.ParserFrame` | drivers/amvdec_ports/decoder/vdec_av1_if.c:754-980 | returns 0 if and only if the input is a sequence of OBUs in an allowed order; it is then consumed entirely, the output is a 20-byte header and the bytes of each, and frame_len is its length as a u32 |
| `Av1Obu.OutputLength` | drivers/amvdec_ports/decoder/vdec_av1_if.c:837-843 | frame_len is the input size plus 20 for each OBU |
| `Av1Obu.JudgeIsInPlace` | drivers/amvdec_ports/decoder/vdec_av1_if.c:845-891 | the flag kept by the loop says whether a frame header came since the last temporal delimiter |
| `Av1Obu.ReceiveUndoesOutput` | drivers/amvdec_ports/decoder/vdec_av1_if.c:806-840 | a receiver that reads the 16-byte headers and the size field recovers the bytes of each OBU from the whole output if and only if each OBU is below 2^28 - 4 bytes |
| `Av1Obu.ParsedIsReceived` | drivers/amvdec_ports/decoder/vdec_av1_if.c:754-980 | an accepted input, parsed and received, comes back whole, cut into its OBUs |
| `Av1Syntax.HeadIs` | drivers/amvdec_ports/decoder/vdec_av1_if.c:655-705 | an OBU header is accepted if and only if it is one that section 5.3.2 writes: forbidden bit 0, a type that is not reserved, the extension flag with three bits of temporal_id and two of spatial_id, the size flag set, reserved bits 0 |
| `Av1Syntax.ObuRoundTrip` | drivers/amvdec_ports/decoder/vdec_av1_if.c:707-752 | every written OBU, with or without extension and whatever follows, is read back with its type, header length and payload length |
| `Av1Syntax.ObuIs` | drivers/amvdec_ports/decoder/vdec_av1_if.c:707-752 | what is accepted as an OBU is such a header, a readable size and all the bytes it announces |
| `Av1Syntax.SplitUndoesWrite` | drivers/amvdec_ports/decoder/vdec_av1_if.c:754-980 | written OBUs are cut apart where they were joined |
| `Av1Syntax.StreamAccepted` | drivers/amvdec_ports/decoder/vdec_av1_if.c:845-974 | temporal units are accepted if and only if in each no tile group or redundant header comes before the first frame header and no sequence header or whole frame behind it, and the last may stop where it does |
| `Av1Syntax.WrittenIsGood` | drivers/amvdec_ports/decoder/vdec_av1_if.c:754-980 | parser_frame accepts the written OBUs if and only if their types are in that order |
| `Av1Syntax.DelimiterExample` | drivers/amvdec_ports/decoder/vdec_av1_if.c:754-980 | 12 00, a temporal delimiter, is accepted |
| `TaskChainSpec.AttachedMapsWalk` | drivers/amvdec_ports/aml_task_chain.c:286-315 | after attaching distinct types t1..tn map[0] walks from tn to t1 and map[1] from t1 to tn |
| `TaskChainSpec.ReattachedMapsWalk` | drivers/amvdec_ports/aml_task_chain.c:263-315 | the same after a clean and a new attachment on the same chain |
| `TaskChainSpec.PopUndoesPush` | drivers/amvdec_ports/aml_task_chain.c:84-110 | pop gives the pushed frame back and restores the slots if and only if the first slot was free |
| `TaskChainSpec.WalkReturnsAll` | drivers/amvdec_ports/aml_task_chain.c:131-195 | a full submit walk and a full recycle walk hand each owner its own frame and leave all slots as they were if and only if every first slot was free |
| `TaskChainSpec.WalksHandOn` | drivers/amvdec_ports/aml_task_chain.c:131-195 | the submit walk calls fill_buffer of the items in the reverse of the order they were attached in and leaves the first attached the only active one; the recycle walk then leaves the last attached the only active one |
| `TaskChainSpec.SubmitFills` | drivers/amvdec_ports/aml_task_chain.c:147-150 | a submit by an item fills the one attached just before it |
| `TaskChainSpec.RecycleHands` | drivers/amvdec_ports/aml_task_chain.c:177-183 | a recycle by an item goes back to the one attached just behind it |
| `TaskChainSpec.AttachedChainReturnsAll` | drivers/amvdec_ports/aml_task_chain.c:84-195 | on a chain as it was attached both walks go through the items in order, hand each owner its own frame and leave all slots free |
| `TaskChainSpec.PopTakesFirst` | drivers/amvdec_ports/aml_task_chain.c:96-110 | a pop returns the first outstanding frame and keeps the order of the others |
| `TaskChainSpec.PushKeepsOrder` | drivers/amvdec_ports/aml_task_chain.c:84-94 | a new frame queues up behind the outstanding ones of its owner if and only if no free slot lies before a used one |
| `TaskChainSpec.OvertakingExample` | drivers/amvdec_ports/aml_task_chain.c:84-110 | two frames out, one back, a third out: the third returns before the second |
| `TaskChainSpec.NoneOrFull` | drivers/amvdec_ports/aml_task_chain.c:84-110 | a pop without an outstanding frame gives null, a push with three loses its frame, and the slots stay |
| `TaskChainSpec.AttachedSlots` | drivers/amvdec_ports/aml_task_chain.c:286-315 | an attached item holds no frame and is not active |
| `TaskChainSpec.SlotWalk` | drivers/amvdec_ports/aml_task_chain.c:131-195 | the slots of one item over both walks |
| `TaskChain.TaskItem.VframePush` | drivers/amvdec_ports/aml_task_chain.c:84-94 | the first free slot takes the frame; a full item changes nothing |
| `TaskChain.TaskItem.VframePop` | drivers/amvdec_ports/aml_task_chain.c:96-110 | the first used slot is emptied and returned |
| `TaskChain.Chains.AttachItem` | drivers/amvdec_ports/aml_task_chain.c:286-315 | maps, current item, slots and active flag after an attachment; an item of a type attached before is hidden by the new one |
| `TaskChain.Chains.SubmitBuffer` | drivers/amvdec_ports/aml_task_chain.c:131-162 | push into the own item, fill_buffer of the next one, active flags included |
| `TaskChain.Chains.RecycleBuffer` | drivers/amvdec_ports/aml_task_chain.c:164-195 | the previous item gets its frame back, active flags included |
| `TaskLifetime.LifetimeIsRight` | drivers/amvdec_ports/aml_task_chain.c:232-283 | in every order of attach, get, put, one clean per item and release the count is the live items plus the creator, and the chain is destroyed once, when both are gone |
| `TaskLifetime.CleanIsRightWhenFirst` | drivers/amvdec_ports/aml_task_chain.c:263-274 | a clean keeps every reference owned if and only if no listed item was cleaned before |
| `TaskLifetime.SecondCleanExample` | drivers/amvdec_ports/aml_task_chain.c:263-274 | after an attachment, a lookup and a clean, a second clean takes away the reference of the lookup |
| `TaskLifetime.StepKeeps` | drivers/amvdec_ports/aml_task_chain.c:55-129 | each operation keeps every reference owned by one holder |
| `TaskLifetime.Counts.TaskOrderAttach` | drivers/amvdec_ports/aml_task_chain.c:286-315 | a new item holds the chain and the list holds the item |
| `TaskLifetime.Counts.FindTaskItem` | drivers/amvdec_ports/aml_task_chain.c:55-80 | a lookup takes one reference to the item it returns, and none without an item |
| `TaskLifetime.Counts.TaskItemPut` | drivers/amvdec_ports/aml_task_chain.c:126-129 | the last put removes the item from the list and puts the chain |
| `TaskLifetime.Counts.TaskChainClean` | drivers/amvdec_ports/aml_task_chain.c:263-274 | one reference of every listed item is given up; every reference keeps its owner if and only if none was cleaned before |
| `TaskLifetime.Counts.TaskChainRelease` | drivers/amvdec_ports/aml_task_chain.c:277-283 | the creator's reference is given up |
| `CapturePoolSafety.SessionIsRight` | drivers/amvdec_ports/aml_vcodec_dec.c:1057-1316 | in every run of a session that starts with fresh tokens each queued buffer is in exactly one of ready queue, token table and allocated set, none is lost, dec, vpp and ge2d count the allocations of each requester, and dec + vpp + ge2d == out == buf_used_count <= in <= 32 |
| `CapturePoolSafety.SeqIsTheLog` | drivers/amvdec_ports/aml_vcodec_dec.c:1295-1296 | seq holds the allocations in order, status 2, 3 or 4 for decoder, vpp or ge2d above the index, then the queueings not overwritten yet, status 1, all at indices in range |
| `CapturePoolSafety.FirstQueuedFirstServed` | drivers/amvdec_ports/aml_vcodec_dec.c:1073-1080 | in every run buffers are handed out in the order in which they were queued |
| `CapturePoolSafety.OffMovesNothing` | drivers/amvdec_ports/aml_vcodec_dec.c:1124-1142 | while streaming is off neither a query nor an allocation moves a buffer |
| `CapturePoolSafety.AllocNeedsToken` | drivers/amvdec_ports/aml_vcodec_dec.c:1252-1316 | from a sound state an allocation keeps every buffer in one place if and only if the table holds its token |
| `CapturePoolSafety.FreshTokensNeeded` | drivers/amvdec_ports/aml_vcodec_dec.c:1057-1097 | all runs of a session are sound if and only if no requester starts with the handle of one of its buffers |
| `CapturePoolSafety.InsertKeeps` | drivers/amvdec_ports/aml_vcodec_dec.c:1057-1097 | a query keeps the invariant; the full-table exit is never taken |
| `CapturePoolSafety.AllocKeeps` | drivers/amvdec_ports/aml_vcodec_dec.c:1252-1316 | an allocation after a successful query keeps the invariant |
| `CapturePoolSafety.QueueKeeps` | drivers/amvdec_ports/aml_vcodec_dec.c:4254-4289 | queueing a capture buffer keeps the invariant |
| `CapturePoolSpec.TableHasRoom` | drivers/amvdec_ports/aml_vcodec_dec.c:1075-1089 | while a buffer is ready the token table has a free entry |
| `CapturePool.Context.TokenRemove` | drivers/amvdec_ports/aml_vcodec_dec.c:1099-1112 | the first entry holding the token is cleared |
| `CapturePool.Context.TokenClean` | drivers/amvdec_ports/aml_vcodec_dec.c:1113-1122 | all entries are cleared |
| `CapturePool.Context.Query` | drivers/amvdec_ports/aml_vcodec_dec.c:1057-1142 | true if and only if streaming and the token is in the table or a buffer is ready, with the token that results |
| `CapturePool.Context.Alloc` | drivers/amvdec_ports/aml_vcodec_dec.c:1252-1316 | -1 when streaming is off or the token is null; otherwise the buffer of the token, counted and recorded, and each buffer stays in one place if and only if the table held the token |
| `CapturePool.Context.BufQueue` | drivers/amvdec_ports/aml_vcodec_dec.c:4254-4289 | a buffer that is not in m2m yet is recorded and made ready, another leaves the pool alone |
| `CapturePool.Context.StopStreaming` | drivers/amvdec_ports/aml_vcodec_dec.c:4646-4691 | everything but the requesters' tokens is as at the start of a session |
| `PageStats.TotalIsWindow` | drivers/amvdec_ports/aml_vcodec_dec.c:1237-1240 | for each window size and samples below 4096 pages the incremental total is the sum of the last min(m, d) samples after any m recycles if and only if d divides 2^32; for all sizes until recycle_num wraps |
| `PageStats.LoneIsWrong` | drivers/amvdec_ports/aml_vcodec_dec.c:1228-1240 | samples for which the wrap of recycle_num leaves the total wrong |
| `PageStats.MaxIsMax` | drivers/amvdec_ports/aml_vcodec_dec.c:1241-1243 | for samples below 4096 pages the recorded maximum is attained by a window seen and exceeded by none |
| `PageStats.SumIsAll` | drivers/amvdec_ports/aml_vcodec_dec.c:1234 | used_page_sum is the sum of all samples modulo 2^64 |
| `PageStats.BumpIsIncrement` | drivers/amvdec_ports/aml_vcodec_dec.c:1235 | the increment hits the word of the record that many places behind the start of the histogram, and no other |
| `PageStats.SpreadCounts` | drivers/amvdec_ports/aml_vcodec_dec.c:1235 | entry mb of the histogram counts the frames of mb * 256 up to (mb + 1) * 256 pages, for all samples |
| `PageStats.SpreadSums` | drivers/amvdec_ports/aml_vcodec_dec.c:1235-1245 | the histogram sums to recycle_num if and only if every sample is below 4096 pages |
| `PageStats.RightBelowLimit` | drivers/amvdec_ports/aml_vcodec_dec.c:1223-1250 | until recycle_num wraps, histogram and total are right throughout a run if and only if every sample is below 4096 pages |
| `PageStats.LimitDecides` | drivers/amvdec_ports/aml_vcodec_dec.c:1235-1240 | the total is right for all runs of samples below a limit if and only if the limit is at most 4096 |
| `PageStats.BigSampleExample` | drivers/amvdec_ports/aml_vcodec_dec.c:1235-1240 | a sample of 4096 pages increments the first word of the ring and leaves the total one short |
| `PageStats.SettledStep` | drivers/amvdec_ports/aml_vcodec_dec.c:1237-1245 | one recycle of less than 4096 pages replaces the oldest sample of the window, without 32-bit overflow |
| `PageStats.CompressedBufferInfo.CalCompressBuffInfo` | drivers/amvdec_ports/aml_vcodec_dec.c:1223-1250 | one call is one step of the statistics, whatever the page count, and none when counting is off |

## Left out

- Hardware, firmware, canvas, DI and GE2D programming, file dumps, tracing, sysfs, ioctl forwarding, get/set of parameters: no logic to prove.
- Kernel primitives: allocation always succeeds; lists, kfifo, semaphores, mutexes and krefs are their usual meaning; waits are not interrupted.
- The slice-header form of `ff_hevc_decode_short_term_rps`: the only caller in the driver parses the SPS. The rest of the SPS, PPS and VUI is field reading.
- `nb_st_rps` above 64 is rejected before the loop and is not part of `DecodeSets`.
- WellFormed: has no limit on the number of pictures; the driver accepts 15 negative and 15 positive ones, the standard no more than the picture buffer holds.
- SeRoundTrip: holds for the reader of section 9.2.2 of H.265; see ReadSe for long codes.
- ReadSe: follows section 9.2.2 of H.265, which the tables and the long path of `get_se_golomb` implement; a code of more than 25 bits, which the 32-bit cache cannot hold at every alignment, is not modelled more closely.
- ReadBits: the reader is the sequence of bits not read yet and zeros after the end, not a buffer with an index.
- WithDc: a coded dc is kept modulo 256 as the array does; signed overflow of `get_se_golomb() + 8` is not modelled.
- ScalingListData: the lists of a rejected SPS are not described, the caller drops them.
- GE2D and VPP: stream-off, reset, end-of-stream flags, thread exit and destruction; the contents of the frames.
- VPP progressive bypass, S4 and user-buffer modes: in bypass the input buffer is not put back, so pool conservation does not hold there.
- VPP: the deinterlacer answers each input at most once, one callback at a time; `output_lock` sections and the two queue puts of a return are single steps; `in_num` and `out_num` do not wrap.
- `mpegvideo_extract_headers` beyond its use of the search: it reads fields.
- PutBits: the 32-bit cache of `put_bits` is the bits written so far.
- Filter: an absent or empty buffer, for which the code returns an error or reads before the start, and what it reads past the end in its test for a header when the data has fewer than 16 bytes.
- ParserFrame: Annex B input, input of 4 GiB and more, the metadata that is extracted on the side, and the size of the caller's output buffer; frame_len starts at 0.
- `vp9_decode_extradata_ps`: it assigns the frame offset instead of adding to it, so it has no tiling to prove.
- SubmitBuffer: what an owner does with a frame it is handed is the caller's; names, traces and the direction the traces show are left out, and lookups are counted in `TaskLifetime` only; items hidden by a second attachment of their type are not followed.
- CapturePool: three requesters with one token each; `num_buffers` is at most 32, as vb2 limits it; dma-buf binding and the recycle branch of `vb2ops_vdec_buf_queue` do not touch the pool; stop_streaming is one step.
- `fb_map_table_hold` and `fb_map_table_fetch`: hold takes the first empty slot even when the address exists later, so they do not form a map.
- CalCompressBuffInfo: `dpb_size` is constant; an increment past the end of the record (12800 pages and more) is counted, its effect is not modelled.
- PopUndoesPush: says nothing of frames whose address is null, which the slots cannot hold.
- The average printed by `aml_compressed_info_show`, the H.264 and MPEG-4 header parsers, vendor string sniffing and static tables.
