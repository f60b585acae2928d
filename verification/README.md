# Verified models of the OpenMT codecs, host protocols and receivers

This project models the parts of OpenMT in which a mistake is hard to see and proves what they
are for. `dafny verify dfyconfig.toml` checks all of it.

**Reed-Solomon codes.** `Field.dfy` fixes what a field of characteristic two is, with polynomial
evaluation; `PrimitiveField.dfy` builds one from a symbol whose powers run through all nonzero
symbols. That is done for the six bit symbols of P25 (`Gf64.dfy`, where multiplication is the
shift-and-add loop), for bytes (`Gf256.dfy`, where it is the sum of two logarithms from a table)
and for any primitive polynomial (`ReedSolomon.dfy`; `PrimitiveTest.dfy` says what the construction's
test for one is worth). `Codes.dfy` holds the distance argument all
codes share and `ShiftRegister.dfy` the division every shift register encoder performs.
`KeyEquation.dfy` and `ErrorValues.dfy` are the theory of Berlekamp-Massey, Chien and Forney;
`Rs6.dfy` is the decoder itself, loop by loop, with arrays. `Matrices.dfy` and `Encoders.dfy` show
that every row of the three generator matrices is a code word. `Rs129.dfy` is the (12,9) code.
`Bits.dfy` says which bits of the packed buffers are a symbol, as binary digits of the bytes.

**Trellis codes.** `TrellisCode.dfy` is the state machine of both rates, the check and the repair
search; `TrellisBurst.dfy` the interleaving, the gap of a DMR burst and the payload.

**Flow control.** `FlowHost.dfy` is the host's credit and request record, `FlowControl.dfy` the
protocol: a channel that keeps order, a modem with a bounded sample buffer, and status replies (and
frames and requests) that may be lost. Its runs are all sequences of steps.

**Serial reader, bridge and rings.** `FrameReader.dfy` is the receive buffer with compaction and
resynchronisation, over every way the bytes can arrive; `RingBuffer.dfy`, `BitRing.dfy` and
`Bridge.dfy` are the queues and the control and relay frames in them.

**Signal processing.** `Fir.dfy`, `Interpolator.dfy` and `Biquad.dfy` are the integer kernels;
`SampleReceiver.dfy` and `BitReceiver.dfy` the two 4FSK receivers. Both keep, as part of what is
always true, that their state and what they have told is what the signal alone determines;
`SampleSessions.dfy` and `BitSessions.dfy` are whole sessions, from the first sync word to the loss.
`BitWindow.dfy` is the 64 bit window of the bit receiver. `CrcTables.dfy` and `Crc.dfy` are the two
CRC-CCITT checksums and `CrcDivision.dfy` their meaning as polynomials. `Words.dfy` is the
arithmetic of machine words.

Code that works in place is a method with the same loops over arrays or over the fields of a class,
proved against a specification function; the lemmas are about those functions.

Properties that turned out to need a condition:

- A status reply that arrives after the request record was forgotten, or a record that overflows
  while the reply to its oldest request can still arrive, breaks the credit. `ResyncMatch` and
  `AskMatch` say exactly when matching survives; `ResyncTooSoon` is a run in which the modem refuses
  a frame.
- The construction test for a primitive polynomial (`tools/RS.h:352-354`) says it rejects every
  other polynomial. It accepts every walk that is back at one after NN steps (`BuildTables`). An
  accepted polynomial is primitive exactly when the last symbol of the walk is not zero and the
  walk was not back at one after a proper divisor of NN steps (`AcceptedPrimitive`). Both families
  exist: a four bit polynomial of order five (`NotPrimitiveAccepted`), and x^2 over two bit
  symbols, whose walk passes through zero (`ZeroWalkAccepted`).
- The trellis repair (`tools/fec_tools.c:4247-4274`) returns false when it finds no code word in
  twenty rounds. Every round gets at least one point further, so that can only happen when it
  begins before the thirtieth point: a burst in which the state machine stops later is always
  accepted, with at most twenty points changed (`Fix`).
- A frame whose size equals the free space of the command queue passes the caller's test and
  empties the queue (`RelayToBridge`).
- A relay frame around a service frame of fewer than four bytes is built but not recognised again
  (`RelayRoundTrip`).

Numbers of the matrices are written in decimal where the source has octal; their identity part is
constructed. Six bit symbols are a six bit type. Sixteen, 32 and 64 bit wrap-around is written out
where the code can reach it. Files, sockets, clocks and the radio are parameters: what a read or a
poll returns, whether a rate limit has passed, whether a buffer has room.

## Model

| member | source | states |
|---|---|---|
| Gf64.Gf6Mult | tools/fec_tools.c:3677-3693 | the six shift-and-add rounds give the product of the field with 64 elements |
| Gf64.XIsPrimitive | tools/fec_tools.c:3498-3504 | the powers of x reach one again only after 63 steps, which is what the tables rely on |
| Gf256.ExpIsPower | tools/fec_tools.c:1330-1362 | every entry of the antilog table is the power of x of its index |
| Gf256.Gmult | tools/fec_tools.c:1443-1452 | adding logarithms multiplies, for all pairs of bytes |
| PrimitiveField.FieldLaws | tools/RS.h:340-354 | a symbol whose powers run through all nonzero symbols makes a field |
| Codes.FewSymbolsVanish | tools/fec_tools.c:3511-3522 | a word with at most d nonzero symbols that vanishes at d consecutive powers is zero: the distance bound |
| Rs6Spec.MinimumDistance | tools/fec_tools.c:3511-3522 | two words with the same par syndromes that differ in at most par symbols are equal |
| Rs6Spec.UniqueCorrection | tools/fec_tools.c:3511-3625 | at most one code word is within par / 2 of any word |
| Bits.BitIsDigit | tools/fec_tools.c:28-31 | bit i of a buffer is the binary digit of byte i / 8 with the place value 2^(7 - i % 8) |
| Bits.SymbolIsNumber | tools/fec_tools.c:3051-3063 | the symbol at a bit offset is those six binary digits of the buffer read as one big endian number |
| Bits.Bin2Hex | tools/fec_tools.c:3051-3063 | the loop returns that number |
| Bits.Hex2Bin | tools/fec_tools.c:3078-3086 | writing a symbol is the inverse of reading it, and no other bit moves |
| Rs6.ComputeSyndromes | tools/fec_tools.c:3510-3522 | the syndromes are the word's values at alpha to alpha^par; all zero exactly for code words |
| KeyEquation.SameDiscrepancy | tools/fec_tools.c:3524-3555 | two generators of the same syndromes that are short together have the same next value: why the length change is forced |
| KeyEquation.BmStepUpdate | tools/fec_tools.c:3539-3554 | a round with a discrepancy keeps the decoder's invariant, with and without a length change |
| KeyEquation.ShortestStep | tools/fec_tools.c:3546-3550 | no generator is shorter than L after the length change |
| Rs6.BerlekampMassey | tools/fec_tools.c:3524-3555 | the loop ends with a shortest generator of the syndromes |
| KeyEquation.LocatorGenerates | tools/fec_tools.c:3524-3558 | the error locator of few errors generates the syndromes |
| ErrorValues.RootsAreErrors | tools/fec_tools.c:3560-3577 | the roots of a short enough generator are exactly the error positions |
| Rs6.ChienSearch | tools/fec_tools.c:3560-3574 | the positions found are exactly the roots, in order, and the early exit means too many of them |
| Rs6.ErrorEvaluator | tools/fec_tools.c:3579-3586 | the evaluator is syndromes times locator modulo x^par |
| ErrorValues.Forney | tools/fec_tools.c:3588-3609 | evaluator over derivative at the inverse locator is the error value |
| Rs6.ForneyCorrect | tools/fec_tools.c:3588-3609 | the word with every found position corrected, or a vanishing derivative |
| Rs6Spec.FewErrorsFound | tools/fec_tools.c:3557-3609 | with at most par / 2 errors the roots are the errors and the corrections are their values |
| Rs6.Rs6Decode | tools/fec_tools.c:3477-3626 | true exactly when a code word is within par / 2 symbols, and then the buffer holds that one; false changes no bit; no bit outside the word ever changes; the words are the six digit groups of the buffer read as a number |
| Rs6.Decode362017 | tools/fec_tools.c:3642-3645 | the same for the (36,20,17) code |
| Rs6.Decode24169 | tools/fec_tools.c:3660-3663 | the same for the (24,16,9) code |
| Encoders.RowIsCodeword | tools/fec_tools.c:39-160 | every row of the three generator matrices vanishes at alpha to alpha^par |
| Encoders.Encode | tools/fec_tools.c:3433-3454 | the matrix encoders keep the data symbols, write a code word and change only parity bits |
| Encoders.CombinationIsCodeword | tools/fec_tools.c:3708-3764 | sums of multiples of rows are code words |
| RoundTrip.EncodeDecode | tools/fec_tools.c:3642-3764 | what was encoded is accepted and keeps the encoded data |
| RoundTrip.Receive | tools/fec_tools.c:3477-3626 | a sent code word with at most par / 2 wrong symbols is restored |
| ShiftRegister.RegisterCompletes | tools/fec_tools.c:1469-1484 | a message followed by the register vanishes at every root of the generator, for any field and length |
| ShiftRegister.RegisterUnique | tools/fec_tools.c:1499-1507 | no other parity completes the message |
| Rs129.GeneratorRoots | tools/fec_tools.c:1328-1328 | the generator polynomial has the roots alpha, alpha^2 and alpha^3 |
| Rs129.RS129_encode | tools/fec_tools.c:1469-1484 | the in-place register holds the remainder, lowest coefficient first, and the spare byte is cleared |
| Rs129.RS129_check | tools/fec_tools.c:1499-1507 | true exactly when the twelve bytes vanish at the three roots |
| Rs129.ThreeChangesRejected | tools/fec_tools.c:1499-1507 | changing one to three bytes of an accepted block makes it rejected |
| ReedSolomon.ReduceSlow | tools/RS.h:383-391 | folding ends and is reduction modulo NN for every argument |
| ReedSolomon.Reduce | tools/RS.h:393-404 | so is the form with the table |
| ReedSolomon.BuildTables | tools/RS.h:340-366 | the test passes exactly for walks that are back at one; for a primitive polynomial all tables are right, and the prim-th root is the inverse of PRM |
| PrimitiveTest.AcceptedPrimitive | tools/RS.h:340-354 | an accepted polynomial is primitive exactly when the walk's last symbol is not zero and there is no return to one after a proper divisor of NN steps |
| PrimitiveTest.NotPrimitiveAccepted | tools/RS.h:352-354 | a polynomial that is back at one too early passes the test |
| PrimitiveTest.ZeroWalkAccepted | tools/RS.h:276-354 | so does one whose walk passes through zero, with no early return |
| ReedSolomon.GenPolyNonZero | tools/RS.h:484-504 | no coefficient of a generator polynomial is zero when PRM is coprime to NN, so its index form is meaningful |
| ReedSolomon.BuildGenerator | tools/RS.h:480-504 | the in-place products give the generator polynomial in index form |
| ReedSolomon.Encode | tools/RS.h:726-752 | the rotating register holds the remainder of the data; -1 and nothing written exactly when the block is too long |
| ReedSolomon.ParityCompletes | tools/RS.h:726-822 | the parity is the only one with which data vanishes at every root |
| ReedSolomon.Decode | tools/RS.h:754-822 | each error return exactly on its condition; no correction is needed exactly for code words, otherwise the syndromes are the values at the roots |
| ReedSolomon.EncodeDecode | tools/RS.h:726-822 | decoding what was encoded returns 0 and changes nothing |
| TrellisCode.Check | tools/fec_tools.c:4201-4230 | 999 with the symbols for a code word, otherwise the place where the state machine cannot follow or the missing flush |
| TrellisCode.RowsTurn | tools/fec_tools.c:4024-4032 | the rate 3/4 rows are one row turned by the state, with odd points for the states whose upper digits differ |
| TrellisCode.HalfRowsLinear | tools/fec_tools.c:4035-4039 | the rate 1/2 table is linear in the digits of state and symbol |
| TrellisCode.NeverMerge | tools/fec_tools.c:4024-4039 | paths that parted never meet again under equal points |
| TrellisCode.SinglePointDetected | tools/fec_tools.c:4201-4230 | changing exactly one of the 49 points of a code word always leaves the code, in either rate |
| TrellisCode.Fix | tools/fec_tools.c:4247-4274 | success always means a code word with its symbols, at most 20 points from the start; a code word that differs only at the failing point is found; failure is possible only from more than 20 points before the end |
| TrellisBurst.BitPosOrder | tools/fec_tools.c:4059-4065 | the bits of the code are taken in increasing order, each of them once, and no bit of the DMR gap |
| TrellisBurst.LevelBits | tools/fec_tools.c:4078-4088 | the first bit of a dibit is the sign of the level and the second its size |
| TrellisBurst.LevelTables | tools/fec_tools.c:4042-4044 | signs and sizes of the two levels of a point are parities of its digits |
| TrellisBurst.Deinterleave | tools/fec_tools.c:4103-4130 | every pair of dibits is a point, taken from where it was sent |
| TrellisBurst.InterleavePoints | tools/fec_tools.c:4145-4185 | the burst carries the points and keeps every bit that is not the code's |
| TrellisBurst.TrellisEncode | tools/fec_tools.c:4346-4373 | the burst carries the payload's code word |
| TrellisBurst.TrellisDecode | tools/fec_tools.c:4292-4330 | a burst with the code word, or with one point wrong at the place where the check fails, gives the payload; whatever is accepted gives the payload of a code word at most 20 points away; a refused burst changes nothing, fails early, and no code word differs from it only where the check fails or one point before |
| TrellisBurst.EncodeDecode | tools/fec_tools.c:4059-4373 | for both rates and layouts the payload comes back, and the middle 68 bits of a DMR burst are untouched |
| FlowHost.Pacing.CreditFromStatus | modem/Modem_Host.c:347-361 | free frames less the frames queued since the oldest record, which is consumed |
| FlowHost.Pacing.ResyncPacing | modem/Modem_Host.c:377-383 | every record is forgotten and the credit kept |
| FlowHost.Pacing.RequestModemStatus | modem/Modem_Host.c:417-441 | the record gains the count; a full record loses its oldest |
| FlowHost.Pacing.SendSample | modem/Modem_Host.c:1188-1211 | a frame costs one credit and low credit ends sending and forces a request |
| FlowHost.Pacing.StatusReply | modem/Modem_Host.c:2511-2523 | the new credit, and space only from two frames on |
| FlowHost.BurstLength | modem/Modem_Host.c:1188-1211 | how many frames a credit lasts: all but two, or one when it was two |
| FlowControl.ReplyCredit | modem/Modem_Host.c:347-361 | the record a reply finds is never newer than its request, so lost replies only make the credit smaller, and the credit fits the modem |
| FlowControl.StepKeeps | modem/Modem_Host.c:315-441 | every step of host, channel and modem keeps the invariant |
| FlowControl.NeverOverfills | modem/Modem_Host.c:315-441 | in every faithful run no frame meets a full modem, and credit plus frames on their way fit it |
| FlowControl.CountsExact | modem/Modem_Host.c:351-360 | the 32 bit difference is the true number of frames in every run, however long |
| FlowControl.WaitingEnds | modem/Modem_Host.c:1217-1241 | when nothing is on its way, a resync and one request give exactly the frames the modem has room for, up to fifteen, and the host may send exactly when there are two |
| FlowControl.AskMatch | modem/Modem_Host.c:431-438 | overflow keeps replies and records matched exactly when the oldest request can no longer be answered |
| FlowControl.ResyncMatch | modem/Modem_Host.c:377-383 | forgetting the records does so exactly when no reply can arrive |
| FlowControl.ResyncTooSoon | modem/Modem_Host.c:1229-1241 | a run in which, after a resync with a reply outstanding, the modem refuses a frame |
| FrameReader.ModemRx.Fill | modem/Modem_Host.c:606-624 | compaction loses nothing and every read is offered half the buffer or all of it but the waiting bytes |
| FrameReader.ModemRx.Need | modem/Modem_Host.c:638-650 | 1 exactly when the bytes are there, and nothing is consumed |
| FrameReader.ModemRx.GetFrame | modem/Modem_Host.c:763-838 | a plausible frame with a start byte or nothing behind it, or discarded bytes, or nothing consumed; a start byte is discarded only after a timeout or when what follows is implausible; with reads that keep bringing bytes, in step or not, a frame in front is delivered and a timeout means it was cut short |
| FrameReader.Conserve | modem/Modem_Host.c:606-838 | pieces taken in order, the waiting bytes and the bytes to come are always the bytes there were |
| FrameReader.Receive | modem/Modem_Host.c:763-838 | a stream of frames is delivered exactly, for every chunking |
| FrameReader.Recover | modem/Modem_Host.c:763-838 | from any state, bytes without a start byte in front of frames are discarded exactly and counted, and then every frame is delivered in order, for every chunking |
| Fir.DspFirQ15 | tools/dsp_compat.h:100-134 | one call gives the filter's outputs and keeps the newest samples |
| Fir.FirSplits | tools/dsp_compat.h:100-134 | any split into calls gives the same outputs and state |
| Fir.FirIsConvolution | tools/dsp_compat.h:86-134 | from rest every output is the 16 bit value nearest to the scaled convolution with the impulse response |
| Fir.DotFits | tools/dsp_compat.h:113-125 | the 64 bit accumulator never overflows, for any 16 bit or 32 bit number of taps |
| Fir.FastAgrees | tools/dsp_compat.h:120-130 | the 32 bit form agrees wherever the sum fits |
| Interpolator.ArmFirInterpolateQ15 | tools/dsp_compat.h:156-188 | the polyphase outputs are those of the full filter over the samples stuffed with L - 1 zeros |
| Interpolator.InterpolatedIsConvolution | tools/dsp_compat.h:156-188 | from rest every output is the 16 bit value nearest to the scaled convolution of the stuffed samples with the whole impulse response |
| Interpolator.PolyFits | tools/dsp_compat.h:169-180 | nor does the interpolator's, for any phase length |
| Interpolator.InterpolatorSplits | tools/dsp_compat.h:156-188 | any split into calls joins up |
| Biquad.ArmBiquadCascadeDf1Q31 | tools/dsp_compat.h:200-251 | the difference equation of every stage in words of the arrays, each stage's output being the next one's input, and the final state words; the block run through the stages in place equals every sample run through all stages |
| Biquad.CascadeEquation | tools/dsp_compat.h:208-251 | the same for the specification, for any number of stages and any block |
| Biquad.StagesAreSamples | tools/dsp_compat.h:200-251 | the two orders of evaluation agree for all stages, states and inputs |
| Biquad.CascadeSplits | tools/dsp_compat.h:200-251 | any split into blocks gives the same outputs and state |
| SampleReceiver.Rx.AddCandidate | tools/dsp_tools.c:554-582 | a full list replaces its first lowest correlation, if the new one is better |
| SampleReceiver.Rx.Hunt | tools/dsp_tools.c:807-827 | a candidate exactly at a local peak with usable levels |
| SampleReceiver.Rx.ProcessCandidates | tools/dsp_tools.c:654-693 | the candidate whose frame is complete locks exactly when it decodes, else it is dropped |
| SampleReceiver.Rx.EmitFrame | tools/dsp_tools.c:599-638 | the provisional frame is released only with a second one that decodes |
| SampleReceiver.Rx.Measure | tools/dsp_tools.c:721-764 | the first best correlation near the expected place, if it is usable, otherwise a miss |
| SampleReceiver.Rx.Window | tools/dsp_tools.c:721-791 | found, missed, dropped as noise, or lost after more than maxMiss misses |
| SampleReceiver.Rx.Track | tools/dsp_tools.c:710-792 | the session goes on by half a step exactly at the samples the signal determines, tells what it says, and tracks until it is over |
| SampleReceiver.Rx.RxSample | tools/dsp_tools.c:843-878 | the whole step of both branches: hunting and locking, or following the session |
| SampleReceiver.RxSamples | tools/dsp_tools.c:843-878 | in every run the callbacks since the last reset are in order and the counters exact; from a sync word that stands alone on, all that is told at any sample is the report of the signal, however it drifts and whatever sync words are missing, and after its end the receiver looks for the next |
| SampleSessions.CleanSignal | tools/dsp_tools.c:843-878 | sync words a frame apart and two first frames that decode: told are exactly the frames whose last sample has come in, the first together with the second |
| SampleSessions.EndedSignal | tools/dsp_tools.c:710-792 | a signal that ends after n frames: those, maxMiss more unless such are held back, the loss, and the search begins again |
| SampleReceiver.InOrder | tools/dsp_tools.c:599-792 | in order means: a loss only after two frames, and a session begins with two frames that passed the check |
| BitReceiver.BitCount64 | tools/dsp_tools.c:894-905 | the loop ends with the number of one bits |
| BitReceiver.BitRx.BitRxBit | tools/dsp_tools.c:965-1034 | the whole step, said on the received bits: a frame starts, or is put in step within two bits of its place, exactly when the newest bits differ from the sync word in at most so many places; delivery with all bits of the frame, and loss; the frame cannot overrun |
| BitReceiver.HeardIsErrors | tools/dsp_tools.c:973-1001 | with the mask of the newest bits and the sync word as value, what is counted is the number of sync word bits received wrong |
| BitSessions.ReceiveBits | tools/dsp_tools.c:965-1034 | a signal with its sync words in place or missing: told are exactly the frames whose last bit has come in, with the bits they were received with, and the loss with the frame at which too many are missing |
| BitReceiver.BitRx.EndOfFrame | tools/dsp_tools.c:1008-1033 | the loss comes exactly at the maxFrames-th frame end without a sync word |
| BitReceiver.BitRxBytes | tools/dsp_tools.c:1048-1053 | bytes are taken most significant bit first |
| Crc.LookupIs | tools/fec_tools.c:1254-1320 | every entry of either table is the remainder of its index |
| Crc.TableStep | tools/fec_tools.c:1584-1585 | a table step is eight steps of the division |
| Crc.ByteStepIsSerial | tools/fec_tools.c:1645-1646 | which is the division bit by bit |
| Crc.CrcAdd | tools/fec_tools.c:1575-1652 | the buffer ends with the checksum of what is before it |
| Crc.CrcCheck | tools/fec_tools.c:1605-1681 | true exactly for such buffers |
| CrcDivision.GoodIsMultiple | tools/fec_tools.c:1575-1681 | a buffer is accepted exactly when the polynomial it was sent as, with the last sixteen bits inverted and for the first variant the first sixteen too, is a multiple of x^16 + x^12 + x^5 + 1 |
| CrcDivision.Division | tools/fec_tools.c:1575-1586 | the register is the remainder of any bits behind any start value |
| Crc.AdjacentChangeRejected | tools/fec_tools.c:1575-1681 | a change confined to two adjacent bytes, check bytes included, is always rejected |
| Crc.Stream.UpdateBytes | tools/CCITTChecksumReverse.c:127-138 | the register after any data fed so far |
| Crc.StreamMatchesOneShot | tools/CCITTChecksumReverse.c:121-159 | any pieces give the two bytes the one shot function appends |
| RingBuffer.Ring.AddData | tools/RingBuffer.c:66-79 | appends all with strictly more room, otherwise empties the queue |
| RingBuffer.Ring.GetData | tools/RingBuffer.c:94-106 | removes the oldest bytes, or nothing |
| RingBuffer.Ring.Peek | tools/RingBuffer.c:121-134 | the oldest bytes, unchanged |
| BitRing.BitRb.Put | modem/OPENMT_HS/BitRB.cpp:69-87 | appends the pair, or reports the overflow |
| BitRing.BitRb.Get | modem/OPENMT_HS/BitRB.cpp:89-104 | removes the oldest pair, or nothing |
| BitRing.BitRb.HasOverflowed | modem/OPENMT_HS/BitRB.cpp:106-113 | reports a refused pair once |
| BitRing.BitRb.GetSpace | modem/OPENMT_HS/BitRB.cpp:42-67 | space and data always add up to the length |
| Bridge.CtlBuild | tools/bridge_common.c:83-93 | the control frame, or 0 and nothing written when it is too long |
| Bridge.RelayBuild | tools/bridge_common.c:144-156 | the relay frame, or 0 and nothing written when it does not fit |
| Bridge.CtlRoundTrip | tools/bridge_common.c:83-128 | a control frame in front of anything is parsed into its type and payload |
| Bridge.RelayRoundTrip | tools/bridge_common.c:144-198 | a relay frame is parsed into its connection and service frame exactly from four bytes on |
| Bridge.CtlPrefix | tools/bridge_common.c:112-128 | every started control frame asks for more |
| Bridge.RelayPrefix | tools/bridge_common.c:174-198 | every started relay frame asks for more |
| Bridge.CtlNeedsMore | tools/bridge_common.c:112-128 | more is asked for exactly when the bytes are a proper, nonempty front of some control frame |
| Bridge.CtlWhole | tools/bridge_common.c:112-128 | a control frame is recognised exactly when the bytes begin with it |
| Bridge.RelayNeedsMore | tools/bridge_common.c:174-198 | the same for relay frames of at least four payload bytes |
| Bridge.RelayWhole | tools/bridge_common.c:174-198 | a relay frame is recognised exactly when the bytes begin with it |
| Bridge.WholeIsFrame | tools/bridge_common.c:112-198 | nothing else is recognised |
| Bridge.ParseAllStream | tools/bridge_common.c:83-198 | parsing a stream of frames gives all of them back in order |
| Bridge.RelayToBridge | modem/Modem_Host.c:1606-1619 | queued with strict room, dropped with less, and everything lost when the room is exactly the frame's size |
| Bridge.WriteFrame | modem/Modem_Host.c:1680-1691 | partial writes are continued and interrupted ones repeated; a failed write drops the rest of the frame and nothing else |
| Bridge.DrainQueue | modem/Modem_Host.c:1634-1698 | a queue of frames is written out in order with nothing skipped, whole but for at most one frame per failed write, of which a front is written |
| Bridge.Pipeline | modem/Modem_Host.c:1606-1698 | queue, thread and parser together return the frames that went in when no write fails, however the bytes are taken |

## Left out

- Rs6.Rs6Decode: the correction of rs241213_decode and of the generic decoder in RS.h is not modelled; both can write before they fail.
- Encoders.Encode: the three encoders are one method with the code as its argument.
- ReedSolomon.Decode: stops where the correction would begin; erasures are only range checked.
- ReedSolomon.BuildTables: requires PRM coprime to NN, without which the source's search for the prim-th root does not end.
- Crc.CrcAdd: the byte order is that of a little-endian host, as the source's comments say.
- Crc.CrcCheck: requires more than two bytes, as the source asserts.
- TrellisBurst.TrellisDecode: which of the code words within 20 points is taken is not characterised when the check does not stop at a single wrong point, be it that more points are wrong or that the one wrong point only shows later.
- FlowControl.WaitingEnds: the watchdog's clock is a parameter; a resync may happen at any time while the host waits.
- FlowControl.NeverOverfills: each loop pass of a thread is one step; the race between storing the credit and the space flag is not modelled.
- FlowHost.Pacing.SendSample: the room and time tests around it are parameters, and frames other than samples do not appear.
- FrameReader.ModemRx.GetFrame: returns the frame as a value and not in a caller's buffer; the messages it prints are left out.
- SampleReceiver.RxSamples: filter, correlation, levels and slicing are arbitrary functions of the position in the stream; the candidate list is a sequence.
- SampleSessions.CleanSignal: asks that no other peak shows before the first frame is complete; with other candidates waiting, RxSample says what one sample does.
- BitReceiver.BitRx.BitRxBit: the event counters do not wrap.
- BitSessions.ReceiveBits: a sync word heard one or two bits off its place ends what it speaks of; BitRxBit says what that bit does.
- Biquad.ArmBiquadCascadeDf1Q31: coefficients are values; a post shift over 31, which the source's shift does not define, is excluded.
- Bridge.DrainQueue: a bridge that asks for a repetition for ever, with which the source never ends, is left out.
- RingBuffer.Ring.FreeSpace: the clamp that can never apply is left out, also in the bit ring.
- Golay, quadratic residue and Hamming codes and their tables: small finite domains.
- Database, sockets, terminals, signals, logging and process start-up: input and output.
- Pulse shaping, transmit samples and the ADF7021 driver: floating point and hardware.
- Timers, string builder, packet filling and mode lists: easy additions.
- Allocation failure, assertions and null pointers.
