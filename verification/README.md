# Signal path and control model

A Dafny model of the algorithms between the antenna samples and the decoded packets of this
satellite receiver, and of the state machines that decide where the radio listens. It verifies with

    dafny verify --resource-limit 2000000 --verification-time-limit 0 dfyconfig.toml

and has no dependencies. Numbers of type `double` are exact reals: rounding is not modelled.

## What is modelled

**Fourier transforms and fast convolution** (`src/dsp/jfft.cpp`, `src/dsp/jfft.h`). `Complexes`,
`Roots` and `PowersOfTwo` hold the arithmetic; the exponential is a parameter with three laws.
`BitReversal` shows that the shift-and-mask reversal of a 32-bit index and the bit-by-bit loop are
one function. `Dft` defines the transform and what the array holds between two stages. `Jfft` runs
both in-place transforms over arrays and proves each equal to the transform that `sft` computes;
`Inversion` shows that the two transforms undo each other and that pointwise products are
cyclic convolutions; `Tones` says what the transforms make of single tones and impulses, in terms of
the exponential alone, which fixes their sign, order and scale; `RealDft` does the packed real transforms. `FastFir` proves that the three
complex entry points and the real one all deliver the linear convolution (`Convolution`) of the
whole stream with the kernel, one block late, plus an echo of what the buffers kept when the kernel
was set, and that the stream fixes the buffers. `Echoes` says what that echo is and when it is zero.

**The Inmarsat-C chain** (`tools/egc_decode.cpp`). `ConvolutionalCode` ties the branch table to the
generators 171 and 133 (octal) of CCSDS 131.0-B, section 3.3; `Viterbi` shows that after every step
each state holds a best path, and which of equally good ones, so that the bytes are determined;
`ErrorCorrection` counts the weight of every code word over a
20-step window (bit-vector tables for all 64 states) and concludes that four wrong symbols
anywhere are always corrected, in spite of the early decisions. `EgcFrames` covers sync, in step and
from a cold start, row permutation, interleaving and scrambling up to whole runs of frames. What
is counted, permuted and complemented there is stated on the symbols as they arrive. `EgcPackets`
covers the checksum, with the law that both its sums vanish over a whole packet, and the packet walk, `EgcMessages` what the packets received so far make of a message in
two parts, and `EgcReads` which bytes are read and when all of them are inside their buffers.

**Down-conversion and tuning** (`src/dsp/ddc.h`, `src/decode/band_plan.cpp`,
`src/session/session.cpp`). `Decimation` does the factor search and the staging, largest factors first, `FirChain` the
ring-buffer filter and the one filter that a cascade equals, `DownConverter` the oscillator and the
whole object, down to what each stage is designed for and the carrier that comes out.
`BandPlan` covers services, windows and centres, ties included; `BandTuning` shows that the filter
of the tuning code keeps every carrier that the centre was chosen for.

**Control** (`src/decode/decoder_manager.cpp`, `src/voice/voice_ops.cpp`,
`src/sdr/sdrplay_source.cpp`). `DecoderManager.dfy` has the critical sections of the decoder manager
and all their interleavings, and that a worker's weight is never less than its decoders weigh;
`DecoderCalls.dfy` has the calls one after the other, each tied to a run of those critical sections,
the monitored decoder, and the block queues. `VoiceFollow` follows calls with one receiver; `RspConfig` prints and
parses the receiver configuration, and `RspLine` says what the parser makes of any line given as a
list of words. `PresetLists` holds the lists of decoders that tuning and voice
follow share, `Values` what else several modules share.

Parameters stand for what the model cannot see: the complex exponential (`IsCis`), the magnitude
on the unit circle (`IsMagnitude`), filter coefficients of unit gain (`IsDesign`), the metric table
(`IsUniform`: a matching symbol scores a fixed margin more), the printing of doubles with 17 digits
(`IsExact`), the centre a radio really tunes to, the clock, the logs and the blacklist.

## Results that qualify the source

* A filter that is given a second kernel does not start clean: `std::vector::resize` clears nothing.
  One sample, the same kernel again, and the next output is that sample instead of a zero
  (`FastFir.FirstKernelIsHeard`). Every output is the new convolution plus an echo, and over all
  streams and times the echo is zero if and only if what was kept is quiet under the new taps
  (`FastFir.PlainIffQuiet`, `Echoes.IsQuiet`): its block is zero, and its tail, filtered, cancels the
  kept remainder and vanishes before it. With a first tap other than zero that means that everything
  kept is zero, with all taps zero the tail is free. A caller can rely on it when only zeros have gone
  in since the filter was made, and, for a kernel of the same size, exactly when the samples since the
  last flush are zeros and the old kernel owes nothing more (`FastFir.JFastFir.SetKernel`).
* The packet layer reads behind its buffers in two cases, and in no other (`EgcReads.RunInside`): a
  checked B1 or B2 packet begins less than eight bytes before the end of its frame, or a BE packet
  completes a message that is shorter than a header or claims to be longer than announced. For messages
  of eight bytes or more that takes a BD packet with a part of a single byte, whose check byte is taken
  for the length of the message (`EgcReads.SafeParts`). `EgcReads.ShortHeaderOverruns` and `EgcReads.OneByteOverruns` give packets that do it.
* `ifft_real` accepts bins that no real signal has: of outer bins that are not real it takes the
  imaginary part of each off the real part of the other (`RealDft.Realised`, `RealDft.SignalHasBins`).
* The branch for leftover factors (`src/dsp/ddc.h:136-137`) and the late tail of the Viterbi decoder
  (`tools/egc_decode.cpp:369-370`) are dead code.
* A configuration comes back from its line if and only if it is valid (`RspConfigs.RoundTrip`).
* A hop after which the decoder manager refuses the decoder leaves the radio away from home without
  following: the contract of `Follower.Follow` says so. With a manager that is ready and a radio
  that tunes exactly the receiver always comes home (`Follower.Run`), also when following is switched
  off in the middle of a call.
* A packet whose check field was changed is rejected unless the new field is zero
  (`EgcChecksum.FieldErrorDetected`).
* Comments in `addDecoder` speak of a shadow sub-band for overloaded ones; the code has none: a
  covering sub-band is always joined, and `DecoderCalls.IsPlaced` follows the code.

## Model

| member | source | states |
|---|---|---|
| BitReversal.ReverseInvolution | src/dsp/jfft.cpp:158-177 | reversing the bits of an index twice gives the index back, and the reversal stays in range: the exchange loop is a permutation |
| BitReversal.MaskReverseIsReverse | src/dsp/jfft.cpp:163-168 | five mask-and-shift steps on 32 bits and the final shift give the bit reversal of every index of every size |
| Dft.Decimate | src/dsp/jfft.cpp:179-213 | a transform splits into those of its even and odd samples and one twiddle |
| Dft.BitReversedIsStart | src/dsp/jfft.cpp:158-177 | after the exchange every sample is a finished one-point transform of the right subsequence |
| Dft.ButterflyStep | src/dsp/jfft.cpp:185-213 | one butterfly finishes its two values of the stage and leaves all others as they were |
| Dft.StageAdvances | src/dsp/jfft.cpp:179-213 | a full pass of butterflies takes the array from transforms of size n to transforms of size 2n |
| Inversion.InverseUndoesForward | src/dsp/jfft.cpp:123-220 | for every power-of-two size and every input, INVERSE after FORWARD is the identity |
| Inversion.ForwardUndoesInverse | src/dsp/jfft.cpp:123-220 | and FORWARD after INVERSE is the identity too |
| Inversion.SpectrumOfCyclic | src/dsp/jfft.cpp:458-470 | the spectrum of a cyclic convolution is the product of the spectra |
| Inversion.FastConvolution | src/dsp/jfft.cpp:458-470 | transform, multiply, transform back is the cyclic convolution |
| Tones.ForwardTone | src/dsp/jfft.cpp:123-220 | the forward transform of exp(2 pi i m k / n) is n in bin m and zero in every other bin, for every power of two |
| Tones.ForwardImpulse | src/dsp/jfft.cpp:293-327 | the forward transform of a unit impulse at place m is exp(-2 pi i m j / n) in bin j, for every size |
| Tones.InverseImpulse | src/dsp/jfft.cpp:214-219 | the inverse transform of a unit impulse in bin m is exp(2 pi i m k / n) / n at place k, for every size |
| Jfft.BitAndMask | src/dsp/jfft.cpp:200-212 | `k & nfill` is the position inside the butterfly block |
| Jfft.JFFT.Init | src/dsp/jfft.cpp:20-71 | the size becomes the least power of two that fits, and every table entry is the root it stands for; `Tones` says which way the roots turn |
| Jfft.JFFT.Fft | src/dsp/jfft.cpp:123-220 | the in-place transform with masks, pointers and `k & nfill` leaves exactly the DFT, whose sign and scale `Tones` fixes |
| Jfft.JFFT.FftEasyToUnderstand | src/dsp/jfft.cpp:223-288 | the indexed form leaves exactly the same DFT |
| Jfft.JFFT.Sft | src/dsp/jfft.cpp:293-327 | the direct sum leaves the DFT, for every size |
| Jfft.JFFT.FftVector | src/dsp/jfft.h:65-84 | the vector form pads with zeros to the next power of two and transforms that |
| Jfft.JFFT.FftReal | src/dsp/jfft.cpp:74-97 | the packed transform of 2n reals is their DFT of double length, mirrored half included |
| Jfft.JFFT.IfftReal | src/dsp/jfft.cpp:100-121 | for any bins the inverse packed transform returns a real signal that has bins 1 to n - 1 as given, bin 0 real with the imaginary part of bin n taken off, and bin n likewise; the real signal that has the given bins comes back exactly |
| Jfft.JFFT.FftRealVector | src/dsp/jfft.h:41-52 | for every length, odd ones too, the signal is cut off or padded to twice a power of two and all bins of that are returned |
| Jfft.JFFT.IfftRealVector | src/dsp/jfft.h:53-64 | for every number of bins the vector is cut off or padded likewise, the bins that are read are never padding, and the signal is the one of that length that has them, as for the pointer form |
| RealDft.CombinedBin | src/dsp/jfft.cpp:65-68 | the two diddle factors combine a packed bin and its mirror into the bin of the real signal |
| RealDft.MirroredBin | src/dsp/jfft.cpp:92-96 | the upper half is the conjugate of the lower, read backwards |
| RealDft.SplitBin | src/dsp/jfft.cpp:106-110 | the inverse diddling recovers the packed bin |
| RealDft.PackedDetermines | src/dsp/jfft.cpp:112-120 | the inverse transform of the packed bins is the packed signal |
| RealDft.SignalHasBins | src/dsp/jfft.cpp:100-121 | diddling back, transforming and unpacking gives a signal with these bins, whatever they are, the two outer ones made real |
| Convolution.ConvCausal | src/dsp/jfft.cpp:449-498 | later input does not reach back into earlier output |
| Convolution.CyclicFolds | src/dsp/jfft.cpp:458-470 | a full block convolved cyclically is the linear convolution of the block with its tail wrapped round to the front |
| Convolution.CyclicIsLinear | src/dsp/jfft.cpp:336-378 | with a block of nfft + 1 - taps samples the cyclic convolution does not wrap |
| FastFir.StateIsDetermined | src/dsp/jfft.cpp:381-544 | all buffers and the pointer are a function of kernel, stream and what was kept: any two ways of feeding the same stream leave the same state |
| FastFir.OverlapMeansConvolution | src/dsp/jfft.cpp:470-487 | adding the remainder makes the block part of the convolution of the whole stream, plus the echo at those times |
| FastFir.FlushMeansConvolution | src/dsp/jfft.cpp:458-489 | a flush turns the block just filled into output and keeps the tail for the next one, for the first block with whatever was kept behind it |
| FastFir.RealProduct | src/dsp/jfft.cpp:555-577 | multiplying only the lower bins of real spectra gives the spectrum of the real convolution |
| Echoes.NoEchoIffQuiet | src/dsp/jfft.cpp:336-378 | no echo is ever heard if and only if what was kept is quiet under the new taps |
| Echoes.QuietIsSilent | src/dsp/jfft.cpp:336-378 | with a first tap that is not zero only kept zeros are quiet |
| Echoes.QuietZeroTaps | src/dsp/jfft.cpp:336-378 | with all taps zero the kept block and remainder must be zero, and the tail may be anything |
| FastFir.PlainIffQuiet | src/dsp/jfft.cpp:336-378 | after a kernel is set, all outputs for all streams are the new convolution if and only if what was kept is quiet |
| FastFir.SameSizeIsQuiet | src/dsp/jfft.cpp:336-378 | for a kernel of the same size that is so exactly when the samples since the last flush are zeros and the old kernel owes nothing more |
| FastFir.FirstKernelIsHeard | src/dsp/jfft.cpp:336-378 | a run in which the first kernel's sample comes out under the second, where the new stream owes a zero |
| FastFir.JFastFir.SetKernel | src/dsp/jfft.cpp:336-378 | the size is the power of two from four to eight times the taps, or the least one that reaches the size asked for; block length, kernel spectrum, what is kept of the old buffers, and conditions on what went in under which that is silent or quiet |
| FastFir.JFastFir.Update | src/dsp/jfft.cpp:449-498 | the sample out is the linear convolution of kernel and whole stream, one block late, plus the echo of what was kept |
| FastFir.JFastFir.UpdateEasyToUnderstand | src/dsp/jfft.cpp:500-544 | the same, with the loops kept apart |
| FastFir.JFastFir.UpdateBlock | src/dsp/jfft.cpp:381-446 | the same for every sample of a block of any length, in place |
| FastFir.JFastFir.UpdateReal | src/dsp/jfft.cpp:547-587 | the same for a real stream through the packed transforms |
| ConvolutionalCode.TableIsCode | tools/egc_decode.cpp:418-420 | the 32-entry parity table is the code with generators 171 and 133 |
| ConvolutionalCode.EncodedSymbols | tools/egc_decode.cpp:418-420 | the two symbols of a bit are its exclusive or with the bits 2, 3, 5 and 6 places before it, and with those 1, 2, 3 and 6 places before it |
| Scores.SelectKeepsSurvivor | tools/egc_decode.cpp:354-366 | one add-compare-select keeps for its state the maximum over all strings and a path that attains it |
| Scores.InitialSurvivors | tools/egc_decode.cpp:337-343 | the start metrics are the scores of the empty messages |
| Viterbi.Decoder.Step | tools/egc_decode.cpp:346-367 | all 64 states of the next array are selected from the current one |
| Viterbi.Decoder.StepKeepsSurvivors | tools/egc_decode.cpp:345-367 | after every step each metric is the maximum over all strings ending in that state, and its 32-bit path holds the last bits of a string attaining it |
| Viterbi.Decoder.Decode | tools/egc_decode.cpp:329-386 | every early byte comes from a string of the greatest score so far, the last four from the best string that ends in state zero; of equally good ones the one with a one at the last place where they differ, ending in the lowest state |
| Viterbi.DecodingIsUnique | tools/egc_decode.cpp:354-366 | the metric table and the symbols determine all 640 bytes, ties included |
| FreeDistance.NineApart | tools/egc_decode.cpp:418-420 | code words that differ stay at least nine symbols apart, over 20 bits from the first difference or to a common end |
| ErrorCorrection.ScoreCountsMismatches | tools/egc_decode.cpp:412-414 | with a uniform metric the score is the perfect one less the margin for every wrong symbol, and less a penalty for a wrong start |
| ErrorCorrection.BestAgrees | tools/egc_decode.cpp:369-386 | whatever string scores no worse than the sent one agrees with it up to 20 bits before the end |
| ErrorCorrection.ErrorsAreWrongPlaces | tools/egc_decode.cpp:329-386 | the number of wrong symbols is the size of the set of places where sent and received differ |
| ErrorCorrection.MessageBit | tools/egc_decode.cpp:381-386 | a byte is read from its highest bit to its lowest |
| ErrorCorrection.CorrectsFourErrors | tools/egc_decode.cpp:329-386 | any 640 bytes ending in six zero bits are returned exactly after up to four wrong symbols, as long as those cost less than the start penalty |
| FrameSync.PolaritiesAddUp | tools/egc_decode.cpp:253-275 | the two error counts of a window add up to 128: at most one polarity can pass |
| FrameSync.UniqueWordNumber | tools/egc_decode.cpp:277-281 | the 64 symbols of the unique word are the bits of 0x07EACDDA4E2F28C2 |
| FrameSync.AllErrorsAreCounted | tools/egc_decode.cpp:253-269 | what detection counts is the size of a set: the arriving places in the first two columns of each row that differ from the unique word |
| FrameSync.RunSplit | tools/egc_decode.cpp:229-250 | pushing a stream in pieces gives the same frames and the same state |
| FrameSync.NothingBeforeTheEnd | tools/egc_decode.cpp:229-238 | in sync nothing is reported inside a frame |
| FrameSync.FrameIsFound | tools/egc_decode.cpp:229-275 | a frame with up to 25 wrong unique-word symbols in one polarity, as the size of that set, is found at its last symbol, turned upright, with that number as its error count |
| FrameSync.FirstFrameIsFound | tools/egc_decode.cpp:220-250 | from a cold start the first window of a frame's length that has at most 25 wrong symbols in one polarity is the frame reported |
| FrameSync.UWFinder.Push | tools/egc_decode.cpp:229-250 | one symbol through the shift register, and the frame found with it |
| FrameSync.UWFinder.Detect | tools/egc_decode.cpp:253-275 | both error counts, as the sizes of the sets of wrong symbols, and whether one is within the tolerance |
| Interleaving.PlacesAreABijection | tools/egc_decode.cpp:285-319 | reversal, row permutation and de-interleaving read every data place of the frame exactly once |
| Interleaving.UniqueWordPlaces | tools/egc_decode.cpp:257-264 | the two columns that are never read are the symbols that sync compares |
| Interleaving.Depermute | tools/egc_decode.cpp:285-294 | reversal and 64 row copies: column c of row r is the symbol that arrived in column c of row 23 r modulo 64 |
| Interleaving.Deinterleave | tools/egc_decode.cpp:299-319 | the matrix loops: symbol 64 c + r is row r of column c, behind the two columns of the unique word |
| Interleaving.ReadFrame | tools/egc_decode.cpp:689-690 | both together read the data symbols of the frame in the order they arrived, as one formula of the index |
| Scrambling.FlagsFollow | tools/egc_decode.cpp:434-447 | the groups flagged are seven not, one flagged, and from there flag i + 8 is the exclusive or of the flags i, i + 2, i + 3 and i + 4 |
| Scrambling.MirroredBits | tools/egc_decode.cpp:429-435 | the byte is turned round bit by bit |
| Scrambling.Descramble | tools/egc_decode.cpp:427-456 | byte k is the byte received with its bits turned round, complemented exactly when group k / 4 is flagged |
| Scrambling.DescrambleUndoesScramble | tools/egc_decode.cpp:427-456 | descrambling is the inverse of the transmitter's scrambling |
| ReceiveChain.TransmitIsReception | tools/egc_decode.cpp:678-697 | a frame sent by the inverse chain, upright or inverted, is one the theorems below speak of |
| ReceiveChain.RunIsFound | tools/egc_decode.cpp:678-683 | a gap-free run of such frames is found frame by frame, in order |
| ReceiveChain.LateRunIsFound | tools/egc_decode.cpp:220-250 | so is a run behind any symbols in which no window looks like a frame |
| ReceiveChain.Receive | tools/egc_decode.cpp:678-697 | once in sync, or behind symbols in which no window looks like a frame, every run of frames leaves the whole chain as the same 640-byte frames, in order, with up to 25 wrong unique-word symbols and four wrong data symbols in each |
| EgcChecksum.EgcCrc | tools/egc_decode.cpp:462-474 | the loop over 16-bit sums computes the two check bytes that close both sums |
| EgcChecksum.CrcClosesSums | tools/egc_decode.cpp:462-490 | a packet with a check field that is not zero passes if and only if the sum of all its bytes and the sum of its bytes weighed by their distance to the end, check bytes included, are both zero modulo 256 |
| EgcChecksum.SealedIsOk | tools/egc_decode.cpp:484-490 | a packet closed with its check bytes passes |
| EgcChecksum.BodyErrorDetected | tools/egc_decode.cpp:462-490 | any single wrong body byte is detected |
| EgcChecksum.FieldErrorDetected | tools/egc_decode.cpp:484-490 | a changed check field is rejected exactly when it is not zero |
| EgcPackets.WalkCovers | tools/egc_decode.cpp:570-627 | the packets of a walk are adjacent, non-empty and cover the frame up to where it stops |
| EgcPackets.WalkFindsPackets | tools/egc_decode.cpp:570-627 | packets of the two forms, spelled out by their first bytes and lengths, put one after the other are found again as they are |
| EgcPackets.RestIsOnePacket | tools/egc_decode.cpp:476-482 | a first byte of 192 or more, or a medium form cut off behind its first byte, takes the rest of the frame as one packet |
| EgcPackets.PacketDecoder.DecodeFrame | tools/egc_decode.cpp:568-628 | events and reassembly state of a frame are those of its packets in turn |
| EgcPackets.PacketDecoder.HandlePacket | tools/egc_decode.cpp:577-626 | what one packet reports and what it leaves for the next; a check that runs behind the reassembly buffer is reported as unspecified |
| EgcPackets.PacketDecoder.DecodeFrames | tools/egc_decode.cpp:684-697 | reassembly runs on from frame to frame |
| EgcPackets.OkIsLong | tools/egc_decode.cpp:592-610 | a BD or BE packet that passes the check has the bytes that are read from it |
| EgcPackets.LateContinuationIgnored | tools/egc_decode.cpp:605-608 | a BE packet without a message in progress changes nothing |
| EgcMessages.HistoryDecides | tools/egc_decode.cpp:568-628 | over any frames each packet reports what the packets before it decide: a BE packet delivers, when it is complete, the message opened by the last BD packet with no other BE between |
| EgcMessages.SplitMessageArrives | tools/egc_decode.cpp:590-624 | a message split over a BD and a later BE packet, in any frames and with any other packets between, is reported once, byte for byte; the second part may be empty and check fields may be zero |
| EgcMessages.WrappedIsSplit | tools/egc_decode.cpp:590-624 | the packets a transmitter makes of two parts, with check bytes or with zeros, are such a pair |
| EgcMessages.AnnouncedIsInner | tools/egc_decode.cpp:592-597 | a BD packet announces the length of the packet it begins, and nothing when that is of no known form |
| EgcReads.RunInside | tools/egc_decode.cpp:545-628 | over any frames all reads are inside their buffers if and only if every checked B1 or B2 packet begins eight bytes before the end of its frame or earlier, and no BE packet completes a message that overruns |
| EgcReads.SafeParts | tools/egc_decode.cpp:592-623 | a message of eight bytes or more whose first part is not a single byte never overruns |
| EgcReads.ShortHeaderOverruns | tools/egc_decode.cpp:545-552 | any frame that ends in a B1 packet without a body is read beyond its end |
| EgcReads.OneByteOverruns | tools/egc_decode.cpp:612-623 | a BD packet with one byte and a BE packet whose first byte is large make the check run behind the message |
| SmoothNumbers.DivideSmooth | src/dsp/ddc.h:98-103 | dividing by 2, 3, 5 or 7 does not change whether all prime factors are small |
| SmoothNumbers.SmallFactors | src/dsp/ddc.h:98-103 | the four loops decide exactly whether all prime factors are at most 7 |
| Decimation.ChooseDecimation | src/dsp/ddc.h:90-119 | the search ends, at the nearest number with small factors, the lower one on ties |
| Decimation.Stages | src/dsp/ddc.h:121-145 | the stages are factors of at most 8, each the largest that divides what is left, whose product is the decimation; no leftover |
| DownConverter.LroundRounds | src/dsp/ddc.h:90 | rounding is to the nearest whole number, halves away from zero, and that number is the only one |
| FirFilter.WrapThenMask | src/dsp/ddc.h:54-64 | the wrapping 64-bit counter and the mask pick the slot of the unbounded counter |
| FirFilter.FirDecimator.Push | src/dsp/ddc.h:52-67 | an output exactly at every factor-th input, equal to the direct form over the whole history |
| Cascades.TwoStages | src/dsp/ddc.h:204-215 | two stages are one filter with the combined impulse response and the product of the factors |
| Cascades.CascadeIsOneFilter | src/dsp/ddc.h:204-215 | so is a cascade of any length; n inputs give n divided by the product outputs, rounded down |
| Cascades.ConstantInput | src/dsp/ddc.h:37-38 | a filled filter answers a constant with the constant times its gain |
| Cascades.UnitGain | src/dsp/ddc.h:37-38 | stages of unit gain make a cascade of unit gain |
| DownConverter.Ddc.constructor | src/dsp/ddc.h:83-163 | the decimation is the nearest number with small factors to the rounded ratio of the rates, at least one; the stages' factors, what each is designed for (rate, cutoff and length), output rate and unit gain of a new down-converter |
| DownConverter.Ddc.FeedStages | src/dsp/ddc.h:204-215 | every stage goes on being fed with exactly the output of the one before |
| DownConverter.Ddc.Process | src/dsp/ddc.h:190-202 | everything sent out is one filter over the samples turned by the oscillator; the renormalisation changes nothing |
| DownConverter.CarrierComesOut | src/dsp/ddc.h:83-88 | a carrier at the channel's offset comes out as the constant it began with, once the filter is filled: the oscillator turns the right way |
| BandPlan.ChooseCenter | src/decode/band_plan.cpp:122-147 | all carriers within 44% of the rate, no real frequency that clears them is nearer the midpoint, and of candidates equally near the first |
| BandPlan.CandidatesSuffice | src/decode/band_plan.cpp:138-146 | for every clear frequency some candidate is clear and no further out: the finite list solves the problem over the reals |
| BandPlan.SortedChannels | src/decode/band_plan.cpp:113-116 | the channels of a service, each once, by frequency |
| BandPlan.ServiceGroups | src/decode/band_plan.cpp:113-152 | windows of at most 0.8 of the rate that list every channel of the service once |
| BandPlan.FewestWindows | src/decode/band_plan.cpp:117-121 | no cover by windows of that width, however laid, has fewer windows |
| BandPlan.FindServices | src/decode/band_plan.cpp:103-110 | the preferred services that occur in their order, then the others as they first appear |
| BandPlan.PreferredFirst | src/decode/band_plan.cpp:103-110 | the list begins with exactly the preferred services that occur, and none of them comes later |
| BandPlan.BandPlanGroups | src/decode/band_plan.cpp:100-155 | one such list of windows per service, in that order; nothing for an invalid plan or rate |
| BandPlan.PlanListsChannelsOnce | src/decode/band_plan.cpp:100-155 | every channel is in exactly one group, allocations in none |
| PresetLists.ByFrequency | src/decode/decoder_manager.cpp:556-572 | the list is the decoders, sorted by frequency |
| PresetLists.KeptOfList | src/session/session.cpp:102-130 | filtering the sorted list keeps as many of every preset as filtering the decoders |
| BandTuning.Receiver.TuneBandPlan | src/session/session.cpp:102-130 | what is kept after a retune, with given presets or the running ones, ready manager or not, and when nothing happens |
| BandTuning.Receiver.ActivateBandPlan | src/session/session.cpp:132-168 | the group and centre picked, the decoders left in every case, and that every preset survives the 45% filter when the radio is off by less than 1% of the rate |
| DecoderRecords.RemoveIsSound | src/decode/decoder_manager.cpp:203-225 | taking one decoder out keeps the counter right and leaves no empty sub-band |
| DecoderRecords.LoadOrders | src/decode/decoder_manager.cpp:112-139 | of two sub-bands with less than four decoders the one with fewer is the lighter, and one with four or more never beats one with less |
| DecoderProtocol.StepKeeps | src/decode/decoder_manager.cpp:92-228 | every critical section of every call keeps the invariant |
| DecoderProtocol.EveryInterleaving | src/decode/decoder_manager.cpp:92-228 | in every reachable state ids are unique, counters right, sub-bands non-empty, weights at least those of the decoders, and decoders inserted = present + removed; a finished add inserted exactly one, an unfinished one none |
| DecoderProtocol.AddersKeepTheirIds | src/decode/decoder_manager.cpp:97-101 | a call keeps its id to the end, once added it stays added |
| DecoderProtocol.NoCallIsStuck | src/decode/decoder_manager.cpp:143-196 | whatever the others do, also when the chosen sub-band vanishes between the locks, a call can go on and gets nearer its end |
| DecoderCalls.ScanAllIsLeast | src/decode/decoder_manager.cpp:103-141 | the scan finds a covering sub-band of the least load, or none when there is none |
| DecoderCalls.ScanFindsBest | src/decode/decoder_manager.cpp:103-141 | spelled out on counts and weights: nothing is chosen only if no sub-band reaches the frequency within 0.4 of its rate, and what is chosen is the lightest, the first of equals |
| DecoderCalls.DecoderManager.AddDecoder | src/decode/decoder_manager.cpp:92-197 | the decoder goes into the sub-band of `ScanFindsBest`, or into a new one on the worker with the least weight and five per sub-band; its id, the monitor, the weight it adds, and that nothing else changes |
| DecoderCalls.DecoderManager.RemoveDecoder | src/decode/decoder_manager.cpp:199-228 | exactly that decoder goes, with its count and its weight, its sub-band when it was the last one there, and the monitor with it |
| DecoderCalls.DecoderManager.RemoveAll | src/decode/decoder_manager.cpp:524-535 | no decoder is left; weights stay |
| DecoderCalls.DecoderManager.SetVoiceMonitor | src/decode/decoder_manager.cpp:230-241 | every flag is set exactly for a voice decoder with that id, and nothing else of any decoder changes |
| DecoderCalls.DecoderManager.AutoMonitor | src/decode/decoder_manager.cpp:243-288 | a live monitor is kept, else the first acceptable voice decoder in scan order is taken, else none |
| DecoderCalls.AddAlone | src/decode/decoder_manager.cpp:92-197 | in every state that the protocol keeps, one call of addDecoder by itself is a legal run of its critical sections, and ends as the sequential call does |
| DecoderCalls.RemoveAlone | src/decode/decoder_manager.cpp:199-228 | likewise for removeDecoder, whether the id is there or not |
| DecoderCalls.AtMostOneMonitored | src/decode/decoder_manager.cpp:222-287 | what every call keeps means: at most one decoder is monitored, a voice decoder with the monitor's id |
| BlockQueues.NothingIsLost | src/decode/decoder_manager.cpp:69-90 | fed = consumed + queued + dropped + cleared |
| BlockQueues.Queues.ConsumedInOrder | src/decode/decoder_manager.cpp:595-607 | after any calls, what a worker was handed are blocks fed to it at strictly increasing places, all those neither dropped nor cleared nor waiting |
| BlockQueues.Queues.Push | src/decode/decoder_manager.cpp:79-88 | the queue never exceeds 192; only a full queue drops, and exactly its oldest block |
| BlockQueues.Queues.Pop | src/decode/decoder_manager.cpp:599-607 | a worker takes the oldest block left, and it is added to what that worker was handed |
| BlockQueues.Queues.Clear | src/decode/decoder_manager.cpp:531-532 | all waiting blocks are cleared |
| BlockQueues.Queues.Feed | src/decode/decoder_manager.cpp:69-90 | every worker with decoders gets the block, the others are left alone |
| VoiceFollow.PickLatest | src/voice/voice_ops.cpp:181-191 | the latest usable assignment |
| VoiceFollow.HopReaches | src/voice/voice_ops.cpp:211-216 | the centre of a hop is off the carrier and keeps it well inside the band, whatever the rate |
| VoiceFollow.Follower.Begin | src/voice/voice_ops.cpp:170-233 | exactly when a follow starts, and where radio and decoders then are |
| VoiceFollow.Follower.Follow | src/voice/voice_ops.cpp:196-232 | what following one assignment does, also when the manager refuses |
| VoiceFollow.Follower.Continue | src/voice/voice_ops.cpp:235-268 | a follow ends exactly when the idle time passes the grace period or following is switched off |
| VoiceFollow.Follower.Update | src/voice/voice_ops.cpp:167-269 | while following the idle time is within the grace period; a follow that ends restores the centre and a permutation of the decoders, if the manager is ready |
| VoiceFollow.Follower.Run | src/main.cpp:338-339 | over any run, with following and hold time set anew each frame, whenever nothing is followed the receiver is where it began with the same decoders |
| Streams.UnescapeUndoesEscape | src/sdr/sdrplay_source.cpp:25-30 | quoting is undone by reading, whatever quotes, backslashes and spaces are in the string |
| RspConfigs.ParsedIsValid | src/sdr/sdrplay_source.cpp:33-53 | whatever is parsed is within the limits, which are spelled out |
| RspConfigs.RoundTrip | src/sdr/sdrplay_source.cpp:23-53 | a configuration comes back from its line if and only if it is valid |
| RspConfigs.SerializeRspConfig | src/sdr/sdrplay_source.cpp:23-32 | the printed line is the list of its words with a blank between them, each named: three quoted names, three numbers, three flags, and both maps behind their sizes, for any order of the keys |
| RspConfigs.Settings.ParseRspConfig | src/sdr/sdrplay_source.cpp:33-53 | the parsed value on success, and on failure the old one untouched |
| RspLines.LineIsRead | src/sdr/sdrplay_source.cpp:33-53 | of any line given as a list of words, with any space between them and names quoted or plain, every word ends up in its own field and a later entry of a map replaces an earlier one; the line is accepted if and only if mode, rate, bandwidth, ppm, both sizes and all gains are within the limits |
| RspLines.EscapeCharacter | src/sdr/sdrplay_source.cpp:25-30 | a backslash goes in front of quotes and backslashes and of nothing else |
| RspLines.EscapeSplits | src/sdr/sdrplay_source.cpp:25-30 | and a string is escaped character by character |
| RspLines.DigitsAreDecimal | src/sdr/sdrplay_source.cpp:27-29 | a size is printed in decimal digits without a leading zero |
| RspLines.SignsAreRead | src/sdr/sdrplay_source.cpp:35-36 | a size behind a minus sign is read modulo 2^64, one that does not fit fails, and a flag may be +1 or -0 but not -1 |

## Left out

- Rounding: every `double` is a real number; the results hold for exact arithmetic.
- Machine integers: sizes are limited to 2^30 points and metrics are unbounded, so the overflow of an `int` or `int64_t` is not modelled; the 32-bit paths, the 16-bit checksum sums, the 64-bit ring counter and the unsigned counts of the configuration line are.
- Jfft.JFFT.Fft: needs two points or more, because the shift at `src/dsp/jfft.cpp:168` is undefined for one point; the other forms take one point too.
- Jfft.JFFT.FftRealVector: an odd length whose half is the current size fails the assertion of `src/dsp/jfft.cpp:77` and is excluded; so it is for IfftRealVector (`src/dsp/jfft.cpp:103`).
- FastFir.JFastFir.UpdateReal: needs transforms of four points or more, as the packed transform halves the size.
- FastFir.JFastFir.SetKernel: buffers are sequences that are reassigned, not arrays written in place; only `UpdateBlock` works on an array of the caller.
- Viterbi.Decoder.Decode: the metric table is a parameter; `genMet` is not part of this model.
- ErrorCorrection.CorrectsFourErrors: the metric must be uniform, and the start penalty must exceed the margin times the number of wrong symbols.
- FrameSync.UWFinder.Detect: always called with `lowest` true and a tolerance of 25, as the source does.
- ReceiveChain.Receive: starts right behind a frame or out of step, not inside a frame already counted; out of step no window before the end of the first frame may pass for a frame, because the finder would report that one.
- EgcPackets.PacketDecoder.HandlePacket: reports events in place of printed lines; what a check over bytes behind the reassembly buffer decides is left open.
- DownConverter.Ddc.Process: filter design is a parameter; only the number of taps and the gain at zero frequency are used.
- BandPlan.BandPlanGroups: labels, colours and allocation limits of the entries play no part; ties of `std::sort` may come in any order.
- BandTuning.Receiver.ActivateBandPlan: windows, waterfalls, status texts and the reset of a voice follow are left out; the order in which presets of the running decoders come back is only known up to a permutation. The manager accepts all presets or none.
- DecoderProtocol.EveryInterleaving: the worker for a new sub-band is arbitrary, because the weights are read without a lock; the monitor is not part of the concurrent model, because the source does not guard it.
- DecoderCalls.DecoderManager.AddDecoder: recording, the decoders' own work, and `setDecoderFreq` are left out; the id, flag, place and weight of a decoder are what remains. Workers are values in a sequence.
- DecoderCalls.DecoderManager.RemoveAll: the queues are cleared in `BlockQueues`.
- Decoder weights: that `weight` is the sum of the decoder weights is false after `removeAll`, which leaves it as it was; it is never less than that sum, which `DecoderProtocol.EveryInterleaving` keeps.
- VoiceFollow.Follower.Run: the return home is claimed for runs in which the manager is ready at every frame; following with two receivers, CallHunter and `tuneToVoice` are left out, as are edits by the user during a follow.
- RspConfigs.RoundTrip: the numbers must be doubles that 17 digits print exactly; the key order of `std::map` is not modelled since nothing depends on it.
- The demodulators, the drivers, sockets, storage, audio, user interface, `IqRing` and the bounded logs are not part of this model.
- `icaoCountry`: its table is not sorted, so nothing is claimed of the search.
