# The integer machinery of CELT, and a jitter buffer

AsahiSpeak encodes every voice frame with CELT, the transform codec of libopus 1.5.2, at a constant bit rate, and plays
what arrives through a jitter buffer of its own. This project models the parts of CELT in which a single wrong bit makes
everything after it unintelligible, and the jitter buffer, and proves what they are for.

- **Range coder.** `RangeSpec` is the coder on unbounded integers: an interval for the encoder, a pointer for the
  decoder. `RangeEncoder` and `RangeDecoder` are the two byte-level classes, with the carry queue, the raw bits that
  grow from the end of the buffer and the byte the two ends may share. `RoundTrip` puts them together for any list of
  calls.
  `FracTelling` is the count of eighths of a bit; `Flags` says what flags and symbols cost.
- **Pulse vectors.** `Cwrs` numbers the integer vectors of a given norm; `CwrsTable` and `CwrsRow` are the two
  implementations, `PulseCoder` sends the number, and `PulseSearch` finds the vector.
- **Side information that both sides must work out alike.** `RateSpec`, `RateSkip`, `RateSplit` and `Rate` (bit
  allocation), with `RateTilt` and `RateShare` on what it comes to for a band; `Laplace`, `LaplaceTail` and `LaplaceP0`;
  `CoarseSpec` and `CoarseEnergy`, `FineSpec` and `FineEnergy` (band energies), with the closed form of the energies in
  `CoarseClosed` and the turns of the last pass in `FineLast`; `Theta` (split angles), `TfCoding` (time-frequency flags)
  and `Dynalloc` (band boosts). Each has a specification of what a call codes and decides; the encoder's method follows
  it, and the decoder's method, given a stream that holds the call, arrives at the same decisions. What the decisions
  mean is proved beside it, in terms of the call alone.
- **Exact transforms and searches.** `Rotation`, `Hadamard`, `Interleaving` and `Reorganise` (undone exactly),
  `TfAnalysis` (an optimum), `Iir` (an unrolled filter against its recurrence).
- **Jitter buffer.** `JitterBuffer`, over every run of pushes and pops.

`Arith` holds shifts, powers of two and bit lengths. Decoders that follow a stream carry the ghost fields `script`, what
an encoder coded into the buffer, and `trace`, what has been read; `old(trace) + ops <= script` says that these
operations come next. Samples and energies are real numbers: the facts proved are those of exact arithmetic, with
c^2 + s^2 = 1 for a rotation and 2 h^2 = 1 for a Haar step as hypotheses.

## Findings

| finding | source | condition |
|---|---|---|
| With one bit left, a fall by more than one step is coded as one bit, kept as it is by the encoder and read as -1 by the decoder, so the two sides' energies part. The encoder's clamp to -1 is skipped in the first band. | opus-1.5.2/celt/quant_bands.c:239-243, 474-477, 218-224 | exactly when a channel's first band has one bit left and asks for less than -1 (`CoarseSpec.EnergiesAgree`); `CoarseSpec.FallLost` is such a frame |
| The unrolled filter leaves its last outputs in the memory unrounded, the direct form leaves them rounded. | opus-1.5.2/celt/celt_lpc.c:209, 271-272 | the memories agree exactly when the rounded outputs of the one equal the outputs of the other (`Iir.MemoriesAgree`); `Iir.MemoriesDiffer` is an input for which they do not |
| For samples left over when N is not a multiple of four, the unrolled filter subtracts what it keeps negated, so the feedback of everything before them enters with the wrong sign. | opus-1.5.2/celt/celt_lpc.c:263-270 | all of them are right exactly when, at each, the past from before them feeds nothing back (`Iir.LeftOverAgrees`); `Iir.LeftOverDiffers` is an input for which the output is 1 instead of -1 |
| After the frame with sequence number 2^64 - 1 the play position is zero again, so numbers already played can be accepted and played again. | src/jitterbuffer.hpp:40-44 | the numbers played increase strictly exactly when no frame before the last one played bears that number (`JitterBuffer.EveryRun`); `JitterBuffer.WrapsAround` is a run that plays a number twice, the second time after greater ones |
| The comment on the recurrence of U gives a value for U(0, K) that the table and the rest of the comments do not use. | opus-1.5.2/celt/cwrs.c:195, 90-94 | the table is followed: U(0, 0) = 1 and U(0, K) = 0 for K > 0 |

## Model

| member | source | states |
|---|---|---|
| RoundTrip.CodeAndDecode | opus-1.5.2/celt/entenc.c:60-305 | For every list of symbols, binary symbols, flags, inverse-cdf symbols, integers and raw fields: encoding succeeds exactly when the bytes have room, and then decoding with the same models returns the same values, with ec_tell, ec_tell_frac and the range equal on both sides after every call |
| RoundTrip.EncodeCall | opus-1.5.2/celt/entenc.c:128-223 | Each routine of the encoder codes the operation of its model, and nothing else |
| RoundTrip.DecodeCall | opus-1.5.2/celt/entdec.c:139-266 | Each routine of the decoder returns the value that was coded next with its model |
| RangeSpec.PrefixInStep | opus-1.5.2/celt/entdec.c:102-115 | A decoder that has read any prefix of what was coded has the encoder's range, byte position and raw position, and its val is the distance from the top of the encoder's interval to the pointer |
| RangeSpec.StepInStep | opus-1.5.2/celt/entdec.c:153-160 | One operation of that simulation: the pointer lies in the operation's part of the range, and the sides stay in step through renormalisation |
| RangeSpec.NextReadable | opus-1.5.2/celt/entdec.c:246-266 | What was coded next is what the pointer, or the raw bits at the read position, say |
| RangeSpec.PutAllContains | opus-1.5.2/celt/entenc.c:101-110 | A buffer in the interval after more operations lies in the interval before them |
| RangeSpec.DoneContains | opus-1.5.2/celt/entenc.c:255-304 | The bytes of ec_enc_done put the pointer into the final interval whatever bytes or raw bits follow in the slack of the last byte |
| RangeSpec.DoneBitsWithinTell | opus-1.5.2/celt/entenc.c:255-271 | Ending the stream never needs more bits than ec_tell has counted |
| RangeSpec.FreqAtInside | opus-1.5.2/celt/entdec.c:139-151 | The frequency that ec_decode returns lies in [fl, fh) if and only if the pointer lies in that symbol's part of the range |
| RangeSpec.IcdfIndexExact | opus-1.5.2/celt/entdec.c:177-196 | The search of ec_dec_icdf ends at the one entry whose part holds the pointer |
| RangeSpec.IcdfIndexInside | opus-1.5.2/celt/entdec.c:198-217 | On any data the search ends at an entry whose part holds the pointer |
| RangeSpec.BitRoutinesAgree | opus-1.5.2/celt/entenc.c:151-184 | A flag coded with any routine may be read with any other: they are the same operation |
| RangeSpec.SymbolsInOrder | opus-1.5.2/celt/entenc.c:128-137 | The symbols of a table divide the range from its low end up, side by side, each but the first in proportion to its frequency |
| RangeEncoder.CarryValue | opus-1.5.2/celt/entenc.c:82-99 | Releasing a digit with a carry keeps the value of written bytes, rem and the run of 255s, as one number in base 256 |
| RangeEncoder.CarryRipples | opus-1.5.2/celt/entenc.c:88-95 | A carry turns a run of 255s into zeros and adds one to the byte before it |
| RangeEncoder.ShiftOut | opus-1.5.2/celt/entenc.c:101-110 | A round of renormalisation multiplies D * 2^31 + val by 256 exactly, and val stays below 2^31, with no carry unless a byte below 255 is there to take it |
| RangeEncoder.Encoder.constructor | opus-1.5.2/celt/entenc.c:112-126 | The empty stream |
| RangeEncoder.Encoder.CarryOut | opus-1.5.2/celt/entenc.c:82-99 | The next digit and its carry enter the number that the bytes and the queue stand for |
| RangeEncoder.Encoder.Normalize | opus-1.5.2/celt/entenc.c:101-110 | The state becomes the unbounded interval, scaled until the range exceeds 2^23 |
| RangeEncoder.Encoder.Encode | opus-1.5.2/celt/entenc.c:128-137 | Narrows the unbounded interval to a symbol, and keeps the carry invariant |
| RangeEncoder.Encoder.EncodeBin | opus-1.5.2/celt/entenc.c:139-148 | The same for a total that is a power of two |
| RangeEncoder.Encoder.BitLogp | opus-1.5.2/celt/entenc.c:151-162 | The same for a flag |
| RangeEncoder.Encoder.Icdf | opus-1.5.2/celt/entenc.c:164-184 | The same for an inverse-cdf symbol |
| RangeEncoder.Encoder.Uint | opus-1.5.2/celt/entenc.c:186-202 | The top eight bits range coded, the rest raw |
| RangeEncoder.Encoder.Bits | opus-1.5.2/celt/entenc.c:204-223 | A raw field is put above those before it, through the window and the bytes at the end |
| RangeEncoder.Encoder.Shrink | opus-1.5.2/celt/entenc.c:248-253 | The raw bytes move to the end of the smaller buffer; nothing coded is lost |
| RangeEncoder.Encoder.Done | opus-1.5.2/celt/entenc.c:255-305 | No error if and only if the bits fit; then the buffer lies in the final interval and holds the raw bits, even where the two ends share a byte |
| RangeDecoder.Decoder.constructor | opus-1.5.2/celt/entdec.c:119-137 | The decoder before anything is read |
| RangeDecoder.Decoder.Decode | opus-1.5.2/celt/entdec.c:139-144 | The frequency lies in the symbol coded next |
| RangeDecoder.Decoder.DecodeBin | opus-1.5.2/celt/entdec.c:146-151 | The same for a total that is a power of two |
| RangeDecoder.Decoder.Update | opus-1.5.2/celt/entdec.c:153-160 | Reads the symbol that holds the frequency |
| RangeDecoder.Decoder.BitLogp | opus-1.5.2/celt/entdec.c:162-175 | Never reads the flag that was not coded |
| RangeDecoder.Decoder.Icdf | opus-1.5.2/celt/entdec.c:177-217 | Returns the entry that was coded |
| RangeDecoder.Decoder.Uint | opus-1.5.2/celt/entdec.c:219-244 | Returns the integer that was coded; on any data one below ft |
| RangeDecoder.Decoder.Bits | opus-1.5.2/celt/entdec.c:246-266 | Returns the raw field that was coded |
| FracTelling.EighthsAreDigits | opus-1.5.2/celt/entcode.c:69-84 | The table of thresholds gives the three binary digits of the logarithm that repeated squaring gives |
| FracTelling.FracTellIsLoop | opus-1.5.2/celt/entcode.c:86-120 | The fast ec_tell_frac equals the loop it replaces, for every range |
| Flags.BitCosts | opus-1.5.2/celt/entcode.h:105-113 | A flag costs exactly logp bits of ec_tell when set, and at most one when clear |
| Flags.CutCosts | opus-1.5.2/celt/entcode.h:105-113 | A symbol of b-bit precision costs at most b bits of ec_tell |
| Flags.ScaleTells | opus-1.5.2/celt/entenc.c:101-110 | Renormalisation leaves ec_tell unchanged |
| Cwrs.PulsesOfIndex | opus-1.5.2/celt/cwrs.c:440-537 | Decoding the index of a vector gives the vector |
| Cwrs.IndexOfPulses | opus-1.5.2/celt/cwrs.c:440-537 | Every index below V(N, K) decodes to a vector with exactly K pulses, whose index it is |
| Cwrs.IndexFits | opus-1.5.2/celt/cwrs.c:440-456 | Indices lie below V(N, K), those with a negative first element above the others |
| Cwrs.IndexInOrder | opus-1.5.2/celt/cwrs.c:440-456 | The index is the rank of a vector among those with its pulses, in the order of the first element that differs: from the greatest down to zero, then from the least up |
| Cwrs.Symmetric | opus-1.5.2/celt/cwrs.c:90-110 | U(N, K) = U(K, N) |
| Cwrs.Monotone | opus-1.5.2/celt/cwrs.c:463-520 | U grows along a row, so the searches of cwrsi find the only place |
| CwrsTable.Icwrs | opus-1.5.2/celt/cwrs.c:440-456 | Returns the index |
| CwrsTable.Cwrsi | opus-1.5.2/celt/cwrs.c:463-537 | Fills in the vector of an index, in the many-pulses and the many-dimensions branch, and returns its sum of squares |
| CwrsRow.Unext | opus-1.5.2/celt/cwrs.c:548-560 | Overwrites a row, or part of one, with the next |
| CwrsRow.Uprev | opus-1.5.2/celt/cwrs.c:564-575 | Overwrites a row with the one before it |
| CwrsRow.NextRow | opus-1.5.2/celt/cwrs.c:548-560 | The step takes row n of U to row n + 1 |
| CwrsRow.PrevRow | opus-1.5.2/celt/cwrs.c:564-575 | The step takes row n + 1 of U to row n |
| CwrsRow.PrevUndoesNext | opus-1.5.2/celt/cwrs.c:548-575 | uprev undoes unext, on any row |
| CwrsRow.NextUndoesPrev | opus-1.5.2/celt/cwrs.c:548-575 | unext undoes uprev, on any row |
| CwrsRow.NcwrsUrow | opus-1.5.2/celt/cwrs.c:579-599 | Fills U(n, 0..k + 1) and returns V(n, k) |
| CwrsRow.IcwrsRow | opus-1.5.2/celt/cwrs.c:636-667 | Returns the same index as the table version, and V(n, k) |
| CwrsRow.CwrsiRow | opus-1.5.2/celt/cwrs.c:605-632 | Fills in the same vector as the table version, and returns its sum of squares |
| PulseCoder.EncodePulses | opus-1.5.2/celt/cwrs.c:458-461 | Codes the index of the vector among V(n, k) |
| PulseCoder.DecodePulses | opus-1.5.2/celt/cwrs.c:539-542 | Gives back the vector that was coded; on any data a vector of exactly k pulses and its sum of squares |
| PulseSearch.PvqSearch | opus-1.5.2/celt/vq.c:165-328 | Exactly k pulses for every band, signed as its samples, and their sum of squares; without signs they are the projection of the band, or none, and then each pulse that is left at the place that brings them closest in angle to the band |
| PulseSearch.PlacePulse | opus-1.5.2/celt/vq.c:250-316 | Each pulse goes where no other place would bring the vector closer in angle to the band, compared without a division |
| PulseSearch.ProjectionLeaves | opus-1.5.2/celt/vq.c:192-241 | The projection places no more than k pulses, and leaves fewer than there are samples, so the fallback for more than N + 3 of them is never taken |
| PulseSearch.SilenceInFront | opus-1.5.2/celt/vq.c:192-241 | A silent band, or one too large, with more than N/2 pulses has them all in its first sample |
| RateSplit.Conservation | opus-1.5.2/celt/rate.c:248-644 | max(total, 0) = pulses + 8 C ebits over all bands + balance + 8 for each skip flag + the reservations still held, whichever bands are kept; codedBands > start |
| RateSplit.EntriesInRange | opus-1.5.2/celt/rate.c:437-529 | No entry is negative, none exceeds its cap or the fine bit it was given, and skipped bands get no pulses |
| RateSplit.AllBandsUse | opus-1.5.2/celt/rate.c:436-529 | Splitting neither makes nor loses bits: what the bands use and what is carried over add up to what was granted |
| RateSplit.SpreadAll | opus-1.5.2/celt/rate.c:421-433 | All bits left over are granted to coded bands |
| RateSkip.SkipBandKeeps | opus-1.5.2/celt/rate.c:331-391 | Skipping a band keeps what is left nonnegative and takes eight eighths for a flag that is coded |
| RateSkip.SkipRunKeeps | opus-1.5.2/celt/rate.c:315-391 | So does the whole loop, for any way of choosing the bands to keep |
| RateSpec.LevelAffordable | opus-1.5.2/celt/rate.c:586-619 | The level that the two bisections settle on asks for no more than the total |
| RateSpec.StepHighest | opus-1.5.2/celt/rate.c:269-293 | Where every cap has room for a fine bit per channel, no affordable interpolation step is higher than the one found |
| RateSpec.RowAtEdge | opus-1.5.2/celt/rate.c:586-618 | The row of the allocation table found is affordable and the next is not, for any tables |
| RateSpec.ReservedIs | opus-1.5.2/celt/rate.c:550-569 | Of the total, bits are set aside for the last skip flag, the intensity band and the dual flag, each exactly where there are enough left, the last only with the one before |
| RateSpec.GrantsAreDemand | opus-1.5.2/celt/rate.c:293-314 | With caps of a fine bit per channel, what the search counts for a level is what is granted |
| RateSpec.TwiceAsMany | opus-1.5.2/celt/rate.c:42-46 | Reserving for a choice among twice as many bands takes one bit more |
| RateTilt.TiltRaises | opus-1.5.2/celt/rate.c:578-600 | One more unit of trim lowers no level of any row, and does not change the last band's |
| RateTilt.TiltGain | opus-1.5.2/celt/rate.c:578-600 | Where neither level is clamped at zero the gain is within an eighth of C * width * bands above * 2^LM / 8 |
| RateTilt.NeutralTrim | opus-1.5.2/celt/rate.c:578-600 | At a trim of 5 + LM a row has exactly its share of the table, and the boost; a single coefficient loses a bit per channel |
| RateTilt.StepsReachNextRow | opus-1.5.2/celt/rate.c:620-639 | 64 steps of the interpolation lead from a level to that of the next row, or above the last to the tilted cap, boosts included, and never down |
| RateShare.ExtraIsShares | opus-1.5.2/celt/rate.c:422-433 | What is left over is shared evenly among the coefficients of the coded bands, the remainder going one each to the lowest |
| RateShare.WeighedIsSpread | opus-1.5.2/celt/rate.c:333-340 | The amount weighed for a skip decision is what the band would end up with if no more bands were skipped |
| RateShare.KeepIsLastBoosted | opus-1.5.2/celt/rate.c:634-635 | No band above the last that may not be skipped is boosted, and it is boosted itself unless it is the first |
| RateShare.FineBitsGreatest | opus-1.5.2/celt/rate.c:474-483 | A number of fine bits is granted if and only if it is at most eight, at most the fair share rounded to the nearest, and at most what the band has |
| RateShare.WideBand | opus-1.5.2/celt/rate.c:449-490 | A band below its cap spends all its bits, the rest of its fine bits on pulses, and comes first in the last pass if and only if its share was rounded down |
| RateShare.OffsetFalls | opus-1.5.2/celt/rate.c:467-472 | The fewer bits a band has, the more its fine bits are favoured |
| RateShare.LongerFrame | opus-1.5.2/celt/rate.c:457-472 | For a frame twice as long the fair share rises by half a fine bit, by three quarters for the first two bits and by five eighths for the third |
| RateShare.CappedBand | opus-1.5.2/celt/rate.c:449-513 | A band over its cap gets more fine bits for what it cannot use, up to eight, and comes first in the last pass if those take less than its own excess |
| RateShare.SingleBand | opus-1.5.2/celt/rate.c:492-513 | A single sample takes a sign bit per channel, and all else it has becomes fine bits |
| RateShare.SkippedFirst | opus-1.5.2/celt/rate.c:522-529 | A skipped band comes first in the last pass exactly if it has a fine bit |
| RateShare.AngleIsFreedom | opus-1.5.2/celt/rate.c:454-455 | A coded angle between mid and side is one degree of freedom more |
| RateShare.StereoKept | opus-1.5.2/celt/rate.c:395-420 | The stereo parameters chosen take effect as far as bands are coded and bits reserved; without an intensity band above the first there is no dual flag and its bit goes back |
| RateShare.ThresholdReached | opus-1.5.2/celt/rate.c:574-577 | A band reaches its threshold with a bit per channel and 3/16 bit per sample |
| RateShare.SkippedBandGets | opus-1.5.2/celt/rate.c:341-391 | A flag is coded for a band that would end up with its threshold, and a fine bit per channel beside the flag; skipped, it keeps a fine bit per channel if it would have had one |
| RateShare.KeptBandReached | opus-1.5.2/celt/rate.c:315-391 | Whatever is decided, the top band that the skip loop leaves ends up with its threshold at least, unless it is the last that may not be skipped |
| Rate.Hysteresis | opus-1.5.2/celt/rate.c:352-363 | A band that was coded in the last frame is kept wherever it would be kept had it not been |
| Rate.EncodeAllocation | opus-1.5.2/celt/rate.c:315-531 | The encoder computes the conserving outcome for its own skip choices, and codes the flags, the intensity band and the dual-stereo flag of it |
| Rate.DecodeAllocation | opus-1.5.2/celt/rate.c:315-531 | From the bits alone the decoder arrives at the encoder's codedBands, pulses, ebits, priorities, balance, intensity and dual stereo, for any skip choices; on any data its result is the outcome of some choices, so it conserves bits too |
| Laplace.DecodedEncoded | opus-1.5.2/celt/laplace.c:51-131 | Every frequency of a value's interval decodes to the value the encoder writes back, and to its interval |
| Laplace.Disjoint | opus-1.5.2/celt/laplace.c:51-92 | Values that the encoder tells apart have disjoint intervals |
| Laplace.EncodedValid | opus-1.5.2/celt/laplace.c:62-88 | Intervals lie within 32768, and clamping keeps the sign and never raises the magnitude |
| Laplace.SignsAdjacent | opus-1.5.2/celt/laplace.c:71-87 | The two values of a magnitude have intervals side by side, the negative one first, of the same width |
| Laplace.MagnitudesInOrder | opus-1.5.2/celt/laplace.c:62-87 | Zero comes first, and the interval of every magnitude begins where that of the one below it ends |
| Laplace.FrequenciesDecay | opus-1.5.2/celt/laplace.c:44-70 | Above the minimum of one, frequencies fall off geometrically, from a share of what zero and 16 guaranteed values a side leave |
| Laplace.ClampedAtEnd | opus-1.5.2/celt/laplace.c:71-81 | A value is replaced only if no other of its sign would fit |
| Laplace.LaplaceEncode | opus-1.5.2/celt/laplace.c:51-92 | Codes the interval and writes back the value |
| Laplace.LaplaceDecode | opus-1.5.2/celt/laplace.c:94-134 | Returns the value the encoder wrote back |
| LaplaceTail.TailAlwaysFits | opus-1.5.2/celt/laplace.c:34-49 | For every decay up to 11456 and every probability of zero the tail starts at 32766 or below, so the coder's assumption always holds |
| LaplaceP0.EncodeP0 | opus-1.5.2/celt/laplace.c:136-162 | Codes a sign and chunks of seven |
| LaplaceP0.DecodeP0 | opus-1.5.2/celt/laplace.c:164-192 | Returns any integer that was coded, for every p0 and decay allowed |
| LaplaceP0.SevenMoves | opus-1.5.2/celt/laplace.c:179-190 | A chunk of seven uses up the stream or the range, so that the decoder's loop ends on any data |
| CoarseSpec.EnergiesAgree | opus-1.5.2/celt/quant_bands.c:428-490 | The decoder's energies equal the encoder's if and only if no channel's first band has one bit left for a fall by more than one step; then so do the predictors |
| CoarseSpec.FallLost | opus-1.5.2/celt/quant_bands.c:239-243 | A frame of two bytes in which they do not: the encoder goes on with -5, the decoder with -1 |
| CoarseSpec.LostAtStart | opus-1.5.2/celt/quant_bands.c:214-224 | After the first band nothing below -1 is asked for when one bit is left |
| CoarseSpec.BudgetKept | opus-1.5.2/celt/quant_bands.c:227-251 | Coding energies never exceeds the budget, through all four cases |
| CoarseSpec.Accounted | opus-1.5.2/celt/quant_bands.c:252-269 | A coded energy and its error add up to the band's energy |
| CoarseSpec.HalfStep | opus-1.5.2/celt/quant_bands.c:191-199 | A band whose wish was granted has an error of half a step at most |
| CoarseSpec.NothingGivenUp | opus-1.5.2/celt/quant_bands.c:247-247 | Where the badness is zero every wish was granted |
| CoarseSpec.DecayOf | opus-1.5.2/celt/quant_bands.c:77-136 | Every pair of the probability tables leaves room for a tail |
| CoarseClosed.EnergyIs | opus-1.5.2/celt/quant_bands.c:227-257 | Every coded energy in closed form: the coefficient times the old energy, limited below at -9, plus (1 - beta) times the sum of the values of the channel's lower bands, plus its own value |
| CoarseClosed.HeardEnergyIs | opus-1.5.2/celt/quant_bands.c:476-489 | The same for the decoder, with the values it received |
| CoarseClosed.FallLimited | opus-1.5.2/celt/quant_bands.c:200-212 | The wish is the step nearest the band's energy, unless the energy would fall below the decay limit: then the level is at the limit or less than two steps below, or nothing is coded |
| CoarseClosed.NearestAllowed | opus-1.5.2/celt/quant_bands.c:214-226 | The value asked for is the nearest to the wish of those allowed: above the first band at most 1 with less than 24 bits beyond three for every value to come, at least -1 with less than 16, and no rise above band 1 of a low-frequency channel |
| CoarseClosed.IntraForgets | opus-1.5.2/celt/quant_bands.c:170-176 | The energies of an intra frame are the same for any old energies, on either side, so it makes up for anything lost |
| CoarseClosed.LongerPredictsLess | opus-1.5.2/celt/quant_bands.c:63-69 | The longer the frames, the less is predicted from the last frame and from the bands below |
| CoarseClosed.InterIsNearer | opus-1.5.2/celt/quant_bands.c:77-136 | In every band and frame size zero is likelier, and the decay faster, with prediction from the last frame than without |
| CoarseClosed.ModelUnits | opus-1.5.2/celt/quant_bands.c:229-232 | The tables hold probabilities of zero and decays in units of 1/256 |
| CoarseEnergy.QuantCoarseEnergy | opus-1.5.2/celt/quant_bands.c:154-273 | Codes the call and leaves in the arrays the energies and errors of the recurrence |
| CoarseEnergy.DecodeEnergies | opus-1.5.2/celt/quant_bands.c:428-490 | Reads exactly what the call coded, whatever was lost in it, and leaves the decoder's energies |
| CoarseEnergy.DecodeIntra | opus-1.5.2/celt/celt_decoder.c:1168-1168 | Reads the flag exactly when it was coded, and false otherwise |
| FineSpec.FineErrors | opus-1.5.2/celt/quant_bands.c:361-396 | Every band's error becomes what its part misses; other bands' errors stay |
| FineSpec.FineSum | opus-1.5.2/celt/quant_bands.c:390-391 | Energy and error together are unchanged |
| FineSpec.LastSum | opus-1.5.2/celt/quant_bands.c:419-420 | The last pass, too, keeps energy and error together unchanged |
| FineSpec.FineBound | opus-1.5.2/celt/quant_bands.c:361-396 | From half a step, n fine bits leave an error of at most 2^-(n + 1) |
| FineSpec.FineAccuracy | opus-1.5.2/celt/quant_bands.c:154-396 | Coarse and fine together: the energy of a band whose wish was granted is within 2^-(n + 1) of the original |
| FineSpec.LastBound | opus-1.5.2/celt/quant_bands.c:398-426 | The last pass halves the error of every band it serves and leaves the others' alone |
| FineSpec.LastBits | opus-1.5.2/celt/quant_bands.c:403-425 | The last pass spends exactly the bits it takes off what is left, and never one too many |
| FineLast.LastLevels | opus-1.5.2/celt/quant_bands.c:403-425 | After the last pass a channel's energy has moved by 2^-(n + 2), up or down as its error says, if and only if its band has fewer than eight fine bits and its turn comes while a bit per channel is left: after the bands of priority 0, or its own priority's, before it; no other energy changes |
| FineLast.FirstRoundFirst | opus-1.5.2/celt/quant_bands.c:404-407 | If a band of priority 0 that wants a bit goes without, no band of priority 1 changes |
| FineLast.MovedInAll | opus-1.5.2/celt/quant_bands.c:403-425 | The bands that change are as many as the bits left can serve, or all that want one |
| FineEnergy.QuantFineEnergy | opus-1.5.2/celt/quant_bands.c:361-396 | Codes the parts and updates the arrays in place |
| FineEnergy.UnquantFineEnergy | opus-1.5.2/celt/quant_bands.c:492-514 | Arrives at the encoder's energies |
| FineEnergy.QuantEnergyFinalise | opus-1.5.2/celt/quant_bands.c:398-426 | Codes the last bits in two rounds and updates the arrays in place |
| FineEnergy.UnquantEnergyFinalise | opus-1.5.2/celt/quant_bands.c:516-544 | Arrives at the encoder's energies |
| TfCoding.ReserveKept | opus-1.5.2/celt/celt_encoder.c:756-784 | The flags never use up the bit kept back for tf_select, nor exceed the frame |
| TfCoding.SelectFits | opus-1.5.2/celt/celt_encoder.c:785-790 | So coding tf_select never exceeds the frame |
| TfCoding.WantedCoded | opus-1.5.2/celt/celt_encoder.c:767-781 | With bits enough for every flag, what is coded is what was wanted |
| TfCoding.TfTableIs | opus-1.5.2/celt/celt.c:259-269 | The table of resolution changes in closed form: a set flag always asks for better time resolution, and tf_select never for less |
| TfCoding.CheapestFirst | opus-1.5.2/celt/celt_encoder.c:767-781 | A flag that differs costs less in the first band than in the others, and less in a transient |
| TfCoding.SelectFollowed | opus-1.5.2/celt/celt_encoder.c:785-794 | tf_select is left out only where it makes no difference to any band |
| TfCoding.TfEncode | opus-1.5.2/celt/celt_encoder.c:756-794 | Codes the flags that fit and leaves the resolution changes in the array |
| TfCoding.TfDecode | opus-1.5.2/celt/celt_decoder.c:460-497 | From the frame size and the bits alone leaves the encoder's resolution changes in the array |
| TfAnalysis.BestIsLeast | opus-1.5.2/celt/celt_encoder.c:682-707 | The forward recurrence costs no more than any sequence of flags |
| TfAnalysis.LeastIsMinimum | opus-1.5.2/celt/celt_encoder.c:682-745 | Its result is the minimum over all sequences, and following the paths back attains it |
| TfAnalysis.CostIs | opus-1.5.2/celt/celt_encoder.c:682-707 | What is minimised: the bands' own costs, and lambda for every change of flag, counting from a clear one outside of transients |
| TfAnalysis.FreeWhereMet | opus-1.5.2/celt/celt_encoder.c:682-707 | A band costs nothing exactly where the resolution change is what its metric asks for |
| TfAnalysis.Analyse | opus-1.5.2/celt/celt_encoder.c:682-745 | The flags found cost the least of all 2^len sequences; tf_select is set exactly when transient and strictly cheaper, so a transient has the least cost over both tables |
| Dynalloc.ResultBounds | opus-1.5.2/celt/celt_encoder.c:2026-2047 | A band is boosted in whole quanta, no more than wanted, and by less than a quantum beyond its cap |
| Dynalloc.BoostsSpent | opus-1.5.2/celt/celt_encoder.c:2040-2042 | The boosts add up to what is taken off the frame |
| Dynalloc.QuantumNearest | opus-1.5.2/celt/celt_encoder.c:2027-2030 | A quantum is the size nearest six bits of those from an eighth of a bit to a bit per sample |
| Dynalloc.FirstFlagCost | opus-1.5.2/celt/celt_encoder.c:2046-2048 | A band's first flag costs six bits, less one for every band boosted before it, and at least two |
| Dynalloc.BoostedIff | opus-1.5.2/celt/celt_encoder.c:2031-2045 | A band that wants to be boosted is if and only if its cap is positive and a first flag fits into what the boosts so far have left of the frame |
| Dynalloc.BandTold | opus-1.5.2/celt/celt_encoder.c:2031-2045 | A band codes a set flag for every quantum it gets, all but the first for a bit, then a clear one if it got all it wanted; it stops short only when no flag fits or the cap is reached |
| Dynalloc.EncodeBoosts | opus-1.5.2/celt/celt_encoder.c:2017-2050 | Codes the boosts and leaves in the array what was coded, for any requests |
| Dynalloc.DecodeBoosts | opus-1.5.2/celt/celt_decoder.c:1217-1246 | Gives every band the encoder's boost, and takes the same total off the frame |
| Theta.Isqrt32 | opus-1.5.2/celt/mathops.c:43-66 | The exact floor of the square root |
| Theta.ComputeQn | opus-1.5.2/celt/bands.c:647-670 | One, or an even number from 2 to 256 |
| Theta.NearestResolution | opus-1.5.2/celt/bands.c:647-668 | The number of steps is the even number within one of 2^(qb/8), for the share of bits qb: at most 64 eighths, at most what leaves 32 eighths and a pulse, and at most the quotient per degree of freedom; below half a bit it is one |
| Theta.MoreBits | opus-1.5.2/celt/bands.c:647-668 | More bits never give fewer steps |
| Theta.TriangularPartition | opus-1.5.2/celt/bands.c:806-816 | The triangular intervals partition the total, and rise in width by one up to the middle and fall again |
| Theta.TriangularRoundTrip | opus-1.5.2/celt/bands.c:817-836 | The closed form through the square root recovers the angle from any frequency of its interval |
| Theta.TriangularDisjoint | opus-1.5.2/celt/bands.c:806-816 | No frequency belongs to two angles |
| Theta.SteppedPartition | opus-1.5.2/celt/bands.c:780-789 | The stepped intervals partition the total, three wide up to the middle and one wide above |
| Theta.StepRoundTrip | opus-1.5.2/celt/bands.c:790-797 | The stepped decoder returns an angle if and only if the frequency lies in its interval |
| Theta.EncodeTheta | opus-1.5.2/celt/bands.c:777-816 | Codes the angle with the pdf of its split |
| Theta.DecodeTheta | opus-1.5.2/celt/bands.c:790-836 | Returns the angle that was coded; on any data one within 0..qn |
| Rotation.PassUndone | opus-1.5.2/celt/vq.c:47-71 | A pass with the opposite angle undoes a pass, for every length and stride |
| Rotation.SpreadingUndone | opus-1.5.2/celt/vq.c:74-117 | dir = -1 undoes dir = 1 and the other way round, over all blocks and both strides |
| Rotation.SpreadingEnergy | opus-1.5.2/celt/vq.c:74-117 | The sum of squares is preserved |
| Rotation.PassTrails | opus-1.5.2/celt/vq.c:47-71 | A pass of angle (c, s) leaves in the last stride elements c times the element plus s times what the same sum gives a stride below it |
| Rotation.SpreadTrails | opus-1.5.2/celt/vq.c:104-116 | So the end of a block is spread with sine -s before quantisation, the second stride after the first and with the angle turned by a right angle, and with s, in the other order, on the way back |
| Rotation.RotatePass | opus-1.5.2/celt/vq.c:47-71 | exp_rotation1 in place is that pass |
| Rotation.SecondStride | opus-1.5.2/celt/vq.c:92-99 | For len >= 8 stride the loop's second stride r is the rounded root of len / stride: (2 r - 1)^2 stride < 4 len <= (2 r + 1)^2 stride |
| Rotation.RootUnique | opus-1.5.2/celt/vq.c:95-98 | There is only one such number |
| Rotation.ExpRotation | opus-1.5.2/celt/vq.c:74-117 | exp_rotation in place is the spreading of every block, and nothing where it returns early |
| Hadamard.HaarTwice | opus-1.5.2/celt/bands.c:632-645 | A Haar step undoes itself |
| Hadamard.StepCommutes | opus-1.5.2/celt/bands.c:1149-1160 | Haar steps of different strides commute |
| Interleaving.OrderIsPermutation | opus-1.5.2/celt/bands.c:564-581 | The order of the short blocks is a permutation |
| Interleaving.RowsReflected | opus-1.5.2/celt/bands.c:572-581 | The orders are bit-reversed Gray codes from the end: each ends with twice the order half as long and begins with that order backwards, twice and plus one, so that the constant row is last |
| Interleaving.BlocksGathered | opus-1.5.2/celt/bands.c:583-630 | The sample of block i in group j becomes coefficient j of the row that the order gives block i, and back |
| Interleaving.InterleaveUndoes | opus-1.5.2/celt/bands.c:583-630 | Interleaving inverts deinterleaving, in either order of the blocks |
| Interleaving.Deinterleave | opus-1.5.2/celt/bands.c:583-607 | In place, through a scratch vector |
| Interleaving.Interleave | opus-1.5.2/celt/bands.c:609-630 | In place, through a scratch vector |
| Reorganise.Haar1 | opus-1.5.2/celt/bands.c:632-645 | haar1 in place is a Haar step |
| Reorganise.RecombinedTwice | opus-1.5.2/celt/bands.c:1149-1217 | Recombination is undone by doing its stages again in the same order |
| Reorganise.MergedSum | opus-1.5.2/celt/bands.c:1149-1159 | Recombining r times leaves in the first of every 2^r short-block coefficients their sum, scaled by a power of the step's factor |
| Reorganise.BlocksMerged | opus-1.5.2/celt/bands.c:1139-1161 | A positive tf_change merges the short blocks by that many doublings, and makes them longer |
| Reorganise.BlocksDivided | opus-1.5.2/celt/bands.c:1163-1176 | A negative tf_change halves the blocks as often as it asks for or their length allows, and no less |
| Reorganise.Arrange | opus-1.5.2/celt/bands.c:1149-1185 | Hands the quantiser the recombined, divided and ordered band |
| Reorganise.Restore | opus-1.5.2/celt/bands.c:1189-1217 | From the reorganised form of a band restores the band exactly |
| Reorganise.QuantBand | opus-1.5.2/celt/bands.c:1109-1217 | Around a quantiser that changes nothing, the band comes back, for every tf_change, block count and length |
| Iir.XcorrKernel | opus-1.5.2/celt/pitch.h:65-129 | Adds the correlation at shift k to sum k, for every length from 3, in spite of the rotating registers |
| Iir.Patched | opus-1.5.2/celt/celt_lpc.c:236-262 | A later output is the kernel's sum and what the new samples feed back |
| Iir.IirDirect | opus-1.5.2/celt/celt_lpc.c:196-212 | The recurrence, with any rounding of what is fed back; the memory it leaves is the rounded past |
| Iir.IirOutputs | opus-1.5.2/celt/celt_lpc.c:213-270 | For any number of samples: the outputs of the recurrence in groups of four, and after them those of the loop for samples left over |
| Iir.IirUnrolled | opus-1.5.2/celt/celt_lpc.c:213-275 | The same, and its last outputs in the memory |
| Iir.WholeGroups | opus-1.5.2/celt/celt_lpc.c:224-275 | For N a multiple of four the memory holds the outputs of the recurrence, unrounded |
| Iir.LeftOverAgrees | opus-1.5.2/celt/celt_lpc.c:263-270 | The samples left over are those of the recurrence if and only if, at each of them, the past from before them feeds nothing back |
| Iir.LeftOverDiffers | opus-1.5.2/celt/celt_lpc.c:263-270 | Five samples for which the fifth is 1 where the recurrence gives -1 |
| Iir.MemoriesAgree | opus-1.5.2/celt/celt_lpc.c:196-275 | The two forms leave the same memory if and only if the last outputs of the direct form, rounded, are those of the unrolled form |
| Iir.MemoriesDiffer | opus-1.5.2/celt/celt_lpc.c:209-272 | An input and a rounding for which they leave 0 and 0.5 |
| JitterBuffer.EveryRun | src/jitterbuffer.hpp:20-47 | Over every run: at most 32 frames wait, five imply playing, none waits behind the play position; every frame accepted is played, dropped or held, once; the numbers played increase strictly if and only if no frame before the last one played bears 2^64 - 1, and all lie before the play position if and only if no frame played bears it |
| JitterBuffer.PrimedByFive | src/jitterbuffer.hpp:30-36 | Nothing is played before five frames have been accepted |
| JitterBuffer.PrimedWhileFed | src/jitterbuffer.hpp:30-37 | After any run the buffer is playing if and only if five frames have been held together since the last pop that found it empty |
| JitterBuffer.PopPlays | src/jitterbuffer.hpp:33-47 | So a pop plays the frame with the smallest number held exactly if there is one and the buffer has been so fed, and otherwise changes nothing that is held or played |
| JitterBuffer.WaitsAgain | src/jitterbuffer.hpp:36-37 | After a pop that finds it empty nothing is played, whatever is pushed and popped, until five frames are held again |
| JitterBuffer.FivePlay | src/jitterbuffer.hpp:30-46 | Once five are held, whatever came before, the next pop plays the first of them |
| JitterBuffer.AllPlayed | src/jitterbuffer.hpp:20-47 | Five consecutive frames or more, pushed in order, are played in order, each with its own data: of up to 32 all, of more just the last 32 |
| JitterBuffer.WrapsAround | src/jitterbuffer.hpp:20-47 | A run of pushes and pops in which a number is played a second time, after greater ones |
| JitterBuffer.JitterBuffer.Push | src/jitterbuffer.hpp:20-31 | Late frames are ignored, a full buffer drops its first, a number that is held keeps its frame |
| JitterBuffer.JitterBuffer.Pop | src/jitterbuffer.hpp:33-47 | Returns the first frame and moves the play position past it, or nothing while not primed or empty |

## Left out

- Rounding: energies, samples and filter values are real numbers; floating-point error and the fixed-point build's Q
  formats are not modelled. The rounding of the filter is any function.
- The angle of the rotation: celt_cos_norm is a parameter, a point of the unit circle.
- RateSpec.StepHighest: needs caps of a fine bit per channel at least, which init_caps provides; with smaller caps a
  higher level may ask for less.
- CoarseEnergy.QuantCoarseEnergy: one pass. Coding both an intra and an inter frame and keeping the better restores a
  copied coder state; the choice and loss_distortion are not modelled.
- CoarseEnergy.DecodeEnergies: for a decoder that has lost no packet; after a loss the decoder changes its energies
  before reading.
- PulseCoder.EncodePulses: V(n, k) below 2^32, as the pulse cache arranges; inside, counts are unbounded integers.
- Iir.IirUnrolled: no fewer samples than the order, since the source reads that many outputs back into the memory.
- RangeEncoder.Encoder.Encode: ec_enc_patch_initial_bits is not modelled, nor is the wrap-around of the 32-bit counters
  nbits_total and ext.
- RangeDecoder.Decoder.Decode: the buffer is an immutable sequence of bytes.
- Cwrs.Symmetric: U is the recurrence; the constants of the source's table are not compared with it.
- TfAnalysis.Analyse: from the band metrics on; computing them is not modelled.
- Theta.EncodeTheta: from the quantised angle on; measuring the angle, the bias towards 0 and 16384, and the conversion
  to gains with bitexact_cos are not modelled.
- Reorganise.QuantBand: the band itself; the low band for folding, the collapse masks and the single-sample case of
  quant_band_n1 are not modelled.
- Rate.EncodeAllocation: the allocation tables are parameters, with a first row of zeros.
- FineEnergy.QuantFineEnergy: at most 14 fine bits, as the source's shift requires.
- JitterBuffer.JitterBuffer.Push: calls are taken one after the other, as the mutex makes them.
- MDCT and FFT, pitch search, transient analysis, rate control, concealment, anti-collapse, stereo decisions,
  networking, audio devices and the lock-free queue.
