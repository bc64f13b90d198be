# NanoVNA firmware: verified model

This project models the algorithmic core of the NanoVNA-H / H4 firmware in Dafny and proves what the firmware
relies on. `float` is modelled as `real`, unsigned 32-bit arithmetic as integers with every wrap written out (or
shown not to happen), files, flash, registers and display memory as arrays and sequences of bytes or words.
`dafny verify dfyconfig.toml` checks everything.

| file | what it models |
|---|---|
| `Arithmetic.dfy` | word sizes and a few shared facts of arithmetic |
| `Fraction.dfy` | the continued-fraction search that turns a ratio into a divider: best approximation, no wrap, termination |
| `Registers.dfy`, `Bytes.dfy` | the eight register bytes of a divider, and what the chip reads back |
| `Bands.dfy` | the band tables of the two boards and the choice of a band |
| `Synth.dfy` | the generator with its caches, from power-on over whole runs of frequency changes, mutes, restarts, and changes of power, offset and crystal |
| `Drive.dfy` | which drive strengths a run leaves on the outputs, by its operations alone |
| `Tuning.dfy` | frequencies in hertz: dividers that fit, and from power-on exactly when the running outputs are within 1 Hz |
| `PackBits.dfy` | PackBits coding (section 9 of TIFF 6.0), in place on an overlapping buffer |
| `Screenshot.dfy` | saving and loading screenshots through one shared buffer, and the palette capture |
| `SweepGrid.dfy` | the sweep frequencies: table, closed form and ideal grid |
| `ComplexNumbers.dfy`, `ErrorModel.dfy` | error boxes, error terms and their inversion |
| `Calibration.dfy` | calibration sessions on slots that hold standards or terms, and the correction of readings |
| `Interpolation.dfy` | error terms between calibration frequencies |
| `LMatch.dfy` | L-network matching: every returned network matches and none is missing |
| `BitMasks.dfy`, `Redraw.dfy` | dirty-cell marking, culling and incremental redraw |
| `Line.dfy` | the line algorithm that streams pixels to the display |
| `Numbers.dfy`, `Frequency.dfy` | digits and parser, division by ten, frequency text |
| `Window.dfy` | the interrupt-driven measurement window and the reading computed from it |
| `SlotStore.dfy` | saved settings in flash with a validity cache |

Each method that follows an imperative function of the firmware is proved against a specification function, and
the lemmas are about that function.

## Results worth knowing

Some statements one would expect turned out to hold only under a condition. The code is kept as it is; the
condition is proved exact, or a concrete input is given.

* A run of the generator leaves output dividers of the lowest band in place exactly when its last frequency is in
  100–130 MHz at 2 mA, and before it the generator was left below 26 kHz or was stale already; a mute, a restart or
  another strength ends it (`Synth.StaleIff`, `Synth.EndsStale`). The test at si5351.c:564 compares the byte that
  holds `pll_n` in one row with the byte that holds `div` in the other (`Synth.StaleJump`, `Synth.StaleRun`). The
  running outputs are then near 2 MHz; in every other case they are within 1 Hz of any frequency the crystal reaches
  (`Tuning.Session`).
* Skipped register writes can keep the drive strength of the band before: the control bytes are those of a cold start
  exactly when nothing is stale and the two bands ask for the same strengths (`Synth.ControlsIff`). By the operations of
  a run: it keeps strengths exactly when the strength is automatic and the first of the last frequencies that share one
  divider lies in a band of other strengths (`Drive.DriveIff`); with fixed strengths it never does
  (`Drive.FixedStrengths`). On an H4 board at automatic drive, 590 MHz and then 610 MHz leaves CLK1 at 4 mA instead of
  8 mA (`Synth.DriveKept`).
* `si5351_disable_output` powers the clocks down without telling the control cache, so a clock comes back after a
  mute exactly when its control byte changed (`Synth.Generator.ResumeAfterMute`).
* The lowest frequency whose divider fits its registers with a 26 MHz crystal is 792 Hz
  (`Tuning.LowestFrequency`).
* A LOAD collected after `cal_done` gives the true directivity but does not repair the source match
  (`Calibration.LateLoadIff`).
* The interpolation of error terms looks one point past the last exactly when the bands change inside the last
  interval and the frequency lies behind the change (`Interpolation.MeasuredIff`); 100.5 MHz in a calibration of 101
  points from 1 to 101 MHz is such a request (`Interpolation.PastTheLastPoint`).
* The points interpolated between are of the harmonic band of the frequency exactly when it has two neighbours of its
  band to use (`Interpolation.StaysInBandIff`), which a band two steps wide guarantees (`Interpolation.WideIsServed`).
  With 21 points from 50 kHz to 900 MHz, 120 MHz is extrapolated from points of two other bands
  (`Interpolation.BandsMixed`), although main.c:2018 means to keep the bands apart.
* The signed difference of two 32-bit times is their difference exactly while that fits 32 signed bits
  (`Window.DeltaIff`, `Window.DeltaFails`).
* The menu's APPLY switch is not guarded: switched on after a collection and before `cal_done`, correction takes the raw
  reading for an error term (`Calibration.SwitchedTooEarly`); without the switch that never happens
  (`Calibration.TermsOnly`), and `Calibration.AppliedIff` tells it for every run.
* L-matching declines a load with a hundred times more inductive than resistive part, but not a capacitive one:
  measure.c:296 compares the signed quotient (`LMatch.OutcomeIff`).
* The codec clock is right whatever the generator has been through, even with stale dividers
  (`Tuning.CodecIsAccurate`).
* The checksum notices two neighbouring words that change places unless they differ by one at most
  (`SlotStore.ExchangeDetected`), which a plain sum would not.
* The absolute value in the load resistance is harmless exactly for passive loads (`LMatch.ImpedanceIff`).
* The frequency text shows leftover buffer contents exactly when a precision asks for more digits than there are
  and there are at least two groups behind the point (`Frequency.RoundedIff`); the formats used in the firmware ask
  for 3 or 6 digits and never meet this.
* The number parser takes some letters for digits in every radix (`Numbers.TakenIff`, `Numbers.LettersTaken`): the
  comment at common.c:65 promises an upper-case conversion, but the code clears bit 5 after subtracting '0'.
* A reading has no value when the cosine part of the reference is zero, even if its sine part is not
  (`Window.GammaIff`).
* measure.c:221 says an absent parallel reactance can be NaN; the code stores 0.0, and the model follows the code.

## Model

| member | source | states |
|---|---|---|
| Fraction.ApproximateFraction | si5351.c:267-279 | the loop terminates without a wrap in 32 bits for all inputs, and returns a coprime pair n/d with d at most max that no other denominator up to max beats |
| Fraction.SearchAnswers | si5351.c:267-279 | from every state the loop can be in (determinant 1, convex combination of the target) the answer is a best approximation |
| Fraction.ApproximationIsBest | si5351.c:267-279 | for every ratio: minimal residual over all p and all q up to max, lowest terms, between 0 and 1 |
| Fraction.ExactWhenReducible | si5351.c:267-279 | a ratio that some allowed denominator expresses exactly is returned exactly |
| Registers.DecodeImage | si5351.c:203-253 | the bytes written give back every parameter modulo its register width, with output divider and divide-by-4 bits apart |
| Registers.SurvivesIffFits | si5351.c:203-253 | P1, P2, P3 survive exactly when they fit 18, 20 and 20 bits |
| Registers.KnownImages | si5351.c:127-133 | the images listed in the firmware's start-up table, for 26 MHz times 32 and a division by 104 |
| Registers.KnownDigits | si5351.c:203-253 | where every hexadecimal digit of the three parameters goes |
| Registers.WrittenElsewhere | si5351.c:91-93 | a bulk write changes its own block and no other register |
| Bands.GetHarmonicLevel | si5351.c:443-452 | the loop finds the first row whose limit reaches the frequency |
| Bands.Config.Level | si5351.c:443-452 | the row found is the least one that reaches the frequency |
| Bands.PlanFacts | si5351.c:355-401 | which frequencies each band gets, its output divider exponent, and 2 mA in the lowest band |
| Bands.LevelIff | si5351.c:443-452 | a band is exactly the interval from the largest earlier limit to its own, wherever the harmonic threshold puts the limits |
| Bands.PllsInRange | si5351.c:355-401 | at the default threshold the harmonics keep CLK1's PLL in 600 MHz .. 1.2 GHz and CLK0's in 360 MHz .. 1.2 GHz up to 2.7 GHz; CLK1 uses odd harmonics, CLK0 higher ones |
| Synth.SplitIsClosest | si5351.c:282-302 | the programmed divider differs from the ideal one by less than 1/(den * (2^20 - 1)), and no divider with a 20-bit denominator is closer |
| Synth.SplitExact | si5351.c:282-302 | it is exact whenever some 20-bit denominator allows it |
| Synth.SplitInRange | si5351.c:282-302 | after the carry of num == denom the numerator lies below the denominator and the denominator in 1 .. 2^20 - 1 |
| Synth.RegisterMap | si5351.h:58-66 | which registers hold the PLLs, the dividers, the controls and the output enables |
| Synth.Generator.constructor | si5351.c:120-149 | start-up ends on 26 MHz at 2 mA with caches, dividers and control bytes of a cold start and enabled outputs, whatever the registers held |
| Synth.Generator.SetupPll | si5351.c:190-218 | the chip holds this divider on that PLL and nothing else changed |
| Synth.Generator.SetupMultisynth | si5351.c:220-263 | the chip holds this divider and control byte on that output; the control register is written only when the cache differs |
| Synth.Generator.SetFrequencyFixedPll | si5351.c:282-290 | the output divider becomes the closest divider of pllfreq to freq |
| Synth.Generator.SetupPllFreq | si5351.c:293-302 | the PLL becomes the closest multiple of the crystal |
| Synth.Generator.SelectBand | si5351.c:475-485 | band, output divider exponent and drive strength are those of the plan |
| Synth.Generator.FixedPllArm | si5351.c:521-534 | writes exactly what the fixed-PLL bands need |
| Synth.Generator.FixedMultArm | si5351.c:556-571 | writes exactly what the fixed-divider bands need |
| Synth.Generator.ProgramBand | si5351.c:504-584 | registers and control cache stay what the caches say they carry; from an empty band cache every control byte the control cache does not hold is written |
| Synth.Generator.SetFrequency | si5351.c:465-585 | from any cache state: the dividers are those of a cold start exactly when nothing is stale, and the control bytes exactly when moreover the drive strengths of the bands agree; with a running clock nothing is switched off |
| Synth.FixedPllInStep | si5351.c:521-534 | skipping register writes in a fixed-PLL band never leaves a wrong divider |
| Synth.FixedMultInStep | si5351.c:556-571 | in a fixed-divider band the dividers end out of step exactly when band 3 comes after the lowest band, or after a band 3 that was stale |
| Synth.InStepIff | si5351.c:465-585 | between calls the dividers are those of a cold start if and only if the caches are not stale |
| Synth.ControlsIff | si5351.c:220-263 | and the control bytes are if and only if moreover the drive strengths agree |
| Synth.DriveKept | si5351.c:556-571 | a run of two calls that keeps the wrong drive strength |
| Synth.FixedDrive | si5351.c:220-263 | a fixed strength is the one both outputs are driven at unless stale, and the codec clock always gets 2 mA |
| Drive.DriveIff | si5351.c:465-585 | a run keeps drive strengths of an earlier band if and only if its operations say so: a condition on the frequencies since the caches were last empty |
| Drive.FixedStrengths | si5351.c:475-485 | a run that asks for fixed strengths only never does |
| Drive.KeptAreHigh | si5351.c:355-401 | a run that does has a frequency above 600 MHz, and above 1.2 GHz on an H board |
| Synth.ControlBits | si5351.c:220-263 | a control byte routes a clock to its own divider and the PLL asked for, at the strength asked for, in integer mode exactly when the divider has no fraction |
| Synth.SourcesKept | si5351.c:220-263 | a generator that is not stale routes every clock as a cold start does: only the drive strength may differ |
| Synth.Generator.SetPower | si5351.c:86-89 | a new strength retunes the frequency that is set |
| Synth.Generator.SetFrequencyOffset | si5351.c:79-83 | a new intermediate frequency empties the frequency caches |
| Synth.Generator.SetTcxo | si5351.c:183-188 | a new crystal frequency, the nominal one if out of range, empties the frequency caches |
| Synth.Generator.Run | si5351.c:79-188 | every run of frequency changes, mutes, restarts and changes of power, offset and crystal keeps registers and caches consistent and ends in the caches its operations say; without a mute no clock is switched off |
| Synth.StaleIff | si5351.c:465-585 | a run leaves stale dividers if and only if its operations say so: a closed form over the frequencies and strengths asked for |
| Synth.NeverStale | si5351.c:465-585 | no run without a request for 100-130 MHz at 2 mA ever does |
| Synth.StaleJump | si5351.c:556-571 | from any caches that are not stale, one call does if and only if it goes from below 26 kHz to 100-130 MHz at 2 mA |
| Synth.StaleRun | si5351.c:556-571 | a two-call run that does it |
| Synth.Generator.DisableOutput | si5351.c:171-175 | all clocks are powered down and their outputs disabled, frequency caches cleared, control cache unchanged |
| Synth.Generator.EnableOutput | si5351.c:177-181 | the outputs are enabled, frequency caches cleared, nothing written to a divider |
| Synth.MutedIff | si5351.c:171-181 | after a run the outputs are disabled if and only if a mute came that no restart followed |
| Synth.ConfigIs | si5351.c:79-83 | after a run the offset is the last one asked for, and the crystal the last one, or 26 MHz for one more than 2 MHz off |
| Synth.Generator.StartCold | si5351.c:465-585 | from empty caches one call ends in tune and writes every control byte the control cache does not hold |
| Synth.Generator.ResumeAfterMute | main.c:245-256 | after mute and restart a clock is off if and only if the control cache already held the byte it needs |
| Synth.Generator.MuteStopsTheGenerator | main.c:245-256 | restarting at the frequency cold-started before leaves all clocks off |
| Tuning.FitsIsIdeal | si5351.c:190-263 | a divider that fits is read back unchanged by the chip |
| Tuning.OutputFits | si5351.c:521-534 | below 100 MHz both output dividers fit their registers for every reachable frequency and offset |
| Tuning.NominalCrystalReaches | si5351.c:378-401 | with a 26 MHz crystal every frequency from 792 Hz up is reachable |
| Tuning.LowestFrequency | si5351.c:521-534 | below 26 kHz the divider fits if and only if the frequency is at least 792 Hz |
| Tuning.PllFits | si5351.c:556-571 | above 100 MHz both PLL multipliers fit |
| Tuning.InTuneIsAccurate | si5351.c:465-585 | dividers of a cold start put CLK0 and CLK1, if they run, within 1 Hz of their frequency on the band's harmonic, as their control registers route them: PLL, own divider, integer mode |
| Tuning.CodecIsAccurate | si5351.c:531-532 | CLK2, if it runs, gives the codec 8 MHz within 1 Hz, from either kind of PLL B, stale or not |
| Tuning.CodecMultNear | si5351.c:569 | the error of the PLL and that of the codec divider together stay below 1 Hz |
| Tuning.StaleIsOff | si5351.c:556-571 | stale dividers put every running output off frequency |
| Tuning.GeneratorOnFrequencyIff | si5351.c:465-585 | a generator is on frequency if and only if it is not stale or nothing runs, whatever it has been through |
| Tuning.Session | si5351.c:79-188 | from power-on over any run: the running outputs are on frequency if and only if the run does not end stale, the codec clock always; the control bytes are those of a cold start if and only if moreover no strengths are kept; outputs disabled exactly when muted; crystal and offset the last asked for |
| PackBits.EncodeFromDecodes | common.c:189-204 | from any position and with any open block, decoding the rest of the code gives the rest of the bytes |
| PackBits.DecodeEncode | common.c:189-204 | decoding undoes encoding for every input, with either reading of header -128 |
| PackBits.EncodeFrugal | common.c:189-204 | no block of the code could have taken more: no three equal bytes in a literal, a literal before a literal is full, a run that is not full stops at another byte |
| PackBits.DecodeAppend | common.c:189-204 | codes behind each other decode to their data behind each other |
| PackBits.StandardExample | common.c:189-204 | the headers mean what they mean in the example of section 9 of TIFF 6.0 |
| PackBits.CountRepeats | common.c:192-194 | the inner loop counts the bytes that repeat, within a block |
| PackBits.Pack | common.c:189-204 | in place, with the source ceil(size/128) bytes above, the code equals the one written apart, its length is bounded, and nothing else in the buffer changes |
| Screenshot.PixelRoundTrip | ui.c:1888-1891 | no RGB565 colour is changed by the trip through 24 bits |
| Screenshot.FullScale | ui.c:1888-1891 | the channels carry the fields of the colour on top, filled with ones above the middle, so that white is white and black is black |
| Screenshot.ExpandRow | ui.c:1887-1892 | the backward in-place expansion yields the 24-bit row |
| Screenshot.CompressRow | ui.c:1924-1926 | the forward in-place packing yields the 16-bit row |
| Screenshot.HeaderAccepted | ui.c:1905-1912 | a header is accepted for its own picture size and no other |
| Screenshot.ReaderFindsPicture | ui.c:1847-1871 | a reader that follows the directory finds size, PackBits, RGB, three samples, their three depths of eight bits, no further directory, and the strip where the coded rows begin |
| Screenshot.ReaderSeesPixel | ui.c:1847-1898 | what it decodes there is the screen, pixel by pixel in the order red, green, blue |
| Screenshot.DisplaysServed | nanovna.h:1305-1319 | the shared buffer is large enough for both displays |
| Screenshot.CodeRow | ui.c:1881-1894 | one row through the shared buffer becomes the code of its 24-bit form |
| Screenshot.SaveTiff | ui.c:1873-1898 | the file is header plus the code of every row as it was, although progress marks overwrite rows already saved |
| Screenshot.ReadBlock | ui.c:1915-1923 | one block of the hand-written decoder, on any file |
| Screenshot.DecodeRow | ui.c:1914-1923 | on any file it stays in the buffer; on a coded row it delivers that row and stops exactly behind it |
| Screenshot.LoadTiff | ui.c:1900-1931 | loading what was saved restores every pixel; a file with another header changes nothing |
| Screenshot.SaveThenLoad | ui.c:1873-1931 | the whole round trip between two screens |
| Screenshot.FindColour | main.c:804-807 | the cached palette search finds the colour if the palette has it, else index 0 |
| Screenshot.CaptureRow | main.c:800-811 | words to indices and packing, both in place, give the code of the palette indices behind its length |
| SweepGrid.NearestHertz | main.c:1351-1388 | every sweep point is within half a hertz of the ideal one |
| SweepGrid.Ends | main.c:1351-1388 | start and stop are hit exactly |
| SweepGrid.Nondecreasing | main.c:1351-1388 | the points never decrease and stay within the sweep |
| SweepGrid.DistinctIff | main.c:1351-1388 | all points differ exactly when the span has a hertz for every step |
| SweepGrid.ClosedForm | main.c:1388 | step times index plus carried error is the rounded product |
| SweepGrid.Sweep.SetFrequencies | main.c:1379-1387 | the stored step and error describe the grid |
| SweepGrid.Sweep.GetFrequency | main.c:1388 | the closed form gives the grid point without leaving 32 bits |
| SweepGrid.SetFrequencyTable | main.c:1351-1367 | the error-accumulating loop gives the same grid and zeroes behind it |
| SweepGrid.EntryStep | main.c:1360-1363 | one pass of that loop moves from a grid point to the next |
| ErrorModel.TermsRecovered | main.c:1694-1758 | directivity, source match and tracking come back exactly from ideal open, short and load |
| ErrorModel.EsIff | main.c:1694-1730 | the source match is the true one exactly with the true directivity |
| ErrorModel.SingleStandard | main.c:1732-1758 | with negligible source match one standard gives the tracking |
| ErrorModel.TrackingRecovered | main.c:1761-1777 | thru and isolation give the inverse transmission tracking |
| ErrorModel.ReflectionCorrected | main.c:1848-1859 | correction inverts the reflection reading for every box and every reflection with nonzero denominators |
| ErrorModel.TransmissionCorrected | main.c:1861-1879 | with enhanced response the transmission is recovered |
| ErrorModel.PlainTransmissionIff | main.c:1861-1879 | without it, exactly when source match times reflection, or the transmission, is zero |
| Interpolation.Index | main.c:2006-2011 | the computed index brackets the frequency between two neighbouring grid points |
| Interpolation.MeasuredIff | main.c:1993-2047 | the points used were measured if and only if no band change in the last interval lies between its start and the frequency |
| Interpolation.PlaceIff | main.c:2016-2038 | forward, backward or between, the points are used for the very place of the frequency, if and only if it is not clamped to the first point |
| Interpolation.Linear | main.c:2016-2047 | a term that runs along a line in the number of the point is continued along that line, also across a band change |
| Interpolation.PastTheLastPoint | main.c:2023-2030 | a request that uses one point more than there are |
| Interpolation.StaysInBandIff | main.c:2018-2036 | exactly when every point used was measured in the harmonic band of the frequency |
| Interpolation.WideIsServed | main.c:2018-2036 | it is so in every band at least two steps and a hertz wide |
| Interpolation.BandsMixed | main.c:2018-2036 | a request in a narrow band that uses points of two other bands |
| Interpolation.Convex | main.c:2013-2038 | inside one band the term lies on the line between its neighbours |
| Interpolation.Reproduces | main.c:1993-2047 | at every calibration frequency a term stored there is reproduced, however rounding and bands fall |
| Interpolation.ReproducesPoint | main.c:1993-2047 | with a hertz per step it is the very point |
| Calibration.DoneFlags | main.c:1952-1991 | afterwards no raw flag is set, and term flags are those of what was measured |
| Calibration.DoneSlots | main.c:1952-1991 | what each shared slot holds afterwards, for every combination of standards |
| Calibration.DoneTwice | main.c:1952-1991 | a second cal_done changes nothing |
| Calibration.NoStandards | main.c:1952-1991 | without standards correction changes no reading |
| Calibration.RunTruthful | main.c:1882-1991 | over every run of collect, done, reset and toggles: OPEN/ES, SHORT/ER and THRU/ET are never both set and every flag tells what its slot holds |
| Calibration.AppliedIff | main.c:1882-1991 | over every run, whether correction is on and whether a slot still holds a raw reading are told by the operations alone |
| Calibration.TermsOnly | main.c:1882-1991 | without the menu switch correction never takes a raw reading for an error term |
| Calibration.SwitchedTooEarly | ui.c:823-832 | with it, it can |
| Calibration.RunRecovers | main.c:1882-1991 | over every run on one box the stored source match is the true one exactly when it was computed with the true directivity, and then so is the tracking |
| Calibration.FullCalibration | main.c:1882-1991 | all five standards in any order, then cal_done: the slots hold the box, and correction recovers every reflection and transmission |
| Calibration.LateLoadIff | main.c:1882-1991 | a load collected after cal_done leaves the source match right exactly when the directivity was zero |
| Calibration.Instrument.EtermCalcEs | main.c:1694-1730 | the source match replaces the open in its slot, at every point of the sweep |
| Calibration.Instrument.EtermCalcEr | main.c:1732-1758 | the tracking replaces the short |
| Calibration.Instrument.EtermCalcEt | main.c:1761-1777 | the inverse transmission tracking replaces the thru |
| Calibration.Instrument.CalCollect | main.c:1882-1950 | a sweep is stored in the standard's slot with its flags; a changed range forgets all flags |
| Calibration.Instrument.CalDone | main.c:1952-1991 | done point by point in place, each slot read before it is overwritten |
| Calibration.Instrument.Reset | ui.c:798-806 | only the enhanced-response choice survives the menu's reset |
| Calibration.Instrument.Perform | main.c:1882-1991 | a session acts on every sweep point as the run of that point's readings |
| Calibration.Instrument.CalInterpolate | main.c:1993-2047 | the five terms are those the selection names, read inside the table |
| Calibration.Instrument.ApplyErrorTerms | main.c:1848-1879 | reflection is corrected first and used for the transmission |
| LMatch.RootsAreAll | measure.c:44-54 | the two values are roots, and all of them |
| LMatch.HiIff | measure.c:238-258 | a load shunt with a series reactance matches if and only if they are the solver's |
| LMatch.HiDiscriminant | measure.c:238-258 | the discriminant is negative exactly when the squared magnitude is below R0 * RL |
| LMatch.HiNonzero | measure.c:238-258 | no divisor is zero |
| LMatch.HiComplete | measure.c:238-258 | the two networks returned are all of that shape that match |
| LMatch.LoIff | measure.c:260-281 | a series reactance with a source shunt matches if and only if they are the solver's |
| LMatch.LoComplete | measure.c:260-281 | the two networks returned are all of that shape that match |
| LMatch.LcMatchCalc | measure.c:283-316 | branches and collected networks equal the specification |
| LMatch.OutcomeIff | measure.c:283-316 | when the solver gives up, when it says that nothing is needed, and how many networks it returns otherwise |
| LMatch.OneReactanceAnswer | measure.c:299-307 | near the reference the answer is one series reactance, behind which the source sees a pure resistance with an SWR below 1.1 |
| LMatch.FlatIff | plot.c:513-519 | the SWR of a reading is at most 1.1 exactly when its reflection is at most 1/21 |
| LMatch.MatchReading | measure.c:283-316 | from a passive reading: behind every network returned the source sees a pure resistance with an SWR below 1.1 |
| LMatch.ReturnedMatch | measure.c:283-316 | two or four networks, each turning the load into exactly R0 |
| LMatch.NoneMissing | measure.c:283-316 | no matching L-network is missing |
| LMatch.SingleReactance | measure.c:299-307 | near the reference one series reactance leaves a resistance with SWR below 1.1 |
| LMatch.ImpedanceIff | plot.c:447-452 | resistance and reactance are the load's impedance exactly for a passive load |
| BitMasks.BitOnes | plot.c:393 | the shifted mask has exactly the bits first .. first + count - 1 |
| Redraw.DisplaysAreValid | nanovna.h:549-640 | on both displays plot area, cells and mark map fit together |
| Redraw.Plot.constructor | plot.c:31-61 | power-on: zeroed trace memory and mark map form a valid plot, with traces in column order |
| Redraw.Plot.MarkLine | plot.c:384-396 | exactly the cells of the box around a segment are marked |
| Redraw.Plot.MarkSetIndex | plot.c:398-410 | the point is stored and, if an end moved, exactly the cells of the old and new segment are marked |
| Redraw.PassStep | plot.c:398-410 | one point advances the pass, with the two values carried over from the point before |
| Redraw.FixedXOrdered | plot.c:1250-1261 | fixed-point columns never go back and stay in the plot |
| Redraw.ColumnIsNear | plot.c:1250-1251 | every column is the rounded one of the ideal place, up to what the truncated step loses |
| Redraw.ColumnEnds | plot.c:1250-1251 | the sweep starts on the left edge and ends on the right one |
| Redraw.FirstOnTop | plot.c:1627-1644 | at every pixel the first trace that covers it is seen, and the paper exactly where none does |
| Redraw.Plot.PlaceHeights | plot.c:1247-1264 | a pass on the rectangular grid stores the points and marks every changed segment |
| Redraw.Plot.PlacePoints | plot.c:1265-1274 | the same on the round grid |
| Redraw.Plot.TraceIntoIndex | plot.c:1239-1275 | the trace memory holds the new sweep; every segment with a changed end has its old and new cells marked |
| Redraw.UnmarkedUnchanged | plot.c:384-410 | after a pass, a pixel in an unmarked cell is covered by the trace exactly when it was before |
| Redraw.PassKeepsUpToDate | plot.c:1239-1275 | so everything unmarked still shows the right picture, whatever the trace became |
| Redraw.Plot.PlotIntoIndex | plot.c:1280-1298 | traces are refreshed one after another, sharing the carried-over values, and the screen stays coherent |
| Redraw.SearchIndexRangeX | plot.c:926-941 | both searches end, what they cut off lies left or right of the cell, and they cut off all they can |
| Redraw.CullingIsSound | plot.c:1633-1643 | drawing only the segments found paints the same pixels of the cell as drawing all |
| Redraw.Plot.DrawTrace | plot.c:1628-1644 | one trace is drawn over the cell completely, or not at all when off or blank |
| Redraw.Plot.RenderCell | plot.c:1627-1644 | the cell equals the full picture of traces over background, the first trace on top |
| Redraw.Plot.DrawCell | plot.c:1533-1714 | exactly the pixels of one cell inside the area are replaced by the picture |
| Redraw.Plot.DrawAllCells | plot.c:1721-1758 | exactly the marked cells of the area are rendered, and the map is cleared |
| Redraw.Plot.ForceSetMarkmap | plot.c:420-423 | a forced update needs nothing of the old screen |
| Redraw.Plot.DrawAll | plot.c:1896-1917 | incremental redraw of the traces equals full redraw: the whole area shows the new picture, and nothing outside is drawn |
| Redraw.Plot.ShowsTraces | plot.c:1627-1644 | such a screen shows, at every pixel of the area, the first of the live and stored traces that has a segment there, and the background where none has |
| Redraw.Plot.Run | plot.c:1896-1917 | over every run of sweeps and setting changes |
| Line.MinorRange | lcd.c:728-746 | moves along the shorter side start at 0, end at its length and stay between |
| Line.Ends | lcd.c:728-746 | the line starts and ends exactly at the end points |
| Line.InBox | lcd.c:728-746 | it never leaves the bounding box |
| Line.HalfPixel | lcd.c:728-746 | every pixel is within half a pixel of the ideal line |
| Line.Connected | lcd.c:728-746 | next pixels touch |
| Line.Arrived | lcd.c:739-743 | the end test fires after max(dx, dy) steps and not before, and the error stays in its interval |
| Line.Advance | lcd.c:741-743 | one step of the loop moves to the next pixel of the line |
| Line.LinesStayInBox | lcd.c:728-746 | such lines satisfy what the incremental redraw asks of a painter |
| Line.Lcd.DrawLine | lcd.c:728-746 | the display receives exactly the pixels of the line: its own column counter agrees with the algorithm in every row |
| Numbers.LongToString | chprintf.c:79-97 | the backward write and the overlapping forward copy leave the digits at the start of the buffer |
| Numbers.WordFits | chprintf.c:48-97 | every 32-bit value fits 11 characters in radix 8, 10 and 16 |
| Numbers.PutDigits | chprintf.c:83-90 | digits written backwards, at least as many as the precision asks for |
| Numbers.MoveDown | chprintf.c:91-95 | the overlapping copy moves the text unchanged |
| Numbers.TakenIff | common.c:64-67 | exactly which bytes are taken for digits of a radix |
| Numbers.LettersTaken | common.c:64-67 | an input where that surprises |
| Numbers.MyAtoui | common.c:50-70 | sign, prefix and digits are read as specified, in 32 bits |
| Numbers.AccumulateDigits | common.c:63-69 | printed digits continue the value modulo 2^32 |
| Numbers.DecimalRoundTrip | common.c:50-70 | every printed decimal, padded or not, reads back |
| Numbers.PrefixRoundTrip | common.c:50-70 | so do binary, octal and hexadecimal digits behind their prefix |
| Frequency.EstimateIsClose | chprintf.c:125-133 | the shift-and-add quotient is never too large and at most one too small, without a wrap |
| Frequency.DivideByTen | chprintf.c:122-137 | quotient and remainder by ten |
| Frequency.GroupedShape | chprintf.c:112-147 | the text is the decimal digits with a space before every third one from the right |
| Frequency.PutGroups | chprintf.c:112-147 | the digit loop with its format word writes that text, and counts its spaces |
| Frequency.CopyGroups | chprintf.c:150-166 | how the copy drops spaces, and what it does when it has dropped some |
| Frequency.FullText | chprintf.c:105-172 | without a precision all digits appear, the point before the last 3 n of them and the n-th unit prefix |
| Frequency.FullReads | chprintf.c:105-172 | read back, the text is the number: its digits, with the point made up for by the unit prefix |
| Frequency.RoundedReads | chprintf.c:105-172 | with a precision the digits shown are the first ones, and the unit prefix makes up for the point and the digits left out |
| Frequency.CutOff | chprintf.c:105-172 | the first digits of a number stand for it without its last ones |
| Frequency.RoundedIff | chprintf.c:105-172 | with a precision exactly that many digits appear, if and only if there are so many or at most one group |
| Frequency.CopyOut | chprintf.c:150-166 | the overlapping copy computes this and stays within seven characters behind the digits |
| Frequency.UlongFreq | chprintf.c:105-172 | the whole routine in one buffer |
| Window.TotalBelow | dsp.c:178-201 | sums of n buffers stay below n * 48 * 2^30 |
| Window.DeltaIsOrder | main.c:1076 | the signed difference of 32-bit times equals their difference across the wrap while they are less than 2^31 apart |
| Window.DeltaIff | main.c:1076 | it is their difference if and only if that fits 32 signed bits |
| Window.DeltaFails | main.c:1076 | at 2^31 a later time counts as earlier |
| Window.Receiver.DspProcess | dsp.c:178-201 | a buffer's correlation is added without leaving 64 bits |
| Window.Receiver.Interrupt | main.c:1073-1087 | early or idle interrupts change nothing, the first ready one clears, the others add |
| Window.Receiver.Start | main.c:1097 | a window of bandwidth + 2 buffers begins |
| Window.Receiver.Window | main.c:1073-1098 | whatever interrupts come, the wait ends after bandwidth + 2 ready buffers, and the accumulators then hold all of them but the first |
| Window.DotOfTone | dsp.c:178-201 | the four sums of a tone are its phasors, reference and sample apart, times the energies of the table |
| Window.WindowReads | dsp.c:178-231 | a window over buffers of one tone each, whatever their phases, reads the ratio of the channels, if the reference sum has a cosine part |
| Window.SteadyReading | dsp.c:178-231 | with phasors p + jq on the reference and u + jv on the sample the reading is (u + jv) / (p + jq), if and only if p is not zero |
| Window.Receiver.Measure | main.c:1188-1198 | so does a whole measurement, from the interrupts to the reading |
| Window.FirmwareTable | dsp.c:105-120 | the table for 12 kHz is orthogonal with equal energies, exactly |
| Window.GammaIff | dsp.c:211-231 | the reading is the complex quotient if and only if the reference has a cosine part |
| Window.GammaRecovered | dsp.c:211-231 | it recovers the ratio of the two channels |
| SlotStore.SlotsApart | data_storage.c:34-36 | slots overlap neither each other nor the configuration |
| SlotStore.BoardsAreValid | hardware.h:171-205 | the layout of both boards fits |
| SlotStore.Checksum | data_storage.c:38-46 | the loop computes the checksum of the words |
| SlotStore.OneWordChangesSum | data_storage.c:38-46 | one changed word always changes the checksum |
| SlotStore.OneWordDetected | data_storage.c:84-97 | a stored image with any one word wrong fails the test |
| SlotStore.RotatedBits | data_storage.c:43-44 | the rotation moves every bit up by one and the highest to the bottom |
| SlotStore.ExchangeDetected | data_storage.c:38-46 | two neighbouring words that change places are noticed, unless they differ by one at most |
| SlotStore.SealedPasses | data_storage.c:72-74 | what is saved passes the test and keeps the settings |
| SlotStore.Store.constructor | data_storage.c:26-32 | power-on on any flash contents: an empty cache is a true one |
| SlotStore.Store.ErasePages | NANOVNA_STM32_F303/flash.c:26-34 | exactly the pages that hold the area are erased |
| SlotStore.Store.ProgramBuffer | NANOVNA_STM32_F303/flash.c:36-50 | after its own erase every half word can be programmed, and nothing outside those pages changes |
| SlotStore.Store.WriteSlot | data_storage.c:76-78 | one slot is replaced; the other slots and the configuration are untouched |
| SlotStore.Store.CaldataSave | data_storage.c:68-82 | saves as the store without a cache does |
| SlotStore.SaveDoes | data_storage.c:68-82 | a save leaves a slot that passes and keeps the settings, touches no other slot, and nothing at all for a slot there is not |
| SlotStore.Store.GetProperties | data_storage.c:84-97 | the cached lookup answers as a fresh check would, and remembers only slots that passed |
| SlotStore.Store.CaldataRecall | data_storage.c:98-113 | recalls as the store without a cache does |
| SlotStore.RecallDoes | data_storage.c:98-113 | a recall succeeds exactly for a slot that passes or for no slot, takes the settings exactly then, and changes no slot |
| SlotStore.Store.ClearAllConfigPropData | data_storage.c:115-120 | everything is erased and the cache forgets |
| SlotStore.Store.Run | data_storage.c:68-120 | every run with the cache is a run without it |
| SlotStore.LastSaved | data_storage.c:68-120 | a recall brings back what was last saved to the slot, whatever happened elsewhere in between |
| SlotStore.NothingAfterClear | data_storage.c:115-120 | after an erase every recall fails until the next save |

## Left out

- Floating-point rounding, infinities and NaN: `float` is `real`, and a complex quotient by zero is zero where floats
  would give infinities or NaN; the theorems about readings and terms ask for nonzero denominators.
- Square root, logarithm and trigonometric approximations: vna_math.c is not part of this model; a square root is
  any function whose value is nonnegative and squares to its argument.
- SPI, DMA, I2C, ADC and codec registers, ChibiOS, USB, FatFs errors, menus, keypads, fonts and icons.
- A change of the harmonic threshold or of the band table while the generator runs: neither empties the frequency
  caches (main.c:737, ui.c:3555), and neither is one of the operations of a run.
- The crystal load register, the MS5351 and SWC5351 tables, PLL reset pulses, lock waits and codec gain changes in the
  generator.
- The sine and cosine table that is computed at run time in floating point; the theorems about readings ask of the
  table that it be orthogonal with equal energies, which the constant table for 12 kHz is shown to be.
- Averaging of a sweep over several passes, smoothing, time domain, electrical delay, S21 offset and port
  renormalization.
- The overlays of the redraw: markers and their text, grid values, measurements and reference positions are drawn
  over the traces, at places that follow the traces. Neither they nor the extra cells marked for them are modelled;
  only the ham band bar lies below the traces, in what the model calls paper.
- Redraw.Plot.PlotIntoIndex: without the marks for moved markers and the marker search that follow a sweep.
- Redraw.Plot.RenderCell: the picture is background and traces, without the overlays drawn on top.
- Redraw.Plot.DrawCell: likewise, the cell shows background and traces only.
- Redraw.Plot.DrawAllCells: likewise, the marked cells show background and traces only.
- cell_drawline is any painter that stays in a segment's bounding box; its own end test is not modelled.
- The flat pixel buffer of a cell and the packing of a clipped cell's rows: a cell is a function from points to ink.
- Copying a trace into stored trace memory (plot.c:885-896); stored traces are drawn, but their contents are given.
- The file name printed on the progress mark of a screenshot, and short writes.
- The generic chvprintf driver, float formatting and my_atoi.
- Half-word alignment of the 16-bit size argument and the flash busy flag.
- Calibration.Instrument.CalInterpolate: asks that a full-length calibration does not look past its last point after a
  band change in the last interval, because there is no next column to read; all other inputs are covered.
- Redraw.Plot.DrawAll: without overlays, and without the marker, reference, grid value and clear-screen requests; it
  asks that rectangular traces are in column order when no new data comes with the request, because the binary
  searches cull wrongly on unordered points (they end regardless).
- Window.Receiver.Window: asks that interrupts keep coming less than 2^31 ticks from the ready time while the window
  lasts; `Window.DeltaIff` shows why.
- Frequency.UlongFreq: asks for seven readable characters behind the 14 that hold the digits, which the buffer of the
  caller has.
- Screenshot.LoadTiff: says nothing about the picture after a file of the right header whose rows are cut short or
  malformed, except that the decoder stays in its buffer.
