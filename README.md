# DmTouch touch pipeline, modelled in Dafny

This project models the touch-screen driver `DmTouch` of the DisplayModule
TFT library. The driver talks to an XPT2046-style resistive touch
controller over SPI, in hardware or in software (bit-banged). It sends a
conversion command and reads back a 12-bit result for each axis, and it
tells whether the screen is touched, either from a reading in range or
from the pen-interrupt line. It then filters the readings in two stages:

- the integer mean of `samplesPerMeasurement` readings, after one reading
  is dropped;
- the median of up to ten such measurements, which stops early once touch
  is lost.

A converted display coordinate above 60000 is replaced by 0.

Layout:

- `bits.dfy` (module `Bits`): fixed-width unsigned types. It also defines
  the number that a run of bits stands for when read most significant bit
  first, and the bits that stand for a number.
- `serial.dfy` (module `Serial`): the wires, as the class `Bus`:
  - `miso(k)` is the data-in level at clock pulse `k`;
  - `penIrq(k)` is the pen-interrupt level at its `k`-th reading;
  - `clock` and `polls` count the pulses and readings consumed;
  - `sent` holds the bytes the controller received.

  The module also holds the software shift-out and shift-in loops, the
  bit-banged 12-bit read and the two-byte decode of the hardware path.
- `filter.dfy` (module `Filter`):
  - sum, minimum, maximum, the truncating integer mean, and a specification
    sort and median;
  - the in-place nested exchange sort and middle pick of
    `calculateMiddleValue`.
- `touch.dfy` (module `Touch`): the class `DmTouch`. It holds:
  - the configuration fields;
  - the conversion read over both transports, the raw reading, the
    validity test and touch detection;
  - the averaging and the median filter;
  - the output clamp.

  Every raw reading the driver takes is appended to the ghost log
  `samples`. The class invariant `Valid` keeps the bus clock equal to the
  pulses of the logged readings, and each logged reading equal to the one
  data-in carried at its place in the pulse count (so every logged value
  is within 12 bits). The
  measuring loop of `getMiddleXY` is described by `Progress`:
  measurement k starts at log position `starts[k]`, and its averages and
  touch answer are read off the log (or off the interrupt line).

All paths below are relative to the library's source tree.

## Model

| member | source | states |
|---|---|---|
| Touch.DmTouch.constructor | DmTftLibrary/DmTouch.cpp:20-65 | The adapter-board displays (28_103, 24_104) get pins D8/D10/A1/A0/D9 and the others D4/D2/D13/D11/D12. `Hardware` forces the hardware transport and `Software` the bit-banged one; `Auto` keeps the preset (software for the adapter board, hardware otherwise). Without `useIrq` there is no interrupt line. Precision starts at 3. |
| Touch.DmTouch.SetPrecision | DmTftLibrary/DmTouch.cpp:308-310 | The samples-per-measurement field becomes the argument; nothing else changes. |
| Touch.DmTouch.SetCalibrationMatrix | DmTftLibrary/DmTouch.cpp:312-314 | The calibration matrix becomes the argument; nothing else changes. |
| Serial.ShiftOut | DmTftLibrary/DmTouch.cpp:136-153 | The software transmit loop drives bit 7 down to bit 0 of `data` on data-out, and these bits read back MSB-first give `data`. |
| Serial.ShiftOutStep | DmTftLibrary/DmTouch.cpp:141-152 | One pass of the transmit loop: bit 7 of `temp` is the next unsent bit, and the left shift within 8 bits keeps exactly the bits still to send. |
| Touch.DmTouch.SpiWrite | DmTftLibrary/DmTouch.cpp:126-154 | On either transport the controller receives exactly `data` over 8 clock pulses; the interrupt line is not read. |
| Serial.ShiftIn | DmTftLibrary/DmTouch.cpp:168-177 | After eight shift-and-OR steps, `temp` is the byte whose bits, MSB first, are the eight sampled levels. |
| Touch.DmTouch.SpiRead | DmTftLibrary/DmTouch.cpp:156-180 | Either transport returns the byte formed MSB-first by data-in over the next 8 pulses, while the controller receives a zero byte. |
| Serial.ReadBits12 | DmTftLibrary/DmTouch.cpp:203-210 | Twelve "shift left, add the sampled bit" steps give exactly the 12 sampled bits read MSB-first; the result is at most 4095 and the 16-bit shifts never wrap. |
| Serial.ByteDecode | DmTftLibrary/DmTouch.cpp:192-199 | The high byte shifted left by 8 in 16 bits, ORed with the low byte, shifted right by 3 and masked with 0xFFF, is at most 4095. |
| Serial.ByteDecodeWindow | DmTftLibrary/DmTouch.cpp:189-199 | For the two bytes received over 16 pulses, the decode yields the bits clocked in on pulses 1 to 12 of that window. |
| Touch.Conversion | DmTftLibrary/DmTouch.cpp:182-222 | The conversion result after a command is the 12-bit value that data-in carries after the busy pulse, so it is at most 4095. |
| Touch.HardwareMatchesBitBang | DmTftLibrary/DmTouch.cpp:189-211 | The hardware path (two bytes and a decode) and the bit-banged path (one busy pulse, then twelve sampled pulses) return the same result for the same data-in stream. |
| Touch.DmTouch.ReadData12 | DmTftLibrary/DmTouch.cpp:182-222 | Returns the conversion result on data-in right after the command byte. It takes 24 pulses (hardware) or 21 (software), and the controller receives the command, then two zero bytes on the hardware path. |
| Touch.DmTouch.ReadRawData | DmTftLibrary/DmTouch.cpp:224-229 | An X read with command 0xD0, then a Y read with command 0x90. The pair is the reading the wire carried at that point; it joins the log, and the invariant is kept. |
| Touch.DmTouch.IsSampleValid | DmTftLibrary/DmTouch.cpp:245-253 | Takes one raw reading and answers true exactly when 0 < x < 4095 and 0 < y < 4095. |
| Touch.DmTouch.IsTouched | DmTftLibrary/DmTouch.cpp:255-265 | Without an interrupt line, the answer is the validity test of a fresh reading. With one, no reading is taken, and the answer is true exactly when the line reads low. |
| Filter.AccumulatorFits | DmTftLibrary/DmTouch.cpp:292-301 | The sum of at most 255 values of at most 4095 fits in 32 bits. |
| Touch.AccumulateStep | DmTftLibrary/DmTouch.cpp:297-301 | Adding one more 12-bit reading to the 32-bit accumulator gives the exact running sum and never wraps. |
| Filter.Mean | DmTftLibrary/DmTouch.cpp:303-304 | The truncating integer mean lies between the smallest and the largest sample. |
| Filter.MeanBetween | DmTftLibrary/DmTouch.cpp:303-304 | The sum divided by the count with truncation lies between the minimum and the maximum. |
| Filter.MeanFits | DmTftLibrary/DmTouch.cpp:303-304 | The mean of at most 255 12-bit values is a 12-bit value. |
| Touch.TruncatedMean | DmTftLibrary/DmTouch.cpp:303-304 | The 32-bit quotient cut to 16 bits equals the exact integer mean of the samples. |
| Touch.DmTouch.GetAverageXY | DmTftLibrary/DmTouch.cpp:291-305 | Takes 1 + n readings off data-in, which join the log as the invariant requires. Each output is the integer mean of the last n of them, so the first reading is dropped. The interrupt line is not read. Requires n > 0. |
| Touch.BlockOnWire | DmTftLibrary/DmTouch.cpp:293-301 | The n samples a measurement averages are, in order, the readings data-in carried right after the dropped first reading. |
| Filter.Sort | DmTftLibrary/DmTouch.cpp:349-357 | The reference sort: ascending, and a permutation of its input. |
| Filter.SortedUnique | DmTftLibrary/DmTouch.cpp:349-357 | Two ascending permutations of the same values are equal, so any correct sort gives `Sort`'s result. |
| Filter.CompareAndSwap | DmTftLibrary/DmTouch.cpp:351-355 | The new array is the old one with positions `i` and `j` exchanged when the value at `j` is smaller, and unchanged otherwise. So the settled prefix is kept, position `i` holds no more than positions `i + 1` to `j`, and the values in positions `i` to `count - 1` are only rearranged. |
| Filter.ExchangePass | DmTftLibrary/DmTouch.cpp:350-356 | The new array is what the compare-and-exchanges of position `i` with positions `i + 1` to `count - 1`, in that order, leave. Position `i` then holds the smallest of positions `i` to `count - 1`; positions before `i` and from `count` on are unchanged, and the rest is a rearrangement. |
| Filter.MiddleOf | DmTftLibrary/DmTouch.cpp:359-363 | The middle element for an odd count, or the truncated mean of the two middle elements for an even count; within the range of a sorted run. |
| Filter.CalculateMiddleValue | DmTftLibrary/DmTouch.cpp:346-364 | Leaves `values[0..count)` equal to the ascending sort of the input (sorted and a permutation), leaves the rest of the array untouched, and returns the median. |
| Filter.MedianBetween | DmTftLibrary/DmTouch.cpp:359-363 | The median lies between the smallest and the largest input; for an odd count it is one of the inputs. |
| Filter.MedianOfPermutation | DmTftLibrary/DmTouch.cpp:346-364 | The median does not depend on the order the measurements arrived in. |
| Touch.ProgressStep | DmTftLibrary/DmTouch.cpp:277-283 | One averaging at the end of the log, followed by one touch answer (a reading in range, or a low interrupt line), extends the run of measurements by exactly that measurement and answer. |
| Touch.LoggedAt | DmTftLibrary/DmTouch.cpp:277-283 | Every measurement of a run is the mean of the n readings after its dropped first one. Without an interrupt line, its touch answer is the range test of the reading that follows. |
| Touch.DmTouch.MeasureStep | DmTftLibrary/DmTouch.cpp:278-283 | One pass of the measuring loop stores measurement `i` in `valuesX[i]` and `valuesY[i]`, takes the touch answer and extends the run; the readings it logs are the ones on data-in. |
| Touch.DmTouch.Measure | DmTftLibrary/DmTouch.cpp:271-283 | Between 1 and 10 measurements land in `valuesX`/`valuesY[0..count)`. Every answer but the last is touched. Fewer than ten means the last answer is not touched, and `haveAll` is the last answer. Each measurement is the mean of a block of logged readings, and the invariant it keeps makes those the readings on data-in. |
| Touch.DmTouch.GetMiddleXY | DmTftLibrary/DmTouch.cpp:271-289 | The same stopping rule. X and Y are the medians of the X and the Y measurements, filtered on separate arrays. It returns true only when touch lasted through all ten. The measurements are means of readings taken off data-in, by the invariant it keeps. |
| Touch.ClampCoordinate | DmTftLibrary/DmTouch.cpp:329-331 | A converted coordinate above 60000 becomes 0, and any other passes unchanged, so the result never exceeds 60000; the Y clamp at lines 340-342 is the same. |

## Left out

- Register and GPIO handling are not modelled: `init`, `enableIrq`, chip-select toggling, `delay`/`delayMicroseconds`, and the SPCR/SPDR/SPSR handshake. The bus is the class `Bus`, whose data-in and interrupt levels are fixed streams given at construction.
- The Arduino and mbed builds differ. `readData12` and `isTouched` follow the Arduino branch. `spiRead` uses a hardware exchange of a zero byte, or the mbed software loop on the bit-banged transport.
- `readTouchData` is not modelled, including the early not-touched return that only the mbed build has.
- The floating-point affine transform in `getDisplayCoordinateX/Y` is not modelled, and neither is its float-to-`uint16_t` conversion (undefined for out-of-range values). Only the clamp of an already converted value is modelled.
- `waitForTouch` and `waitForTouchRelease` are not modelled: they are busy-waits on the touch state that need not terminate.
- `rescaleFactor` and the calibration values are not modelled; `calibrationMatrix` starts as `None` until it is set.
- Filter.CalculateMiddleValue: requires `count >= 1`. With count 0 the source reads `values[-1]`, and `getMiddleXY` always passes at least 1.
- Touch.DmTouch.GetAverageXY: requires `samplesPerMeasurement > 0`, because the source divides by it (a precision of 0 set through `setPrecison` divides by zero). The same holds for Measure, MeasureStep and GetMiddleXY.
- Touch.DmTouch.Valid: the class invariant ties the logged readings to data-in and to the clock pulses, but not to the command bytes. Touch.DmTouch.IsSampleValid, Touch.DmTouch.IsTouched, Touch.DmTouch.GetAverageXY and Touch.DmTouch.GetMiddleXY therefore do not state the bytes the controller received. SpiWrite, SpiRead, ReadData12 and ReadRawData state them for each call.
- Touch.DmTouch.Measure: the `break` out of the measuring loop is the loop condition `haveAll`, and the loop body is the separate method MeasureStep.
- DmTftLibrary/DmTftS6D0164.cpp is not part of this model: it is the display's register initialisation and parallel-bus pin toggling.
