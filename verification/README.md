# Verified models of the Phidgets drivers and of the IR camera

The repository drives a one-pixel infrared camera on a Raspberry Pi: a program that measures some pixels and
reconstructs the rest, on top of the Phidgets C library. This project models the parts whose correctness is
decided by their own code, and proves what they are for.

- **Image reconstruction** (`temp.rpi/IRcamera/brain.c`). `Vectors`, `Haar` and `Image` are the two-dimensional
  Haar transform as a function, `Coefficients` what it computes, `Brain` its in-place array code, `Ist` iterative
  soft thresholding as convex optimisation, `Fista` the loops. Main results: every coefficient in terms of the
  pixels, perfect reconstruction, orthonormality, descent of the objective with fixed points exactly the
  minimisers, and the 1/k rate.
- **RFID tags** (`temp.rpi/libphidget/cphidgetrfid.c`). `Words`, `Blocks`, `Numbers`, `Crc`, `Ring` and `Search`
  are shared; each of the three tag types has a module for its frame, its encoder and its decoder;
  `PhidgetsTagDamage` is what wrong bits do; `Pulses`, `LineDecoders`, `Stream` and `BiphaseStream` are the two
  line codes, `Analysis` and `Reader` the pulse analysis with its rings. `Feeding`, `Tracking`, `CrossTalk`,
  `BiphaseTracking`, `TagReads` and `Listening` are the way from bytes and pulses to tags; `DoubleTags`,
  `MistakenChip`, `MistakenText` (with `CrcWords`), `StaleTags` and `StaleFrames` are where it fails; `TagEvents`
  is the two threads that announce tags. Main results: round trips of all three tag types at any rotation and ring
  position, exactly when a frame is missed or a damaged one accepted, and lock-in of the line decoders anywhere in
  a stream. Fed the bytes of the repeated frame of an EM4100 tag, a reader reports exactly that tag; of an FDX-B
  tag or a PhidgetsTAG it does so if and only if the levels of the frame hold no EM4100 frame and the frame is not
  an FDX-B frame besides.
- **IR codes** (`temp.rpi/libphidget/cphidgetir.c`). `IrTimes` is the packet format, `IrCode` and `IrEncoder` the
  modulator, `IrDecoder` and `IrDecodeData` the demodulator, `IrRoundTrip`, `IrRc6`, `IrSpaceCode` and
  `IrPulseCode` what comes back, `IrPackets` the same through the packet. Main results: exactly which space,
  pulse, biphase and RC-6 codes survive, and that a header in front of them and the cut to tens of microseconds do
  no harm.
- **Output** (`temp.rpi/libphidget/cphidgetled.c`, `cphidgetmacros.h`, `cphidget.c`). `Led`, `LedPackets`, `LedM3`
  and `LedBoard` are the LED boards, `LedThreads` and `OutputQueue` the two ways packets reach the write thread.
  Main results: what a board shows is what was asked for, over every run, and nothing accepted is lost.
- **Analog input** (`temp.rpi/libphidget/cphidgetinterfacekit.c`). `InterfaceKit` is the demultiplexer.

Code that updates arrays or fields in place is a method or a class here, proved against a function on values;
the properties are lemmas about that function. C words are sequences of bits with C's operators bit by bit.

Some promises do not hold as stated; an input that fails and the exact condition are proved instead:

- The biphase tag decoders skip a frame behind an odd number of headers in a row (`FdxB.DoubledHeaderHidesFrame`,
  `FdxB.MissedIffHidden`).
- The PhidgetsTAG decoder keeps checksum bits of failed attempts. Good frames are lost
  (`PhidgetsTag.EmptyTagLost`, `PhidgetsTag.GoodFrameAccepted`) and wrong ones accepted
  (`PhidgetsTagDamage.ReadAsC`, `PhidgetsTagDamage.AcceptedIff`).
- The checksum of a PhidgetsTAG catches sixteen message bits in a row but not sixteen data bits in a row
  (`PhidgetsTagDamage.FifteenBitsPass`, `PhidgetsTagDamage.SixteenBitsPassIff`).
- The pulses of a biphase tag go to the EM4100 decoder as well, which reads tags in them that are not there
  (`MistakenChip.ChipReadAsEM4100`, `TagReads.ReadsEM4100IffInside`).
- A PhidgetsTAG can be taken for an FDX-B tag and is then not reported (`MistakenText.TextReadAsFdx`,
  `TagReads.ReadsAnotherTagIff`, `TagReads.NeverReadsDoubleTag`).
- With an empty queue all three tag decoders read old bits (`StaleTags.ReadsQueueOrOldBits`,
  `StaleTags.FdxBReadsQueueOrOldBits`, `StaleTags.PhidgetsReadsQueueOrOldBits`), and a reader gets there: it
  reports an EM4100 tag that nobody sent (`StaleTags.FalseTagIsReached`), and a tag of the biphase types once more
  for a pulse that brings no bit (`StaleFrames.FrameReadAgainIsReached`).
- The M3 board is read back with another scale than it is written (`LedM3.AttachedShowsIff`).
- Pulse codes lose the wrong space (`IrEncoder.HalfASpaceStaysHere`, `IrEncoder.PulseCodeEndsWithPulse`).
- Biphase codes of 128 bits need a zero at the end (`IrRoundTrip.ComesBackIff`).
- Space and pulse codes with the timings of a biphase code may be read as one (`IrSpaceCode.SingleOneLost`,
  `IrSpaceCode.ComesBackIff`, `IrPulseCode.ComesBackIff`).
- RC-6 codes come back only when their first double time is a space (`IrRc6.FiveOnesLost`, `IrRc6.ComesBackIff`).

Verify with `dafny verify dfyconfig.toml`.

## Model

| member | source | states |
|---|---|---|
| Haar.IdwtDwt | temp.rpi/IRcamera/brain.c:436-499 | One pass of the inverse transform undoes one pass of the transform on a line of even length. |
| Haar.DwtIsometry | temp.rpi/IRcamera/brain.c:436-448 | A pass keeps the sum of squares of a line. |
| Haar.PassesCommute | temp.rpi/IRcamera/brain.c:500-516 | Undoing the row pass and undoing the column pass commute, which is why the inverse may undo rows first although rows were also transformed first. |
| Haar.Idwt2Dwt2 | temp.rpi/IRcamera/brain.c:449-516 | One level of the inverse undoes one level of the transform on a square image. |
| Haar.IFullFull | temp.rpi/IRcamera/brain.c:471-533 | All levels of the inverse undo all levels of the transform. |
| Haar.FullIFull | temp.rpi/IRcamera/brain.c:471-533 | All levels of the transform undo all levels of the inverse. |
| Haar.FullIsometry | temp.rpi/IRcamera/brain.c:471-490 | The full transform keeps the sum of squares. |
| Haar.FullAdjoint | temp.rpi/IRcamera/brain.c:471-533 | The inverse transform is the transpose of the transform: both pair up two images to the same number. |
| Image.PerfectReconstruction | temp.rpi/IRcamera/brain.c:471-533 | On the flat array of a square image with a power-of-two side, each of the two full transforms undoes the other. |
| Image.Orthonormal | temp.rpi/IRcamera/brain.c:471-533 | On flat images the full transform is orthonormal: the inner product of the transform of x with z is that of x with the inverse transform of z. |
| Brain.GetRow | temp.rpi/IRcamera/brain.c:576-584 | Copies row number row of the flat image out and nothing else. |
| Brain.GetCol | temp.rpi/IRcamera/brain.c:585-593 | Copies a column out and nothing else. |
| Brain.PutRowIn | temp.rpi/IRcamera/brain.c:560-567 | Writes one row in place and leaves all other rows. |
| Brain.PutColIn | temp.rpi/IRcamera/brain.c:568-575 | Writes one column in place and leaves all other columns. |
| Brain.CopyPartsOfArray | temp.rpi/IRcamera/brain.c:539-548 | Copies the upper left sub-block of the image into a smaller flat image. |
| Brain.CopyPartsOfArrayInverse | temp.rpi/IRcamera/brain.c:549-558 | Writes the sub-block back and leaves everything outside it. |
| Brain.DwtInto | temp.rpi/IRcamera/brain.c:436-448 | The two loops compute the transform of a line. |
| Brain.IdwtInto | temp.rpi/IRcamera/brain.c:491-499 | The loop computes the inverse transform of a line. |
| Brain.Dwt2Into | temp.rpi/IRcamera/brain.c:449-470 | Row loop and column loop compute one level on every image with even sides that is not taller than wide: the line buffers hold one row. |
| Brain.Idwt2Into | temp.rpi/IRcamera/brain.c:500-516 | Row loop and column loop compute one level of the inverse on a square image. |
| Brain.Dwt2Full | temp.rpi/IRcamera/brain.c:471-490 | The in-place loop over levels, through the sub-block copies, computes the full transform. |
| Brain.Idwt2Full | temp.rpi/IRcamera/brain.c:517-533 | The in-place loop over levels computes the full inverse transform. |
| Coefficients.OneLevel | temp.rpi/IRcamera/brain.c:449-470 | One level, on any image with even sides: twice each output is the sum of its four pixels, or left less right, upper less lower, or one diagonal less the other, each in its own quarter. |
| Coefficients.CornerIsSums | temp.rpi/IRcamera/brain.c:471-490 | After k levels 2^k times a cell of the remaining corner block is the sum of the 2^k by 2^k pixels it stands for. |
| Coefficients.LevelsLeft | temp.rpi/IRcamera/brain.c:471-490 | The levels that are left make the full transform of it. |
| Coefficients.DetailsOf | temp.rpi/IRcamera/brain.c:471-490 | 2^(k+1) times a detail of level k + 1 is the sum of the pixels of one half of its square less that of the other half, for all three kinds of detail, their places and signs. |
| Coefficients.FlatHasNoDetails | temp.rpi/IRcamera/brain.c:471-490 | Where all pixels of a square are equal, its details are zero. |
| Coefficients.FirstIsTotal | temp.rpi/IRcamera/brain.c:471-490 | The side of the image times the first coefficient is the sum of all pixels. |
| Coefficients.OutsideStays | temp.rpi/IRcamera/brain.c:471-490 | From block size s on nothing outside the s by s corner is touched. |
| Coefficients.FlatSpectrum | temp.rpi/IRcamera/brain.c:471-490 | The same coefficients on flat arrays, as the in-place code leaves them. |
| Ist.IntAbsDecides | temp.rpi/IRcamera/brain.c:297-300 | Cutting off to an integer before comparing with an integer bound decides as the exact absolute value does. |
| Ist.ScatterAdjoint | temp.rpi/IRcamera/brain.c:290-293 | Writing a residual into an image of zeros is the transpose of sampling the image. |
| Ist.GatherShrinks | temp.rpi/IRcamera/brain.c:398-403 | Sampling at distinct pixels does not increase the sum of squares. |
| Ist.DataTerm | temp.rpi/IRcamera/brain.c:286-293 | The misfit at any point is at most its linearisation plus half the squared distance, and at least its linearisation. |
| Ist.ThreePoint | temp.rpi/IRcamera/brain.c:295-300 | What one iteration produces minimises the majorised objective, with the usual quadratic margin at every other point. |
| Ist.Descent | temp.rpi/IRcamera/brain.c:278-304 | No iteration increases the misfit plus cut times the l1 norm, for any distinct samples, any measurements and any positive integer cut. |
| Ist.FixedPointsAreMinimisers | temp.rpi/IRcamera/brain.c:278-304 | An image of coefficients is left unchanged by an iteration if and only if it minimises the objective. |
| Ist.RunDescends | temp.rpi/IRcamera/brain.c:278-304 | Over a whole run the objective never increases. |
| Ist.Rate | temp.rpi/IRcamera/brain.c:278-306 | After k iterations the objective exceeds its value at any point z by at most the squared distance of the start to z over 2k. |
| Ist.LastOnlySamples | temp.rpi/IRcamera/brain.c:290-292 | The measurements that count are distinct, cover every pixel measured, and are all of them when no pixel was measured twice. |
| Ist.ScatterByLast | temp.rpi/IRcamera/brain.c:286-292 | When a pixel was measured more than once, the written-back residual is that of its last measurement alone. |
| Fista.Shuffle | temp.rpi/IRcamera/brain.c:412-424 | Whatever the random numbers, the result is a permutation of the indices. |
| Fista.EveryOrder | temp.rpi/IRcamera/brain.c:412-424 | Every order of the indices comes out of the shuffle for some random numbers. |
| Fista.NoMomentum | temp.rpi/IRcamera/brain.c:282-284 | The momentum term is zero whenever tn is 1 or the two images agree. |
| Fista.AddMomentum | temp.rpi/IRcamera/brain.c:282-284 | The momentum loop changes nothing in the states the iteration reaches. |
| Fista.CopySelectedInstances | temp.rpi/IRcamera/brain.c:398-403 | Samples the image at the given indices. |
| Fista.WriteResidual | temp.rpi/IRcamera/brain.c:290-292 | Difference, clearing and write-back loops leave the residual at the sampled pixels and zero elsewhere. |
| Fista.AddAndThreshold | temp.rpi/IRcamera/brain.c:295-300 | Adds the update and soft-thresholds every coefficient. |
| Fista.ResidualTransform | temp.rpi/IRcamera/brain.c:286-293 | Synthesis, sampling, residual and analysis give the gradient of the misfit. |
| Fista.Iteration | temp.rpi/IRcamera/brain.c:279-303 | The loop body is one step of iterative soft thresholding, and afterwards both images agree again. |
| Fista.Iterations | temp.rpi/IRcamera/brain.c:278-304 | The loop computes as many steps as it makes turns, for any square root function. |
| Fista.FISTA | temp.rpi/IRcamera/brain.c:264-314 | FISTA returns the synthesis of the iterated coefficients of the problem its first upper measurements pose, the last one counting where a pixel occurs twice. |
| Fista.SamplesInShare | temp.rpi/IRcamera/brain.c:264-278 | The number of measurements is the share of the pixels, rounded down. |
| Fista.ISTcomplete | temp.rpi/IRcamera/brain.c:316-392 | The ramp is sampled at half of a permutation, and the result is the synthesis of the iterated coefficients from zero. |
| Ring.PushKeepsNewest | temp.rpi/libphidget/cphidgetrfid.c:346-354 | Writing to a ring appends to the queue between its pointers and drops the oldest entry when 1023 are held. |
| Ring.NewestOfNewest | temp.rpi/libphidget/cphidgetrfid.c:318-354 | Dropping the oldest entries early or late makes no difference. |
| Ring.SkipDrops | temp.rpi/libphidget/cphidgetrfid.c:1589-1601 | Moving the read pointer forward removes exactly that many entries from the front. |
| Ring.StillWithinReach | temp.rpi/libphidget/cphidgetrfid.c:1076-1079 | A search pointer that moves less than what is queued does not meet the write pointer. |
| Crc.UpdateDivides | temp.rpi/libphidget/cphidgetrfid.c:811-819 | The shifts and masks of one update are eight steps of long division by x^16 + x^12 + x^5 + 1 (section 2 of ITU-T V.41). |
| Crc.CrcIsRemainder | temp.rpi/libphidget/cphidgetrfid.c:914-916 | The checksum of a message is the remainder of its bits. |
| Crc.RemainderLinear | temp.rpi/libphidget/cphidgetrfid.c:811-819 | The remainder of the exclusive or of two bit strings is the exclusive or of their remainders. |
| Crc.BurstDetected | temp.rpi/libphidget/cphidgetrfid.c:1163-1174 | A message that differs from another one within a burst of at most sixteen bits has a different checksum. |
| Crc.ChecksumKeptIff | temp.rpi/libphidget/cphidgetrfid.c:811-819 | Two messages that agree outside nineteen bits have the same checksum if and only if their difference there is a sum of shifted generators. |
| Crc.Checksum | temp.rpi/libphidget/cphidgetrfid.c:1163-1168 | The update loop computes the checksum of the message. |
| Em4100.FrameValid | temp.rpi/libphidget/cphidgetrfid.c:837-877 | A frame passes the header, row, column and stop bit checks and spells its tag in lower case. |
| Em4100.ZeroWithinNine | temp.rpi/libphidget/cphidgetrfid.c:1007-1016 | In a repeated frame nine ones in a row begin at offset 0 to 4 of a frame and nowhere else. |
| Em4100.ValidIffAligned | temp.rpi/libphidget/cphidgetrfid.c:995-1058 | A window of a repeated frame passes all checks if and only if it is aligned with the frame. |
| Em4100.FirstTagIsFirst | temp.rpi/libphidget/cphidgetrfid.c:995-1079 | The search reports nothing if and only if no window is valid, and else the tag of the first valid window. |
| Em4100.SelfSynchronising | temp.rpi/libphidget/cphidgetrfid.c:987-1080 | 127 bits of a frame repeated back to back are enough to find the tag, at any rotation. |
| Em4100Encoder.ParityStep | temp.rpi/libphidget/cphidgetrfid.c:859-870 | Each tag bit toggles the parity bit of its row and of its column, and no other bit of the word. |
| Em4100Encoder.PlaceData | temp.rpi/libphidget/cphidgetrfid.c:852-858 | The mask loop places the ten digits in their rows. |
| Em4100Encoder.AddParity | temp.rpi/libphidget/cphidgetrfid.c:859-870 | The parity loop completes all row and column parities. |
| Em4100Encoder.NumberCarries | temp.rpi/libphidget/cphidgetrfid.c:849-866 | Shifts and masks see, in the low 40 bits of any 64-bit number, the ten digits these bits spell. |
| Em4100Encoder.EncodeEM4100 | temp.rpi/libphidget/cphidgetrfid.c:837-877 | Wrong lengths and short buffers are refused; otherwise the bits of the two blocks are the frame of the low 40 bits of what strtoll reads, for every string and every strtoll. |
| Em4100Encoder.HexTagFrame | temp.rpi/libphidget/cphidgetrfid.c:849-877 | For ten hexadecimal digits, with 0x or without, that is the frame of the tag. |
| Em4100Decoder.SearchHeader | temp.rpi/libphidget/cphidgetrfid.c:995-1028 | The header loop stops at the first header, or reports that fewer than 64 entries are left. |
| Em4100Decoder.ReadWindow | temp.rpi/libphidget/cphidgetrfid.c:1030-1058 | Copies the window out of the ring and decides all checks. |
| Em4100Decoder.StripData | temp.rpi/libphidget/cphidgetrfid.c:1060-1072 | The five bytes, printed in hexadecimal, are the digits in the rows. |
| Em4100Decoder.DecodeEM4100 | temp.rpi/libphidget/cphidgetrfid.c:987-1080 | Terminates on every ring, returns the first valid tag of the queue, and advances the read pointer by 64 on success only, never past the write pointer of a non-empty queue. |
| Em4100Decoder.RingSelfSynchronising | temp.rpi/libphidget/cphidgetrfid.c:987-1080 | Self-synchronisation from every position of the ring. |
| Search.HiddenBehindHeader | temp.rpi/libphidget/cphidgetrfid.c:1198-1202 | A search that resumes one entry past a failed header misses a header if and only if a tried header ends directly before it. |
| Search.ReachesIffEven | temp.rpi/libphidget/cphidgetrfid.c:1124-1202 | A header is tried if and only if an even number of headers stand in a row directly before it. |
| FdxB.FrameValid | temp.rpi/libphidget/cphidgetrfid.c:918-930 | A frame passes header, control bit and checksum tests and holds its data. |
| FdxB.TagOfData | temp.rpi/libphidget/cphidgetrfid.c:1178-1196 | The number read from the data prints as the fifteen digits it was made from. |
| FdxB.ScanFinds | temp.rpi/libphidget/cphidgetrfid.c:1082-1203 | A tag is found if and only if a valid frame stands where the search comes by, and the first of these is the one returned. |
| FdxB.MissedIffHidden | temp.rpi/libphidget/cphidgetrfid.c:1198-1202 | A valid frame is passed over if and only if an odd number of headers stand in a row directly before it. |
| FdxB.BurstRefused | temp.rpi/libphidget/cphidgetrfid.c:1145-1174 | A frame whose data bits were changed by a burst of at most sixteen, its checksum field kept, does not pass, and no tag read from any queue, from any position on, comes from there. |
| FdxB.DoubledHeaderHidesFrame | temp.rpi/libphidget/cphidgetrfid.c:1124-1126 | For every tag: its valid frame, with the header bits once more in front, is not found. |
| FdxB.HeaderIffAligned | temp.rpi/libphidget/cphidgetrfid.c:1097-1121 | In a repeated frame the header pattern occurs only at the start of a frame. |
| FdxB.SelfSynchronising | temp.rpi/libphidget/cphidgetrfid.c:1082-1203 | 255 bits of a repeated frame are enough to find the tag unchanged. |
| FdxBEncoder.ReverseBit | temp.rpi/libphidget/cphidgetrfid.c:822-831 | The five swap stages and the final half swap reverse all 64 bits. |
| FdxBEncoder.TagNumberIsData | temp.rpi/libphidget/cphidgetrfid.c:903-911 | Shifting, or-ing and the animal bit build the 64-bit code with no field touching another, for every country code and every number of 38 bits. |
| FdxBEncoder.TagChecksum | temp.rpi/libphidget/cphidgetrfid.c:914-916 | The byte loop over the reversed word computes the checksum of the frame. |
| FdxBEncoder.FirstWord | temp.rpi/libphidget/cphidgetrfid.c:921-925 | Header, control bits and six groups of data are where the frame has them. |
| FdxBEncoder.SecondWord | temp.rpi/libphidget/cphidgetrfid.c:922-927 | The last two groups of data are where the frame has them. |
| FdxBEncoder.AddChecksum | temp.rpi/libphidget/cphidgetrfid.c:928-930 | The two checksum bytes are where the frame has them. |
| FdxBEncoder.EncodeFdxB | temp.rpi/libphidget/cphidgetrfid.c:883-939 | Exactly strings of fifteen characters in which strtoll reads at most 38 bits are encoded, and the bits of the four blocks are the frame of the two numbers read. |
| FdxBEncoder.DecimalTagFrame | temp.rpi/libphidget/cphidgetrfid.c:896-911 | Fifteen digits are encoded if and only if the last twelve fit in 38 bits, and the frame is that of the tag. |
| FdxBDecoder.ReadGroups | temp.rpi/libphidget/cphidgetrfid.c:1132-1160 | Reads groups of eight bits and stops at the first missing control bit. |
| FdxBDecoder.TryFrame | temp.rpi/libphidget/cphidgetrfid.c:1128-1174 | Accepts a frame behind a header if and only if control bits and checksum are right. |
| FdxBDecoder.DecodeFdxB | temp.rpi/libphidget/cphidgetrfid.c:1082-1203 | Terminates on every ring, finds what the search finds, and advances the read pointer by 128 on success only. |
| FdxBDecoder.RingSelfSynchronising | temp.rpi/libphidget/cphidgetrfid.c:1082-1203 | Self-synchronisation from every position of the ring. |
| PhidgetsTag.FrameGood | temp.rpi/libphidget/cphidgetrfid.c:963-980 | A frame passes header, control bit and checksum tests and holds its text. |
| PhidgetsTag.TextRoundTrip | temp.rpi/libphidget/cphidgetrfid.c:1294-1297 | The text, cut at its first NUL, is the string it was made from. |
| PhidgetsTag.AcceptedIffStaleFits | temp.rpi/libphidget/cphidgetrfid.c:1211-1292 | The checksum register is never cleared between attempts, so a good frame is accepted if and only if every bit left in the register is a bit of its checksum. |
| PhidgetsTag.ScanFinds | temp.rpi/libphidget/cphidgetrfid.c:1205-1308 | A tag is found if and only if some frame where the search comes by passes with the register as it is then, and the first of these is the one returned. |
| PhidgetsTag.RegisterHolds | temp.rpi/libphidget/cphidgetrfid.c:1211-1266 | A bit of the register is set if and only if some header tried before had it in the part of its checksum that was read. |
| PhidgetsTag.GoodFrameAccepted | temp.rpi/libphidget/cphidgetrfid.c:1205-1308 | A good frame is accepted if and only if an even number of headers stand in a row directly before it and no header tried anywhere before it had a checksum bit that the frame does not have. |
| PhidgetsTag.SpoiledByFalseStart | temp.rpi/libphidget/cphidgetrfid.c:1253-1262 | Behind 23 bits of noise a frame is still read if and only if the upper byte of its checksum is all ones. |
| PhidgetsTag.EmptyTagLost | temp.rpi/libphidget/cphidgetrfid.c:1211-1292 | A concrete good frame that is not found because of a stale register. |
| PhidgetsTag.DoubledHeaderHidesFrame | temp.rpi/libphidget/cphidgetrfid.c:1304-1307 | For every text: its good frame, with the header bits once more in front, is not found. |
| PhidgetsTag.FirstHeaderGood | temp.rpi/libphidget/cphidgetrfid.c:1205-1308 | When the first header of the queue belongs to a good frame, that frame is read. |
| PhidgetsTag.HeaderIffAligned | temp.rpi/libphidget/cphidgetrfid.c:1219-1245 | In a repeated frame the header pattern occurs only at the start of a frame. |
| PhidgetsTag.SelfSynchronising | temp.rpi/libphidget/cphidgetrfid.c:1205-1308 | 447 bits of a repeated frame are enough to find the text unchanged. |
| PhidgetsTagDamage.AcceptedIff | temp.rpi/libphidget/cphidgetrfid.c:1205-1292 | Any frame with its control bits is accepted if and only if an even number of headers stand in a row directly before it and its checksum bits, with those left behind by headers tried before, are the checksum of its text. |
| PhidgetsTagDamage.BurstRefused | temp.rpi/libphidget/cphidgetrfid.c:1283-1292 | With a clean register, a message changed by a burst of at most sixteen bits is refused. |
| PhidgetsTagDamage.SixteenBitsPassIff | temp.rpi/libphidget/cphidgetrfid.c:1268-1292 | With a clean register, a frame with sixteen data bits in a row changed as they are sent passes if and only if the change is a sum of shifted generators in the message. |
| PhidgetsTagDamage.FifteenBitsPass | temp.rpi/libphidget/cphidgetrfid.c:1268-1292 | For every text, inverting the data bits 0, 4, 10 and 14 gives a frame that is read as another text. |
| PhidgetsTagDamage.WrongTagRead | temp.rpi/libphidget/cphidgetrfid.c:1211-1292 | Behind a false header with the checksum of c, the frame of d with the text c in it is read as c, whenever the checksum bits of d are among those of c; alone it is refused. |
| PhidgetsTagDamage.ReadAsC | temp.rpi/libphidget/cphidgetrfid.c:1211-1292 | A concrete frame with one character changed that is refused alone and read behind a false header. |
| PhidgetsTagEncoder.FirstBlock | temp.rpi/libphidget/cphidgetrfid.c:968-970 | Header, control bits and the two checksum bytes are where the frame has them. |
| PhidgetsTagEncoder.PlaceInBlocks | temp.rpi/libphidget/cphidgetrfid.c:975-980 | Or-ing one shifted character changes its seven data bits and nothing else. |
| PhidgetsTagEncoder.EncodePhidgetsTag | temp.rpi/libphidget/cphidgetrfid.c:945-985 | Texts of at most 24 characters are encoded, and the bits of the seven blocks are the frame. |
| PhidgetsTagDecoder.ReadChecksum | temp.rpi/libphidget/cphidgetrfid.c:1253-1266 | Or-s the checksum bits into the register, as far as the control bits allow. |
| PhidgetsTagDecoder.ReadText | temp.rpi/libphidget/cphidgetrfid.c:1268-1284 | Collects the seven data bits of each character and stops at a missing control bit. |
| PhidgetsTagDecoder.DecodePhidgetsTag | temp.rpi/libphidget/cphidgetrfid.c:1205-1308 | Terminates on every ring, finds what the search finds, register included, and advances the read pointer by 224 on success only. |
| PhidgetsTagDecoder.RingSelfSynchronising | temp.rpi/libphidget/cphidgetrfid.c:1205-1308 | Self-synchronisation from every position of the ring. |
| TagRoundTrips.Em4100Reads | temp.rpi/libphidget/cphidgetrfid.c:837-1080 | A programmed EM4100 tag that sends its blocks over and over is read back, from any bit and any ring position on. |
| TagRoundTrips.FdxBReads | temp.rpi/libphidget/cphidgetrfid.c:883-1203 | The same for FDX-B, with the string unchanged. |
| TagRoundTrips.PhidgetsTagReads | temp.rpi/libphidget/cphidgetrfid.c:945-1308 | The same for PhidgetsTAG, with the string unchanged. |
| Pulses.ManchesterIsManchester | temp.rpi/libphidget/cphidgetrfid.c:1365-1460 | The pulses of a bit string put every bit and then its complement on the wire. |
| Pulses.BiphaseIsBiphase | temp.rpi/libphidget/cphidgetrfid.c:1310-1363 | The pulses of a bit string toggle the wire at every bit, and in the middle of every zero. |
| LineDecoders.ManchesterInverse | temp.rpi/libphidget/cphidgetrfid.c:1365-1460 | From any state, pulses of a bit string that begins with a long pulse give back exactly its bits. |
| LineDecoders.BiphaseInverse | temp.rpi/libphidget/cphidgetrfid.c:1310-1363 | From any state, pulses of a bit string that begins with a one give back exactly its bits. |
| LineDecoders.ManchesterChunks | temp.rpi/libphidget/cphidgetrfid.c:1365-1460 | Splitting the pulses over several calls changes nothing. |
| LineDecoders.BiphaseChunks | temp.rpi/libphidget/cphidgetrfid.c:1310-1363 | Splitting the pulses changes nothing unless a call stops at a pulse that is not biphase; then it skips the rest of its own pulses only. |
| LineDecoders.BiphaseStops | temp.rpi/libphidget/cphidgetrfid.c:1350-1356 | A call fails if and only if one of its pulses has neither length. |
| Stream.PlayedIsManchester | temp.rpi/libphidget/cphidgetrfid.c:1365-1460 | The endless stream, cut between bits, is the Manchester code of its bits. |
| Stream.StaysInStep | temp.rpi/libphidget/cphidgetrfid.c:1365-1460 | A decoder in step with a stream stays in step, and its ring holds only bits that were sent. |
| Stream.LockIn | temp.rpi/libphidget/cphidgetrfid.c:1365-1460 | A fresh decoder that starts anywhere in a stream, even inside a bit, holds exactly the bits from the first change on once it has seen a long pulse. |
| Analysis.BiphaseNeverRefuses | temp.rpi/libphidget/cphidgetrfid.c:1493-1538 | Whatever the pulses, those handed to the line decoders have the two measured lengths, so the biphase decoder never refuses. |
| Analysis.AnalyzeLeavesOneLength | temp.rpi/libphidget/cphidgetrfid.c:1463-1605 | Analysis ends with no pulse left, or with a run of one single length that waits for another one. |
| Analysis.MeasureRates | temp.rpi/libphidget/cphidgetrfid.c:1493-1524 | The two lengths measured are one twice the other, and all pulses passed have one of them. |
| Reader.RfidReader.WriteEntries | temp.rpi/libphidget/cphidgetrfid.c:318-354 | A packet is queued behind what is there; the oldest entries make room. |
| Reader.RfidReader.AddManchesterData | temp.rpi/libphidget/cphidgetrfid.c:1365-1460 | Flags, pointers and ring after the loop are those of the Manchester decoder run over the pulses. |
| Reader.RfidReader.AddBiphaseData | temp.rpi/libphidget/cphidgetrfid.c:1310-1363 | The same for the biphase decoder, with its failure. |
| Reader.RfidReader.ResetValuesFromSpace | temp.rpi/libphidget/cphidgetrfid.c:784-794 | Lengths, flags and pointers are cleared; the ring contents stay. |
| Reader.RfidReader.MeasurePulses | temp.rpi/libphidget/cphidgetrfid.c:1491-1524 | The loop measures the two lengths and finds how far the pulses fit together. |
| Reader.RfidReader.DecodePulses | temp.rpi/libphidget/cphidgetrfid.c:1544-1590 | Feeds both line decoders, reads the tags in order, and moves the read pointer. |
| Reader.RfidReader.AnalyzeOnce | temp.rpi/libphidget/cphidgetrfid.c:1471-1604 | One turn from the label start leaves fewer pulses queued or ends. |
| Reader.RfidReader.AnalyzeData | temp.rpi/libphidget/cphidgetrfid.c:1463-1605 | Terminates from every state of the rings, with the state and the tags of the analysis function. |
| Reader.RfidReader.DataInput | temp.rpi/libphidget/cphidgetrfid.c:315-377 | A packet is queued and analysed at once. |
| Listening.ByteIsPulseIff | temp.rpi/libphidget/cphidgetrfid.c:317-344 | A byte is taken for a pulse if and only if the device sends it for one of that level whose measured length is within the tolerance of that nominal length; every other byte is a pause. |
| Listening.Listen | temp.rpi/libphidget/cphidgetrfid.c:315-377 | Packets handed over one after the other do to the reader what their pulses do. |
| Listening.FedIsFeedAll | temp.rpi/libphidget/cphidgetrfid.c:315-377 | Packets of bytes that carry the pulses of a stream, every length anywhere in its tolerance, are that stream to the reader. |
| Listening.CanBeSent | temp.rpi/libphidget/cphidgetrfid.c:317-344 | Such bytes exist for every stream and every split into packets. |
| Listening.ReadEM4100 | temp.rpi/libphidget/cphidgetrfid.c:315-1605 | A reader that was just attached, fed the bytes of a repeated EM4100 frame in packets of at most 63, reports that tag and nothing else, and has reported it after 191 bits. |
| Listening.ReadBiphaseTag | temp.rpi/libphidget/cphidgetrfid.c:315-1605 | Fed the bytes of five repeated frames of an FDX-B tag or a PhidgetsTAG, it reports that tag and no other of any type if and only if the levels hold no EM4100 frame and the frame is not an FDX-B frame besides. |
| Listening.HearsFrames | temp.rpi/libphidget/cphidgetrfid.c:315-1605 | Fed the bytes of any stream, it reports an EM4100 tag if and only if the levels heard hold an EM4100 frame, and first the tag of the first one. |
| Tracking.TakeInStep | temp.rpi/libphidget/cphidgetrfid.c:1544-1554 | A Manchester decoder in step with a repeated frame yields that tag or nothing, and nothing only below 127 bits. |
| Tracking.FirstLocked | temp.rpi/libphidget/cphidgetrfid.c:1463-1605 | The packet that brings the second pulse length puts the decoder in step, and it yields that tag or nothing. |
| Tracking.NextLocked | temp.rpi/libphidget/cphidgetrfid.c:1463-1605 | A decoder in step stays in step with every packet, and its queue is not empty when the tag decoder runs. |
| Tracking.NothingInPeriod64 | temp.rpi/libphidget/cphidgetrfid.c:1097-1262 | Neither biphase tag decoder finds anything in bits that repeat after 64: a bit would have to be a zero of the header and a control bit one. |
| Tracking.BiphaseReadsNothing | temp.rpi/libphidget/cphidgetrfid.c:1580-1590 | From the pulses of a repeated EM4100 frame the biphase decoders report nothing, packet after packet. |
| Tracking.ReadsExactlyTheTag | temp.rpi/libphidget/cphidgetrfid.c:315-1605 | A reset reader fed the pulses of a repeated EM4100 frame, from any point of any bit and in packets of 1 to 63 pulses, reports that tag and nothing else, of any type, and has reported it after 191 bits. |
| Feeding.RunSplits | temp.rpi/libphidget/cphidgetrfid.c:1463-1605 | Feeding a reset reader packet by packet is feeding the two line decoders apart, the pulses up to the second length in one packet. |
| CrossTalk.TakeIffHeard | temp.rpi/libphidget/cphidgetrfid.c:995-1079 | A Manchester decoder that holds everything heard and has found nothing yet yields a tag if and only if a frame was completed among the levels, and then the tag of the first frame. |
| CrossTalk.ReadsEM4100IffHeard | temp.rpi/libphidget/cphidgetrfid.c:315-1605 | A reset reader fed any stream of either line code reports an EM4100 tag if and only if 64 levels in a row, from the first change on, are an EM4100 frame; the first tag reported is that of the first such frame. |
| StaleTags.ReadsQueueOrOldBits | temp.rpi/libphidget/cphidgetrfid.c:995-1079 | The EM4100 decoder: a non-empty queue yields its first valid tag and nothing else; an empty one yields a tag if and only if the 64 old bits at the pointer pass without a header or a valid frame stands further on. |
| StaleTags.FdxBReadsQueueOrOldBits | temp.rpi/libphidget/cphidgetrfid.c:1097-1203 | The FDX-B decoder: a non-empty queue yields a tag if and only if the search comes by a valid frame in it; an empty one if and only if the 128 old bits at the pointer pass without a header or the search comes by a valid frame further on. |
| StaleTags.PhidgetsReadsQueueOrOldBits | temp.rpi/libphidget/cphidgetrfid.c:1219-1308 | The same for the PhidgetsTAG decoder, with what the old bits leave in its checksum register. |
| StaleFrames.UsedUpReadsAgain | temp.rpi/libphidget/cphidgetrfid.c:1097-1308 | With the queue used up right behind a frame that was read, one short pulse more makes the biphase decoders report a tag again. |
| StaleFrames.FrameReadAgain | temp.rpi/libphidget/cphidgetrfid.c:315-1605 | A reset reader that hears 128 ones and the frame of any FDX-B tag twice, pulse by pulse, and then half a zero, has used up its queue, and reports one tag more for a pulse that brings no bit. |
| StaleFrames.FrameReadAgainIsReached | temp.rpi/libphidget/cphidgetrfid.c:315-1605 | There is such a run from the reset reader for every tag and every rate. |
| StaleTags.ShortPulseReadsZeros | temp.rpi/libphidget/cphidgetrfid.c:1411-1445 | With the queue used up and unwritten bits ahead, one short pulse makes the decoder report the tag 0000000000. |
| StaleTags.FalseTag | temp.rpi/libphidget/cphidgetrfid.c:315-1605 | A reader that hears one frame of any tag, in any packets that end with the frame, and then one pulse of a zero, reports the tag and then 0000000000. |
| StaleTags.FalseTagIsReached | temp.rpi/libphidget/cphidgetrfid.c:315-1605 | There is such a run from the reset reader for every tag and every rate. |
| BiphaseStream.PlayedIsBiphase | temp.rpi/libphidget/cphidgetrfid.c:1310-1363 | The pulses of the endless stream of levels are the biphase code of the changes of these levels, so one stream feeds both decoders. |
| BiphaseStream.StaysOnTheBeat | temp.rpi/libphidget/cphidgetrfid.c:1310-1363 | A decoder in step with a biphase stream stays in step and queues every bit. |
| BiphaseStream.HeardFromFirstOne | temp.rpi/libphidget/cphidgetrfid.c:1310-1363 | A fresh decoder that starts anywhere in a biphase stream, even inside a bit, queues exactly the bits from the first one on. |
| BiphaseTracking.NoPhidgetsInFdx | temp.rpi/libphidget/cphidgetrfid.c:1219-1245 | The PhidgetsTAG decoder finds nothing in a repeated FDX-B frame. |
| BiphaseTracking.FdxHeaderInPhidgets | temp.rpi/libphidget/cphidgetrfid.c:1097-1121 | In a repeated PhidgetsTAG frame an FDX-B header occurs at bit 3 of a frame and nowhere else. |
| BiphaseTracking.FdxReadIff | temp.rpi/libphidget/cphidgetrfid.c:1097-1202 | When a PhidgetsTAG frame passes for an FDX-B frame, the FDX-B decoder reads it from any stretch of the repeated frame if and only if it is complete there. |
| BiphaseTracking.TakeOnTheBeat | temp.rpi/libphidget/cphidgetrfid.c:1580-1587 | The two decoders on the queue of a repeated frame that is not an FDX-B frame besides yield that tag or nothing, and nothing only below two frames less one bit; the queue is not used up. |
| BiphaseTracking.TracksAll | temp.rpi/libphidget/cphidgetrfid.c:315-1605 | Over all packets the biphase decoders report that tag and no other of the two types. |
| DoubleTags.TakeDouble | temp.rpi/libphidget/cphidgetrfid.c:1580-1587 | Of a PhidgetsTAG whose frame is an FDX-B frame besides, the FDX-B tag is read as soon as it is complete, unless the whole longer frame is there. |
| DoubleTags.HiddenAll | temp.rpi/libphidget/cphidgetrfid.c:315-1605 | The first tag that the biphase decoders report for it is that FDX-B tag, whatever the packets. |
| DoubleTags.BehindAll | temp.rpi/libphidget/cphidgetrfid.c:315-1605 | In packets of 2 to 46 pulses they report nothing else: every FDX-B tag that is read takes the beginning of the longer frame away. |
| TagReads.CanBeHeard | temp.rpi/libphidget/cphidgetrfid.c:1310-1363 | Every tag can be heard from any of its bits on and from either level. |
| TagReads.LevelsRepeat | temp.rpi/libphidget/cphidgetrfid.c:1365-1460 | The levels of a repeated biphase frame repeat after two frames. |
| TagReads.ReadsEM4100IffInside | temp.rpi/libphidget/cphidgetrfid.c:315-1605 | A reset reader that is fed five frames of a biphase tag reports an EM4100 tag if and only if some 64 levels of the repeated frame are an EM4100 frame. |
| TagReads.ReadsOnlyTheTagIff | temp.rpi/libphidget/cphidgetrfid.c:315-1605 | A reset reader fed five repeated frames of any FDX-B tag or PhidgetsTAG, from any point of any bit and in packets of 1 to 63 pulses, reports a tag; it reports that tag and no other of any type if and only if its levels hold no EM4100 frame and, for a PhidgetsTAG, its frame is not an FDX-B frame besides. |
| TagReads.ReadsAnotherTagIff | temp.rpi/libphidget/cphidgetrfid.c:315-1605 | For every text: the biphase decoders report another tag than the PhidgetsTAG if and only if bits 3 to 130 of its frame pass as an FDX-B frame, and then that is the first tag they report. |
| TagReads.NeverReadsDoubleTag | temp.rpi/libphidget/cphidgetrfid.c:315-1605 | Such a PhidgetsTAG is never reported when it is fed in packets of 2 to 46 pulses. |
| MistakenChip.ChipReadAsEM4100 | temp.rpi/libphidget/cphidgetrfid.c:315-1605 | An FDX-B tag, 982212672881079, from whose pulses the reader reports the EM4100 tag 005479667a, in packets of any size. |
| CrcWords.StepsAgree | temp.rpi/libphidget/cphidgetrfid.c:811-819 | A step of the long division on a 16-bit word is the step on its bits. |
| MistakenText.TextHides | temp.rpi/libphidget/cphidgetrfid.c:1097-1196 | The frame of the text Zcy0l77sjN9z, checksum and all, passes as that of the FDX-B tag 450223098030701. |
| MistakenText.TextReadAsFdx | temp.rpi/libphidget/cphidgetrfid.c:315-1605 | Fed this PhidgetsTAG, the reader reports that FDX-B tag first, and in packets of 2 to 46 pulses it never reports the text. |
| TagEvents.AnnouncedOnceInOrder | temp.rpi/libphidget/cphidgetrfid.c:597-714 | In every interleaving, tags are announced in the order they were queued, none twice, and at most the pending one not yet. |
| TagEvents.EventsAgree | temp.rpi/libphidget/cphidgetrfid.c:614-620 | When nothing is pending, the Tag events carry the data of the EM4100 tags among the Tag2 events. |
| TagEvents.PendingTagIsStable | temp.rpi/libphidget/cphidgetrfid.c:614-709 | The pending tag does not change while it is pending. |
| TagEvents.CommitsTheAnnounced | temp.rpi/libphidget/cphidgetrfid.c:622-627 | The tag copied to lastTag is the one just announced. |
| TagEvents.LastTagWasAnnounced | temp.rpi/libphidget/cphidgetrfid.c:622-627 | The last tag is the one announced last, or the pending one right after attach. |
| TagEvents.NoRepeatWithoutGap | temp.rpi/libphidget/cphidgetrfid.c:692-709 | The same tag is queued twice in a row only if presence was cleared in between. |
| TagEvents.QueuedUnlessKnown | temp.rpi/libphidget/cphidgetrfid.c:684-714 | When tagEvent returns its tag has been queued if and only if no tag was present, or the tag announced last had the same protocol and another string. |
| TagEvents.OtherTagIsQueued | temp.rpi/libphidget/cphidgetrfid.c:684-714 | A tag of the protocol announced last, but with another string, is always queued. |
| TagEvents.LostWasAnnounced | temp.rpi/libphidget/cphidgetrfid.c:629-654 | A lost event names the tag announced last. |
| TagEvents.PendingIsServed | temp.rpi/libphidget/cphidgetrfid.c:604-627 | A pending tag is committed within seven steps of the timer thread, whatever the reader thread does. |
| IrTimes.UnpackPack | temp.rpi/libphidget/cphidgetir.c:273-284 | The byte stream determines the list of times in tens of microseconds, for all times up to 327670. |
| IrTimes.WholeTensSurvive | temp.rpi/libphidget/cphidgetir.c:273-284 | Whole tens of microseconds come back exactly. |
| IrTimes.Packer.Put | temp.rpi/libphidget/cphidgetir.c:273-284 | One time is appended as one or two bytes, or refused for lack of room or for its length, in this order of tests. |
| IrTimes.RawTimeDataToRawData | temp.rpi/libphidget/cphidgetir.c:286-298 | The first time that does not fit decides the error; otherwise the bytes are those of all times. |
| IrTimes.AcceptedIff | temp.rpi/libphidget/cphidgetir.c:273-283 | Times are accepted if and only if none is too long and there is room for the last one. |
| IrTimes.RefusedAt | temp.rpi/libphidget/cphidgetir.c:273-283 | The first time that is not accepted decides the error: no memory if there is no room, else an invalid argument. |
| IrCode.BitsOfBytes | temp.rpi/libphidget/cphidgetir.c:331-337 | Reading the bits of the bytes of a bit string gives the bit string. |
| IrCode.BytesOfBits | temp.rpi/libphidget/cphidgetir.c:331-337 | Packing the bits of a code gives its bytes, when the unused bits of the first byte are zero. |
| IrCode.BiphaseTimesAreMerged | temp.rpi/libphidget/cphidgetir.c:373-460 | The times sent are the half bits of the code with neighbours of one kind merged and the silence at both ends dropped, for all three biphase encodings. |
| IrEncoder.CodeInfoToRawData | temp.rpi/libphidget/cphidgetir.c:301-471 | Repeat codes, headers and all five encodings give the bytes of their times, with the first failing time deciding the error. |
| IrEncoder.PutBiphase | temp.rpi/libphidget/cphidgetir.c:373-460 | The special first bit, the loop and the last pulse send the times of the biphase code. |
| IrEncoder.RemoveSpace | temp.rpi/libphidget/cphidgetir.c:354-370 | What is deleted behind a pulse code, in bytes and in time. |
| IrEncoder.PulseCodeEndsWithPulse | temp.rpi/libphidget/cphidgetir.c:354-370 | The bytes end with the last pulse if and only if the space chosen by code[0] takes as many bytes as the last space, and the time is right if and only if both are equal. |
| IrEncoder.HalfASpaceStays | temp.rpi/libphidget/cphidgetir.c:354-370 | From nine bits on the wrong space may go: of codes with an odd first byte, a last bit 0 and only the space of a zero longer than 1270 us, one byte of the last space stays and the time is wrong. |
| IrEncoder.HalfASpaceStaysHere | temp.rpi/libphidget/cphidgetir.c:354-370 | One such code and the bytes that are left. |
| IrEncoder.ShortPulseCodes | temp.rpi/libphidget/cphidgetir.c:354-370 | Up to eight bits the space chosen is the right one. |
| IrDecodeData.CountTimes | temp.rpi/libphidget/cphidgetir.c:562-585 | Tallies at most four pulse and four space lengths in order of appearance, or fails. |
| IrDecodeData.OrderTimes | temp.rpi/libphidget/cphidgetir.c:587-598 | The loop makes the five passes of neighbour exchanges on both arrays. |
| IrDecoder.PassesSort | temp.rpi/libphidget/cphidgetir.c:587-598 | The passes sort: any lengths followed by free slots come out ascending and are a permutation of what went in. |
| IrDecoder.TallySorted | temp.rpi/libphidget/cphidgetir.c:562-598 | So do the pulse and space lengths of all data that is tallied. |
| IrDecodeData.DecodeBiphase | temp.rpi/libphidget/cphidgetir.c:729-793 | The half-bit loop, with its RC-6 cases, its failures and the end of its buffer. |
| IrDecodeData.FlipBits | temp.rpi/libphidget/cphidgetir.c:881-886 | The flipping loop gives the bytes of the bit string. |
| IrDecodeData.DecodeData | temp.rpi/libphidget/cphidgetir.c:553-893 | Lengths, shape, encoding, bits and bytes are those of the decoding function, on all inputs. |
| IrRoundTrip.BiphaseRoundTrip | temp.rpi/libphidget/cphidgetir.c:301-893 | A biphase or RC-5 code whose first two bits are ones comes back bit for bit with 4 to 127 bits, or 128 of which the last is zero; shorter ones are refused and longer ones write behind the buffer. |
| IrRoundTrip.BiphaseCodesBeginWithOne | temp.rpi/libphidget/cphidgetir.c:729-808 | Whatever the times, a code taken for biphase begins with a one. |
| IrRoundTrip.DoubleFirst | temp.rpi/libphidget/cphidgetir.c:704-808 | When the first time is a double one, the result is not biphase or has a one as second bit. |
| IrRoundTrip.ComesBackIff | temp.rpi/libphidget/cphidgetir.c:301-893 | With equal half bits, a code comes back as biphase if and only if its first two bits are ones and it has 4 to 127 bits, or 128 with the last one zero. |
| IrSpaceCode.SpaceRoundTrip | temp.rpi/libphidget/cphidgetir.c:329-886 | A space code with both kinds of bits, one pulse width and timings outside the biphase test comes back with its bits and timings up to 128 bits; what happens to others. |
| IrSpaceCode.DrivenAll | temp.rpi/libphidget/cphidgetir.c:729-793 | Space codes with timings inside the biphase test: where the half-bit loop gives up, where it runs out of its buffer, and its state otherwise. |
| IrSpaceCode.ComesBackIff | temp.rpi/libphidget/cphidgetir.c:329-886 | Whatever the timings, a space code of one pulse width comes back with its bits and timings if and only if it has both kinds of bits, 4 to 128 of them, and its timings are outside the biphase test or its ones stand where the half-bit loop gives up. |
| IrSpaceCode.SingleOneLost | temp.rpi/libphidget/cphidgetir.c:329-893 | A code of zeros and a single one, with spaces of one and two pulse widths, does not come back. |
| IrPulseCode.PulseRoundTrip | temp.rpi/libphidget/cphidgetir.c:329-866 | A pulse code with both kinds of bits, one space width and timings outside the biphase test comes back with its bits and timings up to 128 bits; what happens to others. |
| IrPulseCode.ComesBackIff | temp.rpi/libphidget/cphidgetir.c:329-866 | Whatever the timings, a pulse code of one space width comes back with its bits and timings if and only if it has both kinds of bits, 4 to 128 of them, and begins with a one, or has timings outside the biphase test, or ones where the half-bit loop gives up. |
| IrRc6.BitsLast | temp.rpi/libphidget/cphidgetir.c:370-470 | In RC-6 every bit lasts two half bits, and the fifth one four. |
| IrRc6.MachineDecodes6 | temp.rpi/libphidget/cphidgetir.c:729-793 | Fed the times of an RC-6 code behind its first half bit, the half-bit loop writes its bits, or runs out of its buffer. |
| IrRc6.Rc6RoundTrip | temp.rpi/libphidget/cphidgetir.c:301-893 | An RC-6 code that begins with a one, whose lengths pass the shape tests and whose first double time is a space, comes back as RC-6 with 5 to 127 bits, or 128 of which the last is a one. |
| IrRc6.ComesBackIff | temp.rpi/libphidget/cphidgetir.c:301-893 | Exactly these RC-6 codes come back. |
| IrRc6.FiveOnesLost | temp.rpi/libphidget/cphidgetir.c:704-793 | An RC-6 code that begins with five ones never comes back. |
| IrPackets.HeaderFirst | temp.rpi/libphidget/cphidgetir.c:323-327 | For every header: the packet begins with the tens of microseconds of its pulse and then of its space, and what follows is the body, cut to tens. |
| IrPackets.SpaceThroughPacket | temp.rpi/libphidget/cphidgetir.c:301-893 | What a packet of a space code holds behind its header decodes to the code, bit count and timings, the trail last, if and only if both kinds of bits occur, 4 to 128 of them, and the times are not read as a biphase code. |
| IrPackets.PulseThroughPacket | temp.rpi/libphidget/cphidgetir.c:301-893 | The same for pulse codes of one space width, with the last space removed. |
| IrPackets.BiphaseThroughPacket | temp.rpi/libphidget/cphidgetir.c:301-893 | A biphase or RC-5 code that begins with two ones comes back from its packet behind any header, for every half bit whose double, cut to tens, still passes for twice a half. |
| IrPackets.CutHalves | temp.rpi/libphidget/cphidgetir.c:273-283 | That is so for every half bit of at least 50 microseconds. |
| IrPackets.Rc6ThroughPacket | temp.rpi/libphidget/cphidgetir.c:301-893 | The same for RC-6 codes whose cut lengths pass the shape tests and whose first double time is a space. |
| Led.SentCounted | temp.rpi/libphidget/cphidgetled.c:461-742 | On all three boards changeRequests stays the number of flags set, and goes down by the changes a packet makes. |
| Led.RequestedCounted | temp.rpi/libphidget/cphidgetled.c:764-807 | So it does with every request. |
| Led.SentDecreases | temp.rpi/libphidget/cphidgetled.c:461-742 | A packet with work pending sends the control packet or makes at least one change. |
| Led.TwoOutputsServeAll | temp.rpi/libphidget/cphidgetled.c:579-617 | Two output packets in a row without new requests leave nothing pending in either half. |
| Led.SentTargets | temp.rpi/libphidget/cphidgetled.c:461-742 | No packet changes the brightness an LED is going to, known or not, on any board, except that an output packet of the M3 board sends the LEDs of its half to 0 when it is not known. |
| Led.RequestedTargets | temp.rpi/libphidget/cphidgetled.c:764-807 | An accepted request sets the target of its LED and no other; one that has to wait changes nothing. |
| Led.Drains | temp.rpi/libphidget/cphidgetled.c:461-742 | Without new requests, as many packets as there is work bring every LED of every board to its target, from any state after attach. |
| LedPackets.SettingsReadBack | temp.rpi/libphidget/cphidgetled.c:493-523 | The control flags are read back as the current limit and voltage they were made from. |
| LedPackets.SentSettings | temp.rpi/libphidget/cphidgetled.c:486-549 | The control packet brings the current limit and the voltage to the board, and no other packet touches them. |
| LedPackets.SetsReach | temp.rpi/libphidget/cphidgetled.c:551-577 | A brightness packet changes exactly the LEDs it names, however often it repeats them. |
| LedPackets.OutputsReach | temp.rpi/libphidget/cphidgetled.c:581-616 | An output packet switches the LEDs of its half and touches no brightness. |
| LedPackets.SentShows | temp.rpi/libphidget/cphidgetled.c:486-618 | After every packet, from any history, the board shows the level of LED_Power for every LED. |
| LedPackets.RequestedShows | temp.rpi/libphidget/cphidgetled.c:764-807 | Requests keep the board in step. |
| LedPackets.AttachedShows | temp.rpi/libphidget/cphidgetled.c:108-125 | The attach code starts in step with whatever the board shows. |
| LedM3.UnpackPack12 | temp.rpi/libphidget/cphidgetled.c:402-429 | The twelve-bit fields read are the values packed. |
| LedM3.UnpackPack6 | temp.rpi/libphidget/cphidgetled.c:378-399 | The six-bit fields read are the values packed. |
| LedM3.Pack12 | temp.rpi/libphidget/cphidgetled.c:705-733 | The loop packs 32 values of twelve bits without gaps. |
| LedM3.Pack6 | temp.rpi/libphidget/cphidgetled.c:641-668 | The loop packs 64 values of six bits without gaps. |
| LedM3.EchoRoundTripIff | temp.rpi/libphidget/cphidgetled.c:413-721 | A brightness read back is sent again as the same value if and only if it is at most 1024 of 4095, because reading divides by 4097. |
| LedM3.LimitRoundTrip | temp.rpi/libphidget/cphidgetled.c:398-649 | A current limit read back is sent again as the same value. |
| LedM3.HalfShows | temp.rpi/libphidget/cphidgetled.c:690-733 | An output packet makes its half show LED_Power and leaves the other half. |
| LedM3.SentShows | temp.rpi/libphidget/cphidgetled.c:673-734 | A board that shows LED_Power goes on to do so, packet after packet. |
| LedM3.AttachedShowsIff | temp.rpi/libphidget/cphidgetled.c:126-136 | The attach code starts in step with the board if and only if nothing is brighter than 1024 of 4095. |
| LedBoard.LedController.Request | temp.rpi/libphidget/cphidgetled.c:764-807 | The locked part of sendpacket does what a request does to the shared state. |
| LedBoard.LedController.TakeFour | temp.rpi/libphidget/cphidgetled.c:551-569 | The loop takes the first four changes in order. |
| LedBoard.LedController.TakeHalf | temp.rpi/libphidget/cphidgetled.c:581-616 | The loop takes all changes of one half. |
| LedBoard.LedController.FillSets | temp.rpi/libphidget/cphidgetled.c:571-577 | Free space is filled with the last set. |
| LedBoard.LedController.FillOutputs | temp.rpi/libphidget/cphidgetled.c:594-613 | One bit for every LED of the half that is on. |
| LedBoard.LedController.GetPacket | temp.rpi/libphidget/cphidgetled.c:447-749 | The arrays, counters and the choice of packet after the call, on all three boards. |
| LedBoard.LedController.GetAdvPacket | temp.rpi/libphidget/cphidgetled.c:486-618 | The bytes of the packet of an LED_64_ADV. |
| LedThreads.BoardShowsPower | temp.rpi/libphidget/cphidgetled.c:447-811 | In every interleaving of callers and write thread, whenever no packet is under way the board shows LED_Power. |
| LedThreads.QuietBoardShowsAccepted | temp.rpi/libphidget/cphidgetled.c:447-811 | Whenever nothing is pending or under way, every LED shows the brightness last accepted for it. |
| LedThreads.BoardHasSettings | temp.rpi/libphidget/cphidgetled.c:447-811 | Whenever no control packet waits and no packet is under way, the board has the settings made last. |
| LedThreads.QuietPowerIsAccepted | temp.rpi/libphidget/cphidgetled.c:447-811 | On all three boards: whenever nothing is pending, LED_Power is the brightness last accepted, or 0 where the M3 board never knew it. |
| LedThreads.NoLostWakeup | temp.rpi/libphidget/cphidgetled.c:740-800 | On all three boards pending work is always signalled to the write thread or about to be. |
| LedThreads.NoLostWrittenEvent | temp.rpi/libphidget/cphidgetled.c:764-800 | A caller that waits although the change in its way has been taken has been called by the written event, or is about to be. |
| LedThreads.BlockedIsCalled | temp.rpi/libphidget/cphidgetled.c:764-800 | A caller that goes on waiting is called, and then need not wait again, after at most four steps of the write thread for everything that was pending, and three more. |
| LedThreads.TimedOutChangesNothing | temp.rpi/libphidget/cphidgetled.c:768-784 | A request that times out leaves nothing behind. |
| OutputQueue.TakenInOrder | temp.rpi/libphidget/cphidgetmacros.h:138-234 | In every interleaving, the packets the write thread takes are those accepted, in order, none lost or doubled, apart from the one still queued. |
| OutputQueue.ZeroMeansAccepted | temp.rpi/libphidget/cphidgetmacros.h:138-168 | When all callers have returned, the packets taken or queued are exactly those whose sendpacket returned 0. |
| OutputQueue.FailureContributesNothing | temp.rpi/libphidget/cphidgetmacros.h:143-160 | A call that fails leaves the queue and everything taken as it was. |
| OutputQueue.NoLostWakeup | temp.rpi/libphidget/cphidget.c:298-325 | A queued packet is always signalled to the write thread or about to be. |
| OutputQueue.NoLostWrittenEvent | temp.rpi/libphidget/cphidget.c:298-325 | In every run, when the slot is empty and a caller waits, the written event is set or the write thread is about to set it. |
| OutputQueue.WaitingCanTry | temp.rpi/libphidget/cphidgetmacros.h:138-168 | With the write thread back at its wait, a caller that waits for the empty slot can try again, and its packet is accepted when it does. |
| OutputQueue.WaitingIsCalled | temp.rpi/libphidget/cphidget.c:298-325 | After four steps of the write thread a caller that still waits finds the slot empty and the event set, unless another packet was accepted first. |
| InterfaceKit.ReadCounts | temp.rpi/libphidget/cphidgetinterfacekit.c:560-574 | Two counts to a byte, and their sum. |
| InterfaceKit.RanksDiffer | temp.rpi/libphidget/cphidgetinterfacekit.c:580-607 | No two samples have the same place in the round-robin order, and none lies behind the end. |
| InterfaceKit.RankComplete | temp.rpi/libphidget/cphidgetinterfacekit.c:580-607 | The rounds are over if and only if every channel is exhausted. |
| InterfaceKit.UnpackPack | temp.rpi/libphidget/cphidgetinterfacekit.c:586-595 | The alternating extraction gives back the samples packed two to three bytes. |
| InterfaceKit.ReadSamples | temp.rpi/libphidget/cphidgetinterfacekit.c:576-607 | The loop terminates with datacount 0, every channel has exactly its count of samples, and each is the one at its place in the order. |
| InterfaceKit.ChannelsComeBack | temp.rpi/libphidget/cphidgetinterfacekit.c:576-607 | Samples packed in round-robin order come back to their channels. |
| InterfaceKit.CompensatedIsNearest | temp.rpi/libphidget/cphidgetinterfacekit.c:596-600 | A raw sample is raised by one in a thousand, to the nearest whole number, at most to full scale. |
| InterfaceKit.ScaledIsNearest | temp.rpi/libphidget/cphidgetinterfacekit.c:601 | A value is the nearest whole number of thousandths of full scale; zero stays zero and full scale is 1000. |

## Left out

- USB, I2C, GPIO, sockets, webservice keys, logging and image files: foreign calls; a USB send is a step that takes a packet, and tags are returned as a list.
- Real time: sleeps, timeouts and the 200 ms of a lost tag are steps that may or may not happen.
- Floating point: brain.c, the brightness scales and the ratios of times are computed exactly; the square root of 2 is a number r with r * r == 2, and rounding is kept only where a packet field is filled.
- The HiTag and raw data branches of cphidgetrfid.c, which are off by default.
- Haar.IdwtDwt: states a line of even length, because an odd length makes the C code drop the last element; the full transforms are stated for square images with a power-of-two side, as idwt2 exchanges width and height.
- Brain.Dwt2Full: takes square images: the column buffers of dwt2 allow no taller ones, and of wider ones the height is halved down to an odd number, where dwt leaves part of its output unset.
- Fista.FISTA: takes indices in range, which mainIST does not provide at the start of its last row when that is an odd one (width - xx is width there); an access outside the image is undefined in C. mainIST itself drives motors and is not modelled.
- Fista.ISTcomplete: the side of 256 and the 100 iterations are parameters, the random numbers and the square root are function parameters, and the work arrays are allocated in each iteration.
- strtoll and strtoul are function parameters of the encoders; what they read in digits is a hypothesis of the lemmas about digit strings.
- PhidgetsTagEncoder.EncodePhidgetsTag: takes ASCII, as its comment (cphidgetrfid.c:941) asks; a character above 127 is sign-extended or not depending on the platform.
- CrossTalk.ReadsEM4100IffHeard: takes streams in which at most 450 pulses of one length follow the start; a longer run of them overflows the pulse queue while the second length is still waited for. Streams of repeated frames are never like that (TagReads, Tracking).
- TagReads.NeverReadsDoubleTag: takes packets of 2 to 46 pulses. Whether larger ones can bring the end of the longer frame before its beginning is taken away depends on how many ones the text has; one pulse alone may complete no bit and meet a used-up queue.
- PhidgetsTagDamage.BurstRefused: bits of the message, in which every character has a zero in front; of the data bits as they are sent up to fourteen in a row fit in, and for sixteen SixteenBitsPassIff says which changes pass.
- TagEvents.QueuedUnlessKnown: shows that a tag of another protocol is not announced while a tag is present; that the Tag lost event tests the protocol of the pending tag is in the model, and nothing is proved about it.
- Threads are modelled as steps on values, not as objects: one step for each stretch under a lock. Device detach inside a call is modelled for the output queue only.
- IrEncoder.CodeInfoToRawData: times are not negative, repeat codes are lists of the times before their terminator, and the buffer length is that of the array (the callers pass its size in bytes).
- IrRoundTrip.ComesBackIff: half bits of different lengths are not covered, here and for RC-6; nor what a receiver measures instead of the times sent.
- IrSpaceCode.ComesBackIff: space codes whose ones and zeros have pulses of different widths are not covered, nor, in IrPulseCode, pulse codes with spaces of different widths.
- IrPackets.BiphaseThroughPacket: states what comes back, not that nothing else does; for uncut times IrRoundTrip.ComesBackIff does.
- IrRc6.ComesBackIff: which codes pass the shape tests is left to the tests themselves.
- IrDecoder.Decode: an access behind the 16 bytes of decode_temp is a result of its own, since C promises nothing for it.
- learn_data and get_times of cphidgetir.c: averaging heuristics.
- LED_64: its packet bytes are not modelled, only its choice of changes; when it is called with nothing pending it copies from before its buffer.
- LedBoard.LedController.GetPacket: the default current limit of the M3 control packet and the pack loops of the M3 are in LedM3, apart from the arrays of the class.
- InterfaceKit.ReadSamples: requires the bytes that the counts announce; overrun flags, digital inputs and the error events around the loop are left out.
- Steppers, device discovery, the other Phidget classes and the Python scripts.
