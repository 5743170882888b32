# Verified models of iio-emu

`iio-emu` emulates Industrial I/O devices behind the tinyiiod server. This project models the parts of
it whose correctness is not visible from reading one function, and proves what they are for. Verify it
with `dafny verify dfyconfig.toml`.

* **The option scanner of wingetopt** (`Arithmetic`, `Permute`, `LongOptions`, `ScanSpec`, `OptionForms`,
  `OptionSteps`, `Arrangement`, `Getopt`, `GetoptRun`, `GetoptRescan`). `getopt_internal` is a class with the C
  file's static variables as fields, over an array for `argv`. Every call moves elements of `argv` about
  incrementally; its contract says that the call nevertheless reports exactly what `ScanSpec.Next` reads off the
  vector as the caller passed it, left to right, with nothing moved. `OptionForms` says what that is for each
  form in which an option can be written. The vector itself is described by `Arrangement`: taken elements in
  front, skipped ones in one block. `permute_args` follows gcd-many cycles of swaps, and `Permute` proves that
  this exchanges two adjacent blocks: the gcd is the greatest common divisor, the orbits are simple, are the
  residue classes of it, and so cover the range. `GetoptRescan` proves that permuting keeps the meaning of the
  vector unless an option lacks its argument: scanned again it gives the same reports and stays as it is.
* **The sample pipeline of the ADALM2000** (`Blocks`, `Digital`, `Analog`, `Playback`, `TxDevices`, `RxDevices`,
  `Loopback`). The resamplers, the two transmitters (sample by sample, and in wrapping block copies) and the two
  receivers are methods proved against functions; `Loopback` states what whole runs do, from written samples to
  read samples.
* **The size-then-fill XML printer** (`XmlText`, `XmlFill`, `XmlPrinter`, `XmlReader`). Three nested printers
  compute a length, allocate exactly that, and fill it behind guards. `XmlFill` says what they return for every
  tree; it is the recursive print of the tree and one NUL exactly when every string is within its cap. The caps,
  which the system's headers fix, are constants of unknown value: the results hold for all of them. `XmlReader`
  finds the tree in its print.
* **The file-backed loopback** (`FileFifo`). Streams over a file system, two chunked copies through a temporary
  file, and the conservation of bytes over any interleaving of writes and reads.
* **The attribute store** (`XmlStore`, `XmlAddresses`, `XmlExport`, `PowerSupply`, `SupplyReadings`).
  First-match searches in a tree of XML nodes refine a flat map; the document sent to clients is stripped of
  values without moving any address; and the ADALM2000 keeps the measured voltage of a supply in step with its
  setting.
* `Basics` holds the option datatype and two small functions.

## What the code does not promise everywhere

Some properties hold only under a condition; the condition is proved exact, or a family of inputs is
shown on which the property fails.

* Two rows of a long option table with one name and different meanings make the selection depend on the
  order of the table (`LongOptions.OrderMattersOtherwise`). Otherwise the order
  is irrelevant (`LongOptions.MeaningIgnoresOrder`).
* Without a table of long options a cluster such as `-a-` ends the scan early with -1 although options
  follow, and the next call reports `a` again (`GetoptRun.LooseDashEndsTheRun`); `GetoptRun.StuckExactly`
  gives the condition. `getopt_long` with a table never does this.
* Scanning a permuted vector again repeats the first scan if and only if nothing was skipped or no option
  lacked its argument (`GetoptRescan.RescanRepeats`): an option at the end of the vector that lacks it takes
  the first skipped element the second time, as in `prog x -o` (`GetoptRescan.SkippedIsTakenForArgument`).
* `M2kLogicTX::cancel_buffer` and `M2kDAC::close_dev` clear the samples and keep the read index. Over a run the
  index stays usable if and only if they are called at index 0 only (`Loopback.LogicUsableExactly`,
  `Loopback.DacUsableExactly`). After a cancel a read from the logic transmitter succeeds if and only if it
  asks for nothing or for more samples than the index (`Loopback.ReadAfterCancel`,
  `Loopback.CancelLeavesStaleIndex`); after a close a read from the DAC stays inside its buffer if and only if
  it asks for nothing or for at least as many samples as the index (`Loopback.ReadAfterClose`,
  `Loopback.CloseLeavesStaleIndex`). `Loopback.LogicRecovers` and `Loopback.DacRecovers` say what makes a stale
  index usable again; the first write after a load does, whatever was called in between, reads that leave the
  DAC's buffer excepted.
* The two channels of the converter do not disturb each other when they are connected to two DACs
  (`Loopback.AnyScheduleDelivers`); on one DAC they do (`Loopback.OneDacIsDisturbed`).
* `getNodeNAttrs` skips the end-of-list test after a node that disagrees. It follows a null pointer
  exactly when no channel matches and the last child of the device is a channel
  (`XmlStore.NullDereferenceExactly`, `XmlStore.AbsentChannelIsFollowedByNull`).
* Reading a value into a buffer of `len` characters overruns it exactly when the value has `len` characters or
  more (`XmlStore.Document.ReadAttr`).
* The mirror of a supply is right after a run of client writes if and only if the last write that concerned it was
  right (`PowerSupply.MirrorFollows`): a setting is, when the power-down attribute beside it says what that of
  the supply says, or when the text it brings is "0" anyway. A write that is taken for a setting because of its
  device prefix, but goes to a channel without a power-down attribute, mirrors what happens to be on the stack
  (`PowerSupply.BufferDecides`), as a raw value for channel `voltage5` does
  (`PowerSupply.AbsentChannelDisturbsSupply`).
* Names and values are cut to a cap when lengths are computed but not when they are
  printed, so the size of the buffer is exact only when every string is within its cap. Blocks that do not fit
  are left out, and the final test passes if and only if the blocks left out make up for what the size falls
  short of (`XmlFill.ReturnedExactly`): an incomplete print can be returned (`XmlFill.GapGoesUnnoticed`).
* The printer does not encode what it prints, so the tree is in its print for strings without quotes and '<'
  (`XmlReader.PrintReadsBack`); and a value that could not be read is printed as the text ERROR.

## Model

| member | source | states |
|---|---|---|
| `Permute.GcdIsGreatest` | deps/wingetopt/src/getopt.c:137-149 | the gcd divides both lengths and every common divisor divides it |
| `Permute.Gcd` | deps/wingetopt/src/getopt.c:140-149 | the remainder loop ends with the greatest common divisor |
| `Permute.OrbitCloses` | deps/wingetopt/src/getopt.c:170-182 | following the hops for n / gcd steps comes back to the start |
| `Permute.OrbitDistinct` | deps/wingetopt/src/getopt.c:170-182 | no position is met twice before that |
| `Permute.OrbitCovers` | deps/wingetopt/src/getopt.c:170-182 | every position of the same residue modulo the gcd is met |
| `Permute.CycleIsClass` | deps/wingetopt/src/getopt.c:174-182 | the cycle that starts at mid + i is the residue class of i, so cycles are disjoint and cover the range |
| `Permute.CycleShifts` | deps/wingetopt/src/getopt.c:177-185 | the swaps with the cycle's start carry every element of the cycle one hop on |
| `Permute.CyclesExchange` | deps/wingetopt/src/getopt.c:168-186 | all gcd-many cycles together exchange the two blocks and touch nothing else |
| `Permute.FollowCycle` | deps/wingetopt/src/getopt.c:175-185 | the inner loop on the array makes the hops of one cycle |
| `Permute.PermuteArgs` | deps/wingetopt/src/getopt.c:157-187 | argv[start..end) becomes the old [mid..end) followed by the old [start..mid), in place, the rest unchanged |
| `LongOptions.FindLongOption` | deps/wingetopt/src/getopt.c:207-251 | the table loop selects the first exact name, else the only interpretation among the admissible prefix matches, else none |
| `LongOptions.SelectionIsUnique` | deps/wingetopt/src/getopt.c:220-251 | the declarative rule leaves no choice |
| `LongOptions.SelectionByName` | deps/wingetopt/src/getopt.c:220-251 | which selection it is, said of the rows' names, arguments, flags and values, as an if-and-only-if |
| `LongOptions.ExactNameWins` | deps/wingetopt/src/getopt.c:226-231 | an exact name wins whatever prefix matches surround it |
| `LongOptions.MeaningIgnoresOrder` | deps/wingetopt/src/getopt.c:220-251 | when names determine meanings, the selected interpretation does not depend on the order of the table |
| `LongOptions.OrderMattersOtherwise` | deps/wingetopt/src/getopt.c:220-251 | when they do not, some key and some reordering of the table give another interpretation |
| `ScanSpec.ReportsConsume` | deps/wingetopt/src/getopt.c:322-513 | every result other than -1 uses up elements, or characters of the current cluster |
| `OptionForms.LongOptionForms` | deps/wingetopt/src/getopt.c:213-315 | `--name=value` hands over exactly `value`, `--name` of a row that requires an argument the next element, the rest nothing; an argument too many or too few is complained about with the row's value in optopt; the row's index, value or flag is reported; the same behind one dash for getopt_long_only, where a letter of the options is no abbreviation |
| `OptionForms.UnknownLongOption` | deps/wingetopt/src/getopt.c:243-306 | a name that several rows begin with and mean differently, or that no row begins with when the text cannot be a cluster of letters, is complained about with optopt 0 |
| `OptionForms.PlainLetter` | deps/wingetopt/src/getopt.c:491-493 | a letter without colon is reported alone, and the rest of its element is scanned next |
| `OptionForms.LetterWithArgument` | deps/wingetopt/src/getopt.c:494-510 | `-pvalue` hands over `value`, `-p value` the next element, a letter with two colons never the next element; a missing argument is complained about |
| `OptionForms.LongOptionBehindW` | deps/wingetopt/src/getopt.c:474-490 | `-Wname`, `-W name` and `-Wname=value` report what the long option would |
| `OptionForms.NothingBehindW` | deps/wingetopt/src/getopt.c:478-483 | -W as the last element lacks its argument |
| `OptionForms.UnknownLetter` | deps/wingetopt/src/getopt.c:457-473 | any other character is complained about, with itself in optopt |
| `OptionForms.NonOptionForms` | deps/wingetopt/src/getopt.c:380-410 | a non-option is reported as the argument of option 1 after a leading '-', skipped when permuting, and ends the scan otherwise |
| `OptionForms.EndForms` | deps/wingetopt/src/getopt.c:362-433 | the end of the vector and "--" end the options |
| `OptionForms.PortOption` | main.cpp:68-70 | the program's own options: `--port=` and `-p` in front of a port hand over the port |
| `OptionSteps.RunLeads` | deps/wingetopt/src/getopt.c:353-433 | what a run took and skipped stays so, and an element that it stands in will be taken |
| `Arrangement.ExchangePartitions` | deps/wingetopt/src/getopt.c:356-366 | exchanging the skipped block with the taken elements behind it gives the stable partition of what was scanned |
| `Arrangement.TakeMovesNothing` | deps/wingetopt/src/getopt.c:487-513 | taking elements behind the block keeps the arrangement |
| `Arrangement.SkipMovesNothing` | deps/wingetopt/src/getopt.c:395-407 | a non-option right behind the block joins it without being moved |
| `Getopt.Scanner.constructor` | deps/wingetopt/src/getopt.c:322-345 | a fresh scanner stands at element 1 with nothing skipped |
| `Getopt.Scanner.AcceptLongOption` | deps/wingetopt/src/getopt.c:252-315 | the selected row's argument, complaint, flag and return value |
| `Getopt.Scanner.ParseLongOptions` | deps/wingetopt/src/getopt.c:194-315 | the report of a long option and where scanning goes on |
| `Getopt.Scanner.ParseOptionLetter` | deps/wingetopt/src/getopt.c:462-513 | the report of an option letter and where scanning goes on |
| `Getopt.Scanner.ParseOption` | deps/wingetopt/src/getopt.c:438-513 | a text is a long option, an option letter, or tried as both |
| `Getopt.Scanner.SkipNonOption` | deps/wingetopt/src/getopt.c:394-410 | a skipped non-option joins the block, after a permutation when options lie between |
| `Getopt.Scanner.Finish` | deps/wingetopt/src/getopt.c:356-372 | at the end the vector is partitioned and optind is at the first skipped element |
| `Getopt.Scanner.GetoptInternal` | deps/wingetopt/src/getopt.c:322-513 | one call reports what Next finds in the vector as the scan met it, keeps optind in the vector and leaves the scanner fit for the next call; at the end the vector is the stable partition |
| `GetoptRun.PartitionPlaces` | deps/wingetopt/src/getopt.c:356-433 | every scanned element is at its place in the partition |
| `GetoptRun.PartitionIsStable` | deps/wingetopt/src/getopt.c:356-433 | taken elements come first, and order is kept among taken and among skipped ones |
| `GetoptRun.NoMoreMeans` | deps/wingetopt/src/getopt.c:353-433 | -1 comes back only at the end of the vector, behind "--", at a non-option when not permuting, or at a loose dash |
| `GetoptRun.StuckExactly` | deps/wingetopt/src/getopt.c:462-472 | a call gets stuck if and only if it stands inside an element, at a loose final dash, without a table |
| `GetoptRun.TableNeverStuck` | deps/wingetopt/src/getopt.c:443-461 | with a table of long options no run gets stuck |
| `GetoptRun.TakenExactly` | deps/wingetopt/src/getopt.c:353-513 | of the elements ahead, a run takes exactly those of the options that its calls take, those that their steps use up as arguments, and "--" |
| `GetoptRun.PermutingRunPartitions` | deps/wingetopt/src/getopt.c:546-553 | a permuting getopt_long run ends at the end of the vector or behind "--"; it skipped only non-options; it took exactly the options, the elements that their steps use up, and "--"; and a taken non-option is one that the step of the option in front of it uses up |
| `GetoptRun.LooseDashEndsTheRun` | deps/wingetopt/src/getopt.c:462-472 | a vector on which a run without a table ends early and would repeat itself |
| `GetoptRun.ScanAll` | deps/wingetopt/src/getopt.c:546-553 | the caller's loop terminates; its results, optarg, optopt and flag variables after every call are those of the original vector, and at the end options stand first with optind behind them |
| `GetoptRescan.OptionDepends` | deps/wingetopt/src/getopt.c:443-513 | what an option reports depends only on itself and the elements it uses up, wherever they stand |
| `GetoptRescan.LackingUsesMore` | deps/wingetopt/src/getopt.c:495-506 | an option that lacks its argument uses up more when more is behind it |
| `GetoptRescan.TakenInOrder` | deps/wingetopt/src/getopt.c:356-433 | elements taken one after the other stand side by side in the permuted vector |
| `GetoptRescan.RunThere` | deps/wingetopt/src/getopt.c:322-513 | from corresponding positions, the run in the permuted vector reports what the run in the original reports, unless an option lacks its argument |
| `GetoptRescan.RescanRepeats` | deps/wingetopt/src/getopt.c:322-513 | scanning the permuted vector again gives the same reports, takes as many elements and moves nothing, if and only if nothing was skipped or no option lacks its argument |
| `GetoptRescan.SkippedIsTakenForArgument` | deps/wingetopt/src/getopt.c:495-506 | a vector whose permutation reports something else: the option that lacked its argument takes the skipped element |
| `Blocks.MapBlocksAt` | utils/utility.hpp:76-78 | a multiple of the ratio decimates to size / ratio samples, and sample k is made of block k |
| `Blocks.MapBlocksConcat` | utils/utility.hpp:76-78 | decimating distributes over concatenation at block boundaries |
| `Blocks.UpsampleAt` | utils/utility.hpp:165-169 | interpolated sample k is source sample k / ratio |
| `Blocks.UpsampleTwice` | utils/utility.hpp:165-169 | interpolating by a and then by b is interpolating by a * b |
| `Digital.SetBitSets` | utils/utility.hpp:106-116 | setting a bit sets that bit and no other |
| `Digital.VoteBits` | utils/utility.hpp:133-146 | bit k of the vote is set exactly when at least half of the block, rounded down, has it |
| `Digital.VoteMonotone` | utils/utility.hpp:133-146 | setting bits in samples never clears a bit of the vote |
| `Digital.DecimationUndoesInterpolation` | utils/utility.hpp:117-170 | decimating by r undoes interpolating by r, for every r from 1 |
| `Digital.DigitalInterpolation` | utils/utility.hpp:150-170 | the nested loops append every sample ratio times |
| `Digital.VoteOnBlock` | utils/utility.hpp:132-146 | counting bits and comparing with half the ratio is the vote |
| `Digital.DigitalDecimation` | utils/utility.hpp:117-148 | the loop appends the vote of every block, and runs out of range exactly when the length is no multiple |
| `Analog.MeanBounds` | utils/utility.hpp:77-77 | a block mean lies between the block's bounds |
| `Analog.DecimationConserves` | utils/utility.hpp:61-79 | ratio times the sum of the means is the sum of the samples |
| `Analog.AnalogicalDecimation` | utils/utility.hpp:61-79 | the loop appends the mean of every block |
| `Analog.InterpolationLength` | utils/utility.hpp:90-103 | n samples become (n - 1)(r + 1) + 1 |
| `Analog.InterpolationAt` | utils/utility.hpp:96-103 | sample i(r + 1) + j is the j-th of r equal steps from knot i to knot i + 1 |
| `Analog.SegmentReachesKnot` | utils/utility.hpp:97-101 | the r-th step is the next knot |
| `Analog.InterpolationEnds` | utils/utility.hpp:81-104 | the last sample of the source is the last one of the result, and below a ratio of 2 the result is the source |
| `Analog.InterpolationBounds` | utils/utility.hpp:96-103 | all output stays within the bounds of the source |
| `Analog.AnalogicalInterpolation` | utils/utility.hpp:81-104 | accumulating steps on the last element gives these points; an empty source fails |
| `Playback.AdvanceIsModulo` | iiod/context/adalm2000/devices/m2k_logic_tx.cpp:136-142 | counting with a reset at the end is counting modulo the size |
| `Playback.PlayAt` | iiod/context/adalm2000/devices/m2k_logic_tx.cpp:136-142 | output k is sample (index + k) mod size |
| `Playback.PlayBlock` | iiod/context/adalm2000/devices/m2k_dac.cpp:173-182 | a block copy up to the wrap-around continues the sample-by-sample playback |
| `TxDevices.LogicTx.WriteDev` | iiod/context/adalm2000/devices/m2k_logic_tx.cpp:80-95 | a write appends, or starts over after a load |
| `TxDevices.LogicTx.TransferMemToDev` | iiod/context/adalm2000/devices/m2k_logic_tx.cpp:97-118 | a load interpolates and asks the next write to start over |
| `TxDevices.LogicTx.TransferSamplesToRx` | iiod/context/adalm2000/devices/m2k_logic_tx.cpp:128-144 | a transfer plays from the index on; it throws exactly when the index is stale |
| `TxDevices.LogicTx.CancelBuffer` | iiod/context/adalm2000/devices/m2k_logic_tx.cpp:146-150 | cancelling clears the samples and keeps the index |
| `TxDevices.Dac.WriteDev` | iiod/context/adalm2000/devices/m2k_dac.cpp:102-121 | a write to an enabled DAC appends converted samples; a disabled one takes nothing |
| `TxDevices.Dac.TransferMemToDev` | iiod/context/adalm2000/devices/m2k_dac.cpp:142-163 | a load interpolates; an empty buffer at ratio 2 and up throws |
| `TxDevices.Dac.TransferSamplesToRx` | iiod/context/adalm2000/devices/m2k_dac.cpp:165-183 | the chunked copies terminate and deliver what playing sample by sample would, for every read that stays inside the buffer; right behind the buffer the first copy is empty and playing goes on at the start |
| `TxDevices.Dac.CloseDev` | iiod/context/adalm2000/devices/m2k_dac.cpp:81-85 | closing clears the samples and keeps the index |
| `TxDevices.Dac.CancelBuffer` | iiod/context/adalm2000/devices/m2k_dac.cpp:185-190 | cancelling clears the samples and the index |
| `RxDevices.LogicRx.ReadDev` | iiod/context/adalm2000/devices/m2k_logic_rx.cpp:79-107 | a read delivers, place by place, the vote of the `ratio` samples of the buffer that belong to it, going round the buffer, or the sample itself at ratio 1, or zeros from an empty buffer; and it advances the transmitter |
| `RxDevices.Adc.Resample` | iiod/context/adalm2000/devices/m2k_adc.cpp:208-220 | one channel's worker delivers, frame by frame, the mean of the `ratio` samples of the buffer that belong to it, going round the buffer, the sample itself at ratio 1, and 0 volts from an empty buffer, for every read that stays inside the DAC's buffer |
| `RxDevices.Adc.InterleaveRaw` | iiod/context/adalm2000/devices/m2k_adc.cpp:123-126 | the loop converts the samples of both channels and puts them alternately |
| `RxDevices.Adc.ReadDev` | iiod/context/adalm2000/devices/m2k_adc.cpp:102-130 | value 2k is the conversion of frame k of channel 1 and value 2k + 1 that of channel 2, where a frame is the mean of `ratio` samples of that channel's DAC, going round its buffer; each DAC is left where its transfer leaves it |
| `Loopback.LogicIndex` | iiod/context/adalm2000/devices/m2k_logic_tx.cpp:66-150 | an operation keeps the index usable if and only if it is not a cancel away from index 0 |
| `Loopback.DacIndex` | iiod/context/adalm2000/devices/m2k_dac.cpp:81-190 | an operation keeps the index usable if and only if it is not a close away from index 0 |
| `Loopback.LogicRecovers` | iiod/context/adalm2000/devices/m2k_logic_tx.cpp:80-150 | from a stale index exactly these make it usable: a write after a load or of enough samples, a load that makes the buffer long enough, and a transfer of more samples than the index from an empty buffer |
| `Loopback.DacRecovers` | iiod/context/adalm2000/devices/m2k_dac.cpp:81-190 | the same for the DAC, where a cancel and every transfer inside the buffer do it too |
| `Loopback.ReadAfterCancel` | iiod/context/adalm2000/devices/m2k_logic_tx.cpp:128-150 | after a cancel a read succeeds if and only if it asks for nothing or for more samples than the index |
| `Loopback.ReadAfterClose` | iiod/context/adalm2000/devices/m2k_dac.cpp:165-183 | after a close a read stays inside the buffer if and only if it asks for nothing or for at least as many samples as the index |
| `Loopback.LogicUsableExactly` | iiod/context/adalm2000/devices/m2k_logic_tx.cpp:80-150 | over any run from a usable index, the index is usable throughout if and only if no cancel is called away from index 0 |
| `Loopback.DacUsableExactly` | iiod/context/adalm2000/devices/m2k_dac.cpp:81-190 | over any run inside the buffer from a usable index, the index is usable throughout if and only if no close is called away from index 0 |
| `Loopback.LogicRunIndex` | iiod/context/adalm2000/devices/m2k_logic_tx.cpp:80-144 | the index is usable after every run without cancels, and every transfer then succeeds |
| `Loopback.DacRunIndex` | iiod/context/adalm2000/devices/m2k_dac.cpp:102-190 | every run without closes stays inside the buffer and leaves the index usable, and every transfer then succeeds |
| `Loopback.LogicWriteRecovers` | iiod/context/adalm2000/devices/m2k_logic_tx.cpp:80-150 | whatever was called between a load and the next write, that write starts over with a usable index |
| `Loopback.DacWriteRecovers` | iiod/context/adalm2000/devices/m2k_dac.cpp:81-190 | the same for the DAC, if the load did not throw and every transfer in between stays inside the buffer |
| `Loopback.CancelLeavesStaleIndex` | iiod/context/adalm2000/devices/m2k_logic_tx.cpp:146-150 | a fresh transmitter: write two samples, read one, cancel; the index is stale and the next read of one sample throws |
| `Loopback.CloseLeavesStaleIndex` | iiod/context/adalm2000/devices/m2k_dac.cpp:81-85 | a fresh DAC: write three samples, read two, close; the index is stale and the next read of one sample would leave the buffer |
| `Loopback.LogicReadsAddUp` | iiod/context/adalm2000/devices/m2k_logic_rx.cpp:79-107 | reading a samples and then b is reading a + b, with the same final index |
| `Loopback.AdcReadsAddUp` | iiod/context/adalm2000/devices/m2k_adc.cpp:102-130 | reading a frames and then b gives the same samples and final DAC states as one read of a + b, from every index inside the buffers or right behind them |
| `Loopback.AnyScheduleDelivers` | iiod/context/adalm2000/devices/m2k_adc.cpp:115-121 | on a shared store of DACs, when the two channels use two of them: whatever the interleaving of the workers, filled buffers or empty, a worker that is done delivered and left what it would alone, as many turns after its first as it copies samples make it done (one more from right behind the buffer), and no third DAC is touched |
| `Loopback.OneDacIsDisturbed` | iiod/context/adalm2000/devices/m2k_adc.cpp:115-121 | on one DAC the two workers take samples from each other |
| `Loopback.LoopIndex` | iiod/context/adalm2000/devices/m2k_logic_rx.cpp:98-104 | sample j of read block k of a buffer of n samples repeated q * r times belongs to sample (k / q) mod n |
| `Loopback.OneRead` | iiod/context/adalm2000/devices/m2k_logic_rx.cpp:93-107 | one read from the start of a loaded buffer delivers the endless repetition |
| `Loopback.RunIsOneRead` | iiod/context/adalm2000/devices/m2k_logic_rx.cpp:79-107 | any sequence of reads delivers what one read of their total would |
| `Loopback.DigitalLoopback` | iiod/context/adalm2000/devices/m2k_logic_tx.cpp:80-144 | samples written in any writes, loaded at ratio q * r and read in any batches at ratio r come back as the endless repetition of all of them in order, each q times, with the index on a block boundary |
| `Loopback.AnalogLoopback` | iiod/context/adalm2000/devices/m2k_dac.cpp:102-183 | voltages written in any writes and loaded below a ratio of 2 come back at ratio 1 as their endless repetition; loaded at a higher ratio they come back ratio + 1 samples apart |
| `XmlText.AttrExact` | tools/genxml.c:114-169 | the length computed for an attribute is its printed length if and only if name and value are within their caps, and never exceeds it |
| `XmlText.ChannelExact` | tools/genxml.c:253-346 | the same for a channel |
| `XmlText.DeviceExact` | tools/genxml.c:360-525 | the same for a device |
| `XmlText.ContextExact` | tools/genxml.c:554-671 | the same for a context |
| `XmlFill.ReturnedExactly` | tools/genxml.c:317-341 | a filled buffer is returned if and only if no printed text ran out of room and the skipped blocks make up for what its size falls short of; it is complete if and only if the size was exact |
| `XmlFill.ChannelComplete` | tools/genxml.c:253-346 | what the channel printer returns for any channel is the whole print if and only if its strings are within their caps |
| `XmlFill.DeviceComplete` | tools/genxml.c:360-525 | the same for a device |
| `XmlFill.ContextComplete` | tools/genxml.c:554-671 | the same for a context |
| `XmlFill.GapGoesUnnoticed` | tools/genxml.c:423-520 | a device whose id exceeds its cap by the length of its only attribute is printed without it, and that print is returned |
| `XmlReader.PrintReadsBack` | tools/genxml.c:114-671 | an independent reader that splits the text at '<' and at quotes finds in the print of a tree, behind its header, the tree: ids, names, directions, kinds, filenames, values, scan elements and the order of the children |
| `XmlReader.ReadChannel` | tools/genxml.c:253-346 | it finds a channel in the print of the channel |
| `XmlReader.ReadDevice` | tools/genxml.c:360-525 | it finds a device in the print of the device |
| `XmlReader.ReturnedReadsBack` | tools/genxml.c:554-671 | and it finds the tree in what the document printer returns, when its strings are within their caps |
| `XmlPrinter.StrLCpy` | tools/genxml.c:59-82 | copies what fits, terminates it with NUL and returns the length of the source |
| `XmlPrinter.AttrXml` | tools/genxml.c:114-169 | the block of a device, debug or buffer attribute holds its print, cut to the computed length |
| `XmlPrinter.ChannelAttrXml` | tools/genxml.c:188-223 | the same for a channel attribute, with its filename if it has one |
| `XmlPrinter.CopyAll` | tools/genxml.c:317-324 | the guarded copies put the blocks into the buffer one after the other, each if it fits |
| `XmlPrinter.ChannelXml` | tools/genxml.c:253-346 | for every channel the result is that of the fill of its pieces; it is the recursive print and one NUL if and only if its strings are within their caps |
| `XmlPrinter.DeviceXml` | tools/genxml.c:360-525 | the same for a device; nothing is returned when a channel fails |
| `XmlPrinter.ContextXml` | tools/genxml.c:554-671 | the same for the document, and nothing when a device fails; when every string of the tree is within its cap, no guard and no final test fails |
| `FileFifo.Stream.Read` | iiod/context/generic_xml/devices/generic_rx_device.cpp:68-69 | a read delivers the next bytes and fails the stream when the file ends |
| `FileFifo.CopyFileData` | iiod/context/generic_xml/devices/generic_rx_device.cpp:111-119 | the chunked copy terminates and copies everything from the read position on |
| `FileFifo.GenericRXDevice.ReadDev` | iiod/context/generic_xml/devices/generic_rx_device.cpp:59-96 | after a read the buffer holds, byte by byte, the first bytes of the file, zeros up to the count and what it held before behind that, and the file keeps the rest; a missing file changes nothing |
| `FileFifo.GenericTXDevice.WriteDev` | iiod/context/generic_xml/devices/generic_tx_device.cpp:57-71 | a write appends, and creates the file when it is missing |
| `FileFifo.Conservation` | iiod/context/generic_xml/devices/generic_rx_device.cpp:59-119 | over any interleaving of writes and reads, what was there and what was written is what was delivered followed by what is in the file |
| `FileFifo.BuffersConserve` | iiod/context/generic_xml/devices/generic_rx_device.cpp:59-119 | the same with what callers find in their buffers, in front of the padding |
| `FileFifo.PaddingOnlyWhenTheFileRunsOut` | iiod/context/generic_xml/devices/generic_rx_device.cpp:71-73 | a read is padded if and only if it asks for more than is left, and then it empties the file |
| `FileFifo.ReadsInOrder` | iiod/context/generic_xml/devices/generic_rx_device.cpp:59-96 | a read delivers the next stretch of what was there and what was written |
| `FileFifo.TwoReadsAreOne` | iiod/context/generic_xml/devices/generic_rx_device.cpp:59-96 | reading a bytes and then b bytes is reading a + b |
| `XmlStore.GetNode` | utils/xml_utils.cpp:49-68 | finds the first child with this tag and attribute |
| `XmlStore.GetNodeNAttrs` | utils/xml_utils.cpp:82-105 | finds the first child with this tag none of whose attributes disagrees, or runs past the end |
| `XmlStore.NullDereferenceExactly` | utils/xml_utils.cpp:87-101 | when the search runs past the end |
| `XmlStore.AbsentChannelIsFollowedByNull` | utils/xml_utils.cpp:87-101 | a device with one channel, asked for another one |
| `XmlStore.Document.GetDeviceAttr` | utils/xml_utils.cpp:107-134 | the place of a device, debug or buffer attribute |
| `XmlStore.Document.GetChannelAttr` | utils/xml_utils.cpp:136-161 | the place of a channel attribute |
| `XmlStore.LocateAlike` | utils/xml_utils.cpp:49-161 | searches depend on `id`, `type` and `name` only |
| `XmlAddresses.FoundExactly` | utils/xml_utils.cpp:49-161 | in a well-formed document whose devices, channels and attributes are distinct, a key is found exactly at the attribute of that name, with the tag of its kind, in the device with that id, and for a channel key in the channel with that id whose type is "output" or "input" as the key says |
| `XmlAddresses.NotFoundExactly` | utils/xml_utils.cpp:49-161 | it is not found exactly when there is no such node |
| `XmlAddresses.NullFollowedExactly` | utils/xml_utils.cpp:87-101 | the null is followed exactly when the device has no such channel and its last child is a channel |
| `XmlAddresses.ReadsTheValue` | utils/attr_ops_xml.cpp:46-61 | what is read is the `value` of that node |
| `XmlAddresses.WritesTheValue` | utils/attr_ops_xml.cpp:63-81 | a write sets the `value` of that node and no other attribute of it or of any other node |
| `XmlStore.DistinctKeysNeverAlias` | utils/xml_utils.cpp:107-161 | in a well-formed document two keys that are found at one place are one key |
| `XmlStore.WriteKeepsSearches` | utils/attr_ops_xml.cpp:63-128 | a write changes no search |
| `XmlStore.ReadAfterWrite` | utils/attr_ops_xml.cpp:46-128 | a read after a write gives what was written, and every other key reads as before |
| `XmlStore.TreeIsFlatMap` | utils/attr_ops_xml.cpp:46-128 | after any run of writes the tree reads as a flat map laid over the original document |
| `XmlStore.Document.ReadAttr` | utils/attr_ops_xml.cpp:46-61 | the value is copied with its NUL as far as len + 1 characters allow, and the count returned; a buffer of len characters is overrun if and only if the value has len characters or more |
| `XmlStore.Document.WriteAttr` | utils/attr_ops_xml.cpp:63-81 | the value of the attribute found is set; nothing else changes |
| `XmlStore.ReadsBackIfItFits` | utils/attr_ops_xml.cpp:83-105 | a value of up to len characters comes back whole; a longer one is cut and left without NUL |
| `XmlExport.RemoveValueAttribute` | utils/xml_utils.cpp:163-179 | the recursion over children and siblings strips each of them |
| `XmlExport.StripIsExact` | utils/xml_utils.cpp:163-179 | every value is gone but those of context attributes, and nothing else changed |
| `XmlExport.StripKeepsSearches` | utils/xml_utils.cpp:163-179 | every key is at the same place in the stripped document |
| `XmlExport.NormaliseText` | utils/xml_utils.cpp:205-211 | the two passes remove line breaks and then repeated spaces |
| `XmlExport.LineBreakGoes` | utils/xml_utils.cpp:205-205 | a line break goes with nothing in its place |
| `XmlExport.OnlyNewlinesGo` | utils/xml_utils.cpp:205-205 | every other character stays as often as it was |
| `XmlExport.SqueezedIsKept` | utils/xml_utils.cpp:208-211 | comparing with the last kept character drops exactly the spaces that follow a space |
| `XmlExport.NormalisedIsNormal` | utils/xml_utils.cpp:205-211 | no line break and no two adjacent spaces are left; exactly such texts are unchanged, so the pass is idempotent |
| `XmlExport.NormalisedKeepsTheRest` | utils/xml_utils.cpp:205-211 | all other characters stay, in order |
| `PowerSupply.RawToRawIsMonotone` | iiod/context/adalm2000/adalm2000_context.cpp:170-198 | the conversion from setting to reading is non-decreasing on both supplies when the gains have one sign, and non-increasing otherwise |
| `SupplyReadings.ReadingOfRaw` | iiod/context/adalm2000/adalm2000_context.cpp:170-198 | the reading that belongs to a setting, by multiplying with gains and coefficients and adding offsets where the program divides and subtracts, without its fraction |
| `PowerSupply.Adalm2000Context.ChWriteAttr` | iiod/context/adalm2000/adalm2000_context.cpp:117-152 | a write sets its attribute, converts a raw setting, and writes the mirror; it returns what the write of the attribute returned, unless a null pointer is followed or a buffer overrun |
| `SupplyReadings.SettingIsMeasured` | iiod/context/adalm2000/adalm2000_context.cpp:117-152 | a raw value written to a channel of iio:device3* is read back, and iio:device13 shows its reading: in voltage2 for channels voltage0*, in voltage1 for all others, and "0" when the power-down text beside it starts with 1 |
| `SupplyReadings.PowerdownIsMeasured` | iiod/context/adalm2000/adalm2000_context.cpp:139-149 | a power-down text that starts with 1 makes the measuring device show "0", any other one the last reading |
| `SupplyReadings.OtherDevicesAreWritten` | iiod/context/adalm2000/adalm2000_context.cpp:117-121 | a write to any other device only sets its attribute |
| `PowerSupply.StepTouchesTwo` | iiod/context/adalm2000/adalm2000_context.cpp:117-152 | a client write changes the reading of its own key and of one mirror, of no other key, and no search |
| `PowerSupply.OtherWritesKeepMirror` | iiod/context/adalm2000/adalm2000_context.cpp:117-152 | any write that neither sets the supply nor goes to its mirror leaves the mirror and what is due there as they were |
| `PowerSupply.SettingMirrors` | iiod/context/adalm2000/adalm2000_context.cpp:127-149 | a write that is taken for a setting of a supply makes its mirror right if and only if the power-down text beside it says what the supply's own says, or the text it brings is "0" |
| `PowerSupply.MirrorFollows` | iiod/context/adalm2000/adalm2000_context.cpp:117-152 | over any run of client writes that the program survives, the mirror is right ("0" when powered down, the last converted setting otherwise) if and only if the last write that concerned it was right, or there was none and it was right before |
| `PowerSupply.DirectWriteMirrors` | iiod/context/adalm2000/adalm2000_context.cpp:117-152 | a client's own write of the mirror makes it right if and only if it brings the text that is due |
| `PowerSupply.WellAddressedFollows` | iiod/context/adalm2000/adalm2000_context.cpp:117-152 | from the first setting of a supply on, its mirror is right, when all settings taken for it go to its own channel and none goes to the mirror; all other writes are free |
| `PowerSupply.BufferDecides` | iiod/context/adalm2000/adalm2000_context.cpp:139-149 | the uninitialised buffer makes a difference if and only if the write is taken for a setting, no power-down attribute is beside it, the mirror is there, and its text would not be "0" anyway |
| `PowerSupply.SurvivesExactly` | iiod/context/adalm2000/adalm2000_context.cpp:117-152 | the program survives a write if and only if no search runs past its end and the power-down text beside a setting has a value that fits the buffer |
| `PowerSupply.AbsentChannelDisturbsSupply` | iiod/context/adalm2000/adalm2000_context.cpp:117-152 | a raw value for channel voltage5 is answered with -ENOENT, and replaces the stored value of supply 1 and its mirror |

## Left out

Option scanner:

- An `options` pointer that is null (the call returns -1 at once), resets of `optind` and `optreset` by
  the caller, and options or tables that change between calls: a scanner keeps one configuration.
- `POSIXLY_CORRECT` is part of the configuration; error messages are not modelled.
- An empty vector: `nargc` is at least 1 and `argv[nargc]` is null, as in any program.
- Signed characters: `optopt` of a character beyond 127.
- Long options whose value is -1: they would read as the end of the options (`Config.Valid` excludes them).

Sample pipeline:

- Rounding: doubles are reals. Voltage conversions and filter tables are uninterpreted functions per sample.
- The ratios are parameters of the operations instead of being computed from attributes, and fixed between
  a load and the reads that follow it.
- `TxDevices.Dac.TransferSamplesToRx`: requires an index inside the filled buffer or right behind it; beyond that the
  C++ copies from outside the vector.
- `Analog.AnalogicalDecimation`: requires whole blocks; otherwise the C++ sums past the end of the vector.
- `RxDevices.LogicRx.ReadDev`: requires whole samples; with an odd byte count the C++ copies one byte too many.
- `RxDevices.Adc.ReadDev`: requires whole frames and two different DACs, as the context connects them, and runs the
  workers in turn; their interleaving is the subject of `Loopback.AnyScheduleDelivers`, turn by turn: one turn
  fills the buffer or copies one block.
- The read index is unbounded; the DAC casts it to 32 bits.
- `std::vector` buffers are sequences, so sharing of memory between devices is not modelled.

XML printer:

- Failing allocations, and the release of the pieces.
- The text of a scan element is given, and so are the encoded context attributes and the header with its
  document type; formatting numbers and encoding entities are the work of libraries.
- Reading attributes from the device is replaced by their values, with None for an error.

File loopback:

- Files that exist but cannot be opened, and failing writes.
- `FileFifo.GenericRXDevice.ReadDev`: requires that the file is not the temporary file itself.
- The two devices' calls are taken one after the other, as the server makes them.

Attribute store:

- The tree is a value in a field of the document, addressed by indices; libxml2's nodes and their sharing,
  parsing and dumping are not modelled.
- Attributes without content: libxml2 stores no text for them and `getNode` would follow a null pointer.
- A null document or root, and `read_context_attr`.
- `XmlStore.Document.ReadAttr`: what a buffer holds after an overrun, and what happens then, is not modelled.
- `std::stoi` and `std::to_string` are uninterpreted functions; a setting that is no number throws in the C++.
- `PowerSupply.MirrorFollows`: the document has the mirror and the power-down attribute of the supply, as that of the
  ADALM2000 has, and nothing is said once the program followed a null pointer or overran a buffer.
- `PowerSupply.RawToRawIsMonotone`: requires gains other than zero.
- A cast of a converted value beyond the range of int.

Whole components: networking, signal handling and the server loop; the forwarding operations of `iiod/ops`
and `generic_xml_context.cpp`; `utils/input_parser.cpp`; logging and `main.cpp`.
