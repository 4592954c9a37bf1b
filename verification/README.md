# BNN MNIST accelerator: the reference logic, in Dafny

This project models the bit-exact Python reference logic behind the
testbenches of a binarized-neural-network MNIST accelerator, and proves
properties of that model.

**Layer one.** The accelerator's first convolution layer takes a 28x28
binary image and eight 3x3 one-bit kernels. For each output cell it counts
XNOR matches over a 3x3 window, where taps outside the image read 0. A
window activates when its count reaches the kernel's threshold. Each output
bit is the OR (2x2 max pool) of the four windows under it, giving 8x14x14
bits.

**Layer two.** Layer two applies the same engine to the 14x14x8 layer-one
map. It uses four filters with one weight bit per tap, broadcast across the
eight channels. Those bits are derived from the trained per-channel
weights by a majority vote. The result is 4x7x7 bits.

**The model.** The engine is written once (`BinaryConv`) and instantiated
for both layers (`LayerOne`, `LayerTwo`). Around it the model covers:

- The codecs that pack images, weights and outputs into Verilog literals
  (most significant bit first), and the decoder of the hardware output
  (`Layout`, `VerilogPack`).
- The text loaders for `.mem` weight and threshold files and comma-separated
  weight tables (`WeightFiles`, `CsvText`).
- The packed-bit MNIST image and label files (`Mnist`).
- The 2320-bit serial weight stream of the top-level design
  (`WeightStream`).
- The cocotb top-level test: the `ui_in` pin encoding and the answer check
  (`CocotbTest`).
- The layer-one comparison report's mismatch tally (`ComparisonReport`).
- The generator of top-level test cases from real MNIST images
  (`RealMnist`).

**Conventions.**

- Files are modelled as their contents: byte sequences, or lists of lines.
  Every Python exception the scripts can raise on bad input is an `Err`
  value of `Errors.Result`.
- A testbench's run of the simulator, and the design's answer byte, are
  parameters.

## Model

| member | source | states |
|---|---|---|
| Errors.Collect | test/top_test_tb/gen_real_mnist_images.py:70 | a list comprehension over steps that may raise succeeds iff every step does, keeping each step's value in order |
| Errors.CollectError | test/top_test_tb/gen_real_mnist_images.py:70 | a comprehension that raises raises the error of its first failing step, every earlier step succeeding |
| Bits.BitChar | test/layer_one_tb/compare_trained_model.py:122 | `str` of a bit is a bit character, and it is '1' exactly for the bit 1 |
| Bits.CharBit | test/layer_one_tb/compare_trained_model.py:41 | `int` of a '0'/'1' character is the bit whose `str` is that character |
| Bits.Popcount | test/layer_one_tb/gen_trained_tb.py:117 | the number of ones in a 0/1 vector is at most its length |
| Bits.PopcountZero | test/layer_one_tb/report_comparison.py:217 | a 0/1 vector has no ones iff all its entries are 0 |
| Bits.PopcountFull | test/layer_two_tb/gen_layer_two_tb.py:233 | a 0/1 vector has as many ones as entries iff all its entries are 1 |
| Bits.PopcountSet | test/layer_two_tb/gen_layer_two_tb.py:233 | setting one entry to 1 adds one to the number of ones, or nothing if it was already 1 |
| Bits.ZerosAndOnes | test/layer_two_tb/gen_layer_two_tb.py:81 | the zeros and the ones of a bit vector add up to its length |
| Layout.Idx3Coords | test/layer_two_tb/gen_layer_two_tb.py:63-66 | decoding a position of a box into coordinates and re-encoding it gives the position back, and the coordinates lie in the box |
| Layout.CoordsIdx3 | test/layer_one_tb/report_comparison.py:105 | the row-major position of in-box coordinates lies in the box and decodes back to those coordinates |
| Layout.Idx3Injective | test/layer_one_tb/convert_to_flattened.py:97 | two in-box coordinate triples with the same row-major position are equal |
| Sequences.Reverse | test/layer_one_tb/report_comparison.py:79 | `s[::-1]` has the length of `s` and holds `s[|s|-1-i]` at `i` |
| Sequences.ReverseReverse | test/layer_one_tb/report_comparison.py:100 | reversing twice gives the sequence back |
| Scatter.Scatter | test/layer_one_tb/report_comparison.py:90-94 | applying the writes of a loop nest to a default-filled list keeps its length |
| Scatter.ScatterUntouched | test/layer_one_tb/report_comparison.py:90 | a slot no write names keeps the default |
| Scatter.ScatterUnique | test/layer_one_tb/report_comparison.py:94 | a slot named by exactly one write holds that write's value |
| Scatter.Permute | test/layer_one_tb/compare_trained_model.py:128-132 | the box re-arranged by the loop nest holds source element `[a][b][c]` at its permuted coordinates |
| Scatter.TargetInjective | test/layer_one_tb/compare_trained_model.py:131 | distinct source elements are written to distinct slots |
| Scatter.WritesAt | test/layer_one_tb/compare_trained_model.py:128-132 | the loop nest issues one write per source element, writing `x[a][b][c]` to its target slot |
| Scatter.WritesInRange | test/layer_one_tb/compare_trained_model.py:127-132 | every write of the loop nest names a slot of the list |
| Scatter.ScatterPack | test/layer_one_tb/compare_trained_model.py:127-132 | the scattered list has one slot per source element |
| Scatter.ScatterPackIsFlatten | test/layer_one_tb/convert_to_flattened.py:91-98 | every slot is written exactly once, so no default survives: the scattered list is the row-major flattening of the re-arranged box |
| Scatter.ScatterPackAt | test/layer_one_tb/convert_to_flattened.py:77-84 | each slot of the scattered list is the corresponding element of the re-arranged box |
| BinaryConv.ChannelMatches | test/layer_two_tb/gen_layer_two_tb.py:155 | the XNOR matches of the first `k` channels number at most `k` |
| BinaryConv.TapMatches | test/layer_two_tb/gen_layer_two_tb.py:149-155 | one tap contributes at most one match per channel |
| BinaryConv.WindowBound | test/layer_two_tb/gen_layer_two_tb.py:145-155 | the first `t` taps contribute at most `t` matches per channel |
| BinaryConv.WindowStep | test/layer_two_tb/gen_layer_two_tb.py:146-155 | tap `(kr, kc)` adds its channel matches to the count of the taps before it, taken row by row |
| BinaryConv.ConvCount | test/layer_two_tb/gen_layer_two_tb.py:144-155 | a window's count is at most 9 times the channel count |
| BinaryConv.PoolBit | test/layer_two_tb/gen_layer_two_tb.py:139-157 | the pooled bit is 1 iff one of the four sub-positions reaches the threshold |
| BinaryConv.Stage | test/layer_two_tb/gen_layer_two_tb.py:134-158 | a stage's output has one `n/2 x n/2` plane per filter, each bit 1 iff some sub-position under it reaches the filter's threshold |
| BinaryConv.CountChannels | test/layer_two_tb/gen_layer_two_tb.py:149-155 | the channel loop of one tap, padded taps reading zeros, computes the tap's match count |
| BinaryConv.CountWindow | test/layer_two_tb/gen_layer_two_tb.py:145-155 | the `kr`/`kc` loop computes the window's match count |
| BinaryConv.CountKernelRow | test/layer_two_tb/gen_layer_two_tb.py:146-155 | the `kc` loop adds kernel row `kr`'s three taps to the window count |
| BinaryConv.AddTap | test/layer_two_tb/gen_layer_two_tb.py:147-155 | one pass of the `kc` body adds the tap's matches to the window count |
| BinaryConv.PoolAt | test/layer_two_tb/gen_layer_two_tb.py:139-157 | the `max_val` loop over `pr`/`pc` computes the pooled bit |
| BinaryConv.PoolRow | test/layer_two_tb/gen_layer_two_tb.py:137-158 | the `c` loop of one output row computes each of its `n/2` pooled bits |
| BinaryConv.RunStage | test/layer_two_tb/gen_layer_two_tb.py:134-159 | the reference loop nest over filters, rows and columns computes the stage |
| BinaryConv.PaddedTap | test/layer_two_tb/gen_layer_two_tb.py:149-150 | a tap outside the input contributes every channel when its weight bit is 0 and nothing when it is 1 |
| BinaryConv.DarkChannels | test/layer_two_tb/gen_layer_two_tb.py:150-155 | channels that all read 0 match exactly when the weight bit is 0 |
| BinaryConv.KernelZeros | test/layer_one_tb/generate_test_vectors.py:51 | a kernel has at most 9 zero weight bits |
| BinaryConv.ZeroInputCount | test/layer_one_tb/generate_test_vectors.py:40-55 | on an all-zero input, every window, padded or not, counts `ch` matches per zero weight bit |
| BinaryConv.ZeroInputCell | test/layer_one_tb/generate_test_vectors.py:40-55 | on an all-zero input one pooled bit is 1 iff `ch` times the kernel's zero-bit count reaches the threshold |
| BinaryConv.ZeroInputStage | test/layer_one_tb/generate_test_vectors.py:102-104 | on an all-zero input each output plane is constant: 1 iff the zero-weight count reaches the threshold |
| BinaryConv.ThresholdMonotone | test/layer_one_tb/compare_trained_model.py:109-110 | lowering a threshold never turns an output bit off |
| LayerOne.Lift | test/layer_one_tb/compare_trained_model.py:105 | the image read as a one-channel map holds pixel `(r, c)` as its only channel |
| LayerOne.Agreements | test/layer_one_tb/compare_trained_model.py:98-108 | a window has nine tap agreements |
| LayerOne.Matches | test/layer_one_tb/compare_trained_model.py:97-108 | the per-position match count is at most 9 |
| LayerOne.LiftedCount | test/layer_one_tb/compare_trained_model.py:98-108 | the generic engine's count on the lifted image is the number of agreeing taps |
| LayerOne.LiftedWindow | test/layer_one_tb/compare_trained_model.py:97-108 | the engine's first `t` taps on the lifted image match as often as the first `t` taps agree with the kernel |
| LayerOne.LiftedTap | test/layer_one_tb/compare_trained_model.py:100-108 | one tap of the lifted image contributes its agreement bit: 1 iff the padded pixel equals the weight bit |
| LayerOne.LiftedFires | test/layer_one_tb/compare_trained_model.py:109-110 | a sub-position of the engine fires iff its layer-one window reaches the threshold |
| LayerOne.RunLayerOne | test/layer_one_tb/compare_trained_model.py:78-113 | the output is 8x14x14, and bit `[k][r][c]` is 1 iff one of the four windows under it has at least `ts[k]` taps agreeing with kernel `k`, out-of-range taps reading 0 |
| LayerOne.LayerOneFires | test/layer_one_tb/report_comparison.py:53-75 | the same iff, stated with `Fires` on the image itself |
| LayerOne.LayerOneMonotone | test/layer_one_tb/compare_trained_model.py:109-110 | an output bit that is 1 under threshold `t` stays 1 under any `t' <= t` |
| LayerOne.ChannelsLast | test/layer_two_tb/gen_layer_two_tb.py:124 | the channels-last copy holds `y[k][r][c]` at `[r][c][k]` |
| LayerOne.Active | test/layer_one_tb/gen_trained_tb.py:117 | the active count of an 8x14x14 output is at most 1568 |
| LayerOne.ActiveZero | test/layer_one_tb/generate_multiple_digits.py:293 | the active count is 0 iff every output bit is 0 |
| LayerOne.ActiveFull | test/layer_one_tb/gen_trained_tb.py:117 | the active count is 1568 iff every output bit is 1 |
| LayerOne.FixedThreshold | test/layer_one_tb/generate_test_vectors.py:24-25 | `5 + (w & 1)` is 5 for even kernels and 6 for odd ones |
| LayerOne.FixedThresholds | test/layer_one_tb/generate_multiple_digits.py:24-25 | eight thresholds, kernel `w`'s being the fixed rule's |
| LayerOne.KernelsOf | test/layer_one_tb/generate_test_vectors.py:51 | kernel `w` of tap-major weights reads `wt[kr][kc][w]` |
| LayerOne.BinaryConvPooling | test/layer_one_tb/generate_test_vectors.py:21-63 | `binary_conv_pooling` is 8x14x14, bit `[w][r][c]` 1 iff a window under it reaches 5 (even `w`) or 6 (odd `w`) matches |
| LayerOne.Zeros | test/layer_one_tb/generate_test_vectors.py:102 | the all-zero image is a 28x28 image every pixel of which is 0 |
| LayerOne.Checkerboard | test/layer_one_tb/generate_test_vectors.py:135-138 | the checkerboard starts with 0 and neighbouring pixels always differ, horizontally and vertically |
| LayerOne.ZeroImage | test/layer_one_tb/generate_test_vectors.py:40-59 | on the all-zero image, kernel `k`'s output is 1 everywhere iff its zero-weight count reaches `ts[k]`, else 0 everywhere |
| LayerOne.ZeroImageFixed | test/layer_one_tb/generate_test_vectors.py:102-104 | with the fixed thresholds, on the all-zero image even kernels fire everywhere iff they have at least 5 zero bits, odd ones at least 6 |
| LayerOne.ParseImage | test/layer_one_tb/generate_multiple_digits.py:263-266 | a pattern loads iff it has 28 rows of at least 28 bit characters; then pixel `(r, c)` is the bit of character `c` of row `r`; otherwise the error is that of the first faulty slot in row-major order, a missing row or column being an `IndexError` and any other character a `ValueError` |
| LayerOne.PixelSlotsOk | test/layer_one_tb/generate_multiple_digits.py:263-266 | every slot of the row-major pixel loop succeeds iff the pattern is complete and made of bit characters, and each slot then yields its character's bit |
| LayerOne.PixelSlotsAllOk | test/layer_one_tb/generate_multiple_digits.py:263-266 | a pattern on which no slot fails has 28 rows of at least 28 bit characters |
| LayerOne.PixelSlotsAllOkIf | test/layer_one_tb/generate_multiple_digits.py:263-266 | a complete pattern of bit characters fails at no slot |
| LayerOne.PixelSlotAt | test/layer_one_tb/generate_multiple_digits.py:263-264 | slot `28*r + c` of the loop is row `r`, column `c` |
| LayerOne.ParseTapWeights | test/layer_one_tb/generate_test_vectors.py:198-202 | a 3x3 table of 8-character strings loads iff it is complete and made of bit characters; then character `w` of `[r][c]` is `wt[r][c][w]`; otherwise the error is that of the first faulty slot, `w` varying fastest |
| LayerOne.TapSlotsOk | test/layer_one_tb/generate_test_vectors.py:198-202 | every slot of the tap-weight loop succeeds iff the table is complete and made of bit characters, and each slot then yields its character's bit |
| LayerOne.TapSlotsAllOk | test/layer_one_tb/generate_test_vectors.py:198-202 | a table on which no slot fails is a complete 3x3 table of 8 bit characters per entry |
| LayerOne.TapSlotsAllOkIf | test/layer_one_tb/generate_test_vectors.py:198-202 | a complete table of bit characters fails at no slot |
| LayerOne.TapSlotAt | test/layer_one_tb/generate_test_vectors.py:198-200 | slot `24*r + 8*c + w` of the loop is entry `[r][c]`, character `w` |
| LayerTwo.DeriveHwWeights | test/layer_two_tb/gen_layer_two_tb.py:76-82 | `hw[kr][kc][f]` is 1 iff at least 4 of the 8 trained channel bits are 1 |
| LayerTwo.MajorityVote | test/layer_two_tb/gen_layer_two_tb.py:81 | the derived bit is 1 iff ones are at least as many as zeros, so a 4-4 tie goes to 1 |
| LayerTwo.HwKernels | test/layer_two_tb/gen_layer_two_tb.py:153 | filter `f`'s kernel reads `hw[kr][kc][f]` |
| LayerTwo.ChannelsAt | test/layer_two_tb/gen_layer_two_tb.py:149-152 | a tap reads eight channel values |
| LayerTwo.TapScores | test/layer_two_tb/gen_layer_two_tb.py:153-155 | a window has nine per-tap scores |
| LayerTwo.TapCount | test/layer_two_tb/gen_layer_two_tb.py:155 | a tap's contribution is the number of its channels equal to the weight bit |
| LayerTwo.LayerTwoCount | test/layer_two_tb/gen_layer_two_tb.py:144-155 | the engine's count with the hardware kernels is the layer-two `matches` |
| LayerTwo.MatchesBound | test/layer_two_tb/gen_layer_two_tb.py:144-155 | the count at any position lies in [0, 72] |
| LayerTwo.PaddedScore | test/layer_two_tb/gen_layer_two_tb.py:149-150 | a padded tap contributes 8 when its weight bit is 0 and 0 otherwise |
| LayerTwo.LayerTwoFires | test/layer_two_tb/gen_layer_two_tb.py:156-158 | a sub-position of the engine fires iff the layer-two window reaches the filter threshold |
| LayerTwo.RunLayerTwo | test/layer_two_tb/gen_layer_two_tb.py:127-159 | the output is 4x7x7, bit `[f][r][c]` 1 iff one of its four pool sub-positions reaches `ts[f]` |
| LayerTwo.Pipeline | test/layer_two_tb/gen_layer_two_tb.py:226-227 | one image through layer one, the channels-last copy, and layer two with the majority-vote weights; fails with `IndexError` iff there are fewer than 8 layer-one or 4 layer-two thresholds |
| LayerTwo.Active | test/layer_two_tb/gen_layer_two_tb.py:233 | at most 196 layer-two outputs are active |
| LayerTwo.ActiveZero | test/layer_two_tb/gen_layer_two_tb.py:233 | the active count is 0 iff no layer-two output is set |
| LayerTwo.ActiveFull | test/layer_two_tb/gen_layer_two_tb.py:233 | the active count is 196 iff every layer-two output is set |
| LayerTwo.ActiveSet | test/layer_two_tb/gen_layer_two_tb.py:233 | switching on one more output raises the active count by one, so the count is the number of set outputs |
| VerilogPack.Chars | test/layer_one_tb/compare_trained_model.py:132 | `str` of every element keeps the box shape and maps each bit to its character |
| VerilogPack.CharsBox | test/layer_one_tb/compare_trained_model.py:132 | the character box has the bit box's sizes |
| VerilogPack.Pack | test/layer_one_tb/compare_trained_model.py:127-133 | a packed literal has one character per element |
| VerilogPack.PackAt | test/layer_one_tb/compare_trained_model.py:131-133 | element `[a][b][c]` is literal bit `Target(a, b, c)` |
| VerilogPack.LiteralsEqual | test/layer_one_tb/report_comparison.py:100-106 | two literals agreeing on every bit of the box are equal |
| VerilogPack.PixelsToVerilog | test/layer_one_tb/report_comparison.py:77-79 | the pixel literal has 784 characters |
| VerilogPack.PixelsToVerilogAt | test/layer_one_tb/compare_trained_model.py:118-123 | pixel `(r, c)` is literal bit `28r + c` |
| VerilogPack.WeightsToVerilog | test/layer_one_tb/report_comparison.py:81-87 | the weight literal has 72 characters |
| VerilogPack.WeightsToVerilogAt | test/layer_one_tb/compare_trained_model.py:125-133 | `weights[k][r][c]` is literal bit `r*24 + c*8 + k` |
| VerilogPack.OutputToVerilog | test/layer_one_tb/report_comparison.py:89-95 | the output literal has 1568 characters |
| VerilogPack.OutputToVerilogAt | test/layer_one_tb/gen_trained_tb.py:167-169 | output `[k][r][c]` is literal bit `out_idx(k, r, c) = k*196 + r*14 + c` |
| VerilogPack.VerilogToOutput | test/layer_one_tb/report_comparison.py:97-107 | decoding succeeds iff the last 1568 characters are bit characters; then `[k][r][c]` is the bit of literal bit `k*196 + r*14 + c`; otherwise the error is the first fault of the ascending scan: `ValueError` if a bad character comes before the string runs out, `IndexError` if not |
| VerilogPack.OutSlotsOk | test/layer_one_tb/report_comparison.py:101-107 | every slot of the decoding loop succeeds iff the last 1568 characters are bit characters |
| VerilogPack.OutSlotsError | test/layer_one_tb/report_comparison.py:101-107 | the first failing slot is a `ValueError` iff some reachable character among the last 1568 is not a bit, and an `IndexError` otherwise |
| VerilogPack.OutputRoundTrip | test/layer_one_tb/report_comparison.py:89-107 | decoding a packed 8x14x14 output gives it back |
| VerilogPack.LiteralRoundTrip | test/layer_one_tb/report_comparison.py:89-107 | packing a decoded 1568-character bit literal gives the literal back |
| VerilogPack.FlattenForVerilog | test/layer_one_tb/generate_test_vectors.py:65-95 | the three literals have 784, 72 and 1568 characters |
| VerilogPack.TapMajorAgrees | test/layer_one_tb/generate_test_vectors.py:77-83 | the tap-major weight packer gives the same literal as `weights_to_verilog` on the same kernels |
| VerilogPack.TapMajor | test/layer_one_tb/generate_test_vectors.py:77-83 | the tap-major weight literal has 72 characters |
| VerilogPack.TapMajorAt | test/layer_one_tb/generate_test_vectors.py:77-83 | tap-major weight `[r][c][w]` is literal bit `r*24 + c*8 + w` |
| VerilogPack.FlattenForVerilogAt | test/layer_one_tb/generate_multiple_digits.py:75-83 | `weights[r][c][w]` is literal bit `r*24 + c*8 + w` |
| VerilogPack.FlattenPixels | test/layer_one_tb/convert_to_flattened.py:67-73 | the flattened pattern has as many characters as the rows together |
| VerilogPack.FlattenPixelsAt | test/layer_one_tb/convert_to_flattened.py:69-73 | on 28 rows of 28, character `c` of row `r` is literal bit `28r + c`, of 784 |
| VerilogPack.FlattenPixelsOf | test/layer_one_tb/convert_to_flattened.py:67-73 | a 28x28 pattern flattens to the literal of the image its characters spell |
| VerilogPack.FlattenPixelsAgrees | test/layer_one_tb/convert_to_flattened.py:67-73 | a well-formed pattern flattens to the same literal as `pixels_to_verilog` of the parsed image |
| VerilogPack.Box | test/layer_one_tb/convert_to_flattened.py:81 | the character box of a table holds `table[a][b][c]` |
| VerilogPack.FlattenWeights | test/layer_one_tb/convert_to_flattened.py:75-87 | the flattened weight table has 72 characters |
| VerilogPack.FlattenWeightsAt | test/layer_one_tb/convert_to_flattened.py:79-84 | character `w` of `[r][c]` is literal bit `r*24 + c*8 + w` |
| VerilogPack.FlattenExpectedOutput | test/layer_one_tb/convert_to_flattened.py:89-101 | the flattened output table has 1568 characters |
| VerilogPack.FlattenExpectedOutputAt | test/layer_one_tb/convert_to_flattened.py:93-98 | character `w` of `[r][c]` is literal bit `w*196 + r*14 + c` |
| VerilogPack.PixelsToSv | test/layer_two_tb/gen_layer_two_tb.py:166-176 | the layer-two pixel literal has 1568 characters |
| VerilogPack.PixelsToSvAt | test/layer_two_tb/gen_layer_two_tb.py:166-176 | `[row][col][ch]` is literal bit `row*112 + col*8 + ch` |
| VerilogPack.PixelsToSvIsReverse | test/layer_two_tb/gen_layer_two_tb.py:171-176 | walking the indices downwards is the reversed row-major flattening |
| VerilogPack.WeightsToSv | test/layer_two_tb/gen_layer_two_tb.py:178-189 | the layer-two weight literal has 72 characters |
| VerilogPack.WeightsToSvAt | test/layer_two_tb/gen_layer_two_tb.py:184-188 | slot `[kr][kc][f]` is literal bit `kr*24 + kc*8 + f`, holding `hw[kr][kc][f]` for filters 0-3 and '0' for slots 4-7 |
| VerilogPack.OutputToSv | test/layer_two_tb/gen_layer_two_tb.py:191-201 | the layer-two output literal has 196 characters |
| VerilogPack.OutputToSvAt | test/layer_two_tb/gen_layer_two_tb.py:320-326 | output `[f][r][c]` is literal bit `bit_pos = f*49 + r*7 + c`, the bit the testbench compares |
| Mnist.BE32 | test/layer_one_tb/compare_trained_model.py:61 | a big-endian 32-bit field is below 2^32 |
| Mnist.EncodeBE32 | src/Python311_training/convert_mnist_binary.py:30 | `struct.pack(">I", n)` is four bytes |
| Mnist.BE32RoundTrip | src/Python311_training/convert_mnist_binary.py:30 | reading back an encoded field gives the number |
| Mnist.EncodeBE32RoundTrip | test/layer_one_tb/compare_trained_model.py:61 | encoding a field read from four bytes gives the bytes back |
| Mnist.ImageHeader | test/layer_one_tb/compare_trained_model.py:61 | the 16-byte header parses iff the file has 16 bytes, otherwise the unpack fails; every field is below 2^32 |
| Mnist.EncodeHeader | src/Python311_training/convert_mnist_binary.py:30 | an encoded header is 16 bytes |
| Mnist.HeaderRoundTrip | src/Python311_training/convert_mnist_binary.py:30-31 | the header of a written file is the header it was written with, whatever follows |
| Mnist.ToBits | test/test.py:88 | the low `w` bits of a byte, most significant first, number `w` |
| Mnist.FromBits | src/Python311_training/convert_mnist_binary.py:25 | a bit string denotes a number below `2^len` |
| Mnist.ToBitsAt | test/test.py:88 | position `i` of `ToBits(b, w)` is bit `w - 1 - i` of `b` |
| Mnist.FromToBits | src/Python311_training/convert_mnist_binary.py:25 | unpacking a packed byte gives the byte back |
| Mnist.ToFromBits | src/Python311_training/convert_mnist_binary.py:25 | packing unpacked bits gives the bits back |
| Mnist.Unpack | test/layer_one_tb/compare_trained_model.py:64 | `np.unpackbits` gives eight bits per byte |
| Mnist.UnpackAt | test/test.py:88 | pixel `8j + i` is bit `7 - i` of byte `j` |
| Mnist.PackBits | src/Python311_training/convert_mnist_binary.py:25 | `np.packbits` of a whole number of bytes gives one byte per eight bits |
| Mnist.UnpackPack | src/Python311_training/convert_mnist_binary.py:25-26 | unpacking undoes packing |
| Mnist.PackUnpack | test/top_test_tb/gen_real_mnist_images.py:42-44 | packing undoes unpacking |
| Mnist.Reshape | test/layer_one_tb/compare_trained_model.py:65 | `bits[:d0*d1*d2].reshape(d0, d1, d2)` is a `d0 x d1 x d2` box holding bit `(n*d1 + r)*d2 + c` at `[n][r][c]` |
| Mnist.ReshapeFlatten | test/layer_one_tb/compare_trained_model.py:65 | flattening the reshaped box gives back the used prefix of the bits |
| Mnist.LoadImages | test/top_test_tb/gen_real_mnist_images.py:34-50 | the load succeeds iff the header is complete, the magic is 2051 where checked, and enough pixel bits follow; the short header and the bad magic are their own errors; on success the images flatten to the unpacked data |
| Mnist.ImagePixel | test/layer_one_tb/compare_trained_model.py:59-66 | pixel `(r, c)` of image `n` is bit `7 - p%8` of data byte `p/8`, with `p = (n*rows + r)*cols + c` |
| Mnist.LoadLabels | test/top_test_tb/gen_real_mnist_images.py:52-60 | the load succeeds iff the 8-byte header is complete and the magic is 2049 where checked; label `i` is byte `8 + i` |
| Mnist.ImageSlice | test/test.py:80-88 | with a complete header, image `index` is the clipped slice of `rows*cols//8` bytes, unpacked; exactly those bytes when the file holds them |
| Mnist.Slice | test/test.py:86 | a clipped slice has at most `n` bytes, and exactly `data[start..start+n]` when the data reaches that far |
| Mnist.SliceBits | test/test.py:85-88 | an in-range slice unpacks so that bit `p` is bit `7 - p%8` of file byte `16 + start + p/8` |
| Mnist.LabelAt | test/test.py:90-99 | a label exists iff the label file exists and holds byte `8 + index`, and then it is that byte |
| WeightFiles.Lead | test/layer_one_tb/compare_trained_model.py:35 | the leading spaces are all spaces and are followed by a non-space |
| WeightFiles.Trail | test/layer_one_tb/compare_trained_model.py:35 | the trailing spaces are all spaces and are preceded by a non-space |
| WeightFiles.Strip | test/layer_one_tb/compare_trained_model.py:35 | `str.strip()` cuts off only spaces and leaves neither a leading nor a trailing one |
| WeightFiles.TrimmedMiddle | test/layer_one_tb/compare_trained_model.py:35 | cutting the leading and trailing runs of spaces leaves a middle with no space at either end |
| WeightFiles.StripBlank | test/layer_one_tb/compare_trained_model.py:35 | a stripped line is empty iff the line is all spaces |
| WeightFiles.StripFixed | test/layer_one_tb/compare_trained_model.py:35 | a line with no surrounding spaces is its own strip |
| WeightFiles.StripIdempotent | test/layer_one_tb/compare_trained_model.py:35 | stripping twice is stripping once |
| WeightFiles.StripBits | test/layer_one_tb/compare_trained_model.py:35 | a '0'/'1' line is left alone by `strip` |
| WeightFiles.Cleaned | test/layer_one_tb/compare_trained_model.py:35 | the kept lines are non-empty and stripped, and no more than the file's lines |
| WeightFiles.CleanedKeeps | test/layer_one_tb/compare_trained_model.py:35 | lines already stripped and non-blank survive unchanged |
| WeightFiles.CleanedIdempotent | test/layer_one_tb/compare_trained_model.py:35 | cleaning twice is cleaning once |
| WeightFiles.FirstBad | test/layer_one_tb/compare_trained_model.py:41 | the first non-bit character of a line, preceded only by bit characters |
| WeightFiles.LineError | test/layer_two_tb/gen_layer_two_tb.py:48-49 | storing a line into `limit` slots fails iff some character is not a bit or a slot is missing; the `ValueError` wins iff the bad character comes at or before the first missing slot |
| WeightFiles.LinesError | test/layer_two_tb/gen_layer_two_tb.py:47-49 | a table's lines from `k` on raise nothing iff each fits its row's slots |
| WeightFiles.LinesErrorNone | test/layer_two_tb/gen_layer_two_tb.py:46-49 | a cleaned table raises nothing iff it has at most `rows` lines of at most `width` bit characters |
| WeightFiles.L1Kernels | test/layer_two_tb/gen_layer_two_tb.py:46-49 | the table's kernels are eight 3x3 bit kernels |
| WeightFiles.SlotRow | test/layer_two_tb/gen_layer_two_tb.py:49 | a kernel row has three slots |
| WeightFiles.L1KernelsAt | test/layer_two_tb/gen_layer_two_tb.py:47-49 | slot `[k][i//3][i%3]` holds character `i` of line `k`, or 0 where the file does not reach |
| WeightFiles.LoadL1Weights | test/layer_two_tb/gen_layer_two_tb.py:42-50 | the lenient loader succeeds iff the cleaned file fits 8 lines of 9 bits; slot `[k][i//3][i%3]` is character `i` of line `k`, unfilled slots 0 |
| WeightFiles.StrictError | test/layer_one_tb/compare_trained_model.py:38-41 | the strict per-line checks pass iff every line has exactly nine bit characters |
| WeightFiles.StrictKernels | test/layer_one_tb/compare_trained_model.py:37-41 | eight 9-bit lines give eight 3x3 kernels |
| WeightFiles.StrictRow | test/layer_one_tb/compare_trained_model.py:41 | a kernel row has three bits |
| WeightFiles.StrictKernelsAt | test/layer_one_tb/compare_trained_model.py:38-41 | `str` of slot `[k][i//3][i%3]` is character `i` of line `k` |
| WeightFiles.LoadWeights | test/layer_one_tb/compare_trained_model.py:33-42 | the strict loader succeeds iff there are exactly 8 cleaned lines of exactly 9 bit characters; a wrong line count is reported first |
| WeightFiles.StrictIsLax | test/layer_one_tb/compare_trained_model.py:33-42 | a file the strict loader accepts is loaded identically by the lenient one |
| WeightFiles.StrictAgrees | test/layer_one_tb/compare_trained_model.py:40-41 | on eight 9-bit lines both gathers read the same kernels |
| WeightFiles.PosDecode | test/layer_two_tb/gen_layer_two_tb.py:63-66 | `pos -> (pos//24, (pos%24)//8, pos%8)` lands in 3x3x8 and re-encodes to `pos` |
| WeightFiles.PosEncode | test/layer_two_tb/gen_layer_two_tb.py:63-67 | decoding `kr*24 + kc*8 + ch` gives `(kr, kc, ch)` back, so the map is a bijection from [0, 72) onto 3x3x8 |
| WeightFiles.L2Error | test/layer_two_tb/gen_layer_two_tb.py:61-67 | the lines from `k` on raise nothing iff each is exactly 72 bit characters and belongs to one of the four filters |
| WeightFiles.L2ErrorNone | test/layer_two_tb/gen_layer_two_tb.py:60-67 | a cleaned file raises nothing iff it has at most four lines of exactly 72 bit characters |
| WeightFiles.L2Trained | test/layer_two_tb/gen_layer_two_tb.py:60-67 | the trained weights form a 4x3x3x8 bit box |
| WeightFiles.TapChannels | test/layer_two_tb/gen_layer_two_tb.py:80 | a tap has eight channel bits |
| WeightFiles.L2TrainedAt | test/layer_two_tb/gen_layer_two_tb.py:63-67 | character `pos` of line `f` is `[f][pos//24][(pos%24)//8][pos%8]`, and filters without a line are 0 |
| WeightFiles.LoadL2WeightsTrained | test/layer_two_tb/gen_layer_two_tb.py:56-68 | the loader succeeds iff the cleaned file has at most four lines of exactly 72 bit characters; contents as above |
| WeightFiles.BinValueBound | test/layer_one_tb/compare_trained_model.py:52 | `k` binary digits denote a number below `2^k` |
| WeightFiles.DigitsOf | test/layer_one_tb/compare_trained_model.py:52 | the digits after the sign are no longer than the literal |
| WeightFiles.ParseBinary | test/layer_one_tb/compare_trained_model.py:52 | `int(s, 2)` succeeds iff an optional sign is followed by at least one binary digit and nothing else, and otherwise raises `ValueError`; the value is bounded by `2^len` and non-negative without a minus, and is the signed binary value of the digits |
| WeightFiles.Binary | src/Python311_training/bnn_retrieve_weights.py:53 | `format(n, 'b')` is a non-empty binary string denoting `n`, starting with 1 when `n > 0` |
| WeightFiles.BinaryLength | src/Python311_training/bnn_retrieve_weights.py:53 | a number below `2^k` needs at most `k` digits |
| WeightFiles.LeadingZeros | src/Python311_training/bnn_retrieve_weights.py:53 | zero padding does not change a binary value |
| WeightFiles.PadLeft | src/Python311_training/bnn_retrieve_weights.py:53 | padding keeps the value and widens to the field width |
| WeightFiles.Format8 | src/Python311_training/bnn_retrieve_weights.py:53 | `f"{t:08b}"` starts with a sign or a bit and ends with a bit |
| WeightFiles.FormatRoundTrip | src/Python311_training/bnn_retrieve_weights.py:53 | every threshold the writer prints is read back by `int(l, 2)` as itself |
| WeightFiles.FormatWidth | src/Python311_training/bnn_retrieve_weights.py:53 | thresholds in [-127, 255] fill exactly eight characters |
| WeightFiles.ParseAll | test/layer_one_tb/compare_trained_model.py:52 | the list comprehension succeeds iff every line parses, giving one value per line |
| WeightFiles.ParseAllOk | test/layer_one_tb/compare_trained_model.py:52 | lines that each parse to a value parse together to those values in order |
| WeightFiles.LoadThresholds | test/layer_two_tb/gen_layer_two_tb.py:52-54 | the lenient loader succeeds iff every cleaned line parses, one threshold per line |
| WeightFiles.LoadThresholdsStrict | test/layer_one_tb/compare_trained_model.py:48-52 | the strict loader needs exactly eight cleaned lines, checked first, and then agrees with the lenient one |
| WeightFiles.ThresholdFileRoundTrip | src/Python311_training/bnn_retrieve_weights.py:51-53 | a threshold file written one `f"{t:08b}"` per line loads back as its thresholds |
| CsvText.Split | test/test.py:43 | `s.split(sep)` gives at least one piece, none holding the separator |
| CsvText.JoinSplit | test/test.py:43 | joining the pieces of `s.split(sep)` with `sep` gives `s` back |
| CsvText.SplitJoin | test/test.py:43 | splitting a join of separator-free fields gives the fields back |
| CsvText.SplitAtSep | test/test.py:43 | a leading separator closes an empty first piece |
| CsvText.FieldSplit | test/test.py:43 | a separator-free prefix glues onto the first piece of what follows |
| CsvText.DigitValue | test/top_test_tb/gen_real_mnist_images.py:70 | a decimal digit's value is below 10 |
| CsvText.ParseInt | test/top_test_tb/gen_real_mnist_images.py:70 | `int(x)` succeeds iff, after stripping, an optional sign precedes at least one decimal digit and nothing else; otherwise `ValueError`; the value is the signed decimal value of the digits, non-negative without a minus |
| CsvText.ParseBit | test/top_test_tb/gen_real_mnist_images.py:70 | `int(str(b))` is `b` |
| CsvText.ParseFields | test/top_test_tb/gen_real_mnist_images.py:70 | the row's comprehension succeeds iff every field parses, one value per field |
| CsvText.BitFields | src/Python311_training/bnn_retrieve_weights.py:25 | `map(str, bits)` gives one one-character field per bit |
| CsvText.ReadRow | test/top_test_tb/gen_real_mnist_images.py:69-70 | an empty line is an empty row; any other line is its comma-split fields, parsed |
| CsvText.RowRoundTrip | src/Python311_training/bnn_retrieve_weights.py:25 | a row written by the extractor is read back as its bits |
| CsvText.RowNotEmpty | src/Python311_training/bnn_retrieve_weights.py:25 | a row of at least one bit is a non-empty line |
| CsvText.LoadCsv | test/top_test_tb/gen_real_mnist_images.py:66-71 | `load_csv` succeeds iff every line reads, with one row per line |
| CsvText.Written | src/Python311_training/bnn_retrieve_weights.py:24-26 | the written file has one line per row, each that row's `",".join` |
| CsvText.CsvRoundTrip | test/top_test_tb/gen_real_mnist_images.py:66-71 | a weight file written by the extractor loads back as its rows |
| CsvText.CsvBits | test/test.py:40-43 | the flat reader succeeds iff every kept line's fields parse |
| CsvText.FlatReaderAgrees | test/test.py:36-44 | on non-blank, unpadded lines, `load_csv_bits` is `load_csv`'s rows laid end to end |
| CsvText.CsvBitsConcat | test/test.py:40-43 | the flat reader's result is the concatenation of the row reader's rows |
| CsvText.CsvBitsRoundTrip | test/test.py:36-44 | a written weight file of non-empty rows is read flat as all its bits in row order |
| CsvText.RowEnds | src/Python311_training/bnn_retrieve_weights.py:25-26 | a written row starts and ends with a bit character, so `strip` leaves it alone |
| CsvText.JoinEnds | src/Python311_training/bnn_retrieve_weights.py:25 | joined bit fields begin and end with a bit character |
| WeightStream.RowMajor | test/top_test_tb/gen_real_mnist_images.py:82-88 | the read-out of an `n x m` table succeeds iff every entry exists, else `IndexError`; entry `(i, j)` is at `i*m + j` |
| WeightStream.BuildRows | test/top_test_tb/gen_real_mnist_images.py:84-88 | the builders' append loops compute the read-out |
| WeightStream.RowMajorRect | test/top_test_tb/gen_real_mnist_images.py:90-96 | on an exact `n x m` table the read-out is the rows laid end to end |
| WeightStream.BuildW1 | test/top_test_tb/gen_real_mnist_images.py:73-80 | `build_w1` succeeds iff the table covers 8x9; 72 bits, position `level*9 + trit*3 + bitt` holding `w1[level][trit*3 + bitt]` |
| WeightStream.BuildW2 | test/top_test_tb/gen_real_mnist_images.py:82-88 | `build_w2` succeeds iff the table covers 4x72; 288 bits, position `f*72 + j` holding `w2[f][j]` |
| WeightStream.BuildW3 | test/top_test_tb/gen_real_mnist_images.py:90-96 | `build_w3` succeeds iff the table covers 10x196; 1960 bits, position `k*196 + b` holding `w3[k][b]` |
| WeightStream.WeightBits | test/top_test_tb/gen_real_mnist_images.py:129-130 | the concatenation succeeds iff all three tables cover; it always meets the 2320-bit assertion, with bits 0-71, 72-359 and 360-2319 from the three builders |
| WeightStream.WeightBitsAt | test/top_test_tb/gen_real_mnist_images.py:129 | where each table's entry sits in the stream |
| WeightStream.BuildWeightStream | test/test.py:61-67 | succeeds iff the lists have 72, 288 and 1960 bits, the first wrong length reported; the result is 2320 bits with the three lists at their offsets |
| WeightStream.StreamsAgree | test/test.py:47-67 | on weight files written one row per line, the cocotb flat reader and the generator's builders produce the same 2320 bits |
| WeightStream.TableReads | test/top_test_tb/gen_real_mnist_images.py:66-71 | one written table read by both readers and the row-major builder gives its rows, flat and `n*m` long |
| CocotbTest.UiInPins | test/test.py:165 | `(w << 2) | (p << 1)` keeps the mode pin low and carries `p` on pin 1 and `w` on pin 2 |
| CocotbTest.TriggerPins | test/test.py:148 | `0b001` raises only the mode pin |
| CocotbTest.DriveLoad | test/test.py:162-166 | succeeds iff there are at least 784 pixels and 2320 weights, else `IndexError`; tick `i` drives `w_stream[i]`, the pixel for `i < 784` and 0 after, mode 0 |
| CocotbTest.ZeroPixels | test/test.py:126 | the fallback is 784 zero pixels |
| CocotbTest.TestInputs | test/test.py:121-127 | a missing image file or short header gives zero pixels and no label; otherwise the label is byte `8 + index` where it exists, and a 28x28 image is the unpacked 98 bytes at `16 + index*98` |
| CocotbTest.StreamedPixel | test/test.py:85-88 | the pixel driven on tick `8j + i` is bit `7 - i` of data byte `index*98 + j` |
| CocotbTest.Answer | test/test.py:177 | `uo_out & 0xF` is below 16 and is `uo_out mod 16` |
| CocotbTest.Judge | test/test.py:183-193 | the hard check fails iff the answer exceeds 9; the soft warning fires iff the answer is a digit and differs from a known label |
| CocotbTest.DigitAccepted | test/test.py:177-184 | a digit in the low nibble is accepted whatever the high nibble holds, when the label agrees |
| CocotbTest.TestProject | test/test.py:108-193 | the test completes iff the three weight files load, the stream builds with only 0/1 values and image 0 has at least 784 pixels; it then holds the mode pin at 0, drives the 2320 stream bits on the weight pin and the 784 pixels (then 0) on the pixel pin, and judges the answer against image 0's label |
| ComparisonReport.RowDiff | test/layer_one_tb/report_comparison.py:216-217 | the differing positions of two rows number at most the row length, and none iff the rows are equal |
| ComparisonReport.PlaneDiff | test/layer_one_tb/report_comparison.py:216-217 | a plane's mismatch count is at most its cell count, and 0 iff the planes are equal |
| ComparisonReport.KernelCounts | test/layer_one_tb/report_comparison.py:215-220 | eight counts, each in [0, 196], and kernel `k`'s count is 0 iff its planes agree |
| ComparisonReport.CompareImage | test/layer_one_tb/report_comparison.py:207-234 | no simulation output skips the image; otherwise the comparison succeeds iff the literal decodes, and the image passes iff the decoded output is the reference |
| ComparisonReport.CompareAll | test/layer_one_tb/report_comparison.py:193-235 | the loop succeeds iff every image's comparison does, one report per image |
| ComparisonReport.NumSimulated | test/layer_one_tb/report_comparison.py:207-210 | at most every image was simulated |
| ComparisonReport.NumChecked | test/layer_one_tb/report_comparison.py:214-220 | at most every image was checked |
| ComparisonReport.Tally | test/layer_one_tb/report_comparison.py:214-220 | `total_checks` is 1568 per checked image; `total_errors` is 0 iff every checked image passed |
| ComparisonReport.CheckedAreSimulated | test/layer_one_tb/report_comparison.py:207-211 | exactly the simulated images are checked |
| ComparisonReport.CheckedCount | test/layer_one_tb/report_comparison.py:207-220 | when an image is checked exactly when it was simulated, the checked and simulated counts agree |
| ComparisonReport.Report | test/layer_one_tb/report_comparison.py:190-247 | the report completes iff every literal decodes; `total_checks` is 1568 per simulated image; ALL PASS iff every simulated image matches the reference |
| ComparisonReport.ReportImages | test/layer_one_tb/report_comparison.py:186-211 | the report completes iff there are at least 8 thresholds (an `IndexError` otherwise, before any image), the image count is within both the loaded images and labels, and every simulated output decodes; a failed report carries the error of the first failing iteration; then the same tallies with the reference computed by `run_layer_one` on each image |
| RealMnist.FirstInvalid | test/top_test_tb/gen_real_mnist_images.py:117-121 | no index is reported iff all lie in `[0, num_images)`; a reported one is invalid and is the first invalid one |
| RealMnist.ConfigEntries | test/top_test_tb/gen_real_mnist_images.py:143-144 | succeeds iff every index has a label, else `IndexError`; entry `i` is `(indices[i], labels[indices[i]])` |
| RealMnist.FlattenImage | test/top_test_tb/gen_real_mnist_images.py:164 | `image.flatten()` holds pixel `(r, c)` at `r*cols + c` |
| RealMnist.FlattenRowMajor | test/top_test_tb/gen_real_mnist_images.py:164 | the concatenated rows are the row-major image |
| RealMnist.PixelFiles | test/top_test_tb/gen_real_mnist_images.py:151-172 | one pixel file per requested index, file `i` holding image `indices[i]` flattened |
| RealMnist.AsNats | test/top_test_tb/gen_real_mnist_images.py:118-119 | validated indices keep their values |
| RealMnist.Generate | test/top_test_tb/gen_real_mnist_images.py:102-172 | a run writes at most the weight file, the config and one pixel file per index, and all of them when it finishes without error |
| RealMnist.Emit | test/top_test_tb/gen_real_mnist_images.py:117-172 | a bad index writes nothing; anything written starts with the weight file, after all indices passed; a complete run writes the labelled config and the row-major pixel files of 784 pixels |
| RealMnist.WeightTables | test/top_test_tb/gen_real_mnist_images.py:125-130 | loaded weight tables give 2320 bits |
| RealMnist.BadIndexWritesNothing | test/top_test_tb/gen_real_mnist_images.py:117-121 | with both data files loaded, an index outside the image set stops the run before any file is written, reporting an invalid index |
| RealMnist.WeightFileFirst | test/top_test_tb/gen_real_mnist_images.py:123-137 | whatever was written starts with the 2320 weight bits that the three loaded tables give, and only after every index was valid |
| RealMnist.ConfigWritten | test/top_test_tb/gen_real_mnist_images.py:139-145 | a complete run writes the image count and each index with label byte `8 + index` of the label file |
| RealMnist.PixelFileWritten | test/top_test_tb/gen_real_mnist_images.py:151-172 | a complete run writes pixel file `i` holding image `indices[i]` of 784 pixels in row-major order |
| RealMnist.PixelFromFile | test/top_test_tb/gen_real_mnist_images.py:163-171 | bit `r*cols + c` of a pixel file for image `n` is the data bit of pixel `(n*rows + r)*cols + c` of the image file |
| RealMnist.GenerateEmits | test/top_test_tb/gen_real_mnist_images.py:109-113 | a data file that fails to load stops the run with its error and nothing written; once both load, the run is `Emit`'s |

## Left out

- File and console I/O. Opening, reading and writing files, `print`, the
  ASCII image previews, the SystemVerilog text the generators append, and
  the hex formatting of `test_config.mem` are not modelled. The loaders
  take the file's bytes or lines as values. The generator's outputs are
  values in the order it writes them.
- The iverilog, VCD and Verilator flows, and the cocotb clock, reset and
  `await` plumbing. These are simulator glue. A simulation's printed
  literal and the design's answer byte are parameters.
- Training, the TensorFlow/larq model and the threshold folding that uses
  `sqrt`/`ceil`. These are floating point and foreign libraries. Weights
  and thresholds are given values.
- The random weights of the vector generators. They are a parameter.
- The literal `DIGITS`, `TEST_PIXELS_MNIST`, `TEST_WEIGHTS_MNIST` and
  `EXPECTED_OUTPUT_MNIST` tables. They are only data. Their parsers and
  packers are modelled on any table of the right shape.
- The dense popcount/arg-max classifier and the control FSM. Their RTL is
  not part of this model; only the test's range check on the answer is
  modelled.
- CsvText.ParseInt: Python's `int` also accepts underscores between digits
  and non-ASCII digits. The model rejects both.
- WeightFiles.LoadL1Weights: `int(bit)` of a digit 2-9, or of a non-ASCII
  decimal digit, stores that digit's value in the weight array. The model
  treats every non-'0'/'1' character as a `ValueError`.
- WeightFiles.LoadWeights: the strict loader's `int(bit)` likewise accepts
  digits 2-9 and non-ASCII decimal digits, which the model rejects.
- WeightFiles.LoadL2WeightsTrained: `int(bit)` at
  test/layer_two_tb/gen_layer_two_tb.py:67 stores a digit 2-9, or a
  non-ASCII decimal digit, into the trained weights. The model rejects
  every non-'0'/'1' character.
- WeightFiles.ParseBinary: the `0b` prefix, underscores and non-ASCII
  binary digits that `int(s, 2)` accepts are rejected.
- LayerOne.ParseImage: `int(DIGITS[...][r][c])` of a digit 2-9 or a
  non-ASCII digit stores it as a pixel. The model rejects it.
- LayerOne.ParseTapWeights: `int(TEST_WEIGHTS_MNIST[r][c][w])` likewise
  accepts digits 2-9 and non-ASCII digits, which the model rejects.
- VerilogPack.VerilogToOutput: `int(arr[idx])` likewise accepts digits 2-9
  and non-ASCII digits, which the model rejects.
- LayerOne.RunLayerOne: requires eight thresholds. The `IndexError` that a
  shorter list raises at the `k`-th threshold is modelled one level up, by
  LayerTwo.Pipeline and ComparisonReport.ReportImages.
- LayerTwo.RunLayerTwo: requires four thresholds. The `IndexError` of a
  shorter list is modelled by LayerTwo.Pipeline.
- CsvText.ReadRow: `csv.reader` quoting and escaping are not modelled.
  Lines are split at every comma. The extractor writes no quotes.
- CsvText.LoadCsvBits: this reader carries no contract of its own. Its
  behaviour is stated by CsvText.FlatReaderAgrees and
  CsvText.CsvBitsRoundTrip.
- CocotbTest.TestProject: stream values other than 0/1 are reported as an
  error. The test itself would drive a wider value on `ui_in`. The
  image-file fallback catches only a missing file and a short header.
- Mnist.LoadImages: the magic-number check is a parameter, because some
  scripts check it and others do not.
- Error precedence: when an input has several faults, each model reports
  the fault the script meets first. The cases the scripts order
  explicitly are stated in the contracts (line count before line length,
  length assertion before parsing, validation before loading weights).
- RealMnist.Emit: after an error, only the files that were already closed
  are kept. The partially written `test_config.mem` that Python leaves
  behind when a label is missing is not modelled.
- The packers whose only contract is a length (for example
  VerilogPack.PixelsToVerilog) state their contents in the `...At` lemmas
  next to them.
