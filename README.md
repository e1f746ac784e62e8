# roloc palette core in Dafny

This project models the integer core of `roloc`, a tool that extracts a colour palette from an image. It covers four pieces:

- **Median-cut quantiser** (`src/median_cutoff.rs`, from line 14 on). Pixels are held as `HexColor` values in a FIFO queue of groups. The loop pops the front group, sorts it by one channel and splits it at `len / 2`, then pushes both halves on the back until the queue holds `k` groups. Each group is then replaced by its truncating channel-wise mean.
- **`HexColor` and its hex encoding** (`src/lib.rs`). The value type, its derived lexicographic order, and the `#RRGGBB` string with upper-case, zero-padded digits.
- **`OutputFormat::from_str`** (`src/parsers/mod.rs`). An exact, case-sensitive match of `"svg"` and `"json"`.
- **The SVG swatch document** (`src/parsers/svg.rs`, lines 11-52). The string the writer builds before it is written out: a header, one `<rect>` line and one `<text>` line per palette entry, and the closing tag.

Modules:

| file | module | contents |
|---|---|---|
| `outcomes.dfy` | `Outcomes` | `Option`, usable with `:-` |
| `colors.dfy` | `Colors` | `u8`, `HexColor`, the derived order, the hex encoding and a decoder for it |
| `output_format.dfy` | `OutputFormats` | `OutputFormat` and `FromStr` |
| `key_sort.dfy` | `KeySort` | `sort_by_key` on one channel, as the unique stable sort |
| `median_cut.dfy` | `MedianCut` | `color_min_max`, `split_pixels_at_median`, `average_color_from_group`, `median_cut` |
| `capacity.dfy` | `MedianCutCapacity` | how the queue evolves depth by depth, and exactly when `median_cut` succeeds |
| `text_format.dfy` | `TextFormat` | decimal rendering of integers, lines, and small readers for them |
| `svg.dfy` | `SvgSwatches` | the SVG templates, the writer loop, and a reader for the document |

Panics are values, not preconditions. In `MedianCut` a computation gives `Eval<T>`, which is `Value(v)` or `Panic(cause)`. The cause is `SubtractOverflow` for a `u8` subtraction that goes below zero, and `DivideByZero`. The whole run gives `Outcome<T>`: `Ok(palette)`, `Err(message)` for the two returned errors, or `Panicked(cause)`. Two paths are modelled the way a debug build behaves:

- `max_r - min_r` on an empty group panics with `SubtractOverflow`.
- `red_sum / group.len()` on an empty group panics with `DivideByZero`.

**The code does not always return `k` colours, and it can divide by zero:**

- Splitting a one-pixel group gives `([], [p])`.
- Averaging that empty group divides by zero (`MedianCut.SinglePixelTwoClusters`).
- Splitting it again underflows a `u8` (`MedianCut.SinglePixelThreeClusters`).

`MedianCut.MedianCutErrors` and `MedianCut.MedianCutPalette` state when `Ok` can come back and what it then holds.

`MedianCutCapacity.MedianCutSucceedsIff` gives the exact condition. On non-empty input with `k ≥ 1`, the run returns its `k` colours iff the input has at least as many pixels as the smallest power of two ≥ `k`. Otherwise it panics. `k ≤ n` is therefore not enough: three pixels with `k = 3` panic. The reason is that the queue splits breadth first:

- After 2^d − 1 iterations it holds the 2^d groups of depth d, and the front one is the smallest, of size ⌊n / 2^d⌋.
- Once that front group is a single pixel and still has to be split, its empty half stays in the queue until it is split itself (an underflow panic) or averaged (a division-by-zero panic).

`color_min_max` fills the green and blue extrema from the red channel as well (src/median_cutoff.rs:97-98 and 101-102). The model does the same. `MedianCut.MinMaxOfIsRedExtent` proves that all three ranges are then the red range, and `MedianCut.RedIsAlwaysTheKey` proves that every split sorts by red.

The loops that change state are methods proved against specification functions:

- `MedianCut.ColorMinMax` against `MinMaxOf`;
- `MedianCut.AverageColorFromGroup` against `Average`;
- `MedianCut.SplitIntoGroups` against `SplitSteps`, which carries the invariant `SplitSteps(queue, k - |queue|) == SplitSteps([pixels], k - 1)`;
- `MedianCut.AverageGroups` against `AverageAll`;
- `MedianCut.MedianCutMethod` against `MedianCutResult`;
- `SvgSwatches.BuildSvgContent` against `Document`.

The properties are lemmas about those functions.

## Model

| member | source | states |
|---|---|---|
| Colors.CompareMatchesPacked | src/lib.rs:7-12 | The derived order compares r, then g, then b. It is the numeric order of `r·65536 + g·256 + b`: Less iff smaller, Equal iff the colours are equal, Greater iff larger. |
| Colors.CompareAntisymmetric | src/lib.rs:7-12 | Swapping the operands of the derived comparison swaps Less and Greater. |
| Colors.CompareTransitive | src/lib.rs:7-12 | The derived order is transitive. |
| Colors.HexDigit | src/lib.rs:68 | Every nibble is written as a character in `0-9A-F`. |
| Colors.DigitRoundTrip | src/lib.rs:68 | Reading back a written digit gives the nibble. |
| Colors.DigitValueInverse | src/lib.rs:68 | Every character the digit reader accepts is the upper-case digit of the value it reads. Lower-case digits are rejected. |
| Colors.ToHexString | src/lib.rs:66-70 | The string has exactly 7 characters: `#` followed by six upper-case hex digits. |
| Colors.HexStringNibbles | src/lib.rs:68 | Characters 1-2, 3-4 and 5-6 are the high and low nibbles of r, g and b, zero-padded. |
| Colors.HexByteRoundTrip | src/lib.rs:68 | Each `{:02X}` field reads back as its byte. |
| Colors.HexStringRoundTrip | src/lib.rs:66-70 | Decoding the string gives back the colour. |
| Colors.ParseHexByteExact | src/lib.rs:68 | A two-character field the decoder accepts is exactly the `{:02X}` rendering of the byte it reads. |
| Colors.ParseHexStringExact | src/lib.rs:66-70 | Every string the decoder accepts is the encoding of the colour it decodes to. Encoding is therefore onto the well-formed strings. |
| Colors.HexStringInjective | src/lib.rs:66-70 | Distinct colours give distinct strings. |
| OutputFormats.FromStr | src/parsers/mod.rs:23-29 | Parsing is total. An accepted string is the name of the format it gives. A rejection carries the fixed message `"Failed to parse Output Format "`. |
| OutputFormats.FromStrAccepts | src/parsers/mod.rs:24-26 | `from_str(s)` is `Ok(f)` iff `s` is exactly `"svg"` for Svg or `"json"` for Json. |
| OutputFormats.FromStrRejects | src/parsers/mod.rs:27 | Every string other than `"svg"` and `"json"` is rejected with the fixed message. |
| OutputFormats.FromStrRejectsNearMisses | src/parsers/mod.rs:27 | `"SVG"`, `"Json"`, `" svg"`, `"json\n"` and the empty string are rejected. |
| KeySort.InsertPermutes | src/median_cutoff.rs:75 | One insertion step keeps the multiset of pixels. |
| KeySort.InsertSorted | src/median_cutoff.rs:75 | Inserting into a key-sorted sequence keeps it sorted. |
| KeySort.InsertWithKey | src/median_cutoff.rs:75 | Inserting adds the new pixel behind the pixels with its key and leaves the order of every key class unchanged. |
| KeySort.SortByKeyLength | src/median_cutoff.rs:75 | Sorting keeps the length. |
| KeySort.SortByKeyPermutes | src/median_cutoff.rs:75 | The sorted group is a permutation of the input. |
| KeySort.SortByKeySorted | src/median_cutoff.rs:75 | The result is sorted by the key and is a permutation. Pixels with equal keys keep their input order, so the sort is stable. |
| KeySort.SortedStableUnique | src/median_cutoff.rs:75 | Two key-sorted sequences in which every key class appears in the same order are equal. |
| KeySort.SortByKeyIsTheStableSort | src/median_cutoff.rs:75 | Any key-sorted sequence in which every key class holds the input's pixels in the input's order equals the model's result. Any stable sort, the library's included, therefore gives this result. |
| KeySort.SortByKeyOfSorted | src/median_cutoff.rs:75 | An already sorted group comes back unchanged. |
| MedianCut.ColorMinMax | src/median_cutoff.rs:82-106 | The loop computes `MinMaxOf(pixels)`: it starts at min (255,255,255) and max (0,0,0), and every field is updated from `pixel.r`. |
| MedianCut.MinMaxOfIsRedExtent | src/median_cutoff.rs:83-103 | The g and b extrema equal the r extrema. An empty slice gives min (255,255,255) and max (0,0,0). Otherwise every pixel's red lies between the extrema and both are attained. |
| MedianCut.CheckedSub | src/median_cutoff.rs:63-65 | A `u8` subtraction succeeds iff it does not go below zero, and then gives the difference. Otherwise it panics with `SubtractOverflow`. |
| MedianCut.PickChannel | src/median_cutoff.rs:67-73 | The chosen channel's range is the largest. Ties go to red, then green. |
| MedianCut.RedIsAlwaysTheKey | src/median_cutoff.rs:63-73 | For a non-empty group the chosen key is red. An empty group panics with `SubtractOverflow`. |
| MedianCut.GreenSpreadIsIgnored | src/median_cutoff.rs:96-102 | Pixels (0,0,0) and (0,255,0) get green range 0, because green is filled from red. |
| MedianCut.SplitPixelsAtMedian | src/median_cutoff.rs:52-80 | The procedure computes `Split(pixels)`: extrema, range check, stable sort by the chosen key, then `split_off(len / 2)`. |
| MedianCut.SplitNonEmpty | src/median_cutoff.rs:75-79 | A non-empty group splits into the first `len / 2` and the remaining pixels of the group stably sorted by red. |
| MedianCut.SplitHalves | src/median_cutoff.rs:52-80 | Splitting panics iff the group is empty, with `SubtractOverflow`. Otherwise the halves have lengths ⌊n/2⌋ and n−⌊n/2⌋, their concatenation is the red-sorted group, and together they hold the group's pixels. |
| MedianCut.HalvesOf | src/median_cutoff.rs:77-79 | `split_off` at `len / 2` gives halves of ⌊n/2⌋ and n−⌊n/2⌋ that concatenate back to the group and together hold its pixels. |
| MedianCut.SplitSinglePixel | src/median_cutoff.rs:77-78 | A one-pixel group splits into `([], [p])`. |
| MedianCut.ChannelSumFits | src/median_cutoff.rs:39-43 | A channel sum is at most 255 times the group size. |
| MedianCut.MeanFits | src/median_cutoff.rs:46-48 | The truncating quotient of such a sum fits in `u8`, so the `as u8` casts lose nothing. |
| MedianCut.AverageColorFromGroup | src/median_cutoff.rs:34-50 | The procedure computes `Average(group)`: the truncating channel-wise mean, or a `DivideByZero` panic for an empty group. |
| MedianCut.AverageIsFloorMean | src/median_cutoff.rs:45-49 | Each averaged channel m of a non-empty group satisfies `len·m ≤ sum < len·(m+1)`, so m is ⌊sum/len⌋. Some pixel's channel is ≤ m and some pixel's is ≥ m, so m lies within the group's range. |
| MedianCut.SplitStepKeepsPixels | src/median_cutoff.rs:19-22 | One iteration pops the front group and pushes its halves. The queued groups still hold the same pixels. |
| MedianCut.SplitStepsKeepPixels | src/median_cutoff.rs:18-24 | After `s` iterations the queue has grown by exactly `s` groups. Its concatenation is a permutation of what it held before. |
| MedianCut.AverageAllPerGroup | src/median_cutoff.rs:26-29 | A successful averaging gives one colour per group, in queue order. Entry i is the mean of group i, and every group is non-empty. |
| MedianCut.AverageAllSucceeds | src/median_cutoff.rs:26-29 | Averaging the queue succeeds iff no group is empty. |
| MedianCut.SplitIntoGroups | src/median_cutoff.rs:14-24 | The `while queue.len() < k` loop computes `SplitSteps([pixels], k - 1)`. When it ends, the groups are a partition of the input as a multiset. |
| MedianCut.AverageGroups | src/median_cutoff.rs:26-29 | The `map(average_color_from_group)` pass computes `AverageAll(queue)`. |
| MedianCut.MedianCutMethod | src/median_cutoff.rs:5-31 | The procedure computes `MedianCutResult(pixels, k)`: the two argument checks, the splitting loop, then averaging. |
| MedianCut.MedianCutErrors | src/median_cutoff.rs:6-11 | Empty input gives the no-data error whatever k is. Otherwise `k == 0` gives the cluster-count error. No other input gives an error, so both checks come before any queue work. |
| MedianCut.MedianCutPalette | src/median_cutoff.rs:18-31 | An `Ok` result comes from non-empty input and k ≥ 1 and holds exactly k colours. Entry i is the mean of the non-empty group i of the final queue, and the groups partition the input pixels. |
| MedianCut.MedianCutOneCluster | src/median_cutoff.rs:18-29 | For k = 1 the loop does not run, and the result is the single mean colour of all pixels. |
| MedianCut.MeanOfTwoCopies | src/median_cutoff.rs:45-49 | The mean of two copies of one colour is that colour. |
| MedianCut.BlackAndWhite | src/median_cutoff.rs:14-31 | Black and white with k = 2 give `Ok([black, white])`. |
| MedianCut.SinglePixelOneCluster | src/median_cutoff.rs:18-29 | One pixel with k = 1 gives that pixel back. |
| MedianCut.ThreePixelsThreeClusters | src/median_cutoff.rs:18-48 | For three pixels sorted by red as x, y, z with k = 3, the final queue is `[[y, z], [], [x]]` and the run panics dividing by zero. |
| MedianCut.SinglePixelTwoClusters | src/median_cutoff.rs:46-48 | One pixel with k = 2 panics dividing by zero on the empty half. |
| MedianCut.SinglePixelThreeClusters | src/median_cutoff.rs:63 | One pixel with k = 3 panics on the `u8` subtraction for the empty group. |
| MedianCutCapacity.SplitSizes | src/median_cutoff.rs:77-79 | Splitting panics iff the group is empty. Otherwise the halves hold ⌊n/2⌋ and n−⌊n/2⌋ pixels. |
| MedianCutCapacity.SplitStepsCompose | src/median_cutoff.rs:18-24 | Running a iterations and then b more is running a + b. A panic in the first a iterations ends the run. |
| MedianCutCapacity.Survives | src/median_cutoff.rs:18-24 | A group behind the first s is still queued after s iterations, s places further forward. |
| MedianCutCapacity.FirstHalfPosition | src/median_cutoff.rs:18-24 | After s iterations, with 1 ≤ s ≤ queue length, the first half of the front group sits at index length − s. |
| MedianCutCapacity.EmptyGroupPersists | src/median_cutoff.rs:18-24 | Once the queue holds an empty group, every later queue still holds one, unless the run has panicked. |
| MedianCutCapacity.SplitsStayAbove | src/median_cutoff.rs:18-24 | If the first s groups hold at least 2·low pixels and the rest at least low, then s iterations succeed. They add s groups, and every group holds at least low pixels. |
| MedianCutCapacity.DepthGroupsAbove | src/median_cutoff.rs:18-24 | With at least 2^d·low pixels, 2^d − 1 iterations succeed. They leave 2^d groups of at least low pixels each. |
| MedianCutCapacity.FrontGroupSize | src/median_cutoff.rs:18-24 | After 2^d − 1 successful iterations the queue has 2^d groups, and the front one holds ⌊n / 2^d⌋ pixels. |
| MedianCutCapacity.SinglePixelFront | src/median_cutoff.rs:19-22 | If the front group holds one pixel and at least one iteration remains, the queue is left holding an empty group, unless the run has panicked. |
| MedianCutCapacity.EmptyGroupMeansPanic | src/median_cutoff.rs:26-29 | A run whose final queue holds an empty group panics. |
| MedianCutCapacity.EnoughPixelsSucceed | src/median_cutoff.rs:5-31 | With at least 2^⌈log2 k⌉ pixels and k ≥ 1, the run returns `Ok`. |
| MedianCutCapacity.TooFewPixelsPanic | src/median_cutoff.rs:5-31 | With fewer than 2^⌈log2 k⌉ pixels, a non-empty input and k ≥ 1 make the run panic. |
| MedianCutCapacity.MedianCutSucceedsIff | src/median_cutoff.rs:5-31 | On non-empty input with k ≥ 1, the run is `Ok` iff the input has at least 2^⌈log2 k⌉ pixels, and it never returns `Err`. |
| TextFormat.Decimal | src/parsers/svg.rs:34 | An integer is written as at least one decimal digit with no leading zero. |
| TextFormat.ReadDecimal | src/parsers/svg.rs:34 | Reading back a written integer gives the integer and leaves what follows it. |
| TextFormat.SplitJoinLines | src/parsers/svg.rs:46-49 | Splitting newline-terminated lines at their newlines gives back the lines. |
| SvgSwatches.BuildSvgContent | src/parsers/svg.rs:11-52 | The procedure builds `Document(palette)`: the header, one rect line and one text line per entry, then `</svg>\n`. |
| SvgSwatches.RectRoundTrip | src/parsers/svg.rs:33-39 | A rect line reads back as `x = 0` with the given y, width, height and fill, when the fill has no quote. |
| SvgSwatches.TextRoundTrip | src/parsers/svg.rs:40-45 | A text line reads back with its x, y and body, when the body has no `<`. |
| SvgSwatches.SvgOpenRoundTrip | src/parsers/svg.rs:20-27 | The opening `<svg>` line reads back with the given width and height. |
| SvgSwatches.StyleRoundTrip | src/parsers/svg.rs:23 | The `.label` style line reads back with the given font size. |
| SvgSwatches.HeaderIsFourLines | src/parsers/svg.rs:20-29 | The header template is four newline-terminated lines. |
| SvgSwatches.BodyLinesAt | src/parsers/svg.rs:31-50 | The body has two lines per entry. Line 2i is entry i's rect at y = 70·i, and line 2i+1 is its text. |
| SvgSwatches.DocumentSplits | src/parsers/svg.rs:11-52 | The document is exactly the header's four lines, two lines per entry in palette order and `</svg>`, each terminated by `\n`. |
| SvgSwatches.HeaderLinesAt | src/parsers/svg.rs:11-29 | The document is 100 wide and 70·n high, uses a 14px label font, and ends with `</svg>`. |
| SvgSwatches.SwatchLinesAt | src/parsers/svg.rs:31-45 | Entry i is a 100×60 rect at (0, 70·i) filled with its hex string, and a text at (5, 70·i + 37) showing the same string. |
| SvgSwatches.DocumentLayout | src/parsers/svg.rs:11-52 | Both of the above, read off the lines the document splits into. |
| SvgSwatches.SwatchesRoundTrip | src/parsers/svg.rs:31-50 | Reading the body back, two lines per entry, gives the palette. |
| SvgSwatches.DocumentRoundTrip | src/parsers/svg.rs:11-52 | Reading the whole document back gives the palette: the written document determines the palette it was written from. |

## Left out

- src/median_cutoff.rs:13, the float-to-`u8` conversion of the input pixels (`From<&RgbColor> for HexColor`, src/lib.rs:72-80). The model starts from a sequence of `HexColor`.
- `LabColor` conversion (src/lib.rs:20-64) and `RgbColor::distance_squared` (src/lib.rs:88-92). Both are floating point.
- `src/kmeans.rs`, `src/main.rs` and `benches/kmeans_bench.rs`. They are floating point, random number generation, command-line handling and image decoding, and are not part of this model.
- `src/parsers/json.rs`. It is a call into a JSON library followed by I/O.
- src/parsers/svg.rs:54-59, the file creation, write and `println!`. The model stops at the finished string.
- MedianCut.AverageColorFromGroup: the `u32` channel sums (src/median_cutoff.rs:40-42) and the `len() as u32` cast (src/median_cutoff.rs:46-48) are unbounded integers here. The source overflows, with a panic in a debug build and a wrap in a release build, only for groups of more than 16,843,009 pixels.
- MedianCut.CheckedSub: models a debug build, where an underflowing `u8` subtraction panics. A release build wraps the range instead. An empty group still panics in that build, because its average divides by zero.
- SvgSwatches.BuildSvgContent: the `i32` layout arithmetic (`total_height`, `y_offset`) is on unbounded integers. Its overflow for palettes of tens of millions of entries is not modelled.
- MedianCut.SplitPixelsAtMedian: `sort_by_key` and `split_off` work in place on the group's `Vec`. The model computes the sorted group and its halves as new sequences. It pins down the library sort's result, the unique stable sort, not its algorithm.
- MedianCut.SplitIntoGroups: the `VecDeque` is a sequence that the loop reassigns, popping at the front and appending at the back. Its ring-buffer storage is not modelled.
- `PalleteParser`, the trait the writer implements (src/parsers/mod.rs:11-13). The writer is a plain procedure here.
