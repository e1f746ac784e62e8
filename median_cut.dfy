/**
 * The median-cut palette quantiser (src/median_cutoff.rs), from the point
 * where the input pixels are integer colours.
 *
 * A FIFO queue of pixel groups starts with one group holding every pixel.
 * Until the queue holds `k` groups, the front group is popped, sorted by a
 * channel and cut at `len / 2`, and both halves are pushed on the back. The
 * palette is the truncating average of each group, in queue order.
 *
 * Rust panics are part of the observable behaviour and are modelled as
 * values: a `u8` subtraction that would go below zero (the debug-build
 * overflow check) and a division by an empty group's length.
 */
module MedianCut {
  import opened Colors
  import opened KeySort

  /** Why a run aborts. */
  datatype PanicCause =
    | SubtractOverflow  // `max_r - min_r` on `u8` with `max_r < min_r`
    | DivideByZero      // `red_sum / group.len()` on an empty group

  /** An intermediate computation: a value, or the panic that stops the run. */
  datatype Eval<T> = Value(value: T) | Panic(cause: PanicCause)

  /** What `median_cut` does: returns `Ok`, returns `Err`, or panics. */
  datatype Outcome<T> = Ok(value: T) | Err(message: string) | Panicked(cause: PanicCause)

  const NoDataMessage: string := "No data found in the image."
  const ZeroClustersMessage: string := "Number of clusters (k) must be > 0."

  /** A group of pixels; the queue holds these. */
  type Group = seq<HexColor>

  function Min(a: u8, b: u8): u8 { if a <= b then a else b }
  function Max(a: u8, b: u8): u8 { if a >= b then a else b }

  // ---------------------------------------------------------------------------
  // color_min_max (lines 82-106)
  // ---------------------------------------------------------------------------

  /** The `[minimum, maximum]` pair `color_min_max` returns. */
  datatype Extremes = Extremes(minimum: HexColor, maximum: HexColor)

  /** The starting values: minimum all 255, maximum all 0. */
  const NoExtremes: Extremes := Extremes(HexColor(255, 255, 255), HexColor(0, 0, 0))

  /**
   * One iteration of the loop as written: every field of both extremes is
   * updated from the pixel's RED channel.
   */
  function ExtremesStep(e: Extremes, p: HexColor): Extremes
  {
    Extremes(
      HexColor(Min(p.r, e.minimum.r), Min(p.r, e.minimum.g), Min(p.r, e.minimum.b)),
      HexColor(Max(p.r, e.maximum.r), Max(p.r, e.maximum.g), Max(p.r, e.maximum.b)))
  }

  /** The extremes after the loop has run over all of `pixels`. */
  function MinMaxOf(pixels: Group): Extremes
  {
    if pixels == [] then NoExtremes
    else ExtremesStep(MinMaxOf(pixels[..|pixels| - 1]), pixels[|pixels| - 1])
  }

  /** `color_min_max`. */
  method ColorMinMax(pixels: Group) returns (minimum: HexColor, maximum: HexColor)
    ensures Extremes(minimum, maximum) == MinMaxOf(pixels)
  {
    maximum := HexColor(0, 0, 0);
    minimum := HexColor(255, 255, 255);
    for i := 0 to |pixels|
      invariant Extremes(minimum, maximum) == MinMaxOf(pixels[..i])
    {
      var pixel := pixels[i];
      maximum := maximum.(r := Max(pixel.r, maximum.r));
      maximum := maximum.(g := Max(pixel.r, maximum.g));
      maximum := maximum.(b := Max(pixel.r, maximum.b));
      minimum := minimum.(r := Min(pixel.r, minimum.r));
      minimum := minimum.(g := Min(pixel.r, minimum.g));
      minimum := minimum.(b := Min(pixel.r, minimum.b));
      assert pixels[..i + 1][..i] == pixels[..i];
    }
    assert pixels[..|pixels|] == pixels;
  }

  /**
   * What `color_min_max` computes: the red channel's extent, copied into all
   * three channels of both extremes; for an empty slice, the starting values.
   */
  lemma {:induction false} MinMaxOfIsRedExtent(pixels: Group)
    ensures var e := MinMaxOf(pixels);
      && e.minimum.g == e.minimum.r && e.minimum.b == e.minimum.r
      && e.maximum.g == e.maximum.r && e.maximum.b == e.maximum.r
    ensures pixels == [] ==> MinMaxOf(pixels) == NoExtremes
    ensures forall i :: 0 <= i < |pixels| ==>
      MinMaxOf(pixels).minimum.r <= pixels[i].r <= MinMaxOf(pixels).maximum.r
    ensures pixels != [] ==>
      (exists i :: 0 <= i < |pixels| && pixels[i].r == MinMaxOf(pixels).minimum.r) &&
      (exists j :: 0 <= j < |pixels| && pixels[j].r == MinMaxOf(pixels).maximum.r)
  {
    if pixels != [] {
      var init, last := pixels[..|pixels| - 1], pixels[|pixels| - 1];
      MinMaxOfIsRedExtent(init);
      var e := MinMaxOf(pixels);
      forall i | 0 <= i < |pixels|
        ensures e.minimum.r <= pixels[i].r <= e.maximum.r
      {
        if i < |init| { assert pixels[i] == init[i]; }
      }
      if init == [] {
        assert pixels[0].r == e.minimum.r && pixels[0].r == e.maximum.r;
      } else {
        var m := MinMaxOf(init);
        if last.r <= m.minimum.r {
          assert pixels[|pixels| - 1].r == e.minimum.r;
        } else {
          var i :| 0 <= i < |init| && init[i].r == m.minimum.r;
          assert pixels[i].r == e.minimum.r;
        }
        if last.r >= m.maximum.r {
          assert pixels[|pixels| - 1].r == e.maximum.r;
        } else {
          var j :| 0 <= j < |init| && init[j].r == m.maximum.r;
          assert pixels[j].r == e.maximum.r;
        }
      }
    }
  }

  // ---------------------------------------------------------------------------
  // Choosing the split channel (lines 63-73)
  // ---------------------------------------------------------------------------

  /** `a - b` on `u8` in a debug build: a panic when the result would be negative. */
  function CheckedSub(a: u8, b: u8): (r: Eval<u8>)
    ensures r.Value? <==> b <= a
    ensures r.Value? ==> b + r.value == a
    ensures r.Panic? ==> r.cause == SubtractOverflow
  {
    if b <= a then Value(a - b) else Panic(SubtractOverflow)
  }

  /** The range that belongs to a channel. */
  function RangeOf(ch: Channel, rangeR: u8, rangeG: u8, rangeB: u8): u8
  {
    match ch
    case Red => rangeR
    case Green => rangeG
    case Blue => rangeB
  }

  /**
   * The channel with the largest range; ties go to red, then to green.
   */
  function PickChannel(rangeR: u8, rangeG: u8, rangeB: u8): (ch: Channel)
    ensures RangeOf(ch, rangeR, rangeG, rangeB) >= rangeR
    ensures RangeOf(ch, rangeR, rangeG, rangeB) >= rangeG
    ensures RangeOf(ch, rangeR, rangeG, rangeB) >= rangeB
    ensures ch == Green ==> rangeR < rangeG
    ensures ch == Blue ==> rangeR < rangeB && rangeG < rangeB
  {
    if rangeR >= rangeG && rangeR >= rangeB then Red
    else if rangeG >= rangeR && rangeG >= rangeB then Green
    else Blue
  }

  /** The three ranges, computed in the order red, green, blue, then the choice. */
  function SortChannel(e: Extremes): Eval<Channel>
  {
    match CheckedSub(e.maximum.r, e.minimum.r)
    case Panic(c) => Panic(c)
    case Value(rangeR) =>
      match CheckedSub(e.maximum.g, e.minimum.g)
      case Panic(c) => Panic(c)
      case Value(rangeG) =>
        match CheckedSub(e.maximum.b, e.minimum.b)
        case Panic(c) => Panic(c)
        case Value(rangeB) => Value(PickChannel(rangeR, rangeG, rangeB))
  }

  /**
   * Because `color_min_max` copies the red extent into green and blue, the
   * three ranges are equal and red is the split key of every non-empty group;
   * an empty group's ranges are `0 - 255`, which overflows.
   */
  lemma RedIsAlwaysTheKey(pixels: Group)
    ensures pixels != [] ==> SortChannel(MinMaxOf(pixels)) == Value(Red)
    ensures pixels == [] ==> SortChannel(MinMaxOf(pixels)) == Panic(SubtractOverflow)
  {
    MinMaxOfIsRedExtent(pixels);
    if pixels != [] {
      var e := MinMaxOf(pixels);
      assert e.minimum.r <= pixels[0].r <= e.maximum.r;
    }
  }

  /**
   * The green spread of a group is ignored: in this group only green varies,
   * yet red (range 0) is chosen, since the green range is read off red too.
   */
  lemma GreenSpreadIsIgnored()
    ensures var e := MinMaxOf([HexColor(0, 0, 0), HexColor(0, 255, 0)]);
      e.maximum.g - e.minimum.g == 0 && SortChannel(e) == Value(Red)
  {
    RedIsAlwaysTheKey([HexColor(0, 0, 0), HexColor(0, 255, 0)]);
    MinMaxOfIsRedExtent([HexColor(0, 0, 0), HexColor(0, 255, 0)]);
  }

  // ---------------------------------------------------------------------------
  // split_pixels_at_median (lines 52-80)
  // ---------------------------------------------------------------------------

  /** The two halves `split_pixels_at_median` returns, or its panic. */
  function Split(pixels: Group): Eval<(Group, Group)>
  {
    match SortChannel(MinMaxOf(pixels))
    case Panic(c) => Panic(c)
    case Value(ch) =>
      var sorted := SortByKey(pixels, ch);
      var median := |sorted| / 2;
      Value((sorted[..median], sorted[median..]))
  }

  /** `split_pixels_at_median`: the group is sorted by the chosen key and cut at `len / 2`. */
  method SplitPixelsAtMedian(pixels: Group) returns (r: Eval<(Group, Group)>)
    ensures r == Split(pixels)
  {
    var minimum, maximum := ColorMinMax(pixels);
    var channel := SortChannel(Extremes(minimum, maximum));
    if channel.Panic? {
      return Panic(channel.cause);
    }
    var sorted := SortByKey(pixels, channel.value);
    var median := |sorted| / 2;
    var newGroup := sorted[median..];
    r := Value((sorted[..median], newGroup));
  }

  /** A non-empty group is cut at `len / 2` of its red-sorted order. */
  lemma SplitNonEmpty(pixels: Group)
    requires pixels != []
    ensures var sorted := SortByKey(pixels, Red);
      Split(pixels) == Value((sorted[..|sorted| / 2], sorted[|sorted| / 2..]))
  {
    RedIsAlwaysTheKey(pixels);
    SortByKeyLength(pixels, Red);
  }

  /**
   * Splitting a non-empty group of `n` pixels gives halves of `n / 2` and
   * `n - n / 2` pixels whose concatenation is the group stably sorted by red;
   * together they hold exactly the group's pixels. An empty group panics.
   */
  lemma SplitHalves(pixels: Group)
    ensures pixels == [] <==> Split(pixels).Panic?
    ensures pixels == [] ==> Split(pixels) == Panic(SubtractOverflow)
    ensures Split(pixels).Value? ==>
      var first, second := Split(pixels).value.0, Split(pixels).value.1;
      && |first| == |pixels| / 2
      && |second| == |pixels| - |pixels| / 2
      && first + second == SortByKey(pixels, Red)
      && multiset(first) + multiset(second) == multiset(pixels)
  {
    if pixels == [] {
      RedIsAlwaysTheKey(pixels);
    } else {
      SplitNonEmpty(pixels);
      SortByKeyLength(pixels, Red);
      SortByKeyPermutes(pixels, Red);
      HalvesOf(SortByKey(pixels, Red));
    }
  }

  lemma HalvesOf(sorted: Group)
    ensures |sorted[..|sorted| / 2]| == |sorted| / 2
    ensures |sorted[|sorted| / 2..]| == |sorted| - |sorted| / 2
    ensures sorted[..|sorted| / 2] + sorted[|sorted| / 2..] == sorted
    ensures multiset(sorted[..|sorted| / 2]) + multiset(sorted[|sorted| / 2..]) == multiset(sorted)
  {
    var median := |sorted| / 2;
    assert sorted == sorted[..median] + sorted[median..];
  }

  /** A one-pixel group splits into an empty group and itself. */
  lemma SplitSinglePixel(p: HexColor)
    ensures Split([p]) == Value(([], [p]))
  {
    RedIsAlwaysTheKey([p]);
    assert SortByKey([p], Red) == [p] by {
      assert [p][..0] == [];
    }
  }

  // ---------------------------------------------------------------------------
  // average_color_from_group (lines 34-50)
  // ---------------------------------------------------------------------------

  /** The sum of one channel over a group. */
  function ChannelSum(group: Group, ch: Channel): nat
  {
    if group == [] then 0
    else ChannelSum(group[..|group| - 1], ch) + Key(group[|group| - 1], ch)
  }

  /** A channel sum is at most 255 per pixel. */
  lemma {:induction false} ChannelSumFits(group: Group, ch: Channel)
    ensures ChannelSum(group, ch) <= 255 * |group|
  {
    if group != [] {
      ChannelSumFits(group[..|group| - 1], ch);
    }
  }

  lemma MeanFits(sum: nat, n: nat)
    requires 0 < n && sum <= 255 * n
    ensures sum / n <= 255
  {
  }

  lemma FloorDivision(sum: nat, n: nat)
    requires 0 < n
    ensures n * (sum / n) <= sum < n * (sum / n + 1)
  {
  }

  /** The truncating average of one channel; it fits in `u8`, so the `as u8` cast is exact. */
  function ChannelMean(group: Group, ch: Channel): u8
    requires group != []
  {
    ChannelSumFits(group, ch);
    MeanFits(ChannelSum(group, ch), |group|);
    ChannelSum(group, ch) / |group|
  }

  /** The colour `average_color_from_group` returns for a non-empty group. */
  function MeanColor(group: Group): HexColor
    requires group != []
  {
    HexColor(ChannelMean(group, Red), ChannelMean(group, Green), ChannelMean(group, Blue))
  }

  /** `average_color_from_group`, which divides by zero on an empty group. */
  function Average(group: Group): Eval<HexColor>
  {
    if group == [] then Panic(DivideByZero) else Value(MeanColor(group))
  }

  /** `average_color_from_group`: three running sums, then a division by the length. */
  method AverageColorFromGroup(group: Group) returns (r: Eval<HexColor>)
    ensures r == Average(group)
  {
    var redSum, greenSum, blueSum := 0, 0, 0;
    for i := 0 to |group|
      invariant redSum == ChannelSum(group[..i], Red)
      invariant greenSum == ChannelSum(group[..i], Green)
      invariant blueSum == ChannelSum(group[..i], Blue)
    {
      assert group[..i + 1][..i] == group[..i];
      redSum := redSum + group[i].r;
      greenSum := greenSum + group[i].g;
      blueSum := blueSum + group[i].b;
    }
    assert group[..|group|] == group;
    if |group| == 0 {
      return Panic(DivideByZero);
    }
    ChannelSumFits(group, Red);
    ChannelSumFits(group, Green);
    ChannelSumFits(group, Blue);
    MeanFits(redSum, |group|);
    MeanFits(greenSum, |group|);
    MeanFits(blueSum, |group|);
    r := Value(HexColor(redSum / |group|, greenSum / |group|, blueSum / |group|));
  }

  lemma {:induction false} ChannelSumBelow(group: Group, ch: Channel, v: int)
    requires forall i :: 0 <= i < |group| ==> Key(group[i], ch) <= v
    ensures ChannelSum(group, ch) <= |group| * v
  {
    if group != [] {
      var init := group[..|group| - 1];
      assert forall i :: 0 <= i < |init| ==> init[i] == group[i];
      ChannelSumBelow(init, ch, v);
      assert |group| * v == |init| * v + v;
    }
  }

  lemma {:induction false} ChannelSumAbove(group: Group, ch: Channel, v: int)
    requires forall i :: 0 <= i < |group| ==> v <= Key(group[i], ch)
    ensures |group| * v <= ChannelSum(group, ch)
  {
    if group != [] {
      var init := group[..|group| - 1];
      assert forall i :: 0 <= i < |init| ==> init[i] == group[i];
      ChannelSumAbove(init, ch, v);
      assert |group| * v == |init| * v + v;
    }
  }

  /** Channel `ch` of a non-empty group's mean colour is that channel's truncating mean. */
  lemma KeyOfMeanColor(group: Group, ch: Channel)
    requires group != []
    ensures Key(MeanColor(group), ch) == ChannelMean(group, ch)
  {
  }

  lemma SomeAtMost(group: Group, ch: Channel, m: int)
    requires ChannelSum(group, ch) < |group| * (m + 1)
    ensures exists i :: 0 <= i < |group| && Key(group[i], ch) <= m
  {
    if forall i :: 0 <= i < |group| ==> Key(group[i], ch) > m {
      ChannelSumAbove(group, ch, m + 1);
    }
  }

  lemma SomeAtLeast(group: Group, ch: Channel, m: int)
    requires group != [] && |group| * m <= ChannelSum(group, ch)
    ensures exists j :: 0 <= j < |group| && m <= Key(group[j], ch)
  {
    if forall j :: 0 <= j < |group| ==> Key(group[j], ch) < m {
      ChannelSumBelow(group, ch, m - 1);
    }
  }

  /**
   * Each channel of a group's average is the floor of the channel's mean,
   * and lies between the smallest and the largest value of that channel in
   * the group.
   */
  lemma AverageIsFloorMean(group: Group, ch: Channel)
    requires group != []
    ensures var m := Key(MeanColor(group), ch);
      && |group| * m <= ChannelSum(group, ch) < |group| * (m + 1)
      && (exists i :: 0 <= i < |group| && Key(group[i], ch) <= m)
      && (exists j :: 0 <= j < |group| && m <= Key(group[j], ch))
  {
    KeyOfMeanColor(group, ch);
    var m: int := ChannelMean(group, ch);
    FloorDivision(ChannelSum(group, ch), |group|);
    SomeAtMost(group, ch, m);
    SomeAtLeast(group, ch, m);
  }

  // ---------------------------------------------------------------------------
  // median_cut (lines 5-32)
  // ---------------------------------------------------------------------------

  /** The queue's groups, front to back, laid end to end. */
  function Flatten(queue: seq<Group>): Group
  {
    if queue == [] then [] else queue[0] + Flatten(queue[1..])
  }

  /** The queue after `steps` more iterations of the `while` loop, or the panic that stops it. */
  function SplitSteps(queue: seq<Group>, steps: nat): Eval<seq<Group>>
    requires queue != []
    decreases steps
  {
    if steps == 0 then Value(queue)
    else
      match Split(queue[0])
      case Panic(c) => Panic(c)
      case Value(halves) => SplitSteps(queue[1..] + [halves.0, halves.1], steps - 1)
  }

  /** `queue.iter().map(average_color_from_group).collect()`: the first empty group panics. */
  function AverageAll(queue: seq<Group>): Eval<seq<HexColor>>
  {
    if queue == [] then Value([])
    else
      match AverageAll(queue[..|queue| - 1])
      case Panic(c) => Panic(c)
      case Value(palette) =>
        match Average(queue[|queue| - 1])
        case Panic(c) => Panic(c)
        case Value(color) => Value(palette + [color])
  }

  /** The outcome of `median_cut(pixels, k)`. */
  function MedianCutResult(pixels: Group, k: nat): Outcome<seq<HexColor>>
  {
    if pixels == [] then Err(NoDataMessage)
    else if k == 0 then Err(ZeroClustersMessage)
    else
      match SplitSteps([pixels], k - 1)
      case Panic(c) => Panicked(c)
      case Value(queue) =>
        match AverageAll(queue)
        case Panic(c) => Panicked(c)
        case Value(palette) => Ok(palette)
  }

  lemma FlattenAppend(a: seq<Group>, b: seq<Group>)
    ensures Flatten(a + b) == Flatten(a) + Flatten(b)
  {
    if a != [] {
      assert (a + b)[1..] == a[1..] + b;
      FlattenAppend(a[1..], b);
    } else {
      assert a + b == b;
    }
  }

  lemma SplitKeepsPixels(group: Group, first: Group, second: Group)
    requires Split(group) == Value((first, second))
    ensures multiset(first) + multiset(second) == multiset(group)
  {
    SplitHalves(group);
  }

  lemma RequeueKeepsPixels(rest: seq<Group>, group: Group, first: Group, second: Group)
    requires multiset(first) + multiset(second) == multiset(group)
    ensures multiset(Flatten(rest + [first, second])) == multiset(Flatten([group] + rest))
  {
    FlattenAppend(rest, [first, second]);
    assert Flatten([first, second]) == first + second by {
      assert [first, second][1..] == [second];
      assert [second][1..] == [];
      assert Flatten([second]) == second + [] == second;
    }
    assert ([group] + rest)[1..] == rest;
  }

  /** One iteration pops one group and pushes its two halves: one more group, the same pixels. */
  lemma SplitStepKeepsPixels(queue: seq<Group>, first: Group, second: Group)
    requires queue != [] && Split(queue[0]) == Value((first, second))
    ensures multiset(Flatten(queue[1..] + [first, second])) == multiset(Flatten(queue))
  {
    SplitKeepsPixels(queue[0], first, second);
    RequeueKeepsPixels(queue[1..], queue[0], first, second);
    assert queue == [queue[0]] + queue[1..];
  }

  /**
   * Running the loop: each iteration adds exactly one group, and the groups
   * always hold exactly the pixels they started with.
   */
  lemma {:induction false} SplitStepsKeepPixels(queue: seq<Group>, steps: nat)
    requires queue != [] && SplitSteps(queue, steps).Value?
    ensures |SplitSteps(queue, steps).value| == |queue| + steps
    ensures multiset(Flatten(SplitSteps(queue, steps).value)) == multiset(Flatten(queue))
    decreases steps
  {
    if steps > 0 {
      var halves := Split(queue[0]).value;
      var next := queue[1..] + [halves.0, halves.1];
      SplitStepsUnfold(queue, steps, halves.0, halves.1);
      SplitStepKeepsPixels(queue, halves.0, halves.1);
      SplitStepsKeepPixels(next, steps - 1);
    }
  }

  /** A successful averaging gives one colour per group, in queue order. */
  lemma {:induction false} AverageAllPerGroup(queue: seq<Group>)
    requires AverageAll(queue).Value?
    ensures |AverageAll(queue).value| == |queue|
    ensures forall i :: 0 <= i < |queue| ==>
      queue[i] != [] && AverageAll(queue).value[i] == MeanColor(queue[i])
  {
    if queue != [] {
      var init := queue[..|queue| - 1];
      AverageAllPerGroup(init);
      forall i | 0 <= i < |queue|
        ensures queue[i] != [] && AverageAll(queue).value[i] == MeanColor(queue[i])
      {
        if i < |init| { assert queue[i] == init[i]; }
      }
    }
  }

  /** Averaging succeeds exactly when no group is empty. */
  lemma {:induction false} AverageAllSucceeds(queue: seq<Group>)
    ensures AverageAll(queue).Value? <==> forall i :: 0 <= i < |queue| ==> queue[i] != []
  {
    if queue != [] {
      var init := queue[..|queue| - 1];
      AverageAllSucceeds(init);
      if AverageAll(queue).Value? {
        AverageAllPerGroup(queue);
      }
    }
  }

  lemma AverageAllPrefixPanics(queue: seq<Group>, i: nat)
    requires i <= |queue| && AverageAll(queue[..i]).Panic?
    ensures AverageAll(queue) == Panic(AverageAll(queue[..i]).cause)
    decreases |queue| - i
  {
    if i < |queue| {
      assert queue[..i + 1][..i] == queue[..i];
      AverageAllPrefixPanics(queue, i + 1);
    } else {
      assert queue[..i] == queue;
    }
  }

  lemma SplitStepsUnfold(queue: seq<Group>, steps: nat, first: Group, second: Group)
    requires queue != [] && 0 < steps && Split(queue[0]) == Value((first, second))
    ensures SplitSteps(queue, steps) == SplitSteps(queue[1..] + [first, second], steps - 1)
  {
  }

  lemma SplitStepsStops(queue: seq<Group>, steps: nat)
    requires queue != [] && 0 < steps && Split(queue[0]).Panic?
    ensures SplitSteps(queue, steps) == Panic(Split(queue[0]).cause)
  {
  }

  /**
   * Lines 14-24: the queue starts as the one group of all pixels; the front
   * group is split and its halves requeued until there are `k` groups.
   */
  method SplitIntoGroups(pixels: Group, k: nat) returns (r: Eval<seq<Group>>)
    requires k >= 1
    ensures r == SplitSteps([pixels], k - 1)
    ensures r.Value? ==> multiset(Flatten(r.value)) == multiset(pixels)
  {
    var queue: seq<Group> := [pixels];
    while |queue| < k
      invariant 1 <= |queue| <= k
      invariant SplitSteps(queue, k - |queue|) == SplitSteps([pixels], k - 1)
      decreases k - |queue|
    {
      var groupToSplit := queue[0];
      var rest := queue[1..];
      var halves := SplitPixelsAtMedian(groupToSplit);
      if halves.Panic? {
        SplitStepsStops(queue, k - |queue|);
        return Panic(halves.cause);
      }
      var firstHalf, secondHalf := halves.value.0, halves.value.1;
      assert Split(queue[0]) == Value((firstHalf, secondHalf));
      SplitStepsUnfold(queue, k - |queue|, firstHalf, secondHalf);
      queue := rest + [firstHalf];
      queue := queue + [secondHalf];
      assert queue == rest + [firstHalf, secondHalf];
    }
    r := Value(queue);
    SplitStepsKeepPixels([pixels], k - 1);
    assert Flatten([pixels]) == pixels + [] == pixels;
  }

  /** Lines 26-29: each group's average, front to back; an empty group panics. */
  method AverageGroups(queue: seq<Group>) returns (r: Eval<seq<HexColor>>)
    ensures r == AverageAll(queue)
  {
    var palette: seq<HexColor> := [];
    for i := 0 to |queue|
      invariant AverageAll(queue[..i]) == Value(palette)
    {
      assert queue[..i + 1][..i] == queue[..i];
      var color := AverageColorFromGroup(queue[i]);
      if color.Panic? {
        AverageAllPrefixPanics(queue, i + 1);
        return Panic(color.cause);
      }
      palette := palette + [color.value];
    }
    assert queue[..|queue|] == queue;
    r := Value(palette);
  }

  /** `median_cut`: the two checks, in this order, before any queue work. */
  method MedianCutMethod(pixels: Group, k: nat) returns (res: Outcome<seq<HexColor>>)
    ensures res == MedianCutResult(pixels, k)
  {
    if |pixels| == 0 {
      return Err(NoDataMessage);
    }
    if k == 0 {
      return Err(ZeroClustersMessage);
    }
    var queue := SplitIntoGroups(pixels, k);
    if queue.Panic? {
      return Panicked(queue.cause);
    }
    var palette := AverageGroups(queue.value);
    if palette.Panic? {
      return Panicked(palette.cause);
    }
    res := Ok(palette.value);
  }

  // ---------------------------------------------------------------------------
  // Properties of the whole run
  // ---------------------------------------------------------------------------

  /**
   * The two errors are returned only for their own conditions, empty input
   * first, and carry the fixed messages; no palette comes with an error.
   */
  lemma MedianCutErrors(pixels: Group, k: nat)
    ensures pixels == [] ==> MedianCutResult(pixels, k) == Err(NoDataMessage)
    ensures pixels != [] && k == 0 ==> MedianCutResult(pixels, k) == Err(ZeroClustersMessage)
    ensures MedianCutResult(pixels, k).Err? ==> pixels == [] || k == 0
  {
  }

  /**
   * A palette, when one is returned, has exactly `k` colours: the i-th is the
   * average of the i-th group of the final queue, every such group is
   * non-empty, and those groups hold exactly the input pixels.
   */
  lemma MedianCutPalette(pixels: Group, k: nat)
    requires MedianCutResult(pixels, k).Ok?
    ensures pixels != [] && k >= 1 && SplitSteps([pixels], k - 1).Value?
    ensures var queue := SplitSteps([pixels], k - 1).value;
      var palette := MedianCutResult(pixels, k).value;
      && |queue| == k
      && |palette| == k
      && multiset(Flatten(queue)) == multiset(pixels)
      && forall i :: 0 <= i < k ==> queue[i] != [] && palette[i] == MeanColor(queue[i])
  {
    var queue := SplitSteps([pixels], k - 1).value;
    SplitStepsKeepPixels([pixels], k - 1);
    assert Flatten([pixels]) == pixels + [] == pixels;
    AverageAllPerGroup(queue);
  }

  /** With one cluster nothing is split: the palette is the average of all pixels. */
  lemma MedianCutOneCluster(pixels: Group)
    requires pixels != []
    ensures MedianCutResult(pixels, 1) == Ok([MeanColor(pixels)])
  {
    assert SplitSteps([pixels], 0) == Value([pixels]);
    assert [pixels][..0] == [];
    assert AverageAll([pixels]) == Value([] + [MeanColor(pixels)]);
    assert [] + [MeanColor(pixels)] == [MeanColor(pixels)];
  }

  lemma OrderedByRed(s: Group)
    requires forall i :: 0 < i < |s| ==> s[i - 1].r <= s[i].r
    ensures SortedBy(s, Red)
  {
    forall i, j | 0 <= i < j < |s| ensures s[i].r <= s[j].r {
      var m := i;
      while m < j
        invariant i <= m <= j && s[i].r <= s[m].r
      {
        m := m + 1;
      }
    }
  }

  lemma MeanOfTwoCopies(c: HexColor)
    ensures MeanColor([c, c]) == c
  {
    assert [c, c][..1] == [c] && [c][..0] == [];
    forall ch: Channel ensures ChannelSum([c, c], ch) == 2 * Key(c, ch) {
      assert ChannelSum([c], ch) == ChannelSum([], ch) + Key(c, ch);
      assert ChannelSum([c, c], ch) == ChannelSum([c], ch) + Key(c, ch);
    }
  }

  /** Two black and two white pixels, two clusters: black, then white. */
  lemma BlackAndWhite()
    ensures var black, white := HexColor(0, 0, 0), HexColor(255, 255, 255);
      MedianCutResult([black, black, white, white], 2) == Ok([black, white])
  {
    var black, white := HexColor(0, 0, 0), HexColor(255, 255, 255);
    var pixels := [black, black, white, white];
    OrderedByRed(pixels);
    SortByKeyOfSorted(pixels, Red);
    SplitNonEmpty(pixels);
    assert pixels[..2] == [black, black] && pixels[2..] == [white, white];
    assert Split(pixels) == Value(([black, black], [white, white]));
    var queue := [[black, black], [white, white]];
    assert SplitSteps([pixels], 1) == Value(queue) by {
      assert [pixels][1..] + [[black, black], [white, white]] == queue;
    }
    assert queue[..1] == [[black, black]] && queue[..1][..0] == [];
    MeanOfTwoCopies(black);
    MeanOfTwoCopies(white);
    assert queue[..1][..0] == [];
    assert Average([black, black]) == Value(black);
    assert Average([white, white]) == Value(white);
    assert AverageAll(queue[..1]) == Value([] + [black]);
    assert [] + [black] == [black];
    assert queue[..|queue| - 1] == queue[..1];
    assert AverageAll(queue) == Value([black] + [white]);
    assert [black] + [white] == [black, white];
    assert MedianCutResult(pixels, 2) == Ok([black, white]);
  }

  /** A single pixel with one cluster gives back that pixel. */
  lemma SinglePixelOneCluster()
    ensures MedianCutResult([HexColor(10, 20, 30)], 1) == Ok([HexColor(10, 20, 30)])
  {
    MedianCutOneCluster([HexColor(10, 20, 30)]);
  }

  /**
   * Three pixels, three clusters: the one-pixel first half is split into an
   * empty group and itself, the final queue is `[[y, z], [], [x]]`, and
   * averaging the empty group divides by zero.
   */
  lemma ThreePixelsThreeClusters(x: HexColor, y: HexColor, z: HexColor)
    requires x.r <= y.r <= z.r
    ensures SplitSteps([[x, y, z]], 2) == Value([[y, z], [], [x]])
    ensures MedianCutResult([x, y, z], 3) == Panicked(DivideByZero)
  {
    OrderedByRed([x, y, z]);
    SortByKeyOfSorted([x, y, z], Red);
    SplitNonEmpty([x, y, z]);
    assert [x, y, z][..1] == [x] && [x, y, z][1..] == [y, z];
    assert Split([x, y, z]) == Value(([x], [y, z]));
    assert [[x, y, z]][1..] + [[x], [y, z]] == [[x], [y, z]];
    SplitSinglePixel(x);
    assert [[x], [y, z]][1..] + [[], [x]] == [[y, z], [], [x]];
    var queue := [[y, z], [], [x]];
    assert queue[..2][..1] == [[y, z]] && queue[..2] == [[y, z], []];
    assert [[y, z]][..0] == [];
    assert AverageAll([[y, z]]).Value?;
    assert AverageAll([[y, z], []]) == Panic(DivideByZero);
    AverageAllPrefixPanics(queue, 2);
  }

  /** One pixel cannot make two clusters: the empty first half reaches the averaging. */
  lemma SinglePixelTwoClusters(p: HexColor)
    ensures MedianCutResult([p], 2) == Panicked(DivideByZero)
  {
    SplitSinglePixel(p);
    assert [[p]][1..] + [[], [p]] == [[], [p]];
    AverageAllPrefixPanics([[], [p]], 1);
  }

  /** With three clusters the empty group is itself split, and `0 - 255` overflows. */
  lemma SinglePixelThreeClusters(p: HexColor)
    ensures MedianCutResult([p], 3) == Panicked(SubtractOverflow)
  {
    SplitSinglePixel(p);
    assert [[p]][1..] + [[], [p]] == [[], [p]];
    SplitHalves([]);
  }
}
