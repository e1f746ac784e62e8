/**
 * When `median_cut` returns `k` colours.
 *
 * The queue splits groups breadth first: after 2^d - 1 iterations it holds
 * the 2^d groups of depth d, and the front group of every depth is the
 * smallest, of size n / 2^d. Halving a one-pixel group leaves an empty
 * group in the queue, and an empty group can only be removed by splitting it,
 * which panics. Hence a run on n pixels returns `Ok` exactly when n is at
 * least the smallest power of two that is at least k.
 */
module MedianCutCapacity {
  import opened Colors
  import opened MedianCut

  // ---------------------------------------------------------------------------
  // Powers of two
  // ---------------------------------------------------------------------------

  function Pow2(e: nat): (p: nat)
    ensures p >= 1
  {
    if e == 0 then 1 else 2 * Pow2(e - 1)
  }

  /** The least `e` with `k <= 2^e`. */
  function CeilLog2(k: nat): nat
  {
    if k <= 1 then 0 else 1 + CeilLog2((k + 1) / 2)
  }

  /** The greatest `e` with `2^e <= n`, for `n >= 1`. */
  function FloorLog2(n: nat): nat
  {
    if n <= 1 then 0 else 1 + FloorLog2(n / 2)
  }

  lemma {:induction false} CeilLog2Bounds(k: nat)
    ensures k <= Pow2(CeilLog2(k))
    ensures k >= 2 ==> CeilLog2(k) >= 1 && Pow2(CeilLog2(k) - 1) < k
  {
    if k >= 2 {
      var h := (k + 1) / 2;
      CeilLog2Bounds(h);
      if h >= 2 {
        assert Pow2(CeilLog2(h) - 1) <= h - 1;
      }
    }
  }

  lemma {:induction false} FloorLog2Bounds(n: nat)
    requires n >= 1
    ensures Pow2(FloorLog2(n)) <= n < Pow2(FloorLog2(n) + 1)
  {
    if n >= 2 {
      FloorLog2Bounds(n / 2);
    }
  }

  lemma {:induction false} Pow2Monotone(a: nat, b: nat)
    requires a <= b
    ensures Pow2(a) <= Pow2(b)
    decreases b
  {
    if a < b {
      Pow2Monotone(a, b - 1);
    }
  }

  lemma Pow2StrictOrder(a: nat, b: nat)
    ensures Pow2(a) < Pow2(b) ==> a < b
  {
    if b <= a {
      Pow2Monotone(b, a);
    }
  }

  /** Halving twice is dividing by the product. */
  lemma HalfOfQuotient(n: nat, a: nat)
    requires a > 0
    ensures (n / a) / 2 == n / (2 * a)
  {
    var q, r := n / a, n % a;
    assert n == a * q + r;
    var h, s := q / 2, q % 2;
    assert q == 2 * h + s;
    assert n == (2 * a) * h + (a * s + r) by {
      assert a * q == a * (2 * h) + a * s;
    }
    assert 0 <= a * s + r < 2 * a;
    DivisionOf(n, 2 * a, h, a * s + r);
  }

  lemma DivisionOf(n: nat, d: nat, q: nat, r: nat)
    requires d > 0 && n == d * q + r && r < d
    ensures n / d == q
  {
    var q2, r2 := n / d, n % d;
    assert n == d * q2 + r2;
    assert d * (q2 - q) == r - r2 by {
      assert d * (q2 - q) == d * q2 - d * q;
    }
    if q2 > q {
      AtLeastOnce(d, q2 - q);
    } else if q2 < q {
      AtLeastOnce(d, q - q2);
    }
  }

  lemma AtLeastOnce(d: nat, m: nat)
    requires m >= 1
    ensures d * m >= d
  {
    assert d * m == d + d * (m - 1);
  }

  // ---------------------------------------------------------------------------
  // How the queue evolves
  // ---------------------------------------------------------------------------

  /** Only the sizes of the halves matter here. */
  lemma SplitSizes(group: Group)
    ensures group == [] <==> Split(group).Panic?
    ensures Split(group).Value? ==>
      |Split(group).value.0| == |group| / 2 && |Split(group).value.1| == |group| - |group| / 2
  {
    SplitHalves(group);
  }

  /** Running `a` iterations and then `b` more is running `a + b`. */
  lemma {:induction false} SplitStepsCompose(queue: seq<Group>, a: nat, b: nat)
    requires queue != []
    ensures SplitSteps(queue, a).Panic? ==> SplitSteps(queue, a + b) == SplitSteps(queue, a)
    ensures SplitSteps(queue, a).Value? ==>
      SplitSteps(queue, a).value != []
      && SplitSteps(queue, a + b) == SplitSteps(SplitSteps(queue, a).value, b)
    decreases a
  {
    if a > 0 {
      match Split(queue[0])
      case Panic(_) =>
        SplitStepsStops(queue, a);
        SplitStepsStops(queue, a + b);
      case Value(halves) =>
        var next := queue[1..] + [halves.0, halves.1];
        SplitStepsUnfold(queue, a, halves.0, halves.1);
        SplitStepsUnfold(queue, a + b, halves.0, halves.1);
        assert a + b - 1 == (a - 1) + b;
        SplitStepsCompose(next, a - 1, b);
    }
  }

  /** A group behind the first `s` is still queued after `s` iterations, `s` places further forward. */
  lemma {:induction false} Survives(queue: seq<Group>, s: nat, i: nat)
    requires queue != [] && s <= i < |queue| && SplitSteps(queue, s).Value?
    ensures i - s < |SplitSteps(queue, s).value|
    ensures SplitSteps(queue, s).value[i - s] == queue[i]
    decreases s
  {
    if s > 0 {
      var halves := Split(queue[0]).value;
      var next := queue[1..] + [halves.0, halves.1];
      SplitStepsUnfold(queue, s, halves.0, halves.1);
      assert next[i - 1] == queue[i];
      Survives(next, s - 1, i - 1);
    }
  }

  /**
   * After `s` iterations, with `1 <= s <= |queue|`, the first half of the
   * front group sits at index `|queue| - s`.
   */
  lemma FirstHalfPosition(queue: seq<Group>, s: nat)
    requires queue != [] && 1 <= s <= |queue| && SplitSteps(queue, s).Value?
    ensures Split(queue[0]).Value?
    ensures |queue| - s < |SplitSteps(queue, s).value|
    ensures SplitSteps(queue, s).value[|queue| - s] == Split(queue[0]).value.0
  {
    var halves := Split(queue[0]).value;
    var next := queue[1..] + [halves.0, halves.1];
    SplitStepsUnfold(queue, s, halves.0, halves.1);
    Survives(next, s - 1, |queue| - 1);
  }

  /** An empty group is never removed without a panic: it is split (and panics) or is still queued. */
  lemma {:induction false} EmptyGroupPersists(queue: seq<Group>, s: nat, i: nat)
    requires queue != [] && i < |queue| && queue[i] == [] && SplitSteps(queue, s).Value?
    ensures [] in SplitSteps(queue, s).value
    decreases s
  {
    if s > 0 {
      SplitSizes(queue[0]);
      assert i != 0;
      var halves := Split(queue[0]).value;
      var next := queue[1..] + [halves.0, halves.1];
      SplitStepsUnfold(queue, s, halves.0, halves.1);
      assert next[i - 1] == [];
      EmptyGroupPersists(next, s - 1, i - 1);
    }
  }

  /**
   * If the first `s` groups have at least `2 * low` pixels and the others at
   * least `low`, then `s` iterations succeed and leave only groups of at
   * least `low` pixels.
   */
  lemma {:induction false} SplitsStayAbove(queue: seq<Group>, s: nat, low: nat)
    requires queue != [] && low >= 1 && s <= |queue|
    requires forall i :: 0 <= i < s ==> |queue[i]| >= 2 * low
    requires forall i :: s <= i < |queue| ==> |queue[i]| >= low
    ensures SplitSteps(queue, s).Value?
    ensures |SplitSteps(queue, s).value| == |queue| + s
    ensures forall i :: 0 <= i < |SplitSteps(queue, s).value| ==> |SplitSteps(queue, s).value[i]| >= low
    decreases s
  {
    if s > 0 {
      SplitSizes(queue[0]);
      var halves := Split(queue[0]).value;
      var next := queue[1..] + [halves.0, halves.1];
      SplitStepsUnfold(queue, s, halves.0, halves.1);
      forall i | 0 <= i < s - 1
        ensures |next[i]| >= 2 * low
      {
        assert next[i] == queue[i + 1];
      }
      forall i | s - 1 <= i < |next|
        ensures |next[i]| >= low
      {
        if i < |queue| - 1 {
          assert next[i] == queue[i + 1];
        }
      }
      SplitsStayAbove(next, s - 1, low);
    }
  }

  // ---------------------------------------------------------------------------
  // Depth by depth
  // ---------------------------------------------------------------------------

  /** The queue after the splits of every depth below `d`: the 2^d groups of depth d. */
  function DepthSteps(d: nat): nat
  {
    Pow2(d) - 1
  }

  lemma DepthStepsNext(d: nat)
    ensures DepthSteps(d + 1) == DepthSteps(d) + Pow2(d)
  {
  }

  /** With at least `2^d * low` pixels, every group of depth d holds at least `low` of them. */
  lemma {:induction false} DepthGroupsAbove(pixels: Group, d: nat, low: nat)
    requires low >= 1 && |pixels| >= Pow2(d) * low
    ensures SplitSteps([pixels], DepthSteps(d)).Value?
    ensures |SplitSteps([pixels], DepthSteps(d)).value| == Pow2(d)
    ensures forall i :: 0 <= i < Pow2(d) ==> |SplitSteps([pixels], DepthSteps(d)).value[i]| >= low
  {
    if d == 0 {
      assert SplitSteps([pixels], 0) == Value([pixels]);
    } else {
      var e := d - 1;
      assert Pow2(e) * (2 * low) == Pow2(d) * low;
      DepthGroupsAbove(pixels, e, 2 * low);
      var level := SplitSteps([pixels], DepthSteps(e)).value;
      SplitsStayAbove(level, Pow2(e), low);
      DepthStepsNext(e);
      SplitStepsCompose([pixels], DepthSteps(e), Pow2(e));
    }
  }

  /** The front group of depth d holds exactly `n / 2^d` pixels. */
  lemma {:induction false} FrontGroupSize(pixels: Group, d: nat)
    requires pixels != [] && SplitSteps([pixels], DepthSteps(d)).Value?
    ensures |SplitSteps([pixels], DepthSteps(d)).value| == Pow2(d)
    ensures |SplitSteps([pixels], DepthSteps(d)).value[0]| == |pixels| / Pow2(d)
  {
    if d == 0 {
      assert SplitSteps([pixels], 0) == Value([pixels]);
    } else {
      var e := d - 1;
      DepthStepsNext(e);
      SplitStepsCompose([pixels], DepthSteps(e), Pow2(e));
      FrontGroupSize(pixels, e);
      var level := SplitSteps([pixels], DepthSteps(e)).value;
      FirstHalfPosition(level, Pow2(e));
      SplitSizes(level[0]);
      SplitStepsKeepPixels(level, Pow2(e));
      HalfOfQuotient(|pixels|, Pow2(e));
    }
  }

  // ---------------------------------------------------------------------------
  // The capacity theorem
  // ---------------------------------------------------------------------------

  /** With at least 2^ceil(log2 k) pixels no group is ever empty, and the run returns `Ok`. */
  lemma EnoughPixelsSucceed(pixels: Group, k: nat)
    requires k >= 1 && Pow2(CeilLog2(k)) <= |pixels|
    ensures MedianCutResult(pixels, k).Ok?
  {
    if k == 1 {
      MedianCutOneCluster(pixels);
    } else {
      CeilLog2Bounds(k);
      var e := CeilLog2(k) - 1;
      assert Pow2(e + 1) == Pow2(e) * 2;
      DepthGroupsAbove(pixels, e, 2);
      var level := SplitSteps([pixels], DepthSteps(e)).value;
      var s := k - Pow2(e);
      SplitsStayAbove(level, s, 1);
      SplitStepsCompose([pixels], DepthSteps(e), s);
      assert DepthSteps(e) + s == k - 1;
      AverageAllSucceeds(SplitSteps([pixels], k - 1).value);
    }
  }

  /** The depth whose front group is a single pixel still has to be split. */
  lemma SingleFrontDepth(n: nat, k: nat)
    requires 1 <= n < Pow2(CeilLog2(k)) && k >= 1
    ensures Pow2(FloorLog2(n)) < k
    ensures n / Pow2(FloorLog2(n)) == 1
  {
    var top, j := CeilLog2(k), FloorLog2(n);
    CeilLog2Bounds(k);
    FloorLog2Bounds(n);
    Pow2StrictOrder(j, top);
    Pow2Monotone(j, top - 1);
    DivisionOf(n, Pow2(j), 1, n - Pow2(j));
  }

  /** A run whose final queue, if it is reached, holds an empty group panics. */
  lemma EmptyGroupMeansPanic(pixels: Group, k: nat)
    requires pixels != [] && k >= 1
    requires SplitSteps([pixels], k - 1).Value? ==> [] in SplitSteps([pixels], k - 1).value
    ensures MedianCutResult(pixels, k).Panicked?
  {
    if SplitSteps([pixels], k - 1).Value? {
      AverageAllSucceeds(SplitSteps([pixels], k - 1).value);
    }
  }

  /**
   * With fewer pixels the front group of some depth holds a single pixel
   * while the loop still has to split it; its empty half makes the run panic.
   */
  lemma TooFewPixelsPanic(pixels: Group, k: nat)
    requires pixels != [] && k >= 1 && |pixels| < Pow2(CeilLog2(k))
    ensures MedianCutResult(pixels, k).Panicked?
  {
    var j := FloorLog2(|pixels|);
    SingleFrontDepth(|pixels|, k);
    var b := k - Pow2(j);
    SplitStepsCompose([pixels], DepthSteps(j), b);
    assert DepthSteps(j) + b == k - 1;
    if SplitSteps([pixels], DepthSteps(j)).Value? {
      var level := SplitSteps([pixels], DepthSteps(j)).value;
      FrontGroupSize(pixels, j);
      SinglePixelFront(level, b);
    }
    EmptyGroupMeansPanic(pixels, k);
  }

  /** A queue whose front group holds one pixel leaves an empty group once that group is split. */
  lemma SinglePixelFront(level: seq<Group>, b: nat)
    requires level != [] && |level[0]| == 1 && b >= 1
    ensures SplitSteps(level, b).Value? ==> [] in SplitSteps(level, b).value
  {
    SplitSizes(level[0]);
    var halves := Split(level[0]).value;
    var next := level[1..] + [halves.0, halves.1];
    SplitStepsUnfold(level, b, halves.0, halves.1);
    assert next[|level| - 1] == [];
    if SplitSteps(next, b - 1).Value? {
      EmptyGroupPersists(next, b - 1, |level| - 1);
    }
  }

  /**
   * `median_cut` on a non-empty input with `k >= 1` returns its `k` colours
   * exactly when there are at least as many pixels as the smallest power of
   * two that is at least `k`; otherwise it panics.
   */
  lemma MedianCutSucceedsIff(pixels: Group, k: nat)
    requires pixels != [] && k >= 1
    ensures MedianCutResult(pixels, k).Ok? <==> Pow2(CeilLog2(k)) <= |pixels|
    ensures MedianCutResult(pixels, k).Ok? || MedianCutResult(pixels, k).Panicked?
  {
    if Pow2(CeilLog2(k)) <= |pixels| {
      EnoughPixelsSucceed(pixels, k);
    } else {
      TooFewPixelsPanic(pixels, k);
    }
  }
}
