/** The stacked usage chart: folding small models into "Other", and stacking rectangles in columns. */
module StackedChart {
  import opened Basics

  const STACK_MAX := 7
  const WIDTH := 300.0
  const PAD := 4.0

  /** One time bucket: the metric of each model that has one. */
  type Point = map<string, real>

  datatype Key = Model(model: string) | Other(rest: seq<string>)

  function StackKeys(models: seq<string>): seq<Key> {
    var top := Take(models, STACK_MAX);
    seq(|top|, i requires 0 <= i < |top| => Model(top[i]))
      + if |models| > |top| then [Other(models[|top|..])] else []
  }

  function Metric(point: Point, model: string): real {
    if model in point then point[model] else 0.0
  }

  /** The sum over some models; one without the metric adds nothing. */
  function Total(point: Point, models: seq<string>): real {
    if models == [] then 0.0 else
    var model := models[|models| - 1];
    Total(point, models[..|models| - 1]) + if model in point then point[model] else 0.0
  }

  function StackValue(point: Point, key: Key): real {
    match key
    case Model(model) => Metric(point, model)
    case Other(rest) => Total(point, rest)
  }

  function KeyTotal(point: Point, keys: seq<Key>): real {
    if keys == [] then 0.0 else KeyTotal(point, keys[..|keys| - 1]) + StackValue(point, keys[|keys| - 1])
  }

  lemma {:induction false} TotalSplits(point: Point, a: seq<string>, b: seq<string>)
    ensures Total(point, a + b) == Total(point, a) + Total(point, b)
  {
    if b == [] {
      assert a + b == a;
    } else {
      TotalSplits(point, a, b[..|b| - 1]);
      assert (a + b)[..|a + b| - 1] == a + b[..|b| - 1];
    }
  }

  lemma {:induction false} OwnBands(point: Point, top: seq<string>)
    ensures KeyTotal(point, seq(|top|, i requires 0 <= i < |top| => Model(top[i]))) == Total(point, top)
  {
    if top != [] {
      var front := top[..|top| - 1];
      OwnBands(point, front);
      assert seq(|top|, i requires 0 <= i < |top| => Model(top[i]))[..|top| - 1] ==
             seq(|front|, i requires 0 <= i < |front| => Model(front[i]));
    }
  }

  /** The bands of a bucket sum to the sum over every listed model, whatever the list and the values are. */
  lemma BandsConserveTotals(point: Point, models: seq<string>)
    ensures KeyTotal(point, StackKeys(models)) == Total(point, models)
  {
    var top := Take(models, STACK_MAX);
    var own := seq(|top|, i requires 0 <= i < |top| => Model(top[i]));
    OwnBands(point, top);
    assert top + models[|top|..] == models;
    TotalSplits(point, top, models[|top|..]);
    if |models| > |top| {
      assert StackKeys(models)[..|StackKeys(models)| - 1] == own;
    } else {
      assert StackKeys(models) == own;
    }
  }

  /** The first seven models have bands of their own, in order, and all others share one more. */
  lemma BandsOf(models: seq<string>)
    ensures |StackKeys(models)| == if |models| <= 7 then |models| else 8
    ensures forall i :: 0 <= i < |models| && i < 7 ==> StackKeys(models)[i] == Model(models[i])
    ensures |models| > 7 ==> StackKeys(models)[7] == Other(models[7..])
  {
  }

  // ---- Columns -------------------------------------------------------------------------------------------

  datatype Rect = Rect(key: nat, bucket: nat, x: real, y: real, width: real, height: real)

  function Max(a: real, b: real): real {
    if a >= b then a else b
  }

  const TINY := 0.000000001

  /** `Math.max(1e-9, ...totals)` over the first `n` buckets. */
  function Peak(series: seq<Point>, keys: seq<Key>, n: nat): (m: real)
    requires n <= |series|
    ensures m >= TINY
    ensures forall i :: 0 <= i < n ==> KeyTotal(series[i], keys) <= m
  {
    if n == 0 then TINY else Max(Peak(series, keys, n - 1), KeyTotal(series[n - 1], keys))
  }

  function Level(value: real, peak: real, height: real): real
    requires peak > 0.0
  {
    height - PAD - value / peak * (height - PAD * 2.0)
  }

  function BarStep(n: nat): real
    requires n > 0
  {
    WIDTH / n as real
  }

  function BarWidth(n: nat): real
    requires n > 0
  {
    var step := BarStep(n);
    Max(1.0, step - if step * 0.2 < 2.0 then step * 0.2 else 2.0)
  }

  function BarLeft(n: nat, i: nat): real
    requires n > 0
  {
    i as real * BarStep(n) + (BarStep(n) - BarWidth(n)) / 2.0
  }

  /** The positive values of the first `k` keys in one bucket. */
  function Running(point: Point, keys: seq<Key>, k: nat): real
    requires k <= |keys|
  {
    if k == 0 then 0.0
    else Running(point, keys, k - 1) + Max(0.0, StackValue(point, keys[k - 1]))
  }

  function RectOf(series: seq<Point>, keys: seq<Key>, height: real, k: nat, i: nat): Rect
    requires k < |keys| && i < |series|
  {
    var peak := Peak(series, keys, |series|);
    var bottom := Level(Running(series[i], keys, k), peak, height);
    var top := Level(Running(series[i], keys, k + 1), peak, height);
    Rect(k, i, BarLeft(|series|, i), top, BarWidth(|series|), bottom - top)
  }

  /** Key by key, and within a key bucket by bucket: the rectangles up to bucket `i` of key `k`. */
  function Rects(series: seq<Point>, keys: seq<Key>, height: real, k: nat, i: nat): seq<Rect>
    requires k <= |keys| && i <= |series| && (k == |keys| ==> i == 0)
    decreases k, i
  {
    if i > 0 then
      Rects(series, keys, height, k, i - 1)
        + if StackValue(series[i - 1], keys[k]) > 0.0 then [RectOf(series, keys, height, k, i - 1)] else []
    else if k > 0 then Rects(series, keys, height, k - 1, |series|)
    else []
  }

  /** The two loops of `stackedColumns`; an empty chart has no rectangles. */
  method StackedColumns(series: seq<Point>, keys: seq<Key>, height: real) returns (columns: seq<Rect>)
    ensures columns == Rects(series, keys, height, |keys|, 0)
  {
    hide Level, StackValue, Peak, BarWidth, BarStep, KeyTotal, Running, Rects, RectOf;
    var n := |series|;
    columns := [];
    if n == 0 || keys == [] {
      EmptyChart(series, keys, height, |keys|);
      return;
    }
    var peak := Peak(series, keys, n);
    var step, width := BarStep(n), BarWidth(n);
    var running := new real[n](_ => 0.0);
    RunningStart(series, keys);
    NoRects(series, keys, height);
    for k := 0 to |keys|
      invariant columns == Rects(series, keys, height, k, 0)
      invariant forall i :: 0 <= i < n ==> running[i] == Running(series[i], keys, k)
    {
      for i := 0 to n
        invariant columns == Rects(series, keys, height, k, i)
        invariant forall j :: 0 <= j < i ==> running[j] == Running(series[j], keys, k + 1)
        invariant forall j :: i <= j < n ==> running[j] == Running(series[j], keys, k)
      {
        var value := StackValue(series[i], keys[k]);
        RunningNext(series[i], keys, k);
        RectsNext(series, keys, height, k, i);
        if value <= 0.0 {
          continue;
        }
        var bottom := Level(running[i], peak, height);
        running[i] := running[i] + value;
        var top := Level(running[i], peak, height);
        var rect := Rect(k, i, i as real * step + (step - width) / 2.0, top, width, bottom - top);
        RectIs(series, keys, height, k, i);
        assert rect == RectOf(series, keys, height, k, i);
        columns := columns + [rect];
      }
      RectsRow(series, keys, height, k);
    }
  }

  lemma NoRects(series: seq<Point>, keys: seq<Key>, height: real)
    ensures Rects(series, keys, height, 0, 0) == []
  {
  }

  lemma RectsNext(series: seq<Point>, keys: seq<Key>, height: real, k: nat, i: nat)
    requires k < |keys| && i < |series|
    ensures Rects(series, keys, height, k, i + 1)
         == Rects(series, keys, height, k, i) + if StackValue(series[i], keys[k]) > 0.0 then [RectOf(series, keys, height, k, i)] else []
  {
    hide StackValue, RectOf;
  }

  lemma RectsRow(series: seq<Point>, keys: seq<Key>, height: real, k: nat)
    requires k < |keys|
    ensures Rects(series, keys, height, k + 1, 0) == Rects(series, keys, height, k, |series|)
  {
  }

  lemma RectIs(series: seq<Point>, keys: seq<Key>, height: real, k: nat, i: nat)
    requires k < |keys| && i < |series|
    ensures var step, width, peak := BarStep(|series|), BarWidth(|series|), Peak(series, keys, |series|);
      var bottom := Level(Running(series[i], keys, k), peak, height);
      var top := Level(Running(series[i], keys, k + 1), peak, height);
      RectOf(series, keys, height, k, i) == Rect(k, i, i as real * step + (step - width) / 2.0, top, width, bottom - top)
  {
    hide BarStep, BarWidth, Level, Running, Peak;
  }

  lemma RunningStart(series: seq<Point>, keys: seq<Key>)
    ensures forall i :: 0 <= i < |series| ==> Running(series[i], keys, 0) == 0.0
  {
  }

  lemma RunningNext(point: Point, keys: seq<Key>, k: nat)
    requires k < |keys|
    ensures Running(point, keys, k + 1) == Running(point, keys, k) + Max(0.0, StackValue(point, keys[k]))
  {
  }

  lemma {:induction false} EmptyChart(series: seq<Point>, keys: seq<Key>, height: real, k: nat)
    requires k <= |keys| && (series == [] || keys == [])
    ensures Rects(series, keys, height, k, 0) == []
  {
    if k > 0 {
      EmptyChart(series, keys, height, k - 1);
    }
  }

  /** The drawn rectangles are exactly those of the positive values. */
  lemma {:induction false} DrawnExactly(series: seq<Point>, keys: seq<Key>, height: real, k: nat, i: nat, rect: Rect)
    requires k <= |keys| && i <= |series| && (k == |keys| ==> i == 0)
    ensures rect in Rects(series, keys, height, k, i) <==>
      && rect.key < |keys| && rect.bucket < |series| && (rect.key < k || (rect.key == k && rect.bucket < i))
      && StackValue(series[rect.bucket], keys[rect.key]) > 0.0
      && rect == RectOf(series, keys, height, rect.key, rect.bucket)
    decreases k, i
  {
    hide StackValue, Peak, BarLeft, BarWidth, Level;
    if i > 0 {
      DrawnExactly(series, keys, height, k, i - 1, rect);
    } else if k > 0 {
      DrawnExactly(series, keys, height, k - 1, |series|, rect);
    }
  }

  // ---- Geometry ------------------------------------------------------------------------------------------

  ghost predicate NonNegative(point: Point) {
    forall model :: model in point ==> point[model] >= 0.0
  }

  lemma {:induction false} TotalNonNegative(point: Point, models: seq<string>)
    requires NonNegative(point)
    ensures Total(point, models) >= 0.0
  {
    if models != [] {
      TotalNonNegative(point, models[..|models| - 1]);
    }
  }

  lemma ValueNonNegative(point: Point, key: Key)
    requires NonNegative(point)
    ensures StackValue(point, key) >= 0.0
  {
    if key.Other? {
      TotalNonNegative(point, key.rest);
    }
  }

  lemma {:induction false} RunningIsTotal(point: Point, keys: seq<Key>, k: nat)
    requires NonNegative(point) && k <= |keys|
    ensures Running(point, keys, k) == KeyTotal(point, keys[..k])
  {
    hide StackValue;
    if k > 0 {
      RunningIsTotal(point, keys, k - 1);
      ValueNonNegative(point, keys[k - 1]);
      assert keys[..k][..k - 1] == keys[..k - 1];
    }
  }

  lemma {:induction false} RunningGrows(point: Point, keys: seq<Key>, k: nat, l: nat)
    requires k <= l <= |keys|
    ensures 0.0 <= Running(point, keys, k) <= Running(point, keys, l)
    ensures (forall m :: k <= m < l ==> StackValue(point, keys[m]) <= 0.0) ==> Running(point, keys, k) == Running(point, keys, l)
    decreases l
  {
    hide StackValue;
    if k < l {
      RunningGrows(point, keys, k, l - 1);
    } else if k > 0 {
      RunningGrows(point, keys, k - 1, k - 1);
    }
  }

  lemma LevelMonotone(a: real, b: real, peak: real, height: real)
    requires peak > 0.0 && height >= PAD * 2.0 && 0.0 <= a <= b <= peak
    ensures PAD <= Level(b, peak, height) <= Level(a, peak, height) <= height - PAD
    ensures a < b && height > PAD * 2.0 ==> Level(b, peak, height) < Level(a, peak, height)
  {
    var room := height - PAD * 2.0;
    var x, y := a / peak, b / peak;
    DivideOrder(a, b, peak);
    assert 0.0 <= x <= y <= 1.0;
    assert x * room <= y * room <= room;
    assert x * room >= 0.0;
    if a < b && room > 0.0 {
      assert x < y;
      assert x * room < y * room;
    }
  }

  lemma DivideOrder(a: real, b: real, peak: real)
    requires peak > 0.0 && 0.0 <= a <= b <= peak
    ensures 0.0 <= a / peak <= b / peak <= 1.0
    ensures a < b ==> a / peak < b / peak
  {
    var x, y := a / peak, b / peak;
    assert x * peak == a && y * peak == b;
  }

  /** For non-negative values every rectangle stays within the padded height, and one with nothing drawn below it
      stands on the baseline; so does the only band of a chart with a single key. */
  lemma BandInside(series: seq<Point>, keys: seq<Key>, height: real, i: nat, k: nat)
    requires i < |series| && k < |keys| && NonNegative(series[i]) && height >= PAD * 2.0
    ensures var rect := RectOf(series, keys, height, k, i);
      && PAD <= rect.y && rect.height >= 0.0 && rect.y + rect.height <= height - PAD
      && (StackValue(series[i], keys[k]) > 0.0 && height > PAD * 2.0 ==> rect.height > 0.0)
      && ((forall m :: 0 <= m < k ==> StackValue(series[i], keys[m]) <= 0.0) ==> rect.y + rect.height == height - PAD)
  {
    hide StackValue, Level, Running, Peak;
    var point, peak := series[i], Peak(series, keys, |series|);
    BelowPeak(series, keys, i);
    RunningGrows(point, keys, 0, k);
    RunningGrows(point, keys, k, k + 1);
    RunningGrows(point, keys, k + 1, |keys|);
    RunningNext(point, keys, k);
    LevelMonotone(Running(point, keys, k), Running(point, keys, k + 1), peak, height);
    Baseline(point, keys, peak, height);
  }

  /** In one bucket each rectangle ends at or below where a later key's begins, and neighbours, with nothing
      drawn between them, share their edge: no gap and no overlap. */
  lemma ColumnsStack(series: seq<Point>, keys: seq<Key>, height: real, i: nat, k: nat, l: nat)
    requires i < |series| && k < l < |keys| && NonNegative(series[i]) && height >= PAD * 2.0
    ensures var lower, upper := RectOf(series, keys, height, k, i), RectOf(series, keys, height, l, i);
      && PAD <= upper.y && upper.height >= 0.0 && upper.y + upper.height <= lower.y
      && PAD <= lower.y && lower.height >= 0.0 && lower.y + lower.height <= height - PAD
      && ((forall m :: 0 <= m < k ==> StackValue(series[i], keys[m]) <= 0.0) ==> lower.y + lower.height == height - PAD)
      && ((forall m :: k < m < l ==> StackValue(series[i], keys[m]) <= 0.0) ==> upper.y + upper.height == lower.y)
  {
    hide StackValue, Level, Running, Peak;
    var point, peak := series[i], Peak(series, keys, |series|);
    BandInside(series, keys, height, i, k);
    BandInside(series, keys, height, i, l);
    BelowPeak(series, keys, i);
    RunningGrows(point, keys, 0, k + 1);
    RunningGrows(point, keys, k + 1, l);
    RunningGrows(point, keys, l, |keys|);
    LevelMonotone(Running(point, keys, k + 1), Running(point, keys, l), peak, height);
  }

  lemma Baseline(point: Point, keys: seq<Key>, peak: real, height: real)
    requires peak > 0.0
    ensures Level(Running(point, keys, 0), peak, height) == height - PAD
  {
  }

  lemma BelowPeak(series: seq<Point>, keys: seq<Key>, i: nat)
    requires i < |series| && NonNegative(series[i])
    ensures Running(series[i], keys, |keys|) <= Peak(series, keys, |series|)
  {
    RunningIsTotal(series[i], keys, |keys|);
    assert keys[..|keys|] == keys;
  }

  /** The peak is the largest total of a bucket, or a billionth when all are smaller. */
  lemma {:induction false} PeakIsLargest(series: seq<Point>, keys: seq<Key>, n: nat)
    requires n <= |series|
    ensures forall i :: 0 <= i < n ==> KeyTotal(series[i], keys) <= Peak(series, keys, n)
    ensures Peak(series, keys, n) == 0.000000001 || exists i :: 0 <= i < n && KeyTotal(series[i], keys) == Peak(series, keys, n)
    ensures Peak(series, keys, n) >= 0.000000001
  {
    hide KeyTotal;
    if n > 0 {
      PeakIsLargest(series, keys, n - 1);
    }
  }

  /** Bar heights are the values to scale: a positive value takes its share of the peak of the padded height. */
  lemma BandIsProportional(series: seq<Point>, keys: seq<Key>, height: real, i: nat, k: nat)
    requires i < |series| && k < |keys| && StackValue(series[i], keys[k]) > 0.0
    ensures RectOf(series, keys, height, k, i).height * Peak(series, keys, |series|)
         == StackValue(series[i], keys[k]) * (height - 8.0)
  {
    hide StackValue, Peak, Running;
    var peak, below, value := Peak(series, keys, |series|), Running(series[i], keys, k), StackValue(series[i], keys[k]);
    RunningNext(series[i], keys, k);
    assert Running(series[i], keys, k + 1) == below + value;
    Scaled(below, value, peak, height - 8.0);
  }

  lemma Scaled(below: real, value: real, peak: real, room: real)
    requires peak > 0.0
    ensures ((below + value) / peak * room - below / peak * room) * peak == value * room
  {
    var a, b := (below + value) / peak, below / peak;
    assert a * peak == below + value && b * peak == below;
    assert (a * room - b * room) * peak == (a * peak - b * peak) * room;
  }

  /** The tallest column reaches the padded top exactly, when anything is drawn at all. */
  lemma PeakReachesTop(series: seq<Point>, keys: seq<Key>, height: real, i: nat)
    requires i < |series| && NonNegative(series[i]) && KeyTotal(series[i], keys) == Peak(series, keys, |series|)
    ensures Level(Running(series[i], keys, |keys|), Peak(series, keys, |series|), height) == 4.0
  {
    hide Level, KeyTotal, Peak, Running;
    RunningIsTotal(series[i], keys, |keys|);
    assert keys[..|keys|] == keys;
    PeakLevel(Peak(series, keys, |series|), height);
  }

  lemma PeakLevel(peak: real, height: real)
    requires peak > 0.0
    ensures Level(peak, peak, height) == PAD
  {
    WholeRatio(peak);
    var room := height - PAD * 2.0;
    assert peak / peak * room == 1.0 * room;
  }

  lemma WholeRatio(peak: real)
    requires peak > 0.0
    ensures peak / peak == 1.0
  {
  }

  lemma BucketShape(n: nat)
    requires n > 0
    ensures BarStep(n) * n as real == WIDTH
    ensures n <= 300 ==> 1.0 <= BarWidth(n) <= BarStep(n)
    ensures n > 300 ==> BarWidth(n) == 1.0 > BarStep(n)
  {
    var step := BarStep(n);
    assert step * n as real == WIDTH;
    StepOrder(step, n);
  }

  lemma StepOrder(step: real, n: nat)
    requires n > 0
    ensures step >= 1.0 <==> step * n as real >= n as real
  {
  }

  /** Each bar is centred in its bucket, and neighbouring bars do not overlap exactly when there are at most
      300 buckets: beyond that the minimum width of one exceeds the bucket. */
  lemma NeighboursDisjoint(n: nat, i: nat)
    requires i + 1 < n
    ensures BarLeft(n, i) + BarWidth(n) / 2.0 == i as real * BarStep(n) + BarStep(n) / 2.0
    ensures BarLeft(n, i) + BarWidth(n) <= BarLeft(n, i + 1) <==> n <= 300
  {
    hide BarStep, BarWidth;
    BucketShape(n);
    NextBucket(i, BarStep(n));
  }

  /** With at most 300 buckets every bar lies within the chart. */
  lemma BarsInside(n: nat, i: nat)
    requires i < n <= 300
    ensures 0.0 <= BarLeft(n, i) && BarLeft(n, i) + BarWidth(n) <= 300.0
  {
    hide BarStep, BarWidth;
    BucketShape(n);
    NextBucket(i, BarStep(n));
    ScaleOrder(0, i, BarStep(n));
    ScaleOrder(i + 1, n, BarStep(n));
  }

  /** The gap between neighbours: two units up to thirty buckets, a fifth of a bucket up to 240, and from there on
      every bar is one unit wide. */
  lemma GapsAre(n: nat, i: nat)
    requires i + 1 < n
    ensures var gap := BarLeft(n, i + 1) - (BarLeft(n, i) + BarWidth(n));
      && (n <= 30 ==> gap == 2.0)
      && (30 <= n <= 240 ==> gap * n as real == 60.0)
      && (n >= 240 ==> BarWidth(n) == 1.0)
  {
    var step := BarStep(n);
    assert step * n as real == 300.0;
    NextBucket(i, step);
    StepIsAtLeast(step, n, 30, 10.0);
    StepIsAtLeast(step, n, 240, 1.25);
  }

  lemma StepIsAtLeast(step: real, n: nat, m: nat, bound: real)
    requires n > 0 && step * n as real == 300.0 && bound * m as real == 300.0 && bound > 0.0
    ensures n <= m ==> step >= bound
    ensures n >= m ==> step <= bound
  {
    var room := n as real;
    Product(step, bound, room, m as real);
  }

  lemma Product(a: real, b: real, n: real, m: real)
    requires a * n == b * m && b > 0.0 && n > 0.0 && m > 0.0
    ensures n <= m ==> a >= b
    ensures n >= m ==> a <= b
  {
    assert (a - b) * n == b * (m - n);
  }

  lemma ScaleOrder(a: nat, b: nat, step: real)
    requires a <= b && step >= 0.0
    ensures a as real * step <= b as real * step
  {
  }

  lemma NextBucket(i: nat, step: real)
    ensures (i + 1) as real * step == i as real * step + step
  {
  }
}
