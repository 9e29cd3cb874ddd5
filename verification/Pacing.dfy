/** How often the synchronous detector runs, paced by what its last inference cost. */
module Pacing {
  import opened Words
  import opened Wrappers

  const INT_MAX: int := 0x7FFF_FFFF

  /** A 64-bit number stored in a 32-bit int. */
  function ToInt32(x: int): (r: int)
    ensures -INT_MAX - 1 <= r <= INT_MAX
  {
    var low := x % 0x1_0000_0000;
    if low <= INT_MAX then low else low - 0x1_0000_0000
  }

  /** Integer division that drops the fraction towards zero. */
  function Quotient(a: int, b: int): int
    requires b != 0
  {
    if a >= 0 then (if b > 0 then a / b else -(a / -b))
    else (if b > 0 then -(-a / b) else -a / -b)
  }

  /**
   Frames from one inference to the next: configured, or the measured cost in
   frame periods, rounded up. `None` where the division is by zero, which a
   configured frame period of zero leads to once a cost has been measured.
   */
  function Stride(detectEvery: int, costUs: int, periodUs: int): Option<int> {
    if detectEvery > 0 then Some(detectEvery)
    else if costUs <= 0 then Some(1)
    else if periodUs == 0 then None
    else
      var s := Quotient(costUs + periodUs - 1, periodUs);
      Some(ToInt32(if s >= 1 then s else 1))
  }

  ghost predicate LeastCovering(s: int, costUs: int, periodUs: int) {
    && s >= 1 && s * periodUs >= costUs
    && forall t :: 1 <= t < s ==> t * periodUs < costUs
  }

  lemma NothingCovers(s: int, costUs: int, periodUs: int)
    requires costUs > 0 && periodUs < 0
    ensures !LeastCovering(s, costUs, periodUs)
  {
    if s >= 1 {
      MulMonotone(0, s, -periodUs);
    }
  }

  lemma CeilingIsLeast(cost: int, period: int)
    requires cost > 0 && period > 0
    ensures LeastCovering((cost + period - 1) / period, cost, period)
  {
    var s := (cost + period - 1) / period;
    var rest := (cost + period - 1) % period;
    assert s * period == cost + period - 1 - rest;
    assert s >= 1 by {
      if s <= 0 {
        MulMonotone(s, 0, period);
      }
    }
    forall t | 1 <= t < s ensures t * period < cost {
      MulMonotone(t, s - 1, period);
      assert (s - 1) * period == s * period - period;
    }
  }

  lemma PositivePeriodIff(costUs: int, periodUs: int)
    requires costUs > 0 && periodUs > 0
    ensures LeastCovering(Stride(0, costUs, periodUs).value, costUs, periodUs) <==> costUs <= INT_MAX * periodUs
  {
    var s := (costUs + periodUs - 1) / periodUs;
    CeilingIsLeast(costUs, periodUs);
    if s <= INT_MAX {
      MulMonotone(s, INT_MAX, periodUs);
    } else {
      assert INT_MAX * periodUs < costUs;
      var r := Stride(0, costUs, periodUs).value;
      if r >= 1 {
        MulMonotone(r, INT_MAX, periodUs);
      }
    }
  }

  /**
   For every measured cost and every frame period there is an automatic stride,
   and it is the least number of frames that covers one inference, exactly when
   the period is positive and that number fits an int.
   */
  lemma StrideIsLeastIff(costUs: int, periodUs: int)
    requires costUs > 0
    ensures Stride(0, costUs, periodUs).Some? <==> periodUs != 0
    ensures Stride(0, costUs, periodUs).Some? && LeastCovering(Stride(0, costUs, periodUs).value, costUs, periodUs)
            <==> periodUs > 0 && costUs <= INT_MAX * periodUs
  {
    if periodUs > 0 {
      PositivePeriodIff(costUs, periodUs);
    } else if periodUs < 0 {
      NothingCovers(Stride(0, costUs, periodUs).value, costUs, periodUs);
    }
  }

  /**
   One past the last cost that fits, the stride is negative. That is 2^31 frame
   periods, over two years at 30 frames a second, so no measurement of one
   inference comes near it.
   */
  lemma HugeCostOverflows(periodUs: int)
    requires periodUs > 0
    ensures Stride(0, INT_MAX * periodUs + 1, periodUs) == Some(-INT_MAX - 1)
  {
    var cost := INT_MAX * periodUs + 1;
    assert cost + periodUs - 1 == (INT_MAX + 1) * periodUs;
    DivModUnique(cost + periodUs - 1, periodUs, INT_MAX + 1, 0);
  }

  /** How many of the `n` frames numbered from `first` run an inference. */
  function Inferences(first: nat, n: nat, stride: nat): nat
    requires stride > 0
  {
    if n == 0 then 0 else Inferences(first, n - 1, stride) + if (first + n - 1) % stride == 0 then 1 else 0
  }

  lemma NextQuotient(m: nat, s: nat)
    requires s > 0 && m > 0
    ensures m / s == (m - 1) / s + if m % s == 0 then 1 else 0
  {
    var q, r := (m - 1) / s, (m - 1) % s;
    assert m == q * s + r + 1;
    if r + 1 < s {
      DivModUnique(m, s, q, r + 1);
    } else {
      assert q * s + s == (q + 1) * s;
      DivModUnique(m, s, q + 1, 0);
    }
  }

  lemma {:induction false} InferencesExactly(first: nat, n: nat, stride: nat)
    requires stride > 0 && first > 0
    ensures Inferences(first, n, stride) == (first + n - 1) / stride - (first - 1) / stride
  {
    if n == 0 {
    } else {
      InferencesExactly(first, n - 1, stride);
      NextQuotient(first + n - 1, stride);
    }
  }

  lemma SumQuotient(a: nat, n: nat, s: nat)
    requires s > 0
    ensures (a + n) / s == a / s + n / s + if a % s + n % s < s then 0 else 1
    ensures n % s == 0 ==> (a + n) / s == a / s + n / s
  {
    var q, r := a / s + n / s, a % s + n % s;
    assert a == (a / s) * s + a % s && n == (n / s) * s + n % s;
    assert q * s == (a / s) * s + (n / s) * s;
    if r < s {
      DivModUnique(a + n, s, q, r);
    } else {
      assert (q + 1) * s == q * s + s;
      DivModUnique(a + n, s, q + 1, r - s);
    }
  }

  lemma CeilingQuotient(n: nat, s: nat)
    requires s > 0
    ensures (n + s - 1) / s == n / s + if n % s == 0 then 0 else 1
  {
    var q, r := n / s, n % s;
    assert n == q * s + r;
    if r == 0 {
      DivModUnique(n + s - 1, s, q, s - 1);
    } else {
      assert (q + 1) * s == q * s + s;
      DivModUnique(n + s - 1, s, q + 1, r - 1);
    }
  }

  lemma QuotientOfSum(a: nat, n: nat, s: nat)
    requires s > 0
    ensures n / s <= (a + n) / s - a / s <= (n + s - 1) / s
  {
    SumQuotient(a, n, s);
    CeilingQuotient(n, s);
  }

  /** Over any `n` consecutive frames: at most n/stride rounded up inferences, and at least n/stride rounded down. */
  lemma InferenceCountBounds(first: nat, n: nat, stride: nat)
    requires stride > 0 && first > 0
    ensures n / stride <= Inferences(first, n, stride) <= (n + stride - 1) / stride
  {
    InferencesExactly(first, n, stride);
    QuotientOfSum(first - 1, n, stride);
  }

  lemma LeastCoveringBounds(s: int, cost: int, period: int)
    requires LeastCovering(s, cost, period)
    ensures s >= 1 && s * period >= cost
  {
  }

  lemma MulAssociates(a: int, b: int, c: int)
    ensures a * (b * c) == (a * b) * c
  {
  }

  lemma CostBound(k: nat, n: nat, s: nat, cost: int, period: int)
    requires s >= 1 && cost > 0 && period > 0 && s * period >= cost
    requires k <= (n + s - 1) / s
    ensures k * cost < (n + s) * period
  {
    var c := (n + s - 1) / s;
    assert c * s <= n + s - 1;
    MulMonotone(cost, s * period, k);
    MulMonotone(k, c, s);
    MulMonotone(k * s, n + s - 1, period);
    MulAssociates(k, s, period);
    assert (n + s - 1) * period == (n + s) * period - period;
  }

  // The detector from frame to frame.

  datatype Config = Config(detectEvery: int, periodUs: int)

  /**
   The frame counter, the cost the last inference was measured at (zero before the
   first), and, for the record, how many inferences have run and what they cost.
   */
  datatype Pacer = Pacer(frame: nat, costUs: int, inferences: nat, spentUs: int)

  /** The stride read for the next frame. */
  function StrideOf(cfg: Config, p: Pacer): Option<int> {
    Stride(cfg.detectEvery, p.costUs, cfg.periodUs)
  }

  /**
   One frame, on which an inference would be measured at `cost`. The stride is
   read anew and used as an unsigned 64-bit divisor. `None` where a division is
   by zero.
   */
  function NextFrame(cfg: Config, p: Pacer, cost: int): Option<Pacer> {
    match StrideOf(cfg, p)
    case None => None
    case Some(s) =>
      var divisor := s % TWO64;
      if divisor == 0 then None
      else if (p.frame + 1) % divisor == 0 then Some(Pacer(p.frame + 1, cost, p.inferences + 1, p.spentUs + cost))
      else Some(p.(frame := p.frame + 1))
  }

  /** Frame after frame, with what an inference would cost on each. */
  function Run(cfg: Config, p: Pacer, costs: seq<int>): Option<Pacer>
    decreases |costs|
  {
    if costs == [] then Some(p)
    else
      match NextFrame(cfg, p, costs[0])
      case None => None
      case Some(q) => Run(cfg, q, costs[1..])
  }

  /** The stride reads `s` before every frame of the run and after its last. */
  ghost predicate Unchanged(cfg: Config, p: Pacer, costs: seq<int>, s: int)
    decreases |costs|
  {
    && StrideOf(cfg, p) == Some(s)
    && (costs != [] ==>
          var q := NextFrame(cfg, p, costs[0]);
          q.Some? ==> Unchanged(cfg, q.value, costs[1..], s))
  }

  /** The stride is automatic, and no cost before or during the run is so large that it overflows. */
  ghost predicate Paced(cfg: Config, p: Pacer, costs: seq<int>) {
    && cfg.detectEvery <= 0 && cfg.periodUs > 0
    && p.costUs <= INT_MAX * cfg.periodUs
    && forall i :: 0 <= i < |costs| ==> costs[i] <= INT_MAX * cfg.periodUs
  }

  lemma SmallDivisor(s: int)
    requires 0 < s <= INT_MAX
    ensures s % TWO64 == s
  {
  }

  lemma InferencesFromFirst(first: nat, n: nat, stride: nat)
    requires stride > 0 && first > 0 && n > 0
    ensures Inferences(first, n, stride) ==
            (if first % stride == 0 then 1 else 0) + Inferences(first + 1, n - 1, stride)
  {
    hide Inferences;
    InferencesExactly(first, n, stride);
    InferencesExactly(first + 1, n - 1, stride);
    NextQuotient(first, stride);
  }

  lemma StrideInRange(cost: int, periodUs: int)
    requires Stride(0, cost, periodUs).Some?
    ensures -INT_MAX - 1 <= Stride(0, cost, periodUs).value <= INT_MAX
  {
  }

  /** A measured cost that reads as stride `s` fits `s` frame periods, unless the stride overflowed. */
  lemma StrideCovers(cost: int, periodUs: int, s: int)
    requires periodUs > 0 && cost <= INT_MAX * periodUs
    requires Stride(0, cost, periodUs) == Some(s)
    ensures 1 <= s <= INT_MAX && cost <= s * periodUs
  {
    if cost <= 0 {
      assert s == 1;
    } else {
      StrideIsLeastIff(cost, periodUs);
      assert LeastCovering(s, cost, periodUs);
      StrideInRange(cost, periodUs);
    }
  }

  lemma StrideIsAutomatic(cfg: Config, p: Pacer)
    requires cfg.detectEvery <= 0
    ensures StrideOf(cfg, p) == Stride(0, p.costUs, cfg.periodUs)
  {
  }

  lemma OneMoreTimes(k: int, x: int)
    ensures (k + 1) * x == k * x + x
  {
  }

  /** While the stride stays `s`, inferences run on its multiples and each costs at most `s` periods. */
  lemma {:induction false} RunCounts(cfg: Config, p: Pacer, costs: seq<int>, s: int)
    requires Paced(cfg, p, costs) && Unchanged(cfg, p, costs, s) && 1 <= s <= INT_MAX
    ensures Run(cfg, p, costs).Some?
    ensures var q := Run(cfg, p, costs).value;
            && q.frame == p.frame + |costs|
            && q.inferences - p.inferences == Inferences(p.frame + 1, |costs|, s)
            && q.spentUs - p.spentUs <= (q.inferences - p.inferences) * (s * cfg.periodUs)
    decreases |costs|
  {
    hide Stride; hide Inferences;
    SmallDivisor(s);
    if costs == [] {
      assert Inferences(p.frame + 1, 0, s) == 0 by {
        InferencesExactly(p.frame + 1, 0, s);
      }
    } else {
      var next := NextFrame(cfg, p, costs[0]).value;
      RunCounts(cfg, next, costs[1..], s);
      InferencesFromFirst(p.frame + 1, |costs|, s);
      if (p.frame + 1) % s == 0 {
        StrideIsAutomatic(cfg, next);
        StrideCovers(costs[0], cfg.periodUs, s);
        var q := Run(cfg, p, costs).value;
        OneMoreTimes(q.inferences - next.inferences, s * cfg.periodUs);
      }
    }
  }

  /**
   The pacing bound, for any measurements: over any frames through which the
   automatic stride reads `s`, at most n/s rounded up inferences run and together
   they cost less than n + s frame periods.
   */
  lemma PacingBound(cfg: Config, p: Pacer, costs: seq<int>, s: int)
    requires Paced(cfg, p, costs) && Unchanged(cfg, p, costs, s)
    ensures s >= 1 && Run(cfg, p, costs).Some?
    ensures var q := Run(cfg, p, costs).value;
            && |costs| / s <= q.inferences - p.inferences <= (|costs| + s - 1) / s
            && q.spentUs - p.spentUs < (|costs| + s) * cfg.periodUs
  {
    hide Stride; hide Inferences; hide Run; hide NextFrame;
    StrideIsAutomatic(cfg, p);
    StrideCovers(p.costUs, cfg.periodUs, s);
    RunCounts(cfg, p, costs, s);
    InferenceCountBounds(p.frame + 1, |costs|, s);
    var q := Run(cfg, p, costs).value;
    var k := q.inferences - p.inferences;
    MulMonotone(1, s, cfg.periodUs);
    CostBound(k, |costs|, s, s * cfg.periodUs, cfg.periodUs);
  }

  lemma NextRemainder(f: nat, s: nat)
    requires s > 0
    ensures (f + 1) % s == if f % s + 1 == s then 0 else f % s + 1
  {
    var q, r := f / s, f % s;
    assert f == q * s + r;
    if r + 1 == s {
      assert (q + 1) * s == q * s + s;
      DivModUnique(f + 1, s, q + 1, 0);
    } else {
      DivModUnique(f + 1, s, q, r + 1);
    }
  }

  /** Two different measurements, 40 and 60 ms at 30 frames a second, through which the stride reads 2. */
  lemma UnequalCostsPaced()
    ensures var cfg, p, costs := Config(0, 33333), Pacer(2, 40000, 1, 40000), [0, 60000, 0];
            && Paced(cfg, p, costs) && Unchanged(cfg, p, costs, 2)
            && Run(cfg, p, costs) == Some(Pacer(5, 60000, 2, 100000))
  {
    var cfg, p, costs := Config(0, 33333), Pacer(2, 40000, 1, 40000), [0, 60000, 0];
    var p1, p2, p3 := Pacer(3, 40000, 1, 40000), Pacer(4, 60000, 2, 100000), Pacer(5, 60000, 2, 100000);
    assert costs[1..] == [60000, 0] && costs[1..][1..] == [0] && costs[1..][1..][1..] == [];
    assert NextFrame(cfg, p, 0) == Some(p1) && NextFrame(cfg, p1, 60000) == Some(p2)
        && NextFrame(cfg, p2, 0) == Some(p3);
    assert Unchanged(cfg, p2, [0], 2) && Run(cfg, p2, [0]) == Some(p3) by {
      assert [0][1..] == [];
    }
    assert Unchanged(cfg, p1, [60000, 0], 2) && Run(cfg, p1, [60000, 0]) == Some(p3) by {
      assert [60000, 0][1..] == [0];
    }
  }

  /** With a configured stride, inferences run on exactly its multiples, whatever they cost. */
  lemma {:induction false} ConfiguredRuns(cfg: Config, p: Pacer, costs: seq<int>)
    requires 1 <= cfg.detectEvery <= INT_MAX
    ensures Run(cfg, p, costs).Some?
    ensures var q := Run(cfg, p, costs).value;
            && q.frame == p.frame + |costs|
            && q.inferences - p.inferences == Inferences(p.frame + 1, |costs|, cfg.detectEvery)
    decreases |costs|
  {
    hide Inferences;
    SmallDivisor(cfg.detectEvery);
    if costs == [] {
      InferencesExactly(p.frame + 1, 0, cfg.detectEvery);
    } else {
      ConfiguredRuns(cfg, NextFrame(cfg, p, costs[0]).value, costs[1..]);
      InferencesFromFirst(p.frame + 1, |costs|, cfg.detectEvery);
    }
  }

  /** Before anything has been measured the very next frame runs one. */
  lemma UnmeasuredRunsNext(cfg: Config, p: Pacer, cost: int)
    requires cfg.detectEvery <= 0 && p.costUs <= 0
    ensures NextFrame(cfg, p, cost) == Some(Pacer(p.frame + 1, cost, p.inferences + 1, p.spentUs + cost))
  {
  }

  /** Between inferences nothing changes but the frame number. */
  lemma {:induction false} NoInferenceBefore(cfg: Config, p: Pacer, costs: seq<int>, s: int)
    requires StrideOf(cfg, p) == Some(s) && 1 <= s <= INT_MAX
    requires |costs| < s - p.frame % s
    ensures Run(cfg, p, costs) == Some(p.(frame := p.frame + |costs|))
    decreases |costs|
  {
    hide Stride;
    SmallDivisor(s);
    if costs == [] {
      assert p.(frame := p.frame + 0) == p;
    } else {
      NextRemainder(p.frame, s);
      NoInferenceBefore(cfg, p.(frame := p.frame + 1), costs[1..], s);
    }
  }

  lemma RemainderAfter(f: nat, k: nat, s: nat)
    requires s > 0 && f % s + k < s
    ensures (f + k) % s == f % s + k
  {
    assert f == (f / s) * s + f % s;
    DivModUnique(f + k, s, f / s, f % s + k);
  }

  lemma {:induction false} RunSplit(cfg: Config, p: Pacer, before: seq<int>, more: seq<int>)
    requires Run(cfg, p, before).Some?
    ensures Run(cfg, p, before + more) == Run(cfg, Run(cfg, p, before).value, more)
    decreases |before|
  {
    if before == [] {
      assert before + more == more;
    } else {
      assert (before + more)[1..] == before[1..] + more;
      RunSplit(cfg, NextFrame(cfg, p, before[0]).value, before[1..], more);
    }
  }

  /** When the next inference runs: at the next multiple of the stride, whatever the costs. */
  lemma NextInferenceIff(cfg: Config, p: Pacer, costs: seq<int>, s: int)
    requires StrideOf(cfg, p) == Some(s) && 1 <= s <= INT_MAX
    requires |costs| <= s - p.frame % s
    ensures Run(cfg, p, costs).Some?
    ensures Run(cfg, p, costs).value.inferences == p.inferences + if |costs| == s - p.frame % s then 1 else 0
  {
    hide Stride;
    if |costs| < s - p.frame % s {
      NoInferenceBefore(cfg, p, costs, s);
    } else {
      var n := |costs| - 1;
      var before := costs[..n];
      NoInferenceBefore(cfg, p, before, s);
      var mid := p.(frame := p.frame + n);
      RunSplit(cfg, p, before, costs[n..]);
      assert costs == before + costs[n..];
      RemainderAfter(p.frame, n, s);
      NextRemainder(mid.frame, s);
      SmallDivisor(s);
      assert costs[n..][1..] == [];
    }
  }

  lemma {:induction false} InferencesGrow(cfg: Config, p: Pacer, costs: seq<int>)
    ensures Run(cfg, p, costs).Some? ==> Run(cfg, p, costs).value.inferences >= p.inferences
    decreases |costs|
  {
    hide Stride;
    if costs == [] {
    } else if NextFrame(cfg, p, costs[0]).Some? {
      InferencesGrow(cfg, NextFrame(cfg, p, costs[0]).value, costs[1..]);
    }
  }

  /**
   So after an inference on frame `f` that leaves stride `s` the next is `s - f % s`
   frames later: the frames short of a full stride all pass without one exactly
   when `s` divides `f`.
   */
  lemma FullStridePassesIff(cfg: Config, p: Pacer, costs: seq<int>, s: int)
    requires StrideOf(cfg, p) == Some(s) && 1 <= s <= INT_MAX && |costs| == s - 1
    ensures Run(cfg, p, costs).Some? && Run(cfg, p, costs).value.inferences == p.inferences <==> p.frame % s == 0
  {
    hide Stride; hide Run;
    if p.frame % s == 0 {
      NextInferenceIff(cfg, p, costs, s);
    } else {
      var k := s - p.frame % s;
      NextInferenceIff(cfg, p, costs[..k], s);
      assert costs == costs[..k] + costs[k..];
      RunSplit(cfg, p, costs[..k], costs[k..]);
      InferencesGrow(cfg, Run(cfg, p, costs[..k]).value, costs[k..]);
    }
  }

  /** An inference on frame 11 that took twelve periods is followed by one on frame 12. */
  lemma NextCanBeAtOnce(cost: int)
    ensures var p := Pacer(11, 12 * 33333, 1, 12 * 33333);
            && StrideOf(Config(0, 33333), p) == Some(12)
            && NextFrame(Config(0, 33333), p, cost) == Some(Pacer(12, cost, 2, p.spentUs + cost))
  {
  }
}
