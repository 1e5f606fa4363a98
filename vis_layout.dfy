/** Layout helpers of the visualisations (src/h5web/vis-packs/core/utils.ts):
    fitting the canvas to an aspect ratio, and integer axis ticks. */
module VisLayout {
  import opened Wrappers
  import opened VisModels

  // ---------------------------------------------------------------------------
  // computeVisSize
  // ---------------------------------------------------------------------------

  /** `!aspectRatio` in the source: no ratio, or a ratio of 0. */
  predicate NoAspectRatio(aspectRatio: Option<real>)
  {
    aspectRatio.None? || aspectRatio.value == 0.0
  }

  /** `computeVisSize`: the largest box with the given aspect ratio that fits
      the available size; `undefined` when nothing is available. */
  function ComputeVisSize(availableSize: Size, aspectRatio: Option<real>): (r: Option<Size>)
    ensures r.None? <==> availableSize.width <= 0.0 && availableSize.height <= 0.0
    ensures r.Some? && NoAspectRatio(aspectRatio) ==> r.value == availableSize
    ensures r.Some? && !NoAspectRatio(aspectRatio) ==> r.value.width == r.value.height * aspectRatio.value
    ensures r.Some? ==> r.value.width == availableSize.width || r.value.height == availableSize.height
  {
    var width, height := availableSize.width, availableSize.height;
    if width <= 0.0 && height <= 0.0 then None
    else if NoAspectRatio(aspectRatio) then Some(availableSize)
    else
      var ratio := aspectRatio.value;
      var idealHeight := width / ratio;
      var shouldReduceWidth := idealHeight > height;
      if shouldReduceWidth then Some(Size(height * ratio, height))
      else Some(Size(width, width / ratio))
  }

  /** With a positive aspect ratio the computed size fits within the available
      width and height. */
  lemma VisSizeFits(availableSize: Size, ratio: real)
    requires ratio > 0.0
    requires availableSize.width > 0.0 || availableSize.height > 0.0
    ensures var r := ComputeVisSize(availableSize, Some(ratio));
            && r.Some?
            && r.value.width <= availableSize.width
            && r.value.height <= availableSize.height
  {
    var width, height := availableSize.width, availableSize.height;
    var idealHeight := width / ratio;
    assert idealHeight * ratio == width;
    if idealHeight > height {
      assert (idealHeight - height) * ratio > 0.0;
    }
  }

  // ---------------------------------------------------------------------------
  // getIntegerTicks
  // ---------------------------------------------------------------------------

  /** `Math.floor`. */
  function Floor(x: real): (n: int)
    ensures n as real <= x < n as real + 1.0
  {
    x.Floor
  }

  /** `Math.ceil`. */
  function Ceil(x: real): (n: int)
    ensures x <= n as real < x + 1.0
  {
    -((-x).Floor)
  }

  /** `Math.min(domainLength, count)`: the number of ticks asked for, capped by
      the number of integers in the domain. */
  function OptimalCount(domain: Domain, count: int): int
  {
    var domainLength := Floor(domain.max) - Ceil(domain.min) + 1;
    if domainLength <= count then domainLength else count
  }

  /** `getIntegerTicks`, where `step` stands for `max(tickStep(...), 1)`: the
      multiples of `step` in the domain, in increasing order, or none when the
      optimal count is 0. */
  function IntegerTicks(domain: Domain, count: int, step: int): (ticks: seq<int>)
    requires step >= 1
    ensures OptimalCount(domain, count) == 0 ==> ticks == []
    ensures forall i :: 0 <= i < |ticks| ==> ticks[i] % step == 0
    ensures forall i :: 0 <= i < |ticks| ==> domain.min <= ticks[i] as real <= domain.max
    ensures forall i :: 0 < i < |ticks| ==> ticks[i] == ticks[i - 1] + step
  {
    if OptimalCount(domain, count) == 0 then []
    else
      var start := Ceil(domain.min / step as real);
      var stop := Floor(domain.max / step as real);
      var numTicks := stop - start + 1;
      var count: nat := if numTicks < 0 then 0 else numTicks;
      TicksInDomain(start, count, step, domain);
      TicksFrom(start, count, step)
  }

  /** `Array.from({ length: numTicks }, (_, i) => (start + i) * step)`. */
  function TicksFrom(start: int, numTicks: nat, step: int): (ticks: seq<int>)
    ensures |ticks| == numTicks
    ensures forall i :: 0 <= i < numTicks ==> ticks[i] == (start + i) * step
  {
    seq(numTicks, i => (start + i) * step)
  }

  /** The ticks from the first multiple of `step` at or above the domain's min
      to the last one at or below its max are multiples of `step` inside the
      domain. */
  lemma TicksInDomain(start: int, numTicks: nat, step: int, domain: Domain)
    requires step >= 1
    requires numTicks > 0 ==> start as real >= domain.min / step as real
    requires numTicks > 0 ==> (start + numTicks - 1) as real <= domain.max / step as real
    ensures forall i :: 0 <= i < numTicks ==> TicksFrom(start, numTicks, step)[i] % step == 0
    ensures forall i :: 0 <= i < numTicks ==> domain.min <= TicksFrom(start, numTicks, step)[i] as real <= domain.max
  {
    var ticks := TicksFrom(start, numTicks, step);
    forall i | 0 <= i < numTicks
      ensures ticks[i] % step == 0
      ensures domain.min <= ticks[i] as real <= domain.max
    {
      MultipleMod(start + i, step);
      ScaledBetween(start + i, step, domain);
    }
  }

  lemma MultipleMod(n: int, step: int)
    requires step >= 1
    ensures (n * step) % step == 0
  {
    var q := (n * step) / step;
    var m := (n * step) % step;
    var k := n - q;
    assert k * step == m by {
      assert q * step + m == n * step;
      assert (n - q) * step == n * step - q * step;
    }
    if k >= 1 {
      ProductAtLeast(k, step);
    } else if k <= -1 {
      ProductAtLeast(-k, step);
    }
  }

  lemma ProductAtLeast(k: int, s: int)
    requires k >= 1 && s >= 1
    ensures k * s >= s
  {
    assert (k - 1) * s >= 0;
  }

  /** A multiple `n * step` lies in the domain exactly when `n` lies in the
      domain divided by `step`. */
  lemma ScaledBetween(n: int, step: int, domain: Domain)
    requires step >= 1
    ensures domain.min / step as real <= n as real <==> domain.min <= (n * step) as real
    ensures n as real <= domain.max / step as real <==> (n * step) as real <= domain.max
  {
    var s := step as real;
    assert (n * step) as real == n as real * s;
    assert (domain.min / s) * s == domain.min;
    assert (domain.max / s) * s == domain.max;
    if domain.min / s <= n as real {
      assert (n as real - domain.min / s) * s >= 0.0;
    } else {
      assert (domain.min / s - n as real) * s > 0.0;
    }
    if n as real <= domain.max / s {
      assert (domain.max / s - n as real) * s >= 0.0;
    } else {
      assert (n as real - domain.max / s) * s > 0.0;
    }
  }

  /** Every multiple of `step` in the domain is a tick (when the optimal count
      is not 0). */
  lemma IntegerTicksComplete(domain: Domain, count: int, step: int, t: int)
    requires step >= 1 && OptimalCount(domain, count) != 0
    requires t % step == 0 && domain.min <= t as real <= domain.max
    ensures t in IntegerTicks(domain, count, step)
  {
    var q := t / step;
    assert q * step == t;
    ScaledBetween(q, step, domain);
    var start := Ceil(domain.min / step as real);
    var stop := Floor(domain.max / step as real);
    assert start <= q <= stop;
    var ticks := IntegerTicks(domain, count, step);
    assert ticks[q - start] == t;
  }

  /** A domain holding no integer gets no tick. */
  lemma IntegerTicksNoInteger(domain: Domain, count: int, step: int)
    requires step >= 1
    requires forall n: int :: !InDomain(n, domain)
    ensures IntegerTicks(domain, count, step) == []
  {
    var ticks := IntegerTicks(domain, count, step);
    assert |ticks| > 0 ==> InDomain(ticks[0], domain);
  }

  predicate InDomain(n: int, domain: Domain)
  {
    domain.min <= n as real <= domain.max
  }
}
