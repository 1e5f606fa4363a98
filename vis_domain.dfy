/** Domain arithmetic of the visualisation helpers (src/h5web/vis-packs/core/utils.ts):
    the bounds fold behind `getDomain`, the merge of several domains, and the
    widening of a domain by `extendDomain`. */
module VisDomain {
  import opened Wrappers
  import opened VisModels

  // ---------------------------------------------------------------------------
  // getNewBounds and the fold of getDomain
  // ---------------------------------------------------------------------------

  /** `getNewBounds`: the running bounds after taking in `value`. */
  function NewBounds(acc: Bounds, value: real): (b: Bounds)
    ensures b.min <= value <= b.max
    ensures b.min <= acc.min && acc.max <= b.max
    ensures (b.min == value || b.min == acc.min) && (b.max == value || b.max == acc.max)
    ensures value > 0.0 ==> b.minPositive.Finite? && b.minPositive.r <= value
    ensures acc.minPositive.Finite? ==> b.minPositive.Finite? && b.minPositive.r <= acc.minPositive.r
    ensures b.minPositive == acc.minPositive || (value > 0.0 && b.minPositive == Finite(value))
  {
    Bounds(Min(value, acc.min), Max(value, acc.max),
           if value > 0.0 then Finite(MinExtended(value, acc.minPositive)) else acc.minPositive)
  }

  /** The error bar of entry `i`: `errors && errors[i]`, where an absent array
      (like a zero error) means no error bar. */
  function ErrAt(errors: Option<seq<real>>, i: int): real
  {
    if errors.Some? && 0 <= i < |errors.value| then errors.value[i] else 0.0
  }

  /** One step of the reducer: the value, and `value - err`, `value + err`
      when the error is non-zero. */
  function FoldStep(acc: Bounds, value: real, err: real): Bounds
  {
    var b := NewBounds(acc, value);
    if err != 0.0 then NewBounds(NewBounds(b, value - err), value + err) else b
  }

  /** The reducer's accumulator after the first `k` values, starting from
      `[values[0], values[0], Infinity]`. */
  function FoldBounds(values: seq<real>, errors: Option<seq<real>>, k: nat): Bounds
    requires 0 < |values| && k <= |values|
  {
    if k == 0 then Bounds(values[0], values[0], Infinity)
    else FoldStep(FoldBounds(values, errors, k - 1), values[k - 1], ErrAt(errors, k - 1))
  }

  /** `x` is one of the points entry `i` contributes: its value, or, when its
      error is non-zero, the value minus or plus the error. */
  ghost predicate IsPointAt(values: seq<real>, errors: Option<seq<real>>, i: int, x: real)
  {
    0 <= i < |values| &&
    (x == values[i] || (ErrAt(errors, i) != 0.0 && (x == values[i] - ErrAt(errors, i) || x == values[i] + ErrAt(errors, i))))
  }

  ghost predicate IsPoint(values: seq<real>, errors: Option<seq<real>>, x: real)
  {
    exists i :: IsPointAt(values, errors, i, x)
  }

  /** The min and max of `b` enclose every point of the first `k` entries. */
  ghost predicate Encloses(b: Bounds, values: seq<real>, errors: Option<seq<real>>, k: nat)
  {
    forall i, x :: 0 <= i < k && IsPointAt(values, errors, i, x) ==> b.min <= x <= b.max
  }

  /** The min and max of `b` are points of the first `k` entries. */
  ghost predicate Attains(b: Bounds, values: seq<real>, errors: Option<seq<real>>, k: nat)
  {
    && (exists i :: 0 <= i < k && IsPointAt(values, errors, i, b.min))
    && (exists i :: 0 <= i < k && IsPointAt(values, errors, i, b.max))
  }

  /** The minPositive of `b` is the least positive point of the first `k`
      entries, and Infinity when there is none. */
  ghost predicate TracksLeastPositive(b: Bounds, values: seq<real>, errors: Option<seq<real>>, k: nat)
  {
    && (b.minPositive.Finite? ==>
          b.minPositive.r > 0.0 && exists i :: 0 <= i < k && IsPointAt(values, errors, i, b.minPositive.r))
    && (forall i, x :: 0 <= i < k && IsPointAt(values, errors, i, x) && x > 0.0 ==>
          b.minPositive.Finite? && b.minPositive.r <= x)
  }

  /** The fold's min and max enclose every point seen so far. */
  lemma {:induction false} FoldEncloses(values: seq<real>, errors: Option<seq<real>>, k: nat)
    requires 0 < |values| && k <= |values|
    ensures Encloses(FoldBounds(values, errors, k), values, errors, k)
  {
    if k > 0 {
      var acc := FoldBounds(values, errors, k - 1);
      var b := FoldBounds(values, errors, k);
      FoldEncloses(values, errors, k - 1);
      forall i, x | 0 <= i < k && IsPointAt(values, errors, i, x)
        ensures b.min <= x <= b.max
      {
        if i < k - 1 {
          assert acc.min <= x <= acc.max;
        }
      }
    }
  }

  /** The fold's min and max are points seen so far. */
  lemma {:induction false} FoldAttains(values: seq<real>, errors: Option<seq<real>>, k: nat)
    requires 0 < k <= |values|
    ensures Attains(FoldBounds(values, errors, k), values, errors, k)
  {
    var acc := FoldBounds(values, errors, k - 1);
    var v, e := values[k - 1], ErrAt(errors, k - 1);
    assert IsPointAt(values, errors, k - 1, v);
    assert e != 0.0 ==> IsPointAt(values, errors, k - 1, v - e) && IsPointAt(values, errors, k - 1, v + e);
    if k == 1 {
      assert IsPointAt(values, errors, 0, acc.min);
    } else {
      FoldAttains(values, errors, k - 1);
    }
  }

  /** One reducer step keeps minPositive or lowers it to one of the step's
      positive points, and takes every positive point of the step into
      account. */
  lemma StepMinPositive(acc: Bounds, v: real, e: real)
    ensures var b := FoldStep(acc, v, e);
            && (b.minPositive == acc.minPositive
                || (b.minPositive.Finite? && b.minPositive.r > 0.0
                    && (b.minPositive.r == v || (e != 0.0 && (b.minPositive.r == v - e || b.minPositive.r == v + e)))))
            && (acc.minPositive.Finite? ==> b.minPositive.Finite? && b.minPositive.r <= acc.minPositive.r)
            && (v > 0.0 ==> b.minPositive.Finite? && b.minPositive.r <= v)
            && (e != 0.0 && v - e > 0.0 ==> b.minPositive.Finite? && b.minPositive.r <= v - e)
            && (e != 0.0 && v + e > 0.0 ==> b.minPositive.Finite? && b.minPositive.r <= v + e)
  {
  }

  /** The fold's minPositive is the least positive point seen so far. */
  lemma {:induction false} FoldTracksLeastPositive(values: seq<real>, errors: Option<seq<real>>, k: nat)
    requires 0 < |values| && k <= |values|
    ensures TracksLeastPositive(FoldBounds(values, errors, k), values, errors, k)
  {
    if k > 0 {
      var acc := FoldBounds(values, errors, k - 1);
      var b := FoldBounds(values, errors, k);
      var v, e := values[k - 1], ErrAt(errors, k - 1);
      FoldTracksLeastPositive(values, errors, k - 1);
      StepMinPositive(acc, v, e);
      if b.minPositive != acc.minPositive {
        assert IsPointAt(values, errors, k - 1, b.minPositive.r);
      }
      forall i, x | 0 <= i < k && IsPointAt(values, errors, i, x) && x > 0.0
        ensures b.minPositive.Finite? && b.minPositive.r <= x
      {
        if i < k - 1 {
          assert acc.minPositive.Finite? && acc.minPositive.r <= x;
        }
      }
    }
  }

  // ---------------------------------------------------------------------------
  // getDomain
  // ---------------------------------------------------------------------------

  /** Decimal digits of a natural number, for the thrown message. */
  function NatToString(n: nat): string
  {
    var d := ['0', '1', '2', '3', '4', '5', '6', '7', '8', '9'];
    if n < 10 then [d[n]] else NatToString(n / 10) + [d[n % 10]]
  }

  /** `getDomain`: `undefined` for no values; throws when an error array of a
      different length is given; otherwise `[min, max]` of all points, clamped
      on a log scale to the least positive point when the domain crosses or
      touches zero, or `undefined` when there is none. */
  function GetDomain(values: seq<real>, scaleType: ScaleType := Linear, errors: Option<seq<real>> := None): (r: Result<Option<Domain>>)
    ensures |values| == 0 ==> r == Ok(None)
    ensures r.Err? <==> |values| > 0 && errors.Some? && |errors.value| != |values|
  {
    if |values| == 0 then Ok(None)
    else if errors.Some? && |errors.value| != |values| then
      Err("Errors length (" + NatToString(|errors.value|) + ") does not match data length (" + NatToString(|values|) + ")")
    else
      var b := FoldBounds(values, errors, |values|);
      if scaleType != Log || b.min * b.max > 0.0 then Ok(Some(Domain(b.min, b.max)))
      else if b.minPositive.Finite? then Ok(Some(Domain(b.minPositive.r, b.max)))
      else Ok(None)
  }

  /** Errors absent, or one per value. */
  predicate ErrorsMatch(values: seq<real>, errors: Option<seq<real>>)
  {
    errors.None? || |errors.value| == |values|
  }

  /** `d` is exactly the span of the points: it encloses every one of them and
      both its bounds are points. */
  ghost predicate IsSpan(d: Domain, values: seq<real>, errors: Option<seq<real>>)
  {
    && d.min <= d.max
    && (forall i, x :: IsPointAt(values, errors, i, x) ==> d.min <= x <= d.max)
    && IsPoint(values, errors, d.min)
    && IsPoint(values, errors, d.max)
  }

  ghost predicate HasPositivePoint(values: seq<real>, errors: Option<seq<real>>)
  {
    exists i, x :: IsPointAt(values, errors, i, x) && x > 0.0
  }

  /** `p` is the least strictly positive point. */
  ghost predicate IsLeastPositive(p: real, values: seq<real>, errors: Option<seq<real>>)
  {
    && p > 0.0
    && IsPoint(values, errors, p)
    && (forall i, x :: IsPointAt(values, errors, i, x) && x > 0.0 ==> p <= x)
  }

  /** The full fold yields the span of the points. */
  lemma FoldIsSpan(values: seq<real>, errors: Option<seq<real>>)
    requires 0 < |values|
    ensures var b := FoldBounds(values, errors, |values|);
            IsSpan(Domain(b.min, b.max), values, errors)
  {
    var b := FoldBounds(values, errors, |values|);
    FoldEncloses(values, errors, |values|);
    FoldAttains(values, errors, |values|);
    var i :| 0 <= i < |values| && IsPointAt(values, errors, i, b.min);
    assert IsPointAt(values, errors, i, b.min);
  }

  /** On a linear (or symlog) scale `getDomain` returns the span of the values
      and of their error bars. */
  lemma GetDomainNotLog(values: seq<real>, scaleType: ScaleType, errors: Option<seq<real>>)
    requires 0 < |values| && ErrorsMatch(values, errors) && scaleType != Log
    ensures var r := GetDomain(values, scaleType, errors);
            r.Ok? && r.value.Some? && IsSpan(r.value.value, values, errors)
  {
    FoldIsSpan(values, errors);
  }

  /** Two spans of the same points are equal. */
  lemma SpanUnique(d1: Domain, d2: Domain, values: seq<real>, errors: Option<seq<real>>)
    requires IsSpan(d1, values, errors) && IsSpan(d2, values, errors)
    ensures d1 == d2
  {
    var i1 :| IsPointAt(values, errors, i1, d1.min);
    var i2 :| IsPointAt(values, errors, i2, d2.min);
    var j1 :| IsPointAt(values, errors, j1, d1.max);
    var j2 :| IsPointAt(values, errors, j2, d2.max);
  }

  /** On a log scale `getDomain` keeps a span that does not touch zero, clamps
      any other span to the least positive point, and gives `undefined` when
      no point is positive. */
  lemma GetDomainLog(values: seq<real>, errors: Option<seq<real>>, span: Domain)
    requires 0 < |values| && ErrorsMatch(values, errors) && IsSpan(span, values, errors)
    ensures var r := GetDomain(values, Log, errors);
            && r.Ok?
            && (span.min * span.max > 0.0 ==> r.value == Some(span))
            && (span.min * span.max <= 0.0 ==>
                  && (r.value.Some? <==> HasPositivePoint(values, errors))
                  && (r.value.Some? ==> r.value.value.max == span.max && IsLeastPositive(r.value.value.min, values, errors)))
  {
    var b := FoldBounds(values, errors, |values|);
    FoldTracksLeastPositive(values, errors, |values|);
    FoldIsSpan(values, errors);
    SpanUnique(span, Domain(b.min, b.max), values, errors);
    if b.minPositive.Finite? {
      var i :| 0 <= i < |values| && IsPointAt(values, errors, i, b.minPositive.r);
      assert IsPointAt(values, errors, i, b.minPositive.r);
    }
  }

  // ---------------------------------------------------------------------------
  // getCombinedDomain
  // ---------------------------------------------------------------------------

  /** `getCombinedDomain`: merge `domain` with each of `domainsToCombine` in
      turn into `[least min, greatest max]`, stopping at the first undefined
      operand with whichever of the two is defined. */
  function CombinedDomain(domain: Option<Domain>, domainsToCombine: seq<Option<Domain>>): (r: Option<Domain>)
    decreases |domainsToCombine|
    ensures domainsToCombine == [] ==> r == domain
    ensures domainsToCombine != [] && domain.None? ==> r == domainsToCombine[0]
  {
    if |domainsToCombine| == 0 then domain
    else
      var next := domainsToCombine[0];
      if domain.None? || next.None? then (if domain.Some? then domain else next)
      else
        CombinedDomain(Some(Domain(Min(domain.value.min, next.value.min), Max(domain.value.max, next.value.max))),
                       domainsToCombine[1..])
  }

  predicate AllDefined(ds: seq<Option<Domain>>)
  {
    forall i :: 0 <= i < |ds| ==> ds[i].Some?
  }

  /** When every operand is defined, the combined domain's min is the least of
      all mins and its max the greatest of all maxes. */
  lemma {:induction false} CombinedAllDefined(d: Domain, ds: seq<Option<Domain>>)
    requires AllDefined(ds)
    ensures var r := CombinedDomain(Some(d), ds);
            && r.Some?
            && r.value.min <= d.min && d.max <= r.value.max
            && (forall i :: 0 <= i < |ds| ==> r.value.min <= ds[i].value.min && ds[i].value.max <= r.value.max)
            && (r.value.min == d.min || exists i :: 0 <= i < |ds| && r.value.min == ds[i].value.min)
            && (r.value.max == d.max || exists i :: 0 <= i < |ds| && r.value.max == ds[i].value.max)
    decreases |ds|
  {
    if ds != [] {
      var n := ds[0].value;
      var acc := Domain(Min(d.min, n.min), Max(d.max, n.max));
      CombinedAllDefined(acc, ds[1..]);
      var r := CombinedDomain(Some(d), ds);
      assert r == CombinedDomain(Some(acc), ds[1..]);
      forall i | 0 <= i < |ds|
        ensures r.value.min <= ds[i].value.min && ds[i].value.max <= r.value.max
      {
        if i > 0 { assert ds[i] == ds[1..][i - 1]; }
      }
      if r.value.min != acc.min {
        var j :| 0 <= j < |ds[1..]| && r.value.min == ds[1..][j].value.min;
        assert r.value.min == ds[j + 1].value.min;
      }
      if r.value.max != acc.max {
        var j :| 0 <= j < |ds[1..]| && r.value.max == ds[1..][j].value.max;
        assert r.value.max == ds[j + 1].value.max;
      }
    }
  }

  /** At the first undefined operand the accumulated domain is returned, and it
      is defined: it is the combination of the operands before it. */
  lemma {:induction false} CombinedStopsAtFirstUndefined(d: Domain, ds: seq<Option<Domain>>, k: nat)
    requires k < |ds| && ds[k].None? && AllDefined(ds[..k])
    ensures CombinedDomain(Some(d), ds) == CombinedDomain(Some(d), ds[..k])
    ensures CombinedDomain(Some(d), ds).Some?
    decreases k
  {
    if k > 0 {
      var n := ds[0].value;
      var acc := Domain(Min(d.min, n.min), Max(d.max, n.max));
      assert ds[1..][..k - 1] == ds[..k][1..];
      CombinedStopsAtFirstUndefined(acc, ds[1..], k - 1);
    } else {
      assert ds[..0] == [];
    }
  }

  /** Once an undefined operand has been met, the operands after it are never
      consulted. */
  lemma {:induction false} CombinedIgnoresRest(d: Option<Domain>, ds: seq<Option<Domain>>, rest: seq<Option<Domain>>)
    requires ds != [] && (d.None? || exists k :: 0 <= k < |ds| && ds[k].None?)
    ensures CombinedDomain(d, ds + rest) == CombinedDomain(d, ds)
    decreases |ds|
  {
    assert (ds + rest)[0] == ds[0];
    if d.Some? && ds[0].Some? {
      var k :| 0 <= k < |ds| && ds[k].None?;
      assert ds[1..] != [] && ds[1..][k - 1].None?;
      var n := ds[0].value;
      var acc := Domain(Min(d.value.min, n.min), Max(d.value.max, n.max));
      assert (ds + rest)[1..] == ds[1..] + rest;
      CombinedIgnoresRest(Some(acc), ds[1..], rest);
    }
  }

  // ---------------------------------------------------------------------------
  // extendEmptyDomain, clampBound, extendDomain
  // ---------------------------------------------------------------------------

  /** `Number.EPSILON`, 2^-52. */
  const Epsilon: real := 1.0 / 4503599627370496.0

  /** `clampBound`: keep 0, push a non-zero magnitude below Epsilon up to
      Epsilon and one above 1/Epsilon down to 1/Epsilon, keeping the sign. */
  function ClampBound(val: real): (r: real)
    ensures r == 0.0 <==> val == 0.0
    ensures r > 0.0 <==> val > 0.0
    ensures val != 0.0 ==> Epsilon <= Abs(r) <= 1.0 / Epsilon
    ensures val != 0.0 && Abs(val) < Epsilon ==> r == Sign(val) * Epsilon
    ensures Abs(val) > 1.0 / Epsilon ==> r == Sign(val) / Epsilon
    ensures Epsilon <= Abs(val) <= 1.0 / Epsilon ==> r == val
  {
    var absVal := Abs(val);
    if absVal < Epsilon then (if val == 0.0 then val else Sign(val) * Epsilon)
    else if absVal > 1.0 / Epsilon then Sign(val) / Epsilon
    else val
  }

  /** Clamping never reorders two bounds. */
  lemma ClampBoundMonotone(a: real, b: real)
    requires a <= b
    ensures ClampBound(a) <= ClampBound(b)
  {
    if a < 0.0 < b {
      assert ClampBound(a) < 0.0 < ClampBound(b);
    }
  }

  /** Clamping a clamped bound changes nothing. */
  lemma ClampBoundIdempotent(val: real)
    ensures ClampBound(ClampBound(val)) == ClampBound(val)
  {
  }

  /** `extendEmptyDomain` for the one-point domain `[value, value]`.
      `tenPowF` stands for `10 ** extendFactor`, so that `10 ** -extendFactor`
      is `1 / tenPowF`. */
  function ExtendEmptyDomain(value: real, extendFactor: real, scaleType: ScaleType, tenPowF: real): (r: Domain)
    requires scaleType == Log ==> tenPowF > 0.0
    ensures scaleType == Log ==> r.min * tenPowF == value && r.max == value * tenPowF
    ensures scaleType != Log && value == 0.0 ==> r == Domain(-1.0, 1.0)
    ensures scaleType != Log && value != 0.0 ==> r.max - value == value - r.min == Abs(value) * extendFactor
    ensures scaleType != Log && value != 0.0 && extendFactor > 0.0 ==> r.min < value < r.max
  {
    if scaleType == Log then Domain(value / tenPowF, value * tenPowF)
    else if value == 0.0 then Domain(-1.0, 1.0)
    else
      var extension := Abs(value) * extendFactor;
      Domain(value - extension, value + extension)
  }

  /** `extendDomain`: widen `domain` by `extendFactor` of its width on each
      side. `tenPowF` stands for `10 ** extendFactor` and `invert` for the
      inverse of the axis scale of type `scaleType` mapping `domain` onto
      `[0, 1]`. */
  function ExtendDomain(domain: Domain, extendFactor: real, scaleType: ScaleType, tenPowF: real, invert: real -> real): (r: Result<Domain>)
    requires scaleType == Log && extendFactor > 0.0 ==> tenPowF > 0.0
    ensures extendFactor <= 0.0 ==> r == Ok(domain)
    ensures r.Err? <==> extendFactor > 0.0 && domain.min <= 0.0 && scaleType == Log
    ensures r.Ok? && extendFactor > 0.0 && domain.min != domain.max ==>
              r.value.min == ClampBound(invert(-extendFactor)) && r.value.max == ClampBound(invert(1.0 + extendFactor))
  {
    if extendFactor <= 0.0 then Ok(domain)
    else if domain.min <= 0.0 && scaleType == Log then Err("Expected domain compatible with log scale")
    else if domain.min == domain.max then Ok(ExtendEmptyDomain(domain.min, extendFactor, scaleType, tenPowF))
    else Ok(Domain(ClampBound(invert(-extendFactor)), ClampBound(invert(1.0 + extendFactor))))
  }

  /** On a non-log scale the one-point domain `[v, v]` becomes `[-1, 1]` when
      `v` is 0 and otherwise `[v - |v|f, v + |v|f]`, centred on `v`. */
  lemma ExtendEmptyNotLog(v: real, f: real, scaleType: ScaleType, tenPowF: real, invert: real -> real)
    requires f > 0.0 && scaleType != Log
    ensures var r := ExtendDomain(Domain(v, v), f, scaleType, tenPowF, invert);
            && r.Ok?
            && (v == 0.0 ==> r.value == Domain(-1.0, 1.0))
            && (v != 0.0 ==> r.value.min < v < r.value.max && r.value.max - v == v - r.value.min == Abs(v) * f)
  {
    if v != 0.0 {
      assert Abs(v) * f > 0.0;
    }
  }

  /** On a log scale the positive one-point domain `[v, v]` becomes
      `[v / 10^f, v * 10^f]`: positive, containing `v`, and centred on `v` in
      log space. */
  lemma ExtendEmptyLog(v: real, f: real, tenPowF: real, invert: real -> real)
    requires f > 0.0 && v > 0.0 && tenPowF > 1.0
    ensures var r := ExtendDomain(Domain(v, v), f, Log, tenPowF, invert);
            && r.Ok?
            && r.value == Domain(v / tenPowF, v * tenPowF)
            && 0.0 < r.value.min < v < r.value.max
            && r.value.min * r.value.max == v * v
  {
    var lo := v / tenPowF;
    assert lo * tenPowF == v;
    assert v < v * tenPowF;
    assert lo > 0.0;
    assert lo * (tenPowF - 1.0) > 0.0;
    assert lo < v;
    assert lo * (v * tenPowF) == (lo * tenPowF) * v;
  }

  /** The inverse of the linear scale that maps `d` onto `[0, 1]`. */
  function LinearInvert(d: Domain): real -> real
  {
    t => d.min + t * (d.max - d.min)
  }

  /** On a linear scale `extendDomain` widens a proper domain whose bounds
      `clampBound` leaves alone: the result still contains the domain. */
  lemma ExtendLinearWidens(d: Domain, f: real, tenPowF: real)
    requires f > 0.0 && d.min < d.max
    requires ClampBound(d.min) == d.min && ClampBound(d.max) == d.max
    ensures var r := ExtendDomain(d, f, Linear, tenPowF, LinearInvert(d));
            r.Ok? && r.value.min <= d.min < d.max <= r.value.max
  {
    var w := d.max - d.min;
    var lo := LinearInvert(d)(-f);
    var hi := LinearInvert(d)(1.0 + f);
    assert lo == d.min - f * w && hi == d.max + f * w;
    assert f * w > 0.0;
    assert ExtendDomain(d, f, Linear, tenPowF, LinearInvert(d)) == Ok(Domain(ClampBound(lo), ClampBound(hi)));
    ClampBoundMonotone(lo, d.min);
    ClampBoundMonotone(d.max, hi);
  }
}
