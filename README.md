# h5web visualisation and metadata helpers in Dafny

This project models the computational core of h5web, a browser viewer for
HDF5/NeXus files, and proves properties of that model:

- the domain and axis arithmetic behind its visualisations
  (`src/h5web/vis-packs/core/utils.ts`): the bounds fold of `getDomain`, with
  error bars and the log-scale clamp; the merge of domains by
  `getCombinedDomain`; `clampBound`, `extendEmptyDomain` and `extendDomain`;
  integer axis ticks; fitting a canvas to an aspect ratio; the `isScaleType`
  guard; and `applyMapping`, which slices an N-dimensional array down to the
  x (and y) axes of a dimension mapping, transposes it when x comes before y,
  and copies it into a fresh buffer;
- the guards over the HDF5 metadata model (`src/h5web/providers/utils.ts`):
  link, entity, shape and type predicates, the assertion helpers that throw
  when a predicate fails, and `getEntity`, which resolves a link through
  `metadata[collection][id]`.

Files:

- `wrappers.dfy`: `Option` (JavaScript `undefined` or a value), `Result` and
  `Outcome` (a return value or a thrown message).
- `vis_models.dfy`: scale types, `Domain`, `Bounds` (with `Infinity` as an
  explicit case), `Size`, and `isScaleType`.
- `vis_domain.dfy`: `getNewBounds`, `getDomain`, `getCombinedDomain`,
  `clampBound`, `extendEmptyDomain`, `extendDomain`.
- `vis_layout.dfy`: `computeVisSize`, `getIntegerTicks`.
- `vis_mapping.dfy`: `applyMapping` as a method that fills a fresh array, with
  the row-major index arithmetic it relies on.
- `providers.dfy`: the metadata guards, assertion helpers and `getEntity`.

Numbers are mathematical reals. `Number.EPSILON` is written exactly, as
2^-52. Thrown errors become `Err`/`Fail` values that carry the message the
source throws.

## Model

| member | source | states |
|---|---|---|
| `VisModels.IsScaleType` | src/h5web/vis-packs/core/utils.ts:271-275 | true exactly for a string that is the value of some scale type, and false for every non-string |
| `VisModels.MinExtended` | src/h5web/vis-packs/core/utils.ts:85 | `Math.min` against the `Infinity` sentinel: Infinity leaves the value unchanged, and otherwise the smaller of the two is returned |
| `VisDomain.NewBounds` | src/h5web/vis-packs/core/utils.ts:80-87 | the new bounds take in the value and widen the old ones; each bound is either the old bound or the value; minPositive only moves down, and only for a positive value |
| `VisDomain.FoldEncloses` | src/h5web/vis-packs/core/utils.ts:111-120 | after any prefix of the values, the reducer's min and max enclose every value and, for each non-zero error, `v - err` and `v + err` |
| `VisDomain.FoldAttains` | src/h5web/vis-packs/core/utils.ts:111-120 | after a non-empty prefix, the reducer's min and max are each one of those points |
| `VisDomain.FoldTracksLeastPositive` | src/h5web/vis-packs/core/utils.ts:80-87 | the reducer's minPositive is the least strictly positive point seen so far, and it stays Infinity while none has been seen |
| `VisDomain.FoldIsSpan` | src/h5web/vis-packs/core/utils.ts:111-123 | the full fold's `[min, max]` is the span of all points: min <= max, it encloses every point and both bounds are points |
| `VisDomain.GetDomain` | src/h5web/vis-packs/core/utils.ts:89-129 | no values gives `undefined`; it throws exactly when an error array is given whose length differs from the values' length |
| `VisDomain.GetDomainNotLog` | src/h5web/vis-packs/core/utils.ts:111-124 | on a non-log scale, the result for non-empty values is the span of the values and their error bars |
| `VisDomain.SpanUnique` | src/h5web/vis-packs/core/utils.ts:111-123 | the span of a set of points is unique |
| `VisDomain.GetDomainLog` | src/h5web/vis-packs/core/utils.ts:122-128 | on a log scale, a span with `min * max > 0` is returned unchanged; otherwise the result is defined exactly when some point is positive, and it is `[least positive point, max]` |
| `VisDomain.CombinedDomain` | src/h5web/vis-packs/core/utils.ts:277-298 | with nothing to combine, the domain is returned; with an undefined domain, the first entry is returned |
| `VisDomain.CombinedAllDefined` | src/h5web/vis-packs/core/utils.ts:277-298 | when the domain and every entry are defined, the result is defined; its min is the least of all mins and is one of them, and its max is the greatest of all maxes and is one of them |
| `VisDomain.CombinedStopsAtFirstUndefined` | src/h5web/vis-packs/core/utils.ts:287-289 | at the first undefined entry, the result is the (defined) combination of the entries before it |
| `VisDomain.CombinedIgnoresRest` | src/h5web/vis-packs/core/utils.ts:285-289 | once an undefined operand has been met, entries appended after it do not change the result |
| `VisDomain.ClampBound` | src/h5web/vis-packs/core/utils.ts:148-160 | 0 stays 0 and signs are kept; a non-zero magnitude below EPSILON becomes sign*EPSILON and one above 1/EPSILON becomes sign/EPSILON; magnitudes in between are unchanged, so every non-zero result has its magnitude in [EPSILON, 1/EPSILON] |
| `VisDomain.ClampBoundMonotone` | src/h5web/vis-packs/core/utils.ts:148-160 | clamping never reorders two bounds |
| `VisDomain.ClampBoundIdempotent` | src/h5web/vis-packs/core/utils.ts:148-160 | clamping a clamped bound changes nothing |
| `VisDomain.ExtendEmptyDomain` | src/h5web/vis-packs/core/utils.ts:131-146 | on a log scale the bounds are the value divided and multiplied by `10 ** f`; otherwise 0 gives `[-1, 1]`, and any other value gets a domain extended by `\|v\| * f` on each side, which strictly contains v when f > 0 (both branches are also stated through `extendDomain` by ExtendEmptyNotLog and ExtendEmptyLog) |
| `VisDomain.ExtendDomain` | src/h5web/vis-packs/core/utils.ts:162-187 | a factor <= 0 returns the domain unchanged; it throws exactly when the factor is positive, the scale is log and min <= 0; in the general branch, the bounds are the clamped inverses of `-f` and `1 + f` |
| `VisDomain.ExtendEmptyNotLog` | src/h5web/vis-packs/core/utils.ts:131-146 | on a non-log scale, the domain `[v, v]` becomes `[-1, 1]` for v = 0, and otherwise `[v - \|v\|f, v + \|v\|f]`, which strictly contains v and is centred on it |
| `VisDomain.ExtendEmptyLog` | src/h5web/vis-packs/core/utils.ts:136-138 | on a log scale, with `10 ** f` above 1, the positive domain `[v, v]` becomes exactly `[v / 10^f, v * 10^f]`: a positive domain that strictly contains v and is centred on it in log space (min * max == v²) |
| `VisDomain.ExtendLinearWidens` | src/h5web/vis-packs/core/utils.ts:181-186 | on a linear scale, a proper domain whose bounds clampBound leaves alone is contained in its extension |
| `VisLayout.ComputeVisSize` | src/h5web/vis-packs/core/utils.ts:57-78 | the result is `undefined` exactly when width and height are both <= 0; with no (or a zero) aspect ratio, the available size is returned; otherwise width == height * ratio, and the box keeps the full available width or the full height |
| `VisLayout.VisSizeFits` | src/h5web/vis-packs/core/utils.ts:71-77 | with a positive aspect ratio, the box fits within the available width and height |
| `VisLayout.IntegerTicks` | src/h5web/vis-packs/core/utils.ts:226-246 | no ticks when the optimal count is 0; otherwise every tick is a multiple of the step inside `[min, max]`, and consecutive ticks are exactly one step apart |
| `VisLayout.TicksInDomain` | src/h5web/vis-packs/core/utils.ts:241-245 | the ticks `(start + i) * step`, whose first and last multipliers lie between min/step and max/step, are multiples of step inside the domain |
| `VisLayout.ScaledBetween` | src/h5web/vis-packs/core/utils.ts:241-245 | `n * step` lies in the domain exactly when n lies in the domain divided by step |
| `VisLayout.IntegerTicksComplete` | src/h5web/vis-packs/core/utils.ts:238-245 | every multiple of the step inside the domain is a tick (when the optimal count is not 0) |
| `VisLayout.IntegerTicksNoInteger` | src/h5web/vis-packs/core/utils.ts:226-236 | a domain that contains no integer gets no ticks |
| `VisMapping.IndexOf` | src/h5web/vis-packs/core/utils.ts:326 | `indexOf`: the first position of the entry, or -1 exactly when it is absent |
| `VisMapping.KeptAxes` | src/h5web/vis-packs/core/utils.ts:328-329 | `pick` keeps the x and y axes in mapping order: `[x]`, `[x, y]` or `[y, x]` |
| `VisMapping.MappedViewAxes` | src/h5web/vis-packs/core/utils.ts:325-330 | after the pick and the transpose applied when x precedes y, the view's first axis is y and its last is x, with the base array's strides for those axes |
| `VisMapping.MappedShapeIsRowsByCols` | src/h5web/vis-packs/core/utils.ts:325-333 | the mapped shape (the kept axes, swapped when x precedes y) is `[len y, len x]`, or `[len x]` without a y axis |
| `VisMapping.CellPosition` | src/h5web/vis-packs/core/utils.ts:328-330 | the flat position of row i, column j is the sliced offset plus i times y's stride plus j times x's stride |
| `VisMapping.ViewCell` | src/h5web/vis-packs/core/utils.ts:328-334 | reading the mapped view at (i, j) reads, in bounds, the base cell whose index has the slice indices, i on y and j on x |
| `VisMapping.Assign` | src/h5web/vis-packs/core/utils.ts:333-334 | fills a fresh buffer of rows*cols cells so that cell (i, j) in row-major order holds the view's element (i, j) |
| `VisMapping.ApplyMapping` | src/h5web/vis-packs/core/utils.ts:312-337 | `undefined` in gives `undefined` out; otherwise the shape is the kept axes, swapped when x precedes y; the data is row-major with rows*cols cells; and cell (i, j) equals the base cell whose index has the numeric slice entries substituted, i on y and j on x |
| `Providers.IsHardLink` | src/h5web/providers/utils.ts:22-24 | true exactly for hard links |
| `Providers.IsReachable` | src/h5web/providers/utils.ts:26-31 | true exactly for hard and root links (those that name an entity by collection and id), so every hard link is reachable and soft and external links are not |
| `Providers.IsDataset` | src/h5web/providers/utils.ts:33-35 | reads only the collection tag; on a well-tagged entity, true exactly for datasets |
| `Providers.IsDatatype` | src/h5web/providers/utils.ts:37-39 | reads only the collection tag; on a well-tagged entity, true exactly for datatypes |
| `Providers.IsGroup` | src/h5web/providers/utils.ts:41-43 | reads only the collection tag; on a well-tagged entity, true exactly for groups |
| `Providers.EntityGuardsExclusive` | src/h5web/providers/utils.ts:33-43 | the three entity guards agree on entities with the same collection; exactly one of them holds for any entity |
| `Providers.HasSimpleShape` | src/h5web/providers/utils.ts:45-49 | true exactly for a simple dataspace |
| `Providers.HasScalarShape` | src/h5web/providers/utils.ts:51-55 | true exactly for a scalar dataspace, and never together with hasSimpleShape |
| `Providers.HasBaseType` | src/h5web/providers/utils.ts:57-66 | true exactly for an integer, float or string type object; false for a type given by id |
| `Providers.HasNumericType` | src/h5web/providers/utils.ts:68-75 | true exactly for an integer or float type object; it implies hasBaseType; both are false for a type given by id |
| `Providers.AssertDataset` | src/h5web/providers/utils.ts:77-84 | passes exactly when isDataset holds, and otherwise throws the given message (by default "Expected dataset") |
| `Providers.AssertGroup` | src/h5web/providers/utils.ts:86-93 | passes exactly when isGroup holds, and otherwise throws the given message (by default "Expected group") |
| `Providers.AssertNumericType` | src/h5web/providers/utils.ts:95-101 | passes exactly when hasNumericType holds, and otherwise throws its message |
| `Providers.AssertSimpleShape` | src/h5web/providers/utils.ts:103-113 | passes exactly for a simple shape with at least one dimension; a non-simple shape and a simple shape without dimensions each throw their own message |
| `Providers.GetEntity` | src/h5web/providers/utils.ts:115-126 | defined exactly when the link is given, is reachable, and its collection and id are both present in the metadata; the result is then exactly the entry at `metadata[collection][id]` |
| `Providers.GetEntityNamesLinkTarget` | src/h5web/providers/utils.ts:115-126 | in well-filed metadata, the entity found carries the link's collection and id, so a link into datasets resolves to an entity that assertDataset accepts, and a link into groups to one that assertGroup accepts |

## Left out

- `createAxisScale`, `getCanvasScale`, `getValueToIndexScale`, `getTickFormatter`, `adaptedNumTicks` and the d3/visx scale objects: their behaviour is defined by d3 and visx, which are not part of this model.
- VisDomain.ExtendDomain: the general branch takes the scale's `invert` as a parameter, because the d3 scale built by `createAxisScale` is not part of this model; only the linear inverse is spelt out (`LinearInvert`, used by `ExtendLinearWidens`).
- VisDomain.ExtendEmptyNotLog: states the non-log branch only; the log branch of `extendEmptyDomain` is stated by ExtendEmptyLog, with `10 ** extendFactor` passed in as a positive real (`tenPowF`), since real powers are not available.
- VisLayout.IntegerTicks: `max(tickStep(intMin, intMax, optimalCount), 1)` is a parameter `step >= 1` (an integer, since d3's tick steps of at least 1 are 1, 2 or 5 times a power of 10); which step d3 picks is not modelled. `count` is meant to be an integer >= 1, as callers pass it (`adaptedNumTicks` is clamped to 3..10); a negative count, for which d3's `tickStep` yields Infinity or NaN and the source returns `[NaN]` or `[]`, is not modelled, and the model still returns the multiples of the step for it.
- VisMapping.ApplyMapping: requires the mapping the dimension mapper builds (one entry per axis, exactly one `x`, at most one `y`, slice indices in range) and a row-major base array as `getBaseArray` builds it; `ndarray`'s other layouts, and its behaviour on a malformed mapping, are not modelled.
- `getBaseArray` (`value.flat(Infinity)` into an `ndarray`) and the `ndarray`/`ndarray-ops` internals: arrays are modelled as row-major data plus a shape.
- IEEE-754 behaviour: NaN (including a NaN error bar, which is falsy in JavaScript), rounding and overflow are not modelled; numbers are reals.
- The `ScaleType` enumeration's declaration is not part of this model. The three scale types `createAxisScale` handles are modelled, with the string values "linear", "log" and "symlog".
- The declarations of the metadata types (`providers/models.ts`) are not part of this model. Links keep the fields their variants declare (title, collection and id, h5path, file); entities, shapes and types keep only the fields the guards and `getEntity` read. Groups' children and attributes are left out.
