/** `applyMapping` (src/h5web/vis-packs/core/utils.ts): project an N-dimensional
    array onto the one or two axes a dimension mapping keeps, and copy the
    projection into a fresh row-major buffer. */
module VisMapping {
  import opened Wrappers

  /** One entry of a dimension mapping: a fixed slice index, or an axis kept
      as the x or the y axis of the view. */
  datatype MappingEntry = Slice(index: int) | X | Y

  type DimensionMapping = seq<MappingEntry>

  /** An n-dimensional array laid out in row-major order, as `getBaseArray`
      builds it. */
  datatype NdArray<T> = NdArray(data: seq<T>, shape: seq<nat>)

  function Product(shape: seq<nat>): nat
  {
    if shape == [] then 1 else shape[0] * Product(shape[1..])
  }

  predicate WellFormed<T>(a: NdArray<T>)
  {
    |a.data| == Product(a.shape)
  }

  /** The row-major strides of a shape: each axis steps over the product of
      the axes after it. */
  function Strides(shape: seq<nat>): (s: seq<nat>)
    ensures |s| == |shape|
  {
    if shape == [] then [] else [Product(shape[1..])] + Strides(shape[1..])
  }

  /** The flat position of a multi-index under the given strides. */
  function Dot(idx: seq<int>, strides: seq<nat>): int
    requires |idx| == |strides|
  {
    if idx == [] then 0 else idx[0] * strides[0] + Dot(idx[1..], strides[1..])
  }

  predicate InBounds(idx: seq<int>, shape: seq<nat>)
  {
    |idx| == |shape| && forall k :: 0 <= k < |idx| ==> 0 <= idx[k] < shape[k]
  }

  lemma MulLeq(a: int, b: int, c: nat)
    requires a <= b
    ensures a * c <= b * c
  {
    assert (b - a) * c >= 0;
  }

  /** An in-bounds multi-index has a flat position inside the data. */
  lemma {:induction false} DotInBounds(idx: seq<int>, shape: seq<nat>)
    requires InBounds(idx, shape)
    ensures 0 <= Dot(idx, Strides(shape)) < Product(shape)
  {
    if shape != [] {
      var p := Product(shape[1..]);
      assert InBounds(idx[1..], shape[1..]);
      DotInBounds(idx[1..], shape[1..]);
      assert Strides(shape)[1..] == Strides(shape[1..]);
      var rest := Dot(idx[1..], Strides(shape[1..]));
      assert Dot(idx, Strides(shape)) == idx[0] * p + rest;
      MulLeq(0, idx[0], p);
      MulLeq(idx[0] + 1, shape[0], p);
      assert (idx[0] + 1) * p == idx[0] * p + p;
    }
  }

  /** The element of a well-formed array at an in-bounds multi-index. */
  function Get<T>(a: NdArray<T>, idx: seq<int>): T
    requires WellFormed(a) && InBounds(idx, a.shape)
  {
    DotInBounds(idx, a.shape);
    a.data[Dot(idx, Strides(a.shape))]
  }

  /** Changing one coordinate moves the flat position by the change times
      that axis's stride. */
  lemma {:induction false} DotUpdate(idx: seq<int>, strides: seq<nat>, k: nat, v: int)
    requires |idx| == |strides| && k < |idx|
    ensures Dot(idx[k := v], strides) == Dot(idx, strides) + (v - idx[k]) * strides[k]
  {
    if k == 0 {
      assert idx[k := v][1..] == idx[1..];
      assert v * strides[0] == idx[0] * strides[0] + (v - idx[0]) * strides[0];
    } else {
      assert idx[k := v][1..] == idx[1..][k - 1 := v];
      DotUpdate(idx[1..], strides[1..], k - 1, v);
    }
  }

  // ---------------------------------------------------------------------------
  // Dimension mappings
  // ---------------------------------------------------------------------------

  /** `Array.prototype.indexOf`: the first position of `e`, or -1. */
  function IndexOf(m: DimensionMapping, e: MappingEntry): (i: int)
    ensures -1 <= i < |m|
    ensures i == -1 <==> e !in m
    ensures i >= 0 ==> m[i] == e && forall k :: 0 <= k < i ==> m[k] != e
  {
    if m == [] then -1
    else if m[0] == e then 0
    else
      var i := IndexOf(m[1..], e);
      if i == -1 then -1 else i + 1
  }

  /** `isXBeforeY`: the mapping has a y axis and its x axis comes first. */
  predicate IsXBeforeY(m: DimensionMapping)
  {
    Y in m && IndexOf(m, X) < IndexOf(m, Y)
  }

  /** A mapping as the dimension mapper builds it for an array of the given
      shape: one entry per axis, exactly one x axis, at most one y axis, and
      every slice index inside its axis. */
  predicate ValidMapping(m: DimensionMapping, shape: seq<nat>)
  {
    && |m| == |shape|
    && X in m
    && (forall k, l :: 0 <= k < |m| && 0 <= l < |m| && m[k] == X && m[l] == X ==> k == l)
    && (forall k, l :: 0 <= k < |m| && 0 <= l < |m| && m[k] == Y && m[l] == Y ==> k == l)
    && (forall k :: 0 <= k < |m| && m[k].Slice? ==> 0 <= m[k].index < shape[k])
  }

  /** The multi-index of the base array behind row `row` and column `col` of
      the view: the slice indices, with `col` on the x axis and `row` on the y
      axis. */
  function BaseIndex(m: DimensionMapping, row: int, col: int): (idx: seq<int>)
    ensures |idx| == |m|
    ensures forall k :: 0 <= k < |m| ==> idx[k] == match m[k] case Slice(s) => s case X => col case Y => row
  {
    seq(|m|, k requires 0 <= k < |m| => match m[k] case Slice(s) => s case X => col case Y => row)
  }

  /** The entries of `v` at the axes the mapping keeps (not sliced), from
      position `k` on, in order: the shape or strides `pick` leaves. */
  function KeptFrom(m: DimensionMapping, v: seq<nat>, k: nat): seq<nat>
    requires |m| == |v| && k <= |m|
    decreases |m| - k
  {
    if k == |m| then [] else (if m[k].Slice? then [] else [v[k]]) + KeptFrom(m, v, k + 1)
  }

  function Reverse(s: seq<nat>): seq<nat>
  {
    if s == [] then [] else Reverse(s[1..]) + [s[0]]
  }

  /** The shape of the mapped array: the kept axes of the base shape, swapped
      when x comes before y. */
  function MappedShape(m: DimensionMapping, shape: seq<nat>): seq<nat>
    requires |m| == |shape|
  {
    var kept := KeptFrom(m, shape, 0);
    if IsXBeforeY(m) then Reverse(kept) else kept
  }

  /** The entries of `v` at the positions `ps`, in order. */
  function Entries(v: seq<nat>, ps: seq<nat>): seq<nat>
    requires forall i :: 0 <= i < |ps| ==> ps[i] < |v|
  {
    if ps == [] then [] else [v[ps[0]]] + Entries(v, ps[1..])
  }

  /** Keeping the axes listed, in increasing order, by `ps` picks the entries
      of `v` at `ps`. */
  lemma {:induction false} KeptFromPositions(m: DimensionMapping, v: seq<nat>, k: nat, ps: seq<nat>)
    requires |m| == |v| && k <= |m|
    requires forall i :: 0 <= i < |ps| ==> k <= ps[i] < |m|
    requires forall i, j :: 0 <= i < j < |ps| ==> ps[i] < ps[j]
    requires forall p :: k <= p < |m| ==> (!m[p].Slice? <==> p in ps)
    ensures KeptFrom(m, v, k) == Entries(v, ps)
    decreases |m| - k
  {
    if k == |m| {
      assert ps == [];
    } else if m[k].Slice? {
      forall i | 0 <= i < |ps| ensures k + 1 <= ps[i] { assert ps[i] != k; }
      KeptFromPositions(m, v, k + 1, ps);
    } else {
      assert k in ps;
      var j :| 0 <= j < |ps| && ps[j] == k;
      assert ps[0] == k;
      var rest := ps[1..];
      forall p | k + 1 <= p < |m| ensures !m[p].Slice? <==> p in rest {
        if p in ps {
          var q :| 0 <= q < |ps| && ps[q] == p;
          assert rest[q - 1] == p;
        }
      }
      forall i | 0 <= i < |rest| ensures k + 1 <= rest[i] { assert ps[0] < ps[i + 1]; }
      KeptFromPositions(m, v, k + 1, rest);
    }
  }

  /** The position of the x axis of a valid mapping. */
  function XAxis(m: DimensionMapping): (x: nat)
    requires X in m
    ensures x < |m| && m[x] == X
  {
    IndexOf(m, X)
  }

  /** The position of the y axis of a mapping that has one. */
  function YAxis(m: DimensionMapping): (y: nat)
    requires Y in m
    ensures y < |m| && m[y] == Y
  {
    IndexOf(m, Y)
  }

  /** Rows follow the y axis (a single row when there is none) and columns
      the x axis. */
  function Rows(m: DimensionMapping, shape: seq<nat>): nat
    requires ValidMapping(m, shape)
  {
    if Y in m then shape[YAxis(m)] else 1
  }

  function Cols(m: DimensionMapping, shape: seq<nat>): nat
    requires ValidMapping(m, shape)
  {
    shape[XAxis(m)]
  }

  /** A mapping that keeps exactly the axis `a` keeps `[v[a]]`. */
  lemma KeptSingle(m: DimensionMapping, v: seq<nat>, a: nat)
    requires |m| == |v| && a < |m|
    requires forall p :: 0 <= p < |m| ==> (!m[p].Slice? <==> p == a)
    ensures KeptFrom(m, v, 0) == [v[a]]
  {
    KeptFromPositions(m, v, 0, [a]);
    assert Entries(v, [a]) == [v[a]] + Entries(v, []);
  }

  /** A mapping that keeps exactly the axes `a < b` keeps `[v[a], v[b]]`. */
  lemma KeptPair(m: DimensionMapping, v: seq<nat>, a: nat, b: nat)
    requires |m| == |v| && a < b < |m|
    requires forall p :: 0 <= p < |m| ==> (!m[p].Slice? <==> p == a || p == b)
    ensures KeptFrom(m, v, 0) == [v[a], v[b]]
  {
    KeptFromPositions(m, v, 0, [a, b]);
    assert Entries(v, [a, b]) == [v[a]] + Entries(v, [b]);
    assert Entries(v, [b]) == [v[b]] + Entries(v, []);
  }

  /** The kept entries of `v` are those of the x and y axes, in mapping
      order; swapped when x comes first, they are y's then x's. */
  lemma KeptAxes(m: DimensionMapping, shape: seq<nat>, v: seq<nat>)
    requires ValidMapping(m, shape) && |v| == |m|
    ensures var x := XAxis(m);
            && (Y !in m ==> KeptFrom(m, v, 0) == [v[x]])
            && (Y in m ==> var y := YAxis(m);
                  KeptFrom(m, v, 0) == if IsXBeforeY(m) then [v[x], v[y]] else [v[y], v[x]])
  {
    var x := XAxis(m);
    if Y !in m {
      forall p | 0 <= p < |m| ensures !m[p].Slice? <==> p == x {
        if m[p] == X { assert m[x] == X; }
      }
      KeptSingle(m, v, x);
    } else {
      var y := YAxis(m);
      forall p | 0 <= p < |m| ensures !m[p].Slice? <==> p == x || p == y {
        if m[p] == X { assert m[x] == X; }
        if m[p] == Y { assert m[y] == Y; }
      }
      if IsXBeforeY(m) {
        KeptPair(m, v, x, y);
      } else {
        assert x != y;
        KeptPair(m, v, y, x);
      }
    }
  }

  /** The mapped shape is `[rows, cols]` with a y axis and `[cols]` without:
      however the mapping orders its axes, rows run along y and columns along
      x. */
  lemma MappedShapeIsRowsByCols(m: DimensionMapping, shape: seq<nat>)
    requires ValidMapping(m, shape)
    ensures MappedShape(m, shape) == if Y in m then [Rows(m, shape), Cols(m, shape)] else [Cols(m, shape)]
  {
    KeptAxes(m, shape, shape);
    var kept := KeptFrom(m, shape, 0);
    if IsXBeforeY(m) {
      assert Reverse(kept) == Reverse(kept[1..]) + [kept[0]];
      assert Reverse(kept[1..]) == Reverse(kept[1..][1..]) + [kept[1]];
    }
  }

  // ---------------------------------------------------------------------------
  // pick, transpose and assign
  // ---------------------------------------------------------------------------

  /** A strided view over a flat buffer, as `ndarray` views are. */
  datatype View = View(offset: int, shape: seq<nat>, stride: seq<nat>)

  /** `pick(...slicingState)`: fix the sliced axes, keep the others. */
  function Pick(shape: seq<nat>, m: DimensionMapping): View
    requires |m| == |shape|
  {
    View(Dot(BaseIndex(m, 0, 0), Strides(shape)), KeptFrom(m, shape, 0), KeptFrom(m, Strides(shape), 0))
  }

  /** `transpose(1, 0)` of a two-dimensional view. */
  function Transpose(v: View): View
    requires |v.shape| == 2 && |v.stride| == 2
  {
    View(v.offset, [v.shape[1], v.shape[0]], [v.stride[1], v.stride[0]])
  }

  /** The view `applyMapping` copies: picked, then transposed when x comes
      before y. Its first axis is y and its last x. */
  lemma MappedViewAxes(shape: seq<nat>, m: DimensionMapping)
    requires ValidMapping(m, shape)
    ensures var v := Pick(shape, m);
            && |v.shape| == |v.stride| == (if Y in m then 2 else 1)
            && var mv := if IsXBeforeY(m) then Transpose(v) else v;
            var s := Strides(shape);
            && mv.offset == Dot(BaseIndex(m, 0, 0), s)
            && (Y in m ==> mv.shape == [Rows(m, shape), Cols(m, shape)] && mv.stride == [s[YAxis(m)], s[XAxis(m)]])
            && (Y !in m ==> mv.shape == [Cols(m, shape)] && mv.stride == [s[XAxis(m)]])
  {
    KeptAxes(m, shape, shape);
    KeptAxes(m, shape, Strides(shape));
  }

  /** The flat position behind row `row` and column `col` of the mapped view. */
  lemma CellPosition(shape: seq<nat>, m: DimensionMapping, row: int, col: int)
    requires ValidMapping(m, shape)
    ensures var s := Strides(shape);
            Dot(BaseIndex(m, row, col), s) ==
              Dot(BaseIndex(m, 0, 0), s) + (if Y in m then row * s[YAxis(m)] else 0) + col * s[XAxis(m)]
  {
    var s := Strides(shape);
    var base0 := BaseIndex(m, 0, 0);
    var x := XAxis(m);
    var withCol := base0[x := col];
    BaseIndexFromOrigin(m, row, col);
    DotUpdate(base0, s, x, col);
    assert Dot(withCol, s) == Dot(base0, s) + col * s[x];
    if Y in m {
      var y := YAxis(m);
      DotUpdate(withCol, s, y, row);
      assert Dot(withCol[y := row], s) == Dot(withCol, s) + row * s[y];
    }
  }

  /** The base index of row `row`, column `col` is the origin's with `col`
      written on the x axis and `row` on the y axis. */
  lemma BaseIndexFromOrigin(m: DimensionMapping, row: int, col: int)
    requires X in m
    requires forall k, l :: 0 <= k < |m| && 0 <= l < |m| && m[k] == X && m[l] == X ==> k == l
    requires forall k, l :: 0 <= k < |m| && 0 <= l < |m| && m[k] == Y && m[l] == Y ==> k == l
    ensures var base0, x := BaseIndex(m, 0, 0), XAxis(m);
            && base0[x] == 0
            && (Y in m ==> XAxis(m) != YAxis(m) && base0[x := col][YAxis(m)] == 0
                           && BaseIndex(m, row, col) == base0[x := col][YAxis(m) := row])
            && (Y !in m ==> BaseIndex(m, row, col) == base0[x := col])
  {
    var base0, x := BaseIndex(m, 0, 0), XAxis(m);
    var idx := BaseIndex(m, row, col);
    if Y in m {
      var y := YAxis(m);
      forall k | 0 <= k < |m| ensures base0[x := col][y := row][k] == idx[k] {
        if m[k] == X { assert m[x] == X; } else if m[k] == Y { assert m[y] == Y; }
      }
      assert base0[x := col][y := row] == idx;
    } else {
      forall k | 0 <= k < |m| ensures base0[x := col][k] == idx[k] {
        if m[k] == X { assert m[x] == X; }
      }
      assert base0[x := col] == idx;
    }
  }

  /** Row `row` and column `col` address an in-bounds base cell. */
  lemma CellInBounds(shape: seq<nat>, m: DimensionMapping, row: int, col: int)
    requires ValidMapping(m, shape)
    requires 0 <= row < Rows(m, shape) && 0 <= col < Cols(m, shape)
    ensures InBounds(BaseIndex(m, row, col), shape)
  {
  }

  /** The position of row `row`, column `col` in a row-major buffer with
      `cols` columns. */
  function RowMajor(row: int, col: int, cols: int): int
  {
    row * cols + col
  }

  lemma RowMajorIndex(row: nat, col: nat, rows: nat, cols: nat)
    requires row < rows && col < cols
    ensures 0 <= RowMajor(row, col, cols) < rows * cols
  {
    MulLeq(row + 1, rows, cols);
  }

  /** Every cell of the rows before `row` comes before the row's first cell. */
  lemma RowsBefore(row: nat, cols: nat)
    ensures forall i, j :: 0 <= i < row && 0 <= j < cols ==> RowMajor(i, j, cols) < RowMajor(row, 0, cols)
  {
    forall i, j | 0 <= i < row && 0 <= j < cols ensures RowMajor(i, j, cols) < RowMajor(row, 0, cols) {
      MulLeq(i + 1, row, cols);
    }
  }

  /** The stride of the view's rows: y's stride, or 0 for a single row. */
  function RowStride(m: DimensionMapping, shape: seq<nat>): nat
    requires ValidMapping(m, shape)
  {
    if Y in m then Strides(shape)[YAxis(m)] else 0
  }

  function ColStride(m: DimensionMapping, shape: seq<nat>): nat
    requires ValidMapping(m, shape)
  {
    Strides(shape)[XAxis(m)]
  }

  /** The value `applyMapping` puts at row `row`, column `col`: the base cell
      whose index holds the slice indices, `row` on y and `col` on x. */
  function MappedCell<T>(base: NdArray<T>, m: DimensionMapping, row: int, col: int): T
    requires WellFormed(base) && ValidMapping(m, base.shape)
    requires 0 <= row < Rows(m, base.shape) && 0 <= col < Cols(m, base.shape)
  {
    CellInBounds(base.shape, m, row, col);
    Get(base, BaseIndex(m, row, col))
  }

  /** The buffer position a two-dimensional strided view reads for row
      `row`, column `col`. */
  function ViewPos(offset: int, rowStride: int, colStride: int, row: int, col: int): int
  {
    offset + row * rowStride + col * colStride
  }

  /** Reading the mapped view at row `row`, column `col` reads the mapped
      cell. */
  lemma ViewCell<T>(base: NdArray<T>, m: DimensionMapping, row: int, col: int)
    requires WellFormed(base) && ValidMapping(m, base.shape)
    requires 0 <= row < Rows(m, base.shape) && 0 <= col < Cols(m, base.shape)
    ensures var p := ViewPos(Dot(BaseIndex(m, 0, 0), Strides(base.shape)), RowStride(m, base.shape), ColStride(m, base.shape), row, col);
            0 <= p < |base.data| && base.data[p] == MappedCell(base, m, row, col)
  {
    CellPosition(base.shape, m, row, col);
    CellInBounds(base.shape, m, row, col);
    DotInBounds(BaseIndex(m, row, col), base.shape);
  }

  lemma ProductOfDims(rows: nat, cols: nat)
    ensures Product([cols]) == cols
    ensures Product([rows, cols]) == rows * cols
  {
    assert [rows, cols][1..] == [cols];
    assert [cols][1..] == [];
  }

  /** `assign(mappedArray, mappedView)` into a fresh buffer: copy the
      `rows` by `cols` strided view over `data` into row-major order. */
  method Assign<T(0)>(data: seq<T>, offset: int, rows: nat, rowStride: int, cols: nat, colStride: int) returns (out: array<T>)
    requires forall i, j :: 0 <= i < rows && 0 <= j < cols ==> 0 <= ViewPos(offset, rowStride, colStride, i, j) < |data|
    ensures fresh(out) && out.Length == rows * cols
    ensures forall i, j :: 0 <= i < rows && 0 <= j < cols ==>
              0 <= RowMajor(i, j, cols) < out.Length &&
              out[RowMajor(i, j, cols)] == data[ViewPos(offset, rowStride, colStride, i, j)]
  {
    out := new T[rows * cols];
    var i := 0;
    while i < rows
      invariant 0 <= i <= rows
      invariant forall i', j' :: 0 <= i' < i && 0 <= j' < cols ==>
                  0 <= RowMajor(i', j', cols) < out.Length &&
                  out[RowMajor(i', j', cols)] == data[ViewPos(offset, rowStride, colStride, i', j')]
    {
      RowsBefore(i, cols);
      var j := 0;
      while j < cols
        invariant 0 <= j <= cols
        invariant forall i', j' :: 0 <= i' < i && 0 <= j' < cols ==>
                    0 <= RowMajor(i', j', cols) < out.Length &&
                    out[RowMajor(i', j', cols)] == data[ViewPos(offset, rowStride, colStride, i', j')]
        invariant forall j' :: 0 <= j' < j ==>
                    0 <= RowMajor(i, j', cols) < out.Length &&
                    out[RowMajor(i, j', cols)] == data[ViewPos(offset, rowStride, colStride, i, j')]
      {
        RowMajorIndex(i, j, rows, cols);
        out[RowMajor(i, j, cols)] := data[ViewPos(offset, rowStride, colStride, i, j)];
        j := j + 1;
      }
      i := i + 1;
    }
  }

  /** `applyMapping`: `undefined` for an undefined array; otherwise a fresh
      row-major array of the mapped shape whose cell at row `i`, column `j`
      is the base cell with the slice indices, `i` on y and `j` on x. */
  method ApplyMapping<T(0)>(baseArray: Option<NdArray<T>>, mapping: DimensionMapping) returns (r: Option<NdArray<T>>)
    requires baseArray.Some? ==> WellFormed(baseArray.value) && ValidMapping(mapping, baseArray.value.shape)
    ensures baseArray.None? <==> r.None?
    ensures baseArray.Some? ==>
              var base := baseArray.value;
              var rows, cols := Rows(mapping, base.shape), Cols(mapping, base.shape);
              && r.value.shape == MappedShape(mapping, base.shape)
              && WellFormed(r.value)
              && |r.value.data| == rows * cols
              && forall i, j :: 0 <= i < rows && 0 <= j < cols ==>
                   0 <= RowMajor(i, j, cols) < |r.value.data| &&
                   r.value.data[RowMajor(i, j, cols)] == MappedCell(base, mapping, i, j)
  {
    if baseArray.None? {
      return None;
    }
    var base := baseArray.value;
    var isXBeforeY := Y in mapping && IndexOf(mapping, X) < IndexOf(mapping, Y);
    var slicedView := Pick(base.shape, mapping);
    MappedViewAxes(base.shape, mapping);
    var mappedView := if isXBeforeY then Transpose(slicedView) else slicedView;

    var rows, rowStride, cols, colStride;
    if |mappedView.shape| == 2 {
      rows, rowStride, cols, colStride := mappedView.shape[0], mappedView.stride[0], mappedView.shape[1], mappedView.stride[1];
    } else {
      rows, rowStride, cols, colStride := 1, 0, mappedView.shape[0], mappedView.stride[0];
    }
    assert rows == Rows(mapping, base.shape) && cols == Cols(mapping, base.shape);
    assert rowStride == RowStride(mapping, base.shape) && colStride == ColStride(mapping, base.shape);
    forall i, j | 0 <= i < rows && 0 <= j < cols
      ensures 0 <= ViewPos(mappedView.offset, rowStride, colStride, i, j) < |base.data|
      ensures base.data[ViewPos(mappedView.offset, rowStride, colStride, i, j)] == MappedCell(base, mapping, i, j)
    {
      ViewCell(base, mapping, i, j);
    }

    var mappedArray := Assign(base.data, mappedView.offset, rows, rowStride, cols, colStride);
    MappedShapeIsRowsByCols(mapping, base.shape);
    ProductOfDims(rows, cols);
    r := Some(NdArray(mappedArray[..], mappedView.shape));
  }
}
