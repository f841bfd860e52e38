/** Multi-planar reslicing and the slice sliders (app.py: the three `st.slider`
    calls and the three index expressions handed to the image panels). Views are
    new values; the volume they come from is never changed. */
module Reslice {
  import opened Results
  import opened Arrays
  import Stacking

  /** `vol[a, :, :]`: the a-th stacked image, rows by columns. */
  function Axial<T>(v: Array3<T>, a: nat): (g: Array2<T>)
    requires v.Valid() && a < v.depth
    ensures g.Valid() && g.rows == v.rows && g.cols == v.cols
    ensures forall i, j :: 0 <= i < v.rows && 0 <= j < v.cols ==> g.cells[i][j] == v.cells[a][i][j]
  {
    Array2(v.rows, v.cols, v.cells[a])
  }

  /** `vol[:, c, :]`: row c of every slice, slices by columns. */
  function Coronal<T>(v: Array3<T>, c: nat): (g: Array2<T>)
    requires v.Valid() && c < v.rows
    ensures g.Valid() && g.rows == v.depth && g.cols == v.cols
    ensures forall k, j :: 0 <= k < v.depth && 0 <= j < v.cols ==> g.cells[k][j] == v.cells[k][c][j]
  {
    Array2(v.depth, v.cols, seq(v.depth, k requires 0 <= k < v.depth => v.cells[k][c]))
  }

  /** `vol[:, :, s]`: column s of every slice, slices by rows. */
  function Sagittal<T>(v: Array3<T>, s: nat): (g: Array2<T>)
    requires v.Valid() && s < v.cols
    ensures g.Valid() && g.rows == v.depth && g.cols == v.rows
    ensures forall k, i :: 0 <= k < v.depth && 0 <= i < v.rows ==> g.cells[k][i] == v.cells[k][i][s]
  {
    Array2(v.depth, v.rows,
      seq(v.depth, k requires 0 <= k < v.depth =>
        seq(v.rows, i requires 0 <= i < v.rows => v.cells[k][i][s])))
  }

  /** The three panels shown side by side. */
  datatype Panels<T> = Panels(axial: Array2<T>, coronal: Array2<T>, sagittal: Array2<T>)

  /** The panels for the index triple (a, c, s). */
  function Views<T>(v: Array3<T>, a: nat, c: nat, s: nat): (p: Panels<T>)
    requires v.Valid() && v.InBounds(a, c, s)
    ensures p.axial.rows == v.rows && p.axial.cols == v.cols
    ensures p.coronal.rows == v.depth && p.coronal.cols == v.cols
    ensures p.sagittal.rows == v.depth && p.sagittal.cols == v.rows
  {
    Panels(Axial(v, a), Coronal(v, c), Sagittal(v, s))
  }

  /** The three panels cross at one sample: the voxel (a, c, s) is what the axial panel
      shows at (c, s), the coronal one at (a, s) and the sagittal one at (a, c). */
  lemma ViewsAgree<T>(v: Array3<T>, a: nat, c: nat, s: nat)
    requires v.Valid() && v.InBounds(a, c, s)
    ensures Views(v, a, c, s).axial.At(c, s) == v.At(a, c, s)
    ensures Views(v, a, c, s).coronal.At(a, s) == v.At(a, c, s)
    ensures Views(v, a, c, s).sagittal.At(a, c) == v.At(a, c, s)
  {
  }

  /** Stacking the axial views of a volume gives the volume back. */
  lemma StackAxials<T>(v: Array3<T>)
    requires v.Valid() && v.depth > 0
    ensures Stacking.Stack(seq(v.depth, a requires 0 <= a < v.depth => Axial(v, a))) == Success(v)
  {
    var grids := seq(v.depth, a requires 0 <= a < v.depth => Axial(v, a));
    var r := Stacking.Stack(grids);
    assert Stacking.SameShape(grids);
    assert r.value.cells == v.cells;
  }

  /** Taking the k-th axial view of a stack gives the k-th stacked image back. */
  lemma AxialOfStack<T>(grids: seq<Array2<T>>, k: nat)
    requires forall n :: 0 <= n < |grids| ==> grids[n].Valid()
    requires Stacking.Stack(grids).Success? && k < |grids|
    ensures Axial(Stacking.Stack(grids).value, k) == grids[k]
  {
  }

  /** A slider: its bounds and the value it starts at. */
  datatype Slider = Slider(min: int, max: int, value: int)

  /** `st.slider(label, 0, d - 1, d // 2)` for an axis of length d: it spans exactly
      the valid indices of the axis and starts at the middle one. */
  function AxisSlider(d: nat): (s: Slider)
    requires d >= 1
    ensures s.min == 0 && s.max == d - 1
    ensures s.min <= s.value <= s.max
    ensures d - 2 < 2 * s.value <= d
  {
    Slider(0, d - 1, d / 2)
  }

  /** The axial, coronal and sagittal sliders of a volume. */
  datatype Sliders = Sliders(axial: Slider, coronal: Slider, sagittal: Slider)

  function VolumeSliders<T>(v: Array3<T>): (s: Sliders)
    requires v.NonEmpty()
    ensures s.axial.max == v.depth - 1 && s.coronal.max == v.rows - 1 && s.sagittal.max == v.cols - 1
    // The starting triple addresses a sample, so the first panels can be drawn.
    ensures v.InBounds(s.axial.value, s.coronal.value, s.sagittal.value)
  {
    Sliders(AxisSlider(v.depth), AxisSlider(v.rows), AxisSlider(v.cols))
  }
}
