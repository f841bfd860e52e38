/** One pass of the viewer for a set of uploaded files (app.py, from the sort
    to the normalized volume): order the decoded slices, stack their pixel
    grids and normalize to 8 bits. */
module Viewer {
  import opened Results
  import opened Arrays
  import opened Ordering
  import PyInt
  import StableSort
  import Stacking
  import Normalization
  import opened Series

  /** The 8-bit volume and whether the InstanceNumber warning was shown. */
  datatype Assembled = Assembled(volume: Array3<int>, warned: bool)

  /** Why stacking and normalizing ordered slices gives no volume: no slices, images of
      different shapes, empty images, or one pixel value throughout. */
  function BuildError(slices: seq<Slice>): ViewerError {
    if |slices| == 0 then NoSlices
    else if !UniformShape(slices) then DimensionMismatch
    else if slices[0].pixels.rows == 0 || slices[0].pixels.cols == 0 then EmptyVolume
    else ConstantVolume
  }

  /** Stacking then normalizing the images of already ordered slices. */
  function Build(slices: seq<Slice>, warned: bool): (r: Result<Assembled>)
    requires ValidImages(slices)
    // The pass gets through exactly when the images share a shape and hold two
    // different values; otherwise it fails with the first condition that holds.
    ensures r.Success? <==> UniformShape(slices) && Varied(slices)
    ensures r.Failure? ==> r.error == BuildError(slices)
    ensures r.Success? ==>
      && r.value.volume.Valid()
      && r.value.volume.depth == |slices|
      && r.value.volume.rows == slices[0].pixels.rows
      && r.value.volume.cols == slices[0].pixels.cols
      && r.value.warned == warned
    // Plane k holds the levels of the k-th image, on the scale of the whole series;
    // every level is a byte and both 0 and 255 occur.
    ensures r.Success? ==>
      exists lo, hi :: IsLowest(slices, lo) && IsHighest(slices, hi) && ScaledBy(slices, r.value.volume, lo, hi)
    ensures r.Success? ==> Bytes(r.value.volume) && Occurs(r.value.volume, 0) && Occurs(r.value.volume, 255)
  {
    if |slices| == 0 then Failure(NoSlices)
    else if !UniformShape(slices) then
      StackedShapes(slices);
      Failure(DimensionMismatch)
    else
      NormalizedOutcome(slices);
      var normalized := Normalization.Normalize(Stacking.Stack(Pixels(slices)).value);
      if normalized.Failure? then Failure(normalized.error)
      else
        NormalizedLevels(slices);
        Success(Assembled(normalized.value, warned))
  }

  /** Decoded uploads to the normalized volume, or why the pass gives none. */
  function Assemble(uploads: seq<Slice>): (r: Result<Assembled>)
    requires ValidImages(uploads)
    // The pass gets through exactly when ordering does, the images share a shape and
    // they hold two different values; otherwise it fails with the first condition.
    ensures r.Success? <==> Order(uploads).Success? && UniformShape(uploads) && Varied(uploads)
    ensures r.Failure? ==> r.error == (if Order(uploads).Failure? then Order(uploads).error else BuildError(uploads))
    ensures r.Success? ==>
      && r.value.volume.Valid()
      && r.value.volume.depth == |uploads|
      && r.value.volume.rows == uploads[0].pixels.rows
      && r.value.volume.cols == uploads[0].pixels.cols
      && (r.value.warned <==> exists k :: 0 <= k < |uploads| && !HasKey(uploads[k]))
    // Plane k holds the levels of the k-th slice in acquisition order, on the scale set
    // by the extremes of all uploads; every level is a byte and both 0 and 255 occur.
    ensures r.Success? ==>
      exists lo, hi :: IsLowest(uploads, lo) && IsHighest(uploads, hi) && ScaledBy(Order(uploads).value.slices, r.value.volume, lo, hi)
    ensures r.Success? ==> Bytes(r.value.volume) && Occurs(r.value.volume, 0) && Occurs(r.value.volume, 255)
  {
    match Order(uploads)
    case Failure(e) => Failure(e)
    case Success(ordered) =>
      BuildReordered(uploads, ordered.slices, ordered.warned);
      Build(ordered.slices, ordered.warned)
  }

  /** Building a reordering of the uploads: whether it succeeds, how it fails, its shape
      and its scale depend on the uploads alone, not on their order. */
  lemma BuildReordered(uploads: seq<Slice>, ordered: seq<Slice>, warned: bool)
    requires ValidImages(uploads) && multiset(ordered) == multiset(uploads)
    ensures ValidImages(ordered)
    ensures var r := Build(ordered, warned);
      && (r.Success? <==> UniformShape(uploads) && Varied(uploads))
      && (r.Failure? ==> r.error == BuildError(uploads))
      && (r.Success? ==>
           && r.value.volume.depth == |uploads|
           && r.value.volume.rows == uploads[0].pixels.rows
           && r.value.volume.cols == uploads[0].pixels.cols)
      && (r.Success? ==>
           exists lo, hi :: IsLowest(uploads, lo) && IsHighest(uploads, hi) && ScaledBy(ordered, r.value.volume, lo, hi))
  {
    Reordered(ordered, uploads);
    SameElements(ordered, uploads);
    assert forall k :: 0 <= k < |ordered| ==> ordered[k] in uploads;
    if |uploads| > 0 {
      assert ordered[0] in uploads;
    }
  }

  /** A 2 x 2 image with every pixel equal to `x`. */
  function Flat(x: real): Array2<real> {
    Array2(2, 2, [[x, x], [x, x]])
  }

  /** A slice whose sort key is `key` and whose 2 x 2 image is flat at `value`. */
  predicate FlatSlice(s: Slice, key: int, value: real) {
    HasKey(s) && KeyOf(s) == key && s.pixels == Flat(value)
  }

  /** A slice whose InstanceNumber is the decimal text of `n` has sort key `n`, as long as
      `n` has no more digits than `int()` accepts. */
  lemma KeyOfShown(n: int, value: real)
    requires PyInt.DigitsOf(n) <= PyInt.MaxStrDigits
    ensures FlatSlice(Slice(Present(PyInt.Show(n)), Flat(value)), n, value)
  {
    PyInt.ParseShow(n);
  }

  /** The files of the worked example: InstanceNumber texts "3", "1", "2" over flat
      images of values 0, 10 and 20. */
  lemma ExampleFiles()
    ensures FlatSlice(Slice(Present("3"), Flat(0.0)), 3, 0.0)
    ensures FlatSlice(Slice(Present("1"), Flat(10.0)), 1, 10.0)
    ensures FlatSlice(Slice(Present("2"), Flat(20.0)), 2, 20.0)
  {
    assert PyInt.Show(3) == "3";
    KeyOfShown(3, 0.0);
    assert PyInt.Show(1) == "1";
    KeyOfShown(1, 10.0);
    assert PyInt.Show(2) == "2";
    KeyOfShown(2, 20.0);
  }

  /** Elements with keys 3, 1, 2 sort to the order 1, 2, 3. */
  lemma ExampleSort<T>(a: T, b: T, c: T, key: T -> int)
    requires key(a) == 3 && key(b) == 1 && key(c) == 2
    ensures StableSort.Sort([a, b, c], key) == [b, c, a]
  {
    assert [a, b, c][1..] == [b, c] && [b, c][1..] == [c] && [c][1..] == [];
    assert StableSort.Sort([c], key) == [c];
    assert StableSort.Insert(b, [c], key) == [b, c];
    assert StableSort.Sort([b, c], key) == [b, c];
    assert StableSort.Insert(a, [], key) == [a];
    assert StableSort.Insert(a, [c], key) == [c, a];
    assert StableSort.Insert(a, [b, c], key) == [b, c, a];
  }

  /** A 3 x 2 x 2 volume whose slices are flat at 10, 20 and 0 normalizes to slices flat
      at 127, 255 and 0. */
  lemma ExampleNormalized(v: Array3<real>)
    requires v.Valid() && v.depth == 3 && v.rows == 2 && v.cols == 2
    requires forall k, i, j :: v.InBounds(k, i, j) ==> v.cells[k][i][j] == [10.0, 20.0, 0.0][k]
    ensures Normalization.Normalize(v).Success?
    ensures forall k, i, j :: v.InBounds(k, i, j) ==> Normalization.Normalize(v).value.cells[k][i][j] == [127, 255, 0][k]
  {
    var lo, hi := Normalization.Lo(v), Normalization.Hi(v);
    assert v.InBounds(2, 0, 0) && v.InBounds(1, 0, 0);
    assert lo == 0.0;
    assert hi == 20.0;
    Normalization.ConstantIffFlat(v);
    assert Normalization.Level(10.0, lo, hi) == 127;
    assert Normalization.Level(20.0, lo, hi) == 255;
    assert Normalization.Level(0.0, lo, hi) == 0;
  }

  /** Uploads with keys 3, 1, 2 are put in the order 1, 2, 3 without a warning. */
  lemma ExampleOrder(a: Slice, b: Slice, c: Slice)
    requires HasKey(a) && HasKey(b) && HasKey(c)
    requires KeyOf(a) == 3 && KeyOf(b) == 1 && KeyOf(c) == 2
    ensures Order([a, b, c]) == Success(Ordered([b, c, a], false))
  {
    OrderAllKeys([a, b, c]);
    ExampleSort(a, b, c, KeyOf);
  }

  /** Slices with flat 2 x 2 images share a shape and hold exactly the flat values. */
  lemma FlatSamples(slices: seq<Slice>, values: seq<real>)
    requires |slices| == |values|
    requires forall k :: 0 <= k < |slices| ==> slices[k].pixels == Flat(values[k])
    ensures ValidImages(slices) && UniformShape(slices)
    ensures forall k, i, j :: InImage(slices, k, i, j) ==> SampleAt(slices, k, i, j) == values[k]
    ensures forall x :: HasSample(slices, x) <==> x in values
  {
    forall x
      ensures HasSample(slices, x) <==> x in values
    {
      if x in values {
        var k :| 0 <= k < |values| && values[k] == x;
        assert InImage(slices, k, 0, 0) && SampleAt(slices, k, 0, 0) == x;
      }
    }
  }

  /** For flat slices, the extremes of the series are the extremes of the flat values. */
  lemma FlatExtremes(slices: seq<Slice>, values: seq<real>, lo: real, hi: real)
    requires |slices| == |values|
    requires forall k :: 0 <= k < |slices| ==> slices[k].pixels == Flat(values[k])
    requires lo in values && hi in values
    requires forall k :: 0 <= k < |values| ==> lo <= values[k] <= hi
    ensures IsLowest(slices, lo) && IsHighest(slices, hi)
  {
    FlatSamples(slices, values);
    forall x | HasSample(slices, x)
      ensures lo <= x <= hi
    {
      assert x in values;
    }
  }

  /** On flat slices, a volume scaled from the series has plane k at the level of value k. */
  lemma FlatLevels(slices: seq<Slice>, values: seq<real>, vol: Array3<int>, lo: real, hi: real)
    requires |slices| == |values|
    requires forall k :: 0 <= k < |slices| ==> slices[k].pixels == Flat(values[k])
    requires ScaledBy(slices, vol, lo, hi)
    ensures forall k, i, j :: vol.InBounds(k, i, j) ==>
      k < |values| && vol.cells[k][i][j] == Normalization.Level(values[k], lo, hi)
  {
    FlatSamples(slices, values);
    forall k, i, j | vol.InBounds(k, i, j)
      ensures k < |values| && vol.cells[k][i][j] == Normalization.Level(values[k], lo, hi)
    {
      assert InImage(slices, k, i, j);
    }
  }

  /** Stacking flat slices of values 10, 20, 0 and normalizing gives 127, 255, 0. */
  lemma ExampleBuild(b: Slice, c: Slice, a: Slice)
    requires b.pixels == Flat(10.0) && c.pixels == Flat(20.0) && a.pixels == Flat(0.0)
    ensures ValidImages([b, c, a])
    ensures var r := Build([b, c, a], false);
      r.Success? && !r.value.warned &&
      forall k, i, j :: r.value.volume.InBounds(k, i, j) ==> r.value.volume.cells[k][i][j] == [127, 255, 0][k]
  {
    var slices, values := [b, c, a], [10.0, 20.0, 0.0];
    FlatSamples(slices, values);
    assert HasSample(slices, values[0]) && HasSample(slices, values[1]);
    FlatExtremes(slices, values, 0.0, 20.0);
    var vol := Build(slices, false).value.volume;
    var lo, hi :| IsLowest(slices, lo) && IsHighest(slices, hi) && ScaledBy(slices, vol, lo, hi);
    ExtremesUnique(slices, lo, 0.0, hi, 20.0);
    FlatLevels(slices, values, vol, 0.0, 20.0);
    ExampleLevels();
  }

  /** On the scale from 0 to 20 the values 10, 20 and 0 have levels 127, 255 and 0. */
  lemma ExampleLevels()
    ensures forall k :: 0 <= k < 3 ==> Normalization.Level([10.0, 20.0, 0.0][k], 0.0, 20.0) == [127, 255, 0][k]
  {
    assert Normalization.Level(10.0, 0.0, 20.0) == 127;
    assert Normalization.Level(20.0, 0.0, 20.0) == 255;
    assert Normalization.Level(0.0, 0.0, 20.0) == 0;
  }

  /** Once the order is settled, assembling is stacking and normalizing that order. */
  lemma AssembleIsBuild(uploads: seq<Slice>, ordered: Ordered)
    requires ValidImages(uploads)
    requires Order(uploads) == Success(ordered)
    ensures ValidImages(ordered.slices)
    ensures Assemble(uploads) == Build(ordered.slices, ordered.warned)
  {
    BuildReordered(uploads, ordered.slices, ordered.warned);
  }

  /** Three flat 2 x 2 slices with keys 3, 1, 2 and values 0, 10, 20 are put in the
      order 1, 2, 3 without a warning; the stacked values 10, 20, 0 become 127, 255, 0.
      The 10 lands at 127, not 128, because 255 * 10 / 20 = 127.5 is truncated. */
  lemma ExampleSeries(a: Slice, b: Slice, c: Slice)
    requires FlatSlice(a, 3, 0.0) && FlatSlice(b, 1, 10.0) && FlatSlice(c, 2, 20.0)
    ensures ValidImages([a, b, c])
    ensures var r := Assemble([a, b, c]);
      r.Success? && !r.value.warned &&
      forall k, i, j :: r.value.volume.InBounds(k, i, j) ==> r.value.volume.cells[k][i][j] == [127, 255, 0][k]
  {
    FlatSamples([a, b, c], [0.0, 10.0, 20.0]);
    FlatSamples([b, c, a], [10.0, 20.0, 0.0]);
    ExampleOrder(a, b, c);
    AssembleIsBuild([a, b, c], Ordered([b, c, a], false));
    ExampleBuild(b, c, a);
  }
}
