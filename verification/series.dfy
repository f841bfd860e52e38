/** The decoded series as a whole (app.py, between the sort and the normalized volume):
    the shape its images share, the samples they hold, and the extremes the 8-bit
    scale is taken from. None of these depends on the order of the slices. */
module Series {
  import opened Results
  import opened Arrays
  import opened Ordering
  import Stacking
  import Normalization

  /** Every decoded image agrees with its declared shape. */
  predicate ValidImages(slices: seq<Slice>) {
    forall k :: 0 <= k < |slices| ==> slices[k].pixels.Valid()
  }

  /** All images have one shape. */
  predicate UniformShape(slices: seq<Slice>) {
    forall k, l :: 0 <= k < |slices| && 0 <= l < |slices| ==>
      slices[k].pixels.rows == slices[l].pixels.rows && slices[k].pixels.cols == slices[l].pixels.cols
  }

  /** (k, i, j) is pixel (i, j) of the k-th image. */
  predicate InImage(slices: seq<Slice>, k: int, i: int, j: int) {
    && 0 <= k < |slices|
    && slices[k].pixels.Valid()
    && 0 <= i < slices[k].pixels.rows
    && 0 <= j < slices[k].pixels.cols
  }

  function SampleAt(slices: seq<Slice>, k: int, i: int, j: int): real
    requires InImage(slices, k, i, j)
  {
    slices[k].pixels.cells[i][j]
  }

  /** Some pixel of some image has value `x`. */
  ghost predicate HasSample(slices: seq<Slice>, x: real) {
    exists k, i, j :: InImage(slices, k, i, j) && SampleAt(slices, k, i, j) == x
  }

  /** `m` is the smallest pixel value of the series. */
  ghost predicate IsLowest(slices: seq<Slice>, m: real) {
    HasSample(slices, m) && forall x :: HasSample(slices, x) ==> m <= x
  }

  /** `m` is the largest pixel value of the series. */
  ghost predicate IsHighest(slices: seq<Slice>, m: real) {
    HasSample(slices, m) && forall x :: HasSample(slices, x) ==> x <= m
  }

  /** The series holds two different pixel values. */
  ghost predicate Varied(slices: seq<Slice>) {
    exists x, y :: HasSample(slices, x) && HasSample(slices, y) && x != y
  }

  /** A series has one smallest and one largest pixel value. */
  lemma ExtremesUnique(slices: seq<Slice>, lo: real, lo': real, hi: real, hi': real)
    requires IsLowest(slices, lo) && IsLowest(slices, lo')
    requires IsHighest(slices, hi) && IsHighest(slices, hi')
    ensures lo == lo' && hi == hi'
  {
    assert lo <= lo' && lo' <= lo;
    assert hi <= hi' && hi' <= hi;
  }

  /** Sequences with the same multiset hold the same elements. */
  lemma SameElements<T>(a: seq<T>, b: seq<T>)
    requires multiset(a) == multiset(b)
    ensures |a| == |b|
    ensures forall x :: x in a <==> x in b
  {
    assert |a| == |multiset(a)| == |multiset(b)| == |b|;
    forall x
      ensures x in a <==> x in b
    {
      assert x in a <==> x in multiset(a);
      assert x in b <==> x in multiset(b);
    }
  }

  /** Every pixel value of `a` is one of `b` when every slice of `a` is a slice of `b`. */
  lemma SamplesIncluded(a: seq<Slice>, b: seq<Slice>)
    requires forall s :: s in a ==> s in b
    ensures forall x :: HasSample(a, x) ==> HasSample(b, x)
  {
    forall x | HasSample(a, x)
      ensures HasSample(b, x)
    {
      var k, i, j :| InImage(a, k, i, j) && SampleAt(a, k, i, j) == x;
      assert a[k] in b;
      var k' :| 0 <= k' < |b| && b[k'] == a[k];
      assert InImage(b, k', i, j) && SampleAt(b, k', i, j) == x;
    }
  }

  /** Reordering the slices changes neither their shared shape, nor their pixel values,
      nor the extremes of the series. */
  lemma Reordered(a: seq<Slice>, b: seq<Slice>)
    requires multiset(a) == multiset(b)
    ensures UniformShape(a) <==> UniformShape(b)
    ensures forall x :: HasSample(a, x) <==> HasSample(b, x)
    ensures forall m :: IsLowest(a, m) <==> IsLowest(b, m)
    ensures forall m :: IsHighest(a, m) <==> IsHighest(b, m)
    ensures Varied(a) <==> Varied(b)
  {
    SameElements(a, b);
    SamplesIncluded(a, b);
    SamplesIncluded(b, a);
    if UniformShape(b) {
      forall k, l | 0 <= k < |a| && 0 <= l < |a|
        ensures a[k].pixels.rows == a[l].pixels.rows && a[k].pixels.cols == a[l].pixels.cols
      {
        assert a[k] in b && a[l] in b;
      }
    }
    if UniformShape(a) {
      forall k, l | 0 <= k < |b| && 0 <= l < |b|
        ensures b[k].pixels.rows == b[l].pixels.rows && b[k].pixels.cols == b[l].pixels.cols
      {
        assert b[k] in a && b[l] in a;
      }
    }
  }

  /** `np.stack` accepts the images of the slices exactly when they share one shape. */
  lemma StackedShapes(slices: seq<Slice>)
    ensures Stacking.SameShape(Pixels(slices)) <==> UniformShape(slices)
  {
    if UniformShape(slices) && |slices| > 0 {
      assert forall k :: 0 <= k < |slices| ==> Pixels(slices)[k] == slices[k].pixels;
    }
  }

  /** The stacked volume holds the pixels of the slices, plane k being the k-th image. */
  lemma StackedSamples(slices: seq<Slice>)
    requires ValidImages(slices) && UniformShape(slices) && |slices| > 0
    ensures Stacking.Stack(Pixels(slices)).Success?
    ensures var v := Stacking.Stack(Pixels(slices)).value;
      && v.Valid()
      && v.depth == |slices| && v.rows == slices[0].pixels.rows && v.cols == slices[0].pixels.cols
      && (forall k, i, j :: v.InBounds(k, i, j) <==> InImage(slices, k, i, j))
      && (forall k, i, j :: v.InBounds(k, i, j) ==> v.cells[k][i][j] == SampleAt(slices, k, i, j))
  {
    StackedShapes(slices);
  }

  /** The extremes of the stacked volume are those of the series, and it is constant
      exactly when the series is not varied. */
  lemma StackedExtremes(slices: seq<Slice>)
    requires ValidImages(slices) && UniformShape(slices) && |slices| > 0
    requires Stacking.Stack(Pixels(slices)).value.NonEmpty()
    ensures var v := Stacking.Stack(Pixels(slices)).value;
      && IsLowest(slices, Normalization.Lo(v))
      && IsHighest(slices, Normalization.Hi(v))
      && (Varied(slices) <==> Normalization.Lo(v) < Normalization.Hi(v))
  {
    StackedSamples(slices);
    var v := Stacking.Stack(Pixels(slices)).value;
    var lo, hi := Normalization.Lo(v), Normalization.Hi(v);
    forall x | HasSample(slices, x)
      ensures lo <= x <= hi
    {
      var k, i, j :| InImage(slices, k, i, j) && SampleAt(slices, k, i, j) == x;
      assert v.InBounds(k, i, j);
    }
    var k, i, j :| v.InBounds(k, i, j) && v.cells[k][i][j] == lo;
    assert HasSample(slices, lo) by {
      assert InImage(slices, k, i, j) && SampleAt(slices, k, i, j) == lo;
    }
    var k', i', j' :| v.InBounds(k', i', j') && v.cells[k'][i'][j'] == hi;
    assert HasSample(slices, hi) by {
      assert InImage(slices, k', i', j') && SampleAt(slices, k', i', j') == hi;
    }
  }

  /** Every voxel of `vol` is the level of the matching pixel of the slices on the scale
      from `lo` (0) to `hi` (255). */
  ghost predicate ScaledBy(slices: seq<Slice>, vol: Array3<int>, lo: real, hi: real) {
    && vol.Valid()
    && lo < hi
    && forall k, i, j :: vol.InBounds(k, i, j) ==>
         && InImage(slices, k, i, j)
         && vol.cells[k][i][j] == Normalization.Level(SampleAt(slices, k, i, j), lo, hi)
  }

  /** Every voxel holds a byte value. */
  ghost predicate Bytes(vol: Array3<int>) {
    vol.Valid() && forall k, i, j :: vol.InBounds(k, i, j) ==> 0 <= vol.cells[k][i][j] <= 255
  }

  /** Some voxel holds `level`. */
  ghost predicate Occurs(vol: Array3<int>, level: int) {
    vol.Valid() && exists k, i, j :: vol.InBounds(k, i, j) && vol.cells[k][i][j] == level
  }

  /** Images with no pixels stack to an empty volume, and such a series is not varied. */
  lemma EmptyImages(slices: seq<Slice>)
    requires ValidImages(slices) && UniformShape(slices) && |slices| > 0
    requires slices[0].pixels.rows == 0 || slices[0].pixels.cols == 0
    ensures !Stacking.Stack(Pixels(slices)).value.NonEmpty()
    ensures !Varied(slices)
  {
    StackedSamples(slices);
    assert forall k, i, j :: !InImage(slices, k, i, j);
  }

  /** Normalizing the stacked series fails exactly when the series is not varied: on
      empty images with EmptyVolume, otherwise (a single pixel value) with ConstantVolume. */
  lemma NormalizedOutcome(slices: seq<Slice>)
    requires ValidImages(slices) && UniformShape(slices) && |slices| > 0
    ensures Stacking.Stack(Pixels(slices)).Success?
    ensures var r := Normalization.Normalize(Stacking.Stack(Pixels(slices)).value);
      && (r.Success? <==> Varied(slices))
      && (r.Failure? ==> r.error == (if slices[0].pixels.rows == 0 || slices[0].pixels.cols == 0 then EmptyVolume else ConstantVolume))
  {
    StackedSamples(slices);
    var v := Stacking.Stack(Pixels(slices)).value;
    if !v.NonEmpty() {
      EmptyImages(slices);
    } else {
      StackedExtremes(slices);
      Normalization.ConstantIffFlat(v);
    }
  }

  /** Every level of a normalized volume is a byte, and both 0 and 255 occur. */
  lemma NormalizedBytes(v: Array3<real>)
    requires v.Valid() && v.NonEmpty() && !Normalization.Constant(v)
    ensures Normalization.Normalize(v).Success?
    ensures Bytes(Normalization.Normalize(v).value)
    ensures Occurs(Normalization.Normalize(v).value, 0)
    ensures Occurs(Normalization.Normalize(v).value, 255)
  {
    var vol := Normalization.Normalize(v).value;
    var lo, hi := Normalization.Lo(v), Normalization.Hi(v);
    forall k, i, j | vol.InBounds(k, i, j)
      ensures 0 <= vol.cells[k][i][j] <= 255
    {
      assert v.InBounds(k, i, j);
      Normalization.LevelRange(v.cells[k][i][j], lo, hi);
    }
    assert Occurs(vol, 0) by {
      var k, i, j :| v.InBounds(k, i, j) && v.cells[k][i][j] == lo;
      Normalization.LevelRange(lo, lo, hi);
      assert vol.InBounds(k, i, j) && vol.cells[k][i][j] == 0;
    }
    assert Occurs(vol, 255) by {
      var k, i, j :| v.InBounds(k, i, j) && v.cells[k][i][j] == hi;
      Normalization.LevelRange(hi, lo, hi);
      assert vol.InBounds(k, i, j) && vol.cells[k][i][j] == 255;
    }
  }

  /** Plane k of the normalized stack holds the levels of the k-th image on the scale
      from the stack's minimum to its maximum. */
  lemma NormalizedScale(slices: seq<Slice>)
    requires ValidImages(slices) && UniformShape(slices) && |slices| > 0 && Varied(slices)
    ensures Stacking.Stack(Pixels(slices)).Success?
    ensures Normalization.Normalize(Stacking.Stack(Pixels(slices)).value).Success?
    ensures var v := Stacking.Stack(Pixels(slices)).value;
      ScaledBy(slices, Normalization.Normalize(v).value, Normalization.Lo(v), Normalization.Hi(v))
  {
    StackedSamples(slices);
    var v := Stacking.Stack(Pixels(slices)).value;
    assert Normalization.Normalize(v).Success? by { NormalizedOutcome(slices); }
    var vol := Normalization.Normalize(v).value;
    ScaledVoxels(slices, v, vol, Normalization.Lo(v), Normalization.Hi(v));
  }

  /** A volume that holds the level of every voxel of a stack of the series holds the
      level of every sample of the series. */
  lemma ScaledVoxels(slices: seq<Slice>, v: Array3<real>, vol: Array3<int>, lo: real, hi: real)
    requires v.Valid() && vol.Valid() && lo < hi
    requires vol.depth == v.depth && vol.rows == v.rows && vol.cols == v.cols
    requires forall k, i, j :: v.InBounds(k, i, j) ==>
      InImage(slices, k, i, j) && v.cells[k][i][j] == SampleAt(slices, k, i, j)
    requires forall k, i, j :: v.InBounds(k, i, j) ==>
      vol.cells[k][i][j] == Normalization.Level(v.cells[k][i][j], lo, hi)
    ensures ScaledBy(slices, vol, lo, hi)
  {
    forall k, i, j | vol.InBounds(k, i, j)
      ensures InImage(slices, k, i, j)
      ensures vol.cells[k][i][j] == Normalization.Level(SampleAt(slices, k, i, j), lo, hi)
    {
      assert v.InBounds(k, i, j);
    }
  }

  /** A normalized series: plane k holds the levels of the k-th image on the scale of the
      series' extremes, every level is a byte, and both ends of the scale occur. */
  lemma NormalizedLevels(slices: seq<Slice>)
    requires ValidImages(slices) && UniformShape(slices) && |slices| > 0 && Varied(slices)
    ensures Stacking.Stack(Pixels(slices)).Success?
    ensures Normalization.Normalize(Stacking.Stack(Pixels(slices)).value).Success?
    ensures var vol := Normalization.Normalize(Stacking.Stack(Pixels(slices)).value).value;
      && vol.Valid()
      && vol.depth == |slices| && vol.rows == slices[0].pixels.rows && vol.cols == slices[0].pixels.cols
      && (exists lo, hi :: IsLowest(slices, lo) && IsHighest(slices, hi) && ScaledBy(slices, vol, lo, hi))
      && Bytes(vol) && Occurs(vol, 0) && Occurs(vol, 255)
  {
    NormalizedScale(slices);
    StackedSamples(slices);
    var v := Stacking.Stack(Pixels(slices)).value;
    StackedExtremes(slices);
    NormalizedBytes(v);
  }
}
