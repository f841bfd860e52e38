/** Global min-max normalization to 8 bits (app.py: `vol -= vol.min()`,
    `vol /= vol.max()`, `vol *= 255`, `vol.astype(np.uint8)`).

    Samples are exact reals rather than float32. After the subtraction the
    maximum is `hi - lo`, so a sample x becomes 255 * (x - lo) / (hi - lo),
    and the cast to uint8 truncates it; for these non-negative values that
    is the floor. */
module Normalization {
  import opened Results
  import opened Arrays

  /** Smallest element of a non-empty sequence. */
  function Min(s: seq<real>): (m: real)
    requires |s| > 0
    ensures m in s
    ensures forall x :: x in s ==> m <= x
  {
    if |s| == 1 then s[0]
    else
      var t := Min(s[1..]);
      assert s == [s[0]] + s[1..];
      if s[0] <= t then s[0] else t
  }

  /** Largest element of a non-empty sequence. */
  function Max(s: seq<real>): (m: real)
    requires |s| > 0
    ensures m in s
    ensures forall x :: x in s ==> x <= m
  {
    if |s| == 1 then s[0]
    else
      var t := Max(s[1..]);
      assert s == [s[0]] + s[1..];
      if s[0] >= t then s[0] else t
  }

  /** `vol.min()`: the global minimum over every sample of every slice. */
  function Lo(v: Array3<real>): (m: real)
    requires v.Valid() && v.NonEmpty()
    ensures forall k, i, j :: v.InBounds(k, i, j) ==> m <= v.cells[k][i][j]
    ensures exists k, i, j :: v.InBounds(k, i, j) && v.cells[k][i][j] == m
  {
    SamplesNonEmpty(v);
    var m := Min(Samples(v));
    InSamples(v, m);
    forall k, i, j | v.InBounds(k, i, j)
      ensures m <= v.cells[k][i][j]
    {
      InSamples(v, v.cells[k][i][j]);
    }
    m
  }

  /** `vol.max()`: the global maximum over every sample of every slice. */
  function Hi(v: Array3<real>): (m: real)
    requires v.Valid() && v.NonEmpty()
    ensures forall k, i, j :: v.InBounds(k, i, j) ==> v.cells[k][i][j] <= m
    ensures exists k, i, j :: v.InBounds(k, i, j) && v.cells[k][i][j] == m
  {
    SamplesNonEmpty(v);
    var m := Max(Samples(v));
    InSamples(v, m);
    forall k, i, j | v.InBounds(k, i, j)
      ensures v.cells[k][i][j] <= m
    {
      InSamples(v, v.cells[k][i][j]);
    }
    m
  }

  /** Every sample has the value of the first one. */
  ghost predicate Constant(v: Array3<real>)
    requires v.Valid() && v.NonEmpty()
  {
    forall k, i, j :: v.InBounds(k, i, j) ==> v.cells[k][i][j] == v.cells[0][0][0]
  }

  /** The uint8 level of sample `x` when `lo` and `hi` are the volume's extremes:
      the integer part of where `x` sits on the scale from `lo` (0) to `hi` (255). */
  function Level(x: real, lo: real, hi: real): (n: int)
    requires lo < hi
    ensures n as real <= 255.0 * (x - lo) / (hi - lo) < n as real + 1.0
  {
    (255.0 * (x - lo) / (hi - lo)).Floor
  }

  /** Between the extremes the level is a byte; only the maximum reaches 255 and the
      minimum gives 0. */
  lemma LevelRange(x: real, lo: real, hi: real)
    requires lo < hi && lo <= x <= hi
    ensures 0 <= Level(x, lo, hi) <= 255
    ensures Level(x, lo, hi) == 255 <==> x == hi
    ensures x == lo ==> Level(x, lo, hi) == 0
  {
    var d := hi - lo;
    var y := 255.0 * (x - lo) / d;
    QuotientBelow(255.0 * (x - lo), 255.0 * d, d);
    assert 255.0 * d / d == 255.0;
    assert 0.0 <= y;
    if x < hi {
      assert 255.0 * (x - lo) < 255.0 * d;
      assert y < 255.0;
    } else {
      assert y == 255.0;
    }
  }

  lemma QuotientBelow(a: real, b: real, d: real)
    requires d > 0.0
    ensures a <= b ==> a / d <= b / d
    ensures a < b ==> a / d < b / d
  {
  }

  /** Larger samples never get smaller levels. */
  lemma LevelMonotone(x: real, y: real, lo: real, hi: real)
    requires lo < hi && x <= y
    ensures Level(x, lo, hi) <= Level(y, lo, hi)
  {
    var d := hi - lo;
    assert 255.0 * (x - lo) / d <= 255.0 * (y - lo) / d;
  }

  /** The volume after `vol -= vol.min(); vol /= vol.max(); vol *= 255; vol.astype(np.uint8)`.
      An empty volume (numpy cannot take its minimum) and a constant one (the division
      would be 0/0) give an error instead of a volume. */
  function Normalize(v: Array3<real>): (r: Result<Array3<int>>)
    requires v.Valid()
    ensures r.Failure? <==> !v.NonEmpty() || Constant(v)
    ensures r.Failure? ==> r.error == (if v.NonEmpty() then ConstantVolume else EmptyVolume)
    ensures r.Success? ==>
      && r.value.Valid()
      && r.value.depth == v.depth && r.value.rows == v.rows && r.value.cols == v.cols
    // Every sample is scaled by the extremes of the WHOLE volume, not of its own slice.
    ensures r.Success? ==>
      forall k, i, j :: v.InBounds(k, i, j) ==>
        r.value.cells[k][i][j] == Level(v.cells[k][i][j], Lo(v), Hi(v))
  {
    if !v.NonEmpty() then Failure(EmptyVolume)
    else
      var lo, hi := Lo(v), Hi(v);
      ConstantIffFlat(v);
      if lo == hi then Failure(ConstantVolume)
      else
        var w := Array3(v.depth, v.rows, v.cols,
          seq(v.depth, k requires 0 <= k < v.depth =>
            seq(v.rows, i requires 0 <= i < v.rows =>
              seq(v.cols, j requires 0 <= j < v.cols => Level(v.cells[k][i][j], lo, hi)))));
        Success(w)
  }

  /** A non-empty volume is constant exactly when its minimum equals its maximum. */
  lemma ConstantIffFlat(v: Array3<real>)
    requires v.Valid() && v.NonEmpty()
    ensures Constant(v) <==> Lo(v) == Hi(v)
  {
    assert v.InBounds(0, 0, 0);
    if Constant(v) {
      var k, i, j :| v.InBounds(k, i, j) && v.cells[k][i][j] == Lo(v);
      var k', i', j' :| v.InBounds(k', i', j') && v.cells[k'][i'][j'] == Hi(v);
    }
  }

  /** Every normalized sample is a byte value. */
  lemma NormalizeRange(v: Array3<real>)
    requires v.Valid() && Normalize(v).Success?
    ensures forall k, i, j :: v.InBounds(k, i, j) ==> 0 <= Normalize(v).value.cells[k][i][j] <= 255
  {
    forall k, i, j | v.InBounds(k, i, j)
      ensures 0 <= Normalize(v).value.cells[k][i][j] <= 255
    {
      LevelRange(v.cells[k][i][j], Lo(v), Hi(v));
    }
  }

  /** The global minimum becomes 0 and the global maximum 255; a sample becomes 255
      exactly when no sample anywhere in the volume exceeds it. */
  lemma NormalizeExtremes(v: Array3<real>)
    requires v.Valid() && Normalize(v).Success?
    ensures forall k, i, j :: v.InBounds(k, i, j) && v.cells[k][i][j] == Lo(v) ==>
      Normalize(v).value.cells[k][i][j] == 0
    ensures forall k, i, j :: v.InBounds(k, i, j) ==>
      (Normalize(v).value.cells[k][i][j] == 255 <==>
       forall k', i', j' :: v.InBounds(k', i', j') ==> v.cells[k'][i'][j'] <= v.cells[k][i][j])
    ensures exists k, i, j :: v.InBounds(k, i, j) && Normalize(v).value.cells[k][i][j] == 0
    ensures exists k, i, j :: v.InBounds(k, i, j) && Normalize(v).value.cells[k][i][j] == 255
  {
    var r := Normalize(v).value;
    var lo, hi := Lo(v), Hi(v);
    forall k, i, j | v.InBounds(k, i, j)
      ensures v.cells[k][i][j] == lo ==> r.cells[k][i][j] == 0
      ensures r.cells[k][i][j] == 255 <==> v.cells[k][i][j] == hi
    {
      LevelRange(v.cells[k][i][j], lo, hi);
    }
    var k, i, j :| v.InBounds(k, i, j) && v.cells[k][i][j] == lo;
    assert r.cells[k][i][j] == 0;
    var k', i', j' :| v.InBounds(k', i', j') && v.cells[k'][i'][j'] == hi;
    assert r.cells[k'][i'][j'] == 255;
  }

  /** Normalization keeps the order of samples: a sample no larger than another never
      ends up brighter. */
  lemma NormalizeMonotone(v: Array3<real>)
    requires v.Valid() && Normalize(v).Success?
    ensures forall k, i, j, k', i', j' ::
      v.InBounds(k, i, j) && v.InBounds(k', i', j') && v.cells[k][i][j] <= v.cells[k'][i'][j'] ==>
        Normalize(v).value.cells[k][i][j] <= Normalize(v).value.cells[k'][i'][j']
  {
    forall k, i, j, k', i', j' |
      v.InBounds(k, i, j) && v.InBounds(k', i', j') && v.cells[k][i][j] <= v.cells[k'][i'][j']
      ensures Normalize(v).value.cells[k][i][j] <= Normalize(v).value.cells[k'][i'][j']
    {
      LevelMonotone(v.cells[k][i][j], v.cells[k'][i'][j'], Lo(v), Hi(v));
    }
  }
}
