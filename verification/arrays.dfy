/** Dense rectangular arrays as NumPy holds them: a shape plus nested rows.
    A 2-D array is one decoded image (rows x columns); a 3-D array is the
    stacked volume with axes (slice, row, column). */
module Arrays {

  datatype Array2<T> = Array2(rows: nat, cols: nat, cells: seq<seq<T>>) {

    /** The cells agree with the declared shape. */
    predicate Valid() {
      && |cells| == rows
      && forall i :: 0 <= i < |cells| ==> |cells[i]| == cols
    }

    function At(i: nat, j: nat): T
      requires Valid() && i < rows && j < cols
    {
      cells[i][j]
    }
  }

  datatype Array3<T> = Array3(depth: nat, rows: nat, cols: nat, cells: seq<seq<seq<T>>>) {

    /** The cells agree with the declared shape (depth, rows, cols). */
    predicate Valid() {
      && |cells| == depth
      && (forall k :: 0 <= k < |cells| ==> |cells[k]| == rows)
      && (forall k, i :: 0 <= k < |cells| && 0 <= i < |cells[k]| ==> |cells[k][i]| == cols)
    }

    function At(k: nat, i: nat, j: nat): T
      requires Valid() && k < depth && i < rows && j < cols
    {
      cells[k][i][j]
    }

    /** Whether (k, i, j) addresses a sample. */
    predicate InBounds(k: int, i: int, j: int) {
      0 <= k < depth && 0 <= i < rows && 0 <= j < cols
    }

    /** No axis has length zero, so the volume holds at least one sample. */
    predicate NonEmpty() {
      depth > 0 && rows > 0 && cols > 0
    }
  }

  /** Row-major concatenation of a sequence of sequences. */
  function Concat<T>(s: seq<seq<T>>): seq<T> {
    if s == [] then [] else s[0] + Concat(s[1..])
  }

  /** All samples of a volume, in the order `vol.ravel()` lists them. */
  function Samples<T>(v: Array3<T>): seq<T> {
    Concat(seq(|v.cells|, k requires 0 <= k < |v.cells| => Concat(v.cells[k])))
  }

  /** An element lies in a concatenation exactly when some inner sequence holds it. */
  lemma {:induction false} InConcat<T>(s: seq<seq<T>>, x: T)
    ensures x in Concat(s) <==> exists i, j :: 0 <= i < |s| && 0 <= j < |s[i]| && s[i][j] == x
  {
    if s != [] {
      InConcat(s[1..], x);
      if x in Concat(s[1..]) {
        var i, j :| 0 <= i < |s[1..]| && 0 <= j < |s[1..][i]| && s[1..][i][j] == x;
        assert s[i + 1][j] == x;
      }
      if exists i, j :: 0 <= i < |s| && 0 <= j < |s[i]| && s[i][j] == x {
        var i, j :| 0 <= i < |s| && 0 <= j < |s[i]| && s[i][j] == x;
        if i == 0 {
          assert s[0][j] == x;
        } else {
          assert s[1..][i - 1][j] == x;
        }
      }
    }
  }

  /** A value is a sample of a valid volume exactly when some in-bounds position holds it. */
  lemma InSamples<T>(v: Array3<T>, x: T)
    requires v.Valid()
    ensures x in Samples(v) <==> exists k, i, j :: v.InBounds(k, i, j) && v.cells[k][i][j] == x
  {
    var planes := seq(|v.cells|, k requires 0 <= k < |v.cells| => Concat(v.cells[k]));
    InConcat(planes, x);
    forall k | 0 <= k < |v.cells|
      ensures x in planes[k] <==> exists i, j :: 0 <= i < |v.cells[k]| && 0 <= j < |v.cells[k][i]| && v.cells[k][i][j] == x
    {
      InConcat(v.cells[k], x);
    }
    if x in Samples(v) {
      var k, p :| 0 <= k < |planes| && 0 <= p < |planes[k]| && planes[k][p] == x;
      assert x in planes[k];
      var i, j :| 0 <= i < |v.cells[k]| && 0 <= j < |v.cells[k][i]| && v.cells[k][i][j] == x;
      assert v.InBounds(k, i, j);
    }
    if exists k, i, j :: v.InBounds(k, i, j) && v.cells[k][i][j] == x {
      var k, i, j :| v.InBounds(k, i, j) && v.cells[k][i][j] == x;
      assert x in planes[k];
      var p :| 0 <= p < |planes[k]| && planes[k][p] == x;
    }
  }

  /** The sample list of a valid volume is empty exactly when some axis has length zero. */
  lemma SamplesNonEmpty<T>(v: Array3<T>)
    requires v.Valid()
    ensures |Samples(v)| > 0 <==> v.NonEmpty()
  {
    if v.NonEmpty() {
      InSamples(v, v.cells[0][0][0]);
    }
    if |Samples(v)| > 0 {
      InSamples(v, Samples(v)[0]);
    }
  }
}
