/** `np.stack(img_arrays, axis=0)`: equally shaped 2-D images become the planes of a
    3-D volume along a new leading axis. */
module Stacking {
  import opened Results
  import opened Arrays

  /** Every image has the shape of the first one. */
  predicate SameShape<T>(grids: seq<Array2<T>>) {
    forall k :: 0 <= k < |grids| ==> grids[k].rows == grids[0].rows && grids[k].cols == grids[0].cols
  }

  function Stack<T>(grids: seq<Array2<T>>): (r: Result<Array3<T>>)
    requires forall k :: 0 <= k < |grids| ==> grids[k].Valid()
    ensures r.Success? <==> |grids| > 0 && SameShape(grids)
    ensures r.Failure? ==> r.error == (if |grids| == 0 then NoSlices else DimensionMismatch)
    ensures r.Success? ==>
      && r.value.Valid()
      && r.value.depth == |grids|
      && r.value.rows == grids[0].rows
      && r.value.cols == grids[0].cols
      && forall k :: 0 <= k < |grids| ==> r.value.cells[k] == grids[k].cells
  {
    if |grids| == 0 then Failure(NoSlices)
    else if !SameShape(grids) then Failure(DimensionMismatch)
    else
      var v := Array3(|grids|, grids[0].rows, grids[0].cols,
                      seq(|grids|, k requires 0 <= k < |grids| => grids[k].cells));
      assert forall k :: 0 <= k < |grids| ==> v.cells[k] == grids[k].cells && grids[k].Valid();
      Success(v)
  }
}
