/** Outcomes of one pass of the viewer: either a value, or the condition under which
    the model gives no volume. The script raises for all but one of them, and here
    they are ordinary values so that callers can tell them apart. The exception is a
    constant volume: there `vol /= vol.max()` divides zero by zero, numpy yields NaN
    with only a RuntimeWarning, and the script goes on to convert and display bytes
    derived from NaN. The model reports ConstantVolume instead, as a policy of its own. */
module Results {

  /** Why a pass produced no volume. */
  datatype ViewerError =
    /** `int()` rejected the InstanceNumber text of the slice at this upload position. */
    | KeyNotInteger(index: nat)
    /** No slices to stack (`np.stack` of an empty list). */
    | NoSlices
    /** Two slices have different row/column counts (`np.stack` refuses). */
    | DimensionMismatch
    /** The stacked volume holds no sample at all, so it has no minimum. */
    | EmptyVolume
    /** Every sample is equal, so min-max normalization divides zero by zero. The script
        does not stop here; it carries on with NaN. */
    | ConstantVolume

  datatype Result<+T> = Success(value: T) | Failure(error: ViewerError)
}
