# DICOM series to volume: a Dafny model

`app.py` is a Streamlit viewer for a DICOM series. The uploaded files are decoded and
their slices put in acquisition order by `InstanceNumber`. A slice without that
attribute leaves the upload order in place and shows a warning. The pixel grids are
stacked into one 3-D volume (`np.stack`), which is min-max normalized to 8-bit
levels. Three sliders then pick an axial, a coronal and a sagittal cross-section.

This project models that pipeline (app.py lines 34-70) as pure Dafny functions over
immutable values and proves what each step promises:

- `Results`: the outcome of a pass. It is a volume or a failure. Four failures are
  exceptions that stop the script: a non-integer `InstanceNumber`, no slices,
  differing image shapes, and an empty volume. The fifth, a constant volume, is not.
  There `vol /= vol.max()` (app.py:53) divides zero by zero. numpy gives NaN with only
  a RuntimeWarning, and the script goes on to convert and display the result
  (app.py:55-70). The model reports ConstantVolume instead, as its own policy.
- `Arrays`: 2-D and 3-D arrays that carry their numpy shape, with the set of their
  samples.
- `PyInt`: Python's `int()` applied to text. It strips whitespace at both ends: below
  U+007F only space, tab, newline, vertical tab, form feed and carriage return; from
  U+007F on, the Unicode whitespace characters. The separators U+001C..U+001F are not
  stripped. It accepts an optional sign and takes ASCII digits with single underscores
  between them. Like CPython, it refuses more than 4300 digits; underscores do not
  count toward that limit, and leading zeros do. It also renders integers as decimal text.
- `StableSort`: a stable sort by key, as `list.sort(key=...)` performs it, with a
  characterization that determines the result uniquely.
- `Ordering`: the sort with its `AttributeError` fallback.
- `Stacking`: `np.stack(..., axis=0)`.
- `Series`: what the slices themselves say about the pass. It covers whether they share a
  shape, which sample values they hold, and their lowest and highest value. It also
  proves that stacking and normalizing carries these facts over to the volume.
- `Normalization`: `vol -= vol.min(); vol /= vol.max(); vol *= 255; vol.astype(np.uint8)`.
- `Reslice`: the three sliders and the three cross-sections.
- `Viewer`: the whole pass from decoded slices to the 8-bit volume, plus a worked
  example of three slices.

Python's `list.sort(key=...)` computes the key of every element, in list order, before
it compares anything. When a key raises, the list is left as it was. So the first
slice in upload order whose key fails decides the outcome:

- If its `InstanceNumber` is missing, `AttributeError` is caught. The user is warned
  and the upload order is kept.
- If its `InstanceNumber` is present but is not integer text, `int()` raises
  `ValueError`. Nothing catches it, so the pass stops.

A present but non-integer `InstanceNumber` is therefore fatal: only `AttributeError`
is caught (app.py:37).

A value halfway between the extremes maps to 255 * 10 / 20 = 127.5. `astype(np.uint8)`
truncates that to 127, and `Viewer.ExampleSeries` proves 127.

## Model

| member | source | states |
|---|---|---|
| PyInt.ParseInt | app.py:36 | `int()` of text succeeds only when the text holds a digit and nothing but digits, underscores, signs and whitespace. A negative result needs a minus sign |
| PyInt.ParseDenotes | app.py:36 | `int()` reads n from a text exactly when the text is whitespace, an optional sign, a digit run of at most 4300 digits spelling the magnitude of n, and whitespace |
| PyInt.ParseReads | app.py:36 | Text that `int()` accepts splits into whitespace, a sign, a digit run within the digit limit and whitespace, and these spell the value read |
| PyInt.ReadsParse | app.py:36 | Text made of whitespace, a sign, a digit run within the digit limit and whitespace is accepted, with the value these spell |
| PyInt.SplitStripped | app.py:36 | Accepted stripped text is a sign ("", "+" or "-") followed by a digit run within the digit limit, and the value is that run's number with the sign applied |
| PyInt.StripPieces | app.py:36 | A text is leading whitespace, then its stripped text, then trailing whitespace |
| PyInt.TrimStartSpace | app.py:36 | Stripping the front of whitespace followed by a non-space removes exactly that whitespace |
| PyInt.TrimEndSpace | app.py:36 | Stripping the end of a non-space followed by whitespace removes exactly that whitespace |
| PyInt.DigitRunEnds | app.py:36 | A digit run begins and ends with a digit |
| PyInt.ExampleSignZeros | app.py:36 | `int()` reads "+5" as 5 and "007" as 7 |
| PyInt.ExampleUnderscore | app.py:36 | `int()` reads "1_000" as 1000 |
| PyInt.ExampleRejected | app.py:36 | `int()` rejects "1__0", "5-" and "- 1" |
| PyInt.TooManyDigits | app.py:36 | `int()` rejects the decimal text of a number with more than 4300 digits |
| PyInt.DigitCountAll | app.py:36 | In text of digits only, every character counts toward the digit limit |
| PyInt.ShowNatLength | app.py:36 | A natural number has at most d decimal digits exactly when it is below 10^d |
| PyInt.DigitsOfBound | app.py:36 | An integer has at most d decimal digits exactly when -10^d < n < 10^d |
| PyInt.ParseIntChars | app.py:36 | The character facts of `int()`, proved on the stripped text and carried back to the whole text |
| PyInt.TrimStartSlice | app.py:36 | Stripping the front removes a prefix made only of whitespace |
| PyInt.TrimEndSlice | app.py:36 | Stripping the end removes a suffix made only of whitespace |
| PyInt.DigitRunChars | app.py:36 | A digit run is made only of digits and underscores |
| PyInt.ParseStrippedChars | app.py:36 | Stripped text that parses holds a digit, only digits, underscores and signs, and a leading minus when the value is negative |
| PyInt.SeparatorNotSkipped | app.py:36 | `int()` rejects text led by U+001C but skips a leading tab or no-break space |
| Ordering.HasKey | app.py:35-37 | A slice has a sort key exactly when its InstanceNumber is present and `int()` accepts the text. The text then holds a digit |
| Ordering.KeyOf | app.py:36 | The key of a slice with a key is the integer its InstanceNumber text denotes: whitespace, a sign and a digit run within the digit limit that spell the key |
| Ordering.KeyDenoted | app.py:35-37 | A slice has a sort key exactly when its InstanceNumber is present and its text denotes some integer |
| Ordering.ScanKeys | app.py:36 | Evaluates keys in upload order and stops at the first that fails. It reports all keys integral exactly when every slice has an integer key. Otherwise it reports whether the first failing key is missing or not an integer, and every key before it succeeds |
| Ordering.Order | app.py:34-38 | There is no warning exactly when every slice has an integer key. The result is then sorted by key and stable, meaning equal keys keep their upload order. The warning is given exactly when the first failing key is a missing attribute, and then the upload order is returned unchanged. The pass fails, reporting that slice's index, exactly when the first failing key is present text that is not an integer. No slice is lost or duplicated |
| Ordering.OrderAllKeys | app.py:36 | When every key is an integer, the order is exactly the stable sort by key |
| Ordering.FirstFailureDecides | app.py:35-38 | With one slice lacking the attribute and one whose text is not an integer, upload order decides. Missing-first gives the warning with upload order kept. Bad-first is fatal |
| Ordering.FirstFailureUnique | app.py:36 | Key evaluation stops at exactly one position |
| Ordering.Pixels | app.py:41-47 | One image per slice, in the slices' order |
| PyInt.ParseShow | app.py:36 | `int()` reads back the decimal text of any integer with at most 4300 digits, sign included |
| PyInt.ParseIgnoresSpace | app.py:36 | `int()` ignores whitespace added at either end of the text |
| PyInt.StripShow | app.py:36 | Decimal text has no surrounding whitespace to strip |
| PyInt.StripAppend | app.py:36 | Whitespace appended at the end is removed by the strip |
| PyInt.RunValueShowNat | app.py:36 | The digit run of a natural number's decimal text has that number as its value |
| PyInt.ShowNat | app.py:36 | Decimal text is a well-formed digit run made of digits only |
| PyInt.DigitChar | app.py:36 | The digit character for 0-9 is a digit and has that value |
| StableSort.Sort | app.py:36 | The result is sorted by key, is a permutation of the input, and keeps for every key the input's subsequence of elements with that key (stability) |
| StableSort.SortCharacterized | app.py:36 | A sequence is the sort of the input exactly when it is sorted by key and has the input's per-key subsequences |
| StableSort.StableSortUnique | app.py:36 | Two sequences that are sorted by key and have equal per-key subsequences are equal |
| StableSort.InsertSorted | app.py:36 | Inserting into a sorted sequence keeps it sorted |
| StableSort.InsertMultiset | app.py:36 | Inserting adds exactly the inserted element |
| StableSort.InsertKeyClasses | app.py:36 | Inserting puts the element at the front of its key class and leaves every other key class as it was |
| StableSort.InWithKey | app.py:36 | An element of a key class has that key and belongs to the sequence |
| Stacking.Stack | app.py:49 | Stacking succeeds exactly when there is at least one image and all images share a shape. With no images it fails with NoSlices. With differing shapes it fails with DimensionMismatch. On success the volume has one plane per image, in order, with the images' shape |
| Normalization.Lo | app.py:52 | The minimum is at most every sample and is attained by some sample |
| Normalization.Hi | app.py:53 | The maximum is at least every sample and is attained by some sample |
| Normalization.Level | app.py:53-55 | The 8-bit level is the integer part of the sample's position on the scale from min (0) to max (255) |
| Normalization.LevelRange | app.py:53-55 | A level lies in 0..255. It is 255 exactly at the maximum and 0 at the minimum |
| Normalization.LevelMonotone | app.py:53-55 | A larger sample never gets a smaller level |
| Normalization.Normalize | app.py:52-55 | Fails exactly for an empty volume (EmptyVolume) or a constant one (ConstantVolume, the 0/0 case). Otherwise the shape is kept and every sample is scaled by the extremes of the whole volume |
| Normalization.ConstantIffFlat | app.py:52-53 | A volume is constant exactly when its minimum equals its maximum |
| Normalization.NormalizeRange | app.py:55 | Every normalized sample is a byte |
| Normalization.NormalizeExtremes | app.py:52-55 | The global minimum maps to 0. A sample maps to 255 exactly when nothing exceeds it. Both 0 and 255 occur |
| Normalization.NormalizeMonotone | app.py:52-55 | Normalization preserves the order between any two samples |
| Reslice.Axial | app.py:66 | `vol[a, :, :]` is rows by columns and shows sample (a, i, j) at (i, j) |
| Reslice.Coronal | app.py:68 | `vol[:, c, :]` is slices by columns and shows sample (k, c, j) at (k, j) |
| Reslice.Sagittal | app.py:70 | `vol[:, :, s]` is slices by rows and shows sample (k, i, s) at (k, i) |
| Reslice.Views | app.py:64-70 | The three panels have the shapes of the three cross-sections |
| Reslice.ViewsAgree | app.py:66-70 | The three panels cross at one voxel: (a, c, s) appears in each at the matching position |
| Reslice.StackAxials | app.py:49 | Stacking a volume's axial cross-sections gives the volume back |
| Reslice.AxialOfStack | app.py:66 | The k-th axial cross-section of a stack is the k-th stacked image |
| Reslice.AxisSlider | app.py:60-62 | The slider spans exactly the indices 0..d-1 of its axis and starts at the middle index d // 2 |
| Reslice.VolumeSliders | app.py:60-62 | Each slider's maximum is the last index of its axis, and the starting triple addresses a voxel |
| Series.ExtremesUnique | app.py:52-53 | The lowest and the highest value of a series are each unique |
| Series.SamplesIncluded | app.py:41-49 | When every slice of one series is in another, so is every sample value |
| Series.Reordered | app.py:36-49 | Reordering the slices does not change whether they share a shape, which values they hold, their lowest or highest value, or whether they hold two different values |
| Series.StackedShapes | app.py:49 | The images stack exactly when all slices share an image shape |
| Series.StackedSamples | app.py:49 | With slices of one shape, the stack succeeds. It has one plane per slice with their shape, and voxel (k, i, j) is pixel (i, j) of slice k |
| Series.StackedExtremes | app.py:49-53 | The minimum and maximum of a non-empty stack are the lowest and highest value of the slices. They differ exactly when the slices hold two different values |
| Series.EmptyImages | app.py:49-52 | Slices with no rows or no columns stack to an empty volume and do not hold two different values |
| Series.NormalizedOutcome | app.py:49-55 | Stacking and normalizing slices of one shape succeeds exactly when they hold two different values. It fails with EmptyVolume when the images are empty and with ConstantVolume otherwise |
| Series.NormalizedBytes | app.py:52-55 | A non-empty volume that is not constant normalizes. Every level is a byte, and both 0 and 255 occur |
| Series.NormalizedScale | app.py:49-55 | Slices of one shape holding two different values stack and normalize. Voxel (k, i, j) of the normalized volume is the level of pixel (i, j) of slice k on the scale from the volume's minimum to its maximum |
| Series.ScaledVoxels | app.py:52-55 | A volume that holds the level of every voxel of a stack of the series holds the level of every sample of the series, on the same scale |
| Series.NormalizedLevels | app.py:49-55 | Slices of one shape holding two different values stack and normalize. The volume has the slices' shape. Each voxel is the level of its pixel on the scale from the slices' lowest to their highest value. Every level is a byte, and both 0 and 255 occur |
| Viewer.Build | app.py:49-55 | From ordered slices, the pass succeeds exactly when they share a shape and hold two different values. Otherwise it fails with NoSlices, DimensionMismatch, EmptyVolume or ConstantVolume, in that order of precedence. On success the volume has one plane per slice with the slices' shape. Plane k holds the levels of slice k on the scale from the lowest to the highest value of all slices. Every level is a byte, and both 0 and 255 occur |
| Viewer.Assemble | app.py:34-55 | The whole pass succeeds exactly when ordering succeeds and the uploads share a shape and hold two different values. A fatal ordering error is reported first, then the errors of Build. On success the volume has one plane per upload with the uploads' shape. The warning is shown exactly when some upload lacks an integer key. Plane k holds the levels of the k-th ordered slice on the scale from the lowest to the highest value of all uploads. Every level is a byte, and both 0 and 255 occur |
| Viewer.BuildReordered | app.py:34-55 | Building from a reordering of the uploads succeeds or fails as for the uploads, with the uploads' error, shape and value range |
| Viewer.AssembleIsBuild | app.py:34-55 | Once the order is settled, the pass is stacking and normalizing that order |
| Viewer.KeyOfShown | app.py:36 | A slice whose InstanceNumber is the decimal text of n, with n of at most 4300 digits, has key n |
| Viewer.ExampleFiles | app.py:36 | The texts "3", "1", "2" give keys 3, 1, 2 |
| Viewer.ExampleSort | app.py:36 | Keys 3, 1, 2 sort to the order 1, 2, 3 |
| Viewer.ExampleOrder | app.py:34-38 | Slices with keys 3, 1, 2 are ordered 1, 2, 3 without a warning |
| Viewer.FlatSamples | app.py:41-49 | Slices with flat 2 x 2 images share a shape, and their sample values are exactly the flat values |
| Viewer.FlatExtremes | app.py:52-53 | The lowest and highest of the flat values are the series' lowest and highest value |
| Viewer.FlatLevels | app.py:52-55 | A volume scaled from flat slices is flat on each plane at that slice's level |
| Viewer.ExampleLevels | app.py:52-55 | On the scale from 0 to 20, the values 10, 20 and 0 get levels 127, 255 and 0 |
| Viewer.ExampleNormalized | app.py:52-55 | Planes flat at 10, 20 and 0 normalize to 127, 255 and 0 |
| Viewer.ExampleBuild | app.py:49-55 | Stacking and normalizing flat slices of 10, 20 and 0 gives planes of 127, 255 and 0 |
| Viewer.ExampleSeries | app.py:34-55 | Flat slices with keys 3, 1, 2 and values 0, 10, 20 give, with no warning, planes of 127, 255 and 0 |

## Left out

- The Streamlit page is not modelled: the title, the file uploader, the success banner, the columns, and `show_slice` with its matplotlib figure. They are presentation only.
- The `if uploaded_files:` guard (app.py:27) is not modelled. `Stack` models `np.stack` on an empty list directly, which fails with NoSlices.
- `pydicom.dcmread` (app.py:29-32) is not modelled. A decoded file is a `Slice`: the text of its InstanceNumber (or its absence) and a pixel grid. A file that pydicom cannot decode is outside the model.
- pydicom's conversion of an IS element to a Python value is not modelled. The key is `int()` of the element's text.
- PyInt.ParseInt: non-ASCII decimal digits, which Python's `int()` also accepts, are not modelled.
- PyInt.ParseInt: the digit limit is fixed at CPython's default of 4300. Raising or lifting it through `sys.set_int_max_str_digits` or the PYTHONINTMAXSTRDIGITS environment variable is not modelled.
- `apply_voi_lut` and its fallback to the raw pixels (app.py:41-47) are not modelled. Each slice carries the image these lines produce. Which branch produced it does not affect any later step.
- Pixel arrays whose rank is not 2 (multi-frame or colour files) are not modelled. Every image is a 2-D grid.
- Normalization.Normalize: samples are exact reals, not float32. Rounding in the subtraction, division and multiplication is not modelled, so a level can differ by one from the float32 result near an integer boundary.
- Normalization.Normalize: `astype(np.uint8)` of NaN (the constant-volume 0/0 case) is not modelled as a value. It is the ConstantVolume failure.
- Reslice.AxisSlider: an axis of length 0 is excluded. A successful pass never yields one, because Normalize rejects an empty volume.
- The PyVista volume rendering (app.py:72 onward) is not modelled. It only displays the volume.
- Nothing is read from a clock, the network or randomness. The uploaded files are the only input, and they are the parameters of `Viewer.Assemble`.
