/** Putting uploaded slices in acquisition order (app.py, the InstanceNumber sort).

    `slices.sort(key=lambda x: int(x.InstanceNumber))` evaluates the key of every
    slice, in upload order, before it compares anything; the first key that raises
    leaves the list untouched and ends the sort. A missing attribute raises
    AttributeError, which the script catches and turns into a warning; text that
    `int()` rejects raises ValueError, which nothing catches. */
module Ordering {
  import opened Results
  import opened Arrays
  import PyInt
  import StableSort

  /** The InstanceNumber element of a decoded file: absent, or the text `int()` receives. */
  datatype InstanceNumber = Absent | Present(text: string)

  /** One decoded DICOM file: its ordering metadata and its pixel grid (windowed, as floats). */
  datatype Slice = Slice(instance: InstanceNumber, pixels: Array2<real>)

  /** Evaluating the sort key on this slice succeeds: the attribute exists (no
      AttributeError) and `int()` accepts its text (no ValueError), which needs a digit. */
  predicate HasKey(s: Slice)
    ensures HasKey(s) ==> s.instance.Present?
    ensures HasKey(s) ==> exists i :: 0 <= i < |s.instance.text| && PyInt.IsDigit(s.instance.text[i])
  {
    s.instance.Present? && PyInt.ParseInt(s.instance.text).Some?
  }

  /** The sort key `int(InstanceNumber)`; only consulted on slices with `HasKey`. It is
      the integer the InstanceNumber text denotes. */
  function KeyOf(s: Slice): (k: int)
    ensures HasKey(s) ==> PyInt.Denotes(s.instance.text, k)
  {
    if HasKey(s) then
      var k := PyInt.ParseInt(s.instance.text).value;
      PyInt.ParseDenotes(s.instance.text, k);
      k
    else 0
  }

  /** A slice has a sort key exactly when its InstanceNumber is present and its text
      denotes an integer. */
  lemma KeyDenoted(s: Slice)
    ensures HasKey(s) <==> s.instance.Present? && exists n :: PyInt.Denotes(s.instance.text, n)
  {
    if s.instance.Present? && PyInt.ParseInt(s.instance.text).Some? {
      PyInt.ParseDenotes(s.instance.text, PyInt.ParseInt(s.instance.text).value);
    }
    if s.instance.Present? {
      forall n | PyInt.Denotes(s.instance.text, n)
        ensures PyInt.ParseInt(s.instance.text).Some?
      {
        PyInt.ParseDenotes(s.instance.text, n);
      }
    }
  }

  /** How evaluating the keys in upload order ends: every key is an integer, or the
      first failing key is missing (AttributeError) or not an integer (ValueError). */
  datatype KeyScan = AllKeys | MissingAt(index: nat) | NotIntegerAt(index: nat)

  /** Evaluates the keys of `slices[from..]` in order and stops at the first failure. */
  function ScanKeys(slices: seq<Slice>, from: nat): (r: KeyScan)
    requires from <= |slices|
    ensures r.AllKeys? <==> forall i :: from <= i < |slices| ==> HasKey(slices[i])
    ensures r.MissingAt? ==>
      && from <= r.index < |slices|
      && slices[r.index].instance.Absent?
      && forall i :: from <= i < r.index ==> HasKey(slices[i])
    ensures r.NotIntegerAt? ==>
      && from <= r.index < |slices|
      && slices[r.index].instance.Present?
      && !HasKey(slices[r.index])
      && forall i :: from <= i < r.index ==> HasKey(slices[i])
    decreases |slices| - from
  {
    if from == |slices| then AllKeys
    else if slices[from].instance.Absent? then MissingAt(from)
    else if !HasKey(slices[from]) then NotIntegerAt(from)
    else ScanKeys(slices, from + 1)
  }

  /** Position `m` is where key evaluation stops: its key fails and every earlier one succeeds. */
  ghost predicate FirstFailure(slices: seq<Slice>, m: int) {
    && 0 <= m < |slices|
    && !HasKey(slices[m])
    && forall i :: 0 <= i < m ==> HasKey(slices[i])
  }

  /** Key evaluation stops at one place only. */
  lemma FirstFailureUnique(slices: seq<Slice>, m: int)
    requires FirstFailure(slices, m)
    ensures forall n {:trigger FirstFailure(slices, n)} :: FirstFailure(slices, n) ==> n == m
  {
  }

  /** The slices in the order they will be stacked, and whether the user is warned
      that this order may be anatomically wrong. */
  datatype Ordered = Ordered(slices: seq<Slice>, warned: bool)

  /** The sort with its AttributeError fallback. */
  function Order(uploads: seq<Slice>): (r: Result<Ordered>)
    // Sorted, with no warning, exactly when every slice has an integer key.
    ensures (r.Success? && !r.value.warned) <==> forall i :: 0 <= i < |uploads| ==> HasKey(uploads[i])
    ensures r.Success? && !r.value.warned ==>
      && StableSort.SortedBy(r.value.slices, KeyOf)
      && StableSort.SameKeyClasses(r.value.slices, uploads, KeyOf)
    // Either way no slice is lost, duplicated or invented.
    ensures r.Success? ==> multiset(r.value.slices) == multiset(uploads)
    // The warning path keeps the upload order untouched.
    ensures r.Success? && r.value.warned ==> r.value.slices == uploads
    ensures (r.Success? && r.value.warned) <==>
      exists m {:trigger FirstFailure(uploads, m)} :: FirstFailure(uploads, m) && uploads[m].instance.Absent?
    // A present but non-integer key that is met first is fatal.
    ensures r.Failure? <==>
      exists m {:trigger FirstFailure(uploads, m)} :: FirstFailure(uploads, m) && uploads[m].instance.Present?
    ensures r.Failure? ==>
      && r.error.KeyNotInteger?
      && FirstFailure(uploads, r.error.index)
      && uploads[r.error.index].instance.Present?
  {
    var scan := ScanKeys(uploads, 0);
    match scan
    case AllKeys => Success(Ordered(StableSort.Sort(uploads, KeyOf), false))
    case MissingAt(m) =>
      assert FirstFailure(uploads, m);
      FirstFailureUnique(uploads, m);
      Success(Ordered(uploads, true))
    case NotIntegerAt(m) =>
      assert FirstFailure(uploads, m);
      FirstFailureUnique(uploads, m);
      Failure(KeyNotInteger(m))
  }

  /** When every key is an integer, the order is Python's stable sort by key. */
  lemma OrderAllKeys(uploads: seq<Slice>)
    requires forall i :: 0 <= i < |uploads| ==> HasKey(uploads[i])
    ensures Order(uploads) == Success(Ordered(StableSort.Sort(uploads, KeyOf), false))
  {
  }

  /** Which failure wins depends on upload order alone: with one slice lacking the
      attribute and one whose text is not an integer, the pass is warned and left
      unsorted when the missing one comes first, and fails when the other does. */
  lemma FirstFailureDecides(missing: Slice, bad: Slice)
    requires missing.instance.Absent?
    requires bad.instance.Present? && !HasKey(bad)
    ensures Order([missing, bad]) == Success(Ordered([missing, bad], true))
    ensures Order([bad, missing]) == Failure(KeyNotInteger(0))
  {
    assert FirstFailure([missing, bad], 0);
    assert FirstFailure([bad, missing], 0);
  }

  /** The pixel grids of the slices, in the same order. */
  function Pixels(slices: seq<Slice>): (g: seq<Array2<real>>)
    ensures |g| == |slices|
    ensures forall k :: 0 <= k < |slices| ==> g[k] == slices[k].pixels
  {
    seq(|slices|, k requires 0 <= k < |slices| => slices[k].pixels)
  }
}
