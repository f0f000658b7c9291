/** The player's image table: one `[image, loaded]` pair per frame, built by
    `load_images` and updated by `loaded_image` (src/whoosh.js). */
module ImageTable {
  import opened FrameNames

  /** A browser image object. JavaScript compares image objects by identity;
      `serial` is that identity (the order of creation) and `src` the file
      name the image was asked to load. Its pixel size is not part of it: the
      browser supplies it, and it is a parameter of the draw plan. */
  datatype ImageRef = ImageRef(serial: nat, src: string)

  datatype Entry = Entry(image: ImageRef, loaded: bool)

  type Table = seq<Entry>

  /** How many frames lie in `first .. last` inclusive. */
  function FrameCount(first: int, last: int): (n: nat)
    ensures first <= last ==> n == last - first + 1
    ensures last < first ==> n == 0
  {
    if last < first then 0 else last - first + 1
  }

  /** The entry `load_images` creates for the `k`-th frame. */
  function Requested(baseName: string, first: int, digits: int, k: nat): Entry {
    Entry(ImageRef(k, FrameName(baseName, first + k, digits)), false)
  }

  /** `load_images`: one not-yet-loaded entry per frame number from `first`
      to `last` inclusive, in ascending frame order, each image asked to load
      the file named after its frame number. */
  method LoadImages(baseName: string, first: int, last: int, digits: int) returns (t: Table)
    ensures |t| == FrameCount(first, last)
    ensures forall k :: 0 <= k < |t| ==> !t[k].loaded
    ensures forall k :: 0 <= k < |t| ==> t[k].image.src == FrameName(baseName, first + k, digits)
    ensures forall k :: 0 <= k < |t| ==> t[k] == Requested(baseName, first, digits, k)
  {
    t := [];
    var i := first;
    while i <= last
      invariant first <= i <= (if first <= last then last + 1 else first)
      invariant |t| == i - first
      invariant forall k :: 0 <= k < |t| ==> t[k] == Requested(baseName, first, digits, k)
    {
      t := t + [Requested(baseName, first, digits, |t|)];
      i := i + 1;
    }
  }

  /** Images in the table are distinct objects, as freshly created ones are. */
  predicate DistinctImages(t: Table) {
    forall j, k :: 0 <= j < k < |t| ==> t[j].image != t[k].image
  }

  /** A table built by `load_images` holds distinct images. */
  lemma RequestedDistinct(t: Table, baseName: string, first: int, digits: int)
    requires forall k :: 0 <= k < |t| ==> t[k] == Requested(baseName, first, digits, k)
    ensures DistinctImages(t)
  {
    forall j, k | 0 <= j < k < |t|
      ensures t[j].image != t[k].image
    {
      assert t[j].image.serial == j && t[k].image.serial == k;
    }
  }

  /** `k` is the first entry of `t` holding `img`. */
  predicate FirstMatch(t: Table, img: ImageRef, k: int) {
    0 <= k < |t| && t[k].image == img && forall j :: 0 <= j < k ==> t[j].image != img
  }

  /** The table after image `img` reports that it has loaded: the first entry
      holding it is flagged loaded, and nothing else changes. */
  function MarkLoaded(t: Table, img: ImageRef): (r: Table)
    ensures |r| == |t|
    ensures forall j :: 0 <= j < |t| ==> r[j].image == t[j].image
    ensures (forall j :: 0 <= j < |t| ==> t[j].image != img) ==> r == t
    ensures forall k {:trigger FirstMatch(t, img, k)} :: FirstMatch(t, img, k) ==>
              r[k].loaded && forall j :: 0 <= j < |t| && j != k ==> r[j] == t[j]
  {
    if |t| == 0 then []
    else if t[0].image == img then [t[0].(loaded := true)] + t[1..]
    else
      var rest := MarkLoaded(t[1..], img);
      assert forall k {:trigger FirstMatch(t, img, k)} :: FirstMatch(t, img, k) ==>
        k >= 1 && FirstMatch(t[1..], img, k - 1);
      [t[0]] + rest
  }

  /** `loaded_image`: scan the table in order, flag the first entry whose
      image is `img`, and stop there. */
  method LoadedImage(t: Table, img: ImageRef) returns (r: Table)
    ensures r == MarkLoaded(t, img)
  {
    r := t;
    var i := 0;
    while i < |r|
      invariant 0 <= i <= |r| && r == t
      invariant forall j :: 0 <= j < i ==> t[j].image != img
    {
      if r[i].image == img {
        assert FirstMatch(t, img, i);
        r := r[i := r[i].(loaded := true)];
        break;
      }
      i := i + 1;
    }
  }

  /** Reporting the same image twice is the same as reporting it once. */
  lemma MarkLoadedIdempotent(t: Table, img: ImageRef)
    ensures MarkLoaded(MarkLoaded(t, img), img) == MarkLoaded(t, img)
  {
    var r := MarkLoaded(t, img);
    if k :| FirstMatch(t, img, k) {
      assert FirstMatch(r, img, k);
    }
  }

  /** In a table of distinct images, reporting the image of entry `k` flags
      exactly entry `k`. */
  lemma MarkLoadedDistinct(t: Table, k: nat)
    requires DistinctImages(t) && k < |t|
    ensures MarkLoaded(t, t[k].image) == t[k := t[k].(loaded := true)]
  {
    assert FirstMatch(t, t[k].image, k);
  }

}
