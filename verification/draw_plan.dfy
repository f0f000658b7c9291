/** What one tick draws (src/whoosh.js, the end of `interval`): up to three
    consecutive frames starting at the integer part of the zoom position,
    each centred on the canvas and each at half the scale of the one before.
    Drawing is modelled as a list of draw commands instead of canvas calls. */
module DrawPlan {
  import opened ImageTable

  /** How many frames one tick draws (`frame_count`). */
  const FramesPerTick: nat := 3

  /** The pixel size the browser reports for an image. */
  datatype Size = Size(width: nat, height: nat)

  /** `context.drawImage(image, x, y, w, h)` for table entry `index`, drawn at
      `scale` times the image's own size. */
  datatype Draw = Draw(index: nat, image: ImageRef, scale: real, x: real, y: real, w: real, h: real)

  function Min(a: int, b: int): int {
    if a < b then a else b
  }

  /** `Math.floor(frame_position)`. */
  function FrameTop(position: real): (top: int)
    ensures top as real <= position < top as real + 1.0
  {
    position.Floor
  }

  /** `frame_position - frame_top`: how far the zoom is into the top frame. */
  function FramePartial(position: real): (f: real)
    ensures 0.0 <= f < 1.0
    ensures FrameTop(position) as real + f == position
  {
    position - FrameTop(position) as real
  }

  /** `scale` halved `k` times: the scale of the `k`-th frame drawn after
      the one drawn at `scale`. */
  function Halved(scale: real, k: nat): real
    decreases k
  {
    if k == 0 then scale else Halved(scale * 0.5, k - 1)
  }

  /** Each further frame is drawn at half the scale of the one before. */
  lemma {:induction false} HalvedStep(scale: real, k: nat)
    ensures Halved(scale, k + 1) == Halved(scale, k) * 0.5
    decreases k
  {
    if k > 0 {
      HalvedStep(scale * 0.5, k - 1);
    }
  }

  /** The rectangle of `d` has its centre at `(cx, cy)`. */
  predicate Centred(d: Draw, cx: real, cy: real) {
    d.x + d.w * 0.5 == cx && d.y + d.h * 0.5 == cy
  }

  /** The rectangle of `d` is its image's size times its scale. */
  predicate SizedTo(d: Draw, dims: ImageRef -> Size) {
    d.w == dims(d.image).width as real * d.scale && d.h == dims(d.image).height as real * d.scale
  }

  /** The drawing loop from entry `i` up to (not including) `end`, stopping
      early at the end of the table, with `scale` for entry `i`. */
  function PlanFrom(images: Table, i: nat, end: nat, scale: real, cx: real, cy: real,
                    dims: ImageRef -> Size): (r: seq<Draw>)
    ensures |r| == if i < end && i < |images| then Min(end, |images|) - i else 0
    ensures forall k :: 0 <= k < |r| ==> r[k].index == i + k && r[k].image == images[i + k].image
    ensures forall k :: 0 <= k < |r| ==> r[k].scale == Halved(scale, k)
    ensures forall k :: 0 <= k < |r| ==> Centred(r[k], cx, cy) && SizedTo(r[k], dims)
    decreases end - i
  {
    if i >= end || i >= |images| then []
    else
      var image := images[i].image;
      var iw := dims(image).width as real * scale;
      var ih := dims(image).height as real * scale;
      [Draw(i, image, scale, cx - iw * 0.5, cy - ih * 0.5, iw, ih)]
        + PlanFrom(images, i + 1, end, scale * 0.5, cx, cy, dims)
  }

  /** The frames drawn for top frame `top` with `baseScale` for the top frame:
      entries `top .. min(top + 3, |images|) - 1` in ascending order, none
      when `top` is past the end of the table. */
  function Plan(images: Table, top: nat, baseScale: real, cx: real, cy: real,
                dims: ImageRef -> Size): (r: seq<Draw>)
    ensures |r| <= FramesPerTick
    ensures top >= |images| ==> r == []
    ensures top < |images| ==> |r| == Min(FramesPerTick, |images| - top)
    ensures forall k :: 0 <= k < |r| ==> r[k].index == top + k && r[k].index < |images|
    ensures forall k :: 0 <= k < |r| ==> r[k].image == images[r[k].index].image
    ensures forall k :: 0 <= k < |r| ==> r[k].scale == Halved(baseScale, k)
    ensures forall k :: 0 <= k < |r| ==> Centred(r[k], cx, cy) && SizedTo(r[k], dims)
  {
    PlanFrom(images, top, top + FramesPerTick, baseScale, cx, cy, dims)
  }

  /** Two tables that hold the same images in the same order.
      Their loaded flags may differ. */
  predicate SameImages(t1: Table, t2: Table) {
    |t1| == |t2| && forall j :: 0 <= j < |t1| ==> t1[j].image == t2[j].image
  }

  /** Frames are drawn whether or not they have loaded: the plan depends on
      the images of the table and not on its loaded flags. */
  lemma {:induction false} PlanFromIgnoresLoaded(t1: Table, t2: Table, i: nat, end: nat, scale: real,
                                                 cx: real, cy: real, dims: ImageRef -> Size)
    requires SameImages(t1, t2)
    ensures PlanFrom(t1, i, end, scale, cx, cy, dims) == PlanFrom(t2, i, end, scale, cx, cy, dims)
    decreases end - i
  {
    if i < end && i < |t1| {
      var r1 := PlanFrom(t1, i, end, scale, cx, cy, dims);
      var r2 := PlanFrom(t2, i, end, scale, cx, cy, dims);
      assert t1[i].image == t2[i].image;
      assert r1[0] == r2[0];
      PlanFromIgnoresLoaded(t1, t2, i + 1, end, scale * 0.5, cx, cy, dims);
      assert r1[1..] == r2[1..];
      assert r1 == [r1[0]] + r1[1..];
    }
  }

  /** The whole plan of a tick depends only on the images of the table. */
  lemma PlanIgnoresLoaded(t1: Table, t2: Table, top: nat, baseScale: real, cx: real, cy: real,
                          dims: ImageRef -> Size)
    requires SameImages(t1, t2)
    ensures Plan(t1, top, baseScale, cx, cy, dims) == Plan(t2, top, baseScale, cx, cy, dims)
  {
    PlanFromIgnoresLoaded(t1, t2, top, top + FramesPerTick, baseScale, cx, cy, dims);
  }

}
