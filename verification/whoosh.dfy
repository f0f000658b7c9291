/** The player (src/whoosh.js, `Whoosh`): its options, its state, the
    start/stop control of its interval timer and the work of one timer tick.
    Every operation is a pure function from the old state to the new one; a
    tick also returns the draw commands it would issue to the canvas. */
module Whoosh {
  import opened Optional
  import opened Decimal
  import opened FrameNames
  import opened ImageTable
  import opened DrawPlan

  /** The merged option set a player is created with. */
  datatype Options = Options(
    baseName: string,   // file name pattern, `{frame_number}` marks the number
    firstFrame: int,    // number of the first frame
    lastFrame: int,     // number of the last frame, inclusive
    digits: int,        // how many characters the frame number is cut to
    interval: int,      // milliseconds between ticks
    speed: real,        // zoom speed, frames per second
    rotate: real,       // rotation speed
    cushion: real       // acceleration for starting and stopping
  )

  /** The option set used where the caller gives none. */
  const DefaultOptions: Options :=
    Options("zoom{frame_number}.jpg", 1, 10, 2, 50, 0.5, 0.025, 4.0)

  /** A tick advances the position by the speed times this (one twentieth). */
  const PositionStep: real := 0.05

  /** A tick advances the rotation by the rotation speed times this. */
  const RotationStep: real := 18.0

  /** What `window.setInterval` returns. */
  type Handle = nat

  datatype Player = Player(
    opts: Options,
    images: Table,
    position: real,          // `frame_position`
    positionSpeed: real,     // `frame_position_speed`
    zoomingOut: bool,        // `is_zooming_out`, never read
    rotation: real,          // `frame_rotation`
    rotationSpeed: real,     // `frame_rotation_speed`
    paused: bool,            // `is_paused`
    handle: Option<Handle>   // `interval_handle`, null as None
  )

  /** The constructor: everything at rest, no timer, and the image table
      built from the options. */
  method NewPlayer(opts: Options) returns (p: Player)
    ensures p.opts == opts && p.handle == None && !p.paused && !p.zoomingOut
    ensures p.position == 0.0 && p.positionSpeed == 0.0
    ensures p.rotation == 0.0 && p.rotationSpeed == 0.0
    ensures |p.images| == FrameCount(opts.firstFrame, opts.lastFrame)
    ensures forall k :: 0 <= k < |p.images| ==>
              p.images[k] == Requested(opts.baseName, opts.firstFrame, opts.digits, k)
    ensures DistinctImages(p.images)
  {
    var images := LoadImages(opts.baseName, opts.firstFrame, opts.lastFrame, opts.digits);
    RequestedDistinct(images, opts.baseName, opts.firstFrame, opts.digits);
    p := Player(opts, images, 0.0, 0.0, false, 0.0, 0.0, false, None);
  }

  // ---- start / stop -------------------------------------------------------

  /** `start`: install a timer unless one is already installed. `h` is the
      handle `setInterval` would return. */
  function Start(p: Player, h: Handle): (q: Player)
    ensures q.handle.Some?
    ensures p.handle.Some? ==> q == p
    ensures p.handle.None? ==> q.handle == Some(h)
    ensures q.(handle := p.handle) == p
  {
    if p.handle.None? then p.(handle := Some(h)) else p
  }

  /** `stop`: clear the timer if one is installed. */
  function Stop(p: Player): (q: Player)
    ensures q.handle == None
    ensures p.handle.None? ==> q == p
    ensures q.(handle := p.handle) == p
  {
    if p.handle.Some? then p.(handle := None) else p
  }

  /** Starting twice keeps the first timer; stopping twice is stopping once. */
  lemma StartStopIdempotent(p: Player, h1: Handle, h2: Handle)
    ensures Start(Start(p, h1), h2) == Start(p, h1)
    ensures Stop(Stop(p)) == Stop(p)
  {
  }

  /** From a stopped player, starting and then stopping gives the player back. */
  lemma StartThenStop(p: Player, h: Handle)
    requires p.handle.None?
    ensures Stop(Start(p, h)) == p
  {
  }

  // ---- one tick -----------------------------------------------------------

  /** The canvas size in pixels, as jQuery's `width()` and `height()` report it. */
  datatype Canvas = Canvas(width: real, height: real)

  /** The outcome of a tick. `TypeError` is the exception the drawing loop
      raises when the top frame index is negative: `images[i]` is then
      undefined and `undefined[0]` throws. The position and rotation have
      already been updated when that happens. */
  datatype TickResult = Completed(next: Player, draws: seq<Draw>) | TypeError(next: Player)

  /** The zoom and rotation speeds a tick uses. Both cushioning branches are
      unfinished: either way the speeds are taken from the options, and the
      player's own speed fields are neither read nor written. */
  function StepSpeeds(p: Player): (speeds: (real, real))
    ensures speeds == (p.opts.speed, p.opts.rotate)
  {
    var positionSpeed :=
      if p.opts.cushion == 0.0 then p.opts.speed
      else p.opts.speed;   // easing is not written yet
    var rotationSpeed :=
      if p.opts.cushion == 0.0 then p.opts.rotate
      else p.opts.rotate;  // easing is not written yet
    (positionSpeed, rotationSpeed)
  }

  /** The state a tick leaves: a paused player is untouched; otherwise the
      position and rotation take one step and nothing else changes, the
      player's own speed fields included. */
  function Step(p: Player): (q: Player)
    ensures p.paused ==> q == p
    ensures !p.paused ==> q.position == p.position + p.opts.speed * PositionStep
    ensures !p.paused ==> q.rotation == p.rotation + p.opts.rotate * RotationStep
    ensures q.(position := p.position, rotation := p.rotation) == p
  {
    if p.paused then p
    else
      var (positionSpeed, rotationSpeed) := StepSpeeds(p);
      p.(position := p.position + positionSpeed * PositionStep,
         rotation := p.rotation + rotationSpeed * RotationStep)
  }

  /** `interval`: one timer tick. A paused player does nothing. Otherwise the
      player takes one step, and the frames drawn are the plan for the floor
      of the new position, centred on the canvas, the first at
      `pow2(frame_partial)` times its size (`pow2` stands for
      `Math.pow(2.0, ·)`). `dims` gives each image's pixel size. */
  function Interval(p: Player, canvas: Canvas, dims: ImageRef -> Size, pow2: real -> real): (r: TickResult)
    ensures p.paused ==> r == Completed(p, [])
    ensures r.next == Step(p)
    ensures !p.paused ==> (r.TypeError? <==> r.next.position < 0.0)
    ensures r.Completed? && !p.paused ==>
              && 0 <= FrameTop(r.next.position)
              && r.draws == Plan(p.images, FrameTop(r.next.position), pow2(FramePartial(r.next.position)),
                                 canvas.width * 0.5, canvas.height * 0.5, dims)
  {
    if p.paused then Completed(p, [])
    else
      var next := Step(p);
      var top := FrameTop(next.position);
      if top < 0 then TypeError(next)
      else
        var baseScale := pow2(FramePartial(next.position));
        Completed(next, Plan(next.images, top, baseScale, canvas.width * 0.5, canvas.height * 0.5, dims))
  }

  /** What an unpaused tick draws: at most three frames, consecutive from the
      floor of the new position, none when that is past the end of the table,
      all centred on the canvas, the first at `pow2(frame_partial)` times its
      size and each further one at half the scale of the one before. */
  lemma TickDraws(p: Player, canvas: Canvas, dims: ImageRef -> Size, pow2: real -> real)
    requires !p.paused
    ensures var r := Interval(p, canvas, dims, pow2);
            r.Completed? ==>
              var top := FrameTop(r.next.position);
              var draws := r.draws;
              && 0 <= top
              && |draws| <= FramesPerTick
              && (top >= |p.images| <==> draws == [])
              && (forall k :: 0 <= k < |draws| ==>
                    && draws[k].index == top + k < |p.images|
                    && draws[k].image == p.images[top + k].image
                    && Centred(draws[k], canvas.width * 0.5, canvas.height * 0.5)
                    && SizedTo(draws[k], dims))
              && (|draws| > 0 ==> draws[0].scale == pow2(FramePartial(r.next.position)))
              && (forall k :: 0 <= k < |draws| - 1 ==> draws[k + 1].scale == draws[k].scale * 0.5)
  {
    var r := Interval(p, canvas, dims, pow2);
    if r.Completed? {
      var base := pow2(FramePartial(r.next.position));
      forall k | 0 <= k < |r.draws| - 1
        ensures r.draws[k + 1].scale == r.draws[k].scale * 0.5
      {
        HalvedStep(base, k);
      }
    }
  }

  /** The draws of a tick, or none when it threw. */
  function DrawsOf(r: TickResult): seq<Draw> {
    if r.Completed? then r.draws else []
  }

  /** The cushion setting and the player's own speed fields do not affect a
      tick: changing them changes the outcome in nothing but those fields. */
  lemma TickIgnoresCushionAndSpeedFields(p: Player, cushion: real, positionSpeed: real, rotationSpeed: real,
                                         canvas: Canvas, dims: ImageRef -> Size, pow2: real -> real)
    ensures var p' := p.(opts := p.opts.(cushion := cushion),
                         positionSpeed := positionSpeed, rotationSpeed := rotationSpeed);
            var r := Interval(p, canvas, dims, pow2);
            var r' := Interval(p', canvas, dims, pow2);
            && (r'.TypeError? <==> r.TypeError?)
            && DrawsOf(r') == DrawsOf(r)
            && r'.next == r.next.(opts := p'.opts, positionSpeed := positionSpeed, rotationSpeed := rotationSpeed)
  {
    var p' := p.(opts := p.opts.(cushion := cushion),
                 positionSpeed := positionSpeed, rotationSpeed := rotationSpeed);
    assert StepSpeeds(p') == StepSpeeds(p);
  }

  /** Frames are drawn whether or not they have loaded: a tick on a table
      with the same images and other loaded flags draws the same. */
  lemma TickIgnoresLoaded(p: Player, images: Table, canvas: Canvas, dims: ImageRef -> Size, pow2: real -> real)
    requires SameImages(p.images, images)
    ensures DrawsOf(Interval(p.(images := images), canvas, dims, pow2)) == DrawsOf(Interval(p, canvas, dims, pow2))
  {
    if !p.paused {
      var p' := p.(images := images);
      var cx, cy := canvas.width * 0.5, canvas.height * 0.5;
      var position := p.position + p.opts.speed * PositionStep;
      var next := p.(position := position, rotation := p.rotation + p.opts.rotate * RotationStep);
      var next' := p'.(position := position, rotation := p'.rotation + p'.opts.rotate * RotationStep);
      var top := FrameTop(position);
      var baseScale := pow2(FramePartial(position));
      if top >= 0 {
        assert Interval(p, canvas, dims, pow2) == Completed(next, Plan(p.images, top, baseScale, cx, cy, dims));
        assert Interval(p', canvas, dims, pow2) == Completed(next', Plan(images, top, baseScale, cx, cy, dims));
        PlanIgnoresLoaded(p.images, images, top, baseScale, cx, cy, dims);
      }
    }
  }

  /** The state after `n` timer ticks, each leaving `Step` of the one before
      (see `Interval`). A tick that throws does not cancel the timer, so the
      next tick starts from the state the thrown one left. */
  function Run(p: Player, n: nat): Player
    decreases n
  {
    if n == 0 then p else Run(Step(p), n - 1)
  }

  /** `n` unpaused ticks advance the position by `n` zoom steps and the
      rotation by `n` rotation steps, and change nothing else; paused ticks
      change nothing at all. */
  lemma {:induction false} RunAdvances(p: Player, n: nat)
    ensures p.paused ==> Run(p, n) == p
    ensures !p.paused ==>
              Run(p, n)
                == p.(position := p.position + n as real * (p.opts.speed * PositionStep),
                      rotation := p.rotation + n as real * (p.opts.rotate * RotationStep))
    decreases n
  {
    if n > 0 {
      var q := Step(p);
      RunAdvances(q, n - 1);
      if !p.paused {
        var dp, dr := p.opts.speed * PositionStep, p.opts.rotate * RotationStep;
        assert q.paused == p.paused && q.opts == p.opts;
        assert q.position == p.position + dp && q.rotation == p.rotation + dr;
        StepCount(n, dp);
        StepCount(n, dr);
        var rest := Run(q, n - 1);
        assert rest.position == p.position + n as real * dp;
        assert rest.rotation == p.rotation + n as real * dr;
      }
    }
  }

  lemma StepCount(n: nat, step: real)
    requires n >= 1
    ensures (n - 1) as real * step + step == n as real * step
  {
  }

  // ---- the default file names ---------------------------------------------

  /** With the default options frame `i` is named `zoom`, then the frame
      number cut or padded to two characters, then `.jpg`. */
  lemma DefaultFrameName(i: int)
    ensures FrameName(DefaultOptions.baseName, i, DefaultOptions.digits) == "zoom" + FrameNumber(i, 2) + ".jpg"
  {
    var base := DefaultOptions.baseName;
    assert base == "zoom" + Placeholder + ".jpg";
    var head, tail := base[..4], base[4 + |Placeholder|..];
    assert head == "zoom" && tail == ".jpg";
    DefaultPlaceholder();
  }

  /** What the default options amount to: ten frames, a tick every 50 ms
      (20 ticks a second), and each tick advancing the zoom by a fortieth of
      a frame. */
  lemma DefaultOptionsMeaning()
    ensures FrameCount(DefaultOptions.firstFrame, DefaultOptions.lastFrame) == 10
    ensures DefaultOptions.interval * 20 == 1000
    ensures DefaultOptions.speed * PositionStep == 0.025
    ensures DefaultOptions.digits == 2 && DefaultOptions.cushion != 0.0
  {
  }

  lemma DefaultPlaceholder()
    ensures FirstOccurrence(DefaultOptions.baseName, Placeholder, 4)
  {
    var base := DefaultOptions.baseName;
    assert base[4..4 + |Placeholder|] == Placeholder;
    forall j | 0 <= j < 4
      ensures !OccursAt(base, Placeholder, j)
    {
      assert base[j] != '{';
      assert base[j..j + |Placeholder|][0] == base[j];
    }
  }

  /** Two digits pad frame 1 to "01" and keep frame 10 as "10", so the
      default first and last frames are `zoom01.jpg` and `zoom10.jpg`. */
  lemma DefaultFrameNumbers()
    ensures FrameNumber(1, 2) == "01"
    ensures FrameNumber(10, 2) == "10"
  {
    assert NatToString(1) == "1";
    assert IntToString(1) == "1";
    assert NatToString(10) == "10";
    assert IntToString(10) == "10";
  }

}
