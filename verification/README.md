# whoosh.js player core, modelled in Dafny

whoosh.js plays a "continuous zoom": a numbered sequence of still images,
each showing the same subject at twice the magnification of the one before,
drawn on a canvas so that the picture appears to zoom in forever, with an
optional spin. The repository's player (`src/whoosh.js`) is an early,
partly stubbed version, and this project models what that file actually
does:

- **Frame names** (`FrameNames`): frame `i` is written as
  `('0000' + i.toString()).substr(-digits)`, and that text replaces the
  first `{frame_number}` in the base name. `Substr`, `IndexOf` and
  `ReplaceFirst` model the JavaScript string primitives involved, and
  `Decimal` models `toString()` together with the number a digit string denotes.
- **Image table** (`ImageTable`): `load_images` creates one `[image, false]`
  pair per frame number from `first_frame` to `last_frame`. `loaded_image`
  flags the first pair whose image is the one that reported loading.
- **Timer handle** (`Whoosh.Start`, `Whoosh.Stop`): `start` installs an
  interval timer only when there is none, and `stop` clears it only when
  there is one.
- **One tick** (`Whoosh.Interval`, `DrawPlan`): a paused player does
  nothing. Otherwise the position advances by `speed × 0.05` and the rotation
  by `rotate × 18`, using the option speeds whatever the cushion (both
  cushion branches are stubs). Up to three frames from `floor(position)` on
  are drawn centred on the canvas, the first at `2^(position − floor)` times
  its size and each further one at half the scale of the previous one. A
  tick returns the new state and the list of draw commands it would issue.

`src/whoosh.js` has no eased acceleration, reference points,
rotation-aware coverage search, bitmap caching, drag or reset, so none of
it is modelled. Note that:

- the position is never clamped;
- rotation is accumulated but never applied to drawing;
- `drawImage` is issued for unloaded frames too;
- a negative position makes the drawing loop throw. This is modelled as the
  `TypeError` outcome of a tick. The position and rotation have already
  been updated when it throws.

Modules: `Optional` (the `Option` type), `Decimal`, `FrameNames`,
`ImageTable`, `DrawPlan` and `Whoosh` (options, player state, start/stop,
the tick).

## Model

| member | source | states |
|---|---|---|
| `Decimal.NatToString` | src/whoosh.js:53 | `i.toString()` of a non-negative integer is a non-empty digit string with no leading zero |
| `Decimal.IntToString` | src/whoosh.js:53 | `i.toString()` of a non-negative integer is a canonical digit string denoting `i`; of a negative integer, a minus sign followed by a canonical digit string denoting `-i`; every character is a digit or `-` |
| `Decimal.NatToStringValue` | src/whoosh.js:53 | reading back the text of `i` gives `i` |
| `Decimal.ValueToString` | src/whoosh.js:53 | formatting the value of a canonical digit string gives the same string, so text and number correspond one to one |
| `Decimal.LeadingZerosValue` | src/whoosh.js:53 | the `'0000'` prefix does not change the number the text denotes |
| `Decimal.SuffixValue` | src/whoosh.js:53 | the last `d` characters of a digit string denote its value modulo `10^d` |
| `FrameNames.Substr` | src/whoosh.js:53 | one-argument `substr` returns a suffix; a negative start `-d` gives the last `d` characters, or all of them when `d` exceeds the length; `-0` gives the whole string |
| `FrameNames.IndexOf` | src/whoosh.js:54 | finds the first position where the pattern occurs, and reports none exactly when it occurs nowhere |
| `FrameNames.ReplaceFirst` | src/whoosh.js:54 | with no occurrence the string comes back unchanged; otherwise the first occurrence is replaced, and the text before and after it is kept |
| `FrameNames.ReplaceFirstUndo` | src/whoosh.js:54 | putting the pattern back where the replacement landed restores the original string |
| `FrameNames.ReplaceFirstKeepsLater` | src/whoosh.js:54 | later occurrences of the placeholder survive the replacement, shifted by the change in length |
| `FrameNames.FrameNumber` | src/whoosh.js:53 | the padded number has exactly `digits` characters when `1 ≤ digits ≤ 4 + len(text)`. It is the text with leading zeros when the text is shorter. It is the text's last `digits` characters when the text is longer. With `digits` = 0 or more than `4 + len(text)` it is the whole `'0000' + text`. It holds only digits and `-` |
| `FrameNames.FrameNumberValue` | src/whoosh.js:53 | for `i ≥ 0` and `digits ≥ 1` the padded number denotes `i mod 10^digits`: `i` itself when it fits, its low-order digits when it does not |
| `FrameNames.FrameName` | src/whoosh.js:54 | the first `{frame_number}` of the base name is replaced by the padded number and the rest is kept; a base name without the placeholder is unchanged |
| `ImageTable.LoadImages` | src/whoosh.js:45-63 | builds `max(0, last − first + 1)` entries in ascending frame order; entry `k` is a new image of the file for frame `first + k`, not loaded |
| `ImageTable.RequestedDistinct` | src/whoosh.js:56-61 | the images `load_images` creates are pairwise distinct objects |
| `ImageTable.MarkLoaded` | src/whoosh.js:65-74 | flags the first entry holding the image. Length, every image and every other entry, later duplicates included, stay unchanged. It is a no-op when no entry matches |
| `ImageTable.LoadedImage` | src/whoosh.js:65-74 | the scan-and-break loop computes exactly `MarkLoaded` |
| `ImageTable.MarkLoadedIdempotent` | src/whoosh.js:65-74 | reporting the same image twice equals reporting it once |
| `ImageTable.MarkLoadedDistinct` | src/whoosh.js:65-74 | in a table of distinct images, reporting entry `k`'s image flags exactly entry `k` |
| `DrawPlan.FrameTop` | src/whoosh.js:138 | `frame_top` is the floor of the position: `top ≤ position < top + 1` |
| `DrawPlan.FramePartial` | src/whoosh.js:139 | `frame_partial` lies in `[0, 1)` and `frame_top + frame_partial = position` |
| `DrawPlan.PlanFrom` | src/whoosh.js:150-161 | the drawing loop draws entries `i .. min(end, length) − 1` in order, at scale `scale` halved once per frame, each rectangle centred on `(cx, cy)` and sized to its image times its scale |
| `DrawPlan.Plan` | src/whoosh.js:140-161 | at most 3 draws, of entries `top .. min(top + 3, length) − 1` in ascending order, none when `top ≥ length`; first at the base scale, centred, sized to image × scale |
| `DrawPlan.HalvedStep` | src/whoosh.js:160 | each further frame's scale is half the previous one's |
| `DrawPlan.PlanFromIgnoresLoaded` | src/whoosh.js:150-161 | the drawing loop does not look at the loaded flags |
| `DrawPlan.PlanIgnoresLoaded` | src/whoosh.js:150-161 | two tables with the same images draw the same whatever their loaded flags |
| `Whoosh.DefaultOptionsMeaning` | src/whoosh.js:9-18 | the default options (`DefaultOptions`) give ten frames, two-digit numbers, a tick every 50 ms (20 a second) advancing the zoom by 0.025 of a frame, and a non-zero cushion, so the cushioned branch is the one taken |
| `Whoosh.NewPlayer` | src/whoosh.js:22-43 | a new player is at rest, unpaused, with no timer, and holds the table `load_images` builds from its options, with distinct images |
| `Whoosh.Start` | src/whoosh.js:76-84 | afterwards a handle is present. A present handle is kept and nothing changes. Otherwise the new handle is installed. Nothing but the handle ever changes |
| `Whoosh.Stop` | src/whoosh.js:86-92 | afterwards no handle is present; with none present nothing changes; nothing but the handle ever changes |
| `Whoosh.StartStopIdempotent` | src/whoosh.js:76-92 | starting twice keeps the first handle; stopping twice is stopping once |
| `Whoosh.StartThenStop` | src/whoosh.js:76-92 | starting then stopping a stopped player gives the player back |
| `Whoosh.StepSpeeds` | src/whoosh.js:102-130 | both cushion branches take the speeds straight from the options; the player's own speed fields do not enter |
| `Whoosh.Step` | src/whoosh.js:99-135 | paused: the state is unchanged. Otherwise position += `speed × 0.05` and rotation += `rotate × 18`. Nothing else changes; the speed fields are never written |
| `Whoosh.Interval` | src/whoosh.js:94-161 | a paused tick changes nothing and draws nothing. An unpaused tick leaves `Step`'s state. The drawing loop itself throws exactly when the new position is negative. Otherwise it draws the plan for `floor(position)`, centred on the canvas, at base scale `pow2(frame_partial)` |
| `Whoosh.TickDraws` | src/whoosh.js:137-161 | an unpaused tick draws at most 3 frames, consecutive from `frame_top`, none past the table end. Each is centred on the canvas. The first is at `pow2(frame_partial)`, and each next one is at half the previous scale |
| `Whoosh.TickIgnoresCushionAndSpeedFields` | src/whoosh.js:102-135 | changing the cushion or the player's speed fields changes neither the draws nor whether the tick throws. The new state differs only in those fields |
| `Whoosh.TickIgnoresLoaded` | src/whoosh.js:150-161 | a tick does not read the loaded flags: for the same image sizes, tables that differ only in their flags draw the same |
| `Whoosh.RunAdvances` | src/whoosh.js:80-82 | `Run(p, n)` is the timer firing `n` times; `n` unpaused ticks advance position and rotation by `n` steps and change nothing else; paused ticks change nothing |
| `Whoosh.DefaultFrameName` | src/whoosh.js:10-13 | with the default options frame `i` is named `zoom` + its two-character number + `.jpg` |
| `Whoosh.DefaultFrameNumbers` | src/whoosh.js:11-13 | with two digits frame 1 is `01` and frame 10 is `10`, so the default files are `zoom01.jpg` to `zoom10.jpg` |

## Left out

- jQuery plugin registration, option merging and canvas markup (src/whoosh.js:165-187): DOM glue. `DefaultOptions` records the default option values only.
- `console.log` calls: no effect on state.
- `new Image()`, `image.src` and the `onload` wiring: an image is an `ImageRef` whose `serial` stands for object identity and whose `src` is the requested file name. An image finishing loading is a call of `LoadedImage` / `MarkLoaded`.
- `setInterval` / `clearInterval` and the `interval` option: only whether a handle is present is modelled. The handle `setInterval` would return is a parameter of `Start`, and the firing of the timer is modelled as repeated ticks (`Run`).
- Canvas drawing: a tick returns `Draw` commands instead of calling `drawImage`. The canvas size is a parameter, and so is each image's pixel size (`dims`), which the browser supplies. The browser reports 0×0 until an image is available, so a frame's `dims` changes when it loads, and an unloaded frame is drawn as a 0×0 rectangle at the canvas centre.
- Floating point: positions, rotations and scales are exact reals. `Math.pow(2.0, frame_partial)` is a parameter `pow2`, so no bit-exact JavaScript result is claimed.
- Option values are taken as integers where the source uses them as loop bounds or lengths (`first_frame`, `last_frame`, `digits`). Fractional values are not modelled.
- FrameNames.ReplaceFirst: requires the replacement to contain no `$`. JavaScript's `$&`, `` $` ``, `$'` and `$$` substitution patterns are not modelled. The only replacement the player uses, the frame number, is proved free of `$`.
- `is_paused` and `is_zooming_out`: the source never sets the first to true and never reads the second. Both are modelled as plain state fields, so the paused branch of a tick cannot be reached from `NewPlayer`.
- Whoosh.Interval: the canvas is assumed to accept every draw. In a browser, `drawImage` (src/whoosh.js:159) throws `InvalidStateError` for an image whose file failed to load, ending the tick after the earlier draws with position and rotation already updated; the model completes the tick with every draw.
- Decimal.NatToString: frame numbers are assumed to be below 10^21. JavaScript writes larger integers in exponent form (`"1e+21"`), which the model does not produce.
- Decimal.IntToString: frame numbers are assumed to be above −10^21, for the same reason (`"-1e+21"`).
- ImageTable.LoadImages: frame numbers are assumed to be below 2^53. Beyond that, `i++` on a double stops advancing and the source loop never ends, while the model's loop always terminates.
- The tick's drawing loop assigns the undeclared `i` (src/whoosh.js:150), so every tick also writes the global `window.i`. Global variables are not modelled.
- The player is constructed once, so `load_images` is modelled as building the table from scratch, not as replacing an earlier one.
