# onebrief-hero: the rule-based core, modelled in Dafny

The onebrief-hero widget shows a 3D globe. Animated arcs run between military bases on it, rings pulse at the arcs' endpoints, and a field of small strokes in the background turns towards the mouse cursor. Most of the repository is glue over react-globe.gl, three.js, leva and the DOM. This project models the parts that are rules:

- **Colour conversions** (`ColorUtils`):
  - `hexToRgba` cuts three two-character slices out of the hex string, reads each with `parseInt(…, 16)`, and prints an `rgba(r, g, b, o)` string.
  - `hexToNumber` deletes the first `#` and reads the rest as base 16.
  - `parseInt` follows ECMAScript's rules on a string of characters: leading white space, a sign, an optional `0x` prefix, then the longest run of digits. If there are no digits the result is NaN. Strings are sequences of code points, not UTF-16 code units (see "## Left out").
- **The globe texture** (`Canvas`, `GlobeTexture`):
  - `Canvas.Context2D` stands for the browser's 2D context. It holds the drawing state and a log of every paint operation.
  - `GenerateGlobeTexture` draws these in order: the background, then the land (solid outlines or the dot grid sampled from a land mask), then the base markers.
  - The paint log it leaves is proved equal to a specification function, `TexturePaints`. The lemmas state what that log contains.
- **The ring scheduler** (`RingAnimation`):
  - `useRingAnimation` is a timer-driven state machine, modelled as a class over a logical clock.
  - Its state is the pending timeouts, the repeating interval, the hook's `activeTimeouts` set and the shown rings.
  - `Step` fires the earliest pending event.
- **The arc list** (`ArcAnimation`): every arc of the data, with the theme's arc colour attached.
- **The vector field** (`VectorField`):
  - the row-major grid of strokes;
  - the `while`-loop normalisation of a heading difference;
  - the 8 % turn per frame;
  - the every-third-frame publish;
  - the regeneration on resize;
  - the stroke colour.
- **Small state cells**:
  - the outline colour and thickness (`GlobeOutlineConfig`);
  - the theme and its toggle (`ThemeHook`);
  - the motion-enabled cell (`ReducedMotion`).

`Wrappers.Option` stands for an optional value. `Types` holds the shared `Theme` and `Arc` types of `src/types/index.ts`.

## Model

| member | source | states |
|---|---|---|
| ColorUtils.ParseIntHexOfDigits | src/utils/colorUtils.ts:9-11 | `parseInt(s, 16)` on a non-empty run of hex digits is the value of those digits |
| ColorUtils.PairChannel | src/utils/colorUtils.ts:9-11 | a two-digit slice `hex[i..i+2]` parses to the byte its two characters spell |
| ColorUtils.ChannelsOfHexColor | src/utils/colorUtils.ts:9-11 | for `#rrggbb` input: r, g and b are the bytes spelled by the pairs at indices 1–2, 3–4 and 5–6, each in [0, 255] |
| ColorUtils.HexToRgba | src/utils/colorUtils.ts:8-13 | the result is always an `rgba(…)` text, whatever the input, NaN channels included. What it reads back as is stated by `ParseRgbaOfHexToRgba` |
| ColorUtils.HexToRgbaReadsPositionsOneToSix | src/utils/colorUtils.ts:8-13 | two strings that agree at positions 1..6 give the same channels and the same `rgba` string, whatever the first character and the rest are |
| ColorUtils.TrailingAlphaIgnored | src/utils/colorUtils.ts:9-11 | a suffix after `#rrggbb`, such as an alpha pair, does not change `hexToRgba` |
| ColorUtils.ParseRgbaOfHexToRgba | src/utils/colorUtils.ts:8-13 | for `#rrggbb`: the output reads back as `rgba(` + the three decimal channels and the two-decimal opacity, joined by `", "` + `)`, returning exactly those channels and opacity |
| ColorUtils.ParseRgbaOfRgbaText | src/utils/colorUtils.ts:12 | the `rgba(...)` template with decimal channels and a two-decimal opacity reads back to its four numbers |
| ColorUtils.DecimalValueOfNatText | src/utils/colorUtils.ts:12 | the decimal text of a channel has exactly that channel's value |
| ColorUtils.ParseFixedTwoOfFixedTwo | src/utils/colorUtils.ts:12 | the two-decimal opacity text reads back to its hundredths |
| ColorUtils.RemoveFirst | src/utils/colorUtils.ts:19 | `replace("#", "")` deletes one character: for any position holding `#` with no `#` before it, the result is the input with that position cut out. A string without `#` is left as it is |
| ColorUtils.HexToNumber | src/utils/colorUtils.ts:18-20 | a string without `#` is read in base 16 as it is, and a leading `#` is skipped. `HexToNumberStripsFirstHash` and `HexToNumberOfHexColor` give the rest |
| ColorUtils.HexToNumberStripsFirstHash | src/utils/colorUtils.ts:19 | `hexToNumber` parses the input with its first `#`, and only that one, removed |
| ColorUtils.HexValueAppend | src/utils/colorUtils.ts:19 | reading digits `a` followed by `b` gives `a`'s value shifted by `\|b\|` hex places, plus `b`'s value |
| ColorUtils.HexToNumberOfHashDigits | src/utils/colorUtils.ts:19 | a `#` followed by hex digits reads as the number those digits spell in base 16 |
| ColorUtils.HexToNumberOfHexColor | src/utils/colorUtils.ts:9-19 | for `#rrggbb`, `hexToNumber` is `r*65536 + g*256 + b` with r, g and b the channels `hexToRgba` reads, and lies in [0, 0xFFFFFF] |
| ColorUtils.Slice | src/utils/colorUtils.ts:9-11 | `slice` with clamped bounds. It is the plain subsequence when the bounds are in range |
| ColorUtils.TrimStart | src/utils/colorUtils.ts:9 | the leading white space `parseInt` skips: all of the dropped prefix is white space, and the rest does not start with any |
| ColorUtils.HexDigitPrefix | src/utils/colorUtils.ts:9 | the longest prefix of hex digits: all digits, and the next character (if any) is not a digit |
| GlobeTexture.Project | src/utils/generateGlobeTexture.ts:44-48 | in-range longitude and latitude land inside [0,4096]×[0,2048] |
| GlobeTexture.ProjectCorners | src/utils/generateGlobeTexture.ts:44-48 | (-180, 90) ↦ (0, 0), (180, -90) ↦ (4096, 2048), (0, 0) ↦ (2048, 1024) |
| GlobeTexture.ProjectRoundTrip | src/utils/generateGlobeTexture.ts:44-48 | projecting and then unprojecting gives the position back, so the projection is injective |
| GlobeTexture.BackgroundRule | src/utils/generateGlobeTexture.ts:51-56 | the background is `dotBackground` exactly when dots are on and `dotBackground` is set; otherwise it is `ocean` |
| GlobeTexture.DotDefaults | src/utils/generateGlobeTexture.ts:99-102 | an absent or zero spacing becomes 20 and an absent or zero radius becomes 3; land dots use `dotColor` or else `land`; ocean dots always use `ocean` |
| GlobeTexture.DotStyleOf | src/utils/generateGlobeTexture.ts:99-102 | the spacing used by the dot loop is positive |
| GlobeTexture.CeilCount | src/utils/generateGlobeTexture.ts:104-105 | `i*s < n` exactly when `i < ceil(n/s)`, so each loop visits `ceil(n/s)` points |
| GlobeTexture.PixelIndexInBounds | src/utils/generateGlobeTexture.ts:107 | each grid point's four mask bytes lie within the 4096×2048×4 buffer |
| GlobeTexture.IsLandRule | src/utils/generateGlobeTexture.ts:107-108 | for a full mask, a point is land exactly when its red byte is greater than 128 |
| GlobeTexture.DotLayer | src/utils/generateGlobeTexture.ts:104-115 | the dot layer has `ceil(2048/s)*ceil(4096/s)` dots. Dot `r*cols+c` is a circle of the dot radius at (c·s, r·s), inside the texture, coloured land exactly when the mask says land, and `ocean` otherwise |
| GlobeTexture.GridDotsAt | src/utils/generateGlobeTexture.ts:104-115 | the dot loops visit every grid point once, in row-major order |
| GlobeTexture.DrawDots | src/utils/generateGlobeTexture.ts:104-115 | the nested loops append exactly the grid's dots to the paint log |
| GlobeTexture.RingPath | src/utils/generateGlobeTexture.ts:75-79 | a ring traces exactly one path command per coordinate |
| GlobeTexture.TraceShape | src/utils/generateGlobeTexture.ts:72-82 | a traced ring starts at its first projected point, runs through the other points in order, and closes |
| GlobeTexture.DrawRing | src/utils/generateGlobeTexture.ts:72-129 | one ring adds a fill (plus a stroke in solid mode) with the current pen; a missing or empty ring adds nothing |
| GlobeTexture.SkippedRings | src/utils/generateGlobeTexture.ts:72-129 | a missing or empty ring draws nothing, wherever it stands in the polygon |
| GlobeTexture.MultiPolygonAsPolygons | src/utils/generateGlobeTexture.ts:84-145 | a multi-polygon is drawn exactly as its polygons would be, one `Polygon` feature each |
| GlobeTexture.DrawFeatures | src/utils/generateGlobeTexture.ts:84-145 | geometry dispatch: Polygon rings are drawn directly, MultiPolygon rings per polygon, other types not at all |
| GlobeTexture.DrawFeature | src/utils/generateGlobeTexture.ts:136-145 | one feature adds exactly the paints of its rings: Polygon rings directly, MultiPolygon rings polygon by polygon, nothing for other geometry types |
| GlobeTexture.DrawMask | src/utils/generateGlobeTexture.ts:61-93 | a fresh mask canvas holding a black full-texture rectangle, then every ring of every feature filled with `#ffffff` and never stroked |
| GlobeTexture.DrawSolidLand | src/utils/generateGlobeTexture.ts:117-145 | solid mode sets the land and border colours and round joins, then fills and strokes every ring of every feature. A border width that is not positive leaves the width as it was |
| GlobeTexture.LandPen | src/utils/generateGlobeTexture.ts:131-134 | the solid-mode pen: land fill, border stroke, round joins, and always a positive width, which is `borderWidth` when that is positive and the default 1 otherwise |
| Canvas.Context2D.SetLineWidth | src/utils/generateGlobeTexture.ts:133 | the `lineWidth` setter takes a positive width and ignores zero and negative ones |
| GlobeTexture.PaintTracesAt | src/utils/generateGlobeTexture.ts:72-145 | both modes trace the same rings. The mask fills ring k at position k. Solid mode fills it at 2k and strokes it at 2k+1 with the land/border pen |
| GlobeTexture.BorderRule | src/utils/generateGlobeTexture.ts:153-157 | the marker border is on exactly when `baseBorderColor` is non-empty and `baseBorderWidth > 0` |
| GlobeTexture.MarkerAt | src/utils/generateGlobeTexture.ts:149-170 | every base gets a circle filled with `bases` at `baseMarkerRadius`. The border stroke comes just before the fill exactly when the border is on |
| GlobeTexture.DrawMarkers | src/utils/generateGlobeTexture.ts:149-170 | the base loop appends exactly the markers' paints, in base order |
| GlobeTexture.GenerateGlobeTexture | src/utils/generateGlobeTexture.ts:34-173 | null exactly when the main context, or in dot mode the mask context, is unavailable. Otherwise the paint log is the background, then the dots or outlines, then the markers, and the mask canvas holds black followed by every ring filled white |
| RingAnimation.SequenceScheduleAt | src/hooks/useRingAnimation.ts:64-88 | one sequence schedules 6 rings per arc. Ring i (0–2) at the start and at the end has delay `order*600 + i*200` and maxR `2 + i*0.5` |
| RingAnimation.MaxOrder | src/hooks/useRingAnimation.ts:94 | `Math.max` of the orders: at least every order, and equal to one of them |
| RingAnimation.CycleTime | src/hooks/useRingAnimation.ts:94-96 | the cycle time covers every arc's `order*600 + 3000 + 800` and equals that of the latest arc; with no arcs it is 0 |
| RingAnimation.RingsGoneBeforeNextCycle | src/hooks/useRingAnimation.ts:91-98 | every ring of an arc with order k is gone `k*600 + 1000` ms after the trigger, and that is at least 2800 ms before the next cycle starts |
| RingAnimation.WithoutSplice | src/hooks/useRingAnimation.ts:54 | the filter removes that one ring and leaves the others in order |
| RingAnimation.WithoutMembers | src/hooks/useRingAnimation.ts:54 | the filter keeps a ring exactly when it is not the removed ring |
| RingAnimation.RingScheduler.constructor | src/hooks/useRingAnimation.ts:17-98 | on mount, the first sequence is scheduled and the interval set to the cycle time. With motion disabled there are no timers and no rings |
| RingAnimation.RingScheduler.RunEffect | src/hooks/useRingAnimation.ts:20-98 | the effect: motion off clears the rings and creates no timer; motion on schedules one sequence and the interval |
| RingAnimation.RingScheduler.ScheduleRing | src/hooks/useRingAnimation.ts:35-62 | one new timeout for a spawn, due after the delay; its handle is added to `activeTimeouts` |
| RingAnimation.RingScheduler.ScheduleArc | src/hooks/useRingAnimation.ts:65-87 | one arc appends its six timeouts, three at the start and then three at the end, with consecutive handles. `Valid` is kept |
| RingAnimation.ArcStep | src/hooks/useRingAnimation.ts:64-88 | the arcs' timeouts, arc by arc, are the timeouts of the whole sequence so far |
| RingAnimation.RingScheduler.TriggerSequence | src/hooks/useRingAnimation.ts:64-88 | appends exactly the sequence's timeouts: six per arc with consecutive handles. `Valid` is kept |
| RingAnimation.RingScheduler.FireTimeout | src/hooks/useRingAnimation.ts:41-60 | a spawn appends a ring with speed 4 and period 0, schedules its removal 600 ms later and swaps the handles in `activeTimeouts`. A removal filters that ring out and deletes its handle |
| RingAnimation.RingScheduler.DropSpawn | src/hooks/useRingAnimation.ts:41-59 | the fired spawn timeout leaves the timer table together with its handle. A spawn has no ring to remove, so `Valid` is kept |
| RingAnimation.RingScheduler.ShowRing | src/hooks/useRingAnimation.ts:42-57 | appends a ring with a fresh id, speed 4 and period 0, and schedules its removal 600 ms later under a fresh handle |
| RingAnimation.RingScheduler.FireInterval | src/hooks/useRingAnimation.ts:98 | the interval re-triggers the sequence at its due time; the next tick is one period later |
| RingAnimation.RingScheduler.Step | src/hooks/useRingAnimation.ts:41-98 | fires an event exactly when one is pending. The clock moves to the least pending due time. When the first-due timeout is due no later than the interval tick, that timeout fires, with the exact new rings, timers and handles of a spawn or a removal. Otherwise the interval fires, appending a new sequence and moving the tick one period on. Nothing pending changes nothing. No step changes `motionEnabled` or mounting, and a step that fires nothing also keeps the interval |
| RingAnimation.RingScheduler.FireFirstTimeout | src/hooks/useRingAnimation.ts:41-60 | the timeout at `FirstDue` fires: the clock moves to its due time, which is no later than any pending event's, and the rings, timers and handles become exactly those of its spawn or removal |
| RingAnimation.RingScheduler.RunSteps | src/hooks/useRingAnimation.ts:100-109 | the event loop runs up to `n` events and never changes `motionEnabled` or mounting. Once the cleanup has run, no event fires: no ring appears, no timeout is pending, no interval runs and the clock stands still |
| RingAnimation.QuietAfterCleanup | src/hooks/useRingAnimation.ts:100-109 | after `motionEnabled` is switched off, or after unmounting, any number of event-loop steps leaves no ring shown, no timeout pending and no interval |
| RingAnimation.RingScheduler.Cleanup | src/hooks/useRingAnimation.ts:100-108 | every pending timeout and the interval are cancelled, `activeTimeouts` is cleared and the rings are emptied |
| RingAnimation.RingScheduler.ClearTimeout | src/hooks/useRingAnimation.ts:102 | `clearTimeout(h)` drops exactly the pending timeout with handle `h`, keeps handles distinct, and adds no timeout or removal target |
| RingAnimation.RingScheduler.SetMotionEnabled | src/hooks/useRingAnimation.ts:20-109 | a change of `motionEnabled` runs the cleanup, then the effect. Disabling leaves no timers and no rings. Re-enabling clears the rings, schedules exactly one new sequence from the current time and starts the interval one cycle on. No change keeps the timers, the rings and the interval. The clock never moves |
| RingAnimation.RingScheduler.Unmount | src/hooks/useRingAnimation.ts:100-108 | after teardown nothing is pending, so no spawn or removal can fire |
| RingAnimation.Earliest | src/hooks/useRingAnimation.ts:41-60 | the scan returns exactly `FirstDue` of the pending timeouts |
| RingAnimation.FirstDue | src/hooks/useRingAnimation.ts:41-60 | an index whose due time is no later than any pending timeout's, and earlier than the due time of every timeout before it, so timeouts due at once run in the order they were scheduled |
| ArcAnimation.ColorArcsAt | src/hooks/useArcAnimation.ts:20-23 | the map keeps length and order. Output i has arc i's seven fields and the colour |
| ArcAnimation.AllArcsRule | src/hooks/useArcAnimation.ts:16-24 | the hook's list has one arc per data arc, each unchanged apart from its colour. The colour is `hexToRgba(darkArcColor, 1.0)` for the dark theme and `hexToRgba(lightArcColor, 1.0)` otherwise |
| ArcAnimation.OneColour | src/hooks/useArcAnimation.ts:17-22 | all arcs get the same colour string |
| ArcAnimation.ArcColor | src/hooks/useArcAnimation.ts:17-19 | for a `#rrggbb` control of the current theme, the arc colour reads back as that colour's channels at opacity 1.00 |
| VectorField.CeilSpacing | src/components/VectorField.tsx:52-53 | `Math.ceil(n/40)`: the least q with `q*40 >= n` |
| VectorField.GridAt | src/components/VectorField.tsx:52-64 | the grid has `(ceil(W/40)+1)*(ceil(H/40)+1)` vectors; the one at index `r*cols + c` sits at (c*40 + 20, r*40 + 20) |
| VectorField.GenerateVectors | src/components/VectorField.tsx:51-66 | the nested loops build exactly that grid, with heading `random*360` |
| VectorField.NormaliseDiff | src/components/VectorField.tsx:109-112 | the two `while` loops give a result in [-180, 180] that differs from the input by whole turns and leaves an in-range input unchanged |
| VectorField.ShortestTurnSpec | src/components/VectorField.tsx:109-112 | the closed form of the loops satisfies the same range and congruence |
| VectorField.ShortestTurnMinimal | src/components/VectorField.tsx:109-112 | no heading congruent to the difference is a smaller turn |
| VectorField.HalfTurnBothWays | src/components/VectorField.tsx:111-112 | -540 becomes -180 and 540 becomes 180, so both ends of the range are reached |
| VectorField.TurnedStep | src/components/VectorField.tsx:114-115 | one frame turns a vector by at most 14.4°, in the direction of the shorter turn, and moves nothing else |
| VectorField.Animated | src/components/VectorField.tsx:103-116 | a frame keeps the number of vectors and every x and y |
| VectorField.TurnVector | src/components/VectorField.tsx:103-116 | one vector of the `map`: the same position, and its heading turned by 8% of the shortest turn towards the mouse |
| VectorField.FieldState.Animate | src/components/VectorField.tsx:98-121 | the frame counter goes up by one and every vector is turned. The vectors are published exactly when the new count is divisible by 3 |
| VectorField.OneInThree | src/components/VectorField.tsx:119 | exactly one of any three consecutive frames publishes |
| VectorField.FieldState.Resize | src/components/VectorField.tsx:74-78 | a resize replaces the whole list with a freshly generated grid and publishes it |
| VectorField.FieldState.MouseMove | src/components/VectorField.tsx:86-88 | the mouse position becomes the event's client coordinates; nothing else changes |
| VectorField.FieldState.constructor | src/components/VectorField.tsx:18-71 | the first grid is generated and published; frame count and mouse position start at 0 |
| VectorField.StrokeColorChannels | src/components/VectorField.tsx:130-136 | the stroke colour reads back as the theme's colour channels and the theme's opacity |
| GlobeOutlineConfig.OutlineFor | src/hooks/useGlobeOutlineConfig.ts:27-31 | the thickness is the dark thickness for the dark theme and the light thickness otherwise |
| GlobeOutlineConfig.SamePair | src/hooks/useGlobeOutlineConfig.ts:19-31 | colour and thickness come from the same theme's pair; the colour is `hexToNumber` of that theme's colour |
| GlobeOutlineConfig.OnlySelectedPairRead | src/hooks/useGlobeOutlineConfig.ts:15-33 | the result depends only on the theme and the selected theme's two controls |
| GlobeOutlineConfig.OutlineColorPacked | src/hooks/useGlobeOutlineConfig.ts:19-25 | for `#rrggbb`, the outline colour is the packed value `r*65536 + g*256 + b` |
| ThemeHook.Toggled | src/hooks/useTheme.ts:12-14 | a toggle always changes the theme: dark goes to light and light to dark |
| ThemeHook.ToggleTwice | src/hooks/useTheme.ts:13 | toggling twice returns to the original theme |
| ThemeHook.ThemeState.constructor | src/hooks/useTheme.ts:4-5 | the given initial theme, or dark when none is given |
| ThemeHook.ThemeState.ToggleTheme | src/hooks/useTheme.ts:12-14 | `toggleTheme` applies the toggle to the cell |
| ThemeHook.ThemeState.SetTheme | src/hooks/useTheme.ts:5-16 | the returned `setTheme` replaces the theme with the given one |
| ReducedMotion.PrefersReducedMotion | src/hooks/useReducedMotion.ts:5-8 | the OS preference, which is false when there is no `window` |
| ReducedMotion.InitialMotion | src/hooks/useReducedMotion.ts:11-15 | the caller's value when provided; otherwise the negated preference |
| ReducedMotion.Apply | src/hooks/useReducedMotion.ts:21-31 | a toggle negates the value; a preference change sets it to `!matches`; `setMotionEnabled` sets it |
| ReducedMotion.ToggleTwice | src/hooks/useReducedMotion.ts:29-31 | two toggles restore the value |
| ReducedMotion.PreferenceChangeIdempotent | src/hooks/useReducedMotion.ts:21-23 | a preference change ignores the prior value, so repeating it changes nothing |
| ReducedMotion.MotionState.Toggle | src/hooks/useReducedMotion.ts:29-31 | `toggleMotion` applies the toggle to the cell |
| ReducedMotion.MotionState.OnPreferenceChange | src/hooks/useReducedMotion.ts:21-23 | `handleChange` applies a preference change |
| ReducedMotion.MotionState.SetMotionEnabled | src/hooks/useReducedMotion.ts:11-33 | the returned `setMotionEnabled` sets the cell, as `Apply` of a set action |
| ReducedMotion.MotionState.constructor | src/hooks/useReducedMotion.ts:11-15 | the cell starts at `InitialMotion`: the caller's value when given, else the negation of the OS preference |

The two `while` loops of the vector field bring the heading difference into [-180°, 180°] and can stop at either end: a difference of -540 ends at -180 and one of 540 at 180. The model states that closed range (`VectorField.ShortestTurnSpec`, `VectorField.HalfTurnBothWays`).

## Left out

- Rasterisation and pixel reads: canvas `fill`, `stroke` and `arc` are recorded as paint operations, not pixels. The mask's `getImageData` bytes are a parameter. `lineWidth` follows the setter's rule (`Canvas.Context2D.SetLineWidth`), so a `borderWidth` of 0 outlines the land at the default width 1. `fillStyle`, `strokeStyle` and `lineJoin` are plain assignments, and colour strings are kept as given, so a colour the browser would ignore as invalid is recorded anyway.
- The JSON data (`custom.geo.json`, `bases.json`, `arcs.json`) are parameters: the features, bases and arcs.
- Canvas creation and `getContext` are booleans saying whether a context is available. `GlobeTexture.GenerateGlobeTexture` also returns the mask canvas so that what is drawn on it can be stated; the source returns only the main canvas.
- GlobeTexture.DotStyleOf: `dotSpacing` is a natural number. A fractional or negative spacing (which would never end the loop, or would step off the grid) is not modelled. A NaN `dotRadius` or `baseBorderWidth` (falsy in JavaScript) is not modelled either.
- GlobeTexture.GenerateGlobeTexture: `ctx.arc` with a negative radius throws an `IndexSizeError`, which `generateGlobeTexture` does not catch, so a negative `dotRadius` or `baseMarkerRadius` ends it with an exception and no canvas. `Canvas.Context2D.Arc` records the circle whatever its radius, so for such a configuration the model's paint log stands where the source throws.
- Floating point: coordinates, radii and angles are Dafny reals, not IEEE doubles. Integers above 2^53 lose no precision in the model.
- ColorUtils.Slice, ColorUtils.RemoveFirst, ColorUtils.ParseIntHex: strings are sequences of Unicode code points, while JavaScript's `slice`, `replace` and `parseInt` index UTF-16 code units. For text outside the Basic Multilingual Plane the positions differ. For example, `hexToRgba("\u{1F600}ff0000", 1)` reads a lone surrogate and an `f` as the red pair in JavaScript, giving NaN, where the model reads `ff` and gives 255.
- ColorUtils.HexToRgba: the opacity is given as integer hundredths, because `toFixed(2)` is float formatting. The rounding of opacities that are not multiples of 0.01 is not modelled.
- Timers: time is a logical clock and `setTimeout`/`setInterval` are an event queue. Among events due at the same time, `Step` fires timeouts before the interval and the earliest-listed timeout first; the engine's real tie-breaking and the 4 ms minimum delay are left out.
- RingAnimation.CycleTime: with no arcs, `Math.max()` is -Infinity and the interval's delay is clamped; the model uses a period of 0 for that case.
- Arc orders are natural numbers; fractional or negative orders are not modelled.
- `Math.random` and `Math.atan2` are parameters: the grid's random numbers, and a function from an offset to its heading in degrees.
- React rendering, `useMemo`, `useEffect` scheduling and `requestAnimationFrame` are left out. Each hook is a function or a class whose methods are the state transitions. The SVG the vector field renders is not modelled.
- DOM effects: the `data-theme` attribute write in `useTheme` and the `matchMedia` subscription plumbing in `useReducedMotion` are left out. The media query's `matches` is a parameter.
- The leva control definitions are not part of this model (`useGlobeControls`, the vector field's `useControls` defaults).
