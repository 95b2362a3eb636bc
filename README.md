# PicOfTheDay background and history, in Dafny

This project models two pieces of bookkeeping from the PicOfTheDay page.

**The animated background** is in `src/background.js`. `DynamicBackground` keeps two lists:

- `sprites` holds comets, the moon and the planets. Every 100 ms tick steps each of them and then wraps them at the canvas edges (`step`, `constrainSprites`).
- `stars` holds stars. Stars never move. `draw` only advances their animation frame.

The sprite classes `Sprite` and `AnimatedSprite` become one datatype, `Sprites.Sprite`, with a `Static` and an `Animated` variant. Methods that change a sprite in place become functions that return the changed sprite. `DynamicBackground` is a class, `Background.DynamicBackground`. Its methods replace entries of the `sprites` and `stars` lists inside loops, the way the source's `forEach` loops do. `initStars` and `initComets` append to the lists in counted loops.

Positions, velocities, sizes and the canvas extent are real numbers. The extent is `innerWidth / 4` and can be fractional. Each call to `Math.random()` is replaced by a parameter of type `Numbers.Unit`, a real in [0, 1). `Math.floor` becomes `.Floor`. JavaScript's truncating `%` is written out as `Numbers.JsRem`.

**The bounded history** is in `src/domManipulation.js`:

- `loadedData` is a JavaScript `Map`, so it iterates in insertion order. `OrderedMap.JsMap` models it as a key order plus a value map.
- The `.buttons` container is modelled as a list of children. Child 0 is a fixed element, `Gallery.Child.Pinned`. Every other child is a rocket button that remembers the id its click handler looks up.
- `updateMap` deletes the first key until 5 entries remain. It then removes child 1 until 6 children remain.
- `addImage` appends a button, sets the content under the current time (`Date.now()`, a parameter here), then calls `updateMap`.

The model proves these properties:

- **Net wrap.** The four shifts of `constrainSprites` are equivalent to a clean wrap by `extent + 2·size` on each axis. This holds for width > 0 and size ≥ 0, even though the first test on each axis compares with `extent - size`.
- **Band.** On a canvas with positive width and height, a tick keeps a moving sprite inside the band (−size, extent+size] when its speed on each axis is at most one band width (extent + 2·size). The comets satisfy both conditions from the moment they are created, so they stay in the band on every tick until the canvas is resized.
- **Animation.** The frame index stays in range, and `frame_count` steps return a sprite to its starting frame.
- **Stars.** `initStars` adds exactly one star per tile, in column order, each in its own tile.
- **Map and buttons.** Map entries and buttons are evicted oldest first. The buttons after the fixed child stay one-to-one with the map keys as long as ids are fresh. Two items loaded in the same millisecond break that correspondence.

The code's wrap test moves a coordinate of exactly `-size` to `extent + size`. A description of the rule as "outside [−size, extent+size]" would leave that coordinate alone. The model follows the code: `Background.Wrap` shifts every coordinate `<= -size`.

## Model

| member | source | states |
|---|---|---|
| Numbers.ScaledFloor | src/background.js:216 | `Math.floor(Math.random() * w)` gives a whole number k ≥ 0 with k < w, or k = 0 when w = 0 (mirrored for negative w). For a whole positive w this means 0 ≤ k < w. |
| Numbers.JsRem | src/background.js:74 | JavaScript `%` with a positive divisor. The result has the dividend's sign and is smaller than the divisor. It equals the dividend below the divisor and is 0 at the divisor. |
| Sprites.NewAnimatedSprite | src/background.js:57-62 | The `AnimatedSprite` constructor sets frame 0, `frame_count = frames.length`, size 1 and an empty image. The sprite is well formed exactly when there is at least one frame. |
| Sprites.GetImage | src/background.js:64-70 | A plain sprite shows its image. An animated sprite shows `frames[current_frame]`, which is defined exactly when the index is in range. A well-formed sprite always has an image. |
| Sprites.StepMotion | src/background.js:35-38 | The position becomes position + velocity on both axes. Nothing else changes. A sprite with velocity (0,0) is unchanged. |
| Sprites.StepAnimation | src/background.js:72-75 | Only the frame index changes. An in-range index advances by one and wraps from the last frame to 0. Well-formedness is preserved. |
| Sprites.Step | src/background.js:77-80 | `step` moves by the velocity. An animated sprite also advances one frame, and a plain sprite only moves. Velocity and size are kept. A still sprite does not move. Steppability and well-formedness are preserved. |
| Sprites.Animate | src/background.js:284-287 | Repeated `stepAnimation` calls, as successive draws make them, change nothing but the frame index. |
| Sprites.AnimateStaysInRange | src/background.js:72-75 | Any number of frame steps keeps the index in [0, frame_count), so `getImage` stays defined. |
| Sprites.AnimateWithinPeriod | src/background.js:72-75 | After k ≤ frame_count steps the index is start + k, wrapped once past the last frame. |
| Sprites.AnimationPeriod | src/background.js:72-75 | `frame_count` consecutive steps return an animated sprite to its starting state. |
| Background.ConstrainSprite | src/background.js:296-313 | A sprite with velocity exactly (0,0) is unchanged. Any other sprite is constrained on both axes, even when only one velocity component is non-zero. For width, height > 0 and size ≥ 0, each coordinate ≤ −size gains extent+2·size, each coordinate > extent+size loses it, and every other coordinate is unchanged. Only the position changes. |
| Background.WrapKeepsBand | src/background.js:300-311 | A coordinate in (−size, extent+size] that moves by at most one band width ends up back in the band after the wrap. |
| Background.TickKeepsBand | src/background.js:274-279 | A moving sprite in the band whose velocity is at most one band width per axis is still in the band after `step` and `constrainSprites`. |
| Background.NewComet | src/background.js:216 | A comet is a plain sprite of size 6 with velocity (−1, 1). Its coordinates are whole numbers drawn from [0, width) × [0, height). |
| Background.CometBatch | src/background.js:214-219 | `initComets(count)` creates exactly max(count, 0) comets. |
| Background.CometBatchAt | src/background.js:214-219 | The k-th comet created is the comet placed by the k-th pair of random draws. |
| Background.CometsAreStatic | src/background.js:214-219 | Every comet created is a plain sprite, so it can always be stepped. |
| Background.CometsStartInBand | src/background.js:214-219 | On a canvas with width, height ≥ 0, every comet created lies in the band and moves by at most one band width per tick. |
| Background.Tiles | src/background.js:229-230 | `Math.floor(extent / res)` counts the whole tiles: t tiles of side res fit into the extent and t + 1 do not. The count is non-negative for a non-negative extent. |
| Background.TileCoord | src/background.js:237-238 | `Math.floor(i·res + Math.random()·res)` lies in the tile [i·res, i·res+res). |
| Background.NewStar | src/background.js:235-247 | The star for tile (i, j) is animated and has velocity (0,0), size 1 and the given frames. It lies at whole coordinates inside its tile. When frames exist, its frame is in [0, frame_count). |
| Background.StarColumn | src/background.js:234-250 | The inner loop makes one star for each row from −1 to ⌊H/res⌋. |
| Background.StarGrid | src/background.js:233-251 | The stars of the nested loops, column by column. With columns −1 to n−1 and rows −1 to tilesY, the grid holds one star per tile: max(n+1, 0)·max(tilesY+2, 0) stars. |
| Background.StarCount | src/background.js:229-251 | On a canvas with W, H ≥ 0, `initStars` adds exactly (⌊W/res⌋+2)·(⌊H/res⌋+2) stars. |
| Background.StarGridPrefix | src/background.js:233-251 | The stars of the first columns are never disturbed by later columns: they form a prefix of the final list. |
| Background.StarColumnAt | src/background.js:234-250 | Row j of a column is the star of tile (i, j). |
| Background.StarGridAt | src/background.js:233-251 | The star of tile (i, j) is at position (i+1)·(⌊H/res⌋+2) + (j+1) of the appended stars. |
| Background.StarColumnStars | src/background.js:235-249 | With at least one frame, every star made is animated, still and has an in-range frame. |
| Background.DynamicBackground.constructor | src/background.js:186-190 | The background starts with no stars and the given extent. `sprites` holds exactly the comets `initComets(comet_count)` makes. For width, height ≥ 0, every moving sprite then lies in the band with a bounded speed, which is what `Step` needs to keep it there. |
| Background.DynamicBackground.SetSize | src/background.js:202-207 | Records the new width and height and changes nothing else. |
| Background.DynamicBackground.Resize | src/background.js:324-327 | Takes the new extent and empties `stars`. The sprites are kept. |
| Background.DynamicBackground.InitComets | src/background.js:214-219 | Appends the comets to `sprites` and keeps the sprites already there. For width, height ≥ 0, if the moving sprites were in the band with bounded speeds, they still are. |
| Background.DynamicBackground.InitStars | src/background.js:224-252 | Appends exactly the star grid to `stars` without clearing it. The grid is column by column, one star per tile. |
| Background.DynamicBackground.InitStarGrid | src/background.js:233-251 | The outer loop appends the columns −1 to ⌊W/res⌋ of the grid to `stars`, one after another. |
| Background.DynamicBackground.InitStarColumn | src/background.js:234-250 | Appends one column of the grid to `stars`. |
| Background.DynamicBackground.GetRandCometPos | src/background.js:259-272 | When the first draw exceeds width/(height+width), the point is on the right edge: x = ⌊width⌋ and y is drawn from [0, height). Otherwise it is on the top edge: y = 0 and x is drawn from [0, width). Both are stated for width + height > 0. For width = height = 0 the ratio is NaN, the comparison is false and the point is (0, 0). The body also follows JavaScript for a zero sum with width ≠ 0, where the ratio is +∞ or −∞ and the right edge is taken exactly when width < 0. The contract does not state that case. |
| Background.DynamicBackground.Step | src/background.js:274-279 | Every sprite is stepped and then wrapped. `stars` is untouched. Velocities bounded by one band width stay bounded. On a canvas with positive width and height, moving sprites that were in the band with bounded velocities still are. |
| Background.DynamicBackground.ConstrainSprites | src/background.js:296-313 | Applies the wrap to every entry of `sprites` and changes nothing else. |
| Background.DynamicBackground.Draw | src/background.js:284-287 | Every star advances one frame. No star moves, and `sprites` is untouched. |
| OrderedMap.Empty | src/domManipulation.js:15 | `new Map()` is a valid map with no entries. |
| OrderedMap.Get | src/domManipulation.js:110 | `get(k)` is defined exactly when k is a key. |
| OrderedMap.Set | src/domManipulation.js:107 | After `set(k, v)`, `get(k)` is v and every other key reads as before. An existing key keeps the size and the key order. A new key is appended last. |
| OrderedMap.Delete | src/domManipulation.js:64 | After `delete(k)`, k is absent and every other key reads as before. The map stays valid. |
| OrderedMap.DeleteOldest | src/domManipulation.js:64 | Deleting the first key of `keys()` drops the oldest entry and keeps the others in order. |
| Gallery.TrimmedData | src/domManipulation.js:63-65 | At most 5 entries remain. The survivors are the most recently inserted ones, in their original order, with their values. All other ids are gone. |
| Gallery.TrimmedChildren | src/domManipulation.js:66-68 | At most 6 children remain. Child 0 survives, and the rest are the last 5 of the original children. |
| Gallery.UpdateMapIdempotent | src/domManipulation.js:61-69 | With ≤ 5 entries and ≤ 6 children nothing changes, so a second `updateMap` is a no-op. |
| Gallery.TrimKeepsSync | src/domManipulation.js:63-68 | When buttons and keys correspond, trimming both removes the same oldest items and keeps the correspondence. |
| Gallery.ButtonsResolve | src/domManipulation.js:109-111 | When buttons and keys correspond, every shown button's click finds its content. |
| Gallery.AddKeepsSync | src/domManipulation.js:103-113 | Adding an item under a fresh id keeps the buttons after child 0 one-to-one with the keys, in order. |
| Gallery.NewestSurvives | src/domManipulation.js:103-113 | The entry just added survives the trim when its id is fresh or the map was within bounds. |
| Gallery.SameIdOverwrites | src/domManipulation.js:103-113 | A second item in the same millisecond, with at most 5 entries stored, overwrites the value in place and keeps the key order. Buttons and keys then no longer correspond. Below 5 entries the button list grows by one. At 5 entries the trim evicts the oldest button, child 1, while its key stays in the map. |
| Gallery.History.constructor | src/domManipulation.js:15 | The page starts with an empty map and only the fixed child, so buttons and keys correspond. |
| Gallery.History.UpdateMap | src/domManipulation.js:61-69 | The two eviction loops leave exactly the trimmed map and the trimmed children. |
| Gallery.History.AddImage | src/domManipulation.js:103-113 | The new state is the trimmed result of appending the button and setting the entry. The new id's lookup succeeds when the id is fresh or the map was within bounds. A fresh id keeps buttons and keys in correspondence. |
| Gallery.History.Lookup | src/domManipulation.js:110 | A button's `loadedData.get(id)` is defined exactly when its id is still a key. |

## Left out

- `AnimatedSprite.extractSprites` is left out. It slices a sprite sheet into frames asynchronously through canvas and bitmap calls in the browser. Frame sequences are parameters instead.
- The `DynamicBackground` constructor's DOM queries and image `load` listeners are left out. This includes the listeners that push the moon and the planets into `sprites` once their frames exist.
- The per-layer `resize` listeners that rerun `initStars` and the `setInterval` loop are left out. Only the state effects are modelled, as separate methods.
- The canvas side of `draw` (`clearRect`, `drawImage`) is left out, as are the `canvas.width` and `canvas.height` assignments in `setSize`. Only state is modelled.
- `setup` is left out apart from its resize handler, which is `Resize`. The rest of `setup` is event wiring.
- `Math.random()` and `Date.now()` are parameters. Each random draw is a real in [0, 1), and each time is an integer.
- IEEE floating point is not modelled; numbers are reals. NaN and ±Infinity appear only where `getRandCometPos` divides by a zero sum.
- Sprites are values. An in-place update of a sprite object is modelled by replacing its entry in the list. No two entries of the lists are the same object in the source, and the shared frame arrays are never changed.
- Sprites.StepAnimation: requires `frame_count > 0`. With no frames JavaScript computes a NaN frame index, which is not modelled. Every caller passes the output of `extractSprites`, which has 20 to 200 frames.
- Background.DynamicBackground.InitStars: requires at least one frame so that every star satisfies the class invariant. The star layers always pass 20 frames.
- Background.DynamicBackground.Resize: does not re-establish the band. After a resize the extent changes, and sprites placed for the old extent may lie outside the new band. The model proves the band for comets only from creation until the next resize.
- The band facts cover the comets only. The moon and the planets are pushed by image `load` listeners that are not modelled.
- Background.TickKeepsBand: proves only that the band is invariant. It does not prove that a sprite starting far outside the band eventually returns, because that depends on the speed being strictly below one band width.
- `showContent`, the HD/SD image `load` handlers and the DOM construction of a rocket button are left out as DOM and UI code. A button is reduced to its id and caption.
- `src/apiManipulation.js` is left out. It holds the fetch, URL construction and warning/info toggling, which are network and UI code.
- The unused `loadedImages` array is left out.
