# RLTK on Amethyst: a verified model of the bridge

RLTK draws character-grid consoles (a glyph, a foreground colour and a
background colour per cell). Its Amethyst back-end does not draw anything
itself. Instead, the `RltkGemBridge` state hands one simple (dense) console to
Amethyst's tile map. It builds a 16 × 16 glyph atlas per font, runs the game's
tick every frame and publishes a copy of the console for the tile map to read.

This project models the pure logic of that bridge in Dafny:

- `types.dfy` (module `Types`): `u32`/`u8` ranges, `Option`, and a `Result`
  whose error side is the panic a Rust debug build raises (integer overflow,
  index out of bounds, a failed `assert!`). It also holds console cells and
  colours.
- `grid.dfy` (module `Grid`): the y-flipped row-major index
  `(height - 1 - y) * width + x` that the tile map uses to find a cell. It is
  computed with checked `u32` arithmetic. Its inverse `UnflipIndex` shows the
  mapping is a bijection onto `[0, width * height)`.
- `tiles.dfy` (module `ConsoleTiles`): `SimpleConsoleTile` and
  `SimpleConsoleBackgroundTile`, each with its `sprite` and `tint`, reading
  the published console snapshot.
- `atlas.dfy` (module `Atlas`): the sprite-layout loop of `initialize_fonts`,
  checked against a per-glyph reference layout. It also proves that the 256
  tiles partition the sheet. `Font::load` and `initialize_fonts` are here too.
- `session.dfy` (module `Session`): the `Rltk` session record, consoles,
  `init_raw`, and the snapshots `update` publishes.
- `bridge.dfy` (module `Bridge`): `update` as a pure `Step` with the game
  tick as a function parameter. This includes the 50 ms input rate limiter,
  "last key down wins", the quit check and publishing.
  `initialize_console_objects` is modelled with its one-console assertion,
  and `on_start` as the composition of font and console initialisation.

Input is an abstract snapshot: the keys that are down (in the order the
handler lists them), an optional integer mouse position, and the left
button. Frame time is whole milliseconds (`as_millis()`), so the limiter's
`key_delay` is a natural number. Because the time is truncated before it is
added, frames shorter than a millisecond (above 1000 frames per second) add
nothing to the limiter, and a run of them never polls input
(`Bridge.ZeroMsFramesNeverPoll`). The published resource is a plain list of
the snapshots inserted in one frame.

## Model

| member | source | states |
|---|---|---|
| Grid.FlipIndex | src/hal/amethyst_be/mod.rs:97-98 | The index lookup succeeds exactly when `height >= 1`, `y < height` and no `u32` step overflows. It then yields `(height - 1 - y) * width + x`. |
| Grid.FlipIndexInBounds | src/hal/amethyst_be/mod.rs:97-98 | For an in-grid point of a grid that fits `u32`, the lookup never overflows and the index is below `width * height`. |
| Grid.FlipIndexInjective | src/hal/amethyst_be/mod.rs:97-98 | Distinct in-grid render points get distinct indices. |
| Grid.FlipIndexOnto | src/hal/amethyst_be/mod.rs:97-98 | Every index in `[0, width * height)` is reached, by the point `UnflipIndex` gives. |
| Grid.FlipIndexRoundTrip | src/hal/amethyst_be/mod.rs:97-98 | Mapping an in-grid point to its index and back returns the point. |
| Grid.RenderPointOfCell | src/hal/amethyst_be/mod.rs:104-105 | Console cell (x, y), stored at `y * width + x`, is read at render point `(x, height - 1 - y)`: the row flip. |
| ConsoleTiles.CellIndex | src/hal/amethyst_be/mod.rs:96-99 | The shared lookup succeeds exactly when the flipped index exists and is inside the cell vector, and then it is that index. Otherwise it panics: with overflow when a `u32` step overflows, else with out-of-bounds. |
| ConsoleTiles.ForegroundSprite | src/hal/amethyst_be/mod.rs:95-100 | Fails exactly when the lookup does, with the same panic. On success it returns `Some` sprite index below 256, so always a sprite of the atlas. |
| ConsoleTiles.ForegroundTint | src/hal/amethyst_be/mod.rs:102-108 | Fails exactly when the lookup does. On success the colour has alpha 1.0. |
| ConsoleTiles.BackgroundSprite | src/hal/amethyst_be/mod.rs:115-117 | Ignores the point and never fails. It returns the solid block, an atlas sprite at column 14, row 15. |
| ConsoleTiles.BackgroundTint | src/hal/amethyst_be/mod.rs:119-125 | Fails exactly when the lookup does. On success the colour has alpha 1.0. |
| ConsoleTiles.FlippedPointReadsCell | src/hal/amethyst_be/mod.rs:120-123 | On a well-formed snapshot, the lookup at the flipped point of cell (x, y) gives `y * width + x`. |
| ConsoleTiles.ForegroundReadsCell | src/hal/amethyst_be/mod.rs:95-108 | On a well-formed snapshot, the foreground tile at the flipped point of cell (x, y) is that cell's glyph, in that cell's foreground at alpha 1.0. |
| ConsoleTiles.BackgroundReadsCell | src/hal/amethyst_be/mod.rs:114-126 | On a well-formed snapshot, the background tile at the flipped point of cell (x, y) is the solid block, in that cell's background at alpha 1.0. |
| ConsoleTiles.InGridLookupsSucceed | src/hal/amethyst_be/mod.rs:96-124 | No lookup panics for a point inside a well-formed grid. |
| ConsoleTiles.EmptyGridPanics | src/hal/amethyst_be/mod.rs:97 | A grid with height 0 panics on the `height - 1` underflow, for every tile lookup. |
| Atlas.BuildSprites | src/hal/amethyst_be/mod.rs:226-243 | The y-major double loop succeeds exactly when `16 * tile` fits `u32` (otherwise it panics with overflow). It then yields exactly the 256 sprites of the reference layout: sprite g has origin `((g % 16) * tw, (g / 16) * th)`, size `(tw, th)` and sheet size `(16 tw, 16 th)`. |
| Atlas.GlyphSpriteInsideSheet | src/hal/amethyst_be/mod.rs:230-236 | Every one of the 256 sprites lies entirely inside the `16 tw × 16 th` sheet. |
| Atlas.GlyphAtPixel | src/hal/amethyst_be/mod.rs:228-243 | Every pixel of the sheet is covered by the sprite of some glyph below 256. |
| Atlas.TilesDisjoint | src/hal/amethyst_be/mod.rs:228-243 | A pixel covered by glyph g's sprite is inside the sheet, and g is the only glyph covering it. So the tiles partition the sheet. |
| Atlas.LoadFont | src/hal/amethyst_be/mod.rs:45-51 | A freshly loaded font records the given file name and tile size, and has no sprite sheet yet. |
| Atlas.InitializeFonts | src/hal/amethyst_be/mod.rs:209-252 | Succeeds exactly when every font's sheet fits `u32`. Every font keeps its file and tile size and gets a sheet whose texture is its file and whose sprites are the full glyph atlas. |
| Session.InitRaw | src/hal/amethyst_be/mod.rs:63-89 | A fresh session records the window size and title, has no fonts or consoles, reports no input, and is not quitting. |
| Session.SimpleSnapshots | src/hal/amethyst_be/mod.rs:180-188 | One snapshot per simple console, and every simple console's snapshot is among them. |
| Session.SnapshotsComeFromSimpleConsoles | src/hal/amethyst_be/mod.rs:180-188 | Every published snapshot is the copy of some simple console; sparse consoles are never published. |
| Session.SnapshotsAreSimpleConsoles | src/hal/amethyst_be/mod.rs:180-188 | The same, for all published snapshots at once. |
| Session.SnapshotPosition | src/hal/amethyst_be/mod.rs:180-188 | The snapshots follow the console order: simple console j's snapshot sits at the position equal to the number of simple consoles before j. |
| Session.SnapshotsInConsoleOrder | src/hal/amethyst_be/mod.rs:180-188 | The same, for all simple consoles at once. |
| Bridge.NewBridge | src/hal/amethyst_be/mod.rs:338 | The bridge starts with the session as given and the limiter's `key_delay` at 0. |
| Bridge.LastKeyDown | src/hal/amethyst_be/mod.rs:159-161 | The key loop yields the last listed key, or leaves the field as it was when no key is down. |
| Bridge.PollInput | src/hal/amethyst_be/mod.rs:143-169 | Frame time is added to the limiter; a poll happens exactly when the sum exceeds 50, and only then the limiter resets to 0. `key_delay` ends at most 50. shift/control/alt are always cleared. `key` is the last key down, and only on a polled frame. `left_click` is set exactly on a polled frame with the button down. `mouse_pos` changes only on a polled frame that reports a position. Nothing else changes. |
| Bridge.Step | src/hal/amethyst_be/mod.rs:142-191 | The tick sees exactly the polled session and cannot touch the limiter. `update` returns Quit exactly when the ticked session is quitting, and then publishes nothing. Otherwise it publishes one snapshot per simple console, in console order: simple console j's snapshot is at the position equal to the number of simple consoles before j. Every published snapshot is the copy of a simple console. |
| Bridge.Run | src/hal/amethyst_be/mod.rs:142-191 | After any non-empty run of frames, `key_delay <= 50`. A run that ends in Quit ends in a quitting session. |
| Bridge.UnpolledTimeBounded | src/hal/amethyst_be/mod.rs:147-157 | Over frames that never poll, the accumulated delay plus their total time stays within 50 ms. |
| Bridge.PollsWithinFiftyOneFrames | src/hal/amethyst_be/mod.rs:147-157 | If every frame takes at least 1 ms, input is polled at least once in any 51 consecutive frames. |
| Bridge.ZeroMsFramesNeverPoll | src/hal/amethyst_be/mod.rs:145-157 | Frames whose time truncates to 0 ms never poll, however many there are, from any state that has not passed the limit. |
| Bridge.InitializeConsoleObjects | src/hal/amethyst_be/mod.rs:254-302 | Succeeds exactly when every simple console's font index is valid and at most one console qualifies (simple, with a font that has a sheet); non-qualifying consoles are skipped. On a panic it is out-of-bounds (some index is invalid) or the one-console assertion (at least two qualify). On success, a console is bridged exactly when one qualifies, and it is that console, with its size, tile size, sheet and snapshot. |
| Bridge.LoadedFontsCountSimpleConsoles | src/hal/amethyst_be/mod.rs:258-261 | Once every font has a sheet, the qualifying consoles are exactly the simple consoles. |
| Bridge.FreshFontsBridgeNothing | src/hal/amethyst_be/mod.rs:256-259 | While every font is as `Font::load` left it, no console qualifies, so nothing is bridged before `initialize_fonts` runs. |
| Bridge.OnStart | src/hal/amethyst_be/mod.rs:135-140 | Start-up succeeds exactly when all sheets fit `u32`, the font indices are valid and there is at most one simple console. Only the fonts change. The bridged console is present exactly when there is one simple console. It is what `initialize_console_objects` builds for that console with the loaded fonts: the console's size and snapshot, and its font's tile size and sheet, which is a full glyph atlas. |
| Bridge.DrawnGlyphSelectsAtlasTile | src/hal/amethyst_be/mod.rs:95-100 | The glyph drawn for cell (x, y) of a bridged console indexes the atlas at sprite `((g % 16) * tw, (g / 16) * th)`, which lies inside the sheet. |
| Bridge.BackgroundUsesSolidBlockTile | src/hal/amethyst_be/mod.rs:115-117 | The background sprite is the atlas tile at `(14 tw, 15 th)`. |
| Bridge.FirstFrameSeesDefaults | src/hal/amethyst_be/mod.rs:150-157 | On the first frame of a fresh session, when that frame does not poll (it takes at most 50 ms), the tick sees the defaults: no key, no click, no modifier, mouse at (0, 0), not quitting. |

## Left out

- `bracket-terminal/src/hal/native/init.rs` (the native OpenGL back-end) is not modelled. It is window, context, monitor and shader plumbing around library calls whose results are not visible.
- `main_loop` engine wiring, `make_camera`, entity creation and the asset loader calls are left out. They are engine calls with no logic of their own; only the initial `key_delay` of 0 is kept (`NewBridge`).
- Floating point is left out: `fps = 1 / delta_seconds`, camera and console transforms, and the half-tile sprite offsets. Colours are copied through as reals with no `f32` rounding, and the mouse position arrives already converted to integers (the saturating `f32 -> i32` cast is not modelled).
- The `fps` and `shaders` fields of the session are not represented. The shader list is always empty here, and `fps` is a float.
- `setup_gl_texture`, `bind_texture`, `SimpleConsoleBackend` and `SparseConsoleBackend` are left out; they are empty no-op stubs.
- `u32` overflow uses debug-build semantics: it panics. A release build would wrap instead; that is not modelled.
- The game's `tick` is an arbitrary function on the session. `SimpleConsole`, `Tile`, `RGB` and Amethyst's input handler are not part of this model; a cell is a `u8` glyph plus two colours.
- The engine's resource slot is not modelled. The snapshots one frame inserts are returned as a list; the slot would keep the last one.
- Session.SimpleSnapshots: its own contract states the count and the membership of the snapshots; their order and origin are proved by `SnapshotPosition` and `SnapshotsComeFromSimpleConsoles`.
- Bridge.Run: the game is one fixed `tick` function of the session for the whole run. A `GameState` that keeps its own state between frames is not modelled; `Step` takes any tick, so a single frame of such a game is covered.
- The bridge is described as supporting one dense console. The code enforces this only at start-up, and only among simple consoles whose font has a sheet. `update` publishes a snapshot for every simple console it finds. The model follows the code.
