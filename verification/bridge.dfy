/**
 * `RltkGemBridge`: the Amethyst state that owns the session and the game.
 * At start it cuts the font atlases and bridges the single simple console;
 * every frame it polls input (rate limited), ticks the game, and, unless the
 * game quits, publishes a snapshot of each simple console for the tile map.
 */
module Bridge {
  import opened Types
  import opened Atlas
  import opened ConsoleTiles
  import opened Session

  /** Frame time, in whole milliseconds, that must accumulate before the
      input handler is polled again. */
  const KEY_DELAY_MS: nat := 50

  /** The message of the single-console assertion. */
  const ONE_CONSOLE_MESSAGE: string := "Amethyst back-end only supports one simple console."

  /** What Amethyst's input handler reports for one frame: the keys that are
      down, in the order it lists them, the mouse position (already converted
      to integers) if the cursor is over the window, and the left button. */
  datatype InputSnapshot = InputSnapshot(
    keysDown: seq<KeyCode>,
    mousePosition: Option<(int, int)>,
    leftButtonDown: bool)

  /** One frame as the engine presents it: the time since the previous frame,
      in whole milliseconds, and the state of the input handler. */
  datatype Frame = Frame(deltaMs: nat, input: InputSnapshot)

  /** The bridge state: the session and the rate limiter's accumulated time.
      The game itself is the `tick` parameter of `Step`. */
  datatype GemBridge = GemBridge(rltk: Rltk, keyDelay: nat)

  /** Amethyst's state transition: keep running or quit. */
  datatype Trans = TransNone | TransQuit

  /** The outcome of one `update`: the new bridge state, the transition, and
      the console snapshots written to the world, in order. */
  datatype Update = Update(bridge: GemBridge, trans: Trans, published: seq<ConsoleSnapshot>)

  /** The bridge `main_loop` starts with: the rate limiter at zero. */
  function NewBridge(rltk: Rltk): (b: GemBridge)
    ensures b.rltk == rltk
    ensures b.keyDelay == 0
  {
    GemBridge(rltk, 0)
  }

  /** The loop over `keys_that_are_down`: each key overwrites the one before,
      so the last key listed wins and an empty list leaves `current` alone. */
  function LastKeyDown(keys: seq<KeyCode>, current: Option<KeyCode>): (r: Option<KeyCode>)
    ensures r == if |keys| == 0 then current else Some(keys[|keys| - 1])
    decreases |keys|
  {
    if |keys| == 0 then current else LastKeyDown(keys[1..], Some(keys[0]))
  }

  /** The rate limiter lets this frame poll the input handler. */
  predicate Polls(b: GemBridge, frame: Frame)
  {
    b.keyDelay + frame.deltaMs > KEY_DELAY_MS
  }

  /** The part of `update` before the tick: record the frame time, add it to
      the limiter, clear the input fields, and, when the limiter allows it,
      read the input handler and reset the limiter. */
  function PollInput(b: GemBridge, frame: Frame): (r: GemBridge)
    ensures r.keyDelay <= KEY_DELAY_MS
    ensures Polls(b, frame) ==> r.keyDelay == 0
    ensures !Polls(b, frame) ==> r.keyDelay == b.keyDelay + frame.deltaMs
    ensures r.rltk.frameTimeMs == frame.deltaMs
    ensures !r.rltk.shift && !r.rltk.control && !r.rltk.alt
    ensures r.rltk.key ==
              if Polls(b, frame) && |frame.input.keysDown| > 0
              then Some(frame.input.keysDown[|frame.input.keysDown| - 1])
              else None
    ensures r.rltk.leftClick <==> Polls(b, frame) && frame.input.leftButtonDown
    ensures r.rltk.mousePos ==
              if Polls(b, frame) && frame.input.mousePosition.Some?
              then frame.input.mousePosition.value
              else b.rltk.mousePos
    ensures r.rltk.(frameTimeMs := b.rltk.frameTimeMs, key := b.rltk.key,
                    mousePos := b.rltk.mousePos, leftClick := b.rltk.leftClick,
                    shift := b.rltk.shift, control := b.rltk.control, alt := b.rltk.alt)
            == b.rltk
  {
    var delay := b.keyDelay + frame.deltaMs;
    var cleared := b.rltk.(frameTimeMs := frame.deltaMs, leftClick := false, key := None,
                           shift := false, control := false, alt := false);
    if delay > KEY_DELAY_MS then
      var input := frame.input;
      var keyed := cleared.(key := LastKeyDown(input.keysDown, cleared.key));
      var moved := if input.mousePosition.Some? then keyed.(mousePos := input.mousePosition.value) else keyed;
      var clicked := if input.leftButtonDown then moved.(leftClick := true) else moved;
      GemBridge(clicked, 0)
    else
      GemBridge(cleared, delay)
  }

  /** `update`: poll input, run the game's tick on the session, then quit if
      the tick asked to, or publish every simple console and carry on. */
  function Step(b: GemBridge, frame: Frame, tick: Rltk -> Rltk): (r: Update)
    ensures r.bridge.rltk == tick(PollInput(b, frame).rltk)
    ensures r.bridge.keyDelay == PollInput(b, frame).keyDelay
    ensures r.bridge.keyDelay <= KEY_DELAY_MS
    ensures r.trans == TransQuit <==> r.bridge.rltk.quitting
    ensures r.trans == TransQuit ==> r.published == []
    ensures r.trans == TransNone ==> |r.published| == SimpleCount(r.bridge.rltk.consoles)
    ensures r.trans == TransNone ==>
              forall j :: 0 <= j < |r.bridge.rltk.consoles|
                          && r.bridge.rltk.consoles[j].console.SimpleConsole? ==>
                && SimpleCount(r.bridge.rltk.consoles[..j]) < |r.published|
                && r.published[SimpleCount(r.bridge.rltk.consoles[..j])]
                   == r.bridge.rltk.consoles[j].console.Snapshot()
    ensures r.trans == TransNone ==>
              forall k :: 0 <= k < |r.published| ==> FromSimpleConsole(r.bridge.rltk.consoles, r.published[k])
  {
    var polled := PollInput(b, frame);
    var ticked := tick(polled.rltk);
    var next := GemBridge(ticked, polled.keyDelay);
    if ticked.quitting then Update(next, TransQuit, [])
    else
      SnapshotsInConsoleOrder(ticked.consoles);
      SnapshotsAreSimpleConsoles(ticked.consoles);
      Update(next, TransNone, SimpleSnapshots(ticked.consoles))
  }

  /** Runs `update` over a sequence of frames, stopping at the first frame
      whose tick quits. Returns the last state and the last transition. */
  function Run(b: GemBridge, frames: seq<Frame>, tick: Rltk -> Rltk): (r: (GemBridge, Trans))
    ensures 0 < |frames| ==> r.0.keyDelay <= KEY_DELAY_MS
    ensures |frames| == 0 ==> r.0 == b
    ensures r.1 == TransQuit ==> r.0.rltk.quitting
    decreases |frames|
  {
    if |frames| == 0 then (b, TransNone)
    else
      var u := Step(b, frames[0], tick);
      if u.trans == TransQuit then (u.bridge, TransQuit)
      else Run(u.bridge, frames[1..], tick)
  }

  /** Total frame time of a sequence of frames. */
  function TotalMs(frames: seq<Frame>): nat
    decreases |frames|
  {
    if |frames| == 0 then 0 else frames[0].deltaMs + TotalMs(frames[1..])
  }

  /** None of `frames`, played in order from `b`, polls the input handler. */
  ghost predicate NeverPolls(b: GemBridge, frames: seq<Frame>, tick: Rltk -> Rltk)
    decreases |frames|
  {
    |frames| == 0
    || (!Polls(b, frames[0]) && NeverPolls(Step(b, frames[0], tick).bridge, frames[1..], tick))
  }

  /** Input is never starved: over any run of frames that does not poll, the
      time already accumulated plus the frames' time stays within 50 ms. */
  lemma {:induction false} UnpolledTimeBounded(b: GemBridge, frames: seq<Frame>, tick: Rltk -> Rltk)
    requires b.keyDelay <= KEY_DELAY_MS
    requires NeverPolls(b, frames, tick)
    ensures b.keyDelay + TotalMs(frames) <= KEY_DELAY_MS
    decreases |frames|
  {
    if |frames| > 0 {
      var next := Step(b, frames[0], tick).bridge;
      assert next.keyDelay == b.keyDelay + frames[0].deltaMs;
      UnpolledTimeBounded(next, frames[1..], tick);
    }
  }

  /** Every frame takes at least one millisecond. */
  predicate FramesTakeTime(frames: seq<Frame>)
  {
    forall i :: 0 <= i < |frames| ==> 1 <= frames[i].deltaMs
  }

  lemma {:induction false} TotalMsAtLeastCount(frames: seq<Frame>)
    requires FramesTakeTime(frames)
    ensures |frames| <= TotalMs(frames)
    decreases |frames|
  {
    if |frames| > 0 {
      assert FramesTakeTime(frames[1..]) by {
        forall i | 0 <= i < |frames[1..]| ensures 1 <= frames[1..][i].deltaMs {
          assert frames[1..][i] == frames[i + 1];
        }
      }
      TotalMsAtLeastCount(frames[1..]);
    }
  }

  /** When every frame takes at least a millisecond, some frame among any 51
      consecutive frames polls the input handler. */
  lemma PollsWithinFiftyOneFrames(b: GemBridge, frames: seq<Frame>, tick: Rltk -> Rltk)
    requires b.keyDelay <= KEY_DELAY_MS
    requires FramesTakeTime(frames)
    requires KEY_DELAY_MS < |frames|
    ensures !NeverPolls(b, frames, tick)
  {
    TotalMsAtLeastCount(frames);
    if NeverPolls(b, frames, tick) {
      UnpolledTimeBounded(b, frames, tick);
      assert false;
    }
  }

  /** Frame time is truncated to whole milliseconds, so frames shorter than
      one millisecond add nothing to the limiter: from a state that has not
      yet passed the limit, a run of such frames never polls, however long. */
  lemma {:induction false} ZeroMsFramesNeverPoll(b: GemBridge, frames: seq<Frame>, tick: Rltk -> Rltk)
    requires b.keyDelay <= KEY_DELAY_MS
    requires forall i :: 0 <= i < |frames| ==> frames[i].deltaMs == 0
    ensures NeverPolls(b, frames, tick)
    decreases |frames|
  {
    if |frames| > 0 {
      var next := Step(b, frames[0], tick).bridge;
      assert next.keyDelay == b.keyDelay;
      assert forall i :: 0 <= i < |frames[1..]| ==> frames[1..][i] == frames[i + 1];
      ZeroMsFramesNeverPoll(next, frames[1..], tick);
    }
  }

  /** A console the bridge hands to the tile map: a simple console whose font
      index names a font that already has a sprite sheet. */
  predicate Qualifies(c: DisplayConsole, fonts: seq<Font>)
  {
    c.console.SimpleConsole? && c.fontIndex < |fonts| && fonts[c.fontIndex].sheet.Some?
  }

  /** Number of consoles that qualify for bridging. */
  function QualifyingCount(consoles: seq<DisplayConsole>, fonts: seq<Font>): nat
  {
    if |consoles| == 0 then 0
    else QualifyingCount(consoles[..|consoles| - 1], fonts)
         + (if Qualifies(consoles[|consoles| - 1], fonts) then 1 else 0)
  }

  /** Every simple console names an existing font; `initialize_console_objects`
      indexes the font list for simple consoles only. */
  predicate FontIndicesValid(consoles: seq<DisplayConsole>, fonts: seq<Font>)
  {
    forall j :: 0 <= j < |consoles| && consoles[j].console.SimpleConsole? ==> consoles[j].fontIndex < |fonts|
  }

  /** The tile map built for a bridged console: its grid size in cells, its
      tile size in pixels, the sheet it draws from, and the snapshot it reads. */
  datatype BridgedConsole = BridgedConsole(
    mapSize: (uint32, uint32),
    tileSize: (uint32, uint32),
    sheet: SpriteSheet,
    snapshot: ConsoleSnapshot)

  function BridgeOf(c: DisplayConsole, fonts: seq<Font>): BridgedConsole
    requires Qualifies(c, fonts)
  {
    var font := fonts[c.fontIndex];
    BridgedConsole(c.console.CharSize(), font.tileSize, font.sheet.value, c.console.Snapshot())
  }

  lemma {:induction false} QualifyingCountPrefix(consoles: seq<DisplayConsole>, fonts: seq<Font>, n: nat)
    requires n <= |consoles|
    ensures QualifyingCount(consoles[..n], fonts) <= QualifyingCount(consoles, fonts)
    decreases |consoles|
  {
    if n < |consoles| {
      var init := consoles[..|consoles| - 1];
      assert init[..n] == consoles[..n];
      QualifyingCountPrefix(init, fonts, n);
    } else {
      assert consoles[..n] == consoles;
    }
  }

  /** `initialize_console_objects`: walk the consoles in order, skip those
      that are not simple or whose font has no sheet, and bridge the one that
      remains; a second qualifying console fails the assertion. */
  method InitializeConsoleObjects(consoles: seq<DisplayConsole>, fonts: seq<Font>)
    returns (r: Result<Option<BridgedConsole>>)
    ensures r.Ok? <==> FontIndicesValid(consoles, fonts) && QualifyingCount(consoles, fonts) <= 1
    ensures r.Panicked? ==>
              r.reason == IndexOutOfBounds || r.reason == AssertionFailed(ONE_CONSOLE_MESSAGE)
    ensures r == Panicked(IndexOutOfBounds) ==> !FontIndicesValid(consoles, fonts)
    ensures r == Panicked(AssertionFailed(ONE_CONSOLE_MESSAGE)) ==> 2 <= QualifyingCount(consoles, fonts)
    ensures r.Ok? ==> (r.value.Some? <==> QualifyingCount(consoles, fonts) == 1)
    ensures r.Ok? && r.value.Some? ==>
              exists j :: 0 <= j < |consoles| && Qualifies(consoles[j], fonts)
                          && r.value.value == BridgeOf(consoles[j], fonts)
  {
    var count := 0;
    var bridged: Option<BridgedConsole> := None;
    var i := 0;
    while i < |consoles|
      invariant 0 <= i <= |consoles|
      invariant count == QualifyingCount(consoles[..i], fonts) && count <= 1
      invariant FontIndicesValid(consoles[..i], fonts)
      invariant bridged.Some? <==> count == 1
      invariant bridged.Some? ==>
                  exists j :: 0 <= j < i && Qualifies(consoles[j], fonts)
                              && bridged.value == BridgeOf(consoles[j], fonts)
    {
      var cons := consoles[i];
      assert consoles[..i + 1][..i] == consoles[..i];
      assert consoles[..i + 1][i] == cons;
      if cons.console.SimpleConsole? {
        if |fonts| <= cons.fontIndex {
          return Panicked(IndexOutOfBounds);
        }
        if fonts[cons.fontIndex].sheet.Some? {
          if count != 0 {
            QualifyingCountPrefix(consoles, fonts, i + 1);
            return Panicked(AssertionFailed(ONE_CONSOLE_MESSAGE));
          }
          count := count + 1;
          bridged := Some(BridgeOf(cons, fonts));
        }
      }
      i := i + 1;
    }
    assert consoles[..i] == consoles;
    return Ok(bridged);
  }

  /** Once every font has a sheet, a console qualifies exactly when it is a
      simple console. */
  lemma {:induction false} LoadedFontsCountSimpleConsoles(consoles: seq<DisplayConsole>, fonts: seq<Font>)
    requires forall i :: 0 <= i < |fonts| ==> fonts[i].sheet.Some?
    requires FontIndicesValid(consoles, fonts)
    ensures QualifyingCount(consoles, fonts) == SimpleCount(consoles)
    decreases |consoles|
  {
    if |consoles| > 0 {
      var init := consoles[..|consoles| - 1];
      assert forall j :: 0 <= j < |init| ==> init[j] == consoles[j];
      LoadedFontsCountSimpleConsoles(init, fonts);
    }
  }

  /** While every font is as `Font::load` left it, with no sprite sheet, no
      console qualifies, so nothing could be bridged before
      `initialize_fonts` has run. */
  lemma {:induction false} FreshFontsBridgeNothing(consoles: seq<DisplayConsole>, fonts: seq<Font>)
    requires forall i :: 0 <= i < |fonts| ==> fonts[i] == LoadFont(fonts[i].filename, fonts[i].tileSize)
    ensures QualifyingCount(consoles, fonts) == 0
    decreases |consoles|
  {
    if |consoles| > 0 {
      var last := consoles[|consoles| - 1];
      if last.fontIndex < |fonts| {
        assert fonts[last.fontIndex].sheet.None?;
      }
      FreshFontsBridgeNothing(consoles[..|consoles| - 1], fonts);
    }
  }

  /** `on_start` (camera aside): cut every font's atlas, then bridge the
      consoles. It succeeds exactly when every sheet fits a `u32`, every
      simple console names an existing font, and there is at most one simple
      console; the bridged console, if any, draws from a full glyph atlas. */
  method OnStart(b: GemBridge) returns (r: Result<(GemBridge, Option<BridgedConsole>)>)
    ensures r.Ok? <==>
              && (forall i :: 0 <= i < |b.rltk.fonts| ==> SheetFits(b.rltk.fonts[i].tileSize))
              && FontIndicesValid(b.rltk.consoles, b.rltk.fonts)
              && SimpleCount(b.rltk.consoles) <= 1
    ensures r.Ok? ==> r.value.0 == b.(rltk := b.rltk.(fonts := r.value.0.rltk.fonts))
    ensures r.Ok? ==> |r.value.0.rltk.fonts| == |b.rltk.fonts|
    ensures r.Ok? ==> forall i :: 0 <= i < |b.rltk.fonts| ==> HasGlyphSheet(b.rltk.fonts[i], r.value.0.rltk.fonts[i])
    ensures r.Ok? ==> (r.value.1.Some? <==> SimpleCount(b.rltk.consoles) == 1)
    ensures r.Ok? && r.value.1.Some? ==>
              exists j :: 0 <= j < |b.rltk.consoles| && b.rltk.consoles[j].console.SimpleConsole?
                          && Qualifies(b.rltk.consoles[j], r.value.0.rltk.fonts)
                          && r.value.1.value == BridgeOf(b.rltk.consoles[j], r.value.0.rltk.fonts)
                          && r.value.1.value.snapshot == b.rltk.consoles[j].console.Snapshot()
                          && IsGlyphAtlas(r.value.1.value.tileSize.0, r.value.1.value.tileSize.1,
                                          r.value.1.value.sheet.sprites)
  {
    var fonts := InitializeFonts(b.rltk.fonts);
    if fonts.Panicked? {
      return Panicked(fonts.reason);
    }
    var loaded := fonts.value;
    assert forall i :: 0 <= i < |loaded| ==> loaded[i].sheet.Some?;
    var consoles := b.rltk.consoles;
    assert FontIndicesValid(consoles, loaded) <==> FontIndicesValid(consoles, b.rltk.fonts);
    if FontIndicesValid(consoles, loaded) {
      LoadedFontsCountSimpleConsoles(consoles, loaded);
    }
    var bridged := InitializeConsoleObjects(consoles, loaded);
    if bridged.Panicked? {
      return Panicked(bridged.reason);
    }
    var started := b.(rltk := b.rltk.(fonts := loaded));
    if bridged.value.Some? {
      var j :| 0 <= j < |consoles| && Qualifies(consoles[j], loaded)
               && bridged.value.value == BridgeOf(consoles[j], loaded);
      assert HasGlyphSheet(b.rltk.fonts[consoles[j].fontIndex], loaded[consoles[j].fontIndex]);
    }
    return Ok((started, bridged.value));
  }

  /** The glyph the foreground tile draws for console cell (x, y) of a bridged
      console selects, in the console's atlas, the sprite at column g % 16 and
      row g / 16 of the sheet, and that sprite lies inside the sheet. */
  lemma DrawnGlyphSelectsAtlasTile(c: BridgedConsole, x: uint32, y: uint32)
    requires IsGlyphAtlas(c.tileSize.0, c.tileSize.1, c.sheet.sprites)
    requires c.snapshot.WellFormed()
    requires Grid.InGrid(c.snapshot.Width(), c.snapshot.Height(), x, y)
    ensures var pt := Grid.Point(x, c.snapshot.Height() - 1 - y);
            && ForegroundSprite(c.snapshot, pt).Ok?
            && var g := ForegroundSprite(c.snapshot, pt).value.value;
            && g < |c.sheet.sprites|
            && c.sheet.sprites[g].left == (g % TILES_PER_SIDE) * c.tileSize.0
            && c.sheet.sprites[g].top == (g / TILES_PER_SIDE) * c.tileSize.1
            && c.sheet.sprites[g].left + c.sheet.sprites[g].width <= c.sheet.sprites[g].sheetWidth
            && c.sheet.sprites[g].top + c.sheet.sprites[g].height <= c.sheet.sprites[g].sheetHeight
  {
    var pt := Grid.Point(x, c.snapshot.Height() - 1 - y);
    ForegroundReadsCell(c.snapshot, x, y);
    var g := ForegroundSprite(c.snapshot, pt).value.value;
    GlyphSpriteInsideSheet(c.tileSize.0, c.tileSize.1, g);
  }

  /** The background tile's solid block is the sprite at column 14, row 15 of
      every atlas. */
  lemma BackgroundUsesSolidBlockTile(tileSize: (uint32, uint32), sprites: seq<Sprite>, pt: Grid.Point)
    requires IsGlyphAtlas(tileSize.0, tileSize.1, sprites)
    ensures BackgroundSprite(pt).value < |sprites|
    ensures sprites[BackgroundSprite(pt).value].left == 14 * tileSize.0
    ensures sprites[BackgroundSprite(pt).value].top == 15 * tileSize.1
  {
  }

  /** Before the limiter first lets input through, the game's tick sees a
      fresh session's defaults: no key, no click, no modifier, the mouse at
      the origin. */
  lemma FirstFrameSeesDefaults(widthPixels: uint32, heightPixels: uint32, title: string, frame: Frame)
    requires frame.deltaMs <= KEY_DELAY_MS
    ensures var seen := PollInput(NewBridge(InitRaw(widthPixels, heightPixels, title)), frame).rltk;
            InputCleared(seen) && seen.mousePos == (0, 0) && !seen.quitting
  {
  }
}
