/**
 * The two tile kinds the bridge hands to Amethyst's tile map: the foreground
 * tile draws each cell's glyph in its foreground colour, the background tile
 * draws the solid block glyph in the cell's background colour. Both read the
 * console snapshot the bridge publishes.
 */
module ConsoleTiles {
  import opened Types
  import opened Grid
  import opened Atlas

  /** The glyph the background tile always draws (a solid block, code 254). */
  const SOLID_BLOCK: nat := 254

  /** The published copy of a simple console (`SimpleConsoleResource`):
      its character size (width, height) and its cells, row-major. */
  datatype ConsoleSnapshot = ConsoleSnapshot(size: (uint32, uint32), tiles: seq<Tile>)
  {
    function Width(): uint32 { size.0 }
    function Height(): uint32 { size.1 }

    /** The snapshot holds one cell per grid position and the grid fits the
        `u32` index arithmetic. */
    predicate WellFormed()
    {
      && 1 <= Height()
      && |tiles| == Width() * Height()
      && Width() * Height() <= U32_LIMIT
    }
  }

  /** The index of the cell a tile-map render point reads, as
      `SimpleConsoleTile::sprite` computes it, or the panic raised on the way
      there: first an overflowing `u32` operation, then an index past the end
      of the cell vector. */
  function CellIndex(snap: ConsoleSnapshot, pt: Point): (r: Result<nat>)
    ensures r.Ok? <==> FlipIndex(snap.Width(), snap.Height(), pt).Some?
                       && FlipIndex(snap.Width(), snap.Height(), pt).value < |snap.tiles|
    ensures r.Ok? ==> r.value == FlipIndex(snap.Width(), snap.Height(), pt).value
    ensures r.Ok? ==> r.value < |snap.tiles|
    ensures r.Panicked? ==>
              r.reason == if FlipIndex(snap.Width(), snap.Height(), pt).None?
                          then ArithmeticOverflow else IndexOutOfBounds
  {
    match FlipIndex(snap.Width(), snap.Height(), pt)
    case None => Panicked(ArithmeticOverflow)
    case Some(i) => if i < |snap.tiles| then Ok(i) else Panicked(IndexOutOfBounds)
  }

  /** `SimpleConsoleTile::sprite`: the sprite index drawn at `pt`. Whenever
      the lookup succeeds it names a sprite of the 256-sprite atlas. */
  function ForegroundSprite(snap: ConsoleSnapshot, pt: Point): (r: Result<Option<nat>>)
    ensures r.Ok? <==> CellIndex(snap, pt).Ok?
    ensures r.Panicked? ==> r.reason == CellIndex(snap, pt).reason
    ensures r.Ok? ==> r.value.Some? && r.value.value < SPRITE_COUNT
  {
    match CellIndex(snap, pt)
    case Panicked(why) => Panicked(why)
    case Ok(i) => Ok(Some(snap.tiles[i].glyph))
  }

  /** `SimpleConsoleTile::tint`: the colour the glyph at `pt` is drawn in,
      always fully opaque. */
  function ForegroundTint(snap: ConsoleSnapshot, pt: Point): (r: Result<Srgba>)
    ensures r.Ok? <==> CellIndex(snap, pt).Ok?
    ensures r.Panicked? ==> r.reason == CellIndex(snap, pt).reason
    ensures r.Ok? ==> r.value.alpha == 1.0
  {
    match CellIndex(snap, pt)
    case Panicked(why) => Panicked(why)
    case Ok(i) => Ok(Opaque(snap.tiles[i].fg))
  }

  /** `SimpleConsoleBackgroundTile::sprite`: the solid block, whatever the
      point; it never reads the snapshot, so it never panics. */
  function BackgroundSprite(pt: Point): (r: Option<nat>)
    ensures r.Some? && r.value < SPRITE_COUNT
    ensures r.value / 16 == 15 && r.value % 16 == 14
  {
    Some(SOLID_BLOCK)
  }

  /** `SimpleConsoleBackgroundTile::tint`: the background colour of the cell
      at `pt`, fully opaque. */
  function BackgroundTint(snap: ConsoleSnapshot, pt: Point): (r: Result<Srgba>)
    ensures r.Ok? <==> CellIndex(snap, pt).Ok?
    ensures r.Panicked? ==> r.reason == CellIndex(snap, pt).reason
    ensures r.Ok? ==> r.value.alpha == 1.0
  {
    match CellIndex(snap, pt)
    case Panicked(why) => Panicked(why)
    case Ok(i) => Ok(Opaque(snap.tiles[i].bg))
  }

  /** Console cell (x, y), stored at y * width + x with row 0 at the top, is
      the cell the tile map reads at render point (x, height - 1 - y). */
  lemma FlippedPointReadsCell(snap: ConsoleSnapshot, x: uint32, y: uint32)
    requires snap.WellFormed()
    requires InGrid(snap.Width(), snap.Height(), x, y)
    ensures y * snap.Width() + x < |snap.tiles|
    ensures CellIndex(snap, Point(x, snap.Height() - 1 - y)) == Ok(y * snap.Width() + x)
  {
    RenderPointOfCell(snap.Width(), snap.Height(), x, y);
    FlipIndexInBounds(snap.Width(), snap.Height(), Point(x, snap.Height() - 1 - y));
  }

  /** On a well-formed snapshot the foreground tile at the flipped render point
      of console cell (x, y) draws exactly that cell's glyph in that cell's
      foreground colour, and never panics. */
  lemma ForegroundReadsCell(snap: ConsoleSnapshot, x: uint32, y: uint32)
    requires snap.WellFormed()
    requires InGrid(snap.Width(), snap.Height(), x, y)
    ensures y * snap.Width() + x < |snap.tiles|
    ensures var cell := snap.tiles[y * snap.Width() + x];
            var pt := Point(x, snap.Height() - 1 - y);
            && ForegroundSprite(snap, pt) == Ok(Some(cell.glyph))
            && ForegroundTint(snap, pt) == Ok(Srgba(cell.fg.r, cell.fg.g, cell.fg.b, 1.0))
  {
    FlippedPointReadsCell(snap, x, y);
  }

  /** On a well-formed snapshot the background tile at the flipped render point
      of console cell (x, y) draws the solid block in that cell's background
      colour, and never panics. */
  lemma BackgroundReadsCell(snap: ConsoleSnapshot, x: uint32, y: uint32)
    requires snap.WellFormed()
    requires InGrid(snap.Width(), snap.Height(), x, y)
    ensures y * snap.Width() + x < |snap.tiles|
    ensures var cell := snap.tiles[y * snap.Width() + x];
            var pt := Point(x, snap.Height() - 1 - y);
            && BackgroundSprite(pt) == Some(SOLID_BLOCK)
            && BackgroundTint(snap, pt) == Ok(Srgba(cell.bg.r, cell.bg.g, cell.bg.b, 1.0))
  {
    FlippedPointReadsCell(snap, x, y);
  }

  /** The tile map only asks for points inside the grid; on a well-formed
      snapshot none of the three lookups panics for such a point. */
  lemma InGridLookupsSucceed(snap: ConsoleSnapshot, pt: Point)
    requires snap.WellFormed()
    requires InGrid(snap.Width(), snap.Height(), pt.x, pt.y)
    ensures ForegroundSprite(snap, pt).Ok?
    ensures ForegroundTint(snap, pt).Ok?
    ensures BackgroundTint(snap, pt).Ok?
  {
    FlipIndexInBounds(snap.Width(), snap.Height(), pt);
  }

  /** A grid with no rows has no valid render point: every lookup panics on
      the `height - 1` underflow before touching the cells. */
  lemma EmptyGridPanics(snap: ConsoleSnapshot, pt: Point)
    requires snap.Height() == 0
    ensures ForegroundSprite(snap, pt) == Panicked(ArithmeticOverflow)
    ensures ForegroundTint(snap, pt) == Panicked(ArithmeticOverflow)
    ensures BackgroundTint(snap, pt) == Panicked(ArithmeticOverflow)
  {
  }
}
