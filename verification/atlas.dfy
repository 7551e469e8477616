/**
 * Glyph atlases. A font image holds 256 glyphs as a 16 × 16 grid of equal
 * tiles; `initialize_fonts` cuts it into 256 sprites, row by row, so that
 * glyph code g is the tile in column g % 16 and row g / 16.
 */
module Atlas {
  import opened Types

  /** Glyph tiles per row and per column of an atlas. */
  const TILES_PER_SIDE: nat := 16

  /** Sprites in an atlas, one per glyph code. */
  const SPRITE_COUNT: nat := 256

  /** An Amethyst sprite cut from a sheet by pixel values: the sheet's size,
      the sprite's size and its top-left corner in the sheet. The render
      offsets (half a tile, as floats) and the two flip flags (always off)
      are not modelled. */
  datatype Sprite = Sprite(
    sheetWidth: nat, sheetHeight: nat,
    width: nat, height: nat,
    left: nat, top: nat)

  /** The sprite of glyph `g` in an atlas of `tileWidth` × `tileHeight` tiles. */
  function GlyphSprite(tileWidth: nat, tileHeight: nat, g: nat): Sprite
  {
    Sprite(TILES_PER_SIDE * tileWidth, TILES_PER_SIDE * tileHeight,
           tileWidth, tileHeight,
           (g % TILES_PER_SIDE) * tileWidth, (g / TILES_PER_SIDE) * tileHeight)
  }

  /** `sprites` is the full atlas for the given tile size, in glyph order. */
  ghost predicate IsGlyphAtlas(tileWidth: nat, tileHeight: nat, sprites: seq<Sprite>)
  {
    && |sprites| == SPRITE_COUNT
    && forall g :: 0 <= g < |sprites| ==> sprites[g] == GlyphSprite(tileWidth, tileHeight, g)
  }

  /** The sheet size `tile * 16` fits a `u32`; otherwise the first
      `Sprite::from_pixel_values` call of `initialize_fonts` overflows and a
      debug build panics. */
  predicate SheetFits(tileSize: (uint32, uint32))
  {
    TILES_PER_SIDE * tileSize.0 < U32_LIMIT && TILES_PER_SIDE * tileSize.1 < U32_LIMIT
  }

  lemma SplitGlyph(row: nat, column: nat)
    requires column < TILES_PER_SIDE
    ensures (row * TILES_PER_SIDE + column) % TILES_PER_SIDE == column
    ensures (row * TILES_PER_SIDE + column) / TILES_PER_SIDE == row
  {
  }

  /** The sprite-layout loop of `initialize_fonts`: for each row y and, inside
      it, each column x, push the tile at (x * width, y * height). */
  method BuildSprites(tileSize: (uint32, uint32)) returns (r: Result<seq<Sprite>>)
    ensures r.Ok? <==> SheetFits(tileSize)
    ensures r.Panicked? ==> r.reason == ArithmeticOverflow
    ensures r.Ok? ==> IsGlyphAtlas(tileSize.0, tileSize.1, r.value)
  {
    var (tileWidth, tileHeight) := tileSize;
    if !SheetFits(tileSize) {
      return Panicked(ArithmeticOverflow);
    }
    var sprites: seq<Sprite> := [];
    var y := 0;
    while y < TILES_PER_SIDE
      invariant 0 <= y <= TILES_PER_SIDE
      invariant |sprites| == y * TILES_PER_SIDE
      invariant forall g :: 0 <= g < |sprites| ==> sprites[g] == GlyphSprite(tileWidth, tileHeight, g)
    {
      var x := 0;
      while x < TILES_PER_SIDE
        invariant 0 <= x <= TILES_PER_SIDE
        invariant |sprites| == y * TILES_PER_SIDE + x
        invariant forall g :: 0 <= g < |sprites| ==> sprites[g] == GlyphSprite(tileWidth, tileHeight, g)
      {
        SplitGlyph(y, x);
        sprites := sprites + [Sprite(tileWidth * TILES_PER_SIDE, tileHeight * TILES_PER_SIDE,
                                     tileWidth, tileHeight,
                                     x * tileWidth, y * tileHeight)];
        x := x + 1;
      }
      y := y + 1;
    }
    return Ok(sprites);
  }

  /** Every sprite lies entirely inside its sheet. */
  lemma {:induction false} GlyphSpriteInsideSheet(tileWidth: nat, tileHeight: nat, g: nat)
    requires g < SPRITE_COUNT
    ensures var s := GlyphSprite(tileWidth, tileHeight, g);
            && s.left + s.width <= s.sheetWidth
            && s.top + s.height <= s.sheetHeight
  {
    TileFits(g % TILES_PER_SIDE, tileWidth);
    TileFits(g / TILES_PER_SIDE, tileHeight);
  }

  lemma TileFits(index: nat, size: nat)
    requires index < TILES_PER_SIDE
    ensures index * size + size <= TILES_PER_SIDE * size
  {
    assert index * size + size == (index + 1) * size;
  }

  /** Pixel (px, py) of a sprite's rectangle. */
  predicate Covers(s: Sprite, px: nat, py: nat)
  {
    s.left <= px < s.left + s.width && s.top <= py < s.top + s.height
  }

  /** The glyph whose tile holds pixel (px, py) of the sheet. */
  function GlyphAtPixel(tileWidth: nat, tileHeight: nat, px: nat, py: nat): (g: nat)
    requires 1 <= tileWidth && 1 <= tileHeight
    requires px < TILES_PER_SIDE * tileWidth && py < TILES_PER_SIDE * tileHeight
    ensures g < SPRITE_COUNT
    ensures Covers(GlyphSprite(tileWidth, tileHeight, g), px, py)
  {
    var column := px / tileWidth;
    var row := py / tileHeight;
    TileOf(px, tileWidth);
    TileOf(py, tileHeight);
    SplitGlyph(row, column);
    row * TILES_PER_SIDE + column
  }

  /** The tile index of a coordinate along one axis, and the span it lies in. */
  lemma TileOf(p: nat, size: nat)
    requires 1 <= size && p < TILES_PER_SIDE * size
    ensures p / size < TILES_PER_SIDE
    ensures (p / size) * size <= p < (p / size) * size + size
  {
    var q := p / size;
    assert q * size + p % size == p;
    if TILES_PER_SIDE <= q {
      MulMonotonic(TILES_PER_SIDE, q, size);
      assert false;
    }
  }

  /** A pixel inside the tile span of index i has tile index i. */
  lemma SpanIndex(p: nat, size: nat, i: nat)
    requires 1 <= size && i * size <= p < i * size + size
    ensures p / size == i
  {
    var q := p / size;
    assert q * size + p % size == p;
    if q < i {
      MulMonotonic(q + 1, i, size);
      assert false;
    } else if q > i {
      MulMonotonic(i + 1, q, size);
      assert false;
    }
  }

  /** Tiles of distinct glyphs do not overlap: a pixel of the sheet belongs to
      exactly one glyph, the one `GlyphAtPixel` names. */
  lemma {:induction false} TilesDisjoint(tileWidth: nat, tileHeight: nat, g: nat, px: nat, py: nat)
    requires 1 <= tileWidth && 1 <= tileHeight && g < SPRITE_COUNT
    requires Covers(GlyphSprite(tileWidth, tileHeight, g), px, py)
    ensures px < TILES_PER_SIDE * tileWidth && py < TILES_PER_SIDE * tileHeight
    ensures g == GlyphAtPixel(tileWidth, tileHeight, px, py)
  {
    GlyphSpriteInsideSheet(tileWidth, tileHeight, g);
    SpanIndex(px, tileWidth, g % TILES_PER_SIDE);
    SpanIndex(py, tileHeight, g / TILES_PER_SIDE);
  }

  /** A font: its tile size in pixels, its image file, and the sprite sheet
      cut from that image once the back-end has loaded it. */
  datatype Font = Font(tileSize: (uint32, uint32), filename: string, sheet: Option<SpriteSheet>)

  /** A sprite sheet: the texture it is cut from (named by its file) and
      its sprites. */
  datatype SpriteSheet = SpriteSheet(texture: string, sprites: seq<Sprite>)

  /** `Font::load`: a font that records its file and tile size; it has no
      sprite sheet until `initialize_fonts` runs. */
  function LoadFont(filename: string, tileSize: (uint32, uint32)): (f: Font)
    ensures f.tileSize == tileSize && f.filename == filename
    ensures f.sheet.None?
  {
    Font(tileSize, filename, None)
  }

  /** `f` after `initialize_fonts`: the same file and tile size, with the glyph
      atlas of that tile size cut from that file. */
  ghost predicate HasGlyphSheet(f: Font, loaded: Font)
  {
    && loaded.tileSize == f.tileSize
    && loaded.filename == f.filename
    && loaded.sheet.Some?
    && loaded.sheet.value.texture == f.filename
    && IsGlyphAtlas(f.tileSize.0, f.tileSize.1, loaded.sheet.value.sprites)
  }

  /** `initialize_fonts`: cut a glyph atlas for every font, in order. The
      first font whose sheet size overflows a `u32` panics. */
  method InitializeFonts(fonts: seq<Font>) returns (r: Result<seq<Font>>)
    ensures r.Ok? <==> forall i :: 0 <= i < |fonts| ==> SheetFits(fonts[i].tileSize)
    ensures r.Panicked? ==> r.reason == ArithmeticOverflow
    ensures r.Ok? ==> |r.value| == |fonts|
    ensures r.Ok? ==> forall i :: 0 <= i < |fonts| ==> HasGlyphSheet(fonts[i], r.value[i])
  {
    var loaded: seq<Font> := [];
    var i := 0;
    while i < |fonts|
      invariant 0 <= i <= |fonts|
      invariant |loaded| == i
      invariant forall j :: 0 <= j < i ==> SheetFits(fonts[j].tileSize)
      invariant forall j :: 0 <= j < i ==> HasGlyphSheet(fonts[j], loaded[j])
    {
      var font := fonts[i];
      var sprites := BuildSprites(font.tileSize);
      if sprites.Panicked? {
        return Panicked(sprites.reason);
      }
      loaded := loaded + [font.(sheet := Some(SpriteSheet(font.filename, sprites.value)))];
      i := i + 1;
    }
    return Ok(loaded);
  }
}
