/**
 * The `DynamicBackground` simulation: a list of moving sprites that is stepped
 * and wrapped at the canvas edges every tick, and a separate list of stars that
 * never move and only change frame when the background is drawn.  The canvas,
 * the DOM queries and the image listeners are not modelled; the draws of
 * `Math.random()` are parameters.
 */
module Background {
  import opened Numbers
  import opened Sprites

  // ---------------------------------------------------------------------------
  // Wrapping at the canvas edges
  // ---------------------------------------------------------------------------

  /** The band a moving coordinate is kept in: (-size, extent + size]. */
  predicate InBand(p: real, extent: real, size: real) {
    -size < p <= extent + size
  }

  /**
   * The clean wrap rule: a coordinate at or beyond the low edge of the band
   * reappears at the high edge and the other way round, by one band width.
   */
  function Wrap(p: real, extent: real, size: real): real {
    if p <= -size then p + (extent + size * 2.0)
    else if p > extent + size then p - (extent + size * 2.0)
    else p
  }

  /**
   * One sprite of `constrainSprites`: four conditional shifts, in the order the
   * code applies them.  The first test on each axis compares with
   * `extent - size`, not `-size`; the second undoes the shift for the
   * coordinates strictly inside the band, so the net effect is the clean wrap.
   */
  function ConstrainSprite(s: Sprite, width: real, height: real): (r: Sprite)
    ensures r.(pos := s.pos) == s
    ensures IsStill(s) ==> r == s
    ensures !IsStill(s) && width > 0.0 && height > 0.0 && s.size >= 0.0 ==>
      r.pos == Vec2(Wrap(s.pos.x, width, s.size), Wrap(s.pos.y, height, s.size))
  {
    if IsStill(s) then s
    else
      var x1 := if s.pos.x < width - s.size then s.pos.x + (width + s.size * 2.0) else s.pos.x;
      var y1 := if s.pos.y < height - s.size then s.pos.y + (height + s.size * 2.0) else s.pos.y;
      var x2 := if x1 > width + s.size then x1 - (width + s.size * 2.0) else x1;
      var y2 := if y1 > height + s.size then y1 - (height + s.size * 2.0) else y1;
      s.(pos := Vec2(x2, y2))
  }

  /** A moving sprite inside the band on both axes. */
  predicate SpriteInBand(s: Sprite, width: real, height: real) {
    s.size >= 0.0 && InBand(s.pos.x, width, s.size) && InBand(s.pos.y, height, s.size)
  }

  /** A velocity no larger, on either axis, than one band width. */
  predicate SpeedBounded(s: Sprite, width: real, height: real) {
    -(width + s.size * 2.0) <= s.vel.x <= width + s.size * 2.0 &&
    -(height + s.size * 2.0) <= s.vel.y <= height + s.size * 2.0
  }

  /** One wrap brings a coordinate that left the band by at most one band width back into it. */
  lemma WrapKeepsBand(p: real, v: real, extent: real, size: real)
    requires extent > 0.0 && size >= 0.0 && InBand(p, extent, size)
    requires -(extent + size * 2.0) <= v <= extent + size * 2.0
    ensures InBand(Wrap(p + v, extent, size), extent, size)
  {
  }

  /** A tick keeps a moving sprite with a bounded velocity inside the band. */
  lemma TickKeepsBand(s: Sprite, width: real, height: real)
    requires width > 0.0 && height > 0.0 && Steppable(s) && !IsStill(s)
    requires SpriteInBand(s, width, height) && SpeedBounded(s, width, height)
    ensures SpriteInBand(ConstrainSprite(Sprites.Step(s), width, height), width, height)
  {
    WrapKeepsBand(s.pos.x, s.vel.x, width, s.size);
    WrapKeepsBand(s.pos.y, s.vel.y, height, s.size);
  }

  /** Every moving sprite of `ss` is inside the band. */
  ghost predicate MovingInBand(ss: seq<Sprite>, width: real, height: real) {
    forall i :: 0 <= i < |ss| && !IsStill(ss[i]) ==> SpriteInBand(ss[i], width, height)
  }

  /** Every moving sprite of `ss` has a velocity of at most one band width. */
  ghost predicate SpeedsBounded(ss: seq<Sprite>, width: real, height: real) {
    forall i :: 0 <= i < |ss| && !IsStill(ss[i]) ==> SpeedBounded(ss[i], width, height)
  }

  // ---------------------------------------------------------------------------
  // Sprite creation
  // ---------------------------------------------------------------------------

  /** The two draws of `Math.random()` that place a comet. */
  datatype CometDraw = CometDraw(x: Unit, y: Unit)

  /** The three draws of `Math.random()` made for one star: its offsets in the tile and its frame. */
  datatype StarDraw = StarDraw(x: Unit, y: Unit, frame: Unit)

  /** A comet of `initComets`: a plain sprite somewhere on the canvas, moving down and left. */
  function NewComet(d: CometDraw, width: real, height: real, image: Image): (s: Sprite)
    ensures s.Static? && s.image == image && s.size == 6.0
    ensures s.vel == Vec2(-1.0, 1.0) && !IsStill(s)
    ensures IsScaledDrawReal(s.pos.x, width) && IsScaledDrawReal(s.pos.y, height)
  {
    Static(Vec2(ScaledFloor(d.x, width) as real, ScaledFloor(d.y, height) as real),
           Vec2(-1.0, 1.0), image, 6.0)
  }

  /** The comets `initComets(count)` pushes, in order. */
  function CometBatch(count: int, draws: int -> CometDraw, width: real, height: real, image: Image): (b: seq<Sprite>)
    ensures |b| == if count < 0 then 0 else count
    decreases count
  {
    if count <= 0 then []
    else CometBatch(count - 1, draws, width, height, image) + [NewComet(draws(count - 1), width, height, image)]
  }

  /** The k-th comet of the batch is placed by the k-th pair of draws. */
  lemma {:induction false} CometBatchAt(count: int, draws: int -> CometDraw, width: real, height: real, image: Image)
    ensures forall k :: 0 <= k < |CometBatch(count, draws, width, height, image)| ==>
      CometBatch(count, draws, width, height, image)[k] == NewComet(draws(k), width, height, image)
  {
    if count > 0 {
      CometBatchAt(count - 1, draws, width, height, image);
    }
  }

  /** Every comet is a plain sprite, so a batch of them can always be stepped. */
  lemma CometsAreStatic(count: int, draws: int -> CometDraw, width: real, height: real, image: Image)
    ensures forall s :: s in CometBatch(count, draws, width, height, image) ==> s.Static? && Steppable(s)
  {
    CometBatchAt(count, draws, width, height, image);
  }

  /**
   * Comets start inside the band with a speed of at most one band width: they
   * are placed on the canvas and move by one pixel per axis per tick.
   */
  lemma CometsStartInBand(count: int, draws: int -> CometDraw, width: real, height: real, image: Image)
    requires width >= 0.0 && height >= 0.0
    ensures MovingInBand(CometBatch(count, draws, width, height, image), width, height)
    ensures SpeedsBounded(CometBatch(count, draws, width, height, image), width, height)
  {
    CometBatchAt(count, draws, width, height, image);
  }

  /** Appending keeps both band facts when each part has them. */
  lemma BandFactsAppend(a: seq<Sprite>, b: seq<Sprite>, width: real, height: real)
    requires MovingInBand(a, width, height) && SpeedsBounded(a, width, height)
    requires MovingInBand(b, width, height) && SpeedsBounded(b, width, height)
    ensures MovingInBand(a + b, width, height) && SpeedsBounded(a + b, width, height)
  {
    forall i | 0 <= i < |a + b| && !IsStill((a + b)[i])
      ensures SpriteInBand((a + b)[i], width, height) && SpeedBounded((a + b)[i], width, height)
    {
      if i >= |a| {
        assert (a + b)[i] == b[i - |a|];
      }
    }
  }

  /** The number of whole tiles of side `res` across `extent`, as `Math.floor(extent / res)`. */
  function Tiles(extent: real, res: int): (t: int)
    requires res > 0
    ensures (t as real) * (res as real) <= extent < (t as real + 1.0) * (res as real)
    ensures extent >= 0.0 ==> t >= 0
  {
    FloorOfQuotient(extent, res as real);
    (extent / res as real).Floor
  }

  /** Whole tiles of side `r` fit `Math.floor(x / r)` times into `x`, and one more does not fit. */
  lemma FloorOfQuotient(x: real, r: real)
    requires r > 0.0
    ensures ((x / r).Floor as real) * r <= x
    ensures x < ((x / r).Floor as real + 1.0) * r
  {
    var q := x / r;
    var t := q.Floor;
    assert q * r == x;
    assert t as real <= q < (t + 1) as real;
    ScaleOrder(t as real, q, r);
    ScaleOrder(q, (t + 1) as real, r);
    assert (t as real) * r <= q * r == x;
    assert x == q * r < ((t + 1) as real) * r;
    assert (t + 1) as real == t as real + 1.0;
  }

  /** Multiplying by a positive factor keeps the order. */
  lemma ScaleOrder(a: real, b: real, r: real)
    requires r > 0.0
    ensures a <= b ==> a * r <= b * r
    ensures a < b ==> a * r < b * r
  {
  }

  /** `Math.floor(origin + Math.random() * res)`: a whole coordinate in the tile starting at `origin`. */
  function TileCoord(origin: int, res: int, u: Unit): (c: int)
    requires res > 0
    ensures origin <= c < origin + res
  {
    FloorShift(origin, u * res as real);
    assert 0 <= ScaledFloor(u, res as real) < res;
    ((origin as real) + u * res as real).Floor
  }

  /**
   * The star `initStars` makes for tile (i, j): an `AnimatedSprite` that does
   * not move, placed in the tile and shown from a random frame.
   */
  function NewStar(i: int, j: int, res: int, frames: seq<Image>, d: StarDraw): (s: Sprite)
    requires res > 0
    ensures s.Animated? && IsStill(s) && s.size == 1.0 && s.image == EmptyImage
    ensures s.frames == frames && s.frameCount == |frames|
    ensures (i * res) as real <= s.pos.x < (i * res + res) as real && s.pos.x == s.pos.x.Floor as real
    ensures (j * res) as real <= s.pos.y < (j * res + res) as real && s.pos.y == s.pos.y.Floor as real
    ensures |frames| > 0 ==> WellFormed(s)
  {
    var star := NewAnimatedSprite(
      Vec2(TileCoord(i * res, res, d.x) as real, TileCoord(j * res, res, d.y) as real),
      Vec2(0.0, 0.0),
      frames);
    star.(current := ScaledFloor(d.frame, star.frameCount as real))
  }

  /** The stars the inner loop of `initStars` pushes for column `i`, rows -1 up to `m - 1`. */
  function StarColumn(i: int, m: int, res: int, frames: seq<Image>, draws: (int, int) -> StarDraw): (c: seq<Sprite>)
    requires res > 0
    ensures |c| == if m < 0 then 0 else m + 1
    decreases m + 1
  {
    if m <= -1 then []
    else StarColumn(i, m - 1, res, frames, draws) + [NewStar(i, m - 1, res, frames, draws(i, m - 1))]
  }

  /**
   * The stars `initStars` pushes for columns -1 up to `n - 1`, each with rows
   * -1 up to `tilesY`: one star per tile of that grid.
   */
  function StarGrid(n: int, tilesY: int, res: int, frames: seq<Image>, draws: (int, int) -> StarDraw): (g: seq<Sprite>)
    requires res > 0
    ensures |g| == Clamp(n + 1) * Clamp(tilesY + 2)
    decreases n + 1
  {
    if n <= -1 then []
    else
      MulSucc(Clamp(n), Clamp(tilesY + 2));
      StarGrid(n - 1, tilesY, res, frames, draws) + StarColumn(n - 1, tilesY + 1, res, frames, draws)
  }

  /** The grid with one more column is the grid followed by that column. */
  lemma StarGridNext(n: int, tilesY: int, res: int, frames: seq<Image>, draws: (int, int) -> StarDraw)
    requires res > 0 && n >= -1
    ensures StarGrid(n + 1, tilesY, res, frames, draws)
         == StarGrid(n, tilesY, res, frames, draws) + StarColumn(n, tilesY + 1, res, frames, draws)
  {
  }

  lemma AppendAssoc(a: seq<Sprite>, b: seq<Sprite>, c: seq<Sprite>)
    ensures a + b + c == a + (b + c)
  {
  }

  function Clamp(n: int): nat {
    if n < 0 then 0 else n
  }

  /** On a canvas of non-negative extent, `initStars` adds (W/res + 2) * (H/res + 2) stars, rounding down. */
  lemma StarCount(width: real, height: real, res: int, frames: seq<Image>, draws: (int, int) -> StarDraw)
    requires width >= 0.0 && height >= 0.0 && res > 0
    ensures Tiles(width, res) >= 0 && Tiles(height, res) >= 0
    ensures |StarGrid(Tiles(width, res) + 1, Tiles(height, res), res, frames, draws)|
         == (Tiles(width, res) + 2) * (Tiles(height, res) + 2)
  {
    assert width / res as real >= 0.0;
    assert height / res as real >= 0.0;
  }

  /** Row j of column i is the star of tile (i, j). */
  lemma {:induction false} StarColumnAt(i: int, m: int, j: int, res: int, frames: seq<Image>, draws: (int, int) -> StarDraw)
    requires res > 0 && -1 <= j < m
    ensures StarColumn(i, m, res, frames, draws)[j + 1] == NewStar(i, j, res, frames, draws(i, j))
    decreases m + 1
  {
    if j < m - 1 {
      StarColumnAt(i, m - 1, j, res, frames, draws);
    }
  }

  lemma MulSucc(a: int, c: int)
    ensures (a + 1) * c == a * c + c
  {
  }

  /** The columns -1 .. m - 1 come first in every larger grid. */
  lemma {:induction false} StarGridPrefix(m: int, n: int, tilesY: int, res: int, frames: seq<Image>, draws: (int, int) -> StarDraw)
    requires res > 0 && -1 <= m <= n
    ensures |StarGrid(m, tilesY, res, frames, draws)| <= |StarGrid(n, tilesY, res, frames, draws)|
    ensures StarGrid(n, tilesY, res, frames, draws)[..|StarGrid(m, tilesY, res, frames, draws)|]
         == StarGrid(m, tilesY, res, frames, draws)
    decreases n - m
  {
    if m < n {
      var prev := StarGrid(n - 1, tilesY, res, frames, draws);
      StarGridPrefix(m, n - 1, tilesY, res, frames, draws);
      PrefixOfAppend(prev, StarColumn(n - 1, tilesY + 1, res, frames, draws), |StarGrid(m, tilesY, res, frames, draws)|);
    }
  }

  lemma PrefixOfAppend(a: seq<Sprite>, b: seq<Sprite>, k: nat)
    requires k <= |a|
    ensures (a + b)[..k] == a[..k]
  {
  }

  /** The star of tile (i, j) sits at position (i + 1) * (tilesY + 2) + (j + 1): column by column, rows in order. */
  lemma StarGridAt(n: int, tilesY: int, i: int, j: int, res: int, frames: seq<Image>, draws: (int, int) -> StarDraw)
    requires res > 0 && -1 <= i < n && -1 <= j <= tilesY
    ensures (i + 1) * (tilesY + 2) + (j + 1) < |StarGrid(n, tilesY, res, frames, draws)|
    ensures StarGrid(n, tilesY, res, frames, draws)[(i + 1) * (tilesY + 2) + (j + 1)] == NewStar(i, j, res, frames, draws(i, j))
  {
    var upTo := StarGrid(i + 1, tilesY, res, frames, draws);
    var before := StarGrid(i, tilesY, res, frames, draws);
    var col := StarColumn(i, tilesY + 1, res, frames, draws);
    StarGridPrefix(i + 1, n, tilesY, res, frames, draws);
    assert Clamp(i + 1) == i + 1 && Clamp(tilesY + 2) == tilesY + 2;
    var idx := (i + 1) * (tilesY + 2) + (j + 1);
    assert upTo == before + col && idx == |before| + (j + 1);
    StarColumnAt(i, tilesY + 1, j, res, frames, draws);
    var grid := StarGrid(n, tilesY, res, frames, draws);
    assert grid[idx] == grid[..|upTo|][idx] == upTo[idx] == col[j + 1];
  }

  /** A star as `initStars` leaves it: animated, still, with an in-range frame. */
  predicate IsStar(s: Sprite) {
    s.Animated? && WellFormed(s) && IsStill(s)
  }

  /** Every star of column `i` is a well-formed still star, as long as there are frames. */
  lemma {:induction false} StarColumnStars(i: int, m: int, res: int, frames: seq<Image>, draws: (int, int) -> StarDraw)
    requires res > 0 && |frames| > 0
    ensures forall k :: 0 <= k < |StarColumn(i, m, res, frames, draws)| ==> IsStar(StarColumn(i, m, res, frames, draws)[k])
    decreases m + 1
  {
    if m > -1 {
      StarColumnStars(i, m - 1, res, frames, draws);
    }
  }

  // ---------------------------------------------------------------------------
  // The background
  // ---------------------------------------------------------------------------

  class DynamicBackground {
    /** The moving and wrapping sprites: comets, the moon and the planets. */
    var sprites: seq<Sprite>
    /** The stars; they never move and are only animated by `Draw`. */
    var stars: seq<Sprite>
    var width: real
    var height: real
    var cometCount: int
    /** The comet picture (`#cometSprite`). */
    const cometImage: Image

    ghost predicate Valid()
      reads this
    {
      (forall i :: 0 <= i < |sprites| ==> Steppable(sprites[i])) &&
      (forall i :: 0 <= i < |stars| ==> IsStar(stars[i]))
    }

    /** The state the constructor sets up: no stars yet and `cometCount` comets. */
    constructor (cometCount: int, width: real, height: real, cometImage: Image, draws: int -> CometDraw)
      ensures Valid()
      ensures this.width == width && this.height == height
      ensures this.cometCount == cometCount && this.cometImage == cometImage
      ensures stars == [] && sprites == CometBatch(cometCount, draws, width, height, cometImage)
      ensures width >= 0.0 && height >= 0.0 ==>
        MovingInBand(sprites, width, height) && SpeedsBounded(sprites, width, height)
    {
      this.cometImage := cometImage;
      sprites := [];
      stars := [];
      this.width := 0.0;
      this.height := 0.0;
      this.cometCount := 0;
      new;
      SetSize(width, height);
      this.cometCount := cometCount;
      InitComets(cometCount, draws);
      if width >= 0.0 && height >= 0.0 {
        CometsStartInBand(cometCount, draws, width, height, cometImage);
      }
    }

    /** `setSize`: records the new canvas extent. */
    method SetSize(width: real, height: real)
      modifies this`width, this`height
      ensures this.width == width && this.height == height
    {
      this.width := width;
      this.height := height;
    }

    /** The resize handler: new extent, and all stars dropped until they are made again. */
    method Resize(width: real, height: real)
      requires Valid()
      modifies this`width, this`height, this`stars
      ensures Valid()
      ensures this.width == width && this.height == height
      ensures stars == []
    {
      SetSize(width, height);
      stars := [];
    }

    /** `initComets`: appends `count` comets to the sprites. */
    method InitComets(count: int, draws: int -> CometDraw)
      requires Valid()
      modifies this`sprites
      ensures Valid()
      ensures sprites == old(sprites) + CometBatch(count, draws, width, height, cometImage)
      ensures (width >= 0.0 && height >= 0.0 &&
               old(MovingInBand(sprites, width, height) && SpeedsBounded(sprites, width, height))) ==>
        MovingInBand(sprites, width, height) && SpeedsBounded(sprites, width, height)
    {
      var i := 0;
      while i < count
        invariant 0 <= i && (i <= count || i == 0)
        invariant sprites == old(sprites) + CometBatch(i, draws, width, height, cometImage)
      {
        var comet := NewComet(draws(i), width, height, cometImage);
        AppendAssoc(old(sprites), CometBatch(i, draws, width, height, cometImage), [comet]);
        sprites := sprites + [comet];
        i := i + 1;
      }
      CometsAreStatic(count, draws, width, height, cometImage);
      if width >= 0.0 && height >= 0.0 &&
        old(MovingInBand(sprites, width, height) && SpeedsBounded(sprites, width, height)) {
        CometsStartInBand(count, draws, width, height, cometImage);
        BandFactsAppend(old(sprites), CometBatch(count, draws, width, height, cometImage), width, height);
      }
    }

    /**
     * `initStars`: appends one star per tile of side `res`, with an extra
     * column and row on every edge, to the stars already there.
     */
    method InitStars(frames: seq<Image>, res: int, draws: (int, int) -> StarDraw)
      requires Valid() && res > 0 && |frames| > 0
      modifies this`stars
      ensures Valid()
      ensures stars == old(stars) + StarGrid(Tiles(width, res) + 1, Tiles(height, res), res, frames, draws)
    {
      InitStarGrid(Tiles(width, res), Tiles(height, res), frames, res, draws);
    }

    /** The outer loop of `initStars`: columns -1 to `tilesX`, each with rows -1 to `tilesY`. */
    method InitStarGrid(tilesX: int, tilesY: int, frames: seq<Image>, res: int, draws: (int, int) -> StarDraw)
      requires Valid() && res > 0 && |frames| > 0
      modifies this`stars
      ensures Valid()
      ensures stars == old(stars) + StarGrid(tilesX + 1, tilesY, res, frames, draws)
    {
      var i := -1;
      while i < tilesX + 1
        invariant -1 <= i && (i <= tilesX + 1 || i == -1)
        invariant Valid()
        invariant stars == old(stars) + StarGrid(i, tilesY, res, frames, draws)
      {
        InitStarColumn(i, tilesY, frames, res, draws);
        StarGridNext(i, tilesY, res, frames, draws);
        AppendAssoc(old(stars), StarGrid(i, tilesY, res, frames, draws), StarColumn(i, tilesY + 1, res, frames, draws));
        i := i + 1;
      }
    }

    /** The inner loop of `initStars`: the stars of column `i`, rows -1 to `tilesY`. */
    method InitStarColumn(i: int, tilesY: int, frames: seq<Image>, res: int, draws: (int, int) -> StarDraw)
      requires Valid() && res > 0 && |frames| > 0
      modifies this`stars
      ensures Valid()
      ensures stars == old(stars) + StarColumn(i, tilesY + 1, res, frames, draws)
    {
      var j := -1;
      while j < tilesY + 1
        invariant -1 <= j && (j <= tilesY + 1 || j == -1)
        invariant Valid()
        invariant stars == old(stars) + StarColumn(i, j, res, frames, draws)
      {
        var spr := NewStar(i, j, res, frames, draws(i, j));
        stars := stars + [spr];
        j := j + 1;
      }
    }

    /** `getRandCometPos`: a point on the right edge or on the top edge, chosen by `choice`. */
    function GetRandCometPos(choice: Unit, coord: Unit): (p: Vec2)
      reads this
      ensures width + height > 0.0 && choice > width / (height + width) ==>
        p.x == width.Floor as real && IsScaledDrawReal(p.y, height)
      ensures width + height > 0.0 && choice <= width / (height + width) ==>
        p.y == 0.0 && IsScaledDrawReal(p.x, width)
      ensures width == 0.0 && height == 0.0 ==> p == Vec2(0.0, 0.0)
    {
      var sum := height + width;
      // A zero sum makes the ratio NaN (0 / 0) or an infinity, and the comparison follows.
      var toRight := if sum != 0.0 then choice > width / sum else width < 0.0;
      if toRight then Vec2(width.Floor as real, ScaledFloor(coord, height) as real)
      else Vec2(ScaledFloor(coord, width) as real, 0.0)
    }

    /** `step`: every sprite takes a step, then every sprite is wrapped; the stars are not touched. */
    method Step()
      requires Valid()
      modifies this`sprites
      ensures Valid()
      ensures |sprites| == |old(sprites)|
      ensures forall i :: 0 <= i < |sprites| ==>
        sprites[i] == ConstrainSprite(Sprites.Step(old(sprites)[i]), width, height)
      ensures (width > 0.0 && height > 0.0 &&
               old(MovingInBand(sprites, width, height)) && old(SpeedsBounded(sprites, width, height)))
              ==> MovingInBand(sprites, width, height)
      ensures old(SpeedsBounded(sprites, width, height)) ==> SpeedsBounded(sprites, width, height)
    {
      var i := 0;
      while i < |sprites|
        invariant 0 <= i <= |sprites| == |old(sprites)|
        invariant Valid()
        invariant forall k :: 0 <= k < i ==> sprites[k] == Sprites.Step(old(sprites)[k])
        invariant forall k :: i <= k < |sprites| ==> sprites[k] == old(sprites)[k]
      {
        sprites := sprites[i := Sprites.Step(sprites[i])];
        i := i + 1;
      }
      ConstrainSprites();
      if width > 0.0 && height > 0.0 && old(MovingInBand(sprites, width, height)) && old(SpeedsBounded(sprites, width, height)) {
        forall k | 0 <= k < |sprites| && !IsStill(sprites[k])
          ensures SpriteInBand(sprites[k], width, height)
        {
          TickKeepsBand(old(sprites)[k], width, height);
        }
      }
      if old(SpeedsBounded(sprites, width, height)) {
        forall k | 0 <= k < |sprites| && !IsStill(sprites[k])
          ensures SpeedBounded(sprites[k], width, height)
        {
          assert sprites[k].vel == old(sprites)[k].vel && sprites[k].size == old(sprites)[k].size;
        }
      }
    }

    /** `constrainSprites`: wraps every moving sprite at the canvas edges. */
    method ConstrainSprites()
      requires Valid()
      modifies this`sprites
      ensures Valid()
      ensures |sprites| == |old(sprites)|
      ensures forall i :: 0 <= i < |sprites| ==> sprites[i] == ConstrainSprite(old(sprites)[i], width, height)
    {
      var i := 0;
      while i < |sprites|
        invariant 0 <= i <= |sprites| == |old(sprites)|
        invariant Valid()
        invariant forall k :: 0 <= k < i ==> sprites[k] == ConstrainSprite(old(sprites)[k], width, height)
        invariant forall k :: i <= k < |sprites| ==> sprites[k] == old(sprites)[k]
      {
        sprites := sprites[i := ConstrainSprite(sprites[i], width, height)];
        i := i + 1;
      }
    }

    /** The state effect of `draw`: every star advances one frame; nothing moves. */
    method Draw()
      requires Valid()
      modifies this`stars
      ensures Valid()
      ensures |stars| == |old(stars)|
      ensures forall i :: 0 <= i < |stars| ==> stars[i] == StepAnimation(old(stars)[i])
      ensures forall i :: 0 <= i < |stars| ==> stars[i].pos == old(stars)[i].pos
    {
      var i := 0;
      while i < |stars|
        invariant 0 <= i <= |stars| == |old(stars)|
        invariant Valid()
        invariant forall k :: 0 <= k < i ==> stars[k] == StepAnimation(old(stars)[k])
        invariant forall k :: i <= k < |stars| ==> stars[k] == old(stars)[k]
      {
        stars := stars[i := StepAnimation(stars[i])];
        i := i + 1;
      }
    }
  }
}
