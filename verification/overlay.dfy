/** Placing scene overlays on the converted map. Every overlay coordinate goes
    through the same frame change, `(raw - offset) * rescale`, using the final
    offset and rescale of the scene (see module Grid). */
module Overlay {
  import opened PyNum
  import opened Common
  import opened Grid

  /** The scene's final offset and rescale, as createMap leaves them. */
  datatype Frame = Frame(offsetX: real, offsetY: real, rescale: real)

  function FrameOf(m: MapGrid): Frame
  {
    Frame(m.offsetX, m.offsetY, m.rescale)
  }

  /** `(raw - offset) * rescale` */
  function Transform(raw: real, offset: real, rescale: real): real
  {
    (raw - offset) * rescale
  }

  /** From map pixels back to scene coordinates. */
  function Untransform(pixel: real, offset: real, rescale: real): real
    requires rescale != 0.0
  {
    pixel / rescale + offset
  }

  lemma UntransformTransform(raw: real, offset: real, rescale: real)
    requires rescale != 0.0
    ensures Untransform(Transform(raw, offset, rescale), offset, rescale) == raw
  {
    assert (raw - offset) * rescale / rescale == raw - offset;
  }

  lemma TransformUntransform(pixel: real, offset: real, rescale: real)
    requires rescale != 0.0
    ensures Transform(Untransform(pixel, offset, rescale), offset, rescale) == pixel
  {
    assert (pixel / rescale) * rescale == pixel;
  }

  /** Moving a point by d in the scene moves it by d * rescale on the map, and a
      positive rescale keeps the order of points. */
  lemma TransformTranslates(raw: real, d: real, offset: real, rescale: real)
    ensures Transform(raw + d, offset, rescale) == Transform(raw, offset, rescale) + d * rescale
    ensures rescale > 0.0 && d >= 0.0 ==> Transform(raw, offset, rescale) <= Transform(raw + d, offset, rescale)
  {
    assert (raw + d - offset) * rescale == (raw - offset) * rescale + d * rescale;
    if rescale > 0.0 && d >= 0.0 {
      assert d * rescale >= 0.0;
    }
  }

  /** `round((raw - offset) * rescale)`: the whole pixel a light, note, sound or token lands on. */
  function Pixel(raw: real, offset: real, rescale: real): int
  {
    Round(Transform(raw, offset, rescale))
  }

  /** The pixel is the nearest one to the transformed point; with no rescale an
      integral point is simply moved by the offset. */
  lemma PixelNearest(raw: real, offset: real, rescale: real)
    ensures Abs(Pixel(raw, offset, rescale) as real - Transform(raw, offset, rescale)) <= 0.5
    ensures rescale == 1.0 && IsIntegral(raw - offset) ==> Pixel(raw, offset, rescale) as real == raw - offset
  {
    if rescale == 1.0 && IsIntegral(raw - offset) {
      assert Transform(raw, offset, rescale) == raw - offset;
      RoundFixesIntegral(raw - offset);
    }
  }

  // ---------------------------------------------------------------------------
  // Notes and sounds (foundrytoencounter.py:1416-1421, 1438-1443)

  /** Where a journal note or a sound becomes a marker. */
  function MarkerAt(x: real, y: real, f: Frame): (int, int)
  {
    (Pixel(x, f.offsetX, f.rescale), Pixel(y, f.offsetY, f.rescale))
  }

  /** The marker sits on the pixel nearest the note's place on the map, and mapping it
      back lands within half a pixel, scaled back, of where the note was. */
  lemma MarkerNearNote(x: real, y: real, f: Frame)
    requires f.rescale > 0.0
    ensures Abs(MarkerAt(x, y, f).0 as real - Transform(x, f.offsetX, f.rescale)) <= 0.5
    ensures Abs(MarkerAt(x, y, f).1 as real - Transform(y, f.offsetY, f.rescale)) <= 0.5
    ensures Abs(Untransform(MarkerAt(x, y, f).0 as real, f.offsetX, f.rescale) - x) <= 0.5 / f.rescale
  {
    PixelNearest(x, f.offsetX, f.rescale);
    PixelNearest(y, f.offsetY, f.rescale);
    UntransformNear(MarkerAt(x, y, f).0 as real, x, f.offsetX, f.rescale);
  }

  /** A pixel within half a pixel of a transformed point maps back to within half a
      pixel, scaled back, of the point. */
  lemma UntransformNear(p: real, raw: real, offset: real, rescale: real)
    requires rescale > 0.0
    requires Abs(p - Transform(raw, offset, rescale)) <= 0.5
    ensures Abs(Untransform(p, offset, rescale) - raw) <= 0.5 / rescale
  {
    var t := Transform(raw, offset, rescale);
    UntransformTransform(raw, offset, rescale);
    assert Untransform(p, offset, rescale) - raw == p / rescale - t / rescale;
    assert p / rescale - t / rescale == (p - t) / rescale;
    QuotientBound(p - t, rescale);
  }

  lemma QuotientBound(d: real, r: real)
    requires r > 0.0 && -0.5 <= d <= 0.5
    ensures -(0.5 / r) <= d / r <= 0.5 / r
  {
    assert 0.5 / r - d / r == (0.5 - d) / r;
    assert d / r + 0.5 / r == (d + 0.5) / r;
  }

  // ---------------------------------------------------------------------------
  // Tiles (foundrytoencounter.py:806-841)

  /** A Foundry tile: top-left corner, size and an optional scale. */
  datatype Tile = Tile(x: real, y: real, width: real, height: real, scale: Option<real>)

  /** The tile element: the position of its centre and its size, in map pixels. */
  datatype TileBox = TileBox(x: int, y: int, width: int, height: int)

  /** The tile's width and height once its scale (1 when absent) is applied. */
  function ScaledWidth(t: Tile): real
  {
    t.width * t.scale.GetOr(1.0)
  }

  function ScaledHeight(t: Tile): real
  {
    t.height * t.scale.GetOr(1.0)
  }

  function PlaceTile(t: Tile, f: Frame): TileBox
  {
    TileBox(Round(Transform(t.x + ScaledWidth(t) / 2.0, f.offsetX, f.rescale)),
            Round(Transform(t.y + ScaledHeight(t) / 2.0, f.offsetY, f.rescale)),
            Round(ScaledWidth(t) * f.rescale),
            Round(ScaledHeight(t) * f.rescale))
  }

  /** The tile's width on the map is the transformed extent of the scaled tile. */
  lemma TileSizeIsExtent(t: Tile, f: Frame)
    ensures PlaceTile(t, f).width
            == Round(Transform(t.x + ScaledWidth(t), f.offsetX, f.rescale) - Transform(t.x, f.offsetX, f.rescale))
  {
    TransformTranslates(t.x, ScaledWidth(t), f.offsetX, f.rescale);
  }

  /** The tile's position on the map is the middle of that extent. */
  lemma TileAtMiddle(t: Tile, f: Frame)
    ensures PlaceTile(t, f).x
            == Round((Transform(t.x, f.offsetX, f.rescale) + Transform(t.x + ScaledWidth(t), f.offsetX, f.rescale)) / 2.0)
  {
    var m := ScaledWidth(t);
    var a := Transform(t.x, f.offsetX, f.rescale);
    var b := Transform(t.x + m, f.offsetX, f.rescale);
    var c := Transform(t.x + m / 2.0, f.offsetX, f.rescale);
    TransformTranslates(t.x, m, f.offsetX, f.rescale);
    TransformTranslates(t.x, m / 2.0, f.offsetX, f.rescale);
    assert (m / 2.0) * f.rescale == (m * f.rescale) / 2.0;
    assert c == (a + b) / 2.0;
  }

  // ---------------------------------------------------------------------------
  // Drawings (foundrytoencounter.py:1364-1372)

  /** The `data` of a polyline drawing: each point, relative to the drawing's origin
      (dx, dy), moved into map coordinates, x and y interleaved. */
  function DrawingData(points: seq<(real, real)>, dx: real, dy: real, f: Frame): (r: seq<real>)
    ensures |r| == 2 * |points|
  {
    if |points| == 0 then []
    else DrawingData(points[..|points| - 1], dx, dy, f) + PointData(points[|points| - 1], dx, dy, f)
  }

  /** The two entries one point contributes. */
  function PointData(p: (real, real), dx: real, dy: real, f: Frame): (r: seq<real>)
    ensures |r| == 2
  {
    [(p.0 - f.offsetX + dx) * f.rescale, (p.1 - f.offsetY + dy) * f.rescale]
  }

  /** Point k of the drawing is entries 2k and 2k+1 of its data. */
  lemma {:induction false} DrawingDataPoint(points: seq<(real, real)>, dx: real, dy: real, f: Frame, k: nat)
    requires k < |points|
    ensures DrawingData(points, dx, dy, f)[2 * k] == Transform(points[k].0 + dx, f.offsetX, f.rescale)
    ensures DrawingData(points, dx, dy, f)[2 * k + 1] == Transform(points[k].1 + dy, f.offsetY, f.rescale)
  {
    var n := |points|;
    if k < n - 1 {
      DrawingDataPoint(points[..n - 1], dx, dy, f, k);
      assert points[..n - 1][k] == points[k];
    } else {
      assert DrawingData(points, dx, dy, f)[2 * k] == PointData(points[k], dx, dy, f)[0];
      assert DrawingData(points, dx, dy, f)[2 * k + 1] == PointData(points[k], dx, dy, f)[1];
      assert points[k].0 - f.offsetX + dx == points[k].0 + dx - f.offsetX;
      assert points[k].1 - f.offsetY + dy == points[k].1 + dy - f.offsetY;
    }
  }

  /** The loop that builds a drawing's point list. */
  method DrawingPoints(points: seq<(real, real)>, dx: real, dy: real, f: Frame) returns (out: seq<real>)
    ensures out == DrawingData(points, dx, dy, f)
  {
    out := [];
    for i := 0 to |points|
      invariant out == DrawingData(points[..i], dx, dy, f)
    {
      assert points[..i + 1][..i] == points[..i] && points[..i + 1][i] == points[i];
      ghost var before := out;
      var pair := PointData(points[i], dx, dy, f);
      out := out + [pair[0]];
      out := out + [pair[1]];
      assert out == before + pair;
    }
    assert points[..|points|] == points;
  }

  // ---------------------------------------------------------------------------
  // Lights (foundrytoencounter.py:1023-1068)

  /** The newer `config` block of a light, which overrides the flat keys. Its colour
      is None when the key is absent, Some(None) when it is present but null. */
  datatype LightConfig = LightConfig(dim: real, bright: real, color: Option<Option<string>>, alpha: real)

  datatype Light = Light(
    x: real,
    y: real,
    dim: real,
    bright: real,
    tintColor: Option<string>,
    tintAlpha: real,
    t: string,
    animation: Option<string>,
    config: Option<LightConfig>)

  /** The light element. */
  datatype LightMarker = LightMarker(
    radiusMax: int,
    radiusMin: int,
    color: string,
    opacity: real,
    alwaysVisible: bool,
    x: int,
    y: int)

  /** The light after its `config` block, if any, has been copied over the flat keys. */
  function Configured(l: Light): (r: Light)
    ensures l.config.None? ==> r == l
    ensures l.config.Some? ==> r.dim == l.config.value.dim && r.bright == l.config.value.bright
                               && r.tintAlpha == l.config.value.alpha
    ensures r.tintColor == (if l.config.Some? && l.config.value.color.Some? then l.config.value.color.value else l.tintColor)
  {
    match l.config
    case None => l
    case Some(c) =>
      var withColor := if c.color.Some? then l.(tintColor := c.color.value) else l;
      withColor.(dim := c.dim, bright := c.bright, tintAlpha := c.alpha)
  }

  predicate IsGhost(l: Light)
  {
    l.animation == Some("ghost")
  }

  /** The element for a configured light. */
  function LightElement(l: Light, f: Frame): LightMarker
  {
    LightMarker(
      if l.dim != 0.0 then Round(l.dim) else 0,
      if l.bright != 0.0 then Round(l.bright) else 0,
      if l.tintColor.Some? && l.tintColor.value != "" then l.tintColor.value else "#ffffff",
      l.tintAlpha,
      l.t == "u",
      Pixel(l.x, f.offsetX, f.rescale),
      Pixel(l.y, f.offsetY, f.rescale))
  }

  /** The emitted colour: a colour key in the config wins over the flat one, even when
      it is null or empty, and then the light is white; a missing or empty colour is white. */
  lemma LightColour(l: Light, f: Frame)
    ensures l.config.Some? && l.config.value.color == Some(None) ==> LightElement(Configured(l), f).color == "#ffffff"
    ensures l.config.Some? && l.config.value.color == Some(Some("")) ==> LightElement(Configured(l), f).color == "#ffffff"
    ensures forall c :: l.config.Some? && l.config.value.color == Some(Some(c)) && c != "" ==> LightElement(Configured(l), f).color == c
    ensures forall c :: (l.config.None? || l.config.value.color.None?) && l.tintColor == Some(c) && c != "" ==> LightElement(Configured(l), f).color == c
    ensures (l.config.None? || l.config.value.color.None?) && (l.tintColor.None? || l.tintColor == Some("")) ==> LightElement(Configured(l), f).color == "#ffffff"
  {
  }

  /** The light elements of a scene, in scene order, ghosts left out. */
  function EmittedLights(lights: seq<Light>, f: Frame): seq<LightMarker>
  {
    if |lights| == 0 then []
    else
      var l := Configured(lights[|lights| - 1]);
      EmittedLights(lights[..|lights| - 1], f) + (if IsGhost(l) then [] else [LightElement(l, f)])
  }

  function GhostCount(lights: seq<Light>): nat
  {
    if |lights| == 0 then 0
    else GhostCount(lights[..|lights| - 1]) + (if IsGhost(Configured(lights[|lights| - 1])) then 1 else 0)
  }

  /** One element per light that is not a ghost. */
  lemma {:induction false} EmittedLightsCount(lights: seq<Light>, f: Frame)
    ensures |EmittedLights(lights, f)| + GhostCount(lights) == |lights|
  {
    if |lights| > 0 {
      EmittedLightsCount(lights[..|lights| - 1], f);
    }
  }

  /** Scene order is kept: the lights of two consecutive runs come out one run after the other. */
  lemma {:induction false} EmittedLightsAppend(a: seq<Light>, b: seq<Light>, f: Frame)
    ensures EmittedLights(a + b, f) == EmittedLights(a, f) + EmittedLights(b, f)
    decreases |b|
  {
    if |b| == 0 {
      assert a + b == a;
    } else {
      assert (a + b)[..|a + b| - 1] == a + b[..|b| - 1];
      assert (a + b)[|a + b| - 1] == b[|b| - 1];
      EmittedLightsAppend(a, b[..|b| - 1], f);
    }
  }

  /** Without ghosts every light gives its element, in place. */
  lemma {:induction false} EmittedLightsNoGhosts(lights: seq<Light>, f: Frame, k: nat)
    requires GhostCount(lights) == 0 && k < |lights|
    ensures |EmittedLights(lights, f)| == |lights|
    ensures EmittedLights(lights, f)[k] == LightElement(Configured(lights[k]), f)
  {
    EmittedLightsCount(lights, f);
    var n := |lights|;
    if k < n - 1 {
      EmittedLightsNoGhosts(lights[..n - 1], f, k);
      assert lights[..n - 1][k] == lights[k];
    }
  }

  /** The light loop of createMap. */
  method EmitLights(lights: seq<Light>, f: Frame) returns (out: seq<LightMarker>)
    ensures out == EmittedLights(lights, f)
  {
    out := [];
    for i := 0 to |lights|
      invariant out == EmittedLights(lights[..i], f)
    {
      assert lights[..i + 1][..i] == lights[..i];
      var light := Configured(lights[i]);
      if IsGhost(light) {
        continue;
      }
      out := out + [LightElement(light, f)];
    }
    assert lights[..|lights|] == lights;
  }
}
