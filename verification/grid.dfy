/** The grid and coordinate engine of `createMap` (foundrytoencounter.py):
    scene offset, the 8192-pixel ceiling, the realign factor that puts grid
    cells on whole pixels, the hex shifts, and the grid fields of the map element. */
module Grid {
  import opened PyNum
  import opened Common

  /** Largest map edge the target accepts, in pixels. */
  const MapLimit: int := 8192

  /** The grid-related keys of a Foundry scene record. gridType 0 is gridless, 1 square,
      2 and 3 the pointy-top hex variants, 4 and 5 the flat-top ones. */
  datatype SceneGeometry = SceneGeometry(
    width: int,
    height: int,
    grid: real,
    gridType: int,
    padding: Option<real>,
    shiftX: real,
    shiftY: real,
    gridAlpha: real)

  // ---------------------------------------------------------------------------
  // Offset

  /** Offset along one axis with an explicit padding fraction. */
  function PaddedOffset(padding: real, dim: int, grid: real): real
    requires grid > 0.0
  {
    Ceil(padding * dim as real / grid) as real * grid
  }

  /** Offset along one axis when the scene has no padding key, written as the source does. */
  function CentredOffset(dim: int, grid: real): real
    requires grid > 0.0
  {
    (dim as real + Ceil(0.5 * dim as real / (grid * 2.0)) as real * (grid * 2.0) - dim as real) * 0.5
  }

  /** The number of whole cells in front of the scene along one axis. */
  function CellsBefore(padding: Option<real>, dim: int, grid: real): int
    requires grid > 0.0
  {
    match padding
    case Some(p) => Ceil(p * dim as real / grid)
    case None => Ceil(dim as real / (4.0 * grid))
  }

  lemma CentredOffsetIsCellMultiple(dim: int, grid: real)
    requires grid > 0.0
    ensures CentredOffset(dim, grid) == Ceil(dim as real / (4.0 * grid)) as real * grid
  {
    assert 0.5 * dim as real / (grid * 2.0) == dim as real / (4.0 * grid);
  }

  /** The scene offset along one axis: a whole number of cells, less the shift. */
  function Offset(padding: Option<real>, dim: int, grid: real, shift: real): real
    requires grid > 0.0
  {
    var o := if padding.Some? then PaddedOffset(padding.value, dim, grid) else CentredOffset(dim, grid);
    o - shift
  }

  /** With or without padding, the offset is a whole number of cells less the shift. */
  lemma OffsetOnWholeCells(padding: Option<real>, dim: int, grid: real, shift: real)
    requires grid > 0.0
    ensures Offset(padding, dim, grid, shift) + shift == CellsBefore(padding, dim, grid) as real * grid
  {
    CentredOffsetIsCellMultiple(dim, grid);
  }

  // ---------------------------------------------------------------------------
  // The 8192 ceiling

  datatype Fit = Fit(rescale: real, width: int, height: int)

  /** `map["rescale"]` and the new width and height after the 8192 check. */
  function FitToLimit(width: int, height: int): Fit
  {
    if width > MapLimit || height > MapLimit then
      var longer := if width >= height then width else height;
      Fit(LimitScale(longer), ScaledSide(width, LimitScale(longer)), ScaledSide(height, LimitScale(longer)))
    else
      Fit(1.0, width, height)
  }

  /** A map within the limit keeps its size; a larger one is shrunk so that its
      longer edge is exactly the limit and the other edge does not exceed it. */
  lemma FitToLimitBounds(width: int, height: int)
    ensures var r := FitToLimit(width, height);
      width <= MapLimit && height <= MapLimit ==> r == Fit(1.0, width, height)
    ensures var r := FitToLimit(width, height);
      width > MapLimit && width >= height ==>
      && 0.0 < r.rescale < 1.0 && r.rescale * width as real == MapLimit as real
      && r.width == MapLimit && r.height <= MapLimit
    ensures var r := FitToLimit(width, height);
      height > MapLimit && height > width ==>
      && 0.0 < r.rescale < 1.0 && r.rescale * height as real == MapLimit as real
      && r.height == MapLimit && r.width <= MapLimit
  {
    if width > MapLimit || height > MapLimit {
      if width >= height {
        LimitScaleFits(height, width);
      } else {
        LimitScaleFits(width, height);
      }
    }
  }

  /** The factor that brings the longer edge down to the limit. */
  function LimitScale(longer: int): real
    requires longer > MapLimit
  {
    MapLimit as real / longer as real
  }

  /** `round(dim * rescale)` */
  function ScaledSide(dim: int, rescale: real): int
  {
    Round(dim as real * rescale)
  }

  lemma LimitScaleFits(shorter: int, longer: int)
    requires longer > MapLimit && shorter <= longer
    ensures 0.0 < LimitScale(longer) < 1.0
    ensures LimitScale(longer) * longer as real == MapLimit as real
    ensures ScaledSide(longer, LimitScale(longer)) == MapLimit
    ensures ScaledSide(shorter, LimitScale(longer)) <= MapLimit
  {
    var scale := LimitScale(longer);
    assert longer as real * scale == MapLimit as real;
    assert shorter as real * scale <= longer as real * scale;
    RoundOfInt(MapLimit);
  }

  // ---------------------------------------------------------------------------
  // Realign

  /** The length that must land on whole pixels: the cell for square grids,
      the half cell for hex grids. */
  function Cell(grid: real, gridType: int): real
  {
    if gridType > 1 then grid / 2.0 else grid
  }

  /** The realign factor exactly as lines 633-638 compute it: the whole grid is
      stretched to whole pixels first, and only a whole grid has its half tested. */
  function RealignAsWritten(grid: real, gridType: int): real
  {
    if Round(grid) as real != grid then OnWholePixels(grid)
    else if gridType > 1 then OnWholePixels(grid / 2.0)
    else 1.0
  }

  /** The realign factor with the half-cell test first for hex grids. */
  function Realign(grid: real, gridType: int): real
  {
    OnWholePixels(Cell(grid, gridType))
  }

  /** The factor that stretches a length to the nearest whole number of pixels. */
  function OnWholePixels(c: real): real
  {
    if Round(c) as real != c then
      RoundFixesIntegral(c);
      Round(c) as real / c
    else 1.0
  }

  /** Realigning lands the cell on a whole number of pixels, and only stretches
      a cell that is not already whole. */
  lemma RealignLandsOnWholePixels(grid: real, gridType: int)
    ensures Realign(grid, gridType) * Cell(grid, gridType) == Round(Cell(grid, gridType)) as real
    ensures Realign(grid, gridType) == 1.0 <==> IsIntegral(Cell(grid, gridType))
  {
    var c := Cell(grid, gridType);
    RoundFixesIntegral(c);
    if Round(c) as real != c {
      assert c != 0.0;
      assert (Round(c) as real / c) * c == Round(c) as real;
    }
  }

  /** Both agree except on hex grids whose cell is not a whole number. */
  lemma RealignAgrees(grid: real, gridType: int)
    requires gridType <= 1 || IsIntegral(grid)
    ensures Realign(grid, gridType) == RealignAsWritten(grid, gridType)
  {
    RoundFixesIntegral(grid);
    RoundFixesIntegral(grid / 2.0);
  }

  /** A hex grid of 100.6 pixels: the first branch realigns the whole cell to 101
      pixels, so the half cell becomes 50.5 pixels while gridSize says 50. */
  lemma RealignAsWrittenMissesHalfCell()
    ensures RealignAsWritten(100.6, 2) * Cell(100.6, 2) == 50.5
    ensures Round(Cell(100.6, 2)) == 50
    ensures Realign(100.6, 2) * Cell(100.6, 2) == 50.0
  {
    assert (100.6).Floor == 100;
    assert (50.3).Floor == 50;
    assert Round(100.6) == 101;
    assert Round(50.3) == 50;
  }

  // ---------------------------------------------------------------------------
  // Hex shifts and the alignment step

  /** What the hex branch adds to (shiftX, shiftY), given the halved grid. */
  function HexShift(gridType: int, half: real): (real, real)
  {
    if gridType == 2 then (0.0, half)
    else if gridType == 3 then (0.0, -half / 2.0)
    else if gridType == 4 then (-half, half / 2.0)
    else if gridType == 5 then (half / 2.0, half / 2.0)
    else (0.0, 0.0)
  }

  datatype Alignment = Alignment(grid: real, realign: real, shiftX: real, shiftY: real, rescale: real)

  /** Lines 644-655: the row or column shift of each hex variant, by the halved grid,
      then both shifts stretched by the realign factor. */
  method ShiftHex(gridType: int, half: real, shiftX: real, shiftY: real, realign: real) returns (sx: real, sy: real)
    ensures sx == HexShifted(gridType, half, shiftX, shiftY, realign).0
    ensures sy == HexShifted(gridType, half, shiftX, shiftY, realign).1
  {
    sx, sy := shiftX, shiftY;
    if 2 <= gridType <= 3 {
      if gridType == 2 {
        sy := sy + half;
      } else {
        sy := sy - half / 2.0;
      }
    } else if 4 <= gridType <= 5 {
      sy := sy + half / 2.0;
      if gridType == 4 {
        sx := sx - half;
      } else {
        sx := sx + half / 2.0;
      }
    }
    sx := sx * realign;
    sy := sy * realign;
  }

  /** The shifts after the hex branch: moved by the variant's offset, then realigned. */
  function HexShifted(gridType: int, half: real, shiftX: real, shiftY: real, realign: real): (real, real)
  {
    ((shiftX + HexShift(gridType, half).0) * realign, (shiftY + HexShift(gridType, half).1) * realign)
  }

  /** Each hex variant by itself: pointy grids (2, 3) only move rows, down by a half
      cell for type 2 and up by a quarter for type 3; flat grids (4, 5) move rows down
      by a quarter and columns left by a half for type 4, right by a quarter for type 5.
      Square and gridless scenes are only stretched. */
  lemma HexShiftedByType(gridType: int, half: real, shiftX: real, shiftY: real, realign: real)
    ensures 2 <= gridType <= 3 ==> HexShifted(gridType, half, shiftX, shiftY, realign).0 == shiftX * realign
    ensures gridType == 2 ==> HexShifted(gridType, half, shiftX, shiftY, realign).1 == (shiftY + half) * realign
    ensures gridType == 3 ==> HexShifted(gridType, half, shiftX, shiftY, realign).1 == (shiftY - half / 2.0) * realign
    ensures 4 <= gridType <= 5 ==> HexShifted(gridType, half, shiftX, shiftY, realign).1 == (shiftY + half / 2.0) * realign
    ensures gridType == 4 ==> HexShifted(gridType, half, shiftX, shiftY, realign).0 == (shiftX - half) * realign
    ensures gridType == 5 ==> HexShifted(gridType, half, shiftX, shiftY, realign).0 == (shiftX + half / 2.0) * realign
    ensures !(2 <= gridType <= 5) ==> HexShifted(gridType, half, shiftX, shiftY, realign) == (shiftX * realign, shiftY * realign)
  {
  }

  /** The grid, realign factor, shifts and rescale once the grid is aligned with a
      given realign factor. */
  function AlignedBy(grid: real, shiftX: real, shiftY: real, gridType: int, rescale: real, realign: real): Alignment
  {
    var g := grid * rescale;
    if gridType > 1 then
      var half := Round(g / 2.0) as real;
      var shifted := HexShifted(gridType, half, shiftX * rescale, shiftY * rescale, realign);
      Alignment(half, realign, shifted.0, shifted.1, rescale * realign)
    else
      Alignment(g, realign, shiftX * rescale, shiftY * rescale, rescale * realign)
  }

  /** The alignment exactly as lines 630-654 compute it, with the realign of lines 633-638. */
  function Aligned(grid: real, shiftX: real, shiftY: real, gridType: int, rescale: real): Alignment
  {
    AlignedBy(grid, shiftX, shiftY, gridType, rescale, RealignAsWritten(grid * rescale, gridType))
  }

  /** The same alignment with the corrected realign factor. */
  function AlignedCorrected(grid: real, shiftX: real, shiftY: real, gridType: int, rescale: real): Alignment
  {
    AlignedBy(grid, shiftX, shiftY, gridType, rescale, Realign(grid * rescale, gridType))
  }

  /** Lines 629-655: scale the grid and the shifts, realign, halve hex grids and shift them. */
  method AlignGrid(grid: real, shiftX: real, shiftY: real, gridType: int, rescale: real) returns (a: Alignment)
    ensures a == Aligned(grid, shiftX, shiftY, gridType, rescale)
  {
    var realign := RealignAsWritten(grid * rescale, gridType);
    a := AlignWith(grid, shiftX, shiftY, gridType, rescale, realign);
  }

  /** Lines 639-654: the alignment step once the realign factor is known. */
  method AlignWith(grid: real, shiftX: real, shiftY: real, gridType: int, rescale: real, realign: real) returns (a: Alignment)
    ensures a == AlignedBy(grid, shiftX, shiftY, gridType, rescale, realign)
  {
    var g := grid * rescale;
    var sx := shiftX * rescale;
    var sy := shiftY * rescale;
    if gridType > 1 {
      g := Round(g / 2.0) as real;
      sx, sy := ShiftHex(gridType, g, sx, sy, realign);
    }
    a := Alignment(g, realign, sx, sy, rescale * realign);
  }

  /** The aligned grid rounds to the same whole number as the cell (half cell for hex
      grids): that number is the map's gridSize. A hex grid is already whole. */
  lemma AlignedGridRoundsLikeCell(grid: real, shiftX: real, shiftY: real, gridType: int, rescale: real, realign: real)
    ensures Round(AlignedBy(grid, shiftX, shiftY, gridType, rescale, realign).grid) == Round(Cell(grid * rescale, gridType))
    ensures gridType > 1 ==> IsIntegral(AlignedBy(grid, shiftX, shiftY, gridType, rescale, realign).grid)
  {
    var g := grid * rescale;
    if gridType > 1 {
      RoundOfInt(Round(g / 2.0));
      RoundFixesIntegral(Round(g / 2.0) as real);
    }
  }

  /** With the corrected factor, the cell (half cell for hex grids) stretched by the
      realign factor is exactly the map's gridSize. */
  lemma AlignedCorrectedCellIsGridSize(grid: real, shiftX: real, shiftY: real, gridType: int, rescale: real)
    ensures AlignedCorrected(grid, shiftX, shiftY, gridType, rescale).realign * Cell(grid * rescale, gridType)
         == Round(AlignedCorrected(grid, shiftX, shiftY, gridType, rescale).grid) as real
  {
    RealignLandsOnWholePixels(grid * rescale, gridType);
    AlignedGridRoundsLikeCell(grid, shiftX, shiftY, gridType, rescale, Realign(grid * rescale, gridType));
  }

  /** As written, a hex grid of 100.6 pixels is stretched so its half cell is 50.5
      pixels while the map's gridSize says 50. */
  lemma AlignedMissesGridSize()
    ensures Aligned(100.6, 0.0, 0.0, 2, 1.0).realign * Cell(100.6, 2) == 50.5
    ensures Round(Aligned(100.6, 0.0, 0.0, 2, 1.0).grid) == 50
  {
    assert (100.6).Floor == 100;
    assert Round(100.6) == 101;
    assert Round(50.3) == 50;
    RoundOfInt(50);
  }

  /** Both alignments agree on square grids and on hex grids of whole pixels. */
  lemma AlignedAgrees(grid: real, shiftX: real, shiftY: real, gridType: int, rescale: real)
    requires gridType <= 1 || IsIntegral(grid * rescale)
    ensures Aligned(grid, shiftX, shiftY, gridType, rescale) == AlignedCorrected(grid, shiftX, shiftY, gridType, rescale)
  {
    RealignAgrees(grid * rescale, gridType);
  }

  /** A grid already on whole pixels is left alone: realign is 1 and the rescale is unchanged. */
  lemma AlignedKeepsWholeGrid(grid: real, shiftX: real, shiftY: real, gridType: int, rescale: real)
    requires IsIntegral(Cell(grid * rescale, gridType))
    ensures Aligned(grid, shiftX, shiftY, gridType, rescale).realign == 1.0
    ensures Aligned(grid, shiftX, shiftY, gridType, rescale).rescale == rescale
  {
    var g := grid * rescale;
    if gridType > 1 {
      var h := (g / 2.0).Floor;
      assert g == (2 * h) as real;
    }
    RealignAgrees(g, gridType);
    RealignLandsOnWholePixels(g, gridType);
  }

  /** A pointy-top hex scene of type 3 (the even-row variant) with a 100-pixel grid:
      half cells of 50 pixels and the rows shifted up by a quarter cell. */
  lemma PointyType3Scenario()
    ensures RealignAsWritten(100.0, 3) == 1.0
    ensures Aligned(100.0, 0.0, 0.0, 3, 1.0).grid == 50.0
    ensures Round(Aligned(100.0, 0.0, 0.0, 3, 1.0).shiftY) == -25
  {
    RoundOfInt(100);
    RoundOfInt(50);
    RoundOfInt(-25);
    assert 100.0 / 2.0 == 50.0;
  }

  // ---------------------------------------------------------------------------
  // The map element's grid fields

  datatype GridKind = Square | HexPointy | HexFlat

  function KindOf(gridType: int): (k: GridKind)
    ensures k == HexFlat <==> 4 <= gridType <= 5
    ensures k == HexPointy <==> 2 <= gridType <= 3
  {
    if 4 <= gridType <= 5 then HexFlat else if 2 <= gridType <= 3 then HexPointy else Square
  }

  /** gridVisible: NO for a gridless scene, otherwise YES when the grid is drawn at all. */
  function GridVisible(gridType: int, gridAlpha: real): (v: bool)
    ensures v <==> gridType != 0 && gridAlpha > 0.0
  {
    if gridType == 0 then false else gridAlpha > 0.0
  }

  /** What createMap has worked out for a scene once its grid is set. */
  datatype MapGrid = MapGrid(
    offsetX: real,
    offsetY: real,
    rescale: real,
    width: int,
    height: int,
    grid: real,
    realign: real,
    gridSize: int,
    gridOffsetX: int,
    gridOffsetY: int,
    kind: GridKind,
    visible: bool)

  /** The grid fields createMap derives from a scene, given the outcome of the 8192 check. */
  function GridOf(s: SceneGeometry, fit: Fit): MapGrid
    requires s.grid > 0.0
  {
    var a := Aligned(s.grid, s.shiftX, s.shiftY, s.gridType, fit.rescale);
    MapGrid(Offset(s.padding, s.width, s.grid, s.shiftX), Offset(s.padding, s.height, s.grid, s.shiftY),
            a.rescale, fit.width, fit.height, a.grid, a.realign,
            Round(a.grid), Round(a.shiftX), Round(a.shiftY),
            KindOf(s.gridType), GridVisible(s.gridType, s.gridAlpha))
  }

  /** The grid part of createMap, with the rescale from the 8192 check. */
  method CreateGrid(s: SceneGeometry) returns (m: MapGrid)
    requires s.grid > 0.0
    ensures m == GridOf(s, FitToLimit(s.width, s.height))
  {
    var offsetX := Offset(s.padding, s.width, s.grid, s.shiftX);
    var offsetY := Offset(s.padding, s.height, s.grid, s.shiftY);
    var fit := FitToLimit(s.width, s.height);
    var a := AlignGrid(s.grid, s.shiftX, s.shiftY, s.gridType, fit.rescale);
    m := MapGrid(offsetX, offsetY, a.rescale, fit.width, fit.height, a.grid, a.realign,
                 Round(a.grid), Round(a.shiftX), Round(a.shiftY),
                 KindOf(s.gridType), GridVisible(s.gridType, s.gridAlpha));
  }

  /** The scene sits a whole number of cells in from the map's left edge, before the shift. */
  lemma GridOffsetXOnWholeCells(s: SceneGeometry, fit: Fit)
    requires s.grid > 0.0
    ensures GridOf(s, fit).offsetX + s.shiftX == CellsBefore(s.padding, s.width, s.grid) as real * s.grid
  {
    OffsetOnWholeCells(s.padding, s.width, s.grid, s.shiftX);
    assert GridOf(s, fit).offsetX == Offset(s.padding, s.width, s.grid, s.shiftX);
  }

  /** The same along the vertical axis. */
  lemma GridOffsetYOnWholeCells(s: SceneGeometry, fit: Fit)
    requires s.grid > 0.0
    ensures GridOf(s, fit).offsetY + s.shiftY == CellsBefore(s.padding, s.height, s.grid) as real * s.grid
  {
    OffsetOnWholeCells(s.padding, s.height, s.grid, s.shiftY);
    assert GridOf(s, fit).offsetY == Offset(s.padding, s.height, s.grid, s.shiftY);
  }

  /** The map's gridSize is the cell (half cell for hex grids) rounded. */
  lemma GridSizeRoundsCell(s: SceneGeometry, fit: Fit)
    requires s.grid > 0.0
    ensures GridOf(s, fit).gridSize == Round(Cell(s.grid * fit.rescale, s.gridType))
  {
    AlignedGridRoundsLikeCell(s.grid, s.shiftX, s.shiftY, s.gridType, fit.rescale, RealignAsWritten(s.grid * fit.rescale, s.gridType));
  }
}
