# FoundryToEncounter in Dafny

FoundryToEncounter converts a Foundry VTT world, module or adventure into an
EncounterPlus module. The core of that conversion is `createMap`. It turns each
Foundry scene into an EncounterPlus map. It works out the scene's offset, its rescale
to at most 8192 pixels and its grid alignment. It then moves every wall, tile, light,
token, drawing, note and sound into map pixels. The wall loop also chains wall
segments into polylines. Around `createMap` the converter does bookkeeping on the
world's records:

- it drops soft-deleted records;
- it numbers folders, journal entries and maps in name order;
- it invents map slugs, asset file names and archive paths;
- it prunes the groups nothing refers to.

It also translates compendium items, spells and monsters into EncounterPlus codes.
The helper `spritesheet.py` lays out the frames of an animated tile on one sprite
sheet.

The Dafny project models that logic on typed values:

| file | module | what it models |
|---|---|---|
| `common.dfy` | `Common` | `Option` (a key that may be absent) |
| `pynum.dfy` | `PyNum` | Python's `round` (half to even), `math.ceil`, `math.floor`, `int()` on reals |
| `text.dfy` | `Text` | `str(int)`, ASCII `lower()`, `startswith`/`endswith`/`in` on strings, `",".join`, string order |
| `sorting.dfy` | `Sorting` | `sorted(..., key=...)` as an insertion sort proved sorted and a permutation |
| `grid.dfy` | `Grid` | scene offset, the 8192 ceiling, grid realignment, hex shifts, grid fields of the map |
| `overlay.dfy` | `Overlay` | the frame change `(raw - offset) * rescale` and tiles, drawings, notes, sounds, lights |
| `walls.dfy` | `Walls` | the wall graph builder: segment matching, chaining and new walls (class `WallLayer`) |
| `tokens.dfy` | `Tokens` | token light defaults, position, size code, vision and actor reference |
| `records.dfy` | `Records` | soft-deletion filter, sort numbering, group pruning |
| `naming.dfy` | `Naming` | map slugs (class `SlugList`), asset de-duplication, pack archive paths |
| `compendium.dfy` | `Compendium` | inline rolls, item type codes, weapon properties, spell schools and components, roll-table ranges, monster speeds |
| `sprites.dfy` | `Sprites` | frame selection, `getGrid`, paste positions and the 4096 downscale of `spritesheet.py` |

Scene values are Python floats. They are modelled as exact `real`s, and every
`round`, `int()` and `math.ceil` of the source is written out. The wall loop builds
XML in place, so it is a class whose `walls` field each segment updates. The module's
slug list is a class in the same way. Loops of the source that only compute a value
are methods with loop invariants. Each such method is proved equal to a specification
function, and the source's promises are proved about that function.

A chained segment appends all four of its coordinates to the wall
(`foundrytoencounter.py:750-752`), so three chained segments give one wall with twelve
numbers (`Walls.ChainedSegmentsScenario`).

## Model

| member | source | states |
|---|---|---|
| PyNum.Floor | spritesheet.py:112-113 | `math.floor`: the greatest integer not above x |
| PyNum.Ceil | foundrytoencounter.py:280 | `math.ceil`: the least integer not below x |
| PyNum.Trunc | foundrytoencounter.py:1181 | `int()` on a float truncates toward zero: floor for non-negatives, minus the floor of the negation otherwise |
| PyNum.Round | foundrytoencounter.py:633-634 | `round` gives an integer within one half of x and breaks an exact tie toward the even integer |
| PyNum.RoundFixesIntegral | foundrytoencounter.py:633 | `round(g) == g` holds exactly when g is a whole number, the test the realign branch makes |
| PyNum.TruncPositive | foundrytoencounter.py:1181 | `int(r) > 0` exactly when r is at least 1 |
| Text.NatToString | foundrytoencounter.py:299 | `str(n)` is a non-empty string of digits, one digit long exactly when n < 10 |
| Text.ParseNatToString | foundrytoencounter.py:299 | reading the digits of `str(n)` back gives n |
| Text.NatToStringInjective | foundrytoencounter.py:299 | different numbers print differently |
| Text.Lower | foundrytoencounter.py:2127 | `lower()` keeps the length and lowers each character on its own |
| Text.LexLeTotal | foundrytoencounter.py:2199 | any two names are ordered one way or the other |
| Sorting.InsertKeepsSorted | foundrytoencounter.py:2199 | inserting into a key-sorted list keeps it sorted |
| Sorting.SortBy | foundrytoencounter.py:2199 | `sorted(..., key=...)` keeps the length and is a permutation of its input |
| Sorting.SortByIsSorted | foundrytoencounter.py:2199 | the result of `sorted` is ordered by the key |
| Sorting.SortedByPairs | foundrytoencounter.py:2199 | in a sorted list every earlier key is at most every later key |
| Sorting.SortStrings | spritesheet.py:69 | `sorted(os.listdir(...))` is a sorted permutation of the listing |
| Grid.CentredOffsetIsCellMultiple | foundrytoencounter.py:286-295 | without padding, the centred offset is a whole number of cells: `ceil(dim / (4 * grid)) * grid` |
| Grid.OffsetOnWholeCells | foundrytoencounter.py:278-297 | with or without padding, offset plus shift is a whole number of grid cells |
| Grid.FitToLimitBounds | foundrytoencounter.py:358-366 | a map within 8192 keeps its size and rescale 1; a larger one is scaled so its longer edge becomes exactly 8192 and the other does not exceed it |
| Grid.LimitScaleFits | foundrytoencounter.py:358-366 | the scale `8192 / longer` lies strictly between 0 and 1, rounds the longer side to 8192 and keeps the shorter one within it |
| Grid.RealignAsWrittenMissesHalfCell | foundrytoencounter.py:633-640 | as written, a hex grid of 100.6 px gets a realign that leaves its half cell at 50.5 px, not on a whole pixel, while the cell written out is 50 |
| Grid.RealignLandsOnWholePixels | foundrytoencounter.py:633-640 | the corrected realign scales the grid cell (the half cell for hex grids) exactly onto the whole pixel `round` gives it, and is 1 exactly when the cell is already whole |
| Grid.RealignAgrees | foundrytoencounter.py:633-638 | on square grids, and on hex grids with a whole-pixel grid, the corrected realign equals the one the code computes |
| Grid.ShiftHex | foundrytoencounter.py:641-653 | the branch method gives `HexShifted`, whose value per grid type `Grid.HexShiftedByType` states |
| Grid.HexShiftedByType | foundrytoencounter.py:641-653 | types 2-3 leave x alone and move y by +half (type 2) or -half/2 (type 3); types 4-5 move y by +half/2 and x by -half (type 4) or +half/2 (type 5); other types only stretch; both shifts are then multiplied by the realign |
| Grid.AlignGrid | foundrytoencounter.py:630-654 | grid, shift, realign and rescale after alignment equal `Aligned`, which uses the realign the code computes (`RealignAsWritten`) |
| Grid.AlignWith | foundrytoencounter.py:639-654 | once the realign is known, the hex halving and shifts give `AlignedBy` of that realign |
| Grid.AlignedCorrectedCellIsGridSize | foundrytoencounter.py:633-655 | with the corrected realign the stretched cell (half cell for hex grids) is exactly the `gridSize` written out |
| Grid.AlignedMissesGridSize | foundrytoencounter.py:633-655 | as written, hex grid type 2 of 100.6 px is stretched to a half cell of 50.5 px while `gridSize` is 50 |
| Grid.AlignedAgrees | foundrytoencounter.py:633-654 | on square grids and on whole-pixel hex grids the alignment as written equals the corrected one |
| Grid.AlignedGridRoundsLikeCell | foundrytoencounter.py:639-655 | the grid size written out is the rounded cell, and a hex grid ends up whole |
| Grid.AlignedKeepsWholeGrid | foundrytoencounter.py:633-654 | as written, a cell already on whole pixels leaves realign at 1 and the rescale unchanged |
| Grid.PointyType3Scenario | foundrytoencounter.py:633-664 | a pointy hex grid of type 3 (the even-row variant) and 100 px keeps realign 1, gets half cell 50 and a y grid offset of -25 |
| Grid.KindOf | foundrytoencounter.py:665-671 | grid types 4-5 are hexFlat, 2-3 hexPointy, anything else square |
| Grid.GridVisible | foundrytoencounter.py:659-661 | the grid is visible exactly when it is not gridless and its alpha is positive |
| Grid.CreateGrid | foundrytoencounter.py:630-671 | the grid fields of a map equal `GridOf` of the scene and its 8192 fit, aligned with the realign the code computes |
| Grid.GridOffsetXOnWholeCells | foundrytoencounter.py:278-297 | the map's x offset plus the scene's x shift is a whole number of cells |
| Grid.GridOffsetYOnWholeCells | foundrytoencounter.py:278-297 | the same on y |
| Grid.GridSizeRoundsCell | foundrytoencounter.py:655 | `gridSize` is the rounded cell of the rescaled grid |
| Overlay.UntransformTransform | foundrytoencounter.py:688-691 | the frame change `(raw - offset) * rescale` is undone by its inverse |
| Overlay.TransformUntransform | foundrytoencounter.py:688-691 | and the inverse is undone by the frame change |
| Overlay.TransformTranslates | foundrytoencounter.py:815-834 | moving a point by d moves it by `d * rescale`, and a positive rescale keeps order |
| Overlay.PixelNearest | foundrytoencounter.py:1063-1068 | a light, note or sound lands on the pixel nearest its transformed place, and exactly on it without rescale |
| Overlay.MarkerNearNote | foundrytoencounter.py:1416-1421 | a note or sound marker is within half a pixel of the note's place, and maps back to within half a pixel over the rescale |
| Overlay.TileSizeIsExtent | foundrytoencounter.py:836-841 | a tile's width is the rounded map extent of the scaled tile |
| Overlay.TileAtMiddle | foundrytoencounter.py:815-824 | a tile's x is the rounded middle of the tile's extent on the map |
| Overlay.DrawingData | foundrytoencounter.py:1365-1373 | a drawing's data has two numbers per point |
| Overlay.DrawingDataPoint | foundrytoencounter.py:1366-1372 | entries 2k and 2k+1 are point k moved by the drawing's origin into map coordinates |
| Overlay.DrawingPoints | foundrytoencounter.py:1365-1372 | the loop builds exactly `DrawingData` |
| Overlay.Configured | foundrytoencounter.py:1031-1036 | a light's `config` overrides dim, bright and alpha, and the colour whenever it has a colour key, null included |
| Overlay.LightColour | foundrytoencounter.py:1031-1058 | a config colour key wins over the flat colour, and a null or empty one gives `#ffffff`; without one the flat colour is used, and a missing or empty one gives `#ffffff` |
| Overlay.EmittedLightsCount | foundrytoencounter.py:1037-1038 | the emitted lights and the skipped animation-only ghosts together account for every light |
| Overlay.EmittedLightsAppend | foundrytoencounter.py:1024-1068 | lights are emitted one by one, in order |
| Overlay.EmittedLightsNoGhosts | foundrytoencounter.py:1031-1068 | with no ghost light, light k becomes light element k, after its config |
| Overlay.EmitLights | foundrytoencounter.py:1024-1068 | the light loop emits exactly `EmittedLights` |
| Walls.Format1 | foundrytoencounter.py:751 | `{:.1f}` keeps the sign and rounds to tenths within half a tenth |
| Walls.RenderInjective | foundrytoencounter.py:697-699 | two one-decimal numbers print the same only when they are equal, so matching printed data is matching numbers |
| Walls.Normalised | foundrytoencounter.py:683-685 | legacy `sight` becomes `sense` (20 to 1, 10 to 2, else 0) and `move` becomes 0 or 1; nothing else changes |
| Walls.PathList | foundrytoencounter.py:687-692 | the four coordinates of a segment in map space |
| Walls.NewWallClassified | foundrytoencounter.py:754-790 | a new wall's type, door state and side follow the door, move, sense, ds and dir codes, each as an if-and-only-if |
| Walls.NewWallTakesItsKind | foundrytoencounter.py:700-790 | a wall made from a segment passes the merge checks for that segment |
| Walls.JoinIndex | foundrytoencounter.py:694-753 | the index found is the first wall that ends at the segment's start and passes the checks, or none |
| Walls.ExtendChangesOneWall | foundrytoencounter.py:694-790 | a segment either extends exactly the first matching wall by its four coordinates or adds one new wall, leaving all other walls alone |
| Walls.ExtendKeepsWellFormed | foundrytoencounter.py:750-790 | every wall keeps a colour matching its type, a door child only on doors, data of whole four-number segments and its generated mark |
| Walls.JoinIndexFinds | foundrytoencounter.py:694-753 | if some wall takes the segment, the first one at or before it is chosen |
| Walls.AlikeSegmentContinues | foundrytoencounter.py:694-790 | a segment of the same kind starting where the previous one ended chains onto a wall and adds none |
| Walls.TotalDataUpdate | foundrytoencounter.py:750-752 | replacing one wall changes the total data by the difference of the two |
| Walls.ExtendAddsFour | foundrytoencounter.py:750-759 | each segment adds exactly four numbers to the total and at most one wall |
| Walls.BuiltFromNothing | foundrytoencounter.py:680-799 | building from no walls gives well-formed walls with 4 numbers per segment, at most one wall per segment, and at least one wall when there is a segment |
| Walls.WallLayer.constructor | foundrytoencounter.py:680 | a map starts with no walls |
| Walls.WallLayer.AddSegment | foundrytoencounter.py:681-799 | one loop iteration: the walls become `Placed` of the old walls and the normalised segment |
| Walls.WallLayer.AddSegments | foundrytoencounter.py:680-799 | the whole loop: the walls become `Built` of the old walls and the segments, in order |
| Walls.PlacedPlain | foundrytoencounter.py:687-692 | with the identity frame, a plain segment's path is its own coordinates |
| Walls.ChainedSegmentsScenario | foundrytoencounter.py:694-759 | three normal segments A-B, B-C, C-D give one wall with twelve numbers |
| Walls.DoorBreaksChainScenario | foundrytoencounter.py:700-715 | a door segment between two normal ones keeps the three on three walls |
| Tokens.WithLightDefaults | foundrytoencounter.py:1075-1080 | missing dim and bright lights come from `light` or 0, missing alpha from `light` or 1; present values and all other fields are kept |
| Tokens.WithLightDefaultsIdempotent | foundrytoencounter.py:1075-1080 | filling in defaults twice is filling them in once |
| Tokens.NearCentreOnAxis | foundrytoencounter.py:1115-1122 | on one axis the token marker is within one pixel of the centre of its footprint |
| Tokens.TokenNearCentre | foundrytoencounter.py:1102-1122 | on a square grid the token marker is within one pixel of the footprint's centre on both axes |
| Tokens.SizeCustomExactly | foundrytoencounter.py:1144-1163 | the size is written `WxH` exactly when width and height differ or exceed 6 |
| Tokens.SizeMonotone | foundrytoencounter.py:1144-1159 | for square tokens up to 6 cells, a larger token never gets a smaller size letter |
| Tokens.WholeCellSizes | foundrytoencounter.py:1144-1159 | 1 to 6 cells give M, L, H, G, C, C; 0.5 gives T and 0.75 gives S |
| Tokens.VisionFlags | foundrytoencounter.py:1180-1192 | the light flag is set exactly when `int` of dim or bright light is positive; the dark flag likewise for sight |
| Tokens.DarkFlagMatchesRadii | foundrytoencounter.py:1190-1198 | the dark flag is set exactly when a dark radius is positive |
| Tokens.LightFlagBelowOne | foundrytoencounter.py:1180-1188 | a dim light of 0.7 sets no light flag, though its radius rounds to 1 |
| Tokens.FirstWithId | foundrytoencounter.py:1201-1209 | the first actor whose id is the token's actor id |
| Tokens.FirstWithTokenName | foundrytoencounter.py:1210-1221 | the first actor whose token name is the token's name |
| Tokens.ResolveActor | foundrytoencounter.py:1200-1225 | the two search loops give `ActorReference` |
| Tokens.LinkedById | foundrytoencounter.py:1201-1209 | a token whose actor exists refers to the first such actor, by uuid in a compendium and by slug otherwise |
| Tokens.NameMatchOnlyInCompendium | foundrytoencounter.py:1210-1225 | outside a compendium an unlinked token refers to its own name |
| Tokens.ReferenceNamesAnActor | foundrytoencounter.py:1200-1225 | a uuid reference is only made in a compendium and always names an existing actor; a slug names the token or its linked actor |
| Records.KeepOut | foundrytoencounter.py:2149-2197 | the filter never lengthens a list |
| Records.KeepOutMembers | foundrytoencounter.py:2149-2155 | a record survives exactly when it was there and its id is not a deleted id |
| Records.KeepOutAppend | foundrytoencounter.py:2149-2155 | the filter works record by record, in order |
| Records.SurvivorsExactly | foundrytoencounter.py:2149-2197 | a record survives exactly when no deleted record of the list shares its id |
| Records.KeepOutNothing | foundrytoencounter.py:2149-2155 | with no deleted ids present, the list is unchanged |
| Records.SurvivorsIdempotent | foundrytoencounter.py:2149-2197 | no survivor is deleted, and filtering again changes nothing |
| Records.RunningMaxBounds | foundrytoencounter.py:2201-2220 | the new maxorder is at least the old, at least every sort that may raise it, and is the old one or one of the sorts |
| Records.Numbered | foundrytoencounter.py:2198-2221 | numbering keeps the number of records |
| Records.NumberedExactly | foundrytoencounter.py:2199-2212 | record i of the name-sorted list gets sort i+1 when it had none, keeps its own otherwise, plus the handout order for a journal entry |
| Records.NumberedSnoc | foundrytoencounter.py:2198-2221 | numbering one more record appends it and leaves the others alone |
| Records.RunningMaxSnoc | foundrytoencounter.py:2201-2202 | one more record raises the maximum exactly when its sort may raise it |
| Records.AssignSorts | foundrytoencounter.py:2198-2221 | the loop gives the name-sorted records numbered, and the running maximum over them |
| Records.NonGroupsSnoc | foundrytoencounter.py:2654-2670 | the non-group children grow record by record |
| Records.NonGroupsWithout | foundrytoencounter.py:2667 | removing a group leaves every other child in order |
| Records.Pass | foundrytoencounter.py:2655-2668 | one pass keeps every non-group child, shortens the module when it removes something, and leaves it alone with every group in use otherwise |
| Records.Pruned | foundrytoencounter.py:2654-2670 | after pruning every non-group child remains and every remaining group is in use |
| Records.PrunePass | foundrytoencounter.py:2655-2668 | the for loop computes `Pass` |
| Records.PruneGroups | foundrytoencounter.py:2654-2670 | the `while True` loop computes `Pruned` |
| Records.NonGroupsExactly | foundrytoencounter.py:2654-2670 | a child is a kept non-group exactly when it is a non-group child |
| Records.PassKeepsReferenced | foundrytoencounter.py:2656-2666 | a pass never removes a group that a page, map or asset names as its parent |
| Records.ReferencedGroupSurvives | foundrytoencounter.py:2654-2670 | such a group survives pruning |
| Naming.CandidateInjective | foundrytoencounter.py:2135-2142 | different counters give different candidate names |
| Naming.TakenShrinks | foundrytoencounter.py:2131-2139 | each taken candidate tried leaves fewer taken ones ahead, so the search ends |
| Naming.CountContaining | foundrytoencounter.py:299 | the count of earlier slugs containing the base is at most their number |
| Naming.SlugsAsWritten | foundrytoencounter.py:298-300 | one slug per map |
| Naming.XRunSlugs | foundrytoencounter.py:298-300 | a map slugged `x1` then n maps slugged `x` get `x10`, then `x1` to `xn` |
| Naming.MapSlugCollides | foundrytoencounter.py:298-300 | as written, the tenth `x` map gets `x10` again, the slug of the first map |
| Naming.FreeIndex | foundrytoencounter.py:2129-2139 | the counter found is at least where the search starts and its candidate is free |
| Naming.FreeIndexLeast | foundrytoencounter.py:2131-2139 | every counter skipped over names a taken file |
| Naming.MapSlugFresh | foundrytoencounter.py:298-300 | the corrected slug is never an earlier slug, starts with the base, and is the written one whenever that is free |
| Naming.MapSlugAvoidsCollision | foundrytoencounter.py:298-300 | on the same run the corrected tenth `x` map gets `x11` |
| Naming.SlugList.constructor | foundrytoencounter.py:298-300 | a module starts with no slugs |
| Naming.SlugList.AddMapSlug | foundrytoencounter.py:298-300 | a new map's slug is the corrected slug, it is appended, and the slugs stay distinct |
| Naming.LowerCandidate | foundrytoencounter.py:2135-2142 | lowering `stem + str(k) + ext` is the candidate made from the lowered stem and extension |
| Naming.DedupName | foundrytoencounter.py:2126-2144 | the asset's new name is not taken; it is the lowered name when that is free, else the first free numbered name from 1 |
| Naming.PackPathUnderTopDirectory | foundrytoencounter.py:1675-1685 | when the archive has entries under its top directory, the pack path ends up under it |
| Naming.PackPathPlain | foundrytoencounter.py:1675-1685 | a plain relative path in an archive with neither directory is left alone |
| Naming.PackPathRelative | foundrytoencounter.py:1675-1677 | an absolute path loses its leading slash |
| Compendium.FixRollShowsExpression | foundrytoencounter.py:269-273 | an inline roll becomes a `/roll/` link whose target starts with the expression and whose text is the expression, with the caption as a second path part when there is one |
| Compendium.ConsumableCodes | foundrytoencounter.py:2879-2892 | P, WD, SC and A exactly for potion, wand, scroll and ammo; G for anything else |
| Compendium.ArmorCodes | foundrytoencounter.py:2893-2906 | LA, MA, HA, S and G exactly for their armour types; AA for anything else |
| Compendium.WeaponCodes | foundrytoencounter.py:2909-2919 | R and M for ranged and melee weapons, ST for staffs, WW otherwise, each as an if-and-only-if |
| Compendium.PropertyCodeInverse | foundrytoencounter.py:2924-2943 | a property key maps to a code exactly when that code maps back to the key |
| Compendium.PropertyCodes | foundrytoencounter.py:2920-2943 | there is at most one code per property; `PropertyCodesCount`, `PropertyCodesSound` and `PropertyCodesComplete` state its contents |
| Compendium.PropertyCodesCount | foundrytoencounter.py:2920-2943 | there is exactly one code per set, known property |
| Compendium.PropertyCodesComplete | foundrytoencounter.py:2920-2943 | every set, known property is printed, and its code sits after those of the set, known properties before it, so the codes follow the order of the properties |
| Compendium.WeaponProperties | foundrytoencounter.py:2920-2944 | the loop gives `PropertyCodes`, that is one code per set, known property in order, and joins them with commas |
| Compendium.PropertyCodesSound | foundrytoencounter.py:2921-2943 | every code comes from a property that is set |
| Compendium.SchoolLetters | foundrytoencounter.py:2820-2822 | a known school's letter maps back to it; an unknown school is written as it is |
| Compendium.ComponentStep | foundrytoencounter.py:2836-2849 | one component adds at most one entry |
| Compendium.ComponentStepExactly | foundrytoencounter.py:2836-2849 | a selected key adds its entry, and an `M` uses the material description once more |
| Compendium.Components | foundrytoencounter.py:2835-2849 | at most one entry per component key; `ComponentsExactly` states the entries |
| Compendium.ComponentsDescribed | foundrytoencounter.py:2835-2849 | the entries are those of the selected keys, and the material description has been used once per `M` |
| Compendium.DescribedAt | foundrytoencounter.py:2840-2849 | entry k belongs to selected key k |
| Compendium.ComponentsExactly | foundrytoencounter.py:2835-2849 | one entry per set key other than value, ritual and concentration, in order: the upper-cased initial, except that with a material an `M` entry is `M (<material>)` carrying the consumed note once for each `M` so far, and the description ends with one note per `M` |
| Compendium.SpellComponents | foundrytoencounter.py:2835-2850 | the loop gives `Components`, whose entries `ComponentsExactly` states, and joins them with commas |
| Compendium.ComponentsScenario | foundrytoencounter.py:2835-2850 | vocal, a consumed material and ritual give `V` and `M (<material>, which the spell consumes)` |
| Compendium.RangeLabelRoundTrip | foundrytoencounter.py:2524-2528 | a roll-table range label reads back as its two ends |
| Compendium.SpeedList | foundrytoencounter.py:3036-3045 | the loop gives `Speeds` and joins them with `, ` |
| Compendium.SpeedsSplit | foundrytoencounter.py:3038-3044 | the speeds are the walk entries, last first, followed by the other movements in order |
| Compendium.SpeedsStartWithWalk | foundrytoencounter.py:3041-3042 | with a walking speed, the list starts with the last walk entry |
| Sprites.Matching | spritesheet.py:69-71 | the frames kept are entries of the listing that match the frame pattern |
| Sprites.FrameFileNameMatches | spritesheet.py:26-70 | the name ffmpeg writes for frame k matches the pattern exactly when k < 100000 |
| Sprites.SelectFrames | spritesheet.py:68-71 | the loop keeps the matching names of the sorted listing |
| Sprites.MatchingSorted | spritesheet.py:69-71 | the frames stay sorted |
| Sprites.MatchingCounts | spritesheet.py:69-71 | each matching name occurs as often as in the listing, any other name never |
| Sprites.SelectedFrames | spritesheet.py:68-71 | the frames are exactly the listing's frame files, sorted |
| Sprites.DivisorsBelowExactly | spritesheet.py:74-79 | the factor loop collects, increasing, exactly the divisors below its bound |
| Sprites.DivisorsAreDivisors | spritesheet.py:74-79 | `factors` is increasing, holds exactly the divisors of n, and holds 1 and n |
| Sprites.GetGrid | spritesheet.py:73-85 | the grid is the two middle divisors, swapped when the sheet would pass 4096; both are at least 1 |
| Sprites.CofactorsAreDivisorList | spritesheet.py:74-79 | the list of n / d over the divisors, reversed, is the divisor list itself |
| Sprites.DivisorPairing | spritesheet.py:80-81 | divisors at mirrored places multiply to n |
| Sprites.MiddleProductNonSquare | spritesheet.py:80-81 | for a non-square count the grid has exactly as many cells as frames |
| Sprites.MiddleProductSquare | spritesheet.py:80-81 | for a square count the columns are the root and the grid has fewer cells than frames |
| Sprites.CoveringGridFits | spritesheet.py:80-81 | with the lower middle divisor as height, the grid has exactly as many cells as frames for every count, and the height is the code's for a non-square count |
| Sprites.MiddleOrdered | spritesheet.py:80-81 | for more than one frame the middle height is below the middle width |
| Sprites.OneFrameGrid | spritesheet.py:80-81 | one frame gives a 1 x 1 grid (index -1 of a one-element list) |
| Sprites.PastePositions | spritesheet.py:88-96 | frame i is pasted at column i mod gw and row i div gw |
| Sprites.NextCell | spritesheet.py:93-96 | the px/py step moves to the next column, or to the first column of the next row |
| Sprites.PastedInsideCanvas | spritesheet.py:87-91 | every paste column is on the canvas, and a frame's row is on it exactly when its index is below the cell count |
| Sprites.Downscale | spritesheet.py:109-113 | the downscale never grows a frame |
| Sprites.ScaledSideFits | spritesheet.py:111-113 | a side scaled by `4096 / longer` and floored, times its count, fits in 4096 |
| Sprites.DownscaleFits | spritesheet.py:109-114 | after the downscale the sheet fits in 4096 x 4096, and one that already fitted is left alone |
| Sprites.SpriteSheet | spritesheet.py:14-117 | no frames is the IndexError; otherwise the sprite name and duration, a grid covering a non-square count exactly, frames pasted in order and a sheet within 4096 |

## Left out

- Image work is not modelled: PIL resizing, thumbnails, text rendering of drawings, font fallback and webm transcoding. Neither are ffmpeg/ffprobe runs, zip reading and writing, file copies, downloads and the GUI. Their results (image sizes, file listings, probe fields) become parameters.
- `uuid.uuid5` and `slugify` are taken as given functions of their text. Ids and slugs are modelled by the strings they are computed from.
- The rescale driven by the background image's own pixel size (`foundrytoencounter.py:469-481, 496-512, 598-613`) is not modelled. `Grid.AlignGrid` takes the rescale as an input, and `Grid.CreateGrid` uses the 8192 fit alone.
- Grid: the scene's grid size is positive. A grid of 0, which raises ZeroDivisionError at `foundrytoencounter.py:280` and `283`, and a negative grid are excluded by requires.
- Tokens.TokenPosition: hex-grid token offsets use `math.sqrt(3)` (`foundrytoencounter.py:1081-1101`), and irrational numbers have no exact real model. Only square and gridless maps are modelled. The token `scale /= 0.8` on flat hex maps is left out too.
- Floats are exact reals. Binary rounding of float arithmetic is not modelled, nor is `str()` of a float, except where `{:.1f}` is modelled in `Walls.Format1`.
- `Text.Lower` lowers ASCII letters only. Python's `lower()` also folds other letters.
- Naming.DedupName: `os.path.basename` and `os.path.splitext` are given as the stem and extension already split, and the pack directory listing is a set of names.
- Records.AssignSorts: the stability of `sorted` among equal names is not proved, only that the result is a sorted permutation.
- The fallback `maxorder = len(folders) + len(journal)` (`foundrytoencounter.py:2374`) and `journal = []` under `--noj` (`foundrytoencounter.py:2170`) are not modelled.
- Records.PruneGroups: the module's children are a flat list. The nesting of ElementTree's `iter` over the whole tree is not modelled.
- Item fields other than the type code and properties are not modelled: `ac`, weight, rarity, `{:g}` prices, damage and monster CR.
- Compendium.SpeedList: movement values are integers. A value of 0 is skipped like any falsy value, and a boolean `hover` flag is not modelled.
- Compendium.ComponentStep: an empty component key that is set, which raises IndexError at `component[0]`, is excluded by a requires. An empty key that is not set is allowed, as in the code.
- Compendium.Components: the `upper()` of a key's first letter folds ASCII letters only, so an `M` entry comes from keys starting with `m` or `M`.
- Grid.AlignGrid: the map pipeline (`Grid.Aligned`, `Grid.CreateGrid`) keeps the realign the code computes, with the half-cell mismatch listed under Findings. The corrected realign is stated in `Grid.AlignedCorrected` and not fed into the map fields.
- Sprites.GetGrid: keeps the code's middle divisors, with too few cells for a square count of frames (see Findings). The corrected height is `Sprites.CoveringHeight`.
- Compendium.RangeLabelRoundTrip: range ends are natural numbers.
- Progress output on stderr and the GUI worker's log are left out.

## Findings

| source | as written | input that shows it | evidently intended | confidence | as-written member | corrected member |
|---|---|---|---|---|---|---|
| foundrytoencounter.py:633-655 | for a hex grid whose size is not whole, realign is `round(grid) / grid`, and the half cell is then rounded separately | hex grid type 2, grid 100.6: realign gives a half cell of 50.5 px, while `gridSize` says 50 | realign should bring the cell actually used, the half cell on hex grids, onto whole pixels | not executed | Grid.AlignedMissesGridSize | Grid.AlignedCorrectedCellIsGridSize |
| spritesheet.py:80-81 | the sheet is `factors[len // 2]` columns by `factors[len // 2 - 1]` rows | 4 frames: divisors 1, 2, 4 give a 2 x 1 grid, so frames 2 and 3 are pasted below the canvas | the grid has one cell per frame, the root by the root for a square count | not executed | Sprites.MiddleProductSquare | Sprites.CoveringGridFits |
| foundrytoencounter.py:298-300 | a map slug is its base slug plus the number of earlier slugs that contain that base | a map slugged `x1`, then ten maps slugged `x`: the first gets `x10`, and so does the tenth `x` map | every map gets a slug no earlier map has | not executed | Naming.MapSlugCollides | Naming.SlugList.AddMapSlug |
