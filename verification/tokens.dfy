/** The token elements of a map (foundrytoencounter.py:1070-1225): light defaults,
    the square-grid centring offset, the size code, the vision flags and the
    reference to the monster the token stands for. */
module Tokens {
  import opened PyNum
  import opened Common
  import opened Overlay

  /** The `light` block of a newer token. */
  datatype TokenLight = TokenLight(dim: real, bright: real, alpha: real)

  /** A Foundry token. The three light keys of older tokens are optional; newer
      tokens carry them in `light` instead. */
  datatype Token = Token(
    id: string,
    name: string,
    actorId: string,
    x: real, y: real,
    width: real, height: real,
    dimLight: Option<real>, brightLight: Option<real>, lightAlpha: Option<real>,
    light: Option<TokenLight>,
    dimSight: real, brightSight: real,
    vision: bool)

  // ---------------------------------------------------------------------------
  // Light defaults (foundrytoencounter.py:1075-1080)

  /** The token's light after the defaults are filled in: the token's own key, else the
      `light` block's, else 0 for the radii and 1 for the opacity. */
  function WithLightDefaults(t: Token): (r: Token)
    ensures r.dimLight.Some? && r.brightLight.Some? && r.lightAlpha.Some?
    ensures t.dimLight.Some? ==> r.dimLight == t.dimLight
    ensures t.dimLight.None? ==> r.dimLight.value == (if t.light.Some? then t.light.value.dim else 0.0)
    ensures t.brightLight.Some? ==> r.brightLight == t.brightLight
    ensures t.brightLight.None? ==> r.brightLight.value == (if t.light.Some? then t.light.value.bright else 0.0)
    ensures t.lightAlpha.Some? ==> r.lightAlpha == t.lightAlpha
    ensures t.lightAlpha.None? ==> r.lightAlpha.value == (if t.light.Some? then t.light.value.alpha else 1.0)
    ensures r == t.(dimLight := r.dimLight, brightLight := r.brightLight, lightAlpha := r.lightAlpha)
  {
    var dim := if t.dimLight.Some? then t.dimLight.value else if t.light.Some? then t.light.value.dim else 0.0;
    var bright := if t.brightLight.Some? then t.brightLight.value else if t.light.Some? then t.light.value.bright else 0.0;
    var alpha := if t.lightAlpha.Some? then t.lightAlpha.value else if t.light.Some? then t.light.value.alpha else 1.0;
    t.(dimLight := Some(dim), brightLight := Some(bright), lightAlpha := Some(alpha))
  }

  /** Filling in the defaults a second time changes nothing. */
  lemma WithLightDefaultsIdempotent(t: Token)
    ensures WithLightDefaults(WithLightDefaults(t)) == WithLightDefaults(t)
  {
  }

  // ---------------------------------------------------------------------------
  // Position on a square grid (foundrytoencounter.py:1102-1104, 1115-1122)

  /** Half the token's footprint along one side, in whole pixels. */
  function CentringOffset(cells: real, grid: real): int
  {
    Round(cells * (grid / 2.0))
  }

  /** The token's marker on a square or gridless map: its corner moved into map pixels,
      then moved by half its footprint. `grid` is the map's grid after rescaling. */
  function TokenPosition(t: Token, f: Frame, grid: real): (int, int)
  {
    (Pixel(t.x, f.offsetX, f.rescale) + CentringOffset(t.width, grid),
     Pixel(t.y, f.offsetY, f.rescale) + CentringOffset(t.height, grid))
  }

  /** On one axis: a corner moved into map pixels and then by half the footprint lies
      within one pixel of the footprint's centre. */
  lemma NearCentreOnAxis(raw: real, offset: real, rescale: real, cells: real, grid: real)
    ensures Abs((Pixel(raw, offset, rescale) + CentringOffset(cells, grid)) as real
                - (Transform(raw, offset, rescale) + cells * (grid / 2.0))) <= 1.0
  {
    PixelNearest(raw, offset, rescale);
    var p, tr := Pixel(raw, offset, rescale) as real, Transform(raw, offset, rescale);
    var c := cells * (grid / 2.0);
    var o := CentringOffset(cells, grid) as real;
    assert -0.5 <= o - c <= 0.5;
    assert -0.5 <= p - tr <= 0.5;
    assert (p + o) - (tr + c) == (p - tr) + (o - c);
  }

  /** The marker lies within one pixel, on each axis, of the centre of the token's
      footprint on the map. */
  lemma TokenNearCentre(t: Token, f: Frame, grid: real)
    ensures Abs(TokenPosition(t, f, grid).0 as real
                - (Transform(t.x, f.offsetX, f.rescale) + t.width * (grid / 2.0))) <= 1.0
    ensures Abs(TokenPosition(t, f, grid).1 as real
                - (Transform(t.y, f.offsetY, f.rescale) + t.height * (grid / 2.0))) <= 1.0
  {
    NearCentreOnAxis(t.x, f.offsetX, f.rescale, t.width, grid);
    NearCentreOnAxis(t.y, f.offsetY, f.rescale, t.height, grid);
  }

  // ---------------------------------------------------------------------------
  // Size code (foundrytoencounter.py:1144-1163)

  /** The creature size letter, or the `{w}x{h}` text of a token of another shape. */
  datatype SizeCode = Tiny | Small | Medium | Large | Huge | Gargantuan | Colossal | Custom(width: real, height: real)

  function Size(w: real, h: real): SizeCode
  {
    if w == h && 1.0 <= w <= 6.0 then
      if w > 4.0 then Colossal
      else if w > 3.0 then Gargantuan
      else if w > 2.0 then Huge
      else if w > 1.0 then Large
      else Medium
    else if w == h && w < 1.0 then
      if w <= 0.5 then Tiny else Small
    else Custom(w, h)
  }

  function Letter(s: SizeCode): string
    requires !s.Custom?
  {
    match s
    case Tiny => "T"
    case Small => "S"
    case Medium => "M"
    case Large => "L"
    case Huge => "H"
    case Gargantuan => "G"
    case Colossal => "C"
  }

  /** The order of the size letters, smallest first. */
  function Rank(s: SizeCode): nat
  {
    match s
    case Tiny => 0
    case Small => 1
    case Medium => 2
    case Large => 3
    case Huge => 4
    case Gargantuan => 5
    case Colossal => 6
    case Custom(_, _) => 7
  }

  /** Only square tokens of at most six cells get a letter; every other one keeps its
      own width and height. */
  lemma SizeCustomExactly(w: real, h: real)
    ensures Size(w, h).Custom? <==> w != h || w > 6.0
    ensures Size(w, h).Custom? ==> Size(w, h) == Custom(w, h)
  {
  }

  /** A larger square token never gets a smaller letter. */
  lemma SizeMonotone(w: real, v: real)
    requires w <= v <= 6.0
    ensures Rank(Size(w, w)) <= Rank(Size(v, v))
  {
  }

  /** The letters of the whole-cell sizes: five and six cells are both colossal. */
  lemma WholeCellSizes()
    ensures Size(1.0, 1.0) == Medium && Size(2.0, 2.0) == Large && Size(3.0, 3.0) == Huge
    ensures Size(4.0, 4.0) == Gargantuan && Size(5.0, 5.0) == Colossal && Size(6.0, 6.0) == Colossal
    ensures Size(0.5, 0.5) == Tiny && Size(0.75, 0.75) == Small
  {
  }

  // ---------------------------------------------------------------------------
  // Vision (foundrytoencounter.py:1165-1198)

  datatype Vision = Vision(
    enabled: bool,
    light: bool, lightRadiusMin: int, lightRadiusMax: int, lightOpacity: real,
    dark: bool, darkRadiusMin: int, darkRadiusMax: int)

  /** The vision element of a token whose light defaults are filled in. */
  function VisionOf(t: Token): Vision
    requires t.dimLight.Some? && t.brightLight.Some? && t.lightAlpha.Some?
  {
    Vision(t.vision,
           Trunc(t.dimLight.value) > 0 || Trunc(t.brightLight.value) > 0,
           Round(t.brightLight.value), Round(t.dimLight.value), t.lightAlpha.value,
           Trunc(t.dimSight) > 0 || Trunc(t.brightSight) > 0,
           Trunc(t.brightSight), Trunc(t.dimSight))
  }

  /** The light flag is YES exactly when a light radius reaches one whole unit, and the
      dark flag exactly when a darkvision radius does. */
  lemma VisionFlags(t: Token)
    requires t.dimLight.Some? && t.brightLight.Some? && t.lightAlpha.Some?
    ensures VisionOf(t).light <==> t.dimLight.value >= 1.0 || t.brightLight.value >= 1.0
    ensures VisionOf(t).dark <==> t.dimSight >= 1.0 || t.brightSight >= 1.0
  {
    TruncPositive(t.dimLight.value);
    TruncPositive(t.brightLight.value);
    TruncPositive(t.dimSight);
    TruncPositive(t.brightSight);
  }

  /** The dark flag agrees with the printed darkvision radii. */
  lemma DarkFlagMatchesRadii(t: Token)
    requires t.dimLight.Some? && t.brightLight.Some? && t.lightAlpha.Some?
    ensures VisionOf(t).dark <==> VisionOf(t).darkRadiusMin > 0 || VisionOf(t).darkRadiusMax > 0
  {
  }

  /** The light flag does not always agree with the printed light radii: a dim radius
      of 0.7 rounds to a radius of 1 while the flag says NO. */
  lemma LightFlagBelowOne()
    ensures var t := Token("t", "t", "", 0.0, 0.0, 1.0, 1.0, Some(0.7), Some(0.0), Some(1.0), None, 0.0, 0.0, true);
      !VisionOf(t).light && VisionOf(t).lightRadiusMax == 1
  {
    var t := Token("t", "t", "", 0.0, 0.0, 1.0, 1.0, Some(0.7), Some(0.0), Some(1.0), None, 0.0, 0.0, true);
    assert Trunc(0.7) == 0;
    assert Round(0.7) == 1;
  }

  // ---------------------------------------------------------------------------
  // Actor reference (foundrytoencounter.py:1200-1225)

  /** An actor of the world: its id, name and the name its prototype token carries. */
  datatype Actor = Actor(id: string, name: string, tokenName: string)

  /** `/monster/` followed by the actor's uuid (from its id) or by a slug of a name. */
  datatype Reference = MonsterById(actorId: string) | MonsterBySlug(name: string)

  /** The first actor with the given id, or |actors| when none has it. */
  function FirstWithId(actors: seq<Actor>, id: string): (i: nat)
    ensures i <= |actors|
    ensures i < |actors| ==> actors[i].id == id
    ensures forall k :: 0 <= k < i ==> actors[k].id != id
  {
    if |actors| == 0 then 0
    else if actors[0].id == id then 0
    else 1 + FirstWithId(actors[1..], id)
  }

  /** The first actor whose prototype token has the given name, or |actors|. */
  function FirstWithTokenName(actors: seq<Actor>, name: string): (i: nat)
    ensures i <= |actors|
    ensures i < |actors| ==> actors[i].tokenName == name
    ensures forall k :: 0 <= k < i ==> actors[k].tokenName != name
  {
    if |actors| == 0 then 0
    else if actors[0].tokenName == name then 0
    else 1 + FirstWithTokenName(actors[1..], name)
  }

  /** The token's reference: the actor it links to by id, else (for a compendium) the
      first actor whose token has its name, else a slug of the token's own name. */
  function ActorReference(actors: seq<Actor>, t: Token, compendium: bool): Reference
  {
    var i := FirstWithId(actors, t.actorId);
    if i < |actors| then
      (if compendium then MonsterById(actors[i].id) else MonsterBySlug(actors[i].name))
    else if compendium && FirstWithTokenName(actors, t.name) < |actors| then
      MonsterById(actors[FirstWithTokenName(actors, t.name)].id)
    else MonsterBySlug(t.name)
  }

  /** The two scans over the actors, as the converter runs them. */
  method ResolveActor(actors: seq<Actor>, t: Token, compendium: bool) returns (r: Reference)
    ensures r == ActorReference(actors, t, compendium)
  {
    var linked := false;
    r := MonsterBySlug(t.name);
    var i := 0;
    while i < |actors|
      invariant 0 <= i <= |actors|
      invariant forall k :: 0 <= k < i ==> actors[k].id != t.actorId
    {
      if actors[i].id == t.actorId {
        r := if compendium then MonsterById(actors[i].id) else MonsterBySlug(actors[i].name);
        linked := true;
        break;
      }
      i := i + 1;
    }
    if !linked && compendium {
      var j := 0;
      while j < |actors|
        invariant 0 <= j <= |actors|
        invariant forall k :: 0 <= k < j ==> actors[k].tokenName != t.name
      {
        if actors[j].tokenName == t.name {
          r := MonsterById(actors[j].id);
          linked := true;
          break;
        }
        j := j + 1;
      }
    }
    if !linked {
      r := MonsterBySlug(t.name);
    }
  }

  /** A token linked by id always names the first actor with that id, by uuid for a
      compendium and by that actor's own name otherwise; the name match is never consulted. */
  lemma LinkedById(actors: seq<Actor>, t: Token, compendium: bool, k: nat)
    requires k < |actors| && actors[k].id == t.actorId
    ensures exists i :: (0 <= i <= k && actors[i].id == t.actorId &&
      (forall j :: 0 <= j < i ==> actors[j].id != t.actorId) &&
      ActorReference(actors, t, compendium)
        == (if compendium then MonsterById(actors[i].id) else MonsterBySlug(actors[i].name)))
  {
    var i := FirstWithId(actors, t.actorId);
    assert i <= k;
  }

  /** Outside a compendium, a token linked to no actor falls back to its own name even
      when an actor's token carries that name. */
  lemma NameMatchOnlyInCompendium(actors: seq<Actor>, t: Token)
    requires forall k :: 0 <= k < |actors| ==> actors[k].id != t.actorId
    ensures ActorReference(actors, t, false) == MonsterBySlug(t.name)
  {
    var i := FirstWithId(actors, t.actorId);
    assert i == |actors|;
  }

  /** A uuid reference is only made for a compendium and always names an actor that
      exists; a slug names the token or the actor it is linked to. */
  lemma ReferenceNamesAnActor(actors: seq<Actor>, t: Token, compendium: bool)
    ensures var r := ActorReference(actors, t, compendium);
      && (r.MonsterById? ==> compendium && exists k :: 0 <= k < |actors| && actors[k].id == r.actorId)
      && (r.MonsterBySlug? ==>
            (r.name == t.name || exists k :: 0 <= k < |actors| && actors[k].id == t.actorId && actors[k].name == r.name))
  {
    var r := ActorReference(actors, t, compendium);
    var i := FirstWithId(actors, t.actorId);
    if i < |actors| {
      assert actors[i].id == t.actorId;
    } else if compendium && FirstWithTokenName(actors, t.name) < |actors| {
      var j := FirstWithTokenName(actors, t.name);
      assert actors[j].id == r.actorId;
    }
  }
}
