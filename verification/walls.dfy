/** The wall graph builder of createMap (foundrytoencounter.py:680-799): each
    Foundry wall segment either extends the first compatible wall that ends where
    it starts, or becomes a new wall of its own. */
module Walls {
  import opened PyNum
  import opened Common
  import opened Text
  import opened Overlay

  // ---------------------------------------------------------------------------
  // One-decimal coordinates

  /** A coordinate as `{:.1f}` prints it: a sign flag and a whole number of tenths.
      Python prints the sign for every negative value, even one that rounds to zero. */
  datatype Dec1 = Dec1(negative: bool, tenths: nat)

  /** `"{:.1f}".format(x)` on an exact value: tenths rounded half to even. */
  function Format1(x: real): (d: Dec1)
    ensures d.negative <==> x < 0.0
    ensures Abs(d.tenths as real - Abs(x * 10.0)) <= 0.5
  {
    var t := Round(x * 10.0);
    Dec1(x < 0.0, if t < 0 then -t else t)
  }

  /** The text of a formatted coordinate. */
  function Render(d: Dec1): string
  {
    (if d.negative then "-" else "") + NatToString(d.tenths / 10) + "." + [DigitChar(d.tenths % 10)]
  }

  lemma DigitCharInjective(a: nat, b: nat)
    requires a < 10 && b < 10 && DigitChar(a) == DigitChar(b)
    ensures a == b
  {
  }

  /** Two coordinates print the same text exactly when they are the same Dec1, so
      comparing the printed wall data is comparing Dec1 values. */
  lemma RenderInjective(a: Dec1, b: Dec1)
    requires Render(a) == Render(b)
    ensures a == b
  {
    var sa := (if a.negative then "-" else "") + NatToString(a.tenths / 10);
    var sb := (if b.negative then "-" else "") + NatToString(b.tenths / 10);
    assert Render(a) == sa + "." + [DigitChar(a.tenths % 10)];
    assert Render(b) == sb + "." + [DigitChar(b.tenths % 10)];
    assert |sa| == |sb|;
    assert Render(a)[|Render(a)| - 1] == DigitChar(a.tenths % 10);
    assert Render(b)[|Render(b)| - 1] == DigitChar(b.tenths % 10);
    DigitCharInjective(a.tenths % 10, b.tenths % 10);
    assert sa == Render(a)[..|sa|] == Render(b)[..|sb|] == sb;
    var na, nb := NatToString(a.tenths / 10), NatToString(b.tenths / 10);
    assert IsDigit(na[0]) && IsDigit(nb[0]);
    assert a.negative == (sa[0] == '-');
    assert b.negative == (sb[0] == '-');
    if a.negative {
      assert na == sa[1..] == sb[1..] == nb;
    } else {
      assert na == sa == sb == nb;
    }
    NatToStringInjective(a.tenths / 10, b.tenths / 10);
  }

  // ---------------------------------------------------------------------------
  // Segments and walls

  /** A Foundry wall segment. `c` is its four coordinates x1, y1, x2, y2; `sight`
      is the legacy key of older scenes; an absent `dir` is 0. */
  datatype Segment = Segment(
    id: string,
    x1: real, y1: real, x2: real, y2: real,
    door: int,
    ds: int,
    dir: int,
    sight: Option<int>,
    sense: int,
    move: int)

  datatype WallType = Door | SecretDoor | Ethereal | Invisible | Terrain | Normal
  datatype DoorState = Open | Locked
  datatype Side = Left | Right

  /** A wall element of the map: its polyline data, type, colour and the optional
      door and side children. */
  datatype Wall = Wall(
    id: string,
    data: seq<Dec1>,
    wallType: WallType,
    color: string,
    door: Option<DoorState>,
    side: Option<Side>,
    generated: bool)

  /** Legacy `sight`/`move` values become the newer `sense`/`move` codes. */
  function Normalised(p: Segment): (q: Segment)
    ensures p.sight.None? ==> q == p
    ensures p.sight.Some? ==> q.move in {0, 1} && q.sense in {0, 1, 2}
    ensures p.sight.Some? ==> (q.sense == 1 <==> p.sight.value == 20) && (q.sense == 2 <==> p.sight.value == 10)
                              && (q.move == 1 <==> p.move == 20)
    ensures q.id == p.id && q.door == p.door && q.ds == p.ds && q.dir == p.dir
  {
    if p.sight.Some? then
      p.(sense := if p.sight.value == 20 then 1 else if p.sight.value == 10 then 2 else 0,
         move := if p.move == 20 then 1 else 0)
    else p
  }

  /** The segment's coordinates on the map, as they are printed into wall data. */
  function PathList(p: Segment, f: Frame): (r: seq<Dec1>)
    ensures |r| == 4
  {
    [Format1(Transform(p.x1, f.offsetX, f.rescale)), Format1(Transform(p.y1, f.offsetY, f.rescale)),
     Format1(Transform(p.x2, f.offsetX, f.rescale)), Format1(Transform(p.y2, f.offsetY, f.rescale))]
  }

  /** The printed data ends with `,x,y`: its last two tokens, with one before them. */
  predicate EndsAt(data: seq<Dec1>, x: Dec1, y: Dec1)
  {
    |data| >= 3 && data[|data| - 2] == x && data[|data| - 1] == y
  }

  /** The door checks for a door segment. */
  predicate DoorCompatible(w: Wall, p: Segment)
  {
    && !(p.door == 1 && w.wallType != Door)
    && !(p.door == 2 && w.wallType != SecretDoor)
    && (p.ds > 0 ==>
          && w.door.Some?
          && !(p.ds == 1 && w.door.value != Open)
          && !(p.ds == 2 && w.door.value != Locked))
  }

  /** The category checks for a segment that is not a door. */
  predicate KindCompatible(w: Wall, p: Segment)
  {
    && w.wallType != Door && w.wallType != SecretDoor
    && !(p.move == 0 && p.sense == 1 && w.wallType != Ethereal)
    && !(p.move == 1 && p.sense == 0 && w.wallType != Invisible)
    && !(p.move == 1 && p.sense == 2 && w.wallType != Terrain)
    && !(p.move == 1 && p.sense == 1 && w.wallType != Normal)
  }

  /** The side checks. */
  predicate SideCompatible(w: Wall, p: Segment)
  {
    && !(w.side.None? && p.dir > 0)
    && !(p.dir == 1 && w.side != Some(Left))
    && !(p.dir == 2 && w.side != Some(Right))
  }

  predicate Compatible(w: Wall, p: Segment)
  {
    (if p.door > 0 then DoorCompatible(w, p) else KindCompatible(w, p)) && SideCompatible(w, p)
  }

  /** The wall can take the segment: it ends at the segment's start, and passes the checks. */
  predicate Joins(w: Wall, p: Segment, path: seq<Dec1>)
    requires |path| == 4
  {
    EndsAt(w.data, path[0], path[1]) && Compatible(w, p)
  }

  // ---------------------------------------------------------------------------
  // New walls

  function NewWallType(p: Segment): WallType
  {
    if p.door == 1 then Door
    else if p.door == 2 then SecretDoor
    else if p.move == 0 && p.sense == 1 then Ethereal
    else if p.move == 1 && p.sense == 0 then Invisible
    else if p.move == 1 && p.sense == 2 then Terrain
    else Normal
  }

  function ColorOf(t: WallType): string
  {
    match t
    case Door => "#00ffff"
    case SecretDoor => "#00ffff"
    case Ethereal => "#7f007f"
    case Invisible => "#ff00ff"
    case Terrain => "#ffff00"
    case Normal => "#ff7f00"
  }

  function NewDoor(p: Segment): Option<DoorState>
  {
    if (p.door == 1 || p.door == 2) && p.ds > 0 then Some(if p.ds == 2 then Locked else Open) else None
  }

  function NewSide(p: Segment): Option<Side>
  {
    if p.dir > 0 then Some(if p.dir == 1 then Left else Right) else None
  }

  function NewWall(p: Segment, path: seq<Dec1>): Wall
  {
    Wall(p.id, path, NewWallType(p), ColorOf(NewWallType(p)), NewDoor(p), NewSide(p), true)
  }

  /** A new wall is typed by the first rule that applies. */
  lemma NewWallClassified(p: Segment, path: seq<Dec1>)
    ensures var w := NewWall(p, path);
      && (w.wallType == Door <==> p.door == 1)
      && (w.wallType == SecretDoor <==> p.door == 2)
      && (w.wallType == Ethereal <==> p.door != 1 && p.door != 2 && p.move == 0 && p.sense == 1)
      && (w.wallType == Invisible <==> p.door != 1 && p.door != 2 && p.move == 1 && p.sense == 0)
      && (w.wallType == Terrain <==> p.door != 1 && p.door != 2 && p.move == 1 && p.sense == 2)
      && (w.door == Some(Locked) <==> (p.door == 1 || p.door == 2) && p.ds == 2)
      && (w.side == Some(Left) <==> p.dir == 1)
      && (w.side == Some(Right) <==> p.dir > 1)
  {
  }

  /** A wall made from a segment takes a following segment of the same kind, whatever
      the asymmetries between the merge checks and the new-wall rules (as long as
      a door segment has a door code the new-wall rules know). */
  lemma NewWallTakesItsKind(p: Segment, path: seq<Dec1>)
    requires p.door <= 2 || p.ds <= 0
    ensures Compatible(NewWall(p, path), p)
  {
  }

  /** A wall is well formed: colour from type, a door child only on doors, whole
      segments of data, and marked generated. */
  predicate WellFormed(w: Wall)
  {
    && w.color == ColorOf(w.wallType)
    && (w.door.Some? ==> w.wallType == Door || w.wallType == SecretDoor)
    && |w.data| >= 4 && |w.data| % 4 == 0
    && w.generated
  }

  predicate AllWellFormed(ws: seq<Wall>)
  {
    forall k :: 0 <= k < |ws| ==> WellFormed(ws[k])
  }

  // ---------------------------------------------------------------------------
  // Placing one segment

  /** The first wall, in emission order, that takes the segment; |ws| when none does. */
  function JoinIndex(ws: seq<Wall>, p: Segment, path: seq<Dec1>): (j: nat)
    requires |path| == 4
    ensures j <= |ws|
    ensures j < |ws| ==> Joins(ws[j], p, path)
    ensures forall k :: 0 <= k < j ==> !Joins(ws[k], p, path)
    decreases |ws|
  {
    if |ws| == 0 then 0
    else if Joins(ws[0], p, path) then 0
    else 1 + JoinIndex(ws[1..], p, path)
  }

  /** The walls after a normalised segment with printed coordinates `path`: the first
      wall that takes it is extended by all four values, otherwise a new wall is added. */
  function Extend(ws: seq<Wall>, q: Segment, path: seq<Dec1>): seq<Wall>
    requires |path| == 4
  {
    var j := JoinIndex(ws, q, path);
    if j < |ws| then ws[j := ws[j].(data := ws[j].data + path)]
    else ws + [NewWall(q, path)]
  }

  /** The walls after one segment. */
  function Placed(ws: seq<Wall>, p: Segment, f: Frame): seq<Wall>
  {
    Extend(ws, Normalised(p), PathList(Normalised(p), f))
  }

  /** A segment either extends exactly the first wall that takes it, appending all four
      of its coordinates and changing nothing else, or, when no wall takes it, adds
      exactly one new wall at the end. */
  lemma ExtendChangesOneWall(ws: seq<Wall>, q: Segment, path: seq<Dec1>)
    requires |path| == 4
    ensures var r := Extend(ws, q, path);
      || (&& |r| == |ws| + 1 && r[..|ws|] == ws && r[|ws|] == NewWall(q, path)
          && forall k :: 0 <= k < |ws| ==> !Joins(ws[k], q, path))
      || (&& |r| == |ws|
          && exists j :: 0 <= j < |ws| && Joins(ws[j], q, path)
               && (forall k :: 0 <= k < j ==> !Joins(ws[k], q, path))
               && r[j] == ws[j].(data := ws[j].data + path)
               && (forall k :: 0 <= k < |ws| && k != j ==> r[k] == ws[k]))
  {
    var j := JoinIndex(ws, q, path);
    var r := Extend(ws, q, path);
    if j == |ws| {
      assert r[..|ws|] == ws;
    } else {
      assert r[j] == ws[j].(data := ws[j].data + path);
    }
  }

  lemma ExtendKeepsWellFormed(ws: seq<Wall>, q: Segment, path: seq<Dec1>)
    requires |path| == 4
    requires AllWellFormed(ws)
    ensures AllWellFormed(Extend(ws, q, path))
  {
    var j := JoinIndex(ws, q, path);
    var r := Extend(ws, q, path);
    if j < |ws| {
      var w := ws[j].(data := ws[j].data + path);
      assert |w.data| == |ws[j].data| + 4;
      assert WellFormed(w);
      forall k | 0 <= k < |r|
        ensures WellFormed(r[k])
      {
        if k != j {
          assert r[k] == ws[k];
        }
      }
    } else {
      assert WellFormed(NewWall(q, path));
      forall k | 0 <= k < |r|
        ensures WellFormed(r[k])
      {
        if k < |ws| {
          assert r[k] == ws[k];
        }
      }
    }
  }

  /** Two segments of the same kind: the codes the merge checks look at agree. */
  predicate SameKind(p: Segment, q: Segment)
  {
    p.door == q.door && p.ds == q.ds && p.dir == q.dir && p.move == q.move && p.sense == q.sense
  }

  lemma JoinIndexFinds(ws: seq<Wall>, q: Segment, path: seq<Dec1>, k: nat)
    requires |path| == 4 && k < |ws| && Joins(ws[k], q, path)
    ensures JoinIndex(ws, q, path) <= k
  {
  }

  /** A segment of the same kind that starts where the previous one ended never opens
      a new wall: the wall that took the previous segment takes it too. */
  lemma AlikeSegmentContinues(ws: seq<Wall>, q: Segment, path: seq<Dec1>, q2: Segment, path2: seq<Dec1>)
    requires |path| == 4 && |path2| == 4
    requires SameKind(q, q2) && (q.door <= 2 || q.ds <= 0)
    requires path2[0] == path[2] && path2[1] == path[3]
    ensures |Extend(Extend(ws, q, path), q2, path2)| == |Extend(ws, q, path)|
  {
    var j := JoinIndex(ws, q, path);
    var w := Extend(ws, q, path);
    if j < |ws| {
      var d := ws[j].data + path;
      assert w[j].data == d && d[|d| - 2] == path[2] && d[|d| - 1] == path[3];
      assert Joins(w[j], q2, path2);
      JoinIndexFinds(w, q2, path2, j);
    } else {
      NewWallTakesItsKind(q, path);
      assert Joins(w[|ws|], q2, path2);
      JoinIndexFinds(w, q2, path2, |ws|);
    }
  }

  /** The number of data values over all walls. */
  function TotalData(ws: seq<Wall>): nat
  {
    if |ws| == 0 then 0 else TotalData(ws[..|ws| - 1]) + |ws[|ws| - 1].data|
  }

  lemma {:induction false} TotalDataUpdate(ws: seq<Wall>, j: nat, w: Wall)
    requires j < |ws|
    ensures TotalData(ws[j := w]) + |ws[j].data| == TotalData(ws) + |w.data|
  {
    var n := |ws|;
    var r := ws[j := w];
    if j < n - 1 {
      assert r[..n - 1] == ws[..n - 1][j := w];
      TotalDataUpdate(ws[..n - 1], j, w);
    } else {
      assert r[..n - 1] == ws[..n - 1];
    }
  }

  /** Every segment adds exactly its four coordinates to the data, and at most one wall. */
  lemma ExtendAddsFour(ws: seq<Wall>, q: Segment, path: seq<Dec1>)
    requires |path| == 4
    ensures TotalData(Extend(ws, q, path)) == TotalData(ws) + 4
    ensures |ws| <= |Extend(ws, q, path)| <= |ws| + 1
  {
    var j := JoinIndex(ws, q, path);
    if j < |ws| {
      TotalDataUpdate(ws, j, ws[j].(data := ws[j].data + path));
    } else {
      assert (ws + [NewWall(q, path)])[..|ws|] == ws;
    }
  }

  // ---------------------------------------------------------------------------
  // All segments of a scene

  /** The walls after the segments, in order. */
  function Built(ws: seq<Wall>, segs: seq<Segment>, f: Frame): seq<Wall>
  {
    if |segs| == 0 then ws else Placed(Built(ws, segs[..|segs| - 1], f), segs[|segs| - 1], f)
  }

  /** From no walls, the segments give at most one wall each, all well formed, and
      their data holds exactly four values per segment. */
  lemma {:induction false} BuiltFromNothing(segs: seq<Segment>, f: Frame)
    ensures AllWellFormed(Built([], segs, f))
    ensures TotalData(Built([], segs, f)) == 4 * |segs|
    ensures |Built([], segs, f)| <= |segs|
    ensures |segs| > 0 ==> |Built([], segs, f)| >= 1
  {
    if |segs| > 0 {
      var init := segs[..|segs| - 1];
      var before := Built([], init, f);
      BuiltFromNothing(init, f);
      var q := Normalised(segs[|segs| - 1]);
      var path := PathList(q, f);
      assert Built([], segs, f) == Extend(before, q, path);
      ExtendKeepsWellFormed(before, q, path);
      ExtendAddsFour(before, q, path);
    }
  }

  /** The wall elements of one map: the part of `mapentry` the wall loop changes. */
  class WallLayer {
    var walls: seq<Wall>

    constructor()
      ensures walls == []
    {
      walls := [];
    }

    /** One iteration of the wall loop (foundrytoencounter.py:681-799). */
    method AddSegment(p: Segment, f: Frame)
      modifies this
      ensures walls == Placed(old(walls), p, f)
    {
      var q := Normalised(p);
      var path := PathList(q, f);
      var ws := walls;
      var i := 0;
      while i < |ws| && !Joins(ws[i], q, path)
        invariant 0 <= i <= |ws|
        invariant forall k :: 0 <= k < i ==> !Joins(ws[k], q, path)
      {
        i := i + 1;
      }
      if i < |ws| {
        walls := ws[i := ws[i].(data := ws[i].data + path)];
      } else {
        walls := ws + [NewWall(q, path)];
      }
    }

    /** The wall loop over all segments of a scene. */
    method AddSegments(segs: seq<Segment>, f: Frame)
      modifies this
      ensures walls == Built(old(walls), segs, f)
    {
      for i := 0 to |segs|
        invariant walls == Built(old(walls), segs[..i], f)
      {
        assert segs[..i + 1][..i] == segs[..i];
        AddSegment(segs[i], f);
      }
      assert segs[..|segs|] == segs;
    }
  }

  // ---------------------------------------------------------------------------
  // Scenes

  const Unit := Frame(0.0, 0.0, 1.0)

  /** A plain wall segment of the scene: normal, with no door, side or legacy keys. */
  function Plain(id: string, x1: nat, x2: nat, door: int): Segment
  {
    Segment(id, x1 as real, 0.0, x2 as real, 0.0, door, 0, 0, None, 1, 1)
  }

  /** The printed coordinates of a horizontal segment at whole pixels. */
  function PlainPathOf(x1: nat, x2: nat): seq<Dec1>
  {
    [Dec1(false, 10 * x1), Dec1(false, 0), Dec1(false, 10 * x2), Dec1(false, 0)]
  }

  /** On an unscaled map, placing a plain segment extends with its whole coordinates. */
  lemma PlacedPlain(ws: seq<Wall>, id: string, x1: nat, x2: nat, door: int)
    ensures Placed(ws, Plain(id, x1, x2, door), Unit) == Extend(ws, Plain(id, x1, x2, door), PlainPathOf(x1, x2))
  {
    RoundOfInt(10 * x1);
    RoundOfInt(0);
    RoundOfInt(10 * x2);
    assert PathList(Plain(id, x1, x2, door), Unit) == PlainPathOf(x1, x2);
  }

  /** Three normal segments laid end to end become one wall holding twelve values. */
  lemma ChainedSegmentsScenario()
    ensures var a, b, c := Plain("a", 0, 10, 0), Plain("b", 10, 20, 0), Plain("c", 20, 30, 0);
      var ws := Extend(Extend(Extend([], a, PlainPathOf(0, 10)), b, PlainPathOf(10, 20)), c, PlainPathOf(20, 30));
      |ws| == 1 && |ws[0].data| == 12
  {
    var a, b, c := Plain("a", 0, 10, 0), Plain("b", 10, 20, 0), Plain("c", 20, 30, 0);
    var pa, pb, pc := PlainPathOf(0, 10), PlainPathOf(10, 20), PlainPathOf(20, 30);
    var w1 := Extend([], a, pa);
    assert w1 == [NewWall(a, pa)];
    assert Joins(w1[0], b, pb);
    var w2 := Extend(w1, b, pb);
    assert w2 == [w1[0].(data := pa + pb)];
    assert Joins(w2[0], c, pc);
  }

  /** A door in the middle of a run keeps the three segments on three walls. */
  lemma DoorBreaksChainScenario()
    ensures var a, b, c := Plain("a", 0, 10, 0), Plain("b", 10, 20, 1), Plain("c", 20, 30, 0);
      |Extend(Extend(Extend([], a, PlainPathOf(0, 10)), b, PlainPathOf(10, 20)), c, PlainPathOf(20, 30))| == 3
  {
    var a, b, c := Plain("a", 0, 10, 0), Plain("b", 10, 20, 1), Plain("c", 20, 30, 0);
    var pa, pb, pc := PlainPathOf(0, 10), PlainPathOf(10, 20), PlainPathOf(20, 30);
    var w1 := Extend([], a, pa);
    assert w1 == [NewWall(a, pa)];
    assert !Joins(w1[0], b, pb);
    var w2 := Extend(w1, b, pb);
    assert w2 == [NewWall(a, pa), NewWall(b, pb)];
    assert !Joins(w2[0], c, pc);
    assert !Joins(w2[1], c, pc);
  }
}
