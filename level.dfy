/** Level construction (`initialize`): the wall ring, then targets, boxes
    and the player, each rejected when it collides. */
module Level {
  import opened Geometry
  import opened Elements
  import opened Turn

  // ---------------------------------------------------------------------
  // The wall ring (`create_wall`)
  // ---------------------------------------------------------------------

  /** The cells `create_wall` puts a wall on: the first and the last row,
      and the first and the last column of every other row. */
  predicate IsRingCell(x: int, y: int) {
    y == 0 || y == STAGE_HEIGHT - 1 || x == 0 || x == STAGE_WIDTH - 1
  }

  /** Walls of row `y` among its first `x` columns, left to right. */
  function RowWalls(y: int, x: nat): seq<Element> {
    if x == 0 then []
    else RowWalls(y, x - 1) + (if IsRingCell(x - 1, y) then [CreateWallElement(x - 1, y)] else [])
  }

  /** Walls of the first `y` rows, row by row: what `create_wall` emits. */
  function GridWalls(y: nat): seq<Element> {
    if y == 0 then [] else GridWalls(y - 1) + RowWalls(y - 1, STAGE_WIDTH)
  }

  /** Row-major order of cells, the order in which the ring is emitted. */
  predicate RowMajorBefore(p: Pos, q: Pos) {
    p.y < q.y || (p.y == q.y && p.x < q.x)
  }

  /** Row `y` of `create_wall` emits only walls on ring cells of that row,
      among its first `x` columns. */
  lemma {:induction false} RowWallsCells(y: int, x: nat)
    ensures forall i :: 0 <= i < |RowWalls(y, x)| ==>
      RowWalls(y, x)[i].pic == WALL && RowWalls(y, x)[i].pos.y == y
      && 0 <= RowWalls(y, x)[i].pos.x < x && IsRingCell(RowWalls(y, x)[i].pos.x, y)
  {
    if x > 0 {
      RowWallsCells(y, x - 1);
    }
  }

  /** The walls of one row are emitted left to right. */
  lemma {:induction false} RowWallsSorted(y: int, x: nat)
    ensures forall i, j :: 0 <= i < j < |RowWalls(y, x)| ==> RowWalls(y, x)[i].pos.x < RowWalls(y, x)[j].pos.x
  {
    if x > 0 {
      RowWallsSorted(y, x - 1);
      RowWallsCells(y, x - 1);
    }
  }

  /** Every ring cell among the first `x` columns of row `y` gets a wall. */
  lemma {:induction false} RowWallsComplete(y: int, x: nat)
    ensures forall c :: 0 <= c < x && IsRingCell(c, y) ==> HasWall(RowWalls(y, x), Pos(c, y))
  {
    if x > 0 {
      RowWallsComplete(y, x - 1);
      var w := RowWalls(y, x);
      var prev := RowWalls(y, x - 1);
      forall c | 0 <= c < x && IsRingCell(c, y)
        ensures HasWall(w, Pos(c, y))
      {
        if c < x - 1 {
          var i :| 0 <= i < |prev| && IsWallAt(prev[i], Pos(c, y));
          assert w[i] == prev[i];
        } else {
          assert IsWallAt(w[|w| - 1], Pos(c, y));
        }
      }
    }
  }

  /** How many walls row `y` gets among its first `x` columns. */
  lemma {:induction false} RowWallsCount(y: int, x: nat)
    requires x <= STAGE_WIDTH
    ensures |RowWalls(y, x)| ==
      if y == 0 || y == STAGE_HEIGHT - 1 then x
      else if x == 0 then 0
      else if x < STAGE_WIDTH then 1
      else 2
  {
    if x > 0 {
      RowWallsCount(y, x - 1);
    }
  }

  /** A wall element on a ring cell of one of the first `y` rows. */
  predicate WallCellAbove(e: Element, y: int) {
    e.pic == WALL && 0 <= e.pos.y < y && 0 <= e.pos.x < STAGE_WIDTH && IsRingCell(e.pos.x, e.pos.y)
  }

  /** Every element emitted for the first `y` rows is a wall on a ring cell. */
  lemma {:induction false} GridWallsCells(y: nat)
    ensures forall i :: 0 <= i < |GridWalls(y)| ==> WallCellAbove(GridWalls(y)[i], y)
  {
    if y > 0 {
      GridWallsCells(y - 1);
      var prev := GridWalls(y - 1);
      RowWallsCells(y - 1, STAGE_WIDTH);
      var row := RowWalls(y - 1, STAGE_WIDTH);
      var w := GridWalls(y);
      assert w == prev + row;
      forall i | 0 <= i < |w|
        ensures WallCellAbove(w[i], y)
      {
        if i < |prev| {
          assert w[i] == prev[i];
        } else {
          assert w[i] == row[i - |prev|];
        }
      }
    }
  }

  /** The walls of the first `y` rows are emitted in row-major order. */
  lemma {:induction false} GridWallsSorted(y: nat)
    ensures forall i, j :: 0 <= i < j < |GridWalls(y)| ==> RowMajorBefore(GridWalls(y)[i].pos, GridWalls(y)[j].pos)
  {
    if y > 0 {
      GridWallsSorted(y - 1);
      GridWallsCells(y - 1);
      RowWallsCells(y - 1, STAGE_WIDTH);
      RowWallsSorted(y - 1, STAGE_WIDTH);
      var w := GridWalls(y);
      var prev := GridWalls(y - 1);
      var row := RowWalls(y - 1, STAGE_WIDTH);
      assert w == prev + row;
      forall i, j | 0 <= i < j < |w|
        ensures RowMajorBefore(w[i].pos, w[j].pos)
      {
        if j < |prev| {
          assert w[i] == prev[i] && w[j] == prev[j];
        } else if i < |prev| {
          assert w[i] == prev[i] && w[j] == row[j - |prev|];
        } else {
          assert w[i] == row[i - |prev|] && w[j] == row[j - |prev|];
          assert row[i - |prev|].pos.x < row[j - |prev|].pos.x;
        }
      }
    }
  }

  /** Every ring cell of the first `y` rows gets a wall. */
  lemma {:induction false} GridWallsComplete(y: nat)
    ensures forall p: Pos :: 0 <= p.y < y && 0 <= p.x < STAGE_WIDTH && IsRingCell(p.x, p.y) ==> HasWall(GridWalls(y), p)
  {
    if y > 0 {
      GridWallsComplete(y - 1);
      RowWallsComplete(y - 1, STAGE_WIDTH);
      forall p: Pos | 0 <= p.y < y && 0 <= p.x < STAGE_WIDTH && IsRingCell(p.x, p.y)
        ensures HasWall(GridWalls(y), p)
      {
        HasWallAppend(GridWalls(y - 1), RowWalls(y - 1, STAGE_WIDTH), p);
        if p.y == y - 1 {
          assert HasWall(RowWalls(y - 1, STAGE_WIDTH), Pos(p.x, y - 1));
        }
      }
    }
  }

  /** The ring `create_wall` builds has 22 walls. */
  lemma BorderRingSize()
    ensures |GridWalls(STAGE_HEIGHT)| == 22
  {
    RowWallsCount(0, STAGE_WIDTH);
    RowWallsCount(1, STAGE_WIDTH);
    RowWallsCount(2, STAGE_WIDTH);
    RowWallsCount(3, STAGE_WIDTH);
    RowWallsCount(4, STAGE_WIDTH);
  }

  /** Every element of the ring `create_wall` builds is a wall on the
      border of the 8 by 5 grid. */
  lemma RingOnBorder()
    ensures forall i :: 0 <= i < |GridWalls(STAGE_HEIGHT)| ==>
      GridWalls(STAGE_HEIGHT)[i].pic == WALL && OnBorder(GridWalls(STAGE_HEIGHT)[i].pos)
  {
    GridWallsCells(STAGE_HEIGHT);
  }

  /** The ring is emitted in row-major order, so no two walls share a cell. */
  lemma RingRowMajor()
    ensures forall i, j :: 0 <= i < j < |GridWalls(STAGE_HEIGHT)| ==>
      RowMajorBefore(GridWalls(STAGE_HEIGHT)[i].pos, GridWalls(STAGE_HEIGHT)[j].pos)
  {
    GridWallsSorted(STAGE_HEIGHT);
  }

  /** A wall of the first `y` rows stands on a cell exactly when the cell
      is a ring cell of one of those rows. */
  lemma GridWallsExact(y: nat)
    ensures forall p: Pos :: (HasWall(GridWalls(y), p)
      <==> 0 <= p.y < y && 0 <= p.x < STAGE_WIDTH && IsRingCell(p.x, p.y))
  {
    GridWallsComplete(y);
    GridWallsCells(y);
    forall p: Pos | HasWall(GridWalls(y), p)
      ensures 0 <= p.y < y && 0 <= p.x < STAGE_WIDTH && IsRingCell(p.x, p.y)
    {
      var i :| 0 <= i < |GridWalls(y)| && IsWallAt(GridWalls(y)[i], p);
      assert WallCellAbove(GridWalls(y)[i], y);
    }
  }

  /** Over any number of rows whose ring cells are exactly the border,
      the walls emitted are exactly the border. The requires holds only for
      `y == STAGE_HEIGHT`, so this is `RingIsBorder` with the row count as
      a parameter: stated this way, the solver does not unfold the ring of
      the literal height element by element. */
  lemma RowsAreBorder(y: nat)
    requires forall p: Pos :: OnBorder(p) <==> 0 <= p.y < y && 0 <= p.x < STAGE_WIDTH && IsRingCell(p.x, p.y)
    ensures forall p :: HasWall(GridWalls(y), p) <==> OnBorder(p)
  {
    GridWallsExact(y);
  }

  /** A wall of the ring stands on a cell exactly when the cell is on the
      border of the grid. */
  lemma RingIsBorder()
    ensures forall p :: HasWall(GridWalls(STAGE_HEIGHT), p) <==> OnBorder(p)
  {
    RowsAreBorder(STAGE_HEIGHT);
  }

  /** `create_wall`: the nested loops over rows and columns that append a
      wall on every ring cell. */
  method CreateWall() returns (list: seq<Element>)
    ensures list == GridWalls(STAGE_HEIGHT)
  {
    list := [];
    var y := 0;
    while y < STAGE_HEIGHT
      invariant 0 <= y <= STAGE_HEIGHT
      invariant list == GridWalls(y)
    {
      var x := 0;
      while x < STAGE_WIDTH
        invariant 0 <= x <= STAGE_WIDTH
        invariant list == GridWalls(y) + RowWalls(y, x)
      {
        if y == 0 {
          list := list + [CreateWallElement(x, y)];
        } else if y == STAGE_HEIGHT - 1 {
          list := list + [CreateWallElement(x, y)];
        } else {
          if x == 0 || x == STAGE_WIDTH - 1 {
            list := list + [CreateWallElement(x, y)];
          }
        }
        x := x + 1;
      }
      y := y + 1;
    }
  }

  // ---------------------------------------------------------------------
  // Placement of targets, boxes and the player
  // ---------------------------------------------------------------------

  /** A candidate cell is rejected when a wall of `stage` is on it, or,
      when `checkBoxes` is set (the player), a box of `objects` is. */
  predicate Rejected(p: Pos, stage: seq<Element>, objects: seq<Element>, checkBoxes: bool) {
    HasWall(stage, p) || (checkBoxes && HasBox(objects, p))
  }

  /** The elements of kind `pic` placed for the candidates in order,
      skipping every rejected one. */
  function Accepted(pic: char, cands: seq<Pos>, stage: seq<Element>, objects: seq<Element>, checkBoxes: bool): (r: seq<Element>)
    ensures |r| <= |cands|
    ensures forall i :: 0 <= i < |r| ==> r[i].pic == pic
  {
    if cands == [] then []
    else
      var last := cands[|cands| - 1];
      Accepted(pic, cands[..|cands| - 1], stage, objects, checkBoxes)
        + (if Rejected(last, stage, objects, checkBoxes) then [] else [Element(pic, last)])
  }

  /** No candidate is rejected. */
  predicate NoneRejected(cands: seq<Pos>, stage: seq<Element>, objects: seq<Element>, checkBoxes: bool) {
    forall i :: 0 <= i < |cands| ==> !Rejected(cands[i], stage, objects, checkBoxes)
  }

  /** Exactly the candidates that are not rejected are placed. */
  lemma {:induction false} AcceptedMembers(pic: char, cands: seq<Pos>, stage: seq<Element>, objects: seq<Element>, checkBoxes: bool, p: Pos)
    ensures Element(pic, p) in Accepted(pic, cands, stage, objects, checkBoxes)
      <==> p in cands && !Rejected(p, stage, objects, checkBoxes)
  {
    if cands != [] {
      var init := cands[..|cands| - 1];
      AcceptedMembers(pic, init, stage, objects, checkBoxes, p);
      assert cands == init + [cands[|cands| - 1]];
    }
  }

  /** Nothing is dropped exactly when nothing is rejected. */
  lemma {:induction false} AcceptedAll(pic: char, cands: seq<Pos>, stage: seq<Element>, objects: seq<Element>, checkBoxes: bool)
    ensures |Accepted(pic, cands, stage, objects, checkBoxes)| == |cands|
      <==> NoneRejected(cands, stage, objects, checkBoxes)
  {
    if cands != [] {
      var init := cands[..|cands| - 1];
      AcceptedAll(pic, init, stage, objects, checkBoxes);
      assert forall i :: 0 <= i < |init| ==> init[i] == cands[i];
    }
  }

  /** What `initialize` leaves behind: the two vectors and its success flag. */
  datatype Built = Built(stage: seq<Element>, objects: seq<Element>, ok: bool)

  /** The specification of the placement phase of `initialize`: the walls
      are appended to the stage as they are; each target not on a wall is
      appended to the stage; each box not on a wall is appended to the
      objects; each player on neither a wall nor an already placed box is
      appended to the objects; success means that nothing was rejected. */
  function Build(stage0: seq<Element>, obj0: seq<Element>, walls: seq<Element>,
                 targets: seq<Pos>, boxes: seq<Pos>, players: seq<Pos>): Built
  {
    var walled := stage0 + walls;
    var stage := walled + Accepted(TARGET, targets, walled, [], false);
    var withBoxes := obj0 + Accepted(BOX, boxes, stage, [], false);
    Built(stage, withBoxes + Accepted(PLAYER, players, stage, withBoxes, true),
          NoneRejected(targets, walled, [], false)
          && NoneRejected(boxes, stage, [], false)
          && NoneRejected(players, stage, withBoxes, true))
  }

  /** Appending elements none of which is of kind `pic` adds no element
      of that kind. */
  lemma NoPicAdded(s: seq<Element>, extra: seq<Element>, pic: char, p: Pos)
    requires forall i :: 0 <= i < |extra| ==> extra[i].pic != pic
    ensures HasPicAt(s + extra, pic, p) <==> HasPicAt(s, pic, p)
  {
    HasPicAppend(s, extra, pic, p);
  }

  /** Appending elements that are not walls adds no wall. */
  lemma NoWallAdded(stage: seq<Element>, extra: seq<Element>, p: Pos)
    requires forall i :: 0 <= i < |extra| ==> extra[i].pic != WALL
    ensures HasWall(stage + extra, p) <==> HasWall(stage, p)
  {
    NoPicAdded(stage, extra, WALL, p);
    assert HasWall(stage + extra, p) <==> HasPicAt(stage + extra, WALL, p);
    assert HasWall(stage, p) <==> HasPicAt(stage, WALL, p);
  }

  /** Appending elements that are not boxes adds no box. */
  lemma NoBoxAdded(objects: seq<Element>, extra: seq<Element>, p: Pos)
    requires forall i :: 0 <= i < |extra| ==> extra[i].pic != BOX
    ensures HasBox(objects + extra, p) <==> HasBox(objects, p)
  {
    NoPicAdded(objects, extra, BOX, p);
    assert HasBox(objects + extra, p) <==> HasPicAt(objects + extra, BOX, p);
    assert HasBox(objects, p) <==> HasPicAt(objects, BOX, p);
  }

  /** Success is the same as every candidate having been placed. */
  lemma BuildOkIffAllPlaced(stage0: seq<Element>, obj0: seq<Element>, walls: seq<Element>,
                            targets: seq<Pos>, boxes: seq<Pos>, players: seq<Pos>)
    ensures var b := Build(stage0, obj0, walls, targets, boxes, players);
      b.ok <==> |b.stage| == |stage0| + |walls| + |targets| && |b.objects| == |obj0| + |boxes| + |players|
  {
    var walled := stage0 + walls;
    var stage := walled + Accepted(TARGET, targets, walled, [], false);
    var withBoxes := obj0 + Accepted(BOX, boxes, stage, [], false);
    AcceptedAll(TARGET, targets, walled, [], false);
    AcceptedAll(BOX, boxes, stage, [], false);
    AcceptedAll(PLAYER, players, stage, withBoxes, true);
  }

  /** One step of a placement loop: the candidate at `i` is checked against
      a stage whose walls are those of `walled`. */
  lemma AcceptedStep(pic: char, cands: seq<Pos>, i: nat, stage: seq<Element>, objects: seq<Element>, checkBoxes: bool)
    requires i < |cands|
    ensures Accepted(pic, cands[..i + 1], stage, objects, checkBoxes)
      == Accepted(pic, cands[..i], stage, objects, checkBoxes)
         + (if Rejected(cands[i], stage, objects, checkBoxes) then [] else [Element(pic, cands[i])])
    ensures NoneRejected(cands[..i + 1], stage, objects, checkBoxes)
      <==> NoneRejected(cands[..i], stage, objects, checkBoxes) && !Rejected(cands[i], stage, objects, checkBoxes)
  {
    assert cands[..i + 1][..i] == cands[..i];
  }

  /** The loop of `initialize` that copies the walls onto the stage. */
  method AppendWalls(stage0: seq<Element>, walls: seq<Element>) returns (stage: seq<Element>)
    ensures stage == stage0 + walls
  {
    stage := stage0;
    for i := 0 to |walls|
      invariant stage == stage0 + walls[..i]
    {
      stage := stage + [walls[i]];
    }
    assert walls[..|walls|] == walls;
  }

  /** The loop of `initialize` that adds each target not on a wall to the
      stage and raises the failure flag for each one on a wall. */
  method PlaceTargets(walled: seq<Element>, targets: seq<Pos>, isFail0: bool)
    returns (stage: seq<Element>, isFail: bool)
    ensures stage == walled + Accepted(TARGET, targets, walled, [], false)
    ensures isFail == (isFail0 || !NoneRejected(targets, walled, [], false))
  {
    stage := walled;
    isFail := isFail0;
    for i := 0 to |targets|
      invariant stage == walled + Accepted(TARGET, targets[..i], walled, [], false)
      invariant isFail == (isFail0 || !NoneRejected(targets[..i], walled, [], false))
    {
      var t := targets[i];
      AcceptedStep(TARGET, targets, i, walled, [], false);
      NoWallAdded(walled, Accepted(TARGET, targets[..i], walled, [], false), t);
      if GetWall(stage, t).Some? {
        isFail := true;
      } else {
        stage := stage + [CreateTargetElement(t.x, t.y)];
      }
    }
    assert targets[..|targets|] == targets;
  }

  /** The loop of `initialize` that adds each box not on a wall to the
      objects and raises the failure flag for each one on a wall. */
  method PlaceBoxes(stage: seq<Element>, obj0: seq<Element>, boxes: seq<Pos>, isFail0: bool)
    returns (objs: seq<Element>, isFail: bool)
    ensures objs == obj0 + Accepted(BOX, boxes, stage, [], false)
    ensures isFail == (isFail0 || !NoneRejected(boxes, stage, [], false))
  {
    objs := obj0;
    isFail := isFail0;
    for i := 0 to |boxes|
      invariant objs == obj0 + Accepted(BOX, boxes[..i], stage, [], false)
      invariant isFail == (isFail0 || !NoneRejected(boxes[..i], stage, [], false))
    {
      var b := boxes[i];
      AcceptedStep(BOX, boxes, i, stage, [], false);
      if GetWall(stage, b).Some? {
        isFail := true;
      } else {
        objs := objs + [CreateBoxElement(b.x, b.y)];
      }
    }
    assert boxes[..|boxes|] == boxes;
  }

  /** The loop of `initialize` that adds each player on neither a wall nor
      a placed box to the objects and raises the failure flag otherwise. */
  method PlacePlayers(stage: seq<Element>, withBoxes: seq<Element>, players: seq<Pos>, isFail0: bool)
    returns (objs: seq<Element>, isFail: bool)
    ensures objs == withBoxes + Accepted(PLAYER, players, stage, withBoxes, true)
    ensures isFail == (isFail0 || !NoneRejected(players, stage, withBoxes, true))
  {
    objs := withBoxes;
    isFail := isFail0;
    for i := 0 to |players|
      invariant objs == withBoxes + Accepted(PLAYER, players[..i], stage, withBoxes, true)
      invariant isFail == (isFail0 || !NoneRejected(players[..i], stage, withBoxes, true))
    {
      var pl := players[i];
      AcceptedStep(PLAYER, players, i, stage, withBoxes, true);
      NoBoxAdded(withBoxes, Accepted(PLAYER, players[..i], stage, withBoxes, true), pl);
      if GetWall(stage, pl).Some? {
        isFail := true;
      } else {
        if GetBox(objs, pl).Some? {
          isFail := true;
        } else {
          objs := objs + [CreatePlayerElement(pl.x, pl.y)];
        }
      }
    }
    assert players[..|players|] == players;
  }

  /** The placement phase of `initialize`: copy the walls, then insert or
      reject each target, box and player in turn under one failure flag. */
  method Populate(stage0: seq<Element>, obj0: seq<Element>, walls: seq<Element>,
                  targets: seq<Pos>, boxes: seq<Pos>, players: seq<Pos>)
    returns (stage: seq<Element>, objs: seq<Element>, isOk: bool)
    ensures Built(stage, objs, isOk) == Build(stage0, obj0, walls, targets, boxes, players)
  {
    var isFail := false;
    var walled := AppendWalls(stage0, walls);
    stage, isFail := PlaceTargets(walled, targets, isFail);
    var withBoxes;
    withBoxes, isFail := PlaceBoxes(stage, obj0, boxes, isFail);
    objs, isFail := PlacePlayers(stage, withBoxes, players, isFail);
    isOk := !isFail;
  }

  // ---------------------------------------------------------------------
  // The fixed level
  // ---------------------------------------------------------------------

  // The blueprint's candidate cells, as fed to the placement loops; the
  // elements those loops produce from them are `DefaultTargets()` and
  // `DefaultObjects()` below, and `DefaultOverRing` proves that they do.
  const DEFAULT_TARGETS: seq<Pos> := [Pos(2, 1), Pos(3, 1)]
  const DEFAULT_BOXES: seq<Pos> := [Pos(2, 2), Pos(3, 2)]
  const DEFAULT_PLAYERS: seq<Pos> := [Pos(5, 1)]

  /** The targets of the fixed level, as placed on the stage. */
  function DefaultTargets(): seq<Element> {
    [CreateTargetElement(2, 1), CreateTargetElement(3, 1)]
  }

  /** The stage of the fixed level: the ring, then its two targets. */
  function DefaultStage(): seq<Element> {
    GridWalls(STAGE_HEIGHT) + DefaultTargets()
  }

  /** The objects of the fixed level in a given position: its two boxes,
      then the player, in the order `initialize` appends them. */
  function ObjectsAt(box1: Pos, box2: Pos, player: Pos): seq<Element> {
    [CreateBoxElement(box1.x, box1.y), CreateBoxElement(box2.x, box2.y), CreatePlayerElement(player.x, player.y)]
  }

  /** The objects of the fixed level at the start. */
  function DefaultObjects(): seq<Element> {
    ObjectsAt(Pos(2, 2), Pos(3, 2), Pos(5, 1))
  }

  /** Placing the fixed blueprint's boxes and player against a stage whose
      walls are exactly the border accepts all three. */
  lemma DefaultObjectsPlaced(stage: seq<Element>)
    requires forall p :: HasWall(stage, p) <==> OnBorder(p)
    ensures Accepted(BOX, DEFAULT_BOXES, stage, [], false) == DefaultObjects()[..2]
    ensures NoneRejected(DEFAULT_BOXES, stage, [], false)
    ensures Accepted(PLAYER, DEFAULT_PLAYERS, stage, DefaultObjects()[..2], true) == [CreatePlayerElement(5, 1)]
    ensures NoneRejected(DEFAULT_PLAYERS, stage, DefaultObjects()[..2], true)
  {
    assert !HasWall(stage, Pos(2, 2)) && !HasWall(stage, Pos(3, 2)) && !HasWall(stage, Pos(5, 1));
    assert DEFAULT_BOXES[..1] == [Pos(2, 2)];
    assert [Pos(2, 2)][..0] == [];
    assert DEFAULT_PLAYERS[..0] == [];
    var boxes := DefaultObjects()[..2];
    assert !HasBox(boxes, Pos(5, 1)) by {
      assert forall i :: 0 <= i < |boxes| ==> boxes[i].pos != Pos(5, 1);
    }
  }

  /** Adding the fixed targets to walls that cover exactly the border adds
      no wall. */
  lemma DefaultStageWalls(walls: seq<Element>)
    requires forall p :: HasWall(walls, p) <==> OnBorder(p)
    ensures forall p :: HasWall(walls + DefaultTargets(), p) <==> OnBorder(p)
  {
    forall p ensures HasWall(walls + DefaultTargets(), p) <==> OnBorder(p) {
      NoWallAdded(walls, DefaultTargets(), p);
    }
  }

  /** Building the fixed blueprint into empty vectors over any wall list
      that covers exactly the border succeeds and places every element. */
  lemma DefaultOverRing(walls: seq<Element>)
    requires forall p :: HasWall(walls, p) <==> OnBorder(p)
    ensures Build([], [], walls, DEFAULT_TARGETS, DEFAULT_BOXES, DEFAULT_PLAYERS)
      == Built(walls + DefaultTargets(), DefaultObjects(), true)
  {
    assert [] + walls == walls;
    assert !HasWall(walls, Pos(2, 1)) && !HasWall(walls, Pos(3, 1));
    assert Accepted(TARGET, DEFAULT_TARGETS, walls, [], false) == DefaultTargets() by {
      assert DEFAULT_TARGETS[..1] == [Pos(2, 1)];
      assert [Pos(2, 1)][..0] == [];
    }
    DefaultStageWalls(walls);
    DefaultObjectsPlaced(walls + DefaultTargets());
    var objects := DefaultObjects();
    assert [] + objects[..2] == objects[..2];
    assert objects[..2] + [CreatePlayerElement(5, 1)] == objects;
  }

  /** The fixed level over walls that cover exactly the border is a
      consistent world enclosed by those walls. */
  lemma DefaultConsistent(walls: seq<Element>)
    requires forall p :: HasWall(walls, p) <==> OnBorder(p)
    ensures Consistent(walls + DefaultTargets(), DefaultObjects())
    ensures BorderWalled(walls + DefaultTargets()) && MoversInside(DefaultObjects())
  {
    var stage := walls + DefaultTargets();
    DefaultStageWalls(walls);
    assert DefaultObjects()[2].pic == PLAYER;
    assert !HasWall(stage, Pos(2, 2)) && !HasWall(stage, Pos(3, 2)) && !HasWall(stage, Pos(5, 1));
  }

  /** Building the fixed level into empty vectors succeeds, places every
      element, and yields a consistent world enclosed by its wall ring. */
  lemma DefaultLevel()
    ensures Build([], [], GridWalls(STAGE_HEIGHT), DEFAULT_TARGETS, DEFAULT_BOXES, DEFAULT_PLAYERS)
      == Built(DefaultStage(), DefaultObjects(), true)
    ensures Consistent(DefaultStage(), DefaultObjects())
    ensures BorderWalled(DefaultStage()) && MoversInside(DefaultObjects())
  {
    RingIsBorder();
    DefaultOverRing(GridWalls(STAGE_HEIGHT));
    DefaultConsistent(GridWalls(STAGE_HEIGHT));
  }

  /** `initialize`: builds the ring and the fixed blueprint into the given
      vectors; into empty vectors it always succeeds with the fixed level. */
  method Initialize(stage0: seq<Element>, obj0: seq<Element>) returns (stage: seq<Element>, objs: seq<Element>, ok: bool)
    ensures Built(stage, objs, ok)
      == Build(stage0, obj0, GridWalls(STAGE_HEIGHT), DEFAULT_TARGETS, DEFAULT_BOXES, DEFAULT_PLAYERS)
    ensures stage0 == [] && obj0 == [] ==>
      ok && stage == DefaultStage() && objs == DefaultObjects() && Consistent(stage, objs)
  {
    var wallList := CreateWall();
    stage, objs, ok := Populate(stage0, obj0, wallList, DEFAULT_TARGETS, DEFAULT_BOXES, DEFAULT_PLAYERS);
    if stage0 == [] && obj0 == [] {
      DefaultLevel();
    }
  }

  /** A blueprint with a target on a wall, over walls that cover the
      border: the build fails, that target is not placed, and the boxes and
      the player still are. */
  lemma TargetOnWallOverRing(walls: seq<Element>)
    requires forall p :: HasWall(walls, p) <==> OnBorder(p)
    ensures var b := Build([], [], walls, [Pos(0, 0)], DEFAULT_BOXES, DEFAULT_PLAYERS);
      !b.ok && b.stage == walls && b.objects == DefaultObjects()
  {
    assert HasWall(walls, Pos(0, 0));
    assert [] + walls == walls;
    assert [Pos(0, 0)][..0] == [];
    assert Accepted(TARGET, [Pos(0, 0)], walls, [], false) == [];
    assert walls + [] == walls;
    DefaultObjectsPlaced(walls);
    var objects := DefaultObjects();
    assert [] + objects[..2] == objects[..2];
    assert objects[..2] + [CreatePlayerElement(5, 1)] == objects;
  }

  /** The fixed level with a target moved onto the corner wall (0, 0)
      fails to build. */
  lemma TargetOnWallFails()
    ensures var b := Build([], [], GridWalls(STAGE_HEIGHT), [Pos(0, 0)], DEFAULT_BOXES, DEFAULT_PLAYERS);
      !b.ok && b.stage == GridWalls(STAGE_HEIGHT) && b.objects == DefaultObjects()
  {
    RingIsBorder();
    TargetOnWallOverRing(GridWalls(STAGE_HEIGHT));
  }
}
