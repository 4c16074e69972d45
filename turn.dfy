/** Turn resolution (`update_game`): one keystroke against the static stage
    (walls and targets) and the mutable objects (the player and the boxes). */
module Turn {
  import opened Geometry
  import opened Elements

  /** What one call reports: whether the key was consumed (the caller
      redraws), whether the session ends, and the objects afterwards. */
  datatype Outcome = Outcome(consumed: bool, quit: bool, objects: seq<Element>)

  /** The win condition: every box stands on some target (vacuously true
      when there is no box). */
  predicate BoxesOnTargets(stage: seq<Element>, objects: seq<Element>) {
    forall i :: 0 <= i < |objects| && objects[i].pic == BOX ==> HasTarget(stage, objects[i].pos)
  }

  /** `objects` with element `i` moved to `p`, its kind kept. */
  function MoveTo(objects: seq<Element>, i: nat, p: Pos): (r: seq<Element>)
    requires i < |objects|
    ensures |r| == |objects| && r[i] == Element(objects[i].pic, p)
    ensures forall j :: 0 <= j < |objects| && j != i ==> r[j] == objects[j]
  {
    objects[i := Element(objects[i].pic, p)]
  }

  /** The cell the (first) player would step into. */
  function Ahead(input: char, objects: seq<Element>): Pos
    requires FindPlayer(objects).Some?
  {
    ChangePos(input, objects[FindPlayer(objects).value].pos)
  }

  /** The specification of `update_game`. Keys are filtered first (`q`
      quits, anything but `w`/`a`/`s`/`d` is ignored), a missing player ends
      the session, a wall ahead blocks the turn, a box ahead is pushed one
      cell when the cell beyond holds neither wall nor box, and after any
      move that was not blocked by a wall the win condition is evaluated. */
  function Resolve(input: char, stage: seq<Element>, objects: seq<Element>): (r: Outcome)
    ensures |r.objects| == |objects|
    ensures forall i :: 0 <= i < |objects| ==> r.objects[i].pic == objects[i].pic
    ensures r.consumed <==> IsMoveKey(input) && FindPlayer(objects).Some?
    ensures !r.consumed ==> r.objects == objects
    ensures !r.consumed ==> (r.quit <==> input == QUIT_KEY || IsMoveKey(input))
    ensures r.quit && r.consumed ==> BoxesOnTargets(stage, r.objects)
  {
    if input == QUIT_KEY then Outcome(false, true, objects)
    else if !IsMoveKey(input) then Outcome(false, false, objects)
    else match FindPlayer(objects)
      case None => Outcome(false, true, objects)
      case Some(pi) =>
        var dest := ChangePos(input, objects[pi].pos);
        if GetWall(stage, dest).Some? then Outcome(true, false, objects)
        else
          var moved :=
            match GetBox(objects, dest)
            case Some(bi) =>
              var boxDest := ChangePos(input, objects[bi].pos);
              if GetWall(stage, boxDest).None? && GetBox(objects, boxDest).None?
              then MoveTo(MoveTo(objects, bi, boxDest), pi, dest)
              else objects
            case None => MoveTo(objects, pi, dest);
          Outcome(true, BoxesOnTargets(stage, moved), moved)
  }

  /** A movement key whose step runs into a wall is consumed, moves
      nothing and never ends the session. */
  lemma WallBlocksTurn(input: char, stage: seq<Element>, objects: seq<Element>)
    requires IsMoveKey(input) && FindPlayer(objects).Some?
    requires HasWall(stage, Ahead(input, objects))
    ensures Resolve(input, stage, objects) == Outcome(true, false, objects)
  {
  }

  /** The push rule: with a box ahead, the first such box and the player
      both advance one step when the cell beyond the box holds neither a
      wall nor a box; otherwise nothing moves. */
  lemma PushRule(input: char, stage: seq<Element>, objects: seq<Element>, bi: nat)
    requires IsMoveKey(input) && FindPlayer(objects).Some?
    requires !HasWall(stage, Ahead(input, objects))
    requires GetBox(objects, Ahead(input, objects)) == Some(bi)
    ensures var r := Resolve(input, stage, objects);
      var pi := FindPlayer(objects).value;
      var beyond := ChangePos(input, Ahead(input, objects));
      && r.consumed
      && bi != pi
      && (if !HasWall(stage, beyond) && !HasBox(objects, beyond) then
            && r.objects[pi].pos == ChangePos(input, objects[pi].pos)
            && r.objects[bi].pos == ChangePos(input, objects[bi].pos)
            && forall j :: 0 <= j < |objects| && j != pi && j != bi ==> r.objects[j] == objects[j]
          else r.objects == objects)
  {
  }

  /** With neither wall nor box ahead, only the player moves, by one step. */
  lemma WalkRule(input: char, stage: seq<Element>, objects: seq<Element>)
    requires IsMoveKey(input) && FindPlayer(objects).Some?
    requires !HasWall(stage, Ahead(input, objects)) && !HasBox(objects, Ahead(input, objects))
    ensures var r := Resolve(input, stage, objects);
      var pi := FindPlayer(objects).value;
      && r.consumed
      && r.objects[pi].pos == Ahead(input, objects)
      && forall j :: 0 <= j < |objects| && j != pi ==> r.objects[j] == objects[j]
  {
  }

  /** After a move that a wall did not block, the session ends exactly
      when every box is on a target. */
  lemma WinRule(input: char, stage: seq<Element>, objects: seq<Element>)
    requires IsMoveKey(input) && FindPlayer(objects).Some?
    requires !HasWall(stage, Ahead(input, objects))
    ensures var r := Resolve(input, stage, objects);
      r.consumed && (r.quit <==> BoxesOnTargets(stage, r.objects))
  {
  }

  /** Frame of a turn: every object either keeps its place or advances one
      step in the key's direction, and only the first player and the first
      box on the cell ahead can be the ones that advance. */
  lemma {:induction false} TurnFrame(input: char, stage: seq<Element>, objects: seq<Element>)
    ensures var r := Resolve(input, stage, objects);
      forall i :: 0 <= i < |objects| && r.objects[i] != objects[i] ==>
        && r.objects[i] == Element(objects[i].pic, ChangePos(input, objects[i].pos))
        && FindPlayer(objects).Some?
        && (i == FindPlayer(objects).value || GetBox(objects, Ahead(input, objects)) == Some(i))
  {
    var r := Resolve(input, stage, objects);
    if r.consumed {
      var pi := FindPlayer(objects).value;
      var dest := Ahead(input, objects);
      if !HasWall(stage, dest) {
        match GetBox(objects, dest)
        case Some(bi) => PushRule(input, stage, objects, bi);
        case None => WalkRule(input, stage, objects);
      }
    }
  }

  /** No two boxes share a cell. */
  predicate BoxesApart(objects: seq<Element>) {
    forall i, j :: 0 <= i < j < |objects| && objects[i].pic == BOX && objects[j].pic == BOX ==>
      objects[i].pos != objects[j].pos
  }

  /** Some element is the player. */
  predicate HasPlayer(objects: seq<Element>) {
    exists i :: 0 <= i < |objects| && objects[i].pic == PLAYER
  }

  /** At most one element is the player. */
  predicate SinglePlayer(objects: seq<Element>) {
    forall i, j :: 0 <= i < |objects| && 0 <= j < |objects| && objects[i].pic == PLAYER && objects[j].pic == PLAYER ==>
      i == j
  }

  /** The player shares a cell with no box. */
  predicate PlayerOffBoxes(objects: seq<Element>) {
    forall i, j :: 0 <= i < |objects| && 0 <= j < |objects| && objects[i].pic == PLAYER && objects[j].pic == BOX ==>
      objects[i].pos != objects[j].pos
  }

  /** Neither the player nor a box stands on a wall. */
  predicate OffWalls(stage: seq<Element>, objects: seq<Element>) {
    forall i :: 0 <= i < |objects| && (objects[i].pic == PLAYER || objects[i].pic == BOX) ==>
      !HasWall(stage, objects[i].pos)
  }

  /** The play-time invariant of the world. */
  predicate Consistent(stage: seq<Element>, objects: seq<Element>) {
    && HasPlayer(objects) && SinglePlayer(objects)
    && BoxesApart(objects) && PlayerOffBoxes(objects) && OffWalls(stage, objects)
  }

  /** A successful push keeps the world consistent: the box lands on a
      cell free of walls and boxes, and the player takes the box's cell. */
  lemma PushKeepsConsistent(stage: seq<Element>, objects: seq<Element>, pi: nat, bi: nat, dest: Pos, beyond: Pos)
    requires Consistent(stage, objects)
    requires pi < |objects| && objects[pi].pic == PLAYER
    requires bi < |objects| && IsBoxAt(objects[bi], dest)
    requires !HasWall(stage, dest) && !HasWall(stage, beyond) && !HasBox(objects, beyond)
    ensures Consistent(stage, MoveTo(MoveTo(objects, bi, beyond), pi, dest))
  {
    var after := MoveTo(MoveTo(objects, bi, beyond), pi, dest);
    // `bi` is the only box on `dest`, and no box is on `beyond`
    forall j | 0 <= j < |objects| && objects[j].pic == BOX && j != bi
      ensures objects[j].pos != dest && objects[j].pos != beyond
    {
      assert !IsBoxAt(objects[j], beyond);
    }
    assert BoxesApart(after) by {
      forall i, j | 0 <= i < j < |objects| && after[i].pic == BOX && after[j].pic == BOX
        ensures after[i].pos != after[j].pos
      {
        if i != bi && j != bi {
          assert after[i] == objects[i] && after[j] == objects[j];
        }
      }
    }
    assert PlayerOffBoxes(after) by {
      forall i, j | 0 <= i < |objects| && 0 <= j < |objects| && after[i].pic == PLAYER && after[j].pic == BOX
        ensures after[i].pos != after[j].pos
      {
        assert i == pi;
        if j == bi {
          assert beyond != dest by { assert IsBoxAt(objects[bi], dest); }
        }
      }
    }
  }

  /** A plain step keeps the world consistent: the player enters a cell
      free of walls and boxes. */
  lemma WalkKeepsConsistent(stage: seq<Element>, objects: seq<Element>, pi: nat, dest: Pos)
    requires Consistent(stage, objects)
    requires pi < |objects| && objects[pi].pic == PLAYER
    requires !HasWall(stage, dest) && !HasBox(objects, dest)
    ensures Consistent(stage, MoveTo(objects, pi, dest))
  {
    var after := MoveTo(objects, pi, dest);
    forall j | 0 <= j < |objects| && objects[j].pic == BOX
      ensures objects[j].pos != dest
    {
      assert !IsBoxAt(objects[j], dest);
    }
    assert PlayerOffBoxes(after);
  }

  /** Every turn keeps the world consistent: no box enters a wall or
      another box, and the player enters neither a wall nor a box. As the
      player is never lost, the missing-player exit is never taken: every
      movement key is consumed. */
  lemma {:induction false} TurnKeepsConsistent(input: char, stage: seq<Element>, objects: seq<Element>)
    requires Consistent(stage, objects)
    ensures Consistent(stage, Resolve(input, stage, objects).objects)
    ensures IsMoveKey(input) ==> Resolve(input, stage, objects).consumed
  {
    var k :| 0 <= k < |objects| && objects[k].pic == PLAYER;
    assert FindPlayer(objects).Some?;
    if IsMoveKey(input) && FindPlayer(objects).Some? {
      var pi := FindPlayer(objects).value;
      var dest := ChangePos(input, objects[pi].pos);
      if !HasWall(stage, dest) {
        match GetBox(objects, dest)
        case Some(bi) =>
          var beyond := ChangePos(input, objects[bi].pos);
          if !HasWall(stage, beyond) && !HasBox(objects, beyond) {
            PushKeepsConsistent(stage, objects, pi, bi, dest, beyond);
          }
        case None =>
          WalkKeepsConsistent(stage, objects, pi, dest);
      }
    }
  }

  /** Every cell of the outer ring holds a wall. */
  ghost predicate BorderWalled(stage: seq<Element>) {
    forall p :: OnBorder(p) ==> HasWall(stage, p)
  }

  /** The player and the boxes are inside the ring. */
  predicate MoversInside(objects: seq<Element>) {
    forall i :: 0 <= i < |objects| && (objects[i].pic == PLAYER || objects[i].pic == BOX) ==>
      Interior(objects[i].pos)
  }

  /** A successful push keeps boxes apart and movers off walls, whatever
      else holds of the world. */
  lemma PushKeepsApart(stage: seq<Element>, objects: seq<Element>, pi: nat, bi: nat, dest: Pos, beyond: Pos)
    requires BoxesApart(objects) && OffWalls(stage, objects)
    requires pi < |objects| && objects[pi].pic == PLAYER
    requires bi < |objects| && IsBoxAt(objects[bi], dest)
    requires !HasWall(stage, dest) && !HasWall(stage, beyond) && !HasBox(objects, beyond)
    ensures var after := MoveTo(MoveTo(objects, bi, beyond), pi, dest);
      BoxesApart(after) && OffWalls(stage, after)
  {
    var after := MoveTo(MoveTo(objects, bi, beyond), pi, dest);
    forall j | 0 <= j < |objects| && objects[j].pic == BOX && j != bi
      ensures objects[j].pos != beyond
    {
      assert !IsBoxAt(objects[j], beyond);
    }
    forall i, j | 0 <= i < j < |objects| && after[i].pic == BOX && after[j].pic == BOX
      ensures after[i].pos != after[j].pos
    {
      if i != bi && j != bi {
        assert after[i] == objects[i] && after[j] == objects[j];
      }
    }
  }

  /** A plain step keeps boxes apart and movers off walls: only the player
      moves, onto a cell without a wall. */
  lemma WalkKeepsApart(stage: seq<Element>, objects: seq<Element>, pi: nat, dest: Pos)
    requires BoxesApart(objects) && OffWalls(stage, objects)
    requires pi < |objects| && objects[pi].pic == PLAYER
    requires !HasWall(stage, dest)
    ensures var after := MoveTo(objects, pi, dest);
      BoxesApart(after) && OffWalls(stage, after)
  {
  }

  /** The frame consequence of a turn on its own: if no two boxes share a
      cell and neither a box nor the player stands on a wall, the same
      holds after the turn, with no assumption about the player. */
  lemma {:induction false} ApartOffWallsKept(input: char, stage: seq<Element>, objects: seq<Element>)
    requires BoxesApart(objects) && OffWalls(stage, objects)
    ensures BoxesApart(Resolve(input, stage, objects).objects)
    ensures OffWalls(stage, Resolve(input, stage, objects).objects)
  {
    if IsMoveKey(input) && FindPlayer(objects).Some? {
      var pi := FindPlayer(objects).value;
      var dest := ChangePos(input, objects[pi].pos);
      if !HasWall(stage, dest) {
        match GetBox(objects, dest)
        case Some(bi) =>
          var beyond := ChangePos(input, objects[bi].pos);
          if !HasWall(stage, beyond) && !HasBox(objects, beyond) {
            PushKeepsApart(stage, objects, pi, bi, dest, beyond);
          }
        case None =>
          WalkKeepsApart(stage, objects, pi, dest);
      }
    }
  }

  /** Behind a complete wall ring, nothing that moves ever leaves the
      inside of the grid. */
  lemma {:induction false} TurnKeepsInside(input: char, stage: seq<Element>, objects: seq<Element>)
    requires BorderWalled(stage) && MoversInside(objects)
    ensures MoversInside(Resolve(input, stage, objects).objects)
  {
    var r := Resolve(input, stage, objects);
    TurnFrame(input, stage, objects);
    forall i | 0 <= i < |objects| && (r.objects[i].pic == PLAYER || r.objects[i].pic == BOX)
      ensures Interior(r.objects[i].pos)
    {
      if r.objects[i] != objects[i] {
        var pi := FindPlayer(objects).value;
        var dest := Ahead(input, objects);
        StepFromInteriorInGrid(input, objects[i].pos);
        if i == pi {
          assert !HasWall(stage, dest);
        } else {
          var bi := GetBox(objects, dest).value;
          PushRule(input, stage, objects, bi);
          assert !HasWall(stage, ChangePos(input, dest));
        }
      }
    }
  }

  /** The win loop of `update_game`: scans the objects and stops at the
      first box that stands on no target. */
  method AllClear(stage: seq<Element>, objects: seq<Element>) returns (isAllClear: bool)
    ensures isAllClear <==> BoxesOnTargets(stage, objects)
  {
    isAllClear := true;
    var i := 0;
    while i < |objects|
      invariant 0 <= i <= |objects|
      invariant isAllClear
      invariant forall j :: 0 <= j < i && objects[j].pic == BOX ==> HasTarget(stage, objects[j].pos)
    {
      if objects[i].pic == BOX {
        var isMetTarget := GetTarget(stage, objects[i].pos).Some?;
        if !isMetTarget {
          isAllClear := false;
          break;
        }
      }
      i := i + 1;
    }
  }

  /** `update_game`: resolves `input`, moving the player and at most one
      box of `objects` in place; the stage is read only. */
  method UpdateGame(input: char, stage: seq<Element>, objects: array<Element>) returns (consumed: bool, isQuit: bool)
    modifies objects
    ensures var r := Resolve(input, stage, old(objects[..]));
      consumed == r.consumed && isQuit == r.quit && objects[..] == r.objects
  {
    isQuit := false;
    if input == QUIT_KEY {
      isQuit := true;
      return false, isQuit;
    }
    if !IsMoveKey(input) {
      return false, isQuit;
    }
    var findPlayer := FindPlayer(objects[..]);
    if findPlayer.None? {
      isQuit := true;
      return false, isQuit;
    }
    var pi := findPlayer.value;
    var tmpPlayerPos := ChangePos(input, objects[pi].pos);
    if GetWall(stage, tmpPlayerPos).Some? {
      return true, isQuit;
    }
    var box := GetBox(objects[..], tmpPlayerPos);
    if box.Some? {
      var bi := box.value;
      var tmpBoxPos := ChangePos(input, objects[bi].pos);
      var isPushAvailable := true;
      if GetWall(stage, tmpBoxPos).Some? {
        isPushAvailable := false;
      }
      if GetBox(objects[..], tmpBoxPos).Some? {
        isPushAvailable := false;
      }
      if isPushAvailable {
        objects[bi] := Element(objects[bi].pic, tmpBoxPos);
        objects[pi] := Element(objects[pi].pic, tmpPlayerPos);
      }
    } else {
      objects[pi] := Element(objects[pi].pic, tmpPlayerPos);
    }
    var isAllClear := AllClear(stage, objects[..]);
    if isAllClear {
      isQuit := true;
    }
    return true, isQuit;
  }
}
