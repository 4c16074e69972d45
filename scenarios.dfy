/** Plays on the fixed level: a blocked push and a winning sequence. */
module Scenarios {
  import opened Geometry
  import opened Elements
  import opened Turn
  import opened Level

  /** The keys fed to `update_game` one after another, stopping at the
      first one that ends the session; the outcome of the last call. */
  function Replay(keys: seq<char>, stage: seq<Element>, objects: seq<Element>): Outcome {
    if keys == [] then Outcome(false, false, objects)
    else
      var r := Resolve(keys[0], stage, objects);
      if r.quit || |keys| == 1 then r else Replay(keys[1..], stage, r.objects)
  }

  /** Every world reached by a run of keys from a consistent world is
      consistent and still has its player, so no turn of the run takes the
      missing-player exit. */
  lemma {:induction false} ReplayKeepsConsistent(keys: seq<char>, stage: seq<Element>, objects: seq<Element>)
    requires Consistent(stage, objects)
    ensures Consistent(stage, Replay(keys, stage, objects).objects)
    ensures FindPlayer(Replay(keys, stage, objects).objects).Some?
    decreases |keys|
  {
    if keys != [] {
      var r := Resolve(keys[0], stage, objects);
      TurnKeepsConsistent(keys[0], stage, objects);
      if !(r.quit || |keys| == 1) {
        ReplayKeepsConsistent(keys[1..], stage, r.objects);
      }
    }
    var k :| 0 <= k < |Replay(keys, stage, objects).objects| && Replay(keys, stage, objects).objects[k].pic == PLAYER;
  }

  /** The walls of a stage are exactly the border and its targets are
      exactly (2, 1) and (3, 1), as on the fixed level. */
  ghost predicate DefaultShape(stage: seq<Element>) {
    && (forall p :: HasWall(stage, p) <==> OnBorder(p))
    && (forall p :: HasTarget(stage, p) <==> p == Pos(2, 1) || p == Pos(3, 1))
  }

  /** The fixed targets over any list of walls that cover exactly the
      border give a stage of that shape. */
  lemma ShapeOverRing(walls: seq<Element>)
    requires forall p :: HasWall(walls, p) <==> OnBorder(p)
    requires forall i :: 0 <= i < |walls| ==> walls[i].pic == WALL
    ensures DefaultShape(walls + DefaultTargets())
  {
    DefaultStageWalls(walls);
    forall p ensures HasTarget(walls + DefaultTargets(), p) <==> p == Pos(2, 1) || p == Pos(3, 1) {
      HasTargetAppend(walls, DefaultTargets(), p);
      assert !HasTarget(walls, p);
      if p == Pos(2, 1) {
        assert IsTargetAt(DefaultTargets()[0], p);
      }
      if p == Pos(3, 1) {
        assert IsTargetAt(DefaultTargets()[1], p);
      }
    }
  }

  /** The stage `initialize` builds has that shape. */
  lemma DefaultStageShape()
    ensures DefaultShape(DefaultStage())
  {
    RingIsBorder();
    RingOnBorder();
    ShapeOverRing(GridWalls(STAGE_HEIGHT));
  }

  /** Replaying keys is one call after another until the session ends. */
  lemma ReplayStep(keys: seq<char>, stage: seq<Element>, objects: seq<Element>)
    requires |keys| >= 2 && !Resolve(keys[0], stage, objects).quit
    ensures Replay(keys, stage, objects) == Replay(keys[1..], stage, Resolve(keys[0], stage, objects).objects)
  {
  }

  /** One key on a stage of the fixed shape. */
  lemma PlayerSteps(stage: seq<Element>, key: char, box1: Pos, box2: Pos, from: Pos)
    requires DefaultShape(stage) && IsMoveKey(key)
    requires !OnBorder(ChangePos(key, from))
    requires ChangePos(key, from) != box1 && ChangePos(key, from) != box2
    requires !(box1 == Pos(2, 1) || box1 == Pos(3, 1)) || !(box2 == Pos(2, 1) || box2 == Pos(3, 1))
    ensures Resolve(key, stage, ObjectsAt(box1, box2, from))
      == Outcome(true, false, ObjectsAt(box1, box2, ChangePos(key, from)))
  {
    var objects := ObjectsAt(box1, box2, from);
    assert FindPlayer(objects) == Some(2) by {
      assert objects[0].pic != PLAYER && objects[1].pic != PLAYER && objects[2].pic == PLAYER;
    }
    assert !HasBox(objects, ChangePos(key, from));
    var moved := ObjectsAt(box1, box2, ChangePos(key, from));
    assert MoveTo(objects, 2, ChangePos(key, from)) == moved;
    assert !BoxesOnTargets(stage, moved) by {
      if !(box1 == Pos(2, 1) || box1 == Pos(3, 1)) {
        assert moved[0].pic == BOX && !HasTarget(stage, moved[0].pos);
      } else {
        assert moved[1].pic == BOX && !HasTarget(stage, moved[1].pos);
      }
    }
  }

  /** Pushing the box at (3, 2) left into the box at (2, 2) is refused:
      the turn is consumed and nothing moves. */
  lemma PushIntoBoxRefused(stage: seq<Element>)
    requires DefaultShape(stage)
    ensures var objects := ObjectsAt(Pos(2, 2), Pos(3, 2), Pos(4, 2));
      Resolve('a', stage, objects) == Outcome(true, false, objects)
  {
    var objects := ObjectsAt(Pos(2, 2), Pos(3, 2), Pos(4, 2));
    assert FindPlayer(objects) == Some(2) by {
      assert objects[0].pic != PLAYER && objects[1].pic != PLAYER && objects[2].pic == PLAYER;
    }
    assert GetBox(objects, Pos(3, 2)) == Some(1) by {
      assert !IsBoxAt(objects[0], Pos(3, 2)) && IsBoxAt(objects[1], Pos(3, 2));
    }
    assert HasBox(objects, Pos(2, 2)) by { assert IsBoxAt(objects[0], Pos(2, 2)); }
    assert !HasWall(stage, Pos(3, 2));
    assert !BoxesOnTargets(stage, objects) by {
      assert objects[0].pic == BOX && !HasTarget(stage, objects[0].pos);
    }
  }

  /** Scenario: from the start, `s` then `a` brings the player next to the
      box at (3, 2); pushing it left with `a` is refused because the box at
      (2, 2) is behind it, so the turn is consumed and nothing moves. */
  lemma BlockedPushOn(stage: seq<Element>)
    requires DefaultShape(stage)
    ensures Replay("saa", stage, ObjectsAt(Pos(2, 2), Pos(3, 2), Pos(5, 1)))
      == Outcome(true, false, ObjectsAt(Pos(2, 2), Pos(3, 2), Pos(4, 2)))
  {
    PlayerSteps(stage, 's', Pos(2, 2), Pos(3, 2), Pos(5, 1));
    ReplayStep("saa", stage, ObjectsAt(Pos(2, 2), Pos(3, 2), Pos(5, 1)));
    assert "saa"[1..] == "aa";
    PlayerSteps(stage, 'a', Pos(2, 2), Pos(3, 2), Pos(5, 2));
    ReplayStep("aa", stage, ObjectsAt(Pos(2, 2), Pos(3, 2), Pos(5, 2)));
    assert "aa"[1..] == "a";
    PushIntoBoxRefused(stage);
  }

  /** The blocked push, from the level `initialize` builds. */
  lemma BlockedPush()
    ensures Replay("saa", DefaultStage(), DefaultObjects())
      == Outcome(true, false, ObjectsAt(Pos(2, 2), Pos(3, 2), Pos(4, 2)))
  {
    DefaultStageShape();
    BlockedPushOn(DefaultStage());
  }

  /** Pushing the box at (3, 2) up from (3, 3) puts it on the target
      (3, 1); the other box is not on a target yet, so play goes on. */
  lemma FirstPush(stage: seq<Element>)
    requires DefaultShape(stage)
    ensures Resolve('w', stage, ObjectsAt(Pos(2, 2), Pos(3, 2), Pos(3, 3)))
      == Outcome(true, false, ObjectsAt(Pos(2, 2), Pos(3, 1), Pos(3, 2)))
  {
    var objects := ObjectsAt(Pos(2, 2), Pos(3, 2), Pos(3, 3));
    assert FindPlayer(objects) == Some(2) by {
      assert objects[0].pic != PLAYER && objects[1].pic != PLAYER && objects[2].pic == PLAYER;
    }
    assert GetBox(objects, Pos(3, 2)) == Some(1) by {
      assert !IsBoxAt(objects[0], Pos(3, 2)) && IsBoxAt(objects[1], Pos(3, 2));
    }
    assert !HasWall(stage, Pos(3, 2)) && !HasWall(stage, Pos(3, 1));
    assert !HasBox(objects, Pos(3, 1));
    var moved := ObjectsAt(Pos(2, 2), Pos(3, 1), Pos(3, 2));
    assert MoveTo(MoveTo(objects, 1, Pos(3, 1)), 2, Pos(3, 2)) == moved;
    assert !BoxesOnTargets(stage, moved) by {
      assert moved[0].pic == BOX && !HasTarget(stage, moved[0].pos);
    }
  }

  /** Pushing the box at (2, 2) up from (2, 3) puts it on the target
      (2, 1); both boxes are on targets, so the session ends. */
  lemma WinningPush(stage: seq<Element>)
    requires DefaultShape(stage)
    ensures Resolve('w', stage, ObjectsAt(Pos(2, 2), Pos(3, 1), Pos(2, 3)))
      == Outcome(true, true, ObjectsAt(Pos(2, 1), Pos(3, 1), Pos(2, 2)))
  {
    var objects := ObjectsAt(Pos(2, 2), Pos(3, 1), Pos(2, 3));
    assert FindPlayer(objects) == Some(2) by {
      assert objects[0].pic != PLAYER && objects[1].pic != PLAYER && objects[2].pic == PLAYER;
    }
    assert GetBox(objects, Pos(2, 2)) == Some(0) by {
      assert IsBoxAt(objects[0], Pos(2, 2));
    }
    assert !HasWall(stage, Pos(2, 2)) && !HasWall(stage, Pos(2, 1));
    assert !HasBox(objects, Pos(2, 1));
    var moved := ObjectsAt(Pos(2, 1), Pos(3, 1), Pos(2, 2));
    assert MoveTo(MoveTo(objects, 0, Pos(2, 1)), 2, Pos(2, 2)) == moved;
    assert BoxesOnTargets(stage, moved) by {
      assert HasTarget(stage, Pos(2, 1)) && HasTarget(stage, Pos(3, 1));
    }
  }

  /** Scenario: `ssaaw` walks round below the box at (3, 2) and pushes it
      onto (3, 1), `saw` does the same for the box at (2, 2) onto (2, 1);
      the last push clears the level and ends the session. */
  lemma WinningPlayOn(stage: seq<Element>)
    requires DefaultShape(stage)
    ensures Replay("ssaawsaw", stage, ObjectsAt(Pos(2, 2), Pos(3, 2), Pos(5, 1)))
      == Outcome(true, true, ObjectsAt(Pos(2, 1), Pos(3, 1), Pos(2, 2)))
  {
    var b1, b2 := Pos(2, 2), Pos(3, 2);
    PlayerSteps(stage, 's', b1, b2, Pos(5, 1));
    ReplayStep("ssaawsaw", stage, ObjectsAt(b1, b2, Pos(5, 1)));
    assert "ssaawsaw"[1..] == "saawsaw";
    PlayerSteps(stage, 's', b1, b2, Pos(5, 2));
    ReplayStep("saawsaw", stage, ObjectsAt(b1, b2, Pos(5, 2)));
    assert "saawsaw"[1..] == "aawsaw";
    PlayerSteps(stage, 'a', b1, b2, Pos(5, 3));
    ReplayStep("aawsaw", stage, ObjectsAt(b1, b2, Pos(5, 3)));
    assert "aawsaw"[1..] == "awsaw";
    PlayerSteps(stage, 'a', b1, b2, Pos(4, 3));
    ReplayStep("awsaw", stage, ObjectsAt(b1, b2, Pos(4, 3)));
    assert "awsaw"[1..] == "wsaw";
    FirstPush(stage);
    ReplayStep("wsaw", stage, ObjectsAt(b1, b2, Pos(3, 3)));
    assert "wsaw"[1..] == "saw";
    b2 := Pos(3, 1);
    PlayerSteps(stage, 's', b1, b2, Pos(3, 2));
    ReplayStep("saw", stage, ObjectsAt(b1, b2, Pos(3, 2)));
    assert "saw"[1..] == "aw";
    PlayerSteps(stage, 'a', b1, b2, Pos(3, 3));
    ReplayStep("aw", stage, ObjectsAt(b1, b2, Pos(3, 3)));
    assert "aw"[1..] == "w";
    WinningPush(stage);
  }

  /** The winning play, from the level `initialize` builds. */
  lemma WinningPlay()
    ensures Replay("ssaawsaw", DefaultStage(), DefaultObjects())
      == Outcome(true, true, ObjectsAt(Pos(2, 1), Pos(3, 1), Pos(2, 2)))
  {
    DefaultStageShape();
    WinningPlayOn(DefaultStage());
  }
}
