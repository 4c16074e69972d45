/** The per-cell choice of `draw`: which element shows on a cell. */
module Draw {
  import opened Geometry
  import opened Elements
  import opened Turn

  /** Some element of `s` is on `p`, whatever its kind. */
  predicate Occupied(s: seq<Element>, p: Pos) {
    exists i :: 0 <= i < |s| && s[i].pos == p
  }

  /** `i` is the index of the first element of `s` on `p`. */
  predicate FirstOn(s: seq<Element>, p: Pos, i: int) {
    0 <= i < |s| && s[i].pos == p && forall j :: 0 <= j < i ==> s[j].pos != p
  }

  /** The character `draw` prints for cell (x, y): the first object there,
      otherwise the first stage element there, otherwise a blank. */
  function CellPic(stage: seq<Element>, objects: seq<Element>, x: int, y: int): (c: char)
    ensures Occupied(objects, Pos(x, y)) ==>
      exists i :: FirstOn(objects, Pos(x, y), i) && c == objects[i].pic
    ensures !Occupied(objects, Pos(x, y)) && Occupied(stage, Pos(x, y)) ==>
      exists i :: FirstOn(stage, Pos(x, y), i) && c == stage[i].pic
    ensures !Occupied(objects, Pos(x, y)) && !Occupied(stage, Pos(x, y)) ==> c == ' '
  {
    match FindFirst(objects, (e: Element) => e.pos.x == x && e.pos.y == y)
    case Some(i) => objects[i].pic
    case None =>
      match FindFirst(stage, (e: Element) => e.pos.x == x && e.pos.y == y)
      case Some(i) => stage[i].pic
      case None => ' '
  }

  /** Every object is the player or a box. */
  predicate ObjectKinds(objects: seq<Element>) {
    forall i :: 0 <= i < |objects| ==> objects[i].pic == PLAYER || objects[i].pic == BOX
  }

  /** Every stage element is a wall or a target. */
  predicate StageKinds(stage: seq<Element>) {
    forall i :: 0 <= i < |stage| ==> stage[i].pic == WALL || stage[i].pic == TARGET
  }

  /** In a consistent world a box is drawn as a box, also when it stands on
      a target: objects occlude the stage. */
  lemma BoxOccludesStage(stage: seq<Element>, objects: seq<Element>, p: Pos)
    requires Consistent(stage, objects) && ObjectKinds(objects)
    requires HasBox(objects, p)
    ensures CellPic(stage, objects, p.x, p.y) == BOX
  {
    var q := Pos(p.x, p.y);
    var b :| 0 <= b < |objects| && IsBoxAt(objects[b], p);
    assert Occupied(objects, q) by { assert objects[b].pos == q; }
    var c := CellPic(stage, objects, p.x, p.y);
    var i :| FirstOn(objects, q, i) && c == objects[i].pic;
    assert 0 <= i < |objects| && objects[i].pos == objects[b].pos;
  }

  /** In a consistent world the player is drawn where it stands. */
  lemma PlayerShown(stage: seq<Element>, objects: seq<Element>, k: nat)
    requires Consistent(stage, objects) && ObjectKinds(objects)
    requires k < |objects| && objects[k].pic == PLAYER
    ensures CellPic(stage, objects, objects[k].pos.x, objects[k].pos.y) == PLAYER
  {
    var p := objects[k].pos;
    var q := Pos(p.x, p.y);
    assert Occupied(objects, q) by { assert objects[k].pos == q; }
    var c := CellPic(stage, objects, p.x, p.y);
    var i :| FirstOn(objects, q, i) && c == objects[i].pic;
    assert 0 <= i < |objects| && objects[i].pos == objects[k].pos;
  }

  /** A target with no object on it and no wall under it is drawn as a
      target. */
  lemma BareTargetShown(stage: seq<Element>, objects: seq<Element>, p: Pos)
    requires StageKinds(stage)
    requires !Occupied(objects, p) && HasTarget(stage, p) && !HasWall(stage, p)
    ensures CellPic(stage, objects, p.x, p.y) == TARGET
  {
    var q := Pos(p.x, p.y);
    var t :| 0 <= t < |stage| && IsTargetAt(stage[t], p);
    assert Occupied(stage, q) by { assert stage[t].pos == q; }
    var c := CellPic(stage, objects, p.x, p.y);
    assert !Occupied(objects, q);
    var i :| FirstOn(stage, q, i) && c == stage[i].pic;
    assert 0 <= i < |stage| && stage[i].pos == p;
    assert !IsWallAt(stage[i], p);
  }
}
