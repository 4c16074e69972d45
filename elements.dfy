/** The stage and object elements (`MyElement`) and the first-match
    searches the game runs over their vectors. */
module Elements {
  import opened Geometry

  const WALL: char := '#'
  const PLAYER: char := 'p'
  const BOX: char := 'o'
  const TARGET: char := '.'

  /** One element of a stage or object vector: the character it is drawn
      with, which is also its kind, and its cell. */
  datatype Element = Element(pic: char, pos: Pos)

  datatype Option<T> = None | Some(value: T)

  function CreateWallElement(x: int, y: int): Element {
    Element(WALL, Pos(x, y))
  }

  function CreatePlayerElement(x: int, y: int): Element {
    Element(PLAYER, Pos(x, y))
  }

  function CreateBoxElement(x: int, y: int): Element {
    Element(BOX, Pos(x, y))
  }

  function CreateTargetElement(x: int, y: int): Element {
    Element(TARGET, Pos(x, y))
  }

  /** Index of the first element of `s` that satisfies `f`, if any: the
      iterator a `find_if` over the vector returns. */
  function FindFirst<T>(s: seq<T>, f: T -> bool): (r: Option<nat>)
    ensures r.Some? ==> r.value < |s| && f(s[r.value])
    ensures r.Some? ==> forall j :: 0 <= j < r.value ==> !f(s[j])
    ensures r.None? <==> forall j :: 0 <= j < |s| ==> !f(s[j])
  {
    if |s| == 0 then None
    else if f(s[0]) then Some(0)
    else match FindFirst(s[1..], f)
      case None => None
      case Some(i) => Some(i + 1)
  }

  predicate IsWallAt(e: Element, p: Pos) {
    e.pic == WALL && e.pos == p
  }

  predicate IsBoxAt(e: Element, p: Pos) {
    e.pic == BOX && e.pos == p
  }

  predicate IsTargetAt(e: Element, p: Pos) {
    e.pic == TARGET && e.pos == p
  }

  /** Some wall of `stage` stands on `p`. */
  predicate HasWall(stage: seq<Element>, p: Pos) {
    exists i :: 0 <= i < |stage| && IsWallAt(stage[i], p)
  }

  /** Some box of `objects` stands on `p`. */
  predicate HasBox(objects: seq<Element>, p: Pos) {
    exists i :: 0 <= i < |objects| && IsBoxAt(objects[i], p)
  }

  /** Some target of `stage` lies on `p`. */
  predicate HasTarget(stage: seq<Element>, p: Pos) {
    exists i :: 0 <= i < |stage| && IsTargetAt(stage[i], p)
  }

  /** Some element of kind `pic` of `s` is on `p`: `HasWall`, `HasBox` and
      `HasTarget` are this search for one kind. They keep their own bodies,
      phrased with `IsWallAt`, `IsBoxAt` and `IsTargetAt`, because the proofs
      pick their witnesses in that form; the lemmas below state once, over
      this generic form, the facts the three share. */
  predicate HasPicAt(s: seq<Element>, pic: char, p: Pos) {
    exists i :: 0 <= i < |s| && s[i].pic == pic && s[i].pos == p
  }

  /** An element of a kind is on `p` in a concatenation exactly when it is
      in one part. */
  lemma HasPicAppend(a: seq<Element>, b: seq<Element>, pic: char, p: Pos)
    ensures HasPicAt(a + b, pic, p) <==> HasPicAt(a, pic, p) || HasPicAt(b, pic, p)
  {
    if HasPicAt(a + b, pic, p) {
      var i :| 0 <= i < |a + b| && (a + b)[i].pic == pic && (a + b)[i].pos == p;
      if i < |a| { assert a[i] == (a + b)[i]; } else { assert b[i - |a|] == (a + b)[i]; }
    }
    if HasPicAt(a, pic, p) {
      var i :| 0 <= i < |a| && a[i].pic == pic && a[i].pos == p;
      assert (a + b)[i] == a[i];
    }
    if HasPicAt(b, pic, p) {
      var i :| 0 <= i < |b| && b[i].pic == pic && b[i].pos == p;
      assert (a + b)[|a| + i] == b[i];
    }
  }

  /** A wall stands on `p` in a concatenation exactly when it does in one part. */
  lemma HasWallAppend(a: seq<Element>, b: seq<Element>, p: Pos)
    ensures HasWall(a + b, p) <==> HasWall(a, p) || HasWall(b, p)
  {
    HasPicAppend(a, b, WALL, p);
    assert HasWall(a + b, p) <==> HasPicAt(a + b, WALL, p);
    assert HasWall(a, p) <==> HasPicAt(a, WALL, p);
    assert HasWall(b, p) <==> HasPicAt(b, WALL, p);
  }

  /** A target lies on `p` in a concatenation exactly when it does in one part. */
  lemma HasTargetAppend(a: seq<Element>, b: seq<Element>, p: Pos)
    ensures HasTarget(a + b, p) <==> HasTarget(a, p) || HasTarget(b, p)
  {
    HasPicAppend(a, b, TARGET, p);
    assert HasTarget(a + b, p) <==> HasPicAt(a + b, TARGET, p);
    assert HasTarget(a, p) <==> HasPicAt(a, TARGET, p);
    assert HasTarget(b, p) <==> HasPicAt(b, TARGET, p);
  }

  /** `get_wall`: the first wall on `p`. */
  function GetWall(stage: seq<Element>, p: Pos): (r: Option<nat>)
    ensures r.Some? <==> HasWall(stage, p)
    ensures r.Some? ==> r.value < |stage| && IsWallAt(stage[r.value], p)
  {
    FindFirst(stage, e => IsWallAt(e, p))
  }

  /** `get_box`: the first box on `p`; no earlier element is a box there. */
  function GetBox(objects: seq<Element>, p: Pos): (r: Option<nat>)
    ensures r.Some? <==> HasBox(objects, p)
    ensures r.Some? ==> r.value < |objects| && IsBoxAt(objects[r.value], p)
    ensures r.Some? ==> forall j :: 0 <= j < r.value ==> !IsBoxAt(objects[j], p)
  {
    FindFirst(objects, e => IsBoxAt(e, p))
  }

  /** `get_target`: the first target on `p`. */
  function GetTarget(stage: seq<Element>, p: Pos): (r: Option<nat>)
    ensures r.Some? <==> HasTarget(stage, p)
    ensures r.Some? ==> r.value < |stage| && IsTargetAt(stage[r.value], p)
  {
    FindFirst(stage, e => IsTargetAt(e, p))
  }

  /** The first element drawn as the player, as `update_game` looks it up. */
  function FindPlayer(objects: seq<Element>): (r: Option<nat>)
    ensures r.Some? ==> r.value < |objects| && objects[r.value].pic == PLAYER
    ensures r.Some? ==> forall j :: 0 <= j < r.value ==> objects[j].pic != PLAYER
    ensures r.None? <==> forall j :: 0 <= j < |objects| ==> objects[j].pic != PLAYER
  {
    FindFirst(objects, (e: Element) => e.pic == PLAYER)
  }
}
