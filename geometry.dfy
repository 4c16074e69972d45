/** Grid geometry of the nimotsu stage: its fixed size, the key bindings
    and the one-cell step a movement key stands for. */
module Geometry {

  const STAGE_WIDTH: int := 8
  const STAGE_HEIGHT: int := 5

  const UP_KEY: char := 'w'
  const LEFT_KEY: char := 'a'
  const RIGHT_KEY: char := 'd'
  const DOWN_KEY: char := 's'
  const QUIT_KEY: char := 'q'

  /** A cell of the stage; equality is component-wise. Coordinates are
      unbounded integers (the source's `int32_t` never leaves the small grid). */
  datatype Pos = Pos(x: int, y: int)

  /** The four keys that move the player. */
  predicate IsMoveKey(input: char) {
    input == DOWN_KEY || input == LEFT_KEY || input == RIGHT_KEY || input == UP_KEY
  }

  /** Absolute value, for distances between cells. */
  function Abs(n: int): nat {
    if n < 0 then -n else n
  }

  /** Number of unit steps along the axes between two cells. */
  function Manhattan(p: Pos, q: Pos): nat {
    Abs(p.x - q.x) + Abs(p.y - q.y)
  }

  /** The cell reached from `pos` by the step that `input` names: `s` goes
      down (y grows), `w` up, `a` left, `d` right; any other character
      leaves the cell where it is. */
  function ChangePos(input: char, pos: Pos): (r: Pos)
    ensures input == DOWN_KEY ==> r == Pos(pos.x, pos.y + 1)
    ensures input == UP_KEY ==> r == Pos(pos.x, pos.y - 1)
    ensures input == LEFT_KEY ==> r == Pos(pos.x - 1, pos.y)
    ensures input == RIGHT_KEY ==> r == Pos(pos.x + 1, pos.y)
    ensures IsMoveKey(input) ==> Manhattan(pos, r) == 1 && (r.x == pos.x || r.y == pos.y)
    ensures !IsMoveKey(input) ==> r == pos
  {
    if input == DOWN_KEY then Pos(pos.x, pos.y + 1)
    else if input == UP_KEY then Pos(pos.x, pos.y - 1)
    else if input == LEFT_KEY then Pos(pos.x - 1, pos.y)
    else if input == RIGHT_KEY then Pos(pos.x + 1, pos.y)
    else pos
  }

  /** The key that steps back the way `input` stepped. */
  function Opposite(input: char): char {
    if input == DOWN_KEY then UP_KEY
    else if input == UP_KEY then DOWN_KEY
    else if input == LEFT_KEY then RIGHT_KEY
    else if input == RIGHT_KEY then LEFT_KEY
    else input
  }

  /** Every step can be undone by the opposite key. */
  lemma ChangePosUndone(input: char, pos: Pos)
    ensures ChangePos(Opposite(input), ChangePos(input, pos)) == pos
  {
  }

  /** A step with a given key never merges two cells, and a movement key
      always leaves the cell it starts from. */
  lemma ChangePosInjective(input: char, p: Pos, q: Pos)
    ensures ChangePos(input, p) == ChangePos(input, q) <==> p == q
    ensures IsMoveKey(input) ==> ChangePos(input, p) != p
  {
  }

  /** The cells of the `STAGE_WIDTH` by `STAGE_HEIGHT` grid. */
  predicate InGrid(p: Pos) {
    0 <= p.x < STAGE_WIDTH && 0 <= p.y < STAGE_HEIGHT
  }

  /** The outer ring of the grid, where the level puts its walls. */
  predicate OnBorder(p: Pos) {
    InGrid(p) && (p.y == 0 || p.y == STAGE_HEIGHT - 1 || p.x == 0 || p.x == STAGE_WIDTH - 1)
  }

  /** The cells inside the ring. */
  predicate Interior(p: Pos) {
    InGrid(p) && !OnBorder(p)
  }

  /** One step from an interior cell stays on the grid: the ring catches it. */
  lemma StepFromInteriorInGrid(input: char, p: Pos)
    requires Interior(p)
    ensures InGrid(ChangePos(input, p))
    ensures !OnBorder(ChangePos(input, p)) ==> Interior(ChangePos(input, p))
  {
  }
}
