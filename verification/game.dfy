/** The game state of the Snake game and its three transitions: a key press,
    a tick of the game loop (move, wall check, self check, food check, in that
    order) and a restart. Every transition is a pure function from the old
    state to the new one; random food positions are supplied as draws. */
module Game {

  import opened Options
  import opened Grid
  import opened Sampling

  /** The whole mutable state of the game. `body` lists the segments behind
      the head, nearest first; `None` entries are growth placeholders.
      `moveDirection` is the direction the next tick applies (`None` until the
      first key press) and `oppositeDirection` is the reversal lock. */
  datatype State = State(
    head: Cell,
    body: seq<Option<Cell>>,
    food: Cell,
    score: nat,
    length: nat,
    gameOver: bool,
    moveDirection: Option<Direction>,
    oppositeDirection: Option<Direction>)

  /** Number of placeholder segments added per food eaten. */
  const Growth: nat := 3

  // ---------------------------------------------------------------------
  // Restart

  /** The initial food loop only retries while the draw is the centre cell. */
  predicate IsCenter(c: GridCell)
    ensures IsCenter(c) <==> c.x == 19 && c.y == 7
  {
    c == Center()
  }

  /** A fresh game: counters cleared, head at the centre, no body, food drawn
      until it is off the centre, no direction and no lock. */
  function Reset(draws: seq<GridCell>): (s: State)
    requires SomeAccepted(draws, IsCenter)
    ensures s.score == 0 && s.length == 1 && !s.gameOver
    ensures s.head == Cell(19, 7) && s.body == []
    ensures InGrid(s.food) && s.food != s.head
    ensures s.moveDirection == None && s.oppositeDirection == None
  {
    State(
      head := Center(),
      body := [],
      food := Resample(draws, IsCenter),
      score := 0,
      length := 1,
      gameOver := false,
      moveDirection := None,
      oppositeDirection := None)
  }

  // ---------------------------------------------------------------------
  // Key press

  /** The key-to-direction table (`w a s d` and the arrow keys). */
  const EventKeysToDirection: map<string, Direction> := map[
    "w" := Up,
    "a" := Left,
    "s" := Down,
    "d" := Right,
    "ArrowRight" := Right,
    "ArrowLeft" := Left,
    "ArrowDown" := Down,
    "ArrowUp" := Up]

  /** The keydown handler. An unmapped key falls back to the pending
      direction; the candidate is refused when it equals the lock. */
  function KeyPress(s: State, key: string): (r: State)
    ensures r == s.(moveDirection := r.moveDirection)
    ensures key !in EventKeysToDirection ==> r.moveDirection == s.moveDirection
    ensures key in EventKeysToDirection && Some(EventKeysToDirection[key]) == s.oppositeDirection ==>
              r.moveDirection == s.moveDirection
    ensures key in EventKeysToDirection && Some(EventKeysToDirection[key]) != s.oppositeDirection ==>
              r.moveDirection == Some(EventKeysToDirection[key])
  {
    var direction := if key in EventKeysToDirection then Some(EventKeysToDirection[key]) else s.moveDirection;
    s.(moveDirection := if direction == s.oppositeDirection then s.moveDirection else direction)
  }

  // ---------------------------------------------------------------------
  // One tick

  /** Shift the body (the old head goes in front, the last segment drops off)
      and move the head one cell; lock the reversal once there is a body. */
  function MoveSnake(s: State): (r: State)
    ensures s.moveDirection.None? ==> r == s
    ensures r == s.(head := r.head, body := r.body, oppositeDirection := r.oppositeDirection)
    ensures s.moveDirection.Some? ==>
      && r.head == Step(s.head, s.moveDirection.value)
      && |r.body| == |s.body|
      && (|s.body| > 0 ==> r.body == [Some(s.head)] + s.body[..|s.body| - 1])
      && (|s.body| > 0 ==> r.oppositeDirection == Some(Opposite(s.moveDirection.value)))
      && (|s.body| == 0 ==> r.oppositeDirection == s.oppositeDirection)
  {
    match s.moveDirection
    case None => s
    case Some(d) =>
      var unshifted := [Some(s.head)] + s.body;
      var popped := unshifted[..|unshifted| - 1];
      s.(head := Step(s.head, d),
         body := popped,
         oppositeDirection := if |popped| > 0 then Some(Opposite(d)) else s.oppositeDirection)
  }

  /** The wall test, in cells: the head's pixel position may not be negative
      nor beyond the last cell of the canvas. */
  function CheckBounds(s: State): (r: State)
    ensures r == s.(gameOver := r.gameOver)
    ensures r.gameOver <==> s.gameOver || !InGrid(s.head)
  {
    if s.head.x < 0 || s.head.x > Cols - 1 || s.head.y < 0 || s.head.y > Rows - 1 then
      s.(gameOver := true)
    else
      s
  }

  /** The coordinate comparison of the body scan: a placeholder has undefined
      coordinates and never compares equal to a cell. */
  predicate Matches(item: Option<Cell>, c: Cell)
    ensures Matches(item, c) <==> item == Some(c)
  {
    item.Some? && item.value.x == c.x && item.value.y == c.y
  }

  /** `findIndex` over the body: the first segment at cell `c`, or -1. */
  function FindIndex(body: seq<Option<Cell>>, c: Cell): (r: int)
    ensures -1 <= r < |body|
    ensures r == -1 <==> Some(c) !in body
    ensures r >= 0 ==> body[r] == Some(c) && forall j :: 0 <= j < r ==> body[j] != Some(c)
  {
    if |body| == 0 then -1
    else if Matches(body[0], c) then 0
    else
      var k := FindIndex(body[1..], c);
      assert body == [body[0]] + body[1..];
      if k == -1 then -1 else k + 1
  }

  /** The self-collision test: once the game is over it answers true without
      looking; otherwise it asks whether a real segment occupies `c`. */
  function CheckPassThrough(s: State, c: Cell): (hit: bool)
    ensures hit <==> s.gameOver || Some(c) in s.body
  {
    if !s.gameOver then FindIndex(s.body, c) != -1 else s.gameOver
  }

  /** The head has reached the food in a game that is still running. */
  predicate Eats(s: State) {
    s.head == s.food && !s.gameOver
  }

  /** The food loop retries while the draw is the head or lies on the body. */
  function FoodRejecter(s: State): (reject: GridCell -> bool)
    ensures forall c :: reject(c) <==> c == s.head || s.gameOver || Some(c) in s.body
  {
    c => c == s.head || CheckPassThrough(s, c)
  }

  /** The random draws let the food loop finish whenever it runs. */
  predicate FoodSupply(s: State, draws: seq<GridCell>) {
    Eats(s) ==> SomeAccepted(draws, FoodRejecter(s))
  }

  /** Eating: place new food away from the snake, append three placeholders,
      and count one point and three units of length. */
  function CheckFood(s: State, draws: seq<GridCell>): (r: State)
    requires FoodSupply(s, draws)
    ensures !Eats(s) ==> r == s
    ensures Eats(s) ==>
      && r == s.(food := r.food, body := r.body, score := r.score, length := r.length)
      && InGrid(r.food) && r.food != s.head && Some(r.food) !in s.body
      && r.body == s.body + seq(Growth, _ => None)
      && r.score == s.score + 1
      && r.length == s.length + Growth
  {
    if Eats(s) then
      var food := Resample(draws, FoodRejecter(s));
      s.(food := food,
         body := s.body + seq(Growth, _ => None),
         score := s.score + 1,
         length := s.length + Growth)
    else
      s
  }

  /** The state after the move and both collision tests, before the food test. */
  function AfterCollisions(s: State): (r: State)
    ensures r == MoveSnake(s).(gameOver := r.gameOver)
    ensures r.gameOver <==> s.gameOver || !InGrid(MoveSnake(s).head) || Some(MoveSnake(s).head) in MoveSnake(s).body
  {
    var moved := CheckBounds(MoveSnake(s));
    moved.(gameOver := CheckPassThrough(moved, moved.head))
  }

  /** One tick of the game loop (`main` without rendering and timers). */
  function Tick(s: State, draws: seq<GridCell>): (r: State)
    requires FoodSupply(AfterCollisions(s), draws)
    ensures r.gameOver <==> s.gameOver || !InGrid(MoveSnake(s).head) || Some(MoveSnake(s).head) in MoveSnake(s).body
    ensures r.head == MoveSnake(s).head && r.moveDirection == s.moveDirection
    ensures r.oppositeDirection == MoveSnake(s).oppositeDirection
  {
    CheckFood(AfterCollisions(s), draws)
  }
}
