/** Concrete plays on the 40 x 16 field. */
module Scenarios {

  import opened Options
  import opened Grid
  import opened Sampling
  import opened Game
  import opened Invariants

  /** From a fresh game, pressing `d` and ticking once moves the head one cell
      to the right; with the food elsewhere nothing is counted. */
  lemma FirstMoveRight(draws: seq<GridCell>, next: seq<GridCell>)
    requires SomeAccepted(draws, IsCenter)
    requires Reset(draws).food != Cell(20, 7)
    ensures var s := KeyPress(Reset(draws), "d");
      && FoodSupply(AfterCollisions(s), next)
      && var r := Tick(s, next);
      && r.head == Cell(20, 7) && r.body == []
      && r.score == 0 && r.length == 1 && !r.gameOver
  {}

  /** With the food just right of the centre, the first move eats it: one
      point, length four, three placeholders and fresh food off the head. */
  lemma FirstMeal(draws: seq<GridCell>, next: seq<GridCell>)
    requires SomeAccepted(draws, IsCenter)
    requires Reset(draws).food == Cell(20, 7)
    requires SomeAccepted(next, FoodRejecter(AfterCollisions(KeyPress(Reset(draws), "d"))))
    ensures var r := Tick(KeyPress(Reset(draws), "d"), next);
      && r.score == 1 && r.length == 4
      && r.body == [None, None, None]
      && r.food != Cell(20, 7) && !r.gameOver
  {}

  /** The lock is taken in the move, before the food test appends the
      placeholders. So right after the first meal the body is non-empty but
      there is no lock: the reverse key is accepted, and the next tick takes
      the head back to the cell it just left without ending the game. */
  lemma ReverseRightAfterFirstMeal(draws: seq<GridCell>, next: seq<GridCell>, later: seq<GridCell>)
    requires SomeAccepted(draws, IsCenter)
    requires Reset(draws).food == Cell(20, 7)
    requires SomeAccepted(next, FoodRejecter(AfterCollisions(KeyPress(Reset(draws), "d"))))
    requires Tick(KeyPress(Reset(draws), "d"), next).food != Cell(19, 7)
    ensures var t := Tick(KeyPress(Reset(draws), "d"), next);
      && |t.body| == 3 && t.oppositeDirection == None && !t.gameOver
      && KeyPress(t, "a").moveDirection == Some(Left)
      && FoodSupply(AfterCollisions(KeyPress(t, "a")), later)
      && Tick(KeyPress(t, "a"), later).head == Cell(19, 7)
      && !Tick(KeyPress(t, "a"), later).gameOver
  {
    var t := Tick(KeyPress(Reset(draws), "d"), next);
    assert t.body == [None, None, None];
    assert t.body[..2] == [None, None];
    assert MoveSnake(KeyPress(t, "a")).body == [Some(Cell(20, 7)), None, None];
  }

  /** A reachable snake (two meals, length 7) curled around itself, heading
      right into the segment at (6, 5). */
  function CurledSnake(): State {
    State(
      head := Cell(5, 5),
      body := [Some(Cell(5, 6)), Some(Cell(6, 6)), Some(Cell(6, 5)), Some(Cell(6, 4)), Some(Cell(5, 4)), Some(Cell(4, 4))],
      food := Cell(0, 0),
      score := 2,
      length := 7,
      gameOver := false,
      moveDirection := Some(Right),
      oppositeDirection := Some(Down))
  }

  /** A valid snake running into its own body ends the game. */
  lemma RunIntoOwnBody(draws: seq<GridCell>)
    ensures Valid(CurledSnake())
    ensures FoodSupply(AfterCollisions(CurledSnake()), draws)
    ensures Tick(CurledSnake(), draws).gameOver
  {
    var m := MoveSnake(CurledSnake());
    assert m.body[3] == Some(m.head);
  }

  /** Just after a first meal: three placeholders behind a head at (1, 0),
      heading left onto the cell (0, 0). */
  function FreshlyFed(): State {
    State(
      head := Cell(1, 0),
      body := [None, None, None],
      food := Cell(9, 9),
      score := 1,
      length := 4,
      gameOver := false,
      moveDirection := Some(Left),
      oppositeDirection := None)
  }

  /** Placeholders have no coordinates: even the cell (0, 0) is not on a body
      of placeholders, so moving there does not end the game. */
  lemma PlaceholdersNeverCollide(draws: seq<GridCell>)
    ensures Valid(FreshlyFed())
    ensures FoodSupply(AfterCollisions(FreshlyFed()), draws)
    ensures var r := Tick(FreshlyFed(), draws);
      && r.head == Cell(0, 0)
      && !r.gameOver
      && r.body == [Some(Cell(1, 0)), None, None]
  {
    var m := MoveSnake(FreshlyFed());
    assert FreshlyFed().body[..2] == [None, None];
    assert m.body == [Some(Cell(1, 0)), None, None];
  }
}
