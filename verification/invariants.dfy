/** What stays true of every game state the transitions can reach, and what
    one tick promises about the snake, the lock, collisions and food. */
module Invariants {

  import opened Options
  import opened Grid
  import opened Sampling
  import opened Game

  /** Placeholders only ever sit at the tail end of the body. */
  predicate PlaceholdersTrail(body: seq<Option<Cell>>) {
    forall i, j :: 0 <= i < j < |body| && body[i].None? ==> body[j].None?
  }

  /** No two real segments share a cell. */
  predicate RealCellsDistinct(body: seq<Option<Cell>>) {
    forall i, j :: 0 <= i < j < |body| && body[i].Some? ==> body[i] != body[j]
  }

  predicate RealCellsInGrid(body: seq<Option<Cell>>) {
    forall i :: 0 <= i < |body| && body[i].Some? ==> InGrid(body[i].value)
  }

  /** The invariant of reachable states:
      - the length counter is one more than the body and three per point;
      - the food is on the field;
      - there is no reversal lock while nothing has been eaten;
      - the pending direction is never the locked one;
      - while the game runs the snake is on the field, does not overlap itself
        and is not on the food. */
  predicate Valid(s: State) {
    && s.length == |s.body| + 1
    && |s.body| == Growth * s.score
    && InGrid(s.food)
    && (s.score == 0 ==> s.oppositeDirection == None)
    && (s.oppositeDirection.Some? ==> s.moveDirection.Some? && s.moveDirection != s.oppositeDirection)
    && PlaceholdersTrail(s.body)
    && (!s.gameOver ==>
          && s.food != s.head
          && Some(s.food) !in s.body
          && InGrid(s.head)
          && RealCellsInGrid(s.body)
          && Some(s.head) !in s.body
          && RealCellsDistinct(s.body))
  }

  lemma ResetValid(draws: seq<GridCell>)
    requires SomeAccepted(draws, IsCenter)
    ensures Valid(Reset(draws))
  {}

  lemma KeyPressValid(s: State, key: string)
    requires Valid(s)
    ensures Valid(KeyPress(s, key))
  {}

  /** The shifted body keeps the placeholders at the tail and, when the old
      snake did not overlap itself, the new body does not either. */
  lemma MoveSnakeBody(s: State)
    requires Valid(s)
    ensures PlaceholdersTrail(MoveSnake(s).body)
    ensures !s.gameOver ==> RealCellsInGrid(MoveSnake(s).body) && RealCellsDistinct(MoveSnake(s).body)
  {}

  /** Every tick keeps the invariant; in particular `|body| == length - 1 == 3 * score`. */
  lemma TickValid(s: State, draws: seq<GridCell>)
    requires Valid(s)
    requires FoodSupply(AfterCollisions(s), draws)
    ensures Valid(Tick(s, draws))
  {
    // every segment after the shift is the old head or an old segment
    forall x | x in MoveSnake(s).body
      ensures x == Some(s.head) || x in s.body
    {}
  }

  // ---------------------------------------------------------------------
  // What a single tick does

  /** Without a pending direction a tick changes nothing: the snake stands
      still, the lock stays and, the food being off the head, nothing is eaten. */
  lemma TickIdle(s: State, draws: seq<GridCell>)
    requires Valid(s)
    requires s.moveDirection == None
    ensures FoodSupply(AfterCollisions(s), draws)
    ensures Tick(s, draws) == s
  {}

  /** With a pending direction the head moves exactly one cell that way, and
      the body keeps its length unless the tick eats, when it grows by three. */
  lemma TickMoves(s: State, draws: seq<GridCell>, d: Direction)
    requires FoodSupply(AfterCollisions(s), draws)
    requires s.moveDirection == Some(d)
    ensures Tick(s, draws).head == Step(s.head, d)
    ensures Distance(s.head, Tick(s, draws).head) == 1
    ensures |Tick(s, draws).body| == |s.body| + (if Eats(AfterCollisions(s)) then Growth else 0)
  {}

  /** A finished game stays finished, and the food test then changes nothing. */
  lemma TickAfterGameOver(s: State, draws: seq<GridCell>)
    requires s.gameOver
    ensures FoodSupply(AfterCollisions(s), draws)
    ensures var r := Tick(s, draws);
      && r.gameOver
      && r.food == s.food && r.score == s.score && r.length == s.length
      && r.body == MoveSnake(s).body
  {}

  /** In a running game the tick ends the game exactly when the head leaves
      the field or lands on a real segment of the shifted body. */
  lemma TickEndsGame(s: State, draws: seq<GridCell>)
    requires !s.gameOver
    requires FoodSupply(AfterCollisions(s), draws)
    ensures var m := MoveSnake(s);
      Tick(s, draws).gameOver <==> !InGrid(m.head) || exists i :: 0 <= i < |m.body| && m.body[i] == Some(m.head)
  {}

  /** Eating re-places the food away from the snake, appends three
      placeholders and counts; everything else is as after the move. */
  lemma TickEats(s: State, draws: seq<GridCell>)
    requires FoodSupply(AfterCollisions(s), draws)
    requires Eats(AfterCollisions(s))
    ensures var m := MoveSnake(s); var r := Tick(s, draws);
      && InGrid(r.food) && r.food != r.head && Some(r.food) !in r.body
      && r.body == m.body + seq(Growth, _ => None)
      && r.score == s.score + 1 && r.length == s.length + Growth
      && r == m.(food := r.food, body := r.body, score := r.score, length := r.length)
  {}

  /** Without eating, food, score, length and body are those after the move. */
  lemma TickWithoutFood(s: State, draws: seq<GridCell>)
    requires FoodSupply(AfterCollisions(s), draws)
    requires !Eats(AfterCollisions(s))
    ensures var m := MoveSnake(s); var r := Tick(s, draws);
      r == m.(gameOver := r.gameOver) && r.food == s.food && r.score == s.score
  {}

  // ---------------------------------------------------------------------
  // The reversal lock

  /** Key presses between two ticks. */
  function KeyPresses(s: State, keys: seq<string>): (r: State)
    decreases |keys|
  {
    if |keys| == 0 then s else KeyPresses(KeyPress(s, keys[0]), keys[1..])
  }

  /** A pending direction equal to the lock can only come from before the lock. */
  lemma KeyPressNeverPicksLock(s: State, key: string)
    requires s.oppositeDirection.Some?
    ensures KeyPress(s, key).moveDirection == s.oppositeDirection ==> s.moveDirection == s.oppositeDirection
  {}

  /** However many keys are pressed, the lock stays and is never selected. */
  lemma {:induction false} KeyPressesKeepLock(s: State, keys: seq<string>, l: Direction)
    requires s.oppositeDirection == Some(l)
    requires s.moveDirection.Some? && s.moveDirection != Some(l)
    ensures KeyPresses(s, keys).oppositeDirection == Some(l)
    ensures KeyPresses(s, keys).moveDirection.Some?
    ensures KeyPresses(s, keys).moveDirection != Some(l)
    ensures KeyPresses(s, keys) == s.(moveDirection := KeyPresses(s, keys).moveDirection)
    decreases |keys|
  {
    if |keys| > 0 {
      KeyPressNeverPicksLock(s, keys[0]);
      KeyPressesKeepLock(KeyPress(s, keys[0]), keys[1..], l);
    }
  }

  /** After a move made with a non-empty body, whatever keys follow, the next
      move never takes the head back to the cell it just left. (The lock is set
      before the food test, so the tick that eats the first food leaves no lock:
      see `Scenarios.ReverseRightAfterFirstMeal`.) */
  lemma NoNeckReversal(s: State, draws: seq<GridCell>, keys: seq<string>, d: Direction)
    requires FoodSupply(AfterCollisions(s), draws)
    requires s.moveDirection == Some(d) && |s.body| > 0
    ensures var u := KeyPresses(Tick(s, draws), keys);
      && u.moveDirection.Some?
      && u.moveDirection != Some(Opposite(d))
      && Step(u.head, u.moveDirection.value) != s.head
  {
    var t := Tick(s, draws);
    assert t.oppositeDirection == Some(Opposite(d));
    KeyPressesKeepLock(t, keys, Opposite(d));
    var u := KeyPresses(t, keys);
    var e := u.moveDirection.value;
    StepThenOpposite(s.head, d);
    StepInjective(u.head, e, Opposite(d));
  }

  /** While nothing has been eaten there is no lock: any mapped key applies,
      including the reverse of the current direction. */
  lemma ReversalAllowedWhileShort(s: State, key: string)
    requires Valid(s) && s.score == 0
    requires key in EventKeysToDirection
    ensures KeyPress(s, key).moveDirection == Some(EventKeysToDirection[key])
  {}

  // ---------------------------------------------------------------------
  // Runs of events

  datatype Event =
    | KeyDown(key: string)
    | Timer(draws: seq<GridCell>)
    | Restart(draws: seq<GridCell>)

  /** The random draws of a timer or restart event let its loops finish. */
  predicate Enabled(s: State, e: Event) {
    match e
    case KeyDown(_) => true
    case Timer(draws) => FoodSupply(AfterCollisions(s), draws)
    case Restart(draws) => SomeAccepted(draws, IsCenter)
  }

  function Apply(s: State, e: Event): State
    requires Enabled(s, e)
  {
    match e
    case KeyDown(key) => KeyPress(s, key)
    case Timer(draws) => Tick(s, draws)
    case Restart(draws) => Reset(draws)
  }

  predicate Feasible(s: State, events: seq<Event>)
    decreases |events|
  {
    |events| == 0 || (Enabled(s, events[0]) && Feasible(Apply(s, events[0]), events[1..]))
  }

  function Run(s: State, events: seq<Event>): State
    requires Feasible(s, events)
    decreases |events|
  {
    if |events| == 0 then s else Run(Apply(s, events[0]), events[1..])
  }

  /** Every state reachable from a valid state is valid. */
  lemma {:induction false} RunValid(s: State, events: seq<Event>)
    requires Valid(s) && Feasible(s, events)
    ensures Valid(Run(s, events))
    decreases |events|
  {
    if |events| > 0 {
      match events[0] {
        case KeyDown(key) => KeyPressValid(s, key);
        case Timer(draws) => TickValid(s, draws);
        case Restart(draws) => ResetValid(draws);
      }
      RunValid(Apply(s, events[0]), events[1..]);
    }
  }

  /** In particular every state of a game started by a restart is valid. */
  lemma ReachableValid(draws: seq<GridCell>, events: seq<Event>)
    requires SomeAccepted(draws, IsCenter)
    requires Feasible(Reset(draws), events)
    ensures Valid(Run(Reset(draws), events))
  {
    ResetValid(draws);
    RunValid(Reset(draws), events);
  }
}
