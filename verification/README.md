# Snake game state, in Dafny

A model of the game logic of a browser Snake game (`script.js`). The game is a
small state machine on a 40 x 16 grid of cells: a head, a body of trailing
segments, one piece of food, a score, a length counter, a game-over flag, the
pending direction `moveDirection` and the reversal lock `oppositeDirection`.
Three transitions change it:

- a key press (`w a s d` and the arrow keys) sets the pending direction unless
  it equals the lock;
- a tick of the game loop (`main`) moves the snake, checks the walls, checks
  self collision (short-circuited once the game is over) and checks the food,
  in that order; eating re-places the food away from the snake, appends three
  placeholder segments and adds 1 to the score and 3 to the length;
- a restart (`resetGame`) clears everything and draws new food off the centre.

The Dafny modules follow the parts of the program:

- `Options`: `Option<T>`; body entries are `Option<Cell>`, and a placeholder
  (the number `0` the game pushes, whose coordinates are undefined) is `None`.
- `Grid`: the field size, `Cell`, `InGrid`, the starting cell, directions,
  `Opposite` and the one-cell `Step`. Coordinates are whole cells, not pixels.
- `Sampling`: the `do { draw } while (reject)` retry loop, with the random
  source given as the sequence of cells it would produce.
- `Game`: the `State` datatype and the transitions `Reset`, `KeyPress`,
  `MoveSnake`, `CheckBounds`, `CheckPassThrough` (with its `findIndex`),
  `CheckFood` and `Tick`.
- `Invariants`: the invariant of reachable states (`Valid`: body length is
  `length - 1 == 3 * score`, food on the field, no lock before the first meal,
  the pending direction never equals the lock, placeholders only at the tail,
  and while the game runs the snake is on the field, does not overlap
  itself and is not on the food), its preservation by every transition and by any run of events, and
  per-tick properties: movement, collisions, eating, the reversal lock.
- `Scenarios`: concrete plays (first move, first meal, running into the body,
  moving over placeholders).

Random draws are parameters: each food loop takes a `seq<GridCell>` and uses
its first accepted element. A transition whose loop runs requires that some
draw is accepted, which is the loop's termination (a free cell was drawn).

## Model

| member | source | states |
|---|---|---|
| Grid.CeilDiv | script.js:16-17 | the result is the least `q` with `b * q >= a` (the integer ceiling used for the centre) |
| Grid.Center | script.js:16-17 | the head starts at cell (19, 7) = (ceil(40/2) - 1, ceil(16/2) - 1), which lies on the field |
| Grid.Opposite | script.js:32-37 | the locked direction is never the direction itself |
| Grid.Step | script.js:108-116 | a move changes the head's position by exactly one cell |
| Grid.StepThenOpposite | script.js:108-116 | stepping one way and then the opposite way returns to the start |
| Grid.StepInjective | script.js:108-116 | from one cell, two steps land on the same cell only if their directions are equal |
| Sampling.FirstAccepted | script.js:153-162 | the retry loop stops at an accepted draw and every earlier draw was rejected |
| Sampling.Resample | script.js:153-162 | the cell the loop settles on passes the exit test and is one of the draws |
| Sampling.ResampleIgnoresLaterDraws | script.js:153-162 | draws after the accepted one are never consumed and do not change the result |
| Game.Reset | script.js:72-88 | restart gives score 0, length 1, head at (19, 7), empty body, food on the field and off the head, no direction, no lock, game running |
| Game.IsCenter | script.js:49-54 | the start-up and restart food loops retry exactly while the draw is the centre cell (19, 7) |
| Game.KeyPress | script.js:66-70 | an unmapped key keeps the pending direction; a mapped key sets it unless it equals the lock, when the pending direction is kept; nothing else changes |
| Game.MoveSnake | script.js:103-121 | with no pending direction nothing changes; otherwise the head steps one cell, the body is the old head followed by all but the last old segment (same length), and the lock becomes the opposite direction exactly when the body is non-empty |
| Game.CheckBounds | script.js:123-132 | the game is over afterwards exactly when it was over or the head is off the 40 x 16 field; nothing else changes |
| Game.Matches | script.js:137-139 | a body entry matches a cell exactly when it is a real segment at that cell; a placeholder never matches |
| Game.FindIndex | script.js:137-139 | returns -1 exactly when no real segment is at the cell, otherwise the first index holding it; placeholders never match |
| Game.CheckPassThrough | script.js:134-144 | answers true exactly when the game is already over or a real body segment is at the cell |
| Game.Eats | script.js:147-150 | the food test fires when the head is on the food and the game is still running |
| Game.FoodRejecter | script.js:153-162 | the food loop retries a draw exactly when it is the head, the game is over, or a real segment lies there |
| Game.CheckFood | script.js:146-170 | without eating the state is unchanged; on eating the new food is on the field, off the head and off every real segment, three placeholders are appended, score rises by 1 and length by 3, and nothing else changes |
| Game.AfterCollisions | script.js:93-95 | after the move and both collision tests the game is over exactly when it was over, the moved head is off the field, or it lies on a real segment of the shifted body; nothing else differs from the moved state |
| Game.Tick | script.js:92-101 | the tick ends over exactly when the game was over, the moved head is off the field, or it lies on the shifted body; head and lock are those after the move |
| Invariants.ResetValid | script.js:72-88 | a restarted game satisfies the reachable-state invariant |
| Invariants.KeyPressValid | script.js:66-70 | a key press keeps the invariant |
| Invariants.MoveSnakeBody | script.js:107-117 | shifting keeps placeholders at the tail and keeps a running snake's real segments on the field and pairwise distinct |
| Invariants.TickValid | script.js:92-101 | every tick keeps the invariant, in particular `|body| == length - 1 == 3 * score` |
| Invariants.TickIdle | script.js:103-106 | in a reachable state, a tick with no pending direction changes nothing: head, body, lock, food and counters stay |
| Invariants.TickMoves | script.js:107-117 | with a pending direction the head moves exactly one cell that way and the body length is unchanged except for three more on eating |
| Invariants.TickAfterGameOver | script.js:134-151 | once over the tick stays over, food, score and length are unchanged and no placeholder is added |
| Invariants.TickEndsGame | script.js:123-140 | in a running game a tick ends it exactly when the moved head is off the field or on a real segment of the shifted body |
| Invariants.TickEats | script.js:146-169 | on eating the new food is on the field, off the head and the body; the body gains exactly three trailing placeholders; score +1, length +3; nothing else differs from the moved state |
| Invariants.TickWithoutFood | script.js:146-151 | without eating only the game-over flag differs from the moved state; food and score are unchanged |
| Invariants.KeyPressesKeepLock | script.js:66-70 | any sequence of key presses keeps the lock and never selects the locked direction |
| Invariants.NoNeckReversal | script.js:118-120 | after a move made with a non-empty body, whatever keys follow, the next move does not take the head back to the cell it just left |
| Invariants.ReversalAllowedWhileShort | script.js:118-120 | before the first meal there is no lock, so any mapped key, including the reverse, is applied |
| Invariants.KeyPressNeverPicksLock | script.js:68-69 | a key press yields the locked direction only if it was already pending |
| Invariants.RunValid | script.js:66-101 | every state reached by key presses, ticks and restarts from a valid state is valid |
| Invariants.ReachableValid | script.js:72-101 | every state of a game started by a restart is valid |
| Scenarios.FirstMoveRight | script.js:107-113 | from a fresh game, `d` and one tick put the head at (20, 7) with score 0 and length 1 |
| Scenarios.FirstMeal | script.js:146-168 | eating on the first move gives score 1, length 4 and a body of three placeholders |
| Scenarios.ReverseRightAfterFirstMeal | script.js:118-120 | right after the first meal the body holds three placeholders but no lock is set, so the reverse key is taken and the next tick puts the head back on the cell it just left, without ending the game |
| Scenarios.RunIntoOwnBody | script.js:134-140 | a valid, reachable curled snake (score 2, length 7) moving into its own segment ends the game |
| Scenarios.PlaceholdersNeverCollide | script.js:164-166 | a head moving onto (0, 0) over a body of placeholders does not collide, since placeholders have no coordinates |

## Left out

- Rendering, canvas sizing and the per-segment random colours (script.js:9-10, 172-203): drawing only, no state.
- Sound: the `Sound` objects, the one-shot `playFoodSound` flag and the crash sound (script.js:60-62, 204-213, 216-229): audio output only.
- Timers: `setInterval` and `clearInterval` (script.js:89, 98-100). A restart arms a new interval without cancelling a running one, so two loops can run; that is a scheduling matter. `Tick` is still defined on finished games, which is what an extra loop would call.
- Score and length text displays (script.js:84-85, 209-210): output only.
- `Math.random`: replaced by a sequence of drawn cells; a loop whose draws are never accepted (the game would spin forever) is excluded by the preconditions.
- Pixel coordinates and `pixelsPerBlock` (script.js:14-17): the model works in whole cells; the wall test `x > width - pixelsPerBlock` becomes `x > 39` (and `y > 15`), assuming the canvas is exactly 40 x 16 cells without rounding error.
- `event.preventDefault` and event delivery: a key press is its `event.key` string. Property names inherited by JavaScript objects (such as `toString`) would make the table lookup truthy, but no keyboard key is named that way, so the table is an ordinary map.
- Invariants.NoNeckReversal: covers only moves made with a non-empty body. The lock is set in the move (script.js:118-120), before the food test appends placeholders (script.js:164-166), so for the one tick after the first meal the snake has a body but no lock and may reverse; `Scenarios.ReverseRightAfterFirstMeal` shows it. The head returns to a cell no real segment occupies, so the game goes on.
- The start-up block (script.js:41-58) sets the same state as `resetGame`, which then runs at load (script.js:233); both are `Reset`.
