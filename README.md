# Dots-and-boxes game engine

A Dafny model of the game engine inside the `MainFeature` React component of
a dots-and-boxes game. It covers:

- **Grid builder.** It makes an `n × n` lattice of dots, `n·(n-1)` horizontal
  and `n·(n-1)` vertical lines, and `(n-1)²` squares. Each square is tied to
  its four sides by line identifier.
- **Player registry.** Players have sequential ids, a colour from a palette
  of four, a score and an "active" flag. The registry can be reset and can
  take a new player.
- **Line-click handler.** It draws the clicked line and claims every square
  the line closes. It then scores the move and either keeps the turn or hands
  it on. Finally it decides whether the game is over and who won.
- **Game status.** A small state machine: `waiting → active → completed`.

Files, one module each:

- `wrappers.dfy` (`Wrappers`): `Option`, the model of JavaScript `null`.
- `board.dfy` (`Board`): the grid.
  - The nested `for`/`push` loops that build the grid are a method
    (`FillLattice`). It is proved to equal a row-major enumeration function
    (`Lattice`).
  - The line `map`, its `find` lookups and the square `map` with its
    `squareCompleted` flag are pure functions. The scan is also written as
    a loop (`ScanSquares`).
  - Lemmas state the grid's shape, the square-to-line bindings and what a
    move preserves.
- `players.dfy` (`Players`):
  - the registry functions: reset, append, award a point, hand on the turn;
  - JavaScript `trim`, as the name check uses it;
  - the maximum-score / unique-winner rule.
- `engine.dfy` (`Engine`): the component state as `class Game`. Its fields
  are `gridSize`, `players`, `currentPlayerIndex`, `grid`, `gameStatus` and
  `winner`. Each handler is one method.
  - The class invariant `Valid()` says:
    - exactly the current player is active;
    - ids and colours follow the registry rule;
    - every board after the first game has the built shape;
    - a square is completed exactly when its four sides are drawn, and then
      it has an owner;
    - the completed squares equal the score total plus the unscored extras
      of double completions.

Each React handler is one atomic transition computed from the state before
the call. The `set*` calls become field assignments at the end of the
method.

## Behaviour of the code kept as written

In some places the code departs from the usual rules of dots and boxes: one
point per box, and the game ends when the last box is claimed. The model
follows the code.

- **One point per move.** A move that closes two squares at once claims both
  squares, but the mover's score goes up by 1
  (`src/components/MainFeature.jsx:218-222`). The score total therefore
  equals the completed squares only until the first double completion.
  - `Engine.ScoreQuirk` states this.
  - The invariant counts the difference in a ghost field, `missedPoints`.
- **Game-over test.** It counts the squares completed before the move, plus
  one, against `(n-1)²` (`:228-231`). If the last two open squares close
  together, the test fails: the game stays `active` with every square
  claimed and no line left to click. `Engine.GameOverQuirk` proves this.
  - When a move closes exactly one square, the test agrees with "every
    square is claimed" (`Engine.GameOverOnSingleClose`).
  - The test never passes while a square is still open
    (`Engine.EndsOnlyWhenAllClaimed`).
  - A line bounds at most two squares, so a move closes at most two
    (`Board.AtMostTwoClosed`). The move that claims the last open squares
    therefore either closes one and ends the game, or closes two and leaves
    it active (`Engine.FinalMove`).
- **No error results.**
  - A click while the game is not active returns without any change (`:140`).
  - The size slider allows only 3 to 10 (`:349-354`), and the code has no
    size error.
  - An already-drawn line is never passed in, because the board's click
    handler checks `!isDrawn` (`:462`, `:493`), and the board only renders
    lines that exist. `HandleLineClick` therefore requires, for an active
    game, that the line exists and is not drawn.
- **The winner is the player record**, not an id (`:236`). A tie is `None`.

## Model

| member | source | states |
|---|---|---|
| Board.FillLattice | src/components/MainFeature.jsx:41-92 | The nested `for i < rows, for j < cols, push(f(j, i))` loops yield exactly the row-major enumeration `Lattice(rows, cols, f)` |
| Board.LatticeLength | src/components/MainFeature.jsx:41-92 | A `rows × cols` enumeration has `rows·cols` elements |
| Board.LatticeAt | src/components/MainFeature.jsx:41-92 | The element built for column `j`, row `i` sits at position `i·cols + j` |
| Board.LatticeCoords | src/components/MainFeature.jsx:41-92 | Every element of the enumeration was built from some in-bounds column and row |
| Board.LatticeDistinct | src/components/MainFeature.jsx:52-58 | When the key of an element determines its coordinates, no key occurs twice in the enumeration (line ids are unique) |
| Board.BuildGrid | src/components/MainFeature.jsx:39-94 | The grid assembled by the four loops is `InitialGrid(n)` |
| Board.InitialGridShape | src/components/MainFeature.jsx:41-92 | The built grid has `n²` dots, `n(n-1)` horizontal and `n(n-1)` vertical lines, and `(n-1)²` squares; every line is undrawn and ownerless, every square open and ownerless, and line ids are unique in each family |
| Board.InitialLines | src/components/MainFeature.jsx:49-74 | Line `h(x,y)` exists exactly when `x < n-1` and `y < n`; line `v(x,y)` exists exactly when `x < n` and `y < n-1` |
| Board.HorizontalLines | src/components/MainFeature.jsx:49-60 | The horizontal family holds `h(x,y)` exactly when `x < n-1` and `y < n` |
| Board.VerticalLines | src/components/MainFeature.jsx:63-74 | The vertical family holds `v(x,y)` exactly when `x < n` and `y < n-1` |
| Board.InitialSquares | src/components/MainFeature.jsx:76-92 | Square `(x,y)` has `x, y < n-1`, is bound to top `h(x,y)`, right `v(x+1,y)`, bottom `h(x,y+1)` and left `v(x,y)`, all four of which exist in the built grid; top differs from bottom and left from right |
| Board.SquareAt | src/components/MainFeature.jsx:78-90 | Square `(x,y)` with `x, y < n-1` is in the built grid, with its four bindings |
| Board.SharedSide | src/components/MainFeature.jsx:84-87 | For `n >= 3`, `v(1,0)` is the right side of square `(0,0)` and the left side of square `(1,0)`: one line can close two squares |
| Board.SquaresOfLine | src/components/MainFeature.jsx:84-87 | The squares a line can bound are at most two: `h(x,y)` bounds `(x,y)` and `(x,y-1)`, `v(x,y)` bounds `(x,y)` and `(x-1,y)`; the line's own coordinates are always among them |
| Board.SideOnlyOf | src/components/MainFeature.jsx:76-92 | A square of the built grid has a line as a side only if its coordinates are among the line's `SquaresOfLine` |
| Board.InitialSquareKeysUnique | src/components/MainFeature.jsx:78-83 | No two squares of the built grid share their coordinates |
| Board.ClosedHasSide | src/components/MainFeature.jsx:152-168 | On a consistent board, every square a move closes has the clicked line as a side |
| Board.NewlyAtMostKeys | src/components/MainFeature.jsx:152-168 | When the squares have distinct coordinates and every newly closed one lies in a set of coordinates, the number closed is at most the size of that set |
| Board.AtMostTwoClosed | src/components/MainFeature.jsx:152-168 | A move on a board laid out for size `n` closes at most two squares |
| Board.InitialGridConsistent | src/components/MainFeature.jsx:39-94 | The built grid has its own shape, satisfies "completed iff four sides drawn" and "drawn or completed iff owned", and has no completed square |
| Board.FindIndex | src/components/MainFeature.jsx:156-159 | `find(l => l.id === id)`: the position returned, when in range, holds a line with that id |
| Board.FindFrom | src/components/MainFeature.jsx:156-159 | The front-to-back search from position `i` stays in `[i, |ls|]`, and a position in range holds the id |
| Board.FindIndexFirst | src/components/MainFeature.jsx:156-159 | No line before the position found carries the id, so the search finds the first match and returns `|ls|` only if there is none |
| Board.FindIndexByIds | src/components/MainFeature.jsx:156-159 | The search depends only on the sequence of ids, not on drawn flags or owners |
| Board.FindIndexUnique | src/components/MainFeature.jsx:156-159 | In a family with unique ids, looking up the id at position `k` returns `k` |
| Board.DrawLine | src/components/MainFeature.jsx:147-149 | The line `map`: same length and ids; lines with another id are unchanged; a line with the clicked id becomes drawn and owned by the mover |
| Board.DrawLineEffect | src/components/MainFeature.jsx:147-159 | After drawing `id`, a line exists iff it existed before, and it is drawn iff it was drawn before or it is `id` and `id` exists |
| Board.DrawLineKeepsDrawn | src/components/MainFeature.jsx:147-149 | Drawing an undrawn line leaves every already drawn line exactly as it was |
| Board.UpdateSquares | src/components/MainFeature.jsx:152-168 | The square `map`: completed squares are untouched; an open square becomes completed exactly when its four sides are drawn, and is then owned by the mover; otherwise it is unchanged; square bindings are kept |
| Board.ScanSquares | src/components/MainFeature.jsx:143-168 | The scan returns the mapped squares and raises `squareCompleted` exactly when some open square has all four sides drawn |
| Board.ApplyLineClick | src/components/MainFeature.jsx:145-205 | The grid half of a click, in both orientations, is the move `MoveGrid` and flags exactly `MoveCompletes` |
| Board.MoveDrawsLine | src/components/MainFeature.jsx:147-149 | After a legal move the clicked line is drawn and owned by the mover; every other line of its family, the other family and the dots are unchanged |
| Board.MovePreserves | src/components/MainFeature.jsx:145-205 | A legal move keeps the shape and the consistency invariants, and never changes a drawn line or a completed square |
| Board.CompletedCount | src/components/MainFeature.jsx:229 | `squares.filter(s => s.completed).length` never exceeds the number of squares |
| Board.AllCompleted | src/components/MainFeature.jsx:229 | The completed count equals the number of squares iff every square is completed |
| Board.NewlyPositive | src/components/MainFeature.jsx:160-163 | At least one square is newly closed iff the scan raises `squareCompleted` |
| Board.UpdateSquaresCounts | src/components/MainFeature.jsx:152-168 | The square `map` adds the newly closed squares to the completed count and to the mover's owned count, and leaves other players' counts unchanged |
| Board.LayoutUnique | src/components/MainFeature.jsx:52-72 | A board laid out for size `n` has unique line ids in both families |
| Board.SideOfSquare | src/components/MainFeature.jsx:76-92 | For `n >= 2` every line of the built grid is a side of some square |
| Board.AllClaimedNoMove | src/components/MainFeature.jsx:462-493 | Once every square of a consistent board is completed, no line is left that the board lets a player click |
| Players.TrimEmptyIffBlank | src/components/MainFeature.jsx:110 | `name.trim()` is empty exactly when the name consists only of JavaScript whitespace characters |
| Players.Admit | src/components/MainFeature.jsx:109-118 | A whitespace-only name is rejected first; otherwise four existing players reject the add; otherwise the player is added |
| Players.Appended | src/components/MainFeature.jsx:123-132 | A definition: the registry with the new player appended; its properties are stated by `Players.AppendedKeeps` |
| Players.AppendedKeeps | src/components/MainFeature.jsx:120-132 | The registry grows by one: the old players are kept, and the new one has id `length + 1`, colour `palette[length % 4]`, score 0 and is inactive; the registry rule, the active player and the score total are preserved |
| Players.ResetPlayers | src/components/MainFeature.jsx:104-106 | Every score becomes 0; a player is active iff its id is 1; ids, names and colours are kept |
| Players.ResetPlayersReady | src/components/MainFeature.jsx:104-106 | After a reset, the registry rule holds, exactly the player at index 0 is active, and the score total is 0 |
| Players.AwardPoint | src/components/MainFeature.jsx:218-222 | The player carrying the mover's id gains one point; every other field of every player is kept |
| Players.AwardPointKeeps | src/components/MainFeature.jsx:218-222 | Awarding the mover a point keeps the registry rule and the active player, raises only the mover's score, and adds exactly 1 to the score total |
| Players.SetActive | src/components/MainFeature.jsx:253-256 | Exactly the player at the new index is active; nothing but the active flags changes |
| Players.SetActiveKeeps | src/components/MainFeature.jsx:253-256 | Handing on the turn keeps the registry rule and the score total |
| Players.MaxScore | src/components/MainFeature.jsx:232 | `Math.max` of the scores is at least every score and is some player's score |
| Players.Winner | src/components/MainFeature.jsx:232-236 | A definition: the only player on the maximum score, or `None`; its meaning is stated by `Players.WinnerIsUniqueMaximum` |
| Players.WinnerIsUniqueMaximum | src/components/MainFeature.jsx:232-236 | There is a winner iff one player's score is strictly above every other player's, and that player is then the winner; two or more players on the top score give a tie |
| Engine.Game.constructor | src/components/MainFeature.jsx:16-36 | Initial state: size 5, two players (the first named by the user, or "Player 1" for an empty name), the first active, index 0, no grid, status waiting, no winner |
| Engine.Game.InitializeGame | src/components/MainFeature.jsx:39-98 | A fresh grid for the current size, scores reset, index 0, status active, no winner; the invariant holds |
| Engine.Game.ChangeGridSize | src/components/MainFeature.jsx:278-280 | Moving the slider to `n` in 3..10 rebuilds the game for size `n` |
| Engine.Game.AddPlayer | src/components/MainFeature.jsx:109-136 | The outcome is the `Admit` verdict; only an admitted name changes the registry, by appending; the board and the turn are unchanged; the invariant holds |
| Engine.Game.HandleLineClick | src/components/MainFeature.jsx:139-259 | A click outside an active game changes nothing. Otherwise the grid becomes the move. If a square closed, the index stays, the mover gains exactly one point, and the game ends, with the unique top scorer or a tie, iff the completed-before-plus-one test passes. If no square closed, the index advances modulo the player count and only that player is active. The invariant holds |
| Engine.Game.ScoreAndCheckEnd | src/components/MainFeature.jsx:217-244 | The scoring branch: the new grid and scores are stored, the turn stays, and status and winner follow the completed-before-plus-one test |
| Engine.Game.PassTurn | src/components/MainFeature.jsx:248-258 | The branch that closed nothing: the index becomes `(old + 1) % length` and only that player is active; status stays active |
| Engine.MoveKeepsInvariant | src/components/MainFeature.jsx:145-258 | A legal move keeps the board invariants. The scan flags a completion iff some square is newly closed. The score bookkeeping holds on both paths: award-and-keep-turn, and hand-on |
| Engine.ScoreKeepsInv | src/components/MainFeature.jsx:217-223 | After the scoring branch, the invariant holds with the unscored count raised by the newly closed squares minus one |
| Engine.PassKeepsInv | src/components/MainFeature.jsx:248-258 | After the hand-on branch, the invariant holds at the next index with the unscored count unchanged |
| Engine.FinishKeepsInv | src/components/MainFeature.jsx:235-236 | Ending the game keeps the invariant, whatever the winner |
| Engine.ScoreQuirk | src/components/MainFeature.jsx:218-222 | A completing move adds the number of newly closed squares (at least one) to the completed count, but exactly 1 to the score total |
| Engine.GameOverQuirk | src/components/MainFeature.jsx:228-231 | When the last two open squares close on one line, every square is completed, yet the game-over test fails, and no clickable line remains |
| Engine.EndsGame | src/components/MainFeature.jsx:228-231 | A definition: the move closed a square and the completed-before-plus-one count reaches the total; its properties are stated by `Engine.EndsOnlyWhenAllClaimed`, `Engine.GameOverOnSingleClose`, `Engine.GameOverQuirk` and `Engine.FinalMove` |
| Engine.EndsOnlyWhenAllClaimed | src/components/MainFeature.jsx:228-231 | When the game-over test passes, every square is completed: the game never ends while a square is open |
| Engine.FinalMove | src/components/MainFeature.jsx:228-243 | The move that claims the last open squares closes one or two; with one the game ends, with two it stays active |
| Engine.GameOverOnSingleClose | src/components/MainFeature.jsx:228-231 | When a move closes exactly one square, the game-over test passes iff every square is then completed |
| Engine.TurnRotation | src/components/MainFeature.jsx:249-256 | The next index is `i + 1`, or 0 after the last player, and never the current index; exactly that player is active; its id is the next id, wrapping to 1 |

## Left out

- Toast notifications (`:100`, `:111`, `:116`, `:135`, `:225`, `:239-241`). They are user-interface side effects.
- Sound playback (`:208-214`) and the sound toggle: browser audio I/O.
- `shareGame` (`:262-275`). It uses the asynchronous share and clipboard browser APIs.
- JSX rendering, animation and layout (`:282` onwards), and the settings panel toggle. These are presentation. The click guard `!isDrawn` (`:462`, `:493`) becomes the requires of `Engine.Game.HandleLineClick`.
- Clearing the name box after an add (`:134`). It is text-box state of the user interface, so `Engine.Game.AddPlayer` takes the typed name as a parameter.
- React batching and stale closures. Each handler is one atomic transition that reads the state before the call.
- String ids (`h-x-y`, `v-x-y`, `square-x-y`, `dot-x-y`). Lines are identified by a structured `LineId` of orientation and coordinates: a line's separate `x`/`y` fields are folded into it. Dots and squares keep their `x`/`y` fields and drop only the id string; a square's coordinates serve as its identifier.
- The `lineType` argument of the click handler. The orientation is part of the structured line id.
- The home page, the not-found page and the icon lookup module are not part of this model. They hold no game logic.
- `Engine.Game.HandleLineClick`: for an active game it requires a line that exists and is not drawn. Clicks with other ids cannot come from the board.
- `Players.Admit`: JavaScript strings are sequences of UTF-16 code units, while the model's `string` is a sequence of Unicode scalar values. A name holding a lone surrogate therefore cannot be represented. Every character `trim` removes is a single code unit of the Basic Multilingual Plane, so the blank-name test is unaffected.
- The score invariant in `Engine.Game` needs a ghost count of unscored squares (`missedPoints`), because the code adds one point per move, not one per square.
