/**
 * The game component's state and its handlers: starting a game, adding a
 * player, and a click on a line (draw, claim squares, score, hand on the
 * turn or keep it, end the game).  Each handler is one atomic transition
 * computed from the state before the call.
 */
module Engine {
  import opened Wrappers
  import opened Board
  import opened Players

  datatype Status = Waiting | Active | Completed

  /** Total number of squares for a grid of size `n`. */
  function TotalSquares(n: nat): int
  {
    (n - 1) * (n - 1)
  }

  /**
   * The game-over test of a move: a square was closed and the squares that
   * were completed BEFORE the move, plus one, reach the total.
   */
  predicate EndsGame(g: Grid, n: nat, id: LineId, pid: nat)
  {
    MoveCompletes(g, id, pid) && CompletedCount(g.squares) + 1 >= TotalSquares(n)
  }

  /** The settings a new game needs: a size the slider allows and a registry of two to four players. */
  ghost predicate Settings(n: nat, ps: seq<Player>)
  {
    3 <= n <= 10 && 2 <= |ps| && Registry(ps)
  }

  /**
   * The invariant of the component's state, over its values: exactly the
   * current player is marked active; before the first game there is no
   * grid, afterwards the grid has the shape built for the size (`shape`)
   * and is consistent; every completed square is either scored or one of
   * the `missed` extra squares of a double completion; and a winner is only
   * announced in a completed game.
   */
  ghost predicate Inv(n: nat, ps: seq<Player>, i: nat, g: Grid, st: Status, w: Option<Player>, missed: nat, shape: Grid)
  {
    && Settings(n, ps)
    && i < |ps| && ActiveExactly(ps, i)
    && (st == Waiting ==> g == EmptyGrid)
    && (st != Waiting ==> shape == InitialGrid(n) && SameShape(g, shape))
    && Consistent(g)
    && CompletedCount(g.squares) == ScoreSum(ps) + missed
    && (st != Completed ==> w == None)
  }

  class Game {
    var gridSize: nat
    var players: seq<Player>
    var currentPlayerIndex: nat
    var grid: Grid
    var gameStatus: Status
    var winner: Option<Player>
    /** Squares completed beyond the first in a single move: they were claimed but never scored. */
    ghost var missedPoints: nat
    /** The grid as built for the current size, drawn flags aside. */
    ghost var shape: Grid

    ghost predicate Configured()
      reads this
    {
      Settings(gridSize, players)
    }

    ghost predicate Valid()
      reads this
    {
      Inv(gridSize, players, currentPlayerIndex, grid, gameStatus, winner, missedPoints, shape)
    }

    function CurrentPlayer(): Player
      reads this
      requires Valid()
    {
      players[currentPlayerIndex]
    }

    /** The state before the first game: two players, the first one active, no grid yet. */
    constructor (username: string)
      ensures Valid()
      ensures gridSize == 5 && gameStatus == Waiting && winner == None && currentPlayerIndex == 0
      ensures players == [Player(1, if username == "" then "Player 1" else username, Palette[0], 0, true),
                          Player(2, "Player 2", Palette[1], 0, false)]
      ensures grid == EmptyGrid && missedPoints == 0
    {
      gridSize := 5;
      players := [Player(1, if username == "" then "Player 1" else username, Palette[0], 0, true),
                  Player(2, "Player 2", Palette[1], 0, false)];
      currentPlayerIndex := 0;
      grid := EmptyGrid;
      gameStatus := Waiting;
      winner := None;
      missedPoints := 0;
      shape := EmptyGrid;
      new;
      ZeroSum(players);
    }

    /** A fresh grid, scores reset, the first player to move, the game active. */
    method InitializeGame()
      requires Configured()
      modifies this
      ensures Valid()
      ensures gridSize == old(gridSize)
      ensures grid == InitialGrid(gridSize)
      ensures players == ResetPlayers(old(players))
      ensures currentPlayerIndex == 0 && gameStatus == Active && winner == None
      ensures missedPoints == 0
    {
      var g := BuildGrid(gridSize);
      grid := g;
      InitialGridConsistent(gridSize);
      ResetPlayersReady(players);
      players := ResetPlayers(players);
      currentPlayerIndex := 0;
      gameStatus := Active;
      winner := None;
      missedPoints := 0;
      shape := g;
    }

    /** The size slider: a new size, and the game rebuilt for it. */
    method ChangeGridSize(n: nat)
      requires Configured() && 3 <= n <= 10
      modifies this
      ensures Valid()
      ensures gridSize == n && grid == InitialGrid(n)
      ensures players == ResetPlayers(old(players))
      ensures currentPlayerIndex == 0 && gameStatus == Active && winner == None
    {
      gridSize := n;
      InitializeGame();
    }

    /** `addPlayer` with the text typed into the name box. */
    method AddPlayer(name: string) returns (outcome: AddOutcome)
      requires Valid()
      modifies this
      ensures Valid()
      ensures outcome == Admit(old(players), name)
      ensures players == if outcome == Added then Appended(old(players), name) else old(players)
      ensures gridSize == old(gridSize) && grid == old(grid) && currentPlayerIndex == old(currentPlayerIndex)
      ensures gameStatus == old(gameStatus) && winner == old(winner)
    {
      outcome := Admit(players, name);
      if outcome == Added {
        AppendedKeeps(players, name, currentPlayerIndex);
        players := Appended(players, name);
      }
    }

    /**
     * A click on line `id`.  The board only offers lines that exist and are
     * not yet drawn, so that is what an active game requires of the caller.
     */
    method HandleLineClick(id: LineId)
      requires Valid()
      requires gameStatus == Active ==> Clickable(grid, id)
      modifies this
      ensures Valid() && gridSize == old(gridSize)
      ensures old(gameStatus) != Active ==> unchanged(this)
      ensures old(gameStatus) == Active ==>
        var pid := old(players)[old(currentPlayerIndex)].id;
        && grid == MoveGrid(old(grid), id, pid)
        && (MoveCompletes(old(grid), id, pid) ==>
              && currentPlayerIndex == old(currentPlayerIndex)
              && players == AwardPoint(old(players), pid)
              && (if EndsGame(old(grid), gridSize, id, pid)
                  then gameStatus == Completed && winner == Winner(players)
                  else gameStatus == Active && winner == None))
        && (!MoveCompletes(old(grid), id, pid) ==>
              && currentPlayerIndex == (old(currentPlayerIndex) + 1) % |old(players)|
              && players == SetActive(old(players), currentPlayerIndex)
              && gameStatus == Active && winner == None)
    {
      if gameStatus != Active {
        return;
      }
      var currentPlayer := players[currentPlayerIndex];
      var newGrid, squareCompleted := ApplyLineClick(grid, id, currentPlayer.id);
      if squareCompleted {
        var missed := ScoreKeepsInv(gridSize, players, currentPlayerIndex, grid, winner, missedPoints, shape, id);
        var updatedPlayers := AwardPoint(players, currentPlayer.id);
        ScoreAndCheckEnd(newGrid, updatedPlayers, missed);
      } else {
        PassTurn(id, newGrid);
      }
    }

    /** The branch of a click that closed a square: one point, the same player again, and the game-over test. */
    method ScoreAndCheckEnd(newGrid: Grid, updatedPlayers: seq<Player>, ghost missed: nat)
      requires Inv(gridSize, updatedPlayers, currentPlayerIndex, newGrid, Active, None, missed, shape)
      modifies this
      ensures Valid() && gridSize == old(gridSize) && grid == newGrid
      ensures currentPlayerIndex == old(currentPlayerIndex) && players == updatedPlayers
      ensures if CompletedCount(old(grid).squares) + 1 >= TotalSquares(gridSize)
              then gameStatus == Completed && winner == Winner(players)
              else gameStatus == Active && winner == None
    {
      var totalSquares := (gridSize - 1) * (gridSize - 1);
      var completedSquares := CompletedCount(grid.squares) + 1;
      if completedSquares >= totalSquares {
        FinishKeepsInv(gridSize, updatedPlayers, currentPlayerIndex, newGrid, missed, shape, Winner(updatedPlayers));
        grid, players, gameStatus, winner, missedPoints := newGrid, updatedPlayers, Completed, Winner(updatedPlayers), missed;
      } else {
        grid, players, gameStatus, winner, missedPoints := newGrid, updatedPlayers, Active, None, missed;
      }
    }

    /** The branch of a click that closed nothing: the turn passes to the next player, wrapping around. */
    method PassTurn(id: LineId, newGrid: Grid)
      requires Valid() && gameStatus == Active && Clickable(grid, id)
      requires newGrid == MoveGrid(grid, id, CurrentPlayer().id) && !MoveCompletes(grid, id, CurrentPlayer().id)
      modifies this
      ensures Valid() && gridSize == old(gridSize) && grid == newGrid
      ensures currentPlayerIndex == (old(currentPlayerIndex) + 1) % |old(players)|
      ensures players == SetActive(old(players), currentPlayerIndex)
      ensures gameStatus == Active && winner == None
    {
      PassKeepsInv(gridSize, players, currentPlayerIndex, grid, winner, missedPoints, shape, id);
      var nextPlayerIndex := (currentPlayerIndex + 1) % |players|;
      grid, currentPlayerIndex, players := newGrid, nextPlayerIndex, SetActive(players, nextPlayerIndex);
    }
  }

  // ---------------------------------------------------------------------------
  // Properties of a move, as the handler applies it
  // ---------------------------------------------------------------------------

  /** A legal move keeps the board invariants and the score bookkeeping, on both the extra-turn and the hand-on path. */
  lemma MoveKeepsInvariant(g: Grid, n: nat, id: LineId, ps: seq<Player>, i: nat, missed: nat)
    requires n >= 1 && Layout(g, n) && Consistent(g) && Clickable(g, id)
    requires Registry(ps) && 2 <= |ps| && i < |ps| && ActiveExactly(ps, i)
    requires CompletedCount(g.squares) == ScoreSum(ps) + missed
    ensures var pid := ps[i].id;
      var m := MoveGrid(g, id, pid);
      var d := WithLine(g, id, pid);
      var newly := NewlyCount(g.squares, d.horizontalLines, d.verticalLines);
      && SameShape(m, g) && Consistent(m)
      && (MoveCompletes(g, id, pid) <==> newly > 0)
      && (MoveCompletes(g, id, pid) ==>
            var r := AwardPoint(ps, pid);
            Registry(r) && ActiveExactly(r, i) && CompletedCount(m.squares) == ScoreSum(r) + missed + newly - 1)
      && (!MoveCompletes(g, id, pid) ==>
            var r := SetActive(ps, (i + 1) % |ps|);
            Registry(r) && CompletedCount(m.squares) == ScoreSum(r) + missed)
  {
    var pid := ps[i].id;
    var d := WithLine(g, id, pid);
    MovePreserves(g, n, id, pid);
    UpdateSquaresCounts(g.squares, d.horizontalLines, d.verticalLines, pid, pid);
    NewlyPositive(g.squares, d.horizontalLines, d.verticalLines);
    AwardPointKeeps(ps, i, i);
    SetActiveKeeps(ps, (i + 1) % |ps|);
  }

  /**
   * The invariant after the scoring branch of a click, before the game-over
   * test: `missed'` is the new count of completed but unscored squares.
   */
  lemma ScoreKeepsInv(n: nat, ps: seq<Player>, i: nat, g: Grid, w: Option<Player>, missed: nat, shape: Grid, id: LineId)
    returns (missed': nat)
    requires Inv(n, ps, i, g, Active, w, missed, shape) && Clickable(g, id)
    requires MoveCompletes(g, id, ps[i].id)
    ensures var pid := ps[i].id;
      var d := WithLine(g, id, pid);
      && missed' + 1 == missed + NewlyCount(g.squares, d.horizontalLines, d.verticalLines)
      && Inv(n, AwardPoint(ps, pid), i, MoveGrid(g, id, pid), Active, None, missed', shape)
  {
    var d := WithLine(g, id, ps[i].id);
    MoveKeepsInvariant(g, n, id, ps, i, missed);
    missed' := missed + NewlyCount(g.squares, d.horizontalLines, d.verticalLines) - 1;
  }

  /** Ending the game keeps the invariant, whichever winner is announced. */
  lemma FinishKeepsInv(n: nat, ps: seq<Player>, i: nat, g: Grid, missed: nat, shape: Grid, w: Option<Player>)
    requires Inv(n, ps, i, g, Active, None, missed, shape)
    ensures Inv(n, ps, i, g, Completed, w, missed, shape)
  {
  }

  /** The invariant after the branch of a click that closed nothing. */
  lemma PassKeepsInv(n: nat, ps: seq<Player>, i: nat, g: Grid, w: Option<Player>, missed: nat, shape: Grid, id: LineId)
    requires Inv(n, ps, i, g, Active, w, missed, shape) && Clickable(g, id)
    requires !MoveCompletes(g, id, ps[i].id)
    ensures var j := (i + 1) % |ps|;
      Inv(n, SetActive(ps, j), j, MoveGrid(g, id, ps[i].id), Active, None, missed, shape)
  {
    MoveKeepsInvariant(g, n, id, ps, i, missed);
  }

  /**
   * Score rule as written: a move that closes `c >= 1` squares adds `c` to the
   * completed squares but only 1 to the total score; so the score total
   * matches the completed squares only while no move has closed two.
   */
  lemma ScoreQuirk(g: Grid, n: nat, id: LineId, ps: seq<Player>, i: nat)
    requires n >= 1 && Layout(g, n) && Consistent(g) && Clickable(g, id)
    requires Registry(ps) && i < |ps| && ActiveExactly(ps, i)
    requires MoveCompletes(g, id, ps[i].id)
    ensures var m := MoveGrid(g, id, ps[i].id);
      var d := WithLine(g, id, ps[i].id);
      && CompletedCount(m.squares) == CompletedCount(g.squares) + NewlyCount(g.squares, d.horizontalLines, d.verticalLines)
      && NewlyCount(g.squares, d.horizontalLines, d.verticalLines) >= 1
      && ScoreSum(AwardPoint(ps, ps[i].id)) == ScoreSum(ps) + 1
  {
    var pid := ps[i].id;
    var d := WithLine(g, id, pid);
    UpdateSquaresCounts(g.squares, d.horizontalLines, d.verticalLines, pid, pid);
    NewlyPositive(g.squares, d.horizontalLines, d.verticalLines);
    AwardPointKeeps(ps, i, i);
  }

  /**
   * Game-over rule as written: when the last two open squares are closed by
   * one line, the test `completed before + 1 >= total` fails, so the game
   * stays active although every square is claimed, and no line is left to click.
   */
  lemma GameOverQuirk(g: Grid, n: nat, id: LineId, pid: nat)
    requires n >= 2 && Layout(g, n) && Consistent(g) && Clickable(g, id)
    requires CompletedCount(g.squares) + 2 == TotalSquares(n)
    requires var d := WithLine(g, id, pid); NewlyCount(g.squares, d.horizontalLines, d.verticalLines) == 2
    ensures var m := MoveGrid(g, id, pid);
      && CompletedCount(m.squares) == |m.squares| == TotalSquares(n)
      && MoveCompletes(g, id, pid) && !EndsGame(g, n, id, pid)
      && forall id' :: !Clickable(m, id')
  {
    var d := WithLine(g, id, pid);
    var m := MoveGrid(g, id, pid);
    InitialGridShape(n);
    assert |Frames(g.squares)| == |g.squares|;
    UpdateSquaresCounts(g.squares, d.horizontalLines, d.verticalLines, pid, pid);
    NewlyPositive(g.squares, d.horizontalLines, d.verticalLines);
    MovePreserves(g, n, id, pid);
    forall id' ensures !Clickable(m, id') {
      AllClaimedNoMove(m, n, id');
    }
  }

  /** When a move closes exactly one square, the game ends exactly when every square is then claimed. */
  lemma GameOverOnSingleClose(g: Grid, n: nat, id: LineId, pid: nat)
    requires n >= 1 && Layout(g, n) && Consistent(g)
    requires var d := WithLine(g, id, pid); NewlyCount(g.squares, d.horizontalLines, d.verticalLines) == 1
    ensures EndsGame(g, n, id, pid) <==> CompletedCount(MoveGrid(g, id, pid).squares) == TotalSquares(n)
  {
    var d := WithLine(g, id, pid);
    InitialGridShape(n);
    assert |Frames(g.squares)| == |g.squares|;
    UpdateSquaresCounts(g.squares, d.horizontalLines, d.verticalLines, pid, pid);
    NewlyPositive(g.squares, d.horizontalLines, d.verticalLines);
  }

  /** The game never ends while a square is open: when the game-over test passes, every square is claimed. */
  lemma EndsOnlyWhenAllClaimed(g: Grid, n: nat, id: LineId, pid: nat)
    requires n >= 1 && Layout(g, n) && Consistent(g) && EndsGame(g, n, id, pid)
    ensures CompletedCount(MoveGrid(g, id, pid).squares) == TotalSquares(n)
  {
    var d := WithLine(g, id, pid);
    InitialGridShape(n);
    assert |Frames(g.squares)| == |g.squares|;
    UpdateSquaresCounts(g.squares, d.horizontalLines, d.verticalLines, pid, pid);
    NewlyPositive(g.squares, d.horizontalLines, d.verticalLines);
  }

  /**
   * The move that claims the last open squares closes one or two of them: it
   * ends the game when it closes one, and leaves the game active when it
   * closes two.
   */
  lemma FinalMove(g: Grid, n: nat, id: LineId, pid: nat)
    requires n >= 1 && Layout(g, n) && Consistent(g)
    requires CompletedCount(g.squares) < TotalSquares(n) == CompletedCount(MoveGrid(g, id, pid).squares)
    ensures var d := WithLine(g, id, pid);
      var newly := NewlyCount(g.squares, d.horizontalLines, d.verticalLines);
      || (newly == 1 && EndsGame(g, n, id, pid))
      || (newly == 2 && !EndsGame(g, n, id, pid))
  {
    var d := WithLine(g, id, pid);
    UpdateSquaresCounts(g.squares, d.horizontalLines, d.verticalLines, pid, pid);
    NewlyPositive(g.squares, d.horizontalLines, d.verticalLines);
    AtMostTwoClosed(g, n, id, pid);
  }

  /** A move that closes no square hands the turn to the next player in order, wrapping around. */
  lemma TurnRotation(ps: seq<Player>, i: nat)
    requires Registry(ps) && 2 <= |ps| && i < |ps|
    ensures var next := (i + 1) % |ps|;
      && next < |ps| && next != i
      && (i + 1 < |ps| ==> next == i + 1)
      && (i + 1 == |ps| ==> next == 0)
      && ActiveExactly(SetActive(ps, next), next)
      && SetActive(ps, next)[next].id == (if i + 1 == |ps| then 1 else ps[i].id + 1)
  {
  }
}
