/** A round of play (game.py, class Game): whose turn it is, and the end of
    the round with its winner. */
module Games {
  import opened Cells
  import opened Lines
  import opened Boards
  import opened Players

  /** The outcome is_game_over records: the round goes on, or it is over
      with player 1, player 2 or nobody as the winner. */
  datatype Outcome = Ongoing | WonByFirst | WonBySecond | NoWinner

  /** is_game_over on a board, for players holding `s1` and `s2`: the first
      player's line is checked first. */
  function GameOutcome(b: BoardState, s1: Symbol, s2: Symbol): (r: Outcome)
    requires WellFormed(b)
    ensures r != Ongoing <==> IsTerminal(b)
    ensures r == WonByFirst <==> IsTerminal(b) && IsWinner(b, s1)
    ensures r == WonBySecond <==> IsTerminal(b) && !IsWinner(b, s1) && IsWinner(b, s2)
  {
    if !IsTerminal(b) then Ongoing
    else if IsWinner(b, s1) then WonByFirst
    else if IsWinner(b, s2) then WonBySecond
    else NoWinner
  }

  /** With one player on "X" and the other on "O", a round never ends
      without a winner: a board is terminal only when one of the symbols
      has a line. */
  lemma NoWinnerUnreachable(b: BoardState, s1: Symbol, s2: Symbol)
    requires WellFormed(b) && s1 != s2
    ensures GameOutcome(b, s1, s2) != NoWinner
  {
    assert s1 == X || s1 == O;
  }

  /** The player whose turn follows `current`'s. */
  function Next(current: Player, player1: Player, player2: Player): (p: Player)
    ensures current == player1 ==> p == player2
    ensures current != player1 ==> p == player1
  {
    if current == player1 then player2 else player1
  }

  /** Two switches give the turn back, whoever of the two has it. */
  lemma SwitchTwiceRestores(current: Player, player1: Player, player2: Player)
    requires current == player1 || current == player2
    ensures Next(Next(current, player1, player2), player1, player2) == current
  {
  }

  class Game {
    const board: Board
    const player1: Player
    const player2: Player
    var currentPlayer: Player
    var winner: Player?
    var running: bool

    /** The turn belongs to one of the two players. */
    predicate Valid()
      reads this
    {
      currentPlayer == player1 || currentPlayer == player2
    }

    /** __init__: the player holding "X" moves first; no winner yet and the
        round is running. */
    constructor (board: Board, player1: Player, player2: Player)
      ensures this.board == board && this.player1 == player1 && this.player2 == player2
      ensures Valid()
      ensures currentPlayer == (if player1.symbol == X then player1 else player2)
      ensures winner == null && running
    {
      this.board, this.player1, this.player2 := board, player1, player2;
      currentPlayer := if player1.symbol == X then player1 else player2;
      winner := null;
      running := true;
    }

    /** switch_turns: the turn passes to the other player. */
    method SwitchTurns()
      requires Valid()
      modifies this
      ensures Valid()
      ensures currentPlayer == Next(old(currentPlayer), player1, player2)
      ensures winner == old(winner) && running == old(running)
    {
      currentPlayer := if currentPlayer == player1 then player2 else player1;
    }

    /** Two calls of switch_turns restore the player to move. */
    method SwitchTwice()
      requires Valid()
      modifies this
      ensures Valid() && currentPlayer == old(currentPlayer)
      ensures winner == old(winner) && running == old(running)
    {
      SwitchTurns();
      SwitchTurns();
      SwitchTwiceRestores(old(currentPlayer), player1, player2);
    }

    /** is_game_over: true exactly on a terminal board, and then the winner
        is recorded, player 1 checked first; on any other board nothing
        changes and the answer is false. */
    method IsGameOver() returns (over: bool)
      requires board.Valid()
      modifies this
      ensures over <==> IsTerminal(board.State())
      ensures over ==> winner == WinnerOf(GameOutcome(board.State(), player1.symbol, player2.symbol))
      ensures !over ==> winner == old(winner)
      ensures currentPlayer == old(currentPlayer) && running == old(running)
    {
      if IsTerminal(board.State()) {
        if IsWinner(board.State(), player1.symbol) {
          winner := player1;
        } else if IsWinner(board.State(), player2.symbol) {
          winner := player2;
        } else {
          winner := null;
        }
        return true;
      }
      return false;
    }

    /** The player an outcome names as winner. */
    function WinnerOf(r: Outcome): (p: Player?)
      reads this
      ensures r == WonByFirst ==> p == player1
      ensures r == WonBySecond ==> p == player2
      ensures r == Ongoing || r == NoWinner ==> p == null
    {
      match r
      case WonByFirst => player1
      case WonBySecond => player2
      case _ => null
    }
  }
}
