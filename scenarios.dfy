/** Whole games played through the `Game` class, each checked against what a player
    sees: the squares, the move pointer and the status line. */
module Scenarios {
  import opened Squares
  import opened Winner
  import opened BoardComponent
  import opened GameComponent

  /** A board with an empty square and no complete line is an open game. */
  lemma OpenGame(s: Grid, e: Index)
    requires s[e] == Empty
    requires !Complete(s, 0) && !Complete(s, 1) && !Complete(s, 2) && !Complete(s, 3)
    requires !Complete(s, 4) && !Complete(s, 5) && !Complete(s, 6) && !Complete(s, 7)
    ensures Evaluate(s) == Ongoing
  {
  }

  /** X opens on square 0: the mark is X, the pointer moves to 1, and O is to move. */
  method FirstMove() returns (mark: Cell, move: nat, status: string)
    ensures mark == X && move == 1 && status == "Next player: O"
  {
    var g := new Game();
    g.Click(0);
    OpenGame(g.CurrentSquares().cells, 8);
    mark := g.CurrentSquares().cells[0];
    move := g.currentMove;
    var highlighted;
    status, highlighted := Status(g.CurrentSquares(), g.XIsNext());
  }

  /** A second click on a marked square is ignored. */
  method ClickOnMarkedSquare() returns (length: nat, move: nat)
    ensures length == 2 && move == 1
  {
    var g := new Game();
    g.Click(0);
    g.Click(0);
    length, move := |g.history|, g.currentMove;
  }

  /** The first four moves X0 O3 X1 O4 of a game. */
  method TopRowOpening() returns (g: Game)
    ensures fresh(g) && g.Valid() && g.currentMove == 4
    ensures g.CurrentSquares().cells == [X, X, Empty, O, O, Empty, Empty, Empty, Empty]
  {
    g := new Game();
    OpenGame(g.CurrentSquares().cells, 8);
    g.Click(0);
    OpenGame(g.CurrentSquares().cells, 8);
    g.Click(3);
    OpenGame(g.CurrentSquares().cells, 8);
    g.Click(1);
    OpenGame(g.CurrentSquares().cells, 8);
    g.Click(4);
  }

  /** X takes the top row (X0 O3 X1 O4 X2): X wins on that row, and a further click
      on a free square is ignored. */
  method TopRowWin() returns (status: string, highlighted: Option<seq<Index>>, length: nat)
    ensures status == "Winner: X" && highlighted == Some([0, 1, 2]) && length == 6
  {
    var g := TopRowOpening();
    OpenGame(g.CurrentSquares().cells, 8);
    g.Click(2);
    var s := g.CurrentSquares().cells;
    assert Complete(s, 0) && FirstComplete(s, 0) == 0;
    assert Evaluate(s) == Won(X, 0, 1, 2);
    status, highlighted := Status(g.CurrentSquares(), g.XIsNext());
    g.Click(5);
    length := |g.history|;
  }

  /** Two moves, a jump back to the start, then X on square 5: the two later
      snapshots are dropped and the new one takes their place. */
  method JumpBackAndReplay() returns (length: nat, move: nat, last: Board)
    ensures length == 2 && move == 1
    ensures last.cells[5] == X && last.lastMove == Some(5)
    ensures forall j: Index :: j != 5 ==> last.cells[j] == Empty
  {
    var g := new Game();
    OpenGame(g.CurrentSquares().cells, 8);
    g.Click(0);
    OpenGame(g.CurrentSquares().cells, 8);
    g.Click(1);
    g.JumpTo(0);
    g.Click(5);
    length, move, last := |g.history|, g.currentMove, g.CurrentSquares();
  }

  /** The first five moves X0 O1 X2 O4 X3 of a game. */
  method LeftColumnOpening() returns (g: Game)
    ensures fresh(g) && g.Valid() && g.currentMove == 5
    ensures g.CurrentSquares().cells == [X, O, X, X, O, Empty, Empty, Empty, Empty]
  {
    g := new Game();
    OpenGame(g.CurrentSquares().cells, 6);
    g.Click(0);
    OpenGame(g.CurrentSquares().cells, 6);
    g.Click(1);
    OpenGame(g.CurrentSquares().cells, 6);
    g.Click(2);
    OpenGame(g.CurrentSquares().cells, 6);
    g.Click(4);
    OpenGame(g.CurrentSquares().cells, 6);
    g.Click(3);
  }

  /** The moves X0 O1 X2 O4 X3 O5 X7 O8 X6: X's ninth mark completes the left column
      and fills the board, and the status line reports a draw. */
  method LeftColumnOnLastMove() returns (status: string, highlighted: Option<seq<Index>>)
    ensures status == "It's a draw!" && highlighted == None
  {
    var g := LeftColumnOpening();
    OpenGame(g.CurrentSquares().cells, 6);
    g.Click(5);
    OpenGame(g.CurrentSquares().cells, 6);
    g.Click(7);
    OpenGame(g.CurrentSquares().cells, 6);
    g.Click(8);
    OpenGame(g.CurrentSquares().cells, 6);
    g.Click(6);
    assert g.CurrentSquares().cells == LeftColumnOnFullBoard;
    LeftColumnWinIsReportedAsDraw();
    status, highlighted := Status(g.CurrentSquares(), g.XIsNext());
  }
}
