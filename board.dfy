/** The logic of the `Board` component: the click handler, which guards a move and
    builds the next board, and the status line shown above the squares. */
module BoardComponent {
  import opened Squares
  import opened Winner

  /** The click guard: the square is free and the winner check reports an open game. */
  predicate Accepts(squares: Board, i: Index) {
    squares.cells[i] == Empty && Evaluate(squares.cells) == Ongoing
  }

  /** The board a move produces: the squares with m written on square i, and i
      recorded as the last move. */
  function Place(squares: Board, i: Index, m: Cell): Board {
    Board(squares.cells[i := m], Some(i))
  }

  /** A click on square i. None stands for the handler returning before it calls
      onPlay; Some(b) for the call onPlay(b). The old board is a value, so the copy
      the handler writes into can never alias it. */
  method HandleClick(squares: Board, xIsNext: bool, i: Index) returns (next: Option<Board>)
    ensures next.None? <==> squares.cells[i] != Empty || Evaluate(squares.cells) != Ongoing
    ensures next.Some? ==> next.value == Place(squares, i, MarkFor(xIsNext))
  {
    if squares.cells[i] != Empty {
      return None;
    }
    var winner := CalculateWinner(squares.cells);
    if winner != Ongoing {
      return None;
    }
    var nextSquares := squares.cells;
    if xIsNext {
      nextSquares := nextSquares[i := X];
    } else {
      nextSquares := nextSquares[i := O];
    }
    next := Some(Board(nextSquares, Some(i)));
  }

  /** An accepted move changes only square i, to the mover's mark, and records i. */
  lemma PlaceChangesOneSquare(squares: Board, i: Index, m: Cell)
    ensures Place(squares, i, m).lastMove == Some(i)
    ensures Place(squares, i, m).cells[i] == m
    ensures forall j: Index :: j != i ==> Place(squares, i, m).cells[j] == squares.cells[j]
  {
  }

  /** An accepted move adds one mark of the mover's kind, takes one empty square, and
      leaves the other player's count alone. */
  lemma PlaceAddsOneMark(squares: Board, i: Index, m: Cell)
    requires squares.cells[i] == Empty && m != Empty
    ensures Count(Place(squares, i, m).cells, m) == Count(squares.cells, m) + 1
    ensures Count(Place(squares, i, m).cells, Empty) == Count(squares.cells, Empty) - 1
    ensures forall other: Cell :: other != m && other != Empty ==>
      Count(Place(squares, i, m).cells, other) == Count(squares.cells, other)
  {
    CountUpdate(squares.cells, i, m, m);
    CountUpdate(squares.cells, i, m, Empty);
    forall other: Cell | other != m && other != Empty
      ensures Count(Place(squares, i, m).cells, other) == Count(squares.cells, other)
    {
      CountUpdate(squares.cells, i, m, other);
    }
  }

  /** The text a mark is shown as. */
  function Symbol(m: Cell): string {
    match m
    case X => "X"
    case O => "O"
    case Empty => ""
  }

  /** The status line for a verdict: the draw message, the winner's mark, or the mark
      of the player to move. */
  function StatusText(v: Verdict, xIsNext: bool): (r: string)
    ensures v.Draw? ==> r == "It's a draw!"
    ensures v.Won? ==> r == "Winner: " + Symbol(v.sym)
    ensures v.Ongoing? ==> r == "Next player: " + Symbol(MarkFor(xIsNext))
  {
    match v
    case Draw => "It's a draw!"
    case Won(sym, _, _, _) => "Winner: " + Symbol(sym)
    case Ongoing => "Next player: " + (if xIsNext then "X" else "O")
  }

  /** The status line and the squares to highlight for the displayed board. */
  method Status(squares: Board, xIsNext: bool) returns (status: string, winningSquares: Option<seq<Index>>)
    ensures status == StatusText(Evaluate(squares.cells), xIsNext)
    ensures Evaluate(squares.cells) == Draw ==> status == "It's a draw!" && winningSquares == None
    ensures Evaluate(squares.cells).Won? ==>
      var v := Evaluate(squares.cells);
      status == "Winner: " + Symbol(v.sym) && winningSquares == Some([v.a, v.b, v.c])
    ensures Evaluate(squares.cells) == Ongoing ==>
      status == "Next player: " + Symbol(MarkFor(xIsNext)) && winningSquares == None
  {
    var winner := CalculateWinner(squares.cells);
    if winner == Draw {
      status := "It's a draw!";
      winningSquares := None;
    } else if winner.Won? {
      status := "Winner: " + Symbol(winner.sym);
      winningSquares := Some([winner.a, winner.b, winner.c]);
    } else {
      status := "Next player: " + (if xIsNext then "X" else "O");
      winningSquares := None;
    }
  }

  /** The status line tells the three verdicts apart, and names the winner, or the
      player to move, unambiguously. */
  lemma StatusDistinguishes(v: Verdict, w: Verdict, x: bool, y: bool)
    requires v.Won? ==> v.sym != Empty
    requires w.Won? ==> w.sym != Empty
    requires StatusText(v, x) == StatusText(w, y)
    ensures v.Draw? == w.Draw? && v.Won? == w.Won? && v.Ongoing? == w.Ongoing?
    ensures v.Won? ==> v.sym == w.sym
    ensures v.Ongoing? ==> x == y
  {
    var t := StatusText(v, x);
    if v.Draw? {
      assert |t| == 12;
    } else if v.Won? {
      assert |t| == 9;
      if w.Won? {
        assert t[8] == StatusText(w, y)[8];
      }
    } else {
      assert |t| == 14;
      if w.Ongoing? {
        assert t[13] == StatusText(w, y)[13];
      }
    }
  }
}
