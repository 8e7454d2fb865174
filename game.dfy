/** The `Game` component's state: the list of board snapshots, the pointer to the
    displayed one, and the order the move list is shown in. Each setter call of the
    program is an assignment to a field here. */
module GameComponent {
  import opened Squares
  import opened Winner
  import opened BoardComponent

  /** Whose turn it is at move k: X on even moves. */
  function XIsNextAt(k: nat): bool {
    k % 2 == 0
  }

  /** Snapshot next is snapshot prev after one click the guard accepted, made at
      move k by the player whose turn it was. */
  ghost predicate Follows(prev: Board, next: Board, k: nat) {
    next.lastMove.Some? &&
    Accepts(prev, next.lastMove.value) &&
    next == Place(prev, next.lastMove.value, MarkFor(XIsNextAt(k)))
  }

  /** A history the game can build: it starts with the empty board and every
      snapshot follows the one before it. */
  ghost predicate Playable(h: seq<Board>) {
    |h| > 0 && h[0] == EmptyBoard &&
    forall k :: 0 <= k < |h| - 1 ==> Follows(h[k], h[k + 1], k)
  }

  /** Snapshot k of a playable history holds k marks: (k + 1) / 2 of X and k / 2 of O. */
  lemma {:induction false} SnapshotMarks(h: seq<Board>, k: nat)
    requires Playable(h) && k < |h|
    ensures Count(h[k].cells, X) == (k + 1) / 2
    ensures Count(h[k].cells, O) == k / 2
    ensures Count(h[k].cells, Empty) == 9 - k
  {
    if k == 0 {
      EmptyBoardCounts();
    } else {
      SnapshotMarks(h, k - 1);
      assert Follows(h[k - 1], h[k], k - 1);
      FollowsAddsMark(h[k - 1], h[k], k - 1);
    }
  }

  /** One accepted move at move k adds a mark of the player whose turn it was. */
  lemma FollowsAddsMark(prev: Board, next: Board, k: nat)
    requires Follows(prev, next, k)
    ensures Count(next.cells, X) == Count(prev.cells, X) + (if XIsNextAt(k) then 1 else 0)
    ensures Count(next.cells, O) == Count(prev.cells, O) + (if XIsNextAt(k) then 0 else 1)
    ensures Count(next.cells, Empty) == Count(prev.cells, Empty) - 1
  {
    PlaceAddsOneMark(prev, next.lastMove.value, MarkFor(XIsNextAt(k)));
  }

  /** The empty board holds nine empty squares and no mark. */
  lemma EmptyBoardCounts()
    ensures Count(EmptyGrid, Empty) == 9 && Count(EmptyGrid, X) == 0 && Count(EmptyGrid, O) == 0
  {
  }

  /** A playable history has at most ten snapshots: nine moves fill the board. */
  lemma HistoryAtMostTen(h: seq<Board>)
    requires Playable(h)
    ensures |h| <= 10
  {
    SnapshotMarks(h, |h| - 1);
  }

  /** After nine moves the board is full, so the game is decided. */
  lemma FullAfterNineMoves(h: seq<Board>)
    requires Playable(h) && |h| == 10
    ensures IsFull(h[9].cells)
    ensures Evaluate(h[9].cells) != Ongoing
  {
    SnapshotMarks(h, 9);
    FullIffNoEmpty(h[9].cells);
    FullBoard(h[9].cells);
  }

  /** Every snapshot but the last is an open game: the guard accepts no move after a
      win or a draw, so a decided board can only end the history. */
  lemma EarlierSnapshotsOpen(h: seq<Board>, k: nat)
    requires Playable(h) && k < |h| - 1
    ensures Evaluate(h[k].cells) == Ongoing
    ensures h[k + 1].lastMove.Some? && h[k].cells[h[k + 1].lastMove.value] == Empty
  {
  }

  /** X is to move at snapshot k exactly when the players hold equally many marks. */
  lemma TurnFromMarks(h: seq<Board>, k: nat)
    requires Playable(h) && k < |h|
    ensures XIsNextAt(k) <==> Count(h[k].cells, X) == Count(h[k].cells, O)
  {
    SnapshotMarks(h, k);
  }

  /** Keeping the snapshots up to the pointer and appending one that follows the
      last kept one gives a playable history again. */
  lemma TruncateAndAppend(h: seq<Board>, c: nat, b: Board)
    requires Playable(h) && c < |h|
    requires Follows(h[c], b, c)
    ensures Playable(h[..c + 1] + [b])
  {
  }

  class Game {
    var history: seq<Board>
    var currentMove: nat
    var sortOrder: bool

    /** The pointer is inside the history, and the history is playable. */
    ghost predicate Valid()
      reads this
    {
      Playable(history) && currentMove < |history|
    }

    /** One empty board, the pointer at it, the list in ascending order. */
    constructor ()
      ensures Valid()
      ensures history == [EmptyBoard] && currentMove == 0 && sortOrder
    {
      history := [EmptyBoard];
      currentMove := 0;
      sortOrder := true;
    }

    /** X moves on even moves; `TurnFromMarks` shows that in a valid game this is
      exactly when the displayed board holds as many X marks as O marks. */
    function XIsNext(): (r: bool)
      reads this
      ensures r <==> currentMove % 2 == 0
    {
      XIsNextAt(currentMove)
    }

    /** The displayed snapshot: in a valid game the starting board exactly when the
      pointer is at the start, and otherwise the board the move it records produced. */
    function CurrentSquares(): (r: Board)
      reads this
      requires currentMove < |history|
      ensures Valid() ==> (r == EmptyBoard <==> currentMove == 0)
      ensures Valid() && currentMove > 0 ==>
        r.lastMove.Some? && r.cells[r.lastMove.value] == MarkFor(XIsNextAt(currentMove - 1))
    {
      assert Valid() && currentMove > 0 ==> Follows(history[currentMove - 1], history[currentMove], currentMove - 1);
      history[currentMove]
    }

    /** Drops every snapshot after the displayed one, appends the new board and
      points at it; the kept snapshots are untouched. */
    method HandlePlay(nextSquares: Board)
      requires currentMove < |history|
      modifies this`history, this`currentMove
      ensures history == old(history[..currentMove + 1]) + [nextSquares]
      ensures currentMove == old(currentMove) + 1 == |history| - 1
      ensures forall k :: 0 <= k <= old(currentMove) ==> history[k] == old(history[k])
    {
      var nextHistory := history[..currentMove + 1] + [nextSquares];
      history := nextHistory;
      currentMove := |nextHistory| - 1;
    }

    /** Flips the display order of the move list and nothing else. */
    method HandleSort()
      requires Valid()
      modifies this`sortOrder
      ensures Valid()
      ensures sortOrder == !old(sortOrder)
    {
      sortOrder := !sortOrder;
    }

    /** Points at snapshot nextMove and changes nothing else. */
    method JumpTo(nextMove: nat)
      requires Valid() && nextMove < |history|
      modifies this`currentMove
      ensures Valid()
      ensures currentMove == nextMove
    {
      currentMove := nextMove;
    }

    /** A click on square i of the displayed board: the board's click handler with
      HandlePlay as its onPlay. A rejected click changes nothing; an accepted one
      replaces the snapshots after the displayed one with the displayed board plus
      the mover's mark on i. Either way the history stays playable. */
    method Click(i: Index)
      requires Valid()
      modifies this`history, this`currentMove
      ensures Valid()
      ensures !Accepts(old(CurrentSquares()), i) ==>
        history == old(history) && currentMove == old(currentMove)
      ensures Accepts(old(CurrentSquares()), i) ==>
        history == old(history[..currentMove + 1]) +
          [Place(old(CurrentSquares()), i, MarkFor(old(XIsNext())))] &&
        currentMove == old(currentMove) + 1
      ensures Accepts(old(CurrentSquares()), i) ==>
        CurrentSquares() == Place(old(CurrentSquares()), i, MarkFor(old(XIsNext()))) &&
        XIsNext() == !old(XIsNext())
    {
      var next := HandleClick(CurrentSquares(), XIsNext(), i);
      if next.Some? {
        TruncateAndAppend(history, currentMove, next.value);
        HandlePlay(next.value);
      }
    }
  }
}
