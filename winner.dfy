/** The winner check `calculateWinner`: one scan over the eight lines in listed order
    that returns the first complete line, reports a draw as soon as the set of
    occupied squares it has met reaches nine, and otherwise reports an open game. */
module Winner {
  import opened Squares

  /** `[symbol, a, b, c]`, `"-"` and `null` in the program. */
  datatype Verdict = Won(sym: Cell, a: Index, b: Index, c: Index) | Draw | Ongoing

  /** The first complete line at or after k, or |Lines| when there is none. */
  function FirstComplete(s: Grid, k: nat): (r: nat)
    requires k <= |Lines|
    ensures k <= r <= |Lines|
    ensures r < |Lines| ==> Complete(s, r)
    ensures forall j :: k <= j < r ==> !Complete(s, j)
    decreases |Lines| - k
  {
    if k == |Lines| then k
    else if Complete(s, k) then k
    else FirstComplete(s, k + 1)
  }

  /** The verdict that names line k and its mark. */
  function WinAt(s: Grid, k: nat): Verdict
    requires k < |Lines|
  {
    var (a, b, c) := Lines[k];
    Won(s[a], a, b, c)
  }

  /** What the scan returns, stated without its loop. The three rows together cover
      every square, so on a full board the draw test fires right after the third row:
      columns and diagonals are only looked at while a square is still empty. */
  function Evaluate(s: Grid): Verdict {
    var k := FirstComplete(s, 0);
    if k < 3 then WinAt(s, k)
    else if IsFull(s) then Draw
    else if k < |Lines| then WinAt(s, k)
    else Ongoing
  }

  /** The squares the first i lines of the scan have visited. */
  function Visited(i: nat): set<Index> {
    if i == 0 then {}
    else if i == 1 then {0, 1, 2}
    else if i == 2 then {0, 1, 2, 3, 4, 5}
    else {0, 1, 2, 3, 4, 5, 6, 7, 8}
  }

  /** Scanning line i visits its three squares and no others. */
  lemma VisitedStep(i: nat)
    requires i < |Lines|
    ensures Visited(i + 1) == Visited(i) + {Lines[i].0, Lines[i].1, Lines[i].2}
  {
  }

  /** A set of squares that misses one square has fewer than nine members. */
  lemma MissingSquare(found: set<Index>, t: Index)
    requires t !in found
    ensures |found| < 9
  {
    var rest: set<Index> := {0, 1, 2, 3, 4, 5, 6, 7, 8} - {t};
    assert |rest| == 8;
    assert rest == found + (rest - found);
    assert found * (rest - found) == {};
  }

  /** The occupied squares among S. */
  function Occupied(s: Grid, S: set<Index>): set<Index> {
    set t | t in S && s[t] != Empty
  }

  /** Nine occupied squares met after line i: only possible once the rows are done,
      and then every square is occupied. */
  lemma NineMeansFull(s: Grid, found: set<Index>, i: nat)
    requires i < |Lines|
    requires found == Occupied(s, Visited(i + 1))
    requires |found| == 9
    ensures i >= 2 && IsFull(s)
  {
    if i < 2 {
      MissingSquare(found, 8);
    }
    forall t: Index ensures s[t] != Empty {
      if t !in found {
        MissingSquare(found, t);
      }
    }
  }

  /** Once the rows are done, a full board has put all nine squares in the set. */
  lemma FullMeansNine(s: Grid, found: set<Index>)
    requires found == Occupied(s, Visited(3))
    requires IsFull(s)
    ensures |found| == 9
  {
    assert found == {0, 1, 2, 3, 4, 5, 6, 7, 8};
  }

  /** One step of the scan's bookkeeping: square t joins the set when it holds a mark. */
  method AddIfOccupied(s: Grid, found: set<Index>, t: Index, ghost seen: set<Index>)
    returns (found': set<Index>)
    requires found == Occupied(s, seen)
    ensures found' == Occupied(s, seen + {t})
  {
    found' := found;
    if s[t] != Empty {
      found' := found' + {t};
    }
  }

  /** Win exit: line i is the first complete line, and the scan got past the rows
      only because the board had an empty square. */
  lemma WonAtScan(s: Grid, i: nat)
    requires i < |Lines| && Complete(s, i)
    requires forall j :: 0 <= j < i ==> !Complete(s, j)
    requires i >= 3 ==> !IsFull(s)
    ensures Evaluate(s) == WinAt(s, i)
  {
  }

  /** Draw exit: nine occupied squares met and no line complete so far. */
  lemma DrawAtScan(s: Grid, i: nat)
    requires 2 <= i < |Lines| && IsFull(s)
    requires forall j :: 0 <= j <= i ==> !Complete(s, j)
    ensures Evaluate(s) == Draw
  {
  }

  /** Fall-through exit: no line complete and a square still empty. */
  lemma OngoingAtEnd(s: Grid)
    requires forall j :: 0 <= j < |Lines| ==> !Complete(s, j)
    requires !IsFull(s)
    ensures Evaluate(s) == Ongoing
  {
  }

  /** The scan itself, with the set of occupied squares it has met. */
  method CalculateWinner(s: Grid) returns (v: Verdict)
    ensures v == Evaluate(s)
  {
    var found: set<Index> := {};
    var i := 0;
    while i < |Lines|
      invariant 0 <= i <= |Lines|
      invariant found == Occupied(s, Visited(i))
      invariant forall j :: 0 <= j < i ==> !Complete(s, j)
      invariant i >= 3 ==> !IsFull(s)
    {
      var (a, b, c) := Lines[i];
      ghost var seen := Visited(i);
      found := AddIfOccupied(s, found, a, seen);
      found := AddIfOccupied(s, found, b, seen + {a});
      found := AddIfOccupied(s, found, c, seen + {a, b});
      assert seen + {a, b, c} == Visited(i + 1) by { VisitedStep(i); }
      assert i == 2 && IsFull(s) ==> |found| == 9 by {
        if i == 2 && IsFull(s) {
          FullMeansNine(s, found);
        }
      }
      if s[a] != Empty && s[a] == s[b] && s[a] == s[c] {
        assert Evaluate(s) == WinAt(s, i) by { WonAtScan(s, i); }
        return Won(s[a], a, b, c);
      } else if |found| == 9 {
        assert i >= 2 && IsFull(s) by { NineMeansFull(s, found, i); }
        assert Evaluate(s) == Draw by { DrawAtScan(s, i); }
        return Draw;
      }
      assert !Complete(s, i);
      i := i + 1;
    }
    OngoingAtEnd(s);
    return Ongoing;
  }

  /** A reported win names one of the eight lines, in its listed orientation, whose
      three squares hold the reported mark; no line listed before it is complete. */
  lemma WinNamesFirstCompleteLine(s: Grid)
    requires Evaluate(s).Won?
    ensures var v := Evaluate(s);
      v.sym != Empty && s[v.a] == v.sym && s[v.b] == v.sym && s[v.c] == v.sym &&
      exists k :: 0 <= k < |Lines| && Lines[k] == (v.a, v.b, v.c) &&
        forall j :: 0 <= j < k ==> !Complete(s, j)
  {
  }

  /** While a square is empty there is no draw, and the game is open exactly when
      no line is complete. */
  lemma PartialBoard(s: Grid)
    requires !IsFull(s)
    ensures Evaluate(s) != Draw
    ensures Evaluate(s) == Ongoing <==> forall k :: 0 <= k < |Lines| ==> !Complete(s, k)
  {
  }

  /** On a full board the scan stops after the rows: it reports a win exactly when a
      row is complete, and a draw otherwise, even when a column or a diagonal is. */
  lemma FullBoard(s: Grid)
    requires IsFull(s)
    ensures Evaluate(s) != Ongoing
    ensures Evaluate(s).Won? <==> Complete(s, 0) || Complete(s, 1) || Complete(s, 2)
    ensures Evaluate(s) == Draw <==> !Complete(s, 0) && !Complete(s, 1) && !Complete(s, 2)
  {
  }

  /** X completed the left column with the ninth mark of the game (X at 0, 2, 3, 6, 7 and
      O at 1, 4, 5, 8): the board reached by the moves X0 O1 X2 O4 X3 O5 X7 O8 X6. */
  const LeftColumnOnFullBoard: Grid := [X, O, X, X, O, O, X, X, O]

  /** The winner check calls that board a draw although its left column is complete. */
  lemma LeftColumnWinIsReportedAsDraw()
    ensures Complete(LeftColumnOnFullBoard, 3) && LeftColumnOnFullBoard[0] == X
    ensures Evaluate(LeftColumnOnFullBoard) == Draw
  {
  }

  /** The check as evidently intended: any complete line wins, the first in listed
      order; a draw needs a full board with no complete line. */
  function EvaluateIntended(s: Grid): Verdict {
    var k := FirstComplete(s, 0);
    if k < |Lines| then WinAt(s, k)
    else if IsFull(s) then Draw
    else Ongoing
  }

  /** The intended check reports a win exactly when some line is complete, and a draw
      exactly when the board is full and no line is complete. */
  lemma IntendedReportsEveryLine(s: Grid)
    ensures EvaluateIntended(s).Won? <==> exists k :: 0 <= k < |Lines| && Complete(s, k)
    ensures EvaluateIntended(s) == Draw <==>
            IsFull(s) && forall k :: 0 <= k < |Lines| ==> !Complete(s, k)
  {
  }

  /** The two checks differ only on a full board whose complete lines are all columns
      or diagonals, and they agree on whether the game is open, so the click guard,
      which only asks that, is the same under either. */
  lemma IntendedDiffersOnlyOnFullBoards(s: Grid)
    ensures Evaluate(s) == Ongoing <==> EvaluateIntended(s) == Ongoing
    ensures Evaluate(s) != EvaluateIntended(s) ==>
      IsFull(s) && !Complete(s, 0) && !Complete(s, 1) && !Complete(s, 2) &&
      exists k :: 3 <= k < |Lines| && Complete(s, k)
  {
  }
}
