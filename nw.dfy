/**
  The scalar global-alignment engine (`nw`, and `nw_debug` when the table of
  scores is requested). It keeps one stored row of scores and one stored row
  of deletion states, both supplied by the caller, and walks the table row by
  row, overwriting the stored rows in place.
*/
module Nw {
  import opened Lanes
  import opened NwSpec

  /** The three updates of one cell, in terms of its neighbours. */
  lemma {:induction false} CellStep(p: Problem, negInf: int, i: nat, j: nat)
    requires p.Valid() && 1 <= i <= |p.s1| && 1 <= j <= |p.s2|
    ensures D(p, negInf, i, j) == MaxInt(H(p, negInf, i - 1, j) - p.open, D(p, negInf, i - 1, j) - p.gap)
    ensures I(p, negInf, i, j) == MaxInt(H(p, negInf, i, j - 1) - p.open, I(p, negInf, i, j - 1) - p.gap)
    ensures H(p, negInf, i, j) == MaxInt(H(p, negInf, i - 1, j - 1) + p.matrix[p.s1[i - 1]][p.s2[j - 1]],
                                         MaxInt(I(p, negInf, i, j), D(p, negInf, i, j)))
  {
  }

  /** One pass of the inner loop: cell (i, j) from its north, west and
      north-west neighbours. On entry the stored rows hold row i-1 from
      column j on; `nScore`, `wScore` and `insCr` carry the north-west score,
      the west score and the west insertion state. */
  method Cell(p: Problem, i: nat, j: nat, tblPr: array<int>, delPr: array<int>, nScore: int, wScore: int, insCr: int)
    returns (nScore': int, wScore': int, insCr': int)
    requires p.Valid() && 1 <= i <= |p.s1| && 1 <= j <= |p.s2|
    requires tblPr.Length > |p.s2| && delPr.Length > |p.s2| && tblPr != delPr
    requires tblPr[j] == H(p, NEG_INF_32, i - 1, j) && delPr[j] == D(p, NEG_INF_32, i - 1, j)
    requires nScore == H(p, NEG_INF_32, i - 1, j - 1) && wScore == H(p, NEG_INF_32, i, j - 1)
    requires insCr == I(p, NEG_INF_32, i, j - 1)
    modifies tblPr, delPr
    ensures tblPr[j] == H(p, NEG_INF_32, i, j) && delPr[j] == D(p, NEG_INF_32, i, j)
    ensures forall c {:trigger tblPr[c]} :: 0 <= c < tblPr.Length && c != j ==> tblPr[c] == old(tblPr[c])
    ensures forall c {:trigger delPr[c]} :: 0 <= c < delPr.Length && c != j ==> delPr[c] == old(delPr[c])
    ensures nScore' == H(p, NEG_INF_32, i - 1, j) && wScore' == H(p, NEG_INF_32, i, j)
    ensures insCr' == I(p, NEG_INF_32, i, j)
  {
    CellStep(p, NEG_INF_32, i, j);
    var nwScore := nScore;
    nScore' := tblPr[j];
    delPr[j] := MaxInt(nScore' - p.open, delPr[j] - p.gap);
    insCr' := MaxInt(wScore - p.open, insCr - p.gap);
    tblPr[j] := nwScore + p.matrix[p.s1[i - 1]][p.s2[j - 1]];
    tblPr[j] := MaxInt(tblPr[j], MaxInt(insCr', delPr[j]));
    wScore' := tblPr[j];
  }

  /** One pass of the outer loop: turns the stored rows from row i-1 into row i
      and, when the table is requested, fills its row i-1. */
  method Row(p: Problem, i: nat, tblPr: array<int>, delPr: array<int>, scoreTable: array2?<int>)
    requires p.Valid() && 1 <= i <= |p.s1|
    requires tblPr.Length > |p.s2| && delPr.Length > |p.s2| && tblPr != delPr
    requires scoreTable != null ==> scoreTable.Length0 == |p.s1| && scoreTable.Length1 == |p.s2|
    requires forall c {:trigger tblPr[c]} :: 0 <= c <= |p.s2| ==> tblPr[c] == H(p, NEG_INF_32, i - 1, c)
    requires forall c {:trigger delPr[c]} :: 0 <= c <= |p.s2| ==> delPr[c] == D(p, NEG_INF_32, i - 1, c)
    modifies tblPr, delPr, scoreTable
    ensures forall c {:trigger tblPr[c]} :: 0 <= c <= |p.s2| ==> tblPr[c] == H(p, NEG_INF_32, i, c)
    ensures forall c {:trigger delPr[c]} :: 0 <= c <= |p.s2| ==> delPr[c] == D(p, NEG_INF_32, i, c)
    ensures forall c {:trigger tblPr[c]} :: |p.s2| < c < tblPr.Length ==> tblPr[c] == old(tblPr[c])
    ensures forall c {:trigger delPr[c]} :: |p.s2| < c < delPr.Length ==> delPr[c] == old(delPr[c])
    ensures scoreTable != null ==> forall c {:trigger scoreTable[i - 1, c]} :: 0 <= c < |p.s2| ==> scoreTable[i - 1, c] == H(p, NEG_INF_32, i, c + 1)
    ensures scoreTable != null ==>
              forall r, c :: 0 <= r < |p.s1| && r != i - 1 && 0 <= c < |p.s2| ==> scoreTable[r, c] == old(scoreTable[r, c])
  {
    var m := |p.s2|;
    // init first column
    var nScore := tblPr[0];
    var wScore := -p.open - (i - 1) * p.gap;
    var insCr := NEG_INF_32;
    tblPr[0] := wScore;
    assert tblPr[0] == H(p, NEG_INF_32, i, 0);
    var j := 1;
    while j <= m
      invariant 1 <= j <= m + 1
      invariant nScore == H(p, NEG_INF_32, i - 1, j - 1)
      invariant wScore == H(p, NEG_INF_32, i, j - 1)
      invariant insCr == I(p, NEG_INF_32, i, j - 1)
      invariant forall c {:trigger tblPr[c]} :: 0 <= c <= m ==> tblPr[c] == H(p, NEG_INF_32, if c < j then i else i - 1, c)
      invariant forall c {:trigger delPr[c]} :: 0 <= c <= m ==> delPr[c] == D(p, NEG_INF_32, if c < j then i else i - 1, c)
      invariant forall c {:trigger tblPr[c]} :: m < c < tblPr.Length ==> tblPr[c] == old(tblPr[c])
      invariant forall c {:trigger delPr[c]} :: m < c < delPr.Length ==> delPr[c] == old(delPr[c])
      invariant scoreTable != null ==> forall c {:trigger scoreTable[i - 1, c]} :: 0 <= c < j - 1 ==> scoreTable[i - 1, c] == H(p, NEG_INF_32, i, c + 1)
      invariant scoreTable != null ==>
                  forall r, c :: 0 <= r < |p.s1| && r != i - 1 && 0 <= c < m ==> scoreTable[r, c] == old(scoreTable[r, c])
    {
      nScore, wScore, insCr := Cell(p, i, j, tblPr, delPr, nScore, wScore, insCr);
      if scoreTable != null {
        scoreTable[i - 1, j - 1] := wScore;
      }
      j := j + 1;
    }
  }

  /** Runs the recurrence. `scoreTable` is null for the plain build; when it is
      given (the ALIGN_EXTRA build) cell (r, c) of the table, r < |s1| and
      c < |s2|, receives the score of row r+1 and column c+1. */
  method Nw(s1: seq<int>, s2: seq<int>, open: int, gap: int, matrix: seq<seq<int>>,
            tblPr: array<int>, delPr: array<int>, scoreTable: array2?<int>)
    returns (score: int)
    requires Problem(s1, s2, open, gap, matrix).Valid()
    requires tblPr.Length > |s2| && delPr.Length > |s2| && tblPr != delPr
    requires scoreTable != null ==> scoreTable.Length0 == |s1| && scoreTable.Length1 == |s2|
    modifies tblPr, delPr, scoreTable
    ensures score == NwScore(Problem(s1, s2, open, gap, matrix))
    ensures forall c {:trigger tblPr[c]} :: 0 <= c <= |s2| ==> tblPr[c] == H(Problem(s1, s2, open, gap, matrix), NEG_INF_32, |s1|, c)
    ensures forall c {:trigger delPr[c]} :: 0 <= c <= |s2| ==> delPr[c] == D(Problem(s1, s2, open, gap, matrix), NEG_INF_32, |s1|, c)
    ensures forall c {:trigger tblPr[c]} :: |s2| < c < tblPr.Length ==> tblPr[c] == old(tblPr[c])
    ensures forall c {:trigger delPr[c]} :: |s2| < c < delPr.Length ==> delPr[c] == old(delPr[c])
    ensures scoreTable != null ==>
              forall r, c :: 0 <= r < |s1| && 0 <= c < |s2| ==>
                scoreTable[r, c] == H(Problem(s1, s2, open, gap, matrix), NEG_INF_32, r + 1, c + 1)
  {
    var p := Problem(s1, s2, open, gap, matrix);
    var n, m := |s1|, |s2|;

    // upper left corner
    tblPr[0] := 0;
    delPr[0] := NEG_INF_32;

    // first row
    var j := 1;
    while j <= m
      invariant 1 <= j <= m + 1
      invariant forall c {:trigger tblPr[c]} :: 0 <= c < j ==> tblPr[c] == H(p, NEG_INF_32, 0, c)
      invariant forall c {:trigger delPr[c]} :: 0 <= c < j ==> delPr[c] == D(p, NEG_INF_32, 0, c)
      invariant forall c {:trigger tblPr[c]} :: m < c < tblPr.Length ==> tblPr[c] == old(tblPr[c])
      invariant forall c {:trigger delPr[c]} :: m < c < delPr.Length ==> delPr[c] == old(delPr[c])
    {
      tblPr[j] := -open - (j - 1) * gap;
      delPr[j] := NEG_INF_32;
      j := j + 1;
    }

    // iterate over the first sequence
    var i := 1;
    while i <= n
      invariant 1 <= i <= n + 1
      invariant forall c {:trigger tblPr[c]} :: 0 <= c <= m ==> tblPr[c] == H(p, NEG_INF_32, i - 1, c)
      invariant forall c {:trigger delPr[c]} :: 0 <= c <= m ==> delPr[c] == D(p, NEG_INF_32, i - 1, c)
      invariant forall c {:trigger tblPr[c]} :: m < c < tblPr.Length ==> tblPr[c] == old(tblPr[c])
      invariant forall c {:trigger delPr[c]} :: m < c < delPr.Length ==> delPr[c] == old(delPr[c])
      invariant scoreTable != null ==>
                  forall r, c :: 0 <= r < i - 1 && 0 <= c < m ==> scoreTable[r, c] == H(p, NEG_INF_32, r + 1, c + 1)
    {
      Row(p, i, tblPr, delPr, scoreTable);
      i := i + 1;
    }
    score := tblPr[m];
  }
}
