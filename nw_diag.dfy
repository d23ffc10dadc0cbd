/**
  The anti-diagonal vectorised global engine with statistics
  (`nw_stats_diag_avx2_256_16` and its table-producing build).

  The table is cut into bands of 16 rows. Within a band, one register holds
  16 cells on a minor anti-diagonal: lane `15 - d` works on row `i + d` of the
  band starting at row `i` (0-based). After step `j` of the band (0-based
  column counter), lane `15 - d` holds the cell of 0-based column `j - d`,
  i.e. the cell (i + d + 1, j - d + 1) of the recurrence in `NwSpec`. Each
  step shifts the west register down by one lane to form the north register,
  feeding lane 15 from the stored row; the lowest lane leaves the band and is
  written back into the stored row, which the next band reads as its north
  row.

  Lanes are unbounded integers here; the 16-bit wrap-around of the registers
  and stored rows is not modelled.
*/
module NwDiag {
  import opened Lanes
  import opened NwSpec

  /** Number of 16-bit values in a register. */
  const N: int := 16
  /** Padding around the stored rows and the encoded second sequence. */
  const PAD: int := 15

  /** Residue code of the first sequence, padded with code 0 after its end. */
  function S1At(p: Problem, k: int): (a: int)
    requires p.Valid()
    ensures 0 <= a < ALPHABET
    ensures 0 <= k < |p.s1| ==> a == p.s1[k]
  {
    if 0 <= k < |p.s1| then p.s1[k] else 0
  }

  /** Residue code of the second sequence, padded with code 0 on both sides. */
  function S2At(p: Problem, k: int): (a: int)
    requires p.Valid()
    ensures 0 <= a < ALPHABET
    ensures 0 <= k < |p.s2| ==> a == p.s2[k]
  {
    if 0 <= k < |p.s2| then p.s2[k] else 0
  }

  /** `vs1` of the band starting at row `i`: lane `15 - d` holds row `i + d`. */
  function S1Vec(p: Problem, i: int): (v: Vec)
    requires p.Valid()
    ensures forall k :: 0 <= k < LANES ==> v[k] == S1At(p, i + 15 - k)
  {
    seq(16, k => S1At(p, i + 15 - k))
  }

  /** `vMat` at step `j`: lane `15 - d` scores row `i + d` against column `j - d`. */
  function MatVec(p: Problem, i: int, j: int): (v: Vec)
    requires p.Valid()
    ensures forall k :: 0 <= k < LANES ==> v[k] == p.matrix[S1At(p, i + 15 - k)][S2At(p, j - 15 + k)]
  {
    seq(16, k => p.matrix[S1At(p, i + 15 - k)][S2At(p, j - 15 + k)])
  }

  /** `vJ` at step `j`: lane `15 - d` holds column `j - d`. */
  function JVec(j: int): (v: Vec)
    ensures forall k :: 0 <= k < LANES ==> v[k] == j - 15 + k
  {
    seq(16, k => j - 15 + k)
  }

  /** `vI` of the band starting at row `i`: lane `15 - d` holds row `i + d`. */
  function IVec(i: int): (v: Vec)
    ensures forall k :: 0 <= k < LANES ==> v[k] == i + 15 - k
  {
    seq(16, k => i + 15 - k)
  }

  /** `vIBoundary` of the band starting at row `i`: lane `15 - d` holds the
      score of column 0 in row i + d + 1, `-open - (i + d) * gap`. */
  function IBoundaryVec(open: int, gap: int, i: int): (v: Vec)
    ensures forall k :: 0 <= k < LANES ==> v[k] == -open - (i + 15 - k) * gap
  {
    seq(16, k => -open - (i + 15 - k) * gap)
  }

  /** The registers carried from one step of a band to the next. */
  datatype Regs = Regs(nScore: Vec, nMatch: Vec, nLength: Vec,
                       wScore: Vec, wMatch: Vec, wLength: Vec,
                       ins: Vec, del: Vec, s2: Vec)

  /** The score part of one step of the inner loop: the north registers
      are the west ones shifted down with the stored row's column `j`
      entering lane 15; the deletion and insertion states and the new score
      follow. The west statistics are left for `StatsBlock`. */
  function ScoreStep(g: Regs, vMat: Vec, tblJ: int, mchJ: int, lenJ: int, delJ: int,
                     s2J: int, open: int, gap: int): Regs
  {
    var nScore := VShift16(g.wScore, tblJ);
    var del := Max(Sub(nScore, Splat(open)), Sub(VShift16(g.del, delJ), Splat(gap)));
    var ins := Max(Sub(g.wScore, Splat(open)), Sub(g.ins, Splat(gap)));
    var diag := Add(g.nScore, vMat);
    g.(nScore := nScore, nMatch := VShift16(g.wMatch, mchJ), nLength := VShift16(g.wLength, lenJ),
       wScore := Max(Max(diag, ins), del), ins := ins, del := del, s2 := VShift16(g.s2, s2J))
  }

  /** The conditional block: the new west match and length counts, chosen by
      masks from the north-west (`g`), north and west (`g1` after
      `ScoreStep`) candidates. */
  function StatsBlock(g: Regs, g1: Regs, vs1: Vec, vMat: Vec): (Vec, Vec)
  {
    var diag := Add(g.nScore, vMat);
    var case1not := MaskOr(CmpLt(diag, g1.del), CmpLt(diag, g1.ins));
    var case2not := CmpLt(g1.del, g1.ins);
    var case2 := MaskAndNot(case2not, case1not);
    var case3 := MaskAnd(case1not, case2not);
    var cMatch0 := AndNot(case1not, Add(g.nMatch, MaskToOne(CmpEq(vs1, g1.s2))));
    var cLength0 := AndNot(case1not, Add(g.nLength, Splat(1)));
    var cMatch1 := OrAnd(cMatch0, case2, g1.nMatch);
    var cLength1 := OrAnd(cLength0, case2, Add(g1.nLength, Splat(1)));
    (OrAnd(cMatch1, case3, g.wMatch), OrAnd(cLength1, case3, Add(g.wLength, Splat(1))))
  }

  /** The boundary block of the first 16 steps: the lane whose column counter
      is -1 takes the column-0 score, zero statistics and no open gap. */
  function Reset(g: Regs, vJ: Vec, vIBoundary: Vec): Regs
  {
    var cond := CmpEq(vJ, Splat(-1));
    g.(wScore := Blend(g.wScore, vIBoundary, cond),
       wMatch := AndNot(cond, g.wMatch),
       wLength := AndNot(cond, g.wLength),
       del := Blend(g.del, Splat(NEG_INF_16), cond),
       ins := Blend(g.ins, Splat(NEG_INF_16), cond))
  }

  // ------------------------------------------------------------ invariants

  /** Row `r` (1..|s1|) and column `c` (0..|s2|) name a cell of the table
      away from row 0. */
  predicate InTable(p: Problem, r: int, c: int)
  {
    1 <= r <= |p.s1| && 0 <= c <= |p.s2|
  }

  /** Lane `k` of band `i`, after `j` steps, holds the cell
      (i + 16 - k, j - 15 + k) of `T` whenever that cell is in the table: its
      score, statistics and gap states, and the score and statistics of the
      cell north of it. */
  predicate LaneCell(p: Problem, T: seq<seq<Cell>>, i: int, j: int, g: Regs, k: int)
    requires p.Valid() && Shaped(p, T) && 0 <= k < LANES
  {
    var r := i + 16 - k;
    var c := j - 15 + k;
    InTable(p, r, c) ==>
      && g.wScore[k] == T[r][c].score
      && g.wMatch[k] == T[r][c].matches
      && g.wLength[k] == T[r][c].length
      && g.ins[k] == T[r][c].ins
      && g.del[k] == T[r][c].del
      && g.nScore[k] == T[r - 1][c].score
      && g.nMatch[k] == T[r - 1][c].matches
      && g.nLength[k] == T[r - 1][c].length
  }

  /** Lane `k` of `vs2` after `j` steps holds column j - 16 + k of the padded
      second sequence, once that column has entered the register. */
  predicate LaneS2(p: Problem, j: int, g: Regs, k: int)
    requires p.Valid() && 0 <= k < LANES
  {
    j - 16 + k >= 0 ==> g.s2[k] == S2At(p, j - 16 + k)
  }

  /** Every lane of band `i` is on the recurrence after `j` steps. */
  predicate LanesHold(p: Problem, T: seq<seq<Cell>>, i: int, j: int, g: Regs)
    requires p.Valid() && Shaped(p, T)
  {
    forall k :: 0 <= k < LANES ==> LaneCell(p, T, i, j, g, k) && LaneS2(p, j, g, k)
  }

  /** The values step `j` reads from the stored rows are those of row `i`,
      column j + 1, whenever that column is in the table. */
  predicate NorthHolds(p: Problem, T: seq<seq<Cell>>, i: int, j: int, tblJ: int, mchJ: int, lenJ: int, delJ: int)
    requires p.Valid() && Shaped(p, T)
  {
    0 <= i <= |p.s1| && 0 <= j < |p.s2| ==>
      && tblJ == T[i][j + 1].score
      && mchJ == T[i][j + 1].matches
      && lenJ == T[i][j + 1].length
      && delJ == T[i][j + 1].del
  }

  // ---------------------------------------------------------------- steps

  /** Lane `k` after `ScoreStep`: the north values come from lane k + 1
      (lane 15 from the stored row), the gap states and the new score follow
      the affine recurrence. */
  predicate ScoreLane(g: Regs, vMat: Vec, tblJ: int, mchJ: int, lenJ: int, delJ: int, s2J: int,
                      open: int, gap: int, g1: Regs, k: int)
    requires 0 <= k < LANES
  {
    var nScore := if k < 15 then g.wScore[k + 1] else tblJ;
    var del := MaxInt(nScore - open, (if k < 15 then g.del[k + 1] else delJ) - gap);
    var ins := MaxInt(g.wScore[k] - open, g.ins[k] - gap);
    && g1.nScore[k] == nScore
    && g1.nMatch[k] == (if k < 15 then g.wMatch[k + 1] else mchJ)
    && g1.nLength[k] == (if k < 15 then g.wLength[k + 1] else lenJ)
    && g1.s2[k] == (if k < 15 then g.s2[k + 1] else s2J)
    && g1.del[k] == del && g1.ins[k] == ins
    && g1.wScore[k] == MaxInt(MaxInt(g.nScore[k] + vMat[k], ins), del)
  }

  /** Lane `k` of the counts `StatsBlock` chooses: those of the north-west
      cell (plus one match when the residues agree) when the diagonal is not
      below either gap state, else those of the north cell when the deletion
      is not below the insertion, else those of the west cell; the length
      grows by one in every case. */
  predicate StatsLane(g: Regs, g1: Regs, vs1: Vec, vMat: Vec, cMatch: Vec, cLength: Vec, k: int)
    requires 0 <= k < LANES
  {
    var diag := g.nScore[k] + vMat[k];
    var same := if vs1[k] == g1.s2[k] then 1 else 0;
    && cMatch[k] == (if diag >= g1.del[k] && diag >= g1.ins[k] then g.nMatch[k] + same
                     else if g1.del[k] >= g1.ins[k] then g1.nMatch[k]
                     else g.wMatch[k])
    && cLength[k] == (if diag >= g1.del[k] && diag >= g1.ins[k] then g.nLength[k] + 1
                      else if g1.del[k] >= g1.ins[k] then g1.nLength[k] + 1
                      else g.wLength[k] + 1)
  }

  lemma {:induction false} ScoreStepLane(g: Regs, vMat: Vec, tblJ: int, mchJ: int, lenJ: int, delJ: int,
                      s2J: int, open: int, gap: int, k: int)
    requires 0 <= k < LANES
    ensures ScoreLane(g, vMat, tblJ, mchJ, lenJ, delJ, s2J, open, gap,
                      ScoreStep(g, vMat, tblJ, mchJ, lenJ, delJ, s2J, open, gap), k)
  {
    var nScore := VShift16(g.wScore, tblJ);
    var del := Max(Sub(nScore, Splat(open)), Sub(VShift16(g.del, delJ), Splat(gap)));
    var ins := Max(Sub(g.wScore, Splat(open)), Sub(g.ins, Splat(gap)));
    assert Add(g.nScore, vMat)[k] == g.nScore[k] + vMat[k];
    assert del[k] == MaxInt(nScore[k] - open, (if k < 15 then g.del[k + 1] else delJ) - gap);
  }

  lemma {:induction false} StatsBlockLane(g: Regs, g1: Regs, vs1: Vec, vMat: Vec, k: int)
    requires 0 <= k < LANES
    ensures StatsLane(g, g1, vs1, vMat, StatsBlock(g, g1, vs1, vMat).0, StatsBlock(g, g1, vs1, vMat).1, k)
  {
    var diag := Add(g.nScore, vMat);
    assert diag[k] == g.nScore[k] + vMat[k];
  }

  /** Lane `k` of `g2` is lane `k` of `g1` after the reset block. */
  predicate ResetLaneP(vJ: Vec, vIBoundary: Vec, g1: Regs, g2: Regs, k: int)
    requires 0 <= k < LANES
  {
    && g2.nScore[k] == g1.nScore[k] && g2.nMatch[k] == g1.nMatch[k] && g2.nLength[k] == g1.nLength[k]
    && g2.s2[k] == g1.s2[k]
    && (vJ[k] == -1 ==> g2.wScore[k] == vIBoundary[k] && g2.wMatch[k] == 0 && g2.wLength[k] == 0
                        && g2.del[k] == NEG_INF_16 && g2.ins[k] == NEG_INF_16)
    && (vJ[k] != -1 ==> g2.wScore[k] == g1.wScore[k] && g2.wMatch[k] == g1.wMatch[k]
                        && g2.wLength[k] == g1.wLength[k] && g2.del[k] == g1.del[k] && g2.ins[k] == g1.ins[k])
  }

  lemma {:induction false} ResetLane(g1: Regs, vJ: Vec, vIBoundary: Vec, k: int)
    requires 0 <= k < LANES
    ensures ResetLaneP(vJ, vIBoundary, g1, Reset(g1, vJ, vIBoundary), k)
  {
  }

  /** One step keeps lane `k` on the recurrence: if every lane held its cell
      before the step and the stored row supplies row `i`, lane `k` holds the
      cell one column further on afterwards. */
  lemma {:induction false} StepLane(p: Problem, T: seq<seq<Cell>>, i: int, j: int, g: Regs, tblJ: int, mchJ: int, lenJ: int, delJ: int,
                 vIBoundary: Vec, g1: Regs, cMatch: Vec, cLength: Vec, g2: Regs, k: int)
    requires p.Valid() && IsTable(p, NEG_INF_16, T) && 0 <= i && 0 <= j && 0 <= k < LANES
    requires LanesHold(p, T, i, j, g)
    requires NorthHolds(p, T, i, j, tblJ, mchJ, lenJ, delJ)
    requires vIBoundary == IBoundaryVec(p.open, p.gap, i)
    requires ScoreLane(g, MatVec(p, i, j), tblJ, mchJ, lenJ, delJ, S2At(p, j), p.open, p.gap, g1, k)
    requires StatsLane(g, g1, S1Vec(p, i), MatVec(p, i, j), cMatch, cLength, k)
    requires var g1' := g1.(wMatch := cMatch, wLength := cLength);
             if j < N then ResetLaneP(JVec(j), vIBoundary, g1', g2, k) else g2 == g1'
    ensures LaneCell(p, T, i, j + 1, g2, k) && LaneS2(p, j + 1, g2, k)
  {
    assert LaneS2(p, j, g, k) && (k < 15 ==> LaneS2(p, j, g, k + 1));
    var r := i + 16 - k;
    var c := j + 1 - 15 + k;
    if InTable(p, r, c) {
      if c == 0 {
        assert LaneCell(p, T, i, j, g, k + 1);
        StepLaneEdge(p, T, i, j, g, vIBoundary, g1, cMatch, cLength, g2, k);
      } else {
        assert LaneCell(p, T, i, j, g, k);
        assert k < 15 ==> LaneCell(p, T, i, j, g, k + 1) && LaneS2(p, j, g, k + 1);
        StepLaneInner(p, T, i, j, g, tblJ, mchJ, lenJ, delJ, vIBoundary, g1, cMatch, cLength, g2, k);
      }
    }
  }

  /** The lane entering column 0 takes the column-0 cell from the reset
      block. */
  lemma {:induction false} StepLaneEdge(p: Problem, T: seq<seq<Cell>>, i: int, j: int, g: Regs,
                     vIBoundary: Vec, g1: Regs, cMatch: Vec, cLength: Vec, g2: Regs, k: int)
    requires p.Valid() && IsTable(p, NEG_INF_16, T) && 0 <= i && 0 <= j && 0 <= k < 15
    requires j + 1 - 15 + k == 0 && InTable(p, i + 16 - k, 0)
    requires LaneCell(p, T, i, j, g, k + 1)
    requires vIBoundary == IBoundaryVec(p.open, p.gap, i)
    requires g1.nScore[k] == g.wScore[k + 1] && g1.nMatch[k] == g.wMatch[k + 1] && g1.nLength[k] == g.wLength[k + 1]
    requires var g1' := g1.(wMatch := cMatch, wLength := cLength);
             if j < N then ResetLaneP(JVec(j), vIBoundary, g1', g2, k) else g2 == g1'
    ensures LaneCell(p, T, i, j + 1, g2, k)
  {
    var r := i + 16 - k;
    assert CellRule(p, NEG_INF_16, T, r, 0);
    assert CellRule(p, NEG_INF_16, T, r - 1, 0);
  }

  /** A lane away from column 0 follows the affine recurrence from the
      west cell it held, the north cell the lane above held (or the stored
      row) and the north-west cell. */
  lemma {:induction false} StepLaneInner(p: Problem, T: seq<seq<Cell>>, i: int, j: int, g: Regs, tblJ: int, mchJ: int, lenJ: int, delJ: int,
                      vIBoundary: Vec, g1: Regs, cMatch: Vec, cLength: Vec, g2: Regs, k: int)
    requires p.Valid() && IsTable(p, NEG_INF_16, T) && 0 <= i && 0 <= j && 0 <= k < LANES
    requires 0 < j + 1 - 15 + k && InTable(p, i + 16 - k, j + 1 - 15 + k)
    requires LaneCell(p, T, i, j, g, k)
    requires k < 15 ==> LaneCell(p, T, i, j, g, k + 1) && LaneS2(p, j, g, k + 1)
    requires NorthHolds(p, T, i, j, tblJ, mchJ, lenJ, delJ)
    requires ScoreLane(g, MatVec(p, i, j), tblJ, mchJ, lenJ, delJ, S2At(p, j), p.open, p.gap, g1, k)
    requires StatsLane(g, g1, S1Vec(p, i), MatVec(p, i, j), cMatch, cLength, k)
    requires var g1' := g1.(wMatch := cMatch, wLength := cLength);
             if j < N then ResetLaneP(JVec(j), vIBoundary, g1', g2, k) else g2 == g1'
    ensures LaneCell(p, T, i, j + 1, g2, k)
  {
    var r := i + 16 - k;
    var c := j + 1 - 15 + k;
    var west, north, nw := T[r][c - 1], T[r - 1][c], T[r - 1][c - 1];
    assert g.wScore[k] == west.score && g.wMatch[k] == west.matches && g.wLength[k] == west.length;
    assert g.ins[k] == west.ins && g.nScore[k] == nw.score && g.nMatch[k] == nw.matches && g.nLength[k] == nw.length;
    assert g1.nScore[k] == north.score && g1.nMatch[k] == north.matches && g1.nLength[k] == north.length;
    assert g1.del[k] == MaxInt(north.score - p.open, north.del - p.gap);
    assert MatVec(p, i, j)[k] == Subst(p, r, c) && S1Vec(p, i)[k] == p.s1[r - 1] && g1.s2[k] == p.s2[c - 1];
    assert CellRule(p, NEG_INF_16, T, r, c);
  }

  // ----------------------------------------------------------- one band

  /** One step of the inner loop on the registers: the score part, the
      conditional block and, during the first 16 steps, the boundary reset.
      Every lane that held its cell before holds the cell one column further
      on afterwards. */
  method Step(p: Problem, ghost T: seq<seq<Cell>>, i: int, j: int, g: Regs, vs1: Vec, vJ: Vec, vIBoundary: Vec,
              tblJ: int, mchJ: int, lenJ: int, delJ: int) returns (g2: Regs)
    requires p.Valid() && IsTable(p, NEG_INF_16, T) && 0 <= i && 0 <= j
    requires vs1 == S1Vec(p, i) && vJ == JVec(j) && vIBoundary == IBoundaryVec(p.open, p.gap, i)
    requires LanesHold(p, T, i, j, g)
    requires NorthHolds(p, T, i, j, tblJ, mchJ, lenJ, delJ)
    ensures LanesHold(p, T, i, j + 1, g2)
  {
    var vMat := MatVec(p, i, j);
    var g1 := ScoreStep(g, vMat, tblJ, mchJ, lenJ, delJ, S2At(p, j), p.open, p.gap);
    var c := StatsBlock(g, g1, vs1, vMat);
    var g1' := g1.(wMatch := c.0, wLength := c.1);
    g2 := g1';
    if j < N {
      g2 := Reset(g1', vJ, vIBoundary);
    }
    var j1 := j + 1;
    forall k | 0 <= k < LANES
      ensures LaneCell(p, T, i, j1, g2, k) && LaneS2(p, j1, g2, k)
    {
      ScoreStepLane(g, vMat, tblJ, mchJ, lenJ, delJ, S2At(p, j), p.open, p.gap, k);
      StatsBlockLane(g, g1, vs1, vMat, k);
      if j < N {
        ResetLane(g1', vJ, vIBoundary, k);
      }
      StepLane(p, T, i, j, g, tblJ, mchJ, lenJ, delJ, vIBoundary, g1, c.0, c.1, g2, k);
    }
  }

  /** The stored rows of band `i` after `j` steps, at physical index `x`
      (column x - PAD): from index `j` on they still hold row `i`; below
      index `j` (down to the corner at PAD - 1) they hold row i + 16, which
      the band's lowest lane has written back, when that row exists. */
  predicate StoredRows(p: Problem, T: seq<seq<Cell>>, i: int, j: int,
                       tbl: seq<int>, mch: seq<int>, len: seq<int>, del: seq<int>)
    requires p.Valid() && Shaped(p, T) && 0 <= i <= |p.s1|
    requires |tbl| == |mch| == |len| == |del| == |p.s2| + 2 * PAD
  {
    && (forall x :: PAD <= x < PAD + |p.s2| && j <= x ==>
          && tbl[x] == T[i][x - PAD + 1].score
          && mch[x] == T[i][x - PAD + 1].matches
          && len[x] == T[i][x - PAD + 1].length
          && del[x] == T[i][x - PAD + 1].del)
    && (i + N <= |p.s1| ==>
          forall x :: PAD - 1 <= x < PAD + |p.s2| && x < j ==>
            && tbl[x] == T[i + N][x - PAD + 1].score
            && mch[x] == T[i + N][x - PAD + 1].matches
            && len[x] == T[i + N][x - PAD + 1].length
            && del[x] == T[i + N][x - PAD + 1].del)
  }

  /** Writes lane 0 of the registers back into the stored rows at column
      j - 15 (physical index `j`). */
  method WriteBack(p: Problem, ghost T: seq<seq<Cell>>, i: int, j: int, g: Regs,
                   tbl: array<int>, mch: array<int>, len: array<int>, del: array<int>)
    requires p.Valid() && IsTable(p, NEG_INF_16, T) && 0 <= i <= |p.s1| && 0 <= j < |p.s2| + 2 * PAD
    requires tbl.Length == mch.Length == len.Length == del.Length == |p.s2| + 2 * PAD
    requires tbl != mch && tbl != len && tbl != del && mch != len && mch != del && len != del
    requires StoredRows(p, T, i, j, tbl[..], mch[..], len[..], del[..])
    requires LaneCell(p, T, i, j + 1, g, 0)
    modifies tbl, mch, len, del
    ensures tbl[..] == old(tbl[..])[j := g.wScore[0]] && mch[..] == old(mch[..])[j := g.wMatch[0]]
    ensures len[..] == old(len[..])[j := g.wLength[0]] && del[..] == old(del[..])[j := g.del[0]]
    ensures StoredRows(p, T, i, j + 1, tbl[..], mch[..], len[..], del[..])
  {
    tbl[j] := g.wScore[0];
    mch[j] := g.wMatch[0];
    len[j] := g.wLength[0];
    del[j] := g.del[0];
  }

  // ---------------------------------------------------------------- tables

  /** `arr_store_si256`: lane 15 - d of `v` goes to 0-based cell
      (i + d, j - d) of the table when that cell is inside it. */
  method ArrStore(t: array2<int>, v: Vec, i: int, s1Len: int, j: int, s2Len: int)
    requires t.Length0 == s1Len && t.Length1 == s2Len
    modifies t
    ensures forall a, b :: 0 <= a < t.Length0 && 0 <= b < t.Length1 ==>
              t[a, b] == if i <= a < i + N && b == j - (a - i) then v[15 - (a - i)] else old(t[a, b])
  {
    for d := 0 to N
      invariant forall a, b :: 0 <= a < t.Length0 && 0 <= b < t.Length1 ==>
                  t[a, b] == if i <= a < i + d && b == j - (a - i) then v[15 - (a - i)] else old(t[a, b])
    {
      if 0 <= i + d && i + d < s1Len && 0 <= j - d && j - d < s2Len {
        t[i + d, j - d] := v[15 - d];
      }
    }
  }

  /** Which statistic a result table records. */
  datatype Stat = Score | Matches | Length

  function Get(c: Cell, s: Stat): int
  {
    match s
    case Score => c.score
    case Matches => c.matches
    case Length => c.length
  }

  function West(g: Regs, s: Stat): Vec
  {
    match s
    case Score => g.wScore
    case Matches => g.wMatch
    case Length => g.wLength
  }

  /** Table `t` holds statistic `s` of every cell band `i` has finished after
      `j` steps, and of every cell of the earlier bands (0-based cell (a, b)
      is cell (a + 1, b + 1) of `T`). */
  predicate Written(p: Problem, T: seq<seq<Cell>>, t: array2<int>, s: Stat, i: int, j: int)
    requires p.Valid() && Shaped(p, T)
    reads t
  {
    && t.Length0 == |p.s1| && t.Length1 == |p.s2|
    && forall a, b :: 0 <= a < |p.s1| && 0 <= b < |p.s2| && (a < i || (a < i + N && b + (a - i) < j)) ==>
         t[a, b] == Get(T[a + 1][b + 1], s)
  }

  /** Stores one statistic of the anti-diagonal just computed. */
  method StoreTable(p: Problem, ghost T: seq<seq<Cell>>, i: int, j: int, g: Regs, t: array2<int>, s: Stat)
    requires p.Valid() && IsTable(p, NEG_INF_16, T) && 0 <= i
    requires LanesHold(p, T, i, j + 1, g)
    requires Written(p, T, t, s, i, j)
    modifies t
    ensures Written(p, T, t, s, i, j + 1)
  {
    ArrStore(t, West(g, s), i, |p.s1|, j, |p.s2|);
    var j1 := j + 1;
    forall a, b | 0 <= a < |p.s1| && 0 <= b < |p.s2| && i <= a < i + N && b + (a - i) == j
      ensures t[a, b] == Get(T[a + 1][b + 1], s)
    {
      assert LaneCell(p, T, i, j1, g, 15 - (a - i));
    }
  }

  // --------------------------------------------------------------- corner

  /** The three running maxima of the corner extraction. */
  datatype Best = Best(score: Vec, matches: Vec, length: Vec)

  /** The corner block: a lane whose row counter is s1Len - 1 and whose
      column counter is s2Len - 1 replaces the running maxima when its score
      is strictly greater. */
  function Capture(best: Best, g: Regs, vI: Vec, vJ: Vec, s1Len: int, s2Len: int): Best
  {
    var condI := CmpEq(vI, Splat(s1Len - 1));
    var condJ := CmpEq(vJ, Splat(s2Len - 1));
    var condMax := CmpGt(g.wScore, best.score);
    var all := MaskAnd(condMax, MaskAnd(condI, condJ));
    Best(Blend(best.score, g.wScore, all), Blend(best.matches, g.wMatch, all), Blend(best.length, g.wLength, all))
  }

  /** The running maxima of the last band (starting at row `i`) after `j`
      steps: lane i + 16 - s1Len holds the corner cell (|s1|, |s2|) once the
      band has passed it and its score beats NEG_INF_16; every other lane
      holds NEG_INF_16. */
  predicate BestHolds(p: Problem, T: seq<seq<Cell>>, i: int, j: int, best: Best)
    requires p.Valid() && Shaped(p, T)
  {
    var corner := T[|p.s1|][|p.s2|];
    var done := j > |p.s2| + |p.s1| - 2 - i && corner.score > NEG_INF_16;
    forall k :: 0 <= k < LANES ==>
      if done && k == i + 16 - |p.s1| then
        best.score[k] == corner.score && best.matches[k] == corner.matches && best.length[k] == corner.length
      else
        best.score[k] == NEG_INF_16 && best.matches[k] == NEG_INF_16 && best.length[k] == NEG_INF_16
  }

  lemma {:induction false} CaptureKeeps(p: Problem, T: seq<seq<Cell>>, i: int, j: int, g: Regs, best: Best)
    requires p.Valid() && IsTable(p, NEG_INF_16, T)
    requires 0 <= i && |p.s1| - N <= i < |p.s1| && 0 <= j
    requires LanesHold(p, T, i, j + 1, g)
    requires BestHolds(p, T, i, j, best)
    ensures BestHolds(p, T, i, j + 1, Capture(best, g, IVec(i), JVec(j), |p.s1|, |p.s2|))
  {
    var best' := Capture(best, g, IVec(i), JVec(j), |p.s1|, |p.s2|);
    var kStar := i + 16 - |p.s1|;
    var j1 := j + 1;
    assert LaneCell(p, T, i, j1, g, kStar);
    forall k | 0 <= k < LANES
      ensures best'.score[k] == (if k == kStar && j == |p.s2| + |p.s1| - 2 - i && g.wScore[k] > best.score[k]
                                 then g.wScore[k] else best.score[k])
      ensures best'.matches[k] == (if k == kStar && j == |p.s2| + |p.s1| - 2 - i && g.wScore[k] > best.score[k]
                                   then g.wMatch[k] else best.matches[k])
      ensures best'.length[k] == (if k == kStar && j == |p.s2| + |p.s1| - 2 - i && g.wScore[k] > best.score[k]
                                  then g.wLength[k] else best.length[k])
    {
    }
    var corner := T[|p.s1|][|p.s2|];
    if j == |p.s2| + |p.s1| - 2 - i {
      assert g.wScore[kStar] == corner.score && g.wMatch[kStar] == corner.matches;
      assert g.wLength[kStar] == corner.length && best.score[kStar] == NEG_INF_16;
    }
  }

  // ------------------------------------------------------------- the band

  /** The registers at the start of a band: everything at NEG_INF_16 or 0,
      except that lane 15 sees the stored corner `nCorner` to its north and
      the column-0 score `wCorner` of its own row. */
  function BandRegs(nCorner: int, wCorner: int): Regs
  {
    Regs(VShift16(Splat(NEG_INF_16), nCorner), VShift16(Splat(0), 0), VShift16(Splat(0), 0),
         VShift16(Splat(NEG_INF_16), wCorner), VShift16(Splat(0), 0), VShift16(Splat(0), 0),
         Splat(NEG_INF_16), Splat(NEG_INF_16), Splat(NEG_INF_16))
  }

  lemma {:induction false} BandStartLanes(p: Problem, T: seq<seq<Cell>>, i: int, nCorner: int)
    requires p.Valid() && IsTable(p, NEG_INF_16, T) && 0 <= i < |p.s1|
    requires nCorner == T[i][0].score
    ensures LanesHold(p, T, i, 0, BandRegs(nCorner, -p.open - i * p.gap))
  {
    var g := BandRegs(nCorner, -p.open - i * p.gap);
    assert CellRule(p, NEG_INF_16, T, i, 0) && CellRule(p, NEG_INF_16, T, i + 1, 0);
    assert LaneCell(p, T, i, 0, g, 15);
  }

  /** The four stored rows: of equal length, padded by PAD on both sides of
      the |s2| columns, and distinct. */
  predicate RowArrays(p: Problem, tbl: array<int>, mch: array<int>, len: array<int>, del: array<int>)
  {
    && tbl.Length == mch.Length == len.Length == del.Length == |p.s2| + 2 * PAD
    && tbl != mch && tbl != len && tbl != del && mch != len && mch != del && len != del
  }

  /** What band `i` finds in the stored rows: row `i` of `T`, its corner
      (column 0) included. */
  predicate BandStart(p: Problem, T: seq<seq<Cell>>, i: int, tbl: seq<int>, mch: seq<int>, len: seq<int>, del: seq<int>)
    requires p.Valid() && Shaped(p, T) && 0 <= i <= |p.s1|
    requires |tbl| == |mch| == |len| == |del| == |p.s2| + 2 * PAD
  {
    StoredRows(p, T, i, 0, tbl, mch, len, del) && tbl[PAD - 1] == T[i][0].score
  }

  /** The optional result tables (all absent in the build without tables). */
  predicate TableArrays(sTab: array2?<int>, mTab: array2?<int>, lTab: array2?<int>)
  {
    (sTab != null ==> sTab != mTab && sTab != lTab) && (mTab != null ==> mTab != lTab)
  }

  predicate TablesWritten(p: Problem, T: seq<seq<Cell>>, sTab: array2?<int>, mTab: array2?<int>, lTab: array2?<int>,
                          i: int, j: int)
    requires p.Valid() && Shaped(p, T)
    reads sTab, mTab, lTab
  {
    && (sTab != null ==> Written(p, T, sTab, Score, i, j))
    && (mTab != null ==> Written(p, T, mTab, Matches, i, j))
    && (lTab != null ==> Written(p, T, lTab, Length, i, j))
  }

  /** The corner extraction has seen nothing yet. */
  predicate NoBest(best: Best)
  {
    forall k :: 0 <= k < LANES ==>
      best.score[k] == NEG_INF_16 && best.matches[k] == NEG_INF_16 && best.length[k] == NEG_INF_16
  }

  /** What holds after `j` steps of band `i`: the lanes, the stored rows,
      the tables and the running maxima. */
  predicate BandState(p: Problem, T: seq<seq<Cell>>, i: int, last: bool, j: int, g: Regs,
                      tbl: seq<int>, mch: seq<int>, len: seq<int>, del: seq<int>, best: Best, best0: Best)
    requires p.Valid() && Shaped(p, T) && 0 <= i < |p.s1|
    requires |tbl| == |mch| == |len| == |del| == |p.s2| + 2 * PAD
  {
    && LanesHold(p, T, i, j, g)
    && StoredRows(p, T, i, j, tbl, mch, len, del)
    && (last ==> BestHolds(p, T, i, j, best))
    && (!last ==> best == best0)
  }

  /** One pass of the column loop of band `i` at step `j`: the register
      step, the table stores, the write-back of lane 0 and, in the last
      band from step |s2| - 1 on, the corner extraction. */
  method Column(p: Problem, ghost T: seq<seq<Cell>>, i: int, last: bool, j: int,
                vI: Vec, vJ: Vec, vIBoundary: Vec, vs1: Vec, g: Regs,
                tbl: array<int>, mch: array<int>, len: array<int>, del: array<int>,
                sTab: array2?<int>, mTab: array2?<int>, lTab: array2?<int>, best: Best, ghost best0: Best)
    returns (g': Regs, best': Best)
    requires p.Valid() && IsTable(p, NEG_INF_16, T)
    requires 0 <= i < |p.s1| && (last <==> |p.s1| - N <= i) && 0 <= j < |p.s2| + PAD
    requires vI == IVec(i) && vJ == JVec(j) && vIBoundary == IBoundaryVec(p.open, p.gap, i) && vs1 == S1Vec(p, i)
    requires RowArrays(p, tbl, mch, len, del) && TableArrays(sTab, mTab, lTab)
    requires BandState(p, T, i, last, j, g, tbl[..], mch[..], len[..], del[..], best, best0)
    requires TablesWritten(p, T, sTab, mTab, lTab, i, j)
    modifies tbl, mch, len, del, sTab, mTab, lTab
    ensures BandState(p, T, i, last, j + 1, g', tbl[..], mch[..], len[..], del[..], best', best0)
    ensures TablesWritten(p, T, sTab, mTab, lTab, i, j + 1)
  {
    var x := PAD + j;
    assert NorthHolds(p, T, i, j, tbl[x], mch[x], len[x], del[x]) by {
      if j < |p.s2| {
        assert tbl[..][x] == tbl[x] && mch[..][x] == mch[x] && len[..][x] == len[x] && del[..][x] == del[x];
      }
    }
    g' := Step(p, T, i, j, g, vs1, vJ, vIBoundary, tbl[x], mch[x], len[x], del[x]);
    if sTab != null {
      StoreTable(p, T, i, j, g', sTab, Score);
    }
    if mTab != null {
      StoreTable(p, T, i, j, g', mTab, Matches);
    }
    if lTab != null {
      StoreTable(p, T, i, j, g', lTab, Length);
    }
    WriteBack(p, T, i, j, g', tbl, mch, len, del);
    best' := best;
    if last && j >= |p.s2| - 1 {
      CaptureKeeps(p, T, i, j, g', best);
      best' := Capture(best, g', vI, vJ, |p.s1|, |p.s2|);
    }
  }

  /** One band of 16 rows starting at row `i` (0-based): the register set-up,
      the stored corner update and the column loop (steps 0 .. |s2| + 14),
      with the boundary reset during the first 16 steps and, in the last
      band, the corner extraction from step |s2| - 1 on. */
  method Band(p: Problem, ghost T: seq<seq<Cell>>, i: int, last: bool, vI: Vec, vIBoundary: Vec,
              tbl: array<int>, mch: array<int>, len: array<int>, del: array<int>,
              sTab: array2?<int>, mTab: array2?<int>, lTab: array2?<int>, best: Best) returns (best': Best)
    requires p.Valid() && IsTable(p, NEG_INF_16, T) && 0 < |p.s2|
    requires 0 <= i < |p.s1| && (last <==> |p.s1| - N <= i)
    requires vI == IVec(i) && vIBoundary == IBoundaryVec(p.open, p.gap, i)
    requires RowArrays(p, tbl, mch, len, del)
    requires BandStart(p, T, i, tbl[..], mch[..], len[..], del[..])
    requires TableArrays(sTab, mTab, lTab) && TablesWritten(p, T, sTab, mTab, lTab, i, 0)
    requires NoBest(best)
    modifies tbl, mch, len, del, sTab, mTab, lTab
    ensures !last ==> BandStart(p, T, i + N, tbl[..], mch[..], len[..], del[..])
    ensures TablesWritten(p, T, sTab, mTab, lTab, i, |p.s2| + PAD)
    ensures last ==> BestHolds(p, T, i, |p.s2| + PAD, best')
    ensures !last ==> best' == best
  {
    var vs1 := S1Vec(p, i);
    BandStartLanes(p, T, i, tbl[PAD - 1]);
    var g := BandRegs(tbl[PAD - 1], -p.open - i * p.gap);
    tbl[PAD - 1] := -p.open - (i + N) * p.gap;
    var vJ := JVec(0);
    best' := best;
    var j := 0;
    while j < |p.s2| + PAD
      invariant 0 <= j <= |p.s2| + PAD
      invariant vJ == JVec(j)
      invariant BandState(p, T, i, last, j, g, tbl[..], mch[..], len[..], del[..], best', best)
      invariant TablesWritten(p, T, sTab, mTab, lTab, i, j)
    {
      g, best' := Column(p, T, i, last, j, vI, vJ, vIBoundary, vs1, g, tbl, mch, len, del, sTab, mTab, lTab, best', best);
      NextJVec(j);
      vJ := Add(vJ, Splat(1));
      j := j + 1;
    }
  }

  // ------------------------------------------------------------ reduction

  /** The reduction loop as a function: extract lanes 15, 14, ..., 16 - t in
      turn and keep an extracted lane only when its score is strictly
      greater than the best so far, starting from NEG_INF_16. */
  function Scan(b: Best, t: nat): (int, int, int)
    requires t <= LANES
  {
    if t == 0 then (NEG_INF_16, NEG_INF_16, NEG_INF_16)
    else
      var prev := Scan(b, t - 1);
      var k := LANES - t;
      if b.score[k] > prev.0 then (b.score[k], b.matches[k], b.length[k]) else prev
  }

  /** The scan returns the largest score (or NEG_INF_16 when no lane beats
      it) with the statistics of the highest lane holding it: on ties the
      first lane extracted wins. */
  lemma {:induction false} ScanFirstMax(b: Best, t: nat)
    requires t <= LANES
    ensures var r := Scan(b, t);
            && r.0 >= NEG_INF_16
            && (forall k :: LANES - t <= k < LANES ==> b.score[k] <= r.0)
            && (r.0 == NEG_INF_16 ==> r == (NEG_INF_16, NEG_INF_16, NEG_INF_16))
            && (r.0 > NEG_INF_16 ==>
                  exists k :: LANES - t <= k < LANES && r == (b.score[k], b.matches[k], b.length[k])
                              && forall k' :: k < k' < LANES ==> b.score[k'] < r.0)
  {
    if t > 0 {
      ScanFirstMax(b, t - 1);
      var prev := Scan(b, t - 1);
      var k := LANES - t;
      if b.score[k] > prev.0 {
        assert Scan(b, t) == (b.score[k], b.matches[k], b.length[k]);
      } else if prev.0 > NEG_INF_16 {
        var k0 :| LANES - (t - 1) <= k0 < LANES && prev == (b.score[k0], b.matches[k0], b.length[k0])
                  && forall k' :: k0 < k' < LANES ==> b.score[k'] < prev.0;
        assert LANES - t <= k0;
      }
    }
  }

  /** When every lane but `k0` is at NEG_INF_16, the scan returns lane `k0`
      if its score beats NEG_INF_16 and NEG_INF_16 everywhere otherwise. */
  lemma {:induction false} ScanOneLane(b: Best, k0: int)
    requires 0 <= k0 < LANES
    requires forall k :: 0 <= k < LANES && k != k0 ==>
               b.score[k] == NEG_INF_16 && b.matches[k] == NEG_INF_16 && b.length[k] == NEG_INF_16
    ensures Scan(b, LANES) == if b.score[k0] > NEG_INF_16 then (b.score[k0], b.matches[k0], b.length[k0])
                              else (NEG_INF_16, NEG_INF_16, NEG_INF_16)
  {
    ScanFirstMax(b, LANES);
  }

  /** The reduction loop: 16 rounds of extracting lane 15 and shifting the
      three registers up by one lane. */
  /** One step of the reduction reads lane 15 of the vectors shifted up
      `t` times. */
  lemma {:induction false} TopLane(b: Best, t: int, vS: Vec, vM: Vec, vL: Vec)
    requires 0 <= t < LANES
    requires vS == ShiftedUp(b.score, t) && vM == ShiftedUp(b.matches, t) && vL == ShiftedUp(b.length, t)
    ensures var prev := Scan(b, t);
            Scan(b, t + 1) == if vS[15] > prev.0 then (vS[15], vM[15], vL[15]) else prev
  {
  }

  method Reduce(b: Best) returns (score: int, matches: int, length: int)
    ensures (score, matches, length) == Scan(b, LANES)
  {
    score, matches, length := NEG_INF_16, NEG_INF_16, NEG_INF_16;
    var vS, vM, vL := b.score, b.matches, b.length;
    assert vS == ShiftedUp(b.score, 0) && vM == ShiftedUp(b.matches, 0) && vL == ShiftedUp(b.length, 0);
    for t := 0 to N
      invariant (score, matches, length) == Scan(b, t)
      invariant vS == ShiftedUp(b.score, t) && vM == ShiftedUp(b.matches, t) && vL == ShiftedUp(b.length, t)
    {
      TopLane(b, t, vS, vM, vL);
      var value := vS[15];
      if value > score {
        score := value;
        matches := vM[15];
        length := vL[15];
      }
      ShiftedUpStep(b.score, t);
      ShiftedUpStep(b.matches, t);
      ShiftedUpStep(b.length, t);
      vS := LShift16(vS);
      vM := LShift16(vM);
      vL := LShift16(vL);
    }
  }

  // ------------------------------------------------------------- the engine

  /** The stored rows before the first band: row 0 of the table in columns
      0 .. |s2| - 1 (physical PAD ..), the corner 0 at PAD - 1, NEG_INF_16
      scores and zero statistics in the padding. */
  method InitRows(p: Problem, tbl: array<int>, mch: array<int>, len: array<int>, del: array<int>)
    requires RowArrays(p, tbl, mch, len, del)
    modifies tbl, mch, len, del
    ensures forall x :: 0 <= x < tbl.Length ==>
              tbl[x] == (if x == PAD - 1 then 0 else if PAD <= x < PAD + |p.s2| then -p.open - (x - PAD) * p.gap
                         else NEG_INF_16)
    ensures forall x :: 0 <= x < tbl.Length ==> mch[x] == 0 && len[x] == 0 && del[x] == NEG_INF_16
  {
    for j := 0 to |p.s2|
      invariant forall x :: PAD <= x < PAD + j ==> tbl[x] == -p.open - (x - PAD) * p.gap
      invariant forall x :: PAD <= x < PAD + j ==> mch[x] == 0 && len[x] == 0 && del[x] == NEG_INF_16
    {
      tbl[PAD + j] := -p.open - j * p.gap;
      del[PAD + j] := NEG_INF_16;
      mch[PAD + j] := 0;
      len[PAD + j] := 0;
    }
    for j := -PAD to 0
      invariant forall x :: PAD <= x < PAD + |p.s2| ==> tbl[x] == -p.open - (x - PAD) * p.gap
      invariant forall x :: 0 <= x < PAD + j ==> tbl[x] == NEG_INF_16
      invariant forall x :: (0 <= x < PAD + j || PAD <= x < PAD + |p.s2|) ==> mch[x] == 0 && len[x] == 0 && del[x] == NEG_INF_16
    {
      tbl[PAD + j] := NEG_INF_16;
      del[PAD + j] := NEG_INF_16;
      mch[PAD + j] := 0;
      len[PAD + j] := 0;
    }
    for j := |p.s2| to |p.s2| + PAD
      invariant forall x :: PAD <= x < PAD + |p.s2| ==> tbl[x] == -p.open - (x - PAD) * p.gap
      invariant forall x :: (0 <= x < PAD || PAD + |p.s2| <= x < PAD + j) ==> tbl[x] == NEG_INF_16
      invariant forall x :: 0 <= x < PAD + j ==> mch[x] == 0 && len[x] == 0 && del[x] == NEG_INF_16
    {
      tbl[PAD + j] := NEG_INF_16;
      del[PAD + j] := NEG_INF_16;
      mch[PAD + j] := 0;
      len[PAD + j] := 0;
    }
    tbl[PAD - 1] := 0;
  }

  /** The initialised stored rows are what the first band expects: row 0 of
      the table with its corner. */
  lemma {:induction false} InitialRows(p: Problem, T: seq<seq<Cell>>, tbl: seq<int>, mch: seq<int>, len: seq<int>, del: seq<int>)
    requires p.Valid() && IsTable(p, NEG_INF_16, T)
    requires |tbl| == |mch| == |len| == |del| == |p.s2| + 2 * PAD
    requires forall x :: 0 <= x < |tbl| ==>
               tbl[x] == (if x == PAD - 1 then 0 else if PAD <= x < PAD + |p.s2| then -p.open - (x - PAD) * p.gap
                          else NEG_INF_16)
    requires forall x :: 0 <= x < |tbl| ==> mch[x] == 0 && len[x] == 0 && del[x] == NEG_INF_16
    ensures BandStart(p, T, 0, tbl, mch, len, del)
  {
    assert CellRule(p, NEG_INF_16, T, 0, 0);
    forall x | PAD <= x < PAD + |p.s2|
      ensures tbl[x] == T[0][x - PAD + 1].score && mch[x] == T[0][x - PAD + 1].matches
      ensures len[x] == T[0][x - PAD + 1].length && del[x] == T[0][x - PAD + 1].del
    {
      assert CellRule(p, NEG_INF_16, T, 0, x - PAD + 1);
    }
  }

  /** Moving on by one band advances the row counters by 16 and the
      column-0 scores by 16 gap extensions. */
  lemma {:induction false} NextBandVecs(open: int, gap: int, i: int)
    ensures Add(IVec(i), Splat(N)) == IVec(i + N)
    ensures Sub(IBoundaryVec(open, gap, i), Splat(gap * N)) == IBoundaryVec(open, gap, i + N)
  {
    var a := Sub(IBoundaryVec(open, gap, i), Splat(gap * N));
    var b := IBoundaryVec(open, gap, i + N);
    forall k | 0 <= k < LANES
      ensures a[k] == b[k]
    {
      assert (i + N + 15 - k) * gap == (i + 15 - k) * gap + gap * N;
    }
  }

  /** Moving on by one step advances the column counters by one. */
  lemma {:induction false} NextJVec(j: int)
    ensures Add(JVec(j), Splat(1)) == JVec(j + 1)
  {
    var a := Add(JVec(j), Splat(1));
    forall k | 0 <= k < LANES
      ensures a[k] == JVec(j + 1)[k]
    {
    }
  }

  /** A band that has run to the end has written all 16 of its rows. */
  lemma {:induction false} WrittenCarry(p: Problem, T: seq<seq<Cell>>, t: array2<int>, s: Stat, i: int)
    requires p.Valid() && Shaped(p, T)
    requires Written(p, T, t, s, i, |p.s2| + PAD)
    ensures Written(p, T, t, s, i + N, 0)
  {
  }

  lemma {:induction false} TablesCarry(p: Problem, T: seq<seq<Cell>>, sTab: array2?<int>, mTab: array2?<int>, lTab: array2?<int>, i: int)
    requires p.Valid() && Shaped(p, T)
    requires TablesWritten(p, T, sTab, mTab, lTab, i, |p.s2| + PAD)
    ensures TablesWritten(p, T, sTab, mTab, lTab, i + N, 0)
  {
    if sTab != null {
      WrittenCarry(p, T, sTab, Score, i);
    }
    if mTab != null {
      WrittenCarry(p, T, mTab, Matches, i);
    }
    if lTab != null {
      WrittenCarry(p, T, lTab, Length, i);
    }
  }

  /** `nw_stats_diag_avx2_256_16` (and, given tables, its table-producing
      build): the global score of `s1` against `s2` with the match count
      and alignment length of the chosen path, computed band by band. The
      result is NEG_INF_16 for all three when the score does not beat
      NEG_INF_16; the tables receive every cell's score and statistics. The
      source asserts that both sequences are longer than 16; this method
      needs only the second to be, and for a shorter first sequence states
      what a build without assertions computes. */
  method NwStatsDiag(p: Problem, sTab: array2?<int>, mTab: array2?<int>, lTab: array2?<int>)
    returns (score: int, matches: int, length: int)
    requires p.Valid() && N < |p.s2|
    requires TableArrays(sTab, mTab, lTab)
    requires sTab != null ==> sTab.Length0 == |p.s1| && sTab.Length1 == |p.s2|
    requires mTab != null ==> mTab.Length0 == |p.s1| && mTab.Length1 == |p.s2|
    requires lTab != null ==> lTab.Length0 == |p.s1| && lTab.Length1 == |p.s2|
    modifies sTab, mTab, lTab
    ensures |p.s1| == 0 ==> score == NEG_INF_16 && matches == NEG_INF_16 && length == NEG_INF_16
    ensures |p.s1| > 0 ==>
              var h := H(p, NEG_INF_16, |p.s1|, |p.s2|);
              if h > NEG_INF_16 then
                score == h && matches == Mch(p, NEG_INF_16, |p.s1|, |p.s2|) && length == Len(p, NEG_INF_16, |p.s1|, |p.s2|)
              else
                score == NEG_INF_16 && matches == NEG_INF_16 && length == NEG_INF_16
    ensures sTab != null ==> forall a, b :: 0 <= a < |p.s1| && 0 <= b < |p.s2| ==> sTab[a, b] == H(p, NEG_INF_16, a + 1, b + 1)
    ensures mTab != null ==> forall a, b :: 0 <= a < |p.s1| && 0 <= b < |p.s2| ==> mTab[a, b] == Mch(p, NEG_INF_16, a + 1, b + 1)
    ensures lTab != null ==> forall a, b :: 0 <= a < |p.s1| && 0 <= b < |p.s2| ==> lTab[a, b] == Len(p, NEG_INF_16, a + 1, b + 1)
  {
    if |p.s1| == 0 {
      // Without assertions, neither band loop runs and the reduction finds
      // only NEG_INF_16.
      return NEG_INF_16, NEG_INF_16, NEG_INF_16;
    }
    ghost var T := RecurrenceTable(p, NEG_INF_16);
    var tbl := new int[|p.s2| + 2 * PAD];
    var del := new int[|p.s2| + 2 * PAD];
    var mch := new int[|p.s2| + 2 * PAD];
    var len := new int[|p.s2| + 2 * PAD];
    InitRows(p, tbl, mch, len, del);
    InitialRows(p, T, tbl[..], mch[..], len[..], del[..]);
    var i, vI, vIBoundary, best := Bands(p, T, tbl, mch, len, del, sTab, mTab, lTab);
    // The last band (rows i .. |s1| - 1, i >= |s1| - 16) runs exactly once.
    score, matches, length := LastBand(p, T, i, vI, vIBoundary, tbl, mch, len, del, sTab, mTab, lTab, best);
  }

  /** Every band but the last, from the stored rows of row 0: afterwards
      `i` is the first row of the last band, and the tables hold every
      row above it. */
  method Bands(p: Problem, ghost T: seq<seq<Cell>>, tbl: array<int>, mch: array<int>, len: array<int>, del: array<int>,
               sTab: array2?<int>, mTab: array2?<int>, lTab: array2?<int>)
    returns (i: int, vI: Vec, vIBoundary: Vec, best: Best)
    requires p.Valid() && IsTable(p, NEG_INF_16, T) && 0 < |p.s1| && 0 < |p.s2|
    requires RowArrays(p, tbl, mch, len, del)
    requires BandStart(p, T, 0, tbl[..], mch[..], len[..], del[..])
    requires TableArrays(sTab, mTab, lTab) && TablesWritten(p, T, sTab, mTab, lTab, 0, 0)
    modifies tbl, mch, len, del, sTab, mTab, lTab
    ensures 0 <= i && |p.s1| - N <= i < |p.s1|
    ensures vI == IVec(i) && vIBoundary == IBoundaryVec(p.open, p.gap, i)
    ensures BandStart(p, T, i, tbl[..], mch[..], len[..], del[..])
    ensures TablesWritten(p, T, sTab, mTab, lTab, i, 0)
    ensures NoBest(best)
  {
    vI := IVec(0);
    vIBoundary := IBoundaryVec(p.open, p.gap, 0);
    best := Best(Splat(NEG_INF_16), Splat(NEG_INF_16), Splat(NEG_INF_16));
    i := 0;
    while i < |p.s1| - N
      invariant 0 <= i < |p.s1|
      invariant vI == IVec(i) && vIBoundary == IBoundaryVec(p.open, p.gap, i)
      invariant BandStart(p, T, i, tbl[..], mch[..], len[..], del[..])
      invariant TablesWritten(p, T, sTab, mTab, lTab, i, 0)
      invariant NoBest(best)
      decreases |p.s1| - i
    {
      best := Band(p, T, i, false, vI, vIBoundary, tbl, mch, len, del, sTab, mTab, lTab, best);
      TablesCarry(p, T, sTab, mTab, lTab, i);
      NextBandVecs(p.open, p.gap, i);
      i := i + N;
      vI := Add(vI, Splat(N));
      vIBoundary := Sub(vIBoundary, Splat(p.gap * N));
    }
  }

  /** The last band, the reduction of its corner lane, and the tables
      completed. */
  method LastBand(p: Problem, ghost T: seq<seq<Cell>>, i: int, vI: Vec, vIBoundary: Vec,
                  tbl: array<int>, mch: array<int>, len: array<int>, del: array<int>,
                  sTab: array2?<int>, mTab: array2?<int>, lTab: array2?<int>, best: Best)
    returns (score: int, matches: int, length: int)
    requires p.Valid() && IsTable(p, NEG_INF_16, T) && 0 < |p.s2|
    requires forall r, c :: 0 <= r <= |p.s1| && 0 <= c <= |p.s2| ==> T[r][c] == SpecCell(p, NEG_INF_16, r, c)
    requires |p.s1| - N <= i < |p.s1| && 0 <= i
    requires vI == IVec(i) && vIBoundary == IBoundaryVec(p.open, p.gap, i)
    requires RowArrays(p, tbl, mch, len, del)
    requires BandStart(p, T, i, tbl[..], mch[..], len[..], del[..])
    requires TableArrays(sTab, mTab, lTab) && TablesWritten(p, T, sTab, mTab, lTab, i, 0)
    requires NoBest(best)
    modifies tbl, mch, len, del, sTab, mTab, lTab
    ensures var h := H(p, NEG_INF_16, |p.s1|, |p.s2|);
            if h > NEG_INF_16 then
              score == h && matches == Mch(p, NEG_INF_16, |p.s1|, |p.s2|) && length == Len(p, NEG_INF_16, |p.s1|, |p.s2|)
            else
              score == NEG_INF_16 && matches == NEG_INF_16 && length == NEG_INF_16
    ensures sTab != null ==> forall a, b :: 0 <= a < |p.s1| && 0 <= b < |p.s2| ==> sTab[a, b] == H(p, NEG_INF_16, a + 1, b + 1)
    ensures mTab != null ==> forall a, b :: 0 <= a < |p.s1| && 0 <= b < |p.s2| ==> mTab[a, b] == Mch(p, NEG_INF_16, a + 1, b + 1)
    ensures lTab != null ==> forall a, b :: 0 <= a < |p.s1| && 0 <= b < |p.s2| ==> lTab[a, b] == Len(p, NEG_INF_16, a + 1, b + 1)
  {
    var best' := Band(p, T, i, true, vI, vIBoundary, tbl, mch, len, del, sTab, mTab, lTab, best);
    score, matches, length := Reduce(best');
    ReducedCorner(p, T, i, best');
    TablesCarry(p, T, sTab, mTab, lTab, i);
    if sTab != null {
      ScoresAreSpec(p, T, sTab, i);
    }
    if mTab != null {
      MatchesAreSpec(p, T, mTab, i);
    }
    if lTab != null {
      LengthsAreSpec(p, T, lTab, i);
    }
  }

  /** After the last band, the reduction yields the corner cell of the
      recurrence, or NEG_INF_16 three times when its score does not beat
      NEG_INF_16. */
  lemma {:induction false} ReducedCorner(p: Problem, T: seq<seq<Cell>>, i: int, best: Best)
    requires p.Valid() && Shaped(p, T) && 0 <= i && |p.s1| - N <= i < |p.s1|
    requires forall r, c :: 0 <= r <= |p.s1| && 0 <= c <= |p.s2| ==> T[r][c] == SpecCell(p, NEG_INF_16, r, c)
    requires BestHolds(p, T, i, |p.s2| + PAD, best)
    ensures var h := H(p, NEG_INF_16, |p.s1|, |p.s2|);
            Scan(best, LANES) == if h > NEG_INF_16 then (h, Mch(p, NEG_INF_16, |p.s1|, |p.s2|), Len(p, NEG_INF_16, |p.s1|, |p.s2|))
                                 else (NEG_INF_16, NEG_INF_16, NEG_INF_16)
  {
    ScanOneLane(best, i + 16 - |p.s1|);
    assert T[|p.s1|][|p.s2|] == SpecCell(p, NEG_INF_16, |p.s1|, |p.s2|);
  }

  /** After the last band, a table holds its statistic for every cell of
      the recurrence. */
  lemma {:induction false} WrittenIsSpec(p: Problem, T: seq<seq<Cell>>, t: array2<int>, s: Stat, i: int)
    requires p.Valid() && Shaped(p, T) && |p.s1| <= i + N
    requires forall r, c :: 0 <= r <= |p.s1| && 0 <= c <= |p.s2| ==> T[r][c] == SpecCell(p, NEG_INF_16, r, c)
    requires Written(p, T, t, s, i + N, 0)
    ensures forall a, b :: 0 <= a < |p.s1| && 0 <= b < |p.s2| ==> t[a, b] == Get(SpecCell(p, NEG_INF_16, a + 1, b + 1), s)
  {
    forall a, b | 0 <= a < |p.s1| && 0 <= b < |p.s2|
      ensures t[a, b] == Get(SpecCell(p, NEG_INF_16, a + 1, b + 1), s)
    {
      assert T[a + 1][b + 1] == SpecCell(p, NEG_INF_16, a + 1, b + 1);
    }
  }

  /** The score table after the last band holds the recurrence's scores. */
  lemma {:induction false} ScoresAreSpec(p: Problem, T: seq<seq<Cell>>, t: array2<int>, i: int)
    requires p.Valid() && Shaped(p, T) && |p.s1| <= i + N
    requires forall r, c :: 0 <= r <= |p.s1| && 0 <= c <= |p.s2| ==> T[r][c] == SpecCell(p, NEG_INF_16, r, c)
    requires Written(p, T, t, Score, i + N, 0)
    ensures forall a, b :: 0 <= a < |p.s1| && 0 <= b < |p.s2| ==> t[a, b] == H(p, NEG_INF_16, a + 1, b + 1)
  {
    WrittenIsSpec(p, T, t, Score, i);
  }

  /** The match table after the last band holds the recurrence's match counts. */
  lemma {:induction false} MatchesAreSpec(p: Problem, T: seq<seq<Cell>>, t: array2<int>, i: int)
    requires p.Valid() && Shaped(p, T) && |p.s1| <= i + N
    requires forall r, c :: 0 <= r <= |p.s1| && 0 <= c <= |p.s2| ==> T[r][c] == SpecCell(p, NEG_INF_16, r, c)
    requires Written(p, T, t, Matches, i + N, 0)
    ensures forall a, b :: 0 <= a < |p.s1| && 0 <= b < |p.s2| ==> t[a, b] == Mch(p, NEG_INF_16, a + 1, b + 1)
  {
    WrittenIsSpec(p, T, t, Matches, i);
  }

  /** The length table after the last band holds the recurrence's lengths. */
  lemma {:induction false} LengthsAreSpec(p: Problem, T: seq<seq<Cell>>, t: array2<int>, i: int)
    requires p.Valid() && Shaped(p, T) && |p.s1| <= i + N
    requires forall r, c :: 0 <= r <= |p.s1| && 0 <= c <= |p.s2| ==> T[r][c] == SpecCell(p, NEG_INF_16, r, c)
    requires Written(p, T, t, Length, i + N, 0)
    ensures forall a, b :: 0 <= a < |p.s1| && 0 <= b < |p.s2| ==> t[a, b] == Len(p, NEG_INF_16, a + 1, b + 1)
  {
    WrittenIsSpec(p, T, t, Length, i);
  }
}
