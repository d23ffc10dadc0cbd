/**
  The column recurrence of the striped local (Smith-Waterman) engine with
  statistics (`sw_stats_scan_sse41_128_8`), stated row by row.

  The query `s1` is padded to `Rows(p) = 16 * segLen` rows; padding rows
  score 0 against everything. The engine walks the second sequence one
  column at a time. `ColAt(p, j)` is the state after `j` columns: for every
  padded row `r`, the local score `h`, the horizontal gap state `e` and the
  biased statistics `m` (matches), `s` (similar pairs) and `l` (length),
  each stored as `count - 127`.

  Scores use the engine's saturating 8-bit arithmetic. The gap costs enter
  as 8-bit lanes (`_mm_set1_epi8`), hence `O8`/`G8`. Statistics are
  unbounded integers here.

  Within a column, the vertical gap state is a run down the rows (`FRun`),
  and the statistics of rows won by a vertical gap follow the row above
  (`Run`, `RunLen`). These are generic functions on sequences so that the
  striped engine, which evaluates them lane by lane and then patches the
  lane boundaries, can be compared with them.
*/
module SwSpec {
  import opened Lanes
  import opened NwSpec

  /** Number of 8-bit lanes in a 128-bit register. */
  const SEG_WIDTH: nat := 16
  /** Bias of the stored statistics: a count `c` is held as `c - BIAS`. */
  const BIAS: int := 127
  /** INT8_MIN, the engine's "minus infinity". */
  const NEG_INF_8: int := -128

  // ----------------------------------------------------------- the layout

  /** Number of vectors per column: the fewest that cover `n` rows. */
  function SegLen(n: nat): (segLen: nat)
    ensures n <= SEG_WIDTH * segLen < n + SEG_WIDTH
  {
    (n + SEG_WIDTH - 1) / SEG_WIDTH
  }

  lemma {:induction false} MulBelow(l: int, segLen: int)
    requires 0 <= l < SEG_WIDTH && 0 <= segLen
    ensures 0 <= l * segLen && l * segLen + segLen <= SEG_WIDTH * segLen
  {
    MulMonotone(l + 1, SEG_WIDTH, segLen);
    assert (l + 1) * segLen == l * segLen + segLen;
  }

  /** The padded query row held by lane `l` of vector `i`: lane `l` holds
      the `l`-th slice of `segLen` consecutive rows. */
  function Row(l: int, i: int, segLen: int): (r: nat)
    requires 0 <= l < SEG_WIDTH && 0 <= i < segLen
    ensures r < SEG_WIDTH * segLen
  {
    MulBelow(l, segLen);
    l * segLen + i
  }

  /** The first row of a lane's slice follows the last row of the slice
      below it. */
  lemma {:induction false} RowAbove(l: int, segLen: int)
    requires 1 <= l < SEG_WIDTH && 1 <= segLen
    ensures Row(l, 0, segLen) - 1 == Row(l - 1, segLen - 1, segLen)
  {
    assert l * segLen == (l - 1) * segLen + segLen;
  }

  /** Different lanes or vectors hold different rows. */
  lemma {:induction false} RowDistinct(l: int, i: int, l': int, i': int, segLen: int)
    requires 0 <= l < SEG_WIDTH && 0 <= i < segLen && 0 <= l' < SEG_WIDTH && 0 <= i' < segLen
    requires l != l' || i != i'
    ensures Row(l, i, segLen) != Row(l', i', segLen)
  {
    if l < l' {
      MulMonotone(l + 1, l', segLen);
      assert (l + 1) * segLen == l * segLen + segLen;
    } else if l' < l {
      MulMonotone(l' + 1, l, segLen);
      assert (l' + 1) * segLen == l' * segLen + segLen;
    }
  }

  /** Every padded row is held by exactly one lane and vector. */
  lemma {:induction false} RowOnto(r: int, segLen: int) returns (l: int, i: int)
    requires 1 <= segLen && 0 <= r < SEG_WIDTH * segLen
    ensures 0 <= l < SEG_WIDTH && 0 <= i < segLen && Row(l, i, segLen) == r
  {
    l := r / segLen;
    i := r % segLen;
    assert r == l * segLen + i;
    if l >= SEG_WIDTH {
      MulMonotone(SEG_WIDTH, l, segLen);
      assert false;
    }
  }

  /** The lane and segment holding padded row `r`, by repeated subtraction
      of the segment length. */
  function SegIndexOf(r: nat, segLen: nat): (li: (nat, nat))
    requires 1 <= segLen
    ensures li.0 * segLen + li.1 == r && li.1 < segLen
    decreases r
  {
    if r < segLen then (0, r)
    else
      var q := SegIndexOf(r - segLen, segLen);
      (q.0 + 1, q.1)
  }

  lemma {:induction false} SegIndexOfRow(l: int, i: int, segLen: int)
    requires 0 <= l < SEG_WIDTH && 0 <= i < segLen
    ensures SegIndexOf(Row(l, i, segLen), segLen) == (l, i)
  {
    if l > 0 {
      assert Row(l, i, segLen) - segLen == Row(l - 1, i, segLen);
      SegIndexOfRow(l - 1, i, segLen);
    }
  }

  lemma {:induction false} SegIndexInRange(r: nat, segLen: nat)
    requires 1 <= segLen && r < SEG_WIDTH * segLen
    ensures SegIndexOf(r, segLen).0 < SEG_WIDTH
  {
    var li := SegIndexOf(r, segLen);
    if li.0 >= SEG_WIDTH {
      MulMonotone(SEG_WIDTH, li.0, segLen);
    }
  }

  /** The column whose segment `i` is the vector `vs[i]`. */
  function Unstripe(vs: seq<Vec>, segLen: nat): (col: seq<int>)
    requires 1 <= segLen == |vs|
    ensures |col| == SEG_WIDTH * segLen
  {
    seq(SEG_WIDTH * segLen, r =>
      if 0 <= r < SEG_WIDTH * segLen then
        SegIndexInRange(r, segLen);
        var li := SegIndexOf(r, segLen);
        vs[li.1][li.0]
      else 0)
  }

  lemma {:induction false} UnstripeSeg(vs: seq<Vec>, segLen: nat)
    requires 1 <= segLen == |vs|
    ensures forall i :: 0 <= i < segLen ==> SegOf(Unstripe(vs, segLen), segLen, i) == vs[i]
  {
    forall i | 0 <= i < segLen
      ensures SegOf(Unstripe(vs, segLen), segLen, i) == vs[i]
    {
      forall l | 0 <= l < LANES
        ensures SegOf(Unstripe(vs, segLen), segLen, i)[l] == vs[i][l]
      {
        SegIndexOfRow(l, i, segLen);
      }
    }
  }

  /** The number of padded rows of the query. */
  function Rows(p: Problem): nat
  {
    SEG_WIDTH * SegLen(|p.s1|)
  }

  /** The vector of a column sequence held at segment `i`. */
  function SegOf(col: seq<int>, segLen: int, i: int): (v: Vec)
    requires 0 <= i < segLen && |col| == SEG_WIDTH * segLen
    ensures forall l :: 0 <= l < LANES ==> v[l] == col[Row(l, i, segLen)]
  {
    seq(16, l => if 0 <= l < 16 then col[Row(l, i, segLen)] else 0)
  }

  /** The same for a column of flags. */
  function MaskOf(col: seq<bool>, segLen: int, i: int): (m: Mask)
    requires 0 <= i < segLen && |col| == SEG_WIDTH * segLen
    ensures forall l :: 0 <= l < LANES ==> m[l] == col[Row(l, i, segLen)]
  {
    seq(16, l => if 0 <= l < 16 then col[Row(l, i, segLen)] else false)
  }

  // ------------------------------------------------------------ the profile

  /** The gap costs as the engine's 8-bit lanes hold them. */
  function O8(p: Problem): int { Wrap8(p.open) }
  function G8(p: Problem): int { Wrap8(p.gap) }

  /** Gap costs the 8-bit lanes hold exactly and that never reward a gap. */
  predicate Tame(p: Problem)
  {
    0 <= p.open <= INT8_MAX && 0 <= p.gap <= INT8_MAX
  }

  /** Score of residue code `k` of the second sequence against padded row
      `r`, as stored in an 8-bit profile lane; padding rows score 0. */
  function Prof(p: Problem, k: int, r: int): (w: int)
    requires p.Valid() && 0 <= k < ALPHABET && 0 <= r
    ensures InInt8(w)
    ensures r >= |p.s1| ==> w == 0
  {
    if r < |p.s1| then Wrap8(p.matrix[k][p.s1[r]]) else 0
  }

  /** 1 when row `r` holds residue `k`, 0 otherwise and on padding rows. */
  function ProfMatch(p: Problem, k: int, r: int): (f: int)
    requires p.Valid() && 0 <= r
    ensures f == 0 || f == 1
    ensures f == 1 <==> r < |p.s1| && p.s1[r] == k
  {
    if r < |p.s1| && k == p.s1[r] then 1 else 0
  }

  /** 1 when the (8-bit) substitution score is positive. */
  function ProfSimilar(p: Problem, k: int, r: int): (f: int)
    requires p.Valid() && 0 <= k < ALPHABET && 0 <= r
    ensures f == 0 || f == 1
    ensures f == 1 <==> Prof(p, k, r) > 0
  {
    if Prof(p, k, r) > 0 then 1 else 0
  }

  // ------------------------------------------------------- column state

  /** One column of the recurrence, one entry per padded row. */
  datatype Col = Col(h: seq<int>, e: seq<int>, m: seq<int>, s: seq<int>, l: seq<int>)
  {
    predicate Sized(n: nat)
    {
      |h| == n && |e| == n && |m| == n && |s| == n && |l| == n
    }
  }

  /** The column before the first one: scores 0, gap states at INT8_MIN,
      statistics at the biased 0. */
  function Init(n: nat): (c: Col)
    ensures c.Sized(n)
    ensures forall r :: 0 <= r < n ==> c.h[r] == 0 && c.e[r] == NEG_INF_8
    ensures forall r :: 0 <= r < n ==> c.m[r] == -BIAS && c.s[r] == -BIAS && c.l[r] == -BIAS
  {
    Col(seq(n, r => 0), seq(n, r => NEG_INF_8), seq(n, r => -BIAS), seq(n, r => -BIAS), seq(n, r => -BIAS))
  }

  /** The value of the row above `r`, `edge` above row 0. */
  function Above(col: seq<int>, r: int, edge: int): int
    requires 0 <= r <= |col|
  {
    if r == 0 then edge else col[r - 1]
  }

  predicate Arg(p: Problem, prev: Col, k: int)
  {
    p.Valid() && prev.Sized(Rows(p)) && 0 <= k < ALPHABET
  }

  /** The new horizontal gap state: extend the old one or open from the old
      score. */
  function ECol(p: Problem, prev: Col): (e: seq<int>)
    requires p.Valid() && prev.Sized(Rows(p))
    ensures |e| == Rows(p)
  {
    seq(Rows(p), r => if 0 <= r < Rows(p) then MaxInt(Sat8(prev.e[r] - G8(p)), Sat8(prev.h[r] - O8(p))) else 0)
  }

  /** The diagonal candidate: the score up and to the left plus the
      substitution score (0 above row 0). */
  function DiagAt(p: Problem, prev: Col, k: int, r: int): int
    requires Arg(p, prev, k) && 0 <= r < Rows(p)
  {
    Sat8(Above(prev.h, r, 0) + Prof(p, k, r))
  }

  /** The score before vertical gaps: the best of the diagonal, the
      horizontal gap and 0. */
  function HtCol(p: Problem, prev: Col, k: int): (ht: seq<int>)
    requires Arg(p, prev, k)
    ensures |ht| == Rows(p)
    ensures forall r :: 0 <= r < |ht| ==> 0 <= ht[r] <= INT8_MAX
  {
    var e := ECol(p, prev);
    seq(Rows(p), r => if 0 <= r < Rows(p) then MaxInt(MaxInt(DiagAt(p, prev, k, r), e[r]), 0) else 0)
  }

  /** Rows whose provisional score comes from a horizontal gap: the gap is
      strictly better than the diagonal and the score is not 0. */
  function ExCol(p: Problem, prev: Col, k: int): (ex: seq<bool>)
    requires Arg(p, prev, k)
    ensures |ex| == Rows(p)
  {
    var e := ECol(p, prev);
    var ht := HtCol(p, prev, k);
    seq(Rows(p), r => if 0 <= r < Rows(p) then e[r] > DiagAt(p, prev, k, r) && ht[r] != 0 else false)
  }

  /** Provisional statistic: restart at 0 on a zero score, else follow the
      horizontal gap (same row, previous column) or the diagonal, adding the
      diagonal's `flag` (and 1 for the length, `step`). */
  function StatT(p: Problem, prev: Col, k: int, r: int, west: seq<int>, flag: int, step: int): int
    requires Arg(p, prev, k) && 0 <= r < Rows(p) && |west| == Rows(p)
  {
    var e := ECol(p, prev);
    if HtCol(p, prev, k)[r] == 0 then -BIAS
    else if e[r] > DiagAt(p, prev, k, r) then west[r] + step
    else Above(west, r, -BIAS) + flag
  }

  function MtCol(p: Problem, prev: Col, k: int): (mt: seq<int>)
    requires Arg(p, prev, k)
    ensures |mt| == Rows(p)
  {
    seq(Rows(p), r => if 0 <= r < Rows(p) then StatT(p, prev, k, r, prev.m, ProfMatch(p, k, r), 0) else 0)
  }

  function StCol(p: Problem, prev: Col, k: int): (st: seq<int>)
    requires Arg(p, prev, k)
    ensures |st| == Rows(p)
  {
    seq(Rows(p), r => if 0 <= r < Rows(p) then StatT(p, prev, k, r, prev.s, ProfSimilar(p, k, r), 0) else 0)
  }

  function LtCol(p: Problem, prev: Col, k: int): (lt: seq<int>)
    requires Arg(p, prev, k)
    ensures |lt| == Rows(p)
  {
    seq(Rows(p), r => if 0 <= r < Rows(p) then StatT(p, prev, k, r, prev.l, 1, 1) else 0)
  }

  // ---------------------------------------------------- vertical gap runs

  /** The vertical gap state entering row `base + i` along a run that starts
      with `c` above row `base`: each row extends the run by one gap or opens
      it from the provisional score of the row above (0 above row 0). */
  function FRun(ht: seq<int>, g: int, c: int, base: nat, i: nat): int
    requires base + i < |ht|
    decreases i
  {
    var prev := if i == 0 then c else FRun(ht, g, c, base, i - 1);
    MaxInt(Sat8(prev - g), Above(ht, base + i, 0))
  }

  /** Every row's vertical gap run, from INT8_MIN above row 0. */
  function FtOf(ht: seq<int>, g: int): (ft: seq<int>)
    ensures |ft| == |ht|
    ensures forall r :: 0 <= r < |ht| ==> ft[r] == FRun(ht, g, NEG_INF_8, 0, r)
  {
    seq(|ht|, r => if 0 <= r < |ht| then FRun(ht, g, NEG_INF_8, 0, r) else 0)
  }

  function FtCol(p: Problem, prev: Col, k: int): (ft: seq<int>)
    requires Arg(p, prev, k)
    ensures |ft| == Rows(p)
  {
    FtOf(HtCol(p, prev, k), G8(p))
  }

  /** The vertical gap candidate: the run `ft` minus the gap-open cost. */
  function FoOf(p: Problem, ft: seq<int>): (fo: seq<int>)
    ensures |fo| == |ft|
    ensures forall r :: 0 <= r < |ft| ==> fo[r] == Sat8(ft[r] - O8(p))
  {
    seq(|ft|, r => if 0 <= r < |ft| then Sat8(ft[r] - O8(p)) else 0)
  }

  /** The final score: the provisional one or the vertical gap candidate. */
  function HOf(ht: seq<int>, fo: seq<int>): (h: seq<int>)
    requires |ht| == |fo|
    ensures |h| == |ht|
    ensures forall r :: 0 <= r < |ht| ==> h[r] == MaxInt(ht[r], fo[r])
  {
    seq(|ht|, r => if 0 <= r < |ht| then MaxInt(ht[r], fo[r]) else 0)
  }

  /** The scan form in textbook terms: when extending a gap costs no more
      than opening one, the vertical gap candidate of row `r` is the larger
      of extending the candidate of row `r - 1` and opening a gap from the
      final score of row `r - 1`, F[r] = max(F[r-1] - gap, H[r-1] - open),
      each saturated to 8 bits. */
  lemma {:induction false} FoAffine(p: Problem, prev: Col, k: int, r: nat)
    requires Arg(p, prev, k) && 1 <= r < Rows(p) && Tame(p) && p.gap <= p.open
    ensures var ht := HtCol(p, prev, k);
            var fo := FoOf(p, FtCol(p, prev, k));
            fo[r] == MaxInt(Sat8(fo[r - 1] - p.gap), Sat8(HOf(ht, fo)[r - 1] - p.open))
  {
    var ht := HtCol(p, prev, k);
    var ft := FtCol(p, prev, k);
    assert Scores8(ht);
    FRunRange(ht, G8(p), 0, r - 1);
    assert ft[r] == MaxInt(Sat8(ft[r - 1] - p.gap), ht[r - 1]);
  }

  /** Rows whose statistics follow the vertical gap: it beats the
      provisional score, or ties one that came from a horizontal gap. */
  function XOf(ex: seq<bool>, ht: seq<int>, fo: seq<int>): (x: seq<bool>)
    requires |ex| == |ht| == |fo|
    ensures |x| == |ht|
    ensures forall r :: 0 <= r < |ht| ==> (x[r] <==> (ex[r] && ht[r] == fo[r]) || ht[r] < fo[r])
  {
    seq(|ht|, r => if 0 <= r < |ht| then (ex[r] && ht[r] == fo[r]) || ht[r] < fo[r] else false)
  }

  /** A statistic down a run of rows flagged in `x`: a flagged row takes the
      value of the row above (`c` above row `base`), the others their own
      value `t`. */
  function Run(x: seq<bool>, t: seq<int>, c: int, base: nat, i: nat): int
    requires base + i < |x| && |x| == |t|
    decreases i
  {
    if !x[base + i] then t[base + i]
    else if i == 0 then c
    else Run(x, t, c, base, i - 1)
  }

  /** The same for the length, which grows by one along the run. */
  function RunLen(x: seq<bool>, t: seq<int>, c: int, base: nat, i: nat): int
    requires base + i < |x| && |x| == |t|
    decreases i
  {
    if !x[base + i] then t[base + i]
    else if i == 0 then c
    else RunLen(x, t, c, base, i - 1) + 1
  }

  /** A statistic column: every row's `Run` from the top of the column. */
  function RunCol(x: seq<bool>, t: seq<int>): (m: seq<int>)
    requires |x| == |t|
    ensures |m| == |x|
    ensures forall r :: 0 <= r < |x| ==> m[r] == Run(x, t, -BIAS, 0, r)
  {
    seq(|x|, r => if 0 <= r < |x| then Run(x, t, -BIAS, 0, r) else 0)
  }

  /** The length column: every row's `RunLen` from the top of the column. */
  function RunLenCol(x: seq<bool>, t: seq<int>): (l: seq<int>)
    requires |x| == |t|
    ensures |l| == |x|
    ensures forall r :: 0 <= r < |x| ==> l[r] == RunLen(x, t, -BIAS, 0, r)
  {
    seq(|x|, r => if 0 <= r < |x| then RunLen(x, t, -BIAS, 0, r) else 0)
  }

  /** The column after `prev` for residue code `k`, given the vertical gap
      runs `ft` of the column. */
  function NextWith(p: Problem, prev: Col, k: int, ft: seq<int>): (c: Col)
    requires Arg(p, prev, k) && |ft| == Rows(p)
    ensures c.Sized(Rows(p))
  {
    var ht := HtCol(p, prev, k);
    var fo := FoOf(p, ft);
    var x := XOf(ExCol(p, prev, k), ht, fo);
    Col(HOf(ht, fo), ECol(p, prev), RunCol(x, MtCol(p, prev, k)), RunCol(x, StCol(p, prev, k)),
        RunLenCol(x, LtCol(p, prev, k)))
  }

  /** The column after `prev` for residue code `k` of the second sequence. */
  function Next(p: Problem, prev: Col, k: int): (c: Col)
    requires Arg(p, prev, k)
    ensures c.Sized(Rows(p))
  {
    NextWith(p, prev, k, FtCol(p, prev, k))
  }

  /** The state after the first `j` columns. */
  function ColAt(p: Problem, j: nat): (c: Col)
    requires p.Valid() && j <= |p.s2|
    ensures c.Sized(Rows(p))
    decreases j, 1
  {
    if j == 0 then Init(Rows(p)) else Step(p, j)
  }

  /** Column `j` (from 1) computed from column `j - 1`. */
  function Step(p: Problem, j: nat): (c: Col)
    requires p.Valid() && 1 <= j <= |p.s2|
    ensures c.Sized(Rows(p))
    decreases j, 0
  {
    Next(p, ColAt(p, j - 1), p.s2[j - 1])
  }

  // ------------------------------------------------- best cells and limits

  /** Per lane, the best score seen so far and the statistics of the cell
      that first reached it. */
  datatype Best = Best(h: Vec, m: Vec, s: Vec, l: Vec)

  /** The running maxima before the first column, as the source initialises
      them: scores 0 and statistics at the biased value 0, i.e. a count of
      127. */
  const START_AS_WRITTEN: Best := Best(Splat(0), Splat(0), Splat(0), Splat(0))

  /** The corrected initialisation: statistics at -BIAS, a count of 0. */
  const START: Best := Best(Splat(0), Splat(-BIAS), Splat(-BIAS), Splat(-BIAS))

  /** Fold one segment's scores `h` and statistics `m`, `s`, `l` into the
      running maxima: a lane takes the cell when its score is strictly
      greater. */
  function Fold(b: Best, h: Vec, m: Vec, s: Vec, l: Vec): Best
  {
    var better := CmpGt(h, b.h);
    Best(Blend(b.h, h, better), Blend(b.m, m, better), Blend(b.s, s, better), Blend(b.l, l, better))
  }

  /** Fold segment `i` of column `c` into the running maxima. */
  function Improve(b: Best, c: Col, segLen: int, i: int): Best
    requires 0 <= i < segLen && c.Sized(SEG_WIDTH * segLen)
  {
    Fold(b, SegOf(c.h, segLen, i), SegOf(c.m, segLen, i), SegOf(c.s, segLen, i), SegOf(c.l, segLen, i))
  }

  /** Segments `0 .. i - 1` of column `c` folded in. */
  function Track(b: Best, c: Col, segLen: int, i: int): Best
    requires 0 <= i <= segLen && c.Sized(SEG_WIDTH * segLen)
  {
    if i == 0 then b else Improve(Track(b, c, segLen, i - 1), c, segLen, i - 1)
  }

  /** The running maxima after `j` columns, from `b0`. */
  function BestAt(p: Problem, b0: Best, j: nat): Best
    requires p.Valid() && j <= |p.s2|
    decreases j, 1
  {
    if j == 0 then b0 else BestAtStep(p, b0, j)
  }

  /** Column `j` (from 1) folded into the maxima after `j - 1` columns. */
  function BestAtStep(p: Problem, b0: Best, j: nat): Best
    requires p.Valid() && 1 <= j <= |p.s2|
    decreases j, 0
  {
    Track(BestAt(p, b0, j - 1), ColAt(p, j), SegLen(|p.s1|), SegLen(|p.s1|))
  }

  /** A score at either limit of the 8-bit lanes. */
  predicate Hits(x: int)
  {
    x == INT8_MIN || x == INT8_MAX
  }

  /** A statistic at or past either limit. The 8-bit lanes stop at the
      limit; the unbounded statistics here may pass it, so reaching it is
      what the engine's check sees. */
  predicate StatHits(x: int)
  {
    x <= INT8_MIN || x >= INT8_MAX
  }

  /** Lane `l` of the saturation check after the column `c`: set before, or
      some score of the lane's rows hits a limit, or some statistic does. */
  function ColSat(sat: Mask, c: Col, segLen: int): (m: Mask)
    requires 1 <= segLen && c.Sized(SEG_WIDTH * segLen)
  {
    seq(16, l => if 0 <= l < 16 then
                   sat[l]
                   || (exists i :: 0 <= i < segLen && Hits(c.h[Row(l, i, segLen)]))
                   || (exists i :: 0 <= i < segLen && (StatHits(c.m[Row(l, i, segLen)]) || StatHits(c.s[Row(l, i, segLen)])
                                                      || StatHits(c.l[Row(l, i, segLen)])))
                 else false)
  }

  /** The saturation check after `j` columns. */
  function SatAt(p: Problem, j: nat): Mask
    requires p.Valid() && 1 <= |p.s1| && j <= |p.s2|
    decreases j, 1
  {
    if j == 0 then AllClear else SatAtStep(p, j)
  }

  /** Column `j` (from 1) added to the flags after `j - 1` columns. */
  function SatAtStep(p: Problem, j: nat): Mask
    requires p.Valid() && 1 <= |p.s1| && 1 <= j <= |p.s2|
    decreases j, 0
  {
    ColSat(SatAt(p, j - 1), ColAt(p, j), SegLen(|p.s1|))
  }

  // ------------------------------------------------------------ the result

  /** What the engine reports. */
  datatype Result = Result(score: int, matches: int, similar: int, length: int, saturated: bool)

  /** The final reduction over the lanes of `b`: lanes 15, 14, ... 0 in
      turn, a lane replacing the current answer only with a strictly greater
      score; statistics are unbiased. */
  function Scan8(b: Best, t: nat): (int, int, int, int)
    requires t <= LANES
  {
    if t == 0 then (NEG_INF_8, 0, 0, 0)
    else
      var prev := Scan8(b, t - 1);
      var k := LANES - t;
      if b.h[k] > prev.0 then (b.h[k], BIAS + b.m[k], BIAS + b.s[k], BIAS + b.l[k]) else prev
  }

  /** The reduction over all lanes. */
  function Reduced(b: Best): (int, int, int, int)
  {
    Scan8(b, |b.h|)
  }

  /** The result after all columns, from the running maxima `b0`: on
      saturation the score INT8_MAX and zero statistics. */
  function Report(p: Problem, b0: Best): Result
    requires p.Valid() && 1 <= |p.s1|
  {
    var r := Reduced(BestAt(p, b0, |p.s2|));
    if AnySet(SatAt(p, |p.s2|)) then Result(INT8_MAX, 0, 0, 0, true)
    else Result(r.0, r.1, r.2, r.3, false)
  }

  // ------------------------------------------------ facts about the runs

  /** A run down the whole column, cut before row `b`: the rows from `b` on
      continue from the value at row `b - 1`. */
  lemma {:induction false} RunSplit(x: seq<bool>, t: seq<int>, c: int, b: nat, i: nat)
    requires 1 <= b && b + i < |x| == |t|
    ensures Run(x, t, c, 0, b + i) == Run(x, t, Run(x, t, c, 0, b - 1), b, i)
  {
    if i > 0 {
      RunSplit(x, t, c, b, i - 1);
    }
  }

  lemma {:induction false} RunLenSplit(x: seq<bool>, t: seq<int>, c: int, b: nat, i: nat)
    requires 1 <= b && b + i < |x| == |t|
    ensures RunLen(x, t, c, 0, b + i) == RunLen(x, t, RunLen(x, t, c, 0, b - 1) + 1, b, i)
  {
    if i > 0 {
      RunLenSplit(x, t, c, b, i - 1);
    }
  }

  /** Once an unflagged row is reached, the value entering the run no
      longer matters. */
  lemma {:induction false} RunCarryFree(x: seq<bool>, t: seq<int>, c: int, d: int, b: nat, i: nat, j: nat)
    requires b + i < |x| == |t| && j <= i && !x[b + j]
    ensures Run(x, t, c, b, i) == Run(x, t, d, b, i)
    ensures RunLen(x, t, c, b, i) == RunLen(x, t, d, b, i)
  {
    if i > j && x[b + i] {
      RunCarryFree(x, t, c, d, b, i - 1, j);
    }
  }

  /** A run of flagged rows only passes the entering value down, the
      length growing by one per row. */
  lemma {:induction false} RunAllFlagged(x: seq<bool>, t: seq<int>, c: int, b: nat, i: nat)
    requires b + i < |x| == |t|
    requires forall j :: b <= j <= b + i ==> x[j]
    ensures Run(x, t, c, b, i) == c
    ensures RunLen(x, t, c, b, i) == c + i
  {
    if i > 0 {
      RunAllFlagged(x, t, c, b, i - 1);
    }
  }

  /** The vertical gap run cut before row `b`, as `RunSplit`. */
  lemma {:induction false} FRunSplit(ht: seq<int>, g: int, c: int, b: nat, i: nat)
    requires 1 <= b && b + i < |ht|
    ensures FRun(ht, g, c, 0, b + i) == FRun(ht, g, FRun(ht, g, c, 0, b - 1), b, i)
  {
    if i > 0 {
      FRunSplit(ht, g, c, b, i - 1);
    }
  }

  /** Provisional scores within [0, INT8_MAX]. */
  predicate Scores8(ht: seq<int>)
  {
    forall r :: 0 <= r < |ht| ==> 0 <= ht[r] <= INT8_MAX
  }

  /** With provisional scores in [0, INT8_MAX], the vertical gap run lies
      between 0 and INT8_MAX once it has started from INT8_MIN. */
  lemma {:induction false} FRunRange(ht: seq<int>, g: int, b: nat, i: nat)
    requires b + i < |ht| && Scores8(ht) && 0 <= g
    ensures 0 <= FRun(ht, g, NEG_INF_8, b, i) <= INT8_MAX
  {
    if i > 0 {
      FRunRange(ht, g, b, i - 1);
    }
  }

  /** With a gap cost in [0, INT8_MAX] the saturation never bites: a run
      entered with `c` is the better of `c` minus one gap per row and the run
      entered with INT8_MIN. */
  lemma {:induction false} FRunLinear(ht: seq<int>, g: int, c: int, b: nat, i: nat)
    requires b + i < |ht| && Scores8(ht) && 0 <= g <= INT8_MAX && c <= INT8_MAX
    ensures FRun(ht, g, c, b, i) == MaxInt(c - (i + 1) * g, FRun(ht, g, NEG_INF_8, b, i))
  {
    FRunRange(ht, g, b, i);
    if i > 0 {
      FRunLinear(ht, g, c, b, i - 1);
      FRunRange(ht, g, b, i - 1);
      assert c - i * g - g == c - (i + 1) * g;
    }
  }

  /** Under a non-negative gap-open lane, row 0 never takes its statistics
      from a vertical gap: there is nothing above it. */
  lemma {:induction false} FirstRowUnflagged(p: Problem, prev: Col, k: int)
    requires Arg(p, prev, k) && 1 <= |p.s1| && 0 <= O8(p)
    ensures !XOf(ExCol(p, prev, k), HtCol(p, prev, k), FoOf(p, FtCol(p, prev, k)))[0]
  {
    var ht := HtCol(p, prev, k);
    assert FtCol(p, prev, k)[0] == FRun(ht, G8(p), NEG_INF_8, 0, 0) == 0;
  }

  // ----------------------------------------------- what the result means

  /** Lane `l` of `t` and of `b` agree: score and statistics. */
  predicate SameLane(t: Best, b: Best, l: int)
    requires 0 <= l < LANES
  {
    t.h[l] == b.h[l] && t.m[l] == b.m[l] && t.s[l] == b.s[l] && t.l[l] == b.l[l]
  }

  /** Lane `l` of `t` holds the cell at row `r` of column `c`. */
  predicate LaneIsCell(t: Best, l: int, c: Col, r: int)
    requires 0 <= l < LANES && c.Sized(|c.h|) && 0 <= r < |c.h|
  {
    t.h[l] == c.h[r] && t.m[l] == c.m[r] && t.s[l] == c.s[r] && t.l[l] == c.l[r]
  }

  /** The reduction returns the largest score of the lanes it has seen
      (INT8_MIN if none beats it) with the unbiased statistics of the
      highest lane holding it: on ties the first lane extracted wins. */
  lemma {:induction false} Scan8FirstMax(b: Best, t: nat)
    requires t <= LANES
    ensures var r := Scan8(b, t);
            && r.0 >= NEG_INF_8
            && (forall k :: LANES - t <= k < LANES ==> b.h[k] <= r.0)
            && (r.0 == NEG_INF_8 ==> r == (NEG_INF_8, 0, 0, 0))
            && (r.0 > NEG_INF_8 ==>
                  exists k :: LANES - t <= k < LANES && r == (b.h[k], BIAS + b.m[k], BIAS + b.s[k], BIAS + b.l[k])
                              && forall k' :: k < k' < LANES ==> b.h[k'] < r.0)
  {
    if t > 0 {
      Scan8FirstMax(b, t - 1);
      var prev := Scan8(b, t - 1);
      var k := LANES - t;
      if b.h[k] > prev.0 {
        assert Scan8(b, t) == (b.h[k], BIAS + b.m[k], BIAS + b.s[k], BIAS + b.l[k]);
      } else if prev.0 > NEG_INF_8 {
        var k0 :| LANES - (t - 1) <= k0 < LANES && prev == (b.h[k0], BIAS + b.m[k0], BIAS + b.s[k0], BIAS + b.l[k0])
                  && forall k' :: k0 < k' < LANES ==> b.h[k'] < prev.0;
        assert LANES - t <= k0;
      }
    }
  }

  /** Lane `l` of the running maxima after segments `0 .. n - 1` of column
      `c`: at least what it started with and every score of the lane's rows
      seen; either unchanged, or the first of those rows to beat the start,
      with that row's statistics. */
  lemma {:induction false} TrackLane(b: Best, c: Col, segLen: int, n: int, l: int)
    requires 0 <= n <= segLen && c.Sized(SEG_WIDTH * segLen) && 0 <= l < LANES
    ensures var t := Track(b, c, segLen, n);
            && b.h[l] <= t.h[l]
            && (forall i :: 0 <= i < n ==> c.h[Row(l, i, segLen)] <= t.h[l])
            && (SameLane(t, b, l)
                || exists i :: 0 <= i < n && b.h[l] < t.h[l] && LaneIsCell(t, l, c, Row(l, i, segLen))
                               && forall i' :: 0 <= i' < i ==> c.h[Row(l, i', segLen)] < t.h[l])
  {
    if n > 0 {
      TrackLane(b, c, segLen, n - 1, l);
      var prev := Track(b, c, segLen, n - 1);
      var t := Track(b, c, segLen, n);
      var r := Row(l, n - 1, segLen);
      assert t == Fold(prev, SegOf(c.h, segLen, n - 1), SegOf(c.m, segLen, n - 1), SegOf(c.s, segLen, n - 1),
                       SegOf(c.l, segLen, n - 1));
      if c.h[r] > prev.h[l] {
        assert LaneIsCell(t, l, c, r);
      } else {
        assert SameLane(t, prev, l);
        if !SameLane(prev, b, l) {
          var i :| 0 <= i < n - 1 && b.h[l] < prev.h[l] && LaneIsCell(prev, l, c, Row(l, i, segLen))
                   && forall i' :: 0 <= i' < i ==> c.h[Row(l, i', segLen)] < prev.h[l];
          assert LaneIsCell(t, l, c, Row(l, i, segLen));
        }
      }
    }
  }

  /** Every column of `cs` has `n` rows. */
  predicate AllSized(cs: seq<Col>, n: nat)
  {
    forall j :: 0 <= j < |cs| ==> cs[j].Sized(n)
  }

  /** The columns after the first `j` residues of the second sequence, in
      order: entry `j'` is `ColAt(p, j' + 1)`. */
  function Columns(p: Problem, j: nat): (cs: seq<Col>)
    requires p.Valid() && j <= |p.s2|
    ensures |cs| == j && AllSized(cs, Rows(p))
  {
    if j == 0 then [] else Columns(p, j - 1) + [ColAt(p, j)]
  }

  lemma {:induction false} ColumnsAt(p: Problem, n: nat, i: nat, j: nat)
    requires p.Valid() && j == i + 1 && j <= n <= |p.s2|
    ensures Columns(p, n)[i] == ColAt(p, j)
  {
    if j < n {
      ColumnsAt(p, n - 1, i, j);
    }
  }

  /** The running maxima after the columns `cs`, from `b0`. */
  function BestOver(b0: Best, cs: seq<Col>, segLen: nat): Best
    requires AllSized(cs, SEG_WIDTH * segLen)
    decreases |cs|, 1
  {
    if cs == [] then b0 else BestStep(b0, cs, segLen)
  }

  /** The last column of `cs` folded into the maxima after the others. */
  function BestStep(b0: Best, cs: seq<Col>, segLen: nat): Best
    requires cs != [] && AllSized(cs, SEG_WIDTH * segLen)
    decreases |cs|, 0
  {
    Track(BestOver(b0, cs[..|cs| - 1], segLen), cs[|cs| - 1], segLen, segLen)
  }

  lemma {:induction false} BestAtOver(p: Problem, b0: Best, j: nat, cs: seq<Col>)
    requires p.Valid() && j <= |p.s2| && cs == Columns(p, j)
    ensures BestAt(p, b0, j) == BestOver(b0, cs, SegLen(|p.s1|))
  {
    if j > 0 {
      BestAtOver(p, b0, j - 1, Columns(p, j - 1));
      assert cs[..j - 1] == Columns(p, j - 1);
    }
  }

  /** `TrackLane` for the last column of `cs`. */
  lemma {:induction false} BestStepLane(b0: Best, cs: seq<Col>, segLen: nat, l: int)
    requires cs != [] && AllSized(cs, SEG_WIDTH * segLen) && 0 <= l < LANES
    ensures var n := |cs| - 1;
            var prev := BestOver(b0, cs[..n], segLen);
            var t := BestStep(b0, cs, segLen);
            && prev.h[l] <= t.h[l]
            && (forall i :: 0 <= i < segLen ==> cs[n].h[Row(l, i, segLen)] <= t.h[l])
            && (SameLane(t, prev, l)
                || exists i :: 0 <= i < segLen && prev.h[l] < t.h[l] && LaneIsCell(t, l, cs[n], Row(l, i, segLen)))
  {
    var n := |cs| - 1;
    TrackLane(BestOver(b0, cs[..n], segLen), cs[n], segLen, segLen, l);
  }

  /** Lane `l` of the running maxima after the columns `cs`: at least what
      it started with and every score of the lane's rows in those columns;
      either unchanged, or the first of those cells, column by column, to
      beat the start, with that cell's statistics. */
  lemma {:induction false} BestOverLane(b0: Best, cs: seq<Col>, segLen: nat, l: int)
    requires AllSized(cs, SEG_WIDTH * segLen) && 0 <= l < LANES
    ensures var t := BestOver(b0, cs, segLen);
            && b0.h[l] <= t.h[l]
            && (forall j, i :: 0 <= j < |cs| && 0 <= i < segLen ==> cs[j].h[Row(l, i, segLen)] <= t.h[l])
            && (SameLane(t, b0, l)
                || exists j, i :: 0 <= j < |cs| && 0 <= i < segLen && b0.h[l] < t.h[l]
                                  && LaneIsCell(t, l, cs[j], Row(l, i, segLen)))
  {
    BestOverLaneBound(b0, cs, segLen, l);
    BestOverLaneCell(b0, cs, segLen, l);
  }

  /** The bound half of `BestOverLane`. */
  lemma {:induction false} BestOverLaneBound(b0: Best, cs: seq<Col>, segLen: nat, l: int)
    requires AllSized(cs, SEG_WIDTH * segLen) && 0 <= l < LANES
    ensures var t := BestOver(b0, cs, segLen);
            && b0.h[l] <= t.h[l]
            && (forall j, i :: 0 <= j < |cs| && 0 <= i < segLen ==> cs[j].h[Row(l, i, segLen)] <= t.h[l])
  {
    if cs != [] {
      var n := |cs| - 1;
      var front := cs[..n];
      BestOverLaneBound(b0, front, segLen, l);
      BestStepLane(b0, cs, segLen, l);
      assert forall j :: 0 <= j < n ==> cs[j] == front[j];
    }
  }

  /** The witness half of `BestOverLane`. */
  lemma {:induction false} BestOverLaneCell(b0: Best, cs: seq<Col>, segLen: nat, l: int)
    requires AllSized(cs, SEG_WIDTH * segLen) && 0 <= l < LANES
    ensures var t := BestOver(b0, cs, segLen);
            || SameLane(t, b0, l)
            || exists j, i :: 0 <= j < |cs| && 0 <= i < segLen && b0.h[l] < t.h[l]
                              && LaneIsCell(t, l, cs[j], Row(l, i, segLen))
  {
    if cs != [] {
      var n := |cs| - 1;
      var front := cs[..n];
      BestOverLaneCell(b0, front, segLen, l);
      BestOverLaneBound(b0, front, segLen, l);
      BestStepLane(b0, cs, segLen, l);
      var prev := BestOver(b0, front, segLen);
      var t := BestOver(b0, cs, segLen);
      if SameLane(t, prev, l) {
        if !SameLane(prev, b0, l) {
          var j, i :| 0 <= j < n && 0 <= i < segLen && b0.h[l] < prev.h[l] && LaneIsCell(prev, l, front[j], Row(l, i, segLen));
          assert LaneIsCell(t, l, cs[j], Row(l, i, segLen));
        }
      } else {
        var i :| 0 <= i < segLen && prev.h[l] < t.h[l] && LaneIsCell(t, l, cs[n], Row(l, i, segLen));
        assert b0.h[l] < t.h[l];
      }
    }
  }

  /** `r` is the score of the cell at row `row` of column `c` with its
      unbiased statistics. */
  predicate CellReported(r: (int, int, int, int), c: Col, row: int)
    requires c.Sized(|c.h|) && 0 <= row < |c.h|
  {
    r.0 == c.h[row] && r.1 == BIAS + c.m[row] && r.2 == BIAS + c.s[row] && r.3 == BIAS + c.l[row]
  }

  /** The reduction of the maxima after the columns `cs` from the
      corrected start is the best score of any cell, and at least 0. */
  lemma {:induction false} ScanOverBound(cs: seq<Col>, segLen: nat)
    requires AllSized(cs, SEG_WIDTH * segLen)
    ensures var r := Reduced(BestOver(START, cs, segLen));
            && 0 <= r.0
            && forall j, l, i :: 0 <= j < |cs| && 0 <= l < LANES && 0 <= i < segLen ==> cs[j].h[Row(l, i, segLen)] <= r.0
  {
    var b := BestOver(START, cs, segLen);
    var r := Reduced(b);
    Scan8FirstMax(b, |b.h|);
    BestOverLane(START, cs, segLen, LANES - 1);
    assert START.h[LANES - 1] == 0;
    forall j, l, i | 0 <= j < |cs| && 0 <= l < LANES && 0 <= i < segLen
      ensures cs[j].h[Row(l, i, segLen)] <= r.0
    {
      BestOverLane(START, cs, segLen, l);
    }
  }

  /** ... a positive score comes with the unbiased statistics of a cell
      holding it, a zero score with zero statistics. */
  lemma {:induction false} ScanOverCell(cs: seq<Col>, segLen: nat)
    requires AllSized(cs, SEG_WIDTH * segLen)
    ensures var r := Reduced(BestOver(START, cs, segLen));
            && (r.0 == 0 ==> r == (0, 0, 0, 0))
            && (r.0 > 0 ==>
                  exists j, l, i :: 0 <= j < |cs| && 0 <= l < LANES && 0 <= i < segLen
                                    && CellReported(r, cs[j], Row(l, i, segLen)))
  {
    var b := BestOver(START, cs, segLen);
    var r := Reduced(b);
    Scan8FirstMax(b, |b.h|);
    if r.0 >= 0 {
      var k :| 0 <= k < LANES && r == (b.h[k], BIAS + b.m[k], BIAS + b.s[k], BIAS + b.l[k]);
      BestOverLane(START, cs, segLen, k);
      assert START.h[k] == 0 && START.m[k] == START.s[k] == START.l[k] == -BIAS;
      if !SameLane(b, START, k) {
        var j, i :| 0 <= j < |cs| && 0 <= i < segLen && START.h[k] < b.h[k] && LaneIsCell(b, k, cs[j], Row(k, i, segLen));
        assert CellReported(r, cs[j], Row(k, i, segLen));
      }
    }
  }

  /** A bound on every lane's rows of the columns `cs` bounds every row. */
  lemma {:induction false} LanesBound(cs: seq<Col>, segLen: nat, x: int)
    requires AllSized(cs, SEG_WIDTH * segLen)
    requires forall j, l, i :: 0 <= j < |cs| && 0 <= l < LANES && 0 <= i < segLen ==> cs[j].h[Row(l, i, segLen)] <= x
    ensures forall j, row :: 0 <= j < |cs| && 0 <= row < SEG_WIDTH * segLen ==> cs[j].h[row] <= x
  {
    forall j, row | 0 <= j < |cs| && 0 <= row < SEG_WIDTH * segLen
      ensures cs[j].h[row] <= x
    {
      var l, i := RowOnto(row, segLen);
    }
  }

  /** A bound on every cell of `Columns(p, |p.s2|)` is a bound on every
      cell of the problem. */
  lemma {:induction false} ColumnsBound(p: Problem, cs: seq<Col>, x: int)
    requires p.Valid() && cs == Columns(p, |p.s2|)
    requires forall j, row :: 0 <= j < |cs| && 0 <= row < Rows(p) ==> cs[j].h[row] <= x
    ensures forall j, row :: 1 <= j <= |p.s2| && 0 <= row < Rows(p) ==> ColAt(p, j).h[row] <= x
  {
    forall j, row | 1 <= j <= |p.s2| && 0 <= row < Rows(p)
      ensures ColAt(p, j).h[row] <= x
    {
      ColumnsAt(p, |p.s2|, j - 1, j);
    }
  }

  /** Without saturation, the reported score is the best score of any cell
      (and at least 0); a positive score comes with the statistics of a
      cell holding it, a zero score with zero statistics. */
  lemma {:induction false} ReportBest(p: Problem)
    requires p.Valid() && 1 <= |p.s1| && !AnySet(SatAt(p, |p.s2|))
    ensures var r := Report(p, START);
            && !r.saturated && 0 <= r.score
            && (forall j, row :: 1 <= j <= |p.s2| && 0 <= row < Rows(p) ==> ColAt(p, j).h[row] <= r.score)
            && (r.score == 0 ==> r == Result(0, 0, 0, 0, false))
            && (r.score > 0 ==>
                  exists j, row :: 1 <= j <= |p.s2| && 0 <= row < Rows(p)
                                   && CellReported((r.score, r.matches, r.similar, r.length), ColAt(p, j), row))
  {
    var segLen := SegLen(|p.s1|);
    var cs := Columns(p, |p.s2|);
    BestAtOver(p, START, |p.s2|, cs);
    var s := Reduced(BestOver(START, cs, segLen));
    assert Report(p, START) == Result(s.0, s.1, s.2, s.3, false);
    ScanOverBound(cs, segLen);
    ScanOverCell(cs, segLen);
    if s.0 > 0 {
      var j, l, i :| 0 <= j < |cs| && 0 <= l < LANES && 0 <= i < segLen && CellReported(s, cs[j], Row(l, i, segLen));
      ColumnsAt(p, |p.s2|, j, j + 1);
    }
    LanesBound(cs, segLen, s.0);
    ColumnsBound(p, cs, s.0);
  }

  /** The running maxima as the source initialises them report statistics
      of 127 when no cell scores above 0, where the corrected start reports
      0: the lanes keep their start, and lane 15 is taken. */
  lemma {:induction false} StartAsWrittenNoPositive(p: Problem)
    requires p.Valid() && 1 <= |p.s1| && !AnySet(SatAt(p, |p.s2|))
    requires forall j, row :: 1 <= j <= |p.s2| && 0 <= row < Rows(p) ==> ColAt(p, j).h[row] <= 0
    ensures Report(p, START_AS_WRITTEN) == Result(0, BIAS, BIAS, BIAS, false)
    ensures Report(p, START) == Result(0, 0, 0, 0, false)
  {
    ReportFlat(p, START_AS_WRITTEN, 0);
    ReportFlat(p, START, -BIAS);
  }

  /** When no cell beats a start alike in every lane at score 0, the
      result is that start's (unbiased) statistics. */
  lemma {:induction false} ReportFlat(p: Problem, b0: Best, x: int)
    requires p.Valid() && 1 <= |p.s1| && !AnySet(SatAt(p, |p.s2|))
    requires forall j, row :: 1 <= j <= |p.s2| && 0 <= row < Rows(p) ==> ColAt(p, j).h[row] <= 0
    requires b0 == Best(Splat(0), Splat(x), Splat(x), Splat(x))
    ensures Report(p, b0) == Result(0, BIAS + x, BIAS + x, BIAS + x, false)
  {
    KeepsStart(p, b0);
    ReducedOfFlat(b0, x);
  }

  /** Maxima alike in every lane, at score 0, reduce to that lane. */
  lemma {:induction false} ReducedOfFlat(b: Best, x: int)
    requires b == Best(Splat(0), Splat(x), Splat(x), Splat(x))
    ensures Reduced(b) == (0, BIAS + x, BIAS + x, BIAS + x)
  {
    Scan8FirstMax(b, |b.h|);
    assert b.h[LANES - 1] == 0;
  }

  /** When no cell of `cs` beats a start of score 0 in every lane, the
      running maxima keep that start. */
  lemma {:induction false} KeepsStartOver(b0: Best, cs: seq<Col>, segLen: nat)
    requires AllSized(cs, SEG_WIDTH * segLen) && b0.h == Splat(0)
    requires forall j, l, i :: 0 <= j < |cs| && 0 <= l < LANES && 0 <= i < segLen ==> cs[j].h[Row(l, i, segLen)] <= 0
    ensures BestOver(b0, cs, segLen) == b0
  {
    var b := BestOver(b0, cs, segLen);
    forall l | 0 <= l < LANES
      ensures b.h[l] == b0.h[l] && b.m[l] == b0.m[l] && b.s[l] == b0.s[l] && b.l[l] == b0.l[l]
    {
      BestOverLane(b0, cs, segLen, l);
    }
    assert b.h == b0.h && b.m == b0.m && b.s == b0.s && b.l == b0.l;
  }

  /** The same for the columns of a problem. */
  lemma {:induction false} KeepsStart(p: Problem, b0: Best)
    requires p.Valid() && 1 <= |p.s1| && b0.h == Splat(0)
    requires forall j, row :: 1 <= j <= |p.s2| && 0 <= row < Rows(p) ==> ColAt(p, j).h[row] <= 0
    ensures BestAt(p, b0, |p.s2|) == b0
  {
    var segLen := SegLen(|p.s1|);
    var cs := Columns(p, |p.s2|);
    BestAtOver(p, b0, |p.s2|, cs);
    forall j, l, i | 0 <= j < |cs| && 0 <= l < LANES && 0 <= i < segLen
      ensures cs[j].h[Row(l, i, segLen)] <= 0
    {
      ColumnsAt(p, |p.s2|, j, j + 1);
    }
    KeepsStartOver(b0, cs, segLen);
  }

  /** A query of one residue against an empty second sequence. */
  const EMPTY_TARGET: Problem := Problem([0], [], 1, 1, seq(ALPHABET, a => seq(ALPHABET, b => 1)))

  /** On that input the maxima as the source initialises them report
      statistics of 127 for an alignment of score 0; the corrected start
      reports 0. */
  lemma {:induction false} EmptyTargetAsWritten()
    ensures Report(EMPTY_TARGET, START_AS_WRITTEN) == Result(0, BIAS, BIAS, BIAS, false)
    ensures Report(EMPTY_TARGET, START) == Result(0, 0, 0, 0, false)
  {
    assert !AnySet(SatAt(EMPTY_TARGET, 0));
    StartAsWrittenNoPositive(EMPTY_TARGET);
  }

  /** One more column: the recurrence, the saturation flags, the maxima and
      the list of columns advance by column `j + 1`. */
  lemma {:induction false} StepAt(p: Problem, b0: Best, j: nat)
    requires p.Valid() && 1 <= |p.s1| && j < |p.s2|
    ensures ColAt(p, j + 1) == Next(p, ColAt(p, j), p.s2[j])
    ensures SatAt(p, j + 1) == ColSat(SatAt(p, j), ColAt(p, j + 1), SegLen(|p.s1|))
    ensures BestAt(p, b0, j + 1) == Track(BestAt(p, b0, j), ColAt(p, j + 1), SegLen(|p.s1|), SegLen(|p.s1|))
    ensures Columns(p, j + 1) == Columns(p, j) + [ColAt(p, j + 1)]
  {
    assert ColAt(p, j + 1) == Step(p, j + 1);
    assert SatAt(p, j + 1) == SatAtStep(p, j + 1);
    assert BestAt(p, b0, j + 1) == BestAtStep(p, b0, j + 1);
  }
}
