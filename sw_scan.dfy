/**
  The striped local-alignment engine with statistics on sixteen 8-bit lanes
  (`sw_stats_scan_sse41_128_8`).

  The query is cut into `segLen` segments. Vector `i` of a column holds, in
  lane `l`, padded row `Row(l, i, segLen)`. For each residue of the second
  sequence the engine runs five passes over the segments of the column:

    1. the horizontal gap state E;
    2. the provisional score Ht (diagonal, E or 0) and provisional statistics;
    3. the vertical gap runs Ft: one pass per lane, a prefix across lanes,
       and a second pass that starts each lane from the lane below;
    4. the final score H, the rows whose statistics follow a vertical gap,
       and statistics chained within each lane;
    5. the statistics carried across lanes, stored, with the running best
       cell of every lane.

  The per-segment buffers of the source (`pvH`, `pvE`, `pvM`, `pvS`, `pvL`,
  `pvHt`, `pvFt`, `pvEx`, `pvMt`, `pvSt`, `pvLt`) are one array of `Seg`
  records: entry `i` holds what each buffer holds at index `i`.
*/
module SwScan {
  import opened Lanes
  import opened NwSpec
  import opened SwSpec

  /** What the per-segment buffers hold at one index. */
  datatype Seg = Seg(h: Vec, e: Vec, m: Vec, s: Vec, l: Vec,
                     ht: Vec, ft: Vec, ex: Mask, mt: Vec, st: Vec, lt: Vec)

  // ------------------------------------------------------------ the profile

  /** Where segment `i` of code `k` sits in a profile array. */
  function ProfIndex(k: int, i: int, segLen: int): (x: nat)
    requires 0 <= k < ALPHABET && 0 <= i < segLen
    ensures k * segLen <= x < k * segLen + segLen <= ALPHABET * segLen
  {
    MulMonotone(k + 1, ALPHABET, segLen);
    assert (k + 1) * segLen == k * segLen + segLen;
    k * segLen + i
  }

  /** Segment `i` of the three profiles of code `k`: scores, identity flags
      and positive-score flags. */
  predicate ProfAt(p: Problem, k: int, i: int, segLen: int, pv: Vec, mv: Vec, sv: Vec)
    requires p.Valid() && 0 <= k < ALPHABET && 0 <= i < segLen
  {
    forall l :: 0 <= l < LANES ==>
      && pv[l] == Prof(p, k, Row(l, i, segLen)) && mv[l] == ProfMatch(p, k, Row(l, i, segLen))
      && sv[l] == ProfSimilar(p, k, Row(l, i, segLen))
  }

  /** The three profile arrays, every code and segment in place. */
  predicate Profiled(p: Problem, segLen: int, pvP: array<Vec>, pvPm: array<Vec>, pvPs: array<Vec>)
    requires p.Valid() && segLen == SegLen(|p.s1|)
    reads pvP, pvPm, pvPs
  {
    && pvP.Length == pvPm.Length == pvPs.Length == ALPHABET * segLen
    && forall k, i :: 0 <= k < ALPHABET && 0 <= i < segLen ==>
         ProfAt(p, k, i, segLen, pvP[ProfIndex(k, i, segLen)], pvPm[ProfIndex(k, i, segLen)],
                pvPs[ProfIndex(k, i, segLen)])
  }

  /** One segment of the three profiles for code `k`: lane `segNum` reads
      query position `i + segNum * segLen`, 0 past the end. */
  method ProfileSeg(p: Problem, k: int, i: int, segLen: int) returns (pv: Vec, mv: Vec, sv: Vec)
    requires p.Valid() && segLen == SegLen(|p.s1|) && 0 <= k < ALPHABET && 0 <= i < segLen
    ensures ProfAt(p, k, i, segLen, pv, mv, sv)
  {
    pv, mv, sv := Splat(0), Splat(0), Splat(0);
    var j := i;
    for segNum := 0 to SEG_WIDTH
      invariant j == Row(0, i, segLen) + segNum * segLen
      invariant forall l :: 0 <= l < segNum ==>
                  pv[l] == Prof(p, k, Row(l, i, segLen)) && mv[l] == ProfMatch(p, k, Row(l, i, segLen))
                  && sv[l] == ProfSimilar(p, k, Row(l, i, segLen))
    {
      assert j == Row(segNum, i, segLen);
      pv := pv[segNum := if j >= |p.s1| then 0 else Wrap8(p.matrix[k][p.s1[j]])];
      mv := mv[segNum := if j >= |p.s1| then 0 else if k == p.s1[j] then 1 else 0];
      sv := sv[segNum := if pv[segNum] > 0 then 1 else 0];
      j := j + segLen;
    }
  }

  /** The profile segments of code `k`: entries `k * segLen` to
      `k * segLen + segLen - 1` of each array. */
  method ProfileCode(p: Problem, k: int, segLen: int, pvP: array<Vec>, pvPm: array<Vec>, pvPs: array<Vec>)
    requires p.Valid() && segLen == SegLen(|p.s1|) && 0 <= k < ALPHABET
    requires pvP.Length == pvPm.Length == pvPs.Length == ALPHABET * segLen
    requires pvP != pvPm && pvP != pvPs && pvPm != pvPs
    modifies pvP, pvPm, pvPs
    ensures forall i :: 0 <= i < segLen ==>
              ProfAt(p, k, i, segLen, pvP[ProfIndex(k, i, segLen)], pvPm[ProfIndex(k, i, segLen)],
                     pvPs[ProfIndex(k, i, segLen)])
    ensures forall x :: 0 <= x < ALPHABET * segLen && !(k * segLen <= x < k * segLen + segLen) ==>
              pvP[x] == old(pvP[x]) && pvPm[x] == old(pvPm[x]) && pvPs[x] == old(pvPs[x])
  {
    var lo := k * segLen;
    MulMonotone(k + 1, ALPHABET, segLen);
    assert lo + segLen <= pvP.Length by { assert (k + 1) * segLen == lo + segLen; }
    var index := lo;
    for i := 0 to segLen
      invariant index == lo + i && lo + segLen <= pvP.Length
      invariant forall x :: lo <= x < index ==> ProfAt(p, k, x - lo, segLen, pvP[x], pvPm[x], pvPs[x])
      invariant forall x :: 0 <= x < pvP.Length && !(lo <= x < index) ==>
                  pvP[x] == old(pvP[x]) && pvPm[x] == old(pvPm[x]) && pvPs[x] == old(pvPs[x])
    {
      var pv, mv, sv := ProfileSeg(p, k, i, segLen);
      pvP[index] := pv;
      pvPm[index] := mv;
      pvPs[index] := sv;
      index := index + 1;
    }
    forall i | 0 <= i < segLen
      ensures ProfAt(p, k, i, segLen, pvP[ProfIndex(k, i, segLen)], pvPm[ProfIndex(k, i, segLen)],
                     pvPs[ProfIndex(k, i, segLen)])
    {
      assert ProfIndex(k, i, segLen) - lo == i;
    }
  }

  /** Builds the profiles, code by code. */
  method BuildProfile(p: Problem, segLen: int) returns (pvP: array<Vec>, pvPm: array<Vec>, pvPs: array<Vec>)
    requires p.Valid() && segLen == SegLen(|p.s1|)
    ensures fresh(pvP) && fresh(pvPm) && fresh(pvPs)
    ensures Profiled(p, segLen, pvP, pvPm, pvPs)
  {
    pvP := new Vec[ALPHABET * segLen](_ => Splat(0));
    pvPm := new Vec[ALPHABET * segLen](_ => Splat(0));
    pvPs := new Vec[ALPHABET * segLen](_ => Splat(0));
    for k := 0 to ALPHABET
      invariant forall k', i :: 0 <= k' < k && 0 <= i < segLen ==>
                  ProfAt(p, k', i, segLen, pvP[ProfIndex(k', i, segLen)], pvPm[ProfIndex(k', i, segLen)],
                         pvPs[ProfIndex(k', i, segLen)])
    {
      forall k' | 0 <= k' < k
        ensures k' * segLen + segLen <= k * segLen
      {
        MulMonotone(k' + 1, k, segLen);
      }
      ProfileCode(p, k, segLen, pvP, pvPm, pvPs);
    }
  }

  // --------------------------------------------------------- column state

  /** `v` is segment `i` of the column `col`: lane `l` holds row `Row(l, i)`. */
  predicate Striped(v: Vec, col: seq<int>, segLen: int, i: int)
    requires 0 <= i < segLen && |col| == SEG_WIDTH * segLen
  {
    forall l :: 0 <= l < LANES ==> v[l] == col[Row(l, i, segLen)]
  }

  /** The same for a column of flags. */
  predicate StripedMask(v: Mask, col: seq<bool>, segLen: int, i: int)
    requires 0 <= i < segLen && |col| == SEG_WIDTH * segLen
  {
    forall l :: 0 <= l < LANES ==> v[l] == col[Row(l, i, segLen)]
  }

  /** The buffers hold column `c`: scores, gap states and statistics. */
  predicate Holds(buf: array<Seg>, c: Col, segLen: int)
    reads buf
  {
    && 1 <= segLen == buf.Length && c.Sized(SEG_WIDTH * segLen)
    && forall i :: 0 <= i < segLen ==>
         && Striped(buf[i].h, c.h, segLen, i) && Striped(buf[i].e, c.e, segLen, i)
         && Striped(buf[i].m, c.m, segLen, i) && Striped(buf[i].s, c.s, segLen, i)
         && Striped(buf[i].l, c.l, segLen, i)
  }

  /** The buffers before the first column. */
  method InitColumns(segLen: int) returns (buf: array<Seg>)
    requires 1 <= segLen
    ensures fresh(buf)
    ensures Holds(buf, Init(SEG_WIDTH * segLen), segLen)
  {
    var zero := Splat(0);
    buf := new Seg[segLen](_ => Seg(zero, zero, zero, zero, zero, zero, zero, AllClear, zero, zero, zero));
    ghost var c := Init(SEG_WIDTH * segLen);
    for i := 0 to segLen
      invariant forall i' :: 0 <= i' < i ==>
                  && Striped(buf[i'].h, c.h, segLen, i') && Striped(buf[i'].e, c.e, segLen, i')
                  && Striped(buf[i'].m, c.m, segLen, i') && Striped(buf[i'].s, c.s, segLen, i')
                  && Striped(buf[i'].l, c.l, segLen, i')
    {
      var h, e, m, l := Splat(0), Splat(NEG_INF_8), Splat(-BIAS), Splat(-BIAS);
      buf[i] := buf[i].(h := h, e := e, m := m, s := m, l := l);
    }
  }

  // ---------------------------------------------------------- the E pass

  lemma {:induction false} ESeg(p: Problem, prev: Col, segLen: int, i: int, vH: Vec, vE: Vec)
    requires p.Valid() && segLen == SegLen(|p.s1|) && prev.Sized(Rows(p)) && 0 <= i < segLen
    requires Striped(vH, prev.h, segLen, i) && Striped(vE, prev.e, segLen, i)
    ensures Striped(Max(SubSat8(vE, Splat(G8(p))), SubSat8(vH, Splat(O8(p)))), ECol(p, prev), segLen, i)
  {
  }

  /** Pass 1: every row's horizontal gap state, extended or opened. */
  method EPass(p: Problem, ghost prev: Col, buf: array<Seg>, segLen: int)
    requires p.Valid() && segLen == SegLen(|p.s1|) && Holds(buf, prev, segLen)
    modifies buf
    ensures forall i :: 0 <= i < segLen ==>
              buf[i] == old(buf[i]).(e := buf[i].e) && Striped(buf[i].e, ECol(p, prev), segLen, i)
  {
    var vGapO, vGapE := Splat(O8(p)), Splat(G8(p));
    ghost var ec := ECol(p, prev);
    for i := 0 to segLen
      invariant forall i' :: 0 <= i' < segLen ==> buf[i'] == old(buf[i']).(e := buf[i'].e)
      invariant forall i' :: 0 <= i' < i ==> Striped(buf[i'].e, ec, segLen, i')
      invariant forall i' :: i <= i' < segLen ==> buf[i'] == old(buf[i'])
    {
      var vH := buf[i].h;
      var vE := buf[i].e;
      ESeg(p, prev, segLen, i, vH, vE);
      vE := Max(SubSat8(vE, vGapE), SubSat8(vH, vGapO));
      ghost var before := buf[..];
      buf[i] := buf[i].(e := vE);
      forall i' | 0 <= i' < segLen && i' != i
        ensures buf[i'] == before[i']
      {
      }
    }
  }

  // --------------------------------------------------------- the Ht pass

  /** Shifting the last segment of `col` up one lane gives, in lanes 1 to 15,
      the row above the first row of each lane. */
  lemma {:induction false} AboveFirst(v: Vec, col: seq<int>, segLen: int, edge: int)
    requires 1 <= segLen && |col| == SEG_WIDTH * segLen && Striped(v, col, segLen, segLen - 1)
    ensures forall l :: 1 <= l < LANES ==> LShift16(v)[l] == Above(col, Row(l, 0, segLen), edge)
  {
    forall l | 1 <= l < LANES
      ensures LShift16(v)[l] == Above(col, Row(l, 0, segLen), edge)
    {
      RowAbove(l, segLen);
    }
  }

  /** Segment `i` holds the rows above those of segment `i + 1`. */
  lemma {:induction false} AboveNext(v: Vec, col: seq<int>, segLen: int, i: int, edge: int)
    requires 0 <= i < segLen - 1 && |col| == SEG_WIDTH * segLen && Striped(v, col, segLen, i)
    ensures forall l :: 0 <= l < LANES ==> v[l] == Above(col, Row(l, i + 1, segLen), edge)
  {
  }

  /** What the Ht loop carries into segment `i`: the scores and statistics of
      the rows above, the length one higher. */
  predicate HtCarry(prev: Col, segLen: int, i: int, vH: Vec, vMp: Vec, vSp: Vec, vLp: Vec)
    requires 0 <= i < segLen && prev.Sized(SEG_WIDTH * segLen)
  {
    forall l :: 0 <= l < LANES ==>
      && vH[l] == Above(prev.h, Row(l, i, segLen), 0)
      && vMp[l] == Above(prev.m, Row(l, i, segLen), -BIAS)
      && vSp[l] == Above(prev.s, Row(l, i, segLen), -BIAS)
      && vLp[l] == Above(prev.l, Row(l, i, segLen), -BIAS) + 1
  }

  /** The provisional values of row `r`, unfolded. */
  lemma {:induction false} HtRow(p: Problem, prev: Col, k: int, r: int)
    requires Arg(p, prev, k) && 0 <= r < Rows(p)
    ensures var d, e, ht := DiagAt(p, prev, k, r), ECol(p, prev)[r], HtCol(p, prev, k)[r];
      && d == Sat8(Above(prev.h, r, 0) + Prof(p, k, r))
      && e == MaxInt(Sat8(prev.e[r] - G8(p)), Sat8(prev.h[r] - O8(p)))
      && ht == MaxInt(MaxInt(d, e), 0)
      && ExCol(p, prev, k)[r] == (e > d && ht != 0)
      && MtCol(p, prev, k)[r] == (if ht == 0 then -BIAS else if e > d then prev.m[r] else Above(prev.m, r, -BIAS) + ProfMatch(p, k, r))
      && StCol(p, prev, k)[r] == (if ht == 0 then -BIAS else if e > d then prev.s[r] else Above(prev.s, r, -BIAS) + ProfSimilar(p, k, r))
      && LtCol(p, prev, k)[r] == (if ht == 0 then -BIAS else if e > d then prev.l[r] + 1 else Above(prev.l, r, -BIAS) + 1)
  {
  }

  /** The provisional columns of pass 2 (HtCol, ExCol, MtCol, StCol, LtCol). */
  datatype Prov = Prov(ht: seq<int>, ex: seq<bool>, mt: seq<int>, st: seq<int>, lt: seq<int>)
  {
    predicate Sized(n: nat)
    {
      |ht| == n && |ex| == n && |mt| == n && |st| == n && |lt| == n
    }
  }

  function ProvCol(p: Problem, prev: Col, k: int): (v: Prov)
    requires Arg(p, prev, k)
    ensures v.Sized(Rows(p))
  {
    Prov(HtCol(p, prev, k), ExCol(p, prev, k), MtCol(p, prev, k), StCol(p, prev, k), LtCol(p, prev, k))
  }

  /** Segment `sg` holds segment `i` of the provisional columns `v`. */
  predicate HtDone(v: Prov, segLen: int, i: int, sg: Seg)
    requires 0 <= i < segLen && v.Sized(SEG_WIDTH * segLen)
  {
    && Striped(sg.ht, v.ht, segLen, i) && StripedMask(sg.ex, v.ex, segLen, i)
    && Striped(sg.mt, v.mt, segLen, i) && Striped(sg.st, v.st, segLen, i) && Striped(sg.lt, v.lt, segLen, i)
  }

  /** One segment of pass 2: provisional score, horizontal-gap flags and
      provisional statistics. */
  method HtSegment(p: Problem, ghost prev: Col, k: int, segLen: int, i: int,
                   vH: Vec, vMp: Vec, vSp: Vec, vLp: Vec, vW: Vec, vC: Vec, vD: Vec, sg: Seg)
    returns (vHt: Vec, vEx: Mask, vMt: Vec, vSt: Vec, vLt: Vec)
    requires Arg(p, prev, k) && segLen == SegLen(|p.s1|) && 0 <= i < segLen
    requires HtCarry(prev, segLen, i, vH, vMp, vSp, vLp) && ProfAt(p, k, i, segLen, vW, vC, vD)
    requires Striped(sg.e, ECol(p, prev), segLen, i)
    requires Striped(sg.m, prev.m, segLen, i) && Striped(sg.s, prev.s, segLen, i) && Striped(sg.l, prev.l, segLen, i)
    ensures HtDone(ProvCol(p, prev, k), segLen, i, sg.(ht := vHt, ex := vEx, mt := vMt, st := vSt, lt := vLt))
  {
    var vZero, vOne, vNegBias := Splat(0), Splat(1), Splat(-BIAS);
    var vE := sg.e;
    var vDiag := AddSat8(vH, vW);
    vHt := Max(vDiag, vE);
    vHt := Max(vHt, vZero);
    var vMd := Add(vMp, vC);
    var vSd := Add(vSp, vD);
    vEx := CmpGt(vE, vDiag);
    var vL := Add(sg.l, vOne);
    vMt := Blend(vMd, sg.m, vEx);
    vSt := Blend(vSd, sg.s, vEx);
    vLt := Blend(vLp, vL, vEx);
    var condMax := CmpEq(vHt, vZero);
    vEx := MaskAndNot(condMax, vEx);
    vMt := Blend(vMt, vNegBias, condMax);
    vSt := Blend(vSt, vNegBias, condMax);
    vLt := Blend(vLt, vNegBias, condMax);
    forall l | 0 <= l < LANES
      ensures && vHt[l] == HtCol(p, prev, k)[Row(l, i, segLen)] && vEx[l] == ExCol(p, prev, k)[Row(l, i, segLen)]
              && vMt[l] == MtCol(p, prev, k)[Row(l, i, segLen)] && vSt[l] == StCol(p, prev, k)[Row(l, i, segLen)]
              && vLt[l] == LtCol(p, prev, k)[Row(l, i, segLen)]
    {
      HtRow(p, prev, k, Row(l, i, segLen));
    }
  }

  /** One iteration of pass 2: segment `i` computed and stored, and the
      carried vectors moved on to the rows of segment `i`. */
  method HtStep(p: Problem, ghost prev: Col, k: int, buf: array<Seg>, segLen: int, i: int,
                pvP: array<Vec>, pvPm: array<Vec>, pvPs: array<Vec>, vH: Vec, vMp: Vec, vSp: Vec, vLp: Vec)
    returns (vH': Vec, vMp': Vec, vSp': Vec, vLp': Vec)
    requires Arg(p, prev, k) && segLen == SegLen(|p.s1|) && Profiled(p, segLen, pvP, pvPm, pvPs)
    requires 0 <= i < segLen == buf.Length
    requires Striped(buf[i].h, prev.h, segLen, i) && Striped(buf[i].e, ECol(p, prev), segLen, i)
    requires Striped(buf[i].m, prev.m, segLen, i) && Striped(buf[i].s, prev.s, segLen, i)
    requires Striped(buf[i].l, prev.l, segLen, i)
    requires HtCarry(prev, segLen, i, vH, vMp, vSp, vLp)
    modifies buf
    ensures forall i' :: 0 <= i' < segLen && i' != i ==> buf[i'] == old(buf[i'])
    ensures buf[i] == old(buf[i]).(ht := buf[i].ht, ex := buf[i].ex, mt := buf[i].mt, st := buf[i].st, lt := buf[i].lt)
    ensures HtDone(ProvCol(p, prev, k), segLen, i, buf[i])
    ensures i + 1 < segLen ==> HtCarry(prev, segLen, i + 1, vH', vMp', vSp', vLp')
  {
    var w := ProfIndex(k, i, segLen);
    var vHt, vEx, vMt, vSt, vLt := HtSegment(p, prev, k, segLen, i, vH, vMp, vSp, vLp, pvP[w], pvPm[w], pvPs[w], buf[i]);
    buf[i] := buf[i].(ht := vHt, ex := vEx, mt := vMt, st := vSt, lt := vLt);
    if i + 1 < segLen {
      AboveNext(buf[i].h, prev.h, segLen, i, 0);
      AboveNext(buf[i].m, prev.m, segLen, i, -BIAS);
      AboveNext(buf[i].s, prev.s, segLen, i, -BIAS);
      AboveNext(buf[i].l, prev.l, segLen, i, -BIAS);
    }
    vH' := buf[i].h;
    vMp' := buf[i].m;
    vSp' := buf[i].s;
    vLp' := Add(buf[i].l, Splat(1));
  }

  /** Pass 2 over the whole column. */
  method HtPass(p: Problem, ghost prev: Col, k: int, buf: array<Seg>, segLen: int,
                pvP: array<Vec>, pvPm: array<Vec>, pvPs: array<Vec>)
    requires Arg(p, prev, k) && segLen == SegLen(|p.s1|) && Profiled(p, segLen, pvP, pvPm, pvPs)
    requires 1 <= segLen == buf.Length
    requires forall i :: 0 <= i < segLen ==>
               && Striped(buf[i].h, prev.h, segLen, i) && Striped(buf[i].e, ECol(p, prev), segLen, i)
               && Striped(buf[i].m, prev.m, segLen, i) && Striped(buf[i].s, prev.s, segLen, i)
               && Striped(buf[i].l, prev.l, segLen, i)
    modifies buf
    ensures forall i :: 0 <= i < segLen ==>
              buf[i] == old(buf[i]).(ht := buf[i].ht, ex := buf[i].ex, mt := buf[i].mt, st := buf[i].st, lt := buf[i].lt)
    ensures forall i :: 0 <= i < segLen ==> HtDone(ProvCol(p, prev, k), segLen, i, buf[i])
  {
    var vH := LShift16(buf[segLen - 1].h);
    var vMp := Insert(LShift16(buf[segLen - 1].m), -BIAS, 0);
    var vSp := Insert(LShift16(buf[segLen - 1].s), -BIAS, 0);
    var vLp := Insert(LShift16(buf[segLen - 1].l), -BIAS, 0);
    vLp := Add(vLp, Splat(1));
    AboveFirst(buf[segLen - 1].h, prev.h, segLen, 0);
    AboveFirst(buf[segLen - 1].m, prev.m, segLen, -BIAS);
    AboveFirst(buf[segLen - 1].s, prev.s, segLen, -BIAS);
    AboveFirst(buf[segLen - 1].l, prev.l, segLen, -BIAS);
    ghost var v := ProvCol(p, prev, k);
    for i := 0 to segLen
      invariant forall i' :: 0 <= i' < segLen ==>
                  buf[i'] == old(buf[i']).(ht := buf[i'].ht, ex := buf[i'].ex, mt := buf[i'].mt, st := buf[i'].st, lt := buf[i'].lt)
      invariant forall i' :: 0 <= i' < i ==> HtDone(v, segLen, i', buf[i'])
      invariant i < segLen ==> HtCarry(prev, segLen, i, vH, vMp, vSp, vLp)
    {
      vH, vMp, vSp, vLp := HtStep(p, prev, k, buf, segLen, i, pvP, pvPm, pvPs, vH, vMp, vSp, vLp);
    }
  }

  // ------------------------------------------------------- the Ft pass

  /** The vertical gap run of lane `l` through segment `i`, entered with `c`
      above the lane's first row. */
  function LaneRun(ht: seq<int>, g: int, c: int, segLen: int, l: int, i: int): int
    requires 0 <= l < LANES && 0 <= i < segLen && |ht| == SEG_WIDTH * segLen
  {
    assert Row(l, 0, segLen) + i == Row(l, i, segLen);
    FRun(ht, g, c, Row(l, 0, segLen), i)
  }

  /** `v` after sweeping segments `0 .. i` from the lane entries `c`. */
  predicate Swept(v: Vec, ht: seq<int>, g: int, c: Vec, segLen: int, i: int)
    requires 0 <= i < segLen && |ht| == SEG_WIDTH * segLen
  {
    forall l :: 0 <= l < LANES ==> v[l] == LaneRun(ht, g, c[l], segLen, l, i)
  }

  /** `v` after sweeping segments `0 .. i - 1`: the lane entries themselves
      before the first segment. */
  predicate SweptTo(v: Vec, ht: seq<int>, g: int, c: Vec, segLen: int, i: int)
    requires 0 <= i <= segLen && |ht| == SEG_WIDTH * segLen
  {
    if i == 0 then v == c else Swept(v, ht, g, c, segLen, i - 1)
  }

  /** `v` holds, in every lane, the value above the lane's rows of segment `i`. */
  predicate AboveSeg(v: Vec, col: seq<int>, segLen: int, i: int, edge: int)
    requires 0 <= i < segLen && |col| == SEG_WIDTH * segLen
  {
    forall l :: 0 <= l < LANES ==> v[l] == Above(col, Row(l, i, segLen), edge)
  }

  /** One step of a sweep: segment `i` extends every lane's run. */
  lemma {:induction false} SweepStep(v: Vec, vHt: Vec, ht: seq<int>, g: int, c: Vec, segLen: int, i: int)
    requires 0 <= i < segLen && |ht| == SEG_WIDTH * segLen && SweptTo(v, ht, g, c, segLen, i)
    requires AboveSeg(vHt, ht, segLen, i, 0)
    ensures Swept(Max(SubSat8(v, Splat(g)), vHt), ht, g, c, segLen, i)
  {
  }

  /** The Ht vector a sweep takes at segment `i`: the last segment shifted up
      one lane before the first segment, the previous segment after it. */
  function HtAbove(hts: seq<Vec>, i: int): Vec
    requires 0 <= i < |hts|
  {
    if i == 0 then LShift16(hts[|hts| - 1]) else hts[i - 1]
  }

  /** The vector both Ft loops hold after sweeping the first `n` segments of
      the Ht vectors `hts` from the lane entries `c`. */
  function SweepOf(hts: seq<Vec>, g: int, c: Vec, n: int): Vec
    requires 0 <= n <= |hts|
  {
    if n == 0 then c else Max(SubSat8(SweepOf(hts, g, c, n - 1), Splat(g)), HtAbove(hts, n - 1))
  }

  /** Sweeping the striped Ht column runs every lane down its own rows. */
  lemma {:induction false} SweepLanes(hts: seq<Vec>, ht: seq<int>, g: int, c: Vec, segLen: int, i: int)
    requires 1 <= segLen == |hts| && |ht| == SEG_WIDTH * segLen && 0 <= i < segLen
    requires forall i :: 0 <= i < segLen ==> Striped(hts[i], ht, segLen, i)
    ensures Swept(SweepOf(hts, g, c, i + 1), ht, g, c, segLen, i)
  {
    if i == 0 {
      AboveFirst(hts[segLen - 1], ht, segLen, 0);
    } else {
      SweepLanes(hts, ht, g, c, segLen, i - 1);
      AboveNext(hts[i - 1], ht, segLen, i - 1, 0);
    }
    SweepStep(SweepOf(hts, g, c, i), HtAbove(hts, i), ht, g, c, segLen, i);
  }

  /** The Ht vectors of the segments. */
  ghost function HtsOf(buf: array<Seg>): (hts: seq<Vec>)
    reads buf
    ensures |hts| == buf.Length && forall i :: 0 <= i < buf.Length ==> hts[i] == buf[i].ht
  {
    seq(buf.Length, i requires 0 <= i < buf.Length reads buf => buf[i].ht)
  }

  /** The Ft vectors of the segments. */
  ghost function FtsOf(buf: array<Seg>): (fts: seq<Vec>)
    reads buf
    ensures |fts| == buf.Length && forall i :: 0 <= i < buf.Length ==> fts[i] == buf[i].ft
  {
    seq(buf.Length, i requires 0 <= i < buf.Length reads buf => buf[i].ft)
  }

  /** The first Ft loop: every lane runs down its own rows. */
  method FtFirstSweep(buf: array<Seg>, segLen: int, ghost hts: seq<Vec>, g: int, c: Vec) returns (vFt: Vec)
    requires 1 <= segLen == buf.Length == |hts|
    requires forall i :: 0 <= i < segLen ==> buf[i].ht == hts[i]
    ensures vFt == SweepOf(hts, g, c, segLen)
  {
    var vGapE := Splat(g);
    var vHt := LShift16(buf[segLen - 1].ht);
    vFt := c;
    for i := 0 to segLen
      invariant vFt == SweepOf(hts, g, c, i)
      invariant i < segLen ==> vHt == HtAbove(hts, i)
    {
      vFt := SubSat8(vFt, vGapE);
      vFt := Max(vFt, vHt);
      vHt := buf[i].ht;
    }
  }

  /** The second Ft loop: the same sweep, storing every segment. */
  method FtSecondSweep(buf: array<Seg>, segLen: int, ghost hts: seq<Vec>, g: int, c: Vec)
    requires 1 <= segLen == buf.Length == |hts|
    requires forall i :: 0 <= i < segLen ==> buf[i].ht == hts[i]
    modifies buf
    ensures forall i :: 0 <= i < segLen ==> buf[i] == old(buf[i]).(ft := buf[i].ft)
    ensures forall i :: 0 <= i < segLen ==> buf[i].ft == SweepOf(hts, g, c, i + 1)
  {
    var vGapE := Splat(g);
    var vHt := LShift16(buf[segLen - 1].ht);
    var vFt := c;
    for i := 0 to segLen
      invariant forall i' :: 0 <= i' < segLen ==> buf[i'] == old(buf[i']).(ft := buf[i'].ft)
      invariant forall i' :: 0 <= i' < i ==> buf[i'].ft == SweepOf(hts, g, c, i' + 1)
      invariant vFt == SweepOf(hts, g, c, i)
      invariant i < segLen ==> vHt == HtAbove(hts, i)
    {
      vFt := SubSat8(vFt, vGapE);
      vFt := Max(vFt, vHt);
      vHt := buf[i].ht;
      ghost var before := buf[..];
      buf[i] := buf[i].(ft := vFt);
      forall i' | 0 <= i' < segLen && i' != i
        ensures buf[i'] == before[i']
      {
      }
    }
  }

  /** The prefix across lanes: each lane takes the run arriving from the
      lane below, `d` lower, when that is better. The source computes in
      `int` and stores back into an 8-bit lane. */
  method LanePrefix(v: Vec, d: int) returns (w: Vec)
    ensures w[0] == v[0]
    ensures forall k :: 1 <= k < LANES ==> w[k] == Wrap8(MaxInt(w[k - 1] - d, v[k]))
  {
    w := v;
    for k := 1 to LANES
      invariant w[0] == v[0]
      invariant forall k' :: 1 <= k' < k ==> w[k'] == Wrap8(MaxInt(w[k' - 1] - d, v[k']))
      invariant forall k' :: k <= k' < LANES ==> w[k'] == v[k']
    {
      w := w[k := Wrap8(MaxInt(w[k - 1] - d, w[k]))];
    }
  }

  /** Lane prefix of the Ft pass under gap costs the lanes hold exactly:
      lane `l` ends up with the run through the last row of lane `l`, taken
      down the whole column. */
  lemma {:induction false} PrefixLanes(ht: seq<int>, g: int, segLen: int, d: int, a: Vec, w: Vec)
    requires 1 <= segLen && |ht| == SEG_WIDTH * segLen && Scores8(ht) && 0 <= g <= INT8_MAX && d == segLen * g
    requires forall l :: 0 <= l < LANES ==> a[l] == LaneRun(ht, g, NEG_INF_8, segLen, l, segLen - 1)
    requires w[0] == a[0]
    requires forall l :: 1 <= l < LANES ==> w[l] == Wrap8(MaxInt(w[l - 1] - d, a[l]))
    ensures forall l :: 0 <= l < LANES ==> w[l] == FRun(ht, g, NEG_INF_8, 0, Row(l, segLen - 1, segLen))
  {
    forall l | 0 <= l < LANES
      ensures w[l] == FRun(ht, g, NEG_INF_8, 0, Row(l, segLen - 1, segLen))
    {
      PrefixLane(ht, g, segLen, d, a, w, l);
    }
  }

  lemma {:induction false} PrefixLane(ht: seq<int>, g: int, segLen: int, d: int, a: Vec, w: Vec, l: int)
    requires 1 <= segLen && |ht| == SEG_WIDTH * segLen && Scores8(ht) && 0 <= g <= INT8_MAX && d == segLen * g
    requires forall l :: 0 <= l < LANES ==> a[l] == LaneRun(ht, g, NEG_INF_8, segLen, l, segLen - 1)
    requires w[0] == a[0]
    requires forall l :: 1 <= l < LANES ==> w[l] == Wrap8(MaxInt(w[l - 1] - d, a[l]))
    requires 0 <= l < LANES
    ensures w[l] == FRun(ht, g, NEG_INF_8, 0, Row(l, segLen - 1, segLen))
    decreases l
  {
    if l == 0 {
      assert a[0] == LaneRun(ht, g, NEG_INF_8, segLen, 0, segLen - 1);
    } else {
      PrefixLane(ht, g, segLen, d, a, w, l - 1);
      PrefixStep(ht, g, segLen, d, w[l - 1], a[l], w[l], l);
    }
  }

  /** One lane of the prefix: the run through the last row of lane `l - 1`,
      carried `segLen` rows down, against lane `l`'s own run. */
  lemma {:induction false} PrefixStep(ht: seq<int>, g: int, segLen: int, d: int, wPrev: int, aL: int, wL: int, l: int)
    requires 1 <= segLen && |ht| == SEG_WIDTH * segLen && Scores8(ht) && 0 <= g <= INT8_MAX && d == segLen * g
    requires 1 <= l < LANES
    requires wPrev == FRun(ht, g, NEG_INF_8, 0, Row(l - 1, segLen - 1, segLen))
    requires aL == LaneRun(ht, g, NEG_INF_8, segLen, l, segLen - 1)
    requires wL == Wrap8(MaxInt(wPrev - d, aL))
    ensures wL == FRun(ht, g, NEG_INF_8, 0, Row(l, segLen - 1, segLen))
  {
    var b := Row(l, 0, segLen);
    var i := segLen - 1;
    assert b + i == Row(l, i, segLen);
    RowAbove(l, segLen);
    assert wPrev == FRun(ht, g, NEG_INF_8, 0, b - 1);
    assert aL == FRun(ht, g, NEG_INF_8, b, i);
    FRunSplit(ht, g, NEG_INF_8, b, i);
    FRunRange(ht, g, 0, b - 1);
    FRunRange(ht, g, b, i);
    FRunLinear(ht, g, wPrev, b, i);
    assert (i + 1) * g == d;
    MulMonotone(0, i + 1, g);
  }

  /** The second sweep, entered with the prefix shifted up one lane, gives
      every row its run down the whole column. */
  lemma {:induction false} SecondSweepExact(ht: seq<int>, g: int, segLen: int, c: Vec, i: int)
    requires 1 <= segLen && |ht| == SEG_WIDTH * segLen && 0 <= i < segLen
    requires c[0] == NEG_INF_8
    requires forall l :: 1 <= l < LANES ==> c[l] == FRun(ht, g, NEG_INF_8, 0, Row(l - 1, segLen - 1, segLen))
    ensures forall l :: 0 <= l < LANES ==> LaneRun(ht, g, c[l], segLen, l, i) == FRun(ht, g, NEG_INF_8, 0, Row(l, i, segLen))
  {
    forall l | 0 <= l < LANES
      ensures LaneRun(ht, g, c[l], segLen, l, i) == FRun(ht, g, NEG_INF_8, 0, Row(l, i, segLen))
    {
      var b := Row(l, 0, segLen);
      assert b + i == Row(l, i, segLen);
      if l > 0 {
        RowAbove(l, segLen);
        assert c[l] == FRun(ht, g, NEG_INF_8, 0, b - 1);
        FRunSplit(ht, g, NEG_INF_8, b, i);
      }
    }
  }

  /** The two sweeps and the lane prefix between them leave every segment
      holding the exact vertical runs of the column. */
  lemma {:induction false} FtExact(hts: seq<Vec>, ht: seq<int>, g: int, segLen: int, d: int, a: Vec, w: Vec, c: Vec, segs: seq<Vec>)
    requires 1 <= segLen == |hts| == |segs| && |ht| == SEG_WIDTH * segLen && Scores8(ht) && 0 <= g <= INT8_MAX
    requires d == segLen * g
    requires forall i :: 0 <= i < segLen ==> Striped(hts[i], ht, segLen, i)
    requires a == SweepOf(hts, g, Splat(NEG_INF_8), segLen)
    requires w[0] == a[0]
    requires forall l :: 1 <= l < LANES ==> w[l] == Wrap8(MaxInt(w[l - 1] - d, a[l]))
    requires c == Insert(LShift16(w), NEG_INF_8, 0)
    requires forall i :: 0 <= i < segLen ==> segs[i] == SweepOf(hts, g, c, i + 1)
    ensures forall i :: 0 <= i < segLen ==> Striped(segs[i], FtOf(ht, g), segLen, i)
  {
    SweepLanes(hts, ht, g, Splat(NEG_INF_8), segLen, segLen - 1);
    PrefixLanes(ht, g, segLen, d, a, w);
    forall i | 0 <= i < segLen
      ensures Striped(segs[i], FtOf(ht, g), segLen, i)
    {
      SweepLanes(hts, ht, g, c, segLen, i);
      SecondSweepExact(ht, g, segLen, c, i);
    }
  }

  /** The stored Ft segments, unstriped, form a column they stripe onto;
      with gap costs the lanes hold exactly, it is the column's vertical
      runs. */
  lemma {:induction false} FtColumn(p: Problem, hts: seq<Vec>, ht: seq<int>, g: int, segLen: int, d: int, a: Vec, w: Vec, c: Vec, segs: seq<Vec>)
    requires p.Valid() && g == G8(p) && d == segLen * p.gap
    requires 1 <= segLen == |hts| == |segs| && |ht| == SEG_WIDTH * segLen
    requires forall i :: 0 <= i < segLen ==> Striped(hts[i], ht, segLen, i)
    requires a == SweepOf(hts, g, Splat(NEG_INF_8), segLen)
    requires w[0] == a[0]
    requires forall l :: 1 <= l < LANES ==> w[l] == Wrap8(MaxInt(w[l - 1] - d, a[l]))
    requires c == Insert(LShift16(w), NEG_INF_8, 0)
    requires forall i :: 0 <= i < segLen ==> segs[i] == SweepOf(hts, g, c, i + 1)
    ensures forall i :: 0 <= i < segLen ==> Striped(segs[i], Unstripe(segs, segLen), segLen, i)
    ensures Tame(p) && Scores8(ht) ==> Unstripe(segs, segLen) == FtOf(ht, G8(p))
  {
    var ft := Unstripe(segs, segLen);
    UnstripeSeg(segs, segLen);
    forall i | 0 <= i < segLen
      ensures Striped(segs[i], ft, segLen, i)
    {
      assert SegOf(ft, segLen, i) == segs[i];
    }
    if Tame(p) && Scores8(ht) {
      assert d == segLen * g;
      FtExact(hts, ht, g, segLen, d, a, w, c, segs);
      StripedUnique(segs, ft, FtOf(ht, g), segLen);
    }
  }

  /** `v` is the `i`-th segment of every column striped onto `segs`. */
  lemma {:induction false} StripedUnique(segs: seq<Vec>, a: seq<int>, b: seq<int>, segLen: int)
    requires 1 <= segLen == |segs| && |a| == |b| == SEG_WIDTH * segLen
    requires forall i :: 0 <= i < segLen ==> Striped(segs[i], a, segLen, i) && Striped(segs[i], b, segLen, i)
    ensures a == b
  {
    forall r | 0 <= r < |a|
      ensures a[r] == b[r]
    {
      var l, i := RowOnto(r, segLen);
      assert Striped(segs[i], a, segLen, i);
    }
  }

  /** Pass 3: the vertical gap runs. The first sweep runs each lane down its
      own rows; the prefix carries runs across lanes, `segLen` rows apart;
      the second sweep restarts each lane from the run arriving from the lane
      below and stores the result. With gap costs the 8-bit lanes hold
      exactly, every row gets its run down the whole column. */
  method FtPass(p: Problem, buf: array<Seg>, segLen: int, ghost ht: seq<int>) returns (ghost ft: seq<int>)
    requires p.Valid() && segLen == SegLen(|p.s1|) && 1 <= segLen == buf.Length && |ht| == SEG_WIDTH * segLen
    requires forall i :: 0 <= i < segLen ==> Striped(buf[i].ht, ht, segLen, i)
    modifies buf
    ensures |ft| == SEG_WIDTH * segLen
    ensures forall i :: 0 <= i < segLen ==> buf[i] == old(buf[i]).(ft := buf[i].ft)
    ensures forall i :: 0 <= i < segLen ==> Striped(buf[i].ft, ft, segLen, i)
    ensures Tame(p) && Scores8(ht) ==> ft == FtOf(ht, G8(p))
  {
    var g := G8(p);
    ghost var hts := HtsOf(buf);
    var vFt := FtFirstSweep(buf, segLen, hts, g, Splat(NEG_INF_8));
    ghost var a := vFt;
    var d := segLen * p.gap;
    vFt := LanePrefix(vFt, d);
    ghost var w := vFt;
    vFt := LShift16(vFt);
    vFt := Insert(vFt, NEG_INF_8, 0);
    FtSecondSweep(buf, segLen, hts, g, vFt);
    ghost var segs := FtsOf(buf);
    ft := Unstripe(segs, segLen);
    FtColumn(p, hts, ht, g, segLen, d, a, w, vFt, segs);
    forall i | 0 <= i < segLen
      ensures Striped(buf[i].ft, ft, segLen, i)
    {
      assert buf[i].ft == segs[i];
    }
  }

  // ------------------------------------------------------------- tables

  /** Segments `0 .. n - 1` of column `j` of `t` hold `bias` plus the lanes
      of `vs`. */
  predicate SegsStored(t: array2<int>, vs: seq<Vec>, segLen: int, j: int, n: int, bias: int)
    requires 0 <= n <= segLen <= |vs|
    reads t
  {
    && t.Length0 == SEG_WIDTH * segLen && 0 <= j < t.Length1
    && forall l, i :: 0 <= l < LANES && 0 <= i < n ==> t[Row(l, i, segLen), j] == bias + vs[i][l]
  }

  /** Stores the lanes of `v`, plus `bias`, as segment `i` of column `j`:
      lane `l` goes to row `Row(l, i)` (the source's sixteen unrolled
      stores). Segments before `i`, holding `vs`, and the other columns are
      left alone. */
  method StoreLanes(t: array2<int>, v: Vec, i: int, segLen: int, j: int, bias: int, ghost vs: seq<Vec>)
    requires 0 <= i < segLen <= |vs| && vs[i] == v && SegsStored(t, vs, segLen, j, i, bias)
    modifies t
    ensures SegsStored(t, vs, segLen, j, i + 1, bias)
    ensures forall r, c :: 0 <= r < t.Length0 && 0 <= c < t.Length1 && c != j ==> t[r, c] == old(t[r, c])
  {
    for k := 0 to LANES
      invariant forall l :: 0 <= l < k ==> t[Row(l, i, segLen), j] == bias + v[l]
      invariant forall l, i' :: 0 <= l < LANES && 0 <= i' < i ==> t[Row(l, i', segLen), j] == bias + vs[i'][l]
      invariant forall r, c :: 0 <= r < t.Length0 && 0 <= c < t.Length1 && c != j ==> t[r, c] == old(t[r, c])
    {
      forall l, i' | 0 <= l < LANES && 0 <= i' < segLen && (l, i') != (k, i)
        ensures Row(l, i', segLen) != Row(k, i, segLen)
      {
        RowDistinct(l, i', k, i, segLen);
      }
      t[Row(k, i, segLen), j] := bias + v[k];
    }
  }

  // ---------------------------------------------------------- the H pass

  /** The fields of a run of segments. */
  function Hs(sgs: seq<Seg>): (vs: seq<Vec>)
    ensures |vs| == |sgs| && forall i :: 0 <= i < |sgs| ==> vs[i] == sgs[i].h
  {
    seq(|sgs|, i requires 0 <= i < |sgs| => sgs[i].h)
  }

  function Mts(sgs: seq<Seg>): (vs: seq<Vec>)
    ensures |vs| == |sgs| && forall i :: 0 <= i < |sgs| ==> vs[i] == sgs[i].mt
  {
    seq(|sgs|, i requires 0 <= i < |sgs| => sgs[i].mt)
  }

  function Sts(sgs: seq<Seg>): (vs: seq<Vec>)
    ensures |vs| == |sgs| && forall i :: 0 <= i < |sgs| ==> vs[i] == sgs[i].st
  {
    seq(|sgs|, i requires 0 <= i < |sgs| => sgs[i].st)
  }

  function Lts(sgs: seq<Seg>): (vs: seq<Vec>)
    ensures |vs| == |sgs| && forall i :: 0 <= i < |sgs| ==> vs[i] == sgs[i].lt
  {
    seq(|sgs|, i requires 0 <= i < |sgs| => sgs[i].lt)
  }

  /** The final score of a segment: the provisional one or the vertical gap
      run minus the gap-open cost. */
  function HVec(sg: Seg, o: int): Vec
  {
    Max(sg.ht, SubSat8(sg.ft, Splat(o)))
  }

  /** The lanes of a segment whose statistics follow the vertical gap: it
      beats the provisional score, or ties one from a horizontal gap. */
  function XVec(sg: Seg, o: int): Mask
  {
    var fo := SubSat8(sg.ft, Splat(o));
    MaskOr(MaskAnd(sg.ex, CmpEq(sg.ht, fo)), CmpLt(sg.ht, fo))
  }

  /** A segment after pass 4: final score and vertical-gap flags in place. */
  function HDone(sg: Seg, o: int): Seg
  {
    sg.(h := HVec(sg, o), ex := XVec(sg, o))
  }

  function HVecs(sgs: seq<Seg>, o: int): (vs: seq<Vec>)
    ensures |vs| == |sgs| && forall i :: 0 <= i < |sgs| ==> vs[i] == HVec(sgs[i], o)
  {
    seq(|sgs|, i requires 0 <= i < |sgs| => HVec(sgs[i], o))
  }

  function XVecs(sgs: seq<Seg>, o: int): (xs: seq<Mask>)
    ensures |xs| == |sgs| && forall i :: 0 <= i < |sgs| ==> xs[i] == XVec(sgs[i], o)
  {
    seq(|sgs|, i requires 0 <= i < |sgs| => XVec(sgs[i], o))
  }

  /** A segment of provisional scores, runs and flags gives the segment of
      the final scores and of the vertical-gap flags. */
  lemma {:induction false} HSeg(p: Problem, v: Prov, ft: seq<int>, segLen: int, i: int, sg: Seg)
    requires 0 <= i < segLen && v.Sized(SEG_WIDTH * segLen) && |ft| == SEG_WIDTH * segLen
    requires Striped(sg.ht, v.ht, segLen, i) && Striped(sg.ft, ft, segLen, i) && StripedMask(sg.ex, v.ex, segLen, i)
    ensures Striped(HVec(sg, O8(p)), HOf(v.ht, FoOf(p, ft)), segLen, i)
    ensures StripedMask(XVec(sg, O8(p)), XOf(v.ex, v.ht, FoOf(p, ft)), segLen, i)
  {
  }

  /** The statistic stored at segment `n` by a chain through segments
      `0 .. n` entered with `c`: a flagged lane takes the value carried
      from the segment before, the others their own. */
  function ChainAt(xs: seq<Mask>, ts: seq<Vec>, c: Vec, n: int): Vec
    requires 0 <= n < |xs| && n < |ts|
  {
    Blend(ts[n], if n == 0 then c else ChainAt(xs, ts, c, n - 1), xs[n])
  }

  /** The same for the length, carried one higher. */
  function ChainLenAt(xs: seq<Mask>, ts: seq<Vec>, c: Vec, n: int): Vec
    requires 0 <= n < |xs| && n < |ts|
  {
    Blend(ts[n], if n == 0 then c else Add(ChainLenAt(xs, ts, c, n - 1), Splat(1)), xs[n])
  }

  /** The statistic of lane `l` through segment `i`, entered with `c`
      above the lane's first row. */
  function LaneStat(x: seq<bool>, t: seq<int>, c: int, segLen: int, l: int, i: int): int
    requires 0 <= l < LANES && 0 <= i < segLen && |x| == |t| == SEG_WIDTH * segLen
  {
    assert Row(l, 0, segLen) + i == Row(l, i, segLen);
    Run(x, t, c, Row(l, 0, segLen), i)
  }

  function LaneLen(x: seq<bool>, t: seq<int>, c: int, segLen: int, l: int, i: int): int
    requires 0 <= l < LANES && 0 <= i < segLen && |x| == |t| == SEG_WIDTH * segLen
  {
    assert Row(l, 0, segLen) + i == Row(l, i, segLen);
    RunLen(x, t, c, Row(l, 0, segLen), i)
  }

  /** Every lane of a chain runs down its own rows. */
  lemma {:induction false} ChainLanes(xs: seq<Mask>, ts: seq<Vec>, x: seq<bool>, t: seq<int>, c: Vec, segLen: int, n: int)
    requires 0 <= n < segLen == |xs| == |ts| && |x| == |t| == SEG_WIDTH * segLen
    requires forall i :: 0 <= i < segLen ==> StripedMask(xs[i], x, segLen, i) && Striped(ts[i], t, segLen, i)
    ensures forall l :: 0 <= l < LANES ==> ChainAt(xs, ts, c, n)[l] == LaneStat(x, t, c[l], segLen, l, n)
  {
    if n > 0 {
      ChainLanes(xs, ts, x, t, c, segLen, n - 1);
    }
    var prev := if n == 0 then c else ChainAt(xs, ts, c, n - 1);
    assert StripedMask(xs[n], x, segLen, n) && Striped(ts[n], t, segLen, n);
    forall l | 0 <= l < LANES
      ensures ChainAt(xs, ts, c, n)[l] == LaneStat(x, t, c[l], segLen, l, n)
    {
      var b := Row(l, 0, segLen);
      assert b + n == Row(l, n, segLen);
      assert ChainAt(xs, ts, c, n)[l] == if x[b + n] then prev[l] else t[b + n];
      if n > 0 {
        assert prev[l] == Run(x, t, c[l], b, n - 1);
      }
    }
  }

  lemma {:induction false} ChainLenLanes(xs: seq<Mask>, ts: seq<Vec>, x: seq<bool>, t: seq<int>, c: Vec, segLen: int, n: int)
    requires 0 <= n < segLen == |xs| == |ts| && |x| == |t| == SEG_WIDTH * segLen
    requires forall i :: 0 <= i < segLen ==> StripedMask(xs[i], x, segLen, i) && Striped(ts[i], t, segLen, i)
    ensures forall l :: 0 <= l < LANES ==> ChainLenAt(xs, ts, c, n)[l] == LaneLen(x, t, c[l], segLen, l, n)
  {
    if n > 0 {
      ChainLenLanes(xs, ts, x, t, c, segLen, n - 1);
    }
    var prev := if n == 0 then c else Add(ChainLenAt(xs, ts, c, n - 1), Splat(1));
    assert StripedMask(xs[n], x, segLen, n) && Striped(ts[n], t, segLen, n);
    forall l | 0 <= l < LANES
      ensures ChainLenAt(xs, ts, c, n)[l] == LaneLen(x, t, c[l], segLen, l, n)
    {
      var b := Row(l, 0, segLen);
      assert b + n == Row(l, n, segLen);
      assert ChainLenAt(xs, ts, c, n)[l] == if x[b + n] then prev[l] else t[b + n];
      if n > 0 {
        assert prev[l] == RunLen(x, t, c[l], b, n - 1) + 1;
      }
    }
  }

  /** `c` and-ed with the first `n` flag vectors. */
  function MaskAll(c: Mask, xs: seq<Mask>, n: int): Mask
    requires 0 <= n <= |xs|
  {
    if n == 0 then c else MaskAnd(MaskAll(c, xs, n - 1), xs[n - 1])
  }

  lemma {:induction false} MaskAllLanes(c: Mask, xs: seq<Mask>, n: int)
    requires 0 <= n <= |xs|
    ensures forall l :: 0 <= l < LANES ==> (MaskAll(c, xs, n)[l] <==> c[l] && forall i :: 0 <= i < n ==> xs[i][l])
  {
    if n > 0 {
      MaskAllLanes(c, xs, n - 1);
      forall l | 0 <= l < LANES
        ensures MaskAll(c, xs, n)[l] <==> c[l] && forall i :: 0 <= i < n ==> xs[i][l]
      {
        if c[l] && forall i :: 0 <= i < n - 1 ==> xs[i][l] {
          assert (forall i :: 0 <= i < n ==> xs[i][l]) <==> xs[n - 1][l];
        }
      }
    }
  }

  /** The lanes of `v` at a limit of the 8-bit lanes. */
  function HitMask(v: Vec): Mask
  {
    MaskOr(CmpEq(v, Splat(INT8_MIN)), CmpEq(v, Splat(INT8_MAX)))
  }

  /** `sat` or-ed with the limit lanes of the first `n` vectors. */
  function HitsOf(sat: Mask, vs: seq<Vec>, n: int): Mask
    requires 0 <= n <= |vs|
  {
    if n == 0 then sat else MaskOr(HitsOf(sat, vs, n - 1), HitMask(vs[n - 1]))
  }

  lemma {:induction false} HitsLanes(sat: Mask, vs: seq<Vec>, n: int)
    requires 0 <= n <= |vs|
    ensures forall l :: 0 <= l < LANES ==> (HitsOf(sat, vs, n)[l] <==> sat[l] || exists i :: 0 <= i < n && Hits(vs[i][l]))
  {
    if n > 0 {
      HitsLanes(sat, vs, n - 1);
      forall l | 0 <= l < LANES
        ensures HitsOf(sat, vs, n)[l] <==> sat[l] || exists i :: 0 <= i < n && Hits(vs[i][l])
      {
        if Hits(vs[n - 1][l]) {
          assert exists i :: 0 <= i < n && Hits(vs[i][l]);
        }
        if exists i :: 0 <= i < n && Hits(vs[i][l]) {
          var i :| 0 <= i < n && Hits(vs[i][l]);
          if i < n - 1 {
            assert exists i :: 0 <= i < n - 1 && Hits(vs[i][l]);
          }
        }
      }
    }
  }

  /** What pass 4 carries after segments `0 .. i - 1`, over the segments
      `s0` it started from: the statistic chains, the flags of lanes
      flagged in every row so far, and the saturation check. */
  predicate HCarry(p: Problem, s0: seq<Seg>, i: int, vMp: Vec, vSp: Vec, vLp: Vec, vC: Mask, sat0: Mask, sat: Mask)
    requires 0 <= i <= |s0|
  {
    var xs := XVecs(s0, O8(p));
    var cL := Add(Splat(-BIAS), Splat(1));
    && vMp == (if i == 0 then Splat(-BIAS) else ChainAt(xs, Mts(s0), Splat(-BIAS), i - 1))
    && vSp == (if i == 0 then Splat(-BIAS) else ChainAt(xs, Sts(s0), Splat(-BIAS), i - 1))
    && vLp == (if i == 0 then cL else Add(ChainLenAt(xs, Lts(s0), cL, i - 1), Splat(1)))
    && vC == MaskAll(RShiftMask(AllSet), xs, i)
    && sat == HitsOf(sat0, HVecs(s0, O8(p)), i)
  }

  /** One iteration of pass 4: segment `i`'s final score and flags stored,
      the chains moved on, the saturation check and the score table
      updated. */
  method HStep(p: Problem, buf: array<Seg>, segLen: int, i: int, ghost s0: seq<Seg>, vMp: Vec, vSp: Vec, vLp: Vec,
               vC: Mask, ghost sat0: Mask, sat: Mask, sTab: array2?<int>, j: int)
    returns (vMp': Vec, vSp': Vec, vLp': Vec, vC': Mask, sat': Mask)
    requires 0 <= i < segLen == buf.Length == |s0| && buf[i] == s0[i]
    requires HCarry(p, s0, i, vMp, vSp, vLp, vC, sat0, sat)
    requires sTab != null ==> SegsStored(sTab, HVecs(s0, O8(p)), segLen, j, i, 0)
    modifies buf, sTab
    ensures forall i' :: 0 <= i' < segLen && i' != i ==> buf[i'] == old(buf[i'])
    ensures buf[i] == HDone(s0[i], O8(p))
    ensures HCarry(p, s0, i + 1, vMp', vSp', vLp', vC', sat0, sat')
    ensures sTab != null ==> SegsStored(sTab, HVecs(s0, O8(p)), segLen, j, i + 1, 0)
    ensures sTab != null ==> forall r, c :: 0 <= r < sTab.Length0 && 0 <= c < sTab.Length1 && c != j ==>
              sTab[r, c] == old(sTab[r, c])
  {
    var vGapO := Splat(O8(p));
    var vHt := buf[i].ht;
    var vFt := buf[i].ft;
    vFt := SubSat8(vFt, vGapO);
    var vH := Max(vHt, vFt);
    var vEx := buf[i].ex;
    vEx := MaskOr(MaskAnd(vEx, CmpEq(vHt, vFt)), CmpLt(vHt, vFt));
    var vM := Blend(buf[i].mt, vMp, vEx);
    var vS := Blend(buf[i].st, vSp, vEx);
    var vL := Blend(buf[i].lt, vLp, vEx);
    vMp' := vM;
    vSp' := vS;
    vLp' := Add(vL, Splat(1));
    vC' := MaskAnd(vC, vEx);
    ghost var before := buf[..];
    buf[i] := buf[i].(h := vH, ex := vEx);
    forall i' | 0 <= i' < segLen && i' != i
      ensures buf[i'] == before[i']
    {
    }
    sat' := MaskOr(sat, MaskOr(CmpEq(vH, Splat(INT8_MIN)), CmpEq(vH, Splat(INT8_MAX))));
    if sTab != null {
      StoreLanes(sTab, vH, i, segLen, j, 0, HVecs(s0, O8(p)));
    }
  }

  /** Pass 4 over the whole column, from the segments `s0` it starts with:
      every segment gets its final score and vertical-gap flags; the chains
      of statistics run down each lane; `vC` marks the lanes below lane 15
      flagged in every row. */
  method HPass(p: Problem, buf: array<Seg>, segLen: int, ghost s0: seq<Seg>, sat: Mask, sTab: array2?<int>, j: int)
    returns (vMp: Vec, vSp: Vec, vLp: Vec, vC: Mask, sat': Mask)
    requires 1 <= segLen == buf.Length == |s0| && forall i :: 0 <= i < segLen ==> buf[i] == s0[i]
    requires sTab != null ==> sTab.Length0 == SEG_WIDTH * segLen && 0 <= j < sTab.Length1
    modifies buf, sTab
    ensures forall i :: 0 <= i < segLen ==> buf[i] == HDone(s0[i], O8(p))
    ensures HCarry(p, s0, segLen, vMp, vSp, vLp, vC, sat, sat')
    ensures sTab != null ==> SegsStored(sTab, HVecs(s0, O8(p)), segLen, j, segLen, 0)
    ensures sTab != null ==> forall r, c :: 0 <= r < sTab.Length0 && 0 <= c < sTab.Length1 && c != j ==>
              sTab[r, c] == old(sTab[r, c])
  {
    ghost var hs := HVecs(s0, O8(p));
    vMp := Splat(-BIAS);
    vSp := Splat(-BIAS);
    vLp := Add(Splat(-BIAS), Splat(1));
    vC := CmpEq(Splat(0), Splat(0));
    vC := RShiftMask(vC);
    sat' := sat;
    assert vC == RShiftMask(AllSet);
    for i := 0 to segLen
      invariant forall i' :: 0 <= i' < i ==> buf[i'] == HDone(s0[i'], O8(p))
      invariant forall i' :: i <= i' < segLen ==> buf[i'] == s0[i']
      invariant HCarry(p, s0, i, vMp, vSp, vLp, vC, sat, sat')
      invariant sTab != null ==> SegsStored(sTab, hs, segLen, j, i, 0)
      invariant sTab != null ==> forall r, c :: 0 <= r < sTab.Length0 && 0 <= c < sTab.Length1 && c != j ==>
                  sTab[r, c] == old(sTab[r, c])
    {
      vMp, vSp, vLp, vC, sat' := HStep(p, buf, segLen, i, s0, vMp, vSp, vLp, vC, sat, sat', sTab, j);
    }
  }

  // ------------------------------------------------ carries across lanes

  /** The statistic a lane carries after the cross-lane step: a lane
      flagged in `c` passes on what the lane below carries, the others keep
      their own. */
  function CarryPrefix(v: Vec, c: Mask, k: int): int
    requires 0 <= k < LANES
  {
    if k == 0 then v[0] else if c[k] then CarryPrefix(v, c, k - 1) else v[k]
  }

  /** The same for the length: a flagged lane adds its own run, less the
      bias its lanes started from, to what the lane below carries. */
  function CarryLenPrefix(a: Vec, c: Mask, k: int): int
    requires 0 <= k < LANES
  {
    if k == 0 then a[0] else if c[k] then BIAS + a[k] + CarryLenPrefix(a, c, k - 1) else a[k]
  }

  /** The cross-lane step after pass 4 (the source's unrolled lane
      statements): the length carry is taken back down by one, propagated,
      and raised again. The source narrows each lane to 8 bits; the
      statistics are unbounded here. */
  method Propagate(vMp: Vec, vSp: Vec, vLp: Vec, vC: Mask) returns (uMp: Vec, uSp: Vec, uLp: Vec)
    ensures forall k :: 0 <= k < LANES ==> uMp[k] == CarryPrefix(vMp, vC, k) && uSp[k] == CarryPrefix(vSp, vC, k)
    ensures forall k :: 0 <= k < LANES ==> uLp[k] == CarryLenPrefix(Sub(vLp, Splat(1)), vC, k) + 1
  {
    var a := Sub(vLp, Splat(1));
    uMp, uSp, uLp := vMp, vSp, a;
    for k := 1 to LANES
      invariant forall k' :: 0 <= k' < k ==>
                  uMp[k'] == CarryPrefix(vMp, vC, k') && uSp[k'] == CarryPrefix(vSp, vC, k')
                  && uLp[k'] == CarryLenPrefix(a, vC, k')
      invariant forall k' :: k <= k' < LANES ==> uMp[k'] == vMp[k'] && uSp[k'] == vSp[k'] && uLp[k'] == a[k']
    {
      uMp := uMp[k := if vC[k] then uMp[k - 1] else uMp[k]];
      uSp := uSp[k := if vC[k] then uSp[k - 1] else uSp[k]];
      uLp := uLp[k := if vC[k] then BIAS + uLp[k] + uLp[k - 1] else uLp[k]];
    }
    uLp := Add(uLp, Splat(1));
  }

  /** Every row of lane `l` is flagged. */
  predicate LaneFlagged(x: seq<bool>, segLen: int, l: int)
    requires 0 <= l < LANES && |x| == SEG_WIDTH * segLen
  {
    forall i :: 0 <= i < segLen ==> x[Row(l, i, segLen)]
  }

  /** One lane of the statistic carry: a lane flagged throughout passes on
      the value arriving from below, any other ends with its own run. */
  lemma {:induction false} CarryStep(x: seq<bool>, t: seq<int>, segLen: int, l: int, wPrev: int, aL: int, cl: bool, wL: int)
    requires 1 <= segLen && |x| == |t| == SEG_WIDTH * segLen && 1 <= l < LANES
    requires wPrev == Run(x, t, -BIAS, 0, Row(l - 1, segLen - 1, segLen))
    requires aL == LaneStat(x, t, -BIAS, segLen, l, segLen - 1)
    requires cl <==> LaneFlagged(x, segLen, l)
    requires wL == if cl then wPrev else aL
    ensures wL == Run(x, t, -BIAS, 0, Row(l, segLen - 1, segLen))
  {
    var b := Row(l, 0, segLen);
    var i := segLen - 1;
    assert b + i == Row(l, i, segLen);
    RowAbove(l, segLen);
    RunSplit(x, t, -BIAS, b, i);
    if cl {
      forall r | b <= r <= b + i
        ensures x[r]
      {
        assert r == Row(l, r - b, segLen);
      }
      RunAllFlagged(x, t, wPrev, b, i);
    } else {
      var j :| 0 <= j < segLen && !x[Row(l, j, segLen)];
      assert b + j == Row(l, j, segLen);
      RunCarryFree(x, t, -BIAS, wPrev, b, i, j);
    }
  }

  /** The same for the length, whose lanes started one above the bias. */
  lemma {:induction false} CarryLenStep(x: seq<bool>, t: seq<int>, segLen: int, l: int, wPrev: int, aL: int, cl: bool, wL: int)
    requires 1 <= segLen && |x| == |t| == SEG_WIDTH * segLen && 1 <= l < LANES
    requires wPrev == RunLen(x, t, -BIAS, 0, Row(l - 1, segLen - 1, segLen))
    requires aL == LaneLen(x, t, -BIAS + 1, segLen, l, segLen - 1)
    requires cl <==> LaneFlagged(x, segLen, l)
    requires wL == if cl then BIAS + aL + wPrev else aL
    ensures wL == RunLen(x, t, -BIAS, 0, Row(l, segLen - 1, segLen))
  {
    var b := Row(l, 0, segLen);
    var i := segLen - 1;
    assert b + i == Row(l, i, segLen);
    RowAbove(l, segLen);
    RunLenSplit(x, t, -BIAS, b, i);
    if cl {
      forall r | b <= r <= b + i
        ensures x[r]
      {
        assert r == Row(l, r - b, segLen);
      }
      RunAllFlagged(x, t, wPrev + 1, b, i);
      RunAllFlagged(x, t, -BIAS + 1, b, i);
    } else {
      var j :| 0 <= j < segLen && !x[Row(l, j, segLen)];
      assert b + j == Row(l, j, segLen);
      RunCarryFree(x, t, -BIAS + 1, wPrev + 1, b, i, j);
    }
  }

  /** `c` flags the lanes below lane 15 flagged in every row. */
  predicate FlagsLanes(c: Mask, x: seq<bool>, segLen: int)
    requires |x| == SEG_WIDTH * segLen
  {
    forall l :: 0 <= l < LANES ==> (c[l] <==> l < LANES - 1 && LaneFlagged(x, segLen, l))
  }

  /** After the cross-lane step, every lane but the last carries the
      statistic of its last row, taken down the whole column. */
  lemma {:induction false} CarryLanes(x: seq<bool>, t: seq<int>, segLen: int, v: Vec, c: Mask, k: int)
    requires 1 <= segLen && |x| == |t| == SEG_WIDTH * segLen && 0 <= k < LANES - 1
    requires forall l :: 0 <= l < LANES ==> v[l] == LaneStat(x, t, -BIAS, segLen, l, segLen - 1)
    requires FlagsLanes(c, x, segLen)
    ensures CarryPrefix(v, c, k) == Run(x, t, -BIAS, 0, Row(k, segLen - 1, segLen))
    decreases k
  {
    if k == 0 {
      assert Row(0, 0, segLen) == 0;
      assert v[0] == LaneStat(x, t, -BIAS, segLen, 0, segLen - 1);
    } else {
      CarryLanes(x, t, segLen, v, c, k - 1);
      CarryStep(x, t, segLen, k, CarryPrefix(v, c, k - 1), v[k], c[k], CarryPrefix(v, c, k));
    }
  }

  /** The same for the length, given that row 0 is not flagged. */
  lemma {:induction false} CarryLenLanes(x: seq<bool>, t: seq<int>, segLen: int, a: Vec, c: Mask, k: int)
    requires 1 <= segLen && |x| == |t| == SEG_WIDTH * segLen && 0 <= k < LANES - 1 && !x[0]
    requires forall l :: 0 <= l < LANES ==> a[l] == LaneLen(x, t, -BIAS + 1, segLen, l, segLen - 1)
    requires FlagsLanes(c, x, segLen)
    ensures CarryLenPrefix(a, c, k) == RunLen(x, t, -BIAS, 0, Row(k, segLen - 1, segLen))
    decreases k
  {
    if k == 0 {
      assert Row(0, 0, segLen) == 0;
      assert a[0] == LaneLen(x, t, -BIAS + 1, segLen, 0, segLen - 1);
      RunCarryFree(x, t, -BIAS + 1, -BIAS, 0, segLen - 1, 0);
    } else {
      CarryLenLanes(x, t, segLen, a, c, k - 1);
      CarryLenStep(x, t, segLen, k, CarryLenPrefix(a, c, k - 1), a[k], c[k], CarryLenPrefix(a, c, k));
    }
  }

  // ------------------------------------------------------- the final pass

  /** The chain of pass 5, entered with `c`, ends in every segment with
      the statistic of its rows taken down the whole column. */
  lemma {:induction false} FinalLanes(xs: seq<Mask>, ts: seq<Vec>, x: seq<bool>, t: seq<int>, c: Vec, segLen: int, i: int)
    requires 0 <= i < segLen == |xs| == |ts| && |x| == |t| == SEG_WIDTH * segLen
    requires forall i :: 0 <= i < segLen ==> StripedMask(xs[i], x, segLen, i) && Striped(ts[i], t, segLen, i)
    requires c[0] == -BIAS
    requires forall l :: 1 <= l < LANES ==> c[l] == Run(x, t, -BIAS, 0, Row(l - 1, segLen - 1, segLen))
    ensures Striped(ChainAt(xs, ts, c, i), RunCol(x, t), segLen, i)
  {
    ChainLanes(xs, ts, x, t, c, segLen, i);
    forall l | 0 <= l < LANES
      ensures ChainAt(xs, ts, c, i)[l] == RunCol(x, t)[Row(l, i, segLen)]
    {
      FinalLane(x, t, c[l], segLen, l, i);
    }
  }

  /** One lane of `FinalLanes`. */
  lemma {:induction false} FinalLane(x: seq<bool>, t: seq<int>, cl: int, segLen: int, l: int, i: int)
    requires 0 <= l < LANES && 0 <= i < segLen && |x| == |t| == SEG_WIDTH * segLen
    requires l == 0 ==> cl == -BIAS
    requires l > 0 ==> cl == Run(x, t, -BIAS, 0, Row(l - 1, segLen - 1, segLen))
    ensures LaneStat(x, t, cl, segLen, l, i) == Run(x, t, -BIAS, 0, Row(l, i, segLen))
  {
    var b := Row(l, 0, segLen);
    assert b + i == Row(l, i, segLen);
    if l > 0 {
      RowAbove(l, segLen);
      RunSplit(x, t, -BIAS, b, i);
    }
  }

  lemma {:induction false} FinalLenLanes(xs: seq<Mask>, ts: seq<Vec>, x: seq<bool>, t: seq<int>, c: Vec, segLen: int, i: int)
    requires 0 <= i < segLen == |xs| == |ts| && |x| == |t| == SEG_WIDTH * segLen
    requires forall i :: 0 <= i < segLen ==> StripedMask(xs[i], x, segLen, i) && Striped(ts[i], t, segLen, i)
    requires c[0] == -BIAS
    requires forall l :: 1 <= l < LANES ==> c[l] == RunLen(x, t, -BIAS, 0, Row(l - 1, segLen - 1, segLen)) + 1
    ensures Striped(ChainLenAt(xs, ts, c, i), RunLenCol(x, t), segLen, i)
  {
    ChainLenLanes(xs, ts, x, t, c, segLen, i);
    forall l | 0 <= l < LANES
      ensures ChainLenAt(xs, ts, c, i)[l] == RunLenCol(x, t)[Row(l, i, segLen)]
    {
      FinalLenLane(x, t, c[l], segLen, l, i);
    }
  }

  lemma {:induction false} FinalLenLane(x: seq<bool>, t: seq<int>, cl: int, segLen: int, l: int, i: int)
    requires 0 <= l < LANES && 0 <= i < segLen && |x| == |t| == SEG_WIDTH * segLen
    requires l == 0 ==> cl == -BIAS
    requires l > 0 ==> cl == RunLen(x, t, -BIAS, 0, Row(l - 1, segLen - 1, segLen)) + 1
    ensures LaneLen(x, t, cl, segLen, l, i) == RunLen(x, t, -BIAS, 0, Row(l, i, segLen))
  {
    var b := Row(l, 0, segLen);
    assert b + i == Row(l, i, segLen);
    if l > 0 {
      RowAbove(l, segLen);
      RunLenSplit(x, t, -BIAS, b, i);
    }
  }

  function Exs(sgs: seq<Seg>): (xs: seq<Mask>)
    ensures |xs| == |sgs| && forall i :: 0 <= i < |sgs| ==> xs[i] == sgs[i].ex
  {
    seq(|sgs|, i requires 0 <= i < |sgs| => sgs[i].ex)
  }

  /** Every segment's statistic along the chain entered with `c`. */
  function Chains(xs: seq<Mask>, ts: seq<Vec>, c: Vec): (vs: seq<Vec>)
    requires |xs| == |ts|
    ensures |vs| == |xs| && forall i :: 0 <= i < |xs| ==> vs[i] == ChainAt(xs, ts, c, i)
  {
    seq(|xs|, i requires 0 <= i < |xs| => ChainAt(xs, ts, c, i))
  }

  function ChainLens(xs: seq<Mask>, ts: seq<Vec>, c: Vec): (vs: seq<Vec>)
    requires |xs| == |ts|
    ensures |vs| == |xs| && forall i :: 0 <= i < |xs| ==> vs[i] == ChainLenAt(xs, ts, c, i)
  {
    seq(|xs|, i requires 0 <= i < |xs| => ChainLenAt(xs, ts, c, i))
  }

  /** The lanes of a statistic at or past either limit of the 8-bit lanes. */
  function StatHitMask(v: Vec): Mask
  {
    MaskOr(CmpLt(v, Splat(INT8_MIN + 1)), CmpGt(v, Splat(INT8_MAX - 1)))
  }

  /** `sat` or-ed with the limit lanes of the first `n` statistic vectors. */
  function StatHitsOf(sat: Mask, ms: seq<Vec>, ss: seq<Vec>, ls: seq<Vec>, n: int): Mask
    requires 0 <= n <= |ms| && n <= |ss| && n <= |ls|
  {
    if n == 0 then sat
    else MaskOr(MaskOr(MaskOr(StatHitsOf(sat, ms, ss, ls, n - 1), StatHitMask(ms[n - 1])), StatHitMask(ss[n - 1])),
                StatHitMask(ls[n - 1]))
  }

  /** The running maxima after folding in the first `n` segments. */
  function FoldSegs(b: Best, hs: seq<Vec>, ms: seq<Vec>, ss: seq<Vec>, ls: seq<Vec>, n: int): Best
    requires 0 <= n <= |hs| && n <= |ms| && n <= |ss| && n <= |ls|
  {
    if n == 0 then b else Fold(FoldSegs(b, hs, ms, ss, ls, n - 1), hs[n - 1], ms[n - 1], ss[n - 1], ls[n - 1])
  }

  /** A segment with its final statistics in place. */
  function WithStats(sg: Seg, m: Vec, s: Vec, l: Vec): Seg
  {
    sg.(m := m, s := s, l := l)
  }

  /** Segment `i` of the chains `ms`, `ss`, `ls`: a flagged lane takes the
      value carried from segment `i - 1` (from `cM`, `cS`, `cL` at the
      first segment), the others their provisional value. */
  predicate FLink(s4: seq<Seg>, cM: Vec, cS: Vec, cL: Vec, ms: seq<Vec>, ss: seq<Vec>, ls: seq<Vec>, i: int)
    requires 0 <= i < |s4| == |ms| == |ss| == |ls|
  {
    && ms[i] == Blend(s4[i].mt, if i == 0 then cM else ms[i - 1], s4[i].ex)
    && ss[i] == Blend(s4[i].st, if i == 0 then cS else ss[i - 1], s4[i].ex)
    && ls[i] == Blend(s4[i].lt, if i == 0 then cL else Add(ls[i - 1], Splat(1)), s4[i].ex)
  }

  /** What pass 5 carries after segments `0 .. i - 1`: the chains `ms`,
      `ss`, `ls` entered with `cM`, `cS`, `cL`, the saturation check and
      the running maxima over the scores `hs`. */
  predicate FCarry(ms: seq<Vec>, ss: seq<Vec>, ls: seq<Vec>, hs: seq<Vec>, cM: Vec, cS: Vec, cL: Vec, i: int,
                   vMp: Vec, vSp: Vec, vLp: Vec, sat0: Mask, sat: Mask, b0: Best, best: Best)
    requires 0 <= i <= |ms| == |ss| == |ls| == |hs|
  {
    && vMp == (if i == 0 then cM else ms[i - 1])
    && vSp == (if i == 0 then cS else ss[i - 1])
    && vLp == (if i == 0 then cL else Add(ls[i - 1], Splat(1)))
    && sat == StatHitsOf(sat0, ms, ss, ls, i)
    && best == FoldSegs(b0, hs, ms, ss, ls, i)
  }

  /** The four optional tables of the table variant: one row per padded
      query row, one column per residue of the second sequence. */
  class Tables {
    const score: array2<int>
    const matches: array2<int>
    const similar: array2<int>
    const length: array2<int>

    predicate Valid(rows: int, cols: int)
    {
      && score.Length0 == matches.Length0 == similar.Length0 == length.Length0 == rows
      && score.Length1 == matches.Length1 == similar.Length1 == length.Length1 == cols
      && score != matches && score != similar && score != length
      && matches != similar && matches != length && similar != length
    }

    constructor (rows: nat, cols: nat)
      ensures Valid(rows, cols)
      ensures fresh(score) && fresh(matches) && fresh(similar) && fresh(length)
    {
      score := new int[rows, cols];
      matches := new int[rows, cols];
      similar := new int[rows, cols];
      length := new int[rows, cols];
    }
  }

  /** Every column of `t` but column `j` is as it was. */
  twostate predicate KeptElsewhere(t: array2<int>, j: int)
    reads t
  {
    forall r, c :: 0 <= r < t.Length0 && 0 <= c < t.Length1 && c != j ==> t[r, c] == old(t[r, c])
  }

  /** The three statistics tables handed to pass 5: none, or three
      distinct tables of `SEG_WIDTH * segLen` rows with a column `j`. */
  predicate StatTabs(mT: array2?<int>, sT: array2?<int>, lT: array2?<int>, segLen: int, j: int)
  {
    && (mT == null <==> sT == null) && (mT == null <==> lT == null)
    && (mT != null ==>
          && mT.Length0 == sT.Length0 == lT.Length0 == SEG_WIDTH * segLen
          && 0 <= j < mT.Length1 && j < sT.Length1 && j < lT.Length1
          && mT != sT && mT != lT && sT != lT)
  }

  /** Segments `0 .. n - 1` of column `j` of the statistics tables `mT`,
      `sT`, `lT` hold the unbiased statistics `ms`, `ss`, `ls`. */
  predicate StatsIn(mT: array2<int>, sT: array2<int>, lT: array2<int>, ms: seq<Vec>, ss: seq<Vec>, ls: seq<Vec>,
                    segLen: int, j: int, n: int)
    requires 0 <= n <= segLen <= |ms| && segLen <= |ss| && segLen <= |ls|
    reads mT, sT, lT
  {
    && SegsStored(mT, ms, segLen, j, n, BIAS)
    && SegsStored(sT, ss, segLen, j, n, BIAS)
    && SegsStored(lT, ls, segLen, j, n, BIAS)
  }

  /** The same, for the statistics tables of `tabs`. */
  predicate StatsStored(tabs: Tables, ms: seq<Vec>, ss: seq<Vec>, ls: seq<Vec>, segLen: int, j: int, n: int)
    requires 0 <= n <= segLen <= |ms| && segLen <= |ss| && segLen <= |ls|
    reads tabs.matches, tabs.similar, tabs.length
  {
    StatsIn(tabs.matches, tabs.similar, tabs.length, ms, ss, ls, segLen, j, n)
  }

  /** Stores segment `i` of the three statistics, unbiased, into column
      `j` of the tables. */
  method StoreStats(mT: array2<int>, sT: array2<int>, lT: array2<int>, vM: Vec, vS: Vec, vL: Vec, i: int, segLen: int, j: int,
                    ghost ms: seq<Vec>, ghost ss: seq<Vec>, ghost ls: seq<Vec>)
    requires 0 <= i < segLen <= |ms| && segLen <= |ss| && segLen <= |ls|
    requires StatTabs(mT, sT, lT, segLen, j)
    requires ms[i] == vM && ss[i] == vS && ls[i] == vL && StatsIn(mT, sT, lT, ms, ss, ls, segLen, j, i)
    modifies mT, sT, lT
    ensures StatsIn(mT, sT, lT, ms, ss, ls, segLen, j, i + 1)
    ensures KeptElsewhere(mT, j) && KeptElsewhere(sT, j) && KeptElsewhere(lT, j)
  {
    StoreLanes(mT, vM, i, segLen, j, BIAS, ms);
    StoreLanes(sT, vS, i, segLen, j, BIAS, ss);
    StoreLanes(lT, vL, i, segLen, j, BIAS, ls);
  }

  /** With the table variant, column `j` of the statistics tables holds
      segments `0 .. n - 1` of `ms`, `ss`, `ls` and no other column has
      changed. */
  twostate predicate StatsColumn(tabs: Tables?, new ms: seq<Vec>, new ss: seq<Vec>, new ls: seq<Vec>, segLen: int, j: int, n: int)
    requires 0 <= n <= segLen <= |ms| && segLen <= |ss| && segLen <= |ls|
    reads if tabs == null then {} else {tabs.matches, tabs.similar, tabs.length}
  {
    tabs != null ==>
      && StatsStored(tabs, ms, ss, ls, segLen, j, n)
      && KeptElsewhere(tabs.matches, j) && KeptElsewhere(tabs.similar, j) && KeptElsewhere(tabs.length, j)
  }

  /** One iteration of pass 5: segment `i`'s statistics chosen and stored,
      the chains moved on, the saturation check, the tables and the running
      maxima updated. */
  method FStep(buf: array<Seg>, segLen: int, i: int, ghost s4: seq<Seg>, ghost cM: Vec, ghost cS: Vec, ghost cL: Vec,
               ghost ms: seq<Vec>, ghost ss: seq<Vec>, ghost ls: seq<Vec>,
               vMp: Vec, vSp: Vec, vLp: Vec, ghost sat0: Mask, sat: Mask, ghost b0: Best, best: Best,
               mT: array2?<int>, sT: array2?<int>, lT: array2?<int>, j: int)
    returns (vMp': Vec, vSp': Vec, vLp': Vec, sat': Mask, best': Best)
    requires 0 <= i < segLen == buf.Length == |s4| == |ms| == |ss| == |ls| && buf[i] == s4[i]
    requires FLink(s4, cM, cS, cL, ms, ss, ls, i)
    requires FCarry(ms, ss, ls, Hs(s4), cM, cS, cL, i, vMp, vSp, vLp, sat0, sat, b0, best)
    requires StatTabs(mT, sT, lT, segLen, j)
    requires mT != null ==> StatsIn(mT, sT, lT, ms, ss, ls, segLen, j, i)
    modifies buf, mT, sT, lT
    ensures forall i' :: 0 <= i' < segLen && i' != i ==> buf[i'] == old(buf[i'])
    ensures buf[i] == WithStats(s4[i], ms[i], ss[i], ls[i])
    ensures FCarry(ms, ss, ls, Hs(s4), cM, cS, cL, i + 1, vMp', vSp', vLp', sat0, sat', b0, best')
    ensures mT != null ==> StatsIn(mT, sT, lT, ms, ss, ls, segLen, j, i + 1)
    ensures mT != null ==> KeptElsewhere(mT, j) && KeptElsewhere(sT, j) && KeptElsewhere(lT, j)
  {
    var vH := buf[i].h;
    var vEx := buf[i].ex;
    var vM := Blend(buf[i].mt, vMp, vEx);
    var vS := Blend(buf[i].st, vSp, vEx);
    var vL := Blend(buf[i].lt, vLp, vEx);
    assert vM == ms[i] && vS == ss[i] && vL == ls[i];
    vMp' := vM;
    vSp' := vS;
    vLp' := Add(vL, Splat(1));
    if mT != null {
      StoreStats(mT, sT, lT, vM, vS, vL, i, segLen, j, ms, ss, ls);
    }
    ghost var before := buf[..];
    buf[i] := WithStats(buf[i], vM, vS, vL);
    forall i' | 0 <= i' < segLen && i' != i
      ensures buf[i'] == before[i']
    {
    }
    sat' := MaskOr(sat, StatHitMask(vM));
    sat' := MaskOr(sat', StatHitMask(vS));
    sat' := MaskOr(sat', StatHitMask(vL));
    best' := Fold(best, vH, vM, vS, vL);
  }

  /** The chains of pass 5, taken over the flags and provisional
      statistics pass 4 left, satisfy their defining step at every
      segment. */
  lemma {:induction false} FLinks(s0: seq<Seg>, o: int, s4: seq<Seg>, cM: Vec, cS: Vec, cL: Vec,
               ms: seq<Vec>, ss: seq<Vec>, ls: seq<Vec>)
    requires |s4| == |s0| && forall i :: 0 <= i < |s0| ==> s4[i] == HDone(s0[i], o)
    requires ms == Chains(XVecs(s0, o), Mts(s0), cM) && ss == Chains(XVecs(s0, o), Sts(s0), cS)
    requires ls == ChainLens(XVecs(s0, o), Lts(s0), cL)
    ensures |ms| == |ss| == |ls| == |s4|
    ensures forall i :: 0 <= i < |s4| ==> FLink(s4, cM, cS, cL, ms, ss, ls, i)
  {
    forall i | 0 <= i < |s4|
      ensures FLink(s4, cM, cS, cL, ms, ss, ls, i)
    {
      assert s4[i].ex == XVecs(s0, o)[i] && s4[i].mt == Mts(s0)[i];
      assert s4[i].st == Sts(s0)[i] && s4[i].lt == Lts(s0)[i];
    }
  }

  /** Pass 5 over the whole column, from the segments `s4` left by pass 4
      and the carries `cM`, `cS`, `cL` entering lane by lane: the chains
      `ms`, `ss`, `ls` run down every lane again; the statistics are
      stored, checked against the limits and folded, with the scores, into
      the running maxima. */
  method FLoop(buf: array<Seg>, segLen: int, ghost s4: seq<Seg>, cM: Vec, cS: Vec, cL: Vec,
               ghost ms: seq<Vec>, ghost ss: seq<Vec>, ghost ls: seq<Vec>, sat: Mask, best: Best,
               mT: array2?<int>, sT: array2?<int>, lT: array2?<int>, j: int)
    returns (sat': Mask, best': Best)
    requires 1 <= segLen == buf.Length == |s4| == |ms| == |ss| == |ls|
    requires forall i :: 0 <= i < segLen ==> buf[i] == s4[i] && FLink(s4, cM, cS, cL, ms, ss, ls, i)
    requires StatTabs(mT, sT, lT, segLen, j)
    modifies buf, mT, sT, lT
    ensures forall i :: 0 <= i < segLen ==> buf[i] == WithStats(s4[i], ms[i], ss[i], ls[i])
    ensures sat' == StatHitsOf(sat, ms, ss, ls, segLen)
    ensures best' == FoldSegs(best, Hs(s4), ms, ss, ls, segLen)
    ensures mT != null ==> StatsIn(mT, sT, lT, ms, ss, ls, segLen, j, segLen)
    ensures mT != null ==> KeptElsewhere(mT, j) && KeptElsewhere(sT, j) && KeptElsewhere(lT, j)
  {
    var vMp, vSp, vLp := cM, cS, cL;
    sat' := sat;
    best' := best;
    for i := 0 to segLen
      invariant forall i' :: 0 <= i' < segLen ==> buf[i'] == if i' < i then WithStats(s4[i'], ms[i'], ss[i'], ls[i']) else s4[i']
      invariant FCarry(ms, ss, ls, Hs(s4), cM, cS, cL, i, vMp, vSp, vLp, sat, sat', best, best')
      invariant mT != null ==> StatsIn(mT, sT, lT, ms, ss, ls, segLen, j, i)
      invariant mT != null ==> KeptElsewhere(mT, j) && KeptElsewhere(sT, j) && KeptElsewhere(lT, j)
    {
      vMp, vSp, vLp, sat', best' := FStep(buf, segLen, i, s4, cM, cS, cL, ms, ss, ls, vMp, vSp, vLp, sat, sat', best, best', mT, sT, lT, j);
    }
  }

  /** Pass 5 with the statistics tables of `tabs`, if any; the score table
      is left alone. */
  method FPass(buf: array<Seg>, segLen: int, ghost s4: seq<Seg>, cM: Vec, cS: Vec, cL: Vec,
               ghost ms: seq<Vec>, ghost ss: seq<Vec>, ghost ls: seq<Vec>, sat: Mask, best: Best, tabs: Tables?, j: int)
    returns (sat': Mask, best': Best)
    requires 1 <= segLen == buf.Length == |s4| == |ms| == |ss| == |ls|
    requires forall i :: 0 <= i < segLen ==> buf[i] == s4[i] && FLink(s4, cM, cS, cL, ms, ss, ls, i)
    requires tabs != null ==> tabs.Valid(SEG_WIDTH * segLen, tabs.score.Length1) && 0 <= j < tabs.score.Length1
    modifies buf, if tabs == null then {} else {tabs.matches, tabs.similar, tabs.length}
    ensures forall i :: 0 <= i < segLen ==> buf[i] == WithStats(s4[i], ms[i], ss[i], ls[i])
    ensures sat' == StatHitsOf(sat, ms, ss, ls, segLen)
    ensures best' == FoldSegs(best, Hs(s4), ms, ss, ls, segLen)
    ensures StatsColumn(tabs, ms, ss, ls, segLen, j, segLen)
    ensures tabs != null ==> unchanged(tabs.score)
  {
    if tabs == null {
      sat', best' := FLoop(buf, segLen, s4, cM, cS, cL, ms, ss, ls, sat, best, null, null, null, j);
    } else {
      sat', best' := FLoop(buf, segLen, s4, cM, cS, cL, ms, ss, ls, sat, best, tabs.matches, tabs.similar, tabs.length, j);
    }
  }

  /** The carries the cross-lane step leaves: see `Propagate`. */
  predicate Propagated(vMp: Vec, vSp: Vec, vLp: Vec, vC: Mask, uMp: Vec, uSp: Vec, uLp: Vec)
  {
    && (forall k :: 0 <= k < LANES ==> uMp[k] == CarryPrefix(vMp, vC, k) && uSp[k] == CarryPrefix(vSp, vC, k))
    && (forall k :: 0 <= k < LANES ==> uLp[k] == CarryLenPrefix(Sub(vLp, Splat(1)), vC, k) + 1)
  }

  /** The chains of pass 5 over the segments pass 4 started from, entered
      with the carries `uMp`, `uSp`, `uLp` moved up one lane. */
  predicate ChainsFrom(s0: seq<Seg>, o: int, uMp: Vec, uSp: Vec, uLp: Vec, ms: seq<Vec>, ss: seq<Vec>, ls: seq<Vec>)
  {
    && ms == Chains(XVecs(s0, o), Mts(s0), Insert(LShift16(uMp), -BIAS, 0))
    && ss == Chains(XVecs(s0, o), Sts(s0), Insert(LShift16(uSp), -BIAS, 0))
    && ls == ChainLens(XVecs(s0, o), Lts(s0), Insert(LShift16(uLp), -BIAS, 0))
  }

  /** The segments after pass 5: those pass 4 started from, with their
      final scores, flags and statistics in place. */
  predicate Finished(s0: seq<Seg>, o: int, ms: seq<Vec>, ss: seq<Vec>, ls: seq<Vec>, sgs: seq<Seg>)
  {
    && |sgs| == |s0| == |ms| == |ss| == |ls|
    && forall i :: 0 <= i < |sgs| ==> sgs[i] == WithStats(HDone(s0[i], o), ms[i], ss[i], ls[i])
  }

  // ------------------------------------------------ what a column holds

  function Es(sgs: seq<Seg>): (vs: seq<Vec>)
    ensures |vs| == |sgs| && forall i :: 0 <= i < |sgs| ==> vs[i] == sgs[i].e
  {
    seq(|sgs|, i requires 0 <= i < |sgs| => sgs[i].e)
  }

  function Ms(sgs: seq<Seg>): (vs: seq<Vec>)
    ensures |vs| == |sgs| && forall i :: 0 <= i < |sgs| ==> vs[i] == sgs[i].m
  {
    seq(|sgs|, i requires 0 <= i < |sgs| => sgs[i].m)
  }

  function Ss(sgs: seq<Seg>): (vs: seq<Vec>)
    ensures |vs| == |sgs| && forall i :: 0 <= i < |sgs| ==> vs[i] == sgs[i].s
  {
    seq(|sgs|, i requires 0 <= i < |sgs| => sgs[i].s)
  }

  function Ls(sgs: seq<Seg>): (vs: seq<Vec>)
    ensures |vs| == |sgs| && forall i :: 0 <= i < |sgs| ==> vs[i] == sgs[i].l
  {
    seq(|sgs|, i requires 0 <= i < |sgs| => sgs[i].l)
  }

  /** The column the segments `sgs` hold. */
  function ColOf(sgs: seq<Seg>): (c: Col)
    requires 1 <= |sgs|
    ensures c.Sized(SEG_WIDTH * |sgs|)
  {
    Col(Unstripe(Hs(sgs), |sgs|), Unstripe(Es(sgs), |sgs|), Unstripe(Ms(sgs), |sgs|), Unstripe(Ss(sgs), |sgs|),
        Unstripe(Ls(sgs), |sgs|))
  }

  /** Segments stripe onto the column they are unstriped to. */
  lemma {:induction false} StripedUnstripe(vs: seq<Vec>, segLen: int)
    requires 1 <= segLen == |vs|
    ensures forall i :: 0 <= i < segLen ==> Striped(vs[i], Unstripe(vs, segLen), segLen, i)
  {
    UnstripeSeg(vs, segLen);
    forall i | 0 <= i < segLen
      ensures Striped(vs[i], Unstripe(vs, segLen), segLen, i)
    {
      assert SegOf(Unstripe(vs, segLen), segLen, i) == vs[i];
    }
  }

  /** The buffers hold the column they unstripe to. */
  lemma {:induction false} HoldsColOf(buf: array<Seg>)
    requires 1 <= buf.Length
    ensures Holds(buf, ColOf(buf[..]), buf.Length)
  {
    var sgs := buf[..];
    StripedUnstripe(Hs(sgs), buf.Length);
    StripedUnstripe(Es(sgs), buf.Length);
    StripedUnstripe(Ms(sgs), buf.Length);
    StripedUnstripe(Ss(sgs), buf.Length);
    StripedUnstripe(Ls(sgs), buf.Length);
  }

  /** Segments striped onto `col` unstripe to `col`. */
  lemma {:induction false} UnstripeStriped(vs: seq<Vec>, col: seq<int>, segLen: int)
    requires 1 <= segLen == |vs| && |col| == SEG_WIDTH * segLen
    requires forall i :: 0 <= i < segLen ==> Striped(vs[i], col, segLen, i)
    ensures Unstripe(vs, segLen) == col
  {
    StripedUnstripe(vs, segLen);
    StripedUnique(vs, Unstripe(vs, segLen), col, segLen);
  }

  /** The flags pass 4 accumulates mark the lanes below lane 15 flagged in
      every row. */
  lemma {:induction false} FlagsOf(xs: seq<Mask>, x: seq<bool>, segLen: int)
    requires 1 <= segLen == |xs| && |x| == SEG_WIDTH * segLen
    requires forall i :: 0 <= i < segLen ==> StripedMask(xs[i], x, segLen, i)
    ensures FlagsLanes(MaskAll(RShiftMask(AllSet), xs, segLen), x, segLen)
  {
    MaskAllLanes(RShiftMask(AllSet), xs, segLen);
    forall l | 0 <= l < LANES
      ensures LaneFlagged(x, segLen, l) <==> forall i :: 0 <= i < segLen ==> xs[i][l]
    {
      assert forall i :: 0 <= i < segLen ==> xs[i][l] == x[Row(l, i, segLen)];
    }
  }

  /** Passes 4 and 5 with the cross-lane step between them leave every row
      with its statistic taken down the whole column. */
  lemma {:induction false} StatColumnExact(xs: seq<Mask>, ts: seq<Vec>, x: seq<bool>, t: seq<int>, segLen: int,
                        vMp: Vec, vC: Mask, uMp: Vec, cM: Vec, ms: seq<Vec>)
    requires 1 <= segLen == |xs| == |ts| && |x| == |t| == SEG_WIDTH * segLen
    requires forall i :: 0 <= i < segLen ==> StripedMask(xs[i], x, segLen, i) && Striped(ts[i], t, segLen, i)
    requires vMp == ChainAt(xs, ts, Splat(-BIAS), segLen - 1)
    requires FlagsLanes(vC, x, segLen)
    requires forall k :: 0 <= k < LANES ==> uMp[k] == CarryPrefix(vMp, vC, k)
    requires cM == Insert(LShift16(uMp), -BIAS, 0)
    requires ms == Chains(xs, ts, cM)
    ensures Unstripe(ms, segLen) == RunCol(x, t)
  {
    ChainLanes(xs, ts, x, t, Splat(-BIAS), segLen, segLen - 1);
    forall l | 1 <= l < LANES
      ensures cM[l] == Run(x, t, -BIAS, 0, Row(l - 1, segLen - 1, segLen))
    {
      CarryLanes(x, t, segLen, vMp, vC, l - 1);
    }
    forall i | 0 <= i < segLen
      ensures Striped(ms[i], RunCol(x, t), segLen, i)
    {
      FinalLanes(xs, ts, x, t, cM, segLen, i);
    }
    UnstripeStriped(ms, RunCol(x, t), segLen);
  }

  /** The same for the length, given that row 0 is not flagged. */
  lemma {:induction false} LenColumnExact(xs: seq<Mask>, ts: seq<Vec>, x: seq<bool>, t: seq<int>, segLen: int,
                       vLp: Vec, vC: Mask, uLp: Vec, cL: Vec, ls: seq<Vec>)
    requires 1 <= segLen == |xs| == |ts| && |x| == |t| == SEG_WIDTH * segLen && !x[0]
    requires forall i :: 0 <= i < segLen ==> StripedMask(xs[i], x, segLen, i) && Striped(ts[i], t, segLen, i)
    requires vLp == Add(ChainLenAt(xs, ts, Add(Splat(-BIAS), Splat(1)), segLen - 1), Splat(1))
    requires FlagsLanes(vC, x, segLen)
    requires forall k :: 0 <= k < LANES ==> uLp[k] == CarryLenPrefix(Sub(vLp, Splat(1)), vC, k) + 1
    requires cL == Insert(LShift16(uLp), -BIAS, 0)
    requires ls == ChainLens(xs, ts, cL)
    ensures Unstripe(ls, segLen) == RunLenCol(x, t)
  {
    LenCarryIn(xs, ts, x, t, segLen, vLp, vC, uLp, cL);
    LenChainsFinal(xs, ts, x, t, segLen, cL, ls);
  }

  /** The length carries entering pass 5: lane `l` starts from the run
      length of the last row of lane `l - 1`, plus one. */
  lemma {:induction false} LenCarryIn(xs: seq<Mask>, ts: seq<Vec>, x: seq<bool>, t: seq<int>, segLen: int,
                   vLp: Vec, vC: Mask, uLp: Vec, cL: Vec)
    requires 1 <= segLen == |xs| == |ts| && |x| == |t| == SEG_WIDTH * segLen && !x[0]
    requires forall i :: 0 <= i < segLen ==> StripedMask(xs[i], x, segLen, i) && Striped(ts[i], t, segLen, i)
    requires vLp == Add(ChainLenAt(xs, ts, Add(Splat(-BIAS), Splat(1)), segLen - 1), Splat(1))
    requires FlagsLanes(vC, x, segLen)
    requires forall k :: 0 <= k < LANES ==> uLp[k] == CarryLenPrefix(Sub(vLp, Splat(1)), vC, k) + 1
    requires cL == Insert(LShift16(uLp), -BIAS, 0)
    ensures cL[0] == -BIAS
    ensures forall l :: 1 <= l < LANES ==> cL[l] == RunLen(x, t, -BIAS, 0, Row(l - 1, segLen - 1, segLen)) + 1
  {
    var c0 := Add(Splat(-BIAS), Splat(1));
    var a := Sub(vLp, Splat(1));
    ChainLenLanes(xs, ts, x, t, c0, segLen, segLen - 1);
    assert forall l :: 0 <= l < LANES ==> a[l] == LaneLen(x, t, -BIAS + 1, segLen, l, segLen - 1);
    forall l | 1 <= l < LANES
      ensures cL[l] == RunLen(x, t, -BIAS, 0, Row(l - 1, segLen - 1, segLen)) + 1
    {
      CarryLenLanes(x, t, segLen, a, vC, l - 1);
    }
  }

  /** From those carries the length chains of pass 5 stripe the run
      lengths of the whole column. */
  lemma {:induction false} LenChainsFinal(xs: seq<Mask>, ts: seq<Vec>, x: seq<bool>, t: seq<int>, segLen: int, cL: Vec, ls: seq<Vec>)
    requires 1 <= segLen == |xs| == |ts| && |x| == |t| == SEG_WIDTH * segLen
    requires forall i :: 0 <= i < segLen ==> StripedMask(xs[i], x, segLen, i) && Striped(ts[i], t, segLen, i)
    requires cL[0] == -BIAS
    requires forall l :: 1 <= l < LANES ==> cL[l] == RunLen(x, t, -BIAS, 0, Row(l - 1, segLen - 1, segLen)) + 1
    requires ls == ChainLens(xs, ts, cL)
    ensures Unstripe(ls, segLen) == RunLenCol(x, t)
  {
    forall i | 0 <= i < segLen
      ensures Striped(ls[i], RunLenCol(x, t), segLen, i)
    {
      FinalLenLanes(xs, ts, x, t, cL, segLen, i);
    }
    UnstripeStriped(ls, RunLenCol(x, t), segLen);
  }

  /** Some statistic of segment `i` reaches a limit in lane `l`. */
  predicate SegStatHit(ms: seq<Vec>, ss: seq<Vec>, ls: seq<Vec>, i: int, l: int)
    requires 0 <= i < |ms| && i < |ss| && i < |ls| && 0 <= l < LANES
  {
    StatHits(ms[i][l]) || StatHits(ss[i][l]) || StatHits(ls[i][l])
  }

  lemma {:induction false} StatHitsStep(sat: Mask, ms: seq<Vec>, ss: seq<Vec>, ls: seq<Vec>, n: int, l: int)
    requires 0 < n <= |ms| && n <= |ss| && n <= |ls| && 0 <= l < LANES
    ensures StatHitsOf(sat, ms, ss, ls, n)[l] == (StatHitsOf(sat, ms, ss, ls, n - 1)[l] || SegStatHit(ms, ss, ls, n - 1, l))
  {
  }

  lemma {:induction false} StatHitsLanes(sat: Mask, ms: seq<Vec>, ss: seq<Vec>, ls: seq<Vec>, n: int)
    requires 0 <= n <= |ms| && n <= |ss| && n <= |ls|
    ensures forall l :: 0 <= l < LANES ==>
              (StatHitsOf(sat, ms, ss, ls, n)[l] <==> sat[l] || exists i :: 0 <= i < n && SegStatHit(ms, ss, ls, i, l))
  {
    if n > 0 {
      StatHitsLanes(sat, ms, ss, ls, n - 1);
      forall l | 0 <= l < LANES
        ensures StatHitsOf(sat, ms, ss, ls, n)[l] <==> sat[l] || exists i :: 0 <= i < n && SegStatHit(ms, ss, ls, i, l)
      {
        StatHitsStep(sat, ms, ss, ls, n, l);
        if SegStatHit(ms, ss, ls, n - 1, l) {
          assert exists i :: 0 <= i < n && SegStatHit(ms, ss, ls, i, l);
        }
        if exists i :: 0 <= i < n && SegStatHit(ms, ss, ls, i, l) {
          var i :| 0 <= i < n && SegStatHit(ms, ss, ls, i, l);
          if i < n - 1 {
            assert exists i :: 0 <= i < n - 1 && SegStatHit(ms, ss, ls, i, l);
          }
        }
      }
    }
  }

  /** Lane `l` of `ColSat`, written out. */
  lemma {:induction false} ColSatLane(sat: Mask, c: Col, segLen: int, l: int)
    requires 1 <= segLen && c.Sized(SEG_WIDTH * segLen) && 0 <= l < LANES
    ensures ColSat(sat, c, segLen)[l] <==>
              sat[l]
              || (exists i :: 0 <= i < segLen && Hits(c.h[Row(l, i, segLen)]))
              || (exists i :: 0 <= i < segLen && (StatHits(c.m[Row(l, i, segLen)]) || StatHits(c.s[Row(l, i, segLen)])
                                                 || StatHits(c.l[Row(l, i, segLen)])))
  {
  }

  /** A lane's saturation flag read off the segments is the one read off
      the column. */
  lemma {:induction false} SatLane(satl: bool, hb: bool, sb: bool, hs: seq<Vec>, ms: seq<Vec>, ss: seq<Vec>, ls: seq<Vec>,
                c: Col, segLen: int, l: int)
    requires 1 <= segLen == |hs| == |ms| == |ss| == |ls| && c.Sized(SEG_WIDTH * segLen) && 0 <= l < LANES
    requires forall i :: 0 <= i < segLen ==>
               hs[i][l] == c.h[Row(l, i, segLen)] && ms[i][l] == c.m[Row(l, i, segLen)]
               && ss[i][l] == c.s[Row(l, i, segLen)] && ls[i][l] == c.l[Row(l, i, segLen)]
    requires hb <==> satl || exists i :: 0 <= i < segLen && Hits(hs[i][l])
    requires sb <==> hb || exists i :: 0 <= i < segLen && SegStatHit(ms, ss, ls, i, l)
    ensures sb <==>
              satl
              || (exists i :: 0 <= i < segLen && Hits(c.h[Row(l, i, segLen)]))
              || (exists i :: 0 <= i < segLen && (StatHits(c.m[Row(l, i, segLen)]) || StatHits(c.s[Row(l, i, segLen)])
                                                 || StatHits(c.l[Row(l, i, segLen)])))
  {
    if exists i :: 0 <= i < segLen && Hits(c.h[Row(l, i, segLen)]) {
      var i :| 0 <= i < segLen && Hits(c.h[Row(l, i, segLen)]);
      assert Hits(hs[i][l]);
    }
    if exists i :: 0 <= i < segLen && (StatHits(c.m[Row(l, i, segLen)]) || StatHits(c.s[Row(l, i, segLen)])
                                       || StatHits(c.l[Row(l, i, segLen)])) {
      var i :| 0 <= i < segLen && (StatHits(c.m[Row(l, i, segLen)]) || StatHits(c.s[Row(l, i, segLen)])
                                   || StatHits(c.l[Row(l, i, segLen)]));
      assert SegStatHit(ms, ss, ls, i, l);
    }
  }

  lemma {:induction false} SatColumnLane(sat: Mask, h: Mask, hs: seq<Vec>, ms: seq<Vec>, ss: seq<Vec>, ls: seq<Vec>, c: Col,
                      segLen: int, l: int)
    requires 1 <= segLen == |hs| == |ms| == |ss| == |ls| && c.Sized(SEG_WIDTH * segLen) && 0 <= l < LANES
    requires h == HitsOf(sat, hs, segLen)
    requires forall i :: 0 <= i < segLen ==> Striped(hs[i], c.h, segLen, i) && Striped(ms[i], c.m, segLen, i)
    requires forall i :: 0 <= i < segLen ==> Striped(ss[i], c.s, segLen, i) && Striped(ls[i], c.l, segLen, i)
    ensures StatHitsOf(h, ms, ss, ls, segLen)[l] == ColSat(sat, c, segLen)[l]
  {
    HitsLanes(sat, hs, segLen);
    StatHitsLanes(h, ms, ss, ls, segLen);
    assert forall i :: 0 <= i < segLen ==>
             hs[i][l] == c.h[Row(l, i, segLen)] && ms[i][l] == c.m[Row(l, i, segLen)]
             && ss[i][l] == c.s[Row(l, i, segLen)] && ls[i][l] == c.l[Row(l, i, segLen)];
    SatLane(sat[l], h[l], StatHitsOf(h, ms, ss, ls, segLen)[l], hs, ms, ss, ls, c, segLen, l);
    ColSatLane(sat, c, segLen, l);
  }

  /** The saturation check after passes 4 and 5, over the flags `h` the
      fourth pass left, is the check of the column the segments hold. */
  lemma {:induction false} SatColumn(sat: Mask, h: Mask, hs: seq<Vec>, ms: seq<Vec>, ss: seq<Vec>, ls: seq<Vec>, c: Col, segLen: int)
    requires 1 <= segLen == |hs| == |ms| == |ss| == |ls| && c.Sized(SEG_WIDTH * segLen)
    requires h == HitsOf(sat, hs, segLen)
    requires forall i :: 0 <= i < segLen ==> Striped(hs[i], c.h, segLen, i) && Striped(ms[i], c.m, segLen, i)
    requires forall i :: 0 <= i < segLen ==> Striped(ss[i], c.s, segLen, i) && Striped(ls[i], c.l, segLen, i)
    ensures StatHitsOf(h, ms, ss, ls, segLen) == ColSat(sat, c, segLen)
  {
    forall l | 0 <= l < LANES
      ensures StatHitsOf(h, ms, ss, ls, segLen)[l] == ColSat(sat, c, segLen)[l]
    {
      SatColumnLane(sat, h, hs, ms, ss, ls, c, segLen, l);
    }
  }

  /** A segment striped onto a column is that column's segment. */
  lemma {:induction false} SegOfStriped(v: Vec, col: seq<int>, segLen: int, i: int)
    requires 0 <= i < segLen && |col| == SEG_WIDTH * segLen && Striped(v, col, segLen, i)
    ensures SegOf(col, segLen, i) == v
  {
  }

  /** Folding the segments into the running maxima is `Track` over the
      column they hold. */
  lemma {:induction false} TrackFold(b: Best, c: Col, hs: seq<Vec>, ms: seq<Vec>, ss: seq<Vec>, ls: seq<Vec>, segLen: int, n: int)
    requires 0 <= n <= segLen == |hs| == |ms| == |ss| == |ls| && c.Sized(SEG_WIDTH * segLen)
    requires forall i :: 0 <= i < segLen ==> Striped(hs[i], c.h, segLen, i) && Striped(ms[i], c.m, segLen, i)
    requires forall i :: 0 <= i < segLen ==> Striped(ss[i], c.s, segLen, i) && Striped(ls[i], c.l, segLen, i)
    ensures FoldSegs(b, hs, ms, ss, ls, n) == Track(b, c, segLen, n)
  {
    if n > 0 {
      TrackFold(b, c, hs, ms, ss, ls, segLen, n - 1);
      ImproveIsFold(Track(b, c, segLen, n - 1), c, hs[n - 1], ms[n - 1], ss[n - 1], ls[n - 1], segLen, n - 1);
    }
  }

  /** Folding the segments that stripe segment `i` of column `c` is
      `Improve` at `i`. */
  lemma {:induction false} ImproveIsFold(b: Best, c: Col, h: Vec, m: Vec, s: Vec, l: Vec, segLen: int, i: int)
    requires 0 <= i < segLen && c.Sized(SEG_WIDTH * segLen)
    requires Striped(h, c.h, segLen, i) && Striped(m, c.m, segLen, i)
    requires Striped(s, c.s, segLen, i) && Striped(l, c.l, segLen, i)
    ensures Improve(b, c, segLen, i) == Fold(b, h, m, s, l)
  {
    SegOfStriped(h, c.h, segLen, i);
    SegOfStriped(m, c.m, segLen, i);
    SegOfStriped(s, c.s, segLen, i);
    SegOfStriped(l, c.l, segLen, i);
  }

  /** Column `j` of `t` holds `bias` plus the column the segments stripe. */
  predicate ColumnIs(t: array2<int>, col: seq<int>, j: int, bias: int)
    reads t
  {
    t.Length0 == |col| && 0 <= j < t.Length1 && forall r :: 0 <= r < |col| ==> t[r, j] == bias + col[r]
  }

  lemma {:induction false} StoredColumn(t: array2<int>, vs: seq<Vec>, col: seq<int>, segLen: int, j: int, bias: int)
    requires 1 <= segLen == |vs| && |col| == SEG_WIDTH * segLen && SegsStored(t, vs, segLen, j, segLen, bias)
    requires forall i :: 0 <= i < segLen ==> Striped(vs[i], col, segLen, i)
    ensures ColumnIs(t, col, j, bias)
  {
    forall r | 0 <= r < |col|
      ensures t[r, j] == bias + col[r]
    {
      var l, i := RowOnto(r, segLen);
      assert Striped(vs[i], col, segLen, i);
    }
  }

  // ------------------------------------------------------- one column

  /** The column the buffers hold after pass 5, read off the segments pass
      4 started from and the chains of pass 5. */
  lemma {:induction false} ColOfFinal(s0: seq<Seg>, o: int, sgs: seq<Seg>, ms: seq<Vec>, ss: seq<Vec>, ls: seq<Vec>)
    requires 1 <= |sgs| && Finished(s0, o, ms, ss, ls, sgs)
    ensures ColOf(sgs) == Col(Unstripe(HVecs(s0, o), |sgs|), Unstripe(Es(s0), |sgs|), Unstripe(ms, |sgs|),
                              Unstripe(ss, |sgs|), Unstripe(ls, |sgs|))
  {
    assert Hs(sgs) == HVecs(s0, o);
    assert Es(sgs) == Es(s0);
    assert Ms(sgs) == ms && Ss(sgs) == ss && Ls(sgs) == ls;
  }

  /** Pass 4 turns the provisional segments and the runs `ft` into the
      final scores and the vertical-gap flags of the column. */
  lemma {:induction false} ScoresExact(p: Problem, prev: Col, k: int, segLen: int, s0: seq<Seg>, ft: seq<int>)
    requires Arg(p, prev, k) && segLen == SegLen(|p.s1|) && 1 <= segLen == |s0| && |ft| == SEG_WIDTH * segLen
    requires forall i :: 0 <= i < segLen ==> HtDone(ProvCol(p, prev, k), segLen, i, s0[i]) && Striped(s0[i].ft, ft, segLen, i)
    ensures Unstripe(HVecs(s0, O8(p)), segLen) == HOf(HtCol(p, prev, k), FoOf(p, ft))
    ensures forall i :: 0 <= i < segLen ==>
              StripedMask(XVecs(s0, O8(p))[i], XOf(ExCol(p, prev, k), HtCol(p, prev, k), FoOf(p, ft)), segLen, i)
  {
    var v := ProvCol(p, prev, k);
    forall i | 0 <= i < segLen
      ensures Striped(HVecs(s0, O8(p))[i], HOf(v.ht, FoOf(p, ft)), segLen, i)
      ensures StripedMask(XVecs(s0, O8(p))[i], XOf(v.ex, v.ht, FoOf(p, ft)), segLen, i)
    {
      HSeg(p, v, ft, segLen, i, s0[i]);
    }
    UnstripeStriped(HVecs(s0, O8(p)), HOf(v.ht, FoOf(p, ft)), segLen);
  }

  /** With tame gap costs, passes 4 and 5 and the cross-lane step between
      them give every row its three statistics down the whole column. */
  lemma {:induction false} StatsExact(p: Problem, prev: Col, k: int, segLen: int, s0: seq<Seg>, vMp: Vec, vSp: Vec, vLp: Vec, vC: Mask,
                   uMp: Vec, uSp: Vec, uLp: Vec, ms: seq<Vec>, ss: seq<Vec>, ls: seq<Vec>, sat0: Mask, sat: Mask)
    requires Arg(p, prev, k) && segLen == SegLen(|p.s1|) && 1 <= segLen == |s0| && Tame(p)
    requires forall i :: 0 <= i < segLen ==>
               HtDone(ProvCol(p, prev, k), segLen, i, s0[i]) && Striped(s0[i].ft, FtCol(p, prev, k), segLen, i)
    requires HCarry(p, s0, segLen, vMp, vSp, vLp, vC, sat0, sat)
    requires Propagated(vMp, vSp, vLp, vC, uMp, uSp, uLp) && ChainsFrom(s0, O8(p), uMp, uSp, uLp, ms, ss, ls)
    ensures var x := XOf(ExCol(p, prev, k), HtCol(p, prev, k), FoOf(p, FtCol(p, prev, k)));
      && Unstripe(ms, segLen) == RunCol(x, MtCol(p, prev, k))
      && Unstripe(ss, segLen) == RunCol(x, StCol(p, prev, k))
      && Unstripe(ls, segLen) == RunLenCol(x, LtCol(p, prev, k))
  {
    var ft := FtCol(p, prev, k);
    var v := ProvCol(p, prev, k);
    var x := XOf(v.ex, v.ht, FoOf(p, ft));
    var xs := XVecs(s0, O8(p));
    ScoresExact(p, prev, k, segLen, s0, ft);
    FlagsOf(xs, x, segLen);
    FirstRowUnflagged(p, prev, k);
    forall i | 0 <= i < segLen
      ensures Striped(Mts(s0)[i], v.mt, segLen, i) && Striped(Sts(s0)[i], v.st, segLen, i)
      ensures Striped(Lts(s0)[i], v.lt, segLen, i)
    {
      assert HtDone(v, segLen, i, s0[i]);
    }
    StatColumnExact(xs, Mts(s0), x, v.mt, segLen, vMp, vC, uMp, Insert(LShift16(uMp), -BIAS, 0), ms);
    StatColumnExact(xs, Sts(s0), x, v.st, segLen, vSp, vC, uSp, Insert(LShift16(uSp), -BIAS, 0), ss);
    LenColumnExact(xs, Lts(s0), x, v.lt, segLen, vLp, vC, uLp, Insert(LShift16(uLp), -BIAS, 0), ls);
  }

  /** With tame gap costs the buffers end the column holding `Next`. */
  lemma {:induction false} NextExact(p: Problem, prev: Col, k: int, segLen: int, s0: seq<Seg>, vMp: Vec, vSp: Vec, vLp: Vec, vC: Mask,
                  uMp: Vec, uSp: Vec, uLp: Vec, ms: seq<Vec>, ss: seq<Vec>, ls: seq<Vec>, sat0: Mask, sat: Mask,
                  sgs: seq<Seg>)
    requires Arg(p, prev, k) && segLen == SegLen(|p.s1|) && 1 <= segLen == |s0| && Tame(p)
    requires forall i :: 0 <= i < segLen ==> Striped(s0[i].e, ECol(p, prev), segLen, i)
    requires forall i :: 0 <= i < segLen ==>
               HtDone(ProvCol(p, prev, k), segLen, i, s0[i]) && Striped(s0[i].ft, FtCol(p, prev, k), segLen, i)
    requires HCarry(p, s0, segLen, vMp, vSp, vLp, vC, sat0, sat)
    requires Propagated(vMp, vSp, vLp, vC, uMp, uSp, uLp) && ChainsFrom(s0, O8(p), uMp, uSp, uLp, ms, ss, ls)
    requires Finished(s0, O8(p), ms, ss, ls, sgs)
    ensures ColOf(sgs) == Next(p, prev, k)
  {
    ColOfFinal(s0, O8(p), sgs, ms, ss, ls);
    UnstripeStriped(Es(s0), ECol(p, prev), segLen);
    ScoresExact(p, prev, k, segLen, s0, FtCol(p, prev, k));
    StatsExact(p, prev, k, segLen, s0, vMp, vSp, vLp, vC, uMp, uSp, uLp, ms, ss, ls, sat0, sat);
  }

  /** Whatever the gap costs, the saturation check and the running maxima
      after pass 5 are those of the column the buffers hold. */
  lemma {:induction false} ColumnTotals(sat: Mask, sat1: Mask, b: Best, s0: seq<Seg>, o: int, ms: seq<Vec>, ss: seq<Vec>, ls: seq<Vec>,
                     sgs: seq<Seg>)
    requires 1 <= |sgs| && Finished(s0, o, ms, ss, ls, sgs)
    requires sat1 == HitsOf(sat, HVecs(s0, o), |sgs|)
    ensures StatHitsOf(sat1, ms, ss, ls, |sgs|) == ColSat(sat, ColOf(sgs), |sgs|)
    ensures FoldSegs(b, HVecs(s0, o), ms, ss, ls, |sgs|) == Track(b, ColOf(sgs), |sgs|, |sgs|)
  {
    var segLen := |sgs|;
    var hs := HVecs(s0, o);
    ColOfFinal(s0, o, sgs, ms, ss, ls);
    StripedUnstripe(hs, segLen);
    StripedUnstripe(ms, segLen);
    StripedUnstripe(ss, segLen);
    StripedUnstripe(ls, segLen);
    SatColumn(sat, sat1, hs, ms, ss, ls, ColOf(sgs), segLen);
    TrackFold(b, ColOf(sgs), hs, ms, ss, ls, segLen, segLen);
  }

  /** With the table variant, column `j` of the tables holds column `c`:
      the scores as they are, the statistics unbiased; no other column has
      changed. */
  twostate predicate TablesColumn(tabs: Tables?, new c: Col, j: int)
    reads if tabs == null then {} else {tabs.score, tabs.matches, tabs.similar, tabs.length}
  {
    tabs != null ==>
      && ColumnIs(tabs.score, c.h, j, 0) && ColumnIs(tabs.matches, c.m, j, BIAS)
      && ColumnIs(tabs.similar, c.s, j, BIAS) && ColumnIs(tabs.length, c.l, j, BIAS)
      && KeptElsewhere(tabs.score, j) && KeptElsewhere(tabs.matches, j)
      && KeptElsewhere(tabs.similar, j) && KeptElsewhere(tabs.length, j)
  }

  /** What passes 1 to 3 leave in segment `sg` at index `i`: the
      horizontal gap state, the provisional values and flags, and the
      vertical gap runs `ft`. */
  predicate Provisional(p: Problem, prev: Col, k: int, segLen: int, ft: seq<int>, i: int, sg: Seg)
    requires Arg(p, prev, k) && segLen == SegLen(|p.s1|) && 0 <= i < segLen && |ft| == SEG_WIDTH * segLen
  {
    Striped(sg.e, ECol(p, prev), segLen, i) && HtDone(ProvCol(p, prev, k), segLen, i, sg) && Striped(sg.ft, ft, segLen, i)
  }

  /** Passes 1 to 3 of one column. */
  method Passes123(p: Problem, buf: array<Seg>, segLen: int, k: int, pvP: array<Vec>, pvPm: array<Vec>, pvPs: array<Vec>,
                   ghost prev: Col)
    returns (ghost ft: seq<int>)
    requires Arg(p, prev, k) && segLen == SegLen(|p.s1|) && Profiled(p, segLen, pvP, pvPm, pvPs)
    requires Holds(buf, prev, segLen)
    modifies buf
    ensures |ft| == SEG_WIDTH * segLen && (Tame(p) ==> ft == FtCol(p, prev, k))
    ensures forall i :: 0 <= i < segLen ==> Provisional(p, prev, k, segLen, ft, i, buf[i])
  {
    EPass(p, prev, buf, segLen);
    HtPass(p, prev, k, buf, segLen, pvP, pvPm, pvPs);
    ghost var v := ProvCol(p, prev, k);
    ft := FtPass(p, buf, segLen, v.ht);
  }

  /** Pass 4 with the score table of `tabs`, if any. */
  method HStage(p: Problem, buf: array<Seg>, segLen: int, ghost s0: seq<Seg>, sat: Mask, tabs: Tables?, j: int)
    returns (vMp: Vec, vSp: Vec, vLp: Vec, vC: Mask, sat': Mask)
    requires 1 <= segLen == buf.Length == |s0| && forall i :: 0 <= i < segLen ==> buf[i] == s0[i]
    requires tabs != null ==> tabs.Valid(SEG_WIDTH * segLen, tabs.score.Length1) && 0 <= j < tabs.score.Length1
    modifies buf, if tabs == null then {} else {tabs.score}
    ensures forall i :: 0 <= i < segLen ==> buf[i] == HDone(s0[i], O8(p))
    ensures HCarry(p, s0, segLen, vMp, vSp, vLp, vC, sat, sat')
    ensures tabs != null ==> SegsStored(tabs.score, HVecs(s0, O8(p)), segLen, j, segLen, 0) && KeptElsewhere(tabs.score, j)
  {
    if tabs == null {
      vMp, vSp, vLp, vC, sat' := HPass(p, buf, segLen, s0, sat, null, j);
    } else {
      vMp, vSp, vLp, vC, sat' := HPass(p, buf, segLen, s0, sat, tabs.score, j);
    }
  }

  /** Passes 4 and 5 of one column and the cross-lane step between them,
      from the segments `s0` passes 1 to 3 left: the final scores and
      vertical-gap flags, the carries, the chains `ms`, `ss`, `ls`, the
      saturation check, the running maxima and the tables. */
  method StatsPasses(p: Problem, buf: array<Seg>, segLen: int, ghost s0: seq<Seg>, sat: Mask, best: Best,
                     tabs: Tables?, j: int)
    returns (ghost vMp: Vec, ghost vSp: Vec, ghost vLp: Vec, ghost vC: Mask, ghost uMp: Vec, ghost uSp: Vec, ghost uLp: Vec,
             ghost ms: seq<Vec>, ghost ss: seq<Vec>, ghost ls: seq<Vec>, ghost sat1: Mask, sat': Mask, best': Best)
    requires 1 <= segLen == buf.Length == |s0| && forall i :: 0 <= i < segLen ==> buf[i] == s0[i]
    requires tabs != null ==> tabs.Valid(SEG_WIDTH * segLen, tabs.score.Length1) && 0 <= j < tabs.score.Length1
    modifies buf, if tabs == null then {} else {tabs.score, tabs.matches, tabs.similar, tabs.length}
    ensures Finished(s0, O8(p), ms, ss, ls, buf[..])
    ensures HCarry(p, s0, segLen, vMp, vSp, vLp, vC, sat, sat1)
    ensures Propagated(vMp, vSp, vLp, vC, uMp, uSp, uLp) && ChainsFrom(s0, O8(p), uMp, uSp, uLp, ms, ss, ls)
    ensures sat' == StatHitsOf(sat1, ms, ss, ls, segLen)
    ensures best' == FoldSegs(best, HVecs(s0, O8(p)), ms, ss, ls, segLen)
    ensures tabs != null ==> SegsStored(tabs.score, HVecs(s0, O8(p)), segLen, j, segLen, 0) && KeptElsewhere(tabs.score, j)
    ensures StatsColumn(tabs, ms, ss, ls, segLen, j, segLen)
  {
    var vMp', vSp', vLp', vC', sat1' := HStage(p, buf, segLen, s0, sat, tabs, j);
    if tabs != null {
      assert unchanged(tabs.matches, tabs.similar, tabs.length);
    }
    label AfterH:
    vMp, vSp, vLp, vC, sat1 := vMp', vSp', vLp', vC', sat1';
    DoneOf(buf, s0, O8(p));
    ghost var s4 := buf[..];
    var uMp', uSp', uLp' := Propagate(vMp', vSp', vLp', vC');
    uMp, uSp, uLp := uMp', uSp', uLp';
    var cM := Insert(LShift16(uMp'), -BIAS, 0);
    var cS := Insert(LShift16(uSp'), -BIAS, 0);
    var cL := Insert(LShift16(uLp'), -BIAS, 0);
    ghost var xs := XVecs(s0, O8(p));
    ms := Chains(xs, Mts(s0), cM);
    ss := Chains(xs, Sts(s0), cS);
    ls := ChainLens(xs, Lts(s0), cL);
    assert Propagated(vMp, vSp, vLp, vC, uMp, uSp, uLp) && ChainsFrom(s0, O8(p), uMp, uSp, uLp, ms, ss, ls);
    FLinks(s0, O8(p), s4, cM, cS, cL, ms, ss, ls);
    sat', best' := FPass(buf, segLen, s4, cM, cS, cL, ms, ss, ls, sat1', best, tabs, j);
    if tabs != null {
      assert unchanged@AfterH(tabs.score);
    }
    FinishedOf(buf, s0, O8(p), s4, ms, ss, ls);
  }

  /** The segments pass 4 leaves, read off the buffer. */
  lemma {:induction false} DoneOf(buf: array<Seg>, s0: seq<Seg>, o: int)
    requires buf.Length == |s0| && forall i :: 0 <= i < |s0| ==> buf[i] == HDone(s0[i], o)
    ensures forall i :: 0 <= i < |s0| ==> buf[..][i] == HDone(s0[i], o)
    ensures Hs(buf[..]) == HVecs(s0, o)
  {
  }

  /** Pass 5 over the segments pass 4 left finishes the segments pass 4
      started from. */
  lemma {:induction false} FinishedOf(buf: array<Seg>, s0: seq<Seg>, o: int, s4: seq<Seg>, ms: seq<Vec>, ss: seq<Vec>, ls: seq<Vec>)
    requires buf.Length == |s4| == |s0| == |ms| == |ss| == |ls|
    requires forall i :: 0 <= i < |s0| ==> s4[i] == HDone(s0[i], o)
    requires forall i :: 0 <= i < buf.Length ==> buf[i] == WithStats(s4[i], ms[i], ss[i], ls[i])
    ensures Finished(s0, o, ms, ss, ls, buf[..])
  {
  }

  /** The tables after passes 4 and 5 hold the column the buffers hold. */
  lemma {:induction false} TablesFinal(tabs: Tables, s0: seq<Seg>, o: int, ms: seq<Vec>, ss: seq<Vec>, ls: seq<Vec>, sgs: seq<Seg>, j: int)
    requires 1 <= |sgs| && Finished(s0, o, ms, ss, ls, sgs)
    requires SegsStored(tabs.score, HVecs(s0, o), |sgs|, j, |sgs|, 0)
    requires StatsStored(tabs, ms, ss, ls, |sgs|, j, |sgs|)
    ensures var c := ColOf(sgs);
      && ColumnIs(tabs.score, c.h, j, 0) && ColumnIs(tabs.matches, c.m, j, BIAS)
      && ColumnIs(tabs.similar, c.s, j, BIAS) && ColumnIs(tabs.length, c.l, j, BIAS)
  {
    var segLen := |sgs|;
    ColOfFinal(s0, o, sgs, ms, ss, ls);
    StripedUnstripe(HVecs(s0, o), segLen);
    StripedUnstripe(ms, segLen);
    StripedUnstripe(ss, segLen);
    StripedUnstripe(ls, segLen);
    StoredColumn(tabs.score, HVecs(s0, o), ColOf(sgs).h, segLen, j, 0);
    StoredColumn(tabs.matches, ms, ColOf(sgs).m, segLen, j, BIAS);
    StoredColumn(tabs.similar, ss, ColOf(sgs).s, segLen, j, BIAS);
    StoredColumn(tabs.length, ls, ColOf(sgs).l, segLen, j, BIAS);
  }

  /** Passes 4 and 5 of one column, from the segments `s0` passes 1 to 3
      left: the buffers end holding the next column, and the saturation
      check, the running maxima and column `j` of the tables follow it. */
  method Passes45(p: Problem, buf: array<Seg>, segLen: int, k: int, ghost prev: Col, ghost s0: seq<Seg>, ghost ft: seq<int>,
                  sat: Mask, best: Best, tabs: Tables?, j: int)
    returns (ghost next: Col, sat': Mask, best': Best)
    requires Arg(p, prev, k) && segLen == SegLen(|p.s1|) && 1 <= segLen == buf.Length == |s0|
    requires |ft| == SEG_WIDTH * segLen && (Tame(p) ==> ft == FtCol(p, prev, k))
    requires forall i :: 0 <= i < segLen ==> buf[i] == s0[i] && Provisional(p, prev, k, segLen, ft, i, s0[i])
    requires tabs != null ==> tabs.Valid(SEG_WIDTH * segLen, tabs.score.Length1) && 0 <= j < tabs.score.Length1
    modifies buf, if tabs == null then {} else {tabs.score, tabs.matches, tabs.similar, tabs.length}
    ensures Holds(buf, next, segLen)
    ensures Tame(p) ==> next == Next(p, prev, k)
    ensures sat' == ColSat(sat, next, segLen)
    ensures best' == Track(best, next, segLen, segLen)
    ensures TablesColumn(tabs, next, j)
  {
    ghost var vMp, vSp, vLp, vC, uMp, uSp, uLp, ms, ss, ls, sat1;
    vMp, vSp, vLp, vC, uMp, uSp, uLp, ms, ss, ls, sat1, sat', best' := StatsPasses(p, buf, segLen, s0, sat, best, tabs, j);
    ghost var sgs := buf[..];
    next := ColOf(sgs);
    HoldsColOf(buf);
    ColumnTotals(sat, sat1, best, s0, O8(p), ms, ss, ls, sgs);
    if Tame(p) {
      NextExact(p, prev, k, segLen, s0, vMp, vSp, vLp, vC, uMp, uSp, uLp, ms, ss, ls, sat, sat1, sgs);
    }
    if tabs != null {
      TablesFinal(tabs, s0, O8(p), ms, ss, ls, sgs, j);
    }
  }

  /** One column of the second sequence (residue code `k`): the five passes
      over the buffers, which end holding the next column; the saturation
      check, the running maxima and, with the table variant, column `j` of
      the tables follow that column. With tame gap costs it is the column
      `Next` of the recurrence. */
  method Column(p: Problem, buf: array<Seg>, segLen: int, k: int, pvP: array<Vec>, pvPm: array<Vec>, pvPs: array<Vec>,
                ghost prev: Col, sat: Mask, best: Best, tabs: Tables?, j: int)
    returns (ghost next: Col, sat': Mask, best': Best)
    requires Arg(p, prev, k) && segLen == SegLen(|p.s1|) && Profiled(p, segLen, pvP, pvPm, pvPs)
    requires Holds(buf, prev, segLen)
    requires tabs != null ==> tabs.Valid(SEG_WIDTH * segLen, tabs.score.Length1) && 0 <= j < tabs.score.Length1
    modifies buf, if tabs == null then {} else {tabs.score, tabs.matches, tabs.similar, tabs.length}
    ensures Holds(buf, next, segLen)
    ensures Tame(p) ==> next == Next(p, prev, k)
    ensures sat' == ColSat(sat, next, segLen)
    ensures best' == Track(best, next, segLen, segLen)
    ensures TablesColumn(tabs, next, j)
  {
    ghost var ft := Passes123(p, buf, segLen, k, pvP, pvPm, pvPs, prev);
    next, sat', best' := Passes45(p, buf, segLen, k, prev, buf[..], ft, sat, best, tabs, j);
  }

  // ------------------------------------------------------------ the engine

  /** After `t` shifts, lane 15 holds lane `15 - t` of the maxima: the
      lane the reduction takes in turn `t`. */
  lemma {:induction false} TopLane(b: Best, t: int, vH: Vec, vM: Vec, vS: Vec, vL: Vec)
    requires 0 <= t < LANES
    requires vH == ShiftedUp(b.h, t) && vM == ShiftedUp(b.m, t) && vS == ShiftedUp(b.s, t) && vL == ShiftedUp(b.l, t)
    ensures var prev := Scan8(b, t);
            Scan8(b, t + 1) == if vH[15] > prev.0 then (vH[15], BIAS + vM[15], BIAS + vS[15], BIAS + vL[15]) else prev
  {
  }

  /** The reduction of the running maxima: lane 15 is read and the vectors
      shifted up a lane, sixteen times; a lane replaces the answer only with
      a strictly greater score, and its statistics are unbiased. */
  method Reduce8(b: Best) returns (score: int, matches: int, similar: int, length: int)
    ensures (score, matches, similar, length) == Reduced(b)
  {
    score, matches, similar, length := NEG_INF_8, 0, 0, 0;
    var vH, vM, vS, vL := b.h, b.m, b.s, b.l;
    assert vH == ShiftedUp(b.h, 0) && vM == ShiftedUp(b.m, 0) && vS == ShiftedUp(b.s, 0) && vL == ShiftedUp(b.l, 0);
    for t := 0 to SEG_WIDTH
      invariant (score, matches, similar, length) == Scan8(b, t)
      invariant vH == ShiftedUp(b.h, t) && vM == ShiftedUp(b.m, t) && vS == ShiftedUp(b.s, t) && vL == ShiftedUp(b.l, t)
    {
      TopLane(b, t, vH, vM, vS, vL);
      var value := vH[15];
      if value > score {
        score := value;
        matches := BIAS + vM[15];
        similar := BIAS + vS[15];
        length := BIAS + vL[15];
      }
      ShiftedUpStep(b.h, t);
      ShiftedUpStep(b.m, t);
      ShiftedUpStep(b.s, t);
      ShiftedUpStep(b.l, t);
      vH := LShift16(vH);
      vM := LShift16(vM);
      vS := LShift16(vS);
      vL := LShift16(vL);
    }
  }

  /** Column `j'` of the tables holds column `cs[j']`, for every `j' < n`. */
  predicate TablesHold(tabs: Tables, cs: seq<Col>, n: int)
    reads tabs.score, tabs.matches, tabs.similar, tabs.length
  {
    0 <= n <= |cs|
    && forall j' :: 0 <= j' < n ==>
         && ColumnIs(tabs.score, cs[j'].h, j', 0) && ColumnIs(tabs.matches, cs[j'].m, j', BIAS)
         && ColumnIs(tabs.similar, cs[j'].s, j', BIAS) && ColumnIs(tabs.length, cs[j'].l, j', BIAS)
  }

  /** Column `j + 1` of the second sequence, in the buffers, the flags, the
      maxima and the tables: the step of the engine's outer loop, for maxima
      that started at `b0`. */
  method ColumnAt(p: Problem, buf: array<Seg>, segLen: int, pvP: array<Vec>, pvPm: array<Vec>, pvPs: array<Vec>,
                  ghost cur: Col, sat: Mask, ghost b0: Best, best: Best, tabs: Tables?, j: int, ghost cols: seq<Col>)
    returns (ghost next: Col, sat': Mask, best': Best)
    requires p.Valid() && 1 <= |p.s1| && 0 <= j < |p.s2| && segLen == SegLen(|p.s1|)
    requires Profiled(p, segLen, pvP, pvPm, pvPs) && Holds(buf, cur, segLen) && |cols| == j
    requires tabs != null ==> tabs.Valid(Rows(p), |p.s2|) && TablesHold(tabs, cols, j)
    modifies buf, if tabs == null then {} else {tabs.score, tabs.matches, tabs.similar, tabs.length}
    ensures Holds(buf, next, segLen)
    ensures Tame(p) && cur == ColAt(p, j) && sat == SatAt(p, j) && best == BestAt(p, b0, j) ==>
              next == ColAt(p, j + 1) && sat' == SatAt(p, j + 1) && best' == BestAt(p, b0, j + 1)
    ensures tabs != null ==> TablesHold(tabs, cols + [next], j + 1)
  {
    next, sat', best' := Column(p, buf, segLen, p.s2[j], pvP, pvPm, pvPs, cur, sat, best, tabs, j);
    if Tame(p) {
      StepAt(p, b0, j);
    }
  }

  /** The result after the last column: the reduction of the maxima, or on
      saturation the score INT8_MAX with zero statistics. */
  method Finish(p: Problem, ghost b0: Best, sat: Mask, best: Best) returns (r: Result)
    requires p.Valid() && 1 <= |p.s1|
    ensures r.saturated ==> r == Result(INT8_MAX, 0, 0, 0, true)
    ensures sat == SatAt(p, |p.s2|) && best == BestAt(p, b0, |p.s2|) ==> r == Report(p, b0)
  {
    var score, matches, similar, length := Reduce8(best);
    if AnySet(sat) {
      r := Result(INT8_MAX, 0, 0, 0, true);
    } else {
      r := Result(score, matches, similar, length, false);
    }
  }

  /** The outer loop over the second sequence, from the initial buffers,
      clear saturation flags and the maxima `b0`. */
  method AllColumns(p: Problem, buf: array<Seg>, segLen: int, pvP: array<Vec>, pvPm: array<Vec>, pvPs: array<Vec>,
                    tabs: Tables?, b0: Best)
    returns (sat: Mask, best: Best)
    requires p.Valid() && 1 <= |p.s1| && segLen == SegLen(|p.s1|)
    requires Profiled(p, segLen, pvP, pvPm, pvPs) && Holds(buf, Init(Rows(p)), segLen)
    requires tabs != null ==> tabs.Valid(Rows(p), |p.s2|)
    modifies buf, if tabs == null then {} else {tabs.score, tabs.matches, tabs.similar, tabs.length}
    ensures Tame(p) ==> sat == SatAt(p, |p.s2|) && best == BestAt(p, b0, |p.s2|)
    ensures Tame(p) && tabs != null ==> TablesHold(tabs, Columns(p, |p.s2|), |p.s2|)
  {
    sat, best := AllClear, b0;
    ghost var cur := Init(Rows(p));
    ghost var cols: seq<Col> := [];
    for j := 0 to |p.s2|
      invariant Holds(buf, cur, segLen) && |cols| == j
      invariant Tame(p) ==> cur == ColAt(p, j) && cols == Columns(p, j) && sat == SatAt(p, j) && best == BestAt(p, b0, j)
      invariant tabs != null ==> TablesHold(tabs, cols, j)
    {
      cur, sat, best := ColumnAt(p, buf, segLen, pvP, pvPm, pvPs, cur, sat, b0, best, tabs, j, cols);
      cols := cols + [cur];
    }
  }

  /** The engine with its running maxima started at `b0`: the profile, the
      initial columns, the optional tables, the outer loop and the final
      reduction. */
  method Engine(p: Problem, withTables: bool, b0: Best) returns (r: Result, tabs: Tables?)
    requires p.Valid() && 1 <= |p.s1|
    ensures withTables <==> tabs != null
    ensures tabs != null ==> fresh(tabs) && fresh(tabs.score) && fresh(tabs.matches) && fresh(tabs.similar)
                             && fresh(tabs.length) && tabs.Valid(Rows(p), |p.s2|)
    ensures r.saturated ==> r == Result(INT8_MAX, 0, 0, 0, true)
    ensures Tame(p) ==> r == Report(p, b0)
    ensures Tame(p) && tabs != null ==> TablesHold(tabs, Columns(p, |p.s2|), |p.s2|)
  {
    var segLen := (|p.s1| + SEG_WIDTH - 1) / SEG_WIDTH;
    var pvP, pvPm, pvPs := BuildProfile(p, segLen);
    var buf := InitColumns(segLen);
    tabs := null;
    if withTables {
      tabs := new Tables(SEG_WIDTH * segLen, |p.s2|);
    }
    var sat, best := AllColumns(p, buf, segLen, pvP, pvPm, pvPs, tabs, b0);
    r := Finish(p, b0, sat, best);
  }

  /** The engine as the source writes it: the running statistics start at a
      biased 0, a count of 127 (`START_AS_WRITTEN`). An empty second sequence
      then reports a count of 127 for each statistic. */
  method SwStatsScanAsWritten(p: Problem, withTables: bool) returns (r: Result, tabs: Tables?)
    requires p.Valid() && 1 <= |p.s1|
    ensures withTables <==> tabs != null
    ensures tabs != null ==> fresh(tabs) && fresh(tabs.score) && fresh(tabs.matches) && fresh(tabs.similar)
                             && fresh(tabs.length) && tabs.Valid(Rows(p), |p.s2|)
    ensures r.saturated ==> r == Result(INT8_MAX, 0, 0, 0, true)
    ensures Tame(p) ==> r == Report(p, START_AS_WRITTEN)
    ensures p == EMPTY_TARGET ==> r == Result(0, BIAS, BIAS, BIAS, false)
  {
    r, tabs := Engine(p, withTables, START_AS_WRITTEN);
    if p == EMPTY_TARGET {
      EmptyTargetAsWritten();
    }
  }

  /** The engine with the running statistics started at `-bias`, a count
      of 0 (`START`). With tame gap costs the result is `Report(p, START)`
      (see `ReportBest` for what it means) and, with the table variant,
      column `j` of the tables holds column `j + 1` of the recurrence. The
      saturated result is the same whatever the gap costs. */
  method SwStatsScan(p: Problem, withTables: bool) returns (r: Result, tabs: Tables?)
    requires p.Valid() && 1 <= |p.s1|
    ensures withTables <==> tabs != null
    ensures tabs != null ==> fresh(tabs) && fresh(tabs.score) && fresh(tabs.matches) && fresh(tabs.similar)
                             && fresh(tabs.length) && tabs.Valid(Rows(p), |p.s2|)
    ensures r.saturated ==> r == Result(INT8_MAX, 0, 0, 0, true)
    ensures Tame(p) ==> r == Report(p, START)
    ensures Tame(p) && tabs != null ==> TablesHold(tabs, Columns(p, |p.s2|), |p.s2|)
  {
    r, tabs := Engine(p, withTables, START);
  }
}
