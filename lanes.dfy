/**
  Lane-level model of the vector registers used by both vectorised engines.

  A register is a sequence of 16 lanes. The diagonal engine reads its lanes as
  16-bit integers and the striped engine as 8-bit integers; both have 16 lanes.
  Byte-level mechanics (permutes, byte shifts, byte-wise blends) are modelled at
  lane granularity: a byte shift by one lane moves whole lanes, a blend selects
  whole lanes, and a comparison yields one boolean per lane.
*/
module Lanes {

  const LANES: nat := 16

  /** One SIMD register: 16 lanes. */
  type Vec = v: seq<int> | |v| == LANES witness seq(16, k => 0)

  /** The result of a lane-wise comparison: one flag per lane. */
  type Mask = m: seq<bool> | |m| == LANES witness seq(16, k => false)

  // ---------------------------------------------------------------- scalars

  const INT8_MIN: int := -128
  const INT8_MAX: int := 127

  /** The larger of two integers (the source's MAX macro). */
  function MaxInt(a: int, b: int): int
  {
    if a > b then a else b
  }

  /** Signed saturation to the 8-bit range, as `_mm_adds_epi8`/`_mm_subs_epi8` do. */
  function Sat8(x: int): (r: int)
    ensures INT8_MIN <= r <= INT8_MAX
    ensures INT8_MIN <= x <= INT8_MAX ==> r == x
    ensures x < INT8_MIN ==> r == INT8_MIN
    ensures x > INT8_MAX ==> r == INT8_MAX
  {
    if x < INT8_MIN then INT8_MIN else if x > INT8_MAX then INT8_MAX else x
  }

  /** Two's-complement narrowing of an int to int8 (the conversion a compiler
      such as gcc performs; C leaves it implementation-defined). */
  function Wrap8(x: int): (r: int)
    ensures INT8_MIN <= r <= INT8_MAX
    ensures INT8_MIN <= x <= INT8_MAX ==> r == x
    ensures (r - x) % 256 == 0
  {
    (x + 128) % 256 - 128
  }

  predicate InInt8(x: int) { INT8_MIN <= x <= INT8_MAX }

  predicate AllInt8(v: Vec) { forall k :: 0 <= k < LANES ==> InInt8(v[k]) }

  // ---------------------------------------------------------- constructors

  /** `_mm256_set1_epi16(x)` / `_mm_set1_epi8(x)` (after narrowing). */
  function Splat(x: int): (r: Vec)
    ensures forall k :: 0 <= k < LANES ==> r[k] == x
  {
    seq(16, k => x)
  }

  /** Replace lane `k` (`_mm256_insert_epi16`, `_mm_insert_epi8`). */
  function Insert(v: Vec, x: int, k: nat): (r: Vec)
    requires k < LANES
    ensures r[k] == x
    ensures forall t :: 0 <= t < LANES && t != k ==> r[t] == v[t]
  {
    v[k := x]
  }

  // --------------------------------------------------------- arithmetic

  /** Lane-wise signed maximum (`_mm256_max_epi16`, `_mm_max_epi8`). */
  function Max(a: Vec, b: Vec): (r: Vec)
    ensures forall k :: 0 <= k < LANES ==> r[k] >= a[k] && r[k] >= b[k] && (r[k] == a[k] || r[k] == b[k])
  {
    seq(16, k => if 0 <= k < 16 then MaxInt(a[k], b[k]) else 0)
  }

  /** Lane-wise addition of the diagonal engine (`_mm256_add_epi16`). The
      16-bit wrap-around is not modelled: lanes are unbounded integers. */
  function Add(a: Vec, b: Vec): (r: Vec)
  {
    seq(16, k => if 0 <= k < 16 then a[k] + b[k] else 0)
  }

  /** Lane-wise subtraction of the diagonal engine (`_mm256_sub_epi16`),
      unbounded as `Add`. */
  function Sub(a: Vec, b: Vec): (r: Vec)
  {
    seq(16, k => if 0 <= k < 16 then a[k] - b[k] else 0)
  }

  /** Saturating signed 8-bit addition (`_mm_adds_epi8`). */
  function AddSat8(a: Vec, b: Vec): (r: Vec)
    ensures AllInt8(r)
    ensures forall k :: 0 <= k < LANES ==> r[k] == Sat8(a[k] + b[k])
  {
    seq(16, k => if 0 <= k < 16 then Sat8(a[k] + b[k]) else 0)
  }

  /** Saturating signed 8-bit subtraction (`_mm_subs_epi8`). */
  function SubSat8(a: Vec, b: Vec): (r: Vec)
    ensures AllInt8(r)
    ensures forall k :: 0 <= k < LANES ==> r[k] == Sat8(a[k] - b[k])
  {
    seq(16, k => if 0 <= k < 16 then Sat8(a[k] - b[k]) else 0)
  }

  // ---------------------------------------------------------- lane shifts

  /** `rshift16`: every lane moves one position down, lane 15 becomes 0
      (a 2-byte right shift across the whole 256-bit register). */
  function RShift16(v: Vec): (r: Vec)
    ensures forall k :: 0 <= k < LANES - 1 ==> r[k] == v[k + 1]
    ensures r[LANES - 1] == 0
  {
    seq(16, k => if 0 <= k < 16 then if k < 15 then v[k + 1] else 0 else 0)
  }

  /** `lshift16`, and `_mm_slli_si128(v, 1)` on 8-bit lanes: every lane moves
      one position up, lane 0 becomes 0. */
  function LShift16(v: Vec): (r: Vec)
    ensures r[0] == 0
    ensures forall k :: 1 <= k < LANES ==> r[k] == v[k - 1]
  {
    seq(16, k => if 0 <= k < 16 then if k == 0 then 0 else v[k - 1] else 0)
  }

  /** `_mm_srli_si128(v, 1)` on 8-bit lanes viewed as a mask: every lane
      moves one position down and lane 15 is cleared. */
  function RShiftMask(m: Mask): (r: Mask)
    ensures forall k :: 0 <= k < LANES - 1 ==> r[k] == m[k + 1]
    ensures !r[LANES - 1]
  {
    seq(16, k => if 0 <= k < 16 then if k < 15 then m[k + 1] else false else false)
  }

  /** `vshift16(v, x)`: shift down by one lane and insert `x` into lane 15. */
  function VShift16(v: Vec, x: int): (r: Vec)
    ensures forall k :: 0 <= k < LANES - 1 ==> r[k] == v[k + 1]
    ensures r[LANES - 1] == x
  {
    seq(16, k => if 0 <= k < 16 then if k < 15 then v[k + 1] else x else 0)
  }

  /** `vshift16` is `rshift16` followed by an insertion into lane 15. */
  lemma {:induction false} VShift16IsShiftInsert(v: Vec, x: int)
    ensures VShift16(v, x) == Insert(RShift16(v), x, LANES - 1)
  {
  }

  /** `rshift16` undoes `lshift16` except for the top lane, which `lshift16`
      dropped and `rshift16` fills with 0. */
  lemma {:induction false} RShiftUndoesLShift(v: Vec)
    ensures RShift16(LShift16(v)) == Insert(v, 0, LANES - 1)
  {
  }

  /** `v` after `t` applications of `lshift16` (or `_mm_slli_si128(v, 1)`): lane k holds lane k - t. */
  function ShiftedUp(v: Vec, t: nat): Vec
  {
    seq(16, k => if t <= k < 16 then v[k - t] else 0)
  }

  lemma {:induction false} ShiftedUpStep(v: Vec, t: nat)
    ensures LShift16(ShiftedUp(v, t)) == ShiftedUp(v, t + 1)
  {
    var a := LShift16(ShiftedUp(v, t));
    var b := ShiftedUp(v, t + 1);
    forall k | 0 <= k < LANES
      ensures a[k] == b[k]
    {
    }
  }

  // -------------------------------------------------- comparisons, blends

  /** `_mm256_cmplt_epi16(a, b)`, emulated in the source as `cmpgt(b, a)`. */
  function CmpLt(a: Vec, b: Vec): (r: Mask)
    ensures r == CmpGt(b, a)
    ensures forall k :: 0 <= k < LANES ==> (r[k] <==> a[k] < b[k])
  {
    CmpGt(b, a)
  }

  /** `_mm256_cmpgt_epi16`, `_mm_cmpgt_epi8`. */
  function CmpGt(a: Vec, b: Vec): (r: Mask)
    ensures forall k :: 0 <= k < LANES ==> (r[k] <==> a[k] > b[k])
  {
    seq(16, k => if 0 <= k < 16 then a[k] > b[k] else false)
  }

  /** `_mm256_cmpeq_epi16`, `_mm_cmpeq_epi8`. */
  function CmpEq(a: Vec, b: Vec): (r: Mask)
    ensures forall k :: 0 <= k < LANES ==> (r[k] <==> a[k] == b[k])
  {
    seq(16, k => if 0 <= k < 16 then a[k] == b[k] else false)
  }

  /** `blendv(a, b, m)`: lanes of `b` where the mask is set, of `a` elsewhere. */
  function Blend(a: Vec, b: Vec, m: Mask): (r: Vec)
    ensures forall k :: 0 <= k < LANES ==> (m[k] ==> r[k] == b[k]) && (!m[k] ==> r[k] == a[k])
  {
    seq(16, k => if 0 <= k < 16 then if m[k] then b[k] else a[k] else 0)
  }

  /** `andnot(m, v)` on values: lanes of `v` where the mask is clear, 0 elsewhere. */
  function AndNot(m: Mask, v: Vec): (r: Vec)
    ensures forall k :: 0 <= k < LANES ==> (m[k] ==> r[k] == 0) && (!m[k] ==> r[k] == v[k])
  {
    seq(16, k => if 0 <= k < 16 then if m[k] then 0 else v[k] else 0)
  }

  function MaskOr(a: Mask, b: Mask): (r: Mask)
    ensures forall k :: 0 <= k < LANES ==> (r[k] <==> a[k] || b[k])
  {
    seq(16, k => if 0 <= k < 16 then a[k] || b[k] else false)
  }

  function MaskAnd(a: Mask, b: Mask): (r: Mask)
    ensures forall k :: 0 <= k < LANES ==> (r[k] <==> a[k] && b[k])
  {
    seq(16, k => if 0 <= k < 16 then a[k] && b[k] else false)
  }

  /** `andnot(a, b)` on masks: set where `a` is clear and `b` is set. */
  function MaskAndNot(a: Mask, b: Mask): (r: Mask)
    ensures forall k :: 0 <= k < LANES ==> (r[k] <==> !a[k] && b[k])
  {
    seq(16, k => if 0 <= k < 16 then !a[k] && b[k] else false)
  }

  /** `or(a, and(m, b))` where `a` is zero in every lane the mask selects:
      the bitwise or then just picks `b` in those lanes. */
  function OrAnd(a: Vec, m: Mask, b: Vec): (r: Vec)
    requires forall k :: 0 <= k < LANES && m[k] ==> a[k] == 0
    ensures forall k :: 0 <= k < LANES ==> (m[k] ==> r[k] == b[k]) && (!m[k] ==> r[k] == a[k])
  {
    seq(16, k => if 0 <= k < 16 then if m[k] then b[k] else a[k] else 0)
  }

  /** `and(m, 1)` after `cmpeq`: 1 where the mask is set, 0 elsewhere. */
  function MaskToOne(m: Mask): (r: Vec)
    ensures forall k :: 0 <= k < LANES ==> r[k] == (if m[k] then 1 else 0)
  {
    seq(16, k => if 0 <= k < 16 then if m[k] then 1 else 0 else 0)
  }

  const AllClear: Mask := [false, false, false, false, false, false, false, false, false, false, false, false, false, false, false, false]
  const AllSet: Mask := [true, true, true, true, true, true, true, true, true, true, true, true, true, true, true, true]

  /** `_mm_movemask_epi8(v) != 0` on a comparison result: some lane is set. */
  predicate AnySet(m: Mask) { exists k :: 0 <= k < LANES && m[k] }
}
