# Pairwise alignment engines of parasail, modelled in Dafny

This project models three alignment routines of the parasail library. Each
engine is proved against one recurrence, written as pure functions.

- `nw` (`src/nw.c`) is the scalar global (Needleman-Wunsch) engine with
  affine gaps. It keeps one stored row of scores and one of deletion
  states and overwrites them row by row. With `ALIGN_EXTRA` it also fills a
  score table. Module `Nw` models it as a method over the two caller-supplied
  arrays and an optional `array2` table. It is proved to return
  `NwSpec.NwScore`.
- `nw_stats_diag_avx2_256_16` is the vectorised global engine with
  statistics. It cuts the table into bands of 16 rows and sweeps each band
  along its anti-diagonals, one 16-lane register per step. Besides the
  score it reports the match count and the alignment length of the chosen
  path. Module `NwDiag` models the band loop, the register step, the stored
  rows and the tables. It is proved to return the recurrence's corner cell
  and statistics and, in the table build, to fill every cell of the three
  tables.
- `sw_stats_scan_sse41_128_8` is the striped local (Smith-Waterman) engine
  with 8-bit saturating lanes. It reports the matches, similar pairs and
  length of the best cell, and raises a saturation flag. The query is
  striped over `segLen` vectors of 16 lanes, and lane `l` of vector `i`
  holds row `l * segLen + i`. Each column of the second sequence runs five
  passes:
  1. the E pass (horizontal gaps);
  2. the provisional Ht pass;
  3. the two Ft sweeps with the lane-boundary patch (vertical gaps);
  4. the H pass;
  5. the prefix patch of the statistics carried down the lanes, then the
     final statistics pass.

  Module `SwScan` models each pass as a method over a buffer of per-segment
  records. `SwSpec` states the same column recurrence row by row. The
  passes are proved to compute that recurrence, the saturation flags and
  the running maxima. `SwSpec.ReportBest` then states what the reported
  result means.

Module `NwSpec` holds the global recurrence `H`/`D`/`I`. It takes the
gap-state sentinel as a parameter, because the scalar engine seeds with
NEG_INF_32 and the diagonal engine with NEG_INF_16. `SentinelsAgree` proves
that the two engines' recurrences agree on every score, match count and
length whenever NEG_INF_16 is low enough to lose every maximum. The
statistics follow the diagonal engine's tie-break: the diagonal wins unless
a gap state is strictly greater. Otherwise the deletion (north) wins unless
the insertion (west) is strictly greater
(`src/nw_stats_diag_avx2_256_16.c:340-368`).

Module `Lanes` holds the register operations as functions on 16-element
sequences: lane shifts, insert, blend, compare masks, and 8-bit
saturating add and subtract.

The diagonal engine's source asserts that both sequences are longer than
16 residues (`src/nw_stats_diag_avx2_256_16.c:201-202`). With assertions
compiled out, an empty first sequence skips both band loops, and the
reduction finds only NEG_INF_16. `NwDiag.NwStatsDiag` states that path as
such a build runs it.

## Model

| member | source | states |
|---|---|---|
| Nw.Nw | src/nw.c:18-75 | the returned score is `NwScore`, the bottom-right cell of the affine recurrence; the stored rows end holding the last row of `H` and `D`, their tails unchanged; a given table holds `H(r+1, c+1)` in every cell |
| Nw.Row | src/nw.c:52-70 | one pass of the outer loop turns the stored rows from row `i-1` into row `i` of `H` and `D`, fills table row `i-1` and leaves every other table row and the rows' tails unchanged |
| Nw.Cell | src/nw.c:59-65 | one inner step writes `H(i,j)` and `D(i,j)` at index `j` only and carries the north, west and insertion values to column `j+1` |
| NwSpec.ChoiceAttains | src/nw_stats_diag_avx2_256_16.c:340-368 | the candidate whose statistics a cell takes attains the cell's score: the diagonal exactly when it attains it, the deletion otherwise when it attains it, the insertion only when strictly above the deletion |
| NwSpec.CellIsBestCandidate | src/nw.c:62-65 | every inner cell is at least each of its three candidates and equal to one of them |
| NwSpec.SentinelIrrelevant | src/nw.c:43-57 | two sentinels that both lose give equal scores everywhere and equal gap states in the inner cells |
| NwSpec.ChoicesAgreeWhenLosing | src/nw_stats_diag_avx2_256_16.c:340-368 | two losing sentinels make the same choice in every inner cell |
| NwSpec.SentinelIrrelevantMatches | src/nw_stats_diag_avx2_256_16.c:340-368 | sentinels that make the same choices give the same match count in every cell |
| NwSpec.SentinelIrrelevantLengths | src/nw_stats_diag_avx2_256_16.c:340-368 | sentinels that make the same choices give the same length in every cell |
| NwSpec.SentinelLosesWhenLow | src/nw_stats_diag_avx2_256_16.c:226-247 | with non-negative gap costs, a sentinel at or below `-2*open - (s1Len+s2Len)*gap` loses |
| NwSpec.SentinelsAgree | src/nw_stats_diag_avx2_256_16.c:226-247 | under that bound the NEG_INF_16 recurrence equals the NEG_INF_32 one in score, matches and length |
| NwSpec.ScoresMonotone | src/nw.c:59-65 | raising substitution scores or lowering gap costs never lowers a score or gap state |
| NwSpec.RecurrenceTable | src/nw_stats_diag_avx2_256_16.c:303-389 | a table exists that obeys the one-step cell rule everywhere, and it is the one the recursive functions define |
| Lanes.Insert | src/nw_stats_diag_avx2_256_16.c:31-39 | `_mm256_insert_epi16` replaces lane `k` with the value and keeps every other lane |
| Lanes.CmpLt | src/nw_stats_diag_avx2_256_16.c:25-29 | the emulated less-than is `cmpgt` with swapped operands, and lane `k` is set exactly when `a[k] < b[k]` |
| Lanes.RShift16 | src/nw_stats_diag_avx2_256_16.c:49-55 | every lane moves one position down across the whole register and lane 15 becomes 0 |
| Lanes.LShift16 | src/nw_stats_diag_avx2_256_16.c:57-61 | every lane moves one position up across the whole register and lane 0 becomes 0 |
| Lanes.VShift16 | src/nw_stats_diag_avx2_256_16.c:63-69 | every lane moves one position down and lane 15 receives the inserted value |
| Lanes.VShift16IsShiftInsert | src/nw_stats_diag_avx2_256_16.c:63-69 | `vshift16` is `rshift16` followed by an insertion into lane 15 |
| Lanes.RShiftUndoesLShift | src/nw_stats_diag_avx2_256_16.c:49-61 | `rshift16` after `lshift16` gives back the register with lane 15 cleared |
| NwDiag.NwStatsDiag | src/nw_stats_diag_avx2_256_16.c:138-803 | an empty `s1` gives NEG_INF_16 three times, as a build without the assertion of line 201 runs it; otherwise the result is the corner cell's score, matches and length (NEG_INF_16 three times when the score does not beat NEG_INF_16), and each given table holds every cell's score, matches or length |
| NwDiag.Bands | src/nw_stats_diag_avx2_256_16.c:250-467 | every band but the last keeps the stored rows and the tables exact and ends at the first row of the last band |
| NwDiag.LastBand | src/nw_stats_diag_avx2_256_16.c:469-788 | the last band, its corner capture and the reduction yield the corner cell, and the tables are complete |
| NwDiag.Band | src/nw_stats_diag_avx2_256_16.c:250-467 | one band leaves the stored rows holding the band's last row, writes the band's table rows and, for the last band, captures the corner |
| NwDiag.Column | src/nw_stats_diag_avx2_256_16.c:303-389 | one step of the column loop keeps the band invariant (registers, stored rows, tables, capture) |
| NwDiag.Step | src/nw_stats_diag_avx2_256_16.c:304-377 | the register step moves every lane one cell along its row of the recurrence |
| NwDiag.StepLane | src/nw_stats_diag_avx2_256_16.c:304-377 | one lane's updates, including the boundary reset at `vJ == -1`, produce the recurrence's next cell |
| NwDiag.WriteBack | src/nw_stats_diag_avx2_256_16.c:384-387 | lane 0 replaces exactly one entry of each stored row, which then holds the next row up to that index |
| NwDiag.ArrStore | src/nw_stats_diag_avx2_256_16.c:72-128 | each lane whose cell lies inside the table is stored at its row and column, and every other entry is unchanged |
| NwDiag.StoreTable | src/nw_stats_diag_avx2_256_16.c:378-382 | the table holds the recurrence for every cell swept so far |
| NwDiag.CaptureKeeps | src/nw_stats_diag_avx2_256_16.c:758-769 | after each step of the last band, the lane of row `s1Len-1` holds the corner cell once the band has passed it and its score beats NEG_INF_16; every other lane stays at NEG_INF_16 |
| NwDiag.Reduce | src/nw_stats_diag_avx2_256_16.c:776-788 | the lane loop computes the scan from lane 15 down |
| NwDiag.ScanFirstMax | src/nw_stats_diag_avx2_256_16.c:776-788 | the scan returns the greatest score, taken from the highest lane holding it, or NEG_INF_16 three times |
| NwDiag.ReducedCorner | src/nw_stats_diag_avx2_256_16.c:758-788 | the reduction of the captured lanes is the corner cell, or NEG_INF_16 three times |
| NwDiag.InitRows | src/nw_stats_diag_avx2_256_16.c:226-247 | the stored rows hold the first-row gap costs, the corner 0 and NEG_INF_16/0 padding |
| NwDiag.InitialRows | src/nw_stats_diag_avx2_256_16.c:226-247 | those stored rows are row 0 of the recurrence as the first band needs it |
| NwDiag.ScoresAreSpec | src/nw_stats_diag_avx2_256_16.c:378-382 | after the last band the score table is `H` everywhere |
| NwDiag.MatchesAreSpec | src/nw_stats_diag_avx2_256_16.c:378-382 | after the last band the matches table is `Mch` everywhere |
| NwDiag.LengthsAreSpec | src/nw_stats_diag_avx2_256_16.c:378-382 | after the last band the length table is `Len` everywhere |
| SwSpec.SegLen | src/sw_stats_scan_sse41_128_8.c:99 | `16 * segLen` covers the query with less than one vector to spare |
| SwSpec.RowOnto | src/sw_stats_scan_sse41_128_8.c:143-160 | every padded row is held by some lane of some segment |
| SwSpec.RowDistinct | src/sw_stats_scan_sse41_128_8.c:143-160 | distinct lane/segment pairs hold distinct rows |
| SwSpec.SegIndexOfRow | src/sw_stats_scan_sse41_128_8.c:143-160 | the row-to-lane/segment map inverts the striping |
| SwSpec.UnstripeSeg | src/sw_stats_scan_sse41_128_8.c:143-160 | striping a column and reading it back per segment is the identity |
| SwSpec.Prof | src/sw_stats_scan_sse41_128_8.c:147 | a profile lane is an 8-bit value, 0 for padding rows |
| SwSpec.HtCol | src/sw_stats_scan_sse41_128_8.c:219-269 | the provisional score lies in `0..127` in every row |
| SwSpec.RunSplit | src/sw_stats_scan_sse41_128_8.c:352-409 | a statistics run down the column continues from the value before any cut |
| SwSpec.RunCarryFree | src/sw_stats_scan_sse41_128_8.c:352-409 | an unflagged row cuts the carry: the run no longer depends on it |
| SwSpec.RunAllFlagged | src/sw_stats_scan_sse41_128_8.c:352-409 | over all-flagged rows the run keeps its carry, and the length grows by one per row |
| SwSpec.FRunRange | src/sw_stats_scan_sse41_128_8.c:271-307 | the vertical-gap run over 8-bit scores stays in `0..127` |
| SwSpec.FRunLinear | src/sw_stats_scan_sse41_128_8.c:280-297 | a run from carry `c` is `max(c - (i+1)*gap, run from -128)`, which justifies the lane patch with `segLen*gap` |
| SwSpec.FoAffine | src/sw_stats_scan_sse41_128_8.c:271-339 | with tame costs and `gap <= open`, the vertical gap candidate is the textbook affine one: the larger of the row above's candidate minus `gap` and the row above's final score minus `open`, saturated to 8 bits |
| SwSpec.FirstRowUnflagged | src/sw_stats_scan_sse41_128_8.c:309-314 | row 0 is never won by a vertical gap |
| SwSpec.Scan8FirstMax | src/sw_stats_scan_sse41_128_8.c:466-479 | the reduction returns the greatest lane score, from the highest lane holding it, with unbiased statistics |
| SwSpec.TrackLane | src/sw_stats_scan_sse41_128_8.c:455-461 | a lane's maximum after a column bounds every row of that lane and is the first such row's cell or unchanged |
| SwSpec.BestOverLane | src/sw_stats_scan_sse41_128_8.c:455-461 | over all columns a lane's maximum bounds all its cells and is one of them or the start |
| SwSpec.ReportBest | src/sw_stats_scan_sse41_128_8.c:466-492 | without saturation the score is non-negative, bounds every cell and is some cell's score with that cell's statistics; score 0 reports zero statistics |
| SwSpec.KeepsStart | src/sw_stats_scan_sse41_128_8.c:128-131 | when no cell beats 0 the running maxima keep their start |
| SwSpec.StartAsWrittenNoPositive | src/sw_stats_scan_sse41_128_8.c:128-131 | when no cell beats 0 the maxima started as written report statistics 127, and the corrected start reports 0 |
| SwSpec.EmptyTargetAsWritten | src/sw_stats_scan_sse41_128_8.c:128-131 | on `s1 = [0]`, `s2 = []` the start as written reports `(0, 127, 127, 127)` |
| SwScan.ProfileSeg | src/sw_stats_scan_sse41_128_8.c:144-158 | one profile vector holds, for its lanes' rows, the 8-bit score, the match flag (1 exactly on real rows whose residue equals the code) and the similar flag (1 exactly where the score is positive) |
| SwScan.ProfileCode | src/sw_stats_scan_sse41_128_8.c:143-160 | the profile block of one residue code is filled, and the rest of the profile is unchanged |
| SwScan.BuildProfile | src/sw_stats_scan_sse41_128_8.c:138-161 | the three profiles hold every code's striped scores and flags |
| SwScan.InitColumns | src/sw_stats_scan_sse41_128_8.c:163-184 | the buffers hold column 0: scores 0, gaps -128, statistics -127 |
| SwScan.EPass | src/sw_stats_scan_sse41_128_8.c:209-217 | the E vectors hold the striped horizontal gap state and nothing else changes |
| SwScan.HtPass | src/sw_stats_scan_sse41_128_8.c:219-269 | the Ht/Ex/Mt/St/Lt vectors hold the striped provisional column and nothing else changes |
| SwScan.FtExact | src/sw_stats_scan_sse41_128_8.c:271-307 | the two sweeps with the lane patch yield the striped vertical-gap run down the whole column |
| SwScan.FtPass | src/sw_stats_scan_sse41_128_8.c:271-307 | the Ft vectors hold that run, for tame gap costs |
| SwScan.HPass | src/sw_stats_scan_sse41_128_8.c:309-351 | the H and Ex vectors hold the final scores and flags; the per-lane carries, prefix mask and score saturation are returned; the score table column is stored |
| SwScan.Propagate | src/sw_stats_scan_sse41_128_8.c:352-409 | the carries are patched lane to lane along the prefix mask, the length with its bias |
| SwScan.CarryLanes | src/sw_stats_scan_sse41_128_8.c:352-405 | the patched carry of lane `k` is the run down the whole column to that lane's last row |
| SwScan.CarryLenLanes | src/sw_stats_scan_sse41_128_8.c:352-408 | the same for the length |
| SwScan.FPass | src/sw_stats_scan_sse41_128_8.c:410-463 | the M/S/L vectors hold the chained statistics; the flags and maxima fold them in; the statistics tables are stored |
| SwScan.StatsExact | src/sw_stats_scan_sse41_128_8.c:309-463 | the chained statistics are the column's statistics runs |
| SwScan.ScoresExact | src/sw_stats_scan_sse41_128_8.c:309-339 | the H and Ex vectors are the striped final scores and flags |
| SwScan.SatColumn | src/sw_stats_scan_sse41_128_8.c:435-450 | the folded saturation flags are the column's saturation flags |
| SwScan.TrackFold | src/sw_stats_scan_sse41_128_8.c:455-461 | folding the segments is tracking the column's maxima |
| SwScan.StoreLanes | src/sw_stats_scan_sse41_128_8.c:27-52 | one segment's lanes are stored at their rows in column `j`, and the other columns are unchanged |
| SwScan.StoreStats | src/sw_stats_scan_sse41_128_8.c:54-79 | one segment's statistics are stored unbiased in column `j`, and the other columns are unchanged |
| SwScan.TablesFinal | src/sw_stats_scan_sse41_128_8.c:451-453 | after a column the four tables hold its scores and unbiased statistics |
| SwScan.Passes123 | src/sw_stats_scan_sse41_128_8.c:209-307 | the first three passes leave the provisional column and the vertical-gap run |
| SwScan.StatsPasses | src/sw_stats_scan_sse41_128_8.c:309-463 | the last passes finish the column, the flags, the maxima and both table kinds |
| SwScan.Passes45 | src/sw_stats_scan_sse41_128_8.c:309-463 | the buffers hold the next column of the recurrence with its flags, maxima and tables |
| SwScan.Column | src/sw_stats_scan_sse41_128_8.c:187-463 | one outer iteration advances the buffers, flags, maxima and tables by one column |
| SwScan.ColumnAt | src/sw_stats_scan_sse41_128_8.c:186-464 | that step from `ColAt(j)` yields `ColAt(j+1)`, `SatAt(j+1)` and `BestAt(b0, j+1)`, for maxima started at any `b0` |
| SwScan.AllColumns | src/sw_stats_scan_sse41_128_8.c:186-464 | after the outer loop from maxima `b0` the flags, maxima and tables are those of all columns |
| SwScan.Reduce8 | src/sw_stats_scan_sse41_128_8.c:466-479 | the lane loop computes the reduction |
| SwScan.Finish | src/sw_stats_scan_sse41_128_8.c:466-492 | a saturated result is `(127, 0, 0, 0)`, otherwise the reduction, that is `Report(p, b0)` |
| SwScan.Engine | src/sw_stats_scan_sse41_128_8.c:88-510 | the whole routine with the maxima started at `b0` returns `Report(p, b0)`; the saturated result is `(127, 0, 0, 0)`; the table build holds every column |
| SwScan.SwStatsScanAsWritten | src/sw_stats_scan_sse41_128_8.c:128-131 | the routine as written, with the statistics maxima started at a biased 0, returns `Report(p, START_AS_WRITTEN)`, which on `s1 = [0]`, `s2 = []` is `(0, 127, 127, 127)` |
| SwScan.SwStatsScan | src/sw_stats_scan_sse41_128_8.c:88-510 | the routine with the corrected start returns `Report(p, START)`, whose meaning `ReportBest` states; the saturated result is `(127, 0, 0, 0)`; the table build holds every column |
| SwScan.Tables.constructor | src/sw_stats_scan_sse41_128_8.c:132-133 | four distinct fresh tables of `16*segLen` rows and `s2Len` columns |

## Left out

- Sequence encoding (`MAP_BLOSUM_`): sequences are given as residue codes `0..23`, and the matrix is a 24 by 24 `seq`.
- Memory management (`malloc`, `parasail_memalign_*`, `free`) and the result allocation: arrays are allocated with `new`.
- Result tables are `array2<int>` rather than row-major flat arrays; the flat index `(i-1)*s2Len + (j-1)` is not modelled.
- The unrolled per-lane statements (`_mm256_set_epi16`, the 16 `arr_store` branches, the 15-line prefix patch) are modelled as functions or loops over lanes.
- Nw.Nw: does not model the 32-bit `int` arithmetic of `src/nw.c`; scores, gap states and the NEG_INF_32 sentinel sums are unbounded integers, so results are exact only where no sum overflows 32 bits.
- NwDiag.NwStatsDiag: does not model the 16-bit wrap-around of registers, stored rows or table entries; lanes are unbounded integers, so results are exact only where every value fits in 16 bits.
- NwDiag.NwStatsDiag: does not require `|s1| > 16`, which the source asserts (line 201). For a shorter `s1` it states the behaviour of a build without assertions: an empty `s1` gives NEG_INF_16 three times, and any other `s1` gives the recurrence's corner cell.
- NwDiag.NwStatsDiag: requires `|s2| > 16`, which the source asserts (line 202). For a shorter second sequence the last band's third column loop (line 684) starts at `s2Len - 1 < 16` and repeats steps the first loop (line 521) already took.
- SwScan.SwStatsScan: requires `|s1| >= 1`; the source reads `pvH[segLen-1]` and divides the work into `segLen >= 1` vectors.
- SwScan.SwStatsScan: the result and tables are proved equal to the recurrence only for tame gap costs (`0 <= open, gap <= 127`). Outside that range the 8-bit lanes hold the costs with wrap-around and only the saturation branch is stated.
- SwScan.SwStatsScan: statistics are unbounded integers. The saturation check is modelled as a statistic reaching either 8-bit limit (`StatHits`) rather than by the saturating lane values themselves, and the narrowing of `uLp` to 8 bits in the prefix patch is not modelled. In a saturated run, where a count passes 127, the statistics tables therefore hold the unbounded counts that `TablesHold` states, while the source stores the saturated 8-bit values; the returned result is the same.
- SwSpec.BestOverLane: says the lane maximum is some cell of the lane, not that it is the first such cell in column order.
- NwSpec.SentinelsAgree: relates the two engines' recurrences, not their code directly. The NEG_INF_16 bound it needs is a precondition, which the source does not check.

## Findings

| source | as written | input that shows it | evidently intended | confidence | as-written member | corrected member |
|---|---|---|---|---|---|---|
| src/sw_stats_scan_sse41_128_8.c:128-131 | `vMaxM`, `vMaxS` and `vMaxL` start at biased 0, a count of 127 | `s1 = [0]`, `s2 = []` (any costs): reports score 0 with matches, similar and length 127 | the running statistics start at `-bias`, a count of 0, so an empty local alignment reports zero statistics | not executed | SwScan.SwStatsScanAsWritten, SwSpec.StartAsWrittenNoPositive, SwSpec.EmptyTargetAsWritten | SwScan.SwStatsScan, SwSpec.ReportBest |
