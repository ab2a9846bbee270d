# Split-combine kernel: a Dafny model of its control and indexing

The forward split-combine kernel of FlashAttention-3 (`FlashAttnFwdCombine` in
`hopper/flash_fwd_combine_kernel.h`) merges the partial results that the
split-KV attention pass left behind. Every split `s` of every query row wrote
a partial output row `O_partial[.., s, ..]` and a partial log-sum-exp
`LSE_partial[.., s, ..]`. One thread block serves `kBlockM` linear query
indices of one batch window. It works in the steps its comments number:

- Step 1 loads each row's split statistics into a `kMaxSplits x kBlockM`
  scratch table. Slots past `num_splits` are padded with `-INFINITY`.
- Step 2 prefetches the first `kStages - 1` partial-output tiles into a ring
  of `kStages` scratch stages.
- Steps 3 and 4 merge the statistics into per-split weights and a final
  statistic. This floating-point part is not modelled.
- Step 5 stores the final statistic of every valid row.
- Step 6 runs a pipelined loop over the splits. Each iteration prefetches
  split `s + kStages - 1` and accumulates split `s`. A row whose weight is not
  positive is neither prefetched nor accumulated.
- Step 7 writes the accumulator back, predicated on row validity and on the
  column predicate.

The model covers the discrete part of each step:

- the batch window (offset and length), chosen from `cu_seqlens` and `seqused`;
- the resolution of a linear query index into (position, head, batch), using
  two fast divisions in fixed-length mode and one in variable-length mode,
  with `bidb = -1` marking rows past `max_idx`;
- the sentinel padding of the scratch table;
- the column predicate for a ragged head dimension;
- the round-robin stage counters of the ring;
- which split each stage holds when it is drained;
- the accumulation with its zero-weight skip;
- the coordinates the two write-backs touch and the coordinates they leave alone.

The model does not track threads: one tile is described as a whole, all
`kBlockM` rows and all `kHeadDim` columns. The threads of the kernel touch
disjoint cells, so the union of their work is what is described.

The modules:

- `Layout`: configuration, parameters, the window, index resolution and the
  column predicate.
- `LseLoad`: step 1.
- `Pipeline`: steps 2 and 6, including the ring schedule and the accumulation
  reference `WeightedSum`.
- `Writer`: steps 5 and 7.
- `Combine`: the whole block, plus properties spanning several steps.
- `Options`: the nullable table pointers.

Representations:

- Inputs are total functions from coordinates to reals.
- Outputs are maps from coordinates to reals; a coordinate that is absent was
  never written.
- A scratch cell is either `Stale` or `Loaded(split, value)`. This makes
  "stage `j % kStages` holds split `j`" a checkable statement.

## Model

| member | source | states |
|---|---|---|
| Layout.ToUnderlyingArguments | hopper/flash_fwd_combine_kernel.h:161-180 | Conversion succeeds exactly when `num_splits <= kMaxSplits` (the assertion). On success the shape and tables are copied, and each fast divider holds `seqlen` or `nheads` respectively. |
| Layout.BatchWindow | hopper/flash_fwd_combine_kernel.h:194-197 | Fixed-length mode: the window is `(0, seqlen)`. Variable-length mode: the offset is `cu_seqlens[batch]` when the table is present, else 0. The length is taken from `seqused[batch]` first, else `cu_seqlens[batch+1] - offset`, else the shape's `seqlen`. |
| Layout.PackedWindowsAdjacent | hopper/flash_fwd_combine_kernel.h:196-197 | Without `seqused`, the window of batch `b` ends where the window of batch `b+1` starts. |
| Layout.WindowsDisjoint | hopper/flash_fwd_combine_kernel.h:196-197 | With non-decreasing `cu_seqlens`, and used lengths that fit their packed slices, the windows of two different batches do not overlap. |
| Layout.FixedDecompose | hopper/flash_fwd_combine_kernel.h:221-222 | The two chained divisions give coordinates that flatten back to the index. Position < seqlen and head < nheads. |
| Layout.VarlenDecompose | hopper/flash_fwd_combine_kernel.h:223-226 | The single division gives batch 0 and position < seqlen, and the coordinates flatten back to the index. |
| Layout.FixedDecomposeInRange | hopper/flash_fwd_combine_kernel.h:198-222 | An index below `max_idx = seqlen*nheads*nbatch` lands in a batch below `nbatch`. |
| Layout.VarlenDecomposeInRange | hopper/flash_fwd_combine_kernel.h:198-226 | In variable-length mode, an index below `max_idx` has a head index below `nheads*nbatch`. |
| Layout.DecomposeAgreeOnPosition | hopper/flash_fwd_combine_kernel.h:220-226 | Both decompositions give the same position. The variable-length head index is the fixed-length `bidh + nheads*bidb`. |
| Layout.FixedDecomposeFlatten | hopper/flash_fwd_combine_kernel.h:221-222 | Decomposition inverts flattening on every in-range coordinate. |
| Layout.FlattenBelowMax | hopper/flash_fwd_combine_kernel.h:198 | Every in-range coordinate flattens to an index below `max_idx`. |
| Layout.Decompose | hopper/flash_fwd_combine_kernel.h:219-226 | An index below `max_idx` resolves to a valid row that flattens back to it. Fixed-length: head and batch are in range. Variable-length: batch is 0. |
| Layout.ResolveRow | hopper/flash_fwd_combine_kernel.h:258-268 | The precomputed row is valid iff `idx < max_idx`. An invalid row has `bidb == -1`. A valid row is the decomposition of its index. |
| Layout.ResolveInjective | hopper/flash_fwd_combine_kernel.h:258-268 | Two different valid indices never resolve to the same row. |
| Layout.ResolveFlattenRoundTrip | hopper/flash_fwd_combine_kernel.h:258-268 | In fixed-length mode, every in-range (position, head, batch) is the resolution of exactly the index it flattens to. |
| Layout.PrecomputeRows | hopper/flash_fwd_combine_kernel.h:254-268 | One entry per tile row. Row `mi` is valid iff `m_block*kBlockM + mi < max_idx`, and then it flattens to that index and equals its decomposition. Valid rows are pairwise distinct. |
| Layout.ColAllowedExact | hopper/flash_fwd_combine_kernel.h:270-274 | When `d` is a multiple of the transfer width, the column predicate `tOpO` admits exactly the columns below `d`. |
| LseLoad.FillRow | hopper/flash_fwd_combine_kernel.h:227-236 | For one resolved row: slot `si < num_splits` holds that split's statistic, every later slot holds the sentinel, and every other row is unchanged. |
| LseLoad.LoadLseScratch | hopper/flash_fwd_combine_kernel.h:215-241 | For every row below `max_idx`: real statistics up to `num_splits`, the sentinel up to `kMaxSplits`. Rows at or past `max_idx` are left untouched. |
| Pipeline.LoadOPartial | hopper/flash_fwd_combine_kernel.h:281-294 | A stage is loaded with one split in every valid row whose gate is open and every admitted column. Every other cell is unchanged. |
| Pipeline.Prologue | hopper/flash_fwd_combine_kernel.h:296-299 | Splits `j < kStages-1` with `j < num_splits` are in stage `j`, in every valid row and admitted column; every other cell of a loaded stage keeps its contents. The last stage, and the stages of missing splits, are untouched. |
| Pipeline.StageAfterIsMod | hopper/flash_fwd_combine_kernel.h:374-412 | A counter advanced `n` times by the wrap-around increment equals `(start + n) mod kStages`. |
| Pipeline.FillStageIsMod | hopper/flash_fwd_combine_kernel.h:296-406 | The stage each split is written to, by the prologue or by the loop, is `j mod kStages`. |
| Pipeline.ResidueAhead | hopper/flash_fwd_combine_kernel.h:378-406 | The `kStages-1` splits waiting at iteration `s` never share a stage with the one being refilled. |
| Pipeline.RingSchedule | hopper/flash_fwd_combine_kernel.h:374-412 | At iteration `s`: the compute stage is the stage split `s` was written to; the load stage is the one drained at `s-1`; and the load stage never holds a split that is still waiting. |
| Pipeline.SkipDropsOnlyZeroTerms | hopper/flash_fwd_combine_kernel.h:416-428 | With non-negative weights, the sum that skips non-positive weights equals the plain weighted sum. |
| Pipeline.SingleSplitIsIdentity | hopper/flash_fwd_combine_kernel.h:416-428 | With one split of weight 1, the output is that split's partial output. |
| Pipeline.AccumulateRow | hopper/flash_fwd_combine_kernel.h:419-426 | Every admitted column gains `scale` times the drained element. Other columns are unchanged. |
| Pipeline.AccumulateSplit | hopper/flash_fwd_combine_kernel.h:415-428 | Each cell gains its contribution: weight times drained element for valid rows with positive weight in admitted columns, nothing otherwise. |
| Pipeline.PrefetchAhead | hopper/flash_fwd_combine_kernel.h:377-403 | Split `s+kStages-1` is copied into the load stage exactly in the valid rows whose weight for it is positive, in every admitted column; every other cell of that stage keeps its contents, and every other stage is unchanged. This is the same test as its later accumulation, so splits `s .. s+kStages-1` are then all waiting where they will be read. |
| Pipeline.LoadedStageHolds | hopper/flash_fwd_combine_kernel.h:389-403 | A stage loaded under the weight gate holds the split wherever that split will be accumulated. |
| Pipeline.WaitingStagesKept | hopper/flash_fwd_combine_kernel.h:389-406 | Refilling the load stage keeps the waiting splits in place. |
| Pipeline.AccumulateStep | hopper/flash_fwd_combine_kernel.h:408-428 | Accumulating the drained stage of split `s` advances the accumulator from the reference sum over `s` splits to the sum over `s+1`. |
| Pipeline.SplitLoop | hopper/flash_fwd_combine_kernel.h:372-429 | After the loop, each valid row's admitted column holds the sum over splits with positive weight of weight times partial element. Every other cell is 0. No stale stage is ever read. |
| Pipeline.AccumulateO | hopper/flash_fwd_combine_kernel.h:296-429 | Prologue then loop: the accumulator equals the reference weighted sum in valid rows and admitted columns, and is zero elsewhere. |
| Writer.KeyRowOutKey | hopper/flash_fwd_combine_kernel.h:446 | An output coordinate determines its row and column. |
| Writer.WriteRow | hopper/flash_fwd_combine_kernel.h:442-448 | One row's admitted columns receive the accumulator. No other coordinate is added or changed. |
| Writer.InTileStep | hopper/flash_fwd_combine_kernel.h:440-441 | Passing row `m` adds exactly that row's admitted coordinates when it is valid, and none when it is not. |
| Writer.WriteTileRow | hopper/flash_fwd_combine_kernel.h:441-449 | Storing valid row `m` extends the stored prefix by that row. Earlier rows keep their values because valid rows are distinct. |
| Writer.SkipInvalidRow | hopper/flash_fwd_combine_kernel.h:441 | A row with `bidb < 0` stores nothing. |
| Writer.WriteO | hopper/flash_fwd_combine_kernel.h:439-450 | Every valid row's admitted columns hold the accumulator. Exactly those coordinates are added, and every other coordinate keeps its contents. |
| Writer.LseRowKeyInjective | hopper/flash_fwd_combine_kernel.h:351-362 | Two live rows of a tile store their final statistic at different coordinates. |
| Writer.WriteLseRow | hopper/flash_fwd_combine_kernel.h:351-363 | A live row's statistic is stored at its re-resolved coordinate. Rows stored earlier keep theirs. |
| Writer.WriteFinalLse | hopper/flash_fwd_combine_kernel.h:348-365 | Every live row's final statistic is at its coordinate. Exactly those coordinates are added, and the rest keep their contents. |
| Combine.NonPositiveTailAddsNothing | hopper/flash_fwd_combine_kernel.h:416-417 | Extending the sum over splits whose weight is not positive leaves it unchanged. |
| Combine.SentinelSlotsAddNothing | hopper/flash_fwd_combine_kernel.h:231-235 | If the sentinel slots get weight zero, summing over all `kMaxSplits` slots equals summing over the `num_splits` real ones. |
| Combine.WritesStayInWindow | hopper/flash_fwd_combine_kernel.h:434-446 | Every output coordinate a tile stores lies in its batch's window. |
| Combine.NewKeysInWindow | hopper/flash_fwd_combine_kernel.h:434-446 | Every coordinate the write-back of a tile adds lies in the tile's batch window. |
| Combine.BatchesWriteDisjoint | hopper/flash_fwd_combine_kernel.h:194-198 | In variable-length mode, with well-formed offsets, tiles of different batches never store to the same coordinate. |
| Combine.AccumulateAndStore | hopper/flash_fwd_combine_kernel.h:368-450 | The stored output of every valid row and admitted column is the reference weighted sum. Nothing else is added or changed. |
| Combine.CombineTile | hopper/flash_fwd_combine_kernel.h:184-452 | For one block: the window; the resolved rows; the padded scratch table; final statistics at exactly the live rows' coordinates; weighted sums at exactly the valid rows' coordinates in the columns admitted against the shape's head dimension `d`, all inside the window; nothing else changed. |

## Left out

- The floating-point merge (the max, `expf`, `logf` and normalisation of steps 3 and 4) is not modelled. The per-split weights and the final statistics are inputs. `Combine.SentinelSlotsAddNothing` states, as a hypothesis, the one property of it the rest relies on: a sentinel slot gets weight zero.
- `convert_type` (the narrowing of the accumulator to the output element type) is not modelled. The stored value is the real-valued accumulator.
- CuTe layouts, tiled copies, swizzled shared-memory layouts and the FastDivmod internals are not modelled. A fast divider is its divisor, and `divmod` is Euclidean division, which agrees with it on the non-negative indices used here.
- Threads, `cp.async` fences and waits, and `__syncthreads` are not modelled. The model is the sequential view of one tile. The asynchronous copies are treated as complete when waited for.
- The LSE vector width (`kGmemElemsPerLoadLSE`) is treated as one slot per transfer. The output transfer width is kept, but only through the column predicate.
- 32-bit overflow of `max_idx` and of the linear index is not modelled. Integers are unbounded.
- Layout.ResolveRow: for a row at or past `max_idx`, the kernel still computes its position and head (possibly dividing by a zero length) before setting `bidb = -1`. The model stores `(0, 0, -1)`, because those fields are never read.
- Layout.Decompose: in variable-length mode, the head index is only bounded by `nheads * nbatch`. This matches the code's `max_idx`, which multiplies by the batch extent of the shape.
- The step-2 prologue runs after step 5 in the model (inside `Combine.AccumulateAndStore`), whereas the kernel issues it before steps 3 to 5. The prologue writes only the ring of scratch stages, which steps 3 to 5 never read, so the reordering is not observable.
- The host-side launch code and the Python tests are not part of this model.
