/** One thread block of the split-combine kernel, end to end: resolve the
    batch window, load the per-split statistics into the padded scratch table,
    resolve the tile's rows, run the pipelined split loop and store the final
    statistic and output. The floating-point merge of steps 3 and 4 is not modelled:
    its results, the per-split weights and the final statistic, are inputs. */
module Combine {
  import opened Layout
  import opened LseLoad
  import opened Pipeline
  import opened Writer

  /** The merge assigns weight zero to a padded slot: exp(-inf - max) is 0. */
  predicate SentinelWeightsZero(cfg: Config, sc: seq<seq<Stat>>, wt: seq<seq<real>>)
    requires ScratchShape(cfg, sc) && WeightShape(cfg, wt)
  {
    forall si, mi :: 0 <= si < cfg.MaxSplits() && 0 <= mi < cfg.blockM && sc[si][mi] == NoMass ==>
      wt[si][mi] == 0.0
  }

  /** Splits whose weight is not positive add nothing to the sum, so extending
      the sum over them leaves it unchanged. */
  lemma {:induction false} NonPositiveTailAddsNothing(cfg: Config, w: Window, rows: seq<RowIndex>,
                                                      wt: seq<seq<real>>, o: OPartial,
                                                      m: nat, col: nat, n: nat, n': nat)
    requires WeightShape(cfg, wt) && |rows| == cfg.blockM && m < cfg.blockM && n <= n' <= |wt|
    requires forall j :: n <= j < n' ==> wt[j][m] <= 0.0
    ensures WeightedSum(cfg, w, rows, wt, o, m, col, n') == WeightedSum(cfg, w, rows, wt, o, m, col, n)
    decreases n'
  {
    if n' > n {
      NonPositiveTailAddsNothing(cfg, w, rows, wt, o, m, col, n, n' - 1);
    }
  }

  /** The padded slots of a live row carry the sentinel, the merge gives them
      weight zero, and so summing over all kMaxSplits slots gives the same
      result as summing over the real splits only. */
  lemma SentinelSlotsAddNothing(cfg: Config, p: Params, w: Window, mBlock: nat, sc: seq<seq<Stat>>,
                                wt: seq<seq<real>>, rows: seq<RowIndex>, o: OPartial, mi: nat, col: nat)
    requires p.Valid(cfg) && ScratchShape(cfg, sc) && WeightShape(cfg, wt)
    requires |rows| == cfg.blockM && mi < cfg.blockM && LiveRow(cfg, p, w, mBlock, mi)
    requires forall si :: p.shape.numSplits <= si < cfg.MaxSplits() ==> sc[si][mi] == NoMass
    requires SentinelWeightsZero(cfg, sc, wt)
    ensures WeightedSum(cfg, w, rows, wt, o, mi, col, cfg.MaxSplits())
            == WeightedSum(cfg, w, rows, wt, o, mi, col, p.shape.numSplits)
  {
    NonPositiveTailAddsNothing(cfg, w, rows, wt, o, mi, col, p.shape.numSplits, cfg.MaxSplits());
  }

  /** Every output coordinate a tile stores lies inside its batch's window. */
  lemma WritesStayInWindow(cfg: Config, p: Params, w: Window, mBlock: nat, headDim: nat, k: OutIndex)
    requires cfg.Valid() && p.Valid(cfg)
    requires !cfg.varlen ==> w.seqlen == p.shape.seqlen
    requires InTile(cfg, headDim, w, PrecomputeRows(cfg, p, w, mBlock), cfg.blockM, k)
    ensures w.offset <= k.pos < w.offset + w.seqlen
  {
  }

  /** A tile's write-back adds coordinates inside its window only. */
  lemma NewKeysInWindow(cfg: Config, p: Params, w: Window, mBlock: nat, rows: seq<RowIndex>,
                        out0: map<OutIndex, real>, out: map<OutIndex, real>)
    requires cfg.Valid() && p.Valid(cfg)
    requires !cfg.varlen ==> w.seqlen == p.shape.seqlen
    requires rows == PrecomputeRows(cfg, p, w, mBlock)
    requires forall k :: k in out <==> k in out0 || InTile(cfg, p.shape.headDim, w, rows, cfg.blockM, k)
    ensures forall k :: k in out && k !in out0 ==> w.offset <= k.pos < w.offset + w.seqlen
  {
    forall k | k in out && k !in out0
      ensures w.offset <= k.pos < w.offset + w.seqlen
    {
      WritesStayInWindow(cfg, p, w, mBlock, p.shape.headDim, k);
    }
  }

  /** In variable-length mode two tiles of different batches never store to
      the same output coordinate, given well-formed cumulative offsets. */
  lemma BatchesWriteDisjoint(cfg: Config, p: Params, b1: nat, b2: nat, mBlock1: nat, mBlock2: nat,
                             headDim: nat, k: OutIndex)
    requires cfg.Valid() && p.Valid(cfg) && cfg.varlen
    requires p.tables.cuSeqlens.Some? && NonDecreasing(p.tables.cuSeqlens.value) && UsedFitsPacked(p.tables)
    requires b1 < b2 && TablesCover(cfg, p.tables, b1) && TablesCover(cfg, p.tables, b2)
    requires InTile(cfg, headDim, BatchWindow(cfg, p.shape, p.tables, b1),
                    PrecomputeRows(cfg, p, BatchWindow(cfg, p.shape, p.tables, b1), mBlock1), cfg.blockM, k)
    ensures !InTile(cfg, headDim, BatchWindow(cfg, p.shape, p.tables, b2),
                    PrecomputeRows(cfg, p, BatchWindow(cfg, p.shape, p.tables, b2), mBlock2), cfg.blockM, k)
  {
    var w1 := BatchWindow(cfg, p.shape, p.tables, b1);
    var w2 := BatchWindow(cfg, p.shape, p.tables, b2);
    WindowsDisjoint(cfg, p.shape, p.tables, b1, b2);
    WritesStayInWindow(cfg, p, w1, mBlock1, headDim, k);
    if InTile(cfg, headDim, w2, PrecomputeRows(cfg, p, w2, mBlock2), cfg.blockM, k) {
      WritesStayInWindow(cfg, p, w2, mBlock2, headDim, k);
    }
  }

  /** Steps 2, 6 and 7: the pipelined split loop followed by the write-back. */
  method AccumulateAndStore(cfg: Config, headDim: nat, numSplits: nat, w: Window, rows: seq<RowIndex>,
                            wt: seq<seq<real>>, o: OPartial, ring0: seq<Stage>, out0: map<OutIndex, real>)
    returns (out: map<OutIndex, real>)
    requires cfg.Valid() && |rows| == cfg.blockM && DistinctValidRows(rows)
    requires WeightShape(cfg, wt) && numSplits <= |wt| && RingShape(cfg, ring0)
    ensures forall mi, col ::
              (0 <= mi < cfg.blockM && 0 <= col < cfg.headDimTile && rows[mi].Valid() && ColAllowed(cfg, headDim, col)) ==>
              OutKey(w, rows[mi], col) in out &&
              out[OutKey(w, rows[mi], col)] == WeightedSum(cfg, w, rows, wt, o, mi, col, numSplits)
    ensures forall k :: k in out <==> k in out0 || InTile(cfg, headDim, w, rows, cfg.blockM, k)
    ensures forall k :: k in out0 && !InTile(cfg, headDim, w, rows, cfg.blockM, k) ==> k in out && out[k] == out0[k]
  {
    var acc := AccumulateO(cfg, headDim, numSplits, w, rows, wt, o, ring0);
    out := WriteO(cfg, headDim, w, rows, acc, out0);
  }

  /** The whole kernel for the block at (mBlock, blockY). The column predicate
      compares against the head dimension d of the partial-output shape. */
  method CombineTile(cfg: Config, p: Params, blockY: nat, mBlock: nat,
                     lse: LsePartial, sc0: seq<seq<Stat>>, wt: seq<seq<real>>, lseFinal: seq<real>,
                     o: OPartial, ring0: seq<Stage>,
                     out0: map<OutIndex, real>, lseOut0: map<LseOutIndex, real>)
    returns (w: Window, rows: seq<RowIndex>, sc: seq<seq<Stat>>,
             out: map<OutIndex, real>, lseOut: map<LseOutIndex, real>)
    requires cfg.Valid() && p.Valid(cfg)
    requires TablesCover(cfg, p.tables, BlockBatch(cfg, blockY))
    requires ScratchShape(cfg, sc0) && WeightShape(cfg, wt) && |lseFinal| == cfg.blockM
    requires RingShape(cfg, ring0)
    ensures !cfg.varlen ==> w == Window(0, p.shape.seqlen)
    ensures w == BatchWindow(cfg, p.shape, p.tables, BlockBatch(cfg, blockY))
    ensures |rows| == cfg.blockM
    ensures forall mi :: 0 <= mi < cfg.blockM ==> (rows[mi].Valid() <==> LiveRow(cfg, p, w, mBlock, mi))
    ensures forall mi :: 0 <= mi < cfg.blockM && LiveRow(cfg, p, w, mBlock, mi) ==>
              rows[mi] == Decompose(cfg, p, w.seqlen, RowIdx(cfg, mBlock, mi))
    ensures ScratchShape(cfg, sc)
    // step 1: the scratch table holds the real statistics and the sentinel after them
    ensures forall si, mi :: 0 <= si < p.shape.numSplits && 0 <= mi < cfg.blockM && LiveRow(cfg, p, w, mBlock, mi) ==>
              sc[si][mi] == Lse(PartialStat(w, lse, Decompose(cfg, p, w.seqlen, RowIdx(cfg, mBlock, mi)), si))
    ensures forall si, mi :: p.shape.numSplits <= si < cfg.MaxSplits() && 0 <= mi < cfg.blockM && LiveRow(cfg, p, w, mBlock, mi) ==>
              sc[si][mi] == NoMass
    // step 5: the final statistic of each valid row, nothing else
    ensures forall mi :: 0 <= mi < cfg.blockM && LiveRow(cfg, p, w, mBlock, mi) ==>
              LseRowKey(cfg, p, w, mBlock, mi) in lseOut && lseOut[LseRowKey(cfg, p, w, mBlock, mi)] == lseFinal[mi]
    ensures forall k :: k in lseOut <==> k in lseOut0 || InLseTile(cfg, p, w, mBlock, cfg.blockM, k)
    ensures forall k :: k in lseOut0 && !InLseTile(cfg, p, w, mBlock, cfg.blockM, k) ==> k in lseOut && lseOut[k] == lseOut0[k]
    // steps 6 and 7: the weighted sum of each valid row and admitted column, nothing else
    ensures forall mi, col ::
              (0 <= mi < cfg.blockM && 0 <= col < cfg.headDimTile && rows[mi].Valid() && ColAllowed(cfg, p.shape.headDim, col)) ==>
              OutKey(w, rows[mi], col) in out &&
              out[OutKey(w, rows[mi], col)] == WeightedSum(cfg, w, rows, wt, o, mi, col, p.shape.numSplits)
    ensures forall k :: k in out <==> k in out0 || InTile(cfg, p.shape.headDim, w, rows, cfg.blockM, k)
    ensures forall k :: k in out0 && !InTile(cfg, p.shape.headDim, w, rows, cfg.blockM, k) ==> k in out && out[k] == out0[k]
    ensures forall k :: k in out && k !in out0 ==> w.offset <= k.pos < w.offset + w.seqlen
  {
    w := BatchWindow(cfg, p.shape, p.tables, BlockBatch(cfg, blockY));
    sc := LoadLseScratch(cfg, p, w, mBlock, lse, sc0);
    rows := PrecomputeRows(cfg, p, w, mBlock);
    lseOut := WriteFinalLse(cfg, p, w, mBlock, lseFinal, lseOut0);
    out := AccumulateAndStore(cfg, p.shape.headDim, p.shape.numSplits, w, rows, wt, o, ring0, out0);
    NewKeysInWindow(cfg, p, w, mBlock, rows, out0, out);
  }
}
