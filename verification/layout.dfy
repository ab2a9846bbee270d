/** Geometry of the split-combine kernel: its compile-time configuration, the
    problem shape, the sequence window of one batch, and the resolution of a
    linear query index into (position, head, batch). */
module Layout {
  import opened Options

  /** Depth of the partial-output prefetch ring. */
  const kStages: nat := 4

  function Pow2(n: nat): (r: nat)
    ensures r >= 1
  {
    if n == 0 then 1 else 2 * Pow2(n - 1)
  }

  /** The template parameters that the discrete logic depends on. */
  datatype Config = Config(
    varlen: bool,        // Varlen: one block column per batch, lengths from tables
    isEvenK: bool,       // Is_even_K: the head dimension fills the whole tile
    logMaxSplits: nat,   // kLogMaxSplits
    blockM: nat,         // kBlockM: query rows per tile
    headDimTile: nat,    // kHeadDim: columns per tile
    elemsPerLoad: nat)   // kGmemElemsPerLoad: columns moved by one vector transfer
  {
    /** kMaxSplits, the number of split slots in the scratch statistic table. */
    function MaxSplits(): nat
    {
      Pow2(logMaxSplits)
    }

    /** The static assertions on the tile geometry. */
    predicate Valid()
    {
      && blockM > 0 && blockM % 8 == 0
      && elemsPerLoad > 0 && headDimTile % elemsPerLoad == 0
    }
  }

  /** (seqlen, d, num_splits, head, batch) of the partial tensors. */
  datatype Shape = Shape(seqlen: nat, headDim: nat, numSplits: nat, nheads: nat, nbatch: nat)

  /** The optional per-batch tables: cumulative offsets and used lengths. */
  datatype SeqTables = SeqTables(cuSeqlens: Option<seq<int>>, seqused: Option<seq<int>>)

  datatype Args = Args(shape: Shape, tables: SeqTables)

  /** Kernel parameters; each fast-divide object is represented by its divisor. */
  datatype Params = Params(shape: Shape, tables: SeqTables, seqlenDivisor: nat, headDivisor: nat)
  {
    predicate Valid(cfg: Config)
    {
      && shape.numSplits <= cfg.MaxSplits()
      && seqlenDivisor == shape.seqlen
      && headDivisor == shape.nheads
    }
  }

  /** Host-side conversion of the arguments; `None` is the failed assertion
      that the split count fits the scratch table. */
  function ToUnderlyingArguments(cfg: Config, args: Args): (r: Option<Params>)
    ensures r.Some? <==> args.shape.numSplits <= cfg.MaxSplits()
    ensures r.Some? ==> r.value.Valid(cfg)
    ensures r.Some? ==> r.value.shape == args.shape && r.value.tables == args.tables
  {
    if args.shape.numSplits <= cfg.MaxSplits() then
      Some(Params(args.shape, args.tables, args.shape.seqlen, args.shape.nheads))
    else
      None
  }

  // ---------------------------------------------------------------------------
  // Per-batch window

  /** The slice [offset, offset + seqlen) of the sequence dimension that one
      batch owns. */
  datatype Window = Window(offset: int, seqlen: int)

  /** The batch served by a block: its y coordinate in variable-length mode, else 0. */
  function BlockBatch(cfg: Config, blockY: nat): nat
  {
    if cfg.varlen then blockY else 0
  }

  /** The table entries the window computation reads exist. */
  predicate TablesCover(cfg: Config, t: SeqTables, batch: nat)
  {
    cfg.varlen ==>
      && (t.seqused.Some? ==> batch < |t.seqused.value|)
      && (t.cuSeqlens.Some? ==> batch < |t.cuSeqlens.value|)
      && (t.seqused.None? && t.cuSeqlens.Some? ==> batch + 1 < |t.cuSeqlens.value|)
  }

  function BatchWindow(cfg: Config, shape: Shape, t: SeqTables, batch: nat): (w: Window)
    requires TablesCover(cfg, t, batch)
    ensures !cfg.varlen ==> w == Window(0, shape.seqlen)
    ensures cfg.varlen && t.seqused.Some? ==> w.seqlen == t.seqused.value[batch]
    ensures cfg.varlen && t.seqused.None? && t.cuSeqlens.Some? ==>
              w.seqlen == t.cuSeqlens.value[batch + 1] - t.cuSeqlens.value[batch]
    ensures cfg.varlen && t.seqused.None? && t.cuSeqlens.None? ==> w.seqlen == shape.seqlen
    ensures cfg.varlen && t.cuSeqlens.Some? ==> w.offset == t.cuSeqlens.value[batch]
    ensures t.cuSeqlens.None? ==> w.offset == 0
  {
    var offset := if !cfg.varlen || t.cuSeqlens.None? then 0 else t.cuSeqlens.value[batch];
    var seqlen :=
      if !cfg.varlen then shape.seqlen
      else if t.seqused.Some? then t.seqused.value[batch]
      else if t.cuSeqlens.None? then shape.seqlen
      else t.cuSeqlens.value[batch + 1] - offset;
    Window(offset, seqlen)
  }

  predicate NonDecreasing(s: seq<int>)
  {
    forall i, j :: 0 <= i <= j < |s| ==> s[i] <= s[j]
  }

  /** Every used length is non-negative and fits in its batch's packed slice. */
  predicate UsedFitsPacked(t: SeqTables)
    requires t.cuSeqlens.Some?
  {
    t.seqused.Some? ==>
      forall b :: 0 <= b < |t.seqused.value| && b + 1 < |t.cuSeqlens.value| ==>
        0 <= t.seqused.value[b] <= t.cuSeqlens.value[b + 1] - t.cuSeqlens.value[b]
  }

  /** Without used lengths, the windows of consecutive batches tile the packed
      sequence dimension with no gap. */
  lemma PackedWindowsAdjacent(cfg: Config, shape: Shape, t: SeqTables, b: nat)
    requires cfg.varlen && t.seqused.None? && t.cuSeqlens.Some?
    requires b + 2 < |t.cuSeqlens.value|
    ensures BatchWindow(cfg, shape, t, b).offset + BatchWindow(cfg, shape, t, b).seqlen
            == BatchWindow(cfg, shape, t, b + 1).offset
  {
  }

  /** With non-decreasing offsets, the windows of two different batches do not
      overlap, so no batch reads another batch's rows. */
  lemma WindowsDisjoint(cfg: Config, shape: Shape, t: SeqTables, b1: nat, b2: nat)
    requires cfg.varlen && t.cuSeqlens.Some? && NonDecreasing(t.cuSeqlens.value)
    requires UsedFitsPacked(t)
    requires b1 < b2 && TablesCover(cfg, t, b1) && TablesCover(cfg, t, b2)
    ensures BatchWindow(cfg, shape, t, b1).offset + BatchWindow(cfg, shape, t, b1).seqlen
            <= BatchWindow(cfg, shape, t, b2).offset
    ensures 0 <= BatchWindow(cfg, shape, t, b1).seqlen
  {
    var cu := t.cuSeqlens.value;
    assert cu[b1 + 1] <= cu[b2];
  }

  // ---------------------------------------------------------------------------
  // Index resolution

  /** Number of valid linear query indices of a window: seqlen * heads * batches. */
  function MaxIdx(shape: Shape, seqlen: int): int
  {
    seqlen * shape.nheads * shape.nbatch
  }

  /** A resolved query row; `bidb < 0` marks a row past the valid range. */
  datatype RowIndex = RowIndex(mIdx: int, bidh: int, bidb: int)
  {
    predicate Valid()
    {
      bidb >= 0
    }
  }

  /** The linear index of (position, head, batch) when positions vary fastest. */
  function Flatten(r: RowIndex, seqlen: int, nheads: int): int
  {
    r.mIdx + seqlen * (r.bidh + nheads * r.bidb)
  }

  /** Two chained divisions with remainder: by the sequence length, then by the
      head count. */
  function FixedDecompose(idx: nat, seqlen: nat, nheads: nat): (r: RowIndex)
    requires seqlen > 0 && nheads > 0
    ensures Flatten(r, seqlen, nheads) == idx
    ensures 0 <= r.mIdx < seqlen && 0 <= r.bidh < nheads && 0 <= r.bidb
  {
    var q := idx / seqlen;
    var r := RowIndex(idx % seqlen, q % nheads, q / nheads);
    assert q == r.bidh + nheads * r.bidb;
    r
  }

  /** One division with remainder by the batch's own length; the batch index is
      0 because the tensors were already shifted to the batch's offset. */
  function VarlenDecompose(idx: nat, seqlen: nat): (r: RowIndex)
    requires seqlen > 0
    ensures r.bidb == 0 && 0 <= r.mIdx < seqlen && 0 <= r.bidh
    ensures forall nheads :: Flatten(r, seqlen, nheads) == idx
  {
    RowIndex(idx % seqlen, idx / seqlen, 0)
  }

  lemma PositiveFactors(a: int, b: nat, c: nat, idx: nat)
    requires idx < a * b * c
    ensures a > 0 && b > 0 && c > 0
  {
  }

  /** A fixed-length index below seqlen * nheads * nbatch lands in a batch below nbatch. */
  lemma FixedDecomposeInRange(idx: nat, seqlen: nat, nheads: nat, nbatch: nat)
    requires seqlen > 0 && nheads > 0
    requires idx < seqlen * nheads * nbatch
    ensures FixedDecompose(idx, seqlen, nheads).bidb < nbatch
  {
  }

  lemma MulMonotone(a: nat, b: int, c: int)
    requires b <= c
    ensures a * b <= a * c
  {
  }

  /** A variable-length index below seqlen * nheads * nbatch has a head index
      below nheads * nbatch. */
  lemma VarlenDecomposeInRange(idx: nat, seqlen: nat, nheads: nat, nbatch: nat)
    requires seqlen > 0
    requires idx < seqlen * nheads * nbatch
    ensures VarlenDecompose(idx, seqlen).bidh < nheads * nbatch
  {
  }

  /** Both decompositions give the same position for the same index and length. */
  lemma DecomposeAgreeOnPosition(idx: nat, seqlen: nat, nheads: nat)
    requires seqlen > 0 && nheads > 0
    ensures FixedDecompose(idx, seqlen, nheads).mIdx == VarlenDecompose(idx, seqlen).mIdx
    ensures FixedDecompose(idx, seqlen, nheads).bidh + nheads * FixedDecompose(idx, seqlen, nheads).bidb
            == VarlenDecompose(idx, seqlen).bidh
  {
  }

  lemma MulLessCancel(d: int, a: int, b: int)
    requires d > 0 && a * d < b * d
    ensures a < b
  {
  }

  lemma DivModUnique(x: int, d: int, q: int, m: int)
    requires d > 0 && 0 <= m < d && x == q * d + m
    ensures x / d == q && x % d == m
  {
    var q', m' := x / d, x % d;
    assert x == q' * d + m';
    assert q * d < (q' + 1) * d;
    MulLessCancel(d, q, q' + 1);
    assert q' * d < (q + 1) * d;
    MulLessCancel(d, q', q + 1);
  }

  /** Decomposition inverts flattening on every in-range coordinate. */
  lemma {:induction false} FixedDecomposeFlatten(r: RowIndex, seqlen: nat, nheads: nat)
    requires seqlen > 0 && nheads > 0
    requires 0 <= r.mIdx < seqlen && 0 <= r.bidh < nheads && 0 <= r.bidb
    ensures Flatten(r, seqlen, nheads) >= 0
    ensures FixedDecompose(Flatten(r, seqlen, nheads), seqlen, nheads) == r
  {
    var q := r.bidh + nheads * r.bidb;
    assert q >= 0;
    var idx := r.mIdx + seqlen * q;
    assert idx == q * seqlen + r.mIdx;
    DivModUnique(idx, seqlen, q, r.mIdx);
    assert q == r.bidb * nheads + r.bidh;
    DivModUnique(q, nheads, r.bidb, r.bidh);
  }

  /** The decomposition of an index below max_idx: the fixed-length chain of
      two divisions, or the single variable-length division. */
  function Decompose(cfg: Config, p: Params, seqlen: int, idx: nat): (r: RowIndex)
    requires p.Valid(cfg)
    requires !cfg.varlen ==> seqlen == p.shape.seqlen
    requires idx < MaxIdx(p.shape, seqlen)
    ensures r.Valid() && 0 <= r.mIdx < seqlen && 0 <= r.bidh
    ensures Flatten(r, seqlen, p.shape.nheads) == idx
    ensures !cfg.varlen ==> r.bidh < p.shape.nheads && r.bidb < p.shape.nbatch
    ensures cfg.varlen ==> r.bidb == 0 && r.bidh < p.shape.nheads * p.shape.nbatch
  {
    PositiveFactors(seqlen, p.shape.nheads, p.shape.nbatch, idx);
    if !cfg.varlen then
      FixedDecomposeInRange(idx, p.seqlenDivisor, p.headDivisor, p.shape.nbatch);
      FixedDecompose(idx, p.seqlenDivisor, p.headDivisor)
    else
      VarlenDecomposeInRange(idx, seqlen, p.shape.nheads, p.shape.nbatch);
      VarlenDecompose(idx, seqlen)
  }

  /** The per-row entry the kernel precomputes: the decomposition of the index,
      with the batch overwritten by -1 when the index is at or past max_idx. */
  function ResolveRow(cfg: Config, p: Params, seqlen: int, idx: nat): (r: RowIndex)
    requires p.Valid(cfg)
    requires !cfg.varlen ==> seqlen == p.shape.seqlen
    ensures r.Valid() <==> idx < MaxIdx(p.shape, seqlen)
    ensures !r.Valid() ==> r.bidb == -1
    ensures r.Valid() ==> r == Decompose(cfg, p, seqlen, idx)
  {
    if idx >= MaxIdx(p.shape, seqlen) then RowIndex(0, 0, -1) else Decompose(cfg, p, seqlen, idx)
  }

  /** Two different valid indices never resolve to the same row, so every output
      coordinate has at most one writer. */
  lemma ResolveInjective(cfg: Config, p: Params, seqlen: int, i: nat, j: nat)
    requires p.Valid(cfg)
    requires !cfg.varlen ==> seqlen == p.shape.seqlen
    requires i != j
    requires ResolveRow(cfg, p, seqlen, i).Valid() && ResolveRow(cfg, p, seqlen, j).Valid()
    ensures ResolveRow(cfg, p, seqlen, i) != ResolveRow(cfg, p, seqlen, j)
  {
  }

  /** An in-range coordinate flattens to an index below seqlen * nheads * nbatch. */
  lemma FlattenBelowMax(r: RowIndex, sl: nat, nh: nat, nb: nat)
    requires 0 <= r.mIdx < sl && 0 <= r.bidh < nh && 0 <= r.bidb < nb
    ensures Flatten(r, sl, nh) < sl * nh * nb
  {
    var q := r.bidh + nh * r.bidb;
    assert sl * (q + 1) == sl * q + sl;
    assert q + 1 <= nh * (r.bidb + 1);
    MulMonotone(sl, q + 1, nh * (r.bidb + 1));
    MulMonotone(nh, r.bidb + 1, nb);
    MulMonotone(sl, nh * (r.bidb + 1), nh * nb);
    assert sl * (nh * nb) == sl * nh * nb;
  }

  /** Every in-range coordinate of a fixed-length batch set is reached by exactly
      the index it flattens to. */
  lemma ResolveFlattenRoundTrip(cfg: Config, p: Params, r: RowIndex)
    requires p.Valid(cfg) && !cfg.varlen
    requires 0 <= r.mIdx < p.shape.seqlen && 0 <= r.bidh < p.shape.nheads && 0 <= r.bidb < p.shape.nbatch
    ensures Flatten(r, p.shape.seqlen, p.shape.nheads) >= 0
    ensures ResolveRow(cfg, p, p.shape.seqlen, Flatten(r, p.shape.seqlen, p.shape.nheads)) == r
  {
    FixedDecomposeFlatten(r, p.shape.seqlen, p.shape.nheads);
    FlattenBelowMax(r, p.shape.seqlen, p.shape.nheads, p.shape.nbatch);
  }

  /** Linear index of tile row `mi` of block `mBlock`. */
  function RowIdx(cfg: Config, mBlock: nat, mi: nat): nat
  {
    mBlock * cfg.blockM + mi
  }

  /** Tile row `mi` of block `mBlock` lies below max_idx. */
  predicate LiveRow(cfg: Config, p: Params, w: Window, mBlock: nat, mi: nat)
  {
    RowIdx(cfg, mBlock, mi) < MaxIdx(p.shape, w.seqlen)
  }

  /** No two valid rows of a tile resolve to the same coordinates. */
  predicate DistinctValidRows(rows: seq<RowIndex>)
  {
    forall i, j :: 0 <= i < j < |rows| && rows[i].Valid() && rows[j].Valid() ==> rows[i] != rows[j]
  }

  /** The per-row (position, head, batch) table of a tile, computed once before
      the partial outputs are loaded. */
  function PrecomputeRows(cfg: Config, p: Params, w: Window, mBlock: nat): (rows: seq<RowIndex>)
    requires p.Valid(cfg)
    requires !cfg.varlen ==> w.seqlen == p.shape.seqlen
    ensures |rows| == cfg.blockM
    ensures forall mi :: 0 <= mi < |rows| ==>
              (rows[mi].Valid() <==> RowIdx(cfg, mBlock, mi) < MaxIdx(p.shape, w.seqlen))
    ensures forall mi :: 0 <= mi < |rows| && rows[mi].Valid() ==>
              0 <= rows[mi].mIdx < w.seqlen && 0 <= rows[mi].bidh &&
              Flatten(rows[mi], w.seqlen, p.shape.nheads) == RowIdx(cfg, mBlock, mi)
    ensures forall mi :: 0 <= mi < |rows| && LiveRow(cfg, p, w, mBlock, mi) ==>
              rows[mi] == Decompose(cfg, p, w.seqlen, RowIdx(cfg, mBlock, mi))
    ensures DistinctValidRows(rows)
  {
    seq(cfg.blockM, mi requires 0 <= mi => ResolveRow(cfg, p, w.seqlen, RowIdx(cfg, mBlock, mi)))
  }

  // ---------------------------------------------------------------------------
  // Column predicate

  /** A column is moved when the tile has no ragged edge, or when the vector
      transfer it belongs to starts below the head dimension. */
  predicate ColAllowed(cfg: Config, headDim: nat, col: nat)
    requires cfg.elemsPerLoad > 0
  {
    cfg.isEvenK || (col / cfg.elemsPerLoad) * cfg.elemsPerLoad < headDim
  }

  /** When the head dimension is a whole number of transfers, the predicate
      admits exactly the columns below it. */
  lemma ColAllowedExact(cfg: Config, headDim: nat, col: nat)
    requires cfg.elemsPerLoad > 0 && !cfg.isEvenK
    requires headDim % cfg.elemsPerLoad == 0
    ensures ColAllowed(cfg, headDim, col) <==> col < headDim
  {
    var e := cfg.elemsPerLoad;
    var c0 := (col / e) * e;
    assert col == c0 + col % e;
    assert headDim == (headDim / e) * e;
    if c0 < headDim {
      assert col / e < headDim / e by {
        if col / e >= headDim / e {
          MulMonotone(e, headDim / e, col / e);
          assert false;
        }
      }
      assert col / e + 1 <= headDim / e;
      MulMonotone(e, col / e + 1, headDim / e);
      assert col < headDim;
    }
  }
}
