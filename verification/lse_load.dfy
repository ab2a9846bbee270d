/** Step 1 of the kernel: each split's partial log-sum-exp statistic is copied
    into the scratch table, and the split slots past the split count are padded
    with the no-contribution sentinel. */
module LseLoad {
  import opened Layout

  /** A scratch statistic slot: a split's partial log-sum-exp, or the sentinel
      for a split that carries no probability mass (negative infinity in the
      kernel). */
  datatype Stat = NoMass | Lse(value: real)

  /** Coordinates (position, split, head, batch) of the partial statistic tensor;
      the position is absolute in the (possibly packed) sequence dimension. */
  datatype LseIndex = LseIndex(pos: int, split: int, head: int, batch: int)

  /** The partial statistic tensor, an input the kernel only reads. */
  type LsePartial = LseIndex -> real

  /** The scratch table holds kMaxSplits split slots of kBlockM rows each. */
  predicate ScratchShape(cfg: Config, sc: seq<seq<Stat>>)
  {
    |sc| == cfg.MaxSplits() && forall si :: 0 <= si < |sc| ==> |sc[si]| == cfg.blockM
  }

  /** The statistic of split `si` for the row `r` resolves to. */
  function PartialStat(w: Window, lse: LsePartial, r: RowIndex, si: nat): real
  {
    lse(LseIndex(w.offset + r.mIdx, si, r.bidh, r.bidb))
  }

  /** Writes one resolved row: the statistic of every existing split, the
      sentinel in every slot past the split count. */
  method FillRow(cfg: Config, numSplits: nat, w: Window, lse: LsePartial, r: RowIndex, mi: nat,
                 sc0: seq<seq<Stat>>)
    returns (sc: seq<seq<Stat>>)
    requires ScratchShape(cfg, sc0) && mi < cfg.blockM
    ensures ScratchShape(cfg, sc)
    ensures forall si :: 0 <= si < numSplits && si < cfg.MaxSplits() ==>
              sc[si][mi] == Lse(PartialStat(w, lse, r, si))
    ensures forall si :: numSplits <= si < cfg.MaxSplits() ==> sc[si][mi] == NoMass
    ensures forall si, m :: 0 <= si < cfg.MaxSplits() && 0 <= m < cfg.blockM && m != mi ==>
              sc[si][m] == sc0[si][m]
  {
    sc := sc0;
    var s := 0;
    while s < cfg.MaxSplits()
      invariant 0 <= s <= cfg.MaxSplits()
      invariant ScratchShape(cfg, sc)
      invariant forall si :: 0 <= si < s && si < numSplits ==> sc[si][mi] == Lse(PartialStat(w, lse, r, si))
      invariant forall si :: numSplits <= si < s ==> sc[si][mi] == NoMass
      invariant forall si, m :: 0 <= si < cfg.MaxSplits() && 0 <= m < cfg.blockM && (m != mi || si >= s) ==>
                  sc[si][m] == sc0[si][m]
    {
      var v := if s < numSplits then Lse(PartialStat(w, lse, r, s)) else NoMass;
      sc := sc[s := sc[s][mi := v]];
      s := s + 1;
    }
  }

  /** Fills the scratch table for tile `mBlock` of the batch whose window is `w`.
      Rows past max_idx are left as they were: nothing downstream reads them. */
  method LoadLseScratch(cfg: Config, p: Params, w: Window, mBlock: nat, lse: LsePartial,
                        sc0: seq<seq<Stat>>)
    returns (sc: seq<seq<Stat>>)
    requires p.Valid(cfg)
    requires !cfg.varlen ==> w.seqlen == p.shape.seqlen
    requires ScratchShape(cfg, sc0)
    ensures ScratchShape(cfg, sc)
    ensures forall si, mi :: 0 <= si < p.shape.numSplits && 0 <= mi < cfg.blockM && LiveRow(cfg, p, w, mBlock, mi)
              ==> sc[si][mi] == Lse(PartialStat(w, lse, Decompose(cfg, p, w.seqlen, RowIdx(cfg, mBlock, mi)), si))
    ensures forall si, mi :: p.shape.numSplits <= si < cfg.MaxSplits() && 0 <= mi < cfg.blockM && LiveRow(cfg, p, w, mBlock, mi)
              ==> sc[si][mi] == NoMass
    ensures forall si, mi :: 0 <= si < cfg.MaxSplits() && 0 <= mi < cfg.blockM && !LiveRow(cfg, p, w, mBlock, mi)
              ==> sc[si][mi] == sc0[si][mi]
  {
    sc := sc0;
    var mi := 0;
    while mi < cfg.blockM
      invariant 0 <= mi <= cfg.blockM
      invariant ScratchShape(cfg, sc)
      invariant forall si, m :: 0 <= si < p.shape.numSplits && 0 <= m < mi && LiveRow(cfg, p, w, mBlock, m)
                  ==> sc[si][m] == Lse(PartialStat(w, lse, Decompose(cfg, p, w.seqlen, RowIdx(cfg, mBlock, m)), si))
      invariant forall si, m :: p.shape.numSplits <= si < cfg.MaxSplits() && 0 <= m < mi && LiveRow(cfg, p, w, mBlock, m)
                  ==> sc[si][m] == NoMass
      invariant forall si, m :: 0 <= si < cfg.MaxSplits() && 0 <= m < cfg.blockM && (m >= mi || !LiveRow(cfg, p, w, mBlock, m))
                  ==> sc[si][m] == sc0[si][m]
    {
      var idx := RowIdx(cfg, mBlock, mi);
      if idx < MaxIdx(p.shape, w.seqlen) {
        var r := Decompose(cfg, p, w.seqlen, idx);
        sc := FillRow(cfg, p.shape.numSplits, w, lse, r, mi, sc);
      }
      mi := mi + 1;
    }
  }
}
