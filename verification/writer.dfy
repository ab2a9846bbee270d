/** Steps 5 and 7 of the kernel: the final statistic and the accumulated output
    are stored at the resolved coordinates of every valid row, and nowhere else. */
module Writer {
  import opened Layout
  import opened Pipeline

  /** Coordinates (position, column, head, batch) of the final output. */
  datatype OutIndex = OutIndex(pos: int, col: int, head: int, batch: int)

  /** Coordinates (position, head, batch) of the final statistic. */
  datatype LseOutIndex = LseOutIndex(pos: int, head: int, batch: int)

  function OutKey(w: Window, r: RowIndex, col: nat): OutIndex
  {
    OutIndex(w.offset + r.mIdx, col, r.bidh, r.bidb)
  }

  function LseKey(w: Window, r: RowIndex): LseOutIndex
  {
    LseOutIndex(w.offset + r.mIdx, r.bidh, r.bidb)
  }

  /** The row an output coordinate of window `w` belongs to. */
  function KeyRow(w: Window, k: OutIndex): RowIndex
  {
    RowIndex(k.pos - w.offset, k.head, k.batch)
  }

  /** Every output coordinate names its row and column, so distinct rows or
      columns of one window never share one. */
  lemma KeyRowOutKey(w: Window, r: RowIndex, col: nat)
    ensures KeyRow(w, OutKey(w, r, col)) == r && OutKey(w, r, col).col == col
  {
  }

  /** `k` is an admitted column of row `r`. */
  predicate InRow(cfg: Config, headDim: nat, w: Window, r: RowIndex, k: OutIndex)
    requires cfg.Valid()
  {
    KeyRow(w, k) == r && 0 <= k.col < cfg.headDimTile && ColAllowed(cfg, headDim, k.col)
  }

  /** `k` is an admitted column of one of the valid rows below `mEnd`. */
  predicate InTile(cfg: Config, headDim: nat, w: Window, rows: seq<RowIndex>, mEnd: nat, k: OutIndex)
    requires cfg.Valid() && mEnd <= |rows|
  {
    KeyRow(w, k).Valid() && KeyRow(w, k) in rows[..mEnd] && 0 <= k.col < cfg.headDimTile && ColAllowed(cfg, headDim, k.col)
  }

  /** Stores one row of the converted accumulator in every admitted column. */
  method WriteRow(cfg: Config, headDim: nat, w: Window, r: RowIndex, accRow: seq<real>,
                  out0: map<OutIndex, real>)
    returns (out: map<OutIndex, real>)
    requires cfg.Valid() && |accRow| == cfg.headDimTile
    ensures forall k :: k in out <==> k in out0 || InRow(cfg, headDim, w, r, k)
    ensures forall col :: 0 <= col < cfg.headDimTile && ColAllowed(cfg, headDim, col) ==>
              OutKey(w, r, col) in out && out[OutKey(w, r, col)] == accRow[col]
    ensures forall k :: k in out0 && !InRow(cfg, headDim, w, r, k) ==> k in out && out[k] == out0[k]
  {
    out := out0;
    var c := 0;
    while c < cfg.headDimTile
      invariant 0 <= c <= cfg.headDimTile
      invariant forall k :: k in out <==> k in out0 || (InRow(cfg, headDim, w, r, k) && k.col < c)
      invariant forall col :: 0 <= col < c && ColAllowed(cfg, headDim, col) ==>
                  OutKey(w, r, col) in out && out[OutKey(w, r, col)] == accRow[col]
      invariant forall k :: k in out0 && !InRow(cfg, headDim, w, r, k) ==> out[k] == out0[k]
    {
      if cfg.isEvenK || ColAllowed(cfg, headDim, c) {
        KeyRowOutKey(w, r, c);
        out := out[OutKey(w, r, c) := accRow[c]];
      }
      c := c + 1;
    }
  }

  /** The coordinates present after storing rows `0 .. m-1`. */
  ghost predicate KeysUpTo(cfg: Config, headDim: nat, w: Window, rows: seq<RowIndex>,
                           out0: map<OutIndex, real>, out: map<OutIndex, real>, m: nat)
    requires cfg.Valid() && m <= |rows|
  {
    forall k :: k in out <==> k in out0 || InTile(cfg, headDim, w, rows, m, k)
  }

  /** Rows `0 .. m-1` hold the accumulator. */
  ghost predicate ValuesUpTo(cfg: Config, headDim: nat, w: Window, rows: seq<RowIndex>, acc: seq<seq<real>>,
                             out: map<OutIndex, real>, m: nat)
    requires cfg.Valid() && |rows| == cfg.blockM && AccShape(cfg, acc) && m <= cfg.blockM
  {
    forall i, col ::
      (0 <= i < m && 0 <= col < cfg.headDimTile && rows[i].Valid() && ColAllowed(cfg, headDim, col)) ==>
      OutKey(w, rows[i], col) in out && out[OutKey(w, rows[i], col)] == acc[i][col]
  }

  /** Every coordinate rows `0 .. m-1` do not own keeps its previous contents. */
  ghost predicate FrameUpTo(cfg: Config, headDim: nat, w: Window, rows: seq<RowIndex>,
                            out0: map<OutIndex, real>, out: map<OutIndex, real>, m: nat)
    requires cfg.Valid() && m <= |rows|
  {
    forall k :: k in out0 && !InTile(cfg, headDim, w, rows, m, k) ==> k in out && out[k] == out0[k]
  }

  /** The write-back has stored rows `0 .. m-1` and touched nothing else. */
  ghost predicate WrittenUpTo(cfg: Config, headDim: nat, w: Window, rows: seq<RowIndex>, acc: seq<seq<real>>,
                              out0: map<OutIndex, real>, out: map<OutIndex, real>, m: nat)
    requires cfg.Valid() && |rows| == cfg.blockM && AccShape(cfg, acc) && m <= cfg.blockM
  {
    && KeysUpTo(cfg, headDim, w, rows, out0, out, m)
    && ValuesUpTo(cfg, headDim, w, rows, acc, out, m)
    && FrameUpTo(cfg, headDim, w, rows, out0, out, m)
  }

  /** Extending the tile prefix by one row adds exactly that row's admitted columns. */
  lemma InTileStep(cfg: Config, headDim: nat, w: Window, rows: seq<RowIndex>, m: nat, k: OutIndex)
    requires cfg.Valid() && m < |rows|
    ensures InTile(cfg, headDim, w, rows, m + 1, k)
            <==> InTile(cfg, headDim, w, rows, m, k) || (rows[m].Valid() && InRow(cfg, headDim, w, rows[m], k))
  {
    assert rows[..m + 1] == rows[..m] + [rows[m]];
  }

  lemma KeysAfterRow(cfg: Config, headDim: nat, w: Window, rows: seq<RowIndex>,
                     out0: map<OutIndex, real>, outM: map<OutIndex, real>, out: map<OutIndex, real>, m: nat)
    requires cfg.Valid() && m < |rows| && rows[m].Valid()
    requires KeysUpTo(cfg, headDim, w, rows, out0, outM, m)
    requires forall k :: k in out <==> k in outM || InRow(cfg, headDim, w, rows[m], k)
    ensures KeysUpTo(cfg, headDim, w, rows, out0, out, m + 1)
  {
    forall k
      ensures k in out <==> k in out0 || InTile(cfg, headDim, w, rows, m + 1, k)
    {
      InTileStep(cfg, headDim, w, rows, m, k);
    }
  }

  lemma FrameAfterRow(cfg: Config, headDim: nat, w: Window, rows: seq<RowIndex>,
                      out0: map<OutIndex, real>, outM: map<OutIndex, real>, out: map<OutIndex, real>, m: nat)
    requires cfg.Valid() && m < |rows| && rows[m].Valid()
    requires FrameUpTo(cfg, headDim, w, rows, out0, outM, m)
    requires forall k :: k in outM && !InRow(cfg, headDim, w, rows[m], k) ==> k in out && out[k] == outM[k]
    ensures FrameUpTo(cfg, headDim, w, rows, out0, out, m + 1)
  {
    forall k | k in out0 && !InTile(cfg, headDim, w, rows, m + 1, k)
      ensures k in out && out[k] == out0[k]
    {
      InTileStep(cfg, headDim, w, rows, m, k);
    }
  }

  /** Storing row `m` leaves the rows before it in place: their coordinates are
      not row `m`'s. */
  lemma ValuesAfterRow(cfg: Config, headDim: nat, w: Window, rows: seq<RowIndex>, acc: seq<seq<real>>,
                       outM: map<OutIndex, real>, out: map<OutIndex, real>, m: nat)
    requires cfg.Valid() && |rows| == cfg.blockM && AccShape(cfg, acc) && m < cfg.blockM
    requires DistinctValidRows(rows) && rows[m].Valid()
    requires ValuesUpTo(cfg, headDim, w, rows, acc, outM, m)
    requires forall col :: 0 <= col < cfg.headDimTile && ColAllowed(cfg, headDim, col) ==>
               OutKey(w, rows[m], col) in out && out[OutKey(w, rows[m], col)] == acc[m][col]
    requires forall k :: k in outM && !InRow(cfg, headDim, w, rows[m], k) ==> k in out && out[k] == outM[k]
    ensures ValuesUpTo(cfg, headDim, w, rows, acc, out, m + 1)
  {
    forall i, col | 0 <= i < m && 0 <= col < cfg.headDimTile && rows[i].Valid() && ColAllowed(cfg, headDim, col)
      ensures OutKey(w, rows[i], col) in out && out[OutKey(w, rows[i], col)] == acc[i][col]
    {
      KeyRowOutKey(w, rows[i], col);
      assert rows[i] != rows[m];
    }
  }

  /** Stores valid row `m` of the accumulator. */
  method WriteTileRow(cfg: Config, headDim: nat, w: Window, rows: seq<RowIndex>, acc: seq<seq<real>>,
                      out0: map<OutIndex, real>, outM: map<OutIndex, real>, m: nat)
    returns (out: map<OutIndex, real>)
    requires cfg.Valid() && |rows| == cfg.blockM && AccShape(cfg, acc) && m < cfg.blockM
    requires DistinctValidRows(rows) && rows[m].Valid()
    requires WrittenUpTo(cfg, headDim, w, rows, acc, out0, outM, m)
    ensures WrittenUpTo(cfg, headDim, w, rows, acc, out0, out, m + 1)
  {
    out := WriteRow(cfg, headDim, w, rows[m], acc[m], outM);
    KeysAfterRow(cfg, headDim, w, rows, out0, outM, out, m);
    ValuesAfterRow(cfg, headDim, w, rows, acc, outM, out, m);
    FrameAfterRow(cfg, headDim, w, rows, out0, outM, out, m);
  }

  /** An invalid row is skipped: nothing is stored for it. */
  lemma SkipInvalidRow(cfg: Config, headDim: nat, w: Window, rows: seq<RowIndex>, acc: seq<seq<real>>,
                       out0: map<OutIndex, real>, out: map<OutIndex, real>, m: nat)
    requires cfg.Valid() && |rows| == cfg.blockM && AccShape(cfg, acc) && m < cfg.blockM
    requires !rows[m].Valid()
    requires WrittenUpTo(cfg, headDim, w, rows, acc, out0, out, m)
    ensures WrittenUpTo(cfg, headDim, w, rows, acc, out0, out, m + 1)
  {
    forall k
      ensures InTile(cfg, headDim, w, rows, m + 1, k) == InTile(cfg, headDim, w, rows, m, k)
    {
      InTileStep(cfg, headDim, w, rows, m, k);
    }
    assert KeysUpTo(cfg, headDim, w, rows, out0, out, m + 1);
    assert FrameUpTo(cfg, headDim, w, rows, out0, out, m + 1);
  }

  /** The output write-back: every valid row's admitted columns receive the
      accumulator; every other coordinate keeps its previous contents. */
  method WriteO(cfg: Config, headDim: nat, w: Window, rows: seq<RowIndex>, acc: seq<seq<real>>,
                out0: map<OutIndex, real>)
    returns (out: map<OutIndex, real>)
    requires cfg.Valid() && |rows| == cfg.blockM && AccShape(cfg, acc)
    requires DistinctValidRows(rows)
    ensures forall m, col ::
              (0 <= m < cfg.blockM && 0 <= col < cfg.headDimTile && rows[m].Valid() && ColAllowed(cfg, headDim, col)) ==>
              OutKey(w, rows[m], col) in out && out[OutKey(w, rows[m], col)] == acc[m][col]
    ensures forall k :: k in out <==> k in out0 || InTile(cfg, headDim, w, rows, cfg.blockM, k)
    ensures forall k :: k in out0 && !InTile(cfg, headDim, w, rows, cfg.blockM, k) ==> k in out && out[k] == out0[k]
  {
    out := out0;
    var m := 0;
    while m < cfg.blockM
      invariant 0 <= m <= cfg.blockM
      invariant WrittenUpTo(cfg, headDim, w, rows, acc, out0, out, m)
    {
      if rows[m].bidb >= 0 {
        out := WriteTileRow(cfg, headDim, w, rows, acc, out0, out, m);
      } else {
        SkipInvalidRow(cfg, headDim, w, rows, acc, out0, out, m);
      }
      m := m + 1;
    }
  }

  /** The final-statistic coordinate of tile row `mi`, resolved afresh from its
      linear index as step 5 does. */
  function LseRowKey(cfg: Config, p: Params, w: Window, mBlock: nat, mi: nat): LseOutIndex
    requires p.Valid(cfg)
    requires !cfg.varlen ==> w.seqlen == p.shape.seqlen
    requires LiveRow(cfg, p, w, mBlock, mi)
  {
    LseKey(w, Decompose(cfg, p, w.seqlen, RowIdx(cfg, mBlock, mi)))
  }

  /** `k` is the final-statistic coordinate of a live tile row below `mEnd`. */
  ghost predicate InLseTile(cfg: Config, p: Params, w: Window, mBlock: nat, mEnd: nat, k: LseOutIndex)
    requires p.Valid(cfg)
    requires !cfg.varlen ==> w.seqlen == p.shape.seqlen
  {
    exists mi :: 0 <= mi < mEnd && LiveRow(cfg, p, w, mBlock, mi) && k == LseRowKey(cfg, p, w, mBlock, mi)
  }

  /** Two live rows of a tile have different final-statistic coordinates. */
  lemma LseRowKeyInjective(cfg: Config, p: Params, w: Window, mBlock: nat, i: nat, j: nat)
    requires p.Valid(cfg)
    requires !cfg.varlen ==> w.seqlen == p.shape.seqlen
    requires i != j && LiveRow(cfg, p, w, mBlock, i) && LiveRow(cfg, p, w, mBlock, j)
    ensures LseRowKey(cfg, p, w, mBlock, i) != LseRowKey(cfg, p, w, mBlock, j)
  {
    var ri := Decompose(cfg, p, w.seqlen, RowIdx(cfg, mBlock, i));
    var rj := Decompose(cfg, p, w.seqlen, RowIdx(cfg, mBlock, j));
    assert Flatten(ri, w.seqlen, p.shape.nheads) != Flatten(rj, w.seqlen, p.shape.nheads);
  }

  /** The final statistic of live rows `0 .. mi-1` is stored and nothing else changed. */
  ghost predicate LseWrittenUpTo(cfg: Config, p: Params, w: Window, mBlock: nat, lseFinal: seq<real>,
                                 lseOut0: map<LseOutIndex, real>, lseOut: map<LseOutIndex, real>, mi: nat)
    requires p.Valid(cfg)
    requires !cfg.varlen ==> w.seqlen == p.shape.seqlen
    requires |lseFinal| == cfg.blockM && mi <= cfg.blockM
  {
    && (forall k :: k in lseOut <==> k in lseOut0 || InLseTile(cfg, p, w, mBlock, mi, k))
    && (forall i :: 0 <= i < mi && LiveRow(cfg, p, w, mBlock, i) ==>
          LseRowKey(cfg, p, w, mBlock, i) in lseOut && lseOut[LseRowKey(cfg, p, w, mBlock, i)] == lseFinal[i])
    && (forall k :: k in lseOut0 && !InLseTile(cfg, p, w, mBlock, mi, k) ==> k in lseOut && lseOut[k] == lseOut0[k])
  }

  /** Stores the final statistic of tile row `mi` when it is live. */
  method WriteLseRow(cfg: Config, p: Params, w: Window, mBlock: nat, lseFinal: seq<real>,
                     lseOut0: map<LseOutIndex, real>, lseOutM: map<LseOutIndex, real>, mi: nat)
    returns (lseOut: map<LseOutIndex, real>)
    requires p.Valid(cfg)
    requires !cfg.varlen ==> w.seqlen == p.shape.seqlen
    requires |lseFinal| == cfg.blockM && mi < cfg.blockM
    requires LseWrittenUpTo(cfg, p, w, mBlock, lseFinal, lseOut0, lseOutM, mi)
    ensures LseWrittenUpTo(cfg, p, w, mBlock, lseFinal, lseOut0, lseOut, mi + 1)
  {
    lseOut := lseOutM;
    if RowIdx(cfg, mBlock, mi) < MaxIdx(p.shape, w.seqlen) {
      var key := LseRowKey(cfg, p, w, mBlock, mi);
      forall i | 0 <= i < mi && LiveRow(cfg, p, w, mBlock, i)
        ensures LseRowKey(cfg, p, w, mBlock, i) != key
      {
        LseRowKeyInjective(cfg, p, w, mBlock, i, mi);
      }
      lseOut := lseOutM[key := lseFinal[mi]];
    }
  }

  /** The final-statistic write-back: the row's merged statistic goes to the
      resolved coordinates of every live row (once per row, by the lane that owns
      split slot 0); every other coordinate keeps its previous contents. */
  method WriteFinalLse(cfg: Config, p: Params, w: Window, mBlock: nat, lseFinal: seq<real>,
                       lseOut0: map<LseOutIndex, real>)
    returns (lseOut: map<LseOutIndex, real>)
    requires p.Valid(cfg)
    requires !cfg.varlen ==> w.seqlen == p.shape.seqlen
    requires |lseFinal| == cfg.blockM
    ensures forall mi :: 0 <= mi < cfg.blockM && LiveRow(cfg, p, w, mBlock, mi) ==>
              LseRowKey(cfg, p, w, mBlock, mi) in lseOut && lseOut[LseRowKey(cfg, p, w, mBlock, mi)] == lseFinal[mi]
    ensures forall k :: k in lseOut <==> k in lseOut0 || InLseTile(cfg, p, w, mBlock, cfg.blockM, k)
    ensures forall k :: k in lseOut0 && !InLseTile(cfg, p, w, mBlock, cfg.blockM, k) ==>
              k in lseOut && lseOut[k] == lseOut0[k]
  {
    lseOut := lseOut0;
    var mi := 0;
    while mi < cfg.blockM
      invariant 0 <= mi <= cfg.blockM
      invariant LseWrittenUpTo(cfg, p, w, mBlock, lseFinal, lseOut0, lseOut, mi)
    {
      lseOut := WriteLseRow(cfg, p, w, mBlock, lseFinal, lseOut0, lseOut, mi);
      mi := mi + 1;
    }
  }
}
