/** Steps 2 and 6 of the kernel: the partial-output tiles of the splits stream
    through a ring of kStages scratch stages, and each split's tile is weighted
    into a zero-initialised accumulator. */
module Pipeline {
  import opened Layout

  /** Coordinates (position, column, split, head, batch) of the partial output. */
  datatype OIndex = OIndex(pos: int, col: int, split: int, head: int, batch: int)

  /** The partial output tensor, an input the kernel only reads. */
  type OPartial = OIndex -> real

  /** One element of a scratch stage: whatever an earlier use left there, or the
      element of a split that a prefetch brought in. Only a `Loaded` cell has a
      value, so reading a stale one cannot go unnoticed. */
  datatype Cell = Stale | Loaded(split: nat, value: real)

  /** One ring stage, kBlockM rows by kHeadDim columns. */
  type Stage = seq<seq<Cell>>

  predicate StageShape(cfg: Config, st: Stage)
  {
    |st| == cfg.blockM && forall m :: 0 <= m < |st| ==> |st[m]| == cfg.headDimTile
  }

  predicate RingShape(cfg: Config, ring: seq<Stage>)
  {
    |ring| == kStages && forall i :: 0 <= i < |ring| ==> StageShape(cfg, ring[i])
  }

  /** Per-row weights of every split slot, as the merge left them in scratch. */
  predicate WeightShape(cfg: Config, wt: seq<seq<real>>)
  {
    |wt| == cfg.MaxSplits() && forall j :: 0 <= j < |wt| ==> |wt[j]| == cfg.blockM
  }

  /** The per-thread accumulator tile, kBlockM rows by kHeadDim columns. */
  predicate AccShape(cfg: Config, acc: seq<seq<real>>)
  {
    |acc| == cfg.blockM && forall m :: 0 <= m < |acc| ==> |acc[m]| == cfg.headDimTile
  }

  /** The element of split `split` that a tile row resolved to `r` reads at column `col`. */
  function PartialAt(o: OPartial, w: Window, r: RowIndex, col: nat, split: nat): real
  {
    o(OIndex(w.offset + r.mIdx, col, split, r.bidh, r.bidb))
  }

  // ---------------------------------------------------------------------------
  // Prefetch

  /** Stage `st` is `st0` with split `split` copied in: in every valid row whose
      gate is open and every admitted column, and nowhere else. */
  predicate LoadedFrom(cfg: Config, headDim: nat, w: Window, rows: seq<RowIndex>, gate: seq<bool>,
                       o: OPartial, split: nat, st0: Stage, st: Stage)
    requires cfg.Valid() && StageShape(cfg, st0) && StageShape(cfg, st)
    requires |rows| == cfg.blockM && |gate| == cfg.blockM
  {
    forall m, col :: 0 <= m < cfg.blockM && 0 <= col < cfg.headDimTile ==>
      st[m][col] == if rows[m].Valid() && gate[m] && ColAllowed(cfg, headDim, col)
                    then Loaded(split, PartialAt(o, w, rows[m], col, split))
                    else st0[m][col]
  }

  /** Copies split `split` into one stage: every valid row whose gate is open,
      every column the column predicate admits. The prologue opens every gate;
      the split loop opens a row's gate only when its weight is positive. */
  method LoadOPartial(cfg: Config, headDim: nat, w: Window, rows: seq<RowIndex>, gate: seq<bool>,
                      o: OPartial, split: nat, st0: Stage)
    returns (st: Stage)
    requires cfg.Valid()
    requires StageShape(cfg, st0) && |rows| == cfg.blockM && |gate| == cfg.blockM
    ensures StageShape(cfg, st)
    ensures LoadedFrom(cfg, headDim, w, rows, gate, o, split, st0, st)
  {
    st := st0;
    var m := 0;
    while m < cfg.blockM
      invariant 0 <= m <= cfg.blockM
      invariant StageShape(cfg, st)
      invariant forall i, col :: 0 <= i < m && 0 <= col < cfg.headDimTile ==>
                  st[i][col] == if rows[i].Valid() && gate[i] && ColAllowed(cfg, headDim, col)
                                then Loaded(split, PartialAt(o, w, rows[i], col, split))
                                else st0[i][col]
      invariant forall i :: m <= i < cfg.blockM ==> st[i] == st0[i]
    {
      if rows[m].bidb >= 0 && gate[m] {
        var row := st[m];
        var k := 0;
        while k < cfg.headDimTile
          invariant 0 <= k <= cfg.headDimTile
          invariant |row| == cfg.headDimTile
          invariant forall col :: 0 <= col < k ==>
                      row[col] == if ColAllowed(cfg, headDim, col)
                                  then Loaded(split, PartialAt(o, w, rows[m], col, split))
                                  else st0[m][col]
          invariant forall col :: k <= col < cfg.headDimTile ==> row[col] == st0[m][col]
        {
          if cfg.isEvenK || ColAllowed(cfg, headDim, k) {
            row := row[k := Loaded(split, PartialAt(o, w, rows[m], k, split))];
          }
          k := k + 1;
        }
        st := st[m := row];
      }
      m := m + 1;
    }
  }

  /** Stage `j % kStages` holds split `j` in every valid row and admitted column. */
  predicate PrologueFilled(cfg: Config, headDim: nat, w: Window, rows: seq<RowIndex>, o: OPartial,
                           ring: seq<Stage>, j: nat)
    requires cfg.Valid() && RingShape(cfg, ring) && |rows| == cfg.blockM
  {
    forall m, col ::
      (0 <= m < cfg.blockM && 0 <= col < cfg.headDimTile && rows[m].Valid() && ColAllowed(cfg, headDim, col)) ==>
      ring[j % kStages][m][col] == Loaded(j, PartialAt(o, w, rows[m], col, j))
  }

  /** The gate of a prologue load: every row is open; validity alone decides. */
  function AllOpen(cfg: Config): (gate: seq<bool>)
    ensures |gate| == cfg.blockM
    ensures forall m :: 0 <= m < cfg.blockM ==> gate[m]
  {
    seq(cfg.blockM, _ => true)
  }

  /** Issues splits 0 .. kStages-2 (those that exist) into stages 0 .. kStages-2
      before the merge runs. A loaded stage changes only in valid rows and
      admitted columns. */
  method Prologue(cfg: Config, headDim: nat, numSplits: nat, w: Window, rows: seq<RowIndex>,
                  o: OPartial, ring0: seq<Stage>)
    returns (ring: seq<Stage>)
    requires cfg.Valid() && RingShape(cfg, ring0) && |rows| == cfg.blockM
    ensures RingShape(cfg, ring)
    ensures forall j :: 0 <= j < kStages - 1 && j < numSplits ==>
              PrologueFilled(cfg, headDim, w, rows, o, ring, j)
    ensures forall j :: 0 <= j < kStages - 1 && j < numSplits ==>
              LoadedFrom(cfg, headDim, w, rows, AllOpen(cfg), o, j, ring0[j], ring[j])
    ensures forall j :: 0 <= j < kStages && (j >= numSplits || j == kStages - 1) ==> ring[j] == ring0[j]
  {
    ring := ring0;
    var all := AllOpen(cfg);
    var s := 0;
    while s < kStages - 1
      invariant 0 <= s <= kStages - 1
      invariant RingShape(cfg, ring)
      invariant forall j :: 0 <= j < s && j < numSplits ==> PrologueFilled(cfg, headDim, w, rows, o, ring, j)
      invariant forall j :: 0 <= j < s && j < numSplits ==> LoadedFrom(cfg, headDim, w, rows, all, o, j, ring0[j], ring[j])
      invariant forall j :: 0 <= j < kStages && (j >= numSplits || j >= s) ==> ring[j] == ring0[j]
    {
      if s < numSplits {
        var before := ring;
        var st := LoadOPartial(cfg, headDim, w, rows, all, o, s, ring[s]);
        ring := ring[s := st];
        forall j | 0 <= j < s && j < numSplits
          ensures PrologueFilled(cfg, headDim, w, rows, o, ring, j)
        {
          assert ring[j % kStages] == before[j % kStages];
          assert PrologueFilled(cfg, headDim, w, rows, o, before, j);
        }
        assert s % kStages == s;
      }
      s := s + 1;
    }
  }

  // ---------------------------------------------------------------------------
  // Round-robin stage counters

  /** One advance of a stage counter. */
  function NextStage(st: nat): (r: nat)
    requires st < kStages
    ensures r < kStages
  {
    if st < kStages - 1 then st + 1 else 0
  }

  /** A counter started at `start` after `n` advances. */
  function StageAfter(start: nat, n: nat): (r: nat)
    requires start < kStages
    ensures r < kStages
  {
    if n == 0 then start else NextStage(StageAfter(start, n - 1))
  }

  lemma NextStageMod(x: nat)
    ensures NextStage(x % kStages) == (x + 1) % kStages
  {
  }

  /** A counter is its start plus the number of advances, modulo kStages. */
  lemma {:induction false} StageAfterIsMod(start: nat, n: nat)
    requires start < kStages
    ensures StageAfter(start, n) == (start + n) % kStages
  {
    if n > 0 {
      StageAfterIsMod(start, n - 1);
      NextStageMod(start + n - 1);
    }
  }

  /** The stage split `j` is written to: its own index in the prologue, else
      the load counter at the iteration that issues it, kStages-1 splits ahead. */
  function FillStage(j: nat): (r: nat)
    ensures r < kStages
  {
    if j < kStages - 1 then j else StageAfter(kStages - 1, j - (kStages - 1))
  }

  /** Split `j` goes to stage `j mod kStages`. */
  lemma FillStageIsMod(j: nat)
    ensures FillStage(j) == j % kStages
  {
    if j >= kStages - 1 {
      StageAfterIsMod(kStages - 1, j - (kStages - 1));
    }
  }

  /** The kStages - 1 consecutive numbers after `s` miss the residue of `s - 1`. */
  lemma ResidueAhead(s: nat, j: nat)
    requires s <= j < s + kStages - 1
    ensures j % kStages != (s + kStages - 1) % kStages
  {
    var d := j - s;
    assert (s + kStages - 1) - j == kStages - 1 - d;
  }

  /** The ring schedule: the stage drained at iteration `s` is the one split `s`
      was written to; the stage refilled at iteration `s` was drained at
      iteration `s - 1` (or never written, at iteration 0); and the refill never
      lands on a stage that still holds a split waiting to be drained. */
  lemma RingSchedule(s: nat)
    ensures StageAfter(0, s) == FillStage(s)
    ensures s >= 1 ==> StageAfter(kStages - 1, s) == StageAfter(0, s - 1)
    ensures s == 0 ==> forall j :: 0 <= j < kStages - 1 ==> FillStage(j) != StageAfter(kStages - 1, s)
    ensures forall j :: s <= j < s + kStages - 1 ==> FillStage(j) != StageAfter(kStages - 1, s)
  {
    StageAfterIsMod(0, s);
    StageAfterIsMod(kStages - 1, s);
    FillStageIsMod(s);
    if s >= 1 {
      StageAfterIsMod(0, s - 1);
      assert (s - 1) + kStages == s + kStages - 1;
    }
    forall j | s <= j < s + kStages - 1
      ensures FillStage(j) != StageAfter(kStages - 1, s)
    {
      FillStageIsMod(j);
      ResidueAhead(s, j);
    }
  }

  // ---------------------------------------------------------------------------
  // Accumulation

  /** The reference for one output element: the sum, over the first `n` splits
      whose weight for row `m` is positive, of weight times partial element. */
  function WeightedSum(cfg: Config, w: Window, rows: seq<RowIndex>, wt: seq<seq<real>>, o: OPartial,
                       m: nat, col: nat, n: nat): real
    requires WeightShape(cfg, wt) && |rows| == cfg.blockM && m < cfg.blockM && n <= |wt|
  {
    if n == 0 then 0.0
    else WeightedSum(cfg, w, rows, wt, o, m, col, n - 1)
         + (if wt[n - 1][m] > 0.0 then wt[n - 1][m] * PartialAt(o, w, rows[m], col, n - 1) else 0.0)
  }

  /** The same sum with no skip at all. */
  function PlainSum(cfg: Config, w: Window, rows: seq<RowIndex>, wt: seq<seq<real>>, o: OPartial,
                    m: nat, col: nat, n: nat): real
    requires WeightShape(cfg, wt) && |rows| == cfg.blockM && m < cfg.blockM && n <= |wt|
  {
    if n == 0 then 0.0
    else PlainSum(cfg, w, rows, wt, o, m, col, n - 1) + wt[n - 1][m] * PartialAt(o, w, rows[m], col, n - 1)
  }

  /** With non-negative weights the zero-weight skip drops nothing: the skipped
      terms are exactly the zero ones. */
  lemma {:induction false} SkipDropsOnlyZeroTerms(cfg: Config, w: Window, rows: seq<RowIndex>, wt: seq<seq<real>>,
                                                  o: OPartial, m: nat, col: nat, n: nat)
    requires WeightShape(cfg, wt) && |rows| == cfg.blockM && m < cfg.blockM && n <= |wt|
    requires forall j :: 0 <= j < n ==> wt[j][m] >= 0.0
    ensures WeightedSum(cfg, w, rows, wt, o, m, col, n) == PlainSum(cfg, w, rows, wt, o, m, col, n)
  {
    if n > 0 {
      SkipDropsOnlyZeroTerms(cfg, w, rows, wt, o, m, col, n - 1);
    }
  }

  /** With one split of weight 1 the output is that split's partial output. */
  lemma SingleSplitIsIdentity(cfg: Config, w: Window, rows: seq<RowIndex>, wt: seq<seq<real>>,
                              o: OPartial, m: nat, col: nat)
    requires WeightShape(cfg, wt) && |rows| == cfg.blockM && m < cfg.blockM && 1 <= |wt|
    requires wt[0][m] == 1.0
    ensures WeightedSum(cfg, w, rows, wt, o, m, col, 1) == PartialAt(o, w, rows[m], col, 0)
  {
  }

  /** Adds `scale` times one row of a drained stage into the same accumulator
      row, in every admitted column. */
  method AccumulateRow(cfg: Config, headDim: nat, scale: real, cur: seq<Cell>, row0: seq<real>)
    returns (row: seq<real>)
    requires cfg.Valid()
    requires |cur| == cfg.headDimTile && |row0| == cfg.headDimTile
    requires forall col :: 0 <= col < cfg.headDimTile && ColAllowed(cfg, headDim, col) ==> cur[col].Loaded?
    ensures |row| == cfg.headDimTile
    ensures forall col :: 0 <= col < cfg.headDimTile ==>
              row[col] == row0[col] + (if ColAllowed(cfg, headDim, col) then scale * cur[col].value else 0.0)
  {
    row := row0;
    var k := 0;
    while k < cfg.headDimTile
      invariant 0 <= k <= cfg.headDimTile
      invariant |row| == cfg.headDimTile
      invariant forall col :: 0 <= col < k ==>
                  row[col] == row0[col] + (if ColAllowed(cfg, headDim, col) then scale * cur[col].value else 0.0)
      invariant forall col :: k <= col < cfg.headDimTile ==> row[col] == row0[col]
    {
      if cfg.isEvenK || ColAllowed(cfg, headDim, k) {
        row := row[k := row[k] + scale * cur[k].value];
      } else {
        assert row[k] == row0[k] + 0.0;
      }
      k := k + 1;
    }
  }

  /** What accumulating one drained stage adds to row `m`, column `col`: the
      weighted element for a valid row with positive weight in an admitted
      column, nothing otherwise. */
  function Contribution(cfg: Config, headDim: nat, rows: seq<RowIndex>, scale: seq<real>, cur: Stage,
                        m: nat, col: nat): real
    requires cfg.Valid() && |rows| == cfg.blockM && |scale| == cfg.blockM && StageShape(cfg, cur)
    requires m < cfg.blockM && col < cfg.headDimTile
  {
    if rows[m].Valid() && scale[m] > 0.0 && ColAllowed(cfg, headDim, col) && cur[m][col].Loaded?
    then scale[m] * cur[m][col].value else 0.0
  }

  /** Adds one drained stage into the accumulator, weighted by `scale`, in every
      valid row whose weight is positive and every admitted column. Only such
      cells are read, so they are required to be loaded. */
  method AccumulateSplit(cfg: Config, headDim: nat, rows: seq<RowIndex>, scale: seq<real>, cur: Stage,
                         acc0: seq<seq<real>>)
    returns (acc: seq<seq<real>>)
    requires cfg.Valid()
    requires |rows| == cfg.blockM && |scale| == cfg.blockM && StageShape(cfg, cur) && AccShape(cfg, acc0)
    requires forall m, col :: (0 <= m < cfg.blockM && 0 <= col < cfg.headDimTile &&
               rows[m].Valid() && scale[m] > 0.0 && ColAllowed(cfg, headDim, col)) ==> cur[m][col].Loaded?
    ensures AccShape(cfg, acc)
    ensures forall m, col :: 0 <= m < cfg.blockM && 0 <= col < cfg.headDimTile ==>
              acc[m][col] == acc0[m][col] + Contribution(cfg, headDim, rows, scale, cur, m, col)
  {
    acc := acc0;
    var m := 0;
    while m < cfg.blockM
      invariant 0 <= m <= cfg.blockM
      invariant AccShape(cfg, acc)
      invariant forall i, col :: 0 <= i < m && 0 <= col < cfg.headDimTile ==>
                  acc[i][col] == acc0[i][col] + Contribution(cfg, headDim, rows, scale, cur, i, col)
      invariant forall i :: m <= i < cfg.blockM ==> acc[i] == acc0[i]
    {
      if rows[m].bidb >= 0 && scale[m] > 0.0 {
        var row := AccumulateRow(cfg, headDim, scale[m], cur[m], acc[m]);
        acc := acc[m := row];
      } else {
        assert forall col :: 0 <= col < cfg.headDimTile ==> acc[m][col] == acc0[m][col] + 0.0;
      }
      m := m + 1;
    }
  }

  /** Stage `j % kStages` holds split `j` wherever split `j` will be accumulated:
      in every valid row whose weight for `j` is positive, in every admitted column. */
  predicate StageHolds(cfg: Config, headDim: nat, w: Window, rows: seq<RowIndex>, wt: seq<seq<real>>,
                       o: OPartial, ring: seq<Stage>, j: nat)
    requires cfg.Valid() && RingShape(cfg, ring) && |rows| == cfg.blockM && WeightShape(cfg, wt) && j < |wt|
  {
    forall m, col ::
      (0 <= m < cfg.blockM && 0 <= col < cfg.headDimTile &&
       rows[m].Valid() && wt[j][m] > 0.0 && ColAllowed(cfg, headDim, col)) ==>
      ring[j % kStages][m][col] == Loaded(j, PartialAt(o, w, rows[m], col, j))
  }

  /** The accumulator row `m`, column `col` must reach after `n` splits. */
  function Expected(cfg: Config, headDim: nat, w: Window, rows: seq<RowIndex>, wt: seq<seq<real>>,
                    o: OPartial, m: nat, col: nat, n: nat): real
    requires cfg.Valid() && WeightShape(cfg, wt) && |rows| == cfg.blockM && m < cfg.blockM && n <= |wt|
  {
    if rows[m].Valid() && ColAllowed(cfg, headDim, col) then WeightedSum(cfg, w, rows, wt, o, m, col, n) else 0.0
  }

  /** Splits `s .. s + kStages - 2` that exist are waiting in their stages. */
  predicate Pending(cfg: Config, headDim: nat, numSplits: nat, w: Window, rows: seq<RowIndex>,
                    wt: seq<seq<real>>, o: OPartial, ring: seq<Stage>, s: nat, ahead: nat)
    requires cfg.Valid() && RingShape(cfg, ring) && |rows| == cfg.blockM && WeightShape(cfg, wt)
    requires numSplits <= |wt|
  {
    forall j :: s <= j < numSplits && j < s + ahead ==> StageHolds(cfg, headDim, w, rows, wt, o, ring, j)
  }

  /** The per-row gate of a prefetch in the split loop: the row's weight for
      the split is positive. */
  function WeightGate(cfg: Config, wt: seq<seq<real>>, t: nat): (gate: seq<bool>)
    requires WeightShape(cfg, wt) && t < |wt|
    ensures |gate| == cfg.blockM
    ensures forall m :: 0 <= m < cfg.blockM ==> gate[m] == (wt[t][m] > 0.0)
  {
    seq(cfg.blockM, m requires 0 <= m < cfg.blockM => wt[t][m] > 0.0)
  }

  /** The prefetch half of iteration `s`: split `s + kStages - 1` goes to the load
      stage in every valid row whose weight for it is positive, the same test
      that later decides whether that split is accumulated. The splits already
      waiting stay where they are. */
  method PrefetchAhead(cfg: Config, headDim: nat, numSplits: nat, w: Window, rows: seq<RowIndex>,
                       wt: seq<seq<real>>, o: OPartial, ring0: seq<Stage>, s: nat, stageLoad: nat)
    returns (ring: seq<Stage>)
    requires cfg.Valid()
    requires |rows| == cfg.blockM && WeightShape(cfg, wt) && numSplits <= |wt|
    requires RingShape(cfg, ring0)
    requires s + kStages - 1 < numSplits
    requires stageLoad == (s + kStages - 1) % kStages
    requires Pending(cfg, headDim, numSplits, w, rows, wt, o, ring0, s, kStages - 1)
    ensures RingShape(cfg, ring)
    ensures ring == ring0[stageLoad := ring[stageLoad]]
    ensures LoadedFrom(cfg, headDim, w, rows, WeightGate(cfg, wt, s + kStages - 1), o, s + kStages - 1,
                       ring0[stageLoad], ring[stageLoad])
    ensures ring[s % kStages] == ring0[s % kStages]
    ensures Pending(cfg, headDim, numSplits, w, rows, wt, o, ring, s, kStages)
  {
    var t: nat := s + kStages - 1;
    var gate := WeightGate(cfg, wt, t);
    var st := LoadOPartial(cfg, headDim, w, rows, gate, o, t, ring0[stageLoad]);
    ring := ring0[stageLoad := st];
    LoadedStageHolds(cfg, headDim, w, rows, wt, o, ring, t, gate, ring0[stageLoad], st);
    WaitingStagesKept(cfg, headDim, numSplits, w, rows, wt, o, ring0, ring, s);
  }

  /** A stage loaded with split `t` under the weight gate holds split `t`. */
  lemma LoadedStageHolds(cfg: Config, headDim: nat, w: Window, rows: seq<RowIndex>, wt: seq<seq<real>>,
                         o: OPartial, ring: seq<Stage>, t: nat, gate: seq<bool>, st0: Stage, st: Stage)
    requires cfg.Valid() && RingShape(cfg, ring) && |rows| == cfg.blockM && WeightShape(cfg, wt) && t < |wt|
    requires StageShape(cfg, st0) && StageShape(cfg, st) && |gate| == cfg.blockM && ring[t % kStages] == st
    requires forall m :: 0 <= m < cfg.blockM ==> gate[m] == (wt[t][m] > 0.0)
    requires LoadedFrom(cfg, headDim, w, rows, gate, o, t, st0, st)
    ensures StageHolds(cfg, headDim, w, rows, wt, o, ring, t)
  {
  }

  /** Refilling the stage of split `s - 1` keeps splits `s .. s + kStages - 2`
      waiting, and with the new split they are `s .. s + kStages - 1`. */
  lemma WaitingStagesKept(cfg: Config, headDim: nat, numSplits: nat, w: Window, rows: seq<RowIndex>,
                          wt: seq<seq<real>>, o: OPartial, ring0: seq<Stage>, ring: seq<Stage>, s: nat)
    requires cfg.Valid() && |rows| == cfg.blockM && WeightShape(cfg, wt) && numSplits <= |wt|
    requires RingShape(cfg, ring0) && RingShape(cfg, ring)
    requires s + kStages - 1 < numSplits
    requires forall i :: 0 <= i < kStages && i != (s + kStages - 1) % kStages ==> ring[i] == ring0[i]
    requires Pending(cfg, headDim, numSplits, w, rows, wt, o, ring0, s, kStages - 1)
    requires StageHolds(cfg, headDim, w, rows, wt, o, ring, s + kStages - 1)
    ensures Pending(cfg, headDim, numSplits, w, rows, wt, o, ring, s, kStages)
  {
    forall j | s <= j < numSplits && j < s + kStages - 1
      ensures StageHolds(cfg, headDim, w, rows, wt, o, ring, j)
    {
      ResidueAhead(s, j);
      assert ring[j % kStages] == ring0[j % kStages];
      assert StageHolds(cfg, headDim, w, rows, wt, o, ring0, j);
    }
  }

  /** Accumulating the stage that holds split `s` advances the accumulator from
      the reference after `s` splits to the reference after `s + 1`. */
  lemma AccumulateStep(cfg: Config, headDim: nat, w: Window, rows: seq<RowIndex>, wt: seq<seq<real>>,
                       o: OPartial, ring: seq<Stage>, s: nat, cur: Stage,
                       acc0: seq<seq<real>>, acc: seq<seq<real>>)
    requires cfg.Valid() && WeightShape(cfg, wt) && |rows| == cfg.blockM && s < |wt|
    requires RingShape(cfg, ring) && AccShape(cfg, acc0) && AccShape(cfg, acc)
    requires StageHolds(cfg, headDim, w, rows, wt, o, ring, s) && cur == ring[s % kStages]
    requires forall m, col :: 0 <= m < cfg.blockM && 0 <= col < cfg.headDimTile ==>
               acc0[m][col] == Expected(cfg, headDim, w, rows, wt, o, m, col, s)
    requires forall m, col :: 0 <= m < cfg.blockM && 0 <= col < cfg.headDimTile ==>
               acc[m][col] == acc0[m][col] + Contribution(cfg, headDim, rows, wt[s], cur, m, col)
    ensures forall m, col :: 0 <= m < cfg.blockM && 0 <= col < cfg.headDimTile ==>
              acc[m][col] == Expected(cfg, headDim, w, rows, wt, o, m, col, s + 1)
  {
    forall m, col | 0 <= m < cfg.blockM && 0 <= col < cfg.headDimTile
      ensures acc[m][col] == Expected(cfg, headDim, w, rows, wt, o, m, col, s + 1)
    {
      if rows[m].Valid() && ColAllowed(cfg, headDim, col) {
        if wt[s][m] > 0.0 {
          assert ring[s % kStages][m][col] == Loaded(s, PartialAt(o, w, rows[m], col, s));
        }
        assert WeightedSum(cfg, w, rows, wt, o, m, col, s + 1)
            == WeightedSum(cfg, w, rows, wt, o, m, col, s)
               + (if wt[s][m] > 0.0 then wt[s][m] * PartialAt(o, w, rows[m], col, s) else 0.0);
      }
    }
  }

  /** The pipelined split loop. At iteration `s` it prefetches split
      `s + kStages - 1`, drains the compute stage and accumulates split `s` under
      the same weight test. It starts from the ring the prologue left. */
  method SplitLoop(cfg: Config, headDim: nat, numSplits: nat, w: Window, rows: seq<RowIndex>,
                   wt: seq<seq<real>>, o: OPartial, ring0: seq<Stage>)
    returns (acc: seq<seq<real>>)
    requires cfg.Valid()
    requires |rows| == cfg.blockM && WeightShape(cfg, wt) && numSplits <= |wt|
    requires RingShape(cfg, ring0)
    requires forall j :: 0 <= j < kStages - 1 && j < numSplits ==>
               PrologueFilled(cfg, headDim, w, rows, o, ring0, j)
    ensures AccShape(cfg, acc)
    ensures forall m, col :: 0 <= m < cfg.blockM && 0 <= col < cfg.headDimTile ==>
              acc[m][col] == Expected(cfg, headDim, w, rows, wt, o, m, col, numSplits)
  {
    acc := seq(cfg.blockM, _ => seq(cfg.headDimTile, _ => 0.0));
    var ring := ring0;
    var stageLoad, stageCompute := kStages - 1, 0;
    forall j | 0 <= j < numSplits && j < kStages - 1
      ensures StageHolds(cfg, headDim, w, rows, wt, o, ring, j)
    {
      assert PrologueFilled(cfg, headDim, w, rows, o, ring0, j);
    }
    var s := 0;
    while s < numSplits
      invariant 0 <= s <= numSplits
      invariant RingShape(cfg, ring) && AccShape(cfg, acc)
      invariant stageCompute == s % kStages
      invariant stageLoad == (s + kStages - 1) % kStages
      invariant Pending(cfg, headDim, numSplits, w, rows, wt, o, ring, s, kStages - 1)
      invariant forall m, col :: 0 <= m < cfg.blockM && 0 <= col < cfg.headDimTile ==>
                  acc[m][col] == Expected(cfg, headDim, w, rows, wt, o, m, col, s)
    {
      var ringBefore := ring;
      if s + kStages - 1 < numSplits {
        ring := PrefetchAhead(cfg, headDim, numSplits, w, rows, wt, o, ring, s, stageLoad);
      }
      assert Pending(cfg, headDim, numSplits, w, rows, wt, o, ring, s, kStages);
      stageLoad := NextStage(stageLoad);
      NextStageMod(s + kStages - 1);

      var cur: Stage := ring[stageCompute];
      assert cur == ring[s % kStages] == ringBefore[s % kStages];
      stageCompute := NextStage(stageCompute);
      NextStageMod(s);

      assert StageHolds(cfg, headDim, w, rows, wt, o, ring, s);
      var acc' := AccumulateSplit(cfg, headDim, rows, wt[s], cur, acc);
      AccumulateStep(cfg, headDim, w, rows, wt, o, ring, s, cur, acc, acc');
      acc := acc';
      s := s + 1;
    }
  }

  /** Prologue followed by the split loop: the accumulator of every valid row and
      admitted column is the weighted sum over the splits with positive weight;
      every other accumulator element stays zero. */
  method AccumulateO(cfg: Config, headDim: nat, numSplits: nat, w: Window, rows: seq<RowIndex>,
                     wt: seq<seq<real>>, o: OPartial, ring0: seq<Stage>)
    returns (acc: seq<seq<real>>)
    requires cfg.Valid()
    requires |rows| == cfg.blockM && WeightShape(cfg, wt) && numSplits <= |wt|
    requires RingShape(cfg, ring0)
    ensures AccShape(cfg, acc)
    ensures forall m, col ::
              (0 <= m < cfg.blockM && 0 <= col < cfg.headDimTile && rows[m].Valid() && ColAllowed(cfg, headDim, col)) ==>
              acc[m][col] == WeightedSum(cfg, w, rows, wt, o, m, col, numSplits)
    ensures forall m, col ::
              (0 <= m < cfg.blockM && 0 <= col < cfg.headDimTile && !(rows[m].Valid() && ColAllowed(cfg, headDim, col))) ==>
              acc[m][col] == 0.0
  {
    var ring := Prologue(cfg, headDim, numSplits, w, rows, o, ring0);
    acc := SplitLoop(cfg, headDim, numSplits, w, rows, wt, o, ring);
  }
}
