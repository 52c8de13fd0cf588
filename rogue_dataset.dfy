/**
  The rogue dataset builder: masks the rogue levels outside the attack
  periods, runs the handover engine per terminal over the legitimate and
  the masked rogue stations, and writes one labelled row per
  (terminal, time step).

  The engine is started from the strongest station at index 0 and then
  processes the indices 1, 2, ...: the level at index 0 never enters a
  history.
 */
module RogueDataset {
  import opened SignalMatrix
  import opened HandoverEngine
  import opened AttackMask

  /** The preconditions under which the builder completes without raising. */
  predicate Inputs(T: seq<real>, bs: seq<seq<seq<real>>>, rbs: seq<seq<seq<real>>>,
                   nUE: nat, nBS: nat, nRBS: nat, periods: seq<Interval>)
  {
    && ((nUE > 0 || |periods| > 0) ==> |T| > 0)
    && (nUE > 0 ==> nRBS == 1)
    && Shaped(bs, nUE, |T|, nBS)
    && Shaped(rbs, nUE, |T|, nRBS)
  }

  /** The levels terminal `u` sees: legitimate stations first, then the
      masked rogue stations; a station's index in the row is its id - 1. */
  function RogueRows(T: seq<real>, bs: seq<seq<seq<real>>>, rbs: seq<seq<seq<real>>>,
                     nUE: nat, nBS: nat, nRBS: nat, periods: seq<Interval>, u: nat): (rows: seq<seq<real>>)
    requires Inputs(T, bs, rbs, nUE, nBS, nRBS, periods) && u < nUE
    ensures Rectangular(rows) && |rows| == |T| && |rows[0]| == nBS + nRBS
  {
    seq(|T|, t requires 0 <= t < |T| => bs[u][t] + MaskedRow(T, periods, rbs[u][t], t))
  }

  /** The station terminal `u` is attached to at time step `t`. */
  function Connected(T: seq<real>, bs: seq<seq<seq<real>>>, rbs: seq<seq<seq<real>>>,
                     nUE: nat, nBS: nat, nRBS: nat, periods: seq<Interval>, threshold: real,
                     u: nat, t: nat): (c: nat)
    requires Inputs(T, bs, rbs, nUE, nBS, nRBS, periods) && u < nUE && t < |T|
    ensures c < nBS + nRBS
  {
    Run(RogueRows(T, bs, rbs, nUE, nBS, nRBS, periods, u), threshold, 1, t + 1).current
  }

  /** The dataset row of terminal `u` at step `t`: time, connected station
      id, legitimate levels, the first rogue station's masked level, label. */
  function RogueRow(T: seq<real>, bs: seq<seq<seq<real>>>, rbs: seq<seq<seq<real>>>,
                    nUE: nat, nBS: nat, nRBS: nat, periods: seq<Interval>, threshold: real,
                    u: nat, t: nat): (row: seq<real>)
    requires Inputs(T, bs, rbs, nUE, nBS, nRBS, periods) && u < nUE && t < |T|
  {
    var c := Connected(T, bs, rbs, nUE, nBS, nRBS, periods, threshold, u, t);
    [T[t], (c + 1) as real] + bs[u][t] + [MaskedRow(T, periods, rbs[u][t], t)[0]]
      + [if c >= nBS then 1.0 else 0.0]
  }

  /** The row layout: one column per feature, time first, an id in
      1 .. nBS + nRBS, the legitimate levels, the masked rogue level (the
      sentinel outside every attack period), and a label that is 1 exactly
      when the connected station is a rogue one and 0 otherwise. */
  lemma RogueRowLayout(T: seq<real>, bs: seq<seq<seq<real>>>, rbs: seq<seq<seq<real>>>,
                       nUE: nat, nBS: nat, nRBS: nat, periods: seq<Interval>, threshold: real,
                       u: nat, t: nat)
    requires Inputs(T, bs, rbs, nUE, nBS, nRBS, periods) && u < nUE && t < |T|
    ensures var row := RogueRow(T, bs, rbs, nUE, nBS, nRBS, periods, threshold, u, t);
      var c := Connected(T, bs, rbs, nUE, nBS, nRBS, periods, threshold, u, t);
      && |row| == NumFeatures(nBS, nRBS)
      && row[0] == T[t]
      && 1.0 <= row[1] <= (nBS + nRBS) as real
      && row[2..2 + nBS] == bs[u][t]
      && (!Active(T, periods, t) ==> row[2 + nBS] == Sentinel)
      && (Active(T, periods, t) ==> row[2 + nBS] == rbs[u][t][0])
      && (row[3 + nBS] == 1.0 <==> c >= nBS)
      && (row[3 + nBS] == 0.0 <==> c < nBS)
  {
  }

  /** The row as assembled has NumFeatures columns only for one rogue station. */
  lemma RowFitsOnlyOneRogueStation(nBS: nat, nRBS: nat)
    ensures 2 + nBS + 1 + 1 == NumFeatures(nBS, nRBS) <==> nRBS == 1
  {
  }

  /** The attachment at step 0 is the first strongest station among the
      legitimate and the masked rogue levels. */
  lemma InitialStationIsStrongest(T: seq<real>, bs: seq<seq<seq<real>>>, rbs: seq<seq<seq<real>>>,
                                  nUE: nat, nBS: nat, nRBS: nat, periods: seq<Interval>, threshold: real,
                                  u: nat)
    requires Inputs(T, bs, rbs, nUE, nBS, nRBS, periods) && u < nUE
    ensures var levels := bs[u][0] + MaskedRow(T, periods, rbs[u][0], 0);
      var c := Connected(T, bs, rbs, nUE, nBS, nRBS, periods, threshold, u, 0);
      && (forall j :: 0 <= j < |levels| ==> levels[j] <= levels[c])
      && (forall j :: 0 <= j < c ==> levels[j] < levels[c])
  {
    var rows := RogueRows(T, bs, rbs, nUE, nBS, nRBS, periods, u);
    assert Run(rows, threshold, 1, 1) == Init(rows);
  }

  /** The masked rogue levels of terminal `u` at step `t`, `attack[u, t, :]`,
      as a sequence. */
  function AttackRow(attack: array3<real>, u: nat, t: nat): (r: seq<real>)
    requires u < attack.Length0 && t < attack.Length1
    reads attack
    ensures |r| == attack.Length2
    ensures forall k :: 0 <= k < |r| ==> r[k] == attack[u, t, k]
  {
    seq(attack.Length2, k requires 0 <= k < attack.Length2 reads attack => attack[u, t, k])
  }

  /** Outside the attack periods the rogue column of the engine's input is the sentinel. */
  lemma RogueLevelMasked(T: seq<real>, bs: seq<seq<seq<real>>>, rbs: seq<seq<seq<real>>>,
                         nUE: nat, nBS: nat, nRBS: nat, periods: seq<Interval>, u: nat, j: nat)
    requires Inputs(T, bs, rbs, nUE, nBS, nRBS, periods) && u < nUE && j < |T|
    requires !Active(T, periods, j)
    ensures RogueRows(T, bs, rbs, nUE, nBS, nRBS, periods, u)[j][nBS] == Sentinel
  {
    var row := RogueRows(T, bs, rbs, nUE, nBS, nRBS, periods, u)[j];
    assert row == bs[u][j] + MaskedRow(T, periods, rbs[u][j], j);
    assert row[nBS] == MaskedRow(T, periods, rbs[u][j], j)[0];
  }

  /** Outside the attack periods the rogue station holds the sentinel in
      every history entry, so, while the attached station's mean stays above
      the sentinel less the threshold, the engine never hands over to it. */
  lemma RogueStationIgnoredWhileMasked(T: seq<real>, bs: seq<seq<seq<real>>>, rbs: seq<seq<seq<real>>>,
                                       nUE: nat, nBS: nat, nRBS: nat, periods: seq<Interval>, threshold: real,
                                       u: nat, k: nat)
    requires Inputs(T, bs, rbs, nUE, nBS, nRBS, periods) && u < nUE && 1 <= k < |T|
    requires forall j :: 1 <= j <= k && k - j < TimeWindow ==> !Active(T, periods, j)
    requires var rows := RogueRows(T, bs, rbs, nUE, nBS, nRBS, periods, u);
      var s := Run(rows, threshold, 1, k);
      && s.current != nBS
      && Sentinel < Mean(Run(rows, threshold, 1, k + 1).history[s.current]) + threshold
    ensures Connected(T, bs, rbs, nUE, nBS, nRBS, periods, threshold, u, k) != nBS
  {
    var rows := RogueRows(T, bs, rbs, nUE, nBS, nRBS, periods, u);
    forall j | 1 <= j <= k && k - j < TimeWindow ensures rows[j][nBS] == Sentinel {
      RogueLevelMasked(T, bs, rbs, nUE, nBS, nRBS, periods, u, j);
    }
    SentinelStationNotChosen(rows, threshold, 1, k, nBS);
  }

  /** The levels the builder concatenates at step `t` are the engine's input row. */
  lemma StepLevels(attack: array3<real>, T: seq<real>, bs: seq<seq<seq<real>>>, rbs: seq<seq<seq<real>>>,
                   nUE: nat, nBS: nat, nRBS: nat, periods: seq<Interval>, ue: nat, t: nat)
    requires Inputs(T, bs, rbs, nUE, nBS, nRBS, periods) && ue < nUE && t < |T|
    requires attack.Length0 == nUE && attack.Length1 == |T| && attack.Length2 == nRBS
    requires forall u, t, r :: 0 <= u < nUE && 0 <= t < |T| && 0 <= r < nRBS ==>
      attack[u, t, r] == MaskedRow(T, periods, rbs[u][t], t)[r]
    ensures bs[ue][t] + AttackRow(attack, ue, t) == RogueRows(T, bs, rbs, nUE, nBS, nRBS, periods, ue)[t]
  {
    var masked := MaskedRow(T, periods, rbs[ue][t], t);
    assert AttackRow(attack, ue, t) == masked;
  }

  /** Assembles and writes the row of terminal `ue` at step `t` from the
      station it is attached to and the masked rogue level. */
  method WriteStepRow(dataset: array2<real>, attack: array3<real>,
                      T: seq<real>, bs: seq<seq<seq<real>>>, rbs: seq<seq<seq<real>>>,
                      nUE: nat, nBS: nat, nRBS: nat, periods: seq<Interval>, threshold: real,
                      ue: nat, t: nat, currentBs: nat, rowIdx: nat)
    requires Inputs(T, bs, rbs, nUE, nBS, nRBS, periods) && ue < nUE && t < |T|
    requires rowIdx < dataset.Length0 && dataset.Length1 == NumFeatures(nBS, nRBS)
    requires ue < attack.Length0 && t < attack.Length1 && 0 < attack.Length2
    requires attack[ue, t, 0] == MaskedRow(T, periods, rbs[ue][t], t)[0]
    requires currentBs == Connected(T, bs, rbs, nUE, nBS, nRBS, periods, threshold, ue, t)
    modifies dataset
    ensures forall c :: 0 <= c < dataset.Length1 ==>
      dataset[rowIdx, c] == RogueRow(T, bs, rbs, nUE, nBS, nRBS, periods, threshold, ue, t)[c]
    ensures forall r, c :: 0 <= r < dataset.Length0 && r != rowIdx && 0 <= c < dataset.Length1 ==>
      dataset[r, c] == old(dataset[r, c])
  {
    var isRogue := currentBs >= nBS;
    var row := [T[t], (currentBs + 1) as real] + bs[ue][t] + [attack[ue, t, 0]] + [if isRogue then 1.0 else 0.0];
    assert row == RogueRow(T, bs, rbs, nUE, nBS, nRBS, periods, threshold, ue, t);
    WriteRow(dataset, rowIdx, row);
  }

  /** One iteration of the builder's time loop at step `t` >= 1: feed the
      step's levels to the engine, then write the step's row at `rowIdx`. */
  method ProcessStep(dataset: array2<real>, attack: array3<real>,
                     T: seq<real>, bs: seq<seq<seq<real>>>, rbs: seq<seq<seq<real>>>,
                     nUE: nat, nBS: nat, nRBS: nat, periods: seq<Interval>, threshold: real,
                     ue: nat, t: nat, currentBs: nat, signalHistory: seq<seq<real>>, lastHandoverTime: int,
                     rowIdx: nat)
    returns (newBs: nat, newHistory: seq<seq<real>>, newHandoverTime: int)
    requires Inputs(T, bs, rbs, nUE, nBS, nRBS, periods) && ue < nUE && 1 <= t < |T|
    requires rowIdx < dataset.Length0 && dataset.Length1 == NumFeatures(nBS, nRBS)
    requires attack.Length0 == nUE && attack.Length1 == |T| && attack.Length2 == nRBS
    requires forall u, t, r :: 0 <= u < nUE && 0 <= t < |T| && 0 <= r < nRBS ==>
      attack[u, t, r] == MaskedRow(T, periods, rbs[u][t], t)[r]
    requires Attachment(currentBs, signalHistory, lastHandoverTime)
          == Run(RogueRows(T, bs, rbs, nUE, nBS, nRBS, periods, ue), threshold, 1, t)
    modifies dataset
    ensures Attachment(newBs, newHistory, newHandoverTime)
         == Run(RogueRows(T, bs, rbs, nUE, nBS, nRBS, periods, ue), threshold, 1, t + 1)
    ensures forall c :: 0 <= c < dataset.Length1 ==>
      dataset[rowIdx, c] == RogueRow(T, bs, rbs, nUE, nBS, nRBS, periods, threshold, ue, t)[c]
    ensures forall r, c :: 0 <= r < dataset.Length0 && r != rowIdx && 0 <= c < dataset.Length1 ==>
      dataset[r, c] == old(dataset[r, c])
  {
    ghost var rows := RogueRows(T, bs, rbs, nUE, nBS, nRBS, periods, ue);
    var allSignals := bs[ue][t] + AttackRow(attack, ue, t);
    StepLevels(attack, T, bs, rbs, nUE, nBS, nRBS, periods, ue, t);
    RunStep(rows, threshold, 1, t + 1);
    newBs, newHistory, newHandoverTime :=
      HandoverStep(currentBs, signalHistory, lastHandoverTime, allSignals, t, threshold);
    WriteStepRow(dataset, attack, T, bs, rbs, nUE, nBS, nRBS, periods, threshold, ue, t, newBs, rowIdx);
  }

  /** The rows of terminal `ue`, starting at row `rowIdx`: the row at
      step 0 from the initial attachment, then one row per processed step. */
  method FillTerminal(dataset: array2<real>, attack: array3<real>,
                      T: seq<real>, bs: seq<seq<seq<real>>>, rbs: seq<seq<seq<real>>>,
                      nUE: nat, nBS: nat, nRBS: nat, periods: seq<Interval>, threshold: real,
                      ue: nat, rowIdx: nat)
    returns (nextRow: nat)
    requires Inputs(T, bs, rbs, nUE, nBS, nRBS, periods) && ue < nUE
    requires rowIdx + |T| <= dataset.Length0 && dataset.Length1 == NumFeatures(nBS, nRBS)
    requires attack.Length0 == nUE && attack.Length1 == |T| && attack.Length2 == nRBS
    requires forall u, t, r :: 0 <= u < nUE && 0 <= t < |T| && 0 <= r < nRBS ==>
      attack[u, t, r] == MaskedRow(T, periods, rbs[u][t], t)[r]
    modifies dataset
    ensures nextRow == rowIdx + |T|
    ensures forall t, c :: 0 <= t < |T| && 0 <= c < dataset.Length1 ==>
      dataset[rowIdx + t, c] == RogueRow(T, bs, rbs, nUE, nBS, nRBS, periods, threshold, ue, t)[c]
    ensures forall r, c :: 0 <= r < dataset.Length0 && !(rowIdx <= r < nextRow) && 0 <= c < dataset.Length1 ==>
      dataset[r, c] == old(dataset[r, c])
  {
    ghost var rows := RogueRows(T, bs, rbs, nUE, nBS, nRBS, periods, ue);
    ghost var expected := seq(|T|, t requires 0 <= t < |T| => RogueRow(T, bs, rbs, nUE, nBS, nRBS, periods, threshold, ue, t));
    var allSignalsInitial := bs[ue][0] + AttackRow(attack, ue, 0);
    StepLevels(attack, T, bs, rbs, nUE, nBS, nRBS, periods, ue, 0);
    var currentBs: nat := Argmax(allSignalsInitial);
    var signalHistory: seq<seq<real>> := seq(nBS + nRBS, _ => []);
    var lastHandoverTime := 0;
    assert Attachment(currentBs, signalHistory, lastHandoverTime) == Run(rows, threshold, 1, 1);
    WriteStepRow(dataset, attack, T, bs, rbs, nUE, nBS, nRBS, periods, threshold, ue, 0, currentBs, rowIdx);
    assert expected[0] == RogueRow(T, bs, rbs, nUE, nBS, nRBS, periods, threshold, ue, 0);
    nextRow := rowIdx + 1;

    for t := 1 to |T|
      invariant nextRow == rowIdx + t
      invariant Attachment(currentBs, signalHistory, lastHandoverTime) == Run(rows, threshold, 1, t)
      invariant forall r, c :: rowIdx <= r < nextRow && 0 <= c < dataset.Length1 ==>
        dataset[r, c] == expected[r - rowIdx][c]
      invariant forall r, c :: 0 <= r < dataset.Length0 && !(rowIdx <= r < nextRow) && 0 <= c < dataset.Length1 ==>
        dataset[r, c] == old(dataset[r, c])
    {
      currentBs, signalHistory, lastHandoverTime :=
        ProcessStep(dataset, attack, T, bs, rbs, nUE, nBS, nRBS, periods, threshold, ue, t,
                    currentBs, signalHistory, lastHandoverTime, nextRow);
      assert expected[t] == RogueRow(T, bs, rbs, nUE, nBS, nRBS, periods, threshold, ue, t);
      nextRow := nextRow + 1;
    }
    forall t, c | 0 <= t < |T| && 0 <= c < dataset.Length1
      ensures dataset[rowIdx + t, c] == RogueRow(T, bs, rbs, nUE, nBS, nRBS, periods, threshold, ue, t)[c]
    {
      assert dataset[rowIdx + t, c] == expected[t][c];
    }
  }

  /** Masks the attack periods, then fills the rows of every terminal in turn. */
  method RogueBsData(T: seq<real>, bs: seq<seq<seq<real>>>, rbs: seq<seq<seq<real>>>,
                     nUE: nat, nBS: nat, nRBS: nat, periods: seq<Interval>, threshold: real)
    returns (dataset: array2<real>)
    requires Inputs(T, bs, rbs, nUE, nBS, nRBS, periods)
    ensures fresh(dataset)
    ensures dataset.Length0 == |T| * nUE && dataset.Length1 == NumFeatures(nBS, nRBS)
    ensures forall u, t, c :: 0 <= u < nUE && 0 <= t < |T| && 0 <= c < dataset.Length1 ==>
      dataset[RowIndex(u, t, |T|, nUE), c] == RogueRow(T, bs, rbs, nUE, nBS, nRBS, periods, threshold, u, t)[c]
  {
    var n := |T|;
    dataset := new real[n * nUE, NumFeatures(nBS, nRBS)]((_, _) => 0.0);
    assert n * nUE == nUE * n;
    var attack := MaskAttacks(T, rbs, nUE, nRBS, periods);
    var rowIdx := 0;
    for ue := 0 to nUE
      modifies dataset
      invariant rowIdx == ue * n
      invariant forall u, t, c :: 0 <= u < ue && 0 <= t < n && 0 <= c < dataset.Length1 ==>
        dataset[RowIndex(u, t, n, nUE), c] == RogueRow(T, bs, rbs, nUE, nBS, nRBS, periods, threshold, u, t)[c]
    {
      RowInTable(ue, n - 1, n, nUE);
      var first := rowIdx;
      rowIdx := FillTerminal(dataset, attack, T, bs, rbs, nUE, nBS, nRBS, periods, threshold, ue, rowIdx);
      assert rowIdx == (ue + 1) * n by {
        assert (ue + 1) * n == ue * n + n;
      }
      forall u, t, c | 0 <= u < ue + 1 && 0 <= t < n && 0 <= c < dataset.Length1
        ensures dataset[RowIndex(u, t, n, nUE), c] == RogueRow(T, bs, rbs, nUE, nBS, nRBS, periods, threshold, u, t)[c]
      {
        if u < ue {
          RowInTable(u, t, n, ue);
          assert RowIndex(u, t, n, nUE) < first;
        } else {
          assert RowIndex(u, t, n, nUE) == first + t;
        }
      }
    }
  }
}
