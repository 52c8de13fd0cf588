/**
  The legitimate-only dataset builder: the handover engine runs per
  terminal over the legitimate stations alone, from index 0, and each
  row is written cell by cell with the rogue column set to the sentinel
  level and the label to 0.
 */
module LegitimateDataset {
  import opened SignalMatrix
  import opened HandoverEngine

  /** The preconditions under which the builder completes without raising. */
  predicate Inputs(T: seq<real>, bs: seq<seq<seq<real>>>, nUE: nat, nBS: nat)
  {
    && (nUE > 0 ==> |T| > 0 && nBS > 0)
    && Shaped(bs, nUE, |T|, nBS)
  }

  /** The station terminal `u` is attached to after processing step `t`. */
  function Connected(T: seq<real>, bs: seq<seq<seq<real>>>, nUE: nat, nBS: nat, threshold: real,
                     u: nat, t: nat): (c: nat)
    requires Inputs(T, bs, nUE, nBS) && u < nUE && t < |T|
    ensures c < nBS
  {
    Run(bs[u], threshold, 0, t + 1).current
  }

  /** The dataset row of terminal `u` at step `t` after the five cell
      writes, in their order, over a zero row: time, connected station id,
      legitimate levels, the sentinel at column 2 + nBS, then 0 in the last
      column (which is column 2 + nBS itself when there is no rogue
      station). */
  function LegitRow(T: seq<real>, bs: seq<seq<seq<real>>>, nUE: nat, nBS: nat, nRBS: nat,
                    threshold: real, u: nat, t: nat): (row: seq<real>)
    requires Inputs(T, bs, nUE, nBS) && u < nUE && t < |T|
    ensures |row| == NumFeatures(nBS, nRBS)
  {
    var c := Connected(T, bs, nUE, nBS, threshold, u, t);
    var width := NumFeatures(nBS, nRBS);
    seq(width, j requires 0 <= j < width =>
      if j == width - 1 then 0.0
      else if j == 2 + nBS then Sentinel
      else if 2 <= j < 2 + nBS then bs[u][t][j - 2]
      else if j == 1 then (c + 1) as real
      else if j == 0 then T[t]
      else 0.0)
  }

  /** The row layout: time first, an id of a legitimate station, the
      legitimate levels, the rogue column at the sentinel level when there
      is a rogue column and 0 otherwise, any further rogue column 0, and a
      label that is always 0. */
  lemma LegitRowLayout(T: seq<real>, bs: seq<seq<seq<real>>>, nUE: nat, nBS: nat, nRBS: nat,
                       threshold: real, u: nat, t: nat)
    requires Inputs(T, bs, nUE, nBS) && u < nUE && t < |T|
    ensures var row := LegitRow(T, bs, nUE, nBS, nRBS, threshold, u, t);
      && row[0] == T[t]
      && 1.0 <= row[1] <= nBS as real
      && row[2..2 + nBS] == bs[u][t]
      && (nRBS > 0 ==> row[2 + nBS] == Sentinel)
      && (nRBS == 0 ==> row[2 + nBS] == 0.0)
      && (forall j :: 3 + nBS <= j < |row| ==> row[j] == 0.0)
      && row[|row| - 1] == 0.0
  {
    var row := LegitRow(T, bs, nUE, nBS, nRBS, threshold, u, t);
    forall j | 0 <= j < nBS ensures row[2..2 + nBS][j] == bs[u][t][j] {
      assert row[2 + j] == bs[u][t][j];
    }
  }

  /** No handover can happen before the minimum spacing has elapsed since
      time 0: the attachment holds on to the first strongest station. */
  lemma InitialStationHolds(T: seq<real>, bs: seq<seq<seq<real>>>, nUE: nat, nBS: nat, threshold: real,
                            u: nat, t: nat)
    requires Inputs(T, bs, nUE, nBS) && u < nUE && t < |T| && t < MinTimeBetweenHandovers
    ensures var c := Connected(T, bs, nUE, nBS, threshold, u, t);
      && (forall j :: 0 <= j < nBS ==> bs[u][0][j] <= bs[u][0][c])
      && (forall j :: 0 <= j < c ==> bs[u][0][j] < bs[u][0][c])
  {
    StartingStationHolds(bs[u], threshold, 0, t + 1);
  }

  /** Writes the five cells of one row, in the order the builder writes them. */
  method WriteStepCells(dataset: array2<real>, T: seq<real>, bs: seq<seq<seq<real>>>,
                        nUE: nat, nBS: nat, nRBS: nat, threshold: real,
                        ue: nat, t: nat, currentBs: nat, rowIdx: nat)
    requires Inputs(T, bs, nUE, nBS) && ue < nUE && t < |T|
    requires rowIdx < dataset.Length0 && dataset.Length1 == NumFeatures(nBS, nRBS)
    requires forall c :: 0 <= c < dataset.Length1 ==> dataset[rowIdx, c] == 0.0
    requires currentBs == Connected(T, bs, nUE, nBS, threshold, ue, t)
    modifies dataset
    ensures forall c :: 0 <= c < dataset.Length1 ==>
      dataset[rowIdx, c] == LegitRow(T, bs, nUE, nBS, nRBS, threshold, ue, t)[c]
    ensures forall r, c :: 0 <= r < dataset.Length0 && r != rowIdx && 0 <= c < dataset.Length1 ==>
      dataset[r, c] == old(dataset[r, c])
  {
    var width := dataset.Length1;
    dataset[rowIdx, 0] := T[t];
    dataset[rowIdx, 1] := (currentBs + 1) as real;
    forall c | 2 <= c < 2 + nBS {
      dataset[rowIdx, c] := bs[ue][t][c - 2];
    }
    dataset[rowIdx, 2 + nBS] := Sentinel;
    dataset[rowIdx, width - 1] := 0.0;
  }

  /** One iteration of the builder's time loop at step `t`: feed the step's
      levels to the engine, then write the step's row at `rowIdx`. */
  method ProcessStep(dataset: array2<real>, T: seq<real>, bs: seq<seq<seq<real>>>,
                     nUE: nat, nBS: nat, nRBS: nat, threshold: real, ue: nat, t: nat,
                     currentBs: nat, signalHistory: seq<seq<real>>, lastHandoverTime: int, rowIdx: nat)
    returns (newBs: nat, newHistory: seq<seq<real>>, newHandoverTime: int)
    requires Inputs(T, bs, nUE, nBS) && ue < nUE && t < |T|
    requires rowIdx < dataset.Length0 && dataset.Length1 == NumFeatures(nBS, nRBS)
    requires forall c :: 0 <= c < dataset.Length1 ==> dataset[rowIdx, c] == 0.0
    requires Attachment(currentBs, signalHistory, lastHandoverTime) == Run(bs[ue], threshold, 0, t)
    modifies dataset
    ensures Attachment(newBs, newHistory, newHandoverTime) == Run(bs[ue], threshold, 0, t + 1)
    ensures forall c :: 0 <= c < dataset.Length1 ==>
      dataset[rowIdx, c] == LegitRow(T, bs, nUE, nBS, nRBS, threshold, ue, t)[c]
    ensures forall r, c :: 0 <= r < dataset.Length0 && r != rowIdx && 0 <= c < dataset.Length1 ==>
      dataset[r, c] == old(dataset[r, c])
  {
    RunStep(bs[ue], threshold, 0, t + 1);
    newBs, newHistory, newHandoverTime :=
      HandoverStep(currentBs, signalHistory, lastHandoverTime, bs[ue][t], t, threshold);
    WriteStepCells(dataset, T, bs, nUE, nBS, nRBS, threshold, ue, t, newBs, rowIdx);
  }

  /** The rows of terminal `ue`, starting at row `rowIdx`, one per step. */
  method FillTerminal(dataset: array2<real>, T: seq<real>, bs: seq<seq<seq<real>>>,
                      nUE: nat, nBS: nat, nRBS: nat, threshold: real, ue: nat, rowIdx: nat)
    returns (nextRow: nat)
    requires Inputs(T, bs, nUE, nBS) && ue < nUE
    requires rowIdx + |T| <= dataset.Length0 && dataset.Length1 == NumFeatures(nBS, nRBS)
    requires forall r, c :: rowIdx <= r < rowIdx + |T| && 0 <= c < dataset.Length1 ==> dataset[r, c] == 0.0
    modifies dataset
    ensures nextRow == rowIdx + |T|
    ensures forall t, c :: 0 <= t < |T| && 0 <= c < dataset.Length1 ==>
      dataset[rowIdx + t, c] == LegitRow(T, bs, nUE, nBS, nRBS, threshold, ue, t)[c]
    ensures forall r, c :: 0 <= r < dataset.Length0 && !(rowIdx <= r < nextRow) && 0 <= c < dataset.Length1 ==>
      dataset[r, c] == old(dataset[r, c])
  {
    ghost var rows := bs[ue];
    ghost var expected := seq(|T|, t requires 0 <= t < |T| => LegitRow(T, bs, nUE, nBS, nRBS, threshold, ue, t));
    var currentBs := Argmax(bs[ue][0]);
    var signalHistory: seq<seq<real>> := seq(nBS, _ => []);
    var lastHandoverTime := 0;
    assert Attachment(currentBs, signalHistory, lastHandoverTime) == Run(rows, threshold, 0, 0);
    nextRow := rowIdx;

    for t := 0 to |T|
      invariant nextRow == rowIdx + t
      invariant Attachment(currentBs, signalHistory, lastHandoverTime) == Run(rows, threshold, 0, t)
      invariant forall r, c :: rowIdx <= r < nextRow && 0 <= c < dataset.Length1 ==>
        dataset[r, c] == expected[r - rowIdx][c]
      invariant forall r, c :: 0 <= r < dataset.Length0 && !(rowIdx <= r < nextRow) && 0 <= c < dataset.Length1 ==>
        dataset[r, c] == old(dataset[r, c])
    {
      currentBs, signalHistory, lastHandoverTime :=
        ProcessStep(dataset, T, bs, nUE, nBS, nRBS, threshold, ue, t,
                    currentBs, signalHistory, lastHandoverTime, nextRow);
      assert expected[t] == LegitRow(T, bs, nUE, nBS, nRBS, threshold, ue, t);
      nextRow := nextRow + 1;
    }
    forall t, c | 0 <= t < |T| && 0 <= c < dataset.Length1
      ensures dataset[rowIdx + t, c] == LegitRow(T, bs, nUE, nBS, nRBS, threshold, ue, t)[c]
    {
      assert dataset[rowIdx + t, c] == expected[t][c];
    }
  }

  /** Runs the engine for every terminal in turn and fills the dataset. */
  method LegitimateBsData(T: seq<real>, bs: seq<seq<seq<real>>>, nUE: nat, nBS: nat, nRBS: nat,
                          threshold: real)
    returns (dataset: array2<real>)
    requires Inputs(T, bs, nUE, nBS)
    ensures fresh(dataset)
    ensures dataset.Length0 == |T| * nUE && dataset.Length1 == NumFeatures(nBS, nRBS)
    ensures forall u, t, c :: 0 <= u < nUE && 0 <= t < |T| && 0 <= c < dataset.Length1 ==>
      dataset[RowIndex(u, t, |T|, nUE), c] == LegitRow(T, bs, nUE, nBS, nRBS, threshold, u, t)[c]
  {
    var n := |T|;
    dataset := new real[n * nUE, NumFeatures(nBS, nRBS)]((_, _) => 0.0);
    assert n * nUE == nUE * n;
    var rowIdx := 0;
    for ue := 0 to nUE
      invariant rowIdx == ue * n
      invariant forall u, t, c :: 0 <= u < ue && 0 <= t < n && 0 <= c < dataset.Length1 ==>
        dataset[RowIndex(u, t, n, nUE), c] == LegitRow(T, bs, nUE, nBS, nRBS, threshold, u, t)[c]
      invariant forall r, c :: rowIdx <= r < dataset.Length0 && 0 <= c < dataset.Length1 ==> dataset[r, c] == 0.0
    {
      RowInTable(ue, n - 1, n, nUE);
      var first := rowIdx;
      rowIdx := FillTerminal(dataset, T, bs, nUE, nBS, nRBS, threshold, ue, rowIdx);
      assert rowIdx == (ue + 1) * n by {
        assert (ue + 1) * n == ue * n + n;
      }
      forall u, t, c | 0 <= u < ue + 1 && 0 <= t < n && 0 <= c < dataset.Length1
        ensures dataset[RowIndex(u, t, n, nUE), c] == LegitRow(T, bs, nUE, nBS, nRBS, threshold, u, t)[c]
      {
        if u < ue {
          RowInTable(u, t, n, ue);
          assert RowIndex(u, t, n, nUE) < first;
        } else {
          assert RowIndex(u, t, n, nUE) == first + t;
        }
      }
    }
  }
}
