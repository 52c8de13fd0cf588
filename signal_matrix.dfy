/**
  Shapes shared by the signal-level matrices and the output dataset.

  A level matrix is indexed [terminal][time step][station] and holds
  received levels in dBm; the dataset is a table with one row per
  (terminal, time step), laid out terminal-major.
 */
module SignalMatrix {

  /** Level written for a rogue station that is not receivable (dBm). */
  const Sentinel: real := -100.0

  /** `m` has the shape (nUE, nT, nS) of a numpy level array. */
  predicate Shaped(m: seq<seq<seq<real>>>, nUE: nat, nT: nat, nS: nat)
  {
    && |m| == nUE
    && (forall u :: 0 <= u < nUE ==> |m[u]| == nT)
    && (forall u, t :: 0 <= u < nUE && 0 <= t < nT ==> |m[u][t]| == nS)
  }

  /** Width of a dataset row: time, connected station, one column per
      legitimate station, one per rogue station, and the label. */
  function NumFeatures(nBS: nat, nRBS: nat): nat
  {
    1 + 1 + nBS + nRBS + 1
  }

  /** Assigns a whole dataset row, as `dataset[row_idx] = [...]` does. */
  method WriteRow(dataset: array2<real>, rowIdx: nat, row: seq<real>)
    requires rowIdx < dataset.Length0 && |row| == dataset.Length1
    modifies dataset
    ensures forall c :: 0 <= c < dataset.Length1 ==> dataset[rowIdx, c] == row[c]
    ensures forall r, c :: 0 <= r < dataset.Length0 && r != rowIdx && 0 <= c < dataset.Length1 ==>
      dataset[r, c] == old(dataset[r, c])
  {
    forall c | 0 <= c < dataset.Length1 {
      dataset[rowIdx, c] := row[c];
    }
  }

  /** Multiplying by `n` keeps a gap of at least `n` between distinct factors. */
  lemma {:induction false} MulGap(a: int, b: int, n: nat)
    requires a < b
    ensures a * n + n <= b * n
    decreases b - a
  {
    if a + 1 < b {
      MulGap(a, b - 1, n);
      assert (b - 1) * n + n == b * n;
    } else {
      assert (a + 1) * n == a * n + n;
    }
  }

  /** Row `u * n + t` of the dataset belongs to terminal `u` at step `t`. */
  lemma RowPosition(u: nat, t: nat, n: nat)
    requires t < n
    ensures (u * n + t) / n == u
    ensures (u * n + t) % n == t
  {
    var x := u * n + t;
    var q, r := x / n, x % n;
    assert x == q * n + r && 0 <= r < n;
    if q < u {
      MulGap(q, u, n);
    } else if u < q {
      MulGap(u, q, n);
    }
  }

  /** The dataset row of terminal `u` at step `t`, for `nT` steps per
      terminal and `nUE` terminals: inside the table, and decoding back to
      the same terminal and step. */
  function RowIndex(u: nat, t: nat, nT: nat, nUE: nat): (r: nat)
    requires u < nUE && t < nT
    ensures r < nT * nUE
    ensures r / nT == u && r % nT == t
  {
    RowInTable(u, t, nT, nUE);
    RowPosition(u, t, nT);
    u * nT + t
  }

  /** Every (terminal, step) pair lands inside a table of `m * n` rows. */
  lemma RowInTable(u: nat, t: nat, n: nat, m: nat)
    requires u < m && t < n
    ensures u * n + t < m * n && u * n + t < n * m
  {
    MulGap(u, m, n);
  }
}
