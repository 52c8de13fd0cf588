/**
  The handover decision engine shared by the rogue and the legitimate-only
  dataset builders.

  Per terminal the engine keeps the attached station, a bounded history of
  the most recent levels of every station, and the time-step index of the
  last handover. At each processed step it records the new levels, and once
  enough steps have passed since the last handover it looks for a candidate
  whose windowed mean beats the attached station's by the threshold and
  beats a running maximum seeded with the attached station's instantaneous
  level.
 */
module HandoverEngine {
  import opened SignalMatrix

  /** Number of most recent levels kept per station. */
  const TimeWindow: nat := 10
  /** Minimum number of time-step indices between two handovers. */
  const MinTimeBetweenHandovers: nat := 20

  // ---------------------------------------------------------------------
  // Initial attachment: the first maximum, as numpy's argmax picks it

  function Argmax(levels: seq<real>): (k: nat)
    requires |levels| > 0
    ensures k < |levels|
    ensures forall j :: 0 <= j < |levels| ==> levels[j] <= levels[k]
    ensures forall j :: 0 <= j < k ==> levels[j] < levels[k]
  {
    if |levels| == 1 then 0
    else
      var k := Argmax(levels[..|levels| - 1]);
      if levels[|levels| - 1] > levels[k] then |levels| - 1 else k
  }

  // ---------------------------------------------------------------------
  // Per-station history

  /** The last TimeWindow entries of `xs` (all of them if there are fewer). */
  function Recent(xs: seq<real>): (r: seq<real>)
    ensures |r| <= TimeWindow
  {
    if |xs| <= TimeWindow then xs else xs[|xs| - TimeWindow..]
  }

  /** Entry `i` of the window is entry `i` of the last |window| levels. */
  lemma RecentEntry(xs: seq<real>, i: nat)
    requires i < |Recent(xs)|
    ensures |Recent(xs)| <= |xs|
    ensures Recent(xs)[i] == xs[|xs| - |Recent(xs)| + i]
  {
  }

  /** Appends a level to one station's history, dropping the oldest entry
      once the history holds more than TimeWindow entries. */
  function Push(history: seq<real>, level: real): (r: seq<real>)
    ensures |history| <= TimeWindow ==> r == Recent(history + [level])
  {
    var h := history + [level];
    if |h| > TimeWindow then h[1..] else h
  }

  /** Keeping only the recent window and then pushing is the same as
      pushing onto the full record and then keeping the recent window. */
  lemma RecentThenPush(xs: seq<real>, x: real)
    ensures Push(Recent(xs), x) == Recent(xs + [x])
  {
    if |xs| >= TimeWindow {
      assert Recent(xs) + [x] == xs[|xs| - TimeWindow..] + [x];
      assert (xs[|xs| - TimeWindow..] + [x])[1..] == (xs + [x])[|xs| + 1 - TimeWindow..];
    }
  }

  /** Records one step's levels: every station's history gets its level. */
  function Observe(history: seq<seq<real>>, levels: seq<real>): (r: seq<seq<real>>)
    requires |levels| == |history|
    ensures |r| == |history|
    ensures forall b :: 0 <= b < |r| ==> |r[b]| > 0 && r[b][|r[b]| - 1] == levels[b]
  {
    seq(|history|, b requires 0 <= b < |history| => Push(history[b], levels[b]))
  }

  /** The per-station update loop of one step. */
  method RecordLevels(history: seq<seq<real>>, levels: seq<real>) returns (updated: seq<seq<real>>)
    requires |levels| == |history|
    ensures updated == Observe(history, levels)
  {
    updated := history;
    for b := 0 to |history|
      invariant |updated| == |history|
      invariant forall j :: 0 <= j < b ==> updated[j] == Push(history[j], levels[j])
      invariant forall j :: b <= j < |history| ==> updated[j] == history[j]
    {
      var h := updated[b] + [levels[b]];
      if |h| > TimeWindow {
        h := h[1..];
      }
      updated := updated[b := h];
    }
  }

  // ---------------------------------------------------------------------
  // Candidate selection

  function Sum(xs: seq<real>): real
  {
    if xs == [] then 0.0 else Sum(xs[..|xs| - 1]) + xs[|xs| - 1]
  }

  /** numpy's mean of a non-empty history. */
  function Mean(xs: seq<real>): real
    requires |xs| > 0
  {
    Sum(xs) / (|xs| as real)
  }

  lemma {:induction false} SumOfConstant(xs: seq<real>, c: real)
    requires forall i :: 0 <= i < |xs| ==> xs[i] == c
    ensures Sum(xs) == (|xs| as real) * c
  {
    if xs != [] {
      SumOfConstant(xs[..|xs| - 1], c);
    }
  }

  /** The mean of a history that holds a single value is that value. */
  lemma MeanOfConstant(xs: seq<real>, c: real)
    requires |xs| > 0
    requires forall i :: 0 <= i < |xs| ==> xs[i] == c
    ensures Mean(xs) == c
  {
    SumOfConstant(xs, c);
  }

  /** Every station has at least one recorded level. */
  predicate Filled(history: seq<seq<real>>)
  {
    forall b :: 0 <= b < |history| ==> |history[b]| > 0
  }

  /** Station `b` is a candidate: it is not the attached station and its
      windowed mean beats the attached station's by the threshold. */
  predicate Qualifies(history: seq<seq<real>>, current: nat, b: nat, threshold: real)
    requires Filled(history) && current < |history| && b < |history|
  {
    b != current && Mean(history[b]) >= Mean(history[current]) + threshold
  }

  datatype Choice = Choice(level: real, station: nat)

  /** The running maximum after the candidates 0 .. k-1 have been looked at,
      seeded with the attached station and its instantaneous level. */
  function Best(history: seq<seq<real>>, current: nat, currentLevel: real, threshold: real, k: nat): (c: Choice)
    requires Filled(history) && current < |history| && k <= |history|
    ensures c.station == current || (c.station < k && Qualifies(history, current, c.station, threshold))
  {
    if k == 0 then Choice(currentLevel, current)
    else
      var c := Best(history, current, currentLevel, threshold, k - 1);
      var b := k - 1;
      if Qualifies(history, current, b, threshold) && Mean(history[b]) > c.level
      then Choice(Mean(history[b]), b)
      else c
  }

  /** The station the running maximum ends on. */
  function Target(history: seq<seq<real>>, current: nat, currentLevel: real, threshold: real): (b: nat)
    requires Filled(history) && current < |history|
    ensures b < |history|
  {
    Best(history, current, currentLevel, threshold, |history|).station
  }

  /** The running maximum, described without the loop: it stays on the
      attached station exactly when no candidate's mean beats the seed
      level, and otherwise it ends on the first candidate with the largest
      mean, which is above the seed level. */
  lemma {:induction false} BestIsFirstLargest(history: seq<seq<real>>, current: nat, currentLevel: real, threshold: real, k: nat)
    requires Filled(history) && current < |history| && k <= |history|
    ensures var c := Best(history, current, currentLevel, threshold, k);
      && (c.station == current <==>
            forall b :: 0 <= b < k && Qualifies(history, current, b, threshold) ==> Mean(history[b]) <= currentLevel)
      && (c.station == current ==> c.level == currentLevel)
      && (c.station != current ==>
            && c.level == Mean(history[c.station])
            && currentLevel < c.level
            && (forall b :: 0 <= b < k && Qualifies(history, current, b, threshold) ==> Mean(history[b]) <= c.level)
            && (forall b :: 0 <= b < c.station && Qualifies(history, current, b, threshold) ==> Mean(history[b]) < c.level))
  {
    if k > 0 {
      BestIsFirstLargest(history, current, currentLevel, threshold, k - 1);
    }
  }

  /** The switch rule: a new target is a candidate whose mean beats the
      attached station's instantaneous level, no candidate has a larger
      mean, and no earlier candidate has the same mean; the attached station
      is kept exactly when no candidate's mean beats its instantaneous level. */
  lemma SwitchRule(history: seq<seq<real>>, current: nat, currentLevel: real, threshold: real)
    requires Filled(history) && current < |history|
    ensures var target := Target(history, current, currentLevel, threshold);
      && (target == current <==>
            forall b :: 0 <= b < |history| && Qualifies(history, current, b, threshold) ==> Mean(history[b]) <= currentLevel)
      && (target != current ==>
            && Qualifies(history, current, target, threshold)
            && currentLevel < Mean(history[target])
            && (forall b :: 0 <= b < |history| && Qualifies(history, current, b, threshold) ==> Mean(history[b]) <= Mean(history[target]))
            && (forall b :: 0 <= b < target && Qualifies(history, current, b, threshold) ==> Mean(history[b]) < Mean(history[target])))
  {
    BestIsFirstLargest(history, current, currentLevel, threshold, |history|);
  }

  /** A station whose whole window holds the sentinel level is never chosen
      while the attached station's mean plus the threshold exceeds the
      sentinel. */
  lemma SentinelNeverSelected(history: seq<seq<real>>, current: nat, currentLevel: real, threshold: real, r: nat)
    requires Filled(history) && current < |history| && r < |history| && r != current
    requires forall i :: 0 <= i < |history[r]| ==> history[r][i] == Sentinel
    requires Sentinel < Mean(history[current]) + threshold
    ensures Target(history, current, currentLevel, threshold) != r
  {
    MeanOfConstant(history[r], Sentinel);
    SwitchRule(history, current, currentLevel, threshold);
  }

  /** The candidate loop of one step. */
  method SelectTarget(history: seq<seq<real>>, current: nat, currentSignal: real, threshold: real) returns (maxBs: nat)
    requires Filled(history) && current < |history|
    ensures maxBs == Target(history, current, currentSignal, threshold)
  {
    var maxSignal := currentSignal;
    maxBs := current;
    for b := 0 to |history|
      invariant Choice(maxSignal, maxBs) == Best(history, current, currentSignal, threshold, b)
    {
      if b != current {
        var avgCurrentSignal := Mean(history[current]);
        var avgCandidateSignal := Mean(history[b]);
        if avgCandidateSignal >= avgCurrentSignal + threshold {
          if avgCandidateSignal > maxSignal {
            maxSignal := avgCandidateSignal;
            maxBs := b;
          }
        }
      }
    }
  }

  // ---------------------------------------------------------------------
  // The state machine

  /** Engine state of one terminal. */
  datatype Attachment = Attachment(current: nat, history: seq<seq<real>>, lastHandover: int)

  /** One processed time step with index `t` and the levels of all stations. */
  function Decide(s: Attachment, levels: seq<real>, t: int, threshold: real): (r: Attachment)
    requires s.current < |levels| && |s.history| == |levels|
    ensures r.current < |levels| && r.history == Observe(s.history, levels)
    ensures r.current != s.current ==>
      && t - s.lastHandover >= MinTimeBetweenHandovers
      && r.current == Target(r.history, s.current, levels[s.current], threshold)
      && r.lastHandover == t
    ensures r.current == s.current ==> r.lastHandover == s.lastHandover
  {
    var history := Observe(s.history, levels);
    if t - s.lastHandover >= MinTimeBetweenHandovers then
      var target := Target(history, s.current, levels[s.current], threshold);
      if target != s.current then Attachment(target, history, t)
      else Attachment(s.current, history, s.lastHandover)
    else Attachment(s.current, history, s.lastHandover)
  }

  /** Once the dwell time has passed, the step always ends on the target of
      the candidate scan: the attachment is kept only when the scan keeps it. */
  lemma DecideFollowsTarget(s: Attachment, levels: seq<real>, t: int, threshold: real)
    requires s.current < |levels| && |s.history| == |levels|
    requires t - s.lastHandover >= MinTimeBetweenHandovers
    ensures var r := Decide(s, levels, t, threshold);
      r.current == Target(r.history, s.current, levels[s.current], threshold)
  {
  }

  /** One step of the loop body: record the levels, then, once the dwell
      time has passed, run the candidate loop and switch when it picks
      another station. */
  method HandoverStep(currentBs: nat, signalHistory: seq<seq<real>>, lastHandoverTime: int,
                      allSignals: seq<real>, t: int, threshold: real)
    returns (newBs: nat, newHistory: seq<seq<real>>, newHandoverTime: int)
    requires currentBs < |allSignals| && |signalHistory| == |allSignals|
    ensures Attachment(newBs, newHistory, newHandoverTime)
         == Decide(Attachment(currentBs, signalHistory, lastHandoverTime), allSignals, t, threshold)
  {
    var currentSignal := allSignals[currentBs];
    newBs, newHandoverTime := currentBs, lastHandoverTime;
    newHistory := RecordLevels(signalHistory, allSignals);
    if t - lastHandoverTime >= MinTimeBetweenHandovers {
      var maxBs := SelectTarget(newHistory, currentBs, currentSignal, threshold);
      if maxBs != currentBs {
        newBs := maxBs;
        newHandoverTime := t;
      }
    }
  }

  /** One terminal's levels: one row per time step, the same positive width throughout. */
  predicate Rectangular(rows: seq<seq<real>>)
  {
    && |rows| > 0
    && |rows[0]| > 0
    && forall t :: 0 <= t < |rows| ==> |rows[t]| == |rows[0]|
  }

  /** Attached to the strongest station at the first time step, empty
      histories, last handover at index 0. */
  function Init(rows: seq<seq<real>>): (s: Attachment)
    requires Rectangular(rows)
  {
    Attachment(Argmax(rows[0]), seq(|rows[0]|, _ => []), 0)
  }

  /** The state after the steps with indices first .. t-1 have been processed. */
  function Run(rows: seq<seq<real>>, threshold: real, first: nat, t: nat): (s: Attachment)
    requires Rectangular(rows) && first <= t <= |rows|
    ensures s.current < |rows[0]| && |s.history| == |rows[0]|
    ensures 0 <= s.lastHandover <= t
    decreases t
  {
    if t == first then Init(rows)
    else Decide(Run(rows, threshold, first, t - 1), rows[t - 1], t - 1, threshold)
  }

  /** The attached station changes while step `k` is processed. */
  predicate HandoverAt(rows: seq<seq<real>>, threshold: real, first: nat, k: nat)
    requires Rectangular(rows) && first <= k < |rows|
  {
    Run(rows, threshold, first, k + 1).current != Run(rows, threshold, first, k).current
  }

  /** The levels of station `b` at the steps lo .. hi-1. */
  function Column(rows: seq<seq<real>>, b: nat, lo: nat, hi: nat): (col: seq<real>)
    requires lo <= hi <= |rows|
    ensures |col| == hi - lo
    ensures forall i :: 0 <= i < hi - lo && b < |rows[lo + i]| ==> col[i] == rows[lo + i][b]
  {
    seq(hi - lo, i requires 0 <= i < hi - lo => if b < |rows[lo + i]| then rows[lo + i][b] else 0.0)
  }

  /** Extending the processed range by one step appends that step's level. */
  lemma ColumnExtend(rows: seq<seq<real>>, first: nat, t: nat, b: nat)
    requires first < t <= |rows|
    requires forall i :: 0 <= i < |rows| ==> b < |rows[i]|
    ensures Column(rows, b, first, t) == Column(rows, b, first, t - 1) + [rows[t - 1][b]]
  {
    var longer, shorter := Column(rows, b, first, t), Column(rows, b, first, t - 1);
    assert |longer| == |shorter + [rows[t - 1][b]]|;
    forall i | 0 <= i < t - first
      ensures longer[i] == (shorter + [rows[t - 1][b]])[i]
    {
      assert b < |rows[first + i]|;
    }
  }

  /** One processed step pushes the step's level onto each history. */
  lemma RunHistoryStep(rows: seq<seq<real>>, threshold: real, first: nat, t: nat, b: nat)
    requires Rectangular(rows) && first < t <= |rows| && b < |rows[0]|
    ensures Run(rows, threshold, first, t).history[b]
         == Push(Run(rows, threshold, first, t - 1).history[b], rows[t - 1][b])
  {
    var prev := Run(rows, threshold, first, t - 1);
    assert Run(rows, threshold, first, t).history == Observe(prev.history, rows[t - 1]);
  }

  /** The history of station `b` after the steps first .. t-1, built by
      pushing one level per step. */
  function Recorded(rows: seq<seq<real>>, b: nat, first: nat, t: nat): (h: seq<real>)
    requires first <= t <= |rows| && forall i :: 0 <= i < |rows| ==> b < |rows[i]|
    decreases t
  {
    if t == first then [] else Push(Recorded(rows, b, first, t - 1), rows[t - 1][b])
  }

  /** The engine's history of a station is the one built by pushing its levels. */
  lemma {:induction false} RunRecords(rows: seq<seq<real>>, threshold: real, first: nat, t: nat, b: nat)
    requires Rectangular(rows) && first <= t <= |rows| && b < |rows[0]|
    ensures Run(rows, threshold, first, t).history[b] == Recorded(rows, b, first, t)
    decreases t
  {
    if t > first {
      RunRecords(rows, threshold, first, t - 1, b);
      RunHistoryStep(rows, threshold, first, t, b);
    }
  }

  /** Pushing level by level keeps exactly the last TimeWindow levels. */
  lemma {:induction false} RecordedIsRecent(rows: seq<seq<real>>, b: nat, first: nat, t: nat)
    requires first <= t <= |rows| && forall i :: 0 <= i < |rows| ==> b < |rows[i]|
    ensures Recorded(rows, b, first, t) == Recent(Column(rows, b, first, t))
    decreases t
  {
    if t == first {
      assert Column(rows, b, first, t) == [];
    } else {
      RecordedIsRecent(rows, b, first, t - 1);
      ColumnExtend(rows, first, t, b);
      RecentThenPush(Column(rows, b, first, t - 1), rows[t - 1][b]);
    }
  }

  /** Each station's history holds at most TimeWindow entries, and they are
      its most recent levels, oldest first. */
  lemma HistoryHoldsRecentLevels(rows: seq<seq<real>>, threshold: real, first: nat, t: nat, b: nat)
    requires Rectangular(rows) && first <= t <= |rows| && b < |rows[0]|
    ensures Run(rows, threshold, first, t).history[b] == Recent(Column(rows, b, first, t))
    ensures |Run(rows, threshold, first, t).history[b]| <= TimeWindow
  {
    RunRecords(rows, threshold, first, t, b);
    RecordedIsRecent(rows, b, first, t);
  }

  /** Processing step t - 1 is one `Decide`. */
  lemma RunStep(rows: seq<seq<real>>, threshold: real, first: nat, t: nat)
    requires Rectangular(rows) && first < t <= |rows|
    ensures Run(rows, threshold, first, t) == Decide(Run(rows, threshold, first, t - 1), rows[t - 1], t - 1, threshold)
  {
  }

  /** One step never switches to a station whose updated history is all
      sentinel while the attached station's updated mean stays above the
      sentinel less the threshold. */
  lemma DecideAvoidsSentinel(s: Attachment, levels: seq<real>, t: int, threshold: real, r: nat, next: Attachment)
    requires s.current < |levels| && |s.history| == |levels| && r < |levels| && r != s.current
    requires next == Decide(s, levels, t, threshold)
    requires forall i :: 0 <= i < |next.history[r]| ==> next.history[r][i] == Sentinel
    requires Sentinel < Mean(next.history[s.current]) + threshold
    ensures next.current != r
  {
    if next.current != s.current {
      SentinelNeverSelected(next.history, s.current, levels[s.current], threshold, r);
    }
  }

  /** A station whose level was the sentinel at every step of the last
      window is not switched to while the attached station's mean stays above
      the sentinel less the threshold. */
  lemma SentinelStationNotChosen(rows: seq<seq<real>>, threshold: real, first: nat, k: nat, r: nat)
    requires Rectangular(rows) && first <= k < |rows| && r < |rows[0]|
    requires forall j :: first <= j <= k && k - j < TimeWindow ==> rows[j][r] == Sentinel
    requires var s := Run(rows, threshold, first, k);
      && s.current != r
      && Sentinel < Mean(Run(rows, threshold, first, k + 1).history[s.current]) + threshold
    ensures Run(rows, threshold, first, k + 1).current != r
  {
    RunStep(rows, threshold, first, k + 1);
    SentinelHistory(rows, threshold, first, k, r);
    DecideAvoidsSentinel(Run(rows, threshold, first, k), rows[k], k, threshold, r, Run(rows, threshold, first, k + 1));
  }

  /** A station whose level was the sentinel over the last window has only
      the sentinel in its history. */
  lemma SentinelHistory(rows: seq<seq<real>>, threshold: real, first: nat, k: nat, r: nat)
    requires Rectangular(rows) && first <= k < |rows| && r < |rows[0]|
    requires forall j :: first <= j <= k && k - j < TimeWindow ==> rows[j][r] == Sentinel
    ensures var h := Run(rows, threshold, first, k + 1).history[r];
      forall i :: 0 <= i < |h| ==> h[i] == Sentinel
  {
    HistoryHoldsRecentLevels(rows, threshold, first, k + 1, r);
    WindowOfSentinels(rows, first, k, r, Run(rows, threshold, first, k + 1).history[r]);
  }

  /** The window of a column whose last TimeWindow levels are the sentinel. */
  lemma WindowOfSentinels(rows: seq<seq<real>>, first: nat, k: nat, r: nat, h: seq<real>)
    requires Rectangular(rows) && first <= k < |rows| && r < |rows[0]|
    requires forall j :: first <= j <= k && k - j < TimeWindow ==> rows[j][r] == Sentinel
    requires h == Recent(Column(rows, r, first, k + 1))
    ensures forall i :: 0 <= i < |h| ==> h[i] == Sentinel
  {
    var col := Column(rows, r, first, k + 1);
    forall i | 0 <= i < |h| ensures h[i] == Sentinel {
      RecentEntry(col, i);
      var j := first + |col| - |h| + i;
      assert r < |rows[j]|;
    }
  }

  /** The index of the last handover never moves backwards. */
  lemma {:induction false} LastHandoverMonotone(rows: seq<seq<real>>, threshold: real, first: nat, i: nat, j: nat)
    requires Rectangular(rows) && first <= i <= j <= |rows|
    ensures Run(rows, threshold, first, i).lastHandover <= Run(rows, threshold, first, j).lastHandover
    decreases j
  {
    if i < j {
      LastHandoverMonotone(rows, threshold, first, i, j - 1);
    }
  }

  /** No handover happens before index MinTimeBetweenHandovers, and a
      handover records its own index. */
  lemma NoEarlyHandover(rows: seq<seq<real>>, threshold: real, first: nat, k: nat)
    requires Rectangular(rows) && first <= k < |rows|
    requires HandoverAt(rows, threshold, first, k)
    ensures k >= MinTimeBetweenHandovers
    ensures Run(rows, threshold, first, k + 1).lastHandover == k
  {
  }

  /** Until index MinTimeBetweenHandovers has been processed, the terminal
      stays on the station it started on. */
  lemma {:induction false} StartingStationHolds(rows: seq<seq<real>>, threshold: real, first: nat, t: nat)
    requires Rectangular(rows) && first <= t <= |rows| && t <= MinTimeBetweenHandovers
    ensures Run(rows, threshold, first, t).current == Init(rows).current
    decreases t
  {
    if t > first {
      StartingStationHolds(rows, threshold, first, t - 1);
    }
  }

  /** Two handovers are at least MinTimeBetweenHandovers indices apart. */
  lemma HandoversAreSpaced(rows: seq<seq<real>>, threshold: real, first: nat, k1: nat, k2: nat)
    requires Rectangular(rows) && first <= k1 < k2 < |rows|
    requires HandoverAt(rows, threshold, first, k1) && HandoverAt(rows, threshold, first, k2)
    ensures k2 - k1 >= MinTimeBetweenHandovers
  {
    LastHandoverMonotone(rows, threshold, first, k1 + 1, k2);
  }

  /** A handover at step `k` goes to the first candidate with the largest
      windowed mean over the recorded levels, and that mean beats both the
      old station's windowed mean by the threshold and its level at `k`. */
  lemma HandoverChoosesBestCandidate(rows: seq<seq<real>>, threshold: real, first: nat, k: nat)
    requires Rectangular(rows) && first <= k < |rows|
    requires HandoverAt(rows, threshold, first, k)
    ensures var old_ := Run(rows, threshold, first, k).current;
      var s := Run(rows, threshold, first, k + 1);
      && Qualifies(s.history, old_, s.current, threshold)
      && rows[k][old_] < Mean(s.history[s.current])
      && (forall b :: 0 <= b < |s.history| && Qualifies(s.history, old_, b, threshold) ==>
            Mean(s.history[b]) <= Mean(s.history[s.current]))
  {
    var prev := Run(rows, threshold, first, k);
    var s := Run(rows, threshold, first, k + 1);
    SwitchRule(s.history, prev.current, rows[k][prev.current], threshold);
  }
}
