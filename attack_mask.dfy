/**
  The attack scheduler of the rogue dataset builder: the rogue levels are
  replaced by the sentinel level everywhere except inside the attack
  intervals, after the intervals have been filtered and clamped to the
  time grid and converted to index ranges.
 */
module AttackMask {
  import opened SignalMatrix

  /** An attack period (start, end) in seconds. */
  datatype Interval = Interval(start: real, end: real)

  function Last(T: seq<real>): real
    requires |T| > 0
  {
    T[|T| - 1]
  }

  /** An interval whose end is cut back to `last` when it runs past it. */
  function Clamp(p: Interval, last: real): Interval
  {
    Interval(p.start, if p.end < last then p.end else last)
  }

  /** The intervals that start before `last`, in order, each clamped. */
  function ClampPeriods(periods: seq<Interval>, last: real): (r: seq<Interval>)
    ensures |r| <= |periods|
    ensures forall iv :: iv in r ==> iv.start < last && iv.end <= last
    ensures forall p :: p in periods && p.start < last ==> Clamp(p, last) in r
    ensures forall iv :: iv in r ==> exists p :: p in periods && p.start < last && iv == Clamp(p, last)
  {
    if periods == [] then []
    else
      var rest := ClampPeriods(periods[1..], last);
      assert forall p :: p in periods[1..] ==> p in periods;
      if periods[0].start < last then [Clamp(periods[0], last)] + rest else rest
  }

  /** The first index `k >= from` with `T[k] >= x`. */
  function FirstAtOrAfter(T: seq<real>, x: real, from: nat): (k: nat)
    requires from < |T| && x <= Last(T)
    ensures from <= k < |T| && x <= T[k]
    ensures forall j :: from <= j < k ==> T[j] < x
    decreases |T| - from
  {
    if x <= T[from] then from else FirstAtOrAfter(T, x, from + 1)
  }

  /** The index range of an interval ends at the first index at or after
      its end, or past the last index when the end is not before the last
      time. */
  function EndIndex(T: seq<real>, end: real): (k: nat)
    requires |T| > 0
    ensures k <= |T|
    ensures k == |T| <==> Last(T) <= end
    ensures k < |T| ==> end <= T[k] && forall j :: 0 <= j < k ==> T[j] < end
  {
    if end < Last(T) then FirstAtOrAfter(T, end, 0) else |T|
  }

  /** Index `t` lies in the index range of interval `iv`. */
  predicate InWindow(T: seq<real>, iv: Interval, t: nat)
    requires |T| > 0
  {
    iv.start <= Last(T) && FirstAtOrAfter(T, iv.start, 0) <= t < EndIndex(T, iv.end)
  }

  /** Index `t` lies in the range of one of the intervals, taken in order. */
  predicate Exposed(T: seq<real>, ivs: seq<Interval>, t: nat)
    requires |T| > 0
  {
    |ivs| > 0 && (Exposed(T, ivs[..|ivs| - 1], t) || InWindow(T, ivs[|ivs| - 1], t))
  }

  /** The rogue level at index `t` is the true one. */
  predicate Active(T: seq<real>, periods: seq<Interval>, t: nat)
    requires |T| > 0
  {
    Exposed(T, ClampPeriods(periods, Last(T)), t)
  }

  /** Union of the ranges: being exposed means lying in some interval's range. */
  lemma {:induction false} ExposedIffInSomeWindow(T: seq<real>, ivs: seq<Interval>, t: nat)
    requires |T| > 0
    ensures Exposed(T, ivs, t) <==> exists iv :: iv in ivs && InWindow(T, iv, t)
  {
    if |ivs| > 0 {
      var init := ivs[..|ivs| - 1];
      ExposedIffInSomeWindow(T, init, t);
      assert ivs == init + [ivs[|ivs| - 1]];
      if Exposed(T, init, t) {
        var iv :| iv in init && InWindow(T, iv, t);
        assert iv in ivs;
      }
    }
  }

  /** An index is unmasked exactly when some period that starts before the
      last time covers it once its end has been clamped to the last time. */
  lemma ActiveIffInSomePeriod(T: seq<real>, periods: seq<Interval>, t: nat)
    requires |T| > 0
    ensures Active(T, periods, t) <==>
      exists p :: p in periods && p.start < Last(T) && InWindow(T, Clamp(p, Last(T)), t)
  {
    var clamped := ClampPeriods(periods, Last(T));
    ExposedIffInSomeWindow(T, clamped, t);
    if Active(T, periods, t) {
      var iv :| iv in clamped && InWindow(T, iv, t);
      var p :| p in periods && p.start < Last(T) && iv == Clamp(p, Last(T));
    }
    if exists p :: p in periods && p.start < Last(T) && InWindow(T, Clamp(p, Last(T)), t) {
      var p :| p in periods && p.start < Last(T) && InWindow(T, Clamp(p, Last(T)), t);
      assert Clamp(p, Last(T)) in clamped;
    }
  }

  /** Reordered or repeated attack periods mask the same indices: only
      the set of periods matters. */
  lemma MaskIgnoresOrder(T: seq<real>, a: seq<Interval>, b: seq<Interval>, t: nat)
    requires |T| > 0
    requires forall p :: p in a <==> p in b
    ensures Active(T, a, t) == Active(T, b, t)
  {
    var last := Last(T);
    var ca, cb := ClampPeriods(a, last), ClampPeriods(b, last);
    ExposedIffInSomeWindow(T, ca, t);
    ExposedIffInSomeWindow(T, cb, t);
    forall iv | iv in ca ensures iv in cb {
      var p :| p in a && p.start < last && iv == Clamp(p, last);
    }
    forall iv | iv in cb ensures iv in ca {
      var p :| p in b && p.start < last && iv == Clamp(p, last);
    }
  }

  /** Taking one more interval exposes exactly the indices of its range. */
  lemma ExposedGrows(T: seq<real>, ivs: seq<Interval>, k: nat)
    requires |T| > 0 && k < |ivs|
    ensures forall t :: Exposed(T, ivs[..k + 1], t) <==> Exposed(T, ivs[..k], t) || InWindow(T, ivs[k], t)
  {
    assert ivs[..k + 1][..k] == ivs[..k];
  }

  /** The true rogue levels where `Active`, the sentinel elsewhere. */
  function MaskedRow(T: seq<real>, periods: seq<Interval>, levels: seq<real>, t: nat): (r: seq<real>)
    requires t < |T|
    ensures |r| == |levels|
  {
    seq(|levels|, r requires 0 <= r < |levels| => if Active(T, periods, t) then levels[r] else Sentinel)
  }

  /** Copies the true levels of every terminal and rogue station into the
      index range of interval `iv`, leaving the other steps as they were. */
  method CopyWindow(attack: array3<real>, T: seq<real>, rbs: seq<seq<seq<real>>>, nUE: nat, nRBS: nat,
                    iv: Interval)
    requires |T| > 0 && iv.start <= Last(T)
    requires Shaped(rbs, nUE, |T|, nRBS)
    requires attack.Length0 == nUE && attack.Length1 == |T| && attack.Length2 == nRBS
    modifies attack
    ensures forall u, t, r :: 0 <= u < nUE && 0 <= t < |T| && 0 <= r < nRBS ==>
      attack[u, t, r] == if InWindow(T, iv, t) then rbs[u][t][r] else old(attack[u, t, r])
  {
    var startIdx := FirstAtOrAfter(T, iv.start, 0);
    var endIdx := EndIndex(T, iv.end);
    forall u, t, r | 0 <= u < nUE && startIdx <= t < endIdx && 0 <= r < nRBS {
      attack[u, t, r] := rbs[u][t][r];
    }
  }

  /** Builds the masked rogue level array: sentinel everywhere, then each
      clamped interval's index range copied from the true levels. */
  method MaskAttacks(T: seq<real>, rbs: seq<seq<seq<real>>>, nUE: nat, nRBS: nat, periods: seq<Interval>)
    returns (attack: array3<real>)
    requires |periods| > 0 ==> |T| > 0
    requires Shaped(rbs, nUE, |T|, nRBS)
    ensures fresh(attack)
    ensures attack.Length0 == nUE && attack.Length1 == |T| && attack.Length2 == nRBS
    ensures forall u, t, r :: 0 <= u < nUE && 0 <= t < |T| && 0 <= r < nRBS ==>
      attack[u, t, r] == MaskedRow(T, periods, rbs[u][t], t)[r]
  {
    attack := new real[nUE, |T|, nRBS]((_, _, _) => Sentinel);
    var clamped := if |periods| == 0 then [] else ClampPeriods(periods, Last(T));
    for k := 0 to |clamped|
      invariant forall u, t, r :: 0 <= u < nUE && 0 <= t < |T| && 0 <= r < nRBS ==>
        attack[u, t, r] == if Exposed(T, clamped[..k], t) then rbs[u][t][r] else Sentinel
    {
      assert clamped[k] in clamped;
      CopyWindow(attack, T, rbs, nUE, nRBS, clamped[k]);
      ExposedGrows(T, clamped, k);
    }
    assert clamped[..|clamped|] == clamped;
    forall u, t, r | 0 <= u < nUE && 0 <= t < |T| && 0 <= r < nRBS
      ensures attack[u, t, r] == MaskedRow(T, periods, rbs[u][t], t)[r]
    {
      assert clamped == ClampPeriods(periods, Last(T));
      assert attack[u, t, r] == if Exposed(T, clamped[..|clamped|], t) then rbs[u][t][r] else Sentinel;
      assert MaskedRow(T, periods, rbs[u][t], t)[r] == if Active(T, periods, t) then rbs[u][t][r] else Sentinel;
    }
  }
}
