/**
  The random-waypoint movement of the terminals. Each terminal is a small
  state machine over its position, its current waypoint and a pause
  timer: while paused it stays put and the timer runs down; when the
  waypoint is closer than one step's travel it snaps onto it, draws the
  next waypoint and starts a pause; otherwise it advances one step's
  travel towards the waypoint.

  The Euclidean length is a parameter `norm`, and the lemmas that need it
  to be the length assume `IsNorm(norm)`. The random draws are a
  parameter `draw`: `draw(i, 0)` is terminal i's first waypoint and
  `draw(i, t)` the waypoint it draws when it reaches one at step t.
 */
module UeMovement {

  datatype Point = Point(x: real, y: real)

  function Add(a: Point, b: Point): Point
  {
    Point(a.x + b.x, a.y + b.y)
  }

  function Sub(a: Point, b: Point): Point
  {
    Point(a.x - b.x, a.y - b.y)
  }

  function Scale(k: real, p: Point): Point
  {
    Point(k * p.x, k * p.y)
  }

  /** `norm(dx, dy)` is the Euclidean length of (dx, dy): the non-negative
      number whose square is dx * dx + dy * dy. */
  ghost predicate IsNorm(norm: (real, real) -> real)
  {
    forall dx: real, dy: real :: 0.0 <= norm(dx, dy) && norm(dx, dy) * norm(dx, dy) == dx * dx + dy * dy
  }

  function Length(norm: (real, real) -> real, p: Point): real
  {
    norm(p.x, p.y)
  }

  /** The time grid is strictly increasing, so every step has a positive duration. */
  predicate Increasing(T: seq<real>)
  {
    forall k :: 0 < k < |T| ==> T[k - 1] < T[k]
  }

  /** The state of one terminal between steps. */
  datatype Mover = Mover(pos: Point, waypoint: Point, pause: real)

  /** One step of duration `dt`: pause, reach the waypoint, or advance. */
  function Step(m: Mover, dt: real, speed: real, pauseTime: real, next: Point,
                norm: (real, real) -> real): (r: Mover)
    requires speed > 0.0 && dt > 0.0
  {
    if m.pause > 0.0 then
      Mover(m.pos, m.waypoint, m.pause - dt)
    else
      var direction := Sub(m.waypoint, m.pos);
      var distance := Length(norm, direction);
      assert speed * dt > 0.0;
      if distance < speed * dt then
        Mover(m.waypoint, next, pauseTime)
      else
        Mover(Add(m.pos, Scale(speed * dt, Scale(1.0 / distance, direction))), m.waypoint, m.pause)
  }

  /** The state of terminal `i` after step `t`, starting from `start`. */
  function MoverAt(T: seq<real>, speed: real, pauseTime: real, norm: (real, real) -> real,
                   start: Point, draw: (nat, nat) -> Point, i: nat, t: nat): (m: Mover)
    requires Increasing(T) && speed > 0.0 && t < |T|
  {
    if t == 0 then
      Mover(start, draw(i, 0), 0.0)
    else
      Step(MoverAt(T, speed, pauseTime, norm, start, draw, i, t - 1), T[t] - T[t - 1], speed, pauseTime,
           draw(i, t), norm)
  }

  /** Squares of non-negative numbers keep their strict order. */
  lemma SquareGap(a: real, b: real)
    requires 0.0 <= a < b
    ensures a * a < b * b
  {
    assert b * b - a * a == (b - a) * b + (b - a) * a;
    assert (b - a) * b > 0.0 && (b - a) * a >= 0.0;
  }

  /** A non-negative number is determined by its square. */
  lemma SquareRootUnique(a: real, b: real)
    requires 0.0 <= a && 0.0 <= b && a * a == b * b
    ensures a == b
  {
    if a < b {
      SquareGap(a, b);
    } else if b < a {
      SquareGap(b, a);
    }
  }

  /** Squaring preserves the order of non-negative numbers. */
  lemma SquareMonotone(a: real, b: real)
    requires 0.0 <= a && 0.0 <= b
    ensures a < b <==> a * a < b * b
  {
    if a < b {
      SquareGap(a, b);
    } else if b < a {
      SquareGap(b, a);
    }
  }

  /** Scaling a vector by `k >= 0` scales its length by `k`. */
  lemma ScaledLength(norm: (real, real) -> real, k: real, d: Point)
    requires IsNorm(norm) && 0.0 <= k
    ensures Length(norm, Scale(k, d)) == k * Length(norm, d)
  {
    var n := Length(norm, d);
    var m := Length(norm, Scale(k, d));
    assert 0.0 <= n && n * n == d.x * d.x + d.y * d.y;
    assert 0.0 <= m && m * m == (k * d.x) * (k * d.x) + (k * d.y) * (k * d.y);
    assert (k * n) * (k * n) == k * k * (n * n);
    assert m * m == (k * n) * (k * n);
    SquareRootUnique(m, k * n);
  }

  /** The zero vector has length 0. */
  lemma ZeroLength(norm: (real, real) -> real)
    requires IsNorm(norm)
    ensures Length(norm, Point(0.0, 0.0)) == 0.0
  {
    var n := Length(norm, Point(0.0, 0.0));
    assert 0.0 <= n && n * n == 0.0;
    SquareRootUnique(n, 0.0);
  }

  /** The "reached" test on the length is the same as the test on the
      squared distance against the squared travel. */
  lemma ReachedIffSquaredDistance(norm: (real, real) -> real, d: Point, travel: real)
    requires IsNorm(norm) && 0.0 <= travel
    ensures Length(norm, d) < travel <==> d.x * d.x + d.y * d.y < travel * travel
  {
    var n := Length(norm, d);
    assert 0.0 <= n && n * n == d.x * d.x + d.y * d.y;
    SquareMonotone(n, travel);
  }

  /** A terminal already on its waypoint takes the "reached" branch: the
      advance, which divides by the distance, is never taken at distance 0. */
  lemma ZeroDistanceReaches(m: Mover, dt: real, speed: real, pauseTime: real, next: Point,
                            norm: (real, real) -> real)
    requires IsNorm(norm) && speed > 0.0 && dt > 0.0
    requires m.pause <= 0.0 && m.pos == m.waypoint
    ensures Step(m, dt, speed, pauseTime, next, norm) == Mover(m.waypoint, next, pauseTime)
  {
    ZeroLength(norm);
    assert Sub(m.waypoint, m.pos) == Point(0.0, 0.0);
    assert speed * dt > 0.0;
  }

  /** The advance moves the terminal onto the segment towards the
      waypoint, by the fraction `speed * dt / distance` of it, which lies
      in (0, 1]. */
  lemma AdvanceFraction(m: Mover, dt: real, speed: real, pauseTime: real, next: Point,
                        norm: (real, real) -> real)
    requires speed > 0.0 && dt > 0.0
    requires m.pause <= 0.0 && Length(norm, Sub(m.waypoint, m.pos)) >= speed * dt
    ensures var distance := Length(norm, Sub(m.waypoint, m.pos));
      var k := speed * dt / distance;
      var r := Step(m, dt, speed, pauseTime, next, norm);
      && 0.0 < k <= 1.0
      && r == Mover(Add(m.pos, Scale(k, Sub(m.waypoint, m.pos))), m.waypoint, m.pause)
  {
    var d := Sub(m.waypoint, m.pos);
    var distance := Length(norm, d);
    var travel := speed * dt;
    assert travel > 0.0;
    var k := travel / distance;
    assert k * distance == travel;
    assert Scale(travel, Scale(1.0 / distance, d)) == Scale(k, d);
  }

  /** The advance covers exactly `speed * dt` and brings the terminal that
      much closer to its waypoint, which it keeps, like its pause timer. */
  lemma AdvanceApproachesWaypoint(m: Mover, dt: real, speed: real, pauseTime: real, next: Point,
                                  norm: (real, real) -> real)
    requires IsNorm(norm) && speed > 0.0 && dt > 0.0
    requires m.pause <= 0.0 && Length(norm, Sub(m.waypoint, m.pos)) >= speed * dt
    ensures var r := Step(m, dt, speed, pauseTime, next, norm);
      && r.waypoint == m.waypoint && r.pause == m.pause
      && Length(norm, Sub(r.pos, m.pos)) == speed * dt
      && Length(norm, Sub(r.waypoint, r.pos)) == Length(norm, Sub(m.waypoint, m.pos)) - speed * dt
  {
    var d := Sub(m.waypoint, m.pos);
    var distance := Length(norm, d);
    var k := speed * dt / distance;
    AdvanceFraction(m, dt, speed, pauseTime, next, norm);
    var r := Step(m, dt, speed, pauseTime, next, norm);
    assert k * distance == speed * dt;
    assert Sub(r.pos, m.pos) == Scale(k, d);
    ScaledLength(norm, k, d);
    assert Sub(r.waypoint, r.pos) == Scale(1.0 - k, d);
    ScaledLength(norm, 1.0 - k, d);
  }

  /** One step never moves a terminal further than its travel `speed * dt`. */
  lemma StepWithinTravel(m: Mover, dt: real, speed: real, pauseTime: real, next: Point,
                         norm: (real, real) -> real)
    requires IsNorm(norm) && speed > 0.0 && dt > 0.0
    ensures Length(norm, Sub(Step(m, dt, speed, pauseTime, next, norm).pos, m.pos)) <= speed * dt
  {
    var r := Step(m, dt, speed, pauseTime, next, norm);
    assert speed * dt > 0.0;
    if m.pause > 0.0 {
      ZeroLength(norm);
      assert Sub(r.pos, m.pos) == Point(0.0, 0.0);
    } else if Length(norm, Sub(m.waypoint, m.pos)) >= speed * dt {
      AdvanceApproachesWaypoint(m, dt, speed, pauseTime, next, norm);
    } else {
      assert r.pos == m.waypoint;
    }
  }

  /** While the pause timer has not run out, the terminal stays where it
      was and the timer runs down by the time elapsed. */
  lemma {:induction false} PauseHoldsPosition(T: seq<real>, speed: real, pauseTime: real, norm: (real, real) -> real,
                                              start: Point, draw: (nat, nat) -> Point, i: nat, t: nat, u: nat)
    requires Increasing(T) && speed > 0.0 && t <= u < |T|
    requires t < u ==> T[u - 1] - T[t] < MoverAt(T, speed, pauseTime, norm, start, draw, i, t).pause
    ensures var m := MoverAt(T, speed, pauseTime, norm, start, draw, i, t);
      var r := MoverAt(T, speed, pauseTime, norm, start, draw, i, u);
      && r.pos == m.pos && r.waypoint == m.waypoint
      && r.pause == m.pause - (T[u] - T[t])
    decreases u
  {
    if t < u {
      if t < u - 1 {
        assert T[u - 2] < T[u - 1];
      }
      PauseHoldsPosition(T, speed, pauseTime, norm, start, draw, i, t, u - 1);
    }
  }

  /** On reaching its waypoint at step `t` the terminal snaps onto it,
      takes the next drawn waypoint and stays on the reached one for as
      long as the pause lasts. */
  lemma DwellsAtWaypoint(T: seq<real>, speed: real, pauseTime: real, norm: (real, real) -> real,
                         start: Point, draw: (nat, nat) -> Point, i: nat, t: nat, u: nat)
    requires Increasing(T) && speed > 0.0 && 0 < t <= u < |T|
    requires var m := MoverAt(T, speed, pauseTime, norm, start, draw, i, t - 1);
      m.pause <= 0.0 && Length(norm, Sub(m.waypoint, m.pos)) < speed * (T[t] - T[t - 1])
    requires t < u ==> T[u - 1] - T[t] < pauseTime
    ensures var m := MoverAt(T, speed, pauseTime, norm, start, draw, i, t - 1);
      var r := MoverAt(T, speed, pauseTime, norm, start, draw, i, u);
      && r.pos == m.waypoint && r.waypoint == draw(i, t)
      && r.pause == pauseTime - (T[u] - T[t])
  {
    PauseHoldsPosition(T, speed, pauseTime, norm, start, draw, i, t, u);
  }

  /** Inside the square map [0, size] x [0, size]. */
  predicate InMap(p: Point, size: real)
  {
    0.0 <= p.x <= size && 0.0 <= p.y <= size
  }

  /** A number a fraction `k` in [0, 1] of the way from `a` to `b` lies between them. */
  lemma BetweenBounds(a: real, b: real, k: real, size: real)
    requires 0.0 <= a <= size && 0.0 <= b <= size && 0.0 <= k <= 1.0
    ensures 0.0 <= a + k * (b - a) <= size
  {
    var d := b - a;
    assert k * d + (1.0 - k) * d == d;
    if d >= 0.0 {
      assert k * d >= 0.0 && (1.0 - k) * d >= 0.0;
    } else {
      assert k * d <= 0.0 && (1.0 - k) * d <= 0.0;
    }
  }

  /** A point a fraction `k` in [0, 1] of the way between two map points
      is a map point. */
  lemma BetweenInMap(p: Point, w: Point, k: real, size: real)
    requires InMap(p, size) && InMap(w, size) && 0.0 <= k <= 1.0
    ensures InMap(Add(p, Scale(k, Sub(w, p))), size)
  {
    BetweenBounds(p.x, w.x, k, size);
    BetweenBounds(p.y, w.y, k, size);
  }

  /** A terminal that starts in the map and only draws waypoints in the
      map never leaves it. */
  lemma {:induction false} StaysInMap(T: seq<real>, speed: real, pauseTime: real, norm: (real, real) -> real,
                                      start: Point, draw: (nat, nat) -> Point, i: nat, t: nat, size: real)
    requires Increasing(T) && speed > 0.0 && t < |T|
    requires InMap(start, size)
    requires forall k :: 0 <= k <= t ==> InMap(draw(i, k), size)
    ensures InMap(MoverAt(T, speed, pauseTime, norm, start, draw, i, t).pos, size)
    ensures InMap(MoverAt(T, speed, pauseTime, norm, start, draw, i, t).waypoint, size)
    decreases t
  {
    if t > 0 {
      StaysInMap(T, speed, pauseTime, norm, start, draw, i, t - 1, size);
      var m := MoverAt(T, speed, pauseTime, norm, start, draw, i, t - 1);
      var dt := T[t] - T[t - 1];
      assert InMap(draw(i, t), size);
      if m.pause <= 0.0 && Length(norm, Sub(m.waypoint, m.pos)) >= speed * dt {
        AdvanceFraction(m, dt, speed, pauseTime, draw(i, t), norm);
        var k := speed * dt / Length(norm, Sub(m.waypoint, m.pos));
        BetweenInMap(m.pos, m.waypoint, k, size);
      }
    }
  }

  /** A terminal's trajectory up to step `t` depends only on its start
      and on its own draws up to step `t`. */
  lemma {:induction false} OwnInputsOnly(T: seq<real>, speed: real, pauseTime: real, norm: (real, real) -> real,
                                         start: Point, draw1: (nat, nat) -> Point, i: nat,
                                         draw2: (nat, nat) -> Point, j: nat, t: nat)
    requires Increasing(T) && speed > 0.0 && t < |T|
    requires forall k :: 0 <= k <= t ==> draw1(i, k) == draw2(j, k)
    ensures MoverAt(T, speed, pauseTime, norm, start, draw1, i, t)
         == MoverAt(T, speed, pauseTime, norm, start, draw2, j, t)
    decreases t
  {
    if t > 0 {
      OwnInputsOnly(T, speed, pauseTime, norm, start, draw1, i, draw2, j, t - 1);
      assert draw1(i, t) == draw2(j, t);
    } else {
      assert draw1(i, 0) == draw2(j, 0);
    }
  }

  /** Advances terminal `i` by step `t` in place, and records its position. */
  method MoveTerminal(positions: array2<Point>, currentPositions: array<Point>, waypoints: array<Point>,
                      pauseTimes: array<real>, start: Point, i: nat, t: nat, time: seq<real>, speed: real,
                      pauseTime: real, draw: (nat, nat) -> Point, norm: (real, real) -> real)
    requires Increasing(time) && speed > 0.0 && 0 < t < |time|
    requires currentPositions != waypoints
    requires i < positions.Length0 && positions.Length1 == |time|
    requires i < currentPositions.Length && i < waypoints.Length && i < pauseTimes.Length
    requires positions[i, t - 1] == currentPositions[i]
    requires Mover(currentPositions[i], waypoints[i], pauseTimes[i])
      == MoverAt(time, speed, pauseTime, norm, start, draw, i, t - 1)
    modifies positions, currentPositions, waypoints, pauseTimes
    ensures Mover(currentPositions[i], waypoints[i], pauseTimes[i])
      == MoverAt(time, speed, pauseTime, norm, start, draw, i, t)
    ensures positions[i, t] == currentPositions[i]
    ensures forall j, t' :: 0 <= j < positions.Length0 && 0 <= t' < positions.Length1 && (j, t') != (i, t) ==>
      positions[j, t'] == old(positions[j, t'])
    ensures forall j :: 0 <= j < currentPositions.Length && j != i ==> currentPositions[j] == old(currentPositions[j])
    ensures forall j :: 0 <= j < waypoints.Length && j != i ==> waypoints[j] == old(waypoints[j])
    ensures forall j :: 0 <= j < pauseTimes.Length && j != i ==> pauseTimes[j] == old(pauseTimes[j])
  {
    var dt := time[t] - time[t - 1];
    ghost var next := Step(Mover(currentPositions[i], waypoints[i], pauseTimes[i]), dt, speed, pauseTime,
                           draw(i, t), norm);
    assert next == MoverAt(time, speed, pauseTime, norm, start, draw, i, t);
    if pauseTimes[i] > 0.0 {
      pauseTimes[i] := pauseTimes[i] - dt;
      currentPositions[i] := positions[i, t - 1];
    } else {
      var direction := Sub(waypoints[i], currentPositions[i]);
      var distance := norm(direction.x, direction.y);
      assert speed * dt > 0.0;
      if distance < speed * dt {
        currentPositions[i] := waypoints[i];
        waypoints[i] := draw(i, t);
        pauseTimes[i] := pauseTime;
      } else {
        var normalizedDirection := Scale(1.0 / distance, direction);
        currentPositions[i] := Add(positions[i, t - 1], Scale(speed * dt, normalizedDirection));
      }
    }
    positions[i, t] := currentPositions[i];
  }

  /** Advances every terminal by step `t`, in order. */
  method StepAllTerminals(positions: array2<Point>, currentPositions: array<Point>, waypoints: array<Point>,
                          pauseTimes: array<real>, initialPositions: seq<Point>, t: nat, time: seq<real>,
                          speed: real, pauseTime: real, draw: (nat, nat) -> Point, norm: (real, real) -> real)
    requires Increasing(time) && speed > 0.0 && 0 < t < |time|
    requires currentPositions != waypoints
    requires positions.Length0 == |initialPositions| && positions.Length1 == |time|
    requires currentPositions.Length == waypoints.Length == pauseTimes.Length == |initialPositions|
    requires forall j :: 0 <= j < |initialPositions| ==>
      Mover(currentPositions[j], waypoints[j], pauseTimes[j])
        == MoverAt(time, speed, pauseTime, norm, initialPositions[j], draw, j, t - 1)
    requires forall j, t' :: 0 <= j < |initialPositions| && 0 <= t' < t ==>
      positions[j, t'] == MoverAt(time, speed, pauseTime, norm, initialPositions[j], draw, j, t').pos
    modifies positions, currentPositions, waypoints, pauseTimes
    ensures forall j :: 0 <= j < |initialPositions| ==>
      Mover(currentPositions[j], waypoints[j], pauseTimes[j])
        == MoverAt(time, speed, pauseTime, norm, initialPositions[j], draw, j, t)
    ensures forall j, t' :: 0 <= j < |initialPositions| && 0 <= t' <= t ==>
      positions[j, t'] == MoverAt(time, speed, pauseTime, norm, initialPositions[j], draw, j, t').pos
  {
    var numUe := |initialPositions|;
    for i := 0 to numUe
      invariant forall j :: 0 <= j < i ==>
        Mover(currentPositions[j], waypoints[j], pauseTimes[j])
          == MoverAt(time, speed, pauseTime, norm, initialPositions[j], draw, j, t)
      invariant forall j :: 0 <= j < i ==>
        positions[j, t] == MoverAt(time, speed, pauseTime, norm, initialPositions[j], draw, j, t).pos
      invariant forall j :: i <= j < numUe ==>
        currentPositions[j] == old(currentPositions[j]) && waypoints[j] == old(waypoints[j])
        && pauseTimes[j] == old(pauseTimes[j])
      invariant forall j, t' :: 0 <= j < numUe && 0 <= t' < |time| && t' != t ==>
        positions[j, t'] == old(positions[j, t'])
    {
      MoveTerminal(positions, currentPositions, waypoints, pauseTimes, initialPositions[i], i, t, time,
                   speed, pauseTime, draw, norm);
    }
  }

  /** Moves every terminal over the time grid, one step at a time, and
      records each terminal's position at every time. */
  method SimulateUeMovement(initialPositions: seq<Point>, speed: real, time: seq<real>, pauseTime: real,
                            draw: (nat, nat) -> Point, norm: (real, real) -> real)
    returns (positions: array2<Point>)
    requires Increasing(time) && speed > 0.0 && |time| > 0
    ensures fresh(positions)
    ensures positions.Length0 == |initialPositions| && positions.Length1 == |time|
    ensures forall i :: 0 <= i < positions.Length0 ==> positions[i, 0] == initialPositions[i]
    ensures forall i, t :: 0 <= i < positions.Length0 && 0 <= t < positions.Length1 ==>
      positions[i, t] == MoverAt(time, speed, pauseTime, norm, initialPositions[i], draw, i, t).pos
  {
    var numUe := |initialPositions|;
    positions := new Point[numUe, |time|]((_, _) => Point(0.0, 0.0));
    forall i | 0 <= i < numUe {
      positions[i, 0] := initialPositions[i];
    }
    var currentPositions := new Point[numUe](i requires 0 <= i < numUe => initialPositions[i]);
    var waypoints := new Point[numUe](i requires 0 <= i => draw(i, 0));
    var pauseTimes := new real[numUe](_ => 0.0);

    for t := 1 to |time|
      invariant forall j :: 0 <= j < numUe ==>
        Mover(currentPositions[j], waypoints[j], pauseTimes[j])
          == MoverAt(time, speed, pauseTime, norm, initialPositions[j], draw, j, t - 1)
      invariant forall j, t' :: 0 <= j < numUe && 0 <= t' < t ==>
        positions[j, t'] == MoverAt(time, speed, pauseTime, norm, initialPositions[j], draw, j, t').pos
    {
      StepAllTerminals(positions, currentPositions, waypoints, pauseTimes, initialPositions, t, time,
                       speed, pauseTime, draw, norm);
    }
  }
}
