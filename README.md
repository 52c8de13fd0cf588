# Rogue base station handover dataset: a verified model

This project models how the rogue-base-station simulator turns received signal levels into a labelled handover dataset, and how it moves its terminals (UEs) over the map. There are three parts:

- **Attack masking and the rogue dataset** (`rogue_bs_data`):
  - The attack periods are filtered and clamped to the time grid, then turned into index ranges.
  - The rogue station levels are kept inside those ranges and set to −100 dBm everywhere else.
  - The handover engine then runs per terminal over the legitimate and the masked rogue stations.
  - It writes one row per (terminal, time step): time, connected station id, the legitimate levels, the first rogue level, and a label that is 1 while the terminal is attached to a rogue station.
- **The legitimate-only dataset** (`legitimate_bs_data`):
  - The same engine runs over the legitimate stations only, from step 0.
  - Each row is written cell by cell, with the rogue column at −100 dBm and the label at 0.
- **Terminal movement** (`simulate_ue_movement`): a random-waypoint walk. At each step a terminal does one of three things:
  - pauses;
  - snaps onto its waypoint, draws the next one and starts a pause;
  - advances `speed * dt` towards the waypoint.

The handover engine, shared by both builders, works as follows:

- A terminal starts on the first strongest station.
- It keeps the last 10 levels of every station.
- Once 20 steps have passed since the last handover, it may switch. It switches to the candidate with the largest windowed mean, provided that mean:
  - beats the current station's windowed mean by the threshold;
  - beats the current station's instantaneous level;
  - beats every earlier qualifying candidate's mean.

The code is organised as follows:

- **Modules:**
  - `SignalMatrix`: shapes, the sentinel level, the row layout and row indexing.
  - `HandoverEngine`: the engine as specification functions (`Observe`, `Target`, `Decide`, `Run`), with the methods that mirror the source loops.
  - `AttackMask`: masking.
  - `RogueDataset` and `LegitimateDataset`: the two builders.
  - `UeMovement`: movement.
- **Imperative parts.** The source mutates `attack_rbs`, `dataset`, the position and timer buffers, and the history lists in place, so these parts are imperative Dafny:
  - `array3`/`array2`/`array` buffers;
  - `for` loops with invariants;
  - each method proved against a specification function (`MaskedRow`, `RogueRow`, `LegitRow`, `MoverAt`, `Observe`, `Target`, `Decide`).
- **Values and parameters:**
  - Signal levels and times are `real`.
  - The level matrices `Rxlev_bs`/`Rxlev_rbs` are given inputs.
  - The Euclidean norm and the random waypoint generator are parameters.

## Model

| member | source | states |
|---|---|---|
| SignalMatrix.RowIndex | visualization/rogue_bs_signal_plot.py:96-97 | the row of terminal u at step t lies inside the `len(T) * NUM_UE` table and decodes back to (u, t) |
| SignalMatrix.WriteRow | visualization/rogue_bs_signal_plot.py:181-184 | a row assignment sets exactly that row to the given values and leaves every other row unchanged |
| HandoverEngine.Argmax | visualization/rogue_bs_signal_plot.py:100 | the index returned holds a maximum level, and every earlier index holds a strictly smaller one (numpy's first maximum) |
| HandoverEngine.Recent | visualization/rogue_bs_signal_plot.py:122 | the window kept holds at most 10 levels |
| HandoverEngine.Push | visualization/rogue_bs_signal_plot.py:140-142 | appending, then popping the oldest entry beyond 10, leaves the last 10 levels of the extended history |
| HandoverEngine.RecentThenPush | visualization/rogue_bs_signal_plot.py:140-142 | pushing onto the last-10 window of a history gives the last-10 window of the extended history |
| HandoverEngine.Observe | visualization/rogue_bs_signal_plot.py:139-142 | after recording a step, every station's history is nonempty and ends with that step's level |
| HandoverEngine.RecordLevels | visualization/rogue_bs_signal_plot.py:139-142 | the append/pop loop over all stations produces exactly `Observe` of the old histories |
| HandoverEngine.MeanOfConstant | visualization/rogue_bs_signal_plot.py:150-151 | the windowed mean of a history of identical levels is that level |
| HandoverEngine.Best | visualization/rogue_bs_signal_plot.py:146-158 | the running maximum over the first k stations stays on the current station or lands on a qualifying candidate |
| HandoverEngine.BestIsFirstLargest | visualization/rogue_bs_signal_plot.py:146-158 | the scan keeps the current station iff no qualifying candidate's mean exceeds the instantaneous level; otherwise it picks a qualifying candidate whose mean beats the instantaneous level, is the largest qualifying mean, and strictly beats every earlier qualifier |
| HandoverEngine.SwitchRule | visualization/rogue_bs_signal_plot.py:146-162 | the same characterisation for the scan over all stations: keep iff nobody qualifies above the instantaneous level, else the first largest qualifying mean |
| HandoverEngine.SentinelNeverSelected | visualization/rogue_bs_signal_plot.py:62 | a station whose whole window sits at −100 dBm is never chosen while −100 is below the current mean plus the threshold |
| HandoverEngine.SelectTarget | visualization/rogue_bs_signal_plot.py:146-158 | the candidate loop with `max_signal`/`max_bs` computes exactly `Target` |
| HandoverEngine.Decide | visualization/rogue_bs_signal_plot.py:134-162 | one step records the levels; the station changes only when at least 20 steps have passed since the last handover; a switch records the step, and no switch keeps the last handover time |
| HandoverEngine.DecideFollowsTarget | visualization/rogue_bs_signal_plot.py:145-162 | once 20 steps have passed since the last handover, the station after the step is exactly `Target` of the updated history: the best qualifying candidate, or the current station |
| HandoverEngine.HandoverStep | visualization/rogue_bs_signal_plot.py:135-162 | the loop body (history update, gate, candidate scan, switch) produces exactly `Decide` of the previous state |
| HandoverEngine.Run | visualization/rogue_bs_signal_plot.py:121-124 | the state after any number of steps has a valid station, one history per station, and a last handover time between 0 and the step |
| HandoverEngine.HistoryHoldsRecentLevels | visualization/rogue_bs_signal_plot.py:139-142 | after any step, each station's history is the last (at most 10) levels of that station observed so far, in order |
| HandoverEngine.SentinelStationNotChosen | visualization/rogue_bs_signal_plot.py:139-162 | when a station read −100 dBm at each of the last 10 processed steps, the terminal is not on it, and the attached station's mean exceeds −100 dBm less the threshold, the next step does not hand over to it |
| HandoverEngine.LastHandoverMonotone | visualization/rogue_bs_signal_plot.py:162 | the last handover time never decreases |
| HandoverEngine.NoEarlyHandover | visualization/rogue_bs_signal_plot.py:123-124 | a handover at step k implies k >= 20 and records k as the last handover time |
| HandoverEngine.StartingStationHolds | visualization/rogue_bs_signal_plot.py:145 | until step 20 has been processed, the terminal stays on its starting station |
| HandoverEngine.HandoversAreSpaced | visualization/rogue_bs_signal_plot.py:145 | any two handovers are at least 20 steps apart |
| HandoverEngine.HandoverChoosesBestCandidate | visualization/rogue_bs_signal_plot.py:146-162 | a handover goes to a qualifying station whose mean beats the old station's instantaneous level and is the largest qualifying mean |
| AttackMask.ClampPeriods | visualization/rogue_bs_signal_plot.py:66 | the kept periods start before the last time and end no later than it; every period starting before the last time is kept with its end clamped, and nothing else is kept |
| AttackMask.FirstAtOrAfter | visualization/rogue_bs_signal_plot.py:70 | the start index is the first index whose time is at or after the start |
| AttackMask.EndIndex | visualization/rogue_bs_signal_plot.py:71 | the end index is `len(T)` exactly when the end is not before the last time; otherwise it is the first index whose time is at or after the end |
| AttackMask.ExposedIffInSomeWindow | visualization/rogue_bs_signal_plot.py:69-72 | an index is unmasked iff it lies in the index range of some kept period |
| AttackMask.ActiveIffInSomePeriod | visualization/rogue_bs_signal_plot.py:66-72 | an index is unmasked iff some period starting before the last time covers it after its end has been clamped |
| AttackMask.MaskIgnoresOrder | visualization/rogue_bs_signal_plot.py:69-72 | reordering (or repeating) the periods does not change which indices are unmasked |
| AttackMask.MaskedRow | visualization/rogue_bs_signal_plot.py:62 | the masked rogue levels at a step have one entry per rogue station |
| AttackMask.CopyWindow | visualization/rogue_bs_signal_plot.py:70-72 | copying one period sets every terminal's and rogue station's level to the true level exactly on the steps of that period's index range and leaves all other steps unchanged |
| AttackMask.MaskAttacks | visualization/rogue_bs_signal_plot.py:61-72 | the masked array has the shape of the rogue levels, holds the true level at every unmasked index and −100 at every other |
| RogueDataset.RogueRows | visualization/rogue_bs_signal_plot.py:99-136 | the engine's input is one row per step, with the legitimate levels followed by the masked rogue levels |
| RogueDataset.Connected | visualization/rogue_bs_signal_plot.py:99-160 | the connected station is a legitimate or rogue station index |
| RogueDataset.RogueRowLayout | visualization/rogue_bs_signal_plot.py:127-130 | a row is time, an id in 1..NUM_BS+NUM_RBS, the legitimate levels, the masked rogue level (−100 outside every attack), and a label that is 1 iff the station is rogue and 0 iff it is legitimate |
| RogueDataset.RogueStationIgnoredWhileMasked | visualization/rogue_bs_signal_plot.py:61-162 | while the last window of steps lies outside every attack period, every history entry of the rogue station is the −100 sentinel, so a terminal not on the rogue station is not handed to it as long as its station's mean stays above −100 less the threshold |
| RogueDataset.RowFitsOnlyOneRogueStation | visualization/rogue_bs_signal_plot.py:58-130 | the assembled row matches `num_features` iff NUM_RBS = 1 |
| RogueDataset.InitialStationIsStrongest | visualization/rogue_bs_signal_plot.py:99-101 | the station at step 0 is the first maximum of the legitimate and masked rogue levels |
| RogueDataset.WriteStepRow | visualization/rogue_bs_signal_plot.py:181-185 | the row written is `RogueRow` for the attached station, and no other row changes |
| RogueDataset.ProcessStep | visualization/rogue_bs_signal_plot.py:134-185 | one iteration of the time loop advances the handover state from `Run` after t steps to `Run` after t+1 steps and writes the row `RogueRow` at t, touching no other row |
| RogueDataset.FillTerminal | visualization/rogue_bs_signal_plot.py:97-185 | one terminal's block of rows is `RogueRow` at every step (step 0 from the initial station, then the engine from step 1), and no other row changes |
| RogueDataset.RogueBsData | visualization/rogue_bs_signal_plot.py:41-185 | the dataset has `len(T) * NUM_UE` rows of `num_features` columns, and row u·len(T)+t is `RogueRow(u, t)` |
| LegitimateDataset.Connected | visualization/legitimate_bs_signal_plot.py:48-92 | the connected station is a legitimate station index |
| LegitimateDataset.LegitRowLayout | visualization/legitimate_bs_signal_plot.py:108-112 | a row is time, an id in 1..NUM_BS, the legitimate levels, −100 in the rogue column (0 when there is no rogue column), 0 in any further rogue column, and label 0 |
| LegitimateDataset.InitialStationHolds | visualization/legitimate_bs_signal_plot.py:48-77 | before step 20 the terminal is on the first maximum of the step-0 legitimate levels |
| LegitimateDataset.WriteStepCells | visualization/legitimate_bs_signal_plot.py:108-112 | the five cell writes, in order over a zero row, give `LegitRow`, and no other row changes |
| LegitimateDataset.ProcessStep | visualization/legitimate_bs_signal_plot.py:69-118 | one iteration of the time loop advances the handover state from `Run` after t steps to `Run` after t+1 steps and writes the row `LegitRow` at t, touching no other row |
| LegitimateDataset.FillTerminal | visualization/legitimate_bs_signal_plot.py:47-118 | one terminal's block of rows is `LegitRow` at every step, with the engine run from step 0, and no other row changes |
| LegitimateDataset.LegitimateBsData | visualization/legitimate_bs_signal_plot.py:27-118 | the dataset has `len(T) * NUM_UE` rows of `num_features` columns, and row u·len(T)+t is `LegitRow(u, t)` |
| UeMovement.ReachedIffSquaredDistance | scenario/ue_movement.py:53-55 | the "reached" test on the distance is equivalent to squared distance < (speed·dt)² |
| UeMovement.ZeroDistanceReaches | scenario/ue_movement.py:55-60 | a terminal on its waypoint takes the "reached" branch, so the division by the distance never sees 0 |
| UeMovement.AdvanceFraction | scenario/ue_movement.py:59-61 | an advance moves the terminal a fraction in (0, 1] of the way to its waypoint |
| UeMovement.AdvanceApproachesWaypoint | scenario/ue_movement.py:59-61 | an advance covers exactly speed·dt, the distance to the waypoint drops by speed·dt, and the waypoint and timer are kept |
| UeMovement.StepWithinTravel | scenario/ue_movement.py:48-61 | whichever branch a step takes (pause, reach, advance), it carries the terminal no further than speed·dt; since `MoverAt` is built from `Step`, this bounds every step of a trajectory |
| UeMovement.PauseHoldsPosition | scenario/ue_movement.py:48-50 | while the timer has not run out, the position and waypoint hold and the timer drops by exactly the time elapsed |
| UeMovement.DwellsAtWaypoint | scenario/ue_movement.py:55-58 | on reaching, the terminal snaps onto the waypoint, takes the next drawn waypoint, resets the timer to `pause_time`, and stays put for as long as the pause lasts |
| UeMovement.StaysInMap | scenario/ue_movement.py:46-63 | a terminal that starts in the map and only draws waypoints in the map stays in the map |
| UeMovement.OwnInputsOnly | scenario/ue_movement.py:46-63 | a terminal's trajectory depends only on its start and its own draws up to that step |
| UeMovement.StepAllTerminals | scenario/ue_movement.py:47-63 | one pass over all terminals at step t advances each from `MoverAt` at t−1 to `MoverAt` at t and records its position in column t, leaving every other column as it was |
| UeMovement.MoveTerminal | scenario/ue_movement.py:48-63 | the in-place update of one terminal's position, waypoint and timer is one `Step`, and no other terminal's entries change |
| UeMovement.SimulateUeMovement | scenario/ue_movement.py:28-65 | there is one position per terminal and time, the first being the initial position, and each is the position of `MoverAt` |

## Left out

- Plotting, every `if plot:` block: matplotlib output only. This includes the call to an undefined `LegitimateSignal` in the legitimate builder, so only `plot=False` is modelled.
- The DataFrame and CSV step (visualization/legitimate_bs_signal_plot.py:127-131, visualization/rogue_bs_signal_plot.py:201-205) is not modelled. Both builders are modelled up to the finished `dataset` array, just before `pd.DataFrame(dataset, columns=header)`. The header always has NUM_BS + 4 names, while a row has NUM_BS + NUM_RBS + 3 columns, so that call raises ValueError whenever NUM_RBS ≠ 1. For NUM_RBS ≠ 1, `LegitimateBsData` and `LegitRowLayout` therefore describe an array the source builds but never returns or writes.
- scenario/signal_calculation.py, scenario/hex_grid.py, config.py and main.py are not part of this model. The level matrices they produce are given inputs.
- `generate_waypoint` and `generate_random_positions`: the shared random generator is replaced by the parameter `draw(i, t)`, the waypoint terminal i draws at step t (`draw(i, 0)` is its first one). Any run of the source corresponds to some such function. The uniform distribution over the map is not modelled. `StaysInMap` takes "draws lie in the map" as a hypothesis.
- `np.linalg.norm` is the parameter `norm`. The lemmas about lengths assume it is the Euclidean length (`IsNorm`).
- Floating point: levels, times, means and positions are exact reals. Rounding, NaN and infinities are not modelled.
- LegitimateDataset.LegitimateBsData: the `Rxlev_rbs` parameter is not taken, because the source never reads it.
- RogueDataset.RogueBsData requires NUM_RBS = 1 when there are terminals, because the source fails otherwise. With NUM_RBS = 0 it raises IndexError at `attack_rbs[ue, 0, 0]` (visualization/rogue_bs_signal_plot.py:129). With NUM_RBS ≥ 2 the assembled row has fewer entries than `num_features`, and the row assignment at lines 127-130 raises. It also requires a nonempty time grid when there are terminals or attack periods, because `T[0]` and `T[-1]` fail on an empty grid.
- LegitimateDataset.LegitimateBsData requires a nonempty time grid and at least one legitimate station when there are terminals, because `Rxlev_bs[ue, 0, :]` and its `argmax` fail otherwise.
- UeMovement.SimulateUeMovement requires a positive speed and a strictly increasing, nonempty time grid. Without them numpy can divide 0 by 0 (NaN positions), or index an empty time axis.
- `attack_periods=None` is modelled as the empty sequence of periods, which masks every rogue level in the same way.
