# Hybrid-meeting attendance: a Dafny model

This project models the attendance feedback loop of `agents.py` in the
hybrid-death-spiral repository. A population of agents attends a sequence of
meetings, and each agent has two parameters:

- a peer sensitivity `s`;
- an outside-option utility `B`, written `b` in the model.

Before a meeting, every agent compares `s * estimate` with `B` to decide
whether to come in person. The estimate is shared by all agents. It starts
at the population size. After every meeting it is overwritten with that
meeting's realised in-person count. Each meeting returns the summed payoffs
of all agents.

The model has three modules, one per file:

- `Agents` (`agents.dfy`): the `Agent` value type with its decision rule
  `ComesInPerson` and its payoff `ComputeUtility`, plus `NormalParams` for the
  samples that set an agent's parameters.
- `Meetings` (`meetings.dfy`): the one-meeting specification functions
  `Decisions`, `CountInPerson`, `Step`, `TotalUtility` and `RoundUtility`, the
  many-meeting recurrence `Run`, and the class `MeetingSequence`.
  `MeetingSequence` owns the agent list and the mutable `attendanceEstimate`.
  Its `HoldMeeting` method makes the decision list, counts the attendees,
  adds up the payoffs in a loop and overwrites the estimate. Its contract ties
  the new state and the returned total to the specification functions.
- `Dynamics` (`dynamics.dfy`): results about many meetings. The main one
  needs every sensitivity to be non-negative. Under that condition, starting
  from "everyone", the in-person count never rises from one meeting to the
  next. From meeting number `n_agents` on, it stays at a fixed point of the
  recurrence. `NegativeSensitivityOscillates` shows that the condition is
  needed: a single agent with negative sensitivity, starting from estimate 1,
  stays away from every odd-numbered meeting and comes to every even-numbered
  one.

Interpretations where the code cannot be followed literally:

- **Realised payoff.** `compute_utility` (agents.py:20-24) reads
  `Np_estimate`, but no such name exists there. `hold_meeting` also calls it
  with the choice alone (agents.py:48). The model reads the payoff of an
  in-person attendee as `s * n_in_person`, the realised count of the meeting
  it attended. This follows the parameter name `Np`, the comment at
  agents.py:50 and the reading of the payoff as realised. It is an
  interpretation, not a transcription.
- **The model follows agents.py as it stands.** Each agent has one `s` and
  one `B`. The estimate starts at `n_agents`. An agent that stays away is
  paid `B`. `hold_meeting` returns the total, not the mean.
- **Random draws.** The constructor receives the generator's
  standard-normal variates as a function `z`. Agent `i` takes
  `s = loc + sd * z(2i)` and `B = loc + sd * z(2i+1)`, in the order of
  agents.py:33-34. The distribution parameters keep the defaults of
  agents.py:30, `B_params=(10, 5)` and `s_params=(1, 0.5)`, as default values
  of the constructor's `bParams` and `sParams`; the variates `z` come before
  them in the parameter list. agents.py passes the keyword `sd=` to
  `np.random.normal`, but numpy calls that keyword `scale`. The model reads
  it as the standard deviation.

## Model

| member | source | states |
|---|---|---|
| `Agents.Agent.ComesInPerson` | agents.py:14-18 | The agent comes in person exactly when the payoff of coming, judged with the estimate, is strictly greater than the outside option `B` |
| `Agents.Agent.ComputeUtility` | agents.py:20-24 | An agent that stays away is paid `B` whatever the count; one that came is paid `s` times the realised in-person count. Its relation to the decision is stated by `DecisionIsBestResponse` and `NoRegretWhenEstimateRight` |
| `Agents.TieStaysAway` | agents.py:18 | An exact tie `s * estimate == B` means the agent does not come |
| `Agents.DecisionIsBestResponse` | agents.py:14-24 | The decision is a best response to the estimate: judged with the estimate, no choice pays more than the one made |
| `Agents.BestUtility` | agents.py:20-24 | The better of the two payoffs `compute_utility` can give: at least each of them, and equal to one of them |
| `Agents.NoRegretWhenEstimateRight` | agents.py:18-24 | If the realised count equals the estimate the agent decided with, its realised payoff is the better of its two options |
| `Agents.ComesInPersonMonotone` | agents.py:18 | With `s >= 0`, an agent that comes under some estimate also comes under every larger estimate |
| `Agents.NormalParams.Draw` | agents.py:33-34 | A draw equals the mean when the deviation is zero; with a positive deviation it lies above or below the mean as the variate does |
| `Meetings.Decisions` | agents.py:43 | One decision per agent, in agent order, each made with the same pre-meeting estimate |
| `Meetings.CountInPerson` | agents.py:44 | The in-person count is at most the number of agents |
| `Meetings.CountIsOccurrences` | agents.py:44 | The count equals the number of `true` entries in the decision list, counted as a multiset |
| `Meetings.CountFullOrEmpty` | agents.py:44 | The count equals the list length exactly when every entry is `true`, and is zero exactly when none is |
| `Meetings.CountMonotone` | agents.py:44 | If one decision list has `true` wherever another does, its count is at least as large |
| `Meetings.Step` | agents.py:43-44 | The realised in-person count of a meeting held with a given estimate is at most the number of agents; `StepCountsAttendees` states what it counts |
| `Meetings.StepCountsAttendees` | agents.py:43-44 | `n_in_person` is the number of agents whose `comes_in_person` is true under the pre-meeting estimate; it lies in `0..\|agents\|` (restated for callers from `Step`); it is full or zero exactly when everyone or no one comes |
| `Meetings.TotalUtility` | agents.py:46-48 | The summed payoffs under any choices, judged against a count, are at most the sum of each agent's better option at that count; `TotalUtilityAppend` states that it is a sum over agents |
| `Meetings.RoundUtility` | agents.py:43-53 | The total a meeting returns, each agent paid under its own decision against the realised count, is at most the sum of each agent's better option at that count |
| `Meetings.TotalUtilityAppend` | agents.py:46-48 | The meeting total is a sum over agents: the totals of two groups of agents add up |
| `Meetings.TotalAtMostHindsight` | agents.py:46-48 | Whatever the choices, the total is at most the sum of each agent's better option (restated for callers from `TotalUtility`); they are equal when every agent decided with the realised count |
| `Meetings.SteadyRoundIsHindsightOptimal` | agents.py:43-53 | If a meeting's realised count equals its estimate, the returned total is the sum of each agent's better option |
| `Meetings.RunLagsOneMeeting` | agents.py:43-51 | Meeting `k+1` decides with exactly the count that meeting `k` realised; no fixed point is solved within a meeting |
| `Meetings.Run` | agents.py:39-51 | The estimate after `k` calls of `hold_meeting`; starting from an estimate in `0..n_agents`, or after at least one meeting from any start, it lies in `0..n_agents` |
| `Meetings.MeetingSequence.constructor` | agents.py:30-39 | The new sequence holds exactly `n_agents` agents, in construction order, drawn with `B_params` and `s_params` defaulting to `(10, 5)` and `(1, 0.5)`, with parameters drawn in the order of agents.py:33-34; `attendance_estimate == n_agents` |
| `Meetings.MeetingSequence.HoldMeeting` | agents.py:41-53 | Returns the sum of every agent's payoff under its own choice, judged against the realised count (a total, not a mean); afterwards the estimate is that meeting's in-person count; the agent list is unchanged; only the estimate changes; the estimate stays in `0..n_agents` |
| `Dynamics.StepMonotone` | agents.py:43-44 | With non-negative sensitivities, a larger estimate never gives fewer in-person attendees |
| `Dynamics.AttendanceNeverRises` | agents.py:39-51 | With non-negative sensitivities and the initial estimate `n_agents`, each meeting has at most as many in-person attendees as the one before |
| `Dynamics.SettledOrFalling` | agents.py:39-51 | With non-negative sensitivities, starting from `n_agents`, the estimate after `k` meetings is either a fixed point of the recurrence or at most `n_agents - k` |
| `Dynamics.FixedPointPersists` | agents.py:43-51 | Once the estimate is a fixed point, it stays there for every later meeting |
| `Dynamics.RunSplit` | agents.py:43-51 | Running `j` meetings and then `m` more gives the same estimate as running `j + m` meetings |
| `Dynamics.SettlesWithinPopulation` | agents.py:39-51 | With non-negative sensitivities, the estimate after `n_agents` meetings is a fixed point, and every later meeting has that same count |
| `Dynamics.SequenceHasSettled` | agents.py:41-53 | A sequence object that has held at least `n_agents` meetings, all of its agents with `s >= 0`, keeps its estimate when it holds another meeting |
| `Dynamics.NegativeSensitivityOscillates` | agents.py:18-51 | A single agent with `s = -1`, `B = -0.5`, starting from estimate 1, has estimate 1 after every even number of meetings and 0 after every odd number |

## Left out

- `utils.py` (`run_simulations`) is not modelled. It is a driver that builds
  table rows. It calls `hold_meeting_sequence`, which `agents.py` does not
  define.
- Random sampling (agents.py:33-34) is a call into numpy. The model takes the
  variates as the constructor's argument `z`. It models only the
  `loc + sd * z` form of a normal draw, not the distribution.
- Meetings.MeetingSequence.constructor: does not model two error and edge
  paths. First, under the standard-deviation reading of `sd=`, numpy's normal
  raises an error for a negative deviation (agents.py:33-34), but the model
  builds the agents anyway. Second, `nAgents` is a `nat`, so a negative
  `n_agents` is excluded. Python's `range` would accept it, leaving an empty
  agent list and a negative `attendance_estimate` until the first meeting
  (agents.py:32, agents.py:39).
- Floating-point rounding is not modelled. `s`, `B` and every payoff are
  mathematical reals, and summation is exact.
- The broken `from numpy import np`, the missing `self` parameters and the
  wrong keyword `sd=` stop the program before any meeting is held. The model
  treats them as intended. The undefined `Np_estimate` and the one-argument
  call to `compute_utility` in `hold_meeting` are read as described above.
