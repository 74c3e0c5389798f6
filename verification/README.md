# Fantasy-team knapsack: a Dafny model of the team-selection rules

The system picks a fantasy-football squad from a pool of players. It maximises a
value function under a salary cap, a per-role quota, a squad-size cap and a
captain count. This project models the rule set around the external integer
solver and proves properties of it:

- `models.dfy` (module `Models`): the `Player` record, the `TeamConstraints`
  configuration with its defaults, and the `Team`. The team is an ordered list
  of players with four role views (goalkeepers, defenders, midfielders,
  strikers = positions 1..4), value and cost sums, and an append-only
  `add_player`. The constraint checker is modelled twice. `CheckConstraints` is
  the intended check: one dispatch over tagged constraint kinds
  (`RoleRange | MaxSize | MaxSalary`). `CheckConstraintsAsWritten` is what the
  closure list built in a loop actually tests.
- `solver.dfy` (module `Solver`): the integer program. It holds one
  `Decision(take, captain)` per pool player (the two 0/1 variables), the
  feasibility predicate and the objective. `Solve` takes the solver's answer as
  a parameter, verifies it, extracts the team in pool order and checks it.
- `best_team.dfy` (module `BestTeam`): the script's `player_value` and the
  constraint configuration it solves with.
- `common.dfy` (module `Common`): `Option`, `Result` and `Outcome`.

Modelling choices:

- Integers are unbounded. Values and costs are `int`-valued callables
  (`Player -> int`) held by the team, just as the source's `Team` holds
  `player_value` and `player_cost`.
- The external MILP search is not modelled. `Solve` receives its answer as
  input. Optimality is a ghost predicate (no feasible assignment has a larger
  objective): `OptimalAsWritten` over the program's constraints, `Optimal` over
  the corrected ones. Both are used only as lemma hypotheses.
- `solver.py:57` calls `add_player(p, is_captain=...)`, but `add_player` at
  `models.py:69` takes only the player. The model does what was evidently
  meant: it appends a copy of `p` whose captain flag is the captain variable
  (`Solver.Stamp`).
- `solver.py:6` imports `Value` and `Cost`, which `models.py` does not define.
  As written, the module would fail to import. The model ignores those names.
- Choices where the model follows the code literally:
  - the squad size is only capped (`Σ take ≤ max_n_players`), never forced
    exact;
  - the team's `expected_value` is the plain sum of `player_value`. The captain
    bonus comes only from the value function's own doubling.
  - infeasibility is not a separate error. An answer that breaks one of the
    constraints the program adds to the integer program fails the
    `VerifySolution` assertion, modelled as `Failure(Unverified)`. An answer
    with a captain on an untaken player breaks none of them, so it passes.
- `Solve` follows the source: it verifies the answer against the program's own
  constraints (`FeasibleAsWritten`) and runs the late-bound check
  (`CheckConstraintsAsWritten`). The corrected definitions from the findings
  below (`CheckConstraints`, and `Feasible` with the `captain ≤ take` link) are
  proved beside them, together with lemmas that show the difference. `Solve`'s
  contract also states that, on an empty starting team, its result passes the
  intended check.

## Model

| member | source | states |
|---|---|---|
| `Models.RoleView` | biwenger_knapsack/models.py:47-61 | A role view has a player exactly when the team has it and its position is the role; it is never longer than the team. |
| `Models.RoleViewAppend` | biwenger_knapsack/models.py:47-61 | The view of a concatenation is the concatenation of the views, so each view keeps the team's order. |
| `Models.RoleViewsPartition` | biwenger_knapsack/models.py:47-61 | When every position is 1..4, the four views' lengths add up to the team size. |
| `Models.RoleViewsBounded` | biwenger_knapsack/models.py:47-61 | For any positions, the four views together never hold more players than the team. |
| `Models.ExpectedValue` | biwenger_knapsack/models.py:63-64 | `expected_value` is the plain sum of the members' values (no captain multiplier; `AddPlayerSums` gives its growth), and for a team of role players it is the sum of the four role views' values. |
| `Models.TeamCost` | biwenger_knapsack/models.py:66-67 | `team_cost` is the plain sum of the members' costs (`AddPlayerSums` gives its growth), and for a team of role players it is the sum of the four role views' costs. |
| `Models.AddPlayer` | biwenger_knapsack/models.py:69-71 | Adding a player gives a list one longer, with the old members unchanged as its prefix and the new player last; configuration and callables are kept. |
| `Models.AddPlayerSums` | biwenger_knapsack/models.py:63-71 | Adding a player raises `team_cost` by exactly its cost and `expected_value` by exactly its value; the team applies no multiplier of its own. |
| `Models.AddPlayerRoleViews` | biwenger_knapsack/models.py:47-71 | Adding a player extends only the new player's role view, at its end. |
| `Models.ConstraintsToFuncs` | biwenger_knapsack/models.py:79-106 | The intended predicate list: six entries, the four role predicates each pairing its own position with its own range (goalkeepers with `range_pt`, …, strikers with `range_dl`), then the size cap, then the salary cap. `CheckConstraints` states what the list accepts. |
| `Models.ConstraintsToFuncsAsWritten` | biwenger_knapsack/models.py:79-106 | The list as the loop builds it: six entries, but all four role closures read the final loop values, so each is "position 4 within `range_dl`"; then the size and salary caps. `CheckConstraintsAsWritten` and `AsWrittenAdmitsMissingGoalkeeper` state the consequence. |
| `Models.CheckConstraints` | biwenger_knapsack/models.py:73-106 | The intended check passes exactly when every role count is within its inclusive range, the size is at most `max_n_players` and the cost is at most `max_salary`; otherwise it raises "Some constraint is not satisfied!". |
| `Models.CheckConstraintsAsWritten` | biwenger_knapsack/models.py:73-106 | The check as the source runs it passes exactly when the striker count is within `range_dl`, the size cap holds and the salary cap holds: the late-bound role closures all test position 4. |
| `Models.IntendedImpliesAsWritten` | biwenger_knapsack/models.py:81-94 | Every team the intended check accepts is accepted by the late-bound check. |
| `Models.AsWrittenAdmitsMissingGoalkeeper` | biwenger_knapsack/models.py:81-94 | The converse fails: with a goalkeeper range of (1, 1) an empty team passes the late-bound check and fails the intended one. |
| `Models.CheckIgnoresCaptainCount` | biwenger_knapsack/models.py:73-106 | Changing `n_cap` never changes the outcome of either check. |
| `Models.BoundsAreInclusive` | biwenger_knapsack/models.py:96-104 | A team with exactly `max_n_players` members and cost exactly `max_salary` (and roles in range) passes. |
| `Models.CheckAsWrittenMonotoneInSalary` | biwenger_knapsack/models.py:101-104 | For the late-bound check the program runs: a team that passes at salary cap S still passes at every cap S' ≥ S. |
| `Models.CheckMonotoneInSalary` | biwenger_knapsack/models.py:101-104 | For the intended check: a team that passes at salary cap S still passes at every cap S' ≥ S. |
| `Models.DefaultRolesHold` | biwenger_knapsack/models.py:22-30 | Under the default configuration (every range (0, 11), at most 11 players), every role and size predicate holds for any team of at most eleven. |
| `Models.MinimumRoster` | biwenger_knapsack/models.py:79-99 | When every role minimum fits under its maximum and the minimums sum to at most `max_n_players`, some roster meets all role and size predicates. |
| `Models.RosterImpliesCountSatisfiable` | biwenger_knapsack/models.py:79-99 | Conversely, a configuration that some roster meets has minimums below maximums and a minimum sum within the size cap. |
| `Solver.FeasibleAsWritten` | biwenger_knapsack/solver.py:16-43 | The constraints the program adds: equal lengths, salary sum at most `max_salary`, `Σ captain = n_cap` over the whole pool, each role's taken count within its inclusive range, `Σ take ≤ max_n_players`. Whenever it holds, the configuration is count-satisfiable (role minimums below maximums and within the size cap) and `0 ≤ n_cap ≤` pool size. `FlaggedAtMostNCap` and `UntakenCaptainAsWritten` state its captain behaviour. |
| `Solver.Feasible` | biwenger_knapsack/solver.py:16-43 | The corrected formulation: the program's constraints plus `captain_i ≤ take_i`. Whenever it holds, `n_cap ≤ max_n_players`. `FlaggedIsNCap` states its captain behaviour. |
| `Solver.Objective` | biwenger_knapsack/solver.py:18-19 | The maximised expression `Σ value·take + Σ value·captain`. With non-negative values it is at least the taken players' value sum, and when every captain is taken it is at most twice that sum. `ExtractedValueIsObjective` ties it to the team's value. |
| `Solver.Extracted` | biwenger_knapsack/solver.py:51-57 | The players the extraction loop appends: the extracted team has `Σ take` members. `ExtractedMembers`, `ExtractedAppend` and `ExtractedCaptainFlag` state which players, in which order and with which flag. |
| `Solver.ExtractedAppend` | biwenger_knapsack/solver.py:51-57 | Extraction over a split pool is the concatenation of the two extractions, so taken players appear in pool order. |
| `Solver.ExtractedMembers` | biwenger_knapsack/solver.py:51-57 | A player is in the extracted team exactly when it is the flagged copy of some pool player whose `take` is 1; untaken players never appear. |
| `Solver.ExtractedCaptainFlag` | biwenger_knapsack/solver.py:52-57 | A taken pool player's copy is in the team, and it carries the captain flag exactly when both `take` and `captain` are 1. |
| `Solver.ExtractedRoles` | biwenger_knapsack/solver.py:26-57 | Each role view of the extracted team has as many members as the program's taken count for that position. |
| `Solver.ExtractedCost` | biwenger_knapsack/solver.py:20-57 | With a cost that ignores the captain flag, the extracted team costs the program's salary sum `Σ cost·take`. |
| `Solver.ExtractedFlagged` | biwenger_knapsack/solver.py:52-55 | The number of captain flags in the extracted team is the number of players with both variables set. |
| `Solver.FlaggedAtMostNCap` | biwenger_knapsack/solver.py:16-55 | For any assignment the source's constraints accept, the extracted team has at most `n_cap` captain flags. |
| `Solver.UntakenCaptainAsWritten` | biwenger_knapsack/solver.py:16-57 | A concrete assignment the source's constraints accept puts the captain on an untaken player: the team has no captain, and the objective still counts that player's value. |
| `Solver.FlaggedIsNCap` | biwenger_knapsack/solver.py:16-55 | With the `captain ≤ take` link, the extracted team has exactly `n_cap` captain flags. |
| `Solver.ExtractedIsValid` | biwenger_knapsack/solver.py:51-59 | For any assignment meeting the source's constraints, the extracted team (started empty, cost flag-blind) passes the intended check and the as-written check, so the final `check_constraints` does not raise. |
| `Solver.ExtractedValueIsObjective` | biwenger_knapsack/solver.py:18-57 | When every captain is taken and the value doubles on the captain flag, the extracted team's value sum equals the objective `Σ value·take + Σ value·captain`. |
| `Solver.Solve` | biwenger_knapsack/solver.py:14-60 | An answer that breaks the program's own constraints fails with `Unverified`. Otherwise the team is the old members followed by the extracted players, with configuration and callables kept, and `Solve` succeeds exactly when that team passes the late-bound check, failing with `ConstraintViolation` otherwise. On an empty starting team with a flag-blind cost, a verified answer always yields a team, and that team also passes the intended check. |
| `Solver.OptimalTeamIsBest` | biwenger_knapsack/solver.py:47-57 | If the solver's answer is optimal for the corrected formulation and the value doubles on the flag, the extracted team is worth at least the objective of every feasible assignment. |
| `Solver.OptimumMonotoneInSalaryAsWritten` | biwenger_knapsack/solver.py:20-47 | Over the program's own formulation (the constraints at solver.py:22-43, which the search maximises over), raising `max_salary` never lowers the optimal objective. |
| `Solver.OptimumMonotoneInSalary` | biwenger_knapsack/solver.py:20-47 | The same for the corrected formulation with `captain ≤ take`: raising `max_salary` never lowers its optimal objective. |
| `BestTeam.NumericSamples` | best_team.py:9 | A rating is kept exactly when it is a numeric sample of the player; the result is never longer than the samples. |
| `BestTeam.NumericSamplesAppend` | best_team.py:9 | Dropping non-numeric samples distributes over concatenation, so kept ratings stay in order. |
| `BestTeam.MinOf` | best_team.py:15 | The minimum is one of the elements and at most every element. |
| `BestTeam.BaseValue` | best_team.py:8-17 | The base value is 0 unless the team id is present, there are more than one numeric samples and the status is "ok" or "warned"; otherwise it is a numeric sample no larger than any other. |
| `BestTeam.PlayerValue` | best_team.py:8-20 | `player_value` is 0 for an ineligible player. For an eligible one it is a numeric fitness sample no larger than any other, doubled (so even, and at most twice every sample) for a captain. `CaptainDoubles` and `ValueDependsOnFewFields` state its relation to the flag and the fields it reads. |
| `BestTeam.CaptainDoubles` | best_team.py:18-20 | A captain is worth exactly twice the same player unflagged, and an unflagged player is worth its base value. |
| `BestTeam.ValueDependsOnFewFields` | best_team.py:8-20 | Two players that agree on fitness, team id, status and captain flag have the same value; price and points play no part. |
| `BestTeam.PlayerValueDoublesOnCaptain` | best_team.py:8-20 | For an unflagged pool, `player_value` doubles on the captain flag and the price cost ignores it. |
| `BestTeam.ScriptTeamValueIsObjective` | biwenger_knapsack/solver.py:18-59 | With the script's value and cost, a team extracted from a corrected-feasible answer passes the check and its `expected_value` equals the objective. |
| `BestTeam.ConfiguredIsCountSatisfiable` | best_team.py:28-36 | The configured ranges have min ≤ max, the minimums (1+3+2+0 = 6) fit within 11 players, and one captain is asked for. |
| `BestTeam.ConfiguredAsWrittenAdmitsEmptyTeam` | best_team.py:28-36 | Under the configured ranges, an empty team passes the as-written check but fails the intended one. |

## Findings

| source | as written | input that shows it | evidently intended | confidence | as-written member | corrected member |
|---|---|---|---|---|---|---|
| biwenger_knapsack/models.py:81-94 | Each role closure looks up `position` and `constraint` only when it is called. By then the loop has finished, so all four test position 4 against `range_dl`. | An empty team with a goalkeeper range of (1, 1) passes `check_constraints`. The configured ranges at best_team.py:30 show the same. | Each closure tests its own role against its own range. | high, not executed | `Models.AsWrittenAdmitsMissingGoalkeeper` | `Models.CheckConstraints` |
| biwenger_knapsack/solver.py:16-24 | The `captain` variables are bound only by `Σ captain = n_cap`. Nothing ties `captain_i` to `take_i`. | A pool of a taken goalkeeper and an untaken defender with `captain = 1`. It is feasible, the team has no captain, and the objective counts the defender's value. | `captain_i ≤ take_i`, so the bonus goes to a team member. | medium, not executed | `Solver.UntakenCaptainAsWritten` | `Solver.FlaggedIsNCap` |

## Left out

- The ortools search (`solver.Solve()`, `solver.Maximize`) and `VerifySolution(1e-7, True)` with its floating-point tolerance. These are an external black box. The answer is a parameter of `Solve`, and the tolerance check is modelled as exact feasibility.
- `Solver.Solve`: optimality of the answer is not promised. It can only be assumed, through `OptimalAsWritten` or `Optimal` in lemma hypotheses, because the search is external.
- `Solver.Solve`: success is promised only for a team that starts empty with a flag-blind cost. A non-empty starting team may fail the late-bound check. That case is modelled, and it returns `ConstraintViolation`.
- `Solver.OptimalTeamIsBest` states optimality over the corrected formulation `Feasible`. Under the source's formulation the objective's captain term may count a player who is not in the team, so the team's value need not reach the optimum.
- `SolverWithCaptain` (the per-captain outer loop). best_team.py:5 imports it from biwenger_knapsack/solver.py, but that file does not define it.
- The dead update `salary += p.price` at solver.py:56. It only changes a solver expression after solving.
- `copy(team)` and its shallow aliasing. Teams are immutable values here.
- Float-valued value and cost functions. They are integer-valued in this model.
- Python's `isinstance(value, int)` also accepts `True` and `False`. Fitness samples here are either numbers or a "no data" marker, so there are no boolean samples.
- `numpy.min`: modelled as the minimum of an integer sequence.
- The network fetch (`api.py`), the record renaming (`parser.py`), printing (`utils.py`), and the script part of best_team.py (lines 23-27 and 39-75). These are I/O or have no logic.
