/**
  The integer-program formulation around the external MILP search: the 0/1
  decision vectors, the feasibility predicate, the objective, and the loop that
  turns a solution into a team. The search itself is not modelled; its answer
  is a parameter of `Solve`.
 */
module Solver {
  import opened Common
  import opened Models

  /** The two 0/1 variables of one pool player: `take_i` and `captain_i`. */
  datatype Decision = Decision(take: bool, captain: bool)

  /** Which of a decision's variables a sum ranges over. */
  datatype Selector = Taken | Captained | TakenAndCaptained

  predicate Selects(s: Selector, d: Decision) {
    match s
    case Taken => d.take
    case Captained => d.captain
    case TakenAndCaptained => d.take && d.captain
  }

  /** `Σ f(p_i)·x_i` over the pool, where `x_i` is the selected variable. */
  function Weighted(pool: seq<Player>, a: seq<Decision>, s: Selector, f: Player -> int): int
    requires |a| == |pool|
  {
    if |pool| == 0 then 0
    else (if Selects(s, a[0]) then f(pool[0]) else 0) + Weighted(pool[1..], a[1..], s, f)
  }

  /** `Σ x_i`: how many decisions have the selected variable set. */
  function Tally(a: seq<Decision>, s: Selector): nat {
    if |a| == 0 then 0 else (if Selects(s, a[0]) then 1 else 0) + Tally(a[1..], s)
  }

  /** `Σ take_i` over the pool players whose position is `position`. */
  function RoleTally(pool: seq<Player>, a: seq<Decision>, position: int): nat
    requires |a| == |pool|
  {
    if |pool| == 0 then 0
    else (if a[0].take && pool[0].position == position then 1 else 0) + RoleTally(pool[1..], a[1..], position)
  }

  /**
    The constraints the source adds to the integer program: salary cap, captain
    count over the whole pool, the four inclusive role ranges and the size cap.
    Nothing links `captain_i` to `take_i`.
   */
  predicate FeasibleAsWritten(c: TeamConstraints, cost: Player -> int, pool: seq<Player>, a: seq<Decision>)
    ensures FeasibleAsWritten(c, cost, pool, a) ==> CountSatisfiable(c) && 0 <= c.nCap <= |pool|
  {
    && |a| == |pool|
    && Weighted(pool, a, Taken, cost) <= c.maxSalary
    && (TallyBounded(a, Captained); Tally(a, Captained) == c.nCap)
    && c.rangePt.Contains(RoleTally(pool, a, Goalkeeper))
    && c.rangeDf.Contains(RoleTally(pool, a, Defender))
    && c.rangeMc.Contains(RoleTally(pool, a, Midfielder))
    && c.rangeDl.Contains(RoleTally(pool, a, Striker))
    && (RoleTalliesBounded(pool, a); Tally(a, Taken) <= c.maxNPlayers)
  }

  /** A sum of 0/1 variables is at most the number of decisions. */
  lemma {:induction false} TallyBounded(a: seq<Decision>, s: Selector)
    ensures Tally(a, s) <= |a|
  {
    if |a| > 0 {
      TallyBounded(a[1..], s);
    }
  }

  /** The four role sums together count at most the taken players. */
  lemma {:induction false} RoleTalliesBounded(pool: seq<Player>, a: seq<Decision>)
    requires |a| == |pool|
    ensures RoleTally(pool, a, Goalkeeper) + RoleTally(pool, a, Defender)
          + RoleTally(pool, a, Midfielder) + RoleTally(pool, a, Striker) <= Tally(a, Taken)
  {
    if |pool| > 0 {
      RoleTalliesBounded(pool[1..], a[1..]);
    }
  }

  /** The missing link: only a taken player may be captain (`captain_i <= take_i`). */
  predicate CaptainsTaken(a: seq<Decision>) {
    forall i :: 0 <= i < |a| ==> (a[i].captain ==> a[i].take)
  }

  /** The corrected formulation: the source's constraints plus `captain_i <= take_i`. */
  predicate Feasible(c: TeamConstraints, cost: Player -> int, pool: seq<Player>, a: seq<Decision>)
    ensures Feasible(c, cost, pool, a) ==> c.nCap <= c.maxNPlayers
  {
    FeasibleAsWritten(c, cost, pool, a) && (TalliesOrdered(a); CaptainsTaken(a))
  }

  /** The maximised objective: `Σ value(p)·take_p + Σ value(p)·captain_p`, values taken on pool players. */
  function Objective(value: Player -> int, pool: seq<Player>, a: seq<Decision>): (r: int)
    requires |a| == |pool|
    ensures NonNegative(value, pool) ==> r >= Weighted(pool, a, Taken, value) >= 0
    ensures NonNegative(value, pool) && CaptainsTaken(a) ==> r <= 2 * Weighted(pool, a, Taken, value)
  {
    WeightedBounds(value, pool, a);
    Weighted(pool, a, Taken, value) + Weighted(pool, a, Captained, value)
  }

  /** Every pool player is worth at least 0. */
  predicate NonNegative(value: Player -> int, pool: seq<Player>) {
    forall i :: 0 <= i < |pool| ==> value(pool[i]) >= 0
  }

  /**
    With non-negative values both sums are non-negative, and when every captain
    is taken the captain sum is bounded by the taken sum.
   */
  lemma {:induction false} WeightedBounds(value: Player -> int, pool: seq<Player>, a: seq<Decision>)
    requires |a| == |pool|
    ensures NonNegative(value, pool) ==>
      Weighted(pool, a, Taken, value) >= 0 && Weighted(pool, a, Captained, value) >= 0
    ensures NonNegative(value, pool) && CaptainsTaken(a) ==>
      Weighted(pool, a, Captained, value) <= Weighted(pool, a, Taken, value)
  {
    if |pool| > 0 {
      assert NonNegative(value, pool) ==> NonNegative(value, pool[1..]) by {
        if NonNegative(value, pool) {
          forall i | 0 <= i < |pool| - 1 ensures value(pool[1..][i]) >= 0 {
            assert pool[1..][i] == pool[i + 1];
          }
        }
      }
      assert CaptainsTaken(a) ==> CaptainsTaken(a[1..]) by {
        if CaptainsTaken(a) {
          forall i | 0 <= i < |a| - 1 ensures a[1..][i].captain ==> a[1..][i].take {
            assert a[1..][i] == a[i + 1];
          }
        }
      }
      assert NonNegative(value, pool) ==> value(pool[0]) >= 0;
      WeightedBounds(value, pool[1..], a[1..]);
    }
  }

  /** The copy of a pool player that the extraction loop appends, with its captain flag set. */
  function Stamp(p: Player, d: Decision): Player {
    p.(isCaptain := d.captain)
  }

  /** The players the extraction loop appends, in pool order. */
  function Extracted(pool: seq<Player>, a: seq<Decision>): (r: seq<Player>)
    requires |a| == |pool|
    ensures |r| == Tally(a, Taken)
  {
    if |pool| == 0 then []
    else (if a[0].take then [Stamp(pool[0], a[0])] else []) + Extracted(pool[1..], a[1..])
  }

  // ---------------------------------------------------------------------------
  // Properties of the extraction

  /** Extraction distributes over splitting the pool: it keeps pool order. */
  lemma {:induction false} ExtractedAppend(p1: seq<Player>, a1: seq<Decision>, p2: seq<Player>, a2: seq<Decision>)
    requires |a1| == |p1| && |a2| == |p2|
    ensures Extracted(p1 + p2, a1 + a2) == Extracted(p1, a1) + Extracted(p2, a2)
  {
    if |p1| == 0 {
      assert p1 + p2 == p2 && a1 + a2 == a2;
    } else {
      assert (p1 + p2)[1..] == p1[1..] + p2;
      assert (a1 + a2)[1..] == a1[1..] + a2;
      ExtractedAppend(p1[1..], a1[1..], p2, a2);
    }
  }

  /** A player is extracted exactly when it is the flagged copy of some taken pool player. */
  lemma {:induction false} ExtractedMembers(pool: seq<Player>, a: seq<Decision>, x: Player)
    requires |a| == |pool|
    ensures x in Extracted(pool, a) <==>
      exists i :: 0 <= i < |pool| && a[i].take && x == Stamp(pool[i], a[i])
  {
    if |pool| > 0 {
      ExtractedMembers(pool[1..], a[1..], x);
      if x in Extracted(pool[1..], a[1..]) {
        var i :| 0 <= i < |pool| - 1 && a[1..][i].take && x == Stamp(pool[1..][i], a[1..][i]);
        assert a[i + 1].take && x == Stamp(pool[i + 1], a[i + 1]);
      }
      if exists i :: 0 <= i < |pool| && a[i].take && x == Stamp(pool[i], a[i]) {
        var i :| 0 <= i < |pool| && a[i].take && x == Stamp(pool[i], a[i]);
        if i > 0 {
          assert a[1..][i - 1].take && x == Stamp(pool[1..][i - 1], a[1..][i - 1]);
        }
      }
    }
  }

  /** An extracted member carries the captain flag exactly when both its variables were 1. */
  lemma ExtractedCaptainFlag(pool: seq<Player>, a: seq<Decision>, i: nat)
    requires |a| == |pool| && i < |pool| && a[i].take
    ensures Stamp(pool[i], a[i]) in Extracted(pool, a)
    ensures Stamp(pool[i], a[i]).isCaptain <==> a[i].take && a[i].captain
  {
    ExtractedMembers(pool, a, Stamp(pool[i], a[i]));
  }

  /** Each role view of the extracted players counts the taken players of that role. */
  lemma {:induction false} ExtractedRoles(pool: seq<Player>, a: seq<Decision>, position: int)
    requires |a| == |pool|
    ensures |RoleView(Extracted(pool, a), position)| == RoleTally(pool, a, position)
  {
    if |pool| > 0 {
      var head := if a[0].take then [Stamp(pool[0], a[0])] else [];
      RoleViewAppend(head, Extracted(pool[1..], a[1..]), position);
      ExtractedRoles(pool[1..], a[1..], position);
    }
  }

  /** `f` does not look at the captain flag of the pool's players. */
  predicate FlagBlind(f: Player -> int, pool: seq<Player>) {
    forall i :: 0 <= i < |pool| ==>
      f(pool[i].(isCaptain := true)) == f(pool[i]) && f(pool[i].(isCaptain := false)) == f(pool[i])
  }

  /** With a flag-blind cost, the extracted players cost the formulation's salary sum. */
  lemma {:induction false} ExtractedCost(pool: seq<Player>, a: seq<Decision>, cost: Player -> int)
    requires |a| == |pool| && FlagBlind(cost, pool)
    ensures SumOver(Extracted(pool, a), cost) == Weighted(pool, a, Taken, cost)
  {
    if |pool| > 0 {
      var head := if a[0].take then [Stamp(pool[0], a[0])] else [];
      SumOverAppend(head, Extracted(pool[1..], a[1..]), cost);
      assert FlagBlind(cost, pool[1..]) by {
        forall i | 0 <= i < |pool| - 1
          ensures cost(pool[1..][i].(isCaptain := true)) == cost(pool[1..][i])
          ensures cost(pool[1..][i].(isCaptain := false)) == cost(pool[1..][i])
        {
          assert pool[1..][i] == pool[i + 1];
        }
      }
      ExtractedCost(pool[1..], a[1..], cost);
    }
  }

  /** The flagged members are exactly the players with both variables set. */
  lemma {:induction false} ExtractedFlagged(pool: seq<Player>, a: seq<Decision>)
    requires |a| == |pool|
    ensures Flagged(Extracted(pool, a)) == Tally(a, TakenAndCaptained)
  {
    if |pool| > 0 {
      var head := if a[0].take then [Stamp(pool[0], a[0])] else [];
      FlaggedAppend(head, Extracted(pool[1..], a[1..]));
      ExtractedFlagged(pool[1..], a[1..]);
    }
  }

  lemma {:induction false} FlaggedAppend(xs: seq<Player>, ys: seq<Player>)
    ensures Flagged(xs + ys) == Flagged(xs) + Flagged(ys)
  {
    if |xs| == 0 {
      assert xs + ys == ys;
    } else {
      assert (xs + ys)[1..] == xs[1..] + ys;
      FlaggedAppend(xs[1..], ys);
    }
  }

  /** Players with both variables set are among the captained and among the taken ones. */
  lemma {:induction false} TalliesOrdered(a: seq<Decision>)
    ensures Tally(a, TakenAndCaptained) <= Tally(a, Captained)
    ensures Tally(a, TakenAndCaptained) <= Tally(a, Taken)
    ensures CaptainsTaken(a) ==> Tally(a, TakenAndCaptained) == Tally(a, Captained)
  {
    if |a| > 0 {
      assert CaptainsTaken(a) ==> CaptainsTaken(a[1..]) by {
        if CaptainsTaken(a) {
          forall i | 0 <= i < |a| - 1 ensures a[1..][i].captain ==> a[1..][i].take {
            assert a[1..][i] == a[i + 1];
          }
        }
      }
      TalliesOrdered(a[1..]);
    }
  }

  /**
    As written, `Σ captain = n_cap` ranges over the whole pool, so the extracted
    team carries at most `n_cap` captain flags (and may carry fewer).
   */
  lemma FlaggedAtMostNCap(c: TeamConstraints, cost: Player -> int, pool: seq<Player>, a: seq<Decision>)
    requires FeasibleAsWritten(c, cost, pool, a)
    ensures Flagged(Extracted(pool, a)) <= c.nCap
  {
    ExtractedFlagged(pool, a);
    TalliesOrdered(a);
  }

  /** With the `captain_i <= take_i` link the extracted team carries exactly `n_cap` captain flags. */
  lemma FlaggedIsNCap(c: TeamConstraints, cost: Player -> int, pool: seq<Player>, a: seq<Decision>)
    requires Feasible(c, cost, pool, a)
    ensures Flagged(Extracted(pool, a)) == c.nCap
  {
    ExtractedFlagged(pool, a);
    TalliesOrdered(a);
  }

  /**
    A concrete input the source's formulation accepts: one goalkeeper taken, the
    captain variable set on a second, untaken, player. The objective counts a
    captain bonus that no member of the extracted team carries.
   */
  lemma UntakenCaptainAsWritten(value: Player -> int, cost: Player -> int)
    requires forall q: Player :: cost(q) == q.price
    ensures var p := Player(0, "", Goalkeeper, 1, "ok", 0, 0, [], 0, 0, 0, false, None);
            var pool := [p, p.(playerId := 1, position := Defender)];
            var a := [Decision(true, false), Decision(false, true)];
            var c := DefaultConstraints(1);
            && FeasibleAsWritten(c, cost, pool, a)
            && !Feasible(c, cost, pool, a)
            && Flagged(Extracted(pool, a)) == 0 < c.nCap
            && Extracted(pool, a) == [p]
            && Objective(value, pool, a) == value(p) + value(pool[1])
  {
    var p := Player(0, "", Goalkeeper, 1, "ok", 0, 0, [], 0, 0, 0, false, None);
    var pool := [p, p.(playerId := 1, position := Defender)];
    var a := [Decision(true, false), Decision(false, true)];
    var rest, restA := [pool[1]], [a[1]];
    assert pool[1..] == rest && a[1..] == restA;
    assert rest[1..] == [] && restA[1..] == [];
    assert forall position :: RoleTally(rest, restA, position) == 0;
    assert Weighted([], [], Taken, cost) == 0 && Weighted([], [], Taken, value) == 0;
    assert Weighted([], [], Captained, value) == 0;
    assert Weighted(rest, restA, Taken, cost) == 0 && Weighted(rest, restA, Taken, value) == 0;
    assert Weighted(rest, restA, Captained, value) == value(pool[1]);
    assert Weighted(pool, a, Taken, cost) == 1;
    assert Tally(restA, Captained) == 1 && Tally(restA, Taken) == 0;
    assert Extracted(rest, restA) == [];
    assert Extracted(pool, a) == [Stamp(p, a[0])];
    assert Weighted(pool, a, Taken, value) == value(p);
    assert Weighted(pool, a, Captained, value) == value(pool[1]);
    assert !CaptainsTaken(a) by {
      assert a[1].captain && !a[1].take;
    }
  }

  // ---------------------------------------------------------------------------
  // The extracted team against the team model and the objective

  /**
    The extracted team, started empty, passes the intended role, size and salary
    predicates whenever the source's constraints hold, so `check_constraints`
    does not raise.
   */
  lemma ExtractedIsValid(c: TeamConstraints, value: Player -> int, cost: Player -> int,
                         pool: seq<Player>, a: seq<Decision>)
    requires FeasibleAsWritten(c, cost, pool, a) && FlagBlind(cost, pool)
    ensures Valid(Team(c, Extracted(pool, a), value, cost))
    ensures CheckConstraints(Team(c, Extracted(pool, a), value, cost)).Pass?
    ensures CheckConstraintsAsWritten(Team(c, Extracted(pool, a), value, cost)).Pass?
  {
    ExtractedCost(pool, a, cost);
    ExtractedRoles(pool, a, Goalkeeper);
    ExtractedRoles(pool, a, Defender);
    ExtractedRoles(pool, a, Midfielder);
    ExtractedRoles(pool, a, Striker);
    IntendedImpliesAsWritten(Team(c, Extracted(pool, a), value, cost));
  }

  /** `value` counts the captain flag as a double share, and the pool holds no flagged player. */
  predicate DoublesOnCaptain(value: Player -> int, pool: seq<Player>) {
    forall i :: 0 <= i < |pool| ==>
      !pool[i].isCaptain && value(pool[i].(isCaptain := true)) == 2 * value(pool[i])
  }

  /**
    When every captain is taken and the value function doubles on the flag, the
    extracted players are worth exactly the maximised objective.
   */
  lemma {:induction false} ExtractedValueIsObjective(value: Player -> int, pool: seq<Player>, a: seq<Decision>)
    requires |a| == |pool| && CaptainsTaken(a) && DoublesOnCaptain(value, pool)
    ensures SumOver(Extracted(pool, a), value) == Objective(value, pool, a)
  {
    if |pool| > 0 {
      var head := if a[0].take then [Stamp(pool[0], a[0])] else [];
      SumOverAppend(head, Extracted(pool[1..], a[1..]), value);
      assert pool[0].(isCaptain := false) == pool[0];
      assert CaptainsTaken(a[1..]) by {
        forall i | 0 <= i < |a| - 1 ensures a[1..][i].captain ==> a[1..][i].take {
          assert a[1..][i] == a[i + 1];
        }
      }
      assert DoublesOnCaptain(value, pool[1..]) by {
        forall i | 0 <= i < |pool| - 1
          ensures !pool[1..][i].isCaptain && value(pool[1..][i].(isCaptain := true)) == 2 * value(pool[1..][i])
        {
          assert pool[1..][i] == pool[i + 1];
        }
      }
      ExtractedValueIsObjective(value, pool[1..], a[1..]);
    }
  }

  // ---------------------------------------------------------------------------
  // Solve

  /** Why `solve` ends without a team. */
  datatype SolveError =
    | Unverified           // the solver's answer breaks a constraint the program states
    | ConstraintViolation  // the assembled team fails `check_constraints`

  /**
    `Solver.solve`: `answer` is the 0/1 assignment the external search returns.
    The answer is verified against the program's own constraints, the taken
    players are appended to the team in pool order, each as a copy flagged with
    its captain variable, and the team goes through the check as the source
    builds it (the late-bound predicate list).
   */
  method Solve(team: Team, pool: seq<Player>, answer: seq<Decision>) returns (r: Result<Team, SolveError>)
    ensures !FeasibleAsWritten(team.constraints, team.cost, pool, answer) ==> r.Failure? && r.error == Unverified
    ensures FeasibleAsWritten(team.constraints, team.cost, pool, answer) ==>
      && (r.Success? <==> ValidAsWritten(team.(players := team.players + Extracted(pool, answer))))
      && (r.Failure? ==> r.error == ConstraintViolation)
    ensures r.Success? ==>
      && r.value.players == team.players + Extracted(pool, answer)
      && r.value.constraints == team.constraints
      && r.value.value == team.value && r.value.cost == team.cost
      && ValidAsWritten(r.value)
    ensures (FeasibleAsWritten(team.constraints, team.cost, pool, answer) && team.players == []
             && FlagBlind(team.cost, pool)) ==> r.Success? && Valid(r.value)
  {
    if !FeasibleAsWritten(team.constraints, team.cost, pool, answer) {
      return Failure(Unverified);
    }
    var t := team;
    var i := 0;
    while i < |pool|
      invariant 0 <= i <= |pool|
      invariant t.players == team.players + Extracted(pool[..i], answer[..i])
      invariant t.constraints == team.constraints && t.value == team.value && t.cost == team.cost
    {
      var isCaptain := false;
      if answer[i].take {
        if answer[i].captain {
          isCaptain := true;
        }
        t := AddPlayer(t, pool[i].(isCaptain := isCaptain));
      }
      assert pool[..i + 1] == pool[..i] + [pool[i]];
      assert answer[..i + 1] == answer[..i] + [answer[i]];
      ExtractedAppend(pool[..i], answer[..i], [pool[i]], [answer[i]]);
      i := i + 1;
    }
    assert pool[..i] == pool && answer[..i] == answer;
    assert t.players == team.(players := team.players + Extracted(pool, answer)).players;
    if team.players == [] && FlagBlind(team.cost, pool) {
      assert t.players == Extracted(pool, answer);
      ExtractedIsValid(team.constraints, team.value, team.cost, pool, answer);
    }
    if CheckConstraintsAsWritten(t).Fail? {
      return Failure(ConstraintViolation);
    }
    return Success(t);
  }

  // ---------------------------------------------------------------------------
  // Optimality of the external search, as an assumption

  /** `a` is feasible and no feasible assignment has a larger objective. */
  ghost predicate Optimal(c: TeamConstraints, value: Player -> int, cost: Player -> int,
                          pool: seq<Player>, a: seq<Decision>) {
    && Feasible(c, cost, pool, a)
    && forall b :: Feasible(c, cost, pool, b) ==> Objective(value, pool, b) <= Objective(value, pool, a)
  }

  /** `a` meets the program's own constraints and none of those answers has a larger objective. */
  ghost predicate OptimalAsWritten(c: TeamConstraints, value: Player -> int, cost: Player -> int,
                                   pool: seq<Player>, a: seq<Decision>) {
    && FeasibleAsWritten(c, cost, pool, a)
    && forall b :: FeasibleAsWritten(c, cost, pool, b) ==> Objective(value, pool, b) <= Objective(value, pool, a)
  }

  /** An optimal answer yields a team worth at least the objective of any feasible assignment. */
  lemma OptimalTeamIsBest(c: TeamConstraints, value: Player -> int, cost: Player -> int,
                          pool: seq<Player>, a: seq<Decision>, b: seq<Decision>)
    requires Optimal(c, value, cost, pool, a) && DoublesOnCaptain(value, pool)
    requires Feasible(c, cost, pool, b)
    ensures Objective(value, pool, b) <= ExpectedValue(Team(c, Extracted(pool, a), value, cost))
  {
    ExtractedValueIsObjective(value, pool, a);
  }

  /** Raising `max_salary` never lowers the optimal objective of the program's own formulation. */
  lemma OptimumMonotoneInSalaryAsWritten(c: TeamConstraints, maxSalary: int, value: Player -> int, cost: Player -> int,
                                         pool: seq<Player>, a: seq<Decision>, a': seq<Decision>)
    requires c.maxSalary <= maxSalary
    requires OptimalAsWritten(c, value, cost, pool, a)
    requires OptimalAsWritten(c.(maxSalary := maxSalary), value, cost, pool, a')
    ensures Objective(value, pool, a) <= Objective(value, pool, a')
  {
    assert FeasibleAsWritten(c.(maxSalary := maxSalary), cost, pool, a);
  }

  /** Raising `max_salary` never lowers the optimal objective of the corrected formulation. */
  lemma OptimumMonotoneInSalary(c: TeamConstraints, maxSalary: int, value: Player -> int, cost: Player -> int,
                                pool: seq<Player>, a: seq<Decision>, a': seq<Decision>)
    requires c.maxSalary <= maxSalary
    requires Optimal(c, value, cost, pool, a)
    requires Optimal(c.(maxSalary := maxSalary), value, cost, pool, a')
    ensures Objective(value, pool, a) <= Objective(value, pool, a')
  {
    assert Feasible(c.(maxSalary := maxSalary), cost, pool, a);
  }
}
