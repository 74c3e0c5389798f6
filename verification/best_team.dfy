/**
  The selection script's value function and its constraint configuration.
 */
module BestTeam {
  import opened Models
  import opened Solver

  /** The numeric fitness samples, in their original order; "no data" markers are dropped. */
  function NumericSamples(fs: seq<FitnessSample>): (r: seq<int>)
    ensures |r| <= |fs|
    ensures forall x :: x in r <==> Num(x) in fs
  {
    if |fs| == 0 then []
    else (if fs[0].Num? then [fs[0].rating] else []) + NumericSamples(fs[1..])
  }

  /** Dropping markers distributes over concatenation: the kept samples stay in order. */
  lemma {:induction false} NumericSamplesAppend(a: seq<FitnessSample>, b: seq<FitnessSample>)
    ensures NumericSamples(a + b) == NumericSamples(a) + NumericSamples(b)
  {
    if |a| == 0 {
      assert a + b == b;
    } else {
      assert (a + b)[1..] == a[1..] + b;
      NumericSamplesAppend(a[1..], b);
    }
  }

  /** The smallest element of a non-empty sequence. */
  function MinOf(xs: seq<int>): (m: int)
    requires |xs| > 0
    ensures m in xs
    ensures forall x :: x in xs ==> m <= x
  {
    if |xs| == 1 then xs[0]
    else
      var rest := MinOf(xs[1..]);
      assert forall x :: x in xs ==> x == xs[0] || x in xs[1..];
      if xs[0] <= rest then xs[0] else rest
  }

  /** The conditions under which a player earns a non-zero base value. */
  predicate Eligible(p: Player) {
    && p.teamId.Some?
    && |NumericSamples(p.fitness)| > 1
    && (p.status == "ok" || p.status == "warned")
  }

  /**
    The value before the captain bonus: the worst numeric fitness sample of an
    eligible player, 0 for everyone else.
   */
  function BaseValue(p: Player): (v: int)
    ensures !Eligible(p) ==> v == 0
    ensures Eligible(p) ==> v in NumericSamples(p.fitness)
    ensures Eligible(p) ==> forall x :: Num(x) in p.fitness ==> v <= x
  {
    if Eligible(p) then MinOf(NumericSamples(p.fitness)) else 0
  }

  /** The script's cost function, `lambda x: x.price`. */
  function Price(p: Player): int {
    p.price
  }

  /**
    `player_value`: 0 for an ineligible player; otherwise the worst numeric
    fitness sample, doubled for a captain.
   */
  function PlayerValue(p: Player): (v: int)
    ensures !Eligible(p) ==> v == 0
    ensures Eligible(p) && !p.isCaptain ==> v in NumericSamples(p.fitness)
    ensures Eligible(p) && p.isCaptain ==> v % 2 == 0 && v / 2 in NumericSamples(p.fitness)
    ensures Eligible(p) ==> forall x :: Num(x) in p.fitness ==> v <= (if p.isCaptain then 2 * x else x)
  {
    if p.isCaptain then BaseValue(p) * 2 else BaseValue(p)
  }

  /** A captain is worth exactly twice the same player without the flag. */
  lemma CaptainDoubles(p: Player)
    ensures PlayerValue(p.(isCaptain := true)) == 2 * PlayerValue(p.(isCaptain := false))
    ensures !p.isCaptain ==> PlayerValue(p) == BaseValue(p)
  {
  }

  /** The value reads only fitness, team id, status and the captain flag. */
  lemma ValueDependsOnFewFields(p: Player, q: Player)
    requires p.fitness == q.fitness && p.teamId == q.teamId
    requires p.status == q.status && p.isCaptain == q.isCaptain
    ensures PlayerValue(p) == PlayerValue(q)
  {
  }

  /** Unflagged pool players make `PlayerValue` fit the objective's captain term. */
  lemma PlayerValueDoublesOnCaptain(pool: seq<Player>)
    requires forall i :: 0 <= i < |pool| ==> !pool[i].isCaptain
    ensures DoublesOnCaptain(PlayerValue, pool)
    ensures FlagBlind(Price, pool)
  {
  }

  /**
    For the script's value and cost, a team extracted from a corrected-feasible
    answer passes the check and is worth exactly the objective.
   */
  lemma ScriptTeamValueIsObjective(c: TeamConstraints, pool: seq<Player>, a: seq<Decision>)
    requires forall i :: 0 <= i < |pool| ==> !pool[i].isCaptain
    requires Feasible(c, Price, pool, a)
    ensures CheckConstraints(Team(c, Extracted(pool, a), PlayerValue, Price)).Pass?
    ensures ExpectedValue(Team(c, Extracted(pool, a), PlayerValue, Price)) == Objective(PlayerValue, pool, a)
  {
    PlayerValueDoublesOnCaptain(pool);
    ExtractedIsValid(c, PlayerValue, Price, pool, a);
    ExtractedValueIsObjective(PlayerValue, pool, a);
  }

  /** The constraint configuration the script solves with. */
  const Configured: TeamConstraints :=
    TeamConstraints(300_000_000, Range(1, 1), Range(3, 5), Range(2, 6), Range(0, 4), 1, 11)

  /** The configured minimums (1 + 3 + 2 + 0 = 6) fit in eleven places, and one captain is asked for. */
  lemma ConfiguredIsCountSatisfiable()
    ensures CountSatisfiable(Configured)
    ensures Configured.rangePt.lo + Configured.rangeDf.lo + Configured.rangeMc.lo + Configured.rangeDl.lo == 6
    ensures Configured.nCap == 1
  {
  }

  /** Under the configuration, the late-bound check lets an empty team through. */
  lemma ConfiguredAsWrittenAdmitsEmptyTeam()
    ensures CheckConstraintsAsWritten(Team(Configured, [], PlayerValue, Price)).Pass?
    ensures CheckConstraints(Team(Configured, [], PlayerValue, Price)).Fail?
  {
  }
}
