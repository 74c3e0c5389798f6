/**
  The team model: players, the constraint configuration, a team as an ordered
  list of players with its role views and sums, and the constraint checker.
 */
module Models {
  import opened Common

  /** One entry of a player's fitness history: a numeric rating or a non-numeric "no data" marker. */
  datatype FitnessSample = Num(rating: int) | NoData

  /** An immutable player record; `isCaptain` is only ever set on a copy. */
  datatype Player = Player(
    playerId: int,
    name: string,
    position: int,
    price: int,
    status: string,
    playedHome: int,
    playedAway: int,
    fitness: seq<FitnessSample>,
    points: int,
    pointsHome: int,
    pointsAway: int,
    isCaptain: bool,
    teamId: Option<int>)

  /** The four roles, as the `position` codes the team model filters on. */
  const Goalkeeper: int := 1
  const Defender: int := 2
  const Midfielder: int := 3
  const Striker: int := 4

  /** An inclusive `(min, max)` pair. */
  datatype Range = Range(lo: int, hi: int) {
    predicate Contains(n: int) {
      lo <= n && n <= hi
    }
  }

  /** The immutable constraint configuration. */
  datatype TeamConstraints = TeamConstraints(
    maxSalary: int,
    rangePt: Range,
    rangeDf: Range,
    rangeMc: Range,
    rangeDl: Range,
    nCap: int,
    maxNPlayers: int)

  /** The configuration built when only `max_salary` is given: the dataclass defaults. */
  function DefaultConstraints(maxSalary: int): TeamConstraints {
    TeamConstraints(maxSalary, Range(0, 11), Range(0, 11), Range(0, 11), Range(0, 11), 1, 11)
  }

  /** A team: the configuration, the ordered members and the value and cost callables. */
  datatype Team = Team(
    constraints: TeamConstraints,
    players: seq<Player>,
    value: Player -> int,
    cost: Player -> int)

  // ---------------------------------------------------------------------------
  // Role views

  /** The members whose `position` is `position`, in list order. */
  function RoleView(ps: seq<Player>, position: int): (r: seq<Player>)
    ensures |r| <= |ps|
    ensures forall p :: p in r <==> p in ps && p.position == position
  {
    if |ps| == 0 then []
    else (if ps[0].position == position then [ps[0]] else []) + RoleView(ps[1..], position)
  }

  function Goalkeepers(t: Team): seq<Player> { RoleView(t.players, Goalkeeper) }
  function Defenders(t: Team): seq<Player> { RoleView(t.players, Defender) }
  function Midfielders(t: Team): seq<Player> { RoleView(t.players, Midfielder) }
  function Strikers(t: Team): seq<Player> { RoleView(t.players, Striker) }

  /** Filtering distributes over concatenation: the view keeps the list order. */
  lemma {:induction false} RoleViewAppend(a: seq<Player>, b: seq<Player>, position: int)
    ensures RoleView(a + b, position) == RoleView(a, position) + RoleView(b, position)
  {
    if |a| == 0 {
      assert a + b == b;
    } else {
      assert (a + b)[1..] == a[1..] + b;
      RoleViewAppend(a[1..], b, position);
    }
  }

  /** When every position is a role code, the four role views split the team. */
  lemma {:induction false} RoleViewsPartition(t: Team)
    requires InRoles(t.players)
    ensures |Goalkeepers(t)| + |Defenders(t)| + |Midfielders(t)| + |Strikers(t)| == |t.players|
  {
    RoleViewsPartitionCounts(t.players);
  }

  lemma {:induction false} RoleViewsPartitionCounts(ps: seq<Player>)
    requires InRoles(ps)
    ensures |RoleView(ps, Goalkeeper)| + |RoleView(ps, Defender)|
          + |RoleView(ps, Midfielder)| + |RoleView(ps, Striker)| == |ps|
  {
    if |ps| > 0 {
      RoleViewsPartitionCounts(ps[1..]);
    }
  }

  /** Whatever the positions, the four role views together never exceed the team. */
  lemma {:induction false} RoleViewsBounded(ps: seq<Player>)
    ensures |RoleView(ps, Goalkeeper)| + |RoleView(ps, Defender)|
          + |RoleView(ps, Midfielder)| + |RoleView(ps, Striker)| <= |ps|
  {
    if |ps| > 0 {
      RoleViewsBounded(ps[1..]);
    }
  }

  // ---------------------------------------------------------------------------
  // Sums and add_player

  /** The plain sum of `f` over the members. */
  function SumOver(ps: seq<Player>, f: Player -> int): int {
    if |ps| == 0 then 0 else f(ps[0]) + SumOver(ps[1..], f)
  }

  lemma {:induction false} SumOverAppend(a: seq<Player>, b: seq<Player>, f: Player -> int)
    ensures SumOver(a + b, f) == SumOver(a, f) + SumOver(b, f)
  {
    if |a| == 0 {
      assert a + b == b;
    } else {
      assert (a + b)[1..] == a[1..] + b;
      SumOverAppend(a[1..], b, f);
    }
  }

  /** Every member's position is one of the four role codes. */
  predicate InRoles(ps: seq<Player>) {
    forall i :: 0 <= i < |ps| ==> Goalkeeper <= ps[i].position <= Striker
  }

  /** A sum over a team of role players is the sum of its four role sums. */
  lemma {:induction false} SumOverByRole(ps: seq<Player>, f: Player -> int)
    requires InRoles(ps)
    ensures SumOver(ps, f) == SumOver(RoleView(ps, Goalkeeper), f) + SumOver(RoleView(ps, Defender), f)
                            + SumOver(RoleView(ps, Midfielder), f) + SumOver(RoleView(ps, Striker), f)
  {
    if |ps| > 0 {
      assert InRoles(ps[1..]) by {
        forall i | 0 <= i < |ps| - 1 ensures Goalkeeper <= ps[1..][i].position <= Striker {
          assert ps[1..][i] == ps[i + 1];
        }
      }
      SumOverRoleViewStep(ps, f, Goalkeeper);
      SumOverRoleViewStep(ps, f, Defender);
      SumOverRoleViewStep(ps, f, Midfielder);
      SumOverRoleViewStep(ps, f, Striker);
      SumOverByRole(ps[1..], f);
    }
  }

  lemma SumOverRoleViewStep(ps: seq<Player>, f: Player -> int, position: int)
    requires |ps| > 0
    ensures SumOver(RoleView(ps, position), f)
         == (if ps[0].position == position then f(ps[0]) else 0) + SumOver(RoleView(ps[1..], position), f)
  {
    var head := if ps[0].position == position then [ps[0]] else [];
    SumOverAppend(head, RoleView(ps[1..], position), f);
  }

  /**
    `expected_value`: the members' values summed, with no multiplier of its own;
    for a team of role players it is the sum of the four role views' values.
   */
  function ExpectedValue(t: Team): (r: int)
    ensures InRoles(t.players) ==>
      r == SumOver(Goalkeepers(t), t.value) + SumOver(Defenders(t), t.value)
         + SumOver(Midfielders(t), t.value) + SumOver(Strikers(t), t.value)
  {
    if InRoles(t.players) then SumOverByRole(t.players, t.value); SumOver(t.players, t.value)
    else SumOver(t.players, t.value)
  }

  /** `team_cost`: the members' costs summed, which for role players is the sum of the role views' costs. */
  function TeamCost(t: Team): (r: int)
    ensures InRoles(t.players) ==>
      r == SumOver(Goalkeepers(t), t.cost) + SumOver(Defenders(t), t.cost)
         + SumOver(Midfielders(t), t.cost) + SumOver(Strikers(t), t.cost)
  {
    if InRoles(t.players) then SumOverByRole(t.players, t.cost); SumOver(t.players, t.cost)
    else SumOver(t.players, t.cost)
  }

  /** `add_player`: a new list with `p` at the end; everything else is kept. */
  function AddPlayer(t: Team, p: Player): (r: Team)
    ensures |r.players| == |t.players| + 1
    ensures r.players[..|t.players|] == t.players && r.players[|t.players|] == p
    ensures r.constraints == t.constraints && r.value == t.value && r.cost == t.cost
  {
    t.(players := t.players + [p])
  }

  /** Adding a player raises the cost and the expected value by exactly that player's share. */
  lemma AddPlayerSums(t: Team, p: Player)
    ensures TeamCost(AddPlayer(t, p)) == TeamCost(t) + t.cost(p)
    ensures ExpectedValue(AddPlayer(t, p)) == ExpectedValue(t) + t.value(p)
  {
    SumOverAppend(t.players, [p], t.cost);
    SumOverAppend(t.players, [p], t.value);
  }

  /** Adding a player extends exactly one role view, the new player's, at its end. */
  lemma AddPlayerRoleViews(t: Team, p: Player, position: int)
    ensures RoleView(AddPlayer(t, p).players, position)
         == RoleView(t.players, position) + (if p.position == position then [p] else [])
  {
    RoleViewAppend(t.players, [p], position);
  }

  // ---------------------------------------------------------------------------
  // Constraint checking

  /** One predicate over a team, as a tagged value rather than a closure. */
  datatype Constraint =
    | RoleRange(position: int, range: Range)
    | MaxSize(limit: int)
    | MaxSalary(limit: int)

  /** The single dispatch that evaluates a constraint on a team (inclusive bounds). */
  predicate Holds(k: Constraint, t: Team) {
    match k
    case RoleRange(position, range) => range.Contains(|RoleView(t.players, position)|)
    case MaxSize(limit) => |t.players| <= limit
    case MaxSalary(limit) => TeamCost(t) <= limit
  }

  /** The role entries the closure-building loop walks, in dictionary order. */
  function RoleEntries(c: TeamConstraints): seq<(int, Range)> {
    [(Goalkeeper, c.rangePt), (Defender, c.rangeDf), (Midfielder, c.rangeMc), (Striker, c.rangeDl)]
  }

  /** The intended predicate list: one role check per entry, then size, then salary. */
  function ConstraintsToFuncs(c: TeamConstraints): (ks: seq<Constraint>)
    ensures ks == [RoleRange(Goalkeeper, c.rangePt), RoleRange(Defender, c.rangeDf),
                   RoleRange(Midfielder, c.rangeMc), RoleRange(Striker, c.rangeDl),
                   MaxSize(c.maxNPlayers), MaxSalary(c.maxSalary)]
  {
    var es := RoleEntries(c);
    seq(|es|, i requires 0 <= i < |es| => RoleRange(es[i].0, es[i].1))
      + [MaxSize(c.maxNPlayers), MaxSalary(c.maxSalary)]
  }

  /**
    The predicate list as the source builds it. Each role closure reads the loop
    variables only when it is called, after the loop has ended, so every one of
    them sees the final entry: position 4 against `range_dl`.
   */
  function ConstraintsToFuncsAsWritten(c: TeamConstraints): (ks: seq<Constraint>)
    ensures var last := RoleRange(Striker, c.rangeDl);
            ks == [last, last, last, last, MaxSize(c.maxNPlayers), MaxSalary(c.maxSalary)]
  {
    var es := RoleEntries(c);
    var last := es[|es| - 1];
    seq(|es|, i requires 0 <= i < |es| => RoleRange(last.0, last.1))
      + [MaxSize(c.maxNPlayers), MaxSalary(c.maxSalary)]
  }

  const UnsatisfiedMessage: string := "Some constraint is not satisfied!"

  /** `check_constraints` over a given predicate list: raise unless every predicate holds. */
  function CheckAll(ks: seq<Constraint>, t: Team): Outcome<string> {
    if forall k :: k in ks ==> Holds(k, t) then Pass else Fail(UnsatisfiedMessage)
  }

  /** A six-entry predicate list passes exactly when each of its entries holds. */
  lemma CheckAllSix(ks: seq<Constraint>, t: Team)
    requires |ks| == 6
    ensures CheckAll(ks, t).Pass? <==>
      Holds(ks[0], t) && Holds(ks[1], t) && Holds(ks[2], t) && Holds(ks[3], t) && Holds(ks[4], t) && Holds(ks[5], t)
  {
  }

  /** Per-role inclusive ranges and the size cap, stated field by field. */
  predicate RolesAndSizeHold(c: TeamConstraints, ps: seq<Player>) {
    && c.rangePt.Contains(|RoleView(ps, Goalkeeper)|)
    && c.rangeDf.Contains(|RoleView(ps, Defender)|)
    && c.rangeMc.Contains(|RoleView(ps, Midfielder)|)
    && c.rangeDl.Contains(|RoleView(ps, Striker)|)
    && |ps| <= c.maxNPlayers
  }

  /** A team the configuration admits: roles, size and salary, all inclusive. */
  predicate Valid(t: Team) {
    RolesAndSizeHold(t.constraints, t.players) && TeamCost(t) <= t.constraints.maxSalary
  }

  /** What the late-bound predicate list actually accepts: strikers, size and salary only. */
  predicate ValidAsWritten(t: Team) {
    && t.constraints.rangeDl.Contains(|RoleView(t.players, Striker)|)
    && |t.players| <= t.constraints.maxNPlayers
    && TeamCost(t) <= t.constraints.maxSalary
  }

  /** The intended check: it raises exactly when some role, size or salary predicate fails. */
  function CheckConstraints(t: Team): (r: Outcome<string>)
    ensures r.Pass? <==> Valid(t)
    ensures r.Fail? ==> r.error == UnsatisfiedMessage
  {
    var c := t.constraints;
    var ks := ConstraintsToFuncs(c);
    CheckAllSix(ks, t);
    CheckAll(ks, t)
  }

  /** The check as the source runs it: it raises exactly when strikers, size or salary fail. */
  function CheckConstraintsAsWritten(t: Team): (r: Outcome<string>)
    ensures r.Pass? <==> ValidAsWritten(t)
    ensures r.Fail? ==> r.error == UnsatisfiedMessage
  {
    var c := t.constraints;
    var ks := ConstraintsToFuncsAsWritten(c);
    CheckAllSix(ks, t);
    CheckAll(ks, t)
  }

  /** A team the intended check admits is admitted by the late-bound check too. */
  lemma IntendedImpliesAsWritten(t: Team)
    ensures CheckConstraints(t).Pass? ==> CheckConstraintsAsWritten(t).Pass?
  {
  }

  /** The converse fails: an empty team passes the late-bound check even when a goalkeeper is required. */
  lemma AsWrittenAdmitsMissingGoalkeeper(maxSalary: nat)
    ensures var t := Team(DefaultConstraints(maxSalary).(rangePt := Range(1, 1)), [], _ => 0, _ => 0);
            CheckConstraintsAsWritten(t).Pass? && CheckConstraints(t).Fail?
  {
    var t := Team(DefaultConstraints(maxSalary).(rangePt := Range(1, 1)), [], _ => 0, _ => 0);
    assert RoleView(t.players, Goalkeeper) == [];
  }

  /** The captain count `n_cap` plays no part in the check. */
  lemma CheckIgnoresCaptainCount(t: Team, nCap: int)
    ensures CheckConstraints(t) == CheckConstraints(t.(constraints := t.constraints.(nCap := nCap)))
    ensures CheckConstraintsAsWritten(t)
         == CheckConstraintsAsWritten(t.(constraints := t.constraints.(nCap := nCap)))
  {
  }

  /** Size and salary bounds are inclusive: a team exactly at both limits passes. */
  lemma BoundsAreInclusive(t: Team)
    requires |t.players| == t.constraints.maxNPlayers
    requires TeamCost(t) == t.constraints.maxSalary
    requires t.constraints.rangePt.Contains(|Goalkeepers(t)|)
    requires t.constraints.rangeDf.Contains(|Defenders(t)|)
    requires t.constraints.rangeMc.Contains(|Midfielders(t)|)
    requires t.constraints.rangeDl.Contains(|Strikers(t)|)
    ensures CheckConstraints(t).Pass?
  {
  }

  /** Raising `max_salary` never turns a team the late-bound check passes into a failing one. */
  lemma CheckAsWrittenMonotoneInSalary(t: Team, maxSalary: int)
    requires CheckConstraintsAsWritten(t).Pass?
    requires t.constraints.maxSalary <= maxSalary
    ensures CheckConstraintsAsWritten(t.(constraints := t.constraints.(maxSalary := maxSalary))).Pass?
  {
  }

  /** Raising `max_salary` never turns a team the intended check passes into a failing one. */
  lemma CheckMonotoneInSalary(t: Team, maxSalary: int)
    requires CheckConstraints(t).Pass?
    requires t.constraints.maxSalary <= maxSalary
    ensures CheckConstraints(t.(constraints := t.constraints.(maxSalary := maxSalary))).Pass?
  {
  }

  /** Under the default ranges every role predicate holds for a team of at most eleven. */
  lemma DefaultRolesHold(ps: seq<Player>, maxSalary: int)
    requires |ps| <= 11
    ensures RolesAndSizeHold(DefaultConstraints(maxSalary), ps)
  {
  }

  // ---------------------------------------------------------------------------
  // Count satisfiability of a configuration

  function Floor0(n: int): nat {
    if n < 0 then 0 else n
  }

  /** Every role's (non-negative) minimum fits under its maximum, and the minimums fit the size cap. */
  predicate CountSatisfiable(c: TeamConstraints) {
    && Floor0(c.rangePt.lo) <= c.rangePt.hi
    && Floor0(c.rangeDf.lo) <= c.rangeDf.hi
    && Floor0(c.rangeMc.lo) <= c.rangeMc.hi
    && Floor0(c.rangeDl.lo) <= c.rangeDl.hi
    && Floor0(c.rangePt.lo) + Floor0(c.rangeDf.lo) + Floor0(c.rangeMc.lo) + Floor0(c.rangeDl.lo)
       <= c.maxNPlayers
  }

  function Repeat(p: Player, n: nat): (r: seq<Player>)
    ensures |r| == n
  {
    if n == 0 then [] else [p] + Repeat(p, n - 1)
  }

  lemma {:induction false} RoleViewRepeat(p: Player, n: nat, position: int)
    ensures RoleView(Repeat(p, n), position) == if p.position == position then Repeat(p, n) else []
  {
    if n > 0 {
      assert Repeat(p, n)[1..] == Repeat(p, n - 1);
      RoleViewRepeat(p, n - 1, position);
    }
  }

  /** The smallest roster meeting every role minimum, built from copies of `filler`. */
  function MinimumRoster(c: TeamConstraints, filler: Player): (r: seq<Player>)
    requires CountSatisfiable(c)
    ensures RolesAndSizeHold(c, r)
  {
    var gk := Repeat(filler.(position := Goalkeeper), Floor0(c.rangePt.lo));
    var df := Repeat(filler.(position := Defender), Floor0(c.rangeDf.lo));
    var mc := Repeat(filler.(position := Midfielder), Floor0(c.rangeMc.lo));
    var dl := Repeat(filler.(position := Striker), Floor0(c.rangeDl.lo));
    RosterCounts(gk, df, mc, dl, filler, c);
    gk + df + mc + dl
  }

  lemma RosterCounts(gk: seq<Player>, df: seq<Player>, mc: seq<Player>, dl: seq<Player>,
                     filler: Player, c: TeamConstraints)
    requires gk == Repeat(filler.(position := Goalkeeper), Floor0(c.rangePt.lo))
    requires df == Repeat(filler.(position := Defender), Floor0(c.rangeDf.lo))
    requires mc == Repeat(filler.(position := Midfielder), Floor0(c.rangeMc.lo))
    requires dl == Repeat(filler.(position := Striker), Floor0(c.rangeDl.lo))
    ensures forall position :: Goalkeeper <= position <= Striker ==>
      |RoleView(gk + df + mc + dl, position)|
        == (if position == Goalkeeper then |gk| else if position == Defender then |df|
            else if position == Midfielder then |mc| else |dl|)
  {
    forall position | Goalkeeper <= position <= Striker
      ensures |RoleView(gk + df + mc + dl, position)|
        == (if position == Goalkeeper then |gk| else if position == Defender then |df|
            else if position == Midfielder then |mc| else |dl|)
    {
      RoleViewAppend(gk + df + mc, dl, position);
      RoleViewAppend(gk + df, mc, position);
      RoleViewAppend(gk, df, position);
      RoleViewRepeat(filler.(position := Goalkeeper), Floor0(c.rangePt.lo), position);
      RoleViewRepeat(filler.(position := Defender), Floor0(c.rangeDf.lo), position);
      RoleViewRepeat(filler.(position := Midfielder), Floor0(c.rangeMc.lo), position);
      RoleViewRepeat(filler.(position := Striker), Floor0(c.rangeDl.lo), position);
    }
  }

  /** Conversely, a configuration some roster meets is count-satisfiable. */
  lemma RosterImpliesCountSatisfiable(c: TeamConstraints, ps: seq<Player>)
    requires RolesAndSizeHold(c, ps)
    ensures CountSatisfiable(c)
  {
    RoleViewsBounded(ps);
  }

  // ---------------------------------------------------------------------------
  // Captain flags

  /** How many members carry the captain flag. */
  function Flagged(ps: seq<Player>): nat {
    if |ps| == 0 then 0 else (if ps[0].isCaptain then 1 else 0) + Flagged(ps[1..])
  }
}
