/** The figures `display_stats` reports for one team: how many players it
    has, their names, the flattened list of their guardians, how many are
    experienced and how many are not, and the total height behind the
    average. */
module Stats {
  import opened Roster

  datatype TeamStats = TeamStats(
    name: string,
    total: nat,
    playerNames: seq<string>,
    guardians: seq<string>,
    experienced: nat,
    inexperienced: nat,
    heightSum: int)

  /** The players' names, in team order. */
  function PlayerNames(ps: seq<Player>): seq<string>
    decreases |ps|
  {
    if ps == [] then [] else PlayerNames(ps[..|ps| - 1]) + [ps[|ps| - 1].name]
  }

  /** Every player's guardians, one player after the other. */
  function Guardians(ps: seq<Player>): seq<string>
    decreases |ps|
  {
    if ps == [] then [] else ps[0].guardians + Guardians(ps[1..])
  }

  function HeightSum(ps: seq<Player>): int
    decreases |ps|
  {
    if ps == [] then 0 else HeightSum(ps[..|ps| - 1]) + ps[|ps| - 1].height
  }

  /** `display_stats`: an empty team raises before anything is shown,
      because the average divides by the number of players. */
  function DisplayStats(team: Team): Result<TeamStats> {
    var ps := team.players;
    if ps == [] then Err(EmptyTeam)
    else
      Ok(TeamStats(team.name, |ps|, PlayerNames(ps), Guardians(ps),
                   |Filter(ps, true)|, |Filter(ps, false)|, HeightSum(ps)))
  }

  /** Position `k` of the name list is the name of player `k`. */
  lemma {:induction false} PlayerNamesAt(ps: seq<Player>)
    ensures |PlayerNames(ps)| == |ps|
    ensures forall k :: 0 <= k < |ps| ==> PlayerNames(ps)[k] == ps[k].name
    decreases |ps|
  {
    if ps != [] {
      PlayerNamesAt(ps[..|ps| - 1]);
    }
  }

  /** Flattening a concatenation flattens each part. */
  lemma {:induction false} GuardiansAppend(a: seq<Player>, b: seq<Player>)
    ensures Guardians(a + b) == Guardians(a) + Guardians(b)
    decreases |a|
  {
    if a == [] {
      assert a + b == b;
    } else {
      assert (a + b)[1..] == a[1..] + b;
      GuardiansAppend(a[1..], b);
    }
  }

  /** Player `k`'s guardians sit, as a block, between those of the players
      before and those of the players after. */
  lemma GuardiansOf(ps: seq<Player>, k: nat)
    requires k < |ps|
    ensures Guardians(ps) == Guardians(ps[..k]) + ps[k].guardians + Guardians(ps[k + 1..])
  {
    assert ps == ps[..k] + ps[k..];
    GuardiansAppend(ps[..k], ps[k..]);
    assert ps[k..][1..] == ps[k + 1..];
  }

  /** The number of guardians, counted player by player from the back. */
  function GuardianCount(ps: seq<Player>): nat
    decreases |ps|
  {
    if ps == [] then 0 else GuardianCount(ps[..|ps| - 1]) + |ps[|ps| - 1].guardians|
  }

  /** The flattened list is as long as all the players' guardian lists
      together. */
  lemma {:induction false} GuardiansLength(ps: seq<Player>)
    ensures |Guardians(ps)| == GuardianCount(ps)
    decreases |ps|
  {
    if ps != [] {
      var k := |ps| - 1;
      assert ps == ps[..k] + [ps[k]];
      GuardiansAppend(ps[..k], [ps[k]]);
      assert Guardians([ps[k]]) == ps[k].guardians + Guardians([]);
      GuardiansLength(ps[..k]);
    }
  }

  /** When every player has at least one guardian, as normalised players
      do, the guardian list is at least as long as the team. */
  lemma {:induction false} GuardiansAtLeastOneEach(ps: seq<Player>)
    requires forall k :: 0 <= k < |ps| ==> |ps[k].guardians| >= 1
    ensures |Guardians(ps)| >= |ps|
    decreases |ps|
  {
    if ps != [] {
      GuardiansAtLeastOneEach(ps[1..]);
    }
  }

  /** Every normalised player has at least one guardian. */
  lemma CleanAllGuardians(raw: seq<RawPlayer>, ps: seq<Player>)
    requires CleanAll(raw) == Ok(ps)
    ensures forall k :: 0 <= k < |ps| ==> |ps[k].guardians| >= 1
  {
    CleanAllInOrder(raw, ps);
    forall k | 0 <= k < |ps|
      ensures |ps[k].guardians| >= 1
    {
      GuardiansRoundTrip(raw[k]);
    }
  }

  /** When every height lies within `[low, high]`, so does the average:
      the sum lies between `total * low` and `total * high`. */
  lemma {:induction false} HeightSumBounds(ps: seq<Player>, low: int, high: int)
    requires forall k :: 0 <= k < |ps| ==> low <= ps[k].height <= high
    ensures |ps| * low <= HeightSum(ps) <= |ps| * high
    decreases |ps|
  {
    if ps != [] {
      var init := ps[..|ps| - 1];
      HeightSumBounds(init, low, high);
      assert |ps| * low == |init| * low + low;
      assert |ps| * high == |init| * high + high;
    }
  }

  /** What a successful report says: it fails exactly for a team without
      players; otherwise the total counts every player, the names follow
      the team's order, and every player is either experienced or not. */
  lemma DisplayStatsReport(team: Team)
    ensures DisplayStats(team).Err? <==> team.players == []
    ensures DisplayStats(team).Err? ==> DisplayStats(team).error == EmptyTeam
    ensures DisplayStats(team).Ok? ==>
              var s := DisplayStats(team).value;
              s.name == team.name && s.total == |team.players| &&
              s.experienced + s.inexperienced == s.total &&
              |s.playerNames| == s.total &&
              forall k :: 0 <= k < s.total ==> s.playerNames[k] == team.players[k].name
  {
    FilterPartition(team.players, Player([], [], false, 0));
    PlayerNamesAt(team.players);
  }

  /** On a team dealt by `populate_teams` from a roster with at least as
      many players as teams, the report succeeds and shows as many
      experienced players as inexperienced ones. */
  lemma PopulatedReport(raw: seq<RawPlayer>, names: seq<string>, teams: seq<Team>, t: nat)
    requires Populated(raw, names) == Ok(teams) && t < |teams|
    requires |names| <= |CleanAll(raw).value|
    ensures DisplayStats(teams[t]).Ok?
    ensures DisplayStats(teams[t]).value.experienced == DisplayStats(teams[t]).value.inexperienced
  {
    PopulatedTeams(raw, names, teams);
    PopulatedAlternates(raw, names, teams, t);
    DivAtLeastOne(|CleanAll(raw).value|, |names|);
  }

  lemma DivAtLeastOne(a: nat, b: nat)
    requires 0 < b <= a
    ensures a / b >= 1
  {
  }
}
