/** The start-up pipeline of the basketball stats tool: raw player records
    are normalised into typed players, one empty team is made per team
    name, and the players are dealt out over the teams so that each team
    alternately receives an experienced and an inexperienced player. */
module Roster {
  import opened Text

  /** A player record as the configuration supplies it: every field is text. */
  datatype RawPlayer = RawPlayer(name: string, guardians: string, experience: string, height: string)

  /** A normalised player. */
  datatype Player = Player(name: string, guardians: seq<string>, experience: bool, height: int)

  datatype Team = Team(name: string, players: seq<Player>)

  /** The exceptions the script can raise, each as a value. */
  datatype Error =
    | HeightMissing(height: string)     // IndexError: the height text has no token
    | HeightNotInteger(token: string)   // ValueError: the first token is not an integer
    | PopFromEmpty                      // IndexError: a partition ran dry while filling a team
    | EmptyTeam                         // ZeroDivisionError: average height of a team with no players
    | EndOfInput                        // EOFError: the menu asked for a line and none was left

  datatype Result<T> = Ok(value: T) | Err(error: Error)

  const GuardianSeparator: string := " and "
  const ExperiencedMark: string := "YES"

  // ---------------------------------------------------------------------
  // Normalising one record
  // ---------------------------------------------------------------------

  /** `int(height.split()[0])` */
  function ParseHeight(height: string): Result<int> {
    match FirstToken(height)
    case None => Err(HeightMissing(height))
    case Some(token) =>
      match ParseInt(token)
      case None => Err(HeightNotInteger(token))
      case Some(n) => Ok(n)
  }

  /** Indexing the token list fails exactly for a blank height text. */
  lemma HeightMissingWhenBlank(height: string)
    ensures ParseHeight(height).Err? && ParseHeight(height).error.HeightMissing? <==>
              forall k :: 0 <= k < |height| ==> IsSpace(height[k])
  {
    FirstTokenBlank(height);
  }

  /** A height written as a number followed by a unit ("72 inches") reads
      back as that number. */
  lemma HeightRoundTrip(n: int, unit: string)
    requires unit == [] || IsSpace(unit[0])
    ensures ParseHeight(IntToString(n) + unit) == Ok(n)
  {
    FirstTokenOf(IntToString(n), unit);
    ParseIntRoundTrip(n);
  }

  /** The body of the normalising loop: one raw record to one player. */
  function CleanPlayer(raw: RawPlayer): Result<Player> {
    var guardians := Split(raw.guardians, GuardianSeparator);
    var experience := raw.experience == ExperiencedMark;
    match ParseHeight(raw.height)
    case Err(e) => Err(e)
    case Ok(height) => Ok(Player(raw.name, guardians, experience, height))
  }

  /** What each field of a normalised player is: the name is kept, the
      flag is set exactly for the text "YES" (case-sensitive), and only the
      height can fail. */
  lemma CleanPlayerFields(raw: RawPlayer)
    ensures CleanPlayer(raw).Ok? <==> ParseHeight(raw.height).Ok?
    ensures CleanPlayer(raw).Err? ==> CleanPlayer(raw).error == ParseHeight(raw.height).error
    ensures CleanPlayer(raw).Ok? ==>
              var p := CleanPlayer(raw).value;
              p.name == raw.name && p.height == ParseHeight(raw.height).value &&
              (p.experience <==> raw.experience == ExperiencedMark)
  {
  }

  /** The guardian list is never empty, joins back to the guardian text,
      and no single name still holds the separator. */
  lemma GuardiansRoundTrip(raw: RawPlayer)
    requires CleanPlayer(raw).Ok?
    ensures var g := CleanPlayer(raw).value.guardians;
      |g| >= 1 && Join(g, GuardianSeparator) == raw.guardians &&
      forall k :: 0 <= k < |g| ==> !Contains(g[k], GuardianSeparator)
  {
    SplitJoin(raw.guardians, GuardianSeparator);
    SplitPartsClean(raw.guardians, GuardianSeparator);
  }

  /** With a first name that holds no separator and does not end in
      " and", no separator starts inside it once " and " and a second name
      follow. */
  lemma NoMatchInsideFirst(a: string, b: string, k: int)
    requires !Contains(a, GuardianSeparator)
    requires !(|a| >= 4 && a[|a| - 4..] == " and")
    requires 0 <= k < |a|
    ensures !OccursAt(a + GuardianSeparator + b, GuardianSeparator, k)
  {
    var sep := GuardianSeparator;
    var s := a + sep + b;
    if k + |sep| <= |a| {
      assert s[k..k + |sep|] == a[k..k + |sep|];
      assert !OccursAt(a, sep, k);
    } else if k + 4 == |a| {
      // the first four characters of a match would be the end of `a`
      assert s[k..k + 4] == a[|a| - 4..] && sep[..4] == " and";
    } else {
      // a match would put one of its letters where the separator's
      // leading space stands
      assert s[|a|] == ' ' && sep[|a| - k] != ' ';
    }
  }

  /** Two guardian names joined by " and " split back into exactly those
      two names, provided neither holds the separator and the first does
      not end in " and" (which would let a match start inside it). */
  lemma SplitTwo(a: string, b: string)
    requires !Contains(a, GuardianSeparator) && !Contains(b, GuardianSeparator)
    requires !(|a| >= 4 && a[|a| - 4..] == " and")
    ensures Split(a + GuardianSeparator + b, GuardianSeparator) == [a, b]
  {
    var sep := GuardianSeparator;
    var s := a + sep + b;
    assert s[|a|..|a| + |sep|] == sep;
    assert OccursAt(s, sep, |a|);
    IndexOfLeftmost(s, sep);
    IndexOfOccurs(s, sep);
    var i := IndexOf(s, sep).value;
    if i < |a| {
      NoMatchInsideFirst(a, b, i);
    }
    assert i == |a|;
    assert s[..i] == a;
    assert s[i + |sep|..] == b;
    SplitWithoutSeparator(b, sep);
  }

  /** Without the condition on the end of the first name the split goes
      wrong: "x and" followed by " and y" splits as "x" and "and y". */
  lemma SplitTwoStraddles()
    ensures Split("x and" + GuardianSeparator + "y", GuardianSeparator) == ["x", "and y"]
  {
    var sep := GuardianSeparator;
    var s := "x and" + sep + "y";
    assert s[..5][0] == 'x';
    assert s[1..][..5] == sep;
    assert IndexOf(s, sep) == Some(1);
    var r := s[6..];
    assert r == "and y";
    assert r[..5][0] == 'a';
    assert IndexOf(r, sep) == None;
    assert Split(r, sep) == [r];
    assert s[..1] == "x";
  }

  /** A record naming two guardians gives a player with exactly those two. */
  lemma TwoGuardians(raw: RawPlayer, a: string, b: string)
    requires raw.guardians == a + GuardianSeparator + b
    requires !Contains(a, GuardianSeparator) && !Contains(b, GuardianSeparator)
    requires !(|a| >= 4 && a[|a| - 4..] == " and")
    requires CleanPlayer(raw).Ok?
    ensures CleanPlayer(raw).value.guardians == [a, b]
  {
    SplitTwo(a, b);
  }

  /** The text the experience flag was read from. */
  function ExperienceText(experienced: bool): string {
    if experienced then ExperiencedMark else "NO"
  }

  /** Writing the flag back as "YES"/"NO" gives the original text, for
      records that use those two values; any other text reads as false. */
  lemma ExperienceRoundTrip(raw: RawPlayer)
    requires CleanPlayer(raw).Ok?
    ensures raw.experience == "YES" || raw.experience == "NO" ==>
              ExperienceText(CleanPlayer(raw).value.experience) == raw.experience
    ensures raw.experience != "YES" ==> !CleanPlayer(raw).value.experience
  {
  }

  // ---------------------------------------------------------------------
  // Normalising the roster
  // ---------------------------------------------------------------------

  /** The players in record order, or the error of the first record that
      fails to normalise. */
  function CleanAll(raw: seq<RawPlayer>): Result<seq<Player>>
    decreases |raw|
  {
    if raw == [] then Ok([])
    else
      match CleanAll(raw[..|raw| - 1])
      case Err(e) => Err(e)
      case Ok(ps) =>
        match CleanPlayer(raw[|raw| - 1])
        case Err(e) => Err(e)
        case Ok(p) => Ok(ps + [p])
  }

  /** A normalised roster has one player per record, in record order. */
  lemma {:induction false} CleanAllInOrder(raw: seq<RawPlayer>, ps: seq<Player>)
    requires CleanAll(raw) == Ok(ps)
    ensures |ps| == |raw|
    ensures forall k :: 0 <= k < |raw| ==> CleanPlayer(raw[k]) == Ok(ps[k])
    decreases |raw|
  {
    if raw != [] {
      var init := raw[..|raw| - 1];
      var ps' := CleanAll(init).value;
      CleanAllInOrder(init, ps');
      assert ps == ps' + [CleanPlayer(raw[|raw| - 1]).value];
      forall k | 0 <= k < |raw| ensures CleanPlayer(raw[k]) == Ok(ps[k]) {
        if k < |init| {
          assert init[k] == raw[k];
        }
      }
    }
  }

  /** Normalising succeeds when every record's height reads as an integer. */
  lemma {:induction false} CleanAllSucceeds(raw: seq<RawPlayer>)
    requires forall k :: 0 <= k < |raw| ==> ParseHeight(raw[k].height).Ok?
    ensures CleanAll(raw).Ok?
    decreases |raw|
  {
    if raw != [] {
      var init := raw[..|raw| - 1];
      assert forall k :: 0 <= k < |init| ==> init[k] == raw[k];
      CleanAllSucceeds(init);
      CleanPlayerFields(raw[|raw| - 1]);
    }
  }

  /** Once the records before `k` are normalised, a failure at `k` is the
      error of the whole roster. */
  lemma {:induction false} FirstFailureDecides(raw: seq<RawPlayer>, k: nat)
    requires k < |raw| && CleanAll(raw[..k]).Ok? && CleanPlayer(raw[k]).Err?
    ensures CleanAll(raw) == Err(CleanPlayer(raw[k]).error)
    decreases |raw|
  {
    var init := raw[..|raw| - 1];
    if k == |raw| - 1 {
      assert init == raw[..k];
    } else {
      assert init[..k] == raw[..k] && init[k] == raw[k];
      FirstFailureDecides(init, k);
    }
  }

  /** `clean_player_list` */
  method CleanPlayerList(raw: seq<RawPlayer>) returns (r: Result<seq<Player>>)
    ensures r == CleanAll(raw)
  {
    var players: seq<Player> := [];
    for k := 0 to |raw|
      invariant CleanAll(raw[..k]) == Ok(players)
    {
      var player := CleanPlayer(raw[k]);
      if player.Err? {
        FirstFailureDecides(raw, k);
        return Err(player.error);
      }
      assert raw[..k + 1][..k] == raw[..k];
      players := players + [player.value];
    }
    assert raw[..|raw|] == raw;
    return Ok(players);
  }

  // ---------------------------------------------------------------------
  // Team skeletons
  // ---------------------------------------------------------------------

  /** `clean_team_list`: one empty team per name, in order. */
  method CleanTeamList(names: seq<string>) returns (teams: seq<Team>)
    ensures |teams| == |names|
    ensures forall k :: 0 <= k < |names| ==> teams[k] == Team(names[k], [])
  {
    teams := [];
    for k := 0 to |names|
      invariant |teams| == k
      invariant forall j :: 0 <= j < k ==> teams[j] == Team(names[j], [])
    {
      teams := teams + [Team(names[k], [])];
    }
  }

  // ---------------------------------------------------------------------
  // Experience partitions
  // ---------------------------------------------------------------------

  /** How often `x` occurs in `s`: the multiplicity of `x` in `multiset(s)`. */
  function Occurrences<T(==)>(x: T, s: seq<T>): nat
    decreases |s|
  {
    if s == [] then 0 else Occurrences(x, s[..|s| - 1]) + (if s[|s| - 1] == x then 1 else 0)
  }

  lemma {:induction false} OccurrencesAppend<T>(x: T, a: seq<T>, b: seq<T>)
    ensures Occurrences(x, a + b) == Occurrences(x, a) + Occurrences(x, b)
    decreases |b|
  {
    if b == [] {
      assert a + b == a;
    } else {
      assert (a + b)[..|a + b| - 1] == a + b[..|b| - 1];
      OccurrencesAppend(x, a, b[..|b| - 1]);
    }
  }

  /** The players whose flag equals `experienced`, in roster order. */
  function Filter(ps: seq<Player>, experienced: bool): (r: seq<Player>)
    ensures |r| <= |ps|
    decreases |ps|
  {
    if ps == [] then []
    else
      var last := ps[|ps| - 1];
      Filter(ps[..|ps| - 1], experienced) + (if last.experience == experienced then [last] else [])
  }

  /** Every player of a partition carries the partition's flag. */
  lemma {:induction false} FilterFlags(ps: seq<Player>, experienced: bool)
    ensures forall k :: 0 <= k < |Filter(ps, experienced)| ==> Filter(ps, experienced)[k].experience == experienced
    decreases |ps|
  {
    if ps != [] {
      FilterFlags(ps[..|ps| - 1], experienced);
    }
  }

  /** Filtering keeps the order: filtering a concatenation concatenates
      the filtered parts. */
  lemma {:induction false} FilterAppend(a: seq<Player>, b: seq<Player>, experienced: bool)
    ensures Filter(a + b, experienced) == Filter(a, experienced) + Filter(b, experienced)
    decreases |b|
  {
    if b == [] {
      assert a + b == a;
    } else {
      assert (a + b)[..|a + b| - 1] == a + b[..|b| - 1];
      FilterAppend(a, b[..|b| - 1], experienced);
    }
  }

  /** The two partitions share out the roster: every player lands in
      exactly one of them, as often as it occurs in the roster. */
  lemma {:induction false} FilterPartition(ps: seq<Player>, x: Player)
    ensures Occurrences(x, Filter(ps, true)) + Occurrences(x, Filter(ps, false)) == Occurrences(x, ps)
    ensures |Filter(ps, true)| + |Filter(ps, false)| == |ps|
    decreases |ps|
  {
    if ps != [] {
      var init, last := ps[..|ps| - 1], ps[|ps| - 1];
      FilterPartition(init, x);
      var extra := [last];
      if last.experience {
        assert Filter(ps, true) == Filter(init, true) + extra;
        assert Filter(ps, false) == Filter(init, false);
        OccurrencesAppend(x, Filter(init, true), extra);
      } else {
        assert Filter(ps, true) == Filter(init, true);
        assert Filter(ps, false) == Filter(init, false) + extra;
        OccurrencesAppend(x, Filter(init, false), extra);
      }
    }
  }

  // ---------------------------------------------------------------------
  // Dealing players out
  // ---------------------------------------------------------------------

  /** Rounds a team needs: each round adds two players, and rounds go on
      while the team is below the quota. */
  function PairsPerTeam(quota: nat): (m: nat)
    ensures 2 * m >= quota
    ensures m == 0 || 2 * (m - 1) < quota
  {
    (quota + 1) / 2
  }

  /** Rounds per team when `count` players are shared among `teamCount`
      teams: the quota is `count // teamCount`. */
  function RoundsPerTeam(count: nat, teamCount: nat): nat
    requires teamCount > 0
  {
    PairsPerTeam(count / teamCount)
  }

  /** What `count` rounds deal to a team when `base` rounds came before it:
      round `k` pops the last remaining element of `e`, then the last
      remaining element of `i`. */
  function Picks<T>(e: seq<T>, i: seq<T>, base: nat, count: nat): (r: seq<T>)
    requires base + count <= |e| && base + count <= |i|
    ensures |r| == 2 * count
    decreases count
  {
    if count == 0 then []
    else
      var k := base + count - 1;
      Picks(e, i, base, count - 1) + [e[|e| - 1 - k], i[|i| - 1 - k]]
  }

  /** Even positions hold picks from `e`, odd positions picks from `i`,
      both counted from the tails. */
  lemma {:induction false} PicksAt<T>(e: seq<T>, i: seq<T>, base: nat, count: nat, j: nat)
    requires base + count <= |e| && base + count <= |i|
    requires j < 2 * count
    ensures Picks(e, i, base, count)[j] ==
              if j % 2 == 0 then e[|e| - 1 - (base + j / 2)] else i[|i| - 1 - (base + j / 2)]
    decreases count
  {
    if j < 2 * (count - 1) {
      PicksAt(e, i, base, count - 1, j);
    }
  }

  /** Dealing `c1` rounds and then `c2` more is dealing `c1 + c2` rounds. */
  lemma {:induction false} PicksSplit<T>(e: seq<T>, i: seq<T>, base: nat, c1: nat, c2: nat)
    requires base + c1 + c2 <= |e| && base + c1 + c2 <= |i|
    ensures Picks(e, i, base, c1 + c2) == Picks(e, i, base, c1) + Picks(e, i, base + c1, c2)
    decreases c2
  {
    if c2 > 0 {
      PicksSplit(e, i, base, c1, c2 - 1);
    }
  }

  /** Dealing from what `base` earlier rounds left over is dealing from the
      full partitions after those rounds. */
  lemma {:induction false} PicksShift<T>(e: seq<T>, i: seq<T>, base: nat, count: nat)
    requires base + count <= |e| && base + count <= |i|
    ensures Picks(e[..|e| - base], i[..|i| - base], 0, count) == Picks(e, i, base, count)
    decreases count
  {
    if count > 0 {
      PicksShift(e, i, base, count - 1);
    }
  }

  /** The first `n` rounds use exactly the last `n` elements of each partition. */
  lemma {:induction false} PicksOccurrences<T>(e: seq<T>, i: seq<T>, n: nat, x: T)
    requires n <= |e| && n <= |i|
    ensures Occurrences(x, Picks(e, i, 0, n)) == Occurrences(x, e[|e| - n..]) + Occurrences(x, i[|i| - n..])
    decreases n
  {
    if n > 0 {
      var a, b := |e| - n, |i| - n;
      var prev := Picks(e, i, 0, n - 1);
      PicksOccurrences(e, i, n - 1, x);
      assert Picks(e, i, 0, n) == prev + [e[a], i[b]];
      OccurrencesAppend(x, prev, [e[a], i[b]]);
      assert [e[a], i[b]] == [e[a]] + [i[b]];
      OccurrencesAppend(x, [e[a]], [i[b]]);
      assert e[a..] == [e[a]] + e[a + 1..];
      assert i[b..] == [i[b]] + i[b + 1..];
      OccurrencesAppend(x, [e[a]], e[a + 1..]);
      OccurrencesAppend(x, [i[b]], i[b + 1..]);
    }
  }

  /** One round adds one player to each partition of the team. */
  lemma FilterRound(x: Player, y: Player)
    requires x.experience && !y.experience
    ensures Filter([x, y], true) == [x] && Filter([x, y], false) == [y]
  {
    assert [x, y][..1] == [x];
    assert [x][..0] == [];
  }

  /** With experienced players in `e` and inexperienced ones in `i`, a team's
      picks hold `count` players of each kind. */
  lemma {:induction false} PicksBalanced(e: seq<Player>, i: seq<Player>, base: nat, count: nat)
    requires base + count <= |e| && base + count <= |i|
    requires forall k :: 0 <= k < |e| ==> e[k].experience
    requires forall k :: 0 <= k < |i| ==> !i[k].experience
    ensures |Filter(Picks(e, i, base, count), true)| == count
    ensures |Filter(Picks(e, i, base, count), false)| == count
    decreases count
  {
    if count > 0 {
      var k := base + count - 1;
      var x, y := e[|e| - 1 - k], i[|i| - 1 - k];
      var prev := Picks(e, i, base, count - 1);
      PicksBalanced(e, i, base, count - 1);
      assert Picks(e, i, base, count) == prev + [x, y];
      FilterAppend(prev, [x, y], true);
      FilterAppend(prev, [x, y], false);
      FilterRound(x, y);
    }
  }

  lemma MulMonotone(a: nat, b: nat, m: nat)
    requires a <= b
    ensures a * m <= b * m
  {
  }

  /** Team `t` of `count` teams takes rounds `t * m` up to `t * m + m`,
      within the `count * m` rounds dealt in all. */
  lemma NextBlock(t: nat, m: nat, count: nat)
    requires t < count
    ensures (t + 1) * m == t * m + m <= count * m
  {
    MulMonotone(t + 1, count, m);
  }

  /** The teams after dealing: team `t` gets rounds `t * m` to `t * m + m - 1`. */
  function Assignment(e: seq<Player>, i: seq<Player>, names: seq<string>, m: nat): (r: seq<Team>)
    requires |names| * m <= |e| && |names| * m <= |i|
    ensures |r| == |names|
    decreases |names|
  {
    if names == [] then []
    else
      var t := |names| - 1;
      MulMonotone(t, |names|, m);
      Assignment(e, i, names[..t], m) + [Team(names[t], Picks(e, i, t * m, m))]
  }

  lemma {:induction false} AssignmentAt(e: seq<Player>, i: seq<Player>, names: seq<string>, m: nat, t: nat)
    requires |names| * m <= |e| && |names| * m <= |i|
    requires t < |names|
    ensures t * m + m <= |e| && t * m + m <= |i|
    ensures Assignment(e, i, names, m)[t] == Team(names[t], Picks(e, i, t * m, m))
    decreases |names|
  {
    MulMonotone(t + 1, |names|, m);
    if t < |names| - 1 {
      MulMonotone(|names| - 1, |names|, m);
      AssignmentAt(e, i, names[..|names| - 1], m, t);
    }
  }

  /** Team `t` is dealt `m` rounds after the `base` rounds of the teams
      before it. */
  lemma AssignedTeam(e: seq<Player>, i: seq<Player>, names: seq<string>, m: nat, t: nat) returns (base: nat)
    requires |names| * m <= |e| && |names| * m <= |i| && t < |names|
    ensures base == t * m && base + m <= |e| && base + m <= |i|
    ensures Assignment(e, i, names, m)[t] == Team(names[t], Picks(e, i, base, m))
  {
    AssignmentAt(e, i, names, m, t);
    base := t * m;
  }

  /** Finishing team `t` extends the assignment of the teams before it. */
  lemma AssignmentSnoc(e: seq<Player>, i: seq<Player>, names: seq<string>, m: nat, t: nat)
    requires t < |names| && t * m + m <= |e| && t * m + m <= |i|
    ensures (t + 1) * m == t * m + m
    ensures |names[..t + 1]| * m <= |e| && |names[..t + 1]| * m <= |i|
    ensures Assignment(e, i, names[..t + 1], m) ==
              Assignment(e, i, names[..t], m) + [Team(names[t], Picks(e, i, t * m, m))]
  {
    assert (t + 1) * m == t * m + m;
    assert names[..t + 1][..t] == names[..t];
  }

  /** One pass of the `for team in teams` loop: team `t`, filled from what
      the earlier teams left, extends the assignment by one team, and the
      partitions lose `m` more elements. */
  lemma DealStep(e: seq<Player>, i: seq<Player>, names: seq<string>, m: nat, t: nat, taken: nat,
                 dealt: seq<Team>, eLeft: seq<Player>, iLeft: seq<Player>, players: seq<Player>)
    requires t < |dealt| == |names| && taken == t * m && taken <= |e| && taken <= |i|
    requires dealt[..t] == Assignment(e, i, names[..t], m) && dealt[t].name == names[t]
    requires eLeft == e[..|e| - taken] && iLeft == i[..|i| - taken] && m <= |eLeft| && m <= |iLeft|
    requires players == Picks(eLeft, iLeft, 0, m)
    ensures taken + m == (t + 1) * m
    ensures |names[..t + 1]| * m <= |e| && |names[..t + 1]| * m <= |i|
    ensures dealt[t := Team(dealt[t].name, players)][..t + 1] == Assignment(e, i, names[..t + 1], m)
    ensures e[..|e| - taken][..|e| - taken - m] == e[..|e| - (taken + m)]
    ensures i[..|i| - taken][..|i| - taken - m] == i[..|i| - (taken + m)]
  {
    PicksShift(e, i, taken, m);
    AssignmentSnoc(e, i, names, m, t);
    UpdateExtends(dealt, t, Team(dealt[t].name, players));
    DropMore(e, taken, m);
    DropMore(i, taken, m);
  }

  /** Replacing element `t` and keeping what precedes it. */
  lemma UpdateExtends<T>(s: seq<T>, t: nat, x: T)
    requires t < |s|
    ensures s[t := x][..t + 1] == s[..t] + [x]
  {
  }

  /** Popping `m` more elements from what `taken` pops left. */
  lemma DropMore<T>(s: seq<T>, taken: nat, m: nat)
    requires taken + m <= |s|
    ensures s[..|s| - taken][..|s| - taken - m] == s[..|s| - (taken + m)]
  {
  }

  /** The players of all teams, in team order. */
  function Members(teams: seq<Team>): seq<Player>
    decreases |teams|
  {
    if teams == [] then [] else Members(teams[..|teams| - 1]) + teams[|teams| - 1].players
  }

  /** All teams together hold exactly the first `|names| * m` rounds. */
  lemma {:induction false} AssignmentMembers(e: seq<Player>, i: seq<Player>, names: seq<string>, m: nat)
    requires |names| * m <= |e| && |names| * m <= |i|
    ensures Members(Assignment(e, i, names, m)) == Picks(e, i, 0, |names| * m)
    decreases |names|
  {
    if names != [] {
      var t := |names| - 1;
      MulMonotone(t, |names|, m);
      var a := Assignment(e, i, names, m);
      assert a[..t] == Assignment(e, i, names[..t], m);
      AssignmentMembers(e, i, names[..t], m);
      PicksSplit(e, i, 0, t * m, m);
      assert (t + 1) * m == t * m + m;
    }
  }

  /** The dealing half of `populate_teams`, stated as a value: `count`
      players, split into the experienced `e` and the inexperienced `i`, are
      dealt out team by team; a partition that runs dry before every team
      reaches the quota raises. With no teams the loop body, and with it
      the division, never runs. */
  function Deal(e: seq<Player>, i: seq<Player>, names: seq<string>, count: nat): Result<seq<Team>> {
    if names == [] then Ok([])
    else
      var m := RoundsPerTeam(count, |names|);
      if |e| < |names| * m || |i| < |names| * m then Err(PopFromEmpty)
      else Ok(Assignment(e, i, names, m))
  }

  /** `populate_teams` as a whole: a normalisation error propagates,
      otherwise the normalised roster is split by experience and dealt. */
  function Populated(raw: seq<RawPlayer>, names: seq<string>): Result<seq<Team>> {
    match CleanAll(raw)
    case Err(e) => Err(e)
    case Ok(ps) => Deal(Filter(ps, true), Filter(ps, false), names, |ps|)
  }

  /** The names of `teams`, in order. */
  function TeamNames(teams: seq<Team>): (r: seq<string>)
    ensures |r| == |teams|
  {
    seq(|teams|, k requires 0 <= k < |teams| => teams[k].name)
  }

  /** The dealing keeps the team names in order and gives every team the
      quota rounded up to an even number of players. */
  lemma DealShape(e: seq<Player>, i: seq<Player>, names: seq<string>, count: nat, teams: seq<Team>)
    requires Deal(e, i, names, count) == Ok(teams)
    ensures |teams| == |names|
    ensures forall t :: 0 <= t < |teams| ==> teams[t].name == names[t]
    ensures forall t :: 0 <= t < |teams| ==>
              |teams[t].players| == count / |names| + (count / |names|) % 2
  {
    if names != [] {
      var m := RoundsPerTeam(count, |names|);
      forall t | 0 <= t < |teams|
        ensures teams[t].name == names[t] && |teams[t].players| == 2 * m
      {
        AssignmentAt(e, i, names, m, t);
      }
    }
  }

  /** Where each player of a team comes from: position `j` of team `t`
      holds the element popped in round `t * m + j / 2`, from the tail of `e`
      at even positions and of `i` at odd ones. */
  lemma AssignedOrder(e: seq<Player>, i: seq<Player>, names: seq<string>, m: nat, t: nat, j: nat)
    requires |names| * m <= |e| && |names| * m <= |i|
    requires t < |names| && j < 2 * m
    ensures t * m + j / 2 < |e| && t * m + j / 2 < |i|
    ensures |Assignment(e, i, names, m)[t].players| == 2 * m
    ensures Assignment(e, i, names, m)[t].players[j] ==
              if j % 2 == 0 then e[|e| - 1 - (t * m + j / 2)] else i[|i| - 1 - (t * m + j / 2)]
  {
    AssignmentAt(e, i, names, m, t);
    PicksAt(e, i, t * m, m, j);
  }

  /** With `e` experienced and `i` inexperienced, picks alternate between
      the two kinds, starting with an experienced player. */
  lemma PicksAlternate(e: seq<Player>, i: seq<Player>, base: nat, count: nat)
    requires base + count <= |e| && base + count <= |i|
    requires forall k :: 0 <= k < |e| ==> e[k].experience
    requires forall k :: 0 <= k < |i| ==> !i[k].experience
    ensures forall j :: 0 <= j < 2 * count ==> (Picks(e, i, base, count)[j].experience <==> j % 2 == 0)
  {
    forall j | 0 <= j < 2 * count
      ensures Picks(e, i, base, count)[j].experience <==> j % 2 == 0
    {
      PicksAt(e, i, base, count, j);
    }
  }

  /** With `e` experienced and `i` inexperienced, every team alternates
      experienced and inexperienced players and holds `m` of each. */
  lemma AssignedAlternates(e: seq<Player>, i: seq<Player>, names: seq<string>, m: nat, t: nat)
    requires forall k :: 0 <= k < |e| ==> e[k].experience
    requires forall k :: 0 <= k < |i| ==> !i[k].experience
    requires |names| * m <= |e| && |names| * m <= |i| && t < |names|
    ensures var players := Assignment(e, i, names, m)[t].players;
              forall j :: 0 <= j < |players| ==> (players[j].experience <==> j % 2 == 0)
    ensures var players := Assignment(e, i, names, m)[t].players;
              |Filter(players, true)| == m && |Filter(players, false)| == m
  {
    var base := AssignedTeam(e, i, names, m, t);
    PicksAlternate(e, i, base, m);
    PicksBalanced(e, i, base, m);
  }

  lemma OccurrencesSuffix<T>(x: T, s: seq<T>, k: nat)
    requires k <= |s|
    ensures Occurrences(x, s[k..]) <= Occurrences(x, s)
  {
    assert s == s[..k] + s[k..];
    OccurrencesAppend(x, s[..k], s[k..]);
  }

  /** No player is dealt more often than the partitions hold it. */
  lemma AssignedFromPartitions(e: seq<Player>, i: seq<Player>, names: seq<string>, m: nat, x: Player)
    requires |names| * m <= |e| && |names| * m <= |i|
    ensures Occurrences(x, Members(Assignment(e, i, names, m))) <= Occurrences(x, e) + Occurrences(x, i)
  {
    AssignmentMembers(e, i, names, m);
    PicksFromPartitions(e, i, |names| * m, x);
  }

  /** No element is picked more often than the two lists hold it. */
  lemma PicksFromPartitions<T>(e: seq<T>, i: seq<T>, n: nat, x: T)
    requires n <= |e| && n <= |i|
    ensures Occurrences(x, Picks(e, i, 0, n)) <= Occurrences(x, e) + Occurrences(x, i)
  {
    PicksOccurrences(e, i, n, x);
    OccurrencesSuffix(x, e, |e| - n);
    OccurrencesSuffix(x, i, |i| - n);
  }

  /** When the quota is even and each partition holds at least half the
      players, no pop ever hits an empty partition. */
  lemma DealSucceedsWhenQuotaEven(e: seq<Player>, i: seq<Player>, names: seq<string>, count: nat)
    requires names != [] && (count / |names|) % 2 == 0
    requires |e| >= count / 2 && |i| >= count / 2
    ensures Deal(e, i, names, count).Ok?
  {
    var q := count / |names|;
    var m := PairsPerTeam(q);
    assert 2 * m == q;
    assert |names| * q <= count;
    assert 2 * (|names| * m) == |names| * q;
  }

  /** With an odd quota the rounds overshoot it, so even a balanced roster
      can run dry: three experienced and three inexperienced players over
      two teams give a quota of 3, two rounds per team, and four pops from
      each partition. */
  lemma DealOddQuotaRunsDry(p: Player, u: Player)
    ensures Deal([p, p, p], [u, u, u], ["A", "B"], 6) == Err(PopFromEmpty)
  {
    assert PairsPerTeam(6 / 2) == 2;
  }

  /** The same from raw records: six records alternating "YES" and "NO",
      each with a readable height, normalise without error, split into
      three and three, and still pop from an empty list over two teams. */
  lemma PopulatedOddQuotaRunsDry(y: RawPlayer, n: RawPlayer)
    requires y.experience == "YES" && n.experience == "NO"
    requires ParseHeight(y.height).Ok? && ParseHeight(n.height).Ok?
    ensures CleanAll([y, n, y, n, y, n]).Ok?
    ensures |Filter(CleanAll([y, n, y, n, y, n]).value, true)| == 3
    ensures |Filter(CleanAll([y, n, y, n, y, n]).value, false)| == 3
    ensures Populated([y, n, y, n, y, n], ["A", "B"]) == Err(PopFromEmpty)
  {
    var raw := [y, n, y, n, y, n];
    var p, u := CleanPlayer(y).value, CleanPlayer(n).value;
    var ps := [p, u, p, u, p, u];
    CleanAllSucceeds(raw);
    CleanAllInOrder(raw, CleanAll(raw).value);
    assert CleanAll(raw).value == ps;
    assert p.experience && !u.experience;
    var pair := [p, u];
    assert ps == pair + (pair + pair);
    FilterRound(p, u);
    FilterAppend(pair, pair, true);
    FilterAppend(pair, pair + pair, true);
    FilterAppend(pair, pair, false);
    FilterAppend(pair, pair + pair, false);
    DealOddQuotaRunsDry(p, u);
  }

  /** With no team names there is nothing to deal: a successful run
      returns no teams. */
  lemma PopulatedHasNames(raw: seq<RawPlayer>, names: seq<string>, teams: seq<Team>)
    requires Populated(raw, names) == Ok(teams)
    ensures names == [] <==> teams == []
  {
    if names != [] {
      PopulatedAssigned(raw, names, teams);
    }
  }

  /** With fewer normalised players than team names the quota
      `len(player_list) // len(teams)` is 0, so the while loop never pops:
      `populate_teams` succeeds and every team stays empty. */
  lemma PopulatedMoreTeamsThanPlayers(raw: seq<RawPlayer>, names: seq<string>)
    requires CleanAll(raw).Ok? && |CleanAll(raw).value| < |names|
    ensures Populated(raw, names).Ok?
    ensures var teams := Populated(raw, names).value;
              |teams| == |names| &&
              forall t :: 0 <= t < |teams| ==> teams[t] == Team(names[t], [])
  {
    var ps := CleanAll(raw).value;
    DealNoRounds(Filter(ps, true), Filter(ps, false), names, |ps|);
  }

  /** A count below the number of teams gives a quota of 0: no round is
      dealt and every team keeps its name and no players. */
  lemma DealNoRounds(e: seq<Player>, i: seq<Player>, names: seq<string>, count: nat)
    requires count < |names|
    ensures Deal(e, i, names, count).Ok?
    ensures var teams := Deal(e, i, names, count).value;
              |teams| == |names| &&
              forall t :: 0 <= t < |teams| ==> teams[t] == Team(names[t], [])
  {
    assert count / |names| == 0;
    assert RoundsPerTeam(count, |names|) == 0;
    forall t | 0 <= t < |names|
      ensures Assignment(e, i, names, 0)[t] == Team(names[t], [])
    {
      AssignmentAt(e, i, names, 0, t);
    }
  }

  /** A successful `populate_teams` over at least one team is the
      assignment of the two partitions of the normalised roster. */
  lemma PopulatedAssigned(raw: seq<RawPlayer>, names: seq<string>, teams: seq<Team>)
    requires Populated(raw, names) == Ok(teams) && names != []
    ensures CleanAll(raw).Ok?
    ensures var ps := CleanAll(raw).value;
            var m := RoundsPerTeam(|ps|, |names|);
              |names| * m <= |Filter(ps, true)| && |names| * m <= |Filter(ps, false)| &&
              teams == Assignment(Filter(ps, true), Filter(ps, false), names, m)
  {
  }

  /** The guarantees of `populate_teams` on a successful run: one team per
      name in order, each holding the quota rounded up to an even number of
      players. */
  lemma PopulatedTeams(raw: seq<RawPlayer>, names: seq<string>, teams: seq<Team>)
    requires Populated(raw, names) == Ok(teams)
    ensures CleanAll(raw).Ok?
    ensures |teams| == |names|
    ensures forall t :: 0 <= t < |teams| ==> teams[t].name == names[t]
    ensures forall t :: 0 <= t < |teams| ==>
              |teams[t].players| == |CleanAll(raw).value| / |names| + (|CleanAll(raw).value| / |names|) % 2
  {
    var ps := CleanAll(raw).value;
    DealShape(Filter(ps, true), Filter(ps, false), names, |ps|, teams);
  }

  /** `populate_teams` pops from the tails: the teams, concatenated in
      order, are exactly the first `n` rounds of pops from the two
      partitions (`PicksAt` says which element each position holds). */
  lemma PopulatedOrder(raw: seq<RawPlayer>, names: seq<string>, teams: seq<Team>)
    requires Populated(raw, names) == Ok(teams)
    ensures CleanAll(raw).Ok?
    ensures var ps := CleanAll(raw).value;
            var e, i := Filter(ps, true), Filter(ps, false);
            var n := |Members(teams)| / 2;
              n <= |e| && n <= |i| && Members(teams) == Picks(e, i, 0, n)
  {
    PopulatedHasNames(raw, names, teams);
    var ps := CleanAll(raw).value;
    if names == [] {
      assert Members(teams) == [];
    } else {
      PopulatedAssigned(raw, names, teams);
      var e, i, m := Filter(ps, true), Filter(ps, false), RoundsPerTeam(|ps|, |names|);
      AssignmentMembers(e, i, names, m);
      assert Members(teams) == Picks(e, i, 0, |names| * m);
      assert |Members(teams)| / 2 == |names| * m;
    }
  }

  /** Every team alternates: experienced players at even positions,
      inexperienced ones at odd positions, as many of one kind as of the
      other. */
  lemma PopulatedAlternates(raw: seq<RawPlayer>, names: seq<string>, teams: seq<Team>, t: nat)
    requires Populated(raw, names) == Ok(teams) && t < |teams|
    ensures forall j :: 0 <= j < |teams[t].players| ==> (teams[t].players[j].experience <==> j % 2 == 0)
    ensures |Filter(teams[t].players, true)| == |Filter(teams[t].players, false)|
  {
    PopulatedAssigned(raw, names, teams);
    var ps := CleanAll(raw).value;
    FilterFlags(ps, true);
    FilterFlags(ps, false);
    AssignedAlternates(Filter(ps, true), Filter(ps, false), names, RoundsPerTeam(|ps|, |names|), t);
  }

  /** Every dealt player comes from the normalised roster, and no player
      is dealt more often than the roster holds them. */
  lemma PopulatedFromRoster(raw: seq<RawPlayer>, names: seq<string>, teams: seq<Team>, x: Player)
    requires Populated(raw, names) == Ok(teams)
    ensures CleanAll(raw).Ok?
    ensures Occurrences(x, Members(teams)) <= Occurrences(x, CleanAll(raw).value)
  {
    var ps := CleanAll(raw).value;
    if names == [] {
      assert Members(teams) == [];
    } else {
      PopulatedAssigned(raw, names, teams);
      AssignedFromPartitions(Filter(ps, true), Filter(ps, false), names, RoundsPerTeam(|ps|, |names|), x);
      FilterPartition(ps, x);
    }
  }

  /** A balanced roster whose quota is even is always dealt in full. */
  lemma PopulatedSucceeds(raw: seq<RawPlayer>, names: seq<string>)
    requires CleanAll(raw).Ok?
    requires |Filter(CleanAll(raw).value, true)| == |Filter(CleanAll(raw).value, false)|
    requires names != [] ==> (|CleanAll(raw).value| / |names|) % 2 == 0
    ensures Populated(raw, names).Ok?
  {
    var ps := CleanAll(raw).value;
    FilterPartition(ps, Player([], [], false, 0));
    if names != [] {
      DealSucceedsWhenQuotaEven(Filter(ps, true), Filter(ps, false), names, |ps|);
    }
  }

  /** A pop that hits an empty partition while filling team `t` means the
      partitions cannot cover all teams. */
  lemma DealRunsDry(e: seq<Player>, i: seq<Player>, names: seq<string>, count: nat, t: nat, taken: nat)
    requires t < |names| && taken == t * RoundsPerTeam(count, |names|) && taken <= |e| && taken <= |i|
    requires |e| - taken < RoundsPerTeam(count, |names|) || |i| - taken < RoundsPerTeam(count, |names|)
    ensures Deal(e, i, names, count) == Err(PopFromEmpty)
  {
    NextBlock(t, RoundsPerTeam(count, |names|), |names|);
  }

  /** Once every team is filled, the teams are the dealing's result. */
  lemma DealFinished(e: seq<Player>, i: seq<Player>, names: seq<string>, count: nat, taken: nat, dealt: seq<Team>)
    requires names == [] ==> dealt == []
    requires names != [] ==>
               var m := RoundsPerTeam(count, |names|);
               taken == |names| * m && taken <= |e| && taken <= |i| && dealt == Assignment(e, i, names, m)
    ensures Deal(e, i, names, count) == Ok(dealt)
  {
  }

  /** The inner `while` loop of `populate_teams`, filling one (initially
      empty) team: pop the last experienced player, then the last
      inexperienced one, until the team reaches the quota. Returns the team,
      what is left of both partitions, and false where a pop hits an empty
      list. */
  method FillTeam(experienced: seq<Player>, inexperienced: seq<Player>, quota: nat)
    returns (players: seq<Player>, experiencedLeft: seq<Player>, inexperiencedLeft: seq<Player>, ok: bool)
    ensures ok <==> PairsPerTeam(quota) <= |experienced| && PairsPerTeam(quota) <= |inexperienced|
    ensures ok ==> players == Picks(experienced, inexperienced, 0, PairsPerTeam(quota))
    ensures ok ==> experiencedLeft == experienced[..|experienced| - PairsPerTeam(quota)]
    ensures ok ==> inexperiencedLeft == inexperienced[..|inexperienced| - PairsPerTeam(quota)]
  {
    ghost var m := PairsPerTeam(quota);
    players, experiencedLeft, inexperiencedLeft := [], experienced, inexperienced;
    ghost var j := 0;
    while |players| < quota
      invariant j <= m && |players| == 2 * j
      invariant j <= |experienced| && j <= |inexperienced|
      invariant experiencedLeft == experienced[..|experienced| - j]
      invariant inexperiencedLeft == inexperienced[..|inexperienced| - j]
      invariant players == Picks(experienced, inexperienced, 0, j)
    {
      if experiencedLeft == [] {
        return players, experiencedLeft, inexperiencedLeft, false;
      }
      var x := experiencedLeft[|experiencedLeft| - 1];
      experiencedLeft := experiencedLeft[..|experiencedLeft| - 1];
      players := players + [x];
      if inexperiencedLeft == [] {
        return players, experiencedLeft, inexperiencedLeft, false;
      }
      var y := inexperiencedLeft[|inexperiencedLeft| - 1];
      inexperiencedLeft := inexperiencedLeft[..|inexperiencedLeft| - 1];
      players := players + [y];
      j := j + 1;
    }
    return players, experiencedLeft, inexperiencedLeft, true;
  }

  /** The state of the team loop before team `t`: `taken` rounds of `m`
      pops have emptied the tails of both partitions, the first `t` teams
      hold their rounds, and the other teams are still empty. */
  predicate Dealing(e: seq<Player>, i: seq<Player>, names: seq<string>, m: nat, t: nat, taken: nat,
                    experienced: seq<Player>, inexperienced: seq<Player>, dealt: seq<Team>)
  {
    t <= |dealt| == |names| && taken == t * m && taken <= |e| && taken <= |i| &&
    experienced == e[..|e| - taken] && inexperienced == i[..|i| - taken] &&
    dealt[..t] == Assignment(e, i, names[..t], m) &&
    forall k :: t <= k < |dealt| ==> dealt[k] == Team(names[k], [])
  }

  /** One pass of the team loop: fill team `t` from the partitions, or
      report that a pop found a partition empty. */
  method DealTeam(ghost e: seq<Player>, ghost i: seq<Player>, ghost names: seq<string>, playerCount: nat,
                  t: nat, ghost taken: nat, dealt: seq<Team>, experienced: seq<Player>, inexperienced: seq<Player>)
    returns (next: seq<Team>, experiencedLeft: seq<Player>, inexperiencedLeft: seq<Player>, ok: bool)
    requires t < |dealt|
    requires Dealing(e, i, names, RoundsPerTeam(playerCount, |dealt|), t, taken, experienced, inexperienced, dealt)
    ensures !ok ==> Deal(e, i, names, playerCount) == Err(PopFromEmpty)
    ensures ok ==> Dealing(e, i, names, RoundsPerTeam(playerCount, |dealt|), t + 1,
                           taken + RoundsPerTeam(playerCount, |dealt|), experiencedLeft, inexperiencedLeft, next)
  {
    var quota := playerCount / |dealt|;
    ghost var m := RoundsPerTeam(playerCount, |dealt|);
    var players;
    players, experiencedLeft, inexperiencedLeft, ok := FillTeam(experienced, inexperienced, quota);
    if !ok {
      DealRunsDry(e, i, names, playerCount, t, taken);
      return dealt, experiencedLeft, inexperiencedLeft, ok;
    }
    DealStep(e, i, names, m, t, taken, dealt, experienced, inexperienced, players);
    next := dealt[t := Team(dealt[t].name, players)];
  }

  /** The `for team in teams` loop of `populate_teams`: fill each (still
      empty) team in turn from the partitions' tails, with the quota
      `playerCount // len(teams)` computed inside the loop. */
  method DealOut(teams: seq<Team>, e: seq<Player>, i: seq<Player>, playerCount: nat)
    returns (r: Result<seq<Team>>)
    requires forall k :: 0 <= k < |teams| ==> teams[k].players == []
    ensures r == Deal(e, i, TeamNames(teams), playerCount)
  {
    ghost var names := TeamNames(teams);
    var experienced, inexperienced := e, i;
    ghost var m := if teams == [] then 0 else RoundsPerTeam(playerCount, |teams|);
    ghost var taken: nat := 0;
    var dealt := teams;
    var t := 0;
    while t < |dealt|
      invariant Dealing(e, i, names, m, t, taken, experienced, inexperienced, dealt)
    {
      var ok;
      dealt, experienced, inexperienced, ok :=
        DealTeam(e, i, names, playerCount, t, taken, dealt, experienced, inexperienced);
      if !ok {
        return Err(PopFromEmpty);
      }
      t, taken := t + 1, taken + m;
    }
    assert names[..t] == names;
    DealFinished(e, i, names, playerCount, taken, dealt);
    return Ok(dealt);
  }


  /** `populate_teams`: normalise the roster, build the skeletons, split the
      roster by experience and deal it out. */
  method PopulateTeams(raw: seq<RawPlayer>, names: seq<string>) returns (r: Result<seq<Team>>)
    ensures r == Populated(raw, names)
  {
    var cleaned := CleanPlayerList(raw);
    if cleaned.Err? {
      return Err(cleaned.error);
    }
    var playerList := cleaned.value;
    var teams := CleanTeamList(names);
    assert TeamNames(teams) == names;
    var experienced := Filter(playerList, true);
    var inexperienced := Filter(playerList, false);
    r := DealOut(teams, experienced, inexperienced, |playerList|);
  }
}
