/** The menu loop of the stats tool: each line the user types is read as
    quit, a team number, or something to complain about; choosing a team
    shows its report and waits for one more line before the menu returns.
    The lines typed are a parameter; what is printed is a list of outcomes. */
module Menu {
  import opened Text
  import opened Roster
  import opened Stats

  /** `str.lower` on ASCII letters. */
  function LowerChar(c: char): char {
    if 'A' <= c <= 'Z' then (c as int + 32) as char else c
  }

  function Lower(s: string): (r: string)
    ensures |r| == |s|
  {
    seq(|s|, k requires 0 <= k < |s| => LowerChar(s[k]))
  }

  /** How one typed line is read, for a menu of `teamCount` teams. */
  datatype Choice =
    | Quit                     // the line is "q" in either case
    | Show(index: nat)         // the line is a number from 1 to teamCount; `index` counts from 0
    | NotANumber               // `int(choice)` raises ValueError
    | OutOfRange(number: int)  // a number outside 1..teamCount

  function Classify(input: string, teamCount: nat): (r: Choice)
    ensures r.Show? ==> r.index < teamCount
  {
    if Lower(input) == "q" then Quit
    else
      match ParseInt(input)
      case None => NotANumber
      case Some(n) => if 1 <= n <= teamCount then Show(n - 1) else OutOfRange(n)
  }

  /** Neither spelling of quit reads as a number. */
  lemma QuitIsNotANumber()
    ensures ParseInt("q") == None && ParseInt("Q") == None
  {
    StripUnpadded("q");
    StripUnpadded("Q");
  }

  /** What each reading means: quit is exactly "q" or "Q"; a shown team is
      the one whose 1-based number the line holds; a number outside the
      menu is reported as such; and everything else is not a number. */
  lemma ClassifyCases(input: string, teamCount: nat)
    ensures Classify(input, teamCount) == Quit <==> input == "q" || input == "Q"
    ensures Classify(input, teamCount).Show? ==>
              ParseInt(input) == Some(Classify(input, teamCount).index + 1)
    ensures Classify(input, teamCount).OutOfRange? ==>
              var n := Classify(input, teamCount).number;
              ParseInt(input) == Some(n) && (n < 1 || n > teamCount)
    ensures Classify(input, teamCount) == NotANumber <==>
              input != "q" && input != "Q" && ParseInt(input) == None
  {
    QuitIsNotANumber();
    if Lower(input) == "q" {
      assert |input| == 1 && LowerChar(input[0]) == 'q';
      assert input == [input[0]];
    }
    if input == "q" || input == "Q" {
      assert Lower(input) == [LowerChar(input[0])];
    }
  }

  /** A team number, with whitespace `int()` skips around it, selects that
      team when it is on the menu and is reported out of range otherwise. */
  lemma ClassifyNumber(pre: string, k: int, post: string, teamCount: nat)
    requires forall j :: 0 <= j < |pre| ==> IsIntSpace(pre[j])
    requires forall j :: 0 <= j < |post| ==> IsIntSpace(post[j])
    ensures Classify(pre + IntToString(k) + post, teamCount) ==
              if 1 <= k <= teamCount then Show(k - 1) else OutOfRange(k)
  {
    var s := IntToString(k);
    ParseIntPadded(pre, s, post);
    ParseIntRoundTrip(k);
    ClassifyCases(pre + s + post, teamCount);
    QuitIsNotANumber();
  }

  /** A digit behind one of the separators 0x1C-0x1F is not a number to
      `int()`, although `split()` would treat the separator as whitespace. */
  lemma ClassifySeparator(d: char, teamCount: nat)
    requires IsDigit(d)
    ensures Classify([28 as char, d], teamCount) == NotANumber
  {
    SeparatorSplitsButDoesNotParse(d);
    assert Lower([28 as char, d])[0] != 'q';
  }

  /** An empty line and a word are not numbers. */
  lemma ClassifyWords(teamCount: nat)
    ensures Classify("", teamCount) == NotANumber
    ensures Classify("abc", teamCount) == NotANumber
  {
    StripUnpadded("abc");
    assert Lower("abc") != "q";
  }

  /** What the menu loop shows, one entry per message. */
  datatype Outcome =
    | Goodbye
    | NotANumberMessage
    | OutOfRangeMessage(number: int)
    | Shown(stats: TeamStats)
    | Raised(error: Error)

  /** The menu loop on the lines `inputs`, from line `pos` on: it stops at
      quit or at the first exception; after a report it reads one more line
      ("Press ENTER") and ignores it; a line asked for when none is left
      raises EOFError. */
  function Session(teams: seq<Team>, inputs: seq<string>, pos: nat): seq<Outcome>
    requires pos <= |inputs|
    decreases |inputs| - pos
  {
    if pos == |inputs| then [Raised(EndOfInput)]
    else
      match Classify(inputs[pos], |teams|)
      case Quit => [Goodbye]
      case NotANumber => [NotANumberMessage] + Session(teams, inputs, pos + 1)
      case OutOfRange(n) => [OutOfRangeMessage(n)] + Session(teams, inputs, pos + 1)
      case Show(k) =>
        match DisplayStats(teams[k])
        case Err(e) => [Raised(e)]
        case Ok(stats) =>
          if pos + 1 == |inputs| then [Shown(stats), Raised(EndOfInput)]
          else [Shown(stats)] + Session(teams, inputs, pos + 2)
  }

  lemma AppendAssoc<T>(a: seq<T>, b: seq<T>, c: seq<T>)
    ensures (a + b) + c == a + (b + c)
  {
  }

  /** The loop of `main_menu`, reading `inputs` one line at a time. */
  method MenuLoop(teams: seq<Team>, inputs: seq<string>) returns (outcomes: seq<Outcome>)
    ensures outcomes == Session(teams, inputs, 0)
  {
    outcomes := [];
    var pos := 0;
    while true
      invariant pos <= |inputs|
      invariant Session(teams, inputs, 0) == outcomes + Session(teams, inputs, pos)
      decreases |inputs| - pos
    {
      if pos == |inputs| {
        return outcomes + [Raised(EndOfInput)];
      }
      var choice := Classify(inputs[pos], |teams|);
      match choice
      case Quit =>
        return outcomes + [Goodbye];
      case NotANumber =>
        assert Session(teams, inputs, pos) == [NotANumberMessage] + Session(teams, inputs, pos + 1);
        AppendAssoc(outcomes, [NotANumberMessage], Session(teams, inputs, pos + 1));
        outcomes, pos := outcomes + [NotANumberMessage], pos + 1;
      case OutOfRange(n) =>
        assert Session(teams, inputs, pos) == [OutOfRangeMessage(n)] + Session(teams, inputs, pos + 1);
        AppendAssoc(outcomes, [OutOfRangeMessage(n)], Session(teams, inputs, pos + 1));
        outcomes, pos := outcomes + [OutOfRangeMessage(n)], pos + 1;
      case Show(k) =>
        var report := DisplayStats(teams[k]);
        if report.Err? {
          return outcomes + [Raised(report.error)];
        }
        if pos + 1 == |inputs| {
          return outcomes + [Shown(report.value), Raised(EndOfInput)];
        }
        assert Session(teams, inputs, pos) == [Shown(report.value)] + Session(teams, inputs, pos + 2);
        AppendAssoc(outcomes, [Shown(report.value)], Session(teams, inputs, pos + 2));
        outcomes, pos := outcomes + [Shown(report.value)], pos + 2;
    }
  }

  /** `s` ends with goodbye or with an exception, and has neither earlier. */
  predicate EndsOnce(s: seq<Outcome>) {
    |s| >= 1 && (s[|s| - 1].Goodbye? || s[|s| - 1].Raised?) &&
    forall j :: 0 <= j < |s| - 1 ==> !s[j].Goodbye? && !s[j].Raised?
  }

  lemma EndsOnceCons(x: Outcome, s: seq<Outcome>)
    requires EndsOnce(s) && !x.Goodbye? && !x.Raised?
    ensures EndsOnce([x] + s)
  {
    var r := [x] + s;
    assert r[|r| - 1] == s[|s| - 1];
    forall j | 0 <= j < |r| - 1
      ensures !r[j].Goodbye? && !r[j].Raised?
    {
      if j > 0 {
        assert r[j] == s[j - 1];
      }
    }
  }

  /** A session ends with goodbye or with an exception, and only there. */
  lemma {:induction false} SessionEnds(teams: seq<Team>, inputs: seq<string>, pos: nat)
    requires pos <= |inputs|
    ensures EndsOnce(Session(teams, inputs, pos))
    decreases |inputs| - pos
  {
    if pos < |inputs| {
      match Classify(inputs[pos], |teams|)
      case Quit =>
      case NotANumber =>
        SessionEnds(teams, inputs, pos + 1);
        EndsOnceCons(NotANumberMessage, Session(teams, inputs, pos + 1));
      case OutOfRange(n) =>
        SessionEnds(teams, inputs, pos + 1);
        EndsOnceCons(OutOfRangeMessage(n), Session(teams, inputs, pos + 1));
      case Show(k) =>
        if pos + 1 < |inputs| && DisplayStats(teams[k]).Ok? {
          SessionEnds(teams, inputs, pos + 2);
          EndsOnceCons(Shown(DisplayStats(teams[k]).value), Session(teams, inputs, pos + 2));
        }
    }
  }

  /** When every team has players, choosing a team never raises
      ZeroDivisionError. */
  lemma {:induction false} SessionNeverDividesByZero(teams: seq<Team>, inputs: seq<string>, pos: nat)
    requires pos <= |inputs|
    requires forall t :: 0 <= t < |teams| ==> teams[t].players != []
    ensures forall j :: 0 <= j < |Session(teams, inputs, pos)| ==> Session(teams, inputs, pos)[j] != Raised(EmptyTeam)
    decreases |inputs| - pos
  {
    if pos < |inputs| {
      match Classify(inputs[pos], |teams|)
      case Quit =>
      case NotANumber => SessionNeverDividesByZero(teams, inputs, pos + 1);
      case OutOfRange(n) => SessionNeverDividesByZero(teams, inputs, pos + 1);
      case Show(k) =>
        DisplayStatsReport(teams[k]);
        if pos + 1 < |inputs| {
          SessionNeverDividesByZero(teams, inputs, pos + 2);
        }
    }
  }

  /** `main_menu`: build the teams, then run the menu loop. */
  function Run(raw: seq<RawPlayer>, names: seq<string>, inputs: seq<string>): seq<Outcome> {
    match Populated(raw, names)
    case Err(e) => [Raised(e)]
    case Ok(teams) => Session(teams, inputs, 0)
  }

  method MainMenu(raw: seq<RawPlayer>, names: seq<string>, inputs: seq<string>) returns (outcomes: seq<Outcome>)
    ensures outcomes == Run(raw, names, inputs)
  {
    var teams := PopulateTeams(raw, names);
    if teams.Err? {
      return [Raised(teams.error)];
    }
    outcomes := MenuLoop(teams.value, inputs);
  }

  /** With at least as many players as teams, every dealt team has players,
      so the menu never divides by zero. */
  lemma RunNeverDividesByZero(raw: seq<RawPlayer>, names: seq<string>, inputs: seq<string>)
    requires CleanAll(raw).Ok? && |names| <= |CleanAll(raw).value|
    ensures forall j :: 0 <= j < |Run(raw, names, inputs)| ==> Run(raw, names, inputs)[j] != Raised(EmptyTeam)
  {
    match Populated(raw, names)
    case Err(e) =>
    case Ok(teams) =>
      forall t | 0 <= t < |teams|
        ensures teams[t].players != []
      {
        PopulatedReport(raw, names, teams, t);
      }
      SessionNeverDividesByZero(teams, inputs, 0);
  }

  /** With fewer players than teams every team is dealt empty, so choosing
      any team on the menu divides by zero in the average height. */
  lemma RunMoreTeamsThanPlayers(raw: seq<RawPlayer>, names: seq<string>, k: int, inputs: seq<string>)
    requires CleanAll(raw).Ok? && |CleanAll(raw).value| < |names|
    requires 1 <= k <= |names| && inputs != [] && inputs[0] == IntToString(k)
    ensures Run(raw, names, inputs) == [Raised(EmptyTeam)]
  {
    PopulatedMoreTeamsThanPlayers(raw, names);
    ClassifyNumber([], k, [], |names|);
    assert [] + IntToString(k) + [] == inputs[0];
  }
}
