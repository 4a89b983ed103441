# Basketball team stats tool — a Dafny model

`app.py` reads a fixed roster of players and a fixed list of team names. It
normalises each player record:

- the guardian text is split on `" and "`;
- the experience flag is set from `"YES"`;
- the height is the leading integer of text such as `"42 inches"`.

It then deals the players out, one experienced and one inexperienced player
at a time, popping from the end of each partition, until every team holds its
quota. A console menu then lets the user pick a team by number and shows that
team's statistics.

This project models that core in four modules:

- `Text` (`text.dfy`) models the Python string operations the program relies
  on:
  - `str.split(sep)` as `Split`/`Join`;
  - `str.split()[0]` as `FirstToken`;
  - `int()` on text as `ParseInt`: surrounding whitespace, an optional sign and
    decimal digits.

  The two kinds of whitespace differ. `str.split()` also splits on the ASCII
  separators 0x1C-0x1F (`IsSpace`). `int()` strips only tab, line feed,
  vertical tab, form feed, carriage return and the space (`IsIntSpace`), and
  fails on a separator.
- `Roster` (`roster.dfy`) has three parts:
  - the player records (`RawPlayer`, `Player`) and teams (`Team`);
  - the normaliser `clean_player_list` (`CleanPlayerList`, specified by
    `CleanAll`) and the skeleton builder `clean_team_list` (`CleanTeamList`);
  - `populate_teams` (`PopulateTeams`, with its per-team loop `DealOut` and
    inner `while` loop `FillTeam`), specified by `Populated`/`Deal`.

  The Python exceptions these steps can raise are values of `Error`:
  - `IndexError` on a blank height is `HeightMissing`;
  - `ValueError` from `int()` is `HeightNotInteger`;
  - `IndexError` from `pop()` on an empty list is `PopFromEmpty`.
- `Stats` (`stats.dfy`) models the counting and flattening part of
  `display_stats`:
  - the total;
  - the player names;
  - the flattened guardian list;
  - the experienced and inexperienced counts;
  - the height sum whose division raises `ZeroDivisionError` (`EmptyTeam`) on
    a team without players.
- `Menu` (`menu.dfy`) models how `main_menu` classifies an input line
  (`Classify`). The loop itself (`MenuLoop`, specified by `Session`) runs over
  a given sequence of input lines and yields the sequence of outcomes.
  Running out of lines is `EOFError` (`EndOfInput`).

The module-level constants `PLAYERS` and `TEAMS` are parameters (`raw`,
`names`) of the modelled operations. Every loop of the core is a Dafny
method proved equal to a specification function. The properties the program
relies on are lemmas about those functions:

- the balance of experienced and inexperienced players on every team;
- the dealing order;
- the conditions under which the deal runs dry;
- the guardian round trip;
- the fact that the menu ends exactly once.

Where the behaviour described for the program and the code differ, the model
follows the code:

- With no team names, the quota division `len(player_list) // len(teams)`
  sits inside `for team in teams` and is never evaluated. `populate_teams`
  therefore returns an empty list instead of raising `ZeroDivisionError`
  (`PopulatedHasNames`).
- The inner loop adds two players per round while `len(players) < quota`.
  With an odd quota q, each team therefore receives q + 1 players. The deal
  needs at least `teams * ceil(q/2)` players in each partition, not merely
  partitions divisible by the team count. `PopulatedOddQuotaRunsDry`
  exhibits a balanced roster of 6 records over 2 teams whose deal pops from
  an empty list.
- A guardian text of two names joined by " and " gives exactly those two
  names only when neither name holds " and " and the first does not end in
  " and" (`SplitTwo`). Otherwise `str.split` takes the leftmost match, which
  can start inside the first name: "x and and y" gives "x" and "and y"
  (`SplitTwoStraddles`). A guardian text with any number of separators is
  never an error: `str.split` at app.py:13 cannot raise, and only the height
  can make a record fail (`CleanPlayerFields`).
- With fewer normalised players than team names, the quota
  `len(player_list) // len(teams)` is 0. The `while` loop at app.py:42 then
  never pops, and `populate_teams` succeeds with every team empty
  (`PopulatedMoreTeamsThanPlayers`). An empty team is therefore not preceded
  by a failure of the deal. The failure comes only when such a team is
  chosen on the menu: its average height at app.py:96 divides by zero
  (`RunMoreTeamsThanPlayers`).

## Model

| member | source | states |
|---|---|---|
| Text.Split | app.py:13 | `str.split(sep)`: the text up to the leftmost occurrence of the separator, then the parts of the rest after that occurrence; a text without the separator is a single part |
| Text.FirstToken | app.py:15 | `split()[0]`: the run of non-whitespace characters after the leading whitespace; nothing for a blank text, where the program raises `IndexError` |
| Text.ParseInt | app.py:15 | `int()` on text, used also on the menu choice at line 71: the text without the whitespace `int()` strips must be an optional sign followed by one or more ASCII digits, read in base 10; anything else is the `ValueError` |
| Text.IndexOf | app.py:13 | the position where the separator is searched for leaves room for the whole separator inside the text |
| Text.IndexOfOccurs | app.py:13 | the position the separator is found at holds an occurrence of it |
| Text.IndexOfLeftmost | app.py:13 | no occurrence lies before the position found; nothing is found exactly when the text does not contain the separator |
| Text.SplitJoin | app.py:13 | `split(sep)` yields at least one part, and joining the parts with the separator gives back the original text |
| Text.SplitPartsClean | app.py:13 | no part produced by `split(sep)` contains the separator |
| Text.SplitWithoutSeparator | app.py:13 | a text without the separator splits into the single part holding the whole text |
| Text.FirstTokenBlank | app.py:15 | `split()` has no first element exactly when the text is all whitespace; otherwise the first token is non-empty and holds no whitespace |
| Text.FirstTokenOf | app.py:15 | a token followed by whitespace (or nothing) is the first element of `split()` |
| Text.ParseIntRoundTrip | app.py:15 | `int()` reads the decimal text of any integer, negative ones included, back as that integer |
| Text.ParseIntPadded | app.py:71 | whitespace that `int()` strips (tab, line feed, vertical tab, form feed, carriage return, space) around a literal does not change what `int()` reads |
| Text.LiteralRoundTrip | app.py:71 | the decimal text of any integer, with or without its minus sign, reads back as that integer once stripped |
| Text.SeparatorSplitsButDoesNotParse | app.py:71 | a digit behind the separator 0x1C is the first token for `split()`, while `int()` rejects the same text |
| Text.NatDigitsRoundTrip | app.py:15 | the decimal digits of a natural number read back as that number |
| Text.LStripRemovesLeadingSpace | app.py:71 | the stripping done by `int()` removes exactly the leading tab, line feed, vertical tab, form feed, carriage return and space characters, and leaves a suffix of the text |
| Roster.ParseHeight | app.py:15 | the integer read from the first token of the height text; `HeightMissing` for a blank text and `HeightNotInteger` when the first token is not an integer |
| Roster.CleanPlayer | app.py:12-16 | one record normalised: the name kept, the guardian text split on " and ", the flag true exactly for "YES", the height parsed; the height's error when it does not parse |
| Roster.CleanAll | app.py:10-18 | the records normalised one by one, in order; the error of the first record that fails |
| Roster.Filter | app.py:37-38 | the players whose flag equals the argument, in roster order, as both comprehensions here and at lines 93-94 build them |
| Roster.RoundsPerTeam | app.py:42 | the two-player rounds a team receives: the quota `count // teams` halved and rounded up |
| Roster.Picks | app.py:42-44 | the players `count` rounds deal after `base` earlier rounds: per round the last remaining experienced player, then the last remaining inexperienced one |
| Roster.Assignment | app.py:40-44 | team t keeps its name and receives the m rounds that follow the t·m rounds dealt to the teams before it |
| Roster.Deal | app.py:40-45 | no team names give no teams; otherwise every team receives `RoundsPerTeam` rounds, and a partition holding fewer than teams × rounds players gives the pop-from-empty error |
| Roster.Populated | app.py:31-45 | the normalisation's error, or the deal of the experienced and inexperienced partitions of the normalised roster with its size as the player count |
| Roster.HeightMissingWhenBlank | app.py:15 | `split()[0]` on the height fails exactly when the height text is blank |
| Roster.HeightRoundTrip | app.py:15 | a height written as an integer followed by a unit such as " inches" reads back as that integer |
| Roster.CleanPlayerFields | app.py:12-16 | a record normalises exactly when its height parses; the height error is the record's error; the name is kept and the flag is true exactly for "YES" |
| Roster.GuardiansRoundTrip | app.py:13 | the guardian list is non-empty, joins back with " and " to the original text, and no name in it still holds " and " |
| Roster.NoMatchInsideFirst | app.py:13 | in "a and b", where a holds no " and " and does not end in " and", no separator occurrence starts inside a |
| Roster.SplitTwo | app.py:13 | "a and b" splits into exactly [a, b] when neither name holds " and " and a does not end in " and" |
| Roster.SplitTwoStraddles | app.py:13 | without the condition on the end of the first name the two-name split fails: "x and and y" splits into ["x", "and y"] |
| Roster.TwoGuardians | app.py:13 | a record whose guardian text is two such names joined by " and " normalises to a player with exactly those two guardians |
| Roster.ExperienceRoundTrip | app.py:14 | "YES"/"NO" texts are recovered from the flag; any other text gives an inexperienced player |
| Roster.CleanAllInOrder | app.py:10-18 | a successful normalisation has one player per record, in record order, each the normalised record |
| Roster.CleanAllSucceeds | app.py:10-18 | normalisation succeeds when every height parses |
| Roster.FirstFailureDecides | app.py:11-17 | the first record that fails determines the error raised for the whole roster |
| Roster.CleanPlayerList | app.py:6-18 | the appending loop computes exactly the roster normalisation, error included |
| Roster.CleanTeamList | app.py:21-28 | one empty team per name, in name order |
| Roster.FilterFlags | app.py:37-38 | every player in the experienced partition is experienced, and every player in the other one is not |
| Roster.FilterPartition | app.py:37-38 | the two partitions together hold every player of the roster as often as the roster does, and their lengths sum to the roster's |
| Roster.PairsPerTeam | app.py:42-44 | the number of two-player rounds for a quota is the least whose players reach the quota |
| Roster.PicksAt | app.py:43-44 | the j-th dealt player is an experienced one for even j and an inexperienced one for odd j, taken from the end of its partition |
| Roster.PicksOccurrences | app.py:43-44 | the players dealt in n rounds are exactly the last n of each partition |
| Roster.PicksSplit | app.py:42-44 | dealing c1 rounds and then c2 more from where the first stopped is the same as dealing c1 + c2 rounds |
| Roster.PicksBalanced | app.py:43-44 | dealing n rounds from an experienced and an inexperienced list yields n players of each kind |
| Roster.AssignmentMembers | app.py:40-44 | the teams together hold exactly the players of the first teams × rounds dealing rounds, in order |
| Roster.AssignedOrder | app.py:40-44 | on team t, with m rounds per team, position j holds experienced player number len-1-(t·m+j/2) when j is even and the inexperienced one at that index when j is odd |
| Roster.AssignedAlternates | app.py:43-44 | every dealt team alternates experienced and inexperienced players and holds m of each |
| Roster.AssignedFromPartitions | app.py:37-44 | no player is dealt more often than the two partitions hold it |
| Roster.PopulatedAssigned | app.py:31-45 | a successful populate with team names is the deal of ceil(quota/2) rounds per team from the two partitions of the normalised roster |
| Roster.DealRunsDry | app.py:42-44 | if a partition holds fewer players than the rounds a team still needs, the deal raises the pop-from-empty error |
| Roster.FillTeam | app.py:41-44 | the while loop succeeds exactly when both partitions hold enough players for the rounds; it yields the popped players in dealing order and leaves the partitions shortened by the players popped |
| Roster.DealOut | app.py:40-45 | the per-team loop over empty teams computes exactly the specified deal, including the pop from an empty list |
| Roster.PopulateTeams | app.py:31-45 | the whole operation computes exactly the normalise-then-deal specification, including every error |
| Roster.DealShape | app.py:40-45 | a successful deal keeps the team names in order and gives each team q + q % 2 players, with q the integer quotient of players by teams |
| Roster.DealSucceedsWhenQuotaEven | app.py:42-44 | with an even quota and at least half of the players in each partition, the deal succeeds |
| Roster.DealOddQuotaRunsDry | app.py:42-44 | 3 experienced and 3 inexperienced players over 2 teams pop from an empty list, since the quota 3 rounds up to 4 per team |
| Roster.PopulatedOddQuotaRunsDry | app.py:31-45 | six records alternating "YES" and "NO" with readable heights normalise, split three and three, and still pop from an empty list over two teams |
| Roster.DealTeam | app.py:41-44 | one pass of the team loop either raises the pop-from-empty error of the whole deal or fills the next team and leaves the loop state one team further on |
| Roster.PicksFromPartitions | app.py:43-44 | no player is picked more often than the two lists hold it |
| Roster.DealNoRounds | app.py:40-44 | with fewer players than teams the quota is 0: the deal succeeds and every team keeps its name and no players |
| Roster.PopulatedMoreTeamsThanPlayers | app.py:35-45 | a roster that normalises to fewer players than there are team names populates without error, every team empty |
| Roster.PopulatedHasNames | app.py:40-45 | a successful result is empty exactly when there are no team names, so no team names gives an empty list without any division |
| Roster.PopulatedTeams | app.py:31-45 | the populated teams carry the given names in order, each with the same even number of players |
| Roster.PopulatedOrder | app.py:40-44 | the teams' players, concatenated, are the dealing order of the partitions: alternately the last remaining experienced and inexperienced player |
| Roster.PopulatedAlternates | app.py:43-44 | on every team the experienced players sit at even positions and the inexperienced ones at odd positions, equally many of each |
| Roster.PopulatedFromRoster | app.py:37-44 | no player appears on the teams more often than in the roster |
| Roster.PopulatedSucceeds | app.py:31-45 | a roster that parses, with balanced partitions and an even quota, is populated without error |
| Stats.PlayerNames | app.py:99 | the players' names in team order |
| Stats.Guardians | app.py:95 | every player's guardian names, player after player, each player's names in their own order, duplicates kept |
| Stats.HeightSum | app.py:96 | the sum of the players' heights |
| Stats.DisplayStats | app.py:91-112 | `Err(EmptyTeam)` exactly for a team without players; otherwise the name, the total, the names, the flattened guardians, both experience counts and the height sum |
| Stats.PlayerNamesAt | app.py:99 | the list of player names has one name per player, in team order |
| Stats.GuardiansAppend | app.py:95 | flattening the guardian lists of two groups of players concatenates their flattenings |
| Stats.GuardiansOf | app.py:95 | the flattened guardians hold each player's guardians in place, between those of the players before and after it |
| Stats.GuardiansLength | app.py:95 | the flattened guardian list is as long as all the players' guardian lists together |
| Stats.GuardiansAtLeastOneEach | app.py:95 | when every player has a guardian, the flattened list is at least as long as the team |
| Stats.CleanAllGuardians | app.py:13 | every normalised player has at least one guardian |
| Stats.HeightSumBounds | app.py:96 | the height sum lies between the team size times the lowest and the highest height |
| Stats.DisplayStatsReport | app.py:93-112 | the report fails exactly for a team without players, with the division-by-zero error; otherwise the total counts every player, the two counts add up to it, and the names follow the team |
| Stats.PopulatedReport | app.py:93-96 | every populated team of a roster with at least as many players as teams reports without error, and as many experienced as inexperienced players |
| Menu.Lower | app.py:66 | `str.lower()` on ASCII: every capital letter replaced by its small letter, every other character kept |
| Menu.Session | app.py:59-82 | the outcomes of the menu loop from one input line on: goodbye on quit, a message and the next line for a non-number or an out-of-range number, the report and the line after next for a team, the statistics' error for an empty team, and `EndOfInput` when a line is asked for and none is left |
| Menu.Run | app.py:54-82 | `main_menu`: the error of `populate_teams`, or the session over its teams |
| Menu.Classify | app.py:66-79 | a line classified as a team choice names a team on the menu |
| Menu.QuitIsNotANumber | app.py:66-71 | neither spelling of quit would parse as a number |
| Menu.ClassifyCases | app.py:66-79 | quit exactly for "q" or "Q"; a chosen team is the one whose 1-based number the line holds; an out-of-range number lies outside 1..team count; "not a number" exactly when the line is not quit and `int()` fails |
| Menu.ClassifyNumber | app.py:71-79 | a number with whitespace that `int()` strips around it selects that team when it is between 1 and the team count, and is reported out of range otherwise |
| Menu.ClassifySeparator | app.py:70-74 | a digit behind the separator 0x1C is reported as not a number |
| Menu.ClassifyWords | app.py:70-74 | the empty line and a word are reported as not a number |
| Menu.MenuLoop | app.py:59-82 | the menu loop over the input lines yields exactly the specified outcome sequence |
| Menu.SessionEnds | app.py:59-82 | every session ends exactly once, with goodbye or an exception, and only at its last outcome |
| Menu.SessionNeverDividesByZero | app.py:76-80 | with no empty team on the menu, showing a team never divides by zero |
| Menu.MainMenu | app.py:54-82 | the entry point populates the teams and runs the menu, yielding exactly the specified outcomes |
| Menu.RunMoreTeamsThanPlayers | app.py:54-96 | with fewer parsed players than teams, choosing any team by its number raises the division by zero of the average height, and nothing else happens first |
| Menu.RunNeverDividesByZero | app.py:54-82 | with a parsable roster of at least as many players as teams, no menu choice raises the division by zero in the statistics |

## Left out

- Console output is not modelled: the welcome banner, the menu listing, every `print`, the "Press ENTER" prompt text and the blank lines. Only the outcome of each line is kept, and the line read after a report is consumed and ignored.
- Input is a given sequence of lines; end of input is the `EndOfInput` error.
- Terminal width (`shutil.get_terminal_size`, including its `OSError` fallback), `textwrap.wrap` and the `', '.join` formatting of the names are not modelled, because they only shape the printed text.
- The average height is a float rounded to one decimal place. Only the integer height sum and the division-by-zero error it raises on an empty team are modelled.
- DisplayStatsReport: "fails exactly for a team without players" holds only for heights whose average fits a float. `DisplayStats` does not model the `OverflowError` that the average at app.py:96, or its rounding at app.py:113, raises for heights beyond float range (around 10**308), because the model has no floating point.
- The constants module is not part of this model. `PLAYERS` and `TEAMS` are parameters.
- Python's `int()` is modelled for ASCII whitespace, an optional sign and ASCII decimal digits only. Unicode digits and whitespace, and underscores between digits, are left out.
- FirstToken: `str.split()` at app.py:15 also splits on Unicode whitespace such as the no-break space 0xA0. The model splits on ASCII whitespace only, so `ParseHeight` rejects the height "72" followed by a no-break space and "inches", which the program reads as 72.
- ParseInt: accepts decimal literals of any length. CPython 3.11 and later raise `ValueError` on literals of more than 4300 digits by default. That limit is configurable and depends on the interpreter version, so it is left out. `str.lower()` is modelled on ASCII letters only, which is all a comparison with `'q'` can depend on.
- Aliasing is not modelled. The Python loop appends to `team['players']`, a list aliased inside each team dictionary. The model builds each team's player sequence and stores it in the team. This is equivalent because `clean_team_list` creates every team with a fresh empty list; `DealOut` requires empty teams for that reason.
- `pop()` mutating the shared partitions is modelled by shortening local sequences. Nothing else refers to those lists.
