# HLTV-thing in Dafny

A model of the pure logic of HLTV-thing, a small Python 2 scraper. It reads
a team's match history from HLTV.org and prints win/loss statistics against an
opponent and on a map. Three pieces are modelled:

- **Building match records** (`Team.build_game_dict` and the loop of
  `Team.get_matches`). Each match section of the results page is a list of text
  nodes. Nodes 1 to 6 are the date, "team rounds", "opponent rounds", map, event
  and result. Tokens 1 and 2 follow a small grammar. The last whitespace segment
  is the rounds count. The segments before it, rejoined by single spaces, are the
  name. The score is the two rounds counts joined by a dash.
- **The statistics** (`print_map_win_ratio`, `print_against_opponent_win_ratio`,
  `print_against_opponent_win_ratio_on_map`, `print_map_individual_results`).
  Each filters the history by map, by opponent or by both, using literal string
  equality. A result of exactly `"W"` counts as a win; every other result counts
  as a loss. The percentage `100 * wins / (wins + losses)` is an exact
  `Fraction`. It is `None` on an empty sample, where the Python code raises
  `ZeroDivisionError`.
- **Reading the team list** (`get_teams`). A line starting with a newline is
  skipped. Otherwise the last character is dropped. The id is the last
  whitespace segment, and the name is the segments before it. A line with no
  segment left raises `IndexError`, which ends the whole read.

Modules:

- `Wrappers`: `Option` and `Result`.
- `Text`: Python 2's `str.split()` and `sep.join`, and the "name followed by
  one more segment" grammar (`SplitLast`) used by both tokens and team lines.
- `Records`: the match record and its builder.
- `Stats`: the tallies.
- `Teams`: team-line parsing.

Behaviour of the code that the model keeps as it is:

- The code takes `content[1:7]`. It skips the first text node and ignores any
  nodes after the seventh. It never checks tokens 0, 3, 4 and 5 for emptiness.
  It fails only when the slice is too short or when token 1 or 2 has no
  segment (`MatchTokens`, `TryBuild`).
- The code compares the map name `"ALL"` literally, like any other map name. A
  map menu choice of `ALL` therefore selects no records unless a record was
  played on a map called `ALL`, and the percentage then divides by zero
  (`Stats.AllIsLiteral`).
- The code divides by `wins + losses` unconditionally, so an empty sample
  raises `ZeroDivisionError`. The model makes the percentage partial
  (`Stats.Percentage`) and says exactly when it is undefined.
- The code drops the last character of every non-blank line of the team file,
  whatever it is. The model reads the file both as written and with only a
  trailing newline removed (`Teams.Reading`); see "## Findings".

## Model

| member | source | states |
|---|---|---|
| Text.Split | hltv_thing/hltv_thing.py:141-143 | `str.split()`: every segment is non-empty and free of whitespace; there are no segments exactly when the string is all whitespace |
| Text.SplitJoin | hltv_thing/hltv_thing.py:141 | splitting words that were joined by single spaces gives back exactly those words |
| Text.SplitKeepsText | hltv_thing/hltv_thing.py:141-143 | splitting loses only whitespace: the segments, concatenated, are the input's non-whitespace characters in order |
| Text.NormalizeIdempotent | hltv_thing/hltv_thing.py:141 | rejoining split segments with single spaces is a normal form: doing it twice changes nothing |
| Text.NormalizeJoin | hltv_thing/hltv_thing.py:141 | a single-spaced run of words is already normalised |
| Text.Join | hltv_thing/hltv_thing.py:23 | `sep.join(ws)`: the words in order with `sep` between neighbours, the empty string for no words (also at lines 141, 144 and 145) |
| Text.JoinSnoc | hltv_thing/hltv_thing.py:141-142 | joining words plus one more word is the join, the separator, then that word |
| Text.JoinPair | hltv_thing/hltv_thing.py:144 | `'-'.join([a, b])` is `a`, the dash, then `b` |
| Text.SplitLast | hltv_thing/hltv_thing.py:141-145 | the name/last-segment grammar is defined iff the string has a segment, and its last part is one whitespace-free segment |
| Text.SplitLastSpec | hltv_thing/hltv_thing.py:141-145 | the name splits into all segments but the last and is single-spaced; name, space and last part split back into the original segments |
| Text.SplitLastRejoin | hltv_thing/hltv_thing.py:141-142 | with at least two segments, `team + " " + rounds` is the token with its whitespace normalised |
| Text.SplitTwoWords | hltv_thing/hltv_thing.py:141-142 | "word word" splits into those two words: the first is the name, the second the last segment |
| Records.BuildGameDict | hltv_thing/hltv_thing.py:132-150 | date, map, event and result are tokens 0, 3, 4 and 5 verbatim; the score is the last segment of token 1, a dash, then the last segment of token 2 |
| Records.BuildGameDictNames | hltv_thing/hltv_thing.py:141-145 | team and opponent split into the segments of tokens 1 and 2 minus the last, are single-spaced, and with their rounds count split back into the token's segments |
| Records.TryBuild | hltv_thing/hltv_thing.py:139-148 | succeeds exactly on six tokens whose tokens 1 and 2 have a segment, with the record above; otherwise either a missing token index below 6 or an all-whitespace token 1 or 2 |
| Records.TryBuildFirstCause | hltv_thing/hltv_thing.py:139-148 | the reported error is the first `IndexError` the statements meet: it holds for the tokens, and no cause earlier in evaluation order (`game[0]`, `game[1]`, token 1's rounds, `game[2]`, token 2's rounds, `game[4]`, `game[5]`) holds |
| Records.WellFormedIffNoCause | hltv_thing/hltv_thing.py:139-148 | a section is well formed exactly when none of the `IndexError` causes holds for it |
| Records.MatchTokens | hltv_thing/hltv_thing.py:127-128 | `content[1:7]`: at most six tokens, the text nodes after the first, in order |
| Records.BuildAll | hltv_thing/hltv_thing.py:124-129 | one record per section in page order exactly when every section is well formed; otherwise the first bad section and its error, with no partial history |
| Records.BuildRoundTrip | hltv_thing/hltv_thing.py:140-148 | re-extracting the tokens of a built record (splitting the score at its dash, rejoining name and rounds) gives the six tokens back, whitespace of tokens 1 and 2 normalised |
| Records.ScoreSplit | hltv_thing/hltv_thing.py:142-144 | a score whose team count has no dash splits at its first dash back into the two counts |
| Records.TokenRoundTrip | hltv_thing/hltv_thing.py:141-145 | a token's name, a space and its rounds count normalise to the token's normal form |
| Records.BuildRoundTripExact | hltv_thing/hltv_thing.py:140-148 | on single-spaced tokens the round trip returns the six tokens exactly |
| Records.OneWordTeams | hltv_thing/hltv_thing.py:134-148 | for one-word team names, e.g. "1/2/19", "Astralis 16", "NaVi 10", the record has the names as given and score "16-10" |
| Stats.Matches | hltv_thing/hltv_thing.py:159 | the filter conditions, by literal string equality: map only (line 159), opponent only (line 172), opponent and map (lines 185 and 196) |
| Stats.IsWin | hltv_thing/hltv_thing.py:160 | a record is a win exactly when its result is `"W"` (also at lines 173 and 186); every other result is a loss |
| Stats.Select | hltv_thing/hltv_thing.py:158-159 | a filter's view is an order-preserving subsequence of the history, and every record in it passes the filter |
| Stats.SelectContents | hltv_thing/hltv_thing.py:158-159 | the view keeps each passing record as often as the history holds it, and nothing else |
| Stats.Tally | hltv_thing/hltv_thing.py:156-165 | counting loop: wins are the selected records whose result is "W", losses all other selected records, and together they number the selected records |
| Stats.TallyReport | hltv_thing/hltv_thing.py:155-166 | a tally's counts plus a percentage that is undefined exactly when no record passes the filter and otherwise lies in 0..100; the percentage is `Stats.Percentage` of those wins and losses, i.e. `100*wins/(wins+losses)` |
| Stats.MapWinRatio | hltv_thing/hltv_thing.py:155-166 | wins plus losses is the number of records on the map; no data exactly when no record was played on that map; the percentage is `Stats.Percentage` of those wins and losses, i.e. `100*wins/(wins+losses)` |
| Stats.OpponentWinRatio | hltv_thing/hltv_thing.py:168-179 | wins plus losses is the number of records against the opponent; no data exactly when there is none; the percentage is `Stats.Percentage` of those wins and losses, i.e. `100*wins/(wins+losses)` |
| Stats.OpponentOnMapWinRatio | hltv_thing/hltv_thing.py:181-192 | wins plus losses is the number of records against the opponent on the map; no data exactly when there is none; the percentage is `Stats.Percentage` of those wins and losses, i.e. `100*wins/(wins+losses)` |
| Stats.IndividualResults | hltv_thing/hltv_thing.py:194-197 | the listing is exactly the order-preserving subsequence of records against the opponent on the map, in history order: the records the opponent-on-map tally counts |
| Stats.Percentage | hltv_thing/hltv_thing.py:166 | `100*wins/(wins+losses)` is defined iff the sample is non-empty; then it equals that quotient, lies between 0 and 100, is 0 iff no wins and 100 iff no losses |
| Stats.WinsPlusLosses | hltv_thing/hltv_thing.py:160-163 | every record is counted once, as a win or as a loss |
| Stats.NoDataIffNoMatch | hltv_thing/hltv_thing.py:158-166 | a filter's view is empty iff no record passes it |
| Stats.SelectBoth | hltv_thing/hltv_thing.py:185 | the opponent-and-map filter is the opponent filter then the map filter, and also the map filter then the opponent filter |
| Stats.SelectCounts | hltv_thing/hltv_thing.py:158-163 | filtering never adds wins or losses |
| Stats.ConjunctionBounds | hltv_thing/hltv_thing.py:155-192 | the opponent-on-map wins and losses are each at most those of the map-only and the opponent-only tally |
| Stats.AllIsLiteral | hltv_thing/hltv_thing.py:159 | with no record on a map literally named "ALL", the "ALL" map tally is empty and its percentage undefined |
| Stats.OneWinOneLoss | hltv_thing/hltv_thing.py:181-192 | a win and a loss against the same opponent on the same map give 1W-1L and a tally percentage of 100/2, fifty percent |
| Teams.TeamFromData | hltv_thing/hltv_thing.py:23-24 | never blank; no team iff the text is all whitespace (`split()[-1]` raises); otherwise the id is one whitespace-free segment |
| Teams.TeamFromDataSpec | hltv_thing/hltv_thing.py:23-24 | the name splits into all segments but the last and is single-spaced; name, space and id split back into the text's segments |
| Teams.ParseTeamLine | hltv_thing/hltv_thing.py:21-25 | blank iff the line starts with a newline; otherwise no team iff the line minus its last character is all whitespace |
| Teams.ParseTeamLineFields | hltv_thing/hltv_thing.py:22-24 | a non-blank line with a segment yields a team whose name is the segments of the line minus its last character, except the last segment, joined by single spaces, and whose name, space and id split back into those segments |
| Teams.ParseTeamLineChomped | hltv_thing/hltv_thing.py:21-25 | blank iff the line starts with a newline; otherwise no team iff the line without its trailing newline is all whitespace |
| Teams.ChompedAgrees | hltv_thing/hltv_thing.py:22 | on a line ending in a newline both readings agree |
| Teams.ChompedIgnoresMissingNewline | hltv_thing/hltv_thing.py:22 | with the corrected reading, a last line reads the same with or without its newline |
| Teams.TeamFromTwoWords | hltv_thing/hltv_thing.py:23-24 | "name id" with one-word name and id reads as exactly that team |
| Teams.LastLineLosesCharacter | hltv_thing/hltv_thing.py:22 | as written, a last line "name id" without a newline yields the id minus its last character |
| Teams.ReadLine | hltv_thing/hltv_thing.py:21-25 | one line under a reading: blank iff it starts with a newline; no team iff it is not blank and the text left after removing the line ending is all whitespace; otherwise the id is one segment |
| Teams.NonBlank | hltv_thing/hltv_thing.py:21 | the lines not skipped, in file order: each is non-empty and does not start with a newline, and with the blank lines they number all lines |
| Teams.TeamList | hltv_thing/hltv_thing.py:18-26 | `get_teams` with `Teams.AsWritten` (the corrected reading with `Teams.Chomped`): succeeds exactly when no non-blank line lacks an id, every id being one segment; otherwise the index of the first line without an id, with no partial list |
| Teams.TeamListCount | hltv_thing/hltv_thing.py:20-25 | a successful read, under either reading, yields exactly one team per non-blank line |
| Teams.TeamListContents | hltv_thing/hltv_thing.py:20-26 | the teams of a successful read are the non-blank lines, each read on its own, in file order |
| Teams.TeamListAt | hltv_thing/hltv_thing.py:20-26 | there are as many teams as non-blank lines, and the k-th team is the team the k-th non-blank line holds |
| Teams.TeamListAgrees | hltv_thing/hltv_thing.py:20-26 | on a file whose every line ends in a newline, the file as written and the corrected reading give the same teams or fail at the same line |
| Teams.LastLineListLosesCharacter | hltv_thing/hltv_thing.py:20-26 | as written, a file whose only line `name id` lacks its newline gives the id minus its last character; the corrected reading keeps it |
| Teams.SpaceThenCharacter | hltv_thing/hltv_thing.py:20-26 | as written, a last line of a space and one non-space character without its newline raises at line 0; the corrected reading gives a team with an empty name |

## Left out

- The HTTP request and the HTML parsing and XPath selection in `Team.get_matches` (hltv_thing/hltv_thing.py:119-127) are network I/O and a foreign library. The model's input is the list of text nodes of each match section.
- `Team.__init__` (lines 104-111) only stores the team's name and id and calls `get_matches`. The history is the success value of `Records.BuildAll`.
- The file opening in `get_teams` (line 19) and all of `get_maps` (lines 28-36) read reference lists from disk. The caller passes the team file's lines to `Teams.TeamList`, each non-empty, since Python's file iteration never yields an empty line. The map list is an input to the menus, which are left out.
- The menus and selection loops `show_team_menu`, `show_map_menu`, `select_teams` and `select_map` (lines 38-97) are console I/O with `raw_input` and `sys.exit`. `main` (lines 199-216) only orchestrates the calls.
- The `print` formatting and the `%.0f` rounding of the percentage (lines 166, 179, 192) are floating-point output. The percentage is kept as an exact fraction.
- `display_latest_game` (lines 152-153) only prints the first record and raises on an empty history.
- Text.Split: covers the six ASCII whitespace characters of Python 2 byte strings (space, tab, newline, carriage return, vertical tab, form feed). Text nodes that lxml returns as `unicode` (non-ASCII page text) also split on Unicode spaces such as U+00A0; the model works on characters without that distinction, so such text is split as if it were a byte string.
- Records.BuildRoundTrip: needs the team's rounds count to contain no dash, because otherwise the score `"a-b"` does not say where the first count ends.

## Findings

| source | as written | input that shows it | evidently intended | confidence | as-written member | corrected member |
|---|---|---|---|---|---|---|
| hltv_thing/hltv_thing.py:22 | `line[0:-1]` drops the last character of every non-blank line | a team file whose last line is `Astralis 6665` with no final newline gives id `666` | drop only a trailing newline, so the last line keeps its id | medium, not executed | Teams.LastLineListLosesCharacter | Teams.ParseTeamLineChomped |

`Teams.ParseTeamLine` and `Teams.TeamList` with `Teams.AsWritten` model the code as written; `Teams.LastLineLosesCharacter` and `Teams.SpaceThenCharacter` exhibit the discrepancy. `Teams.ParseTeamLineChomped` and `Teams.TeamList` with `Teams.Chomped` are the corrected reading: `Teams.ChompedIgnoresMissingNewline` proves a last line reads the same with or without its newline, and `Teams.TeamListAgrees` proves both readings give the same teams on any file whose lines all end in a newline.
