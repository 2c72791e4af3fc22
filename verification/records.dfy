/**
 Turning one match section of the team's results page into a match record:
 the positional six-token layout, the "name followed by rounds" micro-grammar
 of tokens 1 and 2, and the loop over all sections of the page.
 */
module Records {
  import opened Wrappers
  import opened Text

  /** One completed match, with the keys `build_game_dict` fills in. */
  datatype MatchRecord = MatchRecord(
    date: string,
    team: string,
    opponent: string,
    score: string,
    mapName: string,
    event: string,
    result: string)

  /** Why a section yields no record: the Python code raises `IndexError`
      either because the token list is too short (`game[index]`) or because
      token `index` holds no segment (`game[index].split()[-1]`). */
  datatype ParseError = MissingToken(index: nat) | MissingRounds(index: nat)

  /** Why the whole page yields no history: the section at `section` failed. */
  datatype PageError = PageError(section: nat, error: ParseError)

  /** What `build_game_dict` needs of its argument to not raise: six tokens,
      of which tokens 1 and 2 ("team rounds" and "opponent rounds") each hold
      at least one segment for `SplitLast` to take the rounds count from. */
  predicate WellFormed(game: seq<string>) {
    |game| >= 6 && !AllSpace(game[1]) && !AllSpace(game[2])
  }

  /** `Team.build_game_dict`: the record for one six-token match. */
  function BuildGameDict(game: seq<string>): (r: MatchRecord)
    requires WellFormed(game)
    ensures r.date == game[0] && r.mapName == game[3]
    ensures r.event == game[4] && r.result == game[5]
    ensures r.score == LastSegment(game[1]) + "-" + LastSegment(game[2])
  {
    var team := SplitLast(game[1]).value;
    var opponent := SplitLast(game[2]).value;
    JoinPair(team.last, opponent.last, "-");
    MatchRecord(
      date := game[0],
      team := team.name,
      opponent := opponent.name,
      score := Join([team.last, opponent.last], "-"),
      mapName := game[3],
      event := game[4],
      result := game[5])
  }

  /** The team and opponent names of a built record: each splits into the
      segments of its token but the last, single-spaced, and rejoined with the
      rounds count it splits back into the token's segments. */
  lemma BuildGameDictNames(game: seq<string>)
    requires WellFormed(game)
    ensures Split(BuildGameDict(game).team) == Split(game[1])[..|Split(game[1])| - 1]
    ensures Split(BuildGameDict(game).opponent) == Split(game[2])[..|Split(game[2])| - 1]
    ensures Normalize(BuildGameDict(game).team) == BuildGameDict(game).team
    ensures Normalize(BuildGameDict(game).opponent) == BuildGameDict(game).opponent
    ensures Split(BuildGameDict(game).team + " " + LastSegment(game[1])) == Split(game[1])
    ensures Split(BuildGameDict(game).opponent + " " + LastSegment(game[2])) == Split(game[2])
  {
    SplitLastSpec(game[1]);
    SplitLastSpec(game[2]);
  }

  /** Whether `e` is a cause of `IndexError` that holds for `game`. */
  predicate Raises(game: seq<string>, e: ParseError) {
    match e
    case MissingToken(i) => |game| <= i
    case MissingRounds(i) => i < |game| && AllSpace(game[i])
  }

  /** The causes `build_game_dict` can meet, in the order its statements reach
      them: `game[0]`, `game[1]`, the team's rounds count, `game[2]`, the
      opponent's rounds count, `game[4]`, `game[5]` (`game[3]` comes last and
      is present once `game[4]` is). */
  const EvaluationOrder: seq<ParseError> :=
    [MissingToken(0), MissingToken(1), MissingRounds(1), MissingToken(2),
     MissingRounds(2), MissingToken(4), MissingToken(5)]

  /** `build_game_dict` with its failure made explicit: the first `IndexError`
      in the order the Python statements evaluate (date, team, both rounds
      counts, opponent, event, result, map). */
  function TryBuild(game: seq<string>): (r: Result<MatchRecord, ParseError>)
    ensures r.Success? <==> WellFormed(game)
    ensures r.Success? ==> r.value == BuildGameDict(game)
    ensures r.Failure? && r.error.MissingToken? ==> |game| <= r.error.index < 6
    ensures r.Failure? && r.error.MissingRounds? ==>
              r.error.index in {1, 2} && r.error.index < |game| && AllSpace(game[r.error.index])
  {
    if |game| < 2 then Failure(MissingToken(|game|))
    else if AllSpace(game[1]) then Failure(MissingRounds(1))
    else if |game| < 3 then Failure(MissingToken(2))
    else if AllSpace(game[2]) then Failure(MissingRounds(2))
    else if |game| < 5 then Failure(MissingToken(4))
    else if |game| < 6 then Failure(MissingToken(5))
    else Success(BuildGameDict(game))
  }

  /** The error `TryBuild` reports is the first `IndexError` the Python
      statements meet: it holds for the tokens, and no cause earlier in
      evaluation order does. */
  lemma TryBuildFirstCause(game: seq<string>)
    ensures TryBuild(game).Failure? ==> TryBuild(game).error in EvaluationOrder && Raises(game, TryBuild(game).error)
    ensures TryBuild(game).Failure? ==>
              forall k :: 0 <= k < |EvaluationOrder| && EvaluationOrder[k] == TryBuild(game).error ==>
                forall j :: 0 <= j < k ==> !Raises(game, EvaluationOrder[j])
  {
  }

  /** A six-token section is well formed exactly when none of the causes of
      `IndexError` holds for it. */
  lemma {:induction false} WellFormedIffNoCause(game: seq<string>)
    ensures WellFormed(game) <==> forall k :: 0 <= k < |EvaluationOrder| ==> !Raises(game, EvaluationOrder[k])
  {
    if !WellFormed(game) {
      TryBuildFirstCause(game);
      assert TryBuild(game).Failure?;
    }
  }

  /** `content[1:7]`: the text nodes after the first, at most six of them. */
  function MatchTokens(content: seq<string>): (game: seq<string>)
    ensures |game| == if |content| <= 1 then 0 else if |content| >= 7 then 6 else |content| - 1
    ensures forall i :: 0 <= i < |game| ==> game[i] == content[i + 1]
  {
    if |content| <= 1 then []
    else if |content| >= 7 then content[1..7]
    else content[1..]
  }

  /** The loop of `Team.get_matches`, given the text nodes of every match
      section in page order: one record per section, or the first section's
      error (the exception aborts the whole history, so no partial list). */
  function BuildAll(sections: seq<seq<string>>): (r: Result<seq<MatchRecord>, PageError>)
    ensures r.Success? <==> forall i :: 0 <= i < |sections| ==> WellFormed(MatchTokens(sections[i]))
    ensures r.Success? ==> |r.value| == |sections|
    ensures r.Success? ==> forall i :: 0 <= i < |sections| ==>
              r.value[i] == BuildGameDict(MatchTokens(sections[i]))
    ensures r.Failure? ==> r.error.section < |sections|
    ensures r.Failure? ==> TryBuild(MatchTokens(sections[r.error.section])) == Failure(r.error.error)
    ensures r.Failure? ==> forall j :: 0 <= j < r.error.section ==> WellFormed(MatchTokens(sections[j]))
  {
    if |sections| == 0 then Success([])
    else
      match TryBuild(MatchTokens(sections[0]))
      case Failure(e) => Failure(PageError(0, e))
      case Success(record) =>
        var rest := sections[1..];
        assert forall i :: 0 <= i < |rest| ==> rest[i] == sections[i + 1];
        match BuildAll(rest)
        case Failure(PageError(i, e)) => Failure(PageError(i + 1, e))
        case Success(records) => Success([record] + records)
  }

  /** Position of the first occurrence of `c` in `s`. */
  function IndexOf(s: string, c: char): (k: Option<nat>)
    ensures k.Some? ==> k.value < |s| && s[k.value] == c
    ensures k.Some? ==> forall j :: 0 <= j < k.value ==> s[j] != c
    ensures k.None? ==> c !in s
  {
    if |s| == 0 then None
    else if s[0] == c then Some(0)
    else match IndexOf(s[1..], c)
      case None => None
      case Some(k) => Some(k + 1)
  }

  /** The two rounds counts of a score, split at its first dash. */
  function ScoreRounds(score: string): Option<(string, string)> {
    match IndexOf(score, '-')
    case None => None
    case Some(k) => Some((score[..k], score[k + 1..]))
  }

  /** Re-extracting the six tokens from a record: date, "name rounds" twice
      (normalised), map, event and result. */
  function Tokens(r: MatchRecord): Option<seq<string>> {
    match ScoreRounds(r.score)
    case None => None
    case Some((teamRounds, opponentRounds)) =>
      Some([r.date,
            Normalize(r.team + " " + teamRounds),
            Normalize(r.opponent + " " + opponentRounds),
            r.mapName, r.event, r.result])
  }

  /** The six tokens with the whitespace of tokens 1 and 2 normalised. */
  function Canonical(game: seq<string>): seq<string>
    requires |game| >= 6
  {
    [game[0], Normalize(game[1]), Normalize(game[2]), game[3], game[4], game[5]]
  }

  /** Building a record and re-extracting its tokens gives back the six
      original tokens, the name/rounds split undone by rejoining. The team's
      rounds count must not contain a dash, or the score is ambiguous. */
  lemma BuildRoundTrip(game: seq<string>)
    requires WellFormed(game)
    requires '-' !in LastSegment(game[1])
    ensures Tokens(BuildGameDict(game)) == Some(Canonical(game))
  {
    var r := BuildGameDict(game);
    var t := LastSegment(game[1]);
    var o := LastSegment(game[2]);
    ScoreSplit(t, o);
    assert ScoreRounds(r.score) == Some((t, o));
    TokenRoundTrip(game[1]);
    TokenRoundTrip(game[2]);
    assert Normalize(r.team + " " + t) == Normalize(game[1]);
    assert Normalize(r.opponent + " " + o) == Normalize(game[2]);
  }

  /** A score whose first count has no dash splits back into its two counts. */
  lemma ScoreSplit(teamRounds: string, opponentRounds: string)
    requires '-' !in teamRounds
    ensures ScoreRounds(teamRounds + "-" + opponentRounds) == Some((teamRounds, opponentRounds))
  {
    var score := teamRounds + "-" + opponentRounds;
    assert score[|teamRounds|] == '-';
    assert forall j :: 0 <= j < |teamRounds| ==> score[j] == teamRounds[j];
    assert IndexOf(score, '-') == Some(|teamRounds|);
    assert score[..|teamRounds|] == teamRounds;
    assert score[|teamRounds| + 1..] == opponentRounds;
  }

  /** Rejoining a token's name and last segment gives the token back up to
      whitespace. */
  lemma TokenRoundTrip(token: string)
    requires !AllSpace(token)
    ensures Normalize(SplitLast(token).value.name + " " + LastSegment(token)) == Normalize(token)
  {
    SplitLastSpec(token);
  }

  /** Tokens whose names are already single-spaced are their own canonical form. */
  lemma CanonicalOfNormalized(game: seq<string>)
    requires |game| >= 6
    requires Normalize(game[1]) == game[1] && Normalize(game[2]) == game[2]
    ensures Canonical(game) == game[..6]
  {
    var c := Canonical(game);
    assert forall i :: 0 <= i < 6 ==> c[i] == game[i];
  }

  /** On tokens whose names are already single-spaced, the round trip is exact. */
  lemma BuildRoundTripExact(game: seq<string>)
    requires WellFormed(game)
    requires '-' !in LastSegment(game[1])
    requires Normalize(game[1]) == game[1] && Normalize(game[2]) == game[2]
    ensures Tokens(BuildGameDict(game)) == Some(game[..6])
  {
    BuildRoundTrip(game);
    CanonicalOfNormalized(game);
  }

  /** A match between two one-word teams builds the record one reads off the
      tokens: names as given, score "<rounds>-<rounds>", the rest copied. */
  lemma OneWordTeams(date: string, team: string, teamRounds: string, opponent: string,
                     opponentRounds: string, mapName: string, event: string, result: string)
    requires IsWord(team) && IsWord(teamRounds) && IsWord(opponent) && IsWord(opponentRounds)
    ensures TryBuild([date, team + " " + teamRounds, opponent + " " + opponentRounds, mapName, event, result])
            == Success(MatchRecord(date, team, opponent, teamRounds + "-" + opponentRounds, mapName, event, result))
  {
    SplitTwoWords(team, teamRounds);
    SplitTwoWords(opponent, opponentRounds);
    JoinPair(teamRounds, opponentRounds, "-");
  }

}
