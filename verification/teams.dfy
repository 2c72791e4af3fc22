/**
 The per-line logic of reading the team list: each line of the file holds a
 team name followed by the site's id for that team; blank lines are skipped.
 Opening and iterating the file is left to the caller, who passes its lines
 (each with its trailing newline, as Python's file iteration yields them).
 */
module Teams {
  import opened Wrappers
  import opened Text

  /** A team as the selection menus and the fetcher see it. */
  datatype Team = Team(name: string, id: string)

  /** What one line of the team list yields: nothing (a blank line), a team,
      or no team because the line holds no id (`split()[-1]` raises). */
  datatype TeamLine = Blank | Entry(team: Team) | NoId

  /** A team from a line's text once the line ending is gone: the id is the
      last whitespace segment, the name the segments before it. */
  function TeamFromData(data: string): (p: TeamLine)
    ensures !p.Blank?
    ensures p.NoId? <==> AllSpace(data)
    ensures p.Entry? ==> IsWord(p.team.id)
  {
    if AllSpace(data) then NoId
    else
      var p := SplitLast(data).value;
      Entry(Team(p.name, p.last))
  }

  /** The team read from text with a segment: the name splits into all the
      segments but the last and is single-spaced, and name, space and id split
      back into the text's segments, so the id is the last one. */
  lemma TeamFromDataSpec(data: string)
    requires !AllSpace(data)
    ensures TeamFromData(data).Entry?
    ensures Split(TeamFromData(data).team.name) == Split(data)[..|Split(data)| - 1]
    ensures Normalize(TeamFromData(data).team.name) == TeamFromData(data).team.name
    ensures Split(TeamFromData(data).team.name + " " + TeamFromData(data).team.id) == Split(data)
  {
    SplitLastSpec(data);
  }

  /** The body of the loop in `get_teams`, as written: a line starting with a
      newline is skipped; otherwise its last character is dropped, whatever it
      is, and the rest is read as "name id". */
  function ParseTeamLine(line: string): (p: TeamLine)
    requires |line| > 0
    ensures p.Blank? <==> line[0] == '\n'
    ensures p.NoId? <==> line[0] != '\n' && AllSpace(line[..|line| - 1])
    ensures p.Entry? ==> IsWord(p.team.id)
  {
    if line[0] == '\n' then Blank else TeamFromData(line[..|line| - 1])
  }

  /** A line as written that holds a team: its id is the last segment of the
      line without its final character, and its name is the segments before,
      single-spaced. */
  lemma ParseTeamLineFields(line: string)
    requires |line| > 0 && line[0] != '\n' && !AllSpace(line[..|line| - 1])
    ensures ParseTeamLine(line).Entry?
    ensures Split(ParseTeamLine(line).team.name) == Split(line[..|line| - 1])[..|Split(line[..|line| - 1])| - 1]
    ensures Normalize(ParseTeamLine(line).team.name) == ParseTeamLine(line).team.name
    ensures Split(ParseTeamLine(line).team.name + " " + ParseTeamLine(line).team.id)
            == Split(line[..|line| - 1])
  {
    TeamFromDataSpec(line[..|line| - 1]);
  }

  /** The line without its line ending: the final newline if there is one. */
  function Chomp(line: string): (data: string)
    ensures line == data || line == data + "\n"
  {
    if |line| > 0 && line[|line| - 1] == '\n' then line[..|line| - 1] else line
  }

  /** The loop body with the line ending removed only when present, so that a
      last line without a newline keeps its final character. */
  function ParseTeamLineChomped(line: string): (p: TeamLine)
    requires |line| > 0
    ensures p.Blank? <==> line[0] == '\n'
    ensures p.NoId? <==> line[0] != '\n' && AllSpace(Chomp(line))
    ensures p.Entry? ==> IsWord(p.team.id)
  {
    if line[0] == '\n' then Blank else TeamFromData(Chomp(line))
  }

  /** On every line that ends in a newline the two readings agree. */
  lemma ChompedAgrees(line: string)
    requires |line| > 0 && line[|line| - 1] == '\n'
    ensures ParseTeamLineChomped(line) == ParseTeamLine(line)
  {
  }

  /** With the line ending removed only when present, a file whose last line
      lacks its newline reads the same as one that has it. */
  lemma ChompedIgnoresMissingNewline(line: string)
    requires |line| > 0 && line[|line| - 1] != '\n'
    ensures ParseTeamLineChomped(line + "\n") == ParseTeamLineChomped(line)
  {
    assert (line + "\n")[0] == line[0];
    assert (line + "\n")[..|line|] == line;
  }

  /** "name id" with a one-word name reads as exactly that team. */
  lemma TeamFromTwoWords(name: string, id: string)
    requires IsWord(name) && IsWord(id)
    ensures TeamFromData(name + " " + id) == Entry(Team(name, id))
  {
    SplitTwoWords(name, id);
  }

  /** Dropping the last character of `a + b`, `b` non-empty, drops it from `b`. */
  lemma DropLastOfConcat(a: string, b: string)
    requires |b| > 0
    ensures (a + b)[..|a + b| - 1] == a + b[..|b| - 1]
  {
  }

  /** As written, a last line "name id" without its newline loses the id's
      final character: "Astralis 6665" reads as id "666". */
  lemma LastLineLosesCharacter(name: string, id: string)
    requires IsWord(name) && IsWord(id) && |id| >= 2
    ensures ParseTeamLine(name + " " + id) == Entry(Team(name, id[..|id| - 1]))
    ensures ParseTeamLineChomped(name + " " + id) == Entry(Team(name, id))
  {
    var line := name + " " + id;
    var shortId := id[..|id| - 1];
    assert line[0] == name[0];
    assert ParseTeamLine(line) == TeamFromData(line[..|line| - 1]);
    DropLastOfConcat(name + " ", id);
    assert line[..|line| - 1] == name + " " + shortId;
    assert IsWord(shortId);
    TeamFromTwoWords(name, shortId);
    assert line[|line| - 1] == id[|id| - 1];
    assert ParseTeamLineChomped(line) == TeamFromData(line);
    TeamFromTwoWords(name, id);
  }

  /** How a line's ending is removed before the line is read: `AsWritten`
      drops the last character whatever it is, as `get_teams` does;
      `Chomped` drops only a trailing newline. */
  datatype Reading = AsWritten | Chomped

  /** The loop body of `get_teams` under the given reading. */
  function ReadLine(reading: Reading, line: string): (p: TeamLine)
    requires |line| > 0
    ensures p.Blank? <==> line[0] == '\n'
    ensures p.NoId? <==> MissingId(reading, line)
    ensures p.Entry? ==> IsWord(p.team.id)
  {
    match reading
    case AsWritten => ParseTeamLine(line)
    case Chomped => ParseTeamLineChomped(line)
  }

  /** The text a non-blank line is read from under the given reading. */
  function LineData(reading: Reading, line: string): (data: string)
    requires |line| > 0
    ensures line == data || (|line| == |data| + 1 && data == line[..|data|])
  {
    match reading
    case AsWritten => line[..|line| - 1]
    case Chomped => Chomp(line)
  }

  /** A non-blank line that holds no id: reading it raises. */
  predicate MissingId(reading: Reading, line: string)
    requires |line| > 0
  {
    line[0] != '\n' && AllSpace(LineData(reading, line))
  }

  /** Number of blank lines (lines starting with a newline). */
  function BlankLines(lines: seq<string>): nat
    requires forall i :: 0 <= i < |lines| ==> |lines[i]| > 0
  {
    if |lines| == 0 then 0
    else (if lines[0][0] == '\n' then 1 else 0) + BlankLines(lines[1..])
  }

  /** The lines that are not skipped, in file order. */
  function NonBlank(lines: seq<string>): (kept: seq<string>)
    requires forall i :: 0 <= i < |lines| ==> |lines[i]| > 0
    ensures forall k :: 0 <= k < |kept| ==> |kept[k]| > 0 && kept[k][0] != '\n'
    ensures |kept| + BlankLines(lines) == |lines|
  {
    if |lines| == 0 then []
    else
      var rest := lines[1..];
      assert forall i :: 0 <= i < |rest| ==> rest[i] == lines[i + 1];
      if lines[0][0] == '\n' then NonBlank(rest) else [lines[0]] + NonBlank(rest)
  }

  /** `get_teams` over the lines of the file: one team per non-blank line, in
      file order, or the index of the first line without an id (the exception
      ends the whole read). */
  function TeamList(reading: Reading, lines: seq<string>): (r: Result<seq<Team>, nat>)
    requires forall i :: 0 <= i < |lines| ==> |lines[i]| > 0
    ensures r.Success? <==> forall i :: 0 <= i < |lines| ==> !MissingId(reading, lines[i])
    ensures r.Success? ==> forall k :: 0 <= k < |r.value| ==> IsWord(r.value[k].id)
    ensures r.Failure? ==> r.error < |lines| && MissingId(reading, lines[r.error])
    ensures r.Failure? ==> forall j :: 0 <= j < r.error ==> !MissingId(reading, lines[j])
  {
    if |lines| == 0 then Success([])
    else
      if MissingId(reading, lines[0]) then Failure(0)
      else
        var rest := lines[1..];
        assert forall i :: 0 <= i < |rest| ==> rest[i] == lines[i + 1];
        match TeamList(reading, rest)
        case Failure(i) => Failure(i + 1)
        case Success(teams) =>
          var first := ReadLine(reading, lines[0]);
          Success(if first.Entry? then [first.team] + teams else teams)
  }

  /** Every non-blank line of a successfully read file gives exactly one team. */
  lemma {:induction false} TeamListCount(reading: Reading, lines: seq<string>)
    requires forall i :: 0 <= i < |lines| ==> |lines[i]| > 0
    requires TeamList(reading, lines).Success?
    ensures |TeamList(reading, lines).value| + BlankLines(lines) == |lines|
  {
    if |lines| > 0 {
      TeamListCount(reading, lines[1..]);
    }
  }

  /** Every line read on its own, in order. */
  function ReadEach(reading: Reading, lines: seq<string>): (parsed: seq<TeamLine>)
    requires forall i :: 0 <= i < |lines| ==> |lines[i]| > 0
    ensures |parsed| == |lines|
  {
    if |lines| == 0 then [] else [ReadLine(reading, lines[0])] + ReadEach(reading, lines[1..])
  }

  /** The teams, each as the entry a line holding it reads as. */
  function Entries(teams: seq<Team>): (parsed: seq<TeamLine>)
    ensures |parsed| == |teams|
  {
    if |teams| == 0 then [] else [Entry(teams[0])] + Entries(teams[1..])
  }

  /** The teams of a successful read are the non-blank lines, each read on
      its own, in file order: the k-th team is the entry of the k-th
      non-blank line. */
  lemma {:induction false} TeamListContents(reading: Reading, lines: seq<string>)
    requires forall i :: 0 <= i < |lines| ==> |lines[i]| > 0
    requires TeamList(reading, lines).Success?
    ensures ReadEach(reading, NonBlank(lines)) == Entries(TeamList(reading, lines).value)
  {
    if |lines| > 0 {
      var rest := lines[1..];
      assert forall i :: 0 <= i < |rest| ==> rest[i] == lines[i + 1];
      TeamListContents(reading, rest);
      var teams := TeamList(reading, rest).value;
      var kept := NonBlank(rest);
      var first := ReadLine(reading, lines[0]);
      if lines[0][0] != '\n' {
        assert !MissingId(reading, lines[0]);
        assert first.Entry?;
        assert TeamList(reading, lines).value == [first.team] + teams;
        assert NonBlank(lines) == [lines[0]] + kept;
        assert ([lines[0]] + kept)[0] == lines[0] && ([lines[0]] + kept)[1..] == kept;
        assert ([first.team] + teams)[0] == first.team && ([first.team] + teams)[1..] == teams;
      } else {
        assert first.Blank?;
        assert TeamList(reading, lines).value == teams;
        assert NonBlank(lines) == kept;
      }
    }
  }

  /** The k-th element of `ReadEach` is the k-th line read on its own. */
  lemma {:induction false} ReadEachAt(reading: Reading, lines: seq<string>, k: nat)
    requires forall i :: 0 <= i < |lines| ==> |lines[i]| > 0
    requires k < |lines|
    ensures ReadEach(reading, lines)[k] == ReadLine(reading, lines[k])
  {
    if k > 0 {
      var rest := lines[1..];
      assert forall i :: 0 <= i < |rest| ==> rest[i] == lines[i + 1];
      ReadEachAt(reading, rest, k - 1);
    }
  }

  /** The k-th element of `Entries` is the entry of the k-th team. */
  lemma {:induction false} EntriesAt(teams: seq<Team>, k: nat)
    requires k < |teams|
    ensures Entries(teams)[k] == Entry(teams[k])
  {
    if k > 0 {
      EntriesAt(teams[1..], k - 1);
    }
  }

  /** The k-th team of a successful read is the team the k-th non-blank
      line holds, and there are as many teams as non-blank lines. */
  lemma TeamListAt(reading: Reading, lines: seq<string>, k: nat)
    requires forall i :: 0 <= i < |lines| ==> |lines[i]| > 0
    requires TeamList(reading, lines).Success?
    requires k < |NonBlank(lines)|
    ensures |TeamList(reading, lines).value| == |NonBlank(lines)|
    ensures ReadLine(reading, NonBlank(lines)[k]) == Entry(TeamList(reading, lines).value[k])
  {
    TeamListContents(reading, lines);
    ReadEachAt(reading, NonBlank(lines), k);
    EntriesAt(TeamList(reading, lines).value, k);
  }

  /** On a file whose every line ends in a newline the two readings give
      the same teams, or fail at the same line. */
  lemma {:induction false} TeamListAgrees(lines: seq<string>)
    requires forall i :: 0 <= i < |lines| ==> |lines[i]| > 0 && lines[i][|lines[i]| - 1] == '\n'
    ensures TeamList(AsWritten, lines) == TeamList(Chomped, lines)
  {
    if |lines| > 0 {
      var rest := lines[1..];
      assert forall i :: 0 <= i < |rest| ==> rest[i] == lines[i + 1];
      TeamListAgrees(rest);
      var line := lines[0];
      assert line[|line| - 1] == '\n';
      assert LineData(AsWritten, line) == LineData(Chomped, line);
      assert MissingId(AsWritten, line) == MissingId(Chomped, line);
      ChompedAgrees(line);
      assert ReadLine(AsWritten, line) == ReadLine(Chomped, line);
    }
  }

  /** As written, a file whose only line "name id" lacks its newline yields
      the id minus its final character; the chomped reading keeps it. */
  lemma LastLineListLosesCharacter(name: string, id: string)
    requires IsWord(name) && IsWord(id) && |id| >= 2
    ensures TeamList(AsWritten, [name + " " + id]) == Success([Team(name, id[..|id| - 1])])
    ensures TeamList(Chomped, [name + " " + id]) == Success([Team(name, id)])
  {
    var line := name + " " + id;
    LastLineLosesCharacter(name, id);
    assert [line][0] == line && [line][1..] == [];
    assert TeamList(AsWritten, [line][1..]) == Success([]);
    assert TeamList(Chomped, [line][1..]) == Success([]);
    assert ReadLine(AsWritten, line) == Entry(Team(name, id[..|id| - 1]));
    assert ReadLine(Chomped, line) == Entry(Team(name, id));
    assert !MissingId(AsWritten, line) && !MissingId(Chomped, line);
    assert [Team(name, id[..|id| - 1])] + [] == [Team(name, id[..|id| - 1])];
    assert [Team(name, id)] + [] == [Team(name, id)];
  }

  /** As written, a last line of a space and one character, without its
      newline, holds no id and ends the read; the chomped reading gives a
      team with an empty name. */
  lemma SpaceThenCharacter(c: char)
    requires !IsSpace(c)
    ensures TeamList(AsWritten, [[' ', c]]) == Failure(0)
    ensures TeamList(Chomped, [[' ', c]]) == Success([Team("", [c])])
  {
    var line := [' ', c];
    assert line[..|line| - 1] == [' '];
    assert AllSpace([' ']);
    assert Chomp(line) == line;
    assert line == [' '] + [c];
    SplitLeadingSpace(' ', [c]);
    SplitWordThen([c], "");
    assert [c] + "" == [c];
    assert Split(line) == [[c]];
    assert [[c]][..0] == [];
    assert ParseTeamLineChomped(line) == Entry(Team("", [c]));
    assert [line][0] == line && [line][1..] == [];
    assert TeamList(Chomped, [line][1..]) == Success([]);
    assert !MissingId(Chomped, line);
    assert [Team("", [c])] + [] == [Team("", [c])];
  }
}
