/**
 The statistics over one team's match history: the three win/loss tallies
 (by map, by opponent, by opponent and map), the listing of the individual
 opponent-and-map results, and the win percentage, which is undefined on an
 empty sample.
 */
module Stats {
  import opened Wrappers
  import opened Records

  /** Which records a tally looks at. Names are compared literally: a map
      called "ALL" is just another map name. */
  datatype Query =
    | OnMap(mapName: string)
    | Against(opponent: string)
    | AgainstOnMap(opponent: string, mapName: string)

  predicate Matches(q: Query, r: MatchRecord) {
    match q
    case OnMap(m) => r.mapName == m
    case Against(o) => r.opponent == o
    case AgainstOnMap(o, m) => r.opponent == o && r.mapName == m
  }

  /** Only the exact result "W" is a win; every other result is a loss. */
  predicate IsWin(r: MatchRecord) {
    r.result == "W"
  }

  /** Number of wins among `rs`. */
  function Wins(rs: seq<MatchRecord>): nat {
    if |rs| == 0 then 0 else (if IsWin(rs[0]) then 1 else 0) + Wins(rs[1..])
  }

  /** Number of losses among `rs`. */
  function Losses(rs: seq<MatchRecord>): nat {
    if |rs| == 0 then 0 else (if IsWin(rs[0]) then 0 else 1) + Losses(rs[1..])
  }

  /** `a` is an order-preserving subsequence of `b`. */
  predicate IsSubsequence(a: seq<MatchRecord>, b: seq<MatchRecord>) {
    if |a| == 0 then true
    else if |b| == 0 then false
    else if a[0] == b[0] then IsSubsequence(a[1..], b[1..])
    else IsSubsequence(a, b[1..])
  }

  /** The records of `rs` that the query selects, in their original order. */
  function Select(rs: seq<MatchRecord>, q: Query): (s: seq<MatchRecord>)
    ensures IsSubsequence(s, rs)
    ensures forall i :: 0 <= i < |s| ==> Matches(q, s[i])
  {
    if |rs| == 0 then []
    else
      assert rs == [rs[0]] + rs[1..];
      if Matches(q, rs[0]) then [rs[0]] + Select(rs[1..], q) else Select(rs[1..], q)
  }

  /** A win percentage `num / den` percent, kept exact instead of as a float. */
  datatype Fraction = Fraction(num: nat, den: nat)

  /** `100 * wins / (wins + losses)`, defined only on a non-empty sample
      (the Python code divides unconditionally and raises on an empty one). */
  function Percentage(wins: nat, losses: nat): (p: Option<Fraction>)
    ensures p.Some? <==> wins + losses > 0
    ensures p.Some? ==> p.value.den > 0 && p.value.num * (wins + losses) == 100 * wins * p.value.den
    ensures p.Some? ==> p.value.num <= 100 * p.value.den
    ensures p.Some? ==> (p.value.num == 0 <==> wins == 0)
    ensures p.Some? ==> (p.value.num == 100 * p.value.den <==> losses == 0)
  {
    if wins + losses == 0 then None else Some(Fraction(100 * wins, wins + losses))
  }

  /** What one of the `print_..._win_ratio` methods reports. */
  datatype Report = Report(wins: nat, losses: nat, percentage: Option<Fraction>)

  /** The counting loop shared by the three tallies: every selected record
      is a win if its result is "W" and a loss otherwise. */
  method Tally(history: seq<MatchRecord>, q: Query) returns (wins: nat, losses: nat)
    ensures wins == Wins(Select(history, q))
    ensures losses == Losses(Select(history, q))
    ensures wins + losses == |Select(history, q)|
  {
    wins, losses := 0, 0;
    var i := 0;
    while i < |history|
      invariant 0 <= i <= |history|
      invariant wins == Wins(Select(history[..i], q))
      invariant losses == Losses(Select(history[..i], q))
    {
      var r := history[i];
      ghost var before := Select(history[..i], q);
      SelectSnoc(history[..i], r, q);
      assert history[..i + 1] == history[..i] + [r];
      assert [r][1..] == [];
      if Matches(q, r) {
        assert Select(history[..i + 1], q) == before + [r];
        WinsAppend(before, [r]);
        LossesAppend(before, [r]);
        if IsWin(r) {
          wins := wins + 1;
        } else {
          losses := losses + 1;
        }
      } else {
        assert Select(history[..i + 1], q) == before;
      }
      i := i + 1;
    }
    assert history[..i] == history;
    WinsPlusLosses(Select(history, q));
  }

  /** The report of a tally: its counts and the percentage when defined. */
  method TallyReport(history: seq<MatchRecord>, q: Query) returns (rep: Report)
    ensures rep.wins == Wins(Select(history, q)) && rep.losses == Losses(Select(history, q))
    ensures rep.percentage.None? <==> forall i :: 0 <= i < |history| ==> !Matches(q, history[i])
    ensures rep.percentage.Some? ==> rep.percentage.value.num <= 100 * rep.percentage.value.den
    ensures rep.percentage == Percentage(rep.wins, rep.losses)
  {
    var wins, losses := Tally(history, q);
    NoDataIffNoMatch(history, q);
    rep := Report(wins, losses, Percentage(wins, losses));
  }

  /** `print_map_win_ratio`: wins and losses on one map, any opponent. */
  method MapWinRatio(history: seq<MatchRecord>, mapName: string) returns (rep: Report)
    ensures rep.wins + rep.losses == |Select(history, OnMap(mapName))|
    ensures rep.wins == Wins(Select(history, OnMap(mapName)))
    ensures rep.percentage.None? <==> forall i :: 0 <= i < |history| ==> history[i].mapName != mapName
    ensures rep.losses == Losses(Select(history, OnMap(mapName)))
    ensures rep.percentage == Percentage(rep.wins, rep.losses)
  {
    rep := TallyReport(history, OnMap(mapName));
    WinsPlusLosses(Select(history, OnMap(mapName)));
  }

  /** `print_against_opponent_win_ratio`: wins and losses against one opponent, any map. */
  method OpponentWinRatio(history: seq<MatchRecord>, opponent: string) returns (rep: Report)
    ensures rep.wins + rep.losses == |Select(history, Against(opponent))|
    ensures rep.wins == Wins(Select(history, Against(opponent)))
    ensures rep.percentage.None? <==> forall i :: 0 <= i < |history| ==> history[i].opponent != opponent
    ensures rep.losses == Losses(Select(history, Against(opponent)))
    ensures rep.percentage == Percentage(rep.wins, rep.losses)
  {
    rep := TallyReport(history, Against(opponent));
    WinsPlusLosses(Select(history, Against(opponent)));
  }

  /** `print_against_opponent_win_ratio_on_map`: wins and losses against one
      opponent on one map. */
  method OpponentOnMapWinRatio(history: seq<MatchRecord>, opponent: string, mapName: string)
    returns (rep: Report)
    ensures rep.wins + rep.losses == |Select(history, AgainstOnMap(opponent, mapName))|
    ensures rep.wins == Wins(Select(history, AgainstOnMap(opponent, mapName)))
    ensures rep.percentage.None? <==>
              forall i :: 0 <= i < |history| ==>
                history[i].opponent != opponent || history[i].mapName != mapName
    ensures rep.losses == Losses(Select(history, AgainstOnMap(opponent, mapName)))
    ensures rep.percentage == Percentage(rep.wins, rep.losses)
  {
    rep := TallyReport(history, AgainstOnMap(opponent, mapName));
    WinsPlusLosses(Select(history, AgainstOnMap(opponent, mapName)));
  }

  /** `print_map_individual_results`: every record against the opponent on
      the map, in history order, one per printed line. */
  method IndividualResults(history: seq<MatchRecord>, opponent: string, mapName: string)
    returns (listing: seq<MatchRecord>)
    ensures IsSubsequence(listing, history)
    ensures forall i :: 0 <= i < |listing| ==>
              listing[i].opponent == opponent && listing[i].mapName == mapName
    ensures listing == Select(history, AgainstOnMap(opponent, mapName))
  {
    var q := AgainstOnMap(opponent, mapName);
    listing := [];
    var i := 0;
    while i < |history|
      invariant 0 <= i <= |history|
      invariant listing == Select(history[..i], q)
    {
      SelectSnoc(history[..i], history[i], q);
      assert history[..i + 1] == history[..i] + [history[i]];
      if history[i].opponent == opponent && history[i].mapName == mapName {
        listing := listing + [history[i]];
      } else {
        assert Select(history[..i] + [history[i]], q) == Select(history[..i], q) + [];
      }
      i := i + 1;
    }
    assert history[..i] == history;
  }

  /** Every record is either a win or a loss, never both. */
  lemma {:induction false} WinsPlusLosses(rs: seq<MatchRecord>)
    ensures Wins(rs) + Losses(rs) == |rs|
  {
    if |rs| > 0 {
      WinsPlusLosses(rs[1..]);
    }
  }

  lemma {:induction false} WinsAppend(a: seq<MatchRecord>, b: seq<MatchRecord>)
    ensures Wins(a + b) == Wins(a) + Wins(b)
  {
    if |a| == 0 {
      assert a + b == b;
    } else {
      assert (a + b)[1..] == a[1..] + b;
      WinsAppend(a[1..], b);
    }
  }

  lemma {:induction false} LossesAppend(a: seq<MatchRecord>, b: seq<MatchRecord>)
    ensures Losses(a + b) == Losses(a) + Losses(b)
  {
    if |a| == 0 {
      assert a + b == b;
    } else {
      assert (a + b)[1..] == a[1..] + b;
      LossesAppend(a[1..], b);
    }
  }

  /** Selecting from a history extended by one record extends the selection
      by that record exactly when the query matches it. */
  lemma {:induction false} SelectSnoc(rs: seq<MatchRecord>, r: MatchRecord, q: Query)
    ensures Select(rs + [r], q) == Select(rs, q) + (if Matches(q, r) then [r] else [])
  {
    if |rs| == 0 {
      assert rs + [r] == [r];
      assert [r][1..] == [];
    } else {
      assert (rs + [r])[1..] == rs[1..] + [r];
      SelectSnoc(rs[1..], r, q);
    }
  }

  /** The selection keeps every matching record as often as the history
      holds it, and nothing else. */
  lemma {:induction false} SelectContents(rs: seq<MatchRecord>, q: Query)
    ensures forall r :: multiset(Select(rs, q))[r] == if Matches(q, r) then multiset(rs)[r] else 0
  {
    if |rs| > 0 {
      SelectContents(rs[1..], q);
      assert rs == [rs[0]] + rs[1..];
    }
  }

  /** A tally has no data exactly when no record passes its filter. */
  lemma {:induction false} NoDataIffNoMatch(rs: seq<MatchRecord>, q: Query)
    ensures |Select(rs, q)| == 0 <==> forall i :: 0 <= i < |rs| ==> !Matches(q, rs[i])
  {
    if |rs| > 0 {
      NoDataIffNoMatch(rs[1..], q);
      if !Matches(q, rs[0]) {
        forall i | 0 <= i < |rs| && i > 0 ensures rs[i] == rs[1..][i - 1] { }
      }
    }
  }

  /** The opponent-and-map filter is the opponent filter followed by the map
      filter, and also the map filter followed by the opponent filter. */
  lemma {:induction false} SelectBoth(rs: seq<MatchRecord>, opponent: string, mapName: string)
    ensures Select(rs, AgainstOnMap(opponent, mapName))
            == Select(Select(rs, Against(opponent)), OnMap(mapName))
    ensures Select(rs, AgainstOnMap(opponent, mapName))
            == Select(Select(rs, OnMap(mapName)), Against(opponent))
  {
    if |rs| > 0 {
      SelectBoth(rs[1..], opponent, mapName);
    }
  }

  /** Filtering never adds wins or losses. */
  lemma {:induction false} SelectCounts(rs: seq<MatchRecord>, q: Query)
    ensures Wins(Select(rs, q)) <= Wins(rs)
    ensures Losses(Select(rs, q)) <= Losses(rs)
  {
    if |rs| > 0 {
      SelectCounts(rs[1..], q);
    }
  }

  /** The opponent-on-map tally is bounded by both single tallies, for wins
      and for losses separately. */
  lemma {:induction false} ConjunctionBounds(rs: seq<MatchRecord>, opponent: string, mapName: string)
    ensures Wins(Select(rs, AgainstOnMap(opponent, mapName))) <= Wins(Select(rs, Against(opponent)))
    ensures Wins(Select(rs, AgainstOnMap(opponent, mapName))) <= Wins(Select(rs, OnMap(mapName)))
    ensures Losses(Select(rs, AgainstOnMap(opponent, mapName))) <= Losses(Select(rs, Against(opponent)))
    ensures Losses(Select(rs, AgainstOnMap(opponent, mapName))) <= Losses(Select(rs, OnMap(mapName)))
  {
    SelectBoth(rs, opponent, mapName);
    SelectCounts(Select(rs, Against(opponent)), OnMap(mapName));
    SelectCounts(Select(rs, OnMap(mapName)), Against(opponent));
  }

  /** The map name "ALL" offered by the map menu is compared literally: unless
      some record was played on a map called "ALL", the map tally for it is
      empty and its percentage undefined. */
  lemma {:induction false} AllIsLiteral(rs: seq<MatchRecord>)
    requires forall i :: 0 <= i < |rs| ==> rs[i].mapName != "ALL"
    ensures Select(rs, OnMap("ALL")) == []
    ensures Percentage(Wins(Select(rs, OnMap("ALL"))), Losses(Select(rs, OnMap("ALL")))).None?
  {
    NoDataIffNoMatch(rs, OnMap("ALL"));
  }

  /** A win and a loss against the same opponent on the same map give one win,
      one loss and a percentage of 100/2, fifty percent. */
  lemma OneWinOneLoss(won: MatchRecord, lost: MatchRecord)
    requires won.opponent == lost.opponent && won.mapName == lost.mapName
    requires IsWin(won) && !IsWin(lost)
    ensures Wins(Select([won, lost], AgainstOnMap(won.opponent, won.mapName))) == 1
    ensures Losses(Select([won, lost], AgainstOnMap(won.opponent, won.mapName))) == 1
    ensures Percentage(Wins(Select([won, lost], AgainstOnMap(won.opponent, won.mapName))),
                       Losses(Select([won, lost], AgainstOnMap(won.opponent, won.mapName))))
            == Some(Fraction(100, 2))
  {
    var q := AgainstOnMap(won.opponent, won.mapName);
    assert [won, lost][1..] == [lost];
    assert Select([won, lost], q) == [won, lost];
    assert [won, lost][1..][1..] == [];
    assert Wins([lost]) == 0 && Losses([lost]) == 1;
  }
}
