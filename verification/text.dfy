/**
 The two string operations the scraper is built from: Python 2's `str.split()`
 with no argument (split on runs of whitespace, dropping empty pieces) and
 `sep.join(words)`. Everything else in the model is phrased in terms of them.
 */
module Text {
  import opened Wrappers

  /** Whitespace as `str.split()` understands it on a Python 2 byte string. */
  predicate IsSpace(c: char) {
    c == ' ' || c == '\t' || c == '\n' || c == '\r' || c == '\U{0B}' || c == '\U{0C}'
  }

  /** A segment `split()` can produce: non-empty and free of whitespace. */
  predicate IsWord(w: string) {
    |w| > 0 && forall i :: 0 <= i < |w| ==> !IsSpace(w[i])
  }

  /** Every character is whitespace (the empty string included). */
  predicate AllSpace(s: string) {
    forall i :: 0 <= i < |s| ==> IsSpace(s[i])
  }

  /** Length of the longest whitespace-free prefix of `s`. */
  function WordEnd(s: string): (n: nat)
    ensures n <= |s|
    ensures forall i :: 0 <= i < n ==> !IsSpace(s[i])
    ensures n < |s| ==> IsSpace(s[n])
  {
    if |s| == 0 || IsSpace(s[0]) then 0 else 1 + WordEnd(s[1..])
  }

  /** `s.split()`: the maximal whitespace-free segments of `s`, in order. */
  function Split(s: string): (ws: seq<string>)
    ensures forall i :: 0 <= i < |ws| ==> IsWord(ws[i])
    ensures |ws| == 0 <==> AllSpace(s)
    decreases |s|
  {
    if |s| == 0 then []
    else if IsSpace(s[0]) then
      var ws := Split(s[1..]);
      assert AllSpace(s[1..]) ==> AllSpace(s) by {
        if AllSpace(s[1..]) {
          forall i | 0 <= i < |s| ensures IsSpace(s[i]) {
            if i > 0 { assert s[i] == s[1..][i - 1]; }
          }
        }
      }
      ws
    else
      var n := WordEnd(s);
      [s[..n]] + Split(s[n..])
  }

  /** `sep.join(ws)`. */
  function Join(ws: seq<string>, sep: string): string {
    if |ws| == 0 then ""
    else if |ws| == 1 then ws[0]
    else ws[0] + sep + Join(ws[1..], sep)
  }

  /** The string with its whitespace normalised: `' '.join(s.split())`. */
  function Normalize(s: string): string {
    Join(Split(s), " ")
  }

  /** All characters of the segments, concatenated. */
  function Concat(ws: seq<string>): string {
    if |ws| == 0 then "" else ws[0] + Concat(ws[1..])
  }

  /** The non-whitespace characters of `s`, in order. */
  function NonSpace(s: string): string {
    if |s| == 0 then ""
    else if IsSpace(s[0]) then NonSpace(s[1..])
    else [s[0]] + NonSpace(s[1..])
  }

  /** A word followed by nothing or by whitespace is the first segment. */
  lemma {:induction false} WordEndOfWord(w: string, t: string)
    requires IsWord(w)
    requires |t| == 0 || IsSpace(t[0])
    ensures WordEnd(w + t) == |w|
    decreases |w|
  {
    if |w| == 1 {
      assert (w + t)[1..] == t;
    } else {
      assert (w + t)[1..] == w[1..] + t;
      WordEndOfWord(w[1..], t);
    }
  }

  /** Splitting a word followed by a separator peels off that word. */
  lemma SplitWordThen(w: string, t: string)
    requires IsWord(w)
    requires |t| == 0 || IsSpace(t[0])
    ensures Split(w + t) == [w] + Split(t)
  {
    WordEndOfWord(w, t);
    assert (w + t)[..|w|] == w;
    assert (w + t)[|w|..] == t;
  }

  /** Leading whitespace does not change the split. */
  lemma SplitLeadingSpace(c: char, t: string)
    requires IsSpace(c)
    ensures Split([c] + t) == Split(t)
  {
    assert ([c] + t)[1..] == t;
  }

  /** `split()` undoes `' '.join`: joining words with single spaces and
      splitting again gives back exactly the words. */
  lemma {:induction false} SplitJoin(ws: seq<string>)
    requires forall i :: 0 <= i < |ws| ==> IsWord(ws[i])
    ensures Split(Join(ws, " ")) == ws
  {
    if |ws| == 0 {
    } else if |ws| == 1 {
      SplitWordThen(ws[0], "");
      assert ws[0] + "" == ws[0];
    } else {
      var rest := Join(ws[1..], " ");
      SplitJoin(ws[1..]);
      assert ws[0] + " " + rest == ws[0] + (" " + rest);
      SplitWordThen(ws[0], " " + rest);
      SplitLeadingSpace(' ', rest);
      assert [ws[0]] + ws[1..] == ws;
    }
  }

  /** Joining a sequence extended by one word appends the separator and the word. */
  lemma {:induction false} JoinSnoc(ws: seq<string>, w: string, sep: string)
    requires |ws| > 0
    ensures Join(ws + [w], sep) == Join(ws, sep) + sep + w
  {
    if |ws| == 1 {
      assert (ws + [w])[1..] == [w];
    } else {
      assert (ws + [w])[1..] == ws[1..] + [w];
      JoinSnoc(ws[1..], w, sep);
    }
  }

  /** Joining two strings puts the separator between them. */
  lemma JoinPair(a: string, b: string, sep: string)
    ensures Join([a, b], sep) == a + sep + b
  {
    assert [a, b][1..] == [b];
  }

  /** Normalising twice is normalising once. */
  lemma NormalizeIdempotent(s: string)
    ensures Normalize(Normalize(s)) == Normalize(s)
  {
    SplitJoin(Split(s));
  }

  /** A string that is a single space-separated run of words is its own normal form. */
  lemma NormalizeJoin(ws: seq<string>)
    requires forall i :: 0 <= i < |ws| ==> IsWord(ws[i])
    ensures Normalize(Join(ws, " ")) == Join(ws, " ")
  {
    SplitJoin(ws);
  }

  lemma {:induction false} NonSpaceAppend(a: string, b: string)
    ensures NonSpace(a + b) == NonSpace(a) + NonSpace(b)
    decreases |a|
  {
    if |a| == 0 {
      assert a + b == b;
    } else {
      assert (a + b)[1..] == a[1..] + b;
      NonSpaceAppend(a[1..], b);
    }
  }

  lemma {:induction false} NonSpaceOfWord(w: string)
    requires forall i :: 0 <= i < |w| ==> !IsSpace(w[i])
    ensures NonSpace(w) == w
    decreases |w|
  {
    if |w| > 0 {
      NonSpaceOfWord(w[1..]);
      assert [w[0]] + w[1..] == w;
    }
  }

  /** `split()` loses only whitespace: the segments hold exactly the
      non-whitespace characters of the input, in their original order. */
  lemma {:induction false} SplitKeepsText(s: string)
    ensures Concat(Split(s)) == NonSpace(s)
    decreases |s|
  {
    if |s| == 0 {
    } else if IsSpace(s[0]) {
      SplitKeepsText(s[1..]);
    } else {
      var n := WordEnd(s);
      SplitKeepsText(s[n..]);
      assert s == s[..n] + s[n..];
      NonSpaceAppend(s[..n], s[n..]);
      NonSpaceOfWord(s[..n]);
    }
  }

  /** A string taken apart into a name and its last segment. */
  datatype NameAndLast = NameAndLast(name: string, last: string)

  /** The last whitespace segment of a string that has one. */
  function LastSegment(token: string): string
    requires !AllSpace(token)
  {
    var ws := Split(token);
    ws[|ws| - 1]
  }

  /** The "name followed by one more segment" grammar the scraper uses for
      both "team rounds" tokens and "team-name id" lines: the last whitespace
      segment stands alone, the segments before it, rejoined by single
      spaces, form the name. A string without any segment has no decomposition. */
  function SplitLast(token: string): (p: Option<NameAndLast>)
    ensures p.Some? <==> !AllSpace(token)
    ensures p.Some? ==> IsWord(p.value.last)
  {
    var ws := Split(token);
    if |ws| == 0 then None
    else
      var n := |ws| - 1;
      Some(NameAndLast(Join(ws[..n], " "), ws[n]))
  }

  /** What the decomposition keeps: the name splits into all segments but the
      last and is single-spaced, and name, space and last segment split back
      into the original segments. */
  lemma SplitLastSpec(token: string)
    requires !AllSpace(token)
    ensures Split(SplitLast(token).value.name) == Split(token)[..|Split(token)| - 1]
    ensures Normalize(SplitLast(token).value.name) == SplitLast(token).value.name
    ensures Split(SplitLast(token).value.name + " " + SplitLast(token).value.last) == Split(token)
  {
    RejoinSegments(Split(token));
  }

  /** Rejoining all but the last segment, then a space and the last segment,
      splits back into the original segments. */
  lemma RejoinSegments(ws: seq<string>)
    requires |ws| > 0
    requires forall i :: 0 <= i < |ws| ==> IsWord(ws[i])
    ensures Split(Join(ws[..|ws| - 1], " ")) == ws[..|ws| - 1]
    ensures Normalize(Join(ws[..|ws| - 1], " ")) == Join(ws[..|ws| - 1], " ")
    ensures Split(Join(ws[..|ws| - 1], " ") + " " + ws[|ws| - 1]) == ws
  {
    var n := |ws| - 1;
    SplitJoin(ws[..n]);
    if n == 0 {
      assert Join(ws[..n], " ") + " " + ws[n] == [' '] + ws[n];
      SplitLeadingSpace(' ', ws[n]);
      SplitWordThen(ws[n], "");
      assert ws[n] + "" == ws[n];
      assert ws == [ws[n]];
    } else {
      assert ws[..n] + [ws[n]] == ws;
      JoinSnoc(ws[..n], ws[n], " ");
      SplitJoin(ws);
    }
  }

  /** When the string has at least two segments, name, space and last
      segment give back the string with its whitespace normalised. */
  lemma SplitLastRejoin(token: string)
    requires |Split(token)| >= 2
    ensures SplitLast(token).Some?
    ensures SplitLast(token).value.name + " " + SplitLast(token).value.last
            == Normalize(token)
  {
    var ws := Split(token);
    var n := |ws| - 1;
    assert ws[..n] + [ws[n]] == ws;
    JoinSnoc(ws[..n], ws[n], " ");
  }

  /** Two words joined by a space split into exactly those two, the first
      being the name and the second the last segment. */
  lemma SplitTwoWords(name: string, last: string)
    requires IsWord(name) && IsWord(last)
    ensures Split(name + " " + last) == [name, last]
    ensures SplitLast(name + " " + last) == Some(NameAndLast(name, last))
  {
    JoinPair(name, last, " ");
    SplitJoin([name, last]);
    assert [name, last][..1] == [name];
  }
}
