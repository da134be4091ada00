/**
 * The regular expressions of the parser and the level filters, written out
 * as scanners over `seq<char>`. `\S` is a character that is not
 * `Text.IsSpace`; the patterns that the source compiles with
 * `re.IGNORECASE` compare ASCII letters after `Text.LowerChar`.
 */
module Patterns {
  import opened Text
  import opened Wrappers

  // ---------------------------------------------------------------------
  // re.split(r"(?<=\S)\n+\n+(?=\S)", s)
  // ---------------------------------------------------------------------

  /** Length of the run of newlines that starts at `i`. */
  function NewlineRun(s: string, i: nat): (n: nat)
    requires i <= |s|
    ensures i + n <= |s|
    ensures i + n == |s| || s[i + n] != '\n'
    ensures forall k :: i <= k < i + n ==> s[k] == '\n'
    decreases |s| - i
  {
    if i < |s| && s[i] == '\n' then 1 + NewlineRun(s, i + 1) else 0
  }

  /**
   * A match of the blank-line pattern starts at `i`: a non-space character
   * before it, a run of at least two newlines, and a non-space character
   * right after the run. The match covers the whole run.
   */
  predicate BreakAt(s: string, i: nat) {
    && 0 < i < |s|
    && !IsSpace(s[i - 1])
    && NewlineRun(s, i) >= 2
    && i + NewlineRun(s, i) < |s|
    && !IsSpace(s[i + NewlineRun(s, i)])
  }

  /** The leftmost match at or after `i`, or -1. */
  function FirstBreak(s: string, i: nat): (j: int)
    requires i <= |s|
    ensures j == -1 || (i <= j < |s| && BreakAt(s, j))
    ensures j == -1 ==> forall k :: i <= k < |s| ==> !BreakAt(s, k)
    ensures j != -1 ==> forall k :: i <= k < j ==> !BreakAt(s, k)
    decreases |s| - i
  {
    if i == |s| then -1
    else if BreakAt(s, i) then i
    else FirstBreak(s, i + 1)
  }

  /** The pieces between the matches, in order. */
  function SplitBlankLines(s: string): (r: seq<string>)
    ensures |r| >= 1
    decreases |s|
  {
    var j := FirstBreak(s, 0);
    if j == -1 then [s]
    else [s[..j]] + SplitBlankLines(s[j + NewlineRun(s, j)..])
  }

  /** A run of newlines seen in a prefix that ends past the run is the same run. */
  lemma {:induction false} NewlineRunPrefix(s: string, m: nat, i: nat)
    requires i <= m <= |s|
    requires i + NewlineRun(s[..m], i) < m
    ensures NewlineRun(s[..m], i) == NewlineRun(s, i)
    decreases m - i
  {
    if s[..m][i] == '\n' {
      NewlineRunPrefix(s, m, i + 1);
    }
  }

  /** A match inside a prefix of the text is a match in the text. */
  lemma BreakInPrefix(s: string, m: nat, k: nat)
    requires m <= |s|
    requires BreakAt(s[..m], k)
    ensures BreakAt(s, k)
  {
    NewlineRunPrefix(s, m, k);
  }

  /** A text in which the pattern never matches is returned whole. */
  lemma NoBreakWhole(s: string)
    requires forall k :: 0 <= k < |s| ==> !BreakAt(s, k)
    ensures SplitBlankLines(s) == [s]
  {
  }

  /** No piece contains a match of the pattern: every blank-line run between two non-space characters was cut. */
  lemma {:induction false} PiecesUnbroken(s: string)
    ensures forall p, k :: p in SplitBlankLines(s) && 0 <= k < |p| ==> !BreakAt(p, k)
    decreases |s|
  {
    var j := FirstBreak(s, 0);
    if j != -1 {
      var rest := s[j + NewlineRun(s, j)..];
      PiecesUnbroken(rest);
      forall k | 0 <= k < j
        ensures !BreakAt(s[..j], k)
      {
        if BreakAt(s[..j], k) {
          BreakInPrefix(s, j, k);
        }
      }
    }
  }

  /** Every piece after the first starts with a non-space character, and every piece but the last ends with one. */
  lemma {:induction false} PieceEnds(s: string)
    ensures forall i :: 0 < i < |SplitBlankLines(s)| ==>
      SplitBlankLines(s)[i] != [] && !IsSpace(SplitBlankLines(s)[i][0])
    ensures forall i :: 0 <= i < |SplitBlankLines(s)| - 1 ==>
      SplitBlankLines(s)[i] != [] && !IsSpace(SplitBlankLines(s)[i][|SplitBlankLines(s)[i]| - 1])
    decreases |s|
  {
    var j := FirstBreak(s, 0);
    if j != -1 {
      var rest := s[j + NewlineRun(s, j)..];
      PieceEnds(rest);
      var r := SplitBlankLines(s);
      assert r == [s[..j]] + SplitBlankLines(rest);
      assert r[1] == SplitBlankLines(rest)[0];
      if |SplitBlankLines(rest)| > 1 {
        assert SplitBlankLines(rest)[0] == rest[..FirstBreak(rest, 0)];
      }
      assert rest[0] == s[j + NewlineRun(s, j)];
      assert SplitBlankLines(rest)[0] != [] && SplitBlankLines(rest)[0][0] == rest[0] by {
        var jr := FirstBreak(rest, 0);
        if jr != -1 {
          assert jr > 0;
        }
      }
    }
  }

  // ---------------------------------------------------------------------
  // re.findall(r"^(\S+) += +(\S+(?: +(?:and|or) +\S+)*)$", legend,
  //            flags=re.MULTILINE | re.IGNORECASE), one line at a time
  // ---------------------------------------------------------------------

  /** Number of leading `' '` characters (the pattern's ` +` takes only spaces, not tabs). */
  function Spaces(s: string): (n: nat)
    ensures n <= |s|
    ensures n == |s| || s[n] != ' '
    ensures forall i :: 0 <= i < n ==> s[i] == ' '
  {
    if s != [] && s[0] == ' ' then 1 + Spaces(s[1..]) else 0
  }

  /** `and` or `or`, in any letter case. */
  predicate IsConnector(w: string) {
    Lower(w) == "and" || Lower(w) == "or"
  }

  /**
   * `\S+(?: +(?:and|or) +\S+)*$`: words separated by runs of spaces, every
   * second word a connector, ending in a word at the end of the line.
   */
  predicate ValuesMatch(v: string)
    decreases |v|
  {
    var n := WordLength(v);
    && n > 0
    && (n == |v|
        || (&& v[n] == ' '
            && var a := v[n + Spaces(v[n..])..];
            var c := WordLength(a);
            && IsConnector(a[..c])
            && c < |a| && a[c] == ' '
            && ValuesMatch(a[c + Spaces(a[c..])..])))
  }

  /**
   * One legend line against the pattern: a word (the key), spaces, `=`,
   * spaces, and the values. The result is the two groups.
   */
  function LegendLine(line: string): (r: Option<(string, string)>)
    ensures r.Some? ==> r.value.0 != [] && r.value.1 != []
    ensures r.Some? ==> line != [] && !IsSpace(line[0]) && StartsWith(line, r.value.0)
  {
    var n := WordLength(line);
    if n == 0 || n == |line| || line[n] != ' ' then None
    else
      var rest := line[n + Spaces(line[n..])..];
      if rest == [] || rest[0] != '=' || |rest| == 1 || rest[1] != ' ' then None
      else
        var values := rest[1 + Spaces(rest[1..])..];
        if ValuesMatch(values) then
          Some((line[..n], values))
        else None
  }

  /** A word without whitespace: the shape of the key and of each value word. */
  predicate IsWord(w: string) {
    w != [] && forall i :: 0 <= i < |w| ==> !IsSpace(w[i])
  }

  /** Words that `ValuesMatch` accepts when written with single spaces: every second one a connector. */
  predicate Alternating(ws: seq<string>) {
    && |ws| % 2 == 1
    && (forall i :: 0 <= i < |ws| ==> IsWord(ws[i]))
    && (forall i :: 0 <= i < |ws| && i % 2 == 1 ==> IsConnector(ws[i]))
  }

  lemma {:induction false} WordLengthOfWord(w: string, t: string)
    requires IsWord(w)
    requires t == [] || IsSpace(t[0])
    ensures WordLength(w + t) == |w|
    decreases |w|
  {
    if |w| > 1 {
      assert (w + t)[1..] == w[1..] + t;
      WordLengthOfWord(w[1..], t);
    } else {
      assert (w + t)[1..] == t;
    }
  }

  lemma SpacesBeforeWord(v: string)
    requires v != [] && !IsSpace(v[0])
    ensures Spaces(" " + v) == 1
  {
    assert (" " + v)[1..] == v;
  }

  /** One more word and connector in front of matching values still match. */
  lemma ValuesMatchCons(w: string, c: string, j: string)
    requires IsWord(w) && IsWord(c) && IsConnector(c) && ValuesMatch(j)
    ensures ValuesMatch(w + (" " + (c + (" " + j))))
  {
    var t := c + (" " + j);
    var v := w + (" " + t);
    assert j != [] && !IsSpace(j[0]);
    WordLengthOfWord(w, " " + t);
    assert v[|w|..] == " " + t;
    SpacesBeforeWord(t);
    assert v[|w| + 1..] == t;
    WordLengthOfWord(c, " " + j);
    assert t[..|c|] == c;
    assert t[|c|..] == " " + j;
    SpacesBeforeWord(j);
    assert t[|c| + 1..] == j;
  }

  /** Alternating words joined by single spaces match the values part of the pattern. */
  lemma {:induction false} JoinedValuesMatch(ws: seq<string>)
    requires Alternating(ws)
    ensures ValuesMatch(Join(ws, " "))
    decreases |ws|
  {
    if |ws| > 1 {
      var rest := ws[2..];
      AlternatingTail(ws);
      JoinedValuesMatch(rest);
      JoinFront(ws);
      ValuesMatchCons(ws[0], ws[1], Join(rest, " "));
    } else {
      assert Join(ws, " ") == ws[0];
      WordLengthOfWord(ws[0], "");
      assert ws[0] + "" == ws[0];
    }
  }

  lemma AlternatingTail(ws: seq<string>)
    requires Alternating(ws) && |ws| > 1
    ensures Alternating(ws[2..])
  {
    var rest := ws[2..];
    forall i | 0 <= i < |rest| ensures IsWord(rest[i]) && (i % 2 == 1 ==> IsConnector(rest[i])) {
      assert rest[i] == ws[i + 2];
    }
  }

  /** The first two words come off the front of a join of at least three. */
  lemma JoinFront(ws: seq<string>)
    requires |ws| > 2
    ensures Join(ws, " ") == ws[0] + (" " + (ws[1] + (" " + Join(ws[2..], " "))))
  {
    assert ws[1..][1..] == ws[2..];
    assert Join(ws[1..], " ") == ws[1] + " " + Join(ws[2..], " ");
  }

  /** The pieces of `key = v` that the legend pattern looks at, one slice at a time. */
  lemma LegendLineParts(key: string, v: string)
    ensures key + (" = " + v) == key + " = " + v
    ensures (key + (" = " + v))[|key|..] == " " + ("= " + v)
    ensures (key + (" = " + v))[|key| + 1..] == "= " + v
    ensures ("= " + v)[1..] == " " + v
    ensures ("= " + v)[2..] == v
  {
  }

  /** A line written as `key = values` with alternating values is matched, and the groups are the key and the values. */
  lemma LegendLineOfWords(key: string, ws: seq<string>)
    requires IsWord(key) && Alternating(ws)
    ensures LegendLine(key + " = " + Join(ws, " ")) == Some((key, Join(ws, " ")))
  {
    var v := Join(ws, " ");
    JoinedValuesMatch(ws);
    LegendLineParts(key, v);
    WordLengthOfWord(key, " = " + v);
    SpacesBeforeWord("= " + v);
    assert v != [] && !IsSpace(v[0]);
    SpacesBeforeWord(v);
  }

  // ---------------------------------------------------------------------
  // re.split(r" +and +", values, flags=re.IGNORECASE), and the same for "or"
  // ---------------------------------------------------------------------

  /**
   * The connector pattern matches at `i`: a space there, the rest of that
   * run of spaces, the connector word in any letter case, and at least one
   * space after it. `ConnEnd` is where the greedy match stops.
   */
  predicate ConnAt(v: string, conn: string, i: nat) {
    i < |v| && v[i] == ' ' && ConnWordAt(v, conn, SpaceEnd(v, i))
  }

  /** The connector word, in any letter case, starts at `e` and a space follows it. */
  predicate ConnWordAt(v: string, conn: string, e: nat) {
    e + |conn| < |v| && Lower(v[e..e + |conn|]) == conn && v[e + |conn|] == ' '
  }

  /** The end of the run of spaces (` +`, greedy) that starts at `i`. */
  function SpaceEnd(v: string, i: nat): (e: nat)
    requires i <= |v|
    ensures i <= e <= |v| && (e == |v| || v[e] != ' ')
    ensures forall j :: i <= j < e ==> v[j] == ' '
    decreases |v| - i
  {
    if i < |v| && v[i] == ' ' then SpaceEnd(v, i + 1) else i
  }

  function ConnEnd(v: string, conn: string, i: nat): (e: nat)
    requires ConnAt(v, conn, i)
    ensures i < e <= |v|
  {
    SpaceEnd(v, SpaceEnd(v, i) + |conn|)
  }

  /** The leftmost match at or after `i`, or -1. */
  function FirstConn(v: string, conn: string, i: nat): (j: int)
    requires i <= |v|
    ensures j == -1 || (i <= j < |v| && ConnAt(v, conn, j))
    ensures j == -1 ==> forall k :: i <= k < |v| ==> !ConnAt(v, conn, k)
    ensures j != -1 ==> forall k :: i <= k < j ==> !ConnAt(v, conn, k)
    decreases |v| - i
  {
    if i == |v| then -1
    else if ConnAt(v, conn, i) then i
    else FirstConn(v, conn, i + 1)
  }

  /** The pieces between the connector matches, in order. */
  function SplitConn(v: string, conn: string): (r: seq<string>)
    ensures |r| >= 1
    decreases |v|
  {
    var j := FirstConn(v, conn, 0);
    if j == -1 then [v] else [v[..j]] + SplitConn(v[ConnEnd(v, conn, j)..], conn)
  }

  /** Values without a match of the connector pattern are one piece. */
  lemma NoConnWhole(v: string, conn: string)
    requires forall k :: 0 <= k < |v| ==> !ConnAt(v, conn, k)
    ensures SplitConn(v, conn) == [v]
  {
  }

  /** A run of spaces that stops inside `w` is not lengthened by what follows `w`. */
  lemma {:induction false} SpaceEndAppend(w: string, rest: string, i: nat)
    requires i <= |w| && SpaceEnd(w, i) < |w|
    ensures SpaceEnd(w + rest, i) == SpaceEnd(w, i)
    decreases |w| - i
  {
    if w[i] == ' ' {
      SpaceEndAppend(w, rest, i + 1);
    }
  }

  /** A match inside the values stays a match when more text follows. */
  lemma ConnAppend(w: string, rest: string, conn: string, k: nat)
    requires ConnAt(w, conn, k)
    ensures ConnAt(w + rest, conn, k)
  {
    var e := SpaceEnd(w, k);
    SpaceEndAppend(w, rest, k);
    ConnWordAppend(w, rest, conn, e);
  }

  lemma ConnWordAppend(w: string, rest: string, conn: string, e: nat)
    requires ConnWordAt(w, conn, e)
    ensures ConnWordAt(w + rest, conn, e)
  {
    var v := w + rest;
    var word := w[e..e + |conn|];
    assert Lower(word) == conn;
    assert v[e..e + |conn|] == word;
  }

  /** A match inside a prefix of the values is a match in the values. */
  lemma ConnInPrefix(v: string, conn: string, m: nat, k: nat)
    requires m <= |v|
    requires ConnAt(v[..m], conn, k)
    ensures ConnAt(v, conn, k)
  {
    assert v == v[..m] + v[m..];
    ConnAppend(v[..m], v[m..], conn, k);
  }

  /** No piece contains a match of the connector pattern. */
  lemma {:induction false} ConnPiecesUnbroken(v: string, conn: string)
    ensures forall p, k :: p in SplitConn(v, conn) && 0 <= k < |p| ==> !ConnAt(p, conn, k)
    decreases |v|
  {
    var j := FirstConn(v, conn, 0);
    if j != -1 {
      ConnPiecesUnbroken(v[ConnEnd(v, conn, j)..], conn);
      forall k | 0 <= k < j
        ensures !ConnAt(v[..j], conn, k)
      {
        if ConnAt(v[..j], conn, k) {
          ConnInPrefix(v, conn, j, k);
        }
      }
    }
  }

  // ---------------------------------------------------------------------
  // re.split(r",\s*|\s+", collisionlayers, flags=re.MULTILINE)
  // ---------------------------------------------------------------------

  /** Number of leading whitespace characters (`\s*`). */
  function SpaceRun(s: string): (n: nat)
    ensures n <= |s|
    ensures n == |s| || !IsSpace(s[n])
  {
    if s != [] && IsSpace(s[0]) then 1 + SpaceRun(s[1..]) else 0
  }

  predicate IsLayerSep(c: char) {
    c == ',' || IsSpace(c)
  }

  /** The first comma or whitespace character at or after `i`, or -1. */
  function FirstLayerSep(s: string, i: nat): (j: int)
    requires i <= |s|
    ensures j == -1 || (i <= j < |s| && IsLayerSep(s[j]))
    ensures j == -1 ==> forall k :: i <= k < |s| ==> !IsLayerSep(s[k])
    ensures j != -1 ==> forall k :: i <= k < j ==> !IsLayerSep(s[k])
    decreases |s| - i
  {
    if i == |s| then -1
    else if IsLayerSep(s[i]) then i
    else FirstLayerSep(s, i + 1)
  }

  /**
   * The pieces between separators: a comma takes the whitespace after it
   * along, a whitespace run is a separator of its own, so a space before a
   * comma leaves an empty piece between the two.
   */
  function SplitLayers(s: string): (r: seq<string>)
    ensures |r| >= 1
    decreases |s|
  {
    var j := FirstLayerSep(s, 0);
    if j == -1 then [s] else [s[..j]] + SplitLayers(s[LayerSepEnd(s, j)..])
  }

  /** Where the separator found at `j` ends. */
  function LayerSepEnd(s: string, j: nat): (e: nat)
    requires j < |s| && IsLayerSep(s[j])
    ensures j < e <= |s|
  {
    if s[j] == ',' then j + 1 + SpaceRun(s[j + 1..]) else j + SpaceRun(s[j..])
  }

  /** A layer name: non-empty, with no comma and no whitespace. */
  predicate IsLayerName(n: string) {
    n != [] && NoLayerSep(n)
  }

  predicate NoLayerSep(n: string) {
    forall k :: 0 <= k < |n| ==> !IsLayerSep(n[k])
  }

  /** No piece holds a comma or whitespace. */
  lemma {:induction false} LayerPieces(s: string)
    ensures forall i :: 0 <= i < |SplitLayers(s)| ==> NoLayerSep(SplitLayers(s)[i])
    decreases |s|
  {
    var j := FirstLayerSep(s, 0);
    if j != -1 {
      var e := LayerSepEnd(s, j);
      LayerPieces(s[e..]);
      assert NoLayerSep(s[..j]);
      assert SplitLayers(s) == [s[..j]] + SplitLayers(s[e..]);
    }
  }

  /** A name, `", "` and a text that does not start with whitespace split at that comma. */
  lemma SplitAfterName(n: string, t: string)
    requires IsLayerName(n) && t != [] && !IsSpace(t[0])
    ensures SplitLayers(n + ", " + t) == [n] + SplitLayers(t)
  {
    var s := n + ", " + t;
    FirstSepAfterName(n, ", " + t);
    assert s == n + (", " + t);
    CommaSpaceEnd(n, t);
    assert s[..|n|] == n;
    assert s[|n| + 2..] == t;
  }

  /** In a name followed by a separator, the first separator is the one after the name. */
  lemma FirstSepAfterName(n: string, rest: string)
    requires NoLayerSep(n) && rest != [] && IsLayerSep(rest[0])
    ensures FirstLayerSep(n + rest, 0) == |n|
  {
    var s := n + rest;
    assert s[|n|] == rest[0];
    assert forall k :: 0 <= k < |n| ==> s[k] == n[k];
  }

  /** A comma and one space before a text that does not start with whitespace make a separator of two characters. */
  lemma CommaSpaceEnd(n: string, t: string)
    requires t != [] && !IsSpace(t[0])
    ensures |n| < |n + ", " + t| && IsLayerSep((n + ", " + t)[|n|])
    ensures LayerSepEnd(n + ", " + t, |n|) == |n| + 2
  {
    var s := n + ", " + t;
    assert s[|n|] == ',';
    assert s[|n| + 1..] == " " + t;
    assert SpaceRun(" " + t) == 1 by {
      assert (" " + t)[1..] == t;
    }
  }

  /** Names separated by `", "` come back as the names. */
  lemma {:induction false} LayersOfNames(ns: seq<string>)
    requires ns != []
    requires forall i :: 0 <= i < |ns| ==> IsLayerName(ns[i])
    ensures SplitLayers(Join(ns, ", ")) == ns
    decreases |ns|
  {
    if |ns| == 1 {
      assert FirstLayerSep(ns[0], 0) == -1;
    } else {
      var t := Join(ns[1..], ", ");
      LayersOfNames(ns[1..]);
      assert IsLayerName(ns[1]);
      assert t != [] && t[0] == ns[1][0] by {
        if |ns[1..]| > 1 {
          assert t == ns[1] + ", " + Join(ns[2..], ", ");
        } else {
          assert t == ns[1];
        }
      }
      SplitAfterName(ns[0], t);
      assert Join(ns, ", ") == ns[0] + ", " + t;
      assert [ns[0]] + ns[1..] == ns;
    }
  }
}
