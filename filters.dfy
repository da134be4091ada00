/**
 * The template filters of psbs/extensions/filters.py that rewrite level
 * text: `add_prefix`, `levels_to_list` and `combine_levels` with its inner
 * `combine_row`.
 */
module Filters {
  import opened Wrappers
  import opened Text
  import Redact
  import Patterns

  /**
   * `PSParser.redact_comments(text, redact_char="")`: the text with its
   * comments deleted; text without an opening parenthesis is unchanged.
   */
  function Uncommented(text: string): (r: string)
    ensures '(' !in text ==> r == text
  {
    Redact.NoCommentText(text, "");
    Concat(Redact.Elements(text, ""))
  }

  // ---------------------------------------------------------------------
  // add_prefix
  // ---------------------------------------------------------------------

  /** A blank line becomes empty; any other line gets the prefix and a space in front. */
  function PrefixLine(line: string, prefix: string): string {
    if Strip(line) == "" then "" else prefix + " " + line
  }

  function PrefixedLines(lines: seq<string>, prefix: string): (r: seq<string>)
    ensures |r| == |lines| && forall i :: 0 <= i < |lines| ==> r[i] == PrefixLine(lines[i], prefix)
  {
    if lines == [] then [] else PrefixedLines(lines[..|lines| - 1], prefix) + [PrefixLine(lines[|lines| - 1], prefix)]
  }

  /**
   * What `add_prefix` returns. With a prefix free of newlines, the output
   * has one line per line of the comment-free input: empty for a blank line,
   * otherwise the prefix, a space and the line unchanged.
   */
  function AddPrefixOf(text: string, prefix: string): (r: string)
    ensures var lines := SplitLines(Uncommented(text));
      '\n' !in prefix && lines != [] ==>
        var out := Split(r, '\n');
        && |out| == |lines|
        && forall i :: 0 <= i < |lines| ==> out[i] == if Strip(lines[i]) == "" then "" else prefix + " " + lines[i]
  {
    var lines := SplitLines(Uncommented(text));
    PrefixedSplit(lines, prefix);
    Join(PrefixedLines(lines, prefix), "\n")
  }

  /** Prefixed lines free of newlines are split back apart at the newlines that join them. */
  lemma PrefixedSplit(lines: seq<string>, prefix: string)
    requires forall i :: 0 <= i < |lines| ==> '\n' !in lines[i]
    ensures '\n' !in prefix && lines != [] ==>
      Split(Join(PrefixedLines(lines, prefix), "\n"), '\n') == PrefixedLines(lines, prefix)
  {
    if '\n' !in prefix && lines != [] {
      var ps := PrefixedLines(lines, prefix);
      forall i | 0 <= i < |ps|
        ensures '\n' !in ps[i]
      {
        assert '\n' !in lines[i];
      }
      SplitJoin(ps, '\n');
    }
  }

  method AddPrefix(text: string, prefix: string) returns (r: string)
    ensures r == AddPrefixOf(text, prefix)
  {
    var input := Redact.RedactComments(text, "");
    var lines := SplitLines(input);
    var output: seq<string> := [];
    for i := 0 to |lines|
      invariant output == PrefixedLines(lines[..i], prefix)
    {
      assert lines[..i + 1][..i] == lines[..i];
      if Strip(lines[i]) == "" {
        output := output + [""];
      } else {
        output := output + [prefix + " " + lines[i]];
      }
    }
    assert lines[..|lines|] == lines;
    r := Join(output, "\n");
  }

  // ---------------------------------------------------------------------
  // levels_to_list
  // ---------------------------------------------------------------------

  /** `line.split("message")[0].strip()`. */
  function LevelLine(line: string): string {
    Strip(Before(line, "message"))
  }

  function LevelLines(lines: seq<string>): (r: seq<string>)
    ensures |r| == |lines| && forall i :: 0 <= i < |lines| ==> r[i] == LevelLine(lines[i])
  {
    if lines == [] then [] else LevelLines(lines[..|lines| - 1]) + [LevelLine(lines[|lines| - 1])]
  }

  /** What `levels_to_list` returns: the cut lines, split at blank lines. */
  function LevelsOf(text: string): (levels: seq<string>)
    ensures levels != []
  {
    Patterns.SplitBlankLines(Join(LevelLines(SplitLines(Uncommented(text))), "\n"))
  }

  method LevelsToList(text: string) returns (levels: seq<string>)
    ensures levels == LevelsOf(text)
  {
    var input := Redact.RedactComments(text, "");
    var lines := SplitLines(input);
    var output: seq<string> := [];
    for i := 0 to |lines|
      invariant output == LevelLines(lines[..i])
    {
      assert lines[..i + 1][..i] == lines[..i];
      output := output + [Strip(Before(lines[i], "message"))];
    }
    assert lines[..|lines|] == lines;
    levels := Patterns.SplitBlankLines(Join(output, "\n"));
  }

  /**
   * No level holds a blank-line break: two or more newlines between
   * non-space characters always separate two levels.
   */
  lemma LevelsUnbroken(text: string)
    ensures forall level, k :: level in LevelsOf(text) && 0 <= k < |level| ==> !Patterns.BreakAt(level, k)
  {
    Patterns.PiecesUnbroken(Join(LevelLines(SplitLines(Uncommented(text))), "\n"));
  }

  // ---------------------------------------------------------------------
  // combine_row
  // ---------------------------------------------------------------------

  function Max(a: nat, b: nat): nat {
    if a < b then b else a
  }

  /** `xs[i]`, or nothing when the list is shorter. */
  function At(xs: seq<string>, i: nat): string {
    if i < |xs| then xs[i] else ""
  }

  /** The rows of one level: the level stripped, split into lines, each line stripped. */
  function RowsOfLevel(level: string): (r: seq<string>)
    ensures |r| == |SplitLines(Strip(level))|
    ensures forall i :: 0 <= i < |r| ==> r[i] == Strip(SplitLines(Strip(level))[i])
  {
    StripAll(SplitLines(Strip(level)))
  }

  function StripAll(lines: seq<string>): (r: seq<string>)
    ensures |r| == |lines| && forall i :: 0 <= i < |lines| ==> r[i] == Strip(lines[i])
  {
    if lines == [] then [] else StripAll(lines[..|lines| - 1]) + [Strip(lines[|lines| - 1])]
  }

  /** The tallest level's height. */
  function Height(levels: seq<string>): nat {
    if levels == [] then 0 else Max(Height(levels[..|levels| - 1]), |RowsOfLevel(levels[|levels| - 1])|)
  }

  /** Output line `i`: the `i`-th rows of the levels that have one, left to right. */
  function Column(levels: seq<string>, i: nat): string {
    if levels == [] then "" else Column(levels[..|levels| - 1], i) + At(RowsOfLevel(levels[|levels| - 1]), i)
  }

  /** The accumulated lines with one more level's rows added line by line. */
  function Merge(acc: seq<string>, rows: seq<string>): (r: seq<string>)
    ensures |r| == Max(|acc|, |rows|)
  {
    seq(Max(|acc|, |rows|), i requires 0 <= i < Max(|acc|, |rows|) => At(acc, i) + At(rows, i))
  }

  /** Past the tallest level every column is empty. */
  lemma {:induction false} ColumnBeyond(levels: seq<string>, i: nat)
    requires i >= Height(levels)
    ensures Column(levels, i) == ""
  {
    if levels != [] {
      ColumnBeyond(levels[..|levels| - 1], i);
    }
  }

  /** `level_lines` after the given levels. */
  function RowLines(levels: seq<string>): (ls: seq<string>)
    ensures |ls| == Height(levels)
    ensures forall i :: 0 <= i < |ls| ==> ls[i] == Column(levels, i)
  {
    if levels == [] then []
    else
      var init := levels[..|levels| - 1];
      var prev := RowLines(init);
      forall i | |prev| <= i
        ensures Column(init, i) == ""
      {
        ColumnBeyond(init, i);
      }
      Merge(prev, RowsOfLevel(levels[|levels| - 1]))
  }

  /** One line of the inner loop: a new line is appended, an existing one extended. */
  lemma MergeStep(acc: seq<string>, lines: seq<string>, n: nat)
    requires n < |lines|
    ensures var m := Merge(acc, StripAll(lines[..n]));
      Merge(acc, StripAll(lines[..n + 1]))
        == if |m| <= n then m + [Strip(lines[n])] else m[n := m[n] + Strip(lines[n])]
  {
    var m := Merge(acc, StripAll(lines[..n]));
    var m' := Merge(acc, StripAll(lines[..n + 1]));
    var expected := if |m| <= n then m + [Strip(lines[n])] else m[n := m[n] + Strip(lines[n])];
    assert |m'| == |expected|;
    forall i | 0 <= i < |m'|
      ensures m'[i] == expected[i]
    {
      if i == n {
        assert At(StripAll(lines[..n + 1]), i) == Strip(lines[n]);
        assert At(StripAll(lines[..n]), i) == "";
      } else {
        assert At(StripAll(lines[..n + 1]), i) == At(StripAll(lines[..n]), i);
      }
    }
  }

  /** `combine_row`: the levels of one row side by side. */
  method CombineRow(row: seq<string>) returns (s: string)
    ensures s == Join(RowLines(row), "\n")
  {
    var levelLines: seq<string> := [];
    for k := 0 to |row|
      invariant levelLines == RowLines(row[..k])
    {
      assert row[..k + 1][..k] == row[..k];
      levelLines := AddLevel(levelLines, row[k]);
    }
    assert row[..|row|] == row;
    s := Join(levelLines, "\n");
  }

  /** The inner loop of `combine_row` over one level's lines. */
  method AddLevel(acc: seq<string>, level: string) returns (levelLines: seq<string>)
    ensures levelLines == Merge(acc, RowsOfLevel(level))
  {
    var lines := SplitLines(Strip(level));
    levelLines := acc;
    assert StripAll(lines[..0]) == [];
    assert Merge(acc, []) == acc by {
      assert forall i :: 0 <= i < |acc| ==> At(acc, i) + At([], i) == acc[i];
    }
    for n := 0 to |lines|
      invariant levelLines == Merge(acc, StripAll(lines[..n]))
    {
      MergeStep(acc, lines, n);
      var line := Strip(lines[n]);
      if |levelLines| <= n {
        levelLines := levelLines + [line];
      } else {
        levelLines := levelLines[n := levelLines[n] + line];
      }
    }
    assert lines[..|lines|] == lines;
  }

  // ---------------------------------------------------------------------
  // combine_levels
  // ---------------------------------------------------------------------

  /** The argument of `combine_levels`: level text, a list of levels, or a list of rows. */
  datatype LevelsArg = Text(text: string) | Flat(levels: seq<string>) | Nested(rows: seq<seq<string>>)

  /** `levels_list[0]` on an empty list raises `IndexError`. */
  datatype FilterError = EmptyLevels

  /** Consecutive slices of `columns` levels, the last possibly shorter. */
  function Chunks(xs: seq<string>, columns: nat): seq<seq<string>>
    requires columns > 0
    decreases |xs|
  {
    if xs == [] then []
    else if |xs| <= columns then [xs]
    else [xs[..columns]] + Chunks(xs[columns..], columns)
  }

  /** `list(chain(*rows))`. */
  function Flatten(rows: seq<seq<string>>): seq<string> {
    if rows == [] then [] else Flatten(rows[..|rows| - 1]) + rows[|rows| - 1]
  }

  /** The chunks, put back together, are the levels in order. */
  lemma {:induction false} ChunksCover(xs: seq<string>, columns: nat)
    requires columns > 0
    ensures Flatten(Chunks(xs, columns)) == xs
    decreases |xs|
  {
    if |xs| > columns {
      var rest := xs[columns..];
      ChunksCover(rest, columns);
      FlattenCons(xs[..columns], Chunks(rest, columns));
      assert xs[..columns] + rest == xs;
    } else if xs != [] {
      assert Flatten([xs]) == Flatten([]) + xs;
    }
  }

  /** Every chunk but the last holds exactly `columns` levels, the last between one and `columns`. */
  lemma {:induction false} ChunksSizes(xs: seq<string>, columns: nat)
    requires columns > 0
    ensures forall i :: 0 <= i < |Chunks(xs, columns)| - 1 ==> |Chunks(xs, columns)[i]| == columns
    ensures Chunks(xs, columns) != [] ==> 0 < |Chunks(xs, columns)[|Chunks(xs, columns)| - 1]| <= columns
    decreases |xs|
  {
    if |xs| > columns {
      var rest := xs[columns..];
      ChunksSizes(rest, columns);
      var c := Chunks(xs, columns);
      assert c == [xs[..columns]] + Chunks(rest, columns);
      assert forall i :: 1 <= i < |c| ==> c[i] == Chunks(rest, columns)[i - 1];
    }
  }

  lemma {:induction false} FlattenCons(x: seq<string>, rows: seq<seq<string>>)
    ensures Flatten([x] + rows) == x + Flatten(rows)
    decreases |rows|
  {
    if rows == [] {
      assert [x] + rows == [x];
      assert Flatten([x]) == Flatten([]) + x;
    } else {
      var init := rows[..|rows| - 1];
      assert ([x] + rows)[..|[x] + rows| - 1] == [x] + init;
      FlattenCons(x, init);
    }
  }

  /** The rows `combine_levels` combines, or the exception it raises. */
  function RowsOf(arg: LevelsArg, columns: int): (r: Result<seq<seq<string>>, FilterError>) {
    match arg
    case Text(t) => FlatRows(LevelsOf(t), columns)
    case Flat(ls) => FlatRows(ls, columns)
    case Nested(rows) =>
      if rows == [] then Err(EmptyLevels)
      else if columns > 0 then Ok(Chunks(Flatten(rows), columns))
      else Ok(rows)
  }

  /** A flat list of levels: chunks of `columns`, or a single row. */
  function FlatRows(levels: seq<string>, columns: int): Result<seq<seq<string>>, FilterError> {
    if levels == [] then Err(EmptyLevels)
    else if columns > 0 then Ok(Chunks(levels, columns))
    else Ok([levels])
  }

  /** Level text always yields at least one level, so it never fails. */
  lemma TextNeverEmpty(text: string, columns: int)
    ensures RowsOf(Text(text), columns).Ok?
  {
  }

  /** Only an empty list fails, and then always. */
  lemma EmptyFails(arg: LevelsArg, columns: int)
    ensures RowsOf(arg, columns).Err? <==> (arg.Flat? && arg.levels == []) || (arg.Nested? && arg.rows == [])
  {
  }

  /** What `combine_levels` returns: the combined rows joined by newlines. */
  function CombineLevelsOf(arg: LevelsArg, columns: int): (r: Result<string, FilterError>)
    ensures r.Err? <==> (arg.Flat? && arg.levels == []) || (arg.Nested? && arg.rows == [])
    ensures r.Err? ==> r.error == EmptyLevels
  {
    EmptyFails(arg, columns);
    match RowsOf(arg, columns)
    case Err(e) => Err(e)
    case Ok(rows) => Ok(Join(CombinedRows(rows), "\n"))
  }

  function CombinedRows(rows: seq<seq<string>>): (r: seq<string>)
    ensures |r| == |rows| && forall i :: 0 <= i < |rows| ==> r[i] == Join(RowLines(rows[i]), "\n")
  {
    if rows == [] then [] else CombinedRows(rows[..|rows| - 1]) + [Join(RowLines(rows[|rows| - 1]), "\n")]
  }

  method CombineLevels(arg: LevelsArg, columns: int) returns (r: Result<string, FilterError>)
    ensures r == CombineLevelsOf(arg, columns)
  {
    var list: seq<string>;
    var rows: seq<seq<string>>;
    if arg.Nested? {
      if arg.rows == [] {
        return Err(EmptyLevels);
      }
      rows := if columns > 0 then Chunks(Flatten(arg.rows), columns) else arg.rows;
    } else {
      if arg.Text? {
        list := LevelsToList(arg.text);
      } else {
        list := arg.levels;
      }
      if list == [] {
        return Err(EmptyLevels);
      }
      rows := if columns > 0 then Chunks(list, columns) else [list];
    }
    var combined := CombineRows(rows);
    r := Ok(Join(combined, "\n"));
  }

  /** `[combine_row(row) for row in rows]`. */
  method CombineRows(rows: seq<seq<string>>) returns (combined: seq<string>)
    ensures combined == CombinedRows(rows)
  {
    combined := [];
    for i := 0 to |rows|
      invariant combined == CombinedRows(rows[..i])
    {
      assert rows[..i + 1][..i] == rows[..i];
      var line := CombineRow(rows[i]);
      combined := combined + [line];
    }
    assert rows[..|rows|] == rows;
  }
}
