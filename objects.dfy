/**
 * `PSParser.get_objects` (psbs/psparser.py): the cleaned OBJECTS section is
 * cut into records at blank lines; each record is a name line, a colour
 * line and the sprite body. The name line holds the object's name, its
 * synonyms and, in PuzzleScript+, `copy:<name>` directives that take the
 * body of an object stored earlier.
 */
module Objects {
  import opened Wrappers
  import opened Text
  import opened Dict
  import Patterns

  /** `{"colors": ..., "body": ..., "synonyms": [...]}`. */
  datatype Obj = Obj(colors: string, body: string, synonyms: seq<string>)

  /** The exceptions that escape `get_objects`. */
  datatype ObjectsError =
    | NotEnoughLines(record: string)   // ValueError from unpacking fewer than two lines
    | UnknownCopy(name: string)        // KeyError from `copy:` on a name not stored yet

  /** What one record does to the table. */
  datatype RecordOutcome = Stored(name: string, obj: Obj) | Skipped | Failed(error: ObjectsError)

  /**
   * The loop over the name tokens after the first: a `copy:` token replaces
   * the body with the stored body of the object it names, any other token
   * is appended to the synonyms.
   */
  function NameTokens(tokens: seq<string>, body: string, syns: seq<string>, objs: Dict<string, Obj>)
    : (r: Result<(string, seq<string>), ObjectsError>)
    ensures r.Err? ==> r.error.UnknownCopy?
    decreases |tokens|
  {
    if tokens == [] then Ok((body, syns))
    else
      var t := tokens[0];
      if StartsWith(t, "copy:") then
        if t[5..] in objs.values then NameTokens(tokens[1..], objs.values[t[5..]].body, syns, objs)
        else Err(UnknownCopy(t[5..]))
      else NameTokens(tokens[1..], body, syns + [t], objs)
  }

  /** The tokens that are not `copy:` directives, in order. */
  function Synonyms(tokens: seq<string>): (r: seq<string>)
    ensures forall i :: 0 <= i < |r| ==> !StartsWith(r[i], "copy:")
  {
    if tokens == [] then []
    else if StartsWith(tokens[0], "copy:") then Synonyms(tokens[1..])
    else [tokens[0]] + Synonyms(tokens[1..])
  }

  /** The target of the last `copy:` directive, if any. */
  function LastCopy(tokens: seq<string>): (r: Option<string>)
    ensures r.Some? ==> exists i :: 0 <= i < |tokens| && StartsWith(tokens[i], "copy:") && tokens[i][5..] == r.value
  {
    if tokens == [] then None
    else
      match LastCopy(tokens[1..])
      case Some(n) => Some(n)
      case None => if StartsWith(tokens[0], "copy:") then Some(tokens[0][5..]) else None
  }


  /** Every `copy:` target names a stored object. */
  predicate CopiesKnown(tokens: seq<string>, objs: Dict<string, Obj>) {
    forall i :: 0 <= i < |tokens| && StartsWith(tokens[i], "copy:") ==> tokens[i][5..] in objs.values
  }

  /**
   * The token loop fails exactly when some `copy:` names an unknown object;
   * otherwise the synonyms are the other tokens in order and the body is
   * that of the last copied object, or the record's own body.
   */
  lemma {:induction false} NameTokensMeaning(tokens: seq<string>, body: string, syns: seq<string>, objs: Dict<string, Obj>)
    ensures NameTokens(tokens, body, syns, objs).Ok? <==> CopiesKnown(tokens, objs)
    ensures CopiesKnown(tokens, objs) ==>
      NameTokens(tokens, body, syns, objs).value.1 == syns + Synonyms(tokens)
    ensures CopiesKnown(tokens, objs) ==>
      NameTokens(tokens, body, syns, objs).value.0 ==
        match LastCopy(tokens) case Some(n) => objs.values[n].body case None => body
    decreases |tokens|
  {
    if tokens != [] {
      var t := tokens[0];
      var rest := tokens[1..];
      assert forall i :: 0 <= i < |rest| ==> rest[i] == tokens[i + 1];
      if StartsWith(t, "copy:") {
        if t[5..] in objs.values {
          NameTokensMeaning(rest, objs.values[t[5..]].body, syns, objs);
        }
      } else {
        NameTokensMeaning(rest, body, syns + [t], objs);
        assert syns + [t] + Synonyms(rest) == syns + Synonyms(tokens);
      }
    }
  }

  /** `name` lower-cased unless the game is case sensitive. */
  function NameLine(line: string, caseSensitive: bool): string {
    if caseSensitive then line else Lower(line)
  }

  /**
   * One record, with the unpacking guarded: a record of fewer than two
   * lines, or whose name line is blank, is skipped with a warning.
   */
  function ParseRecord(record: string, caseSensitive: bool, objs: Dict<string, Obj>): (r: RecordOutcome)
    ensures r.Stored? ==> |SplitLines(record)| >= 2 && r.name != [] && r.obj.colors == SplitLines(record)[1]
    ensures r.Failed? ==> r.error.UnknownCopy?
  {
    var lines := SplitLines(record);
    if |lines| < 2 then Skipped
    else
      var tokens := Words(NameLine(lines[0], caseSensitive));
      if tokens == [] then Skipped
      else
        match NameTokens(tokens[1..], Join(lines[2..], "\n"), [], objs)
        case Err(e) => Failed(e)
        case Ok((body, syns)) => Stored(tokens[0], Obj(lines[1], body, syns))
  }

  /** Unless the game is case sensitive, a stored name has no upper-case letter. */
  lemma StoredNameLower(record: string, objs: Dict<string, Obj>)
    requires ParseRecord(record, false, objs).Stored?
    ensures Lower(ParseRecord(record, false, objs).name) == ParseRecord(record, false, objs).name
  {
    WordsOfLower(SplitLines(record)[0]);
  }

  /**
   * The record as the source reads it: `name, colors, *body = lines` raises
   * `ValueError` for fewer than two lines, and only `IndexError` is caught.
   */
  function ParseRecordAsWritten(record: string, caseSensitive: bool, objs: Dict<string, Obj>): (r: RecordOutcome)
    ensures |SplitLines(record)| < 2 ==> r == Failed(NotEnoughLines(record))
    ensures |SplitLines(record)| >= 2 ==> r == ParseRecord(record, caseSensitive, objs)
  {
    if |SplitLines(record)| < 2 then Failed(NotEnoughLines(record))
    else ParseRecord(record, caseSensitive, objs)
  }

  /** A record on a single line has fewer than two lines. */
  lemma SingleLine(record: string)
    requires '\n' !in record
    ensures |SplitLines(record)| < 2
  {
    if record != [] {
      SplitNoSep(record, '\n');
    }
  }

  /** As written, a one-line record (a name with no colour line) aborts the whole parse. */
  lemma SingleLineRecordAborts(record: string, caseSensitive: bool, objs: Dict<string, Obj>)
    requires '\n' !in record
    ensures ParseRecordAsWritten(record, caseSensitive, objs).Failed?
  {
    SingleLine(record);
  }

  /** Corrected, the same record is skipped and the table is left as it was. */
  lemma SingleLineRecordSkipped(record: string, caseSensitive: bool, objs: Dict<string, Obj>)
    requires '\n' !in record
    ensures ParseRecord(record, caseSensitive, objs) == Skipped
  {
    SingleLine(record);
  }

  /**
   * The table after the given records, each read as the source reads it, or
   * the exception that ended the loop.
   */
  function ObjectsOf(records: seq<string>, caseSensitive: bool): (r: Result<Dict<string, Obj>, ObjectsError>)
    ensures r.Ok? ==> r.value.Valid()
  {
    if records == [] then Ok(Empty())
    else
      match ObjectsOf(records[..|records| - 1], caseSensitive)
      case Err(e) => Err(e)
      case Ok(objs) => Apply(objs, ParseRecordAsWritten(records[|records| - 1], caseSensitive, objs))
  }

  /**
   * A record of fewer than two lines ends `get_objects` with its `ValueError`
   * once the records before it were read: nothing after it is stored.
   */
  lemma ShortRecordRaises(records: seq<string>, caseSensitive: bool, i: nat)
    requires i < |records| && |SplitLines(records[i])| < 2
    requires ObjectsOf(records[..i], caseSensitive).Ok?
    ensures ObjectsOf(records, caseSensitive) == Err(NotEnoughLines(records[i]))
  {
    ObjectsStep(records, caseSensitive, i);
    ErrorStops(records, caseSensitive, i + 1);
  }

  /** An empty OBJECTS section is one empty record, which has no lines: `get_objects` raises. */
  lemma EmptySectionRaises(caseSensitive: bool)
    ensures ObjectsOf(Patterns.SplitBlankLines(""), caseSensitive) == Err(NotEnoughLines(""))
  {
    Patterns.NoBreakWhole("");
    ShortRecordRaises([""], caseSensitive, 0);
  }

  /** The effect of one record's outcome on the table. */
  function Apply(objs: Dict<string, Obj>, o: RecordOutcome): Result<Dict<string, Obj>, ObjectsError> {
    match o
    case Stored(n, obj) => Ok(objs.Put(n, obj))
    case Skipped => Ok(objs)
    case Failed(e) => Err(e)
  }

  /** The copy loop of one name line. */
  method ReadNameTokens(tokens: seq<string>, body: string, objs: Dict<string, Obj>)
    returns (r: Result<(string, seq<string>), ObjectsError>)
    ensures r == NameTokens(tokens, body, [], objs)
  {
    var current := body;
    var syns: seq<string> := [];
    for i := 0 to |tokens|
      invariant NameTokens(tokens[i..], current, syns, objs) == NameTokens(tokens, body, [], objs)
    {
      var t := tokens[i];
      assert tokens[i..][1..] == tokens[i + 1..];
      if StartsWith(t, "copy:") {
        if t[5..] !in objs.values {
          return Err(UnknownCopy(t[5..]));
        }
        current := objs.values[t[5..]].body;
      } else {
        syns := syns + [t];
      }
    }
    r := Ok((current, syns));
  }

  /** One record of the loop body, read as the source reads it. */
  method ReadRecord(record: string, caseSensitive: bool, objs: Dict<string, Obj>) returns (o: RecordOutcome)
    ensures o == ParseRecordAsWritten(record, caseSensitive, objs)
  {
    var lines := SplitLines(record);
    if |lines| < 2 {
      return Failed(NotEnoughLines(record));
    }
    var tokens := Words(NameLine(lines[0], caseSensitive));
    if tokens == [] {
      return Skipped;
    }
    var res := ReadNameTokens(tokens[1..], Join(lines[2..], "\n"), objs);
    if res.Err? {
      return Failed(res.error);
    }
    o := Stored(tokens[0], Obj(lines[1], res.value.0, res.value.1));
  }

  /** `get_objects` over the cleaned OBJECTS section. */
  method GetObjects(objects: string, caseSensitive: bool) returns (r: Result<Dict<string, Obj>, ObjectsError>)
    ensures r == ObjectsOf(Patterns.SplitBlankLines(objects), caseSensitive)
  {
    var records := Patterns.SplitBlankLines(objects);
    var objs: Dict<string, Obj> := Empty();
    for i := 0 to |records|
      invariant ObjectsOf(records[..i], caseSensitive) == Ok(objs)
    {
      var o := ReadRecord(records[i], caseSensitive, objs);
      ObjectsStep(records, caseSensitive, i);
      if o.Failed? {
        ErrorStops(records, caseSensitive, i + 1);
        return Err(o.error);
      }
      if o.Stored? {
        objs := objs.Put(o.name, o.obj);
      }
    }
    assert records[..|records|] == records;
    r := Ok(objs);
  }

  /** Record `i` applied to the table of the records before it. */
  lemma ObjectsStep(records: seq<string>, caseSensitive: bool, i: nat)
    requires i < |records|
    requires ObjectsOf(records[..i], caseSensitive).Ok?
    ensures var objs := ObjectsOf(records[..i], caseSensitive).value;
      ObjectsOf(records[..i + 1], caseSensitive) == Apply(objs, ParseRecordAsWritten(records[i], caseSensitive, objs))
  {
    assert records[..i + 1][..i] == records[..i];
  }

  /** An exception ends the loop: no later record runs. */
  lemma {:induction false} ErrorStops(records: seq<string>, caseSensitive: bool, n: nat)
    requires n <= |records|
    requires ObjectsOf(records[..n], caseSensitive).Err?
    ensures ObjectsOf(records, caseSensitive) == ObjectsOf(records[..n], caseSensitive)
    decreases |records| - n
  {
    if n == |records| {
      assert records[..n] == records;
    } else {
      assert records[..n + 1][..n] == records[..n];
      ErrorStops(records, caseSensitive, n + 1);
    }
  }

  /** The entry each record contributes, given the table before it: its name and object, or nothing. */
  function Entries(records: seq<string>, caseSensitive: bool): (es: seq<Option<(string, Obj)>>)
    requires ObjectsOf(records, caseSensitive).Ok?
    ensures |es| == |records|
  {
    if records == [] then []
    else
      var init := records[..|records| - 1];
      var objs := ObjectsOf(init, caseSensitive).value;
      var e := match ParseRecordAsWritten(records[|records| - 1], caseSensitive, objs)
        case Stored(n, obj) => Some((n, obj))
        case _ => None;
      Entries(init, caseSensitive) + [e]
  }

  /** The table is the dictionary those entries build, assigned in order. */
  lemma {:induction false} ObjectsAreEntries(records: seq<string>, caseSensitive: bool)
    requires ObjectsOf(records, caseSensitive).Ok?
    ensures ObjectsOf(records, caseSensitive).value == FromEntries(Entries(records, caseSensitive))
  {
    if records != [] {
      var init := records[..|records| - 1];
      ObjectsAreEntries(init, caseSensitive);
      var es := Entries(records, caseSensitive);
      assert es[..|es| - 1] == Entries(init, caseSensitive);
    }
  }

  /**
   * A name is in the table exactly when some record stored it, and it holds
   * what the last such record stored: a later record with the same name
   * overwrites an earlier one.
   */
  lemma ObjectsLastWins(records: seq<string>, caseSensitive: bool, name: string)
    requires ObjectsOf(records, caseSensitive).Ok?
    ensures var es := Entries(records, caseSensitive);
      && (name in ObjectsOf(records, caseSensitive).value.values <==>
          exists i :: 0 <= i < |es| && es[i].Some? && es[i].value.0 == name)
      && forall i ::
          (0 <= i < |es| && es[i].Some? && es[i].value.0 == name && forall j :: i < j < |es| ==> es[j].None? || es[j].value.0 != name)
          ==> ObjectsOf(records, caseSensitive).value.values[name] == es[i].value.1
  {
    ObjectsAreEntries(records, caseSensitive);
    FromEntriesLookup(Entries(records, caseSensitive), name);
  }
}
