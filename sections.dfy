/**
 * Splitting a PuzzleScript document into its sections (`PSParser.split_ps`),
 * cleaning each section's text (`PSParser.__clean`), reading the prelude
 * options (`PSParser.__parse_prelude`) and finding the engine address in a
 * readme (`PSParser.get_engine`), all from psbs/psparser.py.
 */
module Sections {
  import opened Text
  import opened Wrappers
  import opened Dict
  import Redact

  /** The sections of a PuzzleScript document, in the order `split_ps` creates them. */
  datatype Section =
    | Prelude | Tags | Mappings | Objects | Legend | Sounds | CollisionLayers | Rules | WinConditions | Levels
  {
    /** The key the section has in the source tree. */
    function Name(): string {
      match this
      case Prelude => "prelude"
      case Tags => "tags"
      case Mappings => "mappings"
      case Objects => "objects"
      case Legend => "legend"
      case Sounds => "sounds"
      case CollisionLayers => "collisionlayers"
      case Rules => "rules"
      case WinConditions => "winconditions"
      case Levels => "levels"
    }
  }

  const AllSections: seq<Section> :=
    [Prelude, Tags, Mappings, Objects, Legend, Sounds, CollisionLayers, Rules, WinConditions, Levels]

  lemma AllSectionsListed()
    ensures forall s: Section :: s in AllSections
    ensures forall i, j :: 0 <= i < j < |AllSections| ==> AllSections[i] != AllSections[j]
  {
    forall s: Section ensures s in AllSections {
      match s
      case Prelude => assert AllSections[0] == s;
      case Tags => assert AllSections[1] == s;
      case Mappings => assert AllSections[2] == s;
      case Objects => assert AllSections[3] == s;
      case Legend => assert AllSections[4] == s;
      case Sounds => assert AllSections[5] == s;
      case CollisionLayers => assert AllSections[6] == s;
      case Rules => assert AllSections[7] == s;
      case WinConditions => assert AllSections[8] == s;
      case Levels => assert AllSections[9] == s;
    }
  }

  /** The first section from `AllSections[i]` on, other than the prelude, whose name is `name`. */
  function SectionNamed(name: string, i: nat): (r: Option<Section>)
    ensures r.Some? ==> r.value != Prelude && r.value.Name() == name
    ensures r.None? ==> forall k :: i <= k < |AllSections| && AllSections[k] != Prelude ==> AllSections[k].Name() != name
    decreases |AllSections| - i
  {
    if i >= |AllSections| then None
    else if AllSections[i] != Prelude && AllSections[i].Name() == name then Some(AllSections[i])
    else SectionNamed(name, i + 1)
  }

  /** Different sections have different names. */
  lemma NamesDistinct(s: Section, u: Section)
    requires s.Name() == u.Name()
    ensures s == u
  {
  }

  /** A header found in the redacted text: the span of its line and the section it opens. */
  datatype Header = Header(start: nat, end: nat, section: Section)

  /** The end of the line starting at `p`: the next newline, or the end of the text. */
  function LineEnd(t: string, p: nat): (e: nat)
    requires p <= |t|
    ensures p <= e <= |t| && (e == |t| || t[e] == '\n')
    ensures forall i :: p <= i < e ==> t[i] != '\n'
    decreases |t| - p
  {
    if p == |t| || t[p] == '\n' then p else LineEnd(t, p + 1)
  }

  /**
   * The regular expression `^(tags|mappings|...|levels) *$`, matched
   * ignoring case on one line: a header name in any letter case followed
   * only by spaces. The result is the name as `group().strip().lower()`
   * gives it.
   */
  function HeaderName(line: string): (r: Option<Section>)
    ensures r.Some? ==> r.value != Prelude
  {
    SectionNamed(Lower(RStripChar(line, ' ')), 0)
  }

  /** A line opens section `s` exactly when, trailing spaces removed, it spells the name of `s` in some letter case. */
  lemma HeaderNameMeaning(line: string, s: Section)
    ensures HeaderName(line) == Some(s) <==> s != Prelude && Lower(RStripChar(line, ' ')) == s.Name()
  {
    var name := Lower(RStripChar(line, ' '));
    var r := SectionNamed(name, 0);
    if s != Prelude && name == s.Name() {
      var k := Position(s);
      assert AllSections[k] != Prelude && AllSections[k].Name() == name;
      NamesDistinct(r.value, s);
    }
  }

  /** Where a section stands in `AllSections`. */
  lemma Position(s: Section) returns (k: nat)
    ensures k < |AllSections| && AllSections[k] == s
  {
    k := match s
      case Prelude => 0
      case Tags => 1
      case Mappings => 2
      case Objects => 3
      case Legend => 4
      case Sounds => 5
      case CollisionLayers => 6
      case Rules => 7
      case WinConditions => 8
      case Levels => 9;
  }

  /** Every header lies in `t[p..]`, carries a header name, and ends before the next one starts. */
  predicate Placed(t: string, p: nat, hs: seq<Header>) {
    && (forall j :: 0 <= j < |hs| ==> p <= hs[j].start <= hs[j].end <= |t| && hs[j].section != Prelude)
    && (forall j :: 0 <= j < |hs| - 1 ==> hs[j].end < hs[j + 1].start)
  }

  /** All header lines from the line starting at `p` on, in order. */
  function HeadersFrom(t: string, p: nat): (hs: seq<Header>)
    requires p <= |t|
    ensures Placed(t, p, hs)
    decreases |t| - p
  {
    var e := LineEnd(t, p);
    var rest := if e < |t| then HeadersFrom(t, e + 1) else [];
    match HeaderName(t[p..e])
    case Some(n) => [Header(p, e, n)] + rest
    case None => rest
  }

  /** The text `split_ps` searches for headers: comments blanked out with spaces, so offsets match the source. */
  function Redacted(source: string): (r: string)
    ensures |r| == |source|
  {
    Redact.LengthPreserved(source, " ");
    Concat(Redact.Elements(source, " "))
  }

  function Headers(source: string): (hs: seq<Header>)
    ensures Placed(source, 0, hs)
  {
    HeadersFrom(Redacted(source), 0)
  }

  /** `re.sub(r"^(=*) *", "", line)` on one line: a leading rule of `=` and the spaces after it. */
  function DropRule(line: string): (r: string)
    ensures r == [] || r[0] != ' '
    ensures |r| <= |line|
  {
    if line != [] && line[0] == '=' then DropRule(line[1..]) else DropSpaces(line)
  }

  function DropSpaces(line: string): (r: string)
    ensures r == [] || r[0] != ' '
    ensures |r| <= |line|
  {
    if line != [] && line[0] == ' ' then DropSpaces(line[1..]) else line
  }

  /** `DropRule` on every line. */
  function DropRules(lines: seq<string>): (r: seq<string>)
    ensures |r| == |lines|
  {
    if lines == [] then [] else [DropRule(lines[0])] + DropRules(lines[1..])
  }

  /** The content of one block: rules dropped at every line start, then the whole stripped. */
  function Block(content: string): string {
    Strip(Join(DropRules(Split(content, '\n')), "\n"))
  }

  /** One block of the document: the section it belongs to and its raw text, before `Block` cleans it. */
  datatype Segment = Segment(section: Section, text: string)

  /**
   * Block `j` runs from the end of header `j - 1` (the start of the text
   * for `j == 0`) to the start of header `j` (the end of the text for the
   * last block); it belongs to the section the previous header named, or
   * to the prelude.
   */
  function SegmentAt(source: string, hs: seq<Header>, j: nat): Segment
    requires j <= |hs|
    requires Placed(source, 0, hs)
  {
    var from := if j == 0 then 0 else hs[j - 1].end;
    var to := if j == |hs| then |source| else hs[j].start;
    Segment(if j == 0 then Prelude else hs[j - 1].section, source[from..to])
  }

  /** The segments of a document, one per header plus the opening prelude block. */
  predicate WellFormed(segs: seq<Segment>) {
    && segs != []
    && segs[0].section == Prelude
  }

  /** The first `n` segments. */
  function SegmentList(source: string, hs: seq<Header>, n: nat): (segs: seq<Segment>)
    requires n <= |hs| + 1
    requires Placed(source, 0, hs)
    ensures |segs| == n
  {
    if n == 0 then [] else SegmentList(source, hs, n - 1) + [SegmentAt(source, hs, n - 1)]
  }

  lemma {:induction false} SegmentListAt(source: string, hs: seq<Header>, n: nat)
    requires n <= |hs| + 1
    requires Placed(source, 0, hs)
    ensures forall j :: 0 <= j < n ==> SegmentList(source, hs, n)[j] == SegmentAt(source, hs, j)
  {
    if n > 0 {
      SegmentListAt(source, hs, n - 1);
    }
  }

  function Segments(source: string): (segs: seq<Segment>)
    ensures |segs| == |Headers(source)| + 1
  {
    var hs := Headers(source);
    SegmentList(source, hs, |hs| + 1)
  }

  /** Segment `j` of a document is `SegmentAt(j)`; the first belongs to the prelude. */
  lemma SegmentsAt(source: string)
    ensures forall j :: 0 <= j < |Segments(source)| ==> Segments(source)[j] == SegmentAt(source, Headers(source), j)
    ensures WellFormed(Segments(source))
  {
    var hs := Headers(source);
    SegmentListAt(source, hs, |hs| + 1);
  }

  /** The blocks of section `s`, in document order. */
  function BlocksFor(segs: seq<Segment>, s: Section): seq<string> {
    if segs == [] then []
    else BlocksFor(segs[..|segs| - 1], s) + if segs[|segs| - 1].section == s then [Block(segs[|segs| - 1].text)] else []
  }

  /** All ten sections with their blocks, before the optional ones are pruned. */
  function FullTree(segs: seq<Segment>): (d: Dict<Section, seq<string>>)
    ensures d.keys == AllSections && d.Valid()
    ensures forall s :: s in d.values
  {
    AllSectionsListed();
    Dict(AllSections, map s | s in AllSections :: BlocksFor(segs, s))
  }

  /** `{s: [] for s in sections}`: every section, no block yet. */
  lemma EmptyTree()
    ensures FullTree([]) == Dict(AllSections, map s | s in AllSections :: [])
  {
  }

  /** Deleting `tags` and then `mappings` when they got no block. */
  function Prune(full: Dict<Section, seq<string>>): (d: Dict<Section, seq<string>>)
    requires full.Valid()
    ensures d.Valid()
    ensures forall s :: s in d.values <==> s in full.values && !((s == Tags || s == Mappings) && full.values[s] == [])
    ensures forall s :: s in d.values ==> d.values[s] == full.values[s]
    ensures full.keys != [] && full.keys[0] != Tags && full.keys[0] != Mappings ==> d.keys != [] && d.keys[0] == full.keys[0]
  {
    var d1 := if Tags in full.values && full.values[Tags] == [] then full.Delete(Tags) else full;
    if Mappings in d1.values && d1.values[Mappings] == [] then d1.Delete(Mappings) else d1
  }

  /** The source tree `split_ps` returns. */
  function TreeOf(segs: seq<Segment>): Dict<Section, seq<string>> {
    Prune(FullTree(segs))
  }

  /**
   * `split_ps` on a whole document: a valid dictionary led by a non-empty
   * prelude, holding every section that has blocks (the prelude and the
   * always-present sections even when empty), each with its blocks in
   * document order.
   */
  function SourceTree(source: string): (tree: Dict<Section, seq<string>>)
    ensures tree.Valid()
    ensures |tree.keys| > 0 && tree.keys[0] == Prelude && tree.values[Prelude] != []
    ensures forall s :: s in tree.values <==> (s == Tags || s == Mappings ==> BlocksFor(Segments(source), s) != [])
    ensures forall s :: s in tree.values ==> tree.values[s] == BlocksFor(Segments(source), s)
  {
    SegmentsAt(source);
    TreeShape(Segments(source));
    TreeOf(Segments(source))
  }

  /** A dictionary holding every section with its blocks is the full tree. */
  lemma FullTreeEq(d: Dict<Section, seq<string>>, segs: seq<Segment>)
    requires d.keys == AllSections
    requires forall s :: s in d.values && d.values[s] == BlocksFor(segs, s)
    ensures d == FullTree(segs)
  {
    AllSectionsListed();
    assert d.values == FullTree(segs).values;
  }

  /** Adding one segment appends its block to its own section and to no other. */
  lemma BlocksForAppend(segs: seq<Segment>, x: Segment, s: Section)
    ensures BlocksFor(segs + [x], s) == BlocksFor(segs, s) + if x.section == s then [Block(x.text)] else []
  {
    assert (segs + [x])[..|segs|] == segs;
  }

  lemma {:induction false} FullTreeAppend(segs: seq<Segment>, x: Segment)
    ensures x.section in FullTree(segs).values
    ensures FullTree(segs + [x]) == FullTree(segs).Put(x.section, FullTree(segs).values[x.section] + [Block(x.text)])
  {
    forall s {
      BlocksForAppend(segs, x, s);
    }
    FullTreeEq(FullTree(segs).Put(x.section, FullTree(segs).values[x.section] + [Block(x.text)]), segs + [x]);
  }

  /** Segment `i` appends its block to the section the previous header named. */
  lemma SplitStep(source: string, hs: seq<Header>, i: nat)
    requires i <= |hs|
    requires Placed(source, 0, hs)
    ensures var section := if i == 0 then Prelude else hs[i - 1].section;
            var from := if i == 0 then 0 else hs[i - 1].end;
            var to := if i == |hs| then |source| else hs[i].start;
            var before := FullTree(SegmentList(source, hs, i));
            && from <= to <= |source|
            && FullTree(SegmentList(source, hs, i + 1)) == before.Put(section, before.values[section] + [Block(source[from..to])])
  {
    FullTreeAppend(SegmentList(source, hs, i), SegmentAt(source, hs, i));
  }

  /** The last segment runs to the end of the text; with it the full tree is complete. */
  lemma SplitLast(source: string, hs: seq<Header>)
    requires Placed(source, 0, hs)
    ensures var section := if hs == [] then Prelude else hs[|hs| - 1].section;
            var from := if hs == [] then 0 else hs[|hs| - 1].end;
            var before := FullTree(SegmentList(source, hs, |hs|));
            var full := before.Put(section, before.values[section] + [Block(source[from..])]);
            && from <= |source|
            && full == FullTree(SegmentList(source, hs, |hs| + 1))
            && Tags in full.values && Mappings in full.values
  {
    var section := if hs == [] then Prelude else hs[|hs| - 1].section;
    var from := if hs == [] then 0 else hs[|hs| - 1].end;
    var before := FullTree(SegmentList(source, hs, |hs|));
    SplitStep(source, hs, |hs|);
    assert source[from..] == source[from..|source|];
    assert FullTree(SegmentList(source, hs, |hs| + 1)) == before.Put(section, before.values[section] + [Block(source[from..])]);
  }

  method SplitPs(source: string) returns (tree: Dict<Section, seq<string>>)
    ensures tree == SourceTree(source)
  {
    var sections := Dict(AllSections, map s | s in AllSections :: []);
    var redacted := Redact.RedactComments(source, " ");
    assert redacted == Redacted(source);
    var headers := HeadersFrom(redacted, 0);
    assert headers == Headers(source);
    EmptyTree();
    var section := Prelude;
    var start := 0;
    for i := 0 to |headers|
      invariant sections == FullTree(SegmentList(source, headers, i))
      invariant section == (if i == 0 then Prelude else headers[i - 1].section)
      invariant start == (if i == 0 then 0 else headers[i - 1].end)
    {
      SplitStep(source, headers, i);
      sections := sections.Put(section, sections.values[section] + [Block(source[start..headers[i].start])]);
      section := headers[i].section;
      start := headers[i].end;
    }
    SplitLast(source, headers);
    sections := sections.Put(section, sections.values[section] + [Block(source[start..])]);
    assert SegmentList(source, headers, |headers| + 1) == Segments(source);
    ghost var full := sections;
    if sections.values[Tags] == [] {
      sections := sections.Delete(Tags);
    }
    if sections.values[Mappings] == [] {
      sections := sections.Delete(Mappings);
    }
    tree := sections;
    assert tree == Prune(full);
  }

  /** Total number of blocks over the given section names. */
  function TotalBlocks(names: seq<Section>, segs: seq<Segment>): nat {
    if names == [] then 0 else |BlocksFor(segs, names[0])| + TotalBlocks(names[1..], segs)
  }

  lemma {:induction false} TotalBlocksAppend(names: seq<Section>, segs: seq<Segment>, x: Segment)
    requires forall i, j :: 0 <= i < j < |names| ==> names[i] != names[j]
    ensures TotalBlocks(names, segs + [x]) == TotalBlocks(names, segs) + if x.section in names then 1 else 0
  {
    assert (segs + [x])[..|segs|] == segs;
    if names != [] {
      TotalBlocksAppend(names[1..], segs, x);
      assert x.section in names <==> x.section == names[0] || x.section in names[1..];
    }
  }

  lemma {:induction false} TotalBlocksAll(names: seq<Section>, segs: seq<Segment>)
    requires forall i, j :: 0 <= i < j < |names| ==> names[i] != names[j]
    requires forall j :: 0 <= j < |segs| ==> segs[j].section in names
    ensures TotalBlocks(names, segs) == |segs|
  {
    if segs == [] {
      EmptyTotal(names);
    } else {
      var init := segs[..|segs| - 1];
      TotalBlocksAll(names, init);
      TotalBlocksAppend(names, init, segs[|segs| - 1]);
      assert init + [segs[|segs| - 1]] == segs;
    }
  }

  lemma {:induction false} EmptyTotal(names: seq<Section>)
    ensures TotalBlocks(names, []) == 0
  {
    if names != [] {
      EmptyTotal(names[1..]);
    }
  }

  /** The prelude always gets at least its opening block. */
  lemma {:induction false} PreludeBlock(segs: seq<Segment>)
    requires segs != [] && segs[0].section == Prelude
    ensures BlocksFor(segs, Prelude) != []
  {
    if |segs| > 1 {
      PreludeBlock(segs[..|segs| - 1]);
    }
  }

  /**
   * The prelude comes first and always has a block; `tags` and `mappings`
   * are present exactly when some header named them, every other section
   * always; every kept section holds its blocks in document order.
   */
  lemma TreeShape(segs: seq<Segment>)
    requires WellFormed(segs)
    ensures TreeOf(segs).Valid()
    ensures TreeOf(segs).keys[0] == Prelude
    ensures TreeOf(segs).values[Prelude] != []
    ensures forall s :: s in TreeOf(segs).values <==> (s == Tags || s == Mappings ==> BlocksFor(segs, s) != [])
    ensures forall s :: s in TreeOf(segs).values ==> TreeOf(segs).values[s] == BlocksFor(segs, s)
  {
    PreludeBlock(segs);
    var full := FullTree(segs);
    assert full.keys[0] == Prelude;
    var d := Prune(full);
    assert TreeOf(segs) == d;
    forall s
      ensures s in d.values <==> (s == Tags || s == Mappings ==> BlocksFor(segs, s) != [])
      ensures s in d.values ==> d.values[s] == BlocksFor(segs, s)
    {
      assert s in full.values && full.values[s] == BlocksFor(segs, s);
    }
  }

  /** Every segment's block lands in exactly one section, so the blocks number as many as the segments. */
  lemma BlockCount(segs: seq<Segment>)
    ensures TotalBlocks(AllSections, segs) == |segs|
  {
    AllSectionsListed();
    TotalBlocksAll(AllSections, segs);
  }

  /** Every header closes one block and opens the next, so a document has one block more than headers. */
  lemma SourceBlockCount(source: string)
    ensures TotalBlocks(AllSections, Segments(source)) == |Headers(source)| + 1
  {
    BlockCount(Segments(source));
  }

  /** A document without any header line is one prelude block. */
  lemma NoHeadersAllPrelude(source: string)
    requires Headers(source) == []
    ensures SourceTree(source).values[Prelude] == [Block(source)]
    ensures forall s :: s in SourceTree(source).values && s != Prelude ==> SourceTree(source).values[s] == []
  {
    NoHeadersBlocks(source);
  }

  lemma NoHeadersBlocks(source: string)
    requires Headers(source) == []
    ensures forall s :: BlocksFor(Segments(source), s) == if s == Prelude then [Block(source)] else []
  {
    var segs := Segments(source);
    SegmentsAt(source);
    assert source[0..|source|] == source;
    assert segs == [Segment(Prelude, source)];
    forall s ensures BlocksFor(segs, s) == if s == Prelude then [Block(source)] else [] {
      BlocksForOne(Segment(Prelude, source), s);
    }
  }

  /** A single segment gives one block to its own section and none to the others. */
  lemma BlocksForOne(seg: Segment, s: Section)
    ensures BlocksFor([seg], s) == if seg.section == s then [Block(seg.text)] else []
  {
    assert [seg][..0] == [];
  }

  /**
   * `PSParser.__clean`: comments deleted, then every line stripped. Every
   * line of the result is its own `strip()`, and text without any comment
   * opener only has its lines stripped.
   */
  function Clean(text: string): (r: string)
    ensures forall l :: l in Split(r, '\n') ==> l == Strip(l)
    ensures '(' !in text ==> r == Join(StripLines(SplitLines(text)), "\n")
  {
    var redacted := Concat(Redact.Elements(text, ""));
    Redact.NoCommentText(text, "");
    var lines := SplitLines(redacted);
    StrippedLinesSplit(lines);
    Join(StripLines(lines), "\n")
  }

  /** Every line stripped. */
  function StripLines(lines: seq<string>): (r: seq<string>)
    ensures |r| == |lines| && forall i :: 0 <= i < |lines| ==> r[i] == Strip(lines[i])
  {
    seq(|lines|, i requires 0 <= i < |lines| => Strip(lines[i]))
  }

  /** Splitting joined stripped lines gives lines that are their own `strip()`. */
  lemma StrippedLinesSplit(lines: seq<string>)
    requires forall i :: 0 <= i < |lines| ==> '\n' !in lines[i]
    ensures forall l :: l in Split(Join(StripLines(lines), "\n"), '\n') ==> l == Strip(l)
  {
    var stripped := StripLines(lines);
    if |stripped| == 0 {
      assert Split(Join(stripped, "\n"), '\n') == [""];
    } else {
      forall i | 0 <= i < |stripped| ensures '\n' !in stripped[i] {
        assert '\n' !in lines[i];
        StripSubstring(lines[i]);
      }
      SplitJoin(stripped, '\n');
      forall i | 0 <= i < |stripped| ensures stripped[i] == Strip(stripped[i]) {
        StripIdempotent(lines[i]);
      }
    }
  }

  lemma StripSubstring(s: string)
    ensures forall c :: c in Strip(s) ==> c in s
  {
    StripShape(s);
  }


  /** A single line without surrounding whitespace is cleaned to itself once its comments are gone. */
  lemma CleanOneLine(text: string, redacted: string)
    requires Concat(Redact.Elements(text, "")) == redacted
    requires redacted != [] && '\n' !in redacted
    ensures Clean(text) == Strip(redacted)
  {
    SplitNoSep(redacted, '\n');
  }

  /** `"message ".strip()`. */
  lemma StripTrailingSpace()
    ensures Strip("message ") == "message"
  {
    assert LStrip("message ") == "message ";
    assert "message "[..|"message "| - 1] == "message";
    assert RStrip("message ") == RStrip("message");
  }

  /** Cleaned once, the comment goes and "message " opens a message that keeps "(a". */
  lemma CleanFirst()
    ensures Clean("()message (a") == "message (a"
  {
    Redact.EmptyPlaceholderNotIdempotent();
    CleanOneLine("()message (a", "message (a");
    StripUnchanged("message (a");
  }

  /** Cleaned again, "message " is too close to the start to open a message, so "(a" is a comment. */
  lemma CleanSecond()
    ensures Clean("message (a") == "message"
  {
    Redact.EmptyPlaceholderNotIdempotent();
    CleanOneLine("message (a", "message ");
    StripTrailingSpace();
  }

  /**
   * Cleaning is not idempotent: `Clean(Clean(t))` can differ from
   * `Clean(t)`, because deleting a comment can move a "message " keyword
   * under the length threshold of the message test.
   */
  lemma CleanNotIdempotent()
    ensures Clean("()message (a") == "message (a"
    ensures Clean(Clean("()message (a")) == "message"
  {
    CleanFirst();
    CleanSecond();
  }

  /** `PSParser.sections`: each section's blocks joined by newlines, then cleaned. */
  function CleanSections(tree: Dict<Section, seq<string>>): (sections: Dict<Section, string>)
    ensures sections.keys == tree.keys && sections.values.Keys == tree.values.Keys
  {
    Dict(tree.keys, map s | s in tree.values :: Clean(Join(tree.values[s], "\n")))
  }

  /** A prelude option: a bare keyword is `True`, otherwise the rest of its line. */
  datatype OptionValue = Flag | Value(text: string)

  /** What one prelude line contributes: `line.split(maxsplit=1)` with the key lower-cased. */
  function PreludeEntry(line: string): Option<(string, OptionValue)> {
    var tokens := SplitFirstWord(line);
    if |tokens| == 1 then Some((Lower(tokens[0]), Flag))
    else if |tokens| == 2 then Some((Lower(tokens[0]), Value(tokens[1])))
    else None
  }

  /** `PreludeEntry` of every line. */
  function PreludeEntries(lines: seq<string>): (es: seq<Option<(string, OptionValue)>>)
    ensures |es| == |lines| && forall i :: 0 <= i < |lines| ==> es[i] == PreludeEntry(lines[i])
  {
    if lines == [] then [] else PreludeEntries(lines[..|lines| - 1]) + [PreludeEntry(lines[|lines| - 1])]
  }

  /** The options after the given lines, assigned one after another. */
  function PreludeOf(lines: seq<string>): (d: Dict<string, OptionValue>)
    ensures d.Valid()
    ensures forall k :: k in d.values ==> exists i :: 0 <= i < |lines| && PreludeEntry(lines[i]) == Some((k, d.values[k]))
  {
    FromEntriesValues(PreludeEntries(lines));
    FromEntries(PreludeEntries(lines))
  }

  method ParsePrelude(prelude: string) returns (options: Dict<string, OptionValue>)
    ensures options == PreludeOf(SplitLines(prelude))
  {
    var lines := SplitLines(prelude);
    ghost var es := PreludeEntries(lines);
    options := Empty();
    for i := 0 to |lines|
      invariant options == FromEntries(es[..i])
    {
      FromEntriesStep(es, i);
      var tokens := SplitFirstWord(lines[i]);
      if |tokens| == 1 {
        options := options.Put(Lower(tokens[0]), Flag);
      } else if |tokens| == 2 {
        options := options.Put(Lower(tokens[0]), Value(tokens[1]));
      }
    }
    assert es[..|lines|] == es;
  }

  /**
   * A key is an option exactly when some line starts with it (in any letter
   * case), and its value comes from the last line with that key.
   */
  lemma PreludeLastWins(lines: seq<string>, k: string)
    ensures k in PreludeOf(lines).values <==>
      exists i :: 0 <= i < |lines| && PreludeEntry(lines[i]).Some? && PreludeEntry(lines[i]).value.0 == k
    ensures forall i ::
      (0 <= i < |lines| && PreludeEntry(lines[i]).Some? && PreludeEntry(lines[i]).value.0 == k
       && forall j :: i < j < |lines| ==> PreludeEntry(lines[j]).None? || PreludeEntry(lines[j]).value.0 != k)
      ==> PreludeOf(lines).values[k] == PreludeEntry(lines[i]).value.1
  {
    FromEntriesLookup(PreludeEntries(lines), k);
  }

  /** A blank prelude line sets nothing. */
  lemma BlankLineIgnored(line: string)
    requires IsBlank(line)
    ensures PreludeEntry(line) == None
  {
    SplitFirstWordWords(line);
  }

  const DefaultEngine: string := "https://www.puzzlescript.net/"

  /** `pat` occurs in `t` at offset `q`. */
  predicate MatchAt(t: string, pat: string, q: nat) {
    q + |pat| <= |t| && t[q..q + |pat|] == pat
  }

  /** The start of the last "editor.html" in `t[lo..hi]`, or -1. */
  function LastFind(t: string, pat: string, lo: nat, hi: nat): (q: int)
    requires lo <= hi <= |t|
    ensures q == -1 || (lo <= q && q + |pat| <= hi && MatchAt(t, pat, q))
    ensures q == -1 ==> forall r :: lo <= r && r + |pat| <= hi ==> !MatchAt(t, pat, r)
    ensures q != -1 ==> forall r :: q < r && r + |pat| <= hi ==> !MatchAt(t, pat, r)
    decreases hi - lo
  {
    if hi - lo < |pat| then -1
    else if MatchAt(t, pat, hi - |pat|) then hi - |pat|
    else
      LastFind(t, pat, lo, hi - 1)
  }

  /**
   * The pattern `(http.*)(?:editor\.html)` matches with `http` at `q` and
   * `editor.html` at `s`: `.*` crosses no newline.
   */
  predicate EngineMatch(t: string, q: nat, s: nat) {
    && q + 4 <= s && s + 11 <= |t|
    && StartsWith(t[q..], "http") && MatchAt(t, "editor.html", s)
    && forall i :: q <= i < s ==> t[i] != '\n'
  }

  /**
   * The match `re.search` reports from offset `p` on: the leftmost start,
   * and for that start the last `editor.html`, as the greedy `.*` gives.
   */
  ghost predicate FirstEngineMatch(t: string, p: nat, q: nat, s: nat) {
    && p <= q && EngineMatch(t, q, s)
    && (forall q': nat, s': nat :: p <= q' < q ==> !EngineMatch(t, q', s'))
    && (forall s': nat :: s < s' ==> !EngineMatch(t, q, s'))
  }

  /**
   * `re.search(r"(http.*)(?:editor\.html)", t)` from offset `p` on: the
   * leftmost "http" whose line goes on to an "editor.html"; the greedy `.*`
   * reaches the last such occurrence on that line.
   */
  function EngineFrom(t: string, p: nat): (r: Option<string>)
    requires p <= |t|
    ensures r.Some? ==> StartsWith(r.value, "http") && '\n' !in r.value && Contains(t, r.value + "editor.html")
    ensures r.None? <==> forall q: nat, s: nat :: p <= q ==> !EngineMatch(t, q, s)
    ensures r.Some? ==> exists q: nat, s: nat :: FirstEngineMatch(t, p, q, s) && r.value == t[q..s]
    decreases |t| - p
  {
    if p == |t| then None
    else if StartsWith(t[p..], "http") then
      var e := LineEnd(t, p);
      var q := LastFind(t, "editor.html", p + 4, e);
      EngineLine(t, p);
      if q == -1 then
        EngineSkip(t, p);
        EngineFrom(t, p + 1)
      else
        EngineAt(t, p, q);
        assert FirstEngineMatch(t, p, p, q);
        Some(t[p..q])
    else
      EngineSkip(t, p);
      EngineFrom(t, p + 1)
  }

  /** A position where no match starts changes neither whether a match follows nor which one is first. */
  lemma EngineSkip(t: string, p: nat)
    requires forall s: nat :: !EngineMatch(t, p, s)
    ensures (forall q: nat, s: nat :: p + 1 <= q ==> !EngineMatch(t, q, s)) ==> forall q: nat, s: nat :: p <= q ==> !EngineMatch(t, q, s)
    ensures forall q: nat, s: nat :: FirstEngineMatch(t, p + 1, q, s) ==> FirstEngineMatch(t, p, q, s)
  {
  }

  /** With `http` at `p`, the matches starting there are the `editor.html`s that end before the line does. */
  lemma EngineLine(t: string, p: nat)
    requires p <= |t| && StartsWith(t[p..], "http")
    ensures forall s: nat :: EngineMatch(t, p, s) <==> p + 4 <= s && s + 11 <= LineEnd(t, p) && MatchAt(t, "editor.html", s)
  {
  }

  lemma EngineAt(t: string, p: nat, q: nat)
    requires p + 4 <= q && MatchAt(t, "editor.html", q)
    requires StartsWith(t[p..], "http")
    ensures StartsWith(t[p..q], "http") && Contains(t, t[p..q] + "editor.html")
  {
    assert t[p..q + 11] == t[p..q] + "editor.html";
    assert t[p..q][..4] == t[p..][..4];
    ContainsAt(t, p, t[p..q] + "editor.html");
  }

  lemma {:induction false} ContainsAt(t: string, p: nat, w: string)
    requires p + |w| <= |t| && t[p..p + |w|] == w
    ensures Contains(t, w)
    decreases p
  {
    if p > 0 {
      assert t[1..][p - 1..p - 1 + |w|] == w;
      ContainsAt(t[1..], p - 1, w);
    }
  }

  /**
   * `PSParser.get_engine`: the engine address found in a readme, or the
   * public engine exactly when the pattern matches nowhere.
   */
  function GetEngine(readme: string): (url: string)
    ensures url == DefaultEngine || (StartsWith(url, "http") && '\n' !in url && Contains(readme, url + "editor.html"))
    ensures (forall q: nat, s: nat :: !EngineMatch(readme, q, s)) ==> url == DefaultEngine
    ensures (exists q: nat, s: nat :: EngineMatch(readme, q, s)) ==>
      exists q: nat, s: nat :: FirstEngineMatch(readme, 0, q, s) && url == readme[q..s]
  {
    match EngineFrom(readme, 0)
    case Some(u) => u
    case None => DefaultEngine
  }

  /** A link `<address>editor.html` on one line gives back exactly the address. */
  lemma EngineOfLink(address: string)
    requires StartsWith(address, "http") && '\n' !in address
    ensures GetEngine(address + "editor.html") == address
  {
    var t := address + "editor.html";
    assert t[..|address|] == address;
    assert t[|address|..] == "editor.html";
    assert EngineMatch(t, 0, |address|);
    var url := GetEngine(t);
    var q: nat, s: nat :| FirstEngineMatch(t, 0, q, s) && url == t[q..s];
    assert q == 0;
    assert s == |address|;
  }
}
