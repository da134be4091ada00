/**
 * psbs/templatebuilder.py: the older template skeleton, written with
 * `{% include %}` lines and a blank line after every section. Its
 * `make_template` replaces each empty block list of the tree it is given by
 * `[""]`, in place.
 */
module TemplateBuilder {
  import opened Text
  import opened Dict
  import Template

  /** `make_header(section_name)`. */
  function MakeHeader(name: string): (r: string)
    ensures r != [] && r[0] == '='
  {
    Template.Rule(name) + "\n" + Upper(name) + "\n" + Template.Rule(name) + "\n\n"
  }

  /**
   * The header is the three lines of the `Template` header followed by a
   * blank line, when the name holds no newline.
   */
  lemma HeaderLines(name: string)
    requires '\n' !in name && name != "prelude"
    ensures Split(MakeHeader(name), '\n') == Template.Header(name) + ["", ""]
  {
    var lines := [Template.Rule(name), Upper(name), Template.Rule(name), "", ""];
    assert Join(lines[3..], "\n") == "\n";
    assert Join(lines[2..], "\n") == Template.Rule(name) + "\n" + "\n";
    assert Join(lines[1..], "\n") == Upper(name) + "\n" + Join(lines[2..], "\n");
    assert Join(lines, "\n") == MakeHeader(name);
    assert forall i :: 0 <= i < |lines| ==> '\n' !in lines[i];
    SplitJoin(lines, '\n');
  }

  /** `{% include "<file>" %}` and its newline. */
  function BuilderInclude(file: string): string {
    "{% include \"" + file + "\" %}\n"
  }

  /** The include lines of the first `n` files, in order. */
  function IncludesText(files: seq<string>, n: nat): string
    requires n <= |files|
  {
    if n == 0 then "" else IncludesText(files, n - 1) + BuilderInclude(files[n - 1])
  }

  /** One section: its header unless it is the prelude, its includes, a blank line. */
  function BuilderSection(name: string, blocks: nat): string {
    (if name != "prelude" then MakeHeader(name) else "") + IncludesText(Template.IncludeFiles(name, blocks), |Template.IncludeFiles(name, blocks)|) + "\n"
  }

  /** The sections `names`, in that order, before the final `strip()`. */
  function BuilderText(tree: Dict<string, seq<string>>, names: seq<string>): string
    requires forall k :: k in names ==> k in tree.values
  {
    if names == [] then ""
    else
      var last := names[|names| - 1];
      BuilderText(tree, names[..|names| - 1]) + BuilderSection(last, |tree.values[last]|)
  }

  /** The tree once every empty block list has become `[""]`. */
  function Defaulted(tree: Dict<string, seq<string>>): (r: Dict<string, seq<string>>)
    ensures r.keys == tree.keys && r.values.Keys == tree.values.Keys
    ensures forall k :: k in tree.values && tree.values[k] == [] ==> r.values[k] == [""]
    ensures forall k :: k in tree.values && tree.values[k] != [] ==> r.values[k] == tree.values[k]
  {
    Dict(tree.keys, map k | k in tree.values :: if tree.values[k] == [] then [""] else tree.values[k])
  }

  /** The dictionary `make_template` is handed, and changes. */
  class SourceTree {
    var tree: Dict<string, seq<string>>

    constructor(tree: Dict<string, seq<string>>)
      ensures this.tree == tree
    {
      this.tree := tree;
    }
  }

  /** `make_template(src_tree)`. */
  method MakeTemplate(src: SourceTree) returns (output: string)
    requires forall k :: k in src.tree.values <==> k in src.tree.keys
    modifies src
    ensures src.tree == Defaulted(old(src.tree))
    ensures output == Strip(BuilderText(old(src.tree), old(src.tree).keys))
  {
    output := MakeSections(src);
    FullyDefaulted(old(src.tree));
    output := Strip(output);
  }

  /** The loop over the sections, before the final `strip()`. */
  method MakeSections(src: SourceTree) returns (output: string)
    requires forall k :: k in src.tree.keys ==> k in src.tree.values
    modifies src
    ensures src.tree == PartlyDefaulted(old(src.tree), old(src.tree).keys)
    ensures output == BuilderText(old(src.tree), old(src.tree).keys)
  {
    ghost var start := src.tree;
    output := "";
    for s := 0 to |src.tree.keys|
      invariant src.tree == PartlyDefaulted(start, start.keys[..s])
      invariant output == BuilderText(start, start.keys[..s])
    {
      assert src.tree.keys == start.keys;
      var section := src.tree.keys[s];
      BuilderTextNext(start, start.keys, s);
      DefaultedNext(start, start.keys[..s], section);
      SliceNext(start.keys, s);
      DefaultedSection(section, |start.values[section]|);
      assert BuilderSection(section, |src.tree.values[section]|) == BuilderSection(section, |start.values[section]|);
      output := MakeSection(src, section, output);
      assert src.tree == PartlyDefaulted(start, start.keys[..s + 1]);
    }
    assert start.keys[..|start.keys|] == start.keys;
  }

  lemma SliceNext(xs: seq<string>, s: nat)
    requires s < |xs|
    ensures xs[..s + 1] == xs[..s] + [xs[s]]
  {
  }

  lemma FullyDefaulted(tree: Dict<string, seq<string>>)
    requires forall k :: k in tree.values ==> k in tree.keys
    ensures PartlyDefaulted(tree, tree.keys) == Defaulted(tree)
  {
    assert PartlyDefaulted(tree, tree.keys).values == Defaulted(tree).values;
  }

  /** One pass of the loop: default the section's block list, then write the section. */
  method MakeSection(src: SourceTree, section: string, output: string) returns (out: string)
    requires section in src.tree.values
    modifies src
    ensures src.tree == if old(src.tree).values[section] == [] then old(src.tree).Put(section, [""]) else old(src.tree)
    ensures out == output + BuilderSection(section, |old(src.tree).values[section]|)
  {
    if src.tree.values[section] == [] {
      src.tree := src.tree.Put(section, [""]);
    }
    DefaultedSection(section, |old(src.tree).values[section]|);
    out := AddSection(output, section, |src.tree.values[section]|);
  }

  /** The tree once the empty block lists of the sections `done` have become `[""]`. */
  ghost function PartlyDefaulted(tree: Dict<string, seq<string>>, done: seq<string>): Dict<string, seq<string>> {
    Dict(tree.keys, map k | k in tree.values :: if k in done && tree.values[k] == [] then [""] else tree.values[k])
  }

  lemma DefaultedNext(tree: Dict<string, seq<string>>, done: seq<string>, section: string)
    requires section in tree.values
    ensures var cur := PartlyDefaulted(tree, done);
      && section in cur.values
      && (cur.values[section] == [] ==> cur.Put(section, [""]) == PartlyDefaulted(tree, done + [section]))
      && (cur.values[section] != [] ==> cur == PartlyDefaulted(tree, done + [section]))
  {
    var cur := PartlyDefaulted(tree, done);
    var next := PartlyDefaulted(tree, done + [section]);
    assert forall k :: k in done + [section] <==> k in done || k == section;
    if cur.values[section] == [] {
      assert cur.Put(section, [""]).values == next.values;
    } else {
      assert cur.values == next.values;
    }
  }

  lemma BuilderTextNext(tree: Dict<string, seq<string>>, names: seq<string>, s: nat)
    requires forall k :: k in names ==> k in tree.values
    requires s < |names|
    ensures BuilderText(tree, names[..s + 1]) == BuilderText(tree, names[..s]) + BuilderSection(names[s], |tree.values[names[s]]|)
  {
    assert names[..s + 1][..s] == names[..s];
  }

  /** An empty section is written as a section of one block. */
  lemma DefaultedSection(name: string, blocks: nat)
    ensures BuilderSection(name, if blocks == 0 then 1 else blocks) == BuilderSection(name, blocks)
  {
    assert Template.IncludeFiles(name, if blocks == 0 then 1 else blocks) == Template.IncludeFiles(name, blocks);
  }

  /** One section of the loop. */
  method AddSection(text: string, section: string, count: nat) returns (out: string)
    requires count >= 1
    ensures out == text + BuilderSection(section, count)
  {
    var header := "";
    if section != "prelude" {
      header := MakeHeader(section);
    }
    ghost var includes := IncludesText(Template.IncludeFiles(section, count), count);
    assert BuilderSection(section, count) == header + includes + "\n";
    out := AddIncludes(text + header, section, count);
    AppendAssoc(text, header, includes);
    out := out + "\n";
    AppendAssoc(text, header + includes, "\n");
  }

  /** The inner loop: one include per block, numbered from 1 unless there is only one. */
  method AddIncludes(text: string, section: string, count: nat) returns (out: string)
    requires count >= 1
    ensures out == text + IncludesText(Template.IncludeFiles(section, count), count)
  {
    ghost var files := Template.IncludeFiles(section, count);
    out := text;
    for index := 0 to count
      invariant out == text + IncludesText(files, index)
    {
      var indexStr := if count == 1 then "" else NatToString(index + 1);
      var file := section + indexStr + ".pss";
      assert file == files[index];
      AppendAssoc(text, IncludesText(files, index), BuilderInclude(file));
      out := out + BuilderInclude(file);
    }
  }

  lemma AppendAssoc(a: string, b: string, c: string)
    ensures (a + b) + c == a + (b + c)
  {
  }

  /** Defaulting a second time changes nothing: a second call leaves the tree as it is. */
  lemma DefaultedIdempotent(tree: Dict<string, seq<string>>)
    ensures Defaulted(Defaulted(tree)) == Defaulted(tree)
  {
  }

  /**
   * The text before stripping begins with a header or an include and ends
   * with `%}`, a newline and the section's blank line; the final `strip()`
   * removes exactly those two newlines.
   */
  lemma StripRemovesLastBlankLine(tree: Dict<string, seq<string>>)
    requires forall k :: k in tree.keys ==> k in tree.values
    requires tree.keys != []
    ensures |BuilderText(tree, tree.keys)| >= 2
    ensures Strip(BuilderText(tree, tree.keys)) == BuilderText(tree, tree.keys)[..|BuilderText(tree, tree.keys)| - 2]
  {
    var t := BuilderText(tree, tree.keys);
    TextFramed(tree, tree.keys);
    assert Framed(t);
    StripFramed(t);
  }

  /** Starts with `=` or `{`, ends with `}` and two newlines. */
  predicate Framed(t: string) {
    |t| >= 3 && (t[0] == '=' || t[0] == '{') && t[|t| - 3] == '}' && t[|t| - 2] == '\n' && t[|t| - 1] == '\n'
  }

  lemma StripFramed(t: string)
    requires Framed(t)
    ensures Strip(t) == t[..|t| - 2]
  {
    var u := t[..|t| - 1];
    var v := t[..|t| - 2];
    assert u[|u| - 1] == '\n' && u[..|u| - 1] == v;
    assert RStrip(v) == v;
    assert RStrip(u) == v;
    assert RStrip(t) == v;
  }

  lemma FramedAppend(a: string, b: string)
    requires Framed(a) && Framed(b)
    ensures Framed(a + b)
  {
    var t := a + b;
    assert t[0] == a[0];
    assert t[|t| - 3] == b[|b| - 3] && t[|t| - 2] == b[|b| - 2] && t[|t| - 1] == b[|b| - 1];
  }

  lemma {:induction false} TextFramed(tree: Dict<string, seq<string>>, names: seq<string>)
    requires forall k :: k in names ==> k in tree.values
    requires names != []
    ensures Framed(BuilderText(tree, names))
  {
    var last := names[|names| - 1];
    SectionFramed(last, |tree.values[last]|);
    if names[..|names| - 1] != [] {
      TextFramed(tree, names[..|names| - 1]);
      FramedAppend(BuilderText(tree, names[..|names| - 1]), BuilderSection(last, |tree.values[last]|));
    } else {
      assert BuilderText(tree, names) == "" + BuilderSection(last, |tree.values[last]|);
    }
  }

  /** A section starts with its header's `=` or its first include's `{` and ends with `}` and two newlines. */
  lemma SectionFramed(name: string, blocks: nat)
    ensures Framed(BuilderSection(name, blocks))
  {
    var files := Template.IncludeFiles(name, blocks);
    IncludesShape(files, |files|);
  }

  /** The includes start with `{` and end with `}` and a newline. */
  lemma {:induction false} IncludesShape(files: seq<string>, n: nat)
    requires 1 <= n <= |files|
    ensures var c := IncludesText(files, n); |c| >= 2 && c[0] == '{' && c[|c| - 2] == '}' && c[|c| - 1] == '\n'
  {
    var inc := BuilderInclude(files[n - 1]);
    assert inc[0] == '{' && inc[|inc| - 2] == '}' && inc[|inc| - 1] == '\n';
    if n > 1 {
      IncludesShape(files, n - 1);
    }
  }
}
