/**
 * The string logic of the `Template` class of psbs/template.py: the
 * `make_template` skeleton that includes one `.pss` file per source block, and
 * `postprocess`, which runs the registered post-processing functions in turn.
 */
module Template {
  import opened Text
  import opened Dict

  /** The `=` rule above and below a section name: one longer than the name. */
  function Rule(name: string): (r: string)
    ensures |r| == |name| + 1 && forall i :: 0 <= i < |r| ==> r[i] == '='
  {
    Repeat('=', |name| + 1)
  }

  /** The three header lines of a section; `prelude` has none. */
  function Header(name: string): seq<string> {
    if name == "prelude" then [] else [Rule(name), Upper(name), Rule(name)]
  }

  /** The included file for block `index` (1-based) of `count`. */
  function FileName(name: string, count: nat, index: nat): string {
    name + (if count == 1 then "" else NatToString(index)) + ".pss"
  }

  /** The files a section with `blocks` blocks includes; an empty section still includes one. */
  function IncludeFiles(name: string, blocks: nat): (r: seq<string>)
    ensures |r| == if blocks == 0 then 1 else blocks
    ensures forall i :: 0 <= i < |r| ==> r[i] == FileName(name, |r|, i + 1)
  {
    var count := if blocks == 0 then 1 else blocks;
    seq(count, i requires 0 <= i < count => FileName(name, count, i + 1))
  }

  /** `(% include "<file>" +%)`. */
  function IncludeLine(file: string): string {
    "(% include \"" + file + "\" +%)"
  }

  function IncludeLines(name: string, blocks: nat): (r: seq<string>)
    ensures |r| == |IncludeFiles(name, blocks)|
    ensures forall i :: 0 <= i < |r| ==> r[i] == IncludeLine(IncludeFiles(name, blocks)[i])
  {
    var files := IncludeFiles(name, blocks);
    seq(|files|, i requires 0 <= i < |files| => IncludeLine(files[i]))
  }

  function SectionLines(name: string, blocks: nat): seq<string> {
    Header(name) + IncludeLines(name, blocks)
  }

  /** The lines of the sections `names`, in that order. */
  function TemplateLines(tree: Dict<string, seq<string>>, names: seq<string>): seq<string>
    requires forall k :: k in names ==> k in tree.values
  {
    if names == [] then []
    else
      var last := names[|names| - 1];
      TemplateLines(tree, names[..|names| - 1]) + SectionLines(last, |tree.values[last]|)
  }

  /** `Template.make_template(src_tree)`. */
  method MakeTemplate(srcTree: Dict<string, seq<string>>) returns (r: string)
    requires forall k :: k in srcTree.keys ==> k in srcTree.values
    ensures r == Strip(Join(TemplateLines(srcTree, srcTree.keys), "\n"))
  {
    var lines: seq<string> := [];
    for s := 0 to |srcTree.keys|
      invariant lines == TemplateLines(srcTree, srcTree.keys[..s])
    {
      var section := srcTree.keys[s];
      var content := srcTree.values[section];
      TemplateLinesNext(srcTree, srcTree.keys, s);
      lines := AddSection(lines, section, content);
    }
    assert srcTree.keys[..|srcTree.keys|] == srcTree.keys;
    r := Strip(Join(lines, "\n"));
  }

  lemma TemplateLinesNext(tree: Dict<string, seq<string>>, names: seq<string>, s: nat)
    requires forall k :: k in names ==> k in tree.values
    requires s < |names|
    ensures TemplateLines(tree, names[..s + 1]) == TemplateLines(tree, names[..s]) + SectionLines(names[s], |tree.values[names[s]]|)
  {
    assert names[..s + 1][..s] == names[..s];
  }

  /** One section of the loop: its header unless it is the prelude, then its includes. */
  method AddSection(lines: seq<string>, section: string, content: seq<string>) returns (out: seq<string>)
    ensures out == lines + SectionLines(section, |content|)
  {
    var header: seq<string> := [];
    if section != "prelude" {
      header := [Rule(section), Upper(section), Rule(section)];
    }
    out := AddIncludes(lines + header, section, |content|);
    assert header == Header(section);
    assert out == lines + (header + IncludeLines(section, |content|));
  }

  /** The inner loop: one include line per block, numbered from 1. */
  method AddIncludes(lines: seq<string>, section: string, blocks: nat) returns (out: seq<string>)
    ensures out == lines + IncludeLines(section, blocks)
  {
    var count := if blocks == 0 then 1 else blocks;
    out := lines;
    for index := 1 to count + 1
      invariant out == lines + IncludeLines(section, blocks)[..index - 1]
    {
      var indexStr := if count == 1 then "" else NatToString(index);
      var file := section + indexStr + ".pss";
      assert file == IncludeFiles(section, blocks)[index - 1];
      assert IncludeLines(section, blocks)[..index] == IncludeLines(section, blocks)[..index - 1] + [IncludeLine(file)];
      out := out + ["(% include \"" + file + "\" +%)"];
    }
    assert IncludeLines(section, blocks)[..count] == IncludeLines(section, blocks);
  }

  /** One or no blocks: the single include names the bare section. */
  lemma SingleInclude(name: string, blocks: nat)
    requires blocks <= 1
    ensures IncludeFiles(name, blocks) == [name + ".pss"]
  {
    assert name + "" == name;
  }

  /** Several blocks: block `i` (1-based) is `name + str(i) + ".pss"`, and no two coincide. */
  lemma NumberedIncludes(name: string, blocks: nat)
    requires blocks > 1
    ensures |IncludeFiles(name, blocks)| == blocks
    ensures forall i :: 1 <= i <= blocks ==> IncludeFiles(name, blocks)[i - 1] == name + NatToString(i) + ".pss"
    ensures forall i, j :: 0 <= i < j < blocks ==> IncludeFiles(name, blocks)[i] != IncludeFiles(name, blocks)[j]
  {
    var files := IncludeFiles(name, blocks);
    forall i, j | 0 <= i < j < blocks
      ensures files[i] != files[j]
    {
      if files[i] == files[j] {
        var a, b := NatToString(i + 1), NatToString(j + 1);
        assert files[i] == name + a + ".pss";
        assert files[j] == name + b + ".pss";
        assert |a| == |b|;
        assert a == files[i][|name|..|name| + |a|];
        assert b == files[j][|name|..|name| + |b|];
        DigitsValueOfNatToString(i + 1);
        DigitsValueOfNatToString(j + 1);
        assert false;
      }
    }
  }

  /** The final `strip()` removes nothing once there is at least one section. */
  lemma StripKeepsTemplate(tree: Dict<string, seq<string>>)
    requires forall k :: k in tree.keys ==> k in tree.values
    requires tree.keys != []
    ensures Strip(Join(TemplateLines(tree, tree.keys), "\n")) == Join(TemplateLines(tree, tree.keys), "\n")
  {
    var lines := TemplateLines(tree, tree.keys);
    LinesShape(tree, tree.keys);
    JoinEnds(lines, "\n");
    var text := Join(lines, "\n");
    assert text[0] == lines[0][0];
    assert text[|text| - 1] == lines[|lines| - 1][|lines[|lines| - 1]| - 1];
    StripUnchanged(text);
  }

  /** Every template starts with `=` or `(` and ends with `)`. */
  lemma {:induction false} LinesShape(tree: Dict<string, seq<string>>, names: seq<string>)
    requires forall k :: k in names ==> k in tree.values
    requires names != []
    ensures var lines := TemplateLines(tree, names);
      && lines != [] && lines[0] != [] && lines[|lines| - 1] != []
      && lines[0][0] in {'=', '('} && lines[|lines| - 1][|lines[|lines| - 1]| - 1] == ')'
  {
    var init := names[..|names| - 1];
    var last := names[|names| - 1];
    var own := SectionLines(last, |tree.values[last]|);
    assert own[|own| - 1] == IncludeLine(IncludeFiles(last, |tree.values[last]|)[|own| - |Header(last)| - 1]);
    if init != [] {
      LinesShape(tree, init);
    } else {
      assert own[0] == Rule(last) || own[0] == IncludeLine(IncludeFiles(last, |tree.values[last]|)[0]);
    }
  }

  /** `postprocess`: the registered functions applied in list order, each to the previous result. */
  function Pipeline(steps: seq<string -> string>, input: string): string {
    if steps == [] then input else steps[|steps| - 1](Pipeline(steps[..|steps| - 1], input))
  }

  /** Running two lists of steps one after the other is running their concatenation. */
  lemma {:induction false} PipelineAppend(a: seq<string -> string>, b: seq<string -> string>, input: string)
    ensures Pipeline(a + b, input) == Pipeline(b, Pipeline(a, input))
    decreases |b|
  {
    if b == [] {
      assert a + b == a;
    } else {
      assert (a + b)[..|a + b| - 1] == a + b[..|b| - 1];
      PipelineAppend(a, b[..|b| - 1], input);
    }
  }

  /** The steps the extensions registered, in registration order. */
  function Flatten(posts: seq<seq<string -> string>>): seq<string -> string> {
    if posts == [] then [] else Flatten(posts[..|posts| - 1]) + posts[|posts| - 1]
  }

  class Template {
    var postprocessingSteps: seq<string -> string>

    /**
     * The part of `Template(filename, config)` that this model keeps: the
     * `post` list of each extension, in load order, is appended to the steps.
     */
    constructor(extensionPosts: seq<seq<string -> string>>)
      ensures postprocessingSteps == Flatten(extensionPosts)
    {
      var steps: seq<string -> string> := [];
      for e := 0 to |extensionPosts|
        invariant steps == Flatten(extensionPosts[..e])
      {
        assert extensionPosts[..e + 1][..e] == extensionPosts[..e];
        steps := steps + extensionPosts[e];
      }
      postprocessingSteps := steps;
      assert extensionPosts[..|extensionPosts|] == extensionPosts;
    }

    /** `postprocess(input_str)`. */
    method Postprocess(input: string) returns (output: string)
      ensures output == Pipeline(postprocessingSteps, input)
    {
      output := input;
      for i := 0 to |postprocessingSteps|
        invariant output == Pipeline(postprocessingSteps[..i], input)
      {
        assert postprocessingSteps[..i + 1][..i] == postprocessingSteps[..i];
        output := postprocessingSteps[i](output);
      }
      assert postprocessingSteps[..|postprocessingSteps|] == postprocessingSteps;
    }
  }

  /** With no steps registered, post-processing returns its input. */
  lemma PipelineEmpty(input: string)
    ensures Pipeline([], input) == input
  {
  }

  /** An extension loaded later post-processes the output of the ones loaded before it. */
  lemma {:induction false} LaterExtensionsRunLater(posts: seq<seq<string -> string>>, more: seq<string -> string>, input: string)
    ensures Pipeline(Flatten(posts + [more]), input) == Pipeline(more, Pipeline(Flatten(posts), input))
  {
    assert (posts + [more])[..|posts|] == posts;
    PipelineAppend(Flatten(posts), more, input);
  }
}
