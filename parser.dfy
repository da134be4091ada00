/**
 * The `PSParser` class of psbs/psparser.py: built from a document's text, it
 * keeps the source tree, the cleaned sections and the prelude options, and
 * reads the objects and the glyphs from them on request.
 */
module Parser {
  import opened Wrappers
  import opened Dict
  import opened Text
  import Sections
  import Patterns
  import Objects
  import Glyphs

  /** Every section other than `tags` and `mappings` is always in the tree. */
  lemma AlwaysPresent(source: string, s: Sections.Section)
    requires s != Sections.Tags && s != Sections.Mappings
    ensures s in Sections.SourceTree(source).values
    ensures s in Sections.CleanSections(Sections.SourceTree(source)).values
  {
  }

  /** The prelude options of `PSParser(source)`. */
  function SourceOptions(source: string): Dict<string, Sections.OptionValue> {
    AlwaysPresent(source, Sections.Prelude);
    Sections.PreludeOf(SplitLines(Sections.CleanSections(Sections.SourceTree(source)).values[Sections.Prelude]))
  }

  /** What `PSParser(source).get_glyphs()` returns, with `fuel` passes allowed to each table resolution. */
  function SourceGlyphs(source: string, fuel: nat): (r: Result<Glyphs.Table, Glyphs.GlyphError>)
    ensures r.Ok? ==> r.value.Valid()
  {
    AlwaysPresent(source, Sections.Objects);
    AlwaysPresent(source, Sections.Legend);
    AlwaysPresent(source, Sections.CollisionLayers);
    var sections := Sections.CleanSections(Sections.SourceTree(source));
    var caseSensitive := "case_sensitive" in SourceOptions(source).values;
    match Objects.ObjectsOf(Patterns.SplitBlankLines(sections.values[Sections.Objects]), caseSensitive)
    case Err(e) => Err(Glyphs.ObjectsFailed(e))
    case Ok(objs) =>
      var legend := sections.values[Sections.Legend];
      var collisions := sections.values[Sections.CollisionLayers];
      Glyphs.GlyphsOf(objs, legend, collisions, caseSensitive, fuel)
  }

  class PSParser {
    const source: string
    const sourceTree: Dict<Sections.Section, seq<string>>
    const sections: Dict<Sections.Section, string>
    const preludeOptions: Dict<string, Sections.OptionValue>

    /** The fields are what the constructor derives from the source. */
    ghost predicate Valid() {
      && sourceTree == Sections.SourceTree(source)
      && sections == Sections.CleanSections(sourceTree)
      && Sections.Prelude in sections.values
      && Sections.Objects in sections.values
      && Sections.Legend in sections.values
      && Sections.CollisionLayers in sections.values
      && preludeOptions == Sections.PreludeOf(SplitLines(sections.values[Sections.Prelude]))
    }

    /** `PSParser(source)`: split, clean every section, read the prelude. */
    constructor(source: string)
      ensures this.source == source && Valid()
    {
      this.source := source;
      var tree := Sections.SplitPs(source);
      sourceTree := tree;
      var cleaned := Sections.CleanSections(tree);
      sections := cleaned;
      AlwaysPresent(source, Sections.Prelude);
      AlwaysPresent(source, Sections.Objects);
      AlwaysPresent(source, Sections.Legend);
      AlwaysPresent(source, Sections.CollisionLayers);
      var options := Sections.ParsePrelude(cleaned.values[Sections.Prelude]);
      preludeOptions := options;
    }

    /** `"case_sensitive" in self.prelude_options`. */
    predicate CaseSensitive() {
      "case_sensitive" in preludeOptions.values
    }

    /** `get_objects`: the records of the cleaned OBJECTS section. */
    method GetObjects() returns (r: Result<Dict<string, Objects.Obj>, Objects.ObjectsError>)
      requires Valid()
      ensures r == Objects.ObjectsOf(Patterns.SplitBlankLines(sections.values[Sections.Objects]), CaseSensitive())
    {
      r := Objects.GetObjects(sections.values[Sections.Objects], CaseSensitive());
    }

    /** `get_glyphs`: the objects first, then the legend and the collision layers over them. */
    method GetGlyphs(fuel: nat) returns (r: Result<Glyphs.Table, Glyphs.GlyphError>)
      requires Valid()
      ensures r == SourceGlyphs(source, fuel)
    {
      var objs := GetObjects();
      if objs.Err? {
        return Err(Glyphs.ObjectsFailed(objs.error));
      }
      r := Glyphs.GetGlyphs(objs.value, sections.values[Sections.Legend], sections.values[Sections.CollisionLayers], CaseSensitive(), fuel);
    }
  }
}
