/** `ISICLoaderMixin._load_data`: find the data file of the current
    language, raise a ValueError listing the available languages when
    there is none, and otherwise reset `sections` and append one decoded
    section per record of `data["sections"]`. */
module Loader {
  import opened Wrappers
  import opened Json
  import opened Taxonomy
  import opened Decode
  import opened Languages

  /** A file `<stem>.json` of the package's data directory, with the
      value `json.load` parses from it. */
  datatype DataFile = DataFile(stem: string, content: Json)

  /** What a load ends with: success, the ValueError for a language
      without a data file, or the KeyError/TypeError a malformed dataset
      raises. */
  datatype LoadOutcome = Loaded | LanguageNotSupported(message: string) | DatasetMalformed

  /** The stems the directory scan for `*.json` returns, in listing order. */
  function Stems(dir: seq<DataFile>): (r: seq<string>)
    ensures |r| == |dir|
    ensures forall k :: 0 <= k < |dir| ==> r[k] == dir[k].stem
  {
    seq(|dir|, k requires 0 <= k < |dir| => dir[k].stem)
  }

  /** Opening and parsing `data/<language>.json`; None when the file does
      not exist. */
  function FindFile(dir: seq<DataFile>, language: string): (r: Option<Json>)
    ensures r.None? <==> language !in Stems(dir)
    ensures r.Some? ==> DataFile(language, r.value) in dir
  {
    if dir == [] then None
    else if dir[0].stem == language then Some(dir[0].content)
    else
      assert Stems(dir) == [dir[0].stem] + Stems(dir[1..]);
      FindFile(dir[1..], language)
  }

  /** The outcome of `_load_data` and the value of `sections` after it,
      starting from `previous`. */
  function Load(dir: seq<DataFile>, language: string, previous: seq<Section>): (r: (LoadOutcome, seq<Section>))
    ensures r.0.LanguageNotSupported? <==> language !in Stems(dir)
    ensures r.0.LanguageNotSupported? ==> r.1 == previous
    ensures r.0 == Loaded ==>
              FindFile(dir, language).Some? &&
              FieldItems(FindFile(dir, language).value, "sections").Some? &&
              Corresponds(FieldItems(FindFile(dir, language).value, "sections").value, r.1, DecodeSection)
    ensures FindFile(dir, language).Some? && FieldItems(FindFile(dir, language).value, "sections").None? ==>
              r == (DatasetMalformed, [])
  {
    match FindFile(dir, language)
    case None => (LanguageNotSupported(UnsupportedMessage(language, Stems(dir))), previous)
    case Some(data) =>
      match FieldItems(data, "sections")
      case None => (DatasetMalformed, [])
      case Some(xs) =>
        match DecodeAll(xs, DecodeSection)
        case Some(sections) => (Loaded, sections)
        case None => (DatasetMalformed, DecodePrefix(xs, DecodeSection))
  }

  /** A language without a data file fails with the ValueError message
      and leaves `sections` as it was; a language with one never does. */
  lemma LoadMissingFile(dir: seq<DataFile>, language: string, previous: seq<Section>)
    ensures Load(dir, language, previous).0.LanguageNotSupported? <==> language !in Stems(dir)
    ensures language !in Stems(dir) ==>
      Load(dir, language, previous) == (LanguageNotSupported(UnsupportedMessage(language, Stems(dir))), previous) &&
      language !in SortStems(Stems(dir))
  {
    if language !in Stems(dir) {
      assert language !in multiset(Stems(dir));
    }
  }

  /** Once the file exists, the result does not depend on what `sections`
      held before: a load replaces, it does not accumulate. */
  lemma LoadReplaces(dir: seq<DataFile>, language: string, previous: seq<Section>, other: seq<Section>)
    requires language in Stems(dir)
    ensures Load(dir, language, previous) == Load(dir, language, other)
  {
  }

  /** Loading twice gives what loading once gives. */
  lemma LoadIdempotent(dir: seq<DataFile>, language: string, previous: seq<Section>)
    ensures Load(dir, language, Load(dir, language, previous).1) == Load(dir, language, previous)
  {
  }

  /** With `data["sections"]` readable as `xs`: the load succeeds exactly
      when every record decodes; then `sections` holds one section per
      record, in order, with as many classes as the input; otherwise it
      holds the sections decoded before the first bad record. */
  lemma LoadSections(dir: seq<DataFile>, language: string, previous: seq<Section>, data: Json, xs: seq<Json>)
    requires FindFile(dir, language) == Some(data)
    requires FieldItems(data, "sections") == Some(xs)
    ensures Load(dir, language, previous).0 == Loaded <==> forall k :: 0 <= k < |xs| ==> DecodeSection(xs[k]).Some?
    ensures Load(dir, language, previous).0 == Loaded ==>
      Corresponds(xs, Load(dir, language, previous).1, DecodeSection) &&
      ClassCount(Load(dir, language, previous).1) == InputClassCount(xs)
    ensures Load(dir, language, previous).0 != Loaded ==>
      Load(dir, language, previous) == (DatasetMalformed, DecodePrefix(xs, DecodeSection)) &&
      |Load(dir, language, previous).1| < |xs|
  {
    DecodePrefixAgrees(xs, DecodeSection);
    match DecodeAll(xs, DecodeSection)
    case Some(sections) => ClassCountPreserved(xs, sections);
    case None =>
  }

  /** The dataset layout the loader reads: an object whose "sections" key
      holds one record per section. */
  function EncodeDataset(sections: seq<Section>): Json
  {
    JObject(map["sections" := JArray(EncodeAll(sections, EncodeSection))])
  }

  /** Every tree is loaded back exactly from its own dataset file. */
  lemma LoadEncoded(dir: seq<DataFile>, language: string, previous: seq<Section>, sections: seq<Section>)
    requires FindFile(dir, language) == Some(EncodeDataset(sections))
    ensures Load(dir, language, previous) == (Loaded, sections)
  {
    var xs := EncodeAll(sections, EncodeSection);
    assert FieldItems(EncodeDataset(sections), "sections") == Some(xs);
    forall k | 0 <= k < |sections| { SectionRoundTrip(sections[k]); }
    RoundTripAll(sections, EncodeSection, DecodeSection);
  }

  /** The state `_load_data` works on: the classifier's language and the
      sections it loaded. */
  class ISICLoader {
    var language: string
    var sections: seq<Section>

    constructor (language: string)
      ensures this.language == language && sections == []
    {
      this.language := language;
      sections := [];
    }

    method LoadData(dir: seq<DataFile>) returns (outcome: LoadOutcome)
      modifies this`sections
      ensures language == old(language)
      ensures (outcome, sections) == Load(dir, language, old(sections))
    {
      var file := FindFile(dir, language);
      if file.None? {
        return LanguageNotSupported(UnsupportedMessage(language, Stems(dir)));
      }
      sections := [];
      var items := FieldItems(file.value, "sections");
      if items.None? {
        return DatasetMalformed;
      }
      var xs := items.value;
      var i := 0;
      while i < |xs|
        invariant 0 <= i <= |xs|
        invariant Corresponds(xs[..i], sections, DecodeSection)
      {
        var section := DecodeSection(xs[i]);
        if section.None? {
          DecodePrefixOf(xs, DecodeSection, sections, i);
          return DatasetMalformed;
        }
        CorrespondsAppend(xs, DecodeSection, sections, i, section.value);
        sections := sections + [section.value];
        i := i + 1;
      }
      assert xs[..i] == xs;
      DecodeAllOf(xs, DecodeSection, sections);
      return Loaded;
    }
  }

  /** Two classifiers that load the same data directory for the same
      language hold equal section trees. */
  method LoadTwoClassifiers(dir: seq<DataFile>, language: string) returns (first: seq<Section>, second: seq<Section>)
    ensures first == second
  {
    var one := new ISICLoader(language);
    var outcome := one.LoadData(dir);
    var two := new ISICLoader(language);
    outcome := two.LoadData(dir);
    first, second := one.sections, two.sections;
  }
}
