/** The pure part of the loader: the nested list comprehensions that turn
    one parsed section record into a Section with its divisions, groups
    and classes. Each level reads its code from its own key ("section",
    "division", "group", "class"), its description from "description",
    and its children from "divisions", "groups" or "classes". */
module Decode {
  import opened Wrappers
  import opened Json
  import opened Taxonomy

  /** `ys` is what decoding `xs` element by element gives: one output per
      input, in the same order. */
  ghost predicate Corresponds<T>(xs: seq<Json>, ys: seq<T>, decode: Json -> Option<T>)
  {
    |xs| == |ys| && forall k :: 0 <= k < |xs| ==> decode(xs[k]) == Some(ys[k])
  }

  /** The list comprehension `[decode(x) for x in xs]`: it fails as soon
      as one element fails, and otherwise keeps every element, in order. */
  function DecodeAll<T>(xs: seq<Json>, decode: Json -> Option<T>): (r: Option<seq<T>>)
    ensures r.Some? <==> forall k :: 0 <= k < |xs| ==> decode(xs[k]).Some?
    ensures r.Some? ==> Corresponds(xs, r.value, decode)
  {
    if xs == [] then Some([])
    else
      match decode(xs[0])
      case None => None
      case Some(y) =>
        match DecodeAll(xs[1..], decode)
        case None => None
        case Some(ys) => Some([y] + ys)
  }

  /** A decoding is determined by its elements: whatever corresponds to
      `xs` is what `DecodeAll` returns. */
  lemma DecodeAllOf<T>(xs: seq<Json>, decode: Json -> Option<T>, ys: seq<T>)
    requires Corresponds(xs, ys, decode)
    ensures DecodeAll(xs, decode) == Some(ys)
  {
    var r := DecodeAll(xs, decode);
    assert r.Some?;
    assert r.value == ys;
  }

  /** One more step of an appending loop keeps the correspondence. */
  lemma CorrespondsAppend<T>(xs: seq<Json>, decode: Json -> Option<T>, ys: seq<T>, i: nat, y: T)
    requires i < |xs| && decode(xs[i]) == Some(y)
    requires Corresponds(xs[..i], ys, decode)
    ensures Corresponds(xs[..i + 1], ys + [y], decode)
  {
    forall k | 0 <= k < i + 1 ensures decode(xs[..i + 1][k]) == Some((ys + [y])[k]) {
      if k < i { assert xs[..i + 1][k] == xs[..i][k]; }
    }
  }

  /** What a `for` loop that appends `decode(x)` has collected when it
      stops: every element before the first one that fails. */
  function DecodePrefix<T>(xs: seq<Json>, decode: Json -> Option<T>): (r: seq<T>)
    ensures |r| <= |xs|
    ensures forall k :: 0 <= k < |r| ==> decode(xs[k]) == Some(r[k])
    ensures |r| < |xs| ==> decode(xs[|r|]).None?
  {
    if xs == [] then []
    else
      match decode(xs[0])
      case None => []
      case Some(y) => [y] + DecodePrefix(xs[1..], decode)
  }

  /** A loop that decoded the first `i` elements into `ys` and then met
      an element that fails has collected `DecodePrefix`. */
  lemma DecodePrefixOf<T>(xs: seq<Json>, decode: Json -> Option<T>, ys: seq<T>, i: nat)
    requires i < |xs| && decode(xs[i]).None?
    requires Corresponds(xs[..i], ys, decode)
    ensures DecodePrefix(xs, decode) == ys
  {
    var r := DecodePrefix(xs, decode);
    assert forall k :: 0 <= k < i ==> decode(xs[k]).Some? by {
      forall k | 0 <= k < i ensures decode(xs[k]).Some? { assert xs[..i][k] == xs[k]; }
    }
    assert |r| == i;
    forall k | 0 <= k < i ensures r[k] == ys[k] {
      assert xs[..i][k] == xs[k];
    }
  }

  /** When every element decodes, the loop collects the whole decoding;
      when one fails, `DecodeAll` fails and the loop collected exactly
      the elements before it. */
  lemma {:induction false} DecodePrefixAgrees<T>(xs: seq<Json>, decode: Json -> Option<T>)
    ensures DecodeAll(xs, decode).Some? ==> DecodePrefix(xs, decode) == DecodeAll(xs, decode).value
    ensures DecodeAll(xs, decode).None? ==> |DecodePrefix(xs, decode)| < |xs|
  {
    if xs != [] && decode(xs[0]).Some? {
      DecodePrefixAgrees(xs[1..], decode);
    }
  }

  function DecodeClass(j: Json): (r: Option<Class>)
    ensures r.Some? <==> StringField(j, "class").Some? && StringField(j, "description").Some?
    ensures r.Some? ==> StringField(j, "class") == Some(r.value.code)
    ensures r.Some? ==> StringField(j, "description") == Some(r.value.description)
  {
    match (StringField(j, "class"), StringField(j, "description"))
    case (Some(code), Some(description)) => Some(Class(code, description))
    case _ => None
  }

  function DecodeGroup(j: Json): (r: Option<Group>)
    ensures r.Some? <==>
      StringField(j, "group").Some? && StringField(j, "description").Some? &&
      FieldItems(j, "classes").Some? &&
      forall k :: 0 <= k < |FieldItems(j, "classes").value| ==> DecodeClass(FieldItems(j, "classes").value[k]).Some?
    ensures r.Some? ==> StringField(j, "group") == Some(r.value.code)
    ensures r.Some? ==> StringField(j, "description") == Some(r.value.description)
    ensures r.Some? ==> Corresponds(FieldItems(j, "classes").value, r.value.classes, DecodeClass)
  {
    match (StringField(j, "group"), StringField(j, "description"), FieldItems(j, "classes"))
    case (Some(code), Some(description), Some(xs)) =>
      (match DecodeAll(xs, DecodeClass)
       case Some(classes) => Some(Group(code, description, classes))
       case None => None)
    case _ => None
  }

  function DecodeDivision(j: Json): (r: Option<Division>)
    ensures r.Some? <==>
      StringField(j, "division").Some? && StringField(j, "description").Some? &&
      FieldItems(j, "groups").Some? &&
      forall k :: 0 <= k < |FieldItems(j, "groups").value| ==> DecodeGroup(FieldItems(j, "groups").value[k]).Some?
    ensures r.Some? ==> StringField(j, "division") == Some(r.value.code)
    ensures r.Some? ==> StringField(j, "description") == Some(r.value.description)
    ensures r.Some? ==> Corresponds(FieldItems(j, "groups").value, r.value.groups, DecodeGroup)
  {
    match (StringField(j, "division"), StringField(j, "description"), FieldItems(j, "groups"))
    case (Some(code), Some(description), Some(xs)) =>
      (match DecodeAll(xs, DecodeGroup)
       case Some(groups) => Some(Division(code, description, groups))
       case None => None)
    case _ => None
  }

  /** One iteration of the loader's loop: `ISICSection(code=...,
      description=..., divisions=[...])` built from one section record. */
  function DecodeSection(j: Json): (r: Option<Section>)
    ensures r.Some? <==>
      StringField(j, "section").Some? && StringField(j, "description").Some? &&
      FieldItems(j, "divisions").Some? &&
      forall k :: 0 <= k < |FieldItems(j, "divisions").value| ==> DecodeDivision(FieldItems(j, "divisions").value[k]).Some?
    ensures r.Some? ==> StringField(j, "section") == Some(r.value.code)
    ensures r.Some? ==> StringField(j, "description") == Some(r.value.description)
    ensures r.Some? ==> Corresponds(FieldItems(j, "divisions").value, r.value.divisions, DecodeDivision)
  {
    match (StringField(j, "section"), StringField(j, "description"), FieldItems(j, "divisions"))
    case (Some(code), Some(description), Some(xs)) =>
      (match DecodeAll(xs, DecodeDivision)
       case Some(divisions) => Some(Section(code, description, divisions))
       case None => None)
    case _ => None
  }

  // The inverse direction: the record layout a dataset uses for each
  // level. Decoding it gives the tree back, so the decoder loses nothing.

  function EncodeAll<T>(xs: seq<T>, encode: T -> Json): (r: seq<Json>)
    ensures |r| == |xs|
    ensures forall k :: 0 <= k < |xs| ==> r[k] == encode(xs[k])
  {
    seq(|xs|, k requires 0 <= k < |xs| => encode(xs[k]))
  }

  function EncodeClass(c: Class): Json
  {
    JObject(map["class" := JString(c.code), "description" := JString(c.description)])
  }

  function EncodeGroup(g: Group): Json
  {
    JObject(map["group" := JString(g.code), "description" := JString(g.description),
                "classes" := JArray(EncodeAll(g.classes, EncodeClass))])
  }

  function EncodeDivision(d: Division): Json
  {
    JObject(map["division" := JString(d.code), "description" := JString(d.description),
                "groups" := JArray(EncodeAll(d.groups, EncodeGroup))])
  }

  function EncodeSection(s: Section): Json
  {
    JObject(map["section" := JString(s.code), "description" := JString(s.description),
                "divisions" := JArray(EncodeAll(s.divisions, EncodeDivision))])
  }

  lemma RoundTripAll<T>(xs: seq<T>, encode: T -> Json, decode: Json -> Option<T>)
    requires forall k :: 0 <= k < |xs| ==> decode(encode(xs[k])) == Some(xs[k])
    ensures DecodeAll(EncodeAll(xs, encode), decode) == Some(xs)
  {
    DecodeAllOf(EncodeAll(xs, encode), decode, xs);
  }

  lemma ClassRoundTrip(c: Class)
    ensures DecodeClass(EncodeClass(c)) == Some(c)
  {
  }

  lemma GroupRoundTrip(g: Group)
    ensures DecodeGroup(EncodeGroup(g)) == Some(g)
  {
    forall k | 0 <= k < |g.classes| { ClassRoundTrip(g.classes[k]); }
    RoundTripAll(g.classes, EncodeClass, DecodeClass);
  }

  lemma DivisionRoundTrip(d: Division)
    ensures DecodeDivision(EncodeDivision(d)) == Some(d)
  {
    forall k | 0 <= k < |d.groups| { GroupRoundTrip(d.groups[k]); }
    RoundTripAll(d.groups, EncodeGroup, DecodeGroup);
  }

  /** Every section tree is what the loader builds from its own record. */
  lemma SectionRoundTrip(s: Section)
    ensures DecodeSection(EncodeSection(s)) == Some(s)
  {
    forall k | 0 <= k < |s.divisions| { DivisionRoundTrip(s.divisions[k]); }
    RoundTripAll(s.divisions, EncodeDivision, DecodeDivision);
  }

  // Counting the leaves of the input: nothing is filtered or merged, so
  // the tree has as many classes as the input has "classes" entries.

  function InputGroupClassCount(j: Json): nat { |Children(j, "classes")| }

  function InputDivisionClassCount(j: Json): nat { Sum(Children(j, "groups"), InputGroupClassCount) }

  function InputSectionClassCount(j: Json): nat { Sum(Children(j, "divisions"), InputDivisionClassCount) }

  function InputClassCount(xs: seq<Json>): nat { Sum(xs, InputSectionClassCount) }

  lemma DivisionClassCountPreserved(j: Json, d: Division)
    requires DecodeDivision(j) == Some(d)
    ensures DivisionClassCount(d) == InputDivisionClassCount(j)
  {
    SumPointwise(d.groups, GroupClassCount, Children(j, "groups"), InputGroupClassCount);
  }

  lemma SectionClassCountPreserved(j: Json, s: Section)
    requires DecodeSection(j) == Some(s)
    ensures SectionClassCount(s) == InputSectionClassCount(j)
  {
    var xs := Children(j, "divisions");
    forall k | 0 <= k < |xs| ensures DivisionClassCount(s.divisions[k]) == InputDivisionClassCount(xs[k]) {
      DivisionClassCountPreserved(xs[k], s.divisions[k]);
    }
    SumPointwise(s.divisions, DivisionClassCount, xs, InputDivisionClassCount);
  }

  /** A successful decode keeps every leaf of the input. */
  lemma ClassCountPreserved(xs: seq<Json>, sections: seq<Section>)
    requires DecodeAll(xs, DecodeSection) == Some(sections)
    ensures ClassCount(sections) == InputClassCount(xs)
  {
    forall k | 0 <= k < |xs| ensures SectionClassCount(sections[k]) == InputSectionClassCount(xs[k]) {
      SectionClassCountPreserved(xs[k], sections[k]);
    }
    SumPointwise(sections, SectionClassCount, xs, InputSectionClassCount);
  }
}
