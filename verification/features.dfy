/** The trait-extraction schema: `PlaceFeatures` and its `CategoryGroup`s,
    with `model_dump()` and the validation `PlaceFeatures(**mapping)`
    performs. */
module Features {
  import opened Wrappers
  import opened Values

  datatype CategoryGroup = CategoryGroup(category: string, tags: seq<string>)

  datatype PlaceFeatures = PlaceFeatures(
    place: string,
    primaryTraits: seq<string>,
    categories: seq<CategoryGroup>,
    shortDescription: string)

  function DumpGroup(g: CategoryGroup): Value {
    VObj(map["category" := VStr(g.category), "tags" := DumpStrList(g.tags)])
  }

  /** `model_dump()`: every field under its Python name. */
  function DumpFeatures(f: PlaceFeatures): (m: Mapping)
    ensures m.Keys == {"place", "primary_traits", "categories", "short_description"}
  {
    map[
      "place" := VStr(f.place),
      "primary_traits" := DumpStrList(f.primaryTraits),
      "categories" := VList(EncodeList(f.categories, DumpGroup)),
      "short_description" := VStr(f.shortDescription)]
  }

  function DecodeGroup(v: Value): Option<CategoryGroup> {
    if !v.VObj? then None
    else
      var name := Field(v.fields, "category", AsStr);
      var tags := Field(v.fields, "tags", AsStrList);
      if name.Some? && tags.Some? then Some(CategoryGroup(name.value, tags.value)) else None
  }

  function AsGroupList(v: Value): Option<seq<CategoryGroup>> {
    if v.VList? then DecodeList(v.items, DecodeGroup) else None
  }

  /** `PlaceFeatures(**m)`: all four fields are required; keys the schema
      does not declare are ignored. */
  function DecodeFeatures(m: Mapping): (r: Option<PlaceFeatures>)
    ensures r.Some? ==> "place" in m && m["place"] == VStr(r.value.place)
    ensures "short_description" !in m ==> r.None?
  {
    var place := Field(m, "place", AsStr);
    var traits := Field(m, "primary_traits", AsStrList);
    var groups := Field(m, "categories", AsGroupList);
    var desc := Field(m, "short_description", AsStr);
    if place.Some? && traits.Some? && groups.Some? && desc.Some? then
      Some(PlaceFeatures(place.value, traits.value, groups.value, desc.value))
    else None
  }

  lemma GroupRoundTrip(g: CategoryGroup)
    ensures DecodeGroup(DumpGroup(g)) == Some(g)
  {
    StrListRoundTrip(g.tags);
  }

  /** Validating a dump gives back the record it came from. */
  lemma FeaturesRoundTrip(f: PlaceFeatures)
    ensures DecodeFeatures(DumpFeatures(f)) == Some(f)
  {
    StrListRoundTrip(f.primaryTraits);
    forall i | 0 <= i < |f.categories|
      ensures DecodeGroup(DumpGroup(f.categories[i])) == Some(f.categories[i])
    {
      GroupRoundTrip(f.categories[i]);
    }
    ListRoundTrip(f.categories, DumpGroup, DecodeGroup);
  }
}
