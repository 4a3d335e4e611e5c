/** The recommendation schema: `PlaceRecommendations` holding
    `RecommendedPlace`s.

    The source's `RecommendedPlace` declares no coordinate fields, yet the
    service assigns `latitude` and `longitude` to it. In the corrected
    schema a returned pick has both coordinates, `Optional[float] = None`,
    and only the merge with the candidates fills them. The model's answer
    is still validated against the four declared fields: any other key,
    `latitude` and `longitude` included, is ignored, as pydantic ignores
    undeclared keys. */
module RecommendData {
  import opened Wrappers
  import opened Values

  datatype RecommendedPlace = RecommendedPlace(
    name: string,
    address: string,
    reason: string,
    matchScore: int,
    latitude: Option<real>,
    longitude: Option<real>)

  /** The keys the answer schema declares. */
  const DeclaredKeys: set<string> := {"name", "address", "reason", "match_score"}

  /** A pick as the answer schema can hold it: no coordinates. */
  function WithoutCoordinates(p: RecommendedPlace): (r: RecommendedPlace)
    ensures r.latitude.None? && r.longitude.None?
    ensures r.name == p.name && r.address == p.address && r.reason == p.reason && r.matchScore == p.matchScore
  {
    p.(latitude := None, longitude := None)
  }

  /** Every pick with its coordinates cleared; picks without coordinates are
      left as they are. */
  function StripCoordinates(recs: seq<RecommendedPlace>): (r: seq<RecommendedPlace>)
    ensures |r| == |recs|
    ensures forall i :: 0 <= i < |recs| ==> r[i] == WithoutCoordinates(recs[i])
    ensures (forall i :: 0 <= i < |recs| ==> recs[i].latitude.None? && recs[i].longitude.None?) ==> r == recs
  {
    seq(|recs|, i requires 0 <= i < |recs| => WithoutCoordinates(recs[i]))
  }

  datatype PlaceRecommendations = PlaceRecommendations(places: seq<RecommendedPlace>)

  /** `model_dump()` of a pick under the answer schema: the four declared
      fields. */
  function DumpRecommended(p: RecommendedPlace): Value {
    VObj(map[
      "name" := VStr(p.name),
      "address" := VStr(p.address),
      "reason" := VStr(p.reason),
      "match_score" := VInt(p.matchScore)])
  }

  /** `RecommendedPlace(**m)`: the four declared fields must validate, and
      nothing else is read, so a validated pick carries no coordinates. */
  function DecodeRecommended(v: Value): (r: Option<RecommendedPlace>)
    ensures r.Some? ==> v.VObj? && "name" in v.fields && v.fields["name"] == VStr(r.value.name)
    ensures r.Some? ==> r.value.latitude.None? && r.value.longitude.None?
  {
    if !v.VObj? then None
    else
      var m := v.fields;
      var name := Field(m, "name", AsStr);
      var address := Field(m, "address", AsStr);
      var reason := Field(m, "reason", AsStr);
      var score := Field(m, "match_score", AsInt);
      if name.Some? && address.Some? && reason.Some? && score.Some? then
        Some(RecommendedPlace(name.value, address.value, reason.value, score.value, None, None))
      else None
  }

  /** A key the schema does not declare, whatever it holds, changes nothing
      about validation. */
  lemma IgnoresUndeclaredKey(m: Mapping, k: string, x: Value)
    requires k !in DeclaredKeys
    ensures DecodeRecommended(VObj(m[k := x])) == DecodeRecommended(VObj(m))
  {
    assert forall key :: key in DeclaredKeys ==> (key in m[k := x] <==> key in m);
    assert forall key :: key in DeclaredKeys && key in m ==> m[k := x][key] == m[key];
  }

  /** A pick whose `latitude` is not a number still validates, with no
      coordinates. */
  lemma NonNumericCoordinateIsIgnored()
    ensures DecodeRecommended(VObj(map[
      "name" := VStr("X"), "address" := VStr("a"), "reason" := VStr("r"),
      "match_score" := VInt(5), "latitude" := VStr("abc")]))
      == Some(RecommendedPlace("X", "a", "r", 5, None, None))
  {
    var m := map["name" := VStr("X"), "address" := VStr("a"), "reason" := VStr("r"), "match_score" := VInt(5)];
    IgnoresUndeclaredKey(m, "latitude", VStr("abc"));
    assert m["latitude" := VStr("abc")] == map[
      "name" := VStr("X"), "address" := VStr("a"), "reason" := VStr("r"),
      "match_score" := VInt(5), "latitude" := VStr("abc")];
  }

  function DumpRecommendations(r: PlaceRecommendations): Mapping {
    map["places" := VList(EncodeList(r.places, DumpRecommended))]
  }

  /** `PlaceRecommendations(**m)`: `places` is required and every entry must
      validate; no validated pick carries coordinates. */
  function DecodeRecommendations(m: Mapping): (r: Option<PlaceRecommendations>)
    ensures r.Some? ==> "places" in m && m["places"].VList? && |r.value.places| == |m["places"].items|
    ensures r.Some? ==> StripCoordinates(r.value.places) == r.value.places
  {
    var places := Field(m, "places", (v: Value) => if v.VList? then DecodeList(v.items, DecodeRecommended) else None);
    if places.Some? then
      DecodeListElements(m["places"].items, DecodeRecommended);
      Some(PlaceRecommendations(places.value))
    else None
  }

  /** A pick validates back from its dump without its coordinates, which the
      answer schema does not hold. */
  lemma RecommendedRoundTrip(p: RecommendedPlace)
    ensures DecodeRecommended(DumpRecommended(p)) == Some(WithoutCoordinates(p))
    ensures p.latitude.None? && p.longitude.None? ==> DecodeRecommended(DumpRecommended(p)) == Some(p)
  {
  }

  /** Validating a dump gives back the recommendations it came from, with
      their coordinates cleared. */
  lemma RecommendationsRoundTrip(r: PlaceRecommendations)
    ensures DecodeRecommendations(DumpRecommendations(r)) == Some(PlaceRecommendations(StripCoordinates(r.places)))
  {
    var picks := StripCoordinates(r.places);
    forall i | 0 <= i < |picks|
      ensures DecodeRecommended(DumpRecommended(picks[i])) == Some(picks[i])
    {
      RecommendedRoundTrip(picks[i]);
    }
    ListRoundTrip(picks, DumpRecommended, DecodeRecommended);
    assert EncodeList(picks, DumpRecommended) == EncodeList(r.places, DumpRecommended);
  }
}
