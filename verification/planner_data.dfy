/** The full-plan schema: `TravelPlan` with its `DayPlan`s, `TravelPlace`s,
    `Restaurant`s and `Accommodation`, with `model_dump()` and validation
    from a mapping. */
module PlannerData {
  import opened Wrappers
  import opened Values

  datatype TravelPlace = TravelPlace(
    name: string,
    address: string,
    reason: string,
    latitude: real,
    longitude: real,
    visitTime: string)

  datatype Restaurant = Restaurant(
    name: string,
    address: string,
    cuisineType: string,
    reason: string,
    latitude: Option<real>,
    longitude: Option<real>,
    mealTime: string)

  datatype Accommodation = Accommodation(
    name: string,
    address: string,
    accommodationType: string,
    reason: string,
    latitude: Option<real>,
    longitude: Option<real>)

  datatype DayPlan = DayPlan(
    day: int,
    date: string,
    places: seq<TravelPlace>,
    restaurants: seq<Restaurant>,
    accommodation: Option<Accommodation>,
    summary: string)

  datatype TravelPlan = TravelPlan(
    mainDestination: TravelPlace,
    totalDays: int,
    dailyPlans: seq<DayPlan>,
    overview: string)

  /* ---------------------------------------------------------------- dump */

  function DumpTravelPlace(p: TravelPlace): Value {
    VObj(map[
      "name" := VStr(p.name), "address" := VStr(p.address), "reason" := VStr(p.reason),
      "latitude" := VFloat(p.latitude), "longitude" := VFloat(p.longitude),
      "visit_time" := VStr(p.visitTime)])
  }

  function DumpRestaurant(r: Restaurant): Value {
    VObj(map[
      "name" := VStr(r.name), "address" := VStr(r.address), "cuisine_type" := VStr(r.cuisineType),
      "reason" := VStr(r.reason), "latitude" := DumpOptFloat(r.latitude),
      "longitude" := DumpOptFloat(r.longitude), "meal_time" := VStr(r.mealTime)])
  }

  function DumpAccommodation(a: Accommodation): Value {
    VObj(map[
      "name" := VStr(a.name), "address" := VStr(a.address),
      "accommodation_type" := VStr(a.accommodationType), "reason" := VStr(a.reason),
      "latitude" := DumpOptFloat(a.latitude), "longitude" := DumpOptFloat(a.longitude)])
  }

  /** `plan.model_dump()`: what the planner document stores per day. */
  function DumpDayPlan(d: DayPlan): Mapping {
    map[
      "day" := VInt(d.day), "date" := VStr(d.date),
      "places" := VList(EncodeList(d.places, DumpTravelPlace)),
      "restaurants" := VList(EncodeList(d.restaurants, DumpRestaurant)),
      "accommodation" := DumpStay(d.accommodation),
      "summary" := VStr(d.summary)]
  }

  function DumpStay(a: Option<Accommodation>): Value {
    if a.Some? then DumpAccommodation(a.value) else VNull
  }

  function DumpDay(d: DayPlan): Value {
    VObj(DumpDayPlan(d))
  }

  function DumpTravelPlan(t: TravelPlan): Mapping {
    map[
      "main_destination" := DumpTravelPlace(t.mainDestination),
      "total_days" := VInt(t.totalDays),
      "daily_plans" := VList(EncodeList(t.dailyPlans, DumpDay)),
      "overview" := VStr(t.overview)]
  }

  /* -------------------------------------------------------------- decode */

  function DecodeTravelPlace(v: Value): Option<TravelPlace> {
    if !v.VObj? then None
    else
      var m := v.fields;
      var name := Field(m, "name", AsStr);
      var address := Field(m, "address", AsStr);
      var reason := Field(m, "reason", AsStr);
      var lat := Field(m, "latitude", AsFloat);
      var lon := Field(m, "longitude", AsFloat);
      var time := Field(m, "visit_time", AsStr);
      if name.Some? && address.Some? && reason.Some? && lat.Some? && lon.Some? && time.Some? then
        Some(TravelPlace(name.value, address.value, reason.value, lat.value, lon.value, time.value))
      else None
  }

  function DecodeRestaurant(v: Value): Option<Restaurant> {
    if !v.VObj? then None
    else
      var m := v.fields;
      var name := Field(m, "name", AsStr);
      var address := Field(m, "address", AsStr);
      var cuisine := Field(m, "cuisine_type", AsStr);
      var reason := Field(m, "reason", AsStr);
      var lat := OptField(m, "latitude", AsFloat);
      var lon := OptField(m, "longitude", AsFloat);
      var meal := Field(m, "meal_time", AsStr);
      if name.Some? && address.Some? && cuisine.Some? && reason.Some? && lat.Some? && lon.Some? && meal.Some? then
        Some(Restaurant(name.value, address.value, cuisine.value, reason.value, lat.value, lon.value, meal.value))
      else None
  }

  function DecodeAccommodation(v: Value): Option<Accommodation> {
    if !v.VObj? then None
    else
      var m := v.fields;
      var name := Field(m, "name", AsStr);
      var address := Field(m, "address", AsStr);
      var kind := Field(m, "accommodation_type", AsStr);
      var reason := Field(m, "reason", AsStr);
      var lat := OptField(m, "latitude", AsFloat);
      var lon := OptField(m, "longitude", AsFloat);
      if name.Some? && address.Some? && kind.Some? && reason.Some? && lat.Some? && lon.Some? then
        Some(Accommodation(name.value, address.value, kind.value, reason.value, lat.value, lon.value))
      else None
  }

  function AsPlaceList(v: Value): Option<seq<TravelPlace>> {
    if v.VList? then DecodeList(v.items, DecodeTravelPlace) else None
  }

  function AsRestaurantList(v: Value): Option<seq<Restaurant>> {
    if v.VList? then DecodeList(v.items, DecodeRestaurant) else None
  }

  function DecodeDay(v: Value): Option<DayPlan> {
    if !v.VObj? then None
    else
      var m := v.fields;
      var day := Field(m, "day", AsInt);
      var date := Field(m, "date", AsStr);
      var places := Field(m, "places", AsPlaceList);
      var restaurants := Field(m, "restaurants", AsRestaurantList);
      var stay := OptField(m, "accommodation", DecodeAccommodation);
      var summary := Field(m, "summary", AsStr);
      if day.Some? && date.Some? && places.Some? && restaurants.Some? && stay.Some? && summary.Some? then
        Some(DayPlan(day.value, date.value, places.value, restaurants.value, stay.value, summary.value))
      else None
  }

  function AsDayList(v: Value): Option<seq<DayPlan>> {
    if v.VList? then DecodeList(v.items, DecodeDay) else None
  }

  /** `TravelPlan(**m)`: every nested record is validated; one bad entry
      anywhere fails the whole plan. */
  function DecodeTravelPlan(m: Mapping): (r: Option<TravelPlan>)
    ensures r.Some? ==>
      "daily_plans" in m && m["daily_plans"].VList? && |r.value.dailyPlans| == |m["daily_plans"].items|
  {
    var main := Field(m, "main_destination", DecodeTravelPlace);
    var total := Field(m, "total_days", AsInt);
    var days := Field(m, "daily_plans", AsDayList);
    var overview := Field(m, "overview", AsStr);
    if main.Some? && total.Some? && days.Some? && overview.Some? then
      Some(TravelPlan(main.value, total.value, days.value, overview.value))
    else None
  }

  /* ---------------------------------------------------------- round trips */

  lemma TravelPlaceRoundTrip(p: TravelPlace)
    ensures DecodeTravelPlace(DumpTravelPlace(p)) == Some(p)
  {
  }

  lemma RestaurantRoundTrip(r: Restaurant)
    ensures DecodeRestaurant(DumpRestaurant(r)) == Some(r)
  {
  }

  lemma AccommodationRoundTrip(a: Accommodation)
    ensures DecodeAccommodation(DumpAccommodation(a)) == Some(a)
  {
  }

  lemma PlacesRoundTrip(m: Mapping, xs: seq<TravelPlace>)
    requires "places" in m && m["places"] == VList(EncodeList(xs, DumpTravelPlace))
    ensures Field(m, "places", AsPlaceList) == Some(xs)
  {
    forall i | 0 <= i < |xs|
      ensures DecodeTravelPlace(DumpTravelPlace(xs[i])) == Some(xs[i])
    {
      TravelPlaceRoundTrip(xs[i]);
    }
    ListRoundTrip(xs, DumpTravelPlace, DecodeTravelPlace);
  }

  lemma RestaurantsRoundTrip(m: Mapping, xs: seq<Restaurant>)
    requires "restaurants" in m && m["restaurants"] == VList(EncodeList(xs, DumpRestaurant))
    ensures Field(m, "restaurants", AsRestaurantList) == Some(xs)
  {
    forall i | 0 <= i < |xs|
      ensures DecodeRestaurant(DumpRestaurant(xs[i])) == Some(xs[i])
    {
      RestaurantRoundTrip(xs[i]);
    }
    ListRoundTrip(xs, DumpRestaurant, DecodeRestaurant);
  }

  lemma StayRoundTrip(m: Mapping, a: Option<Accommodation>)
    requires "accommodation" in m && m["accommodation"] == DumpStay(a)
    ensures OptField(m, "accommodation", DecodeAccommodation) == Some(a)
  {
    if a.Some? { AccommodationRoundTrip(a.value); }
  }

  lemma DayRoundTrip(d: DayPlan)
    ensures DecodeDay(DumpDay(d)) == Some(d)
  {
    var m := DumpDayPlan(d);
    PlacesRoundTrip(m, d.places);
    RestaurantsRoundTrip(m, d.restaurants);
    StayRoundTrip(m, d.accommodation);
  }

  lemma DaysRoundTrip(m: Mapping, xs: seq<DayPlan>)
    requires "daily_plans" in m && m["daily_plans"] == VList(EncodeList(xs, DumpDay))
    ensures Field(m, "daily_plans", AsDayList) == Some(xs)
  {
    forall i | 0 <= i < |xs|
      ensures DecodeDay(DumpDay(xs[i])) == Some(xs[i])
    {
      DayRoundTrip(xs[i]);
    }
    ListRoundTrip(xs, DumpDay, DecodeDay);
  }

  /** Validating a dump gives back the plan it came from, at every level
      of nesting. */
  lemma TravelPlanRoundTrip(t: TravelPlan)
    ensures DecodeTravelPlan(DumpTravelPlan(t)) == Some(t)
  {
    var m := DumpTravelPlan(t);
    TravelPlaceRoundTrip(t.mainDestination);
    DaysRoundTrip(m, t.dailyPlans);
  }
}
