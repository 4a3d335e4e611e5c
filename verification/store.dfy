/** The documents the services read and write, and the document store as
    an in-memory value: sessions (`Recent`) keyed by id, planner documents
    and the place catalog, each collection in insertion order. */
module Store {
  import opened Wrappers
  import opened Values
  import opened Features

  /** A catalog record (`Place`). `placeType` is the Python field `type`. */
  datatype Place = Place(
    name: string,
    placeType: string,
    address: Option<string>,
    description: Option<string>,
    latitude: Option<real>,
    longitude: Option<real>,
    region: Option<string>)

  /** A conversation session (`Recent`). `categories` holds the dumped
      trait-extraction result; the other fields are filled by later turns. */
  datatype Session = Session(
    categories: PlaceFeatures,
    mainPurpose: string,
    people: Option<string>,
    day: Option<string>,
    options: seq<string>)

  /** The purpose the prompts use when the session has none. */
  const DefaultPurpose: string := "여행 및 관광"

  /** `recent.main_purpose or "여행 및 관광"`: never empty. */
  function PromptPurpose(s: Session): (r: string)
    ensures r != ""
    ensures s.mainPurpose != "" ==> r == s.mainPurpose
    ensures s.mainPurpose == "" ==> r == DefaultPurpose
  {
    if s.mainPurpose != "" then s.mainPurpose else DefaultPurpose
  }

  /** A fresh session: the extracted traits and every other field at its
      default. */
  function NewSession(categories: PlaceFeatures): (s: Session)
    ensures s.categories == categories
    ensures s.mainPurpose == "" && s.people.None? && s.day.None? && s.options == []
  {
    Session(categories, "", None, None, [])
  }

  /** A planner document; `dailyPlans` holds each day's dump. */
  datatype Planner = Planner(
    recentId: nat,
    mainName: string,
    mainAddress: string,
    mainLatitude: real,
    mainLongitude: real,
    totalDays: int,
    dailyPlans: seq<Mapping>,
    overview: string)

  /** The whole store. `nextId` stands for the id generator: every id handed
      out so far is below it. */
  datatype Db = Db(
    sessions: map<nat, Session>,
    nextId: nat,
    planners: seq<Planner>,
    places: seq<Place>)

  predicate Valid(db: Db) {
    forall id :: id in db.sessions ==> id < db.nextId
  }

  /** The outcome of an operation that may write: the store afterwards and
      the value or error handed back. */
  datatype Step<T> = Step(db: Db, result: Result<T, Error>)

  /** `insert()` of a new session: it gets an id no other session has, and
      nothing else in the store changes. */
  function InsertSession(db: Db, s: Session): (r: (Db, nat))
    requires Valid(db)
    ensures Valid(r.0)
    ensures r.1 !in db.sessions
    ensures r.0.sessions == db.sessions[r.1 := s]
    ensures |r.0.sessions| == |db.sessions| + 1
    ensures r.0.planners == db.planners && r.0.places == db.places
  {
    var id := db.nextId;
    (db.(sessions := db.sessions[id := s], nextId := id + 1), id)
  }

  /** `insert()` of a planner document: appended after every existing one. */
  function InsertPlanner(db: Db, p: Planner): (r: Db)
    ensures r.planners == db.planners + [p]
    ensures r.sessions == db.sessions && r.nextId == db.nextId && r.places == db.places
  {
    db.(planners := db.planners + [p])
  }
}
