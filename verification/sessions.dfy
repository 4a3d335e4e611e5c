/** Session creation (`extract_place_traits`, src/chain/categories/extractor.py).
    The trait-extraction chain is the parameter `generate`, called with the
    prompt's one variable, `place`. */
module PlaceTraits {
  import opened Wrappers
  import opened Text
  import opened Values
  import opened Features
  import opened Store

  /** Trim the destination text, refuse it when nothing is left, extract
      traits from the trimmed text, coerce the result and insert a session
      whose `categories` is the dump of those traits. */
  function ExtractPlaceTraits(db: Db, place: string, generate: string -> Generated<PlaceFeatures>)
    : (r: Step<(nat, Session)>)
    requires Valid(db)
    ensures Valid(r.db)
    ensures r.result == Err(InvalidInput) <==> AllSpace(place)
    ensures r.result.Err? ==> r.db == db
    ensures r.result.Ok? ==>
      var (id, s) := r.result.value;
      && id !in db.sessions
      && r.db.sessions == db.sessions[id := s]
      && |r.db.sessions| == |db.sessions| + 1
      && r.db.planners == db.planners && r.db.places == db.places
      && s == NewSession(s.categories)
      && Coerce(generate(Strip(place)), DecodeFeatures) == Ok(s.categories)
    ensures !AllSpace(place) ==> (r.result.Ok? <==> Coerce(generate(Strip(place)), DecodeFeatures).Ok?)
    ensures !AllSpace(place) && r.result.Err? ==>
      r.result == Err(Coerce(generate(Strip(place)), DecodeFeatures).error)
  {
    var text := Strip(place);
    if text == [] then Step(db, Err(InvalidInput))
    else
      match Coerce(generate(text), DecodeFeatures)
      case Err(e) =>
        Step(db, Err(e))
      case Ok(parsed) =>
        var s := NewSession(parsed);
        var (db', id) := InsertSession(db, s);
        Step(db', Ok((id, s)))
  }

  /** Empty or whitespace-only text fails before any generation: the outcome
      is the same whatever the generator would have said. */
  lemma BlankTextNeverGenerates(db: Db, place: string, g1: string -> Generated<PlaceFeatures>, g2: string -> Generated<PlaceFeatures>)
    requires Valid(db) && AllSpace(place)
    ensures ExtractPlaceTraits(db, place, g1) == ExtractPlaceTraits(db, place, g2) == Step(db, Err(InvalidInput))
  {
  }

  /** The generator is asked about the trimmed text only: two generators
      that agree on it give the same outcome. */
  lemma GeneratesFromTrimmedText(db: Db, place: string, g1: string -> Generated<PlaceFeatures>, g2: string -> Generated<PlaceFeatures>)
    requires Valid(db) && g1(Strip(place)) == g2(Strip(place))
    ensures ExtractPlaceTraits(db, place, g1) == ExtractPlaceTraits(db, place, g2)
  {
  }

  /** A generator that returns the mapping form of some traits creates the
      same session as one that returns the traits themselves. */
  lemma MappingResultAgreesWithTyped(db: Db, place: string, f: PlaceFeatures,
                                     g1: string -> Generated<PlaceFeatures>, g2: string -> Generated<PlaceFeatures>)
    requires Valid(db)
    requires g1(Strip(place)) == Typed(f) && g2(Strip(place)) == Mapped(DumpFeatures(f))
    ensures ExtractPlaceTraits(db, place, g1) == ExtractPlaceTraits(db, place, g2)
  {
    FeaturesRoundTrip(f);
  }
}

/** The purpose turn (`respond_to_purpose`, src/chain/purpose/extractor.py).
    The free-text chain is the parameter `generate`, called with the stored
    traits and the caller's purpose; `None` stands for a chain that raised. */
module Purpose {
  import opened Wrappers
  import opened Features
  import opened Store

  /** Store the purpose on the session, then ask for the model's reply and
      hand it back without storing it. A missing session fails at the write
      (`None.set`), before any generation. */
  function RespondToPurpose(db: Db, id: nat, purpose: string,
                            generate: (PlaceFeatures, string) -> Option<string>)
    : (r: Step<string>)
    ensures id !in db.sessions ==> r == Step(db, Err(NoneHasNoAttribute))
    ensures id in db.sessions ==>
      && r.db == db.(sessions := db.sessions[id := db.sessions[id].(mainPurpose := purpose)])
      && (r.result.Ok? <==> generate(db.sessions[id].categories, purpose).Some?)
      && (r.result.Ok? ==> r.result.value == generate(db.sessions[id].categories, purpose).value)
      && (r.result.Err? ==> r.result.error == GenerationFailed)
  {
    if id !in db.sessions then Step(db, Err(NoneHasNoAttribute))
    else
      var recent := db.sessions[id];
      var db' := db.(sessions := db.sessions[id := recent.(mainPurpose := purpose)]);
      match generate(recent.categories, purpose)
      case Some(content) => Step(db', Ok(content))
      case None => Step(db', Err(GenerationFailed))
  }

  /** The write does not depend on the generation: a failing generator
      leaves the same store behind as a succeeding one, so the reply is
      never persisted and a failure does not undo the purpose. */
  lemma StoreIgnoresReply(db: Db, id: nat, purpose: string,
                          g1: (PlaceFeatures, string) -> Option<string>,
                          g2: (PlaceFeatures, string) -> Option<string>)
    ensures RespondToPurpose(db, id, purpose, g1).db == RespondToPurpose(db, id, purpose, g2).db
  {
  }

  /** Later purposes overwrite earlier ones: two turns leave the store as the
      second turn alone would. */
  lemma LastPurposeWins(db: Db, id: nat, p1: string, p2: string,
                        generate: (PlaceFeatures, string) -> Option<string>)
    ensures RespondToPurpose(RespondToPurpose(db, id, p1, generate).db, id, p2, generate).db
         == RespondToPurpose(db, id, p2, generate).db
  {
    if id in db.sessions {
      var s := db.sessions[id];
      assert s.(mainPurpose := p1).(mainPurpose := p2) == s.(mainPurpose := p2);
      assert db.sessions[id := s.(mainPurpose := p1)][id := s.(mainPurpose := p2)] == db.sessions[id := s.(mainPurpose := p2)];
    }
  }
}
