/** Place recommendation (src/chain/recommend/extractor.py): format the
    candidates for the prompt, retrieve them in two tiers, copy catalog
    coordinates onto the model's picks and cut the list to `limit`. The
    recommendation chain is the parameter `generate`. */
module Recommend {
  import opened Wrappers
  import opened Text
  import opened Values
  import opened Features
  import opened Store
  import opened RecommendData

  const Attraction: string := "관광지"
  const CandidateLimit: nat := 30
  const DescriptionWidth: nat := 50

  /* ------------------------------------------------------------ formatting */

  /** `s[:n]`. */
  function Truncate(s: string, n: nat): (r: string)
    ensures r <= s && |r| <= n
    ensures |s| <= n ==> r == s
    ensures |s| > n ==> |r| == n
  {
    if |s| <= n then s else s[..n]
  }

  /** `x or ''` for an optional text field. */
  function OrEmpty(x: Option<string>): string {
    if x.Some? then x.value else ""
  }

  /** One candidate as a prompt line: `"{i}. {name} | {address} | {desc}"`,
      with the description cut to 50 characters. */
  function FormatLine(i: nat, p: Place): string {
    NatToString(i) + ". " + p.name + " | " + OrEmpty(p.address) + " | "
      + Truncate(OrEmpty(p.description), DescriptionWidth)
  }

  /** The lines for `places`, numbered from `start`. */
  function FormatLines(places: seq<Place>, start: nat): (r: seq<string>)
    ensures |r| == |places|
    ensures forall i :: 0 <= i < |places| ==> r[i] == FormatLine(start + i, places[i])
  {
    if places == [] then [] else [FormatLine(start, places[0])] + FormatLines(places[1..], start + 1)
  }

  predicate NoNewline(p: Place) {
    '\n' !in p.name && '\n' !in OrEmpty(p.address) && '\n' !in OrEmpty(p.description)
  }

  /** `format_places_for_prompt`: the lines joined by newlines. No places
      give the empty text, one place gives its line alone, and when no
      field holds a newline the text splits back into exactly the lines. */
  function FormatPlaces(places: seq<Place>): (r: string)
    ensures places == [] ==> r == ""
    ensures |places| == 1 ==> r == FormatLine(1, places[0])
    ensures (places != [] && forall i :: 0 <= i < |places| ==> NoNewline(places[i])) ==>
      Split(r, '\n') == FormatLines(places, 1)
  {
    var lines := FormatLines(places, 1);
    if places != [] && forall i :: 0 <= i < |places| ==> NoNewline(places[i]) then
      LinesSplitBack(places);
      Join(lines, "\n")
    else
      Join(lines, "\n")
  }

  /** Lines without newlines, joined by newlines, split back into the lines. */
  lemma LinesSplitBack(places: seq<Place>)
    requires places != [] && forall i :: 0 <= i < |places| ==> NoNewline(places[i])
    ensures Split(Join(FormatLines(places, 1), "\n"), '\n') == FormatLines(places, 1)
  {
    var lines := FormatLines(places, 1);
    forall i | 0 <= i < |places| ensures '\n' !in lines[i] {
      LineHasNoNewline(i + 1, places[i]);
    }
    SplitJoin(lines, '\n');
  }

  /** The 1-based index reads back off the front of every line. */
  lemma LineIndexReadsBack(i: nat, p: Place)
    ensures ParseInt(BeforeFirst(FormatLine(i, p), '.')) == Some(i)
  {
    var n := NatToString(i);
    assert '.' !in n by {
      forall k | 0 <= k < |n| ensures n[k] != '.' { assert IsDigit(n[k]); }
    }
    assert FormatLine(i, p) == n + ['.'] + (" " + p.name + " | " + OrEmpty(p.address) + " | "
      + Truncate(OrEmpty(p.description), DescriptionWidth));
    BeforeFirstSplits(n, '.', " " + p.name + " | " + OrEmpty(p.address) + " | "
      + Truncate(OrEmpty(p.description), DescriptionWidth));
    ParseIntOfNat(i);
  }

  lemma LineHasNoNewline(i: nat, p: Place)
    requires NoNewline(p)
    ensures '\n' !in FormatLine(i, p)
  {
    var n := NatToString(i);
    assert '\n' !in n by {
      forall k | 0 <= k < |n| ensures n[k] != '\n' { assert IsDigit(n[k]); }
    }
    var d := Truncate(OrEmpty(p.description), DescriptionWidth);
    assert '\n' !in d by {
      forall k | 0 <= k < |d| ensures d[k] != '\n' { assert d[k] == OrEmpty(p.description)[k]; }
    }
  }

  /** The formatted list splits back into exactly one line per candidate, in
      input order, numbered from 1, each ending with at most 50 characters of
      the description; no candidates give the empty string. */
  lemma FormatSplitsIntoLines(places: seq<Place>)
    requires forall i :: 0 <= i < |places| ==> NoNewline(places[i])
    ensures places == [] ==> FormatPlaces(places) == ""
    ensures places != [] ==> Split(FormatPlaces(places), '\n') == FormatLines(places, 1)
    ensures forall i :: 0 <= i < |places| ==>
      ParseInt(BeforeFirst(FormatLines(places, 1)[i], '.')) == Some(i + 1)
  {
    LinesCarryIndices(places);
  }

  /** Line i of the numbered list reads back as i + 1. */
  lemma LinesCarryIndices(places: seq<Place>)
    ensures forall i :: 0 <= i < |places| ==>
      ParseInt(BeforeFirst(FormatLines(places, 1)[i], '.')) == Some(i + 1)
  {
    var lines := FormatLines(places, 1);
    forall i | 0 <= i < |places| ensures ParseInt(BeforeFirst(lines[i], '.')) == Some(i + 1) {
      assert lines[i] == FormatLine(i + 1, places[i]);
      LineIndexReadsBack(i + 1, places[i]);
    }
  }

  /* -------------------------------------------------------------- retrieval */

  /** Case-insensitive substring test: the store's `$regex` with option `i`
      for a pattern without metacharacters. */
  predicate ContainsIgnoringCase(s: string, sub: string): (r: bool)
    ensures r <==> exists i :: MatchesIgnoringCaseAt(s, sub, i)
    ensures sub == "" ==> r
  {
    assert forall i :: MatchesIgnoringCaseAt(s, sub, i) <==> OccursAt(Lower(s), Lower(sub), i) by {
      forall i | MatchesIgnoringCaseAt(s, sub, i) || OccursAt(Lower(s), Lower(sub), i)
        ensures MatchesIgnoringCaseAt(s, sub, i) <==> OccursAt(Lower(s), Lower(sub), i)
      {
        assert Lower(s)[i..i + |sub|] == Lower(s[i..i + |sub|]);
      }
    }
    assert sub == "" ==> MatchesIgnoringCaseAt(s, sub, 0);
    Contains(Lower(s), Lower(sub))
  }

  /** The window of `s` at `i` equals `sub` once both are lower-cased. */
  predicate MatchesIgnoringCaseAt(s: string, sub: string, i: int) {
    0 <= i <= |s| - |sub| && Lower(s[i..i + |sub|]) == Lower(sub)
  }

  /** The constraints both tiers share: attraction type and an address that
      is present and non-empty. */
  predicate Eligible(p: Place): (r: bool)
    ensures r ==> OrEmpty(p.address) != ""
  {
    p.placeType == Attraction && p.address.Some? && p.address.value != ""
  }

  predicate MatchesHint(p: Place, hint: string) {
    || (p.region.Some? && ContainsIgnoringCase(p.region.value, hint))
    || (p.address.Some? && ContainsIgnoringCase(p.address.value, hint))
  }

  /** The first-tier filter: the hint sub-filter applies only when the hint
      is non-empty. */
  predicate FirstTier(p: Place, hint: string): (r: bool)
    ensures r ==> Eligible(p)
    ensures hint == "" ==> (r <==> Eligible(p))
    ensures r && hint != "" ==> MatchesHint(p, hint)
  {
    Eligible(p) && (hint == "" || MatchesHint(p, hint))
  }

  /** The catalog records `keep` accepts, in catalog order. */
  function Filter(places: seq<Place>, keep: Place -> bool): (r: seq<Place>)
    ensures |r| <= |places|
    ensures forall p :: p in r <==> p in places && keep(p)
    ensures |places| == 1 ==> r == (if keep(places[0]) then places else [])
  {
    if places == [] then []
    else (if keep(places[0]) then [places[0]] else []) + Filter(places[1..], keep)
  }

  /** Filtering keeps catalog order: the matches of a catalog are the
      matches of its first part followed by those of the rest. */
  lemma {:induction false} FilterAppend(a: seq<Place>, b: seq<Place>, keep: Place -> bool)
    ensures Filter(a + b, keep) == Filter(a, keep) + Filter(b, keep)
  {
    if a == [] {
      assert a + b == b;
    } else {
      assert (a + b)[1..] == a[1..] + b;
      FilterAppend(a[1..], b, keep);
    }
  }

  /** `find(filter).limit(30)`: the first 30 matches in natural order. */
  function Query(places: seq<Place>, keep: Place -> bool): (r: seq<Place>)
    ensures |r| <= CandidateLimit
    ensures r <= Filter(places, keep)
    ensures r == [] <==> Filter(places, keep) == []
    ensures |r| == if |Filter(places, keep)| <= CandidateLimit then |Filter(places, keep)| else CandidateLimit
  {
    var all := Filter(places, keep);
    if |all| <= CandidateLimit then all else all[..CandidateLimit]
  }

  /** Two-tier retrieval: query with the hint; only when that finds nothing,
      query again without it; fail only when both are empty. */
  function Candidates(places: seq<Place>, hint: string): (r: Result<seq<Place>, Error>)
    ensures r.Err? ==> r.error == NoCandidates
    ensures r.Err? <==> forall p :: p in places ==> !Eligible(p)
    ensures r.Ok? ==> 0 < |r.value| <= CandidateLimit
    ensures r.Ok? ==> forall p :: p in r.value ==> p in places && Eligible(p)
    ensures Query(places, p => FirstTier(p, hint)) != [] ==>
      r == Ok(Query(places, p => FirstTier(p, hint)))
    ensures Query(places, p => FirstTier(p, hint)) == [] && r.Ok? ==>
      r.value == Query(places, Eligible)
  {
    var first := Query(places, p => FirstTier(p, hint));
    var r := if first != [] then Ok(first)
      else
        var second := Query(places, Eligible);
        if second != [] then Ok(second) else Err(NoCandidates);
    assert r.Ok? ==> forall p :: p in r.value ==> p in Filter(places, p => FirstTier(p, hint)) || p in Filter(places, Eligible);
    assert (exists p :: p in places && Eligible(p)) ==> Filter(places, Eligible) != [];
    assert first != [] ==> first[0] in Filter(places, p => FirstTier(p, hint));
    assert first != [] ==> first[0] in places && Eligible(first[0]);
    var all := Filter(places, Eligible);
    assert all != [] ==> all[0] in places && Eligible(all[0]);
    r
  }

  /** With a non-empty hint, every first-tier candidate matches the hint in
      its region or its address. */
  lemma FirstTierMatchesHint(places: seq<Place>, hint: string)
    requires hint != ""
    ensures forall p :: p in Query(places, p => FirstTier(p, hint)) ==> Eligible(p) && MatchesHint(p, hint)
  {
    var first := Query(places, p => FirstTier(p, hint));
    forall p | p in first ensures Eligible(p) && MatchesHint(p, hint) {
      var k :| 0 <= k < |first| && first[k] == p;
      assert p in Filter(places, p => FirstTier(p, hint));
    }
  }

  /** A hint that matches nothing still yields candidates when any eligible
      record exists. */
  lemma FallbackTierRecovers(places: seq<Place>, hint: string, p: Place)
    requires p in places && Eligible(p)
    ensures Candidates(places, hint).Ok?
  {
  }

  /* -------------------------------------------------------- coordinate merge */

  /** The candidate `{p.name: p for p in places}` keeps for `name`: the last
      one with that name. */
  function LastByName(cands: seq<Place>, name: string): (r: Option<nat>)
    ensures r.None? <==> forall j :: 0 <= j < |cands| ==> cands[j].name != name
    ensures r.Some? ==>
      && r.value < |cands| && cands[r.value].name == name
      && forall j :: r.value < j < |cands| ==> cands[j].name != name
  {
    if cands == [] then None
    else if cands[|cands| - 1].name == name then Some(|cands| - 1)
    else LastByName(cands[..|cands| - 1], name)
  }

  /** Copy the candidate's coordinates onto one pick, if a candidate has its
      exact name. */
  function MergeOne(rec: RecommendedPlace, cands: seq<Place>): RecommendedPlace {
    match LastByName(cands, rec.name)
    case Some(k) => rec.(latitude := cands[k].latitude, longitude := cands[k].longitude)
    case None => rec
  }

  /** The coordinate merge of `recommend_places`: picks named like a
      candidate take that candidate's coordinates (the last such candidate
      when names repeat); others are untouched; nothing else changes. */
  function MergeCoordinates(recs: seq<RecommendedPlace>, cands: seq<Place>): (r: seq<RecommendedPlace>)
    ensures |r| == |recs|
    ensures forall i :: 0 <= i < |recs| ==>
      && r[i].name == recs[i].name && r[i].address == recs[i].address
      && r[i].reason == recs[i].reason && r[i].matchScore == recs[i].matchScore
    ensures forall i :: 0 <= i < |recs| && (forall j :: 0 <= j < |cands| ==> cands[j].name != recs[i].name) ==>
      r[i] == recs[i]
    ensures forall i, j :: 0 <= i < |recs| && 0 <= j < |cands| && cands[j].name == recs[i].name ==>
      exists k :: j <= k < |cands| && cands[k].name == recs[i].name
        && r[i].latitude == cands[k].latitude && r[i].longitude == cands[k].longitude
        && forall k' :: k < k' < |cands| ==> cands[k'].name != recs[i].name
  {
    var r := seq(|recs|, i requires 0 <= i < |recs| => MergeOne(recs[i], cands));
    assert forall i, j :: 0 <= i < |recs| && 0 <= j < |cands| && cands[j].name == recs[i].name ==>
      LastByName(cands, recs[i].name).Some? && j <= LastByName(cands, recs[i].name).value;
    r
  }

  /** `places[:limit]`. */
  function TakeFirst(recs: seq<RecommendedPlace>, limit: nat): (r: seq<RecommendedPlace>)
    ensures r <= recs
    ensures |r| == if |recs| <= limit then |recs| else limit
  {
    if |recs| <= limit then recs else recs[..limit]
  }

  /** The variables of the recommendation prompt. */
  datatype RecommendPrompt = RecommendPrompt(
    placeName: string,
    keywords: string,
    mainPurpose: string,
    placesList: string,
    limit: nat)

  /** `recommend_places`: read-only over the store. */
  function RecommendPlaces(db: Db, id: nat, limit: nat,
                           generate: RecommendPrompt -> Generated<PlaceRecommendations>)
    : (r: Result<PlaceRecommendations, Error>)
    ensures id !in db.sessions ==> r == Err(SessionNotFound)
    ensures id in db.sessions ==>
      (r == Err(NoCandidates) <==> forall p :: p in db.places ==> !Eligible(p))
    ensures r.Ok? ==> |r.value.places| <= limit
    ensures r.Ok? ==>
      var cands := Candidates(db.places, db.sessions[id].categories.place).value;
      forall e :: e in r.value.places && (exists c :: c in cands && c.name == e.name) ==>
        exists c :: c in cands && c.name == e.name && e.latitude == c.latitude && e.longitude == c.longitude
    ensures r.Ok? ==>
      var cands := Candidates(db.places, db.sessions[id].categories.place).value;
      forall e :: e in r.value.places && (forall c :: c in cands ==> c.name != e.name) ==>
        e.latitude.None? && e.longitude.None?
    ensures r.Ok? ==>
      var cands := Candidates(db.places, db.sessions[id].categories.place).value;
      forall e :: e in r.value.places && (e.latitude.Some? || e.longitude.Some?) ==>
        exists c :: c in cands && c.name == e.name && e.latitude == c.latitude && e.longitude == c.longitude
    ensures id in db.sessions && Candidates(db.places, db.sessions[id].categories.place).Ok? ==>
      var cands := Candidates(db.places, db.sessions[id].categories.place).value;
      var answer := Coerce(generate(RecommendPromptFor(db.sessions[id], cands, limit)), DecodeRecommendations);
      && (r.Ok? <==> answer.Ok?)
      && (answer.Err? ==> r == Err(answer.error))
      && (r.Ok? ==> r.value.places == TakeFirst(MergeCoordinates(StripCoordinates(answer.value.places), cands), limit))
  {
    if id !in db.sessions then Err(SessionNotFound)
    else
      var session := db.sessions[id];
      match Candidates(db.places, session.categories.place)
      case Err(e) => Err(e)
      case Ok(cands) => RecommendFrom(session, cands, limit, generate)
  }

  /** The part of `recommend_places` after retrieval: prompt the model with
      the candidates, validate its answer, merge coordinates and cut to
      `limit`. The answer's own coordinates are never trusted: a typed
      answer has them cleared, and a mapping has none once validated. */
  function RecommendFrom(session: Session, cands: seq<Place>, limit: nat,
                         generate: RecommendPrompt -> Generated<PlaceRecommendations>)
    : (r: Result<PlaceRecommendations, Error>)
    ensures
      var answer := Coerce(generate(RecommendPromptFor(session, cands, limit)), DecodeRecommendations);
      && (r.Ok? <==> answer.Ok?)
      && (answer.Err? ==> r == Err(answer.error))
      && (r.Ok? ==> r.value.places == TakeFirst(MergeCoordinates(StripCoordinates(answer.value.places), cands), limit))
    ensures r.Err? ==> r.error != NoCandidates && r.error != SessionNotFound
    ensures r.Ok? ==> |r.value.places| <= limit
    ensures r.Ok? ==>
      forall e :: e in r.value.places && (exists c :: c in cands && c.name == e.name) ==>
        exists c :: c in cands && c.name == e.name && e.latitude == c.latitude && e.longitude == c.longitude
    ensures r.Ok? ==>
      forall e :: e in r.value.places && (forall c :: c in cands ==> c.name != e.name) ==>
        e.latitude.None? && e.longitude.None?
    ensures r.Ok? ==>
      forall e :: e in r.value.places && (e.latitude.Some? || e.longitude.Some?) ==>
        exists c :: c in cands && c.name == e.name && e.latitude == c.latitude && e.longitude == c.longitude
  {
    match Coerce(generate(RecommendPromptFor(session, cands, limit)), DecodeRecommendations)
    case Err(e) => Err(e)
    case Ok(recs) =>
      var picks := StripCoordinates(recs.places);
      MergedPicksCarryCoordinates(picks, cands, limit);
      UnmatchedPicksHaveNoCoordinates(picks, cands, limit);
      Ok(PlaceRecommendations(TakeFirst(MergeCoordinates(picks, cands), limit)))
  }

  /** Every pick kept after the merge and the cut that is named like a
      candidate carries the coordinates of such a candidate. */
  lemma MergedPicksCarryCoordinates(recs: seq<RecommendedPlace>, cands: seq<Place>, limit: nat)
    ensures forall e :: e in TakeFirst(MergeCoordinates(recs, cands), limit) && (exists c :: c in cands && c.name == e.name) ==>
      exists c :: c in cands && c.name == e.name && e.latitude == c.latitude && e.longitude == c.longitude
  {
    var merged := MergeCoordinates(recs, cands);
    var out := TakeFirst(merged, limit);
    forall e | e in out && (exists c :: c in cands && c.name == e.name)
      ensures exists c :: c in cands && c.name == e.name && e.latitude == c.latitude && e.longitude == c.longitude
    {
      var i :| 0 <= i < |out| && out[i] == e;
      assert merged[i] == e;
      var c :| c in cands && c.name == e.name;
      var j :| 0 <= j < |cands| && cands[j] == c;
      assert cands[j].name == recs[i].name;
      var k :| j <= k < |cands| && cands[k].name == recs[i].name
        && merged[i].latitude == cands[k].latitude && merged[i].longitude == cands[k].longitude;
      assert cands[k] in cands;
    }
  }

  /** Picks without coordinates that match no candidate keep null
      coordinates through the merge and the cut, so every coordinate that
      survives is a candidate's. */
  lemma UnmatchedPicksHaveNoCoordinates(recs: seq<RecommendedPlace>, cands: seq<Place>, limit: nat)
    requires forall i :: 0 <= i < |recs| ==> recs[i].latitude.None? && recs[i].longitude.None?
    ensures forall e :: e in TakeFirst(MergeCoordinates(recs, cands), limit) && (forall c :: c in cands ==> c.name != e.name) ==>
      e.latitude.None? && e.longitude.None?
    ensures forall e :: e in TakeFirst(MergeCoordinates(recs, cands), limit) && (e.latitude.Some? || e.longitude.Some?) ==>
      exists c :: c in cands && c.name == e.name && e.latitude == c.latitude && e.longitude == c.longitude
  {
    var merged := MergeCoordinates(recs, cands);
    var out := TakeFirst(merged, limit);
    forall e | e in out && (forall c :: c in cands ==> c.name != e.name)
      ensures e.latitude.None? && e.longitude.None?
    {
      var i :| 0 <= i < |out| && out[i] == e;
      assert merged[i] == e;
      assert forall j :: 0 <= j < |cands| ==> cands[j].name != recs[i].name by {
        forall j | 0 <= j < |cands| ensures cands[j].name != recs[i].name {
          assert cands[j] in cands;
        }
      }
    }
    MergedPicksCarryCoordinates(recs, cands, limit);
  }

  /** Whenever the answer validates, whether typed or as a mapping, the
      list handed back is the first `limit` merged picks in the model's
      order: never padded or reordered, and nothing else in the result. A
      mapping's picks are merged as validated, with nothing to clear. */
  lemma ResultIsPrefixOfPicks(db: Db, id: nat, limit: nat,
                              generate: RecommendPrompt -> Generated<PlaceRecommendations>)
    requires id in db.sessions
    requires Candidates(db.places, db.sessions[id].categories.place).Ok?
    ensures
      var cands := Candidates(db.places, db.sessions[id].categories.place).value;
      var answer := Coerce(generate(RecommendPromptFor(db.sessions[id], cands, limit)), DecodeRecommendations);
      answer.Ok? ==>
        RecommendPlaces(db, id, limit, generate)
          == Ok(PlaceRecommendations(TakeFirst(MergeCoordinates(StripCoordinates(answer.value.places), cands), limit)))
    ensures
      var cands := Candidates(db.places, db.sessions[id].categories.place).value;
      var prompt := RecommendPromptFor(db.sessions[id], cands, limit);
      var answer := Coerce(generate(prompt), DecodeRecommendations);
      generate(prompt).Mapped? && answer.Ok? ==>
        RecommendPlaces(db, id, limit, generate)
          == Ok(PlaceRecommendations(TakeFirst(MergeCoordinates(answer.value.places, cands), limit)))
  {
  }

  /** The prompt variables `recommend_places` builds: keywords are the
      primary traits joined with ", ", and an empty purpose reads as the
      default. */
  function RecommendPromptFor(session: Session, cands: seq<Place>, limit: nat): (p: RecommendPrompt)
    ensures p.placeName == session.categories.place
    ensures p.keywords == Join(session.categories.primaryTraits, ", ")
    ensures p.mainPurpose != ""
    ensures session.mainPurpose != "" ==> p.mainPurpose == session.mainPurpose
    ensures session.mainPurpose == "" ==> p.mainPurpose == DefaultPurpose
    ensures p.placesList == FormatPlaces(cands)
    ensures p.limit == limit
  {
    RecommendPrompt(session.categories.place, Join(session.categories.primaryTraits, ", "),
                    PromptPurpose(session),
                    FormatPlaces(cands), limit)
  }

  /* ------------------------------------------------ the merge as written */

  /** The merge as the source writes it, on its own `RecommendedPlace`,
      which declares no coordinate fields: pydantic refuses the assignment
      `recommended.latitude = ...` with a `ValueError` the first time a pick
      is named like a candidate. Without any such pick the list passes
      through unchanged. */
  function MergeCoordinatesAsWritten(recs: seq<RecommendedPlace>, cands: seq<Place>)
    : (r: Result<seq<RecommendedPlace>, Error>)
    ensures r.Ok? <==> forall i, j :: 0 <= i < |recs| && 0 <= j < |cands| ==> cands[j].name != recs[i].name
    ensures r.Ok? ==> r.value == recs
    ensures r.Err? ==> r.error == NoSuchField("latitude")
  {
    if recs == [] then Ok([])
    else if LastByName(cands, recs[0].name).Some? then Err(NoSuchField("latitude"))
    else
      match MergeCoordinatesAsWritten(recs[1..], cands)
      case Err(e) => Err(e)
      case Ok(rest) =>
        assert recs == [recs[0]] + recs[1..];
        Ok([recs[0]] + rest)
  }

  /** A pick that names a real candidate, which is what the prompt asks the
      model for, makes the merge as written raise. */
  lemma AsWrittenMergeRejectsMatchingPick()
    ensures
      var cand := Place("경복궁", Attraction, Some("서울 종로구"), None, Some(37.57), Some(126.97), Some("서울"));
      var pick := RecommendedPlace("경복궁", "서울 종로구", "궁궐", 9, None, None);
      && MergeCoordinatesAsWritten([pick], [cand]).Err?
      && MergeCoordinates([pick], [cand])[0].latitude == Some(37.57)
  {
  }
}
