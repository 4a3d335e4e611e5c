/** Trip planning (src/chain/planner/extractor.py): the trip-length parser,
    the prompt context built from a session, plan creation and plan lookup.
    The full-plan chain is the parameter `generate`. */
module TravelPlanner {
  import opened Wrappers
  import opened Text
  import opened Values
  import opened Features
  import opened PlannerData
  import opened Store

  const Nights: char := '박'
  const Days: char := '일'
  const Week: char := '주'

  const DefaultPeople: string := "정보 없음"
  const DefaultDay: string := "1일"
  const NoConsiderations: string := "특별한 고려사항 없음"
  const InterestsLabel: string := "주요 관심사: "
  const GeneralTourism: string := "일반 관광"

  /* -------------------------------------------------------- trip length */

  /** `day_str.replace(" ", "").lower()`: only the ASCII space is removed.
      The result has no space and nothing left to lower-case, and it adds
      no digit. */
  function Normalize(s: string): (r: string)
    ensures Plain(r)
    ensures |r| <= |s|
    ensures NoDigit(s) ==> NoDigit(r)
  {
    var t := RemoveAll(s, ' ');
    assert NoDigit(s) ==> NoDigit(t) by {
      if NoDigit(s) {
        forall i | 0 <= i < |t| ensures !IsDigit(t[i]) { assert t[i] in s; }
      }
    }
    Lower(t)
  }

  /** The "<N>박<M>일" rule: the number between the last 박 before the first
      일 and that 일; `None` when the rule does not apply or `int()` fails. */
  function NightsDaysValue(s: string): (r: Option<int>)
    ensures r.Some? ==> Nights in s && Days in s
    ensures r.Some? ==> !NoDigit(s)
  {
    if Nights in s && Days in s then ParseInt(AfterLast(BeforeFirst(s, Days), Nights)) else None
  }

  predicate MentionsWeek(s: string) {
    Week in s || Contains(s, "week")
  }

  /** The "<N>일" rule: every 일 deleted, the rest stripped and parsed. */
  function DayCountValue(s: string): (r: Option<int>)
    ensures r.Some? ==> Days in s
    ensures r.Some? ==> !NoDigit(s)
  {
    if Days in s then ParseInt(Strip(RemoveAll(s, Days))) else None
  }

  /** The rules in the order they are tried, on normalised text. The week
      test reads `day_str.lower()`, which is the already lower-cased text. */
  function Cascade(s: string): (days: int)
    ensures NightsDaysValue(s).Some? ==> days == NightsDaysValue(s).value
    ensures || days == 1 || days == 7
            || NightsDaysValue(s) == Some(days) || DayCountValue(s) == Some(days) || ParseInt(s) == Some(days)
  {
    match NightsDaysValue(s)
    case Some(days) => days
    case None =>
      if MentionsWeek(s) then 7
      else
        match DayCountValue(s)
        case Some(days) => days
        case None =>
          match ParseInt(s)
          case Some(days) => days
          case None => 1
  }

  /** `parse_travel_days`: empty text means one day; otherwise the rules
      read the normalised text, falling back to 1 and never failing. */
  function ParseTravelDays(dayStr: string): (days: int)
    ensures dayStr == "" ==> days == 1
  {
    if dayStr == "" then 1 else Cascade(Normalize(dayStr))
  }

  /** Text the normalisation leaves alone: no ASCII space and nothing to
      lower-case. */
  predicate Plain(s: string) {
    forall i :: 0 <= i < |s| ==> s[i] != ' ' && LowerChar(s[i]) == s[i]
  }

  lemma PlainIsNormal(s: string)
    requires Plain(s) && s != ""
    ensures ParseTravelDays(s) == Cascade(s)
  {
    assert RemoveAll(s, ' ') == s;
    LowerNoOp(s);
  }

  lemma PlainAppend(a: string, b: string)
    requires Plain(a) && Plain(b)
    ensures Plain(a + b)
  {
    forall i | 0 <= i < |a + b| ensures (a + b)[i] != ' ' && LowerChar((a + b)[i]) == (a + b)[i] {
      if i < |a| { assert (a + b)[i] == a[i]; } else { assert (a + b)[i] == b[i - |a|]; }
    }
  }

  /** A decimal numeral: plain, and free of every marker the rules look for. */
  lemma NumeralFacts(n: nat)
    ensures Plain(NatToString(n))
    ensures Nights !in NatToString(n) && Days !in NatToString(n) && Week !in NatToString(n)
    ensures 'w' !in NatToString(n)
  {
    var d := NatToString(n);
    forall i | 0 <= i < |d| ensures d[i] != ' ' && LowerChar(d[i]) == d[i] {
      assert IsDigit(d[i]);
    }
  }

  lemma NoWeekWithoutW(s: string)
    requires Week !in s && 'w' !in s
    ensures !MentionsWeek(s)
  {
    if Contains(s, "week") { ContainsFirstChar(s, "week"); }
  }

  /** Normalising twice is normalising once. */
  lemma NormalizeIdempotent(s: string)
    ensures Normalize(Normalize(s)) == Normalize(s)
  {
    var t := Normalize(s);
    forall i | 0 <= i < |t| ensures t[i] != ' ' {
      assert t[i] == LowerChar(RemoveAll(s, ' ')[i]);
    }
    assert RemoveAll(t, ' ') == t;
    LowerIdempotent(RemoveAll(s, ' '));
  }

  /** Spaces and letter case do not matter: "3박 4일" reads as "3박4일" and
      "WEEK" as "week". */
  lemma ParseIgnoresSpacesAndCase(s: string)
    ensures ParseTravelDays(s) == ParseTravelDays(Normalize(s))
  {
    NormalizeIdempotent(s);
    if s != "" && Normalize(s) == "" {
      assert !MentionsWeek("");
      assert ParseInt("") == None;
    }
  }

  lemma NightsDaysReading(n: nat, m: nat)
    ensures NightsDaysValue(NatToString(n) + [Nights] + NatToString(m) + [Days]) == Some(m as int)
  {
    var a := NatToString(n) + [Nights] + NatToString(m);
    NumeralFacts(n);
    NumeralFacts(m);
    assert Days !in a;
    BeforeFirstSplits(a, Days, []);
    assert a + [Days] == a + [Days] + [];
    AfterLastSplits(NatToString(n), Nights, NatToString(m));
    ParseIntOfNat(m);
  }

  /** "<N>박<M>일" gives M, whatever N is; this rule is tried first. */
  lemma NightsDaysGiveDays(n: nat, m: nat)
    ensures ParseTravelDays(NatToString(n) + "박" + NatToString(m) + "일") == m
  {
    var s := NatToString(n) + [Nights] + NatToString(m) + [Days];
    assert s == NatToString(n) + "박" + NatToString(m) + "일";
    NumeralFacts(n);
    NumeralFacts(m);
    PlainAppend(NatToString(n), [Nights]);
    PlainAppend(NatToString(n) + [Nights], NatToString(m));
    PlainAppend(NatToString(n) + [Nights] + NatToString(m), [Days]);
    PlainIsNormal(s);
    NightsDaysReading(n, m);
  }

  /** Without a usable nights/days reading, any mention of a week gives 7,
      whatever number comes with it. */
  lemma WeekGivesSeven(s: string)
    ensures (s != "" && MentionsWeek(Normalize(s)) && NightsDaysValue(Normalize(s)).None?) ==>
      ParseTravelDays(s) == 7
  {
  }

  lemma DropDayMarker(d: string)
    requires Days !in d
    ensures RemoveAll(d + [Days], Days) == d
  {
    RemoveAllAppend(d, [Days], Days);
    assert RemoveAll([Days], Days) == RemoveAll([], Days);
  }

  lemma DayCountReading(n: nat)
    ensures DayCountValue(NatToString(n) + [Days]) == Some(n as int)
  {
    var d := NatToString(n);
    NumeralFacts(n);
    assert IsDigit(d[0]) && IsDigit(d[|d| - 1]);
    StripNoOp(d);
    ParseIntOfNat(n);
    DayCountOfStripped(d, n);
  }

  /** Stripped text before a single 일 is read by `int()`. */
  lemma DayCountOfStripped(d: string, v: int)
    requires Days !in d && Strip(d) == d && ParseInt(d) == Some(v)
    ensures DayCountValue(d + [Days]) == Some(v)
  {
    DropDayMarker(d);
  }

  /** "<N>일" gives N, unclamped: "0일" gives 0. */
  lemma DayCountGivesDays(n: nat)
    ensures ParseTravelDays(NatToString(n) + "일") == n
  {
    var d := NatToString(n);
    var s := d + [Days];
    assert s == NatToString(n) + "일";
    NumeralFacts(n);
    PlainAppend(d, [Days]);
    PlainIsNormal(s);
    assert Nights !in s && Week !in s && 'w' !in s;
    NoWeekWithoutW(s);
    DayCountReading(n);
  }

  /** A bare integer, signed or not, gives itself. */
  lemma BareNumberGivesItself(n: nat)
    ensures ParseTravelDays(NatToString(n)) == n
    ensures ParseTravelDays("-" + NatToString(n)) == -(n as int)
  {
    var d := NatToString(n);
    NumeralFacts(n);
    PlainIsNormal(d);
    NoWeekWithoutW(d);
    ParseIntOfNat(n);
    var neg := "-" + d;
    PlainAppend("-", d);
    PlainIsNormal(neg);
    assert Nights !in neg && Days !in neg && Week !in neg && 'w' !in neg;
    NoWeekWithoutW(neg);
    ParseIntOfNegated(n);
  }

  /** An information separator (U+001C..U+001F) before a numeral is not
      whitespace to `int()`: the text matches no rule and gives 1, where a
      leading space would have been removed. */
  lemma SeparatorBeforeNumberFallsBack(n: nat, sep: char)
    requires '\U{001C}' <= sep <= '\U{001F}'
    ensures ParseTravelDays([sep] + NatToString(n)) == 1
  {
    var d := NatToString(n);
    var s := [sep] + d;
    NumeralFacts(n);
    PlainAppend([sep], d);
    PlainIsNormal(s);
    assert Nights !in s && Days !in s && Week !in s && 'w' !in s;
    NoWeekWithoutW(s);
    ParseIntRejectsSeparator(s);
  }

  /** Nights without days, "<N>박", match no rule and fall back to 1. */
  lemma NightsAloneFallBack(n: nat)
    ensures ParseTravelDays(NatToString(n) + "박") == 1
  {
    var d := NatToString(n);
    var s := d + [Nights];
    assert s == NatToString(n) + "박";
    NumeralFacts(n);
    PlainAppend(d, [Nights]);
    PlainIsNormal(s);
    NightsAloneCascade(d);
  }

  /** Text ending in 박 with no 일 and no week marker passes every rule. */
  lemma NightsAloneCascade(d: string)
    requires d != [] && IsDigit(d[0]) && Days !in d && Week !in d && 'w' !in d
    ensures Cascade(d + [Nights]) == 1
  {
    var s := d + [Nights];
    assert Days !in s && Week !in s && 'w' !in s;
    NoWeekWithoutW(s);
    assert IsDigit(s[0]) && s[|s| - 1] == Nights;
    StripNoOp(s);
    ParseIntEndsInDigit(s);
  }

  lemma NoDigitRules(t: string)
    requires NoDigit(t)
    ensures NightsDaysValue(t).None? && DayCountValue(t).None? && ParseInt(t).None?
  {
    NoDigitNoNightsDays(t);
    NoDigitNoDayCount(t);
    ParseIntNeedsDigit(t);
  }

  lemma NoDigitNoNightsDays(t: string)
    requires NoDigit(t)
    ensures NightsDaysValue(t).None?
  {
    var before := BeforeFirst(t, Days);
    assert NoDigit(before) by {
      forall i | 0 <= i < |before| ensures !IsDigit(before[i]) { assert before[i] == t[i]; }
    }
    var after := AfterLast(before, Nights);
    assert NoDigit(after) by {
      forall i | 0 <= i < |after| ensures !IsDigit(after[i]) { assert after[i] == before[|before| - |after| + i]; }
    }
    ParseIntNeedsDigit(after);
  }

  lemma NoDigitNoDayCount(t: string)
    requires NoDigit(t)
    ensures DayCountValue(t).None?
  {
    var rest := RemoveAll(t, Days);
    assert NoDigit(rest) by {
      forall i | 0 <= i < |rest| ensures !IsDigit(rest[i]) { assert rest[i] in t; }
    }
    ParseIntNeedsDigit(Strip(rest));
  }

  lemma NoDigitSurvivesNormalize(s: string)
    requires NoDigit(s)
    ensures NoDigit(Normalize(s))
  {
    var t := RemoveAll(s, ' ');
    forall i | 0 <= i < |t| ensures !IsDigit(t[i]) {
      assert t[i] in s;
    }
  }

  /** Text without a digit and without a week marker falls back to 1:
      "abc" gives 1. */
  lemma NoNumberFallsBack(s: string)
    requires NoDigit(s) && !MentionsWeek(Normalize(s))
    ensures ParseTravelDays(s) == 1
  {
    if s != "" {
      NoDigitSurvivesNormalize(s);
      NoDigitRules(Normalize(s));
    }
  }

  /** The cases the cascade is known by, each from the general lemma it
      instantiates. */
  lemma NightsDaysExample()
    ensures ParseTravelDays("3박4일") == 4
  {
    assert NatToString(3) + "박" + NatToString(4) + "일" == "3박4일" by {
      assert NatToString(3) == "3" && NatToString(4) == "4";
    }
    NightsDaysGiveDays(3, 4);
  }

  /** One space between two plain pieces disappears in normalisation. */
  lemma PlainPiecesNormalize(a: string, b: string)
    requires Plain(a) && Plain(b)
    ensures Normalize(a + [' '] + b) == a + b
  {
    assert ' ' !in a && ' ' !in b;
    RemoveSeparator(a, ' ', b);
    PlainAppend(a, b);
    LowerNoOp(a + b);
  }

  lemma SpacedExampleNormalizes()
    ensures Normalize("3박 4일") == "3박4일"
  {
    var a, b := "3박", "4일";
    assert Plain(a) && Plain(b);
    assert "3박 4일" == a + [' '] + b;
    assert a + b == "3박4일";
    PlainPiecesNormalize(a, b);
  }

  lemma SpacedNightsDaysExample()
    ensures ParseTravelDays("3박 4일") == 4
  {
    SpacedExampleNormalizes();
    ParseIgnoresSpacesAndCase("3박 4일");
    NightsDaysExample();
  }

  lemma FiveDaysExample()
    ensures ParseTravelDays("5일") == 5
  {
    DayCountGivesDays(5);
    assert NatToString(5) + "일" == "5일";
  }

  /** The day count is not clamped to at least one. */
  lemma ZeroDaysExample()
    ensures ParseTravelDays("0일") == 0
  {
    DayCountGivesDays(0);
    assert NatToString(0) + "일" == "0일";
  }

  lemma WeekExample()
    ensures ParseTravelDays("2주") == 7
  {
    assert Plain("2주");
    PlainIsNormal("2주");
  }

  lemma WholeWeekExample()
    ensures ParseTravelDays("일주일") == 7
  {
    assert Plain("일주일");
    PlainIsNormal("일주일");
  }

  lemma NightsAloneExample()
    ensures ParseTravelDays("3박") == 1
  {
    assert NatToString(3) + "박" == "3박";
    NightsAloneFallBack(3);
  }

  /* ------------------------------------------------------ prompt context */

  /** `x or default` for a session text field. */
  function OrDefault(x: Option<string>, default: string): (r: string)
    ensures x.Some? && x.value != "" ==> r == x.value
    ensures x.None? || x.value == "" ==> r == default
  {
    if x.Some? && x.value != "" then x.value else default
  }

  /** A group contributes a line only with both a name and some tags. */
  predicate Listed(g: CategoryGroup) {
    g.category != "" && g.tags != []
  }

  function GroupLine(g: CategoryGroup): string {
    g.category + ": " + Join(g.tags, ", ")
  }

  /** The lines of the listed groups, in order. */
  function GroupLines(groups: seq<CategoryGroup>): (r: seq<string>)
    ensures |r| <= |groups|
    ensures r == [] <==> forall i :: 0 <= i < |groups| ==> !Listed(groups[i])
  {
    if groups == [] then []
    else (if Listed(groups[0]) then [GroupLine(groups[0])] else []) + GroupLines(groups[1..])
  }

  lemma {:induction false} GroupLinesSnoc(groups: seq<CategoryGroup>, g: CategoryGroup)
    ensures GroupLines(groups + [g]) == GroupLines(groups) + (if Listed(g) then [GroupLine(g)] else [])
  {
    if groups != [] {
      assert (groups + [g])[1..] == groups[1..] + [g];
      GroupLinesSnoc(groups[1..], g);
    } else {
      assert GroupLines([g]) == (if Listed(g) then [GroupLine(g)] else []) + GroupLines([]);
    }
  }

  function TraitsLine(traits: seq<string>): string {
    if traits != [] then InterestsLabel + Join(traits, ", ") else ""
  }

  /** The category text before its fallback: the traits line, then one
      line per listed group, each after a newline. */
  function CategoryText(f: PlaceFeatures): string {
    var details := GroupLines(f.categories);
    TraitsLine(f.primaryTraits) + (if details != [] then "\n" + Join(details, "\n") else "")
  }

  /** The category summary of `create_travel_plan`: it opens with the
      interests line when there are traits, and it is the generic label
      exactly when neither traits nor a listed group exist. */
  function CategorySummary(f: PlaceFeatures): (r: string)
    ensures f.primaryTraits != [] ==> InterestsLabel + Join(f.primaryTraits, ", ") <= r
    ensures r == GeneralTourism <==>
      f.primaryTraits == [] && forall i :: 0 <= i < |f.categories| ==> !Listed(f.categories[i])
  {
    var text := CategoryText(f);
    assert text != "" ==> text[0] != GeneralTourism[0];
    if text == "" then GeneralTourism else text
  }

  /** A group missing its name or its tags changes nothing. */
  lemma UnlistedGroupIsSkipped(f: PlaceFeatures, g: CategoryGroup)
    requires !Listed(g)
    ensures CategoryText(f.(categories := f.categories + [g])) == CategoryText(f)
  {
    GroupLinesSnoc(f.categories, g);
    assert GroupLines(f.categories + [g]) == GroupLines(f.categories);
  }

  /** A listed group adds one line, `"name: tags"`, after a newline. */
  lemma ListedGroupAddsLine(f: PlaceFeatures, g: CategoryGroup)
    requires Listed(g)
    ensures CategoryText(f.(categories := f.categories + [g])) == CategoryText(f) + "\n" + GroupLine(g)
  {
    var before := GroupLines(f.categories);
    GroupLinesSnoc(f.categories, g);
    if before == [] {
      assert GroupLines(f.categories + [g]) == [GroupLine(g)];
    } else {
      JoinSnoc(before, GroupLine(g), "\n");
    }
  }

  /** `", ".join(options)`, or the no-considerations label when there
      are none; a single option is passed through as it is. */
  function Considerations(options: seq<string>): (r: string)
    ensures options == [] ==> r == NoConsiderations
    ensures |options| == 1 ==> r == options[0]
  {
    if options == [] then NoConsiderations else Join(options, ", ")
  }

  /** Options accumulate in order, one ", " between each. */
  lemma ConsiderationsAppend(options: seq<string>, o: string)
    requires options != []
    ensures Considerations(options + [o]) == Considerations(options) + ", " + o
  {
    JoinSnoc(options, o, ", ");
  }

  /** The main destination as the caller passes it (`main_place`); absent
      keys read as the defaults of `main_place.get`. */
  datatype MainPlace = MainPlace(
    name: Option<string>,
    address: Option<string>,
    latitude: Option<real>,
    longitude: Option<real>,
    reason: Option<string>)

  /** The variables of the planner prompt. */
  datatype PlanPrompt = PlanPrompt(
    mainPlaceName: string,
    mainPlaceAddress: string,
    mainPlaceLatitude: real,
    mainPlaceLongitude: real,
    mainPlaceReason: string,
    categories: string,
    mainPurpose: string,
    people: string,
    travelDays: int,
    considerations: string)

  /** The prompt variables `create_travel_plan` derives from a session:
      empty fields fall back to their defaults, and a session without a
      `day` plans a one-day trip. */
  function PlanPromptFor(s: Session, main: MainPlace): (p: PlanPrompt)
    ensures s.mainPurpose != "" ==> p.mainPurpose == s.mainPurpose
    ensures s.mainPurpose == "" ==> p.mainPurpose == DefaultPurpose
    ensures s.people.Some? && s.people.value != "" ==> p.people == s.people.value
    ensures s.people.None? || s.people.value == "" ==> p.people == DefaultPeople
    ensures s.day.None? || s.day.value == "" ==> p.travelDays == 1
    ensures s.day.Some? && s.day.value != "" ==> p.travelDays == ParseTravelDays(s.day.value)
    ensures s.options == [] ==> p.considerations == NoConsiderations
    ensures s.options != [] ==> p.considerations == Join(s.options, ", ")
    ensures p.categories == CategorySummary(s.categories)
    ensures p.mainPlaceName == main.name.GetOr("") && p.mainPlaceReason == main.reason.GetOr("")
    ensures p.mainPlaceAddress == main.address.GetOr("")
    ensures p.mainPlaceLatitude == main.latitude.GetOr(0.0) && p.mainPlaceLongitude == main.longitude.GetOr(0.0)
  {
    DayCountGivesDays(1);
    assert NatToString(1) + "일" == DefaultDay;
    PlanPrompt(
      main.name.GetOr(""), main.address.GetOr(""), main.latitude.GetOr(0.0), main.longitude.GetOr(0.0),
      main.reason.GetOr(""),
      CategorySummary(s.categories),
      PromptPurpose(s),
      OrDefault(s.people, DefaultPeople),
      ParseTravelDays(OrDefault(s.day, DefaultDay)),
      Considerations(s.options))
  }

  /* ------------------------------------------------- create and look up */

  /** The planner document built from a generated plan: the main destination
      copied field by field and each day stored as its dump, which validates
      back to that day. */
  function PlannerFrom(id: nat, t: TravelPlan): (p: Planner)
    ensures p.recentId == id && p.totalDays == t.totalDays && p.overview == t.overview
    ensures p.mainName == t.mainDestination.name && p.mainAddress == t.mainDestination.address
    ensures p.mainLatitude == t.mainDestination.latitude && p.mainLongitude == t.mainDestination.longitude
    ensures |p.dailyPlans| == |t.dailyPlans|
    ensures forall i :: 0 <= i < |t.dailyPlans| ==> DecodeDay(VObj(p.dailyPlans[i])) == Some(t.dailyPlans[i])
  {
    var days := seq(|t.dailyPlans|, i requires 0 <= i < |t.dailyPlans| => DumpDayPlan(t.dailyPlans[i]));
    forall i | 0 <= i < |t.dailyPlans| ensures DecodeDay(VObj(days[i])) == Some(t.dailyPlans[i]) {
      DayRoundTrip(t.dailyPlans[i]);
    }
    Planner(id, t.mainDestination.name, t.mainDestination.address, t.mainDestination.latitude,
            t.mainDestination.longitude, t.totalDays, days, t.overview)
  }

  /** `create_travel_plan`, reading the main destination from
      `travel_plan.main_destination`: a missing session fails first, a
      failed generation stores nothing, and a success appends exactly one
      planner document referencing the session and leaves sessions alone. */
  function CreateTravelPlan(db: Db, id: nat, main: MainPlace, generate: PlanPrompt -> Generated<TravelPlan>)
    : (r: Step<Planner>)
    ensures id !in db.sessions ==> r == Step(db, Err(SessionNotFound))
    ensures r.result.Err? ==> r.db == db
    ensures r.result.Ok? ==>
      && id in db.sessions
      && r.db == db.(planners := db.planners + [r.result.value])
      && r.result.value.recentId == id
    ensures id in db.sessions ==>
      (r.result.Ok? <==> Coerce(generate(PlanPromptFor(db.sessions[id], main)), DecodeTravelPlan).Ok?)
    ensures r.result.Ok? ==>
      r.result.value == PlannerFrom(id, Coerce(generate(PlanPromptFor(db.sessions[id], main)), DecodeTravelPlan).value)
    ensures id in db.sessions && r.result.Err? ==>
      r.result == Err(Coerce(generate(PlanPromptFor(db.sessions[id], main)), DecodeTravelPlan).error)
  {
    if id !in db.sessions then Step(db, Err(SessionNotFound))
    else
      var prompt := PlanPromptFor(db.sessions[id], main);
      match Coerce(generate(prompt), DecodeTravelPlan)
      case Err(e) => Step(db, Err(e))
      case Ok(plan) =>
        var planner := PlannerFrom(id, plan);
        Step(InsertPlanner(db, planner), Ok(planner))
  }

  /** `create_travel_plan` as the source writes it: after a successful
      generation it reads `travel_plan.main_destination_name`, a field
      `TravelPlan` does not have, so the call raises and nothing is stored. */
  function CreateTravelPlanAsWritten(db: Db, id: nat, main: MainPlace, generate: PlanPrompt -> Generated<TravelPlan>)
    : (r: Step<Planner>)
    ensures r.db == db && r.result.Err?
    ensures id !in db.sessions ==> r.result.error == SessionNotFound
    ensures id in db.sessions && Coerce(generate(PlanPromptFor(db.sessions[id], main)), DecodeTravelPlan).Ok? ==>
      r.result.error == NoSuchField("main_destination_name")
  {
    if id !in db.sessions then Step(db, Err(SessionNotFound))
    else
      var prompt := PlanPromptFor(db.sessions[id], main);
      match Coerce(generate(prompt), DecodeTravelPlan)
      case Err(e) => Step(db, Err(e))
      case Ok(plan) => Step(db, Err(NoSuchField("main_destination_name")))
  }

  /** `get_travel_plan`: the first planner document, in insertion order,
      that references the session. */
  function GetTravelPlan(db: Db, id: nat): (r: Result<Planner, Error>)
    ensures r.Err? <==> forall k :: 0 <= k < |db.planners| ==> db.planners[k].recentId != id
    ensures r.Err? ==> r.error == PlanNotFound
    ensures r.Ok? ==> exists k :: (0 <= k < |db.planners| && db.planners[k] == r.value
      && r.value.recentId == id && forall j :: 0 <= j < k ==> db.planners[j].recentId != id)
  {
    FirstPlanFor(db.planners, id)
  }

  function FirstPlanFor(planners: seq<Planner>, id: nat): (r: Result<Planner, Error>)
    ensures r.Err? <==> forall k :: 0 <= k < |planners| ==> planners[k].recentId != id
    ensures r.Err? ==> r.error == PlanNotFound
    ensures r.Ok? ==> exists k :: (0 <= k < |planners| && planners[k] == r.value
      && r.value.recentId == id && forall j :: 0 <= j < k ==> planners[j].recentId != id)
  {
    if planners == [] then Err(PlanNotFound)
    else if planners[0].recentId == id then Ok(planners[0])
    else
      var r := FirstPlanFor(planners[1..], id);
      assert r.Ok? ==> exists k :: (1 <= k < |planners| && planners[k] == r.value
        && forall j :: 0 <= j < k ==> planners[j].recentId != id);
      r
  }

  /** A created plan can be looked up by its session; it is the one found
      when it is the session's first plan, and it holds one stored day per
      generated day. */
  lemma CreatedPlanIsFound(db: Db, id: nat, main: MainPlace, generate: PlanPrompt -> Generated<TravelPlan>)
    ensures CreateTravelPlan(db, id, main, generate).result.Ok? ==>
      GetTravelPlan(CreateTravelPlan(db, id, main, generate).db, id).Ok?
    ensures (CreateTravelPlan(db, id, main, generate).result.Ok? &&
      forall k :: 0 <= k < |db.planners| ==> db.planners[k].recentId != id) ==>
      GetTravelPlan(CreateTravelPlan(db, id, main, generate).db, id) == CreateTravelPlan(db, id, main, generate).result
  {
    var r := CreateTravelPlan(db, id, main, generate);
    if r.result.Err? { return; }
    var p := r.result.value;
    assert r.db.planners[|db.planners|] == p;
    if forall k :: 0 <= k < |db.planners| ==> db.planners[k].recentId != id {
      var found := GetTravelPlan(r.db, id);
      var k :| 0 <= k < |r.db.planners| && r.db.planners[k] == found.value
        && found.value.recentId == id && forall j :: 0 <= j < k ==> r.db.planners[j].recentId != id;
      assert k == |db.planners|;
    }
  }

  /** The finding in one input: a session and a generator that returns a
      valid plan; the code as written stores nothing, the corrected
      definition stores the plan and finds it again. */
  lemma AsWrittenPlanIsNeverStored(db: Db, id: nat, main: MainPlace, t: TravelPlan)
    requires id in db.sessions
    ensures CreateTravelPlanAsWritten(db, id, main, _ => Typed(t)).result == Err(NoSuchField("main_destination_name"))
    ensures CreateTravelPlan(db, id, main, _ => Typed(t)).result == Ok(PlannerFrom(id, t))
    ensures GetTravelPlan(CreateTravelPlan(db, id, main, _ => Typed(t)).db, id).Ok?
  {
    CreatedPlanIsFound(db, id, main, _ => Typed(t));
  }
}
