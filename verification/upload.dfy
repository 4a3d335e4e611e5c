/** The catalog loader (scripts/upload_csv.py): each CSV row, as the CSV
    module's dictionary reader hands it over, becomes at most one `Place`;
    the rows that map to a named place are appended to the catalog in file
    order. Float parsing is the parameter `parseFloat` (`None` where
    `float()` raises `ValueError`). */
module UploadCsv {
  import opened Wrappers
  import opened Text
  import opened Store
  import Recommend

  /** One item of the row dictionary. `value` is `None` for a column the
      line is too short to fill (the reader's `restval`). */
  datatype Entry = Entry(key: string, value: Option<string>)

  /** A row dictionary: its string-keyed items in column order, and whether
      the line had more fields than the header, in which case the reader
      adds one last item under the key `None` (its `restkey`). A dictionary
      has one item per key, so a lookup by first occurrence is the lookup. */
  datatype Row = Row(entries: seq<Entry>, overflow: bool)

  const NameKeys: seq<string> := ["관광지명", "poi_nm", "명칭", "이름"]
  const HistoricMarker: string := "mcate_nm"
  const HistoricParts: seq<string> := ["sido_nm", "sgg_nm", "bemd_nm", "ri_nm", "branch_nm"]
  const AddressKeys: seq<string> := ["소재지도로명주소", "소재지지번주소", "주소", "소재지"]
  const DescriptionKeys: seq<string> := ["관광지소개", "설명", "개요"]
  const RegionKeys: seq<string> := ["시도", "sido_nm", "지역"]

  const Historic: string := "유적지"

  /* ------------------------------------------------------------- lookups */

  /** `row[k]` when `k` is a key: `Some(value)`; `None` when it is not. */
  function Lookup(entries: seq<Entry>, k: string): (r: Option<Option<string>>)
    ensures r.None? <==> forall i :: 0 <= i < |entries| ==> entries[i].key != k
    ensures r.Some? ==> Entry(k, r.value) in entries
  {
    if entries == [] then None
    else if entries[0].key == k then Some(entries[0].value)
    else Lookup(entries[1..], k)
  }

  /** `row.get(k1, row.get(k2, … row.get(kn, '')))`: the value under the
      first key present, which may be `None`; `''` when none is. */
  function GetFirst(entries: seq<Entry>, keys: seq<string>): (r: Option<string>)
    ensures (forall j :: 0 <= j < |keys| ==> Lookup(entries, keys[j]).None?) ==> r == Some("")
    ensures forall j :: (0 <= j < |keys| && Lookup(entries, keys[j]).Some?
      && (forall i :: 0 <= i < j ==> Lookup(entries, keys[i]).None?)) ==> r == Lookup(entries, keys[j]).value
  {
    if keys == [] then Some("")
    else
      match Lookup(entries, keys[0])
      case Some(v) => v
      case None =>
        var r := GetFirst(entries, keys[1..]);
        assert forall j :: 1 <= j < |keys| ==> keys[j] == keys[1..][j - 1];
        r
  }

  /** `.strip()` on that value: `None` has no `strip`. */
  function StrippedFirst(entries: seq<Entry>, keys: seq<string>): (r: Result<string, Error>)
    ensures r.Err? <==> GetFirst(entries, keys).None?
    ensures r.Err? ==> r.error == NoneHasNoAttribute
    ensures r.Ok? ==> r.value == [] || (!IsSpace(r.value[0]) && !IsSpace(r.value[|r.value| - 1]))
    ensures r.Ok? ==> (r.value == [] <==> AllSpace(GetFirst(entries, keys).value))
    ensures r.Ok? ==> r.value == Strip(GetFirst(entries, keys).value)
  {
    match GetFirst(entries, keys)
    case None => Err(NoneHasNoAttribute)
    case Some(v) => Ok(Strip(v))
  }

  /* ------------------------------------------------------------- address */

  /** `[row.get(k, '').strip() for k in keys]`, failing at the first `None`. */
  function StrippedEach(entries: seq<Entry>, keys: seq<string>): (r: Result<seq<string>, Error>)
    ensures r.Ok? ==> |r.value| == |keys|
    ensures r.Err? ==> r.error == NoneHasNoAttribute
    ensures r.Ok? <==> forall j :: 0 <= j < |keys| ==> StrippedFirst(entries, [keys[j]]).Ok?
    ensures r.Ok? ==> forall j :: 0 <= j < |keys| ==> r.value[j] == StrippedFirst(entries, [keys[j]]).value
  {
    if keys == [] then Ok([])
    else
      match StrippedFirst(entries, [keys[0]])
      case Err(e) => Err(e)
      case Ok(x) =>
        var rest := StrippedEach(entries, keys[1..]);
        assert forall j :: 0 <= j < |keys[1..]| ==> keys[1..][j] == keys[j + 1];
        match rest
        case Err(e) => Err(e)
        case Ok(xs) => Ok([x] + xs)
  }

  /** The non-empty strings, in order (`[p for p in parts if p]`). */
  function NonEmpty(parts: seq<string>): (r: seq<string>)
    ensures |r| <= |parts|
    ensures forall i :: 0 <= i < |r| ==> r[i] != ""
    ensures forall x :: x in r <==> x in parts && x != ""
    ensures |parts| == 1 ==> r == (if parts[0] != "" then parts else [])
  {
    if parts == [] then []
    else (if parts[0] != "" then [parts[0]] else []) + NonEmpty(parts[1..])
  }

  /** The filter keeps order and multiplicity: the parts of a concatenation
      keep their non-empty members piece by piece. */
  lemma {:induction false} NonEmptyAppend(a: seq<string>, b: seq<string>)
    ensures NonEmpty(a + b) == NonEmpty(a) + NonEmpty(b)
  {
    if a == [] {
      assert a + b == b;
    } else {
      assert (a + b)[1..] == a[1..] + b;
      NonEmptyAppend(a[1..], b);
    }
  }

  /** A historic-site row (one with a `mcate_nm` column) joins the non-empty
      administrative parts with single spaces; any other row takes the
      first address column present. */
  function Address(entries: seq<Entry>): (r: Result<string, Error>)
    ensures Lookup(entries, HistoricMarker).None? ==> r == StrippedFirst(entries, AddressKeys)
    ensures r.Err? ==> r.error == NoneHasNoAttribute
    ensures Lookup(entries, HistoricMarker).Some? ==>
      (r.Ok? <==> StrippedEach(entries, HistoricParts).Ok?)
    ensures Lookup(entries, HistoricMarker).Some? && r.Ok? ==>
      r.value == Join(NonEmpty(StrippedEach(entries, HistoricParts).value), " ")
  {
    if Lookup(entries, HistoricMarker).Some? then
      match StrippedEach(entries, HistoricParts)
      case Err(e) => Err(e)
      case Ok(parts) => Ok(Join(NonEmpty(parts), " "))
    else StrippedFirst(entries, AddressKeys)
  }

  /** When no part has an inner space, the historic address splits back on
      spaces into exactly the non-empty parts, in order. */
  lemma HistoricAddressSplitsIntoParts(entries: seq<Entry>)
    requires Lookup(entries, HistoricMarker).Some? && StrippedEach(entries, HistoricParts).Ok?
    requires forall i :: 0 <= i < |HistoricParts| ==> ' ' !in StrippedEach(entries, HistoricParts).value[i]
    requires NonEmpty(StrippedEach(entries, HistoricParts).value) != []
    ensures Split(Address(entries).value, ' ') == NonEmpty(StrippedEach(entries, HistoricParts).value)
  {
    var parts := StrippedEach(entries, HistoricParts).value;
    var kept := NonEmpty(parts);
    forall i | 0 <= i < |kept| ensures ' ' !in kept[i] {
      assert kept[i] in parts;
    }
    SplitJoin(kept, ' ');
  }

  /* --------------------------------------------------------- coordinates */

  /** The key test of the coordinate search: the Korean marker, or the
      English word in the lower-cased key. */
  predicate NamesCoordinate(key: string, marker: string, word: string) {
    Contains(key, marker) || Contains(Lower(key), word)
  }

  /** `next((k for k in row.keys() if …), None)`, returning the item: the
      first key that names the coordinate. Testing the `None` key of an
      overlong row raises `TypeError`, but only when no earlier key
      matched, because that key comes last. */
  function FindCoordinate(entries: seq<Entry>, overflow: bool, marker: string, word: string)
    : (r: Result<Option<Entry>, Error>)
    ensures r.Err? <==> overflow && forall i :: 0 <= i < |entries| ==> !NamesCoordinate(entries[i].key, marker, word)
    ensures r.Err? ==> r.error == NoneNotIterable
    ensures r == Ok(None) ==> forall i :: 0 <= i < |entries| ==> !NamesCoordinate(entries[i].key, marker, word)
    ensures r.Ok? && r.value.Some? ==> exists i :: (0 <= i < |entries| && entries[i] == r.value.value
      && NamesCoordinate(entries[i].key, marker, word)
      && forall j :: 0 <= j < i ==> !NamesCoordinate(entries[j].key, marker, word))
  {
    if entries == [] then (if overflow then Err(NoneNotIterable) else Ok(None))
    else if NamesCoordinate(entries[0].key, marker, word) then Ok(Some(entries[0]))
    else
      var r := FindCoordinate(entries[1..], overflow, marker, word);
      assert r.Ok? && r.value.Some? ==> exists i :: (1 <= i < |entries| && entries[i] == r.value.value
        && NamesCoordinate(entries[i].key, marker, word)
        && forall j :: 0 <= j < i ==> !NamesCoordinate(entries[j].key, marker, word));
      r
  }

  /** The `i`-th item is the first whose key names the coordinate. */
  predicate FirstMarked(entries: seq<Entry>, i: int, marker: string, word: string) {
    && 0 <= i < |entries|
    && NamesCoordinate(entries[i].key, marker, word)
    && forall j :: 0 <= j < i ==> !NamesCoordinate(entries[j].key, marker, word)
  }

  /** `float(row[key])` when the key was found and its value is non-empty;
      a value `float()` rejects leaves the coordinate unset. */
  function Coordinate(found: Option<Entry>, parseFloat: string -> Option<real>): (r: Option<real>)
    ensures r.Some? <==> (found.Some? && found.value.value.Some? && found.value.value.value != ""
      && parseFloat(found.value.value.value).Some?)
    ensures r.Some? ==> r == parseFloat(found.value.value.value)
  {
    match found
    case Some(Entry(_, Some(v))) => if v != "" then parseFloat(v) else None
    case _ => None
  }

  /** The coordinate read by the search is that of the first marked column:
      unset when no column is marked, and otherwise `float()` of the first
      marked column's value when that value is non-empty. */
  lemma MarkedColumnGivesCoordinate(entries: seq<Entry>, overflow: bool, marker: string, word: string,
                                    parseFloat: string -> Option<real>)
    requires FindCoordinate(entries, overflow, marker, word).Ok?
    ensures (forall i :: 0 <= i < |entries| ==> !NamesCoordinate(entries[i].key, marker, word)) ==>
      Coordinate(FindCoordinate(entries, overflow, marker, word).value, parseFloat).None?
    ensures forall i :: FirstMarked(entries, i, marker, word) ==>
      Coordinate(FindCoordinate(entries, overflow, marker, word).value, parseFloat) == Coordinate(Some(entries[i]), parseFloat)
  {
    var found := FindCoordinate(entries, overflow, marker, word).value;
    if found.Some? {
      var k :| (0 <= k < |entries| && entries[k] == found.value
        && NamesCoordinate(entries[k].key, marker, word)
        && forall j :: 0 <= j < k ==> !NamesCoordinate(entries[j].key, marker, word));
      assert FirstMarked(entries, k, marker, word);
      forall i | FirstMarked(entries, i, marker, word) ensures i == k {
      }
    }
  }

  /* ----------------------------------------------------------------- rows */

  /** A row every column of which has a value and no extra field. */
  predicate Complete(row: Row) {
    !row.overflow && forall i :: 0 <= i < |row.entries| ==> row.entries[i].value.Some?
  }

  /** The body of the per-row `try`: `Err` is a row skipped with a warning,
      `Ok(None)` a row without a name, `Ok(Some(p))` the place to insert. */
  function MapRow(row: Row, placeType: string, parseFloat: string -> Option<real>): (r: Result<Option<Place>, Error>)
    ensures GetFirst(row.entries, NameKeys).None? ==> r == Err(NoneHasNoAttribute)
    ensures r.Ok? ==> (r.value.Some? <==> !AllSpace(GetFirst(row.entries, NameKeys).value))
    ensures r.Ok? && r.value.Some? ==>
      var p := r.value.value;
      && p.name == Strip(GetFirst(row.entries, NameKeys).value)
      && p.placeType == placeType
      && p.address.Some? && Address(row.entries) == Ok(p.address.value)
      && p.description.Some? && StrippedFirst(row.entries, DescriptionKeys) == Ok(p.description.value)
      && p.region.Some? && StrippedFirst(row.entries, RegionKeys) == Ok(p.region.value)
    ensures r.Ok? ==>
      && FindCoordinate(row.entries, row.overflow, "위도", "latitude").Ok?
      && FindCoordinate(row.entries, row.overflow, "경도", "longitude").Ok?
    ensures r.Ok? && r.value.Some? ==>
      && r.value.value.latitude == Coordinate(FindCoordinate(row.entries, row.overflow, "위도", "latitude").value, parseFloat)
      && r.value.value.longitude == Coordinate(FindCoordinate(row.entries, row.overflow, "경도", "longitude").value, parseFloat)
  {
    var name :- StrippedFirst(row.entries, NameKeys);
    var address :- Address(row.entries);
    var description :- StrippedFirst(row.entries, DescriptionKeys);
    var region :- StrippedFirst(row.entries, RegionKeys);
    var lat :- FindCoordinate(row.entries, row.overflow, "위도", "latitude");
    var lon :- FindCoordinate(row.entries, row.overflow, "경도", "longitude");
    if name == "" then Ok(None)
    else
      Ok(Some(Place(name, placeType, Some(address), Some(description),
                    Coordinate(lat, parseFloat), Coordinate(lon, parseFloat), Some(region))))
  }

  /** A present but blank `관광지명` column wins over the other name
      columns: the row is dropped even when `poi_nm` holds a name. */
  lemma BlankNameColumnDropsRow(row: Row, placeType: string, parseFloat: string -> Option<real>, v: string)
    requires Lookup(row.entries, NameKeys[0]) == Some(Some(v)) && AllSpace(v)
    ensures MapRow(row, placeType, parseFloat).Ok? ==> MapRow(row, placeType, parseFloat).value.None?
  {
    assert GetFirst(row.entries, NameKeys) == Some(v);
  }

  /** Only when `관광지명` is absent does the name come from `poi_nm`. */
  lemma NameFallsBackWhenAbsent(row: Row, placeType: string, parseFloat: string -> Option<real>, v: string)
    requires Lookup(row.entries, NameKeys[0]).None? && Lookup(row.entries, NameKeys[1]) == Some(Some(v))
    requires !AllSpace(v)
    ensures MapRow(row, placeType, parseFloat).Ok? ==> MapRow(row, placeType, parseFloat).value.Some?
    ensures (MapRow(row, placeType, parseFloat).Ok? && MapRow(row, placeType, parseFloat).value.Some?) ==>
      MapRow(row, placeType, parseFloat).value.value.name == Strip(v)
  {
    assert GetFirst(row.entries, NameKeys) == Some(v);
  }

  lemma {:induction false} CompleteLookup(entries: seq<Entry>, k: string)
    requires forall i :: 0 <= i < |entries| ==> entries[i].value.Some?
    ensures Lookup(entries, k).Some? ==> Lookup(entries, k).value.Some?
  {
    if entries != [] && entries[0].key != k {
      CompleteLookup(entries[1..], k);
    }
  }

  lemma {:induction false} CompleteGetFirst(entries: seq<Entry>, keys: seq<string>)
    requires forall i :: 0 <= i < |entries| ==> entries[i].value.Some?
    ensures GetFirst(entries, keys).Some?
  {
    if keys != [] {
      CompleteLookup(entries, keys[0]);
      CompleteGetFirst(entries, keys[1..]);
    }
  }

  /** A row with a value in every column and no extra field is never
      skipped with a warning. */
  lemma CompleteRowNeverRaises(row: Row, placeType: string, parseFloat: string -> Option<real>)
    requires Complete(row)
    ensures MapRow(row, placeType, parseFloat).Ok?
  {
    CompleteGetFirst(row.entries, NameKeys);
    CompleteGetFirst(row.entries, DescriptionKeys);
    CompleteGetFirst(row.entries, RegionKeys);
    CompleteGetFirst(row.entries, AddressKeys);
    forall j | 0 <= j < |HistoricParts| ensures StrippedFirst(row.entries, [HistoricParts[j]]).Ok? {
      CompleteGetFirst(row.entries, [HistoricParts[j]]);
    }
  }

  /** A skipped row either read a missing column's `None` as a string or,
      being overlong, had no column naming one of the coordinates, so the
      search reached its `None` key. */
  lemma RowErrors(row: Row, placeType: string, parseFloat: string -> Option<real>)
    ensures MapRow(row, placeType, parseFloat).Err? ==>
      || MapRow(row, placeType, parseFloat).error == NoneHasNoAttribute
      || (MapRow(row, placeType, parseFloat).error == NoneNotIterable && row.overflow)
    ensures MapRow(row, placeType, parseFloat) == Err(NoneHasNoAttribute) ==>
      || GetFirst(row.entries, NameKeys).None?
      || Address(row.entries).Err?
      || GetFirst(row.entries, DescriptionKeys).None?
      || GetFirst(row.entries, RegionKeys).None?
    ensures MapRow(row, placeType, parseFloat) == Err(NoneNotIterable) ==>
      && row.overflow
      && (|| (forall i :: 0 <= i < |row.entries| ==> !NamesCoordinate(row.entries[i].key, "위도", "latitude"))
          || (forall i :: 0 <= i < |row.entries| ==> !NamesCoordinate(row.entries[i].key, "경도", "longitude")))
  {
    var e := row.entries;
    if MapRow(row, placeType, parseFloat).Err? && StrippedFirst(e, NameKeys).Ok? && Address(e).Ok?
       && StrippedFirst(e, DescriptionKeys).Ok? && StrippedFirst(e, RegionKeys).Ok? {
      var lat := FindCoordinate(e, row.overflow, "위도", "latitude");
      var lon := FindCoordinate(e, row.overflow, "경도", "longitude");
      assert lat.Err? || lon.Err?;
      assert row.overflow;
    }
  }

  /** A stored place's coordinates come from the first column whose key
      names each of them: unset when there is no such column, and otherwise
      `float()` of that column's value when the value is non-empty. */
  lemma CoordinatesFromMarkedColumns(row: Row, placeType: string, parseFloat: string -> Option<real>)
    ensures (MapRow(row, placeType, parseFloat).Ok? && MapRow(row, placeType, parseFloat).value.Some?) ==>
      var p := MapRow(row, placeType, parseFloat).value.value;
      && ((forall i :: 0 <= i < |row.entries| ==> !NamesCoordinate(row.entries[i].key, "위도", "latitude")) ==> p.latitude.None?)
      && (forall i :: FirstMarked(row.entries, i, "위도", "latitude") ==> p.latitude == Coordinate(Some(row.entries[i]), parseFloat))
      && ((forall i :: 0 <= i < |row.entries| ==> !NamesCoordinate(row.entries[i].key, "경도", "longitude")) ==> p.longitude.None?)
      && (forall i :: FirstMarked(row.entries, i, "경도", "longitude") ==> p.longitude == Coordinate(Some(row.entries[i]), parseFloat))
  {
    var m := MapRow(row, placeType, parseFloat);
    if m.Ok? && m.value.Some? {
      MarkedColumnGivesCoordinate(row.entries, row.overflow, "위도", "latitude", parseFloat);
      MarkedColumnGivesCoordinate(row.entries, row.overflow, "경도", "longitude", parseFloat);
    }
  }

  /** The places a file contributes, in row order. */
  function UploadRows(rows: seq<Row>, placeType: string, parseFloat: string -> Option<real>): (r: seq<Place>)
    ensures |r| <= |rows|
    ensures forall p :: p in r ==>
      p.name != "" && p.placeType == placeType && p.address.Some? && p.description.Some? && p.region.Some?
  {
    var r := Collect(rows, Contribution(placeType, parseFloat));
    assert forall p :: p in r ==> exists i :: 0 <= i < |rows| && MapRow(rows[i], placeType, parseFloat) == Ok(Some(p)) by {
      forall p | p in r
        ensures exists i :: 0 <= i < |rows| && MapRow(rows[i], placeType, parseFloat) == Ok(Some(p))
      {
        CollectMembers(rows, Contribution(placeType, parseFloat), p);
      }
    }
    r
  }

  /** What one row contributes: its place when it maps to one, nothing when
      it is dropped or raises. */
  function RowPlaces(row: Row, placeType: string, parseFloat: string -> Option<real>): (r: seq<Place>)
    ensures |r| <= 1
    ensures forall p :: p in r <==> MapRow(row, placeType, parseFloat) == Ok(Some(p))
  {
    match MapRow(row, placeType, parseFloat) case Ok(Some(p)) => [p] case _ => []
  }

  function Contribution(placeType: string, parseFloat: string -> Option<real>): (f: Row -> seq<Place>)
    ensures forall row :: f(row) == RowPlaces(row, placeType, parseFloat)
  {
    row => RowPlaces(row, placeType, parseFloat)
  }

  /** The row loop: each row's contribution, concatenated in row order. */
  function Collect(rows: seq<Row>, f: Row -> seq<Place>): (r: seq<Place>)
    ensures (forall row :: |f(row)| <= 1) ==> |r| <= |rows|
  {
    if rows == [] then [] else f(rows[0]) + Collect(rows[1..], f)
  }

  lemma {:induction false} CollectMembers(rows: seq<Row>, f: Row -> seq<Place>, p: Place)
    ensures p in Collect(rows, f) <==> exists i :: 0 <= i < |rows| && p in f(rows[i])
  {
    if rows != [] {
      CollectMembers(rows[1..], f, p);
      if exists i :: 0 <= i < |rows| && p in f(rows[i]) {
        var i :| 0 <= i < |rows| && p in f(rows[i]);
        if i > 0 { assert rows[1..][i - 1] == rows[i]; }
      }
    }
  }

  lemma {:induction false} CollectAppend(a: seq<Row>, b: seq<Row>, f: Row -> seq<Place>)
    ensures Collect(a + b, f) == Collect(a, f) + Collect(b, f)
  {
    if a == [] {
      assert a + b == b;
    } else {
      assert (a + b)[1..] == a[1..] + b;
      CollectAppend(a[1..], b, f);
    }
  }

  /** A place is uploaded exactly when some row maps to it. */
  lemma UploadedIffMapped(rows: seq<Row>, placeType: string, parseFloat: string -> Option<real>, p: Place)
    ensures p in UploadRows(rows, placeType, parseFloat) <==>
      exists i :: 0 <= i < |rows| && MapRow(rows[i], placeType, parseFloat) == Ok(Some(p))
  {
    CollectMembers(rows, Contribution(placeType, parseFloat), p);
  }

  /** Files can be loaded in pieces: the rows of a concatenation contribute
      the concatenation of their places. */
  lemma UploadRowsAppend(a: seq<Row>, b: seq<Row>, placeType: string, parseFloat: string -> Option<real>)
    ensures UploadRows(a + b, placeType, parseFloat) == UploadRows(a, placeType, parseFloat) + UploadRows(b, placeType, parseFloat)
  {
    CollectAppend(a, b, Contribution(placeType, parseFloat));
  }

  /** `insert_many` of the collected places, skipped when there are none:
      they follow the existing catalog and nothing else changes. */
  function Upload(db: Db, rows: seq<Row>, placeType: string, parseFloat: string -> Option<real>): (r: Db)
    ensures r.places == db.places + UploadRows(rows, placeType, parseFloat)
    ensures r.sessions == db.sessions && r.nextId == db.nextId && r.planners == db.planners
    ensures UploadRows(rows, placeType, parseFloat) == [] ==> r == db
  {
    var places := UploadRows(rows, placeType, parseFloat);
    if places == [] then db else db.(places := db.places + places)
  }

  /* --------------------------------------------------- retrieval impact */

  lemma {:induction false} FilterKeepsNone(b: seq<Place>, keep: Place -> bool)
    requires forall p :: p in b ==> !keep(p)
    ensures Recommend.Filter(b, keep) == []
  {
    if b != [] {
      assert b[0] in b;
      FilterKeepsNone(b[1..], keep);
    }
  }

  lemma {:induction false} FilterSkipsRejected(a: seq<Place>, b: seq<Place>, keep: Place -> bool)
    requires forall p :: p in b ==> !keep(p)
    ensures Recommend.Filter(a + b, keep) == Recommend.Filter(a, keep)
  {
    if a == [] {
      assert a + b == b;
      FilterKeepsNone(b, keep);
    } else {
      assert (a + b)[1..] == a[1..] + b;
      FilterSkipsRejected(a[1..], b, keep);
    }
  }

  /** Records that are not eligible never change retrieval, wherever they
      are appended. */
  lemma CandidatesIgnoreIneligible(a: seq<Place>, b: seq<Place>, hint: string)
    requires forall p :: p in b ==> !Recommend.Eligible(p)
    ensures Recommend.Candidates(a + b, hint) == Recommend.Candidates(a, hint)
  {
    var tier := p => Recommend.FirstTier(p, hint);
    FilterSkipsRejected(a, b, Recommend.Eligible);
    FilterSkipsRejected(a, b, tier);
    assert Recommend.Query(a + b, tier) == Recommend.Query(a, tier);
    assert Recommend.Query(a + b, Recommend.Eligible) == Recommend.Query(a, Recommend.Eligible);
  }

  /** Historic sites are stored but never recommended: loading a historic
      file leaves the candidates of every hint as they were. */
  lemma HistoricUploadKeepsCandidates(db: Db, rows: seq<Row>, parseFloat: string -> Option<real>, hint: string)
    ensures Recommend.Candidates(Upload(db, rows, Historic, parseFloat).places, hint)
         == Recommend.Candidates(db.places, hint)
  {
    var added := UploadRows(rows, Historic, parseFloat);
    assert forall p :: p in added ==> !Recommend.Eligible(p);
    CandidatesIgnoreIneligible(db.places, added, hint);
  }
}
