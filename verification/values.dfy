/** The two shapes a structured-generation call can hand back, and the single
    coercion step every service applies to it:
    `parsed = result if isinstance(result, Schema) else Schema(**result)`.

    A raw mapping is a JSON-like `Value` tree; the decoders here read one
    field at a time the way pydantic validates a keyword argument. */
module Values {
  import opened Wrappers

  datatype Value =
    | VNull
    | VBool(b: bool)
    | VInt(i: int)
    | VFloat(f: real)
    | VStr(s: string)
    | VList(items: seq<Value>)
    | VObj(fields: map<string, Value>)

  /** Keyword arguments: what `Schema(**result)` receives. */
  type Mapping = map<string, Value>

  /** What the prompt/model/parser chain returns: an instance of the schema,
      a raw mapping, or an exception. */
  datatype Generated<T> = Typed(value: T) | Mapped(fields: Mapping) | Raised

  /** The coercion boundary: a typed result is taken as it is, a mapping is
      validated against the schema, and nothing partially built escapes. */
  function Coerce<T>(g: Generated<T>, decode: Mapping -> Option<T>): (r: Result<T, Error>)
    ensures r.Ok? <==> g.Typed? || (g.Mapped? && decode(g.fields).Some?)
    ensures g.Typed? ==> r.value == g.value
    ensures g.Mapped? && r.Ok? ==> decode(g.fields) == Some(r.value)
    ensures r.Err? ==> r.error == (if g.Raised? then GenerationFailed else MalformedOutput)
  {
    match g
    case Typed(v) => Ok(v)
    case Raised => Err(GenerationFailed)
    case Mapped(m) =>
      match decode(m)
      case Some(v) => Ok(v)
      case None => Err(MalformedOutput)
  }

  /** A typed result and its own dump give the same record, for any schema
      whose decoder inverts its dump. */
  lemma CoerceDumpAgrees<T>(x: T, dump: T -> Mapping, decode: Mapping -> Option<T>)
    requires decode(dump(x)) == Some(x)
    ensures Coerce(Mapped(dump(x)), decode) == Coerce(Typed(x), decode) == Ok(x)
  {
  }

  /* ------------------------------------------------------- scalar fields */

  function AsStr(v: Value): Option<string> {
    if v.VStr? then Some(v.s) else None
  }

  function AsInt(v: Value): Option<int> {
    if v.VInt? then Some(v.i) else None
  }

  /** A float field takes a JSON number of either kind. */
  function AsFloat(v: Value): Option<real> {
    match v
    case VFloat(f) => Some(f)
    case VInt(i) => Some(i as real)
    case _ => None
  }

  function DumpOptFloat(x: Option<real>): Value {
    match x
    case Some(f) => VFloat(f)
    case None => VNull
  }

  /* --------------------------------------------------------------- lists */

  function EncodeList<T>(xs: seq<T>, enc: T -> Value): (r: seq<Value>)
    ensures |r| == |xs|
    ensures forall i :: 0 <= i < |xs| ==> r[i] == enc(xs[i])
  {
    if xs == [] then [] else [enc(xs[0])] + EncodeList(xs[1..], enc)
  }

  /** A list field: every element must validate, in order. */
  function DecodeList<T>(vs: seq<Value>, dec: Value -> Option<T>): (r: Option<seq<T>>)
    ensures r.Some? ==> |r.value| == |vs|
    ensures r.Some? <==> forall i :: 0 <= i < |vs| ==> dec(vs[i]).Some?
  {
    if vs == [] then Some([])
    else
      match dec(vs[0])
      case None => None
      case Some(x) =>
        match DecodeList(vs[1..], dec)
        case None => None
        case Some(xs) => Some([x] + xs)
  }

  /** A list decodes back to itself when each element does. */
  lemma {:induction false} ListRoundTrip<T>(xs: seq<T>, enc: T -> Value, dec: Value -> Option<T>)
    requires forall i :: 0 <= i < |xs| ==> dec(enc(xs[i])) == Some(xs[i])
    ensures DecodeList(EncodeList(xs, enc), dec) == Some(xs)
  {
    if xs != [] {
      var rest := xs[1..];
      forall i | 0 <= i < |rest| ensures dec(enc(rest[i])) == Some(rest[i]) {
        assert rest[i] == xs[i + 1];
      }
      ListRoundTrip(rest, enc, dec);
      DecodeCons(enc(xs[0]), EncodeList(rest, enc), dec);
      assert xs == [xs[0]] + rest;
    }
  }

  /** Each element of a decoded list is the decoding of the value at the
      same position. */
  lemma {:induction false} DecodeListElements<T>(vs: seq<Value>, dec: Value -> Option<T>)
    ensures DecodeList(vs, dec).Some? ==>
      forall i :: 0 <= i < |vs| ==> dec(vs[i]) == Some(DecodeList(vs, dec).value[i])
  {
    if vs != [] && DecodeList(vs, dec).Some? {
      DecodeListElements(vs[1..], dec);
      var xs := DecodeList(vs, dec).value;
      forall i | 0 <= i < |vs| ensures dec(vs[i]) == Some(xs[i]) {
        if i > 0 {
          assert vs[i] == vs[1..][i - 1];
        }
      }
    }
  }

  /** Decoding a list whose head decodes is the head before the rest. */
  lemma DecodeCons<T>(v: Value, vs: seq<Value>, dec: Value -> Option<T>)
    requires dec(v).Some?
    ensures DecodeList([v] + vs, dec) ==
      match DecodeList(vs, dec) case None => None case Some(xs) => Some([dec(v).value] + xs)
  {
    assert ([v] + vs)[1..] == vs;
  }

  function DumpStr(s: string): Value {
    VStr(s)
  }

  function DumpStrList(xs: seq<string>): Value {
    VList(EncodeList(xs, DumpStr))
  }

  function AsStrList(v: Value): Option<seq<string>> {
    if v.VList? then DecodeList(v.items, AsStr) else None
  }

  lemma StrListRoundTrip(xs: seq<string>)
    ensures AsStrList(DumpStrList(xs)) == Some(xs)
  {
    ListRoundTrip(xs, DumpStr, AsStr);
  }

  /* -------------------------------------------------------------- fields */

  /** A required field: missing or ill-typed fails validation. */
  function Field<T>(m: Mapping, key: string, dec: Value -> Option<T>): Option<T> {
    if key in m then dec(m[key]) else None
  }

  /** An `Optional[...] = None` field: missing or null reads as `None`. */
  function OptField<T>(m: Mapping, key: string, dec: Value -> Option<T>): Option<Option<T>> {
    if key !in m || m[key] == VNull then Some(None)
    else
      match dec(m[key])
      case Some(x) => Some(Some(x))
      case None => None
  }

  /** An `Optional[float] = None` field: a dumped value reads back as itself,
      a missing key or `null` reads as `None`, and any other JSON number is
      taken as a float; everything else fails validation. */
  lemma OptFloatRoundTrip(m: Mapping, key: string, x: Option<real>)
    ensures key in m && m[key] == DumpOptFloat(x) ==> OptField(m, key, AsFloat) == Some(x)
    ensures key !in m ==> OptField(m, key, AsFloat) == Some(None)
    ensures OptField(m, key, AsFloat) == Some(None) <==> key !in m || m[key] == VNull
    ensures OptField(m, key, AsFloat).None? <==>
      key in m && !m[key].VNull? && !m[key].VFloat? && !m[key].VInt?
  {
  }
}
