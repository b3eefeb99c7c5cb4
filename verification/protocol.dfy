/** The wire vocabulary shared by client, server and dashboard: the default
    ports, the control-message types, the inspect payload and the placeholder
    strings that stand in for bodies that were not captured. JSON values are
    modelled as a small tree so that Go's json.Unmarshal into the payload
    structs can be stated. */
module Protocol {
  import opened Wrappers
  import Text

  const DefaultControlPort: int := 64290
  const DefaultDashboardPort: int := 10000

  const MsgReqBind: string := "REQ_BIND"
  const MsgReqUnbind: string := "REQ_UNBIND"
  const MsgNewConn: string := "NEW_CONN"
  const MsgPing: string := "PING"
  const MsgReqDomainMap: string := "REQ_DOMAIN_MAP"
  const MsgReqDomainUnmap: string := "REQ_DOMAIN_UNMAP"
  const MsgInspectData: string := "INSPECT_DATA"

  /** Placeholders the capture transport writes instead of a body. */
  const RequestTooLarge: string := "[Request Body Too Large]"
  const BinaryRequest: string := "[Binary Request Body]"
  const ResponseTooLarge: string := "[Response Body Too Large]"
  const BinaryResponse: string := "[Binary Response Body]"

  /** One captured request/response exchange. */
  datatype InspectPayload = InspectPayload(
    id: string,
    timestamp: int,
    httpMethod: string,
    url: string,
    reqHeaders: map<string, string>,
    reqBody: string,
    status: int,
    resHeaders: map<string, string>,
    resBody: string,
    durationMs: int,
    clientIp: string,
    publicPort: int)

  /** The position of the first entry whose id is `id`: the dashboard's
      logs.find(l => l.id === id) and the replay handler's loop with break. */
  function FirstWithId(logs: seq<InspectPayload>, id: string): (r: Option<nat>)
    ensures r.Some? ==> r.value < |logs| && logs[r.value].id == id
    ensures r.Some? ==> forall j :: 0 <= j < r.value ==> logs[j].id != id
    ensures r.None? <==> forall j :: 0 <= j < |logs| ==> logs[j].id != id
  {
    if |logs| == 0 then None
    else if logs[0].id == id then Some(0)
    else match FirstWithId(logs[1..], id)
      case None => None
      case Some(k) => Some(k + 1)
  }

  // ---------------------------------------------------------------------------
  // JSON values and Go's json.Unmarshal into a struct
  // ---------------------------------------------------------------------------

  /** A decoded JSON value. An object keeps its members in document order,
      repeated keys included. `JOther` stands for the values no struct field
      here accepts (floating-point numbers and the like). */
  datatype Json =
    | JNull
    | JBool(b: bool)
    | JInt(i: int)
    | JStr(s: string)
    | JArray(items: seq<Json>)
    | JObject(entries: seq<(string, Json)>)
    | JOther

  /** A control message: its type tag and its raw payload. */
  datatype ControlMessage = ControlMessage(msgType: string, payload: Json)

  /** An ASCII lower-case letter in upper case; any other byte unchanged. */
  function AsciiUpper(c: char): (u: char)
    ensures 'a' <= c <= 'z' ==> u as int == c as int - 32
    ensures !('a' <= c <= 'z') ==> u == c
  {
    if 'a' <= c <= 'z' then (c as int - 32) as char else c
  }

  function AsciiUpperString(s: string): (u: string)
    ensures |u| == |s| && forall i :: 0 <= i < |s| ==> u[i] == AsciiUpper(s[i])
  {
    if |s| == 0 then "" else [AsciiUpper(s[0])] + AsciiUpperString(s[1..])
  }

  /** The UTF-8 bytes of U+017F (long s) and of U+212A (Kelvin sign), the two
      non-ASCII runes whose case folding reaches an ASCII letter. */
  const LongS: string := "\U{00C5}\U{00BF}"
  const KelvinSign: string := "\U{00E2}\U{0084}\U{00AA}"

  /** Whether the object key `key` names the struct field tagged `name` (an
      ASCII tag): json.Unmarshal compares them without regard to case, so
      each letter may come in either case, and long s and the Kelvin sign
      stand for 's' and 'k'. */
  predicate KeyMatches(key: string, name: string)
    decreases |name|
  {
    if |name| == 0 then key == ""
    else if |key| > 0 && AsciiUpper(key[0]) == AsciiUpper(name[0]) then KeyMatches(key[1..], name[1..])
    else if AsciiUpper(name[0]) == 'S' && |key| >= 2 && key[..2] == LongS then KeyMatches(key[2..], name[1..])
    else if AsciiUpper(name[0]) == 'K' && |key| >= 3 && key[..3] == KelvinSign then KeyMatches(key[3..], name[1..])
    else false
  }

  /** A tag matches itself and its upper-case spelling. */
  lemma {:induction false} KeyMatchesAnyCase(name: string)
    ensures KeyMatches(name, name)
    ensures KeyMatches(AsciiUpperString(name), name)
    decreases |name|
  {
    if |name| > 0 {
      KeyMatchesAnyCase(name[1..]);
      assert AsciiUpperString(name)[1..] == AsciiUpperString(name[1..]);
      assert AsciiUpper(AsciiUpper(name[0])) == AsciiUpper(name[0]);
    }
  }

  /** Long s and the Kelvin sign stand in for a leading s or k of a tag. */
  lemma FoldedRunesMatch(rest: string)
    ensures KeyMatches(LongS + rest, "s" + rest)
    ensures KeyMatches(KelvinSign + rest, "k" + rest)
  {
    KeyMatchesAnyCase(rest);
    assert (LongS + rest)[..2] == LongS && (LongS + rest)[2..] == rest;
    assert (KelvinSign + rest)[..3] == KelvinSign && (KelvinSign + rest)[3..] == rest;
    assert ("s" + rest)[1..] == rest && ("k" + rest)[1..] == rest;
  }

  /** A key spelling each letter of the tag in upper or lower case matches it. */
  lemma {:induction false} CaseVariantMatches(key: string, name: string)
    requires |key| == |name|
    requires forall i :: 0 <= i < |key| ==> AsciiUpper(key[i]) == AsciiUpper(name[i])
    ensures KeyMatches(key, name)
    decreases |name|
  {
    if |name| > 0 {
      CaseVariantMatches(key[1..], name[1..]);
    }
  }

  /** The values of the members whose key names field `name`, in order. */
  function Matching(entries: seq<(string, Json)>, name: string): (vs: seq<Json>)
    ensures |vs| <= |entries|
    ensures (forall k :: 0 <= k < |entries| ==> !KeyMatches(entries[k].0, name)) ==> vs == []
  {
    if |entries| == 0 then []
    else (if KeyMatches(entries[0].0, name) then [entries[0].1] else []) + Matching(entries[1..], name)
  }

  lemma {:induction false} MatchingAppend(entries: seq<(string, Json)>, key: string, v: Json, name: string)
    ensures Matching(entries + [(key, v)], name)
            == Matching(entries, name) + (if KeyMatches(key, name) then [v] else [])
    decreases |entries|
  {
    if |entries| == 0 {
      assert entries + [(key, v)] == [(key, v)];
      assert Matching([(key, v)], name) == (if KeyMatches(key, name) then [v] else []) + Matching([], name);
    } else {
      var e := entries + [(key, v)];
      assert e[0] == entries[0] && e[1..] == entries[1..] + [(key, v)];
      MatchingAppend(entries[1..], key, v, name);
      var head: seq<Json> := if KeyMatches(entries[0].0, name) then [entries[0].1] else [];
      assert Matching(e, name) == head + Matching(e[1..], name);
      assert Matching(entries, name) == head + Matching(entries[1..], name);
    }
  }

  /** Store the values into a field one after another, as json.Unmarshal does
      for each member naming it; a value of the wrong type makes the whole
      decoding fail. */
  function Assign<T>(vs: seq<Json>, cur: T, one: (Json, T) -> Option<T>): Option<T>
    decreases |vs|
  {
    if |vs| == 0 then Some(cur)
    else match one(vs[0], cur)
      case None => None
      case Some(x) => Assign(vs[1..], x, one)
  }

  lemma AssignSingle<T>(v: Json, cur: T, one: (Json, T) -> Option<T>)
    ensures Assign([], cur, one) == Some(cur)
    ensures Assign([v], cur, one) == one(v, cur)
  {
    assert [v][1..] == [];
    match one(v, cur)
    case None =>
    case Some(x) => assert Assign([v][1..], x, one) == Some(x);
  }

  lemma {:induction false} AssignAppend<T>(vs: seq<Json>, v: Json, cur: T, one: (Json, T) -> Option<T>)
    ensures Assign(vs + [v], cur, one) == (match Assign(vs, cur, one) case None => None case Some(x) => one(v, x))
    decreases |vs|
  {
    if |vs| == 0 {
      assert vs + [v] == [v];
      assert [v][1..] == [];
    } else {
      assert (vs + [v])[1..] == vs[1..] + [v];
      match one(vs[0], cur)
      case None =>
      case Some(x) => AssignAppend(vs[1..], v, x, one);
    }
  }

  /** What json.Unmarshal leaves in a field named `name`, starting from the
      zero value `zero`: a JSON null body leaves the zero value, an object
      stores each member naming the field in turn, and any other body fails. */
  function Field<T>(j: Json, name: string, zero: T, one: (Json, T) -> Option<T>): Option<T>
  {
    match j
    case JNull => Some(zero)
    case JObject(entries) => Assign(Matching(entries, name), zero, one)
    case _ => None
  }

  /** A member whose key does not name the field plays no part. */
  lemma OtherKeyIgnored<T>(entries: seq<(string, Json)>, key: string, v: Json, name: string, zero: T, one: (Json, T) -> Option<T>)
    requires !KeyMatches(key, name)
    ensures Field(JObject(entries + [(key, v)]), name, zero, one) == Field(JObject(entries), name, zero, one)
  {
    MatchingAppend(entries, key, v, name);
    assert Matching(entries, name) + [] == Matching(entries, name);
  }

  /** A later member naming the field overrides the earlier ones, unless one
      of those already failed. */
  lemma LastKeyWins<T>(entries: seq<(string, Json)>, key: string, v: Json, name: string, zero: T, one: (Json, T) -> Option<T>)
    requires KeyMatches(key, name)
    ensures Field(JObject(entries + [(key, v)]), name, zero, one)
            == (match Field(JObject(entries), name, zero, one) case None => None case Some(x) => one(v, x))
  {
    MatchingAppend(entries, key, v, name);
    AssignAppend(Matching(entries, name), v, zero, one);
  }

  /** Storing one JSON value into an `int` field: null keeps what the field
      holds, a number inside the 64-bit range is stored, anything else fails. */
  function AsInt(v: Json, cur: int): (r: Option<int>)
    ensures v.JNull? ==> r == Some(cur)
    ensures r.Some? && !v.JNull? ==> v == JInt(r.value) && Text.MinInt64 <= r.value <= Text.MaxInt64
  {
    match v
    case JNull => Some(cur)
    case JInt(i) => if Text.MinInt64 <= i <= Text.MaxInt64 then Some(i) else None
    case _ => None
  }

  function AsStr(v: Json, cur: string): (r: Option<string>)
    ensures v.JNull? ==> r == Some(cur)
    ensures r.Some? && !v.JNull? ==> v == JStr(r.value)
  {
    match v
    case JNull => Some(cur)
    case JStr(s) => Some(s)
    case _ => None
  }

  function AsBool(v: Json, cur: bool): (r: Option<bool>)
    ensures v.JNull? ==> r == Some(cur)
    ensures r.Some? && !v.JNull? ==> v == JBool(r.value)
  {
    match v
    case JNull => Some(cur)
    case JBool(b) => Some(b)
    case _ => None
  }

  /** The elements of a JSON array of integers, or None when one is not an int. */
  function IntItems(items: seq<Json>): (r: Option<seq<int>>)
    ensures r.Some? ==> |r.value| == |items|
    ensures r.Some? ==> forall k :: 0 <= k < |items| ==> items[k] == JNull || items[k] == JInt(r.value[k])
  {
    if |items| == 0 then Some([])
    else
      match (AsInt(items[0], 0), IntItems(items[1..]))
      case (Some(h), Some(t)) => Some([h] + t)
      case _ => None
  }

  /** Storing one JSON value into a `[]int` field: null makes it nil (empty),
      an array of integers replaces it. */
  function AsIntList(v: Json, cur: seq<int>): (r: Option<seq<int>>)
    ensures v.JNull? ==> r == Some([])
    ensures r.Some? && !v.JNull? ==> v.JArray? && r == IntItems(v.items)
  {
    match v
    case JNull => Some([])
    case JArray(items) => IntItems(items)
    case _ => None
  }

  /** The value of an `int` field named `key`; None is a decoding error. */
  function IntField(j: Json, key: string): (r: Option<int>)
    ensures j.JNull? || (j.JObject? && Matching(j.entries, key) == []) ==> r == Some(0)
    ensures !j.JNull? && !j.JObject? ==> r.None?
    ensures j.JObject? && Matching(j.entries, key) == [JInt(0)] ==> r == Some(0)
    ensures forall i :: j.JObject? && Matching(j.entries, key) == [JInt(i)] && Text.MinInt64 <= i <= Text.MaxInt64 ==> r == Some(i)
  {
    if j.JObject? && |Matching(j.entries, key)| <= 1 then
      AssignSingle(if |Matching(j.entries, key)| == 1 then Matching(j.entries, key)[0] else JNull, 0, AsInt);
      Field(j, key, 0, AsInt)
    else Field(j, key, 0, AsInt)
  }

  /** The value of a `string` field, as for IntField. */
  function StrField(j: Json, key: string): (r: Option<string>)
    ensures j.JNull? || (j.JObject? && Matching(j.entries, key) == []) ==> r == Some("")
    ensures !j.JNull? && !j.JObject? ==> r.None?
    ensures forall t :: j.JObject? && Matching(j.entries, key) == [JStr(t)] ==> r == Some(t)
  {
    if j.JObject? && |Matching(j.entries, key)| <= 1 then
      AssignSingle(if |Matching(j.entries, key)| == 1 then Matching(j.entries, key)[0] else JNull, "", AsStr);
      Field(j, key, "", AsStr)
    else Field(j, key, "", AsStr)
  }

  /** The value of a `bool` field, as for IntField. */
  function BoolField(j: Json, key: string): (r: Option<bool>)
    ensures j.JNull? || (j.JObject? && Matching(j.entries, key) == []) ==> r == Some(false)
    ensures !j.JNull? && !j.JObject? ==> r.None?
    ensures forall b :: j.JObject? && Matching(j.entries, key) == [JBool(b)] ==> r == Some(b)
  {
    if j.JObject? && |Matching(j.entries, key)| <= 1 then
      AssignSingle(if |Matching(j.entries, key)| == 1 then Matching(j.entries, key)[0] else JNull, false, AsBool);
      Field(j, key, false, AsBool)
    else Field(j, key, false, AsBool)
  }

  /** The value of a `[]int` field: nil (empty) when the field is missing or
      null. */
  function IntListField(j: Json, key: string): (r: Option<seq<int>>)
    ensures j.JNull? || (j.JObject? && Matching(j.entries, key) == []) ==> r == Some([])
    ensures !j.JNull? && !j.JObject? ==> r.None?
  {
    if j.JObject? && |Matching(j.entries, key)| <= 1 then
      AssignSingle(if |Matching(j.entries, key)| == 1 then Matching(j.entries, key)[0] else JNull, [], AsIntList);
      Field(j, key, [], AsIntList)
    else Field(j, key, [], AsIntList)
  }

  /** A body spelling its keys in upper case decodes like the lower-case one. */
  lemma UpperCaseKey(key: string, v: string)
    ensures StrField(JObject([(AsciiUpperString(key), JStr(v))]), key) == Some(v)
  {
    KeyMatchesAnyCase(key);
    assert Matching([(AsciiUpperString(key), JStr(v))], key) == [JStr(v)];
  }

  /** REQ_BIND payload. */
  datatype BindRequest = BindRequest(publicPort: int, localPort: int)

  function DecodeBind(j: Json): Option<BindRequest>
  {
    match (IntField(j, "public_port"), IntField(j, "local_port"))
    case (Some(p), Some(l)) => Some(BindRequest(p, l))
    case _ => None
  }

  /** REQ_UNBIND payload. */
  function DecodeUnbind(j: Json): Option<int>
  {
    IntField(j, "public_port")
  }

  lemma MatchingPair(a: string, va: Json, b: string, vb: Json, name: string)
    ensures Matching([(a, va), (b, vb)], name)
            == (if KeyMatches(a, name) then [va] else []) + (if KeyMatches(b, name) then [vb] else [])
  {
    MatchingAppend([(a, va)], b, vb, name);
    MatchingAppend([], a, va, name);
    assert [] + [(a, va)] == [(a, va)];
    assert [(a, va)] + [(b, vb)] == [(a, va), (b, vb)];
  }

  /** Keys whose first letters differ, other than by case, do not match
      (unless the tag's letter is an s or a k, which other runes also fold to). */
  lemma FirstLetterDiffers(key: string, name: string)
    requires |key| > 0 && |name| > 0 && AsciiUpper(key[0]) != AsciiUpper(name[0])
    requires AsciiUpper(name[0]) != 'S' && AsciiUpper(name[0]) != 'K'
    ensures !KeyMatches(key, name)
  {
  }

  /** Past a first letter that is neither s nor k, matching goes on with the
      rest of both. */
  lemma FirstLetterSame(key: string, name: string)
    requires |key| > 0 && |name| > 0 && AsciiUpper(key[0]) == AsciiUpper(name[0])
    requires AsciiUpper(name[0]) != 'S' && AsciiUpper(name[0]) != 'K'
    ensures KeyMatches(key, name) == KeyMatches(key[1..], name[1..])
  {
  }

  lemma PortKeys()
    ensures KeyMatches("public_port", "public_port") && !KeyMatches("local_port", "public_port")
    ensures KeyMatches("local_port", "local_port") && !KeyMatches("public_port", "local_port")
  {
    KeyMatchesAnyCase("public_port");
    KeyMatchesAnyCase("local_port");
    FirstLetterDiffers("local_port", "public_port");
    FirstLetterDiffers("public_port", "local_port");
  }

  /** A number that is the only value given for an int field is stored when
      it fits in an int64, and fails the decoding otherwise. */
  lemma IntFieldSingle(entries: seq<(string, Json)>, key: string, i: int)
    requires Matching(entries, key) == [JInt(i)]
    ensures IntField(JObject(entries), key) == if Text.MinInt64 <= i <= Text.MaxInt64 then Some(i) else None
  {
    AssignSingle(JInt(i), 0, AsInt);
  }

  lemma PortMatches(pv: Json, lv: Json)
    ensures var e := [("public_port", pv), ("local_port", lv)];
            Matching(e, "public_port") == [pv] && Matching(e, "local_port") == [lv]
  {
    PortKeys();
    MatchingPair("public_port", pv, "local_port", lv, "public_port");
    MatchingPair("public_port", pv, "local_port", lv, "local_port");
  }

  /** The payload the client sends for REQ_BIND decodes to the ports it
      carries, when those fit in an int64. */
  lemma BindPayload(port: int, localPort: int)
    ensures DecodeBind(JObject([("public_port", JInt(port)), ("local_port", JInt(localPort))]))
            == if Text.MinInt64 <= port <= Text.MaxInt64 && Text.MinInt64 <= localPort <= Text.MaxInt64
               then Some(BindRequest(port, localPort)) else None
  {
    var both := [("public_port", JInt(port)), ("local_port", JInt(localPort))];
    PortMatches(JInt(port), JInt(localPort));
    IntFieldSingle(both, "public_port", port);
    IntFieldSingle(both, "local_port", localPort);
  }

  /** The payload the client sends for REQ_UNBIND decodes to its port. */
  lemma UnbindPayload(port: int)
    ensures DecodeUnbind(JObject([("public_port", JInt(port))]))
            == if Text.MinInt64 <= port <= Text.MaxInt64 then Some(port) else None
  {
    var one := [("public_port", JInt(port))];
    PortKeys();
    MatchingAppend([], "public_port", JInt(port), "public_port");
    assert [] + one == one;
    IntFieldSingle(one, "public_port", port);
  }

  /** REQ_DOMAIN_MAP payload: every field of the struct is decoded, so a
      mistyped auth field fails the whole message. */
  datatype DomainMapRequest = DomainMapRequest(domain: string, publicPort: int, mode: string)

  function DecodeDomainMap(j: Json): Option<DomainMapRequest>
  {
    match (StrField(j, "domain"), IntField(j, "public_port"), StrField(j, "mode"),
           StrField(j, "auth_user"), StrField(j, "auth_pass"))
    case (Some(d), Some(p), Some(m), Some(_), Some(_)) => Some(DomainMapRequest(d, p, m))
    case _ => None
  }

  /** REQ_DOMAIN_UNMAP payload. */
  function DecodeDomainUnmap(j: Json): Option<string>
  {
    StrField(j, "domain")
  }
}
