/** The browser's view of the signed-in user, read out of the payload of
    the JWT the server issued. The payload is given already decoded (the
    base64 and JSON decoding are outside this model) as a map from claim
    name to JSON value. */
module Users {
  import opened Wrappers
  import Text
  import JwtBearer

  /** A JSON value of the payload. `JOther` stands for arrays, objects and
      non-integral numbers, which the reader never looks into. */
  datatype JsonValue = JNull | JBool(b: bool) | JNumber(n: int) | JString(s: string) | JOther

  type Payload = map<string, JsonValue>

  /** `obj[key] != undefined`: the key is there and not null (the loose
      comparison treats null like undefined). */
  predicate Present(p: Payload, key: string)
  {
    key in p && p[key] != JNull
  }

  /** JavaScript truthiness of `obj[key]`; a missing key reads as undefined. */
  predicate Truthy(p: Payload, key: string)
  {
    key in p &&
    match p[key]
    case JNull => false
    case JBool(b) => b
    case JNumber(n) => n != 0
    case JString(s) => s != ""
    case JOther => true
  }

  /** `obj[key] || otherwise`. */
  function OrElse(p: Payload, key: string, otherwise: JsonValue): JsonValue
  {
    if Truthy(p, key) then p[key] else otherwise
  }

  /** A date field: none, a time in milliseconds, or an invalid date. */
  datatype Date = NoDate | At(millis: int) | InvalidDate

  datatype UserError =
    | PayloadUnreadable   // the middle segment is not base64-encoded JSON
    | IsAdminNotBoolean   // `JSON.parse(obj['is-admin'])` throws or gives no boolean
    | RoleNotString       // `obj['role'].split` is not a function

  /** What the constructor leaves: `Unset` when it returned before setting
      any field, otherwise every field read from the payload. */
  datatype User =
    | Unset
    | Decoded(id: JsonValue, userName: JsonValue, nickName: JsonValue, email: JsonValue,
              securityStamp: JsonValue, isAdmin: bool, roles: seq<string>,
              issuedAt: Date, notBefore: Date, expires: Date)

  /** `obj['is-admin'] != undefined ? JSON.parse(obj['is-admin']) : false`.
      `JSON.parse` first turns its argument into text (a boolean into "true"
      or "false") and accepts JSON whitespace around the literal. */
  function ReadIsAdmin(p: Payload): (r: Result<bool, UserError>)
    ensures !Present(p, "is-admin") ==> r == Ok(false)
    ensures Present(p, "is-admin") && p["is-admin"].JBool? ==> r == Ok(p["is-admin"].b)
    ensures Present(p, "is-admin") && p["is-admin"].JString? ==>
      (r == Ok(true) <==> Text.Trim(p["is-admin"].s) == "true") &&
      (r == Ok(false) <==> Text.Trim(p["is-admin"].s) == "false")
    ensures r.Err? <==>
      Present(p, "is-admin") && !p["is-admin"].JBool? &&
      !(p["is-admin"].JString? && Text.Trim(p["is-admin"].s) in {"true", "false"})
    ensures r.Err? ==> r.error == IsAdminNotBoolean
  {
    if !Present(p, "is-admin") then Ok(false)
    else match p["is-admin"]
      case JBool(b) => Ok(b)
      case JString(s) =>
        var t := Text.Trim(s);
        if t == "true" then Ok(true)
        else if t == "false" then Ok(false)
        else Err(IsAdminNotBoolean)
      case _ => Err(IsAdminNotBoolean)
  }

  /** A flag written as text with JSON whitespace around it reads as the
      boolean it spells. */
  lemma PaddedFlagReads(p: Payload, w1: string, w2: string, b: bool)
    requires Text.AllJsonSpace(w1) && Text.AllJsonSpace(w2)
    requires "is-admin" in p && p["is-admin"] == JString(w1 + (if b then "true" else "false") + w2)
    ensures ReadIsAdmin(p) == Ok(b)
  {
    Text.TrimPadded(w1, if b then "true" else "false", w2);
  }

  /** `obj['role'] != undefined ? obj['role'].split(',') : []`: the role
      text cut at each ','. Joining the roles back with ',' gives the role
      text again, and no role holds a ','. */
  function ReadRoles(p: Payload): (r: Result<seq<string>, UserError>)
    ensures !Present(p, "role") ==> r == Ok([])
    ensures r.Err? <==> Present(p, "role") && !p["role"].JString?
    ensures r.Err? ==> r.error == RoleNotString
    ensures r.Ok? && Present(p, "role") ==> |r.value| > 0 && Text.Join(r.value, ",") == p["role"].s
    ensures r.Ok? ==> forall i :: 0 <= i < |r.value| ==> ',' !in r.value[i]
  {
    if !Present(p, "role") then Ok([])
    else match p["role"]
      case JString(s) =>
        Text.JoinSplit(s, ',');
        Ok(Text.Split(s, ','))
      case _ => Err(RoleNotString)
  }

  /** The largest distance from the epoch, in milliseconds, that a date may
      have (section 21.4.1.1 of ECMA-262); `new Date` of anything further
      is an invalid date. */
  const MaxTime := 8640000000000000

  /** `new Date(ms)` for an integral `ms`. */
  function DateAt(ms: int): (d: Date)
    ensures d.At? <==> -MaxTime <= ms <= MaxTime
    ensures d.At? ==> d.millis == ms
    ensures !d.At? ==> d == InvalidDate
  {
    if -MaxTime <= ms <= MaxTime then At(ms) else InvalidDate
  }

  /** JavaScript's conversion of a value to a number, where that number is
      an integer: a boolean is 1 or 0, a string is trimmed and read as an
      optionally negative decimal integer, the empty string is 0. */
  function ToInteger(v: JsonValue): Option<int>
  {
    match v
    case JNull => Some(0)
    case JBool(b) => Some(if b then 1 else 0)
    case JNumber(n) => Some(n)
    case JString(s) =>
      var t := Text.Trim(s);
      if t == "" then Some(0) else Text.ParseInt(t)
    case JOther => None
  }

  /** `obj[key] != undefined ? new Date(obj[key] * 1000) : null`: the
      payload holds seconds, the date milliseconds. */
  function ReadDate(p: Payload, key: string): (d: Date)
    ensures !Present(p, key) <==> d == NoDate
    ensures d.At? ==> -MaxTime <= d.millis <= MaxTime && d.millis % 1000 == 0
    ensures Present(p, key) && p[key].JNumber? ==>
      (d.At? <==> -MaxTime <= p[key].n * 1000 <= MaxTime) &&
      (d.At? ==> d.millis == p[key].n * 1000)
    ensures Present(p, key) && p[key].JBool? ==> d == At(if p[key].b then 1000 else 0)
    ensures Present(p, key) && p[key].JString? && Text.Trim(p[key].s) == "" ==> d == At(0)
  {
    if !Present(p, key) then NoDate
    else match ToInteger(p[key])
      case None => InvalidDate
      case Some(n) => DateAt(n * 1000)
  }

  /** A time given as the decimal text of a number of seconds is the same
      date as that number given as a JSON number. */
  lemma DateTextAgreesWithNumber(p: Payload, q: Payload, key: string, n: int)
    requires key in p && p[key] == JNumber(n)
    requires key in q && q[key] == JString(Text.IntToString(n))
    ensures ReadDate(q, key) == ReadDate(p, key)
  {
    var s := Text.IntToString(n);
    Text.TrimPadded("", s, "");
    assert "" + s + "" == s;
    Text.ParseIntToString(n);
  }

  /** The field assignments of the constructor, in their order. */
  function ReadPayload(p: Payload): (r: Result<User, UserError>)
    ensures r.Ok? ==> r.value.Decoded?
    ensures r.Ok? <==> ReadIsAdmin(p).Ok? && ReadRoles(p).Ok?
    ensures ReadIsAdmin(p).Err? ==> r == Err(IsAdminNotBoolean)
    ensures ReadIsAdmin(p).Ok? && ReadRoles(p).Err? ==> r == Err(RoleNotString)
    ensures r.Ok? ==> r.value.isAdmin == ReadIsAdmin(p).value && r.value.roles == ReadRoles(p).value
    ensures r.Ok? ==> r.value.id == (if Truthy(p, "nameid") then p["nameid"] else JNumber(0))
    ensures r.Ok? ==> r.value.userName == (if Truthy(p, "unique_name") then p["unique_name"] else JNull)
    ensures r.Ok? ==> r.value.nickName == (if Truthy(p, "given_name") then p["given_name"] else JNull)
    ensures r.Ok? ==> r.value.email == (if Truthy(p, "email") then p["email"] else JNull)
    ensures r.Ok? ==> r.value.securityStamp == (if Truthy(p, "security-stamp") then p["security-stamp"] else JNull)
    ensures r.Ok? ==> r.value.issuedAt == ReadDate(p, "iat")
    ensures r.Ok? ==> r.value.notBefore == ReadDate(p, "nbf")
    ensures r.Ok? ==> r.value.expires == ReadDate(p, "exp")
  {
    match ReadIsAdmin(p)
    case Err(e) => Err(e)
    case Ok(isAdmin) =>
      match ReadRoles(p)
      case Err(e) => Err(e)
      case Ok(roles) =>
        Ok(Decoded(
          OrElse(p, "nameid", JNumber(0)),
          OrElse(p, "unique_name", JNull),
          OrElse(p, "given_name", JNull),
          OrElse(p, "email", JNull),
          OrElse(p, "security-stamp", JNull),
          isAdmin,
          roles,
          ReadDate(p, "iat"),
          ReadDate(p, "nbf"),
          ReadDate(p, "exp")))
  }

  /** `new User(token)`. `decode` stands for base64-decoding a segment and
      parsing it as JSON; `None` when that throws. Nothing is set unless the
      token is there and splits on '.' into exactly three segments. */
  function NewUser(token: Option<string>, decode: string -> Option<Payload>): (r: Result<User, UserError>)
    ensures r == Ok(Unset) <==> token.None? || |Text.Split(token.value, '.')| != 3
    ensures token.Some? && |Text.Split(token.value, '.')| == 3 ==>
      match decode(Text.Split(token.value, '.')[1])
      case None => r == Err(PayloadUnreadable)
      case Some(p) => r == ReadPayload(p)
    ensures r.Ok? && r.value.Decoded? ==>
      token.Some? && Text.Count(token.value, '.') == 2 &&
      decode(Text.Split(token.value, '.')[1]).Some? &&
      r == ReadPayload(decode(Text.Split(token.value, '.')[1]).value)
  {
    if token.None? then Ok(Unset)
    else
      var parts := Text.Split(token.value, '.');
      if |parts| != 3 then Ok(Unset)
      else match decode(parts[1])
        case None => Err(PayloadUnreadable)
        case Some(p) => ReadPayload(p)
  }

  /** A payload without any of the keys the constructor reads gives every
      default: id 0, null names, not an admin, no roles, no dates. */
  lemma EmptyPayloadDefaults()
    ensures ReadPayload(map[]) ==
      Ok(Decoded(JNumber(0), JNull, JNull, JNull, JNull, false, [], NoDate, NoDate, NoDate))
  {
  }

  /** The live roles the server puts into its role claim come back as the
      user's roles in the browser, when the server joins them with ',' and
      no role holds a ','. */
  lemma LiveRolesReachBrowser(roles: seq<string>, p: Payload)
    requires |roles| > 0
    requires forall i :: 0 <= i < |roles| ==> ',' !in roles[i]
    requires "role" in p && p["role"] == JString(JwtBearer.LiveRoleClaims(roles, ",")[0].value)
    ensures ReadRoles(p) == Ok(roles)
  {
    Text.SplitJoin(roles, ',');
  }

  /** A role holding the separator does not survive the trip: the browser
      sees it cut in two. */
  lemma CommaInRoleSplits(p: Payload)
    requires "role" in p && p["role"] == JString(JwtBearer.LiveRoleClaims(["a,b"], ",")[0].value)
    ensures ReadRoles(p) == Ok(["a", "b"])
  {
    assert Text.Join(["a,b"], ",") == "a,b";
    assert Text.Split("a,b", ',') == ["a", "b"] by {
      Text.SplitPrefix("b", "", ',');
      assert "b" + "" == "b";
      assert ",b"[1..] == "b";
      Text.SplitPrefix("a", ",b", ',');
      assert "a" + ",b" == "a,b" && "a" + "" == "a";
    }
  }
}
