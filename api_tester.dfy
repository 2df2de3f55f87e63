/** `SimpleAPITester`: an OAuth token cache for the MobiIETT service, an
    ordered try-each-alias query, a 30-minute cache over two static JSON
    documents, and the fixed fallback timetable.

    The clock (`get_istanbul_time()`) is a parameter `now`, in seconds of
    Istanbul local time; every HTTP call is replaced by its outcome. */
module ApiTester {
  import opened Wrappers
  import opened Clock
  import opened Http

  /** The first `n` elements of `s`, or all of them (`s[:n]`). */
  function Take<T>(s: seq<T>, n: nat): (r: seq<T>)
    ensures |r| == if |s| < n then |s| else n
    ensures r == s[..|r|]
  {
    if |s| <= n then s else s[..n]
  }

  // ---------------------------------------------------------------- the token

  /** The "expires_in" value of a token reply: a number of seconds, or a value
      `expires_in - 60` raises on. */
  datatype Expiry = Seconds(n: int) | NotANumber

  /** The parsed token reply: a JSON object, whose keys "access_token" and
      "expires_in" may be missing, or some other JSON value. */
  datatype TokenReply =
    | TokenObject(accessToken: Option<string>, expiresIn: Option<Expiry>)
    | TokenNonObject

  /** The fields `access_token` and `token_expires_at`. */
  datatype TokenState = TokenState(accessToken: Option<string>, expiresAt: Option<int>)

  /** What one `get_mobiiett_token()` call leaves behind, returns, and whether
      it posted to the auth endpoint. */
  datatype TokenOutcome = TokenOutcome(state: TokenState, token: Option<string>, posted: bool)

  const DefaultExpiresIn: int := 3600
  const SafetyMargin: int := 60

  /** Python truthiness of an optional string. */
  predicate Truthy(s: Option<string>) {
    s.Some? && s.value != ""
  }

  /** The cached token may be used at `now`. */
  predicate TokenFresh(s: TokenState, now: int) {
    Truthy(s.accessToken) && s.expiresAt.Some? && now < s.expiresAt.value
  }

  /** The auth reply is stored in full: status 200, a JSON object, and an
      "expires_in" that is a number when present. */
  predicate Grants(auth: Response<Json<TokenReply>>) {
    auth.Reply? && auth.status == 200 && auth.body.Parsed? && auth.body.value.TokenObject?
    && auth.body.value.expiresIn != Some(NotANumber)
  }

  /** Status 200 and a JSON object whose "expires_in" is not a number: the
      token is stored, then computing the expiry raises. */
  predicate HalfGrants(auth: Response<Json<TokenReply>>) {
    auth.Reply? && auth.status == 200 && auth.body.Parsed? && auth.body.value.TokenObject?
    && auth.body.value.expiresIn == Some(NotANumber)
  }

  /** `token_data.get('expires_in', 3600)` of a granting reply. */
  function Lifetime(auth: Response<Json<TokenReply>>): int
    requires Grants(auth)
  {
    var e := auth.body.value.expiresIn;
    if e.None? then DefaultExpiresIn else e.value.n
  }

  /** One call of `get_mobiiett_token()` at `now`, the auth endpoint answering `auth`. */
  function TokenStep(s: TokenState, now: int, auth: Response<Json<TokenReply>>): (r: TokenOutcome)
    ensures r.posted <==> !TokenFresh(s, now)
    ensures !r.posted ==> r.state == s && r.token == s.accessToken && Truthy(r.token)
    ensures r.posted && Grants(auth) ==>
              r.token == auth.body.value.accessToken
              && r.state == TokenState(r.token, Some(now + Lifetime(auth) - SafetyMargin))
    ensures r.posted && !Grants(auth) ==> r.token.None? && r.state.expiresAt == s.expiresAt
    ensures r.posted && HalfGrants(auth) ==> r.state.accessToken == auth.body.value.accessToken
    ensures r.posted && !Grants(auth) && !HalfGrants(auth) ==> r.state == s
  {
    if TokenFresh(s, now) then TokenOutcome(s, s.accessToken, false)
    else if auth.Raises? || auth.status != 200 then TokenOutcome(s, None, true)
    else match auth.body
      case Malformed => TokenOutcome(s, None, true)
      case Parsed(TokenNonObject) => TokenOutcome(s, None, true)
      case Parsed(TokenObject(token, expiresIn)) =>
        match expiresIn.GetOr(Seconds(DefaultExpiresIn))
        case Seconds(n) => TokenOutcome(TokenState(token, Some(now + n - SafetyMargin)), token, true)
        case NotANumber => TokenOutcome(s.(accessToken := token), None, true)
  }

  /** A token granted at `t` is reused, without a request, by every later call
      earlier than `t + expires_in - 60`. */
  lemma TokenReusedUntilMargin(s: TokenState, t: int, auth: Response<Json<TokenReply>>,
                               t2: int, auth2: Response<Json<TokenReply>>)
    requires !TokenFresh(s, t) && Grants(auth) && Truthy(auth.body.value.accessToken)
    requires t <= t2 < t + Lifetime(auth) - SafetyMargin
    ensures var r2 := TokenStep(TokenStep(s, t, auth).state, t2, auth2);
            !r2.posted && r2.token == auth.body.value.accessToken
  {
  }

  /** From `t + expires_in - 60` on, the next call asks for a new token. */
  lemma TokenRefetchedFromMargin(s: TokenState, t: int, auth: Response<Json<TokenReply>>,
                                 t2: int, auth2: Response<Json<TokenReply>>)
    requires !TokenFresh(s, t) && Grants(auth)
    requires t + Lifetime(auth) - SafetyMargin <= t2
    ensures TokenStep(TokenStep(s, t, auth).state, t2, auth2).posted
  {
  }

  /** A 200 reply without "access_token" stores None, returns None, and the
      next call asks again, whenever it comes. */
  lemma MissingAccessTokenForcesRefetch(s: TokenState, t: int, auth: Response<Json<TokenReply>>,
                                        t2: int, auth2: Response<Json<TokenReply>>)
    requires !TokenFresh(s, t) && Grants(auth) && auth.body.value.accessToken.None?
    ensures TokenStep(s, t, auth).token.None?
    ensures TokenStep(TokenStep(s, t, auth).state, t2, auth2).posted
  {
  }

  /** A failed request (raised, or a status other than 200) returns None and
      changes neither field. */
  lemma FailedTokenRequestKeepsState(s: TokenState, t: int, auth: Response<Json<TokenReply>>)
    requires !TokenFresh(s, t) && (auth.Raises? || auth.status != 200)
    ensures TokenStep(s, t, auth) == TokenOutcome(s, None, true)
  {
  }

  // ---------------------------------------------------------------- the service aliases

  /** The aliases `test_mobiiett_api` tries, in order. */
  const Aliases: seq<string> := ["mainGetLine_basic_search", "GetDurakCekmekoy_json", "GetStopLines_json"]

  /** The dictionary a successful query returns. */
  datatype ServiceResult = ServiceResult(success: bool, data: seq<Item>, alias: string, count: nat)

  /** An answer the loop accepts: status 200, a non-empty JSON array, and its
      first three elements objects (on any other element, the preview's `.get`
      raises and the loop goes on to the next alias). */
  predicate Answers(response: Response<Json<Doc>>) {
    response.Reply? && response.status == 200 && response.body.Parsed?
    && response.body.value.Array? && |response.body.value.items| > 0
    && forall item :: item in Take(response.body.value.items, 3) ==> item.Object?
  }

  /** The index of the first alias, from `from` on, whose answer is accepted. */
  function FirstAnswering(service: (string, string) -> Response<Json<Doc>>, stationCode: string, from: nat): (r: Option<nat>)
    requires from <= |Aliases|
    ensures r.Some? ==> from <= r.value < |Aliases| && Answers(service(Aliases[r.value], stationCode))
    ensures r.Some? ==> forall j :: from <= j < r.value ==> !Answers(service(Aliases[j], stationCode))
    ensures r.None? ==> forall j :: from <= j < |Aliases| ==> !Answers(service(Aliases[j], stationCode))
    decreases |Aliases| - from
  {
    if from == |Aliases| then None
    else if Answers(service(Aliases[from], stationCode)) then Some(from)
    else FirstAnswering(service, stationCode, from + 1)
  }

  /** The three columns the preview of one result shows: line code, line
      name and stop name, each with its fallback key and default. */
  function PreviewRow(fields: map<string, string>): (row: (string, string, string))
    ensures row.0 == if "HAT_HAT_KODU" in fields then fields["HAT_HAT_KODU"]
                     else if "HAT_KODU" in fields then fields["HAT_KODU"] else "N/A"
    ensures row.1 == if "HAT_HAT_ADI" in fields then fields["HAT_HAT_ADI"]
                     else if "HAT_ADI" in fields then fields["HAT_ADI"] else "Bilinmiyor"
    ensures row.2 == if "DURAK_ADI" in fields then fields["DURAK_ADI"]
                     else if "DURAK_KISA_ADI" in fields then fields["DURAK_KISA_ADI"] else "Bilinmiyor"
  {
    (FirstField(fields, "HAT_HAT_KODU", "HAT_KODU", "N/A"),
     FirstField(fields, "HAT_HAT_ADI", "HAT_ADI", "Bilinmiyor"),
     FirstField(fields, "DURAK_ADI", "DURAK_KISA_ADI", "Bilinmiyor"))
  }

  // ---------------------------------------------------------------- the static dataset

  /** The fields `github_stations_cache`, `github_buses_cache` and `cache_expires_at`. */
  datatype DatasetState = DatasetState(stations: Option<Doc>, buses: Option<Doc>, expiresAt: Option<int>)

  /** What one `test_github_data()` call leaves behind, returns, and how many
      GET requests it issued. */
  datatype DatasetOutcome = DatasetOutcome(state: DatasetState, ok: bool, gets: nat)

  /** `timedelta(minutes=30)`, in seconds. */
  const CacheLifetime: int := 30 * 60

  /** The cache may be used at `now`: both documents truthy and not expired. */
  predicate DatasetFresh(c: DatasetState, now: int) {
    DocTruthy(c.stations) && DocTruthy(c.buses) && c.expiresAt.Some? && now < c.expiresAt.value
  }

  /** Both GETs answered 200 with JSON bodies. */
  predicate BothLoaded(stations: Response<Json<Doc>>, buses: Response<Json<Doc>>) {
    stations.Reply? && stations.status == 200 && stations.body.Parsed?
    && buses.Reply? && buses.status == 200 && buses.body.Parsed?
  }

  /** The summary after loading does not raise: both lengths exist and the
      first five stations are objects. */
  predicate Listable(stations: Doc, buses: Doc) {
    stations.Array? && !LenRaises(buses)
    && forall item :: item in Take(stations.items, 5) ==> item.Object?
  }

  /** One call of `test_github_data()` at `now`, the two GETs answering
      `stations` and `buses`. */
  function DatasetStep(c: DatasetState, now: int, stations: Response<Json<Doc>>, buses: Response<Json<Doc>>): (r: DatasetOutcome)
    ensures r.gets == 0 <==> DatasetFresh(c, now)
    ensures r.gets == 0 ==> r.state == c && r.ok
    ensures r.gets != 0 ==> r.gets == if stations.Raises? then 1 else 2
    ensures r.gets != 0 && BothLoaded(stations, buses) ==>
              r.state == DatasetState(Some(stations.body.value), Some(buses.body.value), Some(now + CacheLifetime))
              && (r.ok <==> Listable(stations.body.value, buses.body.value))
    ensures r.gets != 0 && !BothLoaded(stations, buses) ==> !r.ok
    ensures r.gets != 0 && !BothLoaded(stations, buses) && r.state != c ==>
              stations.Reply? && stations.body.Parsed? && buses.Reply? && buses.body.Malformed?
              && r.state == c.(stations := Some(stations.body.value))
  {
    if DatasetFresh(c, now) then DatasetOutcome(c, true, 0)
    else if stations.Raises? then DatasetOutcome(c, false, 1)
    else if buses.Raises? || stations.status != 200 || buses.status != 200 then DatasetOutcome(c, false, 2)
    else match stations.body
      case Malformed => DatasetOutcome(c, false, 2)
      case Parsed(s) =>
        match buses.body
        case Malformed => DatasetOutcome(c.(stations := Some(s)), false, 2)
        case Parsed(b) => DatasetOutcome(DatasetState(Some(s), Some(b), Some(now + CacheLifetime)), Listable(s, b), 2)
  }

  /** Once both documents are loaded and non-empty at `t`, every call before
      `t + 30 min` succeeds from the cache without a request. */
  lemma DatasetHitWithinLifetime(c: DatasetState, t: int, stations: Response<Json<Doc>>, buses: Response<Json<Doc>>,
                                 t2: int, stations2: Response<Json<Doc>>, buses2: Response<Json<Doc>>)
    requires !DatasetFresh(c, t) && BothLoaded(stations, buses)
    requires DocTruthy(Some(stations.body.value)) && DocTruthy(Some(buses.body.value))
    requires t <= t2 < t + CacheLifetime
    ensures var c2 := DatasetStep(c, t, stations, buses).state;
            DatasetStep(c2, t2, stations2, buses2) == DatasetOutcome(c2, true, 0)
  {
  }

  /** From `t + 30 min` on, the documents are fetched again. */
  lemma DatasetRefetchedAfterLifetime(c: DatasetState, t: int, stations: Response<Json<Doc>>, buses: Response<Json<Doc>>,
                                      t2: int, stations2: Response<Json<Doc>>, buses2: Response<Json<Doc>>)
    requires !DatasetFresh(c, t) && BothLoaded(stations, buses)
    requires t + CacheLifetime <= t2
    ensures DatasetStep(DatasetStep(c, t, stations, buses).state, t2, stations2, buses2).gets > 0
  {
  }

  /** An empty station list counts as no cache: the call fetches again,
      whatever the expiry. */
  lemma EmptyStationListRefetches(c: DatasetState, now: int, stations: Response<Json<Doc>>, buses: Response<Json<Doc>>)
    requires c.stations == Some(Array([]))
    ensures DatasetStep(c, now, stations, buses).gets > 0
  {
  }

  /** Both GETs are issued before either status is looked at; a status other
      than 200 on either leaves the cache as it was. */
  lemma FailedStatusKeepsDataset(c: DatasetState, now: int, stations: Response<Json<Doc>>, buses: Response<Json<Doc>>)
    requires !DatasetFresh(c, now) && stations.Reply? && buses.Reply?
    requires stations.status != 200 || buses.status != 200
    ensures DatasetStep(c, now, stations, buses) == DatasetOutcome(c, false, 2)
  {
  }

  // ---------------------------------------------------------------- the fallback timetable

  /** One entry of the fallback table. */
  datatype FallbackStation = FallbackStation(name: string, lines: seq<string>)

  /** `station_data.get(station_code, station_data["default"])`. */
  function FallbackTable(stationCode: string): (r: FallbackStation)
    ensures |r.lines| >= 3
    ensures stationCode != "151434" && stationCode != "111650" ==>
              r == FallbackStation("Durak " + stationCode, ["142", "76D", "400A"])
  {
    if stationCode == "151434" then
      FallbackStation("İSTANBUL ÜNİVERSİTESİ-CERRAHPAŞA AVCILAR KAMPÜSÜ", ["142", "76D", "144A", "76"])
    else if stationCode == "111650" then
      FallbackStation("AVCILAR METROBÜS", ["142", "400A", "400T", "76D"])
    else
      FallbackStation("Durak " + stationCode, ["142", "76D", "400A"])
  }

  /** One simulated arrival: the line, its minutes and its `HH:MM`. */
  datatype Arrival = Arrival(line: string, minutes: int, scheduled: string)

  /** `(i + 1) * 3 + (hash(line + station_code) % 5)`; Python's `%` by 5 and
      Dafny's agree, so the value lies in `[(i+1)*3, (i+1)*3 + 4]`. */
  function FallbackMinutes(i: nat, line: string, stationCode: string, hash: string -> int): (m: int)
    ensures (i + 1) * 3 <= m <= (i + 1) * 3 + 4
  {
    (i + 1) * 3 + hash(line + stationCode) % 5
  }

  /** The state of `SimpleAPITester`; the session and the client credentials
      are not part of this model. */
  class SimpleAPITester {
    var accessToken: Option<string>
    var tokenExpiresAt: Option<int>
    var githubStationsCache: Option<Doc>
    var githubBusesCache: Option<Doc>
    var cacheExpiresAt: Option<int>

    /** Everything starts empty. */
    constructor ()
      ensures accessToken.None? && tokenExpiresAt.None?
      ensures githubStationsCache.None? && githubBusesCache.None? && cacheExpiresAt.None?
    {
      accessToken := None;
      tokenExpiresAt := None;
      githubStationsCache := None;
      githubBusesCache := None;
      cacheExpiresAt := None;
    }

    /** `get_mobiiett_token()`: `posted` tells whether the auth endpoint was asked. */
    method GetMobiiettToken(now: int, auth: Response<Json<TokenReply>>) returns (token: Option<string>, posted: bool)
      modifies this
      ensures TokenOutcome(TokenState(accessToken, tokenExpiresAt), token, posted)
              == TokenStep(TokenState(old(accessToken), old(tokenExpiresAt)), now, auth)
      ensures githubStationsCache == old(githubStationsCache) && githubBusesCache == old(githubBusesCache)
      ensures cacheExpiresAt == old(cacheExpiresAt)
    {
      if Truthy(accessToken) && tokenExpiresAt.Some? && now < tokenExpiresAt.value {
        return accessToken, false;
      }
      token, posted := None, true;
      if auth.Raises? || auth.status != 200 {
        return;
      }
      match auth.body
      case Malformed =>
      case Parsed(reply) =>
        if reply.TokenObject? {
          accessToken := reply.accessToken;
          var expiresIn := reply.expiresIn.GetOr(Seconds(DefaultExpiresIn));
          if expiresIn.Seconds? {
            tokenExpiresAt := Some(now + expiresIn.n - SafetyMargin);
            token := accessToken;
          }
        }
    }

    /** `test_mobiiett_api(station_code)`: `service(alias, station_code)` is the
        answer to the POST for that alias, `tried` the aliases posted, in order. */
    method TestMobiiettApi(stationCode: string, now: int, auth: Response<Json<TokenReply>>,
                           service: (string, string) -> Response<Json<Doc>>)
      returns (result: Option<ServiceResult>, tried: seq<string>)
      modifies this
      ensures var step := TokenStep(TokenState(old(accessToken), old(tokenExpiresAt)), now, auth);
              TokenState(accessToken, tokenExpiresAt) == step.state
      ensures githubStationsCache == old(githubStationsCache) && githubBusesCache == old(githubBusesCache)
      ensures cacheExpiresAt == old(cacheExpiresAt)
      ensures var step := TokenStep(TokenState(old(accessToken), old(tokenExpiresAt)), now, auth);
              !Truthy(step.token) ==> result.None? && tried == []
      ensures var step := TokenStep(TokenState(old(accessToken), old(tokenExpiresAt)), now, auth);
              Truthy(step.token) ==>
                match FirstAnswering(service, stationCode, 0)
                case Some(k) =>
                  var items := service(Aliases[k], stationCode).body.value.items;
                  tried == Aliases[..k + 1] && result == Some(ServiceResult(true, items, Aliases[k], |items|))
                case None => tried == Aliases && result.None?
    {
      var token, _ := GetMobiiettToken(now, auth);
      if !Truthy(token) {
        return None, [];
      }
      tried := [];
      var i := 0;
      while i < |Aliases|
        invariant 0 <= i <= |Aliases|
        invariant tried == Aliases[..i]
        invariant FirstAnswering(service, stationCode, 0) == FirstAnswering(service, stationCode, i)
      {
        var alias := Aliases[i];
        var response := service(alias, stationCode);
        tried := tried + [alias];
        if response.Reply? && response.status == 200 && response.body.Parsed? {
          var data := response.body.value;
          if data.Array? && |data.items| > 0 && forall item :: item in Take(data.items, 3) ==> item.Object? {
            return Some(ServiceResult(true, data.items, alias, |data.items|)), tried;
          }
        }
        i := i + 1;
      }
      result := None;
    }

    /** `test_github_data()`: `gets` is the number of GET requests issued. */
    method TestGithubData(now: int, stations: Response<Json<Doc>>, buses: Response<Json<Doc>>) returns (ok: bool, gets: nat)
      modifies this
      ensures DatasetOutcome(DatasetState(githubStationsCache, githubBusesCache, cacheExpiresAt), ok, gets)
              == DatasetStep(DatasetState(old(githubStationsCache), old(githubBusesCache), old(cacheExpiresAt)), now, stations, buses)
      ensures accessToken == old(accessToken) && tokenExpiresAt == old(tokenExpiresAt)
    {
      if DocTruthy(githubStationsCache) && DocTruthy(githubBusesCache)
         && cacheExpiresAt.Some? && now < cacheExpiresAt.value {
        return true, 0;
      }
      if stations.Raises? {
        return false, 1;
      }
      gets := 2;
      if buses.Raises? || stations.status != 200 || buses.status != 200 {
        return false, gets;
      }
      match stations.body
      case Malformed => ok := false;
      case Parsed(s) =>
        githubStationsCache := Some(s);
        match buses.body
        case Malformed => ok := false;
        case Parsed(b) =>
          githubBusesCache := Some(b);
          cacheExpiresAt := Some(now + CacheLifetime);
          ok := Listable(s, b);
    }

    /** `test_fallback_data(station_code)`, with Python's `hash` passed in:
        the stop's name and the first three of its lines, each with its
        minutes and its time of arrival. */
    method TestFallbackData(stationCode: string, now: int, hash: string -> int)
      returns (ok: bool, name: string, arrivals: seq<Arrival>)
      ensures ok
      ensures name == FallbackTable(stationCode).name
      ensures |arrivals| == 3
      ensures forall i :: 0 <= i < |arrivals| ==>
                var line := FallbackTable(stationCode).lines[i];
                arrivals[i] == Arrival(line, FallbackMinutes(i, line, stationCode, hash),
                                       ClockAfter(now, FallbackMinutes(i, line, stationCode, hash)))
      ensures forall i :: 0 <= i < |arrivals| ==> (i + 1) * 3 <= arrivals[i].minutes <= (i + 1) * 3 + 4
    {
      var station := FallbackTable(stationCode);
      name := station.name;
      var lines := Take(station.lines, 3);
      arrivals := [];
      var i := 0;
      while i < |lines|
        invariant 0 <= i <= |lines|
        invariant |arrivals| == i
        invariant forall j :: 0 <= j < i ==>
                    arrivals[j] == Arrival(lines[j], FallbackMinutes(j, lines[j], stationCode, hash),
                                           ClockAfter(now, FallbackMinutes(j, lines[j], stationCode, hash)))
      {
        var line := lines[i];
        var estimatedMinutes := (i + 1) * 3 + hash(line + stationCode) % 5;
        var scheduled := ClockAfter(now, estimatedMinutes);
        arrivals := arrivals + [Arrival(line, estimatedMinutes, scheduled)];
        i := i + 1;
      }
      ok := true;
    }
  }
}
