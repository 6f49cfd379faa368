/** A JSON document as `response.json()` returns it. */
module JsonValue {
  datatype Json =
    | Null
    | Bool(b: bool)
    | Number(n: int)
    | String(s: string)
    | Array(items: seq<Json>)
    | Object(fields: map<string, Json>)
}

/** The request-building layer of the LeafLink stream base class: the API root, the
    authentication header, the next-page link of a response and the query parameters of
    each request. */
module Client {
  import opened Wrappers
  import opened Strings
  import opened JsonValue
  import UrlParse

  /** Records requested per page. */
  const PageSize: int := 100

  /** The API root used when the configuration gives none. */
  const DefaultApiUrl: string := "https://app.leaflink.com"

  /** The tap settings the stream reads. */
  datatype Config = Config(apiKey: Option<string>, apiUrl: Option<string>)

  /** What one stream declares: its name, its path below the API root and the field it
      replicates incrementally on, if any. */
  datatype Stream = Stream(name: string, path: string, replicationKey: Option<string>)

  /** A query-parameter value: the page size, a list of values taken from the next-page
      link, or the starting value of the incremental filter. */
  datatype Value = Int(i: int) | StrList(items: seq<string>) | Str(s: string)

  type Params = map<string, Value>

  /** Python truthiness of an optional string: neither None nor empty. */
  predicate Truthy(o: Option<string>) {
    o.Some? && o.value != ""
  }

  /* ---------------------------------------------------------------- url_base */

  /** The configured API URL (or the default) with every trailing '/' removed, so that
      paths, which begin with '/', can be appended. */
  function UrlBase(config: Config): (base: string)
    ensures var url := config.apiUrl.GetOr(DefaultApiUrl);
            |base| <= |url| && url[..|base|] == base
            && (forall k :: |base| <= k < |url| ==> url[k] == '/')
            && (base == [] || base[|base| - 1] != '/')
  {
    RStrip(config.apiUrl.GetOr(DefaultApiUrl), '/')
  }

  /** Without an `api_url` setting, the root is the production host. */
  lemma UrlBaseDefault(config: Config)
    requires config.apiUrl.None?
    ensures UrlBase(config) == "https://app.leaflink.com"
  {
  }

  /** Normalising is idempotent: configuring the normalised root gives it back. */
  lemma UrlBaseIdempotent(config: Config)
    ensures UrlBase(config.(apiUrl := Some(UrlBase(config)))) == UrlBase(config)
  {
  }

  /** Appending a path that starts with '/' to a non-empty root puts exactly one '/'
      between them. */
  lemma UrlBaseJoinsPath(config: Config, path: string)
    requires UrlBase(config) != [] && path != [] && path[0] == '/'
    ensures var url := UrlBase(config) + path;
            url[|UrlBase(config)| - 1] != '/' && url[|UrlBase(config)|] == '/'
  {
  }

  /* ----------------------------------------------------------- authenticator */

  /** Where an API-key authenticator puts its key/value pair. */
  datatype Location = Header | QueryParams

  datatype ApiKeyAuthenticator = ApiKeyAuthenticator(key: string, value: string, location: Location)

  /** `config['api_key']` raises KeyError when the setting is missing. */
  datatype ConfigError = MissingApiKey

  /** The headers an authenticator adds to every request. */
  function AuthHeaders(auth: ApiKeyAuthenticator): map<string, string>
  {
    if auth.location == Header then map[auth.key := auth.value] else map[]
  }

  /** The credential carried by an `App <key>` header value. */
  function AppCredential(headerValue: string): Option<string>
  {
    if |headerValue| >= 4 && headerValue[..4] == "App " then Some(headerValue[4..]) else None
  }

  /** The authenticator: the single header `Authorization: App <api_key>`. */
  function Authenticator(config: Config): (r: Result<ApiKeyAuthenticator, ConfigError>)
    ensures r.Failure? <==> config.apiKey.None?
    ensures r.Success? ==> AuthHeaders(r.value) == map["Authorization" := "App " + config.apiKey.value]
  {
    match config.apiKey
    case None => Failure(MissingApiKey)
    case Some(key) => Success(ApiKeyAuthenticator("Authorization", "App " + key, Header))
  }

  /** Every request carries exactly one authentication header, and the API key is recovered
      from its value. */
  lemma AuthenticatorRoundTrip(config: Config)
    requires config.apiKey.Some?
    ensures var headers := AuthHeaders(Authenticator(config).value);
            |headers| == 1 && "Authorization" in headers
            && AppCredential(headers["Authorization"]) == config.apiKey
  {
    var key := config.apiKey.value;
    assert ("App " + key)[..4] == "App ";
    assert ("App " + key)[4..] == key;
  }

  /* ------------------------------------------------------------ get_next_url */

  /** `.get` on a JSON body that is not an object raises AttributeError. */
  datatype BodyError = NotAnObject

  /** The `next` field of the body; None (JSON null) when the field is absent. */
  function GetNextUrl(body: Json): (r: Result<Json, BodyError>)
    ensures r.Failure? <==> !body.Object?
    ensures r.Success? && r.value != Null ==> "next" in body.fields && body.fields["next"] == r.value
    ensures r == Success(Null) <==> body.Object? && ("next" !in body.fields || body.fields["next"] == Null)
  {
    match body
    case Object(fields) => Success(if "next" in fields then fields["next"] else Null)
    case _ => Failure(NotAnObject)
  }

  /** Only the `next` field is read: bodies that agree on it give the same link. */
  lemma GetNextUrlReadsOnlyNext(fields: map<string, Json>, other: map<string, Json>)
    requires ("next" in fields) == ("next" in other)
    requires "next" in fields ==> fields["next"] == other["next"]
    ensures GetNextUrl(Object(fields)) == GetNextUrl(Object(other))
  {
  }

  /* ---------------------------------------------------------- get_url_params */

  /** The key of the incremental filter, `<replication_key>__gte`, when the stream has a
      replication key and the starting value is truthy. */
  function FilterKey(stream: Stream, start: Option<string>): (key: Option<string>)
    ensures key.Some? ==> Truthy(start) && key.value != "limit"
  {
    if Truthy(stream.replicationKey) && Truthy(start)
    then Some(stream.replicationKey.value + "__gte")
    else None
  }

  /** The query of the next-page link read as `parse_qs` reads it; empty on the first page. */
  function CursorQuery(nextPageToken: Option<string>, percentDecode: string -> string)
    : Result<map<string, seq<string>>, UrlParse.UrlError>
  {
    if Truthy(nextPageToken) then
      match UrlParse.SplitQuery(nextPageToken.value)
      case Success(query) => Success(UrlParse.Grouped(UrlParse.QueryPairs(query, percentDecode)))
      case Failure(e) => Failure(e)
    else
      Success(map[])
  }

  /** The parameters of a request, stated by precedence: the keys are `limit`, the keys of
      the next-page link's query and the filter key; the filter's starting value wins over
      everything, and a link's values win over the page size. */
  function Precedence(cursor: map<string, seq<string>>, filter: Option<string>, startValue: string): Params
  {
    var keys := {"limit"} + cursor.Keys + (if filter.Some? then {filter.value} else {});
    map k | k in keys ::
      if filter == Some(k) then Str(startValue)
      else if k in cursor then StrList(cursor[k])
      else Int(PageSize)
  }

  /** What `get_url_params` returns, or the error `urlparse` raises on the next-page link. */
  function UrlParams(stream: Stream, nextPageToken: Option<string>, start: Option<string>,
                     percentDecode: string -> string): (r: Result<Params, UrlParse.UrlError>)
    ensures r.Failure? ==> Truthy(nextPageToken)
    ensures r.Success? ==> "limit" in r.value
    ensures r.Success? && FilterKey(stream, start).Some? ==>
              FilterKey(stream, start).value in r.value
              && r.value[FilterKey(stream, start).value] == Str(start.value)
  {
    match CursorQuery(nextPageToken, percentDecode)
    case Failure(e) => Failure(e)
    case Success(cursor) => Success(Precedence(cursor, FilterKey(stream, start), start.GetOr("")))
  }

  /** `params |= query` for a query read by `parse_qs`: every key of the query, with its list
      of values, replaces or joins the keys already there. */
  function MergeQuery(params: Params, query: map<string, seq<string>>): (merged: Params)
    ensures merged.Keys == params.Keys + query.Keys
    ensures forall k :: k in query ==> merged[k] == StrList(query[k])
    ensures forall k :: k in params && k !in query ==> merged[k] == params[k]
  {
    params + map k | k in query :: StrList(query[k])
  }

  /** Writing the page size, then merging the link's query over it, then writing the filter
      gives the parameters `Precedence` describes. */
  lemma WritesMatchPrecedence(cursor: map<string, seq<string>>, filter: Option<string>, startValue: string)
    ensures (var merged := MergeQuery(map["limit" := Int(PageSize)], cursor);
             (if filter.Some? then merged[filter.value := Str(startValue)] else merged)
               == Precedence(cursor, filter, startValue))
  {
  }

  /** `get_url_params`: starts from the page size, merges the next-page link's query over it
      (`|=`), then writes the incremental filter. `start` is what the stream's starting
      replication value is for this request. */
  method GetUrlParams(stream: Stream, nextPageToken: Option<string>, start: Option<string>,
                      percentDecode: string -> string)
    returns (r: Result<Params, UrlParse.UrlError>)
    ensures r == UrlParams(stream, nextPageToken, start, percentDecode)
  {
    var params: Params := map["limit" := Int(PageSize)];
    ghost var cursor: map<string, seq<string>> := map[];
    if Truthy(nextPageToken) {
      var url := UrlParse.SplitQuery(nextPageToken.value);
      if url.Failure? {
        return Failure(url.error);
      }
      var query := UrlParse.ParseQs(url.value, percentDecode);
      params := MergeQuery(params, query);
      cursor := query;
    } else {
      assert params == MergeQuery(params, cursor);
    }
    if Truthy(stream.replicationKey) && Truthy(start) {
      params := params[stream.replicationKey.value + "__gte" := Str(start.value)];
    }
    WritesMatchPrecedence(cursor, FilterKey(stream, start), start.GetOr(""));
    return Success(params);
  }

  /** Only a next-page link that `urlparse` rejects makes the builder fail. */
  lemma UrlParamsFailsOnlyOnBadLink(stream: Stream, nextPageToken: Option<string>, start: Option<string>,
                                    percentDecode: string -> string)
    ensures UrlParams(stream, nextPageToken, start, percentDecode).Failure?
        <==> Truthy(nextPageToken) && UrlParse.SplitQuery(nextPageToken.value).Failure?
  {
  }

  /** On the first page (no link, or an empty one) the parameters are the page size and,
      when the stream has a replication key and a starting value, the filter. */
  lemma FirstPageParams(stream: Stream, nextPageToken: Option<string>, start: Option<string>,
                        percentDecode: string -> string)
    requires !Truthy(nextPageToken)
    ensures UrlParams(stream, nextPageToken, start, percentDecode)
         == Success(if FilterKey(stream, start).Some?
                    then map["limit" := Int(PageSize), FilterKey(stream, start).value := Str(start.value)]
                    else map["limit" := Int(PageSize)])
  {
    var filter := FilterKey(stream, start);
    var p := Precedence(map[], filter, start.GetOr(""));
    var expected := if filter.Some? then map["limit" := Int(PageSize), filter.value := Str(start.value)]
                    else map["limit" := Int(PageSize)];
    assert p.Keys == expected.Keys;
    assert p == expected;
  }

  /** Without a link and without a replication key, the parameters are exactly {limit: 100}. */
  lemma FirstPageWithoutReplicationKey(stream: Stream, nextPageToken: Option<string>, start: Option<string>,
                                       percentDecode: string -> string)
    requires !Truthy(nextPageToken) && !Truthy(stream.replicationKey)
    ensures UrlParams(stream, nextPageToken, start, percentDecode) == Success(map["limit" := Int(100)])
  {
    FirstPageParams(stream, nextPageToken, start, percentDecode);
  }

  /** With a link, every name in its query maps to the list of its values in order (a
      `limit` in the link replacing the page size), unless it is the filter key; the page
      size stays only when the link has no `limit`; and no other key appears. */
  lemma CursorParams(stream: Stream, nextPageToken: Option<string>, start: Option<string>,
                     percentDecode: string -> string, query: string)
    requires Truthy(nextPageToken)
    requires UrlParse.SplitQuery(nextPageToken.value) == Success(query)
    ensures UrlParams(stream, nextPageToken, start, percentDecode).Success?
    ensures (var filter := FilterKey(stream, start);
             UrlParams(stream, nextPageToken, start, percentDecode).value.Keys
               == {"limit"} + UrlParse.Names(UrlParse.QueryPairs(query, percentDecode))
                  + (if filter.Some? then {filter.value} else {}))
    ensures (var pairs := UrlParse.QueryPairs(query, percentDecode);
             forall name :: name in UrlParse.Names(pairs) && FilterKey(stream, start) != Some(name) ==>
               UrlParams(stream, nextPageToken, start, percentDecode).value[name]
                 == StrList(UrlParse.ValuesOf(pairs, name)))
    ensures "limit" !in UrlParse.Names(UrlParse.QueryPairs(query, percentDecode)) ==>
              UrlParams(stream, nextPageToken, start, percentDecode).value["limit"] == Int(PageSize)
  {
    var pairs := UrlParse.QueryPairs(query, percentDecode);
    var cursor := UrlParse.Grouped(pairs);
    assert CursorQuery(nextPageToken, percentDecode) == Success(cursor);
    assert cursor.Keys == UrlParse.Names(pairs);
    PrecedenceShape(cursor, FilterKey(stream, start), start.GetOr(""));
  }

  /** The keys and values `Precedence` gives, one group at a time. */
  lemma PrecedenceShape(cursor: map<string, seq<string>>, filter: Option<string>, startValue: string)
    requires filter != Some("limit")
    ensures Precedence(cursor, filter, startValue).Keys
         == {"limit"} + cursor.Keys + (if filter.Some? then {filter.value} else {})
    ensures forall name :: name in cursor && filter != Some(name) ==>
              Precedence(cursor, filter, startValue)[name] == StrList(cursor[name])
    ensures "limit" !in cursor ==> Precedence(cursor, filter, startValue)["limit"] == Int(PageSize)
  {
  }

  /** The filter is written last: with a replication key and a starting value,
      `<replication_key>__gte` is the starting value even when the link's query has it too. */
  lemma FilterWins(stream: Stream, nextPageToken: Option<string>, start: Option<string>,
                   percentDecode: string -> string)
    requires Truthy(stream.replicationKey) && Truthy(start)
    ensures var r := UrlParams(stream, nextPageToken, start, percentDecode);
            r.Success? ==> r.value[stream.replicationKey.value + "__gte"] == Str(start.value)
  {
  }

  /** Without a replication key, or without a starting value, the builder adds no filter:
      the parameters are what they would be for a stream with no replication key, so every
      key other than `limit` comes from the link's query. */
  lemma NoFilterWithoutKeyOrStart(stream: Stream, nextPageToken: Option<string>, start: Option<string>,
                                  percentDecode: string -> string)
    requires !Truthy(stream.replicationKey) || !Truthy(start)
    ensures UrlParams(stream, nextPageToken, start, percentDecode)
         == UrlParams(stream.(replicationKey := None), nextPageToken, start, percentDecode)
    ensures var r := UrlParams(stream, nextPageToken, start, percentDecode);
            r.Success? ==> forall k :: k in r.value && k != "limit" ==>
              k in CursorQuery(nextPageToken, percentDecode).value && r.value[k].StrList?
  {
  }
}
