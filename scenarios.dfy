/** Concrete requests for two of the declared streams: `orders_received`, which replicates
    incrementally on `modified`, and `order_payments`, which has no replication key. */
module Scenarios {
  import opened Wrappers
  import opened Client
  import UrlParse

  const OrdersReceived: Stream := Stream("orders_received", "/orders-received/", Some("modified"))
  const OrderPayments: Stream := Stream("order_payments", "/order-payments/", None)

  /** What `parse_qs` gives for a query of plain fields (no '+', no '%'), each name once. */
  lemma PlainQuery(pairs: seq<(string, string)>, percentDecode: string -> string)
    requires forall j :: 0 <= j < |pairs| ==> '&' !in pairs[j].0 && '=' !in pairs[j].0
    requires forall j :: 0 <= j < |pairs| ==> '&' !in pairs[j].1 && pairs[j].1 != ""
    requires forall j :: 0 <= j < |pairs| ==> UrlParse.IsPlain(pairs[j].0) && UrlParse.IsPlain(pairs[j].1)
    ensures UrlParse.QueryPairs(UrlParse.EncodeQuery(pairs), percentDecode) == pairs
  {
    UrlParse.QueryPairsOfEncoded(pairs, percentDecode);
    UrlParse.DecodePairsOfPlain(pairs, percentDecode);
  }

  /** `orders_received` filters on `modified__gte` once a starting value is known. */
  lemma ModifiedFilter()
    ensures FilterKey(OrdersReceived, Some("2024-01-01")) == Some("modified__gte")
  {
    assert "modified" + "__gte" == "modified__gte";
  }

  /** First page of `orders_received` with start date 2024-01-01: the page size and
      `modified__gte`. */
  lemma FirstPageOfOrdersReceived(percentDecode: string -> string)
    ensures UrlParams(OrdersReceived, None, Some("2024-01-01"), percentDecode)
         == Success(map["limit" := Int(100), "modified__gte" := Str("2024-01-01")])
  {
    FirstPageParams(OrdersReceived, None, Some("2024-01-01"), percentDecode);
    assert "modified" + "__gte" == "modified__gte";
  }

  /** First page of `order_payments`: the page size only, whatever the start date. */
  lemma FirstPageOfOrderPayments(start: Option<string>, percentDecode: string -> string)
    ensures UrlParams(OrderPayments, None, start, percentDecode) == Success(map["limit" := Int(100)])
  {
    FirstPageWithoutReplicationKey(OrderPayments, None, start, percentDecode);
  }

  /** Safe text for the pieces of a link: none of `&`, `=`, `#`, `+`, `%`, tab, CR or LF. */
  predicate IsLinkText(s: string) {
    UrlParse.Avoids(s, {'&', '=', '#', '+', '%'} + UrlParse.UnsafeUrlChars)
  }

  /** The field names the scenarios put in a link are safe link text. */
  lemma FieldNamesAreLinkText()
    ensures IsLinkText("limit") && IsLinkText("cursor") && IsLinkText("modified__gte")
  {
  }

  /** The link `scheme://host path?query`. */
  function Link(scheme: string, host: string, path: string, query: string): string
  {
    scheme + "://" + host + path + "?" + query
  }

  /** A next link whose query is the single field `name=value`: `parse_qs` gives the
      one-element list `[value]` under `name`, and the request is built from that. */
  lemma OneFieldLinkParams(stream: Stream, start: Option<string>,
                           scheme: string, host: string, path: string, name: string, value: string,
                           percentDecode: string -> string)
    requires UrlParse.IsScheme(scheme)
    requires UrlParse.Avoids(host, UrlParse.NetlocDelimiters + {'[', ']'} + UrlParse.UnsafeUrlChars)
    requires path == [] || path[0] == '/'
    requires UrlParse.Avoids(path, {'?', '#'} + UrlParse.UnsafeUrlChars)
    requires IsLinkText(name) && IsLinkText(value) && value != ""
    ensures UrlParams(stream, Some(Link(scheme, host, path, name + "=" + value)), start, percentDecode)
         == Success(Precedence(map[name := [value]], FilterKey(stream, start), start.GetOr("")))
  {
    LinkQuery(scheme, host, path, name, value);
    OneFieldQuery(name, value, percentDecode);
  }

  /** `parse_qs("name=value")` is `{name: [value]}`. */
  lemma OneFieldQuery(name: string, value: string, percentDecode: string -> string)
    requires IsLinkText(name) && IsLinkText(value) && value != ""
    ensures UrlParse.Grouped(UrlParse.QueryPairs(name + "=" + value, percentDecode)) == map[name := [value]]
  {
    var pairs := [(name, value)];
    assert UrlParse.EncodeQuery(pairs) == name + "=" + value by {
      assert UrlParse.EncodeFields(pairs) == [name + "=" + value];
    }
    assert UrlParse.IsPlain(name) && UrlParse.IsPlain(value) && '&' !in name && '=' !in name && '&' !in value;
    PlainQuery(pairs, percentDecode);
    UrlParse.GroupedEmpty();
    UrlParse.GroupedSnoc([], name, value);
    assert [] + pairs == pairs;
    assert [] + [value] == [value];
  }

  lemma LinkQuery(scheme: string, host: string, path: string, name: string, value: string)
    requires UrlParse.IsScheme(scheme)
    requires UrlParse.Avoids(host, UrlParse.NetlocDelimiters + {'[', ']'} + UrlParse.UnsafeUrlChars)
    requires path == [] || path[0] == '/'
    requires UrlParse.Avoids(path, {'?', '#'} + UrlParse.UnsafeUrlChars)
    requires IsLinkText(name) && IsLinkText(value)
    ensures UrlParse.SplitQuery(Link(scheme, host, path, name + "=" + value)) == Success(name + "=" + value)
  {
    var query := name + "=" + value;
    var cs := {'#'} + UrlParse.UnsafeUrlChars;
    assert UrlParse.Avoids(name, cs) && UrlParse.Avoids("=", cs) && UrlParse.Avoids(value, cs);
    UrlParse.AvoidsConcat(name, "=", cs);
    UrlParse.AvoidsConcat(name + "=", value, cs);
    UrlParse.QueryOfLink(scheme, host, path, query, None);
    var link := Link(scheme, host, path, query);
    assert link + "" == link;
  }

  /** Second page of `orders_received`, following a link that carries `cursor=<c>`: the cursor
      joins the page size and the filter, as a one-element list. */
  lemma CursorPageOfOrdersReceived(scheme: string, host: string, path: string, cursor: string,
                                   percentDecode: string -> string)
    requires UrlParse.IsScheme(scheme)
    requires UrlParse.Avoids(host, UrlParse.NetlocDelimiters + {'[', ']'} + UrlParse.UnsafeUrlChars)
    requires path == [] || path[0] == '/'
    requires UrlParse.Avoids(path, {'?', '#'} + UrlParse.UnsafeUrlChars)
    requires IsLinkText(cursor) && cursor != ""
    ensures UrlParams(OrdersReceived, Some(Link(scheme, host, path, "cursor" + "=" + cursor)),
                      Some("2024-01-01"), percentDecode)
         == Success(map["limit" := Int(100), "cursor" := StrList([cursor]),
                        "modified__gte" := Str("2024-01-01")])
  {
    ModifiedFilter();
    FieldNamesAreLinkText();
    OneFieldLinkParams(OrdersReceived, Some("2024-01-01"), scheme, host, path, "cursor", cursor, percentDecode);
    CursorPrecedence(cursor);
  }

  lemma CursorPrecedence(cursor: string)
    ensures Precedence(map["cursor" := [cursor]], Some("modified__gte"), "2024-01-01")
         == map["limit" := Int(100), "cursor" := StrList([cursor]), "modified__gte" := Str("2024-01-01")]
  {
    var p := Precedence(map["cursor" := [cursor]], Some("modified__gte"), "2024-01-01");
    assert p.Keys == {"limit", "cursor", "modified__gte"};
  }

  /** A `limit` in the link replaces the integer page size by the link's list of strings. */
  lemma LimitFromLinkOfOrderPayments(scheme: string, host: string, path: string, limit: string,
                                     percentDecode: string -> string)
    requires UrlParse.IsScheme(scheme)
    requires UrlParse.Avoids(host, UrlParse.NetlocDelimiters + {'[', ']'} + UrlParse.UnsafeUrlChars)
    requires path == [] || path[0] == '/'
    requires UrlParse.Avoids(path, {'?', '#'} + UrlParse.UnsafeUrlChars)
    requires IsLinkText(limit) && limit != ""
    ensures UrlParams(OrderPayments, Some(Link(scheme, host, path, "limit" + "=" + limit)),
                      Some("2024-01-01"), percentDecode)
         == Success(map["limit" := StrList([limit])])
  {
    FieldNamesAreLinkText();
    OneFieldLinkParams(OrderPayments, Some("2024-01-01"), scheme, host, path, "limit", limit, percentDecode);
    LimitPrecedence(limit);
  }

  lemma LimitPrecedence(limit: string)
    ensures Precedence(map["limit" := [limit]], None, "2024-01-01") == map["limit" := StrList([limit])]
  {
    var p := Precedence(map["limit" := [limit]], None, "2024-01-01");
    assert p.Keys == {"limit"};
  }

  /** A `modified__gte` carried in the link is overwritten by the starting value. */
  lemma FilterOverridesLinkOfOrdersReceived(scheme: string, host: string, path: string, stale: string,
                                            percentDecode: string -> string)
    requires UrlParse.IsScheme(scheme)
    requires UrlParse.Avoids(host, UrlParse.NetlocDelimiters + {'[', ']'} + UrlParse.UnsafeUrlChars)
    requires path == [] || path[0] == '/'
    requires UrlParse.Avoids(path, {'?', '#'} + UrlParse.UnsafeUrlChars)
    requires IsLinkText(stale) && stale != ""
    ensures UrlParams(OrdersReceived, Some(Link(scheme, host, path, "modified__gte" + "=" + stale)),
                      Some("2024-01-01"), percentDecode)
         == Success(map["limit" := Int(100), "modified__gte" := Str("2024-01-01")])
  {
    ModifiedFilter();
    FieldNamesAreLinkText();
    OneFieldLinkParams(OrdersReceived, Some("2024-01-01"), scheme, host, path, "modified__gte", stale, percentDecode);
    StalePrecedence(stale);
  }

  lemma StalePrecedence(stale: string)
    ensures Precedence(map["modified__gte" := [stale]], Some("modified__gte"), "2024-01-01")
         == map["limit" := Int(100), "modified__gte" := Str("2024-01-01")]
  {
    var p := Precedence(map["modified__gte" := [stale]], Some("modified__gte"), "2024-01-01");
    assert p.Keys == {"limit", "modified__gte"};
  }

  /** A link whose host opens '[' without closing it makes the builder fail. */
  lemma BadLinkOfOrdersReceived(scheme: string, host: string, tail: string, percentDecode: string -> string)
    requires UrlParse.IsScheme(scheme)
    requires UrlParse.Avoids(host, UrlParse.NetlocDelimiters + {']'} + UrlParse.UnsafeUrlChars) && '[' in host
    requires tail == [] || tail[0] in UrlParse.NetlocDelimiters
    requires UrlParse.Avoids(tail, UrlParse.UnsafeUrlChars)
    ensures UrlParams(OrdersReceived, Some(scheme + "://" + host + tail), Some("2024-01-01"), percentDecode)
         == Failure(UrlParse.InvalidIPv6Url)
  {
    UrlParse.UnbalancedBracketRejected(scheme, host, tail);
  }
}
