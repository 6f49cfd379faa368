# LeafLink stream request layer, in Dafny

This project models how the LeafLink tap (a Singer tap built on the Meltano SDK) forms each
HTTP request. It covers four things:

- `url_base`: the API root with every trailing '/' removed. It comes from the `api_url` setting, or `https://app.leaflink.com` when that setting is missing.
- `authenticator`: one `Authorization: App <api_key>` header. A missing `api_key` setting is an error.
- `LeafLinkPaginator.get_next_url`: the `next` field of the JSON body, or null when the body has no such field.
- `get_url_params`: the query parameters of each request.
  - It starts from `{"limit": 100}`.
  - When a next-page link is present, it merges `parse_qs(urlparse(link).query)` over those parameters (`|=`). Names from the link replace `limit`, and each becomes the list of that name's values.
  - When the stream has a replication key and a truthy starting value, it then writes `<replication_key>__gte`. That write comes last, so it wins.

`get_url_params` is an imperative method (`Client.GetUrlParams`). It is proved equal to a separate precedence-style definition, `Client.UrlParams`, and the behaviour the source promises is proved as lemmas about that definition. The two pieces of Python's `urllib.parse` (CPython 3.12) that the builder calls are modelled from the library's documented algorithm:

- `urlparse(...).query`, modelled as `UrlParse.SplitQuery`, including its "Invalid IPv6 URL" error;
- `parse_qsl` / `parse_qs`, modelled as the methods `UrlParse.ParseQsl` and `UrlParse.ParseQs`. Each is proved against a specification function.

Modules:

- `Wrappers`: Option and Result.
- `Strings`: the Python `str` operations used (`find`, `split`, `split(c, 1)`, `rstrip`, `lstrip`, `replace`).
- `UrlParse`.
- `JsonValue`: the decoded response body.
- `Client`: `client.py`.
- `Scenarios`: requests for the declared streams `orders_received` and `order_payments`.

The SDK calls `get_starting_replication_key_value(context)`. Here its result is the input `start`. The next-page token is the `str | None` that `get_url_params` declares. Percent-decoding inside `unquote` is the function parameter `percentDecode`. Names and values containing no '%' are modelled exactly.

The declared default of the `api_url` setting in `tap_leaflink/tap.py:29` is `https://app.leaflink.com/api/v2`. The fallback in `tap_leaflink/client.py:48` is `https://app.leaflink.com`. The model follows `client.py` and keeps that fallback for a configuration without the key.

## Model

| member | source | states |
|---|---|---|
| Client.UrlBase | tap_leaflink/client.py:46-50 | The root is a prefix of the configured URL (or the default). What it drops is all '/'. It does not end in '/'. |
| Client.UrlBaseDefault | tap_leaflink/client.py:48 | Without an `api_url` setting the root is `https://app.leaflink.com`. |
| Client.UrlBaseIdempotent | tap_leaflink/client.py:49-50 | Normalising an already normalised root gives it back unchanged. |
| Client.UrlBaseJoinsPath | tap_leaflink/client.py:49-50 | Appending a path that starts with '/' to a non-empty root: the root adds no '/' of its own, and the path's leading '/' comes right after it. |
| Client.Authenticator | tap_leaflink/client.py:53-59 | Fails exactly when `api_key` is missing (the KeyError). Otherwise the headers are exactly `{Authorization: "App " + key}`. |
| Client.AuthenticatorRoundTrip | tap_leaflink/client.py:55-58 | Exactly one header is added, and the API key is recovered from its `App ` value. |
| Client.GetNextUrl | tap_leaflink/client.py:30-32 | Fails exactly when the body is not a JSON object. A non-null result is the body's `next` field. The result is null exactly when `next` is absent or null. |
| Client.GetNextUrlReadsOnlyNext | tap_leaflink/client.py:32 | Two bodies that agree on `next` give the same link. |
| Client.FilterKey | tap_leaflink/client.py:79-84 | A filter key exists only with a truthy starting value, and it is never `limit`. |
| Client.MergeQuery | tap_leaflink/client.py:77 | The in-place dict merge of the query: the keys are the union. Query keys get their value lists. Other keys keep their old values. |
| Client.WritesMatchPrecedence | tap_leaflink/client.py:71-84 | Writing the page size, merging the query, then writing the filter gives the parameters the precedence definition describes. |
| Client.UrlParams | tap_leaflink/client.py:66-86 | The precedence definition of the builder's result. It fails only for a truthy token. A result always has `limit`, and holds the starting value under the filter key whenever there is one. |
| Client.GetUrlParams | tap_leaflink/client.py:66-86 | The returned parameters, or the `urlparse` error, are those of the precedence definition for every stream, token and starting value. |
| Client.UrlParamsFailsOnlyOnBadLink | tap_leaflink/client.py:75-77 | The builder fails if and only if the token is truthy and `urlparse` rejects it. |
| Client.FirstPageParams | tap_leaflink/client.py:71-84 | Without a (truthy) token the parameters are `{limit: 100}`, plus `<key>__gte` when there is a filter. |
| Client.FirstPageWithoutReplicationKey | tap_leaflink/client.py:71-75 | Without a token and a replication key the parameters are exactly `{limit: 100}`. |
| Client.CursorParams | tap_leaflink/client.py:71-84 | With a link, the keys are exactly `limit`, the link's query names and the filter key. Every query name other than the filter maps to all its values in order. `limit` stays 100 only when the link has no `limit`. |
| Client.PrecedenceShape | tap_leaflink/client.py:71-84 | The precedence definition's keys, link values and page size, stated separately. |
| Client.FilterWins | tap_leaflink/client.py:79-84 | With a replication key and a truthy starting value, `<key>__gte` is the starting value even when the link carries that name. |
| Client.NoFilterWithoutKeyOrStart | tap_leaflink/client.py:79-84 | Without a key or a truthy start, the result is the same as for a stream without a replication key. Every non-`limit` key then comes from the link, as a list. |
| UrlParse.SplitQuery | tap_leaflink/client.py:76 | A query found in a link never contains '#'. |
| UrlParse.QueryOf | tap_leaflink/client.py:76 | The query component after the network location never contains '#'. |
| UrlParse.QueryOfLink | tap_leaflink/client.py:76 | Round trip: `scheme://host path?query[#fragment]`, with parts free of delimiters that would end them early, yields exactly `query`. |
| UrlParse.LinkSplits | tap_leaflink/client.py:76 | Such a link loses its scheme and splits into exactly its host and the rest. |
| UrlParse.UnbalancedBracketRejected | tap_leaflink/client.py:76 | A host with '[' and no ']' makes `urlparse` fail with "Invalid IPv6 URL". |
| UrlParse.ParseQsl | tap_leaflink/client.py:77 | The loop over fields returns exactly the pairs `parse_qsl` defines. |
| UrlParse.ParseQs | tap_leaflink/client.py:77 | The loop returns exactly the grouping of those pairs by name, values in order. |
| UrlParse.GroupedStep | tap_leaflink/client.py:77 | One more pair extends its name's list, or starts a one-element list. |
| UrlParse.GroupedSnoc | tap_leaflink/client.py:77 | Grouping pairs with one pair appended is the grouping updated at that pair's name. |
| UrlParse.GroupedKeepsEveryPair | tap_leaflink/client.py:77 | The keys are exactly the pair names, every list is non-empty, and every pair's value is in its name's list. |
| UrlParse.ValuesOfNonEmpty | tap_leaflink/client.py:77 | A name has values if and only if some pair carries it. |
| UrlParse.ParseFieldCases | tap_leaflink/client.py:77 | `name=value` with a non-empty value reads as the decoded pair. `name=` and a bare `name` are dropped. |
| UrlParse.QueryPairsOfEncoded | tap_leaflink/client.py:77 | Round trip: encoding pairs as `n1=v1&n2=v2...` and parsing gives every pair back, decoded and in order. |
| UrlParse.FieldPairsStep | tap_leaflink/client.py:77 | One more field adds its pair, if any, at the end. |
| UrlParse.EncodeFields | tap_leaflink/client.py:77 | Each encoded field is `name=value` of the pair at the same position. |
| Strings.Find | tap_leaflink/client.py:76-77 | `find`: none exactly when the character is absent. Otherwise the index holds it and no earlier index does. |
| Strings.Split | tap_leaflink/client.py:77 | `split`: at least one piece, and no piece contains the separator. |
| Strings.SplitOnce | tap_leaflink/client.py:76-77 | `split(c, 1)`: none exactly when `c` is absent. Otherwise the string is the first part, `c`, then the rest, and the first part has no `c`. |
| Strings.JoinSplit | tap_leaflink/client.py:77 | Joining the pieces of a split gives back the string. |
| Strings.SplitJoin | tap_leaflink/client.py:77 | Splitting a join of separator-free pieces gives back the pieces. |
| Strings.RStrip | tap_leaflink/client.py:50 | `rstrip`: a prefix, not ending in the character, with only that character removed. |
| Strings.LStripC0 | tap_leaflink/client.py:76 | `lstrip` of C0 controls and space: a suffix that does not start with one, and everything removed is one. |
| Strings.RemoveChars | tap_leaflink/client.py:76 | Deleting tab, CR and LF: what is left comes from the input and avoids them. Nothing changes when none occur. |
| Strings.RemoveCharsKeepsOthers | tap_leaflink/client.py:76 | Every character outside the deleted set is kept, as many times as it occurs. |
| Strings.RemoveCharsConcat | tap_leaflink/client.py:76 | Deletion works piece by piece, so the kept characters stay in their order. |
| Scenarios.FirstPageOfOrdersReceived | tap_leaflink/streams.py:41-45 | The first page of `orders_received` from 2024-01-01 is `{limit: 100, modified__gte: "2024-01-01"}`. |
| Scenarios.FirstPageOfOrderPayments | tap_leaflink/streams.py:52-56 | The first page of `order_payments` is `{limit: 100}`, whatever the start. |
| Scenarios.OneFieldLinkParams | tap_leaflink/client.py:75-84 | A link whose query is one field `name=value` produces the precedence parameters over `{name: [value]}`. |
| Scenarios.CursorPageOfOrdersReceived | tap_leaflink/client.py:75-84 | Following a link with `cursor=<c>` gives `{limit: 100, cursor: [c], modified__gte: start}`. |
| Scenarios.LimitFromLinkOfOrderPayments | tap_leaflink/client.py:75-77 | A link's `limit=<n>` replaces the integer page size with the list `[n]`. |
| Scenarios.FilterOverridesLinkOfOrdersReceived | tap_leaflink/client.py:79-84 | A stale `modified__gte` in the link is overwritten by the starting value. |
| Scenarios.BadLinkOfOrdersReceived | tap_leaflink/client.py:76 | A link whose host opens '[' without closing it makes the builder fail. |

## Left out

- UrlParse.SplitQuery: it is weaker than `urlsplit` on two error paths. It does not check a bracketed host with `ipaddress`, and it does not apply the NFKC check to non-ASCII network locations. Both can raise ValueError in Python. For such links the model returns the query instead.
- UrlParse.DecodeComponent: percent-decoding and the UTF-8 it encodes are the parameter `percentDecode`. The model is exact only for names and values without '%'.
- Client.GetUrlParams: the parameters are a `map`, so the insertion order of the Python dict (which sets the order of the query string) is not modelled.
- Client.GetNextUrl: the body is an already decoded JSON value. A body that is not valid JSON (`response.json()` raising) and JSON floating-point numbers are not modelled.
- Client.UrlBase: a configuration holding `api_url: null` (where `rstrip` would raise) is treated the same as a missing key.
- Client.Authenticator: an `api_key` set to null (which would give the header `App None`) is not modelled.
- The SDK's `get_starting_replication_key_value`, state and bookmarks are not modelled. Its result is the input `start`.
- The SDK's pagination loop, its `records_jsonpath` extraction (`$.results[*]`) and the HTTP transport are not part of this model. Only `get_next_url` is.
- `get_new_paginator` (`tap_leaflink/client.py:61-63`) only constructs the LeafLink paginator. It has no member of its own; its one behaviour is `Client.GetNextUrl`.
- The SDK's `APIKeyAuthenticator` internals: only the header it names is modelled.
- The declarative stream catalogue and schemas in `tap_leaflink/streams.py`, and the settings schema in `tap_leaflink/tap.py`, are not modelled. Only the two streams above appear, as scenarios. The OpenAPI scraping script and the tests are not part of this model either.
