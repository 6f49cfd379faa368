/** The two pieces of Python's `urllib.parse` (CPython 3.12) that the parameter builder
    applies to a next-page link: `urlparse(link).query`, the query component of the link
    (section 3.4 of RFC 3986), and `parse_qs(query)`, which reads that component into a
    dictionary from each name to the list of its values, in order. */
module UrlParse {
  import opened Wrappers
  import opened Strings

  /** The only error `urlparse` is modelled to raise: a network location with a '[' and no ']',
      or a ']' and no '[' (`ValueError("Invalid IPv6 URL")`). */
  datatype UrlError = InvalidIPv6Url

  /** Tab, carriage return and line feed: `urlsplit` deletes them anywhere in the link. */
  const UnsafeUrlChars: set<char> := {'\t', '\r', '\n'}

  /** The characters after which `urlsplit` ends a network location. */
  const NetlocDelimiters: set<char> := {'/', '?', '#'}

  predicate IsAsciiLetter(ch: char) {
    'a' <= ch <= 'z' || 'A' <= ch <= 'Z'
  }

  /** Letters, digits, '+', '-' and '.': the characters a scheme may be made of. */
  predicate IsSchemeChar(ch: char) {
    IsAsciiLetter(ch) || '0' <= ch <= '9' || ch == '+' || ch == '-' || ch == '.'
  }

  /** What follows the scheme and its ':', when the link starts with a scheme `urlsplit`
      recognises (an ASCII letter, then scheme characters, up to the first ':');
      otherwise the link unchanged. */
  function AfterScheme(u: string): string
  {
    match Find(u, ':')
    case None => u
    case Some(i) =>
      if i > 0 && IsAsciiLetter(u[0]) && forall k :: 0 <= k < i ==> IsSchemeChar(u[k])
      then u[i + 1..]
      else u
  }

  /** The network location that follows a leading "//", up to the first '/', '?' or '#',
      and the rest of the link after it; an empty location when there is no "//". */
  function SplitNetloc(rest: string): (string, string)
  {
    if |rest| >= 2 && rest[..2] == "//" then
      var t := rest[2..];
      var d := FirstOf(t, NetlocDelimiters);
      (t[..d], t[d..])
    else
      ("", rest)
  }

  /** The query component of a link as `urlparse(link).query` gives it: the text between
      the first '?' and the first '#' that follows, or "" when there is no '?'. */
  function SplitQuery(url: string): (r: Result<string, UrlError>)
    ensures r.Success? ==> '#' !in r.value
  {
    var u := RemoveChars(LStripC0(url), UnsafeUrlChars);
    var (netloc, path) := SplitNetloc(AfterScheme(u));
    if ('[' in netloc) != (']' in netloc) then
      Failure(InvalidIPv6Url)
    else
      Success(QueryOf(path))
  }

  /** The part of a link after its network location that `urlsplit` reports as the query:
      with the fragment (from the first '#') cut off, what follows the first '?'. */
  function QueryOf(path: string): (query: string)
    ensures '#' !in query
  {
    match SplitOnce(WithoutFragment(path), '?')
    case Some(p) => p.1
    case None => ""
  }

  /** The text before the first '#', or all of it when there is none. */
  function WithoutFragment(path: string): (r: string)
    ensures '#' !in r
  {
    match SplitOnce(path, '#') case Some(p) => p.0 case None => path
  }

  /** `unquote`: a string without '%' is returned as it is; decoding percent-escapes
      (and the UTF-8 they encode) is left to `percentDecode`. */
  function Unquote(s: string, percentDecode: string -> string): string
  {
    if '%' in s then percentDecode(s) else s
  }

  /** How `parse_qsl` decodes a name or a value: '+' becomes a space, then `unquote`. */
  function DecodeComponent(s: string, percentDecode: string -> string): string
  {
    Unquote(ReplaceChar(s, '+', ' '), percentDecode)
  }

  /** `qs.split('&') if qs else []`. */
  function Fields(qs: string): seq<string>
  {
    if qs == "" then [] else Split(qs, '&')
  }

  /** One '&'-separated field as `parse_qsl` reads it (blank values not kept, parsing not
      strict): empty fields, fields without '=' and fields whose value is empty are
      dropped; otherwise the name before the first '=' and the value after it, decoded. */
  function ParseField(field: string, percentDecode: string -> string): Option<(string, string)>
  {
    if field == "" then None
    else
      match SplitOnce(field, '=')
      case None => None
      case Some(nv) =>
        if nv.1 == "" then None
        else Some((DecodeComponent(nv.0, percentDecode), DecodeComponent(nv.1, percentDecode)))
  }

  /** The name/value pairs of a list of fields, in order. */
  function FieldPairs(fields: seq<string>, percentDecode: string -> string): seq<(string, string)>
  {
    if fields == [] then []
    else
      PairsOfField(fields[0], percentDecode) + FieldPairs(fields[1..], percentDecode)
  }

  /** The pair a field contributes: one, or none when the field is dropped. */
  function PairsOfField(field: string, percentDecode: string -> string): seq<(string, string)>
  {
    match ParseField(field, percentDecode) case Some(p) => [p] case None => []
  }

  /** What `parse_qsl(qs)` returns. */
  function QueryPairs(qs: string, percentDecode: string -> string): seq<(string, string)>
  {
    FieldPairs(Fields(qs), percentDecode)
  }

  /** The values of the pairs named `name`, in the order the pairs come. */
  function ValuesOf(pairs: seq<(string, string)>, name: string): seq<string>
  {
    if pairs == [] then []
    else (if pairs[0].0 == name then [pairs[0].1] else []) + ValuesOf(pairs[1..], name)
  }

  function Names(pairs: seq<(string, string)>): set<string>
  {
    set j | 0 <= j < |pairs| :: pairs[j].0
  }

  /** The dictionary `parse_qs` returns for the pairs `parse_qsl` found: one key per name,
      mapped to all of that name's values in order. */
  function Grouped(pairs: seq<(string, string)>): map<string, seq<string>>
  {
    map name | name in Names(pairs) :: ValuesOf(pairs, name)
  }

  /** `parse_qsl(qs)`: one pass over the fields, keeping the pairs `ParseField` accepts. */
  method ParseQsl(qs: string, percentDecode: string -> string) returns (pairs: seq<(string, string)>)
    ensures pairs == QueryPairs(qs, percentDecode)
  {
    var fields := Fields(qs);
    pairs := [];
    var i := 0;
    while i < |fields|
      invariant 0 <= i <= |fields|
      invariant pairs == FieldPairs(fields[..i], percentDecode)
    {
      FieldPairsStep(fields, i, percentDecode);
      match ParseField(fields[i], percentDecode) {
        case Some(p) => pairs := pairs + [p];
        case None =>
      }
      i := i + 1;
    }
    assert fields[..i] == fields;
  }

  /** `parse_qs(qs)`: appends each pair's value to the list of its name, starting a new
      list the first time a name is seen. */
  method ParseQs(qs: string, percentDecode: string -> string) returns (parsed: map<string, seq<string>>)
    ensures parsed == Grouped(QueryPairs(qs, percentDecode))
  {
    var pairs := ParseQsl(qs, percentDecode);
    parsed := map[];
    var i := 0;
    assert pairs[..0] == [];
    GroupedEmpty();
    while i < |pairs|
      invariant 0 <= i <= |pairs|
      invariant parsed == Grouped(pairs[..i])
    {
      var (name, value) := pairs[i];
      GroupedStep(pairs, i);
      if name in parsed {
        parsed := parsed[name := parsed[name] + [value]];
      } else {
        parsed := parsed[name := [value]];
      }
      i := i + 1;
    }
    assert pairs[..i] == pairs;
  }

  /** One step of `parse_qs`: the `i`-th pair extends its name's list or starts a new one. */
  lemma GroupedStep(pairs: seq<(string, string)>, i: nat)
    requires i < |pairs|
    ensures (var g := Grouped(pairs[..i]);
             var (name, value) := pairs[i];
             Grouped(pairs[..i + 1]) == if name in g then g[name := g[name] + [value]] else g[name := [value]])
  {
    assert pairs[..i + 1] == pairs[..i] + [pairs[i]];
    GroupedSnoc(pairs[..i], pairs[i].0, pairs[i].1);
    assert [] + [pairs[i].1] == [pairs[i].1];
  }

  lemma GroupedEmpty()
    ensures Grouped([]) == map[]
  {
    assert Names([]) == {};
  }

  /** One step of `parse_qsl`: the `i`-th field adds its pair, if any, at the end. */
  lemma FieldPairsStep(fields: seq<string>, i: nat, percentDecode: string -> string)
    requires i < |fields|
    ensures FieldPairs(fields[..i + 1], percentDecode)
         == FieldPairs(fields[..i], percentDecode) + PairsOfField(fields[i], percentDecode)
  {
    assert fields[..i + 1] == fields[..i] + [fields[i]];
    FieldPairsSnoc(fields[..i], fields[i], percentDecode);
  }

  lemma {:induction false} FieldPairsSnoc(fields: seq<string>, field: string, percentDecode: string -> string)
    ensures FieldPairs(fields + [field], percentDecode)
         == FieldPairs(fields, percentDecode)
            + PairsOfField(field, percentDecode)
  {
    var s := fields + [field];
    if fields == [] {
      assert s == [field] && s[1..] == [];
    } else {
      assert s[0] == fields[0];
      assert s[1..] == fields[1..] + [field];
      FieldPairsSnoc(fields[1..], field, percentDecode);
      var head := PairsOfField(fields[0], percentDecode);
      var middle := FieldPairs(fields[1..], percentDecode);
      var last := PairsOfField(field, percentDecode);
      assert FieldPairs(s, percentDecode) == head + (middle + last);
      assert head + (middle + last) == (head + middle) + last;
    }
  }

  /** A name has values exactly when some pair carries it. */
  lemma {:induction false} ValuesOfNonEmpty(pairs: seq<(string, string)>, name: string)
    ensures ValuesOf(pairs, name) != [] <==> name in Names(pairs)
  {
    if pairs != [] {
      ValuesOfNonEmpty(pairs[1..], name);
      assert Names(pairs) == {pairs[0].0} + Names(pairs[1..]) by {
        forall n | n in Names(pairs) ensures n in {pairs[0].0} + Names(pairs[1..]) {
          var j :| 0 <= j < |pairs| && pairs[j].0 == n;
          if j > 0 { assert pairs[1..][j - 1].0 == n; }
        }
        forall n | n in Names(pairs[1..]) ensures n in Names(pairs) {
          var j :| 0 <= j < |pairs[1..]| && pairs[1..][j].0 == n;
          assert pairs[j + 1].0 == n;
        }
      }
    }
  }

  lemma {:induction false} ValuesOfSnoc(pairs: seq<(string, string)>, name: string, value: string, key: string)
    ensures ValuesOf(pairs + [(name, value)], key)
         == ValuesOf(pairs, key) + (if name == key then [value] else [])
  {
    if pairs != [] {
      assert (pairs + [(name, value)])[1..] == pairs[1..] + [(name, value)];
      ValuesOfSnoc(pairs[1..], name, value, key);
    }
  }

  /** One more pair extends its name's list and leaves every other name's list alone. */
  lemma GroupedSnoc(pairs: seq<(string, string)>, name: string, value: string)
    ensures (var g := Grouped(pairs);
             Grouped(pairs + [(name, value)]) == g[name := (if name in g then g[name] else []) + [value]])
  {
    var g := Grouped(pairs);
    var ps := pairs + [(name, value)];
    var rhs := g[name := (if name in g then g[name] else []) + [value]];
    assert Names(ps) == Names(pairs) + {name} by {
      forall n | n in Names(ps) ensures n in Names(pairs) + {name} {
        var j :| 0 <= j < |ps| && ps[j].0 == n;
        if j < |pairs| { assert pairs[j].0 == n; }
      }
      forall n | n in Names(pairs) ensures n in Names(ps) {
        var j :| 0 <= j < |pairs| && pairs[j].0 == n;
        assert ps[j].0 == n;
      }
      assert ps[|pairs|].0 == name;
    }
    ValuesOfNonEmpty(pairs, name);
    forall key | key in Names(ps) ensures Grouped(ps)[key] == rhs[key] {
      ValuesOfSnoc(pairs, name, value, key);
    }
    assert Grouped(ps).Keys == rhs.Keys;
  }

  /** Every pair's value is in its name's list, and every list in the dictionary is non-empty. */
  lemma GroupedKeepsEveryPair(pairs: seq<(string, string)>)
    ensures Grouped(pairs).Keys == Names(pairs)
    ensures forall name :: name in Grouped(pairs) ==> Grouped(pairs)[name] != []
    ensures forall j :: 0 <= j < |pairs| ==> pairs[j].1 in Grouped(pairs)[pairs[j].0]
  {
    forall name | name in Names(pairs) ensures ValuesOf(pairs, name) != [] {
      ValuesOfNonEmpty(pairs, name);
    }
    forall j | 0 <= j < |pairs| ensures pairs[j].1 in ValuesOf(pairs, pairs[j].0) {
      ValueInValuesOf(pairs, j);
    }
  }

  lemma {:induction false} ValueInValuesOf(pairs: seq<(string, string)>, j: nat)
    requires j < |pairs|
    ensures pairs[j].1 in ValuesOf(pairs, pairs[j].0)
  {
    if j > 0 {
      ValueInValuesOf(pairs[1..], j - 1);
    }
  }

  /** The fields `name=value` of raw (undecoded) pairs. */
  function EncodeFields(pairs: seq<(string, string)>): (fields: seq<string>)
    ensures |fields| == |pairs|
    ensures forall k :: 0 <= k < |pairs| ==> fields[k] == pairs[k].0 + "=" + pairs[k].1
  {
    if pairs == [] then [] else [pairs[0].0 + "=" + pairs[0].1] + EncodeFields(pairs[1..])
  }

  /** The query string `name1=value1&name2=value2&...` of raw pairs. */
  function EncodeQuery(pairs: seq<(string, string)>): string
  {
    Join(EncodeFields(pairs), '&')
  }

  /** Raw pairs with their names and values decoded as `parse_qsl` decodes them. */
  function DecodePairs(pairs: seq<(string, string)>, percentDecode: string -> string): seq<(string, string)>
  {
    if pairs == [] then []
    else [(DecodeComponent(pairs[0].0, percentDecode), DecodeComponent(pairs[0].1, percentDecode))]
         + DecodePairs(pairs[1..], percentDecode)
  }

  /** A field `name=value`, with no '=' in the name and a non-empty value, reads as that pair, decoded;
      a field with no '=', or with nothing after its first '=', is dropped. */
  lemma ParseFieldCases(name: string, value: string, percentDecode: string -> string)
    requires '=' !in name
    ensures value != "" ==>
      ParseField(name + "=" + value, percentDecode)
        == Some((DecodeComponent(name, percentDecode), DecodeComponent(value, percentDecode)))
    ensures ParseField(name + "=", percentDecode) == None
    ensures ParseField(name, percentDecode) == None
  {
    SplitOnceAt(name, value, '=');
    SplitOnceAt(name, "", '=');
    assert name + "=" == name + ['='] + "";
  }

  /** A name or value with neither '+' nor '%': decoding leaves it as it is. */
  predicate IsPlain(s: string) {
    '+' !in s && '%' !in s
  }

  lemma {:induction false} DecodePairsOfPlain(pairs: seq<(string, string)>, percentDecode: string -> string)
    requires forall j :: 0 <= j < |pairs| ==> IsPlain(pairs[j].0) && IsPlain(pairs[j].1)
    ensures DecodePairs(pairs, percentDecode) == pairs
  {
    if pairs != [] {
      var (name, value) := pairs[0];
      assert ReplaceChar(name, '+', ' ') == name;
      assert ReplaceChar(value, '+', ' ') == value;
      DecodePairsOfPlain(pairs[1..], percentDecode);
      assert pairs == [(name, value)] + pairs[1..];
    }
  }

  /** Round trip: encoding pairs whose names hold neither '&' nor '=' and whose values are
      non-empty and hold no '&', then parsing, gives back every pair, decoded, in order. */
  lemma QueryPairsOfEncoded(pairs: seq<(string, string)>, percentDecode: string -> string)
    requires forall j :: 0 <= j < |pairs| ==> '&' !in pairs[j].0 && '=' !in pairs[j].0
    requires forall j :: 0 <= j < |pairs| ==> '&' !in pairs[j].1 && pairs[j].1 != ""
    ensures QueryPairs(EncodeQuery(pairs), percentDecode) == DecodePairs(pairs, percentDecode)
  {
    var fields := EncodeFields(pairs);
    if pairs != [] {
      forall k | 0 <= k < |fields| ensures '&' !in fields[k] {
        assert fields[k] == pairs[k].0 + "=" + pairs[k].1;
      }
      SplitJoin(fields, '&');
      JoinCoversFirst(fields, '&');
      assert |fields[0]| > 0;
      assert Fields(EncodeQuery(pairs)) == fields;
    }
    EncodedFieldPairs(pairs, percentDecode);
  }

  lemma {:induction false} EncodedFieldPairs(pairs: seq<(string, string)>, percentDecode: string -> string)
    requires forall j :: 0 <= j < |pairs| ==> '=' !in pairs[j].0 && pairs[j].1 != ""
    ensures FieldPairs(EncodeFields(pairs), percentDecode) == DecodePairs(pairs, percentDecode)
  {
    if pairs != [] {
      var fields := EncodeFields(pairs);
      ParseFieldCases(pairs[0].0, pairs[0].1, percentDecode);
      EncodedFieldPairs(pairs[1..], percentDecode);
      assert fields[1..] == EncodeFields(pairs[1..]);
    }
  }

  /** A link that starts with a letter and holds no tab, carriage return or line feed
      reaches the scheme test unchanged. */
  lemma NothingStripped(url: string)
    requires url != [] && IsAsciiLetter(url[0])
    requires Avoids(url, UnsafeUrlChars)
    ensures RemoveChars(LStripC0(url), UnsafeUrlChars) == url
  {
  }

  /** A scheme made of scheme characters and starting with a letter is recognised and removed. */
  lemma SchemeRemoved(scheme: string, rest: string)
    requires IsScheme(scheme)
    ensures AfterScheme(scheme + ":" + rest) == rest
  {
    var u := scheme + ":" + rest;
    assert ':' !in scheme by {
      forall k | 0 <= k < |scheme| ensures scheme[k] != ':' {
        assert IsSchemeChar(scheme[k]);
      }
    }
    assert u[..|scheme|] == scheme;
    FindFirst(u, ':', |scheme|);
    assert u[|scheme| + 1..] == rest;
  }

  /** After "//", the network location runs up to the first '/', '?' or '#'. */
  lemma NetlocIs(host: string, tail: string)
    requires Avoids(host, NetlocDelimiters)
    requires tail == [] || tail[0] in NetlocDelimiters
    ensures SplitNetloc("//" + host + tail) == (host, tail)
  {
    var rest := "//" + host + tail;
    assert rest[..2] == "//";
    assert rest[2..] == host + tail;
    if tail == [] {
      assert host + tail == host;
    } else {
      FirstOfAt(host, tail, NetlocDelimiters);
    }
    assert (host + tail)[..|host|] == host;
    assert (host + tail)[|host|..] == tail;
  }

  /** A scheme `urlsplit` recognises: an ASCII letter followed by scheme characters. */
  predicate IsScheme(s: string) {
    s != [] && IsAsciiLetter(s[0]) && forall k :: 0 <= k < |s| ==> IsSchemeChar(s[k])
  }

  /** No character of `s` is in `cs`. */
  predicate Avoids(s: string, cs: set<char>) {
    forall k :: 0 <= k < |s| ==> s[k] !in cs
  }

  lemma AvoidsConcat(a: string, b: string, cs: set<char>)
    requires Avoids(a, cs) && Avoids(b, cs)
    ensures Avoids(a + b, cs)
  {
    forall k | 0 <= k < |a + b| ensures (a + b)[k] !in cs {
      if k >= |a| { assert (a + b)[k] == b[k - |a|]; }
    }
  }

  /** Round trip for `urlparse`: a link `scheme://host path?query[#fragment]` whose parts hold
      no character that would end them early gives back `query` as its query component. */
  lemma QueryOfLink(scheme: string, host: string, path: string, query: string, fragment: Option<string>)
    requires IsScheme(scheme)
    requires Avoids(host, NetlocDelimiters + {'[', ']'} + UnsafeUrlChars)
    requires path == [] || path[0] == '/'
    requires Avoids(path, {'?', '#'} + UnsafeUrlChars)
    requires Avoids(query, {'#'} + UnsafeUrlChars)
    requires fragment.Some? ==> Avoids(fragment.value, UnsafeUrlChars)
    ensures SplitQuery(scheme + "://" + host + path + "?" + query
                       + (if fragment.Some? then "#" + fragment.value else ""))
         == Success(query)
  {
    var fragmentPart := if fragment.Some? then "#" + fragment.value else "";
    var tail := path + "?" + query + fragmentPart;
    assert scheme + "://" + host + path + "?" + query + fragmentPart == scheme + "://" + host + tail;
    assert Avoids(fragmentPart, UnsafeUrlChars);
    TailIsSafe(path, query, fragmentPart);
    LinkSplits(scheme, host, tail);
    assert '[' !in host && ']' !in host;
    assert '?' !in path && '#' !in path && '#' !in query;
    QueryOfTail(path, query, fragment);
  }

  lemma TailIsSafe(path: string, query: string, fragmentPart: string)
    requires Avoids(path, UnsafeUrlChars) && Avoids(query, UnsafeUrlChars) && Avoids(fragmentPart, UnsafeUrlChars)
    ensures Avoids(path + "?" + query + fragmentPart, UnsafeUrlChars)
  {
    AvoidsConcat(path, "?", UnsafeUrlChars);
    AvoidsConcat(path + "?", query, UnsafeUrlChars);
    AvoidsConcat(path + "?" + query, fragmentPart, UnsafeUrlChars);
  }

  /** A link `scheme://host tail` reaches the network-location split unchanged, with the
      scheme removed, and splits into `host` and `tail`. */
  lemma LinkSplits(scheme: string, host: string, tail: string)
    requires IsScheme(scheme)
    requires Avoids(host, NetlocDelimiters + UnsafeUrlChars)
    requires tail == [] || tail[0] in NetlocDelimiters
    requires Avoids(tail, UnsafeUrlChars)
    ensures SplitNetloc(AfterScheme(RemoveChars(LStripC0(scheme + "://" + host + tail), UnsafeUrlChars)))
         == (host, tail)
  {
    var url := scheme + "://" + host + tail;
    assert url == scheme + ":" + ("//" + host + tail);
    assert Avoids(url, UnsafeUrlChars) by {
      assert Avoids(scheme, UnsafeUrlChars) by {
        forall k | 0 <= k < |scheme| ensures scheme[k] !in UnsafeUrlChars {
          assert IsSchemeChar(scheme[k]);
        }
      }
      AvoidsConcat(scheme, "://", UnsafeUrlChars);
      AvoidsConcat(scheme + "://", host, UnsafeUrlChars);
      AvoidsConcat(scheme + "://" + host, tail, UnsafeUrlChars);
    }
    NothingStripped(url);
    SchemeRemoved(scheme, "//" + host + tail);
    NetlocIs(host, tail);
  }

  lemma QueryOfTail(path: string, query: string, fragment: Option<string>)
    requires '?' !in path && '#' !in path && '#' !in query
    ensures QueryOf(path + "?" + query + (if fragment.Some? then "#" + fragment.value else "")) == query
  {
    var beforeFragment := path + "?" + query;
    assert '#' !in beforeFragment;
    FragmentCut(beforeFragment, fragment);
    SplitOnceAt(path, query, '?');
    assert beforeFragment == path + ['?'] + query;
  }

  lemma FragmentCut(beforeFragment: string, fragment: Option<string>)
    requires '#' !in beforeFragment
    ensures WithoutFragment(beforeFragment + (if fragment.Some? then "#" + fragment.value else ""))
         == beforeFragment
  {
    if fragment.Some? {
      SplitOnceAt(beforeFragment, fragment.value, '#');
      assert beforeFragment + ("#" + fragment.value) == beforeFragment + ['#'] + fragment.value;
    } else {
      assert beforeFragment + "" == beforeFragment;
    }
  }

  /** A network location with '[' and no ']' makes `urlparse` raise. */
  lemma UnbalancedBracketRejected(scheme: string, host: string, tail: string)
    requires IsScheme(scheme)
    requires Avoids(host, NetlocDelimiters + {']'} + UnsafeUrlChars) && '[' in host
    requires tail == [] || tail[0] in NetlocDelimiters
    requires Avoids(tail, UnsafeUrlChars)
    ensures SplitQuery(scheme + "://" + host + tail) == Failure(InvalidIPv6Url)
  {
    LinkSplits(scheme, host, tail);
    assert ']' !in host;
  }
}
