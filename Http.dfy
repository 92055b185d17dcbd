/**
 * The request-builder part of `HttpExtensions`: the fluent methods that fill an
 * `HttpRequestContext` in place (path segments, headers, query parameters, body) and the
 * relative URI that `CreateHttpRequestMessage` composes from segments and query parameters.
 *
 * A `Dictionary<string, object>` is a sequence of key/value pairs in insertion order (a .NET
 * dictionary that is only ever added to enumerates in that order); each value is the text the
 * request shows for it.
 */
module Http {
  import opened Wrappers
  import opened Strings
  import opened Collections

  type Dictionary = seq<(string, string)>

  function Keys(d: Dictionary): (keys: seq<string>)
    ensures |keys| == |d| && forall i :: 0 <= i < |d| ==> keys[i] == d[i].0
  {
    seq(|d|, i requires 0 <= i < |d| => d[i].0)
  }

  /** No key occurs twice: what every .NET dictionary guarantees. */
  predicate UniqueKeys(d: Dictionary) {
    forall i, j :: 0 <= i < j < |d| ==> d[i].0 != d[j].0
  }

  /** `d.ContainsKey(key)` */
  predicate ContainsKey(d: Dictionary, key: string) {
    key in Keys(d)
  }

  /** The value stored under `key`, if any. */
  function Lookup(d: Dictionary, key: string): (r: Option<string>)
    ensures r.Some? <==> ContainsKey(d, key)
    ensures r.Some? ==> (key, r.value) in d
    decreases |d|
  {
    if d == [] then None
    else if d[0].0 == key then Some(d[0].1)
    else
      assert Keys(d) == [d[0].0] + Keys(d[1..]);
      Lookup(d[1..], key)
  }

  /** `d[key] = value` for a key already present: the value is replaced where it stands. */
  function SetValue(d: Dictionary, key: string, value: string): (r: Dictionary)
    requires ContainsKey(d, key)
    ensures Keys(r) == Keys(d)
    decreases |d|
  {
    if d[0].0 == key then [(key, value)] + d[1..]
    else
      assert Keys(d) == [d[0].0] + Keys(d[1..]);
      assert Keys([d[0]] + SetValue(d[1..], key, value)) == [d[0].0] + Keys(SetValue(d[1..], key, value));
      [d[0]] + SetValue(d[1..], key, value)
  }

  /** The upsert of the builder loops: replace the value of a present key, otherwise `Add`. */
  function Upsert(d: Dictionary, key: string, value: string): Dictionary {
    if ContainsKey(d, key) then SetValue(d, key, value) else d + [(key, value)]
  }

  /** Upserting every pair of `source` in its order. */
  function UpsertAll(d: Dictionary, source: Dictionary): Dictionary
    decreases |source|
  {
    if source == [] then d
    else
      var n := |source| - 1;
      Upsert(UpsertAll(d, source[..n]), source[n].0, source[n].1)
  }

  lemma {:induction false} SetValueLookup(d: Dictionary, key: string, value: string, k: string)
    requires ContainsKey(d, key)
    ensures Lookup(SetValue(d, key, value), k) == if k == key then Some(value) else Lookup(d, k)
    decreases |d|
  {
    if d[0].0 != key {
      assert Keys(d) == [d[0].0] + Keys(d[1..]);
      SetValueLookup(d[1..], key, value, k);
    }
  }

  lemma LookupAppend(d: Dictionary, key: string, value: string, k: string)
    ensures Lookup(d + [(key, value)], k) == if ContainsKey(d, k) then Lookup(d, k) else if k == key then Some(value) else None
    decreases |d|
  {
    if d != [] {
      assert (d + [(key, value)])[1..] == d[1..] + [(key, value)];
      assert Keys(d) == [d[0].0] + Keys(d[1..]);
      LookupAppend(d[1..], key, value, k);
    }
  }

  /**
   * After an upsert the key maps to the new value and every other key keeps its value;
   * the keys already present keep their places and stay unique.
   */
  lemma UpsertLookup(d: Dictionary, key: string, value: string, k: string)
    ensures Lookup(Upsert(d, key, value), k) == if k == key then Some(value) else Lookup(d, k)
    ensures Keys(d) <= Keys(Upsert(d, key, value))
    ensures UniqueKeys(d) ==> UniqueKeys(Upsert(d, key, value))
  {
    var r := Upsert(d, key, value);
    if ContainsKey(d, key) {
      SetValueLookup(d, key, value, k);
      if UniqueKeys(d) {
        assert forall i :: 0 <= i < |d| ==> r[i].0 == Keys(r)[i] == Keys(d)[i] == d[i].0;
      }
    } else {
      LookupAppend(d, key, value, k);
      assert Keys(r) == Keys(d) + [key];
      if UniqueKeys(d) {
        assert forall i :: 0 <= i < |d| ==> d[i].0 == Keys(d)[i] != key;
      }
    }
  }

  /**
   * After upserting a dictionary, each of its keys maps to its value and every other key keeps
   * the value it had; existing keys keep their places and keys stay unique.
   */
  lemma {:induction false} UpsertAllLookup(d: Dictionary, source: Dictionary, k: string)
    requires UniqueKeys(source)
    ensures Lookup(UpsertAll(d, source), k) == if ContainsKey(source, k) then Lookup(source, k) else Lookup(d, k)
    ensures Keys(d) <= Keys(UpsertAll(d, source))
    ensures UniqueKeys(d) ==> UniqueKeys(UpsertAll(d, source))
    decreases |source|
  {
    if source != [] {
      var n := |source| - 1;
      var pre := source[..n];
      assert source == pre + [(source[n].0, source[n].1)];
      assert UniqueKeys(pre);
      UpsertAllLookup(d, pre, k);
      UpsertAllStep(d, pre, source[n].0, source[n].1, k);
    }
  }

  /** The inductive step of `UpsertAllLookup`: one more pair, with a key new to the source. */
  lemma UpsertAllStep(d: Dictionary, pre: Dictionary, key: string, value: string, k: string)
    requires UniqueKeys(pre + [(key, value)])
    requires Lookup(UpsertAll(d, pre), k) == if ContainsKey(pre, k) then Lookup(pre, k) else Lookup(d, k)
    requires Keys(d) <= Keys(UpsertAll(d, pre))
    requires UniqueKeys(d) ==> UniqueKeys(UpsertAll(d, pre))
    ensures var source := pre + [(key, value)];
      && Lookup(UpsertAll(d, source), k) == (if ContainsKey(source, k) then Lookup(source, k) else Lookup(d, k))
      && Keys(d) <= Keys(UpsertAll(d, source))
      && (UniqueKeys(d) ==> UniqueKeys(UpsertAll(d, source)))
  {
    var source := pre + [(key, value)];
    assert source[..|source| - 1] == pre;
    assert UpsertAll(d, source) == Upsert(UpsertAll(d, pre), key, value);
    UpsertLookup(UpsertAll(d, pre), key, value, k);
    LastKeyIsNew(pre, key, value);
    LookupAppend(pre, key, value, k);
    KeysAppend(pre, key, value);
  }

  lemma KeysAppend(d: Dictionary, key: string, value: string)
    ensures Keys(d + [(key, value)]) == Keys(d) + [key]
  {
    var e := d + [(key, value)];
    assert forall i :: 0 <= i < |e| ==> Keys(e)[i] == e[i].0;
  }

  /** The last key of a dictionary with unique keys is not among the keys before it. */
  lemma LastKeyIsNew(d: Dictionary, key: string, value: string)
    requires UniqueKeys(d + [(key, value)])
    ensures !ContainsKey(d, key)
  {
    var e := d + [(key, value)];
    assert forall i :: 0 <= i < |d| ==> Keys(d)[i] == e[i].0 != e[|d|].0;
  }

  /** `Dictionary.Add` guarded by `ContainsKey`, as for the default headers. */
  function AddIfAbsent(d: Dictionary, key: string, value: string): Dictionary {
    if ContainsKey(d, key) then d else d + [(key, value)]
  }

  const AcceptHeader := "Accept"
  const DefaultAccept := "*/*"
  const UserAgentHeader := "User-Agent"
  const DefaultUserAgent := "Mozilla/5.0 (Windows NT 10.0; Win64; x64) AppleWebKit/537.36 (KHTML, like Gecko) Chrome/102.0.5005.124 Safari/537.36 Edg/102.0.1245.44"

  /** The headers after `WithHeaders(headers)` on a context whose headers were `current`. */
  function HeadersAfter(current: Option<Dictionary>, headers: Option<Dictionary>): Dictionary {
    var base := current.GetOr([]);
    var defaulted := AddIfAbsent(AddIfAbsent(base, AcceptHeader, DefaultAccept), UserAgentHeader, DefaultUserAgent);
    UpsertAll(defaulted, headers.GetOr([]))
  }

  /**
   * After `WithHeaders`: a key given maps to the given value; any other key keeps its previous
   * value; an absent `Accept` or `User-Agent` gets its default. So both are always present.
   */
  lemma HeadersAfterLookup(current: Option<Dictionary>, headers: Option<Dictionary>, k: string)
    requires headers.Some? ==> UniqueKeys(headers.value)
    ensures Lookup(HeadersAfter(current, headers), k) ==
      if headers.Some? && ContainsKey(headers.value, k) then Lookup(headers.value, k)
      else if current.Some? && ContainsKey(current.value, k) then Lookup(current.value, k)
      else if k == AcceptHeader then Some(DefaultAccept)
      else if k == UserAgentHeader then Some(DefaultUserAgent)
      else None
    ensures ContainsKey(HeadersAfter(current, headers), AcceptHeader)
    ensures ContainsKey(HeadersAfter(current, headers), UserAgentHeader)
  {
    var base := current.GetOr([]);
    var step := AddIfAbsent(base, AcceptHeader, DefaultAccept);
    var defaulted := AddIfAbsent(step, UserAgentHeader, DefaultUserAgent);
    var source := headers.GetOr([]);
    LookupAppend(base, AcceptHeader, DefaultAccept, k);
    LookupAppend(step, UserAgentHeader, DefaultUserAgent, k);
    UpsertAllLookup(defaulted, source, k);
    LookupAppend(base, AcceptHeader, DefaultAccept, UserAgentHeader);
    LookupAppend(base, AcceptHeader, DefaultAccept, AcceptHeader);
    LookupAppend(step, UserAgentHeader, DefaultUserAgent, AcceptHeader);
    LookupAppend(step, UserAgentHeader, DefaultUserAgent, UserAgentHeader);
    UpsertAllLookup(defaulted, source, AcceptHeader);
    UpsertAllLookup(defaulted, source, UserAgentHeader);
  }

  /** The query parameters after `WithQueryParams(parameters)`. */
  function QueryParamsAfter(current: Option<Dictionary>, parameters: Option<Dictionary>): Option<Dictionary> {
    if parameters.None? then current else Some(UpsertAll(current.GetOr([]), parameters.value))
  }

  /**
   * `WithQueryParams(null)` leaves the parameters as they were, even `null`; otherwise the
   * given keys map to the given values and every other key keeps its value.
   */
  lemma QueryParamsAfterLookup(current: Option<Dictionary>, parameters: Option<Dictionary>, k: string)
    requires parameters.Some? ==> UniqueKeys(parameters.value)
    ensures parameters.None? ==> QueryParamsAfter(current, parameters) == current
    ensures parameters.Some? ==> QueryParamsAfter(current, parameters).Some?
    ensures parameters.Some? ==> (Lookup(QueryParamsAfter(current, parameters).value, k) ==
      if ContainsKey(parameters.value, k) then Lookup(parameters.value, k)
      else if current.Some? then Lookup(current.value, k)
      else None)
  {
    if parameters.Some? {
      UpsertAllLookup(current.GetOr([]), parameters.value, k);
    }
  }

  /** One appended segment: `segment.Trim('/').Trim('\\')`. */
  function CleanSegment(segment: string): string {
    Trim(Trim(segment, '/'), '\\')
  }

  predicate Slash(c: char) {
    c == '/' || c == '\\'
  }

  /** `r` is the slice of `s` at `i` and everything of `s` around it is a slash or a backslash. */
  predicate StrippedAt(s: string, r: string, i: int) {
    && OccursAt(s, r, i)
    && (forall k :: 0 <= k < i ==> Slash(s[k]))
    && (forall k :: i + |r| <= k < |s| ==> Slash(s[k]))
  }

  /**
   * A cleaned segment is a slice of the input with only slashes and backslashes cut away
   * around it, and it neither starts nor ends with a backslash.
   */
  lemma CleanSegmentShape(segment: string)
    ensures exists i :: StrippedAt(segment, CleanSegment(segment), i)
    ensures var r := CleanSegment(segment); r == [] || (r[0] != '\\' && r[|r| - 1] != '\\')
  {
    var once := Trim(segment, '/');
    TrimShape(segment, '/');
    TrimShape(once, '\\');
    StrippedTwice(segment, once, CleanSegment(segment), TrimOffset(segment, '/'), TrimOffset(once, '\\'));
  }

  /** Trimming slashes and then backslashes leaves a slice with only slashes and backslashes around it. */
  lemma StrippedTwice(s: string, once: string, r: string, i: int, j: int)
    requires TrimmedAt(s, once, '/', i) && TrimmedAt(once, r, '\\', j)
    ensures StrippedAt(s, r, i + j)
  {
    assert r == s[i + j..i + j + |r|] by {
      forall k | 0 <= k < |r|
        ensures r[k] == s[i + j + k]
      {
        assert r[k] == once[j + k];
        assert once[j + k] == s[i + j + k];
      }
    }
    assert forall k :: i <= k < i + j ==> Slash(s[k]) by {
      forall k | i <= k < i + j
        ensures Slash(s[k])
      {
        assert s[k] == once[k - i];
      }
    }
    assert forall k :: i + j + |r| <= k < |s| ==> Slash(s[k]) by {
      forall k | i + j + |r| <= k < |s|
        ensures Slash(s[k])
      {
        if k < i + |once| {
          assert s[k] == once[k - i];
        }
      }
    }
  }

  function CleanSegments(segments: seq<string>): (r: seq<string>)
    ensures |r| == |segments| && forall i :: 0 <= i < |segments| ==> r[i] == CleanSegment(segments[i])
  {
    seq(|segments|, i requires 0 <= i < |segments| => CleanSegment(segments[i]))
  }

  /** The segments after `AppendSegments(segments)`. */
  function SegmentsAfter(current: Option<seq<string>>, segments: Option<seq<string>>): Option<seq<string>> {
    if segments.None? then current else Some(current.GetOr([]) + CleanSegments(segments.value))
  }

  /**
   * `AppendSegments(null)` changes nothing; otherwise the list (created when `null`) keeps its
   * elements and grows by exactly the given segments, each cleaned, in their order.
   */
  lemma SegmentsAfterShape(current: Option<seq<string>>, segments: Option<seq<string>>)
    ensures segments.None? ==> SegmentsAfter(current, segments) == current
    ensures segments.Some? ==> SegmentsAfter(current, segments).Some?
    ensures segments.Some? ==>
      var before := current.GetOr([]);
      var after := SegmentsAfter(current, segments).value;
      && |after| == |before| + |segments.value|
      && after[..|before|] == before
      && forall i :: 0 <= i < |segments.value| ==> after[|before| + i] == CleanSegment(segments.value[i])
  {
    if segments.Some? {
      var before, cleaned := current.GetOr([]), CleanSegments(segments.value);
      var after := SegmentsAfter(current, segments).value;
      assert after == before + cleaned;
      assert forall i :: 0 <= i < |cleaned| ==> after[|before| + i] == cleaned[i];
    }
  }

  /** The body of a request: a string with its encoding name and media type, or raw bytes. */
  datatype Content =
    | StringContent(text: string, encoding: string, mediaType: string)
    | BytesContent(bytes: seq<bv8>)

  const Utf8 := "utf-8"
  const Json := "application/json"

  /** The fields of `HttpRequestContext` that the builders fill. */
  class HttpRequestContext {
    var segments: Option<seq<string>>
    var queryParams: Option<Dictionary>
    var headers: Option<Dictionary>
    var content: Option<Content>

    constructor ()
      ensures segments == None && queryParams == None && headers == None && content == None
    {
      segments := None;
      queryParams := None;
      headers := None;
      content := None;
    }
  }

  /** `context.AppendSegments(segments)` */
  method AppendSegments(context: HttpRequestContext, segments: Option<seq<string>>) returns (r: HttpRequestContext)
    modifies context
    ensures r == context
    ensures context.segments == SegmentsAfter(old(context.segments), segments)
    ensures context.queryParams == old(context.queryParams)
    ensures context.headers == old(context.headers)
    ensures context.content == old(context.content)
  {
    if segments.Some? {
      context.segments := Some(context.segments.GetOr([]));
      ghost var start := context.segments.value;
      var items := segments.value;
      assert start + CleanSegments(items[..0]) == start;
      for i := 0 to |items|
        invariant context.segments == Some(start + CleanSegments(items[..i]))
        invariant context.queryParams == old(context.queryParams)
        invariant context.headers == old(context.headers)
        invariant context.content == old(context.content)
      {
        assert CleanSegments(items[..i + 1]) == CleanSegments(items[..i]) + [CleanSegment(items[i])];
        assert start + CleanSegments(items[..i + 1]) == (start + CleanSegments(items[..i])) + [CleanSegment(items[i])];
        context.segments := Some(context.segments.value + [CleanSegment(items[i])]);
      }
      assert items[..|items|] == items;
    }
    return context;
  }

  /** The shared loop of `WithHeaders` and `WithQueryParams`: upsert each pair of `source`. */
  method UpsertEach(d: Dictionary, source: Dictionary) returns (r: Dictionary)
    ensures r == UpsertAll(d, source)
  {
    r := d;
    for i := 0 to |source|
      invariant r == UpsertAll(d, source[..i])
    {
      assert source[..i + 1][..i] == source[..i];
      var (key, value) := source[i];
      if ContainsKey(r, key) {
        r := SetValue(r, key, value);
      } else {
        r := r + [(key, value)];
      }
    }
    assert source[..|source|] == source;
  }

  /** `context.WithHeaders(headers)` */
  method WithHeaders(context: HttpRequestContext, headers: Option<Dictionary>) returns (r: HttpRequestContext)
    modifies context
    ensures r == context
    ensures context.headers == Some(HeadersAfter(old(context.headers), headers))
    ensures context.segments == old(context.segments)
    ensures context.queryParams == old(context.queryParams)
    ensures context.content == old(context.content)
  {
    var current := context.headers.GetOr([]);
    if !ContainsKey(current, AcceptHeader) {
      current := current + [(AcceptHeader, DefaultAccept)];
    }
    if !ContainsKey(current, UserAgentHeader) {
      current := current + [(UserAgentHeader, DefaultUserAgent)];
    }
    if headers.Some? {
      current := UpsertEach(current, headers.value);
    }
    context.headers := Some(current);
    return context;
  }

  /** `context.WithQueryParams(parameters)` */
  method WithQueryParams(context: HttpRequestContext, parameters: Option<Dictionary>) returns (r: HttpRequestContext)
    modifies context
    ensures r == context
    ensures context.queryParams == QueryParamsAfter(old(context.queryParams), parameters)
    ensures context.segments == old(context.segments)
    ensures context.headers == old(context.headers)
    ensures context.content == old(context.content)
  {
    if parameters.Some? {
      var current := context.queryParams.GetOr([]);
      current := UpsertEach(current, parameters.value);
      context.queryParams := Some(current);
    }
    return context;
  }

  /** `context.WithContent(string content)`: UTF-8 JSON text. */
  method WithStringContent(context: HttpRequestContext, content: Option<string>) returns (r: HttpRequestContext)
    modifies context
    ensures r == context
    ensures context.content == if content.Some? then Some(StringContent(content.value, Utf8, Json)) else old(context.content)
    ensures context.segments == old(context.segments)
    ensures context.queryParams == old(context.queryParams)
    ensures context.headers == old(context.headers)
  {
    if content.Some? {
      context.content := Some(StringContent(content.value, Utf8, Json));
    }
    return context;
  }

  /** `context.WithContent(string content, Encoding encoding, string mediaType)`; the media type defaults to `Json`. */
  method WithEncodedContent(context: HttpRequestContext, content: Option<string>, encoding: string, mediaType: string)
    returns (r: HttpRequestContext)
    modifies context
    ensures r == context
    ensures context.content == if content.Some? then Some(StringContent(content.value, encoding, mediaType)) else old(context.content)
    ensures context.segments == old(context.segments)
    ensures context.queryParams == old(context.queryParams)
    ensures context.headers == old(context.headers)
  {
    if content.Some? {
      context.content := Some(StringContent(content.value, encoding, mediaType));
    }
    return context;
  }

  /** `context.WithContent(HttpContent content)` */
  method WithHttpContent(context: HttpRequestContext, content: Option<Content>) returns (r: HttpRequestContext)
    modifies context
    ensures r == context
    ensures context.content == if content.Some? then content else old(context.content)
    ensures context.segments == old(context.segments)
    ensures context.queryParams == old(context.queryParams)
    ensures context.headers == old(context.headers)
  {
    if content.Some? {
      context.content := content;
    }
    return context;
  }

  /** The `key=value` items of the query string. */
  function QueryPairs(parameters: Dictionary): (pairs: seq<string>)
    ensures |pairs| == |parameters|
    ensures forall i :: 0 <= i < |parameters| ==> pairs[i] == parameters[i].0 + "=" + parameters[i].1
  {
    seq(|parameters|, i requires 0 <= i < |parameters| => parameters[i].0 + "=" + parameters[i].1)
  }

  function Path(segments: Option<seq<string>>): string {
    if IsNotNullOrEmpty(segments) then Join("/", segments.value) else ""
  }

  /** The relative URI of `CreateHttpRequestMessage`, resolved against the base URI. */
  function RelativeUri(segments: Option<seq<string>>, queryParams: Option<Dictionary>): string {
    if IsNotNullOrEmpty(queryParams) then Path(segments) + "?" + Join("&", QueryPairs(queryParams.value))
    else Path(segments)
  }

  /**
   * Without query parameters the relative URI is the path alone: empty with no segments, and
   * otherwise splitting it at '/' gives the segments back when none of them holds a '/'.
   */
  lemma RelativeUriPath(segments: Option<seq<string>>, queryParams: Option<Dictionary>)
    requires IsNullOrEmpty(queryParams)
    requires segments.Some? ==> forall k :: 0 <= k < |segments.value| ==> '/' !in segments.value[k]
    ensures IsNullOrEmpty(segments) ==> RelativeUri(segments, queryParams) == ""
    ensures IsNotNullOrEmpty(segments) ==> Split(RelativeUri(segments, queryParams), '/') == segments.value
  {
    if IsNotNullOrEmpty(segments) {
      SplitJoin(segments.value, '/');
    }
  }

  /**
   * With query parameters the first '?' ends the path (when no segment holds one), and the
   * rest splits at '&' into the `key=value` items in dictionary order (when no key or value
   * holds an '&').
   */
  lemma RelativeUriQuery(segments: Option<seq<string>>, queryParams: Option<Dictionary>)
    requires IsNotNullOrEmpty(queryParams)
    requires segments.Some? ==> forall k :: 0 <= k < |segments.value| ==> '?' !in segments.value[k]
    requires forall k :: 0 <= k < |queryParams.value| ==> '&' !in queryParams.value[k].0 && '&' !in queryParams.value[k].1
    ensures var uri := RelativeUri(segments, queryParams);
      var i := IndexOf(uri, '?');
      && i == |Path(segments)| && uri[..i] == Path(segments)
      && Split(uri[i + 1..], '&') == QueryPairs(queryParams.value)
  {
    var path := Path(segments);
    var pairs := QueryPairs(queryParams.value);
    var query := Join("&", pairs);
    if IsNotNullOrEmpty(segments) {
      JoinAvoids("/", segments.value, '?');
    }
    assert '?' !in path;
    FirstSeparator(path, '?', query);
    var uri := path + "?" + query;
    assert uri[..|path|] == path && uri[|path| + 1..] == query;
    forall k | 0 <= k < |pairs|
      ensures '&' !in pairs[k]
    {
      assert pairs[k] == queryParams.value[k].0 + "=" + queryParams.value[k].1;
    }
    SplitJoin(pairs, '&');
  }
}
