/**
 * The URL rules of the object-storage layer: `OssHelper.TryDecodeUrl`, which turns a
 * `file://` url of the local-file adapter into a network address, the first-match intranet
 * rewrite at the top of `OssHelper.ProxyDownload`, and the object url that
 * `AliyunAdapter.PutObject` reports and `AliyunAdapter.GetObjectKey` takes apart again.
 *
 * Settings and strings that may be `null` are `Option`s; an exception that the source catches
 * is modelled by the value its `catch` block produces.
 */
module Oss {
  import opened Wrappers
  import opened Strings
  import opened Collections

  /** `IntranetTransform`: replace `source` by `target` in the url. */
  datatype IntranetTransform = IntranetTransform(source: Option<string>, target: Option<string>)

  /** The fields of `OssSettings` that the url rules read. */
  datatype OssSettings = OssSettings(
    adapter: Option<string>,
    endpoint: Option<string>,
    ssl: bool,
    intranetTransforms: Option<seq<Option<IntranetTransform>>>)

  /** `Adapter.File`, the local-file adapter. */
  const FileAdapter := "File"

  /** The text of a string in an interpolated string: `null` shows as nothing. */
  function Text(s: Option<string>): string {
    s.GetOr("")
  }

  /**
   * `TryDecodeUrl(fileUrl, out networkUrl)`: with the File adapter, the endpoint without its
   * trailing '/' then '/' then the url with every ":/" removed. A null endpoint or url throws
   * inside the `try`, and is caught like every other adapter: `false` and the url itself.
   */
  function TryDecodeUrl(settings: OssSettings, fileUrl: Option<string>): (r: (bool, Option<string>))
    ensures r.0 <==> settings.adapter == Some(FileAdapter) && settings.endpoint.Some? && fileUrl.Some?
    ensures !r.0 ==> r.1 == fileUrl
    ensures r.0 ==> r.1.Some? && StartsWith(r.1.value, TrimEnd(settings.endpoint.value, '/') + "/")
  {
    if settings.adapter == Some(FileAdapter) && settings.endpoint.Some? && fileUrl.Some? then
      var prefix := TrimEnd(settings.endpoint.value, '/') + "/";
      var url := prefix + ReplaceAll(fileUrl.value, ":/", "");
      assert url[..|prefix|] == prefix;
      (true, Some(url))
    else
      (false, fileUrl)
  }

  /**
   * A url `file://rest` of the File adapter becomes `<endpoint>/file/rest`: the scheme's
   * ":/" is the only occurrence removed when `rest` holds none.
   */
  lemma DecodeFileUrl(settings: OssSettings, rest: string)
    requires settings.adapter == Some(FileAdapter) && settings.endpoint.Some?
    requires !Contains(rest, ":/")
    ensures TryDecodeUrl(settings, Some("file://" + rest)) ==
      (true, Some(TrimEnd(settings.endpoint.value, '/') + "/file/" + rest))
  {
    RemoveSchemeSeparator(rest);
    var prefix := TrimEnd(settings.endpoint.value, '/') + "/";
    assert prefix + ("file/" + rest) == TrimEnd(settings.endpoint.value, '/') + "/file/" + rest;
  }

  /** Removing ":/" from `file://rest` leaves `file/rest` when `rest` holds no ":/". */
  lemma RemoveSchemeSeparator(rest: string)
    requires !Contains(rest, ":/")
    ensures ReplaceAll("file://" + rest, ":/", "") == "file/" + rest
  {
    SchemeParts(rest);
    SlashThenAbsent(rest);
    RemoveOnce("file", ":/", "/" + rest);
  }

  lemma SchemeParts(rest: string)
    ensures "file://" + rest == "file" + ":/" + ("/" + rest)
    ensures "file" + ("/" + rest) == "file/" + rest
    ensures ':' !in "file" && ":/"[0] == ':' && ":/" != []
  {
  }

  /** The one occurrence after a word that cannot start one is removed, and nothing else is. */
  lemma RemoveOnce(w: string, oldValue: string, tail: string)
    requires oldValue != [] && oldValue[0] !in w && !Contains(tail, oldValue)
    ensures ReplaceAll(w + oldValue + tail, oldValue, "") == w + tail
  {
    assert w + oldValue + tail == w + (oldValue + tail);
    ReplaceAllSkipAll(w, oldValue + tail, oldValue, "");
    ReplaceAllFront(oldValue, tail, "");
    ReplaceAllAbsent(tail, oldValue, "");
  }

  lemma SlashThenAbsent(rest: string)
    requires !Contains(rest, ":/")
    ensures !Contains("/" + rest, ":/")
  {
    var tail := "/" + rest;
    assert tail[0] == '/' && !StartsWith(tail, ":/");
    assert tail[1..] == rest;
  }

  /** What aborts the rewrite: the exceptions thrown inside `ProxyDownload`'s `try`. */
  datatype Fault =
    | NullReference   // a null transform, or a null url to search in
    | ArgumentNull    // `url.Contains(null)`
    | EmptyArgument   // `url.Replace("", ...)`: an empty source occurs in every url

  /** The foreach over the transforms, stopping at the first whose source occurs in the url. */
  function RewriteFirst(transforms: seq<Option<IntranetTransform>>, url: Option<string>): Result<Option<string>, Fault>
    decreases |transforms|
  {
    if transforms == [] then Success(url)
    else if transforms[0].None? || url.None? then Failure(NullReference)
    else if transforms[0].value.source.None? then Failure(ArgumentNull)
    else
      var source := transforms[0].value.source.value;
      if !Contains(url.value, source) then RewriteFirst(transforms[1..], url)
      else if source == [] then Failure(EmptyArgument)
      else Success(Some(ReplaceAll(url.value, source, Text(transforms[0].value.target))))
  }

  /** The url `ProxyDownload` downloads from, or the fault that sends it to its `catch`. */
  function Rewrite(settings: OssSettings, url: Option<string>): Result<Option<string>, Fault> {
    if IsNotNullOrEmpty(settings.intranetTransforms) then RewriteFirst(settings.intranetTransforms.value, url)
    else Success(url)
  }

  /** The rewrite loop of `ProxyDownload`. */
  method RewriteUrl(settings: OssSettings, url: Option<string>) returns (r: Result<Option<string>, Fault>)
    ensures r == Rewrite(settings, url)
  {
    var current := url;
    if IsNotNullOrEmpty(settings.intranetTransforms) {
      var items := settings.intranetTransforms.value;
      var i := 0;
      while i < |items|
        invariant 0 <= i <= |items|
        invariant current == url
        invariant RewriteFirst(items[i..], url) == RewriteFirst(items, url)
      {
        var item := items[i];
        if item.None? || current.None? {
          return Failure(NullReference);
        }
        if item.value.source.None? {
          return Failure(ArgumentNull);
        }
        var source := item.value.source.value;
        if Contains(current.value, source) {
          if source == [] {
            return Failure(EmptyArgument);
          }
          current := Some(ReplaceAll(current.value, source, Text(item.value.target)));
          break;
        }
        assert items[i..][1..] == items[i + 1..];
        i := i + 1;
      }
    }
    return Success(current);
  }

  /** The transform is consulted and its source does not occur in the url. */
  predicate Misses(transform: Option<IntranetTransform>, url: string) {
    transform.Some? && transform.value.source.Some? && !Contains(url, transform.value.source.value)
  }

  /** With no transforms configured (`null` or empty), every url is downloaded as given. */
  lemma RewriteWithoutTransforms(settings: OssSettings, url: Option<string>)
    requires IsNullOrEmpty(settings.intranetTransforms)
    ensures Rewrite(settings, url) == Success(url)
  {
  }

  /** When no source occurs in the url, the url is downloaded as given. */
  lemma {:induction false} RewriteNoMatch(transforms: seq<Option<IntranetTransform>>, url: string)
    requires forall k :: 0 <= k < |transforms| ==> Misses(transforms[k], url)
    ensures RewriteFirst(transforms, Some(url)) == Success(Some(url))
    decreases |transforms|
  {
    if transforms != [] {
      RewriteNoMatch(transforms[1..], url);
    }
  }

  /**
   * Only the first transform whose source occurs in the url applies: every occurrence of its
   * source is replaced by its target (nothing for a null target), and the transforms after
   * it are never consulted.
   */
  lemma {:induction false} RewriteFirstMatch(
    before: seq<Option<IntranetTransform>>, source: string, target: Option<string>,
    after: seq<Option<IntranetTransform>>, url: string)
    requires forall k :: 0 <= k < |before| ==> Misses(before[k], url)
    requires source != [] && Contains(url, source)
    ensures RewriteFirst(before + [Some(IntranetTransform(Some(source), target))] + after, Some(url))
      == Success(Some(ReplaceAll(url, source, Text(target))))
    decreases |before|
  {
    var transforms := before + [Some(IntranetTransform(Some(source), target))] + after;
    if before != [] {
      assert transforms[1..] == before[1..] + [Some(IntranetTransform(Some(source), target))] + after;
      RewriteFirstMatch(before[1..], source, target, after, url);
    }
  }

  /** The scheme of the object urls. */
  function Scheme(ssl: bool): string {
    if ssl then "https" else "http"
  }

  /** The prefix of every object url of a bucket: `{scheme}://{bucket}.{Endpoint}/`. */
  function ObjectUrlPrefix(settings: OssSettings, bucket: Option<string>): (prefix: string)
    ensures |prefix| > 0
  {
    Scheme(settings.ssl) + "://" + Text(bucket) + "." + Text(settings.endpoint) + "/"
  }

  /** The url `AliyunAdapter.PutObject(bucket, key, content)` reports for a stored object. */
  function PutObjectUrl(settings: OssSettings, bucket: Option<string>, key: Option<string>): string {
    Scheme(settings.ssl) + "://" + Text(bucket) + "." + Text(settings.endpoint) + "/" + Text(key)
  }

  /**
   * `AliyunAdapter.GetObjectKey(bucket, url)` as written: for a url that starts with the
   * prefix, the url with every occurrence of the prefix removed; otherwise (a null url
   * included, whose exception is caught) the empty string.
   */
  function GetObjectKeyAsWritten(settings: OssSettings, bucket: Option<string>, url: Option<string>): (key: string)
    ensures url.None? || !StartsWith(url.value, ObjectUrlPrefix(settings, bucket)) ==> key == ""
  {
    var prefix := ObjectUrlPrefix(settings, bucket);
    if url.Some? && StartsWith(url.value, prefix) then ReplaceAll(url.value, prefix, "") else ""
  }

  /**
   * `GetObjectKey` as intended: the url with its prefix cut off once, so that it undoes
   * `PutObject`'s url for every key.
   */
  function GetObjectKey(settings: OssSettings, bucket: Option<string>, url: Option<string>): (key: string)
    ensures url.None? || !StartsWith(url.value, ObjectUrlPrefix(settings, bucket)) ==> key == ""
    ensures url.Some? && StartsWith(url.value, ObjectUrlPrefix(settings, bucket)) ==>
      url.value == ObjectUrlPrefix(settings, bucket) + key
  {
    var prefix := ObjectUrlPrefix(settings, bucket);
    if url.Some? && StartsWith(url.value, prefix) then
      assert url.value == prefix + url.value[|prefix|..];
      url.value[|prefix|..]
    else ""
  }

  /** The key of a stored object is recovered from the url `PutObject` reported for it. */
  lemma GetObjectKeyOfPutObjectUrl(settings: OssSettings, bucket: Option<string>, key: string)
    ensures GetObjectKey(settings, bucket, Some(PutObjectUrl(settings, bucket, Some(key)))) == key
  {
    var prefix := ObjectUrlPrefix(settings, bucket);
    assert PutObjectUrl(settings, bucket, Some(key)) == prefix + key;
    assert (prefix + key)[..|prefix|] == prefix;
  }

  /**
   * The code as written agrees with the intended one as long as the key holds no copy of
   * the prefix.
   */
  lemma GetObjectKeyAsWrittenRoundTrip(settings: OssSettings, bucket: Option<string>, key: string)
    requires !Contains(key, ObjectUrlPrefix(settings, bucket))
    ensures GetObjectKeyAsWritten(settings, bucket, Some(PutObjectUrl(settings, bucket, Some(key)))) == key
  {
    var prefix := ObjectUrlPrefix(settings, bucket);
    assert PutObjectUrl(settings, bucket, Some(key)) == prefix + key;
    assert (prefix + key)[..|prefix|] == prefix;
    ReplaceAllFront(prefix, key, "");
    ReplaceAllAbsent(key, prefix, "");
  }

  /**
   * As written, a key that holds the prefix is not recovered: the key "a/http://b.e/" of bucket
   * "b" at endpoint "e" comes back as "a/".
   */
  lemma GetObjectKeyAsWrittenLosesPrefixInKey()
    ensures var settings := OssSettings(None, Some("e"), false, None);
      ObjectUrlPrefix(settings, Some("b")) == "http://b.e/"
      && GetObjectKeyAsWritten(settings, Some("b"), Some(PutObjectUrl(settings, Some("b"), Some("a/http://b.e/")))) == "a/"
  {
    var settings := OssSettings(None, Some("e"), false, None);
    var prefix := "http://b.e/";
    assert ObjectUrlPrefix(settings, Some("b")) == prefix;
    assert PutObjectUrl(settings, Some("b"), Some("a/http://b.e/")) == prefix + "a/http://b.e/";
    assert StartsWith(prefix + "a/http://b.e/", prefix);
    ReplaceAllFront(prefix, "a/http://b.e/", "");
    PrefixInKeyRemoved();
  }

  /** Removing "http://b.e/" from "a/http://b.e/" leaves "a/". */
  lemma PrefixInKeyRemoved()
    ensures ReplaceAll("a/http://b.e/", "http://b.e/", "") == "a/"
  {
    var prefix := "http://b.e/";
    KeyParts();
    ReplaceAllSkipAll("a/", prefix, prefix, "");
    ReplaceAllFront(prefix, "", "");
  }

  lemma KeyParts()
    ensures "a/http://b.e/" == "a/" + "http://b.e/"
    ensures "http://b.e/" == "http://b.e/" + ""
    ensures 'h' !in "a/"
  {
  }
}
