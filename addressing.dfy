/**
 * Queue addresses: the check the constructor makes of the input queue address, the queue name
 * taken from a queue URL, and the resolution of an address to a queue URL through a cache
 * keyed by the lower-cased address.
 */
module Addressing {
  import opened Wrappers
  import opened Messages
  import Platform
  import Provider
  import Batching

  /**
   * The constructor's check of the input queue address: no address, and any address without a
   * '/', is accepted; one with a '/' must be a well-formed absolute URI.
   */
  function CheckInputQueueAddress(address: Option<string>, lib: Platform.Library): (r: Result<Option<string>, TransportError>)
    ensures r.Failure? <==> address.Some? && '/' in address.value && !lib.isWellFormedAbsoluteUri(address.value)
    ensures r.Success? ==> r.value == address
    ensures r.Failure? ==> r.error == InvalidInputQueueAddress(address.value)
  {
    match address
    case None => Success(None)
    case Some(a) =>
      if '/' in a && !lib.isWellFormedAbsoluteUri(a) then Failure(InvalidInputQueueAddress(a)) else Success(address)
  }

  /** An address that starts with '/', such as "/inputqueue", has no scheme and is refused. */
  lemma LeadingSlashIsRefused(address: string, lib: Platform.Library)
    requires Platform.AbsoluteUrisHaveSchemes(lib)
    requires address != [] && address[0] == '/'
    ensures CheckInputQueueAddress(Some(address), lib) == Failure(InvalidInputQueueAddress(address))
  {
    assert '/' in address;
    assert !Platform.IsAsciiLetter(address[0]);
  }

  /** No character of `s` is one of `stops`. */
  predicate NoneOf(s: string, stops: set<char>)
  {
    forall i :: 0 <= i < |s| ==> s[i] !in stops
  }

  /** The longest prefix of `s` holding none of `stops`. */
  function PrefixBefore(s: string, stops: set<char>): (p: string)
    ensures |p| <= |s| && p == s[..|p|]
    ensures NoneOf(p, stops)
    ensures |p| < |s| ==> s[|p|] in stops
  {
    if s == [] || s[0] in stops then []
    else
      var q := PrefixBefore(s[1..], stops);
      assert s[..|q| + 1] == [s[0]] + q;
      [s[0]] + q
  }

  /** A stretch free of `stops` is passed over whole. */
  lemma {:induction false} PrefixBeforeAppend(s: string, t: string, stops: set<char>)
    requires NoneOf(s, stops)
    ensures PrefixBefore(s + t, stops) == s + PrefixBefore(t, stops)
  {
    if s != [] {
      var st := s + t;
      assert st[0] == s[0] && s[0] !in stops;
      assert PrefixBefore(st, stops) == [s[0]] + PrefixBefore(st[1..], stops);
      assert st[1..] == s[1..] + t;
      PrefixBeforeAppend(s[1..], t, stops);
      var rest := PrefixBefore(t, stops);
      assert PrefixBefore(st[1..], stops) == s[1..] + rest;
      assert [s[0]] + (s[1..] + rest) == s + rest;
    } else {
      assert s + t == t;
    }
  }

  /**
   * The absolute path of a URI as `System.Uri` splits it: without query and fragment, and after
   * the authority when the scheme is followed by "//"; "/" when such a URI has no path.
   */
  function UriPath(uri: string): string
  {
    var v := PrefixBefore(uri, {'?', '#'});
    var scheme := PrefixBefore(v, {':'});
    if |scheme| == |v| then v
    else
      var rest := v[|scheme| + 1..];
      if |rest| >= 2 && rest[..2] == "//" then
        var hostAndPath := rest[2..];
        var host := PrefixBefore(hostAndPath, {'/'});
        if |host| == |hostAndPath| then "/" else hostAndPath[|host|..]
      else
        rest
  }

  /** Where the last segment of a non-empty path starts: just after the last '/' that is not the final character. */
  function LastSegmentStart(path: string): (k: nat)
    requires path != []
    ensures k < |path|
    ensures k > 0 ==> path[k - 1] == '/'
    ensures forall i :: k <= i < |path| - 1 ==> path[i] != '/'
  {
    if |path| == 1 then 0
    else if path[|path| - 2] == '/' then |path| - 1
    else LastSegmentStart(path[..|path| - 1])
  }

  /** A segment of `Uri.Segments`: non-empty, with a '/' at most as its last character. */
  predicate IsSegment(s: string)
  {
    s != [] && forall i :: 0 <= i < |s| - 1 ==> s[i] != '/'
  }

  predicate EndsWithSlash(s: string)
  {
    s != [] && s[|s| - 1] == '/'
  }

  /** `Uri.Segments` of a path: the path cut after every '/'. */
  function Segments(path: string): (segments: seq<string>)
    ensures Batching.Flatten(segments) == path
    ensures forall i :: 0 <= i < |segments| ==> IsSegment(segments[i])
    ensures forall i :: 0 <= i < |segments| - 1 ==> EndsWithSlash(segments[i])
    ensures segments == [] <==> path == []
    decreases |path|
  {
    if path == [] then []
    else
      var k := LastSegmentStart(path);
      var init := Segments(path[..k]);
      SegmentsStep(path, k, init);
      init + [path[k..]]
  }

  /** The segments of a path are those of the path up to its last segment, and that segment. */
  lemma SegmentsStep(path: string, k: nat, init: seq<string>)
    requires k < |path|
    requires k > 0 ==> path[k - 1] == '/'
    requires forall i :: k <= i < |path| - 1 ==> path[i] != '/'
    requires Batching.Flatten(init) == path[..k]
    requires forall i :: 0 <= i < |init| ==> IsSegment(init[i])
    requires forall i :: 0 <= i < |init| - 1 ==> EndsWithSlash(init[i])
    requires init == [] <==> k == 0
    ensures var segments := init + [path[k..]];
      && Batching.Flatten(segments) == path
      && (forall i :: 0 <= i < |segments| ==> IsSegment(segments[i]))
      && (forall i :: 0 <= i < |segments| - 1 ==> EndsWithSlash(segments[i]))
  {
    var last := path[k..];
    var segments := init + [last];
    Batching.FlattenAppend(init, last);
    assert path == path[..k] + last;
    assert IsSegment(last) by {
      assert forall i :: 0 <= i < |last| - 1 ==> last[i] == path[k + i];
    }
    if init != [] {
      assert init[|init| - 1] == path[..k][k - |init[|init| - 1]|..] by {
        assert Batching.Flatten(init) == Batching.Flatten(init[..|init| - 1]) + init[|init| - 1];
      }
    }
  }

  /**
   * `name` ends `path` and starts just after the last '/' of `path` that is not its final
   * character (or at its start): the last segment `Uri.Segments` gives.
   */
  predicate IsLastSegment(name: string, path: string)
  {
    && name != []
    && |name| <= |path|
    && name == path[|path| - |name|..]
    && (|name| == |path| || path[|path| - |name| - 1] == '/')
    && forall i :: 0 <= i < |name| - 1 ==> name[i] != '/'
  }

  /**
   * `GetQueueNameFromAddress`: an address that is not a well-formed absolute URI is the queue
   * name itself; otherwise the name is the URI's last path segment. A URI without path segments
   * makes the source index before the start of `Segments`.
   */
  function QueueNameFromAddress(address: string, lib: Platform.Library): (r: Result<string, TransportError>)
    ensures !lib.isWellFormedAbsoluteUri(address) ==> r == Success(address)
    ensures lib.isWellFormedAbsoluteUri(address) ==> (r.Failure? <==> UriPath(address) == [])
    ensures r.Failure? ==> r.error == NoPathSegment(address)
    ensures lib.isWellFormedAbsoluteUri(address) && r.Success? ==> IsLastSegment(r.value, UriPath(address))
  {
    if !lib.isWellFormedAbsoluteUri(address) then Success(address)
    else
      var segments := Segments(UriPath(address));
      if segments == [] then Failure(NoPathSegment(address))
      else
        LastSegmentOfPath(UriPath(address));
        Success(segments[|segments| - 1])
  }

  /** The last of the segments of a non-empty path is its last segment. */
  lemma LastSegmentOfPath(path: string)
    requires path != []
    ensures var segments := Segments(path); segments != [] && IsLastSegment(segments[|segments| - 1], path)
  {
    var k := LastSegmentStart(path);
    assert Segments(path) == Segments(path[..k]) + [path[k..]];
  }

  lemma NoneOfAppend(s: string, t: string, stops: set<char>)
    requires NoneOf(s, stops) && NoneOf(t, stops)
    ensures NoneOf(s + t, stops)
  {
    forall i | 0 <= i < |s + t|
      ensures (s + t)[i] !in stops
    {
      if i >= |s| {
        assert (s + t)[i] == t[i - |s|];
      }
    }
  }

  /** The path of `scheme://host/...` is what follows the host. */
  lemma UriPathAfterHost(scheme: string, host: string, path: string)
    requires NoneOf(scheme, {':', '?', '#'}) && NoneOf(host, {'/', '?', '#'}) && NoneOf(path, {'?', '#'})
    requires path != [] && path[0] == '/'
    ensures UriPath(scheme + "://" + host + path) == path
  {
    var hostAndPath := host + path;
    var uri := scheme + ("://" + hostAndPath);
    assert uri == scheme + "://" + host + path;
    NoneOfAppend(host, path, {'?', '#'});
    NoQueryOrFragment(scheme, hostAndPath);
    assert PrefixBefore(uri, {':'}) == scheme by {
      PrefixBeforeAppend(scheme, "://" + hostAndPath, {':'});
    }
    AfterSchemeColon(scheme, hostAndPath);
    assert PrefixBefore(hostAndPath, {'/'}) == host by {
      PrefixBeforeAppend(host, path, {'/'});
    }
    UriPathOfParts(uri, scheme, hostAndPath, host);
    assert hostAndPath[|host|..] == path;
  }

  lemma AfterSchemeColon(scheme: string, hostAndPath: string)
    ensures (scheme + ("://" + hostAndPath))[|scheme| + 1..] == "//" + hostAndPath
  {
    var uri := scheme + ("://" + hostAndPath);
    forall i | 0 <= i < |uri| - |scheme| - 1
      ensures uri[|scheme| + 1 + i] == ("//" + hostAndPath)[i]
    {
    }
  }

  lemma NoQueryOrFragment(scheme: string, hostAndPath: string)
    requires NoneOf(scheme, {'?', '#'}) && NoneOf(hostAndPath, {'?', '#'})
    ensures var uri := scheme + ("://" + hostAndPath); PrefixBefore(uri, {'?', '#'}) == uri
  {
    var uri := scheme + ("://" + hostAndPath);
    assert NoneOf("://", {'?', '#'});
    NoneOfAppend("://", hostAndPath, {'?', '#'});
    NoneOfAppend(scheme, "://" + hostAndPath, {'?', '#'});
    PrefixBeforeAppend(uri, [], {'?', '#'});
    assert uri + [] == uri;
  }

  /** The path of a URI whose scheme is followed by "//" and a host and then a '/'. */
  lemma UriPathOfParts(uri: string, scheme: string, hostAndPath: string, host: string)
    requires PrefixBefore(uri, {'?', '#'}) == uri
    requires PrefixBefore(uri, {':'}) == scheme && |scheme| < |uri|
    requires uri[|scheme| + 1..] == "//" + hostAndPath
    requires PrefixBefore(hostAndPath, {'/'}) == host && |host| < |hostAndPath|
    ensures UriPath(uri) == hostAndPath[|host|..]
  {
    var rest := uri[|scheme| + 1..];
    assert |rest| >= 2 && rest[..2] == "//" && rest[2..] == hostAndPath;
  }

  /** The last segment of a path ending in `/name` is `name`. */
  lemma LastSegmentAfterSlash(prefix: string, name: string)
    requires EndsWithSlash(prefix)
    requires name != [] && NoneOf(name, {'/'})
    ensures var segments := Segments(prefix + name); segments != [] && segments[|segments| - 1] == name
  {
    var path := prefix + name;
    var k := LastSegmentStart(path);
    assert path[|prefix| - 1] == '/';
    assert k == |prefix|;
    assert path[k..] == name;
    assert Segments(path) == Segments(path[..k]) + [name];
  }

  /**
   * An SQS queue URL `scheme://host/account/name` names the queue `name`, whatever the scheme,
   * host and account, when none of them holds a character that ends an earlier part.
   */
  lemma QueueNameOfQueueUrl(scheme: string, host: string, account: string, name: string, lib: Platform.Library)
    requires lib.isWellFormedAbsoluteUri(scheme + "://" + host + "/" + account + "/" + name)
    requires NoneOf(scheme, {':', '?', '#'})
    requires NoneOf(host, {'/', '?', '#'})
    requires NoneOf(account, {'/', '?', '#'})
    requires NoneOf(name, {'/', '?', '#'})
    requires name != []
    ensures QueueNameFromAddress(scheme + "://" + host + "/" + account + "/" + name, lib) == Success(name)
  {
    var prefix := "/" + account + "/";
    var path := prefix + name;
    assert scheme + "://" + host + "/" + account + "/" + name == scheme + "://" + host + path;
    assert NoneOf(path, {'?', '#'}) by {
      assert NoneOf("/", {'?', '#'});
      NoneOfAppend("/", account, {'?', '#'});
      NoneOfAppend("/" + account, "/", {'?', '#'});
      NoneOfAppend(prefix, name, {'?', '#'});
    }
    UriPathAfterHost(scheme, host, path);
    assert NoneOf(name, {'/'});
    LastSegmentAfterSlash(prefix, name);
  }

  /** What resolving an address gives: the URL or the error, the cache after it, and the provider calls it made. */
  datatype Resolution = Resolution(url: Result<string, TransportError>, cache: map<string, string>, calls: seq<Provider.Call>)

  /** Every key of the URL cache is a lower-cased address. */
  predicate KeysAreLowerCase(cache: map<string, string>)
  {
    forall key | key in cache :: Platform.ToLowerInvariant(key) == key
  }

  /**
   * `GetDestinationQueueUrlByName`: the URL cached under the lower-cased address if there is
   * one; else a well-formed absolute URI is its own URL; else the provider is asked, and an
   * answer other than HTTP 200 is an error. Only a URL found is added to the cache.
   */
  function Resolve(cache: map<string, string>, address: string, lib: Platform.Library, lookup: string -> Provider.UrlResponse): (r: Resolution)
    ensures var key := Platform.ToLowerInvariant(address);
      && (key in cache ==> r == Resolution(Success(cache[key]), cache, []))
      && (r.url.Success? ==> r.cache == cache[key := r.url.value])
      && (r.url.Failure? ==> r.cache == cache)
      && (r.calls == [] || r.calls == [Provider.GetQueueUrl(address)])
  {
    var key := Platform.ToLowerInvariant(address);
    if key in cache then Resolution(Success(cache[key]), cache, [])
    else if lib.isWellFormedAbsoluteUri(address) then Resolution(Success(address), cache[key := address], [])
    else
      var response := lookup(address);
      if response.httpStatusCode == Provider.HttpOk then
        Resolution(Success(response.queueUrl), cache[key := response.queueUrl], [Provider.GetQueueUrl(address)])
      else
        Resolution(Failure(QueueUrlNotFound(address, response.httpStatusCode)), cache, [Provider.GetQueueUrl(address)])
  }

  /** Resolution keeps every cache key lower-case, and never changes or drops a cached URL. */
  lemma ResolveKeepsCache(cache: map<string, string>, address: string, lib: Platform.Library, lookup: string -> Provider.UrlResponse)
    requires KeysAreLowerCase(cache)
    ensures var r := Resolve(cache, address, lib, lookup);
      && KeysAreLowerCase(r.cache)
      && forall key | key in cache :: key in r.cache && r.cache[key] == cache[key]
  {
    Platform.ToLowerInvariantIdempotent(address);
  }

  /** A well-formed absolute URL not yet cached resolves to itself, with no call to the provider. */
  lemma AbsoluteUrlResolvesToItself(cache: map<string, string>, address: string, lib: Platform.Library, lookup: string -> Provider.UrlResponse)
    requires Platform.ToLowerInvariant(address) !in cache
    requires lib.isWellFormedAbsoluteUri(address)
    ensures Resolve(cache, address, lib, lookup).url == Success(address)
    ensures Resolve(cache, address, lib, lookup).calls == []
  {
  }

  /**
   * A queue name not yet cached is looked up once; it resolves exactly when the provider answers
   * HTTP 200, and otherwise the error names the address and the status and nothing is cached.
   */
  lemma NameIsLookedUp(cache: map<string, string>, address: string, lib: Platform.Library, lookup: string -> Provider.UrlResponse)
    requires Platform.ToLowerInvariant(address) !in cache
    requires !lib.isWellFormedAbsoluteUri(address)
    ensures var r := Resolve(cache, address, lib, lookup);
      && r.calls == [Provider.GetQueueUrl(address)]
      && (r.url.Success? <==> lookup(address).httpStatusCode == Provider.HttpOk)
      && (r.url.Success? ==> r.url.value == lookup(address).queueUrl)
      && (r.url.Failure? ==> r.url.error == QueueUrlNotFound(address, lookup(address).httpStatusCode) && r.cache == cache)
  {
  }

  /**
   * Addresses that differ only in letter case share one cache entry: once one has resolved, the
   * other resolves to the same URL without a call and without changing the cache.
   */
  lemma ResolutionIgnoresCase(cache: map<string, string>, first: string, second: string, lib: Platform.Library, lookup: string -> Provider.UrlResponse)
    requires Platform.ToLowerInvariant(first) == Platform.ToLowerInvariant(second)
    requires Resolve(cache, first, lib, lookup).url.Success?
    ensures var r := Resolve(cache, first, lib, lookup);
      Resolve(r.cache, second, lib, lookup) == Resolution(r.url, r.cache, [])
  {
  }
}
