/**
 * `RemoteLoader` (src/remote-loader.js): rewrites GitHub gist page URLs to their raw form,
 * and keeps the text of every fetched URL in a cache whose entries live for one hour and
 * are evicted lazily on lookup. `fetch` is an oracle and `Date.now()` a parameter.
 */
module RemoteLoader {
  import opened JsText
  import opened JsValue

  // ---------------------------------------------------------------------------------------
  // Gist URL rewriting (`_convertGistUrl`)
  // ---------------------------------------------------------------------------------------

  /** The literal `gist\.github\.com\/` both patterns start with. */
  const GistHost: string := "gist.github.com/"

  /** The prefix of every rewritten URL. */
  const RawPrefix: string := "https://gist.githubusercontent.com/raw/"

  /** ASCII lower-casing: the only case folding a non-unicode `/i` pattern does for ASCII text. */
  function Lower(c: char): char {
    if 'A' <= c <= 'Z' then (c as int + 32) as char else c
  }

  /** `[a-f0-9]` under the `i` flag. */
  predicate IsHex(c: char) {
    ('0' <= c <= '9') || ('a' <= c <= 'f') || ('A' <= c <= 'F')
  }

  predicate AllHex(s: string) {
    forall i :: 0 <= i < |s| ==> IsHex(s[i])
  }

  /** A gist id as both patterns capture it: a non-empty run of hex digits. */
  predicate IsGistId(id: string) {
    |id| >= 1 && AllHex(id)
  }

  /** `s` spells `GistHost` at position `i`, ignoring ASCII case. */
  predicate HostAt(s: string, i: nat) {
    i + |GistHost| <= |s| && forall j :: 0 <= j < |GistHost| ==> Lower(s[i + j]) == GistHost[j]
  }

  /** The length of the run of hex digits starting at `i` (greedy `[a-f0-9]+`). */
  function HexRun(s: string, i: nat): (n: nat)
    requires i <= |s|
    ensures i + n <= |s| && AllHex(s[i..i + n])
    ensures i + n == |s| || !IsHex(s[i + n])
    decreases |s| - i
  {
    if i < |s| && IsHex(s[i]) then
      var m := HexRun(s, i + 1);
      assert s[i..i + 1 + m] == [s[i]] + s[i + 1..i + 1 + m];
      1 + m
    else 0
  }

  /**
   * `gist\.github\.com\/[^\/]+\/([a-f0-9]+)` matched at position `i` exactly: the host, an
   * owner segment free of `/`, a `/`, and a maximal hex run as the captured id.
   */
  ghost predicate UserFormAt(s: string, i: nat, owner: string, id: string) {
    && HostAt(s, i)
    && |owner| >= 1 && '/' !in owner
    && IsGistId(id)
    && i + |GistHost| + |owner| + 1 + |id| <= |s|
    && s[i + |GistHost|..i + |GistHost| + |owner|] == owner
    && s[i + |GistHost| + |owner|] == '/'
    && s[i + |GistHost| + |owner| + 1..i + |GistHost| + |owner| + 1 + |id|] == id
    && (i + |GistHost| + |owner| + 1 + |id| == |s| || !IsHex(s[i + |GistHost| + |owner| + 1 + |id|]))
  }

  /** The first `/` at or after `j` ends an owner segment that starts at `j` and holds no `/`. */
  lemma OwnerEndsAtFirstSlash(s: string, j: nat, owner: string)
    requires j + |owner| < |s| && '/' !in owner
    requires s[j..j + |owner|] == owner && s[j + |owner|] == '/'
    ensures '/' in s[j..] && IndexOf(s[j..], '/') == |owner|
  {
    assert s[j..][|owner|] == '/';
    assert s[j..][..|owner|] == owner;
    IndexOfFirst(s[j..], '/', |owner|);
  }

  /** A hex run followed by a non-hex character (or the end) is the greedy run. */
  lemma {:induction false} MaximalRunIsHexRun(s: string, p: nat, id: string)
    requires p + |id| <= |s| && AllHex(id) && s[p..p + |id|] == id
    requires p + |id| == |s| || !IsHex(s[p + |id|])
    ensures HexRun(s, p) == |id|
    decreases |id|
  {
    if |id| > 0 {
      assert s[p] == id[0];
      assert s[p + 1..p + 1 + |id[1..]|] == id[1..];
      MaximalRunIsHexRun(s, p + 1, id[1..]);
    }
  }

  /** The owner/id pattern tried at position `i`, as the regex engine backtracks it. */
  function UserMatchAt(s: string, i: nat): Option<string> {
    if !HostAt(s, i) then None
    else
      var j := i + |GistHost|;
      if '/' !in s[j..] then None
      else
        var k := j + IndexOf(s[j..], '/');
        var n := if k == j then 0 else HexRun(s, k + 1);
        if n == 0 then None else Some(s[k + 1..k + 1 + n])
  }

  /** What `UserMatchAt` captures is an id the pattern matches at `i`. */
  lemma UserMatchAtSound(s: string, i: nat)
    requires UserMatchAt(s, i).Some?
    ensures exists owner :: UserFormAt(s, i, owner, UserMatchAt(s, i).value)
  {
    var j := i + |GistHost|;
    var k := j + IndexOf(s[j..], '/');
    assert s[j..][..k - j] == s[j..k];
    assert UserFormAt(s, i, s[j..k], UserMatchAt(s, i).value);
  }

  /** Wherever the pattern matches at `i`, `UserMatchAt` captures that id. */
  lemma UserMatchAtComplete(s: string, i: nat, owner: string, id: string)
    requires UserFormAt(s, i, owner, id)
    ensures UserMatchAt(s, i) == Some(id)
  {
    var j := i + |GistHost|;
    var k := j + |owner|;
    assert HostAt(s, i);
    OwnerEndsAtFirstSlash(s, j, owner);
    assert j + IndexOf(s[j..], '/') == k && k != j;
    MaximalRunIsHexRun(s, k + 1, id);
  }

  /** `gist\.github\.com\/([a-f0-9]+)$` matched at position `i`: the id runs to the end. */
  ghost predicate DirectFormAt(s: string, i: nat, id: string) {
    HostAt(s, i) && IsGistId(id) && i + |GistHost| + |id| == |s| && s[i + |GistHost|..] == id
  }

  /** The bare-id pattern tried at position `i`. */
  function DirectMatchAt(s: string, i: nat): (r: Option<string>)
    ensures r.Some? ==> DirectFormAt(s, i, r.value)
    ensures forall id :: DirectFormAt(s, i, id) ==> r == Some(id)
  {
    if HostAt(s, i) && i + |GistHost| < |s| && AllHex(s[i + |GistHost|..]) then Some(s[i + |GistHost|..])
    else None
  }

  /** The bare-id pattern can match at one position at most. */
  lemma DirectFormUnique(s: string, i: nat, id: string, i': nat, id': string)
    requires DirectFormAt(s, i, id) && DirectFormAt(s, i', id')
    ensures i == i' && id == id'
  {
    assert forall k :: i + |GistHost| <= k < |s| ==> IsHex(s[k]) by {
      forall k | i + |GistHost| <= k < |s| ensures IsHex(s[k]) {
        assert s[k] == id[k - (i + |GistHost|)];
      }
    }
    assert forall k :: i' + |GistHost| <= k < |s| ==> IsHex(s[k]) by {
      forall k | i' + |GistHost| <= k < |s| ensures IsHex(s[k]) {
        assert s[k] == id'[k - (i' + |GistHost|)];
      }
    }
    assert Lower(s[i + (|GistHost| - 1)]) == GistHost[|GistHost| - 1];
    assert Lower(s[i' + (|GistHost| - 1)]) == GistHost[|GistHost| - 1];
  }

  /**
   * The leftmost position in `from..n` where `at` finds a match: how `String.prototype.match`
   * scans a pattern without the `g` flag.
   */
  function Leftmost(n: nat, from: nat, at: nat -> Option<string>): (r: Option<nat>)
    requires from <= n + 1
    ensures r.Some? ==> from <= r.value <= n && at(r.value).Some?
    ensures forall j :: from <= j <= n && (r.None? || j < r.value) ==> at(j).None?
    decreases n + 1 - from
  {
    if from == n + 1 then None
    else if at(from).Some? then Some(from)
    else Leftmost(n, from + 1, at)
  }

  /** The id `_convertGistUrl` extracts: the owner/id form first, the bare form otherwise. */
  function GistId(url: string): (r: Option<string>)
    ensures r.Some? ==> IsGistId(r.value)
  {
    var user := Leftmost(|url|, 0, (i: nat) => UserMatchAt(url, i));
    if user.Some? then
      UserMatchAtSound(url, user.value);
      UserMatchAt(url, user.value)
    else
      var direct := Leftmost(|url|, 0, (i: nat) => DirectMatchAt(url, i));
      if direct.Some? then DirectMatchAt(url, direct.value) else None
  }

  /**
   * `_convertGistUrl`: a URL containing `raw` is kept; otherwise the extracted id gives
   * `https://gist.githubusercontent.com/raw/<id>/`; with no id the URL is kept.
   */
  function ConvertGistUrl(url: string): (r: string)
    ensures Contains(url, "raw") ==> r == url
    ensures !Contains(url, "raw") && GistId(url).None? ==> r == url
    ensures r == url || (|r| > |RawPrefix| && RawPrefix <= r && r[|r| - 1] == '/' && IsGistId(r[|RawPrefix|..|r| - 1]))
  {
    if Contains(url, "raw") then url
    else
      match GistId(url)
      case None => url
      case Some(id) =>
        var r := RawPrefix + id + "/";
        assert r[|RawPrefix|..|r| - 1] == id;
        assert RawPrefix <= r;
        r
  }

  /** The owner/id form wins: its leftmost match gives the id, whatever the bare form says. */
  lemma GistIdUserForm(url: string, i: nat, owner: string, id: string)
    requires UserFormAt(url, i, owner, id)
    requires forall j, o, d :: 0 <= j < i ==> !UserFormAt(url, j, o, d)
    ensures GistId(url) == Some(id)
  {
    var at := (j: nat) => UserMatchAt(url, j);
    UserMatchAtComplete(url, i, owner, id);
    assert at(i) == Some(id);
    var user := Leftmost(|url|, 0, at);
    assert user.Some?;
    if user.value < i {
      UserMatchAtSound(url, user.value);
      assert false;
    }
  }

  /** With no owner/id match anywhere, a bare id running to the end of the URL is taken. */
  lemma GistIdBareForm(url: string, i: nat, id: string)
    requires forall j, o, d :: !UserFormAt(url, j, o, d)
    requires DirectFormAt(url, i, id)
    ensures GistId(url) == Some(id)
  {
    var user := Leftmost(|url|, 0, (j: nat) => UserMatchAt(url, j));
    if user.Some? {
      UserMatchAtSound(url, user.value);
      assert false;
    }
    var at := (j: nat) => DirectMatchAt(url, j);
    assert at(i) == Some(id);
    var direct := Leftmost(|url|, 0, at);
    assert direct.Some?;
    DirectFormUnique(url, i, id, direct.value, DirectMatchAt(url, direct.value).value);
  }

  /** With neither form present no id is extracted. */
  lemma GistIdNoForm(url: string)
    requires forall j, o, d :: !UserFormAt(url, j, o, d)
    requires forall j, d :: !DirectFormAt(url, j, d)
    ensures GistId(url) == None
  {
    var user := Leftmost(|url|, 0, (j: nat) => UserMatchAt(url, j));
    if user.Some? {
      UserMatchAtSound(url, user.value);
      assert false;
    }
  }

  /** A URL built as `<prefix>gist.github.com/<owner>/<id>` matches the owner/id form after the prefix. */
  lemma UserFormOfParts(pre: string, owner: string, id: string)
    requires |owner| >= 1 && '/' !in owner && IsGistId(id)
    ensures UserFormAt(pre + GistHost + owner + "/" + id, |pre|, owner, id)
  {
    var url := pre + GistHost + owner + "/" + id;
    var j := |pre| + |GistHost|;
    HostAtParts(pre, owner + "/" + id);
    assert url == pre + GistHost + (owner + "/" + id);
    assert url[j..j + |owner|] == owner;
    assert url[j + |owner| + 1..] == id;
  }

  lemma HostAtParts(pre: string, rest: string)
    ensures HostAt(pre + GistHost + rest, |pre|)
  {
    var url := pre + GistHost + rest;
    assert url[|pre|..|pre| + |GistHost|] == GistHost;
    assert forall k :: 0 <= k < |GistHost| ==> url[|pre| + k] == GistHost[k];
  }

  /** The documented example: a user gist page becomes the raw URL of its id. */
  lemma ConvertExample(url: string)
    requires url == "https://gist.github.com/someuser/abc123"
    ensures ConvertGistUrl(url) == "https://gist.githubusercontent.com/raw/abc123/"
  {
    ExampleNoRaw(url);
    ExampleGistId(url);
    RawUrlOf(url, "abc123");
    ExampleRawUrl();
  }

  lemma ExampleNoRaw(url: string)
    requires url == "https://gist.github.com/someuser/abc123"
    ensures !Contains(url, "raw")
  {
    assert 'w' !in url;
    RawHasW(url);
  }

  lemma ExampleGistId(url: string)
    requires url == "https://gist.github.com/someuser/abc123"
    ensures GistId(url) == Some("abc123")
  {
    ExampleUrlParts();
    UserFormOfParts("https://", "someuser", "abc123");
    forall j, o, d | 0 <= j < 8 ensures !UserFormAt(url, j, o, d) {
      assert Lower(url[j]) != GistHost[0];
    }
    GistIdUserForm(url, 8, "someuser", "abc123");
  }

  lemma ExampleUrlParts()
    ensures "https://gist.github.com/someuser/abc123" == "https://" + GistHost + "someuser" + "/" + "abc123"
  {
  }

  lemma ExampleRawUrl()
    ensures RawPrefix + "abc123" + "/" == "https://gist.githubusercontent.com/raw/abc123/"
  {
  }

  /** Once an id is extracted from a URL without `raw`, the result is the raw URL of that id. */
  lemma RawUrlOf(url: string, id: string)
    requires !Contains(url, "raw") && GistId(url) == Some(id)
    ensures ConvertGistUrl(url) == RawPrefix + id + "/"
  {
  }

  /** A URL that contains `raw` contains a `w`. */
  lemma {:induction false} RawHasW(url: string)
    ensures Contains(url, "raw") ==> 'w' in url
    decreases |url|
  {
    if "raw" <= url {
      assert url[2] == 'w';
    } else if url != [] {
      RawHasW(url[1..]);
      if 'w' in url[1..] {
        assert url[1..][IndexOf(url[1..], 'w')] == 'w';
      }
    }
  }

  /** `raw` occurs in every rewritten URL, so rewriting a rewritten URL changes nothing. */
  lemma RawPrefixHasRaw(id: string)
    ensures Contains(RawPrefix + id + "/", "raw")
  {
    var u := RawPrefix + id + "/";
    assert "raw" <= u[35..];
    ContainsIff(u, "raw");
  }

  // ---------------------------------------------------------------------------------------
  // The cache (`_getFromCache`, `_addToCache`, `clearCache`) and `loadFromUrl`
  // ---------------------------------------------------------------------------------------

  /** `this.cacheExpiry`: one hour, in milliseconds. */
  const CacheExpiry: int := 1000 * 60 * 60

  datatype CacheEntry = CacheEntry(data: string, timestamp: int)

  type Cache = map<string, CacheEntry>

  /** An entry is served while at most `CacheExpiry` milliseconds old. */
  predicate Fresh(cache: Cache, url: string, now: int) {
    url in cache && now - cache[url].timestamp <= CacheExpiry
  }

  /**
   * `_getFromCache(url)` at time `now`: the stored text of a fresh entry; an expired entry is
   * deleted and nothing is returned.
   */
  function Lookup(cache: Cache, url: string, now: int): (r: (Option<string>, Cache))
    ensures r.0.Some? <==> Fresh(cache, url, now)
    ensures r.0.Some? ==> r.0.value == cache[url].data && r.1 == cache
    ensures r.0.None? ==> r.1 == cache - {url}
  {
    if url !in cache then (None, cache)
    else if now - cache[url].timestamp > CacheExpiry then (None, cache - {url})
    else (Some(cache[url].data), cache)
  }

  /** What `fetch` resolves to: a response, or a rejection (a network failure). */
  datatype Response = Response(ok: bool, statusText: string, text: string) | NetworkFailure

  /** `fetch(url, ...)` followed by `response.text()`, as an oracle. */
  type Fetcher = string -> Response

  datatype LoadError = HttpError(statusText: string) | NetworkError

  /** What `loadFromUrl` settles to: the schema text, or the rethrown error. */
  datatype LoadResult = Loaded(text: string) | Failed(error: LoadError)

  /** One call of `loadFromUrl`: its outcome, the cache after it, and the URL fetched, if any. */
  datatype LoadStep = LoadStep(result: LoadResult, cache: Cache, request: Option<string>)

  /** The URL actually requested and cached: gist page URLs are rewritten first. */
  function RequestUrl(url: string): string {
    if Contains(url, "gist.github.com") then ConvertGistUrl(url) else url
  }

  /**
   * `loadFromUrl(url)` with the clock reading `now` at the cache lookup and `later` when the
   * fetched text is stored. A cached empty text is falsy, so it is fetched again.
   */
  function Load(cache: Cache, url: string, now: int, later: int, fetch: Fetcher): (s: LoadStep)
    ensures s.request.None? <==> Fresh(cache, RequestUrl(url), now) && cache[RequestUrl(url)].data != ""
    ensures s.request.None? ==> s.result == Loaded(cache[RequestUrl(url)].data) && s.cache == cache
    ensures s.request.Some? ==> s.request.value == RequestUrl(url)
    ensures s.request.Some? && s.result.Loaded? ==>
              s.cache == (cache - {RequestUrl(url)})[RequestUrl(url) := CacheEntry(s.result.text, later)]
    ensures s.request.Some? ==>
              (s.result.Loaded? <==> fetch(RequestUrl(url)).Response? && fetch(RequestUrl(url)).ok)
    ensures s.request.Some? && s.result.Loaded? ==> s.result.text == fetch(RequestUrl(url)).text
    ensures s.request.Some? ==>
              (s.result == Failed(NetworkError) <==> fetch(RequestUrl(url)).NetworkFailure?)
    ensures s.request.Some? && fetch(RequestUrl(url)).Response? && !fetch(RequestUrl(url)).ok ==>
              s.result == Failed(HttpError(fetch(RequestUrl(url)).statusText))
    ensures s.result.Failed? ==> s.cache == Lookup(cache, RequestUrl(url), now).1
    ensures s.result.Failed? ==> s.cache == cache || s.cache == cache - {RequestUrl(url)}
    ensures s.cache - {RequestUrl(url)} == cache - {RequestUrl(url)}
  {
    var key := RequestUrl(url);
    var (hit, afterLookup) := Lookup(cache, key, now);
    if hit.Some? && hit.value != "" then LoadStep(Loaded(hit.value), afterLookup, None)
    else
      match fetch(key)
      case NetworkFailure => LoadStep(Failed(NetworkError), afterLookup, Some(key))
      case Response(ok, statusText, text) =>
        if !ok then LoadStep(Failed(HttpError(statusText)), afterLookup, Some(key))
        else LoadStep(Loaded(text), afterLookup[key := CacheEntry(text, later)], Some(key))
  }

  /** Rewriting is done once: the requested URL of a requested URL is itself. */
  lemma RequestUrlIdempotent(url: string)
    ensures RequestUrl(RequestUrl(url)) == RequestUrl(url)
  {
    if Contains(url, "gist.github.com") && !Contains(url, "raw") {
      match GistId(url)
      case None =>
      case Some(id) => RawPrefixHasRaw(id);
    }
  }

  /** A stored entry is served back until it is an hour old, even to a different caller. */
  lemma AddThenLookup(cache: Cache, url: string, data: string, stored: int, now: int)
    requires now - stored <= CacheExpiry
    ensures Lookup(cache[url := CacheEntry(data, stored)], url, now) == (Some(data), cache[url := CacheEntry(data, stored)])
  {
  }

  /**
   * A load that fetched a non-empty text makes every load of the same URL within the hour
   * after it a cache hit: same text, no request, cache unchanged.
   */
  lemma SecondLoadWithinHour(cache: Cache, url: string, t0: int, t1: int, t2: int, t3: int, f: Fetcher, g: Fetcher)
    requires Load(cache, url, t0, t1, f).request.Some?
    requires Load(cache, url, t0, t1, f).result.Loaded? && Load(cache, url, t0, t1, f).result.text != ""
    requires t2 - t1 <= CacheExpiry
    ensures var first := Load(cache, url, t0, t1, f);
            Load(first.cache, url, t2, t3, g) == LoadStep(first.result, first.cache, None)
  {
  }

  /** No entry was stored after `now`: the clock did not run backwards. */
  predicate StoredBy(cache: Cache, now: int) {
    forall k :: k in cache ==> cache[k].timestamp <= now
  }

  /**
   * Once an hour has passed since a successful load, the URL is requested again, whether
   * that load fetched the text or served it from the cache.
   */
  lemma LoadAfterExpiryFetches(cache: Cache, url: string, t0: int, t1: int, t2: int, t3: int, f: Fetcher, g: Fetcher)
    requires StoredBy(cache, t0) && t0 <= t1
    requires Load(cache, url, t0, t1, f).result.Loaded?
    requires t2 - t1 > CacheExpiry
    ensures Load(Load(cache, url, t0, t1, f).cache, url, t2, t3, g).request == Some(RequestUrl(url))
  {
    var key := RequestUrl(url);
    var first := Load(cache, url, t0, t1, f);
    assert key in first.cache ==> first.cache[key].timestamp <= t1 by {
      if first.request.None? {
        assert first.cache == cache;
      }
    }
  }

  /** After `clearCache` every load is a request. */
  lemma LoadAfterClearFetches(url: string, now: int, later: int, fetch: Fetcher)
    ensures Load(map[], url, now, later, fetch).request == Some(RequestUrl(url))
  {
  }

  /** The loader: its cache, and the URLs it has handed to `fetch`, in order. */
  class RemoteLoader {
    var cache: Cache
    var requests: seq<string>

    constructor()
      ensures cache == map[] && requests == []
    {
      cache := map[];
      requests := [];
    }

    method GetFromCache(url: string, now: int) returns (data: Option<string>)
      modifies this
      ensures (data, cache) == Lookup(old(cache), url, now)
      ensures requests == old(requests)
    {
      if url !in cache {
        return None;
      }
      var cached := cache[url];
      if now - cached.timestamp > CacheExpiry {
        cache := cache - {url};
        return None;
      }
      return Some(cached.data);
    }

    method AddToCache(url: string, data: string, now: int)
      modifies this
      ensures cache == old(cache)[url := CacheEntry(data, now)]
      ensures requests == old(requests)
    {
      cache := cache[url := CacheEntry(data, now)];
    }

    method ClearCache()
      modifies this
      ensures cache == map[] && requests == old(requests)
    {
      cache := map[];
    }

    method LoadFromUrl(url: string, now: int, later: int, fetch: Fetcher) returns (r: LoadResult)
      modifies this
      ensures var s := Load(old(cache), url, now, later, fetch);
              r == s.result && cache == s.cache &&
              requests == old(requests) + (if s.request.Some? then [s.request.value] else [])
    {
      var key := url;
      if Contains(url, "gist.github.com") {
        key := ConvertGistUrl(url);
      }
      var cached := GetFromCache(key, now);
      if cached.Some? && cached.value != "" {
        return Loaded(cached.value);
      }
      requests := requests + [key];
      var response := fetch(key);
      if response.NetworkFailure? {
        return Failed(NetworkError);
      }
      if !response.ok {
        return Failed(HttpError(response.statusText));
      }
      AddToCache(key, response.text, later);
      r := Loaded(response.text);
    }
  }
}
