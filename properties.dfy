/** What the handler of main.go promises, proved about the function that the
    server's `Handle` method is tied to. */
module ServerProperties {
  import opened Http
  import opened Routing
  import opened StaticServer

  /** A request gets the index document with status 200 and
      `Content-Type: text/html` exactly when its URI does not end in `.`
      and one to five word characters; such a request leaves the cache as it
      was. */
  lemma IndexExactlyForAppRoutes(docs: Documents, join: PathJoin, cache: Cache, uri: string, fs: FileSystem)
    ensures var out := Serve(docs, join, cache, uri, fs);
      (out.response == IndexResponse(docs) <==> !IsAsset(uri))
      && (!IsAsset(uri) ==> out.cache == cache)
  {
    if IsAsset(uri) {
      var ct := ContentTypeFor(Extension(uri));
      assert ct.Some? ==> ct.value != "text/html";
    }
  }

  /** An application route does not consult the disk: any two disks give the
      same outcome. */
  lemma AppRouteReadsNoDisk(docs: Documents, join: PathJoin, cache: Cache, uri: string, fs1: FileSystem, fs2: FileSystem)
    requires !IsAsset(uri)
    ensures Serve(docs, join, cache, uri, fs1) == Serve(docs, join, cache, uri, fs2)
  {
  }

  /** Every response, in either branch, starts with `Server: Static-Server`. */
  lemma ServerHeaderAlways(docs: Documents, join: PathJoin, cache: Cache, uri: string, fs: FileSystem)
    ensures var h := Serve(docs, join, cache, uri, fs).response.headers;
      |h| >= 1 && h[0] == ServerHeader
  {
  }

  /** An asset response carries, after `Server`, the Content-Type its
      extension selects and nothing else: `css`, `js` and `svg` get theirs,
      every other extension none. */
  lemma AssetContentType(docs: Documents, join: PathJoin, cache: Cache, uri: string, fs: FileSystem)
    requires IsAsset(uri)
    ensures var h := Serve(docs, join, cache, uri, fs).response.headers;
      var ext := Extension(uri);
      (ext == "css" ==> h == [ServerHeader, Header("Content-Type", "text/css")])
      && (ext == "js" ==> h == [ServerHeader, Header("Content-Type", "application/javascript")])
      && (ext == "svg" ==> h == [ServerHeader, Header("Content-Type", "image/svg+xml")])
      && (ext !in {"css", "js", "svg"} ==> h == [ServerHeader])
  {
  }

  /** The status is 200 or 404, and a 404 is only ever an asset response
      whose body is the not-found document. */
  lemma StatusAndBody(docs: Documents, join: PathJoin, cache: Cache, uri: string, fs: FileSystem)
    ensures var r := Serve(docs, join, cache, uri, fs).response;
      (r.status == 200 || r.status == 404)
      && (r.status == 404 ==> IsAsset(uri) && r.body == docs.notFound)
  {
  }

  /** A cache miss whose read fails: 404 with the not-found document, which
      is stored under the URI. */
  lemma MissWithFailedRead(docs: Documents, join: PathJoin, cache: Cache, uri: string, fs: FileSystem)
    requires IsAsset(uri) && uri !in cache
    requires join(StaticDir, uri) !in fs
    ensures var out := Serve(docs, join, cache, uri, fs);
      out.response.status == 404 && out.response.body == docs.notFound
      && out.cache == cache[uri := docs.notFound]
  {
  }

  /** A cache miss whose read succeeds: 200 with the file's bytes, which are
      stored under the URI. */
  lemma MissWithSuccessfulRead(docs: Documents, join: PathJoin, cache: Cache, uri: string, fs: FileSystem)
    requires IsAsset(uri) && uri !in cache
    requires join(StaticDir, uri) in fs
    ensures var out := Serve(docs, join, cache, uri, fs);
      out.response.status == 200 && out.response.body == fs[join(StaticDir, uri)]
      && out.cache == cache[uri := fs[join(StaticDir, uri)]]
  {
  }

  /** A cache hit: the cached bytes are the body, the status is 404 exactly
      when they equal the not-found document, the cache is unchanged, and
      the disk is not consulted. */
  lemma HitReplaysCache(docs: Documents, join: PathJoin, cache: Cache, uri: string, fs1: FileSystem, fs2: FileSystem)
    requires IsAsset(uri) && uri in cache
    ensures var out := Serve(docs, join, cache, uri, fs1);
      out.response.body == cache[uri]
      && (out.response.status == 404 <==> cache[uri] == docs.notFound)
      && out.cache == cache
      && out == Serve(docs, join, cache, uri, fs2)
  {
  }

  /** A failed lookup is remembered: every later request for the same URI is
      answered 404 with the not-found document, whatever the disk then
      holds. */
  lemma FailureIsSticky(docs: Documents, join: PathJoin, cache: Cache, uri: string, fs1: FileSystem, fs2: FileSystem)
    requires IsAsset(uri) && uri !in cache
    requires join(StaticDir, uri) !in fs1
    ensures var first := Serve(docs, join, cache, uri, fs1);
      var second := Serve(docs, join, first.cache, uri, fs2);
      second.response == first.response
      && second.response.status == 404 && second.response.body == docs.notFound
      && second.cache == first.cache
  {
  }

  /** A file that was read once is served again byte for byte, without the
      disk, as long as its bytes differ from the not-found document. */
  lemma SuccessIsReplayed(docs: Documents, join: PathJoin, cache: Cache, uri: string, fs1: FileSystem, fs2: FileSystem)
    requires IsAsset(uri) && uri !in cache
    requires join(StaticDir, uri) in fs1
    requires fs1[join(StaticDir, uri)] != docs.notFound
    ensures var first := Serve(docs, join, cache, uri, fs1);
      var second := Serve(docs, join, first.cache, uri, fs2);
      second.response == first.response
      && second.response.status == 200 && second.response.body == fs1[join(StaticDir, uri)]
      && second.cache == first.cache
  {
  }

  /** The sentinel collision: a file whose bytes equal the not-found
      document is served 200 the first time and 404 from then on. */
  lemma SentinelCollision(docs: Documents, join: PathJoin, cache: Cache, uri: string, fs1: FileSystem, fs2: FileSystem)
    requires IsAsset(uri) && uri !in cache
    requires join(StaticDir, uri) in fs1 && fs1[join(StaticDir, uri)] == docs.notFound
    ensures var first := Serve(docs, join, cache, uri, fs1);
      var second := Serve(docs, join, first.cache, uri, fs2);
      first.response.status == 200 && second.response.status == 404
      && first.response.body == second.response.body
  {
  }

  /** A request only ever adds the entry for its own URI, and only on a miss
      of an asset URI; no entry is removed or overwritten. */
  lemma CacheOnlyGrows(docs: Documents, join: PathJoin, cache: Cache, uri: string, fs: FileSystem)
    ensures var c := Serve(docs, join, cache, uri, fs).cache;
      c.Keys == cache.Keys + (if IsAsset(uri) then {uri} else {})
      && (forall k :: k in cache ==> c[k] == cache[k])
  {
  }

  /** A new entry is the bytes its read returned, or the not-found document
      when the read failed. */
  lemma NewEntryIsReadResult(docs: Documents, join: PathJoin, cache: Cache, uri: string, fs: FileSystem)
    requires uri !in cache
    requires uri in Serve(docs, join, cache, uri, fs).cache
    ensures Serve(docs, join, cache, uri, fs).cache[uri]
      == ReadFile(fs, join(StaticDir, uri)).GetOr(docs.notFound)
  {
  }

  /** A request for one URI neither adds, removes nor changes the entry of
      any other URI. */
  lemma OtherKeysUntouched(docs: Documents, join: PathJoin, cache: Cache, u1: string, u2: string, fs: FileSystem)
    requires u1 != u2
    ensures var c := Serve(docs, join, cache, u1, fs).cache;
      (u2 in c <==> u2 in cache) && (u2 in cache ==> c[u2] == cache[u2])
  {
  }

  /** The key is the raw URI, query string included: two asset URIs that
      differ only after `?` have separate entries, so serving one leaves the
      other's entry (or its absence) as it was. (A query such as `?x=1` ends
      in `=1` and is routed to the index document instead.) */
  lemma QueryStringsAreSeparateKeys(docs: Documents, join: PathJoin, cache: Cache, fs: FileSystem)
    ensures IsAsset("/a.js?v=1.0") && IsAsset("/a.js?v=2.0")
    ensures var c := Serve(docs, join, cache, "/a.js?v=1.0", fs).cache;
      "/a.js?v=1.0" in c
      && ("/a.js?v=2.0" in c <==> "/a.js?v=2.0" in cache)
      && ("/a.js?v=2.0" in cache ==> c["/a.js?v=2.0"] == cache["/a.js?v=2.0"])
  {
    assert EndsWithExtensionOfLength("/a.js?v=1.0", 1);
    assert EndsWithExtensionOfLength("/a.js?v=2.0", 1);
    OtherKeysUntouched(docs, join, cache, "/a.js?v=1.0", "/a.js?v=2.0", fs);
  }

  // ---------------------------------------------------------------------
  // Over the life of the process
  // ---------------------------------------------------------------------

  /** One request: the raw URI and the disk as it is when it arrives. */
  datatype Request = Request(uri: string, fs: FileSystem)

  /** The cache after a run of requests, one at a time. */
  function CacheAfter(docs: Documents, join: PathJoin, cache: Cache, reqs: seq<Request>): Cache
    decreases |reqs|
  {
    if reqs == [] then cache
    else CacheAfter(docs, join, Serve(docs, join, cache, reqs[0].uri, reqs[0].fs).cache, reqs[1..])
  }

  /** Once present, an entry keeps its bytes for the rest of the run. */
  lemma {:induction false} EntriesArePermanent(docs: Documents, join: PathJoin, cache: Cache, reqs: seq<Request>, k: string)
    requires k in cache
    ensures var c := CacheAfter(docs, join, cache, reqs); k in c && c[k] == cache[k]
    decreases |reqs|
  {
    if reqs != [] {
      CacheOnlyGrows(docs, join, cache, reqs[0].uri, reqs[0].fs);
      EntriesArePermanent(docs, join, Serve(docs, join, cache, reqs[0].uri, reqs[0].fs).cache, reqs[1..], k);
    }
  }

  /** After a failed lookup, a request for that URI at any later point of
      any run is answered 404 with the not-found document. */
  lemma NotFoundForever(docs: Documents, join: PathJoin, cache: Cache, uri: string, fs: FileSystem, reqs: seq<Request>, later: FileSystem)
    requires IsAsset(uri) && uri !in cache && join(StaticDir, uri) !in fs
    ensures var c := CacheAfter(docs, join, Serve(docs, join, cache, uri, fs).cache, reqs);
      var r := Serve(docs, join, c, uri, later).response;
      r.status == 404 && r.body == docs.notFound
  {
    EntriesArePermanent(docs, join, Serve(docs, join, cache, uri, fs).cache, reqs, uri);
  }

  /** Startup without `404.html` serves the built-in document for a failed
      lookup. */
  lemma DefaultNotFoundServed(fs: FileSystem, join: PathJoin, uri: string, disk: FileSystem)
    requires join(StaticDir, IndexFile) in fs && join(StaticDir, NotFoundFile) !in fs
    requires IsAsset(uri) && join(StaticDir, uri) !in disk
    ensures Start(fs, join).Started?
    ensures var r := Serve(Start(fs, join).docs, join, map[], uri, disk).response;
      r.status == 404 && r.body == DefaultNotFound()
      && |r.body| == 31 && r.body[0] as int == '<' as int
  {
  }
}
