/** The request handler of main.go and its startup: two documents read once,
    and a cache from raw request URI to the bytes first served for it. */
module StaticServer {
  import opened Http
  import opened Routing

  /** The `-dir` flag's default; the flags are never parsed, so it is the
      directory in effect. */
  const StaticDir := "./public"
  const IndexFile := "index.html"
  const NotFoundFile := "404.html"

  /** The built-in not-found document used when `404.html` cannot be read. */
  const DefaultNotFoundText := "<h1> 404 - Page not found </h1>"

  const ServerHeader := Header("Server", "Static-Server")
  const HtmlHeader := Header("Content-Type", "text/html")

  /** The disk as seen by `ioutil.ReadFile`: a path that is not a key cannot
      be read. */
  type FileSystem = map<string, seq<byte>>

  /** `path.Join`, left uninterpreted. */
  type PathJoin = (string, string) -> string

  /** The global `cache`: raw request URI to bytes. */
  type Cache = map<string, seq<byte>>

  function ReadFile(fs: FileSystem, path: string): (r: Option<seq<byte>>)
    ensures r.Some? <==> path in fs
    ensures r.Some? ==> r.value == fs[path]
  {
    if path in fs then Some(fs[path]) else None
  }

  lemma DefaultNotFoundTextIsAscii()
    ensures IsAscii(DefaultNotFoundText)
  {
  }

  function DefaultNotFound(): (r: seq<byte>)
    ensures |r| == |DefaultNotFoundText|
    ensures forall i :: 0 <= i < |r| ==> r[i] as int == DefaultNotFoundText[i] as int
  {
    DefaultNotFoundTextIsAscii();
    AsciiBytes(DefaultNotFoundText)
  }

  // ---------------------------------------------------------------------
  // Startup
  // ---------------------------------------------------------------------

  /** The index document and the not-found document, fixed after startup. */
  datatype Documents = Documents(indexHtml: seq<byte>, notFound: seq<byte>)

  /** The one fatal startup condition: `index.html` could not be read at the
      path named. */
  datatype Startup = Started(docs: Documents) | MissingIndex(path: string)

  /** Startup: a missing `index.html` is fatal; a missing `404.html` falls
      back to the built-in document. */
  function Start(fs: FileSystem, join: PathJoin): (r: Startup)
    ensures r.MissingIndex? <==> join(StaticDir, IndexFile) !in fs
    ensures r.MissingIndex? ==> r.path == join(StaticDir, IndexFile)
    ensures r.Started? ==> r.docs.indexHtml == fs[join(StaticDir, IndexFile)]
    ensures r.Started? && join(StaticDir, NotFoundFile) in fs ==>
      r.docs.notFound == fs[join(StaticDir, NotFoundFile)]
    ensures r.Started? && join(StaticDir, NotFoundFile) !in fs ==>
      r.docs.notFound == DefaultNotFound()
  {
    match ReadFile(fs, join(StaticDir, IndexFile))
    case None => MissingIndex(join(StaticDir, IndexFile))
    case Some(index) =>
      Started(Documents(index, ReadFile(fs, join(StaticDir, NotFoundFile)).GetOr(DefaultNotFound())))
  }

  // ---------------------------------------------------------------------
  // One request
  // ---------------------------------------------------------------------

  /** The response and the cache after one request. */
  datatype Outcome = Outcome(response: Response, cache: Cache)

  /** The response to an application route. */
  function IndexResponse(docs: Documents): Response {
    Response(200, [ServerHeader, HtmlHeader], docs.indexHtml)
  }

  /** The headers of an asset response: `Server`, then the Content-Type the
      extension selects, if any. */
  function AssetHeaders(uri: string): seq<Header> {
    match ContentTypeFor(Extension(uri))
    case Some(ct) => [ServerHeader, Header("Content-Type", ct)]
    case None => [ServerHeader]
  }

  /** The handler closure as a function of the documents, the cache before
      the request, the raw request URI and the disk. */
  function Serve(docs: Documents, join: PathJoin, cache: Cache, uri: string, fs: FileSystem): Outcome {
    if !IsAsset(uri) then
      Outcome(IndexResponse(docs), cache)
    else if uri in cache then
      var cached := cache[uri];
      Outcome(Response(if cached == docs.notFound then 404 else 200, AssetHeaders(uri), cached), cache)
    else
      match ReadFile(fs, join(StaticDir, uri))
      case None => Outcome(Response(404, AssetHeaders(uri), docs.notFound), cache[uri := docs.notFound])
      case Some(f) => Outcome(Response(200, AssetHeaders(uri), f), cache[uri := f])
  }

  // ---------------------------------------------------------------------
  // The handler as the source writes it: a server object whose cache the
  // handler updates in place
  // ---------------------------------------------------------------------

  class Server {
    const docs: Documents
    const join: PathJoin
    var cache: Cache
    /** For every cached URI, what the one disk read made for it returned. */
    ghost var firstRead: map<string, Option<seq<byte>>>

    /** Every cache entry is the bytes its disk read returned, or the
        not-found document when that read failed. */
    ghost predicate Valid()
      reads this
    {
      cache.Keys == firstRead.Keys
      && forall u :: u in cache ==> cache[u] == firstRead[u].GetOr(docs.notFound)
    }

    constructor (docs: Documents, join: PathJoin)
      ensures Valid()
      ensures this.docs == docs && this.join == join
      ensures cache == map[] && firstRead == map[]
    {
      this.docs := docs;
      this.join := join;
      cache := map[];
      firstRead := map[];
    }

    /** Handles one request for `uri` against the disk `fs`. */
    method Handle(uri: string, fs: FileSystem) returns (response: Response)
      requires Valid()
      modifies this
      ensures Valid()
      ensures response == Serve(docs, join, old(cache), uri, fs).response
      ensures cache == Serve(docs, join, old(cache), uri, fs).cache
      ensures firstRead ==
        if IsAsset(uri) && uri !in old(cache)
        then old(firstRead)[uri := ReadFile(fs, join(StaticDir, uri))]
        else old(firstRead)
    {
      var headers := [ServerHeader];
      if IsAsset(uri) {
        var ext := Extension(uri);
        match ContentTypeFor(ext) {
          case Some(ct) => headers := headers + [Header("Content-Type", ct)];
          case None =>
        }
        if uri in cache {
          var cached := cache[uri];
          if cached == docs.notFound {
            response := Response(404, headers, cached);
            return;
          }
          response := Response(200, headers, cached);
          return;
        }
        var read := ReadFile(fs, join(StaticDir, uri));
        firstRead := firstRead[uri := read];
        if read.None? {
          response := Response(404, headers, docs.notFound);
          cache := cache[uri := docs.notFound];
          return;
        }
        response := Response(200, headers, read.value);
        cache := cache[uri := read.value];
        return;
      }
      headers := headers + [HtmlHeader];
      response := Response(200, headers, docs.indexHtml);
    }
  }
}
