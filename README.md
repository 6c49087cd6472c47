# static-server request handler in Dafny

A model of the request handler of `openbaass/static-server`, a small static
file server with single-page-application fallback. Each request URI is either
an *application route*, answered 200 with the index document, or a *static
asset* (the URI ends in `.` and one to five word characters), answered from
an in-memory cache. On a cache miss the file is read from disk and the result
is cached. A failed read is cached as the not-found document, and that
document doubles as a sentinel: a cache hit whose bytes equal it is replayed
as a 404.

Files:

- `http.dfy` (module `Http`): bytes, `Option`, headers, the response value, and the
  ASCII-literal-to-bytes function `AsciiBytes`.
- `routing.dfy` (module `Routing`): the asset pattern `.*\.\w{1,5}\z`. It is
  written as an explicit check (`IsAsset`) and proved equal to a reference
  statement of what the unanchored regular expression matches
  (`RegexMatches`). The module also holds `strings.Split(uri, ".")` with its
  round trips with `strings.Join`, the extension, and the Content-Type switch.
- `server.dfy` (module `StaticServer`): startup (`Start`), the handler as a
  function (`Serve`), and the class `Server`. Its `Handle` method updates the
  `cache` field in place and adds headers step by step, as the closure does.
  It is proved equal to `Serve`. It also keeps the invariant that every entry
  is what its disk read returned, or the not-found document.
- `properties.dfy` (module `ServerProperties`): what the handler promises,
  proved about `Serve`. This covers a single request and whole runs of
  requests.

The disk is a map from path to bytes; a path that is not a key cannot be
read. `path.Join` is a function value `join` that the model never looks
inside. So every property holds for any join and any disk.

Notes on the code as written:

- Go's `cache[uri]` yields `nil` only for a missing key. `ioutil.ReadFile`
  returns a non-nil slice even for an empty file. So `cached != nil` is
  modelled as "the URI is a key of the cache".
- A URI with a query string such as `/a.js?x=1` is not an asset, because `?`
  and `=` are not word characters. It is routed to the index document
  (`QueryIsAppRoute`). An asset URI with a query, such as `/a.js?v=1.0`, is
  cached under the whole raw URI, and the file read is `join(dir, uri)`, so
  the query is part of the path read. One might expect such requests to share
  one file. They do not: the model follows the code (`QueryStringsAreSeparateKeys`).
- The flags are never parsed, so the static directory is the constant
  `./public` (`StaticDir`).

## Model

| member | source | states |
|---|---|---|
| Http.AsciiBytes | main.go:30 | the bytes of an ASCII literal: one byte per character, each equal to the character's code |
| Routing.RegexIsExplicitCheck | main.go:37 | the unanchored pattern `.*\.\w{1,5}\z` matches somewhere in the URI exactly when the explicit check holds: the URI ends with `.` followed by 1 to 5 word characters |
| Routing.Split | main.go:40 | `strings.Split(uri, ".")` yields at least one piece, no piece contains `.`, and it yields exactly one piece exactly when the URI holds no `.` |
| Routing.SplitJoinRoundTrip | main.go:40 | joining the pieces with `.` gives back the URI |
| Routing.JoinSplitRoundTrip | main.go:40 | splitting dot-free pieces joined with `.` gives back the pieces |
| Routing.LastPieceIsSuffix | main.go:40-41 | the last piece is a suffix of the URI; it is the whole URI exactly when the URI has no `.`, and otherwise it is preceded by a `.` |
| Routing.Extension | main.go:40-41 | the extension is a dot-free suffix of the URI, preceded by `.` when the URI has one, and is the whole URI when it has none |
| Routing.ExtensionAfterDot | main.go:37-41 | when the URI ends with `.` and k word characters, the extension is exactly those k characters |
| Routing.AssetIffShortWordExtension | main.go:37-41 | a URI is an asset exactly when it has a `.` and the text after its last `.` is 1 to 5 word characters |
| Routing.AssetExtensionShape | main.go:37-41 | for an asset URI the extension has length 1 to 5, holds no `.`, and the URI is the text before its last `.`, then that `.`, then the extension |
| Routing.ContentTypeFor | main.go:42-53 | a Content-Type is chosen exactly for `css`, `js` and `svg`, and it is one of the three types |
| Routing.ContentTypeTable | main.go:42-53 | `css` maps to `text/css`, `js` to `application/javascript`, `svg` to `image/svg+xml`; `CSS`, `JS`, `Svg` and `html` get none |
| Routing.LongExtensionIsAppRoute | main.go:37 | `/file.toolong`, whose extension has seven characters, is an application route |
| Routing.PlainPathsAreAppRoutes | main.go:37 | `/`, `/about` and `/dir.` (a bare trailing `.`) are application routes |
| Routing.QueryIsAppRoute | main.go:37 | `/a.js?x=1` is an application route, since `?` and `=` are not word characters |
| Routing.AssetExamples | main.go:37-41 | `/font.woff2` and `/app.js` are assets, the latter with extension `js` |
| StaticServer.DefaultNotFound | main.go:28-31 | the built-in not-found document is the bytes of `<h1> 404 - Page not found </h1>` |
| StaticServer.Start | main.go:24-31 | startup fails, naming the path, exactly when `index.html` cannot be read; otherwise the index is its bytes and the not-found document is `404.html` when readable, else the built-in one |
| StaticServer.Server.constructor | main.go:23 | the server starts with an empty cache and the documents it was given |
| StaticServer.Server.Handle | main.go:32-82 | the response and the new cache are those of `Serve` for the old cache; the invariant that each entry is its read's bytes or the not-found document is kept |
| ServerProperties.IndexExactlyForAppRoutes | main.go:37-81 | the response is 200, `Content-Type: text/html` and the index document exactly when the URI is not an asset, and then the cache is unchanged |
| ServerProperties.AppRouteReadsNoDisk | main.go:79-81 | an application route gives the same outcome whatever the disk holds |
| ServerProperties.ServerHeaderAlways | main.go:33 | every response's first header is `Server: Static-Server` |
| ServerProperties.AssetContentType | main.go:42-53 | an asset response has `Server`, then the Content-Type of `css`, `js` or `svg`, and no Content-Type for any other extension |
| ServerProperties.StatusAndBody | main.go:56-81 | the status is 200 or 404, and a 404 is an asset response whose body is the not-found document |
| ServerProperties.MissWithFailedRead | main.go:67-72 | a miss with a failed read answers 404 with the not-found document and stores it under the URI |
| ServerProperties.MissWithSuccessfulRead | main.go:67-77 | a miss with a successful read answers 200 with the file's bytes and stores them under the URI |
| ServerProperties.HitReplaysCache | main.go:56-65 | a hit answers with the cached bytes, 404 exactly when they equal the not-found document, leaves the cache alone and ignores the disk |
| ServerProperties.FailureIsSticky | main.go:56-72 | after a failed read, the next request for the URI is again 404 with the not-found document, whatever the disk then holds |
| ServerProperties.SuccessIsReplayed | main.go:56-76 | after a successful read of bytes other than the not-found document, the next request gets the same 200 response without the disk |
| ServerProperties.SentinelCollision | main.go:58-64 | a file whose bytes equal the not-found document is served 200 first and 404 afterwards |
| ServerProperties.CacheOnlyGrows | main.go:56-76 | a request adds at most the entry for its own URI, only for an asset, and changes or removes no existing entry |
| ServerProperties.NewEntryIsReadResult | main.go:67-76 | a new entry is the bytes read, or the not-found document when the read failed |
| ServerProperties.OtherKeysUntouched | main.go:56-76 | a request for one URI leaves the presence and the bytes of every other URI's entry as they were, since the key is the raw URI |
| ServerProperties.QueryStringsAreSeparateKeys | main.go:56-76 | for any cache: `/a.js?v=1.0` and `/a.js?v=2.0` are both assets, and serving the first one stores an entry for it without touching the second one's entry |
| ServerProperties.EntriesArePermanent | main.go:56-76 | over any run of requests, an entry once present keeps its bytes |
| ServerProperties.NotFoundForever | main.go:56-72 | after a failed read, a request for that URI at any later point of any run is 404 with the not-found document |
| ServerProperties.DefaultNotFoundServed | main.go:28-31 | started without `404.html`, a failed lookup is answered 404 with the 31-byte built-in document |

## Left out

- Flag handling (main.go:16-18): the flags are read before any parsing, so
  their defaults are constants. Only the directory `./public` matters here.
- Logging (main.go:34-36, 84): a side effect that does not affect the response.
- The HTTP listener, `ListenAndServe` failing to bind, and the
  `ResponseWriter`/`Request` API (main.go:32, 85): I/O plumbing. A response is
  a value of status, headers in the order added, and body. Go's
  canonicalisation of header names is not modelled.
- What net/http does outside the handler: when no Content-Type was added and
  the body is not empty, it sniffs one (`DetectContentType`), so "no
  Content-Type" holds only for the headers the handler adds. It also writes
  headers sorted by name, so "first header" means the first one added. It
  adds `Date`, and either `Content-Length` or chunked encoding, depending on
  the body size. `ServeMux` answers some requests before the handler runs:
  301 for unclean paths such as `/x/../a.js`, and 400 for a `*` request
  target.
- `ioutil.ReadFile`, `path.Join` and `path.Clean` (main.go:24, 28, 67): foreign
  library calls. The disk is a map, and `join` is an uninterpreted function
  value. The reason a read failed is not modelled.
- `log.Fatalf` (main.go:26): process termination is the `MissingIndex` result
  of `Start`.
- Concurrent requests on the unsynchronised map: the model handles one
  request at a time.
- The URI is a sequence of characters, not of UTF-8 bytes. The pattern's
  character classes are ASCII, so this changes nothing for the decision.
