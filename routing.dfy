/** The routing decision of the handler in main.go: whether a request URI
    looks like a static asset, the extension taken from it, and the
    Content-Type that extension selects. */
module Routing {
  import opened Http

  /** `\w` in Go's regular-expression syntax: ASCII digits, letters and `_`. */
  predicate IsWordChar(c: char) {
    ('0' <= c <= '9') || ('A' <= c <= 'Z') || ('a' <= c <= 'z') || c == '_'
  }

  predicate AllWordChars(s: string) {
    forall i :: 0 <= i < |s| ==> IsWordChar(s[i])
  }

  // ---------------------------------------------------------------------
  // The asset pattern `.*\.\w{1,5}\z`
  // ---------------------------------------------------------------------

  /** The URI ends with `.` followed by exactly `k` word characters. */
  predicate EndsWithExtensionOfLength(uri: string, k: int) {
    0 <= k < |uri| && uri[|uri| - k - 1] == '.' && AllWordChars(uri[|uri| - k..])
  }

  /** The routing predicate as an explicit check: the URI ends with `.`
      followed by one to five word characters. */
  predicate IsAsset(uri: string) {
    exists k :: 1 <= k <= 5 && EndsWithExtensionOfLength(uri, k)
  }

  /** `.` in Go's syntax without the `s` flag: any character but newline. */
  predicate NoNewline(s: string) {
    forall i :: 0 <= i < |s| ==> s[i] != '\n'
  }

  /** The pattern `.*\.\w{1,5}` matches `uri[i..]` in full, its `\w{1,5}`
      part taking the last `k` characters (the `\z` anchor pins the end of
      the match to the end of the input). */
  ghost predicate MatchesFrom(uri: string, i: int, k: int) {
    0 <= i && 1 <= k <= 5 && i + k + 1 <= |uri|
    && NoNewline(uri[i..|uri| - k - 1])
    && uri[|uri| - k - 1] == '.'
    && AllWordChars(uri[|uri| - k..])
  }

  /** What `regexp.Match(".*\\.\\w{1,5}\\z", uri)` reports: some substring
      of the input, starting anywhere, is a match. */
  ghost predicate RegexMatches(uri: string) {
    exists i, k :: MatchesFrom(uri, i, k)
  }

  /** The explicit check decides exactly what the unanchored regular
      expression decides. */
  lemma RegexIsExplicitCheck(uri: string)
    ensures RegexMatches(uri) <==> IsAsset(uri)
  {
    if RegexMatches(uri) {
      var i, k :| MatchesFrom(uri, i, k);
      assert EndsWithExtensionOfLength(uri, k);
    }
    if IsAsset(uri) {
      var k :| 1 <= k <= 5 && EndsWithExtensionOfLength(uri, k);
      assert MatchesFrom(uri, |uri| - k - 1, k);
    }
  }

  // ---------------------------------------------------------------------
  // strings.Split(uri, ".") and the extension
  // ---------------------------------------------------------------------

  /** `strings.Split(s, ".")`: the pieces between the dots, one more piece
      than there are dots. */
  function Split(s: string): (parts: seq<string>)
    ensures |parts| >= 1
    ensures forall j :: 0 <= j < |parts| ==> '.' !in parts[j]
    ensures |parts| == 1 <==> '.' !in s
    decreases |s|
  {
    if s == [] then [""]
    else
      var rest := Split(s[1..]);
      if s[0] == '.' then [""] + rest
      else [[s[0]] + rest[0]] + rest[1..]
  }

  /** `strings.Join(parts, ".")`. */
  function JoinDots(parts: seq<string>): string
    requires |parts| >= 1
  {
    if |parts| == 1 then parts[0] else parts[0] + "." + JoinDots(parts[1..])
  }

  lemma JoinDotsPrepend(head: string, tail: seq<string>)
    ensures JoinDots([head] + tail) == if tail == [] then head else head + "." + JoinDots(tail)
  {
    assert ([head] + tail)[1..] == tail;
  }

  lemma DotConcatAssoc(c: char, h: string, j: string)
    ensures ([c] + h) + "." + j == [c] + (h + "." + j)
  {
  }

  lemma JoinDotsCons(c: char, parts: seq<string>)
    requires |parts| >= 1
    ensures JoinDots([[c] + parts[0]] + parts[1..]) == [c] + JoinDots(parts)
  {
    var h, t := parts[0], parts[1..];
    JoinDotsPrepend([c] + h, t);
    JoinDotsPrepend(h, t);
    assert [h] + t == parts;
    if t != [] {
      DotConcatAssoc(c, h, JoinDots(t));
    }
  }

  /** Joining the pieces with `.` gives back the URI. */
  lemma {:induction false} SplitJoinRoundTrip(s: string)
    ensures JoinDots(Split(s)) == s
    decreases |s|
  {
    if s != [] {
      var rest := Split(s[1..]);
      SplitJoinRoundTrip(s[1..]);
      if s[0] == '.' {
        assert ([""] + rest)[1..] == rest;
        assert s == [s[0]] + s[1..];
      } else {
        JoinDotsCons(s[0], rest);
        assert s == [s[0]] + s[1..];
      }
    }
  }

  lemma {:induction false} SplitDotFreePrefix(a: string, tail: string)
    requires '.' !in a
    ensures Split(a + tail) == [a + Split(tail)[0]] + Split(tail)[1..]
    decreases |a|
  {
    if a == [] {
      assert a + tail == tail;
      assert a + Split(tail)[0] == Split(tail)[0];
      assert [Split(tail)[0]] + Split(tail)[1..] == Split(tail);
    } else {
      SplitDotFreePrefix(a[1..], tail);
      var t := Split(tail);
      assert (a + tail)[1..] == a[1..] + tail;
      assert (a + tail)[0] == a[0];
      var r := Split(a[1..] + tail);
      assert r[0] == a[1..] + t[0];
      assert r[1..] == t[1..];
      assert [a[0]] + (a[1..] + t[0]) == a + t[0];
    }
  }

  /** Splitting dot-free pieces joined with `.` gives back the pieces. */
  lemma {:induction false} JoinSplitRoundTrip(parts: seq<string>)
    requires |parts| >= 1
    requires forall j :: 0 <= j < |parts| ==> '.' !in parts[j]
    ensures Split(JoinDots(parts)) == parts
    decreases |parts|
  {
    if |parts| == 1 {
      SplitDotFreePrefix(parts[0], "");
      assert parts[0] + "" == parts[0];
    } else {
      var tail := JoinDots(parts[1..]);
      JoinSplitRoundTrip(parts[1..]);
      SplitDotFreePrefix(parts[0], "." + tail);
      assert ("." + tail)[1..] == tail;
      assert ("." + tail)[0] == '.';
      var d := Split("." + tail);
      assert d == [""] + Split(tail);
      assert d[0] == "" && d[1..] == parts[1..];
      assert parts[0] + d[0] == parts[0];
      assert parts[0] + "." + tail == parts[0] + ("." + tail);
      assert [parts[0]] + parts[1..] == parts;
    }
  }

  /** The last piece of the split is the text after the last `.`. */
  lemma {:induction false} LastPieceIsSuffix(s: string)
    ensures var parts := Split(s); var e := parts[|parts| - 1];
      |e| <= |s| && s[|s| - |e|..] == e
      && (|e| == |s| <==> '.' !in s)
      && (|e| < |s| ==> s[|s| - |e| - 1] == '.')
    decreases |s|
  {
    if s != [] {
      var t := s[1..];
      LastPieceIsSuffix(t);
      var rest := Split(t);
      var parts := Split(s);
      var e' := rest[|rest| - 1];
      assert t[|t| - |e'|..] == s[|s| - |e'|..];
      if s[0] == '.' {
        assert parts == [""] + rest;
        assert parts[|parts| - 1] == e';
      } else if |rest| == 1 {
        assert parts == [[s[0]] + t];
        assert s == [s[0]] + t;
      } else {
        assert parts == [[s[0]] + rest[0]] + rest[1..];
        assert parts[|parts| - 1] == e';
      }
    }
  }

  /** `s[len(s)-1]` where `s := strings.Split(uri, ".")`: the extension. It
      is a dot-free suffix of the URI, preceded by a `.` when the URI has one,
      and the whole URI when it has none. */
  function Extension(uri: string): (ext: string)
    ensures '.' !in ext
    ensures |ext| <= |uri| && uri[|uri| - |ext|..] == ext
    ensures |ext| == |uri| <==> '.' !in uri
    ensures |ext| < |uri| ==> uri[|uri| - |ext| - 1] == '.'
  {
    LastPieceIsSuffix(uri);
    var parts := Split(uri);
    parts[|parts| - 1]
  }

  /** Wherever the URI ends with `.` and word characters, those characters
      are the extension: word characters never include a `.`. */
  lemma ExtensionAfterDot(uri: string, k: int)
    requires EndsWithExtensionOfLength(uri, k)
    ensures Extension(uri) == uri[|uri| - k..]
  {
    var e := Extension(uri);
    var w := uri[|uri| - k..];
    assert '.' !in w by {
      forall i | 0 <= i < |w| ensures w[i] != '.' { assert IsWordChar(w[i]); }
    }
    assert '.' in uri by { assert uri[|uri| - k - 1] == '.'; }
  }

  /** The routing predicate stated through the extension: the URI has a `.`
      and the text after its last `.` is one to five word characters. */
  lemma AssetIffShortWordExtension(uri: string)
    ensures IsAsset(uri) <==>
      ('.' in uri && 1 <= |Extension(uri)| <= 5 && AllWordChars(Extension(uri)))
  {
    var e := Extension(uri);
    if IsAsset(uri) {
      var k :| 1 <= k <= 5 && EndsWithExtensionOfLength(uri, k);
      ExtensionAfterDot(uri, k);
      assert uri[|uri| - k - 1] == '.';
    }
    if '.' in uri && 1 <= |e| <= 5 && AllWordChars(e) {
      assert EndsWithExtensionOfLength(uri, |e|);
    }
  }

  /** For an asset URI the extension has one to five characters, none of
      them a `.`, and the URI is what precedes its last `.`, that `.`, and
      the extension. */
  lemma AssetExtensionShape(uri: string)
    requires IsAsset(uri)
    ensures var e := Extension(uri);
      1 <= |e| <= 5 && '.' !in e && AllWordChars(e)
      && uri == uri[..|uri| - |e| - 1] + "." + e
  {
    AssetIffShortWordExtension(uri);
    var e := Extension(uri);
    assert uri == uri[..|uri| - |e| - 1] + [uri[|uri| - |e| - 1]] + uri[|uri| - |e|..];
  }

  // ---------------------------------------------------------------------
  // Content-Type by extension
  // ---------------------------------------------------------------------

  /** The `switch ext` of the handler: `css`, `js` and `svg` select a
      Content-Type; every other extension, compared case-sensitively,
      selects none. */
  function ContentTypeFor(ext: string): (ct: Option<string>)
    ensures ct.Some? <==> ext in {"css", "js", "svg"}
    ensures ct.Some? ==> ct.value in {"text/css", "application/javascript", "image/svg+xml"}
  {
    if ext == "css" then Some("text/css")
    else if ext == "js" then Some("application/javascript")
    else if ext == "svg" then Some("image/svg+xml")
    else None
  }

  /** Each recognised extension gets its own type; the match is case-sensitive. */
  lemma ContentTypeTable()
    ensures ContentTypeFor("css") == Some("text/css")
    ensures ContentTypeFor("js") == Some("application/javascript")
    ensures ContentTypeFor("svg") == Some("image/svg+xml")
    ensures ContentTypeFor("CSS") == None && ContentTypeFor("JS") == None
    ensures ContentTypeFor("Svg") == None && ContentTypeFor("html") == None
  {
  }

  /** An extension longer than five characters is routed to the index. */
  lemma LongExtensionIsAppRoute()
    ensures !IsAsset("/file.toolong")
  {
    var u := "/file.toolong";
    forall k | 1 <= k <= 5 ensures !EndsWithExtensionOfLength(u, k) {
      assert u[|u| - k - 1] != '.';
    }
  }

  /** Paths without a dotted extension, and one ending in a bare `.`. */
  lemma PlainPathsAreAppRoutes()
    ensures !IsAsset("/") && !IsAsset("/about") && !IsAsset("/dir.")
  {
    var u := "/about";
    forall k | 1 <= k <= 5 ensures !EndsWithExtensionOfLength(u, k) {
      assert u[|u| - k - 1] != '.';
    }
    var d := "/dir.";
    forall k | 1 <= k <= 5 ensures !EndsWithExtensionOfLength(d, k) {
      if k < |d| { assert d[|d| - k - 1] != '.'; }
    }
  }

  /** A query string containing `?` and `=` after the last `.` is not an
      extension, so such a URI is routed to the index. */
  lemma QueryIsAppRoute()
    ensures !IsAsset("/a.js?x=1")
  {
    var u := "/a.js?x=1";
    forall k | 1 <= k <= 5 ensures !EndsWithExtensionOfLength(u, k) {
      assert u[|u| - k - 1] != '.';
    }
  }

  /** A five-character extension is an asset, and `/app.js` has extension `js`. */
  lemma AssetExamples()
    ensures IsAsset("/font.woff2")
    ensures IsAsset("/app.js") && Extension("/app.js") == "js"
  {
    assert EndsWithExtensionOfLength("/font.woff2", 5);
    assert EndsWithExtensionOfLength("/app.js", 2);
    ExtensionAfterDot("/app.js", 2);
  }
}
