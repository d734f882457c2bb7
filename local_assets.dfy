/** The dev-server handler that answers requests for theme assets on the proxied
    CDN from the local theme files, and lets every other request fall through
    to the CDN. MIME lookup, the CDN-proxy rewrite of text, and the file
    system's read and stat are not modelled: they are parameters. */
module LocalAssets {
  import opened Wrappers
  import opened Strings

  // ---------------------------------------------------------------------------
  // The filename pattern ^\/cdn\/.*?\/assets\/([^?]+)(\?|$)

  const CdnPrefix: string := "/cdn/"
  const AssetsDir: string := "/assets/"

  /** The characters `.` does not match in a pattern without the `s` flag. */
  predicate IsLineTerminator(c: char) {
    c == '\n' || c == '\r' || c == '\U{2028}' || c == '\U{2029}'
  }

  /** Length of the longest run of characters other than '?' at the front of s:
      what `([^?]+)` takes greedily; the run ends at a '?' or at the end. */
  function NameLength(s: string): (n: nat)
    ensures n <= |s|
    ensures forall k :: 0 <= k < n ==> s[k] != '?'
    ensures n < |s| ==> s[n] == '?'
  {
    if s == [] || s[0] == '?' then 0 else 1 + NameLength(s[1..])
  }

  /** "/assets/" starts at i and is followed by a character other than '?'. */
  predicate AssetsAt(path: string, i: nat) {
    i + |AssetsDir| < |path| && path[i..i + |AssetsDir|] == AssetsDir && path[i + |AssetsDir|] != '?'
  }

  /** The pattern matches with the lazy `.*?` spanning path[5..i]: the path starts
      with "/cdn/", no line terminator lies in between, and "/assets/" plus at
      least one filename character follow at i. */
  predicate MatchesAt(path: string, i: nat) {
    && StartsWith(path, CdnPrefix)
    && |CdnPrefix| <= i
    && AssetsAt(path, i)
    && forall k :: |CdnPrefix| <= k < i ==> !IsLineTerminator(path[k])
  }

  /** The match the regex engine reports: the one where `.*?` is shortest. */
  predicate FirstMatch(path: string, i: nat) {
    MatchesAt(path, i) && forall j: nat :: |CdnPrefix| <= j < i ==> !MatchesAt(path, j)
  }

  /** The captured filename for a match at i. */
  function NameAt(path: string, i: nat): string
    requires AssetsAt(path, i)
  {
    var from := i + |AssetsDir|;
    path[from..from + NameLength(path[from..])]
  }

  /** The lazy `.*?` at work: try "/assets/" at i, else consume path[i] and move on. */
  function FindFrom(path: string, i: nat): (r: Option<nat>)
    requires StartsWith(path, CdnPrefix) && |CdnPrefix| <= i <= |path|
    requires forall k :: |CdnPrefix| <= k < i ==> !IsLineTerminator(path[k])
    ensures r.Some? ==> i <= r.value && MatchesAt(path, r.value)
    ensures r.Some? ==> forall j: nat :: i <= j < r.value ==> !MatchesAt(path, j)
    ensures r.None? ==> forall j: nat :: i <= j ==> !MatchesAt(path, j)
    decreases |path| - i
  {
    if AssetsAt(path, i) then Some(i)
    else if i < |path| && !IsLineTerminator(path[i]) then FindFrom(path, i + 1)
    else None
  }

  /** Where the pattern matches, if it does. */
  function FindMatch(path: string): (r: Option<nat>)
    ensures r.Some? ==> FirstMatch(path, r.value)
    ensures r.None? ==> forall j: nat :: !MatchesAt(path, j)
  {
    if StartsWith(path, CdnPrefix) then FindFrom(path, |CdnPrefix|) else None
  }

  /** `event.path.match(...)?.[1]`: the asset filename of a request path. */
  function FindAssetName(path: string): (r: Option<string>)
    ensures r.Some? <==> exists i: nat :: MatchesAt(path, i)
    ensures r.Some? ==> |r.value| > 0 && forall k :: 0 <= k < |r.value| ==> r.value[k] != '?'
  {
    match FindMatch(path)
    case None => None
    case Some(i) => Some(NameAt(path, i))
  }

  /** A found filename is what the regex captures: the path is "/cdn/", a stretch
      free of line terminators, "/assets/", the name, then a '?' or nothing; and
      no earlier "/assets/" could have started a match. */
  lemma FoundNameShape(path: string, name: string)
    requires FindAssetName(path) == Some(name)
    ensures exists i: nat :: (FirstMatch(path, i)
      && path[..|CdnPrefix|] == CdnPrefix
      && path[i..i + |AssetsDir|] == AssetsDir
      && i + |AssetsDir| + |name| <= |path|
      && path[i + |AssetsDir|..i + |AssetsDir| + |name|] == name
      && (i + |AssetsDir| + |name| == |path| || path[i + |AssetsDir| + |name|] == '?'))
  {
    var i := FindMatch(path).value;
    assert FirstMatch(path, i);
  }

  /** A path of the form "/cdn/" + "/assets/" + name, where name has no '?' or is
      followed by one, yields exactly name. */
  lemma ImmediateMatch(name: string, query: string)
    requires name != [] && forall k :: 0 <= k < |name| ==> name[k] != '?'
    requires query == [] || query[0] == '?'
    ensures FindAssetName(CdnPrefix + AssetsDir + name + query) == Some(name)
  {
    var path := CdnPrefix + AssetsDir + name + query;
    assert |CdnPrefix| == 5 && |AssetsDir| == 8;
    assert path == (CdnPrefix + AssetsDir) + (name + query);
    assert path[..5] == CdnPrefix;
    assert path[5..13] == AssetsDir;
    assert path[13..] == name + query;
    assert AssetsAt(path, 5);
    NameLengthOf(name, query);
    assert path[13..13 + |name|] == name;
  }

  lemma {:induction false} NameLengthOf(name: string, query: string)
    requires forall k :: 0 <= k < |name| ==> name[k] != '?'
    requires query == [] || query[0] == '?'
    ensures NameLength(name + query) == |name|
    decreases |name|
  {
    if name != [] {
      assert (name + query)[1..] == name[1..] + query;
      NameLengthOf(name[1..], query);
    }
  }

  // ---------------------------------------------------------------------------
  // The routing decision

  /** An entry of the local theme file map; `value` is its cached text, if any. */
  datatype ThemeAsset = ThemeAsset(checksum: string, value: Option<string>)

  /** What the handler does with a request. */
  datatype Outcome =
    | FallThrough                              // returns nothing: the CDN answers
    | Serve(fileKey: string, mimeType: string) // serves the local file with that type

  /** The header set on every locally served asset. */
  const LocalAssetHeader: string := "X-Local-Asset"

  /** `joinPath('assets', name)`, without path normalisation. */
  function AssetKey(name: string): (k: string)
    ensures StartsWith(k, "assets/") && k[|"assets/"|..] == name
  {
    "assets/" + name
  }

  /** An image request with a '&' in its path carries filter parameters (crop, size)
      that only the CDN can apply. */
  predicate BypassImage(mimeType: string, path: string)
    ensures BypassImage(mimeType, path) <==>
      (|mimeType| >= 6 && mimeType[..6] == "image/" && exists k :: 0 <= k < |path| && path[k] == '&')
  {
    StartsWith(mimeType, "image/") && '&' in path
  }

  /** The handler's decision: only GET requests whose path names an asset that is
      in the local file map are served, except filtered images. */
  function Route(httpMethod: string, path: string, files: map<string, ThemeAsset>,
                 lookupMimeType: string -> string): (r: Outcome)
    ensures r.Serve? ==> httpMethod == "GET"
    ensures r.Serve? ==> r.fileKey in files && StartsWith(r.fileKey, "assets/")
    ensures r.Serve? ==> r.mimeType == lookupMimeType(r.fileKey) && !BypassImage(r.mimeType, path)
  {
    if httpMethod != "GET" then FallThrough
    else match FindAssetName(path)
      case None => FallThrough
      case Some(name) =>
        var fileKey := AssetKey(name);
        if fileKey !in files then FallThrough
        else
          var mimeType := lookupMimeType(fileKey);
          if BypassImage(mimeType, path) then FallThrough
          else Serve(fileKey, mimeType)
  }

  /** A request is served exactly when it is a GET, the pattern matches, the key
      "assets/" + captured name is in the file map, and it is not a filtered image;
      what is served is that key with its looked-up type. */
  lemma RouteServesIff(httpMethod: string, path: string, files: map<string, ThemeAsset>,
                       lookupMimeType: string -> string, fileKey: string, mimeType: string)
    ensures Route(httpMethod, path, files, lookupMimeType) == Serve(fileKey, mimeType)
      <==> (&& httpMethod == "GET"
            && (exists i: nat :: FirstMatch(path, i) && fileKey == "assets/" + NameAt(path, i))
            && fileKey in files
            && mimeType == lookupMimeType(fileKey)
            && !BypassImage(mimeType, path))
  {
    if httpMethod == "GET" && (exists i: nat :: FirstMatch(path, i) && fileKey == "assets/" + NameAt(path, i)) {
      var i: nat :| FirstMatch(path, i) && fileKey == "assets/" + NameAt(path, i);
      var j := FindMatch(path).value;
      assert i == j;
    }
  }

  // ---------------------------------------------------------------------------
  // Serving

  /** A request; its response headers are the state the handler changes. */
  class Event {
    const httpMethod: string
    const path: string
    var responseHeaders: map<string, string>

    constructor (httpMethod: string, path: string)
      ensures this.httpMethod == httpMethod && this.path == path
      ensures responseHeaders == map[]
    {
      this.httpMethod := httpMethod;
      this.path := path;
      responseHeaders := map[];
    }

    /** `setResponseHeader(event, name, value)`. */
    method SetResponseHeader(name: string, value: string)
      modifies this
      ensures responseHeaders == old(responseHeaders)[name := value]
    {
      responseHeaders := responseHeaders[name := value];
    }
  }

  /** The event handler: decides as Route does and, when it serves, marks the
      response with `X-Local-Asset: true` before handing it to the static server. */
  method HandleAssetRequest(event: Event, files: map<string, ThemeAsset>,
                            lookupMimeType: string -> string) returns (r: Outcome)
    modifies event
    ensures r == Route(event.httpMethod, event.path, files, lookupMimeType)
    ensures r.Serve? ==> event.responseHeaders == old(event.responseHeaders)[LocalAssetHeader := "true"]
    ensures r.FallThrough? ==> event.responseHeaders == old(event.responseHeaders)
  {
    if event.httpMethod != "GET" {
      return FallThrough;
    }
    var assetsFilename := FindAssetName(event.path);
    if assetsFilename.None? {
      return FallThrough;
    }
    var fileKey := AssetKey(assetsFilename.value);
    if fileKey !in files {
      return FallThrough;
    }
    var mimeType := lookupMimeType(fileKey);
    if BypassImage(mimeType, event.path) {
      return FallThrough;
    }
    event.SetResponseHeader(LocalAssetHeader, "true");
    r := Serve(fileKey, mimeType);
  }

  /** What the file system's read yields: text, or bytes. */
  datatype Content = Text(text: string) | Binary(bytes: seq<bv8>)

  /** File metadata from `stat`. */
  datatype Stats = Stats(size: nat, mtime: int)

  /** The metadata handed to the static server: whatever stat found, and the type. */
  datatype Meta = Meta(size: Option<nat>, mtime: Option<int>, mimeType: string)

  /** The cached text of a file, when it is a non-empty string (an empty string is falsy). */
  function CachedText(files: map<string, ThemeAsset>, fileKey: string): (r: Option<string>)
    ensures r.Some? <==> fileKey in files && files[fileKey].value.Some? && files[fileKey].value.value != ""
    ensures r.Some? ==> files[fileKey].value == Some(r.value)
  {
    if fileKey in files && files[fileKey].value.Some? && files[fileKey].value.value != ""
    then files[fileKey].value
    else None
  }

  /** `getContents`: the cached text if there is one, else what the file system reads;
      text goes through the CDN-proxy rewrite, bytes are served as read. */
  function GetContents(files: map<string, ThemeAsset>, fileKey: string,
                       read: string -> Content, injectCdnProxy: string -> string): (c: Content)
    ensures CachedText(files, fileKey).Some? ==> c == Text(injectCdnProxy(CachedText(files, fileKey).value))
    ensures CachedText(files, fileKey).None? && read(fileKey).Text? ==> c == Text(injectCdnProxy(read(fileKey).text))
    ensures CachedText(files, fileKey).None? && read(fileKey).Binary? ==> c == read(fileKey)
  {
    match CachedText(files, fileKey)
    case Some(cached) => Text(injectCdnProxy(cached))
    case None =>
      match read(fileKey)
      case Text(content) => Text(injectCdnProxy(content))
      case Binary(bytes) => Binary(bytes)
  }

  /** With a cached text the file system is not consulted: any two reads give the same contents. */
  lemma CacheWins(files: map<string, ThemeAsset>, fileKey: string, read1: string -> Content,
                  read2: string -> Content, injectCdnProxy: string -> string)
    requires CachedText(files, fileKey).Some?
    ensures GetContents(files, fileKey, read1, injectCdnProxy) == GetContents(files, fileKey, read2, injectCdnProxy)
  {
  }

  /** Every text served has been through the CDN-proxy rewrite. */
  lemma TextIsRewritten(files: map<string, ThemeAsset>, fileKey: string,
                        read: string -> Content, injectCdnProxy: string -> string)
    requires GetContents(files, fileKey, read, injectCdnProxy).Text?
    ensures exists t :: GetContents(files, fileKey, read, injectCdnProxy) == Text(injectCdnProxy(t))
  {
  }

  /** `getMeta`: the stat fields when stat succeeds, none when it fails; the type is
      always the looked-up MIME type. */
  function GetMeta(stat: Option<Stats>, mimeType: string): (m: Meta)
    ensures m.mimeType == mimeType
    ensures stat.Some? ==> m.size == Some(stat.value.size) && m.mtime == Some(stat.value.mtime)
    ensures stat.None? ==> m.size.None? && m.mtime.None?
  {
    match stat
    case Some(s) => Meta(Some(s.size), Some(s.mtime), mimeType)
    case None => Meta(None, None, mimeType)
  }
}
