/** Recovering an object key from a stored profile image value. */
module ProfileImages {
  import opened Wrappers
  import opened Text

  datatype Settings = Settings(endpoint: Option<string>, region: string, avatarsBucket: string)

  predicate IsPrefix(segment: string) {
    segment == "avatars" || segment == "banners" || segment == "org-logos"
  }

  // ---- URLs ---------------------------------------------------------------------

  predicate StartsWith(s: string, prefix: string) {
    |prefix| <= |s| && s[..|prefix|] == prefix
  }

  predicate EndsWith(s: string, suffix: string) {
    |suffix| <= |s| && s[|s| - |suffix|..] == suffix
  }

  predicate IsUrl(s: string) {
    StartsWith(s, "http://") || StartsWith(s, "https://")
  }

  /** Up to the first character that ends it. */
  function UpTo(s: string, ends: set<char>): (r: string)
    ensures r <= s && forall c :: c in r ==> c !in ends
  {
    if s == "" || s[0] in ends then "" else [s[0]] + UpTo(s[1..], ends)
  }

  /** URL splitting drops tabs and line breaks wherever they are. */
  function WithoutBreaks(s: string): string {
    if s == "" then ""
    else (if s[0] == '\t' || s[0] == '\r' || s[0] == '\n' then "" else [s[0]]) + WithoutBreaks(s[1..])
  }

  function AfterScheme(url: string): string {
    if StartsWith(url, "https://") then url[8..] else if StartsWith(url, "http://") then url[7..] else url
  }

  /** `urlsplit(url).netloc`, for an http or https URL. */
  function Netloc(url: string): string {
    UpTo(WithoutBreaks(AfterScheme(url)), {'/', '?', '#'})
  }

  /** `urlsplit(url).path`. */
  function Path(url: string): string {
    var rest := WithoutBreaks(AfterScheme(url));
    UpTo(rest[|UpTo(rest, {'/', '?', '#'})|..], {'?', '#'})
  }

  // ---- The key --------------------------------------------------------------------

  /** Percent-decoding, as a function that leaves text without '%' alone. */
  datatype Primitives = Primitives(unquote: string -> string)

  ghost predicate Lawful(p: Primitives) {
    forall s: string :: '%' !in s ==> p.unquote(s) == s
  }

  function LeftStripSlashes(s: string): string {
    if s != "" && s[0] == '/' then LeftStripSlashes(s[1..]) else s
  }

  /** The segments from the first that is a profile prefix. */
  function FromPrefix(segments: seq<string>): Option<string> {
    if |segments| == 0 then None
    else if IsPrefix(segments[0]) then Some(Join(segments, '/'))
    else FromPrefix(segments[1..])
  }

  predicate IsOwnBucketHost(settings: Settings, host: string) {
    host != ""
    && (|| (settings.endpoint.Some? && host == Netloc(settings.endpoint.value))
        || StartsWith(host, settings.avatarsBucket + ".s3.")
        || (StartsWith(host, "s3.") && EndsWith(host, ".amazonaws.com")))
  }

  function KeyInPath(path: string): Option<string> {
    FromPrefix(Split(LeftStripSlashes(path), '/'))
  }

  function ProfileImageKey(p: Primitives, settings: Settings, stored: Option<string>): Option<string> {
    if stored.None? || stored.value == "" then None
    else if !IsUrl(stored.value) then stored
    else if !IsOwnBucketHost(settings, Netloc(stored.value)) then None
    else KeyInPath(p.unquote(Path(stored.value)))
  }

  // ---- The printer ------------------------------------------------------------------

  function PublicObjectUrl(settings: Settings, bucket: string, key: string): string {
    match settings.endpoint
    case Some(endpoint) => StripRight(endpoint, '/') + "/" + bucket + "/" + key
    case None => "https://" + bucket + ".s3." + settings.region + ".amazonaws.com/" + key
  }

  /** Text URL splitting leaves alone. */
  predicate Splittable(s: string) {
    forall i :: 0 <= i < |s| ==> s[i] !in {'?', '#', '\t', '\r', '\n'}
  }

  /** Text percent-decoding leaves alone, too. */
  predicate Clean(s: string) {
    Splittable(s) && '%' !in s
  }

  predicate AllSlashes(s: string) { forall i :: 0 <= i < |s| ==> s[i] == '/' }

  /** A host that URL splitting accepts as it stands: brackets would have to hold
      an IP literal, and characters outside ASCII are normalized before the check. */
  predicate HostText(s: string) {
    Clean(s) && IsAscii(s) && '/' !in s && '[' !in s && ']' !in s
  }

  // ---- Splitting what was printed -----------------------------------------------------

  lemma {:induction false} NothingToDrop(s: string)
    requires Splittable(s)
    ensures WithoutBreaks(s) == s
  {
    if s != "" {
      NothingToDrop(s[1..]);
    }
  }

  lemma {:induction false} UpToAll(s: string, ends: set<char>)
    requires forall c :: c in s ==> c !in ends
    ensures UpTo(s, ends) == s
  {
    if s != "" {
      UpToAll(s[1..], ends);
    }
  }

  lemma {:induction false} UpToFirst(a: string, b: string, ends: set<char>)
    requires (forall c :: c in a ==> c !in ends) && (b != "" ==> b[0] in ends)
    ensures UpTo(a + b, ends) == a
  {
    if a == "" {
      assert a + b == b;
    } else {
      assert (a + b)[1..] == a[1..] + b;
      UpToFirst(a[1..], b, ends);
    }
  }

  lemma SchemeIsDropped(scheme: string, rest: string)
    requires scheme == "http://" || scheme == "https://"
    ensures IsUrl(scheme + rest) && AfterScheme(scheme + rest) == rest
  {
    var url := scheme + rest;
    if scheme == "https://" {
      assert url[..8] == "https://" && url[8..] == rest;
    } else {
      assert url[..7] == "http://" && url[7..] == rest;
      assert !StartsWith(url, "https://") by { assert url[4] == ':' && "https://"[4] == 's'; }
    }
  }

  lemma HostOf(host: string, path: string)
    requires HostText(host) && (path != "" ==> path[0] == '/')
    ensures UpTo(host + path, {'/', '?', '#'}) == host
  {
    forall c | c in host ensures c !in {'/', '?', '#'} {}
    UpToFirst(host, path, {'/', '?', '#'});
  }

  lemma HostAndPathOf(url: string, host: string, path: string)
    requires AfterScheme(url) == host + path
    requires HostText(host) && Splittable(path) && (path != "" ==> path[0] == '/')
    ensures Netloc(url) == host && Path(url) == path
  {
    var rest := host + path;
    NothingToDrop(rest);
    HostOf(host, path);
    assert rest[|host|..] == path;
    UpToAll(path, {'?', '#'});
  }

  /** An http(s) URL printed from a host and a path splits into them. */
  lemma SplitsIntoHostAndPath(scheme: string, host: string, path: string)
    requires scheme == "http://" || scheme == "https://"
    requires HostText(host) && Splittable(path) && (path != "" ==> path[0] == '/')
    ensures IsUrl(scheme + host + path) && Netloc(scheme + host + path) == host && Path(scheme + host + path) == path
  {
    assert scheme + host + path == scheme + (host + path);
    SchemeIsDropped(scheme, host + path);
    HostAndPathOf(scheme + host + path, host, path);
  }

  // ---- Scanning the path ----------------------------------------------------------------

  lemma {:induction false} JoinSplit(s: string, sep: char)
    ensures Join(Split(s, sep), sep) == s
  {
    if s != "" {
      JoinSplit(s[1..], sep);
      if s[0] == sep {
        JoinEmptyFirst(Split(s[1..], sep), sep);
      } else {
        JoinLongerFirst(s[0], Split(s[1..], sep), sep);
      }
      assert s == [s[0]] + s[1..];
    }
  }

  lemma JoinEmptyFirst(rest: seq<string>, sep: char)
    requires rest != []
    ensures Join([""] + rest, sep) == [sep] + Join(rest, sep)
  {
  }

  lemma JoinLongerFirst(c: char, rest: seq<string>, sep: char)
    requires rest != []
    ensures Join([[c] + rest[0]] + rest[1..], sep) == [c] + Join(rest, sep)
  {
  }

  /** Segments that are no prefix are passed over. */
  lemma {:induction false} SkipSegments(before: seq<string>, after: seq<string>)
    requires (forall s :: s in before ==> !IsPrefix(s)) && after != [] && IsPrefix(after[0])
    ensures FromPrefix(before + after) == Some(Join(after, '/'))
  {
    if |before| == 0 {
      assert before + after == after;
    } else {
      assert (before + after)[1..] == before[1..] + after;
      SkipSegments(before[1..], after);
    }
  }

  /** A prefix among the earlier segments wins, and its key is longer. */
  lemma {:induction false} EarlierPrefixWins(before: seq<string>, after: seq<string>)
    requires (exists s :: s in before && IsPrefix(s)) && after != []
    ensures FromPrefix(before + after).Some? && |FromPrefix(before + after).value| > |Join(after, '/')|
  {
    assert (before + after)[1..] == before[1..] + after;
    if IsPrefix(before[0]) {
      JoinIsLonger(before, after);
    } else {
      EarlierPrefixWins(before[1..], after);
    }
  }

  lemma {:induction false} JoinIsLonger(before: seq<string>, after: seq<string>)
    requires before != [] && after != []
    ensures |Join(before + after, '/')| > |Join(after, '/')|
  {
    assert (before + after)[1..] == before[1..] + after;
    if |before| == 1 {
      assert before[1..] + after == after;
    } else {
      JoinIsLonger(before[1..], after);
    }
  }

  /** The key's first segment is a profile namespace. */
  predicate IsProfileKey(key: string) {
    Clean(key) && IsPrefix(Split(key, '/')[0])
  }

  lemma KeyDoesNotStartWithSlash(key: string)
    requires IsPrefix(Split(key, '/')[0])
    ensures key != "" && key[0] != '/' && LeftStripSlashes(key) == key
  {
  }

  lemma ScanFromKey(key: string)
    requires IsPrefix(Split(key, '/')[0])
    ensures FromPrefix(Split(key, '/')) == Some(key)
  {
    assert [] + Split(key, '/') == Split(key, '/');
    SkipSegments([], Split(key, '/'));
    JoinSplit(key, '/');
  }

  lemma ScanPastPrefix(prefix: string, key: string)
    requires IsPrefix(Split(key, '/')[0])
    ensures FromPrefix(Split(prefix + "/" + key, '/')) == Some(key) <==> NoNamespaceIn(prefix)
  {
    SplitAt(prefix, '/', key);
    JoinSplit(key, '/');
    if NoNamespaceIn(prefix) {
      SkipSegments(Split(prefix, '/'), Split(key, '/'));
    } else {
      EarlierPrefixWins(Split(prefix, '/'), Split(key, '/'));
    }
  }

  /** No segment of the path is named like a profile namespace. */
  predicate NoNamespaceIn(path: string) {
    forall s :: s in Split(path, '/') ==> !IsPrefix(s)
  }

  /** Behind any text and a slash, the key is recovered if and only if the text
      has no segment that is itself a namespace. */
  lemma {:induction false} KeyBehind(prefix: string, key: string)
    requires IsPrefix(Split(key, '/')[0])
    ensures KeyInPath(prefix + "/" + key) == Some(key) <==> NoNamespaceIn(prefix)
  {
    var path := prefix + "/" + key;
    if prefix == "" {
      assert path[1..] == key;
      KeyDoesNotStartWithSlash(key);
      ScanFromKey(key);
    } else if prefix[0] == '/' {
      assert path[1..] == prefix[1..] + "/" + key;
      KeyBehind(prefix[1..], key);
      EmptySegmentFirst(prefix);
    } else {
      assert path[0] == prefix[0];
      ScanPastPrefix(prefix, key);
    }
  }

  lemma EmptySegmentFirst(path: string)
    requires path != "" && path[0] == '/'
    ensures NoNamespaceIn(path) <==> NoNamespaceIn(path[1..])
  {
    var rest := Split(path[1..], '/');
    assert Split(path, '/') == [""] + rest;
    assert forall s :: s in rest ==> s in [""] + rest;
  }

  // ---- Round trips ------------------------------------------------------------------------

  /** Virtual-host style: every profile key in the avatars bucket is recovered
      from its public URL, under whatever endpoint is configured when reading. */
  lemma VirtualHostRoundTrip(p: Primitives, writing: Settings, reading: Settings, key: string)
    requires Lawful(p) && writing.endpoint.None? && writing.avatarsBucket == reading.avatarsBucket
    requires HostText(writing.avatarsBucket) && HostText(writing.region) && IsProfileKey(key)
    ensures PublicObjectUrl(writing, writing.avatarsBucket, key)
            == "https://" + (writing.avatarsBucket + ".s3." + writing.region + ".amazonaws.com") + ("/" + key)
    ensures ProfileImageKey(p, reading, Some(PublicObjectUrl(writing, writing.avatarsBucket, key))) == Some(key)
  {
    var bucket := writing.avatarsBucket;
    var host := bucket + ".s3." + writing.region + ".amazonaws.com";
    assert PublicObjectUrl(writing, bucket, key) == "https://" + host + ("/" + key);
    VirtualHostIsOwn(reading, writing.region);
    KeyOfOwnUrl(p, reading, "https://", host, "/" + key);
    KeyBehind("", key);
    assert "" + "/" + key == "/" + key;
  }

  lemma VirtualHostIsOwn(settings: Settings, region: string)
    requires HostText(settings.avatarsBucket) && HostText(region)
    ensures var host := settings.avatarsBucket + ".s3." + region + ".amazonaws.com";
            IsOwnBucketHost(settings, host) && HostText(host)
  {
    var host := settings.avatarsBucket + ".s3." + region + ".amazonaws.com";
    assert StartsWith(host, settings.avatarsBucket + ".s3.");
  }

  /** Path style, as against a configured endpoint with or without a path of its
      own: the key is recovered if and only if no segment of that path, nor of the
      bucket's name, is a profile namespace. */
  lemma PathStyleRoundTripIff(p: Primitives, settings: Settings, scheme: string, host: string, base: string,
                              slashes: string, bucket: string, key: string)
    requires Lawful(p) && (scheme == "http://" || scheme == "https://") && host != "" && HostText(host)
    requires settings.endpoint == Some(scheme + host + base + slashes) && BasePath(base) && AllSlashes(slashes)
    requires Clean(bucket) && IsProfileKey(key)
    ensures ProfileImageKey(p, settings, Some(PublicObjectUrl(settings, bucket, key))) == Some(key)
            <==> NoNamespaceIn(base + "/" + bucket)
  {
    PathStyleScans(p, settings, scheme, host, base, slashes, bucket, key);
    KeyBehind(base + "/" + bucket, key);
  }

  /** What is scanned is the path that was printed. */
  lemma PathStyleScans(p: Primitives, settings: Settings, scheme: string, host: string, base: string,
                       slashes: string, bucket: string, key: string)
    requires Lawful(p) && (scheme == "http://" || scheme == "https://") && host != "" && HostText(host)
    requires settings.endpoint == Some(scheme + host + base + slashes) && BasePath(base) && AllSlashes(slashes)
    requires Clean(bucket) && Clean(key)
    ensures ProfileImageKey(p, settings, Some(PublicObjectUrl(settings, bucket, key)))
            == KeyInPath(base + "/" + bucket + "/" + key)
  {
    UrlAgainstEndpoint(settings, scheme + host, base, slashes, bucket, key);
    EndpointHost(settings, scheme, host, base, slashes);
    UrlPath(base, bucket, key);
    KeyOfOwnUrl(p, settings, scheme, host, base + "/" + bucket + "/" + key);
  }

  /** For an endpoint without a path, that is a question about the bucket's name. */
  lemma BucketAlone(bucket: string)
    requires '/' !in bucket
    ensures NoNamespaceIn("/" + bucket) <==> !IsPrefix(bucket)
  {
    EmptySegmentFirst("/" + bucket);
    SplitOne(bucket, '/');
  }

  /** A bucket that is named like a namespace is taken for the start of the key. */
  lemma BucketTakenForKey(p: Primitives, settings: Settings, scheme: string, host: string, base: string,
                          slashes: string, bucket: string, key: string)
    requires Lawful(p) && (scheme == "http://" || scheme == "https://") && host != "" && HostText(host)
    requires settings.endpoint == Some(scheme + host + base + slashes) && BasePath(base) && AllSlashes(slashes)
    requires NoNamespaceIn(base) && IsPrefix(bucket) && IsProfileKey(key)
    ensures ProfileImageKey(p, settings, Some(PublicObjectUrl(settings, bucket, key))) == Some(bucket + "/" + key)
    ensures bucket + "/" + key != key
  {
    PathStyleScans(p, settings, scheme, host, base, slashes, bucket, key);
    ScanStartsAtBucket(base, bucket, key);
    assert |bucket + "/" + key| > |key|;
  }

  lemma ScanStartsAtBucket(base: string, bucket: string, key: string)
    requires NoNamespaceIn(base) && IsPrefix(bucket)
    ensures KeyInPath(base + "/" + bucket + "/" + key) == Some(bucket + "/" + key)
  {
    StartsLikeKey(bucket, key);
    KeyBehind(base, bucket + "/" + key);
    assert base + "/" + bucket + "/" + key == base + "/" + (bucket + "/" + key);
  }

  lemma StartsLikeKey(bucket: string, key: string)
    requires IsPrefix(bucket)
    ensures IsPrefix(Split(bucket + "/" + key, '/')[0])
  {
    SplitAt(bucket, '/', key);
    SplitOne(bucket, '/');
  }

  /** An endpoint's own path: empty, or from a slash to anything but a slash. */
  predicate BasePath(base: string) {
    Clean(base) && (base != "" ==> base[0] == '/' && base[|base| - 1] != '/')
  }

  /** A URL on an own host: the path is decoded once, and then scanned. */
  lemma DecodedThenScanned(p: Primitives, settings: Settings, scheme: string, host: string, path: string)
    requires (scheme == "http://" || scheme == "https://") && HostText(host)
    requires Splittable(path) && path != "" && path[0] == '/' && IsOwnBucketHost(settings, host)
    ensures ProfileImageKey(p, settings, Some(scheme + host + path)) == KeyInPath(p.unquote(path))
  {
    SplitsIntoHostAndPath(scheme, host, path);
  }

  lemma KeyOfOwnUrl(p: Primitives, settings: Settings, scheme: string, host: string, path: string)
    requires Lawful(p) && (scheme == "http://" || scheme == "https://") && HostText(host)
    requires Clean(path) && path != "" && path[0] == '/' && IsOwnBucketHost(settings, host)
    ensures ProfileImageKey(p, settings, Some(scheme + host + path)) == KeyInPath(path)
  {
    DecodedThenScanned(p, settings, scheme, host, path);
    assert p.unquote(path) == path;
  }

  lemma EndpointHost(settings: Settings, scheme: string, host: string, base: string, slashes: string)
    requires (scheme == "http://" || scheme == "https://") && host != "" && HostText(host)
    requires BasePath(base) && AllSlashes(slashes) && settings.endpoint == Some(scheme + host + base + slashes)
    ensures IsOwnBucketHost(settings, host)
  {
    CleanConcat(base, slashes);
    SplitsIntoHostAndPath(scheme, host, base + slashes);
    assert scheme + host + base + slashes == scheme + host + (base + slashes);
  }

  lemma CleanConcat(a: string, b: string)
    requires Clean(a) && Clean(b)
    ensures Clean(a + b)
  {
  }

  lemma UrlPath(base: string, bucket: string, key: string)
    requires BasePath(base) && Clean(bucket) && Clean(key)
    ensures var path := base + "/" + bucket + "/" + key; Clean(path) && path != "" && path[0] == '/'
  {
    CleanConcat(base, "/");
    CleanConcat(base + "/", bucket);
    CleanConcat(base + "/" + bucket, "/");
    CleanConcat(base + "/" + bucket + "/", key);
  }

  lemma UrlAgainstEndpoint(settings: Settings, origin: string, base: string, slashes: string,
                           bucket: string, key: string)
    requires origin != "" && origin[|origin| - 1] != '/' && BasePath(base) && AllSlashes(slashes)
    requires settings.endpoint == Some(origin + base + slashes)
    ensures PublicObjectUrl(settings, bucket, key) == origin + (base + "/" + bucket + "/" + key)
  {
    StripEndpoint(origin + base, slashes);
  }

  lemma {:induction false} StripEndpoint(s: string, slashes: string)
    requires s != "" && s[|s| - 1] != '/' && AllSlashes(slashes)
    ensures StripRight(s + slashes, '/') == s
  {
    if slashes == "" {
      assert s + slashes == s;
    } else {
      var n := |slashes| - 1;
      assert (s + slashes)[..|s| + n] == s + slashes[..n];
      assert (s + slashes)[|s| + n] == slashes[n];
      StripEndpoint(s, slashes[..n]);
    }
  }

  // ---- Other hosts, other shapes -----------------------------------------------------------

  /** The namespaces are three: a scan starts at the first segment among them, and
      without one there is no key. */
  lemma {:induction false} ScanFindsNamespace(segments: seq<string>)
    ensures FromPrefix(segments).None? <==> forall s :: s in segments ==> s !in {"avatars", "banners", "org-logos"}
  {
    if |segments| > 0 {
      ScanFindsNamespace(segments[1..]);
      assert segments[0] in segments && forall s :: s in segments <==> s == segments[0] || s in segments[1..];
    }
  }

  /** A URL on a host of none of the three shapes is somebody else's. */
  lemma ForeignHostIsRefused(p: Primitives, settings: Settings, scheme: string, host: string, path: string)
    requires (scheme == "http://" || scheme == "https://") && HostText(host)
    requires Splittable(path) && (path != "" ==> path[0] == '/')
    requires settings.endpoint.Some? ==> Netloc(settings.endpoint.value) != host
    requires !((settings.avatarsBucket + ".s3.") <= host)
    requires !("s3." <= host) || |host| < 14 || host[|host| - 14..] != ".amazonaws.com"
    ensures ProfileImageKey(p, settings, Some(scheme + host + path)) == None
  {
    SplitsIntoHostAndPath(scheme, host, path);
  }

  /** The regional host with the bucket in the path, under any settings. */
  lemma RegionalHost(p: Primitives, settings: Settings, region: string, bucket: string, key: string)
    requires Lawful(p) && HostText(region) && Clean(bucket) && IsProfileKey(key)
    ensures var url := "https://" + ("s3." + region + ".amazonaws.com") + ("/" + bucket + "/" + key);
            ProfileImageKey(p, settings, Some(url)) == Some(key) <==> NoNamespaceIn("/" + bucket)
  {
    var host := "s3." + region + ".amazonaws.com";
    RegionalHostIsOwn(settings, region);
    UrlPath("", bucket, key);
    assert "" + "/" + bucket + "/" + key == "/" + bucket + "/" + key;
    KeyOfOwnUrl(p, settings, "https://", host, "/" + bucket + "/" + key);
    KeyBehind("/" + bucket, key);
  }

  lemma RegionalHostIsOwn(settings: Settings, region: string)
    requires HostText(region)
    ensures var host := "s3." + region + ".amazonaws.com"; IsOwnBucketHost(settings, host) && HostText(host)
  {
    var host := "s3." + region + ".amazonaws.com";
    assert StartsWith(host, "s3.") && EndsWith(host, ".amazonaws.com");
  }

  /** Text that is no URL is a key already, and no text is none. */
  lemma KeyAsStored(p: Primitives, settings: Settings, stored: string)
    requires !("http://" <= stored) && !("https://" <= stored)
    ensures ProfileImageKey(p, settings, Some(stored)) == if stored == "" then None else Some(stored)
    ensures ProfileImageKey(p, settings, None) == None
  {
  }

  // ---- What URL splitting drops --------------------------------------------------------

  lemma {:induction false} WithoutBreaksConcat(a: string, b: string)
    ensures WithoutBreaks(a + b) == WithoutBreaks(a) + WithoutBreaks(b)
  {
    if a == "" {
      assert a + b == b;
    } else {
      assert (a + b)[1..] == a[1..] + b;
      WithoutBreaksConcat(a[1..], b);
    }
  }

  /** A tab or line break makes no difference, wherever it is after the scheme. */
  lemma BreakIsDropped(p: Primitives, settings: Settings, scheme: string, a: string, c: char, b: string)
    requires (scheme == "http://" || scheme == "https://") && c in {'\t', '\r', '\n'}
    ensures ProfileImageKey(p, settings, Some(scheme + (a + [c] + b)))
            == ProfileImageKey(p, settings, Some(scheme + (a + b)))
  {
    SchemeIsDropped(scheme, a + [c] + b);
    SchemeIsDropped(scheme, a + b);
    BreakVanishes(a, c, b);
    SameUrlSameKey(p, settings, scheme + (a + [c] + b), scheme + (a + b));
  }

  lemma BreakVanishes(a: string, c: char, b: string)
    requires c in {'\t', '\r', '\n'}
    ensures WithoutBreaks(a + [c] + b) == WithoutBreaks(a + b)
  {
    WithoutBreaksConcat(a + [c], b);
    WithoutBreaksConcat(a, [c]);
    WithoutBreaksConcat(a, b);
    assert [c][1..] == "" && WithoutBreaks([c]) == WithoutBreaks("");
  }

  lemma SameUrlSameKey(p: Primitives, settings: Settings, u: string, v: string)
    requires IsUrl(u) && IsUrl(v) && WithoutBreaks(AfterScheme(u)) == WithoutBreaks(AfterScheme(v))
    ensures ProfileImageKey(p, settings, Some(u)) == ProfileImageKey(p, settings, Some(v))
  {
  }

  /** Neither does a query or a fragment, such as a presigned URL has. */
  lemma QueryIsDropped(p: Primitives, settings: Settings, scheme: string, host: string, path: string, mark: char,
                       query: string)
    requires (scheme == "http://" || scheme == "https://") && HostText(host)
    requires Splittable(path) && (path != "" ==> path[0] == '/') && mark in {'?', '#'}
    ensures ProfileImageKey(p, settings, Some(scheme + host + path + ([mark] + query)))
            == ProfileImageKey(p, settings, Some(scheme + host + path))
  {
    var tail := [mark] + query;
    assert scheme + host + path + tail == scheme + (host + path + tail);
    assert scheme + host + path == scheme + (host + path);
    SchemeIsDropped(scheme, host + path + tail);
    SchemeIsDropped(scheme, host + path);
    HostAndPathOf(scheme + host + path, host, path);
    HostAndPathBeforeMark(scheme + host + path + tail, host, path, mark, query);
  }

  lemma HostAndPathBeforeMark(url: string, host: string, path: string, mark: char, query: string)
    requires AfterScheme(url) == host + path + ([mark] + query) && mark in {'?', '#'}
    requires HostText(host) && Splittable(path) && (path != "" ==> path[0] == '/')
    ensures Netloc(url) == host && Path(url) == path
  {
    BreaksBeforeMark(host + path, mark, query);
    assert host + path + ([mark] + WithoutBreaks(query)) == host + (path + ([mark] + WithoutBreaks(query)));
    HostBeforeMark(host, path, mark, WithoutBreaks(query));
  }

  lemma BreaksBeforeMark(a: string, mark: char, query: string)
    requires Splittable(a) && mark in {'?', '#'}
    ensures WithoutBreaks(a + ([mark] + query)) == a + ([mark] + WithoutBreaks(query))
  {
    WithoutBreaksConcat(a, [mark] + query);
    NothingToDrop(a);
    assert ([mark] + query)[1..] == query;
  }

  lemma HostBeforeMark(host: string, path: string, mark: char, query: string)
    requires HostText(host) && Splittable(path) && (path != "" ==> path[0] == '/') && mark in {'?', '#'}
    ensures var rest := host + (path + ([mark] + query));
            && UpTo(rest, {'/', '?', '#'}) == host
            && rest[|host|..] == path + ([mark] + query)
            && UpTo(path + ([mark] + query), {'?', '#'}) == path
  {
    forall c | c in host ensures c !in {'/', '?', '#'} {}
    UpToFirst(host, path + ([mark] + query), {'/', '?', '#'});
    UpToFirst(path, [mark] + query, {'?', '#'});
  }

  // ---- Idempotence ----------------------------------------------------------------------

  lemma {:induction false} FoundKeyIsNoUrl(segments: seq<string>)
    requires FromPrefix(segments).Some?
    ensures FromPrefix(segments).value != "" && !IsUrl(FromPrefix(segments).value)
  {
    if IsPrefix(segments[0]) {
      assert segments[0] <= Join(segments, '/');
      assert Join(segments, '/')[0] == segments[0][0];
    } else {
      FoundKeyIsNoUrl(segments[1..]);
    }
  }

  /** A value resolved once resolves to itself: rows may be rewritten with the
      recovered key any number of times. */
  lemma Idempotent(p: Primitives, settings: Settings, later: Settings, stored: Option<string>)
    requires ProfileImageKey(p, settings, stored).Some?
    ensures ProfileImageKey(p, later, ProfileImageKey(p, settings, stored)) == ProfileImageKey(p, settings, stored)
  {
    if IsUrl(stored.value) {
      FoundKeyIsNoUrl(Split(LeftStripSlashes(p.unquote(Path(stored.value))), '/'));
    }
  }
}
