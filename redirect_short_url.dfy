/**
 * The `redirect-short-url` edge function: take the last path segment as the
 * short code, look the row up, write back `click_count + 1` and redirect to
 * the stored URL with 302 Found (RFC 9110, section 15.4.3).
 */
module RedirectShortUrl {
  import opened Wrappers
  import opened Http
  import opened LinkRegistry

  /** `s.split(sep)`: the pieces between separators; never empty, and no piece holds `sep`. */
  function Split(s: string, sep: char): (parts: seq<string>)
    ensures |parts| >= 1
    ensures forall i :: 0 <= i < |parts| ==> sep !in parts[i]
    decreases |s|
  {
    if s == [] then [""]
    else
      var rest := Split(s[1..], sep);
      if s[0] == sep then [""] + rest
      else [[s[0]] + rest[0]] + rest[1..]
  }

  /** `parts.join(sep)`, the inverse of `Split`. */
  function Join(parts: seq<string>, sep: char): string
    requires |parts| >= 1
    decreases |parts|
  {
    if |parts| == 1 then parts[0] else parts[0] + [sep] + Join(parts[1..], sep)
  }

  /** Splitting loses nothing: joining the pieces back gives the original string. */
  lemma {:induction false} JoinSplit(s: string, sep: char)
    ensures Join(Split(s, sep), sep) == s
    decreases |s|
  {
    if s != [] {
      var rest := Split(s[1..], sep);
      JoinSplit(s[1..], sep);
      if s[0] == sep {
        assert ([""] + rest)[1..] == rest;
      } else if |rest| > 1 {
        var parts := [[s[0]] + rest[0]] + rest[1..];
        assert parts[1..] == rest[1..];
      }
    }
  }

  /** The last piece is what follows the last separator of a join. */
  lemma {:induction false} JoinLast(parts: seq<string>, sep: char)
    requires |parts| >= 2
    ensures Join(parts, sep) == Join(parts[..|parts| - 1], sep) + [sep] + parts[|parts| - 1]
    decreases |parts|
  {
    if |parts| > 2 {
      JoinLast(parts[1..], sep);
      assert parts[..|parts| - 1][1..] == parts[1..][..|parts| - 2];
    }
  }

  /** `pathname.split('/').pop()`: the short code of a request path. */
  function ShortCodeOf(pathname: string): (code: string)
    ensures '/' !in code
  {
    var parts := Split(pathname, '/');
    parts[|parts| - 1]
  }

  /**
   * The short code is the part of the path after its last '/': it holds no
   * '/', ends the path, and is either the whole path or preceded by '/'.
   */
  lemma ShortCodeIsLastSegment(pathname: string)
    ensures var code := ShortCodeOf(pathname);
      && '/' !in code
      && |code| <= |pathname| && pathname[|pathname| - |code|..] == code
      && (|code| < |pathname| ==> pathname[|pathname| - |code| - 1] == '/')
  {
    var parts := Split(pathname, '/');
    JoinSplit(pathname, '/');
    if |parts| >= 2 {
      JoinLast(parts, '/');
    }
  }

  /** A path ending in '/' (or empty) carries no short code. */
  lemma TrailingSlashHasNoCode(pathname: string)
    requires pathname == [] || pathname[|pathname| - 1] == '/'
    ensures ShortCodeOf(pathname) == ""
  {
    ShortCodeIsLastSegment(pathname);
  }

  /** Any path whose last segment is `code` yields `code`. */
  lemma ShortCodeAfterSlash(prefix: string, code: string)
    requires '/' !in code
    ensures ShortCodeOf(prefix + "/" + code) == code
  {
    var s := prefix + "/" + code;
    var r := ShortCodeOf(s);
    ShortCodeIsLastSegment(s);
    assert s[|s| - |code| - 1] == '/';
    assert forall i :: |s| - |code| <= i < |s| ==> s[i] == code[i - (|s| - |code|)];
    assert forall i :: 0 <= i < |r| ==> s[|s| - |r| + i] == r[i];
    assert s[|s| - |code|..] == code;
  }

  datatype Request = Request(url: string)

  /**
   * What the handler takes from outside: URL parsing of `req.url`, and
   * whether the store reports an error on the lookup or on the update.
   */
  datatype Environment = Environment(parse: UrlParser, lookupFails: bool, updateFails: bool)

  function TextResponse(status: nat, text: string): Response
  {
    Response(status, map[], Text(text))
  }

  /**
   * `new Response(null, { status: 302, headers: { Location } })`: 302 Found
   * with the normalized target, or `None` where the constructor throws
   * because the target is not an acceptable header value.
   */
  function Redirect(location: string): (r: Option<Response>)
    ensures r.Some? <==> HeaderValueAccepted(location)
    ensures r.Some? ==> && r.value.status == 302 && r.value.body == NoBody
                        && r.value.headers.Keys == {"Location"}
                        && IsHeaderValue(r.value.headers["Location"])
                        && Normalize(r.value.headers["Location"]) == Normalize(location)
  {
    if HeaderValueAccepted(location) then
      HeaderValueIsNormal(Normalize(location));
      Some(Response(302, map["Location" := Normalize(location)], NoBody))
    else None
  }

  /**
   * The answer to a request and the table afterwards. An update error is not
   * checked by the handler: it still redirects, and the counter stays. The
   * counter is written before the answer is built, so a target the `Response`
   * constructor refuses is counted and answered with 500.
   * No request adds or removes a row, a 400 or 404 writes nothing, and every
   * 302 carries a well-formed `Location`.
   */
  function Resolve(t: Table, req: Request, env: Environment): (r: (Response, Table))
    ensures r.1.Keys == t.Keys
    ensures r.0.status in {400, 404} ==> r.1 == t
    ensures r.0.status == 302 ==> "Location" in r.0.headers && IsHeaderValue(r.0.headers["Location"])
  {
    match env.parse(req.url)
    case None => (TextResponse(500, "Internal Server Error"), t)
    case Some(u) =>
      var code := ShortCodeOf(u.pathname);
      if code == "" then (TextResponse(400, "Short code not provided"), t)
      else if env.lookupFails || code !in t then (TextResponse(404, "Short URL not found"), t)
      else
        var link := t[code];
        var counted := if env.updateFails then t else t[code := link.(clickCount := link.clickCount + 1)];
        match Redirect(link.originalUrl)
        case Some(resp) => (resp, counted)
        case None => (TextResponse(500, "Internal Server Error"), counted)
  }

  /** The `serve` handler: read the row, write its counter back plus one, then build the redirect. */
  method Serve(db: Registry, req: Request, env: Environment) returns (resp: Response)
    modifies db
    ensures old(db.Valid()) ==> db.Valid()
    ensures (resp, db.links) == Resolve(old(db.links), req, env)
  {
    var url := env.parse(req.url);
    if url.None? {
      return TextResponse(500, "Internal Server Error");
    }
    var shortCode := ShortCodeOf(url.value.pathname);
    if shortCode == "" {
      return TextResponse(400, "Short code not provided");
    }

    var linkData := db.FindByCode(shortCode);
    if env.lookupFails || linkData.None? {
      return TextResponse(404, "Short URL not found");
    }

    ghost var before := db.links;
    if db.Valid() {
      CountUpdateKeepsUrlsUnique(db.links, shortCode, linkData.value.clickCount + 1);
    }
    db.SetClickCount(shortCode, linkData.value.clickCount + 1, env.updateFails);
    assert Resolve(before, req, env).1 == db.links;

    var redirect := Redirect(linkData.value.originalUrl);
    if redirect.None? {
      return TextResponse(500, "Internal Server Error");
    }
    resp := redirect.value;
  }

  // Properties of the handler, stated on its specification `Resolve`.

  /** A request URL the parser refuses is answered with 500 and nothing is written. */
  lemma UnparsableRequestAnswers500(t: Table, req: Request, env: Environment)
    requires env.parse(req.url).None?
    ensures Resolve(t, req, env) == (TextResponse(500, "Internal Server Error"), t)
  {
  }

  /** An empty last segment is answered with 400 before the table is read. */
  lemma MissingCodeAnswers400(t: Table, req: Request, env: Environment)
    requires env.parse(req.url).Some? && ShortCodeOf(env.parse(req.url).value.pathname) == ""
    ensures Resolve(t, req, env) == (TextResponse(400, "Short code not provided"), t)
  {
  }

  /** An unknown code (or a failed lookup) is answered with 404 and nothing is written. */
  lemma UnknownCodeAnswers404(t: Table, req: Request, env: Environment)
    requires env.parse(req.url).Some?
    requires var code := ShortCodeOf(env.parse(req.url).value.pathname);
      code != "" && (code !in t || env.lookupFails)
    ensures Resolve(t, req, env) == (TextResponse(404, "Short URL not found"), t)
  {
  }

  /**
   * A known code is counted: its counter goes up by exactly one (unless the
   * update fails) and every other row is untouched. The answer redirects to
   * the stored URL, normalized, when that is an acceptable header value, and
   * is 500 otherwise.
   */
  lemma KnownCodeAnswers(t: Table, req: Request, env: Environment, code: string)
    requires env.parse(req.url).Some? && code == ShortCodeOf(env.parse(req.url).value.pathname)
    requires code != "" && code in t && !env.lookupFails
    ensures var (resp, t') := Resolve(t, req, env);
      var url := t[code].originalUrl;
      && (HeaderValueAccepted(url) ==>
            resp.status == 302 && resp.headers == map["Location" := Normalize(url)] && resp.body == NoBody)
      && (!HeaderValueAccepted(url) ==> resp == TextResponse(500, "Internal Server Error"))
      && t'.Keys == t.Keys
      && t'[code].originalUrl == t[code].originalUrl && t'[code].createdAt == t[code].createdAt
      && t'[code].clickCount == t[code].clickCount + (if env.updateFails then 0 else 1)
      && (forall c :: c in t && c != code ==> t'[c] == t[c])
  {
  }

  /**
   * Every answer is 302, 400, 404 or 500; no answer adds, removes or
   * re-targets a row, counters never go down, and only a request whose code
   * was found, with no store error, writes.
   */
  lemma ResolveOutcomes(t: Table, req: Request, env: Environment)
    ensures var (resp, t') := Resolve(t, req, env);
      && resp.status in {302, 400, 404, 500}
      && t'.Keys == t.Keys
      && (forall c :: c in t ==> t'[c].originalUrl == t[c].originalUrl && t'[c].clickCount >= t[c].clickCount)
      && (t' != t ==> && env.parse(req.url).Some? && ShortCodeOf(env.parse(req.url).value.pathname) in t
                      && !env.lookupFails && !env.updateFails)
  {
    var (resp, t') := Resolve(t, req, env);
    match env.parse(req.url)
    case None =>
      assert t' == t;
    case Some(u) =>
      var code := ShortCodeOf(u.pathname);
      if code == "" || env.lookupFails || code !in t {
        assert t' == t && resp.status in {400, 404};
      } else {
        KnownCodeAnswers(t, req, env, code);
      }
  }

  /** Resolution never stores one URL under two codes. */
  lemma {:induction false} ResolveKeepsUrlsUnique(t: Table, req: Request, env: Environment)
    requires UniqueUrls(t)
    ensures UniqueUrls(Resolve(t, req, env).1)
  {
    var (resp, t') := Resolve(t, req, env);
    if t' != t {
      var code := ShortCodeOf(env.parse(req.url).value.pathname);
      CountUpdateKeepsUrlsUnique(t, code, t[code].clickCount + 1);
    }
  }

  /** The table after the same request is served `n` times in a row. */
  function ResolveTimes(t: Table, req: Request, env: Environment, n: nat): Table
    decreases n
  {
    if n == 0 then t else ResolveTimes(Resolve(t, req, env).1, req, env, n - 1)
  }

  /** `n` resolutions of a known code, redirected or not, raise its counter by exactly `n` and change nothing else. */
  lemma {:induction false} RepeatedResolveCounts(t: Table, req: Request, env: Environment, code: string, n: nat)
    requires env.parse(req.url).Some? && code == ShortCodeOf(env.parse(req.url).value.pathname)
    requires code != "" && code in t && !env.lookupFails && !env.updateFails
    ensures var t' := ResolveTimes(t, req, env, n);
      && t'.Keys == t.Keys
      && t'[code] == t[code].(clickCount := t[code].clickCount + n)
      && (forall c :: c in t && c != code ==> t'[c] == t[c])
    decreases n
  {
    if n > 0 {
      var t1 := Resolve(t, req, env).1;
      RepeatedResolveCounts(t1, req, env, code, n - 1);
    }
  }
}
