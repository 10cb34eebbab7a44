/**
 * Properties of the two edge functions together, over the table they share.
 */
module ShortLinkService {
  import opened Wrappers
  import opened Http
  import opened LinkRegistry
  import CreateShortUrl
  import RedirectShortUrl

  /**
   * Round trip: after a fresh creation of (code, url), a request whose path
   * ends in "/" + code moves the counter from 0 to 1, and is redirected to
   * url, normalized, when url is an acceptable header value; otherwise it is
   * answered with 500. URLs stay unique when they were and the lookup by URL
   * reported no error.
   */
  lemma {:induction false} CreateThenResolve(t: Table, url: string, cenv: CreateShortUrl.Environment,
                                             prefix: string, req: RedirectShortUrl.Request,
                                             renv: RedirectShortUrl.Environment)
    requires CreateShortUrl.Create(t, CreateShortUrl.PostUrl(url), cenv).0.body.CreatedLink?
    requires var code := CreateShortUrl.Create(t, CreateShortUrl.PostUrl(url), cenv).0.body.shortCode;
      renv.parse(req.url) == Some(ParsedUrl(prefix + "/" + code))
    requires !renv.lookupFails && !renv.updateFails
    ensures var (created, t1) := CreateShortUrl.Create(t, CreateShortUrl.PostUrl(url), cenv);
      var code := created.body.shortCode;
      var (resp, t2) := RedirectShortUrl.Resolve(t1, req, renv);
      && (HeaderValueAccepted(url) ==>
            resp.status == 302 && resp.headers == map["Location" := Normalize(url)])
      && (!HeaderValueAccepted(url) ==> resp == RedirectShortUrl.TextResponse(500, "Internal Server Error"))
      && code in t1 && t1[code].clickCount == 0
      && code in t2 && t2[code] == t1[code].(clickCount := 1)
      && (UniqueUrls(t) && !cenv.dedupLookupFails ==> UniqueUrls(t2))
  {
    CreateShortUrl.FreshCreation(t, CreateShortUrl.PostUrl(url), cenv);
    if UniqueUrls(t) && !cenv.dedupLookupFails {
      CreateShortUrl.CreateKeepsUrlsUnique(t, CreateShortUrl.PostUrl(url), cenv);
    }
    var (created, t1) := CreateShortUrl.Create(t, CreateShortUrl.PostUrl(url), cenv);
    var code := created.body.shortCode;
    CreateShortUrl.ShortCodeHasNoSlash(code);
    RedirectShortUrl.ShortCodeAfterSlash(prefix, code);
    RedirectShortUrl.KnownCodeAnswers(t1, req, renv, code);
    if UniqueUrls(t1) {
      RedirectShortUrl.ResolveKeepsUrlsUnique(t1, req, renv);
    }
  }

  /** A URL with a path in Japanese script, which the WHATWG URL parser accepts. */
  const JapaneseArticle: string := "https://ja.wikipedia.org/wiki/" + "\U{65E5}\U{672C}"

  /** Its last two characters are above 0xFF, so it is no ByteString and no header value. */
  lemma JapaneseArticleIsNoHeaderValue()
    ensures !HeaderValueAccepted(JapaneseArticle)
  {
    assert JapaneseArticle[|JapaneseArticle| - 1] == '\U{672C}';
  }

  /**
   * The creator accepts a URL that the resolver can never redirect to: the
   * link is created, and every visit is counted and answered with 500.
   */
  lemma UnredirectableLinkIsCounted()
    ensures var cenv := CreateShortUrl.Environment((s: string) => Some(ParsedUrl("/")), (i: nat) => 0, 0, false, false);
      var (created, t1) := CreateShortUrl.Create(map[], CreateShortUrl.PostUrl(JapaneseArticle), cenv);
      var code := created.body.shortCode;
      var renv := RedirectShortUrl.Environment((s: string) => Some(ParsedUrl("/s/" + code)), false, false);
      var (resp, t2) := RedirectShortUrl.Resolve(t1, RedirectShortUrl.Request("/s/" + code), renv);
      && created.body.CreatedLink?
      && resp == RedirectShortUrl.TextResponse(500, "Internal Server Error")
      && t2[code].clickCount == 1
  {
    var cenv := CreateShortUrl.Environment((s: string) => Some(ParsedUrl("/")), (i: nat) => 0, 0, false, false);
    var url := JapaneseArticle;
    assert !UrlStored(map[], url);
    assert CreateShortUrl.FirstFree({}, cenv.rand, 0) == 0;
    var (created, t1) := CreateShortUrl.Create(map[], CreateShortUrl.PostUrl(url), cenv);
    assert created.body.CreatedLink?;
    var code := created.body.shortCode;
    var renv := RedirectShortUrl.Environment((s: string) => Some(ParsedUrl("/s/" + code)), false, false);
    assert "/s" + "/" + code == "/s/" + code;
    JapaneseArticleIsNoHeaderValue();
    CreateThenResolve(map[], url, cenv, "/s", RedirectShortUrl.Request("/s/" + code), renv);
  }

  /**
   * With the intended guard, every link the creator makes can be followed:
   * the round trip always ends in 302 to the normalized URL.
   */
  lemma {:induction false} IntendedGuardLinksRedirect(t: Table, url: string, cenv: CreateShortUrl.Environment,
                                                      prefix: string, req: RedirectShortUrl.Request,
                                                      renv: RedirectShortUrl.Environment)
    requires !CreateShortUrl.IntendedUrlRejected(cenv.parse, Some(url))
    requires CreateShortUrl.Create(t, CreateShortUrl.PostUrl(url), cenv).0.body.CreatedLink?
    requires var code := CreateShortUrl.Create(t, CreateShortUrl.PostUrl(url), cenv).0.body.shortCode;
      renv.parse(req.url) == Some(ParsedUrl(prefix + "/" + code))
    requires !renv.lookupFails && !renv.updateFails
    ensures var t1 := CreateShortUrl.Create(t, CreateShortUrl.PostUrl(url), cenv).1;
      var resp := RedirectShortUrl.Resolve(t1, req, renv).0;
      resp.status == 302 && resp.headers == map["Location" := Normalize(url)]
  {
    CreateThenResolve(t, url, cenv, prefix, req, renv);
  }

  /**
   * The resolver's code extraction applied to the path "/s/" + code of a
   * short URL gives back the code. (The short URL itself names a page of the
   * web app; this lemma is only about how the resolver reads such a path.)
   */
  lemma {:induction false} ShortUrlPathNamesCode(code: string)
    requires CreateShortUrl.IsShortCode(code)
    ensures RedirectShortUrl.ShortCodeOf("/s/" + code) == code
  {
    CreateShortUrl.ShortCodeHasNoSlash(code);
    RedirectShortUrl.ShortCodeAfterSlash("/s", code);
    assert "/s" + "/" + code == "/s/" + code;
  }
}
