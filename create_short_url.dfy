/**
 * The `create-short-url` edge function: validate the URL, answer with the
 * stored code when the exact URL string is already shortened, otherwise draw
 * random six-symbol codes until one is free (at most ten draws) and insert it.
 */
module CreateShortUrl {
  import opened Wrappers
  import opened Http
  import opened LinkRegistry

  const Upper: string := "ABCDEFGHIJKLMNOPQRSTUVWXYZ"
  const Lower: string := "abcdefghijklmnopqrstuvwxyz"
  const Digits: string := "0123456789"
  /** The 62 symbols a short code is drawn from: upper case, lower case, digits. */
  const Alphabet: string := Upper + Lower + Digits
  /** Default length of `generateShortCode`. */
  const CodeLength: nat := 6
  /** Bound of the collision-retry loop. */
  const MaxAttempts: nat := 10
  /** Short links are rendered as this prefix followed by the code. */
  const ShortUrlBase: string := "https://cam-connect-web.lovable.app/s/"

  /** `Math.floor(Math.random() * chars.length)`: one draw of an index into the alphabet. */
  type SymbolIndex = i: int | 0 <= i < 62

  /** The stream of random draws; draw `n` is the `n`-th call of `Math.random` scaled to an index. */
  type RandomSource = nat -> SymbolIndex

  /** A symbol of the alphabet: an ASCII letter of either case or a decimal digit. */
  predicate IsSymbol(c: char)
  {
    'A' <= c <= 'Z' || 'a' <= c <= 'z' || '0' <= c <= '9'
  }

  /** Every entry of the alphabet string is a symbol. */
  lemma SymbolAt(i: SymbolIndex)
    ensures IsSymbol(Alphabet[i])
  {
  }

  lemma AlphabetHoldsSymbols()
    ensures forall i :: 0 <= i < |Alphabet| ==> IsSymbol(Alphabet[i])
  {
    forall i | 0 <= i < |Alphabet|
      ensures IsSymbol(Alphabet[i])
    {
      SymbolAt(i);
    }
  }


  lemma UpperAt(c: char)
    requires 'A' <= c <= 'Z'
    ensures Upper[c as int - 'A' as int] == c
  {
  }

  lemma LowerAt(c: char)
    requires 'a' <= c <= 'z'
    ensures Lower[c as int - 'a' as int] == c
  {
  }

  lemma DigitAt(c: char)
    requires '0' <= c <= '9'
    ensures Digits[c as int - '0' as int] == c
  {
  }

  /** The draw that picks symbol `c`: the inverse of indexing the alphabet. */
  function SymbolIndexOf(c: char): (i: SymbolIndex)
    requires IsSymbol(c)
    ensures Alphabet[i] == c
  {
    if 'A' <= c <= 'Z' then
      UpperAt(c); c as int - 'A' as int
    else if 'a' <= c <= 'z' then
      LowerAt(c); 26 + (c as int - 'a' as int)
    else
      DigitAt(c); 52 + (c as int - '0' as int)
  }

  /** A string of `length` symbols, each from the alphabet. */
  predicate IsCodeOfLength(s: string, length: nat)
  {
    |s| == length && forall i :: 0 <= i < |s| ==> IsSymbol(s[i])
  }

  /** A code of the default length over the alphabet. */
  predicate IsShortCode(s: string)
  {
    IsCodeOfLength(s, CodeLength)
  }

  /** `generateShortCode(length)`: symbol `i` of the code is the alphabet entry picked by draw `i`. */
  function GenerateShortCode(length: nat, draw: nat -> SymbolIndex): (code: string)
    ensures |code| == length
  {
    seq(length, i requires 0 <= i < length => Alphabet[draw(i)])
  }

  /** Whatever the draws, the code has exactly `length` symbols, all from the alphabet. */
  lemma GeneratedCodeIsWellFormed(length: nat, draw: nat -> SymbolIndex)
    ensures IsCodeOfLength(GenerateShortCode(length, draw), length)
  {
    AlphabetHoldsSymbols();
  }

  /** Every code over the alphabet is produced by some sequence of draws: no code is out of reach. */
  lemma EveryCodeCanBeDrawn(code: string)
    requires IsCodeOfLength(code, |code|)
    ensures exists draw: nat -> SymbolIndex :: GenerateShortCode(|code|, draw) == code
  {
    var draw: nat -> SymbolIndex := (i: nat) => if i < |code| then SymbolIndexOf(code[i]) else 0;
    var generated := GenerateShortCode(|code|, draw);
    assert forall i :: 0 <= i < |code| ==> generated[i] == code[i];
    assert generated == code;
  }

  /** No code over the alphabet holds '/', so a code is always one whole path segment. */
  lemma ShortCodeHasNoSlash(code: string)
    requires IsCodeOfLength(code, |code|)
    ensures '/' !in code
  {
  }

  /** The code drawn by attempt `attempt` (counting from 0) of the retry loop. */
  function Candidate(rand: RandomSource, attempt: nat): (code: string)
    ensures |code| == CodeLength
  {
    GenerateShortCode(CodeLength, (i: nat) => rand(CodeLength * attempt + i))
  }

  /**
   * The first attempt, from `from` on and below the bound, whose candidate is
   * not yet a code; `MaxAttempts` when every one of them collides.
   */
  function FirstFree(keys: set<string>, rand: RandomSource, from: nat): (k: nat)
    requires from <= MaxAttempts
    ensures from <= k <= MaxAttempts
    ensures forall j :: from <= j < k ==> Candidate(rand, j) in keys
    ensures k < MaxAttempts ==> Candidate(rand, k) !in keys
    decreases MaxAttempts - from
  {
    if from == MaxAttempts then MaxAttempts
    else if Candidate(rand, from) !in keys then from
    else FirstFree(keys, rand, from + 1)
  }

  /** Every attempt's candidate is a well-formed short code. */
  lemma CandidateIsShortCode(rand: RandomSource, attempt: nat)
    ensures IsShortCode(Candidate(rand, attempt))
  {
    GeneratedCodeIsWellFormed(CodeLength, (i: nat) => rand(CodeLength * attempt + i));
  }

  /** The first free attempt is pinned down by the collisions before it and the free candidate at it. */
  lemma FirstFreeAt(keys: set<string>, rand: RandomSource, a: nat)
    requires a <= MaxAttempts
    requires forall j :: 0 <= j < a ==> Candidate(rand, j) in keys
    requires a < MaxAttempts ==> Candidate(rand, a) !in keys
    ensures FirstFree(keys, rand, 0) == a
  {
  }

  /**
   * The code the handler goes on to insert, or `None` where it answers 500.
   * The handler tests `attempts >= maxAttempts`, so a free candidate found by
   * the tenth and last attempt is thrown away.
   */
  function IssuedCode(keys: set<string>, rand: RandomSource): (r: Option<string>)
    ensures r.Some? ==> IsShortCode(r.value) && r.value !in keys
    ensures r.Some? ==> exists k :: 0 <= k < MaxAttempts - 1 && r.value == Candidate(rand, k)
    ensures r.None? ==> forall k :: 0 <= k < MaxAttempts - 1 ==> Candidate(rand, k) in keys
  {
    var k := FirstFree(keys, rand, 0);
    if k < MaxAttempts - 1 then CandidateIsShortCode(rand, k); Some(Candidate(rand, k)) else None
  }

  /** The search as evidently intended: give up only when all ten candidates collide. */
  function IntendedIssuedCode(keys: set<string>, rand: RandomSource): (r: Option<string>)
    ensures r.Some? ==> IsShortCode(r.value) && r.value !in keys
    ensures r.Some? ==> exists k :: 0 <= k < MaxAttempts && r.value == Candidate(rand, k)
    ensures r.None? ==> forall k :: 0 <= k < MaxAttempts ==> Candidate(rand, k) in keys
  {
    var k := FirstFree(keys, rand, 0);
    if k < MaxAttempts then CandidateIsShortCode(rand, k); Some(Candidate(rand, k)) else None
  }

  /** `isValidUrl`: `new URL(s)` does not throw. */
  predicate IsValidUrl(parse: UrlParser, s: string)
  {
    parse(s).Some?
  }

  /** `!original_url || !isValidUrl(original_url)`: missing, empty or unparsable. */
  predicate UrlRejected(parse: UrlParser, originalUrl: Option<string>)
  {
    originalUrl.None? || originalUrl.value == "" || !IsValidUrl(parse, originalUrl.value)
  }

  /**
   * The guard as evidently intended: also refuse a URL that the redirect
   * could never carry as its `Location` header.
   */
  predicate IntendedUrlRejected(parse: UrlParser, originalUrl: Option<string>): (r: bool)
    ensures UrlRejected(parse, originalUrl) ==> r
    ensures !r ==> originalUrl.Some? && IsValidUrl(parse, originalUrl.value) && HeaderValueAccepted(originalUrl.value)
  {
    UrlRejected(parse, originalUrl) || !HeaderValueAccepted(originalUrl.value)
  }

  /** The JSON body of the request: `Unreadable` where `req.json()` throws. */
  datatype Payload = Unreadable | Payload(originalUrl: Option<string>)

  datatype Request = Request(verb: string, payload: Payload)

  /**
   * What the handler takes from outside: URL parsing, randomness, the clock,
   * and whether the store reports an error on the lookup by URL or on the insert.
   */
  datatype Environment = Environment(parse: UrlParser, rand: RandomSource, now: Timestamp,
                                     dedupLookupFails: bool, insertFails: bool)

  const Preflight: Response := Response(200, CorsHeaders, NoBody)

  function JsonError(status: nat, message: string): Response
  {
    Response(status, JsonHeaders, ErrorJson(message))
  }

  function ExistingResponse(code: string, url: string): Response
  {
    Response(200, JsonHeaders, ExistingLink(ShortUrlBase + code, code, url))
  }

  function CreatedResponse(code: string, link: Link): Response
  {
    Response(200, JsonHeaders, CreatedLink(ShortUrlBase + code, code, link.originalUrl, link.createdAt))
  }

  /** What the lookup by URL hands the handler: nothing when the store reports an error. */
  ghost function FoundCode(t: Table, url: string, env: Environment): Option<string>
  {
    if env.dedupLookupFails then None else CodeOfUrl(t, url)
  }

  /**
   * The answer to a request and the table afterwards. No request removes or
   * rewrites a row, and only a fresh creation adds one.
   */
  ghost function Create(t: Table, req: Request, env: Environment): (r: (Response, Table))
    ensures forall c :: c in t ==> c in r.1 && r.1[c] == t[c]
    ensures r.1 == t || (r.0.body.CreatedLink? && r.1 == t[r.0.body.shortCode := Link(r.0.body.originalUrl, 0, env.now)])
  {
    if req.verb == "OPTIONS" then (Preflight, t)
    else if req.verb != "POST" then (JsonError(405, "Method Not Allowed"), t)
    else if req.payload.Unreadable? then (JsonError(500, "Internal Server Error"), t)
    else if UrlRejected(env.parse, req.payload.originalUrl) then (JsonError(400, "Invalid URL provided"), t)
    else
      var url := req.payload.originalUrl.value;
      match FoundCode(t, url, env)
      case Some(code) => (ExistingResponse(code, url), t)
      case None =>
        match IssuedCode(t.Keys, env.rand)
        case None => (JsonError(500, "Failed to generate unique short code"), t)
        case Some(code) =>
          if env.insertFails then (JsonError(500, "Failed to create short URL"), t)
          else (CreatedResponse(code, Link(url, 0, env.now)), t[code := Link(url, 0, env.now)])
  }

  /**
   * The collision-retry loop: draw a candidate, look it up, count the
   * attempt; stop at the first free candidate or after ten attempts.
   */
  method DrawUniqueCode(db: Registry, rand: RandomSource) returns (code: string, taken: bool, attempts: nat)
    ensures 1 <= attempts <= MaxAttempts
    ensures code == Candidate(rand, attempts - 1) && (taken <==> code in db.links)
    ensures forall k :: 0 <= k < attempts - 1 ==> Candidate(rand, k) in db.links
    ensures taken ==> attempts == MaxAttempts
    ensures attempts == if FirstFree(db.links.Keys, rand, 0) < MaxAttempts
                        then FirstFree(db.links.Keys, rand, 0) + 1 else MaxAttempts
  {
    code, taken, attempts := "", true, 0;
    while taken && attempts < MaxAttempts
      invariant 0 <= attempts <= MaxAttempts
      invariant attempts == 0 ==> taken
      invariant attempts > 0 ==> code == Candidate(rand, attempts - 1) && (taken <==> code in db.links)
      invariant forall k :: 0 <= k < attempts - 1 ==> Candidate(rand, k) in db.links
    {
      code := Candidate(rand, attempts);
      var row := db.FindByCode(code);
      taken := row.Some?;
      attempts := attempts + 1;
    }
    if taken {
      FirstFreeAt(db.links.Keys, rand, MaxAttempts);
    } else {
      FirstFreeAt(db.links.Keys, rand, attempts - 1);
    }
  }

  /** The `serve` handler. */
  method Serve(db: Registry, req: Request, env: Environment) returns (resp: Response)
    modifies db
    ensures old(db.Valid()) && !env.dedupLookupFails ==> db.Valid()
    ensures (resp, db.links) == Create(old(db.links), req, env)
  {
    if req.verb == "OPTIONS" {
      return Preflight;
    }
    if req.verb != "POST" {
      return JsonError(405, "Method Not Allowed");
    }
    if req.payload.Unreadable? {
      return JsonError(500, "Internal Server Error");
    }
    var originalUrl := req.payload.originalUrl;
    if originalUrl.None? || originalUrl.value == "" || !IsValidUrl(env.parse, originalUrl.value) {
      return JsonError(400, "Invalid URL provided");
    }
    var url := originalUrl.value;

    var existing := db.FindCodeByUrl(url, env.dedupLookupFails);
    if existing.Some? {
      return ExistingResponse(existing.value, url);
    }

    var code, taken, attempts := DrawUniqueCode(db, env.rand);
    if attempts >= MaxAttempts {
      return JsonError(500, "Failed to generate unique short code");
    }
    assert IssuedCode(db.links.Keys, env.rand) == Some(code);

    ghost var before := db.links;
    var row := db.Insert(code, url, env.now, env.insertFails);
    if row.None? {
      return JsonError(500, "Failed to create short URL");
    }
    if UniqueUrls(before) && !env.dedupLookupFails {
      InsertKeepsUrlsUnique(before, code, row.value);
    }
    resp := CreatedResponse(code, row.value);
  }

  // Properties of the handler, stated on its specification `Create`.

  /** An answer that hands out a short link, stored before or just created. */
  predicate IsLinkAnswer(resp: Response)
  {
    resp.body.ExistingLink? || resp.body.CreatedLink?
  }

  /** A POST asking to shorten `url`. */
  function PostUrl(url: string): Request
  {
    Request("POST", Payload(Some(url)))
  }

  /** The preflight gets the CORS headers and no body; any other method but POST gets 405; neither writes. */
  lemma NonPostLeavesTableAlone(t: Table, req: Request, env: Environment)
    requires req.verb != "POST"
    ensures Create(t, req, env).1 == t
    ensures req.verb == "OPTIONS" ==> Create(t, req, env).0 == Response(200, CorsHeaders, NoBody)
    ensures req.verb != "OPTIONS" ==> Create(t, req, env).0 == JsonError(405, "Method Not Allowed")
  {
  }

  /** A missing, empty or unparsable URL gets 400 and the table is not read or written. */
  lemma RejectedUrlAnswers400(t: Table, originalUrl: Option<string>, env: Environment)
    requires UrlRejected(env.parse, originalUrl)
    ensures Create(t, Request("POST", Payload(originalUrl)), env) == (JsonError(400, "Invalid URL provided"), t)
  {
  }

  /** A URL string already stored under `code` is answered with that code and `existing: true`. */
  lemma StoredUrlAnswersExisting(t: Table, url: string, env: Environment, code: string)
    requires UniqueUrls(t) && !env.dedupLookupFails
    requires url != "" && IsValidUrl(env.parse, url)
    requires code in t && t[code].originalUrl == url
    ensures Create(t, PostUrl(url), env) == (ExistingResponse(code, url), t)
    ensures Create(t, PostUrl(url), env).0.body.shortUrl == ShortUrlBase + code
  {
    assert UrlStored(t, url);
    var found := CodeOfUrl(t, url);
    assert t[found.value].originalUrl == t[code].originalUrl;
  }

  /**
   * For a new URL the handler answers "Failed to generate unique short code"
   * exactly when the first nine candidates all collide, whatever the tenth is.
   */
  lemma GenerationFails(t: Table, url: string, env: Environment)
    requires url != "" && IsValidUrl(env.parse, url) && FoundCode(t, url, env).None?
    ensures var (resp, t') := Create(t, PostUrl(url), env);
      (resp == JsonError(500, "Failed to generate unique short code"))
        <==> (forall k :: 0 <= k < MaxAttempts - 1 ==> Candidate(env.rand, k) in t)
    ensures var (resp, t') := Create(t, PostUrl(url), env);
      resp.status == 500 ==> t' == t
  {
  }

  /** An insert error is answered with 500 and adds no row. */
  lemma InsertFailureAnswers500(t: Table, url: string, env: Environment)
    requires url != "" && IsValidUrl(env.parse, url) && FoundCode(t, url, env).None?
    requires IssuedCode(t.Keys, env.rand).Some? && env.insertFails
    ensures Create(t, PostUrl(url), env) == (JsonError(500, "Failed to create short URL"), t)
  {
  }

  /**
   * A fresh creation adds exactly one row, under a well-formed code that was
   * not in use, for a URL that was not stored, and links to it.
   */
  lemma FreshCreation(t: Table, req: Request, env: Environment)
    requires Create(t, req, env).0.body.CreatedLink?
    ensures var (resp, t') := Create(t, req, env);
      var code, url := resp.body.shortCode, resp.body.originalUrl;
      && req == PostUrl(url) && url != "" && IsValidUrl(env.parse, url)
      && resp.status == 200 && resp.headers == JsonHeaders
      && IsShortCode(code) && code !in t && FoundCode(t, url, env).None?
      && (UniqueUrls(t) && !env.dedupLookupFails ==> !UrlStored(t, url))
      && resp.body.shortUrl == ShortUrlBase + code && resp.body.createdAt == env.now
      && t' == t[code := Link(url, 0, env.now)]
  {
    var url := req.payload.originalUrl.value;
    var code := IssuedCode(t.Keys, env.rand).value;
    assert FoundCode(t, url, env).None? && !env.insertFails;
    assert Create(t, req, env) == (CreatedResponse(code, Link(url, 0, env.now)), t[code := Link(url, 0, env.now)]);
  }

  /**
   * Every answer is 200, 400, 405 or 500; a POST gets 200 exactly when it
   * gets a short link; only a fresh creation changes the table.
   */
  lemma CreateOutcomes(t: Table, req: Request, env: Environment)
    ensures var (resp, t') := Create(t, req, env);
      && resp.status in {200, 400, 405, 500}
      && (req.verb == "POST" ==> (resp.status == 200 <==> IsLinkAnswer(resp)))
      && (resp.body.CreatedLink? || t' == t)
  {
    if req.verb == "POST" && req.payload.Payload? && !UrlRejected(env.parse, req.payload.originalUrl) {
      var url := req.payload.originalUrl.value;
      if FoundCode(t, url, env).None? && IssuedCode(t.Keys, env.rand).Some? && !env.insertFails {
        var code := IssuedCode(t.Keys, env.rand).value;
        assert Create(t, req, env).0 == CreatedResponse(code, Link(url, 0, env.now));
      }
    }
  }

  /**
   * A POST answered with 200 leaves its code in the table, mapped to the
   * requested URL, and every row that was there before is still there unchanged.
   */
  lemma {:induction false} SuccessStoresCode(t: Table, url: string, env: Environment)
    requires IsLinkAnswer(Create(t, PostUrl(url), env).0)
    ensures var (resp, t') := Create(t, PostUrl(url), env);
      && resp.body.originalUrl == url
      && resp.body.shortCode in t' && t'[resp.body.shortCode].originalUrl == url
      && t.Keys <= t'.Keys && (forall c :: c in t ==> t'[c] == t[c])
      && (UniqueUrls(t) && !env.dedupLookupFails ==> UniqueUrls(t'))
  {
    var (resp, t') := Create(t, PostUrl(url), env);
    match FoundCode(t, url, env)
    case Some(code) =>
      assert resp == ExistingResponse(code, url) && t' == t;
    case None =>
      assert resp.body.CreatedLink?;
      FreshCreation(t, PostUrl(url), env);
      if UniqueUrls(t) && !env.dedupLookupFails {
        InsertKeepsUrlsUnique(t, resp.body.shortCode, Link(url, 0, env.now));
      }
  }

  /** Creation never stores one URL string under two codes. */
  lemma {:induction false} CreateKeepsUrlsUnique(t: Table, req: Request, env: Environment)
    requires UniqueUrls(t) && !env.dedupLookupFails
    ensures UniqueUrls(Create(t, req, env).1)
  {
    if Create(t, req, env).0.body.CreatedLink? {
      FreshCreation(t, req, env);
      var (resp, t') := Create(t, req, env);
      InsertKeepsUrlsUnique(t, resp.body.shortCode, Link(resp.body.originalUrl, 0, env.now));
    }
  }

  /**
   * Idempotence: once a URL has been shortened, asking again returns the same
   * code with `existing: true` and writes nothing, whatever the random draws.
   */
  lemma {:induction false} CreateIsIdempotent(t: Table, url: string, env1: Environment, env2: Environment)
    requires UniqueUrls(t) && !env1.dedupLookupFails && !env2.dedupLookupFails
    requires url != "" && IsValidUrl(env2.parse, url)
    requires IsLinkAnswer(Create(t, PostUrl(url), env1).0)
    ensures var (first, t1) := Create(t, PostUrl(url), env1);
      Create(t1, PostUrl(url), env2) == (ExistingResponse(first.body.shortCode, url), t1)
  {
    SuccessStoresCode(t, url, env1);
    var (first, t1) := Create(t, PostUrl(url), env1);
    StoredUrlAnswersExisting(t1, url, env2, first.body.shortCode);
  }

  /** Two different URLs shortened one after the other get two different codes. */
  lemma {:induction false} DistinctUrlsGetDistinctCodes(t: Table, u1: string, u2: string, env1: Environment, env2: Environment)
    requires u1 != u2
    requires IsLinkAnswer(Create(t, PostUrl(u1), env1).0)
    requires IsLinkAnswer(Create(Create(t, PostUrl(u1), env1).1, PostUrl(u2), env2).0)
    ensures var (r1, t1) := Create(t, PostUrl(u1), env1);
      var (r2, t2) := Create(t1, PostUrl(u2), env2);
      r1.body.shortCode != r2.body.shortCode
  {
    SuccessStoresCode(t, u1, env1);
    var (r1, t1) := Create(t, PostUrl(u1), env1);
    SuccessStoresCode(t1, u2, env2);
    var (r2, t2) := Create(t1, PostUrl(u2), env2);
    if r2.body.CreatedLink? {
      FreshCreation(t1, PostUrl(u2), env2);
    }
  }

  /**
   * The tenth attempt's candidate is discarded even when free: nine draws of
   * "AAAAAA" (already a code) then "BBBBBB" (free) end in 500, where the
   * intended search would issue "BBBBBB".
   */
  lemma TenthFreeCandidateIsDiscarded()
    ensures var rand: RandomSource := (i: nat) => if i < CodeLength * (MaxAttempts - 1) then 0 else 1;
      && IssuedCode({"AAAAAA"}, rand) == None
      && IntendedIssuedCode({"AAAAAA"}, rand) == Some("BBBBBB")
  {
    var rand: RandomSource := (i: nat) => if i < CodeLength * (MaxAttempts - 1) then 0 else 1;
    assert Alphabet[0] == 'A' && Alphabet[1] == 'B';
    forall k | 0 <= k < MaxAttempts - 1
      ensures Candidate(rand, k) == "AAAAAA"
    {
      var c := Candidate(rand, k);
      assert c == GenerateShortCode(CodeLength, (i: nat) => rand(CodeLength * k + i));
      assert forall i :: 0 <= i < CodeLength ==> c[i] == 'A';
    }
    var c9 := Candidate(rand, MaxAttempts - 1);
    assert c9 == GenerateShortCode(CodeLength, (i: nat) => rand(CodeLength * (MaxAttempts - 1) + i));
    assert forall i :: 0 <= i < CodeLength ==> c9[i] == 'B';
    assert c9 == "BBBBBB";
    var k := FirstFree({"AAAAAA"}, rand, 0);
    assert k == MaxAttempts - 1;
  }

  /**
   * A store error on the lookup by URL is read as "no row", so a URL that is
   * already stored gets a second code: the unique-URL invariant is lost with
   * requests served one at a time.
   */
  lemma LookupFailureStoresUrlTwice()
    ensures var t := map["AAAAAA" := Link("https://example.org", 0, 0)];
      var env := Environment((s: string) => Some(ParsedUrl("/")), (i: nat) => 1, 0, true, false);
      var (resp, t') := Create(t, PostUrl("https://example.org"), env);
      && UniqueUrls(t) && resp.body.CreatedLink? && resp.body.shortCode == "BBBBBB"
      && t'["AAAAAA"].originalUrl == t'["BBBBBB"].originalUrl && !UniqueUrls(t')
  {
    var rand: RandomSource := (i: nat) => 1;
    assert Alphabet[1] == 'B';
    var c0 := Candidate(rand, 0);
    assert c0 == GenerateShortCode(CodeLength, (i: nat) => rand(CodeLength * 0 + i));
    assert forall i :: 0 <= i < CodeLength ==> c0[i] == 'B';
    assert c0 == "BBBBBB";
    assert FirstFree({"AAAAAA"}, rand, 0) == 0;
  }
}
