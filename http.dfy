/**
 * The slice of HTTP that the two edge functions use: a status code, explicit
 * response headers and a body. Bodies are kept symbolic (no JSON encoding).
 */
module Http {
  import opened Wrappers

  type Headers = map<string, string>

  /** The permissive CORS headers the create endpoint attaches to every answer. */
  const CorsHeaders: Headers :=
    map["Access-Control-Allow-Origin" := "*",
        "Access-Control-Allow-Headers" := "authorization, x-client-info, apikey, content-type"]

  /** CORS headers plus the JSON content type, used on every create answer that has a body. */
  const JsonHeaders: Headers := CorsHeaders["Content-Type" := "application/json"]

  datatype Body =
    | NoBody
      /** A plain-text body, as the redirect endpoint sends on failure. */
    | Text(text: string)
      /** `{ "error": ... }` */
    | ErrorJson(error: string)
      /** `{ short_url, short_code, original_url, existing: true }` */
    | ExistingLink(shortUrl: string, shortCode: string, originalUrl: string)
      /** `{ short_url, short_code, original_url, created_at }` */
    | CreatedLink(shortUrl: string, shortCode: string, originalUrl: string, createdAt: int)

  datatype Response = Response(status: nat, headers: Headers, body: Body)

  /** What the handlers read from a parsed URL. */
  datatype ParsedUrl = ParsedUrl(pathname: string)

  /**
   * The WHATWG "basic URL parser" behind `new URL(s)`: `None` where the
   * constructor throws. It is a parameter of the handlers, not defined here.
   */
  type UrlParser = string -> Option<ParsedUrl>

  // Header values, as the Fetch standard's `Headers` accepts them when a
  // `Response` is constructed: the value is converted to a ByteString, then
  // normalized, then checked; a failed conversion or check throws a TypeError.

  /** HTTP whitespace: tab, line feed, carriage return and space. */
  predicate IsHttpWhitespace(c: char)
  {
    c == '\t' || c == '\n' || c == '\r' || c == ' '
  }

  /** A character a header value may not hold: NUL, line feed or carriage return. */
  predicate IsForbiddenInValue(c: char)
  {
    c == '\0' || c == '\n' || c == '\r'
  }

  /** WebIDL `ByteString`: every code unit is at most 0xFF. */
  predicate IsByteString(s: string)
  {
    forall i :: 0 <= i < |s| ==> s[i] as int <= 0xFF
  }

  /** How many HTTP whitespace characters the value starts with. */
  function LeadingSpace(s: string): (n: nat)
    ensures n <= |s|
    ensures forall i :: 0 <= i < n ==> IsHttpWhitespace(s[i])
    ensures n < |s| ==> !IsHttpWhitespace(s[n])
    decreases |s|
  {
    if s != [] && IsHttpWhitespace(s[0]) then 1 + LeadingSpace(s[1..]) else 0
  }

  /** How many HTTP whitespace characters the value ends with. */
  function TrailingSpace(s: string): (n: nat)
    ensures n <= |s|
    ensures forall i :: |s| - n <= i < |s| ==> IsHttpWhitespace(s[i])
    ensures n < |s| ==> !IsHttpWhitespace(s[|s| - n - 1])
    decreases |s|
  {
    if s != [] && IsHttpWhitespace(s[|s| - 1]) then 1 + TrailingSpace(s[..|s| - 1]) else 0
  }

  /** "Normalize" a header value: strip HTTP whitespace at both ends. */
  function Normalize(s: string): string
  {
    var rest := s[LeadingSpace(s)..];
    rest[..|rest| - TrailingSpace(rest)]
  }

  /** A header value as stored: a ByteString with no surrounding whitespace and no NUL, LF or CR. */
  predicate IsHeaderValue(v: string)
  {
    && IsByteString(v)
    && (v == [] || (!IsHttpWhitespace(v[0]) && !IsHttpWhitespace(v[|v| - 1])))
    && forall i :: 0 <= i < |v| ==> !IsForbiddenInValue(v[i])
  }

  /** The strings a `Headers` fill accepts as a value without throwing. */
  predicate HeaderValueAccepted(s: string)
  {
    IsByteString(s) && IsHeaderValue(Normalize(s))
  }

  /** Every character the normalization keeps is the input's, at the offset of the leading whitespace. */
  lemma {:induction false} NormalizeIsInfix(s: string)
    ensures var r, k := Normalize(s), LeadingSpace(s);
      k + |r| <= |s| && forall i :: 0 <= i < |r| ==> r[i] == s[k + i]
  {
  }

  /** A normalized value never starts or ends with HTTP whitespace. */
  lemma {:induction false} NormalizeTrimsBothEnds(s: string)
    ensures var r := Normalize(s);
      r == [] || (!IsHttpWhitespace(r[0]) && !IsHttpWhitespace(r[|r| - 1]))
  {
    var rest := s[LeadingSpace(s)..];
    var r := Normalize(s);
    if r != [] {
      assert r[0] == rest[0] == s[LeadingSpace(s)];
      assert r[|r| - 1] == rest[|rest| - TrailingSpace(rest) - 1];
    }
  }

  /**
   * What the Fetch standard demands, step by step: the string converts to a
   * ByteString, and once normalized it holds no NUL, LF or CR.
   */
  lemma {:induction false} HeaderValueAcceptedSteps(s: string)
    ensures HeaderValueAccepted(s) <==>
      IsByteString(s) && forall i :: 0 <= i < |Normalize(s)| ==> !IsForbiddenInValue(Normalize(s)[i])
  {
    NormalizeTrimsBothEnds(s);
    if IsByteString(s) {
      NormalizeKeepsByteString(s);
    }
  }

  /** Normalizing only drops characters, so a ByteString stays one. */
  lemma {:induction false} NormalizeKeepsByteString(s: string)
    requires IsByteString(s)
    ensures IsByteString(Normalize(s))
  {
    var r := Normalize(s);
    NormalizeIsInfix(s);
    forall i | 0 <= i < |r|
      ensures r[i] as int <= 0xFF
    {
      assert r[i] == s[LeadingSpace(s) + i];
    }
  }

  /** A stored header value is accepted again unchanged: normalization is the identity on it. */
  lemma {:induction false} HeaderValueIsNormal(v: string)
    requires IsHeaderValue(v)
    ensures Normalize(v) == v && HeaderValueAccepted(v)
  {
    assert LeadingSpace(v) == 0 && v[0..] == v;
    assert TrailingSpace(v) == 0 && v[..|v|] == v;
  }
}
