/**
 * The `short_links` table both edge functions share: one row per short code,
 * holding the original URL, the click counter and the creation time.
 */
module LinkRegistry {
  import opened Wrappers

  type Timestamp = int

  datatype Link = Link(originalUrl: string, clickCount: nat, createdAt: Timestamp)

  /** The table keyed by `short_code`; a map makes codes unique by construction. */
  type Table = map<string, Link>

  /** Some row stores exactly this URL string. */
  predicate UrlStored(t: Table, url: string)
  {
    exists code :: code in t && t[code].originalUrl == url
  }

  /** No URL string is stored under two codes: what sequential creation keeps. */
  ghost predicate UniqueUrls(t: Table)
  {
    forall c1, c2 :: c1 in t && c2 in t && t[c1].originalUrl == t[c2].originalUrl ==> c1 == c2
  }

  /** `code` is the one row storing exactly this URL string. */
  predicate StoredOnlyUnder(t: Table, url: string, code: string)
  {
    code in t && t[code].originalUrl == url && forall c :: c in t && t[c].originalUrl == url ==> c == code
  }

  /**
   * The answer of `.eq('original_url', url).maybeSingle()`: the code of the
   * only row storing `url`. No row gives no data, and so do several rows,
   * where `maybeSingle` reports an error the handler does not read.
   */
  ghost function CodeOfUrl(t: Table, url: string): (r: Option<string>)
    ensures r.Some? <==> exists code :: StoredOnlyUnder(t, url, code)
    ensures r.Some? ==> StoredOnlyUnder(t, url, r.value)
    ensures UniqueUrls(t) ==> (r.Some? <==> UrlStored(t, url))
  {
    if UrlStored(t, url) then
      var code :| code in t && t[code].originalUrl == url;
      if StoredOnlyUnder(t, url, code) then Some(code) else None
    else None
  }

  /** Adding a row for a new code and a URL not yet stored keeps URLs unique. */
  lemma InsertKeepsUrlsUnique(t: Table, code: string, link: Link)
    requires UniqueUrls(t)
    requires code !in t && !UrlStored(t, link.originalUrl)
    ensures UniqueUrls(t[code := link])
    ensures CodeOfUrl(t[code := link], link.originalUrl) == Some(code)
  {
    var t' := t[code := link];
    forall c1, c2 | c1 in t' && c2 in t' && t'[c1].originalUrl == t'[c2].originalUrl
      ensures c1 == c2
    {
      if c1 == code || c2 == code {
        assert !UrlStored(t, link.originalUrl);
      }
    }
    assert t'[code].originalUrl == link.originalUrl;
    var r := CodeOfUrl(t', link.originalUrl);
    assert r.Some? && t'[r.value].originalUrl == t'[code].originalUrl;
  }

  /** Rewriting the counter of one row keeps URLs unique and the set of codes. */
  lemma CountUpdateKeepsUrlsUnique(t: Table, code: string, count: nat)
    requires UniqueUrls(t) && code in t
    ensures UniqueUrls(t[code := t[code].(clickCount := count)])
  {
    var t' := t[code := t[code].(clickCount := count)];
    forall c1, c2 | c1 in t' && c2 in t' && t'[c1].originalUrl == t'[c2].originalUrl
      ensures c1 == c2
    {
      assert t'[c1].originalUrl == t[c1].originalUrl && t'[c2].originalUrl == t[c2].originalUrl;
    }
  }

  /**
   * The Supabase client as the handlers use it, reduced to the operations on
   * `short_links`. Store failures are passed in as flags.
   */
  class Registry {
    var links: Table

    ghost predicate Valid()
      reads this
    {
      UniqueUrls(links)
    }

    constructor ()
      ensures links == map[] && Valid()
    {
      links := map[];
    }

    /**
     * `select('short_code').eq('original_url', url).maybeSingle()`, of which
     * the handler keeps only the data: a store error reads as no row.
     */
    method FindCodeByUrl(url: string, fails: bool) returns (r: Option<string>)
      ensures r == if fails then None else CodeOfUrl(links, url)
      ensures r.Some? ==> StoredOnlyUnder(links, url, r.value)
      ensures !fails && Valid() ==> (r.None? <==> forall code :: code in links ==> links[code].originalUrl != url)
    {
      if !fails && exists code :: code in links && StoredOnlyUnder(links, url, code) {
        var code :| code in links && StoredOnlyUnder(links, url, code);
        r := Some(code);
      } else {
        r := None;
      }
    }

    /** `select(...).eq('short_code', code)`: the row under `code`, if any. */
    method FindByCode(code: string) returns (r: Option<Link>)
      ensures r.Some? <==> code in links
      ensures r.Some? ==> r.value == links[code]
    {
      if code in links {
        r := Some(links[code]);
      } else {
        r := None;
      }
    }

    /**
     * `insert([{ original_url, short_code }]).select().single()`: the new row
     * takes the column defaults (`click_count` 0, `created_at` now). The
     * unique constraint on `short_code` and a store failure both give an error.
     */
    method Insert(code: string, url: string, now: Timestamp, fails: bool) returns (r: Option<Link>)
      modifies this
      ensures r.Some? <==> !fails && code !in old(links)
      ensures r.Some? ==> r.value == Link(url, 0, now) && links == old(links)[code := r.value]
      ensures r.None? ==> links == old(links)
    {
      if fails || code in links {
        r := None;
      } else {
        r := Some(Link(url, 0, now));
        links := links[code := r.value];
      }
    }

    /**
     * `update({ click_count: count }).eq('short_code', code)`: overwrites the
     * counter of the matching row; no row matches an unknown code.
     */
    method SetClickCount(code: string, count: nat, fails: bool)
      modifies this
      ensures links == if !fails && code in old(links)
                       then old(links)[code := old(links)[code].(clickCount := count)]
                       else old(links)
    {
      if !fails && code in links {
        links := links[code := links[code].(clickCount := count)];
      }
    }
  }
}
