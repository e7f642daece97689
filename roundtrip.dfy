/**
 * The two handlers together over one table: what a client that shortens a
 * URL and then follows the short link observes.
 */
module RoundTrip {

  import opened Wrappers
  import opened Hex
  import opened Http
  import opened Store
  import ShortenUrl
  import Redirect

  /**
   * After a successful shorten of `url`, following the returned short link
   * (its final path segment is the id) redirects to the normalised `url`.
   */
  lemma ShortenThenRedirect(items: map<string, Item>, url: string, baseUrl: string,
                            bytes: seq<byte>, parsesAsAbsoluteUrl: string -> bool)
    requires |bytes| == 4 && url != ""
    ensures var created := ShortenUrl.Shorten(items, Some(url), baseUrl, bytes, Succeeded);
      && created.response.statusCode == 200
      && created.response.body.ShortUrlBody?
      && Redirect.Handler(created.items, ShortenUrl.LastSegment(created.response.body.shortUrl),
                          false, parsesAsAbsoluteUrl)
         == Response(301, map["Location" := Redirect.EnsureProtocol(parsesAsAbsoluteUrl, url)], NoBody)
  {
  }

  /**
   * There is no collision check: a second shorten that draws the same four
   * bytes overwrites the first item, and the first short link now
   * redirects to the second URL.
   */
  lemma CollisionOverwrites(items: map<string, Item>, first: string, second: string,
                            baseUrl: string, bytes: seq<byte>, parsesAsAbsoluteUrl: string -> bool)
    requires |bytes| == 4 && first != "" && second != ""
    ensures var once := ShortenUrl.Shorten(items, Some(first), baseUrl, bytes, Succeeded);
      var twice := ShortenUrl.Shorten(once.items, Some(second), baseUrl, bytes, Succeeded);
      && once.response == twice.response
      && twice.items.Keys == once.items.Keys
      && twice.items[ShortenUrl.UrlId(bytes)].longUrl == second
      && Redirect.Handler(twice.items, ShortenUrl.UrlId(bytes), false, parsesAsAbsoluteUrl).headers
         == map["Location" := Redirect.EnsureProtocol(parsesAsAbsoluteUrl, second)]
  {
  }

  /**
   * A shorten whose put the store rejected leaves an id that was absent
   * unresolvable: the redirect answers 500, never 301.
   */
  lemma FailedShortenLeavesNoLink(items: map<string, Item>, url: Option<string>, baseUrl: string,
                                  bytes: seq<byte>, getFails: bool, parsesAsAbsoluteUrl: string -> bool)
    requires |bytes| == 4 && ShortenUrl.UrlId(bytes) !in items
    ensures var created := ShortenUrl.Shorten(items, url, baseUrl, bytes, Rejected);
      Redirect.Handler(created.items, ShortenUrl.UrlId(bytes), getFails, parsesAsAbsoluteUrl).statusCode == 500
  {
  }

  /**
   * A put that throws after DynamoDB applied it: the client is told 500 and
   * gets no short URL, yet the id it never saw now redirects to its URL.
   */
  lemma FailedShortenMayStillLink(items: map<string, Item>, url: string, baseUrl: string,
                                  bytes: seq<byte>, parsesAsAbsoluteUrl: string -> bool)
    requires |bytes| == 4 && url != ""
    ensures var created := ShortenUrl.Shorten(items, Some(url), baseUrl, bytes, FailedAfterWrite);
      && created.response.statusCode == 500
      && !created.response.body.ShortUrlBody?
      && Redirect.Handler(created.items, ShortenUrl.UrlId(bytes), false, parsesAsAbsoluteUrl)
         == Response(301, map["Location" := Redirect.EnsureProtocol(parsesAsAbsoluteUrl, url)], NoBody)
  {
  }

  /**
   * In a table written only by the shorten handler, a redirect never
   * carries an empty `Location`.
   */
  lemma LocationNeverEmpty(items: map<string, Item>, baseUrl: string, id: string, getFails: bool,
                           parsesAsAbsoluteUrl: string -> bool)
    requires ShortenUrl.WellFormed(items, baseUrl)
    ensures var r := Redirect.Handler(items, id, getFails, parsesAsAbsoluteUrl);
      r.statusCode == 301 ==> "Location" in r.headers && r.headers["Location"] != ""
  {
  }

  /** Shortening and then following the link, as a client of the two handlers would. */
  method ShortenAndFollow(table: Table, url: Option<string>, baseUrl: string, bytes: seq<byte>,
                          put: PutResult, getFails: bool, parsesAsAbsoluteUrl: string -> bool)
    returns (created: Response, followed: Option<Response>)
    requires |bytes| == 4
    modifies table
    ensures created.statusCode == 200 <==> ShortenUrl.IsTruthy(url) && put == Succeeded
    ensures followed.Some? <==> created.statusCode == 200
    ensures followed.Some? && !getFails ==>
      followed.value == Response(301, map["Location" := Redirect.EnsureProtocol(parsesAsAbsoluteUrl, url.value)], NoBody)
    ensures followed.Some? && getFails ==> followed.value == Response(500, map[], ErrorBody(Redirect.RedirectFailed))
    ensures table.items == ShortenUrl.Shorten(old(table.items), url, baseUrl, bytes, put).items
  {
    created := ShortenUrl.Handler(table, url, baseUrl, bytes, put);
    if created.statusCode == 200 {
      ShortenThenRedirect(old(table.items), url.value, baseUrl, bytes, parsesAsAbsoluteUrl);
      var id := ShortenUrl.LastSegment(created.body.shortUrl);
      followed := Some(Redirect.Handler(table.items, id, getFails, parsesAsAbsoluteUrl));
    } else {
      followed := None;
    }
  }
}
