/**
 * The shorten-url Lambda: validate the submitted URL, derive an id from four
 * random bytes, compose the short URL, put the item and answer 400, 500 or 200.
 */
module ShortenUrl {

  import opened Wrappers
  import opened Hex
  import opened Http
  import opened Store

  const UrlRequired := "URL is required"
  const ShortenFailed := "Error occurred while attempting to shorten URL"

  /**
   * `!longUrl` is false: JavaScript truthiness of the `url` field, where
   * `None` is an absent field (or JSON `null`). Only the empty string is a
   * falsy string, so whitespace passes.
   */
  predicate IsTruthy(url: Option<string>)
    ensures IsTruthy(url) <==> url != None && url != Some("")
  {
    url.Some? && url.value != ""
  }

  /** `randomBytes(4).toString("hex")`, with the four bytes given. */
  function UrlId(bytes: seq<byte>): (id: string)
    requires |bytes| == 4
    ensures |id| == 8
    ensures forall i :: 0 <= i < |id| ==> IsLowerHexDigit(id[i])
    ensures '/' !in id
    ensures FromHex(id) == Some(bytes)
  {
    FromHexToHex(bytes);
    ToHex(bytes)
  }

  /** The segment after the final '/' of `s` (all of `s` when it has none). */
  function LastSegment(s: string): (t: string)
    ensures |t| <= |s| && s[|s| - |t|..] == t
    ensures '/' !in t
    ensures |t| < |s| ==> s[|s| - |t| - 1] == '/'
  {
    if s == [] then []
    else if s[|s| - 1] == '/' then []
    else LastSegment(s[..|s| - 1]) + [s[|s| - 1]]
  }

  lemma {:induction false} LastSegmentAfterSlash(prefix: string, t: string)
    requires '/' !in t
    ensures LastSegment(prefix + "/" + t) == t
  {
    if t != [] {
      var s := prefix + "/" + t;
      assert s[..|s| - 1] == prefix + "/" + t[..|t| - 1];
      LastSegmentAfterSlash(prefix, t[..|t| - 1]);
      assert t == t[..|t| - 1] + [t[|t| - 1]];
    }
  }

  /** `${BASE_URL}/${urlId}`: the base, a slash, and the id as final segment. */
  function ShortUrl(baseUrl: string, id: string): (s: string)
    requires '/' !in id
    ensures |s| == |baseUrl| + 1 + |id|
    ensures s[..|baseUrl|] == baseUrl && s[|baseUrl|] == '/'
    ensures LastSegment(s) == id
  {
    LastSegmentAfterSlash(baseUrl, id);
    baseUrl + "/" + id
  }

  /** What one invocation of the handler returns and leaves in the table. */
  datatype Outcome = Outcome(response: Response, items: map<string, Item>)

  /**
   * The handler as a function of the table before the call, the `url`
   * field, `BASE_URL`, the four random bytes and how the put ends.
   */
  function Shorten(items: map<string, Item>, url: Option<string>, baseUrl: string,
                   bytes: seq<byte>, put: PutResult): (r: Outcome)
    requires |bytes| == 4
    ensures r.response.statusCode in {200, 400, 500}
    ensures r.response.statusCode == 400 <==> !IsTruthy(url)
    ensures r.response.statusCode == 500 <==> IsTruthy(url) && put != Succeeded
    ensures r.response.statusCode == 400 ==> r.response.body == ErrorBody(UrlRequired)
    ensures r.response.statusCode == 500 ==> r.response.body == ErrorBody(ShortenFailed)
    ensures r.response.statusCode != 200 ==> r.response.headers == map[]
    ensures !IsTruthy(url) || put == Rejected ==> r.items == items
    ensures IsTruthy(url) && put != Rejected ==>
      r.items == items[UrlId(bytes) := Item(UrlId(bytes), url.value, ShortUrl(baseUrl, UrlId(bytes)))]
    ensures r.response.statusCode == 200 ==>
      && r.response.headers == map["Content-Type" := "application/json"]
      && r.response.body == ShortUrlBody(ShortUrl(baseUrl, UrlId(bytes)))
  {
    if !IsTruthy(url) then
      Outcome(Response(400, map[], ErrorBody(UrlRequired)), items)
    else
      var id := UrlId(bytes);
      var shortUrl := ShortUrl(baseUrl, id);
      var written := if put == Rejected then items else items[id := Item(id, url.value, shortUrl)];
      if put != Succeeded then
        Outcome(Response(500, map[], ErrorBody(ShortenFailed)), written)
      else
        Outcome(Response(200, map["Content-Type" := "application/json"], ShortUrlBody(shortUrl)), written)
  }

  /**
   * Validation is truthiness, not a trimmed check: a whitespace-only URL is
   * accepted and stored as it was sent.
   */
  lemma WhitespaceOnlyAccepted(items: map<string, Item>, url: string, baseUrl: string, bytes: seq<byte>)
    requires |bytes| == 4 && url != ""
    requires forall i :: 0 <= i < |url| ==> url[i] in " \t\n\r"
    ensures var r := Shorten(items, Some(url), baseUrl, bytes, Succeeded);
      r.response.statusCode == 200 && r.items[UrlId(bytes)].longUrl == url
  {
  }

  /** The handler itself, writing to the shared table in place. */
  method Handler(table: Table, url: Option<string>, baseUrl: string,
                 bytes: seq<byte>, put: PutResult) returns (response: Response)
    requires |bytes| == 4
    modifies table
    ensures response == Shorten(old(table.items), url, baseUrl, bytes, put).response
    ensures table.items == Shorten(old(table.items), url, baseUrl, bytes, put).items
  {
    if !IsTruthy(url) {
      return Response(400, map[], ErrorBody(UrlRequired));
    }
    var id := UrlId(bytes);
    var shortUrl := ShortUrl(baseUrl, id);
    var ok := table.Put(Item(id, url.value, shortUrl), put);
    if !ok {
      return Response(500, map[], ErrorBody(ShortenFailed));
    }
    response := Response(200, map["Content-Type" := "application/json"], ShortUrlBody(shortUrl));
  }

  /**
   * The shape every item the handler writes has: keyed by its own id, an
   * eight-digit lowercase hex id, a non-empty long URL, and the short URL
   * composed from the deployment's base.
   */
  ghost predicate WellFormed(items: map<string, Item>, baseUrl: string) {
    forall k :: k in items ==>
      && items[k].id == k
      && |k| == 8 && '/' !in k
      && items[k].longUrl != ""
      && items[k].shortUrl == ShortUrl(baseUrl, k)
  }

  /** Putting a well-formed item keeps the table well formed. */
  lemma PutPreservesWellFormed(items: map<string, Item>, baseUrl: string, id: string, longUrl: string)
    requires WellFormed(items, baseUrl)
    requires |id| == 8 && '/' !in id && longUrl != ""
    ensures WellFormed(items[id := Item(id, longUrl, ShortUrl(baseUrl, id))], baseUrl)
  {
  }

  lemma ShortenPreservesWellFormed(items: map<string, Item>, url: Option<string>, baseUrl: string,
                                   bytes: seq<byte>, put: PutResult)
    requires |bytes| == 4
    requires WellFormed(items, baseUrl)
    ensures WellFormed(Shorten(items, url, baseUrl, bytes, put).items, baseUrl)
  {
    if IsTruthy(url) && put != Rejected {
      PutPreservesWellFormed(items, baseUrl, UrlId(bytes), url.value);
    }
  }
}
