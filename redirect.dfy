/**
 * The redirect Lambda: look the id up, normalise the stored long URL with
 * `ensureProtocol`, answer 301 with a `Location` header, or 500 on any
 * exception thrown inside the `try`.
 *
 * The URL parser behind `new URL(url)` (WHATWG URL Standard, section 4.4,
 * "URL parsing", with no base URL) is not modelled: it is the parameter
 * `parsesAsAbsoluteUrl`, true exactly when the constructor does not throw.
 */
module Redirect {

  import opened Http
  import opened Store

  const HttpPrefix := "http://"
  const RedirectFailed :=
    "An error occurred while attempting to redirect you to your URL. Please try again later."

  /**
   * `ensureProtocol`: the URL itself when it parses as an absolute URL,
   * otherwise the URL behind an `http://` prefix.
   */
  function EnsureProtocol(parsesAsAbsoluteUrl: string -> bool, url: string): (r: string)
    ensures r == url <==> parsesAsAbsoluteUrl(url)
    ensures !parsesAsAbsoluteUrl(url) ==> r == HttpPrefix + url
    ensures |url| <= |r| && r[|r| - |url|..] == url
    ensures url != "" ==> r != ""
    ensures parsesAsAbsoluteUrl(r) || (|HttpPrefix| <= |r| && r[..|HttpPrefix|] == HttpPrefix)
  {
    if parsesAsAbsoluteUrl(url) then url else HttpPrefix + url
  }

  /**
   * The handler, as a function of the table, the `short_url_id` path
   * parameter, whether the get fails, and the URL parser. It only reads
   * the table. An absent id is not a separate case in the source: reading
   * `.longUrl` of an undefined `res.Item` throws into the same `catch` as
   * a failed get.
   */
  function Handler(items: map<string, Item>, id: string, getFails: bool,
                   parsesAsAbsoluteUrl: string -> bool): (r: Response)
    ensures r.statusCode == 301 || r.statusCode == 500
    ensures r.statusCode == 301 <==> !getFails && id in items
    ensures r.statusCode == 301 ==>
      && r.headers == map["Location" := EnsureProtocol(parsesAsAbsoluteUrl, items[id].longUrl)]
      && r.body == NoBody
    ensures r.statusCode == 500 ==> r.headers == map[] && r.body == ErrorBody(RedirectFailed)
  {
    if getFails || id !in items then
      Response(500, map[], ErrorBody(RedirectFailed))
    else
      Response(301, map["Location" := EnsureProtocol(parsesAsAbsoluteUrl, items[id].longUrl)], NoBody)
  }
}
