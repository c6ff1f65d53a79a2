/**
 * Conditional-request shaping of the feed fetcher (core/fetcher.py): the
 * `If-None-Match` and `If-Modified-Since` request headers of sections 3.2
 * and 3.3 of RFC 7232, and the `FetchResult` built from the response, where
 * a 304 (section 4.1 of RFC 7232) carries no body and echoes the validators
 * that were sent.
 *
 * The HTTP exchange itself is a `Transport` parameter: it maps the request to
 * the server's response, or to None when the request raised.
 */
module Fetcher {
  import opened Optional

  const IfNoneMatch := "If-None-Match"
  const IfModifiedSince := "If-Modified-Since"
  const ETag := "ETag"
  const LastModified := "Last-Modified"
  const NotModified := 304

  datatype Request = Request(url: string, headers: map<string, string>)
  datatype Response = Response(status: int, body: string, headers: map<string, string>)
  datatype FetchResult = FetchResult(
    statusCode: int,
    content: Option<string>,
    etag: Option<string>,
    lastModified: Option<string>)

  type Transport = Request -> Option<Response>

  /** `headers.get(key)`. */
  function Lookup(headers: map<string, string>, key: string): (r: Option<string>)
    ensures r.Some? <==> key in headers
    ensures r.Some? ==> r.value == headers[key]
  {
    if key in headers then Some(headers[key]) else None
  }

  /**
   * The conditional headers for the stored validators: `If-None-Match` is
   * present exactly when there is an etag, `If-Modified-Since` exactly when
   * there is a last-modified value, each carrying that value verbatim, and
   * nothing else is added.
   */
  function HeadersFor(etag: Option<string>, lastModified: Option<string>): (h: map<string, string>)
    ensures IfNoneMatch in h <==> etag.Some?
    ensures etag.Some? ==> h[IfNoneMatch] == etag.value
    ensures IfModifiedSince in h <==> lastModified.Some?
    ensures lastModified.Some? ==> h[IfModifiedSince] == lastModified.value
    ensures h.Keys <= {IfNoneMatch, IfModifiedSince}
  {
    var withEtag := if etag.Some? then map[IfNoneMatch := etag.value] else map[];
    if lastModified.Some? then withEtag[IfModifiedSince := lastModified.value] else withEtag
  }

  /** The validators a conditional request carries. */
  function SentValidators(h: map<string, string>): (Option<string>, Option<string>) {
    (Lookup(h, IfNoneMatch), Lookup(h, IfModifiedSince))
  }

  /** The request headers carry exactly the validators they were built from. */
  lemma HeadersRoundTrip(etag: Option<string>, lastModified: Option<string>)
    ensures SentValidators(HeadersFor(etag, lastModified)) == (etag, lastModified)
  {
  }

  /** The headers dictionary built by conditional inserts, as `fetch` does before the request. */
  method ConditionalHeaders(etag: Option<string>, lastModified: Option<string>) returns (headers: map<string, string>)
    ensures headers == HeadersFor(etag, lastModified)
  {
    headers := map[];
    if etag.Some? {
      headers := headers[IfNoneMatch := etag.value];
    }
    if lastModified.Some? {
      headers := headers[IfModifiedSince := lastModified.value];
    }
  }

  /**
   * The result of one exchange: on 304 no content and the request's own
   * validators echoed back; on any other status that status, the body, and
   * the response's `ETag` and `Last-Modified` values, absent when the server
   * sent none.
   */
  function Shape(response: Response, etag: Option<string>, lastModified: Option<string>): (r: FetchResult)
    ensures r.statusCode == response.status
    ensures r.content.None? <==> response.status == NotModified
    ensures response.status == NotModified ==> r.etag == etag && r.lastModified == lastModified
    ensures response.status != NotModified ==>
      && r.content == Some(response.body)
      && r.etag == Lookup(response.headers, ETag)
      && r.lastModified == Lookup(response.headers, LastModified)
  {
    if response.status == NotModified then FetchResult(NotModified, None, etag, lastModified)
    else FetchResult(response.status, Some(response.body), Lookup(response.headers, ETag), Lookup(response.headers, LastModified))
  }

  /**
   * A 304 hands back exactly the validators the conditional request sent,
   * so storing them leaves the stored validators as they were.
   */
  lemma NotModifiedEchoesRequest(response: Response, etag: Option<string>, lastModified: Option<string>)
    requires response.status == NotModified
    ensures var r := Shape(response, etag, lastModified);
      (r.etag, r.lastModified) == SentValidators(HeadersFor(etag, lastModified))
  {
    HeadersRoundTrip(etag, lastModified);
  }

  /**
   * `fetch`: sends a GET for `url` with the conditional headers and shapes
   * the answer; None when the exchange raised.
   */
  method Fetch(url: string, etag: Option<string>, lastModified: Option<string>, transport: Transport)
    returns (result: Option<FetchResult>)
    ensures result == match transport(Request(url, HeadersFor(etag, lastModified)))
      case None => None
      case Some(response) => Some(Shape(response, etag, lastModified))
  {
    var headers := ConditionalHeaders(etag, lastModified);
    var response := transport(Request(url, headers));
    if response.None? {
      return None;
    }
    result := Some(Shape(response.value, etag, lastModified));
  }
}
