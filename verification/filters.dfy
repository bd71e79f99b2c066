/**
 * The crawler's two cheap pre-filters: the suffix blacklist applied to a URL
 * before it is fetched or enqueued, and the test a response must pass before
 * its page is recorded and its links are followed.
 */
module Filters {
  import opened Wrappers
  import opened Text

  /** The non-HTML suffixes (images, documents, archives, audio and video). */
  const ExcludedExtensions: seq<string> := [
    ".jpg", ".jpeg", ".png", ".gif", ".webp", ".bmp", ".svg", ".ico",
    ".pdf", ".doc", ".docx", ".xls", ".xlsx", ".zip", ".rar", ".7z", ".mp4", ".mp3"
  ]

  /** `any(s.endswith(ext) for ext in exts)` */
  function AnyEndsWith(s: string, exts: seq<string>): (r: bool)
    ensures r <==> exists i :: 0 <= i < |exts| && EndsWith(s, exts[i])
  {
    if exts == [] then false
    else
      assert forall i :: 1 <= i < |exts| ==> exts[i] == exts[1..][i - 1];
      EndsWith(s, exts[0]) || AnyEndsWith(s, exts[1..])
  }

  /** `is_excluded(url)`: the lower-cased URL ends with one of the excluded suffixes. */
  function IsExcluded(url: string): bool
  {
    AnyEndsWith(Lower(url), ExcludedExtensions)
  }

  /** The test ignores case: a URL and its lower-cased form are excluded alike. */
  lemma IsExcludedIgnoresCase(url: string)
    ensures IsExcluded(url) <==> IsExcluded(Lower(url))
  {
    LowerIdempotent(url);
  }

  /** Exactly the URLs whose lower-cased form ends with a listed suffix are excluded. */
  lemma IsExcludedMeaning(url: string)
    ensures IsExcluded(url) <==> exists ext :: ext in ExcludedExtensions && EndsWith(Lower(url), ext)
  {
    if IsExcluded(url) {
      var i :| 0 <= i < |ExcludedExtensions| && EndsWith(Lower(url), ExcludedExtensions[i]);
      assert ExcludedExtensions[i] in ExcludedExtensions;
    }
  }

  /** No excluded suffix ends in `l`, so no URL ending in `l` (such as an `.html` page) is excluded. */
  lemma NotExcludedWhenEndingInL(url: string)
    requires url != [] && LowerChar(url[|url| - 1]) == 'l'
    ensures !IsExcluded(url)
  {
    var s := Lower(url);
    forall i | 0 <= i < |ExcludedExtensions| ensures !EndsWith(s, ExcludedExtensions[i]) {
      var ext := ExcludedExtensions[i];
      assert ext[|ext| - 1] != 'l';
    }
  }

  /** An upper-case `.PDF` is excluded; an `.html` page is not. */
  lemma IsExcludedExamples()
    ensures IsExcluded("http://x/a.PDF")
    ensures !IsExcluded("http://x/a.html")
  {
    var upper := "http://x/a.PDF";
    var s := Lower(upper);
    assert s[10] == '.' && s[11] == 'p' && s[12] == 'd' && s[13] == 'f';
    assert s[10..] == ".pdf";
    assert EndsWith(s, ExcludedExtensions[8]);
    NotExcludedWhenEndingInL("http://x/a.html");
  }

  /** What the fetcher reports for one URL: status, the Content-Type header if present, and the
   *  hyperlinks of the body, already resolved against the URL. */
  datatype Response = Response(status: int, contentType: Option<string>, links: seq<string>)

  /** `response.headers.get('Content-Type', '')` */
  function ContentType(response: Response): string
  {
    match response.contentType
    case Some(value) => value
    case None => ""
  }

  /** `is_valid_html_response(response)`: status 200 and `text/html` inside the lower-cased content type. */
  function IsValidHtmlResponse(response: Response): bool
  {
    response.status == 200 && Contains(Lower(ContentType(response)), "text/html")
  }

  /**
   * A response qualifies exactly when its status is 200 and `text/html`
   * occurs, in any letter case, in its Content-Type; without that header it
   * never qualifies.
   */
  lemma IsValidHtmlResponseMeaning(response: Response)
    ensures IsValidHtmlResponse(response) <==>
      response.status == 200 && response.contentType.Some? &&
      exists i :: OccursAt(Lower(response.contentType.value), "text/html", i)
  {
    if response.contentType.None? {
      assert Lower(ContentType(response)) == "";
    }
  }

  /** An HTML page with a charset parameter qualifies, whatever the letter case. */
  lemma HtmlWithCharsetQualifies(links: seq<string>)
    ensures IsValidHtmlResponse(Response(200, Some("Text/HTML; charset=utf-8"), links))
  {
    var s := Lower("Text/HTML; charset=utf-8");
    assert s[0] == 't' && s[1] == 'e' && s[2] == 'x' && s[3] == 't' && s[4] == '/';
    assert s[5] == 'h' && s[6] == 't' && s[7] == 'm' && s[8] == 'l';
    assert s[0..9] == "text/html";
    assert OccursAt(s, "text/html", 0);
  }

  /** A 404, a JSON document and a response without Content-Type do not qualify. */
  lemma NonHtmlRejected(links: seq<string>)
    ensures !IsValidHtmlResponse(Response(404, Some("text/html"), links))
    ensures !IsValidHtmlResponse(Response(200, Some("application/json"), links))
    ensures !IsValidHtmlResponse(Response(200, None, links))
  {
    var json := "application/json";
    var s := Lower(json);
    assert forall k :: 0 <= k < |s| ==> s[k] != 'x';
    forall i ensures !OccursAt(s, "text/html", i) {
      assert "text/html"[2] == 'x';
    }
    IsValidHtmlResponseMeaning(Response(200, None, links));
  }
}
