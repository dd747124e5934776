/**
 * Page-URL generation for the review collector: from the URL of the first
 * review page and the page count, the URL of every page, page 1 first.
 * Page k (k >= 2) is the parsed base URL whose path has its first "/reviews/"
 * rewritten to "/reviews/k/".
 */
module UrlBuilder {
  import opened Wrappers
  import opened Strings

  /**
   * A URL as the `URL` class holds it: everything before the path (scheme,
   * credentials, host, port), the path, and everything after it (query and
   * fragment).
   */
  datatype Url = Url(origin: string, pathname: string, suffix: string)

  /** URL.prototype.toString: the three parts one after another. */
  function Href(u: Url): string {
    u.origin + u.pathname + u.suffix
  }

  const ReviewsSegment: string := "/reviews/"

  /** The path of page `page`: the first "/reviews/" becomes "/reviews/<page>/". */
  function PagePath(path: string, page: nat): string {
    ReplaceFirst(path, ReviewsSegment, ReviewsSegment + NatToDecimal(page) + "/")
  }

  /** The parsed base URL with only its path rewritten for page `page`. */
  function PageUrl(parsed: Url, page: nat): Url {
    parsed.(pathname := PagePath(parsed.pathname, page))
  }

  /** The URLs of pages 2..n in ascending page order (none when n < 2). */
  function LaterPageUrls(parsed: Url, n: int): seq<string>
    decreases n
  {
    if n < 2 then [] else LaterPageUrls(parsed, n - 1) + [Href(PageUrl(parsed, n))]
  }

  /**
   * What buildPageUrls returns: the base URL text itself, unchanged, and then
   * the serialised URLs of pages 2..totalPages. `parsed` is `new URL(baseUrl)`.
   */
  function PageUrls(baseUrl: string, parsed: Url, totalPages: int): seq<string> {
    [baseUrl] + LaterPageUrls(parsed, totalPages)
  }

  /** Element `k` of the later pages is the URL of page `k + 2`. */
  lemma {:induction false} LaterPageUrlsAt(parsed: Url, n: int, k: nat)
    requires k < n - 1
    ensures |LaterPageUrls(parsed, n)| == n - 1
    ensures LaterPageUrls(parsed, n)[k] == Href(PageUrl(parsed, k + 2))
    decreases n
  {
    if k < n - 2 {
      LaterPageUrlsAt(parsed, n - 1, k);
    } else if n > 2 {
      LaterPageUrlsAt(parsed, n - 1, 0);
    }
  }

  /** There are no later pages unless the page count is at least 2. */
  lemma {:induction false} LaterPageUrlsEmpty(parsed: Url, n: int)
    requires n < 2
    ensures LaterPageUrls(parsed, n) == []
  {
  }

  /**
   * The list has `totalPages` entries when `totalPages >= 1` and one entry
   * otherwise; the first is `baseUrl`; entry k (0-based, k >= 1) is page k + 1,
   * which keeps the origin and the query of the parsed URL and changes only
   * its path.
   */
  lemma PageUrlsShape(baseUrl: string, parsed: Url, totalPages: int)
    ensures |PageUrls(baseUrl, parsed, totalPages)| == if totalPages >= 1 then totalPages else 1
    ensures PageUrls(baseUrl, parsed, totalPages)[0] == baseUrl
    ensures forall k :: 1 <= k < |PageUrls(baseUrl, parsed, totalPages)| ==>
      PageUrls(baseUrl, parsed, totalPages)[k]
        == parsed.origin + PagePath(parsed.pathname, k + 1) + parsed.suffix
  {
    var r := PageUrls(baseUrl, parsed, totalPages);
    if totalPages >= 2 {
      LaterPageUrlsAt(parsed, totalPages, 0);
      forall k | 1 <= k < |r|
        ensures r[k] == parsed.origin + PagePath(parsed.pathname, k + 1) + parsed.suffix
      {
        LaterPageUrlsAt(parsed, totalPages, k - 1);
      }
    } else {
      LaterPageUrlsEmpty(parsed, totalPages);
    }
  }

  /** Where the path has "/reviews/" at `i` and nowhere before, page `page` inserts its number right after it. */
  lemma PagePathAt(path: string, page: nat, i: nat)
    requires OccursAt(path, ReviewsSegment, i)
    requires forall j :: 0 <= j < i ==> !OccursAt(path, ReviewsSegment, j)
    ensures PagePath(path, page)
      == path[..i] + ReviewsSegment + NatToDecimal(page) + "/" + path[i + |ReviewsSegment|..]
  {
    IndexOfFromSpec(path, ReviewsSegment, 0);
    var found := IndexOf(path, ReviewsSegment);
    assert found.Some? && found.value == i;
  }

  /** A path without "/reviews/" is the same on every page. */
  lemma PagePathWithoutSegment(path: string, page: nat)
    requires !Contains(path, ReviewsSegment)
    ensures PagePath(path, page) == path
  {
  }

  /** Pages of a path that holds "/reviews/" have distinct paths, all different from the base path. */
  lemma PagePathsDistinct(path: string, p: nat, q: nat)
    requires Contains(path, ReviewsSegment)
    ensures PagePath(path, p) != path
    ensures p != q ==> PagePath(path, p) != PagePath(path, q)
  {
    var i := IndexOf(path, ReviewsSegment).value;
    var n := |ReviewsSegment|;
    var dp, dq := NatToDecimal(p), NatToDecimal(q);
    var pre, post := path[..i] + ReviewsSegment, "/" + path[i + n..];
    assert PagePath(path, p) == pre + dp + post;
    assert PagePath(path, q) == pre + dq + post;
    if p != q && |dp| == |dq| {
      DecimalRoundTrip(p);
      DecimalRoundTrip(q);
      SpliceDistinct(pre, dp, dq, post);
    }
  }

  /** Splicing two different pieces of one length into the same place gives different strings. */
  lemma SpliceDistinct(pre: string, x: string, y: string, post: string)
    requires |x| == |y| && x != y
    ensures pre + x + post != pre + y + post
  {
    var k :| 0 <= k < |x| && x[k] != y[k];
    assert (pre + x + post)[|pre| + k] == x[k];
    assert (pre + y + post)[|pre| + k] == y[k];
  }

  /** URLs that agree on origin and query are equal only when their paths are. */
  lemma HrefInjective(u: Url, v: Url)
    requires u.origin == v.origin && u.suffix == v.suffix
    requires u.pathname != v.pathname
    ensures Href(u) != Href(v)
  {
    if |u.pathname| == |v.pathname| {
      var k :| 0 <= k < |u.pathname| && u.pathname[k] != v.pathname[k];
      assert Href(u)[|u.origin| + k] == u.pathname[k];
      assert Href(v)[|v.origin| + k] == v.pathname[k];
    }
  }

  /**
   * When the path holds "/reviews/", the generated URLs of pages 2..n are
   * pairwise distinct and differ from the serialised base URL; when it does
   * not, every one of them is the serialised base URL.
   */
  lemma LaterPageUrlsDistinct(parsed: Url, n: int)
    ensures Contains(parsed.pathname, ReviewsSegment) ==>
      (forall j, k :: 0 <= j < k < |LaterPageUrls(parsed, n)| ==>
         LaterPageUrls(parsed, n)[j] != LaterPageUrls(parsed, n)[k])
      && (forall k :: 0 <= k < |LaterPageUrls(parsed, n)| ==> LaterPageUrls(parsed, n)[k] != Href(parsed))
    ensures !Contains(parsed.pathname, ReviewsSegment) ==>
      forall k :: 0 <= k < |LaterPageUrls(parsed, n)| ==> LaterPageUrls(parsed, n)[k] == Href(parsed)
  {
    var r := LaterPageUrls(parsed, n);
    if n >= 2 {
      LaterPageUrlsAt(parsed, n, 0);
    } else {
      LaterPageUrlsEmpty(parsed, n);
    }
    forall k | 0 <= k < |r| ensures r[k] == Href(PageUrl(parsed, k + 2)) {
      LaterPageUrlsAt(parsed, n, k);
    }
    if Contains(parsed.pathname, ReviewsSegment) {
      forall j, k | 0 <= j < k < |r| ensures r[j] != r[k] {
        PagePathsDistinct(parsed.pathname, j + 2, k + 2);
        HrefInjective(PageUrl(parsed, j + 2), PageUrl(parsed, k + 2));
      }
      forall k | 0 <= k < |r| ensures r[k] != Href(parsed) {
        PagePathsDistinct(parsed.pathname, k + 2, k + 2);
        HrefInjective(PageUrl(parsed, k + 2), parsed);
      }
    } else {
      forall k | 0 <= k < |r| ensures r[k] == Href(parsed) {
        PagePathWithoutSegment(parsed.pathname, k + 2);
        assert PageUrl(parsed, k + 2) == parsed;
      }
    }
  }

  /**
   * buildPageUrls: starts the list with `baseUrl` and appends the serialised
   * URL of each page from 2 up to `totalPages`. `parsed` is `new URL(baseUrl)`;
   * parsing is not modelled.
   */
  method BuildPageUrls(baseUrl: string, parsed: Url, totalPages: int) returns (urls: seq<string>)
    ensures urls == PageUrls(baseUrl, parsed, totalPages)
  {
    urls := [baseUrl];
    var page := 2;
    while page <= totalPages
      invariant 2 <= page <= if totalPages >= 2 then totalPages + 1 else 2
      invariant urls == [baseUrl] + LaterPageUrls(parsed, page - 1)
    {
      var pageUrl := PageUrl(parsed, page);
      urls := urls + [Href(pageUrl)];
      page := page + 1;
    }
    if totalPages < 2 {
      LaterPageUrlsEmpty(parsed, totalPages);
    }
  }
}
