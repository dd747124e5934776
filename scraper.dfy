/**
 * The page-side scraper of the review collector: the page-count arithmetic
 * of getPageInfo and the per-review extraction of extractReviews, with the
 * text of each page element given as input instead of read from the DOM.
 */
module Scraper {
  import opened Wrappers
  import opened Strings
  import opened ReviewTypes

  // ---------------------------------------------------------------------------
  // getPageInfo
  // ---------------------------------------------------------------------------

  datatype PageInfo = PageInfo(totalReviews: int, reviewsPerPage: nat, totalPages: int)

  /** `Math.ceil(a / b)` for a positive divisor (Dafny's `/` rounds toward minus infinity). */
  function CeilDiv(a: int, b: int): int
    requires b > 0
  {
    -((-a) / b)
  }

  /** The ceiling is the one integer `c` with `(c - 1) * b < a <= c * b`. */
  lemma CeilDivBounds(a: int, b: int)
    requires b > 0
    ensures (CeilDiv(a, b) - 1) * b < a <= CeilDiv(a, b) * b
  {
    var q, r := (-a) / b, (-a) % b;
    assert -a == q * b + r && 0 <= r < b;
    assert CeilDiv(a, b) * b == -(q * b);
    assert (CeilDiv(a, b) - 1) * b == -(q * b) - b;
  }

  /**
   * getPageInfo. `parsedTotal` is the parsed text of the total-count element,
   * `None` when the element is missing; `itemCount` is the number of review
   * items on the page.
   */
  function GetPageInfo(parsedTotal: Option<int>, itemCount: nat): (info: PageInfo)
    ensures info.reviewsPerPage == itemCount
    ensures parsedTotal.None? ==> info.totalReviews == 0
    ensures parsedTotal.Some? ==> info.totalReviews == parsedTotal.value
    ensures itemCount == 0 ==> info.totalPages == 0
    ensures itemCount > 0 ==>
      (info.totalPages - 1) * itemCount < info.totalReviews <= info.totalPages * itemCount
    ensures itemCount > 0 && info.totalReviews > 0 ==> info.totalPages >= 1
  {
    var totalReviews := match parsedTotal case Some(n) => n case None => 0;
    var totalPages := if itemCount > 0 then (CeilDivBounds(totalReviews, itemCount); CeilDiv(totalReviews, itemCount)) else 0;
    PageInfo(totalReviews, itemCount, totalPages)
  }

  // ---------------------------------------------------------------------------
  // Sub-scores from the rate lines of one review
  // ---------------------------------------------------------------------------

  /**
   * One rate line after the pattern "label, whitespace, number" has been
   * applied to its text: the label and the parsed number, or no match.
   */
  datatype RateLine = Unmatched | Matched(caption: string, score: real)

  /** The field a label selects: the first of the five label words it contains, in this order. */
  function FieldOfLabel(caption: string): Option<ScoreField> {
    if Contains(caption, "女の子") then Some(Girl)
    else if Contains(caption, "プレイ") then Some(Play)
    else if Contains(caption, "料金") then Some(Price)
    else if Contains(caption, "スタッフ") then Some(Staff)
    else if Contains(caption, "写真") then Some(Photo)
    else None
  }

  function FieldOf(line: RateLine): Option<ScoreField> {
    if line.Matched? then FieldOfLabel(line.caption) else None
  }

  /**
   * The value field `f` ends with: the score of the last line whose label
   * selects `f`, or 0 when no line does.
   */
  function LastScoreFor(lines: seq<RateLine>, f: ScoreField): real
    decreases |lines|
  {
    if lines == [] then 0.0
    else if FieldOf(lines[|lines| - 1]) == Some(f) then lines[|lines| - 1].score
    else LastScoreFor(lines[..|lines| - 1], f)
  }

  function ScoresOf(lines: seq<RateLine>): Scores {
    Scores(LastScoreFor(lines, Girl), LastScoreFor(lines, Play), LastScoreFor(lines, Price),
           LastScoreFor(lines, Staff), LastScoreFor(lines, Photo))
  }

  /** The rate-line loop of extractReviews: every field starts at 0 and each matching line sets one field. */
  method ExtractScores(lines: seq<RateLine>) returns (scores: Scores)
    ensures forall f :: FieldValue(scores, f) == LastScoreFor(lines, f)
    ensures scores == ScoresOf(lines)
  {
    scores := ZeroScores;
    for i := 0 to |lines|
      invariant forall f :: FieldValue(scores, f) == LastScoreFor(lines[..i], f)
    {
      assert lines[..i + 1][..i] == lines[..i];
      var line := lines[i];
      if line.Matched? {
        var caption := line.caption;
        if Contains(caption, "女の子") {
          scores := scores.(girl := line.score);
        } else if Contains(caption, "プレイ") {
          scores := scores.(play := line.score);
        } else if Contains(caption, "料金") {
          scores := scores.(price := line.score);
        } else if Contains(caption, "スタッフ") {
          scores := scores.(staff := line.score);
        } else if Contains(caption, "写真") {
          scores := scores.(photo := line.score);
        }
      }
    }
    assert lines[..|lines|] == lines;
    assert FieldValue(scores, Girl) == LastScoreFor(lines, Girl);
    assert FieldValue(scores, Play) == LastScoreFor(lines, Play);
    assert FieldValue(scores, Price) == LastScoreFor(lines, Price);
    assert FieldValue(scores, Staff) == LastScoreFor(lines, Staff);
    assert FieldValue(scores, Photo) == LastScoreFor(lines, Photo);
  }

  /** A line that matches no label word leaves every sub-score as it was. */
  lemma {:induction false} UnlabelledLineChangesNothing(lines: seq<RateLine>, line: RateLine, f: ScoreField)
    requires FieldOf(line).None?
    ensures LastScoreFor(lines + [line], f) == LastScoreFor(lines, f)
  {
    assert (lines + [line])[..|lines|] == lines;
  }

  /** A line whose label selects `g` sets `g` to its score and leaves every other field as it was. */
  lemma {:induction false} LabelledLineSetsOneField(lines: seq<RateLine>, line: RateLine, g: ScoreField, f: ScoreField)
    requires FieldOf(line) == Some(g)
    ensures LastScoreFor(lines + [line], f) == if f == g then line.score else LastScoreFor(lines, f)
  {
    assert (lines + [line])[..|lines|] == lines;
  }

  // ---------------------------------------------------------------------------
  // Post date: the capture of /掲載日：(.+)/
  // ---------------------------------------------------------------------------

  const PostDatePrefix: string := "掲載日："

  /** The characters the regular-expression dot does not match. */
  predicate IsLineTerminator(c: char) {
    c == '\n' || c == '\r' || c == '\U{2028}' || c == '\U{2029}'
  }

  /** The length of the run of non-line-terminators at the start of `s` (what a greedy `.+` takes). */
  function LineRun(s: string): (n: nat)
    ensures n <= |s|
    ensures forall i :: 0 <= i < n ==> !IsLineTerminator(s[i])
    ensures n < |s| ==> IsLineTerminator(s[n])
    decreases |s|
  {
    if s == [] || IsLineTerminator(s[0]) then 0 else 1 + LineRun(s[1..])
  }

  /** The capture of the leftmost match of /掲載日：(.+)/ that starts at or after `i`. */
  function PostDateMatchFrom(t: string, i: nat): Option<string>
    decreases |t| - i
  {
    if i + |PostDatePrefix| >= |t| then None
    else if OccursAt(t, PostDatePrefix, i) && !IsLineTerminator(t[i + |PostDatePrefix|]) then
      var rest := t[i + |PostDatePrefix|..];
      Some(rest[..LineRun(rest)])
    else PostDateMatchFrom(t, i + 1)
  }

  /** postDate: the capture when the pattern matches, otherwise the empty string. */
  function PostDate(text: string): string {
    match PostDateMatchFrom(text, 0)
    case Some(d) => d
    case None => ""
  }

  /** A match found from `i` has the prefix in front of it, is non-empty and holds no line terminator. */
  lemma {:induction false} PostDateMatchShape(t: string, i: nat)
    ensures PostDateMatchFrom(t, i).Some? ==>
      var d := PostDateMatchFrom(t, i).value;
      d != [] && Contains(t, PostDatePrefix) && (forall k :: 0 <= k < |d| ==> !IsLineTerminator(d[k]))
    decreases |t| - i
  {
    if i + |PostDatePrefix| < |t| {
      if OccursAt(t, PostDatePrefix, i) && !IsLineTerminator(t[i + |PostDatePrefix|]) {
        ContainsIff(t, PostDatePrefix, i);
      } else {
        PostDateMatchShape(t, i + 1);
      }
    }
  }

  /**
   * The post date is empty when the text lacks "掲載日：", never holds a line
   * terminator, and for "掲載日：" followed by one line of text is that text.
   */
  lemma PostDateSpec(text: string, d: string)
    ensures !Contains(text, PostDatePrefix) ==> PostDate(text) == ""
    ensures forall k :: 0 <= k < |PostDate(text)| ==> !IsLineTerminator(PostDate(text)[k])
    ensures d != [] && (forall k :: 0 <= k < |d| ==> !IsLineTerminator(d[k])) ==>
      PostDate(PostDatePrefix + d) == d
  {
    PostDateMatchShape(text, 0);
    if d != [] && (forall k :: 0 <= k < |d| ==> !IsLineTerminator(d[k])) {
      var t := PostDatePrefix + d;
      assert OccursAt(t, PostDatePrefix, 0);
      assert t[|PostDatePrefix|..] == d;
    }
  }

  // ---------------------------------------------------------------------------
  // extractReviews
  // ---------------------------------------------------------------------------

  /**
   * What the page holds for one review item: the `data-review-id` attribute
   * and the text content of each queried element (`None` where the element or
   * attribute is missing), and its rate lines.
   */
  datatype ReviewItem = ReviewItem(
    reviewIdAttr: Option<string>,
    visitDateText: Option<string>,
    nameText: Option<string>,
    totalRateText: Option<string>,
    rateLines: seq<RateLine>,
    titleText: Option<string>,
    bodyText: Option<string>,
    postDateText: Option<string>
  )

  /** `el?.textContent?.trim() ?? fallback`. */
  function TrimmedOr(t: Option<string>, fallback: string): string {
    match t
    case Some(s) => Trim(s)
    case None => fallback
  }

  /** The review extractReviews builds from one item; `parseFloat` turns text into a number. */
  function ExtractReview(item: ReviewItem, parseFloat: string -> real): ReviewData {
    ReviewData(
      match item.reviewIdAttr case Some(id) => id case None => "",
      TrimmedOr(item.visitDateText, ""),
      TrimmedOr(item.nameText, ""),
      parseFloat(TrimmedOr(item.totalRateText, "0")),
      ScoresOf(item.rateLines),
      TrimmedOr(item.titleText, ""),
      TrimmedOr(item.bodyText, ""),
      PostDate(TrimmedOr(item.postDateText, ""))
    )
  }

  /** extractReviews: one review per item, in page order. */
  method ExtractReviews(items: seq<ReviewItem>, parseFloat: string -> real) returns (reviews: seq<ReviewData>)
    ensures |reviews| == |items|
    ensures forall i :: 0 <= i < |items| ==> reviews[i] == ExtractReview(items[i], parseFloat)
  {
    reviews := [];
    for i := 0 to |items|
      invariant |reviews| == i
      invariant forall j :: 0 <= j < i ==> reviews[j] == ExtractReview(items[j], parseFloat)
    {
      var item := items[i];
      var reviewId := match item.reviewIdAttr case Some(id) => id case None => "";
      var scores := ExtractScores(item.rateLines);
      var postDateText := TrimmedOr(item.postDateText, "");
      reviews := reviews + [ReviewData(
        reviewId,
        TrimmedOr(item.visitDateText, ""),
        TrimmedOr(item.nameText, ""),
        parseFloat(TrimmedOr(item.totalRateText, "0")),
        scores,
        TrimmedOr(item.titleText, ""),
        TrimmedOr(item.bodyText, ""),
        PostDate(postDateText))];
    }
  }
}
