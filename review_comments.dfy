/**
 * `pr_review_comment_collector.rb`: count the review comments a reviewer
 * left on the pull requests updated in a window. A line comment counts when
 * its body is not blank; a submitted review counts when its body is not
 * blank and it is not an approval.
 */
module ReviewComments {
  import opened Wrappers
  import opened Rounding
  import opened GitHub
  import opened Pagination

  /** The characters `String#strip` removes: NUL, tab, line feed, vertical tab, form feed, carriage return, space. */
  predicate IsStripSpace(c: char) {
    c == '\0' || c == '\t' || c == '\n' || c == '\U{B}' || c == '\U{C}' || c == '\r' || c == ' '
  }

  /** The number of white-space characters `s` starts with. */
  function LeadingSpace(s: string): (k: nat)
    ensures k <= |s|
    ensures forall i :: 0 <= i < k ==> IsStripSpace(s[i])
    ensures k < |s| ==> !IsStripSpace(s[k])
  {
    if s != [] && IsStripSpace(s[0]) then 1 + LeadingSpace(s[1..]) else 0
  }

  /** The number of white-space characters `s` ends with. */
  function TrailingSpace(s: string): (k: nat)
    ensures k <= |s|
    ensures forall i :: |s| - k <= i < |s| ==> IsStripSpace(s[i])
    ensures k < |s| ==> !IsStripSpace(s[|s| - 1 - k])
  {
    if s != [] && IsStripSpace(s[|s| - 1]) then 1 + TrailingSpace(s[..|s| - 1]) else 0
  }

  /**
   * `String#strip`: `s` without the white space at either end. It is empty
   * exactly when every character is white space.
   */
  function Strip(s: string): (r: string)
    ensures r == [] <==> forall i :: 0 <= i < |s| ==> IsStripSpace(s[i])
    ensures r != [] ==> !IsStripSpace(r[0]) && !IsStripSpace(r[|r| - 1])
  {
    var lead := s[LeadingSpace(s)..];
    var r := lead[..|lead| - TrailingSpace(lead)];
    assert lead != [] ==> TrailingSpace(lead) < |lead|;
    r
  }

  /** `body && !body.strip.empty?`. */
  predicate HasText(body: Option<string>) {
    body.Some? && Strip(body.value) != []
  }

  predicate CountsComment(c: ReviewComment, reviewer: string) {
    c.author == reviewer && HasText(c.body)
  }

  predicate CountsReview(v: Review, reviewer: string) {
    v.reviewer == reviewer && HasText(v.body) && v.state != "APPROVED"
  }

  /** The number of the reviewer's line comments that have text. */
  function CommentCount(comments: seq<ReviewComment>, reviewer: string): (n: nat)
    ensures n <= |comments|
  {
    if comments == [] then 0
    else CommentCount(comments[..|comments| - 1], reviewer)
         + if CountsComment(comments[|comments| - 1], reviewer) then 1 else 0
  }

  /** The number of the reviewer's reviews that have text and are not approvals. */
  function ReviewCommentCount(reviews: seq<Review>, reviewer: string): (n: nat)
    ensures n <= |reviews|
  {
    if reviews == [] then 0
    else ReviewCommentCount(reviews[..|reviews| - 1], reviewer)
         + if CountsReview(reviews[|reviews| - 1], reviewer) then 1 else 0
  }

  /** `count_review_comments`: the two `each` loops over one pull request's comments and reviews. */
  method CountReviewComments(comments: seq<ReviewComment>, reviews: seq<Review>, reviewer: string)
    returns (commentCount: nat)
    ensures commentCount == CommentCount(comments, reviewer) + ReviewCommentCount(reviews, reviewer)
    ensures commentCount <= |comments| + |reviews|
  {
    commentCount := 0;
    for i := 0 to |comments|
      invariant commentCount == CommentCount(comments[..i], reviewer)
    {
      assert comments[..i + 1][..i] == comments[..i];
      var comment := comments[i];
      if comment.author == reviewer {
        if comment.body.Some? && Strip(comment.body.value) != [] {
          commentCount := commentCount + 1;
        }
      }
    }
    assert comments[..|comments|] == comments;
    ghost var fromComments := commentCount;
    for i := 0 to |reviews|
      invariant commentCount == fromComments + ReviewCommentCount(reviews[..i], reviewer)
    {
      assert reviews[..i + 1][..i] == reviews[..i];
      var review := reviews[i];
      if review.reviewer == reviewer && review.body.Some? && Strip(review.body.value) != [] && review.state != "APPROVED" {
        commentCount := commentCount + 1;
      }
    }
    assert reviews[..|reviews|] == reviews;
  }

  lemma {:induction false} CommentCountConcat(a: seq<ReviewComment>, b: seq<ReviewComment>, reviewer: string)
    ensures CommentCount(a + b, reviewer) == CommentCount(a, reviewer) + CommentCount(b, reviewer)
    decreases |b|
  {
    if b != [] {
      assert (a + b)[..|a + b| - 1] == a + b[..|b| - 1];
      CommentCountConcat(a, b[..|b| - 1], reviewer);
    } else {
      assert a + b == a;
    }
  }

  lemma {:induction false} ReviewCommentCountConcat(a: seq<Review>, b: seq<Review>, reviewer: string)
    ensures ReviewCommentCount(a + b, reviewer) == ReviewCommentCount(a, reviewer) + ReviewCommentCount(b, reviewer)
    decreases |b|
  {
    if b != [] {
      assert (a + b)[..|a + b| - 1] == a + b[..|b| - 1];
      ReviewCommentCountConcat(a, b[..|b| - 1], reviewer);
    } else {
      assert a + b == a;
    }
  }

  /** A line comment by someone else, wherever it stands, never changes the count. */
  lemma OthersCommentsIgnored(a: seq<ReviewComment>, c: ReviewComment, b: seq<ReviewComment>, reviewer: string)
    requires c.author != reviewer
    ensures CommentCount(a + [c] + b, reviewer) == CommentCount(a + b, reviewer)
  {
    CommentCountConcat(a + [c], b, reviewer);
    CommentCountConcat(a, b, reviewer);
    assert (a + [c])[..|a|] == a;
  }

  /** A review by someone else, wherever it stands, never changes the count. */
  lemma OthersReviewsIgnored(a: seq<Review>, v: Review, b: seq<Review>, reviewer: string)
    requires v.reviewer != reviewer
    ensures ReviewCommentCount(a + [v] + b, reviewer) == ReviewCommentCount(a + b, reviewer)
  {
    ReviewCommentCountConcat(a + [v], b, reviewer);
    ReviewCommentCountConcat(a, b, reviewer);
    assert (a + [v])[..|a|] == a;
  }

  /**
   * `pr_has_reviewer?` of this script: never for the pull request's author;
   * otherwise iff the reviewer submitted a review. Request events play no part.
   */
  function PrHasReviewer(pr: PullRequest, activity: Activity, reviewer: string): bool {
    if pr.author == reviewer then false
    else ReviewsBy(activity.reviews, reviewer) != []
  }

  lemma PrHasReviewerSpec(pr: PullRequest, activity: Activity, reviewer: string)
    ensures pr.author == reviewer ==> !PrHasReviewer(pr, activity, reviewer)
    ensures pr.author != reviewer ==> (PrHasReviewer(pr, activity, reviewer) <==> HasReviewBy(activity.reviews, reviewer))
  {
    ReviewsBySpec(activity.reviews, reviewer);
  }

  /** The counted comments of one pull request. */
  function CommentsOn(pr: PullRequest, activity: map<int, Activity>, reviewer: string): nat {
    var a := ActivityOf(activity, pr.number);
    CommentCount(a.comments, reviewer) + ReviewCommentCount(a.reviews, reviewer)
  }

  /** The pull requests of the window that involve the reviewer, in order. */
  function Involved(prs: seq<PullRequest>, activity: map<int, Activity>, reviewer: string): (r: seq<PullRequest>)
    ensures forall pr :: pr in r <==> pr in prs && PrHasReviewer(pr, ActivityOf(activity, pr.number), reviewer)
  {
    if prs == [] then []
    else
      var init, last := prs[..|prs| - 1], prs[|prs| - 1];
      assert prs == init + [last];
      Involved(init, activity, reviewer)
        + if PrHasReviewer(last, ActivityOf(activity, last.number), reviewer) then [last] else []
  }

  /** The sum of the counted comments of the given pull requests. */
  function TotalComments(prs: seq<PullRequest>, activity: map<int, Activity>, reviewer: string): nat {
    if prs == [] then 0
    else TotalComments(prs[..|prs| - 1], activity, reviewer) + CommentsOn(prs[|prs| - 1], activity, reviewer)
  }

  lemma InvolvedStep(prs: seq<PullRequest>, i: nat, activity: map<int, Activity>, reviewer: string)
    requires i < |prs|
    ensures Involved(prs[..i + 1], activity, reviewer) ==
      Involved(prs[..i], activity, reviewer)
        + if PrHasReviewer(prs[i], ActivityOf(activity, prs[i].number), reviewer) then [prs[i]] else []
  {
    assert prs[..i + 1][..i] == prs[..i];
  }

  lemma TotalCommentsSnoc(prs: seq<PullRequest>, pr: PullRequest, activity: map<int, Activity>, reviewer: string)
    ensures TotalComments(prs + [pr], activity, reviewer) == TotalComments(prs, activity, reviewer) + CommentsOn(pr, activity, reviewer)
  {
    assert (prs + [pr])[..|prs|] == prs;
  }

  /**
   * `collect_review_comments`: with an invalid token it returns 0 and lists
   * nothing; otherwise it lists the window by update time and, over the
   * involved pull requests, counts them and sums their comment counts.
   */
  method CollectReviewComments(userResponse: Json, pages: seq<seq<PullRequest>>, activity: map<int, Activity>,
                               reviewer: string, start: Timestamp, end: Timestamp)
    returns (totalComments: nat, prCount: nat, pagesRequested: nat)
    ensures !ValidateToken(userResponse) ==> totalComments == 0 && prCount == 0 && pagesRequested == 0
    ensures ValidateToken(userResponse) ==>
      && pagesRequested == FirstStop(pages, Updated, start)
      && var prs := Collected(pages, Updated, start, end, pagesRequested);
         && prCount == |Involved(prs, activity, reviewer)|
         && totalComments == TotalComments(Involved(prs, activity, reviewer), activity, reviewer)
  {
    if !ValidateToken(userResponse) {
      return 0, 0, 0;
    }
    var prs;
    prs, pagesRequested := FetchPrsInPeriod(pages, Updated, start, end);
    FirstStopCharacterized(pages, Updated, start, pagesRequested);
    totalComments, prCount := TallyInvolved(prs, activity, reviewer);
  }

  /** The `prs.each` loop of `collect_review_comments`, which bumps `pr_count` and `total_comments`. */
  method TallyInvolved(prs: seq<PullRequest>, activity: map<int, Activity>, reviewer: string)
    returns (totalComments: nat, prCount: nat)
    ensures prCount == |Involved(prs, activity, reviewer)|
    ensures totalComments == TotalComments(Involved(prs, activity, reviewer), activity, reviewer)
  {
    totalComments, prCount := 0, 0;
    for i := 0 to |prs|
      invariant prCount == |Involved(prs[..i], activity, reviewer)|
      invariant totalComments == TotalComments(Involved(prs[..i], activity, reviewer), activity, reviewer)
    {
      var pr := prs[i];
      InvolvedStep(prs, i, activity, reviewer);
      var a := ActivityOf(activity, pr.number);
      if PrHasReviewer(pr, a, reviewer) {
        prCount := prCount + 1;
        var commentCount := CountReviewComments(a.comments, a.reviews, reviewer);
        TotalCommentsSnoc(Involved(prs[..i], activity, reviewer), pr, activity, reviewer);
        totalComments := totalComments + commentCount;
        assert Involved(prs[..i + 1], activity, reviewer) == Involved(prs[..i], activity, reviewer) + [pr];
      } else {
        assert Involved(prs[..i + 1], activity, reviewer) == Involved(prs[..i], activity, reviewer);
      }
    }
    assert prs[..|prs|] == prs;
  }

  /** The printed average of comments per pull request, in hundredths; 0 when no pull request counted. */
  function AverageHundredths(totalComments: nat, prCount: nat): (avg: int)
    ensures prCount == 0 ==> avg == 0
    ensures prCount > 0 ==> avg >= 0 && IsNearest(avg, totalComments * 100, prCount)
  {
    if prCount > 0 then RoundDiv(totalComments * 100, prCount) else 0
  }
}
