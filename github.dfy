/**
 * The GitHub REST API payloads both review scripts read, as typed records.
 * Every response is given data: a request that failed (HTTP 401, 403, 404,
 * any other status, a transport error) returns `[]` in the scripts, so here
 * it is simply an empty sequence.
 */
module GitHub {
  import opened Wrappers

  /** A time instant, in whole seconds. */
  type Timestamp = int

  /** A pull request as listed by `GET /repos/{repo}/pulls`. */
  datatype PullRequest = PullRequest(
    number: int,
    title: string,
    body: Option<string>,   // `pr['body']`, which GitHub sends as null when empty
    author: string,         // `pr['user']['login']`
    createdAt: Timestamp,
    updatedAt: Timestamp)

  /** An entry of `GET /repos/{repo}/issues/{n}/events`. */
  datatype IssueEvent = IssueEvent(
    event: string,                       // `event['event']`, such as "review_requested"
    requestedReviewer: Option<string>,   // `event['requested_reviewer']['login']`; absent for team requests
    createdAt: Timestamp)

  /** An entry of `GET /repos/{repo}/pulls/{n}/reviews`. */
  datatype Review = Review(
    reviewer: string,        // `review['user']['login']`
    submittedAt: Timestamp,
    body: Option<string>,
    state: string)           // "APPROVED", "CHANGES_REQUESTED", "COMMENTED", ...

  /** An entry of `GET /repos/{repo}/pulls/{n}/comments` (a line comment on the diff). */
  datatype ReviewComment = ReviewComment(author: string, body: Option<string>)

  /** The reviewer submitted at least one of these reviews. */
  ghost predicate HasReviewBy(reviews: seq<Review>, reviewer: string) {
    exists i :: 0 <= i < |reviews| && reviews[i].reviewer == reviewer
  }

  /** `reviews.select { |review| review['user']['login'] == reviewer }`. */
  function ReviewsBy(reviews: seq<Review>, reviewer: string): (r: seq<Review>)
    ensures |r| <= |reviews|
  {
    if reviews == [] then []
    else
      var init, last := reviews[..|reviews| - 1], reviews[|reviews| - 1];
      ReviewsBy(init, reviewer) + (if last.reviewer == reviewer then [last] else [])
  }

  /** The selection keeps exactly the reviewer's reviews, and is empty iff there is none. */
  lemma {:induction false} ReviewsBySpec(reviews: seq<Review>, reviewer: string)
    ensures forall v :: v in ReviewsBy(reviews, reviewer) <==> v in reviews && v.reviewer == reviewer
    ensures ReviewsBy(reviews, reviewer) != [] <==> HasReviewBy(reviews, reviewer)
  {
    if reviews != [] {
      var init, last := reviews[..|reviews| - 1], reviews[|reviews| - 1];
      assert reviews == init + [last];
      ReviewsBySpec(init, reviewer);
      if HasReviewBy(reviews, reviewer) && last.reviewer != reviewer {
        var i :| 0 <= i < |reviews| && reviews[i].reviewer == reviewer;
        assert init[i].reviewer == reviewer;
      }
    }
  }

  /** What the three per-pull-request endpoints return for one pull request. */
  datatype Activity = Activity(
    events: seq<IssueEvent>,
    reviews: seq<Review>,
    comments: seq<ReviewComment>)

  /** The responses for pull request `number`; one that was never answered reads as empty. */
  function ActivityOf(activity: map<int, Activity>, number: int): (a: Activity)
    ensures number !in activity ==> a.events == [] && a.reviews == [] && a.comments == []
    ensures number in activity ==> a == activity[number]
  {
    if number in activity then activity[number] else Activity([], [], [])
  }

  /** The timestamp a listing is sorted, filtered and cut by. */
  datatype SortKey = Created | Updated

  function Stamp(pr: PullRequest, key: SortKey): Timestamp {
    match key
    case Created => pr.createdAt
    case Updated => pr.updatedAt
  }

  /** A decoded JSON document, as `JSON.parse` returns it. */
  datatype Json =
    | JNull
    | JBool(b: bool)
    | JNumber(n: int)
    | JString(s: string)
    | JArray(items: seq<Json>)
    | JObject(fields: map<string, Json>)

  /**
   * `validate_token`: the `GET /user` response is not nil, not empty, a Hash
   * and has the key "login". `empty?` is undefined on numbers and booleans,
   * so for those the call raises and the rescue answers false.
   */
  function ValidateToken(response: Json): (valid: bool)
    ensures valid <==> response.JObject? && "login" in response.fields
  {
    match response
    case JNull => false
    case JBool(_) => false
    case JNumber(_) => false
    case JString(_) => false   // not a Hash
    case JArray(_) => false    // not a Hash; this is also what a failed request returns
    case JObject(fields) => fields != map[] && "login" in fields
  }
}
